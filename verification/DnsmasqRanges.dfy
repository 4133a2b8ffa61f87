/** The client ranges that dnsmasq reads from its file: exactly the one that was set, unless a name hides another. */
module DnsmasqRanges {
  import opened CStrings
  import opened ApSettings
  import opened Ipv4
  import opened Hostapd
  import opened Dnsmasq

  // ----- a reader -----

  const RANGE := "dhcp-range"

  /** All values that are given for a key. */
  function Values(entries: seq<Entry>, key: string): seq<string> {
    if entries == [] then []
    else (if entries[0].key == key then [entries[0].value] else []) + Values(entries[1..], key)
  }

  function RangeValues(text: string): seq<string> {
    Values(Entries(text), RANGE)
  }

  /** The endpoints in the value of a range. */
  function Endpoints(value: string): (string, string) {
    var i := Find(value, ',');
    if i == |value| then (value, "") else (value[..i], value[i + 1..][..Find(value[i + 1..], ',')])
  }

  function EndpointsOfAll(values: seq<string>): (ranges: seq<(string, string)>)
    ensures |ranges| == |values|
  {
    if values == [] then [] else [Endpoints(values[0])] + EndpointsOfAll(values[1..])
  }

  /** All client ranges in a dnsmasq file: dnsmasq serves every one of them. */
  function Ranges(text: string): seq<(string, string)> {
    EndpointsOfAll(RangeValues(text))
  }

  function FirstLine(text: string): string {
    text[..Find(text, '\n')]
  }

  /** Behind a line break in the text there is a line that gives a range. */
  predicate HidesRange(text: string) {
    exists i | 0 <= i < |text| :: BreaksToRange(text, i)
  }

  predicate BreaksToRange(text: string, i: nat)
    requires i < |text|
  {
    text[i] == '\n' && Split(FirstLine(text[i + 1..])).key == RANGE
  }

  lemma SplitKeyValue(key: string, value: string)
    requires Lacks(key, '=')
    ensures Split(key + "=" + value) == Entry(key, value)
  {
    FindBehind(key, '=', value);
    var line := key + ['='] + value;
    assert line[..|key|] == key && line[|key| + 1..] == value;
  }

  /** The first line of a text, read. */
  lemma EntriesOfFirstLine(line: string, rest: string)
    requires Lacks(line, '\n')
    ensures Entries(line + "\n" + rest) == [Split(line)] + Entries(rest)
  {
    FindBehind(line, '\n', rest);
    var text := line + ['\n'] + rest;
    assert text[..|line|] == line && text[|line| + 1..] == rest;
  }

  lemma {:induction false} DottedIsPlain(octets: seq<Octet>)
    requires octets != []
    ensures forall k | 0 <= k < |DottedOctets(octets)| :: IsDigit(DottedOctets(octets)[k]) || DottedOctets(octets)[k] == '.'
  {
    var head := NatText(octets[0]);
    assert forall k | 0 <= k < |head| :: head[k] in head;
    if |octets| > 1 {
      DottedIsPlain(octets[1..]);
    }
  }

  // ----- which ranges a file gives -----

  predicate EndsLine(text: string) {
    text != "" && text[|text| - 1] == '\n'
  }

  /** Behind a complete line, reading starts afresh. */
  lemma {:induction false} EntriesOfBoth(a: string, b: string)
    requires a == "" || EndsLine(a)
    ensures Entries(a + b) == Entries(a) + Entries(b)
    decreases |a|
  {
    hide Find, Entries, Split;
    if a == "" {
      EntriesOfNothing();
      assert a + b == b;
    } else {
      BreakIsFound(a);
      var n := Find(a, '\n');
      var rest := a[n + 1..];
      assert a == a[..n] + "\n" + rest && a + b == a[..n] + "\n" + (rest + b);
      EntriesOfFirstLine(a[..n], rest);
      EntriesOfFirstLine(a[..n], rest + b);
      EntriesOfBoth(rest, b);
    }
  }

  lemma EntriesOfNothing()
    ensures Entries("") == []
  {
  }

  lemma BreakIsFound(text: string)
    requires EndsLine(text)
    ensures Find(text, '\n') < |text|
  {
    assert text[..|text|][|text| - 1] == '\n';
  }

  lemma {:induction false} ValuesOfBoth(x: seq<Entry>, y: seq<Entry>, key: string)
    ensures Values(x + y, key) == Values(x, key) + Values(y, key)
  {
    if x == [] {
      assert x + y == y;
    } else {
      ValuesOfBoth(x[1..], y, key);
      assert (x + y)[1..] == x[1..] + y;
    }
  }

  lemma RangeValuesOfBoth(a: string, b: string)
    requires a == "" || EndsLine(a)
    ensures RangeValues(a + b) == RangeValues(a) + RangeValues(b)
  {
    EntriesOfBoth(a, b);
    ValuesOfBoth(Entries(a), Entries(b), RANGE);
  }

  lemma RangeValuesOfLine(line: string, rest: string)
    requires Lacks(line, '\n')
    ensures RangeValues(line + "\n" + rest) ==
      (if Split(line).key == RANGE then [Split(line).value] else []) + RangeValues(rest)
  {
    EntriesOfFirstLine(line, rest);
    assert ([Split(line)] + Entries(rest))[1..] == Entries(rest);
  }

  /** A text without a line break is one line. */
  lemma LastLine(line: string)
    requires Find(line, '\n') == |line|
    ensures FirstLine(line) == line && !HidesRange(line)
    ensures line != "" ==> Entries(line) == [Split(line)]
  {
    assert line[..|line|] == line;
  }

  lemma ValuesOfOne(e: Entry, key: string)
    ensures Values([e], key) == if e.key == key then [e.value] else []
  {
    assert [e][1..] == [];
  }

  lemma EmptyLine()
    ensures Split("").key == "" && RangeValues("") == []
  {
  }

  lemma LastLineValues(line: string)
    requires Find(line, '\n') == |line|
    ensures FirstLine(line) == line && !HidesRange(line)
    ensures RangeValues(line) == if Split(line).key == RANGE then [Split(line).value] else []
  {
    hide Entries, Find, Split, HidesRange, FirstLine, Values;
    LastLine(line);
    if line == "" {
      EmptyLine();
    } else {
      ValuesOfOne(Split(line), RANGE);
    }
  }

  /** A text gives no range exactly if its first line gives none and none is behind a line break. */
  lemma {:induction false} NoRangeIff(text: string)
    ensures RangeValues(text) == [] <==> Split(FirstLine(text)).key != RANGE && !HidesRange(text)
    decreases |text|
  {
    var n := Find(text, '\n');
    if n == |text| {
      LastLineValues(text);
    } else {
      var rest := text[n + 1..];
      assert text == text[..n] + "\n" + rest;
      RangeValuesOfLine(text[..n], rest);
      NoRangeIff(rest);
      HiddenBehind(text, n);
    }
  }

  /** A hidden range is right behind the first line break, or hidden in the rest. */
  lemma HiddenBehind(text: string, n: nat)
    requires n == Find(text, '\n') < |text|
    ensures HidesRange(text) <==> Split(FirstLine(text[n + 1..])).key == RANGE || HidesRange(text[n + 1..])
  {
    hide Find, Split, FirstLine, BreaksToRange;
    var rest := text[n + 1..];
    forall i | 0 <= i < n ensures !BreaksToRange(text, i) {
      NoBreakBefore(text, n, i);
    }
    BreakAt(text, n);
    forall i | 0 <= i < |rest| ensures BreaksToRange(rest, i) <==> BreaksToRange(text, n + 1 + i) {
      BreakBehind(text, n, i);
    }
    forall i | n < i < |text| ensures BreaksToRange(rest, i - n - 1) <==> BreaksToRange(text, i) {
      BreakBehind(text, n, i - n - 1);
    }
  }

  lemma NoBreakBefore(text: string, n: nat, i: nat)
    requires i < n <= |text| && Lacks(text[..n], '\n')
    ensures !BreaksToRange(text, i)
  {
    assert text[..n][i] == text[i];
  }

  lemma BreakAt(text: string, n: nat)
    requires n < |text| && text[n] == '\n'
    ensures BreaksToRange(text, n) <==> Split(FirstLine(text[n + 1..])).key == RANGE
  {
  }

  lemma BreakBehind(text: string, n: nat, i: nat)
    requires n + 1 + i < |text|
    ensures BreaksToRange(text[n + 1..], i) <==> BreaksToRange(text, n + 1 + i)
  {
    assert text[n + 1..][i + 1..] == text[n + 1 + i + 1..];
  }

  /** A line break at the end adds no range. */
  lemma {:induction false} TrailingBreak(text: string)
    ensures RangeValues(text + "\n") == RangeValues(text)
    decreases |text|
  {
    hide Entries, Split, HidesRange, FirstLine, Values, RangeValues, Find;
    var n := Find(text, '\n');
    EmptyLine();
    if n == |text| {
      LastLineValues(text);
      assert text[..n] == text && text + "\n" + "" == text + "\n";
      RangeValuesOfLine(text, "");
    } else {
      var rest := text[n + 1..];
      assert text == text[..n] + "\n" + rest && text + "\n" == text[..n] + "\n" + (rest + "\n");
      RangeValuesOfLine(text[..n], rest);
      RangeValuesOfLine(text[..n], rest + "\n");
      TrailingBreak(rest);
    }
  }

  /** A setting printed behind a key gives a range exactly if it hides one. */
  lemma KeyedGivesNoRangeIff(key: string, value: string)
    requires Lacks(key, '=') && Lacks(key, '\n') && key != RANGE
    ensures RangeValues(key + "=" + value + "\n") == [] <==> !HidesRange(value)
  {
    hide Entries, Split, HidesRange, FirstLine, Values, RangeValues, Find, Lacks;
    var n := Find(value, '\n');
    var first := value[..n];
    KeyedLineLacks(key, first);
    SplitKeyValue(key, first);
    if n == |value| {
      EmptyLine();
      LastLineValues(value);
      assert first == value && key + "=" + value + "\n" + "" == key + "=" + value + "\n";
      RangeValuesOfLine(key + "=" + first, "");
    } else {
      var rest := value[n + 1..];
      assert value == first + "\n" + rest;
      assert key + "=" + value + "\n" == (key + "=" + first) + "\n" + (rest + "\n");
      RangeValuesOfLine(key + "=" + first, rest + "\n");
      TrailingBreak(rest);
      HiddenBehind(value, n);
      NoRangeIff(rest);
    }
  }

  lemma KeyedLineLacks(key: string, value: string)
    requires Lacks(key, '\n') && Lacks(value, '\n')
    ensures Lacks(key + "=" + value, '\n')
  {
  }

  lemma {:induction false} FindInBoth(a: string, b: string, c: char)
    ensures Find(a + b, c) == if Find(a, c) < |a| then Find(a, c) else |a| + Find(b, c)
  {
    if a == "" {
      assert a + b == b;
    } else {
      assert (a + b)[1..] == a[1..] + b;
      FindInBoth(a[1..], b, c);
    }
  }

  /** A tail without '=' lengthens a key only where there was no '='. */
  lemma SplitBehind(line: string, tail: string)
    requires Lacks(tail, '=')
    ensures Split(line + tail).key == if Find(line, '=') < |line| then Split(line).key else line + tail
  {
    hide Find;
    FindInBoth(line, tail, '=');
    LacksToTheEnd(tail, '=');
    var n := Find(line, '=');
    assert n < |line| ==> (line + tail)[..n] == line[..n];
  }

  /** A tail without a line break lengthens the first line only where that is the whole text. */
  lemma FirstLineBehind(text: string, tail: string)
    requires Lacks(tail, '\n')
    ensures FirstLine(text + tail) == if Find(text, '\n') < |text| then FirstLine(text) else FirstLine(text) + tail
  {
    hide Find;
    FindInBoth(text, tail, '\n');
    LacksToTheEnd(tail, '\n');
    var n := Find(text, '\n');
    assert n < |text| ==> (text + tail)[..n] == text[..n];
    assert n == |text| ==> text[..n] == text && (text + tail)[..n + |tail|] == text + tail;
  }

  /** A slash behind a text makes no range of its first line. */
  lemma SlashBehind(text: string, key: string)
    requires key != "" && key[|key| - 1] != '/' && Split(FirstLine(text + "/")).key == key
    ensures Split(FirstLine(text)).key == key
  {
    hide Find, FirstLine, Split;
    FirstLineBehind(text, "/");
    SplitBehind(FirstLine(text), "/");
    var line := FirstLine(text) + "/";
    assert line[|line| - 1] == '/';
  }

  lemma SlashedHides(domain: string)
    requires HidesRange("/" + domain + "/")
    ensures HidesRange(domain)
  {
    var slashed := "/" + domain + "/";
    var i :| 0 <= i < |slashed| && BreaksToRange(slashed, i);
    assert 0 < i <= |domain| && domain[i - 1] == slashed[i];
    assert slashed[i + 1..] == domain[i..] + "/";
    assert RANGE[|RANGE| - 1] == 'e';
    SlashBehind(domain[i..], RANGE);
    assert BreaksToRange(domain, i - 1);
  }

  // ----- the ranges of the printed file -----

  predicate GivesNone(line: string) {
    EndsLine(line) && RangeValues(line) == []
  }

  lemma {:induction false} ConcatGivesNone(lines: seq<string>)
    requires forall i | 0 <= i < |lines| :: GivesNone(lines[i])
    ensures Concat(lines) == "" || EndsLine(Concat(lines))
    ensures RangeValues(Concat(lines)) == []
  {
    hide RangeValues;
    if lines == [] {
      EmptyLine();
    } else {
      ConcatGivesNone(lines[1..]);
      RangeValuesOfBoth(lines[0], Concat(lines[1..]));
      LastOfBoth(lines[0], Concat(lines[1..]));
    }
  }

  lemma LastOfBoth(a: string, b: string)
    requires EndsLine(a) && (b == "" || EndsLine(b))
    ensures EndsLine(a + b)
  {
    if b == "" {
      assert a + b == a;
    }
  }

  lemma KeyedGivesNone(key: string, value: string)
    requires Lacks(key, '=') && Lacks(key, '\n') && Lacks(value, '\n') && key != RANGE
    ensures GivesNone(key + "=" + value + "\n")
  {
    KeyedGivesNoRangeIff(key, value);
    hide RangeValues;
  }

  lemma FlagGivesNone(key: string)
    requires Lacks(key, '=') && Lacks(key, '\n') && key != RANGE
    ensures GivesNone(key + "\n")
  {
    hide Entries, Values;
    LacksToTheEnd(key, '=');
    EmptyLine();
    RangeValuesOfLine(key, "");
    assert key + "\n" + "" == key + "\n";
  }

  lemma LacksToTheEnd(text: string, c: char)
    requires Lacks(text, c)
    ensures Find(text, c) == |text|
  {
  }

  function Listeners(ap: string): seq<string> {
    ["bind-interfaces\n", "listen-address=" + ap + "\n", "expand-hosts\n", "addn-hosts=/tmp/add_hosts\n"]
  }

  function Options(ap: string): seq<string> {
    ["dhcp-option=3," + ap + "\n", "dhcp-option=6," + ap + "\n"]
  }

  lemma ListenersGiveNone(ap: string)
    requires Lacks(ap, '\n')
    ensures GivesNone("bind-interfaces\n") && GivesNone("listen-address=" + ap + "\n")
  {
    hide GivesNone;
    assert Lacks("bind-interfaces", '=') && Lacks("bind-interfaces", '\n');
    assert Lacks("listen-address", '=') && Lacks("listen-address", '\n');
    hide Lacks;
    FlagGivesNone("bind-interfaces");
    KeyedGivesNone("listen-address", ap);
    assert "bind-interfaces\n" == "bind-interfaces" + "\n" && "listen-address=" == "listen-address" + "=";
  }

  lemma HostsGiveNone()
    ensures GivesNone("expand-hosts\n") && GivesNone("addn-hosts=/tmp/add_hosts\n")
  {
    hide GivesNone;
    assert Lacks("expand-hosts", '=') && Lacks("expand-hosts", '\n');
    assert Lacks("addn-hosts", '=') && Lacks("addn-hosts", '\n');
    assert Lacks("/tmp/add_hosts", '\n');
    hide Lacks;
    FlagGivesNone("expand-hosts");
    KeyedGivesNone("addn-hosts", "/tmp/add_hosts");
    assert "expand-hosts\n" == "expand-hosts" + "\n";
    assert "addn-hosts=/tmp/add_hosts\n" == "addn-hosts" + "=" + "/tmp/add_hosts" + "\n";
  }

  lemma OptionsGiveNone(ap: string)
    requires Lacks(ap, '\n')
    ensures GivesNone("dhcp-option=3," + ap + "\n") && GivesNone("dhcp-option=6," + ap + "\n")
  {
    hide GivesNone;
    assert Lacks("dhcp-option", '=') && Lacks("dhcp-option", '\n');
    assert Lacks("3," + ap, '\n') && Lacks("6," + ap, '\n');
    hide Lacks;
    KeyedGivesNone("dhcp-option", "3," + ap);
    KeyedGivesNone("dhcp-option", "6," + ap);
    assert "dhcp-option=3," == "dhcp-option" + "=" + "3," && "dhcp-option=6," == "dhcp-option" + "=" + "6,";
    assert "dhcp-option=3," + ap + "\n" == "dhcp-option" + "=" + ("3," + ap) + "\n";
    assert "dhcp-option=6," + ap + "\n" == "dhcp-option" + "=" + ("6," + ap) + "\n";
  }

  lemma AroundRangeGivesNone(ap: string)
    requires Lacks(ap, '\n')
    ensures RangeValues(Concat(Listeners(ap))) == [] && EndsLine(Concat(Listeners(ap)))
    ensures RangeValues(Concat(Options(ap))) == [] && EndsLine(Concat(Options(ap)))
  {
    hide GivesNone, RangeValues, EndsLine;
    ListenersGiveNone(ap);
    HostsGiveNone();
    OptionsGiveNone(ap);
    ConcatGivesNone(Listeners(ap));
    ConcatGivesNone(Options(ap));
    assert |Concat(Listeners(ap))| >= |Listeners(ap)[0]| > 0;
    assert |Concat(Options(ap))| >= |Options(ap)[0]| > 0;
  }

  lemma EndpointsOfValue(start: string, stop: string)
    requires Lacks(start, ',') && Lacks(stop, ',')
    ensures Endpoints(start + "," + stop + ",24h") == (start, stop)
  {
    var value, rest := start + "," + stop + ",24h", stop + [','] + "24h";
    assert value == start + [','] + rest;
    FindBehind(start, ',', rest);
    FindBehind(stop, ',', "24h");
    assert value[|start| + 1..] == rest && value[..|start|] == start && rest[..|stop|] == stop;
  }

  function DomainLines(domain: string): string {
    ("domain=" + domain + "\n") + ("local=/" + domain + "/\n")
  }

  function RangeLine(start: string, stop: string): string {
    "dhcp-range=" + start + "," + stop + ",24h\n"
  }

  lemma TextParts(ap: string, start: string, stop: string, domain: string)
    ensures DnsmasqText(ap, start, stop, domain)
      == Concat(Listeners(ap)) + (DomainLines(domain) + (RangeLine(start, stop) + Concat(Options(ap))))
  {
    var middle := ["domain=" + domain + "\n", "local=/" + domain + "/\n"];
    var line := [RangeLine(start, stop)];
    assert DnsmasqLines(ap, start, stop, domain) == Listeners(ap) + (middle + (line + Options(ap)));
    ConcatOfTwo(Listeners(ap), middle + (line + Options(ap)));
    ConcatOfTwo(middle, line + Options(ap));
    ConcatOfTwo(line, Options(ap));
    ConcatOfLines(middle[0], middle[1]);
    ConcatOfLine(line[0]);
    hide Concat;
  }

  lemma ConcatOfLine(line: string)
    ensures Concat([line]) == line
  {
    assert Concat([line]) == line + Concat([]) == line;
  }

  lemma ConcatOfLines(a: string, b: string)
    ensures Concat([a, b]) == a + b
  {
    assert [a, b][1..] == [b];
    ConcatOfLine(b);
  }

  /** The domain name is printed twice; it gives no range exactly if it hides none. */
  lemma DomainGivesNoRangeIff(domain: string)
    ensures RangeValues(DomainLines(domain)) == [] <==> !HidesRange(domain)
  {
    var first, second := "domain=" + domain + "\n", "local=/" + domain + "/\n";
    assert Lacks("domain", '=') && Lacks("domain", '\n') && Lacks("local", '=') && Lacks("local", '\n');
    assert "domain=" == "domain" + "=" && second == "local" + "=" + ("/" + domain + "/") + "\n";
    assert EndsLine(first);
    hide RangeValues, HidesRange, Lacks, EndsLine;
    RangeValuesOfBoth(first, second);
    KeyedGivesNoRangeIff("domain", domain);
    KeyedGivesNoRangeIff("local", "/" + domain + "/");
    if HidesRange("/" + domain + "/") {
      SlashedHides(domain);
    }
  }

  lemma InterfaceGivesNoRangeIff(name: string)
    ensures RangeValues("interface=" + name + "\n") == [] <==> !HidesRange(name)
  {
    assert Lacks("interface", '=') && Lacks("interface", '\n') && "interface=" == "interface" + "=";
    hide RangeValues, HidesRange, Lacks;
    KeyedGivesNoRangeIff("interface", name);
  }

  lemma RangeLineGivesRange(start: string, stop: string)
    requires Lacks(start, '\n') && Lacks(stop, '\n')
    ensures RangeValues(RangeLine(start, stop)) == [start + "," + stop + ",24h"]
  {
    var value := start + "," + stop + ",24h";
    assert Lacks(RANGE, '=') && Lacks(RANGE, '\n') && Lacks(value, '\n');
    KeyedLineLacks(RANGE, value);
    assert RangeLine(start, stop) == (RANGE + "=" + value) + "\n" + "";
    hide Entries, Values, Lacks, RangeLine, RangeValues;
    EmptyLine();
    SplitKeyValue(RANGE, value);
    RangeValuesOfLine(RANGE + "=" + value, "");
  }

  /** Reading five texts in a row, of which the first and the fourth give no range. */
  lemma RangeValuesOfFive(a: string, b: string, c: string, d: string, e: string)
    requires EndsLine(a) && EndsLine(b) && EndsLine(c) && EndsLine(d) && RangeValues(a) == [] && RangeValues(d) == []
    ensures RangeValues((a + (b + (c + d))) + e) == RangeValues(b) + RangeValues(c) + RangeValues(e)
  {
    hide RangeValues, EndsLine;
    assert (a + (b + (c + d))) + e == a + (b + (c + (d + e)));
    RangeValuesOfBoth(a, b + (c + (d + e)));
    RangeValuesOfBoth(b, c + (d + e));
    RangeValuesOfBoth(c, d + e);
    RangeValuesOfBoth(d, e);
  }

  lemma PartsEndLines(start: string, stop: string, domain: string)
    ensures EndsLine(DomainLines(domain)) && EndsLine(RangeLine(start, stop))
  {
  }

  /** All values for ranges, in the order of the file. */
  lemma RangeValuesOfFile(ap: string, start: string, stop: string, domain: string, name: string)
    requires Lacks(ap, '\n') && Lacks(start, '\n') && Lacks(stop, '\n')
    ensures RangeValues(DnsmasqText(ap, start, stop, domain) + ("interface=" + name + "\n"))
      == RangeValues(DomainLines(domain)) + [start + "," + stop + ",24h"] + RangeValues("interface=" + name + "\n")
  {
    hide RangeValues, DomainLines, RangeLine, DnsmasqText, Concat, Listeners, Options, EndsLine, Lacks;
    TextParts(ap, start, stop, domain);
    AroundRangeGivesNone(ap);
    RangeLineGivesRange(start, stop);
    PartsEndLines(start, stop, domain);
    RangeValuesOfFive(Concat(Listeners(ap)), DomainLines(domain), RangeLine(start, stop), Concat(Options(ap)),
      "interface=" + name + "\n");
  }

  /**
   * The printed file, with the line that the script appends, gives just the range that was set exactly if neither the
   * domain name nor the script's argument hides a range behind a line break.
   */
  lemma RangesAreReadIff(ap: string, start: string, stop: string, domain: string, name: string)
    requires Lacks(ap, '\n') && Lacks(start, '\n') && Lacks(stop, '\n') && Lacks(start, ',') && Lacks(stop, ',')
    ensures Ranges(DnsmasqText(ap, start, stop, domain) + ("interface=" + name + "\n")) == [(start, stop)]
      <==> !HidesRange(domain) && !HidesRange(name)
    ensures (start, stop) in Ranges(DnsmasqText(ap, start, stop, domain) + ("interface=" + name + "\n"))
  {
    hide RangeValues, DomainLines, DnsmasqText, HidesRange, Lacks, Endpoints, EndpointsOfAll;
    RangeValuesOfFile(ap, start, stop, domain, name);
    DomainGivesNoRangeIff(domain);
    InterfaceGivesNoRangeIff(name);
    EndpointsOfValue(start, stop);
    EndpointsAround(RangeValues(DomainLines(domain)), start + "," + stop + ",24h", RangeValues("interface=" + name + "\n"));
  }

  lemma EndpointsAround(before: seq<string>, value: string, behind: seq<string>)
    ensures |EndpointsOfAll(before + [value] + behind)| == |before| + 1 + |behind|
    ensures EndpointsOfAll(before + [value] + behind)[|before|] == Endpoints(value)
  {
    if before == [] {
      assert (before + [value] + behind)[0] == value;
    } else {
      EndpointsAround(before[1..], value, behind);
      assert (before + [value] + behind)[1..] == before[1..] + [value] + behind;
    }
  }

  /** An accepted domain name that hides a range: any line, and behind it the key. */
  lemma DomainHidesRange(line: string, value: string)
    requires Lacks(value, '\n')
    ensures var name := line + "\n" + (RANGE + "=" + value);
      NameVerdict(Some(name)) == NO_ERROR && HidesRange(name)
  {
    var name, range := line + "\n" + (RANGE + "=" + value), RANGE + "=" + value;
    assert name != "" && name[|line|] == '\n' && name[|line| + 1..] == range;
    assert Lacks(RANGE, '=') && Lacks(RANGE, '\n');
    hide Split, Find, Lacks;
    KeyedLineLacks(RANGE, value);
    SplitKeyValue(RANGE, value);
    LacksToTheEnd(range, '\n');
    assert range[..|range|] == range;
    assert BreaksToRange(name, |line|);
  }

  /**
   * What dnsmasq serves from settings that the check accepts: a range without the access point, and no other exactly if
   * neither the domain name nor the script's argument hides one.
   */
  lemma ServedRangeExcludesAp(s: Settings, domain: string, name: string) returns (ap: Quad, from: Quad, to: Quad)
    requires AddressVerdict(s) == 0
    ensures s.ipAp == Dotted(ap) && s.ipStart == Dotted(from) && s.ipStop == Dotted(to)
    ensures ap.Word() < Min(from.Word(), to.Word()) || Max(from.Word(), to.Word()) < ap.Word()
    ensures var text := DnsmasqText(s.ipAp, s.ipStart, s.ipStop, domain) + ("interface=" + name + "\n");
      && (s.ipStart, s.ipStop) in Ranges(text)
      && (Ranges(text) == [(s.ipStart, s.ipStop)] <==> !HidesRange(domain) && !HidesRange(name))
  {
    hide Ranges, HidesRange, DnsmasqText;
    var netmask: Quad;
    ap, from, to, netmask := AcceptedIsAddresses(s);
    DottedIsPlain(ap.Octets());
    DottedIsPlain(from.Octets());
    DottedIsPlain(to.Octets());
    RangesAreReadIff(s.ipAp, s.ipStart, s.ipStop, domain, name);
  }
}
