/** All that is read from the two files of dnsmasq: exactly what was printed, unless a name holds a line break. */
module DnsmasqReader {
  import opened CStrings
  import opened ApSettings
  import opened Ipv4
  import opened Hostapd
  import opened Dnsmasq
  import opened DnsmasqRanges

  // ----- the configuration file -----

  /** What is printed, and the line that the script appends. */
  function PrintedEntries(ap: string, start: string, stop: string, domain: string, word: string): seq<Entry> {
    [Entry("bind-interfaces", ""), Entry("listen-address", ap), Entry("expand-hosts", ""),
     Entry("addn-hosts", "/tmp/add_hosts"), Entry("domain", domain), Entry("local", "/" + domain + "/"),
     Entry("dhcp-range", start + "," + stop + ",24h"), Entry("dhcp-option", "3," + ap), Entry("dhcp-option", "6," + ap),
     Entry("interface", word)]
  }

  function PrintedLines(ap: string, start: string, stop: string, domain: string, word: string): seq<string> {
    DnsmasqLines(ap, start, stop, domain) + ["interface=" + word + "\n"]
  }

  predicate Prints(line: string, e: Entry) {
    EndsLine(line) && Entries(line) == [e]
  }

  lemma {:induction false} ConcatPrints(lines: seq<string>, entries: seq<Entry>)
    requires |lines| == |entries| && forall i | 0 <= i < |lines| :: Prints(lines[i], entries[i])
    ensures Entries(Concat(lines)) == entries
  {
    hide Entries;
    if lines == [] {
      EntriesOfNothing();
    } else {
      ConcatPrints(lines[1..], entries[1..]);
      EntriesOfBoth(lines[0], Concat(lines[1..]));
      assert entries == [entries[0]] + entries[1..];
    }
  }

  lemma KeyedPrints(key: string, value: string)
    requires Lacks(key, '=') && Lacks(key, '\n') && Lacks(value, '\n')
    ensures Prints(key + "=" + value + "\n", Entry(key, value))
  {
    hide Entries, Split, Lacks;
    KeyedLineLacks(key, value);
    SplitKeyValue(key, value);
    LinePrints(key + "=" + value);
  }

  lemma FlagPrints(key: string)
    requires Lacks(key, '=') && Lacks(key, '\n')
    ensures Prints(key + "\n", Entry(key, ""))
  {
    hide Entries;
    LacksToTheEnd(key, '=');
    LinePrints(key);
  }

  lemma LinePrints(line: string)
    requires Lacks(line, '\n')
    ensures Prints(line + "\n", Split(line))
  {
    hide Entries;
    EntriesOfNothing();
    EntriesOfFirstLine(line, "");
    assert line + "\n" + "" == line + "\n";
  }

  lemma FlagsPrint()
    ensures Prints("bind-interfaces\n", Entry("bind-interfaces", ""))
    ensures Prints("expand-hosts\n", Entry("expand-hosts", ""))
    ensures Prints("addn-hosts=/tmp/add_hosts\n", Entry("addn-hosts", "/tmp/add_hosts"))
  {
    hide Prints;
    assert Lacks("bind-interfaces", '=') && Lacks("bind-interfaces", '\n');
    assert Lacks("expand-hosts", '=') && Lacks("expand-hosts", '\n');
    assert Lacks("addn-hosts", '=') && Lacks("addn-hosts", '\n') && Lacks("/tmp/add_hosts", '\n');
    hide Lacks;
    FlagPrints("bind-interfaces");
    FlagPrints("expand-hosts");
    KeyedPrints("addn-hosts", "/tmp/add_hosts");
    assert "bind-interfaces\n" == "bind-interfaces" + "\n" && "expand-hosts\n" == "expand-hosts" + "\n";
    assert "addn-hosts=/tmp/add_hosts\n" == "addn-hosts" + "=" + "/tmp/add_hosts" + "\n";
  }

  lemma AddressesPrint(ap: string)
    requires Lacks(ap, '\n')
    ensures Prints("listen-address=" + ap + "\n", Entry("listen-address", ap))
    ensures Prints("dhcp-option=3," + ap + "\n", Entry("dhcp-option", "3," + ap))
    ensures Prints("dhcp-option=6," + ap + "\n", Entry("dhcp-option", "6," + ap))
  {
    hide Prints;
    assert Lacks("listen-address", '=') && Lacks("listen-address", '\n');
    assert Lacks("dhcp-option", '=') && Lacks("dhcp-option", '\n');
    assert Lacks("3," + ap, '\n') && Lacks("6," + ap, '\n');
    hide Lacks;
    KeyedPrints("listen-address", ap);
    KeyedPrints("dhcp-option", "3," + ap);
    KeyedPrints("dhcp-option", "6," + ap);
    assert "listen-address=" == "listen-address" + "=";
    assert "dhcp-option=3," == "dhcp-option" + "=" + "3," && "dhcp-option=6," == "dhcp-option" + "=" + "6,";
    assert "dhcp-option=3," + ap + "\n" == "dhcp-option" + "=" + ("3," + ap) + "\n";
    assert "dhcp-option=6," + ap + "\n" == "dhcp-option" + "=" + ("6," + ap) + "\n";
  }

  lemma NamesPrint(domain: string, word: string)
    requires Lacks(domain, '\n') && Lacks(word, '\n')
    ensures Prints("domain=" + domain + "\n", Entry("domain", domain))
    ensures Prints("local=/" + domain + "/\n", Entry("local", "/" + domain + "/"))
    ensures Prints("interface=" + word + "\n", Entry("interface", word))
  {
    hide Prints;
    assert Lacks("domain", '=') && Lacks("domain", '\n') && Lacks("local", '=') && Lacks("local", '\n');
    assert Lacks("interface", '=') && Lacks("interface", '\n') && Lacks("/" + domain + "/", '\n');
    hide Lacks;
    KeyedPrints("domain", domain);
    KeyedPrints("local", "/" + domain + "/");
    KeyedPrints("interface", word);
    assert "domain=" == "domain" + "=" && "interface=" == "interface" + "=" && "local=/" == "local" + "=" + "/";
    assert "local=/" + domain + "/\n" == "local" + "=" + ("/" + domain + "/") + "\n";
  }

  lemma RangePrints(start: string, stop: string)
    requires Lacks(start, '\n') && Lacks(stop, '\n')
    ensures Prints("dhcp-range=" + start + "," + stop + ",24h\n", Entry("dhcp-range", start + "," + stop + ",24h"))
  {
    hide Prints;
    var value := start + "," + stop + ",24h";
    assert Lacks("dhcp-range", '=') && Lacks("dhcp-range", '\n') && Lacks(value, '\n');
    hide Lacks;
    KeyedPrints("dhcp-range", value);
    assert "dhcp-range=" == "dhcp-range" + "=" && ",24h\n" == ",24h" + "\n";
    assert "dhcp-range=" + start + "," + stop + ",24h\n" == "dhcp-range" + "=" + value + "\n";
  }

  /**
   * The entries that are read are those that were printed exactly if no line break is in the domain name, nor in the
   * script's argument.
   */
  lemma EntriesAreReadIff(ap: string, start: string, stop: string, domain: string, word: string)
    requires Lacks(ap, '\n') && Lacks(start, '\n') && Lacks(stop, '\n')
    ensures Entries(DnsmasqText(ap, start, stop, domain) + ("interface=" + word + "\n"))
        == PrintedEntries(ap, start, stop, domain, word)
      <==> Lacks(domain, '\n') && Lacks(word, '\n')
  {
    hide Entries, DnsmasqText, Lacks, PrintedEntries;
    var text := DnsmasqText(ap, start, stop, domain) + ("interface=" + word + "\n");
    var entries := PrintedEntries(ap, start, stop, domain, word);
    NamesArePrinted(ap, start, stop, domain, word);
    ReadValuesAreLines(text);
    if Lacks(domain, '\n') && Lacks(word, '\n') {
      PrintedIsRead(ap, start, stop, domain, word);
    }
    assert Entries(text) == entries ==> entries[4] in Entries(text) && entries[9] in Entries(text);
  }

  lemma NamesArePrinted(ap: string, start: string, stop: string, domain: string, word: string)
    ensures var entries := PrintedEntries(ap, start, stop, domain, word);
      |entries| == 10 && entries[4] == Entry("domain", domain) && entries[9] == Entry("interface", word)
  {
  }

  lemma PrintedIsRead(ap: string, start: string, stop: string, domain: string, word: string)
    requires Lacks(ap, '\n') && Lacks(start, '\n') && Lacks(stop, '\n') && Lacks(domain, '\n') && Lacks(word, '\n')
    ensures Entries(DnsmasqText(ap, start, stop, domain) + ("interface=" + word + "\n"))
      == PrintedEntries(ap, start, stop, domain, word)
  {
    hide Prints, Entries, Concat, Lacks;
    FlagsPrint();
    AddressesPrint(ap);
    NamesPrint(domain, word);
    RangePrints(start, stop);
    ConcatPrints(PrintedLines(ap, start, stop, domain, word), PrintedEntries(ap, start, stop, domain, word));
    ConcatOfTwo(DnsmasqLines(ap, start, stop, domain), ["interface=" + word + "\n"]);
    ConcatOfLine("interface=" + word + "\n");
  }

  // ----- the hosts file -----

  function Lines(text: string): seq<string>
    decreases |text|
  {
    if text == "" then []
    else
      var n := Find(text, '\n');
      [text[..n]] + if n == |text| then [] else Lines(text[n + 1..])
  }

  /** An address, and the names behind the first blank. */
  function Host(line: string): (string, string) {
    var n := Find(line, ' ');
    if n == |line| then (line, "") else (line[..n], line[n + 1..])
  }

  function HostsOf(lines: seq<string>): seq<(string, string)> {
    if lines == [] then [] else [Host(lines[0])] + HostsOf(lines[1..])
  }

  function Hosts(text: string): seq<(string, string)> {
    HostsOf(Lines(text))
  }

  lemma {:induction false} LinesHaveNoBreak(text: string)
    ensures forall i | 0 <= i < |Lines(text)| :: Lacks(Lines(text)[i], '\n')
    decreases |text|
  {
    if text != "" {
      var n := Find(text, '\n');
      if n < |text| {
        LinesHaveNoBreak(text[n + 1..]);
      }
    }
  }

  lemma {:induction false} HostsHaveNoBreak(lines: seq<string>)
    requires forall i | 0 <= i < |lines| :: Lacks(lines[i], '\n')
    ensures forall h | h in HostsOf(lines) :: Lacks(h.1, '\n')
  {
    if lines != [] {
      HostsHaveNoBreak(lines[1..]);
      HostHasNoBreak(lines[0]);
    }
  }

  lemma HostHasNoBreak(line: string)
    requires Lacks(line, '\n')
    ensures Lacks(Host(line).1, '\n')
  {
  }

  lemma HostOfLine(ap: string, names: string)
    requires Lacks(ap, ' ')
    ensures Host(ap + " " + names) == (ap, names)
  {
    FindBehind(ap, ' ', names);
    var line := ap + [' '] + names;
    assert line[..|ap|] == ap && line[|ap| + 1..] == names;
  }

  lemma LinesOfOne(line: string)
    requires Lacks(line, '\n')
    ensures Lines(line + "\n") == [line]
  {
    var text := line + ['\n'] + "";
    FindBehind(line, '\n', "");
    assert text == line + "\n" && text[..|line|] == line && text[|line| + 1..] == "";
  }

  /** Reading the hosts file gives the one host back exactly if no line break is in its name. */
  lemma HostIsReadIff(ap: string, hostName: string)
    requires Lacks(ap, ' ') && Lacks(ap, '\n')
    ensures Hosts(HostsText(ap, hostName)) == [(ap, hostName)] <==> Lacks(hostName, '\n')
  {
    hide Find, Host, Lines;
    var text, line := HostsText(ap, hostName), ap + " " + hostName;
    LinesHaveNoBreak(text);
    HostsHaveNoBreak(Lines(text));
    if Hosts(text) == [(ap, hostName)] {
      assert Hosts(text)[0] in Hosts(text);
    }
    if Lacks(hostName, '\n') {
      assert Lacks(line, '\n') && text == line + "\n";
      LinesOfOne(line);
      HostOfLine(ap, hostName);
      HostsOfOne(line);
    }
  }

  lemma HostsOfOne(line: string)
    ensures HostsOf([line]) == [Host(line)]
  {
    assert [line][1..] == [];
  }
}
