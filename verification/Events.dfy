/** The event thread: lines of "iw event" become events that carry a running count of clients. */
module Events {
  import opened CStrings
  import opened Utf8

  // ----- the C string functions -----

  predicate HasAt(text: string, i: nat, part: string) {
    i + |part| <= |text| && forall k | 0 <= k < |part| :: text[i + k] == part[k]
  }

  /** strstr finds the part. */
  ghost predicate Contains(text: string, part: string) {
    exists i: nat :: HasAt(text, i, part)
  }

  method StrStr(text: string, part: string) returns (found: bool)
    ensures found == Contains(text, part)
  {
    var i := 0;
    while i + |part| <= |text|
      invariant 0 <= i
      invariant forall j: nat | j < i :: !HasAt(text, j, part)
      decreases |text| - i
    {
      var k := 0;
      while k < |part| && text[i + k] == part[k]
        invariant 0 <= k <= |part|
        invariant forall m | 0 <= m < k :: text[i + m] == part[m]
      {
        k := k + 1;
      }
      if k == |part| {
        assert HasAt(text, i, part);
        return true;
      }
      i := i + 1;
    }
    return false;
  }

  /** The first position from i on where a character is c, or is not. */
  function Seek(text: string, c: char, i: nat, want: bool): (n: nat)
    requires i <= |text|
    ensures i <= n <= |text| && (n < |text| ==> (text[n] == c) == want)
    ensures forall k | i <= k < n :: (text[k] == c) != want
    decreases |text| - i
  {
    if i == |text| || (text[i] == c) == want then i else Seek(text, c, i + 1, want)
  }

  /** The first token of strtok_r: leading separators are skipped. */
  function FirstToken(text: string, separator: char): (token: Option<string>)
    ensures token.None? <==> forall k | 0 <= k < |text| :: text[k] == separator
  {
    var from := Seek(text, separator, 0, false);
    if from == |text| then None else Some(text[from..Seek(text, separator, from, true)])
  }

  // ----- lines and events -----

  datatype Change = Came | Left

  datatype Event = Event(text: string, clients: int)

  const DEL := "del station"
  const NEW := "new station"

  /** What a line means for the count: its first token up to a colon has to contain the interface name. */
  ghost function Classify(line: string, interface: string): Option<Change> {
    var token := FirstToken(line, ':');
    if token.None? || !Contains(token.value, interface) then None
    else if Contains(line, DEL) then Some(Left)
    else if Contains(line, NEW) then Some(Came)
    else None
  }

  /** The first 22 bytes of the literals, up to their NUL: the word "disconnected" loses its ending. */
  function EventText(change: Change): string {
    if change == Came then "WiFi client connected" else "WiFi client disconnect"
  }

  function Delta(change: Option<Change>): int {
    if change == Some(Came) then 1 else if change == Some(Left) then -1 else 0
  }

  ghost function Count(lines: seq<string>, interface: string): int {
    if lines == [] then 0
    else Count(lines[..|lines| - 1], interface) + Delta(Classify(lines[|lines| - 1], interface))
  }

  ghost function EventsOf(lines: seq<string>, interface: string): seq<Event> {
    if lines == [] then []
    else
      var change := Classify(lines[|lines| - 1], interface);
      EventsOf(lines[..|lines| - 1], interface)
      + (if change.None? then [] else [Event(EventText(change.value), Count(lines, interface))])
  }

  // ----- the loop -----

  const INFO_LENGTH := 512
  const INFO_BYTES := 22

  /** memcpy of 22 bytes of a literal, and a NUL behind them. */
  method FillInfo(eventInfo: array<char>, literal: string)
    requires eventInfo.Length == INFO_LENGTH && NUL !in literal && INFO_BYTES <= |literal| + 1
    modifies eventInfo
    ensures Terminated(eventInfo[..])
    ensures Text(eventInfo[..]) == if |literal| < INFO_BYTES then literal else literal[..INFO_BYTES]
  {
    forall k | 0 <= k < INFO_BYTES {
      eventInfo[k] := At(literal, k);
    }
    eventInfo[INFO_BYTES] := NUL;
    ghost var text := if |literal| < INFO_BYTES then literal else literal[..INFO_BYTES];
    assert eventInfo[..][..|text|] == text;
    TextIs(eventInfo[..], text);
  }

  method ReadInfo(buffer: array<char>) returns (text: string)
    requires Terminated(buffer[..])
    ensures text == Text(buffer[..])
  {
    var n := StrLen(buffer, buffer.Length);
    text := buffer[..n];
    assert buffer[..buffer.Length] == buffer[..];
  }

  method IsFor(line: string, interface: string) returns (yes: bool)
    ensures yes == (FirstToken(line, ':').Some? && Contains(FirstToken(line, ':').value, interface))
  {
    var token := FirstToken(line, ':');
    if token.None? {
      return false;
    }
    yes := StrStr(token.value, interface);
  }

  /** One turn of the loop: the change that the line means, and the text of its event in the buffer. */
  method ParseLine(line: string, interface: string, eventInfo: array<char>) returns (change: Option<Change>, text: string)
    requires eventInfo.Length == INFO_LENGTH
    modifies eventInfo
    ensures change == Classify(line, interface)
    ensures change.Some? ==> text == EventText(change.value)
  {
    change, text := None, "";
    var del := StrStr(line, DEL);
    if del {
      var mine := IsFor(line, interface);
      if mine {
        FillInfo(eventInfo, "WiFi client disconnected");
        text := ReadInfo(eventInfo);
        change := Some(Left);
      }
    } else {
      var new_ := StrStr(line, NEW);
      if new_ {
        var mine := IsFor(line, interface);
        if mine {
          FillInfo(eventInfo, "WiFi client connected");
          text := ReadInfo(eventInfo);
          change := Some(Came);
        }
      }
    }
  }

  /** The main function of the event thread, until its pipe ends. */
  method Listen(lines: seq<string>, interface: string) returns (events: seq<Event>, numberOfClientsConnected: int)
    ensures events == EventsOf(lines, interface)
    ensures numberOfClientsConnected == Count(lines, interface)
  {
    numberOfClientsConnected, events := 0, [];
    var eventInfo := new char[INFO_LENGTH](_ => NUL);
    var i := 0;
    while i < |lines|
      invariant 0 <= i <= |lines|
      invariant events == EventsOf(lines[..i], interface)
      invariant numberOfClientsConnected == Count(lines[..i], interface)
    {
      assert lines[..i + 1][..i] == lines[..i];
      var change, text := ParseLine(lines[i], interface, eventInfo);
      if change == Some(Left) {
        numberOfClientsConnected := numberOfClientsConnected - 1;
      } else if change == Some(Came) {
        numberOfClientsConnected := numberOfClientsConnected + 1;
      }
      if change.Some? {
        events := events + [Event(text, numberOfClientsConnected)];
      }
      i := i + 1;
    }
    assert lines[..i] == lines;
  }

  // ----- lines, in characters -----

  /** The token stands at i: only separators before it, none in it, and one or the end behind it. */
  predicate TokenAt(text: string, i: nat, token: string, separator: char) {
    && token != "" && i + |token| <= |text| && text[i..i + |token|] == token
    && (forall k | 0 <= k < i :: text[k] == separator) && (forall k | 0 <= k < |token| :: token[k] != separator)
    && (i + |token| == |text| || text[i + |token|] == separator)
  }

  lemma FirstTokenIs(text: string, separator: char)
    ensures var token := FirstToken(text, separator);
      if token.None? then forall k | 0 <= k < |text| :: text[k] == separator
      else exists i: nat :: TokenAt(text, i, token.value, separator)
  {
    var from := Seek(text, separator, 0, false);
    if from < |text| {
      assert TokenAt(text, from, FirstToken(text, separator).value, separator);
    }
  }

  /** A line that says both is a departure, and only the first token decides whose it is. */
  lemma ClassifyIs(line: string, interface: string)
    ensures var token := FirstToken(line, ':'); var mine := token.Some? && Contains(token.value, interface);
      && (Classify(line, interface) == Some(Left) <==> mine && Contains(line, "del station"))
      && (Classify(line, interface) == Some(Came) <==>
          mine && Contains(line, "new station") && !Contains(line, "del station"))
  {
    hide Contains;
  }

  /** The texts of the events, and how the counter moves with them: it is the last event's. */
  lemma EventIs(lines: seq<string>, line: string, interface: string)
    ensures var before, after := EventsOf(lines, interface), EventsOf(lines + [line], interface);
      var count := Count(lines, interface);
      if Classify(line, interface) == Some(Came) then
        after == before + [Event("WiFi client connected", count + 1)] && Count(lines + [line], interface) == count + 1
      else if Classify(line, interface) == Some(Left) then
        after == before + [Event("WiFi client disconnect", count - 1)] && Count(lines + [line], interface) == count - 1
      else after == before && Count(lines + [line], interface) == count
    ensures EventsOf([], interface) == [] && Count([], interface) == 0
  {
    assert (lines + [line])[..|lines|] == lines;
    hide Classify;
  }

  // ----- the count -----

  /** One event for every line that means something, none for the others. */
  lemma {:induction false} EventsFollowLines(lines: seq<string>, interface: string)
    ensures var events := EventsOf(lines, interface);
      && (forall k | 0 <= k < |events| - 1 ::
            events[k + 1].clients - events[k].clients == (if events[k + 1].text == EventText(Came) then 1 else -1))
      && (events != [] ==> events[0].clients == (if events[0].text == EventText(Came) then 1 else -1))
      && Count(lines, interface) == (if events == [] then 0 else events[|events| - 1].clients)
  {
    if lines != [] {
      EventsFollowLines(lines[..|lines| - 1], interface);
      assert EventText(Came) != EventText(Left);
    }
  }

  function Occurrences(lines: seq<Option<Change>>, change: Change): nat {
    if lines == [] then 0
    else Occurrences(lines[..|lines| - 1], change) + (if lines[|lines| - 1] == Some(change) then 1 else 0)
  }

  ghost function Changes(lines: seq<string>, interface: string): seq<Option<Change>> {
    seq(|lines|, i requires 0 <= i < |lines| => Classify(lines[i], interface))
  }

  /** The count is the number of lines about arrivals less those about departures. */
  lemma {:induction false} CountIsDifference(lines: seq<string>, interface: string)
    ensures var changes := Changes(lines, interface);
      && Count(lines, interface) == Occurrences(changes, Came) - Occurrences(changes, Left)
      && |EventsOf(lines, interface)| == Occurrences(changes, Came) + Occurrences(changes, Left)
  {
    if lines != [] {
      var before := lines[..|lines| - 1];
      CountIsDifference(before, interface);
      assert Changes(lines, interface)[..|before|] == Changes(before, interface);
    }
  }

  // ----- logs of stations -----

  /** A station comes to or leaves an interface. */
  datatype Entry = Entry(interface: string, change: Change, station: string)

  predicate Plain(word: string) {
    forall k | 0 <= k < |word| :: word[k] != ' ' && word[k] != ':'
  }

  predicate NoSpace(word: string) {
    forall k | 0 <= k < |word| :: word[k] != ' '
  }

  /** The line of "iw event" for an entry. */
  function Render(e: Entry): string {
    e.interface + ":" + (if e.change == Came then " new" else " del") + " station" + " " + e.station + "\n"
  }

  predicate PlainEntry(e: Entry) {
    e.interface != "" && Plain(e.interface) && NoSpace(e.station)
  }

  /** Where the spaces of a line are. */
  lemma SpacesOf(e: Entry, k: nat)
    requires PlainEntry(e) && k < |Render(e)|
    ensures Render(e)[k] == ' ' <==> k == |e.interface| + 1 || k == |e.interface| + 5 || k == |e.interface| + 13
  {
    var n := |e.interface|;
    var middle := ":" + (if e.change == Came then " new" else " del") + " station" + " ";
    assert Render(e) == e.interface + middle + e.station + "\n";
    assert |middle| == 14;
    if k < n {
      assert Render(e)[k] == e.interface[k];
    } else if k < n + 14 {
      assert Render(e)[k] == middle[k - n];
    } else if k < n + 14 + |e.station| {
      assert Render(e)[k] == e.station[k - n - 14];
    }
  }

  lemma MiddleOf(e: Entry)
    ensures var n := |e.interface|; var line := Render(e);
      && |line| == n + 15 + |e.station| && line[..n] == e.interface && line[n] == ':'
      && line[n + 2] == (if e.change == Came then 'n' else 'd') && line[n + 4] == (if e.change == Came then 'w' else 'l')
      && line[n + 12] == 'n'
      && HasAt(line, n + 2, if e.change == Came then NEW else DEL)
  {
    var n := |e.interface|;
    var middle := ":" + (if e.change == Came then " new" else " del") + " station" + " ";
    assert Render(e) == e.interface + middle + e.station + "\n";
    assert |middle| == 14;
    assert middle[2..13] == if e.change == Came then NEW else DEL;
    assert forall k | 0 <= k < 14 :: Render(e)[n + k] == middle[k];
  }

  /** A line says "del station" exactly if a station leaves, whatever the names. */
  lemma SaysDelIff(e: Entry)
    requires PlainEntry(e)
    ensures Contains(Render(e), DEL) <==> e.change == Left
    ensures e.change == Came ==> Contains(Render(e), NEW)
  {
    hide Render;
    var line, n := Render(e), |e.interface|;
    MiddleOf(e);
    forall i: nat | HasAt(line, i, DEL) ensures e.change == Left {
      SpacesOf(e, i + 3);
      assert line[i + 3] == DEL[3] == ' ';
      assert line[i + 2] == DEL[2] == 'l';
      SpacesOf(e, i + 2);
    }
  }

  /** The first token of a line is its interface. */
  lemma TokenOf(e: Entry)
    requires PlainEntry(e)
    ensures FirstToken(Render(e), ':') == Some(e.interface)
  {
    var line, n := Render(e), |e.interface|;
    MiddleOf(e);
    assert forall k | 0 <= k < n :: line[k] == line[..n][k] != ':';
    assert Seek(line, ':', 0, false) == 0;
    assert Seek(line, ':', 0, true) == n;
  }

  /** An entry counts for every interface whose name is a part of the name in its line. */
  lemma ClassifyRendered(e: Entry, interface: string)
    requires PlainEntry(e)
    ensures Classify(Render(e), interface) == if Contains(e.interface, interface) then Some(e.change) else None
  {
    TokenOf(e);
    SaysDelIff(e);
  }

  lemma ContainsItself(word: string)
    ensures Contains(word, word)
  {
    assert HasAt(word, 0, word);
  }

  ghost predicate PlainLog(log: seq<Entry>) {
    forall i | 0 <= i < |log| :: PlainEntry(log[i])
  }

  function RenderAll(log: seq<Entry>): seq<string> {
    seq(|log|, i requires 0 <= i < |log| => Render(log[i]))
  }

  /** The stations of the interface after the log. */
  function Connected(log: seq<Entry>, interface: string): set<string> {
    if log == [] then {}
    else
      var before, e := Connected(log[..|log| - 1], interface), log[|log| - 1];
      if e.interface != interface then before
      else if e.change == Came then before + {e.station}
      else before - {e.station}
  }

  /** An entry that tells something new: who comes was absent, who leaves was present. */
  ghost predicate IsNews(log: seq<Entry>, interface: string, i: nat)
    requires i < |log|
  {
    log[i].interface == interface ==> (log[i].change == Came <==> log[i].station !in Connected(log[..i], interface))
  }

  ghost predicate WellBehaved(log: seq<Entry>, interface: string) {
    forall i | 0 <= i < |log| :: IsNews(log, interface, i)
  }

  /** Arrivals of stations that are there, less departures of stations that are not. */
  ghost function Repeats(log: seq<Entry>, interface: string): int {
    if log == [] then 0
    else
      var n := |log| - 1;
      Repeats(log[..n], interface)
      + (if IsNews(log, interface, n) then 0 else if log[n].change == Came then 1 else -1)
  }

  /** Arrivals less departures on other interfaces whose names have this one's in them. */
  ghost function Foreign(log: seq<Entry>, interface: string): int {
    if log == [] then 0
    else
      var n := |log| - 1;
      Foreign(log[..n], interface)
      + (if log[n].interface != interface && Contains(log[n].interface, interface) then Delta(Some(log[n].change)) else 0)
  }

  /** On any log the count is off the number of stations by exactly the repetitions and the foreign changes. */
  lemma {:induction false} CountIsStationsAndErrors(log: seq<Entry>, interface: string)
    requires PlainLog(log)
    ensures Count(RenderAll(log), interface)
      == |Connected(log, interface)| + Repeats(log, interface) + Foreign(log, interface)
  {
    if log != [] {
      var n := |log| - 1;
      CountIsStationsAndErrors(log[..n], interface);
      assert RenderAll(log)[..n] == RenderAll(log[..n]);
      ClassifyRendered(log[n], interface);
      ContainsItself(interface);
    }
  }

  lemma {:induction false} NoRepeats(log: seq<Entry>, interface: string)
    requires WellBehaved(log, interface)
    ensures Repeats(log, interface) == 0
  {
    if log != [] {
      var n := |log| - 1;
      forall i | 0 <= i < n ensures IsNews(log[..n], interface, i) {
        assert IsNews(log, interface, i) && log[..n][..i] == log[..i];
      }
      NoRepeats(log[..n], interface);
      assert IsNews(log, interface, n);
    }
  }

  /** No other interface in the log has a name with this one in it. */
  ghost predicate SetsApart(log: seq<Entry>, interface: string) {
    forall i | 0 <= i < |log| :: log[i].interface == interface || !Contains(log[i].interface, interface)
  }

  lemma {:induction false} NothingForeign(log: seq<Entry>, interface: string)
    requires SetsApart(log, interface)
    ensures Foreign(log, interface) == 0
  {
    if log != [] {
      NothingForeign(log[..|log| - 1], interface);
    }
  }

  /**
   * The count is the number of stations exactly if the repetitions and the foreign changes cancel out. They do where
   * stations come only when absent and leave only when present, and no other interface has a name with this one in it.
   */
  lemma CountIsStationsIff(log: seq<Entry>, interface: string)
    requires PlainLog(log)
    ensures Count(RenderAll(log), interface) == |Connected(log, interface)|
      <==> Repeats(log, interface) + Foreign(log, interface) == 0
    ensures WellBehaved(log, interface) ==> Repeats(log, interface) == 0
    ensures SetsApart(log, interface) ==> Foreign(log, interface) == 0
  {
    CountIsStationsAndErrors(log, interface);
    if WellBehaved(log, interface) {
      NoRepeats(log, interface);
    }
    if SetsApart(log, interface) {
      NothingForeign(log, interface);
    }
  }

  /** An arrival elsewhere, by itself, in a log that is well-behaved. */
  lemma OneForeign(e: Entry, interface: string)
    requires PlainEntry(e) && e.change == Came && e.interface != interface && Contains(e.interface, interface)
    ensures PlainLog([e]) && WellBehaved([e], interface)
    ensures Connected([e], interface) == {} && Count(RenderAll([e]), interface) == 1
  {
    hide Contains, PlainEntry;
    CountIsStationsAndErrors([e], interface);
    assert [e][..0] == [];
    NoRepeats([e], interface);
  }

  /** A log on which one station of wlan10 is counted for wlan1. */
  lemma ForeignStationIsCounted(station: string)
    requires NoSpace(station)
    ensures var log := [Entry("wlan10", Came, station)];
      PlainLog(log) && WellBehaved(log, "wlan1") && Connected(log, "wlan1") == {} && Count(RenderAll(log), "wlan1") == 1
  {
    hide Contains, PlainLog, WellBehaved, Connected, Count, RenderAll;
    var e := Entry("wlan10", Came, station);
    assert "wlan10" == "wlan1" + "0" && |"wlan1"| == 5;
    NameInName("wlan1", "0");
    OneForeign(e, "wlan1");
  }

  /** A longer name has the shorter in it. */
  lemma NameInName(interface: string, ending: string)
    ensures Contains(interface + ending, interface)
  {
    assert HasAt(interface + ending, 0, interface);
  }
}
