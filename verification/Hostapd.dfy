/** The hostapd configuration: its text as a function of the settings, and a reader that recovers the settings. */
module Hostapd {
  import opened CStrings
  import opened ApSettings

  // ----- the lines that are printed -----

  const COMMON: seq<string> := [
    "driver=nl80211\n", "wmm_enabled=1\n", "beacon_int=100\n", "dtim_period=2\n", "rts_threshold=2347\n",
    "fragm_threshold=2346\n", "ctrl_interface=/var/run/hostapd\n", "ctrl_interface_group=0\n"]

  const OPEN: seq<string> := ["auth_algs=1\n", "eap_server=0\n", "eapol_key_index_workaround=0\n", "macaddr_acl=0\n"]

  const WPA2: seq<string> := ["wpa=2\n", "wpa_key_mgmt=WPA-PSK\n", "rsn_pairwise=CCMP\n"]

  function SettingLines(s: Settings): seq<string> {
    ["ssid=" + s.ssid + "\n", "channel=" + NatText(s.channelNumber) + "\n",
     "max_num_sta=" + SignedText(s.maxNumberClient) + "\n", "country_code=" + s.countryCode + "\n",
     "ignore_broadcast_ssid=" + (if s.discoverable then "0" else "1") + "\n"]
  }

  function CommonLines(s: Settings): seq<string> {
    COMMON + SettingLines(s)
  }

  /** None: no credential, or an unknown protocol. */
  function SecurityLines(s: Settings): Option<seq<string>> {
    if s.securityProtocol == SECURITY_NONE then Some(OPEN)
    else if s.securityProtocol == SECURITY_WPA2 then
      if s.passphrase != "" then Some(WPA2 + ["wpa_passphrase=" + s.passphrase + "\n"])
      else if s.presharedKey != "" then Some(WPA2 + ["wpa_psk=" + s.presharedKey + "\n"])
      else None
    else None
  }

  function HardwareName(mask: bv32): string {
    var hw := mask & HARDWARE;
    if hw == STD_A then "a" else if hw == STD_B then "b" else if hw == STD_G then "g"
    else if hw == STD_AD then "ad" else "g"
  }

  function FlagLines(mask: bv32, bit: bv32, line: string): seq<string> {
    if mask & bit != 0 then [line] else []
  }

  function StandardLines(mask: bv32): seq<string> {
    ["hw_mode=" + HardwareName(mask) + "\n"]
    + FlagLines(mask, STD_D, "ieee80211d=1\n") + FlagLines(mask, STD_H, "ieee80211h=1\n")
    + FlagLines(mask, STD_N, "ieee80211n=1\n") + FlagLines(mask, STD_AC, "ieee80211ac=1\n")
    + FlagLines(mask, STD_AX, "ieee80211ax=1\n") + FlagLines(mask, STD_W, "ieee80211w=1\n")
  }

  function HostapdText(s: Settings): Option<string> {
    var security := SecurityLines(s);
    if security.None? then None
    else Some(Concat(CommonLines(s)) + Concat(security.value) + Concat(StandardLines(s.stdMask)))
  }

  // ----- a reader -----

  datatype Entry = Entry(key: string, value: string)

  predicate Lacks(text: string, c: char) {
    forall i | 0 <= i < |text| :: text[i] != c
  }

  /** Where a character first stands, or the length. */
  function Find(text: string, c: char): (n: nat)
    ensures n <= |text| && Lacks(text[..n], c) && (n < |text| ==> text[n] == c)
  {
    if text == "" || text[0] == c then 0 else 1 + Find(text[1..], c)
  }

  function Split(line: string): Entry {
    var n := Find(line, '=');
    if n == |line| then Entry(line, "") else Entry(line[..n], line[n + 1..])
  }

  /** The lines of a text, each split at its first '='. */
  function Entries(text: string): seq<Entry>
    decreases |text|
  {
    if text == "" then []
    else
      var n := Find(text, '\n');
      [Split(text[..n])] + if n == |text| then [] else Entries(text[n + 1..])
  }

  function Lookup(entries: seq<Entry>, key: string): Option<string> {
    if entries == [] then None
    else if entries[0].key == key then Some(entries[0].value)
    else Lookup(entries[1..], key)
  }

  function ReadNat(text: Option<string>): Option<nat> {
    if text.Some? && forall c | c in text.value :: IsDigit(c) then Some(Value(text.value)) else None
  }

  function ReadFlag(entries: seq<Entry>, key: string, bit: bv32): bv32 {
    if Lookup(entries, key) == Some("1") then bit else 0
  }

  function ReadHardware(name: Option<string>): bv32 {
    if name == Some("a") then STD_A else if name == Some("b") then STD_B else if name == Some("g") then STD_G
    else if name == Some("ad") then STD_AD else 0
  }

  /** What hostapd learns about the access point from its file. */
  datatype View = View(
    ssid: Option<string>, channel: Option<nat>, clients: Option<nat>, countryCode: Option<string>,
    hidden: Option<nat>, protocol: int, passphrase: Option<string>, mask: bv32)

  function Read(text: string): View {
    ReadEntries(Entries(text))
  }

  function ReadEntries(es: seq<Entry>): View {
    View(Lookup(es, "ssid"), ReadNat(Lookup(es, "channel")), ReadNat(Lookup(es, "max_num_sta")),
      Lookup(es, "country_code"), ReadNat(Lookup(es, "ignore_broadcast_ssid")),
      if Lookup(es, "wpa") == Some("2") then SECURITY_WPA2 else SECURITY_NONE,
      Lookup(es, "wpa_passphrase"),
      ReadHardware(Lookup(es, "hw_mode")) | ReadFlag(es, "ieee80211d", STD_D) | ReadFlag(es, "ieee80211h", STD_H)
      | ReadFlag(es, "ieee80211n", STD_N) | ReadFlag(es, "ieee80211ac", STD_AC)
      | ReadFlag(es, "ieee80211ax", STD_AX) | ReadFlag(es, "ieee80211w", STD_W))
  }

  /** What there is to learn: the passphrase only under WPA2, the mask without the bits that have no name. */
  function Shown(s: Settings): View {
    View(Some(s.ssid), Some(s.channelNumber), Some(s.maxNumberClient), Some(s.countryCode),
      Some(if s.discoverable then 0 else 1), s.securityProtocol,
      if s.securityProtocol == SECURITY_WPA2 then Some(s.passphrase) else None,
      s.stdMask & 0x3FF)
  }

  predicate NoLineBreaks(s: Settings) {
    && Lacks(s.ssid, '\n') && Lacks(s.countryCode, '\n')
    && (s.securityProtocol == SECURITY_WPA2 ==> Lacks(s.passphrase, '\n'))
  }

  // ----- printing lists of entries, and reading them -----

  function Line(e: Entry): string {
    e.key + "=" + e.value + "\n"
  }

  /** A key has neither '=' nor a line break in it, a value no line break. */
  predicate Readable(e: Entry) {
    Lacks(e.key, '=') && Lacks(e.key, '\n') && Lacks(e.value, '\n')
  }

  predicate Matches(lines: seq<string>, entries: seq<Entry>) {
    |lines| == |entries| && forall i | 0 <= i < |lines| :: lines[i] == Line(entries[i])
  }

  lemma FindBehind(prefix: string, c: char, rest: string)
    requires Lacks(prefix, c)
    ensures Find(prefix + [c] + rest, c) == |prefix|
  {
    var text := prefix + [c] + rest;
    var n := Find(text, c);
    assert text[|prefix|] == c;
    assert forall k | 0 <= k < |prefix| :: text[k] == prefix[k] != c;
    assert forall k | 0 <= k < n :: text[k] == text[..n][k] != c;
  }

  /** Reading printed lines gives the entries back. */
  lemma {:induction false} EntriesOfLines(lines: seq<string>, entries: seq<Entry>)
    requires Matches(lines, entries) && forall e | e in entries :: Readable(e)
    ensures Entries(Concat(lines)) == entries
  {
    if entries != [] {
      var e, rest := entries[0], Concat(lines[1..]);
      var line := e.key + "=" + e.value;
      assert Readable(e);
      assert Concat(lines) == line + ['\n'] + rest;
      FindBehind(line, '\n', rest);
      assert Concat(lines)[..|line|] == line && Concat(lines)[|line| + 1..] == rest;
      FindBehind(e.key, '=', e.value);
      assert line == e.key + ['='] + e.value;
      assert line[..|e.key|] == e.key && line[|e.key| + 1..] == e.value;
      assert Split(line) == e;
      EntriesOfLines(lines[1..], entries[1..]);
    }
  }

  /** No value that is read contains a line break. */
  lemma {:induction false} ReadValuesAreLines(text: string)
    ensures forall e | e in Entries(text) :: Lacks(e.value, '\n')
  {
    if text != "" {
      var n := Find(text, '\n');
      assert Lacks(Split(text[..n]).value, '\n');
      if n < |text| {
        ReadValuesAreLines(text[n + 1..]);
      }
    }
  }

  lemma {:induction false} LookupIsRead(entries: seq<Entry>, key: string)
    ensures Lookup(entries, key).Some? ==> Entry(key, Lookup(entries, key).value) in entries
  {
    if entries != [] {
      LookupIsRead(entries[1..], key);
      assert entries[0] in entries;
    }
  }

  lemma {:induction false} ConcatOfTwo(a: seq<string>, b: seq<string>)
    ensures Concat(a + b) == Concat(a) + Concat(b)
  {
    if a == [] {
      assert a + b == b;
    } else {
      ConcatOfTwo(a[1..], b);
      assert (a + b)[1..] == a[1..] + b;
      assert a[0] + (Concat(a[1..]) + Concat(b)) == a[0] + Concat(a[1..]) + Concat(b);
    }
  }

  // ----- the entries of the printed file -----

  const COMMON_ENTRIES: seq<Entry> := [
    Entry("driver", "nl80211"), Entry("wmm_enabled", "1"), Entry("beacon_int", "100"), Entry("dtim_period", "2"),
    Entry("rts_threshold", "2347"), Entry("fragm_threshold", "2346"), Entry("ctrl_interface", "/var/run/hostapd"),
    Entry("ctrl_interface_group", "0")]

  const OPEN_ENTRIES: seq<Entry> := [
    Entry("auth_algs", "1"), Entry("eap_server", "0"), Entry("eapol_key_index_workaround", "0"),
    Entry("macaddr_acl", "0")]

  const WPA2_ENTRIES: seq<Entry> := [
    Entry("wpa", "2"), Entry("wpa_key_mgmt", "WPA-PSK"), Entry("rsn_pairwise", "CCMP")]

  function SettingEntries(s: Settings): seq<Entry> {
    [Entry("ssid", s.ssid), Entry("channel", NatText(s.channelNumber)),
     Entry("max_num_sta", SignedText(s.maxNumberClient)), Entry("country_code", s.countryCode),
     Entry("ignore_broadcast_ssid", if s.discoverable then "0" else "1")]
  }

  function CommonEntries(s: Settings): seq<Entry> {
    COMMON_ENTRIES + SettingEntries(s)
  }

  /** Of settings with a known protocol and, under WPA2, a passphrase. */
  function SecurityEntries(s: Settings): seq<Entry> {
    if s.securityProtocol == SECURITY_NONE then OPEN_ENTRIES
    else WPA2_ENTRIES + [Entry("wpa_passphrase", s.passphrase)]
  }

  function FlagEntry(mask: bv32, bit: bv32, key: string): seq<Entry> {
    if mask & bit != 0 then [Entry(key, "1")] else []
  }

  function FlagEntries(mask: bv32): seq<Entry> {
    FlagEntry(mask, STD_D, "ieee80211d") + FlagEntry(mask, STD_H, "ieee80211h") + FlagEntry(mask, STD_N, "ieee80211n")
    + FlagEntry(mask, STD_AC, "ieee80211ac") + FlagEntry(mask, STD_AX, "ieee80211ax")
    + FlagEntry(mask, STD_W, "ieee80211w")
  }

  function FixedEntries(s: Settings): seq<Entry> {
    CommonEntries(s) + SecurityEntries(s) + [Entry("hw_mode", HardwareName(s.stdMask))]
  }

  function HostapdEntries(s: Settings): seq<Entry> {
    FixedEntries(s) + FlagEntries(s.stdMask)
  }

  lemma MatchesBoth(a: seq<string>, ea: seq<Entry>, b: seq<string>, eb: seq<Entry>)
    requires Matches(a, ea) && Matches(b, eb)
    ensures Matches(a + b, ea + eb)
  {
  }

  lemma FixedMatchesHead()
    ensures Matches(COMMON[..4], COMMON_ENTRIES[..4])
  {
    assert "driver=nl80211\n" == Line(Entry("driver", "nl80211"));
    assert "wmm_enabled=1\n" == Line(Entry("wmm_enabled", "1"));
    assert "beacon_int=100\n" == Line(Entry("beacon_int", "100"));
    assert "dtim_period=2\n" == Line(Entry("dtim_period", "2"));
    hide Line;
  }

  lemma FixedMatchesTail()
    ensures Matches(COMMON[4..], COMMON_ENTRIES[4..])
  {
    assert "rts_threshold=2347\n" == Line(Entry("rts_threshold", "2347"));
    assert "fragm_threshold=2346\n" == Line(Entry("fragm_threshold", "2346"));
    ControlMatches();
    hide Line;
  }

  lemma ControlMatches()
    ensures "ctrl_interface=/var/run/hostapd\n" == Line(Entry("ctrl_interface", "/var/run/hostapd"))
    ensures "ctrl_interface_group=0\n" == Line(Entry("ctrl_interface_group", "0"))
  {
  }

  lemma FixedMatches()
    ensures Matches(COMMON, COMMON_ENTRIES)
  {
    FixedMatchesHead();
    FixedMatchesTail();
    hide Line;
    MatchesBoth(COMMON[..4], COMMON_ENTRIES[..4], COMMON[4..], COMMON_ENTRIES[4..]);
    assert COMMON == COMMON[..4] + COMMON[4..] && COMMON_ENTRIES == COMMON_ENTRIES[..4] + COMMON_ENTRIES[4..];
  }

  lemma CommonMatches(s: Settings)
    ensures Matches(CommonLines(s), CommonEntries(s))
  {
    hide NatText, SignedText;
    FixedMatches();
    MatchesBoth(COMMON, COMMON_ENTRIES, SettingLines(s), SettingEntries(s));
  }

  lemma SecurityMatches(s: Settings)
    requires Sound(s)
    ensures SecurityLines(s).Some? && Matches(SecurityLines(s).value, SecurityEntries(s))
  {
    assert "auth_algs=1\n" == Line(Entry("auth_algs", "1")) && "eap_server=0\n" == Line(Entry("eap_server", "0"));
    assert "eapol_key_index_workaround=0\n" == Line(Entry("eapol_key_index_workaround", "0"));
    assert "macaddr_acl=0\n" == Line(Entry("macaddr_acl", "0")) && "wpa=2\n" == Line(Entry("wpa", "2"));
    assert "wpa_key_mgmt=WPA-PSK\n" == Line(Entry("wpa_key_mgmt", "WPA-PSK"));
    assert "rsn_pairwise=CCMP\n" == Line(Entry("rsn_pairwise", "CCMP"));
    assert "wpa_passphrase=" + s.passphrase + "\n" == Line(Entry("wpa_passphrase", s.passphrase));
    hide Line;
  }

  lemma FlagMatches(
      lines: seq<string>, entries: seq<Entry>, mask: bv32, bit: bv32, line: string, key: string)
    requires Matches(lines, entries) && line == Line(Entry(key, "1"))
    ensures Matches(lines + FlagLines(mask, bit, line), entries + FlagEntry(mask, bit, key))
  {
  }

  lemma StandardMatches(mask: bv32)
    ensures Matches(StandardLines(mask), [Entry("hw_mode", HardwareName(mask))] + FlagEntries(mask))
  {
    hide HardwareName, FlagLines, FlagEntry;
    var l, e := ["hw_mode=" + HardwareName(mask) + "\n"], [Entry("hw_mode", HardwareName(mask))];
    assert Matches(l, e);
    FlagMatches(l, e, mask, STD_D, "ieee80211d=1\n", "ieee80211d");
    l, e := l + FlagLines(mask, STD_D, "ieee80211d=1\n"), e + FlagEntry(mask, STD_D, "ieee80211d");
    FlagMatches(l, e, mask, STD_H, "ieee80211h=1\n", "ieee80211h");
    l, e := l + FlagLines(mask, STD_H, "ieee80211h=1\n"), e + FlagEntry(mask, STD_H, "ieee80211h");
    FlagMatches(l, e, mask, STD_N, "ieee80211n=1\n", "ieee80211n");
    l, e := l + FlagLines(mask, STD_N, "ieee80211n=1\n"), e + FlagEntry(mask, STD_N, "ieee80211n");
    FlagMatches(l, e, mask, STD_AC, "ieee80211ac=1\n", "ieee80211ac");
    l, e := l + FlagLines(mask, STD_AC, "ieee80211ac=1\n"), e + FlagEntry(mask, STD_AC, "ieee80211ac");
    FlagMatches(l, e, mask, STD_AX, "ieee80211ax=1\n", "ieee80211ax");
    l, e := l + FlagLines(mask, STD_AX, "ieee80211ax=1\n"), e + FlagEntry(mask, STD_AX, "ieee80211ax");
    FlagMatches(l, e, mask, STD_W, "ieee80211w=1\n", "ieee80211w");
    hide Matches;
  }

  /** The whole file, as entries. */
  lemma TextIsEntries(s: Settings)
    requires Sound(s)
    ensures HostapdText(s).Some?
    ensures exists lines :: Matches(lines, HostapdEntries(s)) && Concat(lines) == HostapdText(s).value
  {
    CommonMatches(s);
    SecurityMatches(s);
    StandardMatches(s.stdMask);
    hide Matches;
    var a, b, c := CommonLines(s), SecurityLines(s).value, StandardLines(s.stdMask);
    var hw := [Entry("hw_mode", HardwareName(s.stdMask))];
    MatchesBoth(a, CommonEntries(s), b, SecurityEntries(s));
    MatchesBoth(a + b, CommonEntries(s) + SecurityEntries(s), c, hw + FlagEntries(s.stdMask));
    assert CommonEntries(s) + SecurityEntries(s) + (hw + FlagEntries(s.stdMask)) == HostapdEntries(s);
    ConcatOfTwo(a, b);
    ConcatOfTwo(a + b, c);
  }

  // ----- keys -----

  predicate DistinctKeys(entries: seq<Entry>) {
    forall i, j | 0 <= i < j < |entries| :: entries[i].key != entries[j].key
  }

  predicate NewKey(entries: seq<Entry>, key: string) {
    forall i | 0 <= i < |entries| :: entries[i].key != key
  }

  /** The keys of standards, by a character that no other key has at this place. */
  predicate IsFlagKey(key: string) {
    |key| > 8 && key[8] == '1'
  }

  predicate NoFlagKeys(entries: seq<Entry>) {
    forall i | 0 <= i < |entries| :: !IsFlagKey(entries[i].key)
  }

  predicate NoCommonKey(a: seq<Entry>, b: seq<Entry>) {
    forall i, j | 0 <= i < |a| && 0 <= j < |b| :: a[i].key != b[j].key
  }

  lemma DistinctBoth(a: seq<Entry>, b: seq<Entry>)
    requires DistinctKeys(a) && DistinctKeys(b) && NoCommonKey(a, b)
    ensures DistinctKeys(a + b)
  {
  }

  lemma NoCommonKeyBoth(a: seq<Entry>, b: seq<Entry>, c: seq<Entry>)
    requires NoCommonKey(a, c) && NoCommonKey(b, c)
    ensures NoCommonKey(a + b, c)
  {
  }

  function HardwareEntries(s: Settings): seq<Entry> {
    [Entry("hw_mode", HardwareName(s.stdMask))]
  }

  lemma BlocksAreDistinct(s: Settings)
    ensures DistinctKeys(COMMON_ENTRIES) && DistinctKeys(SettingEntries(s)) && DistinctKeys(SecurityEntries(s))
    ensures DistinctKeys(HardwareEntries(s))
  {
    hide NatText, SignedText, HardwareName;
  }

  lemma CommonIsApart(s: Settings)
    ensures NoCommonKey(COMMON_ENTRIES, SettingEntries(s)) && NoCommonKey(COMMON_ENTRIES, SecurityEntries(s))
    ensures NoCommonKey(COMMON_ENTRIES, HardwareEntries(s))
  {
    hide NatText, SignedText, HardwareName;
  }

  lemma SettingsAreApart(s: Settings)
    ensures NoCommonKey(SettingEntries(s), SecurityEntries(s)) && NoCommonKey(SettingEntries(s), HardwareEntries(s))
    ensures NoCommonKey(SecurityEntries(s), HardwareEntries(s))
  {
    hide NatText, SignedText, HardwareName;
  }

  lemma FixedKeys(s: Settings)
    ensures DistinctKeys(FixedEntries(s))
  {
    hide DistinctKeys, NoCommonKey, SettingEntries, SecurityEntries;
    BlocksAreDistinct(s);
    CommonIsApart(s);
    SettingsAreApart(s);
    DistinctBoth(COMMON_ENTRIES, SettingEntries(s));
    NoCommonKeyBoth(COMMON_ENTRIES, SettingEntries(s), SecurityEntries(s));
    DistinctBoth(CommonEntries(s), SecurityEntries(s));
    NoCommonKeyBoth(COMMON_ENTRIES, SettingEntries(s), HardwareEntries(s));
    NoCommonKeyBoth(CommonEntries(s), SecurityEntries(s), HardwareEntries(s));
    DistinctBoth(CommonEntries(s) + SecurityEntries(s), HardwareEntries(s));
  }

  /** Where the settings stand among the entries. */
  lemma FixedAt(s: Settings)
    ensures |FixedEntries(s)| == 18 && FixedEntries(s)[8..13] == SettingEntries(s)
    ensures FixedEntries(s)[13..17] == SecurityEntries(s) && FixedEntries(s)[17..] == HardwareEntries(s)
  {
    hide NatText, SignedText, HardwareName;
  }

  lemma BlocksHaveNoFlagKeys(s: Settings)
    ensures NoFlagKeys(COMMON_ENTRIES) && NoFlagKeys(SettingEntries(s)) && NoFlagKeys(SecurityEntries(s))
    ensures NoFlagKeys(HardwareEntries(s))
  {
    hide NatText, SignedText, HardwareName;
  }

  lemma FixedHasNoFlagKeys(s: Settings)
    ensures NoFlagKeys(FixedEntries(s))
  {
    hide SettingEntries, SecurityEntries, HardwareName, IsFlagKey;
    BlocksHaveNoFlagKeys(s);
  }

  predicate AllReadable(entries: seq<Entry>) {
    forall i | 0 <= i < |entries| :: Readable(entries[i])
  }

  lemma CommonReadable()
    ensures AllReadable(COMMON_ENTRIES)
  {
    CommonReadableHead();
    CommonReadableTail();
    hide Readable;
    assert COMMON_ENTRIES == COMMON_ENTRIES[..4] + COMMON_ENTRIES[4..];
  }

  lemma CommonReadableHead()
    ensures AllReadable(COMMON_ENTRIES[..4])
  {
    assert Readable(Entry("driver", "nl80211")) && Readable(Entry("wmm_enabled", "1"));
    assert Readable(Entry("beacon_int", "100")) && Readable(Entry("dtim_period", "2"));
    hide Readable;
  }

  lemma CommonReadableTail()
    ensures AllReadable(COMMON_ENTRIES[4..])
  {
    assert Readable(Entry("rts_threshold", "2347")) && Readable(Entry("fragm_threshold", "2346"));
    assert Readable(Entry("ctrl_interface", "/var/run/hostapd")) && Readable(Entry("ctrl_interface_group", "0"));
    hide Readable;
  }

  lemma DigitsAreReadable(n: nat)
    ensures Lacks(NatText(n), '\n')
  {
    assert forall i | 0 <= i < |NatText(n)| :: IsDigit(NatText(n)[i]);
  }

  lemma SettingsReadable(s: Settings)
    requires Lacks(s.ssid, '\n') && Lacks(s.countryCode, '\n') && s.maxNumberClient < 0x8000_0000
    ensures AllReadable(SettingEntries(s))
  {
    DigitsAreReadable(s.channelNumber);
    DigitsAreReadable(s.maxNumberClient);
    hide NatText;
    assert Readable(Entry("ssid", s.ssid)) && Readable(Entry("channel", NatText(s.channelNumber)));
    assert Readable(Entry("max_num_sta", SignedText(s.maxNumberClient)));
    assert Readable(Entry("country_code", s.countryCode));
    assert Readable(Entry("ignore_broadcast_ssid", if s.discoverable then "0" else "1"));
    hide Readable;
  }

  lemma OpenReadable()
    ensures AllReadable(OPEN_ENTRIES)
  {
    assert Readable(Entry("auth_algs", "1")) && Readable(Entry("eap_server", "0"));
    assert Readable(Entry("eapol_key_index_workaround", "0")) && Readable(Entry("macaddr_acl", "0"));
    hide Readable;
  }

  lemma SecurityReadable(s: Settings)
    requires s.securityProtocol == SECURITY_NONE || Lacks(s.passphrase, '\n')
    ensures AllReadable(SecurityEntries(s))
  {
    OpenReadable();
    assert Readable(Entry("wpa", "2")) && Readable(Entry("wpa_key_mgmt", "WPA-PSK"));
    assert Readable(Entry("rsn_pairwise", "CCMP"));
    assert s.securityProtocol != SECURITY_NONE ==> Readable(Entry("wpa_passphrase", s.passphrase));
    hide Readable;
  }

  predicate AllFlags(entries: seq<Entry>) {
    forall i | 0 <= i < |entries| :: IsFlagKey(entries[i].key) && entries[i].value == "1" && Readable(entries[i])
  }

  /** Appending the line of one flag keeps the list free of repetitions. */
  lemma OneMoreFlag(entries: seq<Entry>, mask: bv32, bit: bv32, key: string)
    requires AllFlags(entries) && DistinctKeys(entries) && NewKey(entries, key)
    requires IsFlagKey(key) && Lacks(key, '=') && Lacks(key, '\n')
    ensures AllFlags(entries + FlagEntry(mask, bit, key)) && DistinctKeys(entries + FlagEntry(mask, bit, key))
    ensures forall k | NewKey(entries, k) && k != key :: NewKey(entries + FlagEntry(mask, bit, key), k)
  {
  }

  lemma FlagsAreFlags(mask: bv32)
    ensures AllFlags(FlagEntries(mask)) && DistinctKeys(FlagEntries(mask))
  {
    hide FlagEntry, AllFlags, NewKey;
    var es := FlagEntry(mask, STD_D, "ieee80211d");
    FirstFlag(mask);
    OneMoreFlag(es, mask, STD_H, "ieee80211h");
    es := es + FlagEntry(mask, STD_H, "ieee80211h");
    OneMoreFlag(es, mask, STD_N, "ieee80211n");
    es := es + FlagEntry(mask, STD_N, "ieee80211n");
    OneMoreFlag(es, mask, STD_AC, "ieee80211ac");
    es := es + FlagEntry(mask, STD_AC, "ieee80211ac");
    OneMoreFlag(es, mask, STD_AX, "ieee80211ax");
    es := es + FlagEntry(mask, STD_AX, "ieee80211ax");
    OneMoreFlag(es, mask, STD_W, "ieee80211w");
  }

  lemma FirstFlag(mask: bv32)
    ensures var es := FlagEntry(mask, STD_D, "ieee80211d");
      && AllFlags(es) && DistinctKeys(es) && NewKey(es, "ieee80211h") && NewKey(es, "ieee80211n")
      && NewKey(es, "ieee80211ac") && NewKey(es, "ieee80211ax") && NewKey(es, "ieee80211w")
  {
  }

  /** Each key appears at most once in the file. */
  lemma KeysAreUnique(s: Settings)
    ensures DistinctKeys(HostapdEntries(s))
  {
    hide FixedEntries, FlagEntries, IsFlagKey, Readable;
    FixedKeys(s);
    FixedHasNoFlagKeys(s);
    FlagsAreFlags(s.stdMask);
  }

  // ----- looking up -----

  lemma {:induction false} LookupAt(entries: seq<Entry>, i: nat)
    requires DistinctKeys(entries) && i < |entries|
    ensures Lookup(entries, entries[i].key) == Some(entries[i].value)
  {
    if i > 0 {
      LookupAt(entries[1..], i - 1);
    }
  }

  lemma {:induction false} LookupNew(entries: seq<Entry>, key: string)
    requires NewKey(entries, key)
    ensures Lookup(entries, key) == None
  {
    if entries != [] {
      LookupNew(entries[1..], key);
    }
  }

  lemma {:induction false} LookupInBoth(a: seq<Entry>, b: seq<Entry>, key: string)
    ensures Lookup(a + b, key) == if Lookup(a, key).Some? then Lookup(a, key) else Lookup(b, key)
  {
    if a == [] {
      assert a + b == b;
    } else {
      LookupInBoth(a[1..], b, key);
      assert (a + b)[1..] == a[1..] + b;
    }
  }

  lemma OneFlagLookup(mask: bv32, bit: bv32, printed: string, key: string)
    ensures Lookup(FlagEntry(mask, bit, printed), key) ==
      if printed == key && mask & bit != 0 then Some("1") else None
  {
  }

  lemma FlagLookup(mask: bv32, key: string)
    ensures Lookup(FlagEntries(mask), key) ==
      if (key == "ieee80211d" && mask & STD_D != 0) || (key == "ieee80211h" && mask & STD_H != 0)
        || (key == "ieee80211n" && mask & STD_N != 0) || (key == "ieee80211ac" && mask & STD_AC != 0)
        || (key == "ieee80211ax" && mask & STD_AX != 0) || (key == "ieee80211w" && mask & STD_W != 0)
      then Some("1") else None
  {
    hide FlagEntry, Lookup;
    var d, h := FlagEntry(mask, STD_D, "ieee80211d"), FlagEntry(mask, STD_H, "ieee80211h");
    var n, ac := FlagEntry(mask, STD_N, "ieee80211n"), FlagEntry(mask, STD_AC, "ieee80211ac");
    var ax, w := FlagEntry(mask, STD_AX, "ieee80211ax"), FlagEntry(mask, STD_W, "ieee80211w");
    OneFlagLookup(mask, STD_D, "ieee80211d", key);
    OneFlagLookup(mask, STD_H, "ieee80211h", key);
    OneFlagLookup(mask, STD_N, "ieee80211n", key);
    OneFlagLookup(mask, STD_AC, "ieee80211ac", key);
    OneFlagLookup(mask, STD_AX, "ieee80211ax", key);
    OneFlagLookup(mask, STD_W, "ieee80211w", key);
    LookupInBoth(d, h, key);
    LookupInBoth(d + h, n, key);
    LookupInBoth(d + h + n, ac, key);
    LookupInBoth(d + h + n + ac, ax, key);
    LookupInBoth(d + h + n + ac + ax, w, key);
  }

  lemma FlagIsRead(s: Settings, key: string, bit: bv32)
    requires Sound(s)
    requires (key == "ieee80211d" && bit == STD_D) || (key == "ieee80211h" && bit == STD_H)
          || (key == "ieee80211n" && bit == STD_N) || (key == "ieee80211ac" && bit == STD_AC)
          || (key == "ieee80211ax" && bit == STD_AX) || (key == "ieee80211w" && bit == STD_W)
    ensures ReadFlag(HostapdEntries(s), key, bit) == s.stdMask & bit
  {
    assert IsFlagKey(key);
    FixedHasNoFlagKeys(s);
    assert NewKey(FixedEntries(s), key);
    hide FixedEntries, FlagEntries, IsFlagKey, Sound;
    LookupNew(FixedEntries(s), key);
    FlagLookup(s.stdMask, key);
    LookupInBoth(FixedEntries(s), FlagEntries(s.stdMask), key);
    hide Lookup;
  }

  lemma MaskIsRead(s: Settings)
    requires Sound(s)
    ensures ReadHardware(Some(HardwareName(s.stdMask))) == s.stdMask & HARDWARE
    ensures var es, m := HostapdEntries(s), s.stdMask;
      (m & HARDWARE) | ReadFlag(es, "ieee80211d", STD_D) | ReadFlag(es, "ieee80211h", STD_H)
      | ReadFlag(es, "ieee80211n", STD_N) | ReadFlag(es, "ieee80211ac", STD_AC)
      | ReadFlag(es, "ieee80211ax", STD_AX) | ReadFlag(es, "ieee80211w", STD_W) == m & 0x3FF
  {
    hide HostapdEntries, ReadFlag;
    FlagIsRead(s, "ieee80211d", STD_D);
    FlagIsRead(s, "ieee80211h", STD_H);
    FlagIsRead(s, "ieee80211n", STD_N);
    FlagIsRead(s, "ieee80211ac", STD_AC);
    FlagIsRead(s, "ieee80211ax", STD_AX);
    FlagIsRead(s, "ieee80211w", STD_W);
  }

  /** The looked-up values of the keys that are always printed. */
  lemma FixedLookups(s: Settings)
    requires Sound(s)
    ensures var es := HostapdEntries(s);
      && Lookup(es, "ssid") == Some(s.ssid) && Lookup(es, "channel") == Some(NatText(s.channelNumber))
      && Lookup(es, "max_num_sta") == Some(SignedText(s.maxNumberClient))
      && Lookup(es, "country_code") == Some(s.countryCode)
      && Lookup(es, "ignore_broadcast_ssid") == Some(if s.discoverable then "0" else "1")
      && Lookup(es, "hw_mode") == Some(HardwareName(s.stdMask))
  {
    hide Lookup, NatText, SignedText, HardwareName, FixedEntries, FlagEntries, DistinctKeys;
    KeysAreUnique(s);
    FixedAt(s);
    var es, fixed := HostapdEntries(s), FixedEntries(s);
    assert forall i | 0 <= i < 5 :: es[8 + i] == fixed[8..13][i];
    assert es[17] == fixed[17..][0];
    LookupAt(es, 8);
    LookupAt(es, 9);
    LookupAt(es, 10);
    LookupAt(es, 11);
    LookupAt(es, 12);
    LookupAt(es, 17);
  }

  lemma SecurityLookups(s: Settings)
    requires Sound(s)
    ensures var es := HostapdEntries(s);
      if s.securityProtocol == SECURITY_WPA2 then
        Lookup(es, "wpa") == Some("2") && Lookup(es, "wpa_passphrase") == Some(s.passphrase)
      else Lookup(es, "wpa") == None && Lookup(es, "wpa_passphrase") == None
  {
    hide Lookup, NatText, SignedText, HardwareName, FixedEntries, FlagEntries, DistinctKeys;
    KeysAreUnique(s);
    FixedAt(s);
    var es, fixed := HostapdEntries(s), FixedEntries(s);
    assert forall i | 0 <= i < 4 :: es[13 + i] == fixed[13..17][i];
    if s.securityProtocol == SECURITY_WPA2 {
      LookupAt(es, 13);
      LookupAt(es, 16);
    } else {
      OpenLacks(s, "wpa");
      OpenLacks(s, "wpa_passphrase");
    }
  }

  lemma OpenHasNo(s: Settings, key: string)
    requires s.securityProtocol == SECURITY_NONE && key in {"wpa", "wpa_passphrase"}
    ensures NewKey(FixedEntries(s), key)
  {
    hide NatText, SignedText, HardwareName;
    assert NewKey(COMMON_ENTRIES, key) && NewKey(SettingEntries(s), key) && NewKey(OPEN_ENTRIES, key);
  }

  lemma OpenLacks(s: Settings, key: string)
    requires s.securityProtocol == SECURITY_NONE && key in {"wpa", "wpa_passphrase"}
    ensures Lookup(HostapdEntries(s), key) == None
  {
    hide Lookup, FlagEntries, FixedEntries;
    OpenHasNo(s, key);
    LookupNew(FixedEntries(s), key);
    FlagLookup(s.stdMask, key);
    LookupInBoth(FixedEntries(s), FlagEntries(s.stdMask), key);
  }

  lemma NatIsRead(n: nat)
    ensures ReadNat(Some(NatText(n))) == Some(n)
  {
    ValueOfNatText(n);
  }

  /**
   * Round trip: what hostapd reads from its file is what was set, exactly when no line break is in the network
   * name, the country code or, under WPA2, the passphrase.
   */
  lemma RoundTripIff(s: Settings)
    requires Sound(s)
    ensures HostapdText(s).Some?
    ensures Read(HostapdText(s).value) == Shown(s) <==> NoLineBreaks(s)
    ensures NoLineBreaks(s) ==> Entries(HostapdText(s).value) == HostapdEntries(s)
  {
    TextIsEntries(s);
    if NoLineBreaks(s) {
      ReadsWhatIsPrinted(s);
      EntriesShowSettings(s);
    }
    if Read(HostapdText(s).value) == Shown(s) {
      OnlyLinesAreRead(s);
    }
  }

  lemma EntriesShowSettings(s: Settings)
    requires Sound(s)
    ensures ReadEntries(HostapdEntries(s)) == Shown(s)
  {
    FixedLookups(s);
    SecurityLookups(s);
    MaskIsRead(s);
    NatIsRead(s.channelNumber);
    NatIsRead(s.maxNumberClient);
    NatIsRead(0);
    NatIsRead(1);
    assert NatText(0) == "0" && NatText(1) == "1";
    hide HostapdEntries, Lookup, ReadFlag, ReadHardware, HardwareName, NatText, ReadNat, OneHardwareBit;
  }

  lemma ReadsWhatIsPrinted(s: Settings)
    requires Sound(s) && NoLineBreaks(s)
    ensures HostapdText(s).Some? && Entries(HostapdText(s).value) == HostapdEntries(s)
  {
    TextIsEntries(s);
    AllEntriesReadable(s);
    hide HostapdText, Matches, HostapdEntries, Readable, NoLineBreaks;
    var lines :| Matches(lines, HostapdEntries(s)) && Concat(lines) == HostapdText(s).value;
    EntriesOfLines(lines, HostapdEntries(s));
  }

  lemma OnlyLinesAreRead(s: Settings)
    requires Sound(s) && HostapdText(s).Some? && Read(HostapdText(s).value) == Shown(s)
    ensures NoLineBreaks(s)
  {
    var text := HostapdText(s).value;
    ReadValuesAreLines(text);
    LookupIsRead(Entries(text), "ssid");
    LookupIsRead(Entries(text), "country_code");
    LookupIsRead(Entries(text), "wpa_passphrase");
  }

  lemma AllEntriesReadable(s: Settings)
    requires Sound(s) && NoLineBreaks(s)
    ensures forall e | e in HostapdEntries(s) :: Readable(e)
  {
    CommonReadable();
    SettingsReadable(s);
    SecurityReadable(s);
    FlagsAreFlags(s.stdMask);
    assert Readable(Entry("hw_mode", HardwareName(s.stdMask)));
    hide Readable, SettingEntries, SecurityEntries, FlagEntries;
  }

  // ----- what is read, bit by bit -----

  /** A flag is looked up behind the entries that are always printed. */
  lemma FlagIsListed(s: Settings, key: string)
    requires IsFlagKey(key)
    ensures Lookup(HostapdEntries(s), key) == Lookup(FlagEntries(s.stdMask), key)
  {
    hide FixedEntries, FlagEntries, IsFlagKey, Lookup;
    FixedHasNoFlagKeys(s);
    LookupNew(FixedEntries(s), key);
    LookupInBoth(FixedEntries(s), FlagEntries(s.stdMask), key);
  }

  lemma FlagsByBits(s: Settings)
    ensures var es, m := HostapdEntries(s), s.stdMask;
      && Lookup(es, "ieee80211d") == (if m & 0x10 != 0 then Some("1") else None)
      && Lookup(es, "ieee80211h") == (if m & 0x20 != 0 then Some("1") else None)
      && Lookup(es, "ieee80211n") == (if m & 0x40 != 0 then Some("1") else None)
      && Lookup(es, "ieee80211ac") == (if m & 0x80 != 0 then Some("1") else None)
      && Lookup(es, "ieee80211ax") == (if m & 0x100 != 0 then Some("1") else None)
      && Lookup(es, "ieee80211w") == (if m & 0x200 != 0 then Some("1") else None)
  {
    hide Lookup, HostapdEntries, FlagEntries;
    FlagIsListed(s, "ieee80211d");
    FlagIsListed(s, "ieee80211h");
    FlagIsListed(s, "ieee80211n");
    FlagIsListed(s, "ieee80211ac");
    FlagIsListed(s, "ieee80211ax");
    FlagIsListed(s, "ieee80211w");
    FlagLookup(s.stdMask, "ieee80211d");
    FlagLookup(s.stdMask, "ieee80211h");
    FlagLookup(s.stdMask, "ieee80211n");
    FlagLookup(s.stdMask, "ieee80211ac");
    FlagLookup(s.stdMask, "ieee80211ax");
    FlagLookup(s.stdMask, "ieee80211w");
  }

  lemma HardwareByBits(mask: bv32)
    ensures HardwareName(mask) ==
      if mask & 0xF == 1 then "a" else if mask & 0xF == 2 then "b" else if mask & 0xF == 8 then "ad" else "g"
  {
  }

  /**
   * What hostapd reads from the printed text, in numbers: the hardware mode by the low four bits of the mask, a flag for
   * each further bit, the security by the protocol, the visibility.
   */
  lemma ReadByBits(s: Settings)
    requires Sound(s) && NoLineBreaks(s)
    ensures HostapdText(s).Some?
    ensures var es, m := Entries(HostapdText(s).value), s.stdMask;
      && (Lookup(es, "hw_mode") == Some("a") <==> m & 0xF == 1) && (Lookup(es, "hw_mode") == Some("b") <==> m & 0xF == 2)
      && (Lookup(es, "hw_mode") == Some("g") <==> m & 0xF == 4) && (Lookup(es, "hw_mode") == Some("ad") <==> m & 0xF == 8)
      && Lookup(es, "ieee80211d") == (if m & 0x10 != 0 then Some("1") else None)
      && Lookup(es, "ieee80211h") == (if m & 0x20 != 0 then Some("1") else None)
      && Lookup(es, "ieee80211n") == (if m & 0x40 != 0 then Some("1") else None)
      && Lookup(es, "ieee80211ac") == (if m & 0x80 != 0 then Some("1") else None)
      && Lookup(es, "ieee80211ax") == (if m & 0x100 != 0 then Some("1") else None)
      && Lookup(es, "ieee80211w") == (if m & 0x200 != 0 then Some("1") else None)
      && Lookup(es, "wpa") == (if s.securityProtocol == 1 then Some("2") else None)
      && Lookup(es, "wpa_passphrase") == (if s.securityProtocol == 1 then Some(s.passphrase) else None)
      && Lookup(es, "ignore_broadcast_ssid") == Some(if s.discoverable then "0" else "1")
  {
    hide Lookup, HostapdText, HostapdEntries, HardwareName, NoLineBreaks;
    ReadsWhatIsPrinted(s);
    FlagsByBits(s);
    HardwareByBits(s.stdMask);
    LegalMaskByBits(s.stdMask);
    FixedLookups(s);
    SecurityLookups(s);
    assert "a" != "b" && "a" != "g" && "b" != "g" && |"ad"| == 2;
  }

  /** The lines that no setting changes. */
  lemma ConstantsAreRead(s: Settings)
    requires Sound(s) && NoLineBreaks(s)
    ensures HostapdText(s).Some?
    ensures var es := Entries(HostapdText(s).value);
      && Lookup(es, "driver") == Some("nl80211") && Lookup(es, "wmm_enabled") == Some("1")
      && Lookup(es, "beacon_int") == Some("100") && Lookup(es, "dtim_period") == Some("2")
      && Lookup(es, "rts_threshold") == Some("2347") && Lookup(es, "fragm_threshold") == Some("2346")
      && Lookup(es, "ctrl_interface") == Some("/var/run/hostapd") && Lookup(es, "ctrl_interface_group") == Some("0")
      && (if s.securityProtocol == 0 then
            && Lookup(es, "auth_algs") == Some("1") && Lookup(es, "eap_server") == Some("0")
            && Lookup(es, "eapol_key_index_workaround") == Some("0") && Lookup(es, "macaddr_acl") == Some("0")
          else Lookup(es, "wpa_key_mgmt") == Some("WPA-PSK") && Lookup(es, "rsn_pairwise") == Some("CCMP"))
  {
    hide Lookup, HostapdText, HostapdEntries, FixedEntries, NoLineBreaks;
    ReadsWhatIsPrinted(s);
    ConstantsAt(s);
    FixedIsRead(s, 0);
    FixedIsRead(s, 1);
    FixedIsRead(s, 2);
    FixedIsRead(s, 3);
    FixedIsRead(s, 4);
    FixedIsRead(s, 5);
    FixedIsRead(s, 6);
    FixedIsRead(s, 7);
    FixedIsRead(s, 13);
    FixedIsRead(s, 14);
    FixedIsRead(s, 15);
    FixedIsRead(s, 16);
  }

  lemma FixedIsRead(s: Settings, i: nat)
    requires i < |FixedEntries(s)|
    ensures Lookup(HostapdEntries(s), FixedEntries(s)[i].key) == Some(FixedEntries(s)[i].value)
  {
    hide Lookup, FixedEntries, FlagEntries, DistinctKeys;
    KeysAreUnique(s);
    LookupAt(HostapdEntries(s), i);
  }

  lemma ConstantsAt(s: Settings)
    ensures |FixedEntries(s)| == 18
    ensures forall i | 0 <= i < 8 :: FixedEntries(s)[i] == COMMON_ENTRIES[i]
    ensures s.securityProtocol == 0 ==> forall i | 13 <= i < 17 :: FixedEntries(s)[i] == OPEN_ENTRIES[i - 13]
    ensures s.securityProtocol != 0 ==> forall i | 13 <= i < 16 :: FixedEntries(s)[i] == WPA2_ENTRIES[i - 13]
  {
    hide NatText, SignedText, HardwareName;
  }
}
