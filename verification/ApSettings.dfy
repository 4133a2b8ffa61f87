/**
 * The settings of the access point as a state machine over setter calls, accepted or rejected. `Apply` is the
 * specification that the setters of class WifiApData are proved against.
 */
module ApSettings {
  import opened CStrings
  import opened Utf8

  const NO_ERROR := 0
  const ERROR_INVALID := -1
  const ERROR_TOO_SMALL := -3
  const ERROR_TOO_LARGE := -4
  const ERROR_NO_HARD := -5
  const ERROR_MANY_HARD := -6
  const ERROR_STD_AC := -7
  const ERROR_STD_H := -8

  const MAX_SSID := 32
  const MIN_PASSPHRASE := 8
  const MAX_PASSPHRASE := 63
  const MAX_PSK := 64
  const COUNTRY_CODE := 2
  const MAX_IP := 15
  const MAX_USERS := 1000

  const STD_A: bv32 := 0x1
  const STD_B: bv32 := 0x2
  const STD_G: bv32 := 0x4
  const STD_AD: bv32 := 0x8
  const STD_D: bv32 := 0x10
  const STD_H: bv32 := 0x20
  const STD_N: bv32 := 0x40
  const STD_AC: bv32 := 0x80
  const STD_AX: bv32 := 0x100
  const STD_W: bv32 := 0x200
  const HARDWARE: bv32 := 0xF

  const SECURITY_NONE := 0
  const SECURITY_WPA2 := 1

  type Uint16 = n: nat | n < 0x1_0000
  type Uint32 = n: nat | n < 0x1_0000_0000

  datatype Bounds = Bounds(min: Uint16, max: Uint16) {
    predicate Contains(channel: nat) {
      min <= channel <= max
    }
  }

  datatype Settings = Settings(
    interfaceName: Option<string>, domainName: Option<string>, hostName: Option<string>,
    channelBounds: Bounds,
    ssid: string, ipAp: string, ipStart: string, ipStop: string, ipNetmask: string,
    passphrase: string, presharedKey: string, countryCode: string,
    discoverable: bool, stdMask: bv32, channelNumber: Uint16, maxNumberClient: Uint32, securityProtocol: int)

  /** What calloc leaves. */
  const BLANK := Settings(None, None, None, Bounds(0, 0), "", "", "", "", "", "", "", "", false, 0, 0, 0, SECURITY_NONE)

  /** One call of a setter; None is a null pointer. */
  datatype Call =
    | SetInterfaceName(name: Option<string>)
    | SetDomainName(name: Option<string>)
    | SetHostName(name: Option<string>)
    | SetSsid(text: Option<string>)
    | SetPassPhrase(text: Option<string>)
    | SetPreSharedKey(key: string)
    | SetCountryCode(text: Option<string>)
    | SetSecurityProtocol(text: Option<string>)
    | SetIpAp(text: Option<string>)
    | SetIpStart(text: Option<string>)
    | SetIpStop(text: Option<string>)
    | SetIpNetMask(text: Option<string>)
    | SetIpRange(ap: string, start: string, stop: string, netmask: string)
    | SetDiscoverable(flag: bool)
    | SetMaxNumberClients(clients: Uint32)
    | SetIeeeStandard(mask: bv32)
    | SetChannel(channel: Uint32)

  predicate IsCString(text: Option<string>) {
    text.None? || NUL !in text.value
  }

  predicate IsUtf8Source(text: string) {
    NUL !in text && Complete(text)
  }

  /** What every caller provides: C strings, with whole characters where they are copied as UTF-8. */
  predicate Callable(c: Call) {
    match c
    case SetPreSharedKey(k) => IsUtf8Source(k)
    case SetIpRange(a, b, s, n) => IsUtf8Source(a) && IsUtf8Source(b) && IsUtf8Source(s) && IsUtf8Source(n)
    case SetDiscoverable(_) => true
    case SetMaxNumberClients(_) => true
    case SetIeeeStandard(_) => true
    case SetChannel(_) => true
    case SetInterfaceName(t) => IsCString(t)
    case SetDomainName(t) => IsCString(t)
    case SetHostName(t) => IsCString(t)
    case _ => IsCString(c.text)
  }

  /** The verdict of set_buffer on its argument. */
  function BufferVerdict(text: Option<string>, minLength: nat, maxLength: nat): int {
    if text.None? then ERROR_INVALID
    else if |text.value| < minLength then ERROR_TOO_SMALL
    else if |text.value| > maxLength then ERROR_TOO_LARGE
    else NO_ERROR
  }

  /** The verdict of set_string_copy on its argument. */
  function NameVerdict(name: Option<string>): int {
    if name.None? then ERROR_INVALID else if name.value == "" then ERROR_TOO_SMALL else NO_ERROR
  }

  function RangeVerdict(ap: string, start: string, stop: string, netmask: string): int {
    if |ap| < 1 || |start| < 1 || |stop| < 1 || |netmask| < 1 then ERROR_TOO_SMALL
    else if |ap| > MAX_IP || |start| > MAX_IP || |stop| > MAX_IP || |netmask| > MAX_IP then ERROR_TOO_LARGE
    else NO_ERROR
  }

  /** The channel bounds that a call of setChannelParameter leaves: an unknown hardware mode keeps the old ones. */
  function BoundsFor(mask: bv32, old_: Bounds): Bounds {
    var hwMode := mask & HARDWARE;
    if hwMode == STD_A then Bounds(7, 196)
    else if hwMode == STD_B || hwMode == STD_G then Bounds(1, 14)
    else if hwMode == STD_AD then Bounds(1, 6)
    else old_
  }

  function ChannelVerdict(bounds: Bounds, channel: nat): int {
    if channel < bounds.min then ERROR_TOO_SMALL else if channel > bounds.max then ERROR_TOO_LARGE else NO_ERROR
  }

  function MaskVerdict(mask: bv32): int {
    var check := mask & (STD_A | STD_B | STD_G | STD_AD);
    if check == 0 then ERROR_NO_HARD
    else if check & (check - 1) != 0 then ERROR_MANY_HARD
    else if mask & STD_AC != 0 && mask & STD_A == 0 then ERROR_STD_AC
    else if mask & STD_H != 0 && mask & STD_D == 0 then ERROR_STD_H
    else NO_ERROR
  }

  function Lower(c: char): char {
    if 'A' <= c <= 'Z' then c - 'A' + 'a' else c
  }

  predicate EqualIgnoringCase(s: string, t: string) {
    |s| == |t| && forall i | 0 <= i < |s| :: Lower(s[i]) == Lower(t[i])
  }

  function ProtocolOf(text: Option<string>): Option<int> {
    if text.None? then None
    else if EqualIgnoringCase(text.value, "none") then Some(SECURITY_NONE)
    else if EqualIgnoringCase(text.value, "WPA2") then Some(SECURITY_WPA2)
    else None
  }

  /** The verdict of a call. */
  function Verdict(s: Settings, c: Call): int
    requires Callable(c)
  {
    match c
    case SetInterfaceName(n) => NameVerdict(n)
    case SetDomainName(n) => NameVerdict(n)
    case SetHostName(n) => NameVerdict(n)
    case SetSsid(t) => BufferVerdict(t, 1, MAX_SSID)
    case SetPassPhrase(t) => BufferVerdict(t, MIN_PASSPHRASE, MAX_PASSPHRASE)
    case SetPreSharedKey(k) => if |k| > MAX_PSK then ERROR_TOO_LARGE else NO_ERROR
    case SetCountryCode(t) => BufferVerdict(t, COUNTRY_CODE, COUNTRY_CODE)
    case SetSecurityProtocol(t) => if ProtocolOf(t).None? then ERROR_INVALID else NO_ERROR
    case SetIpAp(t) => BufferVerdict(t, 1, MAX_IP)
    case SetIpStart(t) => BufferVerdict(t, 1, MAX_IP)
    case SetIpStop(t) => BufferVerdict(t, 1, MAX_IP)
    case SetIpNetMask(t) => BufferVerdict(t, 1, MAX_IP)
    case SetIpRange(a, b, e, n) => RangeVerdict(a, b, e, n)
    case SetDiscoverable(_) => NO_ERROR
    case SetMaxNumberClients(n) =>
      if n < 1 then ERROR_TOO_SMALL else if n > MAX_USERS then ERROR_TOO_LARGE else NO_ERROR
    case SetIeeeStandard(m) => MaskVerdict(m)
    case SetChannel(n) => ChannelVerdict(BoundsFor(s.stdMask, s.channelBounds), n)
  }

  /** The settings that an accepted call stores. */
  function Store(s: Settings, c: Call): Settings
    requires Callable(c) && Verdict(s, c) == NO_ERROR
  {
    match c
    case SetInterfaceName(n) => s.(interfaceName := n)
    case SetDomainName(n) => s.(domainName := n)
    case SetHostName(n) => s.(hostName := n)
    case SetSsid(t) => s.(ssid := t.value)
    case SetPassPhrase(t) => s.(passphrase := t.value)
    case SetPreSharedKey(k) => s.(presharedKey := Kept(k, MAX_PSK + 1))
    case SetCountryCode(t) => s.(countryCode := t.value)
    case SetSecurityProtocol(t) => s.(securityProtocol := ProtocolOf(t).value)
    case SetIpAp(t) => s.(ipAp := t.value)
    case SetIpStart(t) => s.(ipStart := t.value)
    case SetIpStop(t) => s.(ipStop := t.value)
    case SetIpNetMask(t) => s.(ipNetmask := t.value)
    case SetIpRange(a, b, e, n) =>
      s.(ipAp := Kept(a, MAX_IP + 1), ipStart := Kept(b, MAX_IP + 1),
         ipStop := Kept(e, MAX_IP + 1), ipNetmask := Kept(n, MAX_IP + 1))
    case SetDiscoverable(f) => s.(discoverable := f)
    case SetMaxNumberClients(n) => s.(maxNumberClient := n)
    case SetIeeeStandard(m) => s.(stdMask := m)
    case SetChannel(n) => s.(channelBounds := BoundsFor(s.stdMask, s.channelBounds), channelNumber := n)
  }

  /** The settings after a call. Setting a channel replaces the stored bounds even when it is rejected. */
  function Apply(s: Settings, c: Call): Settings
    requires Callable(c)
  {
    if Verdict(s, c) == NO_ERROR then Store(s, c)
    else if c.SetChannel? then s.(channelBounds := BoundsFor(s.stdMask, s.channelBounds))
    else s
  }

  // ----- the invariant -----

  predicate OneHardwareBit(mask: bv32) {
    mask & HARDWARE in {STD_A, STD_B, STD_G, STD_AD}
  }

  /** The masks that make sense to hostapd. */
  predicate LegalMask(mask: bv32) {
    && OneHardwareBit(mask)
    && (mask & STD_AC != 0 ==> mask & HARDWARE == STD_A)
    && (mask & STD_H != 0 ==> mask & STD_D != 0)
  }

  predicate IsName(name: Option<string>) {
    name.Some? && name.value != "" && NUL !in name.value
  }

  predicate SoundNames(s: Settings) {
    IsName(s.interfaceName) && IsName(s.domainName) && IsName(s.hostName)
  }

  predicate IsText(text: string, minLength: nat, maxLength: nat) {
    minLength <= |text| <= maxLength && NUL !in text
  }

  predicate SoundTexts(s: Settings) {
    && IsText(s.ssid, 1, MAX_SSID) && IsText(s.countryCode, COUNTRY_CODE, COUNTRY_CODE)
    && IsText(s.passphrase, MIN_PASSPHRASE, MAX_PASSPHRASE) && IsText(s.presharedKey, 0, MAX_PSK)
    && IsText(s.ipAp, 0, MAX_IP) && IsText(s.ipStart, 0, MAX_IP)
    && IsText(s.ipStop, 0, MAX_IP) && IsText(s.ipNetmask, 0, MAX_IP)
  }

  predicate SoundNumbers(s: Settings) {
    && 1 <= s.maxNumberClient <= MAX_USERS
    && (s.securityProtocol == SECURITY_NONE || s.securityProtocol == SECURITY_WPA2)
    && 1 <= s.channelNumber <= 196
    && (s.channelBounds == Bounds(7, 196) || s.channelBounds == Bounds(1, 14) || s.channelBounds == Bounds(1, 6))
  }

  /** What every setter keeps. */
  predicate Sound(s: Settings) {
    SoundNames(s) && SoundTexts(s) && SoundNumbers(s) && LegalMask(s.stdMask)
  }

  /** The code's power-of-two test and its two exclusions accept exactly the legal masks. */
  lemma MaskAcceptedIff(mask: bv32)
    ensures MaskVerdict(mask) == NO_ERROR <==> LegalMask(mask)
  {
    var hw := mask & HARDWARE;
    assert STD_A | STD_B | STD_G | STD_AD == HARDWARE;
    assert hw & STD_A == mask & STD_A;
    assert hw != 0 && hw & (hw - 1) == 0 <==> hw == 1 || hw == 2 || hw == 4 || hw == 8;
  }

  lemma ApplyKeepsTexts(s: Settings, c: Call)
    requires SoundTexts(s) && Callable(c)
    ensures SoundTexts(Apply(s, c))
  {
  }

  lemma ApplyKeepsNumbers(s: Settings, c: Call)
    requires SoundNumbers(s) && LegalMask(s.stdMask) && Callable(c)
    ensures SoundNumbers(Apply(s, c))
  {
    hide MaskVerdict, Kept, EqualIgnoringCase, IsUtf8Source, BufferVerdict;
  }

  lemma ApplyKeepsMask(s: Settings, c: Call)
    requires LegalMask(s.stdMask) && Callable(c)
    ensures LegalMask(Apply(s, c).stdMask)
  {
    if c.SetIeeeStandard? {
      MaskAcceptedIff(c.mask);
    }
  }

  lemma ApplyKeepsSound(s: Settings, c: Call)
    requires Sound(s) && Callable(c)
    ensures Sound(Apply(s, c))
  {
    ApplyKeepsTexts(s, c);
    ApplyKeepsNumbers(s, c);
    ApplyKeepsMask(s, c);
  }

  /** A rejected call changes nothing but, for a channel, the stored bounds. */
  lemma RejectedChangesOnlyBounds(s: Settings, c: Call)
    requires Callable(c) && Verdict(s, c) != NO_ERROR
    ensures Apply(s, c).(channelBounds := s.channelBounds) == s
    ensures Apply(s, c) == s || c.SetChannel?
  {
  }

  /**
   * Addresses set together: an error leaves all four alone; success stores all four exactly if and only if
   * each is clean UTF-8. An address with a malformed lead byte is accepted and stored as the empty string.
   */
  lemma RangeIsAllOrNothing(s: Settings, c: Call)
    requires c.SetIpRange? && Callable(c)
    ensures Verdict(s, c) != NO_ERROR ==> Apply(s, c) == s
    ensures Verdict(s, c) == NO_ERROR ==>
      (Apply(s, c) == s.(ipAp := c.ap, ipStart := c.start, ipStop := c.stop, ipNetmask := c.netmask)
       <==> Clean(c.ap) && Clean(c.start) && Clean(c.stop) && Clean(c.netmask))
    ensures Verdict(s, c) == NO_ERROR && !Clean(c.ap) ==> Apply(s, c).ipAp == ""
  {
    hide Kept, Clean, Complete;
    if Verdict(s, c) == NO_ERROR {
      StoredWholeOrEmpty(c.ap, MAX_IP);
      StoredWholeOrEmpty(c.start, MAX_IP);
      StoredWholeOrEmpty(c.stop, MAX_IP);
      StoredWholeOrEmpty(c.netmask, MAX_IP);
    }
  }

  /** A pre-shared key that is accepted is stored exactly if it is clean, and otherwise erased. */
  lemma PreSharedKeyStoredIff(s: Settings, key: string)
    requires IsUtf8Source(key) && |key| <= MAX_PSK
    ensures Verdict(s, SetPreSharedKey(key)) == NO_ERROR
    ensures Apply(s, SetPreSharedKey(key)).presharedKey == if Clean(key) then key else ""
  {
    hide Kept, Clean, Complete;
    StoredWholeOrEmpty(key, MAX_PSK);
  }

  lemma StoredWholeOrEmpty(text: string, limit: nat)
    requires Complete(text) && |text| <= limit
    ensures Kept(text, limit + 1) == if Clean(text) then text else ""
  {
    WalkEnds(text, 0, limit + 1);
    NeverFull(text, 0, limit + 1);
  }

  // ----- what the setters accept, reply and store, in numbers and characters -----

  predicate SpellsNone(text: string) {
    |text| == 4 && text[0] in {'n', 'N'} && text[1] in {'o', 'O'} && text[2] in {'n', 'N'} && text[3] in {'e', 'E'}
  }

  predicate SpellsWpa2(text: string) {
    |text| == 4 && text[0] in {'w', 'W'} && text[1] in {'p', 'P'} && text[2] in {'a', 'A'} && text[3] == '2'
  }

  /** The two protocols are the only ones that are accepted; any other text leaves everything as it is. */
  lemma ProtocolIsSpelled(s: Settings, text: Option<string>)
    requires IsCString(text)
    ensures var code, after := Verdict(s, SetSecurityProtocol(text)), Apply(s, SetSecurityProtocol(text));
      if text.Some? && SpellsNone(text.value) then code == 0 && after == s.(securityProtocol := 0)
      else if text.Some? && SpellsWpa2(text.value) then code == 0 && after == s.(securityProtocol := 1)
      else code == -1 && after == s
  {
    if text.Some? {
      SpellingIs(text.value);
    }
    hide EqualIgnoringCase, SpellsNone, SpellsWpa2;
  }

  lemma SpellingIs(text: string)
    ensures EqualIgnoringCase(text, "none") <==> SpellsNone(text)
    ensures EqualIgnoringCase(text, "WPA2") <==> SpellsWpa2(text)
    ensures SpellsNone(text) ==> !SpellsWpa2(text)
  {
    assert forall c: char {:trigger Lower(c)} :: Lower(c) == 'n' <==> c in {'n', 'N'};
    if |text| == 4 {
      assert EqualIgnoringCase(text, "none") <==>
        Lower(text[0]) == 'n' && Lower(text[1]) == 'o' && Lower(text[2]) == 'n' && Lower(text[3]) == 'e';
      assert EqualIgnoringCase(text, "WPA2") <==>
        Lower(text[0]) == 'w' && Lower(text[1]) == 'p' && Lower(text[2]) == 'a' && Lower(text[3]) == '2';
    }
  }

  /** The codes for a length that has to be in a range. */
  predicate Judges(code: int, length: nat, least: nat, most: nat) {
    && (code == 0 <==> least <= length <= most) && (code == -3 <==> length < least)
    && (code == -4 <==> least <= length && most < length)
  }

  /** Texts by their lengths; null is an invalid argument. What is accepted is stored, and nothing else changes. */
  lemma TextsByLength(s: Settings, text: Option<string>)
    requires IsCString(text)
    ensures text.None? ==>
      && Verdict(s, SetSsid(text)) == -1 && Verdict(s, SetPassPhrase(text)) == -1 && Verdict(s, SetCountryCode(text)) == -1
      && Verdict(s, SetIpAp(text)) == -1 && Verdict(s, SetIpStart(text)) == -1
      && Verdict(s, SetIpStop(text)) == -1 && Verdict(s, SetIpNetMask(text)) == -1
    ensures text.Some? ==>
      && Judges(Verdict(s, SetSsid(text)), |text.value|, 1, 32)
      && Judges(Verdict(s, SetPassPhrase(text)), |text.value|, 8, 63)
      && Judges(Verdict(s, SetCountryCode(text)), |text.value|, 2, 2)
      && Judges(Verdict(s, SetIpAp(text)), |text.value|, 1, 15) && Judges(Verdict(s, SetIpStart(text)), |text.value|, 1, 15)
      && Judges(Verdict(s, SetIpStop(text)), |text.value|, 1, 15)
      && Judges(Verdict(s, SetIpNetMask(text)), |text.value|, 1, 15)
  {
  }

  lemma AcceptedTextsAreStored(s: Settings, text: Option<string>)
    requires IsCString(text)
    ensures Verdict(s, SetSsid(text)) == 0 ==> Apply(s, SetSsid(text)) == s.(ssid := text.value)
    ensures Verdict(s, SetPassPhrase(text)) == 0 ==> Apply(s, SetPassPhrase(text)) == s.(passphrase := text.value)
    ensures Verdict(s, SetCountryCode(text)) == 0 ==> Apply(s, SetCountryCode(text)) == s.(countryCode := text.value)
    ensures Verdict(s, SetIpAp(text)) == 0 ==> Apply(s, SetIpAp(text)) == s.(ipAp := text.value)
    ensures Verdict(s, SetIpStart(text)) == 0 ==> Apply(s, SetIpStart(text)) == s.(ipStart := text.value)
    ensures Verdict(s, SetIpStop(text)) == 0 ==> Apply(s, SetIpStop(text)) == s.(ipStop := text.value)
    ensures Verdict(s, SetIpNetMask(text)) == 0 ==> Apply(s, SetIpNetMask(text)) == s.(ipNetmask := text.value)
  {
  }

  /** Names are any texts but the empty one. */
  lemma NamesByLength(s: Settings, name: Option<string>)
    requires IsCString(name)
    ensures var code := if name.None? then -1 else if |name.value| == 0 then -3 else 0;
      && Verdict(s, SetInterfaceName(name)) == code && Verdict(s, SetDomainName(name)) == code
      && Verdict(s, SetHostName(name)) == code
      && Apply(s, SetInterfaceName(name)) == (if code == 0 then s.(interfaceName := name) else s)
      && Apply(s, SetDomainName(name)) == (if code == 0 then s.(domainName := name) else s)
      && Apply(s, SetHostName(name)) == (if code == 0 then s.(hostName := name) else s)
  {
  }

  /** Four addresses together: a short one is reported before a long one. The key: 64 bytes at most. */
  lemma CopiedTextsByLength(s: Settings, a: string, b: string, c: string, d: string)
    requires IsUtf8Source(a) && IsUtf8Source(b) && IsUtf8Source(c) && IsUtf8Source(d)
    ensures Verdict(s, SetIpRange(a, b, c, d)) ==
      if |a| == 0 || |b| == 0 || |c| == 0 || |d| == 0 then -3
      else if |a| > 15 || |b| > 15 || |c| > 15 || |d| > 15 then -4
      else 0
    ensures Verdict(s, SetPreSharedKey(a)) == if |a| > 64 then -4 else 0
  {
  }

  /** The number of clients, and the flag, which every value suits. */
  lemma ClientsByNumber(s: Settings, clients: Uint32, flag: bool)
    ensures Judges(Verdict(s, SetMaxNumberClients(clients)), clients, 1, 1000)
    ensures Apply(s, SetMaxNumberClients(clients)) == if 1 <= clients <= 1000 then s.(maxNumberClient := clients) else s
    ensures Verdict(s, SetDiscoverable(flag)) == 0 && Apply(s, SetDiscoverable(flag)) == s.(discoverable := flag)
  {
  }

  /** The standards, bit by bit: A 1, B 2, G 4, AD 8, D 0x10, H 0x20, AC 0x80. */
  lemma MaskByBits(s: Settings, mask: bv32)
    ensures var code, after := Verdict(s, SetIeeeStandard(mask)), Apply(s, SetIeeeStandard(mask));
      if mask & 0xF == 0 then code == -5 && after == s
      else if mask & 0xF !in {1, 2, 4, 8} then code == -6 && after == s
      else if mask & 0x80 != 0 && mask & 0xF != 1 then code == -7 && after == s
      else if mask & 0x20 != 0 && mask & 0x10 == 0 then code == -8 && after == s
      else code == 0 && after == s.(stdMask := mask)
  {
    var hw := mask & 0xF;
    assert STD_A | STD_B | STD_G | STD_AD == 0xF;
    assert hw & 1 == mask & 1;
    assert hw != 0 && hw & (hw - 1) == 0 <==> hw == 1 || hw == 2 || hw == 4 || hw == 8;
  }

  lemma LegalMaskByBits(mask: bv32)
    ensures LegalMask(mask) <==>
      && mask & 0xF in {1, 2, 4, 8} && (mask & 0x80 != 0 ==> mask & 0xF == 1)
      && (mask & 0x20 != 0 ==> mask & 0x10 != 0)
  {
  }

  /** The channel, by the hardware mode that is in force: 5 GHz, 2.4 GHz and 60 GHz. The bounds are stored in any case. */
  lemma ChannelByMode(s: Settings, channel: Uint32)
    requires s.stdMask & 0xF in {1, 2, 4, 8}
    ensures var code, after := Verdict(s, SetChannel(channel)), Apply(s, SetChannel(channel));
      var bounds :=
        if s.stdMask & 0xF == 1 then Bounds(7, 196) else if s.stdMask & 0xF == 8 then Bounds(1, 6) else Bounds(1, 14);
      && Judges(code, channel, bounds.min, bounds.max)
      && after == (if bounds.min <= channel <= bounds.max then s.(channelBounds := bounds, channelNumber := channel)
                   else s.(channelBounds := bounds))
  {
  }

  // ----- runs -----

  ghost predicate AllCallable(calls: seq<Call>) {
    forall c | c in calls :: Callable(c)
  }

  /** The settings after a sequence of calls. */
  ghost function Run(s: Settings, calls: seq<Call>): Settings
    requires AllCallable(calls)
  {
    if calls == [] then s
    else Apply(Run(s, calls[..|calls| - 1]), calls[|calls| - 1])
  }

  lemma {:induction false} RunKeepsSound(s: Settings, calls: seq<Call>)
    requires Sound(s) && AllCallable(calls)
    ensures Sound(Run(s, calls))
  {
    if calls != [] {
      RunKeepsSound(s, calls[..|calls| - 1]);
      ApplyKeepsSound(Run(s, calls[..|calls| - 1]), calls[|calls| - 1]);
    }
  }

  /** Index of the most recent attempt to set a channel. */
  ghost function LastChannelCall(calls: seq<Call>): (j: Option<nat>)
    ensures j.Some? ==> j.value < |calls| && calls[j.value].SetChannel?
  {
    if calls == [] then None
    else if calls[|calls| - 1].SetChannel? then Some(|calls| - 1)
    else LastChannelCall(calls[..|calls| - 1])
  }

  /** The bounds of the hardware mode of a legal mask. */
  function ModeBounds(mask: bv32): Bounds {
    BoundsFor(mask, Bounds(0, 0))
  }

  lemma ApplyToBounds(s: Settings, c: Call)
    requires LegalMask(s.stdMask) && Callable(c)
    ensures Apply(s, c).channelBounds == if c.SetChannel? then ModeBounds(s.stdMask) else s.channelBounds
  {
  }

  /**
   * The stored bounds are those of the mode in force when a channel was last set, whether that was accepted
   * or not; the mode may have changed since.
   */
  lemma {:induction false} BoundsHistory(s: Settings, calls: seq<Call>)
    requires Sound(s) && AllCallable(calls)
    ensures var j := LastChannelCall(calls);
      Run(s, calls).channelBounds ==
      (if j.None? then s.channelBounds else ModeBounds(Run(s, calls[..j.value]).stdMask))
  {
    if calls != [] {
      var before := calls[..|calls| - 1];
      BoundsHistory(s, before);
      RunKeepsSound(s, before);
      ApplyToBounds(Run(s, before), calls[|calls| - 1]);
      if LastChannelCall(before).Some? {
        assert before[..LastChannelCall(before).value] == calls[..LastChannelCall(before).value];
      }
    }
  }

  /** The channel test that guards a start. */
  predicate ChannelGuard(s: Settings) {
    s.channelBounds.Contains(s.channelNumber)
  }

  /** A start that passes the guard uses a channel of the mode in force at the last setChannel. */
  lemma GuardedChannelIsLegal(s: Settings, calls: seq<Call>, j: nat)
    requires Sound(s) && AllCallable(calls) && LastChannelCall(calls) == Some(j)
    requires ChannelGuard(Run(s, calls))
    ensures ModeBounds(Run(s, calls[..j]).stdMask).Contains(Run(s, calls).channelNumber)
    ensures ModeBounds(Run(s, calls[..j]).stdMask) == ModeBounds(Run(s, calls).stdMask) ==>
      ModeBounds(Run(s, calls).stdMask).Contains(Run(s, calls).channelNumber)
  {
    BoundsHistory(s, calls);
  }

  /** A run of one more call. */
  lemma RunAppend(s: Settings, calls: seq<Call>, c: Call)
    requires AllCallable(calls) && Callable(c)
    ensures AllCallable(calls + [c]) && Run(s, calls + [c]) == Apply(Run(s, calls), c)
  {
    assert (calls + [c])[..|calls|] == calls;
  }

  /** A run that starts with one more call. */
  lemma {:induction false} RunPrepend(s: Settings, c: Call, calls: seq<Call>)
    requires Callable(c) && AllCallable(calls)
    ensures AllCallable([c] + calls) && Run(s, [c] + calls) == Run(Apply(s, c), calls)
  {
    var all := [c] + calls;
    if calls == [] {
      assert all == [] + [c];
      RunAppend(s, [], c);
    } else {
      var n := |calls| - 1;
      RunPrepend(s, c, calls[..n]);
      assert all[..|all| - 1] == [c] + calls[..n];
    }
  }

  /** A run that ends in a mode which forbids the channel, and yet passes the guard. */
  ghost predicate SlipsThrough(s: Settings, calls: seq<Call>, first: bv32, second: bv32) {
    && AllCallable(calls) && LastChannelCall(calls).Some?
    && Run(s, calls[..LastChannelCall(calls).value]).stdMask == first && Run(s, calls).stdMask == second
    && ChannelGuard(Run(s, calls)) && !ModeBounds(second).Contains(Run(s, calls).channelNumber)
  }

  /** Two modes such that no channel of the first is forbidden by the second: the same bounds, or 60 GHz to 2.4 GHz. */
  predicate Harmless(first: bv32, second: bv32) {
    ModeBounds(first) == ModeBounds(second)
    || (first & HARDWARE == STD_AD && second & HARDWARE in {STD_B, STD_G})
  }

  lemma HarmlessModeChange(first: bv32, second: bv32)
    requires LegalMask(first) && LegalMask(second)
    ensures (forall channel: nat | ModeBounds(first).Contains(channel) :: ModeBounds(second).Contains(channel))
      <==> Harmless(first, second)
  {
    var b, c := ModeBounds(first), ModeBounds(second);
    assert b.Contains(b.min) && b.Contains(b.max);
  }

  /** A mode, one of its channels, and then another mode. */
  lemma StaleRun(s: Settings, first: bv32, channel: Uint32, second: bv32)
    requires Sound(s) && LegalMask(first) && LegalMask(second) && ModeBounds(first).Contains(channel)
    ensures var calls := [SetIeeeStandard(first)] + [SetChannel(channel)] + [SetIeeeStandard(second)];
      && AllCallable(calls) && LastChannelCall(calls) == Some(1) && Run(s, calls[..1]).stdMask == first
      && Run(s, calls).stdMask == second && Run(s, calls).channelNumber == channel && ChannelGuard(Run(s, calls))
  {
    var a, b, c := SetIeeeStandard(first), SetChannel(channel), SetIeeeStandard(second);
    var calls := [a] + [b] + [c];
    MaskAcceptedIff(first);
    MaskAcceptedIff(second);
    assert ModeBounds(first) == BoundsFor(first, s.channelBounds);
    hide LegalMask, BoundsFor, MaskVerdict;
    RunAppend(s, [], a);
    assert [] + [a] == [a];
    RunAppend(s, [a], b);
    RunAppend(s, [a] + [b], c);
    assert calls[..1] == [a] && calls[..2] == [a] + [b];
  }

  /**
   * From any sound settings: there is a run whose channel was last set in the first mode, that ends in the second, and
   * whose start would pass the guard with a channel that the second forbids, exactly if the change is not harmless.
   */
  lemma ModeChangeSlipsIff(s: Settings, first: bv32, second: bv32)
    requires Sound(s) && LegalMask(first) && LegalMask(second)
    ensures (exists calls :: SlipsThrough(s, calls, first, second)) <==> !Harmless(first, second)
  {
    HarmlessModeChange(first, second);
    hide Sound, LegalMask, Harmless, ModeBounds, ChannelGuard;
    forall calls | SlipsThrough(s, calls, first, second)
      ensures !Harmless(first, second)
    {
      GuardedChannelIsLegal(s, calls, LastChannelCall(calls).value);
    }
    if !Harmless(first, second) {
      var channel: nat :| ModeBounds(first).Contains(channel) && !ModeBounds(second).Contains(channel);
      StaleRun(s, first, channel, second);
      assert SlipsThrough(s, [SetIeeeStandard(first)] + [SetChannel(channel)] + [SetIeeeStandard(second)], first, second);
    }
  }
}
