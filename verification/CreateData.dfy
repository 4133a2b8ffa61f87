/** Building the settings from a JSON configuration object, by a table of keys and setters. */
module CreateData {
  import opened CStrings
  import opened ApSettings
  import opened ApData

  datatype Json = JString(text: string) | JBool(flag: bool) | JInt(value: int) | JOther

  type Config = map<string, Json>

  /** JSON strings reach the setters as C strings. */
  ghost predicate IsConfig(config: Config) {
    forall k | k in config && config[k].JString? :: NUL !in config[k].text
  }

  /** The setters that the table points to. */
  datatype Setter =
    | InterfaceName | DomainName | HostName | Ssid | PassPhrase | CountryCode | SecurityProtocol
    | IpAp | IpStart | IpStop | IpNetMask | Discoverable | MaxNumberClients | IeeeStandard | Channel

  datatype Kind = TextKind | BoolKind | UintKind

  datatype Desc = Desc(key: string, mandatory: bool, kind: Kind, setter: Setter)

  const ROWS := 16

  /** The rows of the table, in order. */
  function Row(k: nat): Desc
    requires k < ROWS
  {
    match k
    case 0 => Desc("interfaceName", true, TextKind, InterfaceName)
    case 1 => Desc("domaine_name", true, TextKind, DomainName)
    case 2 => Desc("hostname", true, TextKind, HostName)
    case 3 => Desc("ssid", true, TextKind, Ssid)
    case 4 => Desc("passphrase", true, TextKind, PassPhrase)
    case 5 => Desc("preSharedKey", false, TextKind, PassPhrase)
    case 6 => Desc("countryCode", true, TextKind, CountryCode)
    case 7 => Desc("securityProtocol", true, TextKind, SecurityProtocol)
    case 8 => Desc("ip_ap", true, TextKind, IpAp)
    case 9 => Desc("ip_start", true, TextKind, IpStart)
    case 10 => Desc("ip_stop", true, TextKind, IpStop)
    case 11 => Desc("ip_netmask", true, TextKind, IpNetMask)
    case 12 => Desc("discoverable", true, BoolKind, Discoverable)
    case 13 => Desc("maxNumberClient", true, UintKind, MaxNumberClients)
    case 14 => Desc("IeeeStdMask", true, UintKind, IeeeStandard)
    case _ => Desc("channelNumber", true, UintKind, Channel)
  }

  // ----- the table, step by step -----

  function TextCall(setter: Setter, text: string): Option<Call> {
    match setter
    case InterfaceName => Some(SetInterfaceName(Some(text)))
    case DomainName => Some(SetDomainName(Some(text)))
    case HostName => Some(SetHostName(Some(text)))
    case Ssid => Some(SetSsid(Some(text)))
    case PassPhrase => Some(SetPassPhrase(Some(text)))
    case CountryCode => Some(SetCountryCode(Some(text)))
    case SecurityProtocol => Some(SetSecurityProtocol(Some(text)))
    case IpAp => Some(SetIpAp(Some(text)))
    case IpStart => Some(SetIpStart(Some(text)))
    case IpStop => Some(SetIpStop(Some(text)))
    case IpNetMask => Some(SetIpNetMask(Some(text)))
    case _ => None
  }

  function UintCall(setter: Setter, value: Uint32): Option<Call> {
    match setter
    case MaxNumberClients => Some(SetMaxNumberClients(value))
    case IeeeStandard => Some(SetIeeeStandard(value as bv32))
    case Channel => Some(SetChannel(value))
    case _ => None
  }

  /** The setter call for a value of the right type and range, if it is one. */
  function EntryCall(d: Desc, v: Json): Option<Call> {
    match d.kind
    case TextKind => if v.JString? then TextCall(d.setter, v.text) else None
    case BoolKind => if v.JBool? then Some(SetDiscoverable(v.flag)) else None
    case UintKind => if v.JInt? && 0 <= v.value < 0x1_0000_0000 then UintCall(d.setter, v.value) else None
  }

  ghost predicate EntryAccepted(config: Config, d: Desc, s: Settings)
    requires IsConfig(config)
  {
    if d.key !in config then !d.mandatory
    else
      var c := EntryCall(d, config[d.key]);
      c.Some? && Verdict(s, c.value) == NO_ERROR
  }

  /** The settings after one table entry. */
  ghost function Step(s: Settings, d: Desc, config: Config): Settings
    requires IsConfig(config)
  {
    if d.key in config && EntryCall(d, config[d.key]).Some? then Apply(s, EntryCall(d, config[d.key]).value)
    else s
  }

  /** The settings after the first k entries. */
  ghost function StateAt(config: Config, k: nat): Settings
    requires IsConfig(config) && k <= ROWS
  {
    if k == 0 then BLANK else Step(StateAt(config, k - 1), Row(k - 1), config)
  }

  ghost predicate RowAccepted(config: Config, j: nat)
    requires IsConfig(config) && j < ROWS
  {
    EntryAccepted(config, Row(j), StateAt(config, j))
  }

  /** The errors counted in the first k entries. */
  ghost function ErrorsAt(config: Config, k: nat): nat
    requires IsConfig(config) && k <= ROWS
  {
    if k == 0 then 0 else ErrorsAt(config, k - 1) + if RowAccepted(config, k - 1) then 0 else 1
  }

  // ----- what a usable configuration is -----

  predicate HasText(config: Config, key: string, minLength: nat, maxLength: nat) {
    key in config && config[key].JString? && minLength <= |config[key].text| <= maxLength
  }

  predicate HasName(config: Config, key: string) {
    key in config && config[key].JString? && config[key].text != ""
  }

  predicate HasUint(config: Config, key: string) {
    key in config && config[key].JInt? && 0 <= config[key].value < 0x1_0000_0000
  }

  predicate HasProtocol(config: Config) {
    && "securityProtocol" in config && config["securityProtocol"].JString?
    && (SpellsNone(config["securityProtocol"].text) || SpellsWpa2(config["securityProtocol"].text))
  }

  predicate HasFirstTexts(config: Config) {
    && HasName(config, "interfaceName") && HasName(config, "domaine_name") && HasName(config, "hostname")
    && HasText(config, "ssid", 1, 32)
    && HasText(config, "passphrase", 8, 63) && PreSharedKeyFits(config)
  }

  /** The optional key is held to the limits of a passphrase. */
  predicate PreSharedKeyFits(config: Config) {
    "preSharedKey" in config ==> HasText(config, "preSharedKey", 8, 63)
  }

  predicate HasLastTexts(config: Config) {
    && HasText(config, "countryCode", 2, 2) && HasProtocol(config)
    && HasText(config, "ip_ap", 1, 15) && HasText(config, "ip_start", 1, 15)
    && HasText(config, "ip_stop", 1, 15) && HasText(config, "ip_netmask", 1, 15)
  }

  predicate HasFlagAndClients(config: Config) {
    && "discoverable" in config && config["discoverable"].JBool?
    && HasUint(config, "maxNumberClient") && 1 <= config["maxNumberClient"].value <= 1000
  }

  predicate HasMask(config: Config) {
    HasUint(config, "IeeeStdMask") && LegalMask(MaskIn(config))
  }

  predicate HasChannelIn(config: Config, bounds: Bounds) {
    HasUint(config, "channelNumber") && bounds.Contains(config["channelNumber"].value)
  }

  function MaskIn(config: Config): bv32
    requires HasUint(config, "IeeeStdMask")
  {
    config["IeeeStdMask"].value as bv32
  }

  /** Every mandatory key present, every present value of its type and in range, the channel for the given mode. */
  predicate Usable(config: Config) {
    HasFirstTexts(config) && HasLastTexts(config) && HasFlagAndClients(config) &&
    HasMask(config) && HasChannelIn(config, ModeBounds(MaskIn(config)))
  }

  /** The settings a usable configuration describes. A "preSharedKey" is stored as the passphrase. */
  function Configured(config: Config): Settings
    requires Usable(config)
  {
    Settings(
      Some(config["interfaceName"].text), Some(config["domaine_name"].text), Some(config["hostname"].text),
      ModeBounds(MaskIn(config)),
      config["ssid"].text, config["ip_ap"].text, config["ip_start"].text, config["ip_stop"].text,
      config["ip_netmask"].text,
      if "preSharedKey" in config then config["preSharedKey"].text else config["passphrase"].text,
      "", config["countryCode"].text, config["discoverable"].flag, MaskIn(config),
      config["channelNumber"].value, config["maxNumberClient"].value,
      if SpellsNone(config["securityProtocol"].text) then 0 else 1)
  }

  // ----- the table accepts exactly the usable configurations -----

  lemma {:induction false} NoErrorsIff(config: Config, k: nat)
    requires IsConfig(config) && k <= ROWS
    ensures ErrorsAt(config, k) == 0 <==> forall j | 0 <= j < k :: RowAccepted(config, j)
  {
    hide RowAccepted;
    if k > 0 {
      NoErrorsIff(config, k - 1);
    }
  }

  lemma FirstTexts(config: Config, states: seq<Settings>)
    requires IsConfig(config) && |states| == ROWS == 16
    ensures (forall j | 0 <= j < 6 :: EntryAccepted(config, Row(j), states[j])) <==> HasFirstTexts(config)
  {
    assert EntryAccepted(config, Row(0), states[0]) <==> HasName(config, "interfaceName");
    assert EntryAccepted(config, Row(1), states[1]) <==> HasName(config, "domaine_name");
    assert EntryAccepted(config, Row(2), states[2]) <==> HasName(config, "hostname");
    assert EntryAccepted(config, Row(3), states[3]) <==> HasText(config, "ssid", 1, 32);
    assert EntryAccepted(config, Row(4), states[4]) <==> HasText(config, "passphrase", 8, 63);
    assert EntryAccepted(config, Row(5), states[5]) <==> PreSharedKeyFits(config);
  }

  lemma LastTexts(config: Config, states: seq<Settings>)
    requires IsConfig(config) && |states| == ROWS == 16
    ensures (forall j | 6 <= j < 12 :: EntryAccepted(config, Row(j), states[j])) <==> HasLastTexts(config)
  {
    hide EntryAccepted, HasText, HasProtocol, Row;
    CountryAndProtocol(config, states);
    Addresses(config, states);
  }

  lemma CountryAndProtocol(config: Config, states: seq<Settings>)
    requires IsConfig(config) && |states| == ROWS == 16
    ensures EntryAccepted(config, Row(6), states[6]) <==> HasText(config, "countryCode", 2, 2)
    ensures EntryAccepted(config, Row(7), states[7]) <==> HasProtocol(config)
  {
    hide ProtocolOf, SpellsNone, SpellsWpa2;
    if "securityProtocol" in config && config["securityProtocol"].JString? {
      ProtocolIsSpelled(states[7], Some(config["securityProtocol"].text));
    }
  }

  lemma Addresses(config: Config, states: seq<Settings>)
    requires IsConfig(config) && |states| == ROWS == 16
    ensures EntryAccepted(config, Row(8), states[8]) <==> HasText(config, "ip_ap", 1, 15)
    ensures EntryAccepted(config, Row(9), states[9]) <==> HasText(config, "ip_start", 1, 15)
    ensures EntryAccepted(config, Row(10), states[10]) <==> HasText(config, "ip_stop", 1, 15)
    ensures EntryAccepted(config, Row(11), states[11]) <==> HasText(config, "ip_netmask", 1, 15)
  {
    hide ProtocolOf;
  }

  lemma FlagAndClients(config: Config, states: seq<Settings>)
    requires IsConfig(config) && |states| == ROWS == 16
    ensures (forall j | 12 <= j < 14 :: EntryAccepted(config, Row(j), states[j])) <==> HasFlagAndClients(config)
  {
    assert EntryAccepted(config, Row(12), states[12]) <==> "discoverable" in config && config["discoverable"].JBool?;
    assert EntryAccepted(config, Row(13), states[13]) <==>
      (HasUint(config, "maxNumberClient") && 1 <= config["maxNumberClient"].value <= 1000);
  }

  lemma MaskRow(config: Config, s: Settings)
    requires IsConfig(config)
    ensures EntryAccepted(config, Row(14), s) <==> HasMask(config)
  {
    hide MaskVerdict, LegalMask;
    if HasUint(config, "IeeeStdMask") {
      MaskAcceptedIff(MaskIn(config));
    }
  }

  lemma ChannelRow(config: Config, s: Settings)
    requires IsConfig(config) && LegalMask(s.stdMask)
    ensures EntryAccepted(config, Row(15), s) <==> HasChannelIn(config, ModeBounds(s.stdMask))
  {
    assert BoundsFor(s.stdMask, s.channelBounds) == ModeBounds(s.stdMask);
    hide BoundsFor, ModeBounds, LegalMask;
  }

  /** An accepted mask is in force when the channel, the next entry, is looked at. */
  lemma MaskBeforeChannel(config: Config)
    requires IsConfig(config) && EntryAccepted(config, Row(14), StateAt(config, 14))
    ensures HasUint(config, "IeeeStdMask") && StateAt(config, 15).stdMask == MaskIn(config)
  {
    assert Row(14) == Desc("IeeeStdMask", true, UintKind, IeeeStandard);
  }

  /** Acceptance of every entry, over any sequence of intermediate settings. */
  lemma RowsIffUsable(config: Config, states: seq<Settings>)
    requires IsConfig(config) && |states| == ROWS
    requires EntryAccepted(config, Row(14), states[14]) ==>
      HasUint(config, "IeeeStdMask") && states[15].stdMask == MaskIn(config)
    ensures (forall j | 0 <= j < ROWS :: EntryAccepted(config, Row(j), states[j])) <==> Usable(config)
  {
    hide EntryAccepted, Row, HasFirstTexts, HasLastTexts, HasFlagAndClients, HasChannelIn;
    FirstTexts(config, states);
    LastTexts(config, states);
    FlagAndClients(config, states);
    MaskRow(config, states[14]);
    if HasMask(config) {
      ChannelRow(config, states[15]);
    }
    ghost var all := forall j | 0 <= j < ROWS :: EntryAccepted(config, Row(j), states[j]);
    assert all <==> (
      && (forall j | 0 <= j < 6 :: EntryAccepted(config, Row(j), states[j]))
      && (forall j | 6 <= j < 12 :: EntryAccepted(config, Row(j), states[j]))
      && (forall j | 12 <= j < 14 :: EntryAccepted(config, Row(j), states[j]))
      && EntryAccepted(config, Row(14), states[14]) && EntryAccepted(config, Row(15), states[15]));
  }

  lemma NoErrorsIffUsable(config: Config)
    requires IsConfig(config)
    ensures ErrorsAt(config, ROWS) == 0 <==> Usable(config)
  {
    hide EntryAccepted, Row, Usable, ErrorsAt;
    NoErrorsIff(config, ROWS);
    var states := seq(ROWS, j requires 0 <= j < ROWS => StateAt(config, j));
    if EntryAccepted(config, Row(14), StateAt(config, 14)) {
      MaskBeforeChannel(config);
    }
    RowsIffUsable(config, states);
    assert forall j | 0 <= j < ROWS :: RowAccepted(config, j) <==> EntryAccepted(config, Row(j), states[j]);
  }

  // ----- the settings that result -----

  // The number of a row is a parameter k, because with a number in its place the verifier would compute the whole table.

  /** One table entry whose value is accepted. */
  lemma StepStores(config: Config, k: nat, d: Desc, call: Call)
    requires IsConfig(config) && k < ROWS && Row(k) == d
    requires d.key in config && EntryCall(d, config[d.key]) == Some(call)
    requires Callable(call) && Verdict(StateAt(config, k), call) == NO_ERROR
    ensures StateAt(config, k + 1) == Store(StateAt(config, k), call)
  {
  }

  lemma StepSkips(config: Config, k: nat)
    requires IsConfig(config) && k < ROWS && Row(k).key !in config
    ensures StateAt(config, k + 1) == StateAt(config, k)
  {
  }

  lemma StoredNames(config: Config, k: nat)
    requires IsConfig(config) && Usable(config) && k == 0
    ensures var c := Configured(config);
      StateAt(config, k + 4) ==
        BLANK.(interfaceName := c.interfaceName, domainName := c.domainName, hostName := c.hostName, ssid := c.ssid)
  {
    assert StateAt(config, 0) == BLANK;
    hide StateAt;
    var c := Configured(config);
    StepStores(config, k, Desc("interfaceName", true, TextKind, InterfaceName), SetInterfaceName(c.interfaceName));
    StepStores(config, k + 1, Desc("domaine_name", true, TextKind, DomainName), SetDomainName(c.domainName));
    StepStores(config, k + 2, Desc("hostname", true, TextKind, HostName), SetHostName(c.hostName));
    StepStores(config, k + 3, Desc("ssid", true, TextKind, Ssid), SetSsid(Some(c.ssid)));
  }

  lemma StoredSecrets(config: Config, k: nat)
    requires IsConfig(config) && Usable(config) && k == 4
    ensures var c := Configured(config);
      StateAt(config, k + 4) == StateAt(config, k).(
        passphrase := c.passphrase, countryCode := c.countryCode, securityProtocol := c.securityProtocol)
  {
    hide StateAt, ProtocolOf, SpellsNone, SpellsWpa2;
    var c := Configured(config);
    ProtocolIsSpelled(StateAt(config, k + 3), Some(config["securityProtocol"].text));
    StepStores(config, k, Desc("passphrase", true, TextKind, PassPhrase),
      SetPassPhrase(Some(config["passphrase"].text)));
    if "preSharedKey" in config {
      StepStores(config, k + 1, Desc("preSharedKey", false, TextKind, PassPhrase), SetPassPhrase(Some(c.passphrase)));
    } else {
      StepSkips(config, k + 1);
    }
    StepStores(config, k + 2, Desc("countryCode", true, TextKind, CountryCode), SetCountryCode(Some(c.countryCode)));
    StepStores(config, k + 3, Desc("securityProtocol", true, TextKind, SecurityProtocol),
      SetSecurityProtocol(Some(config["securityProtocol"].text)));
  }

  lemma StoredAddresses(config: Config, k: nat)
    requires IsConfig(config) && Usable(config) && k == 8
    ensures var c := Configured(config);
      StateAt(config, k + 4) == StateAt(config, k).(
        ipAp := c.ipAp, ipStart := c.ipStart, ipStop := c.ipStop, ipNetmask := c.ipNetmask)
  {
    hide StateAt;
    var c := Configured(config);
    StepStores(config, k, Desc("ip_ap", true, TextKind, IpAp), SetIpAp(Some(c.ipAp)));
    StepStores(config, k + 1, Desc("ip_start", true, TextKind, IpStart), SetIpStart(Some(c.ipStart)));
    StepStores(config, k + 2, Desc("ip_stop", true, TextKind, IpStop), SetIpStop(Some(c.ipStop)));
    StepStores(config, k + 3, Desc("ip_netmask", true, TextKind, IpNetMask), SetIpNetMask(Some(c.ipNetmask)));
  }

  lemma StoredFlagAndClients(config: Config, k: nat)
    requires IsConfig(config) && Usable(config) && k == 12
    ensures var c := Configured(config);
      StateAt(config, k + 2) ==
        StateAt(config, k).(discoverable := c.discoverable, maxNumberClient := c.maxNumberClient)
  {
    hide StateAt;
    var c := Configured(config);
    StepStores(config, k, Desc("discoverable", true, BoolKind, Discoverable), SetDiscoverable(c.discoverable));
    StepStores(config, k + 1, Desc("maxNumberClient", true, UintKind, MaxNumberClients),
      SetMaxNumberClients(c.maxNumberClient));
  }

  lemma StoredMask(config: Config, k: nat)
    requires IsConfig(config) && Usable(config) && k == 14
    ensures StateAt(config, k + 1) == StateAt(config, k).(stdMask := Configured(config).stdMask)
  {
    hide StateAt, MaskVerdict;
    MaskAcceptedIff(Configured(config).stdMask);
    StepStores(config, k, Desc("IeeeStdMask", true, UintKind, IeeeStandard),
      SetIeeeStandard(Configured(config).stdMask));
  }

  lemma StoredChannel(config: Config, k: nat)
    requires IsConfig(config) && Usable(config) && k == 15
    requires StateAt(config, k).stdMask == Configured(config).stdMask
    ensures var c := Configured(config);
      StateAt(config, k + 1) ==
        StateAt(config, k).(channelBounds := c.channelBounds, channelNumber := c.channelNumber)
  {
    hide StateAt;
    var c := Configured(config);
    assert BoundsFor(c.stdMask, StateAt(config, k).channelBounds) == c.channelBounds;
    hide BoundsFor;
    StepStores(config, k, Desc("channelNumber", true, UintKind, Channel), SetChannel(c.channelNumber));
  }

  /** The result of building the settings, given whether the client event could be created. */
  ghost function Create(config: Config, eventCreated: bool): Option<Settings>
    requires IsConfig(config)
  {
    if ErrorsAt(config, ROWS) == 0 && eventCreated then Some(StateAt(config, ROWS)) else None
  }

  lemma NoKeyIsConfigured(config: Config)
    requires Usable(config)
    ensures Configured(config).presharedKey == ""
  {
  }

  /** Settings are built exactly from the usable configurations, and are the ones described. */
  lemma CreatedIff(config: Config, eventCreated: bool)
    requires IsConfig(config)
    ensures Create(config, eventCreated).Some? <==> Usable(config) && eventCreated
    ensures Create(config, eventCreated).Some? ==> Create(config, eventCreated).value == Configured(config)
  {
    hide StateAt, ErrorsAt, Usable, Configured;
    NoErrorsIffUsable(config);
    if Usable(config) {
      NoKeyIsConfigured(config);
      StoredNames(config, 0);
      StoredSecrets(config, 4);
      StoredAddresses(config, 8);
      StoredFlagAndClients(config, 12);
      StoredMask(config, 14);
      StoredChannel(config, 15);
    }
  }

  /** Because the mask precedes the channel in the table, created settings start with a channel of their own mode. */
  lemma CreatedIsSound(config: Config)
    requires IsConfig(config) && Usable(config)
    ensures Sound(Configured(config))
    ensures Configured(config).channelBounds == ModeBounds(Configured(config).stdMask)
    ensures ChannelGuard(Configured(config))
  {
  }

  /** A configured "preSharedKey" never reaches the pre-shared key: it replaces the passphrase. */
  lemma ConfiguredKeyIsPassphrase(config: Config, eventCreated: bool)
    requires IsConfig(config) && Create(config, eventCreated).Some? && "preSharedKey" in config
    ensures var s := Create(config, eventCreated).value;
      s.presharedKey == "" && config["preSharedKey"] == JString(s.passphrase)
  {
    CreatedIff(config, eventCreated);
  }

  // ----- the loop -----

  method SetText(data: WifiApData, setter: Setter, text: string) returns (err: int)
    requires data.Valid() && NUL !in text && TextCall(setter, text).Some?
    modifies data, data.Buffers
    ensures data.Valid() && err == Verdict(old(data.Value()), TextCall(setter, text).value)
    ensures data.Value() == Apply(old(data.Value()), TextCall(setter, text).value)
    ensures data.nameBlock == old(data.nameBlock) + (if setter == InterfaceName && err == NO_ERROR then 1 else 0)
  {
    hide ProtocolOf, MaskVerdict, BoundsFor, WifiApData.Value;
    match setter
    case InterfaceName => err := data.SetInterfaceName(Some(text));
    case DomainName => err := data.SetDomainName(Some(text));
    case HostName => err := data.SetHostName(Some(text));
    case Ssid => err := data.SetSsid(Some(text));
    case PassPhrase => err := data.SetPassPhrase(Some(text));
    case CountryCode => err := data.SetCountryCode(Some(text));
    case SecurityProtocol => err := data.SetSecurityProtocol(Some(text));
    case IpAp => err := data.SetIpAp(Some(text));
    case IpStart => err := data.SetIpStart(Some(text));
    case IpStop => err := data.SetIpStop(Some(text));
    case IpNetMask => err := data.SetIpNetMask(Some(text));
  }

  method SetUint(data: WifiApData, setter: Setter, value: Uint32) returns (err: int)
    requires data.Valid() && UintCall(setter, value).Some?
    modifies data
    ensures data.Valid() && err == Verdict(old(data.Value()), UintCall(setter, value).value)
    ensures data.Value() == Apply(old(data.Value()), UintCall(setter, value).value)
    ensures data.nameBlock == old(data.nameBlock)
  {
    match setter
    case MaxNumberClients => err := data.SetMaxNumberClients(value);
    case IeeeStandard => err := data.SetIeeeStandard(value as bv32);
    case Channel => err := data.SetChannel(value);
  }

  /** Setters have the kind that the table gives them. */
  predicate WellKinded(d: Desc) {
    match d.kind
    case TextKind => TextCall(d.setter, "").Some?
    case BoolKind => d.setter == Discoverable
    case UintKind => UintCall(d.setter, 0).Some?
  }

  /** The body of the loop: one table entry. */
  method SetEntry(data: WifiApData, d: Desc, config: Config) returns (ok: bool)
    requires IsConfig(config) && WellKinded(d) && data.Valid()
    modifies data, data.Buffers
    ensures data.Valid() && ok == EntryAccepted(config, d, old(data.Value()))
    ensures data.Value() == Step(old(data.Value()), d, config)
    ensures data.nameBlock == old(data.nameBlock)
      + (if d.setter == InterfaceName && d.key in config && ok then 1 else 0)
    ensures ok && d.mandatory ==> d.key in config
  {
    hide LegalMask, MaskVerdict, BoundsFor, ProtocolOf, BufferVerdict, NameVerdict, WifiApData.Value;
    if d.key !in config {
      return !d.mandatory;
    }
    var v := config[d.key];
    var err := ERROR_INVALID;
    match d.kind {
      case TextKind =>
        if v.JString? {
          err := SetText(data, d.setter, v.text);
        }
      case BoolKind =>
        if v.JBool? {
          err := data.SetDiscoverable(v.flag);
        }
      case UintKind =>
        if v.JInt? {
          if v.value < 0 {
            err := ERROR_TOO_SMALL;
          } else if v.value > 0xFFFF_FFFF {
            err := ERROR_TOO_LARGE;
          } else {
            err := SetUint(data, d.setter, v.value);
          }
        }
    }
    return err == NO_ERROR;
  }

  lemma TableIsWellKinded(k: nat)
    requires k < ROWS
    ensures WellKinded(Row(k))
  {
  }

  lemma FirstRowIsInterfaceName(k: nat)
    requires k < ROWS
    ensures Row(k).setter == InterfaceName <==> k == 0
    ensures k == 0 ==> Row(k).mandatory
  {
  }

  method CreateWifiApData(config: Config, eventCreated: bool) returns (data: WifiApData?)
    requires IsConfig(config)
    ensures data != null <==> Usable(config) && eventCreated
    ensures data != null ==> fresh(data) && fresh(data.Buffers) && data.Valid() && data.Value() == Configured(config)
    ensures data != null ==> data.nameBlock == 1
  {
    hide EntryAccepted, Step, Row, Usable, Configured, WifiApData.Value, WifiApData.Valid;
    var made := new WifiApData();
    var errors := 0;
    for idx := 0 to ROWS
      invariant fresh(made) && fresh(made.Buffers) && made.Valid()
      invariant made.Value() == StateAt(config, idx) && errors == ErrorsAt(config, idx)
      invariant errors == 0 ==> made.nameBlock == if idx == 0 then 0 else 1
    {
      TableIsWellKinded(idx);
      FirstRowIsInterfaceName(idx);
      var ok := SetEntry(made, Row(idx), config);
      if !ok {
        errors := errors + 1;
      }
    }
    CreatedIff(config, eventCreated);
    data := if errors == 0 && eventCreated then made else null;
  }
}
