/** The settings record with its fixed-size buffers, and the setters that update it in place. */
module ApData {
  import opened CStrings
  import opened Utf8
  import opened ApSettings

  /** Copies src with its NUL into dest if its length is in range; dest is untouched otherwise. */
  method SetBuffer(dest: array<char>, src: Option<string>, minLength: nat, maxLength: nat) returns (err: int)
    requires IsCString(src) && maxLength < dest.Length
    modifies dest
    ensures err == BufferVerdict(src, minLength, maxLength)
    ensures err == NO_ERROR ==> Terminated(dest[..]) && Text(dest[..]) == src.value
    ensures err == NO_ERROR ==> dest[|src.value| + 1..] == old(dest[|src.value| + 1..])
    ensures err != NO_ERROR ==> dest[..] == old(dest[..])
  {
    if src.None? {
      return ERROR_INVALID;
    }
    var length := |src.value|;
    if length < minLength {
      return ERROR_TOO_SMALL;
    }
    if length > maxLength {
      return ERROR_TOO_LARGE;
    }
    forall k | 0 <= k <= length {
      dest[k] := At(src.value, k);
    }
    assert dest[..][..length] == src.value;
    TextIs(dest[..], src.value);
    return NO_ERROR;
  }

  /** Replaces a C string that was copied to a field; the field is untouched on error. */
  method StringCopy(current: Option<string>, src: Option<string>) returns (err: int, next: Option<string>)
    ensures err == NameVerdict(src)
    ensures next == if err == NO_ERROR then src else current
  {
    if src.None? {
      return ERROR_INVALID, current;
    }
    if src.value == "" {
      return ERROR_TOO_SMALL, current;
    }
    return NO_ERROR, src;
  }

  method ZeroedBuffer(size: nat) returns (buffer: array<char>)
    requires size > 0
    ensures fresh(buffer) && buffer.Length == size && Terminated(buffer[..]) && Text(buffer[..]) == ""
  {
    buffer := new char[size](_ => NUL);
    TextIs(buffer[..], "");
  }

  class WifiApData {
    var interfaceName: Option<string>
    /** Number of the copy that interfaceName points to. Each copy is a new one, and the one before it is released. */
    var nameBlock: nat
    var domainName: Option<string>
    var hostName: Option<string>
    var minChannel: Uint16
    var maxChannel: Uint16
    const ssid: array<char>
    const ipAp: array<char>
    const ipStart: array<char>
    const ipStop: array<char>
    const ipNetmask: array<char>
    const passphrase: array<char>
    const presharedKey: array<char>
    const countryCode: array<char>
    var discoverable: bool
    var stdMask: bv32
    var channelNumber: Uint16
    var maxNumberClient: Uint32
    var securityProtocol: int

    ghost const Buffers: set<object> :=
      {ssid, ipAp, ipStart, ipStop, ipNetmask, passphrase, presharedKey, countryCode}

    /** Eight separate buffers, each with a C string inside its capacity. */
    ghost predicate Valid()
      reads this, Buffers
    {
      && ssid.Length == MAX_SSID + 1 && passphrase.Length == MAX_PASSPHRASE + 1
      && presharedKey.Length == MAX_PSK + 1 && countryCode.Length == COUNTRY_CODE + 1
      && ipAp.Length == ipStart.Length == ipStop.Length == ipNetmask.Length == MAX_IP + 1
      && ipAp != ipStart && ipAp != ipStop && ipAp != ipNetmask
      && ipStart != ipStop && ipStart != ipNetmask && ipStop != ipNetmask
      && Terminated(ssid[..]) && Terminated(passphrase[..])
      && Terminated(presharedKey[..]) && Terminated(countryCode[..])
      && Terminated(ipAp[..]) && Terminated(ipStart[..]) && Terminated(ipStop[..]) && Terminated(ipNetmask[..])
    }

    ghost function Value(): Settings
      reads this, Buffers
      requires Valid()
    {
      Settings(interfaceName, domainName, hostName, Bounds(minChannel, maxChannel),
        Text(ssid[..]), Text(ipAp[..]), Text(ipStart[..]), Text(ipStop[..]), Text(ipNetmask[..]),
        Text(passphrase[..]), Text(presharedKey[..]), Text(countryCode[..]),
        discoverable, stdMask, channelNumber, maxNumberClient, securityProtocol)
    }

    lemma FieldsOfValue()
      requires Valid()
      ensures Value().stdMask == stdMask && Value().channelNumber == channelNumber
      ensures Value().channelBounds == Bounds(minChannel, maxChannel)
      ensures Value().ssid == "" <==> ssid[0] == NUL
    {
    }

    /** calloc: every byte zero. */
    constructor ()
      ensures Valid() && fresh(Buffers) && Value() == BLANK && nameBlock == 0
    {
      interfaceName, domainName, hostName, nameBlock := None, None, None, 0;
      minChannel, maxChannel := 0, 0;
      var ssid0 := ZeroedBuffer(MAX_SSID + 1);
      var ipAp0 := ZeroedBuffer(MAX_IP + 1);
      var ipStart0 := ZeroedBuffer(MAX_IP + 1);
      var ipStop0 := ZeroedBuffer(MAX_IP + 1);
      var ipNetmask0 := ZeroedBuffer(MAX_IP + 1);
      var passphrase0 := ZeroedBuffer(MAX_PASSPHRASE + 1);
      var presharedKey0 := ZeroedBuffer(MAX_PSK + 1);
      var countryCode0 := ZeroedBuffer(COUNTRY_CODE + 1);
      ssid, ipAp, ipStart, ipStop, ipNetmask := ssid0, ipAp0, ipStart0, ipStop0, ipNetmask0;
      passphrase, presharedKey, countryCode := passphrase0, presharedKey0, countryCode0;
      discoverable, stdMask, channelNumber, maxNumberClient, securityProtocol := false, 0, 0, 0, SECURITY_NONE;
    }

    method SetInterfaceName(name: Option<string>) returns (err: int)
      requires Valid() && IsCString(name)
      modifies this`interfaceName, this`nameBlock
      ensures Valid() && err == Verdict(old(Value()), Call.SetInterfaceName(name))
      ensures Value() == Apply(old(Value()), Call.SetInterfaceName(name))
      ensures nameBlock == if err == NO_ERROR then old(nameBlock) + 1 else old(nameBlock)
    {
      err, interfaceName := StringCopy(interfaceName, name);
      if err == NO_ERROR {
        nameBlock := nameBlock + 1;
      }
    }

    method SetDomainName(name: Option<string>) returns (err: int)
      requires Valid() && IsCString(name)
      modifies this`domainName
      ensures Valid() && err == Verdict(old(Value()), Call.SetDomainName(name))
      ensures Value() == Apply(old(Value()), Call.SetDomainName(name))
    {
      err, domainName := StringCopy(domainName, name);
    }

    method SetHostName(name: Option<string>) returns (err: int)
      requires Valid() && IsCString(name)
      modifies this`hostName
      ensures Valid() && err == Verdict(old(Value()), Call.SetHostName(name))
      ensures Value() == Apply(old(Value()), Call.SetHostName(name))
    {
      err, hostName := StringCopy(hostName, name);
    }

    method SetSsid(text: Option<string>) returns (err: int)
      requires Valid() && IsCString(text)
      modifies ssid
      ensures Valid() && err == Verdict(old(Value()), Call.SetSsid(text))
      ensures Value() == Apply(old(Value()), Call.SetSsid(text))
    {
      hide Complete, Kept, ProtocolOf, BoundsFor, MaskVerdict, Text, Terminated;
      err := SetBuffer(ssid, text, 1, MAX_SSID);
    }

    method SetPassPhrase(text: Option<string>) returns (err: int)
      requires Valid() && IsCString(text)
      modifies passphrase
      ensures Valid() && err == Verdict(old(Value()), Call.SetPassPhrase(text))
      ensures Value() == Apply(old(Value()), Call.SetPassPhrase(text))
    {
      hide Complete, Kept, ProtocolOf, BoundsFor, MaskVerdict, Text, Terminated;
      err := SetBuffer(passphrase, text, MIN_PASSPHRASE, MAX_PASSPHRASE);
    }

    method SetPreSharedKey(key: string) returns (err: int)
      requires Valid() && IsUtf8Source(key)
      modifies presharedKey
      ensures Valid() && err == Verdict(old(Value()), Call.SetPreSharedKey(key))
      ensures Value() == Apply(old(Value()), Call.SetPreSharedKey(key))
    {
      hide Complete, Kept, ProtocolOf, BoundsFor, MaskVerdict, Text, Terminated;
      if |key| > MAX_PSK {
        return ERROR_TOO_LARGE;
      }
      StoreUtf8(presharedKey, key);
      return NO_ERROR;
    }

    method SetCountryCode(text: Option<string>) returns (err: int)
      requires Valid() && IsCString(text)
      modifies countryCode
      ensures Valid() && err == Verdict(old(Value()), Call.SetCountryCode(text))
      ensures Value() == Apply(old(Value()), Call.SetCountryCode(text))
    {
      hide Complete, Kept, ProtocolOf, BoundsFor, MaskVerdict, Text, Terminated;
      err := SetBuffer(countryCode, text, COUNTRY_CODE, COUNTRY_CODE);
    }

    method SetSecurityProtocol(text: Option<string>) returns (err: int)
      requires Valid() && IsCString(text)
      modifies this`securityProtocol
      ensures Valid() && err == Verdict(old(Value()), Call.SetSecurityProtocol(text))
      ensures Value() == Apply(old(Value()), Call.SetSecurityProtocol(text))
    {
      if text.None? {
        return ERROR_INVALID;
      }
      if EqualIgnoringCase(text.value, "none") {
        securityProtocol := SECURITY_NONE;
      } else if EqualIgnoringCase(text.value, "WPA2") {
        securityProtocol := SECURITY_WPA2;
      } else {
        return ERROR_INVALID;
      }
      return NO_ERROR;
    }

    method SetIpAp(text: Option<string>) returns (err: int)
      requires Valid() && IsCString(text)
      modifies ipAp
      ensures Valid() && err == Verdict(old(Value()), Call.SetIpAp(text))
      ensures Value() == Apply(old(Value()), Call.SetIpAp(text))
    {
      hide Complete, Kept, ProtocolOf, BoundsFor, MaskVerdict, Text, Terminated;
      err := SetBuffer(ipAp, text, 1, MAX_IP);
    }

    method SetIpStart(text: Option<string>) returns (err: int)
      requires Valid() && IsCString(text)
      modifies ipStart
      ensures Valid() && err == Verdict(old(Value()), Call.SetIpStart(text))
      ensures Value() == Apply(old(Value()), Call.SetIpStart(text))
    {
      hide Complete, Kept, ProtocolOf, BoundsFor, MaskVerdict, Text, Terminated;
      err := SetBuffer(ipStart, text, 1, MAX_IP);
    }

    method SetIpStop(text: Option<string>) returns (err: int)
      requires Valid() && IsCString(text)
      modifies ipStop
      ensures Valid() && err == Verdict(old(Value()), Call.SetIpStop(text))
      ensures Value() == Apply(old(Value()), Call.SetIpStop(text))
    {
      hide Complete, Kept, ProtocolOf, BoundsFor, MaskVerdict, Text, Terminated;
      err := SetBuffer(ipStop, text, 1, MAX_IP);
    }

    method SetIpNetMask(text: Option<string>) returns (err: int)
      requires Valid() && IsCString(text)
      modifies ipNetmask
      ensures Valid() && err == Verdict(old(Value()), Call.SetIpNetMask(text))
      ensures Value() == Apply(old(Value()), Call.SetIpNetMask(text))
    {
      hide Complete, Kept, ProtocolOf, BoundsFor, MaskVerdict, Text, Terminated;
      err := SetBuffer(ipNetmask, text, 1, MAX_IP);
    }

    method SetIpRange(ap: string, start: string, stop: string, netmask: string) returns (err: int)
      requires Valid() && Callable(Call.SetIpRange(ap, start, stop, netmask))
      modifies ipAp, ipStart, ipStop, ipNetmask
      ensures Valid() && err == Verdict(old(Value()), Call.SetIpRange(ap, start, stop, netmask))
      ensures Value() == Apply(old(Value()), Call.SetIpRange(ap, start, stop, netmask))
    {
      hide Complete, Kept, ProtocolOf, BoundsFor, MaskVerdict, Text, Terminated;
      if |ap| < 1 || |start| < 1 || |stop| < 1 || |netmask| < 1 {
        return ERROR_TOO_SMALL;
      }
      if |ap| > MAX_IP || |start| > MAX_IP || |stop| > MAX_IP || |netmask| > MAX_IP {
        return ERROR_TOO_LARGE;
      }
      ghost var v := Value();
      StoreUtf8(ipAp, ap);
      StoreUtf8(ipStart, start);
      assert Valid() && Value() == v.(ipAp := Kept(ap, MAX_IP + 1), ipStart := Kept(start, MAX_IP + 1));
      StoreUtf8(ipStop, stop);
      StoreUtf8(ipNetmask, netmask);
      return NO_ERROR;
    }

    method SetDiscoverable(flag: bool) returns (err: int)
      requires Valid()
      modifies this`discoverable
      ensures Valid() && err == Verdict(old(Value()), Call.SetDiscoverable(flag))
      ensures Value() == Apply(old(Value()), Call.SetDiscoverable(flag))
    {
      discoverable := flag;
      return NO_ERROR;
    }

    method SetMaxNumberClients(clients: Uint32) returns (err: int)
      requires Valid()
      modifies this`maxNumberClient
      ensures Valid() && err == Verdict(old(Value()), Call.SetMaxNumberClients(clients))
      ensures Value() == Apply(old(Value()), Call.SetMaxNumberClients(clients))
    {
      if clients < 1 {
        return ERROR_TOO_SMALL;
      }
      if clients > MAX_USERS {
        return ERROR_TOO_LARGE;
      }
      maxNumberClient := clients;
      return NO_ERROR;
    }

    method SetIeeeStandard(mask: bv32) returns (err: int)
      requires Valid()
      modifies this`stdMask
      ensures Valid() && err == Verdict(old(Value()), Call.SetIeeeStandard(mask))
      ensures Value() == Apply(old(Value()), Call.SetIeeeStandard(mask))
    {
      err := CheckMask(mask);
      if err == NO_ERROR {
        stdMask := mask;
      }
    }

    static method CheckMask(mask: bv32) returns (err: int)
      ensures err == MaskVerdict(mask)
    {
      var check := mask & (STD_A | STD_B | STD_G | STD_AD);
      if check == 0 {
        return ERROR_NO_HARD;
      }
      if check & (check - 1) != 0 {
        return ERROR_MANY_HARD;
      }
      if mask & STD_AC != 0 && mask & STD_A == 0 {
        return ERROR_STD_AC;
      }
      if mask & STD_H != 0 && mask & STD_D == 0 {
        return ERROR_STD_H;
      }
      return NO_ERROR;
    }

    method SetChannel(channel: Uint32) returns (err: int)
      requires Valid()
      modifies this`minChannel, this`maxChannel, this`channelNumber
      ensures Valid() && err == Verdict(old(Value()), Call.SetChannel(channel))
      ensures Value() == Apply(old(Value()), Call.SetChannel(channel))
    {
      hide BoundsFor, Text, Terminated, Kept, ProtocolOf;
      SelectBounds();
      if channel < minChannel {
        return ERROR_TOO_SMALL;
      }
      if channel > maxChannel {
        return ERROR_TOO_LARGE;
      }
      channelNumber := channel;
      return NO_ERROR;
    }

    /** The switch on the hardware mode: an unknown mode keeps the stored bounds. */
    method SelectBounds()
      modifies this`minChannel, this`maxChannel
      ensures Bounds(minChannel, maxChannel) == BoundsFor(stdMask, old(Bounds(minChannel, maxChannel)))
    {
      var hwMode := stdMask & HARDWARE;
      if hwMode == STD_A {
        minChannel, maxChannel := 7, 196;
      } else if hwMode == STD_B || hwMode == STD_G {
        minChannel, maxChannel := 1, 14;
      } else if hwMode == STD_AD {
        minChannel, maxChannel := 1, 6;
      }
    }
  }

  /** A copy that fills a whole buffer as a C string. */
  method StoreUtf8(dest: array<char>, src: string)
    requires IsUtf8Source(src) && dest.Length > 0
    modifies dest
    ensures Terminated(dest[..]) && Text(dest[..]) == Kept(src, dest.Length)
  {
    var _, n := Copy(dest, 0, src, dest.Length);
    assert dest[..][..n] == dest[0..0 + n];
    TextIs(dest[..], Kept(src, dest.Length));
  }
}
