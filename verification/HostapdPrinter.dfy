/** Printing the hostapd configuration through one bounded buffer that is cleared and refilled in place. */
module HostapdPrinter {
  import opened CStrings
  import opened Utf8
  import opened ApSettings
  import opened ApData
  import opened TmpFiles
  import opened Hostapd

  const TEMP_STRING := 1024

  /** What goes well when the file is written: opening it, and each of its three sections. */
  datatype HostapdIo = HostapdIo(opens: bool, common: bool, security: bool, standard: bool) {
    predicate Works() {
      opens && common && security && standard
    }
  }

  // ----- nothing is truncated -----

  lemma {:induction false} ConcatLength(lines: seq<string>, longest: nat)
    requires forall i | 0 <= i < |lines| :: |lines[i]| <= longest
    ensures |Concat(lines)| <= longest * |lines|
  {
    if lines != [] {
      ConcatLength(lines[1..], longest);
    }
  }

  /** Every section fits the buffer, whatever the settings: it is enough that each string is inside its own buffer. */
  predicate InCapacity(s: Settings) {
    && |s.ssid| <= MAX_SSID && |s.countryCode| <= COUNTRY_CODE
    && |s.passphrase| <= MAX_PASSPHRASE && |s.presharedKey| <= MAX_PSK
  }

  lemma NumbersFit(s: Settings)
    ensures |NatText(s.channelNumber)| <= 5 && |SignedText(s.maxNumberClient)| <= 11
  {
    assert s.channelNumber < Power10(5) && s.maxNumberClient < Power10(10) && 0x8000_0000 < Power10(10);
    NatTextLength(s.channelNumber, 5);
    NatTextLength(s.maxNumberClient, 10);
    if s.maxNumberClient >= 0x8000_0000 {
      NatTextLength(0x1_0000_0000 - s.maxNumberClient, 10);
    }
  }

  lemma CommonFits(s: Settings)
    requires InCapacity(s)
    ensures |Concat(CommonLines(s))| < TEMP_STRING
  {
    NumbersFit(s);
    hide NatText, SignedText;
    ConcatLength(COMMON, 40);
    ConcatLength(SettingLines(s), 40);
    hide Concat;
    ConcatOfTwo(COMMON, SettingLines(s));
  }

  lemma SecurityFits(s: Settings)
    requires InCapacity(s) && SecurityLines(s).Some?
    ensures |Concat(SecurityLines(s).value)| < TEMP_STRING
  {
    ConcatLength(SecurityLines(s).value, 80);
  }

  lemma StandardFits(mask: bv32)
    ensures |Concat(StandardLines(mask))| < TEMP_STRING
  {
    assert |HardwareName(mask)| <= 2;
    hide HardwareName;
    ConcatLength(StandardLines(mask), 30);
  }

  /** In every reachable state nothing is truncated, and neither error branch nor the default hw_mode is taken. */
  lemma SoundIsPrintedWhole(s: Settings)
    requires Sound(s)
    ensures |Concat(CommonLines(s))| < TEMP_STRING && |Concat(StandardLines(s.stdMask))| < TEMP_STRING
    ensures SecurityLines(s) ==
      Some(if s.securityProtocol == SECURITY_NONE then OPEN else WPA2 + ["wpa_passphrase=" + s.passphrase + "\n"])
    ensures |Concat(SecurityLines(s).value)| < TEMP_STRING
    ensures ReadHardware(Some(HardwareName(s.stdMask))) == s.stdMask & HARDWARE
  {
    assert SecurityLines(s).Some?;
    hide Concat;
    CommonFits(s);
    SecurityFits(s);
    StandardFits(s.stdMask);
    MaskIsRead(s);
  }

  // ----- the text of the common section, as one format prints it -----

  function CommonFormat(ssid: string, channel: Uint16, clients: Uint32, countryCode: string, discoverable: bool): string {
    Concat(COMMON) + ("ssid=" + ssid + "\n") + ("channel=" + NatText(channel) + "\n")
    + ("max_num_sta=" + SignedText(clients) + "\n") + ("country_code=" + countryCode + "\n")
    + ("ignore_broadcast_ssid=" + (if discoverable then "0" else "1") + "\n")
  }

  lemma ConcatOfFive(base: string, a: string, b: string, c: string, d: string, e: string)
    ensures base + Concat([a, b, c, d, e]) == base + a + b + c + d + e
  {
    assert Concat([a, b, c, d, e]) == a + Concat([b, c, d, e]);
    assert Concat([b, c, d, e]) == b + Concat([c, d, e]);
    assert Concat([c, d, e]) == c + Concat([d, e]);
    assert Concat([d, e]) == d + Concat([e]) && Concat([e]) == e + Concat([]) == e;
    hide Concat;
    assert base + (a + (b + (c + (d + e)))) == base + a + b + c + d + e;
  }

  lemma CommonFormatIsLines(s: Settings)
    ensures CommonFormat(s.ssid, s.channelNumber, s.maxNumberClient, s.countryCode, s.discoverable)
      == Concat(CommonLines(s))
  {
    ConcatOfTwo(COMMON, SettingLines(s));
    hide Concat, NatText, SignedText;
    var l := SettingLines(s);
    ConcatOfFive(Concat(COMMON), l[0], l[1], l[2], l[3], l[4]);
    assert l == [l[0], l[1], l[2], l[3], l[4]];
  }

  lemma {:induction false} ConcatHasNoNul(lines: seq<string>)
    requires forall i | 0 <= i < |lines| :: Lacks(lines[i], NUL)
    ensures Lacks(Concat(lines), NUL)
  {
    if lines != [] {
      ConcatHasNoNul(lines[1..]);
    }
  }

  lemma CommonConstantHasNoNul()
    ensures Lacks(Concat(COMMON), NUL)
  {
    ConcatHasNoNul(COMMON);
    hide Concat;
  }

  lemma Wpa2ConstantHasNoNul()
    ensures Lacks(Concat(WPA2), NUL)
  {
    ConcatHasNoNul(WPA2);
    hide Concat;
  }

  lemma DigitsHaveNoNul(n: nat)
    ensures Lacks(NatText(n), NUL)
  {
    assert forall i | 0 <= i < |NatText(n)| :: IsDigit(NatText(n)[i]);
  }

  lemma SettingLinesHaveNoNul(s: Settings)
    requires NUL !in s.ssid && NUL !in s.countryCode
    ensures forall i | 0 <= i < |SettingLines(s)| :: Lacks(SettingLines(s)[i], NUL)
  {
    DigitsHaveNoNul(s.channelNumber);
    var n: nat := s.maxNumberClient;
    DigitsHaveNoNul(if n < 0x8000_0000 then n else 0x1_0000_0000 - n);
    assert Lacks(SignedText(s.maxNumberClient), NUL);
    hide NatText, SignedText;
    var l := SettingLines(s);
    assert Lacks(l[0], NUL) && Lacks(l[1], NUL) && Lacks(l[2], NUL) && Lacks(l[3], NUL) && Lacks(l[4], NUL);
    hide Lacks;
  }

  lemma CommonHasNoNul(s: Settings)
    requires NUL !in s.ssid && NUL !in s.countryCode
    ensures Lacks(Concat(CommonLines(s)), NUL)
  {
    CommonConstantHasNoNul();
    SettingLinesHaveNoNul(s);
    hide Concat, SettingLines;
    ConcatHasNoNul(SettingLines(s));
    ConcatOfTwo(COMMON, SettingLines(s));
  }

  /** What the printer of the common section relies on. */
  lemma PrintableCommon(s: Settings)
    requires InCapacity(s) && NUL !in s.ssid && NUL !in s.countryCode
    ensures CommonFormat(s.ssid, s.channelNumber, s.maxNumberClient, s.countryCode, s.discoverable)
      == Concat(CommonLines(s))
    ensures 0 < |Concat(CommonLines(s))| < TEMP_STRING && Lacks(Concat(CommonLines(s)), NUL)
  {
    CommonFits(s);
    CommonFormatIsLines(s);
    CommonHasNoNul(s);
    assert CommonLines(s)[0] == COMMON[0];
    hide CommonFormat, Lacks;
  }

  // ----- the buffer -----

  /** The C string in a whole buffer. */
  method ReadString(buffer: array<char>) returns (text: string)
    requires Terminated(buffer[..])
    ensures text == Text(buffer[..])
  {
    assert buffer[..buffer.Length] == buffer[..];
    var n := StrLen(buffer, buffer.Length);
    text := buffer[..n];
  }

  /** memset with zero. */
  method Clear(buffer: array<char>)
    requires buffer.Length > 0
    modifies buffer
    ensures Terminated(buffer[..]) && Text(buffer[..]) == ""
  {
    forall k | 0 <= k < buffer.Length {
      buffer[k] := NUL;
    }
    TextIs(buffer[..], "");
  }

  /** snprintf of a formatted text: what does not fit is cut off at the byte. */
  method Snprintf(buffer: array<char>, text: string)
    requires buffer.Length > 0 && Lacks(text, NUL)
    modifies buffer
    ensures Terminated(buffer[..])
    ensures Text(buffer[..]) == if |text| < buffer.Length then text else text[..buffer.Length - 1]
  {
    var n := if |text| < buffer.Length then |text| else buffer.Length - 1;
    forall k | 0 <= k < n {
      buffer[k] := text[k];
    }
    buffer[n] := NUL;
    assert buffer[..][..n] == text[..n];
    TextIs(buffer[..], text[..n]);
  }

  /** Writes a text to the open hostapd file; an incomplete write leaves some part of it. */
  method WriteConfig(tmp: TmpDir, text: string, complete: bool) returns (err: int)
    requires HostapdConf in tmp.files
    modifies tmp
    ensures err == if text == "" || complete then 0 else -1
    ensures err == 0 ==> tmp.files == old(tmp.files)[HostapdConf := old(tmp.files)[HostapdConf] + text]
    ensures HostapdConf in tmp.files && tmp.files - {HostapdConf} == old(tmp.files) - {HostapdConf}
  {
    if |text| > 0 {
      var written: nat :| written <= |text| && (complete <==> written == |text|);
      tmp.Write(HostapdConf, text[..written]);
      if written != |text| {
        return -1;
      }
      assert text[..written] == text;
    } else {
      assert tmp.files[HostapdConf] + text == tmp.files[HostapdConf];
    }
    return 0;
  }

  predicate IsAscii(text: string) {
    forall i | 0 <= i < |text| :: 0 < text[i] as int < 0x80
  }

  lemma {:induction false} AsciiIsClean(text: string, i: nat)
    requires IsAscii(text) && i <= |text|
    ensures Clean(text, i) && Complete(text, i)
    decreases |text| - i
  {
    if i < |text| {
      AsciiIsClean(text, i + 1);
    }
  }

  /** Appends a line to the buffer if a bit of the mask is set. */
  method AppendIf(buffer: array<char>, mask: bv32, bit: bv32, line: string)
    requires buffer.Length == TEMP_STRING && Terminated(buffer[..]) && IsAscii(line)
    requires |Text(buffer[..])| + |line| < TEMP_STRING
    modifies buffer
    ensures Terminated(buffer[..])
    ensures Text(buffer[..]) == old(Text(buffer[..])) + Concat(FlagLines(mask, bit, line))
  {
    if mask & bit != 0 {
      AppendWhole(buffer, line);
      assert Concat([line]) == line + Concat([]) == line;
    }
  }

  method AppendWhole(buffer: array<char>, line: string)
    requires buffer.Length == TEMP_STRING && Terminated(buffer[..]) && IsAscii(line)
    requires |Text(buffer[..])| + |line| < TEMP_STRING
    modifies buffer
    ensures Terminated(buffer[..]) && Text(buffer[..]) == old(Text(buffer[..])) + line
  {
    assert buffer[..TEMP_STRING] == buffer[..];
    AsciiIsClean(line, 0);
    WholeIff(line, TEMP_STRING - |Text(buffer[..])|);
    hide Clean, Complete, CharWalk, Kept, CopyStatus, IsAscii, Text;
    var _, _ := Append(buffer, line, TEMP_STRING);
    assert buffer[..TEMP_STRING] == buffer[..];
  }

  /** The third section, put together in the buffer by one copy and up to six appends. */
  method PrintStandard(buffer: array<char>, mask: bv32)
    requires buffer.Length == TEMP_STRING
    modifies buffer
    ensures Terminated(buffer[..]) && Text(buffer[..]) == Concat(StandardLines(mask)) && Text(buffer[..]) != ""
  {
    hide HardwareName, FlagLines, Concat;
    CopyHardware(buffer, mask);
    ghost var lines := ["hw_mode=" + HardwareName(mask) + "\n"];
    ConcatOfOne(lines[0]);
    HardwareNameFits(mask);
    AppendAllFlags(buffer, mask, lines);
    StandardIsNotEmpty(mask);
  }

  lemma ConcatOfOne(line: string)
    ensures Concat([line]) == line
  {
    assert Concat([line]) == line + Concat([]) == line;
  }

  lemma HardwareNameFits(mask: bv32)
    ensures |HardwareName(mask)| <= 2
  {
  }

  lemma StandardIsNotEmpty(mask: bv32)
    ensures Concat(StandardLines(mask)) != ""
  {
    hide HardwareName, FlagLines;
    assert StandardLines(mask)[0] == "hw_mode=" + HardwareName(mask) + "\n";
  }

  /** The switch on the hardware mode. */
  method CopyHardware(buffer: array<char>, mask: bv32)
    requires buffer.Length == TEMP_STRING
    modifies buffer
    ensures Terminated(buffer[..]) && Text(buffer[..]) == "hw_mode=" + HardwareName(mask) + "\n"
  {
    var hwMode := mask & HARDWARE;
    if hwMode == STD_A {
      CopyLine(buffer, "hw_mode=a\n");
    } else if hwMode == STD_B {
      CopyLine(buffer, "hw_mode=b\n");
    } else if hwMode == STD_G {
      CopyLine(buffer, "hw_mode=g\n");
    } else if hwMode == STD_AD {
      CopyLine(buffer, "hw_mode=ad\n");
    } else {
      CopyLine(buffer, "hw_mode=g\n");
    }
  }

  method CopyLine(buffer: array<char>, line: string)
    requires buffer.Length == TEMP_STRING && IsAscii(line) && |line| < TEMP_STRING
    modifies buffer
    ensures Terminated(buffer[..]) && Text(buffer[..]) == line
  {
    AsciiIsClean(line, 0);
    WholeIff(line, TEMP_STRING);
    var _, n := Copy(buffer, 0, line, TEMP_STRING);
    assert buffer[..][..n] == buffer[0..0 + n];
    TextIs(buffer[..], line);
  }

  method AppendFlag(buffer: array<char>, mask: bv32, bit: bv32, line: string, ghost lines: seq<string>)
    requires buffer.Length == TEMP_STRING && Terminated(buffer[..]) && IsAscii(line) && |line| < 20
    requires Text(buffer[..]) == Concat(lines) && |Concat(lines)| < 500
    modifies buffer
    ensures Terminated(buffer[..]) && Text(buffer[..]) == Concat(lines + FlagLines(mask, bit, line))
    ensures |Concat(lines + FlagLines(mask, bit, line))| < |Concat(lines)| + 20
  {
    AppendIf(buffer, mask, bit, line);
    ConcatOfTwo(lines, FlagLines(mask, bit, line));
  }

  method AppendAllFlags(buffer: array<char>, mask: bv32, ghost lines: seq<string>)
    requires buffer.Length == TEMP_STRING && Terminated(buffer[..])
    requires Text(buffer[..]) == Concat(lines) && |Concat(lines)| < 100
    modifies buffer
    ensures Terminated(buffer[..])
    ensures Text(buffer[..]) == Concat(lines
      + FlagLines(mask, STD_D, "ieee80211d=1\n") + FlagLines(mask, STD_H, "ieee80211h=1\n")
      + FlagLines(mask, STD_N, "ieee80211n=1\n") + FlagLines(mask, STD_AC, "ieee80211ac=1\n")
      + FlagLines(mask, STD_AX, "ieee80211ax=1\n") + FlagLines(mask, STD_W, "ieee80211w=1\n"))
  {
    hide Concat, FlagLines;
    AppendFlag(buffer, mask, STD_D, "ieee80211d=1\n", lines);
    ghost var l := lines + FlagLines(mask, STD_D, "ieee80211d=1\n");
    AppendFlag(buffer, mask, STD_H, "ieee80211h=1\n", l);
    l := l + FlagLines(mask, STD_H, "ieee80211h=1\n");
    AppendFlag(buffer, mask, STD_N, "ieee80211n=1\n", l);
    l := l + FlagLines(mask, STD_N, "ieee80211n=1\n");
    AppendFlag(buffer, mask, STD_AC, "ieee80211ac=1\n", l);
    l := l + FlagLines(mask, STD_AC, "ieee80211ac=1\n");
    AppendFlag(buffer, mask, STD_AX, "ieee80211ax=1\n", l);
    l := l + FlagLines(mask, STD_AX, "ieee80211ax=1\n");
    AppendFlag(buffer, mask, STD_W, "ieee80211w=1\n", l);
  }

  /**
   * Writes /tmp/hostapd.conf. On any error but a failed open the file is removed again; settings without a
   * credential under WPA2, or with an unknown protocol, are such an error.
   */
  method GenerateHostApConfFile(data: WifiApData, tmp: TmpDir, io: HostapdIo) returns (result: int)
    requires data.Valid()
    modifies tmp
    ensures result == if io.Works() && HostapdText(data.Value()).Some? then 0 else -1
    ensures tmp.files ==
      if !io.opens then old(tmp.files)
      else if result == 0 then old(tmp.files)[HostapdConf := HostapdText(data.Value()).value]
      else old(tmp.files) - {HostapdConf}
  {
    tmp.Open(HostapdConf, io.opens);
    if !io.opens {
      return -1;
    }
    var tmpConfig := new char[TEMP_STRING];
    result := PrintSections(data, tmp, tmpConfig, io);
    if result != 0 {
      tmp.Remove(HostapdConf);
    }
  }

  /** The sections in turn, stopping at the first that fails. */
  method PrintSections(data: WifiApData, tmp: TmpDir, tmpConfig: array<char>, io: HostapdIo) returns (result: int)
    requires data.Valid() && tmpConfig.Length == TEMP_STRING && tmpConfig !in data.Buffers
    requires HostapdConf in tmp.files && tmp.files[HostapdConf] == "" && io.opens
    modifies tmp, tmpConfig
    ensures result == if io.Works() && HostapdText(data.Value()).Some? then 0 else -1
    ensures result == 0 ==> tmp.files == old(tmp.files)[HostapdConf := HostapdText(data.Value()).value]
    ensures tmp.files - {HostapdConf} == old(tmp.files) - {HostapdConf}
  {
    hide Concat, CommonLines, SecurityLines, StandardLines, Text, WifiApData.Value;
    ghost var s := data.Value();
    data.FieldsOfValue();
    Clear(tmpConfig);
    PrintCommon(data, tmpConfig);
    result := WriteBuffer(tmp, tmpConfig, io.common);
    if result != 0 {
      return -1;
    }
    assert tmp.files[HostapdConf] == Concat(CommonLines(s));
    Clear(tmpConfig);
    result := WriteSecurity(data, tmp, tmpConfig, io.security);
    if result != 0 {
      return -1;
    }
    assert tmp.files[HostapdConf] == Concat(CommonLines(s)) + Concat(SecurityLines(s).value);
    Clear(tmpConfig);
    PrintStandard(tmpConfig, data.stdMask);
    result := WriteBuffer(tmp, tmpConfig, io.standard);
  }

  method PrintCommon(data: WifiApData, buffer: array<char>)
    requires data.Valid() && buffer.Length == TEMP_STRING && buffer !in data.Buffers
    modifies buffer
    ensures Terminated(buffer[..]) && Text(buffer[..]) == Concat(CommonLines(old(data.Value()))) && Text(buffer[..]) != ""
  {
    PrintableCommon(data.Value());
    hide Concat, CommonLines, CommonFormat, Lacks, Text;
    var ssid := ReadString(data.ssid);
    var countryCode := ReadString(data.countryCode);
    var text := CommonFormat(ssid, data.channelNumber, data.maxNumberClient, countryCode, data.discoverable);
    Snprintf(buffer, text);
  }

  /** Writes the C string in the buffer to the hostapd file. */
  method WriteBuffer(tmp: TmpDir, buffer: array<char>, complete: bool) returns (err: int)
    requires HostapdConf in tmp.files && Terminated(buffer[..]) && Text(buffer[..]) != ""
    modifies tmp
    ensures err == if complete then 0 else -1
    ensures err == 0 ==>
              tmp.files == old(tmp.files)[HostapdConf := old(tmp.files)[HostapdConf] + Text(buffer[..])]
    ensures HostapdConf in tmp.files && tmp.files - {HostapdConf} == old(tmp.files) - {HostapdConf}
  {
    var text := ReadString(buffer);
    err := WriteConfig(tmp, text, complete);
  }

  method WriteSecurity(data: WifiApData, tmp: TmpDir, buffer: array<char>, complete: bool) returns (err: int)
    requires data.Valid() && buffer.Length == TEMP_STRING && buffer !in data.Buffers && HostapdConf in tmp.files
    modifies tmp, buffer
    ensures err == if complete && SecurityLines(data.Value()).Some? then 0 else -1
    ensures err == 0 ==>
              tmp.files == old(tmp.files)[
                HostapdConf := old(tmp.files)[HostapdConf] + Concat(SecurityLines(data.Value()).value)]
    ensures HostapdConf in tmp.files && tmp.files - {HostapdConf} == old(tmp.files) - {HostapdConf}
  {
    if data.securityProtocol == SECURITY_NONE {
      err := WriteConfig(tmp, Concat(OPEN), complete);
    } else if data.securityProtocol == SECURITY_WPA2 {
      var passphrase := ReadString(data.passphrase);
      var presharedKey := ReadString(data.presharedKey);
      if passphrase != "" {
        err := WriteCredential(tmp, buffer, "wpa_passphrase=" + passphrase + "\n", complete);
      } else if presharedKey != "" {
        err := WriteCredential(tmp, buffer, "wpa_psk=" + presharedKey + "\n", complete);
      } else {
        err := -1;
      }
    } else {
      err := -1;
    }
  }

  method WriteCredential(tmp: TmpDir, buffer: array<char>, line: string, complete: bool) returns (err: int)
    requires buffer.Length == TEMP_STRING && HostapdConf in tmp.files && Lacks(line, NUL) && |line| < 100
    modifies tmp, buffer
    ensures err == if complete then 0 else -1
    ensures err == 0 ==>
              tmp.files == old(tmp.files)[HostapdConf := old(tmp.files)[HostapdConf] + Concat(WPA2 + [line])]
    ensures HostapdConf in tmp.files && tmp.files - {HostapdConf} == old(tmp.files) - {HostapdConf}
  {
    ConcatOfTwo(WPA2, [line]);
    ConcatLength(WPA2, 30);
    Wpa2ConstantHasNoNul();
    assert Concat([line]) == line + Concat([]) == line;
    Snprintf(buffer, Concat(WPA2) + line);
    err := WriteBuffer(tmp, buffer, complete);
  }
}
