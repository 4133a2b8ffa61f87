/** The address check in front of dnsmasq, and the two files that are written behind it. */
module Dnsmasq {
  import opened CStrings
  import opened ApSettings
  import opened ApData
  import opened Ipv4
  import opened Hostapd
  import opened TmpFiles
  import opened HostapdPrinter

  // ----- the check -----

  function Min(a: nat, b: nat): nat {
    if a < b then a else b
  }

  function Max(a: nat, b: nat): nat {
    if a < b then b else a
  }

  /** The access point's own address is among those offered to clients, in whichever order the ends are given. */
  predicate InRange(ap: Quad, start: Quad, stop: Quad) {
    Min(start.Word(), stop.Word()) <= ap.Word() <= Max(start.Word(), stop.Word())
  }

  /** 0: usable; -1: not an address; -2: an address is missing, or the access point's is inside the range. */
  function AddressVerdict(s: Settings): int {
    if s.ipAp == "" || s.ipStart == "" || s.ipStop == "" || s.ipNetmask == "" then -2
    else TextsVerdict(s.ipAp, s.ipStart, s.ipStop, s.ipNetmask)
  }

  function TextsVerdict(ipAp: string, ipStart: string, ipStop: string, ipNetmask: string): int {
    var ap, start, stop := InetPton(ipAp), InetPton(ipStart), InetPton(ipStop);
    if ap.None? || start.None? || stop.None? || InetPton(ipNetmask).None? then -1
    else if InRange(ap.value, start.value, stop.value) then -2
    else 0
  }

  /** The four addresses of the settings, as dotted text. */
  predicate HasAddresses(s: Settings, ap: Quad, start: Quad, stop: Quad, netmask: Quad) {
    s.ipAp == Dotted(ap) && s.ipStart == Dotted(start) && s.ipStop == Dotted(stop) && s.ipNetmask == Dotted(netmask)
  }

  lemma DottedIsNotEmpty(q: Quad)
    ensures Dotted(q) != ""
  {
    DottedStart(q.Octets());
  }

  /** An address as a number, first octet first. */
  function Number(q: Quad): nat {
    q.a * 16777216 + q.b * 65536 + q.c * 256 + q.d
  }

  lemma NumberIsWord(q: Quad)
    ensures Number(q) == q.Word()
  {
  }

  lemma InRangeByNumber(ap: Quad, start: Quad, stop: Quad)
    ensures InRange(ap, start, stop) <==>
      Number(start) <= Number(ap) <= Number(stop) || Number(stop) <= Number(ap) <= Number(start)
  {
    NumberIsWord(ap);
    NumberIsWord(start);
    NumberIsWord(stop);
    hide Number, Quad.Word;
  }

  /**
   * For four addresses, the check rejects exactly when the access point's lies between the ends of the range, both
   * included, whichever end is given first.
   */
  lemma RejectedIffInRange(s: Settings, ap: Quad, start: Quad, stop: Quad, netmask: Quad)
    requires HasAddresses(s, ap, start, stop, netmask)
    ensures AddressVerdict(s) ==
      if Number(start) <= Number(ap) <= Number(stop) || Number(stop) <= Number(ap) <= Number(start) then -2 else 0
  {
    hide Dotted, InetPton, InRange, Number;
    InRangeByNumber(ap, start, stop);
    InetPtonIff(s.ipAp, ap);
    InetPtonIff(s.ipStart, start);
    InetPtonIff(s.ipStop, stop);
    InetPtonIff(s.ipNetmask, netmask);
    DottedIsNotEmpty(ap);
    DottedIsNotEmpty(start);
    DottedIsNotEmpty(stop);
    DottedIsNotEmpty(netmask);
  }

  /** No address at all is -2, as is one in the range; a text that is no dotted address is -1. */
  lemma RejectedTexts(s: Settings)
    ensures s.ipAp == "" || s.ipStart == "" || s.ipStop == "" || s.ipNetmask == "" ==> AddressVerdict(s) == -2
    ensures s.ipAp != "" && s.ipStart != "" && s.ipStop != "" && s.ipNetmask != "" ==>
      (AddressVerdict(s) == -1 <==>
        !IsAddress(s.ipAp) || !IsAddress(s.ipStart) || !IsAddress(s.ipStop) || !IsAddress(s.ipNetmask))
  {
    hide Dotted, InetPton, InRange;
    AddressIff(s.ipAp);
    AddressIff(s.ipStart);
    AddressIff(s.ipStop);
    AddressIff(s.ipNetmask);
  }

  ghost predicate IsAddress(text: string) {
    exists q :: text == Dotted(q)
  }

  lemma AddressIff(text: string)
    ensures IsAddress(text) <==> InetPton(text).Some?
  {
    hide Dotted, InetPton;
    if q :| text == Dotted(q) {
      InetPtonIff(text, q);
    }
    if InetPton(text).Some? {
      InetPtonIff(text, InetPton(text).value);
    }
  }

  /** And what passes is four addresses. */
  lemma AcceptedIsAddresses(s: Settings) returns (ap: Quad, start: Quad, stop: Quad, netmask: Quad)
    requires AddressVerdict(s) == 0
    ensures HasAddresses(s, ap, start, stop, netmask) && !InRange(ap, start, stop)
  {
    hide Dotted, InetPton, InRange;
    ap, start, stop := InetPton(s.ipAp).value, InetPton(s.ipStart).value, InetPton(s.ipStop).value;
    netmask := InetPton(s.ipNetmask).value;
    InetPtonIff(s.ipAp, ap);
    InetPtonIff(s.ipStart, start);
    InetPtonIff(s.ipStop, stop);
    InetPtonIff(s.ipNetmask, netmask);
  }

  /** The access point's address with its prefix length, for the script. */
  ghost function AddressWithPrefix(s: Settings): string
    requires AddressVerdict(s) == 0
  {
    s.ipAp + "/" + NatText(PrefixLength(InetPton(s.ipNetmask).value.Octets()))
  }

  /** For a contiguous netmask of length n, that is the address, a slash and n. */
  lemma AddressWithLength(s: Settings, netmask: Quad, n: nat)
    requires AddressVerdict(s) == 0 && s.ipNetmask == Dotted(netmask) && n <= 32 && netmask.Word() == Mask(n)
    ensures AddressWithPrefix(s) == s.ipAp + "/" + NatText(n)
  {
    InetPtonIff(s.ipNetmask, netmask);
    PrefixOfMask(netmask, n);
    hide Dotted, InetPton, PrefixLength, NatText, Mask;
  }

  // ----- the files -----

  function HostsText(ap: string, hostName: string): string {
    ap + " " + hostName + "\n"
  }

  function DnsmasqLines(ap: string, start: string, stop: string, domain: string): seq<string> {
    ["bind-interfaces\n", "listen-address=" + ap + "\n", "expand-hosts\n", "addn-hosts=/tmp/add_hosts\n",
     "domain=" + domain + "\n", "local=/" + domain + "/\n", "dhcp-range=" + start + "," + stop + ",24h\n",
     "dhcp-option=3," + ap + "\n", "dhcp-option=6," + ap + "\n"]
  }

  function DnsmasqText(ap: string, start: string, stop: string, domain: string): string {
    Concat(DnsmasqLines(ap, start, stop, domain))
  }

  // ----- the methods -----

  /** The checks before the interface is brought up; what sscanf does not fill of its array is stale. */
  method CheckAddresses(data: WifiApData, stale: seq<int>) returns (verdict: int, cidr: string)
    requires data.Valid() && |stale| == 4
    ensures verdict == AddressVerdict(data.Value())
    ensures verdict == 0 ==> cidr == AddressWithPrefix(data.Value())
  {
    hide Text, TextsVerdict, InetPton, PrefixLength, NatText;
    var ipAp := ReadString(data.ipAp);
    var ipStart := ReadString(data.ipStart);
    var ipStop := ReadString(data.ipStop);
    var ipNetmask := ReadString(data.ipNetmask);
    if ipAp == "" || ipStart == "" || ipStop == "" || ipNetmask == "" {
      return -2, "";
    }
    verdict, cidr := CheckTexts(ipAp, ipStart, ipStop, ipNetmask, stale);
  }

  method CheckTexts(ipAp: string, ipStart: string, ipStop: string, ipNetmask: string, stale: seq<int>)
      returns (verdict: int, cidr: string)
    requires |stale| == 4
    ensures verdict == TextsVerdict(ipAp, ipStart, ipStop, ipNetmask)
    ensures verdict == 0 ==> cidr == ipAp + "/" + NatText(PrefixLength(InetPton(ipNetmask).value.Octets()))
  {
    hide NatText, Scanned, PrefixLength, InetPton, Quad.Word;
    var ap, first, second := InetPton(ipAp), InetPton(ipStart), InetPton(ipStop);
    var netmask := InetPton(ipNetmask);
    var bits := ToCidr(ipNetmask, stale);
    cidr := ipAp + "/" + NatText(bits);
    if ap.None? || first.None? || second.None? || netmask.None? {
      return -1, cidr;
    }
    ScannedIsAddress(ipNetmask, stale);
    var start, stop := OrderEndpoints(first.value.Word(), second.value.Word());
    if start <= ap.value.Word() <= stop {
      return -2, cidr;
    }
    return 0, cidr;
  }

  method CreateHostsConfigFile(tmp: TmpDir, ap: string, hostName: string, opens: bool) returns (err: int)
    modifies tmp
    ensures err == if opens then 0 else -1
    ensures tmp.files == if opens then old(tmp.files)[AddHosts := HostsText(ap, hostName)] else old(tmp.files)
  {
    tmp.Open(AddHosts, opens);
    if !opens {
      return -1;
    }
    tmp.Write(AddHosts, ap + " " + hostName + "\n");
    assert "" + (ap + " " + hostName + "\n") == HostsText(ap, hostName);
    return 0;
  }

  method CreateDnsmasqConfigFile(tmp: TmpDir, ap: string, start: string, stop: string, domain: string, opens: bool)
      returns (err: int)
    modifies tmp
    ensures err == if opens then 0 else -1
    ensures tmp.files ==
            if opens then old(tmp.files)[DnsmasqConf := DnsmasqText(ap, start, stop, domain)] else old(tmp.files)
  {
    tmp.Open(DnsmasqConf, opens);
    if !opens {
      return -1;
    }
    hide Concat;
    ghost var lines := DnsmasqLines(ap, start, stop, domain);
    var printed := ["bind-interfaces\n", "listen-address=" + ap + "\n"];
    tmp.Write(DnsmasqConf, Concat(printed));
    assert tmp.files[DnsmasqConf] == Concat(printed);
    var more := ["expand-hosts\n", "addn-hosts=/tmp/add_hosts\n", "domain=" + domain + "\n", "local=/" + domain + "/\n"];
    ConcatOfTwo(printed, more);
    tmp.Write(DnsmasqConf, Concat(more));
    printed := printed + more;
    more := ["dhcp-range=" + start + "," + stop + ",24h\n"];
    ConcatOfTwo(printed, more);
    tmp.Write(DnsmasqConf, Concat(more));
    printed := printed + more;
    more := ["dhcp-option=3," + ap + "\n"];
    ConcatOfTwo(printed, more);
    tmp.Write(DnsmasqConf, Concat(more));
    printed := printed + more;
    more := ["dhcp-option=6," + ap + "\n"];
    ConcatOfTwo(printed, more);
    tmp.Write(DnsmasqConf, Concat(more));
    assert printed + more == lines;
    return 0;
  }
}
