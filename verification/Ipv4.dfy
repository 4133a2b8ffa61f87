/** IPv4 texts and words: dotted-decimal reading, the prefix length of a netmask, and the exchange of two words. */
module Ipv4 {
  import opened CStrings

  type Octet = n: nat | n < 256

  datatype Quad = Quad(a: Octet, b: Octet, c: Octet, d: Octet) {
    function Octets(): (octets: seq<Octet>)
      ensures |octets| == 4
    {
      [a, b, c, d]
    }

    /** The address in host byte order. */
    function Word(): (w: nat)
      ensures w < 0x1_0000_0000
    {
      ((a * 0x100 + b) * 0x100 + c) * 0x100 + d
    }
  }

  // ----- dotted text -----

  /** Where the digits that start at i end. */
  function DigitsEnd(text: string, i: nat): (n: nat)
    requires i <= |text|
    ensures i <= n <= |text| && forall k | i <= k < n :: IsDigit(text[k])
    ensures n < |text| ==> !IsDigit(text[n])
    decreases |text| - i
  {
    if i < |text| && IsDigit(text[i]) then DigitsEnd(text, i + 1) else i
  }

  /** Digits without a superfluous leading zero, up to 255. */
  predicate IsOctetText(digits: string)
    requires forall c | c in digits :: IsDigit(c)
  {
    digits != "" && (|digits| > 1 ==> digits[0] != '0') && Value(digits) < 256
  }

  /** The octets of dotted text, or none, as inet_pton reads an IPv4 address. */
  function ReadOctets(text: string): Option<seq<Octet>>
    decreases |text|
  {
    var n := DigitsEnd(text, 0);
    if !IsOctetText(text[..n]) then None
    else if n == |text| then Some([Value(text[..n])])
    else if text[n] != '.' then None
    else
      match ReadOctets(text[n + 1..])
      case None => None
      case Some(rest) => Some([Value(text[..n])] + rest)
  }

  function InetPton(text: string): Option<Quad> {
    match ReadOctets(text)
    case None => None
    case Some(o) => if |o| == 4 then Some(Quad(o[0], o[1], o[2], o[3])) else None
  }

  function DottedOctets(octets: seq<Octet>): string
    requires octets != []
  {
    NatText(octets[0]) + if |octets| == 1 then "" else "." + DottedOctets(octets[1..])
  }

  function Dotted(q: Quad): string {
    DottedOctets(q.Octets())
  }

  /** One "%d" of sscanf at the start of a text: the number, and where it ends. */
  function ScanNumber(text: string): (scanned: Option<(int, nat)>)
    ensures scanned.Some? ==> scanned.value.1 <= |text|
  {
    var start := SkipSpaces(text, 0);
    var signed := start < |text| && (text[start] == '-' || text[start] == '+');
    var first := if signed then start + 1 else start;
    var n := DigitsEnd(text, first);
    if n == first then None
    else if signed && text[start] == '-' then Some((-(Value(text[first..n]) as int), n))
    else Some((Value(text[first..n]), n))
  }

  /** What sscanf with "%d.%d.%d.%d" stores: as many numbers as it can read with single dots between them. */
  function ScanQuad(text: string, wanted: nat): (numbers: seq<int>)
    requires wanted > 0
    ensures |numbers| <= wanted
    decreases wanted
  {
    match ScanNumber(text)
    case None => []
    case Some((number, n)) =>
      [number] + if wanted == 1 || n == |text| || text[n] != '.' then [] else ScanQuad(text[n + 1..], wanted - 1)
  }

  function SkipSpaces(text: string, i: nat): (n: nat)
    requires i <= |text|
    ensures i <= n <= |text|
    decreases |text| - i
  {
    if i < |text| && (text[i] == ' ' || '\t' <= text[i] <= '\r') then SkipSpaces(text, i + 1) else i
  }

  lemma {:induction false} DigitsEndIs(text: string, i: nat, n: nat)
    requires i <= n <= |text| && forall k | i <= k < n :: IsDigit(text[k])
    requires n < |text| ==> !IsDigit(text[n])
    ensures DigitsEnd(text, i) == n
    decreases n - i
  {
    if i < n {
      DigitsEndIs(text, i + 1, n);
    }
  }

  /** Digits without a leading zero are what their value prints as. */
  lemma {:induction false} NatTextOfValue(digits: string)
    requires digits != "" && (forall c | c in digits :: IsDigit(c)) && (|digits| > 1 ==> digits[0] != '0')
    ensures NatText(Value(digits)) == digits
    ensures digits[0] != '0' ==> Value(digits) > 0
  {
    var init, last := digits[..|digits| - 1], digits[|digits| - 1];
    assert digits == init + [last] && forall c | c in init :: c in digits;
    var d := DigitOf(last);
    assert '0' + d as char == last;
    if init == "" {
      assert Value(init) == 0 && Value(digits) == d;
    } else {
      NatTextOfValue(init);
      assert Value(digits) == 10 * Value(init) + d && Value(digits) / 10 == Value(init) && Value(digits) % 10 == d;
    }
  }

  lemma DottedStart(octets: seq<Octet>)
    requires octets != []
    ensures var text, n := DottedOctets(octets), |NatText(octets[0])|;
      && DigitsEnd(text, 0) == n && text[..n] == NatText(octets[0]) && IsDigit(text[0])
      && (if |octets| == 1 then n == |text|
          else n < |text| && text[n] == '.' && text[n + 1..] == DottedOctets(octets[1..]))
  {
    hide NatText, DigitsEnd, DottedOctets;
    DottedUnfolds(octets);
    var text, head := DottedOctets(octets), NatText(octets[0]);
    assert forall k | 0 <= k < |head| :: head[k] in head;
    DigitsEndIs(text, 0, |head|);
  }

  lemma DottedUnfolds(octets: seq<Octet>)
    requires octets != []
    ensures DottedOctets(octets) ==
      NatText(octets[0]) + (if |octets| == 1 then "" else "." + DottedOctets(octets[1..]))
  {
  }

  /** Dotted text is 15 characters at most. */
  lemma DottedLength(octets: seq<Octet>)
    requires octets != []
    ensures |DottedOctets(octets)| <= 4 * |octets| - 1
  {
    hide NatText, DottedOctets;
    DottedUnfolds(octets);
    OctetLength(octets[0]);
    if |octets| > 1 {
      DottedLength(octets[1..]);
    }
  }

  lemma OctetLength(octet: Octet)
    ensures |NatText(octet)| <= 3
  {
    assert Power10(1) == 10 && Power10(2) == 100 && Power10(3) == 1000;
    NatTextLength(octet, 3);
  }

  lemma {:induction false} ReadOfDotted(octets: seq<Octet>)
    requires octets != []
    ensures ReadOctets(DottedOctets(octets)) == Some(octets)
  {
    DottedStart(octets);
    ValueOfNatText(octets[0]);
    hide NatText, DottedOctets;
    if |octets| > 1 {
      ReadOfDotted(octets[1..]);
      assert [octets[0]] + octets[1..] == octets;
    } else {
      assert [octets[0]] == octets;
    }
  }

  lemma {:induction false} DottedOfRead(text: string)
    requires ReadOctets(text).Some?
    ensures ReadOctets(text).value != [] && DottedOctets(ReadOctets(text).value) == text
  {
    hide DottedOctets, NatText, Value, DigitsEnd;
    var n := DigitsEnd(text, 0);
    NatTextOfValue(text[..n]);
    DottedOne(Value(text[..n]));
    if n == |text| {
      assert text == text[..n];
    } else {
      DottedOfRead(text[n + 1..]);
      DottedCons(Value(text[..n]), ReadOctets(text[n + 1..]).value);
      assert text == text[..n] + ("." + text[n + 1..]);
    }
  }

  lemma DottedOne(octet: nat)
    requires octet < 256
    ensures DottedOctets([octet]) == NatText(octet)
  {
  }

  lemma DottedCons(first: Octet, rest: seq<Octet>)
    requires rest != []
    ensures DottedOctets([first] + rest) == NatText(first) + ("." + DottedOctets(rest))
  {
    assert ([first] + rest)[1..] == rest;
  }

  /** A text is accepted for an address exactly if it is the address's canonical dotted text. */
  lemma InetPtonIff(text: string, q: Quad)
    ensures InetPton(text) == Some(q) <==> text == Dotted(q)
  {
    ReadOfDotted(q.Octets());
    if InetPton(text) == Some(q) {
      DottedOfRead(text);
      assert ReadOctets(text).value == q.Octets();
    }
  }

  lemma NoSpaceToSkip(text: string)
    requires text != "" && IsDigit(text[0])
    ensures SkipSpaces(text, 0) == 0
  {
  }

  lemma NumberOfDigits(text: string, n: nat)
    requires 0 < n <= |text| && DigitsEnd(text, 0) == n
    ensures ScanNumber(text) == Some((Value(text[..n]), n))
  {
    hide SkipSpaces, DigitsEnd, Value;
    NoSpaceToSkip(text);
    assert text[0..n] == text[..n];
  }

  /** Scanning a text that starts with digits. */
  lemma ScanDigits(text: string, n: nat, wanted: nat)
    requires 0 < n <= |text| && wanted > 0 && DigitsEnd(text, 0) == n
    ensures ScanQuad(text, wanted) == [Value(text[..n])]
      + (if wanted == 1 || n == |text| || text[n] != '.' then [] else ScanQuad(text[n + 1..], wanted - 1))
  {
    hide ScanNumber, DigitsEnd, Value;
    NumberOfDigits(text, n);
  }

  /** Scanning the last number. */
  lemma ScanLast(text: string, n: nat)
    requires |text| > 0 && DigitsEnd(text, 0) == n == |text|
    ensures ScanQuad(text, 1) == [Value(text)]
  {
    hide DigitsEnd, Value, ScanQuad;
    ScanDigits(text, n, 1);
    assert text[..n] == text;
  }

  /** Scanning a number with a dot behind it. */
  lemma ScanNext(head: string, rest: string, wanted: nat)
    requires wanted > 1 && head != "" && forall k | 0 <= k < |head| :: IsDigit(head[k])
    ensures ScanQuad(head + ("." + rest), wanted) == [Value(head)] + ScanQuad(rest, wanted - 1)
  {
    hide DigitsEnd, Value, ScanQuad;
    var text := head + ("." + rest);
    DigitsEndIs(text, 0, |head|);
    ScanDigits(text, |head|, wanted);
    assert text[..|head|] == head && text[|head| + 1..] == rest;
  }

  lemma {:induction false} ScanOfDotted(octets: seq<Octet>)
    requires octets != []
    ensures ScanQuad(DottedOctets(octets), |octets|) == octets
    decreases |octets|
  {
    hide ScanQuad, DottedOctets;
    if |octets| == 1 {
      ScanOne(octets);
    } else {
      ScanOfDotted(octets[1..]);
      ScanMore(octets);
    }
  }

  lemma ScanOne(octets: seq<Octet>)
    requires |octets| == 1
    ensures ScanQuad(DottedOctets(octets), 1) == octets
  {
    hide ScanQuad, DigitsEnd, Value, NatText;
    var text := DottedOctets(octets);
    DottedStart(octets);
    ValueOfNatText(octets[0]);
    assert text == NatText(octets[0]);
    ScanLast(text, |text|);
  }

  lemma ScanMore(octets: seq<Octet>)
    requires |octets| > 1
    ensures ScanQuad(DottedOctets(octets), |octets|)
      == [octets[0]] + ScanQuad(DottedOctets(octets[1..]), |octets| - 1)
  {
    var head := NatText(octets[0]);
    ValueOfNatText(octets[0]);
    assert forall k | 0 <= k < |head| :: head[k] in head;
    ScanNext(head, DottedOctets(octets[1..]), |octets|);
    hide ScanQuad, Value, NatText;
  }

  /** The two readers of address text agree on what inet_pton accepts. */
  lemma ScannersAgree(text: string)
    requires InetPton(text).Some?
    ensures ScanQuad(text, 4) == InetPton(text).value.Octets()
  {
    InetPtonIff(text, InetPton(text).value);
    ScanOfDotted(InetPton(text).value.Octets());
  }

  // ----- the prefix length of a netmask -----

  function Power2(k: nat): (p: nat)
    ensures p > 0
  {
    if k == 0 then 1 else 2 * Power2(k - 1)
  }

  /** n shifted left by k bits. */
  function Shift(n: nat, k: nat): nat {
    if k == 0 then n else 2 * Shift(n, k - 1)
  }

  /** Number of bits that are set. */
  function Ones(n: nat): nat {
    if n == 0 then 0 else n % 2 + Ones(n / 2)
  }

  /** The octet whose k highest bits are set and no others. */
  function HighBits(k: nat): nat
    requires k <= 8
  {
    Shift(Power2(k) - 1, 8 - k)
  }

  ghost predicate IsBlock(b: int) {
    exists k: nat | 1 <= k <= 8 :: b == HighBits(k)
  }

  /** Where the leading octets that are non-zero and contiguous from the left end. */
  ghost function StopAt(octets: seq<int>): (n: nat)
    ensures n <= |octets|
  {
    if octets == [] || !IsBlock(octets[0]) then 0 else 1 + StopAt(octets[1..])
  }

  /** Number of bits set in all octets. */
  function SumOnes(octets: seq<nat>): nat {
    if octets == [] then 0 else Ones(octets[0]) + SumOnes(octets[1..])
  }

  /** The bits set in the leading octets up to the stopping point. */
  ghost function PrefixLength(octets: seq<int>): nat {
    if octets == [] || !IsBlock(octets[0]) then 0 else Ones(octets[0]) + PrefixLength(octets[1..])
  }

  lemma HighBitsTable()
    ensures HighBits(1) == 0x80 && HighBits(2) == 0xC0 && HighBits(3) == 0xE0 && HighBits(4) == 0xF0
    ensures HighBits(5) == 0xF8 && HighBits(6) == 0xFC && HighBits(7) == 0xFE && HighBits(8) == 0xFF
    ensures HighBits(0) == 0
  {
    assert Power2(0) == 1 && Power2(1) == 2 && Power2(2) == 4 && Power2(3) == 8 && Power2(4) == 16;
    assert Power2(5) == 32 && Power2(6) == 64 && Power2(7) == 128 && Power2(8) == 256;
  }

  lemma {:induction false} OnesOfSum(high: nat, low: nat, k: nat)
    requires low < Power2(k)
    ensures Ones(Shift(high, k) + low) == Ones(high) + Ones(low)
  {
    if k > 0 {
      var x := Shift(high, k - 1);
      assert (2 * x + low) / 2 == x + low / 2 && (2 * x + low) % 2 == low % 2;
      OnesOfSum(high, low / 2, k - 1);
    }
  }

  lemma {:induction false} OnesOfAllOnes(k: nat)
    ensures Ones(Power2(k) - 1) == k
  {
    if k > 0 {
      var n := Power2(k) - 1;
      assert n == 2 * (Power2(k - 1) - 1) + 1 && n / 2 == Power2(k - 1) - 1 && n % 2 == 1;
      OnesOfAllOnes(k - 1);
    }
  }

  lemma OnesOfHighBits(k: nat)
    requires k <= 8
    ensures Ones(HighBits(k)) == k
  {
    OnesOfSum(Power2(k) - 1, 0, 8 - k);
    OnesOfAllOnes(k);
  }

  /** The octets that the code's switch knows. */
  lemma BlockTable(b: int)
    ensures IsBlock(b) <==> b in {0x80, 0xC0, 0xE0, 0xF0, 0xF8, 0xFC, 0xFE, 0xFF}
  {
    HighBitsTable();
    hide HighBits;
    if b in {0x80, 0xC0, 0xE0, 0xF0, 0xF8, 0xFC, 0xFE, 0xFF} {
      assert b in {HighBits(1), HighBits(2), HighBits(3), HighBits(4),
                   HighBits(5), HighBits(6), HighBits(7), HighBits(8)};
    }
  }

  /** The four numbers that the scan leaves: those it did not reach keep what was in the array. */
  function Scanned(text: string, stale: seq<int>): (bytes: seq<int>)
    requires |stale| == 4
    ensures |bytes| == 4
  {
    var numbers := ScanQuad(text, 4);
    numbers + stale[|numbers|..]
  }

  lemma ScannedIsAddress(text: string, stale: seq<int>)
    requires |stale| == 4 && InetPton(text).Some?
    ensures Scanned(text, stale) == InetPton(text).value.Octets()
  {
    ScannersAgree(text);
    hide ScanQuad;
  }

  method ToCidr(text: string, stale: seq<int>) returns (cidr: nat)
    requires |stale| == 4
    ensures cidr == PrefixLength(Scanned(text, stale))
  {
    var ipbytes := Scanned(text, stale);
    cidr := 0;
    for i := 0 to 4
      invariant PrefixLength(ipbytes) == cidr + PrefixLength(ipbytes[i..])
    {
      BlockTable(ipbytes[i]);
      var bits := BitsOf(ipbytes[i]);
      if bits == 0 {
        return;
      }
      assert ipbytes[i..][1..] == ipbytes[i + 1..];
      cidr := cidr + bits;
    }
  }

  /** The switch on one octet; 0 stands for its default branch. */
  method BitsOf(b: int) returns (bits: nat)
    ensures bits == if IsBlock(b) then Ones(b) else 0
    ensures bits == 0 <==> !IsBlock(b)
  {
    HighBitsTable();
    BlockTable(b);
    forall k: nat | 1 <= k <= 8
      ensures Ones(HighBits(k)) == k
    {
      OnesOfHighBits(k);
    }
    match b
    case 0x80 => bits := 1;
    case 0xC0 => bits := 2;
    case 0xE0 => bits := 3;
    case 0xF0 => bits := 4;
    case 0xF8 => bits := 5;
    case 0xFC => bits := 6;
    case 0xFE => bits := 7;
    case 0xFF => bits := 8;
    case _ => bits := 0;
  }

  lemma OnesOfByte(high: nat, low: Octet)
    ensures Ones(high * 0x100 + low) == Ones(high) + Ones(low)
  {
    ShiftByByte(high);
    OnesOfSum(high, low, 8);
  }

  lemma ShiftByByte(n: nat)
    ensures Shift(n, 8) == n * 0x100 && Power2(8) == 0x100
  {
    assert Shift(n, 1) == 2 * n && Shift(n, 2) == 4 * n && Shift(n, 3) == 8 * n && Shift(n, 4) == 16 * n;
    assert Shift(n, 5) == 32 * n && Shift(n, 6) == 64 * n && Shift(n, 7) == 128 * n;
    assert Power2(4) == 16 && Power2(6) == 64;
  }

  /** Counting bits octet by octet counts those of the 32-bit mask. */
  lemma OnesOfWord(q: Quad)
    ensures SumOnes(q.Octets()) == Ones(q.Word())
  {
    hide Ones, SumOnes;
    OnesOfByte(q.a, q.b);
    OnesOfByte(q.a * 0x100 + q.b, q.c);
    OnesOfByte((q.a * 0x100 + q.b) * 0x100 + q.c, q.d);
    SumOfFour(q.a, q.b, q.c, q.d);
  }

  lemma SumOfFour(a: nat, b: nat, c: nat, d: nat)
    ensures SumOnes([a, b, c, d]) == Ones(a) + Ones(b) + Ones(c) + Ones(d)
  {
    hide Ones;
    assert [a, b, c, d][1..] == [b, c, d] && [b, c, d][1..] == [c, d] && [c, d][1..] == [d];
    assert SumOnes([d]) == Ones(d) && SumOnes([c, d]) == Ones(c) + SumOnes([d]);
    assert SumOnes([b, c, d]) == Ones(b) + SumOnes([c, d]);
  }

  lemma {:induction false} OnesIsZeroIff(n: nat)
    ensures Ones(n) == 0 <==> n == 0
  {
    if n > 0 {
      OnesIsZeroIff(n / 2);
    }
  }

  /** The prefix length counts all set bits exactly if nothing is set from the stopping point on. */
  lemma {:induction false} PrefixCountsAllIff(octets: seq<nat>)
    ensures PrefixLength(octets) <= SumOnes(octets)
    ensures PrefixLength(octets) == SumOnes(octets) <==> forall i | StopAt(octets) <= i < |octets| :: octets[i] == 0
  {
    if octets != [] {
      var rest := octets[1..];
      PrefixCountsAllIff(rest);
      OnesIsZeroIff(octets[0]);
      if IsBlock(octets[0]) {
        assert forall i | 1 <= i < |octets| :: octets[i] == rest[i - 1];
      } else {
        SumIsZeroIff(octets);
      }
    }
  }

  lemma {:induction false} SumIsZeroIff(octets: seq<nat>)
    ensures SumOnes(octets) == 0 <==> forall i | 0 <= i < |octets| :: octets[i] == 0
  {
    if octets != [] {
      OnesIsZeroIff(octets[0]);
      SumIsZeroIff(octets[1..]);
      assert forall i | 1 <= i < |octets| :: octets[i] == octets[1..][i - 1];
    }
  }

  // ----- contiguous masks -----

  /** The mask of prefix length n as a 32-bit word (section 3.1 of RFC 4632). */
  function Mask(n: nat): nat
    requires n <= 32
  {
    Shift(Power2(n) - 1, 32 - n)
  }

  /** How many of the first n bits fall in the octet at index i. */
  function BitsIn(n: nat, i: nat): nat {
    if n <= 8 * i then 0 else if n >= 8 * i + 8 then 8 else n - 8 * i
  }

  function MaskQuad(n: nat): Quad
    requires n <= 32
  {
    HighBitsBound(BitsIn(n, 0));
    HighBitsBound(BitsIn(n, 1));
    HighBitsBound(BitsIn(n, 2));
    HighBitsBound(BitsIn(n, 3));
    Quad(HighBits(BitsIn(n, 0)), HighBits(BitsIn(n, 1)), HighBits(BitsIn(n, 2)), HighBits(BitsIn(n, 3)))
  }

  lemma HighBitsBound(k: nat)
    requires k <= 8
    ensures HighBits(k) < 256
  {
    HighBitsTable();
    hide HighBits;
  }

  lemma {:induction false} ShiftOfSum(n: nat, m: nat, k: nat)
    ensures Shift(n + m, k) == Shift(n, k) + Shift(m, k)
  {
    if k > 0 {
      ShiftOfSum(n, m, k - 1);
    }
  }

  lemma {:induction false} ShiftTwice(n: nat, j: nat, k: nat)
    ensures Shift(Shift(n, j), k) == Shift(n, j + k)
  {
    if k > 0 {
      ShiftTwice(n, j, k - 1);
    }
  }

  /** j + k ones are j ones followed by k ones. */
  lemma {:induction false} OnesInARow(j: nat, k: nat)
    ensures Power2(j + k) - 1 == Shift(Power2(j) - 1, k) + (Power2(k) - 1)
  {
    if k > 0 {
      OnesInARow(j, k - 1);
    }
  }

  /** An octet with r high bits behind j ones. */
  lemma AddOctet(j: nat, r: nat)
    requires r <= 8
    ensures (Power2(j) - 1) * 0x100 + HighBits(r) == Shift(Power2(j + r) - 1, 8 - r)
  {
    ShiftByByte(Power2(j) - 1);
    OnesInARow(j, r);
    ShiftOfSum(Shift(Power2(j) - 1, r), Power2(r) - 1, 8 - r);
    ShiftTwice(Power2(j) - 1, r, 8 - r);
  }

  /** Empty octets behind a number. */
  lemma EmptyOctets(n: nat, j: nat)
    ensures Shift(n, j) * 0x100 == Shift(n, j + 8)
  {
    ShiftByByte(Shift(n, j));
    ShiftTwice(n, j, 8);
  }

  lemma PowersOfBytes()
    ensures Power2(0) == 1 && Power2(8) == 0x100 && Power2(16) == 0x1_0000 && Power2(24) == 0x100_0000
    ensures Power2(32) == 0x1_0000_0000
  {
    ShiftByByte(1);
    assert Power2(10) == 0x400 && Power2(12) == 0x1000 && Power2(14) == 0x4000;
    assert Power2(18) == 0x4_0000 && Power2(20) == 0x10_0000 && Power2(22) == 0x40_0000;
    assert Power2(26) == 0x400_0000 && Power2(28) == 0x1000_0000 && Power2(30) == 0x4000_0000;
  }

  /** Full octets before the one at index i, empty ones behind it. */
  function QuadAt(i: nat, octet: Octet): Quad {
    match i
    case 0 => Quad(octet, 0, 0, 0)
    case 1 => Quad(255, octet, 0, 0)
    case 2 => Quad(255, 255, octet, 0)
    case _ => Quad(255, 255, 255, octet)
  }

  /** The octets of a mask whose ones end in the octet at index i. */
  lemma MaskOctets(n: nat, i: nat)
    requires i < 4 && 8 * i <= n <= 8 * i + 8
    ensures HighBits(n - 8 * i) < 256 && MaskQuad(n) == QuadAt(i, HighBits(n - 8 * i))
  {
    hide HighBits;
    HighBitsTable();
    HighBitsBound(n - 8 * i);
    assert forall k | 0 <= k < 4 :: BitsIn(n, k) == if k < i then 8 else if k == i then n - 8 * i else 0;
    hide BitsIn;
  }

  lemma MaskIs(n: nat)
    requires n <= 32
    ensures Mask(n) == Shift(Power2(n) - 1, 32 - n)
  {
    hide Power2, Shift;
  }

  /** Octets that end a word of h, as a shifted number. */
  lemma QuadAtWord(i: nat, h: Octet)
    requires i < 4
    ensures i == 0 ==> QuadAt(i, h).Word() == h * 0x100 * 0x100 * 0x100
    ensures i == 1 ==> QuadAt(i, h).Word() == (255 * 0x100 + h) * 0x100 * 0x100
    ensures i == 2 ==> QuadAt(i, h).Word() == (0xFFFF * 0x100 + h) * 0x100
    ensures i == 3 ==> QuadAt(i, h).Word() == 0xFF_FFFF * 0x100 + h
  {
  }

  lemma WordIsMask(n: nat)
    requires n <= 32
    ensures MaskQuad(n).Word() == Mask(n)
  {
    hide Power2, HighBits, MaskQuad, Shift, Mask, QuadAt, Quad.Word;
    PowersOfBytes();
    MaskIs(n);
    var i := if n <= 8 then 0 else if n <= 16 then 1 else if n <= 24 then 2 else 3;
    MaskOctets(n, i);
    QuadAtWord(i, HighBits(n - 8 * i));
    ShiftedOctets(n, i);
  }

  /** The same number, from the mask's side. */
  lemma ShiftedOctets(n: nat, i: nat)
    requires i < 4 && 8 * i <= n <= 8 * i + 8
    ensures var h, s := HighBits(n - 8 * i), Shift(Power2(n) - 1, 32 - n);
      && (i == 0 ==> s == h * 0x100 * 0x100 * 0x100)
      && (i == 1 ==> s == (255 * 0x100 + h) * 0x100 * 0x100)
      && (i == 2 ==> s == (0xFFFF * 0x100 + h) * 0x100)
      && (i == 3 ==> s == 0xFF_FFFF * 0x100 + h)
  {
    hide Power2, HighBits, Shift;
    PowersOfBytes();
    var ones := Power2(n) - 1;
    match i
    case 0 =>
      AddOctet(0, n);
      ThreeEmptyOctets(ones, 8 - n);
    case 1 =>
      AddOctet(8, n - 8);
      TwoEmptyOctets(ones, 16 - n);
    case 2 =>
      AddOctet(16, n - 16);
      EmptyOctets(ones, 24 - n);
    case _ =>
      AddOctet(24, n - 24);
  }

  lemma TwoEmptyOctets(n: nat, j: nat)
    ensures Shift(n, j) * 0x100 * 0x100 == Shift(n, j + 16)
  {
    EmptyOctets(n, j);
    EmptyOctets(n, j + 8);
  }

  lemma ThreeEmptyOctets(n: nat, j: nat)
    ensures Shift(n, j) * 0x100 * 0x100 * 0x100 == Shift(n, j + 24)
  {
    TwoEmptyOctets(n, j);
    EmptyOctets(n, j + 16);
  }

  lemma WordDetermines(p: Quad, q: Quad)
    requires p.Word() == q.Word()
    ensures p == q
  {
    WordDigits(p);
    WordDigits(q);
    hide Quad.Word;
  }

  lemma WordDigits(q: Quad)
    ensures q.d == q.Word() % 0x100 && q.c == q.Word() / 0x100 % 0x100
    ensures q.b == q.Word() / 0x1_0000 % 0x100 && q.a == q.Word() / 0x100_0000
  {
    assert q.Word() / 0x100 == (q.a * 0x100 + q.b) * 0x100 + q.c;
    assert q.Word() / 0x1_0000 == q.a * 0x100 + q.b;
  }

  lemma PrefixOfFour(a: Octet, b: Octet, c: Octet, d: Octet)
    ensures PrefixLength([a, b, c, d]) ==
      if !IsBlock(a) then 0 else if !IsBlock(b) then Ones(a) else if !IsBlock(c) then Ones(a) + Ones(b)
      else if !IsBlock(d) then Ones(a) + Ones(b) + Ones(c) else Ones(a) + Ones(b) + Ones(c) + Ones(d)
  {
    hide Ones, IsBlock;
    assert [a, b, c, d][1..] == [b, c, d] && [b, c, d][1..] == [c, d] && [c, d][1..] == [d];
    assert PrefixLength([d]) == if IsBlock(d) then Ones(d) else 0;
    assert PrefixLength([c, d]) == if IsBlock(c) then Ones(c) + PrefixLength([d]) else 0;
    assert PrefixLength([b, c, d]) == if IsBlock(b) then Ones(b) + PrefixLength([c, d]) else 0;
  }

  /** On a contiguous mask the prefix length is the mask's own. */
  lemma PrefixOfMask(q: Quad, n: nat)
    requires n <= 32 && q.Word() == Mask(n)
    ensures PrefixLength(q.Octets()) == n
  {
    WordIsMask(n);
    WordDetermines(q, MaskQuad(n));
    PrefixOfFour(q.a, q.b, q.c, q.d);
    forall i | 0 <= i < 4
      ensures Ones(HighBits(BitsIn(n, i))) == BitsIn(n, i)
      ensures IsBlock(HighBits(BitsIn(n, i))) <==> BitsIn(n, i) > 0
    {
      OnesOfHighBits(BitsIn(n, i));
      HighBitsTable();
      BlockTable(HighBits(BitsIn(n, i)));
    }
    hide Ones, IsBlock, HighBits, PrefixLength, Mask;
  }

  /** The prefix length of any mask is at most its number of set bits, so at most 32. */
  lemma PrefixWithinMask(q: Quad)
    ensures PrefixLength(q.Octets()) <= Ones(q.Word()) <= 32
    ensures PrefixLength(q.Octets()) == Ones(q.Word()) <==>
      forall i | StopAt(q.Octets()) <= i < 4 :: q.Octets()[i] == 0
  {
    OnesOfWord(q);
    PrefixCountsAllIff(q.Octets());
    PowersOfBytes();
    OnesBound(q.Word(), 32);
  }

  lemma {:induction false} OnesBound(n: nat, k: nat)
    requires n < Power2(k)
    ensures Ones(n) <= k
  {
    if n > 0 {
      OnesBound(n / 2, k - 1);
    }
  }

  /** The length that is printed behind the slash describes the mask exactly if the mask is contiguous. */
  lemma PrefixDescribesMaskIff(q: Quad)
    ensures PrefixLength(q.Octets()) <= 32
    ensures q.Word() == Mask(PrefixLength(q.Octets())) <==> exists n: nat :: n <= 32 && q.Word() == Mask(n)
  {
    PrefixWithinMask(q);
    if n: nat :| n <= 32 && q.Word() == Mask(n) {
      PrefixOfMask(q, n);
    }
  }

  /** A mask with a hole between octets is given a length as if it had none. */
  lemma HoleIsNotSeen()
    ensures PrefixLength(Quad(255, 192, 255, 0).Octets()) == 18
    ensures forall n: nat | n <= 32 :: Quad(255, 192, 255, 0).Word() != Mask(n)
  {
    hide Ones, IsBlock, HighBits, PrefixLength, Mask, MaskQuad, Power2, Shift;
    var q := Quad(255, 192, 255, 0);
    PrefixOfFour(255, 192, 255, 0);
    BlockTable(255);
    BlockTable(192);
    BlockTable(0);
    HighBitsTable();
    OnesOfHighBits(8);
    OnesOfHighBits(2);
    forall n: nat | n <= 32
      ensures q.Word() != Mask(n)
    {
      if q.Word() == Mask(n) {
        PrefixOfMask(q, n);
        WordIsMask(n);
        WordDetermines(q, MaskQuad(n));
        MaskOctets(n, 2);
      }
    }
  }

  // ----- exchanging two words -----

  /** Bitwise exclusive or. */
  function Xor(a: nat, b: nat): nat
    decreases a + b
  {
    if a == 0 && b == 0 then 0 else (a + b) % 2 + 2 * Xor(a / 2, b / 2)
  }

  lemma XorStep(a: nat, b: nat)
    ensures Xor(a, b) / 2 == Xor(a / 2, b / 2) && Xor(a, b) % 2 == (a + b) % 2
  {
  }

  lemma SameHalves(x: nat, y: nat)
    requires x / 2 == y / 2 && x % 2 == y % 2
    ensures x == y
  {
  }

  lemma SameParity(a: nat, b: nat, x: nat)
    requires x % 2 == (a + b) % 2
    ensures (b + x) % 2 == a % 2 && (x + a) % 2 == b % 2
  {
  }

  lemma {:induction false} XorCancels(a: nat, b: nat)
    ensures Xor(b, Xor(a, b)) == a && Xor(Xor(a, b), a) == b
    decreases a + b
  {
    if a == 0 && b == 0 {
      assert Xor(0, 0) == 0;
    } else {
      hide Xor;
      XorCancels(a / 2, b / 2);
      var x := Xor(a, b);
      XorStep(a, b);
      XorStep(b, x);
      XorStep(x, a);
      SameParity(a, b, x);
      SameHalves(Xor(b, x), a);
      SameHalves(Xor(x, a), b);
    }
  }

  lemma {:induction false} XorBound(a: nat, b: nat, k: nat)
    requires a < Power2(k) && b < Power2(k)
    ensures Xor(a, b) < Power2(k)
  {
    if k > 0 {
      XorBound(a / 2, b / 2, k - 1);
    }
  }

  type Word32 = n: nat | n < 0x1_0000_0000

  lemma XorIsWord(a: Word32, b: Word32)
    ensures Xor(a, b) < 0x1_0000_0000
  {
    PowersOfBytes();
    XorBound(a, b, 32);
  }

  /** Puts the endpoints of the client range in order, exchanging them by three exclusive ors. */
  method OrderEndpoints(first: Word32, second: Word32) returns (start: Word32, stop: Word32)
    ensures start <= stop
    ensures (start, stop) == (first, second) || (start, stop) == (second, first)
  {
    start, stop := first, second;
    if start > stop {
      XorCancels(first, second);
      XorIsWord(first, second);
      start := Xor(start, stop);
      stop := Xor(stop, start);
      start := Xor(start, stop);
    }
  }
}
