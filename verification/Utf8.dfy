/**
 * UTF-8 copying into bounded buffers. Text is cut only between characters; the meaning of a cut is given
 * over sequences of Unicode scalars, encoded as sections 3 and 4 of RFC 3629 say.
 */
module Utf8 {
  import opened CStrings

  predicate IsByte(c: char) {
    c as int < 0x100
  }

  /** Length of the character that a byte starts (section 3 of RFC 3629), 0 if no character starts with it. */
  function CharLength(first: char): nat
    requires IsByte(first)
  {
    var b := first as int;
    if b < 0x80 then 1
    else if b < 0xC0 then 0
    else if b < 0xE0 then 2
    else if b < 0xF0 then 3
    else if b < 0xF8 then 4
    else 0
  }

  /** The same length, read off the leading bits. */
  function NumBytesInChar(first: char): (n: nat)
    requires IsByte(first)
    ensures n == CharLength(first)
  {
    var b := first as bv8;
    if b & 0x80 == 0x00 then 1
    else if b & 0xE0 == 0xC0 then 2
    else if b & 0xF0 == 0xE0 then 3
    else if b & 0xF8 == 0xF0 then 4
    else 0
  }

  // ----- encoded scalars -----

  /** A Unicode scalar other than U+0000, which a C string cannot hold. */
  type Scalar = v: int | IsScalar(v) witness 1

  predicate IsScalar(v: int) {
    1 <= v <= 0x10FFFF && !(0xD800 <= v <= 0xDFFF)
  }

  function Tail(v: nat): char {
    (0x80 + v % 0x40) as char
  }

  function EncodeScalar(v: Scalar): (bytes: string)
    ensures NUL !in bytes
    ensures |bytes| > 0 && IsByte(bytes[0]) && |bytes| == CharLength(bytes[0])
  {
    assert IsScalar(v);
    if v < 0x80 then [v as char]
    else if v < 0x800 then [(0xC0 + v / 0x40) as char, Tail(v)]
    else if v < 0x1_0000 then [(0xE0 + v / 0x1000) as char, Tail(v / 0x40), Tail(v)]
    else [(0xF0 + v / 0x4_0000) as char, Tail(v / 0x1000), Tail(v / 0x40), Tail(v)]
  }

  function Encode(scalars: seq<Scalar>): (bytes: string)
    ensures NUL !in bytes
  {
    if scalars == [] then [] else EncodeScalar(scalars[0]) + Encode(scalars[1..])
  }

  predicate IsTail(c: char) {
    0x80 <= c as int < 0xC0
  }

  /** The number a character spells, whether or not it is a scalar in shortest form. */
  function Spelled(bytes: string): int
    requires |bytes| > 0 && IsByte(bytes[0]) && |bytes| == CharLength(bytes[0])
    requires forall i | 1 <= i < |bytes| :: IsTail(bytes[i])
  {
    match |bytes|
    case 1 => bytes[0] as int
    case 2 => (bytes[0] as int - 0xC0) * 0x40 + (bytes[1] as int - 0x80)
    case 3 => (bytes[0] as int - 0xE0) * 0x1000 + (bytes[1] as int - 0x80) * 0x40 + (bytes[2] as int - 0x80)
    case 4 => (bytes[0] as int - 0xF0) * 0x4_0000 + (bytes[1] as int - 0x80) * 0x1000
              + (bytes[2] as int - 0x80) * 0x40 + (bytes[3] as int - 0x80)
  }

  /** The shortest-form and range rules of section 4 of RFC 3629. */
  predicate ShortestForm(v: int, length: nat) {
    && IsScalar(v)
    && (length == 2 ==> v >= 0x80) && (length == 3 ==> v >= 0x800) && (length == 4 ==> v >= 0x1_0000)
  }

  function Decode(bytes: string): Option<seq<Scalar>> {
    if bytes == [] then Some([])
    else if !IsByte(bytes[0]) then None
    else
      var n := CharLength(bytes[0]);
      if n == 0 || n > |bytes| || exists i | 1 <= i < n :: !IsTail(bytes[i]) then None
      else
        var v := Spelled(bytes[..n]);
        if !ShortestForm(v, n) then None
        else
          match Decode(bytes[n..])
          case None => None
          case Some(rest) => Some([v] + rest)
  }

  lemma SpelledIsInverse(v: Scalar)
    ensures var e := EncodeScalar(v);
      (forall i | 1 <= i < |e| :: IsTail(e[i])) && Spelled(e) == v && ShortestForm(v, |e|)
  {
    assert IsScalar(v);
    var q := v / 0x40;
    assert v == q * 0x40 + v % 0x40;
    assert q == (q / 0x40) * 0x40 + q % 0x40;
    assert v / 0x1000 == q / 0x40 && v / 0x4_0000 == q / 0x40 / 0x40;
  }

  /** The base-64 digits of a number. */
  lemma Digits(a: nat, b: nat, c: nat, d: nat)
    requires b < 0x40 && c < 0x40 && d < 0x40
    ensures var v := a * 0x4_0000 + b * 0x1000 + c * 0x40 + d;
      v / 0x4_0000 == a && v / 0x1000 % 0x40 == b && v / 0x40 % 0x40 == c && v % 0x40 == d
  {
    var v := a * 0x4_0000 + b * 0x1000 + c * 0x40 + d;
    assert v / 0x40 == a * 0x1000 + b * 0x40 + c;
    assert v / 0x1000 == a * 0x40 + b;
  }

  lemma EncodeIsInverse(bytes: string)
    requires |bytes| > 0 && IsByte(bytes[0]) && |bytes| == CharLength(bytes[0])
    requires forall i | 1 <= i < |bytes| :: IsTail(bytes[i])
    requires ShortestForm(Spelled(bytes), |bytes|)
    ensures EncodeScalar(Spelled(bytes)) == bytes
  {
    var low := i requires 0 <= i < |bytes| => bytes[i] as int - 0x80;
    match |bytes|
    case 1 =>
    case 2 => Digits(0, 0, bytes[0] as int - 0xC0, low(1));
    case 3 => Digits(0, bytes[0] as int - 0xE0, low(1), low(2));
    case 4 => Digits(bytes[0] as int - 0xF0, low(1), low(2), low(3));
  }

  lemma {:induction false} EncodeOfDecode(bytes: string)
    requires Decode(bytes).Some?
    ensures Encode(Decode(bytes).value) == bytes
  {
    hide EncodeScalar, Spelled, ShortestForm;
    if bytes != [] {
      var n := CharLength(bytes[0]);
      EncodeIsInverse(bytes[..n]);
      EncodeOfDecode(bytes[n..]);
      var v, rest := Spelled(bytes[..n]), Decode(bytes[n..]).value;
      assert ([v] + rest)[1..] == rest;
    }
  }

  lemma {:induction false} DecodeOfEncode(scalars: seq<Scalar>)
    ensures Decode(Encode(scalars)) == Some(scalars)
  {
    if scalars != [] {
      var e, rest := EncodeScalar(scalars[0]), Encode(scalars[1..]);
      SpelledIsInverse(scalars[0]);
      DecodeOfEncode(scalars[1..]);
      assert (e + rest)[..|e|] == e && (e + rest)[|e|..] == rest;
      assert [scalars[0]] + scalars[1..] == scalars;
    }
  }

  /** Encoding and decoding are inverse: a byte string spells at most one scalar sequence. */
  lemma DecodeIffEncode(bytes: string, scalars: seq<Scalar>)
    ensures Decode(bytes) == Some(scalars) <==> bytes == Encode(scalars)
  {
    DecodeOfEncode(scalars);
    if Decode(bytes).Some? {
      EncodeOfDecode(bytes);
    }
  }

  // ----- walking a string one character at a time -----

  /**
   * From i on, no character that starts with a valid lead byte is cut short by the end of the string. Bytes
   * behind a lead are not inspected, and nothing is asked of what follows an invalid lead byte.
   */
  predicate Complete(s: string, i: nat := 0)
    requires i <= |s|
    decreases |s| - i
  {
    i == |s| || (IsByte(s[i]) &&
      var n := CharLength(s[i]);
      n == 0 || (i + n <= |s| && Complete(s, i + n)))
  }

  /** From i on, every lead byte is valid and every character complete. */
  predicate Clean(s: string, i: nat := 0)
    requires i <= |s|
    decreases |s| - i
  {
    i == |s| || (IsByte(s[i]) &&
      var n := CharLength(s[i]);
      n > 0 && i + n <= |s| && Clean(s, i + n))
  }

  datatype Stop = AtEnd | BadLead | Full
  datatype Walk = Walk(end: nat, stop: Stop)

  /** How far whole characters of s can be taken into size bytes with a NUL behind them, and what ends that. */
  function CharWalk(s: string, i: nat, size: nat): (w: Walk)
    requires i <= |s| && Complete(s, i) && i < size
    ensures i <= w.end <= |s| && w.end < size
    ensures w.stop.AtEnd? <==> w.end == |s|
    decreases |s| - i
  {
    if i == |s| then Walk(i, AtEnd)
    else
      var n := CharLength(s[i]);
      if n == 0 then Walk(i, BadLead)
      else if n + i >= size then Walk(i, Full)
      else CharWalk(s, i + n, size)
  }

  /** What a copy of s into size bytes keeps: a malformed lead byte met on the way discards everything. */
  function Kept(s: string, size: nat): (kept: string)
    requires Complete(s) && size > 0
    ensures |kept| < size && kept <= s
  {
    var w := CharWalk(s, 0, size);
    if w.stop.BadLead? then [] else s[..w.end]
  }

  function CopyStatus(s: string, size: nat): int
    requires Complete(s) && size > 0
  {
    if CharWalk(s, 0, size).stop.Full? then -1 else 0
  }

  /** A character of a C string, counting the NUL behind the last one. */
  function At(s: string, i: nat): char
    requires i <= |s|
  {
    if i == |s| then NUL else s[i]
  }

  /** Copies src to dest[start..start + size], at most size bytes, cutting between characters. */
  method Copy(dest: array<char>, start: nat, src: string, size: nat) returns (status: int, numBytes: nat)
    requires NUL !in src && Complete(src)
    requires size > 0 && start + size <= dest.Length
    modifies dest
    ensures status == CopyStatus(src, size) && numBytes == |Kept(src, size)|
    ensures dest[start..start + numBytes] == Kept(src, size) && dest[start + numBytes] == NUL
    ensures dest[..start] == old(dest[..start])
    ensures forall k | start + CharWalk(src, 0, size).end < k < dest.Length :: dest[k] == old(dest[k])
  {
    var i := 0;
    while At(src, i) != NUL
      invariant i <= |src| && i < size && Complete(src, i)
      invariant CharWalk(src, i, size) == CharWalk(src, 0, size)
      invariant forall k | start <= k < start + i :: dest[k] == src[k - start]
      invariant forall k | 0 <= k < start || start + i <= k < dest.Length :: dest[k] == old(dest[k])
      decreases |src| - i
    {
      var charLength := NumBytesInChar(src[i]);
      if charLength == 0 {
        dest[start] := NUL;
        return 0, 0;
      } else if charLength + i >= size {
        dest[start + i] := NUL;
        return -1, i;
      }
      i := CopyChar(dest, start, src, i, charLength);
    }
    dest[start + i] := NUL;
    assert dest[start..start + i] == src[..i];
    return 0, i;
  }

  /** The inner loop of a copy: the bytes of one character. */
  method CopyChar(dest: array<char>, start: nat, src: string, from: nat, length: nat) returns (i: nat)
    requires from + length <= |src| && start + from + length <= dest.Length
    modifies dest
    ensures i == from + length
    ensures forall k | start + from <= k < start + i :: dest[k] == src[k - start]
    ensures forall k | 0 <= k < start + from || start + i <= k < dest.Length :: dest[k] == old(dest[k])
  {
    i := from;
    var charLength := length;
    while charLength > 0
      invariant 0 <= charLength && from <= i && charLength + i == from + length
      invariant forall k | start + from <= k < start + i :: dest[k] == src[k - start]
      invariant forall k | 0 <= k < start + from || start + i <= k < dest.Length :: dest[k] == old(dest[k])
    {
      dest[start + i] := src[i];
      i, charLength := i + 1, charLength - 1;
    }
  }

  /** Appends src to the C string in dest, within the first size bytes. */
  method Append(dest: array<char>, src: string, size: nat) returns (status: int, destLen: nat)
    requires NUL !in src && Complete(src)
    requires 0 < size <= dest.Length && Terminated(dest[..size])
    modifies dest
    ensures Terminated(dest[..size])
    ensures var d := old(Text(dest[..size])); var room := size - |d|;
      && status == CopyStatus(src, room)
      && Text(dest[..size]) == d + Kept(src, room) && destLen == |d + Kept(src, room)|
      && forall k | |d| + CharWalk(src, 0, room).end < k < dest.Length :: dest[k] == old(dest[k])
  {
    hide Kept, CopyStatus, CharWalk, Complete;
    ghost var d := Text(dest[..size]);
    ghost var text := d + Kept(src, size - |d|);
    var length := StrLen(dest, size);
    assert dest[..length] == dest[..size][..length] == d;
    status, destLen := Copy(dest, length, src, size - length);
    destLen := destLen + length;
    assert dest[..size][..destLen] == dest[..length] + dest[length..destLen] == text;
    TextIs(dest[..size], text);
  }

  // ----- the walk over concatenations -----

  /** In d + s, a walk from behind d is the walk over s. */
  lemma {:induction false} WalkShift(d: string, s: string, i: nat, size: nat)
    requires i <= |s| && Complete(s, i) && |d| + i < size
    ensures Complete(d + s, |d| + i)
    ensures var w := CharWalk(s, i, size - |d|); CharWalk(d + s, |d| + i, size) == Walk(|d| + w.end, w.stop)
    decreases |s| - i
  {
    if i < |s| {
      var n := CharLength(s[i]);
      assert (d + s)[|d| + i] == s[i];
      if n > 0 {
        CompleteShift(d, s, i);
        if n + i < size - |d| {
          WalkShift(d, s, i + n, size);
        }
      }
    }
  }

  lemma {:induction false} CompleteShift(d: string, s: string, i: nat)
    requires i <= |s| && Complete(s, i)
    ensures Complete(d + s, |d| + i)
    decreases |s| - i
  {
    if i < |s| && CharLength(s[i]) > 0 {
      CompleteShift(d, s, i + CharLength(s[i]));
    }
  }

  /** A clean prefix that fits is passed over by the walk. */
  lemma {:induction false} WalkOverPrefix(d: string, i: nat, s: string, size: nat)
    requires i <= |d| && Clean(d, i) && Complete(s) && |d| < size
    ensures Complete(d + s, i)
    ensures var w := CharWalk(s, 0, size - |d|); CharWalk(d + s, i, size) == Walk(|d| + w.end, w.stop)
    decreases |d| - i
  {
    if i == |d| {
      WalkShift(d, s, 0, size);
    } else {
      WalkOverPrefix(d, i + CharLength(d[i]), s, size);
    }
  }

  lemma {:induction false} CleanConcat(d: string, i: nat, s: string, j: nat)
    requires i <= |d| && j <= |s| && Clean(d, i) && Clean(s, j) && (i < |d| ==> j == 0)
    ensures if i < |d| then Clean(d + s, i) else Clean(d + s, |d| + j)
    decreases |d| - i, |s| - j
  {
    if i < |d| {
      CleanConcat(d, i + CharLength(d[i]), s, 0);
    } else if j < |s| {
      CleanConcat(d, i, s, j + CharLength(s[j]));
    }
  }

  lemma {:induction false} CleanIsComplete(s: string, i: nat)
    requires i <= |s| && Clean(s, i)
    ensures Complete(s, i)
    decreases |s| - i
  {
    if i < |s| {
      CleanIsComplete(s, i + CharLength(s[i]));
    }
  }

  // ----- what a copy keeps -----

  lemma {:induction false} EncodeIsClean(scalars: seq<Scalar>)
    ensures Clean(Encode(scalars)) && Complete(Encode(scalars))
  {
    if scalars != [] {
      EncodeIsClean(scalars[1..]);
      var e := EncodeScalar(scalars[0]);
      assert Clean(e, |e|);
      CleanConcat(e, 0, Encode(scalars[1..]), 0);
    }
    CleanIsComplete(Encode(scalars), 0);
  }

  lemma EncodeSplitsFirst(scalars: seq<Scalar>, j: nat)
    requires 0 < j <= |scalars|
    ensures Encode(scalars[..j]) == EncodeScalar(scalars[0]) + Encode(scalars[1..][..j - 1])
  {
    assert scalars[..j][1..] == scalars[1..][..j - 1];
  }

  /**
   * A copy of encoded scalars keeps the longest scalar prefix that leaves space for the NUL, and reports
   * truncation exactly when that is not the whole source.
   */
  lemma {:induction false} CopyKeepsLongestScalarPrefix(scalars: seq<Scalar>, size: nat) returns (k: nat)
    requires size > 0
    ensures Complete(Encode(scalars))
    ensures k <= |scalars| && Kept(Encode(scalars), size) == Encode(scalars[..k])
    ensures |Encode(scalars[..k])| < size
    ensures forall j | k < j <= |scalars| :: |Encode(scalars[..j])| >= size
    ensures CopyStatus(Encode(scalars), size) == 0 <==> k == |scalars|
    ensures CopyStatus(Encode(scalars), size) == 0 <==> |Encode(scalars)| < size
  {
    EncodeIsClean(scalars);
    k := 0;
    if scalars != [] {
      var e := EncodeScalar(scalars[0]);
      EncodeIsClean(scalars[1..]);
      KeptOneChar(e, Encode(scalars[1..]), size);
      if |e| < size {
        var m := CopyKeepsLongestScalarPrefix(scalars[1..], size - |e|);
        k := m + 1;
        EncodeSplitsFirst(scalars, k);
      }
      forall j | k < j <= |scalars| ensures |Encode(scalars[..j])| >= size {
        EncodeSplitsFirst(scalars, j);
      }
    }
    assert scalars[..|scalars|] == scalars;
  }

  /** A copy of one character and the clean text behind it. */
  lemma KeptOneChar(e: string, rest: string, size: nat)
    requires |e| > 0 && IsByte(e[0]) && |e| == CharLength(e[0])
    requires Complete(rest) && Clean(rest) && Complete(e + rest) && size > 0
    ensures if |e| >= size then Kept(e + rest, size) == [] && CopyStatus(e + rest, size) == -1
      else
        && Kept(e + rest, size) == e + Kept(rest, size - |e|)
        && CopyStatus(e + rest, size) == CopyStatus(rest, size - |e|)
  {
    if |e| < size {
      WalkShift(e, rest, 0, size);
      WalkEnds(rest, 0, size - |e|);
    }
  }

  /** The truncated bytes are well-formed UTF-8 again, and decode to a prefix of the scalars. */
  lemma CopyDecodesToPrefix(scalars: seq<Scalar>, size: nat) returns (k: nat)
    requires size > 0
    ensures Complete(Encode(scalars)) && k <= |scalars|
    ensures Decode(Kept(Encode(scalars), size)) == Some(scalars[..k])
  {
    k := CopyKeepsLongestScalarPrefix(scalars, size);
    DecodeIffEncode(Kept(Encode(scalars), size), scalars[..k]);
  }

  lemma {:induction false} WalkEnds(s: string, i: nat, size: nat)
    requires i <= |s| && Complete(s, i) && i < size
    ensures CharWalk(s, i, size).stop.AtEnd? <==> Clean(s, i) && |s| < size
    ensures Clean(s, i) ==> !CharWalk(s, i, size).stop.BadLead?
    decreases |s| - i
  {
    if i < |s| {
      var n := CharLength(s[i]);
      if 0 < n && n + i < size {
        WalkEnds(s, i + n, size);
      }
    }
  }

  /** Going from one character to the next, i is where one starts. */
  predicate IsStart(s: string, from: nat, i: nat)
    requires from <= |s|
    decreases |s| - from
  {
    from == i ||
    (from < |s| && IsByte(s[from]) && CharLength(s[from]) > 0 && from + CharLength(s[from]) <= |s|
     && IsStart(s, from + CharLength(s[from]), i))
  }

  predicate IsInvalidLead(s: string, from: nat, i: nat)
    requires from <= |s|
  {
    from <= i < |s| && IsStart(s, from, i) && IsByte(s[i]) && CharLength(s[i]) == 0
  }

  /** Among the first size bytes a byte stands where a character should start, and starts none. */
  predicate HasInvalidLead(s: string, size: nat) {
    exists i | 0 <= i < size :: IsInvalidLead(s, 0, i)
  }

  lemma {:induction false} WalkMeetsInvalidLead(s: string, i: nat, size: nat)
    requires i <= |s| && Complete(s, i) && i < size
    ensures CharWalk(s, i, size).stop.BadLead? <==> exists j | i <= j < size :: IsInvalidLead(s, i, j)
    decreases |s| - i
  {
    if i < |s| {
      var n := CharLength(s[i]);
      if n == 0 {
        assert IsInvalidLead(s, i, i);
      } else {
        var next := i + n;
        forall j: nat ensures IsInvalidLead(s, i, j) <==> IsInvalidLead(s, next, j) {
          NextStart(s, i, j);
        }
        if next < size {
          WalkMeetsInvalidLead(s, next, size);
          assert forall j | next <= j < size && IsInvalidLead(s, next, j) :: IsInvalidLead(s, i, j);
        }
        assert forall j | i <= j < size && IsInvalidLead(s, i, j) :: IsInvalidLead(s, next, j);
      }
    }
  }

  /** Behind a character the starts are the same, and none is inside it. */
  lemma NextStart(s: string, i: nat, j: nat)
    requires i < |s| && IsByte(s[i]) && CharLength(s[i]) > 0 && i + CharLength(s[i]) <= |s|
    ensures IsInvalidLead(s, i, j) <==> IsInvalidLead(s, i + CharLength(s[i]), j)
  {
    if i < j && IsStart(s, i, j) {
      StartsAscend(s, i + CharLength(s[i]), j);
    }
  }

  lemma {:induction false} StartsAscend(s: string, from: nat, i: nat)
    requires from <= |s| && IsStart(s, from, i)
    ensures from <= i
    decreases |s| - from
  {
    if from != i {
      StartsAscend(s, from + CharLength(s[from]), i);
    }
  }

  /** A source without invalid lead bytes anywhere is a clean one. */
  lemma CleanIffNoInvalidLead(s: string, i: nat)
    requires i <= |s| && Complete(s, i)
    ensures Clean(s, i) <==> forall j :: i <= j < |s| ==> !IsInvalidLead(s, i, j)
  {
    WalkMeetsInvalidLead(s, i, |s| + 1);
    WalkEnds(s, i, |s| + 1);
    NeverFull(s, i, |s| + 1);
  }

  /** A source shorter than the buffer never runs out of room. */
  lemma {:induction false} NeverFull(s: string, i: nat, size: nat)
    requires i <= |s| < size && Complete(s, i)
    ensures !CharWalk(s, i, size).stop.Full?
    decreases |s| - i
  {
    if i < |s| && CharLength(s[i]) > 0 {
      NeverFull(s, i + CharLength(s[i]), size);
    }
  }

  /**
   * When a copy stores the source whole: exactly when the source is clean and shorter than the buffer. A return of 0 is
   * weaker: it is also given, with nothing stored, when an invalid lead byte stands among the bytes that would fit. So a
   * return of 0 means a complete copy exactly for clean sources.
   */
  lemma WholeIff(s: string, size: nat)
    requires Complete(s) && size > 0
    ensures Kept(s, size) == s <==> Clean(s) && |s| < size
    ensures CopyStatus(s, size) == 0 <==> (Clean(s) && |s| < size) || HasInvalidLead(s, size)
    ensures CopyStatus(s, size) == 0 ==> Kept(s, size) == if Clean(s) then s else ""
  {
    WalkEnds(s, 0, size);
    WalkMeetsInvalidLead(s, 0, size);
  }

  /** A return of 0 without a complete copy: the documented meaning of 0 fails on this source. */
  lemma ZeroWithoutCopy()
    ensures var s := ['a', 0xFF as char]; Complete(s) && CopyStatus(s, 10) == 0 && Kept(s, 10) == []
  {
    var s := ['a', 0xFF as char];
    assert Complete(s, 1) && CharWalk(s, 1, 10) == Walk(1, BadLead);
  }

  // ----- what appending keeps -----

  /** Appending to d what fits equals cutting d + s, unless an invalid lead byte is within the room left: then d stays. */
  lemma AppendLaw(d: string, s: string, size: nat)
    requires Clean(d) && Complete(s) && |d| < size
    ensures Complete(d + s)
    ensures d + Kept(s, size - |d|) ==
      (if HasInvalidLead(s, size - |d|) then d else Kept(d + s, size))
    ensures CopyStatus(s, size - |d|) == CopyStatus(d + s, size)
  {
    WalkOverPrefix(d, 0, s, size);
    WalkMeetsInvalidLead(s, 0, size - |d|);
  }

  /** The buffer after appending every part in turn, and whether every append returned 0. */
  function AppendAll(d: string, parts: seq<string>, size: nat): (string, bool)
    requires |d| < size && forall p | p in parts :: Complete(p)
    decreases |parts|
  {
    if parts == [] then (d, true)
    else
      var (text, ok) := AppendAll(d + Kept(parts[0], size - |d|), parts[1..], size);
      (text, ok && CopyStatus(parts[0], size - |d|) == 0)
  }

  /** One append: a clean part is added whole or reported; one that is not clean, if 0 is returned, not at all. */
  lemma AppendOne(d: string, p: string, size: nat)
    requires |d| < size && Clean(d) && Complete(p)
    ensures Clean(p) ==> (CopyStatus(p, size - |d|) == 0 <==> |d + p| < size)
    ensures CopyStatus(p, size - |d|) == 0 ==> Kept(p, size - |d|) == if Clean(p) then p else ""
    ensures Clean(p) ==> Clean(d + p)
  {
    WholeIff(p, size - |d|);
    WalkEnds(p, 0, size - |d|);
    if Clean(p) {
      CleanConcat(d, 0, p, 0);
    }
  }

  /** The parts that a chain of appends does not drop. */
  function CleanParts(parts: seq<string>): seq<string> {
    if parts == [] then [] else (if Clean(parts[0]) then [parts[0]] else []) + CleanParts(parts[1..])
  }

  /**
   * If every append of a chain returns 0, the buffer holds the concatenation of the clean parts. So it holds the plain
   * concatenation exactly if all parts are clean; and then 0 is always returned exactly if everything fits.
   */
  lemma AppendChain(d: string, parts: seq<string>, size: nat)
    requires |d| < size && Clean(d) && forall p | p in parts :: Complete(p)
    ensures AppendAll(d, parts, size).1 ==> AppendAll(d, parts, size).0 == d + Concat(CleanParts(parts))
    ensures AppendAll(d, parts, size).1 ==>
      (AppendAll(d, parts, size).0 == d + Concat(parts) <==> forall p | p in parts :: Clean(p))
    ensures (forall p | p in parts :: Clean(p)) ==> (AppendAll(d, parts, size).1 <==> |d + Concat(parts)| < size)
  {
    hide AppendAll, Concat, CleanParts, Clean, Complete;
    CleanPartsAreAllIff(parts);
    ChainText(d, parts, size);
    if forall p | p in parts :: Clean(p) {
      ChainFits(d, parts, size);
    }
  }

  lemma {:induction false} ChainText(d: string, parts: seq<string>, size: nat)
    requires |d| < size && Clean(d) && forall p | p in parts :: Complete(p)
    ensures AppendAll(d, parts, size).1 ==> AppendAll(d, parts, size).0 == d + Concat(CleanParts(parts))
    decreases |parts|
  {
    hide Kept, CopyStatus, Clean, Complete;
    if parts == [] {
      assert d + Concat(CleanParts(parts)) == d;
    } else {
      var p, rest := parts[0], parts[1..];
      var text := d + Kept(p, size - |d|);
      AppendOne(d, p, size);
      if CopyStatus(p, size - |d|) == 0 {
        assert text == if Clean(p) then d + p else d;
        ChainText(text, rest, size);
        AppendedBehind(d, p, rest, text);
        assert [p] + rest == parts;
      }
    }
  }

  lemma {:induction false} ChainFits(d: string, parts: seq<string>, size: nat)
    requires |d| < size && Clean(d) && forall p | p in parts :: Complete(p) && Clean(p)
    ensures AppendAll(d, parts, size).1 <==> |d + Concat(parts)| < size
    decreases |parts|
  {
    hide Kept, CopyStatus, Clean, Complete;
    if parts == [] {
      assert d + Concat(parts) == d;
    } else {
      var p, rest := parts[0], parts[1..];
      AppendOne(d, p, size);
      assert d + (p + Concat(rest)) == (d + p) + Concat(rest);
      if |d + p| < size {
        ChainFits(d + p, rest, size);
      }
    }
  }

  /** The clean parts in front of an append, and behind it. */
  lemma AppendedBehind(d: string, p: string, rest: seq<string>, text: string)
    requires text == d + if Clean(p) then p else ""
    ensures text + Concat(CleanParts(rest)) == d + Concat(CleanParts([p] + rest))
  {
    assert ([p] + rest)[1..] == rest;
    if Clean(p) {
      assert ([p] + CleanParts(rest))[1..] == CleanParts(rest);
      assert d + (p + Concat(CleanParts(rest))) == (d + p) + Concat(CleanParts(rest));
    } else {
      assert [] + CleanParts(rest) == CleanParts(rest);
      assert d + "" == d;
    }
  }

  /** Parts that are not clean are not empty, so dropping one shortens the concatenation. */
  lemma {:induction false} CleanPartsAreAllIff(parts: seq<string>)
    ensures |Concat(CleanParts(parts))| <= |Concat(parts)|
    ensures (forall p | p in parts :: Clean(p)) <==> |Concat(CleanParts(parts))| == |Concat(parts)|
    ensures (forall p | p in parts :: Clean(p)) ==> CleanParts(parts) == parts
  {
    if parts != [] {
      var p, rest := parts[0], parts[1..];
      CleanPartsAreAllIff(rest);
      assert parts == [p] + rest;
      if Clean(p) {
        assert ([p] + CleanParts(rest))[1..] == CleanParts(rest);
      } else {
        assert [] + CleanParts(rest) == CleanParts(rest);
        assert p in parts;
      }
    }
  }
}
