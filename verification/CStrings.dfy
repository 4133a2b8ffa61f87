/** NUL-terminated strings in fixed-size buffers, and the decimal text that printf writes for "%d". */
module CStrings {

  datatype Option<+T> = None | Some(value: T)

  const NUL: char := '\0'

  ghost predicate Terminated(buffer: seq<char>) {
    NUL in buffer
  }

  /** The first NUL at or behind position i. */
  ghost function FirstNul(buffer: seq<char>, i: nat): (n: nat)
    requires i <= |buffer| && NUL in buffer[i..]
    ensures i <= n < |buffer| && buffer[n] == NUL && forall k | i <= k < n :: buffer[k] != NUL
    decreases |buffer| - i
  {
    if buffer[i] == NUL then i else FirstNul(buffer, i + 1)
  }

  /** The C string a buffer holds: everything before its first NUL. */
  ghost function Text(buffer: seq<char>): (text: string)
    requires Terminated(buffer)
    ensures NUL !in text
    ensures |text| < |buffer| && buffer[..|text|] == text && buffer[|text|] == NUL
  {
    assert buffer[0..] == buffer;
    buffer[..FirstNul(buffer, 0)]
  }

  /** Text is determined by its characters and the NUL behind them. */
  lemma TextIs(buffer: seq<char>, text: string)
    requires NUL !in text && |text| < |buffer|
    requires buffer[..|text|] == text && buffer[|text|] == NUL
    ensures Terminated(buffer) && Text(buffer) == text
  {
    var other := Text(buffer);
    assert forall k | 0 <= k < |text| :: buffer[..|text|][k] == buffer[k] != NUL;
    assert forall k | 0 <= k < |other| :: buffer[..|other|][k] == buffer[k] != NUL;
  }

  /** strlen of the C string at the start of a buffer. */
  method StrLen(buffer: array<char>, size: nat) returns (length: nat)
    requires size <= buffer.Length && Terminated(buffer[..size])
    ensures length == |Text(buffer[..size])|
  {
    ghost var text := Text(buffer[..size]);
    assert forall k | 0 <= k < |text| :: buffer[..size][..|text|][k] == buffer[k] != NUL;
    length := 0;
    while buffer[length] != NUL
      invariant length <= |text| < size
      decreases size - length
    {
      length := length + 1;
    }
  }

  function Concat(parts: seq<string>): string {
    if parts == [] then [] else parts[0] + Concat(parts[1..])
  }

  // ----- decimal text -----

  predicate IsDigit(c: char) {
    '0' <= c <= '9'
  }

  function DigitOf(c: char): nat
    requires IsDigit(c)
  {
    c as int - '0' as int
  }

  function NatText(n: nat): (text: string)
    ensures 1 <= |text| && forall c | c in text :: IsDigit(c)
  {
    if n < 10 then ['0' + n as char] else NatText(n / 10) + ['0' + (n % 10) as char]
  }

  /** The value of a run of digits, most significant first. */
  function Value(digits: string): nat
    requires forall c | c in digits :: IsDigit(c)
  {
    if digits == [] then 0 else 10 * Value(digits[..|digits| - 1]) + DigitOf(digits[|digits| - 1])
  }

  lemma {:induction false} ValueOfNatText(n: nat)
    ensures Value(NatText(n)) == n
    ensures |NatText(n)| > 1 ==> NatText(n)[0] != '0'
  {
    if n >= 10 {
      ValueOfNatText(n / 10);
      assert NatText(n)[..|NatText(n)| - 1] == NatText(n / 10);
      if n / 10 < 10 {
        assert NatText(n)[0] == '0' + (n / 10) as char;
      } else {
        assert NatText(n)[0] == NatText(n / 10)[0];
      }
    }
  }

  /** What printf writes for "%d" when it is given an unsigned 32-bit word. */
  function SignedText(word: nat): string
    requires word < 0x1_0000_0000
  {
    if word < 0x8000_0000 then NatText(word) else "-" + NatText(0x1_0000_0000 - word)
  }

  function Power10(k: nat): nat {
    if k == 0 then 1 else 10 * Power10(k - 1)
  }

  lemma {:induction false} NatTextLength(n: nat, digits: nat)
    requires 1 <= digits && n < Power10(digits)
    ensures |NatText(n)| <= digits
  {
    if n >= 10 {
      NatTextLength(n / 10, digits - 1);
    }
  }
}
