/** Hex strings as the TypeScript SDK handles them. */
module Hex {
  import opened Bytes

  predicate IsHexDigit(c: char) { '0' <= c <= '9' || 'a' <= c <= 'f' || 'A' <= c <= 'F' }

  function DigitValue(c: char): (d: nat)
    requires IsHexDigit(c)
    ensures d < 16
  {
    if '0' <= c <= '9' then c as int - '0' as int
    else if 'a' <= c <= 'f' then c as int - 'a' as int + 10
    else c as int - 'A' as int + 10
  }

  function Digit(d: nat): (c: char)
    requires d < 16
    ensures IsHexDigit(c) && DigitValue(c) == d
  {
    if d < 10 then ('0' as int + d) as char else ('a' as int + d - 10) as char
  }

  /** The sixteen digits in order, in either case. */
  lemma DigitTable(d: nat)
    requires d < 16
    ensures var lower, upper := "0123456789abcdef"[d], "0123456789ABCDEF"[d];
      && IsHexDigit(lower) && IsHexDigit(upper) && DigitValue(lower) == DigitValue(upper) == d
      && Digit(d) == lower
  {
  }

  function LowerChar(c: char): char {
    if 'A' <= c <= 'Z' then (c as int - 'A' as int + 'a' as int) as char else c
  }

  function Lower(s: string): (l: string)
    ensures |l| == |s|
  {
    seq(|s|, i requires 0 <= i < |s| => LowerChar(s[i]))
  }

  predicate AllHex(s: string) { forall i :: 0 <= i < |s| ==> IsHexDigit(s[i]) }

  /** Lower-casing changes neither which characters are digits nor their values. */
  lemma LowerKeepsDigits(c: char)
    ensures IsHexDigit(LowerChar(c)) <==> IsHexDigit(c)
    ensures IsHexDigit(c) ==> DigitValue(LowerChar(c)) == DigitValue(c)
  {
  }

  /** An odd number of digits gets a leading zero. */
  function PadEven(digits: string): (p: string)
    ensures |p| % 2 == 0
  {
    if |digits| % 2 == 1 then "0" + digits else digits
  }

  function PairBytes(digits: string): (b: bytes)
    requires |digits| % 2 == 0 && AllHex(digits)
    ensures |b| == |digits| / 2
  {
    seq(|digits| / 2, i requires 0 <= i < |digits| / 2 =>
      16 * DigitValue(digits[2 * i]) + DigitValue(digits[2 * i + 1]))
  }

  /** `hex.slice(2)`: nothing is left of a shorter string. */
  function AfterPrefix(hex: string): string { hex[Min(2, |hex|)..] }

  /** The bytes behind the two prefix characters, which are not looked at, or nothing
      if they are not hex. */
  function ToBytes(hex: string): Option<bytes> {
    var digits := PadEven(AfterPrefix(hex));
    if AllHex(digits) then Some(PairBytes(digits)) else None
  }

  lemma SamePairBytes(a: string, b: string)
    requires |a| == |b| && |a| % 2 == 0 && AllHex(a) && AllHex(b)
    requires forall i :: 0 <= i < |a| ==> DigitValue(a[i]) == DigitValue(b[i])
    ensures PairBytes(a) == PairBytes(b)
  {
    hide IsHexDigit, DigitValue;
    forall i | 0 <= i < |a| / 2
      ensures PairBytes(a)[i] == PairBytes(b)[i]
    {
      assert DigitValue(a[2 * i]) == DigitValue(b[2 * i]) && DigitValue(a[2 * i + 1]) == DigitValue(b[2 * i + 1]);
    }
  }

  lemma PadEvenOfLower(s: string)
    ensures PadEven(Lower(s)) == Lower(PadEven(s))
  {
    if |s| % 2 == 1 {
      LowerZero(s);
    }
  }

  lemma LowerZero(s: string)
    ensures Lower("0" + s) == "0" + Lower(s)
  {
    assert LowerChar('0') == '0';
    hide LowerChar;
    forall i | 0 <= i < |s| + 1
      ensures Lower("0" + s)[i] == ("0" + Lower(s))[i]
    {
    }
  }

  lemma ToBytesOfLower(hex: string)
    ensures ToBytes(Lower(hex)) == ToBytes(hex)
  {
    var b := PadEven(AfterPrefix(hex));
    assert AfterPrefix(Lower(hex)) == Lower(AfterPrefix(hex));
    PadEvenOfLower(AfterPrefix(hex));
    hide IsHexDigit, DigitValue, LowerChar, PadEven, PairBytes, AfterPrefix;
    forall i | 0 <= i < |b|
      ensures IsHexDigit(Lower(b)[i]) <==> IsHexDigit(b[i])
      ensures IsHexDigit(b[i]) ==> DigitValue(Lower(b)[i]) == DigitValue(b[i])
    {
      LowerKeepsDigits(b[i]);
    }
    assert AllHex(b) <==> AllHex(Lower(b));
    if AllHex(b) {
      SamePairBytes(Lower(b), b);
    }
  }

  /** `n.toString(16)` */
  function Digits(n: nat): (s: string)
    ensures s != [] && AllHex(s)
  {
    if n < 16 then [Digit(n)] else Digits(n / 16) + [Digit(n % 16)]
  }

  lemma PairBytesSnoc(p: string, a: char, b: char)
    requires |p| % 2 == 0 && AllHex(p) && IsHexDigit(a) && IsHexDigit(b)
    ensures AllHex(p + [a, b])
    ensures PairBytes(p + [a, b]) == PairBytes(p) + [16 * DigitValue(a) + DigitValue(b)]
  {
    var q := p + [a, b];
    assert |q| / 2 == |p| / 2 + 1;
    assert forall i :: 0 <= i < |p| / 2 ==> q[2 * i] == p[2 * i] && q[2 * i + 1] == p[2 * i + 1];
  }

  lemma TwoDigits(n: nat)
    ensures n / 16 / 16 == n / 256 && 16 * (n / 16 % 16) + n % 16 == n % 256
  {
  }

  lemma DigitsStep(n: nat)
    requires n >= 256
    ensures PadEven(Digits(n)) == PadEven(Digits(n / 256)) + [Digit(n / 16 % 16), Digit(n % 16)]
  {
    TwoDigits(n);
    PadEvenSnoc(Digits(n / 256), Digit(n / 16 % 16), Digit(n % 16));
    assert Digits(n) == Digits(n / 16) + [Digit(n % 16)] == Digits(n / 256) + [Digit(n / 16 % 16)] + [Digit(n % 16)];
  }

  lemma PadEvenSnoc(p: string, a: char, b: char)
    ensures PadEven(p + [a] + [b]) == PadEven(p) + [a, b]
  {
  }

  lemma OneByte(n: nat)
    requires 0 < n < 256
    ensures PairBytes(PadEven(Digits(n))) == [n] == Minimal(n)
  {
    ShortDigits(n);
    assert Minimal(n) == Minimal(0) + [n];
    hide Digits, PadEven, PairBytes, DigitValue, Digit, Minimal;
    PairBytesOfTwo(Digit(n / 16), Digit(n % 16));
  }

  lemma ShortDigits(n: nat)
    requires 0 < n < 256
    ensures PadEven(Digits(n)) == [Digit(n / 16), Digit(n % 16)]
  {
    hide PairBytes;
    if n < 16 {
      assert Digits(n) == [Digit(n)];
      assert Digit(0) == '0';
    } else {
      assert Digits(n) == [Digit(n / 16)] + [Digit(n % 16)];
    }
  }

  lemma PairBytesOfTwo(a: char, b: char)
    requires IsHexDigit(a) && IsHexDigit(b)
    ensures AllHex([a, b]) && PairBytes([a, b]) == [16 * DigitValue(a) + DigitValue(b)]
  {
    hide IsHexDigit, DigitValue;
    assert |[a, b]| / 2 == 1;
  }

  /** The padded digits of a positive number spell its minimal big-endian bytes. */
  lemma {:induction false} DigitsAreMinimal(n: nat)
    requires n > 0
    ensures PairBytes(PadEven(Digits(n))) == Minimal(n)
  {
    if n < 256 {
      OneByte(n);
    } else {
      assert Minimal(n) == Minimal(n / 256) + [n % 256];
      hide Digits, PadEven, PairBytes, DigitValue, Digit, Minimal, IsHexDigit;
      TwoDigits(n);
      DigitsStep(n);
      DigitsAreMinimal(n / 256);
      PairBytesSnoc(PadEven(Digits(n / 256)), Digit(n / 16 % 16), Digit(n % 16));
    }
  }

  /** The number a 0x-prefixed string stands for: `BigInt(hex)`. */
  function ToNumber(hex: string): Option<nat> {
    if |hex| <= 2 || hex[..2] != "0x" || !AllHex(hex[2..]) then None
    else Some(DigitsValue(hex[2..]))
  }

  function DigitsValue(digits: string): nat
    requires AllHex(digits)
  {
    if digits == [] then 0
    else 16 * DigitsValue(digits[..|digits| - 1]) + DigitValue(digits[|digits| - 1])
  }

  lemma {:induction false} LeadingZero(digits: string)
    requires AllHex(digits)
    ensures AllHex("0" + digits) && DigitsValue("0" + digits) == DigitsValue(digits)
  {
    if digits == [] {
      assert "0" + digits == "0" && "0"[..0] == [];
    } else {
      LeadingZero(digits[..|digits| - 1]);
      assert ("0" + digits)[..|digits|] == "0" + digits[..|digits| - 1];
    }
  }

  /** Digits read as a number are their bytes read as a number. */
  lemma {:induction false} EvenDigitsValue(digits: string)
    requires |digits| % 2 == 0 && AllHex(digits)
    ensures DigitsValue(digits) == Value(PairBytes(digits))
  {
    if digits != [] {
      var n := |digits| - 2;
      var front, a, b := digits[..n], digits[n], digits[n + 1];
      hide DigitsValue, PairBytes, DigitValue, Value, IsHexDigit;
      assert digits == front + [a, b];
      EvenDigitsValue(front);
      PairBytesSnoc(front, a, b);
      DigitsValueSnoc(front, a, b);
      ValueSnoc(PairBytes(front), 16 * DigitValue(a) + DigitValue(b));
    }
  }

  lemma DigitsValueSnoc(front: string, a: char, b: char)
    requires AllHex(front) && IsHexDigit(a) && IsHexDigit(b)
    ensures AllHex(front + [a, b])
    ensures DigitsValue(front + [a, b]) == 256 * DigitsValue(front) + 16 * DigitValue(a) + DigitValue(b)
  {
    hide DigitValue, IsHexDigit;
    var digits, n := front + [a, b], |front|;
    assert digits[..n + 1] == front + [a] && (front + [a])[..n] == front;
    assert DigitsValue(front + [a]) == 16 * DigitsValue(front) + DigitValue(a);
  }

  lemma ValueSnoc(s: bytes, b: byte)
    ensures Value(s + [b]) == 256 * Value(s) + b
  {
    assert (s + [b])[..|s|] == s;
  }

  /** The number a hex string stands for is the big-endian value of the bytes it spells. */
  lemma NumberIsValue(hex: string)
    requires ToNumber(hex).Some?
    ensures ToBytes(hex).Some? && ToNumber(hex).value == Value(ToBytes(hex).value)
  {
    var digits := hex[2..];
    assert AfterPrefix(hex) == digits;
    LeadingZero(digits);
    EvenDigitsValue(PadEven(digits));
  }

  lemma {:induction false} ValueOfDigits(n: nat)
    ensures DigitsValue(Digits(n)) == n
  {
    if n >= 16 {
      ValueOfDigits(n / 16);
      assert Digits(n)[..|Digits(n)| - 1] == Digits(n / 16);
    }
  }

  /** A number written in hex is read back. */
  lemma NumberOfDigits(n: nat)
    ensures ToNumber("0x" + Digits(n)) == Some(n)
  {
    ValueOfDigits(n);
    var hex := "0x" + Digits(n);
    assert hex[..2] == "0x" && hex[2..] == Digits(n);
  }
}
