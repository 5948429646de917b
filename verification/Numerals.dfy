/** The printers of numbers: u64_to_dec and u64_to_hex of the kernel, utoa_base and itoa_signed of userspace. */
module Numerals {
  import opened Prelude
  import CF = CpioFormat

  const DIGITS: string := "0123456789abcdef"

  // ---- Positional notation ----

  lemma QuotientLess(v: nat, b: nat)
    requires v > 0 && b >= 2
    ensures v / b < v
  {
    if v / b >= v {
      assert v == b * (v / b) + v % b;
      assert b * (v / b) >= b * v by { MulMono(v, v / b, b); }
      assert false;
    }
  }

  lemma MulMono(x: nat, y: nat, b: nat)
    requires x <= y
    ensures b * x <= b * y
  {
  }

  // The digits of v, the most significant first; none for 0.
  function Positional(v: nat, b: nat): (s: string)
    requires 2 <= b <= 16
    decreases v
  {
    if v == 0 then []
    else
      QuotientLess(v, b);
      Positional(v / b, b) + [DIGITS[v % b]]
  }

  function Numeral(v: nat, b: nat): string
    requires 2 <= b <= 16
  {
    if v == 0 then "0" else Positional(v, b)
  }

  function DigitValue(c: char): (d: nat)
  {
    if 'a' <= c then c as int - 'a' as int + 10 else if '0' <= c then c as int - '0' as int else 0
  }

  lemma DigitValueOf(d: nat)
    requires d < 16
    ensures DigitValue(DIGITS[d]) == d && (DIGITS[d] == '0' <==> d == 0)
  {
  }

  function Parse(s: string, b: nat): nat {
    if s == [] then 0 else Parse(s[..|s| - 1], b) * b + DigitValue(s[|s| - 1])
  }

  lemma Divided(v: nat, b: nat)
    requires b > 0
    ensures v / b * b + v % b == v
  {
  }

  lemma {:induction false} ParsePositional(v: nat, b: nat)
    requires 2 <= b <= 16
    ensures Parse(Positional(v, b), b) == v
    decreases v
  {
    if v > 0 {
      QuotientLess(v, b);
      ParsePositional(v / b, b);
      ParseOneMore(Positional(v / b, b), v % b, b);
      Divided(v, b);
    }
  }

  lemma ParseOneMore(s: string, d: nat, b: nat)
    requires d < 16
    ensures Parse(s + [DIGITS[d]], b) == Parse(s, b) * b + d
  {
    DigitValueOf(d);
    assert (s + [DIGITS[d]])[..|s|] == s;
  }

  // Reading a printed number gives it back, and no number is printed with a leading zero but 0.
  lemma ParseInvertsNumeral(v: nat, b: nat)
    requires 2 <= b <= 16
    ensures Parse(Numeral(v, b), b) == v
    ensures Numeral(v, b) != [] && (Numeral(v, b)[0] == '0' <==> v == 0)
  {
    ParsePositional(v, b);
    if v == 0 {
      assert Parse("0"[..0], b) == 0;
    } else {
      NoLeadingZero(v, b);
    }
  }

  lemma {:induction false} NoLeadingZero(v: nat, b: nat)
    requires 2 <= b <= 16 && v > 0
    ensures Positional(v, b) != [] && Positional(v, b)[0] != '0'
    decreases v
  {
    QuotientLess(v, b);
    DigitValueOf(v % b);
    if v / b > 0 {
      NoLeadingZero(v / b, b);
    } else {
      assert v % b == v by { assert v == b * (v / b) + v % b; }
    }
  }

  // ---- How many digits ----

  lemma QuotientBound(v: nat, b: nat, m: nat)
    requires b >= 2
    ensures v / b < m <==> v < b * m
  {
    assert v == b * (v / b) + v % b;
    if v / b < m {
      MulMono(v / b + 1, m, b);
      assert b * (v / b + 1) == b * (v / b) + b;
    } else {
      MulMono(m, v / b, b);
    }
  }

  // v has at most n digits exactly when it is less than b^n.
  lemma {:induction false} DigitCount(v: nat, b: nat, n: nat)
    requires 2 <= b <= 16
    ensures |Positional(v, b)| <= n <==> v < Power(b, n)
    decreases n
  {
    if v > 0 {
      QuotientLess(v, b);
      if n > 0 {
        QuotientBound(v, b, Power(b, n - 1));
        DigitCount(v / b, b, n - 1);
      }
    } else {
      PowerPositive(b, n);
    }
  }

  lemma {:induction false} PowerPositive(b: nat, n: nat)
    requires b > 0
    ensures Power(b, n) > 0
  {
    if n > 0 {
      PowerPositive(b, n - 1);
    }
  }

  lemma {:induction false} PowerMono(b: nat, c: nat, n: nat)
    requires b <= c
    ensures Power(b, n) <= Power(c, n)
  {
    if n > 0 {
      PowerMono(b, c, n - 1);
      MulMono(Power(b, n - 1), Power(c, n - 1), b);
      assert b * Power(c, n - 1) <= c * Power(c, n - 1);
    }
  }

  lemma {:induction false} PowerAdds(b: nat, m: nat, n: nat)
    ensures Power(b, m + n) == Power(b, m) * Power(b, n)
  {
    if m > 0 {
      PowerAdds(b, m - 1, n);
      assert b * (Power(b, m - 1) * Power(b, n)) == b * Power(b, m - 1) * Power(b, n);
    }
  }

  lemma FourToThe32()
    ensures Power(4, 32) == TWO_64
  {
    PowerAdds(4, 4, 4);
    PowerAdds(4, 8, 8);
    PowerAdds(4, 16, 16);
  }

  lemma TenToThe20()
    ensures Power(10, 20) > TWO_64
  {
    PowerAdds(10, 5, 5);
    PowerAdds(10, 10, 10);
  }

  // A 64-bit number fits the 32 slots of utoa_base in every base from 4 on.
  lemma FitsFromBaseFour(v: nat, b: nat)
    requires v < TWO_64 && 4 <= b <= 16
    ensures |Positional(v, b)| <= 32
  {
    FourToThe32();
    PowerMono(4, b, 32);
    DigitCount(v, b, 32);
  }

  // In bases 2 and 3 exactly the numbers below 2^32 and 3^32 fit.
  lemma FitsBelow(v: nat, b: nat)
    requires v < TWO_64 && 2 <= b <= 3
    ensures |Positional(v, b)| <= 32 <==> v < Power(b, 32)
    ensures Power(2, 32) == 0x1_0000_0000 && Power(3, 32) == 1853020188851841
  {
    DigitCount(v, b, 32);
    TwoToThe32();
    ThreeToThe32();
  }

  lemma TwoToThe32()
    ensures Power(2, 32) == 0x1_0000_0000
  {
    PowerAdds(2, 8, 8);
    PowerAdds(2, 16, 16);
  }

  lemma ThreeToThe32()
    ensures Power(3, 32) == 1853020188851841
  {
    PowerAdds(3, 8, 8);
    PowerAdds(3, 16, 16);
  }

  // A 64-bit number has at most 20 decimal digits, so the guard of u64_to_dec never stops the loop.
  lemma TwentyDigits(v: nat)
    requires v < TWO_64
    ensures |Positional(v, 10)| <= 20
  {
    TenToThe20();
    DigitCount(v, 10, 20);
  }

  // ---- The code ----

  function Reversed(s: string): (r: string)
    ensures |r| == |s| && forall i :: 0 <= i < |s| ==> r[i] == s[|s| - 1 - i]
  {
    seq(|s|, i requires 0 <= i < |s| => s[|s| - 1 - i])
  }

  // One digit more in the temporary buffer.
  lemma PeelDigit(v: nat, b: nat, all: string, done: string)
    requires 2 <= b <= 16 && v > 0 && all == Positional(v, b) + Reversed(done)
    ensures all == Positional(v / b, b) + Reversed(done + [DIGITS[v % b]])
  {
    assert Reversed(done + [DIGITS[v % b]]) == [DIGITS[v % b]] + Reversed(done);
  }

  // The digits of value, in reverse, in the temporary buffer.
  method Peel(value: nat, b: nat, tmp: array<char>) returns (idx: nat)
    requires 2 <= b <= 16 && |Positional(value, b)| <= tmp.Length
    modifies tmp
    ensures idx == |Positional(value, b)| && Reversed(tmp[..idx]) == Positional(value, b)
  {
    var v: nat := value;
    idx := 0;
    while v > 0
      invariant idx + |Positional(v, b)| == |Positional(value, b)|
      invariant Positional(value, b) == Positional(v, b) + Reversed(tmp[..idx])
      decreases v
    {
      PeelDigit(v, b, Positional(value, b), tmp[..idx]);
      QuotientLess(v, b);
      tmp[idx] := DIGITS[v % b];
      assert tmp[..idx + 1] == tmp[..idx] + [DIGITS[v % b]];
      v := v / b;
      idx := idx + 1;
    }
  }

  // tmp[..n], turned round, into the output from `at`.
  method Turn(tmp: array<char>, n: nat, buf: array<char>, at: nat)
    requires n <= tmp.Length && at + n <= buf.Length && tmp != buf
    modifies buf
    ensures buf[at..at + n] == Reversed(tmp[..n])
    ensures forall i :: 0 <= i < at || at + n <= i < buf.Length ==> buf[i] == old(buf[i])
  {
    ghost var r := Reversed(tmp[..n]);
    for j := 0 to n
      invariant buf[at..at + j] == r[..j]
      invariant forall i :: 0 <= i < at || at + n <= i < buf.Length ==> buf[i] == old(buf[i])
    {
      ghost var done := buf[at..at + j];
      buf[at + j] := tmp[n - 1 - j];
      assert buf[at..at + j + 1] == done + [r[j]];
    }
  }

  // u64_to_dec
  method ToDec(value: nat, buffer: array<char>) returns (out: nat)
    requires value < TWO_64 && |Numeral(value, 10)| < buffer.Length
    modifies buffer
    ensures out == |Numeral(value, 10)| && buffer[..out] == Numeral(value, 10) && buffer[out] == '\0'
    ensures forall i :: out < i < buffer.Length ==> buffer[i] == old(buffer[i])
  {
    if value == 0 {
      buffer[0] := '0';
      buffer[1] := '\0';
      return 1;
    }
    TwentyDigits(value);
    var temp := new char[21];
    out := Peel(value, 10, temp);
    Turn(temp, out, buffer, 0);
    assert buffer[..out] == buffer[0..out];
    buffer[out] := '\0';
  }

  // utoa_base, into buf from `at`.  No NUL is written behind the digits.
  method ToBase(value: nat, buf: array<char>, at: nat, base: int) returns (n: nat)
    requires value < TWO_64 && at < buf.Length
    requires 2 <= base <= 16 ==> at + |Numeral(value, base)| <= buf.Length && |Positional(value, base)| <= 32
    modifies buf
    ensures base < 2 || base > 16 ==> n == 0 && buf[..] == old(buf[..])[at := '\0']
    ensures 2 <= base <= 16 ==> n == |Numeral(value, base)| && buf[at..at + n] == Numeral(value, base)
    ensures 2 <= base <= 16 ==> forall i :: 0 <= i < at || at + n <= i < buf.Length ==> buf[i] == old(buf[i])
  {
    if base < 2 || base > 16 {
      buf[at] := '\0';
      assert buf[..] == old(buf[..])[at := '\0'];
      return 0;
    }
    n := Convert(value, buf, at, base);
  }

  method Convert(value: nat, buf: array<char>, at: nat, base: nat) returns (n: nat)
    requires 2 <= base <= 16 && at + |Numeral(value, base)| <= buf.Length && |Positional(value, base)| <= 32
    modifies buf
    ensures n == |Numeral(value, base)| && buf[at..at + n] == Numeral(value, base)
    ensures forall i :: 0 <= i < at || at + n <= i < buf.Length ==> buf[i] == old(buf[i])
  {
    if value == 0 {
      buf[at] := '0';
      assert buf[at..at + 1] == "0";
      return 1;
    }
    var tmp := new char[32];
    n := Peel(value, base, tmp);
    Turn(tmp, n, buf, at);
  }

  function Signed(v: int): string {
    if v < 0 then "-" + Numeral(-v, 10) else Numeral(v, 10)
  }

  function ParseSigned(s: string): int {
    if s != [] && s[0] == '-' then 0 - Parse(s[1..], 10) else Parse(s, 10)
  }

  lemma {:induction false} NoMinus(v: nat)
    ensures Numeral(v, 10) != [] && Numeral(v, 10)[0] != '-'
    decreases v
  {
    if v > 0 {
      QuotientLess(v, 10);
      NoMinus(v / 10);
    }
  }

  lemma MinusParses(s: string)
    ensures ParseSigned("-" + s) == 0 - Parse(s, 10)
  {
    assert ("-" + s)[1..] == s;
  }

  lemma SignedRoundTrip(v: int)
    ensures ParseSigned(Signed(v)) == v
  {
    var abs := if v < 0 then -v else v;
    ParseInvertsNumeral(abs, 10);
    MinusParses(Numeral(abs, 10));
    NoMinus(abs);
  }

  // itoa_signed.  The negation of the least long is undefined in C.
  method ToSigned(value: int, buf: array<char>) returns (len: nat)
    requires -0x8000_0000_0000_0000 < value < 0x8000_0000_0000_0000
    requires |Signed(value)| <= buf.Length
    modifies buf
    ensures len == |Signed(value)| && buf[..len] == Signed(value)
  {
    if value < 0 {
      buf[0] := '-';
      len := ToTen(-value, buf, 1);
      assert buf[..1 + len] == ['-'] + buf[1..1 + len];
      len := 1 + len;
    } else {
      len := ToTen(value, buf, 0);
      assert buf[..len] == buf[0..len];
    }
  }

  method ToTen(value: nat, buf: array<char>, at: nat) returns (n: nat)
    requires value < TWO_64 && at + |Numeral(value, 10)| <= buf.Length
    modifies buf
    ensures n == |Numeral(value, 10)| && buf[at..at + n] == Numeral(value, 10)
    ensures forall i :: 0 <= i < at ==> buf[i] == old(buf[i])
  {
    ParseInvertsNumeral(value, 10);
    FitsFromBaseFour(value, 10);
    n := ToBase(value, buf, at, 10);
  }

  // ---- u64_to_hex ----

  const UPPER: string := "0123456789ABCDEF"

  predicate AllUpper(s: string) {
    forall i :: 0 <= i < |s| ==> s[i] in UPPER
  }

  lemma UpperDigit(d: nat)
    requires d < 16
    ensures CF.Digit(UPPER[d]) == Some(d)
  {
  }

  lemma Regroup(p: nat, a: nat, c: nat)
    ensures p * (16 * a + c) == 16 * p * a + p * c
  {
  }

  lemma NestedQuotient(v: nat, p: nat)
    requires p > 0
    ensures v / (16 * p) == v / p / 16
  {
    var q, r := v / p, v % p;
    Divided(v, p);
    var a, c := q / 16, q % 16;
    assert q == 16 * a + c;
    Regroup(p, a, c);
    MulMono(c, 15, p);
    QuotientIs(v, 16 * p, a, p * c + r);
  }

  lemma QuotientIs(v: nat, m: nat, q: nat, r: nat)
    requires m > 0 && v == m * q + r && r < m
    ensures v / m == q
  {
    var q', r' := v / m, v % m;
    assert v == m * q' + r';
    assert m * (q' + 1) == m * q' + m && m * (q + 1) == m * q + m;
    if q' < q {
      MulMono(q' + 1, q, m);
    } else if q < q' {
      MulMono(q + 1, q', m);
    }
  }

  // A shift by 4n bits is a division by 16^n.
  method ToHex(value: nat, buffer: array<char>)
    requires value < TWO_64 && buffer.Length >= 19
    modifies buffer
    ensures buffer[..2] == "0x" && buffer[18] == '\0' && forall i :: 19 <= i < buffer.Length ==> buffer[i] == old(buffer[i])
    ensures CF.AllDigits(buffer[2..18]) && CF.Value(buffer[2..18]) == value && AllUpper(buffer[2..18])
  {
    buffer[0], buffer[1] := '0', 'x';
    HexLoop(value, buffer);
    buffer[18] := '\0';
  }

  method HexLoop(value: nat, buffer: array<char>)
    requires value < TWO_64 && buffer.Length >= 19
    modifies buffer
    ensures forall i :: 0 <= i < 2 || 18 <= i < buffer.Length ==> buffer[i] == old(buffer[i])
    ensures CF.AllDigits(buffer[2..18]) && CF.Value(buffer[2..18]) == value && AllUpper(buffer[2..18])
  {
    HexStart(value);
    var i := 0;
    ghost var done: string := [];
    while i < 16
      invariant i <= 16 && done == buffer[2..2 + i] && HexPrefix(done, value, 16 - i)
      invariant forall k :: 0 <= k < 2 || 18 <= k < buffer.Length ==> buffer[k] == old(buffer[k])
    {
      HexStep(value, 15 - i, done);
      var d := UPPER[HexDigitAt(value, 15 - i)];
      buffer[2 + i] := d;
      assert buffer[2..2 + i + 1] == done + [d];
      done := done + [d];
      i := i + 1;
    }
    HexWhole(done, value);
  }

  // s holds the digits of value above the lowest n.
  ghost predicate HexPrefix(s: string, value: nat, n: nat) {
    Power(16, n) > 0 && CF.AllDigits(s) && CF.Value(s) == value / Power(16, n) && AllUpper(s)
  }

  function HexDigitAt(value: nat, n: nat): (d: nat)
    ensures d < 16
  {
    PowerPositive(16, n);
    value / Power(16, n) % 16
  }

  // One digit more: value >> shift, for the next shift.
  lemma HexStep(value: nat, n: nat, s: string)
    requires HexPrefix(s, value, n + 1)
    ensures HexPrefix(s + [UPPER[HexDigitAt(value, n)]], value, n)
  {
    var d := HexDigitAt(value, n);
    var t := s + [UPPER[d]];
    PowerPositive(16, n);
    UpperDigit(d);
    NestedQuotient(value, Power(16, n));
    assert t[..|t| - 1] == s;
  }

  lemma HexWhole(s: string, value: nat)
    requires HexPrefix(s, value, 0)
    ensures CF.AllDigits(s) && CF.Value(s) == value && AllUpper(s)
  {
    OverOne(value, Power(16, 0));
  }

  lemma OverOne(value: nat, one: nat)
    requires one == 1
    ensures value / one == value
  {
  }

  lemma HexStart(value: nat)
    requires value < TWO_64
    ensures HexPrefix([], value, 16)
  {
    assert Power(16, 4) == 65536;
    assert Power(16, 8) == 0x1_0000_0000;
    assert Power(16, 12) == 0x1_0000_0000_0000;
  }
}
