// printint of console.c.
module Console {
  import opened Arch

  const TWO63: nat := 0x8000_0000_0000_0000
  const BUF: nat := 34
  const DIGITS: string := "0123456789abcdef"

  function Pow(b: nat, k: nat): nat { if k == 0 then 1 else b * Pow(b, k - 1) }

  // The lowest digit of x, and the rest of it.
  function Digit(x: nat, base: nat): char
    requires 2 <= base <= 16
  {
    DIGITS[x % base]
  }

  function Rest(x: nat, base: nat): (r: nat)
    requires 2 <= base
    ensures (r == 0 <==> x < base) && (x > 0 ==> r < x)
  {
    x / base
  }

  // The digits of x, highest first.
  function Numeral(x: nat, base: nat): string
    requires 2 <= base <= 16
    decreases x
  {
    if x < base then [Digit(x, base)] else Numeral(Rest(x, base), base) + [Digit(x, base)]
  }

  function Repeat(c: char, n: nat): string { seq(n, _ => c) }

  // What printint should print for magnitude x, sign neg, and minimum width len.
  function Printed(x: nat, neg: bool, base: nat, len: int, prefix: char): string
    requires 2 <= base <= 16
  {
    var d := Numeral(x, base);
    if |d| >= len then (if neg then "-" else "") + d
    else if neg then "-" + Repeat(prefix, len - |d| - 1) + d
    else Repeat(prefix, len - |d|) + d
  }

  function Reversed(s: string): string { if s == [] then [] else Reversed(s[1..]) + [s[0]] }

  lemma {:induction false} ReversedSnoc(s: string, c: char)
    ensures Reversed(s + [c]) == [c] + Reversed(s)
  {
    if s != [] {
      ReversedSnoc(s[1..], c);
      assert (s + [c])[1..] == s[1..] + [c];
    }
  }

  lemma {:induction false} ReversedRepeat(s: string, c: char, n: nat)
    ensures Reversed(s + Repeat(c, n)) == Repeat(c, n) + Reversed(s)
    decreases n
  {
    if n == 0 {
      assert s + Repeat(c, 0) == s;
      assert Repeat(c, 0) + Reversed(s) == Reversed(s);
    } else {
      ReversedRepeat(s, c, n - 1);
      assert s + Repeat(c, n) == s + Repeat(c, n - 1) + [c];
      ReversedSnoc(s + Repeat(c, n - 1), c);
      assert Repeat(c, n) == [c] + Repeat(c, n - 1);
    }
  }

  lemma Scale(a: nat, b: nat, p: nat)
    requires a <= b
    ensures a * p <= b * p
  {
  }

  // x is what is left of x0 after i divisions by at least 4.
  ghost predicate Bounded(x: nat, i: nat, x0: nat) { x * Pow(4, i) <= x0 }

  lemma BoundedStart(x: nat)
    ensures Bounded(x, 0, x)
  {
  }

  // One digit fewer to go leaves at most a quarter.
  lemma QuarterStep(x: nat, base: nat, i: nat, x0: nat)
    requires 4 <= base && Bounded(x, i, x0)
    ensures Bounded(Rest(x, base), i + 1, x0)
  {
    var y, p := x / base, Pow(4, i);
    assert Pow(4, i + 1) == 4 * p;
    hide Pow;
    assert y * 4 <= x;
    Scale(y * 4, x, p);
  }

  lemma {:induction false} PowMono(i: nat, j: nat)
    requires i <= j
    ensures 1 <= Pow(4, i) <= Pow(4, j)
    decreases j
  {
    if j > i { PowMono(i, j - 1); } else if j > 0 { PowMono(i - 1, j - 1); }
  }

  lemma Pow32()
    ensures Pow(4, 32) == TWO64
  {
    assert Pow(4, 8) == 0x1_0000;
    assert Pow(4, 16) == 0x1_0000_0000;
    assert Pow(4, 24) == 0x1_0000_0000_0000;
  }

  // A 64-bit number has at most 32 digits in base 4 and above.
  lemma FewDigits(x: nat, i: nat, x0: nat)
    requires x >= 1 && Bounded(x, i, x0) && x0 < TWO64
    ensures i < 32
  {
    Pow32();
    Scale(1, x, Pow(4, i));
    if i >= 32 { PowMono(32, i); }
  }

  // What remains to be printed of x0 when x is left and the digits of `done` are in the buffer.
  ghost predicate DigitsSoFar(x0: nat, x: nat, base: nat, done: string)
    requires 2 <= base <= 16
  {
    Numeral(x0, base) == if x == 0 then Reversed(done) else Numeral(x, base) + Reversed(done)
  }

  lemma NumeralStep(x: nat, base: nat)
    requires 2 <= base <= 16
    ensures Numeral(x, base) == (if Rest(x, base) == 0 then "" else Numeral(Rest(x, base), base)) + [Digit(x, base)]
  {
    hide Digit, Rest;
    if x < base {
      assert "" + [Digit(x, base)] == [Digit(x, base)];
    }
  }

  // c is the next digit of x, q what is left.
  lemma DigitStep(x0: nat, x: nat, base: nat, done: string, q: nat, c: char)
    requires 2 <= base <= 16 && x != 0 && DigitsSoFar(x0, x, base, done)
    requires Numeral(x, base) == (if q == 0 then "" else Numeral(q, base)) + [c]
    ensures DigitsSoFar(x0, q, base, done + [c])
  {
    hide Numeral;
    ReversedSnoc(done, c);
  }

  // The digit loop: fills buf and returns how far.
  method Digits(buf: array<char>, x0: nat, base: nat) returns (i: nat)
    requires buf.Length == BUF && x0 < TWO64 && 4 <= base <= 16
    modifies buf
    ensures 1 <= i <= 32 && Reversed(buf[..i]) == Numeral(x0, base)
  {
    hide Numeral, Digit, Rest, Bounded;
    var x: nat := x0;
    NumeralStep(x0, base);
    buf[0] := Digit(x, base);
    i, x := 1, Rest(x, base);
    assert buf[..1] == [Digit(x0, base)];
    BoundedStart(x0);
    QuarterStep(x0, base, 0, x0);
    ReversedSnoc("", Digit(x0, base));
    assert "" + [Digit(x0, base)] == buf[..1];
    while x != 0
      invariant 1 <= i <= 32
      invariant DigitsSoFar(x0, x, base, buf[..i])
      invariant Bounded(x, i, x0)
    {
      FewDigits(x, i, x0);
      NumeralStep(x, base);
      DigitStep(x0, x, base, buf[..i], Rest(x, base), Digit(x, base));
      QuarterStep(x, base, i, x0);
      buf[i] := Digit(x, base);
      assert buf[..i + 1] == buf[..i] + [Digit(x, base)];
      i, x := i + 1, Rest(x, base);
    }
  }

  // printint. ok is false where an ASSERT fails; out is what consputc receives, in order.
  method Printint(xx: int, base: nat, sign: bool, len: int, prefix: char) returns (ok: bool, out: string)
    requires -(TWO63 as int) <= xx < TWO63 && (sign ==> xx > -(TWO63 as int))
    requires 4 <= base <= 16
    ensures var neg := sign && xx < 0;
            var x := if neg then -xx else xx % TWO64;
            && (ok <==> len <= 33 && (len > |Numeral(x, base)| ==> prefix != '\0'))
            && (ok ==> out == Printed(x, neg, base, len, prefix))
  {
    out := "";
    var neg := sign && xx < 0;
    var x: nat := if neg then -xx else xx % TWO64;
    if len > 33 {
      return false, out;
    }
    var buf := new char[BUF];
    var i := Digits(buf, x, base);
    ghost var d := buf[..i];
    ReversedSize(d);
    if len != 0 && i < len {
      if prefix == '\0' {
        return false, out;
      }
      ghost var n := i;
      while i < len
        invariant n <= i <= len && buf[..i] == d + Repeat(prefix, i - n)
      {
        buf[i] := prefix;
        i := i + 1;
        assert buf[..i] == buf[..i - 1] + [prefix];
      }
      if neg {
        buf[i - 1] := '-';
        assert buf[..i] == d + Repeat(prefix, len - n - 1) + ['-'];
        ReversedSnoc(d + Repeat(prefix, len - n - 1), '-');
        ReversedRepeat(d, prefix, len - n - 1);
      } else {
        ReversedRepeat(d, prefix, len - n);
      }
    } else if neg {
      buf[i] := '-';
      i := i + 1;
      assert buf[..i] == d + ['-'];
      ReversedSnoc(d, '-');
    }
    out := Emit(buf, i);
    ok := true;
  }

  lemma {:induction false} ReversedSize(s: string)
    ensures |Reversed(s)| == |s|
  {
    if s != [] { ReversedSize(s[1..]); }
  }

  // The emission loop: the buffer backwards.
  method Emit(buf: array<char>, n: nat) returns (out: string)
    requires n <= buf.Length
    ensures out == Reversed(buf[..n])
  {
    out := "";
    var i := n;
    while i > 0
      invariant 0 <= i <= n && out + Reversed(buf[..i]) == Reversed(buf[..n])
    {
      i := i - 1;
      assert buf[..i + 1] == buf[..i] + [buf[i]];
      ReversedSnoc(buf[..i], buf[i]);
      out := out + [buf[i]];
    }
  }

  // ---- reading it back --------------------------------------------------------------------

  function DigitVal(c: char): nat {
    if '0' <= c <= '9' then c as int - '0' as int
    else if 'a' <= c <= 'f' then c as int - 'a' as int + 10
    else 16
  }

  function Value(s: string, base: nat): nat {
    if s == "" then 0 else Value(s[..|s| - 1], base) * base + DigitVal(s[|s| - 1])
  }

  function Skip(s: string, prefix: char): string {
    if s != "" && s[0] == prefix then Skip(s[1..], prefix) else s
  }

  // Optional minus, padding, digits.
  function Decode(s: string, base: nat, prefix: char): int {
    if s != "" && s[0] == '-' then -(Value(Skip(s[1..], prefix), base) as int) else Value(Skip(s, prefix), base)
  }

  lemma DigitsTable(k: nat)
    requires k < 16
    ensures DigitVal(DIGITS[k]) == k
  {
  }

  lemma {:induction false} NumeralValue(x: nat, base: nat)
    requires 2 <= base <= 16
    ensures Value(Numeral(x, base), base) == x
    ensures forall i :: 0 <= i < |Numeral(x, base)| ==> DigitVal(Numeral(x, base)[i]) < base
    ensures Numeral(x, base) != ""
    decreases x
  {
    hide DigitVal, Rest;
    NumeralStep(x, base);
    var q, c := Rest(x, base), Digit(x, base);
    assert DigitVal(c) == x % base by { DigitsTable(x % base); }
    var high := if q == 0 then "" else Numeral(q, base);
    assert (high + [c])[..|high|] == high;
    assert x == q * base + x % base by { RestDiv(x, base); }
    if q > 0 { NumeralValue(q, base); }
  }

  lemma RestDiv(x: nat, base: nat)
    requires 2 <= base
    ensures x == Rest(x, base) * base + x % base
  {
  }

  // Leading zeros do not count.
  lemma {:induction false} ValueZero(s: string, base: nat)
    ensures Value("0" + s, base) == Value(s, base)
  {
    if s == "" {
      assert "0" + s == "0" && "0"[..0] == "";
      assert DigitVal('0') == 0;
    } else {
      var t := "0" + s;
      ValueZero(s[..|s| - 1], base);
      assert t[..|t| - 1] == "0" + s[..|s| - 1];
    }
  }

  lemma {:induction false} SkipZeros(s: string, base: nat)
    ensures Value(Skip(s, '0'), base) == Value(s, base)
  {
    if s != "" && s[0] == '0' {
      SkipZeros(s[1..], base);
      assert s == "0" + s[1..];
      ValueZero(s[1..], base);
    }
  }

  lemma {:induction false} SkipPadding(n: nat, prefix: char, d: string)
    requires d != "" && d[0] != prefix
    ensures Skip(Repeat(prefix, n) + d, prefix) == d
  {
    if n == 0 {
      assert Repeat(prefix, 0) + d == d;
    } else {
      SkipPadding(n - 1, prefix, d);
      assert (Repeat(prefix, n) + d)[1..] == Repeat(prefix, n - 1) + d;
    }
  }

  lemma {:induction false} ZeroPadding(n: nat, d: string, base: nat)
    ensures Value(Repeat('0', n) + d, base) == Value(d, base)
  {
    if n == 0 {
      assert Repeat('0', 0) + d == d;
    } else {
      ZeroPadding(n - 1, d, base);
      assert Repeat('0', n) + d == "0" + (Repeat('0', n - 1) + d);
      ValueZero(Repeat('0', n - 1) + d, base);
    }
  }

  // Padding that cannot be mistaken: zeros, or a character that is neither digit nor sign.
  predicate ClearPrefix(prefix: char, base: nat) {
    prefix != '-' && (prefix == '0' || DigitVal(prefix) >= base)
  }

  lemma PaddedValue(n: nat, prefix: char, x: nat, base: nat)
    requires 2 <= base <= 16 && ClearPrefix(prefix, base)
    ensures Value(Skip(Repeat(prefix, n) + Numeral(x, base), prefix), base) == x
    ensures (Repeat(prefix, n) + Numeral(x, base))[0] != '-'
  {
    hide Numeral, Value, Skip;
    var d := Numeral(x, base);
    NumeralValue(x, base);
    assert DigitVal(d[0]) < base;
    assert DigitVal('-') == 16;
    if prefix == '0' {
      SkipZeros(Repeat(prefix, n) + d, base);
      ZeroPadding(n, d, base);
    } else {
      SkipPadding(n, prefix, d);
    }
  }

  /** How it looks: a minus exactly if negative, nothing but padding, then a numeral without
      needless zeros. */
  lemma Layout(x: nat, neg: bool, base: nat, len: int, prefix: char)
    requires 2 <= base <= 16
    ensures var s, d := Printed(x, neg, base, len, prefix), Numeral(x, base);
            var start := |s| - |d|;
            && |s| >= |d| + (if neg then 1 else 0) && s[start..] == d
            && (neg ==> s[0] == '-')
            && (forall i :: (if neg then 1 else 0) <= i < start ==> s[i] == prefix)
            && d != "" && (d[0] == '0' ==> x == 0 && d == "0")
  {
    hide Numeral;
    NumeralHead(x, base);
    var d := Numeral(x, base);
    var n := if |d| >= len then 0 else if neg then len - |d| - 1 else len - |d|;
    var sign := if neg then "-" else "";
    assert Repeat(prefix, 0) == "";
    assert Printed(x, neg, base, len, prefix) == sign + Repeat(prefix, n) + d;
  }

  lemma {:induction false} NumeralHead(x: nat, base: nat)
    requires 2 <= base <= 16
    ensures var d := Numeral(x, base); d != "" && (d[0] == '0' ==> x == 0 && d == "0")
    decreases x
  {
    hide DigitVal, Rest;
    if x < base {
      DigitsTable(x);
      assert x % base == x;
      assert DigitVal('0') == 0 by { DigitsTable(0); }
    } else {
      NumeralHead(Rest(x, base), base);
    }
  }

  /** Reading back what printint printed gives the value: the number itself when printed
      signed, its unsigned 64-bit form otherwise; and the width is exact. */
  lemma RoundTrip(x: nat, neg: bool, base: nat, len: int, prefix: char)
    requires 2 <= base <= 16 && ClearPrefix(prefix, base)
    ensures Decode(Printed(x, neg, base, len, prefix), base, prefix) == if neg then -(x as int) else x
    ensures var digits := |Numeral(x, base)| + (if neg then 1 else 0);
            |Printed(x, neg, base, len, prefix)| == if digits < len then len else digits
  {
    hide Numeral, Value, Skip, ClearPrefix;
    var d := Numeral(x, base);
    var n := if |d| >= len then 0 else if neg then len - |d| - 1 else len - |d|;
    PaddedValue(n, prefix, x, base);
    assert |d| >= len ==> Repeat(prefix, n) + d == d;
    if neg {
      assert Printed(x, neg, base, len, prefix) == "-" + (Repeat(prefix, n) + d);
    } else {
      assert Printed(x, neg, base, len, prefix) == Repeat(prefix, n) + d;
    }
  }
}
