/**
 * Decimal digit strings: the value of a digit string, the canonical decimal
 * form of a number (`{}` in Rust, `String(n)` in TypeScript), zero padding
 * (`{:02}`, `padStart(2, "0")`) and Rust's `str::parse::<i32>`.
 */
module Numbers {
  import opened Wrappers
  import opened Text

  /** The range of Rust's `i32`. */
  predicate InI32(n: int) {
    -0x8000_0000 <= n <= 0x7FFF_FFFF
  }

  /** An ASCII decimal digit (`is_ascii_digit`, the `\d` class of ECMAScript). */
  predicate IsDigit(c: char) {
    '0' <= c <= '9'
  }

  predicate AllDigits(s: string) {
    forall k :: 0 <= k < |s| ==> IsDigit(s[k])
  }

  function DigitValue(c: char): (d: nat)
    requires IsDigit(c)
    ensures d < 10
  {
    c as int - '0' as int
  }

  function DigitChar(d: nat): (c: char)
    requires d < 10
    ensures IsDigit(c) && DigitValue(c) == d
  {
    ('0' as int + d) as char
  }

  function Pow10(n: nat): (p: nat)
    ensures p >= 1
  {
    if n == 0 then 1 else 10 * Pow10(n - 1)
  }

  /** The number a string of decimal digits denotes; leading zeros are allowed. */
  function Value(s: string): nat
    requires AllDigits(s)
  {
    if s == [] then 0 else Value(s[..|s| - 1]) * 10 + DigitValue(s[|s| - 1])
  }

  /** A digit string of length `n` denotes less than 10^n. */
  lemma {:induction false} ValueBound(s: string)
    requires AllDigits(s)
    ensures Value(s) < Pow10(|s|)
  {
    if s != [] {
      ValueBound(s[..|s| - 1]);
    }
  }

  lemma {:induction false} ValueAppend(a: string, b: string)
    requires AllDigits(a) && AllDigits(b)
    ensures AllDigits(a + b)
    ensures Value(a + b) == Value(a) * Pow10(|b|) + Value(b)
  {
    if b == [] {
      assert a + b == a;
    } else {
      var b' := b[..|b| - 1];
      assert (a + b)[..|a + b| - 1] == a + b';
      ValueAppend(a, b');
      var x, p, y, d := Value(a), Pow10(|b'|), Value(b'), DigitValue(b[|b| - 1]);
      assert Value(a + b) == (x * p + y) * 10 + d;
      assert Value(b) == y * 10 + d;
      assert Pow10(|b|) == 10 * p;
      ShiftDigit(x, p, y, d);
    }
  }

  lemma ShiftDigit(x: int, p: int, y: int, d: int)
    ensures (x * p + y) * 10 + d == x * (10 * p) + (y * 10 + d)
  {
  }

  /** A run of zeros denotes 0, so zeros in front of a digit string do not change its value. */
  lemma {:induction false} ValueOfZeros(z: string)
    requires forall k :: 0 <= k < |z| ==> z[k] == '0'
    ensures AllDigits(z) && Value(z) == 0
  {
    if z != [] {
      ValueOfZeros(z[..|z| - 1]);
    }
  }

  /** The canonical decimal form of `n`: no sign, no leading zero. */
  function FormatNat(n: nat): (r: string)
    ensures |r| >= 1 && AllDigits(r)
    ensures Value(r) == n
    ensures r[0] == '0' ==> n == 0
    ensures n < 10 <==> |r| == 1
  {
    if n < 10 then [DigitChar(n)]
    else
      var r := FormatNat(n / 10) + [DigitChar(n % 10)];
      assert r[..|r| - 1] == FormatNat(n / 10);
      r
  }

  /** Rust's `{}` on a signed integer. */
  function FormatInt(n: int): (r: string)
    ensures |r| >= 1
  {
    if n < 0 then "-" + FormatNat(-n) else FormatNat(n)
  }

  /** Rust's `str::parse::<i32>`: an optional `+` or `-`, at least one digit and nothing else, in range. */
  function ParseI32(s: string): (r: Option<int>)
    ensures r.Some? ==> InI32(r.value)
  {
    var negative := s != [] && s[0] == '-';
    var digits := if s != [] && (s[0] == '+' || s[0] == '-') then s[1..] else s;
    if digits == [] || !AllDigits(digits) then None
    else
      var m: int := Value(digits);
      var v := if negative then -m else m;
      if InI32(v) then Some(v) else None
  }

  /** Writing an `i32` in decimal and parsing it back gives the same number. */
  lemma ParseFormatI32(n: int)
    requires InI32(n)
    ensures ParseI32(FormatInt(n)) == Some(n)
  {
    var s := FormatInt(n);
    if n < 0 {
      assert s[1..] == FormatNat(-n);
    } else {
      assert s[0] != '-' && s[0] != '+';
    }
  }

  /** `padStart(width, fill)` and Rust's `{:0width}` on a digit string. */
  function PadStart(s: string, width: nat, fill: char): (r: string)
    ensures |r| == if |s| >= width then |s| else width
    ensures EndsWith(r, s)
    ensures forall k :: 0 <= k < |r| - |s| ==> r[k] == fill
  {
    if |s| >= width then s else seq(width - |s|, _ => fill) + s
  }

  /** `n` in decimal, padded with zeros to at least `width` digits. */
  function ZeroPad(n: nat, width: nat): (r: string)
    ensures |r| >= width && |r| >= 1
    ensures AllDigits(r) && Value(r) == n
  {
    var digits := FormatNat(n);
    var r := PadStart(digits, width, '0');
    var z := r[..|r| - |digits|];
    assert r == z + digits;
    ValueOfZeros(z);
    ValueAppend(z, digits);
    r
  }

  /** A number below 10^w takes at most `w` digits. */
  lemma {:induction false} FormatNatLength(n: nat, w: nat)
    requires w >= 1 && n < Pow10(w)
    ensures |FormatNat(n)| <= w
  {
    if n >= 10 {
      assert FormatNat(n) == FormatNat(n / 10) + [DigitChar(n % 10)];
      if w > 1 {
        assert n / 10 < Pow10(w - 1);
        FormatNatLength(n / 10, w - 1);
      }
    }
  }

  /** Zero padding to `w` digits keeps exactly `w` characters below 10^w. */
  lemma ZeroPadLength(n: nat, w: nat)
    requires w >= 1 && n < Pow10(w)
    ensures |ZeroPad(n, w)| == w
  {
    FormatNatLength(n, w);
  }

  /** Two-digit zero padding keeps exactly two characters below 100. */
  lemma ZeroPad2Length(n: nat)
    requires n < 100
    ensures |ZeroPad(n, 2)| == 2
  {
    assert Pow10(2) == 100;
    ZeroPadLength(n, 2);
  }

  /** Four-digit zero padding keeps exactly four characters below 10000. */
  lemma ZeroPad4Length(n: nat)
    requires n < 10000
    ensures |ZeroPad(n, 4)| == 4
  {
    assert Pow10(4) == 10000;
    ZeroPadLength(n, 4);
  }
}
