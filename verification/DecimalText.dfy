/** The texts printed for fixed-point numbers, and the trimming of fractions of a second. */
module DecimalText {
  import opened Common

  // ---- Digits --------------------------------------------------------------------------------

  function DigitChar(d: nat): char
    requires d < 10
  {
    '0' + d as char
  }

  predicate IsDigit(c: char) { '0' <= c <= '9' }

  predicate AllDigits(s: string) { forall i :: 0 <= i < |s| ==> IsDigit(s[i]) }

  function Digits(n: nat): string {
    if n < 10 then [DigitChar(n)] else Digits(n / 10) + [DigitChar(n % 10)]
  }

  function ValueOf(s: string): nat
    requires AllDigits(s)
  {
    if s == "" then 0 else 10 * ValueOf(s[..|s| - 1]) + (s[|s| - 1] - '0') as nat
  }

  lemma ValueOfAppend(s: string, d: nat)
    requires AllDigits(s) && d < 10
    ensures AllDigits(s + [DigitChar(d)]) && ValueOf(s + [DigitChar(d)]) == 10 * ValueOf(s) + d
  {
    assert (s + [DigitChar(d)])[..|s|] == s;
  }

  lemma {:induction false} DigitsValue(n: nat)
    ensures AllDigits(Digits(n)) && Digits(n) != "" && ValueOf(Digits(n)) == n
  {
    if n < 10 {
      assert Digits(n) == "" + [DigitChar(n)];
      ValueOfAppend("", n);
    } else {
      DigitsValue(n / 10);
      ValueOfAppend(Digits(n / 10), n % 10);
    }
  }

  function Zeros(n: nat): string { seq(n, _ => '0') }

  lemma {:induction false} LeadingZero(s: string)
    requires AllDigits(s)
    ensures AllDigits("0" + s) && ValueOf("0" + s) == ValueOf(s)
    decreases |s|
  {
    var t := "0" + s;
    if s == "" {
      assert t[..0] == "" && t[0] == '0';
    } else {
      LeadingZero(s[..|s| - 1]);
      assert t[..|t| - 1] == "0" + s[..|s| - 1] && t[|t| - 1] == s[|s| - 1];
    }
  }

  /** Leading zeros up to the wanted length. */
  function Padded(s: string, n: nat): string
    decreases n - |s|
  {
    if |s| < n then Padded("0" + s, n) else s
  }

  lemma {:induction false} PaddedValue(s: string, n: nat)
    requires AllDigits(s)
    ensures AllDigits(Padded(s, n)) && |Padded(s, n)| >= n && ValueOf(Padded(s, n)) == ValueOf(s)
    decreases n - |s|
  {
    if |s| < n {
      LeadingZero(s);
      PaddedValue("0" + s, n);
    }
  }

  // ---- The printed text, and reading it ----------------------------------------------------------

  function Abs(x: int): nat { if x < 0 then -x else x }

  function Sign(raw: int): string { if raw < 0 then "-" else "" }

  function Pointed(p: string, scale: nat): string
    requires scale <= |p|
  {
    p[..|p| - scale] + "." + p[|p| - scale..]
  }

  function Printed(raw: int, scale: nat): string {
    DigitsValue(Abs(raw));
    PaddedValue(Digits(Abs(raw)), scale + 1);
    Sign(raw) + if scale == 0 then Digits(Abs(raw)) else Pointed(Padded(Digits(Abs(raw)), scale + 1), scale)
  }

  /** A text cut at its first point. */
  function Cut(s: string): (string, string) {
    if s == "" then ("", "")
    else if s[0] == '.' then ("", s[1..])
    else ([s[0]] + Cut(s[1..]).0, Cut(s[1..]).1)
  }

  lemma {:induction false} CutDigits(a: string, b: string)
    requires AllDigits(a)
    ensures Cut(a + "." + b) == (a, b)
    decreases |a|
  {
    var s := a + "." + b;
    if a == "" {
      assert s[1..] == b;
    } else {
      assert s[1..] == a[1..] + "." + b;
      CutDigits(a[1..], b);
      assert [a[0]] + a[1..] == a;
    }
  }

  lemma {:induction false} CutNoPoint(a: string)
    requires AllDigits(a)
    ensures Cut(a) == (a, "")
    decreases |a|
  {
    if a != "" {
      CutNoPoint(a[1..]);
      assert [a[0]] + a[1..] == a;
    }
  }

  /** Reads sign, digits and point: the unscaled number and its scale. */
  function Read(text: string): Option<(int, nat)> {
    var negative := text != "" && text[0] == '-';
    var body := if negative then text[1..] else text;
    var (a, b) := Cut(body);
    if a != "" && AllDigits(a + b) then Some((if negative then -(ValueOf(a + b) as int) else ValueOf(a + b), |b|))
    else None
  }

  /** A sign and a body that does not start with one. */
  lemma ReadSigned(negative: bool, body: string, a: string, b: string)
    requires Cut(body) == (a, b) && a != "" && AllDigits(a + b) && body != "" && body[0] != '-'
    ensures Read((if negative then "-" else "") + body) ==
              Some((if negative then -(ValueOf(a + b) as int) else ValueOf(a + b), |b|))
  {
    hide Cut, AllDigits, ValueOf;
    var text := (if negative then "-" else "") + body;
    if negative {
      assert text[0] == '-' && text[1..] == body;
    } else {
      assert text == body;
    }
  }

  /** Every number reads back with its scale, and has a digit before the point. */
  lemma PrintedReads(raw: int, scale: nat)
    ensures Read(Printed(raw, scale)) == Some((raw, scale))
  {
    var d := Digits(Abs(raw));
    DigitsValue(Abs(raw));
    if scale == 0 {
      CutNoPoint(d);
      assert d + "" == d && IsDigit(d[0]);
      hide Cut, Digits, ValueOf, AllDigits, Read;
      ReadSigned(raw < 0, d, d, "");
    } else {
      PaddedValue(d, scale + 1);
      var p := Padded(d, scale + 1);
      PointedReads(raw < 0, p, scale);
      hide Digits, Padded, ValueOf, AllDigits, Read, Pointed;
    }
  }

  lemma PointedReads(negative: bool, p: string, scale: nat)
    requires AllDigits(p) && |p| > scale
    ensures Read((if negative then "-" else "") + Pointed(p, scale)) ==
              Some((if negative then -(ValueOf(p) as int) else ValueOf(p), scale))
  {
    hide *;
    var a, b := p[..|p| - scale], p[|p| - scale..];
    PointedParts(p, scale);
    CutDigits(a, b);
    ReadSigned(negative, Pointed(p, scale), a, b);
  }

  lemma PointedParts(p: string, scale: nat)
    requires AllDigits(p) && |p| > scale
    ensures var a, b := p[..|p| - scale], p[|p| - scale..];
            && a + b == p && AllDigits(a) && a != ""
            && Pointed(p, scale) == a + "." + b && Pointed(p, scale) != "" && Pointed(p, scale)[0] != '-'
  {
    assert IsDigit(p[0]);
    assert Pointed(p, scale)[0] == p[0];
  }

  // ---- The printers --------------------------------------------------------------------------------

  function Pow2(n: nat): (p: nat)
    ensures p > 0
  {
    if n == 0 then 1 else 2 * Pow2(n - 1)
  }

  /** The magnitude as the code computes it, in unsigned words of `bits` bits. */
  function Magnitude(raw: int, bits: nat): nat
    requires bits > 0
  {
    if raw < 0 then (0 - raw % Pow2(bits)) % Pow2(bits) else raw % Pow2(bits)
  }

  /** It is the absolute value, the smallest number included. */
  lemma MagnitudeIsAbs(raw: int, bits: nat)
    requires bits > 0 && -(Pow2(bits - 1) as int) <= raw < Pow2(bits - 1)
    ensures Magnitude(raw, bits) == Abs(raw)
  {
    var w := Pow2(bits);
    assert w == 2 * Pow2(bits - 1);
    hide Pow2;
    if raw < 0 {
      ModUnique(raw, w, -1, raw + w);
      ModUnique(0 - (raw + w), w, -1, -raw);
    } else {
      ModUnique(raw, w, 0, raw);
    }
  }

  method PadAndPoint(digits0: string, scale: nat) returns (digits: string)
    requires scale > 0
    ensures scale + 1 <= |Padded(digits0, scale + 1)|
    ensures digits == Pointed(Padded(digits0, scale + 1), scale)
  {
    digits := digits0;
    while |digits| <= scale
      invariant Padded(digits, scale + 1) == Padded(digits0, scale + 1)
      decreases scale + 1 - |digits|
    {
      digits := "0" + digits;
    }
    var pos := |digits| - scale;
    digits := digits[..pos] + "." + digits[pos..];
  }

  /** Numbers of 32 and 64 bits. */
  method FormatDecimal(raw: int, bits: nat, scale: nat) returns (text: string)
    requires bits > 0 && -(Pow2(bits - 1) as int) <= raw < Pow2(bits - 1)
    ensures text == Printed(raw, scale)
  {
    if scale == 0 { return Sign(raw) + Digits(Abs(raw)); }
    MagnitudeIsAbs(raw, bits);
    var digits := PadAndPoint(Digits(Magnitude(raw, bits)), scale);
    text := (if raw < 0 then "-" else "") + digits;
  }

  function Reversed(s: string): string {
    if s == "" then "" else Reversed(s[1..]) + [s[0]]
  }

  lemma {:induction false} ReversedAppend(s: string, c: char)
    ensures Reversed(s + [c]) == [c] + Reversed(s)
    decreases |s|
  {
    if s == "" {
      assert s + [c] == [c];
      assert Reversed([c]) == Reversed([c][1..]) + [c];
    } else {
      assert (s + [c])[1..] == s[1..] + [c];
      ReversedAppend(s[1..], c);
      assert [c] + Reversed(s) == [c] + Reversed(s[1..]) + [s[0]];
    }
  }

  function DigitsLeft(m: nat): string { if m == 0 then "" else Digits(m) }

  lemma DigitsLeftStep(m: nat, done: string)
    requires m > 0
    ensures DigitsLeft(m) + Reversed(done) == DigitsLeft(m / 10) + Reversed(done + [DigitChar(m % 10)])
  {
    var c := DigitChar(m % 10);
    assert DigitsLeft(m) == DigitsLeft(m / 10) + [c];
    ReversedAppend(done, c);
    hide DigitsLeft, Reversed;
    assert (DigitsLeft(m / 10) + [c]) + Reversed(done) == DigitsLeft(m / 10) + ([c] + Reversed(done));
  }

  /** Numbers of 128 bits: the digits come out last first and are reversed. */
  method FormatDecimal128(raw: int, scale: nat) returns (text: string)
    requires -(Pow2(127) as int) <= raw < Pow2(127)
    ensures text == Printed(raw, scale)
  {
    MagnitudeIsAbs(raw, 128);
    var magnitude := Magnitude(raw, 128);
    var digits: string := "";
    if magnitude == 0 {
      digits := "0";
    } else {
      ghost var all := Digits(magnitude);
      assert DigitsLeft(magnitude) + Reversed("") == all;
      while magnitude > 0
        invariant DigitsLeft(magnitude) + Reversed(digits) == all
      {
        DigitsLeftStep(magnitude, digits);
        digits := digits + [DigitChar(magnitude % 10)];
        magnitude := magnitude / 10;
      }
      assert "" + Reversed(digits) == Reversed(digits);
      digits := Reversed(digits);
    }
    if scale == 0 { return (if raw < 0 then "-" else "") + digits; }
    digits := PadAndPoint(digits, scale);
    text := (if raw < 0 then "-" else "") + digits;
  }

  // ---- The form of the text ---------------------------------------------------------------------

  /** Digits without a zero in front, unless there is just one digit. */
  predicate NoZeroInFront(a: string) { a != "" && AllDigits(a) && (|a| > 1 ==> a[0] != '0') }

  lemma {:induction false} DigitsForm(n: nat)
    ensures NoZeroInFront(Digits(n)) && (n > 0 ==> Digits(n)[0] != '0')
  {
    if n >= 10 { DigitsForm(n / 10); }
  }

  lemma {:induction false} PaddedForm(s: string, n: nat)
    ensures |Padded(s, n)| == (if |s| < n then n else |s|) && (|s| >= n ==> Padded(s, n) == s)
    decreases n - |s|
  {
    if |s| < n { PaddedForm("0" + s, n); }
  }

  /** What stands before and behind the point. */
  lemma PartsForm(d: string, scale: nat)
    requires NoZeroInFront(d)
    ensures var p := Padded(d, scale + 1);
            |p| > scale && NoZeroInFront(p[..|p| - scale]) && AllDigits(p[|p| - scale..]) && |p[|p| - scale..]| == scale
  {
    PaddedValue(d, scale + 1);
    PaddedForm(d, scale + 1);
    hide Padded, ValueOf;
  }

  /** The printed text is a minus sign exactly for negative numbers, an integral part without
      superfluous zeros, and, for a positive scale, a point and as many digits as the scale. */
  lemma PrintedForm(raw: int, scale: nat) returns (a: string, b: string)
    ensures NoZeroInFront(a) && AllDigits(b) && |b| == scale
    ensures Printed(raw, scale) == (if raw < 0 then "-" else "") + if scale == 0 then a else a + "." + b
  {
    hide Digits, Padded, AllDigits, NoZeroInFront;
    var d := Digits(Abs(raw));
    DigitsForm(Abs(raw));
    PartsForm(d, scale);
    if scale == 0 {
      a, b := d, "";
      NoDigits();
    } else {
      var p := Padded(d, scale + 1);
      a, b := p[..|p| - scale], p[|p| - scale..];
    }
  }

  lemma NoDigits()
    ensures AllDigits("")
  {
  }

  // ---- Fractions of a second -------------------------------------------------------------------------

  /** Zeros at the end go; what is left and as many zeros make up the text again. */
  method TrimZeros(frac: string) returns (r: string)
    requires frac != "" && frac[0] == '.'
    ensures r != "" && r[|r| - 1] != '0' && |r| <= |frac| && frac == r + Zeros(|frac| - |r|)
  {
    r := frac;
    assert frac == frac + Zeros(0);
    while r[|r| - 1] == '0'
      invariant 1 <= |r| <= |frac| && r[0] == '.' && frac == r + Zeros(|frac| - |r|)
      decreases |r|
    {
      assert r == r[..|r| - 1] + "0";
      assert "0" + Zeros(|frac| - |r|) == Zeros(|frac| - |r| + 1);
      r := r[..|r| - 1];
    }
  }
}
