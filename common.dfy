// Shared vocabulary: optional values, JavaScript truthiness of request
// fields, and the decimal rendering used by the identifier formats.
module Common {

  datatype Option<T> = None | Some(value: T)

  /** The quantity units the crop, quality and sale schemas accept. */
  datatype Unit = Kg | Quintal | Ton

  /** Milliseconds in one day. */
  const DayMs: int := 86_400_000

  /** An optional text field counts as given when present and non-empty
      (JavaScript truthiness of a string). */
  predicate Given(s: Option<string>)
  {
    s.Some? && s.value != ""
  }

  /** An optional number counts as given when present and non-zero
      (JavaScript truthiness of a number; NaN is modelled as absent). */
  predicate GivenNum(n: Option<int>)
  {
    n.Some? && n.value != 0
  }

  /** `a || b` on optional strings: the first operand when truthy. */
  function OrElse(a: Option<string>, b: Option<string>): (r: Option<string>)
    ensures Given(a) ==> r == a
    ensures !Given(a) ==> r == b
  {
    if Given(a) then a else b
  }

  // ---------------------------------------------------------------
  // Decimal digits

  predicate IsDigit(c: char)
  {
    '0' <= c <= '9'
  }

  predicate AllDigits(s: string)
  {
    forall i :: 0 <= i < |s| ==> IsDigit(s[i])
  }

  function DigitChar(d: nat): char
    requires d < 10
  {
    "0123456789"[d]
  }

  function DigitValue(c: char): nat
  {
    if IsDigit(c) then (c as int - '0' as int) else 0
  }

  /** Number.prototype.toString() for a non-negative integer. */
  function Decimal(n: nat): string
    decreases n
  {
    if n < 10 then [DigitChar(n)] else Decimal(n / 10) + [DigitChar(n % 10)]
  }

  /** The value a string of decimal digits denotes (most significant first). */
  function DigitsValue(s: string): nat
    decreases |s|
  {
    if s == [] then 0 else DigitsValue(s[..|s| - 1]) * 10 + DigitValue(s[|s| - 1])
  }

  /** `"0".repeat(k)` */
  function Zeros(k: nat): (z: string)
    ensures |z| == k && forall i :: 0 <= i < k ==> z[i] == '0'
  {
    if k == 0 then "" else "0" + Zeros(k - 1)
  }

  /** String.prototype.padStart(width, "0") */
  function PadStart(s: string, width: nat): (r: string)
    ensures |r| == if |s| >= width then |s| else width
    ensures r[|r| - |s|..] == s
    ensures forall i :: 0 <= i < |r| - |s| ==> r[i] == '0'
  {
    if |s| >= width then s else Zeros(width - |s|) + s
  }

  lemma {:induction false} DecimalShape(n: nat)
    ensures |Decimal(n)| >= 1 && AllDigits(Decimal(n))
    ensures Decimal(n)[0] != '0' || n == 0
    decreases n
  {
    if n >= 10 {
      DecimalShape(n / 10);
    }
  }

  /** Reading back a rendered number gives the number. */
  lemma {:induction false} DecimalRoundTrip(n: nat)
    ensures DigitsValue(Decimal(n)) == n
    decreases n
  {
    if n >= 10 {
      var d := Decimal(n);
      DecimalShape(n / 10);
      assert d[..|d| - 1] == Decimal(n / 10);
      DecimalRoundTrip(n / 10);
    }
  }

  /** Decimal(n) has exactly k digits when 10^(k-1) <= n < 10^k. */
  function Pow10(k: nat): (p: nat)
    ensures p >= 1
  {
    if k == 0 then 1 else 10 * Pow10(k - 1)
  }

  lemma {:induction false} DecimalLength(n: nat, k: nat)
    requires k >= 1
    requires (k == 1 || Pow10(k - 1) <= n) && n < Pow10(k)
    ensures |Decimal(n)| == k
    decreases n
  {
    if n >= 10 {
      assert k >= 2;
      DecimalLength(n / 10, k - 1);
    }
  }

  /** Numbers from 1000 to 9999 have four digits; months have one or two. */
  lemma FourDigits(n: nat)
    requires 1000 <= n <= 9999
    ensures |Decimal(n)| == 4
  {
    assert Pow10(1) == 10 && Pow10(2) == 100 && Pow10(3) == 1000 && Pow10(4) == 10000;
    DecimalLength(n, 4);
  }

  lemma AtMostTwoDigits(n: nat)
    requires n < 100
    ensures |Decimal(n)| <= 2
  {
    assert Pow10(1) == 10 && Pow10(2) == 100;
    DecimalLength(n, if n < 10 then 1 else 2);
  }

  /** The parts of a concatenation can be cut back out of it. */
  lemma ConcatParts(a: string, b: string, c: string, d: string)
    ensures var s := a + b + c + d;
            s[..|a|] == a &&
            s[|a|..|a| + |b|] == b &&
            s[|a| + |b|..|a| + |b| + |c|] == c &&
            s[|a| + |b| + |c|..] == d
  {
  }

  /** Leading zeros do not change the value read back. */
  lemma {:induction false} ZerosValue(k: nat, s: string)
    ensures DigitsValue(Zeros(k) + s) == DigitsValue(s)
    decreases |s|
  {
    if s == [] {
      assert Zeros(k) + s == Zeros(k);
      ZerosAlone(k);
    } else {
      var t := s[..|s| - 1];
      assert (Zeros(k) + s)[..|Zeros(k) + s| - 1] == Zeros(k) + t;
      ZerosValue(k, t);
    }
  }

  lemma {:induction false} ZerosAlone(k: nat)
    ensures DigitsValue(Zeros(k)) == 0
  {
    if k > 0 {
      var z := Zeros(k);
      assert z[..k - 1] == Zeros(k - 1);
      ZerosAlone(k - 1);
    }
  }

  /** Zero-padding a rendered number keeps its value: the padded form is
      never truncated and reads back as the original number. */
  lemma PaddedRoundTrip(n: nat, width: nat)
    ensures AllDigits(PadStart(Decimal(n), width))
    ensures DigitsValue(PadStart(Decimal(n), width)) == n
  {
    var d := Decimal(n);
    DecimalShape(n);
    DecimalRoundTrip(n);
    if |d| < width {
      var p := Zeros(width - |d|) + d;
      forall i | 0 <= i < |p| ensures IsDigit(p[i]) {
        if i >= width - |d| {
          assert p[i] == d[i - (width - |d|)];
        }
      }
      ZerosValue(width - |d|, d);
    }
  }
}
