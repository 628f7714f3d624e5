/** Six-place decimal quantities: reading them as scaled integers and writing them back. */
module Decimal {
  const SCALE: nat := 1_000_000
  const MAX_SCALED: nat := 1_000_000_000_000

  predicate IsDigit(c: char) {
    '0' <= c <= '9'
  }

  predicate AllDigits(s: string) {
    forall i | 0 <= i < |s| :: IsDigit(s[i])
  }

  function Power(k: nat): (p: nat)
    ensures p >= 1
  {
    if k == 0 then 1 else 10 * Power(k - 1)
  }

  /** The number a string of digits denotes. */
  function Value(s: string): nat
    requires AllDigits(s)
  {
    if s == "" then 0 else 10 * Value(s[..|s| - 1]) + (s[|s| - 1] - '0') as nat
  }

  function Zeros(k: nat): (s: string)
    ensures |s| == k && AllDigits(s)
  {
    if k == 0 then "" else Zeros(k - 1) + "0"
  }

  function Digit(n: nat): (c: char)
    requires n < 10
    ensures IsDigit(c) && (c - '0') as nat == n
  {
    '0' + n as char
  }

  /** Decimal notation without leading zeros. */
  function Digits(n: nat): (s: string)
    ensures AllDigits(s) && s != ""
  {
    if n < 10 then [Digit(n)] else Digits(n / 10) + [Digit(n % 10)]
  }

  /** Decimal notation padded to `k` digits. */
  function Padded(n: nat, k: nat): (s: string)
    ensures |s| == k && AllDigits(s)
  {
    if k == 0 then "" else Padded(n / 10, k - 1) + [Digit(n % 10)]
  }

  function TrimZeros(s: string): (r: string)
    ensures |r| <= |s| && r == s[..|r|]
    ensures r != "" ==> r[|r| - 1] != '0'
  {
    if s != "" && s[|s| - 1] == '0' then TrimZeros(s[..|s| - 1]) else s
  }

  // ---------- reading ----------

  /** The first point, or the length if there is none. */
  function Point(q: string): (p: nat)
    ensures p <= |q| && (p < |q| ==> q[p] == '.')
    ensures forall i | 0 <= i < p :: q[i] != '.'
  {
    if q == "" || q[0] == '.' then 0 else 1 + Point(q[1..])
  }

  function Fraction(q: string): string {
    if Point(q) == |q| then "" else q[Point(q) + 1..]
  }

  /** One to seven digits, then optionally a point and one to six digits. */
  predicate IsQuantity(q: string) {
    var p := Point(q);
    && 1 <= p <= 7 && AllDigits(q[..p])
    && (p < |q| ==> 1 <= |q| - p - 1 <= 6 && AllDigits(q[p + 1..]))
  }

  /** The quantity in millionths. */
  function Scaled(q: string): nat
    requires IsQuantity(q)
  {
    Value(q[..Point(q)] + Fraction(q) + Zeros(6 - |Fraction(q)|))
  }

  // ---------- writing ----------

  function Print(n: nat): string {
    Digits(n / SCALE) + if n % SCALE == 0 then "" else "." + TrimZeros(Padded(n % SCALE, 6))
  }

  // ---------- lemmas ----------

  lemma Shift(v: nat, p: nat, f: nat, d: nat)
    ensures 10 * (v * p + f) + d == v * (10 * p) + (10 * f + d)
  {
  }

  lemma {:induction false} ValueOfConcat(a: string, b: string)
    requires AllDigits(a) && AllDigits(b)
    ensures AllDigits(a + b) && Value(a + b) == Value(a) * Power(|b|) + Value(b)
  {
    if b == "" {
      assert a + b == a;
    } else {
      var front, d := b[..|b| - 1], (b[|b| - 1] - '0') as nat;
      ValueOfConcat(a, front);
      assert (a + b)[..|a + b| - 1] == a + front;
      Shift(Value(a), Power(|front|), Value(front), d);
    }
  }

  lemma {:induction false} ValueOfDigits(n: nat)
    ensures Value(Digits(n)) == n
  {
    if n < 10 {
      assert Digits(n)[..0] == "";
    } else {
      ValueOfDigits(n / 10);
      assert Digits(n)[..|Digits(n)| - 1] == Digits(n / 10);
    }
  }

  lemma {:induction false} DigitsAreFew(n: nat, k: nat)
    requires k >= 1 && n < Power(k)
    ensures |Digits(n)| <= k
  {
    if n >= 10 {
      assert k > 1;
      DigitsAreFew(n / 10, k - 1);
    }
  }

  lemma {:induction false} ValueOfPadded(n: nat, k: nat)
    requires n < Power(k)
    ensures Value(Padded(n, k)) == n
  {
    if k > 0 {
      ValueOfPadded(n / 10, k - 1);
      assert Padded(n, k)[..k - 1] == Padded(n / 10, k - 1);
    }
  }

  lemma {:induction false} TrimmedZerosComeBack(s: string)
    ensures s == TrimZeros(s) + Zeros(|s| - |TrimZeros(s)|)
  {
    if s != "" && s[|s| - 1] == '0' {
      TrimmedZerosComeBack(s[..|s| - 1]);
      assert s == s[..|s| - 1] + "0";
    }
  }

  lemma {:induction false} ValueOfZeros(k: nat)
    ensures Value(Zeros(k)) == 0
  {
    if k > 0 {
      ValueOfZeros(k - 1);
      assert Zeros(k)[..k - 1] == Zeros(k - 1);
    }
  }

  lemma {:induction false} PointOf(whole: string, rest: string)
    requires AllDigits(whole) && (rest == "" || rest[0] == '.')
    ensures Point(whole + rest) == |whole|
  {
    if whole == "" {
      assert whole + rest == rest;
    } else {
      PointOf(whole[1..], rest);
      assert (whole + rest)[1..] == whole[1..] + rest;
    }
  }

  /** Reading digits, a point and at most six digits without a final zero. */
  lemma ReadParts(whole: string, trimmed: string, padded: string)
    requires AllDigits(whole) && AllDigits(padded) && 1 <= |whole| <= 7 && |padded| == 6 && 1 <= |trimmed| <= 6
    requires AllDigits(trimmed) && padded == trimmed + Zeros(6 - |trimmed|)
    ensures var q := whole + ("." + trimmed);
            IsQuantity(q) && Scaled(q) == Value(whole + padded)
  {
    var q := whole + ("." + trimmed);
    PointOf(whole, "." + trimmed);
    assert q[..|whole|] == whole && q[|whole| + 1..] == trimmed;
    assert whole + trimmed + Zeros(6 - |trimmed|) == whole + padded;
  }

  lemma ReadWhole(whole: string)
    requires AllDigits(whole) && 1 <= |whole| <= 7
    ensures IsQuantity(whole) && Scaled(whole) == Value(whole + Zeros(6))
  {
    assert whole + "" == whole;
    PointOf(whole, "");
    assert whole[..|whole|] == whole;
    assert whole + "" + Zeros(6) == whole + Zeros(6);
  }

  lemma AppendZeros(whole: string, k: nat)
    requires AllDigits(whole)
    ensures Value(whole + Zeros(k)) == Value(whole) * Power(k)
  {
    ValueOfConcat(whole, Zeros(k));
    ValueOfZeros(k);
  }

  lemma PaddedIsNonzero(n: nat)
    requires 0 < n < Power(6)
    ensures TrimZeros(Padded(n, 6)) != ""
  {
    TrimmedZerosComeBack(Padded(n, 6));
    ValueOfPadded(n, 6);
    ValueOfZeros(6);
    assert "" + Zeros(6) == Zeros(6);
  }

  lemma Powers()
    ensures Power(6) == SCALE && Power(7) == 10 * SCALE
  {
    assert Power(3) == 1000;
  }

  /** Writing a quantity and reading it back is the identity on every value the items accept. */
  lemma PrintThenRead(n: nat)
    requires 1 <= n <= MAX_SCALED
    ensures IsQuantity(Print(n)) && Scaled(Print(n)) == n
  {
    var whole, part := Digits(n / SCALE), n % SCALE;
    Powers();
    DigitsAreFew(n / SCALE, 7);
    ValueOfDigits(n / SCALE);
    if part == 0 {
      ReadWhole(whole);
      AppendZeros(whole, 6);
      assert Print(n) == whole;
    } else {
      var padded := Padded(part, 6);
      PaddedIsNonzero(part);
      TrimmedZerosComeBack(padded);
      ValueOfPadded(part, 6);
      ReadParts(whole, TrimZeros(padded), padded);
      ValueOfConcat(whole, padded);
    }
  }

  /** Equal quantities are written the same way, different ones differently. */
  lemma PrintIsInjective(m: nat, n: nat)
    requires 1 <= m <= MAX_SCALED && 1 <= n <= MAX_SCALED
    ensures Print(m) == Print(n) <==> m == n
  {
    PrintThenRead(m);
    PrintThenRead(n);
  }

  // ---------- what the texts mean ----------

  /** `q` is these digits, with a point between them if there is a fraction. */
  predicate Spells(q: string, whole: string, fraction: string) {
    && AllDigits(whole) && 1 <= |whole| <= 7 && AllDigits(fraction) && |fraction| <= 6
    && q == if fraction == "" then whole else whole + ("." + fraction)
  }

  /** A quantity is one to seven digits, or these, a point and one to six digits. */
  lemma QuantityIsSpelled(q: string)
    ensures IsQuantity(q) <==> exists whole, fraction :: Spells(q, whole, fraction)
  {
    if IsQuantity(q) {
      var p := Point(q);
      if p < |q| {
        assert q == q[..p] + ("." + q[p + 1..]);
        assert Spells(q, q[..p], q[p + 1..]);
      } else {
        assert q[..p] == q;
        assert Spells(q, q, "");
      }
    }
    if whole, fraction :| Spells(q, whole, fraction) {
      SpelledIsRead(q, whole, fraction);
    }
  }

  /** It stands for its whole part and that many tenths, hundredths and so on, in millionths. */
  lemma SpelledIsRead(q: string, whole: string, fraction: string)
    requires Spells(q, whole, fraction)
    ensures IsQuantity(q) && Scaled(q) == Value(whole) * SCALE + Value(fraction) * Power(6 - |fraction|)
  {
    Powers();
    var zeros := Zeros(6 - |fraction|);
    if fraction == "" {
      ReadWhole(whole);
      AppendZeros(whole, 6);
    } else {
      ReadParts(whole, fraction, fraction + zeros);
      ValueOfConcat(whole, fraction + zeros);
      AppendZeros(fraction, 6 - |fraction|);
    }
  }

  /** No zero leads the whole part but a single one, and none ends the fraction. */
  predicate Canonical(whole: string, fraction: string) {
    (|whole| > 1 ==> whole[0] != '0') && (fraction != "" ==> fraction[|fraction| - 1] != '0')
  }

  lemma {:induction false} DigitsLeadWithNoZero(n: nat)
    ensures |Digits(n)| > 1 ==> Digits(n)[0] != '0'
    ensures n > 0 ==> Digits(n)[0] != '0'
  {
    if n >= 10 {
      DigitsLeadWithNoZero(n / 10);
    }
  }

  /** What is written is canonical. */
  lemma PrintIsCanonical(n: nat) returns (whole: string, fraction: string)
    requires 1 <= n <= MAX_SCALED
    ensures Spells(Print(n), whole, fraction) && Canonical(whole, fraction)
  {
    whole, fraction := Digits(n / SCALE), "";
    Powers();
    DigitsAreFew(n / SCALE, 7);
    DigitsLeadWithNoZero(n / SCALE);
    if n % SCALE != 0 {
      fraction := TrimZeros(Padded(n % SCALE, 6));
      PaddedIsNonzero(n % SCALE);
    } else {
      assert whole + "" == whole;
    }
  }
}
