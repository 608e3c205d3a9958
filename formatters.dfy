/**
 * The text utilities of the calculator: percentage input parsing, Euclid's
 * gcd, the reduced-fraction printer, date-input masking, title casing, the
 * short label of a document and the per-person colour.
 */
module Formatters {
  import opened Text
  import opened Ownership
  import Seqs

  // ----- parsePercentageInput -----

  /** parsePercentageInput: a fraction `n/d` is `n/d*100` percent; any other
      number is taken as a percentage, except that one strictly between 0 and
      1 is read as a decimal share. `None` stands for `null`. */
  function ParsePercentageInput(value: string): (r: Option<real>)
    ensures (forall k :: 0 <= k < |value| ==> !IsDigit(value[k])) ==> r.None?
  {
    NoDigitIsNull(value);
    ParseTrimmed(Trim(value))
  }

  /** Text without a digit, the empty text included, reads as `null`. */
  lemma NoDigitIsNull(value: string)
    ensures (forall k :: 0 <= k < |value| ==> !IsDigit(value[k])) ==> ParseTrimmed(Trim(value)).None?
  {
    if forall k :: 0 <= k < |value| ==> !IsDigit(value[k]) {
      NoDigitAfterTrim(value);
      NoDigitReadsNull(Trim(value));
    }
  }

  /** Trimmed text without a digit reads as `null`, in either branch. */
  lemma NoDigitReadsNull(t: string)
    requires forall k :: 0 <= k < |t| ==> !IsDigit(t[k])
    ensures ParseTrimmed(t).None?
  {
    if '/' in t {
      NoDigitFractionIsNull(t);
    } else {
      ParseFloatNeedsDigit(t);
    }
  }

  /** The fraction branch finds no number in a numerator without a digit. */
  lemma NoDigitFractionIsNull(t: string)
    requires '/' in t
    requires forall k :: 0 <= k < |t| ==> !IsDigit(t[k])
    ensures FractionReading(t).None?
  {
    var p := Split(t, '/')[0];
    assert forall k :: 0 <= k < |p| ==> !IsDigit(p[k]) by {
      FirstPieceOfSplit(t, '/');
      assert forall k :: 0 <= k < |p| ==> p[k] == t[k];
    }
    NoDigitAfterTrim(p);
    ParseFloatNeedsDigit(Trim(p));
  }

  /** Trimming keeps a slice, so it adds no digit. */
  lemma NoDigitAfterTrim(s: string)
    requires forall k :: 0 <= k < |s| ==> !IsDigit(s[k])
    ensures forall k :: 0 <= k < |Trim(s)| ==> !IsDigit(Trim(s)[k])
  {
    var t := TrimStart(s);
    NoDigitInSlice(t, s, |s| - |t|);
    NoDigitInSlice(TrimEnd(t), t, 0);
  }

  lemma NoDigitInSlice(t: string, s: string, a: int)
    requires forall k :: 0 <= k < |s| ==> !IsDigit(s[k])
    requires 0 <= a <= |s| - |t| && t == s[a..a + |t|]
    ensures forall k :: 0 <= k < |t| ==> !IsDigit(t[k])
  {
    assert forall k :: 0 <= k < |t| ==> t[k] == s[a + k];
  }

  /** The first piece of a split is a prefix of the text. */
  lemma {:induction false} FirstPieceOfSplit(s: string, sep: char)
    ensures |Split(s, sep)[0]| <= |s| && Split(s, sep)[0] == s[..|Split(s, sep)[0]|]
  {
    if s != [] && s[0] != sep {
      var first := Split(s[1..], sep)[0];
      FirstPieceOfSplit(s[1..], sep);
      assert Split(s, sep)[0] == [s[0]] + first;
      assert s[..|first| + 1] == [s[0]] + s[1..][..|first|];
    }
  }

  /** The percentage a fraction stands for. */
  function FractionPercent(n: real, d: real): real
    requires d != 0.0
  {
    n / d * 100.0
  }

  /** The reading of the trimmed input text. */
  function ParseTrimmed(trimmed: string): (r: Option<real>)
    ensures '/' !in trimmed ==> (r.None? <==> ParseFloat(trimmed).None?)
    ensures '/' !in trimmed && r.Some? ==>
              (r.value < 0.0 <==> ParseFloat(trimmed).value < 0.0) && r.value >= ParseFloat(trimmed).value
    ensures '/' in trimmed && r.Some? ==>
              ParseFloat(Trim(Split(trimmed, '/')[0])).Some? && ParseFloat(Trim(Split(trimmed, '/')[1])).Some? &&
              ParseFloat(Trim(Split(trimmed, '/')[1])).value != 0.0
  {
    if '/' in trimmed then FractionReading(trimmed)
    else NumberPercent(ParseFloat(trimmed))
  }

  /** The fraction branch: the first two pieces around '/', each trimmed and
      read by parseFloat; `null` unless both are numbers and the second is
      not 0. */
  function FractionReading(trimmed: string): (r: Option<real>)
    requires '/' in trimmed
    ensures |Split(trimmed, '/')| >= 2
    ensures r.Some? ==>
              ParseFloat(Trim(Split(trimmed, '/')[0])).Some? && ParseFloat(Trim(Split(trimmed, '/')[1])).Some? &&
              ParseFloat(Trim(Split(trimmed, '/')[1])).value != 0.0
  {
    var parts := Split(trimmed, '/');
    var numerator := ParseFloat(Trim(parts[0]));
    var denominator := ParseFloat(Trim(parts[1]));
    if numerator.Some? && denominator.Some? && denominator.value != 0.0 then
      Some(FractionPercent(numerator.value, denominator.value))
    else None
  }

  /** A parsed number as a percentage: strictly between 0 and 1 it is a
      share and is scaled by 100; NaN stays `null`. */
  function NumberPercent(n: Option<real>): (r: Option<real>)
    ensures r.None? <==> n.None?
    ensures r.Some? ==> (r.value < 0.0 <==> n.value < 0.0) && r.value >= n.value
    ensures r.Some? && 0.0 < n.value < 1.0 ==> r.value == n.value * 100.0
    ensures r.Some? && !(0.0 < n.value < 1.0) ==> r.value == n.value
  {
    match n
    case None => None
    case Some(num) => if 0.0 < num < 1.0 then Some(num * 100.0) else Some(num)
  }

  lemma NatTextIsTrimmed(n: nat)
    ensures IsTrimmed(NatText(n)) && Trim(NatText(n)) == NatText(n)
    ensures '/' !in NatText(n)
  {
    var t := NatText(n);
    assert IsDigit(t[0]) && IsDigit(t[|t| - 1]);
    TrimmedIsFixed(t);
  }

  /** A whole number of percent is taken as written, 0 and values above 100 included. */
  lemma ParseWholePercentage(n: nat)
    ensures ParsePercentageInput(NatText(n)) == Some(n as real)
  {
    NatTextIsTrimmed(n);
    ParseFloatNatText(n);
  }

  /** `a/b` is `a/b*100` percent, and `null` when the denominator is 0. */
  lemma ParseFraction(a: nat, b: nat)
    ensures ParsePercentageInput(NatText(a) + "/" + NatText(b)) ==
            if b == 0 then None else Some(FractionPercent(a as real, b as real))
  {
    var na, nb := NatText(a), NatText(b);
    var s := na + "/" + nb;
    assert '/' in s && Split(s, '/') == [na, nb] && Trim(s) == s by {
      FractionTextShape(na, nb);
    }
    assert ParseFloat(Trim(na)) == Some(a as real) by {
      NatTextIsTrimmed(a);
      ParseFloatNatText(a);
    }
    assert ParseFloat(Trim(nb)) == Some(b as real) by {
      NatTextIsTrimmed(b);
      ParseFloatNatText(b);
    }
    ParseSlashed(s, a, b);
  }

  /** Text that is already trimmed and has a '/' reads as its fraction. */
  lemma ParseSlashed(s: string, a: nat, b: nat)
    requires '/' in s && |Split(s, '/')| >= 2 && Trim(s) == s
    requires ParseFloat(Trim(Split(s, '/')[0])) == Some(a as real) && ParseFloat(Trim(Split(s, '/')[1])) == Some(b as real)
    ensures ParsePercentageInput(s) == if b == 0 then None else Some(FractionPercent(a as real, b as real))
  {
    assert ParsePercentageInput(s) == ParseTrimmed(s);
    assert (b as real != 0.0) == (b != 0);
    ParseTrimmedFraction(s, a as real, b as real);
  }

  /** Two digit strings around a slash: trimmed already, and split at the slash. */
  lemma FractionTextShape(na: string, nb: string)
    requires na != [] && nb != []
    requires forall k :: 0 <= k < |na| ==> IsDigit(na[k])
    requires forall k :: 0 <= k < |nb| ==> IsDigit(nb[k])
    ensures Trim(na + "/" + nb) == na + "/" + nb
    ensures '/' in na + "/" + nb
    ensures Split(na + "/" + nb, '/') == [na, nb]
  {
    var s := na + "/" + nb;
    assert s[0] == na[0] && s[|s| - 1] == nb[|nb| - 1];
    DigitEndsTrimmed(s);
    assert s[|na|] == '/';
    NoSlashInDigits(na);
    NoSlashInDigits(nb);
    JoinPair(na, nb, "/");
    SplitJoin([na, nb], '/');
  }

  lemma DigitEndsTrimmed(s: string)
    requires s != [] && IsDigit(s[0]) && IsDigit(s[|s| - 1])
    ensures Trim(s) == s
  {
    TrimmedIsFixed(s);
  }

  lemma NoSlashInDigits(ds: string)
    requires forall k :: 0 <= k < |ds| ==> IsDigit(ds[k])
    ensures '/' !in ds
  {
    assert forall k :: 0 <= k < |ds| ==> ds[k] != '/';
  }

  lemma JoinPair(a: string, b: string, sep: string)
    ensures Join([a, b], sep) == a + sep + b
  {
    assert [a, b][1..] == [b];
  }

  /** With a slash, the first two pieces are read as numerator and
      denominator; any further piece is ignored. */
  lemma ParseTrimmedFraction(s: string, x: real, y: real)
    requires '/' in s
    requires ParseFloat(Trim(Split(s, '/')[0])) == Some(x) && ParseFloat(Trim(Split(s, '/')[1])) == Some(y)
    ensures ParseTrimmed(s) == if y != 0.0 then Some(FractionPercent(x, y)) else None
  {
  }

  /** `a/b/c` reads as `a/b`: the third piece is ignored. */
  lemma ParseIgnoresThirdPiece(a: nat, b: nat, c: nat)
    ensures ParsePercentageInput(NatText(a) + "/" + NatText(b) + "/" + NatText(c)) ==
            if b == 0 then None else Some(FractionPercent(a as real, b as real))
  {
    var na, nb, nc := NatText(a), NatText(b), NatText(c);
    var s := na + "/" + nb + "/" + nc;
    assert '/' in s && |Split(s, '/')| >= 2 && Split(s, '/')[0] == na && Split(s, '/')[1] == nb && Trim(s) == s by {
      ThreePieceShape(na, nb, nc);
    }
    assert ParseFloat(Trim(na)) == Some(a as real) by {
      NatTextIsTrimmed(a);
      ParseFloatNatText(a);
    }
    assert ParseFloat(Trim(nb)) == Some(b as real) by {
      NatTextIsTrimmed(b);
      ParseFloatNatText(b);
    }
    ParseSlashed(s, a, b);
  }

  /** Three digit strings joined by slashes: trimmed already, and split at the slashes. */
  lemma ThreePieceShape(na: string, nb: string, nc: string)
    requires na != [] && nc != []
    requires forall k :: 0 <= k < |na| ==> IsDigit(na[k])
    requires forall k :: 0 <= k < |nb| ==> IsDigit(nb[k])
    requires forall k :: 0 <= k < |nc| ==> IsDigit(nc[k])
    ensures var s := na + "/" + nb + "/" + nc;
      Trim(s) == s && '/' in s && |Split(s, '/')| >= 2 && Split(s, '/')[0] == na && Split(s, '/')[1] == nb
  {
    var s := na + "/" + nb + "/" + nc;
    assert s == na + ['/'] + (nb + ['/'] + nc);
    assert s[0] == na[0] && s[|s| - 1] == nc[|nc| - 1];
    DigitEndsTrimmed(s);
    assert s[|na|] == '/';
    NoSlashInDigits(na);
    NoSlashInDigits(nb);
    SplitAfterPiece(na, nb + ['/'] + nc, '/');
    SplitAfterPiece(nb, nc, '/');
  }

  /** Trimmed text without a slash is read by parseFloat and then taken as
      a percentage by NumberPercent: a number strictly between 0 and 1 is a
      share and is multiplied by 100, any other number is already a
      percentage, and NaN is `null`. */
  lemma ParsePlain(s: string)
    requires Trim(s) == s && '/' !in s
    ensures ParsePercentageInput(s) == NumberPercent(ParseFloat(s))
  {
    assert ParsePercentageInput(s) == ParseTrimmed(s);
  }

  /** A negative number is passed through unchanged. */
  lemma ParseNegative(n: nat)
    ensures ParsePercentageInput("-" + NatText(n)) == Some(-(n as real))
  {
    NegativeTextShape(NatText(n));
    ParseFloatNegative(n);
    ParsePlain("-" + NatText(n));
  }

  /** A minus sign and digits: trimmed already, and without a slash. */
  lemma NegativeTextShape(w: string)
    requires w != [] && forall k :: 0 <= k < |w| ==> IsDigit(w[k])
    ensures Trim("-" + w) == "-" + w && '/' !in "-" + w
  {
    var s := "-" + w;
    assert s[0] == '-' && !IsSpace(s[0]);
    assert s[|s| - 1] == w[|w| - 1];
    assert IsDigit(s[|s| - 1]) && !IsSpace(s[|s| - 1]);
    assert IsTrimmed(s);
    TrimmedIsFixed(s);
    forall k | 0 <= k < |s|
      ensures s[k] != '/'
    {
      if k > 0 {
        assert s[k] == w[k - 1];
      }
    }
  }

  /** Decimal text is read as a number and then as a percentage: a value
      strictly between 0 and 1 is a share, any other is kept. */
  lemma ParseDecimal(w: string, ds: string)
    requires w != [] && forall k :: 0 <= k < |w| ==> IsDigit(w[k])
    requires forall k :: 0 <= k < |ds| ==> IsDigit(ds[k])
    ensures ParsePercentageInput(w + "." + ds) == NumberPercent(Some(DigitsValue(w) as real + FractionValue(ds)))
  {
    DecimalTextShape(w, ds);
    ParseFloatDecimal(w, ds);
    ParsePlain(w + "." + ds);
  }

  /** Digits, a point and digits: trimmed already, and without a slash. */
  lemma DecimalTextShape(w: string, ds: string)
    requires w != [] && forall k :: 0 <= k < |w| ==> IsDigit(w[k])
    requires forall k :: 0 <= k < |ds| ==> IsDigit(ds[k])
    ensures Trim(w + "." + ds) == w + "." + ds && '/' !in w + "." + ds
  {
    var s := w + "." + ds;
    assert s[0] == w[0];
    assert !IsSpace(s[0]);
    if ds == [] {
      assert s[|s| - 1] == '.';
    } else {
      assert s[|s| - 1] == ds[|ds| - 1];
    }
    assert IsTrimmed(s);
    TrimmedIsFixed(s);
    forall k | 0 <= k < |s|
      ensures s[k] != '/'
    {
      if k < |w| {
        assert s[k] == w[k];
      } else if k > |w| {
        assert s[k] == ds[k - |w| - 1];
      }
    }
  }

  /** Text that is not a number, and empty text, read as `null`. */
  lemma ParseExampleNotANumber()
    ensures ParsePercentageInput("abc") == None
    ensures ParsePercentageInput("") == None
  {
    assert ParsePercentageInput("abc") == None by {
      assert forall k :: 0 <= k < |"abc"| ==> !IsDigit("abc"[k]);
      NoDigitIsNull("abc");
    }
    assert ParsePercentageInput("") == None by {
      NoDigitIsNull("");
    }
  }

  /** Leading white space does not change the reading. */
  lemma ParseSkipsLeadingSpace(w: string, s: string)
    requires forall k :: 0 <= k < |w| ==> IsSpace(w[k])
    ensures ParsePercentageInput(w + s) == ParsePercentageInput(s)
  {
    TrimStartSkipsSpace(w, s);
    assert Trim(w + s) == Trim(s);
  }

  lemma {:induction false} TrimStartSkipsSpace(w: string, s: string)
    requires forall k :: 0 <= k < |w| ==> IsSpace(w[k])
    ensures TrimStart(w + s) == TrimStart(s)
  {
    if w == [] {
      assert w + s == s;
    } else {
      assert (w + s)[1..] == w[1..] + s;
      TrimStartSkipsSpace(w[1..], s);
    }
  }

  // ----- gcd -----

  /** `Math.round`: halves go up, towards positive infinity. */
  function Round(x: real): (r: int)
    ensures r as real - 0.5 <= x < r as real + 0.5
  {
    (x + 0.5).Floor
  }

  function Abs(i: int): (r: nat)
    ensures r == i || r == -i
  {
    if i < 0 then -i else i
  }

  /** `d` divides `n`; only 0 is a multiple of 0. */
  predicate Divides(d: nat, n: int) {
    if d == 0 then n == 0 else n % d == 0
  }

  /** Euclid's algorithm, the reference the loop of `Gcd` is proved against. */
  function Euclid(a: nat, b: nat): (r: nat)
    ensures r == 0 <==> a == 0 && b == 0
    decreases b
  {
    if b == 0 then a else Euclid(b, a % b)
  }

  /** gcd: Euclid's loop on the rounded magnitudes of its arguments. */
  method Gcd(a: real, b: real) returns (g: nat)
    ensures g == Euclid(Abs(Round(a)), Abs(Round(b)))
  {
    var x: nat := Abs(Round(a));
    var y: nat := Abs(Round(b));
    while y != 0
      invariant Euclid(x, y) == Euclid(Abs(Round(a)), Abs(Round(b)))
      decreases y
    {
      var t := y;
      y := x % y;
      x := t;
    }
    return x;
  }

  lemma MultipleMod(d: nat, k: int)
    requires d > 0
    ensures (d * k) % d == 0 && (d * k) / d == k
  {
    var m := d * k;
    var t := k - m / d;
    assert d * t == m % d;
  }

  /** A divisor of `x` and `y` divides `x * q + y`. */
  lemma DividesCombination(g: nat, x: int, y: int, q: int)
    requires Divides(g, x) && Divides(g, y)
    ensures Divides(g, x * q + y)
  {
    if g > 0 {
      var kx, ky := x / g, y / g;
      assert x == g * kx && y == g * ky;
      assert x * q + y == g * (kx * q + ky);
      MultipleMod(g, kx * q + ky);
    }
  }

  /** The result of Euclid's algorithm divides both arguments. */
  lemma {:induction false} EuclidDivides(a: nat, b: nat)
    ensures Divides(Euclid(a, b), a) && Divides(Euclid(a, b), b)
    decreases b
  {
    if b == 0 {
      if a > 0 {
        MultipleMod(a, 1);
        MultipleMod(a, 0);
      }
    } else {
      EuclidDivides(b, a % b);
      DividesCombination(Euclid(a, b), b, a % b, a / b);
      assert b * (a / b) + a % b == a;
    }
  }

  /** Every common divisor of the arguments divides Euclid's result. */
  lemma {:induction false} EuclidGreatest(a: nat, b: nat, d: nat)
    requires Divides(d, a) && Divides(d, b)
    ensures Divides(d, Euclid(a, b))
    decreases b
  {
    if b > 0 {
      DividesCombination(d, b, a, -(a / b));
      assert b * -(a / b) + a == a % b;
      EuclidGreatest(b, a % b, d);
    }
  }

  lemma DivisorBound(d: nat, n: nat)
    requires Divides(d, n) && n > 0
    ensures 0 < d <= n
  {
  }

  /** gcd(x, 0) = gcd(0, x) = |x|: with one argument 0, the result is the
      magnitude of the other. */
  lemma EuclidWithZero(x: nat)
    ensures Euclid(x, 0) == x && Euclid(0, x) == x
  {
    if x > 0 {
      assert 0 % x == 0;
    }
  }

  /** The loop's result is the greatest common divisor of the rounded
      magnitudes, so the signs of the arguments do not matter. */
  lemma EuclidIsGreatestCommonDivisor(a: nat, b: nat, d: nat)
    requires a > 0 || b > 0
    ensures Divides(Euclid(a, b), a) && Divides(Euclid(a, b), b)
    ensures Divides(d, a) && Divides(d, b) ==> d <= Euclid(a, b)
  {
    EuclidDivides(a, b);
    if Divides(d, a) && Divides(d, b) {
      EuclidGreatest(a, b, d);
      DivisorBound(d, Euclid(a, b));
    }
  }

  // ----- formatFraction -----

  const Precision: nat := 1000000

  /** `Math.round(decimal * precision)` where `decimal` is the percentage over 100. */
  function ScaledNumerator(p: real): int {
    Round(p / 100.0 * Precision as real)
  }

  /** The numerator and denominator formatFraction prints for `p` (other than
      0 and 100): the fraction `round(p * 10^4) / 10^6` in lowest terms. */
  function Reduced(p: real): (r: (int, nat))
    ensures r.1 > 0 && Precision % r.1 == 0
    ensures r.0 * Precision as int == ScaledNumerator(p) * r.1
    ensures Euclid(Abs(r.0), r.1) == 1
  {
    var n := ScaledNumerator(p);
    var g := Euclid(Abs(n), Precision);
    ReducedFacts(n, g);
    (n / g, Precision / g)
  }

  lemma ReducedFacts(n: int, g: nat)
    requires g == Euclid(Abs(n), Precision)
    ensures g > 0 && n % g == 0 && Precision % g == 0
    ensures Precision / g > 0 && Precision % (Precision / g) == 0
    ensures (n / g) * Precision as int == n * (Precision / g)
    ensures Euclid(Abs(n / g), Precision / g) == 1
  {
    EuclidDivides(Abs(n), Precision);
    assert g > 0;
    DividesSigned(g, n);
    var k, d := n / g, Precision / g;
    assert n == g * k && Precision == g * d;
    PositiveFactor(g, d);
    MultipleMod(d, g);
    Commute(n, g, k, d);
    AbsQuotient(g, n);
    Coprime(Abs(k), d, g, Abs(n), Precision);
  }

  lemma Commute(n: int, g: int, k: int, d: int)
    requires n == g * k
    ensures k * (g * d) == n * d && g * d == d * g && g * k == k * g
  {
  }

  lemma PositiveFactor(g: nat, d: int)
    requires g > 0 && g * d > 0
    ensures d > 0
  {
  }

  /** Divisibility does not depend on the sign. */
  lemma DividesSigned(g: nat, n: int)
    requires g > 0
    ensures Divides(g, Abs(n)) <==> Divides(g, n)
  {
    if n < 0 {
      if n % g == 0 {
        assert n == g * (n / g);
        assert -n == g * -(n / g);
        MultipleMod(g, -(n / g));
      }
      if (-n) % g == 0 {
        assert -n == g * ((-n) / g);
        assert n == g * -((-n) / g);
        MultipleMod(g, -((-n) / g));
      }
    }
  }

  lemma AbsQuotient(g: nat, n: int)
    requires g > 0 && n % g == 0
    ensures Abs(n / g) == Abs(n) / g && Abs(n) == g * Abs(n / g)
  {
    var k := n / g;
    assert n == g * k;
    if n < 0 {
      assert Abs(n) == g * -k;
      MultipleMod(g, -k);
    } else {
      MultipleMod(g, k);
    }
  }

  /** Dividing `n` and `m` by their gcd `g` leaves numbers whose gcd is 1. */
  lemma Coprime(a: nat, d: nat, g: nat, n: nat, m: nat)
    requires g > 0 && d > 0 && n == a * g && m == d * g
    requires Euclid(n, m) == g
    ensures Euclid(a, d) == 1
  {
    var c := Euclid(a, d);
    EuclidDivides(a, d);
    var cg := c * g;
    ScaleDivides(c, g, a);
    ScaleDivides(c, g, d);
    assert Divides(cg, n) && Divides(cg, m);
    EuclidGreatest(n, m, cg);
    DivisorBound(cg, g);
    FactorAtMostOne(c, g);
  }

  lemma FactorAtMostOne(c: nat, g: nat)
    requires g > 0 && c * g <= g
    ensures c <= 1
  {
    assert c * g - g == (c - 1) * g;
  }

  /** Multiplying a divisor and its multiple by the same factor keeps the division. */
  lemma ScaleDivides(c: nat, g: nat, x: nat)
    requires c > 0 && g > 0 && Divides(c, x)
    ensures Divides(c * g, x * g)
  {
    var q := x / c;
    assert x == c * q;
    assert x * g == (c * g) * q;
    MultipleMod(c * g, q);
  }

  lemma RoundOfExactQuotient(n: int, g: nat)
    requires g > 0 && n % g == 0
    ensures Round(n as real / g as real) == n / g
  {
    var k := n / g;
    assert n == g * k;
    assert n as real == g as real * k as real;
    assert n as real / g as real == k as real;
  }

  lemma RoundOfInt(k: int)
    ensures Round(k as real) == k
  {
  }

  /** The text formatFraction shows for `p`. */
  function FractionText(p: real): string {
    if p == 0.0 then "0"
    else if p == 100.0 then "1/1"
    else IntText(Reduced(p).0) + "/" + IntText(Reduced(p).1)
  }

  /** formatFraction: "0", "1/1", or the fraction `round(p * 10^4) / 10^6` in
      lowest terms. The zero-divisor branch of the source cannot be taken:
      Euclid's result with 10^6 is never 0. */
  method FormatFraction(percentage: real) returns (s: string)
    ensures s == FractionText(percentage)
  {
    if percentage == 0.0 {
      return "0";
    }
    if percentage == 100.0 {
      return "1/1";
    }
    var decimal := percentage / 100.0;
    var precision := Precision;
    var numerator := Round(decimal * precision as real);
    var denominator := precision;
    assert numerator == ScaledNumerator(percentage);
    RoundOfInt(numerator);
    RoundOfInt(denominator);
    var divisor := Gcd(numerator as real, denominator as real);
    assert divisor == Euclid(Abs(numerator), Precision);
    ReducedFacts(numerator, divisor);
    if divisor == 0 {
      assert false;
    }
    RoundOfExactQuotient(numerator, divisor);
    RoundOfExactQuotient(denominator, divisor);
    ghost var reduced := Reduced(percentage);
    assert reduced == (numerator / divisor, Precision / divisor);
    numerator := Round(numerator as real / divisor as real);
    denominator := Round(denominator as real / divisor as real);
    assert numerator == reduced.0 && denominator == reduced.1;
    return IntText(numerator) + "/" + IntText(denominator);
  }

  /** A percentage too small to reach one millionth of the whole prints as "0/1". */
  lemma FractionOfTinyShare(p: real)
    requires p != 0.0 && -0.00005 <= p < 0.00005
    ensures FractionText(p) == "0/1"
  {
    assert ScaledNumerator(p) == 0;
    EuclidWithZero(Precision);
    assert Reduced(p) == (0, 1);
  }

  /** 3.125% is one thirty-second. */
  lemma FractionOfThirtySecond()
    ensures FractionText(3.125) == "1/32"
  {
    assert ScaledNumerator(3.125) == 31250;
    assert Euclid(31250, Precision) == 31250 by {
      assert Euclid(31250, Precision) == Euclid(Precision, 31250) == Euclid(31250, 0);
    }
    assert Reduced(3.125) == (1, 32);
    assert IntText(32) == "32" by {
      assert NatText(32) == NatText(3) + [DigitChar(2)];
    }
  }

  /** 0.1% is one thousandth. */
  lemma FractionOfThousandth()
    ensures FractionText(0.1) == "1/1000"
  {
    ReducedThousandth();
    FractionTextOfReduced(0.1, 1, 1000);
    ThousandText();
  }

  /** Outside 0 and 100, the text is the reduced numerator and denominator around a slash. */
  lemma FractionTextOfReduced(p: real, n: int, d: nat)
    requires p != 0.0 && p != 100.0 && Reduced(p) == (n, d)
    ensures FractionText(p) == IntText(n) + "/" + IntText(d)
  {
  }

  lemma ThousandText()
    ensures IntText(1) + "/" + IntText(1000) == "1/1000"
  {
    assert IntText(1) == "1";
    assert IntText(1000) == "1000" by {
      assert NatText(10) == "10";
      assert NatText(100) == "100";
      assert NatText(1000) == NatText(100) + [DigitChar(0)];
    }
  }

  /** round(0.1 / 100 · 10^6) = 1000, which divides 10^6. */
  lemma ReducedThousandth()
    ensures Reduced(0.1) == (1, 1000)
  {
    assert ScaledNumerator(0.1) == 1000;
    assert Euclid(1000, Precision) == 1000 by {
      assert Euclid(1000, Precision) == Euclid(Precision, 1000) == Euclid(1000, 0);
    }
  }

  /** round(50 / 100 · 10^6) = 500000, which divides 10^6. */
  lemma ReducedHalf()
    ensures Reduced(50.0) == (1, 2)
  {
    assert ScaledNumerator(50.0) == 500000;
    assert Euclid(500000, Precision) == 500000 by {
      assert Euclid(500000, Precision) == Euclid(Precision, 500000) == Euclid(500000, 0);
    }
  }

  /** 50% is one half. */
  lemma FractionOfHalf()
    ensures FractionText(50.0) == "1/2"
  {
    ReducedHalf();
    assert IntText(1) == "1" && IntText(2) == "2";
  }

  // ----- formatDateInput -----

  /** `value.replace(/\D/g, '')`: the decimal digits of `value`, in order. */
  function Digits(value: string): (r: string)
    ensures |r| <= |value|
    ensures forall k :: 0 <= k < |r| ==> IsDigit(r[k])
  {
    if value == [] then []
    else if IsDigit(value[0]) then [value[0]] + Digits(value[1..])
    else Digits(value[1..])
  }

  /** `replace(/\D/g, '')` is the filter that keeps the digits: every digit
      of the input, in order and with its multiplicity. */
  lemma {:induction false} DigitsAreFiltered(value: string)
    ensures Digits(value) == Seqs.Filter(value, IsDigit)
  {
    if value != [] {
      DigitsAreFiltered(value[1..]);
    }
  }

  function Min(a: int, b: int): int {
    if a < b then a else b
  }

  /** formatDateInput: the first eight digits of the input as `MM/DD/YYYY`,
      with a slash only where more digits follow. */
  function FormatDateInput(value: string): (r: string)
    ensures Digits(r) == Digits(value)[..Min(8, |Digits(value)|)]
    ensures forall k :: 0 <= k < |r| ==> IsDigit(r[k]) || r[k] == '/'
    ensures (|Digits(value)| > 2) == (|r| > 2 && r[2] == '/')
    ensures (|Digits(value)| > 4) == (|r| > 5 && r[5] == '/')
    ensures forall k :: 0 <= k < |r| && r[k] == '/' ==> k == 2 || k == 5
    ensures |r| == Min(8, |Digits(value)|) + (if |Digits(value)| > 2 then 1 else 0) + (if |Digits(value)| > 4 then 1 else 0)
    ensures |r| <= 10
  {
    var digits := Digits(value);
    if |digits| <= 2 then
      DigitsOfDigits(digits);
      assert digits[..Min(8, |digits|)] == digits;
      digits
    else if |digits| <= 4 then
      MaskMonth(digits);
      SlashAfterMonth(digits);
      digits[..2] + "/" + digits[2..]
    else
      MaskMonthDay(digits);
      SlashesAfterMonthAndDay(digits, Min(8, |digits|));
      digits[..2] + "/" + digits[2..4] + "/" + digits[4..Min(8, |digits|)]
  }

  lemma {:induction false} DigitsOfDigits(d: string)
    requires forall k :: 0 <= k < |d| ==> IsDigit(d[k])
    ensures Digits(d) == d
  {
    if d != [] {
      DigitsOfDigits(d[1..]);
      assert d == [d[0]] + d[1..];
    }
  }

  lemma {:induction false} DigitsAppend(a: string, b: string)
    ensures Digits(a + b) == Digits(a) + Digits(b)
  {
    if a == [] {
      assert a + b == b;
    } else {
      assert (a + b)[1..] == a[1..] + b;
      DigitsAppend(a[1..], b);
    }
  }

  /** The slash contributes no digit. */
  lemma DigitsAroundSlash(a: string, b: string)
    ensures Digits(a + "/" + b) == Digits(a) + Digits(b)
  {
    DigitsAppend(a + "/", b);
    DigitsAppend(a, "/");
    assert Digits("/") == [];
  }

  lemma MaskMonth(d: string)
    requires forall k :: 0 <= k < |d| ==> IsDigit(d[k])
    requires 2 < |d| <= 4
    ensures Digits(d[..2] + "/" + d[2..]) == d[..Min(8, |d|)]
  {
    DigitsAroundSlash(d[..2], d[2..]);
    DigitsOfDigits(d[..2]);
    DigitsOfDigits(d[2..]);
    assert d[..2] + d[2..] == d == d[..Min(8, |d|)];
  }

  lemma MaskMonthDay(d: string)
    requires forall k :: 0 <= k < |d| ==> IsDigit(d[k])
    requires 4 < |d|
    ensures Digits(d[..2] + "/" + d[2..4] + "/" + d[4..Min(8, |d|)]) == d[..Min(8, |d|)]
  {
    var m := Min(8, |d|);
    var p := d[..m];
    assert forall k :: 0 <= k < m ==> p[k] == d[k];
    var a, b, c := p[..2], p[2..4], p[4..];
    assert a == d[..2] && b == d[2..4] && c == d[4..m];
    DigitsAroundSlash(a + "/" + b, c);
    DigitsAroundSlash(a, b);
    DigitsOfDigits(p);
    DigitsAppend(a + b, c);
    DigitsAppend(a, b);
    assert a + b + c == p;
  }

  /** The month mask has one slash, at index 2. */
  lemma SlashAfterMonth(d: string)
    requires forall k :: 0 <= k < |d| ==> IsDigit(d[k])
    requires 2 < |d|
    ensures var r := d[..2] + "/" + d[2..];
      |r| == |d| + 1 && forall k :: 0 <= k < |r| ==> if k == 2 then r[k] == '/' else IsDigit(r[k])
  {
    var r := d[..2] + "/" + d[2..];
    forall k | 0 <= k < |r| && k != 2
      ensures IsDigit(r[k])
    {
      if k < 2 {
        assert r[k] == d[k];
      } else {
        assert r[k] == d[k - 1];
      }
    }
  }

  /** The month/day mask has two slashes, at indices 2 and 5. */
  lemma SlashesAfterMonthAndDay(d: string, m: nat)
    requires forall k :: 0 <= k < |d| ==> IsDigit(d[k])
    requires 4 < m <= |d|
    ensures var r := d[..2] + "/" + d[2..4] + "/" + d[4..m];
      |r| == m + 2 && forall k :: 0 <= k < |r| ==> if k == 2 || k == 5 then r[k] == '/' else IsDigit(r[k])
  {
    var r := d[..2] + "/" + d[2..4] + "/" + d[4..m];
    forall k | 0 <= k < |r| && k != 2 && k != 5
      ensures IsDigit(r[k])
    {
      if k < 2 {
        assert r[k] == d[k];
      } else if k < 5 {
        assert r[k] == d[k - 1];
      } else {
        assert r[k] == d[k - 2];
      }
    }
  }

  /** Masking an already masked date changes nothing. */
  lemma FormatDateIdempotent(value: string)
    ensures FormatDateInput(FormatDateInput(value)) == FormatDateInput(value)
  {
    var d := Digits(value);
    var d' := Digits(FormatDateInput(value));
    assert d' == d[..Min(8, |d|)];
    if |d| > 4 {
      assert d'[..2] == d[..2] && d'[2..4] == d[2..4] && d'[4..Min(8, |d'|)] == d[4..Min(8, |d|)];
    } else if |d| > 2 {
      assert d' == d && d'[..2] == d[..2] && d'[2..] == d[2..];
    }
  }

  // ----- toTitleCase -----

  /** A character of the regular-expression class `\w`. */
  predicate IsWordChar(c: char) {
    'a' <= c <= 'z' || 'A' <= c <= 'Z' || '0' <= c <= '9' || c == '_'
  }

  predicate IsUpper(c: char) { 'A' <= c <= 'Z' }

  predicate IsLower(c: char) { 'a' <= c <= 'z' }

  function ToLower(c: char): (r: char)
    ensures IsWordChar(r) == IsWordChar(c)
  {
    if IsUpper(c) then (c as int + 32) as char else c
  }

  function ToUpper(c: char): (r: char)
    ensures IsWordChar(r) == IsWordChar(c)
  {
    if IsLower(c) then (c as int - 32) as char else c
  }

  /** Position `i` starts a word: `\b\w` matches there. */
  predicate WordStart(s: string, i: nat)
    requires i < |s|
  {
    IsWordChar(s[i]) && (i == 0 || !IsWordChar(s[i - 1]))
  }

  /** toTitleCase: lower-case everything, then upper-case the first character of every word. */
  function ToTitleCase(s: string): (r: string)
    ensures |r| == |s|
    ensures forall i {:trigger r[i]} :: 0 <= i < |s| ==> ToLower(r[i]) == ToLower(s[i])
    ensures forall i {:trigger r[i]} :: 0 <= i < |s| ==>
              (IsUpper(r[i]) <==> WordStart(s, i) && (IsUpper(s[i]) || IsLower(s[i])))
  {
    if s == "" then s
    else
      var lower := seq(|s|, i requires 0 <= i < |s| => ToLower(s[i]));
      assert forall i :: 0 <= i < |s| ==> (WordStart(lower, i) <==> WordStart(s, i));
      seq(|s|, i requires 0 <= i < |s| => if WordStart(lower, i) then ToUpper(lower[i]) else lower[i])
  }

  /** Title-casing twice is title-casing once. */
  lemma TitleCaseIdempotent(s: string)
    ensures ToTitleCase(ToTitleCase(s)) == ToTitleCase(s)
  {
    var r := ToTitleCase(s);
    assert forall i :: 0 <= i < |s| ==> IsWordChar(r[i]) == IsWordChar(s[i]) by {
      forall i | 0 <= i < |s|
        ensures IsWordChar(r[i]) == IsWordChar(s[i])
      {
        assert ToLower(r[i]) == ToLower(s[i]);
      }
    }
    assert forall i :: 0 <= i < |s| ==> (WordStart(r, i) <==> WordStart(s, i));
  }

  // ----- getDocumentLabel -----

  /** The document part of a label: `(book/page)` when both are recorded, else
      the instrument number, else the first 12 characters of the title. */
  function DocReference(form: DocForm): (r: string)
    ensures form.book != "" && form.page != "" ==> r == "(" + form.book + "/" + form.page + ")"
    ensures !(form.book != "" && form.page != "") && form.instrumentNumber != "" ==> r == form.instrumentNumber
    ensures !(form.book != "" && form.page != "") && form.instrumentNumber == "" ==>
              |r| == Min(12, |form.documentTitle|) && r == form.documentTitle[..|r|]
    ensures r == "" <==> !(form.book != "" && form.page != "") && form.instrumentNumber == "" && form.documentTitle == ""
  {
    if form.book != "" && form.page != "" then "(" + form.book + "/" + form.page + ")"
    else if form.instrumentNumber != "" then form.instrumentNumber
    else form.documentTitle[..Min(12, |form.documentTitle|)]
  }

  /** getDocumentLabel: the document part and the relationship, each only when
      present, separated by one space. */
  method DocumentLabel(doc: Option<Document>, relationship: string) returns (text: string)
    ensures doc.None? && relationship == "" ==> text == ""
    ensures relationship == "" ==> text == (if doc.Some? then DocReference(doc.value.form) else "")
    ensures relationship != "" ==>
              text == (if doc.Some? && DocReference(doc.value.form) != "" then DocReference(doc.value.form) + " " else "") + relationship
  {
    if doc.None? && relationship == "" {
      return "";
    }
    var parts: seq<string> := [];
    if doc.Some? {
      var reference := DocReference(doc.value.form);
      if reference != "" {
        parts := parts + [reference];
      }
    }
    if relationship != "" {
      parts := parts + [relationship];
    }
    text := Join(parts, " ");
    if |parts| == 2 {
      JoinPair(parts[0], parts[1], " ");
      assert parts == [parts[0], parts[1]];
    }
  }

  // ----- getPersonColor -----

  /** PERSON_COLORS. */
  const PersonColors: seq<string> := ["#6366f1", "#06b6d4", "#f59e0b", "#10b981", "#ec4899",
                                      "#8b5cf6", "#14b8a6", "#f97316", "#3b82f6", "#84cc16"]

  /** `persons.findIndex(p => p.id === personId)`: -1 when absent. */
  function FindIndex(persons: seq<Person>, personId: Id): (r: int)
    ensures -1 <= r < |persons|
    ensures r == -1 <==> forall k :: 0 <= k < |persons| ==> persons[k].id != personId
    ensures r >= 0 ==> persons[r].id == personId && forall k :: 0 <= k < r ==> persons[k].id != personId
  {
    if persons == [] then -1
    else if persons[0].id == personId then 0
    else
      var r := FindIndex(persons[1..], personId);
      if r == -1 then -1 else r + 1
  }

  /** getPersonColor: the palette entry at the person's index, cycling every
      ten persons; an unknown person gets no colour (JavaScript's `-1 % 10`
      indexes nothing). */
  function PersonColor(personId: Id, persons: seq<Person>): (r: Option<string>)
    ensures r.None? <==> forall k :: 0 <= k < |persons| ==> persons[k].id != personId
  {
    var index := FindIndex(persons, personId);
    if index < 0 then None else Some(PersonColors[index % |PersonColors|])
  }

  /** With unique ids, a person is found at its own index. */
  lemma {:induction false} FindIndexUnique(persons: seq<Person>, i: nat)
    requires i < |persons|
    requires forall a, b :: 0 <= a < b < |persons| ==> persons[a].id != persons[b].id
    ensures FindIndex(persons, persons[i].id) == i
  {
    if i > 0 {
      assert persons[0].id != persons[i].id;
      assert persons[1..][i - 1] == persons[i];
      FindIndexUnique(persons[1..], i - 1);
    }
  }

  /** The ten palette entries differ from each other. */
  lemma PaletteDistinct(a: nat, b: nat)
    requires a < b < |PersonColors|
    ensures PersonColors[a] != PersonColors[b]
  {
    assert PersonColors[a][1..3] != PersonColors[b][1..3] || PersonColors[a][3..] != PersonColors[b][3..];
  }

  /** The colour of the person at index `i`, when ids are unique. */
  lemma ColorAtIndex(persons: seq<Person>, i: nat)
    requires i < |persons|
    requires forall a, b :: 0 <= a < b < |persons| ==> persons[a].id != persons[b].id
    ensures PersonColor(persons[i].id, persons) == Some(PersonColors[i % 10])
  {
    FindIndexUnique(persons, i);
  }

  /** Persons ten places apart share a colour. */
  lemma PersonColorRepeats(persons: seq<Person>, i: nat)
    requires i + 10 < |persons|
    requires forall a, b :: 0 <= a < b < |persons| ==> persons[a].id != persons[b].id
    ensures PersonColor(persons[i].id, persons) == PersonColor(persons[i + 10].id, persons)
  {
    ColorAtIndex(persons, i);
    ColorAtIndex(persons, i + 10);
    ModTenShift(i);
  }

  lemma ModTenShift(i: nat)
    ensures (i + 10) % 10 == i % 10
  {
  }

  /** The first ten persons (with distinct ids) all get different colours. */
  lemma FirstTenColorsDiffer(persons: seq<Person>, i: nat, j: nat)
    requires i < j < |persons| && j < 10
    requires forall a, b :: 0 <= a < b < |persons| ==> persons[a].id != persons[b].id
    ensures PersonColor(persons[i].id, persons) != PersonColor(persons[j].id, persons)
  {
    ColorAtIndex(persons, i);
    ColorAtIndex(persons, j);
    SmallMod(i);
    SmallMod(j);
    PaletteDistinct(i, j);
  }

  lemma SmallMod(i: nat)
    requires i < 10
    ensures i % 10 == i
  {
  }
}
