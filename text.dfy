/**
 * Text primitives the application borrows from JavaScript's String API:
 * `trim`, `split`, `join`, decimal rendering of integers (template
 * literals) and a restricted `parseFloat`.
 */
module Text {

  datatype Option<T> = None | Some(value: T)

  /** The white-space and line-terminator characters `String.prototype.trim`
      and `parseFloat` skip: tab, line feed, vertical tab, form feed, carriage
      return, space, no-break space, the byte-order mark, and the Unicode
      space separators and line and paragraph separators. */
  predicate IsSpace(c: char) {
    if c <= ' ' then c == ' ' || '\t' <= c <= '\r'
    else '\U{00A0}' <= c && IsWideSpace(c)
  }

  /** The white-space characters outside ASCII. */
  predicate IsWideSpace(c: char) {
    c == '\U{00A0}' || c == '\U{1680}' || ('\U{2000}' <= c <= '\U{200A}') || c == '\U{2028}' ||
    c == '\U{2029}' || c == '\U{202F}' || c == '\U{205F}' || c == '\U{3000}' || c == '\U{FEFF}'
  }

  predicate IsDigit(c: char) { '0' <= c <= '9' }

  /** `s` has no white space at either end. */
  predicate IsTrimmed(s: string) {
    s == [] || (!IsSpace(s[0]) && !IsSpace(s[|s| - 1]))
  }

  function TrimStart(s: string): (r: string)
    ensures |r| <= |s| && r == s[|s| - |r|..]
    ensures forall k :: 0 <= k < |s| - |r| ==> IsSpace(s[k])
    ensures r == [] || !IsSpace(r[0])
  {
    if s != [] && IsSpace(s[0]) then TrimStart(s[1..]) else s
  }

  function TrimEnd(s: string): (r: string)
    ensures |r| <= |s| && r == s[..|r|]
    ensures forall k :: |r| <= k < |s| ==> IsSpace(s[k])
    ensures r == [] || !IsSpace(r[|r| - 1])
  {
    if s != [] && IsSpace(s[|s| - 1]) then TrimEnd(s[..|s| - 1]) else s
  }

  /** `r` is the slice of `s` from `a`, and everything of `s` before and after it is white space. */
  ghost predicate CutAt(r: string, s: string, a: int) {
    0 <= a <= |s| - |r| && r == s[a..a + |r|] &&
    (forall k :: 0 <= k < a ==> IsSpace(s[k])) &&
    (forall k :: a + |r| <= k < |s| ==> IsSpace(s[k]))
  }

  /** `r` is `s` with a run of white space cut from each end. */
  ghost predicate CutFromEnds(r: string, s: string) {
    exists a :: CutAt(r, s, a)
  }

  /** `String.prototype.trim`: the longest slice of `s` with no white space at its ends. */
  function Trim(s: string): (r: string)
    ensures IsTrimmed(r)
    ensures |r| <= |s|
  {
    TrimEnd(TrimStart(s))
  }

  /** Trimming removes the white space at both ends and nothing else. */
  lemma TrimCutsOnlySpace(s: string)
    ensures CutFromEnds(Trim(s), s)
  {
    var t := TrimStart(s);
    CutOfSuffixPrefix(s, t, TrimEnd(t));
  }

  /** A prefix `r` of a suffix `t` of `s`, with white space cut on both sides, is a cut of `s`. */
  lemma CutOfSuffixPrefix(s: string, t: string, r: string)
    requires |t| <= |s| && t == s[|s| - |t|..]
    requires forall k :: 0 <= k < |s| - |t| ==> IsSpace(s[k])
    requires |r| <= |t| && r == t[..|r|]
    requires forall k :: |r| <= k < |t| ==> IsSpace(t[k])
    ensures CutAt(r, s, |s| - |t|)
  {
    var a := |s| - |t|;
    assert r == s[a..a + |r|];
    forall k | a + |r| <= k < |s|
      ensures IsSpace(s[k])
    {
      assert s[k] == t[k - a];
    }
  }

  lemma TrimmedIsFixed(s: string)
    requires IsTrimmed(s)
    ensures Trim(s) == s
  {
  }

  /** Leading white space does not survive a trim. */
  lemma {:induction false} TrimSkipsLeadingSpace(w: string, s: string)
    requires forall k :: 0 <= k < |w| ==> IsSpace(w[k])
    requires IsTrimmed(s)
    ensures Trim(w + s) == s
  {
    if w == [] {
      assert w + s == s;
    } else {
      assert (w + s)[1..] == w[1..] + s;
      TrimSkipsLeadingSpace(w[1..], s);
    }
  }

  /** `xs.join(sep)`. */
  function Join(xs: seq<string>, sep: string): string {
    if xs == [] then "" else if |xs| == 1 then xs[0] else xs[0] + sep + Join(xs[1..], sep)
  }

  /** `s.split(sep)` for a one-character separator: the pieces between
      separators, in order, so that joining them back gives `s`. */
  function Split(s: string, sep: char): (r: seq<string>)
    ensures |r| >= 1
    ensures forall i :: 0 <= i < |r| ==> sep !in r[i]
    ensures (sep in s) == (|r| > 1)
    ensures Join(r, [sep]) == s
  {
    if s == [] then [""]
    else
      var rest := Split(s[1..], sep);
      var r := if s[0] == sep then [""] + rest else [[s[0]] + rest[0]] + rest[1..];
      SplitStep(s, sep, rest, r);
      r
  }

  /** One step of the split: the first character starts a new piece or extends the first one. */
  lemma SplitStep(s: string, sep: char, rest: seq<string>, r: seq<string>)
    requires s != [] && |rest| >= 1
    requires forall i :: 0 <= i < |rest| ==> sep !in rest[i]
    requires (sep in s[1..]) == (|rest| > 1)
    requires Join(rest, [sep]) == s[1..]
    requires r == if s[0] == sep then [""] + rest else [[s[0]] + rest[0]] + rest[1..]
    ensures |r| >= 1
    ensures forall i :: 0 <= i < |r| ==> sep !in r[i]
    ensures (sep in s) == (|r| > 1)
    ensures Join(r, [sep]) == s
  {
    SplitStepPieces(s, sep, rest, r);
    SplitStepJoin(s, sep, rest, r);
  }

  lemma SplitStepPieces(s: string, sep: char, rest: seq<string>, r: seq<string>)
    requires s != [] && |rest| >= 1
    requires forall i :: 0 <= i < |rest| ==> sep !in rest[i]
    requires (sep in s[1..]) == (|rest| > 1)
    requires r == if s[0] == sep then [""] + rest else [[s[0]] + rest[0]] + rest[1..]
    ensures |r| >= 1
    ensures forall i :: 0 <= i < |r| ==> sep !in r[i]
    ensures (sep in s) == (|r| > 1)
  {
    assert s == [s[0]] + s[1..];
    if s[0] != sep {
      assert forall i :: 1 <= i < |r| ==> r[i] == rest[i];
    }
  }

  lemma SplitStepJoin(s: string, sep: char, rest: seq<string>, r: seq<string>)
    requires s != [] && |rest| >= 1
    requires Join(rest, [sep]) == s[1..]
    requires r == if s[0] == sep then [""] + rest else [[s[0]] + rest[0]] + rest[1..]
    ensures Join(r, [sep]) == s
  {
    assert s == [s[0]] + s[1..];
    if s[0] == sep {
      assert r[1..] == rest;
    } else if |rest| > 1 {
      assert r[1..] == rest[1..];
    }
  }

  /** Splitting a join of separator-free pieces gives the pieces back. */
  lemma {:induction false} SplitJoin(xs: seq<string>, sep: char)
    requires |xs| >= 1
    requires forall i :: 0 <= i < |xs| ==> sep !in xs[i]
    ensures Split(Join(xs, [sep]), sep) == xs
  {
    if |xs| == 1 {
      SplitNoSeparator(xs[0], sep);
    } else {
      SplitJoin(xs[1..], sep);
      SplitAfterPiece(xs[0], Join(xs[1..], [sep]), sep);
    }
  }

  lemma {:induction false} SplitNoSeparator(s: string, sep: char)
    requires sep !in s
    ensures Split(s, sep) == [s]
  {
    if s != [] {
      SplitNoSeparator(s[1..], sep);
    }
  }

  lemma {:induction false} SplitAfterPiece(a: string, b: string, sep: char)
    requires sep !in a
    ensures Split(a + [sep] + b, sep) == [a] + Split(b, sep)
  {
    var s := a + [sep] + b;
    if a == [] {
      assert s[0] == sep && s[1..] == b;
    } else {
      assert s[0] == a[0] && s[1..] == a[1..] + [sep] + b;
      var rest := Split(s[1..], sep);
      SplitAfterPiece(a[1..], b, sep);
      assert rest[0] == a[1..] && rest[1..] == Split(b, sep);
      assert [a[0]] + a[1..] == a;
    }
  }

  function DigitChar(d: nat): char
    requires d < 10
  {
    ('0' as int + d) as char
  }

  function DigitValue(c: char): nat
    requires IsDigit(c)
  {
    (c as int - '0' as int) as nat
  }

  /** Decimal rendering of a natural number, as a template literal prints it. */
  function NatText(n: nat): (r: string)
    ensures r != [] && forall k :: 0 <= k < |r| ==> IsDigit(r[k])
  {
    if n < 10 then [DigitChar(n)] else NatText(n / 10) + [DigitChar(n % 10)]
  }

  /** Decimal rendering of an integer, with a leading '-' when negative. */
  function IntText(i: int): (r: string)
    ensures r != []
    ensures (r[0] == '-') == (i < 0)
  {
    if i < 0 then "-" + NatText(-i) else NatText(i)
  }

  /** The value of a run of decimal digits, most significant first. */
  function DigitsValue(ds: string): nat
    requires forall k :: 0 <= k < |ds| ==> IsDigit(ds[k])
  {
    if ds == [] then 0 else DigitsValue(ds[..|ds| - 1]) * 10 + DigitValue(ds[|ds| - 1])
  }

  /** The value of the digits after a decimal point: `0.d1d2…` is `(d1 + 0.d2…) / 10`. */
  function FractionValue(ds: string): (r: real)
    requires forall k :: 0 <= k < |ds| ==> IsDigit(ds[k])
    ensures 0.0 <= r < 1.0
  {
    if ds == [] then 0.0 else (DigitValue(ds[0]) as real + FractionValue(ds[1..])) / 10.0
  }

  /** The longest prefix of `s` made of decimal digits. */
  function LeadingDigits(s: string): (r: string)
    ensures |r| <= |s| && r == s[..|r|]
    ensures forall k :: 0 <= k < |r| ==> IsDigit(r[k])
    ensures |r| == |s| || !IsDigit(s[|r|])
  {
    if s != [] && IsDigit(s[0]) then
      var rest := LeadingDigits(s[1..]);
      assert s == [s[0]] + s[1..];
      [s[0]] + rest
    else []
  }

  /** The text after an optional leading sign. */
  function Unsigned(t: string): string {
    if t != [] && (t[0] == '+' || t[0] == '-') then t[1..] else t
  }

  /** The digits after a leading '.', if there is one. */
  function FractionDigits(s: string): (r: string)
    ensures forall k :: 0 <= k < |r| ==> IsDigit(r[k])
  {
    if s != [] && s[0] == '.' then LeadingDigits(s[1..]) else []
  }

  /** `parseFloat` restricted to plain decimal notation: leading white space
      is skipped, then an optional sign, digits, and an optional fraction
      part are read as far as they go; the rest of the text is ignored.
      `None` stands for NaN: no digit was found where the number starts. */
  function ParseFloat(s: string): Option<real> {
    var t := TrimStart(s);
    var body := Unsigned(t);
    var whole := LeadingDigits(body);
    var fraction := FractionDigits(body[|whole|..]);
    if whole == [] && fraction == [] then None
    else
      var magnitude := DigitsValue(whole) as real + FractionValue(fraction);
      Some(if t != [] && t[0] == '-' then -magnitude else magnitude)
  }

  /** Blank text is not a number; a number that starts with a digit is not
      negative; a negative number starts with a minus sign. */
  lemma ParseFloatSign(s: string)
    ensures TrimStart(s) == [] ==> ParseFloat(s).None?
    ensures TrimStart(s) != [] && IsDigit(TrimStart(s)[0]) ==> ParseFloat(s).Some? && ParseFloat(s).value >= 0.0
    ensures ParseFloat(s).Some? && ParseFloat(s).value < 0.0 ==> TrimStart(s) != [] && TrimStart(s)[0] == '-'
  {
  }

  /** A text without a decimal digit is not a number. */
  lemma ParseFloatNeedsDigit(s: string)
    requires forall k :: 0 <= k < |s| ==> !IsDigit(s[k])
    ensures ParseFloat(s).None?
  {
    var body := Unsigned(TrimStart(s));
    assert body == s[|s| - |body|..];
    NoLeadingDigits(body);
    assert body[0..] == body;
    if body != [] {
      NoLeadingDigits(body[1..]);
    }
  }

  lemma NoLeadingDigits(s: string)
    requires forall k :: 0 <= k < |s| ==> !IsDigit(s[k])
    ensures LeadingDigits(s) == []
  {
  }

  lemma {:induction false} DigitsOfNatText(n: nat)
    ensures DigitsValue(NatText(n)) == n
  {
    if n >= 10 {
      DigitsOfNatText(n / 10);
      var s := NatText(n / 10) + [DigitChar(n % 10)];
      assert s[..|s| - 1] == NatText(n / 10);
    }
  }

  lemma {:induction false} LeadingDigitsOfDigits(ds: string, rest: string)
    requires forall k :: 0 <= k < |ds| ==> IsDigit(ds[k])
    requires rest == [] || !IsDigit(rest[0])
    ensures LeadingDigits(ds + rest) == ds
  {
    if ds != [] {
      assert (ds + rest)[1..] == ds[1..] + rest;
      LeadingDigitsOfDigits(ds[1..], rest);
    } else {
      assert ds + rest == rest;
    }
  }

  /** The decimal rendering of a natural number parses back to it. */
  lemma {:induction false} ParseFloatNatText(n: nat)
    ensures ParseFloat(NatText(n)) == Some(n as real)
  {
    ParseFloatNatTextThen(n, []);
    assert NatText(n) + [] == NatText(n);
  }

  /** Digits, a point and more digits parse to the whole part plus the fraction. */
  lemma ParseFloatDecimal(w: string, ds: string)
    requires w != [] && forall k :: 0 <= k < |w| ==> IsDigit(w[k])
    requires forall k :: 0 <= k < |ds| ==> IsDigit(ds[k])
    ensures ParseFloat(w + "." + ds) == Some(DigitsValue(w) as real + FractionValue(ds))
  {
    var s := w + "." + ds;
    DecimalParts(w, ds);
    ParseFloatOfParts(s, w, ds);
  }

  lemma DecimalParts(w: string, ds: string)
    requires w != [] && forall k :: 0 <= k < |w| ==> IsDigit(w[k])
    requires forall k :: 0 <= k < |ds| ==> IsDigit(ds[k])
    ensures var s := w + "." + ds;
      s != [] && TrimStart(s) == s && Unsigned(s) == s && s[0] != '-' &&
      LeadingDigits(s) == w && FractionDigits(s[|w|..]) == ds
  {
    var f := "." + ds;
    var s := w + f;
    assert s == w + "." + ds;
    assert s[0] == w[0];
    StartsWithDigit(s);
    LeadingDigitsOfDigits(w, f);
    assert s[|w|..] == f;
    assert f[1..] == ds + [];
    LeadingDigitsOfDigits(ds, []);
  }

  /** A text that starts with a digit has no padding and no sign to skip. */
  lemma StartsWithDigit(s: string)
    requires s != [] && IsDigit(s[0])
    ensures TrimStart(s) == s && Unsigned(s) == s && s[0] != '-'
  {
    assert !IsSpace(s[0]);
  }

  /** An unsigned, unpadded text that starts with the digits `w`, followed by the
      fraction digits `f`, parses to their combined value. */
  lemma ParseFloatOfParts(s: string, w: string, f: string)
    requires forall k :: 0 <= k < |w| ==> IsDigit(w[k])
    requires forall k :: 0 <= k < |f| ==> IsDigit(f[k])
    requires w != [] && s != [] && TrimStart(s) == s && Unsigned(s) == s && s[0] != '-'
    requires LeadingDigits(s) == w && FractionDigits(s[|w|..]) == f
    ensures ParseFloat(s) == Some(DigitsValue(w) as real + FractionValue(f))
  {
  }

  /** A minus sign before the digits negates the value. */
  lemma ParseFloatNegative(n: nat)
    ensures ParseFloat("-" + NatText(n)) == Some(-(n as real))
  {
    var w := NatText(n);
    var s := "-" + w;
    StartsWithSign(s);
    assert s[1..] == w + [];
    LeadingDigitsOfDigits(w, []);
    assert w[|w|..] == [];
    DigitsOfNatText(n);
  }

  /** A leading minus sign is not padding. */
  lemma StartsWithSign(s: string)
    requires s != [] && s[0] == '-'
    ensures TrimStart(s) == s && Unsigned(s) == s[1..]
  {
    assert !IsSpace(s[0]);
  }

  /** A parse stops at the first character that cannot continue the number. */
  lemma {:induction false} ParseFloatNatTextThen(n: nat, rest: string)
    requires rest == [] || (!IsDigit(rest[0]) && rest[0] != '.')
    ensures ParseFloat(NatText(n) + rest) == Some(n as real)
  {
    ParseFloatDigitsThen(NatText(n), rest);
    DigitsOfNatText(n);
  }

  /** Digits followed by a character that cannot continue the number parse
      to the value of the digits. */
  lemma ParseFloatDigitsThen(ds: string, rest: string)
    requires ds != [] && forall k :: 0 <= k < |ds| ==> IsDigit(ds[k])
    requires rest == [] || (!IsDigit(rest[0]) && rest[0] != '.')
    ensures ParseFloat(ds + rest) == Some(DigitsValue(ds) as real)
  {
    WholeOnlyOfDigits(ds, rest);
    ParseFloatOfWhole(ds + rest, ds);
  }

  /** `s` is the digits `ds`, unsigned and unpadded, with no fraction part after them. */
  predicate WholeOnly(s: string, ds: string)
    requires forall k :: 0 <= k < |ds| ==> IsDigit(ds[k])
  {
    ds != [] && TrimStart(s) == s && Unsigned(s) == s && LeadingDigits(s) == ds &&
    s[0] != '-' && FractionDigits(s[|ds|..]) == []
  }

  lemma WholeOnlyOfDigits(ds: string, rest: string)
    requires ds != [] && forall k :: 0 <= k < |ds| ==> IsDigit(ds[k])
    requires rest == [] || (!IsDigit(rest[0]) && rest[0] != '.')
    ensures WholeOnly(ds + rest, ds)
  {
    var s := ds + rest;
    assert s[0] == ds[0];
    LeadingDigitsOfDigits(ds, rest);
    assert s[|ds|..] == rest;
  }

  /** A text that starts with its whole part and has no fraction part
      parses to the value of the whole part. */
  lemma ParseFloatOfWhole(s: string, ds: string)
    requires forall k :: 0 <= k < |ds| ==> IsDigit(ds[k])
    requires WholeOnly(s, ds)
    ensures ParseFloat(s) == Some(DigitsValue(ds) as real)
  {
  }
}
