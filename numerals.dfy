/**
 * Text-to-value coercions of the settings reader: `int(text)` behind
 * `getint`, `float(text)` behind `getfloat` and the word table behind
 * `getboolean`, together with the decimal spellings they invert.
 */
module Numerals {
  import opened Results

  predicate IsDigit(c: char) {
    '0' <= c <= '9'
  }

  function DigitValue(c: char): (d: nat)
    requires IsDigit(c)
    ensures d < 10
  {
    c as int - '0' as int
  }

  function DigitChar(d: nat): (c: char)
    requires d < 10
    ensures IsDigit(c) && DigitValue(c) == d
  {
    ('0' as int + d) as char
  }

  predicate AllDigits(s: string) {
    forall i :: 0 <= i < |s| ==> IsDigit(s[i])
  }

  /** The number a string of decimal digits spells, most significant first; "" spells 0. */
  function DigitsValue(s: string): nat
    requires AllDigits(s)
  {
    if s == [] then 0 else DigitsValue(s[..|s| - 1]) * 10 + DigitValue(s[|s| - 1])
  }

  function Pow10(k: nat): (p: nat)
    ensures p >= 1
  {
    if k == 0 then 1 else 10 * Pow10(k - 1)
  }

  /** The shortest decimal spelling of `n`. */
  function ShowNat(n: nat): (s: string)
    ensures |s| >= 1 && AllDigits(s)
  {
    if n < 10 then [DigitChar(n)] else ShowNat(n / 10) + [DigitChar(n % 10)]
  }

  /** The spelling Python's `str` gives an integer: a '-' for negatives, no '+'. */
  function ShowInt(i: int): (s: string)
    ensures |s| >= 1
  {
    if i < 0 then "-" + ShowNat(-i) else ShowNat(i)
  }

  lemma {:induction false} ShowNatValue(n: nat)
    ensures DigitsValue(ShowNat(n)) == n
  {
    if n >= 10 {
      var s := ShowNat(n);
      assert s[..|s| - 1] == ShowNat(n / 10);
      ShowNatValue(n / 10);
    }
  }

  /** The sign `int()` and `float()` accept in front of the digits: '-' negates, '+' is dropped. */
  function SplitSign(s: string): (r: (bool, string))
    ensures r.0 <==> |s| > 0 && s[0] == '-'
    ensures |s| > 0 && (s[0] == '+' || s[0] == '-') ==> r.1 == s[1..]
    ensures !(|s| > 0 && (s[0] == '+' || s[0] == '-')) ==> r.1 == s
  {
    if |s| > 0 && (s[0] == '+' || s[0] == '-') then (s[0] == '-', s[1..]) else (false, s)
  }

  /** The integer literals `int()` accepts: an optional sign followed by one or more decimal digits. */
  predicate IntLiteral(s: string) {
    (|s| >= 1 && AllDigits(s)) || (|s| >= 2 && s[0] in {'+', '-'} && AllDigits(s[1..]))
  }

  /** `int(text)`. */
  function ParseInt(s: string): (r: Option<int>)
    ensures r.Some? <==> IntLiteral(s)
    ensures r.Some? && AllDigits(s) ==> r.value == DigitsValue(s)
    ensures r.Some? && s[0] == '+' ==> r.value == DigitsValue(s[1..])
    ensures r.Some? && s[0] == '-' ==> r.value == -(DigitsValue(s[1..]) as int)
  {
    var (neg, body) := SplitSign(s);
    if body != [] && AllDigits(body) then
      var n: int := DigitsValue(body);
      Some(if neg then -n else n)
    else
      None
  }

  /** Every integer Python prints is read back by `int()` as itself. */
  lemma ParseShowInt(i: int)
    ensures ParseInt(ShowInt(i)) == Some(i)
  {
    if i < 0 {
      assert SplitSign(ShowInt(i)).1 == ShowNat(-i);
      ShowNatValue(-i);
    } else {
      ShowNatValue(i);
    }
  }

  /** Index of the first `c` in `s` among `cs`, or `|s|` when there is none. */
  function IndexOfAny(s: string, cs: set<char>): (k: nat)
    ensures k <= |s|
    ensures forall i :: 0 <= i < k ==> s[i] !in cs
    ensures k < |s| ==> s[k] in cs
  {
    if s == [] then 0
    else if s[0] in cs then 0
    else 1 + IndexOfAny(s[1..], cs)
  }

  /** `m * 10^k` for an integer exponent `k`, one factor of ten at a time. */
  function Scale10(m: real, k: int): real
    decreases if k >= 0 then k else -k
  {
    if k == 0 then m
    else if k > 0 then Scale10(m, k - 1) * 10.0
    else Scale10(m, k + 1) / 10.0
  }

  /** The value of the digits after a decimal point: `0.d1d2...` is `(d1 + 0.d2...) / 10`. */
  function FractionValue(f: string): (v: real)
    requires AllDigits(f)
    ensures 0.0 <= v
  {
    if f == [] then 0.0 else (DigitValue(f[0]) as real + FractionValue(f[1..])) / 10.0
  }

  /** The number `whole.fraction` denotes. */
  function DecimalValue(whole: string, fraction: string): (v: real)
    requires AllDigits(whole) && AllDigits(fraction)
    ensures v >= DigitsValue(whole) as real
  {
    DigitsValue(whole) as real + FractionValue(fraction)
  }

  /** The part of a float literal before its exponent: digits, optionally a point and more digits. */
  function ParseMantissa(t: string): (r: Option<real>)
    ensures r.Some? ==> exists i :: 0 <= i < |t| && IsDigit(t[i])
    ensures r.Some? ==> r.value >= 0.0
  {
    var p := IndexOfAny(t, {'.'});
    var whole := t[..p];
    var fraction := if p < |t| then t[p + 1..] else [];
    if !AllDigits(whole) || !AllDigits(fraction) || whole + fraction == [] then
      None
    else
      assert exists i :: 0 <= i < |t| && IsDigit(t[i]) by {
        if whole != [] {
          assert t[0] == whole[0];
        } else {
          assert t[p + 1] == fraction[0];
        }
      }
      Some(DecimalValue(whole, fraction))
  }

  /**
   * `float(text)` for finite decimal literals:
   * [sign] digits [ '.' digits ] [ ('e' | 'E') [sign] digits ],
   * with at least one digit before or after the point.
   */
  function ParseFloat(s: string): (r: Option<real>)
    ensures r.Some? ==> exists i :: 0 <= i < |s| && IsDigit(s[i])
  {
    var (neg, body) := SplitSign(s);
    match UnsignedFloat(body)
    case None => None
    case Some(v) =>
      assert exists i :: 0 <= i < |s| && IsDigit(s[i]) by {
        var i :| 0 <= i < |body| && IsDigit(body[i]);
        assert s[|s| - |body| + i] == body[i];
      }
      Some(if neg then -v else v)
  }

  /** A float literal after its sign: a mantissa and an optional exponent. */
  function UnsignedFloat(body: string): (r: Option<real>)
    ensures r.Some? ==> exists i :: 0 <= i < |body| && IsDigit(body[i])
    ensures r.Some? ==> r.value >= 0.0
  {
    var e := IndexOfAny(body, {'e', 'E'});
    var exponent := if e < |body| then ParseInt(body[e + 1..]) else Some(0);
    var mantissa := ParseMantissa(body[..e]);
    if exponent.None? || mantissa.None? then
      None
    else
      assert exists i :: 0 <= i < |body| && IsDigit(body[i]) by {
        var i :| 0 <= i < e && IsDigit(body[..e][i]);
        assert body[i] == body[..e][i];
      }
      Scale10NonNegative(mantissa.value, exponent.value);
      Some(Scale10(mantissa.value, exponent.value))
  }

  lemma {:induction false} Scale10NonNegative(m: real, k: int)
    requires m >= 0.0
    ensures Scale10(m, k) >= 0.0
    decreases if k >= 0 then k else -k
  {
    if k > 0 {
      Scale10NonNegative(m, k - 1);
    } else if k < 0 {
      Scale10NonNegative(m, k + 1);
    }
  }

  /** A non-negative exponent multiplies by that power of ten. */
  lemma {:induction false} Scale10Up(m: real, k: nat)
    ensures Scale10(m, k) == m * Pow10(k) as real
  {
    if k > 0 {
      Scale10Up(m, k - 1);
      assert Pow10(k) as real == Pow10(k - 1) as real * 10.0;
    }
  }

  /** A negative exponent divides by that power of ten. */
  lemma {:induction false} Scale10Down(m: real, k: nat)
    ensures Scale10(m, -(k as int)) == m / Pow10(k) as real
  {
    if k > 0 {
      Scale10Down(m, k - 1);
      assert Pow10(k) as real == Pow10(k - 1) as real * 10.0;
    }
  }

  lemma {:induction false} IndexOfAnyAppend(a: string, b: string, cs: set<char>)
    requires forall i :: 0 <= i < |a| ==> a[i] !in cs
    ensures IndexOfAny(a + b, cs) == |a| + IndexOfAny(b, cs)
  {
    if a == [] {
      assert a + b == b;
    } else {
      assert (a + b)[0] == a[0];
      assert (a + b)[1..] == a[1..] + b;
      IndexOfAnyAppend(a[1..], b, cs);
    }
  }

  lemma {:induction false} IndexOfAnyAt(s: string, cs: set<char>, k: nat)
    requires k < |s| && s[k] in cs
    requires forall i :: 0 <= i < k ==> s[i] !in cs
    ensures IndexOfAny(s, cs) == k
  {
    if k > 0 {
      IndexOfAnyAt(s[1..], cs, k - 1);
    }
  }

  lemma IndexOfAnyNone(s: string, cs: set<char>)
    requires forall i :: 0 <= i < |s| ==> s[i] !in cs
    ensures IndexOfAny(s, cs) == |s|
  {
  }

  /** The sign layer of `float()`: the unsigned reading, negated after a '-'. */
  lemma SignedParts(s: string, neg: bool, body: string)
    requires SplitSign(s) == (neg, body)
    ensures ParseFloat(s) == if UnsignedFloat(body).None? then None
                             else Some(if neg then -UnsignedFloat(body).value else UnsignedFloat(body).value)
  {
  }

  /** Without a sign, `float()` is the unsigned reader. */
  lemma Unsigned(t: string)
    requires t == [] || t[0] !in {'+', '-'}
    ensures ParseFloat(t) == UnsignedFloat(t)
  {
    assert SplitSign(t) == (false, t);
    SignedParts(t, false, t);
  }

  /** What the unsigned reader needs: a mantissa before the first marker, an integer after it. */
  lemma UnsignedParts(body: string)
    ensures var e := IndexOfAny(body, {'e', 'E'});
            UnsignedFloat(body).Some? <==>
              ParseMantissa(body[..e]).Some? && (e < |body| ==> ParseInt(body[e + 1..]).Some?)
  {
  }

  lemma UnsignedValue(body: string, e: nat, v: real, k: int)
    requires e == IndexOfAny(body, {'e', 'E'})
    requires ParseMantissa(body[..e]) == Some(v)
    requires if e < |body| then ParseInt(body[e + 1..]) == Some(k) else k == 0
    ensures UnsignedFloat(body) == Some(Scale10(v, k))
  {
  }

  /** Without a sign or an exponent, a float literal is just its mantissa. */
  lemma UnsignedNoExponent(t: string)
    requires |t| >= 1 && t[0] != '+' && t[0] != '-'
    requires forall i :: 0 <= i < |t| ==> t[i] != 'e' && t[i] != 'E'
    ensures ParseFloat(t) == ParseMantissa(t)
  {
    Unsigned(t);
    IndexOfAnyNone(t, {'e', 'E'});
    assert t[..|t|] == t;
    UnsignedParts(t);
    if ParseMantissa(t).Some? {
      UnsignedValue(t, |t|, ParseMantissa(t).value, 0);
    }
  }

  /** A mantissa whose first point at `p` separates two digit strings. */
  lemma MantissaAt(t: string, p: nat)
    requires p == IndexOfAny(t, {'.'}) && p < |t|
    requires AllDigits(t[..p]) && AllDigits(t[p + 1..]) && t[..p] + t[p + 1..] != []
    ensures ParseMantissa(t) == Some(DecimalValue(t[..p], t[p + 1..]))
  {
  }

  lemma MantissaWithPoint(whole: string, fraction: string)
    requires AllDigits(whole) && AllDigits(fraction) && whole + fraction != []
    ensures ParseMantissa(whole + "." + fraction) == Some(DecimalValue(whole, fraction))
  {
    var t := whole + "." + fraction;
    var p := |whole|;
    assert IndexOfAny(t, {'.'}) == p by {
      assert t == whole + ("." + fraction);
      IndexOfAnyAppend(whole, "." + fraction, {'.'});
    }
    assert t[..p] == whole;
    assert t[p + 1..] == fraction;
    MantissaAt(t, p);
  }

  /**
   * An unsigned decimal literal `whole.fraction` denotes its whole part plus
   * its fraction; either part may be empty, not both (`1.`, `.5`).
   */
  lemma DecimalText(whole: string, fraction: string)
    requires AllDigits(whole) && AllDigits(fraction) && whole + fraction != []
    ensures ParseFloat(whole + "." + fraction) == Some(DecimalValue(whole, fraction))
  {
    var t := whole + "." + fraction;
    assert t[0] == if whole == [] then '.' else whole[0];
    assert forall i :: 0 <= i < |t| ==> t[i] != 'e' && t[i] != 'E' by {
      forall i | 0 <= i < |t| ensures t[i] != 'e' && t[i] != 'E' {
        if i < |whole| { assert t[i] == whole[i]; }
        else if i > |whole| { assert t[i] == fraction[i - |whole| - 1]; }
      }
    }
    UnsignedNoExponent(t);
    MantissaWithPoint(whole, fraction);
  }

  /** A digit string read as a mantissa is its integer value. */
  lemma DigitsMantissa(body: string)
    requires |body| >= 1 && AllDigits(body)
    ensures ParseMantissa(body) == Some(DigitsValue(body) as real)
  {
    IndexOfAnyNone(body, {'.'});
    assert body[..|body|] == body;
    assert DecimalValue(body, []) == DigitsValue(body) as real;
  }

  /** `getfloat` accepts every value `getint` accepts, with the same number. */
  lemma IntTextIsFloatText(s: string)
    requires ParseInt(s).Some?
    ensures ParseFloat(s) == Some(ParseInt(s).value as real)
  {
    var (neg, body) := SplitSign(s);
    assert |body| >= 1 && AllDigits(body);
    IndexOfAnyNone(body, {'e', 'E'});
    assert body[..|body|] == body;
    DigitsMantissa(body);
    UnsignedValue(body, |body|, DigitsValue(body) as real, 0);
    SignedParts(s, neg, body);
  }

  /** The unsigned mantissas `float()` accepts: digits with at most one point, and at least one digit. */
  predicate MantissaLiteral(t: string) {
    && (forall i :: 0 <= i < |t| ==> IsDigit(t[i]) || t[i] == '.')
    && (forall i, j :: 0 <= i < j < |t| && t[i] == '.' ==> t[j] != '.')
    && (exists i :: 0 <= i < |t| && IsDigit(t[i]))
  }

  /** The grammar of a literal after its sign: a mantissa, optionally `e` or `E` and an integer literal. */
  predicate UnsignedLiteral(body: string) {
    || MantissaLiteral(body)
    || exists e :: 0 <= e < |body| && body[e] in {'e', 'E'} && MantissaLiteral(body[..e]) && IntLiteral(body[e + 1..])
  }

  /** The finite literals `float()` accepts: an optional sign before an unsigned literal. */
  predicate FloatLiteral(s: string) {
    UnsignedLiteral(if |s| > 0 && s[0] in {'+', '-'} then s[1..] else s)
  }

  lemma MantissaAccepted(t: string)
    requires ParseMantissa(t).Some?
    ensures MantissaLiteral(t)
  {
    var p := IndexOfAny(t, {'.'});
    var fraction := if p < |t| then t[p + 1..] else [];
    forall i | 0 <= i < |t| && i != p ensures IsDigit(t[i]) {
      if i < p {
        assert t[i] == t[..p][i];
      } else {
        assert t[i] == fraction[i - p - 1];
      }
    }
  }

  lemma MantissaLiteralParses(t: string)
    requires MantissaLiteral(t)
    ensures ParseMantissa(t).Some?
  {
    var p := IndexOfAny(t, {'.'});
    var whole := t[..p];
    var fraction := if p < |t| then t[p + 1..] else [];
    assert AllDigits(whole) by {
      forall i | 0 <= i < |whole| ensures IsDigit(whole[i]) {
        assert whole[i] == t[i];
      }
    }
    assert AllDigits(fraction) by {
      forall j | 0 <= j < |fraction| ensures IsDigit(fraction[j]) {
        assert fraction[j] == t[p + 1 + j];
      }
    }
    var d :| 0 <= d < |t| && IsDigit(t[d]);
    if d < p {
      assert whole[d] == t[d];
    } else {
      assert fraction[d - p - 1] == t[d];
    }
  }

  /** `getfloat`'s mantissa reader accepts exactly the mantissa grammar. */
  lemma MantissaIff(t: string)
    ensures ParseMantissa(t).Some? <==> MantissaLiteral(t)
  {
    if ParseMantissa(t).Some? {
      MantissaAccepted(t);
    }
    if MantissaLiteral(t) {
      MantissaLiteralParses(t);
    }
  }

  /** A mantissa has no exponent marker. */
  lemma MantissaHasNoExponent(t: string)
    requires MantissaLiteral(t)
    ensures forall i :: 0 <= i < |t| ==> t[i] !in {'e', 'E'}
  {
  }

  lemma PartsAreLiteral(body: string, e: nat)
    requires e == IndexOfAny(body, {'e', 'E'})
    requires ParseMantissa(body[..e]).Some? && (e < |body| ==> ParseInt(body[e + 1..]).Some?)
    ensures UnsignedLiteral(body)
  {
    MantissaIff(body[..e]);
    if e == |body| {
      assert body[..e] == body;
    } else {
      assert body[e] in {'e', 'E'} && MantissaLiteral(body[..e]) && IntLiteral(body[e + 1..]);
    }
  }

  lemma MantissaOnlyHasParts(body: string)
    requires MantissaLiteral(body)
    ensures var e := IndexOfAny(body, {'e', 'E'});
            e == |body| && ParseMantissa(body[..e]).Some?
  {
    MantissaHasNoExponent(body);
    IndexOfAnyNone(body, {'e', 'E'});
    assert body[..|body|] == body;
    MantissaIff(body);
  }

  lemma ExponentHasParts(body: string, e0: nat)
    requires e0 < |body| && body[e0] in {'e', 'E'} && MantissaLiteral(body[..e0]) && IntLiteral(body[e0 + 1..])
    ensures var e := IndexOfAny(body, {'e', 'E'});
            e == e0 && ParseMantissa(body[..e]).Some? && ParseInt(body[e + 1..]).Some?
  {
    FirstMarker(body, e0);
    MantissaIff(body[..e0]);
  }

  lemma FirstMarker(body: string, e0: nat)
    requires e0 < |body| && body[e0] in {'e', 'E'} && MantissaLiteral(body[..e0])
    ensures IndexOfAny(body, {'e', 'E'}) == e0
  {
    MantissaHasNoExponent(body[..e0]);
    assert forall i :: 0 <= i < e0 ==> body[i] == body[..e0][i];
    IndexOfAnyAt(body, {'e', 'E'}, e0);
  }

  lemma LiteralHasParts(body: string)
    requires UnsignedLiteral(body)
    ensures var e := IndexOfAny(body, {'e', 'E'});
            ParseMantissa(body[..e]).Some? && (e < |body| ==> ParseInt(body[e + 1..]).Some?)
  {
    if MantissaLiteral(body) {
      MantissaOnlyHasParts(body);
    } else {
      var e0 :| 0 <= e0 < |body| && body[e0] in {'e', 'E'} && MantissaLiteral(body[..e0]) && IntLiteral(body[e0 + 1..]);
      ExponentHasParts(body, e0);
    }
  }

  /** The unsigned reader accepts exactly the unsigned literal grammar. */
  lemma UnsignedIff(body: string)
    ensures UnsignedFloat(body).Some? <==> UnsignedLiteral(body)
  {
    UnsignedParts(body);
    var e := IndexOfAny(body, {'e', 'E'});
    if ParseMantissa(body[..e]).Some? && (e < |body| ==> ParseInt(body[e + 1..]).Some?) {
      PartsAreLiteral(body, e);
    }
    if UnsignedLiteral(body) {
      LiteralHasParts(body);
    }
  }

  /** `float()` accepts exactly the finite literal grammar. */
  lemma ParseFloatIff(s: string)
    ensures ParseFloat(s).Some? <==> FloatLiteral(s)
  {
    SignedParts(s, SplitSign(s).0, SplitSign(s).1);
    UnsignedIff(SplitSign(s).1);
  }

  lemma SplitPrefixed(t: string)
    ensures SplitSign("-" + t) == (true, t) && SplitSign("+" + t) == (false, t)
  {
    assert ("-" + t)[1..] == t && ("+" + t)[1..] == t;
  }

  /** A leading '-' negates an unsigned literal. */
  lemma NegativeFloat(t: string)
    requires t == [] || t[0] !in {'+', '-'}
    ensures ParseFloat("-" + t) == if ParseFloat(t).Some? then Some(-ParseFloat(t).value) else None
  {
    SplitPrefixed(t);
    SignedParts("-" + t, true, t);
    Unsigned(t);
  }

  /** A leading '+' changes nothing. */
  lemma PositiveFloat(t: string)
    ensures ParseFloat("+" + t) == UnsignedFloat(t)
  {
    SplitPrefixed(t);
    SignedParts("+" + t, false, t);
  }

  /** A leading '-' negates an unsigned literal and a leading '+' changes nothing. */
  lemma ParseFloatSign(t: string)
    requires t == [] || t[0] !in {'+', '-'}
    ensures ParseFloat("-" + t) == if ParseFloat(t).Some? then Some(-ParseFloat(t).value) else None
    ensures ParseFloat("+" + t) == ParseFloat(t)
  {
    NegativeFloat(t);
    PositiveFloat(t);
    Unsigned(t);
  }

  /** `mantissa e k` denotes the mantissa times ten to the power k, negative k included. */
  lemma ParseFloatExponent(m: string, k: int)
    requires ParseMantissa(m).Some?
    ensures ParseFloat(m + "e" + ShowInt(k)) == Some(Scale10(ParseMantissa(m).value, k))
    ensures ParseFloat(m + "E" + ShowInt(k)) == Some(Scale10(ParseMantissa(m).value, k))
  {
    MantissaIff(m);
    ParseShowInt(k);
    ExponentAt(m, "e", k);
    ExponentAt(m, "E", k);
  }

  lemma ExponentAt(m: string, marker: string, k: int)
    requires MantissaLiteral(m) && ParseMantissa(m).Some? && ParseInt(ShowInt(k)) == Some(k)
    requires marker == "e" || marker == "E"
    ensures ParseFloat(m + marker + ShowInt(k)) == Some(Scale10(ParseMantissa(m).value, k))
  {
    var t := m + marker + ShowInt(k);
    MantissaStart(m, marker + ShowInt(k));
    assert t == m + (marker + ShowInt(k));
    Unsigned(t);
    UnsignedExponent(m, marker, k);
  }

  /** A text that starts with a mantissa has no sign. */
  lemma MantissaStart(m: string, x: string)
    requires MantissaLiteral(m)
    ensures (m + x)[0] !in {'+', '-'}
  {
    var d :| 0 <= d < |m| && IsDigit(m[d]);
    assert (m + x)[0] == m[0];
  }

  lemma UnsignedExponent(m: string, marker: string, k: int)
    requires MantissaLiteral(m) && ParseMantissa(m).Some? && ParseInt(ShowInt(k)) == Some(k)
    requires marker == "e" || marker == "E"
    ensures UnsignedFloat(m + marker + ShowInt(k)) == Some(Scale10(ParseMantissa(m).value, k))
  {
    ExponentSplit(m, marker, ShowInt(k));
    UnsignedValue(m + marker + ShowInt(k), |m|, ParseMantissa(m).value, k);
  }

  /** In `m marker x`, with no marker in `m`, the first marker is the one between them. */
  lemma ExponentSplit(m: string, marker: string, x: string)
    requires MantissaLiteral(m) && (marker == "e" || marker == "E")
    ensures var t := m + marker + x;
            IndexOfAny(t, {'e', 'E'}) == |m| && t[..|m|] == m && t[|m| + 1..] == x
  {
    var t := m + marker + x;
    MantissaHasNoExponent(m);
    assert t == m + (marker + x);
    IndexOfAnyAppend(m, marker + x, {'e', 'E'});
    assert t[..|m|] == m;
    assert t[|m| + 1..] == x;
  }

  function LowerChar(c: char): (l: char)
    ensures !('A' <= l <= 'Z')
    ensures 'A' <= c <= 'Z' ==> l as int == c as int + 32
    ensures !('A' <= c <= 'Z') ==> l == c
  {
    if 'A' <= c <= 'Z' then (c as int + 32) as char else c
  }

  /**
   * `str.lower` restricted to ASCII. The words `getboolean` compares against
   * are ASCII and contain no letter that a non-ASCII character lowers to, so
   * the restriction does not change which values are accepted.
   */
  function Lower(s: string): (t: string)
    ensures |t| == |s|
    ensures forall i :: 0 <= i < |s| ==> t[i] == LowerChar(s[i])
    ensures forall i :: 0 <= i < |t| ==> !('A' <= t[i] <= 'Z')
  {
    if s == [] then []
    else
      var t := [LowerChar(s[0])] + Lower(s[1..]);
      assert forall i :: 1 <= i < |s| ==> t[i] == Lower(s[1..])[i - 1] && s[i] == s[1..][i - 1];
      t
  }

  lemma {:induction false} LowerIdempotent(s: string)
    ensures Lower(Lower(s)) == Lower(s)
  {
    if s != [] {
      LowerIdempotent(s[1..]);
    }
  }

  const TrueWords: set<string> := {"1", "yes", "true", "on"}
  const FalseWords: set<string> := {"0", "no", "false", "off"}

  /** `getboolean`: the value, lowered, must be one of the eight known words. */
  function ParseBool(s: string): (r: Option<bool>)
    ensures r.Some? <==> Lower(s) in TrueWords + FalseWords
    ensures r.Some? ==> (r.value <==> Lower(s) in TrueWords)
  {
    var w := Lower(s);
    if w in TrueWords then Some(true) else if w in FalseWords then Some(false) else None
  }

  /** `getboolean` ignores letter case. */
  lemma ParseBoolIgnoresCase(s: string)
    ensures ParseBool(s) == ParseBool(Lower(s))
  {
    LowerIdempotent(s);
  }

  /** A text without upper-case ASCII letters is its own lowering. */
  lemma LowerFixed(s: string)
    requires forall i :: 0 <= i < |s| ==> !('A' <= s[i] <= 'Z')
    ensures Lower(s) == s
  {
  }

  lemma LowerTrue()
    ensures Lower("True") == "true"
  {
    var t := Lower("True");
    assert t[0] == 't' && t[1..] == Lower("rue");
    LowerFixed("rue");
  }

  lemma LowerFalse()
    ensures Lower("False") == "false"
  {
    var t := Lower("False");
    assert t[0] == 'f' && t[1..] == Lower("alse");
    LowerFixed("alse");
  }

  lemma ParseTrueText()
    ensures ParseBool("true") == Some(true) && ParseBool("True") == Some(true)
  {
    LowerFixed("true");
    LowerTrue();
  }

  lemma ParseFalseText()
    ensures ParseBool("false") == Some(false) && ParseBool("False") == Some(false)
  {
    LowerFixed("false");
    LowerFalse();
  }

  /** Both `str(True)` / `str(False)` and their lower-case forms are read back. */
  lemma ParseShowBool(b: bool)
    ensures ParseBool(if b then "true" else "false") == Some(b)
    ensures ParseBool(if b then "True" else "False") == Some(b)
  {
    if b {
      ParseTrueText();
    } else {
      ParseFalseText();
    }
  }
}
