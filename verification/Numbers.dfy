/**
 What normalisation is for: two writings of one number become the same text, so that results that
 differ in zeros at the end of fractions compare as equal.
 */
module Numbers {
  import opened Sql
  import opened ResultCmp

  predicate AllDigits(s: string) {
    forall i :: 0 <= i < |s| ==> '0' <= s[i] <= '9'
  }

  predicate SignText(s: string) {
    s == "" || s == "-" || s == "+"
  }

  // ---------------------------------------------------------------------------------------
  // Fractions

  lemma {:induction false} TrimFirst(c: char, s: string)
    ensures TrimZeros([c] + s)
         == if TrimZeros(s) != [] then [c] + TrimZeros(s) else if c == '0' then [] else [c]
    decreases |s|
  {
    var t := [c] + s;
    if s == [] {
      assert t == [c] && t[..0] == [];
      assert TrimZeros([]) == [];
    } else if s[|s| - 1] == '0' {
      TrimFirst(c, s[..|s| - 1]);
      assert t[..|t| - 1] == [c] + s[..|s| - 1] && t[|t| - 1] == '0';
    } else {
      assert t[|t| - 1] == s[|s| - 1];
    }
  }

  lemma {:induction false} FractionRange(s: string)
    requires AllDigits(s)
    ensures 0.0 <= FractionValue(s) < 1.0
  {
    if s != [] {
      FractionRange(s[1..]);
    }
  }

  lemma {:induction false} ZeroFraction(s: string)
    requires AllDigits(s)
    ensures FractionValue(s) == 0.0 <==> TrimZeros(s) == []
  {
    if s != [] {
      ZeroFraction(s[1..]);
      FractionRange(s[1..]);
      TrimFirst(s[0], s[1..]);
      assert s == [s[0]] + s[1..];
    }
  }

  lemma FirstDigit(d: int, e: int, x: real, y: real)
    requires 0.0 <= x < 1.0 && 0.0 <= y < 1.0 && d as real + x == e as real + y
    ensures d == e && x == y
  {
  }

  /** Fractions of one value differ in zeros at their ends only. */
  lemma {:induction false} FractionExact(a: string, b: string)
    requires AllDigits(a) && AllDigits(b)
    ensures FractionValue(a) == FractionValue(b) <==> TrimZeros(a) == TrimZeros(b)
    decreases |a|
  {
    FractionTrim(a);
    FractionTrim(b);
    if a == [] || b == [] {
      ZeroFraction(a);
      ZeroFraction(b);
    } else if FractionValue(a) == FractionValue(b) {
      FractionExact(a[1..], b[1..]);
      FirstAgree(a, b);
    }
  }

  lemma FirstAgree(a: string, b: string)
    requires AllDigits(a) && AllDigits(b) && a != [] && b != [] && FractionValue(a) == FractionValue(b)
    requires FractionValue(a[1..]) == FractionValue(b[1..]) ==> TrimZeros(a[1..]) == TrimZeros(b[1..])
    ensures TrimZeros(a) == TrimZeros(b)
  {
    FractionRange(a[1..]);
    FractionRange(b[1..]);
    FirstDigit(DigitValue(a[0]), DigitValue(b[0]), FractionValue(a[1..]), FractionValue(b[1..]));
    TrimFirst(a[0], a[1..]);
    TrimFirst(b[0], b[1..]);
    assert a == [a[0]] + a[1..] && b == [b[0]] + b[1..];
  }

  // ---------------------------------------------------------------------------------------
  // Decimals written out

  /** An optional sign, digits, a dot, digits. */
  function Decimal(sign: string, whole: string, frac: string): string {
    sign + whole + "." + frac
  }

  lemma DecimalParts(sign: string, whole: string, frac: string)
    requires SignText(sign) && AllDigits(whole) && AllDigits(frac)
    ensures var s := Decimal(sign, whole, frac);
            IsDecimal(s) && '.' in s && BeforeDot(s) == sign + whole && AfterDot(s) == frac
    ensures IsDecimal(sign + whole) && '.' !in sign + whole
  {
    var s, k := Decimal(sign, whole, frac), |sign + whole|;
    assert s[k] == '.';
    assert forall i :: 0 <= i < |sign + whole| ==> DecimalChar((sign + whole)[i], i);
    assert forall i :: 0 <= i < |s| ==> DecimalChar(s[i], i);
    SplitAgain(sign + whole, frac);
    NoDotAfter(sign + whole);
  }

  /** What becomes of a decimal: the zeros at its end go, and the dot with the last of them. */
  lemma DecimalText(sign: string, whole: string, frac: string, float: Reformat)
    requires SignText(sign) && AllDigits(whole) && whole != [] && AllDigits(frac)
    ensures Normalize(sign + whole, float) == sign + whole
    ensures Normalize(Decimal(sign, whole, frac), float)
         == if TrimZeros(frac) != [] then Decimal(sign, whole, TrimZeros(frac))
            else if whole == "0" then "0" else sign + whole
  {
    DecimalParts(sign, whole, frac);
    NormalizeDecimal(sign + whole, float);
    NormalizeDecimal(Decimal(sign, whole, frac), float);
    if TrimZeros(frac) != [] {
      assert Cut(Decimal(sign, whole, frac))[|sign + whole|] == '.';
    }
  }

  /** Two decimals that agree before the dot become the same text exactly if they are the same number. */
  lemma SameFraction(sign: string, whole: string, f: string, g: string, float: Reformat)
    requires SignText(sign) && AllDigits(whole) && whole != [] && AllDigits(f) && AllDigits(g)
    ensures Normalize(Decimal(sign, whole, f), float) == Normalize(Decimal(sign, whole, g), float)
       <==> FractionValue(f) == FractionValue(g)
  {
    DecimalText(sign, whole, f, float);
    DecimalText(sign, whole, g, float);
    FractionExact(f, g);
    var a, b := TrimZeros(f), TrimZeros(g);
    if a != [] && b != [] && Decimal(sign, whole, a) == Decimal(sign, whole, b) {
      assert Decimal(sign, whole, a)[|sign + whole| + 1..] == a;
      assert Decimal(sign, whole, b)[|sign + whole| + 1..] == b;
    } else if a != [] || b != [] {
      var t := Decimal(sign, whole, if a != [] then a else b);
      assert t[|sign + whole|] == '.';
      assert '.' in t && '.' !in "0" && '.' !in sign + whole;
    }
  }

  /** A decimal whose fraction is zero becomes the integer, without a sign if that is a single 0. */
  lemma SameInteger(sign: string, whole: string, f: string, float: Reformat)
    requires SignText(sign) && AllDigits(whole) && whole != [] && AllDigits(f)
    ensures FractionValue(f) == 0.0 ==>
              Normalize(Decimal(sign, whole, f), float) == if whole == "0" then "0" else Normalize(sign + whole, float)
    ensures FractionValue(f) != 0.0 ==> Normalize(Decimal(sign, whole, f), float) != Normalize(sign + whole, float)
  {
    DecimalText(sign, whole, f, float);
    ZeroFraction(f);
    if TrimZeros(f) != [] {
      assert Decimal(sign, whole, TrimZeros(f))[|sign + whole|] == '.';
      DecimalParts(sign, whole, f);
    }
  }

  // ---------------------------------------------------------------------------------------
  // Any two decimals

  function Signed(sign: string, x: real): real {
    if sign == "-" then -x else x
  }

  lemma SignedNumber(sign: string, m: string)
    requires SignText(sign) && m != [] && !IsSign(m[0])
    ensures NumberOf(sign + m) == Signed(sign, Magnitude(m))
  {
    if sign == "" {
      assert sign + m == m;
    } else {
      assert (sign + m)[1..] == m && (sign + m)[0] == sign[0];
    }
  }

  lemma DecimalNumber(sign: string, whole: string, frac: string)
    requires SignText(sign) && AllDigits(whole) && whole != [] && AllDigits(frac)
    ensures NumberOf(Decimal(sign, whole, frac)) == Signed(sign, IntegerValue(whole) as real + FractionValue(frac))
    ensures NumberOf(sign + whole) == Signed(sign, IntegerValue(whole) as real)
  {
    var m := whole + "." + frac;
    Regrouped(sign, whole, frac);
    SignedNumber(sign, m);
    SignedNumber(sign, whole);
    PlainMagnitude(whole, frac);
  }

  lemma Regrouped(sign: string, whole: string, frac: string)
    requires whole != []
    ensures Decimal(sign, whole, frac) == sign + (whole + "." + frac) && (whole + "." + frac)[0] == whole[0]
  {
  }

  lemma PlainMagnitude(whole: string, frac: string)
    requires AllDigits(whole)
    ensures Magnitude(whole + "." + frac) == IntegerValue(whole) as real + FractionValue(frac)
    ensures Magnitude(whole) == IntegerValue(whole) as real
  {
    assert '.' !in whole;
    SplitAgain(whole, frac);
    NoDotAfter(whole);
  }

  /** A decimal in its three parts; one without a dot has no fraction. */
  lemma ThreeParts(s: string) returns (sign: string, whole: string, frac: string)
    requires IsDecimal(s) && HasDigit(BeforeDot(s))
    ensures SignText(sign) && AllDigits(whole) && whole != [] && AllDigits(frac) && BeforeDot(s) == sign + whole
    ensures s == (if '.' in s then Decimal(sign, whole, frac) else sign + whole) && ('.' !in s ==> frac == [])
  {
    BeforeDotFree(s);
    frac := AfterDot(s);
    if '.' in s {
      FractionDigits(s);
    } else {
      NoDotAfter(s);
    }
    LeadChars(s);
    sign, whole := TwoParts(BeforeDot(s));
  }

  lemma LeadChars(s: string)
    requires IsDecimal(s)
    ensures forall i :: 0 <= i < |BeforeDot(s)| ==> IsDigit(BeforeDot(s)[i]) || (i == 0 && IsSign(BeforeDot(s)[i]))
  {
    var b := BeforeDot(s);
    BeforeDotFree(s);
    assert forall i :: 0 <= i < |b| ==> b[i] == s[i] && b[i] in b;
  }

  lemma TwoParts(b: string) returns (sign: string, whole: string)
    requires HasDigit(b) && forall i :: 0 <= i < |b| ==> IsDigit(b[i]) || (i == 0 && IsSign(b[i]))
    ensures SignText(sign) && AllDigits(whole) && whole != [] && b == sign + whole
  {
    var d :| 0 <= d < |b| && IsDigit(b[d]);
    if IsSign(b[0]) {
      sign, whole := [b[0]], b[1..];
      assert whole[d - 1] == b[d];
    } else {
      sign, whole := "", b;
    }
  }

  /** The text before the dot of the normal form: a single 0 loses its sign with its fraction. */
  function Lead(s: string): string {
    var b := BeforeDot(s);
    if '.' in s && (b == "-0" || b == "+0") && FractionValue(AfterDot(s)) == 0.0 then "0" else b
  }

  /** The normal form in its parts. */
  lemma NormalParts(s: string, float: Reformat) returns (sign: string, whole: string, frac: string)
    requires IsDecimal(s) && HasDigit(BeforeDot(s))
    ensures SignText(sign) && AllDigits(whole) && whole != [] && AllDigits(frac) && TrimZeros(frac) == frac
    ensures Normalize(s, float) == if frac == [] then sign + whole else Decimal(sign, whole, frac)
    ensures Lead(s) == sign + whole
  {
    var f;
    sign, whole, f := ThreeParts(s);
    frac := TrimZeros(f);
    TrimmedDigits(f);
    if '.' in s {
      DecimalLead(sign, whole, f, float);
      if frac == [] && whole == "0" {
        sign := "";
        assert "" + "0" == "0";
      }
    } else {
      DecimalText(sign, whole, f, float);
    }
  }

  lemma TrimmedDigits(f: string)
    requires AllDigits(f)
    ensures AllDigits(TrimZeros(f)) && TrimZeros(TrimZeros(f)) == TrimZeros(f)
  {
    TrimTwice(f);
    assert forall i :: 0 <= i < |TrimZeros(f)| ==> TrimZeros(f)[i] == f[i];
  }

  lemma DecimalLead(sign: string, whole: string, f: string, float: Reformat)
    requires SignText(sign) && AllDigits(whole) && whole != [] && AllDigits(f)
    ensures var s, g := Decimal(sign, whole, f), TrimZeros(f);
            && Lead(s) == (if g == [] && whole == "0" then "0" else sign + whole)
            && Normalize(s, float) == if g == [] then Lead(s) else Decimal(sign, whole, g)
  {
    DecimalText(sign, whole, f, float);
    DecimalParts(sign, whole, f);
    ZeroFraction(f);
    SignedZero(sign, whole);
  }

  lemma SignedZero(sign: string, whole: string)
    requires SignText(sign) && AllDigits(whole) && whole != []
    ensures sign + whole == "-0" || sign + whole == "+0" <==> sign != "" && whole == "0"
    ensures sign == "" ==> sign + whole == whole
  {
    if sign != "" {
      assert (sign + whole)[1..] == whole && "-0"[1..] == "0" && "+0"[1..] == "0" && (sign + whole)[0] == sign[0];
    } else {
      assert sign + whole == whole && "-0"[0] == '-' && "+0"[0] == '+';
    }
  }

  lemma SameLead(sign: string, whole: string, sign': string, whole': string)
    requires SignText(sign) && SignText(sign') && AllDigits(whole) && AllDigits(whole') && whole != [] && whole' != []
    requires sign + whole == sign' + whole'
    ensures sign == sign' && whole == whole'
  {
    var s, t := sign + whole, sign' + whole';
    assert s[0] == t[0] && s[|sign|..] == whole && t[|sign'|..] == whole';
  }

  /**
   Two decimals with a digit before the dot, with a fraction or without, become the same text exactly
   if they are the same number and are led by the same text; as to that, `-0.0` and `+0.0` are led by 0.
   */
  lemma NormalizeExact(s: string, t: string, float: Reformat)
    requires IsDecimal(s) && HasDigit(BeforeDot(s)) && IsDecimal(t) && HasDigit(BeforeDot(t))
    ensures Normalize(s, float) == Normalize(t, float) <==> NumberOf(s) == NumberOf(t) && Lead(s) == Lead(t)
  {
    NormalizeKeepsNumber(s, float);
    NormalizeKeepsNumber(t, float);
    NormalLead(s, float);
    NormalLead(t, float);
    if NumberOf(s) == NumberOf(t) && Lead(s) == Lead(t) {
      SameNormal(s, t, float);
    }
  }

  lemma NormalLead(s: string, float: Reformat)
    requires IsDecimal(s) && HasDigit(BeforeDot(s))
    ensures BeforeDot(Normalize(s, float)) == Lead(s)
  {
    var sign, whole, f := NormalParts(s, float);
    DecimalParts(sign, whole, f);
    BeforeDotFree(sign + whole);
  }

  lemma SameNormal(s: string, t: string, float: Reformat)
    requires IsDecimal(s) && HasDigit(BeforeDot(s)) && IsDecimal(t) && HasDigit(BeforeDot(t))
    requires NumberOf(s) == NumberOf(t) && Lead(s) == Lead(t)
    ensures Normalize(s, float) == Normalize(t, float)
  {
    var sign, whole, f := NormalParts(s, float);
    var sign', whole', g := NormalParts(t, float);
    SameLead(sign, whole, sign', whole');
    NormalNumber(s, float, sign, whole, f);
    NormalNumber(t, float, sign, whole, g);
    NumbersSame(sign, whole, f, g);
  }

  lemma NormalNumber(s: string, float: Reformat, sign: string, whole: string, f: string)
    requires IsDecimal(s) && SignText(sign) && AllDigits(whole) && whole != [] && AllDigits(f)
    requires Normalize(s, float) == if f == [] then sign + whole else Decimal(sign, whole, f)
    ensures NumberOf(s) == Signed(sign, IntegerValue(whole) as real + FractionValue(f))
  {
    NormalizeKeepsNumber(s, float);
    DecimalNumber(sign, whole, f);
  }

  lemma NumbersSame(sign: string, whole: string, f: string, g: string)
    requires SignText(sign) && AllDigits(f) && AllDigits(g) && TrimZeros(f) == f && TrimZeros(g) == g
    requires Signed(sign, IntegerValue(whole) as real + FractionValue(f))
          == Signed(sign, IntegerValue(whole) as real + FractionValue(g))
    ensures f == g
  {
    FractionExact(f, g);
  }

  // ---------------------------------------------------------------------------------------
  // Results

  /** The same text, or two decimals of the same number, led by the same text. */
  predicate SameCell(x: string, y: string) {
    || x == y
    || (&& IsDecimal(x) && HasDigit(BeforeDot(x)) && IsDecimal(y) && HasDigit(BeforeDot(y))
        && NumberOf(x) == NumberOf(y) && Lead(x) == Lead(y))
  }

  predicate SameRow(x: seq<string>, y: seq<string>) {
    |x| == |y| && forall j :: 0 <= j < |x| ==> SameCell(x[j], y[j])
  }

  /** Results whose cells are the same, or the same numbers, compare as equal. */
  lemma SameNumbersEqual(a: Result, b: Result, float: Reformat)
    requires !a.failed && !b.failed && |a.columns| == |b.columns| && |a.rows| == |b.rows|
    requires forall i :: 0 <= i < |a.rows| ==> SameRow(a.rows[i], b.rows[i])
    ensures Compared(a, b, float) == Some(0)
  {
    forall i | 0 <= i < |a.rows| ensures Flat(a.rows[i], float) == Flat(b.rows[i], float) {
      assert SameRow(a.rows[i], b.rows[i]);
      SameRowFlat(a.rows[i], b.rows[i], float);
    }
    assert FlatAll(a.rows, float) == FlatAll(b.rows, float);
  }

  lemma SameRowFlat(x: seq<string>, y: seq<string>, float: Reformat)
    requires SameRow(x, y)
    ensures Flat(x, float) == Flat(y, float)
  {
    forall j | 0 <= j < |x| ensures Normalize(x[j], float) == Normalize(y[j], float) {
      assert SameCell(x[j], y[j]);
      if x[j] != y[j] {
        NormalizeExact(x[j], y[j], float);
      }
    }
    assert NormalizeRow(x, float) == NormalizeRow(y, float);
  }
}
