/**
 Query results and their comparison: rows are flattened to strings, numbers normalised on the
 way, and two results compared as multisets by counting in a map.
 */
module ResultCmp {
  import opened Sql

  // A query result as the connectors deliver it; `failed` where there is an error instead.
  datatype Result = Result(columns: seq<string>, rows: seq<seq<string>>, failed: bool) {
    predicate IsEmpty() {
      columns == []
    }
  }

  // The MySQL connector learns the columns from the rows, so that a result without rows has no
  // columns; the PostgreSQL connector always knows them.
  datatype Naming = FromRows | Always

  /** A result of a statement with `w` columns that did not fail. */
  predicate Delivered(naming: Naming, w: nat, r: Result) {
    && !r.failed && |r.columns| == (if naming == FromRows && r.rows == [] then 0 else w)
    && forall i :: 0 <= i < |r.rows| ==> |r.rows[i]| == w
  }

  const NULL_MARKER := "\0NULL\0"

  // What ParseFloat and FormatFloat make of a number in scientific notation; None if it is none.
  type Reformat = string -> Option<string>

  // ---------------------------------------------------------------------------------------
  // Number normalisation

  predicate IsDigit(c: char) {
    '0' <= c <= '9'
  }

  predicate IsSign(c: char) {
    c == '-' || c == '+'
  }

  predicate DecimalChar(c: char, i: nat) {
    IsDigit(c) || c == '.' || (IsSign(c) && i == 0)
  }

  /** Only digits, at most one dot, a sign at most in front. */
  predicate IsDecimal(s: string) {
    (forall i :: 0 <= i < |s| ==> DecimalChar(s[i], i)) && '.' !in AfterDot(s)
  }

  predicate Scientific(s: string) {
    'e' in s || 'E' in s
  }

  /** `s` without the zeros at its end. */
  function TrimZeros(s: string): string {
    if s != [] && s[|s| - 1] == '0' then TrimZeros(s[..|s| - 1]) else s
  }

  /** The part before the dot and the part after it; without a dot all is before it. */
  function BeforeDot(s: string): string {
    if s == [] || s[0] == '.' then [] else [s[0]] + BeforeDot(s[1..])
  }

  function AfterDot(s: string): string {
    if s == [] then [] else if s[0] == '.' then s[1..] else AfterDot(s[1..])
  }

  /** Without the zeros at the end of the fraction, and without the dot if nothing is left of it. */
  function Cut(s: string): string {
    var frac := TrimZeros(AfterDot(s));
    if frac == [] then BeforeDot(s) else BeforeDot(s) + "." + frac
  }

  function Shorten(s: string): string {
    if Cut(s) == "-0" || Cut(s) == "+0" then "0" else Cut(s)
  }

  function Normalize(s: string, float: Reformat): string {
    if s == [] || s == NULL_MARKER || !(IsSign(s[0]) || s[0] == '.' || IsDigit(s[0])) then s
    else if Scientific(s) then (match float(s) case None => s case Some(t) => t)
    else if IsDecimal(s) && '.' in s then Shorten(s)
    else s
  }

  lemma {:induction false} DotSplit(s: string, d: nat)
    requires d < |s| && s[d] == '.' && '.' !in s[..d]
    ensures BeforeDot(s) == s[..d] && AfterDot(s) == s[d + 1..]
  {
    if d > 0 {
      assert s[0] in s[..d];
      assert '.' !in s[1..][..d - 1] by {
        assert forall c :: c in s[1..][..d - 1] ==> c in s[..d];
      }
      DotSplit(s[1..], d - 1);
    }
  }

  lemma {:induction false} TrimStep(s: string, lo: nat, end: nat)
    requires lo < end <= |s| && s[end - 1] == '0'
    ensures TrimZeros(s[lo..end]) == TrimZeros(s[lo..end - 1])
  {
    assert s[lo..end][..end - lo - 1] == s[lo..end - 1];
  }

  method HasExponent(s: string) returns (found: bool)
    ensures found <==> Scientific(s)
  {
    for i := 0 to |s|
      invariant !Scientific(s[..i])
    {
      if s[i] == 'e' || s[i] == 'E' {
        return true;
      }
    }
    assert s[..|s|] == s;
    return false;
  }

  lemma {:induction false} AfterDotConcat(a: string, b: string)
    ensures AfterDot(a + b) == if '.' in a then AfterDot(a) + b else AfterDot(b)
  {
    if a == [] {
      assert a + b == b;
    } else {
      AfterDotConcat(a[1..], b);
      assert (a + b)[1..] == a[1..] + b;
    }
  }

  lemma NextDot(s: string, i: nat)
    requires i < |s|
    ensures '.' in s[..i + 1] <==> '.' in s[..i] || s[i] == '.'
    ensures '.' in AfterDot(s[..i + 1]) <==> '.' in AfterDot(s[..i]) || ('.' in s[..i] && s[i] == '.')
  {
    assert s[..i + 1] == s[..i] + [s[i]];
    AfterDotConcat(s[..i], [s[i]]);
    NoDotAfter(s[..i]);
    assert AfterDot([s[i]]) == [];
  }

  lemma SecondDot(s: string, i: nat)
    requires i <= |s| && '.' in AfterDot(s[..i])
    ensures '.' in AfterDot(s)
  {
    assert s == s[..i] + s[i..];
    AfterDotConcat(s[..i], s[i..]);
    NoDotAfter(s[..i]);
  }

  lemma {:induction false} NoDotAfter(s: string)
    ensures '.' !in s ==> AfterDot(s) == []
  {
    if s != [] {
      NoDotAfter(s[1..]);
      assert '.' in s[1..] ==> '.' in s;
    }
  }

  method CheckDecimal(s: string) returns (ok: bool, hasDot: bool)
    ensures ok <==> IsDecimal(s)
    ensures ok ==> (hasDot <==> '.' in s)
  {
    hasDot := false;
    for i := 0 to |s|
      invariant forall j :: 0 <= j < i ==> DecimalChar(s[j], j)
      invariant hasDot <==> '.' in s[..i]
      invariant '.' !in AfterDot(s[..i])
    {
      NextDot(s, i);
      var c := s[i];
      if c == '.' {
        if hasDot {
          SecondDot(s, i + 1);
          return false, hasDot;
        }
        hasDot := true;
      } else if c == '-' || c == '+' {
        if i != 0 {
          assert !DecimalChar(s[i], i);
          return false, hasDot;
        }
      } else if c < '0' || c > '9' {
        assert !DecimalChar(s[i], i);
        return false, hasDot;
      }
    }
    assert s[..|s|] == s;
    ok := true;
  }

  method StripZeros(s: string, dotIdx: nat) returns (t: string)
    requires dotIdx < |s| && s[dotIdx] == '.' && '.' !in s[..dotIdx]
    ensures t == Cut(s)
  {
    DotSplit(s, dotIdx);
    var end := |s|;
    assert s[dotIdx + 1..end] == AfterDot(s);
    while end > dotIdx + 1 && s[end - 1] == '0'
      invariant dotIdx + 1 <= end <= |s|
      invariant TrimZeros(s[dotIdx + 1..end]) == TrimZeros(AfterDot(s))
    {
      TrimStep(s, dotIdx + 1, end);
      end := end - 1;
    }
    if end == dotIdx + 1 {
      end := dotIdx;
    } else {
      assert s[..end] == s[..dotIdx] + "." + s[dotIdx + 1..end];
    }
    t := s[..end];
  }

  method NormalizeNumeric(s: string, float: Reformat) returns (t: string)
    ensures t == Normalize(s, float)
  {
    if |s| == 0 || s == NULL_MARKER {
      return s;
    }
    var ch := s[0];
    if ch != '-' && ch != '+' && ch != '.' && (ch < '0' || ch > '9') {
      return s;
    }
    var exponent := HasExponent(s);
    if exponent {
      return match float(s) case None => s case Some(f) => f;
    }
    var ok, hasDot := CheckDecimal(s);
    if !ok || !hasDot {
      return s;
    }
    var dotIdx := 0;
    while s[dotIdx] != '.'
      invariant dotIdx < |s| && '.' !in s[..dotIdx]
      decreases |s| - dotIdx
    {
      dotIdx := dotIdx + 1;
    }
    t := StripZeros(s, dotIdx);
    if t == "-0" || t == "+0" {
      t := "0";
    }
  }

  // What normalisation keeps.

  lemma {:induction false} TrimTwice(s: string)
    ensures TrimZeros(TrimZeros(s)) == TrimZeros(s) && |TrimZeros(s)| <= |s|
    ensures TrimZeros(s) == s[..|TrimZeros(s)|]
  {
    if s != [] && s[|s| - 1] == '0' {
      TrimTwice(s[..|s| - 1]);
    }
  }

  lemma {:induction false} SplitAgain(a: string, b: string)
    requires '.' !in a
    ensures BeforeDot(a) == a && BeforeDot(a + "." + b) == a && AfterDot(a + "." + b) == b
  {
    if a == [] {
      assert [] + "." + b == "." + b;
    } else {
      SplitAgain(a[1..], b);
      assert (a + "." + b)[1..] == a[1..] + "." + b;
    }
  }

  lemma {:induction false} BeforeDotFree(s: string)
    ensures '.' !in BeforeDot(s)
    ensures '.' in s ==> s == BeforeDot(s) + "." + AfterDot(s)
    ensures '.' !in s ==> s == BeforeDot(s)
  {
    if s != [] && s[0] != '.' {
      BeforeDotFree(s[1..]);
      assert '.' in s <==> '.' in s[1..];
    } else if s != [] {
      assert s == [] + "." + s[1..];
    }
  }

  /** Normalising a normalised string changes nothing. */
  lemma NormalizeTwice(s: string, float: Reformat)
    requires forall t :: float(t).Some? ==> Normalize(float(t).value, float) == float(t).value
    ensures Normalize(Normalize(s, float), float) == Normalize(s, float)
  {
    if s != [] && !Scientific(s) && IsDecimal(s) && '.' in s {
      var a, b, t := BeforeDot(s), TrimZeros(AfterDot(s)), Shorten(s);
      BeforeDotFree(s);
      TrimTwice(AfterDot(s));
      if b == [] {
        assert '.' !in t;
        assert forall c :: c in t ==> c in s || c == '0';
        assert !Scientific(t);
      } else {
        SplitAgain(a, b);
        assert t == a + "." + b;
        assert Shorten(t) == t;
        assert forall c :: c in t ==> c in s;
      }
    }
  }

  function DigitValue(c: char): int {
    if IsDigit(c) then (c as int) - ('0' as int) else 0
  }

  function IntegerValue(s: string): int {
    if s == [] then 0 else 10 * IntegerValue(s[..|s| - 1]) + DigitValue(s[|s| - 1])
  }

  function FractionValue(s: string): real {
    if s == [] then 0.0 else (DigitValue(s[0]) as real + FractionValue(s[1..])) / 10.0
  }

  function Magnitude(s: string): real {
    IntegerValue(BeforeDot(s)) as real + FractionValue(AfterDot(s))
  }

  /** The number a decimal denotes. */
  function NumberOf(s: string): real {
    if s != [] && s[0] == '-' then -Magnitude(s[1..])
    else if s != [] && s[0] == '+' then Magnitude(s[1..])
    else Magnitude(s)
  }

  lemma {:induction false} FractionTrim(s: string)
    ensures FractionValue(TrimZeros(s)) == FractionValue(s)
  {
    if s != [] && s[|s| - 1] == '0' {
      FractionTrim(s[..|s| - 1]);
      FractionZero(s[..|s| - 1]);
      assert s == s[..|s| - 1] + "0";
    }
  }

  lemma {:induction false} FractionZero(s: string)
    ensures FractionValue(s + "0") == FractionValue(s)
  {
    if s == [] {
      assert s + "0" == "0" && "0"[1..] == [];
    } else {
      FractionZero(s[1..]);
      assert (s + "0")[1..] == s[1..] + "0";
    }
  }

  lemma MagnitudeCut(s: string)
    requires '.' in s
    ensures Magnitude(Cut(s)) == Magnitude(s)
  {
    var a, b := BeforeDot(s), TrimZeros(AfterDot(s));
    BeforeDotFree(s);
    FractionTrim(AfterDot(s));
    SplitAgain(a, b);
    NoDotAfter(a);
  }

  lemma CutSigned(s: string)
    requires s != [] && IsSign(s[0])
    ensures Cut(s) == [s[0]] + Cut(s[1..])
  {
    var b := TrimZeros(AfterDot(s));
    assert [s[0]] + BeforeDot(s[1..]) + "." + b == [s[0]] + (BeforeDot(s[1..]) + "." + b);
  }

  lemma ShortenSigned(s: string)
    requires '.' in s && s[0] != '.' && IsSign(s[0])
    ensures NumberOf(Shorten(s)) == NumberOf(s)
  {
    CutSigned(s);
    assert '.' in s[1..];
    MagnitudeCut(s[1..]);
    assert Cut(s)[1..] == Cut(s[1..]);
    ZeroMagnitude();
  }

  lemma ShortenUnsigned(s: string)
    requires '.' in s && !IsSign(s[0])
    ensures NumberOf(Shorten(s)) == NumberOf(s)
  {
    MagnitudeCut(s);
    if s[0] != '.' {
      assert BeforeDot(s)[0] == s[0];
      assert Cut(s)[0] == s[0];
    }
  }

  predicate HasDigit(s: string) {
    exists i :: 0 <= i < |s| && IsDigit(s[i])
  }

  lemma {:induction false} TrimEnd(s: string)
    ensures TrimZeros(s) != [] ==> TrimZeros(s)[|TrimZeros(s)| - 1] != '0'
    ensures forall c :: c in TrimZeros(s) ==> c in s
  {
    if s != [] && s[|s| - 1] == '0' {
      TrimEnd(s[..|s| - 1]);
    }
  }

  /** After its dot a decimal has only digits. */
  lemma FractionDigits(s: string)
    requires IsDecimal(s) && '.' in s
    ensures forall i :: 0 <= i < |AfterDot(s)| ==> IsDigit(AfterDot(s)[i])
  {
    BeforeDotFree(s);
    var d := |BeforeDot(s)|;
    assert s[d] == '.';
    assert forall i :: 0 <= i < |AfterDot(s)| ==> AfterDot(s)[i] == s[d + 1 + i];
  }

  lemma CutDigits(s: string)
    requires IsDecimal(s) && '.' in s
    ensures HasDigit(Cut(s)) <==> HasDigit(BeforeDot(s)) || TrimZeros(AfterDot(s)) != []
  {
    var a, b := BeforeDot(s), TrimZeros(AfterDot(s));
    if b != [] {
      FractionDigits(s);
      TrimEnd(AfterDot(s));
      assert b[0] in AfterDot(s);
      assert Cut(s)[|a| + 1] == b[0];
    }
  }

  lemma NormalizeDecimal(s: string, float: Reformat)
    requires IsDecimal(s)
    ensures Normalize(s, float) == if '.' in s then Shorten(s) else s
  {
    assert forall c :: c in s ==> IsDigit(c) || c == '.' || IsSign(c);
    assert '\0' in NULL_MARKER by { assert NULL_MARKER[0] == '\0'; }
  }

  lemma ShortenDigits(s: string)
    requires IsDecimal(s) && '.' in s
    ensures HasDigit(Shorten(s)) <==> HasDigit(BeforeDot(s)) || TrimZeros(AfterDot(s)) != []
  {
    CutDigits(s);
    assert HasDigit("0") && HasDigit("-0") && HasDigit("+0") by {
      assert IsDigit("0"[0]) && IsDigit("-0"[1]) && IsDigit("+0"[1]);
    }
  }

  /**
   A decimal denotes the same number after normalisation, and is still a number with a digit
   in it exactly if it had one before the dot or a digit other than zero after it.
   */
  lemma NormalizeKeepsNumber(s: string, float: Reformat)
    requires IsDecimal(s)
    ensures NumberOf(Normalize(s, float)) == NumberOf(s)
    ensures HasDigit(Normalize(s, float)) <==> HasDigit(BeforeDot(s)) || TrimZeros(AfterDot(s)) != []
  {
    NormalizeDecimal(s, float);
    BeforeDotFree(s);
    if '.' in s {
      ShortenDigits(s);
      if IsSign(s[0]) {
        ShortenSigned(s);
      } else {
        ShortenUnsigned(s);
      }
    } else {
      NoDotAfter(s);
    }
  }

  lemma ZeroMagnitude()
    ensures Magnitude("0") == 0.0 && NumberOf("0") == 0.0 && NumberOf("-0") == 0.0 && NumberOf("+0") == 0.0
  {
    assert "-0"[1..] == "0" && "+0"[1..] == "0" && "0"[1..] == [] && BeforeDot("0") == "0";
    assert IntegerValue("0") == 0;
  }

  /** Without a digit there the number can be lost: ".0" becomes the empty string, like "" itself. */
  lemma NormalizeLosesNumber(float: Reformat)
    ensures Normalize(".0", float) == Normalize("", float) == ""
  {
    assert AfterDot(".0") == "0" && TrimZeros("0") == [] by {
      assert ".0"[1..] == "0" && "0"[..0] == [];
    }
    assert '.' in ".0";
  }

  // ---------------------------------------------------------------------------------------
  // Flattening

  function Join(cells: seq<string>): string {
    if cells == [] then []
    else if |cells| == 1 then cells[0]
    else Join(cells[..|cells| - 1]) + "," + cells[|cells| - 1]
  }

  function MapAll<T, U>(s: seq<T>, f: T -> U): (r: seq<U>)
    ensures |r| == |s| && forall i :: 0 <= i < |s| ==> r[i] == f(s[i])
  {
    seq(|s|, i requires 0 <= i < |s| => f(s[i]))
  }

  function NormalizeRow(row: seq<string>, float: Reformat): (r: seq<string>)
    ensures |r| == |row| && forall i :: 0 <= i < |row| ==> r[i] == Normalize(row[i], float)
  {
    MapAll(row, c => Normalize(c, float))
  }

  function Flat(row: seq<string>, float: Reformat): string {
    Join(NormalizeRow(row, float))
  }

  function FlatAll(rows: seq<seq<string>>, float: Reformat): (fs: seq<string>)
    ensures |fs| == |rows| && forall i :: 0 <= i < |rows| ==> fs[i] == Flat(rows[i], float)
  {
    MapAll(rows, r => Flat(r, float))
  }

  lemma JoinNext(cells: seq<string>, i: nat)
    requires i < |cells|
    ensures Join(cells[..i + 1]) == (if i == 0 then "" else Join(cells[..i]) + ",") + cells[i]
  {
    assert cells[..i + 1][..i] == cells[..i] && cells[..i + 1][i] == cells[i];
  }

  method FlatRow(r: seq<string>, float: Reformat) returns (t: string)
    ensures t == Flat(r, float)
  {
    t := "";
    ghost var cells := NormalizeRow(r, float);
    for i := 0 to |r|
      invariant t == Join(cells[..i])
    {
      JoinNext(cells, i);
      if i != 0 {
        t := t + ",";
      }
      var e := NormalizeNumeric(r[i], float);
      t := t + e;
    }
    assert cells[..|r|] == cells;
  }

  method FlatRows(rows: seq<seq<string>>, float: Reformat) returns (flt: seq<string>)
    ensures flt == FlatAll(rows, float)
  {
    flt := [];
    for k := 0 to |rows|
      invariant |flt| == k && forall i :: 0 <= i < k ==> flt[i] == Flat(rows[i], float)
    {
      var t := FlatRow(rows[k], float);
      flt := flt + [t];
    }
  }

  predicate CommaFree(s: string) {
    ',' !in s
  }

  lemma CommaInLonger(a: string, x: string, b: string, y: string)
    requires a + "," + x == b + "," + y && |a| < |b|
    ensures ',' in x
  {
    var s := b + "," + y;
    assert s[|b|] == ',';
    assert (a + "," + x)[|b|] == x[|b| - |a| - 1];
  }

  lemma LastComma(a: string, x: string, b: string, y: string)
    requires a + "," + x == b + "," + y && CommaFree(x) && CommaFree(y)
    ensures a == b && x == y
  {
    if |a| < |b| {
      CommaInLonger(a, x, b, y);
    } else if |b| < |a| {
      CommaInLonger(b, y, a, x);
    } else {
      var s, t := a + "," + x, b + "," + y;
      assert a == s[..|a|] && b == t[..|a|];
      assert x == s[|a| + 1..] && y == t[|a| + 1..];
    }
  }

  lemma {:induction false} JoinInjective(a: seq<string>, b: seq<string>)
    requires |a| == |b| && Join(a) == Join(b)
    requires forall i :: 0 <= i < |a| ==> CommaFree(a[i]) && CommaFree(b[i])
    ensures a == b
  {
    var k := |a| - 1;
    if |a| > 1 {
      LastComma(Join(a[..k]), a[k], Join(b[..k]), b[k]);
      JoinInjective(a[..k], b[..k]);
      assert a == a[..k] + [a[k]] && b == b[..k] + [b[k]];
    }
  }

  lemma NormalizeCommaFree(s: string, float: Reformat)
    requires CommaFree(s) && forall t :: float(t).Some? ==> CommaFree(float(t).value)
    ensures CommaFree(Normalize(s, float))
  {
    BeforeDotFree(s);
    TrimTwice(AfterDot(s));
  }

  /** Rows of equal width with comma-free cells are flattened apart, up to normalisation. */
  lemma FlatInjective(a: seq<string>, b: seq<string>, float: Reformat)
    requires |a| == |b| && Flat(a, float) == Flat(b, float)
    requires forall i :: 0 <= i < |a| ==> CommaFree(a[i]) && CommaFree(b[i])
    requires forall t :: float(t).Some? ==> CommaFree(float(t).value)
    ensures NormalizeRow(a, float) == NormalizeRow(b, float)
  {
    forall i | 0 <= i < |a| ensures CommaFree(Normalize(a[i], float)) && CommaFree(Normalize(b[i], float)) {
      NormalizeCommaFree(a[i], float);
      NormalizeCommaFree(b[i], float);
    }
    JoinInjective(NormalizeRow(a, float), NormalizeRow(b, float));
  }

  function Commas(s: string): nat {
    if s == [] then 0 else (if s[0] == ',' then 1 else 0) + Commas(s[1..])
  }

  lemma {:induction false} CommasConcat(a: string, b: string)
    ensures Commas(a + b) == Commas(a) + Commas(b)
  {
    if a == [] {
      assert a + b == b;
    } else {
      CommasConcat(a[1..], b);
      assert (a + b)[1..] == a[1..] + b;
    }
  }

  lemma {:induction false} NoCommas(s: string)
    ensures Commas(s) == 0 <==> CommaFree(s)
  {
    if s != [] {
      NoCommas(s[1..]);
      assert s == [s[0]] + s[1..];
    }
  }

  /** A joined row has a comma between its cells, and those inside them. */
  lemma {:induction false} JoinCommas(cells: seq<string>)
    requires cells != []
    ensures Commas(Join(cells)) >= |cells| - 1
    ensures Commas(Join(cells)) == |cells| - 1 <==> forall i :: 0 <= i < |cells| ==> CommaFree(cells[i])
  {
    var k := |cells| - 1;
    NoCommas(cells[k]);
    if k > 0 {
      JoinCommas(cells[..k]);
      CommasConcat(Join(cells[..k]) + ",", cells[k]);
      CommasConcat(Join(cells[..k]), ",");
      assert forall i :: 0 <= i < k ==> cells[..k][i] == cells[i];
    }
  }

  lemma {:induction false} JoinConcat(a: seq<string>, b: seq<string>)
    requires a != [] && b != []
    ensures Join(a + b) == Join(a) + "," + Join(b)
    decreases |b|
  {
    var k := |b| - 1;
    assert (a + b)[|a| + k] == b[k] && (a + b)[..|a| + k] == a + b[..k];
    if k > 0 {
      JoinConcat(a, b[..k]);
      Commaed(Join(a), Join(b[..k]), b[k]);
    } else {
      assert a + b[..0] == a && b == [b[0]];
    }
  }

  lemma Commaed(x: string, y: string, z: string)
    ensures (x + "," + y) + "," + z == x + "," + (y + "," + z)
  {
  }

  /** Another row of the same width that is joined to the same text. */
  ghost predicate Confused(cells: seq<string>) {
    exists other: seq<string> :: |other| == |cells| && other != cells && Join(other) == Join(cells)
  }

  /**
   Which rows of normalised cells are mistaken for others: those with a comma in some cell, unless
   the row has one cell only. A difference between such rows is missed.
   */
  lemma ConfusedExact(cells: seq<string>)
    ensures Confused(cells) <==> |cells| > 1 && exists i :: 0 <= i < |cells| && !CommaFree(cells[i])
  {
    if |cells| > 1 && exists i :: 0 <= i < |cells| && !CommaFree(cells[i]) {
      var i :| 0 <= i < |cells| && !CommaFree(cells[i]);
      var other := Shifted(cells, i);
    } else if cells != [] {
      forall other: seq<string> | |other| == |cells| && Join(other) == Join(cells) ensures other == cells {
        NotConfused(cells, other);
      }
    }
  }

  lemma NotConfused(cells: seq<string>, other: seq<string>)
    requires cells != [] && |other| == |cells| && Join(other) == Join(cells)
    requires |cells| == 1 || forall i :: 0 <= i < |cells| ==> CommaFree(cells[i])
    ensures other == cells
  {
    if |cells| > 1 {
      JoinCommas(cells);
      JoinCommas(other);
      JoinInjective(other, cells);
    } else {
      assert cells == [cells[0]] && other == [other[0]];
    }
  }

  /** The comma in a cell becomes a border of cells, and the border beside it a comma. */
  lemma Shifted(cells: seq<string>, i: nat) returns (other: seq<string>)
    requires |cells| > 1 && i < |cells| && !CommaFree(cells[i])
    ensures |other| == |cells| && other != cells && Join(other) == Join(cells)
  {
    var d :| 0 <= d < |cells[i]| && cells[i][d] == ',';
    var x, y := cells[i][..d], cells[i][d + 1..];
    assert cells[i] == x + "," + y;
    if i + 1 < |cells| {
      var z := cells[i + 1];
      other := cells[..i] + [x, y + "," + z] + cells[i + 2..];
      assert cells == cells[..i] + [x + "," + y, z] + cells[i + 2..];
      TwoCells(x, y, z);
      JoinAround(cells[..i], [x + "," + y, z], [x, y + "," + z], cells[i + 2..]);
      assert other[i] == x && |x| < |cells[i]|;
    } else {
      var z := cells[i - 1];
      other := cells[..i - 1] + [z + "," + x, y] + [];
      assert cells == cells[..i - 1] + [z, x + "," + y] + [];
      TwoCells(z, x, y);
      JoinAround(cells[..i - 1], [z, x + "," + y], [z + "," + x, y], []);
      assert other[i] == y && |y| < |cells[i]|;
    }
  }

  lemma TwoCells(x: string, y: string, z: string)
    ensures Join([x + "," + y, z]) == Join([x, y + "," + z])
  {
    var a, b := [x + "," + y, z], [x, y + "," + z];
    assert a[..1] == [x + "," + y] && b[..1] == [x];
    Commaed(x, y, z);
  }

  lemma JoinAround(before: seq<string>, mid: seq<string>, mid': seq<string>, after: seq<string>)
    requires mid != [] && mid' != [] && Join(mid) == Join(mid')
    ensures Join(before + mid + after) == Join(before + mid' + after)
  {
    JoinBefore(before, mid, mid');
    if after != [] {
      JoinConcat(before + mid, after);
      JoinConcat(before + mid', after);
    } else {
      assert before + mid + after == before + mid && before + mid' + after == before + mid';
    }
  }

  lemma JoinBefore(before: seq<string>, mid: seq<string>, mid': seq<string>)
    requires mid != [] && mid' != [] && Join(mid) == Join(mid')
    ensures Join(before + mid) == Join(before + mid')
  {
    if before != [] {
      JoinConcat(before, mid);
      JoinConcat(before, mid');
    } else {
      assert before + mid == mid && before + mid' == mid';
    }
  }

  // ---------------------------------------------------------------------------------------
  // Comparison

  /** The verdict on two flattened results: 0 equal, -1 contained, 1 containing, 2 neither. */
  function Verdict(a: multiset<string>, b: multiset<string>): int {
    if a == b then 0 else if a <= b then -1 else if b <= a then 1 else 2
  }

  /** None stands for the error CMP returns when one of the statements failed. */
  function Compared(a: Result, b: Result, float: Reformat): Option<int> {
    if a.failed || b.failed then None
    else if a.IsEmpty() && b.IsEmpty() then Some(0)
    else if a.IsEmpty() then Some(-1)
    else if b.IsEmpty() then Some(1)
    else if |a.columns| != |b.columns| then Some(2)
    else Some(Verdict(multiset(FlatAll(a.rows, float)), multiset(FlatAll(b.rows, float))))
  }

  /** The map holds exactly the positive multiplicities of `ms`. */
  ghost predicate Counts(mp: map<string, int>, ms: multiset<string>) {
    forall s :: (s in mp <==> s in ms) && (s in mp ==> mp[s] == ms[s])
  }

  method CMP(this_: Result, another: Result, float: Reformat) returns (cmp: Option<int>)
    ensures cmp == Compared(this_, another, float)
  {
    if this_.failed || another.failed {
      return None;
    }
    var empty1, empty2 := this_.IsEmpty(), another.IsEmpty();
    if empty1 || empty2 {
      return Some(if empty1 && empty2 then 0 else if empty1 then -1 else 1);
    }
    if |this_.columns| != |another.columns| {
      return Some(2);
    }
    var res1 := FlatRows(this_.rows, float);
    var res2 := FlatRows(another.rows, float);
    var r := CountingCompare(res1, res2);
    cmp := Some(r);
  }

  function Raised(mp: map<string, int>, e: string): map<string, int> {
    mp[e := if e in mp then mp[e] + 1 else 1]
  }

  function Lowered(mp: map<string, int>, e: string): map<string, int> {
    if e !in mp then mp else if mp[e] <= 1 then mp - {e} else mp[e := mp[e] - 1]
  }

  lemma CountsRaised(mp: map<string, int>, s: seq<string>, i: nat)
    requires i < |s| && Counts(mp, multiset(s[..i]))
    ensures Counts(Raised(mp, s[i]), multiset(s[..i + 1]))
  {
    PrefixCounts(s, i);
  }

  lemma CountsLowered(mp: map<string, int>, ms: multiset<string>, e: string)
    requires Counts(mp, ms)
    ensures Counts(Lowered(mp, e), ms - multiset{e})
  {
  }

  lemma PrefixCounts(s: seq<string>, i: nat)
    requires i < |s|
    ensures multiset(s[..i + 1]) == multiset(s[..i]) + multiset{s[i]}
  {
    assert s[..i + 1] == s[..i] + [s[i]];
  }

  /** How often each row occurs. */
  method CountRows(res: seq<string>) returns (mp: map<string, int>)
    ensures Counts(mp, multiset(res))
  {
    mp := map[];
    for i := 0 to |res|
      invariant Counts(mp, multiset(res[..i]))
    {
      CountsRaised(mp, res, i);
      if res[i] in mp {
        mp := mp[res[i] := mp[res[i]] + 1];
      } else {
        mp := mp[res[i] := 1];
      }
    }
    assert res[..|res|] == res;
  }

  lemma CrossOne(res: seq<string>, i: nat, mp: map<string, int>, ms: multiset<string>)
    requires i < |res| && Counts(mp, ms - multiset(res[..i]))
    ensures Counts(Lowered(mp, res[i]), ms - multiset(res[..i + 1]))
    ensures multiset(res[..i + 1]) <= ms <==> multiset(res[..i]) <= ms && res[i] in mp
  {
    PrefixCounts(res, i);
    TakeOne(multiset(res[..i]), ms, res[i]);
    CountsLowered(mp, ms - multiset(res[..i]), res[i]);
  }

  /** Crosses the rows off the counts; says whether all of them were there. */
  method CrossOff(res: seq<string>, counts: map<string, int>, ghost ms: multiset<string>)
    returns (mp: map<string, int>, all: bool)
    requires Counts(counts, ms)
    ensures Counts(mp, ms - multiset(res)) && (all <==> multiset(res) <= ms)
  {
    mp, all := counts, true;
    for i := 0 to |res|
      invariant Counts(mp, ms - multiset(res[..i]))
      invariant all <==> multiset(res[..i]) <= ms
    {
      CrossOne(res, i, mp, ms);
      ghost var next := Lowered(mp, res[i]);
      if res[i] in mp {
        if mp[res[i]] <= 1 {
          mp := mp - {res[i]};
        } else {
          mp := mp[res[i] := mp[res[i]] - 1];
        }
      } else {
        all := false;
      }
      assert mp == next;
    }
    assert res[..|res|] == res;
  }

  /** The counting loops of CMP, over rows already flattened. */
  method CountingCompare(res1: seq<string>, res2: seq<string>) returns (cmp: int)
    ensures cmp == Verdict(multiset(res1), multiset(res2))
  {
    var mp := CountRows(res2);
    var rest, allInAnother := CrossOff(res1, mp, multiset(res2));
    Leftover(rest, multiset(res1), multiset(res2));
    BothContained(multiset(res1), multiset(res2));
    if allInAnother {
      cmp := if |rest| == 0 then 0 else -1;
    } else {
      cmp := if |rest| == 0 then 1 else 2;
    }
  }

  lemma BothContained(a: multiset<string>, b: multiset<string>)
    ensures a <= b && b <= a <==> a == b
  {
  }

  lemma TakeOne(m: multiset<string>, m2: multiset<string>, e: string)
    ensures m + multiset{e} <= m2 <==> m <= m2 && e in m2 - m
    ensures m2 - (m + multiset{e}) == (m2 - m) - multiset{e}
  {
    if m <= m2 && e in m2 - m {
      forall s ensures (m + multiset{e})[s] <= m2[s] {
        assert m[s] <= m2[s] && (m2 - m)[s] == m2[s] - m[s];
      }
    }
    if m + multiset{e} <= m2 {
      assert (m + multiset{e})[e] <= m2[e];
      assert m <= m + multiset{e};
    }
  }

  lemma Leftover(mp: map<string, int>, m1: multiset<string>, m2: multiset<string>)
    requires Counts(mp, m2 - m1)
    ensures |mp| == 0 <==> m2 <= m1
  {
    if |mp| == 0 {
      forall s ensures m2[s] <= m1[s] {
        assert s !in mp;
        assert (m2 - m1)[s] == 0;
      }
    }
    if m2 <= m1 {
      forall s ensures s !in mp {
        assert m2[s] <= m1[s];
        assert (m2 - m1)[s] == 0;
      }
      assert mp == map[];
    }
  }

  /** Exchanging the results negates the verdict. */
  lemma ComparedOtherWay(a: Result, b: Result, float: Reformat)
    ensures Compared(a, b, float).Some? <==> Compared(b, a, float).Some?
    ensures Compared(a, b, float).Some? ==>
              var x, y := Compared(a, b, float).value, Compared(b, a, float).value;
              if x == 2 then y == 2 else y == -x
  {
    var p, q := multiset(FlatAll(a.rows, float)), multiset(FlatAll(b.rows, float));
    if p <= q && q <= p {
      assert p == q;
    }
  }

  /** Both results have no rows, but only one of them names its columns. */
  predicate Mixed(a: Result, b: Result) {
    a.IsEmpty() != b.IsEmpty() && a.rows == b.rows == []
  }

  /**
   What the numbers say, on results that did not fail: how the rows are contained in each other,
   unless both have no rows and only one of them names its columns. Then one is said to be
   contained in the other, but not the other in the one.
   */
  lemma ComparedExact(a: Result, b: Result, float: Reformat)
    requires !a.failed && !b.failed && (a.IsEmpty() || b.IsEmpty() || |a.columns| == |b.columns|)
    requires (a.IsEmpty() ==> a.rows == []) && (b.IsEmpty() ==> b.rows == [])
    ensures Compared(a, b, float).Some?
    ensures var p, q := multiset(FlatAll(a.rows, float)), multiset(FlatAll(b.rows, float));
            var v := Compared(a, b, float).value;
            && ((v == 0 || v == -1 <==> p <= q) <==> !(Mixed(a, b) && b.IsEmpty()))
            && ((v == 0 || v == 1 <==> q <= p) <==> !(Mixed(a, b) && a.IsEmpty()))
            && ((v == 0 <==> p == q) <==> !Mixed(a, b))
  {
    var p, q := multiset(FlatAll(a.rows, float)), multiset(FlatAll(b.rows, float));
    NoneFlat(a.rows, float);
    NoneFlat(b.rows, float);
    BothContained(p, q);
  }

  lemma NoneFlat(rows: seq<seq<string>>, float: Reformat)
    ensures multiset(FlatAll(rows, float)) == multiset{} <==> rows == []
  {
    if rows != [] {
      assert FlatAll(rows, float)[0] in multiset(FlatAll(rows, float));
    }
  }
}
