/**
 The verdict on a pair of results: containment, or a comparison of two numbers when the original
 result looks like that of an aggregate query.
 */
module Oracle {
  import opened Sql
  import opened ResultCmp

  // A float as the language has them; comparisons with NaN are false.
  datatype Float = NaN | NegInf | Fin(r: real) | PosInf

  predicate GreaterEq(a: Float, b: Float) {
    match (a, b)
    case (NaN, _) => false
    case (_, NaN) => false
    case (Fin(x), Fin(y)) => x >= y
    case (PosInf, _) => true
    case (_, NegInf) => true
    case _ => false
  }

  // How texts become numbers: white space off both ends, then the language's float syntax, and
  // the rewriting of scientific notation that flattening uses.
  datatype Reading = Reading(trim: string -> string, float: string -> Option<Float>, reformat: Reformat)

  function ParseNumeric(rd: Reading, s: string): Option<Float> {
    var t := rd.trim(s);
    if t == "" || t == "NULL" then None else rd.float(t)
  }

  /** A single row in which every cell is NULL or a number. */
  predicate IsAggregateResult(rd: Reading, r: Result) {
    |r.rows| == 1 && r.rows[0] != []
    && forall i :: 0 <= i < |r.rows[0]| ==> r.rows[0][i] == NULL_MARKER || rd.float(rd.trim(r.rows[0][i])).Some?
  }

  /** The loop over the cells of the one row. */
  method LooksAggregate(rd: Reading, r: Result) returns (ok: bool)
    ensures ok == IsAggregateResult(rd, r)
  {
    if |r.rows| != 1 || |r.rows[0]| == 0 {
      return false;
    }
    for i := 0 to |r.rows[0]|
      invariant forall j :: 0 <= j < i ==> r.rows[0][j] == NULL_MARKER || rd.float(rd.trim(r.rows[0][j])).Some?
    {
      if r.rows[0][i] != NULL_MARKER && rd.float(rd.trim(r.rows[0][i])).None? {
        return false;
      }
    }
    return true;
  }

  /** The verdict on a comparison: true means no bug, None that the comparison failed. */
  function Allowed(cmp: Option<int>, isUpper: bool): Option<bool> {
    match cmp
    case None => None
    case Some(v) => Some(v == 0 || (isUpper && v == -1) || (!isUpper && v == 1))
  }

  function Check(rd: Reading, origin: Result, mutated: Result, isUpper: bool): Option<bool> {
    Allowed(Compared(origin, mutated, rd.reformat), isUpper)
  }

  function CheckAggregate(rd: Reading, origin: Result, mutated: Result, isUpper: bool): Option<bool> {
    if origin.rows == [] || mutated.rows == [] then Some(true)
    else if |origin.rows| == 1 && |mutated.rows| == 1 && origin.rows[0] != [] && mutated.rows[0] != []
            && ParseNumeric(rd, origin.rows[0][0]).Some? && ParseNumeric(rd, mutated.rows[0][0]).Some? then
      var o, m := ParseNumeric(rd, origin.rows[0][0]).value, ParseNumeric(rd, mutated.rows[0][0]).value;
      Some(if isUpper then GreaterEq(m, o) else GreaterEq(o, m))
    else Check(rd, origin, mutated, isUpper)
  }

  /** The oracle's choice between the two. */
  function Judge(rd: Reading, aggregateMode: bool, origin: Result, mutated: Result, isUpper: bool): Option<bool> {
    if aggregateMode || IsAggregateResult(rd, origin) then CheckAggregate(rd, origin, mutated, isUpper)
    else Check(rd, origin, mutated, isUpper)
  }

  /** A cell that is text: not NULL, and no number when trimmed. */
  predicate IsText(rd: Reading, cell: string) {
    cell != "\0NULL\0" && rd.float(rd.trim(cell)).None?
  }

  /**
   Which of the two verdicts it is: that of containment as soon as the original has no row, several
   rows, a row without cells, or a cell of text anywhere in its row; otherwise the numbers' one.
   */
  lemma ChosenByCells(rd: Reading, origin: Result, mutated: Result, isUpper: bool)
    ensures (|origin.rows| != 1 || |origin.rows[0]| == 0
             || exists j :: 0 <= j < |origin.rows[0]| && IsText(rd, origin.rows[0][j]))
        ==> Judge(rd, false, origin, mutated, isUpper) == Check(rd, origin, mutated, isUpper)
    ensures |origin.rows| == 1 && |origin.rows[0]| > 0
            && (forall j :: 0 <= j < |origin.rows[0]| ==> !IsText(rd, origin.rows[0][j]))
        ==> Judge(rd, false, origin, mutated, isUpper) == CheckAggregate(rd, origin, mutated, isUpper)
    ensures Judge(rd, true, origin, mutated, isUpper) == CheckAggregate(rd, origin, mutated, isUpper)
  {
  }

  // ---------------------------------------------------------------------------------------
  // Containment

  /** What the direction of a mutation promises. */
  predicate Kept(isUpper: bool, origin: Result, mutated: Result) {
    if isUpper then multiset(origin.rows) <= multiset(mutated.rows) else multiset(mutated.rows) <= multiset(origin.rows)
  }

  /** Both results are one row, and its first cell reads as NaN: the numbers compare as false. */
  predicate NaNTrap(rd: Reading, origin: Result, mutated: Result) {
    && IsAggregateResult(rd, origin) && |mutated.rows| == 1
    && ParseNumeric(rd, origin.rows[0][0]) == Some(NaN)
  }

  function Rest<T>(s: seq<T>, k: nat): seq<T>
    requires k < |s|
  {
    s[..k] + s[k + 1..]
  }

  lemma Without<T>(s: seq<T>, k: nat)
    requires k < |s|
    ensures multiset(s) == multiset(Rest(s, k)) + multiset{s[k]}
    ensures k == 0 ==> Rest(s, k) == s[1..]
  {
    assert s == s[..k] + [s[k]] + s[k + 1..];
  }

  lemma Cancel<T>(a: multiset<T>, b: multiset<T>, x: T)
    ensures a + multiset{x} <= b + multiset{x} <==> a <= b
  {
    if a + multiset{x} <= b + multiset{x} {
      forall y ensures a[y] <= b[y] {
        assert (a + multiset{x})[y] <= (b + multiset{x})[y];
      }
    }
  }

  lemma MapWithout<T, U>(s: seq<T>, k: nat, f: T -> U)
    requires k < |s|
    ensures multiset(MapAll(s, f)) == multiset(MapAll(Rest(s, k), f)) + multiset{f(s[k])}
  {
    var t := MapAll(s, f);
    Without(t, k);
    assert Rest(t, k) == MapAll(Rest(s, k), f);
  }

  lemma MemberAt<T>(s: seq<T>, ms: multiset<T>, x: T) returns (k: nat)
    requires x in ms && ms <= multiset(s)
    ensures k < |s| && s[k] == x
  {
    assert x in multiset(s);
    k :| k < |s| && s[k] == x;
  }

  /** Whatever is done to each element alike keeps containment. */
  lemma {:induction false} MapContained<T, U>(a: seq<T>, b: seq<T>, f: T -> U)
    requires multiset(a) <= multiset(b)
    ensures multiset(MapAll(a, f)) <= multiset(MapAll(b, f))
    decreases |a|
  {
    if a != [] {
      var k := MemberAt(b, multiset(a), a[0]);
      MapRest(a, b, f, k);
      MapContained(a[1..], Rest(b, k), f);
    }
  }

  /** If the rows moved the promised way, the containment check passes, with either connector. */
  lemma CheckContained(rd: Reading, naming: Naming, w: nat, origin: Result, mutated: Result, isUpper: bool)
    requires Delivered(naming, w, origin) && Delivered(naming, w, mutated) && Kept(isUpper, origin, mutated)
    ensures Check(rd, origin, mutated, isUpper) == Some(true)
  {
    if isUpper {
      MapContained(origin.rows, mutated.rows, r => Flat(r, rd.reformat));
    } else {
      MapContained(mutated.rows, origin.rows, r => Flat(r, rd.reformat));
    }
    if w > 0 {
      ComparedExact(origin, mutated, rd.reformat);
    }
  }

  lemma SingleRow(a: seq<seq<string>>, b: seq<seq<string>>)
    requires |a| == |b| == 1 && (multiset(a) <= multiset(b) || multiset(b) <= multiset(a))
    ensures a == b
  {
    assert a == [a[0]] && b == [b[0]];
    assert a[0] in multiset(a) && b[0] in multiset(b);
  }

  /**
   If the rows moved the promised way, the oracle passes them, outside aggregate mode, exactly
   unless both results are the same single row with a NaN in front.
   */
  lemma JudgeContained(rd: Reading, naming: Naming, w: nat, origin: Result, mutated: Result, isUpper: bool)
    requires Delivered(naming, w, origin) && Delivered(naming, w, mutated) && Kept(isUpper, origin, mutated)
    ensures Judge(rd, false, origin, mutated, isUpper) == Some(!NaNTrap(rd, origin, mutated))
  {
    CheckContained(rd, naming, w, origin, mutated, isUpper);
    if IsAggregateResult(rd, origin) && |mutated.rows| == 1 {
      SingleRow(origin.rows, mutated.rows);
    }
  }

  // ---------------------------------------------------------------------------------------
  // The other way round

  /** The rows with every cell in its normal form. */
  function Normalized(rd: Reading, rows: seq<seq<string>>): seq<seq<string>> {
    MapAll(rows, r => NormalizeRow(r, rd.reformat))
  }

  /** What the direction of a mutation promises, up to the form of numbers. */
  predicate KeptNumbers(rd: Reading, isUpper: bool, origin: Result, mutated: Result) {
    var o, m := multiset(Normalized(rd, origin.rows)), multiset(Normalized(rd, mutated.rows));
    if isUpper then o <= m else m <= o
  }

  /** No cell has a comma, and reading scientific notation makes none. */
  ghost predicate NoComma(rd: Reading, r: Result) {
    && (forall i, j :: 0 <= i < |r.rows| && 0 <= j < |r.rows[i]| ==> CommaFree(r.rows[i][j]))
    && forall t :: rd.reformat(t).Some? ==> CommaFree(rd.reformat(t).value)
  }

  predicate Apart<T(==), U(==)>(a: seq<T>, b: seq<T>, f: T -> U) {
    forall i, j :: 0 <= i < |a| && 0 <= j < |b| && f(a[i]) == f(b[j]) ==> a[i] == b[j]
  }

  lemma ApartRest<T, U>(a: seq<T>, b: seq<T>, f: T -> U, k: nat)
    requires Apart(a, b, f) && a != [] && k < |b|
    ensures Apart(a[1..], Rest(b, k), f)
  {
    forall i, j | 0 <= i < |a| - 1 && 0 <= j < |b| - 1 && f(a[1..][i]) == f(Rest(b, k)[j])
        ensures a[1..][i] == Rest(b, k)[j] {
      assert Rest(b, k)[j] == b[if j < k then j else j + 1] && a[1..][i] == a[i + 1];
    }
  }

  lemma MapRest<T, U>(a: seq<T>, b: seq<T>, f: T -> U, k: nat)
    requires a != [] && k < |b| && a[0] == b[k]
    ensures multiset(MapAll(a, f)) <= multiset(MapAll(b, f))
        <==> multiset(MapAll(a[1..], f)) <= multiset(MapAll(Rest(b, k), f))
    ensures multiset(a) <= multiset(b) <==> multiset(a[1..]) <= multiset(Rest(b, k))
  {
    MapWithout(a, 0, f);
    MapWithout(b, k, f);
    Without(a, 0);
    Without(b, k);
    Cancel(multiset(MapAll(a[1..], f)), multiset(MapAll(Rest(b, k), f)), f(a[0]));
    Cancel(multiset(a[1..]), multiset(Rest(b, k)), a[0]);
  }

  /** A map that tells the elements apart keeps them apart in number, too. */
  lemma {:induction false} MapReflects<T, U>(a: seq<T>, b: seq<T>, f: T -> U)
    requires Apart(a, b, f) && multiset(MapAll(a, f)) <= multiset(MapAll(b, f))
    ensures multiset(a) <= multiset(b)
    decreases |a|
  {
    if a != [] {
      assert MapAll(a, f)[0] == f(a[0]);
      var k := MemberAt(MapAll(b, f), multiset(MapAll(a, f)), f(a[0]));
      assert a[0] == b[k];
      MapRest(a, b, f, k);
      ApartRest(a, b, f, k);
      MapReflects(a[1..], Rest(b, k), f);
    }
  }

  lemma FlatContained(rd: Reading, w: nat, a: Result, b: Result)
    requires (forall i :: 0 <= i < |a.rows| ==> |a.rows[i]| == w) && forall i :: 0 <= i < |b.rows| ==> |b.rows[i]| == w
    requires NoComma(rd, a) && NoComma(rd, b)
    ensures multiset(FlatAll(a.rows, rd.reformat)) <= multiset(FlatAll(b.rows, rd.reformat))
       <==> multiset(Normalized(rd, a.rows)) <= multiset(Normalized(rd, b.rows))
  {
    var p, q := Normalized(rd, a.rows), Normalized(rd, b.rows);
    var f := (cells: seq<string>) => ResultCmp.Join(cells);
    assert FlatAll(a.rows, rd.reformat) == MapAll(p, f) && FlatAll(b.rows, rd.reformat) == MapAll(q, f);
    if multiset(p) <= multiset(q) {
      MapContained(p, q, f);
    }
    if multiset(MapAll(p, f)) <= multiset(MapAll(q, f)) {
      forall i, j | 0 <= i < |p| && 0 <= j < |q| && f(p[i]) == f(q[j]) ensures p[i] == q[j] {
        FlatInjective(a.rows[i], b.rows[j], rd.reformat);
      }
      MapReflects(p, q, f);
    }
  }

  /**
   For cells without commas the containment check decides exactly whether the rows moved the
   promised way, numbers taken in their normal form.
   */
  lemma CheckNumbers(rd: Reading, naming: Naming, w: nat, origin: Result, mutated: Result, isUpper: bool)
    requires w > 0 && Delivered(naming, w, origin) && Delivered(naming, w, mutated)
    requires NoComma(rd, origin) && NoComma(rd, mutated)
    ensures Check(rd, origin, mutated, isUpper) == Some(KeptNumbers(rd, isUpper, origin, mutated))
  {
    ComparedExact(origin, mutated, rd.reformat);
    FlatContained(rd, w, origin, mutated);
    FlatContained(rd, w, mutated, origin);
  }

  /** Cells that are their own normal form. */
  predicate Plain(rd: Reading, r: Result) {
    forall i, j :: 0 <= i < |r.rows| && 0 <= j < |r.rows[i]| ==> Normalize(r.rows[i][j], rd.reformat) == r.rows[i][j]
  }

  lemma PlainNormalized(rd: Reading, r: Result)
    requires Plain(rd, r)
    ensures Normalized(rd, r.rows) == r.rows
  {
    forall i | 0 <= i < |r.rows| ensures NormalizeRow(r.rows[i], rd.reformat) == r.rows[i] {
    }
  }

  /** In particular, for rows no normalisation touches: whether the rows moved the promised way. */
  lemma CheckExact(rd: Reading, naming: Naming, w: nat, origin: Result, mutated: Result, isUpper: bool)
    requires w > 0 && Delivered(naming, w, origin) && Delivered(naming, w, mutated)
    requires NoComma(rd, origin) && NoComma(rd, mutated) && Plain(rd, origin) && Plain(rd, mutated)
    ensures Check(rd, origin, mutated, isUpper) == Some(Kept(isUpper, origin, mutated))
  {
    CheckNumbers(rd, naming, w, origin, mutated, isUpper);
    PlainNormalized(rd, origin);
    PlainNormalized(rd, mutated);
  }

  /** Two single rows with a number in front are judged by these numbers alone. */
  predicate ByNumber(rd: Reading, origin: Result, mutated: Result) {
    && |origin.rows| == |mutated.rows| == 1 && origin.rows[0] != [] && mutated.rows[0] != []
    && ParseNumeric(rd, origin.rows[0][0]).Some? && ParseNumeric(rd, mutated.rows[0][0]).Some?
  }

  predicate NumberMoved(rd: Reading, isUpper: bool, origin: Result, mutated: Result)
    requires ByNumber(rd, origin, mutated)
  {
    var o, m := ParseNumeric(rd, origin.rows[0][0]).value, ParseNumeric(rd, mutated.rows[0][0]).value;
    if isUpper then GreaterEq(m, o) else GreaterEq(o, m)
  }

  /**
   When the verdict is that of containment. Always, if the original does not look like an aggregate;
   else where the mutated result has no rows only for a mutation that should take rows away, and
   where both are one row with a number in front only if these numbers moved the promised way
   exactly when the rows are the same.
   */
  predicate JudgedByRows(rd: Reading, isUpper: bool, origin: Result, mutated: Result) {
    if !IsAggregateResult(rd, origin) then true
    else if mutated.rows == [] then !isUpper
    else if ByNumber(rd, origin, mutated) then
      NumberMoved(rd, isUpper, origin, mutated) <==> Normalized(rd, origin.rows) == Normalized(rd, mutated.rows)
    else true
  }

  lemma JudgeExact(rd: Reading, naming: Naming, w: nat, origin: Result, mutated: Result, isUpper: bool)
    requires w > 0 && Delivered(naming, w, origin) && Delivered(naming, w, mutated)
    requires NoComma(rd, origin) && NoComma(rd, mutated)
    ensures Judge(rd, false, origin, mutated, isUpper) == Some(KeptNumbers(rd, isUpper, origin, mutated))
       <==> JudgedByRows(rd, isUpper, origin, mutated)
  {
    CheckNumbers(rd, naming, w, origin, mutated, isUpper);
    var o, m := Normalized(rd, origin.rows), Normalized(rd, mutated.rows);
    if IsAggregateResult(rd, origin) && mutated.rows == [] {
      assert o[0] in multiset(o);
    } else if ByNumber(rd, origin, mutated) {
      OneInOne(o, m);
      OneInOne(m, o);
    }
  }

  lemma OneInOne<T>(a: seq<T>, b: seq<T>)
    requires |a| == |b| == 1
    ensures multiset(a) <= multiset(b) <==> a == b
  {
    assert a == [a[0]] && b == [b[0]];
    assert a[0] in multiset(a) && (a[0] in multiset(b) <==> a[0] == b[0]);
  }

  /** A lost row that goes unnoticed: one number before, nothing after a mutation that should add rows. */
  lemma JudgeBlind(rd: Reading, n: string)
    requires rd.float(rd.trim(n)).Some?
    ensures var origin, mutated := Result(["c"], [[n]], false), Result([], [], false);
            && Delivered(FromRows, 1, origin) && Delivered(FromRows, 1, mutated)
            && Judge(rd, false, origin, mutated, true) == Some(true) && !Kept(true, origin, mutated)
  {
    assert [n] in multiset([[n]]);
  }

  // ---------------------------------------------------------------------------------------
  // Aggregates: the rows an aggregate ranges over move, its value is one number

  /** Numbers are shown so that they read back, and NULL does not read as a number. */
  ghost predicate Readable(rd: Reading, show: int -> string) {
    && ParseNumeric(rd, NULL_MARKER).None?
    && forall i :: ParseNumeric(rd, show(i)) == Some(Fin(i as real)) && Normalize(show(i), rd.reformat) == show(i)
  }

  function MaxOf(vs: seq<int>): int
    requires vs != []
  {
    if |vs| == 1 then vs[0] else
      var m := MaxOf(vs[1..]);
      if vs[0] > m then vs[0] else m
  }

  function MinOf(vs: seq<int>): int
    requires vs != []
  {
    if |vs| == 1 then vs[0] else
      var m := MinOf(vs[1..]);
      if vs[0] < m then vs[0] else m
  }

  datatype Aggregate = Count | Max | Min

  /** The one cell of an aggregate query; MAX and MIN of nothing are NULL. */
  function Cell(agg: Aggregate, vs: seq<int>, show: int -> string): string {
    match agg
    case Count => show(|vs|)
    case Max => if vs == [] then NULL_MARKER else show(MaxOf(vs))
    case Min => if vs == [] then NULL_MARKER else show(MinOf(vs))
  }

  predicate IsAnswer(r: Result, agg: Aggregate, vs: seq<int>, show: int -> string) {
    !r.failed && |r.columns| == 1 && r.rows == [[Cell(agg, vs, show)]]
  }

  lemma {:induction false} Extremes(vs: seq<int>)
    requires vs != []
    ensures MaxOf(vs) in vs && MinOf(vs) in vs
    ensures forall v :: v in vs ==> MinOf(vs) <= v <= MaxOf(vs)
  {
    if |vs| > 1 {
      Extremes(vs[1..]);
      assert forall v :: v in vs <==> v == vs[0] || v in vs[1..];
    }
  }

  lemma ExtremesMonotone(a: seq<int>, b: seq<int>)
    requires multiset(a) <= multiset(b) && a != []
    ensures b != [] && MinOf(b) <= MinOf(a) && MaxOf(a) <= MaxOf(b)
  {
    assert a[0] in multiset(a) && a[0] in multiset(b);
    Extremes(a);
    Extremes(b);
    var i := MemberAt(b, multiset(a), MaxOf(a));
    var j := MemberAt(b, multiset(a), MinOf(a));
    assert MaxOf(a) in b && MinOf(a) in b;
  }

  lemma Smaller<T>(a: multiset<T>, b: multiset<T>)
    requires a <= b
    ensures |a| <= |b|
  {
    assert b == a + (b - a);
  }

  /** When the aggregate's value moves the way the check expects. */
  predicate Monotone(agg: Aggregate, small: seq<int>, large: seq<int>) {
    match agg
    case Count => true
    case Max => small == [] <==> large == []
    case Min => (small == [] && large == []) || (small != [] && large != [] && MinOf(small) == MinOf(large))
  }

  lemma OneCell(s: string, float: Reformat)
    ensures FlatAll([[s]], float) == [Normalize(s, float)]
  {
    assert NormalizeRow([s], float) == [Normalize(s, float)];
  }

  /**
   For rows that moved the promised way the aggregate check always passes COUNT; it passes MAX
   exactly if there was a value on both sides or on neither; and it passes MIN only if the
   minimum stayed the same, because it compares a minimum as if it were a maximum.
   */
  lemma AggregateExact(rd: Reading, show: int -> string, agg: Aggregate, a: seq<int>, b: seq<int>, isUpper: bool,
                       origin: Result, mutated: Result)
    requires Readable(rd, show) && IsAnswer(origin, agg, a, show) && IsAnswer(mutated, agg, b, show)
    requires if isUpper then multiset(a) <= multiset(b) else multiset(b) <= multiset(a)
    ensures CheckAggregate(rd, origin, mutated, isUpper)
         == Some(Monotone(agg, if isUpper then a else b, if isUpper then b else a))
  {
    var small, large := if isUpper then a else b, if isUpper then b else a;
    Smaller(multiset(small), multiset(large));
    if small != [] {
      ExtremesMonotone(small, large);
    }
    if agg.Count? || (a != [] && b != []) {
      var v, w := Number(agg, a), Number(agg, b);
      assert Cell(agg, a, show) == show(v) && Cell(agg, b, show) == show(w);
      assert ParseNumeric(rd, show(v)) == Some(Fin(v as real)) && ParseNumeric(rd, show(w)) == Some(Fin(w as real));
    } else {
      NullAnswers(rd, show, agg, a, b, origin, mutated);
    }
  }

  function Number(agg: Aggregate, vs: seq<int>): int
    requires agg.Count? || vs != []
  {
    match agg case Count => |vs| case Max => MaxOf(vs) case Min => MinOf(vs)
  }

  lemma NullAnswers(rd: Reading, show: int -> string, agg: Aggregate, a: seq<int>, b: seq<int>,
                    origin: Result, mutated: Result)
    requires Readable(rd, show) && IsAnswer(origin, agg, a, show) && IsAnswer(mutated, agg, b, show)
    requires !agg.Count? && (a == [] || b == [])
    ensures Compared(origin, mutated, rd.reformat) == Some(if a == [] && b == [] then 0 else 2)
  {
    var x, y := Cell(agg, a, show), Cell(agg, b, show);
    OneCell(x, rd.reformat);
    OneCell(y, rd.reformat);
    assert Normalize(x, rd.reformat) == x && Normalize(y, rd.reformat) == y;
    assert x in multiset([x]) && y in multiset([y]);
    if a != [] || b != [] {
      assert ParseNumeric(rd, x) != ParseNumeric(rd, y);
      assert x !in multiset([y]) && y !in multiset([x]);
    }
  }
}
