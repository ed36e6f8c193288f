/**
 Where the direction claim stops, on statements the parser can build: for each kind of position or
 mutation that `Trusted` leaves out, a database and a candidate the visitor records for which the
 claim is false. When exactly it is false is said by `Exactness.StepExact`, `Mutation.NullEqMoves`,
 `Mutation.AllAnyMoves`, `LikePattern.WideningExact` and `Candidates.Direction`.
 */
module Counterexamples {
  import opened Sql
  import opened Containment
  import opened Steps
  import opened Polarity
  import opened CteUse
  import opened Exactness
  import opened LikePattern
  import opened Mutation
  import opened Candidates

  /** The visitor records `c` in `root`, and on `db` the mutated result goes the other way. */
  ghost predicate ClaimFails(db: Db, root: Node, c: Candidate, coins: Coins) {
    && c in CandidatesOf(root) && ValidPath(root, c.path)
    && Mutated(root, c.mut, c.path, coins).Some?
    && !Claim(db, root, c, Mutated(root, c.mut, c.path, coins).value)
  }

  /** SELECT * FROM `from` WHERE `cond`, with an ORDER BY so that only `cond` offers mutations. */
  function Query(with: Node, from: Node, cond: Node): Node {
    Select(false, true, false, None, None, from, cond, Nil, with, [])
  }

  const EMPTY := Env([], map[])

  function Table(name: string): seq<Row> {
    if name == "twice" then [[Int(1)], [Int(1)]]
    else if name == "one" then [[Int(1)]]
    else if name == "two" then [[Int(2)]]
    else []
  }

  /** A database: subqueries with one row have the value 1, others NULL; LIMIT keeps the first rows. */
  const DB := Db(name => Table(name), (a, b) => Collate(a, b), _ => true, _ => "", (a, b) => a == b, (_, _, _) => Null,
                 (_, _, _) => Null, (_, _, _) => Null, (_, _, _) => Null, (_, _) => Null,
                 ms => if |ms| == 1 then Int(1) else Null,
                 (_, n: Option<nat>, rows: seq<Row>, _) => if n.Some? && n.value < |rows| then rows[..n.value]
                     else rows,
                 (_, _) => [], {"c"})

  lemma Found(root: Node, p: Path, m: Mut)
    requires root.Select? || root.SetOprStmt?
    requires ValidPath(root, p) && Trail(RowSet, root, p).Go? && m in Mine(Trail(RowSet, root, p).role, At(root, p))
    ensures Candidate(m, Upper(m), p, Trail(RowSet, root, p).flip == LocalFlip(At(root, p))) in CandidatesOf(root)
  {
    var c := Candidate(m, Upper(m), p, Trail(RowSet, root, p).flip == LocalFlip(At(root, p)));
    assert [] + p == p;
    assert MinedAt(RowSet, root, p, [], true, c);
    VisitFound(RowSet, root, [], true, c);
  }

  /** A statement over the one empty row keeps it or not. */
  lemma QueryRows(db: Db, with: Node, cond: Node, env: Env)
    ensures Rows(db, Query(with, Nil, cond), env) == if Holds(db, cond, Push(Bind(db, with, env), [])) then [[]] else []
  {
    var n := Query(with, Nil, cond);
    var one: seq<Row> := [[]];
    var inner := Bind(db, with, env);
    assert Rows(db, Nil, inner) == one && one[1..] == [];
    assert FlatMap(one, SelectFn(db, n, inner)) == SelectFn(db, n, inner)([]) + [];
  }

  /** The environment in which the one row of such a statement is looked at. */
  const ROW := Push(EMPTY, [])

  predicate Growing(m: Mut, cond: Node, q: Path)
    requires ValidPath(cond, q) && Trail(Coarse, cond, q).Go?
  {
    Upper(m) == (Trail(Coarse, cond, q).flip == LocalFlip(At(cond, q)))
  }

  /** A mutation inside a WHERE condition whose claim is wrong about that condition alone. */
  ghost predicate WrongInside(db: Db, cond: Node, q: Path, m: Mut, cond': Node, coins: Coins) {
    && !cond.Nil? && !cond'.Nil? && ValidPath(cond, q) && Trail(Coarse, cond, q).Go?
    && m in Mine(Trail(Coarse, cond, q).role, At(cond, q))
    && Mutated(cond, m, q, coins) == Some(cond')
    && if Growing(m, cond, q) then Holds(db, cond, ROW) && !Holds(db, cond', ROW)
       else !Holds(db, cond, ROW) && Holds(db, cond', ROW)
  }

  lemma Appears(db: Db, cond: Node, cond': Node)
    requires Holds(db, cond, ROW) && !Holds(db, cond', ROW)
    ensures !RowsBelow(db, Query(Nil, Nil, cond), Query(Nil, Nil, cond'))
  {
    QueryRows(db, Nil, cond, EMPTY);
    QueryRows(db, Nil, cond', EMPTY);
    assert Bind(db, Nil, EMPTY) == EMPTY;
    var a, b := Rows(db, Query(Nil, Nil, cond), EMPTY), Rows(db, Query(Nil, Nil, cond'), EMPTY);
    assert a[0] in multiset(a) && a[0] !in multiset(b);
    assert !Within(a, b);
  }

  lemma TrailWhere(cond: Node, q: Path)
    requires !cond.Nil? && ValidPath(cond, q) && Trail(Coarse, cond, q).Go?
    ensures var root := Query(Nil, Nil, cond);
            ValidPath(root, [1] + q) && Trail(RowSet, root, [1] + q) == Trail(Coarse, cond, q)
            && At(root, [1] + q) == At(cond, q)
  {
    TrailUnfold(RowSet, Query(Nil, Nil, cond), 1, q);
  }

  /** Such a mutation is a wrong claim about the whole statement, and the visitor makes it. */
  lemma WhereFails(db: Db, cond: Node, q: Path, m: Mut, cond': Node, coins: Coins)
    requires WrongInside(db, cond, q, m, cond', coins)
    ensures ClaimFails(db, Query(Nil, Nil, cond),
                       Candidate(m, Upper(m), [1] + q, Upper(m) == Growing(m, cond, q)), coins)
  {
    TrailWhere(cond, q);
    Found(Query(Nil, Nil, cond), [1] + q, m);
    PutWhere(cond, q, m, coins);
    if Growing(m, cond, q) {
      Appears(db, cond, cond');
    } else {
      Appears(db, cond', cond);
    }
  }

  lemma PutWhere(cond: Node, q: Path, m: Mut, coins: Coins)
    requires ValidPath(cond, q) && Mutated(cond, m, q, coins).Some?
    ensures ValidPath(Query(Nil, Nil, cond), [1] + q)
    ensures Mutated(Query(Nil, Nil, cond), m, [1] + q, coins)
         == Some(Query(Nil, Nil, Mutated(cond, m, q, coins).value))
  {
    var root, p := Query(Nil, Nil, cond), [1] + q;
    var cond2 := Mutated(cond, m, q, coins).value;
    TrailUnfold(RowSet, root, 1, q);
    assert p[0] == 1 && p[1..] == q;
    assert Kids(root)[1 := cond2] == [Nil, cond2, Nil, Nil] + [];
  }

  const FALSE_COMPARE := Binary(EQ, Lit(Int(2)), Lit(Int(1)))
  const TRUE_COMPARE := Binary(GE, Lit(Int(2)), Lit(Int(1)))

  lemma CompareValues(db: Db, env: Env)
    requires db.order(Int(2), Int(1)) == Greater
    ensures Eval(db, FALSE_COMPARE, env) == Int(0) && Eval(db, TRUE_COMPARE, env) == Int(1)
  {
  }

  predicate WrongWay(db: Db, grows: bool, n: Node, n': Node) {
    Holds(db, if grows then n else n', ROW) && !Holds(db, if grows then n' else n, ROW)
  }

  /** A mutation of one operand, seen from the condition: it goes the other way. */
  lemma WrongOperand(db: Db, n: Node, i: nat, m: Mut, c': Node, coins: Coins)
    requires i < |Kids(n)| && StepExpr(Coarse, n, i).Go? && !n.Nil?
    requires m in Mine(StepExpr(Coarse, n, i).role, Kids(n)[i]) && Rewrite(m, Kids(n)[i], coins) == Some(c')
    requires WrongWay(db, Upper(m) == (StepExpr(Coarse, n, i).flip == LocalFlip(Kids(n)[i])), n, WithKid(n, i, c'))
    ensures WrongInside(db, n, [i], m, WithKid(n, i, c'), coins)
  {
    TrailUnfold(Coarse, n, i, []);
    assert [i] + [] == [i] && [i][1..] == [];
    assert Put(n, [i], c') == WithKid(n, i, c');
  }

  /** Any argument of any function, but for the wrapper of stage 1. */
  lemma FunctionArgument(name: string, args: seq<Node>, i: nat, coins: Coins)
    requires i < |args| && !(name == "" && |args| == 1)
    ensures WrongInside(Adverse(i, {}), Func(name, args[i := FALSE_COMPARE]), [i], FixMCmpOpU,
                        Func(name, args[i := TRUE_COMPARE]), coins)
  {
    assert args[i := FALSE_COMPARE][i := TRUE_COMPARE] == args[i := TRUE_COMPARE];
    RelaxedCompare(coins);
    FunctionHolds(name, args, i);
    WrongOperand(Adverse(i, {}), Func(name, args[i := FALSE_COMPARE]), i, FixMCmpOpU, TRUE_COMPARE, coins);
  }

  lemma FunctionHolds(name: string, args: seq<Node>, i: nat)
    requires i < |args| && !(name == "" && |args| == 1)
    ensures Holds(Adverse(i, {}), Func(name, args[i := FALSE_COMPARE]), ROW)
    ensures !Holds(Adverse(i, {}), Func(name, args[i := TRUE_COMPARE]), ROW)
  {
    CompareValues(Adverse(i, {}), ROW);
    EvalAllAt(Adverse(i, {}), args[i := FALSE_COMPARE], ROW, i);
    EvalAllAt(Adverse(i, {}), args[i := TRUE_COMPARE], ROW, i);
  }

  lemma CastArgument(ty: nat, coins: Coins)
    ensures WrongInside(Adverse(0, {}), Cast(ty, FALSE_COMPARE), [0], FixMCmpOpU, Cast(ty, TRUE_COMPARE), coins)
  {
    RelaxedCompare(coins);
    CastHolds(ty);
    WrongOperand(Adverse(0, {}), Cast(ty, FALSE_COMPARE), 0, FixMCmpOpU, TRUE_COMPARE, coins);
  }

  lemma CastHolds(ty: nat)
    ensures Holds(Adverse(0, {}), Cast(ty, FALSE_COMPARE), ROW) && !Holds(Adverse(0, {}), Cast(ty, TRUE_COMPARE), ROW)
  {
    CompareValues(Adverse(0, {}), ROW);
    CastAt(Adverse(0, {}), ty, FALSE_COMPARE, ROW);
    CastAt(Adverse(0, {}), ty, TRUE_COMPARE, ROW);
  }

  const NULL_COMPARE := Binary(NullEQ, Lit(Null), Lit(Int(1)))
  const NULL_EQUAL := Binary(EQ, Lit(Null), Lit(Int(1)))

  /** `<=>` in the fine order: NOT (NULL <=> 1) is True, NOT (NULL = 1) is not. */
  lemma NullEqUnderNot(coins: Coins)
    ensures WrongInside(DB, Not(NULL_COMPARE), [0], FixMNullEqToLowerL, Not(NULL_EQUAL), coins)
  {
    NullHolds();
    NullMined(coins);
    WrongOperand(DB, Not(NULL_COMPARE), 0, FixMNullEqToLowerL, NULL_EQUAL, coins);
  }

  lemma NullHolds()
    ensures Holds(DB, Not(NULL_COMPARE), ROW) && !Holds(DB, Not(NULL_EQUAL), ROW)
  {
    assert Eval(DB, NULL_COMPARE, ROW) == Int(0) && Eval(DB, NULL_EQUAL, ROW) == Null;
  }

  lemma NullMined(coins: Coins)
    ensures FixMNullEqToLowerL in Mine(Fine, NULL_COMPARE)
        && Rewrite(FixMNullEqToLowerL, NULL_COMPARE, coins) == Some(NULL_EQUAL)
  {
    assert MineOp(NullEQ) == [];
  }

  /** SELECT * FROM `table`. */
  function AllOf(table: string): Node {
    Query(Nil, From(TableName(table), 1), Nil)
  }

  lemma AllOfRows(table: string, env: Env)
    ensures Rows(DB, AllOf(table), env) == Rows(DB, TableName(table), env)
  {
    var n := AllOf(table);
    SelectRows(DB, n, env);
    FromRows(DB, TableName(table), 1, env);
    forall r ensures SelectFn(DB, n, env)(r) == [r] {
    }
    FlatMapOnes(Rows(DB, TableName(table), env), SelectFn(DB, n, env));
  }

  /** ALL over no rows is True, ANY over no rows is False. */
  lemma AllOfNothing(coins: Coins)
    ensures WrongInside(DB, CompareSub(EQ, true, ONE, Subquery(AllOf("t"))), [], FixMAllToAnyU,
                        CompareSub(EQ, false, ONE, Subquery(AllOf("t"))), coins)
  {
    AllOfRows("t", ROW);
    WrapperRows(DB, AllOf("t"), ROW);
    AllAnyOfNone(EQ, ONE, Subquery(AllOf("t")), ROW);
    assert FixMAllToAnyU in MineExpr(CompareSub(EQ, true, ONE, Subquery(AllOf("t"))));
  }

  lemma AllAnyOfNone(op: Op, l: Node, r: Node, env: Env)
    requires Rows(DB, r, env) == []
    ensures Holds(DB, CompareSub(op, true, l, r), env) && !Holds(DB, CompareSub(op, false, l, r), env)
  {
    CompareSubTruth(DB, op, true, l, r, env);
    CompareSubTruth(DB, op, false, l, r, env);
  }

  // ---------------------------------------------------------------------------------------
  // Going down one step, with the flag as it is

  lemma Down(role: Role, n: Node, i: nat, q: Path, x: Node)
    requires i < |Kids(n)| && ValidPath(Kids(n)[i], q)
    requires Step(role, n, i).Go? && !Step(role, n, i).flip
    ensures ValidPath(n, [i] + q) && At(n, [i] + q) == At(Kids(n)[i], q)
    ensures Trail(role, n, [i] + q) == Trail(Step(role, n, i).role, Kids(n)[i], q)
    ensures Put(n, [i] + q, x) == WithKid(n, i, Put(Kids(n)[i], q, x))
  {
    TrailUnfold(role, n, i, q);
    assert ([i] + q)[0] == i && ([i] + q)[1..] == q;
  }

  lemma DownWhere(n: Node, x: Node)
    requires n.Select? && !n.where.Nil?
    ensures ValidPath(n, [1]) && At(n, [1]) == n.where && Trail(RowSet, n, [1]) == Go(Coarse, false)
    ensures Put(n, [1], x) == Select(n.distinct, n.ordered, n.grouped, n.limit, n.after, n.from, x, n.having, n.with,
        n.fields)
  {
    Down(RowSet, n, 1, [], x);
    assert [1] + [] == [1];
    assert Kids(n)[1 := x][4..] == n.fields;
  }

  function Rewritten(distinct: bool): Node {
    Subquery(TwiceQuery(distinct))
  }

  function TwiceQuery(distinct: bool): Node {
    Select(distinct, true, false, None, None, From(TableName("twice"), 1), Nil, Nil, Nil, [])
  }

  lemma TwiceRows(env: Env)
    requires env.ctes == map[]
    ensures Rows(DB, TwiceQuery(false), env) == [[Int(1)], [Int(1)]]
    ensures Rows(DB, TwiceQuery(true), env) == [[Int(1)]]
  {
    assert TwiceQuery(false) == AllOf("twice");
    AllOfRows("twice", env);
    assert Rows(DB, TableName("twice"), env) == [[Int(1)], [Int(1)]];
    DistinctOf("twice", env);
    DistinctTwice([Int(1)]);
  }

  lemma DistinctOf(table: string, env: Env)
    ensures Rows(DB, Select(true, true, false, None, None, From(TableName(table), 1), Nil, Nil, Nil, []), env)
         == Distinct(Rows(DB, TableName(table), env))
  {
    var d := Select(true, true, false, None, None, From(TableName(table), 1), Nil, Nil, Nil, []);
    SelectRows(DB, d, env);
    FromRows(DB, TableName(table), 1, env);
    forall r ensures SelectFn(DB, d, env)(r) == [r] {
    }
    FlatMapOnes(Rows(DB, TableName(table), env), SelectFn(DB, d, env));
  }

  lemma DistinctTwice(r: Row)
    ensures Distinct([r, r]) == [r]
  {
    assert [r, r][1..] == [r] && [r][1..] == [];
    assert Distinct([r]) == [r] + Distinct([]);
  }

  lemma ScalarValues(q: Node, env: Env)
    ensures Eval(DB, Subquery(q), env) == if |Rows(DB, q, env)| == 1 then Int(1) else Null
  {
    ScalarAt(DB, q, env);
    SameCount(Rows(DB, q, env));
  }

  lemma SameCount(rows: seq<Row>)
    ensures |multiset(rows)| == |rows|
  {
  }

  lemma IntoSubquery(q: Node, q': Node)
    requires q.Select? && q'.Select?
    ensures ValidPath(Subquery(q), [0]) && At(Subquery(q), [0]) == q
        && Trail(Coarse, Subquery(q), [0]) == Go(RowSet, false)
    ensures Put(Subquery(q), [0], q') == Subquery(q')
  {
    Down(Coarse, Subquery(q), 0, [], q');
    assert [0] + [] == [0];
    assert Kids(Subquery(q))[0 := q'] == [q'];
  }

  lemma TwiceHolds()
    ensures Holds(DB, Rewritten(true), ROW) && !Holds(DB, Rewritten(false), ROW)
  {
    TwiceRows(ROW);
    ScalarValues(TwiceQuery(true), ROW);
    ScalarValues(TwiceQuery(false), ROW);
  }

  /** A subquery as a condition: with more rows it has no single value any more. */
  lemma ScalarCondition(coins: Coins)
    ensures WrongInside(DB, Rewritten(true), [0], FixMDistinctU, Rewritten(false), coins)
  {
    var q, q' := TwiceQuery(true), TwiceQuery(false);
    IntoSubquery(q, q');
    TwiceHolds();
    assert Rewrite(FixMDistinctU, q, coins) == Some(q');
    assert FixMDistinctU in MineShape(true, false, None);
  }

  // ---------------------------------------------------------------------------------------
  // LIMIT on a set operation

  function LimitedTo(a: Node, b: Node): Node {
    SetOprStmt(Some(1), ListOf(a, b), Nil)
  }

  /** An element of a UNION ALL. */
  function Element(after: Option<SetOp>, table: string, cond: Node): Node {
    Select(false, true, false, None, after, From(TableName(table), 1), cond, Nil, Nil, [])
  }

  function First(cond: Node): Node {
    Element(None, "one", cond)
  }

  const SECOND := Element(Some(UnionAll), "two", Nil)

  lemma ElementRows(after: Option<SetOp>, table: string, cond: Node, r: Row, env: Env)
    requires env.ctes == map[] && Table(table) == [r]
    ensures Rows(DB, Element(after, table, cond), env) == if Holds(DB, cond, Push(env, r)) then [r] else []
  {
    var n := Element(after, table, cond);
    FromRows(DB, TableName(table), 1, env);
    assert Rows(DB, TableName(table), env) == [r];
    SelectRows(DB, n, env);
    OneRow(r, SelectFn(DB, n, env));
  }

  lemma TwoElements(a: Node, b: Node, env: Env)
    requires AfterAll(b)
    ensures Rows(DB, SetOprList(None, Nil, [a, b]), env) == Rows(DB, a, env) + Rows(DB, b, env)
  {
    var x, y := Part(AfterAll(a), Rows(DB, a, env)), Part(true, Rows(DB, b, env));
    assert Parts(DB, [b], env) == [y] by { assert [b][1..] == []; }
    assert Parts(DB, [a, b], env) == [x, y] by { assert [a, b][1..] == [b]; }
    assert [x, y][..1] == [x];
    assert Chain([x, y]) == x.rows + y.rows;
    ListRows(DB, None, Nil, [a, b], env);
  }

  lemma LimitRows(l: Node, env: Env)
    ensures var rows := Rows(DB, l, env);
            Rows(DB, SetOprStmt(Some(1), l, Nil), env) == if |rows| > 1 then rows[..1] else rows
  {
    assert Bind(DB, Nil, env) == env;
  }

  lemma LimitedRows(cond: Node)
    ensures Rows(DB, LimitedTo(First(cond), SECOND), EMPTY)
         == if Holds(DB, cond, Push(EMPTY, [Int(1)])) then [[Int(1)]] else [[Int(2)]]
  {
    ElementRows(None, "one", cond, [Int(1)], EMPTY);
    ElementRows(Some(UnionAll), "two", Nil, [Int(2)], EMPTY);
    TwoElements(First(cond), SECOND, EMPTY);
    LimitRows(SetOprList(None, Nil, [First(cond), SECOND]), EMPTY);
  }

  lemma IntoFirst(a: Node, b: Node, q: Path, x: Node)
    requires a.Select? && ValidPath(a, q)
    ensures var n, p := LimitedTo(a, b), [0, 1] + q;
            && ValidPath(n, p) && At(n, p) == At(a, q) && Trail(RowSet, n, p) == Trail(RowSet, a, q)
            && Put(n, p, x) == LimitedTo(Put(a, q, x), b)
  {
    var n, l := LimitedTo(a, b), ListOf(a, b);
    IntoList(a, b, q, x);
    Down(RowSet, n, 0, [1] + q, x);
    assert [0] + ([1] + q) == [0, 1] + q;
    LimitedKid(n, ListOf(Put(a, q, x), b));
  }

  function ListOf(a: Node, b: Node): Node {
    SetOprList(None, Nil, [a, b])
  }

  lemma IntoList(a: Node, b: Node, q: Path, x: Node)
    requires a.Select? && ValidPath(a, q)
    ensures var l, p := ListOf(a, b), [1] + q;
            && ValidPath(l, p) && At(l, p) == At(a, q) && Trail(RowSet, l, p) == Trail(RowSet, a, q)
            && Put(l, p, x) == ListOf(Put(a, q, x), b)
  {
    var l, a' := ListOf(a, b), Put(a, q, x);
    Down(RowSet, l, 1, q, x);
    assert Kids(l)[1 := a'] == [Nil, a', b] && [Nil, a', b][1..] == [a', b];
  }

  /** The way to the condition of the first element. */
  lemma LimitWay(c: Node, c': Node, b: Node)
    requires !c.Nil?
    ensures var n, p := LimitedTo(First(c), b), [0, 1, 1];
            && ValidPath(n, p) && At(n, p) == c && Trail(RowSet, n, p) == Go(Coarse, false)
            && Put(n, p, c') == LimitedTo(First(c'), b)
  {
    DownWhere(First(c), c');
    IntoFirst(First(c), b, [1], c');
    assert [0, 1] + [1] == [0, 1, 1];
  }

  /** LIMIT on a set operation, which no earlier stage removes: an added row pushes another out. */
  lemma LimitOnUnion(coins: Coins)
    ensures ClaimFails(DB, LimitedTo(First(FALSE_COMPARE), SECOND),
                       Candidate(FixMCmpOpU, true, [0, 1, 1], true), coins)
  {
    LimitWay(FALSE_COMPARE, TRUE_COMPARE, SECOND);
    LimitedRows(FALSE_COMPARE);
    LimitedRows(TRUE_COMPARE);
    CompareHolds(Push(EMPTY, [Int(1)]));
    CompareFails(LimitedTo(First(FALSE_COMPARE), SECOND),
                 LimitedTo(First(TRUE_COMPARE), SECOND), [0, 1, 1], [Int(2)], coins);
  }

  lemma CompareHolds(env: Env)
    ensures !Holds(DB, FALSE_COMPARE, env) && Holds(DB, TRUE_COMPARE, env)
  {
    CompareValues(DB, env);
  }

  /** Relaxing a false comparison somewhere loses the row `r` although the visitor claims growth. */
  lemma CompareFails(root: Node, root': Node, p: Path, r: Row, coins: Coins)
    requires (root.Select? || root.SetOprStmt?) && ValidPath(root, p)
    requires At(root, p) == FALSE_COMPARE && Trail(RowSet, root, p) == Go(Coarse, false)
    requires Put(root, p, TRUE_COMPARE) == root'
    requires r in Rows(DB, root, EMPTY) && r !in Rows(DB, root', EMPTY)
    ensures ClaimFails(DB, root, Candidate(FixMCmpOpU, true, p, true), coins)
  {
    RelaxedCompare(coins);
    Found(root, p, FixMCmpOpU);
    NotBelow(root, root', r);
    assert Mutated(root, FixMCmpOpU, p, coins) == Some(root');
  }

  lemma RelaxedCompare(coins: Coins)
    ensures Rewrite(FixMCmpOpU, FALSE_COMPARE, coins) == Some(TRUE_COMPARE)
    ensures FixMCmpOpU in Mine(Coarse, FALSE_COMPARE) && !LocalFlip(FALSE_COMPARE) && Upper(FixMCmpOpU)
  {
    assert MineOp(EQ)[0] == FixMCmpOpU;
  }

  lemma NotBelow(n: Node, n': Node, r: Row)
    requires r in Rows(DB, n, EMPTY) && r !in Rows(DB, n', EMPTY)
    ensures !RowsBelow(DB, n, n')
  {
    if RowsBelow(DB, n, n') {
      assert Within(Rows(DB, n, EMPTY), Rows(DB, n', EMPTY));
      WithinMember(Rows(DB, n, EMPTY), Rows(DB, n', EMPTY), r);
    }
  }

  // ---------------------------------------------------------------------------------------
  // A common table expression used under NOT EXISTS

  function CteOf(query: Node): Node {
    With(false, [Cte("c", Subquery(query))])
  }

  function Unless(query: Node): Node {
    Query(CteOf(query), Nil, Exists(true, Subquery(AllOf("c"))))
  }

  const GROWS: Signs := map["c" := false]

  /** `n` uses the name, and moves with it if `up` (against it if not), but not the other way. */
  predicate OneWay(role: Role, n: Node, up: bool) {
    !Free(n, GROWS.Keys) && Follows(role, n, GROWS, !up) && !Follows(role, n, GROWS, up)
  }

  lemma UsedBelow(n: Node, i: nat)
    requires i < |Kids(n)| && !Free(Kids(n)[i], GROWS.Keys)
    ensures !Free(n, GROWS.Keys)
  {
  }

  lemma WrapperOneWay(x: Node, up: bool)
    requires OneWay(RowSet, x, up)
    ensures OneWay(RowSet, TableSource(x), up) && OneWay(RowSet, Subquery(x), up)
  {
    UsedBelow(TableSource(x), 0);
    UsedBelow(Subquery(x), 0);
  }

  lemma NilFollows(flip: bool)
    ensures Follows(RowSet, Nil, GROWS, flip)
  {
    assert Free(Nil, GROWS.Keys);
  }

  lemma JoinOneWay(left: Node, width: nat, up: bool)
    requires OneWay(RowSet, left, up)
    ensures OneWay(RowSet, Join(CrossJoin, left, Nil, Nil, width, 0), up)
  {
    var n := Join(CrossJoin, left, Nil, Nil, width, 0);
    UsedBelow(n, 0);
    forall flip ensures RowsFollow(n, GROWS, flip) <==> Follows(RowSet, left, GROWS, flip) {
      NilFollows(flip);
    }
  }

  lemma SelectOneWay(from: Node, up: bool)
    requires OneWay(RowSet, from, up)
    ensures OneWay(RowSet, Query(Nil, from, Nil), up)
  {
    var n := Query(Nil, from, Nil);
    UsedBelow(n, 0);
    assert Free(Nil, GROWS.Keys);
    forall flip ensures BodyFollows(n, GROWS, flip) <==> Follows(RowSet, from, GROWS, flip) {
    }
    assert forall flip :: RowsFollow(n, GROWS, flip) <==> BodyFollows(n, GROWS, flip);
  }

  lemma ExistsOneWay(neg: bool, x: Node, up: bool)
    requires OneWay(RowSet, x, up)
    ensures OneWay(Coarse, Exists(neg, x), up != neg)
  {
    var n := Exists(neg, x);
    UsedBelow(n, 0);
    assert Kids(n) == [x];
    forall flip ensures ExprFollows(Coarse, n, GROWS, flip) <==> Follows(RowSet, x, GROWS, flip != neg) {
      assert KidFollows(Way(Coarse, n, 0), Kids(n)[0], GROWS, flip) <==> Follows(RowSet, x, GROWS, flip != neg);
    }
  }

  /** Under NOT EXISTS the name is used at negative polarity, and only there. */
  lemma UnlessUses(query: Node)
    ensures UsedAt(Unless(query), 0, true) && !UsedAt(Unless(query), 0, false)
  {
    assert OneWay(RowSet, TableName("c"), true);
    WrapperOneWay(TableName("c"), true);
    JoinOneWay(TableSource(TableName("c")), 1, true);
    SelectOneWay(From(TableName("c"), 1), true);
    WrapperOneWay(AllOf("c"), true);
    ExistsOneWay(true, Subquery(AllOf("c")), true);
    CondOneWay(CteOf(query), Exists(true, Subquery(AllOf("c"))));
    assert SignsAfter(CteOf(query).ctes, 0) == Some(GROWS);
  }

  lemma CondOneWay(with: Node, cond: Node)
    requires OneWay(Coarse, cond, false)
    ensures BodyFollows(Query(with, Nil, cond), GROWS, true) && !BodyFollows(Query(with, Nil, cond), GROWS, false)
  {
    NilFollows(true);
    assert !cond.Nil?;
  }

  lemma CteBinds(query: Node)
    ensures Bind(DB, CteOf(query), EMPTY) == EMPTY.(ctes := map["c" := Rows(DB, query, EMPTY)])
  {
    var cte := Cte("c", Subquery(query));
    assert [cte][..0] == [];
    assert BindAll(DB, false, [], EMPTY) == EMPTY;
    assert BindAll(DB, false, [cte], EMPTY) == EMPTY.(ctes := map[]["c" := Rows(DB, Subquery(query), EMPTY)]);
  }

  lemma ExistsAt(neg: bool, q: Node, env: Env)
    ensures Eval(DB, Exists(neg, q), env) == FromTruth(Flip(neg, Decide(Rows(DB, q, env) != [])))
  {
  }

  lemma UsesCte(rows: seq<Row>, env: Env)
    requires "c" in env.ctes && env.ctes["c"] == rows
    ensures Holds(DB, Exists(true, Subquery(AllOf("c"))), env) <==> rows == []
  {
    var sub := Subquery(AllOf("c"));
    AllOfRows("c", env);
    WrapperRows(DB, AllOf("c"), env);
    ExistsAt(true, sub, env);
  }

  lemma UnlessRows(query: Node)
    ensures Rows(DB, Unless(query), EMPTY) == if Rows(DB, query, EMPTY) == [] then [[]] else []
  {
    var n, rows := Unless(query), Rows(DB, query, EMPTY);
    CteBinds(query);
    var inner := EMPTY.(ctes := map["c" := rows]);
    UsesCte(rows, Push(inner, []));
    QueryRows(DB, CteOf(query), n.where, EMPTY);
  }

  lemma UnlessCompare(cond: Node)
    ensures Rows(DB, Unless(Query(Nil, Nil, cond)), EMPTY) == if Holds(DB, cond, ROW) then [] else [[]]
  {
    UnlessRows(Query(Nil, Nil, cond));
    QueryRows(DB, Nil, cond, EMPTY);
    assert Bind(DB, Nil, EMPTY) == EMPTY;
  }

  lemma IntoCte(query: Node, q: Path, x: Node)
    requires query.Select? && ValidPath(query, q)
    ensures var n, p := CteOf(query), [0, 0, 0] + q;
            && ValidPath(n, p) && At(n, p) == At(query, q) && Trail(RowSet, n, p) == Trail(RowSet, query, q)
            && Put(n, p, x) == CteOf(Put(query, q, x))
  {
    var cte, cte' := Cte("c", Subquery(query)), Cte("c", Subquery(Put(query, q, x)));
    IntoQuery(query, q, x);
    Down(RowSet, CteOf(query), 0, [0, 0] + q, x);
    assert [cte][0 := cte'] == [cte'];
    assert [0] + ([0, 0] + q) == [0, 0, 0] + q;
  }

  lemma IntoQuery(query: Node, q: Path, x: Node)
    requires query.Select? && ValidPath(query, q)
    ensures var cte, p := Cte("c", Subquery(query)), [0, 0] + q;
            && ValidPath(cte, p) && At(cte, p) == At(query, q) && Trail(RowSet, cte, p) == Trail(RowSet, query, q)
            && Put(cte, p, x) == Cte("c", Subquery(Put(query, q, x)))
  {
    var sub := Subquery(query);
    Down(RowSet, sub, 0, q, x);
    Down(RowSet, Cte("c", sub), 0, [0] + q, x);
    assert [0] + ([0] + q) == [0, 0] + q;
  }

  lemma IntoUnless(query: Node, q: Path, x: Node)
    requires query.Select? && ValidPath(query, q)
    ensures var n, p := Unless(query), [3, 0, 0, 0] + q;
            && ValidPath(n, p) && At(n, p) == At(query, q) && Trail(RowSet, n, p) == Trail(RowSet, query, q)
            && Put(n, p, x) == Unless(Put(query, q, x))
  {
    var n := Unless(query);
    IntoCte(query, q, x);
    Down(RowSet, n, 3, [0, 0, 0] + q, x);
    assert [3] + ([0, 0, 0] + q) == [3, 0, 0, 0] + q;
    var with := CteOf(Put(query, q, x));
    assert Kids(n)[3 := with] == [n.from, n.where, n.having, with] + [];
    assert Kids(n)[3 := with][4..] == [];
  }

  lemma CteWay(c: Node, c': Node)
    requires !c.Nil?
    ensures var n, p := Unless(Query(Nil, Nil, c)), [3, 0, 0, 0, 1];
            && ValidPath(n, p) && At(n, p) == c && Trail(RowSet, n, p) == Go(Coarse, false)
            && Put(n, p, c') == Unless(Query(Nil, Nil, c'))
  {
    DownWhere(Query(Nil, Nil, c), c');
    IntoUnless(Query(Nil, Nil, c), [1], c');
    assert [3, 0, 0, 0] + [1] == [3, 0, 0, 0, 1];
  }

  /** The flag of a common table expression is positive, however it is used; here the way has turned. */
  lemma CteUnderNot(coins: Coins)
    ensures ClaimFails(DB, Unless(Query(Nil, Nil, FALSE_COMPARE)),
                       Candidate(FixMCmpOpU, true, [3, 0, 0, 0, 1], true), coins)
  {
    CteWay(FALSE_COMPARE, TRUE_COMPARE);
    UnlessCompare(FALSE_COMPARE);
    UnlessCompare(TRUE_COMPARE);
    CompareHolds(ROW);
    CompareFails(Unless(Query(Nil, Nil, FALSE_COMPARE)), Unless(Query(Nil, Nil, TRUE_COMPARE)),
                 [3, 0, 0, 0, 1], [], coins);
  }
}
