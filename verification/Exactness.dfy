/**
 The steps that keep the meaning of the flag are exactly the sound ones: for every other step there
 is a database, and a child with a higher one in its place, for which the node moves the wrong way.
 */
module Exactness {
  import opened Sql
  import opened Containment
  import opened Steps
  import opened Polarity
  import opened Mutation

  /** Whatever the database, replacing the `i`-th child by a higher one moves the node as the flag says. */
  ghost predicate Keeps(role: Role, n: Node, i: nat)
    requires i < |Kids(n)| && Step(role, n, i).Go?
  {
    forall db, x, x' :: NamesKnown(db, n) && Below(db, Step(role, n, i).role, x, x') ==>
      Moves(db, role, Step(role, n, i).flip, WithKid(n, i, x), WithKid(n, i, x'))
  }

  // ---------------------------------------------------------------------------------------
  // A database made to fail

  /** All names of common table expressions in a tree. */
  function Names(n: Node): set<string>
    decreases n
  {
    (if n.Cte? then {n.name} else {}) + (set i, s | 0 <= i < |Kids(n)| && s in Names(Kids(n)[i]) :: s)
  }

  lemma {:induction false} NamesAll(db: Db, n: Node)
    requires Names(n) <= db.cteNames
    ensures NamesKnown(db, n)
    decreases n
  {
    forall i | 0 <= i < |Kids(n)| ensures NamesKnown(db, Kids(n)[i]) {
      forall s | s in Names(Kids(n)[i]) ensures s in db.cteNames {
        assert s in Names(n);
      }
      NamesAll(db, Kids(n)[i]);
    }
  }

  /** Two different values, whatever the collation says of others. */
  function Collate(a: Value, b: Value): Order {
    if a == b then Equal else if a == Int(2) then Greater else Less
  }

  function Negated(v: Value): Value {
    if v == Int(0) then Int(1) else Int(0)
  }

  /** Functions negate their `i`-th argument, casts negate; no rows have the value 1, and LIMIT makes them one row. */
  function Adverse(i: nat, names: set<string>): Db {
    Db(_ => [], (a: Value, b: Value) => Collate(a, b), _ => false, _ => "", (c: char, d: char) => c == d,
       (id: nat, a: Value, b: Value) => Null,
       (id: nat, vs: seq<Value>, rows: seq<Row>) => Null,
       (name: string, vs: seq<Value>, rows: seq<Row>) => if i < |vs| then Negated(vs[i]) else Null,
       (name: string, vs: seq<Value>, rows: seq<Row>) => Null,
       (ty: nat, v: Value) => Negated(v),
       (rows: multiset<Row>) => if rows == multiset{} then Int(1) else Int(0),
       (grouped: bool, limit: Option<nat>, rows: seq<Row>, scope: seq<Row>) => if rows == [] then [[]] else [],
       (name: string, rows: seq<Row>) => [],
       names)
  }

  /** SELECT .. WHERE `c`, without a table. */
  function Where(c: Node): Node {
    Select(false, true, false, None, None, Nil, c, Nil, Nil, [])
  }

  lemma WhereRows(db: Db, env: Env)
    ensures Rows(db, Where(ZERO), env) == [] && Rows(db, Where(ONE), env) == [[]]
  {
    OneWhere(db, ZERO, env);
    OneWhere(db, ONE, env);
    LiteralTruth(db, Push(env, []));
  }

  lemma OneWhere(db: Db, c: Node, env: Env)
    ensures Rows(db, Where(c), env) == if Holds(db, c, Push(env, [])) then [[]] else []
  {
    SelectRows(db, Where(c), env);
    OneRow([], SelectFn(db, Where(c), env));
  }

  lemma WhereBelow(db: Db)
    ensures Below(db, RowSet, Where(ZERO), Where(ONE))
  {
    forall env | Known(db, env) ensures Within(Rows(db, Where(ZERO), env), Rows(db, Where(ONE), env)) {
      WhereRows(db, env);
    }
  }

  lemma LiteralBelow(db: Db, role: Role)
    requires role != RowSet
    ensures Below(db, role, ZERO, ONE)
  {
    forall env ensures TruthAt(db, ZERO, env) == False && TruthAt(db, ONE, env) == True {
      LiteralTruth(db, env);
    }
  }

  const NOWHERE := Env([], map[])

  /** True below and not true above, somewhere: not a move upwards. */
  lemma NotRaised(db: Db, role: Role, a: Node, b: Node)
    requires role != RowSet && TruthAt(db, a, NOWHERE) == True && TruthAt(db, b, NOWHERE) == False
    ensures !Below(db, role, a, b)
  {
    assert Known(db, NOWHERE);
    assert !Implies3(TruthAt(db, a, NOWHERE), TruthAt(db, b, NOWHERE));
  }

  // ---------------------------------------------------------------------------------------
  // The unsound steps

  lemma {:induction false} EvalAllAt(db: Db, ns: seq<Node>, env: Env, i: nat)
    requires i < |ns|
    ensures EvalAll(db, ns, env)[i] == Eval(db, ns[i], env)
  {
    if i > 0 {
      EvalAllAt(db, ns[1..], env, i - 1);
    }
  }

  lemma ArgumentFails(role: Role, name: string, args: seq<Node>, i: nat, names: set<string>)
    requires role != RowSet && i < |args| && !(name == "" && |args| == 1)
    ensures !Below(Adverse(i, names), role, Func(name, args[i := ZERO]), Func(name, args[i := ONE]))
  {
    var db := Adverse(i, names);
    EvalAllAt(db, args[i := ZERO], NOWHERE, i);
    EvalAllAt(db, args[i := ONE], NOWHERE, i);
    NotRaised(db, role, Func(name, args[i := ZERO]), Func(name, args[i := ONE]));
  }

  lemma CastFails(role: Role, ty: nat, names: set<string>)
    requires role != RowSet
    ensures !Below(Adverse(0, names), role, Cast(ty, ZERO), Cast(ty, ONE))
  {
    var db := Adverse(0, names);
    assert Eval(db, ZERO, NOWHERE) == Int(0) && Eval(db, ONE, NOWHERE) == Int(1);
    CastAt(db, ty, ZERO, NOWHERE);
    CastAt(db, ty, ONE, NOWHERE);
    NotRaised(db, role, Cast(ty, ZERO), Cast(ty, ONE));
  }

  lemma CastAt(db: Db, ty: nat, e: Node, env: Env)
    ensures Eval(db, Cast(ty, e), env) == db.cast(ty, Eval(db, e, env))
  {
  }

  lemma ScalarFails(role: Role, names: set<string>)
    requires role != RowSet
    ensures !Below(Adverse(0, names), role, Subquery(Where(ZERO)), Subquery(Where(ONE)))
  {
    var db := Adverse(0, names);
    WhereRows(db, NOWHERE);
    ScalarAt(db, Where(ZERO), NOWHERE);
    ScalarAt(db, Where(ONE), NOWHERE);
    NotRaised(db, role, Subquery(Where(ZERO)), Subquery(Where(ONE)));
  }

  lemma ScalarAt(db: Db, q: Node, env: Env)
    ensures Eval(db, Subquery(q), env) == db.scalar(multiset(Rows(db, q, env)))
  {
  }

  function One(q: Node): Node {
    SetOprList(None, Nil, [q])
  }

  lemma OneElement(db: Db, q: Node, env: Env)
    ensures Rows(db, One(q), env) == Rows(db, q, env)
  {
    ListRows(db, None, Nil, [q], env);
    PartsAt(db, [q], env, 0);
  }

  lemma LimitFails(limit: nat, with: Node, names: set<string>)
    requires BindsKnown(Adverse(0, names), with)
    ensures var db := Adverse(0, names);
            && Below(db, RowSet, One(Where(ZERO)), One(Where(ONE)))
            && !Below(db, RowSet, SetOprStmt(Some(limit), One(Where(ZERO)), with),
                SetOprStmt(Some(limit), One(Where(ONE)), with))
  {
    var db := Adverse(0, names);
    forall env | Known(db, env)
      ensures Rows(db, One(Where(ZERO)), env) == [] && Rows(db, One(Where(ONE)), env) == [[]]
    {
      WhereRows(db, env);
      OneElement(db, Where(ZERO), env);
      OneElement(db, Where(ONE), env);
    }
    BindKnown(db, with, NOWHERE);
    LimitedAt(db, limit, One(Where(ZERO)), with, NOWHERE);
    LimitedAt(db, limit, One(Where(ONE)), with, NOWHERE);
    RowLost(db, SetOprStmt(Some(limit), One(Where(ZERO)), with), SetOprStmt(Some(limit), One(Where(ONE)), with));
  }

  lemma LimitedAt(db: Db, limit: nat, x: Node, with: Node, env: Env)
    ensures var inner := Bind(db, with, env);
            Rows(db, SetOprStmt(Some(limit), x, with), env)
                == db.clip(false, Some(limit), Rows(db, x, inner), inner.rows)
  {
  }

  /** A row below and none above, somewhere: not a move upwards. */
  lemma RowLost(db: Db, a: Node, b: Node)
    requires Rows(db, a, NOWHERE) == [[]] && Rows(db, b, NOWHERE) == []
    ensures !Below(db, RowSet, a, b)
  {
    assert multiset(Rows(db, a, NOWHERE))[[]] == 1 && multiset(Rows(db, b, NOWHERE))[[]] == 0;
    assert Known(db, NOWHERE);
  }

  /** FROM with one derived table. */
  function FromQuery(c: Node): Node {
    From(Subquery(Where(c)), 0)
  }

  lemma FromQueryRows(db: Db, env: Env)
    ensures Rows(db, FromQuery(ZERO), env) == [] && Rows(db, FromQuery(ONE), env) == [[]]
  {
    WhereRows(db, env);
    FromRows(db, Subquery(Where(ZERO)), 0, env);
    FromRows(db, Subquery(Where(ONE)), 0, env);
    WrapperRows(db, Where(ZERO), env);
    WrapperRows(db, Where(ONE), env);
  }

  lemma FromQueryBelow(db: Db)
    ensures Below(db, RowSet, FromQuery(ZERO), FromQuery(ONE))
  {
    forall env | Known(db, env) ensures Within(Rows(db, FromQuery(ZERO), env), Rows(db, FromQuery(ONE), env)) {
      FromQueryRows(db, env);
    }
  }

  /** A SELECT without conditions, but with GROUP BY or LIMIT. */
  lemma ClipFails(n: Node, names: set<string>)
    requires n.Select? && !Sound(RowSet, n) && n.where.Nil? && n.having.Nil? && BindsKnown(Adverse(0, names), n.with)
    ensures var db := Adverse(0, names);
            && Below(db, RowSet, FromQuery(ZERO), FromQuery(ONE))
            && !Below(db, RowSet, WithKid(n, 0, FromQuery(ZERO)), WithKid(n, 0, FromQuery(ONE)))
  {
    var db, x, y := Adverse(0, names), FromQuery(ZERO), FromQuery(ONE);
    FromQueryBelow(db);
    FromQueryRows(db, Bind(db, n.with, NOWHERE));
    FromKid(n, x);
    FromKid(n, y);
    ClippedAt(db, WithKid(n, 0, x), NOWHERE);
    ClippedAt(db, WithKid(n, 0, y), NOWHERE);
    RowLost(db, WithKid(n, 0, x), WithKid(n, 0, y));
  }

  lemma FromKid(n: Node, x: Node)
    requires n.Select?
    ensures WithKid(n, 0, x)
         == Select(n.distinct, n.ordered, n.grouped, n.limit, n.after, x, n.where, n.having, n.with, n.fields)
  {
    assert Kids(n)[0 := x][4..] == n.fields;
  }

  lemma ClippedAt(db: Db, n: Node, env: Env)
    requires n.Select? && !Sound(RowSet, n) && n.where.Nil? && n.having.Nil?
    requires Rows(db, n.from, Bind(db, n.with, env)) == [] || Rows(db, n.from, Bind(db, n.with, env)) == [[]]
    requires db.clip == Adverse(0, {}).clip
    ensures Rows(db, n, env) == if Rows(db, n.from, Bind(db, n.with, env)) == [] then [[]] else []
  {
    var inner := Bind(db, n.with, env);
    var kept := FlatMap(Rows(db, n.from, inner), SelectFn(db, n, inner));
    if Rows(db, n.from, inner) != [] {
      OneRow([], SelectFn(db, n, inner));
      assert SelectFn(db, n, inner)([]) != [];
    }
    DistinctEmpty(kept);
    ClippedRows(db, n, env);
  }

  lemma ClippedRows(db: Db, n: Node, env: Env)
    requires n.Select? && !Sound(RowSet, n)
    ensures var inner := Bind(db, n.with, env);
            var kept := FlatMap(Rows(db, n.from, inner), SelectFn(db, n, inner));
            Rows(db, n, env) == db.clip(n.grouped, n.limit, if n.distinct then Distinct(kept) else kept, inner.rows)
  {
  }

  // ---------------------------------------------------------------------------------------
  // Exactly the sound steps

  lemma SoundKeeps(role: Role, n: Node, i: nat)
    requires i < |Kids(n)| && Step(role, n, i).Go? && Sound(role, n) && !EntersWith(role, n, i)
    ensures Keeps(role, n, i)
  {
    forall db, x, x' | NamesKnown(db, n) && Below(db, Step(role, n, i).role, x, x')
      ensures Moves(db, role, Step(role, n, i).flip, WithKid(n, i, x), WithKid(n, i, x'))
    {
      StepMonotone(db, role, n, i, x, x');
    }
  }

  /** With one child the higher one moves the node the wrong way. */
  lemma Broken(role: Role, n: Node, i: nat, db: Db, x: Node, x': Node)
    requires i < |Kids(n)| && Step(role, n, i).Go? && !Step(role, n, i).flip
    requires Names(n) <= db.cteNames && Below(db, Step(role, n, i).role, x, x')
    requires !Below(db, role, WithKid(n, i, x), WithKid(n, i, x'))
    ensures !Keeps(role, n, i)
  {
    NamesAll(db, n);
  }

  /**
   The step to a child keeps the meaning of the flag in every database if and only if it is sound:
   for every expression, every table and every statement. Of the SELECTs that still have GROUP BY or
   LIMIT, which an earlier stage removes, those without conditions are covered.
   */
  lemma StepExact(role: Role, n: Node, i: nat)
    requires i < |Kids(n)| && Step(role, n, i).Go? && !EntersWith(role, n, i)
    requires role == RowSet ==> !n.With? && !n.Cte?
    requires role == RowSet && n.Select? ==> Sound(RowSet, n) || (n.where.Nil? && n.having.Nil?)
    ensures Keeps(role, n, i) <==> Sound(role, n)
  {
    if Sound(role, n) {
      SoundKeeps(role, n, i);
    } else if role == RowSet {
      UnsoundRows(n, i);
    } else {
      UnsoundExpr(role, n, i);
    }
  }

  lemma UnsoundRows(n: Node, i: nat)
    requires i < |Kids(n)| && StepRows(n, i).Go? && !Sound(RowSet, n) && !n.With? && !n.Cte?
        && !EntersWith(RowSet, n, i)
    requires n.Select? ==> n.where.Nil? && n.having.Nil?
    ensures !Keeps(RowSet, n, i)
  {
    NamesAll(Adverse(0, Names(n)), n);
    if n.Select? {
      OnlyFrom(n, i);
      UnsoundSelect(n);
    } else {
      UnsoundStmt(n, i);
    }
  }

  lemma UnsoundSelect(n: Node)
    requires n.Select? && !Sound(RowSet, n) && StepRows(n, 0) == Go(RowSet, false)
    requires n.where.Nil? && n.having.Nil? && NamesKnown(Adverse(0, Names(n)), n)
    ensures !Keeps(RowSet, n, 0)
  {
    NamesBind(Adverse(0, Names(n)), n, 3);
    ClipFails(n, Names(n));
    Broken(RowSet, n, 0, Adverse(0, Names(n)), FromQuery(ZERO), FromQuery(ONE));
  }

  /** Without conditions and past the WITH clause there is only FROM to go to. */
  lemma OnlyFrom(n: Node, i: nat)
    requires n.Select? && i < |Kids(n)| && StepRows(n, i).Go? && !EntersWith(RowSet, n, i)
    requires n.where.Nil? && n.having.Nil?
    ensures i == 0 && StepRows(n, 0) == Go(RowSet, false)
  {
  }

  lemma UnsoundStmt(n: Node, i: nat)
    requires n.SetOprStmt? && i < |Kids(n)| && StepRows(n, i).Go? && !Sound(RowSet, n)
    requires NamesKnown(Adverse(0, Names(n)), n)
    ensures !Keeps(RowSet, n, i)
  {
    NamesBind(Adverse(0, Names(n)), n, 1);
    LimitFails(n.limit.value, n.with, Names(n));
    LimitedKid(n, One(Where(ZERO)));
    LimitedKid(n, One(Where(ONE)));
    Broken(RowSet, n, i, Adverse(0, Names(n)), One(Where(ZERO)), One(Where(ONE)));
  }

  lemma LimitedKid(n: Node, x: Node)
    requires n.SetOprStmt?
    ensures WithKid(n, 0, x) == SetOprStmt(n.limit, x, n.with)
  {
  }

  lemma UnsoundExpr(role: Role, n: Node, i: nat)
    requires role != RowSet && i < |Kids(n)| && StepExpr(role, n, i).Go? && !Sound(role, n)
    ensures !Keeps(role, n, i)
  {
    if n.Func? {
      LiteralBelow(Adverse(i, Names(n)), Fine);
      ArgumentFails(role, n.name, n.args, i, Names(n));
      Broken(role, n, i, Adverse(i, Names(n)), ZERO, ONE);
    } else if n.Cast? {
      LiteralBelow(Adverse(0, Names(n)), Fine);
      CastFails(role, n.ty, Names(n));
      Broken(role, n, i, Adverse(0, Names(n)), ZERO, ONE);
    } else {
      WhereBelow(Adverse(0, Names(n)));
      ScalarFails(role, Names(n));
      Broken(role, n, i, Adverse(0, Names(n)), Where(ZERO), Where(ONE));
    }
  }
}
