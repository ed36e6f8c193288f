/**
 Stage 1: one walk over the tree that takes out, in place, what the mutations could not cope
 with: GROUP BY, aggregates, outer joins, LIMIT and functions without a fixed value.
 */
module Stage1 {
  import opened Sql
  import opened Containment
  import opened Steps
  import opened Polarity
  import opened AstStore

  const MIDNIGHT := Str("2020-01-01 00:00:00")
  const UUID := Str("00000000-0000-0000-0000-000000000000")

  /** The constants uncertain functions are replaced by; decimals are written as strings here. */
  function Replacement(name: string): Option<Value> {
    if name == "rand" then Some(Str("0.5"))
    else if name in {"now", "current_timestamp", "localtimestamp", "sysdate", "localtime"} then Some(MIDNIGHT)
    else if name in {"curdate", "current_date", "utc_date"} then Some(Str("2020-01-01"))
    else if name in {"curtime", "current_time", "utc_time"} then Some(Str("00:00:00"))
    else if name in {"uuid", "uuid_short", "uuid_to_bin", "bin_to_uuid"} then Some(UUID)
    else if name in {"current_user", "current_role", "user", "session_user", "system_user"} then Some(Str("user"))
    else if name in {"database", "schema"} then Some(Str("test"))
    else if name == "random_bytes" then Some(Str("0000000000"))
    else if name in {"benchmark", "connection_id", "found_rows", "row_count", "last_insert_id", "master_pos_wait",
        "sleep"}
    then Some(Int(0))
    else None
  }

  // The names of functions without a fixed value, by kind.

  const MOMENTS := ["now", "current_timestamp", "localtimestamp", "sysdate", "localtime"]
  const DATES := ["curdate", "current_date", "utc_date"]
  const TIMES := ["curtime", "current_time", "utc_time"]
  const UUIDS := ["uuid", "uuid_short", "uuid_to_bin", "bin_to_uuid"]
  const USERS := ["current_user", "current_role", "user", "session_user", "system_user"]
  const DATABASES := ["database", "schema"]
  const NUMBERS := ["benchmark", "connection_id", "found_rows", "row_count", "last_insert_id", "master_pos_wait",
                    "sleep"]

  /** The constants, kind by kind: a moment is the date and the time; no other function is replaced. */
  lemma Constants(name: string)
    ensures Replacement(name)
         == if name == "rand" then Some(Str("0.5"))
            else if name in MOMENTS then Some(Str("2020-01-01" + " " + "00:00:00"))
            else if name in DATES then Some(Str("2020-01-01"))
            else if name in TIMES then Some(Str("00:00:00"))
            else if name in UUIDS then Some(Str("00000000-0000-0000-0000-000000000000"))
            else if name in USERS then Some(Str("user"))
            else if name in DATABASES then Some(Str("test"))
            else if name == "random_bytes" then Some(Str("0000000000"))
            else if name in NUMBERS then Some(Int(0))
            else None
  {
    assert "2020-01-01" + " " + "00:00:00" == "2020-01-01 00:00:00";
  }

  /** What the visitor does to one node before it goes on to its children. */
  function Entered(n: Node): (m: Node)
    ensures forall i :: 0 <= i < |Kids(m)| ==> !n.Lit? && (Kids(m)[i] < n || Kids(m)[i].Lit?)
  {
    match n
    case Select(distinct, ordered, _, _, after, from, where, having, with, fields) =>
      Select(distinct, ordered, false, None, after, from, where, having, with, fields)
    case Agg(name, args) =>
      if args == [] || (name == "count" && |args| == 1 && args[0].Lit?) then Agg("", [Lit(Int(1))])
      else Agg("", [args[0]])
    case Join(_, left, right, on, lw, rw) => Join(CrossJoin, left, right, on, lw, rw)
    case Func(name, args) => (match Replacement(name) case None => n case Some(v) => Func("", [Lit(v)]))
    case Lit(v) => (assert Kids(Lit(v)) == []; n)
    case _ => n
  }

  function Init(n: Node): Node
    decreases !n.Lit?, n
  {
    var m := Entered(n);
    WithKids(m, InitAll(n, Kids(m)))
  }

  function InitAll(n: Node, ks: seq<Node>): (r: seq<Node>)
    requires forall i :: 0 <= i < |ks| ==> !n.Lit? && (ks[i] < n || ks[i].Lit?)
    ensures |r| == |ks| && forall i :: 0 <= i < |ks| ==> r[i] == Init(ks[i])
    decreases !n.Lit?, n, 0
  {
    seq(|ks|, i requires 0 <= i < |ks| => Init(ks[i]))
  }

  // ---------------------------------------------------------------------------------------
  // The normal form

  predicate NormalHere(n: Node) {
    && (n.Select? ==> !n.grouped && n.limit.None?)
    && (n.Join? ==> n.tp == CrossJoin)
    && (n.Agg? ==> n.name == "" && |n.args| == 1)
    && (n.Func? ==> Replacement(n.name).None?)
  }

  /** In the whole tree: no GROUP BY, no LIMIT on a SELECT, no outer join, no aggregate, nothing uncertain. */
  predicate Normal(n: Node)
    decreases n
  {
    NormalHere(n) && forall i :: 0 <= i < |Kids(n)| ==> Normal(Kids(n)[i])
  }

  lemma EnteredNormal(n: Node, ks: seq<Node>)
    requires |ks| == |Kids(Entered(n))|
    ensures NormalHere(WithKids(Entered(n), ks)) && Kids(WithKids(Entered(n), ks)) == ks
  {
  }

  lemma {:induction false} InitNormal(n: Node)
    ensures Normal(Init(n))
    decreases !n.Lit?, n
  {
    var m := Entered(n);
    forall i | 0 <= i < |Kids(m)| ensures Normal(Init(Kids(m)[i])) {
      InitNormal(Kids(m)[i]);
    }
    EnteredNormal(n, InitAll(n, Kids(m)));
  }

  lemma NormalEntered(n: Node)
    requires NormalHere(n)
    ensures Entered(n) == n
  {
  }

  /** The walk leaves exactly the trees in normal form as they are. */
  lemma {:induction false} InitFixed(n: Node)
    ensures Init(n) == n <==> Normal(n)
    decreases n
  {
    if Normal(n) {
      NormalEntered(n);
      forall i | 0 <= i < |Kids(n)| ensures Init(Kids(n)[i]) == Kids(n)[i] {
        InitFixed(Kids(n)[i]);
      }
      assert InitAll(n, Kids(n)) == Kids(n);
      WithKidsSame(n);
    } else {
      InitNormal(n);
    }
  }

  /** A second walk changes nothing. */
  lemma InitTwice(n: Node)
    ensures Init(Init(n)) == Init(n)
  {
    InitNormal(n);
    InitFixed(Init(n));
  }

  lemma {:induction false} NormalAt(n: Node, p: Path)
    requires Normal(n) && ValidPath(n, p)
    ensures Normal(At(n, p))
    decreases p
  {
    if p != [] {
      NormalAt(Kids(n)[p[0]], p[1..]);
    }
  }

  /** What can still make a step of the visitor unsound after the walk. */
  predicate Remaining(role: Role, n: Node) {
    if role == RowSet then n.With? || n.Cte? || (n.SetOprStmt? && n.limit.Some?)
    else n.Subquery? || n.Cast? || (n.Func? && !(n.name == "" && |n.args| == 1))
  }

  /** The visitor enters both sides of the join, if they are there to be entered, and its condition. */
  predicate JoinEntered(n: Node)
    requires n.Join?
  {
    && Step(RowSet, n, 0) == EnterResultSet(n.left) && Step(RowSet, n, 1) == EnterResultSet(n.right)
    && Step(RowSet, n, 2) == (if n.on.Nil? then Stop else Go(Coarse, false))
  }

  lemma NormalSound(n: Node, role: Role)
    requires NormalHere(n)
    ensures Sound(role, n) <==> !Remaining(role, n)
    ensures n.Join? ==> JoinEntered(n)
  {
    if n.Join? {
      assert Kids(n) == [n.left, n.right, n.on];
    }
  }

  /** An aggregate has become its first argument, COUNT(*) and the like have become 1. */
  lemma AggregateGone(db: Db, name: string, args: seq<Node>, env: Env)
    ensures Eval(db, Init(Agg(name, args)), env)
         == if args == [] || (name == "count" && |args| == 1 && args[0].Lit?) then Int(1)
            else Eval(db, Init(args[0]), env)
  {
    var n := Agg(name, args);
    var m := Entered(n);
    var kids := InitAll(n, Kids(m));
    assert Init(n) == Agg("", kids) && |kids| == 1 && kids[0] == Init(Kids(m)[0]);
  }

  /** A function without a fixed value has become a constant. */
  lemma UncertainGone(db: Db, name: string, args: seq<Node>, env: Env)
    requires Replacement(name).Some?
    ensures Eval(db, Init(Func(name, args)), env) == Replacement(name).value
  {
    var n := Func(name, args);
    var m := Entered(n);
    var kids := InitAll(n, Kids(m));
    assert Init(n) == Func("", kids) && |kids| == 1 && kids[0] == Init(Kids(m)[0]);
    assert kids[0] == Lit(Replacement(name).value);
  }

  /**
   After the walk no SELECT and no join stands in the way: the second stage enters both sides
   and the condition of every join, and a step is unsound only for one of the other reasons.
   */
  lemma ReadyForStage2(root: Node, p: Path, role: Role)
    requires ValidPath(Init(root), p)
    ensures Sound(role, At(Init(root), p)) <==> !Remaining(role, At(Init(root), p))
    ensures At(Init(root), p).Join? ==> JoinEntered(At(Init(root), p))
  {
    InitNormal(root);
    NormalAt(Init(root), p);
    NormalSound(At(Init(root), p), role);
  }

  // ---------------------------------------------------------------------------------------
  // What the walk does to the rows of a SELECT and of a join

  /** LIMIT picks rows, it makes none up. */
  ghost predicate LimitPicks(db: Db) {
    forall limit, rows, scope :: Within(db.clip(false, limit, rows, scope), rows)
  }

  /** The rows of a SELECT are those it has without its LIMIT, with LIMIT applied. */
  lemma LimitLifted(db: Db, n: Node, env: Env)
    requires n.Select? && !n.grouped && n.limit.Some?
    ensures Rows(db, n, env) == db.clip(false, n.limit, Rows(db, Entered(n), env), Bind(db, n.with, env).rows)
    ensures LimitPicks(db) ==> Within(Rows(db, n, env), Rows(db, Entered(n), env))
  {
    var m, inner := Entered(n), Bind(db, n.with, env);
    SelectRows(db, m, env);
    forall r ensures SelectFn(db, m, inner)(r) == SelectFn(db, n, inner)(r) {
    }
    SameFlatMap(Rows(db, n.from, inner), SelectFn(db, m, inner), SelectFn(db, n, inner));
  }

  /** GROUP BY, LIMIT and the kind of a join make no difference to what the walk leaves. */
  lemma WalkIgnores(n: Node)
    ensures n.Select? ==> Init(n) == Init(Select(n.distinct, n.ordered, false, None, n.after, n.from, n.where, n.having,
                                                 n.with, n.fields))
    ensures n.Join? ==> Init(n) == Init(Join(CrossJoin, n.left, n.right, n.on, n.leftWidth, n.rightWidth))
  {
    if n.Select? || n.Join? {
      var m := Entered(n);
      assert Entered(m) == m;
      assert InitAll(n, Kids(m)) == InitAll(m, Kids(m));
    }
  }

  // What one row contributes to a join: its pairs with the rows of the other side.

  function WithLeft(db: Db, on: Node, env: Env, l: Row): Row -> seq<Row> {
    (r: Row) => if Holds(db, on, Push(env, l + r)) then [l + r] else []
  }

  function WithRight(db: Db, on: Node, env: Env, r: Row): Row -> seq<Row> {
    (l: Row) => if Holds(db, on, Push(env, l + r)) then [l + r] else []
  }

  function ByLeft(db: Db, on: Node, env: Env, right: seq<Row>): Row -> seq<Row> {
    (l: Row) => FlatMap(right, WithLeft(db, on, env, l))
  }

  function ByRight(db: Db, on: Node, env: Env, left: seq<Row>): Row -> seq<Row> {
    (r: Row) => FlatMap(left, WithRight(db, on, env, r))
  }

  /** A row without a partner stands alone. */
  function Padding(pairs: Row -> seq<Row>, alone: Row -> Row): Row -> seq<Row> {
    (x: Row) => if pairs(x) == [] then [alone(x)] else pairs(x)
  }

  function LeftAlone(width: nat): Row -> Row {
    (l: Row) => l + Nulls(width)
  }

  function RightAlone(width: nat): Row -> Row {
    (r: Row) => Nulls(width) + r
  }

  lemma CrossRows(db: Db, n: Node, env: Env)
    requires n.Join? && n.tp == CrossJoin
    ensures Rows(db, n, env) == FlatMap(Rows(db, n.left, env), ByLeft(db, n.on, env, Rows(db, n.right, env)))
  {
    var right := Rows(db, n.right, env);
    JoinRows(db, n, env);
    forall l ensures CrossFn(db, n, env)(l) == ByLeft(db, n.on, env, right)(l) {
      SameFlatMap(right, OnFn(db, n, env, l), WithLeft(db, n.on, env, l));
    }
    SameFlatMap(Rows(db, n.left, env), CrossFn(db, n, env), ByLeft(db, n.on, env, right));
  }

  lemma LeftRows(db: Db, n: Node, env: Env)
    requires n.Join? && n.tp == LeftJoin
    ensures var pairs := ByLeft(db, n.on, env, Rows(db, n.right, env));
            Rows(db, n, env) == FlatMap(Rows(db, n.left, env), Padding(pairs, LeftAlone(n.rightWidth)))
  {
    var right := Rows(db, n.right, env);
    var all := Padding(ByLeft(db, n.on, env, right), LeftAlone(n.rightWidth));
    forall l ensures LeftFn(db, n, env)(l) == all(l) {
      SameFlatMap(right, OnFn(db, n, env, l), WithLeft(db, n.on, env, l));
    }
    SameFlatMap(Rows(db, n.left, env), LeftFn(db, n, env), all);
  }

  lemma RightRows(db: Db, n: Node, env: Env)
    requires n.Join? && n.tp == RightJoin
    ensures var pairs := ByRight(db, n.on, env, Rows(db, n.left, env));
            Rows(db, n, env) == FlatMap(Rows(db, n.right, env), Padding(pairs, RightAlone(n.leftWidth)))
  {
    var left := Rows(db, n.left, env);
    var all := Padding(ByRight(db, n.on, env, left), RightAlone(n.leftWidth));
    forall r ensures RightFn(db, n, env)(r) == all(r) {
      SameFlatMap(left, (l: Row) => if Holds(db, n.on, Push(env, l + r)) then [l + r]
          else [], WithRight(db, n.on, env, r));
    }
    SameFlatMap(Rows(db, n.right, env), RightFn(db, n, env), all);
  }

  lemma {:induction false} FlatMapSum(s: seq<Row>, f: Row -> seq<Row>, g: Row -> seq<Row>, h: Row -> seq<Row>)
    requires forall r :: h(r) == f(r) + g(r)
    ensures multiset(FlatMap(s, h)) == multiset(FlatMap(s, f)) + multiset(FlatMap(s, g))
  {
    if s != [] {
      FlatMapSum(s[1..], f, g, h);
      SumOfFour(f(s[0]), g(s[0]), FlatMap(s[1..], f), FlatMap(s[1..], g), FlatMap(s[1..], h));
    }
  }

  lemma SumOfFour(a: seq<Row>, b: seq<Row>, c: seq<Row>, d: seq<Row>, e: seq<Row>)
    requires multiset(e) == multiset(c) + multiset(d)
    ensures multiset((a + b) + e) == multiset(a + c) + multiset(b + d)
  {
    assert multiset((a + b) + e) == multiset(a) + multiset(b) + multiset(e);
    assert multiset(a + c) == multiset(a) + multiset(c) && multiset(b + d) == multiset(b) + multiset(d);
  }

  /** All pairs, taken from the left side or from the right. */
  lemma {:induction false} BothSides(db: Db, on: Node, env: Env, left: seq<Row>, right: seq<Row>)
    ensures multiset(FlatMap(left, ByLeft(db, on, env, right))) == multiset(FlatMap(right, ByRight(db, on, env, left)))
    decreases |left|
  {
    if left == [] {
      FlatMapEmpty(right, ByRight(db, on, env, left));
    } else {
      var first, rest := WithLeft(db, on, env, left[0]), ByRight(db, on, env, left[1..]);
      BothSides(db, on, env, left[1..], right);
      FlatMapSum(right, first, rest, ByRight(db, on, env, left));
      var here, later := FlatMap(right, first), FlatMap(left[1..], ByLeft(db, on, env, right));
      assert multiset(here + later) == multiset(here) + multiset(later);
    }
  }

  /** Padding adds rows, unless every row has a partner. */
  lemma {:induction false} PaddedMore(s: seq<Row>, f: Row -> seq<Row>, alone: Row -> Row)
    ensures Within(FlatMap(s, f), FlatMap(s, Padding(f, alone)))
    ensures |FlatMap(s, f)| <= |FlatMap(s, Padding(f, alone))|
    ensures |FlatMap(s, f)| == |FlatMap(s, Padding(f, alone))| <==> forall r :: r in s ==> f(r) != []
  {
    if s != [] {
      PaddedMore(s[1..], f, alone);
      WithinConcat(f(s[0]), Padding(f, alone)(s[0]), FlatMap(s[1..], f), FlatMap(s[1..], Padding(f, alone)));
      assert forall r :: r in s <==> r == s[0] || r in s[1..];
    }
  }

  lemma SameSize(a: seq<Row>, b: seq<Row>)
    requires Within(a, b)
    ensures multiset(a) == multiset(b) <==> |a| == |b|
  {
    assert multiset(b) == multiset(a) + (multiset(b) - multiset(a));
    assert |multiset(b)| == |multiset(a)| + |multiset(b) - multiset(a)|;
  }

  /** Has the row of the side that is kept whole a partner on the other? */
  predicate Partnered(db: Db, n: Node, env: Env, x: Row)
    requires n.Join? && n.tp != CrossJoin
  {
    if n.tp == LeftJoin then exists r :: r in Rows(db, n.right, env) && Holds(db, n.on, Push(env, x + r))
    else exists l :: l in Rows(db, n.left, env) && Holds(db, n.on, Push(env, l + x))
  }

  lemma LeftPartner(db: Db, n: Node, env: Env, x: Row)
    requires n.Join? && n.tp == LeftJoin
    ensures ByLeft(db, n.on, env, Rows(db, n.right, env))(x) != [] <==> Partnered(db, n, env, x)
  {
    var f := WithLeft(db, n.on, env, x);
    FlatMapEmpty(Rows(db, n.right, env), f);
    assert forall r :: f(r) != [] <==> Holds(db, n.on, Push(env, x + r));
  }

  lemma RightPartner(db: Db, n: Node, env: Env, x: Row)
    requires n.Join? && n.tp == RightJoin
    ensures ByRight(db, n.on, env, Rows(db, n.left, env))(x) != [] <==> Partnered(db, n, env, x)
  {
    var f := WithRight(db, n.on, env, x);
    FlatMapEmpty(Rows(db, n.left, env), f);
    assert forall l :: f(l) != [] <==> Holds(db, n.on, Push(env, l + x));
  }

  /**
   The inner join that an outer join is made into has no rows of its own, and the same rows exactly
   if every row of the side that was kept whole has a partner.
   */
  lemma OuterJoin(db: Db, n: Node, env: Env)
    requires n.Join? && n.tp != CrossJoin
    ensures Within(Rows(db, Entered(n), env), Rows(db, n, env))
    ensures multiset(Rows(db, Entered(n), env)) == multiset(Rows(db, n, env))
       <==> forall x :: x in Rows(db, if n.tp == LeftJoin then n.left else n.right, env) ==> Partnered(db, n, env, x)
  {
    CrossRows(db, Entered(n), env);
    if n.tp == LeftJoin {
      LeftOuter(db, n, env);
    } else {
      BothSides(db, n.on, env, Rows(db, n.left, env), Rows(db, n.right, env));
      RightOuter(db, n, env);
    }
  }

  lemma LeftOuter(db: Db, n: Node, env: Env)
    requires n.Join? && n.tp == LeftJoin
    ensures var inner := FlatMap(Rows(db, n.left, env), ByLeft(db, n.on, env, Rows(db, n.right, env)));
            && Within(inner, Rows(db, n, env))
            && (multiset(inner) == multiset(Rows(db, n, env))
                <==> forall x :: x in Rows(db, n.left, env) ==> Partnered(db, n, env, x))
  {
    var left, pairs := Rows(db, n.left, env), ByLeft(db, n.on, env, Rows(db, n.right, env));
    LeftRows(db, n, env);
    PaddedMore(left, pairs, LeftAlone(n.rightWidth));
    SameSize(FlatMap(left, pairs), Rows(db, n, env));
    forall x ensures pairs(x) != [] <==> Partnered(db, n, env, x) {
      LeftPartner(db, n, env, x);
    }
  }

  lemma RightOuter(db: Db, n: Node, env: Env)
    requires n.Join? && n.tp == RightJoin
    ensures var inner := FlatMap(Rows(db, n.right, env), ByRight(db, n.on, env, Rows(db, n.left, env)));
            && Within(inner, Rows(db, n, env))
            && (multiset(inner) == multiset(Rows(db, n, env))
                <==> forall x :: x in Rows(db, n.right, env) ==> Partnered(db, n, env, x))
  {
    var right, pairs := Rows(db, n.right, env), ByRight(db, n.on, env, Rows(db, n.left, env));
    RightRows(db, n, env);
    PaddedMore(right, pairs, RightAlone(n.leftWidth));
    SameSize(FlatMap(right, pairs), Rows(db, n, env));
    forall x ensures pairs(x) != [] <==> Partnered(db, n, env, x) {
      RightPartner(db, n, env, x);
    }
  }
}
