/**
 The mutations: which of them a node offers, what each does to the node, and that each moves the
 node the way its name says (U up, L down), in the order of its position.
 */
module Mutation {
  import opened Sql
  import opened Containment
  import opened Steps
  import opened Polarity
  import opened LikePattern

  datatype Mut =
    | FixMDistinctU | FixMDistinctL
    | FixMUnionAllU | FixMUnionAllL
    | FixMCmpOpU | FixMCmpOpULE | FixMCmpOpL
    | FixMInNullU
    | FixMWhere1U | FixMWhere0L
    | FixMHaving1U | FixMHaving0L
    | FixMOn1U | FixMOn0L
    | FixMRmUnionAllL
    | RdMLikeU | RdMLikeL
    | FixMBetweenDropUpperU | FixMBetweenDropLowerU
    | FixMNullEqToLowerL
    | FixMAllToAnyU | FixMAnyToAllL
    | FixMIsNullToFalseL | FixMIsNotNullToTrueU

  /** The U of a candidate. */
  predicate Upper(m: Mut) {
    match m
    case FixMDistinctU => true
    case FixMUnionAllU => true
    case FixMCmpOpU => true
    case FixMCmpOpULE => true
    case FixMInNullU => true
    case FixMWhere1U => true
    case FixMHaving1U => true
    case FixMOn1U => true
    case RdMLikeU => true
    case FixMBetweenDropUpperU => true
    case FixMBetweenDropLowerU => true
    case FixMAllToAnyU => true
    case FixMIsNotNullToTrueU => true
    case _ => false
  }

  // ---------------------------------------------------------------------------------------
  // Mining

  function If(b: bool, m: Mut): seq<Mut> {
    if b then [m] else []
  }

  /** The mutations a visited node offers, in the order the visitor records them. */
  function Mine(role: Role, n: Node): seq<Mut> {
    if role == RowSet then MineRows(n) else MineExpr(n)
  }

  function MineRows(n: Node): seq<Mut> {
    match n
    case Select(distinct, ordered, _, _, after, _, where, having, with, _) =>
      MineShape(distinct, !ordered && with.Nil?, after) + MineClauses(!where.Nil?, !having.Nil?)
    case Join(tp, _, _, on, _, _) =>
      If(tp == CrossJoin && !on.Nil?, FixMOn1U) + If(tp == CrossJoin && !on.Nil?, FixMOn0L)
    case SetOprList(_, _, selects) =>
      If(|selects| == 2 && selects[1].Select? && selects[1].after == Some(UnionAll), FixMRmUnionAllL)
    case _ => []
  }

  function MineShape(distinct: bool, mayDistinct: bool, after: Option<SetOp>): seq<Mut> {
    If(distinct, FixMDistinctU) + If(!distinct && mayDistinct, FixMDistinctL)
    + If(after == Some(Union), FixMUnionAllU) + If(after == Some(UnionAll), FixMUnionAllL)
  }

  function MineClauses(where: bool, having: bool): seq<Mut> {
    If(where, FixMWhere1U) + If(where, FixMWhere0L) + If(having, FixMHaving1U) + If(having, FixMHaving0L)
  }

  function MineExpr(n: Node): seq<Mut> {
    match n
    case Binary(op, _, _) => MineOp(op) + If(op == NullEQ, FixMNullEqToLowerL)
    case CompareSub(op, all, _, _) => MineOp(op) + If(all, FixMAllToAnyU) + If(!all, FixMAnyToAllL)
    case Between(_, _, _, _) => [FixMBetweenDropUpperU, FixMBetweenDropLowerU]
    case InList(_, _, _) => [FixMInNullU]
    case IsNull(neg, _) => If(!neg, FixMIsNullToFalseL) + If(neg, FixMIsNotNullToTrueU)
    case Like(_, _, _) => If(CheckLikeU(n), RdMLikeU) + If(CheckLikeL(n), RdMLikeL)
    case _ => []
  }

  function MineOp(op: Op): seq<Mut> {
    If(op == EQ || op == LT || op == GT, FixMCmpOpU) + If(op == EQ, FixMCmpOpULE) + If(op == LE || op == GE, FixMCmpOpL)
  }

  predicate LiteralLike(n: Node) {
    n.Like? && n.e.Lit? && n.e.v.Str? && n.pattern.Lit? && n.pattern.v.Str?
  }

  predicate CheckLikeU(n: Node) {
    LiteralLike(n) && exists i :: 0 <= i < |n.pattern.v.s| && n.pattern.v.s[i] != '%'
  }

  predicate CheckLikeL(n: Node) {
    LiteralLike(n) && exists i :: 0 <= i < |n.pattern.v.s| && n.pattern.v.s[i] == '%'
  }

  /** NOT BETWEEN, NOT IN and NOT LIKE are recorded with the flag flipped once more. */
  predicate LocalFlip(n: Node) {
    (n.Between? || n.InList? || n.Like?) && n.neg
  }

  // ---------------------------------------------------------------------------------------
  // Rewriting

  const ONE := Lit(Int(1))
  const ZERO := Lit(Int(0))

  function WeakerOp(op: Op): Option<Op> {
    match op case EQ => Some(GE) case LT => Some(LE) case GT => Some(GE) case _ => None
  }

  function StricterOp(op: Op): Option<Op> {
    match op case LE => Some(LT) case GE => Some(GT) case _ => None
  }

  /** What the mutation makes of the node; None is an error of the rewrite's own checks. */
  function Rewrite(m: Mut, n: Node, coins: Coins): Option<Node> {
    match n
    case Select(_, _, _, _, _, _, _, _, _, _) => RewriteSelect(m, n)
    case Join(_, _, _, _, _, _) => RewriteJoin(m, n)
    case SetOprList(after, with, selects) =>
      if m == FixMRmUnionAllL && |selects| > 1 then Some(SetOprList(after, with, [selects[0]])) else None
    case Binary(op, l, r) => RewriteBinary(m, op, l, r)
    case CompareSub(op, all, l, r) => RewriteCompareSub(m, op, all, l, r)
    case Between(neg, e, lo, hi) => RewriteBetween(m, neg, e, lo, hi)
    case InList(neg, e, list) => if m == FixMInNullU then Some(InList(neg, e, list + [Lit(Null)])) else None
    case IsNull(_, _) =>
      if m == FixMIsNullToFalseL then Some(Paren(ZERO))
      else if m == FixMIsNotNullToTrueU then Some(Paren(ONE))
      else None
    case Like(_, _, _) => RewriteLike(m, n, coins)
    case _ => None
  }

  function RewriteSelect(m: Mut, n: Node): Option<Node>
    requires n.Select?
  {
    match n case Select(d, o, g, l, after, from, where, having, with, fields) =>
      match m
      case FixMDistinctU => if d then Some(Select(false, o, g, l, after, from, where, having, with, fields)) else None
      case FixMDistinctL => if d then None else Some(Select(true, o, g, l, after, from, where, having, with, fields))
      case FixMUnionAllU =>
        if after == Some(Union) then Some(Select(d, o, g, l, Some(UnionAll), from, where, having, with, fields))
            else None
      case FixMUnionAllL =>
        if after == Some(UnionAll) then Some(Select(d, o, g, l, Some(Union), from, where, having, with, fields))
            else None
      case FixMWhere1U => if where.Nil? then None else Some(Select(d, o, g, l, after, from, ONE, having, with, fields))
      case FixMWhere0L => if where.Nil? then None else Some(Select(d, o, g, l, after, from, ZERO, having, with, fields))
      case FixMHaving1U => if having.Nil? then None else Some(Select(d, o, g, l, after, from, where, ONE, with, fields))
      case FixMHaving0L => if having.Nil? then None else Some(Select(d, o, g, l, after, from, where, ZERO, with,
          fields))
      case _ => None
  }

  function RewriteJoin(m: Mut, n: Node): Option<Node>
    requires n.Join?
  {
    match n case Join(tp, left, right, on, lw, rw) =>
      match m
      case FixMOn1U => if on.Nil? then None else Some(Join(tp, left, right, ONE, lw, rw))
      case FixMOn0L => if on.Nil? then None else Some(Join(tp, left, right, ZERO, lw, rw))
      case _ => None
  }

  function RewriteBinary(m: Mut, op: Op, l: Node, r: Node): Option<Node> {
    match RewriteOp(m, op)
    case Some(op') => Some(Binary(op', l, r))
    case None => if m == FixMNullEqToLowerL && op == NullEQ then Some(Binary(EQ, l, r)) else None
  }

  function RewriteCompareSub(m: Mut, op: Op, all: bool, l: Node, r: Node): Option<Node> {
    match RewriteOp(m, op)
    case Some(op') => Some(CompareSub(op', all, l, r))
    case None =>
      if (m == FixMAllToAnyU && all) || (m == FixMAnyToAllL && !all) then Some(CompareSub(op, !all, l, r)) else None
  }

  function RewriteBetween(m: Mut, neg: bool, e: Node, lo: Node, hi: Node): Option<Node> {
    match m
    case FixMBetweenDropUpperU => Some(Paren(Binary(if neg then LT else GE, e, lo)))
    case FixMBetweenDropLowerU => Some(Paren(Binary(if neg then GT else LE, e, hi)))
    case _ => None
  }

  function RewriteLike(m: Mut, n: Node, coins: Coins): Option<Node>
    requires n.Like?
  {
    if m == RdMLikeU && CheckLikeU(n) then
      Some(Like(n.neg, n.e, Lit(Str(Widen(n.pattern.v.s, coins, 0)))))
    else if m == RdMLikeL && CheckLikeL(n) then
      Some(Like(n.neg, n.e, Lit(Str(Narrow(n.pattern.v.s, coins, 0)))))
    else None
  }

  function RewriteOp(m: Mut, op: Op): Option<Op> {
    match m
    case FixMCmpOpU => WeakerOp(op)
    case FixMCmpOpULE => if op == EQ then Some(LE) else None
    case FixMCmpOpL => StricterOp(op)
    case _ => None
  }

  // ---------------------------------------------------------------------------------------
  // Comparison operators

  /** `op'` never says less than `op`. */
  ghost predicate WeakerOrEqual(db: Db, op: Op, op': Op) {
    forall a, b :: Implies3(Compare(db, op, a, b), Compare(db, op', a, b))
  }

  lemma WeakerOps(db: Db)
    ensures WeakerOrEqual(db, EQ, GE) && WeakerOrEqual(db, EQ, LE)
    ensures WeakerOrEqual(db, LT, LE) && WeakerOrEqual(db, GT, GE)
  {
  }

  lemma RewriteOpWeaker(db: Db, m: Mut, op: Op)
    requires RewriteOp(m, op).Some?
    ensures var op' := RewriteOp(m, op).value;
            if Upper(m) then WeakerOrEqual(db, op, op') else WeakerOrEqual(db, op', op)
  {
    WeakerOps(db);
  }

  /**
   `=` against `<=>`: in the order False < Unknown < True, `a = b` is below `a <=> b` unless
   exactly one of them is NULL, when `=` is Unknown and `<=>` False. `=` never adds a True.
   */
  lemma NullEqExact(db: Db, a: Value, b: Value)
    ensures Implies3(Compare(db, EQ, a, b), Compare(db, NullEQ, a, b)) <==> (a == Null <==> b == Null)
    ensures Compare(db, EQ, a, b) == True ==> Compare(db, NullEQ, a, b) == True
  {
  }

  lemma CompareTruth(db: Db, op: Op, l: Node, r: Node, env: Env)
    requires op in {GE, LE, EQ, NE, LT, GT, NullEQ}
    ensures TruthAt(db, Binary(op, l, r), env) == Compare(db, op, Eval(db, l, env), Eval(db, r, env))
  {
  }

  /** Moving in the fine order at every environment is moving in either order. */
  lemma FineMoves(db: Db, role: Role, flip: bool, x: Node, y: Node)
    requires role != RowSet && !x.Nil? && !y.Nil?
    requires forall env :: Known(db, env) ==> Rel(Fine, flip, TruthAt(db, x, env), TruthAt(db, y, env))
    ensures Moves(db, role, flip, x, y)
  {
    RelMoves(db, Fine, flip, x, y);
    MovesCoarse(db, role, flip, x, y);
  }

  lemma BinaryOpMoves(db: Db, role: Role, op: Op, op': Op, l: Node, r: Node)
    requires role != RowSet && WeakerOrEqual(db, op, op')
    requires op in {GE, LE, EQ, NE, LT, GT} && op' in {GE, LE, EQ, NE, LT, GT}
    ensures Below(db, role, Binary(op, l, r), Binary(op', l, r))
  {
    var x, y := Binary(op, l, r), Binary(op', l, r);
    forall env ensures Rel(Fine, false, TruthAt(db, x, env), TruthAt(db, y, env)) {
      CompareTruth(db, op, l, r, env);
      CompareTruth(db, op', l, r, env);
    }
    FineMoves(db, role, false, x, y);
  }

  lemma CompareSubOpMoves(db: Db, role: Role, op: Op, op': Op, all: bool, l: Node, r: Node)
    requires role != RowSet && WeakerOrEqual(db, op, op')
    ensures Below(db, role, CompareSub(op, all, l, r), CompareSub(op', all, l, r))
  {
    var x, y := CompareSub(op, all, l, r), CompareSub(op', all, l, r);
    forall env ensures Rel(Fine, false, TruthAt(db, x, env), TruthAt(db, y, env)) {
      CompareSubTruth(db, op, all, l, r, env);
      CompareSubTruth(db, op', all, l, r, env);
      var a, vs := Eval(db, l, env), FirstColumn(Rows(db, r, env));
      AnyMonotone(db, op, op', a, vs, vs);
      AllMonotone(db, op, op', a, vs, vs);
    }
    FineMoves(db, role, false, x, y);
  }

  /** Wherever one of the two is NULL, so is the other. */
  ghost predicate NullTogether(db: Db, l: Node, r: Node) {
    forall env :: Known(db, env) ==> (Eval(db, l, env) == Null <==> Eval(db, r, env) == Null)
  }

  /**
   `=` is below `<=>` where only True matters; in the fine order exactly when the two sides are
   NULL together.
   */
  lemma NullEqMoves(db: Db, role: Role, l: Node, r: Node)
    requires role != RowSet
    ensures Below(db, role, Binary(EQ, l, r), Binary(NullEQ, l, r)) <==> role == Coarse || NullTogether(db, l, r)
  {
    forall env
      ensures Implies3(TruthAt(db, Binary(EQ, l, r), env), TruthAt(db, Binary(NullEQ, l, r), env))
         <==> (Eval(db, l, env) == Null <==> Eval(db, r, env) == Null)
      ensures TruthAt(db, Binary(EQ, l, r), env) == True ==> TruthAt(db, Binary(NullEQ, l, r), env) == True
    {
      CompareTruth(db, EQ, l, r, env);
      CompareTruth(db, NullEQ, l, r, env);
      NullEqExact(db, Eval(db, l, env), Eval(db, r, env));
    }
  }

  ghost predicate NeverEmpty(db: Db, n: Node) {
    forall env :: Known(db, env) ==> Rows(db, n, env) != []
  }

  /** ALL is below ANY, in either order, exactly when the subquery is never empty. */
  lemma AllAnyMoves(db: Db, role: Role, op: Op, l: Node, r: Node)
    requires role != RowSet
    ensures Below(db, role, CompareSub(op, true, l, r), CompareSub(op, false, l, r)) <==> NeverEmpty(db, r)
  {
    var x, y := CompareSub(op, true, l, r), CompareSub(op, false, l, r);
    forall env
      ensures Rel(role, false, TruthAt(db, x, env), TruthAt(db, y, env)) <==> Rows(db, r, env) != []
    {
      AllAnyAt(db, role, op, l, r, env);
    }
    if NeverEmpty(db, r) {
      RelMoves(db, role, false, x, y);
    } else {
      var env :| Known(db, env) && Rows(db, r, env) == [];
      assert !Rel(role, false, TruthAt(db, x, env), TruthAt(db, y, env));
    }
  }

  lemma AllAnyAt(db: Db, role: Role, op: Op, l: Node, r: Node, env: Env)
    requires role != RowSet
    ensures Rel(role, false, TruthAt(db, CompareSub(op, true, l, r), env),
        TruthAt(db, CompareSub(op, false, l, r), env))
       <==> Rows(db, r, env) != []
  {
    CompareSubTruth(db, op, true, l, r, env);
    CompareSubTruth(db, op, false, l, r, env);
    var a, vs := Eval(db, l, env), FirstColumn(Rows(db, r, env));
    AllBelowAny(db, op, a, vs);
    AnyBounds(db, op, a, vs);
    AllBounds(db, op, a, vs);
  }

  /** Does a row of the source meet both conditions? */
  predicate Kept(db: Db, n: Node, env: Env, r: Row)
    requires n.Select?
  {
    Holds(db, n.where, Push(env, r)) && Holds(db, n.having, Push(env, r))
  }

  /** A SELECT has rows exactly when some row of its source meets both conditions. */
  lemma SelectEmpty(db: Db, n: Node, env: Env)
    requires n.Select? && !n.grouped && n.limit.None?
    ensures var inner := Bind(db, n.with, env);
            Rows(db, n, env) != [] <==> exists r :: r in Rows(db, n.from, inner) && Kept(db, n, inner, r)
  {
    var inner := Bind(db, n.with, env);
    var source, kept := Rows(db, n.from, inner), FlatMap(Rows(db, n.from, inner), SelectFn(db, n, inner));
    SelectRows(db, n, env);
    FlatMapEmpty(source, SelectFn(db, n, inner));
    DistinctCounts(kept);
    DistinctEmpty(kept);
    assert forall r :: SelectFn(db, n, inner)(r) != [] <==> Kept(db, n, inner, r);
  }

  /** FROM with one table: an inner join without a right side. */
  function From(t: Node, width: nat): Node {
    Join(CrossJoin, TableSource(t), Nil, Nil, width, 0)
  }

  lemma FromRows(db: Db, t: Node, width: nat, env: Env)
    ensures Rows(db, From(t, width), env) == Rows(db, t, env)
  {
    var n := From(t, width);
    JoinRows(db, n, env);
    WrapperRows(db, t, env);
    assert Rows(db, n.right, env) == [[]];
    forall l ensures CrossFn(db, n, env)(l) == [l] {
      assert l + [] == l && OnFn(db, n, env, l)([]) == [l + []];
      OneRow([], OnFn(db, n, env, l));
    }
    FlatMapOnes(Rows(db, t, env), CrossFn(db, n, env));
  }

  /** A subquery over a table, without conditions, is never empty exactly when the table is not. */
  lemma TableNeverEmpty(db: Db, distinct: bool, ordered: bool, t: string, width: nat, fields: seq<Node>)
    requires t !in db.cteNames
    ensures NeverEmpty(db, Subquery(Select(distinct, ordered, false, None, None, From(TableName(t), width), Nil, Nil,
        Nil, fields)))
       <==> db.tables(t) != []
  {
    var n := Select(distinct, ordered, false, None, None, From(TableName(t), width), Nil, Nil, Nil, fields);
    forall env | Known(db, env) ensures Rows(db, Subquery(n), env) != [] <==> db.tables(t) != [] {
      WrapperRows(db, n, env);
      SelectEmpty(db, n, env);
      FromRows(db, TableName(t), width, env);
      assert Rows(db, TableName(t), env) == db.tables(t);
      if db.tables(t) != [] {
        assert db.tables(t)[0] in Rows(db, n.from, Bind(db, n.with, env));
      }
    }
    assert Known(db, Env([], map[]));
  }

  // ---------------------------------------------------------------------------------------
  // BETWEEN, IN, IS NULL, LIKE

  lemma BetweenTruth(db: Db, neg: bool, e: Node, lo: Node, hi: Node, env: Env)
    ensures TruthAt(db, Between(neg, e, lo, hi), env)
         == Flip(neg, Between3(db, Eval(db, e, env), Eval(db, lo, env), Eval(db, hi, env)))
  {
  }

  /** Dropping a bound of BETWEEN raises it; of NOT BETWEEN it keeps one of the two ways to fail. */
  lemma BetweenMoves(db: Db, role: Role, neg: bool, e: Node, lo: Node, hi: Node, m: Mut, coins: Coins)
    requires role != RowSet && m in {FixMBetweenDropUpperU, FixMBetweenDropLowerU}
    ensures Moves(db, role, neg, Between(neg, e, lo, hi), Rewrite(m, Between(neg, e, lo, hi), coins).value)
  {
    var upper := m == FixMBetweenDropUpperU;
    var n, b := Between(neg, e, lo, hi), BetweenHalf(upper, neg, e, lo, hi);
    assert Rewrite(m, n, coins).value == Paren(b);
    forall env ensures Rel(Fine, neg, TruthAt(db, n, env), TruthAt(db, Paren(b), env)) {
      BetweenTruth(db, neg, e, lo, hi, env);
      CompareTruth(db, b.op, b.l, b.r, env);
      ParenTruth(db, b, env);
      BetweenValues(db, upper, neg, Eval(db, e, env), Eval(db, lo, env), Eval(db, hi, env));
    }
    FineMoves(db, role, neg, n, Paren(b));
  }

  function BetweenHalf(upper: bool, neg: bool, e: Node, lo: Node, hi: Node): Node {
    if upper then Binary(if neg then LT else GE, e, lo) else Binary(if neg then GT else LE, e, hi)
  }

  lemma BetweenValues(db: Db, upper: bool, neg: bool, a: Value, lo: Value, hi: Value)
    ensures Rel(Fine, neg, Flip(neg, Between3(db, a, lo, hi)),
                if upper then Compare(db, if neg then LT else GE, a, lo)
                    else Compare(db, if neg then GT else LE, a, hi))
  {
  }

  lemma ParenTruth(db: Db, e: Node, env: Env)
    ensures TruthAt(db, Paren(e), env) == TruthAt(db, e, env)
  {
  }

  lemma {:induction false} EvalAllAppend(db: Db, ns: seq<Node>, x: Node, env: Env)
    ensures EvalAll(db, ns + [x], env) == EvalAll(db, ns, env) + [Eval(db, x, env)]
  {
    if ns == [] {
      assert ns + [x] == [x] && [x][1..] == [];
    } else {
      EvalAllAppend(db, ns[1..], x, env);
      assert (ns + [x])[0] == ns[0] && (ns + [x])[1..] == ns[1..] + [x];
    }
  }

  lemma InListTruth(db: Db, neg: bool, e: Node, list: seq<Node>, env: Env)
    ensures TruthAt(db, InList(neg, e, list), env) == Flip(neg, Any3(db, EQ, Eval(db, e, env), EvalAll(db, list, env)))
  {
  }

  lemma InListMoves(db: Db, role: Role, neg: bool, e: Node, list: seq<Node>)
    requires role != RowSet
    ensures Moves(db, role, neg, InList(neg, e, list), InList(neg, e, list + [Lit(Null)]))
  {
    var n, n' := InList(neg, e, list), InList(neg, e, list + [Lit(Null)]);
    forall env ensures Rel(Fine, neg, TruthAt(db, n, env), TruthAt(db, n', env)) {
      InListTruth(db, neg, e, list, env);
      InListTruth(db, neg, e, list + [Lit(Null)], env);
      EvalAllAppend(db, list, Lit(Null), env);
      var a, vs := Eval(db, e, env), EvalAll(db, list, env);
      AnyMonotone(db, EQ, EQ, a, vs, vs + [Null]);
      FlipRel(Fine, false, neg, Any3(db, EQ, a, vs), Any3(db, EQ, a, vs + [Null]));
    }
    FineMoves(db, role, neg, n, n');
  }

  lemma LiteralTruth(db: Db, env: Env)
    ensures TruthAt(db, ONE, env) == True && TruthAt(db, ZERO, env) == False
  {
  }

  lemma LiteralMoves(db: Db, role: Role, n: Node)
    requires role != RowSet && !n.Nil?
    ensures Below(db, role, n, Paren(ONE)) && Below(db, role, Paren(ZERO), n)
  {
    forall env
      ensures Rel(Fine, false, TruthAt(db, n, env), TruthAt(db, Paren(ONE), env))
      ensures Rel(Fine, false, TruthAt(db, Paren(ZERO), env), TruthAt(db, n, env))
    {
      LiteralTruth(db, env);
      ParenTruth(db, ONE, env);
      ParenTruth(db, ZERO, env);
    }
    FineMoves(db, role, false, n, Paren(ONE));
    FineMoves(db, role, false, Paren(ZERO), n);
  }

  lemma LikeTruth(db: Db, neg: bool, s: string, p: string, env: Env)
    ensures TruthAt(db, Like(neg, Lit(Str(s)), Lit(Str(p))), env) == Flip(neg, Decide(Matches(db.sameChar, s, p)))
  {
    assert Text(db, Str(s)) == s && Text(db, Str(p)) == p;
    assert Eval(db, Lit(Str(s)), env) == Str(s) && Eval(db, Lit(Str(p)), env) == Str(p);
    assert Like3(db, Str(s), Str(p)) == Decide(Matches(db.sameChar, s, p));
  }

  lemma LikeMoves(db: Db, role: Role, neg: bool, s: string, p: string, q: string)
    requires role != RowSet && (Matches(db.sameChar, s, p) ==> Matches(db.sameChar, s, q))
    ensures Moves(db, role, neg, Like(neg, Lit(Str(s)), Lit(Str(p))), Like(neg, Lit(Str(s)), Lit(Str(q))))
  {
    var n, n' := Like(neg, Lit(Str(s)), Lit(Str(p))), Like(neg, Lit(Str(s)), Lit(Str(q)));
    forall env ensures Rel(Fine, neg, TruthAt(db, n, env), TruthAt(db, n', env)) {
      LikeTruth(db, neg, s, p, env);
      LikeTruth(db, neg, s, q, env);
    }
    FineMoves(db, role, neg, n, n');
  }

  // ---------------------------------------------------------------------------------------
  // Statements

  lemma HoldsLiteral(db: Db, c: Node)
    ensures HoldsBelow(db, c, ONE) && HoldsBelow(db, ZERO, c)
  {
    forall env ensures Holds(db, ONE, env) && !Holds(db, ZERO, env) {
      LiteralTruth(db, env);
    }
  }

  /** Changing WHERE or HAVING to a literal; GROUP BY and LIMIT must be gone. */
  lemma SelectLiteralMoves(db: Db, a: Node, b: Node)
    requires a.Select? && b.Select? && a.distinct == b.distinct && a.with == b.with && a.fields == b.fields
    requires !a.grouped && !b.grouped && a.limit.None? && b.limit.None? && a.from == b.from && a.after == b.after
    requires HoldsBelow(db, a.where, b.where) && HoldsBelow(db, a.having, b.having) && BindsKnown(db, a.with)
    ensures Below(db, RowSet, a, b)
  {
    SameRows(db, a.from);
    SelectBelow(db, a, b);
  }

  lemma DistinctMoves(db: Db, a: Node, b: Node)
    requires a.Select? && b.Select? && a.distinct && !b.distinct && a.with == b.with && a.fields == b.fields
    requires !a.grouped && !b.grouped && a.limit.None? && b.limit.None? && a.from == b.from && a.after == b.after
    requires a.where == b.where && a.having == b.having
    ensures Below(db, RowSet, a, b)
  {
    forall env ensures Within(Rows(db, a, env), Rows(db, b, env)) {
      SelectRows(db, a, env);
      SelectRows(db, b, env);
      var inner := Bind(db, a.with, env);
      SelectFnSame(db, a, b, inner);
      SameFlatMap(Rows(db, a.from, inner), SelectFn(db, a, inner), SelectFn(db, b, inner));
      DistinctWithin(FlatMap(Rows(db, a.from, inner), SelectFn(db, a, inner)));
    }
  }

  lemma SelectFnSame(db: Db, a: Node, b: Node, env: Env)
    requires a.Select? && b.Select? && a.fields == b.fields && a.where == b.where && a.having == b.having
    ensures forall r :: SelectFn(db, a, env)(r) == SelectFn(db, b, env)(r)
  {
  }

  /** Only how the element is attached changes; its own rows do not depend on that. */
  lemma AfterMoves(db: Db, a: Node, b: Node)
    requires a.Select? && b.Select? && a.distinct == b.distinct && a.with == b.with && a.fields == b.fields
    requires a.grouped == b.grouped && a.limit == b.limit && a.from == b.from
    requires a.where == b.where && a.having == b.having
    requires AfterAll(a) ==> AfterAll(b)
    requires !a.grouped && a.limit.None? && BindsKnown(db, a.with)
    ensures Below(db, RowSet, a, b)
  {
    SameRows(db, a.from);
    SameHolds(db, a.where);
    SameHolds(db, a.having);
    SelectBelow(db, a, b);
  }

  lemma OnMoves(db: Db, a: Node, b: Node)
    requires a.Join? && b.Join? && a.tp == b.tp == CrossJoin && a.left == b.left && a.right == b.right
    requires HoldsBelow(db, a.on, b.on)
    ensures Below(db, RowSet, a, b)
  {
    SameRows(db, a.left);
    SameRows(db, a.right);
    JoinBelow(db, a, b);
  }

  /** `A UNION ALL B` without B; the remaining element stands alone. */
  lemma RmUnionAllMoves(db: Db, after: Option<SetOp>, with: Node, a: Node, b: Node)
    requires AfterAll(b)
    ensures Below(db, RowSet, SetOprList(after, with, [a]), SetOprList(after, with, [a, b]))
  {
    var x, y := SetOprList(after, with, [a]), SetOprList(after, with, [a, b]);
    forall env ensures Within(Rows(db, x, env), Rows(db, y, env)) {
      var inner := Bind(db, with, env);
      ListRows(db, after, with, [a], env);
      ListRows(db, after, with, [a, b], env);
      TwoParts(db, a, b, inner);
    }
  }

  lemma TwoParts(db: Db, a: Node, b: Node, env: Env)
    requires AfterAll(b)
    ensures Within(Chain(Parts(db, [a], env)), Chain(Parts(db, [a, b], env)))
  {
    var p, q := Part(AfterAll(a), Rows(db, a, env)), Part(true, Rows(db, b, env));
    assert [a, b][1..] == [b] && [a][1..] == [] && [b][1..] == [];
    assert Parts(db, [b], env) == [q];
    assert Parts(db, [a, b], env) == [p, q] && Parts(db, [a], env) == [p];
    assert [p, q][..1] == [p];
    assert Chain([p]) == p.rows;
    assert Chain([p, q]) == p.rows + q.rows;
    assert multiset(p.rows + q.rows) == multiset(p.rows) + multiset(q.rows);
  }

  // ---------------------------------------------------------------------------------------
  // All of them

  /**
   What three kinds of rewrite need besides their own checks: `<=>` a position where only True
   matters, or sides that are NULL together; ALL/ANY a subquery that is never empty; LIKE a
   pattern whose escapes the rewrite does not break.
   */
  ghost predicate Suitable(db: Db, role: Role, m: Mut, n: Node) {
    match m
    case FixMNullEqToLowerL => n.Binary? && (role == Coarse || NullTogether(db, n.l, n.r))
    case FixMAllToAnyU => n.CompareSub? && NeverEmpty(db, n.r)
    case FixMAnyToAllL => n.CompareSub? && NeverEmpty(db, n.r)
    case RdMLikeU => LiteralLike(n) && OnlyPercentEscaped(n.pattern.v.s)
    case RdMLikeL => LiteralLike(n) && NoPercentEscaped(n.pattern.v.s)
    case _ => true
  }

  lemma OpMined(m: Mut, op: Op)
    ensures m in MineOp(op) <==> RewriteOp(m, op).Some?
    ensures RewriteOp(m, op).Some? ==> op in {GE, LE, EQ, NE, LT, GT}
    ensures RewriteOp(m, op).Some? ==> RewriteOp(m, op).value in {GE, LE, EQ, NE, LT, GT}
  {
  }

  lemma BinaryMoves(db: Db, role: Role, m: Mut, op: Op, l: Node, r: Node)
    requires role != RowSet && m in MineExpr(Binary(op, l, r)) && Suitable(db, role, m, Binary(op, l, r))
    ensures RewriteBinary(m, op, l, r).Some?
    ensures Moves(db, role, !Upper(m), Binary(op, l, r), RewriteBinary(m, op, l, r).value)
  {
    OpMined(m, op);
    if m == FixMNullEqToLowerL {
      assert op == NullEQ;
      NullEqMoves(db, role, l, r);
    } else {
      var op' := RewriteOp(m, op).value;
      RewriteOpWeaker(db, m, op);
      if Upper(m) {
        BinaryOpMoves(db, role, op, op', l, r);
      } else {
        BinaryOpMoves(db, role, op', op, l, r);
      }
    }
  }

  lemma CompareSubMoves(db: Db, role: Role, m: Mut, op: Op, all: bool, l: Node, r: Node)
    requires role != RowSet && m in MineExpr(CompareSub(op, all, l, r))
        && Suitable(db, role, m, CompareSub(op, all, l, r))
    ensures RewriteCompareSub(m, op, all, l, r).Some?
    ensures Moves(db, role, !Upper(m), CompareSub(op, all, l, r), RewriteCompareSub(m, op, all, l, r).value)
  {
    OpMined(m, op);
    if m == FixMAllToAnyU || m == FixMAnyToAllL {
      AllAnyMoves(db, role, op, l, r);
    } else {
      var op' := RewriteOp(m, op).value;
      RewriteOpWeaker(db, m, op);
      if Upper(m) {
        CompareSubOpMoves(db, role, op, op', all, l, r);
      } else {
        CompareSubOpMoves(db, role, op', op, all, l, r);
      }
    }
  }

  lemma LikeRewriteMoves(db: Db, role: Role, m: Mut, n: Node, coins: Coins)
    requires role != RowSet && n.Like? && m in MineExpr(n) && Suitable(db, role, m, n)
    ensures RewriteLike(m, n, coins).Some?
    ensures Moves(db, role, Upper(m) == n.neg, n, RewriteLike(m, n, coins).value)
  {
    var s, p := n.e.v.s, n.pattern.v.s;
    assert n == Like(n.neg, Lit(Str(s)), Lit(Str(p)));
    if m == RdMLikeU {
      if Matches(db.sameChar, s, p) {
        WidenMatches(db.sameChar, s, p, coins, 0);
      }
      LikeMoves(db, role, n.neg, s, p, Widen(p, coins, 0));
    } else {
      if Matches(db.sameChar, s, Narrow(p, coins, 0)) {
        NarrowMatches(db.sameChar, s, p, coins, 0);
      }
      LikeMoves(db, role, n.neg, s, Narrow(p, coins, 0), p);
      MovesBack(db, role, n.neg, RewriteLike(m, n, coins).value, n);
    }
  }

  lemma MovesBack(db: Db, role: Role, flip: bool, a: Node, b: Node)
    requires Moves(db, role, flip, a, b)
    ensures Moves(db, role, !flip, b, a)
  {
  }

  lemma RewriteExprMoves(db: Db, role: Role, m: Mut, n: Node, coins: Coins)
    requires role != RowSet && m in MineExpr(n) && Suitable(db, role, m, n)
    ensures Rewrite(m, n, coins).Some?
    ensures Moves(db, role, Upper(m) == LocalFlip(n), n, Rewrite(m, n, coins).value)
  {
    if n.Binary? {
      BinaryMoves(db, role, m, n.op, n.l, n.r);
    } else if n.CompareSub? {
      CompareSubMoves(db, role, m, n.op, n.all, n.l, n.r);
    } else if n.Like? {
      LikeRewriteMoves(db, role, m, n, coins);
    } else {
      TestRewriteMoves(db, role, m, n, coins);
    }
  }

  lemma TestRewriteMoves(db: Db, role: Role, m: Mut, n: Node, coins: Coins)
    requires role != RowSet && (n.Between? || n.InList? || n.IsNull?) && m in MineExpr(n)
    ensures Rewrite(m, n, coins).Some?
    ensures Moves(db, role, Upper(m) == LocalFlip(n), n, Rewrite(m, n, coins).value)
  {
    if n.Between? {
      BetweenMoves(db, role, n.neg, n.e, n.lo, n.hi, m, coins);
    } else if n.InList? {
      InListMoves(db, role, n.neg, n.e, n.list);
    } else {
      LiteralMoves(db, role, n);
    }
  }

  lemma ShapeMoves(db: Db, m: Mut, n: Node)
    requires n.Select? && Sound(RowSet, n) && BindsKnown(db, n.with)
    requires m in MineShape(n.distinct, !n.ordered && n.with.Nil?, n.after)
    ensures RewriteSelect(m, n).Some?
    ensures Moves(db, RowSet, !Upper(m), n, RewriteSelect(m, n).value)
  {
    assert m in {FixMDistinctU, FixMDistinctL, FixMUnionAllU, FixMUnionAllL};
    var n' := RewriteSelect(m, n).value;
    var lo, hi := if Upper(m) then n else n', if Upper(m) then n' else n;
    if m == FixMDistinctU || m == FixMDistinctL {
      DistinctMoves(db, lo, hi);
    } else {
      AfterMoves(db, lo, hi);
    }
  }

  lemma ClauseMoves(db: Db, m: Mut, n: Node)
    requires n.Select? && Sound(RowSet, n) && BindsKnown(db, n.with)
    requires m in MineClauses(!n.where.Nil?, !n.having.Nil?)
    ensures RewriteSelect(m, n).Some?
    ensures Moves(db, RowSet, !Upper(m), n, RewriteSelect(m, n).value)
  {
    assert m in {FixMWhere1U, FixMWhere0L, FixMHaving1U, FixMHaving0L};
    var n' := RewriteSelect(m, n).value;
    HoldsLiteral(db, n.where);
    HoldsLiteral(db, n.having);
    SameHolds(db, n.where);
    SameHolds(db, n.having);
    if Upper(m) {
      SelectLiteralMoves(db, n, n');
    } else {
      SelectLiteralMoves(db, n', n);
    }
  }

  lemma RewriteRowsMoves(db: Db, m: Mut, n: Node, coins: Coins)
    requires m in MineRows(n) && Sound(RowSet, n) && NamesKnown(db, n)
    ensures Rewrite(m, n, coins).Some?
    ensures Moves(db, RowSet, !Upper(m), n, Rewrite(m, n, coins).value)
  {
    if n.Select? {
      NamesBind(db, n, 3);
      if m in MineShape(n.distinct, !n.ordered && n.with.Nil?, n.after) {
        ShapeMoves(db, m, n);
      } else {
        ClauseMoves(db, m, n);
      }
    } else if n.Join? {
      JoinRewriteMoves(db, m, n);
    } else {
      ListRewriteMoves(db, m, n, coins);
    }
  }

  lemma JoinRewriteMoves(db: Db, m: Mut, n: Node)
    requires n.Join? && m in MineRows(n)
    ensures RewriteJoin(m, n).Some? && Moves(db, RowSet, !Upper(m), n, RewriteJoin(m, n).value)
  {
    var n' := RewriteJoin(m, n).value;
    HoldsLiteral(db, n.on);
    OnMoves(db, if Upper(m) then n else n', if Upper(m) then n' else n);
  }

  lemma ListRewriteMoves(db: Db, m: Mut, n: Node, coins: Coins)
    requires n.SetOprList? && m in MineRows(n)
    ensures Rewrite(m, n, coins).Some? && Moves(db, RowSet, !Upper(m), n, Rewrite(m, n, coins).value)
  {
    assert n == SetOprList(n.after, n.with, [n.selects[0], n.selects[1]]);
    RmUnionAllMoves(db, n.after, n.with, n.selects[0], n.selects[1]);
  }

  /** Every mutation moves its node up if it is a U, down if it is an L; NOT turns that around. */
  lemma RewriteMoves(db: Db, role: Role, m: Mut, n: Node, coins: Coins)
    requires m in Mine(role, n) && Suitable(db, role, m, n) && Sound(role, n) && NamesKnown(db, n)
    ensures Rewrite(m, n, coins).Some?
    ensures Moves(db, role, Upper(m) == LocalFlip(n), n, Rewrite(m, n, coins).value)
  {
    if role == RowSet {
      RewriteRowsMoves(db, m, n, coins);
    } else {
      RewriteExprMoves(db, role, m, n, coins);
    }
  }

  /** The clause the mutation sets to a constant is that constant already. */
  predicate ClauseIdle(m: Mut, n: Node) {
    if n.Select? then
      || (m == FixMWhere1U && n.where == ONE) || (m == FixMWhere0L && n.where == ZERO)
      || (m == FixMHaving1U && n.having == ONE) || (m == FixMHaving0L && n.having == ZERO)
    else
      n.Join? && ((m == FixMOn1U && n.on == ONE) || (m == FixMOn0L && n.on == ZERO))
  }

  /**
   No mutation is idle: it leaves its node as it was only if it is a LIKE rewrite whose coins all
   fell the other way, or sets a condition to a constant that it already was.
   */
  lemma NotIdle(role: Role, m: Mut, n: Node, coins: Coins)
    requires m in Mine(role, n) && Rewrite(m, n, coins) == Some(n)
    ensures m == RdMLikeU || m == RdMLikeL || ClauseIdle(m, n)
  {
    if n.InList? {
      NotIdleList(n);
    } else if n.Select? {
      NotIdleSelect(m, n);
    } else if n.Join? || n.SetOprList? {
      NotIdleTable(m, n, coins);
    } else {
      NotIdleExpr(m, n, coins);
    }
  }

  lemma NotIdleExpr(m: Mut, n: Node, coins: Coins)
    requires !n.InList? && !n.Select? && !n.Join? && !n.SetOprList? && m in MineExpr(n)
        && Rewrite(m, n, coins) == Some(n)
    ensures m == RdMLikeU || m == RdMLikeL
  {
    if n.Binary? || n.CompareSub? {
      NotIdleOp(m, n, coins);
    } else if n.Between? || n.IsNull? {
      NotIdleTest(m, n, coins);
    }
  }

  lemma NotIdleTest(m: Mut, n: Node, coins: Coins)
    requires n.Between? || n.IsNull?
    ensures Rewrite(m, n, coins) != Some(n)
  {
  }

  lemma NotIdleOp(m: Mut, n: Node, coins: Coins)
    requires n.Binary? || n.CompareSub?
    ensures Rewrite(m, n, coins) != Some(n)
  {
    OpMined(m, n.op);
    assert RewriteOp(m, n.op) != Some(n.op);
  }

  lemma NotIdleTable(m: Mut, n: Node, coins: Coins)
    requires (n.Join? || n.SetOprList?) && m in MineRows(n) && Rewrite(m, n, coins) == Some(n)
    ensures ClauseIdle(m, n)
  {
  }

  lemma NotIdleList(n: Node)
    requires n.InList?
    ensures InList(n.neg, n.e, n.list + [Lit(Null)]) != n
  {
    assert |n.list + [Lit(Null)]| != |n.list|;
  }

  lemma NotIdleSelect(m: Mut, n: Node)
    requires n.Select? && m in MineRows(n) && RewriteSelect(m, n) == Some(n)
    ensures ClauseIdle(m, n)
  {
  }
}
