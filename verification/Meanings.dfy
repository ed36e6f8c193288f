/**
 What each mutated node says, put in terms of the node it was made from: comparisons, tests, rows.
 Together with `Offered` this fixes which mutation is offered where, and what it writes.
 */
module Meanings {
  import opened Sql
  import opened Containment
  import opened Steps
  import opened Polarity
  import opened LikePattern
  import opened Mutation

  // ---------------------------------------------------------------------------------------
  // Comparisons

  /** The comparison a mutation is to write in the place of `a op b`, if it applies to `op`. */
  function Says(db: Db, m: Mut, op: Op, a: Value, b: Value): Option<Truth> {
    match (m, op)
    case (FixMCmpOpU, LT) => Some(Or3(Compare(db, LT, a, b), Compare(db, EQ, a, b)))
    case (FixMCmpOpU, GT) => Some(Or3(Compare(db, GT, a, b), Compare(db, EQ, a, b)))
    case (FixMCmpOpU, EQ) => Some(Or3(Compare(db, EQ, a, b), Compare(db, GT, a, b)))
    case (FixMCmpOpULE, EQ) => Some(Or3(Compare(db, EQ, a, b), Compare(db, LT, a, b)))
    case (FixMCmpOpL, LE) => Some(And3(Compare(db, LE, a, b), Not3(Compare(db, EQ, a, b))))
    case (FixMCmpOpL, GE) => Some(And3(Compare(db, GE, a, b), Not3(Compare(db, EQ, a, b))))
    case _ => None
  }

  predicate IsCmp(m: Mut) {
    m == FixMCmpOpU || m == FixMCmpOpULE || m == FixMCmpOpL
  }

  /**
   `<` and `>` are relaxed by `=`, `=` by `>` or by `<`; `<=` and `>=` lose `=`. Whatever is Unknown
   stays so, and no other operator is touched.
   */
  lemma OperatorMeaning(db: Db, m: Mut, op: Op, a: Value, b: Value)
    requires IsCmp(m)
    ensures RewriteOp(m, op).Some? <==> Says(db, m, op, a, b).Some?
    ensures RewriteOp(m, op).Some? ==> Compare(db, RewriteOp(m, op).value, a, b) == Says(db, m, op, a, b).value
    ensures RewriteOp(m, op).Some? && (a == Null || b == Null) ==> Says(db, m, op, a, b) == Some(Unknown)
  {
  }

  /** A comparison stays one of the same operands, and says what it is to say. */
  lemma CompareMeaning(db: Db, m: Mut, op: Op, l: Node, r: Node, coins: Coins, env: Env)
    requires IsCmp(m)
    ensures var says := Says(db, m, op, Eval(db, l, env), Eval(db, r, env));
            match Rewrite(m, Binary(op, l, r), coins)
            case None => says.None?
            case Some(x) => x.Binary? && x.l == l && x.r == r && says == Some(TruthAt(db, x, env))
  {
    OperatorMeaning(db, m, op, Eval(db, l, env), Eval(db, r, env));
    CompareRewritten(m, op, l, r, coins);
    if RewriteOp(m, op).Some? {
      OpMined(m, op);
      CompareTruth(db, RewriteOp(m, op).value, l, r, env);
    }
  }

  lemma CompareRewritten(m: Mut, op: Op, l: Node, r: Node, coins: Coins)
    requires IsCmp(m)
    ensures Rewrite(m, Binary(op, l, r), coins)
         == if RewriteOp(m, op).Some? then Some(Binary(RewriteOp(m, op).value, l, r)) else None
  {
  }

  /** So does a comparison with ALL or ANY, against each value. */
  lemma QuantifiedMeaning(db: Db, m: Mut, op: Op, all: bool, l: Node, r: Node, coins: Coins, a: Value, b: Value)
    requires IsCmp(m)
    ensures match Rewrite(m, CompareSub(op, all, l, r), coins)
            case None => Says(db, m, op, a, b).None?
            case Some(x) => x == CompareSub(x.op, all, l, r) && Says(db, m, op, a, b) == Some(Compare(db, x.op, a, b))
  {
    OperatorMeaning(db, m, op, a, b);
  }

  /** `<=>` becomes a comparison that is Unknown where one side is NULL, and the same elsewhere. */
  lemma NullEqMeaning(db: Db, op: Op, l: Node, r: Node, coins: Coins, env: Env)
    ensures match Rewrite(FixMNullEqToLowerL, Binary(op, l, r), coins)
            case None => op != NullEQ
            case Some(x) =>
              var was := TruthAt(db, Binary(op, l, r), env);
              op == NullEQ && x.Binary? && x.l == l && x.r == r
              && TruthAt(db, x, env) == NullUnknown(Eval(db, l, env), Eval(db, r, env), was)
  {
    NullEqRewritten(op, l, r, coins);
    if op == NullEQ {
      NullEqTruth(db, l, r, env);
    }
  }

  function NullUnknown(a: Value, b: Value, t: Truth): Truth {
    if a == Null || b == Null then Unknown else t
  }

  lemma NullEqRewritten(op: Op, l: Node, r: Node, coins: Coins)
    ensures Rewrite(FixMNullEqToLowerL, Binary(op, l, r), coins)
         == if op == NullEQ then Some(Binary(EQ, l, r)) else None
  {
  }

  lemma NullEqTruth(db: Db, l: Node, r: Node, env: Env)
    ensures TruthAt(db, Binary(EQ, l, r), env)
         == NullUnknown(Eval(db, l, env), Eval(db, r, env), TruthAt(db, Binary(NullEQ, l, r), env))
  {
    CompareTruth(db, EQ, l, r, env);
    CompareTruth(db, NullEQ, l, r, env);
  }

  /** ALL becomes ANY and ANY becomes ALL, of the same values. */
  lemma AllAnyMeaning(db: Db, m: Mut, op: Op, all: bool, l: Node, r: Node, coins: Coins, env: Env)
    requires m == FixMAllToAnyU || m == FixMAnyToAllL
    ensures var a, vs := Eval(db, l, env), FirstColumn(Rows(db, r, env));
            match Rewrite(m, CompareSub(op, all, l, r), coins)
            case None => all != (m == FixMAllToAnyU)
            case Some(x) =>
              && all == (m == FixMAllToAnyU)
              && TruthAt(db, x, env) == if all then Any3(db, op, a, vs) else All3(db, op, a, vs)
  {
    CompareSubTruth(db, op, !all, l, r, env);
  }

  // ---------------------------------------------------------------------------------------
  // Tests

  /** Without its upper bound BETWEEN only asks for `>=` of the lower one, and the other way round. */
  lemma BetweenMeaning(db: Db, m: Mut, neg: bool, e: Node, lo: Node, hi: Node, coins: Coins, env: Env)
    ensures match Rewrite(m, Between(neg, e, lo, hi), coins)
            case None => m != FixMBetweenDropUpperU && m != FixMBetweenDropLowerU
            case Some(x) =>
              || (m == FixMBetweenDropUpperU
                  && TruthAt(db, x, env) == Flip(neg, Compare(db, GE, Eval(db, e, env), Eval(db, lo, env))))
              || (m == FixMBetweenDropLowerU
                  && TruthAt(db, x, env) == Flip(neg, Compare(db, LE, Eval(db, e, env), Eval(db, hi, env))))
  {
    BetweenRewritten(m, neg, e, lo, hi, coins);
    HalfTruth(db, true, neg, e, lo, hi, env);
    HalfTruth(db, false, neg, e, lo, hi, env);
  }

  lemma BetweenRewritten(m: Mut, neg: bool, e: Node, lo: Node, hi: Node, coins: Coins)
    ensures Rewrite(m, Between(neg, e, lo, hi), coins)
         == if m == FixMBetweenDropUpperU || m == FixMBetweenDropLowerU
            then Some(Paren(BetweenHalf(m == FixMBetweenDropUpperU, neg, e, lo, hi))) else None
  {
  }

  lemma HalfTruth(db: Db, upper: bool, neg: bool, e: Node, lo: Node, hi: Node, env: Env)
    ensures TruthAt(db, Paren(BetweenHalf(upper, neg, e, lo, hi)), env)
         == Flip(neg, if upper then Compare(db, GE, Eval(db, e, env), Eval(db, lo, env))
                      else Compare(db, LE, Eval(db, e, env), Eval(db, hi, env)))
  {
    var half := BetweenHalf(upper, neg, e, lo, hi);
    ParenTruth(db, half, env);
    CompareTruth(db, half.op, half.l, half.r, env);
    OppositeOps(db, half.op, Eval(db, half.l, env), Eval(db, half.r, env));
  }

  lemma OppositeOps(db: Db, op: Op, a: Value, b: Value)
    ensures op == LT ==> Compare(db, op, a, b) == Not3(Compare(db, GE, a, b))
    ensures op == GT ==> Compare(db, op, a, b) == Not3(Compare(db, LE, a, b))
  {
  }

  /** With NULL in the list IN is never False. */
  lemma InListMeaning(db: Db, m: Mut, neg: bool, e: Node, list: seq<Node>, coins: Coins, env: Env)
    ensures match Rewrite(m, InList(neg, e, list), coins)
            case None => m != FixMInNullU
            case Some(x) =>
              m == FixMInNullU
              && TruthAt(db, x, env) == Flip(neg, Or3(Any3(db, EQ, Eval(db, e, env), EvalAll(db, list, env)), Unknown))
  {
    InListRewritten(m, neg, e, list, coins);
    InListTruth(db, neg, e, list + [Lit(Null)], env);
    EvalAllAppend(db, list, Lit(Null), env);
    AnyWithNull(db, Eval(db, e, env), EvalAll(db, list, env));
  }

  lemma InListRewritten(m: Mut, neg: bool, e: Node, list: seq<Node>, coins: Coins)
    ensures Rewrite(m, InList(neg, e, list), coins)
         == if m == FixMInNullU then Some(InList(neg, e, list + [Lit(Null)])) else None
  {
  }

  lemma {:induction false} AnyWithNull(db: Db, a: Value, vs: seq<Value>)
    ensures Any3(db, EQ, a, vs + [Null]) == Or3(Any3(db, EQ, a, vs), Unknown)
  {
    if vs == [] {
      assert vs + [Null] == [Null] && [Null][1..] == [];
      assert Any3(db, EQ, a, [Null]) == Or3(Compare(db, EQ, a, Null), False);
    } else {
      AnyWithNull(db, a, vs[1..]);
      assert (vs + [Null])[1..] == vs[1..] + [Null];
    }
  }

  /** IS NULL is set to False, IS NOT NULL to True. */
  lemma IsNullMeaning(db: Db, m: Mut, neg: bool, e: Node, coins: Coins, env: Env)
    ensures match Rewrite(m, IsNull(neg, e), coins)
            case None => m != FixMIsNullToFalseL && m != FixMIsNotNullToTrueU
            case Some(x) =>
              || (m == FixMIsNullToFalseL && TruthAt(db, x, env) == False)
              || (m == FixMIsNotNullToTrueU && TruthAt(db, x, env) == True)
  {
    LiteralTruth(db, env);
    ParenTruth(db, ONE, env);
    ParenTruth(db, ZERO, env);
  }

  /** How many characters of `p` are percent signs, or are not. */
  function CountPercent(p: string, percent: bool): nat {
    if p == [] then 0 else CountPercent(p[..|p| - 1], percent) + if (p[|p| - 1] == '%') == percent then 1 else 0
  }

  lemma {:induction false} DrawsCount(p: string, widening: bool)
    ensures Draws(p, widening) == CountPercent(p, !widening)
  {
    if p != [] {
      var k := |p| - 1;
      DrawsCount(p[..k], widening);
      DrawsLast(p[..k], p[k], widening);
      assert p == p[..k] + [p[k]];
    }
  }

  lemma DrawsLast(a: string, c: char, widening: bool)
    ensures Draws(a + [c], widening) == Draws(a, widening) + if (c == '%') != widening then 1 else 0
  {
    if widening {
      WidenSnoc(a, c, _ => false, 0);
    } else {
      NarrowSnoc(a, c, _ => false, 0);
    }
  }

  /** What the rewrite is to put in the place of one character. */
  function Rewritten(m: Mut, c: char, coin: bool): char {
    if !coin then c else if m == RdMLikeU then '%' else '_'
  }

  /**
   A LIKE rewrite keeps the pattern's length. One coin is tossed for each character that may change:
   those other than `%`, which become `%`, or the percent signs, which become `_`.
   */
  predicate RewrittenText(m: Mut, p: string, q: string, coins: Coins) {
    |q| == |p| && forall i :: 0 <= i < |p| ==>
      var open := (p[i] == '%') == (m == RdMLikeL);
      q[i] == Rewritten(m, p[i], open && coins(CountPercent(p[..i], m == RdMLikeL)))
  }

  lemma {:induction false} WidenText(p: string, coins: Coins)
    ensures RewrittenText(RdMLikeU, p, Widen(p, coins, 0), coins)
  {
    if p != [] {
      var k := |p| - 1;
      WidenText(p[..k], coins);
      WidenSnoc(p[..k], p[k], coins, 0);
      DrawsCount(p[..k], true);
      assert p == p[..k] + [p[k]];
      assert forall i :: 0 <= i < k ==> p[..k][..i] == p[..i];
    }
  }

  lemma {:induction false} NarrowText(p: string, coins: Coins)
    ensures RewrittenText(RdMLikeL, p, Narrow(p, coins, 0), coins)
  {
    if p != [] {
      var k := |p| - 1;
      NarrowText(p[..k], coins);
      NarrowSnoc(p[..k], p[k], coins, 0);
      DrawsCount(p[..k], false);
      assert p == p[..k] + [p[k]];
      assert forall i :: 0 <= i < k ==> p[..k][..i] == p[..i];
    }
  }

  /** LIKE is rewritten between literals only, if there is a character to rewrite. */
  lemma LikeMeaning(m: Mut, n: Node, coins: Coins)
    requires n.Like? && (m == RdMLikeU || m == RdMLikeL)
    ensures match Rewrite(m, n, coins)
            case None => !LiteralLike(n) || forall c :: c in n.pattern.v.s ==> (c == '%') == (m == RdMLikeU)
            case Some(x) =>
              && LiteralLike(n) && LiteralLike(x) && x.neg == n.neg && x.e == n.e
              && RewrittenText(m, n.pattern.v.s, x.pattern.v.s, coins)
              && exists c :: c in n.pattern.v.s && (c == '%') == (m == RdMLikeL)
  {
    if LiteralLike(n) {
      var p := n.pattern.v.s;
      WidenText(p, coins);
      NarrowText(p, coins);
      if CheckLikeU(n) {
        var i :| 0 <= i < |p| && p[i] != '%';
        assert p[i] in p;
      }
      if CheckLikeL(n) {
        var i :| 0 <= i < |p| && p[i] == '%';
        assert p[i] in p;
      }
    }
  }

  // ---------------------------------------------------------------------------------------
  // Rows

  lemma SameSelects(db: Db, a: Node, b: Node, env: Env)
    requires a.Select? && b.Select? && Sound(RowSet, a) && Sound(RowSet, b) && a.from == b.from && a.with == b.with
    requires forall r :: SelectFn(db, a, Bind(db, a.with, env))(r) == SelectFn(db, b, Bind(db, a.with, env))(r)
    ensures b.distinct ==> Rows(db, b, env) == Distinct(BeforeDistinct(db, a, env))
    ensures !b.distinct ==> Rows(db, b, env) == BeforeDistinct(db, a, env)
  {
    var inner := Bind(db, a.with, env);
    SelectRows(db, b, env);
    SameFlatMap(Rows(db, a.from, inner), SelectFn(db, a, inner), SelectFn(db, b, inner));
  }

  /** The rows of a SELECT before DISTINCT. */
  function BeforeDistinct(db: Db, n: Node, env: Env): seq<Row>
    requires n.Select?
  {
    FlatMap(Rows(db, n.from, Bind(db, n.with, env)), SelectFn(db, n, Bind(db, n.with, env)))
  }

  /** DISTINCT goes, or comes: the rows with it are those without it, each once. */
  lemma DistinctMeaning(db: Db, m: Mut, n: Node, coins: Coins, env: Env)
    requires n.Select? && Sound(RowSet, n) && (m == FixMDistinctU || m == FixMDistinctL)
    ensures match Rewrite(m, n, coins)
            case None => n.distinct != (m == FixMDistinctU)
            case Some(x) =>
              && n.distinct == (m == FixMDistinctU) && (AfterAll(x) <==> AfterAll(n))
              && (n.distinct ==> Rows(db, n, env) == Distinct(Rows(db, x, env)))
              && (!n.distinct ==> Rows(db, x, env) == Distinct(Rows(db, n, env)))
  {
    match Rewrite(m, n, coins)
    case None =>
    case Some(x) =>
      SelectFnSame(db, n, x, Bind(db, n.with, env));
      SelectFnSame(db, n, n, Bind(db, n.with, env));
      SameSelects(db, n, n, env);
      SameSelects(db, n, x, env);
  }

  /** UNION becomes UNION ALL, or the other way round; the element's own rows stay. */
  lemma UnionMeaning(db: Db, m: Mut, n: Node, coins: Coins, env: Env)
    requires n.Select? && Sound(RowSet, n) && (m == FixMUnionAllU || m == FixMUnionAllL)
    ensures match Rewrite(m, n, coins)
            case None => n.after != Some(if m == FixMUnionAllU then Union else UnionAll)
            case Some(x) =>
              && n.after == Some(if m == FixMUnionAllU then Union else UnionAll)
              && (AfterAll(x) <==> m == FixMUnionAllU) && Rows(db, x, env) == Rows(db, n, env)
  {
    match Rewrite(m, n, coins)
    case None =>
    case Some(x) =>
      SelectFnSame(db, n, x, Bind(db, n.with, env));
      SelectFnSame(db, n, n, Bind(db, n.with, env));
      SameSelects(db, n, n, env);
      SameSelects(db, n, x, env);
  }

  /** The SELECT without its WHERE, or without its HAVING. */
  function Unfiltered(n: Node, having: bool): Node
    requires n.Select?
  {
    Select(n.distinct, n.ordered, n.grouped, n.limit, n.after, n.from, if having then n.where else Nil,
           if having then Nil else n.having, n.with, n.fields)
  }

  predicate IsClause(m: Mut) {
    m == FixMWhere1U || m == FixMWhere0L || m == FixMHaving1U || m == FixMHaving0L
  }

  /** A condition set to 1 is as if it were absent, one set to 0 leaves no rows. */
  lemma ClauseMeaning(db: Db, m: Mut, n: Node, coins: Coins, env: Env)
    requires n.Select? && Sound(RowSet, n) && IsClause(m)
    ensures var having := m == FixMHaving1U || m == FixMHaving0L;
            match Rewrite(m, n, coins)
            case None => if having then n.having.Nil? else n.where.Nil?
            case Some(x) =>
              && !(if having then n.having.Nil? else n.where.Nil?) && (AfterAll(x) <==> AfterAll(n))
              && Rows(db, x, env) == if Upper(m) then Rows(db, Unfiltered(n, having), env) else []
  {
    match RewriteSelect(m, n)
    case None =>
    case Some(x) =>
      if Upper(m) {
        TrueClause(db, n, x, m == FixMHaving1U, env);
      } else {
        FalseClause(db, n, x, env);
      }
  }

  lemma TrueClause(db: Db, n: Node, x: Node, having: bool, env: Env)
    requires n.Select? && x.Select? && Sound(RowSet, n) && Sound(RowSet, x)
    requires x.distinct == n.distinct && x.from == n.from && x.with == n.with && x.fields == n.fields
    requires x.where == (if having then n.where else ONE) && x.having == (if having then ONE else n.having)
    ensures Rows(db, x, env) == Rows(db, Unfiltered(n, having), env)
  {
    var y, inner := Unfiltered(n, having), Bind(db, n.with, env);
    forall r ensures SelectFn(db, x, inner)(r) == SelectFn(db, y, inner)(r) {
      LiteralTruth(db, Push(inner, r));
    }
    SameSelects(db, x, y, env);
    SelectFnSame(db, x, x, inner);
    SameSelects(db, x, x, env);
  }

  lemma FalseClause(db: Db, n: Node, x: Node, env: Env)
    requires n.Select? && x.Select? && Sound(RowSet, x) && (x.where == ZERO || x.having == ZERO)
    ensures Rows(db, x, env) == []
  {
    var inner := Bind(db, x.with, env);
    forall r ensures SelectFn(db, x, inner)(r) == [] {
      LiteralTruth(db, Push(inner, r));
    }
    FlatMapEmpty(Rows(db, x.from, inner), SelectFn(db, x, inner));
    SelectRows(db, x, env);
  }

  function Unconditional(n: Node): Node
    requires n.Join?
  {
    Join(n.tp, n.left, n.right, Nil, n.leftWidth, n.rightWidth)
  }

  lemma OnMeaning(db: Db, m: Mut, n: Node, coins: Coins, env: Env)
    requires n.Join? && n.tp == CrossJoin && (m == FixMOn1U || m == FixMOn0L)
    ensures match Rewrite(m, n, coins)
            case None => n.on.Nil?
            case Some(x) => !n.on.Nil? && Rows(db, x, env) == if Upper(m) then Rows(db, Unconditional(n), env) else []
  {
    match RewriteJoin(m, n)
    case None =>
    case Some(x) =>
      if Upper(m) {
        TrueJoin(db, n, x, env);
      } else {
        FalseJoin(db, x, env);
      }
  }

  lemma TrueJoin(db: Db, n: Node, x: Node, env: Env)
    requires n.Join? && x.Join? && x.tp == n.tp == CrossJoin && x.on == ONE && x.left == n.left && x.right == n.right
    ensures Rows(db, x, env) == Rows(db, Unconditional(n), env)
  {
    var y := Unconditional(n);
    JoinRows(db, x, env);
    JoinRows(db, y, env);
    forall l ensures CrossFn(db, x, env)(l) == CrossFn(db, y, env)(l) {
      OnTrue(db, x, y, env, l);
    }
    SameFlatMap(Rows(db, n.left, env), CrossFn(db, x, env), CrossFn(db, y, env));
  }

  lemma FalseJoin(db: Db, x: Node, env: Env)
    requires x.Join? && x.tp == CrossJoin && x.on == ZERO
    ensures Rows(db, x, env) == []
  {
    JoinRows(db, x, env);
    forall l ensures CrossFn(db, x, env)(l) == [] {
      OnFalse(db, x, env, l);
    }
    FlatMapEmpty(Rows(db, x.left, env), CrossFn(db, x, env));
  }

  lemma OnTrue(db: Db, x: Node, y: Node, env: Env, l: Row)
    requires x.Join? && y.Join? && x.on == ONE && y.on.Nil? && x.right == y.right
    ensures CrossFn(db, x, env)(l) == CrossFn(db, y, env)(l)
  {
    forall r ensures OnFn(db, x, env, l)(r) == OnFn(db, y, env, l)(r) {
      LiteralTruth(db, Push(env, l + r));
    }
    SameFlatMap(Rows(db, x.right, env), OnFn(db, x, env, l), OnFn(db, y, env, l));
  }

  lemma OnFalse(db: Db, x: Node, env: Env, l: Row)
    requires x.Join? && x.on == ZERO
    ensures CrossFn(db, x, env)(l) == []
  {
    forall r ensures OnFn(db, x, env, l)(r) == [] {
      LiteralTruth(db, Push(env, l + r));
    }
    FlatMapEmpty(Rows(db, x.right, env), OnFn(db, x, env, l));
  }

  /** Of a set operation only the first element is left. */
  lemma RmUnionAllMeaning(db: Db, n: Node, coins: Coins, env: Env)
    requires n.SetOprList?
    ensures match Rewrite(FixMRmUnionAllL, n, coins)
            case None => |n.selects| < 2
            case Some(x) => |n.selects| >= 2 && Rows(db, x, env) == Rows(db, n.selects[0], Bind(db, n.with, env))
  {
    if |n.selects| >= 2 {
      ListRows(db, n.after, n.with, [n.selects[0]], env);
      PartsAt(db, [n.selects[0]], Bind(db, n.with, env), 0);
    }
  }

  // ---------------------------------------------------------------------------------------
  // What is offered

  predicate IsTest(n: Node) {
    n.Binary? || n.CompareSub? || n.Between? || n.InList? || n.IsNull? || n.Like?
  }

  /** What the visitor asks for beyond what the rewrite itself checks. */
  predicate Asked(m: Mut, n: Node) {
    && (n.Select? && m == FixMDistinctL ==> !n.ordered && n.with.Nil?)
    && (n.Join? ==> n.tp == CrossJoin)
    && (n.SetOprList? ==> |n.selects| == 2 && n.selects[1].Select? && AfterAll(n.selects[1]))
    && (n.IsNull? ==> n.neg == (m == FixMIsNotNullToTrueU))
  }

  /**
   A visited node offers exactly the mutations whose rewrite goes through on it, but that a join must
   be inner, DISTINCT comes only to a SELECT without ORDER BY and WITH, UNION ALL is cut off only at
   the second of two elements, and IS [NOT] NULL has one mutation each.
   */
  lemma Offered(role: Role, m: Mut, n: Node, coins: Coins)
    ensures m in Mine(role, n)
       <==> && (if role == RowSet then n.Select? || n.Join? || n.SetOprList? else IsTest(n))
            && Rewrite(m, n, coins).Some? && Asked(m, n)
  {
    if role == RowSet {
      if n.Select? {
        OfferedSelect(m, n);
      }
    } else if n.Binary? || n.CompareSub? {
      OfferedOp(m, n, coins);
    } else {
      OfferedTest(m, n, coins);
    }
  }

  lemma OfferedSelect(m: Mut, n: Node)
    requires n.Select?
    ensures m in MineRows(n) <==> RewriteSelect(m, n).Some? && Asked(m, n)
  {
    if IsClause(m) {
      OfferedClause(m, n);
    } else {
      OfferedShape(m, n);
    }
    InBoth(m, MineShape(n.distinct, !n.ordered && n.with.Nil?, n.after), MineClauses(!n.where.Nil?, !n.having.Nil?));
  }

  lemma InBoth(m: Mut, a: seq<Mut>, b: seq<Mut>)
    ensures m in a + b <==> m in a || m in b
  {
  }

  lemma OfferedClause(m: Mut, n: Node)
    requires n.Select? && IsClause(m)
    ensures m !in MineShape(n.distinct, !n.ordered && n.with.Nil?, n.after)
    ensures m in MineClauses(!n.where.Nil?, !n.having.Nil?) <==> RewriteSelect(m, n).Some?
  {
  }

  lemma OfferedShape(m: Mut, n: Node)
    requires n.Select? && !IsClause(m)
    ensures m !in MineClauses(!n.where.Nil?, !n.having.Nil?)
    ensures m in MineShape(n.distinct, !n.ordered && n.with.Nil?, n.after) <==> RewriteSelect(m, n).Some? && Asked(m, n)
  {
  }

  lemma OfferedOp(m: Mut, n: Node, coins: Coins)
    requires n.Binary? || n.CompareSub?
    ensures m in MineExpr(n) <==> Rewrite(m, n, coins).Some?
  {
    OpMined(m, n.op);
  }

  lemma OfferedTest(m: Mut, n: Node, coins: Coins)
    requires !n.Binary? && !n.CompareSub?
    ensures m in MineExpr(n) <==> IsTest(n) && Rewrite(m, n, coins).Some? && Asked(m, n)
  {
  }
}
