/**
 Where the visitor goes and what the flag it carries is to mean: which children it enters from a
 node, whether it flips its flag on the way, and which steps keep the meaning of the flag.
 */
module Steps {
  import opened Sql
  import opened Containment

  /**
   What counts as "higher" at a position. Inside conditions it is the order False < Unknown < True;
   where only True matters a coarser order is enough: True at the bottom implies True at the top.
   Tables and statements are compared by their rows.
   */
  datatype Role = Fine | Coarse | RowSet

  /** `a` is at most as high as `b`, in one of the two orders for conditions; with `flip`, at least. */
  predicate Rel(role: Role, flip: bool, a: Truth, b: Truth) {
    var lo, hi := if flip then b else a, if flip then a else b;
    if role == Fine then Implies3(lo, hi) else lo == True ==> hi == True
  }

  function TruthAt(db: Db, n: Node, env: Env): Truth {
    ToTruth(db, Eval(db, n, env))
  }

  lemma TruthBack(db: Db, t: Truth)
    ensures ToTruth(db, FromTruth(t)) == t
  {
  }

  /** `m'` is at least as high as `m`, whatever the rows and the common table expressions in scope. */
  ghost predicate Below(db: Db, role: Role, m: Node, m': Node) {
    match role
    case Fine =>
      !m.Nil? && !m'.Nil? && forall env :: Known(db, env) ==> Implies3(TruthAt(db, m, env), TruthAt(db, m', env))
    case Coarse =>
      && !m.Nil? && !m'.Nil?
      && forall env :: Known(db, env) && TruthAt(db, m, env) == True ==> TruthAt(db, m', env) == True
    case RowSet =>
      && (AfterAll(m) ==> AfterAll(m'))
      && forall env :: Known(db, env) ==> Within(Rows(db, m, env), Rows(db, m', env))
  }

  // One step of the visitor from a node to a child.
  datatype Hop = Stop | Go(role: Role, flip: bool)

  /** The nodes visitResultSetNode has a case for (tables named directly are skipped). */
  predicate IsResultSet(n: Node) {
    n.Select? || n.Subquery? || n.TableSource? || n.Join? || n.SetOprStmt?
  }

  /** Does the visitor, at `n`, enter the `i`-th child? With the flag flipped? */
  function Step(role: Role, n: Node, i: nat): Hop
    requires i < |Kids(n)|
  {
    if role == RowSet then StepRows(n, i) else StepExpr(role, n, i)
  }

  function StepRows(n: Node, i: nat): Hop
    requires i < |Kids(n)|
  {
    match n
    case Select(_, _, _, _, _, from, where, having, with, _) =>
      if i == 0 then (if from.Join? then Go(RowSet, false) else Stop)
      else if i == 1 || i == 2 then (if Kids(n)[i].Nil? then Stop else Go(Coarse, false))
      else if i == 3 then EnterWith(with)
      else Stop
    case Join(tp, _, _, on, _, _) =>
      if tp != CrossJoin then Stop
      else if i == 2 then (if on.Nil? then Stop else Go(Coarse, false))
      else EnterResultSet(Kids(n)[i])
    case Subquery(query) => EnterResultSet(query)
    case TableSource(source) => EnterResultSet(source)
    case SetOprStmt(_, selectList, _) => if i == 0 && selectList.SetOprList? then Go(RowSet, false) else Stop
    case SetOprList(_, with, _) =>
      if i == 0 then EnterWith(with)
      else if Kids(n)[i].SetOprList? || Kids(n)[i].Select? then Go(RowSet, false) else Stop
    case With(_, ctes) => if ctes[i].Cte? then Go(RowSet, false) else Stop
    case Cte(_, query) => if query.Subquery? then Go(RowSet, false) else Stop
    case _ => Stop
  }

  function EnterResultSet(n: Node): Hop {
    if IsResultSet(n) then Go(RowSet, false) else Stop
  }

  function EnterWith(n: Node): Hop {
    if n.With? && !n.recursive then Go(RowSet, false) else Stop
  }

  function StepExpr(role: Role, n: Node, i: nat): Hop
    requires i < |Kids(n)| && role != RowSet
  {
    if Enterable(n, i) then Way(role, n, i) else Stop
  }

  /** Where an expression lets the visitor through, and how, if the child is there to be entered. */
  function Way(role: Role, n: Node, i: nat): Hop
    requires role != RowSet
  {
    match n
    case Binary(op, _, _) => if op == LogicAnd || op == LogicOr then Go(role, false) else Stop
    case Paren(_) => Go(role, false)
    case Not(_) => Go(Fine, true)
    case IsTruth(neg, isTrue, _) => Go(if isTrue then Coarse else Fine, neg == isTrue)
    case Exists(neg, _) => Go(RowSet, neg)
    case InSub(neg, _, _) => if i == 1 then Go(RowSet, neg) else Stop
    case CompareSub(_, all, _, _) => if i == 1 then Go(RowSet, all) else Stop
    case Subquery(_) => Go(RowSet, false)
    case Func(_, _) => Go(Fine, false)
    case Cast(_, _) => Go(Fine, false)
    case _ => Stop
  }

  predicate Enterable(n: Node, i: nat)
    requires i < |Kids(n)|
  {
    var kid := Kids(n)[i];
    if n.Exists? || n.InSub? || n.CompareSub? then kid.Subquery?
    else if n.Subquery? then IsResultSet(kid)
    else !kid.Nil?
  }

  /**
   The steps on which the flag keeps its meaning. Not among them: the arguments of casts and of
   functions (but for the wrapper that stage 1 leaves around a replaced one), a subquery used as a
   value, common table expressions, and statements that still have GROUP BY or LIMIT.
   */
  predicate Sound(role: Role, n: Node) {
    if role == RowSet then
      match n
      case Select(_, _, grouped, limit, _, _, _, _, _, _) => !grouped && limit.None?
      case SetOprStmt(limit, _, _) => limit.None?
      case With(_, _) => false
      case Cte(_, _) => false
      case _ => true
    else
      !n.Subquery? && !n.Cast? && (n.Func? ==> n.name == "" && |n.args| == 1)
  }

  /** The visitor's way from `n` down the path: how it ends, and whether the flag has flipped. */
  function Trail(role: Role, n: Node, p: Path): Hop
    requires ValidPath(n, p)
    decreases p
  {
    if p == [] then Go(role, false)
    else
      match Step(role, n, p[0])
      case Stop => Stop
      case Go(r, f) => Follow(f, Trail(r, Kids(n)[p[0]], p[1..]))
  }

  function Follow(flip: bool, rest: Hop): Hop {
    match rest case Stop => Stop case Go(r, f) => Go(r, flip != f)
  }

  lemma TrailUnfold(role: Role, n: Node, i: nat, q: Path)
    requires i < |Kids(n)| && ValidPath(Kids(n)[i], q)
    ensures ValidPath(n, [i] + q) && At(n, [i] + q) == At(Kids(n)[i], q)
    ensures var hop := Step(role, n, i);
            Trail(role, n, [i] + q) == if hop.Stop? then Stop else Follow(hop.flip, Trail(hop.role, Kids(n)[i], q))
  {
    var p := [i] + q;
    assert p[0] == i && p[1..] == q;
  }

  predicate EntersWith(role: Role, n: Node, i: nat) {
    role == RowSet && ((n.Select? && i == 3) || (n.SetOprList? && i == 0))
  }

  // ---------------------------------------------------------------------------------------
  // The names of common table expressions

  /** All names bound by a WITH clause. */
  predicate BindsKnown(db: Db, w: Node) {
    w.With? ==> ListKnown(db, w.ctes)
  }

  predicate ListKnown(db: Db, ctes: seq<Node>) {
    forall i :: 0 <= i < |ctes| && ctes[i].Cte? ==> ctes[i].name in db.cteNames
  }

  /** All names bound anywhere in a tree. */
  predicate NamesKnown(db: Db, n: Node)
    decreases n
  {
    (n.Cte? ==> n.name in db.cteNames) && forall i :: 0 <= i < |Kids(n)| ==> NamesKnown(db, Kids(n)[i])
  }

  lemma NamesBind(db: Db, n: Node, i: nat)
    requires NamesKnown(db, n) && i < |Kids(n)|
    ensures NamesKnown(db, Kids(n)[i]) && BindsKnown(db, Kids(n)[i])
  {
    var w := Kids(n)[i];
    if w.With? {
      assert Kids(w) == w.ctes;
      assert forall j :: 0 <= j < |w.ctes| ==> NamesKnown(db, w.ctes[j]);
    }
  }

  lemma {:induction false} BindAllKnown(db: Db, recursive: bool, ctes: seq<Node>, env: Env)
    requires Known(db, env) && ListKnown(db, ctes)
    ensures Known(db, BindAll(db, recursive, ctes, env)) && BindAll(db, recursive, ctes, env).rows == env.rows
  {
    if ctes != [] {
      BindAllKnown(db, recursive, ctes[..|ctes| - 1], env);
    }
  }

  lemma BindKnown(db: Db, w: Node, env: Env)
    requires Known(db, env) && BindsKnown(db, w)
    ensures Known(db, Bind(db, w, env)) && Bind(db, w, env).rows == env.rows
  {
    if w.With? {
      BindAllKnown(db, w.recursive, w.ctes, env);
    }
  }

  // ---------------------------------------------------------------------------------------

  /** `Below` in the direction given by `flip`. */
  ghost predicate Moves(db: Db, role: Role, flip: bool, m: Node, m': Node) {
    if flip then Below(db, role, m', m) else Below(db, role, m, m')
  }

  ghost predicate RowsBelow(db: Db, t: Node, t': Node) {
    forall env :: Known(db, env) ==> Within(Rows(db, t, env), Rows(db, t', env))
  }

  lemma FineIsCoarse(db: Db, role: Role, x: Node, x': Node)
    requires Below(db, Fine, x, x') && role != RowSet
    ensures Below(db, role, x, x')
  {
    forall env | Known(db, env) ensures TruthAt(db, x, env) == True ==> TruthAt(db, x', env) == True {
      assert Implies3(TruthAt(db, x, env), TruthAt(db, x', env));
    }
  }

  lemma MovesCoarse(db: Db, role: Role, flip: bool, x: Node, x': Node)
    requires Moves(db, Fine, flip, x, x') && role != RowSet
    ensures Moves(db, role, flip, x, x')
  {
    if flip {
      FineIsCoarse(db, role, x', x);
    } else {
      FineIsCoarse(db, role, x, x');
    }
  }
}
