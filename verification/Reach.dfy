/**
 Where the visitor is to go, said over the syntax alone, and that it goes exactly there: every
 mutation offered at a place of a statement that can be told to count one way, and no other, is
 a candidate, with the flag that the NOTs on the way make.
 */
module Reach {
  import opened Sql
  import opened Steps
  import opened LikePattern
  import opened Mutation
  import opened Candidates

  // A node is met as a condition or as a table; a subquery can be either.
  datatype View = Condition | Table

  /** AND, OR, NOT, parentheses, IS [NOT] TRUE or FALSE, and the argument of a function or cast. */
  predicate Operand(n: Node, i: nat, neg: bool) {
    match n
    case Binary(LogicAnd, _, _) => i < 2 && !neg
    case Binary(LogicOr, _, _) => i < 2 && !neg
    case Not(_) => i == 0 && neg
    case Paren(_) => i == 0 && !neg
    case IsTruth(not, isTrue, _) => i == 0 && neg == (not == isTrue)
    case Func(_, args) => i < |args| && !neg
    case Cast(_, _) => i == 0 && !neg
    case _ => false
  }

  /** [NOT] EXISTS, [NOT] IN and ANY or ALL of a subquery. */
  predicate Asks(n: Node, i: nat, neg: bool) {
    match n
    case Exists(not, _) => i == 0 && neg == not
    case InSub(not, _, _) => i == 1 && neg == not
    case CompareSub(_, all, _, _) => i == 1 && neg == all
    case _ => false
  }

  /** A statement or a table that is not just named. */
  predicate Composed(n: Node) {
    n.Select? || n.SetOprStmt? || n.Join? || n.Subquery? || n.TableSource?
  }

  /** FROM, both sides of an inner join, derived tables, the elements of a set operation. */
  predicate Source(n: Node, i: nat, kid: Node) {
    match n
    case Select(_, _, _, _, _, _, _, _, _, _) => i == 0 && kid.Join?
    case Join(CrossJoin, _, _, _, _, _) => i < 2 && Composed(kid)
    case Subquery(_) => i == 0 && Composed(kid)
    case TableSource(_) => i == 0 && Composed(kid)
    case SetOprStmt(_, _, _) => i == 0 && kid.SetOprList?
    case SetOprList(_, _, _) => i > 0 && (kid.Select? || kid.SetOprList?)
    case _ => false
  }

  /** A WITH clause, unless recursive, its expressions, and their queries. */
  predicate Definition(n: Node, i: nat, kid: Node) {
    match n
    case Select(_, _, _, _, _, _, _, _, _, _) => i == 3 && kid.With? && !kid.recursive
    case SetOprList(_, _, _) => i == 0 && kid.With? && !kid.recursive
    case With(_, _) => kid.Cte?
    case Cte(_, _) => i == 0 && kid.Subquery?
    case _ => false
  }

  /** WHERE, HAVING, and ON of an inner join. */
  predicate Clause(n: Node, i: nat) {
    (n.Select? && (i == 1 || i == 2)) || (n.Join? && n.tp == CrossJoin && i == 2)
  }

  /** The way leads from `n` to its `i`-th child; `neg`: what is below counts the other way round. */
  predicate Leads(v: View, n: Node, i: nat, w: View, neg: bool) {
    && i < |Kids(n)| && !Kids(n)[i].Nil?
    && match (v, w)
       case (Condition, Condition) => Operand(n, i, neg)
       case (Condition, Table) =>
         (Asks(n, i, neg) && Kids(n)[i].Subquery?) || (n.Subquery? && !neg && Composed(Kids(n)[i]))
       case (Table, Condition) => !neg && Clause(n, i)
       case (Table, Table) => !neg && (Source(n, i, Kids(n)[i]) || Definition(n, i, Kids(n)[i]))
  }

  ghost predicate Reaches(v: View, n: Node, p: Path, w: View, neg: bool)
    requires ValidPath(n, p)
    decreases |p|, 1
  {
    if p == [] then v == w && !neg else exists u, before :: Via(v, n, p, w, neg, u, before)
  }

  ghost predicate Via(v: View, n: Node, p: Path, w: View, neg: bool, u: View, before: bool)
    requires ValidPath(n, p) && p != []
    decreases |p|, 0
  {
    Leads(v, n, p[0], u, before) && Reaches(u, Kids(n)[p[0]], p[1..], w, neg != before)
  }

  function ViewOf(role: Role): View {
    if role == RowSet then Table else Condition
  }

  lemma StepLeads(role: Role, n: Node, i: nat, w: View, neg: bool)
    requires i < |Kids(n)|
    ensures Leads(ViewOf(role), n, i, w, neg)
       <==> Step(role, n, i).Go? && ViewOf(Step(role, n, i).role) == w && Step(role, n, i).flip == neg
  {
    if role == RowSet {
      StepLeadsRows(n, i, w, neg);
    } else {
      StepLeadsExpr(role, n, i, w, neg);
    }
  }

  lemma StepLeadsRows(n: Node, i: nat, w: View, neg: bool)
    requires i < |Kids(n)|
    ensures Leads(Table, n, i, w, neg)
       <==> StepRows(n, i).Go? && ViewOf(StepRows(n, i).role) == w && StepRows(n, i).flip == neg
  {
  }

  lemma StepLeadsExpr(role: Role, n: Node, i: nat, w: View, neg: bool)
    requires i < |Kids(n)| && role != RowSet
    ensures Leads(Condition, n, i, w, neg)
       <==> StepExpr(role, n, i).Go? && ViewOf(StepExpr(role, n, i).role) == w && StepExpr(role, n, i).flip == neg
  {
  }

  /** The visitor's trails are exactly these ways. */
  lemma TrailReaches(role: Role, n: Node, p: Path, w: View, neg: bool)
    requires ValidPath(n, p)
    ensures Reaches(ViewOf(role), n, p, w, neg) <==> Ends(role, n, p, w, neg)
  {
    if Reaches(ViewOf(role), n, p, w, neg) {
      ReachesEnds(role, n, p, w, neg);
    }
    if Ends(role, n, p, w, neg) {
      EndsReaches(role, n, p, w, neg);
    }
  }

  lemma {:induction false} ReachesEnds(role: Role, n: Node, p: Path, w: View, neg: bool)
    requires ValidPath(n, p) && Reaches(ViewOf(role), n, p, w, neg)
    ensures Ends(role, n, p, w, neg)
    decreases |p|
  {
    if p != [] {
      var u, before := FirstLeg(ViewOf(role), n, p, w, neg);
      StepLeads(role, n, p[0], u, before);
      ReachesEnds(Step(role, n, p[0]).role, Kids(n)[p[0]], p[1..], w, neg != before);
      EndsStep(role, n, p, w, neg);
    }
  }

  lemma {:induction false} EndsReaches(role: Role, n: Node, p: Path, w: View, neg: bool)
    requires ValidPath(n, p) && Ends(role, n, p, w, neg)
    ensures Reaches(ViewOf(role), n, p, w, neg)
    decreases |p|
  {
    if p != [] {
      var hop := Step(role, n, p[0]);
      EndsStep(role, n, p, w, neg);
      StepLeads(role, n, p[0], ViewOf(hop.role), hop.flip);
      EndsReaches(hop.role, Kids(n)[p[0]], p[1..], w, neg != hop.flip);
      FirstThen(ViewOf(role), n, p, w, neg, ViewOf(hop.role), hop.flip);
    }
  }

  lemma FirstThen(v: View, n: Node, p: Path, w: View, neg: bool, u: View, before: bool)
    requires ValidPath(n, p) && p != []
    requires Leads(v, n, p[0], u, before) && Reaches(u, Kids(n)[p[0]], p[1..], w, neg != before)
    ensures Reaches(v, n, p, w, neg)
  {
    assert Via(v, n, p, w, neg, u, before);
  }

  lemma FirstLeg(v: View, n: Node, p: Path, w: View, neg: bool) returns (u: View, before: bool)
    requires ValidPath(n, p) && p != [] && Reaches(v, n, p, w, neg)
    ensures Leads(v, n, p[0], u, before) && Reaches(u, Kids(n)[p[0]], p[1..], w, neg != before)
  {
    u, before :| Via(v, n, p, w, neg, u, before);
  }

  predicate Ends(role: Role, n: Node, p: Path, w: View, neg: bool)
    requires ValidPath(n, p)
  {
    var t := Trail(role, n, p);
    t.Go? && ViewOf(t.role) == w && t.flip == neg
  }

  lemma EndsStep(role: Role, n: Node, p: Path, w: View, neg: bool)
    requires ValidPath(n, p) && p != []
    ensures var hop := Step(role, n, p[0]);
            Ends(role, n, p, w, neg) <==> hop.Go? && Ends(hop.role, Kids(n)[p[0]], p[1..], w, neg != hop.flip)
  {
  }

  /** The mutations a node offers, met as a condition or as a table. */
  function Offers(v: View, n: Node): seq<Mut> {
    if v == Table then MineRows(n) else MineExpr(n)
  }

  /** NOT BETWEEN, NOT IN a list and NOT LIKE count the other way round themselves. */
  predicate Negated(n: Node) {
    match n
    case Between(not, _, _, _) => not
    case InList(not, _, _) => not
    case Like(not, _, _) => not
    case _ => false
  }

  /** `c` is a mutation offered at the end of such a way, and its flag is positive if it counts positively. */
  ghost predicate Due(root: Node, c: Candidate) {
    && ValidPath(root, c.path) && c.u == Upper(c.mut)
    && exists w, neg :: Reaches(Table, root, c.path, w, neg) && c.mut in Offers(w, At(root, c.path))
                        && c.flag == (neg == Negated(At(root, c.path)))
  }

  /** The candidates of a statement are exactly those due: none is missing and none is too many. */
  lemma CandidatesExact(root: Node, c: Candidate)
    requires root.Select? || root.SetOprStmt?
    ensures c in CandidatesOf(root) <==> Due(root, c)
  {
    if c in CandidatesOf(root) {
      CandidateDue(root, c);
    }
    if Due(root, c) {
      DueFound(root, c);
    }
  }

  lemma CandidateDue(root: Node, c: Candidate)
    requires c in CandidatesOf(root)
    ensures Due(root, c)
  {
    CandidateTrail(root, c);
    assert [] + c.path == c.path;
    var t, n := Trail(RowSet, root, c.path), At(root, c.path);
    assert MinedHere(t, n, c.path, true, c);
    TrailReaches(RowSet, root, c.path, ViewOf(t.role), t.flip);
    SameMined(t.role, n);
    assert c.mut in Offers(ViewOf(t.role), n) && c.flag == (t.flip == Negated(n));
  }

  lemma DueFound(root: Node, c: Candidate)
    requires (root.Select? || root.SetOprStmt?) && Due(root, c)
    ensures c in CandidatesOf(root)
  {
    var n := At(root, c.path);
    var w, neg :| Reaches(Table, root, c.path, w, neg) && c.mut in Offers(w, n) && c.flag == (neg == Negated(n));
    TrailReaches(RowSet, root, c.path, w, neg);
    var t := Trail(RowSet, root, c.path);
    SameMined(t.role, n);
    assert [] + c.path == c.path;
    assert MinedHere(t, n, [] + c.path, true, c);
    assert MinedAt(RowSet, root, c.path, [], true, c);
    VisitFound(RowSet, root, [], true, c);
  }

  lemma SameMined(role: Role, n: Node)
    ensures Mine(role, n) == Offers(ViewOf(role), n) && (LocalFlip(n) <==> Negated(n))
  {
  }

  /** In particular: whatever a part of WHERE or HAVING offers, however deep. */
  lemma ConditionVisited(root: Node, having: bool, cond: Node, q: Path, w: View, neg: bool, m: Mut)
    requires root.Select? && cond == (if having then root.having else root.where) && !cond.Nil?
    requires ValidPath(cond, q) && Reaches(Condition, cond, q, w, neg) && m in Offers(w, At(cond, q))
    ensures var p := [if having then 2 else 1] + q;
            ValidPath(root, p) && Candidate(m, Upper(m), p, neg == Negated(At(root, p))) in CandidatesOf(root)
  {
    var i := if having then 2 else 1;
    var p := [i] + q;
    ClauseLeads(root, i, cond);
    Prepend(Table, root, i, q, w, neg, Condition, false);
    CandidatesExact(root, Candidate(m, Upper(m), p, neg == Negated(At(root, p))));
  }

  lemma ClauseLeads(root: Node, i: nat, cond: Node)
    requires root.Select? && (i == 1 || i == 2) && cond == (if i == 2 then root.having else root.where) && !cond.Nil?
    ensures i < |Kids(root)| && Kids(root)[i] == cond && Leads(Table, root, i, Condition, false)
  {
  }

  lemma Prepend(v: View, n: Node, i: nat, q: Path, w: View, neg: bool, u: View, before: bool)
    requires Leads(v, n, i, u, before) && ValidPath(Kids(n)[i], q) && Reaches(u, Kids(n)[i], q, w, neg != before)
    ensures ValidPath(n, [i] + q) && At(n, [i] + q) == At(Kids(n)[i], q) && Reaches(v, n, [i] + q, w, neg)
  {
    var p := [i] + q;
    assert p[0] == i && p[1..] == q;
    FirstThen(v, n, p, w, neg, u, before);
  }

  /** Both operands of OR are looked at, and so are those of AND. */
  lemma BothOperands(op: Op, l: Node, r: Node, i: nat, q: Path, w: View, neg: bool)
    requires (op == LogicAnd || op == LogicOr) && i < 2 && !Kids(Binary(op, l, r))[i].Nil?
    requires ValidPath(Kids(Binary(op, l, r))[i], q) && Reaches(Condition, Kids(Binary(op, l, r))[i], q, w, neg)
    ensures ValidPath(Binary(op, l, r), [i] + q) && Reaches(Condition, Binary(op, l, r), [i] + q, w, neg)
  {
    Prepend(Condition, Binary(op, l, r), i, q, w, neg, Condition, false);
  }
}
