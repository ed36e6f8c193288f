/**
 The visitor itself: an object that walks a statement, carries the flag, and appends what it
 finds to its `candidates`, grouped by mutation. Every method is held to `Candidates.Visit`,
 which is written over `Steps.Step` and knows nothing of the cases below.
 */
module Visitor {
  import opened Sql
  import opened Steps
  import opened Mutation
  import opened Candidates

  type Grouped = map<Mut, seq<Candidate>>

  function Add(g: Grouped, c: Candidate): Grouped {
    g[c.mut := (if c.mut in g then g[c.mut] else []) + [c]]
  }

  function AddAll(g: Grouped, cs: seq<Candidate>): Grouped
    decreases cs
  {
    if cs == [] then g else AddAll(Add(g, cs[0]), cs[1..])
  }

  lemma {:induction false} AddAllConcat(g: Grouped, a: seq<Candidate>, b: seq<Candidate>)
    ensures AddAll(AddAll(g, a), b) == AddAll(g, a + b)
    decreases a
  {
    if a == [] {
      assert a + b == b;
    } else {
      AddAllConcat(Add(g, a[0]), a[1..], b);
      assert (a + b)[0] == a[0] && (a + b)[1..] == a[1..] + b;
    }
  }

  function Group(g: Grouped, m: Mut): seq<Candidate> {
    if m in g then g[m] else []
  }

  function Only(cs: seq<Candidate>, m: Mut): seq<Candidate> {
    if cs == [] then [] else (if cs[0].mut == m then [cs[0]] else []) + Only(cs[1..], m)
  }

  /** Grouping keeps the order inside each group and neither loses nor invents a candidate. */
  lemma {:induction false} Grouping(g: Grouped, cs: seq<Candidate>, m: Mut)
    ensures Group(AddAll(g, cs), m) == Group(g, m) + Only(cs, m)
    decreases cs
  {
    if cs != [] {
      Grouping(Add(g, cs[0]), cs[1..], m);
    }
  }

  // ---------------------------------------------------------------------------------------
  // The specification, child by child

  lemma Unroll(role: Role, n: Node, at: Path, flag: bool, i: nat)
    requires i < |Kids(n)|
    ensures VisitKids(role, n, at, flag, i) == Enter(role, n, at, flag, i) + VisitKids(role, n, at, flag, i + 1)
  {
  }

  lemma {:induction false} NothingEntered(role: Role, n: Node, at: Path, flag: bool, i: nat)
    requires i <= |Kids(n)| && forall j :: i <= j < |Kids(n)| ==> Step(role, n, j).Stop?
    ensures VisitKids(role, n, at, flag, i) == []
    decreases |Kids(n)| - i
  {
    if i < |Kids(n)| {
      NothingEntered(role, n, at, flag, i + 1);
    }
  }

  lemma OneKid(role: Role, n: Node, at: Path, flag: bool)
    requires |Kids(n)| == 1
    ensures VisitKids(role, n, at, flag, 0) == Enter(role, n, at, flag, 0)
  {
    Unroll(role, n, at, flag, 0);
  }

  lemma TwoKids(role: Role, n: Node, at: Path, flag: bool)
    requires |Kids(n)| == 2
    ensures VisitKids(role, n, at, flag, 0) == Enter(role, n, at, flag, 0) + Enter(role, n, at, flag, 1)
  {
    Unroll(role, n, at, flag, 0);
    Unroll(role, n, at, flag, 1);
  }

  lemma ThreeKids(role: Role, n: Node, at: Path, flag: bool)
    requires |Kids(n)| == 3
    ensures VisitKids(role, n, at, flag, 0)
         == Enter(role, n, at, flag, 0) + Enter(role, n, at, flag, 1) + Enter(role, n, at, flag, 2)
  {
    Unroll(role, n, at, flag, 0);
    Unroll(role, n, at, flag, 1);
    Unroll(role, n, at, flag, 2);
    Associate(Enter(role, n, at, flag, 0), Enter(role, n, at, flag, 1), Enter(role, n, at, flag, 2), []);
  }

  lemma SelectKids(n: Node, at: Path, flag: bool)
    requires n.Select?
    ensures VisitKids(RowSet, n, at, flag, 0)
         == Enter(RowSet, n, at, flag, 0) + Enter(RowSet, n, at, flag, 1)
            + Enter(RowSet, n, at, flag, 2) + Enter(RowSet, n, at, flag, 3)
  {
    SelectTail(n, at, flag);
    Unroll(RowSet, n, at, flag, 1);
    Unroll(RowSet, n, at, flag, 0);
    Associate(Enter(RowSet, n, at, flag, 0), Enter(RowSet, n, at, flag, 1),
              Enter(RowSet, n, at, flag, 2), Enter(RowSet, n, at, flag, 3));
  }

  lemma SelectTail(n: Node, at: Path, flag: bool)
    requires n.Select?
    ensures VisitKids(RowSet, n, at, flag, 2) == Enter(RowSet, n, at, flag, 2) + Enter(RowSet, n, at, flag, 3)
  {
    FieldsNotEntered(n, at, flag);
    Unroll(RowSet, n, at, flag, 3);
    Unroll(RowSet, n, at, flag, 2);
  }

  lemma Associate(a: seq<Candidate>, b: seq<Candidate>, c: seq<Candidate>, d: seq<Candidate>)
    ensures a + (b + (c + d)) == a + b + c + d
  {
  }

  lemma FieldsNotEntered(n: Node, at: Path, flag: bool)
    requires n.Select?
    ensures VisitKids(RowSet, n, at, flag, 4) == []
  {
    NothingEntered(RowSet, n, at, flag, 4);
  }

  lemma SelectEnters(n: Node, at: Path, flag: bool)
    requires n.Select?
    ensures Enter(RowSet, n, at, flag, 0) == if n.from.Join? then Visit(RowSet, n.from, at + [0], flag) else []
    ensures Enter(RowSet, n, at, flag, 1) == if n.where.Nil? then [] else Visit(Coarse, n.where, at + [1], flag)
    ensures Enter(RowSet, n, at, flag, 2) == if n.having.Nil? then [] else Visit(Coarse, n.having, at + [2], flag)
    ensures Enter(RowSet, n, at, flag, 3) == if EnterWith(n.with).Go? then Visit(RowSet, n.with, at + [3], flag) else []
  {
  }

  lemma ListEntersWith(n: Node, at: Path, flag: bool)
    requires n.SetOprList?
    ensures Enter(RowSet, n, at, flag, 0) == if EnterWith(n.with).Go? then Visit(RowSet, n.with, at + [0], flag) else []
  {
    assert Kids(n)[0] == n.with;
  }

  lemma WithVisit(n: Node, at: Path, flag: bool)
    requires n.With?
    ensures Visit(RowSet, n, at, flag) == VisitKids(RowSet, n, at, flag, 0)
  {
  }

  lemma CteEntered(n: Node, at: Path, flag: bool, i: nat)
    requires n.With? && i < |n.ctes|
    ensures Enter(RowSet, n, at, flag, i) == if n.ctes[i].Cte? then Visit(RowSet, n.ctes[i], at + [i], flag) else []
  {
  }

  lemma CompareSubVisit(n: Node, at: Path, flag: bool, role: Role)
    requires n.CompareSub? && role != RowSet
    ensures Visit(role, n, at, flag)
         == Own(MineExpr(n), n, at, flag)
            + (if n.r.Subquery? then Visit(RowSet, n.r, at + [1], flag != n.all) else [])
  {
    CompareSubEnters(n, at, flag, role);
    TwoKids(role, n, at, flag);
  }

  lemma CompareSubEnters(n: Node, at: Path, flag: bool, role: Role)
    requires n.CompareSub? && role != RowSet
    ensures Enter(role, n, at, flag, 0) == []
    ensures Enter(role, n, at, flag, 1) == if n.r.Subquery? then Visit(RowSet, n.r, at + [1], flag != n.all) else []
  {
  }

  lemma ListVisit(n: Node, at: Path, flag: bool)
    requires n.SetOprList?
    ensures Visit(RowSet, n, at, flag) == VisitKids(RowSet, n, at, flag, 0) + Own(MineRows(n), n, at, flag)
  {
  }

  lemma StmtVisit(n: Node, at: Path, flag: bool)
    requires n.SetOprStmt?
    ensures Visit(RowSet, n, at, flag)
         == VisitWithTwice(n, at, flag) + (if n.selectList.SetOprList?
             then Visit(RowSet, n.selectList, at + [0], flag) else [])
  {
    TwoKids(RowSet, n, at, flag);
    assert Enter(RowSet, n, at, flag, 1) == [];
  }

  lemma ListEnters(n: Node, at: Path, flag: bool, i: nat)
    requires n.SetOprList? && i < |n.selects|
    ensures Enter(RowSet, n, at, flag, i + 1)
         == if n.selects[i].SetOprList? || n.selects[i].Select? then Visit(RowSet, n.selects[i], at + [i + 1], flag)
             else []
  {
    assert Kids(n)[i + 1] == n.selects[i];
  }

  // ---------------------------------------------------------------------------------------
  // The visitor

  class MutateVisitor {
    var candidates: Grouped

    constructor ()
      ensures candidates == map[]
    {
      candidates := map[];
    }

    /** The name's suffix and U must agree; the program stops when they do not. */
    method AddCandidate(m: Mut, u: bool, at: Path, flag: bool)
      requires u == Upper(m)
      modifies this
      ensures candidates == Add(old(candidates), Candidate(m, u, at, flag))
    {
      var group := if m in candidates then candidates[m] else [];
      candidates := candidates[m := group + [Candidate(m, u, at, flag)]];
    }

    method Mining(ms: seq<Mut>, n: Node, at: Path, flag: bool)
      modifies this
      ensures candidates == AddAll(old(candidates), Own(ms, n, at, flag))
    {
      var f := if LocalFlip(n) then !flag else flag;
      for i := 0 to |ms|
        invariant AddAll(candidates, Own(ms[i..], n, at, flag)) == AddAll(old(candidates), Own(ms, n, at, flag))
      {
        assert ms[i..][1..] == ms[i + 1..];
        AddCandidate(ms[i], Upper(ms[i]), at, f);
      }
    }

    method VisitStatement(n: Node)
      modifies this
      ensures candidates == AddAll(old(candidates), CandidatesOf(n))
    {
      if n.SetOprStmt? {
        VisitSetOprStmt(n, [], true);
      } else if n.Select? {
        VisitSelect(n, [], true);
      }
    }

    method VisitSetOprStmt(n: Node, at: Path, flag: bool)
      requires n.SetOprStmt?
      modifies this
      ensures candidates == AddAll(old(candidates), Visit(RowSet, n, at, flag))
      decreases n, 1
    {
      StmtVisit(n, at, flag);
      if n.selectList.SetOprList? {
        ghost var g := candidates;
        ListEntersWith(n.selectList, at + [0], flag);
        VisitWithClause(n.selectList.with, at + [0] + [0], flag);
        assert candidates == AddAll(g, VisitWithTwice(n, at, flag));
        VisitSetOprSelectList(n.selectList, at + [0], flag);
        AddAllConcat(g, VisitWithTwice(n, at, flag), Visit(RowSet, n.selectList, at + [0], flag));
      }
    }

    method VisitSetOprSelectList(n: Node, at: Path, flag: bool)
      requires n.SetOprList?
      modifies this
      ensures candidates == AddAll(old(candidates), Visit(RowSet, n, at, flag))
      decreases n, 1
    {
      ghost var all := VisitKids(RowSet, n, at, flag, 0);
      Unroll(RowSet, n, at, flag, 0);
      ListEntersWith(n, at, flag);
      VisitWithClause(n.with, at + [0], flag);
      AddAllConcat(old(candidates), Enter(RowSet, n, at, flag, 0), VisitKids(RowSet, n, at, flag, 1));
      for i := 0 to |n.selects|
        invariant AddAll(candidates, VisitKids(RowSet, n, at, flag, i + 1)) == AddAll(old(candidates), all)
      {
        label Before:
        Unroll(RowSet, n, at, flag, i + 1);
        ListEnters(n, at, flag, i);
        VisitElement(n.selects[i], at + [i + 1], flag);
        AddAllConcat(old@Before(candidates), Enter(RowSet, n, at, flag, i + 1), VisitKids(RowSet, n, at, flag, i + 2));
      }
      assert candidates == AddAll(old(candidates), all);
      Mining(MineRows(n), n, at, flag);
      ListVisit(n, at, flag);
      AddAllConcat(old(candidates), all, Own(MineRows(n), n, at, flag));
    }

    method VisitElement(n: Node, at: Path, flag: bool)
      modifies this
      ensures candidates == AddAll(old(candidates), if n.SetOprList? || n.Select? then Visit(RowSet, n, at, flag)
          else [])
      decreases n, 2
    {
      if n.SetOprList? {
        VisitSetOprSelectList(n, at, flag);
      } else if n.Select? {
        VisitSelect(n, at, flag);
      }
    }

    method VisitWithClause(n: Node, at: Path, flag: bool)
      modifies this
      ensures candidates == AddAll(old(candidates), if EnterWith(n).Go? then Visit(RowSet, n, at, flag) else [])
      decreases n, 1
    {
      if !n.With? || n.recursive {
        return;
      }
      for i := 0 to |n.ctes|
        invariant AddAll(candidates, VisitKids(RowSet, n, at, flag, i))
               == AddAll(old(candidates), VisitKids(RowSet, n, at, flag, 0))
      {
        label Before:
        Unroll(RowSet, n, at, flag, i);
        CteEntered(n, at, flag, i);
        if n.ctes[i].Cte? {
          VisitCte(n.ctes[i], at + [i], flag);
        }
        AddAllConcat(old@Before(candidates), Enter(RowSet, n, at, flag, i), VisitKids(RowSet, n, at, flag, i + 1));
      }
      WithVisit(n, at, flag);
    }

    method VisitCte(n: Node, at: Path, flag: bool)
      requires n.Cte?
      modifies this
      ensures candidates == AddAll(old(candidates), Visit(RowSet, n, at, flag))
      decreases n, 1
    {
      OneKid(RowSet, n, at, flag);
      assert Visit(RowSet, n, at, flag) == Enter(RowSet, n, at, flag, 0);
      if n.query.Subquery? {
        VisitSubqueryExpr(n.query, at + [0], flag, RowSet);
      }
    }

    /** Both as a table and as an expression. */
    method VisitSubqueryExpr(n: Node, at: Path, flag: bool, ghost role: Role)
      requires n.Subquery?
      modifies this
      ensures candidates == AddAll(old(candidates), Visit(role, n, at, flag))
      decreases n, 1
    {
      OneKid(role, n, at, flag);
      assert Visit(role, n, at, flag) == Enter(role, n, at, flag, 0);
      VisitResultSetNode(n.query, at + [0], flag);
    }

    method VisitResultSetNode(n: Node, at: Path, flag: bool)
      modifies this
      ensures candidates == AddAll(old(candidates), if IsResultSet(n) then Visit(RowSet, n, at, flag) else [])
      decreases n, 2
    {
      match n
      case Select(_, _, _, _, _, _, _, _, _, _) => VisitSelect(n, at, flag);
      case Subquery(_) => VisitSubqueryExpr(n, at, flag, RowSet);
      case TableSource(_) => VisitTableSource(n, at, flag);
      case Join(_, _, _, _, _, _) => VisitJoin(n, at, flag);
      case SetOprStmt(_, _, _) => VisitSetOprStmt(n, at, flag);
      case _ =>
    }

    method VisitTableSource(n: Node, at: Path, flag: bool)
      requires n.TableSource?
      modifies this
      ensures candidates == AddAll(old(candidates), Visit(RowSet, n, at, flag))
      decreases n, 1
    {
      OneKid(RowSet, n, at, flag);
      assert Visit(RowSet, n, at, flag) == Enter(RowSet, n, at, flag, 0);
      VisitResultSetNode(n.source, at + [0], flag);
    }

    method VisitSelect(n: Node, at: Path, flag: bool)
      requires n.Select?
      modifies this
      ensures candidates == AddAll(old(candidates), Visit(RowSet, n, at, flag))
      decreases n, 1
    {
      ghost var g := candidates;
      ghost var e0, e1 := Enter(RowSet, n, at, flag, 0), Enter(RowSet, n, at, flag, 1);
      ghost var e2, e3 := Enter(RowSet, n, at, flag, 2), Enter(RowSet, n, at, flag, 3);
      ghost var own := Own(Mine(RowSet, n), n, at, flag);
      SelectKids(n, at, flag);
      SelectEnters(n, at, flag);
      assert Visit(RowSet, n, at, flag) == e0 + e1 + e2 + e3 + own;
      if n.from.Join? {
        VisitJoin(n.from, at + [0], flag);
      }
      VisitExprNode(n.where, at + [1], flag, Coarse);
      AddAllConcat(g, e0, e1);
      VisitExprNode(n.having, at + [2], flag, Coarse);
      AddAllConcat(g, e0 + e1, e2);
      VisitWithClause(n.with, at + [3], flag);
      AddAllConcat(g, e0 + e1 + e2, e3);
      Mining(MineRows(n), n, at, flag);
      AddAllConcat(g, e0 + e1 + e2 + e3, own);
    }

    method VisitJoin(n: Node, at: Path, flag: bool)
      requires n.Join?
      modifies this
      ensures candidates == AddAll(old(candidates), Visit(RowSet, n, at, flag))
      decreases n, 1
    {
      ghost var g := candidates;
      ghost var e0, e1, e2 := Enter(RowSet, n, at, flag, 0), Enter(RowSet, n, at, flag, 1),
            Enter(RowSet, n, at, flag, 2);
      ghost var own := Own(Mine(RowSet, n), n, at, flag);
      ThreeKids(RowSet, n, at, flag);
      assert Visit(RowSet, n, at, flag) == e0 + e1 + e2 + own;
      if n.tp == LeftJoin || n.tp == RightJoin {
        return;
      }
      VisitResultSetNode(n.left, at + [0], flag);
      VisitResultSetNode(n.right, at + [1], flag);
      AddAllConcat(g, e0, e1);
      VisitExprNode(n.on, at + [2], flag, Coarse);
      AddAllConcat(g, e0 + e1, e2);
      Mining(MineRows(n), n, at, flag);
      AddAllConcat(g, e0 + e1 + e2, own);
    }

    method VisitExprNode(n: Node, at: Path, flag: bool, ghost role: Role)
      requires role != RowSet
      modifies this
      ensures candidates == AddAll(old(candidates), if n.Nil? then [] else Visit(role, n, at, flag))
      decreases n, 2
    {
      match n
      case Binary(_, _, _) => VisitBinary(n, at, flag, role);
      case Subquery(_) => VisitSubqueryExpr(n, at, flag, role);
      case CompareSub(_, _, _, _) => VisitCompareSubqueryExpr(n, at, flag, role);
      case Exists(_, _) => VisitExists(n, at, flag, role);
      case InSub(_, _, _) => VisitInSubquery(n, at, flag, role);
      case IsTruth(_, _, _) => VisitIsTruthExpr(n, at, flag, role);
      case Paren(_) => VisitParen(n, at, flag, role);
      case Not(_) => VisitNot(n, at, flag, role);
      case Func(_, _) => VisitFuncCall(n, at, flag, role);
      case Cast(_, _) => VisitCast(n, at, flag, role);
      case _ =>
        ExprLeaf(role, n, at, flag);
        Mining(MineExpr(n), n, at, flag);
    }

    method VisitBinary(n: Node, at: Path, flag: bool, ghost role: Role)
      requires n.Binary? && role != RowSet
      modifies this
      ensures candidates == AddAll(old(candidates), Visit(role, n, at, flag))
      decreases n, 1
    {
      ghost var g, e0, e1 := candidates, Enter(role, n, at, flag, 0), Enter(role, n, at, flag, 1);
      TwoKids(role, n, at, flag);
      if n.op == LogicAnd || n.op == LogicOr {
        VisitExprNode(n.l, at + [0], flag, role);
        VisitExprNode(n.r, at + [1], flag, role);
      }
      AddAllConcat(g, e0, e1);
      Mining(MineExpr(n), n, at, flag);
      AddAllConcat(g, e0 + e1, Own(MineExpr(n), n, at, flag));
    }

    /** Mined before the flag is flipped for ALL. */
    method VisitCompareSubqueryExpr(n: Node, at: Path, flag: bool, ghost role: Role)
      requires n.CompareSub? && role != RowSet
      modifies this
      ensures candidates == AddAll(old(candidates), Visit(role, n, at, flag))
      decreases n, 1
    {
      ghost var g := candidates;
      CompareSubVisit(n, at, flag, role);
      Mining(MineExpr(n), n, at, flag);
      var f := if n.all then !flag else flag;
      if n.r.Subquery? {
        VisitSubqueryExpr(n.r, at + [1], f, RowSet);
      }
      AddAllConcat(g, Own(MineExpr(n), n, at, flag), if n.r.Subquery? then Visit(RowSet, n.r, at + [1], f) else []);
    }

    method VisitExists(n: Node, at: Path, flag: bool, ghost role: Role)
      requires n.Exists? && role != RowSet
      modifies this
      ensures candidates == AddAll(old(candidates), Visit(role, n, at, flag))
      decreases n, 1
    {
      OneKid(role, n, at, flag);
      assert Visit(role, n, at, flag) == Enter(role, n, at, flag, 0);
      var f := if n.neg then !flag else flag;
      if n.sel.Subquery? {
        VisitSubqueryExpr(n.sel, at + [0], f, RowSet);
      }
    }

    method VisitInSubquery(n: Node, at: Path, flag: bool, ghost role: Role)
      requires n.InSub? && role != RowSet
      modifies this
      ensures candidates == AddAll(old(candidates), Visit(role, n, at, flag))
      decreases n, 1
    {
      TwoKids(role, n, at, flag);
      assert Visit(role, n, at, flag) == Enter(role, n, at, flag, 1);
      var f := if n.neg then !flag else flag;
      if n.sel.Subquery? {
        VisitSubqueryExpr(n.sel, at + [1], f, RowSet);
      }
    }

    /** IS NOT flips the flag, and so does FALSE. */
    method VisitIsTruthExpr(n: Node, at: Path, flag: bool, ghost role: Role)
      requires n.IsTruth? && role != RowSet
      modifies this
      ensures candidates == AddAll(old(candidates), Visit(role, n, at, flag))
      decreases n, 1
    {
      OneKid(role, n, at, flag);
      assert Visit(role, n, at, flag) == Enter(role, n, at, flag, 0);
      var f := flag;
      if n.neg {
        f := !f;
      }
      if !n.isTrue {
        f := !f;
      }
      VisitExprNode(n.e, at + [0], f, if n.isTrue then Coarse else Fine);
    }

    method VisitParen(n: Node, at: Path, flag: bool, ghost role: Role)
      requires n.Paren? && role != RowSet
      modifies this
      ensures candidates == AddAll(old(candidates), Visit(role, n, at, flag))
      decreases n, 1
    {
      OneKid(role, n, at, flag);
      assert Visit(role, n, at, flag) == Enter(role, n, at, flag, 0);
      VisitExprNode(n.e, at + [0], flag, role);
    }

    method VisitNot(n: Node, at: Path, flag: bool, ghost role: Role)
      requires n.Not? && role != RowSet
      modifies this
      ensures candidates == AddAll(old(candidates), Visit(role, n, at, flag))
      decreases n, 1
    {
      OneKid(role, n, at, flag);
      assert Visit(role, n, at, flag) == Enter(role, n, at, flag, 0);
      VisitExprNode(n.e, at + [0], !flag, Fine);
    }

    method VisitFuncCall(n: Node, at: Path, flag: bool, ghost role: Role)
      requires n.Func? && role != RowSet
      modifies this
      ensures candidates == AddAll(old(candidates), Visit(role, n, at, flag))
      decreases n, 1
    {
      for i := 0 to |n.args|
        invariant AddAll(candidates, VisitKids(role, n, at, flag, i))
               == AddAll(old(candidates), VisitKids(role, n, at, flag, 0))
      {
        label Before:
        Unroll(role, n, at, flag, i);
        VisitExprNode(n.args[i], at + [i], flag, Fine);
        AddAllConcat(old@Before(candidates), Enter(role, n, at, flag, i), VisitKids(role, n, at, flag, i + 1));
      }
      assert Visit(role, n, at, flag) == VisitKids(role, n, at, flag, 0);
    }

    method VisitCast(n: Node, at: Path, flag: bool, ghost role: Role)
      requires n.Cast? && role != RowSet
      modifies this
      ensures candidates == AddAll(old(candidates), Visit(role, n, at, flag))
      decreases n, 1
    {
      OneKid(role, n, at, flag);
      assert Visit(role, n, at, flag) == Enter(role, n, at, flag, 0);
      VisitExprNode(n.e, at + [0], flag, Fine);
    }
  }

  /** The expressions the visitor does not look below. */
  lemma ExprLeaf(role: Role, n: Node, at: Path, flag: bool)
    requires role != RowSet && !n.Binary? && !n.Subquery? && !n.CompareSub? && !n.Exists? && !n.InSub?
    requires !n.IsTruth? && !n.Paren? && !n.Not? && !n.Func? && !n.Cast?
    ensures Visit(role, n, at, flag) == Own(MineExpr(n), n, at, flag)
  {
    NothingEntered(role, n, at, flag, 0);
  }
}
