/**
 One node at a time: if what is below a node moves the way the visitor's flag says, so does the
 node. Every lemma compares two nodes in two environments, because it serves twice: for a node
 with one child replaced, and for one node under common table expressions that grow.
 */
module Polarity {
  import opened Sql
  import opened Containment
  import opened Steps

  // ---------------------------------------------------------------------------------------
  // Truth values

  function Connected(op: Op, a: Truth, b: Truth): Truth {
    if op == LogicAnd then And3(a, b) else Or3(a, b)
  }

  lemma BinaryMonotone(role: Role, flip: bool, op: Op, a: Truth, b: Truth, a': Truth, b': Truth)
    requires role != RowSet && (op == LogicAnd || op == LogicOr) && Rel(role, flip, a, a') && Rel(role, flip, b, b')
    ensures Rel(role, flip, Connected(op, a, b), Connected(op, a', b'))
  {
  }

  lemma NotMonotone(role: Role, flip: bool, a: Truth, a': Truth)
    requires role != RowSet && Rel(Fine, flip, a, a')
    ensures Rel(role, !flip, Not3(a), Not3(a'))
  {
  }

  /** IS TRUE only asks for True, so the coarse order is enough below it; IS FALSE needs the fine one. */
  lemma IsTruthMonotone(role: Role, flip: bool, neg: bool, isTrue: bool, a: Truth, a': Truth)
    requires role != RowSet && Rel(if isTrue then Coarse else Fine, flip, a, a')
    ensures Rel(role, flip != (neg == isTrue),
                Flip(neg, Decide(a == Decide(isTrue))), Flip(neg, Decide(a' == Decide(isTrue))))
  {
  }

  lemma FlipRel(role: Role, flip: bool, neg: bool, a: Truth, a': Truth)
    requires role != RowSet && Rel(Fine, flip, a, a')
    ensures Rel(role, flip != neg, Flip(neg, a), Flip(neg, a'))
  {
  }

  lemma ExistsMonotone(role: Role, flip: bool, neg: bool, s: seq<Row>, s': seq<Row>)
    requires role != RowSet && WithinDir(flip, s, s')
    ensures Rel(role, flip != neg, Flip(neg, Decide(s != [])), Flip(neg, Decide(s' != [])))
  {
    if flip {
      FirstColumnWithin(s', s);
    } else {
      FirstColumnWithin(s, s');
    }
  }

  function Quantified(db: Db, op: Op, all: bool, a: Value, vs: seq<Value>): Truth {
    if all then All3(db, op, a, vs) else Any3(db, op, a, vs)
  }

  /** ANY rises and ALL falls with the rows compared with; IN is `= ANY`. */
  lemma CompareSubMonotone(db: Db, role: Role, flip: bool, op: Op, all: bool, a: Value, s: seq<Row>, s': seq<Row>)
    requires role != RowSet && WithinDir(flip, s, s')
    ensures Rel(role, flip != all,
                Quantified(db, op, all, a, FirstColumn(s)), Quantified(db, op, all, a, FirstColumn(s')))
  {
    var lo, hi := if flip then s' else s, if flip then s else s';
    FirstColumnWithin(lo, hi);
    AnyMonotone(db, op, op, a, FirstColumn(lo), FirstColumn(hi));
    AllMonotone(db, op, op, a, FirstColumn(hi), FirstColumn(lo));
  }

  lemma InSubMonotone(db: Db, role: Role, flip: bool, neg: bool, a: Value, s: seq<Row>, s': seq<Row>)
    requires role != RowSet && WithinDir(flip, s, s')
    ensures Rel(role, flip != neg,
                Flip(neg, Any3(db, EQ, a, FirstColumn(s))), Flip(neg, Any3(db, EQ, a, FirstColumn(s'))))
  {
    CompareSubMonotone(db, Fine, flip, EQ, false, a, s, s');
    FlipRel(role, flip, neg, Any3(db, EQ, a, FirstColumn(s)), Any3(db, EQ, a, FirstColumn(s')));
  }

  // ---------------------------------------------------------------------------------------
  // Expressions

  lemma BinaryTruth(db: Db, op: Op, l: Node, r: Node, env: Env)
    requires op == LogicAnd || op == LogicOr
    ensures TruthAt(db, Binary(op, l, r), env) == Connected(op, TruthAt(db, l, env), TruthAt(db, r, env))
  {
  }

  lemma ExistsTruth(db: Db, neg: bool, x: Node, env: Env)
    ensures TruthAt(db, Exists(neg, x), env) == Flip(neg, Decide(Rows(db, x, env) != []))
  {
    var t := Flip(neg, Decide(Rows(db, x, env) != []));
    assert Eval(db, Exists(neg, x), env) == FromTruth(t);
    TruthBack(db, t);
  }

  lemma InSubTruth(db: Db, neg: bool, e: Node, x: Node, env: Env)
    ensures TruthAt(db, InSub(neg, e, x), env)
         == Flip(neg, Any3(db, EQ, Eval(db, e, env), FirstColumn(Rows(db, x, env))))
  {
    var t := Any3(db, EQ, Eval(db, e, env), FirstColumn(Rows(db, x, env)));
    assert Eval(db, InSub(neg, e, x), env) == FromTruth(Flip(neg, t));
    TruthBack(db, Flip(neg, t));
  }

  lemma CompareSubTruth(db: Db, op: Op, all: bool, l: Node, r: Node, env: Env)
    ensures TruthAt(db, CompareSub(op, all, l, r), env)
         == Quantified(db, op, all, Eval(db, l, env), FirstColumn(Rows(db, r, env)))
  {
    var t := Quantified(db, op, all, Eval(db, l, env), FirstColumn(Rows(db, r, env)));
    assert Eval(db, CompareSub(op, all, l, r), env) == FromTruth(t);
    TruthBack(db, t);
  }

  ghost predicate SameAt(db: Db, x: Node, env: Env, x': Node, env': Env) {
    Eval(db, x, env) == Eval(db, x', env') && Rows(db, x, env) == Rows(db, x', env')
  }

  /** What a child does, seen from above: it moves in the order of the way to it. */
  ghost predicate HopMoves(db: Db, hop: Hop, flip: bool, x: Node, env: Env, x': Node, env': Env) {
    && hop.Go?
    && if hop.role == RowSet then WithinDir(flip != hop.flip, Rows(db, x, env), Rows(db, x', env'))
       else Rel(hop.role, flip != hop.flip, TruthAt(db, x, env), TruthAt(db, x', env'))
  }

  ghost predicate KidMoves(db: Db, role: Role, flip: bool, n: Node, env: Env, n': Node, env': Env, i: nat)
    requires role != RowSet && i < |Kids(n)| == |Kids(n')|
  {
    || SameAt(db, Kids(n)[i], env, Kids(n')[i], env')
    || HopMoves(db, Way(role, n, i), flip, Kids(n)[i], env, Kids(n')[i], env')
  }

  /** `n'` is `n` with other children. */
  predicate Similar(n: Node, n': Node) {
    |Kids(n)| == |Kids(n')| && n' == WithKids(n, Kids(n'))
  }

  lemma {:induction false} EvalAllSame(db: Db, ns: seq<Node>, env: Env, ns': seq<Node>, env': Env)
    requires |ns| == |ns'| && forall i :: 0 <= i < |ns| ==> Eval(db, ns[i], env) == Eval(db, ns'[i], env')
    ensures EvalAll(db, ns, env) == EvalAll(db, ns', env')
  {
    if ns != [] {
      EvalAllSame(db, ns[1..], env, ns'[1..], env');
    }
  }

  ghost predicate SameBelow(db: Db, n: Node, env: Env, n': Node, env': Env) {
    Similar(n, n') && forall i :: 0 <= i < |Kids(n)| ==> SameAt(db, Kids(n)[i], env, Kids(n')[i], env')
  }

  /** With children of the same values an expression has the same value. */
  lemma SameKids(db: Db, n: Node, env: Env, n': Node, env': Env)
    requires SameBelow(db, n, env, n', env') && env.rows == env'.rows
    ensures Eval(db, n, env) == Eval(db, n', env')
  {
    if n.Leaf? || n.Agg? || n.Func? {
      SameArgs(db, n, env, n', env');
    } else if n.InList? {
      SameList(db, n, env, n', env');
    } else if n.Cast? || n.Not? || n.Paren? || n.IsTruth? || n.IsNull? || n.Exists? || n.Subquery? {
      SameOperand(db, n, env, n', env');
    } else if n.Binary? || n.InSub? || n.Like? || n.CompareSub? {
      SameTwoOperands(db, n, env, n', env');
    } else if n.Between? {
      SameBetween(db, n, env, n', env');
    } else {
      SameNoValue(db, n, env, n', env');
    }
  }

  lemma SameArgs(db: Db, n: Node, env: Env, n': Node, env': Env)
    requires SameBelow(db, n, env, n', env') && env.rows == env'.rows && (n.Leaf? || n.Agg? || n.Func?)
    ensures Eval(db, n, env) == Eval(db, n', env')
  {
    EvalAllSame(db, Kids(n), env, Kids(n'), env');
    if |Kids(n)| == 1 {
      assert SameAt(db, Kids(n)[0], env, Kids(n')[0], env');
    }
  }

  lemma ListTail(n: Node)
    requires n.InList?
    ensures |Kids(n)| == 1 + |n.list| && Kids(n)[0] == n.e
    ensures forall i :: 0 <= i < |n.list| ==> Kids(n)[i + 1] == n.list[i]
  {
  }

  lemma InListEval(db: Db, n: Node, env: Env)
    requires n.InList?
    ensures Eval(db, n, env) == FromTruth(Flip(n.neg, Any3(db, EQ, Eval(db, n.e, env), EvalAll(db, n.list, env))))
  {
  }

  lemma SameList(db: Db, n: Node, env: Env, n': Node, env': Env)
    requires SameBelow(db, n, env, n', env') && n.InList?
    ensures Eval(db, n, env) == Eval(db, n', env')
  {
    ListTail(n);
    ListTail(n');
    assert SameAt(db, Kids(n)[0], env, Kids(n')[0], env');
    forall i | 0 <= i < |n.list| ensures Eval(db, n.list[i], env) == Eval(db, n'.list[i], env') {
      assert SameAt(db, Kids(n)[i + 1], env, Kids(n')[i + 1], env');
    }
    EvalAllSame(db, n.list, env, n'.list, env');
    InListEval(db, n, env);
    InListEval(db, n', env');
  }

  lemma SameOperand(db: Db, n: Node, env: Env, n': Node, env': Env)
    requires SameBelow(db, n, env, n', env')
    requires n.Cast? || n.Not? || n.Paren? || n.IsTruth? || n.IsNull? || n.Exists? || n.Subquery?
    ensures Eval(db, n, env) == Eval(db, n', env')
  {
    assert SameAt(db, Kids(n)[0], env, Kids(n')[0], env');
  }

  lemma SameTwoOperands(db: Db, n: Node, env: Env, n': Node, env': Env)
    requires SameBelow(db, n, env, n', env') && (n.Binary? || n.InSub? || n.Like? || n.CompareSub?)
    ensures Eval(db, n, env) == Eval(db, n', env')
  {
    assert SameAt(db, Kids(n)[0], env, Kids(n')[0], env');
    assert SameAt(db, Kids(n)[1], env, Kids(n')[1], env');
  }

  lemma SameBetween(db: Db, n: Node, env: Env, n': Node, env': Env)
    requires SameBelow(db, n, env, n', env') && n.Between?
    ensures Eval(db, n, env) == Eval(db, n', env')
  {
    assert SameAt(db, Kids(n)[0], env, Kids(n')[0], env');
    assert SameAt(db, Kids(n)[1], env, Kids(n')[1], env');
    assert SameAt(db, Kids(n)[2], env, Kids(n')[2], env');
  }

  /** What has no operands, and what is no expression. */
  lemma SameNoValue(db: Db, n: Node, env: Env, n': Node, env': Env)
    requires Similar(n, n') && !n.Leaf? && !n.Agg? && !n.Func? && !n.InList? && !n.Cast? && !n.Not? && !n.Paren?
    requires !n.IsTruth? && !n.IsNull? && !n.Exists? && !n.Subquery? && !n.Binary? && !n.InSub? && !n.Like?
    requires !n.CompareSub? && !n.Between?
    ensures Eval(db, n, env) == Eval(db, n', env')
  {
  }

  /** A child that moves, or stays the same, in an order for conditions. */
  lemma KidRel(db: Db, role: Role, flip: bool, n: Node, env: Env, n': Node, env': Env, i: nat)
    requires role != RowSet && i < |Kids(n)| == |Kids(n')| && KidMoves(db, role, flip, n, env, n', env', i)
    ensures Way(role, n, i).Go? && Way(role, n, i).role != RowSet ==>
              Rel(Way(role, n, i).role, flip != Way(role, n, i).flip,
                  TruthAt(db, Kids(n)[i], env), TruthAt(db, Kids(n')[i], env'))
    ensures Way(role, n, i).Go? && Way(role, n, i).role == RowSet ==>
              WithinDir(flip != Way(role, n, i).flip, Rows(db, Kids(n)[i], env), Rows(db, Kids(n')[i], env'))
    ensures Way(role, n, i).Stop? ==> SameAt(db, Kids(n)[i], env, Kids(n')[i], env')
  {
  }

  ghost predicate KidsMove(db: Db, role: Role, flip: bool, n: Node, env: Env, n': Node, env': Env)
    requires role != RowSet
  {
    Similar(n, n') && forall i :: 0 <= i < |Kids(n)| ==> KidMoves(db, role, flip, n, env, n', env', i)
  }

  lemma ConnectiveMoves(db: Db, role: Role, flip: bool, n: Node, env: Env, n': Node, env': Env)
    requires role != RowSet && KidsMove(db, role, flip, n, env, n', env')
    requires (n.Binary? && (n.op == LogicAnd || n.op == LogicOr)) || n.Paren? || n.Not? || n.IsTruth?
    ensures Rel(role, flip, TruthAt(db, n, env), TruthAt(db, n', env'))
  {
    KidRel(db, role, flip, n, env, n', env', 0);
    if n.Binary? {
      KidRel(db, role, flip, n, env, n', env', 1);
      BinaryTruth(db, n.op, n.l, n.r, env);
      BinaryTruth(db, n.op, n'.l, n'.r, env');
      BinaryMonotone(role, flip, n.op, TruthAt(db, n.l, env), TruthAt(db, n.r, env),
                     TruthAt(db, n'.l, env'), TruthAt(db, n'.r, env'));
    } else if n.Not? {
      NotMonotone(role, !flip, TruthAt(db, n.e, env), TruthAt(db, n'.e, env'));
    } else if n.IsTruth? {
      IsTruthMonotone(role, flip != (n.neg == n.isTrue), n.neg, n.isTrue,
                      TruthAt(db, n.e, env), TruthAt(db, n'.e, env'));
    }
  }

  lemma ExistsMoves(db: Db, role: Role, flip: bool, n: Node, env: Env, n': Node, env': Env)
    requires role != RowSet && KidsMove(db, role, flip, n, env, n', env') && n.Exists?
    ensures Rel(role, flip, TruthAt(db, n, env), TruthAt(db, n', env'))
  {
    KidRel(db, role, flip, n, env, n', env', 0);
    ExistsTruth(db, n.neg, n.sel, env);
    ExistsTruth(db, n.neg, n'.sel, env');
    ExistsMonotone(role, flip != n.neg, n.neg, Rows(db, n.sel, env), Rows(db, n'.sel, env'));
  }

  lemma InSubMoves(db: Db, role: Role, flip: bool, n: Node, env: Env, n': Node, env': Env)
    requires role != RowSet && KidsMove(db, role, flip, n, env, n', env') && n.InSub?
    ensures Rel(role, flip, TruthAt(db, n, env), TruthAt(db, n', env'))
  {
    KidRel(db, role, flip, n, env, n', env', 0);
    KidRel(db, role, flip, n, env, n', env', 1);
    InSubTruth(db, n.neg, n.e, n.sel, env);
    InSubTruth(db, n.neg, n'.e, n'.sel, env');
    InSubMonotone(db, role, flip != n.neg, n.neg, Eval(db, n.e, env), Rows(db, n.sel, env), Rows(db, n'.sel, env'));
  }

  lemma CompareSubMoves(db: Db, role: Role, flip: bool, n: Node, env: Env, n': Node, env': Env)
    requires role != RowSet && KidsMove(db, role, flip, n, env, n', env') && n.CompareSub?
    ensures Rel(role, flip, TruthAt(db, n, env), TruthAt(db, n', env'))
  {
    KidRel(db, role, flip, n, env, n', env', 0);
    KidRel(db, role, flip, n, env, n', env', 1);
    CompareSubTruth(db, n.op, n.all, n.l, n.r, env);
    CompareSubTruth(db, n.op, n.all, n'.l, n'.r, env');
    var a, s, s' := Eval(db, n.l, env), Rows(db, n.r, env), Rows(db, n'.r, env');
    CompareSubMonotone(db, role, flip != n.all, n.op, n.all, a, s, s');
  }

  predicate HasWay(n: Node) {
    || (n.Binary? && (n.op == LogicAnd || n.op == LogicOr)) || n.Paren? || n.Not? || n.IsTruth?
    || n.Exists? || n.InSub? || n.CompareSub? || n.Func? || n.Cast? || n.Subquery?
  }

  /** An expression moves with its children. */
  lemma ExprMoves(db: Db, role: Role, flip: bool, n: Node, env: Env, n': Node, env': Env)
    requires role != RowSet && KidsMove(db, role, flip, n, env, n', env') && Sound(role, n) && env.rows == env'.rows
    ensures Rel(role, flip, TruthAt(db, n, env), TruthAt(db, n', env'))
  {
    if !HasWay(n) {
      forall i | 0 <= i < |Kids(n)| ensures SameAt(db, Kids(n)[i], env, Kids(n')[i], env') {
        KidRel(db, role, flip, n, env, n', env', i);
      }
      SameKids(db, n, env, n', env');
    } else if n.Exists? {
      ExistsMoves(db, role, flip, n, env, n', env');
    } else if n.InSub? {
      InSubMoves(db, role, flip, n, env, n', env');
    } else if n.CompareSub? {
      CompareSubMoves(db, role, flip, n, env, n', env');
    } else if n.Func? {
      KidRel(db, role, flip, n, env, n', env', 0);
      assert Eval(db, n, env) == Eval(db, n.args[0], env) && Eval(db, n', env') == Eval(db, n'.args[0], env');
    } else {
      ConnectiveMoves(db, role, flip, n, env, n', env');
    }
  }

  // ---------------------------------------------------------------------------------------
  // Tables and statements

  /** A condition that holds for a row here holds for it there. */
  ghost predicate CondWithin(db: Db, c: Node, env: Env, c': Node, env': Env) {
    forall r :: Holds(db, c, Push(env, r)) ==> Holds(db, c', Push(env', r))
  }

  /** What a row is turned into by the field list. */
  function Picked(db: Db, fields: seq<Node>, env: Env, r: Row): Row {
    if fields == [] then r else EvalAll(db, fields, Push(env, r))
  }

  ghost predicate FieldsSame(db: Db, fs: seq<Node>, env: Env, fs': seq<Node>, env': Env) {
    forall r :: Picked(db, fs, env, r) == Picked(db, fs', env', r)
  }

  lemma SelectRows(db: Db, n: Node, env: Env)
    requires n.Select? && !n.grouped && n.limit.None?
    ensures var inner := Bind(db, n.with, env);
            var kept := FlatMap(Rows(db, n.from, inner), SelectFn(db, n, inner));
            Rows(db, n, env) == if n.distinct then Distinct(kept) else kept
  {
  }

  lemma SelectFnWithin(db: Db, a: Node, env: Env, b: Node, env': Env)
    requires a.Select? && b.Select? && FieldsSame(db, a.fields, env, b.fields, env')
    requires CondWithin(db, a.where, env, b.where, env') && CondWithin(db, a.having, env, b.having, env')
    ensures WithinPointwise(SelectFn(db, a, env), SelectFn(db, b, env'))
  {
    forall r ensures Within(SelectFn(db, a, env)(r), SelectFn(db, b, env')(r)) {
      assert Holds(db, a.where, Push(env, r)) ==> Holds(db, b.where, Push(env', r));
      assert Holds(db, a.having, Push(env, r)) ==> Holds(db, b.having, Push(env', r));
      assert Picked(db, a.fields, env, r) == Picked(db, b.fields, env', r);
    }
  }

  lemma KeptMonotone(distinct: bool, s: seq<Row>, t: seq<Row>, f: Row -> seq<Row>, g: Row -> seq<Row>)
    requires Within(s, t) && WithinPointwise(f, g)
    ensures var kept, kept' := FlatMap(s, f), FlatMap(t, g);
            Within(if distinct then Distinct(kept) else kept, if distinct then Distinct(kept') else kept')
  {
    FlatMapMonotone(s, t, f, g);
    var kept, kept' := FlatMap(s, f), FlatMap(t, g);
    forall r | r in kept ensures r in kept' { WithinMember(kept, kept', r); }
    DistinctMonotone(kept, kept');
  }

  /** More source rows, the same fields of them, and more generous conditions. */
  ghost predicate SourceWithin(db: Db, a: Node, env: Env, b: Node, env': Env)
    requires a.Select? && b.Select?
  {
    && Within(Rows(db, a.from, env), Rows(db, b.from, env')) && FieldsSame(db, a.fields, env, b.fields, env')
    && CondWithin(db, a.where, env, b.where, env') && CondWithin(db, a.having, env, b.having, env')
  }

  /** A SELECT with more source rows and more generous conditions has more rows, DISTINCT or not. */
  lemma SelectMonotone(db: Db, a: Node, env: Env, b: Node, env': Env)
    requires a.Select? && b.Select? && a.distinct == b.distinct
    requires !a.grouped && !b.grouped && a.limit.None? && b.limit.None?
    requires SourceWithin(db, a, Bind(db, a.with, env), b, Bind(db, b.with, env'))
    ensures Within(Rows(db, a, env), Rows(db, b, env'))
  {
    var i, i' := Bind(db, a.with, env), Bind(db, b.with, env');
    SelectRows(db, a, env);
    SelectRows(db, b, env');
    SelectFnWithin(db, a, i, b, i');
    KeptMonotone(a.distinct, Rows(db, a.from, i), Rows(db, b.from, i'), SelectFn(db, a, i), SelectFn(db, b, i'));
  }

  lemma JoinRows(db: Db, n: Node, env: Env)
    requires n.Join? && n.tp == CrossJoin
    ensures Rows(db, n, env) == FlatMap(Rows(db, n.left, env), CrossFn(db, n, env))
  {
  }

  lemma OnFnWithin(db: Db, a: Node, env: Env, b: Node, env': Env, l: Row)
    requires a.Join? && b.Join? && CondWithin(db, a.on, env, b.on, env')
    ensures WithinPointwise(OnFn(db, a, env, l), OnFn(db, b, env', l))
  {
    forall r ensures Within(OnFn(db, a, env, l)(r), OnFn(db, b, env', l)(r)) {
      assert Holds(db, a.on, Push(env, l + r)) ==> Holds(db, b.on, Push(env', l + r));
    }
  }

  lemma CrossFnWithin(db: Db, a: Node, env: Env, b: Node, env': Env)
    requires a.Join? && b.Join? && CondWithin(db, a.on, env, b.on, env')
    requires Within(Rows(db, a.right, env), Rows(db, b.right, env'))
    ensures WithinPointwise(CrossFn(db, a, env), CrossFn(db, b, env'))
  {
    forall l ensures Within(CrossFn(db, a, env)(l), CrossFn(db, b, env')(l)) {
      OnFnWithin(db, a, env, b, env', l);
      FlatMapMonotone(Rows(db, a.right, env), Rows(db, b.right, env'), OnFn(db, a, env, l), OnFn(db, b, env', l));
    }
  }

  /** An inner join with more rows on both sides and a more generous condition has more rows. */
  lemma JoinMonotone(db: Db, a: Node, env: Env, b: Node, env': Env)
    requires a.Join? && b.Join? && a.tp == b.tp == CrossJoin
    requires Within(Rows(db, a.left, env), Rows(db, b.left, env'))
    requires Within(Rows(db, a.right, env), Rows(db, b.right, env'))
    requires CondWithin(db, a.on, env, b.on, env')
    ensures Within(Rows(db, a, env), Rows(db, b, env'))
  {
    JoinRows(db, a, env);
    JoinRows(db, b, env');
    CrossFnWithin(db, a, env, b, env');
    FlatMapMonotone(Rows(db, a.left, env), Rows(db, b.left, env'), CrossFn(db, a, env), CrossFn(db, b, env'));
  }

  lemma {:induction false} PartsAt(db: Db, sels: seq<Node>, env: Env, k: nat)
    requires k < |sels|
    ensures Parts(db, sels, env)[k] == Part(AfterAll(sels[k]), Rows(db, sels[k], env))
  {
    if k > 0 {
      PartsAt(db, sels[1..], env, k - 1);
    }
  }

  lemma ListRows(db: Db, after: Option<SetOp>, with: Node, sels: seq<Node>, env: Env)
    ensures Rows(db, SetOprList(after, with, sels), env) == Chain(Parts(db, sels, Bind(db, with, env)))
  {
    var n := SetOprList(after, with, sels);
    assert Rows(db, n, env) == Chain(Parts(db, n.selects, Bind(db, n.with, env)));
  }

  ghost predicate ElementWithin(db: Db, x: Node, env: Env, x': Node, env': Env) {
    (AfterAll(x) ==> AfterAll(x')) && Within(Rows(db, x, env), Rows(db, x', env'))
  }

  ghost predicate ElementsWithin(db: Db, a: seq<Node>, env: Env, b: seq<Node>, env': Env) {
    |a| == |b| && forall k :: 0 <= k < |a| ==> ElementWithin(db, a[k], env, b[k], env')
  }

  /** A set operation with more rows in its elements has more rows. */
  lemma ListMonotone(db: Db, a: Node, env: Env, b: Node, env': Env)
    requires a.SetOprList? && b.SetOprList?
    requires ElementsWithin(db, a.selects, Bind(db, a.with, env), b.selects, Bind(db, b.with, env'))
    ensures Within(Rows(db, a, env), Rows(db, b, env'))
  {
    var i, i' := Bind(db, a.with, env), Bind(db, b.with, env');
    ListRows(db, a.after, a.with, a.selects, env);
    ListRows(db, b.after, b.with, b.selects, env');
    var ps, qs := Parts(db, a.selects, i), Parts(db, b.selects, i');
    forall k | 0 <= k < |ps| ensures PartBelow(ps[k], qs[k]) {
      PartsAt(db, a.selects, i, k);
      PartsAt(db, b.selects, i', k);
      assert ElementWithin(db, a.selects[k], i, b.selects[k], i');
    }
    ChainMonotone(ps, qs);
  }

  lemma StmtRows(db: Db, x: Node, with: Node, env: Env)
    ensures Rows(db, SetOprStmt(None, x, with), env) == Rows(db, x, Bind(db, with, env))
  {
  }

  lemma WrapperRows(db: Db, x: Node, env: Env)
    ensures Rows(db, Subquery(x), env) == Rows(db, x, env) && Rows(db, TableSource(x), env) == Rows(db, x, env)
  {
  }

  // ---------------------------------------------------------------------------------------
  // One step: one child replaced

  ghost predicate HoldsBelow(db: Db, c: Node, c': Node) {
    forall env :: Known(db, env) && Holds(db, c, env) ==> Holds(db, c', env)
  }

  lemma CoarseHolds(db: Db, x: Node, x': Node)
    requires Below(db, Coarse, x, x')
    ensures HoldsBelow(db, x, x')
  {
    forall env | Known(db, env) && Holds(db, x, env) ensures Holds(db, x', env) {
      assert TruthAt(db, x, env) == True;
      assert TruthAt(db, x', env) == True;
    }
  }

  lemma HoldsWithin(db: Db, c: Node, c': Node, env: Env)
    requires HoldsBelow(db, c, c') && Known(db, env)
    ensures CondWithin(db, c, env, c', env)
  {
    forall r | Holds(db, c, Push(env, r)) ensures Holds(db, c', Push(env, r)) {
      assert Known(db, Push(env, r));
    }
  }

  lemma SameHolds(db: Db, c: Node)
    ensures HoldsBelow(db, c, c)
  {
  }

  lemma SameRows(db: Db, t: Node)
    ensures RowsBelow(db, t, t)
  {
  }

  /** Two SELECTs that differ in their source and conditions only, the second the more generous. */
  lemma SelectBelow(db: Db, a: Node, b: Node)
    requires a.Select? && b.Select? && a.distinct == b.distinct && a.with == b.with && a.fields == b.fields
    requires !a.grouped && !b.grouped && a.limit.None? && b.limit.None? && BindsKnown(db, a.with)
    requires RowsBelow(db, a.from, b.from) && HoldsBelow(db, a.where, b.where) && HoldsBelow(db, a.having, b.having)
    ensures RowsBelow(db, a, b)
  {
    forall env | Known(db, env) ensures Within(Rows(db, a, env), Rows(db, b, env)) {
      var inner := Bind(db, a.with, env);
      BindKnown(db, a.with, env);
      HoldsWithin(db, a.where, b.where, inner);
      HoldsWithin(db, a.having, b.having, inner);
      SelectMonotone(db, a, env, b, env);
    }
  }

  lemma JoinBelow(db: Db, a: Node, b: Node)
    requires a.Join? && b.Join? && a.tp == b.tp == CrossJoin
    requires RowsBelow(db, a.left, b.left) && RowsBelow(db, a.right, b.right) && HoldsBelow(db, a.on, b.on)
    ensures RowsBelow(db, a, b)
  {
    forall env | Known(db, env) ensures Within(Rows(db, a, env), Rows(db, b, env)) {
      HoldsWithin(db, a.on, b.on, env);
      JoinMonotone(db, a, env, b, env);
    }
  }

  lemma StepSelectMonotone(db: Db, n: Node, i: nat, x: Node, x': Node)
    requires n.Select? && i < 3 && StepRows(n, i).Go? && Sound(RowSet, n) && BindsKnown(db, n.with)
    requires Below(db, StepRows(n, i).role, x, x')
    ensures Below(db, RowSet, WithKid(n, i, x), WithKid(n, i, x'))
  {
    var lo, hi := WithKid(n, i, x), WithKid(n, i, x');
    if i > 0 {
      CoarseHolds(db, x, x');
    }
    assert lo.fields == Kids(lo)[4..] == Kids(hi)[4..] == hi.fields;
    SelectBelow(db, lo, hi);
  }

  lemma StepJoinMonotone(db: Db, n: Node, i: nat, x: Node, x': Node)
    requires n.Join? && i < 3 && StepRows(n, i).Go?
    requires Below(db, StepRows(n, i).role, x, x')
    ensures Below(db, RowSet, WithKid(n, i, x), WithKid(n, i, x'))
  {
    if i == 2 {
      CoarseHolds(db, x, x');
    }
    JoinBelow(db, WithKid(n, i, x), WithKid(n, i, x'));
  }

  lemma StepListMonotone(db: Db, n: Node, i: nat, x: Node, x': Node)
    requires n.SetOprList? && 0 < i < |Kids(n)| && BindsKnown(db, n.with)
    requires Below(db, RowSet, x, x')
    ensures Below(db, RowSet, WithKid(n, i, x), WithKid(n, i, x'))
  {
    var sels := n.selects;
    assert Kids(n)[i := x] == [n.with] + sels[i - 1 := x];
    assert Kids(n)[i := x'] == [n.with] + sels[i - 1 := x'];
    var lo, hi := SetOprList(n.after, n.with, sels[i - 1 := x]), SetOprList(n.after, n.with, sels[i - 1 := x']);
    assert WithKid(n, i, x) == lo && WithKid(n, i, x') == hi;
    forall env | Known(db, env) ensures Within(Rows(db, lo, env), Rows(db, hi, env)) {
      BindKnown(db, n.with, env);
      ListMonotone(db, lo, env, hi, env);
    }
  }

  lemma StmtMonotone(db: Db, x: Node, x': Node, with: Node)
    requires RowsBelow(db, x, x') && BindsKnown(db, with)
    ensures RowsBelow(db, SetOprStmt(None, x, with), SetOprStmt(None, x', with))
  {
    forall env | Known(db, env)
      ensures Within(Rows(db, SetOprStmt(None, x, with), env), Rows(db, SetOprStmt(None, x', with), env))
    {
      StmtRows(db, x, with, env);
      StmtRows(db, x', with, env);
      BindKnown(db, with, env);
    }
  }

  lemma WrapperMonotone(db: Db, x: Node, x': Node)
    requires RowsBelow(db, x, x')
    ensures RowsBelow(db, Subquery(x), Subquery(x')) && RowsBelow(db, TableSource(x), TableSource(x'))
  {
    forall env | Known(db, env)
      ensures Within(Rows(db, Subquery(x), env), Rows(db, Subquery(x'), env))
      ensures Within(Rows(db, TableSource(x), env), Rows(db, TableSource(x'), env))
    {
      WrapperRows(db, x, env);
      WrapperRows(db, x', env);
    }
  }

  lemma StepRowsMonotone(db: Db, n: Node, i: nat, x: Node, x': Node)
    requires i < |Kids(n)| && StepRows(n, i).Go? && Sound(RowSet, n) && !EntersWith(RowSet, n, i) && NamesKnown(db, n)
    requires Below(db, StepRows(n, i).role, x, x')
    ensures !StepRows(n, i).flip
    ensures Below(db, RowSet, WithKid(n, i, x), WithKid(n, i, x'))
  {
    if n.Select? {
      NamesBind(db, n, 3);
      StepSelectMonotone(db, n, i, x, x');
    } else if n.Join? {
      StepJoinMonotone(db, n, i, x, x');
    } else if n.SetOprList? {
      NamesBind(db, n, 0);
      StepListMonotone(db, n, i, x, x');
    } else {
      if n.SetOprStmt? {
        NamesBind(db, n, 1);
        StmtMonotone(db, x, x', n.with);
      } else {
        WrapperMonotone(db, x, x');
      }
      assert RowsBelow(db, WithKid(n, i, x), WithKid(n, i, x'));
    }
  }

  lemma StepExprMonotone(db: Db, role: Role, n: Node, i: nat, x: Node, x': Node)
    requires i < |Kids(n)| && role != RowSet && StepExpr(role, n, i).Go? && Sound(role, n)
    requires Below(db, StepExpr(role, n, i).role, x, x')
    ensures Moves(db, role, StepExpr(role, n, i).flip, WithKid(n, i, x), WithKid(n, i, x'))
  {
    var hop, lo, hi := Way(role, n, i), WithKid(n, i, x), WithKid(n, i, x');
    forall env | Known(db, env) ensures Rel(role, hop.flip, TruthAt(db, lo, env), TruthAt(db, hi, env)) {
      ReplacedKids(db, role, n, i, x, x', env);
      ExprMoves(db, role, hop.flip, lo, env, hi, env);
    }
    RelMoves(db, role, hop.flip, lo, hi);
  }

  lemma RelMoves(db: Db, role: Role, flip: bool, a: Node, b: Node)
    requires role != RowSet && !a.Nil? && !b.Nil?
    requires forall env :: Known(db, env) ==> Rel(role, flip, TruthAt(db, a, env), TruthAt(db, b, env))
    ensures Moves(db, role, flip, a, b)
  {
  }

  /** Replacing a child does not change the way to any child. */
  lemma SameWay(role: Role, n: Node, i: nat, x: Node, j: nat)
    requires role != RowSet && i < |Kids(n)| && Sound(role, n)
    ensures Way(role, WithKid(n, i, x), j) == Way(role, n, j) && Sound(role, WithKid(n, i, x))
    ensures WithKid(n, i, x).Nil? <==> n.Nil?
  {
  }

  lemma ReplacedKids(db: Db, role: Role, n: Node, i: nat, x: Node, x': Node, env: Env)
    requires i < |Kids(n)| && role != RowSet && StepExpr(role, n, i).Go? && Sound(role, n) && Known(db, env)
    requires Below(db, StepExpr(role, n, i).role, x, x')
    ensures KidsMove(db, role, Way(role, n, i).flip, WithKid(n, i, x), env, WithKid(n, i, x'), env)
    ensures Sound(role, WithKid(n, i, x)) && !WithKid(n, i, x).Nil? && !WithKid(n, i, x').Nil?
  {
    var hop, lo, hi := Way(role, n, i), WithKid(n, i, x), WithKid(n, i, x');
    WithKidsTwice(n, Kids(lo), Kids(hi));
    SameWay(role, n, i, x, i);
    SameWay(role, n, i, x', i);
    forall j | 0 <= j < |Kids(lo)| ensures KidMoves(db, role, hop.flip, lo, env, hi, env, j) {
      if j == i {
        assert HopMoves(db, hop, hop.flip, x, env, x', env);
      }
    }
  }

  /** Every step of the visitor that keeps the meaning of the flag. */
  lemma StepMonotone(db: Db, role: Role, n: Node, i: nat, x: Node, x': Node)
    requires i < |Kids(n)| && Step(role, n, i).Go? && Sound(role, n) && !EntersWith(role, n, i) && NamesKnown(db, n)
    requires Below(db, Step(role, n, i).role, x, x')
    ensures Moves(db, role, Step(role, n, i).flip, WithKid(n, i, x), WithKid(n, i, x'))
  {
    if role == RowSet {
      StepRowsMonotone(db, n, i, x, x');
    } else {
      StepExprMonotone(db, role, n, i, x, x');
    }
  }

  lemma StepMoves(db: Db, role: Role, n: Node, i: nat, flip: bool, x: Node, x': Node)
    requires i < |Kids(n)| && Step(role, n, i).Go? && Sound(role, n) && !EntersWith(role, n, i) && NamesKnown(db, n)
    requires Moves(db, Step(role, n, i).role, flip, x, x')
    ensures Moves(db, role, flip != Step(role, n, i).flip, WithKid(n, i, x), WithKid(n, i, x'))
  {
    if flip {
      StepMonotone(db, role, n, i, x', x);
    } else {
      StepMonotone(db, role, n, i, x, x');
    }
  }
}
