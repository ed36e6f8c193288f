/**
 Common table expressions. A SELECT or a set operation grows with one of them if it uses the
 name at one polarity only; if it uses the name the other way round, it shrinks.
 */
module CteUse {
  import opened Sql
  import opened Containment
  import opened Steps
  import opened Polarity

  // The names whose rows move, and which way: `true` where there are fewer afterwards.
  type Signs = map<string, bool>

  /** The two environments differ in the rows of the names in `signs` at most. */
  predicate Agree(env: Env, env': Env, names: set<string>) {
    && env.rows == env'.rows && env.ctes.Keys == env'.ctes.Keys
    && forall name :: name in env.ctes && name !in names ==> env.ctes[name] == env'.ctes[name]
  }

  predicate Moved(env: Env, env': Env, signs: Signs) {
    && Agree(env, env', signs.Keys)
    && forall name :: name in signs ==>
         name in env.ctes && WithinDir(signs[name], env.ctes[name], env'.ctes[name])
  }

  /** None of the names is used. */
  predicate Free(n: Node, names: set<string>)
    decreases n
  {
    (n.TableName? ==> n.name !in names) && forall i :: 0 <= i < |Kids(n)| ==> Free(Kids(n)[i], names)
  }

  // ---------------------------------------------------------------------------------------
  // Where none of the names is used nothing moves

  ghost predicate Still(db: Db, n: Node, names: set<string>) {
    forall env, env' :: Agree(env, env', names) ==> SameAt(db, n, env, n, env')
  }

  ghost predicate StillBound(db: Db, w: Node, names: set<string>) {
    forall env, env' :: Agree(env, env', names) ==> Agree(Bind(db, w, env), Bind(db, w, env'), names)
  }

  lemma {:induction false} FreeStill(db: Db, n: Node, names: set<string>)
    requires Free(n, names)
    ensures Still(db, n, names)
    decreases n, 1
  {
    forall i | 0 <= i < |Kids(n)| ensures Still(db, Kids(n)[i], names) {
      FreeStill(db, Kids(n)[i], names);
    }
    if n.Select? || n.SetOprList? || n.SetOprStmt? {
      assert Free(n.with, names) by {
        assert n.with == Kids(n)[if n.Select? then 3 else if n.SetOprList? then 0 else 1];
      }
      FreeStillBound(db, n.with, names);
    }
    forall env, env' | Agree(env, env', names) ensures SameAt(db, n, env, n, env') {
      StillEval(db, n, names, env, env');
      StillRows(db, n, names, env, env');
    }
  }

  lemma {:induction false} FreeStillBound(db: Db, w: Node, names: set<string>)
    requires Free(w, names)
    ensures StillBound(db, w, names)
    decreases w, 0
  {
    if w.With? {
      forall i | 0 <= i < |w.ctes| && w.ctes[i].Cte? ensures Still(db, w.ctes[i].query, names) {
        assert Free(Kids(w)[i], names);
        assert Kids(w.ctes[i]) == [w.ctes[i].query];
        assert Free(Kids(w.ctes[i])[0], names);
        FreeStill(db, w.ctes[i].query, names);
      }
      forall env, env' | Agree(env, env', names) ensures Agree(Bind(db, w, env), Bind(db, w, env'), names) {
        StillBindAll(db, w.recursive, w.ctes, names, env, env');
      }
    }
  }

  lemma {:induction false} StillBindAll(db: Db, recursive: bool, ctes: seq<Node>, names: set<string>, env: Env,
        env': Env)
    requires Agree(env, env', names)
    requires forall i :: 0 <= i < |ctes| && ctes[i].Cte? ==> Still(db, ctes[i].query, names)
    ensures Agree(BindAll(db, recursive, ctes, env), BindAll(db, recursive, ctes, env'), names)
  {
    if ctes != [] {
      var k := |ctes| - 1;
      StillBindAll(db, recursive, ctes[..k], names, env, env');
      var earlier, earlier' := BindAll(db, recursive, ctes[..k], env), BindAll(db, recursive, ctes[..k], env');
      if ctes[k].Cte? {
        assert SameAt(db, ctes[k].query, earlier, ctes[k].query, earlier');
      }
    }
  }

  lemma StillEval(db: Db, n: Node, names: set<string>, env: Env, env': Env)
    requires Agree(env, env', names) && forall i :: 0 <= i < |Kids(n)| ==> Still(db, Kids(n)[i], names)
    ensures Eval(db, n, env) == Eval(db, n, env')
  {
    WithKidsSame(n);
    forall i | 0 <= i < |Kids(n)| ensures SameAt(db, Kids(n)[i], env, Kids(n)[i], env') {
      assert Still(db, Kids(n)[i], names);
    }
    SameKids(db, n, env, n, env');
  }

  lemma StillRows(db: Db, n: Node, names: set<string>, env: Env, env': Env)
    requires Agree(env, env', names) && Free(n, names)
    requires forall i :: 0 <= i < |Kids(n)| ==> Still(db, Kids(n)[i], names)
    requires n.Select? || n.SetOprList? || n.SetOprStmt? ==> StillBound(db, n.with, names)
    ensures Rows(db, n, env) == Rows(db, n, env')
  {
    if n.Join? {
      StillJoin(db, n, names, env, env');
    } else if n.Select? {
      StillSelect(db, n, names, env, env');
    } else if n.SetOprList? {
      StillList(db, n, names, env, env');
    } else if n.SetOprStmt? {
      StillStmt(db, n, names, env, env');
    } else if n.TableSource? || n.Subquery? {
      StillWrapper(db, n, names, env, env');
    } else {
      StillName(db, n, names, env, env');
    }
  }

  lemma StillWrapper(db: Db, n: Node, names: set<string>, env: Env, env': Env)
    requires Agree(env, env', names) && (n.TableSource? || n.Subquery?) && Still(db, Kids(n)[0], names)
    ensures Rows(db, n, env) == Rows(db, n, env')
  {
    assert SameAt(db, Kids(n)[0], env, Kids(n)[0], env');
    WrapperRows(db, Kids(n)[0], env);
    WrapperRows(db, Kids(n)[0], env');
  }

  lemma StillName(db: Db, n: Node, names: set<string>, env: Env, env': Env)
    requires Agree(env, env', names) && Free(n, names)
    requires !n.Join? && !n.Select? && !n.SetOprList? && !n.SetOprStmt? && !n.TableSource? && !n.Subquery?
    ensures Rows(db, n, env) == Rows(db, n, env')
  {
  }

  lemma StillHolds(db: Db, c: Node, names: set<string>, env: Env, env': Env, r: Row)
    requires Agree(env, env', names) && Still(db, c, names)
    ensures Holds(db, c, Push(env, r)) <==> Holds(db, c, Push(env', r))
  {
    assert SameAt(db, c, Push(env, r), c, Push(env', r));
  }

  lemma StillMatches(db: Db, on: Node, names: set<string>, env: Env, env': Env, s: seq<Row>,
                     f: Row -> seq<Row>, g: Row -> seq<Row>, whole: Row -> Row)
    requires Agree(env, env', names) && Still(db, on, names)
    requires forall r :: f(r) == if Holds(db, on, Push(env, whole(r))) then [whole(r)] else []
    requires forall r :: g(r) == if Holds(db, on, Push(env', whole(r))) then [whole(r)] else []
    ensures FlatMap(s, f) == FlatMap(s, g)
  {
    forall r ensures f(r) == g(r) {
      StillHolds(db, on, names, env, env', whole(r));
    }
    SameFlatMap(s, f, g);
  }

  lemma StillJoin(db: Db, n: Node, names: set<string>, env: Env, env': Env)
    requires Agree(env, env', names) && n.Join? && forall i :: 0 <= i < |Kids(n)| ==> Still(db, Kids(n)[i], names)
    ensures Rows(db, n, env) == Rows(db, n, env')
  {
    assert Kids(n)[0] == n.left && Kids(n)[1] == n.right && Kids(n)[2] == n.on;
    assert SameAt(db, n.left, env, n.left, env') && SameAt(db, n.right, env, n.right, env');
    match n.tp
    case CrossJoin =>
      forall l ensures CrossFn(db, n, env)(l) == CrossFn(db, n, env')(l) {
        StillMatches(db, n.on, names, env, env', Rows(db, n.right, env),
                     OnFn(db, n, env, l), OnFn(db, n, env', l), r => l + r);
      }
      SameFlatMap(Rows(db, n.left, env), CrossFn(db, n, env), CrossFn(db, n, env'));
    case LeftJoin =>
      forall l ensures LeftFn(db, n, env)(l) == LeftFn(db, n, env')(l) {
        StillMatches(db, n.on, names, env, env', Rows(db, n.right, env),
                     OnFn(db, n, env, l), OnFn(db, n, env', l), r => l + r);
      }
      SameFlatMap(Rows(db, n.left, env), LeftFn(db, n, env), LeftFn(db, n, env'));
    case RightJoin =>
      forall r ensures RightFn(db, n, env)(r) == RightFn(db, n, env')(r) {
        StillMatches(db, n.on, names, env, env', Rows(db, n.left, env),
          (l: Row) => if Holds(db, n.on, Push(env, l + r)) then [l + r] else [],
          (l: Row) => if Holds(db, n.on, Push(env', l + r)) then [l + r] else [], l => l + r);
      }
      SameFlatMap(Rows(db, n.right, env), RightFn(db, n, env), RightFn(db, n, env'));
  }

  lemma StillFields(db: Db, fields: seq<Node>, names: set<string>, env: Env, env': Env)
    requires Agree(env, env', names) && forall i :: 0 <= i < |fields| ==> Still(db, fields[i], names)
    ensures FieldsSame(db, fields, env, fields, env')
  {
    forall r ensures Picked(db, fields, env, r) == Picked(db, fields, env', r) {
      forall i | 0 <= i < |fields| ensures Eval(db, fields[i], Push(env, r)) == Eval(db, fields[i], Push(env', r)) {
        assert Still(db, fields[i], names);
        assert SameAt(db, fields[i], Push(env, r), fields[i], Push(env', r));
      }
      EvalAllSame(db, fields, Push(env, r), fields, Push(env', r));
    }
  }

  lemma KidsOfSelect(n: Node)
    requires n.Select?
    ensures |Kids(n)| == 4 + |n.fields| && Kids(n)[0] == n.from && Kids(n)[1] == n.where
    ensures Kids(n)[2] == n.having && Kids(n)[3] == n.with
    ensures forall i :: 0 <= i < |n.fields| ==> n.fields[i] == Kids(n)[i + 4]
  {
  }

  lemma StillSelect(db: Db, n: Node, names: set<string>, env: Env, env': Env)
    requires Agree(env, env', names) && n.Select? && StillBound(db, n.with, names)
    requires forall i :: 0 <= i < |Kids(n)| ==> Still(db, Kids(n)[i], names)
    ensures Rows(db, n, env) == Rows(db, n, env')
  {
    KidsOfSelect(n);
    var i, i' := Bind(db, n.with, env), Bind(db, n.with, env');
    assert Agree(i, i', names);
    assert SameAt(db, n.from, i, n.from, i') by {
      assert Still(db, n.from, names);
    }
    forall j | 0 <= j < |n.fields| ensures Still(db, n.fields[j], names) {
      assert Still(db, Kids(n)[j + 4], names);
    }
    StillFields(db, n.fields, names, i, i');
    StillSelectFn(db, n, names, i, i');
    SameFlatMap(Rows(db, n.from, i), SelectFn(db, n, i), SelectFn(db, n, i'));
  }

  lemma StillSelectFn(db: Db, n: Node, names: set<string>, env: Env, env': Env)
    requires Agree(env, env', names) && n.Select? && Still(db, n.where, names) && Still(db, n.having, names)
    requires FieldsSame(db, n.fields, env, n.fields, env')
    ensures forall r :: SelectFn(db, n, env)(r) == SelectFn(db, n, env')(r)
  {
    forall r ensures SelectFn(db, n, env)(r) == SelectFn(db, n, env')(r) {
      StillHolds(db, n.where, names, env, env', r);
      StillHolds(db, n.having, names, env, env', r);
      assert Picked(db, n.fields, env, r) == Picked(db, n.fields, env', r);
    }
  }

  lemma {:induction false} StillParts(db: Db, sels: seq<Node>, names: set<string>, env: Env, env': Env)
    requires Agree(env, env', names) && forall i :: 0 <= i < |sels| ==> Still(db, sels[i], names)
    ensures Parts(db, sels, env) == Parts(db, sels, env')
  {
    if sels != [] {
      assert Still(db, sels[0], names);
      assert SameAt(db, sels[0], env, sels[0], env');
      StillParts(db, sels[1..], names, env, env');
    }
  }

  lemma StillList(db: Db, n: Node, names: set<string>, env: Env, env': Env)
    requires Agree(env, env', names) && n.SetOprList? && StillBound(db, n.with, names)
    requires forall i :: 0 <= i < |Kids(n)| ==> Still(db, Kids(n)[i], names)
    ensures Rows(db, n, env) == Rows(db, n, env')
  {
    forall i | 0 <= i < |n.selects| ensures Still(db, n.selects[i], names) {
      assert Still(db, Kids(n)[i + 1], names);
    }
    StillParts(db, n.selects, names, Bind(db, n.with, env), Bind(db, n.with, env'));
    ListRows(db, n.after, n.with, n.selects, env);
    ListRows(db, n.after, n.with, n.selects, env');
  }

  lemma StillStmt(db: Db, n: Node, names: set<string>, env: Env, env': Env)
    requires Agree(env, env', names) && n.SetOprStmt? && StillBound(db, n.with, names)
    requires Still(db, Kids(n)[0], names)
    ensures Rows(db, n, env) == Rows(db, n, env')
  {
    assert SameAt(db, n.selectList, Bind(db, n.with, env), n.selectList, Bind(db, n.with, env'));
  }

  // ---------------------------------------------------------------------------------------
  // Where the names are used at one polarity, everything moves with them

  /** Does `n` rise (with `flip`: fall) when the names move as `signs` says? */
  predicate Follows(role: Role, n: Node, signs: Signs, flip: bool)
    decreases n, 2
  {
    || Free(n, signs.Keys)
    || (if role == RowSet then RowsFollow(n, signs, flip) else ExprFollows(role, n, signs, flip))
  }

  predicate ExprFollows(role: Role, n: Node, signs: Signs, flip: bool)
    requires role != RowSet
    decreases n, 1
  {
    && Sound(role, n)
    && forall i :: 0 <= i < |Kids(n)| ==> KidFollows(Way(role, n, i), Kids(n)[i], signs, flip)
  }

  predicate KidFollows(way: Hop, kid: Node, signs: Signs, flip: bool)
    decreases kid, 3
  {
    if way.Go? then Follows(way.role, kid, signs, flip != way.flip) else Free(kid, signs.Keys)
  }

  predicate RowsFollow(n: Node, signs: Signs, flip: bool)
    decreases n, 1
  {
    match n
    case TableName(name) => name in signs && signs[name] == flip
    case TableSource(source) => Follows(RowSet, source, signs, flip)
    case Subquery(query) => Follows(RowSet, query, signs, flip)
    case Join(tp, left, right, on, _, _) =>
      tp == CrossJoin && Follows(RowSet, left, signs, flip) && Follows(RowSet, right, signs, flip)
          && CondFollows(on, signs, flip)
    case Select(_, _, grouped, limit, _, _, _, _, with, _) =>
      !grouped && limit.None? && Free(with, signs.Keys) && BodyFollows(n, signs, flip)
    case SetOprList(_, with, _) => Free(with, signs.Keys) && BodyFollows(n, signs, flip)
    case SetOprStmt(limit, selectList, with) =>
      limit.None? && Free(with, signs.Keys) && Follows(RowSet, selectList, signs, flip)
    case _ => false
  }

  /** The part of a SELECT or set operation that sees its WITH clause. */
  predicate BodyFollows(n: Node, signs: Signs, flip: bool)
    decreases n, 0
  {
    if n.Select? then
      && Follows(RowSet, n.from, signs, flip) && CondFollows(n.where, signs, flip) && CondFollows(n.having, signs, flip)
      && forall i :: 0 <= i < |n.fields| ==> Free(n.fields[i], signs.Keys)
    else
      n.SetOprList? && forall i :: 0 <= i < |n.selects| ==> Follows(RowSet, n.selects[i], signs, flip)
  }

  predicate CondFollows(c: Node, signs: Signs, flip: bool)
    decreases c, 3
  {
    c.Nil? || Follows(Coarse, c, signs, flip)
  }

  ghost predicate Travels(db: Db, role: Role, n: Node, signs: Signs, flip: bool) {
    forall env, env' :: Moved(env, env', signs) ==> HopMoves(db, Go(role, false), flip, n, env, n, env')
  }

  lemma StillTravels(db: Db, role: Role, n: Node, signs: Signs, flip: bool)
    requires Still(db, n, signs.Keys)
    ensures Travels(db, role, n, signs, flip)
  {
    forall env, env' | Moved(env, env', signs) ensures HopMoves(db, Go(role, false), flip, n, env, n, env') {
      assert SameAt(db, n, env, n, env');
    }
  }

  lemma {:induction false} FollowsTravels(db: Db, role: Role, n: Node, signs: Signs, flip: bool)
    requires Follows(role, n, signs, flip)
    ensures Travels(db, role, n, signs, flip)
    decreases n, 2
  {
    if Free(n, signs.Keys) {
      FreeStill(db, n, signs.Keys);
      StillTravels(db, role, n, signs, flip);
    } else if role == RowSet {
      RowsTravel(db, n, signs, flip);
    } else {
      ExprTravels(db, role, n, signs, flip);
    }
  }

  /** A child that follows moves; one that nothing leads to stays. */
  ghost predicate KidTravels(db: Db, way: Hop, kid: Node, signs: Signs, flip: bool) {
    if way.Go? then Travels(db, way.role, kid, signs, flip != way.flip) else Still(db, kid, signs.Keys)
  }

  lemma {:induction false} ExprTravels(db: Db, role: Role, n: Node, signs: Signs, flip: bool)
    requires role != RowSet && ExprFollows(role, n, signs, flip)
    ensures Travels(db, role, n, signs, flip)
    decreases n, 1
  {
    forall i | 0 <= i < |Kids(n)| ensures KidTravels(db, Way(role, n, i), Kids(n)[i], signs, flip) {
      var way := Way(role, n, i);
      assert KidFollows(way, Kids(n)[i], signs, flip);
      if way.Go? {
        FollowsTravels(db, way.role, Kids(n)[i], signs, flip != way.flip);
      } else {
        FreeStill(db, Kids(n)[i], signs.Keys);
      }
    }
    forall env, env' | Moved(env, env', signs) ensures HopMoves(db, Go(role, false), flip, n, env, n, env') {
      TravelledKids(db, role, n, signs, flip, env, env');
      ExprMoves(db, role, flip, n, env, n, env');
    }
  }

  lemma TravelledKids(db: Db, role: Role, n: Node, signs: Signs, flip: bool, env: Env, env': Env)
    requires role != RowSet && Moved(env, env', signs)
    requires forall i :: 0 <= i < |Kids(n)| ==> KidTravels(db, Way(role, n, i), Kids(n)[i], signs, flip)
    ensures KidsMove(db, role, flip, n, env, n, env')
  {
    WithKidsSame(n);
    forall i | 0 <= i < |Kids(n)| ensures KidMoves(db, role, flip, n, env, n, env', i) {
      var way, kid := Way(role, n, i), Kids(n)[i];
      assert KidTravels(db, way, kid, signs, flip);
      if way.Go? {
        assert HopMoves(db, Go(way.role, false), flip != way.flip, kid, env, kid, env');
      } else {
        assert SameAt(db, kid, env, kid, env');
      }
    }
  }

  lemma {:induction false} RowsTravel(db: Db, n: Node, signs: Signs, flip: bool)
    requires RowsFollow(n, signs, flip)
    ensures Travels(db, RowSet, n, signs, flip)
    decreases n, 1
  {
    match n
    case TableName(_) =>
    case TableSource(source) =>
      FollowsTravels(db, RowSet, source, signs, flip);
      WrapperTravels(db, source, signs, flip);
    case Subquery(query) =>
      FollowsTravels(db, RowSet, query, signs, flip);
      WrapperTravels(db, query, signs, flip);
    case Join(_, left, right, on, _, _) =>
      FollowsTravels(db, RowSet, left, signs, flip);
      FollowsTravels(db, RowSet, right, signs, flip);
      CondTravels(db, on, signs, flip);
      JoinTravels(db, n, signs, flip);
    case Select(_, _, _, _, _, _, _, _, _, _) =>
      BodyTravels(db, n, signs, flip);
      WholeTravels(db, n, signs, flip);
    case SetOprList(_, _, _) =>
      BodyTravels(db, n, signs, flip);
      WholeTravels(db, n, signs, flip);
    case SetOprStmt(_, selectList, _) =>
      FollowsTravels(db, RowSet, selectList, signs, flip);
      StmtTravels(db, n, signs, flip);
  }

  lemma WrapperTravels(db: Db, x: Node, signs: Signs, flip: bool)
    requires Travels(db, RowSet, x, signs, flip)
    ensures Travels(db, RowSet, Subquery(x), signs, flip) && Travels(db, RowSet, TableSource(x), signs, flip)
  {
    forall env, env' | Moved(env, env', signs)
      ensures HopMoves(db, Go(RowSet, false), flip, Subquery(x), env, Subquery(x), env')
      ensures HopMoves(db, Go(RowSet, false), flip, TableSource(x), env, TableSource(x), env')
    {
      WrapperRows(db, x, env);
      WrapperRows(db, x, env');
      assert HopMoves(db, Go(RowSet, false), flip, x, env, x, env');
    }
  }

  /** A condition keeps more rows afterwards; with `flip`, fewer. */
  ghost predicate CondMoves(db: Db, c: Node, signs: Signs, flip: bool) {
    forall env, env' :: Moved(env, env', signs) ==>
      if flip then CondWithin(db, c, env', c, env) else CondWithin(db, c, env, c, env')
  }

  lemma {:induction false} CondTravels(db: Db, c: Node, signs: Signs, flip: bool)
    requires CondFollows(c, signs, flip)
    ensures CondMoves(db, c, signs, flip)
    decreases c, 3
  {
    if !c.Nil? {
      FollowsTravels(db, Coarse, c, signs, flip);
      forall env, env' | Moved(env, env', signs)
        ensures if flip then CondWithin(db, c, env', c, env) else CondWithin(db, c, env, c, env')
      {
        forall r ensures Rel(Coarse, flip, TruthAt(db, c, Push(env, r)), TruthAt(db, c, Push(env', r))) {
          assert Moved(Push(env, r), Push(env', r), signs);
          assert HopMoves(db, Go(Coarse, false), flip, c, Push(env, r), c, Push(env', r));
        }
      }
    }
  }

  lemma JoinTravels(db: Db, n: Node, signs: Signs, flip: bool)
    requires n.Join? && n.tp == CrossJoin && CondMoves(db, n.on, signs, flip)
    requires Travels(db, RowSet, n.left, signs, flip) && Travels(db, RowSet, n.right, signs, flip)
    ensures Travels(db, RowSet, n, signs, flip)
  {
    forall env, env' | Moved(env, env', signs) ensures HopMoves(db, Go(RowSet, false), flip, n, env, n, env') {
      assert HopMoves(db, Go(RowSet, false), flip, n.left, env, n.left, env');
      assert HopMoves(db, Go(RowSet, false), flip, n.right, env, n.right, env');
      if flip {
        JoinMonotone(db, n, env', n, env);
      } else {
        JoinMonotone(db, n, env, n, env');
      }
    }
  }

  lemma StmtTravels(db: Db, n: Node, signs: Signs, flip: bool)
    requires n.SetOprStmt? && n.limit.None? && Travels(db, RowSet, n.selectList, signs, flip)
    requires Free(n.with, signs.Keys)
    ensures Travels(db, RowSet, n, signs, flip)
  {
    forall env, env' | Moved(env, env', signs) ensures HopMoves(db, Go(RowSet, false), flip, n, env, n, env') {
      BindMoved(db, n.with, signs, env, env');
      StmtRows(db, n.selectList, n.with, env);
      StmtRows(db, n.selectList, n.with, env');
      assert HopMoves(db, Go(RowSet, false), flip, n.selectList, Bind(db, n.with, env), n.selectList,
          Bind(db, n.with, env'));
    }
  }

  /** A WITH clause that uses none of the names, even one that hides some of them. */
  lemma BindMoved(db: Db, w: Node, signs: Signs, env: Env, env': Env)
    requires Free(w, signs.Keys) && Moved(env, env', signs)
    ensures Moved(Bind(db, w, env), Bind(db, w, env'), signs)
  {
    if w.With? {
      forall i | 0 <= i < |w.ctes| && w.ctes[i].Cte? ensures Still(db, w.ctes[i].query, signs.Keys) {
        FreeQuery(w, i, signs.Keys);
        FreeStill(db, w.ctes[i].query, signs.Keys);
      }
      BindAllMoved(db, w.recursive, w.ctes, signs, env, env');
    }
  }

  lemma FreeQuery(w: Node, i: nat, names: set<string>)
    requires w.With? && i < |w.ctes| && w.ctes[i].Cte? && Free(w, names)
    ensures Free(w.ctes[i].query, names)
  {
    assert Free(Kids(w)[i], names);
    assert Kids(w.ctes[i]) == [w.ctes[i].query];
    assert Free(Kids(w.ctes[i])[0], names);
  }

  lemma {:induction false} BindAllMoved(db: Db, recursive: bool, ctes: seq<Node>, signs: Signs, env: Env, env': Env)
    requires Moved(env, env', signs)
    requires forall i :: 0 <= i < |ctes| && ctes[i].Cte? ==> Still(db, ctes[i].query, signs.Keys)
    ensures Moved(BindAll(db, recursive, ctes, env), BindAll(db, recursive, ctes, env'), signs)
  {
    if ctes != [] {
      var k := |ctes| - 1;
      BindAllMoved(db, recursive, ctes[..k], signs, env, env');
      var earlier, earlier' := BindAll(db, recursive, ctes[..k], env), BindAll(db, recursive, ctes[..k], env');
      if ctes[k].Cte? {
        assert SameAt(db, ctes[k].query, earlier, ctes[k].query, earlier');
      }
    }
  }

  ghost predicate BodyMoves(db: Db, n: Node, signs: Signs, flip: bool) {
    if n.Select? then
      && Travels(db, RowSet, n.from, signs, flip) && CondMoves(db, n.where, signs, flip)
      && CondMoves(db, n.having, signs, flip)
      && forall i :: 0 <= i < |n.fields| ==> Still(db, n.fields[i], signs.Keys)
    else
      n.SetOprList? && forall i :: 0 <= i < |n.selects| ==> Travels(db, RowSet, n.selects[i], signs, flip)
  }

  lemma {:induction false} BodyTravels(db: Db, n: Node, signs: Signs, flip: bool)
    requires BodyFollows(n, signs, flip)
    ensures BodyMoves(db, n, signs, flip)
    decreases n, 0
  {
    if n.Select? {
      FollowsTravels(db, RowSet, n.from, signs, flip);
      CondTravels(db, n.where, signs, flip);
      CondTravels(db, n.having, signs, flip);
      forall i | 0 <= i < |n.fields| ensures Still(db, n.fields[i], signs.Keys) {
        FreeStill(db, n.fields[i], signs.Keys);
      }
    } else {
      forall i | 0 <= i < |n.selects| ensures Travels(db, RowSet, n.selects[i], signs, flip) {
        FollowsTravels(db, RowSet, n.selects[i], signs, flip);
      }
    }
  }

  /** The same SELECT or set operation, but for its WITH clause. */
  predicate SameBody(a: Node, b: Node) {
    if a.Select? then
      && b.Select? && !a.grouped && !b.grouped && a.limit.None? && b.limit.None? && a.distinct == b.distinct
      && a.from == b.from && a.where == b.where && a.having == b.having && a.fields == b.fields
    else
      a.SetOprList? && b.SetOprList? && a.selects == b.selects
  }

  lemma BodyWithin(db: Db, a: Node, b: Node, env: Env, env': Env, signs: Signs, flip: bool)
    requires SameBody(a, b) && BodyMoves(db, a, signs, flip)
    requires Moved(Bind(db, a.with, env), Bind(db, b.with, env'), signs)
    ensures WithinDir(flip, Rows(db, a, env), Rows(db, b, env'))
  {
    var i, i' := Bind(db, a.with, env), Bind(db, b.with, env');
    if a.Select? {
      SelectWithin(db, a, b, env, env', signs, flip);
    } else {
      forall k | 0 <= k < |a.selects| ensures WithinDir(flip, Rows(db, a.selects[k], i), Rows(db, a.selects[k], i')) {
        assert Travels(db, RowSet, a.selects[k], signs, flip);
        assert HopMoves(db, Go(RowSet, false), flip, a.selects[k], i, a.selects[k], i');
      }
      if flip {
        ListMonotone(db, b, env', a, env);
      } else {
        ListMonotone(db, a, env, b, env');
      }
    }
  }

  lemma SelectWithin(db: Db, a: Node, b: Node, env: Env, env': Env, signs: Signs, flip: bool)
    requires SameBody(a, b) && a.Select? && BodyMoves(db, a, signs, flip)
    requires Moved(Bind(db, a.with, env), Bind(db, b.with, env'), signs)
    ensures WithinDir(flip, Rows(db, a, env), Rows(db, b, env'))
  {
    var i, i' := Bind(db, a.with, env), Bind(db, b.with, env');
    assert HopMoves(db, Go(RowSet, false), flip, a.from, i, a.from, i');
    StillFields(db, a.fields, signs.Keys, i, i');
    if flip {
      SelectMonotone(db, b, env', a, env);
    } else {
      SelectMonotone(db, a, env, b, env');
    }
  }

  lemma WholeTravels(db: Db, n: Node, signs: Signs, flip: bool)
    requires (n.Select? && !n.grouped && n.limit.None?) || n.SetOprList?
    requires Free(n.with, signs.Keys) && BodyMoves(db, n, signs, flip)
    ensures Travels(db, RowSet, n, signs, flip)
  {
    forall env, env' | Moved(env, env', signs) ensures HopMoves(db, Go(RowSet, false), flip, n, env, n, env') {
      BindMoved(db, n.with, signs, env, env');
      BodyWithin(db, n, n, env, env', signs, flip);
    }
  }

  // ---------------------------------------------------------------------------------------
  // One common table expression replaced

  /** What one more common table expression does: it may follow the others, and move in turn. */
  function Extend(signs: Signs, cte: Node): Option<Signs> {
    if !cte.Cte? then Some(signs)
    else if Free(cte.query, signs.Keys) then Some(signs - {cte.name})
    else if Follows(RowSet, cte.query, signs, false) then Some(signs[cte.name := false])
    else if Follows(RowSet, cte.query, signs, true) then Some(signs[cte.name := true])
    else None
  }

  /** The names that move when the `k`-th expression gets more rows, if all of them keep to one way. */
  function SignsAfter(ctes: seq<Node>, k: nat): Option<Signs>
    requires k < |ctes| && ctes[k].Cte?
    decreases |ctes|
  {
    var last := |ctes| - 1;
    if k == last then Some(map[ctes[k].name := false])
    else
      match SignsAfter(ctes[..last], k)
      case None => None
      case Some(signs) => Extend(signs, ctes[last])
  }

  lemma ExtendMoved(db: Db, cte: Node, signs: Signs, env: Env, env': Env)
    requires Moved(env, env', signs) && Extend(signs, cte).Some?
    ensures Moved(BindAll(db, false, [cte], env), BindAll(db, false, [cte], env'), Extend(signs, cte).value)
  {
    assert [cte][..0] == [];
    if cte.Cte? {
      if Free(cte.query, signs.Keys) {
        FreeStill(db, cte.query, signs.Keys);
        assert SameAt(db, cte.query, env, cte.query, env');
      } else {
        var flip := !Follows(RowSet, cte.query, signs, false);
        FollowsTravels(db, RowSet, cte.query, signs, flip);
        assert HopMoves(db, Go(RowSet, false), flip, cte.query, env, cte.query, env');
      }
    }
  }

  lemma BindLast(db: Db, recursive: bool, ctes: seq<Node>, env: Env)
    requires ctes != []
    ensures var last := |ctes| - 1;
            BindAll(db, recursive, ctes, env) == BindAll(db, recursive, [ctes[last]],
                BindAll(db, recursive, ctes[..last], env))
  {
    assert [ctes[|ctes| - 1]][..0] == [];
  }

  lemma {:induction false} SignsMoved(db: Db, ctes: seq<Node>, k: nat, x: Node, x': Node, env: Env)
    requires k < |ctes| && ctes[k].Cte? && SignsAfter(ctes, k).Some?
    requires RowsBelow(db, x, x') && Known(db, env) && ListKnown(db, ctes)
    ensures var name := ctes[k].name;
            Moved(BindAll(db, false, ctes[k := Cte(name, x)], env), BindAll(db, false, ctes[k := Cte(name, x')], env),
                  SignsAfter(ctes, k).value)
    decreases |ctes|
  {
    var last, name := |ctes| - 1, ctes[k].name;
    var c, c', earlier := Cte(name, x), Cte(name, x'), ctes[..last];
    BindLast(db, false, ctes[k := c], env);
    BindLast(db, false, ctes[k := c'], env);
    if k == last {
      assert ctes[k := c][..last] == earlier == ctes[k := c'][..last];
      BindAllKnown(db, false, earlier, env);
      FirstMoved(db, name, x, x', BindAll(db, false, earlier, env));
    } else {
      SignsMoved(db, earlier, k, x, x', env);
      assert ctes[k := c][..last] == earlier[k := c] && ctes[k := c'][..last] == earlier[k := c'];
      ExtendMoved(db, ctes[last], SignsAfter(earlier, k).value,
                  BindAll(db, false, earlier[k := c], env), BindAll(db, false, earlier[k := c'], env));
    }
  }

  lemma FirstMoved(db: Db, name: string, x: Node, x': Node, env: Env)
    requires RowsBelow(db, x, x') && Known(db, env)
    ensures Moved(BindAll(db, false, [Cte(name, x)], env), BindAll(db, false, [Cte(name, x')], env), map[name := false])
  {
    assert [Cte(name, x)][..0] == [] && [Cte(name, x')][..0] == [];
    assert Within(Rows(db, x, env), Rows(db, x', env));
  }

  /**
   Is the `k`-th common table expression of `n`, and whatever depends on it, used at one polarity
   only: where more rows make more rows, or, with `flip`, where they make fewer?
   */
  predicate UsedAt(n: Node, k: nat, flip: bool) {
    && (n.Select? || n.SetOprList?) && n.with.With? && !n.with.recursive && k < |n.with.ctes| && n.with.ctes[k].Cte?
    && var signs := SignsAfter(n.with.ctes, k);
       signs.Some? && BodyFollows(n, signs.value, flip)
  }

  /** `n` with another query for its `k`-th common table expression. */
  function WithQuery(n: Node, k: nat, x: Node): Node
    requires (n.Select? || n.SetOprList?) && n.with.With? && k < |n.with.ctes| && n.with.ctes[k].Cte?
  {
    var w := With(n.with.recursive, n.with.ctes[k := Cte(n.with.ctes[k].name, x)]);
    if n.Select? then
      Select(n.distinct, n.ordered, n.grouped, n.limit, n.after, n.from, n.where, n.having, w, n.fields)
    else
      SetOprList(n.after, w, n.selects)
  }

  /** A statement moves with a common table expression that is used at one polarity only. */
  lemma WithMonotone(db: Db, n: Node, k: nat, flip: bool, x: Node, x': Node)
    requires UsedAt(n, k, flip) && Sound(RowSet, n) && BindsKnown(db, n.with) && RowsBelow(db, x, x')
    ensures Moves(db, RowSet, flip, WithQuery(n, k, x), WithQuery(n, k, x'))
  {
    var a, b, signs := WithQuery(n, k, x), WithQuery(n, k, x'), SignsAfter(n.with.ctes, k).value;
    BodyTravels(db, n, signs, flip);
    forall env | Known(db, env) ensures WithinDir(flip, Rows(db, a, env), Rows(db, b, env)) {
      SignsMoved(db, n.with.ctes, k, x, x', env);
      BodyWithin(db, a, b, env, env, signs, flip);
    }
  }
}
