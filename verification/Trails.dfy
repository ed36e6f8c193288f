/**
 The visitor's whole way down to a node. Where every step keeps the meaning of the flag, the flag
 at the end of the way is monotonicity, but for common table expressions that are used where more
 rows make fewer: each of them on the way turns the meaning round, and the flag does not tell.
 */
module Trails {
  import opened Sql
  import opened Containment
  import opened Steps
  import opened Polarity
  import opened CteUse

  /**
   Every step on the way keeps the meaning of the flag, or turns it round: a common table expression
   must be used at one polarity only. The way into it takes three steps, through its WITH clause.
   */
  predicate Clean(role: Role, n: Node, p: Path)
    requires ValidPath(n, p)
    decreases |p|
  {
    p == []
    || (&& Sound(role, n) && Step(role, n, p[0]).Go?
        && if EntersWith(role, n, p[0]) then CleanCte(n, p)
           else Clean(Step(role, n, p[0]).role, Kids(n)[p[0]], p[1..]))
  }

  predicate CleanCte(n: Node, p: Path)
    decreases |p|, 0
  {
    && |p| > 2 && (UsedAt(n, p[1], false) || UsedAt(n, p[1], true)) && p[2] == 0
    && ValidPath(n.with.ctes[p[1]].query, p[3..]) && Clean(RowSet, n.with.ctes[p[1]].query, p[3..])
  }

  /** Is the number of common table expressions on the way that are used at negative polarity odd? */
  predicate Turned(role: Role, n: Node, p: Path)
    requires ValidPath(n, p) && Clean(role, n, p)
    decreases |p|
  {
    p != []
    && if EntersWith(role, n, p[0]) then TurnedCte(n, p)
       else Turned(Step(role, n, p[0]).role, Kids(n)[p[0]], p[1..])
  }

  predicate TurnedCte(n: Node, p: Path)
    requires CleanCte(n, p)
    decreases |p|, 0
  {
    UsedAt(n, p[1], false) == Turned(RowSet, n.with.ctes[p[1]].query, p[3..])
  }

  lemma TrailCons(role: Role, n: Node, p: Path)
    requires ValidPath(n, p) && p != [] && Trail(role, n, p).Go?
    ensures var hop := Step(role, n, p[0]);
            && hop.Go?
            && var rest := Trail(hop.role, Kids(n)[p[0]], p[1..]);
               rest.Go? && Trail(role, n, p) == Go(rest.role, hop.flip != rest.flip)
  {
  }

  lemma PutCons(n: Node, p: Path, m: Node)
    requires ValidPath(n, p) && p != []
    ensures Put(n, p, m) == WithKid(n, p[0], Put(Kids(n)[p[0]], p[1..], m))
  {
  }

  /** Through a WITH clause the flag does not flip. */
  lemma CteTrail(n: Node, p: Path)
    requires (n.Select? || n.SetOprList?) && ValidPath(n, p) && Trail(RowSet, n, p).Go?
    requires |p| > 2 && EntersWith(RowSet, n, p[0]) && n.with.With? && p[1] < |n.with.ctes| && n.with.ctes[p[1]].Cte?
    ensures p[2] == 0 && ValidPath(n.with.ctes[p[1]].query, p[3..]) && n.with.ctes[p[1]].query.Subquery?
    ensures Trail(RowSet, n, p) == Trail(RowSet, n.with.ctes[p[1]].query, p[3..])
  {
    var w := n.with;
    assert Kids(n)[p[0]] == w;
    TrailCons(RowSet, n, p);
    TrailCons(RowSet, w, p[1..]);
    assert p[1..][1..] == p[2..] && p[2..][1..] == p[3..];
    TrailCons(RowSet, w.ctes[p[1]], p[2..]);
  }

  lemma CtePut(n: Node, p: Path, m: Node)
    requires (n.Select? || n.SetOprList?) && ValidPath(n, p) && |p| > 2 && EntersWith(RowSet, n, p[0])
    requires n.with.With? && p[1] < |n.with.ctes| && n.with.ctes[p[1]].Cte? && p[2] == 0
    requires ValidPath(n.with.ctes[p[1]].query, p[3..])
    ensures Put(n, p, m) == WithQuery(n, p[1], Put(n.with.ctes[p[1]].query, p[3..], m))
  {
    CteKids(n, p[0], p[1]);
    PutThree(n, p, m);
    PutInto(n, p[0], p[1], Put(n.with.ctes[p[1]].query, p[3..], m));
  }

  lemma CteKids(n: Node, i: nat, k: nat)
    requires EntersWith(RowSet, n, i) && n.with.With? && k < |n.with.ctes| && n.with.ctes[k].Cte?
    ensures i < |Kids(n)| && Kids(n)[i] == n.with && Kids(n.with) == n.with.ctes
    ensures Kids(n.with.ctes[k]) == [n.with.ctes[k].query]
  {
  }

  lemma PutInto(n: Node, i: nat, k: nat, q: Node)
    requires EntersWith(RowSet, n, i) && n.with.With? && k < |n.with.ctes| && n.with.ctes[k].Cte?
    requires i < |Kids(n)| && Kids(n)[i] == n.with
    ensures WithKid(n, i, WithKid(n.with, k, WithKid(n.with.ctes[k], 0, q))) == WithQuery(n, k, q)
  {
    PutQuery(n.with, k, q);
    PutWith(n, i, With(n.with.recursive, n.with.ctes[k := Cte(n.with.ctes[k].name, q)]));
  }

  lemma PutThree(n: Node, p: Path, m: Node)
    requires ValidPath(n, p) && |p| > 2
    ensures var a := Kids(n)[p[0]];
            p[1] < |Kids(a)| &&
            var b := Kids(a)[p[1]];
            && p[2] < |Kids(b)| && ValidPath(Kids(b)[p[2]], p[3..])
            && Put(n, p, m) == WithKid(n, p[0], WithKid(a, p[1], WithKid(b, p[2], Put(Kids(b)[p[2]], p[3..], m))))
  {
    var a := Kids(n)[p[0]];
    var b := Kids(a)[p[1]];
    assert p[1..][1..] == p[2..] && p[2..][1..] == p[3..];
    PutCons(n, p, m);
    PutCons(a, p[1..], m);
    PutCons(b, p[2..], m);
  }

  lemma PutQuery(w: Node, k: nat, q: Node)
    requires w.With? && k < |w.ctes| && w.ctes[k].Cte?
    ensures WithKid(w, k, WithKid(w.ctes[k], 0, q)) == With(w.recursive, w.ctes[k := Cte(w.ctes[k].name, q)])
  {
  }

  lemma PutWith(n: Node, i: nat, w: Node)
    requires EntersWith(RowSet, n, i)
    ensures WithKid(n, i, w)
         == if n.Select? then
              Select(n.distinct, n.ordered, n.grouped, n.limit, n.after, n.from, n.where, n.having, w, n.fields)
            else SetOprList(n.after, w, n.selects)
  {
    WithKidsSame(n);
    if n.Select? {
      assert Kids(n)[3 := w][4..] == n.fields;
    } else {
      assert Kids(n)[0 := w][1..] == n.selects;
    }
  }

  lemma NamesInside(db: Db, n: Node, k: nat)
    requires NamesKnown(db, n) && (n.Select? || n.SetOprList?) && n.with.With? && k < |n.with.ctes|
        && n.with.ctes[k].Cte?
    ensures BindsKnown(db, n.with) && NamesKnown(db, n.with.ctes[k].query)
  {
    NamesBind(db, n, if n.Select? then 3 else 0);
    NamesBind(db, n.with, k);
    NamesBind(db, n.with.ctes[k], 0);
  }

  /**
   The flag is monotonicity: replacing what the visitor finds at the end of a clean path by
   something higher raises everything above it, or lowers it if the flag has flipped; the other way
   round if the way has turned.
   */
  lemma {:induction false} Monotone(db: Db, role: Role, n: Node, p: Path, flip: bool, m: Node, m': Node)
    requires ValidPath(n, p) && Clean(role, n, p) && Trail(role, n, p).Go? && NamesKnown(db, n)
    requires Moves(db, Trail(role, n, p).role, flip, m, m')
    ensures Moves(db, role, flip != (Trail(role, n, p).flip != Turned(role, n, p)), Put(n, p, m), Put(n, p, m'))
    decreases |p|
  {
    if p == [] {
    } else if EntersWith(role, n, p[0]) {
      MonotoneCte(db, n, p, flip, m, m');
    } else {
      TrailCons(role, n, p);
      NamesBind(db, n, p[0]);
      Monotone(db, Step(role, n, p[0]).role, Kids(n)[p[0]], p[1..], flip, m, m');
      MonotoneStep(db, role, n, p, flip, m, m');
    }
  }

  /** `n` moves with what is put at the address `p`, the way the trail says. */
  ghost predicate PutsMove(db: Db, role: Role, n: Node, p: Path, flip: bool, m: Node, m': Node)
    requires ValidPath(n, p) && Clean(role, n, p) && Trail(role, n, p).Go?
  {
    Moves(db, role, flip != (Trail(role, n, p).flip != Turned(role, n, p)), Put(n, p, m), Put(n, p, m'))
  }

  lemma MonotoneStep(db: Db, role: Role, n: Node, p: Path, flip: bool, m: Node, m': Node)
    requires ValidPath(n, p) && p != [] && !EntersWith(role, n, p[0]) && Trail(role, n, p).Go?
        && Step(role, n, p[0]).Go?
    requires Clean(role, n, p) && NamesKnown(db, n)
    requires Trail(Step(role, n, p[0]).role, Kids(n)[p[0]], p[1..]).Go?
    requires PutsMove(db, Step(role, n, p[0]).role, Kids(n)[p[0]], p[1..], flip, m, m')
    ensures Moves(db, role, flip != (Trail(role, n, p).flip != Turned(role, n, p)), Put(n, p, m), Put(n, p, m'))
  {
    var hop, kid := Step(role, n, p[0]), Kids(n)[p[0]];
    TrailCons(role, n, p);
    PutCons(n, p, m);
    PutCons(n, p, m');
    var turned := Trail(hop.role, kid, p[1..]).flip != Turned(hop.role, kid, p[1..]);
    StepMoves(db, role, n, p[0], flip != turned, Put(kid, p[1..], m), Put(kid, p[1..], m'));
  }

  lemma {:induction false} MonotoneCte(db: Db, n: Node, p: Path, flip: bool, m: Node, m': Node)
    requires ValidPath(n, p) && p != [] && EntersWith(RowSet, n, p[0]) && Clean(RowSet, n, p)
    requires Trail(RowSet, n, p).Go? && NamesKnown(db, n) && Moves(db, Trail(RowSet, n, p).role, flip, m, m')
    ensures Moves(db, RowSet, flip != (Trail(RowSet, n, p).flip != Turned(RowSet, n, p)), Put(n, p, m), Put(n, p, m'))
    decreases |p|, 0
  {
    CteClean(n, p);
    NamesInside(db, n, p[1]);
    var query, q := n.with.ctes[p[1]].query, p[3..];
    Monotone(db, RowSet, query, q, flip, m, m');
    var turned := Trail(RowSet, query, q).flip != Turned(RowSet, query, q);
    PutMoves(db, n, p, !UsedAt(n, p[1], false), flip != turned, m, m');
  }

  lemma CteClean(n: Node, p: Path)
    requires ValidPath(n, p) && p != [] && EntersWith(RowSet, n, p[0]) && Clean(RowSet, n, p) && Trail(RowSet, n, p).Go?
    ensures |p| > 2 && p[2] == 0 && Sound(RowSet, n) && UsedAt(n, p[1], !UsedAt(n, p[1], false))
    ensures var query, q := n.with.ctes[p[1]].query, p[3..];
            && ValidPath(query, q) && Clean(RowSet, query, q) && Trail(RowSet, n, p) == Trail(RowSet, query, q)
            && Turned(RowSet, n, p) == (UsedAt(n, p[1], false) == Turned(RowSet, query, q))
  {
    assert CleanCte(n, p);
    CteTrail(n, p);
    assert Turned(RowSet, n, p) == TurnedCte(n, p);
  }

  lemma PutMoves(db: Db, n: Node, p: Path, used: bool, flip: bool, m: Node, m': Node)
    requires ValidPath(n, p) && |p| > 2 && EntersWith(RowSet, n, p[0]) && p[2] == 0 && Sound(RowSet, n)
    requires UsedAt(n, p[1], used) && BindsKnown(db, n.with) && ValidPath(n.with.ctes[p[1]].query, p[3..])
    requires Moves(db, RowSet, flip, Put(n.with.ctes[p[1]].query, p[3..], m), Put(n.with.ctes[p[1]].query, p[3..], m'))
    ensures Moves(db, RowSet, used != flip, Put(n, p, m), Put(n, p, m'))
  {
    CtePut(n, p, m);
    CtePut(n, p, m');
    var query := n.with.ctes[p[1]].query;
    WithMoves(db, n, p[1], used, flip, Put(query, p[3..], m), Put(query, p[3..], m'));
  }

  lemma WithMoves(db: Db, n: Node, k: nat, used: bool, flip: bool, x: Node, x': Node)
    requires UsedAt(n, k, used) && Sound(RowSet, n) && BindsKnown(db, n.with) && Moves(db, RowSet, flip, x, x')
    ensures Moves(db, RowSet, used != flip, WithQuery(n, k, x), WithQuery(n, k, x'))
  {
    if flip {
      WithMonotone(db, n, k, used, x', x);
    } else {
      WithMonotone(db, n, k, used, x, x');
    }
  }

  lemma {:induction false} PutAtSame(n: Node, p: Path)
    requires ValidPath(n, p)
    ensures Put(n, p, At(n, p)) == n
    decreases |p|
  {
    if p != [] {
      PutAtSame(Kids(n)[p[0]], p[1..]);
      assert Kids(n)[p[0] := Kids(n)[p[0]]] == Kids(n);
      WithKidsSame(n);
    }
  }
}
