/**
 Which candidates the visitor finds, as a function of the tree, and what a candidate's flag is
 worth: `Direction` is the claim the whole tool rests on.
 */
module Candidates {
  import opened Sql
  import opened Containment
  import opened Steps
  import opened Polarity
  import opened CteUse
  import opened Trails
  import opened LikePattern
  import opened Mutation

  // `u`: an upper mutation; `flag`: a positive position. The path is the address of the node.
  datatype Candidate = Candidate(mut: Mut, u: bool, path: Path, flag: bool)

  /** The claim attached to a candidate, ((U ^ Flag) ^ 1) == 1: the mutated result grows. */
  predicate IsUpper(c: Candidate) {
    c.u == c.flag
  }

  // ---------------------------------------------------------------------------------------
  // The candidates of a tree, in the order in which the visitor meets them

  function Visit(role: Role, n: Node, at: Path, flag: bool): seq<Candidate>
    decreases n, 2
  {
    var own := Own(Mine(role, n), n, at, flag);
    var below := VisitKids(role, n, at, flag, 0);
    if n.CompareSub? then own + below
    else if role == RowSet && n.SetOprStmt? then VisitWithTwice(n, at, flag) + below
    else below + own
  }

  function Own(ms: seq<Mut>, n: Node, at: Path, flag: bool): (cs: seq<Candidate>)
    ensures |cs| == |ms|
    ensures forall i :: 0 <= i < |ms| ==> cs[i] == Candidate(ms[i], Upper(ms[i]), at, flag != LocalFlip(n))
  {
    if ms == [] then [] else [Candidate(ms[0], Upper(ms[0]), at, flag != LocalFlip(n))] + Own(ms[1..], n, at, flag)
  }

  function VisitKids(role: Role, n: Node, at: Path, flag: bool, i: nat): seq<Candidate>
    requires i <= |Kids(n)|
    decreases n, 1, |Kids(n)| - i
  {
    if i == |Kids(n)| then [] else Enter(role, n, at, flag, i) + VisitKids(role, n, at, flag, i + 1)
  }

  function Enter(role: Role, n: Node, at: Path, flag: bool, i: nat): seq<Candidate>
    requires i < |Kids(n)|
    decreases n, 0
  {
    match Step(role, n, i)
    case Stop => []
    case Go(r, f) => Visit(r, Kids(n)[i], at + [i], flag != f)
  }

  /** A set operation's statement visits the WITH clause of its list before the list does so again. */
  function VisitWithTwice(n: Node, at: Path, flag: bool): seq<Candidate>
    requires n.SetOprStmt?
    decreases n, 0
  {
    if n.selectList.SetOprList? then Enter(RowSet, n.selectList, at + [0], flag, 0) else []
  }

  /** The candidates of a statement; other nodes are not visited. */
  function CandidatesOf(root: Node): seq<Candidate> {
    if root.Select? || root.SetOprStmt? then Visit(RowSet, root, [], true) else []
  }

  // ---------------------------------------------------------------------------------------
  // Where the candidates are: exactly at the ends of the visitor's trails

  /** `c` is mined at the end of the trail `p` from `n`. */
  predicate MinedAt(role: Role, n: Node, p: Path, at: Path, flag: bool, c: Candidate)
    requires ValidPath(n, p)
  {
    MinedHere(Trail(role, n, p), At(n, p), at + p, flag, c)
  }

  predicate MinedHere(t: Hop, n: Node, path: Path, flag: bool, c: Candidate) {
    && t.Go? && c.mut in Mine(t.role, n) && c.path == path && c.u == Upper(c.mut)
    && c.flag == ((flag != t.flip) != LocalFlip(n))
  }

  lemma MinedFollow(flip: bool, rest: Hop, n: Node, path: Path, flag: bool, c: Candidate)
    ensures MinedHere(Follow(flip, rest), n, path, flag, c) <==> MinedHere(rest, n, path, flag != flip, c)
  {
  }

  ghost predicate MinedBelow(role: Role, n: Node, at: Path, flag: bool, c: Candidate) {
    exists p :: ValidPath(n, p) && MinedAt(role, n, p, at, flag, c)
  }

  lemma OwnIsMined(role: Role, n: Node, at: Path, flag: bool, c: Candidate)
    ensures c in Own(Mine(role, n), n, at, flag) <==> MinedAt(role, n, [], at, flag, c)
  {
    var ms := Mine(role, n);
    if c in Own(ms, n, at, flag) {
      var i :| 0 <= i < |ms| && Own(ms, n, at, flag)[i] == c;
    }
    if MinedAt(role, n, [], at, flag, c) {
      var i :| 0 <= i < |ms| && ms[i] == c.mut;
      assert Own(ms, n, at, flag)[i] == c;
    }
  }

  /** `c` is mined below the `i`-th child. */
  ghost predicate MinedVia(role: Role, n: Node, i: nat, at: Path, flag: bool, c: Candidate)
    requires i < |Kids(n)|
  {
    var hop := Step(role, n, i);
    hop.Go? && MinedBelow(hop.role, Kids(n)[i], at + [i], flag != hop.flip, c)
  }

  lemma MinedStep(role: Role, n: Node, i: nat, q: Path, at: Path, flag: bool, c: Candidate)
    requires i < |Kids(n)| && ValidPath(Kids(n)[i], q)
    ensures ValidPath(n, [i] + q)
    ensures MinedAt(role, n, [i] + q, at, flag, c)
       <==> Step(role, n, i).Go?
            && MinedAt(Step(role, n, i).role, Kids(n)[i], q, at + [i], flag != Step(role, n, i).flip, c)
  {
    TrailUnfold(role, n, i, q);
    var hop, kid, p := Step(role, n, i), Kids(n)[i], [i] + q;
    assert at + p == at + [i] + q;
    assert MinedAt(role, n, p, at, flag, c) == MinedHere(Trail(role, n, p), At(kid, q), at + [i] + q, flag, c);
    if hop.Go? {
      MinedFollow(hop.flip, Trail(hop.role, kid, q), At(kid, q), at + [i] + q, flag, c);
    }
  }

  lemma MinedViaBelow(role: Role, n: Node, i: nat, at: Path, flag: bool, c: Candidate)
    requires i < |Kids(n)| && MinedVia(role, n, i, at, flag, c)
    ensures MinedBelow(role, n, at, flag, c)
  {
    var hop := Step(role, n, i);
    var q :| ValidPath(Kids(n)[i], q) && MinedAt(hop.role, Kids(n)[i], q, at + [i], flag != hop.flip, c);
    MinedStep(role, n, i, q, at, flag, c);
  }

  lemma MinedBelowVia(role: Role, n: Node, p: Path, at: Path, flag: bool, c: Candidate)
    requires ValidPath(n, p) && p != [] && MinedAt(role, n, p, at, flag, c)
    ensures MinedVia(role, n, p[0], at, flag, c)
  {
    assert p == [p[0]] + p[1..];
    MinedStep(role, n, p[0], p[1..], at, flag, c);
  }

  ghost predicate MinedFrom(role: Role, n: Node, i: nat, at: Path, flag: bool, c: Candidate) {
    exists j :: i <= j < |Kids(n)| && MinedVia(role, n, j, at, flag, c)
  }

  lemma MinedFromSplit(role: Role, n: Node, i: nat, at: Path, flag: bool, c: Candidate)
    requires i < |Kids(n)|
    ensures MinedFrom(role, n, i, at, flag, c)
       <==> MinedVia(role, n, i, at, flag, c) || MinedFrom(role, n, i + 1, at, flag, c)
  {
  }

  lemma MinedBelowSplit(role: Role, n: Node, at: Path, flag: bool, c: Candidate)
    ensures MinedBelow(role, n, at, flag, c)
       <==> MinedAt(role, n, [], at, flag, c) || MinedFrom(role, n, 0, at, flag, c)
  {
    if MinedBelow(role, n, at, flag, c) {
      MinedBelowElim(role, n, at, flag, c);
    }
    if MinedFrom(role, n, 0, at, flag, c) {
      var i :| 0 <= i < |Kids(n)| && MinedVia(role, n, i, at, flag, c);
      MinedViaBelow(role, n, i, at, flag, c);
    }
  }

  lemma MinedBelowElim(role: Role, n: Node, at: Path, flag: bool, c: Candidate)
    requires MinedBelow(role, n, at, flag, c)
    ensures MinedAt(role, n, [], at, flag, c) || MinedFrom(role, n, 0, at, flag, c)
  {
    var p :| ValidPath(n, p) && MinedAt(role, n, p, at, flag, c);
    if p != [] {
      MinedBelowVia(role, n, p, at, flag, c);
    }
  }

  lemma {:induction false} EnterFound(role: Role, n: Node, at: Path, flag: bool, i: nat, c: Candidate)
    requires i < |Kids(n)|
    ensures c in Enter(role, n, at, flag, i) <==> MinedVia(role, n, i, at, flag, c)
    decreases n, 0
  {
    var hop := Step(role, n, i);
    if hop.Go? {
      VisitFound(hop.role, Kids(n)[i], at + [i], flag != hop.flip, c);
    }
  }

  lemma {:induction false} VisitKidsFound(role: Role, n: Node, at: Path, flag: bool, i: nat, c: Candidate)
    requires i <= |Kids(n)|
    ensures c in VisitKids(role, n, at, flag, i) <==> MinedFrom(role, n, i, at, flag, c)
    decreases n, 1, |Kids(n)| - i
  {
    if i < |Kids(n)| {
      EnterFound(role, n, at, flag, i, c);
      VisitKidsFound(role, n, at, flag, i + 1, c);
      FoundFrom(role, n, at, flag, i, c);
    } else {
      NoneBeyond(role, n, at, flag, c);
    }
  }

  lemma FoundFrom(role: Role, n: Node, at: Path, flag: bool, i: nat, c: Candidate)
    requires i < |Kids(n)|
    requires c in Enter(role, n, at, flag, i) <==> MinedVia(role, n, i, at, flag, c)
    requires c in VisitKids(role, n, at, flag, i + 1) <==> MinedFrom(role, n, i + 1, at, flag, c)
    ensures c in VisitKids(role, n, at, flag, i) <==> MinedFrom(role, n, i, at, flag, c)
  {
    MinedFromSplit(role, n, i, at, flag, c);
    VisitKidsSplit(role, n, at, flag, i, c);
  }

  lemma NoneBeyond(role: Role, n: Node, at: Path, flag: bool, c: Candidate)
    ensures c !in VisitKids(role, n, at, flag, |Kids(n)|) && !MinedFrom(role, n, |Kids(n)|, at, flag, c)
  {
  }

  lemma VisitKidsSplit(role: Role, n: Node, at: Path, flag: bool, i: nat, c: Candidate)
    requires i < |Kids(n)|
    ensures c in VisitKids(role, n, at, flag, i)
       <==> c in Enter(role, n, at, flag, i) || c in VisitKids(role, n, at, flag, i + 1)
  {
    var here, later := Enter(role, n, at, flag, i), VisitKids(role, n, at, flag, i + 1);
    assert VisitKids(role, n, at, flag, i) == here + later;
  }

  /**
   The visitor records exactly what is mined at the ends of its trails: it misses none of them,
   and everything it records has the flag of its trail.
   */
  lemma {:induction false} VisitFound(role: Role, n: Node, at: Path, flag: bool, c: Candidate)
    ensures c in Visit(role, n, at, flag) <==> MinedBelow(role, n, at, flag, c)
    decreases n, 2
  {
    OwnIsMined(role, n, at, flag, c);
    VisitKidsFound(role, n, at, flag, 0, c);
    MinedBelowSplit(role, n, at, flag, c);
    VisitMembers(role, n, at, flag, c);
    if role == RowSet && n.SetOprStmt? && n.selectList.SetOprList? && c in VisitWithTwice(n, at, flag) {
      EnterFound(RowSet, n.selectList, at + [0], flag, 0, c);
      MinedViaBelow(RowSet, n.selectList, 0, at + [0], flag, c);
      MinedFirst(n, n.selectList, at, flag, c);
    }
  }

  lemma VisitMembers(role: Role, n: Node, at: Path, flag: bool, c: Candidate)
    ensures c in Visit(role, n, at, flag)
       <==> c in Own(Mine(role, n), n, at, flag) || c in VisitKids(role, n, at, flag, 0)
            || (role == RowSet && n.SetOprStmt? && c in VisitWithTwice(n, at, flag))
  {
  }

  lemma MinedFirst(n: Node, kid: Node, at: Path, flag: bool, c: Candidate)
    requires Kids(n) != [] && Kids(n)[0] == kid && StepRows(n, 0) == Go(RowSet, false)
    requires MinedBelow(RowSet, kid, at + [0], flag, c)
    ensures MinedBelow(RowSet, n, at, flag, c)
  {
    MinedViaBelow(RowSet, n, 0, at, flag, c);
  }

  // ---------------------------------------------------------------------------------------
  // The direction claim

  /** A statement with the mutation carried out at one address. */
  function Mutated(root: Node, m: Mut, p: Path, coins: Coins): Option<Node>
    requires ValidPath(root, p)
  {
    match Rewrite(m, At(root, p), coins) case None => None case Some(x) => Some(Put(root, p, x))
  }

  /** A candidate that is reached by clean steps, and suitable where it is. */
  ghost predicate Trusted(db: Db, root: Node, c: Candidate) {
    && ValidPath(root, c.path) && Clean(RowSet, root, c.path) && Trail(RowSet, root, c.path).Go?
    && Sound(Trail(RowSet, root, c.path).role, At(root, c.path))
    && Suitable(db, Trail(RowSet, root, c.path).role, c.mut, At(root, c.path))
  }

  /** The claim: an upper candidate's mutated statement returns at least the original's rows, a lower one's at most. */
  ghost predicate Claim(db: Db, root: Node, c: Candidate, root': Node) {
    if IsUpper(c) then RowsBelow(db, root, root') else RowsBelow(db, root', root)
  }

  /** The same rows, everywhere. */
  ghost predicate SameResult(db: Db, n: Node, n': Node) {
    forall env :: Known(db, env) ==> multiset(Rows(db, n, env)) == multiset(Rows(db, n', env))
  }

  /**
   What a trusted candidate does, for every database, every environment and every statement: it
   moves the result as claimed, or, where the way to it has turned, the other way.
   */
  lemma Moved(db: Db, root: Node, c: Candidate, coins: Coins)
    requires c in CandidatesOf(root) && Trusted(db, root, c) && NamesKnown(db, root)
    ensures Mutated(root, c.mut, c.path, coins).Some?
    ensures var root' := Mutated(root, c.mut, c.path, coins).value;
            if IsUpper(c) != Turned(RowSet, root, c.path) then RowsBelow(db, root, root')
                else RowsBelow(db, root', root)
  {
    CandidateTrail(root, c);
    var p, t := c.path, Trail(RowSet, root, c.path);
    var n := At(root, p);
    NamesAt(db, root, p);
    RewriteMoves(db, t.role, c.mut, n, coins);
    var n' := Rewrite(c.mut, n, coins).value;
    Monotone(db, RowSet, root, p, Upper(c.mut) == LocalFlip(n), n, n');
    PutAtSame(root, p);
    var root', turned := Put(root, p, n'), Turned(RowSet, root, p);
    assert IsUpper(c) <==> (Upper(c.mut) == LocalFlip(n)) == t.flip;
    assert Moves(db, RowSet, IsUpper(c) == turned, root, root');
    MovesRows(db, IsUpper(c) == turned, root, root');
  }

  lemma {:induction false} NamesAt(db: Db, n: Node, p: Path)
    requires NamesKnown(db, n) && ValidPath(n, p)
    ensures NamesKnown(db, At(n, p))
    decreases |p|
  {
    if p != [] {
      NamesAt(db, Kids(n)[p[0]], p[1..]);
    }
  }

  /**
   When the claim holds: exactly where the way to the candidate has not turned, or where the
   mutation changes nothing.
   */
  lemma Direction(db: Db, root: Node, c: Candidate, coins: Coins)
    requires c in CandidatesOf(root) && Trusted(db, root, c) && NamesKnown(db, root)
    ensures Mutated(root, c.mut, c.path, coins).Some?
    ensures var root' := Mutated(root, c.mut, c.path, coins).value;
            Claim(db, root, c, root') <==> !Turned(RowSet, root, c.path) || SameResult(db, root, root')
  {
    Moved(db, root, c, coins);
    var root' := Mutated(root, c.mut, c.path, coins).value;
    if RowsBelow(db, root, root') && RowsBelow(db, root', root) {
      forall env | Known(db, env) ensures multiset(Rows(db, root, env)) == multiset(Rows(db, root', env)) {
        assert Within(Rows(db, root, env), Rows(db, root', env)) && Within(Rows(db, root', env), Rows(db, root, env));
      }
    }
  }

  lemma CandidateTrail(root: Node, c: Candidate)
    requires c in CandidatesOf(root)
    ensures ValidPath(root, c.path) && MinedAt(RowSet, root, c.path, [], true, c)
  {
    VisitFound(RowSet, root, [], true, c);
    var p :| ValidPath(root, p) && MinedAt(RowSet, root, p, [], true, c);
    assert [] + p == p;
  }

  lemma MovesRows(db: Db, flip: bool, n: Node, n': Node)
    requires Moves(db, RowSet, flip, n, n')
    ensures if flip then RowsBelow(db, n', n) else RowsBelow(db, n, n')
  {
  }

  /**
   The flag by itself, with no mutation in sight: put anything higher, or lower, in the place of
   a visited node, and the statement follows if the flag there is positive, and does the opposite
   if it is negative.
   */
  lemma FlagIsMonotonicity(db: Db, root: Node, p: Path, n': Node)
    requires (root.Select? || root.SetOprStmt?) && NamesKnown(db, root)
    requires ValidPath(root, p) && Clean(RowSet, root, p) && Trail(RowSet, root, p).Go? && !Turned(RowSet, root, p)
    ensures var t, root' := Trail(RowSet, root, p), Put(root, p, n');
            var flag := !t.flip;
            && (Below(db, t.role, At(root, p), n') ==>
                  if flag then RowsBelow(db, root, root') else RowsBelow(db, root', root))
            && (Below(db, t.role, n', At(root, p)) ==>
                  if flag then RowsBelow(db, root', root) else RowsBelow(db, root, root'))
  {
    var t, n, root' := Trail(RowSet, root, p), At(root, p), Put(root, p, n');
    PutAtSame(root, p);
    if Below(db, t.role, n, n') {
      Monotone(db, RowSet, root, p, false, n, n');
      MovesRows(db, t.flip, root, root');
    }
    if Below(db, t.role, n', n) {
      Monotone(db, RowSet, root, p, true, n, n');
      MovesRows(db, !t.flip, root, root');
    }
  }

  // ---------------------------------------------------------------------------------------
  // Whole statements

  /**
   Nothing the visitor comes to is one of the exceptions: all its steps keep the meaning of the
   flag, and all the mutations it finds suit their place.
   */
  ghost predicate Tame(db: Db, role: Role, n: Node)
    decreases n, 1
  {
    && Sound(role, n) && (forall m :: m in Mine(role, n) ==> Suitable(db, role, m, n))
    && forall i :: 0 <= i < |Kids(n)| && Step(role, n, i).Go? ==>
         if EntersWith(role, n, i) then TameWith(db, n) else Tame(db, Step(role, n, i).role, Kids(n)[i])
  }

  /** Every common table expression that is visited is used at positive polarity only, and tame. */
  ghost predicate TameWith(db: Db, n: Node)
    decreases n, 0
  {
    (n.Select? || n.SetOprList?) && n.with.With? &&
    forall k :: 0 <= k < |n.with.ctes| && n.with.ctes[k].Cte? && n.with.ctes[k].query.Subquery? ==>
      UsedAt(n, k, false) && Tame(db, RowSet, n.with.ctes[k].query)
  }

  lemma {:induction false} TameTrail(db: Db, role: Role, n: Node, p: Path)
    requires Tame(db, role, n) && ValidPath(n, p) && Trail(role, n, p).Go? && !At(n, p).With? && !At(n, p).Cte?
    ensures Clean(role, n, p) && !Turned(role, n, p) && Tame(db, Trail(role, n, p).role, At(n, p))
    decreases |p|
  {
    if p != [] {
      TrailCons(role, n, p);
      if EntersWith(role, n, p[0]) {
        TameCteTrail(db, n, p);
      } else {
        TameTrail(db, Step(role, n, p[0]).role, Kids(n)[p[0]], p[1..]);
      }
    }
  }

  lemma {:induction false} TameCteTrail(db: Db, n: Node, p: Path)
    requires Tame(db, RowSet, n) && ValidPath(n, p) && Trail(RowSet, n, p).Go? && !At(n, p).With? && !At(n, p).Cte?
    requires p != [] && EntersWith(RowSet, n, p[0])
    ensures Clean(RowSet, n, p) && !Turned(RowSet, n, p) && Tame(db, Trail(RowSet, n, p).role, At(n, p))
    decreases |p|, 0
  {
    CteEnds(n, p);
    CteTrail(n, p);
    CteAt(n, p);
    assert TameWith(db, n);
    TameTrail(db, RowSet, n.with.ctes[p[1]].query, p[3..]);
  }

  /** A way into a WITH clause that does not end there goes on into one of its expressions. */
  lemma CteEnds(n: Node, p: Path)
    requires ValidPath(n, p) && Trail(RowSet, n, p).Go? && p != [] && EntersWith(RowSet, n, p[0])
    requires !At(n, p).With? && !At(n, p).Cte?
    ensures |p| > 2 && n.with.With? && p[1] < |n.with.ctes| && n.with.ctes[p[1]].Cte?
  {
    if |p| <= 2 {
      CteShort(n, p);
    } else {
      assert Kids(n)[p[0]] == n.with;
      TrailCons(RowSet, n, p);
      TrailCons(RowSet, n.with, p[1..]);
    }
  }

  lemma CteShort(n: Node, p: Path)
    requires ValidPath(n, p) && Trail(RowSet, n, p).Go? && p != [] && EntersWith(RowSet, n, p[0]) && |p| <= 2
    ensures At(n, p).With? || At(n, p).Cte?
  {
    assert Kids(n)[p[0]] == n.with;
    TrailCons(RowSet, n, p);
    if |p| == 2 {
      TrailCons(RowSet, n.with, p[1..]);
      assert p[1..][0] == p[1] && p[1..][1..] == [];
      assert At(n, p) == At(n.with, p[1..]) == n.with.ctes[p[1]];
    } else {
      assert p[1..] == [];
    }
  }

  lemma CteAt(n: Node, p: Path)
    requires (n.Select? || n.SetOprList?) && ValidPath(n, p) && |p| > 2 && EntersWith(RowSet, n, p[0])
    requires n.with.With? && p[1] < |n.with.ctes| && n.with.ctes[p[1]].Cte? && p[2] == 0
    requires ValidPath(n.with.ctes[p[1]].query, p[3..])
    ensures At(n, p) == At(n.with.ctes[p[1]].query, p[3..])
  {
    CteKids(n, p[0], p[1]);
    assert p[1..][1..] == p[2..] && p[2..][1..] == p[3..];
    assert At(n, p) == At(n.with, p[1..]) == At(n.with.ctes[p[1]], p[2..]);
  }

  /** In a tame statement every candidate's claim holds. */
  lemma TameTrusted(db: Db, root: Node, c: Candidate)
    requires Tame(db, RowSet, root) && c in CandidatesOf(root)
    ensures Trusted(db, root, c) && !Turned(RowSet, root, c.path)
  {
    CandidateMined(root, c);
    TameTrail(db, RowSet, root, c.path);
    TameMined(db, Trail(RowSet, root, c.path).role, At(root, c.path), c.mut);
  }

  lemma CandidateMined(root: Node, c: Candidate)
    requires c in CandidatesOf(root)
    ensures ValidPath(root, c.path) && Trail(RowSet, root, c.path).Go?
    ensures c.mut in Mine(Trail(RowSet, root, c.path).role, At(root, c.path))
    ensures !At(root, c.path).With? && !At(root, c.path).Cte?
  {
    CandidateTrail(root, c);
    var n := At(root, c.path);
    assert MinedHere(Trail(RowSet, root, c.path), n, [] + c.path, true, c);
    if n.With? || n.Cte? {
      NothingMined(Trail(RowSet, root, c.path).role, n);
    }
  }

  lemma NothingMined(role: Role, n: Node)
    requires n.With? || n.Cte?
    ensures Mine(role, n) == []
  {
  }

  lemma TameMined(db: Db, role: Role, n: Node, m: Mut)
    requires Tame(db, role, n) && m in Mine(role, n)
    ensures Sound(role, n) && Suitable(db, role, m, n)
  {
  }

  lemma TameClaim(db: Db, root: Node, c: Candidate, coins: Coins)
    requires Tame(db, RowSet, root) && NamesKnown(db, root) && c in CandidatesOf(root)
    ensures ValidPath(root, c.path) && Mutated(root, c.mut, c.path, coins).Some?
    ensures Claim(db, root, c, Mutated(root, c.mut, c.path, coins).value)
  {
    TameTrusted(db, root, c);
    Direction(db, root, c, coins);
  }

  /** Comparing with ALL or ANY of a table is tame exactly when the table has rows. */
  lemma QuantifiedTame(db: Db, role: Role, op: Op, all: bool, l: Node, distinct: bool, t: string, width: nat,
        fields: seq<Node>)
    requires role != RowSet && t !in db.cteNames
    ensures var q := Select(distinct, true, false, None, None, From(TableName(t), width), Nil, Nil, Nil, fields);
            Tame(db, role, CompareSub(op, all, l, Subquery(q))) <==> db.tables(t) != []
  {
    var q := Select(distinct, true, false, None, None, From(TableName(t), width), Nil, Nil, Nil, fields);
    var n := CompareSub(op, all, l, Subquery(q));
    TableNeverEmpty(db, distinct, true, t, width, fields);
    TableTame(db, q);
    OpMined(FixMCmpOpU, op);
    assert (if all then FixMAllToAnyU else FixMAnyToAllL) in MineExpr(n);
    assert forall m :: m in MineOp(op) ==> Suitable(db, role, m, n);
    QuantifiedSuits(db, role, op, all, l, Subquery(q));
    assert Kids(n) == [l, Subquery(q)] && Step(role, n, 0) == Stop && Step(role, n, 1) == Go(RowSet, all);
    assert Tame(db, RowSet, Kids(n)[1]);
  }

  lemma QuantifiedSuits(db: Db, role: Role, op: Op, all: bool, l: Node, r: Node)
    requires role != RowSet
    ensures var n := CompareSub(op, all, l, r);
            (forall m :: m in Mine(role, n) ==> Suitable(db, role, m, n)) <==> NeverEmpty(db, r)
  {
    var n := CompareSub(op, all, l, r);
    var own := if all then FixMAllToAnyU else FixMAnyToAllL;
    assert Mine(role, n) == MineOp(op) + [own];
    assert own in Mine(role, n) && (Suitable(db, role, own, n) <==> NeverEmpty(db, r));
    forall m | m in MineOp(op) ensures Suitable(db, role, m, n) {
      OpMined(m, op);
    }
  }

  lemma TableTame(db: Db, q: Node)
    requires q.Select? && !q.grouped && q.limit.None? && q.where.Nil? && q.having.Nil? && q.with.Nil?
    requires q.from.Join? && q.from.left.TableSource? && q.from.left.source.TableName? && q.from.right.Nil?
        && q.from.on.Nil?
    ensures Tame(db, RowSet, Subquery(q))
  {
    assert Tame(db, RowSet, q.from.left);
    assert Tame(db, RowSet, q.from);
    assert Tame(db, RowSet, q);
  }
}
