/**
 The tree as the program holds it: nodes on a heap, children as pointers, mutations carried out
 in place, printed, and undone. `Ast.ImpoMutate` is proved to print exactly the statement
 `Candidates.Mutated` describes and to leave every existing node as it found it.
 */
module AstStore {
  import opened Sql
  import opened Steps
  import opened LikePattern
  import opened Mutation
  import opened Candidates
  import Visitor

  type Ptr = nat

  // A node on the heap: its own fields, with the children left out, and where the children are.
  datatype Cell = Cell(own: Node, kids: seq<Ptr>)
  type Store = map<Ptr, Cell>

  function Erase(n: Node): Node {
    WithKids(n, seq(|Kids(n)|, _ => Nil))
  }

  lemma Relabel(n: Node)
    ensures |Kids(Erase(n))| == |Kids(n)| && WithKids(Erase(n), Kids(n)) == n
  {
    WithKidsSame(n);
  }

  lemma EraseWithKid(n: Node, i: nat, m: Node)
    requires i < |Kids(n)|
    ensures Erase(WithKid(n, i, m)) == Erase(n)
  {
    var ks, nils := Kids(n)[i := m], seq(|Kids(n)|, _ => Nil);
    WithKidsTwice(n, ks, nils);
    assert seq(|ks|, _ => Nil) == nils;
  }

  /** The heap holds the tree `n` at `p`. */
  ghost predicate Rep(s: Store, p: Ptr, n: Node)
    decreases n
  {
    && p in s && s[p].own == Erase(n) && |s[p].kids| == |Kids(n)|
    && forall i :: 0 <= i < |Kids(n)| ==> Rep(s, s[p].kids[i], Kids(n)[i])
  }

  ghost function PtrAt(s: Store, p: Ptr, n: Node, q: Path): Ptr
    requires Rep(s, p, n) && ValidPath(n, q)
    decreases q
  {
    if q == [] then p else PtrAt(s, s[p].kids[q[0]], Kids(n)[q[0]], q[1..])
  }

  /** `x` is not among the nodes of the tree. */
  ghost predicate Avoids(s: Store, p: Ptr, n: Node, x: Ptr)
    requires Rep(s, p, n)
    decreases n
  {
    p != x && AvoidsBelow(s, p, n, x)
  }

  ghost predicate AvoidsBelow(s: Store, p: Ptr, n: Node, x: Ptr)
    requires Rep(s, p, n)
    decreases n, 0
  {
    forall i :: 0 <= i < |Kids(n)| ==> Avoids(s, s[p].kids[i], Kids(n)[i], x)
  }

  /** The node at the address `q` is reached along `q` only. */
  ghost predicate Unique(s: Store, p: Ptr, n: Node, q: Path)
    requires Rep(s, p, n) && ValidPath(n, q)
    decreases q
  {
    var x := PtrAt(s, p, n, q);
    if q == [] then AvoidsBelow(s, p, n, x)
    else
      && p != x
      && (forall j :: 0 <= j < |Kids(n)| && j != q[0] ==> Avoids(s, s[p].kids[j], Kids(n)[j], x))
      && Unique(s, s[p].kids[q[0]], Kids(n)[q[0]], q[1..])
  }

  ghost predicate Separate(s: Store, p: Ptr, n: Node)
    requires Rep(s, p, n)
  {
    forall q :: ValidPath(n, q) ==> Unique(s, p, n, q)
  }

  /** `s'` has every cell of `s`, except perhaps another one at `x`. */
  ghost predicate Keeps(s: Store, s': Store, x: Ptr) {
    forall k :: k in s && k != x ==> k in s' && s'[k] == s[k]
  }

  /** `s'` has every cell of `s`. */
  ghost predicate Extends(s: Store, s': Store) {
    forall k :: k in s ==> k in s' && s'[k] == s[k]
  }

  lemma NextKid(ks: seq<Node>, i: nat)
    requires i < |ks|
    ensures ks[..i] + [ks[i]] == ks[..i + 1]
  {
  }

  lemma AllKids(ks: seq<Node>)
    ensures ks[..|ks|] == ks
  {
  }

  // ---------------------------------------------------------------------------------------
  // What a write leaves alone

  /** Every cell of the tree is the same in both heaps. */
  ghost predicate Same(s: Store, s': Store, p: Ptr, n: Node)
    requires Rep(s, p, n)
    decreases n
  {
    p in s' && s'[p] == s[p] && forall i :: 0 <= i < |Kids(n)| ==> Same(s, s', s[p].kids[i], Kids(n)[i])
  }

  lemma {:induction false} Frame(s: Store, s': Store, p: Ptr, n: Node, x: Ptr)
    requires Rep(s, p, n) && Avoids(s, p, n, x) && Keeps(s, s', x)
    ensures Same(s, s', p, n)
    decreases n
  {
    forall i | 0 <= i < |Kids(n)| ensures Same(s, s', s[p].kids[i], Kids(n)[i]) {
      Frame(s, s', s[p].kids[i], Kids(n)[i], x);
    }
  }

  /** Allocating changes nothing that is there. */
  lemma {:induction false} ExtendSame(s: Store, s': Store, p: Ptr, n: Node)
    requires Rep(s, p, n) && Extends(s, s')
    ensures Same(s, s', p, n)
    decreases n
  {
    forall i | 0 <= i < |Kids(n)| ensures Same(s, s', s[p].kids[i], Kids(n)[i]) {
      ExtendSame(s, s', s[p].kids[i], Kids(n)[i]);
    }
  }

  lemma {:induction false} SameRep(s: Store, s': Store, p: Ptr, n: Node)
    requires Rep(s, p, n) && Same(s, s', p, n)
    ensures Rep(s', p, n)
    decreases n
  {
    forall i | 0 <= i < |Kids(n)| ensures Rep(s', s[p].kids[i], Kids(n)[i]) {
      SameRep(s, s', s[p].kids[i], Kids(n)[i]);
    }
  }

  lemma {:induction false} SameAvoids(s: Store, s': Store, p: Ptr, n: Node, x: Ptr)
    requires Rep(s, p, n) && Same(s, s', p, n) && Rep(s', p, n)
    ensures Avoids(s', p, n, x) <==> Avoids(s, p, n, x)
    decreases n
  {
    forall i | 0 <= i < |Kids(n)|
      ensures Avoids(s', s[p].kids[i], Kids(n)[i], x) <==> Avoids(s, s[p].kids[i], Kids(n)[i], x)
    {
      SameAvoids(s, s', s[p].kids[i], Kids(n)[i], x);
    }
  }

  lemma {:induction false} SamePtr(s: Store, s': Store, p: Ptr, n: Node, q: Path)
    requires Rep(s, p, n) && ValidPath(n, q) && Same(s, s', p, n) && Rep(s', p, n)
    ensures PtrAt(s', p, n, q) == PtrAt(s, p, n, q)
    decreases q
  {
    if q != [] {
      SamePtr(s, s', s[p].kids[q[0]], Kids(n)[q[0]], q[1..]);
    }
  }

  lemma {:induction false} SameUnique(s: Store, s': Store, p: Ptr, n: Node, q: Path)
    requires Rep(s, p, n) && ValidPath(n, q) && Same(s, s', p, n) && Rep(s', p, n)
    ensures Unique(s', p, n, q) <==> Unique(s, p, n, q)
    decreases q
  {
    var x := PtrAt(s, p, n, q);
    SamePtr(s, s', p, n, q);
    forall i | 0 <= i < |Kids(n)|
      ensures Avoids(s', s[p].kids[i], Kids(n)[i], x) <==> Avoids(s, s[p].kids[i], Kids(n)[i], x)
    {
      SameAvoids(s, s', s[p].kids[i], Kids(n)[i], x);
    }
    if q != [] {
      SameUnique(s, s', s[p].kids[q[0]], Kids(n)[q[0]], q[1..]);
    }
  }

  lemma {:induction false} FreshAvoided(s: Store, p: Ptr, n: Node, x: Ptr)
    requires Rep(s, p, n) && x !in s
    ensures Avoids(s, p, n, x)
    decreases n
  {
    forall i | 0 <= i < |Kids(n)| ensures Avoids(s, s[p].kids[i], Kids(n)[i], x) {
      FreshAvoided(s, s[p].kids[i], Kids(n)[i], x);
    }
  }

  lemma {:induction false} RepAt(s: Store, p: Ptr, n: Node, q: Path)
    requires Rep(s, p, n) && ValidPath(n, q)
    ensures Rep(s, PtrAt(s, p, n, q), At(n, q))
    decreases q
  {
    if q != [] {
      RepAt(s, s[p].kids[q[0]], Kids(n)[q[0]], q[1..]);
    }
  }

  lemma ExtendTree(s: Store, s': Store, p: Ptr, n: Node)
    requires Rep(s, p, n) && Separate(s, p, n) && Extends(s, s')
    ensures Rep(s', p, n) && Separate(s', p, n)
  {
    ExtendSame(s, s', p, n);
    SameRep(s, s', p, n);
    forall q | ValidPath(n, q) ensures Unique(s', p, n, q) {
      SameUnique(s, s', p, n, q);
    }
  }

  /** Writing one cell puts another subtree at its address. */
  lemma {:induction false} RepPut(s: Store, s': Store, p: Ptr, n: Node, q: Path, m: Node)
    requires Rep(s, p, n) && ValidPath(n, q) && Unique(s, p, n, q)
    requires Keeps(s, s', PtrAt(s, p, n, q)) && Rep(s', PtrAt(s, p, n, q), m)
    ensures Rep(s', p, Put(n, q, m))
    decreases q
  {
    if q != [] {
      var x, i := PtrAt(s, p, n, q), q[0];
      var kids := s[p].kids;
      RepPut(s, s', kids[i], Kids(n)[i], q[1..], m);
      var n' := Put(n, q, m);
      EraseWithKid(n, i, Put(Kids(n)[i], q[1..], m));
      forall j | 0 <= j < |Kids(n')| ensures Rep(s', kids[j], Kids(n')[j]) {
        if j != i {
          Frame(s, s', kids[j], Kids(n)[j], x);
          SameRep(s, s', kids[j], Kids(n)[j]);
        }
      }
    }
  }

  lemma {:induction false} PutPut(n: Node, q: Path, i: nat, m: Node)
    requires ValidPath(n, q) && i < |Kids(At(n, q))|
    ensures ValidPath(n, q + [i]) && At(n, q + [i]) == Kids(At(n, q))[i]
    ensures Put(n, q + [i], m) == Put(n, q, WithKid(At(n, q), i, m))
    decreases q
  {
    if q == [] {
      assert [] + [i] == [i] && [i][1..] == [];
    } else {
      PutPut(Kids(n)[q[0]], q[1..], i, m);
      assert (q + [i])[1..] == q[1..] + [i];
    }
  }

  lemma {:induction false} PtrAtLast(s: Store, p: Ptr, n: Node, q: Path, i: nat)
    requires Rep(s, p, n) && ValidPath(n, q) && i < |Kids(At(n, q))| && ValidPath(n, q + [i])
    ensures PtrAt(s, p, n, q) in s && i < |s[PtrAt(s, p, n, q)].kids|
    ensures PtrAt(s, p, n, q + [i]) == s[PtrAt(s, p, n, q)].kids[i]
    decreases q
  {
    if q == [] {
      assert [] + [i] == [i] && [i][1..] == [];
    } else {
      assert (q + [i])[1..] == q[1..] + [i];
      PtrAtLast(s, s[p].kids[q[0]], Kids(n)[q[0]], q[1..], i);
    }
  }

  // ---------------------------------------------------------------------------------------
  // The replacement walk

  /** The child slots exprReplacer.Leave looks at. */
  predicate Slot(own: Node, i: nat) {
    match own
    case Select(_, _, _, _, _, _, _, _, _, _) => i == 1 || i == 2 || i >= 4
    case Join(_, _, _, _, _, _) => i == 2
    case Binary(_, _, _) => true
    case Not(_) => true
    case Paren(_) => true
    case IsNull(_, _) => true
    case IsTruth(_, _, _) => true
    case InList(_, _, _) => i == 0
    case InSub(_, _, _) => i == 0
    case Like(_, _, _) => i == 0
    case CompareSub(_, _, _, _) => i == 0
    case Func(_, _) => true
    case Cast(_, _) => true
    case _ => false
  }

  function Redirect(s: Store, y: Ptr, i: nat, r: Ptr): Store
    requires y in s && i < |s[y].kids|
  {
    if Slot(s[y].own, i) then s[y := Cell(s[y].own, s[y].kids[i := r])] else s
  }

  /** Every expression the visitor reaches sits in a slot the replacer rewrites. */
  lemma VisitedSlots(role: Role, n: Node, i: nat)
    requires i < |Kids(n)| && Step(role, n, i).Go? && Step(role, n, i).role != RowSet
    ensures Slot(n, i) && Slot(Erase(n), i)
  {
  }

  /** Where a walk below `p` will find its target: at the address `q`, or (None) nowhere. */
  ghost predicate Aimed(s: Store, p: Ptr, n: Node, target: Ptr, q: Option<Path>)
    requires Rep(s, p, n)
  {
    match q
    case None => AvoidsBelow(s, p, n, target)
    case Some(q) =>
      && q != [] && ValidPath(n, q) && PtrAt(s, p, n, q) == target
      && Unique(s, p, n, q) && ValidPath(n, q[..|q| - 1]) && Unique(s, p, n, q[..|q| - 1])
  }

  /** The slot at the address `q` pointed to `r`; the parent may be of a kind that is not rewritten. */
  ghost function Redirected(s: Store, p: Ptr, n: Node, q: Option<Path>, r: Ptr): Store
    requires Rep(s, p, n) && (q.Some? ==> q.value != [] && ValidPath(n, q.value))
  {
    match q
    case None => s
    case Some(q) =>
      var k := |q| - 1;
      LastStep(s, p, n, q);
      Redirect(s, PtrAt(s, p, n, q[..k]), q[k], r)
  }

  lemma {:induction false} LastStep(s: Store, p: Ptr, n: Node, q: Path)
    requires Rep(s, p, n) && q != [] && ValidPath(n, q)
    ensures var k := |q| - 1;
            && ValidPath(n, q[..k]) && q[k] < |Kids(At(n, q[..k]))|
            && PtrAt(s, p, n, q[..k]) in s && q[k] < |s[PtrAt(s, p, n, q[..k])].kids|
            && PtrAt(s, p, n, q) == s[PtrAt(s, p, n, q[..k])].kids[q[k]]
    decreases q
  {
    if |q| > 1 {
      LastStep(s, s[p].kids[q[0]], Kids(n)[q[0]], q[1..]);
      assert q[..|q| - 1][1..] == q[1..][..|q| - 2];
    }
  }

  /** What the walk is to find below the `i`-th child. */
  function Aim(q: Option<Path>, i: nat): Option<Path> {
    if q.Some? && |q.value| > 1 && q.value[0] == i then Some(q.value[1..]) else None
  }

  lemma UniqueStep(s: Store, p: Ptr, n: Node, q: Path, x: Ptr)
    requires Rep(s, p, n) && q != [] && ValidPath(n, q) && Unique(s, p, n, q) && PtrAt(s, p, n, q) == x
    ensures p != x
    ensures forall j :: 0 <= j < |Kids(n)| && j != q[0] ==> Avoids(s, s[p].kids[j], Kids(n)[j], x)
    ensures Unique(s, s[p].kids[q[0]], Kids(n)[q[0]], q[1..])
    ensures PtrAt(s, s[p].kids[q[0]], Kids(n)[q[0]], q[1..]) == x
  {
  }

  lemma AimedBelow(s: Store, p: Ptr, n: Node, target: Ptr, q: Option<Path>, i: nat)
    requires Rep(s, p, n) && Aimed(s, p, n, target, q) && i < |Kids(n)|
    ensures Aimed(s, s[p].kids[i], Kids(n)[i], target, Aim(q, i))
  {
    if q.Some? {
      var path := q.value;
      var k := |path| - 1;
      UniqueStep(s, p, n, path, target);
      if path[0] == i {
        if k > 0 {
          assert path[..k][1..] == path[1..][..k - 1];
          UniqueStep(s, p, n, path[..k], PtrAt(s, p, n, path[..k]));
        } else {
          assert path[1..] == [];
        }
      } else {
        assert Avoids(s, s[p].kids[i], Kids(n)[i], target);
      }
    } else {
      assert Avoids(s, s[p].kids[i], Kids(n)[i], target);
    }
  }

  lemma SameParent(s: Store, p: Ptr, n: Node, path: Path)
    requires Rep(s, p, n) && |path| > 1 && ValidPath(n, path) && ValidPath(n, path[..|path| - 1])
    ensures ValidPath(Kids(n)[path[0]], path[1..][..|path| - 2])
    ensures PtrAt(s, p, n, path[..|path| - 1])
         == PtrAt(s, s[p].kids[path[0]], Kids(n)[path[0]], path[1..][..|path| - 2])
  {
    assert path[..|path| - 1][1..] == path[1..][..|path| - 2];
  }

  lemma RedirectedBelow(s: Store, p: Ptr, n: Node, q: Option<Path>, r: Ptr, i: nat)
    requires Rep(s, p, n) && q.Some? && |q.value| > 1 && ValidPath(n, q.value) && q.value[0] == i
    ensures Redirected(s, p, n, q, r) == Redirected(s, s[p].kids[i], Kids(n)[i], Some(q.value[1..]), r)
  {
    var path := q.value;
    LastStep(s, p, n, path);
    LastStep(s, s[p].kids[i], Kids(n)[i], path[1..]);
    SameParent(s, p, n, path);
  }

  /** Redirecting the slot leaves the other children, and the node itself unless it is the parent. */
  lemma RedirectedElsewhere(s: Store, p: Ptr, n: Node, target: Ptr, q: Option<Path>, r: Ptr, j: nat)
    requires Rep(s, p, n) && Aimed(s, p, n, target, q) && q.Some? && |q.value| > 1
    requires j < |Kids(n)| && j != q.value[0]
    ensures Same(s, Redirected(s, p, n, q, r), s[p].kids[j], Kids(n)[j])
  {
    var path := q.value;
    LastStep(s, p, n, path);
    var y := PtrAt(s, p, n, path[..|path| - 1]);
    Frame(s, Redirected(s, p, n, q, r), s[p].kids[j], Kids(n)[j], y);
  }

  lemma RedirectedSelf(s: Store, p: Ptr, n: Node, target: Ptr, q: Option<Path>, r: Ptr)
    requires Rep(s, p, n) && Aimed(s, p, n, target, q) && q.Some? && |q.value| > 1
    ensures p in Redirected(s, p, n, q, r) && Redirected(s, p, n, q, r)[p] == s[p]
  {
    LastStep(s, p, n, q.value);
  }

  /** The children of a node other than the aimed-at one are not the target. */
  lemma NotTarget(s: Store, p: Ptr, n: Node, target: Ptr, q: Option<Path>, i: nat)
    requires Rep(s, p, n) && Aimed(s, p, n, target, q) && i < |Kids(n)|
    ensures s[p].kids[i] == target <==> q == Some([i])
  {
    if q.Some? {
      var path := q.value;
      UniqueStep(s, p, n, path, target);
      if path[0] != i {
        assert Avoids(s, s[p].kids[i], Kids(n)[i], target);
      } else if |path| > 1 {
        UniqueStep(s, s[p].kids[i], Kids(n)[i], path[1..], target);
      } else {
        assert path == [i] && path[1..] == [];
      }
    } else {
      assert Avoids(s, s[p].kids[i], Kids(n)[i], target);
    }
  }

  // ---------------------------------------------------------------------------------------
  // The tree after a write

  lemma {:induction false} UniqueBelow(s: Store, p: Ptr, n: Node, q: Path)
    requires Rep(s, p, n) && ValidPath(n, q) && Unique(s, p, n, q)
    ensures Rep(s, PtrAt(s, p, n, q), At(n, q))
    ensures AvoidsBelow(s, PtrAt(s, p, n, q), At(n, q), PtrAt(s, p, n, q))
    decreases q
  {
    if q != [] {
      UniqueStep(s, p, n, q, PtrAt(s, p, n, q));
      UniqueBelow(s, s[p].kids[q[0]], Kids(n)[q[0]], q[1..]);
    }
  }

  lemma UniqueCons(s: Store, p: Ptr, n: Node, i: nat, q: Path, x: Ptr)
    requires Rep(s, p, n) && i < |Kids(n)| && ValidPath(Kids(n)[i], q) && p != x
    requires PtrAt(s, s[p].kids[i], Kids(n)[i], q) == x && Unique(s, s[p].kids[i], Kids(n)[i], q)
    requires forall j :: 0 <= j < |Kids(n)| && j != i ==> Avoids(s, s[p].kids[j], Kids(n)[j], x)
    ensures ValidPath(n, [i] + q) && At(n, [i] + q) == At(Kids(n)[i], q)
    ensures PtrAt(s, p, n, [i] + q) == x && Unique(s, p, n, [i] + q)
  {
    assert ([i] + q)[1..] == q;
  }

  /** The written node keeps its address, and is still reached along it only. */
  lemma {:induction false} PutUnique(s: Store, s': Store, p: Ptr, n: Node, q: Path, m: Node, y: Ptr)
    requires Rep(s, p, n) && ValidPath(n, q) && Unique(s, p, n, q) && PtrAt(s, p, n, q) == y
    requires Keeps(s, s', y) && Rep(s', y, m) && AvoidsBelow(s', y, m, y)
    requires Rep(s', p, Put(n, q, m))
    ensures ValidPath(Put(n, q, m), q) && At(Put(n, q, m), q) == m
    ensures PtrAt(s', p, Put(n, q, m), q) == y && Unique(s', p, Put(n, q, m), q)
    decreases q
  {
    if q != [] {
      var i := q[0];
      UniqueStep(s, p, n, q, y);
      PutUnique(s, s', s[p].kids[i], Kids(n)[i], q[1..], m, y);
      SiblingsAvoid(s, s', p, n, i, y, y);
      UniqueCons(s', p, Put(n, q, m), i, q[1..], y);
      assert q == [i] + q[1..];
    }
  }

  /** A new child of the written node is reached along its own address only. */
  lemma {:induction false} PutUniqueChild(s: Store, s': Store, p: Ptr, n: Node, q: Path, m: Node, y: Ptr, i: nat,
        z: Ptr)
    requires Rep(s, p, n) && ValidPath(n, q) && Unique(s, p, n, q) && PtrAt(s, p, n, q) == y
    requires Keeps(s, s', y) && Rep(s', y, m) && Rep(s', p, Put(n, q, m))
    requires i < |Kids(m)| && s'[y].kids[i] == z && z != y && Avoids(s, p, n, z)
    requires AvoidsBelow(s', z, Kids(m)[i], z)
    requires forall j :: 0 <= j < |Kids(m)| && j != i ==> Avoids(s', s'[y].kids[j], Kids(m)[j], z)
    ensures ValidPath(Put(n, q, m), q + [i])
    ensures PtrAt(s', p, Put(n, q, m), q + [i]) == z && Unique(s', p, Put(n, q, m), q + [i])
    decreases q
  {
    if q == [] {
      UniqueCons(s', p, m, i, [], z);
      assert [] + [i] == [i] + [];
    } else {
      UniqueStep(s, p, n, q, y);
      PutUniqueChild(s, s', s[p].kids[q[0]], Kids(n)[q[0]], q[1..], m, y, i, z);
      PutUniqueUp(s, s', p, n, q, m, y, i, z, Put(Kids(n)[q[0]], q[1..], m));
    }
  }

  lemma PutUniqueUp(s: Store, s': Store, p: Ptr, n: Node, q: Path, m: Node, y: Ptr, i: nat, z: Ptr, kid: Node)
    requires Rep(s, p, n) && ValidPath(n, q) && q != [] && Unique(s, p, n, q) && PtrAt(s, p, n, q) == y
    requires Keeps(s, s', y) && Rep(s', p, Put(n, q, m)) && Avoids(s, p, n, z)
    requires kid == Put(Kids(n)[q[0]], q[1..], m) && Rep(s', s[p].kids[q[0]], kid) && ValidPath(kid, q[1..] + [i])
    requires PtrAt(s', s[p].kids[q[0]], kid, q[1..] + [i]) == z && Unique(s', s[p].kids[q[0]], kid, q[1..] + [i])
    ensures ValidPath(Put(n, q, m), q + [i])
    ensures PtrAt(s', p, Put(n, q, m), q + [i]) == z && Unique(s', p, Put(n, q, m), q + [i])
  {
    UniqueStep(s, p, n, q, y);
    UniqueUp(s, s', p, n, Put(n, q, m), q[0], kid, q[1..] + [i], y, z);
    assert q + [i] == [q[0]] + (q[1..] + [i]);
  }

  // One child of `n` has become `kid`, and `z` is reached there.
  lemma UniqueUp(s: Store, s': Store, p: Ptr, n: Node, n': Node, k: nat, kid: Node, r: Path, y: Ptr, z: Ptr)
    requires Rep(s, p, n) && k < |Kids(n)| && Kids(n') == Kids(n)[k := kid] && Rep(s', p, n') && s'[p] == s[p]
    requires Keeps(s, s', y) && Avoids(s, p, n, z)
    requires forall j :: 0 <= j < |Kids(n)| && j != k ==> Avoids(s, s[p].kids[j], Kids(n)[j], y)
    requires Rep(s', s[p].kids[k], kid) && ValidPath(kid, r)
    requires PtrAt(s', s[p].kids[k], kid, r) == z && Unique(s', s[p].kids[k], kid, r)
    ensures ValidPath(n', [k] + r) && PtrAt(s', p, n', [k] + r) == z && Unique(s', p, n', [k] + r)
  {
    SiblingsAvoid(s, s', p, n, k, y, z);
    UniqueCons(s', p, n', k, r, z);
  }

  lemma SiblingsAvoid(s: Store, s': Store, p: Ptr, n: Node, k: nat, y: Ptr, z: Ptr)
    requires Rep(s, p, n) && Keeps(s, s', y)
    requires forall j :: 0 <= j < |Kids(n)| && j != k ==>
               Avoids(s, s[p].kids[j], Kids(n)[j], y) && Avoids(s, s[p].kids[j], Kids(n)[j], z)
    ensures forall j :: 0 <= j < |Kids(n)| && j != k ==>
              Rep(s', s[p].kids[j], Kids(n)[j]) && Avoids(s', s[p].kids[j], Kids(n)[j], z)
  {
    forall j | 0 <= j < |Kids(n)| && j != k
      ensures Rep(s', s[p].kids[j], Kids(n)[j]) && Avoids(s', s[p].kids[j], Kids(n)[j], z)
    {
      Frame(s, s', s[p].kids[j], Kids(n)[j], y);
      SameRep(s, s', s[p].kids[j], Kids(n)[j]);
      SameAvoids(s, s', s[p].kids[j], Kids(n)[j], z);
    }
  }

  /** What a write needs to know about the cell it puts in the place of the tree at `x`. */
  ghost predicate Fits(s: Store, x: Ptr, cell: Cell, m: Node) {
    && cell.own == Erase(m) && |cell.kids| == |Kids(m)|
    && forall i :: 0 <= i < |Kids(m)| ==> Rep(s, cell.kids[i], Kids(m)[i]) && Avoids(s, cell.kids[i], Kids(m)[i], x)
  }

  lemma FitsRep(s: Store, x: Ptr, cell: Cell, m: Node)
    requires Fits(s, x, cell, m)
    ensures Rep(s[x := cell], x, m) && AvoidsBelow(s[x := cell], x, m, x)
  {
    var s' := s[x := cell];
    forall i | 0 <= i < |Kids(m)|
      ensures Rep(s', cell.kids[i], Kids(m)[i]) && Avoids(s', cell.kids[i], Kids(m)[i], x)
    {
      Frame(s, s', cell.kids[i], Kids(m)[i], x);
      SameRep(s, s', cell.kids[i], Kids(m)[i]);
      SameAvoids(s, s', cell.kids[i], Kids(m)[i], x);
    }
  }

  /** The tree with the cell overwritten is the one with the node replaced. */
  lemma OverwrittenRep(s: Store, p: Ptr, n: Node, q: Path, x: Ptr, cell: Cell, m: Node)
    requires Rep(s, p, n) && ValidPath(n, q) && Unique(s, p, n, q) && x == PtrAt(s, p, n, q) && Fits(s, x, cell, m)
    ensures x in s && Rep(s[x := cell], p, Put(n, q, m)) && s[x := cell][x := s[x]] == s
  {
    RepAt(s, p, n, q);
    FitsRep(s, x, cell, m);
    RepPut(s, s[x := cell], p, n, q, m);
  }

  /** A cell with the old children fits. */
  lemma OldFits(s: Store, p: Ptr, n: Node, q: Path, own: Node, m: Node)
    requires Rep(s, p, n) && ValidPath(n, q) && Unique(s, p, n, q)
    requires own == Erase(m) && Kids(m) == Kids(At(n, q))
    ensures PtrAt(s, p, n, q) in s
    ensures Fits(s, PtrAt(s, p, n, q), Cell(own, s[PtrAt(s, p, n, q)].kids), m)
  {
    UniqueBelow(s, p, n, q);
  }

  lemma Grown(s: Store, s': Store, p: Ptr, n: Node, q: Path)
    requires Rep(s, p, n) && ValidPath(n, q) && Unique(s, p, n, q) && Extends(s, s')
    ensures Rep(s', p, n) && PtrAt(s', p, n, q) == PtrAt(s, p, n, q) && Unique(s', p, n, q)
  {
    ExtendSame(s, s', p, n);
    SameRep(s, s', p, n);
    SamePtr(s, s', p, n, q);
    SameUnique(s, s', p, n, q);
  }

  /** A cell with one child replaced by another tree fits. */
  lemma KidFits(s: Store, x: Ptr, t: Node, i: nat, r: Ptr, m: Node)
    requires Rep(s, x, t) && AvoidsBelow(s, x, t, x) && i < |Kids(t)| && Rep(s, r, m) && Avoids(s, r, m, x)
    ensures Fits(s, x, Cell(s[x].own, s[x].kids[i := r]), WithKid(t, i, m))
  {
    EraseWithKid(t, i, m);
    var m', kids := WithKid(t, i, m), s[x].kids[i := r];
    forall j | 0 <= j < |Kids(m')| ensures Rep(s, kids[j], Kids(m')[j]) && Avoids(s, kids[j], Kids(m')[j], x) {
      if j != i {
        assert Kids(m')[j] == Kids(t)[j] && kids[j] == s[x].kids[j];
      }
    }
  }

  lemma InNullFits(s: Store, p: Ptr, n: Node, q: Path, z: Ptr)
    requires Rep(s, p, n) && ValidPath(n, q) && Unique(s, p, n, q) && At(n, q).InList?
    requires z in s && s[z] == Cell(Lit(Null), []) && z != PtrAt(s, p, n, q)
    ensures Rep(s, PtrAt(s, p, n, q), At(n, q))
    ensures var x, t := PtrAt(s, p, n, q), At(n, q);
            Fits(s, x, Cell(InList(s[x].own.neg, Nil, s[x].own.list + [Nil]), s[x].kids + [z]),
                 InList(t.neg, t.e, t.list + [Lit(Null)]))
  {
    UniqueBelow(s, p, n, q);
    var x, t := PtrAt(s, p, n, q), At(n, q);
    var m := InList(t.neg, t.e, t.list + [Lit(Null)]);
    EraseInList(t, Lit(Null));
    assert Kids(m) == Kids(t) + [Lit(Null)];
    assert Rep(s, z, Lit(Null));
    var kids := s[x].kids + [z];
    forall k | 0 <= k < |Kids(m)| ensures Rep(s, kids[k], Kids(m)[k]) && Avoids(s, kids[k], Kids(m)[k], x) {
      if k < |Kids(t)| {
        assert Kids(m)[k] == Kids(t)[k] && kids[k] == s[x].kids[k];
      }
    }
  }

  /** With a fresh NULL in the heap, the longer list can be written over the old one. */
  lemma InNullReady(s: Store, s': Store, p: Ptr, n: Node, q: Path, z: Ptr)
    requires Rep(s, p, n) && Separate(s, p, n) && ValidPath(n, q) && At(n, q).InList?
    requires z !in s && s' == s[z := Cell(Lit(Null), [])]
    ensures Rep(s', p, n) && Separate(s', p, n) && PtrAt(s, p, n, q) in s && PtrAt(s', p, n, q) == PtrAt(s, p, n, q)
    ensures var x, t := PtrAt(s, p, n, q), At(n, q);
            && s[x].own == Erase(t) && s[x].own.InList?
            && Fits(s', x, Cell(InList(s[x].own.neg, Nil, s[x].own.list + [Nil]), s[x].kids + [z]),
                    InList(t.neg, t.e, t.list + [Lit(Null)]))
  {
    RepAt(s, p, n, q);
    Grown(s, s', p, n, q);
    ExtendTree(s, s', p, n);
    EraseInList(At(n, q), Lit(Null));
    InNullFits(s', p, n, q, z);
  }

  lemma FirstSelect(t: Node, m: Node)
    requires t.SetOprList? && |t.selects| > 1 && m == SetOprList(t.after, t.with, [t.selects[0]])
    ensures Kids(m) == Kids(t)[..2] && |Kids(t)| > 2
    ensures Erase(m) == SetOprList(t.after, Nil, [Nil]) && Erase(t).SetOprList? && Erase(t).after == t.after
  {
  }

  lemma RmUnionAllFits(s: Store, p: Ptr, n: Node, q: Path)
    requires Rep(s, p, n) && ValidPath(n, q) && Unique(s, p, n, q) && At(n, q).SetOprList? && |At(n, q).selects| > 1
    ensures Rep(s, PtrAt(s, p, n, q), At(n, q))
    ensures var x, t := PtrAt(s, p, n, q), At(n, q);
            Fits(s, x, Cell(SetOprList(s[x].own.after, Nil, [Nil]), s[x].kids[..2]),
                SetOprList(t.after, t.with, [t.selects[0]]))
  {
    UniqueBelow(s, p, n, q);
    var x, t := PtrAt(s, p, n, q), At(n, q);
    var m := SetOprList(t.after, t.with, [t.selects[0]]);
    FirstSelect(t, m);
    var kids := s[x].kids[..2];
    forall k | 0 <= k < |Kids(m)| ensures Rep(s, kids[k], Kids(m)[k]) && Avoids(s, kids[k], Kids(m)[k], x) {
      assert Kids(m)[k] == Kids(t)[k] && kids[k] == s[x].kids[k];
    }
  }

  /** The mutations that change no child, on the nodes they are for. */
  predicate InPlace(m: Mut, n: Node) {
    n.Binary? || n.CompareSub? || (n.Select? && m in {FixMDistinctU, FixMDistinctL, FixMUnionAllU, FixMUnionAllL})
  }

  function RewriteFields(m: Mut, own: Node): Option<Node> {
    match own
    case Binary(op, l, r) => RewriteBinary(m, op, l, r)
    case CompareSub(op, all, l, r) => RewriteCompareSub(m, op, all, l, r)
    case Select(_, _, _, _, _, _, _, _, _, _) => RewriteSelect(m, own)
    case _ => None
  }

  lemma FieldsErase(m: Mut, n: Node, coins: Coins)
    requires InPlace(m, n)
    ensures InPlace(m, Erase(n)) && Rewrite(m, n, coins) == RewriteFields(m, n)
    ensures RewriteFields(m, Erase(n)).Some? <==> RewriteFields(m, n).Some?
    ensures RewriteFields(m, n).Some? ==>
              var x := RewriteFields(m, n).value;
              RewriteFields(m, Erase(n)).value == Erase(x) && Kids(x) == Kids(n)
  {
    if n.Select? {
      SelectFieldsErase(m, n);
    } else {
      OpFieldsErase(m, n);
    }
  }

  lemma OpFieldsErase(m: Mut, n: Node)
    requires n.Binary? || n.CompareSub?
    ensures n.Binary? ==> Erase(n) == Binary(n.op, Nil, Nil)
    ensures n.CompareSub? ==> Erase(n) == CompareSub(n.op, n.all, Nil, Nil)
    ensures RewriteFields(m, Erase(n)).Some? <==> RewriteFields(m, n).Some?
    ensures RewriteFields(m, n).Some? ==>
              var x := RewriteFields(m, n).value;
              RewriteFields(m, Erase(n)).value == Erase(x) && Kids(x) == Kids(n)
  {
    if n.Binary? {
      BinaryFieldsErase(m, n.op, n.l, n.r);
    } else {
      CompareSubFieldsErase(m, n.op, n.all, n.l, n.r);
    }
  }

  lemma BinaryFieldsErase(m: Mut, op: Op, l: Node, r: Node)
    ensures Erase(Binary(op, l, r)) == Binary(op, Nil, Nil)
    ensures RewriteFields(m, Binary(op, Nil, Nil)).Some? <==> RewriteFields(m, Binary(op, l, r)).Some?
    ensures RewriteFields(m, Binary(op, l, r)).Some? ==>
              var x := RewriteFields(m, Binary(op, l, r)).value;
              RewriteFields(m, Binary(op, Nil, Nil)).value == Erase(x) && Kids(x) == [l, r]
  {
  }

  lemma CompareSubFieldsErase(m: Mut, op: Op, all: bool, l: Node, r: Node)
    ensures Erase(CompareSub(op, all, l, r)) == CompareSub(op, all, Nil, Nil)
    ensures RewriteFields(m, CompareSub(op, all, Nil, Nil)).Some? <==> RewriteFields(m, CompareSub(op, all, l, r)).Some?
    ensures RewriteFields(m, CompareSub(op, all, l, r)).Some? ==>
              var x := RewriteFields(m, CompareSub(op, all, l, r)).value;
              RewriteFields(m, CompareSub(op, all, Nil, Nil)).value == Erase(x) && Kids(x) == [l, r]
  {
  }

  lemma SelectFieldsErase(m: Mut, n: Node)
    requires n.Select? && m in {FixMDistinctU, FixMDistinctL, FixMUnionAllU, FixMUnionAllL}
    ensures Erase(n).Select?
    ensures RewriteSelect(m, Erase(n)).Some? <==> RewriteSelect(m, n).Some?
    ensures RewriteSelect(m, n).Some? ==>
              var x := RewriteSelect(m, n).value;
              RewriteSelect(m, Erase(n)).value == Erase(x) && Kids(x) == Kids(n)
  {
  }

  lemma EraseKind(n: Node)
    ensures Erase(n).Nil? <==> n.Nil?
    ensures Erase(n).Lit? <==> n.Lit?
    ensures n.Lit? ==> Erase(n) == n
    ensures |Kids(Erase(n))| == |Kids(n)|
  {
    Relabel(n);
  }

  /** After redirecting the slot `i` of the node at `u` to `r`, the heap holds the tree with `m` there. */
  lemma AfterRedirect(s: Store, p: Ptr, n: Node, u: Path, i: nat, y: Ptr, r: Ptr, m: Node)
    requires Rep(s, p, n) && ValidPath(n, u) && Unique(s, p, n, u) && PtrAt(s, p, n, u) == y
    requires i < |Kids(At(n, u))| && Rep(s, r, m) && Avoids(s, r, m, y)
    ensures y in s && Rep(s, y, At(n, u))
    ensures var s' := s[y := Cell(s[y].own, s[y].kids[i := r])];
            && Rep(s', y, WithKid(At(n, u), i, m)) && AvoidsBelow(s', y, WithKid(At(n, u), i, m), y)
            && Rep(s', p, Put(n, u, WithKid(At(n, u), i, m)))
  {
    UniqueBelow(s, p, n, u);
    var t := At(n, u);
    KidFits(s, y, t, i, r, m);
    var cell := Cell(s[y].own, s[y].kids[i := r]);
    FitsRep(s, y, cell, WithKid(t, i, m));
    RepPut(s, s[y := cell], p, n, u, WithKid(t, i, m));
  }

  /** ... and `r` is found there and nowhere else. */
  lemma RedirectUnique(s: Store, p: Ptr, n: Node, u: Path, i: nat, y: Ptr, r: Ptr, m: Node)
    requires Rep(s, p, n) && ValidPath(n, u) && Unique(s, p, n, u) && PtrAt(s, p, n, u) == y
    requires i < |Kids(At(n, u))| && Rep(s, r, m) && Avoids(s, r, m, y)
    requires AvoidsBelow(s, r, m, r) && Avoids(s, p, n, r)
    ensures y in s && Rep(s, y, At(n, u))
    ensures var s' := s[y := Cell(s[y].own, s[y].kids[i := r])];
            var n' := Put(n, u, WithKid(At(n, u), i, m));
            && Rep(s', p, n') && ValidPath(n', u) && ValidPath(n', u + [i])
            && PtrAt(s', p, n', u) == y && Unique(s', p, n', u)
            && PtrAt(s', p, n', u + [i]) == r && Unique(s', p, n', u + [i])
  {
    AfterRedirect(s, p, n, u, i, y, r, m);
    var t, m' := At(n, u), WithKid(At(n, u), i, m);
    var s' := s[y := Cell(s[y].own, s[y].kids[i := r])];
    PutUnique(s, s', p, n, u, m', y);
    UniqueBelow(s, p, n, u);
    UniqueAvoid(s, p, n, u, r);
    Frame(s, s', r, m, y);
    SameRep(s, s', r, m);
    SameAvoidsBelow(s, s', r, m, r);
    SiblingsAvoid(s, s', y, t, i, y, r);
    forall j | 0 <= j < |Kids(m')| && j != i ensures Avoids(s', s'[y].kids[j], Kids(m')[j], r) {
      assert Kids(m')[j] == Kids(t)[j];
    }
    PutUniqueChild(s, s', p, n, u, m', y, i, r);
  }

  /** A pointer a tree avoids is avoided by all its subtrees. */
  lemma {:induction false} UniqueAvoid(s: Store, p: Ptr, n: Node, q: Path, r: Ptr)
    requires Rep(s, p, n) && ValidPath(n, q) && Avoids(s, p, n, r)
    ensures Rep(s, PtrAt(s, p, n, q), At(n, q)) && Avoids(s, PtrAt(s, p, n, q), At(n, q), r)
    decreases q
  {
    if q != [] {
      UniqueAvoid(s, s[p].kids[q[0]], Kids(n)[q[0]], q[1..], r);
    }
  }

  /** The step into a visited node is a step of the visitor. */
  lemma {:induction false} TrailLast(role: Role, n: Node, u: Path, i: nat)
    requires ValidPath(n, u) && i < |Kids(At(n, u))| && ValidPath(n, u + [i]) && Trail(role, n, u + [i]).Go?
    ensures Trail(role, n, u).Go? && Step(Trail(role, n, u).role, At(n, u), i).Go?
    ensures Trail(role, n, u + [i]).role == Step(Trail(role, n, u).role, At(n, u), i).role
    decreases u
  {
    if u == [] {
      assert u + [i] == [i] && [i][1..] == [];
    } else {
      assert (u + [i])[0] == u[0] && (u + [i])[1..] == u[1..] + [i];
      TrailLast(Step(role, n, u[0]).role, Kids(n)[u[0]], u[1..], i);
    }
  }

  /** A visited BETWEEN or IS NULL has a parent, and sits in one of the slots the replacer rewrites. */
  lemma ReplacerFinds(root: Node, q: Path)
    requires ValidPath(root, q) && Trail(RowSet, root, q).Go? && Trail(RowSet, root, q).role != RowSet
    ensures InSlot(root, q)
  {
    var k := |q| - 1;
    LastIndex(root, q);
    assert q == q[..k] + [q[k]];
    TrailLast(RowSet, root, q[..k], q[k]);
    VisitedSlots(Trail(RowSet, root, q[..k]).role, At(root, q[..k]), q[k]);
  }

  lemma {:induction false} LastIndex(n: Node, q: Path)
    requires ValidPath(n, q) && q != []
    ensures ValidPath(n, q[..|q| - 1]) && q[|q| - 1] < |Kids(At(n, q[..|q| - 1]))|
    decreases q
  {
    if |q| > 1 {
      LastIndex(Kids(n)[q[0]], q[1..]);
      assert q[..|q| - 1][1..] == q[1..][..|q| - 2];
    }
  }

  /** A new parenthesis around a new comparison of two old children. */
  lemma NewComparison(s: Store, s': Store, x: Ptr, t: Node, a: nat, b: nat, op: Op, bin: Ptr, par: Ptr, y: Ptr)
    requires Rep(s, x, t) && Avoids(s, x, t, y) && a < |Kids(t)| && b < |Kids(t)| && y in s
    requires bin !in s && par !in s && par != bin
    requires s' == s[bin := Cell(Binary(op, Nil, Nil), [s[x].kids[a], s[x].kids[b]])][par := Cell(Paren(Nil), [bin])]
    ensures var m := Paren(Binary(op, Kids(t)[a], Kids(t)[b]));
            Rep(s', par, m) && Avoids(s', par, m, y) && AvoidsBelow(s', par, m, par)
  {
    KidTransport(s, s', x, t, a, y, par);
    KidTransport(s, s', x, t, b, y, par);
    ComparisonRep(s', bin, par, op, s[x].kids[a], s[x].kids[b], Kids(t)[a], Kids(t)[b], y);
  }

  lemma ComparisonRep(s: Store, bin: Ptr, par: Ptr, op: Op, p1: Ptr, p2: Ptr, e1: Node, e2: Node, y: Ptr)
    requires bin in s && par in s && s[bin] == Cell(Binary(op, Nil, Nil), [p1, p2]) && s[par] == Cell(Paren(Nil), [bin])
    requires Rep(s, p1, e1) && Rep(s, p2, e2) && y != bin && y != par && bin != par
    requires Avoids(s, p1, e1, y) && Avoids(s, p2, e2, y) && Avoids(s, p1, e1, par) && Avoids(s, p2, e2, par)
    ensures var m := Paren(Binary(op, e1, e2)); Rep(s, par, m) && Avoids(s, par, m, y) && AvoidsBelow(s, par, m, par)
  {
    var m1 := Binary(op, e1, e2);
    assert Kids(m1) == [e1, e2] && Kids(Paren(m1)) == [m1];
    assert Rep(s, bin, m1);
    assert Avoids(s, bin, m1, y) && Avoids(s, bin, m1, par);
    assert Rep(s, par, Paren(m1));
  }

  lemma KidTransport(s: Store, s': Store, x: Ptr, t: Node, k: nat, y: Ptr, z: Ptr)
    requires Rep(s, x, t) && Avoids(s, x, t, y) && k < |Kids(t)| && Extends(s, s') && z !in s
    ensures Rep(s', s[x].kids[k], Kids(t)[k])
    ensures Avoids(s', s[x].kids[k], Kids(t)[k], y) && Avoids(s', s[x].kids[k], Kids(t)[k], z)
  {
    ExtendSame(s, s', s[x].kids[k], Kids(t)[k]);
    SameRep(s, s', s[x].kids[k], Kids(t)[k]);
    SameAvoids(s, s', s[x].kids[k], Kids(t)[k], y);
    FreshAvoided(s, s[x].kids[k], Kids(t)[k], z);
    SameAvoids(s, s', s[x].kids[k], Kids(t)[k], z);
  }

  lemma NewLiteral(s: Store, s': Store, leaf: Node, lit: Ptr, par: Ptr, y: Ptr)
    requires leaf.Lit? && lit !in s && par !in s && par != lit && y in s
    requires s' == s[lit := Cell(leaf, [])][par := Cell(Paren(Nil), [lit])]
    ensures Rep(s', par, Paren(leaf)) && Avoids(s', par, Paren(leaf), y) && AvoidsBelow(s', par, Paren(leaf), par)
  {
    assert Rep(s', lit, leaf);
    assert Avoids(s', lit, leaf, y) && Avoids(s', lit, leaf, par);
    assert Kids(Paren(leaf)) == [leaf];
  }

  /** The tree is the same after allocating, and does not have the new nodes. */
  lemma Allocated(s: Store, s': Store, p: Ptr, n: Node, u: Path, i: nat, r: Ptr)
    requires Rep(s, p, n) && Separate(s, p, n) && Extends(s, s') && r !in s
    requires ValidPath(n, u) && i < |Kids(At(n, u))| && ValidPath(n, u + [i])
    ensures Rep(s', p, n) && Separate(s', p, n) && Avoids(s', p, n, r)
    ensures PtrAt(s', p, n, u) == PtrAt(s, p, n, u) && Unique(s', p, n, u)
    ensures PtrAt(s', p, n, u + [i]) == PtrAt(s, p, n, u + [i]) && Unique(s', p, n, u + [i])
  {
    Grown(s, s', p, n, u);
    Grown(s, s', p, n, u + [i]);
    ExtendTree(s, s', p, n);
    FreshAvoided(s, p, n, r);
    ExtendSame(s, s', p, n);
    SameAvoids(s, s', p, n, r);
  }

  /** The child of a uniquely reached node does not lead back to it. */
  lemma ChildAvoids(s: Store, p: Ptr, n: Node, u: Path, i: nat)
    requires Rep(s, p, n) && ValidPath(n, u) && i < |Kids(At(n, u))| && ValidPath(n, u + [i]) && Unique(s, p, n, u)
    ensures Rep(s, PtrAt(s, p, n, u + [i]), At(n, u + [i]))
    ensures Avoids(s, PtrAt(s, p, n, u + [i]), At(n, u + [i]), PtrAt(s, p, n, u)) && PtrAt(s, p, n, u) in s
  {
    UniqueBelow(s, p, n, u);
    PtrAtLast(s, p, n, u, i);
    PutPut(n, u, i, Nil);
  }

  // ---------------------------------------------------------------------------------------
  // The tree object

  class Ast {
    var store: Store
    var root: Ptr
    var next: Ptr

    ghost predicate Valid(n: Node)
      reads this
    {
      && Rep(store, root, n) && Separate(store, root, n)
      && forall p :: p in store ==> p < next
    }

    method New(own: Node, kids: seq<Ptr>) returns (p: Ptr)
      requires forall p :: p in store ==> p < next
      modifies this`store, this`next
      ensures p !in old(store) && store == old(store)[p := Cell(own, kids)]
      ensures forall p :: p in store ==> p < next
    {
      p := next;
      next := next + 1;
      store := store[p := Cell(own, kids)];
    }

    /** Printing; the text determines the tree and is identified with it. */
    method Restore(p: Ptr, ghost n: Node) returns (sql: Node)
      requires Rep(store, p, n)
      ensures sql == n
      decreases n
    {
      var cell := store[p];
      var kids: seq<Node> := [];
      for i := 0 to |cell.kids|
        invariant |kids| == i && kids == Kids(n)[..i]
      {
        var kid := Restore(cell.kids[i], Kids(n)[i]);
        NextKid(Kids(n), i);
        kids := kids + [kid];
      }
      AllKids(Kids(n));
      Relabel(n);
      sql := WithKids(cell.own, kids);
    }

    /** The walk of exprReplacer below one node: children first, then the node's own slots. */
    method Walk(p: Ptr, target: Ptr, r: Ptr, ghost n: Node, ghost q: Option<Path>)
      requires Rep(store, p, n) && Aimed(store, p, n, target, q) && r != target
      modifies this`store
      ensures store == Redirected(old(store), p, n, q, r)
      decreases n
    {
      ghost var s := store;
      var kids := store[p].kids;
      for i := 0 to |kids|
        invariant store == if q.Some? && |q.value| > 1 && q.value[0] < i then Redirected(s, p, n, q, r) else s
      {
        AimedBelow(s, p, n, target, q, i);
        if q.Some? && |q.value| > 1 && q.value[0] < i {
          RedirectedElsewhere(s, p, n, target, q, r, i);
          SameRep(s, store, kids[i], Kids(n)[i]);
          SameAvoidsBelow(s, store, kids[i], Kids(n)[i], target);
        }
        if q.Some? && |q.value| > 1 && q.value[0] == i {
          RedirectedBelow(s, p, n, q, r, i);
        }
        Walk(kids[i], target, r, Kids(n)[i], Aim(q, i));
      }
      Slots(p, target, r, n, q, s);
    }

    method Slots(p: Ptr, target: Ptr, r: Ptr, ghost n: Node, ghost q: Option<Path>, ghost s: Store)
      requires Rep(s, p, n) && Aimed(s, p, n, target, q) && r != target
      requires store == if q.Some? && |q.value| > 1 then Redirected(s, p, n, q, r) else s
      modifies this`store
      ensures store == Redirected(s, p, n, q, r)
    {
      ghost var before := store;
      if q.Some? && |q.value| > 1 {
        RedirectedSelf(s, p, n, target, q, r);
      }
      var own, kids := store[p].own, store[p].kids;
      assert own == s[p].own && kids == s[p].kids;
      for i := 0 to |kids|
        invariant store == if q.Some? && |q.value| == 1 && q.value[0] < i then Redirect(s, p, q.value[0], r) else before
      {
        NotTarget(s, p, n, target, q, i);
        assert q.Some? && |q.value| == 1 && q.value[0] == i ==> q.value == [i];
        if Slot(own, i) && kids[i] == target {
          store := store[p := Cell(own, store[p].kids[i := r])];
        }
      }
      if q.Some? && |q.value| == 1 {
        assert q.value[..0] == [];
      }
    }

    /** Mutate one node, print, and recover: what every in-place mutation does. */
    method PrintWith(x: Ptr, cell: Cell, ghost n: Node, ghost q: Path, ghost m: Node) returns (sql: Node)
      requires Rep(store, root, n) && ValidPath(n, q) && Unique(store, root, n, q) && x == PtrAt(store, root, n, q)
      requires Fits(store, x, cell, m)
      modifies this`store
      ensures sql == Put(n, q, m) && store == old(store)
    {
      OverwrittenRep(store, root, n, q, x, cell, m);
      var oldCell := store[x];
      store := store[x := cell];
      sql := Restore(root, Put(n, q, m));
      store := store[x := oldCell];
    }

    /** Operators, `<=>`, ALL/ANY, DISTINCT, UNION [ALL]: only the node's own fields change. */
    method DoFields(m: Mut, x: Ptr, ghost n: Node, ghost q: Path, coins: Coins) returns (sql: Option<Node>)
      requires Valid(n) && ValidPath(n, q) && x == PtrAt(store, root, n, q) && InPlace(m, At(n, q))
      modifies this`store
      ensures sql == Mutated(n, m, q, coins) && store == old(store)
    {
      RepAt(store, root, n, q);
      FieldsErase(m, At(n, q), coins);
      var cell := store[x];
      match RewriteFields(m, cell.own)
      case None => sql := None;
      case Some(own) =>
        OldFits(store, root, n, q, own, Rewrite(m, At(n, q), coins).value);
        var r := PrintWith(x, Cell(own, cell.kids), n, q, Rewrite(m, At(n, q), coins).value);
        sql := Some(r);
    }

    method NewLeaf(leaf: Node) returns (z: Ptr)
      requires forall p :: p in store ==> p < next
      modifies this`store, this`next
      ensures z !in old(store) && store == old(store)[z := Cell(leaf, [])]
      ensures forall p :: p in store ==> p < next
    {
      z := New(leaf, []);
    }

    /** WHERE, HAVING and ON: the condition's slot gets a new literal, and later the old pointer. */
    method DoClause(i: nat, leaf: Node, x: Ptr, ghost n: Node, ghost q: Path) returns (sql: Option<Node>)
      requires Valid(n) && ValidPath(n, q) && x == PtrAt(store, root, n, q) && i < |Kids(At(n, q))|
      requires leaf.Lit?
      modifies this`store, this`next
      ensures sql == if Kids(At(n, q))[i].Nil? then None else Some(Put(n, q, WithKid(At(n, q), i, leaf)))
      ensures Valid(n) && Extends(old(store), store)
    {
      RepAt(store, root, n, q);
      EraseKind(Kids(At(n, q))[i]);
      var cell := store[x];
      if store[cell.kids[i]].own.Nil? {
        return None;
      }
      ghost var s := store;
      var z := NewLeaf(leaf);
      Grown(s, store, root, n, q);
      ExtendTree(s, store, root, n);
      UniqueBelow(store, root, n, q);
      assert Rep(store, z, leaf);
      KidFits(store, x, At(n, q), i, z, leaf);
      var r := PrintWith(x, Cell(cell.own, cell.kids[i := z]), n, q, WithKid(At(n, q), i, leaf));
      sql := Some(r);
    }

    method DoInNull(x: Ptr, ghost n: Node, ghost q: Path, coins: Coins) returns (sql: Node)
      requires Valid(n) && ValidPath(n, q) && x == PtrAt(store, root, n, q) && At(n, q).InList?
      modifies this`store, this`next
      ensures Mutated(n, FixMInNullU, q, coins) == Some(sql)
      ensures Valid(n) && Extends(old(store), store)
    {
      RepAt(store, root, n, q);
      ghost var s, t := store, At(n, q);
      var cell := store[x];
      var z := NewLeaf(Lit(Null));
      InNullReady(s, store, root, n, q, z);
      sql := PrintWith(x, Cell(InList(cell.own.neg, Nil, cell.own.list + [Nil]), cell.kids + [z]), n, q,
                       InList(t.neg, t.e, t.list + [Lit(Null)]));
    }

    method DoRmUnionAll(x: Ptr, ghost n: Node, ghost q: Path, coins: Coins) returns (sql: Option<Node>)
      requires Valid(n) && ValidPath(n, q) && x == PtrAt(store, root, n, q) && At(n, q).SetOprList?
      modifies this`store
      ensures sql == Mutated(n, FixMRmUnionAllL, q, coins) && store == old(store)
    {
      RepAt(store, root, n, q);
      ghost var t := At(n, q);
      var cell := store[x];
      if |cell.kids| <= 2 {
        return None;
      }
      RmUnionAllFits(store, root, n, q);
      var r := PrintWith(x, Cell(SetOprList(cell.own.after, Nil, [Nil]), cell.kids[..2]), n, q,
                         SetOprList(t.after, t.with, [t.selects[0]]));
      sql := Some(r);
    }

    method DoLike(m: Mut, x: Ptr, ghost n: Node, ghost q: Path, coins: Coins) returns (sql: Option<Node>)
      requires Valid(n) && ValidPath(n, q) && x == PtrAt(store, root, n, q) && At(n, q).Like?
      requires m == RdMLikeU || m == RdMLikeL
      modifies this`store, this`next
      ensures sql == Mutated(n, m, q, coins)
      ensures Valid(n) && Extends(old(store), store)
    {
      RepAt(store, root, n, q);
      ghost var t := At(n, q);
      EraseKind(t.e);
      EraseKind(t.pattern);
      var cell := store[x];
      var e, pattern := store[cell.kids[0]].own, store[cell.kids[1]].own;
      if !(e.Lit? && e.v.Str? && pattern.Lit? && pattern.v.Str?) {
        LikeOther(m, t, coins);
        return None;
      }
      assert t == Like(t.neg, e, pattern);
      LikeRewrite(m, t, coins);
      if !(if m == RdMLikeU then CheckLikeU(Like(true, e, pattern)) else CheckLikeL(Like(true, e, pattern))) {
        return None;
      }
      var p := RewritePattern(m, pattern.v.s, coins);
      sql := DoClause(1, Lit(Str(p)), x, n, q);
    }

    /** The pattern's bytes, rewritten in place. */
    method RewritePattern(m: Mut, p: string, coins: Coins) returns (r: string)
      requires m == RdMLikeU || m == RdMLikeL
      ensures r == if m == RdMLikeU then Widen(p, coins, 0) else Narrow(p, coins, 0)
    {
      var bytes := new char[|p|](i requires 0 <= i < |p| => p[i]);
      assert bytes[..] == p;
      if m == RdMLikeU {
        WidenInPlace(bytes, coins);
      } else {
        NarrowInPlace(bytes, coins);
      }
      r := bytes[..];
    }

    /** replaceExprInRoot, print, replaceExprInRoot back: the target's slot is found twice by walking. */
    method ReplaceAndPrint(x: Ptr, r: Ptr, ghost n: Node, ghost u: Path, ghost i: nat,
          ghost m: Node) returns (sql: Node)
      requires Replaceable(store, root, n, u, i, x, r, m)
      modifies this`store
      ensures sql == Put(n, u + [i], m) && store == old(store)
    {
      ghost var s, y := store, PtrAt(store, root, n, u);
      ReplaceFirst(s, root, n, u, i, x, r, m);
      Walk(root, x, r, n, Some(u + [i]));
      assert store == s[y := Cell(s[y].own, s[y].kids[i := r])];
      ReplaceSecond(s, root, n, u, i, x, r, m);
      sql := Restore(root, Put(n, u + [i], m));
      Walk(root, r, x, Put(n, u + [i], m), Some(u + [i]));
    }

    /** (x op a) with the two children of the node at `u + [i]`, not yet part of the tree. */
    method MakeComparison(op: Op, x: Ptr, b: nat, ghost n: Node, ghost u: Path, ghost i: nat) returns (r: Ptr)
      requires Valid(n) && ValidPath(n, u) && i < |Kids(At(n, u))| && ValidPath(n, u + [i])
      requires PtrAt(store, root, n, u + [i]) == x && Slot(Erase(At(n, u)), i) && b < |Kids(At(n, u + [i]))|
      modifies this`store, this`next
      ensures Replaceable(store, root, n, u, i, x, r, Paren(Binary(op, Kids(At(n, u + [i]))[0],
          Kids(At(n, u + [i]))[b])))
      ensures Valid(n) && Extends(old(store), store)
    {
      ghost var s := store;
      RepAt(s, root, n, u + [i]);
      var cell := store[x];
      var bin := New(Binary(op, Nil, Nil), [cell.kids[0], cell.kids[b]]);
      r := New(Paren(Nil), [bin]);
      ReplaceableComparison(s, store, root, n, u, i, x, b, op, bin, r);
      ExtendTree(s, store, root, n);
    }

    method MakeLiteral(leaf: Node, ghost n: Node, ghost u: Path, ghost i: nat) returns (r: Ptr)
      requires Valid(n) && ValidPath(n, u) && i < |Kids(At(n, u))| && ValidPath(n, u + [i])
      requires Slot(Erase(At(n, u)), i) && leaf.Lit?
      modifies this`store, this`next
      ensures Replaceable(store, root, n, u, i, old(PtrAt(store, root, n, u + [i])), r, Paren(leaf))
      ensures Valid(n) && Extends(old(store), store)
    {
      ghost var s := store;
      var lit := NewLeaf(leaf);
      r := New(Paren(Nil), [lit]);
      ReplaceableLiteral(s, store, root, n, u, i, leaf, lit, r);
      ExtendTree(s, store, root, n);
    }

    method PrintComparison(op: Op, x: Ptr, b: nat, ghost n: Node, ghost u: Path, ghost i: nat) returns (sql: Node)
      requires Valid(n) && ValidPath(n, u) && i < |Kids(At(n, u))| && ValidPath(n, u + [i])
      requires PtrAt(store, root, n, u + [i]) == x && Slot(Erase(At(n, u)), i) && 0 < b < |Kids(At(n, u + [i]))|
      modifies this`store, this`next
      ensures sql == Put(n, u + [i], Paren(Binary(op, Kids(At(n, u + [i]))[0], Kids(At(n, u + [i]))[b])))
      ensures Valid(n) && Extends(old(store), store)
    {
      ghost var m := Paren(Binary(op, Kids(At(n, u + [i]))[0], Kids(At(n, u + [i]))[b]));
      var r := MakeComparison(op, x, b, n, u, i);
      sql := ReplaceAndPrint(x, r, n, u, i, m);
    }

    method DoBetween(m: Mut, x: Ptr, ghost n: Node, ghost u: Path, ghost i: nat,
          coins: Coins) returns (sql: Option<Node>)
      requires Valid(n) && ValidPath(n, u) && i < |Kids(At(n, u))| && ValidPath(n, u + [i])
      requires PtrAt(store, root, n, u + [i]) == x && Slot(Erase(At(n, u)), i) && At(n, u + [i]).Between?
      modifies this`store, this`next
      ensures sql == Mutated(n, m, u + [i], coins)
      ensures Valid(n) && Extends(old(store), store)
    {
      ghost var t := At(n, u + [i]);
      RepAt(store, root, n, u + [i]);
      if m != FixMBetweenDropUpperU && m != FixMBetweenDropLowerU {
        BetweenOther(m, t, coins);
        return None;
      }
      var b := if m == FixMBetweenDropUpperU then 1 else 2;
      EraseBetween(t);
      var neg := store[x].own.neg;
      var op := if m == FixMBetweenDropUpperU then (if neg then LT else GE) else (if neg then GT else LE);
      BetweenRewrite(m, t, b, op, coins);
      var text := PrintComparison(op, x, b, n, u, i);
      sql := Some(text);
    }

    method DoIsNull(m: Mut, x: Ptr, ghost n: Node, ghost u: Path, ghost i: nat,
          coins: Coins) returns (sql: Option<Node>)
      requires Valid(n) && ValidPath(n, u) && i < |Kids(At(n, u))| && ValidPath(n, u + [i])
      requires PtrAt(store, root, n, u + [i]) == x && Slot(Erase(At(n, u)), i) && At(n, u + [i]).IsNull?
      modifies this`store, this`next
      ensures sql == Mutated(n, m, u + [i], coins)
      ensures Valid(n) && Extends(old(store), store)
    {
      if m != FixMIsNullToFalseL && m != FixMIsNotNullToTrueU {
        return None;
      }
      var leaf := if m == FixMIsNullToFalseL then ZERO else ONE;
      assert Rewrite(m, At(n, u + [i]), coins) == Some(Paren(leaf));
      var r := MakeLiteral(leaf, n, u, i);
      var text := ReplaceAndPrint(x, r, n, u, i, Paren(leaf));
      sql := Some(text);
    }

    /** Follow an address to the node it names. */
    method Locate(q: Path, ghost n: Node) returns (x: Ptr)
      requires Rep(store, root, n) && ValidPath(n, q)
      ensures x == PtrAt(store, root, n, q)
    {
      x := root;
      ghost var t := n;
      for k := 0 to |q|
        invariant Rep(store, x, t) && ValidPath(t, q[k..])
        invariant PtrAt(store, x, t, q[k..]) == PtrAt(store, root, n, q)
      {
        assert q[k..][0] == q[k] && q[k..][1..] == q[k + 1..];
        t := Kids(t)[q[k]];
        x := store[x].kids[q[k]];
      }
    }

    /**
     Any candidate can be chosen; the mutation has no side effects: the text printed is the
     mutated statement, and every node of the tree is afterwards what it was before.
     */
    method ImpoMutate(c: Candidate, coins: Coins, ghost n: Node) returns (sql: Option<Node>)
      requires Valid(n) && c in CandidatesOf(n)
      modifies this`store, this`next
      ensures ValidPath(n, c.path) && sql == Mutated(n, c.mut, c.path, coins) && sql.Some?
      ensures Valid(n) && Extends(old(store), store)
    {
      CandidateFits(n, c, coins);
      var x := Locate(c.path, n);
      sql := Carry(c.mut, x, coins, n, c.path);
    }

    method Carry(m: Mut, x: Ptr, coins: Coins, ghost n: Node, ghost q: Path) returns (sql: Option<Node>)
      requires Valid(n) && ValidPath(n, q) && x == PtrAt(store, root, n, q)
      requires GroupFits(m, At(n, q), coins) && (GroupOf(m) == Replaced ==> InSlot(n, q))
      modifies this`store, this`next
      ensures sql == Mutated(n, m, q, coins)
      ensures Valid(n) && Extends(old(store), store)
    {
      match GroupOf(m)
      case Clause(i, leaf) => sql := DoClause(i, leaf, x, n, q);
      case Replaced => sql := DoReplaced(m, x, coins, n, q);
      case Pattern => sql := DoLike(m, x, n, q, coins);
      case Append => var r := DoInNull(x, n, q, coins); sql := Some(r);
      case Cut => sql := DoRmUnionAll(x, n, q, coins);
      case Fields => sql := DoFields(m, x, n, q, coins);
    }

    /** BETWEEN and IS NULL nodes are replaced through their parent. */
    method DoReplaced(m: Mut, x: Ptr, coins: Coins, ghost n: Node, ghost q: Path) returns (sql: Option<Node>)
      requires Valid(n) && ValidPath(n, q) && x == PtrAt(store, root, n, q) && InSlot(n, q)
      requires At(n, q).Between? || At(n, q).IsNull?
      modifies this`store, this`next
      ensures sql == Mutated(n, m, q, coins)
      ensures Valid(n) && Extends(old(store), store)
    {
      ghost var u, i := q[..|q| - 1], q[|q| - 1];
      assert q == u + [i];
      RepAt(store, root, n, q);
      KindErase(At(n, q));
      if store[x].own.Between? {
        sql := DoBetween(m, x, n, u, i, coins);
      } else {
        sql := DoIsNull(m, x, n, u, i, coins);
      }
    }
  }

  /** The node at `q` has a parent and sits in a slot the replacer rewrites. */
  ghost predicate InSlot(n: Node, q: Path)
    requires ValidPath(n, q)
  {
    && q != [] && ValidPath(n, q[..|q| - 1]) && q[|q| - 1] < |Kids(At(n, q[..|q| - 1]))|
    && Slot(Erase(At(n, q[..|q| - 1])), q[|q| - 1])
  }

  lemma CandidateFits(n: Node, c: Candidate, coins: Coins)
    requires c in CandidatesOf(n)
    ensures ValidPath(n, c.path) && GroupFits(c.mut, At(n, c.path), coins)
    ensures GroupOf(c.mut) == Replaced ==> InSlot(n, c.path)
  {
    CandidateTrail(n, c);
    var role := Trail(RowSet, n, c.path).role;
    MinedGroup(role, At(n, c.path), c.mut, coins);
    if GroupOf(c.mut) == Replaced {
      assert role != RowSet;
      ReplacerFinds(n, c.path);
    }
  }

  // How a mutation is carried out on the heap.
  datatype Group = Clause(i: nat, leaf: Node) | Replaced | Pattern | Append | Cut | Fields

  function GroupOf(m: Mut): Group {
    match m
    case FixMWhere1U => Clause(1, ONE)
    case FixMWhere0L => Clause(1, ZERO)
    case FixMHaving1U => Clause(2, ONE)
    case FixMHaving0L => Clause(2, ZERO)
    case FixMOn1U => Clause(2, ONE)
    case FixMOn0L => Clause(2, ZERO)
    case FixMBetweenDropUpperU => Replaced
    case FixMBetweenDropLowerU => Replaced
    case FixMIsNullToFalseL => Replaced
    case FixMIsNotNullToTrueU => Replaced
    case RdMLikeU => Pattern
    case RdMLikeL => Pattern
    case FixMInNullU => Append
    case FixMRmUnionAllL => Cut
    case _ => Fields
  }

  /** The node a mutation is mined at is of the kind the mutation is for, and passes its checks. */
  ghost predicate GroupFits(m: Mut, n: Node, coins: Coins) {
    && Rewrite(m, n, coins).Some?
    && match GroupOf(m)
       case Clause(i, leaf) =>
         i < |Kids(n)| && !Kids(n)[i].Nil? && Rewrite(m, n, coins) == Some(WithKid(n, i, leaf))
       case Replaced => n.Between? || n.IsNull?
       case Pattern => n.Like?
       case Append => n.InList?
       case Cut => n.SetOprList?
       case Fields => InPlace(m, n)
  }

  lemma MinedGroup(role: Role, n: Node, m: Mut, coins: Coins)
    requires m in Mine(role, n)
    ensures GroupFits(m, n, coins)
  {
    if role != RowSet {
      ExprGroup(n, m, coins);
    } else if n.Select? {
      if m in MineShape(n.distinct, !n.ordered && n.with.Nil?, n.after) {
        ShapeGroup(n, m, coins);
      } else {
        ClauseGroup(n, m, coins);
      }
    } else if n.Join? {
      OnGroup(n, m, coins);
    }
  }

  lemma ExprGroup(n: Node, m: Mut, coins: Coins)
    requires m in MineExpr(n)
    ensures GroupFits(m, n, coins)
  {
    if n.Binary? {
      OpMined(m, n.op);
      assert Rewrite(m, n, coins) == RewriteBinary(m, n.op, n.l, n.r);
    } else if n.CompareSub? {
      OpMined(m, n.op);
      assert Rewrite(m, n, coins) == RewriteCompareSub(m, n.op, n.all, n.l, n.r);
    } else {
      PredicateGroup(n, m, coins);
    }
  }

  lemma PredicateGroup(n: Node, m: Mut, coins: Coins)
    requires m in MineExpr(n) && !n.Binary? && !n.CompareSub?
    ensures GroupFits(m, n, coins)
  {
    if n.Like? {
      LikeGroup(n, m, coins);
    }
  }

  lemma LikeGroup(n: Node, m: Mut, coins: Coins)
    requires n.Like? && m in MineExpr(n)
    ensures GroupFits(m, n, coins)
  {
  }

  lemma ShapeGroup(n: Node, m: Mut, coins: Coins)
    requires n.Select? && m in MineShape(n.distinct, !n.ordered && n.with.Nil?, n.after)
    ensures GroupFits(m, n, coins)
  {
    assert m in {FixMDistinctU, FixMDistinctL, FixMUnionAllU, FixMUnionAllL};
  }

  lemma ClauseGroup(n: Node, m: Mut, coins: Coins)
    requires n.Select? && m in MineClauses(!n.where.Nil?, !n.having.Nil?)
    ensures GroupFits(m, n, coins)
  {
    assert m in {FixMWhere1U, FixMWhere0L, FixMHaving1U, FixMHaving0L};
    var ks := Kids(n);
    assert ks[1] == n.where && ks[2] == n.having && ks[4..] == n.fields;
    assert ks[1 := ONE][4..] == ks[1 := ZERO][4..] == ks[2 := ONE][4..] == ks[2 := ZERO][4..] == n.fields;
  }

  lemma OnGroup(n: Node, m: Mut, coins: Coins)
    requires n.Join? && m in MineRows(n)
    ensures GroupFits(m, n, coins)
  {
    assert m in {FixMOn1U, FixMOn0L};
  }

  lemma BetweenRewrite(m: Mut, t: Node, b: nat, op: Op, coins: Coins)
    requires t.Between? && m in {FixMBetweenDropUpperU, FixMBetweenDropLowerU}
    requires b == if m == FixMBetweenDropUpperU then 1 else 2
    requires op == if m == FixMBetweenDropUpperU then (if t.neg then LT else GE) else (if t.neg then GT else LE)
    ensures Rewrite(m, t, coins) == Some(Paren(Binary(op, Kids(t)[0], Kids(t)[b])))
  {
  }

  lemma LikeOther(m: Mut, t: Node, coins: Coins)
    requires t.Like? && !LiteralLike(t)
    ensures Rewrite(m, t, coins).None?
  {
  }

  lemma LikeRewrite(m: Mut, t: Node, coins: Coins)
    requires LiteralLike(t) && (m == RdMLikeU || m == RdMLikeL)
    ensures var checks := if m == RdMLikeU then CheckLikeU(Like(true, t.e, t.pattern))
        else CheckLikeL(Like(true, t.e, t.pattern));
            var p := if m == RdMLikeU then Widen(t.pattern.v.s, coins, 0) else Narrow(t.pattern.v.s, coins, 0);
            Rewrite(m, t, coins) == if checks then Some(WithKid(t, 1, Lit(Str(p)))) else None
  {
  }

  lemma BetweenOther(m: Mut, t: Node, coins: Coins)
    requires t.Between? && m != FixMBetweenDropUpperU && m != FixMBetweenDropLowerU
    ensures Rewrite(m, t, coins).None?
  {
  }

  lemma EraseBetween(t: Node)
    requires t.Between?
    ensures Erase(t) == Between(t.neg, Nil, Nil, Nil)
  {
  }

  lemma KindErase(n: Node)
    ensures Erase(n).Between? <==> n.Between?
  {
  }

  /** `r`, holding `m`, can take the place of `x`, the `i`-th child of the node at `u`. */
  ghost predicate Replaceable(s: Store, p: Ptr, n: Node, u: Path, i: nat, x: Ptr, r: Ptr, m: Node) {
    && Rep(s, p, n) && ValidPath(n, u) && i < |Kids(At(n, u))| && ValidPath(n, u + [i])
    && Unique(s, p, n, u) && Unique(s, p, n, u + [i]) && PtrAt(s, p, n, u + [i]) == x
    && Slot(Erase(At(n, u)), i)
    && Rep(s, r, m) && AvoidsBelow(s, r, m, r) && Avoids(s, p, n, r)
    && Avoids(s, r, m, PtrAt(s, p, n, u))
  }

  lemma ReplaceFirst(s: Store, p: Ptr, n: Node, u: Path, i: nat, x: Ptr, r: Ptr, m: Node)
    requires Replaceable(s, p, n, u, i, x, r, m)
    ensures x != r && Aimed(s, p, n, x, Some(u + [i]))
    ensures var y := PtrAt(s, p, n, u);
            y in s && i < |s[y].kids| && s[y].kids[i] == x
            && Redirected(s, p, n, Some(u + [i]), r) == s[y := Cell(s[y].own, s[y].kids[i := r])]
  {
    var q := u + [i];
    assert q[..|q| - 1] == u;
    RepAt(s, p, n, u);
    UniqueAvoid(s, p, n, q, r);
    PtrAtLast(s, p, n, u, i);
  }

  lemma ReplaceSecond(s: Store, p: Ptr, n: Node, u: Path, i: nat, x: Ptr, r: Ptr, m: Node)
    requires Replaceable(s, p, n, u, i, x, r, m)
    ensures var y := PtrAt(s, p, n, u); y in s && i < |s[y].kids|
    ensures var y := PtrAt(s, p, n, u);
            var s', n' := s[y := Cell(s[y].own, s[y].kids[i := r])], Put(n, u + [i], m);
            && Rep(s', p, n') && Aimed(s', p, n', r, Some(u + [i]))
            && Redirected(s', p, n', Some(u + [i]), x) == s
  {
    var q, y := u + [i], PtrAt(s, p, n, u);
    ReplaceFirst(s, p, n, u, i, x, r, m);
    RedirectUnique(s, p, n, u, i, y, r, m);
    PutPut(n, u, i, m);
    RepAt(s, p, n, u);
    RedirectBack(s, s[y := Cell(s[y].own, s[y].kids[i := r])], p, Put(n, q, m), u, i, x, r, y);
  }

  /** Pointing the slot back undoes the redirection. */
  lemma RedirectBack(s: Store, s': Store, p: Ptr, n: Node, u: Path, i: nat, x: Ptr, r: Ptr, y: Ptr)
    requires Rep(s', p, n) && ValidPath(n, u) && ValidPath(n, u + [i])
    requires Unique(s', p, n, u) && Unique(s', p, n, u + [i]) && PtrAt(s', p, n, u + [i]) == r
    requires y == PtrAt(s', p, n, u) && y in s && i < |s[y].kids| && s[y].kids[i] == x && Slot(s[y].own, i)
    requires s' == s[y := Cell(s[y].own, s[y].kids[i := r])]
    ensures Aimed(s', p, n, r, Some(u + [i])) && Redirected(s', p, n, Some(u + [i]), x) == s
  {
    var q := u + [i];
    assert q[..|q| - 1] == u && q[|q| - 1] == i;
    assert s[y].kids[i := r][i := x] == s[y].kids;
  }

  lemma ReplaceableComparison(s: Store, s': Store, p: Ptr, n: Node, u: Path, i: nat, x: Ptr, b: nat, op: Op,
        bin: Ptr, par: Ptr)
    requires Rep(s, p, n) && Separate(s, p, n) && ValidPath(n, u) && i < |Kids(At(n, u))| && ValidPath(n, u + [i])
    requires PtrAt(s, p, n, u + [i]) == x && Slot(Erase(At(n, u)), i) && Rep(s, x, At(n, u + [i]))
    requires b < |Kids(At(n, u + [i]))| && bin !in s && par !in s && bin != par
    requires s' == s[bin := Cell(Binary(op, Nil, Nil), [s[x].kids[0], s[x].kids[b]])][par := Cell(Paren(Nil), [bin])]
    ensures Replaceable(s', p, n, u, i, x, par, Paren(Binary(op, Kids(At(n, u + [i]))[0], Kids(At(n, u + [i]))[b])))
  {
    ChildAvoids(s, p, n, u, i);
    NewComparison(s, s', x, At(n, u + [i]), 0, b, op, bin, par, PtrAt(s, p, n, u));
    Allocated(s, s', p, n, u, i, par);
  }

  lemma ReplaceableLiteral(s: Store, s': Store, p: Ptr, n: Node, u: Path, i: nat, leaf: Node, lit: Ptr, par: Ptr)
    requires Rep(s, p, n) && Separate(s, p, n) && ValidPath(n, u) && i < |Kids(At(n, u))| && ValidPath(n, u + [i])
    requires Slot(Erase(At(n, u)), i) && leaf.Lit? && lit !in s && par !in s && lit != par
    requires s' == s[lit := Cell(leaf, [])][par := Cell(Paren(Nil), [lit])]
    ensures Replaceable(s', p, n, u, i, PtrAt(s, p, n, u + [i]), par, Paren(leaf))
  {
    ChildAvoids(s, p, n, u, i);
    NewLiteral(s, s', leaf, lit, par, PtrAt(s, p, n, u));
    Allocated(s, s', p, n, u, i, par);
  }

  lemma EraseInList(t: Node, x: Node)
    requires t.InList?
    ensures Erase(InList(t.neg, t.e, t.list + [x])) == InList(Erase(t).neg, Nil, Erase(t).list + [Nil])
  {
    var m := InList(t.neg, t.e, t.list + [x]);
    assert |Kids(m)| == |t.list| + 2 && |Kids(t)| == |t.list| + 1;
    assert seq(|t.list| + 2, _ => Nil)[1..] == seq(|t.list| + 1, _ => Nil)[1..] + [Nil];
  }

  lemma SameAvoidsBelow(s: Store, s': Store, p: Ptr, n: Node, x: Ptr)
    requires Rep(s, p, n) && Same(s, s', p, n) && Rep(s', p, n)
    ensures AvoidsBelow(s', p, n, x) <==> AvoidsBelow(s, p, n, x)
  {
    forall i | 0 <= i < |Kids(n)|
      ensures Avoids(s', s[p].kids[i], Kids(n)[i], x) <==> Avoids(s, s[p].kids[i], Kids(n)[i], x)
    {
      SameAvoids(s, s', s[p].kids[i], Kids(n)[i], x);
    }
  }
}
