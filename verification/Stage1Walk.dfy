/**
 Stage 1 as it is carried out: the visitor overwrites fields of the nodes it meets and then goes
 on to whatever children they have by then.
 */
module Stage1Walk {
  import opened Sql
  import opened AstStore
  import opened Stage1

  /** The cells a tree is made of. */
  ghost function Cells(s: Store, p: Ptr, n: Node): set<Ptr>
    requires Rep(s, p, n)
    decreases n
  {
    {p} + set i, x | 0 <= i < |Kids(n)| && x in Cells(s, s[p].kids[i], Kids(n)[i]) :: x
  }

  /** No cell is in the tree twice. */
  ghost predicate Apart(s: Store, p: Ptr, n: Node)
    requires Rep(s, p, n)
    decreases n
  {
    forall i :: 0 <= i < |Kids(n)| ==>
      && Apart(s, s[p].kids[i], Kids(n)[i]) && p !in Cells(s, s[p].kids[i], Kids(n)[i])
      && forall j :: 0 <= j < |Kids(n)| && j != i ==>
           Cells(s, s[p].kids[i], Kids(n)[i]) !! Cells(s, s[p].kids[j], Kids(n)[j])
  }

  ghost predicate SameOn(s: Store, s': Store, xs: set<Ptr>) {
    forall x :: x in xs && x in s ==> x in s' && s'[x] == s[x]
  }

  lemma {:induction false} Unchanged(s: Store, s': Store, p: Ptr, n: Node)
    requires Rep(s, p, n) && SameOn(s, s', Cells(s, p, n))
    ensures Rep(s', p, n) && Cells(s', p, n) == Cells(s, p, n) && (Apart(s, p, n) ==> Apart(s', p, n))
    decreases n
  {
    forall i | 0 <= i < |Kids(n)|
      ensures Rep(s', s[p].kids[i], Kids(n)[i])
      ensures Cells(s', s[p].kids[i], Kids(n)[i]) == Cells(s, s[p].kids[i], Kids(n)[i])
      ensures Apart(s, s[p].kids[i], Kids(n)[i]) ==> Apart(s', s[p].kids[i], Kids(n)[i])
    {
      Unchanged(s, s', s[p].kids[i], Kids(n)[i]);
    }
  }

  lemma {:induction false} CellsIn(s: Store, p: Ptr, n: Node)
    requires Rep(s, p, n)
    ensures forall x :: x in Cells(s, p, n) ==> x in s
    decreases n
  {
    forall i | 0 <= i < |Kids(n)| ensures forall x :: x in Cells(s, s[p].kids[i], Kids(n)[i]) ==> x in s {
      CellsIn(s, s[p].kids[i], Kids(n)[i]);
    }
  }

  /** Outside `xs` nothing changes, and what is new in `ys` is newly allocated. */
  ghost predicate Local(s: Store, s': Store, xs: set<Ptr>, ys: set<Ptr>) {
    && (forall x :: x in s && x !in xs ==> x in s' && s'[x] == s[x])
    && (forall x :: x in s ==> x in s')
    && (forall y :: y in ys ==> y in xs || y !in s)
  }

  /** Trees side by side without a cell in common. */
  ghost predicate Parts(s: Store, cs: seq<Ptr>, ks: seq<Node>) {
    && |cs| == |ks|
    && (forall i :: 0 <= i < |ks| ==> Rep(s, cs[i], ks[i]) && Apart(s, cs[i], ks[i]))
    && forall i, j :: 0 <= i < |ks| && 0 <= j < |ks| && i != j ==> Cells(s, cs[i], ks[i]) !! Cells(s, cs[j], ks[j])
  }

  ghost predicate Clear(s: Store, cs: seq<Ptr>, ks: seq<Node>, p: Ptr)
    requires Parts(s, cs, ks)
  {
    forall i :: 0 <= i < |ks| ==> p !in Cells(s, cs[i], ks[i])
  }

  lemma Taken(s: Store, p: Ptr, n: Node)
    requires Rep(s, p, n) && Apart(s, p, n)
    ensures Parts(s, s[p].kids, Kids(n)) && Clear(s, s[p].kids, Kids(n), p)
  {
  }

  lemma Assembled(s: Store, p: Ptr, n: Node)
    requires p in s && s[p].own == Erase(n) && Parts(s, s[p].kids, Kids(n)) && Clear(s, s[p].kids, Kids(n), p)
    ensures Rep(s, p, n) && Apart(s, p, n)
  {
  }

  /** One part changed within itself; the others are as before. */
  lemma PartReplaced(s: Store, s': Store, cs: seq<Ptr>, ks: seq<Node>, i: nat, k: Node, p: Ptr)
    requires Parts(s, cs, ks) && Clear(s, cs, ks, p) && i < |ks| && p in s
    requires Rep(s', cs[i], k) && Apart(s', cs[i], k)
    requires Local(s, s', Cells(s, cs[i], ks[i]), Cells(s', cs[i], k))
    ensures Parts(s', cs, ks[i := k]) && Clear(s', cs, ks[i := k], p)
    ensures forall j :: 0 <= j < |ks| && j != i ==> Cells(s', cs[j], ks[j]) == Cells(s, cs[j], ks[j])
  {
    forall j | 0 <= j < |ks| && j != i
      ensures Rep(s', cs[j], ks[j]) && Apart(s', cs[j], ks[j])
      ensures Cells(s', cs[j], ks[j]) == Cells(s, cs[j], ks[j]) && Cells(s', cs[j], ks[j]) !! Cells(s', cs[i], k)
    {
      CellsIn(s, cs[j], ks[j]);
      Unchanged(s, s', cs[j], ks[j]);
    }
  }

  lemma KidInside(s: Store, p: Ptr, n: Node, i: nat)
    requires Rep(s, p, n) && i < |Kids(n)|
    ensures Cells(s, s[p].kids[i], Kids(n)[i]) <= Cells(s, p, n)
  {
  }

  lemma CellWhere(s: Store, p: Ptr, n: Node, y: Ptr) returns (j: nat)
    requires Rep(s, p, n) && y in Cells(s, p, n) && y != p
    ensures j < |Kids(n)| && y in Cells(s, s[p].kids[j], Kids(n)[j])
  {
    j :| 0 <= j < |Kids(n)| && y in Cells(s, s[p].kids[j], Kids(n)[j]);
  }

  lemma KidLocal(s: Store, s': Store, p: Ptr, n: Node, m: Node, i: nat)
    requires Rep(s, p, n) && Rep(s', p, m) && i < |Kids(n)| == |Kids(m)| && s'[p].kids == s[p].kids
    requires Local(s, s', Cells(s, s[p].kids[i], Kids(n)[i]), Cells(s', s[p].kids[i], Kids(m)[i]))
    requires forall j :: 0 <= j < |Kids(n)| && j != i ==>
               Cells(s', s[p].kids[j], Kids(m)[j]) == Cells(s, s[p].kids[j], Kids(n)[j])
    ensures Local(s, s', Cells(s, p, n), Cells(s', p, m))
  {
    KidInside(s, p, n, i);
    forall y | y in Cells(s', p, m) ensures y in Cells(s, p, n) || y !in s {
      NewCell(s, s', p, n, m, i, y);
    }
  }

  lemma NewCell(s: Store, s': Store, p: Ptr, n: Node, m: Node, i: nat, y: Ptr)
    requires Rep(s, p, n) && Rep(s', p, m) && i < |Kids(n)| == |Kids(m)| && s'[p].kids == s[p].kids
    requires forall y :: y in Cells(s', s[p].kids[i], Kids(m)[i]) ==> y in Cells(s, s[p].kids[i], Kids(n)[i]) || y !in s
    requires forall j :: 0 <= j < |Kids(n)| && j != i ==>
               Cells(s', s[p].kids[j], Kids(m)[j]) == Cells(s, s[p].kids[j], Kids(n)[j])
    requires y in Cells(s', p, m)
    ensures y in Cells(s, p, n) || y !in s
  {
    if y != p {
      var j := CellWhere(s', p, m, y);
      KidInside(s, p, n, j);
    }
  }

  /** The subtree of one child changed, and only it: the rest of the tree is as before. */
  lemma KidReplaced(s: Store, s': Store, p: Ptr, n: Node, i: nat, k: Node)
    requires Rep(s, p, n) && Apart(s, p, n) && i < |Kids(n)|
    requires Rep(s', s[p].kids[i], k) && Apart(s', s[p].kids[i], k)
    requires Local(s, s', Cells(s, s[p].kids[i], Kids(n)[i]), Cells(s', s[p].kids[i], k))
    ensures var m := WithKid(n, i, k);
            Rep(s', p, m) && Apart(s', p, m) && Local(s, s', Cells(s, p, n), Cells(s', p, m))
    ensures p in s' && s'[p] == s[p]
  {
    var m := WithKid(n, i, k);
    Taken(s, p, n);
    PartReplaced(s, s', s[p].kids, Kids(n), i, k, p);
    EraseWithKid(n, i, k);
    Assembled(s', p, m);
    KidLocal(s, s', p, n, m, i);
  }

  lemma LocalTwice(s: Store, t: Store, u: Store, xs: set<Ptr>, ys: set<Ptr>, zs: set<Ptr>)
    requires Local(s, t, xs, ys) && Local(t, u, ys, zs)
    ensures Local(s, u, xs, zs)
  {
  }

  // ---------------------------------------------------------------------------------------
  // One node

  /** Only the cell itself is overwritten, by one with the children `ks`, all of them from the tree or new. */
  lemma Overwritten(s: Store, s': Store, p: Ptr, n: Node, m: Node)
    requires Rep(s, p, n) && Apart(s, p, n) && p in s' && s'[p].own == Erase(m)
    requires forall x :: x in s && x != p ==> x in s' && s'[x] == s[x]
    requires Parts(s', s'[p].kids, Kids(m)) && Clear(s', s'[p].kids, Kids(m), p)
    requires forall i :: 0 <= i < |Kids(m)| ==>
               forall y :: y in Cells(s', s'[p].kids[i], Kids(m)[i]) ==> y in Cells(s, p, n) || y !in s
    ensures Rep(s', p, m) && Apart(s', p, m) && Local(s, s', Cells(s, p, n), Cells(s', p, m))
  {
    Assembled(s', p, m);
    forall y | y in Cells(s', p, m) ensures y in Cells(s, p, n) || y !in s {
      if y != p {
        var j := CellWhere(s', p, m, y);
      }
    }
  }

  /** The children stay as they are. */
  lemma SameKids(s: Store, s': Store, p: Ptr, n: Node, m: Node)
    requires Rep(s, p, n) && Apart(s, p, n) && p in s' && s'[p] == Cell(Erase(m), s[p].kids) && Kids(m) == Kids(n)
    requires forall x :: x in s && x != p ==> x in s' && s'[x] == s[x]
    ensures Rep(s', p, m) && Apart(s', p, m) && Local(s, s', Cells(s, p, n), Cells(s', p, m))
  {
    Taken(s, p, n);
    forall i | 0 <= i < |Kids(n)|
      ensures Rep(s', s[p].kids[i], Kids(n)[i]) && Apart(s', s[p].kids[i], Kids(n)[i])
      ensures Cells(s', s[p].kids[i], Kids(n)[i]) == Cells(s, s[p].kids[i], Kids(n)[i])
    {
      Unchanged(s, s', s[p].kids[i], Kids(n)[i]);
      KidInside(s, p, n, i);
    }
    Overwritten(s, s', p, n, m);
  }

  /** Only one of the children stays. */
  lemma OneKid(s: Store, s': Store, p: Ptr, n: Node, m: Node, i: nat)
    requires Rep(s, p, n) && Apart(s, p, n) && i < |Kids(n)| && p in s'
    requires s'[p] == Cell(Erase(m), [s[p].kids[i]]) && Kids(m) == [Kids(n)[i]]
    requires forall x :: x in s && x != p ==> x in s' && s'[x] == s[x]
    ensures Rep(s', p, m) && Apart(s', p, m) && Local(s, s', Cells(s, p, n), Cells(s', p, m))
  {
    Taken(s, p, n);
    Unchanged(s, s', s[p].kids[i], Kids(n)[i]);
    KidInside(s, p, n, i);
    Overwritten(s, s', p, n, m);
  }

  /** A new literal takes the place of the children. */
  lemma NewLiteral(s: Store, s': Store, p: Ptr, n: Node, m: Node, z: Ptr, v: Value)
    requires Rep(s, p, n) && Apart(s, p, n) && p in s' && z !in s && z in s' && s'[z] == Cell(Lit(v), [])
    requires s'[p] == Cell(Erase(m), [z]) && Kids(m) == [Lit(v)]
    requires forall x :: x in s && x != p ==> x in s' && s'[x] == s[x]
    ensures Rep(s', p, m) && Apart(s', p, m) && Local(s, s', Cells(s, p, n), Cells(s', p, m))
  {
    assert Kids(Lit(v)) == [] && Erase(Lit(v)) == Lit(v);
    assert Rep(s', z, Lit(v)) && Cells(s', z, Lit(v)) == {z};
    Overwritten(s, s', p, n, m);
  }

  ghost predicate Fresh(ast: Ast)
    reads ast
  {
    forall x :: x in ast.store ==> x < ast.next
  }

  method ReplaceByLiteral(ast: Ast, p: Ptr, own: Node, v: Value, ghost n: Node, ghost m: Node)
    requires Rep(ast.store, p, n) && Apart(ast.store, p, n) && Fresh(ast)
    requires own == Erase(m) && Kids(m) == [Lit(v)]
    modifies ast`store, ast`next
    ensures Fresh(ast) && Rep(ast.store, p, m) && Apart(ast.store, p, m)
    ensures Local(old(ast.store), ast.store, Cells(old(ast.store), p, n), Cells(ast.store, p, m))
  {
    ghost var s := ast.store;
    var z := ast.New(Lit(v), []);
    ast.store := ast.store[p := Cell(own, [z])];
    NewLiteral(s, ast.store, p, n, m, z, v);
  }

  /** GROUP BY and LIMIT of a SELECT. */
  method RmGroupByAndLimit(ast: Ast, p: Ptr, ghost n: Node)
    requires Rep(ast.store, p, n) && Apart(ast.store, p, n) && Fresh(ast) && n.Select?
    modifies ast`store, ast`next
    ensures Fresh(ast) && Rep(ast.store, p, Entered(n)) && Apart(ast.store, p, Entered(n))
    ensures Local(old(ast.store), ast.store, Cells(old(ast.store), p, n), Cells(ast.store, p, Entered(n)))
  {
    ghost var s := ast.store;
    var own := ast.store[p].own;
    own := Select(own.distinct, own.ordered, false, None, own.after, own.from, own.where, own.having, own.with,
        own.fields);
    ast.store := ast.store[p := Cell(own, ast.store[p].kids)];
    SameKids(s, ast.store, p, n, Entered(n));
  }

  method RmLRJoin(ast: Ast, p: Ptr, ghost n: Node)
    requires Rep(ast.store, p, n) && Apart(ast.store, p, n) && Fresh(ast) && n.Join?
    modifies ast`store, ast`next
    ensures Fresh(ast) && Rep(ast.store, p, Entered(n)) && Apart(ast.store, p, Entered(n))
    ensures Local(old(ast.store), ast.store, Cells(old(ast.store), p, n), Cells(ast.store, p, Entered(n)))
  {
    ghost var s := ast.store;
    var own := ast.store[p].own;
    own := Join(CrossJoin, own.left, own.right, own.on, own.leftWidth, own.rightWidth);
    ast.store := ast.store[p := Cell(own, ast.store[p].kids)];
    SameKids(s, ast.store, p, n, Entered(n));
  }

  lemma LiteralErase(n: Node)
    ensures Erase(n).Lit? <==> n.Lit?
  {
  }

  lemma LiteralKid(s: Store, p: Ptr, n: Node, i: nat)
    requires Rep(s, p, n) && i < |Kids(n)|
    ensures s[p].kids[i] in s && (s[s[p].kids[i]].own.Lit? <==> Kids(n)[i].Lit?)
  {
    LiteralErase(Kids(n)[i]);
  }

  lemma EnteredAgg(n: Node)
    requires n.Agg?
    ensures var literal := |n.args| == 0 || (n.name == "count" && |n.args| == 1 && n.args[0].Lit?);
            Kids(Entered(n)) == [if literal then Lit(Int(1)) else n.args[0]]
    ensures Erase(Entered(n)) == Agg("", [Nil]) && Kids(n) == n.args && Erase(n).Agg? && Erase(n).name == n.name
  {
    assert seq(1, _ => Nil) == [Nil];
  }

  method RmAgg(ast: Ast, p: Ptr, ghost n: Node)
    requires Rep(ast.store, p, n) && Apart(ast.store, p, n) && Fresh(ast) && n.Agg?
    modifies ast`store, ast`next
    ensures Fresh(ast) && Rep(ast.store, p, Entered(n)) && Apart(ast.store, p, Entered(n))
    ensures Local(old(ast.store), ast.store, Cells(old(ast.store), p, n), Cells(ast.store, p, Entered(n)))
  {
    ghost var s, m := ast.store, Entered(n);
    EnteredAgg(n);
    var own, kids := ast.store[p].own, ast.store[p].kids;
    if |kids| > 0 {
      LiteralKid(s, p, n, 0);
    }
    if |kids| == 0 || (own.name == "count" && |kids| == 1 && ast.store[kids[0]].own.Lit?) {
      ReplaceByLiteral(ast, p, Agg("", [Nil]), Int(1), n, m);
    } else {
      ast.store := ast.store[p := Cell(Agg("", [Nil]), [kids[0]])];
      OneKid(s, ast.store, p, n, m, 0);
    }
  }

  method RmUncertain(ast: Ast, p: Ptr, ghost n: Node)
    requires Rep(ast.store, p, n) && Apart(ast.store, p, n) && Fresh(ast) && n.Func?
    modifies ast`store, ast`next
    ensures Fresh(ast) && Rep(ast.store, p, Entered(n)) && Apart(ast.store, p, Entered(n))
    ensures Local(old(ast.store), ast.store, Cells(old(ast.store), p, n), Cells(ast.store, p, Entered(n)))
  {
    var own := ast.store[p].own;
    if Replacement(own.name).Some? {
      ReplaceByLiteral(ast, p, Func("", [Nil]), Replacement(own.name).value, n, Entered(n));
    } else {
      SameRefl(ast.store, Cells(ast.store, p, n));
    }
  }

  lemma SameRefl(s: Store, xs: set<Ptr>)
    ensures Local(s, s, xs, xs)
  {
  }

  /** What the visitor does to a node when it enters it. */
  method Enter(ast: Ast, p: Ptr, ghost n: Node)
    requires Rep(ast.store, p, n) && Apart(ast.store, p, n) && Fresh(ast)
    modifies ast`store, ast`next
    ensures Fresh(ast) && Rep(ast.store, p, Entered(n)) && Apart(ast.store, p, Entered(n))
    ensures Local(old(ast.store), ast.store, Cells(old(ast.store), p, n), Cells(ast.store, p, Entered(n)))
  {
    var own := ast.store[p].own;
    SameKind(n);
    if own.Select? {
      RmGroupByAndLimit(ast, p, n);
    } else if own.Join? {
      RmLRJoin(ast, p, n);
    } else if own.Agg? {
      RmAgg(ast, p, n);
    } else if own.Func? {
      RmUncertain(ast, p, n);
    }
  }

  lemma SameKind(n: Node)
    ensures var own := Erase(n);
            (own.Select? <==> n.Select?) && (own.Join? <==> n.Join?) && (own.Agg? <==> n.Agg?)
                && (own.Func? <==> n.Func?)
    ensures !n.Select? && !n.Join? && !n.Agg? && !n.Func? ==> Entered(n) == n
  {
  }

  // ---------------------------------------------------------------------------------------
  // The walk

  /** `m` with its first `i` children walked. */
  ghost function Walked(n: Node, i: nat): Node
    requires i <= |Kids(Entered(n))|
  {
    var m := Entered(n);
    WithKids(m, InitAll(n, Kids(m))[..i] + Kids(m)[i..])
  }

  lemma OneFurther(inits: seq<Node>, ks: seq<Node>, i: nat)
    requires |inits| == |ks| && i < |ks|
    ensures (inits[..i] + ks[i..])[i] == ks[i]
    ensures (inits[..i] + ks[i..])[i := inits[i]] == inits[..i + 1] + ks[i + 1..]
  {
  }

  lemma WalkedStep(n: Node, i: nat)
    requires i < |Kids(Entered(n))|
    ensures |Kids(Walked(n, i))| == |Kids(Entered(n))| && Kids(Walked(n, i))[i] == Kids(Entered(n))[i]
    ensures Walked(n, i + 1) == WithKid(Walked(n, i), i, Init(Kids(Entered(n))[i]))
  {
    var m := Entered(n);
    var inits := InitAll(n, Kids(m));
    OneFurther(inits, Kids(m), i);
    WithKidsTwice(m, inits[..i] + Kids(m)[i..], inits[..i + 1] + Kids(m)[i + 1..]);
  }

  lemma WalkedEnds(n: Node)
    ensures Walked(n, 0) == Entered(n) && Walked(n, |Kids(Entered(n))|) == Init(n)
  {
    var m := Entered(n);
    var ks, inits := Kids(m), InitAll(n, Kids(m));
    WithKidsSame(m);
    assert inits[..0] + ks[0..] == ks && inits[..|ks|] + ks[|ks|..] == inits;
  }

  ghost predicate Tree(s: Store, p: Ptr, n: Node) {
    Rep(s, p, n) && Apart(s, p, n)
  }

  ghost predicate Grown(s: Store, t: Store, p: Ptr, n: Node, m: Node)
    requires Rep(s, p, n) && Rep(t, p, m)
  {
    Local(s, t, Cells(s, p, n), Cells(t, p, m))
  }

  lemma NextKid(t: Store, p: Ptr, n: Node, i: nat)
    requires i < |Kids(Entered(n))| && Tree(t, p, Walked(n, i))
    ensures i < |t[p].kids| && Tree(t, t[p].kids[i], Kids(Entered(n))[i])
  {
    WalkedStep(n, i);
  }

  lemma KidWalked(s: Store, t: Store, u: Store, p: Ptr, n: Node, i: nat)
    requires Rep(s, p, n) && i < |Kids(Entered(n))|
    requires Tree(t, p, Walked(n, i)) && Grown(s, t, p, n, Walked(n, i))
    requires i < |t[p].kids| && Tree(t, t[p].kids[i], Kids(Entered(n))[i])
    requires Tree(u, t[p].kids[i], Init(Kids(Entered(n))[i]))
    requires Grown(t, u, t[p].kids[i], Kids(Entered(n))[i], Init(Kids(Entered(n))[i]))
    ensures Tree(u, p, Walked(n, i + 1)) && u[p] == t[p] && Grown(s, u, p, n, Walked(n, i + 1))
  {
    WalkedStep(n, i);
    KidReplaced(t, u, p, Walked(n, i), i, Init(Kids(Entered(n))[i]));
    LocalTwice(s, t, u, Cells(s, p, n), Cells(t, p, Walked(n, i)), Cells(u, p, Walked(n, i + 1)));
  }

  /** The walk puts the tree in its normal form, in place, and touches nothing else. */
  method Accept(ast: Ast, p: Ptr, ghost n: Node)
    requires Tree(ast.store, p, n) && Fresh(ast)
    modifies ast`store, ast`next
    ensures Fresh(ast) && Tree(ast.store, p, Init(n)) && Grown(old(ast.store), ast.store, p, n, Init(n))
    decreases !n.Lit?, n
  {
    ghost var s := ast.store;
    Enter(ast, p, n);
    WalkedEnds(n);
    var kids := ast.store[p].kids;
    for i := 0 to |kids|
      invariant |kids| == |Kids(Entered(n))| && Fresh(ast)
      invariant Tree(ast.store, p, Walked(n, i)) && ast.store[p].kids == kids && Grown(s, ast.store, p, n, Walked(n, i))
    {
      ghost var t := ast.store;
      NextKid(t, p, n, i);
      Accept(ast, kids[i], Kids(Entered(n))[i]);
      KidWalked(s, t, ast.store, p, n, i);
    }
  }

  // ---------------------------------------------------------------------------------------
  // The tree of a statement

  lemma CellKids(s: Store, p: Ptr, n: Node, x: Ptr)
    requires Rep(s, p, n)
    ensures x !in Cells(s, p, n)
       <==> p != x && forall i :: 0 <= i < |Kids(n)| ==> x !in Cells(s, s[p].kids[i], Kids(n)[i])
  {
  }

  lemma {:induction false} AvoidsCells(s: Store, p: Ptr, n: Node, x: Ptr)
    requires Rep(s, p, n)
    ensures Avoids(s, p, n, x) <==> x !in Cells(s, p, n)
    decreases n
  {
    forall i | 0 <= i < |Kids(n)|
      ensures Avoids(s, s[p].kids[i], Kids(n)[i], x) <==> x !in Cells(s, s[p].kids[i], Kids(n)[i])
    {
      AvoidsCells(s, s[p].kids[i], Kids(n)[i], x);
    }
    CellKids(s, p, n, x);
  }

  lemma {:induction false} CellPath(s: Store, p: Ptr, n: Node, x: Ptr) returns (q: Path)
    requires Rep(s, p, n) && x in Cells(s, p, n)
    ensures ValidPath(n, q) && PtrAt(s, p, n, q) == x
    decreases n
  {
    if x == p {
      q := [];
    } else {
      var j := CellWhere(s, p, n, x);
      var r := CellPath(s, s[p].kids[j], Kids(n)[j], x);
      q := [j] + r;
      assert q[0] == j && q[1..] == r;
    }
  }

  lemma UniqueBelow(s: Store, p: Ptr, n: Node, i: nat, r: Path)
    requires Rep(s, p, n) && i < |Kids(n)| && ValidPath(Kids(n)[i], r)
    requires ValidPath(n, [i] + r) ==> Unique(s, p, n, [i] + r)
    ensures Unique(s, s[p].kids[i], Kids(n)[i], r)
    ensures forall j :: 0 <= j < |Kids(n)| && j != i ==>
              Avoids(s, s[p].kids[j], Kids(n)[j], PtrAt(s, s[p].kids[i], Kids(n)[i], r))
  {
    var q := [i] + r;
    assert q[0] == i && q[1..] == r;
  }

  lemma KidsApart(s: Store, p: Ptr, n: Node, i: nat, x: Ptr)
    requires Rep(s, p, n) && Separate(s, p, n) && i < |Kids(n)| && x in Cells(s, s[p].kids[i], Kids(n)[i])
    ensures x != p
    ensures forall j :: 0 <= j < |Kids(n)| && j != i ==> x !in Cells(s, s[p].kids[j], Kids(n)[j])
  {
    var r := CellPath(s, s[p].kids[i], Kids(n)[i], x);
    UniqueBelow(s, p, n, i, r);
    assert Unique(s, p, n, []);
    AvoidsCells(s, s[p].kids[i], Kids(n)[i], p);
    forall j | 0 <= j < |Kids(n)| && j != i ensures x !in Cells(s, s[p].kids[j], Kids(n)[j]) {
      AvoidsCells(s, s[p].kids[j], Kids(n)[j], x);
    }
  }

  /** In a tree whose nodes have one address each no cell occurs twice. */
  lemma {:induction false} SeparateApart(s: Store, p: Ptr, n: Node)
    requires Rep(s, p, n) && Separate(s, p, n)
    ensures Apart(s, p, n)
    decreases n
  {
    forall i | 0 <= i < |Kids(n)|
      ensures Apart(s, s[p].kids[i], Kids(n)[i]) && p !in Cells(s, s[p].kids[i], Kids(n)[i])
      ensures forall j :: 0 <= j < |Kids(n)| && j != i ==>
                Cells(s, s[p].kids[i], Kids(n)[i]) !! Cells(s, s[p].kids[j], Kids(n)[j])
    {
      forall r | ValidPath(Kids(n)[i], r) ensures Unique(s, s[p].kids[i], Kids(n)[i], r) {
        UniqueBelow(s, p, n, i, r);
      }
      SeparateApart(s, s[p].kids[i], Kids(n)[i]);
      forall x | x in Cells(s, s[p].kids[i], Kids(n)[i])
        ensures x != p && forall j :: 0 <= j < |Kids(n)| && j != i ==> x !in Cells(s, s[p].kids[j], Kids(n)[j])
      {
        KidsApart(s, p, n, i, x);
      }
    }
  }

  lemma StatementKind(n: Node)
    ensures (Erase(n).Select? <==> n.Select?) && (Erase(n).SetOprStmt? <==> n.SetOprStmt?)
  {
  }

  /** The statement stage 2 is given; anything but a SELECT or a set operation is an error. */
  method InitStatement(ast: Ast, ghost root: Node) returns (sql: Option<Node>)
    requires ast.Valid(root)
    modifies ast`store, ast`next
    ensures sql == if root.Select? || root.SetOprStmt? then Some(Init(root)) else None
    ensures sql.None? ==> ast.store == old(ast.store)
  {
    var own := ast.store[ast.root].own;
    StatementKind(root);
    if !own.Select? && !own.SetOprStmt? {
      return None;
    }
    SeparateApart(ast.store, ast.root, root);
    Accept(ast, ast.root, root);
    var text := ast.Restore(ast.root, Init(root));
    sql := Some(text);
  }
}
