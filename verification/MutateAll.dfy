/**
 Every candidate of a statement, carried out one at a time on the same tree.
 */
module MutateAll {
  import opened Sql
  import opened LikePattern
  import opened Mutation
  import opened Candidates
  import opened Visitor
  import AstStore

  // `sql` is None where the mutation reported an error.
  datatype Unit = Unit(name: Mut, sql: Option<Node>, isUpper: bool)

  /** The unit a candidate is to give: the mutated statement and the claim about its result. */
  function UnitOf(root: Node, c: Candidate, coins: Coins): Unit {
    Unit(c.mut, if ValidPath(root, c.path) then Mutated(root, c.mut, c.path, coins) else None, IsUpper(c))
  }

  function UnitsOf(root: Node, cs: seq<Candidate>, coins: Coins): (us: seq<Unit>)
    ensures |us| == |cs|
  {
    if cs == [] then [] else [UnitOf(root, cs[0], coins)] + UnitsOf(root, cs[1..], coins)
  }

  /** The units of one mutation, in order. */
  function Named(us: seq<Unit>, m: Mut): seq<Unit> {
    if us == [] then [] else (if us[0].name == m then [us[0]] else []) + Named(us[1..], m)
  }

  lemma {:induction false} NamedConcat(a: seq<Unit>, b: seq<Unit>, m: Mut)
    ensures Named(a + b, m) == Named(a, m) + Named(b, m)
  {
    if a == [] {
      assert a + b == b;
    } else {
      var c := a + b;
      assert c[0] == a[0] && c[1..] == a[1..] + b;
      NamedConcat(a[1..], b, m);
      var first := if a[0].name == m then [a[0]] else [];
      assert Named(c, m) == first + (Named(a[1..], m) + Named(b, m));
    }
  }

  lemma {:induction false} UnitsConcat(root: Node, a: seq<Candidate>, b: seq<Candidate>, coins: Coins)
    ensures UnitsOf(root, a + b, coins) == UnitsOf(root, a, coins) + UnitsOf(root, b, coins)
  {
    if a == [] {
      assert a + b == b;
    } else {
      var c := a + b;
      assert c[0] == a[0] && c[1..] == a[1..] + b;
      UnitsConcat(root, a[1..], b, coins);
      assert UnitsOf(root, c, coins) == [UnitOf(root, a[0], coins)] + (UnitsOf(root, a[1..], coins) + UnitsOf(root,
          b, coins));
    }
  }

  lemma {:induction false} SameName(us: seq<Unit>, m: Mut, k: Mut)
    requires forall i :: 0 <= i < |us| ==> us[i].name == m
    ensures Named(us, k) == if k == m then us else []
  {
    if us != [] {
      SameName(us[1..], m, k);
    }
  }

  lemma {:induction false} UnitsAt(root: Node, cs: seq<Candidate>, i: nat, coins: Coins)
    requires i < |cs|
    ensures UnitsOf(root, cs, coins)[i] == UnitOf(root, cs[i], coins)
  {
    if i > 0 {
      UnitsAt(root, cs[1..], i - 1, coins);
    }
  }

  lemma OneName(root: Node, cs: seq<Candidate>, m: Mut, k: Mut, coins: Coins)
    ensures Named(UnitsOf(root, Only(cs, m), coins), k) == if k == m then UnitsOf(root, Only(cs, m), coins) else []
  {
    var us := UnitsOf(root, Only(cs, m), coins);
    OnlyFrom(cs, m);
    forall i | 0 <= i < |us| ensures us[i].name == m {
      UnitsAt(root, Only(cs, m), i, coins);
      assert Only(cs, m)[i] in Only(cs, m);
    }
    SameName(us, m, k);
  }

  lemma {:induction false} OnlyFrom(cs: seq<Candidate>, m: Mut)
    ensures forall c :: c in Only(cs, m) <==> c in cs && c.mut == m
  {
    if cs != [] {
      OnlyFrom(cs[1..], m);
    }
  }

  /**
   Whatever the order in which the names come up: for every name the units are exactly those of
   its candidates, in the visitor's order, each with the statement mutated at that candidate
   alone, because the tree is the same before every mutation, and after the last.
   */
  method AllUnits(ast: AstStore.Ast, root: Node, coins: Coins) returns (units: seq<Unit>)
    requires ast.Valid(root)
    modifies ast
    ensures ast.Valid(root) && AstStore.Extends(old(ast.store), ast.store)
    ensures AllUnitsOf(units, root, coins)
  {
    var v := new MutateVisitor();
    v.VisitStatement(root);
    ghost var cs := CandidatesOf(root);
    forall m ensures Group(v.candidates, m) == Only(cs, m) {
      Grouping(map[], cs, m);
    }
    units := [];
    var groups := v.candidates;
    var todo := groups.Keys;
    NothingYet(root, cs, groups, coins);
    while todo != {}
      invariant ast.Valid(root) && AstStore.Extends(old(ast.store), ast.store)
      invariant todo <= groups.Keys
      invariant AllBut(units, root, cs, todo, coins)
      decreases todo
    {
      var m :| m in todo;
      assert groups[m] == Group(groups, m) == Only(cs, m);
      var more := UnitsOfGroup(ast, root, groups[m], m, coins);
      AddGroup(units, root, cs, todo, m, coins);
      units := units + more;
      todo := todo - {m};
    }
    assert AllBut(units, root, cs, {}, coins);
  }

  /** The units of all names but those still to do. */
  ghost predicate AllBut(units: seq<Unit>, root: Node, cs: seq<Candidate>, todo: set<Mut>, coins: Coins) {
    forall m :: Named(units, m) == if m in todo then [] else UnitsOf(root, Only(cs, m), coins)
  }

  lemma AddGroup(units: seq<Unit>, root: Node, cs: seq<Candidate>, todo: set<Mut>, m: Mut, coins: Coins)
    requires AllBut(units, root, cs, todo, coins) && m in todo
    ensures AllBut(units + UnitsOf(root, Only(cs, m), coins), root, cs, todo - {m}, coins)
  {
    var more := UnitsOf(root, Only(cs, m), coins);
    forall k ensures Named(units + more, k) == if k in todo - {m} then [] else UnitsOf(root, Only(cs, k), coins) {
      NamedConcat(units, more, k);
      OneName(root, cs, m, k, coins);
      assert Named(units, k) == if k in todo then [] else UnitsOf(root, Only(cs, k), coins);
      assert [] + more == more && Named(units, k) + [] == Named(units, k);
    }
  }

  lemma NothingYet(root: Node, cs: seq<Candidate>, groups: Grouped, coins: Coins)
    requires forall m :: Group(groups, m) == Only(cs, m)
    ensures AllBut([], root, cs, groups.Keys, coins)
  {
    forall m ensures Named([], m) == if m in groups.Keys then [] else UnitsOf(root, Only(cs, m), coins) {
      assert m !in groups ==> Only(cs, m) == [];
    }
  }

  /** The units of all names together, whatever their order. */
  ghost predicate AllUnitsOf(units: seq<Unit>, root: Node, coins: Coins) {
    forall m :: Named(units, m) == UnitsOf(root, Only(CandidatesOf(root), m), coins)
  }

  lemma {:induction false} InNamed(us: seq<Unit>, u: Unit)
    requires u in us
    ensures u in Named(us, u.name)
  {
    if us[0] != u {
      InNamed(us[1..], u);
    }
  }

  /** Every unit is that of a candidate of the statement. */
  lemma UnitFrom(units: seq<Unit>, root: Node, coins: Coins, u: Unit) returns (c: Candidate)
    requires AllUnitsOf(units, root, coins) && u in units
    ensures c in CandidatesOf(root) && u == UnitOf(root, c, coins)
  {
    var cs := Only(CandidatesOf(root), u.name);
    InNamed(units, u);
    assert u in UnitsOf(root, cs, coins);
    var i :| 0 <= i < |cs| && UnitsOf(root, cs, coins)[i] == u;
    UnitsAt(root, cs, i, coins);
    c := cs[i];
    OnlyFrom(CandidatesOf(root), u.name);
    assert c in cs;
  }

  lemma NextUnit(root: Node, group: seq<Candidate>, i: nat, coins: Coins)
    requires i < |group|
    ensures UnitsOf(root, group[..i + 1], coins) == UnitsOf(root, group[..i], coins) + [UnitOf(root, group[i], coins)]
  {
    assert group[..i + 1] == group[..i] + [group[i]];
    UnitsConcat(root, group[..i], [group[i]], coins);
    assert UnitsOf(root, [group[i]], coins) == [UnitOf(root, group[i], coins)];
  }

  method UnitsOfGroup(ast: AstStore.Ast, root: Node, group: seq<Candidate>, m: Mut,
        coins: Coins) returns (units: seq<Unit>)
    requires ast.Valid(root) && group == Only(CandidatesOf(root), m)
    modifies ast
    ensures ast.Valid(root) && AstStore.Extends(old(ast.store), ast.store)
    ensures units == UnitsOf(root, group, coins)
  {
    OnlyFrom(CandidatesOf(root), m);
    units := [];
    for i := 0 to |group|
      invariant ast.Valid(root) && AstStore.Extends(old(ast.store), ast.store)
      invariant units == UnitsOf(root, group[..i], coins)
    {
      var c := group[i];
      assert c in group;
      var sql := ast.ImpoMutate(c, coins, root);
      units := units + [Unit(c.mut, sql, c.u == c.flag)];
      NextUnit(root, group, i, coins);
    }
    assert group[..|group|] == group;
  }
}
