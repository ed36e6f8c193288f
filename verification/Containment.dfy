/**
 The two orders behind the mutations: False < Unknown < True on truth values, and containment
 of multisets of rows on results. This module shows how every operator moves in them.
 */
module Containment {
  import opened Sql

  function Rank(t: Truth): int {
    match t case False => 0 case Unknown => 1 case True => 2
  }

  /** `a` implies `b` in the order False < Unknown < True. */
  predicate Implies3(a: Truth, b: Truth) {
    Rank(a) <= Rank(b)
  }

  /** Every row of `a` is in `b`, at least as often. */
  predicate Within(a: seq<Row>, b: seq<Row>) {
    multiset(a) <= multiset(b)
  }

  predicate WithinDir(flip: bool, a: seq<Row>, b: seq<Row>) {
    if flip then Within(b, a) else Within(a, b)
  }

  ghost predicate WithinPointwise(f: Row -> seq<Row>, g: Row -> seq<Row>) {
    forall r :: Within(f(r), g(r))
  }

  lemma {:induction false} SameFlatMap(s: seq<Row>, f: Row -> seq<Row>, g: Row -> seq<Row>)
    requires forall r :: f(r) == g(r)
    ensures FlatMap(s, f) == FlatMap(s, g)
  {
    if s != [] {
      SameFlatMap(s[1..], f, g);
    }
  }

  lemma {:induction false} FlatMapEmpty(s: seq<Row>, f: Row -> seq<Row>)
    ensures FlatMap(s, f) != [] <==> exists r :: r in s && f(r) != []
  {
    if s != [] {
      FlatMapEmpty(s[1..], f);
      assert forall r :: r in s <==> r == s[0] || r in s[1..];
    }
  }

  lemma OneRow(r: Row, f: Row -> seq<Row>)
    ensures FlatMap([r], f) == f(r)
  {
    assert [r][1..] == [] && FlatMap([], f) == [];
  }

  lemma {:induction false} FlatMapOnes(s: seq<Row>, f: Row -> seq<Row>)
    requires forall r :: f(r) == [r]
    ensures FlatMap(s, f) == s
  {
    if s != [] {
      FlatMapOnes(s[1..], f);
    }
  }

  lemma WithinConcat(a: seq<Row>, b: seq<Row>, c: seq<Row>, d: seq<Row>)
    requires Within(a, b) && Within(c, d)
    ensures Within(a + c, b + d)
  {
    assert multiset(a + c) == multiset(a) + multiset(c);
    assert multiset(b + d) == multiset(b) + multiset(d);
  }

  lemma WithinMember(a: seq<Row>, b: seq<Row>, r: Row)
    requires Within(a, b) && r in a
    ensures r in b
  {
    assert r in multiset(a);
    assert r in multiset(b);
  }

  /** Taking out one occurrence. */
  lemma {:induction false} FlatMapTakeOut(s: seq<Row>, k: nat, f: Row -> seq<Row>)
    requires k < |s|
    ensures multiset(FlatMap(s, f)) == multiset(f(s[k])) + multiset(FlatMap(s[..k] + s[k + 1..], f))
  {
    var rest := s[..k] + s[k + 1..];
    assert multiset(f(s[0]) + FlatMap(s[1..], f)) == multiset(f(s[0])) + multiset(FlatMap(s[1..], f));
    if k == 0 {
      assert rest == s[1..];
    } else {
      var rest1 := s[1..][..k - 1] + s[1..][k..];
      FlatMapTakeOut(s[1..], k - 1, f);
      assert rest[0] == s[0] && rest[1..] == rest1;
      assert FlatMap(rest, f) == f(s[0]) + FlatMap(rest1, f);
      assert multiset(f(s[0]) + FlatMap(rest1, f)) == multiset(f(s[0])) + multiset(FlatMap(rest1, f));
    }
  }

  lemma TakeOut(s: seq<Row>, k: nat)
    requires k < |s|
    ensures multiset(s) == multiset{s[k]} + multiset(s[..k] + s[k + 1..])
  {
    assert s == s[..k] + [s[k]] + s[k + 1..];
  }

  /** More source rows, each contributing more, contribute more in total. */
  lemma {:induction false} FlatMapMonotone(a: seq<Row>, b: seq<Row>, f: Row -> seq<Row>, g: Row -> seq<Row>)
    requires Within(a, b)
    requires WithinPointwise(f, g)
    ensures Within(FlatMap(a, f), FlatMap(b, g))
    decreases |a|
  {
    if a != [] {
      WithinMember(a, b, a[0]);
      var k :| 0 <= k < |b| && b[k] == a[0];
      var rest := b[..k] + b[k + 1..];
      TakeOut(b, k);
      assert a == [a[0]] + a[1..];
      assert multiset(a) == multiset{a[0]} + multiset(a[1..]);
      forall r ensures multiset(a[1..])[r] <= multiset(rest)[r] {
        assert multiset(a)[r] <= multiset(b)[r];
      }
      FlatMapMonotone(a[1..], rest, f, g);
      FlatMapTakeOut(b, k, g);
      assert Within(f(a[0]), g(a[0]));
    }
  }

  lemma {:induction false} DistinctCounts(s: seq<Row>)
    ensures forall r :: multiset(Distinct(s))[r] == if r in s then 1 else 0
  {
    if s != [] {
      DistinctCounts(s[1..]);
      var d := Distinct(s[1..]);
      assert multiset([s[0]] + d) == multiset{s[0]} + multiset(d);
      assert forall r :: r in s <==> r == s[0] || r in s[1..];
    }
  }

  lemma {:induction false} DistinctEmpty(s: seq<Row>)
    ensures Distinct(s) == [] <==> s == []
  {
    if s != [] {
      DistinctEmpty(s[1..]);
    }
  }

  lemma DistinctMonotone(a: seq<Row>, b: seq<Row>)
    requires forall r :: r in a ==> r in b
    ensures Within(Distinct(a), Distinct(b))
  {
    DistinctCounts(a);
    DistinctCounts(b);
  }

  lemma DistinctWithin(s: seq<Row>)
    ensures Within(Distinct(s), s)
  {
    DistinctCounts(s);
    forall r ensures multiset(Distinct(s))[r] <= multiset(s)[r] {
      assert r in s ==> r in multiset(s);
    }
  }

  /** UNION and UNION ALL both grow with their operands, and UNION is below UNION ALL. */
  lemma CombineMonotone(all: bool, all': bool, a: seq<Row>, a': seq<Row>, b: seq<Row>, b': seq<Row>)
    requires Within(a, a') && Within(b, b') && (all ==> all')
    ensures Within(Combine(all, a, b), Combine(all', a', b'))
  {
    WithinConcat(a, a', b, b');
    forall r | r in a + b ensures r in a' + b' {
      WithinMember(a + b, a' + b', r);
    }
    DistinctMonotone(a + b, a' + b');
    DistinctWithin(a' + b');
    if !all {
      DistinctWithin(a + b);
    }
  }

  predicate PartBelow(a: Part, b: Part) {
    (a.all ==> b.all) && Within(a.rows, b.rows)
  }

  /** A UNION chain grows with each of its elements. */
  lemma {:induction false} ChainMonotone(a: seq<Part>, b: seq<Part>)
    requires |a| == |b| && forall k :: 0 <= k < |a| ==> PartBelow(a[k], b[k])
    ensures Within(Chain(a), Chain(b))
  {
    if a != [] {
      var k := |a| - 1;
      ChainMonotone(a[..k], b[..k]);
      assert PartBelow(a[k], b[k]);
      CombineMonotone(a[k].all, b[k].all, Chain(a[..k]), Chain(b[..k]), a[k].rows, b[k].rows);
    }
  }

  // ---------------------------------------------------------------------------------------
  // Quantified predicates

  /** ANY is at least each comparison, and one of them; of no values it is False. */
  lemma AnyBounds(db: Db, op: Op, a: Value, vs: seq<Value>)
    ensures forall v :: v in vs ==> Implies3(Compare(db, op, a, v), Any3(db, op, a, vs))
    ensures vs == [] ==> Any3(db, op, a, vs) == False
    ensures vs != [] ==> exists v :: v in vs && Any3(db, op, a, vs) == Compare(db, op, a, v)
  {
    forall i | 0 <= i < |vs| ensures Implies3(Compare(db, op, a, vs[i]), Any3(db, op, a, vs)) {
      AnyAbove(db, op, a, vs, i);
    }
    if vs != [] {
      var k := AnyAttained(db, op, a, vs);
      assert vs[k] in vs;
    }
  }

  lemma {:induction false} AnyAbove(db: Db, op: Op, a: Value, vs: seq<Value>, i: nat)
    requires i < |vs|
    ensures Implies3(Compare(db, op, a, vs[i]), Any3(db, op, a, vs))
  {
    if i > 0 {
      AnyAbove(db, op, a, vs[1..], i - 1);
    }
  }

  lemma {:induction false} AnyAttained(db: Db, op: Op, a: Value, vs: seq<Value>) returns (k: nat)
    requires vs != []
    ensures k < |vs| && Any3(db, op, a, vs) == Compare(db, op, a, vs[k])
  {
    k := 0;
    if vs[1..] != [] {
      var j := AnyAttained(db, op, a, vs[1..]);
      if Any3(db, op, a, vs) != Compare(db, op, a, vs[0]) {
        k := j + 1;
      }
    }
  }

  /** ALL is at most each comparison, and one of them; of no values it is True. */
  lemma AllBounds(db: Db, op: Op, a: Value, vs: seq<Value>)
    ensures forall v :: v in vs ==> Implies3(All3(db, op, a, vs), Compare(db, op, a, v))
    ensures vs == [] ==> All3(db, op, a, vs) == True
    ensures vs != [] ==> exists v :: v in vs && All3(db, op, a, vs) == Compare(db, op, a, v)
  {
    forall i | 0 <= i < |vs| ensures Implies3(All3(db, op, a, vs), Compare(db, op, a, vs[i])) {
      AllBelow(db, op, a, vs, i);
    }
    if vs != [] {
      var k := AllAttained(db, op, a, vs);
      assert vs[k] in vs;
    }
  }

  lemma {:induction false} AllBelow(db: Db, op: Op, a: Value, vs: seq<Value>, i: nat)
    requires i < |vs|
    ensures Implies3(All3(db, op, a, vs), Compare(db, op, a, vs[i]))
  {
    if i > 0 {
      AllBelow(db, op, a, vs[1..], i - 1);
    }
  }

  lemma {:induction false} AllAttained(db: Db, op: Op, a: Value, vs: seq<Value>) returns (k: nat)
    requires vs != []
    ensures k < |vs| && All3(db, op, a, vs) == Compare(db, op, a, vs[k])
  {
    k := 0;
    if vs[1..] != [] {
      var j := AllAttained(db, op, a, vs[1..]);
      if All3(db, op, a, vs) != Compare(db, op, a, vs[0]) {
        k := j + 1;
      }
    }
  }

  /** ANY rises and ALL falls when the list compared with gets more values and the operator weaker. */
  lemma AnyMonotone(db: Db, op: Op, op': Op, a: Value, vs: seq<Value>, vs': seq<Value>)
    requires forall v :: v in vs ==> v in vs'
    requires forall v :: Implies3(Compare(db, op, a, v), Compare(db, op', a, v))
    ensures Implies3(Any3(db, op, a, vs), Any3(db, op', a, vs'))
  {
    AnyBounds(db, op, a, vs);
    AnyBounds(db, op', a, vs');
  }

  lemma AllMonotone(db: Db, op: Op, op': Op, a: Value, vs: seq<Value>, vs': seq<Value>)
    requires forall v :: v in vs' ==> v in vs
    requires forall v :: Implies3(Compare(db, op, a, v), Compare(db, op', a, v))
    ensures Implies3(All3(db, op, a, vs), All3(db, op', a, vs'))
  {
    AllBounds(db, op, a, vs);
    AllBounds(db, op', a, vs');
  }

  /**
   ALL against ANY, for every operator and with NULLs: ALL is below ANY exactly when the list
   is not empty.
   */
  lemma AllBelowAny(db: Db, op: Op, a: Value, vs: seq<Value>)
    ensures Implies3(All3(db, op, a, vs), Any3(db, op, a, vs)) <==> vs != []
  {
    AllBounds(db, op, a, vs);
    AnyBounds(db, op, a, vs);
    if vs != [] {
      var v := vs[0];
      assert v in vs;
    }
  }

  lemma FirstColumnWithin(a: seq<Row>, b: seq<Row>)
    requires Within(a, b)
    ensures forall v :: v in FirstColumn(a) ==> v in FirstColumn(b)
    ensures a != [] ==> b != []
  {
    forall i | 0 <= i < |a| ensures FirstColumn(a)[i] in FirstColumn(b) {
      WithinMember(a, b, a[i]);
      var k :| 0 <= k < |b| && b[k] == a[i];
      assert FirstColumn(b)[k] == FirstColumn(a)[i];
    }
    if a != [] {
      WithinMember(a, b, a[0]);
    }
  }
}
