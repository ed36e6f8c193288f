/**
 What is remembered of each mutation's past, and the order in which units are looked at.
 */
module Stats {
  import opened Sql

  datatype Stat = Stat(totalRuns: nat, bugsFound: nat, execErrors: nat)

  predicate ValidStat(s: Stat) {
    1 <= s.totalRuns && s.bugsFound <= s.totalRuns && s.execErrors <= s.totalRuns
  }

  predicate ValidStats(stats: map<string, Stat>) {
    forall name :: name in stats ==> ValidStat(stats[name])
  }

  function StatOf(stats: map<string, Stat>, name: string): Stat {
    if name in stats then stats[name] else Stat(0, 0, 0)
  }

  /** The statistics after one more run of `name`. */
  function Recorded(stats: map<string, Stat>, name: string, foundBug: bool, execError: bool): (r: map<string, Stat>)
    ensures ValidStats(stats) ==> ValidStats(r)
    ensures StatOf(r, name).totalRuns == StatOf(stats, name).totalRuns + 1
    ensures forall k :: k != name ==> StatOf(r, k) == StatOf(stats, k)
  {
    var s := StatOf(stats, name);
    stats[name := Stat(s.totalRuns + 1, s.bugsFound + (if foundBug then 1 else 0),
                       s.execErrors + (if execError then 1 else 0))]
  }

  // ---------------------------------------------------------------------------------------
  // What the statistics say of a log of runs

  datatype Record = Record(name: string, foundBug: bool, execError: bool)

  /** The statistics after a log of runs, from the empty map. */
  function AfterLog(log: seq<Record>): map<string, Stat> {
    if log == [] then map[]
    else
      var k := |log| - 1;
      Recorded(AfterLog(log[..k]), log[k].name, log[k].foundBug, log[k].execError)
  }

  /** At how many places of `s` something of this kind is. */
  function CountOf<T>(s: seq<T>, kind: T -> bool): nat {
    |set i | 0 <= i < |s| && kind(s[i])|
  }

  lemma CountLast<T>(s: seq<T>, x: T, kind: T -> bool)
    ensures CountOf(s + [x], kind) == CountOf(s, kind) + if kind(x) then 1 else 0
  {
    var before, after := set i | 0 <= i < |s| && kind(s[i]), set i | 0 <= i < |s| + 1 && kind((s + [x])[i]);
    assert after == if kind(x) then before + {|s|} else before;
  }

  lemma CountNone<T>(s: seq<T>, kind: T -> bool)
    requires s == []
    ensures CountOf(s, kind) == 0
  {
    assert (set i | 0 <= i < |s| && kind(s[i])) == {};
  }

  /**
   After any log of runs the statistics have, for every name, the number of its runs, of those that
   found a bug and of those that failed; a name is there exactly if it was run.
   */
  lemma {:induction false} LogCounts(log: seq<Record>, name: string)
    ensures StatOf(AfterLog(log), name)
         == Stat(CountOf(log, (r: Record) => r.name == name), CountOf(log, (r: Record) => r.name == name && r.foundBug),
                 CountOf(log, (r: Record) => r.name == name && r.execError))
    ensures name in AfterLog(log) <==> exists i :: 0 <= i < |log| && log[i].name == name
    decreases |log|
  {
    var runs, bugs := (r: Record) => r.name == name, (r: Record) => r.name == name && r.foundBug;
    var errors := (r: Record) => r.name == name && r.execError;
    if log == [] {
      CountNone(log, runs);
      CountNone(log, bugs);
      CountNone(log, errors);
    } else {
      var k := |log| - 1;
      LogCounts(log[..k], name);
      assert log == log[..k] + [log[k]];
      CountLast(log[..k], log[k], runs);
      CountLast(log[..k], log[k], bugs);
      CountLast(log[..k], log[k], errors);
    }
  }

  // ---------------------------------------------------------------------------------------
  // The order of units

  // Of a unit only these matter here; `id` tells apart units that are otherwise the same.
  datatype Unit = Unit(id: nat, name: string, failed: bool)

  /** Is `s`'s rate of bugs higher? The quotients are compared by cross-multiplying. */
  predicate HigherRate(s: Stat, t: Stat) {
    s.bugsFound * AtLeastOne(t.totalRuns) > t.bugsFound * AtLeastOne(s.totalRuns)
  }

  function AtLeastOne(n: nat): nat {
    if n > 1 then n else 1
  }

  /** Does `u` come before `v`? */
  predicate Before(stats: map<string, Stat>, u: Unit, v: Unit) {
    if u.failed && !v.failed then false
    else if !u.failed && v.failed then true
    else if u.name !in stats && v.name in stats then true
    else if u.name !in stats || v.name !in stats then false
    else
      var s, t := stats[u.name], stats[v.name];
      if HigherRate(s, t) || HigherRate(t, s) then HigherRate(s, t) else s.execErrors < t.execErrors
  }

  lemma CrossTransitive(a: nat, b: nat, c: nat, x: nat, y: nat, z: nat)
    requires x > 0 && y > 0 && z > 0
    ensures a * y >= b * x && b * z >= c * y ==> a * z >= c * x
    ensures a * y > b * x && b * z >= c * y ==> a * z > c * x
    ensures a * y >= b * x && b * z > c * y ==> a * z > c * x
  {
    if a * y >= b * x && b * z >= c * y {
      Scaled(a * y, b * x, z);
      Scaled(b * z, c * y, x);
      assert (a * y) * z == (a * z) * y && (b * x) * z == (b * z) * x && (c * y) * x == (c * x) * y;
      Scaled(a * z, c * x, y);
    }
  }

  lemma Scaled(m: nat, n: nat, k: nat)
    requires k > 0
    ensures m >= n <==> m * k >= n * k
    ensures m > n <==> m * k > n * k
  {
    if m >= n {
      assert (m - n) * k == m * k - n * k;
    } else {
      assert (n - m) * k == n * k - m * k;
    }
  }

  lemma RateTransitive(s: Stat, t: Stat, u: Stat)
    ensures HigherRate(s, t) && !HigherRate(u, t) ==> HigherRate(s, u)
    ensures !HigherRate(t, s) && HigherRate(t, u) ==> HigherRate(s, u)
    ensures !HigherRate(t, s) && !HigherRate(u, t) ==> !HigherRate(u, s)
  {
    CrossTransitive(s.bugsFound, t.bugsFound, u.bugsFound,
                    AtLeastOne(s.totalRuns), AtLeastOne(t.totalRuns), AtLeastOne(u.totalRuns));
  }

  /** `v` does not come before `u`. */
  predicate NotAfter(stats: map<string, Stat>, u: Unit, v: Unit) {
    !Before(stats, v, u)
  }

  /** The comparison is a strict weak order: not coming after is total and transitive. */
  lemma StrictWeakOrder(stats: map<string, Stat>, u: Unit, v: Unit, w: Unit)
    ensures !Before(stats, u, u)
    ensures Before(stats, u, v) ==> !Before(stats, v, u)
    ensures Before(stats, u, v) && Before(stats, v, w) ==> Before(stats, u, w)
    ensures NotAfter(stats, u, v) && NotAfter(stats, v, w) ==> NotAfter(stats, u, w)
  {
    if u.name in stats && v.name in stats && w.name in stats {
      RateTransitive(stats[u.name], stats[v.name], stats[w.name]);
      RateTransitive(stats[w.name], stats[v.name], stats[u.name]);
    }
  }

  predicate Ordered(stats: map<string, Stat>, us: seq<Unit>) {
    forall i, j :: 0 <= i < j < |us| ==> NotAfter(stats, us[i], us[j])
  }

  function Filter(us: seq<Unit>, keep: Unit -> bool): seq<Unit> {
    if us == [] then [] else (if keep(us[0]) then [us[0]] else []) + Filter(us[1..], keep)
  }

  /** The units that tie with `u`, in order. */
  function Ties(stats: map<string, Stat>, us: seq<Unit>, u: Unit): seq<Unit> {
    Filter(us, v => Tied(stats, v, u))
  }

  predicate Tied(stats: map<string, Stat>, u: Unit, v: Unit) {
    !Before(stats, u, v) && !Before(stats, v, u)
  }

  /** `out` is `us` sorted stably: the same units, in order, ties as they were. */
  ghost predicate StablySorted(stats: map<string, Stat>, us: seq<Unit>, out: seq<Unit>) {
    && multiset(out) == multiset(us) && Ordered(stats, out)
    && forall u :: Ties(stats, out, u) == Ties(stats, us, u)
  }

  /** What the order means: failed units last, then unseen mutations first, then rates descending. */
  lemma OrderMeaning(stats: map<string, Stat>, us: seq<Unit>, i: nat, j: nat)
    requires Ordered(stats, us) && i < j < |us|
    ensures us[i].failed ==> us[j].failed
    ensures us[i].failed == us[j].failed && us[i].name in stats ==> us[j].name in stats
    ensures us[i].failed == us[j].failed && us[i].name in stats && us[j].name in stats ==>
              var s, t := stats[us[i].name], stats[us[j].name];
              !HigherRate(t, s) && (!HigherRate(s, t) ==> s.execErrors <= t.execErrors)
  {
    assert NotAfter(stats, us[i], us[j]);
  }

  lemma {:induction false} FilterConcat(a: seq<Unit>, b: seq<Unit>, keep: Unit -> bool)
    ensures Filter(a + b, keep) == Filter(a, keep) + Filter(b, keep)
  {
    if a == [] {
      assert a + b == b;
    } else {
      var c := a + b;
      assert c[0] == a[0] && c[1..] == a[1..] + b;
      FilterConcat(a[1..], b, keep);
      var first := if keep(a[0]) then [a[0]] else [];
      assert Filter(c, keep) == first + (Filter(a[1..], keep) + Filter(b, keep));
    }
  }

  lemma {:induction false} FilterNone(us: seq<Unit>, keep: Unit -> bool)
    requires forall i :: 0 <= i < |us| ==> !keep(us[i])
    ensures Filter(us, keep) == []
  {
    if us != [] {
      FilterNone(us[1..], keep);
    }
  }

  /** Where `x` goes in an ordered sequence: behind everything that does not come after it. */
  lemma InsertOrdered(stats: map<string, Stat>, us: seq<Unit>, k: nat, x: Unit)
    requires Ordered(stats, us) && k <= |us|
    requires k > 0 ==> NotAfter(stats, us[k - 1], x)
    requires forall i :: k <= i < |us| ==> Before(stats, x, us[i])
    ensures Ordered(stats, us[..k] + [x] + us[k..])
  {
    var out := us[..k] + [x] + us[k..];
    forall i, j | 0 <= i < j < |out| ensures NotAfter(stats, out[i], out[j]) {
      if j == k && i < k - 1 {
        StrictWeakOrder(stats, us[i], us[k - 1], x);
      } else if i == k {
        StrictWeakOrder(stats, x, us[j - 1], x);
      }
    }
  }

  lemma InsertTies(stats: map<string, Stat>, us: seq<Unit>, k: nat, x: Unit, u: Unit)
    requires k <= |us| && forall i :: k <= i < |us| ==> Before(stats, x, us[i])
    ensures Ties(stats, us[..k] + [x] + us[k..], u) == Ties(stats, us + [x], u)
  {
    var keep := (v: Unit) => Tied(stats, v, u);
    FilterConcat(us[..k] + [x], us[k..], keep);
    FilterConcat(us[..k], [x], keep);
    FilterConcat(us, [x], keep);
    assert us == us[..k] + us[k..];
    FilterConcat(us[..k], us[k..], keep);
    if keep(x) {
      forall i | 0 <= i < |us[k..]| ensures !keep(us[k..][i]) {
        StrictWeakOrder(stats, us[k + i], u, x);
      }
      FilterNone(us[k..], keep);
    } else {
      assert Filter([x], keep) == [];
    }
  }

  /** Two stable sorts of the same units are the same: the order in which bugs get their ids is fixed. */
  lemma {:induction false} StableUnique(stats: map<string, Stat>, us: seq<Unit>, a: seq<Unit>, b: seq<Unit>)
    requires StablySorted(stats, us, a) && StablySorted(stats, us, b)
    ensures a == b
  {
    SameTies(stats, a, b);
  }

  lemma {:induction false} SameTies(stats: map<string, Stat>, a: seq<Unit>, b: seq<Unit>)
    requires Ordered(stats, a) && Ordered(stats, b) && multiset(a) == multiset(b)
    requires forall u :: Ties(stats, a, u) == Ties(stats, b, u)
    ensures a == b
    decreases |a|
  {
    if a == [] {
      assert |multiset(a)| == |a| && |multiset(b)| == |b|;
    } else {
      SameFirst(stats, a, b);
      forall u ensures Ties(stats, a[1..], u) == Ties(stats, b[1..], u) {
        TiesTail(stats, a, b, u);
      }
      TailOf(stats, a);
      TailOf(stats, b);
      SameTies(stats, a[1..], b[1..]);
    }
  }

  lemma TailOf(stats: map<string, Stat>, a: seq<Unit>)
    requires Ordered(stats, a) && a != []
    ensures Ordered(stats, a[1..]) && multiset(a[1..]) == multiset(a) - multiset{a[0]}
  {
    assert a == [a[0]] + a[1..];
    forall i, j | 0 <= i < j < |a[1..]| ensures NotAfter(stats, a[1..][i], a[1..][j]) {
      assert NotAfter(stats, a[i + 1], a[j + 1]);
    }
  }

  lemma TiesTail(stats: map<string, Stat>, a: seq<Unit>, b: seq<Unit>, u: Unit)
    requires a != [] && b != [] && a[0] == b[0] && Ties(stats, a, u) == Ties(stats, b, u)
    ensures Ties(stats, a[1..], u) == Ties(stats, b[1..], u)
  {
    SameTail(if Tied(stats, a[0], u) then [a[0]] else [], Ties(stats, a[1..], u), Ties(stats, b[1..], u));
  }

  lemma SameTail<T>(x: seq<T>, p: seq<T>, q: seq<T>)
    requires x + p == x + q
    ensures p == q
  {
    assert p == (x + p)[|x|..] && q == (x + q)[|x|..];
  }

  lemma SameFirst(stats: map<string, Stat>, a: seq<Unit>, b: seq<Unit>)
    requires Ordered(stats, a) && Ordered(stats, b) && multiset(a) == multiset(b) && a != []
    requires forall u :: Ties(stats, a, u) == Ties(stats, b, u)
    ensures b != [] && a[0] == b[0]
  {
    FirstTied(stats, a, b);
    assert Ties(stats, a, a[0])[0] == a[0] && Ties(stats, b, a[0])[0] == b[0];
  }

  lemma FirstTied(stats: map<string, Stat>, a: seq<Unit>, b: seq<Unit>)
    requires Ordered(stats, a) && Ordered(stats, b) && multiset(a) == multiset(b) && a != []
    ensures b != [] && Tied(stats, a[0], b[0]) && Tied(stats, a[0], a[0])
  {
    assert a[0] in multiset(a) && a[0] in multiset(b);
    assert b[0] in multiset(b) && b[0] in multiset(a);
    var i :| 0 <= i < |b| && b[i] == a[0];
    var j :| 0 <= j < |a| && a[j] == b[0];
    assert i > 0 ==> NotAfter(stats, b[0], b[i]);
    assert j > 0 ==> NotAfter(stats, a[0], a[j]);
    StrictWeakOrder(stats, a[0], a[0], a[0]);
  }

  // ---------------------------------------------------------------------------------------

  class MutationStats {
    var stats: map<string, Stat>

    constructor ()
      ensures stats == map[]
    {
      stats := map[];
    }

    ghost predicate Valid() reads this {
      ValidStats(stats)
    }

    /** One more run of `name`; everything else stays. */
    method RecordResult(name: string, foundBug: bool, execError: bool)
      modifies this
      ensures old(Valid()) ==> Valid()
      ensures stats == Recorded(old(stats), name, foundBug, execError)
    {
      var s := if name in stats then stats[name] else Stat(0, 0, 0);
      s := s.(totalRuns := s.totalRuns + 1);
      if foundBug {
        s := s.(bugsFound := s.bugsFound + 1);
      }
      if execError {
        s := s.(execErrors := s.execErrors + 1);
      }
      stats := stats[name := s];
    }

    /** A stable sort; by StableUnique any other would give the same. */
    method PrioritizeUnits(units: seq<Unit>) returns (out: seq<Unit>)
      ensures StablySorted(stats, units, out)
    {
      out := [];
      for n := 0 to |units|
        invariant StablySorted(stats, units[..n], out)
      {
        var x, k := units[n], |out|;
        while k > 0 && Before(stats, x, out[k - 1])
          invariant 0 <= k <= |out| && forall i :: k <= i < |out| ==> Before(stats, x, out[i])
        {
          k := k - 1;
        }
        SortedStep(stats, units, n, out, k);
        out := out[..k] + [x] + out[k..];
      }
      assert units[..|units|] == units;
    }
  }

  lemma SortedStep(stats: map<string, Stat>, units: seq<Unit>, n: nat, out: seq<Unit>, k: nat)
    requires n < |units| && StablySorted(stats, units[..n], out) && k <= |out|
    requires k > 0 ==> !Before(stats, units[n], out[k - 1])
    requires forall i :: k <= i < |out| ==> Before(stats, units[n], out[i])
    ensures StablySorted(stats, units[..n + 1], out[..k] + [units[n]] + out[k..])
  {
    var x := units[n];
    InsertOrdered(stats, out, k, x);
    assert units[..n + 1] == units[..n] + [x];
    InsertCounts(out, k, x);
    forall u ensures Ties(stats, out[..k] + [x] + out[k..], u) == Ties(stats, units[..n + 1], u) {
      TiesStep(stats, units[..n], out, k, x, u);
    }
  }

  lemma InsertCounts(out: seq<Unit>, k: nat, x: Unit)
    requires k <= |out|
    ensures multiset(out[..k] + [x] + out[k..]) == multiset(out) + multiset{x}
  {
    assert out == out[..k] + out[k..];
  }

  lemma TiesStep(stats: map<string, Stat>, us: seq<Unit>, out: seq<Unit>, k: nat, x: Unit, u: Unit)
    requires k <= |out| && forall i :: k <= i < |out| ==> Before(stats, x, out[i])
    requires Ties(stats, out, u) == Ties(stats, us, u)
    ensures Ties(stats, out[..k] + [x] + out[k..], u) == Ties(stats, us + [x], u)
  {
    InsertTies(stats, out, k, x, u);
    FilterConcat(out, [x], v => Tied(stats, v, u));
    FilterConcat(us, [x], v => Tied(stats, v, u));
  }
}
