/**
 The two random rewrites of LIKE patterns: RdMLikeU turns characters into '%', RdMLikeL turns
 '%' into '_'. Both edit single characters with no regard to escapes; this module shows for
 which patterns that is harmless.
 */
module LikePattern {
  import opened Sql

  // The outcomes of the rewrite's random generator, one per draw.
  type Coins = nat -> bool

  function Widen(p: string, coins: Coins, k: nat): string {
    if p == [] then []
    else if p[0] == '%' then ['%'] + Widen(p[1..], coins, k)
    else [if coins(k) then '%' else p[0]] + Widen(p[1..], coins, k + 1)
  }

  function Narrow(p: string, coins: Coins, k: nat): string {
    if p == [] then []
    else if p[0] != '%' then [p[0]] + Narrow(p[1..], coins, k)
    else [if coins(k) then '_' else '%'] + Narrow(p[1..], coins, k + 1)
  }

  lemma {:induction false} WidenSnoc(a: string, c: char, coins: Coins, k: nat)
    ensures Widen(a + [c], coins, k)
         == Widen(a, coins, k) + [if c != '%' && coins(k + Draws(a, true)) then '%' else c]
    ensures Draws(a + [c], true) == Draws(a, true) + if c != '%' then 1 else 0
  {
    if a == [] {
      assert a + [c] == [c] && [c][1..] == [];
    } else {
      assert (a + [c])[1..] == a[1..] + [c];
      WidenSnoc(a[1..], c, coins, if a[0] == '%' then k else k + 1);
    }
  }

  lemma {:induction false} NarrowSnoc(a: string, c: char, coins: Coins, k: nat)
    ensures Narrow(a + [c], coins, k)
         == Narrow(a, coins, k) + [if c == '%' && coins(k + Draws(a, false)) then '_' else c]
    ensures Draws(a + [c], false) == Draws(a, false) + if c == '%' then 1 else 0
  {
    if a == [] {
      assert a + [c] == [c] && [c][1..] == [];
    } else {
      assert (a + [c])[1..] == a[1..] + [c];
      NarrowSnoc(a[1..], c, coins, if a[0] == '%' then k + 1 else k);
    }
  }

  /** How many draws a rewrite makes on `p`. */
  function Draws(p: string, widening: bool): nat {
    if p == [] then 0 else (if (p[0] != '%') == widening then 1 else 0) + Draws(p[1..], widening)
  }

  lemma {:induction false} RewriteLength(p: string, coins: Coins, k: nat)
    ensures |Widen(p, coins, k)| == |Narrow(p, coins, k)| == |p|
  {
    if p != [] {
      RewriteLength(p[1..], coins, k);
      RewriteLength(p[1..], coins, k + 1);
    }
  }

  /** The loop of doRdMLikeU. A coin is tossed only for characters other than '%'. */
  method WidenInPlace(a: array<char>, coins: Coins)
    modifies a
    ensures a[..] == Widen(old(a[..]), coins, 0)
  {
    ghost var p := a[..];
    var d := 0;
    for i := 0 to a.Length
      invariant d == Draws(p[..i], true)
      invariant a[..i] == Widen(p[..i], coins, 0)
      invariant a[i..] == p[i..]
    {
      assert a[i] == a[i..][0] == p[i];
      assert p[..i + 1] == p[..i] + [p[i]];
      WidenSnoc(p[..i], p[i], coins, 0);
      ghost var rest := a[i + 1..];
      assert rest == a[i..][1..] == p[i + 1..];
      ghost var done := a[..i];
      if a[i] != '%' {
        if coins(d) {
          a[i] := '%';
        }
        d := d + 1;
      }
      assert a[..i] == done && a[..i + 1] == done + [a[i]];
    }
    assert p[..a.Length] == p && a[..a.Length] == a[..];
  }

  /** The loop of doRdMLikeL. */
  method NarrowInPlace(a: array<char>, coins: Coins)
    modifies a
    ensures a[..] == Narrow(old(a[..]), coins, 0)
  {
    ghost var p := a[..];
    var d := 0;
    for i := 0 to a.Length
      invariant d == Draws(p[..i], false)
      invariant a[..i] == Narrow(p[..i], coins, 0)
      invariant a[i..] == p[i..]
    {
      assert a[i] == a[i..][0] == p[i];
      assert p[..i + 1] == p[..i] + [p[i]];
      NarrowSnoc(p[..i], p[i], coins, 0);
      ghost var rest := a[i + 1..];
      assert rest == a[i..][1..] == p[i + 1..];
      ghost var done := a[..i];
      if a[i] == '%' {
        if coins(d) {
          a[i] := '_';
        }
        d := d + 1;
      }
      assert a[..i] == done && a[..i + 1] == done + [a[i]];
    }
    assert p[..a.Length] == p && a[..a.Length] == a[..];
  }

  // ---------------------------------------------------------------------------------------
  // When the rewrites keep their promise

  /** Every escape sequence in the pattern is an escaped '%'. */
  predicate OnlyPercentEscaped(p: string) {
    p == [] || (if p[0] == ESCAPE && |p| > 1 then p[1] == '%' && OnlyPercentEscaped(p[2..])
        else OnlyPercentEscaped(p[1..]))
  }

  /** No escape sequence in the pattern is an escaped '%'. */
  predicate NoPercentEscaped(p: string) {
    p == [] || (if p[0] == ESCAPE && |p| > 1 then p[1] != '%' && NoPercentEscaped(p[2..]) else NoPercentEscaped(p[1..]))
  }

  lemma MatchesPercent(same: (char, char) -> bool, s: string, p: string)
    requires Matches(same, s, p) || (s != [] && Matches(same, s[1..], ['%'] + p))
    ensures Matches(same, s, ['%'] + p)
  {
    assert (['%'] + p)[1..] == p;
  }

  lemma {:induction false} WidenMatches(same: (char, char) -> bool, s: string, p: string, coins: Coins, k: nat)
    requires OnlyPercentEscaped(p) && Matches(same, s, p)
    ensures Matches(same, s, Widen(p, coins, k))
    decreases |s| + |p|
  {
    if p == [] {
    } else if p[0] == '%' {
      var w := Widen(p[1..], coins, k);
      if Matches(same, s, p[1..]) {
        WidenMatches(same, s, p[1..], coins, k);
      } else {
        WidenMatches(same, s[1..], p, coins, k);
      }
      MatchesPercent(same, s, w);
    } else if p[0] == ESCAPE && |p| > 1 {
      var w := Widen(p[2..], coins, k + 1);
      WidenMatches(same, s[1..], p[2..], coins, k + 1);
      assert p[1..][1..] == p[2..];
      assert Widen(p[1..], coins, k + 1) == ['%'] + w;
      if coins(k) {
        MatchesPercent(same, s[1..], w);
        MatchesPercent(same, s[1..], ['%'] + w);
        MatchesPercent(same, s, ['%'] + w);
      } else {
        var q := [ESCAPE] + (['%'] + w);
        assert q[2..] == w && q[1] == '%';
      }
    } else {
      var w := Widen(p[1..], coins, k + 1);
      WidenMatches(same, s[1..], p[1..], coins, k + 1);
      if coins(k) {
        MatchesPercent(same, s[1..], w);
        MatchesPercent(same, s, w);
      } else {
        RewriteLength(p[1..], coins, k + 1);
        assert ([p[0]] + w)[1..] == w;
      }
    }
  }

  lemma {:induction false} NarrowMatches(same: (char, char) -> bool, s: string, p: string, coins: Coins, k: nat)
    requires NoPercentEscaped(p) && Matches(same, s, Narrow(p, coins, k))
    ensures Matches(same, s, p)
    decreases |s| + |p|
  {
    var q := Narrow(p, coins, k);
    if p == [] {
    } else if p[0] == '%' {
      assert q[1..] == Narrow(p[1..], coins, k + 1);
      if coins(k) {
        NarrowMatches(same, s[1..], p[1..], coins, k + 1);
        assert Matches(same, s[1..], p);
      } else if Matches(same, s, q[1..]) {
        NarrowMatches(same, s, p[1..], coins, k + 1);
      } else {
        NarrowMatches(same, s[1..], p, coins, k);
      }
    } else if p[0] == ESCAPE && |p| > 1 {
      assert p[1..][1..] == p[2..];
      assert Narrow(p[1..], coins, k) == [p[1]] + Narrow(p[2..], coins, k);
      assert q == [ESCAPE] + ([p[1]] + Narrow(p[2..], coins, k));
      assert q[2..] == Narrow(p[2..], coins, k);
      NarrowMatches(same, s[1..], p[2..], coins, k);
    } else {
      RewriteLength(p[1..], coins, k);
      assert q[1..] == Narrow(p[1..], coins, k);
      NarrowMatches(same, s[1..], p[1..], coins, k);
    }
  }

  // The other direction: a string that shows the harm, found by counting percent signs.

  function Exactly(a: char, b: char): bool {
    a == b
  }

  function Percents(s: string): nat {
    if s == [] then 0 else (if s[0] == '%' then 1 else 0) + Percents(s[1..])
  }

  /** How many percent signs a string must have to match `p`. */
  function Demand(p: string): nat {
    if p == [] then 0
    else if p[0] == ESCAPE && |p| > 1 then (if p[1] == '%' then 1 else 0) + Demand(p[2..])
    else Demand(p[1..])
  }

  /** A string matching `p` with no more percent signs than it must have. */
  function Canonical(p: string): string {
    if p == [] then []
    else if p[0] == '%' then Canonical(p[1..])
    else if p[0] == ESCAPE && |p| > 1 then [p[1]] + Canonical(p[2..])
    else [if p[0] == '_' then 'x' else p[0]] + Canonical(p[1..])
  }

  lemma {:induction false} CanonicalMatches(p: string)
    ensures Matches(Exactly, Canonical(p), p)
    ensures Percents(Canonical(p)) == Demand(p)
  {
    if p == [] {
    } else if p[0] == '%' {
      CanonicalMatches(p[1..]);
    } else if p[0] == ESCAPE && |p| > 1 {
      CanonicalMatches(p[2..]);
      assert Canonical(p)[1..] == Canonical(p[2..]);
    } else {
      CanonicalMatches(p[1..]);
      assert Canonical(p)[1..] == Canonical(p[1..]);
    }
  }

  lemma {:induction false} MatchDemand(s: string, p: string)
    requires Matches(Exactly, s, p)
    ensures Percents(s) >= Demand(p)
    decreases |s| + |p|
  {
    if p == [] {
    } else if p[0] == '%' {
      if Matches(Exactly, s, p[1..]) {
        MatchDemand(s, p[1..]);
      } else {
        MatchDemand(s[1..], p);
      }
    } else if p[0] == ESCAPE && |p| > 1 {
      MatchDemand(s[1..], p[2..]);
    } else {
      MatchDemand(s[1..], p[1..]);
    }
  }

  lemma {:induction false} NoMoreCoins(p: string, coins: Coins, k: nat)
    requires forall i :: i >= k ==> !coins(i)
    ensures Widen(p, coins, k) == p && Narrow(p, coins, k) == p
  {
    if p != [] {
      NoMoreCoins(p[1..], coins, k);
      NoMoreCoins(p[1..], coins, k + 1);
    }
  }

  function Once(j: nat): Coins {
    i => i == j
  }

  lemma {:induction false} WidenHarm(p: string, k: nat) returns (j: nat)
    requires !OnlyPercentEscaped(p)
    ensures j >= k && Demand(Widen(p, Once(j), k)) == Demand(p) + 1
  {
    if p[0] == '%' {
      j := WidenHarm(p[1..], k);
      assert (['%'] + Widen(p[1..], Once(j), k))[1..] == Widen(p[1..], Once(j), k);
    } else if p[0] == ESCAPE && |p| > 1 {
      assert p[1..][1..] == p[2..];
      if p[1] == '%' {
        j := WidenHarm(p[2..], k + 1);
        var w := Widen(p[2..], Once(j), k + 1);
        assert Widen(p, Once(j), k) == [ESCAPE] + (['%'] + w);
        assert ([ESCAPE] + (['%'] + w))[2..] == w;
      } else {
        j := k + 1;
        NoMoreCoins(p[2..], Once(j), k + 2);
        assert Widen(p[1..], Once(j), k + 1) == ['%'] + p[2..];
        assert ([ESCAPE] + (['%'] + p[2..]))[2..] == p[2..];
      }
    } else {
      j := WidenHarm(p[1..], k + 1);
      RewriteLength(p[1..], Once(j), k + 1);
      var w := Widen(p[1..], Once(j), k + 1);
      assert ([p[0]] + w)[1..] == w;
    }
  }

  lemma {:induction false} NarrowHarm(p: string, k: nat) returns (j: nat)
    requires !NoPercentEscaped(p)
    ensures j >= k && Demand(Narrow(p, Once(j), k)) + 1 == Demand(p)
  {
    if p[0] == ESCAPE && |p| > 1 {
      assert p[1..][1..] == p[2..];
      if p[1] != '%' {
        j := NarrowHarm(p[2..], k);
        var w := Narrow(p[2..], Once(j), k);
        assert Narrow(p, Once(j), k) == [ESCAPE] + ([p[1]] + w);
        assert ([ESCAPE] + ([p[1]] + w))[2..] == w;
      } else {
        j := k;
        NoMoreCoins(p[2..], Once(j), k + 1);
        assert Narrow(p[1..], Once(j), k) == ['_'] + p[2..];
        assert ([ESCAPE] + (['_'] + p[2..]))[2..] == p[2..];
      }
    } else {
      j := NarrowHarm(p[1..], if p[0] == '%' then k + 1 else k);
      RewriteLength(p[1..], Once(j), if p[0] == '%' then k + 1 else k);
      var w := Narrow(p[1..], Once(j), if p[0] == '%' then k + 1 else k);
      assert Narrow(p, Once(j), k) == [p[0]] + w;
      assert ([p[0]] + w)[1..] == w;
    }
  }

  ghost predicate WideningHolds(p: string) {
    forall same, s, coins: Coins :: Matches(same, s, p) ==> Matches(same, s, Widen(p, coins, 0))
  }

  ghost predicate NarrowingHolds(p: string) {
    forall same, s, coins: Coins :: Matches(same, s, Narrow(p, coins, 0)) ==> Matches(same, s, p)
  }

  /** RdMLikeU matches more, whatever the string and the draws, exactly for these patterns. */
  lemma WideningExact(p: string)
    ensures WideningHolds(p) <==> OnlyPercentEscaped(p)
  {
    if OnlyPercentEscaped(p) {
      forall same, s, coins: Coins | Matches(same, s, p) ensures Matches(same, s, Widen(p, coins, 0)) {
        WidenMatches(same, s, p, coins, 0);
      }
    } else {
      var j := WidenHarm(p, 0);
      CanonicalMatches(p);
      if Matches(Exactly, Canonical(p), Widen(p, Once(j), 0)) {
        MatchDemand(Canonical(p), Widen(p, Once(j), 0));
      }
    }
  }

  /** RdMLikeL matches less, whatever the string and the draws, exactly for these patterns. */
  lemma NarrowingExact(p: string)
    ensures NarrowingHolds(p) <==> NoPercentEscaped(p)
  {
    if NoPercentEscaped(p) {
      forall same, s, coins: Coins | Matches(same, s, Narrow(p, coins, 0)) ensures Matches(same, s, p) {
        NarrowMatches(same, s, p, coins, 0);
      }
    } else {
      var j := NarrowHarm(p, 0);
      var q := Narrow(p, Once(j), 0);
      CanonicalMatches(q);
      if Matches(Exactly, Canonical(q), p) {
        MatchDemand(Canonical(q), p);
      }
    }
  }
}
