/**
 Splitting a text into its SQL statements at the semicolons that are not inside quotes.
 */
module Splitter {

  // Inside which kind of quote, if any.
  datatype Mode = Outside | Inside(quote: char)

  // The first semicolon outside quotes ends after `k` characters; or there is none, and the text
  // ends in some mode, or right after a backslash.
  datatype Scanned = Cut(k: nat) | Ends(mode: Mode) | Dangling

  predicate IsQuote(c: char) {
    c == '\'' || c == '"' || c == '`'
  }

  function Next(m: Mode, c: char): Mode {
    if !IsQuote(c) then m else if m.Outside? then Inside(c) else if m.quote == c then Outside else m
  }

  function Shift(d: nat, r: Scanned): Scanned {
    if r.Cut? then Cut(r.k + d) else r
  }

  function Scan(s: string, m: Mode): (r: Scanned)
    ensures r.Cut? ==> 0 < r.k <= |s| && s[r.k - 1] == ';'
    ensures r.Dangling? ==> s != []
  {
    if s == [] then Ends(m)
    else if s[0] == '\\' && m.Inside? then (if |s| == 1 then Dangling else Shift(2, Scan(s[2..], m)))
    else if s[0] == ';' && m.Outside? then Cut(1)
    else Shift(1, Scan(s[1..], Next(m, s[0])))
  }

  function Pieces(s: string): seq<string>
    decreases |s|
  {
    var r := Scan(s, Outside);
    if r.Cut? then [s[..r.k]] + Pieces(s[r.k..]) else []
  }

  /** What is behind the last piece. */
  function Tail(s: string): string
    decreases |s|
  {
    var r := Scan(s, Outside);
    if r.Cut? then Tail(s[r.k..]) else s
  }

  function Concat(ps: seq<string>): string {
    if ps == [] then [] else ps[0] + Concat(ps[1..])
  }

  // ---------------------------------------------------------------------------------------
  // The loop

  datatype EachSql = EachSql(id: nat, sql: string)

  /** The current piece, begun at `start` and scanned up to `i`, and those after it. */
  function Rest(s: string, start: nat, i: nat, r: Scanned): seq<string>
    requires start <= i && (r.Cut? ==> i + r.k <= |s|)
  {
    if r.Cut? then [s[start..i + r.k]] + Pieces(s[i + r.k..]) else []
  }

  /** The pieces still to come. */
  function ToCome(s: string, start: nat, i: nat, m: Mode): seq<string>
    requires start <= i
  {
    if i > |s| then [] else Rest(s, start, i, Scan(s[i..], m))
  }

  lemma ScanStep(s: string, i: nat, m: Mode)
    requires i < |s|
    ensures !(s[i] == '\\' && m.Inside?) && !(s[i] == ';' && m.Outside?) ==>
              Scan(s[i..], m) == Shift(1, Scan(s[i + 1..], Next(m, s[i])))
    ensures s[i] == '\\' && m.Inside? ==>
              Scan(s[i..], m) == if i + 1 == |s| then Dangling else Shift(2, Scan(s[i + 2..], m))
  {
    assert s[i..][0] == s[i] && s[i..][1..] == s[i + 1..];
    if i + 1 < |s| {
      assert s[i..][2..] == s[i + 2..];
    }
  }

  lemma RestShift(s: string, start: nat, i: nat, d: nat, r: Scanned)
    requires start <= i && (r.Cut? ==> i + d + r.k <= |s|)
    ensures Rest(s, start, i, Shift(d, r)) == Rest(s, start, i + d, r)
  {
    if r.Cut? {
      assert i + (r.k + d) == i + d + r.k;
    }
  }

  lemma ToComePlain(s: string, start: nat, i: nat, m: Mode)
    requires start <= i < |s| && !(s[i] == '\\' && m.Inside?) && !(s[i] == ';' && m.Outside?)
    ensures ToCome(s, start, i, m) == ToCome(s, start, i + 1, Next(m, s[i]))
  {
    ScanStep(s, i, m);
    RestShift(s, start, i, 1, Scan(s[i + 1..], Next(m, s[i])));
  }

  lemma ToComeEscape(s: string, start: nat, i: nat, m: Mode)
    requires start <= i < |s| && s[i] == '\\' && m.Inside?
    ensures ToCome(s, start, i, m) == ToCome(s, start, i + 2, m)
  {
    ScanStep(s, i, m);
    if i + 2 <= |s| {
      RestShift(s, start, i, 2, Scan(s[i + 2..], m));
    }
  }

  lemma ToComeCut(s: string, start: nat, i: nat)
    requires start <= i < |s| && s[i] == ';'
    ensures ToCome(s, start, i, Outside) == [s[start..i + 1]] + ToCome(s, i + 1, i + 1, Outside)
  {
    assert Scan(s[i..], Outside) == Cut(1);
    ToComeStart(s, i + 1);
  }

  lemma ToComeStart(s: string, i: nat)
    requires i <= |s|
    ensures ToCome(s, i, i, Outside) == Pieces(s[i..])
  {
    var t := s[i..];
    var r := Scan(t, Outside);
    if r.Cut? {
      FirstPiece(t, r.k);
      Slices(s, i, r.k);
    }
  }

  lemma Slices(s: string, i: nat, k: nat)
    requires i + k <= |s|
    ensures s[i..][..k] == s[i..i + k] && s[i..][k..] == s[i + k..]
  {
  }

  lemma NextPiece(all: seq<string>, n: nat, p: string, rest: seq<string>)
    requires n <= |all| && all[n..] == [p] + rest
    ensures n < |all| && all[n] == p && all[n + 1..] == rest
  {
    assert all[n..][1..] == all[n + 1..];
  }

  /** The pieces in `res` are the first ones, with their numbers, and `rest` are the others. */
  predicate SoFar(all: seq<string>, res: seq<EachSql>, rest: seq<string>) {
    |res| <= |all| && all[|res|..] == rest && forall j :: 0 <= j < |res| ==> res[j] == EachSql(j, all[j])
  }

  lemma OneMore(all: seq<string>, res: seq<EachSql>, p: string, rest: seq<string>)
    requires SoFar(all, res, [p] + rest)
    ensures SoFar(all, res + [EachSql(|res|, p)], rest)
  {
    NextPiece(all, |res|, p, rest);
  }

  method ExtractSQL(s: string) returns (res: seq<EachSql>)
    ensures |res| == |Pieces(s)| && forall j :: 0 <= j < |res| ==> res[j] == EachSql(j, Pieces(s)[j])
  {
    res := [];
    var start, flag, i := 0, Outside, 0;
    ToComeStart(s, 0);
    assert s[0..] == s;
    while i < |s|
      invariant start <= i <= |s| + 1 && start <= |s|
      invariant SoFar(Pieces(s), res, ToCome(s, start, i, flag))
    {
      if IsQuote(s[i]) {
        ToComePlain(s, start, i, flag);
        if flag == Outside {
          flag := Inside(s[i]);
        } else if flag == Inside(s[i]) {
          flag := Outside;
        }
      } else if s[i] == '\\' && flag != Outside {
        ToComeEscape(s, start, i, flag);
        i := i + 1;
      } else if s[i] == ';' && flag == Outside {
        ToComeCut(s, start, i);
        OneMore(Pieces(s), res, s[start..i + 1], ToCome(s, i + 1, i + 1, Outside));
        res := res + [EachSql(|res|, s[start..i + 1])];
        start := i + 1;
      } else {
        ToComePlain(s, start, i, flag);
      }
      i := i + 1;
    }
    assert ToCome(s, start, i, flag) == [];
  }

  // ---------------------------------------------------------------------------------------
  // What the pieces are

  /** Nothing is lost: the pieces and the tail make up the text. */
  lemma {:induction false} Lossless(s: string)
    ensures Concat(Pieces(s)) + Tail(s) == s
    decreases |s|
  {
    var r := Scan(s, Outside);
    if r.Cut? {
      var p, rest := s[..r.k], s[r.k..];
      Lossless(rest);
      ConcatFirst(p, Pieces(rest), Tail(rest));
      Halves(s, r.k);
    } else {
      assert Concat([]) + s == s;
    }
  }

  lemma Halves(s: string, k: nat)
    requires k <= |s|
    ensures s[..k] + s[k..] == s
  {
  }

  /** The tail has no further piece in it. */
  lemma {:induction false} TailHasNone(s: string)
    ensures Pieces(Tail(s)) == [] && !Scan(Tail(s), Outside).Cut?
    decreases |s|
  {
    var r := Scan(s, Outside);
    if r.Cut? {
      TailHasNone(s[r.k..]);
    }
  }

  lemma ConcatFirst(p: string, ps: seq<string>, t: string)
    ensures Concat([p] + ps) + t == p + (Concat(ps) + t)
  {
    assert ([p] + ps)[1..] == ps;
  }

  lemma {:induction false} ScanConcat(a: string, b: string, m: Mode)
    ensures Scan(a, m).Cut? ==> Scan(a + b, m) == Scan(a, m)
    ensures Scan(a, m).Ends? ==> Scan(a + b, m) == Shift(|a|, Scan(b, Scan(a, m).mode))
    ensures Scan(a, m).Dangling? && |b| == 1 ==> Scan(a + b, m).Ends?
    decreases |a|
  {
    if a == [] {
      assert a + b == b;
    } else if a[0] == '\\' && m.Inside? {
      if |a| == 1 {
        assert |b| == 1 ==> (a + b)[2..] == [];
      } else {
        ScanConcat(a[2..], b, m);
        assert (a + b)[2..] == a[2..] + b;
      }
    } else if !(a[0] == ';' && m.Outside?) {
      ScanConcat(a[1..], b, Next(m, a[0]));
      assert (a + b)[1..] == a[1..] + b;
    }
  }

  /** The first piece of a text is the first piece of every text it begins. */
  lemma {:induction false} ScanPrefix(s: string, m: Mode)
    requires Scan(s, m).Cut?
    ensures Scan(s[..Scan(s, m).k], m) == Scan(s, m)
    decreases |s|
  {
    var k := Scan(s, m).k;
    if s[0] == '\\' && m.Inside? {
      ScanPrefix(s[2..], m);
      assert s[..k][2..] == s[2..][..k - 2];
    } else if !(s[0] == ';' && m.Outside?) {
      ScanPrefix(s[1..], Next(m, s[0]));
      assert s[..k][1..] == s[1..][..k - 1];
    }
  }

  /** Splitting a piece again gives just that piece. */
  lemma {:induction false} SplitAgain(s: string, j: nat)
    requires j < |Pieces(s)|
    ensures Pieces(Pieces(s)[j]) == [Pieces(s)[j]] && Tail(Pieces(s)[j]) == []
    decreases |s|
  {
    var k := Scan(s, Outside).k;
    if j == 0 {
      var p := s[..k];
      ScanPrefix(s, Outside);
      assert p[..k] == p && p[k..] == [] && Pieces([]) == [];
    } else {
      SplitAgain(s[k..], j - 1);
    }
  }

  /** Quotes closed, and no semicolon outside them. */
  predicate Closed(q: string) {
    Scan(q, Outside) == Ends(Outside)
  }

  // What closed texts look like: characters outside quotes, and quoted strings.

  // Inside quotes: a character, or any character behind a backslash.
  datatype Quotation = Char(c: char) | Escaped(c: char)

  datatype Token = Plain(c: char) | Quoting(quote: char, inside: seq<Quotation>)

  predicate ProperInside(quote: char, inside: seq<Quotation>) {
    forall i :: 0 <= i < |inside| ==> inside[i].Escaped? || (inside[i].c != quote && inside[i].c != '\\')
  }

  predicate Proper(t: Token) {
    match t
    case Plain(c) => c != '\'' && c != '"' && c != '`' && c != ';'
    case Quoting(quote, inside) => (quote == '\'' || quote == '"' || quote == '`') && ProperInside(quote, inside)
  }

  function SpellInside(inside: seq<Quotation>): string {
    if inside == [] then []
    else (if inside[0].Escaped? then ['\\', inside[0].c] else [inside[0].c]) + SpellInside(inside[1..])
  }

  function SpellToken(t: Token): string {
    match t case Plain(c) => [c] case Quoting(quote, inside) => [quote] + SpellInside(inside) + [quote]
  }

  function Spell(ts: seq<Token>): string {
    if ts == [] then [] else SpellToken(ts[0]) + Spell(ts[1..])
  }

  predicate AllProper(ts: seq<Token>) {
    forall i :: 0 <= i < |ts| ==> Proper(ts[i])
  }

  lemma {:induction false} InsideEnds(quote: char, inside: seq<Quotation>)
    requires IsQuote(quote) && ProperInside(quote, inside)
    ensures Scan(SpellInside(inside), Inside(quote)) == Ends(Inside(quote))
  {
    if inside != [] {
      var s, rest := SpellInside(inside), SpellInside(inside[1..]);
      InsideEnds(quote, inside[1..]);
      if inside[0].Escaped? {
        assert s[2..] == rest && s[0] == '\\' && |s| >= 2;
      } else {
        assert s[1..] == rest && s[0] == inside[0].c;
      }
    }
  }

  lemma TokenClosed(t: Token)
    requires Proper(t)
    ensures Closed(SpellToken(t))
  {
    match t
    case Plain(c) => assert [c][1..] == [];
    case Quoting(quote, inside) =>
      var text, s := SpellInside(inside), SpellToken(t);
      InsideEnds(quote, inside);
      ScanConcat(text, [quote], Inside(quote));
      assert [quote][1..] == [] && s[1..] == text + [quote];
  }

  lemma {:induction false} SpelledClosed(ts: seq<Token>)
    requires AllProper(ts)
    ensures Closed(Spell(ts))
  {
    if ts != [] {
      TokenClosed(ts[0]);
      SpelledClosed(ts[1..]);
      ScanConcat(SpellToken(ts[0]), Spell(ts[1..]), Outside);
    }
  }

  lemma SpellFirst(t: Token, rest: seq<Token>)
    ensures Spell([t] + rest) == SpellToken(t) + Spell(rest)
  {
    assert ([t] + rest)[1..] == rest;
  }

  lemma InsideFirst(first: Quotation, more: seq<Quotation>)
    ensures SpellInside([first] + more) == SpellInside([first]) + SpellInside(more)
  {
    assert ([first] + more)[1..] == more && [first][1..] == [];
  }

  lemma Regroup(a: string, b: string, c: string, d: string)
    ensures a + (b + c + d) == (a + b) + c + d
  {
  }

  lemma {:induction false} ClosedSpelled(s: string) returns (ts: seq<Token>)
    requires Closed(s)
    ensures AllProper(ts) && Spell(ts) == s
    decreases |s|
  {
    ts := [];
    if s != [] {
      var t, rest;
      if IsQuote(s[0]) {
        var inside;
        inside, rest := RestSpelled(s[1..], s[0]);
        t := Quoting(s[0], inside);
        Regroup([s[0]], SpellInside(inside), [s[0]], Spell(rest));
      } else {
        rest := ClosedSpelled(s[1..]);
        t := Plain(s[0]);
      }
      assert s == [s[0]] + s[1..];
      SpellFirst(t, rest);
      ts := [t] + rest;
    }
  }

  // The first character inside quotes, with its backslash if it has one.
  lemma FirstInside(s: string, quote: char) returns (first: Quotation, d: nat)
    requires IsQuote(quote) && Scan(s, Inside(quote)) == Ends(Outside) && s[0] != quote
    ensures ProperInside(quote, [first]) && 0 < d <= |s| && SpellInside([first]) == s[..d]
    ensures Scan(s[d..], Inside(quote)) == Ends(Outside)
  {
    if s[0] == '\\' {
      first, d := Escaped(s[1]), 2;
    } else {
      first, d := Char(s[0]), 1;
    }
    assert [first][1..] == [];
  }

  lemma InsideThen(s: string, quote: char, first: Quotation, d: nat, more: seq<Quotation>, rest: seq<Token>)
    requires d <= |s| && SpellInside([first]) == s[..d] && s[d..] == SpellInside(more) + [quote] + Spell(rest)
    ensures s == SpellInside([first] + more) + [quote] + Spell(rest)
  {
    InsideFirst(first, more);
    Regroup(s[..d], SpellInside(more), [quote], Spell(rest));
    assert s == s[..d] + s[d..];
  }

  lemma {:induction false} RestSpelled(s: string, quote: char) returns (inside: seq<Quotation>, rest: seq<Token>)
    requires IsQuote(quote) && Scan(s, Inside(quote)) == Ends(Outside)
    ensures ProperInside(quote, inside) && AllProper(rest)
    ensures s == SpellInside(inside) + [quote] + Spell(rest)
    decreases |s|
  {
    if s[0] == quote {
      inside := [];
      rest := ClosedSpelled(s[1..]);
      assert s == [s[0]] + s[1..];
    } else {
      var first, d := FirstInside(s, quote);
      var more;
      more, rest := RestSpelled(s[d..], quote);
      InsideThen(s, quote, first, d, more, rest);
      inside := [first] + more;
      assert [first][0] == first;
    }
  }

  /**
   A text is closed exactly if it is made of characters other than quotes and semicolons and of strings
   between equal quotes, in which that quote and the backslash stand behind a backslash only.
   */
  lemma ClosedExact(s: string)
    ensures Closed(s) <==> exists ts :: AllProper(ts) && Spell(ts) == s
  {
    if Closed(s) {
      var ts := ClosedSpelled(s);
    }
    forall ts | AllProper(ts) && Spell(ts) == s ensures Closed(s) {
      SpelledClosed(ts);
    }
  }

  lemma FirstPiece(s: string, k: nat)
    requires Scan(s, Outside) == Cut(k)
    ensures Pieces(s) == [s[..k]] + Pieces(s[k..]) && Tail(s) == Tail(s[k..])
  {
  }

  /** A statement comes back whole exactly if it is closed. */
  lemma WholeIffClosed(q: string)
    ensures Pieces(q + ";") == [q + ";"] <==> Closed(q)
  {
    var s := q + ";";
    ScanConcat(q, ";", Outside);
    assert Scan(";", Outside) == Cut(1);
    if Closed(q) {
      FirstPiece(s, |s|);
      assert s[..|s|] == s && s[|s|..] == [] && Pieces([]) == [];
    } else if Scan(q, Outside).Cut? {
      FirstPiece(s, Scan(q, Outside).k);
      assert |Pieces(s)[0]| < |s|;
    } else if Scan(q, Outside).Ends? {
      assert ";"[1..] == [];
      assert Scan(";", Scan(q, Outside).mode).Ends?;
    }
  }

  /** Statements as the generator writes them to a file. */
  function Written(qs: seq<string>): string {
    if qs == [] then [] else qs[0] + ";\n" + Written(qs[1..])
  }

  /** The same statements as they are read back: all but the first begin with the newline. */
  function ReadBack(pre: string, qs: seq<string>): (ps: seq<string>)
    decreases |qs|
  {
    if qs == [] then [] else [pre + qs[0] + ";"] + ReadBack("\n", qs[1..])
  }

  lemma {:induction false} ReadBackAt(pre: string, qs: seq<string>, j: nat)
    requires j < |qs|
    ensures |ReadBack(pre, qs)| == |qs| && ReadBack(pre, qs)[j] == (if j == 0 then pre else "\n") + qs[j] + ";"
    decreases |qs|
  {
    if |qs| > 1 {
      ReadBackAt("\n", qs[1..], if j == 0 then 0 else j - 1);
    }
  }

  lemma ClosedAfterNewline(q: string)
    requires Closed(q)
    ensures Closed("\n" + q)
  {
    assert ("\n" + q)[1..] == q;
  }

  lemma OneStatement(q: string, rest: string)
    requires Closed(q)
    ensures Pieces(q + (";" + rest)) == [q + ";"] + Pieces(rest) && Tail(q + (";" + rest)) == Tail(rest)
  {
    var s := q + (";" + rest);
    ScanConcat(q, ";" + rest, Outside);
    FirstPiece(s, |q| + 1);
    assert s[..|q| + 1] == q + ";" && s[|q| + 1..] == rest;
  }

  lemma WrittenFirst(pre: string, q: string, rest: string)
    ensures pre + (q + ";\n" + rest) == pre + q + (";" + ("\n" + rest))
  {
    assert ";\n" == ";" + "\n";
  }

  lemma NewlineTail()
    ensures Pieces("\n") == [] && Tail("\n") == "\n"
  {
    assert "\n"[1..] == [];
  }

  lemma {:induction false} WrittenFrom(pre: string, qs: seq<string>)
    requires pre == "" || pre == "\n"
    requires forall j :: 0 <= j < |qs| ==> Closed(qs[j])
    ensures Pieces(pre + Written(qs)) == ReadBack(pre, qs)
    ensures Tail(pre + Written(qs)) == if qs == [] then pre else "\n"
    decreases |qs|
  {
    if qs == [] {
      assert pre + Written(qs) == pre;
      NewlineTail();
    } else {
      var q, rest := pre + qs[0], "\n" + Written(qs[1..]);
      if pre == "\n" {
        ClosedAfterNewline(qs[0]);
      } else {
        assert q == qs[0];
      }
      WrittenFirst(pre, qs[0], Written(qs[1..]));
      OneStatement(q, rest);
      WrittenFrom("\n", qs[1..]);
    }
  }

  /** `n` closed statements written out come back as `n` pieces, the same up to leading newlines. */
  lemma WriteThenRead(qs: seq<string>, j: nat)
    requires (forall k :: 0 <= k < |qs| ==> Closed(qs[k])) && j < |qs|
    ensures |Pieces(Written(qs))| == |qs| && Pieces(Written(qs))[j] == (if j == 0 then "" else "\n") + qs[j] + ";"
  {
    WrittenFrom("", qs);
    assert "" + Written(qs) == Written(qs);
    ReadBackAt("", qs, j);
  }
}
