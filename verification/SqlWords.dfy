/**
 What is written out of a generated expression: the words of the expression, in their order, with
 nothing but spaces between them.
 */
module SqlWords {
  import opened SqlText

  predicate Blank(s: string) {
    forall i :: 0 <= i < |s| ==> s[i] == ' '
  }

  /** `s` is the words, one after the other, with spaces before, between and after them. */
  ghost predicate Spells(ws: seq<string>, s: string)
    decreases ws, 1
  {
    if ws == [] then Blank(s) else exists i :: StartsAt(ws, s, i)
  }

  ghost predicate StartsAt(ws: seq<string>, s: string, i: int)
    requires ws != []
    decreases ws, 0
  {
    && 0 <= i && i + |ws[0]| <= |s| && Blank(s[..i]) && s[i..i + |ws[0]|] == ws[0]
    && Spells(ws[1..], s[i + |ws[0]|..])
  }

  function No(neg: bool): seq<string> {
    if neg then ["NOT"] else []
  }

  /** The words of an expression. */
  function Words(e: Expr): seq<string>
    decreases e
  {
    match e
    case Col(c) => [AliasName(c.alias), ".", c.column.name]
    case Const(text) => [text]
    case Op(op, l, r) => ["("] + Words(l) + [op] + Words(r) + [")"]
    case Equate(l, r) => Words(l) + ["="] + Words(r)
    case Call(name, args) => [name, "("] + WordsAll(args) + [")"]
    case CastAs(x, ty) => ["CAST", "("] + Words(x) + ["AS", ty, ")"]
    case Case(c, y, n) => ["CASE", "WHEN"] + Words(c) + ["THEN"] + Words(y) + ["ELSE"] + Words(n) + ["END"]
    case In(x, neg, list) => ["("] + Words(x) + [")"] + No(neg) + ["IN", "("] + WordsAll(list) + [")"]
    case InColumn(x, neg, list) => ["("] + Words(x) + No(neg) + ["IN", "("] + WordsAll(list) + [")", ")"]
    case IsNull(x, neg) => Words(x) + ["IS"] + No(neg) + ["NULL"]
    case Between(x, neg, lo, hi) =>
      ["("] + Words(x) + [")"] + No(neg) + ["BETWEEN"] + Words(lo) + ["AND"] + Words(hi)
    case Like(x, neg, p) => Words(x) + No(neg) + ["LIKE"] + Words(p)
  }

  function WordsAll(es: seq<Expr>): seq<string>
    decreases es
  {
    if es == [] then [] else if |es| == 1 then Words(es[0])
    else WordsAll(es[..|es| - 1]) + [","] + Words(es[|es| - 1])
  }

  // ---------------------------------------------------------------------------------------
  // Putting texts together

  lemma {:induction false} BlankFirst(b: string, ws: seq<string>, s: string)
    requires Blank(b) && Spells(ws, s)
    ensures Spells(ws, b + s)
  {
    if ws != [] {
      var i :| StartsAt(ws, s, i);
      var k := |ws[0]|;
      assert (b + s)[..|b| + i] == b + s[..i] && (b + s)[|b| + i..|b| + i + k] == s[i..i + k];
      assert (b + s)[|b| + i + k..] == s[i + k..];
      assert StartsAt(ws, b + s, |b| + i);
    }
  }

  lemma {:induction false} Both(ws: seq<string>, s: string, vs: seq<string>, t: string)
    requires Spells(ws, s) && Spells(vs, t)
    ensures Spells(ws + vs, s + t)
    decreases |ws|
  {
    if ws == [] {
      assert ws + vs == vs;
      BlankFirst(s, vs, t);
    } else {
      var i :| StartsAt(ws, s, i);
      var k := |ws[0]|;
      Both(ws[1..], s[i + k..], vs, t);
      assert (ws + vs)[0] == ws[0] && (ws + vs)[1..] == ws[1..] + vs;
      assert (s + t)[..i] == s[..i] && (s + t)[i..i + k] == s[i..i + k] && (s + t)[i + k..] == s[i + k..] + t;
      assert StartsAt(ws + vs, s + t, i);
    }
  }

  lemma Word(w: string)
    ensures Spells([w], w)
  {
    assert w[0..0 + |w|] == w && w[0 + |w|..] == [] && w[..0] == [];
    assert StartsAt([w], w, 0);
  }

  /** One more word, behind blanks. */
  lemma AndWord(ws: seq<string>, s: string, b: string, w: string)
    requires Spells(ws, s) && Blank(b)
    ensures Spells(ws + [w], s + (b + w))
  {
    Word(w);
    BlankFirst(b, [w], w);
    Both(ws, s, [w], b + w);
  }

  /** A text behind blanks. */
  lemma AndText(ws: seq<string>, s: string, b: string, vs: seq<string>, t: string)
    requires Spells(ws, s) && Spells(vs, t) && Blank(b)
    ensures Spells(ws + vs, s + (b + t))
  {
    BlankFirst(b, vs, t);
    Both(ws, s, vs, b + t);
  }

  lemma AndNot(ws: seq<string>, s: string, neg: bool, w: string)
    requires Spells(ws, s)
    ensures Spells(ws + No(neg) + [w], s + (" " + NotText(neg) + w))
  {
    if neg {
      AndWord(ws, s, " ", "NOT");
      AndWord(ws + ["NOT"], s + (" " + "NOT"), " ", w);
      assert s + (" " + "NOT") + (" " + w) == s + (" " + NotText(neg) + w);
    } else {
      AndWord(ws, s, " ", w);
      assert ws + [] + [w] == ws + [w];
      assert " " + "" + w == " " + w;
    }
  }

  // ---------------------------------------------------------------------------------------
  // Expressions

  lemma CommaSpells(ws: seq<string>, s: string, vs: seq<string>, t: string)
    requires Spells(ws, s) && Spells(vs, t)
    ensures Spells(ws + [","] + vs, s + ", " + t)
  {
    AndWord(ws, s, "", ",");
    AndText(ws + [","], s + ("" + ","), " ", vs, t);
    assert s + ("" + ",") + (" " + t) == s + ", " + t;
  }

  lemma LastJoined(es: seq<Expr>)
    requires |es| > 1
    ensures Join(ShowAll(es), ", ") == Join(ShowAll(es[..|es| - 1]), ", ") + ", " + Show(es[|es| - 1])
    ensures WordsAll(es) == WordsAll(es[..|es| - 1]) + [","] + Words(es[|es| - 1])
  {
    assert ShowAll(es)[..|es| - 1] == ShowAll(es[..|es| - 1]);
  }

  lemma {:induction false} JoinSpells(es: seq<Expr>)
    requires forall i :: 0 <= i < |es| ==> Spells(Words(es[i]), Show(es[i]))
    ensures Spells(WordsAll(es), Join(ShowAll(es), ", "))
  {
    if |es| > 1 {
      var k := |es| - 1;
      JoinSpells(es[..k]);
      LastJoined(es);
      CommaSpells(WordsAll(es[..k]), Join(ShowAll(es[..k]), ", "), Words(es[k]), Show(es[k]));
    }
  }

  lemma OpSpells(op: string, ws: seq<string>, s: string, vs: seq<string>, t: string)
    requires Spells(ws, s) && Spells(vs, t)
    ensures Spells(["("] + ws + [op] + vs + [")"], "(" + s + (" " + op + " ") + t + ")")
  {
    Word("(");
    Both(["("], "(", ws, s);
    AndWord(["("] + ws, "(" + s, " ", op);
    AndText(["("] + ws + [op], "(" + s + (" " + op), " ", vs, t);
    AndWord(["("] + ws + [op] + vs, "(" + s + (" " + op) + (" " + t), "", ")");
    assert "(" + s + (" " + op) + (" " + t) + ("" + ")") == "(" + s + (" " + op + " ") + t + ")";
  }

  lemma Infix(ws: seq<string>, s: string, w: string, vs: seq<string>, t: string)
    requires Spells(ws, s) && Spells(vs, t)
    ensures Spells(ws + [w] + vs, s + (" " + w + " ") + t)
  {
    AndWord(ws, s, " ", w);
    AndText(ws + [w], s + (" " + w), " ", vs, t);
    assert s + (" " + w) + (" " + t) == s + (" " + w + " ") + t;
  }

  lemma InfixAs(ws: seq<string>, s: string, w: string, spaced: string, vs: seq<string>, t: string)
    requires Spells(ws, s) && Spells(vs, t) && spaced == " " + w + " "
    ensures Spells(ws + [w] + vs, s + spaced + t)
  {
    Infix(ws, s, w, vs, t);
  }

  lemma CallSpells(name: string, ws: seq<string>, s: string)
    requires Spells(ws, s)
    ensures Spells([name, "("] + ws + [")"], name + "(" + s + ")")
  {
    Word(name);
    AndWord([name], name, "", "(");
    Both([name] + ["("], name + ("" + "("), ws, s);
    AndWord([name] + ["("] + ws, name + ("" + "(") + s, "", ")");
    assert [name] + ["("] == [name, "("];
    assert name + ("" + "(") + s + ("" + ")") == name + "(" + s + ")";
  }

  lemma CastSpells(ty: string, ws: seq<string>, s: string)
    requires Spells(ws, s)
    ensures Spells(["CAST", "("] + ws + ["AS", ty, ")"], "CAST(" + s + (" AS " + ty + ")"))
  {
    Word("CAST");
    AndWord(["CAST"], "CAST", "", "(");
    Both(["CAST"] + ["("], "CAST" + ("" + "("), ws, s);
    var vs, t := ["CAST"] + ["("] + ws, "CAST" + ("" + "(") + s;
    AndWord(vs, t, " ", "AS");
    AndWord(vs + ["AS"], t + (" " + "AS"), " ", ty);
    AndWord(vs + ["AS"] + [ty], t + (" " + "AS") + (" " + ty), "", ")");
    assert vs + ["AS"] + [ty] + [")"] == ["CAST", "("] + ws + ["AS", ty, ")"];
    assert t + (" " + "AS") + (" " + ty) + ("" + ")") == "CAST(" + s + (" AS " + ty + ")");
  }

  lemma CaseSpells(ws: seq<string>, c: string, us: seq<string>, y: string, vs: seq<string>, n: string)
    requires Spells(ws, c) && Spells(us, y) && Spells(vs, n)
    ensures Spells(["CASE", "WHEN"] + ws + ["THEN"] + us + ["ELSE"] + vs + ["END"],
                   "CASE WHEN " + c + " THEN " + y + " ELSE " + n + " END")
  {
    Word("CASE");
    InfixAs(["CASE"], "CASE", "WHEN", " WHEN ", ws, c);
    assert ["CASE"] + ["WHEN"] == ["CASE", "WHEN"] && "CASE" + " WHEN " == "CASE WHEN ";
    var xs, s := ["CASE", "WHEN"] + ws, "CASE WHEN " + c;
    InfixAs(xs, s, "THEN", " THEN ", us, y);
    InfixAs(xs + ["THEN"] + us, s + " THEN " + y, "ELSE", " ELSE ", vs, n);
    AndWord(xs + ["THEN"] + us + ["ELSE"] + vs, s + " THEN " + y + " ELSE " + n, " ", "END");
    assert " " + "END" == " END";
  }

  lemma Parenthesised(ws: seq<string>, s: string)
    requires Spells(ws, s)
    ensures Spells(["("] + ws + [")"], "(" + s + ")")
  {
    Word("(");
    Both(["("], "(", ws, s);
    AndWord(["("] + ws, "(" + s, "", ")");
    assert "(" + s + ("" + ")") == "(" + s + ")";
  }

  lemma ListSpells(ws: seq<string>, s: string, vs: seq<string>, t: string)
    requires Spells(ws, s) && Spells(vs, t)
    ensures Spells(ws + ["("] + vs + [")"], s + " (" + t + ")")
  {
    AndWord(ws, s, " ", "(");
    Both(ws + ["("], s + (" " + "("), vs, t);
    AndWord(ws + ["("] + vs, s + (" " + "(") + t, "", ")");
    assert s + (" " + "(") + t + ("" + ")") == s + " (" + t + ")";
  }

  lemma InText(neg: bool, s: string, t: string)
    ensures "(" + s + ")" + (" " + NotText(neg) + "IN") + " (" + t + ")"
         == "(" + s + (if neg then ") NOT IN (" else ") IN (") + t + ")"
  {
    if neg {
      assert ")" + (" " + NotText(neg) + "IN") + " (" == ") NOT IN (";
    } else {
      assert ")" + (" " + NotText(neg) + "IN") + " (" == ") IN (";
    }
    assert "(" + s + ")" + (" " + NotText(neg) + "IN") + " ("
        == "(" + s + (")" + (" " + NotText(neg) + "IN") + " (");
  }

  lemma InSpells(neg: bool, ws: seq<string>, s: string, vs: seq<string>, t: string)
    requires Spells(ws, s) && Spells(vs, t)
    ensures Spells(["("] + ws + [")"] + No(neg) + ["IN", "("] + vs + [")"],
                   "(" + s + (if neg then ") NOT IN (" else ") IN (") + t + ")")
  {
    Parenthesised(ws, s);
    var xs, x := ["("] + ws + [")"], "(" + s + ")";
    AndNot(xs, x, neg, "IN");
    ListSpells(xs + No(neg) + ["IN"], x + (" " + NotText(neg) + "IN"), vs, t);
    assert xs + No(neg) + ["IN", "("] == xs + No(neg) + ["IN"] + ["("];
    InText(neg, s, t);
  }

  lemma InColumnSpells(neg: bool, ws: seq<string>, s: string, vs: seq<string>, t: string)
    requires Spells(ws, s) && Spells(vs, t)
    ensures Spells(["("] + ws + No(neg) + ["IN", "("] + vs + [")", ")"],
                   "(" + s + (" " + NotText(neg) + "IN (") + t + "))")
  {
    Word("(");
    Both(["("], "(", ws, s);
    AndNot(["("] + ws, "(" + s, neg, "IN");
    var ys, y := ["("] + ws + No(neg) + ["IN"], "(" + s + (" " + NotText(neg) + "IN");
    AndWord(ys, y, " ", "(");
    Both(ys + ["("], y + (" " + "("), vs, t);
    AndWord(ys + ["("] + vs, y + (" " + "(") + t, "", ")");
    AndWord(ys + ["("] + vs + [")"], y + (" " + "(") + t + ("" + ")"), "", ")");
    assert ys + ["("] == ["("] + ws + No(neg) + ["IN", "("];
    assert ys + ["("] + vs + [")"] + [")"] == ys + ["("] + vs + [")", ")"];
    assert y + (" " + "(") == "(" + s + (" " + NotText(neg) + "IN (");
    assert y + (" " + "(") + t + ("" + ")") + ("" + ")") == y + (" " + "(") + t + "))";
  }

  lemma IsNullSpells(neg: bool, ws: seq<string>, s: string)
    requires Spells(ws, s)
    ensures Spells(ws + ["IS"] + No(neg) + ["NULL"], s + (if neg then " IS NOT NULL" else " IS NULL"))
  {
    AndWord(ws, s, " ", "IS");
    AndNot(ws + ["IS"], s + (" " + "IS"), neg, "NULL");
    assert s + (" " + "IS") + (" " + NotText(neg) + "NULL") == s + (if neg then " IS NOT NULL" else " IS NULL");
  }

  lemma BetweenText(neg: bool, s: string, lo: string)
    ensures "(" + s + ")" + (" " + NotText(neg) + "BETWEEN") + (" " + lo)
         == "(" + s + (") " + NotText(neg) + "BETWEEN ") + lo
  {
    assert "(" + s + ")" + (" " + NotText(neg) + "BETWEEN") + (" " + lo)
        == "(" + s + (")" + (" " + NotText(neg) + "BETWEEN") + " ") + lo;
    assert ")" + (" " + NotText(neg) + "BETWEEN") + " " == ") " + NotText(neg) + "BETWEEN ";
  }

  lemma BetweenSpells(neg: bool, ws: seq<string>, s: string, us: seq<string>, lo: string, vs: seq<string>, hi: string)
    requires Spells(ws, s) && Spells(us, lo) && Spells(vs, hi)
    ensures Spells(["("] + ws + [")"] + No(neg) + ["BETWEEN"] + us + ["AND"] + vs,
                   "(" + s + (") " + NotText(neg) + "BETWEEN ") + lo + " AND " + hi)
  {
    Parenthesised(ws, s);
    var xs, x := ["("] + ws + [")"], "(" + s + ")";
    AndNot(xs, x, neg, "BETWEEN");
    AndText(xs + No(neg) + ["BETWEEN"], x + (" " + NotText(neg) + "BETWEEN"), " ", us, lo);
    BetweenText(neg, s, lo);
    Infix(xs + No(neg) + ["BETWEEN"] + us, "(" + s + (") " + NotText(neg) + "BETWEEN ") + lo, "AND", vs, hi);
    assert (" " + "AND" + " ") == " AND ";
  }

  lemma LikeSpells(neg: bool, ws: seq<string>, s: string, vs: seq<string>, t: string)
    requires Spells(ws, s) && Spells(vs, t)
    ensures Spells(ws + No(neg) + ["LIKE"] + vs, s + (" " + NotText(neg) + "LIKE ") + t)
  {
    AndNot(ws, s, neg, "LIKE");
    AndText(ws + No(neg) + ["LIKE"], s + (" " + NotText(neg) + "LIKE"), " ", vs, t);
    assert s + (" " + NotText(neg) + "LIKE") + (" " + t) == s + (" " + NotText(neg) + "LIKE ") + t;
  }

  lemma ColumnSpells(alias: string, name: string)
    ensures Spells([alias, ".", name], alias + "." + name)
  {
    Word(alias);
    AndWord([alias], alias, "", ".");
    AndWord([alias] + ["."], alias + ("" + "."), "", name);
    assert [alias] + ["."] + [name] == [alias, ".", name];
    assert alias + ("" + ".") + ("" + name) == alias + "." + name;
  }

  /** What is written is the words of the expression, in order, with nothing but spaces between them. */
  lemma {:induction false} WordsShown(e: Expr)
    ensures Spells(Words(e), Show(e))
    decreases e
  {
    match e
    case Col(c) => ColumnSpells(AliasName(c.alias), c.column.name);
    case Const(text) => Word(text);
    case Op(op, l, r) =>
      WordsShown(l);
      WordsShown(r);
      OpSpells(op, Words(l), Show(l), Words(r), Show(r));
    case Equate(l, r) =>
      WordsShown(l);
      WordsShown(r);
      InfixAs(Words(l), Show(l), "=", " = ", Words(r), Show(r));
    case CastAs(x, ty) =>
      WordsShown(x);
      CastSpells(ty, Words(x), Show(x));
    case Case(c, y, n) =>
      WordsShown(c);
      WordsShown(y);
      WordsShown(n);
      CaseSpells(Words(c), Show(c), Words(y), Show(y), Words(n), Show(n));
    case IsNull(x, neg) =>
      WordsShown(x);
      IsNullSpells(neg, Words(x), Show(x));
    case Between(x, neg, lo, hi) =>
      WordsShown(x);
      WordsShown(lo);
      WordsShown(hi);
      BetweenSpells(neg, Words(x), Show(x), Words(lo), Show(lo), Words(hi), Show(hi));
    case Like(x, neg, p) =>
      WordsShown(x);
      WordsShown(p);
      LikeSpells(neg, Words(x), Show(x), Words(p), Show(p));
    case Call(name, args) =>
      forall i | 0 <= i < |args| ensures Spells(Words(args[i]), Show(args[i])) { WordsShown(args[i]); }
      JoinSpells(args);
      CallSpells(name, WordsAll(args), Join(ShowAll(args), ", "));
    case In(x, neg, list) =>
      WordsShown(x);
      forall i | 0 <= i < |list| ensures Spells(Words(list[i]), Show(list[i])) { WordsShown(list[i]); }
      JoinSpells(list);
      InSpells(neg, Words(x), Show(x), WordsAll(list), Join(ShowAll(list), ", "));
    case InColumn(x, neg, list) =>
      WordsShown(x);
      forall i | 0 <= i < |list| ensures Spells(Words(list[i]), Show(list[i])) { WordsShown(list[i]); }
      JoinSpells(list);
      InColumnSpells(neg, Words(x), Show(x), WordsAll(list), Join(ShowAll(list), ", "));
  }
}
