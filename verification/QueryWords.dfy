/**
 What is written out of a generated query: its clauses in the order SQL wants them, each with its words,
 the empty ones left out, with nothing but spaces between the words.
 */
module QueryWords {
  import Sql
  import opened SqlQuery
  import opened SqlWords
  import T = SqlText

  function ItemWords(i: SelectItem): seq<string> {
    Words(i.e) + ["AS", "ref" + T.Digits(i.alias)]
  }

  function NameWords(table: string, alias: nat): seq<string> {
    [table, "AS", T.AliasName(alias)]
  }

  function FromWords(f: FromItem): seq<string> {
    match f
    case First(table, alias) => NameWords(table, alias)
    case Listed(table, alias) => NameWords(table, alias)
    case Joined(how, table, alias, on) => [how, "JOIN"] + NameWords(table, alias) + ["ON"] + Words(on)
  }

  function OrderWords(o: OrderItem): seq<string> {
    Words(o.e) + [if o.desc then "DESC" else "ASC"]
  }

  // A list, with commas or without.
  function ListWords<X>(xs: seq<X>, words: X -> seq<string>, comma: bool): seq<string> {
    if xs == [] then [] else if |xs| == 1 then words(xs[0])
    else ListWords(xs[..|xs| - 1], words, comma) + (if comma then [","] else []) + words(xs[|xs| - 1])
  }

  // A clause that says nothing is left out.
  function ClauseWords(words: seq<string>, text: string, ws: seq<string>): seq<string> {
    if text == "" then [] else words + ws
  }

  function MaybeWords(word: string, e: Sql.Option<T.Expr>): seq<string> {
    ClauseWords([word], MaybeShow(e), if e.Some? then Words(e.value) else [])
  }

  function GroupWords(groupBy: seq<T.Expr>): seq<string> {
    ClauseWords(["GROUP", "BY"], T.Join(T.ShowAll(groupBy), ", "), WordsAll(groupBy))
  }

  function OrderByWords(orderBy: seq<OrderItem>): seq<string> {
    ClauseWords(["ORDER", "BY"], T.Join(T.MapText(orderBy, ShowOrder), ", "), ListWords(orderBy, OrderWords, true))
  }

  /** The words of a query. */
  function QueryWords(q: Query): seq<string> {
    match q
    case SelectOne => ["SELECT", "1"]
    case Plain(distinct, items, from, where, groupBy, having, orderBy, limit) =>
      ["SELECT"] + (if distinct then ["DISTINCT"] else []) + ListWords(items, ItemWords, true)
      + (["FROM"] + ListWords(from, FromWords, false)) + MaybeWords("WHERE", where) + GroupWords(groupBy)
      + MaybeWords("HAVING", having) + OrderByWords(orderBy)
      + (if limit.Some? then ["LIMIT", T.Digits(limit.value)] else [])
    case Union(l, how, r) => ["("] + QueryWords(l) + [")", how, "("] + QueryWords(r) + [")"]
    case WithStar(cte, body) =>
      ["WITH", CteName(cte), "AS", "("] + QueryWords(body) + [")", "SELECT", "*", "FROM", CteName(cte)]
    case WithSelect(cte, body, items, alias, where) =>
      ["WITH", CteName(cte), "AS", "("] + QueryWords(body) + [")", "SELECT"] + ListWords(items, ItemWords, true)
      + (["FROM"] + NameWords(CteName(cte), alias)) + MaybeWords("WHERE", where)
    case Derived(body, alias, where) =>
      ["SELECT", "*", "FROM", "("] + QueryWords(body) + [")", "AS", T.AliasName(alias)] + MaybeWords("WHERE", where)
  }

  // ---------------------------------------------------------------------------------------
  // Fixed texts

  lemma Start(b: string, w: string)
    requires Blank(b)
    ensures Spells([w], b + w)
  {
    Word(w);
    BlankFirst(b, [w], w);
  }

  lemma Next(ws: seq<string>, s: string, b: string, w: string, vs: seq<string>, t: string)
    requires Spells(ws, s) && Blank(b) && vs == ws + [w] && t == s + b + w
    ensures Spells(vs, t)
  {
    AndWord(ws, s, b, w);
    assert s + (b + w) == s + b + w;
  }

  lemma Trailing(ws: seq<string>, s: string, t: string)
    requires Spells(ws, s) && t == s + " "
    ensures Spells(ws, t)
  {
    Both(ws, s, [], " ");
    assert ws + [] == ws;
  }

  /** A word between spaces. */
  lemma Keyword(w: string, spaced: string)
    requires spaced == " " + w + " "
    ensures Spells([w], spaced)
  {
    Start(" ", w);
    Trailing([w], " " + w, spaced);
  }

  lemma TwoKeywords(w: string, v: string, spaced: string)
    requires spaced == " " + w + " " + v + " "
    ensures Spells([w, v], spaced)
  {
    Start(" ", w);
    Next([w], " " + w, " ", v, [w, v], " " + w + " " + v);
    Trailing([w, v], " " + w + " " + v, spaced);
  }

  lemma SelectWord(distinct: bool)
    ensures Spells(["SELECT"] + (if distinct then ["DISTINCT"] else []),
                   "SELECT " + (if distinct then "DISTINCT " else ""))
  {
    Start("", "SELECT");
    assert "" + "SELECT" == "SELECT" && "SELECT" + " " == "SELECT ";
    Trailing(["SELECT"], "SELECT", "SELECT ");
    if distinct {
      Start("", "DISTINCT");
      assert "" + "DISTINCT" == "DISTINCT" && "DISTINCT" + " " == "DISTINCT ";
      Trailing(["DISTINCT"], "DISTINCT", "DISTINCT ");
      Both(["SELECT"], "SELECT ", ["DISTINCT"], "DISTINCT ");
    } else {
      assert ["SELECT"] + [] == ["SELECT"] && "SELECT " + "" == "SELECT ";
    }
  }

  lemma NameSpells(table: string, alias: nat)
    ensures Spells(NameWords(table, alias), table + " AS " + T.AliasName(alias))
  {
    Word(table);
    Word(T.AliasName(alias));
    InfixAs([table], table, "AS", " AS ", [T.AliasName(alias)], T.AliasName(alias));
    assert [table] + ["AS"] + [T.AliasName(alias)] == NameWords(table, alias);
  }

  lemma CteOpens(name: string)
    ensures Spells(["WITH", name, "AS", "("], "WITH " + name + " AS (")
  {
    Word("WITH");
    Next(["WITH"], "WITH", " ", name, ["WITH", name], "WITH " + name) by {
      assert "WITH" + " " == "WITH ";
    }
    Next(["WITH", name], "WITH " + name, " ", "AS", ["WITH", name, "AS"], "WITH " + name + " AS") by {
      assert "WITH " + name + " " + "AS" == "WITH " + name + (" " + "AS") && " " + "AS" == " AS";
    }
    Next(["WITH", name, "AS"], "WITH " + name + " AS", " ", "(",
         ["WITH", name, "AS", "("], "WITH " + name + " AS (") by {
      assert "WITH " + name + " AS" + " " + "(" == "WITH " + name + (" AS" + " " + "(") && " AS" + " " + "(" == " AS (";
    }
  }

  // ---------------------------------------------------------------------------------------
  // Lists and clauses

  lemma {:induction false} ListSpelled<X>(xs: seq<X>, words: X -> seq<string>, show: X -> string, comma: bool)
    requires forall i :: 0 <= i < |xs| ==> Spells(words(xs[i]), show(xs[i]))
    ensures Spells(ListWords(xs, words, comma), T.Join(T.MapText(xs, show), if comma then ", " else " "))
  {
    if |xs| > 1 {
      var k := |xs| - 1;
      var sep := if comma then ", " else " ";
      var ws, s := ListWords(xs[..k], words, comma), T.Join(T.MapText(xs[..k], show), sep);
      ListSpelled(xs[..k], words, show, comma);
      assert T.MapText(xs, show)[..k] == T.MapText(xs[..k], show);
      if comma {
        Next(ws, s, "", ",", ws + [","], s + ",") by { assert s + "" == s; }
        Trailing(ws + [","], s + ",", s + ", ") by { assert "," + " " == ", " && s + "," + " " == s + ("," + " "); }
      } else {
        Trailing(ws, s, s + " ");
        assert ws + [] == ws;
      }
      Both(ws + (if comma then [","] else []), s + sep, words(xs[k]), show(xs[k]));
    }
  }

  lemma ClauseSpells(ws: seq<string>, s: string, words: seq<string>, spaced: string, vs: seq<string>, t: string)
    requires Spells(ws, s) && Spells(words, spaced) && Spells(vs, t)
    ensures Spells(ws + ClauseWords(words, t, vs), s + Clause(spaced, t))
  {
    if t == "" {
      assert ws + [] == ws && s + "" == s;
    } else {
      Both(words, spaced, vs, t);
      Both(ws, s, words + vs, spaced + t);
    }
  }

  lemma MaybeSpells(ws: seq<string>, s: string, word: string, spaced: string, e: Sql.Option<T.Expr>)
    requires Spells(ws, s) && spaced == " " + word + " "
    ensures Spells(ws + MaybeWords(word, e), s + Clause(spaced, MaybeShow(e)))
  {
    Keyword(word, spaced);
    if e.Some? {
      WordsShown(e.value);
    }
    ClauseSpells(ws, s, [word], spaced, if e.Some? then Words(e.value) else [], MaybeShow(e));
  }

  lemma WhereSpells(ws: seq<string>, s: string, where: Sql.Option<T.Expr>)
    requires Spells(ws, s)
    ensures Spells(ws + MaybeWords("WHERE", where), s + Clause(" WHERE ", MaybeShow(where)))
  {
    MaybeSpells(ws, s, "WHERE", " WHERE ", where) by { assert " " + "WHERE" + " " == " WHERE "; }
  }

  lemma HavingSpells(ws: seq<string>, s: string, having: Sql.Option<T.Expr>)
    requires Spells(ws, s)
    ensures Spells(ws + MaybeWords("HAVING", having), s + Clause(" HAVING ", MaybeShow(having)))
  {
    MaybeSpells(ws, s, "HAVING", " HAVING ", having) by { assert " " + "HAVING" + " " == " HAVING "; }
  }

  lemma GroupSpells(ws: seq<string>, s: string, groupBy: seq<T.Expr>)
    requires Spells(ws, s)
    ensures Spells(ws + GroupWords(groupBy), s + Clause(" GROUP BY ", T.Join(T.ShowAll(groupBy), ", ")))
  {
    TwoKeywords("GROUP", "BY", " GROUP BY ") by { assert " " + "GROUP" + " " + "BY" + " " == " GROUP BY "; }
    forall i | 0 <= i < |groupBy| ensures Spells(Words(groupBy[i]), T.Show(groupBy[i])) { WordsShown(groupBy[i]); }
    JoinSpells(groupBy);
    ClauseSpells(ws, s, ["GROUP", "BY"], " GROUP BY ", WordsAll(groupBy), T.Join(T.ShowAll(groupBy), ", "));
  }

  lemma OrderItemSpells(o: OrderItem)
    ensures Spells(OrderWords(o), ShowOrder(o))
  {
    WordsShown(o.e);
    var w := if o.desc then "DESC" else "ASC";
    AndWord(Words(o.e), T.Show(o.e), " ", w);
    assert " " + w == if o.desc then " DESC" else " ASC";
  }

  lemma OrderBySpells(ws: seq<string>, s: string, orderBy: seq<OrderItem>)
    requires Spells(ws, s)
    ensures Spells(ws + OrderByWords(orderBy), s + Clause(" ORDER BY ", T.Join(T.MapText(orderBy, ShowOrder), ", ")))
  {
    TwoKeywords("ORDER", "BY", " ORDER BY ") by { assert " " + "ORDER" + " " + "BY" + " " == " ORDER BY "; }
    forall i | 0 <= i < |orderBy| ensures Spells(OrderWords(orderBy[i]), ShowOrder(orderBy[i])) {
      OrderItemSpells(orderBy[i]);
    }
    ListSpelled(orderBy, OrderWords, ShowOrder, true);
    ClauseSpells(ws, s, ["ORDER", "BY"], " ORDER BY ", ListWords(orderBy, OrderWords, true),
                 T.Join(T.MapText(orderBy, ShowOrder), ", "));
  }

  lemma LimitSpells(ws: seq<string>, s: string, limit: Sql.Option<nat>)
    requires Spells(ws, s)
    ensures Spells(ws + (if limit.Some? then ["LIMIT", T.Digits(limit.value)] else []),
                   s + (if limit.Some? then " LIMIT " + T.Digits(limit.value) else ""))
  {
    if limit.Some? {
      var n := T.Digits(limit.value);
      Keyword("LIMIT", " LIMIT ") by { assert " " + "LIMIT" + " " == " LIMIT "; }
      Next(["LIMIT"], " LIMIT ", "", n, ["LIMIT", n], " LIMIT " + n) by { assert " LIMIT " + "" == " LIMIT "; }
      Both(ws, s, ["LIMIT", n], " LIMIT " + n);
    } else {
      assert ws + [] == ws && s + "" == s;
    }
  }

  lemma ItemSpells(i: SelectItem)
    ensures Spells(ItemWords(i), ShowItem(i))
  {
    var r := "ref" + T.Digits(i.alias);
    WordsShown(i.e);
    Keyword("AS", " AS ") by { assert " " + "AS" + " " == " AS "; }
    Next(["AS"], " AS ", "", r, ["AS", r], " AS ref" + T.Digits(i.alias)) by {
      assert " AS " + "" + r == " AS " + "ref" + T.Digits(i.alias) && " AS " + "ref" == " AS ref";
    }
    Both(Words(i.e), T.Show(i.e), ["AS", r], " AS ref" + T.Digits(i.alias));
  }

  lemma ItemsSpell(items: seq<SelectItem>)
    ensures Spells(ListWords(items, ItemWords, true), T.Join(T.MapText(items, ShowItem), ", "))
  {
    forall i | 0 <= i < |items| ensures Spells(ItemWords(items[i]), ShowItem(items[i])) { ItemSpells(items[i]); }
    ListSpelled(items, ItemWords, ShowItem, true);
  }

  lemma FromItemSpells(f: FromItem)
    ensures Spells(FromWords(f), ShowFrom(f))
  {
    NameSpells(f.table, f.alias);
    if f.Joined? {
      var a := T.AliasName(f.alias);
      Word(f.how);
      InfixAs([f.how], f.how, "JOIN", " JOIN ", NameWords(f.table, f.alias), f.table + " AS " + a);
      assert [f.how] + ["JOIN"] == [f.how, "JOIN"];
      assert f.how + " JOIN " + (f.table + " AS " + a) == f.how + " JOIN " + f.table + " AS " + a;
      WordsShown(f.on);
      InfixAs([f.how, "JOIN"] + NameWords(f.table, f.alias), f.how + " JOIN " + f.table + " AS " + a,
              "ON", " ON ", Words(f.on), T.Show(f.on));
    }
  }

  lemma FromSpells(from: seq<FromItem>)
    ensures Spells(["FROM"] + ListWords(from, FromWords, false), " FROM " + T.Join(T.MapText(from, ShowFrom), " "))
  {
    FromWord();
    forall i | 0 <= i < |from| ensures Spells(FromWords(from[i]), ShowFrom(from[i])) { FromItemSpells(from[i]); }
    ListSpelled(from, FromWords, ShowFrom, false);
    Both(["FROM"], " FROM ", ListWords(from, FromWords, false), T.Join(T.MapText(from, ShowFrom), " "));
  }

  // ---------------------------------------------------------------------------------------
  // Queries

  lemma PlainSpells(q: Query)
    requires q.Plain?
    ensures Spells(QueryWords(q), Show(q))
  {
    var items, from := T.Join(T.MapText(q.items, ShowItem), ", "), T.Join(T.MapText(q.from, ShowFrom), " ");
    var ws, s := ["SELECT"] + (if q.distinct then ["DISTINCT"] else []),
                 "SELECT " + (if q.distinct then "DISTINCT " else "");
    SelectWord(q.distinct);
    ItemsSpell(q.items);
    Both(ws, s, ListWords(q.items, ItemWords, true), items);
    ws, s := ws + ListWords(q.items, ItemWords, true), s + items;
    FromSpells(q.from);
    Both(ws, s, ["FROM"] + ListWords(q.from, FromWords, false), " FROM " + from);
    ws, s := ws + (["FROM"] + ListWords(q.from, FromWords, false)), s + (" FROM " + from);
    ClausesSpell(ws, s, q);
  }

  lemma ClausesSpell(ws: seq<string>, s: string, q: Query)
    requires q.Plain? && Spells(ws, s)
    ensures Spells(ws + MaybeWords("WHERE", q.where) + GroupWords(q.groupBy) + MaybeWords("HAVING", q.having)
                   + OrderByWords(q.orderBy) + (if q.limit.Some? then ["LIMIT", T.Digits(q.limit.value)] else []),
                   s + Clause(" WHERE ", MaybeShow(q.where)) + Clause(" GROUP BY ", T.Join(T.ShowAll(q.groupBy), ", "))
                   + Clause(" HAVING ", MaybeShow(q.having))
                   + Clause(" ORDER BY ", T.Join(T.MapText(q.orderBy, ShowOrder), ", "))
                   + (if q.limit.Some? then " LIMIT " + T.Digits(q.limit.value) else ""))
  {
    WhereSpells(ws, s, q.where);
    var vs, t := ws + MaybeWords("WHERE", q.where), s + Clause(" WHERE ", MaybeShow(q.where));
    GroupSpells(vs, t, q.groupBy);
    HavingSpells(vs + GroupWords(q.groupBy), t + Clause(" GROUP BY ", T.Join(T.ShowAll(q.groupBy), ", ")), q.having);
    LastClausesSpell(vs + GroupWords(q.groupBy) + MaybeWords("HAVING", q.having),
                     t + Clause(" GROUP BY ", T.Join(T.ShowAll(q.groupBy), ", "))
                     + Clause(" HAVING ", MaybeShow(q.having)),
                     q.orderBy, q.limit);
  }

  lemma LastClausesSpell(ws: seq<string>, s: string, orderBy: seq<OrderItem>, limit: Sql.Option<nat>)
    requires Spells(ws, s)
    ensures Spells(ws + OrderByWords(orderBy) + (if limit.Some? then ["LIMIT", T.Digits(limit.value)] else []),
                   s + Clause(" ORDER BY ", T.Join(T.MapText(orderBy, ShowOrder), ", "))
                   + (if limit.Some? then " LIMIT " + T.Digits(limit.value) else ""))
  {
    OrderBySpells(ws, s, orderBy);
    LimitSpells(ws + OrderByWords(orderBy),
                s + Clause(" ORDER BY ", T.Join(T.MapText(orderBy, ShowOrder), ", ")), limit);
  }

  lemma UnionSpells(ws: seq<string>, s: string, how: string, vs: seq<string>, t: string)
    requires Spells(ws, s) && Spells(vs, t)
    ensures Spells(["("] + ws + [")", how, "("] + vs + [")"], "(" + s + (") " + how + " (") + t + ")")
  {
    Word("(");
    Both(["("], "(", ws, s);
    Word(")");
    Next([")"], ")", " ", how, [")", how], ") " + how) by { assert ")" + " " == ") "; }
    Next([")", how], ") " + how, " ", "(", [")", how, "("], ") " + how + " (") by {
      assert ") " + how + " " + "(" == ") " + how + (" " + "(") && " " + "(" == " (";
    }
    Both(["("] + ws, "(" + s, [")", how, "("], ") " + how + " (");
    Both(["("] + ws + [")", how, "("], "(" + s + (") " + how + " ("), vs, t);
    Both(["("] + ws + [")", how, "("] + vs, "(" + s + (") " + how + " (") + t, [")"], ")");
  }

  lemma SelectStar()
    ensures Spells(["SELECT", "*"], "SELECT *")
  {
    Word("SELECT");
    Next(["SELECT"], "SELECT", " ", "*", ["SELECT", "*"], "SELECT *");
  }

  /** Two texts behind one another. */
  lemma Append(ws: seq<string>, s: string, vs: seq<string>, t: string, us: seq<string>, r: string)
    requires Spells(ws, s) && Spells(vs, t) && us == ws + vs && r == s + t
    ensures Spells(us, r)
  {
    Both(ws, s, vs, t);
  }

  // The fixed texts, put together from shorter ones.
  lemma StarFromText()
    ensures "SELECT *" + " FROM " == "SELECT * FROM "
    ensures " " + "SELECT * FROM " == " SELECT * FROM "
    ensures ")" + " SELECT * FROM " == ") SELECT * FROM "
  {
  }

  lemma FromWord()
    ensures Spells(["FROM"], " FROM ")
  {
    Keyword("FROM", " FROM ") by { assert " " + "FROM" + " " == " FROM "; }
  }

  lemma StarFrom()
    ensures Spells(["SELECT", "*", "FROM"], "SELECT * FROM ")
  {
    SelectStar();
    FromWord();
    StarFromText();
    Append(["SELECT", "*"], "SELECT *", ["FROM"], " FROM ", ["SELECT", "*", "FROM"], "SELECT * FROM ");
  }

  lemma StarFromParen()
    ensures Spells(["SELECT", "*", "FROM", "("], "SELECT * FROM (")
  {
    StarFrom();
    Word("(");
    assert ["SELECT", "*", "FROM"] + ["("] == ["SELECT", "*", "FROM", "("];
    assert "SELECT * FROM " + "(" == "SELECT * FROM (";
    Append(["SELECT", "*", "FROM"], "SELECT * FROM ", ["("], "(", ["SELECT", "*", "FROM", "("], "SELECT * FROM (");
  }

  lemma ParenSelect()
    ensures Spells([")", "SELECT"], ") SELECT ")
  {
    Word(")");
    Keyword("SELECT", " SELECT ") by { assert " " + "SELECT" + " " == " SELECT "; }
    assert [")"] + ["SELECT"] == [")", "SELECT"] && ")" + " SELECT " == ") SELECT ";
    Append([")"], ")", ["SELECT"], " SELECT ", [")", "SELECT"], ") SELECT ");
  }

  lemma BlankStarFrom()
    ensures Spells(["SELECT", "*", "FROM"], " SELECT * FROM ")
  {
    StarFrom();
    StarFromText();
    BlankFirst(" ", ["SELECT", "*", "FROM"], "SELECT * FROM ");
  }

  lemma ParenThen(ws: seq<string>, s: string, name: string)
    requires Spells(ws, s)
    ensures Spells([")"] + ws + [name], ")" + s + name)
  {
    Word(")");
    Word(name);
    Both([")"], ")", ws, s);
    Both([")"] + ws, ")" + s, [name], name);
  }

  lemma ParenStarFrom(name: string)
    ensures Spells([")", "SELECT", "*", "FROM", name], ") SELECT * FROM " + name)
  {
    BlankStarFrom();
    StarFromText();
    ParenThen(["SELECT", "*", "FROM"], " SELECT * FROM ", name);
    assert [")"] + ["SELECT", "*", "FROM"] + [name] == [")", "SELECT", "*", "FROM", name];
  }

  lemma CteStarSpells(name: string, ws: seq<string>, s: string)
    requires Spells(ws, s)
    ensures Spells(["WITH", name, "AS", "("] + ws + [")", "SELECT", "*", "FROM", name],
                   "WITH " + name + " AS (" + s + (") SELECT * FROM " + name))
  {
    CteOpens(name);
    Both(["WITH", name, "AS", "("], "WITH " + name + " AS (", ws, s);
    ParenStarFrom(name);
    Both(["WITH", name, "AS", "("] + ws, "WITH " + name + " AS (" + s, [")", "SELECT", "*", "FROM", name],
         ") SELECT * FROM " + name);
  }

  // The common table expression and the SELECT list behind it.
  lemma CteItems(name: string, vs: seq<string>, t: string, items: seq<SelectItem>)
    requires Spells(vs, t)
    ensures Spells(["WITH", name, "AS", "("] + vs + [")", "SELECT"] + ListWords(items, ItemWords, true),
                   "WITH " + name + " AS (" + t + ") SELECT " + T.Join(T.MapText(items, ShowItem), ", "))
  {
    CteOpens(name);
    Both(["WITH", name, "AS", "("], "WITH " + name + " AS (", vs, t);
    ParenSelect();
    Both(["WITH", name, "AS", "("] + vs, "WITH " + name + " AS (" + t, [")", "SELECT"], ") SELECT ");
    ItemsSpell(items);
    Both(["WITH", name, "AS", "("] + vs + [")", "SELECT"], "WITH " + name + " AS (" + t + ") SELECT ",
         ListWords(items, ItemWords, true), T.Join(T.MapText(items, ShowItem), ", "));
  }

  lemma FromWhere(ws: seq<string>, s: string, name: string, alias: nat, where: Sql.Option<T.Expr>)
    requires Spells(ws, s)
    ensures Spells(ws + (["FROM"] + NameWords(name, alias)) + MaybeWords("WHERE", where),
                   s + (" FROM " + name + " AS " + T.AliasName(alias)) + Clause(" WHERE ", MaybeShow(where)))
  {
    FromCte(name, alias);
    Both(ws, s, ["FROM"] + NameWords(name, alias), " FROM " + name + " AS " + T.AliasName(alias));
    WhereSpells(ws + (["FROM"] + NameWords(name, alias)), s + (" FROM " + name + " AS " + T.AliasName(alias)), where);
  }

  lemma CteSelectSpells(q: Query)
    requires q.WithSelect? && Spells(QueryWords(q.body), Show(q.body))
    ensures Spells(QueryWords(q), Show(q))
  {
    var name := CteName(q.cte);
    CteItems(name, QueryWords(q.body), Show(q.body), q.items);
    FromWhere(["WITH", name, "AS", "("] + QueryWords(q.body) + [")", "SELECT"] + ListWords(q.items, ItemWords, true),
              "WITH " + name + " AS (" + Show(q.body) + ") SELECT " + T.Join(T.MapText(q.items, ShowItem), ", "),
              name, q.alias, q.where);
  }

  lemma FromCte(name: string, alias: nat)
    ensures Spells(["FROM"] + NameWords(name, alias), " FROM " + name + " AS " + T.AliasName(alias))
  {
    FromWord();
    NameSpells(name, alias);
    Both(["FROM"], " FROM ", NameWords(name, alias), name + " AS " + T.AliasName(alias));
    assert " FROM " + (name + " AS " + T.AliasName(alias)) == " FROM " + name + " AS " + T.AliasName(alias);
  }

  lemma ParenAs(alias: string)
    ensures Spells([")", "AS", alias], ") AS " + alias)
  {
    Word(")");
    Word(alias);
    InfixAs([")"], ")", "AS", " AS ", [alias], alias);
    assert [")"] + ["AS"] + [alias] == [")", "AS", alias] && ")" + " AS " == ") AS ";
  }

  lemma DerivedSpells(ws: seq<string>, s: string, alias: string)
    requires Spells(ws, s)
    ensures Spells(["SELECT", "*", "FROM", "("] + ws + [")", "AS", alias], "SELECT * FROM (" + s + (") AS " + alias))
  {
    StarFromParen();
    Both(["SELECT", "*", "FROM", "("], "SELECT * FROM (", ws, s);
    ParenAs(alias);
    Both(["SELECT", "*", "FROM", "("] + ws, "SELECT * FROM (" + s, [")", "AS", alias], ") AS " + alias);
  }

  /** What is written is the words of the query, in order, with nothing but spaces between them. */
  lemma {:induction false} QueryShown(q: Query)
    ensures Spells(QueryWords(q), Show(q))
  {
    match q
    case SelectOne =>
      Word("SELECT");
      Next(["SELECT"], "SELECT", " ", "1", ["SELECT", "1"], "SELECT 1");
    case Plain(_, _, _, _, _, _, _, _) => PlainSpells(q);
    case Union(l, how, r) =>
      QueryShown(l);
      QueryShown(r);
      UnionSpells(QueryWords(l), Show(l), how, QueryWords(r), Show(r));
    case WithStar(cte, body) =>
      QueryShown(body);
      CteStarSpells(CteName(cte), QueryWords(body), Show(body));
    case WithSelect(_, body, _, _, _) =>
      QueryShown(body);
      CteSelectSpells(q);
    case Derived(body, alias, where) =>
      QueryShown(body);
      DerivedSpells(QueryWords(body), Show(body), T.AliasName(alias));
      WhereSpells(["SELECT", "*", "FROM", "("] + QueryWords(body) + [")", "AS", T.AliasName(alias)],
                  "SELECT * FROM (" + Show(body) + (") AS " + T.AliasName(alias)), where);
  }
}
