/**
 The queries the generator builds, what their aliases and column references must look like, and
 how they are written out.
 */
module SqlQuery {
  import opened Sql
  import opened Splitter
  import T = SqlText

  // The first table, a joined one with its ON condition, or one just listed.
  datatype FromItem =
    | First(table: string, alias: nat)
    | Joined(how: string, table: string, alias: nat, on: T.Expr)
    | Listed(table: string, alias: nat)

  datatype SelectItem = SelectItem(e: T.Expr, alias: nat)
  datatype OrderItem = OrderItem(e: T.Expr, desc: bool)

  datatype Query =
    | SelectOne
    | Plain(distinct: bool, items: seq<SelectItem>, from: seq<FromItem>, where: Option<T.Expr>,
            groupBy: seq<T.Expr>, having: Option<T.Expr>, orderBy: seq<OrderItem>, limit: Option<nat>)
    | Union(l: Query, how: string, r: Query)
    | WithStar(cte: nat, body: Query)
    | WithSelect(cte: nat, body: Query, items: seq<SelectItem>, alias: nat, where: Option<T.Expr>)
    | Derived(body: Query, alias: nat, where: Option<T.Expr>)

  function CteName(cte: nat): string {
    "cte" + T.Digits(cte)
  }

  // ---------------------------------------------------------------------------------------
  // Scopes

  /** The columns in scope after these FROM items. */
  function Columns(schema: T.Schema, from: seq<FromItem>): seq<T.ColumnRef> {
    if from == [] then []
    else
      var k := |from| - 1;
      Columns(schema, from[..k]) + T.ColumnsOf(schema, from[k].table, from[k].alias)
  }

  /** An ON condition sees the tables up to its own. */
  predicate FromFits(schema: T.Schema, from: seq<FromItem>, h: int) {
    from == [] ||
      var k := |from| - 1;
      && FromFits(schema, from[..k], h) && T.Bare(from[k].table)
      && (from[k].Joined? ==> T.Bare(from[k].how) && T.Fits(from[k].on, Columns(schema, from), h))
  }

  predicate MaybeFits(e: Option<T.Expr>, cols: seq<T.ColumnRef>, h: int) {
    e.Some? ==> T.Fits(e.value, cols, h)
  }

  predicate ItemsFit(items: seq<SelectItem>, cols: seq<T.ColumnRef>, h: int) {
    forall i :: 0 <= i < |items| ==> T.Fits(items[i].e, cols, h)
  }

  predicate OrderFits(items: seq<OrderItem>, cols: seq<T.ColumnRef>) {
    forall i :: 0 <= i < |items| ==> T.Fits(items[i].e, cols, 1)
  }

  /** Every expression of the query fits the scope of its place. */
  predicate QueryFits(schema: T.Schema, q: Query, h: int) {
    match q
    case SelectOne => true
    case Plain(_, items, from, where, groupBy, having, orderBy, _) =>
      var cols := Columns(schema, from);
      && FromFits(schema, from, h) && ItemsFit(items, cols, h) && MaybeFits(where, cols, h)
      && T.FitAll(groupBy, cols, 1) && MaybeFits(having, cols, h) && OrderFits(orderBy, cols)
    case Union(l, how, r) => T.Bare(how) && QueryFits(schema, l, h) && QueryFits(schema, r, h)
    case WithStar(_, body) => QueryFits(schema, body, h)
    case WithSelect(cte, body, items, alias, where) =>
      var cols := T.ColumnsOf(schema, CteName(cte), alias);
      QueryFits(schema, body, h) && ItemsFit(items, cols, h) && MaybeFits(where, cols, h)
    case Derived(body, _, where) => QueryFits(schema, body, h) && MaybeFits(where, [], h)
  }

  lemma {:induction false} ColumnFrom(schema: T.Schema, name: string, alias: nat, c: T.ColumnRef)
    requires c in T.ColumnsOf(schema, name, alias)
    ensures c.table == name && c.alias == alias && exists t :: t in schema && t.name == name && c.column in t.columns
  {
    if schema[0].name == name {
      var i :| 0 <= i < |schema[0].columns| && c == T.ColumnRef(name, alias, schema[0].columns[i]);
      assert schema[0] in schema && schema[0].columns[i] in schema[0].columns;
    } else {
      ColumnFrom(schema[1..], name, alias, c);
      var t :| t in schema[1..] && t.name == name && c.column in t.columns;
      assert t in schema;
    }
  }

  /** A column in scope is one of a table of the FROM clause, under the alias given to it there. */
  lemma {:induction false} InScope(schema: T.Schema, from: seq<FromItem>, c: T.ColumnRef) returns (k: nat)
    requires c in Columns(schema, from)
    ensures k < |from| && from[k].alias == c.alias && from[k].table == c.table
    ensures exists t :: t in schema && t.name == c.table && c.column in t.columns
  {
    var n := |from| - 1;
    if c in T.ColumnsOf(schema, from[n].table, from[n].alias) {
      ColumnFrom(schema, from[n].table, from[n].alias, c);
      k := n;
    } else {
      k := InScope(schema, from[..n], c);
    }
  }

  /** What an ON condition mentions has been introduced before it or by its own table. */
  lemma OnMentions(schema: T.Schema, from: seq<FromItem>, h: int, i: nat, c: T.ColumnRef) returns (k: nat)
    requires FromFits(schema, from, h) && i < |from| && from[i].Joined? && c in T.Refs(from[i].on)
    ensures k <= i && from[k].alias == c.alias && from[k].table == c.table
    ensures T.Height(from[i].on) <= h
  {
    FromAt(schema, from, h, i);
    T.FitsMeaning(from[i].on, Columns(schema, from[..i + 1]), h);
    k := InScope(schema, from[..i + 1], c);
  }

  // ---------------------------------------------------------------------------------------
  // Aliases

  function FromAliases(from: seq<FromItem>): (r: seq<nat>)
    ensures |r| == |from| && forall i :: 0 <= i < |from| ==> r[i] == from[i].alias
  {
    seq(|from|, i requires 0 <= i < |from| => from[i].alias)
  }

  /** All table aliases of a query. */
  function Aliases(q: Query): seq<nat> {
    match q
    case SelectOne => []
    case Plain(_, _, from, _, _, _, _, _) => FromAliases(from)
    case Union(l, _, r) => Aliases(l) + Aliases(r)
    case WithStar(_, body) => Aliases(body)
    case WithSelect(_, body, _, alias, _) => Aliases(body) + [alias]
    case Derived(body, alias, _) => Aliases(body) + [alias]
  }

  predicate Rising(s: seq<nat>, lo: nat, hi: nat) {
    (forall i :: 0 <= i < |s| ==> lo <= s[i] < hi) && forall i, j :: 0 <= i < j < |s| ==> s[i] < s[j]
  }

  lemma RisingConcat(a: seq<nat>, b: seq<nat>, lo: nat, mid: nat, hi: nat)
    requires Rising(a, lo, mid) && Rising(b, mid, hi) && lo <= mid <= hi
    ensures Rising(a + b, lo, hi)
  {
  }

  lemma {:induction false} DigitsLength(n: nat)
    ensures n < 10 ==> |T.Digits(n)| == 1
    ensures n >= 10 ==> |T.Digits(n)| > 1
  {
    if n >= 10 {
      DigitsLength(n / 10);
    }
  }

  /** Different numbers have different digits. */
  lemma {:induction false} DigitsInjective(m: nat, n: nat)
    requires T.Digits(m) == T.Digits(n)
    ensures m == n
  {
    DigitsLength(m);
    DigitsLength(n);
    if m < 10 {
      assert T.Digits(m)[0] == T.Digits(n)[0];
    } else {
      var a, b := T.Digits(m / 10), T.Digits(n / 10);
      assert a + [T.Digit(m % 10)] == b + [T.Digit(n % 10)];
      assert a == (a + [T.Digit(m % 10)])[..|a|] && b == (b + [T.Digit(n % 10)])[..|b|];
      assert (a + [T.Digit(m % 10)])[|a|] == T.Digit(m % 10);
      DigitsInjective(m / 10, n / 10);
    }
  }

  /** The table aliases of a query are different names. */
  lemma AliasesDiffer(q: Query, lo: nat, hi: nat, i: nat, j: nat)
    requires Rising(Aliases(q), lo, hi) && i < j < |Aliases(q)|
    ensures T.AliasName(Aliases(q)[i]) != T.AliasName(Aliases(q)[j])
  {
    var a, b := Aliases(q)[i], Aliases(q)[j];
    if T.AliasName(a) == T.AliasName(b) {
      assert T.AliasName(a)[1..] == T.Digits(a) && T.AliasName(b)[1..] == T.Digits(b);
      DigitsInjective(a, b);
    }
  }

  // ---------------------------------------------------------------------------------------
  // Writing out

  function ShowFrom(f: FromItem): string {
    match f
    case First(table, alias) => table + " AS " + T.AliasName(alias)
    case Listed(table, alias) => table + " AS " + T.AliasName(alias)
    case Joined(how, table, alias, on) => how + " JOIN " + table + " AS " + T.AliasName(alias) + " ON " + T.Show(on)
  }

  function ShowItem(i: SelectItem): string {
    T.Show(i.e) + (" AS ref" + T.Digits(i.alias))
  }

  function ShowOrder(o: OrderItem): string {
    T.Show(o.e) + (if o.desc then " DESC" else " ASC")
  }

  function Clause(word: string, text: string): string {
    if text == "" then "" else word + text
  }

  function MaybeShow(e: Option<T.Expr>): string {
    if e.Some? then T.Show(e.value) else ""
  }

  function Show(q: Query): string {
    match q
    case SelectOne => "SELECT 1"
    case Plain(distinct, items, from, where, groupBy, having, orderBy, limit) =>
      "SELECT " + (if distinct then "DISTINCT " else "") + T.Join(T.MapText(items, ShowItem), ", ")
      + (" FROM " + T.Join(T.MapText(from, ShowFrom), " "))
      + Clause(" WHERE ", MaybeShow(where)) + Clause(" GROUP BY ", T.Join(T.ShowAll(groupBy), ", "))
      + Clause(" HAVING ", MaybeShow(having)) + Clause(" ORDER BY ", T.Join(T.MapText(orderBy, ShowOrder), ", "))
      + (if limit.Some? then " LIMIT " + T.Digits(limit.value) else "")
    case Union(l, how, r) => "(" + Show(l) + (") " + how + " (") + Show(r) + ")"
    case WithStar(cte, body) => "WITH " + CteName(cte) + " AS (" + Show(body) + (") SELECT * FROM " + CteName(cte))
    case WithSelect(cte, body, items, alias, where) =>
      "WITH " + CteName(cte) + " AS (" + Show(body) + ") SELECT " + T.Join(T.MapText(items, ShowItem), ", ")
      + (" FROM " + CteName(cte) + " AS " + T.AliasName(alias)) + Clause(" WHERE ", MaybeShow(where))
    case Derived(body, alias, where) =>
      "SELECT * FROM (" + Show(body) + (") AS " + T.AliasName(alias)) + Clause(" WHERE ", MaybeShow(where))
  }

  // ---------------------------------------------------------------------------------------
  // What is written is closed

  lemma CteBare(cte: nat)
    ensures T.Bare(CteName(cte))
  {
    T.DigitsBare(cte);
  }

  lemma ClauseClosed(word: string, text: string)
    requires T.Bare(word) && Closed(text)
    ensures Closed(Clause(word, text))
  {
    T.BareClosed(word);
    T.ClosedConcat(word, text);
  }

  lemma MaybeClosed(e: Option<T.Expr>, cols: seq<T.ColumnRef>, h: int)
    requires MaybeFits(e, cols, h)
    ensures Closed(MaybeShow(e))
  {
    if e.Some? {
      T.ShowClosed(e.value, cols, h);
    }
  }

  lemma MaybeClause(word: string, e: Option<T.Expr>, cols: seq<T.ColumnRef>, h: int)
    requires T.Bare(word) && MaybeFits(e, cols, h)
    ensures Closed(Clause(word, MaybeShow(e)))
  {
    MaybeClosed(e, cols, h);
    ClauseClosed(word, MaybeShow(e));
  }

  lemma ItemsClosed(items: seq<SelectItem>, cols: seq<T.ColumnRef>, h: int)
    requires ItemsFit(items, cols, h)
    ensures Closed(T.Join(T.MapText(items, ShowItem), ", "))
  {
    var texts := T.MapText(items, ShowItem);
    forall i | 0 <= i < |items| ensures Closed(texts[i]) {
      T.ShowClosed(items[i].e, cols, h);
      T.DigitsBare(items[i].alias);
      T.BareClosed(" AS ref" + T.Digits(items[i].alias));
      T.ClosedConcat(T.Show(items[i].e), " AS ref" + T.Digits(items[i].alias));
    }
    T.JoinClosed(texts, ", ");
  }

  lemma OrderClosed(items: seq<OrderItem>, cols: seq<T.ColumnRef>)
    requires OrderFits(items, cols)
    ensures Closed(T.Join(T.MapText(items, ShowOrder), ", "))
  {
    var texts := T.MapText(items, ShowOrder);
    forall i | 0 <= i < |items| ensures Closed(texts[i]) {
      T.ShowClosed(items[i].e, cols, 1);
      T.BareClosed(if items[i].desc then " DESC" else " ASC");
      T.ClosedConcat(T.Show(items[i].e), if items[i].desc then " DESC" else " ASC");
    }
    T.JoinClosed(texts, ", ");
  }

  lemma {:induction false} FromAt(schema: T.Schema, from: seq<FromItem>, h: int, i: nat)
    requires FromFits(schema, from, h) && i < |from|
    ensures T.Bare(from[i].table)
    ensures from[i].Joined? ==> T.Bare(from[i].how) && T.Fits(from[i].on, Columns(schema, from[..i + 1]), h)
  {
    var k := |from| - 1;
    if i < k {
      FromAt(schema, from[..k], h, i);
      assert from[..k][..i + 1] == from[..i + 1];
    } else {
      assert from[..i + 1] == from;
    }
  }

  lemma FromItemClosed(schema: T.Schema, from: seq<FromItem>, h: int, i: nat)
    requires FromFits(schema, from, h) && i < |from|
    ensures Closed(ShowFrom(from[i]))
  {
    var f := from[i];
    FromAt(schema, from, h, i);
    T.AliasBare(f.alias);
    if f.Joined? {
      T.ShowClosed(f.on, Columns(schema, from[..i + 1]), h);
      var head := f.how + " JOIN " + f.table + " AS " + T.AliasName(f.alias) + " ON ";
      T.BareClosed(head);
      T.ClosedConcat(head, T.Show(f.on));
    } else {
      T.BareClosed(f.table + " AS " + T.AliasName(f.alias));
    }
  }

  lemma FromClosed(schema: T.Schema, from: seq<FromItem>, h: int)
    requires FromFits(schema, from, h)
    ensures Closed(" FROM " + T.Join(T.MapText(from, ShowFrom), " "))
  {
    var texts := T.MapText(from, ShowFrom);
    forall i | 0 <= i < |from| ensures Closed(texts[i]) {
      FromItemClosed(schema, from, h, i);
    }
    T.JoinClosed(texts, " ");
    T.BareClosed(" FROM ");
    T.ClosedConcat(" FROM ", T.Join(texts, " "));
  }

  lemma Seven(a: string, b: string, c: string, d: string, e: string, f: string, g: string)
    requires Closed(a) && Closed(b) && Closed(c) && Closed(d) && Closed(e) && Closed(f) && Closed(g)
    ensures Closed(a + b + c + d + e + f + g)
  {
    T.ClosedConcat(a, b);
    T.ClosedConcat(a + b, c);
    T.ClosedConcat(a + b + c, d);
    T.ClosedConcat(a + b + c + d, e);
    T.ClosedConcat(a + b + c + d + e, f);
    T.ClosedConcat(a + b + c + d + e + f, g);
  }

  lemma HeadClosed(distinct: bool, items: string)
    requires Closed(items)
    ensures Closed("SELECT " + (if distinct then "DISTINCT " else "") + items)
  {
    var head := "SELECT " + (if distinct then "DISTINCT " else "");
    T.BareClosed(head);
    T.ClosedConcat(head, items);
  }

  lemma LimitClosed(limit: Option<nat>)
    ensures Closed(if limit.Some? then " LIMIT " + T.Digits(limit.value) else "")
  {
    if limit.Some? {
      T.DigitsBare(limit.value);
      T.BareClosed(" LIMIT " + T.Digits(limit.value));
    }
  }

  lemma PlainClosed(schema: T.Schema, q: Query, h: int)
    requires q.Plain? && QueryFits(schema, q, h)
    ensures Closed(Show(q))
  {
    var cols := Columns(schema, q.from);
    ItemsClosed(q.items, cols, h);
    HeadClosed(q.distinct, T.Join(T.MapText(q.items, ShowItem), ", "));
    FromClosed(schema, q.from, h);
    MaybeClause(" WHERE ", q.where, cols, h);
    T.ListClosed(q.groupBy, cols, 1);
    ClauseClosed(" GROUP BY ", T.Join(T.ShowAll(q.groupBy), ", "));
    MaybeClause(" HAVING ", q.having, cols, h);
    OrderClosed(q.orderBy, cols);
    ClauseClosed(" ORDER BY ", T.Join(T.MapText(q.orderBy, ShowOrder), ", "));
    LimitClosed(q.limit);
    Seven("SELECT " + (if q.distinct then "DISTINCT " else "") + T.Join(T.MapText(q.items, ShowItem), ", "),
          " FROM " + T.Join(T.MapText(q.from, ShowFrom), " "), Clause(" WHERE ", MaybeShow(q.where)),
          Clause(" GROUP BY ", T.Join(T.ShowAll(q.groupBy), ", ")), Clause(" HAVING ", MaybeShow(q.having)),
          Clause(" ORDER BY ", T.Join(T.MapText(q.orderBy, ShowOrder), ", ")),
          if q.limit.Some? then " LIMIT " + T.Digits(q.limit.value) else "");
  }

  lemma WithSelectClosed(schema: T.Schema, q: Query, h: int)
    requires q.WithSelect? && QueryFits(schema, q, h) && Closed(Show(q.body))
    ensures Closed(Show(q))
  {
    var cols := T.ColumnsOf(schema, CteName(q.cte), q.alias);
    ItemsClosed(q.items, cols, h);
    MaybeClause(" WHERE ", q.where, cols, h);
    CteBare(q.cte);
    T.AliasBare(q.alias);
    var head := "WITH " + CteName(q.cte) + " AS (";
    var items := T.Join(T.MapText(q.items, ShowItem), ", ");
    var tail := " FROM " + CteName(q.cte) + " AS " + T.AliasName(q.alias);
    T.InClosed(head, Show(q.body), ") SELECT ", items, tail);
    T.ClosedConcat(head + Show(q.body) + ") SELECT " + items + tail, Clause(" WHERE ", MaybeShow(q.where)));
  }

  lemma DerivedClosed(schema: T.Schema, q: Query, h: int)
    requires q.Derived? && QueryFits(schema, q, h) && Closed(Show(q.body))
    ensures Closed(Show(q))
  {
    MaybeClause(" WHERE ", q.where, [], h);
    T.AliasBare(q.alias);
    T.Closed3("SELECT * FROM (", Show(q.body), ") AS " + T.AliasName(q.alias));
    T.ClosedConcat("SELECT * FROM (" + Show(q.body) + (") AS " + T.AliasName(q.alias)),
        Clause(" WHERE ", MaybeShow(q.where)));
  }

  /** A query that fits is written with its quotes closed and without a semicolon outside them. */
  lemma {:induction false} QueryClosed(schema: T.Schema, q: Query, h: int)
    requires QueryFits(schema, q, h)
    ensures Closed(Show(q))
  {
    match q
    case SelectOne => T.BareClosed("SELECT 1");
    case Plain(_, _, _, _, _, _, _, _) => PlainClosed(schema, q, h);
    case Union(l, how, r) =>
      QueryClosed(schema, l, h);
      QueryClosed(schema, r, h);
      T.InClosed("(", Show(l), ") " + how + " (", Show(r), ")");
    case WithStar(cte, body) =>
      QueryClosed(schema, body, h);
      CteBare(cte);
      T.Closed3("WITH " + CteName(cte) + " AS (", Show(body), ") SELECT * FROM " + CteName(cte));
    case WithSelect(_, body, _, _, _) =>
      QueryClosed(schema, body, h);
      WithSelectClosed(schema, q, h);
    case Derived(body, _, _) =>
      QueryClosed(schema, body, h);
      DerivedClosed(schema, q, h);
  }
}
