/**
 FROM clauses, the four shapes of queries, and the file of generated statements.
 */
module QueryGenerator {
  import opened Sql
  import opened Splitter
  import opened SqlText
  import opened Generator
  import Q = SqlQuery

  datatype Toggles = Toggles(join: bool, selfJoin: bool, subquery: bool, union: bool, cte: bool,
                             groupBy: bool, orderBy: bool, limit: bool)

  lemma {:induction false} ColumnsAreNice(schema: Schema, from: seq<Q.FromItem>)
    requires Nice(schema)
    ensures NiceColumns(Q.Columns(schema, from))
  {
    if from != [] {
      var k := |from| - 1;
      ColumnsAreNice(schema, from[..k]);
      ColumnsNice(schema, from[k].table, from[k].alias);
    }
  }

  /** A FROM clause under construction: its scopes are right, and its aliases are the newest. */
  predicate Building(schema: Schema, from: seq<Q.FromItem>, h: int, cols: seq<ColumnRef>, lo: nat, hi: nat) {
    lo <= hi && Q.FromFits(schema, from, h) && cols == Q.Columns(schema, from) && Q.Rising(Q.FromAliases(from), lo, hi)
  }

  lemma AddItem(schema: Schema, from: seq<Q.FromItem>, h: int, cols: seq<ColumnRef>, lo: nat, hi: nat, item: Q.FromItem)
    requires Building(schema, from, h, cols, lo, hi) && item.alias == hi && Bare(item.table)
    requires item.Joined? ==> Bare(item.how) && Fits(item.on, cols + ColumnsOf(schema, item.table, item.alias), h)
    ensures Building(schema, from + [item], h, cols + ColumnsOf(schema, item.table, item.alias), lo, hi + 1)
  {
    assert (from + [item])[..|from|] == from;
    assert Q.FromAliases(from + [item]) == Q.FromAliases(from) + [hi];
  }

  class QueryGenerator {
    const g: ExprGenerator
    const schema: Schema
    const enable: Toggles
    const postgres: bool
    var tableAliasSeq: nat
    var colAliasSeq: nat
    var cteNameSeq: nat

    constructor (g: ExprGenerator, schema: Schema, enable: Toggles, postgres: bool)
      ensures this.g == g && this.schema == schema
    {
      this.g, this.schema, this.enable, this.postgres := g, schema, enable, postgres;
      tableAliasSeq, colAliasSeq, cteNameSeq := 0, 0, 0;
    }

    function Limit(): int {
      g.BoolHeight(0)
    }

    method NextTableAlias() returns (alias: nat)
      modifies this`tableAliasSeq
      ensures alias == old(tableAliasSeq) && tableAliasSeq == alias + 1
    {
      alias := tableAliasSeq;
      tableAliasSeq := tableAliasSeq + 1;
    }

    method JoinType() returns (how: string)
      modifies g.rand
      ensures Bare(how)
    {
      var choice := g.D(6);
      how := if choice <= 3 then "INNER" else if choice <= 5 then "LEFT" else "RIGHT";
    }

    /** Two key columns of matching type, or else any condition over the tables so far. */
    method JoinOnClause(cols: seq<ColumnRef>) returns (on: Expr)
      requires NiceColumns(cols)
      modifies g.rand
      ensures Fits(on, cols, Limit())
    {
      for i := 0 to |cols| {
        if cols[i].column.isKey {
          for j := 0 to |cols| {
            if j != i && cols[j].column.isKey && TypeMatch(cols[j].column.ty, cols[i].column.ty) {
              assert cols[i] in cols && cols[j] in cols;
              on := Equate(Col(cols[i]), Col(cols[j]));
              FitsMore(on, cols, 2, cols, Limit());
              return;
            }
          }
        }
      }
      on := g.BoolExpr(cols, 0);
    }

    /** One more joined table: its condition already sees it. */
    method Join(how: string, table: string, scope: Scope, ghost from: seq<Q.FromItem>,
          ghost lo: nat) returns (item: Q.FromItem)
      requires Nice(schema) && scope.schema == schema && Bare(how) && Bare(table)
      requires Building(schema, from, Limit(), scope.columns, lo, tableAliasSeq)
      modifies this`tableAliasSeq, g.rand, scope
      ensures Building(schema, from + [item], Limit(), scope.columns, lo, tableAliasSeq)
      ensures scope.tables == old(scope.tables) + [(table, old(tableAliasSeq))]
    {
      var alias := NextTableAlias();
      scope.AddTable(table, alias);
      ColumnsAreNice(schema, from);
      ColumnsNice(schema, table, alias);
      var on := JoinOnClause(scope.columns);
      item := Q.Joined(how, table, alias, on);
      AddItem(schema, from, Limit(), old(scope.columns), lo, alias, item);
    }

    method PickTables(n: nat) returns (tables: seq<Table>)
      requires schema != []
      modifies g.rand
      ensures |tables| == n && forall i :: 0 <= i < n ==> tables[i] in schema
    {
      tables := [];
      for i := 0 to n
        invariant |tables| == i && forall k :: 0 <= k < i ==> tables[k] in schema
      {
        var t := g.Pick(schema);
        tables := tables + [t];
      }
    }

    ghost predicate BareTables(tables: seq<(string, nat)>) {
      forall i :: 0 <= i < |tables| ==> Bare(tables[i].0)
    }

    /** Without tables there is no clause. Two tables can come without JOIN, listed one after the other. */
    method FromClause() returns (from: seq<Q.FromItem>, scope: Scope)
      requires Nice(schema)
      modifies this`tableAliasSeq, g.rand
      ensures fresh(scope) && scope.schema == schema
      ensures Building(schema, from, Limit(), scope.columns, old(tableAliasSeq), tableAliasSeq)
      ensures from == [] ==> schema == []
    {
      from := [];
      scope := new Scope(schema);
      ghost var lo := tableAliasSeq;
      if |schema| == 0 {
        return;
      }
      var numTables := g.RandInt(1, if |schema| < 2 then |schema| else 2);
      var selected := PickTables(numTables);
      var alias := NextTableAlias();
      scope.AddTable(selected[0].name, alias);
      assert selected[0] in schema;
      from := [Q.First(selected[0].name, alias)];
      AddItem(schema, [], Limit(), [], lo, lo, from[0]);
      for i := 1 to |selected|
        invariant fresh(scope) && scope.schema == schema && from != [] && |scope.tables| == i
            && BareTables(scope.tables)
        invariant Building(schema, from, Limit(), scope.columns, lo, tableAliasSeq)
      {
        assert selected[i] in schema;
        if enable.join {
          var how := JoinType();
          var item := Join(how, selected[i].name, scope, from, lo);
          from := from + [item];
        } else {
          ghost var cols := scope.columns;
          alias := NextTableAlias();
          scope.AddTable(selected[i].name, alias);
          AddItem(schema, from, Limit(), cols, lo, alias, Q.Listed(selected[i].name, alias));
          from := from + [Q.Listed(selected[i].name, alias)];
        }
      }
      if enable.join && enable.selfJoin && |scope.tables| > 0 {
        var d := g.D(6);
        if d <= 2 {
          var k := g.rand.Intn(|scope.tables|);
          var item := Join("INNER", scope.tables[k].0, scope, from, lo);
          from := from + [item];
        }
      }
    }

    method SelectList(cols: seq<ColumnRef>) returns (items: seq<Q.SelectItem>)
      requires NiceColumns(cols)
      modifies this`colAliasSeq, g.rand
      ensures Q.ItemsFit(items, cols, Limit()) && items != []
    {
      var n := g.RandInt(1, if |cols| < 3 then |cols| else 3);
      items := [];
      for i := 0 to n
        invariant |items| == i && Q.ItemsFit(items, cols, Limit())
        modifies this`colAliasSeq, g.rand
      {
        var alias := colAliasSeq;
        colAliasSeq := colAliasSeq + 1;
        var e := g.Expression(cols, 0, "any");
        FitsMore(e, cols, g.ExprHeight(0), cols, Limit());
        items := items + [Q.SelectItem(e, alias)];
      }
    }

    method GroupBy(cols: seq<ColumnRef>) returns (es: seq<Expr>)
      requires NiceColumns(cols) && cols != []
      modifies g.rand
      ensures FitAll(es, cols, 1)
    {
      var n := g.RandInt(1, if |cols| < 3 then |cols| else 3);
      es := [];
      for i := 0 to n
        invariant FitAll(es, cols, 1)
      {
        var e := g.PickColumn(cols);
        es := es + [e];
      }
    }

    method OrderBy(cols: seq<ColumnRef>) returns (items: seq<Q.OrderItem>)
      requires NiceColumns(cols) && cols != []
      modifies g.rand
      ensures Q.OrderFits(items, cols)
    {
      var n := g.RandInt(1, if |cols| < 2 then |cols| else 2);
      items := [];
      for i := 0 to n
        invariant Q.OrderFits(items, cols)
      {
        var e := g.PickColumn(cols);
        var asc := g.RandBool();
        items := items + [Q.OrderItem(e, !asc)];
      }
    }

    /** GROUP BY, perhaps with a HAVING condition, or neither. */
    method Grouping(cols: seq<ColumnRef>) returns (groupBy: seq<Expr>, having: Option<Expr>)
      requires NiceColumns(cols)
      modifies g.rand
      ensures FitAll(groupBy, cols, 1) && Q.MaybeFits(having, cols, Limit())
    {
      groupBy, having := [], None;
      if enable.groupBy {
        var d := g.D(6);
        if d <= 2 && |cols| > 0 {
          groupBy := GroupBy(cols);
          d := g.D(6);
          if d <= 4 {
            var e := g.BoolExpr(cols, 0);
            having := Some(e);
          }
        }
      }
    }

    method Ordering(cols: seq<ColumnRef>) returns (orderBy: seq<Q.OrderItem>, limit: Option<nat>)
      requires NiceColumns(cols)
      modifies g.rand
      ensures Q.OrderFits(orderBy, cols)
    {
      orderBy, limit := [], None;
      if enable.orderBy {
        var b := g.RandBool();
        if b && |cols| > 0 {
          orderBy := OrderBy(cols);
        }
      }
      if enable.limit && orderBy != [] {
        var b := g.RandBool();
        if b {
          var n := g.RandInt(1, 50);
          limit := Some(n);
        }
      }
    }

    /** The query fits its scopes, and its aliases are the ones taken meanwhile. */
    ghost predicate Good(q: Q.Query, lo: nat)
      reads this`tableAliasSeq
    {
      lo <= tableAliasSeq && Q.QueryFits(schema, q, Limit()) && Q.Rising(Q.Aliases(q), lo, tableAliasSeq)
    }

    method PlainSelect() returns (q: Q.Query)
      requires Nice(schema)
      modifies this`tableAliasSeq, this`colAliasSeq, g.rand
      ensures Good(q, old(tableAliasSeq))
    {
      var from, scope := FromClause();
      if from == [] {
        return Q.SelectOne;
      }
      var cols := scope.columns;
      ColumnsAreNice(schema, from);
      var items := SelectList(cols);
      var d := g.D(6);
      var distinct := d == 1;
      var where: Option<Expr> := None;
      if |cols| > 0 {
        d := g.D(6);
        if d <= 5 {
          var e := g.WhereExpr(cols, 0);
          where := Some(e);
        }
      }
      var groupBy, having := Grouping(cols);
      var orderBy, limit := Ordering(cols);
      q := Q.Plain(distinct, items, from, where, groupBy, having, orderBy, limit);
    }

    method UnionSelect() returns (q: Q.Query)
      requires Nice(schema)
      modifies this`tableAliasSeq, this`colAliasSeq, g.rand
      ensures Good(q, old(tableAliasSeq))
    {
      var l := PlainSelect();
      ghost var mid := tableAliasSeq;
      var r := PlainSelect();
      var b := g.RandBool();
      var how := if !b then "UNION ALL" else if postgres then "UNION" else "UNION DISTINCT";
      Q.RisingConcat(Q.Aliases(l), Q.Aliases(r), old(tableAliasSeq), mid, tableAliasSeq);
      q := Q.Union(l, how, r);
    }

    /** The columns of a common table expression are unknown, unless a table has the same name. */
    method CteSelect() returns (q: Q.Query)
      requires Nice(schema)
      modifies this, g.rand
      ensures Good(q, old(tableAliasSeq))
    {
      var cte := cteNameSeq;
      cteNameSeq := cteNameSeq + 1;
      var body := PlainSelect();
      var scope := new Scope(schema);
      ghost var mid := tableAliasSeq;
      var alias := NextTableAlias();
      scope.AddTable(Q.CteName(cte), alias);
      var cols := scope.columns;
      assert cols == ColumnsOf(schema, Q.CteName(cte), alias);
      if |cols| == 0 {
        return Q.WithStar(cte, body);
      }
      ColumnsNice(schema, Q.CteName(cte), alias);
      var items := SelectList(cols);
      var where: Option<Expr> := None;
      var b := g.RandBool();
      if b && |cols| > 0 {
        var e := g.BoolExpr(cols, 0);
        where := Some(e);
      }
      Q.RisingConcat(Q.Aliases(body), [alias], old(tableAliasSeq), mid, tableAliasSeq);
      q := Q.WithSelect(cte, body, items, alias, where);
    }

    /** The columns of a derived table are unknown, so its condition has none to refer to. */
    method DerivedSelect() returns (q: Q.Query)
      requires Nice(schema)
      modifies this`tableAliasSeq, this`colAliasSeq, g.rand
      ensures Good(q, old(tableAliasSeq))
    {
      var body := PlainSelect();
      ghost var mid := tableAliasSeq;
      var alias := NextTableAlias();
      var where: Option<Expr> := None;
      var b := g.RandBool();
      if b {
        var e := g.BoolExpr([], 0);
        where := Some(e);
      }
      Q.RisingConcat(Q.Aliases(body), [alias], old(tableAliasSeq), mid, tableAliasSeq);
      q := Q.Derived(body, alias, where);
    }

    /** One query, with all counters starting again. */
    method GenerateSelect() returns (q: Q.Query)
      requires Nice(schema)
      modifies this, g.rand
      ensures Good(q, 0)
    {
      tableAliasSeq, colAliasSeq, cteNameSeq := 0, 0, 0;
      var shape := g.rand.Intn(4);
      if shape == 1 && enable.union {
        q := UnionSelect();
      } else if shape == 2 && enable.cte {
        q := CteSelect();
      } else if shape == 3 && enable.subquery {
        q := DerivedSelect();
      } else {
        q := PlainSelect();
      }
    }

    /** The statements as texts: every one of them can be told apart again in a file. */
    method GenerateSelects(n: nat) returns (sqls: seq<string>)
      requires Nice(schema)
      modifies this, g.rand
      ensures |sqls| == n && forall i :: 0 <= i < n ==> Closed(sqls[i])
    {
      sqls := [];
      for i := 0 to n
        invariant |sqls| == i && forall k :: 0 <= k < i ==> Closed(sqls[k])
      {
        var q := GenerateSelect();
        Q.QueryClosed(schema, q, Limit());
        sqls := sqls + [Q.Show(q)];
      }
    }

    /** The file of generated statements, read back: the same statements, with numbers 0 to n - 1. */
    method WriteAndRead(n: nat) returns (sqls: seq<string>, res: seq<EachSql>)
      requires Nice(schema)
      modifies this, g.rand
      ensures |sqls| == |res| == n
      ensures forall i :: 0 <= i < n ==> res[i] == EachSql(i, (if i == 0 then "" else "\n") + sqls[i] + ";")
    {
      sqls := GenerateSelects(n);
      var content := "";
      for i := 0 to n
        invariant content == Written(sqls[..i])
      {
        WrittenNext(sqls, i);
        content := content + (sqls[i] + ";\n");
      }
      assert sqls[..n] == sqls;
      res := ExtractSQL(content);
      if n > 0 {
        WriteThenRead(sqls, 0);
      } else {
        assert Written([]) == [] && Pieces([]) == [];
      }
      forall i | 0 <= i < n ensures res[i] == EachSql(i, (if i == 0 then "" else "\n") + sqls[i] + ";") {
        WriteThenRead(sqls, i);
      }
    }
  }

  lemma {:induction false} WrittenConcat(a: seq<string>, b: seq<string>)
    ensures Written(a + b) == Written(a) + Written(b)
  {
    if a == [] {
      assert a + b == b;
    } else {
      WrittenConcat(a[1..], b);
      assert (a + b)[0] == a[0] && (a + b)[1..] == a[1..] + b;
      assert a[0] + ";\n" + (Written(a[1..]) + Written(b)) == a[0] + ";\n" + Written(a[1..]) + Written(b);
    }
  }

  lemma WrittenNext(qs: seq<string>, i: nat)
    requires i < |qs|
    ensures Written(qs[..i + 1]) == Written(qs[..i]) + (qs[i] + ";\n")
  {
    assert qs[..i + 1] == qs[..i] + [qs[i]];
    WrittenConcat(qs[..i], [qs[i]]);
    assert Written([qs[i]]) == qs[i] + ";\n" + Written([]);
  }
}
