/**
 What the random generator builds: expressions and queries as trees, how they are written out,
 and what it means for them to fit a scope.
 */
module SqlText {
  import opened Splitter

  // ---------------------------------------------------------------------------------------
  // The schema

  datatype Column = Column(name: string, ty: string, isKey: bool)
  datatype Table = Table(name: string, columns: seq<Column>)
  type Schema = seq<Table>

  // A column as a scope offers it; the alias is the number in t0, t1, ...
  datatype ColumnRef = ColumnRef(table: string, alias: nat, column: Column)

  /** Text without quotes and without semicolons. */
  predicate Bare(s: string) {
    forall i :: 0 <= i < |s| ==> !IsQuote(s[i]) && s[i] != ';'
  }

  /** Text that may stand between single quotes. */
  predicate Quotable(s: string) {
    '\'' !in s && '\\' !in s
  }

  /** The type up to its parenthesis. */
  function NormalizeType(ty: string): string {
    if ty == [] || ty[0] == '(' then [] else [ty[0]] + NormalizeType(ty[1..])
  }

  predicate TypeMatch(actualType: string, wanted: string) {
    if wanted == "" || wanted == "any" then true
    else
      var actual, req := NormalizeType(actualType), NormalizeType(wanted);
      || actual == req
      || (req == "int" && actual in {"int", "bigint", "smallint", "tinyint", "mediumint"})
      || (req == "float" && actual in {"float", "double", "decimal", "numeric"})
      || (req == "string" && actual in {"varchar", "char", "text", "longtext", "mediumtext", "tinytext", "enum"})
      || (req == "bool" && actual in {"tinyint", "bool", "boolean"})
  }

  /** The quoted values of an ENUM type: from the first parenthesis to the next one outside quotes. */
  function EnumValues(ty: string): seq<string> {
    if |ty| < 6 || ty[..4] != "enum" then [] else QuotedParts(BehindParen(ty), NotQuoted, [])
  }

  function BehindParen(s: string): string {
    if s == [] then [] else if s[0] == '(' then s[1..] else BehindParen(s[1..])
  }

  datatype Current = NotQuoted | Quoted(text: string)

  function QuotedParts(s: string, current: Current, values: seq<string>): seq<string> {
    if s == [] then values
    else if s[0] == '\'' then
      if current.Quoted? then QuotedParts(s[1..], NotQuoted, values + [current.text])
      else QuotedParts(s[1..], Quoted(""), values)
    else if current.Quoted? then QuotedParts(s[1..], Quoted(current.text + [s[0]]), values)
    else if s[0] == ')' then values
    else QuotedParts(s[1..], NotQuoted, values)
  }

  /** Names without quotes or semicolons, and no backslash in a type. */
  predicate NiceColumn(c: Column) {
    Bare(c.name) && '\\' !in c.ty
  }

  predicate Nice(schema: Schema) {
    forall t :: t in schema ==> Bare(t.name) && forall c :: c in t.columns ==> NiceColumn(c)
  }

  /** The columns a table brings under an alias: those of the first table of that name. */
  function ColumnsOf(schema: Schema, name: string, alias: nat): seq<ColumnRef> {
    if schema == [] then []
    else if schema[0].name == name then
      seq(|schema[0].columns|, i requires 0 <= i < |schema[0].columns| => ColumnRef(name, alias, schema[0].columns[i]))
    else ColumnsOf(schema[1..], name, alias)
  }

  lemma {:induction false} ColumnsNice(schema: Schema, name: string, alias: nat)
    requires Nice(schema)
    ensures forall c :: c in ColumnsOf(schema, name, alias) ==> NiceColumn(c.column) && c.alias == alias
  {
    if schema != [] {
      if schema[0].name == name {
        assert schema[0] in schema;
        forall c | c in ColumnsOf(schema, name, alias) ensures NiceColumn(c.column) && c.alias == alias {
          var i :| 0 <= i < |schema[0].columns| && c == ColumnRef(name, alias, schema[0].columns[i]);
          assert schema[0].columns[i] in schema[0].columns;
        }
      } else {
        assert forall t :: t in schema[1..] ==> t in schema;
        ColumnsNice(schema[1..], name, alias);
      }
    }
  }

  // ---------------------------------------------------------------------------------------
  // Expressions

  datatype Expr =
    | Col(c: ColumnRef)
    | Const(text: string)
    | Op(op: string, l: Expr, r: Expr)              // (l op r)
    | Equate(l: Expr, r: Expr)                      // l = r
    | Call(name: string, args: seq<Expr>)           // name(a, b)
    | CastAs(e: Expr, ty: string)                   // CAST(e AS ty)
    | Case(cond: Expr, yes: Expr, no: Expr)
    | In(e: Expr, neg: bool, list: seq<Expr>)       // (e) NOT IN (a, b)
    | InColumn(e: Expr, neg: bool, list: seq<Expr>) // (e NOT IN (a, b))
    | IsNull(e: Expr, neg: bool)
    | Between(e: Expr, neg: bool, lo: Expr, hi: Expr)
    | Like(e: Expr, neg: bool, pattern: Expr)

  /**
   The expression uses columns of `cols` only, is at most `h` deep, and its texts are harmless.
   A NOT belongs to its predicate and adds no level.
   */
  predicate Fits(e: Expr, cols: seq<ColumnRef>, h: int)
    decreases e
  {
    h > 0 &&
    match e
    case Col(c) => c in cols && NiceColumn(c.column)
    case Const(text) => Closed(text)
    case Op(op, l, r) => Bare(op) && Fits(l, cols, h - 1) && Fits(r, cols, h - 1)
    case Equate(l, r) => Fits(l, cols, h - 1) && Fits(r, cols, h - 1)
    case Call(name, args) => Bare(name) && FitAll(args, cols, h - 1)
    case CastAs(x, ty) => Bare(ty) && Fits(x, cols, h - 1)
    case Case(c, y, n) => Fits(c, cols, h - 1) && Fits(y, cols, h - 1) && Fits(n, cols, h - 1)
    case In(x, _, list) => Fits(x, cols, h - 1) && FitAll(list, cols, h - 1)
    case InColumn(x, _, list) => Fits(x, cols, h - 1) && FitAll(list, cols, h - 1)
    case IsNull(x, _) => Fits(x, cols, h - 1)
    case Between(x, _, lo, hi) => Fits(x, cols, h - 1) && Fits(lo, cols, h - 1) && Fits(hi, cols, h - 1)
    case Like(x, _, p) => Fits(x, cols, h - 1) && Fits(p, cols, h - 1)
  }

  predicate FitAll(es: seq<Expr>, cols: seq<ColumnRef>, h: int)
    decreases es
  {
    forall i :: 0 <= i < |es| ==> Fits(es[i], cols, h)
  }

  lemma {:induction false} FitsMore(e: Expr, cols: seq<ColumnRef>, h: int, cols': seq<ColumnRef>, h': int)
    requires Fits(e, cols, h) && h <= h' && forall c :: c in cols ==> c in cols'
    ensures Fits(e, cols', h')
    decreases e
  {
    match e
    case Col(_) =>
    case Const(_) =>
    case Op(_, l, r) => FitsMore(l, cols, h - 1, cols', h' - 1); FitsMore(r, cols, h - 1, cols', h' - 1);
    case Equate(l, r) => FitsMore(l, cols, h - 1, cols', h' - 1); FitsMore(r, cols, h - 1, cols', h' - 1);
    case Call(_, args) => FitAllMore(args, cols, h - 1, cols', h' - 1);
    case CastAs(x, _) => FitsMore(x, cols, h - 1, cols', h' - 1);
    case Case(c, y, n) =>
      FitsMore(c, cols, h - 1, cols', h' - 1);
      FitsMore(y, cols, h - 1, cols', h' - 1);
      FitsMore(n, cols, h - 1, cols', h' - 1);
    case In(x, _, list) => FitsMore(x, cols, h - 1, cols', h' - 1); FitAllMore(list, cols, h - 1, cols', h' - 1);
    case InColumn(x, _, list) => FitsMore(x, cols, h - 1, cols', h' - 1); FitAllMore(list, cols, h - 1, cols', h' - 1);
    case IsNull(x, _) => FitsMore(x, cols, h - 1, cols', h' - 1);
    case Between(x, _, lo, hi) =>
      FitsMore(x, cols, h - 1, cols', h' - 1);
      FitsMore(lo, cols, h - 1, cols', h' - 1);
      FitsMore(hi, cols, h - 1, cols', h' - 1);
    case Like(x, _, p) => FitsMore(x, cols, h - 1, cols', h' - 1); FitsMore(p, cols, h - 1, cols', h' - 1);
  }

  lemma {:induction false} FitAllMore(es: seq<Expr>, cols: seq<ColumnRef>, h: int, cols': seq<ColumnRef>, h': int)
    requires FitAll(es, cols, h) && h <= h' && forall c :: c in cols ==> c in cols'
    ensures FitAll(es, cols', h')
    decreases es
  {
    forall i | 0 <= i < |es| ensures Fits(es[i], cols', h') {
      FitsMore(es[i], cols, h, cols', h');
    }
  }

  // ---------------------------------------------------------------------------------------
  // Writing out

  function Digit(n: nat): char
    requires n < 10
  {
    ('0' as int + n) as char
  }

  function Digits(n: nat): string {
    if n < 10 then [Digit(n)] else Digits(n / 10) + [Digit(n % 10)]
  }

  function Join(parts: seq<string>, sep: string): string {
    if parts == [] then [] else if |parts| == 1 then parts[0]
    else Join(parts[..|parts| - 1], sep) + sep + parts[|parts| - 1]
  }

  function AliasName(alias: nat): string {
    "t" + Digits(alias)
  }

  function NotText(neg: bool): string {
    if neg then "NOT " else ""
  }

  function Show(e: Expr): string
    decreases e
  {
    match e
    case Col(c) => AliasName(c.alias) + "." + c.column.name
    case Const(text) => text
    case Op(op, l, r) => "(" + Show(l) + (" " + op + " ") + Show(r) + ")"
    case Equate(l, r) => Show(l) + " = " + Show(r)
    case Call(name, args) => name + "(" + Join(ShowAll(args), ", ") + ")"
    case CastAs(x, ty) => "CAST(" + Show(x) + (" AS " + ty + ")")
    case Case(c, y, n) => "CASE WHEN " + Show(c) + " THEN " + Show(y) + " ELSE " + Show(n) + " END"
    case In(x, neg, list) => "(" + Show(x) + (if neg then ") NOT IN (" else ") IN (") + Join(ShowAll(list), ", ") + ")"
    case InColumn(x, neg, list) => "(" + Show(x) + (" " + NotText(neg) + "IN (") + Join(ShowAll(list), ", ") + "))"
    case IsNull(x, neg) => Show(x) + (if neg then " IS NOT NULL" else " IS NULL")
    case Between(x, neg, lo, hi) => "(" + Show(x) + (") " + NotText(neg) + "BETWEEN ") + Show(lo) + " AND " + Show(hi)
    case Like(x, neg, p) => Show(x) + (" " + NotText(neg) + "LIKE ") + Show(p)
  }

  function ShowAll(es: seq<Expr>): (ps: seq<string>)
    ensures |ps| == |es| && forall i :: 0 <= i < |es| ==> ps[i] == Show(es[i])
    decreases es
  {
    seq(|es|, i requires 0 <= i < |es| => Show(es[i]))
  }

  function MapText<X>(xs: seq<X>, show: X -> string): (ps: seq<string>)
    ensures |ps| == |xs| && forall i :: 0 <= i < |xs| ==> ps[i] == show(xs[i])
  {
    seq(|xs|, i requires 0 <= i < |xs| => show(xs[i]))
  }

  // Closed texts put together are closed.

  lemma ClosedConcat(a: string, b: string)
    requires Closed(a) && Closed(b)
    ensures Closed(a + b)
  {
    ScanConcat(a, b, Outside);
  }

  lemma {:induction false} BareClosed(s: string)
    requires Bare(s)
    ensures Closed(s)
  {
    if s != [] {
      BareClosed(s[1..]);
    }
  }

  lemma {:induction false} InQuotes(t: string)
    requires Quotable(t)
    ensures Scan(t + "'", Inside('\'')) == Ends(Outside)
  {
    if t == [] {
      assert "'"[1..] == [];
    } else {
      InQuotes(t[1..]);
      assert (t + "'")[1..] == t[1..] + "'";
      assert t[0] in t;
    }
  }

  lemma QuotedClosed(t: string)
    requires Quotable(t)
    ensures Closed("'" + t + "'")
  {
    InQuotes(t);
    assert ("'" + t + "'")[1..] == t + "'";
  }

  lemma {:induction false} JoinClosed(ps: seq<string>, sep: string)
    requires Bare(sep) && forall i :: 0 <= i < |ps| ==> Closed(ps[i])
    ensures Closed(Join(ps, sep))
  {
    if |ps| > 1 {
      var k := |ps| - 1;
      JoinClosed(ps[..k], sep);
      BareClosed(sep);
      ClosedConcat(Join(ps[..k], sep), sep);
      ClosedConcat(Join(ps[..k], sep) + sep, ps[k]);
    }
  }

  lemma {:induction false} DigitsBare(n: nat)
    ensures Bare(Digits(n))
  {
    if n >= 10 {
      DigitsBare(n / 10);
    }
  }

  lemma Closed3(a: string, b: string, c: string)
    requires Bare(a) && Closed(b) && Bare(c)
    ensures Closed(a + b + c)
  {
    BareClosed(a);
    BareClosed(c);
    ClosedConcat(a, b);
    ClosedConcat(a + b, c);
  }

  lemma ClosedThen(a: string, sep: string, b: string)
    requires Closed(a) && Bare(sep) && Closed(b)
    ensures Closed(a + sep + b)
  {
    BareClosed(sep);
    ClosedConcat(a, sep);
    ClosedConcat(a + sep, b);
  }

  lemma AliasBare(alias: nat)
    ensures Bare(AliasName(alias))
  {
    DigitsBare(alias);
  }

  lemma InClosed(a: string, x: string, b: string, y: string, c: string)
    requires Bare(a) && Closed(x) && Bare(b) && Closed(y) && Bare(c)
    ensures Closed(a + x + b + y + c)
  {
    BareClosed(a);
    BareClosed(c);
    ClosedConcat(a, x);
    ClosedThen(a + x, b, y);
    ClosedConcat(a + x + b + y, c);
  }

  lemma ColumnClosed(c: ColumnRef)
    requires NiceColumn(c.column)
    ensures Closed(AliasName(c.alias) + "." + c.column.name)
  {
    AliasBare(c.alias);
    BareClosed(AliasName(c.alias) + "." + c.column.name);
  }

  lemma CaseClosed(c: string, y: string, n: string)
    requires Closed(c) && Closed(y) && Closed(n)
    ensures Closed("CASE WHEN " + c + " THEN " + y + " ELSE " + n + " END")
  {
    InClosed("CASE WHEN ", c, " THEN ", y, " ELSE ");
    BareClosed(" END");
    ClosedConcat("CASE WHEN " + c + " THEN " + y + " ELSE ", n);
    ClosedConcat("CASE WHEN " + c + " THEN " + y + " ELSE " + n, " END");
  }

  lemma BetweenClosed(x: string, neg: bool, lo: string, hi: string)
    requires Closed(x) && Closed(lo) && Closed(hi)
    ensures Closed("(" + x + (") " + NotText(neg) + "BETWEEN ") + lo + " AND " + hi)
  {
    InClosed("(", x, ") " + NotText(neg) + "BETWEEN ", lo, " AND ");
    ClosedConcat("(" + x + (") " + NotText(neg) + "BETWEEN ") + lo + " AND ", hi);
  }

  lemma IsNullClosed(x: string, neg: bool)
    requires Closed(x)
    ensures Closed(x + (if neg then " IS NOT NULL" else " IS NULL"))
  {
    BareClosed(if neg then " IS NOT NULL" else " IS NULL");
    ClosedConcat(x, if neg then " IS NOT NULL" else " IS NULL");
  }

  lemma ListClosed(es: seq<Expr>, cols: seq<ColumnRef>, h: int)
    requires FitAll(es, cols, h)
    ensures Closed(Join(ShowAll(es), ", "))
    decreases es, 3
  {
    ShowAllClosed(es, cols, h);
    JoinClosed(ShowAll(es), ", ");
  }

  lemma {:induction false} ListFormClosed(e: Expr, cols: seq<ColumnRef>, h: int)
    requires Fits(e, cols, h) && (e.Call? || e.In? || e.InColumn?)
    ensures Closed(Show(e))
    decreases e, 0
  {
    match e
    case Call(name, args) =>
      ListClosed(args, cols, h - 1);
      Closed3(name + "(", Join(ShowAll(args), ", "), ")");
    case In(x, neg, list) =>
      ShowClosed(x, cols, h - 1);
      ListClosed(list, cols, h - 1);
      InClosed("(", Show(x), if neg then ") NOT IN (" else ") IN (", Join(ShowAll(list), ", "), ")");
    case InColumn(x, neg, list) =>
      ShowClosed(x, cols, h - 1);
      ListClosed(list, cols, h - 1);
      InClosed("(", Show(x), " " + NotText(neg) + "IN (", Join(ShowAll(list), ", "), "))");
  }

  /** An expression that fits is written with all its quotes closed and no semicolon outside them. */
  lemma {:induction false} ShowClosed(e: Expr, cols: seq<ColumnRef>, h: int)
    requires Fits(e, cols, h)
    ensures Closed(Show(e))
    decreases e, 1
  {
    if e.Call? || e.In? || e.InColumn? {
      ListFormClosed(e, cols, h);
    } else {
      match e
      case Col(c) => ColumnClosed(c);
      case Const(_) =>
      case Op(op, l, r) =>
        ShowClosed(l, cols, h - 1);
        ShowClosed(r, cols, h - 1);
        InClosed("(", Show(l), " " + op + " ", Show(r), ")");
      case Equate(l, r) =>
        ShowClosed(l, cols, h - 1);
        ShowClosed(r, cols, h - 1);
        ClosedThen(Show(l), " = ", Show(r));
      case CastAs(x, ty) =>
        ShowClosed(x, cols, h - 1);
        Closed3("CAST(", Show(x), " AS " + ty + ")");
      case Case(c, y, n) =>
        ShowClosed(c, cols, h - 1);
        ShowClosed(y, cols, h - 1);
        ShowClosed(n, cols, h - 1);
        CaseClosed(Show(c), Show(y), Show(n));
      case IsNull(x, neg) =>
        ShowClosed(x, cols, h - 1);
        IsNullClosed(Show(x), neg);
      case Between(x, neg, lo, hi) =>
        ShowClosed(x, cols, h - 1);
        ShowClosed(lo, cols, h - 1);
        ShowClosed(hi, cols, h - 1);
        BetweenClosed(Show(x), neg, Show(lo), Show(hi));
      case Like(x, neg, p) =>
        ShowClosed(x, cols, h - 1);
        ShowClosed(p, cols, h - 1);
        ClosedThen(Show(x), " " + NotText(neg) + "LIKE ", Show(p));
    }
  }

  lemma {:induction false} ShowAllClosed(es: seq<Expr>, cols: seq<ColumnRef>, h: int)
    requires FitAll(es, cols, h)
    ensures forall i :: 0 <= i < |es| ==> Closed(ShowAll(es)[i])
    decreases es, 2
  {
    forall i | 0 <= i < |es| ensures Closed(ShowAll(es)[i]) {
      ShowClosed(es[i], cols, h);
    }
  }

  function Height(e: Expr): nat
    decreases e
  {
    match e
    case Col(_) => 1
    case Const(_) => 1
    case Op(_, l, r) => 1 + Max(Height(l), Height(r))
    case Equate(l, r) => 1 + Max(Height(l), Height(r))
    case Call(_, args) => 1 + HeightAll(args)
    case CastAs(x, _) => 1 + Height(x)
    case Case(c, y, n) => 1 + Max(Height(c), Max(Height(y), Height(n)))
    case In(x, _, list) => 1 + Max(Height(x), HeightAll(list))
    case InColumn(x, _, list) => 1 + Max(Height(x), HeightAll(list))
    case IsNull(x, _) => 1 + Height(x)
    case Between(x, _, lo, hi) => 1 + Max(Height(x), Max(Height(lo), Height(hi)))
    case Like(x, _, p) => 1 + Max(Height(x), Height(p))
  }

  function Max(a: nat, b: nat): nat {
    if a > b then a else b
  }

  function HeightAll(es: seq<Expr>): nat
    decreases es
  {
    if es == [] then 0 else Max(Height(es[0]), HeightAll(es[1..]))
  }

  /** The columns an expression mentions. */
  function Refs(e: Expr): set<ColumnRef>
    decreases e
  {
    match e
    case Col(c) => {c}
    case Const(_) => {}
    case Op(_, l, r) => Refs(l) + Refs(r)
    case Equate(l, r) => Refs(l) + Refs(r)
    case Call(_, args) => RefsAll(args)
    case CastAs(x, _) => Refs(x)
    case Case(c, y, n) => Refs(c) + Refs(y) + Refs(n)
    case In(x, _, list) => Refs(x) + RefsAll(list)
    case InColumn(x, _, list) => Refs(x) + RefsAll(list)
    case IsNull(x, _) => Refs(x)
    case Between(x, _, lo, hi) => Refs(x) + Refs(lo) + Refs(hi)
    case Like(x, _, p) => Refs(x) + Refs(p)
  }

  function RefsAll(es: seq<Expr>): set<ColumnRef>
    decreases es
  {
    if es == [] then {} else Refs(es[0]) + RefsAll(es[1..])
  }

  /** What fitting comes to: a bound on the height, and on the columns. */
  lemma {:induction false} FitsMeaning(e: Expr, cols: seq<ColumnRef>, h: int)
    requires Fits(e, cols, h)
    ensures Height(e) <= h && forall c :: c in Refs(e) ==> c in cols
    decreases e
  {
    match e
    case Col(_) =>
    case Const(_) =>
    case Op(_, l, r) => FitsMeaning(l, cols, h - 1); FitsMeaning(r, cols, h - 1);
    case Equate(l, r) => FitsMeaning(l, cols, h - 1); FitsMeaning(r, cols, h - 1);
    case Call(_, args) => FitAllMeaning(args, cols, h - 1);
    case CastAs(x, _) => FitsMeaning(x, cols, h - 1);
    case Case(c, y, n) => FitsMeaning(c, cols, h - 1); FitsMeaning(y, cols, h - 1); FitsMeaning(n, cols, h - 1);
    case In(x, _, list) => FitsMeaning(x, cols, h - 1); FitAllMeaning(list, cols, h - 1);
    case InColumn(x, _, list) => FitsMeaning(x, cols, h - 1); FitAllMeaning(list, cols, h - 1);
    case IsNull(x, _) => FitsMeaning(x, cols, h - 1);
    case Between(x, _, lo, hi) => FitsMeaning(x, cols, h - 1); FitsMeaning(lo, cols, h - 1);
        FitsMeaning(hi, cols, h - 1);
    case Like(x, _, p) => FitsMeaning(x, cols, h - 1); FitsMeaning(p, cols, h - 1);
  }

  lemma {:induction false} FitAllMeaning(es: seq<Expr>, cols: seq<ColumnRef>, h: int)
    requires FitAll(es, cols, h) && h >= 0
    ensures HeightAll(es) <= h && forall c :: c in RefsAll(es) ==> c in cols
    decreases es
  {
    if es != [] {
      FitsMeaning(es[0], cols, h);
      FitAllMeaning(es[1..], cols, h);
    }
  }
}
