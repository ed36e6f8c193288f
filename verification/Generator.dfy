/**
 The random query generator. Every choice is drawn from an arbitrary stream of numbers; whatever
 the stream, the query fits its scopes, stays within the depth limit, and its aliases are new.
 */
module Generator {
  import opened Sql
  import opened Splitter
  import opened T = SqlText
  import Q = SqlQuery

  class Rand {
    const draws: nat -> nat
    var pos: nat

    constructor (draws: nat -> nat)
    {
      this.draws := draws;
      pos := 0;
    }

    /** A number below `n`; drawing from nothing is an error in the original. */
    method Intn(n: nat) returns (r: nat)
      requires n > 0
      modifies this
      ensures r < n
    {
      r := draws(pos) % n;
      pos := pos + 1;
    }
  }

  // What is in scope: the tables of the FROM clause with their aliases, and their columns.
  class Scope {
    const schema: Schema
    var tables: seq<(string, nat)>
    var columns: seq<ColumnRef>

    constructor (schema: Schema)
      ensures this.schema == schema && tables == [] && columns == []
    {
      this.schema := schema;
      tables, columns := [], [];
    }

    method AddTable(name: string, alias: nat)
      modifies this
      ensures tables == old(tables) + [(name, alias)]
      ensures columns == old(columns) + ColumnsOf(schema, name, alias)
    {
      tables := tables + [(name, alias)];
      var i := 0;
      while i < |schema| && schema[i].name != name
        invariant i <= |schema| && ColumnsOf(schema, name, alias) == ColumnsOf(schema[i..], name, alias)
      {
        assert schema[i..][0] == schema[i] && schema[i..][1..] == schema[i + 1..];
        i := i + 1;
      }
      if i < |schema| {
        var table := schema[i];
        assert schema[i..][0] == table;
        var before := columns;
        for j := 0 to |table.columns|
          invariant columns == before + ColumnsOf(schema, name, alias)[..j]
          invariant tables == old(tables) + [(name, alias)]
        {
          columns := columns + [ColumnRef(name, alias, table.columns[j])];
        }
      } else {
        assert schema[i..] == [];
        assert columns + [] == columns;
      }
    }
  }

  const INT_TYPES := {"int", "bigint", "smallint", "tinyint", "mediumint", "int4", "int8", "int2"}
  const FLOAT_TYPES := {"float", "double", "decimal", "numeric", "float4", "float8", "double precision"}
  const TEXT_TYPES := {"varchar", "char", "text", "bpchar", "name", "longtext", "mediumtext", "tinytext", "enum"}
  const TEXT_CONSTANT_TYPES := {"varchar", "char", "text", "bpchar", "varchar(20)", "varchar(50)", "name", "enum"}
  const TEXT_FUNCTION_TYPES := {"varchar", "char", "text", "bpchar", "varchar(20)", "varchar(50)", "name"}

  function IntText(n: int): string {
    if n < 0 then "-" + Digits(-n) else Digits(n)
  }

  /** Tenths with two decimals. */
  function TenthText(n: int): string
    decreases n < 0
  {
    if n < 0 then "-" + TenthText(-n) else Digits(n / 10) + "." + [Digit(n % 10)] + "0"
  }

  function Two(n: nat): string
    requires n < 100
  {
    [Digit(n / 10), Digit(n % 10)]
  }

  lemma IntClosed(n: int)
    ensures Closed(IntText(n))
  {
    DigitsBare(if n < 0 then -n else n);
    BareClosed(IntText(n));
  }

  lemma TenthBare(n: int)
    ensures Bare(TenthText(n))
    decreases n < 0
  {
    if n < 0 {
      TenthBare(-n);
    } else {
      DigitsBare(n / 10);
    }
  }

  lemma TenthClosed(n: int)
    ensures Closed(TenthText(n))
  {
    TenthBare(n);
    BareClosed(TenthText(n));
  }

  lemma {:induction false} DigitsQuotable(n: nat)
    ensures Quotable(Digits(n))
  {
    if n >= 10 {
      DigitsQuotable(n / 10);
    }
  }

  lemma QuotableConcat(a: string, b: string)
    requires Quotable(a) && Quotable(b)
    ensures Quotable(a + b)
  {
  }

  /** Scopes whose columns have harmless names. */
  predicate NiceColumns(cols: seq<ColumnRef>) {
    forall c :: c in cols ==> NiceColumn(c.column)
  }

  function ColumnsOfType(cols: seq<ColumnRef>, wanted: string): (r: seq<ColumnRef>)
    ensures forall c :: c in r <==> c in cols && TypeMatch(c.column.ty, wanted)
  {
    if cols == [] then []
    else (if TypeMatch(cols[0].column.ty, wanted) then [cols[0]] else []) + ColumnsOfType(cols[1..], wanted)
  }

  function EnumColumns(cols: seq<ColumnRef>): (r: seq<ColumnRef>)
    ensures forall c :: c in r ==> c in cols
  {
    if cols == [] then []
    else (if NormalizeType(cols[0].column.ty) == "enum" then [cols[0]] else []) + EnumColumns(cols[1..])
  }

  predicate AllQuotable(vs: seq<string>) {
    forall i :: 0 <= i < |vs| ==> Quotable(vs[i])
  }

  lemma {:induction false} PartsQuotable(s: string, current: Current, values: seq<string>)
    requires '\\' !in s && (current.Quoted? ==> Quotable(current.text))
    requires AllQuotable(values)
    ensures AllQuotable(QuotedParts(s, current, values))
    decreases |s|
  {
    if s != [] {
      assert s[0] in s && forall c :: c in s[1..] ==> c in s;
      if s[0] == '\'' {
        if current.Quoted? {
          PartsQuotable(s[1..], NotQuoted, values + [current.text]);
        } else {
          PartsQuotable(s[1..], Quoted(""), values);
        }
      } else if current.Quoted? {
        PartsQuotable(s[1..], Quoted(current.text + [s[0]]), values);
      } else if s[0] != ')' {
        PartsQuotable(s[1..], NotQuoted, values);
      }
    }
  }

  lemma {:induction false} BehindParenFrom(s: string)
    ensures forall c :: c in BehindParen(s) ==> c in s
  {
    if s != [] && s[0] != '(' {
      BehindParenFrom(s[1..]);
    }
  }

  /** The values of an ENUM type can be written between quotes. */
  lemma EnumQuotable(ty: string)
    requires '\\' !in ty
    ensures AllQuotable(EnumValues(ty))
  {
    BehindParenFrom(ty);
    PartsQuotable(BehindParen(ty), NotQuoted, []);
  }

  /** A leaf that fits at all fits at any depth. */
  lemma LeafFits(e: Expr, cols: seq<ColumnRef>, h: int)
    requires Fits(e, cols, 1) && (e.Col? || e.Const?) && h > 0
    ensures Fits(e, cols, h)
  {
  }

  lemma QuotedFits(t: string, cols: seq<ColumnRef>)
    requires Quotable(t)
    ensures Fits(Const("'" + t + "'"), cols, 1)
  {
    QuotedClosed(t);
  }

  lemma StrFits(n: nat, cols: seq<ColumnRef>)
    ensures Fits(Const("'" + ("str_" + Digits(n)) + "'"), cols, 1)
  {
    DigitsQuotable(n);
    QuotableConcat("str_", Digits(n));
    QuotedFits("str_" + Digits(n), cols);
  }

  /** The target types of CAST, by their names in the two dialects. */
  function MysqlCastType(k: nat): (ty: string)
    ensures Bare(ty)
  {
    match k
    case 0 => "SIGNED"
    case 1 => "UNSIGNED"
    case 2 => "DOUBLE"
    case 3 => "DECIMAL(40,20)"
    case 4 => "CHAR(20)"
    case 5 => "VARCHAR(20)"
    case 6 => "DATE"
    case _ => "DATETIME"
  }

  function PostgresCastType(k: nat): (ty: string)
    ensures Bare(ty)
  {
    match k
    case 0 => "integer"
    case 1 => "bigint"
    case 2 => "double precision"
    case 3 => "numeric(40,20)"
    case 4 => "char(20)"
    case 5 => "varchar(20)"
    case 6 => "date"
    case _ => "timestamp"
  }

  lemma CastFits(x: Expr, ty: string, cols: seq<ColumnRef>, h: int)
    requires Fits(x, cols, h) && Bare(ty)
    ensures Fits(CastAs(x, ty), cols, h + 1)
  {
  }

  function ArgCount(name: string): nat {
    if name == "PI" then 0
    else if name in {"MOD", "POW", "LOG", "LEFT", "RIGHT", "SUBSTRING", "REPLACE", "CONCAT"} then 2
    else 1
  }

  class ExprGenerator {
    const rand: Rand
    const maxDepth: int
    const mysql: bool

    constructor (rand: Rand, maxDepth: int, mysql: bool)
      ensures this.rand == rand && this.maxDepth == maxDepth && this.mysql == mysql
    {
      this.rand, this.maxDepth, this.mysql := rand, maxDepth, mysql;
    }

    /** How deep an expression, and a condition, may be at a depth. */
    function ExprHeight(depth: int): int {
      if depth >= maxDepth then 1 else maxDepth - depth + 2
    }

    function BoolHeight(depth: int): int {
      if depth >= maxDepth then 2 else maxDepth - depth + 2
    }

    /** How many more levels there can be: at the limit one, beyond it none. */
    function Levels(depth: int): nat {
      if depth > maxDepth then 0 else maxDepth + 1 - depth
    }

    method D(sides: nat) returns (r: nat)
      requires sides > 0
      modifies rand
      ensures 1 <= r <= sides
    {
      r := rand.Intn(sides);
      r := r + 1;
    }

    method RandBool() returns (b: bool)
      modifies rand
    {
      var r := rand.Intn(2);
      b := r == 0;
    }

    method RandInt(lo: int, hi: int) returns (r: int)
      modifies rand
      ensures if lo >= hi then r == lo else lo <= r <= hi
    {
      if lo >= hi {
        return lo;
      }
      var k := rand.Intn(hi - lo + 1);
      r := lo + k;
    }

    method Pick<X>(items: seq<X>) returns (x: X)
      requires items != []
      modifies rand
      ensures x in items
    {
      var k := rand.Intn(|items|);
      x := items[k];
    }

    method PickColumn(cols: seq<ColumnRef>) returns (e: Expr)
      requires NiceColumns(cols) && cols != []
      modifies rand
      ensures e.Col? && Fits(e, cols, 1)
    {
      var c := Pick(cols);
      e := Col(c);
    }

    /** A column of one list that is also in the scope. */
    method PickFrom(some: seq<ColumnRef>, cols: seq<ColumnRef>) returns (e: Expr)
      requires NiceColumns(cols) && some != [] && forall c :: c in some ==> c in cols
      modifies rand
      ensures e.Col? && Fits(e, cols, 1)
    {
      var c := Pick(some);
      e := Col(c);
    }

    method IntConstant(lo: int, hi: int, ghost cols: seq<ColumnRef>) returns (e: Expr)
      modifies rand
      ensures e.Const? && Fits(e, cols, 1)
    {
      var n := RandInt(lo, hi);
      IntClosed(n);
      e := Const(IntText(n));
    }

    method TenthConstant(lo: int, hi: int, ghost cols: seq<ColumnRef>) returns (e: Expr)
      modifies rand
      ensures e.Const? && Fits(e, cols, 1)
    {
      var n := RandInt(lo, hi);
      TenthClosed(n);
      e := Const(TenthText(n));
    }

    method StrConstant(hi: nat, ghost cols: seq<ColumnRef>) returns (e: Expr)
      modifies rand
      ensures e.Const? && Fits(e, cols, 1)
    {
      var n := RandInt(0, hi);
      StrFits(n, cols);
      e := Const("'" + ("str_" + Digits(n)) + "'");
    }

    method BoolConstant(ghost cols: seq<ColumnRef>) returns (e: Expr)
      modifies rand
      ensures e.Const? && Fits(e, cols, 1)
    {
      var b := RandBool();
      var text := if mysql then (if b then "1" else "0") else if b then "TRUE" else "FALSE";
      BareClosed(text);
      e := Const(text);
    }

    method ConstantExpr(want: string, ghost cols: seq<ColumnRef>) returns (e: Expr)
      modifies rand
      ensures e.Const? && Fits(e, cols, 1)
    {
      if want in INT_TYPES {
        e := IntConstant(-100, 100, cols);
      } else if want in FLOAT_TYPES {
        e := TenthConstant(-100, 100, cols);
      } else if want in TEXT_CONSTANT_TYPES {
        e := StrConstant(999, cols);
      } else if want == "bool" || want == "boolean" {
        e := BoolConstant(cols);
      } else {
        var choice := D(6);
        if choice <= 2 {
          e := IntConstant(-100, 100, cols);
        } else if choice <= 4 {
          e := TenthConstant(-100, 100, cols);
        } else {
          e := StrConstant(999, cols);
        }
      }
    }

    method ColumnRefExpr(cols: seq<ColumnRef>, want: string) returns (e: Expr)
      requires NiceColumns(cols)
      modifies rand
      ensures (e.Col? || e.Const?) && Fits(e, cols, 1)
    {
      var some := ColumnsOfType(cols, want);
      if |some| == 0 {
        some := cols;
      }
      if |some| == 0 {
        e := ConstantExpr(want, cols);
        return;
      }
      e := PickFrom(some, cols);
    }

    /** A value of some ENUM column in scope. */
    method PickEnumValue(cols: seq<ColumnRef>) returns (e: Option<Expr>)
      requires NiceColumns(cols)
      modifies rand
      ensures e.Some? ==> e.value.Const? && Fits(e.value, cols, 1)
    {
      var enums := EnumColumns(cols);
      if |enums| == 0 {
        return None;
      }
      var c := Pick(enums);
      var values := EnumValues(c.column.ty);
      if |values| == 0 {
        return None;
      }
      EnumQuotable(c.column.ty);
      var k := rand.Intn(|values|);
      QuotedFits(values[k], cols);
      e := Some(Const("'" + values[k] + "'"));
    }

    method Leaf(cols: seq<ColumnRef>, want: string) returns (e: Expr)
      requires NiceColumns(cols)
      modifies rand
      ensures (e.Col? || e.Const?) && Fits(e, cols, 1)
    {
      if mysql && want in {"", "any", "string", "enum"} {
        var value := PickEnumValue(cols);
        if value.Some? {
          var d := D(6);
          if d <= 2 {
            return value.value;
          }
        }
      }
      var b := RandBool();
      if b && |cols| > 0 {
        e := ColumnRefExpr(cols, want);
      } else {
        e := ConstantExpr(want, cols);
      }
    }

    method ComparisonOp() returns (op: string)
      modifies rand
      ensures Bare(op)
    {
      var k := rand.Intn(6);
      op := if k == 0 then "=" else if k == 1 then "<>" else if k == 2 then "<" else if k == 3 then "<="
            else if k == 4 then ">" else ">=";
    }

    method ArithOp() returns (op: string)
      modifies rand
      ensures Bare(op)
    {
      var k := rand.Intn(5);
      op := if k == 0 then "+" else if k == 1 then "-" else if k == 2 then "*" else if k == 3 then "/" else "%";
    }

    method DateText() returns (t: string)
      modifies rand
      ensures Quotable(t)
    {
      var year := rand.Intn(25);
      var month := rand.Intn(12);
      var day := rand.Intn(28);
      DigitsQuotable(2000 + year);
      t := Digits(2000 + year) + "-" + Two(1 + month) + "-" + Two(1 + day);
    }

    method TimeText() returns (t: string)
      modifies rand
      ensures Quotable(t)
    {
      var hour := rand.Intn(24);
      var min := rand.Intn(60);
      var sec := rand.Intn(60);
      t := Two(hour) + ":" + Two(min) + ":" + Two(sec);
    }

    /** Dates, times, years and bits: the types whose constants look the same everywhere. */
    method TemporalConstant(ty: string, ghost cols: seq<ColumnRef>) returns (e: Option<Expr>)
      modifies rand
      ensures e.Some? ==> e.value.Const? && Fits(e.value, cols, 1)
    {
      if ty == "date" {
        var d := DateText();
        QuotedFits(d, cols);
        e := Some(Const("'" + d + "'"));
      } else if ty in {"timestamp", "timestamptz", "datetime"} {
        var d := DateText();
        var t := TimeText();
        QuotableConcat(d, " ");
        QuotableConcat(d + " ", t);
        QuotedFits(d + " " + t, cols);
        e := Some(Const("'" + (d + " " + t) + "'"));
      } else if ty == "time" {
        var t := TimeText();
        QuotedFits(t, cols);
        e := Some(Const("'" + t + "'"));
      } else if ty == "year" {
        var n := rand.Intn(25);
        IntClosed(2000 + n);
        e := Some(Const(IntText(2000 + n)));
      } else if ty == "bit" {
        var n := rand.Intn(2);
        BareClosed("b");
        QuotedClosed([Digit(n)]);
        ClosedConcat("b", "'" + [Digit(n)] + "'");
        e := Some(Const("b" + ("'" + [Digit(n)] + "'")));
      } else {
        e := None;
      }
    }

    /** A constant, or with even chance a column of the same kind if there is one. */
    method SameKind(cols: seq<ColumnRef>, kind: string) returns (e: Option<Expr>)
      requires NiceColumns(cols)
      modifies rand
      ensures e.Some? ==> e.value.Col? && Fits(e.value, cols, 1)
    {
      e := None;
      var b := RandBool();
      if b {
        var some := ColumnsOfType(cols, kind);
        if |some| > 0 {
          var c := PickFrom(some, cols);
          e := Some(c);
        }
      }
    }

    method TypeCompatibleLeaf(cols: seq<ColumnRef>, ty: string) returns (e: Option<Expr>)
      requires NiceColumns(cols)
      modifies rand
      ensures e.Some? ==> (e.value.Col? || e.value.Const?) && Fits(e.value, cols, 1)
    {
      if ty in INT_TYPES {
        e := SameKind(cols, "int");
        if e.None? {
          var c := IntConstant(-100, 100, cols);
          e := Some(c);
        }
      } else if ty in FLOAT_TYPES {
        e := SameKind(cols, "float");
        if e.None? {
          var c := TenthConstant(-100, 100, cols);
          e := Some(c);
        }
      } else if ty in TEXT_TYPES {
        e := SameKind(cols, "string");
        if e.None? {
          var c := StrConstant(999, cols);
          e := Some(c);
        }
      } else if ty == "bool" || ty == "boolean" {
        var b := RandBool();
        BareClosed(if b then "1" else "0");
        e := Some(Const(if b then "1" else "0"));
      } else {
        e := TemporalConstant(ty, cols);
      }
    }

    /** For a type it does not know the generator falls back on any expression one level down. */
    method TypeCompatibleValue(cols: seq<ColumnRef>, ty: string, depth: int) returns (e: Expr)
      requires NiceColumns(cols) && depth <= maxDepth
      modifies rand
      ensures Fits(e, cols, ExprHeight(depth + 1))
      decreases Levels(depth), 3
    {
      var leaf := TypeCompatibleLeaf(cols, NormalizeType(ty));
      if leaf.Some? {
        e := leaf.value;
        LeafFits(e, cols, ExprHeight(depth + 1));
      } else {
        e := Expression(cols, depth + 1, "any");
      }
    }

    /** A comparison of a column with something of its type; also the predicate of that shape. */
    method Comparison(cols: seq<ColumnRef>, depth: int) returns (e: Expr)
      requires NiceColumns(cols) && depth <= maxDepth
      modifies rand
      ensures Fits(e, cols, ExprHeight(depth + 1) + 1)
      decreases Levels(depth), 4
    {
      var l, r: Expr;
      if |cols| > 0 {
        var c := Pick(cols);
        l := Col(c);
        r := TypeCompatibleValue(cols, c.column.ty, depth);
      } else {
        l := ConstantExpr("int", cols);
        r := ConstantExpr("int", cols);
        LeafFits(r, cols, ExprHeight(depth + 1));
      }
      LeafFits(l, cols, ExprHeight(depth + 1));
      var op := ComparisonOp();
      e := Op(op, l, r);
    }

    method Expression(cols: seq<ColumnRef>, depth: int, want: string) returns (e: Expr)
      requires NiceColumns(cols)
      modifies rand
      ensures Fits(e, cols, ExprHeight(depth))
      decreases Levels(depth), 9
    {
      if depth >= maxDepth || |cols| == 0 {
        e := Leaf(cols, want);
        LeafFits(e, cols, ExprHeight(depth));
        return;
      }
      var choice := D(20);
      if choice <= 3 {
        e := ColumnRefExpr(cols, want);
        LeafFits(e, cols, ExprHeight(depth));
      } else if choice <= 6 {
        e := ConstantExpr(want, cols);
        LeafFits(e, cols, ExprHeight(depth));
      } else if choice <= 10 {
        e := Comparison(cols, depth);
        FitsMore(e, cols, ExprHeight(depth + 1) + 1, cols, ExprHeight(depth));
      } else if choice <= 14 {
        e := BinaryArith(cols, depth, want);
      } else if choice <= 17 {
        e := FunctionCall(cols, depth, want);
      } else if choice <= 19 {
        e := CaseExpr(cols, depth, want);
      } else {
        e := InExpr(cols, depth);
      }
    }

    /** An expression one level down, as an operand of one at `depth`. */
    method Operand(cols: seq<ColumnRef>, depth: int, want: string) returns (e: Expr)
      requires NiceColumns(cols) && depth < maxDepth
      modifies rand
      ensures Fits(e, cols, ExprHeight(depth) - 1)
      decreases Levels(depth), 0
    {
      e := Expression(cols, depth + 1, want);
      FitsMore(e, cols, ExprHeight(depth + 1), cols, ExprHeight(depth) - 1);
    }

    method Condition(cols: seq<ColumnRef>, depth: int) returns (e: Expr)
      requires NiceColumns(cols) && depth < maxDepth
      modifies rand
      ensures Fits(e, cols, ExprHeight(depth) - 1)
      decreases Levels(depth), 0
    {
      e := BoolExpr(cols, depth + 1);
      FitsMore(e, cols, BoolHeight(depth + 1), cols, ExprHeight(depth) - 1);
    }

    method Operands(n: nat, cols: seq<ColumnRef>, depth: int, want: string) returns (es: seq<Expr>)
      requires NiceColumns(cols) && depth < maxDepth
      modifies rand
      ensures |es| == n && FitAll(es, cols, ExprHeight(depth) - 1)
      decreases Levels(depth), 1
    {
      es := [];
      for i := 0 to n
        invariant |es| == i && FitAll(es, cols, ExprHeight(depth) - 1)
      {
        var e := Operand(cols, depth, want);
        es := es + [e];
      }
    }

    method BinaryArith(cols: seq<ColumnRef>, depth: int, want: string) returns (e: Expr)
      requires NiceColumns(cols) && depth < maxDepth
      modifies rand
      ensures Fits(e, cols, ExprHeight(depth))
      decreases Levels(depth), 4
    {
      var l := Operand(cols, depth, want);
      var r := Operand(cols, depth, want);
      var op := ArithOp();
      e := Op(op, l, r);
    }

    method CaseExpr(cols: seq<ColumnRef>, depth: int, want: string) returns (e: Expr)
      requires NiceColumns(cols) && depth < maxDepth
      modifies rand
      ensures Fits(e, cols, ExprHeight(depth)) && e.Case?
      decreases Levels(depth), 4
    {
      var c := Condition(cols, depth);
      var y := Operand(cols, depth, want);
      var n := Operand(cols, depth, want);
      e := Case(c, y, n);
    }

    method PickFunction(want: string) returns (name: string)
      modifies rand
      ensures Bare(name)
    {
      if want in {"int", "bigint", "smallint", "tinyint", "int4", "int8", "int2"} {
        var k := rand.Intn(5);
        name := if k == 0 then "ABS" else if k == 1 then "CEILING" else if k == 2 then "FLOOR"
            else if k == 3 then "ROUND"
                else "SIGN";
      } else if want in FLOAT_TYPES {
        var k := rand.Intn(10);
        name := if k == 0 then "ABS" else if k == 1 then "ACOS" else if k == 2 then "ASIN" else if k == 3 then "ATAN"
                else if k == 4 then "COS" else if k == 5 then "EXP" else if k == 6 then "LN" else if k == 7 then "LOG"
                else if k == 8 then "LOG2" else "SQRT";
      } else if want in TEXT_FUNCTION_TYPES {
        var k := rand.Intn(10);
        name := if k == 0 then "CONCAT" else if k == 1 then "LENGTH" else if k == 2 then "LOWER"
            else if k == 3 then "UPPER"
                else if k == 4 then "TRIM" else if k == 5 then "LEFT" else if k == 6 then "RIGHT"
                else if k == 7 then "SUBSTRING" else if k == 8 then "REPLACE" else "REVERSE";
      } else if mysql {
        var k := rand.Intn(5);
        name := if k == 0 then "COALESCE" else if k == 1 then "IFNULL" else if k == 2 then "NULLIF"
            else if k == 3 then "IF"
                else "CAST";
      } else {
        var k := rand.Intn(3);
        name := if k == 0 then "COALESCE" else if k == 1 then "NULLIF" else "CAST";
      }
    }

    method PickCastType() returns (ty: string)
      modifies rand
      ensures Bare(ty)
    {
      var k := rand.Intn(8);
      ty := if mysql then MysqlCastType(k) else PostgresCastType(k);
    }

    method FunctionCall(cols: seq<ColumnRef>, depth: int, want: string) returns (e: Expr)
      requires NiceColumns(cols) && depth < maxDepth
      modifies rand
      ensures Fits(e, cols, ExprHeight(depth))
      decreases Levels(depth), 5
    {
      var name := PickFunction(want);
      if name == "CAST" {
        var x := Operand(cols, depth, "any");
        var ty := PickCastType();
        e := CastAs(x, ty);
      } else if name == "IF" {
        e := CaseExpr(cols, depth, want);
        if mysql {
          e := Call("IF", [e.cond, e.yes, e.no]);
        }
      } else if name == "IFNULL" {
        var x := Operand(cols, depth, want);
        e := Call(if mysql then "IFNULL" else "COALESCE", [x]);
      } else if name == "COALESCE" {
        var n := RandInt(2, 3);
        var args := Operands(n, cols, depth, want);
        e := Call("COALESCE", args);
      } else if name == "NULLIF" {
        var args := Operands(2, cols, depth, want);
        e := Call("NULLIF", args);
      } else {
        var args := Operands(ArgCount(name), cols, depth, "any");
        e := Call(name, args);
      }
    }

    method InExpr(cols: seq<ColumnRef>, depth: int) returns (e: Expr)
      requires NiceColumns(cols) && depth < maxDepth
      modifies rand
      ensures Fits(e, cols, ExprHeight(depth))
      decreases Levels(depth), 4
    {
      var x := Operand(cols, depth, "any");
      var n := RandInt(2, 3);
      var list: seq<Expr> := [];
      for i := 0 to n
        invariant FitAll(list, cols, ExprHeight(depth) - 1)
      {
        var v := Leaf(cols, "any");
        LeafFits(v, cols, ExprHeight(depth) - 1);
        list := list + [v];
      }
      var neg := RandBool();
      e := In(x, neg, list);
    }

    // -------------------------------------------------------------------------------------
    // Conditions

    method BoolExpr(cols: seq<ColumnRef>, depth: int) returns (e: Expr)
      requires NiceColumns(cols)
      modifies rand
      ensures Fits(e, cols, BoolHeight(depth))
      decreases if Levels(depth) > 1 then Levels(depth) else 1, 8
    {
      if depth >= maxDepth || |cols| == 0 {
        e := BoolLeaf(cols);
        FitsMore(e, cols, 2, cols, BoolHeight(depth));
        return;
      }
      var choice := D(12);
      if choice <= 3 {
        e := Comparison(cols, depth);
        FitsMore(e, cols, ExprHeight(depth + 1) + 1, cols, BoolHeight(depth));
      } else if choice <= 6 {
        e := BoolBinary(cols, depth);
      } else if choice <= 8 {
        e := IsNullPredicate(cols);
        FitsMore(e, cols, 2, cols, BoolHeight(depth));
      } else if choice <= 10 {
        e := BetweenPredicate(cols);
        FitsMore(e, cols, 2, cols, BoolHeight(depth));
      } else if choice <= 11 {
        e := LikePredicate(cols);
        FitsMore(e, cols, 3, cols, BoolHeight(depth));
      } else {
        e := BoolLeaf(cols);
        FitsMore(e, cols, 2, cols, BoolHeight(depth));
      }
    }

    method BoolLeaf(cols: seq<ColumnRef>) returns (e: Expr)
      requires NiceColumns(cols)
      modifies rand
      ensures Fits(e, cols, 2)
      decreases 1, 7
    {
      var choice := D(6);
      if choice <= 4 && |cols| > 0 {
        e := Comparison(cols, maxDepth);
      } else {
        e := BoolConstant(cols);
        LeafFits(e, cols, 2);
      }
    }

    method BoolBinary(cols: seq<ColumnRef>, depth: int) returns (e: Expr)
      requires NiceColumns(cols) && depth < maxDepth
      modifies rand
      ensures Fits(e, cols, BoolHeight(depth))
      decreases Levels(depth), 4
    {
      var l := Condition(cols, depth);
      var r := Condition(cols, depth);
      var b := RandBool();
      e := Op(if b then "AND" else "OR", l, r);
    }

    method IsNullPredicate(cols: seq<ColumnRef>) returns (e: Expr)
      requires NiceColumns(cols)
      modifies rand
      ensures Fits(e, cols, 2)
    {
      var x: Expr;
      if |cols| > 0 {
        x := PickColumn(cols);
      } else {
        BareClosed("(1)");
        x := Const("(1)");
      }
      var b := RandBool();
      e := Expr.IsNull(x, !b);
    }

    /** A bound for BETWEEN. */
    method Bound(ty: string, ghost cols: seq<ColumnRef>) returns (e: Expr)
      modifies rand
      ensures e.Const? && Fits(e, cols, 1)
    {
      if ty in INT_TYPES {
        e := IntConstant(0, 100, cols);
      } else if ty in FLOAT_TYPES {
        e := TenthConstant(0, 100, cols);
      } else if ty in TEXT_TYPES {
        e := StrConstant(50, cols);
      } else {
        var t := TemporalConstant(ty, cols);
        if t.Some? {
          e := t.value;
        } else {
          e := IntConstant(0, 100, cols);
        }
      }
    }

    method BetweenPredicate(cols: seq<ColumnRef>) returns (e: Expr)
      requires NiceColumns(cols)
      modifies rand
      ensures Fits(e, cols, 2)
    {
      var x, lo, hi: Expr;
      if |cols| > 0 {
        var c := Pick(cols);
        x := Col(c);
        lo := Bound(NormalizeType(c.column.ty), cols);
        hi := Bound(NormalizeType(c.column.ty), cols);
      } else {
        x := ConstantExpr("int", cols);
        lo := ConstantExpr("int", cols);
        hi := ConstantExpr("int", cols);
      }
      var neg := RandBool();
      e := Expr.Between(x, neg, lo, hi);
    }

    method LikePattern(ghost cols: seq<ColumnRef>) returns (e: Expr)
      modifies rand
      ensures e.Const? && Fits(e, cols, 1)
    {
      var k := rand.Intn(4);
      var p := if k == 0 then "%%" else if k == 1 then "str_%" else if k == 2 then "%_str" else "s__r%";
      QuotedFits(p, cols);
      e := Const("'" + p + "'");
    }

    /** A column cast to text is one level more, which is why the bound is three. */
    method LikePredicate(cols: seq<ColumnRef>) returns (e: Expr)
      requires NiceColumns(cols)
      modifies rand
      ensures Fits(e, cols, 3)
      decreases 1, 8
    {
      if |cols| == 0 {
        e := BoolLeaf(cols);
        FitsMore(e, cols, 2, cols, 3);
        return;
      }
      var strings := ColumnsOfType(cols, "string");
      var x: Expr;
      if |strings| > 0 {
        x := PickFrom(strings, cols);
        LeafFits(x, cols, 2);
      } else {
        x := PickColumn(cols);
        CastFits(x, "CHAR", cols, 1);
        x := CastAs(x, "CHAR");
      }
      var p := LikePattern(cols);
      LeafFits(p, cols, 2);
      var neg := RandBool();
      e := Expr.Like(x, neg, p);
    }

    method InPredicate(cols: seq<ColumnRef>, depth: int) returns (e: Expr)
      requires NiceColumns(cols) && depth < maxDepth
      modifies rand
      ensures Fits(e, cols, BoolHeight(depth))
    {
      if |cols| == 0 {
        e := BoolLeaf(cols);
        FitsMore(e, cols, 2, cols, BoolHeight(depth));
        return;
      }
      var c := Pick(cols);
      LeafFits(Col(c), cols, BoolHeight(depth) - 1);
      var n := RandInt(2, 4);
      var list: seq<Expr> := [];
      for i := 0 to n
        invariant FitAll(list, cols, BoolHeight(depth) - 1)
      {
        var v := TypeCompatibleValue(cols, c.column.ty, depth + 1);
        FitsMore(v, cols, ExprHeight(depth + 2), cols, BoolHeight(depth) - 1);
        list := list + [v];
      }
      var neg := RandBool();
      e := InColumn(Col(c), neg, list);
    }

    method WhereExpr(cols: seq<ColumnRef>, depth: int) returns (e: Expr)
      requires NiceColumns(cols)
      modifies rand
      ensures Fits(e, cols, BoolHeight(depth))
    {
      if depth >= maxDepth || |cols| == 0 {
        e := BoolLeaf(cols);
        FitsMore(e, cols, 2, cols, BoolHeight(depth));
        return;
      }
      var choice := D(12);
      if choice <= 5 {
        e := Comparison(cols, depth);
        FitsMore(e, cols, ExprHeight(depth + 1) + 1, cols, BoolHeight(depth));
      } else if choice <= 8 {
        e := BoolBinary(cols, depth);
      } else if choice <= 9 {
        e := IsNullPredicate(cols);
        FitsMore(e, cols, 2, cols, BoolHeight(depth));
      } else if choice <= 10 {
        e := BetweenPredicate(cols);
        FitsMore(e, cols, 2, cols, BoolHeight(depth));
      } else if choice <= 11 {
        e := InPredicate(cols, depth);
      } else {
        e := LikePredicate(cols);
        FitsMore(e, cols, 3, cols, BoolHeight(depth));
      }
    }
  }
}
