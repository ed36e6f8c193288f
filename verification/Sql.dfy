/**
 The statements the mutation engine works on, and what they mean.

 A `Node` is one node of the parser's tree. As in the parser there is one node type for
 expressions, table references and statements alike, and code that meets a node it does not
 expect simply skips it. `Nil` stands for an absent child.

 The meaning of a statement is given over an arbitrary database: collation, the meaning of
 functions, of casts and of every construct the engine never looks into are parameters.
 */
module Sql {

  datatype Option<+T> = None | Some(value: T)

  datatype Value = Null | Int(i: int) | Str(s: string)
  type Row = seq<Value>

  // Three-valued logic, section 8.12 of SQL-92.
  datatype Truth = False | Unknown | True

  datatype Op =
    | LogicAnd | LogicOr | LogicXor
    | GE | LE | EQ | NE | LT | GT | NullEQ
    | Arith(id: nat)

  datatype SetOp = Union | UnionAll

  datatype JoinType = CrossJoin | LeftJoin | RightJoin

  datatype Node =
    | Nil
    // Expressions
    | Lit(v: Value)
    | Leaf(id: nat, kids: seq<Node>)      // columns, CASE, ...: everything no visitor looks into
    | Agg(name: string, args: seq<Node>)
    | Func(name: string, args: seq<Node>)
    | Cast(ty: nat, e: Node)
    | Binary(op: Op, l: Node, r: Node)
    | Not(e: Node)
    | Paren(e: Node)
    | IsTruth(neg: bool, isTrue: bool, e: Node)
    | IsNull(neg: bool, e: Node)
    | Between(neg: bool, e: Node, lo: Node, hi: Node)
    | InList(neg: bool, e: Node, list: seq<Node>)
    | InSub(neg: bool, e: Node, sel: Node)
    | Like(neg: bool, e: Node, pattern: Node)
    | Exists(neg: bool, sel: Node)
    | CompareSub(op: Op, all: bool, l: Node, r: Node)
    // Both an expression and a table
    | Subquery(query: Node)
    // Tables and statements
    | TableName(name: string)
    | TableSource(source: Node)
    | Join(tp: JoinType, left: Node, right: Node, on: Node, leftWidth: nat, rightWidth: nat)
    | Select(distinct: bool, ordered: bool, grouped: bool, limit: Option<nat>, after: Option<SetOp>,
             from: Node, where: Node, having: Node, with: Node, fields: seq<Node>)
    | SetOprList(after: Option<SetOp>, with: Node, selects: seq<Node>)
    | SetOprStmt(limit: Option<nat>, selectList: Node, with: Node)
    | With(recursive: bool, ctes: seq<Node>)
    | Cte(name: string, query: Node)

  // ---------------------------------------------------------------------------------------
  // Children and addresses

  /** The children of a node, in a fixed order. */
  function Kids(n: Node): (ks: seq<Node>)
    ensures forall i :: 0 <= i < |ks| ==> ks[i] < n
  {
    match n
    case Leaf(_, kids) => kids
    case Agg(_, args) => args
    case Func(_, args) => args
    case Cast(_, e) => [e]
    case Binary(_, l, r) => [l, r]
    case Not(e) => [e]
    case Paren(e) => [e]
    case IsTruth(_, _, e) => [e]
    case IsNull(_, e) => [e]
    case Between(_, e, lo, hi) => [e, lo, hi]
    case InList(_, e, list) => [e] + list
    case InSub(_, e, sel) => [e, sel]
    case Like(_, e, pattern) => [e, pattern]
    case Exists(_, sel) => [sel]
    case CompareSub(_, _, l, r) => [l, r]
    case Subquery(query) => [query]
    case TableSource(source) => [source]
    case Join(_, left, right, on, _, _) => [left, right, on]
    case Select(_, _, _, _, _, from, where, having, with, fields) => [from, where, having, with] + fields
    case SetOprList(_, with, selects) => [with] + selects
    case SetOprStmt(_, selectList, with) => [selectList, with]
    case With(_, ctes) => ctes
    case Cte(_, query) => [query]
    case _ => []
  }

  /** The node with the same own fields as `n` and other children. */
  function WithKids(n: Node, ks: seq<Node>): (m: Node)
    requires |ks| == |Kids(n)|
    ensures Kids(m) == ks
  {
    match n
    case Leaf(id, _) => Leaf(id, ks)
    case Agg(name, _) => Agg(name, ks)
    case Func(name, _) => Func(name, ks)
    case Cast(ty, _) => Cast(ty, ks[0])
    case Binary(op, _, _) => Binary(op, ks[0], ks[1])
    case Not(_) => Not(ks[0])
    case Paren(_) => Paren(ks[0])
    case IsTruth(neg, isTrue, _) => IsTruth(neg, isTrue, ks[0])
    case IsNull(neg, _) => IsNull(neg, ks[0])
    case Between(neg, _, _, _) => Between(neg, ks[0], ks[1], ks[2])
    case InList(neg, _, _) => InList(neg, ks[0], ks[1..])
    case InSub(neg, _, _) => InSub(neg, ks[0], ks[1])
    case Like(neg, _, _) => Like(neg, ks[0], ks[1])
    case Exists(neg, _) => Exists(neg, ks[0])
    case CompareSub(op, all, _, _) => CompareSub(op, all, ks[0], ks[1])
    case Subquery(_) => Subquery(ks[0])
    case TableSource(_) => TableSource(ks[0])
    case Join(tp, _, _, _, lw, rw) => Join(tp, ks[0], ks[1], ks[2], lw, rw)
    case Select(distinct, ordered, grouped, limit, after, _, _, _, _, _) =>
      Select(distinct, ordered, grouped, limit, after, ks[0], ks[1], ks[2], ks[3], ks[4..])
    case SetOprList(after, _, _) => SetOprList(after, ks[0], ks[1..])
    case SetOprStmt(limit, _, _) => SetOprStmt(limit, ks[0], ks[1])
    case With(recursive, _) => With(recursive, ks)
    case Cte(name, _) => Cte(name, ks[0])
    case _ => n
  }

  lemma WithKidsSame(n: Node)
    ensures WithKids(n, Kids(n)) == n
  {
    match n
    case InList(_, e, list) => assert ([e] + list)[1..] == list;
    case Select(_, _, _, _, _, from, where, having, with, fields) =>
      assert ([from, where, having, with] + fields)[4..] == fields;
    case SetOprList(_, with, selects) => assert ([with] + selects)[1..] == selects;
    case _ =>
  }

  lemma WithKidsTwice(n: Node, a: seq<Node>, b: seq<Node>)
    requires |a| == |b| == |Kids(n)|
    ensures WithKids(WithKids(n, a), b) == WithKids(n, b)
  {
    if n.Select? {
      SelectKidsTwice(n, a, b);
    } else if n.Leaf? || n.Agg? || n.Func? || n.InList? || n.With? || n.SetOprList? {
      ListKidsTwice(n, a, b);
    } else if n.Join? || n.SetOprStmt? || n.Cte? || n.Subquery? || n.TableSource? {
      TableKidsTwice(n, a, b);
    }
  }

  lemma SelectKidsTwice(n: Node, a: seq<Node>, b: seq<Node>)
    requires n.Select? && |a| == |b| == |Kids(n)|
    ensures WithKids(WithKids(n, a), b) == WithKids(n, b)
  {
  }

  lemma TableKidsTwice(n: Node, a: seq<Node>, b: seq<Node>)
    requires |a| == |b| == |Kids(n)|
    requires n.Join? || n.SetOprStmt? || n.Cte? || n.Subquery? || n.TableSource?
    ensures WithKids(WithKids(n, a), b) == WithKids(n, b)
  {
  }

  lemma ListKidsTwice(n: Node, a: seq<Node>, b: seq<Node>)
    requires |a| == |b| == |Kids(n)|
    requires n.Leaf? || n.Agg? || n.Func? || n.InList? || n.With? || n.SetOprList?
    ensures WithKids(WithKids(n, a), b) == WithKids(n, b)
  {
  }

  /** `n` with its `i`-th child replaced. */
  function WithKid(n: Node, i: nat, m: Node): (r: Node)
    requires i < |Kids(n)|
    ensures Kids(r) == Kids(n)[i := m]
  {
    WithKids(n, Kids(n)[i := m])
  }

  // The address of a node inside a tree: which child to take, from the root down.
  type Path = seq<nat>

  predicate ValidPath(n: Node, p: Path) {
    p == [] || (p[0] < |Kids(n)| && ValidPath(Kids(n)[p[0]], p[1..]))
  }

  function At(n: Node, p: Path): Node
    requires ValidPath(n, p)
  {
    if p == [] then n else At(Kids(n)[p[0]], p[1..])
  }

  function Put(n: Node, p: Path, m: Node): (r: Node)
    requires ValidPath(n, p)
  {
    if p == [] then m else WithKid(n, p[0], Put(Kids(n)[p[0]], p[1..], m))
  }

  // ---------------------------------------------------------------------------------------
  // The database and the environment of an evaluation

  datatype Order = Less | Equal | Greater

  datatype Db = Db(
    tables: string -> seq<Row>,
    order: (Value, Value) -> Order,              // collation and type coercion, any function
    strTrue: string -> bool,                     // is a string, used as a condition, non-zero?
    text: int -> string,
    sameChar: (char, char) -> bool,              // LIKE's idea of equal characters
    arith: (nat, Value, Value) -> Value,
    leaf: (nat, seq<Value>, seq<Row>) -> Value,
    func: (string, seq<Value>, seq<Row>) -> Value,
    agg: (string, seq<Value>, seq<Row>) -> Value,
    cast: (nat, Value) -> Value,
    scalar: multiset<Row> -> Value,              // a subquery used as a value
    clip: (bool, Option<nat>, seq<Row>, seq<Row>) -> seq<Row>,  // GROUP BY and LIMIT
    recursive: (string, seq<Row>) -> seq<Row>,        // WITH RECURSIVE
    cteNames: set<string>)                       // the names common table expressions may have

  // The rows in scope, innermost first, and the common table expressions in scope.
  datatype Env = Env(rows: seq<Row>, ctes: map<string, seq<Row>>)

  /** Only names meant for common table expressions are bound; every other name is a table. */
  predicate Known(db: Db, env: Env) {
    env.ctes.Keys <= db.cteNames
  }

  function Push(env: Env, r: Row): Env {
    env.(rows := [r] + env.rows)
  }

  // ---------------------------------------------------------------------------------------
  // Truth values

  function Not3(t: Truth): Truth {
    match t case False => True case Unknown => Unknown case True => False
  }

  function And3(a: Truth, b: Truth): Truth {
    if a == False || b == False then False else if a == True && b == True then True else Unknown
  }

  function Or3(a: Truth, b: Truth): Truth {
    if a == True || b == True then True else if a == False && b == False then False else Unknown
  }

  function Xor3(a: Truth, b: Truth): Truth {
    if a == Unknown || b == Unknown then Unknown else Decide(a != b)
  }

  function Decide(b: bool): Truth {
    if b then True else False
  }

  function Flip(neg: bool, t: Truth): Truth {
    if neg then Not3(t) else t
  }

  function FromTruth(t: Truth): Value {
    match t case False => Int(0) case Unknown => Null case True => Int(1)
  }

  function ToTruth(db: Db, v: Value): Truth {
    match v
    case Null => Unknown
    case Int(i) => Decide(i != 0)
    case Str(s) => Decide(db.strTrue(s))
  }

  // ---------------------------------------------------------------------------------------
  // Predicates, sections 8.2 to 8.8 of SQL-92

  function Compare(db: Db, op: Op, a: Value, b: Value): Truth {
    if op == NullEQ then
      if a == Null || b == Null then Decide(a == b) else Decide(db.order(a, b) == Equal)
    else if a == Null || b == Null then Unknown
    else
      match op
      case GE => Decide(db.order(a, b) != Less)
      case LE => Decide(db.order(a, b) != Greater)
      case EQ => Decide(db.order(a, b) == Equal)
      case NE => Decide(db.order(a, b) != Equal)
      case LT => Decide(db.order(a, b) == Less)
      case GT => Decide(db.order(a, b) == Greater)
      case _ => Unknown
  }

  function Between3(db: Db, a: Value, lo: Value, hi: Value): Truth {
    And3(Compare(db, GE, a, lo), Compare(db, LE, a, hi))
  }

  /** `a op ANY (vs)`; with EQ this is also `a IN (vs)`. */
  function Any3(db: Db, op: Op, a: Value, vs: seq<Value>): Truth {
    if vs == [] then False else Or3(Compare(db, op, a, vs[0]), Any3(db, op, a, vs[1..]))
  }

  /** `a op ALL (vs)`. */
  function All3(db: Db, op: Op, a: Value, vs: seq<Value>): Truth {
    if vs == [] then True else And3(Compare(db, op, a, vs[0]), All3(db, op, a, vs[1..]))
  }

  const ESCAPE: char := '\\'

  /** Does `s` match the LIKE pattern `p`? */
  predicate Matches(same: (char, char) -> bool, s: string, p: string)
    decreases |s| + |p|
  {
    if p == [] then s == []
    else if p[0] == '%' then
      Matches(same, s, p[1..]) || (s != [] && Matches(same, s[1..], p))
    else if p[0] == ESCAPE && |p| > 1 then
      s != [] && same(s[0], p[1]) && Matches(same, s[1..], p[2..])
    else
      s != [] && (p[0] == '_' || same(s[0], p[0])) && Matches(same, s[1..], p[1..])
  }

  function Text(db: Db, v: Value): string {
    match v case Null => "" case Int(i) => db.text(i) case Str(s) => s
  }

  function Like3(db: Db, a: Value, p: Value): Truth {
    if a == Null || p == Null then Unknown
    else Decide(Matches(db.sameChar, Text(db, a), Text(db, p)))
  }

  function BinaryOp(db: Db, op: Op, a: Value, b: Value): Value {
    match op
    case LogicAnd => FromTruth(And3(ToTruth(db, a), ToTruth(db, b)))
    case LogicOr => FromTruth(Or3(ToTruth(db, a), ToTruth(db, b)))
    case LogicXor => FromTruth(Xor3(ToTruth(db, a), ToTruth(db, b)))
    case Arith(id) => db.arith(id, a, b)
    case _ => FromTruth(Compare(db, op, a, b))
  }

  // ---------------------------------------------------------------------------------------
  // Rows

  function FlatMap(s: seq<Row>, f: Row -> seq<Row>): seq<Row> {
    if s == [] then [] else f(s[0]) + FlatMap(s[1..], f)
  }

  function Distinct(s: seq<Row>): seq<Row> {
    if s == [] then []
    else if s[0] in s[1..] then Distinct(s[1..])
    else [s[0]] + Distinct(s[1..])
  }

  function Nulls(width: nat): Row {
    seq(width, _ => Null)
  }

  /** The column a subquery after IN, ANY or ALL is compared with. */
  function FirstColumn(rows: seq<Row>): (vs: seq<Value>)
    ensures |vs| == |rows|
  {
    seq(|rows|, i requires 0 <= i < |rows| => if rows[i] == [] then Null else rows[i][0])
  }

  /** Is this element of a set operation attached with UNION ALL? */
  predicate AfterAll(n: Node) {
    (n.Select? || n.SetOprList?) && n.after == Some(UnionAll)
  }

  datatype Part = Part(all: bool, rows: seq<Row>)

  function Combine(all: bool, acc: seq<Row>, rows: seq<Row>): seq<Row> {
    if all then acc + rows else Distinct(acc + rows)
  }

  /** A UNION chain, left to right; the first element's own operator does not count. */
  function Chain(parts: seq<Part>): seq<Row> {
    if parts == [] then []
    else
      var k := |parts| - 1;
      if k == 0 then parts[0].rows else Combine(parts[k].all, Chain(parts[..k]), parts[k].rows)
  }

  // ---------------------------------------------------------------------------------------
  // Evaluation

  /** The value of an expression; nodes that are no expressions have the value NULL. */
  function Eval(db: Db, n: Node, env: Env): Value
    decreases n, 1
  {
    match n
    case Lit(v) => v
    case Leaf(id, kids) => db.leaf(id, EvalAll(db, kids, env), env.rows)
    case Agg(name, args) =>
      if name == "" && |args| == 1 then Eval(db, args[0], env) else db.agg(name, EvalAll(db, args, env), env.rows)
    case Func(name, args) =>
      if name == "" && |args| == 1 then Eval(db, args[0], env) else db.func(name, EvalAll(db, args, env), env.rows)
    case Cast(ty, e) => db.cast(ty, Eval(db, e, env))
    case Binary(op, l, r) => BinaryOp(db, op, Eval(db, l, env), Eval(db, r, env))
    case Not(e) => FromTruth(Not3(ToTruth(db, Eval(db, e, env))))
    case Paren(e) => Eval(db, e, env)
    case IsTruth(neg, isTrue, e) =>
      FromTruth(Flip(neg, Decide(ToTruth(db, Eval(db, e, env)) == Decide(isTrue))))
    case IsNull(neg, e) => FromTruth(Flip(neg, Decide(Eval(db, e, env) == Null)))
    case Between(neg, e, lo, hi) =>
      FromTruth(Flip(neg, Between3(db, Eval(db, e, env), Eval(db, lo, env), Eval(db, hi, env))))
    case InList(neg, e, list) => FromTruth(Flip(neg, Any3(db, EQ, Eval(db, e, env), EvalAll(db, list, env))))
    case InSub(neg, e, sel) =>
      FromTruth(Flip(neg, Any3(db, EQ, Eval(db, e, env), FirstColumn(Rows(db, sel, env)))))
    case Like(neg, e, pattern) =>
      FromTruth(Flip(neg, Like3(db, Eval(db, e, env), Eval(db, pattern, env))))
    case Exists(neg, sel) => FromTruth(Flip(neg, Decide(Rows(db, sel, env) != [])))
    case CompareSub(op, all, l, r) =>
      var a, vs := Eval(db, l, env), FirstColumn(Rows(db, r, env));
      FromTruth(if all then All3(db, op, a, vs) else Any3(db, op, a, vs))
    case Subquery(query) => db.scalar(multiset(Rows(db, query, env)))
    case _ => Null
  }

  function EvalAll(db: Db, ns: seq<Node>, env: Env): (vs: seq<Value>)
    ensures |vs| == |ns|
    decreases ns, 0
  {
    if ns == [] then [] else [Eval(db, ns[0], env)] + EvalAll(db, ns[1..], env)
  }

  /** WHERE, HAVING and ON keep what is True; an absent condition keeps everything. */
  predicate Holds(db: Db, cond: Node, env: Env)
    decreases cond, 2
  {
    cond.Nil? || ToTruth(db, Eval(db, cond, env)) == True
  }

  /** The rows of a table or statement; the absent table has one empty row. */
  function Rows(db: Db, n: Node, env: Env): seq<Row>
    decreases n, 4
  {
    match n
    case Nil => [[]]
    case TableName(name) => if name in env.ctes then env.ctes[name] else db.tables(name)
    case TableSource(source) => Rows(db, source, env)
    case Subquery(query) => Rows(db, query, env)
    case Join(CrossJoin, left, right, _, _, _) => FlatMap(Rows(db, left, env), CrossFn(db, n, env))
    case Join(LeftJoin, left, right, _, _, _) => FlatMap(Rows(db, left, env), LeftFn(db, n, env))
    case Join(RightJoin, left, right, _, _, _) => FlatMap(Rows(db, right, env), RightFn(db, n, env))
    case Select(distinct, _, grouped, limit, _, from, _, _, with, _) =>
      var inner := Bind(db, with, env);
      var kept := FlatMap(Rows(db, from, inner), SelectFn(db, n, inner));
      var rows := if distinct then Distinct(kept) else kept;
      if grouped || limit.Some? then db.clip(grouped, limit, rows, inner.rows) else rows
    case SetOprList(_, with, selects) => Chain(Parts(db, selects, Bind(db, with, env)))
    case SetOprStmt(limit, selectList, with) =>
      var inner := Bind(db, with, env);
      var rows := Rows(db, selectList, inner);
      if limit.Some? then db.clip(false, limit, rows, inner.rows) else rows
    case _ => []
  }

  /** What one source row contributes to a SELECT; without a field list the row itself. */
  function SelectFn(db: Db, n: Node, env: Env): Row -> seq<Row>
    requires n.Select?
    decreases n, 3
  {
    (r: Row) =>
      var inner := Push(env, r);
      if Holds(db, n.where, inner) && Holds(db, n.having, inner) then
        [if n.fields == [] then r else EvalAll(db, n.fields, inner)]
      else []
  }

  function OnFn(db: Db, n: Node, env: Env, l: Row): Row -> seq<Row>
    requires n.Join?
    decreases n, 2
  {
    (r: Row) => if Holds(db, n.on, Push(env, l + r)) then [l + r] else []
  }

  function CrossFn(db: Db, n: Node, env: Env): Row -> seq<Row>
    requires n.Join?
    decreases n, 3
  {
    (l: Row) => FlatMap(Rows(db, n.right, env), OnFn(db, n, env, l))
  }

  function LeftFn(db: Db, n: Node, env: Env): Row -> seq<Row>
    requires n.Join?
    decreases n, 3
  {
    (l: Row) =>
      var ms := FlatMap(Rows(db, n.right, env), OnFn(db, n, env, l));
      if ms == [] then [l + Nulls(n.rightWidth)] else ms
  }

  function RightFn(db: Db, n: Node, env: Env): Row -> seq<Row>
    requires n.Join?
    decreases n, 3
  {
    (r: Row) =>
      var ms := FlatMap(Rows(db, n.left, env),
                        (l: Row) => if Holds(db, n.on, Push(env, l + r)) then [l + r] else []);
      if ms == [] then [Nulls(n.leftWidth) + r] else ms
  }

  /** The elements of a UNION chain: how each is attached, and its rows. */
  function Parts(db: Db, sels: seq<Node>, env: Env): (parts: seq<Part>)
    ensures |parts| == |sels|
    decreases sels, 0
  {
    if sels == [] then [] else [Part(AfterAll(sels[0]), Rows(db, sels[0], env))] + Parts(db, sels[1..], env)
  }

  /** The environment inside a WITH clause; later expressions see the earlier ones. */
  function Bind(db: Db, w: Node, env: Env): Env
    decreases w, 3
  {
    if w.With? then BindAll(db, w.recursive, w.ctes, env) else env
  }

  function BindAll(db: Db, recursive: bool, ctes: seq<Node>, env: Env): Env
    decreases ctes, 2
  {
    if ctes == [] then env
    else
      var k := |ctes| - 1;
      var earlier := BindAll(db, recursive, ctes[..k], env);
      if !ctes[k].Cte? then earlier
      else
        var rows := if recursive then db.recursive(ctes[k].name, earlier.rows) else Rows(db, ctes[k].query, earlier);
        earlier.(ctes := earlier.ctes[ctes[k].name := rows])
  }
}
