/**
 A small semantics of the snapshot fragment: SELECT with ALL INNER JOIN and WHERE, UNION ALL,
 sequential CTEs, scalar and IN subqueries, and accurateCast. Rows come in a fixed order, so
 equal results are equal as bags. Evaluation is strict: any failure, a name that does not
 resolve included, fails the query. An alias written in a
 projection, an ON condition or a WHERE is substituted for an unqualified column of its name throughout
 its SELECT, as ClickHouse does.
 */
module SnapshotEval {
  import opened Common
  import opened SnapshotIntegers
  import opened SnapshotAst

  datatype Payload = Integer(n: int) | Text(s: string)

  datatype Value = Null | Val(typ: Type, payload: Payload)

  type Row = seq<Value>

  datatype Res<+T> = Done(value: T) | Fail {
    predicate IsFailure() {
      Fail?
    }

    function PropagateFailure<U>(): Res<U>
      requires Fail?
    {
      Fail
    }

    function Extract(): T
      requires Done?
    {
      value
    }
  }

  datatype TableValue = TableValue(cols: seq<string>, rows: seq<Row>)

  type Env = map<string, Res<TableValue>>

  /** The stored tables by database and name, and the database of an unqualified name. */
  datatype Db = Db(current: string, tables: map<(string, string), TableValue>)

  /** A column in scope: its relation's qualifier ("" for none) and its name. */
  datatype QName = QName(qual: string, name: string)

  /** A row with the value of each alias of the SELECT on that row. */
  datatype RowEnv = RowEnv(vals: Row, alias: map<string, Res<Value>>)

  datatype Source = Source(cols: seq<QName>, rows: seq<Row>)

  predicate Hit(c: QName, qual: string, name: string)
  {
    c.name == name && (qual == "" || c.qual == qual)
  }

  /** The columns of cols that a reference may mean, in order. */
  function Hits(cols: seq<QName>, qual: string, name: string): (r: seq<nat>)
    ensures forall k :: 0 <= k < |r| ==> r[k] < |cols| && Hit(cols[r[k]], qual, name)
    ensures forall i :: 0 <= i < |cols| && Hit(cols[i], qual, name) ==> i in r
  {
    if cols == [] then []
    else
      var n := |cols| - 1;
      Hits(cols[..n], qual, name) + if Hit(cols[n], qual, name) then [n] else []
  }

  function Tag(qual: string, names: seq<string>): (r: seq<QName>)
    ensures |r| == |names|
    ensures forall i :: 0 <= i < |r| ==> r[i] == QName(qual, names[i])
  {
    if names == [] then [] else Tag(qual, names[..|names| - 1]) + [QName(qual, names[|names| - 1])]
  }

  function Lookup(cols: seq<QName>, qual: string, name: string, row: Row): Res<Value>
  {
    var hits := Hits(cols, qual, name);
    if |hits| == 1 && hits[0] < |row| then Done(row[hits[0]]) else Fail
  }

  function Truth(b: bool): Value
  {
    Val(UInt8, Payload.Integer(if b then 1 else 0))
  }

  function Compare(op: Op, l: int, r: int): bool
  {
    match op
    case Eq => l == r
    case Neq => l != r
    case Gt => l > r
    case Gte => l >= r
    case Lt => l < r
    case Lte => l <= r
    case And => l != 0 && r != 0
    case Or => l != 0 || r != 0
  }

  predicate Known(v: Value, truth: bool)
  {
    v.Val? && v.payload.Integer? && (v.payload.n != 0) == truth
  }

  /** Comparison and three-valued AND / OR. */
  function Apply(op: Op, l: Value, r: Value): Res<Value>
  {
    if op.And? && (Known(l, false) || Known(r, false)) then Done(Truth(false))
    else if op.Or? && (Known(l, true) || Known(r, true)) then Done(Truth(true))
    else if l.Null? || r.Null? then Done(Null)
    else if l.payload.Integer? && r.payload.Integer? then Done(Truth(Compare(op, l.payload.n, r.payload.n)))
    else Fail
  }

  function Negate(v: Value): Res<Value>
  {
    match v
    case Null => Done(Null)
    case Val(_, Integer(n)) => Done(Truth(n == 0))
    case Val(_, Text(_)) => Fail
  }

  /** IN answers 0 for a NULL left operand and ignores a NULL element, so it is never NULL. */
  function Member(v: Value, rows: seq<Row>): bool
  {
    rows != [] && ((|rows[0]| == 1 && v.Val? && rows[0][0].Val? && v.payload == rows[0][0].payload) || Member(v, rows[1..]))
  }

  /** accurateCast under cast_keep_nullable = 0: NULL and a value outside the type fail. */
  function AccurateCast(v: Value, t: Type): Res<Value>
  {
    match v
    case Null => Fail
    case Val(_, Integer(n)) => if InRange(n, t) then Done(Val(t, Payload.Integer(n))) else Fail
    case Val(_, Text(s)) =>
      match ParseDecimal(s)
      case Some(n) => if InRange(n, t) then Done(Val(t, Payload.Integer(n))) else Fail
      case None => Fail
  }

  function NumberValue(n: int): Res<Value>
  {
    match Smallest(n)
    case Some(t) => Done(Val(t, Payload.Integer(n)))
    case None => Fail
  }

  function LiteralValue(text: string): Res<Value>
  {
    if IsDecimal(text) then NumberValue(ParseDigits(text)) else Fail
  }

  function NegatedLiteral(e: Expr): Res<Value>
  {
    if e.Number? && IsDecimal(e.text) then NumberValue(-ParseDigits(e.text)) else Fail
  }

  /** No row is NULL, one row is its value, more rows fail. */
  function ScalarValue(rows: seq<Row>): Res<Value>
  {
    if rows == [] then Done(Null) else if |rows| == 1 && |rows[0]| == 1 then Done(rows[0][0]) else Fail
  }

  function EvalExpr(e: Expr, cols: seq<QName>, row: RowEnv, env: Env, db: Db): Res<Value>
    decreases e, 0
  {
    match e
    case Number(text) => LiteralValue(text)
    case Str(s) => Done(Val(Named("String"), Text(s)))
    case DollarString(s) => Done(Val(Named("String"), Text(DollarBody(s))))
    case Column(None, c) => if c.name in row.alias then row.alias[c.name] else Lookup(cols, "", c.name, row.vals)
    case Column(Some(t), c) => Lookup(cols, t.name, c.name, row.vals)
    case Paren(x) => EvalExpr(x, cols, row, env, db)
    case Aliased(x, _) => EvalExpr(x, cols, row, env, db)
    case Neg(x) => NegatedLiteral(StripParens(x))
    case Scalar(q) =>
      var t :- EvalQuery(q, env, db);
      ScalarValue(t.rows)
    case Binary(op, l, r) =>
      var a :- EvalExpr(l, cols, row, env, db);
      var b :- EvalExpr(r, cols, row, env, db);
      Apply(op, a, b)
    case Not(x) =>
      var a :- EvalExpr(x, cols, row, env, db);
      Negate(a)
    case In(x, q) =>
      var a :- EvalExpr(x, cols, row, env, db);
      var t :- EvalQuery(q, env, db);
      Done(Truth(Member(a, t.rows)))
    case Cast(x, t) =>
      var a :- EvalExpr(x, cols, row, env, db);
      AccurateCast(a, t)
    case _ => Fail
  }

  /** The value of every alias written in e, its own expression read without aliases. */
  function AliasValues(e: Expr, cols: seq<QName>, vals: Row, env: Env, db: Db): map<string, Res<Value>>
    decreases e, 1
  {
    match e
    case Paren(x) => AliasValues(x, cols, vals, env, db)
    case Aliased(x, a) =>
      AliasValues(x, cols, vals, env, db)[a.name := EvalExpr(x, cols, RowEnv(vals, map[]), env, db)]
    case Binary(_, l, r) => AliasValues(l, cols, vals, env, db) + AliasValues(r, cols, vals, env, db)
    case Not(x) => AliasValues(x, cols, vals, env, db)
    case In(x, _) => AliasValues(x, cols, vals, env, db)
    case Cast(x, _) => AliasValues(x, cols, vals, env, db)
    case _ => map[]
  }

  function ItemAliases(items: seq<Expr>, cols: seq<QName>, vals: Row, env: Env, db: Db): map<string, Res<Value>>
    decreases items, 0
  {
    if items == [] then map[]
    else AliasValues(items[0], cols, vals, env, db) + ItemAliases(items[1..], cols, vals, env, db)
  }

  function OnAliases(joins: seq<Join>, cols: seq<QName>, vals: Row, env: Env, db: Db): map<string, Res<Value>>
    decreases joins, 0
  {
    if joins == [] then map[]
    else JoinAliases(joins[0], cols, vals, env, db) + OnAliases(joins[1..], cols, vals, env, db)
  }

  function JoinAliases(j: Join, cols: seq<QName>, vals: Row, env: Env, db: Db): map<string, Res<Value>>
    decreases j, 0
  {
    AliasValues(j.on, cols, vals, env, db)
  }

  function FilterAliases(filter: Option<Expr>, cols: seq<QName>, vals: Row, env: Env, db: Db): map<string, Res<Value>>
    decreases filter, 0
  {
    match filter
    case None => map[]
    case Some(e) => AliasValues(e, cols, vals, env, db)
  }

  /** The aliases of a SELECT: those written in its projection, in its ON conditions and in its WHERE. */
  function SelectAliases(s: Query, cols: seq<QName>, vals: Row, env: Env, db: Db): map<string, Res<Value>>
    requires s.Select?
    decreases s, 0
  {
    ItemAliases(s.items, cols, vals, env, db) + OnAliases(s.joins, cols, vals, env, db) + FilterAliases(s.filter, cols, vals, env, db)
  }

  function Annotate(s: Query, cols: seq<QName>, rows: seq<Row>, env: Env, db: Db): (r: seq<RowEnv>)
    requires s.Select?
    ensures |r| == |rows|
    decreases s, 1, |rows|
  {
    if rows == [] then []
    else [RowEnv(rows[0], SelectAliases(s, cols, rows[0], env, db))] + Annotate(s, cols, rows[1..], env, db)
  }

  /** The rows on which e is a non-zero number. */
  function FilterRows(e: Expr, cols: seq<QName>, rows: seq<RowEnv>, env: Env, db: Db): Res<seq<Row>>
    decreases e, 1, |rows|
  {
    if rows == [] then Done([])
    else
      var v :- EvalExpr(e, cols, rows[0], env, db);
      var rest :- FilterRows(e, cols, rows[1..], env, db);
      Done((if Known(v, true) then [rows[0].vals] else []) + rest)
  }

  function EvalItems(items: seq<Expr>, cols: seq<QName>, row: RowEnv, env: Env, db: Db): Res<Row>
    decreases items, 0
  {
    if items == [] then Done([])
    else
      var v :- EvalExpr(items[0], cols, row, env, db);
      var rest :- EvalItems(items[1..], cols, row, env, db);
      Done([v] + rest)
  }

  function ProjectRows(items: seq<Expr>, cols: seq<QName>, rows: seq<RowEnv>, env: Env, db: Db): Res<seq<Row>>
    decreases items, 1, |rows|
  {
    if rows == [] then Done([])
    else
      var r :- EvalItems(items, cols, rows[0], env, db);
      var rest :- ProjectRows(items, cols, rows[1..], env, db);
      Done([r] + rest)
  }

  function PrefixEach(r: Row, rows: seq<Row>): seq<Row>
  {
    if rows == [] then [] else [r + rows[0]] + PrefixEach(r, rows[1..])
  }

  function Product(left: seq<Row>, right: seq<Row>): seq<Row>
  {
    if left == [] then [] else PrefixEach(left[0], right) + Product(left[1..], right)
  }

  function EvalRel(r: Rel, env: Env, db: Db): Res<TableValue>
    decreases r
  {
    match r
    case Table(_, None, name, _, _) =>
      if name.name in env then env[name.name]
      else if (db.current, name.name) in db.tables then Done(db.tables[(db.current, name.name)])
      else Fail
    case Table(_, Some(s), name, _, _) =>
      if (s.name, name.name) in db.tables then Done(db.tables[(s.name, name.name)]) else Fail
    case Derived(q, _) => EvalQuery(q, env, db)
    case UnsupportedRel => Fail
  }

  function EvalFrom(from: Option<Rel>, env: Env, db: Db): Res<Source>
    decreases from
  {
    match from
    case None => Done(Source([], [[]]))
    case Some(r) =>
      var t :- EvalRel(r, env, db);
      Done(Source(Tag(Qualifier(r), t.cols), t.rows))
  }

  /** One ALL INNER JOIN: the product, then the rows of the ON condition. */
  function EvalJoin(s: Query, k: nat, src: Source, env: Env, db: Db): Res<Source>
    requires s.Select? && k < |s.joins|
    decreases s, 2
  {
    var j := s.joins[k];
    var t :- EvalRel(j.rel, env, db);
    var cols := src.cols + Tag(Qualifier(j.rel), t.cols);
    var rows := Annotate(s, cols, Product(src.rows, t.rows), env, db);
    var kept :- FilterRows(j.on, cols, rows, env, db);
    Done(Source(cols, kept))
  }

  function EvalJoins(s: Query, k: nat, src: Source, env: Env, db: Db): Res<Source>
    requires s.Select? && k <= |s.joins|
    decreases s, 3, |s.joins| - k
  {
    if k == |s.joins| then Done(src)
    else
      var next :- EvalJoin(s, k, src, env, db);
      EvalJoins(s, k + 1, next, env, db)
  }

  function EvalCte(c: Cte, env: Env, db: Db): Res<TableValue>
    decreases c
  {
    EvalQuery(c.query, env, db)
  }

  function EvalWith(ctes: seq<Cte>, env: Env, db: Db): Env
    decreases ctes
  {
    if ctes == [] then env
    else EvalWith(ctes[1..], env[ctes[0].alias.name := EvalCte(ctes[0], env, db)], db)
  }

  /** FROM, JOIN and WHERE of a SELECT whose WITH is already in env. */
  function EvalSource(s: Query, env: Env, db: Db): Res<Source>
    requires s.Select?
    decreases s, 4
  {
    var first :- EvalFrom(s.from, env, db);
    var src :- EvalJoins(s, 0, first, env, db);
    match s.filter
    case None => Done(src)
    case Some(e) =>
      var kept :- FilterRows(e, src.cols, Annotate(s, src.cols, src.rows, env, db), env, db);
      Done(Source(src.cols, kept))
  }

  function Names(items: seq<Expr>): seq<string>
  {
    if items == [] then [] else [OutputName(items[0])] + Names(items[1..])
  }

  function ColumnNamesOf(cols: seq<QName>): seq<string>
  {
    if cols == [] then [] else [cols[0].name] + ColumnNamesOf(cols[1..])
  }

  /** `*`: every column in scope, in order. */
  function Star(src: Source): TableValue
  {
    TableValue(ColumnNamesOf(src.cols), src.rows)
  }

  function EvalSelect(s: Query, env: Env, db: Db): Res<TableValue>
    requires s.Select?
    decreases s, 5
  {
    var src :- EvalSource(s, env, db);
    var rows :- ProjectRows(s.items, src.cols, Annotate(s, src.cols, src.rows, env, db), env, db);
    Done(TableValue(Names(s.items), rows))
  }

  function EvalQuery(q: Query, env: Env, db: Db): Res<TableValue>
    decreases q, 6
  {
    match q
    case Select(ctes, _, _, _, _) => EvalSelect(q, EvalWith(ctes, env, db), db)
    case Union(ctes, l, r) =>
      var inner := EvalWith(ctes, env, db);
      var a :- EvalQuery(l, inner, db);
      var b :- EvalQuery(r, inner, db);
      if |a.cols| == |b.cols| then Done(TableValue(a.cols, a.rows + b.rows)) else Fail
    case SelectAll(ctes, rel) =>
      var t :- EvalRel(rel, EvalWith(ctes, env, db), db);
      Done(Star(Source(Tag(Qualifier(rel), t.cols), t.rows)))
    case UnsupportedQuery => Fail
  }
}
