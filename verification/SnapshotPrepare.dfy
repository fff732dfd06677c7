/**
 Prepare: drop the unused CTEs, point every used base table at its scratch table, put the output
 columns in target order with exact casts, and hoist the INSERT's WITH into the query.
 */
module SnapshotPrepare {
  import opened Common
  import opened SnapshotIntegers
  import opened SnapshotAst
  import opened SnapshotAnalyze

  type Bindings = map<string, (string, string)>

  /** The definitions to keep, the table objects to rename and the scratch table of each table id. */
  datatype Rewrite = Rewrite(used: set<Def>, nodes: seq<Bound>, bindings: Bindings) {
    predicate Covered() {
      forall b :: b in nodes ==> b.tableId in bindings
    }
  }

  predicate IsNameChar(c: char, first: bool)
  {
    c == '_' || 'a' <= c <= 'z' || 'A' <= c <= 'Z' || (!first && '0' <= c <= '9')
  }

  /** sid: an identifier node, quoted unless it is a plain word. */
  function Identifier(s: string): Ident
  {
    Ident(s, !(s != "" && forall i :: 0 <= i < |s| ==> IsNameChar(s[i], i == 0)))
  }

  /** The fields Prepare changes in a table object. */
  datatype TableFields = TableFields(schema: Option<Ident>, name: Ident, alias: Option<Ident>)

  /** One step of Prepare's loop over the bound relations. */
  function Renamed(f: TableFields, qualified: bool, others: set<string>, scratch: (string, string)): TableFields
  {
    TableFields(Some(Identifier(scratch.0)), Identifier(scratch.1),
                if f.alias.None? && (qualified || scratch.1 in others) then Some(f.name) else f.alias)
  }

  function RenameTable(r: Rel, b: Bound, scratch: (string, string)): Rel
    requires r.Table?
  {
    var f := Renamed(TableFields(r.schema, r.name, r.alias), b.qualified, b.others, scratch);
    r.(schema := f.schema, name := f.name, alias := f.alias)
  }

  function PrepRel(r: Rel, w: Rewrite): Rel
    requires w.Covered()
    decreases r
  {
    match r
    case Table(_, _, _, _, Some(b)) => if b in w.nodes then RenameTable(r, b, w.bindings[b.tableId]) else r
    case Derived(q, alias) => Derived(PrepQuery(q, w), alias)
    case _ => r
  }

  function PrepExpr(e: Expr, w: Rewrite): Expr
    requires w.Covered()
    decreases e
  {
    match e
    case Paren(x) => Paren(PrepExpr(x, w))
    case Aliased(x, a) => Aliased(PrepExpr(x, w), a)
    case Scalar(q) => Scalar(PrepQuery(q, w))
    case Binary(op, l, r) => Binary(op, PrepExpr(l, w), PrepExpr(r, w))
    case Not(x) => Not(PrepExpr(x, w))
    case In(x, q) => In(PrepExpr(x, w), PrepQuery(q, w))
    case _ => e
  }

  function PrepExprs(es: seq<Expr>, w: Rewrite): (r: seq<Expr>)
    requires w.Covered()
    ensures |r| == |es|
    ensures forall i :: 0 <= i < |r| ==> r[i] == PrepExpr(es[i], w)
    decreases es
  {
    if es == [] then [] else [PrepExpr(es[0], w)] + PrepExprs(es[1..], w)
  }

  function PrepJoin(j: Join, w: Rewrite): Join
    requires w.Covered()
    decreases j
  {
    Join(PrepRel(j.rel, w), PrepExpr(j.on, w), j.allInner)
  }

  function PrepJoins(js: seq<Join>, w: Rewrite): (r: seq<Join>)
    requires w.Covered()
    ensures |r| == |js|
    ensures forall i :: 0 <= i < |r| ==> r[i] == PrepJoin(js[i], w)
    decreases js
  {
    if js == [] then [] else [PrepJoin(js[0], w)] + PrepJoins(js[1..], w)
  }

  function PrepCte(c: Cte, w: Rewrite): Cte
    requires w.Covered()
    decreases c
  {
    c.(query := PrepQuery(c.query, w))
  }

  /** The CTEs whose definition is used, in order. */
  function PrepCtes(cs: seq<Cte>, w: Rewrite): seq<Cte>
    requires w.Covered()
    decreases cs
  {
    if cs == [] then []
    else (if cs[0].def.Some? && cs[0].def.value in w.used then [PrepCte(cs[0], w)] else []) + PrepCtes(cs[1..], w)
  }

  function PrepOptionRel(r: Option<Rel>, w: Rewrite): Option<Rel>
    requires w.Covered()
    decreases r
  {
    match r
    case None => None
    case Some(x) => Some(PrepRel(x, w))
  }

  function PrepOptionExpr(e: Option<Expr>, w: Rewrite): Option<Expr>
    requires w.Covered()
    decreases e
  {
    match e
    case None => None
    case Some(x) => Some(PrepExpr(x, w))
  }

  function PrepQuery(q: Query, w: Rewrite): Query
    requires w.Covered()
    decreases q
  {
    match q
    case Select(ctes, items, from, joins, filter) =>
      Select(PrepCtes(ctes, w), PrepExprs(items, w), PrepOptionRel(from, w), PrepJoins(joins, w), PrepOptionExpr(filter, w))
    case Union(ctes, l, r) => Union(PrepCtes(ctes, w), PrepQuery(l, w), PrepQuery(r, w))
    case SelectAll(ctes, rel) => SelectAll(PrepCtes(ctes, w), PrepRel(rel, w))
    case UnsupportedQuery => q
  }

  /** Where each target column comes from: its position in the query's projection, its column and its type. */
  datatype Output = Output(position: nat, col: Col, target: Type)

  /** wrapSnapshotOutput: accurateCast inside any alias, of `value` when it is given. */
  function WrapOutput(e: Expr, value: Option<Expr>, t: Type): Expr
  {
    match e
    case Aliased(x, a) => Aliased(WrapOutput(x, value, t), a)
    case _ => Cast(if value.Some? then value.value else e, t)
  }

  /** One projection of a leaf SELECT in its target place. */
  function OutputItem(e: Expr, o: Output, single: bool): Expr
  {
    if single && o.col.literal.Some? && !o.col.nullable then
      WrapOutput(e, Some(Str(DecimalString(o.col.literal.value))), o.target)
    else if single && o.col.scalar then WrapOutput(e, None, o.target)
    else e
  }

  function OutputItems(items: seq<Expr>, outs: seq<Output>, single: bool): (r: seq<Expr>)
    requires forall o :: o in outs ==> o.position < |items|
    ensures |r| == |outs|
    ensures forall i :: 0 <= i < |r| ==> r[i] == OutputItem(items[outs[i].position], outs[i], single)
  {
    if outs == [] then []
    else [OutputItem(items[outs[0].position], outs[0], single)] + OutputItems(items, outs[1..], single)
  }

  /** Every leaf SELECT of the query has a projection for each output. */
  predicate LeavesFit(q: Query, outs: seq<Output>)
  {
    match q
    case Select(_, items, _, _, _) => forall o :: o in outs ==> o.position < |items|
    case Union(_, l, r) => LeavesFit(l, outs) && LeavesFit(r, outs)
    case _ => true
  }

  function Reorder(q: Query, outs: seq<Output>, single: bool): Query
    requires LeavesFit(q, outs)
  {
    match q
    case Select(_, items, _, _, _) => q.(items := OutputItems(items, outs, single))
    case Union(_, l, r) => q.(left := Reorder(l, outs, single), right := Reorder(r, outs, single))
    case _ => q
  }

  function WithCtes(q: Query, ctes: seq<Cte>): Query
  {
    match q
    case Select(_, items, from, joins, filter) => Select(ctes, items, from, joins, filter)
    case Union(_, l, r) => Union(ctes, l, r)
    case SelectAll(_, rel) => SelectAll(ctes, rel)
    case UnsupportedQuery => q
  }

  /** The INSERT's WITH becomes the query's own, or wraps a query that already has one. */
  function Hoist(ctes: seq<Cte>, q: Query): Query
  {
    if ctes == [] then q
    else if !q.UnsupportedQuery? && q.ctes == [] then WithCtes(q, ctes)
    else SelectAll(ctes, Derived(q, Some(Ident("snapshot_output", false))))
  }
}
