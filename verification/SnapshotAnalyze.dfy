/**
 The typed, lexically scoped analysis of a snapshot query. It accepts or refuses a query, types
 its columns, records which base tables and which CTE definitions it uses, and returns the
 normalized syntax with those records attached to its table and CTE nodes.
 */
module SnapshotAnalyze {
  import opened Common
  import opened SnapshotIntegers
  import opened SnapshotAst
  import opened SnapshotEval

  datatype Error =
    | Syntax | Binding | Catalog | Generation | ColumnType | OutputType | ScalarOutput | Literal | Range
    | Target | Reserved | Parameter | Volatile | Residual | Materialization

  type Checked<+T> = Result<T, Error>

  /** snapshotValue: what the analyzer knows of one output column. */
  datatype Col = Col(typ: Type, name: string, literal: Option<int>, scalar: bool, nullable: bool, literalNode: bool)

  datatype CatalogColumn = CatalogColumn(name: string, typ: Type, ordinary: bool)

  datatype CatalogTable = CatalogTable(id: string, columns: seq<CatalogColumn>)

  datatype Context = Context(database: string, catalog: map<(string, string), CatalogTable>)

  /**
   clear, here and below, is no part of the Go analysis. It says of a query and all it uses that an alias written in
   an ON condition, when an unqualified column of its SELECT names it, passes the shadowing check against later relations too.
   */
  datatype Entry = Entry(def: Def, cols: seq<Col>, clear: bool)

  type Scope = map<string, Entry>

  datatype ExprInfo =
    ExprInfo(col: Col, elab: Expr, nodes: seq<Bound>, used: set<Def>, quals: set<string>, bases: set<string>, clear: bool)

  datatype RelInfo =
    RelInfo(cols: seq<Col>, qualifier: string, nodes: seq<Bound>, used: set<Def>, bases: set<string>, elab: Rel, clear: bool)

  datatype WithInfo = WithInfo(scope: Scope, elab: seq<Cte>)

  datatype JoinsInfo = JoinsInfo(rels: seq<RelInfo>, ons: seq<ExprInfo>)

  datatype QueryInfo =
    QueryInfo(cols: seq<Col>, nodes: seq<Bound>, used: set<Def>, bases: set<string>, leaves: nat, elab: Query, clear: bool)

  /** snapshotIdentifier. */
  function CheckIdent(id: Ident): Checked<string>
  {
    if id.name == "" || '\0' in id.name then Err(Syntax)
    else if id.name == "_hg_row_id" then Err(Reserved)
    else if !id.quoted && id.name[0] == '{' then Err(Parameter)
    else Ok(id.name)
  }

  function CheckOptionalIdent(id: Option<Ident>): Checked<string>
  {
    if id.None? then Ok("") else CheckIdent(id.value)
  }

  function ColNames(cols: seq<Col>): (r: seq<string>)
    ensures |r| == |cols|
    ensures forall i :: 0 <= i < |r| ==> r[i] == cols[i].name
  {
    if cols == [] then [] else ColNames(cols[..|cols| - 1]) + [cols[|cols| - 1].name]
  }

  /** The columns in scope, relation by relation. */
  function Slots(rels: seq<RelInfo>): seq<QName>
  {
    if rels == [] then []
    else
      var n := |rels| - 1;
      Slots(rels[..n]) + Tag(rels[n].qualifier, ColNames(rels[n].cols))
  }

  function SlotCols(rels: seq<RelInfo>): (r: seq<Col>)
    ensures |r| == |Slots(rels)|
    ensures forall i :: 0 <= i < |r| ==> r[i].name == Slots(rels)[i].name
  {
    if rels == [] then [] else SlotCols(rels[..|rels| - 1]) + rels[|rels| - 1].cols
  }

  function AllNodes(infos: seq<ExprInfo>): seq<Bound>
  {
    if infos == [] then [] else infos[0].nodes + AllNodes(infos[1..])
  }

  function AllUsed(infos: seq<ExprInfo>): set<Def>
  {
    if infos == [] then {} else infos[0].used + AllUsed(infos[1..])
  }

  function AllBases(infos: seq<ExprInfo>): set<string>
  {
    if infos == [] then {} else infos[0].bases + AllBases(infos[1..])
  }

  function AllQuals(infos: seq<ExprInfo>): set<string>
  {
    if infos == [] then {} else infos[0].quals + AllQuals(infos[1..])
  }

  predicate AllClear(infos: seq<ExprInfo>)
  {
    forall k :: 0 <= k < |infos| ==> infos[k].clear
  }

  function Elabs(infos: seq<ExprInfo>): (r: seq<Expr>)
    ensures |r| == |infos|
    ensures forall i :: 0 <= i < |r| ==> r[i] == infos[i].elab
  {
    if infos == [] then [] else [infos[0].elab] + Elabs(infos[1..])
  }

  function InfoCols(infos: seq<ExprInfo>): (r: seq<Col>)
    ensures |r| == |infos|
    ensures forall i :: 0 <= i < |r| ==> r[i] == infos[i].col
  {
    if infos == [] then [] else [infos[0].col] + InfoCols(infos[1..])
  }

  /** derivedSnapshotColumns: a derived relation's columns are neither literals nor scalar subqueries. */
  function DerivedCol(c: Col): Col
  {
    c.(literal := None, scalar := false)
  }

  function DerivedCols(cols: seq<Col>): (r: seq<Col>)
    ensures |r| == |cols|
    ensures forall i :: 0 <= i < |r| ==> r[i] == DerivedCol(cols[i])
  {
    if cols == [] then [] else DerivedCols(cols[..|cols| - 1]) + [DerivedCol(cols[|cols| - 1])]
  }

  function TableCols(columns: seq<CatalogColumn>): (r: seq<Col>)
    ensures |r| == |columns|
    ensures forall i :: 0 <= i < |r| ==> r[i] == Col(columns[i].typ, columns[i].name, None, false, false, false)
  {
    if columns == [] then []
    else
      var c := columns[|columns| - 1];
      TableCols(columns[..|columns| - 1]) + [Col(c.typ, c.name, None, false, false, false)]
  }

  predicate IsLiteralNode(e: Expr)
  {
    e.Number? || e.Str?
  }

  /** snapshotNumber: the canonical spelling of an exact literal. */
  function NumberNode(n: int): Expr
  {
    if n < 0 then Neg(Expr.Number(DigitString(-n))) else Expr.Number(DigitString(n))
  }

  /** An alias may share its name with a column in scope only when its expression is that column. */
  predicate AliasAllowed(inner: Expr, name: string, slots: seq<QName>)
  {
    forall i :: 0 <= i < |slots| && slots[i].name == name ==>
      inner.Column? && inner.column.name == name && (inner.table.None? || inner.table.value.name == slots[i].qual)
  }

  /** Every alias written in e passes the shadowing check against slots. */
  predicate AliasSafe(e: Expr, slots: seq<QName>)
  {
    match e
    case Paren(x) => AliasSafe(x, slots)
    case Aliased(x, a) => AliasSafe(x, slots) && AliasAllowed(x, a.name, slots)
    case Binary(_, l, r) => AliasSafe(l, slots) && AliasSafe(r, slots)
    case Not(x) => AliasSafe(x, slots)
    case In(x, _) => AliasSafe(x, slots)
    case Cast(x, _) => AliasSafe(x, slots)
    case _ => true
  }

  /** The aliases of that name written in e pass it. */
  predicate AliasSafeAt(e: Expr, name: string, slots: seq<QName>)
  {
    match e
    case Paren(x) => AliasSafeAt(x, name, slots)
    case Aliased(x, a) => AliasSafeAt(x, name, slots) && (a.name == name ==> AliasAllowed(x, name, slots))
    case Binary(_, l, r) => AliasSafeAt(l, name, slots) && AliasSafeAt(r, name, slots)
    case Not(x) => AliasSafeAt(x, name, slots)
    case In(x, _) => AliasSafeAt(x, name, slots)
    case Cast(x, _) => AliasSafeAt(x, name, slots)
    case _ => true
  }

  /** The names of the unqualified columns of e, outside its subqueries. */
  function BareNames(e: Expr): set<string>
  {
    match e
    case Column(None, c) => {c.name}
    case Paren(x) => BareNames(x)
    case Aliased(x, _) => BareNames(x)
    case Binary(_, l, r) => BareNames(l) + BareNames(r)
    case Not(x) => BareNames(x)
    case In(x, _) => BareNames(x)
    case Cast(x, _) => BareNames(x)
    case _ => {}
  }

  /** The names of the unqualified columns of a SELECT. */
  function SelectNames(q: Query): set<string>
    requires q.Select?
  {
    (set i, n | 0 <= i < |q.items| && n in BareNames(q.items[i]) :: n)
    + (set k, n | 0 <= k < |q.joins| && n in BareNames(q.joins[k].on) :: n)
    + (if q.filter.Some? then BareNames(q.filter.value) else {})
  }

  /** The aliases of the ON conditions that its columns name pass the check against the relations joined later. */
  predicate LateClear(q: Query, rels: seq<RelInfo>)
    requires q.Select? && |q.joins| <= |rels|
  {
    forall k, n :: 0 <= k < |q.joins| && n in SelectNames(q) ==> AliasSafeAt(q.joins[k].on, n, Slots(rels[|rels| - |q.joins| + k + 1..]))
  }

  function AnalyzeColumn(table: Option<Ident>, column: Ident, rels: seq<RelInfo>): Checked<ExprInfo>
  {
    var name :- CheckIdent(column);
    var qual :- CheckOptionalIdent(table);
    var hits := Hits(Slots(rels), qual, name);
    if |hits| != 1 then
      if !column.quoted && |name| >= 2 && name[..2] == "0b" then Err(Literal) else Err(Binding)
    else
      var c := SlotCols(rels)[hits[0]].(literal := None, scalar := false, literalNode := false);
      Ok(ExprInfo(c, Column(table, column), [], {}, if qual == "" then {} else {qual}, {}, true))
  }

  function AnalyzeNeg(x: Expr): Checked<ExprInfo>
  {
    match StripParens(x)
    case Number(text) =>
      if !IsDecimal(text) then Err(Literal)
      else
        var n := -ParseDigits(text);
        if !InRange(n, Int64) then Err(Range)
        else
          SmallestIsNarrowest(n, Int64);
          Ok(ExprInfo(Col(Smallest(n).value, "", Some(n), false, false, n == 0), NumberNode(n), [], {}, {}, {}, true))
    case Str(_) => Err(Literal)
    case DollarString(_) => Err(Literal)
    case OtherLiteral => Err(Literal)
    case Neg(_) => Err(Literal)
    case UnsupportedExpr(onlyLiterals) => Err(if onlyLiterals then Literal else Syntax)
    case _ => Err(Syntax)
  }

  function AnalyzeNumber(text: string): Checked<ExprInfo>
  {
    if !IsDecimal(text) then Err(Literal)
    else
      var n := ParseDigits(text);
      if !InRange(n, UInt64) then Err(Range)
      else
        SmallestIsNarrowest(n, UInt64);
        Ok(ExprInfo(Col(Smallest(n).value, "", Some(n), false, false, true), NumberNode(n), [], {}, {}, {}, true))
  }

  function StringInfo(text: string): ExprInfo
  {
    ExprInfo(Col(Named("String"), "", None, false, false, true), Str(text), [], {}, {}, {}, true)
  }

  /** Parentheses around a literal or a scalar subquery are dropped, others are kept. */
  function ParenInfo(i: ExprInfo): ExprInfo
  {
    if i.col.literal.Some? || i.col.scalar then i.(col := i.col.(literalNode := IsLiteralNode(i.elab)))
    else i.(elab := Paren(i.elab))
  }

  function AliasedInfo(i: ExprInfo, alias: Ident, slots: seq<QName>): Checked<ExprInfo>
  {
    var name :- CheckIdent(alias);
    if !AliasAllowed(i.elab, name, slots) then Err(Binding)
    else Ok(i.(col := i.col.(name := name, literalNode := false), elab := Aliased(i.elab, alias)))
  }

  /** A scalar subquery may be empty, so its column is nullable; a literal inside stays known. */
  function ScalarInfo(i: QueryInfo): Checked<ExprInfo>
  {
    if |i.cols| != 1 then Err(ScalarOutput)
    else Ok(ExprInfo(i.cols[0].(name := "", scalar := true, nullable := true, literalNode := false),
                     Scalar(i.elab), i.nodes, i.used, {}, i.bases, i.clear))
  }

  function TruthCol(nullable: bool): Col
  {
    Col(UInt8, "", None, false, nullable, false)
  }

  function BinaryInfo(op: Op, a: ExprInfo, right: Checked<ExprInfo>): Checked<ExprInfo>
  {
    if !IsInteger(a.col.typ) then Err(Syntax)
    else if right == Err(Literal) then Err(Syntax)
    else
      var b :- right;
      if !IsInteger(b.col.typ) then Err(Syntax)
      else Ok(ExprInfo(TruthCol(a.col.nullable || b.col.nullable), Binary(op, a.elab, b.elab),
                       a.nodes + b.nodes, a.used + b.used, a.quals + b.quals, a.bases + b.bases, a.clear && b.clear))
  }

  function NotInfo(a: ExprInfo): Checked<ExprInfo>
  {
    if !IsInteger(a.col.typ) then Err(Syntax) else Ok(a.(col := TruthCol(a.col.nullable), elab := Not(a.elab)))
  }

  function InInfo(a: ExprInfo, i: QueryInfo): Checked<ExprInfo>
  {
    if |i.cols| != 1 || !IsInteger(a.col.typ) || !IsInteger(i.cols[0].typ) then Err(Syntax)
    else Ok(ExprInfo(TruthCol(false), In(a.elab, i.elab), a.nodes + i.nodes, a.used + i.used, a.quals, a.bases + i.bases,
                     a.clear && i.clear))
  }

  function AnalyzeExpr(e: Expr, rels: seq<RelInfo>, scope: Scope, c: Context): Checked<ExprInfo>
    decreases e, 0
  {
    match e
    case Number(text) => AnalyzeNumber(text)
    case Str(s) => Ok(StringInfo(s))
    case DollarString(s) => Ok(StringInfo(DollarBody(s)))
    case OtherLiteral => Err(Literal)
    case Column(table, column) => AnalyzeColumn(table, column, rels)
    case Paren(x) =>
      var i :- AnalyzeExpr(x, rels, scope, c);
      Ok(ParenInfo(i))
    case Aliased(x, alias) =>
      var i :- AnalyzeExpr(x, rels, scope, c);
      AliasedInfo(i, alias, Slots(rels))
    case Neg(x) => AnalyzeNeg(x)
    case Scalar(q) =>
      var i :- AnalyzeQuery(q, scope, c);
      ScalarInfo(i)
    case Binary(op, l, r) =>
      var a :- AnalyzeExpr(l, rels, scope, c);
      BinaryInfo(op, a, AnalyzeExpr(r, rels, scope, c))
    case Not(x) =>
      var a :- AnalyzeExpr(x, rels, scope, c);
      NotInfo(a)
    case In(x, q) =>
      var a :- AnalyzeExpr(x, rels, scope, c);
      var i :- AnalyzeQuery(q, scope, c);
      InInfo(a, i)
    case Rand(_) => Err(Residual)
    case VolatileCall => Err(Volatile)
    case ParameterNode => Err(Parameter)
    case UnsupportedExpr(onlyLiterals) => Err(if onlyLiterals then Literal else Syntax)
    case Cast(_, _) => Err(Syntax)
  }

  function AnalyzeExprs(es: seq<Expr>, rels: seq<RelInfo>, scope: Scope, c: Context): (r: Checked<seq<ExprInfo>>)
    ensures r.Ok? ==> |r.value| == |es|
    decreases es, 0
  {
    if es == [] then Ok([])
    else
      var i :- AnalyzeExpr(es[0], rels, scope, c);
      var rest :- AnalyzeExprs(es[1..], rels, scope, c);
      Ok([i] + rest)
  }

  function AnalyzeRel(r: Rel, scope: Scope, c: Context): Checked<RelInfo>
    decreases r, 0
  {
    match r
    case Table(node, schema, name, alias, _) =>
      var n :- CheckIdent(name);
      var a :- CheckOptionalIdent(alias);
      if schema.None? && n in scope then
        var entry := scope[n];
        Ok(RelInfo(DerivedCols(entry.cols), Qualifier(r), entry.def.nodes, {entry.def} + entry.def.used, entry.def.bases, r.(bound := None), entry.clear))
      else
        var s :- CheckOptionalIdent(schema);
        var key := (if schema.None? then c.database else s, n);
        if key !in c.catalog then Err(Catalog)
        else
          var t := c.catalog[key];
          var b := Bound(node, t.id, false, {});
          Ok(RelInfo(TableCols(t.columns), Qualifier(r), [b], {}, {t.id}, r.(bound := Some(b)), true))
    case Derived(q, alias) =>
      var i :- AnalyzeQuery(q, scope, c);
      var a :- CheckOptionalIdent(alias);
      Ok(RelInfo(DerivedCols(i.cols), Qualifier(r), i.nodes, i.used, i.bases, Derived(i.elab, alias), i.clear))
    case UnsupportedRel => Err(Syntax)
  }

  function AnalyzeFrom(from: Option<Rel>, scope: Scope, c: Context): (r: Checked<seq<RelInfo>>)
    ensures r.Ok? ==> |r.value| == if from.None? then 0 else 1
    decreases from
  {
    match from
    case None => Ok([])
    case Some(rel) =>
      var i :- AnalyzeRel(rel, scope, c);
      Ok([i])
  }

  /** The joins from the k-th on; an ON condition sees the relations up to and including its own. */
  function AnalyzeJoins(joins: seq<Join>, rels: seq<RelInfo>, scope: Scope, c: Context): (r: Checked<JoinsInfo>)
    ensures r.Ok? ==> |r.value.rels| == |rels| + |joins| && |r.value.ons| == |joins| && r.value.rels[..|rels|] == rels
    decreases joins, 0
  {
    if joins == [] then Ok(JoinsInfo(rels, []))
    else
      var (i, on) :- AnalyzeJoin(joins[0], rels, scope, c);
      var rest :- AnalyzeJoins(joins[1..], rels + [i], scope, c);
      assert rest.rels[..|rels|] == rest.rels[..|rels + [i]|][..|rels|];
      Ok(JoinsInfo(rest.rels, [on] + rest.ons))
  }

  /** One ALL INNER JOIN with an equality as its ON condition. */
  function AnalyzeJoin(j: Join, rels: seq<RelInfo>, scope: Scope, c: Context): Checked<(RelInfo, ExprInfo)>
    decreases j, 0
  {
    if !j.allInner || rels == [] then Err(Syntax)
    else
      var i :- AnalyzeRel(j.rel, scope, c);
      if !(j.on.Binary? && j.on.op.Eq?) then Err(Syntax)
      else
        var on :- AnalyzeExpr(j.on, rels + [i], scope, c);
        Ok((i, on))
  }

  predicate DistinctQualifiers(rels: seq<RelInfo>)
  {
    forall i, j :: 0 <= i < j < |rels| && rels[i].qualifier != "" ==> rels[i].qualifier != rels[j].qualifier
  }

  function Qualifiers(rels: seq<RelInfo>): (r: set<string>)
    ensures forall i :: 0 <= i < |rels| ==> rels[i].qualifier in r
    ensures forall q :: q in r ==> exists i :: 0 <= i < |rels| && rels[i].qualifier == q
  {
    set i | 0 <= i < |rels| :: rels[i].qualifier
  }

  /** What a bound table finally knows: whether a qualified column names it, and its neighbours' qualifiers. */
  function FinalBound(b: Bound, r: RelInfo, rels: seq<RelInfo>, quals: set<string>): Bound
  {
    b.(qualified := r.qualifier in quals, others := Qualifiers(rels) - {r.qualifier})
  }

  function FinalRel(r: RelInfo, rels: seq<RelInfo>, quals: set<string>): RelInfo
  {
    match r.elab
    case Table(_, _, _, _, Some(b)) =>
      var f := FinalBound(b, r, rels, quals);
      r.(nodes := [f], elab := r.elab.(bound := Some(f)))
    case _ => r
  }

  function FinalRels(part: seq<RelInfo>, rels: seq<RelInfo>, quals: set<string>): (r: seq<RelInfo>)
    ensures |r| == |part|
    ensures forall i :: 0 <= i < |r| ==> r[i] == FinalRel(part[i], rels, quals)
  {
    if part == [] then [] else [FinalRel(part[0], rels, quals)] + FinalRels(part[1..], rels, quals)
  }

  function RelNodes(rels: seq<RelInfo>): seq<Bound>
  {
    if rels == [] then [] else rels[0].nodes + RelNodes(rels[1..])
  }

  function RelUsed(rels: seq<RelInfo>): set<Def>
  {
    if rels == [] then {} else rels[0].used + RelUsed(rels[1..])
  }

  function RelBases(rels: seq<RelInfo>): set<string>
  {
    if rels == [] then {} else rels[0].bases + RelBases(rels[1..])
  }

  function AnalyzeWith(ctes: seq<Cte>, scope: Scope, local: set<string>, c: Context): Checked<WithInfo>
    decreases ctes, 0
  {
    if ctes == [] then Ok(WithInfo(scope, []))
    else
      var cte := ctes[0];
      if !cte.aliasFirst then Err(Syntax)
      else
        var name :- CheckIdent(cte.alias);
        if name in local then Err(Binding)
        else
          var i :- AnalyzeCte(cte, scope, c);
          var def := Def(cte.node, i.nodes, i.used, i.bases);
          var rest :- AnalyzeWith(ctes[1..], scope[name := Entry(def, i.cols, i.clear)], local + {name}, c);
          Ok(WithInfo(rest.scope, [cte.(query := i.elab, def := Some(def))] + rest.elab))
  }

  function AnalyzeCte(cte: Cte, scope: Scope, c: Context): Checked<QueryInfo>
    decreases cte, 0
  {
    AnalyzeQuery(cte.query, scope, c)
  }

  /** The columns of a UNION ALL, or why its branches do not match. */
  function UnionCols(l: seq<Col>, r: seq<Col>): (u: Checked<seq<Col>>)
    requires |l| == |r|
    ensures u.Ok? ==> |u.value| == |l|
    ensures u.Ok? ==> forall i :: 0 <= i < |l| ==>
      u.value[i] == DerivedCol(l[i]) && !l[i].nullable && !r[i].nullable && l[i].typ == r[i].typ
  {
    if l == [] then Ok([])
    else if l[0].nullable || r[0].nullable then Err(ScalarOutput)
    else if l[0].typ != r[0].typ then Err(OutputType)
    else
      var rest :- UnionCols(l[1..], r[1..]);
      Ok([DerivedCol(l[0])] + rest)
  }

  function AnalyzeFilter(filter: Option<Expr>, rels: seq<RelInfo>, scope: Scope, c: Context): (r: Checked<seq<ExprInfo>>)
    ensures r.Ok? ==> |r.value| == if filter.None? then 0 else 1
    decreases filter
  {
    match filter
    case None => Ok([])
    case Some(e) =>
      var i :- AnalyzeExpr(e, rels, scope, c);
      if !IsInteger(i.col.typ) && i.col.typ != Named("Bool") then Err(Syntax) else Ok([i])
  }

  function ElabJoins(joins: seq<Join>, rels: seq<RelInfo>, ons: seq<ExprInfo>): (r: seq<Join>)
    requires |joins| == |rels| == |ons|
    ensures |r| == |joins|
    ensures forall i :: 0 <= i < |r| ==> r[i] == Join(rels[i].elab, ons[i].elab, joins[i].allInner)
  {
    if joins == [] then []
    else [Join(rels[0].elab, ons[0].elab, joins[0].allInner)] + ElabJoins(joins[1..], rels[1..], ons[1..])
  }

  /** Everything the analysis of one SELECT learns before it is summed up as a QueryInfo. */
  datatype SelectInfo = SelectInfo(scope: Scope, ctes: seq<Cte>, first: seq<RelInfo>, rels: seq<RelInfo>,
                                   ons: seq<ExprInfo>, items: seq<ExprInfo>, filter: seq<ExprInfo>)
  {
    predicate Clear(q: Query)
      requires q.Select? && |q.joins| <= |rels|
    {
      && LateClear(q, rels) && AllClear(ons) && AllClear(items) && AllClear(filter)
      && forall k :: 0 <= k < |rels| ==> rels[k].clear
    }

    function Quals(): set<string>
    {
      AllQuals(ons) + AllQuals(items) + AllQuals(filter)
    }

    function Finals(): seq<RelInfo>
    {
      FinalRels(rels, rels, Quals())
    }
  }

  function AnalyzeSelect(q: Query, outer: Scope, c: Context): (r: Checked<SelectInfo>)
    requires q.Select?
    ensures r.Ok? ==> |r.value.items| == |q.items| && |r.value.ons| == |q.joins|
    ensures r.Ok? ==> |r.value.first| == if q.from.None? then 0 else 1
    ensures r.Ok? ==> |r.value.rels| == |r.value.first| + |q.joins|
    ensures r.Ok? ==> |r.value.filter| == if q.filter.None? then 0 else 1
    decreases q, 0
  {
    var w :- AnalyzeWith(q.ctes, outer, {}, c);
    var first :- AnalyzeFrom(q.from, w.scope, c);
    var j :- AnalyzeJoins(q.joins, first, w.scope, c);
    if !DistinctQualifiers(j.rels) then Err(Binding)
    else
      var items :- AnalyzeExprs(q.items, j.rels, w.scope, c);
      if items == [] then Err(Syntax)
      else
        var filter :- AnalyzeFilter(q.filter, j.rels, w.scope, c);
        Ok(SelectInfo(w.scope, w.elab, first, j.rels, j.ons, items, filter))
  }

  function ElabSelect(q: Query, s: SelectInfo): Query
    requires q.Select?
    requires |s.items| == |q.items| && |s.ons| == |q.joins|
    requires |s.first| == if q.from.None? then 0 else 1
    requires |s.rels| == |s.first| + |q.joins|
    requires |s.filter| == if q.filter.None? then 0 else 1
  {
    var f := s.Finals();
    Select(s.ctes, Elabs(s.items),
           if q.from.None? then None else Some(f[0].elab),
           ElabJoins(q.joins, f[|s.first|..], s.ons),
           if q.filter.None? then None else Some(s.filter[0].elab))
  }

  function AnalyzeQuery(q: Query, outer: Scope, c: Context): Checked<QueryInfo>
    decreases q, 1
  {
    match q
    case Select(_, _, _, _, _) =>
      var s :- AnalyzeSelect(q, outer, c);
      Ok(QueryInfo(InfoCols(s.items),
                   AllNodes(s.ons) + RelNodes(s.Finals()) + AllNodes(s.items) + AllNodes(s.filter),
                   AllUsed(s.ons) + RelUsed(s.Finals()) + AllUsed(s.items) + AllUsed(s.filter),
                   AllBases(s.ons) + RelBases(s.rels) + AllBases(s.items) + AllBases(s.filter),
                   1, ElabSelect(q, s), s.Clear(q)))
    case Union(ctes, left, right) =>
      var w :- AnalyzeWith(ctes, outer, {}, c);
      var l :- AnalyzeQuery(left, w.scope, c);
      var r :- AnalyzeQuery(right, w.scope, c);
      if |l.cols| != |r.cols| then Err(Target)
      else
        var cols :- UnionCols(l.cols, r.cols);
        Ok(QueryInfo(cols, l.nodes + r.nodes, l.used + r.used, l.bases + r.bases, l.leaves + r.leaves, Union(w.elab, l.elab, r.elab),
                     l.clear && r.clear))
    case SelectAll(_, _) => Err(Syntax)
    case UnsupportedQuery => Err(Syntax)
  }
}
