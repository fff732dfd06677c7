/**
 Prepare preserves meaning below the output: for an accepted query, dropping unused CTEs and
 renaming used base tables to scratch tables with the same contents gives the same result.
 */
module SnapshotMeaning {
  import opened Common
  import opened SnapshotIntegers
  import opened SnapshotAst
  import opened SnapshotEval
  import opened SnapshotAnalyze
  import opened SnapshotPrepare
  import opened SnapshotScope

  /** An analysis context, a rewrite, the database the query was written for and the scratch one. */
  datatype World = World(c: Context, w: Rewrite, source: Db, scratch: Db) {
    /** Keeping a definition keeps all it uses. */
    ghost predicate Closed() {
      forall d :: d in w.used ==> Live(d.nodes, d.used)
    }

    ghost predicate Live(nodes: seq<Bound>, used: set<Def>) {
      used <= w.used && forall b :: b in nodes ==> b in w.nodes
    }

    /** The scratch table bound to a used table holds its rows and columns. */
    ghost predicate Copied(key: (string, string))
      requires w.Covered() && key in c.catalog
    {
      var t := c.catalog[key];
      (exists b :: b in w.nodes && b.tableId == t.id) ==>
        && t.id in w.bindings && w.bindings[t.id] in scratch.tables
        && key in source.tables && source.tables[key] == scratch.tables[w.bindings[t.id]]
        && source.tables[key].cols == ColNames(TableCols(t.columns))
    }

    ghost predicate Valid() {
      && w.Covered() && Closed()
      && source.current == c.database
      && forall key :: key in c.catalog ==> Copied(key)
    }
  }

  /** On every CTE in scope that is kept, both environments hold the same table, of the analyzed columns. */
  ghost predicate Agree(scope: Scope, e1: Env, e2: Env, used: set<Def>)
  {
    && e1.Keys == scope.Keys
    && forall n :: n in scope && scope[n].def in used ==>
        n in e2 && e1[n] == e2[n] && (e1[n].Done? ==> e1[n].value.cols == ColNames(scope[n].cols))
  }

  lemma {:induction false} NamesOfDerived(cols: seq<Col>)
    ensures ColNames(DerivedCols(cols)) == ColNames(cols)
  {
  }

  lemma CanonicalNumber(n: int, cols: seq<QName>, row: RowEnv, env: Env, db: Db)
    ensures EvalExpr(NumberNode(n), cols, row, env, db) == NumberValue(n)
  {
    hide NumberValue, EvalQuery, DigitString, ParseDigits, IsDecimal, Lookup;
    if n < 0 {
      DigitsRoundTrip(-n);
      assert StripParens(Expr.Number(DigitString(-n))) == Expr.Number(DigitString(-n));
    } else {
      DigitsRoundTrip(n);
    }
  }

  lemma NumberPrepared(n: int, w: Rewrite)
    requires w.Covered()
    ensures PrepExpr(NumberNode(n), w) == NumberNode(n)
  {
    hide DigitString;
  }

  /** An accepted column reference denotes the same, an alias or a cell. */
  lemma PresColumn(table: Option<Ident>, column: Ident, rels: seq<RelInfo>, a: seq<QName>, b: seq<QName>,
                   row1: RowEnv, row2: RowEnv, e1: Env, e2: Env, d1: Db, d2: Db)
    requires AnalyzeColumn(table, column, rels).Ok?
    requires Aligned(a, b, AnalyzeColumn(table, column, rels).value.quals)
    requires row1.vals == row2.vals && BareAlike(Slots(rels), a, row1.alias, b, row2.alias, row1.vals)
    ensures EvalExpr(Column(table, column), a, row1, e1, d1) == EvalExpr(Column(table, column), b, row2, e2, d2)
    ensures AnalyzeColumn(table, column, rels).value.elab == Column(table, column)
  {
    hide Hits, Lookup, Aligned, Slots;
    var quals := AnalyzeColumn(table, column, rels).value.quals;
    match table
    case None =>
      assert Bare(row1.alias, a, column.name, row1.vals) == Bare(row2.alias, b, column.name, row1.vals);
    case Some(t) =>
      LookupAligned(a, b, quals, t.name, column.name, row1.vals);
  }

  lemma ColumnValue(table: Option<Ident>, column: Ident, cols: seq<QName>, row: RowEnv, env: Env, db: Db)
    requires table.None? ==> HarmlessAt(column.name, row.alias, cols, row.vals)
    requires |Hits(cols, if table.Some? then table.value.name else "", column.name)| == 1
    ensures EvalExpr(Column(table, column), cols, row, env, db) ==
            Lookup(cols, if table.Some? then table.value.name else "", column.name, row.vals)
  {
  }

  lemma BinaryParts(op: Op, l: Expr, r: Expr, rels: seq<RelInfo>, scope: Scope, a: seq<QName>, b: seq<QName>, m: World)
    requires AnalyzeExpr(Binary(op, l, r), rels, scope, m.c).Ok?
    requires var i := AnalyzeExpr(Binary(op, l, r), rels, scope, m.c).value; m.Live(i.nodes, i.used) && Aligned(a, b, i.quals)
    ensures AnalyzeExpr(l, rels, scope, m.c).Ok? && AnalyzeExpr(r, rels, scope, m.c).Ok?
    ensures var i := AnalyzeExpr(l, rels, scope, m.c).value; m.Live(i.nodes, i.used) && Aligned(a, b, i.quals)
    ensures var i := AnalyzeExpr(r, rels, scope, m.c).value; m.Live(i.nodes, i.used) && Aligned(a, b, i.quals)
    ensures AnalyzeExpr(Binary(op, l, r), rels, scope, m.c).value.elab ==
            Binary(op, AnalyzeExpr(l, rels, scope, m.c).value.elab, AnalyzeExpr(r, rels, scope, m.c).value.elab)
  {
    hide AnalyzeExpr, Aligned;
    BinaryShape(op, l, r, rels, scope, m.c);
    var x := AnalyzeExpr(l, rels, scope, m.c).value;
    var y := AnalyzeExpr(r, rels, scope, m.c).value;
    assert forall n :: n in x.nodes ==> n in x.nodes + y.nodes;
    assert forall n :: n in y.nodes ==> n in x.nodes + y.nodes;
    AlignedSubset(a, b, x.quals + y.quals, x.quals);
    AlignedSubset(a, b, x.quals + y.quals, y.quals);
  }

  lemma InParts(x: Expr, q: Query, rels: seq<RelInfo>, scope: Scope, a: seq<QName>, b: seq<QName>, m: World)
    requires AnalyzeExpr(In(x, q), rels, scope, m.c).Ok?
    requires var i := AnalyzeExpr(In(x, q), rels, scope, m.c).value; m.Live(i.nodes, i.used) && Aligned(a, b, i.quals)
    ensures AnalyzeExpr(x, rels, scope, m.c).Ok? && AnalyzeQuery(q, scope, m.c).Ok?
    ensures var i := AnalyzeExpr(x, rels, scope, m.c).value; m.Live(i.nodes, i.used) && Aligned(a, b, i.quals)
    ensures var i := AnalyzeQuery(q, scope, m.c).value; m.Live(i.nodes, i.used)
    ensures AnalyzeExpr(In(x, q), rels, scope, m.c).value.elab ==
            In(AnalyzeExpr(x, rels, scope, m.c).value.elab, AnalyzeQuery(q, scope, m.c).value.elab)
  {
    hide AnalyzeExpr, AnalyzeQuery, Aligned;
    InShape(x, q, rels, scope, m.c);
    var y := AnalyzeExpr(x, rels, scope, m.c).value;
    var z := AnalyzeQuery(q, scope, m.c).value;
    assert forall n :: n in y.nodes ==> n in y.nodes + z.nodes;
    assert forall n :: n in z.nodes ==> n in y.nodes + z.nodes;
  }

  lemma PresNumber(text: string, a: seq<QName>, b: seq<QName>, row1: RowEnv, row2: RowEnv, e1: Env, e2: Env, m: World)
    requires m.w.Covered() && AnalyzeNumber(text).Ok?
    ensures EvalExpr(Number(text), a, row1, e1, m.source) == EvalExpr(PrepExpr(AnalyzeNumber(text).value.elab, m.w), b, row2, e2, m.scratch)
  {
    hide NumberNode, NumberValue;
    CanonicalNumber(ParseDigits(text), b, row2, e2, m.scratch);
    NumberPrepared(ParseDigits(text), m.w);
  }

  lemma PresNeg(x: Expr, a: seq<QName>, b: seq<QName>, row1: RowEnv, row2: RowEnv, e1: Env, e2: Env, m: World)
    requires m.w.Covered() && AnalyzeNeg(x).Ok?
    ensures EvalExpr(Neg(x), a, row1, e1, m.source) == EvalExpr(PrepExpr(AnalyzeNeg(x).value.elab, m.w), b, row2, e2, m.scratch)
  {
    hide NumberNode, NumberValue;
    CanonicalNumber(-ParseDigits(StripParens(x).text), b, row2, e2, m.scratch);
    NumberPrepared(-ParseDigits(StripParens(x).text), m.w);
  }

  /** An accepted expression has the same value before and after, on any row where its unqualified columns denote the same. */
  lemma {:induction false} PresExpr(e: Expr, rels: seq<RelInfo>, scope: Scope, a: seq<QName>, b: seq<QName>,
                 vals: Row, al1: map<string, Res<Value>>, al2: map<string, Res<Value>>, e1: Env, e2: Env, m: World)
    requires m.Valid() && Agree(scope, e1, e2, m.w.used)
    requires AnalyzeExpr(e, rels, scope, m.c).Ok?
    requires var i := AnalyzeExpr(e, rels, scope, m.c).value; m.Live(i.nodes, i.used) && Aligned(a, b, i.quals)
    requires BareAlike(Slots(rels), a, al1, b, al2, vals)
    ensures EvalExpr(e, a, RowEnv(vals, al1), e1, m.source) ==
            EvalExpr(PrepExpr(AnalyzeExpr(e, rels, scope, m.c).value.elab, m.w), b, RowEnv(vals, al2), e2, m.scratch)
    decreases e, 0
  {
    hide Aligned, BareAlike, Agree, AnalyzeColumn, AnalyzeQuery, EvalQuery, PrepQuery, AnalyzeNumber, AnalyzeNeg, LiteralValue, NegatedLiteral, Lookup, Apply,
         Member, AliasAllowed, AccurateCast, ScalarValue, CheckIdent, DollarBody;
    match e
    case Number(text) =>
      PresNumber(text, a, b, RowEnv(vals, al1), RowEnv(vals, al2), e1, e2, m);
    case Str(_) =>
    case DollarString(_) =>
    case OtherLiteral =>
    case Column(table, column) =>
      PresColumn(table, column, rels, a, b, RowEnv(vals, al1), RowEnv(vals, al2), e1, e2, m.source, m.scratch);
    case Paren(x) =>
      ParenShape(x, rels, scope, m.c);
      PresExpr(x, rels, scope, a, b, vals, al1, al2, e1, e2, m);
    case Aliased(x, _) => PresExpr(x, rels, scope, a, b, vals, al1, al2, e1, e2, m);
    case Neg(x) =>
      PresNeg(x, a, b, RowEnv(vals, al1), RowEnv(vals, al2), e1, e2, m);
    case Scalar(q) => PresQuery(q, scope, e1, e2, m);
    case Binary(op, l, r) =>
      BinaryParts(op, l, r, rels, scope, a, b, m);
      PresExpr(l, rels, scope, a, b, vals, al1, al2, e1, e2, m);
      PresExpr(r, rels, scope, a, b, vals, al1, al2, e1, e2, m);
    case Not(x) =>
      NotShape(x, rels, scope, m.c);
      PresExpr(x, rels, scope, a, b, vals, al1, al2, e1, e2, m);
    case In(x, q) =>
      InParts(x, q, rels, scope, a, b, m);
      PresExpr(x, rels, scope, a, b, vals, al1, al2, e1, e2, m);
      PresQuery(q, scope, e1, e2, m);
    case Rand(_) =>
    case VolatileCall =>
    case ParameterNode =>
    case UnsupportedExpr(_) =>
    case Cast(_, _) =>
  }

  /** The aliases written in it have the same values too, whatever prefix of the relations is joined. */
  lemma {:induction false} PresAliases(e: Expr, rels: seq<RelInfo>, scope: Scope, a: seq<QName>, b: seq<QName>, vals: Row, e1: Env, e2: Env, m: World)
    requires m.Valid() && Agree(scope, e1, e2, m.w.used)
    requires AnalyzeExpr(e, rels, scope, m.c).Ok?
    requires var i := AnalyzeExpr(e, rels, scope, m.c).value; m.Live(i.nodes, i.used) && Aligned(a, b, i.quals)
    ensures AliasValues(e, a, vals, e1, m.source) ==
            AliasValues(PrepExpr(AnalyzeExpr(e, rels, scope, m.c).value.elab, m.w), b, vals, e2, m.scratch)
    decreases e, 1
  {
    hide Aligned, Agree, AnalyzeColumn, AnalyzeNumber, AnalyzeNeg, AnalyzeQuery, EvalExpr, PrepQuery, NumberNode, AliasAllowed, CheckIdent, DollarBody;
    match e
    case Paren(x) =>
      ParenShape(x, rels, scope, m.c);
      PresAliases(x, rels, scope, a, b, vals, e1, e2, m);
    case Aliased(x, _) =>
      PresAliases(x, rels, scope, a, b, vals, e1, e2, m);
      NoAliasAlike(Slots(rels), a, b, AnalyzeExpr(x, rels, scope, m.c).value.quals, vals);
      PresExpr(x, rels, scope, a, b, vals, map[], map[], e1, e2, m);
    case Binary(op, l, r) =>
      BinaryParts(op, l, r, rels, scope, a, b, m);
      PresAliases(l, rels, scope, a, b, vals, e1, e2, m);
      PresAliases(r, rels, scope, a, b, vals, e1, e2, m);
    case Not(x) =>
      NotShape(x, rels, scope, m.c);
      PresAliases(x, rels, scope, a, b, vals, e1, e2, m);
    case In(x, q) =>
      InParts(x, q, rels, scope, a, b, m);
      PresAliases(x, rels, scope, a, b, vals, e1, e2, m);
    case _ => LeafAliases(e, rels, scope, a, b, vals, e1, e2, m);
  }

  /** A literal, a column or a scalar subquery holds no alias of its SELECT. */
  lemma LeafAliases(e: Expr, rels: seq<RelInfo>, scope: Scope, a: seq<QName>, b: seq<QName>, vals: Row, e1: Env, e2: Env, m: World)
    requires m.w.Covered() && AnalyzeExpr(e, rels, scope, m.c).Ok?
    requires !e.Paren? && !e.Aliased? && !e.Binary? && !e.Not? && !e.In?
    ensures AliasValues(e, a, vals, e1, m.source) == map[] ==
            AliasValues(PrepExpr(AnalyzeExpr(e, rels, scope, m.c).value.elab, m.w), b, vals, e2, m.scratch)
  {
    hide AnalyzeColumn, AnalyzeQuery, EvalExpr, PrepQuery, NumberNode, DollarBody;
    match e
    case Number(text) => NumberAliases(ParseDigits(text), b, vals, e2, m.scratch, m.w);
    case Neg(x) => NumberAliases(-ParseDigits(StripParens(x).text), b, vals, e2, m.scratch, m.w);
    case Column(table, column) => ColumnItself(table, column, rels);
    case _ =>
  }

  lemma NumberAliases(n: int, cols: seq<QName>, vals: Row, env: Env, db: Db, w: Rewrite)
    requires w.Covered()
    ensures AliasValues(PrepExpr(NumberNode(n), w), cols, vals, env, db) == map[]
  {
    hide DigitString, EvalExpr;
  }

  /** The aliases outside the projection have the same values on both sides, on every row. */
  ghost predicate RestAlike(q1: Query, q2: Query, a: seq<QName>, b: seq<QName>, e1: Env, e2: Env, m: World)
    requires q1.Select? && q2.Select?
  {
    forall vals ::
      && OnAliases(q1.joins, a, vals, e1, m.source) == OnAliases(q2.joins, b, vals, e2, m.scratch)
      && FilterAliases(q1.filter, a, vals, e1, m.source) == FilterAliases(q2.filter, b, vals, e2, m.scratch)
  }

  /** So an unqualified column denotes the same, over the relations joined so far or over all. */
  lemma SelectAlike(q1: Query, q2: Query, slots1: seq<QName>, slots2: seq<QName>, a: seq<QName>, b: seq<QName>, quals: set<string>,
                    vals: Row, e1: Env, e2: Env, m: World)
    requires q1.Select? && q2.Select? && AliasesSafe(q1.items, slots1) && AliasesSafe(q2.items, slots2)
    requires a <= slots1 && b <= slots2 && Aligned(a, b, quals) && RestAlike(q1, q2, a, b, e1, e2, m)
    ensures BareAlike(a, a, SelectAliases(q1, a, vals, e1, m.source), b, SelectAliases(q2, b, vals, e2, m.scratch), vals)
  {
    hide Aligned, BareAlike, HarmlessAt, AliasSafe, AliasSafeAt, ItemAliases, OnAliases, FilterAliases;
    var items1, items2 := ItemAliases(q1.items, a, vals, e1, m.source), ItemAliases(q2.items, b, vals, e2, m.scratch);
    var ons, filter := OnAliases(q1.joins, a, vals, e1, m.source), FilterAliases(q1.filter, a, vals, e1, m.source);
    forall n
      ensures HarmlessAt(n, items1, a, vals) && HarmlessAt(n, items2, b, vals)
    {
      ItemsSafeAt(q1.items, n, slots1);
      ItemsSafeAt(q2.items, n, slots2);
      ItemAliasesHarmless(q1.items, n, slots1, a, vals, e1, m.source);
      ItemAliasesHarmless(q2.items, n, slots2, b, vals, e2, m.scratch);
    }
    AliasesAlike(a, a, b, quals, vals, items1, items2, ons + filter);
    assert SelectAliases(q1, a, vals, e1, m.source) == items1 + (ons + filter);
    assert SelectAliases(q2, b, vals, e2, m.scratch) == items2 + (ons + filter);
  }

  lemma ItemsSafeAt(items: seq<Expr>, name: string, slots: seq<QName>)
    requires AliasesSafe(items, slots)
    ensures forall k :: 0 <= k < |items| ==> AliasSafeAt(items[k], name, slots)
  {
    forall k | 0 <= k < |items|
      ensures AliasSafeAt(items[k], name, slots)
    {
      SafeAt(items[k], name, slots);
    }
  }

  /** A WHERE or ON condition keeps the same rows. */
  lemma {:induction false} PresFilter(e: Expr, rels: seq<RelInfo>, scope: Scope, a: seq<QName>, b: seq<QName>, rows: seq<Row>,
                   q1: Query, q2: Query, slots1: seq<QName>, slots2: seq<QName>, e1: Env, e2: Env, m: World)
    requires m.Valid() && Agree(scope, e1, e2, m.w.used)
    requires AnalyzeExpr(e, rels, scope, m.c).Ok?
    requires var i := AnalyzeExpr(e, rels, scope, m.c).value; m.Live(i.nodes, i.used) && Aligned(a, b, i.quals)
    requires a == Slots(rels) && a <= slots1 && b <= slots2
    requires q1.Select? && q2.Select? && AliasesSafe(q1.items, slots1) && AliasesSafe(q2.items, slots2) && RestAlike(q1, q2, a, b, e1, e2, m)
    ensures FilterRows(e, a, Annotate(q1, a, rows, e1, m.source), e1, m.source) ==
            FilterRows(PrepExpr(AnalyzeExpr(e, rels, scope, m.c).value.elab, m.w), b,
                       Annotate(q2, b, rows, e2, m.scratch), e2, m.scratch)
    decreases e, 1, |rows|
  {
    hide BareAlike, Aligned, AliasesSafe, RestAlike, AnalyzeExpr, EvalExpr, Slots, SelectAliases, Agree, PrepExpr;
    if rows != [] {
      SelectAlike(q1, q2, slots1, slots2, a, b, AnalyzeExpr(e, rels, scope, m.c).value.quals, rows[0], e1, e2, m);
      PresExpr(e, rels, scope, a, b, rows[0], SelectAliases(q1, a, rows[0], e1, m.source),
               SelectAliases(q2, b, rows[0], e2, m.scratch), e1, e2, m);
      PresFilter(e, rels, scope, a, b, rows[1..], q1, q2, slots1, slots2, e1, e2, m);
    }
  }

  lemma CopiedTables(key: (string, string), b: Bound, m: World)
    requires m.w.Covered() && key in m.c.catalog && m.Copied(key)
    requires b in m.w.nodes && b.tableId == m.c.catalog[key].id
    ensures b.tableId in m.w.bindings && m.w.bindings[b.tableId] in m.scratch.tables
    ensures key in m.source.tables && m.source.tables[key] == m.scratch.tables[m.w.bindings[b.tableId]]
    ensures m.source.tables[key].cols == ColNames(TableCols(m.c.catalog[key].columns))
  {
  }

  /** The relation yields the same table before and after, of the analyzed columns. */
  ghost predicate SameTable(r: Rel, rels: seq<RelInfo>, quals: set<string>, scope: Scope, e1: Env, e2: Env, m: World)
    requires m.w.Covered() && AnalyzeRel(r, scope, m.c).Ok?
  {
    var i := AnalyzeRel(r, scope, m.c).value;
    var t := EvalRel(r, e1, m.source);
    && t == EvalRel(PrepRel(FinalRel(i, rels, quals).elab, m.w), e2, m.scratch)
    && (t.Done? ==> t.value.cols == ColNames(i.cols))
  }

  /** A reference to a CTE that is kept. */
  lemma PresCteRef(r: Rel, rels: seq<RelInfo>, quals: set<string>, scope: Scope, e1: Env, e2: Env, m: World)
    requires m.w.Covered() && Agree(scope, e1, e2, m.w.used)
    requires r.Table? && r.schema.None? && r.name.name in scope
    requires AnalyzeRel(r, scope, m.c).Ok? && AnalyzeRel(r, scope, m.c).value.used <= m.w.used
    ensures SameTable(r, rels, quals, scope, e1, e2, m)
  {
    hide AnalyzeQuery, EvalQuery, PrepQuery, Qualifiers;
    var entry := scope[r.name.name];
    NamesOfDerived(entry.cols);
    assert AnalyzeRel(r, scope, m.c).value.elab == r.(bound := None);
    assert entry.def in AnalyzeRel(r, scope, m.c).value.used;
  }

  /** A base table, read from its scratch copy. */
  lemma PresTable(r: Rel, rels: seq<RelInfo>, quals: set<string>, scope: Scope, e1: Env, e2: Env, m: World)
    requires m.Valid() && e1.Keys == scope.Keys
    requires r.Table? && !(r.schema.None? && r.name.name in scope)
    requires AnalyzeRel(r, scope, m.c).Ok?
    requires forall b :: b in FinalRel(AnalyzeRel(r, scope, m.c).value, rels, quals).nodes ==> b in m.w.nodes
    ensures SameTable(r, rels, quals, scope, e1, e2, m)
  {
    hide AnalyzeQuery, EvalQuery, PrepQuery, World.Copied, World.Closed, Qualifiers;
    var key := (if r.schema.None? then m.c.database else r.schema.value.name, r.name.name);
    assert m.Copied(key);
    var f := FinalRel(AnalyzeRel(r, scope, m.c).value, rels, quals);
    assert f.elab.bound.value in f.nodes;
    CopiedTables(key, f.elab.bound.value, m);
  }

  /** A derived table, whose query means the same. */
  lemma PresDerived(q: Query, alias: Option<Ident>, rels: seq<RelInfo>, quals: set<string>, scope: Scope, e1: Env, e2: Env, m: World)
    requires m.w.Covered() && AnalyzeRel(Derived(q, alias), scope, m.c).Ok?
    requires var i := AnalyzeQuery(q, scope, m.c).value;
             && EvalQuery(q, e1, m.source) == EvalQuery(PrepQuery(i.elab, m.w), e2, m.scratch)
             && (EvalQuery(q, e1, m.source).Done? ==> EvalQuery(q, e1, m.source).value.cols == ColNames(i.cols))
    ensures SameTable(Derived(q, alias), rels, quals, scope, e1, e2, m)
  {
    RelShape(Derived(q, alias), rels, quals, scope, m.c);
    hide AnalyzeQuery, EvalQuery, PrepQuery, FinalRel, CheckOptionalIdent, Qualifier;
    NamesOfDerived(AnalyzeQuery(q, scope, m.c).value.cols);
  }

  lemma RelShape(r: Rel, rels: seq<RelInfo>, quals: set<string>, scope: Scope, c: Context)
    requires AnalyzeRel(r, scope, c).Ok?
    ensures var i := AnalyzeRel(r, scope, c).value;
            var f := FinalRel(i, rels, quals);
            i.qualifier == Qualifier(r) == Qualifier(i.elab) && f.cols == i.cols && f.qualifier == i.qualifier
    ensures r.Derived? ==> var i, d := AnalyzeRel(r, scope, c).value, AnalyzeQuery(r.query, scope, c).value;
            && AnalyzeQuery(r.query, scope, c).Ok? && FinalRel(i, rels, quals) == i
            && i.nodes == d.nodes && i.used == d.used && i.clear == d.clear
    ensures FinalRel(AnalyzeRel(r, scope, c).value, rels, quals).used == AnalyzeRel(r, scope, c).value.used
    ensures !r.UnsupportedRel?
  {
    hide AnalyzeQuery, Qualifiers;
  }

  lemma {:induction false} PresRel(r: Rel, rels: seq<RelInfo>, quals: set<string>, scope: Scope, e1: Env, e2: Env, m: World)
    requires m.Valid() && Agree(scope, e1, e2, m.w.used)
    requires AnalyzeRel(r, scope, m.c).Ok?
    requires var f := FinalRel(AnalyzeRel(r, scope, m.c).value, rels, quals); m.Live(f.nodes, f.used)
    ensures var i := AnalyzeRel(r, scope, m.c).value;
            var f := FinalRel(i, rels, quals);
            && EvalRel(r, e1, m.source) == EvalRel(PrepRel(f.elab, m.w), e2, m.scratch)
            && (EvalRel(r, e1, m.source).Done? ==> EvalRel(r, e1, m.source).value.cols == ColNames(i.cols))
            && i.qualifier == Qualifier(r) == Qualifier(i.elab)
            && f.cols == i.cols && f.qualifier == i.qualifier
    decreases r, 0
  {
    hide AnalyzeRel, AnalyzeQuery, EvalRel, EvalQuery, PrepRel, PrepQuery, FinalRel, Qualifier, World.Copied, World.Closed;
    RelShape(r, rels, quals, scope, m.c);
    match r
    case Table(_, schema, name, _, _) =>
      if schema.None? && name.name in scope {
        PresCteRef(r, rels, quals, scope, e1, e2, m);
      } else {
        PresTable(r, rels, quals, scope, e1, e2, m);
      }
    case Derived(q, alias) =>
      PresQuery(q, scope, e1, e2, m);
      PresDerived(q, alias, rels, quals, scope, e1, e2, m);
    case UnsupportedRel =>
  }

  /** What the first CTE of an accepted WITH adds to its scope and to its elaboration. */
  lemma WithSplit(ctes: seq<Cte>, scope: Scope, local: set<string>, c: Context)
    requires ctes != [] && AnalyzeWith(ctes, scope, local, c).Ok?
    ensures AnalyzeCte(ctes[0], scope, c).Ok?
    ensures var i := AnalyzeCte(ctes[0], scope, c).value;
            var def := Def(ctes[0].node, i.nodes, i.used, i.bases);
            var name := ctes[0].alias.name;
            var inner := scope[name := Entry(def, i.cols, i.clear)];
            && AnalyzeWith(ctes[1..], inner, local + {name}, c).Ok?
            && var w, rest := AnalyzeWith(ctes, scope, local, c).value, AnalyzeWith(ctes[1..], inner, local + {name}, c).value;
            && w.scope == rest.scope
            && w.elab == [ctes[0].(query := i.elab, def := Some(def))] + rest.elab
  {
    hide AnalyzeCte;
  }

  /** A definition that is used is kept, any other dropped. */
  lemma PrepCtesSplit(first: Cte, rest: seq<Cte>, w: Rewrite)
    requires w.Covered() && first.def.Some?
    ensures PrepCtes([first] + rest, w) == (if first.def.value in w.used then [PrepCte(first, w)] else []) + PrepCtes(rest, w)
  {
    hide PrepCte;
    var all := [first] + rest;
    assert all[0] == first && all[1..] == rest;
  }

  lemma EvalWithSplit(first: Cte, rest: seq<Cte>, env: Env, db: Db)
    ensures EvalWith([first] + rest, env, db) == EvalWith(rest, env[first.alias.name := EvalCte(first, env, db)], db)
  {
    hide EvalCte;
    var all := [first] + rest;
    assert all[0] == first && all[1..] == rest;
  }

  /** Defining a name on both sides, alike when it is kept, or on the source side only when it is not. */
  lemma AgreeStep(scope: Scope, e1: Env, e2: Env, used: set<Def>, name: string, entry: Entry, t: Res<TableValue>)
    requires Agree(scope, e1, e2, used)
    requires entry.def in used ==> (t.Done? ==> t.value.cols == ColNames(entry.cols))
    ensures entry.def in used ==> Agree(scope[name := entry], e1[name := t], e2[name := t], used)
    ensures entry.def !in used ==> Agree(scope[name := entry], e1[name := t], e2, used)
  {
  }

  lemma {:induction false} PresWith(ctes: seq<Cte>, scope: Scope, local: set<string>, e1: Env, e2: Env, m: World)
    requires m.Valid() && Agree(scope, e1, e2, m.w.used)
    requires AnalyzeWith(ctes, scope, local, m.c).Ok?
    ensures var w := AnalyzeWith(ctes, scope, local, m.c).value;
            Agree(w.scope, EvalWith(ctes, e1, m.source), EvalWith(PrepCtes(w.elab, m.w), e2, m.scratch), m.w.used)
    decreases ctes, 0
  {
    if ctes != [] {
      var cte := ctes[0];
      assert ctes == [cte] + ctes[1..];
      WithSplit(ctes, scope, local, m.c);
      var i := AnalyzeCte(cte, scope, m.c).value;
      var def := Def(cte.node, i.nodes, i.used, i.bases);
      var elab := cte.(query := i.elab, def := Some(def));
      if def in m.w.used {
        assert m.Live(def.nodes, def.used);
      }
      hide AnalyzeWith, AnalyzeCte, EvalWith, EvalCte, PrepCtes, Agree, World.Live, World.Copied, World.Closed;
      var name, t := cte.alias.name, EvalCte(cte, e1, m.source);
      var inner, local' := scope[name := Entry(def, i.cols, i.clear)], local + {name};
      var rest := AnalyzeWith(ctes[1..], inner, local', m.c).value;
      EvalWithSplit(cte, ctes[1..], e1, m.source);
      PrepCtesSplit(elab, rest.elab, m.w);
      if def in m.w.used {
        PresCte(cte, scope, e1, e2, m);
        AgreeStep(scope, e1, e2, m.w.used, name, Entry(def, i.cols, i.clear), t);
        PresWith(ctes[1..], inner, local', e1[name := t], e2[name := t], m);
        EvalWithSplit(PrepCte(elab, m.w), PrepCtes(rest.elab, m.w), e2, m.scratch);
        assert EvalCte(PrepCte(elab, m.w), e2, m.scratch) == t by { KeptCte(elab, e2, m.w, m.scratch); }
      } else {
        AgreeStep(scope, e1, e2, m.w.used, name, Entry(def, i.cols, i.clear), t);
        PresWith(ctes[1..], inner, local', e1[name := t], e2, m);
        assert [] + PrepCtes(rest.elab, m.w) == PrepCtes(rest.elab, m.w);
      }
    } else {
      NoCtes(e1, e2, scope, local, m);
    }
  }

  lemma NoCtes(e1: Env, e2: Env, scope: Scope, local: set<string>, m: World)
    requires m.w.Covered()
    ensures AnalyzeWith([], scope, local, m.c) == Ok(WithInfo(scope, []))
    ensures EvalWith([], e1, m.source) == e1 && EvalWith(PrepCtes([], m.w), e2, m.scratch) == e2
  {
  }

  lemma KeptCte(c: Cte, env: Env, w: Rewrite, db: Db)
    requires w.Covered()
    ensures EvalCte(PrepCte(c, w), env, db) == EvalQuery(PrepQuery(c.query, w), env, db)
    ensures PrepCte(c, w).alias == c.alias
  {
    hide EvalQuery, PrepQuery;
  }

  lemma {:induction false} PresCte(cte: Cte, scope: Scope, e1: Env, e2: Env, m: World)
    requires m.Valid() && Agree(scope, e1, e2, m.w.used)
    requires AnalyzeCte(cte, scope, m.c).Ok?
    requires var i := AnalyzeCte(cte, scope, m.c).value; m.Live(i.nodes, i.used)
    ensures var i := AnalyzeCte(cte, scope, m.c).value;
            && EvalCte(cte, e1, m.source) == EvalQuery(PrepQuery(i.elab, m.w), e2, m.scratch)
            && (EvalCte(cte, e1, m.source).Done? ==> EvalCte(cte, e1, m.source).value.cols == ColNames(i.cols))
    decreases cte, 0
  {
    PresQuery(cte.query, scope, e1, e2, m);
  }

  /** The used records of an analyzed SELECT are all live. */
  ghost predicate SelectLive(s: SelectInfo, m: World)
  {
    && (forall k :: 0 <= k < |s.ons| ==> m.Live(s.ons[k].nodes, s.ons[k].used))
    && (forall k :: 0 <= k < |s.items| ==> m.Live(s.items[k].nodes, s.items[k].used))
    && (forall k :: 0 <= k < |s.filter| ==> m.Live(s.filter[k].nodes, s.filter[k].used))
    && (forall k :: 0 <= k < |s.rels| ==> m.Live(s.Finals()[k].nodes, s.Finals()[k].used))
  }

  lemma {:induction false} AllLive(infos: seq<ExprInfo>, m: World)
    requires m.Live(AllNodes(infos), AllUsed(infos))
    ensures forall k :: 0 <= k < |infos| ==> m.Live(infos[k].nodes, infos[k].used)
  {
    if infos != [] {
      AllLive(infos[1..], m);
    }
  }

  lemma {:induction false} RelsLive(rels: seq<RelInfo>, m: World)
    requires m.Live(RelNodes(rels), RelUsed(rels))
    ensures forall k :: 0 <= k < |rels| ==> m.Live(rels[k].nodes, rels[k].used)
  {
    if rels != [] {
      RelsLive(rels[1..], m);
    }
  }

  /** The k-th join is analyzed in the scope of the relations before it. */
  lemma {:induction false} JoinsAt(joins: seq<Join>, rels: seq<RelInfo>, scope: Scope, c: Context, k: nat)
    requires AnalyzeJoins(joins, rels, scope, c).Ok? && k < |joins|
    ensures var j := AnalyzeJoins(joins, rels, scope, c).value;
            AnalyzeJoin(joins[k], j.rels[..|rels| + k], scope, c) == Ok((j.rels[|rels| + k], j.ons[k]))
  {
    hide AnalyzeJoin;
    var (i, on) := AnalyzeJoin(joins[0], rels, scope, c).value;
    var j := AnalyzeJoins(joins, rels, scope, c).value;
    var rest := AnalyzeJoins(joins[1..], rels + [i], scope, c).value;
    assert j.rels == rest.rels && j.ons == [on] + rest.ons;
    if k == 0 {
      assert j.rels[..|rels|] == rels;
      assert rest.rels[|rels|] == rest.rels[..|rels + [i]|][|rels|];
    } else {
      JoinsAt(joins[1..], rels + [i], scope, c, k - 1);
    }
  }

  /** The relations joined so far, as the source and the prepared query see them. */
  function Part(s: SelectInfo, n: nat): seq<RelInfo>
    requires n <= |s.rels|
  {
    s.rels[..n]
  }

  function FinalPart(s: SelectInfo, n: nat): seq<RelInfo>
    requires n <= |s.rels|
  {
    s.Finals()[..n]
  }

  /** The aliases outside the projection agree over the first n relations. */
  ghost predicate PrefixAlike(q: Query, q2: Query, s: SelectInfo, n: nat, w1: Env, w2: Env, m: World)
    requires q.Select? && q2.Select? && n <= |s.rels| && m.w.Covered()
  {
    RestAlike(q, q2, Slots(Part(s, n)), PrepSlots(FinalPart(s, n), m.w), w1, w2, m)
  }

  /** q2 is q prepared, except that its projection may be any that passes the shadowing check. */
  ghost predicate Ready(q: Query, q2: Query, outer: Scope, s: SelectInfo, w1: Env, w2: Env, m: World)
  {
    && m.Valid() && q.Select? && q2.Select?
    && AnalyzeSelect(q, outer, m.c) == Ok(s)
    && Agree(s.scope, w1, w2, m.w.used)
    && SelectLive(s, m)
    && q2.from == PrepOptionRel(ElabSelect(q, s).from, m.w)
    && q2.joins == PrepJoins(ElabSelect(q, s).joins, m.w)
    && q2.filter == PrepOptionExpr(ElabSelect(q, s).filter, m.w)
    && AliasesSafe(q.items, Slots(s.rels))
    && AliasesSafe(q2.items, PrepSlots(s.Finals(), m.w))
    && (forall n :: 0 <= n <= |s.rels| ==> PrefixAlike(q, q2, s, n, w1, w2, m))
    && s.Quals() <= Qualifiers(s.rels)
    && (forall i :: 0 <= i < |s.rels| ==> s.rels[i].qualifier == Qualifier(s.rels[i].elab))
  }

  lemma PrefixIs(q: Query, q2: Query, s: SelectInfo, n: nat, w1: Env, w2: Env, m: World)
    requires q.Select? && q2.Select? && n <= |s.rels| && m.w.Covered() && PrefixAlike(q, q2, s, n, w1, w2, m)
    ensures RestAlike(q, q2, Slots(Part(s, n)), PrepSlots(FinalPart(s, n), m.w), w1, w2, m)
  {
  }

  lemma WholeAlike(q: Query, q2: Query, s: SelectInfo, w1: Env, w2: Env, m: World)
    requires q.Select? && q2.Select? && m.w.Covered() && PrefixAlike(q, q2, s, |s.rels|, w1, w2, m)
    ensures RestAlike(q, q2, Slots(s.rels), PrepSlots(s.Finals(), m.w), w1, w2, m)
  {
    assert Part(s, |s.rels|) == s.rels && FinalPart(s, |s.rels|) == s.Finals();
  }

  ghost predicate Matching(r1: Res<Source>, r2: Res<Source>, a: seq<QName>, b: seq<QName>)
  {
    (r1.Done? <==> r2.Done?) && (r1.Done? ==> r1.value.rows == r2.value.rows && r1.value.cols == a && r2.value.cols == b)
  }

  lemma PartAligned(s: SelectInfo, n: nat, w: Rewrite, quals: set<string>)
    requires w.Covered() && n <= |s.rels|
    requires forall i :: 0 <= i < |s.rels| ==> s.rels[i].qualifier == Qualifier(s.rels[i].elab)
    requires s.Quals() <= Qualifiers(s.rels) && quals <= s.Quals()
    ensures Aligned(Slots(Part(s, n)), PrepSlots(FinalPart(s, n), w), quals)
    ensures Slots(Part(s, n)) <= Slots(s.rels)
    ensures PrepSlots(FinalPart(s, n), w) <= PrepSlots(s.Finals(), w)
  {
    hide Aligned, FinalRel, PrepRel, Qualifier, Qualifiers, Tag;
    assert FinalRels(s.rels[..n], s.rels, s.Quals()) == s.Finals()[..n];
    SlotsAligned(s.rels[..n], s.rels, s.Quals(), w);
    AlignedSubset(Slots(Part(s, n)), PrepSlots(FinalPart(s, n), w), s.Quals(), quals);
    SlotsPrefix(s.rels, n);
    PrepSlotsPrefix(s.Finals(), n, w);
  }

  /** Adding the table of the next relation gives the columns of one relation more. */
  lemma PartStep(s: SelectInfo, n: nat, w: Rewrite, names: seq<string>)
    requires w.Covered() && n < |s.rels| && names == ColNames(s.rels[n].cols)
    ensures Slots(Part(s, n + 1)) == Slots(Part(s, n)) + Tag(s.rels[n].qualifier, names)
    ensures PrepSlots(FinalPart(s, n + 1), w) ==
            PrepSlots(FinalPart(s, n), w) + Tag(Qualifier(PrepRel(s.Finals()[n].elab, w)), names)
  {
    hide FinalRel, PrepRel, Qualifier, Tag;
    assert s.rels[..n + 1][..n] == s.rels[..n];
    assert s.Finals()[..n + 1][..n] == s.Finals()[..n];
    assert s.Finals()[n] == FinalRel(s.rels[n], s.rels, s.Quals());
    FinalCols(s.rels[n], s.rels, s.Quals());
  }

  lemma {:induction false} QualsOfInfo(infos: seq<ExprInfo>, k: nat)
    requires k < |infos|
    ensures infos[k].quals <= AllQuals(infos)
  {
    if k > 0 {
      QualsOfInfo(infos[1..], k - 1);
    }
  }

  /** What the analysis of a SELECT says of its k-th join. */
  lemma SelectJoin(q: Query, outer: Scope, s: SelectInfo, c: Context, k: nat)
    requires q.Select? && AnalyzeSelect(q, outer, c) == Ok(s) && k < |q.joins|
    ensures AnalyzeRel(q.joins[k].rel, s.scope, c) == Ok(s.rels[|s.first| + k])
    ensures AnalyzeExpr(q.joins[k].on, Part(s, |s.first| + k + 1), s.scope, c) == Ok(s.ons[k])
    ensures s.ons[k].quals <= s.Quals()
  {
    hide AnalyzeJoins, AnalyzeWith, AnalyzeFrom, AnalyzeExprs, AnalyzeFilter, AnalyzeExpr, AnalyzeRel, DistinctQualifiers;
    var n := |s.first| + k;
    JoinsAt(q.joins, s.first, s.scope, c, k);
    assert s.rels[..n] + [s.rels[n]] == Part(s, n + 1);
    QualsOfInfo(s.ons, k);
  }

  lemma SelectFrom(q: Query, outer: Scope, s: SelectInfo, c: Context)
    requires q.Select? && AnalyzeSelect(q, outer, c) == Ok(s) && q.from.Some?
    ensures AnalyzeRel(q.from.value, s.scope, c) == Ok(s.rels[0])
  {
    assert s.rels[0] == s.rels[..1][0] == s.first[0];
  }

  lemma SelectFilter(q: Query, outer: Scope, s: SelectInfo, c: Context)
    requires q.Select? && AnalyzeSelect(q, outer, c) == Ok(s) && q.filter.Some?
    ensures AnalyzeExpr(q.filter.value, s.rels, s.scope, c) == Ok(s.filter[0])
    ensures s.filter[0].quals <= s.Quals()
  {
    QualsOfInfo(s.filter, 0);
  }

  lemma SelectParts(q: Query, outer: Scope, c: Context)
    requires q.Select? && AnalyzeSelect(q, outer, c).Ok?
    ensures var s := AnalyzeSelect(q, outer, c).value;
            && AnalyzeWith(q.ctes, outer, {}, c) == Ok(WithInfo(s.scope, s.ctes))
            && AnalyzeExprs(q.items, s.rels, s.scope, c) == Ok(s.items)
            && s.items != []
            && DistinctQualifiers(s.rels)
  {
  }

  /** The prepared k-th join, and the liveness of what it uses. */
  lemma ReadyJoin(q: Query, q2: Query, outer: Scope, s: SelectInfo, w1: Env, w2: Env, m: World, k: nat)
    requires Ready(q, q2, outer, s, w1, w2, m) && k < |q.joins|
    ensures |q2.joins| == |q.joins|
    ensures var f := FinalRel(s.rels[|s.first| + k], s.rels, s.Quals());
            && q2.joins[k] == Join(PrepRel(f.elab, m.w), PrepExpr(s.ons[k].elab, m.w), q.joins[k].allInner)
            && m.Live(s.ons[k].nodes, s.ons[k].used)
            && m.Live(f.nodes, f.used)
  {
    hide Agree, AliasesSafe, PrefixAlike, Aligned, AnalyzeSelect, Slots, PrepSlots, FinalRel, PrepRel, PrepExpr, World.Live, World.Valid, Qualifiers, ElabSelect;
    var n := |s.first| + k;
    ElabJoin(q, s, k);
    assert m.Live(s.ons[k].nodes, s.ons[k].used);
    assert m.Live(s.Finals()[n].nodes, s.Finals()[n].used);
  }

  /** The k-th join of the elaborated SELECT. */
  lemma ElabJoin(q: Query, s: SelectInfo, k: nat)
    requires q.Select? && |s.items| == |q.items| && |s.ons| == |q.joins| && k < |q.joins|
    requires |s.first| == if q.from.None? then 0 else 1
    requires |s.rels| == |s.first| + |q.joins|
    requires |s.filter| == if q.filter.None? then 0 else 1
    ensures |ElabSelect(q, s).joins| == |q.joins|
    ensures var f := FinalRel(s.rels[|s.first| + k], s.rels, s.Quals());
            s.Finals()[|s.first| + k] == f && ElabSelect(q, s).joins[k] == Join(f.elab, s.ons[k].elab, q.joins[k].allInner)
  {
    hide FinalRel;
    var n := |s.first| + k;
    assert s.Finals()[n] == FinalRel(s.rels[n], s.rels, s.Quals());
    assert s.Finals()[|s.first|..][k] == s.Finals()[n];
  }

  /** Every qualifier used is a relation's, and every relation has its own. */
  ghost predicate Qualified(s: SelectInfo)
  {
    && s.Quals() <= Qualifiers(s.rels)
    && forall i :: 0 <= i < |s.rels| ==> s.rels[i].qualifier == Qualifier(s.rels[i].elab)
  }

  /** The columns in scope with one relation more, on both sides. */
  lemma ScopeAt(s: SelectInfo, n: nat, w: Rewrite, quals: set<string>)
    requires w.Covered() && n < |s.rels| && Qualified(s) && quals <= s.Quals()
    ensures PrepSlots(FinalPart(s, n + 1), w) ==
            PrepSlots(FinalPart(s, n), w) + Tag(Qualifier(PrepRel(FinalRel(s.rels[n], s.rels, s.Quals()).elab, w)), ColNames(s.rels[n].cols))
    ensures Slots(Part(s, n + 1)) == Slots(Part(s, n)) + Tag(s.rels[n].qualifier, ColNames(s.rels[n].cols))
    ensures Aligned(Slots(Part(s, n + 1)), PrepSlots(FinalPart(s, n + 1), w), quals)
    ensures Slots(Part(s, n + 1)) <= Slots(s.rels)
    ensures PrepSlots(FinalPart(s, n + 1), w) <= PrepSlots(s.Finals(), w)
  {
    hide Aligned, Slots, PrepSlots, FinalRel, PrepRel, Qualifiers, Qualifier, Tag, Part, FinalPart;
    assert s.Finals()[n] == FinalRel(s.rels[n], s.rels, s.Quals());
    PartStep(s, n, w, ColNames(s.rels[n].cols));
    PartAligned(s, n + 1, w, quals);
  }

  lemma ReadyQuals(q: Query, q2: Query, outer: Scope, s: SelectInfo, w1: Env, w2: Env, m: World)
    requires Ready(q, q2, outer, s, w1, w2, m)
    ensures Qualified(s) && m.w.Covered()
  {
    hide Agree, AliasesSafe, PrefixAlike, AnalyzeSelect, Qualifiers;
  }

  lemma ReadyBasics(q: Query, q2: Query, outer: Scope, s: SelectInfo, w1: Env, w2: Env, m: World)
    requires Ready(q, q2, outer, s, w1, w2, m)
    ensures m.Valid() && Agree(s.scope, w1, w2, m.w.used)
    ensures q.Select? && q2.Select? && AnalyzeSelect(q, outer, m.c) == Ok(s)
    ensures AliasesSafe(q.items, Slots(s.rels)) && AliasesSafe(q2.items, PrepSlots(s.Finals(), m.w))
    ensures forall n :: 0 <= n <= |s.rels| ==> PrefixAlike(q, q2, s, n, w1, w2, m)
    ensures |q2.joins| == |q.joins|
    ensures q2.from.Some? <==> q.from.Some?
    ensures q2.filter.Some? <==> q.filter.Some?
  {
    hide Agree, AliasesSafe, PrefixAlike, Aligned, AnalyzeSelect;
  }

  /** A join of equal rows with equal tables, filtered alike. */
  lemma JoinMatches(q: Query, q2: Query, k: nat, src1: Source, src2: Source, a: seq<QName>, b: seq<QName>, e1: Env, e2: Env, d1: Db, d2: Db)
    requires q.Select? && q2.Select? && k < |q.joins| == |q2.joins| && src1.rows == src2.rows
    requires EvalRel(q.joins[k].rel, e1, d1) == EvalRel(q2.joins[k].rel, e2, d2)
    requires var t := EvalRel(q.joins[k].rel, e1, d1); t.Done? ==>
      && src1.cols + Tag(Qualifier(q.joins[k].rel), t.value.cols) == a
      && src2.cols + Tag(Qualifier(q2.joins[k].rel), t.value.cols) == b
      && var rows := Product(src1.rows, t.value.rows);
      FilterRows(q.joins[k].on, a, Annotate(q, a, rows, e1, d1), e1, d1) == FilterRows(q2.joins[k].on, b, Annotate(q2, b, rows, e2, d2), e2, d2)
    ensures Matching(EvalJoin(q, k, src1, e1, d1), EvalJoin(q2, k, src2, e2, d2), a, b)
  {
    hide EvalRel, FilterRows, Annotate, Product, Tag, Qualifier;
  }

  lemma {:induction false} PresJoinStep(j: Join, k: nat, q: Query, q2: Query, outer: Scope, s: SelectInfo, src1: Source, src2: Source,
                     w1: Env, w2: Env, m: World)
    requires Ready(q, q2, outer, s, w1, w2, m) && k < |q.joins| && j == q.joins[k] && |q2.joins| == |q.joins|
    requires src1.rows == src2.rows
    requires src1.cols == Slots(Part(s, |s.first| + k)) && src2.cols == PrepSlots(FinalPart(s, |s.first| + k), m.w)
    ensures Matching(EvalJoin(q, k, src1, w1, m.source), EvalJoin(q2, k, src2, w2, m.scratch),
                     Slots(Part(s, |s.first| + k + 1)), PrepSlots(FinalPart(s, |s.first| + k + 1), m.w))
    decreases j, 0
  {
    hide Ready, Agree, AliasesSafe, PrefixAlike, RestAlike, Aligned, AnalyzeSelect, AnalyzeExpr, AnalyzeRel, EvalRel, EvalJoin, FilterRows, Slots, PrepSlots, Part, FinalPart,
         FinalRel, PrepRel, PrepExpr, Qualifier, Annotate, Tag, Product, World.Live, Qualified, SelectInfo.Quals, Matching;
    var n := |s.first| + k;
    ReadyBasics(q, q2, outer, s, w1, w2, m);
    SelectJoin(q, outer, s, m.c, k);
    ReadyJoin(q, q2, outer, s, w1, w2, m, k);
    ReadyQuals(q, q2, outer, s, w1, w2, m);
    ScopeAt(s, n, m.w, s.ons[k].quals);
    PresRel(j.rel, s.rels, s.Quals(), s.scope, w1, w2, m);
    var t := EvalRel(j.rel, w1, m.source);
    var a, b := Slots(Part(s, n + 1)), PrepSlots(FinalPart(s, n + 1), m.w);
    if t.Done? {
      PrefixIs(q, q2, s, n + 1, w1, w2, m);
      PresFilter(j.on, Part(s, n + 1), s.scope, a, b, Product(src1.rows, t.value.rows), q, q2, Slots(s.rels), PrepSlots(s.Finals(), m.w), w1, w2, m);
    }
    JoinMatches(q, q2, k, src1, src2, a, b, w1, w2, m.source, m.scratch);
  }

  lemma {:induction false} PresJoins(q: Query, q2: Query, k: nat, outer: Scope, s: SelectInfo, src1: Source, src2: Source,
                  w1: Env, w2: Env, m: World)
    requires Ready(q, q2, outer, s, w1, w2, m) && k <= |q.joins| && |q2.joins| == |q.joins|
    requires src1.rows == src2.rows
    requires src1.cols == Slots(Part(s, |s.first| + k)) && src2.cols == PrepSlots(FinalPart(s, |s.first| + k), m.w)
    ensures Matching(EvalJoins(q, k, src1, w1, m.source), EvalJoins(q2, k, src2, w2, m.scratch),
                     Slots(s.rels), PrepSlots(s.Finals(), m.w))
    decreases q, 0, |q.joins| - k
  {
    hide Ready, Agree, AliasesSafe, PrefixAlike, Aligned, AnalyzeSelect, EvalJoin, Slots, PrepSlots;
    ReadyBasics(q, q2, outer, s, w1, w2, m);
    if k == |q.joins| {
      assert Part(s, |s.rels|) == s.rels && FinalPart(s, |s.rels|) == s.Finals();
    } else {
      PresJoinStep(q.joins[k], k, q, q2, outer, s, src1, src2, w1, w2, m);
      var n1 := EvalJoin(q, k, src1, w1, m.source);
      if n1.Done? {
        PresJoins(q, q2, k + 1, outer, s, n1.value, EvalJoin(q2, k, src2, w2, m.scratch).value, w1, w2, m);
      }
    }
  }

  lemma ReadyFrom(q: Query, q2: Query, outer: Scope, s: SelectInfo, w1: Env, w2: Env, m: World)
    requires Ready(q, q2, outer, s, w1, w2, m) && q.from.Some?
    ensures m.w.Covered() && s.rels != []
    ensures var f := FinalRel(s.rels[0], s.rels, s.Quals());
            && q2.from == Some(PrepRel(f.elab, m.w)) && m.Live(f.nodes, f.used)
  {
    hide Agree, AliasesSafe, PrefixAlike, Aligned, AnalyzeSelect, Slots, PrepSlots, FinalRel, PrepRel, Qualifier, Qualifiers, ElabSelect, World.Live, Tag;
    ElabFrom(q, s);
    assert m.Live(s.Finals()[0].nodes, s.Finals()[0].used);
  }

  /** The columns of the first relation, on both sides. */
  lemma FirstScope(s: SelectInfo, w: Rewrite)
    requires w.Covered() && s.rels != []
    ensures Slots(Part(s, 1)) == Tag(s.rels[0].qualifier, ColNames(s.rels[0].cols))
    ensures PrepSlots(FinalPart(s, 1), w) ==
            Tag(Qualifier(PrepRel(FinalRel(s.rels[0], s.rels, s.Quals()).elab, w)), ColNames(s.rels[0].cols))
  {
    hide Slots, PrepSlots, FinalRel, PrepRel, Qualifier, Tag, Part, FinalPart;
    assert s.Finals()[0] == FinalRel(s.rels[0], s.rels, s.Quals());
    PartStep(s, 0, w, ColNames(s.rels[0].cols));
    NoScope(s, w);
  }

  lemma ElabFrom(q: Query, s: SelectInfo)
    requires q.Select? && q.from.Some? && |s.items| == |q.items| && |s.ons| == |q.joins|
    requires |s.first| == 1 && |s.rels| == 1 + |q.joins|
    requires |s.filter| == if q.filter.None? then 0 else 1
    ensures var f := FinalRel(s.rels[0], s.rels, s.Quals()); s.Finals()[0] == f && ElabSelect(q, s).from == Some(f.elab)
  {
    hide FinalRel;
    assert s.Finals()[0] == FinalRel(s.rels[0], s.rels, s.Quals());
  }

  lemma NoScope(s: SelectInfo, w: Rewrite)
    requires w.Covered()
    ensures Slots(Part(s, 0)) == [] && PrepSlots(FinalPart(s, 0), w) == []
  {
  }

  lemma {:induction false} PresFrom(from: Option<Rel>, q: Query, q2: Query, outer: Scope, s: SelectInfo, w1: Env, w2: Env, m: World)
    requires Ready(q, q2, outer, s, w1, w2, m) && from == q.from
    ensures Matching(EvalFrom(from, w1, m.source), EvalFrom(q2.from, w2, m.scratch),
                     Slots(Part(s, |s.first|)), PrepSlots(FinalPart(s, |s.first|), m.w))
    decreases from
  {
    hide Ready, Agree, AliasesSafe, PrefixAlike, Aligned, AnalyzeSelect, EvalRel, Slots, PrepSlots, AnalyzeRel, FinalRel;
    ReadyBasics(q, q2, outer, s, w1, w2, m);
    match from
    case None => NoScope(s, m.w);
    case Some(r) =>
      SelectFrom(q, outer, s, m.c);
      ReadyFrom(q, q2, outer, s, w1, w2, m);
      FirstScope(s, m.w);
      PresRel(r, s.rels, s.Quals(), s.scope, w1, w2, m);
  }

  lemma ReadyFilter(q: Query, q2: Query, outer: Scope, s: SelectInfo, w1: Env, w2: Env, m: World)
    requires Ready(q, q2, outer, s, w1, w2, m) && q.filter.Some?
    ensures q2.filter == Some(PrepExpr(s.filter[0].elab, m.w)) && m.Live(s.filter[0].nodes, s.filter[0].used)
    ensures Aligned(Slots(s.rels), PrepSlots(s.Finals(), m.w), s.filter[0].quals)
  {
    hide Agree, AliasesSafe, PrefixAlike, Aligned, AnalyzeSelect, Slots, PrepSlots, Qualifiers, PrepExpr, PrepRel;
    SelectFilter(q, outer, s, m.c);
    assert Part(s, |s.rels|) == s.rels && FinalPart(s, |s.rels|) == s.Finals();
    PartAligned(s, |s.rels|, m.w, s.filter[0].quals);
  }

  lemma {:induction false} PresWhere(filter: Option<Expr>, q: Query, q2: Query, outer: Scope, s: SelectInfo, rows: seq<Row>, w1: Env, w2: Env, m: World)
    requires Ready(q, q2, outer, s, w1, w2, m) && filter == q.filter && filter.Some? && q2.filter.Some?
    ensures FilterRows(filter.value, Slots(s.rels), Annotate(q, Slots(s.rels), rows, w1, m.source), w1, m.source) ==
            FilterRows(q2.filter.value, PrepSlots(s.Finals(), m.w),
                       Annotate(q2, PrepSlots(s.Finals(), m.w), rows, w2, m.scratch), w2, m.scratch)
    decreases filter
  {
    hide Ready, Agree, AliasesSafe, PrefixAlike, Aligned, AnalyzeSelect, Slots, PrepSlots, FilterRows, AnalyzeExpr;
    ReadyBasics(q, q2, outer, s, w1, w2, m);
    SelectFilter(q, outer, s, m.c);
    ReadyFilter(q, q2, outer, s, w1, w2, m);
    assert RestAlike(q, q2, Slots(s.rels), PrepSlots(s.Finals(), m.w), w1, w2, m) by { WholeAlike(q, q2, s, w1, w2, m); }
    PresFilter(filter.value, s.rels, s.scope, Slots(s.rels), PrepSlots(s.Finals(), m.w), rows, q, q2,
               Slots(s.rels), PrepSlots(s.Finals(), m.w), w1, w2, m);
  }

  /** FROM, JOIN and WHERE give the same rows, each in its own columns. */
  lemma {:induction false} PresSource(q: Query, q2: Query, outer: Scope, s: SelectInfo, w1: Env, w2: Env, m: World)
    requires Ready(q, q2, outer, s, w1, w2, m)
    ensures q2.Select? && q.Select?
    ensures Matching(EvalSource(q, w1, m.source), EvalSource(q2, w2, m.scratch), Slots(s.rels), PrepSlots(s.Finals(), m.w))
    decreases q, 1
  {
    hide Ready, Agree, AliasesSafe, PrefixAlike, Aligned, AnalyzeSelect, Slots, PrepSlots, EvalJoins, EvalFrom, FilterRows;
    ReadyBasics(q, q2, outer, s, w1, w2, m);
    PresFrom(q.from, q, q2, outer, s, w1, w2, m);
    var f1 := EvalFrom(q.from, w1, m.source);
    if f1.Done? {
      var f2 := EvalFrom(q2.from, w2, m.scratch);
      PresJoins(q, q2, 0, outer, s, f1.value, f2.value, w1, w2, m);
      var r := EvalJoins(q, 0, f1.value, w1, m.source);
      if r.Done? && q.filter.Some? {
        PresWhere(q.filter, q, q2, outer, s, r.value.rows, w1, w2, m);
      }
    }
  }

  lemma {:induction false} PresItems(es: seq<Expr>, rels: seq<RelInfo>, scope: Scope, a: seq<QName>, b: seq<QName>, vals: Row,
                  al1: map<string, Res<Value>>, al2: map<string, Res<Value>>, e1: Env, e2: Env, m: World)
    requires m.Valid() && Agree(scope, e1, e2, m.w.used)
    requires AnalyzeExprs(es, rels, scope, m.c).Ok?
    requires forall i :: i in AnalyzeExprs(es, rels, scope, m.c).value ==> m.Live(i.nodes, i.used) && Aligned(a, b, i.quals)
    requires BareAlike(Slots(rels), a, al1, b, al2, vals)
    ensures EvalItems(es, a, RowEnv(vals, al1), e1, m.source) ==
            EvalItems(PrepExprs(Elabs(AnalyzeExprs(es, rels, scope, m.c).value), m.w), b, RowEnv(vals, al2), e2, m.scratch)
    decreases es, 0
  {
    if es != [] {
      var infos := AnalyzeExprs(es, rels, scope, m.c).value;
      var i := AnalyzeExpr(es[0], rels, scope, m.c).value;
      var rest := AnalyzeExprs(es[1..], rels, scope, m.c).value;
      assert infos == [i] + rest && infos[0] == i && infos[1..] == rest;
      PresExpr(es[0], rels, scope, a, b, vals, al1, al2, e1, e2, m);
      PresItems(es[1..], rels, scope, a, b, vals, al1, al2, e1, e2, m);
      var p := PrepExprs(Elabs(infos), m.w);
      assert p[0] == PrepExpr(i.elab, m.w) && p[1..] == PrepExprs(Elabs(rest), m.w);
    }
  }

  lemma {:induction false} PresProject(es: seq<Expr>, rels: seq<RelInfo>, scope: Scope, a: seq<QName>, b: seq<QName>, rows: seq<Row>,
                    q1: Query, q2: Query, e1: Env, e2: Env, m: World)
    requires m.Valid() && Agree(scope, e1, e2, m.w.used)
    requires AnalyzeExprs(es, rels, scope, m.c).Ok?
    requires forall i :: i in AnalyzeExprs(es, rels, scope, m.c).value ==> m.Live(i.nodes, i.used) && Aligned(a, b, i.quals)
    requires a == Slots(rels) && Aligned(a, b, {})
    requires q1.Select? && q2.Select? && AliasesSafe(q1.items, a) && AliasesSafe(q2.items, b) && RestAlike(q1, q2, a, b, e1, e2, m)
    ensures ProjectRows(es, a, Annotate(q1, a, rows, e1, m.source), e1, m.source) ==
            ProjectRows(PrepExprs(Elabs(AnalyzeExprs(es, rels, scope, m.c).value), m.w), b,
                        Annotate(q2, b, rows, e2, m.scratch), e2, m.scratch)
    decreases es, 1, |rows|
  {
    hide BareAlike, Aligned, AliasesSafe, RestAlike, AnalyzeExprs, EvalItems, Slots, SelectAliases, Agree, PrepExprs, Elabs;
    if rows != [] {
      SelectAlike(q1, q2, a, b, a, b, {}, rows[0], e1, e2, m);
      PresItems(es, rels, scope, a, b, rows[0], SelectAliases(q1, a, rows[0], e1, m.source),
                SelectAliases(q2, b, rows[0], e2, m.scratch), e1, e2, m);
      PresProject(es, rels, scope, a, b, rows[1..], q1, q2, e1, e2, m);
    }
  }

  lemma {:induction false} ItemsAnalyzed(es: seq<Expr>, rels: seq<RelInfo>, scope: Scope, c: Context, k: nat)
    requires AnalyzeExprs(es, rels, scope, c).Ok? && k < |es|
    ensures AnalyzeExpr(es[k], rels, scope, c) == Ok(AnalyzeExprs(es, rels, scope, c).value[k])
  {
    if k > 0 {
      ItemsAnalyzed(es[1..], rels, scope, c, k - 1);
    }
  }

  /** The output names are the analyzer's, before and after Prepare. */
  lemma {:induction false} NamesStable(es: seq<Expr>, rels: seq<RelInfo>, scope: Scope, c: Context, w: Rewrite)
    requires AnalyzeExprs(es, rels, scope, c).Ok? && w.Covered()
    ensures Names(es) == ColNames(InfoCols(AnalyzeExprs(es, rels, scope, c).value))
    ensures Names(PrepExprs(Elabs(AnalyzeExprs(es, rels, scope, c).value), w)) == Names(es)
  {
    var infos := AnalyzeExprs(es, rels, scope, c).value;
    NamesAt(es);
    NamesAt(PrepExprs(Elabs(infos), w));
    forall k | 0 <= k < |es|
      ensures Names(es)[k] == infos[k].col.name
      ensures Names(PrepExprs(Elabs(infos), w))[k] == Names(es)[k]
    {
      ItemsAnalyzed(es, rels, scope, c, k);
      NameStable(es[k], rels, scope, c, w);
    }
  }

  lemma {:induction false} NamesAt(es: seq<Expr>)
    ensures |Names(es)| == |es| && forall k :: 0 <= k < |es| ==> Names(es)[k] == OutputName(es[k])
  {
    if es != [] {
      NamesAt(es[1..]);
    }
  }

  lemma RelQualifier(r: Rel, scope: Scope, c: Context)
    requires AnalyzeRel(r, scope, c).Ok?
    ensures var i := AnalyzeRel(r, scope, c).value; i.qualifier == Qualifier(i.elab)
  {
  }

  lemma SelectQualifierAt(q: Query, outer: Scope, s: SelectInfo, c: Context, i: nat)
    requires q.Select? && AnalyzeSelect(q, outer, c) == Ok(s) && i < |s.rels|
    ensures s.rels[i].qualifier == Qualifier(s.rels[i].elab)
  {
    hide AnalyzeSelect, AnalyzeRel, Qualifier, AnalyzeExpr, Part, SelectInfo.Quals;
    if i < |s.first| {
      SelectFrom(q, outer, s, c);
      RelQualifier(q.from.value, s.scope, c);
    } else {
      var k := i - |s.first|;
      SelectJoin(q, outer, s, c, k);
      RelQualifier(q.joins[k].rel, s.scope, c);
    }
  }

  lemma SelectQualifiers(q: Query, outer: Scope, s: SelectInfo, c: Context)
    requires q.Select? && AnalyzeSelect(q, outer, c) == Ok(s)
    ensures forall i :: 0 <= i < |s.rels| ==> s.rels[i].qualifier == Qualifier(s.rels[i].elab)
  {
    hide AnalyzeSelect, Qualifier;
    forall i | 0 <= i < |s.rels|
      ensures s.rels[i].qualifier == Qualifier(s.rels[i].elab)
    {
      SelectQualifierAt(q, outer, s, c, i);
    }
  }

  lemma {:induction false} AllQualsKnown(infos: seq<ExprInfo>, known: set<string>)
    requires forall k :: 0 <= k < |infos| ==> infos[k].quals <= known
    ensures AllQuals(infos) <= known
  {
    if infos != [] {
      AllQualsKnown(infos[1..], known);
    }
  }

  /** Every qualifier a column of the SELECT uses is the qualifier of one of its relations. */
  lemma SelectQuals(q: Query, outer: Scope, s: SelectInfo, c: Context)
    requires q.Select? && AnalyzeSelect(q, outer, c) == Ok(s)
    ensures s.Quals() <= Qualifiers(s.rels)
  {
    hide AnalyzeSelect, AnalyzeExpr, AnalyzeRel, Slots, AllQuals;
    var known := Qualifiers(s.rels);
    hide Qualifiers;
    SlotsKnown(s.rels, known);
    forall k | 0 <= k < |s.ons|
      ensures s.ons[k].quals <= known
    {
      SelectJoin(q, outer, s, c, k);
      SlotsKnown(Part(s, |s.first| + k + 1), known);
      QualsKnown(q.joins[k].on, Part(s, |s.first| + k + 1), s.scope, c, known);
    }
    forall k | 0 <= k < |s.items|
      ensures s.items[k].quals <= known
    {
      SelectParts(q, outer, c);
      ItemsAnalyzed(q.items, s.rels, s.scope, c, k);
      QualsKnown(q.items[k], s.rels, s.scope, c, known);
    }
    if q.filter.Some? {
      SelectFilter(q, outer, s, c);
      QualsKnown(q.filter.value, s.rels, s.scope, c, known);
    }
    AllQualsKnown(s.ons, known);
    AllQualsKnown(s.items, known);
    AllQualsKnown(s.filter, known);
  }

  lemma SourceItemsSafe(q: Query, outer: Scope, s: SelectInfo, c: Context)
    requires q.Select? && AnalyzeSelect(q, outer, c) == Ok(s)
    ensures AliasesSafe(q.items, Slots(s.rels))
  {
    forall k | 0 <= k < |q.items|
      ensures AliasSafe(q.items[k], Slots(s.rels))
    {
      hide AnalyzeSelect, AnalyzeExpr, AliasSafe;
      SelectParts(q, outer, c);
      ItemsAnalyzed(q.items, s.rels, s.scope, c, k);
      SourceAliasSafe(q.items[k], s.rels, s.scope, c);
    }
  }

  /** An alias in an accepted ON condition passes the check against all relations exactly when it does against the later ones. */
  lemma OnSafe(q: Query, outer: Scope, s: SelectInfo, c: Context, k: nat, name: string)
    requires q.Select? && AnalyzeSelect(q, outer, c) == Ok(s) && k < |q.joins|
    ensures AliasSafeAt(q.joins[k].on, name, Slots(s.rels)) <==> AliasSafeAt(q.joins[k].on, name, Slots(s.rels[|s.first| + k + 1..]))
  {
    hide AnalyzeSelect, AnalyzeExpr, AliasSafe, AliasSafeAt, Slots, Part;
    var n := |s.first| + k + 1;
    SelectJoin(q, outer, s, c, k);
    assert Part(s, n) == s.rels[..n] by { PartIs(s, n); }
    SourceAliasSafe(q.joins[k].on, s.rels[..n], s.scope, c);
    SafeAt(q.joins[k].on, name, Slots(s.rels[..n]));
    SlotsSplit(s.rels, n);
    SafeSplit(q.joins[k].on, name, Slots(s.rels[..n]), Slots(s.rels[n..]));
  }

  lemma PartIs(s: SelectInfo, n: nat)
    requires n <= |s.rels|
    ensures Part(s, n) == s.rels[..n]
  {
  }

  lemma SafeExactlyAt(q: Query, outer: Scope, s: SelectInfo, c: Context, name: string)
    requires q.Select? && AnalyzeSelect(q, outer, c) == Ok(s)
    ensures |q.joins| <= |s.rels|
    ensures SelectSafeAt(q, name, Slots(s.rels)) <==>
      forall k :: 0 <= k < |q.joins| ==> AliasSafeAt(q.joins[k].on, name, Slots(s.rels[|s.rels| - |q.joins| + k + 1..]))
  {
    hide AnalyzeSelect, AnalyzeExpr, AliasSafe, AliasSafeAt, Slots, AliasesSafe;
    SourceItemsSafe(q, outer, s, c);
    ItemsSafeAt(q.items, name, Slots(s.rels));
    forall k | 0 <= k < |q.joins|
      ensures AliasSafeAt(q.joins[k].on, name, Slots(s.rels)) <==>
              AliasSafeAt(q.joins[k].on, name, Slots(s.rels[|s.rels| - |q.joins| + k + 1..]))
    {
      OnSafe(q, outer, s, c, k, name);
    }
    if q.filter.Some? {
      SelectFilter(q, outer, s, c);
      SourceAliasSafe(q.filter.value, s.rels, s.scope, c);
      SafeAt(q.filter.value, name, Slots(s.rels));
    }
  }

  /**
   Every alias that an unqualified column of an accepted SELECT names passes the check against all its relations if
   and only if those written in ON conditions pass it against the later ones.
   */
  lemma SelectSafeExactly(q: Query, outer: Scope, s: SelectInfo, c: Context)
    requires q.Select? && AnalyzeSelect(q, outer, c) == Ok(s)
    ensures |q.joins| <= |s.rels| && (SelectSafe(q, Slots(s.rels)) <==> LateClear(q, s.rels))
  {
    hide AnalyzeSelect, AliasSafeAt, Slots, SelectNames, SelectSafeAt;
    forall n | n in SelectNames(q)
      ensures SelectSafeAt(q, n, Slots(s.rels)) <==>
        forall k :: 0 <= k < |q.joins| ==> AliasSafeAt(q.joins[k].on, n, Slots(s.rels[|s.rels| - |q.joins| + k + 1..]))
    {
      SafeExactlyAt(q, outer, s, c, n);
    }
  }

  lemma ElabLengths(q: Query, s: SelectInfo)
    requires q.Select? && |s.items| == |q.items| && |s.ons| == |q.joins|
    requires |s.first| == if q.from.None? then 0 else 1
    requires |s.rels| == |s.first| + |q.joins|
    requires |s.filter| == if q.filter.None? then 0 else 1
    ensures |ElabSelect(q, s).joins| == |q.joins|
    ensures ElabSelect(q, s).filter == if q.filter.None? then None else Some(s.filter[0].elab)
  {
  }

  lemma {:induction false} PresJoinAliases(j: Join, k: nat, q: Query, outer: Scope, s: SelectInfo, n: nat, vals: Row, w1: Env, w2: Env, m: World)
    requires m.Valid() && q.Select? && AnalyzeSelect(q, outer, m.c) == Ok(s) && Agree(s.scope, w1, w2, m.w.used) && SelectLive(s, m)
    requires k < |q.joins| && j == q.joins[k] && n <= |s.rels|
    ensures JoinAliases(j, Slots(Part(s, n)), vals, w1, m.source) ==
            AliasValues(PrepExpr(s.ons[k].elab, m.w), PrepSlots(FinalPart(s, n), m.w), vals, w2, m.scratch)
    decreases j, 0
  {
    hide AnalyzeSelect, Agree, AnalyzeExpr, AliasValues, PrepExpr, Slots, PrepSlots, Aligned, Part, FinalPart, Qualifiers, World.Live, World.Valid;
    assert m.Live(s.ons[k].nodes, s.ons[k].used) && m.w.Covered() by { CoveredOf(m); }
    SelectQualifiers(q, outer, s, m.c);
    SelectQuals(q, outer, s, m.c);
    SelectJoin(q, outer, s, m.c, k);
    PartAligned(s, n, m.w, s.ons[k].quals);
    PresAliases(j.on, Part(s, |s.first| + k + 1), s.scope, Slots(Part(s, n)), PrepSlots(FinalPart(s, n), m.w), vals, w1, w2, m);
  }

  lemma CoveredOf(m: World)
    requires m.Valid()
    ensures m.w.Covered()
  {
  }

  /** The aliases of the ON conditions from the k-th on. */
  lemma {:induction false} PresOnAliases(q: Query, q2: Query, k: nat, outer: Scope, s: SelectInfo, n: nat, vals: Row, w1: Env, w2: Env, m: World)
    requires m.Valid() && q.Select? && AnalyzeSelect(q, outer, m.c) == Ok(s) && Agree(s.scope, w1, w2, m.w.used) && SelectLive(s, m)
    requires q2.Select? && q2.joins == PrepJoins(ElabSelect(q, s).joins, m.w)
    requires k <= |q.joins| == |q2.joins| && n <= |s.rels|
    ensures OnAliases(q.joins[k..], Slots(Part(s, n)), vals, w1, m.source) ==
            OnAliases(q2.joins[k..], PrepSlots(FinalPart(s, n), m.w), vals, w2, m.scratch)
    decreases q, 0, |q.joins| - k
  {
    hide AnalyzeSelect, Agree, SelectLive, AliasValues, PrepExpr, PrepRel, Slots, PrepSlots, Part, FinalPart, ElabSelect, FinalRel, World.Live, World.Valid;
    if k < |q.joins| {
      PresOnAliases(q, q2, k + 1, outer, s, n, vals, w1, w2, m);
      PresJoinAliases(q.joins[k], k, q, outer, s, n, vals, w1, w2, m);
      assert m.w.Covered() by { CoveredOf(m); }
      ElabJoin(q, s, k);
      assert q.joins[k..][0] == q.joins[k] && q.joins[k..][1..] == q.joins[k + 1..];
      assert q2.joins[k..][0] == q2.joins[k] && q2.joins[k..][1..] == q2.joins[k + 1..];
      assert q2.joins[k].on == PrepExpr(s.ons[k].elab, m.w);
    }
  }

  lemma {:induction false} PresFilterAliases(filter: Option<Expr>, q: Query, outer: Scope, s: SelectInfo, n: nat, vals: Row, w1: Env, w2: Env, m: World)
    requires m.Valid() && q.Select? && AnalyzeSelect(q, outer, m.c) == Ok(s) && Agree(s.scope, w1, w2, m.w.used) && SelectLive(s, m)
    requires filter == q.filter && n <= |s.rels|
    ensures FilterAliases(filter, Slots(Part(s, n)), vals, w1, m.source) ==
            FilterAliases(if filter.None? then None else Some(PrepExpr(s.filter[0].elab, m.w)), PrepSlots(FinalPart(s, n), m.w), vals, w2, m.scratch)
    decreases filter
  {
    hide AnalyzeSelect, Agree, AnalyzeExpr, AliasValues, PrepExpr, Slots, PrepSlots, Aligned, Part, FinalPart, Qualifiers, World.Live, World.Valid;
    if filter.Some? {
      assert m.Live(s.filter[0].nodes, s.filter[0].used) && m.w.Covered() by { CoveredOf(m); }
      SelectQualifiers(q, outer, s, m.c);
      SelectQuals(q, outer, s, m.c);
      SelectFilter(q, outer, s, m.c);
      PartAligned(s, n, m.w, s.filter[0].quals);
      PresAliases(filter.value, s.rels, s.scope, Slots(Part(s, n)), PrepSlots(FinalPart(s, n), m.w), vals, w1, w2, m);
    }
  }

  /** The aliases outside the projection agree over every prefix of the relations. */
  lemma {:induction false} PresPrefix(q: Query, q2: Query, outer: Scope, s: SelectInfo, n: nat, w1: Env, w2: Env, m: World)
    requires m.Valid() && q.Select? && AnalyzeSelect(q, outer, m.c) == Ok(s) && Agree(s.scope, w1, w2, m.w.used) && SelectLive(s, m)
    requires q2.Select? && q2.joins == PrepJoins(ElabSelect(q, s).joins, m.w) && q2.filter == PrepOptionExpr(ElabSelect(q, s).filter, m.w)
    requires n <= |s.rels|
    ensures PrefixAlike(q, q2, s, n, w1, w2, m)
    decreases q, 1
  {
    hide AnalyzeSelect, Agree, SelectLive, Slots, PrepSlots, PrepExpr, PrepJoins, ElabSelect, OnAliases, FilterAliases, Part, FinalPart, World.Valid;
    assert m.w.Covered() by { CoveredOf(m); }
    ElabLengths(q, s);
    var a, b := Slots(Part(s, n)), PrepSlots(FinalPart(s, n), m.w);
    forall vals
      ensures OnAliases(q.joins, a, vals, w1, m.source) == OnAliases(q2.joins, b, vals, w2, m.scratch)
      ensures FilterAliases(q.filter, a, vals, w1, m.source) == FilterAliases(q2.filter, b, vals, w2, m.scratch)
    {
      PresOnAliases(q, q2, 0, outer, s, n, vals, w1, w2, m);
      assert q.joins[0..] == q.joins && q2.joins[0..] == q2.joins;
      PresFilterAliases(q.filter, q, outer, s, n, vals, w1, w2, m);
    }
  }

  /** An accepted SELECT and its preparation are ready, whatever prepared projection is safe. */
  lemma {:induction false} SelectReady(q: Query, q2: Query, outer: Scope, s: SelectInfo, w1: Env, w2: Env, m: World)
    requires m.Valid() && q.Select? && q2.Select?
    requires AnalyzeSelect(q, outer, m.c) == Ok(s)
    requires Agree(s.scope, w1, w2, m.w.used)
    requires SelectLive(s, m)
    requires q2.from == PrepOptionRel(ElabSelect(q, s).from, m.w)
    requires q2.joins == PrepJoins(ElabSelect(q, s).joins, m.w)
    requires q2.filter == PrepOptionExpr(ElabSelect(q, s).filter, m.w)
    requires AliasesSafe(q2.items, PrepSlots(s.Finals(), m.w))
    ensures Ready(q, q2, outer, s, w1, w2, m)
    decreases q, 2
  {
    hide AnalyzeSelect, Agree, SelectLive, AliasesSafe, Slots, PrepSlots, PrepRel, PrepExpr, Qualifiers, ElabSelect, PrepJoins, PrepOptionExpr, PrepOptionRel, PrefixAlike;
    SelectQualifiers(q, outer, s, m.c);
    SelectQuals(q, outer, s, m.c);
    SourceItemsSafe(q, outer, s, m.c);
    forall n | 0 <= n <= |s.rels|
      ensures PrefixAlike(q, q2, s, n, w1, w2, m)
    {
      PresPrefix(q, q2, outer, s, n, w1, w2, m);
    }
  }

  /** What a live SELECT uses is live part by part. */
  lemma SelectLiveParts(q: Query, outer: Scope, s: SelectInfo, m: World)
    requires q.Select? && AnalyzeSelect(q, outer, m.c) == Ok(s)
    requires var i := AnalyzeQuery(q, outer, m.c).value; m.Live(i.nodes, i.used)
    ensures SelectLive(s, m)
  {
    hide AnalyzeSelect, AllNodes, AllUsed, RelNodes, RelUsed;
    var i := AnalyzeQuery(q, outer, m.c).value;
    assert forall n :: n in AllNodes(s.ons) || n in RelNodes(s.Finals()) || n in AllNodes(s.items) || n in AllNodes(s.filter) ==> n in i.nodes;
    AllLive(s.ons, m);
    AllLive(s.items, m);
    AllLive(s.filter, m);
    RelsLive(s.Finals(), m);
  }

  /** The prepared projection passes the shadowing check in the prepared scope. */
  lemma PrepItemsSafe(q: Query, outer: Scope, s: SelectInfo, m: World)
    requires q.Select? && AnalyzeSelect(q, outer, m.c) == Ok(s) && m.w.Covered()
    ensures AliasesSafe(PrepExprs(Elabs(s.items), m.w), PrepSlots(s.Finals(), m.w))
    ensures forall i :: i in s.items ==> Aligned(Slots(s.rels), PrepSlots(s.Finals(), m.w), i.quals)
  {
    hide AnalyzeSelect, AnalyzeExpr, AliasSafe, Slots, PrepSlots, Aligned, Qualifiers, PrepExpr, AnalyzeExprs;
    SelectParts(q, outer, m.c);
    SelectQualifiers(q, outer, s, m.c);
    SelectQuals(q, outer, s, m.c);
    assert Part(s, |s.rels|) == s.rels && FinalPart(s, |s.rels|) == s.Finals();
    forall k | 0 <= k < |s.items|
      ensures AliasSafe(PrepExpr(s.items[k].elab, m.w), PrepSlots(s.Finals(), m.w))
      ensures Aligned(Slots(s.rels), PrepSlots(s.Finals(), m.w), s.items[k].quals)
    {
      ItemsAnalyzed(q.items, s.rels, s.scope, m.c, k);
      QualsOfInfo(s.items, k);
      PartAligned(s, |s.rels|, m.w, s.items[k].quals);
      SourceAliasSafe(q.items[k], s.rels, s.scope, m.c);
      PrepAliasSafe(q.items[k], s.rels, s.scope, m.c, m.w, Slots(s.rels), PrepSlots(s.Finals(), m.w));
    }
  }

  /** The prepared SELECT, part by part. */
  lemma PreparedSelect(q: Query, s: SelectInfo, w: Rewrite)
    requires q.Select? && w.Covered()
    requires |s.items| == |q.items| && |s.ons| == |q.joins|
    requires |s.first| == if q.from.None? then 0 else 1
    requires |s.rels| == |s.first| + |q.joins|
    requires |s.filter| == if q.filter.None? then 0 else 1
    ensures PrepQuery(ElabSelect(q, s), w) ==
            Select(PrepCtes(s.ctes, w), PrepExprs(Elabs(s.items), w), PrepOptionRel(ElabSelect(q, s).from, w),
                   PrepJoins(ElabSelect(q, s).joins, w), PrepOptionExpr(ElabSelect(q, s).filter, w))
  {
    hide PrepCtes, PrepOptionRel, PrepJoins, PrepOptionExpr, ElabJoins, PrepExprs;
  }

  /** The whole SELECT, its WITH included. */
  lemma {:induction false} PresSelect(q: Query, outer: Scope, s: SelectInfo, e1: Env, e2: Env, m: World)
    requires m.Valid() && Agree(outer, e1, e2, m.w.used)
    requires q.Select? && AnalyzeSelect(q, outer, m.c) == Ok(s)
    requires SelectLive(s, m)
    ensures var r := EvalQuery(q, e1, m.source);
            && r == EvalQuery(PrepQuery(ElabSelect(q, s), m.w), e2, m.scratch)
            && (r.Done? ==> r.value.cols == ColNames(InfoCols(s.items)))
    decreases q, 3
  {
    hide AnalyzeSelect, Agree, SelectLive, AliasesSafe, Aligned, Slots, PrepSlots, Ready, EvalSource, ProjectRows, AnalyzeExprs, EvalWith, AnalyzeWith,
         PrepQuery, ElabSelect, PrepCtes, PrepExprs, PrepOptionRel, PrepJoins, PrepOptionExpr, World.Copied, World.Closed;
    PreparedSelect(q, s, m.w);
    var q2 := PrepQuery(ElabSelect(q, s), m.w);
    var w1 := EvalWith(q.ctes, e1, m.source);
    var w2 := EvalWith(q2.ctes, e2, m.scratch);
    assert Ready(q, q2, outer, s, w1, w2, m) by {
      SelectParts(q, outer, m.c);
      PresWith(q.ctes, outer, {}, e1, e2, m);
      PrepItemsSafe(q, outer, s, m);
      SelectReady(q, q2, outer, s, w1, w2, m);
    }
    PresSource(q, q2, outer, s, w1, w2, m);
    var src := EvalSource(q, w1, m.source);
    if src.Done? {
      PresRows(q, q2, outer, s, src.value.rows, w1, w2, m);
    }
    assert Names(q2.items) == Names(q.items) == ColNames(InfoCols(s.items)) by {
      SelectParts(q, outer, m.c);
      NamesStable(q.items, s.rels, s.scope, m.c, m.w);
    }
  }

  lemma {:induction false} PresRows(q: Query, q2: Query, outer: Scope, s: SelectInfo, rows: seq<Row>, w1: Env, w2: Env, m: World)
    requires Ready(q, q2, outer, s, w1, w2, m) && q2.Select? && q2.items == PrepExprs(Elabs(s.items), m.w)
    ensures ProjectRows(q.items, Slots(s.rels), Annotate(q, Slots(s.rels), rows, w1, m.source), w1, m.source) ==
            ProjectRows(q2.items, PrepSlots(s.Finals(), m.w), Annotate(q2, PrepSlots(s.Finals(), m.w), rows, w2, m.scratch), w2, m.scratch)
    decreases q, 2
  {
    hide AnalyzeSelect, Agree, SelectLive, AliasesSafe, PrefixAlike, Aligned, Slots, PrepSlots, Ready, ProjectRows, AnalyzeExprs;
    ReadyBasics(q, q2, outer, s, w1, w2, m);
    SelectParts(q, outer, m.c);
    PrepItemsSafe(q, outer, s, m);
    ReadyLive(q, q2, outer, s, w1, w2, m);
    assert RestAlike(q, q2, Slots(s.rels), PrepSlots(s.Finals(), m.w), w1, w2, m) by { WholeAlike(q, q2, s, w1, w2, m); }
    assert Aligned(Slots(s.rels), PrepSlots(s.Finals(), m.w), {}) by {
      AlignedSubset(Slots(s.rels), PrepSlots(s.Finals(), m.w), s.items[0].quals, {});
    }
    PresProject(q.items, s.rels, s.scope, Slots(s.rels), PrepSlots(s.Finals(), m.w), rows, q, q2, w1, w2, m);
  }

  /** On a row of the whole source an unqualified column denotes the same on both sides. */
  lemma ReadyAlike(q: Query, q2: Query, outer: Scope, s: SelectInfo, vals: Row, w1: Env, w2: Env, m: World)
    requires Ready(q, q2, outer, s, w1, w2, m) && q.Select? && q2.Select?
    ensures var a, b := Slots(s.rels), PrepSlots(s.Finals(), m.w);
      BareAlike(a, a, SelectAliases(q, a, vals, w1, m.source), b, SelectAliases(q2, b, vals, w2, m.scratch), vals)
  {
    hide Ready, Agree, AliasesSafe, PrefixAlike, RestAlike, BareAlike, Aligned, AnalyzeSelect, Slots, PrepSlots, SelectAliases, AnalyzeExprs, Qualifiers;
    ReadyBasics(q, q2, outer, s, w1, w2, m);
    ReadyQuals(q, q2, outer, s, w1, w2, m);
    WholeAlike(q, q2, s, w1, w2, m);
    assert Part(s, |s.rels|) == s.rels && FinalPart(s, |s.rels|) == s.Finals();
    PartAligned(s, |s.rels|, m.w, {});
    SelectAlike(q, q2, Slots(s.rels), PrepSlots(s.Finals(), m.w), Slots(s.rels), PrepSlots(s.Finals(), m.w), {}, vals, w1, w2, m);
  }

  lemma ReadyLive(q: Query, q2: Query, outer: Scope, s: SelectInfo, w1: Env, w2: Env, m: World)
    requires Ready(q, q2, outer, s, w1, w2, m)
    ensures forall i :: i in s.items ==> m.Live(i.nodes, i.used)
  {
    hide Agree, AliasesSafe, PrefixAlike, Aligned, AnalyzeSelect, SelectLive;
    ItemsLive(s, m);
  }

  lemma ItemsLive(s: SelectInfo, m: World)
    requires SelectLive(s, m)
    ensures forall i :: i in s.items ==> m.Live(i.nodes, i.used)
  {
    hide RelNodes, RelUsed, FinalRel;
    forall i | i in s.items
      ensures m.Live(i.nodes, i.used)
    {
      var k :| 0 <= k < |s.items| && s.items[k] == i;
      assert m.Live(s.items[k].nodes, s.items[k].used);
    }
  }

  lemma {:induction false} UnionNames(l: seq<Col>, r: seq<Col>)
    requires |l| == |r| && UnionCols(l, r).Ok?
    ensures ColNames(UnionCols(l, r).value) == ColNames(l)
  {
  }

  lemma {:induction false} PresQuery(q: Query, outer: Scope, e1: Env, e2: Env, m: World)
    requires m.Valid() && Agree(outer, e1, e2, m.w.used)
    requires AnalyzeQuery(q, outer, m.c).Ok?
    requires var i := AnalyzeQuery(q, outer, m.c).value; m.Live(i.nodes, i.used)
    ensures var i := AnalyzeQuery(q, outer, m.c).value;
            && EvalQuery(q, e1, m.source) == EvalQuery(PrepQuery(i.elab, m.w), e2, m.scratch)
            && (EvalQuery(q, e1, m.source).Done? ==> EvalQuery(q, e1, m.source).value.cols == ColNames(i.cols))
    decreases q, 4
  {
    hide Agree, Aligned, AnalyzeSelect, AnalyzeWith, EvalSelect, EvalWith, ElabSelect, PrepCtes, World.Copied, World.Closed, UnionCols;
    match q
    case Select(_, _, _, _, _) =>
      var s := AnalyzeSelect(q, outer, m.c).value;
      SelectLiveParts(q, outer, s, m);
      PresSelect(q, outer, s, e1, e2, m);
    case Union(ctes, left, right) => PresUnion(ctes, left, right, outer, e1, e2, m);
    case SelectAll(_, _) =>
    case UnsupportedQuery =>
  }

  lemma {:induction false} PresUnion(ctes: seq<Cte>, left: Query, right: Query, outer: Scope, e1: Env, e2: Env, m: World)
    requires m.Valid() && Agree(outer, e1, e2, m.w.used)
    requires AnalyzeQuery(Union(ctes, left, right), outer, m.c).Ok?
    requires var i := AnalyzeQuery(Union(ctes, left, right), outer, m.c).value; m.Live(i.nodes, i.used)
    ensures var i := AnalyzeQuery(Union(ctes, left, right), outer, m.c).value;
            var t := EvalQuery(Union(ctes, left, right), e1, m.source);
            && t == EvalQuery(PrepQuery(i.elab, m.w), e2, m.scratch)
            && (t.Done? ==> t.value.cols == ColNames(i.cols))
    decreases Union(ctes, left, right), 3
  {
    assert m.w.Covered();
    hide Agree, Aligned, AnalyzeQuery, AnalyzeWith, EvalQuery, EvalWith, PrepQuery, PrepCtes, World.Valid, World.Copied, World.Closed, UnionCols;
    UnionParts(ctes, left, right, outer, m);
    var w := AnalyzeWith(ctes, outer, {}, m.c).value;
    var l := AnalyzeQuery(left, w.scope, m.c).value;
    var r := AnalyzeQuery(right, w.scope, m.c).value;
    PresWith(ctes, outer, {}, e1, e2, m);
    var w1 := EvalWith(ctes, e1, m.source);
    var w2 := EvalWith(PrepCtes(w.elab, m.w), e2, m.scratch);
    PresQuery(left, w.scope, w1, w2, m);
    PresQuery(right, w.scope, w1, w2, m);
    UnionNames(l.cols, r.cols);
    UnionRows(ctes, left, right, e1, m.source);
    UnionRows(PrepCtes(w.elab, m.w), PrepQuery(l.elab, m.w), PrepQuery(r.elab, m.w), e2, m.scratch);
  }

  /** What the analysis of a UNION ALL takes from its branches. */
  lemma UnionParts(ctes: seq<Cte>, left: Query, right: Query, outer: Scope, m: World)
    requires m.w.Covered()
    requires AnalyzeQuery(Union(ctes, left, right), outer, m.c).Ok?
    requires var i := AnalyzeQuery(Union(ctes, left, right), outer, m.c).value; m.Live(i.nodes, i.used)
    ensures AnalyzeWith(ctes, outer, {}, m.c).Ok?
    ensures var w := AnalyzeWith(ctes, outer, {}, m.c).value;
            && AnalyzeQuery(left, w.scope, m.c).Ok? && AnalyzeQuery(right, w.scope, m.c).Ok?
            && var i := AnalyzeQuery(Union(ctes, left, right), outer, m.c).value;
            var l, r := AnalyzeQuery(left, w.scope, m.c).value, AnalyzeQuery(right, w.scope, m.c).value;
            && m.Live(l.nodes, l.used) && m.Live(r.nodes, r.used) && |l.cols| == |r.cols|
            && UnionCols(l.cols, r.cols) == Ok(i.cols)
            && PrepQuery(i.elab, m.w) == Union(PrepCtes(w.elab, m.w), PrepQuery(l.elab, m.w), PrepQuery(r.elab, m.w))
  {
    hide AnalyzeSelect, AnalyzeWith, ElabSelect, PrepCtes, World.Valid, UnionCols;
    var w := AnalyzeWith(ctes, outer, {}, m.c).value;
    var l := AnalyzeQuery(left, w.scope, m.c).value;
    var r := AnalyzeQuery(right, w.scope, m.c).value;
    var i := AnalyzeQuery(Union(ctes, left, right), outer, m.c).value;
    assert i.nodes == l.nodes + r.nodes && i.used == l.used + r.used && i.elab == Union(w.elab, l.elab, r.elab);
    assert forall n :: n in l.nodes || n in r.nodes ==> n in i.nodes;
  }

  /** The rows of a UNION ALL are those of its branches under its WITH. */
  lemma UnionRows(ctes: seq<Cte>, left: Query, right: Query, env: Env, db: Db)
    ensures var inner := EvalWith(ctes, env, db);
      var a, b := EvalQuery(left, inner, db), EvalQuery(right, inner, db);
      EvalQuery(Union(ctes, left, right), env, db) ==
        if a.Done? && b.Done? && |a.value.cols| == |b.value.cols| then Done(TableValue(a.value.cols, a.value.rows + b.value.rows)) else Fail
  {
    hide EvalSelect, EvalWith;
  }
}
