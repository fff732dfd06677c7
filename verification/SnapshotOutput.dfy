/**
 The final projection: Prepare's permutation and casts, applied inside the query, act on every
 result row as the permutation and the casts themselves.
 */
module SnapshotOutput {
  import opened Common
  import opened SnapshotIntegers
  import opened SnapshotAst
  import opened SnapshotEval
  import opened SnapshotAnalyze
  import opened SnapshotPrepare
  import opened SnapshotScope
  import opened SnapshotMeaning

  /** What becomes of the value that feeds one target column. */
  function OutputValue(v: Value, o: Output, single: bool): Res<Value>
  {
    if single && ((o.col.literal.Some? && !o.col.nullable) || o.col.scalar) then AccurateCast(v, o.target) else Done(v)
  }

  function OutputRow(row: Row, outs: seq<Output>, single: bool): Res<Row>
  {
    if outs == [] then Done([])
    else if outs[0].position >= |row| then Fail
    else
      var v :- OutputValue(row[outs[0].position], outs[0], single);
      var rest :- OutputRow(row, outs[1..], single);
      Done([v] + rest)
  }

  /** The rows of a query in target order, cast where Prepare casts; one failing cast fails them all. */
  function OutputRows(rows: seq<Row>, outs: seq<Output>, single: bool): Res<seq<Row>>
  {
    if rows == [] then Done([])
    else
      var r :- OutputRow(rows[0], outs, single);
      var rest :- OutputRows(rows[1..], outs, single);
      Done([r] + rest)
  }

  function OutputOf(t: Res<TableValue>, outs: seq<Output>, single: bool): Res<seq<Row>>
  {
    var v :- t;
    OutputRows(v.rows, outs, single)
  }

  function RowsOf(t: Res<TableValue>): Res<seq<Row>>
  {
    var v :- t;
    Done(v.rows)
  }

  /** An expression the analyzer calls a literal evaluates to that literal, on any row. */
  lemma {:induction false} LiteralKnown(e: Expr, rels: seq<RelInfo>, scope: Scope, c: Context, cols: seq<QName>, row: RowEnv, env: Env, db: Db)
    requires AnalyzeExpr(e, rels, scope, c).Ok?
    requires var col := AnalyzeExpr(e, rels, scope, c).value.col; col.literal.Some? && !col.nullable
    ensures var col := AnalyzeExpr(e, rels, scope, c).value.col;
            EvalExpr(e, cols, row, env, db) == Done(Val(col.typ, Payload.Integer(col.literal.value)))
  {
    hide AnalyzeQuery, Slots, EvalQuery, AnalyzeColumn, AliasAllowed, Lookup, Apply, Member, Negate, NumberNode, InRange, AccurateCast, CheckIdent, DollarBody, ScalarValue;
    match e
    case Number(text) => SmallestIsNarrowest(ParseDigits(text), UInt64);
    case Neg(x) => SmallestIsNarrowest(-ParseDigits(StripParens(x).text), Int64);
    case Paren(x) => LiteralKnown(x, rels, scope, c, cols, row, env, db);
    case Aliased(x, _) => LiteralKnown(x, rels, scope, c, cols, row, env, db);
    case Binary(op, l, r) => BinaryShape(op, l, r, rels, scope, c);
    case Not(x) => NotShape(x, rels, scope, c);
    case In(x, q) => InShape(x, q, rels, scope, c);
    case Column(table, column) => ColumnNotLiteral(table, column, rels);
    case _ =>
  }

  lemma ColumnNotLiteral(table: Option<Ident>, column: Ident, rels: seq<RelInfo>)
    requires AnalyzeColumn(table, column, rels).Ok?
    ensures AnalyzeColumn(table, column, rels).value.col.literal.None?
  {
  }

  lemma CastValue(x: Expr, t: Type, cols: seq<QName>, row: RowEnv, env: Env, db: Db)
    ensures var v := EvalExpr(x, cols, row, env, db);
            EvalExpr(Cast(x, t), cols, row, env, db) == if v.Done? then AccurateCast(v.value, t) else Fail
    ensures x.Str? ==> EvalExpr(x, cols, row, env, db) == Done(Val(Named("String"), Text(x.text)))
  {
    hide AccurateCast;
  }

  lemma AliasedValue(x: Expr, a: Ident, cols: seq<QName>, row: RowEnv, env: Env, db: Db)
    ensures EvalExpr(Aliased(x, a), cols, row, env, db) == EvalExpr(x, cols, row, env, db)
  {
  }

  lemma {:induction false} WrapLiteral(e: Expr, n: int, t: Type, cols: seq<QName>, row: RowEnv, env: Env, db: Db)
    ensures EvalExpr(WrapOutput(e, Some(Str(DecimalString(n))), t), cols, row, env, db) ==
            if InRange(n, t) then Done(Val(t, Payload.Integer(n))) else Fail
  {
    hide EvalExpr, DecimalString, ParseDecimal, InRange;
    match e
    case Aliased(x, a) =>
      WrapLiteral(x, n, t, cols, row, env, db);
      AliasedValue(WrapOutput(x, Some(Str(DecimalString(n))), t), a, cols, row, env, db);
    case _ =>
      DecimalRoundTrip(n);
      CastValue(Str(DecimalString(n)), t, cols, row, env, db);
  }

  lemma {:induction false} WrapScalar(e: Expr, t: Type, cols: seq<QName>, row: RowEnv, env: Env, db: Db)
    ensures var v := EvalExpr(e, cols, row, env, db);
            EvalExpr(WrapOutput(e, None, t), cols, row, env, db) == if v.Done? then AccurateCast(v.value, t) else Fail
  {
    hide EvalExpr, AccurateCast;
    match e
    case Aliased(x, a) =>
      WrapScalar(x, t, cols, row, env, db);
      AliasedValue(x, a, cols, row, env, db);
      AliasedValue(WrapOutput(x, None, t), a, cols, row, env, db);
    case _ => CastValue(e, t, cols, row, env, db);
  }

  /** The expression under any aliases. */
  function Bare(e: Expr): Expr
  {
    match e
    case Aliased(x, _) => Bare(x)
    case _ => e
  }

  lemma {:induction false} BareColumn(e: Expr, rels: seq<RelInfo>, scope: Scope, c: Context, w: Rewrite)
    requires AnalyzeExpr(e, rels, scope, c).Ok? && w.Covered()
    requires Bare(PrepExpr(AnalyzeExpr(e, rels, scope, c).value.elab, w)).Column?
    ensures var col := AnalyzeExpr(e, rels, scope, c).value.col; col.literal.None? && !col.scalar
  {
    hide AnalyzeQuery, Slots, PrepQuery;
    match e
    case Paren(x) =>
      ParenShape(x, rels, scope, c);
      if AnalyzeExpr(e, rels, scope, c).value.elab == AnalyzeExpr(x, rels, scope, c).value.elab {
        BareColumn(x, rels, scope, c, w);
      }
    case Aliased(x, _) => BareColumn(x, rels, scope, c, w);
    case Binary(op, l, r) => BinaryShape(op, l, r, rels, scope, c);
    case In(x, q) => InShape(x, q, rels, scope, c);
    case _ =>
  }

  /** A cast put under an alias leaves the alias safe: only columns may be shadowed. */
  lemma {:induction false} WrapSafe(e: Expr, value: Option<Expr>, t: Type, slots: seq<QName>)
    requires AliasSafe(e, slots) && !Bare(e).Column?
    requires value.None? || value.value.Str?
    ensures AliasSafe(WrapOutput(e, value, t), slots)
  {
    match e
    case Aliased(x, a) => WrapSafe(x, value, t, slots);
    case _ =>
  }

  /** One output: its value is the source value put through OutputValue, and its aliases stay safe. */
  lemma OutputItemValue(e: Expr, o: Output, single: bool, rels: seq<RelInfo>, scope: Scope, c: Context, w: Rewrite,
                        a: seq<QName>, b: seq<QName>, row1: RowEnv, row2: RowEnv, e1: Env, e2: Env, d1: Db, d2: Db)
    requires AnalyzeExpr(e, rels, scope, c).Ok? && w.Covered() && (single ==> o.col == AnalyzeExpr(e, rels, scope, c).value.col)
    requires EvalExpr(e, a, row1, e1, d1) == EvalExpr(PrepExpr(AnalyzeExpr(e, rels, scope, c).value.elab, w), b, row2, e2, d2)
    ensures var v := EvalExpr(e, a, row1, e1, d1);
            EvalExpr(OutputItem(PrepExpr(AnalyzeExpr(e, rels, scope, c).value.elab, w), o, single), b, row2, e2, d2) ==
            if v.Done? then OutputValue(v.value, o, single) else Fail
  {
    hide AnalyzeExpr, PrepExpr, EvalExpr;
    var p := PrepExpr(AnalyzeExpr(e, rels, scope, c).value.elab, w);
    if single && o.col.literal.Some? && !o.col.nullable {
      LiteralKnown(e, rels, scope, c, a, row1, e1, d1);
      WrapLiteral(p, o.col.literal.value, o.target, b, row2, e2, d2);
    } else if single && o.col.scalar {
      WrapScalar(p, o.target, b, row2, e2, d2);
    }
  }

  lemma OutputItemSafe(e: Expr, o: Output, single: bool, rels: seq<RelInfo>, scope: Scope, c: Context, w: Rewrite, slots: seq<QName>)
    requires AnalyzeExpr(e, rels, scope, c).Ok? && w.Covered() && (single ==> o.col == AnalyzeExpr(e, rels, scope, c).value.col)
    requires AliasSafe(PrepExpr(AnalyzeExpr(e, rels, scope, c).value.elab, w), slots)
    ensures AliasSafe(OutputItem(PrepExpr(AnalyzeExpr(e, rels, scope, c).value.elab, w), o, single), slots)
  {
    hide AnalyzeExpr, PrepExpr, AliasSafe;
    var p := PrepExpr(AnalyzeExpr(e, rels, scope, c).value.elab, w);
    if Bare(p).Column? {
      BareColumn(e, rels, scope, c, w);
    } else if single && o.col.literal.Some? && !o.col.nullable {
      WrapSafe(p, Some(Str(DecimalString(o.col.literal.value))), o.target, slots);
    } else if single && o.col.scalar {
      WrapSafe(p, None, o.target, slots);
    }
  }

  /** The outputs use every position once: none is lost, so no failure is. */
  predicate Covering(outs: seq<Output>, n: nat)
  {
    && (forall k :: 0 <= k < |outs| ==> outs[k].position < n)
    && (forall p :: 0 <= p < n ==> Feeds(outs, p))
  }

  predicate Feeds(outs: seq<Output>, p: nat)
  {
    exists k :: 0 <= k < |outs| && outs[k].position == p
  }

  /** The value of each item on one row. */
  function ItemValues(items: seq<Expr>, cols: seq<QName>, row: RowEnv, env: Env, db: Db): (r: seq<Res<Value>>)
    ensures |r| == |items|
    ensures forall k :: 0 <= k < |r| ==> r[k] == EvalExpr(items[k], cols, row, env, db)
  {
    if items == [] then [] else [EvalExpr(items[0], cols, row, env, db)] + ItemValues(items[1..], cols, row, env, db)
  }

  lemma {:induction false} ItemsRow(items: seq<Expr>, cols: seq<QName>, row: RowEnv, env: Env, db: Db)
    ensures var vs := ItemValues(items, cols, row, env, db);
            var r := EvalItems(items, cols, row, env, db);
            && (r.Done? <==> forall k :: 0 <= k < |vs| ==> vs[k].Done?)
            && (r.Done? ==> |r.value| == |items| && forall k :: 0 <= k < |vs| ==> vs[k].value == r.value[k])
  {
    hide EvalExpr;
    if items != [] {
      ItemsRow(items[1..], cols, row, env, db);
      var vs := ItemValues(items, cols, row, env, db);
      var rest := ItemValues(items[1..], cols, row, env, db);
      assert vs == [vs[0]] + rest;
      assert forall k :: 0 < k < |vs| ==> vs[k] == rest[k - 1];
      assert forall k :: 0 <= k < |rest| ==> rest[k] == vs[k + 1];
      var r, q := EvalItems(items, cols, row, env, db), EvalItems(items[1..], cols, row, env, db);
      assert r.Done? <==> vs[0].Done? && q.Done?;
      if r.Done? {
        assert r.value == [vs[0].value] + q.value;
      }
    }
  }

  lemma {:induction false} OutputRowAt(row: Row, outs: seq<Output>, single: bool)
    requires forall k :: 0 <= k < |outs| ==> outs[k].position < |row|
    ensures var r := OutputRow(row, outs, single);
            && (r.Done? <==> forall k :: 0 <= k < |outs| ==> OutputValue(row[outs[k].position], outs[k], single).Done?)
            && (r.Done? ==> |r.value| == |outs| && forall k :: 0 <= k < |outs| ==>
                  r.value[k] == OutputValue(row[outs[k].position], outs[k], single).value)
  {
    hide OutputValue;
    if outs != [] {
      OutputRowAt(row, outs[1..], single);
      assert forall k :: 0 < k < |outs| ==> outs[k] == outs[1..][k - 1];
      assert forall k :: 0 <= k < |outs[1..]| ==> outs[1..][k] == outs[k + 1];
    }
  }

  /** One row: evaluating the rewritten projection is rewriting the evaluated row. */
  lemma OutputProject(items: seq<Expr>, prepared: seq<Expr>, outs: seq<Output>, single: bool, a: seq<QName>, b: seq<QName>,
                      row1: RowEnv, row2: RowEnv, e1: Env, e2: Env, d1: Db, d2: Db)
    requires |prepared| == |outs| && Covering(outs, |items|)
    requires forall k :: 0 <= k < |outs| ==>
      var v := EvalExpr(items[outs[k].position], a, row1, e1, d1);
      EvalExpr(prepared[k], b, row2, e2, d2) == if v.Done? then OutputValue(v.value, outs[k], single) else Fail
    ensures var r := EvalItems(items, a, row1, e1, d1);
            EvalItems(prepared, b, row2, e2, d2) == if r.Done? then OutputRow(r.value, outs, single) else Fail
  {
    hide EvalExpr, OutputValue, EvalItems, OutputRow;
    ItemsRow(items, a, row1, e1, d1);
    ItemsRow(prepared, b, row2, e2, d2);
    var vs := ItemValues(items, a, row1, e1, d1);
    var ps := ItemValues(prepared, b, row2, e2, d2);
    var r := EvalItems(items, a, row1, e1, d1);
    assert forall k :: 0 <= k < |outs| ==>
      ps[k] == if vs[outs[k].position].Done? then OutputValue(vs[outs[k].position].value, outs[k], single) else Fail;
    if r.Done? {
      OutputRowAt(r.value, outs, single);
      var x, y := EvalItems(prepared, b, row2, e2, d2), OutputRow(r.value, outs, single);
      assert forall k :: 0 <= k < |outs| ==> ps[k] == OutputValue(r.value[outs[k].position], outs[k], single);
      if x.Done? {
        assert x.value == y.value;
      }
    } else {
      var p :| 0 <= p < |vs| && !vs[p].Done?;
      assert Feeds(outs, p);
      var k :| 0 <= k < |outs| && outs[k].position == p;
      assert ps[k] == Fail;
    }
  }

  /** An output list reads the query's columns; only a single SELECT is cast by what they are. */
  predicate OutputsOf(outs: seq<Output>, cols: seq<Col>, single: bool)
  {
    forall k :: 0 <= k < |outs| ==> outs[k].position < |cols| && (single ==> outs[k].col == cols[outs[k].position])
  }

  lemma {:induction false} OutputProjectRows(q: Query, q2: Query, outer: Scope, s: SelectInfo, rows: seq<Row>, outs: seq<Output>, single: bool,
                                             w1: Env, w2: Env, m: World)
    requires Ready(q, q2, outer, s, w1, w2, m) && q.Select? && q2.Select?
    requires Covering(outs, |s.items|) && OutputsOf(outs, InfoCols(s.items), single) && |q.items| == |s.items|
    requires q2.items == OutputItems(PrepExprs(Elabs(s.items), m.w), outs, single)
    ensures var r := ProjectRows(q.items, Slots(s.rels), Annotate(q, Slots(s.rels), rows, w1, m.source), w1, m.source);
            ProjectRows(q2.items, PrepSlots(s.Finals(), m.w),
                        Annotate(q2, PrepSlots(s.Finals(), m.w), rows, w2, m.scratch), w2, m.scratch) ==
            if r.Done? then OutputRows(r.value, outs, single) else Fail
    decreases |rows|
  {
    hide Ready, Slots, PrepSlots, EvalItems, OutputRow, SelectAliases, OutputItems, Covering, OutputsOf, OutputItem;
    if rows != [] {
      OutputProjectRows(q, q2, outer, s, rows[1..], outs, single, w1, w2, m);
      OutputOneRow(q, q2, outer, s, rows[0], outs, single, w1, w2, m);
    }
  }

  lemma OutputOneRow(q: Query, q2: Query, outer: Scope, s: SelectInfo, vals: Row, outs: seq<Output>, single: bool, w1: Env, w2: Env, m: World)
    requires Ready(q, q2, outer, s, w1, w2, m) && q.Select? && q2.Select?
    requires Covering(outs, |s.items|) && OutputsOf(outs, InfoCols(s.items), single) && |q.items| == |s.items|
    requires q2.items == OutputItems(PrepExprs(Elabs(s.items), m.w), outs, single)
    ensures var a, b := Slots(s.rels), PrepSlots(s.Finals(), m.w);
            var r := EvalItems(q.items, a, RowEnv(vals, SelectAliases(q, a, vals, w1, m.source)), w1, m.source);
            EvalItems(q2.items, b, RowEnv(vals, SelectAliases(q2, b, vals, w2, m.scratch)), w2, m.scratch) ==
            if r.Done? then OutputRow(r.value, outs, single) else Fail
  {
    hide Ready, Slots, PrepSlots, EvalItems, OutputRow, SelectAliases, EvalExpr, PrepExpr, AnalyzeExpr, OutputValue, Aligned, BareAlike, AnalyzeSelect, Agree, AliasesSafe, PrefixAlike, OutputItem, AnalyzeExprs;
    ReadyBasics(q, q2, outer, s, w1, w2, m);
    var a, b := Slots(s.rels), PrepSlots(s.Finals(), m.w);
    var row1 := RowEnv(vals, SelectAliases(q, a, vals, w1, m.source));
    var row2 := RowEnv(vals, SelectAliases(q2, b, vals, w2, m.scratch));
    SelectParts(q, outer, m.c);
    ReadyLive(q, q2, outer, s, w1, w2, m);
    PrepItemsSafe(q, outer, s, m);
    ReadyAlike(q, q2, outer, s, vals, w1, w2, m);
    forall k | 0 <= k < |outs|
      ensures var v := EvalExpr(q.items[outs[k].position], a, row1, w1, m.source);
              EvalExpr(q2.items[k], b, row2, w2, m.scratch) == if v.Done? then OutputValue(v.value, outs[k], single) else Fail
    {
      var p := outs[k].position;
      ItemsAnalyzed(q.items, s.rels, s.scope, m.c, p);
      assert s.items[p] in s.items;
      PresExpr(q.items[p], s.rels, s.scope, a, b, vals, row1.alias, row2.alias, w1, w2, m);
      OutputItemValue(q.items[p], outs[k], single, s.rels, s.scope, m.c, m.w, a, b, row1, row2, w1, w2, m.source, m.scratch);
    }
    OutputProject(q.items, q2.items, outs, single, a, b, row1, row2, w1, w2, m.source, m.scratch);
  }

  lemma OutputItemsSafe(q: Query, outer: Scope, s: SelectInfo, outs: seq<Output>, single: bool, m: World)
    requires q.Select? && AnalyzeSelect(q, outer, m.c) == Ok(s) && m.w.Covered()
    requires OutputsOf(outs, InfoCols(s.items), single) && |q.items| == |s.items|
    ensures AliasesSafe(OutputItems(PrepExprs(Elabs(s.items), m.w), outs, single), PrepSlots(s.Finals(), m.w))
  {
    hide Slots, PrepSlots, PrepExpr, AnalyzeExpr, Aligned, AnalyzeSelect, OutputItem, AliasSafe, AnalyzeExprs;
    SelectParts(q, outer, m.c);
    PrepItemsSafe(q, outer, s, m);
    var items := PrepExprs(Elabs(s.items), m.w);
    forall k | 0 <= k < |outs|
      ensures AliasSafe(OutputItem(items[outs[k].position], outs[k], single), PrepSlots(s.Finals(), m.w))
    {
      var p := outs[k].position;
      ItemsAnalyzed(q.items, s.rels, s.scope, m.c, p);
      OutputItemSafe(q.items[p], outs[k], single, s.rels, s.scope, m.c, m.w, PrepSlots(s.Finals(), m.w));
    }
  }

  lemma {:induction false} OutputRowsConcat(a: seq<Row>, b: seq<Row>, outs: seq<Output>, single: bool)
    ensures OutputRows(a + b, outs, single) ==
            if OutputRows(a, outs, single).Done? && OutputRows(b, outs, single).Done?
            then Done(OutputRows(a, outs, single).value + OutputRows(b, outs, single).value) else Fail
  {
    hide OutputRow;
    if a == [] {
      assert a + b == b;
      var y := OutputRows(b, outs, single);
      if y.Done? {
        assert [] + y.value == y.value;
      }
    } else {
      assert (a + b)[0] == a[0] && (a + b)[1..] == a[1..] + b;
      OutputRowsConcat(a[1..], b, outs, single);
      var r, x, y := OutputRow(a[0], outs, single), OutputRows(a[1..], outs, single), OutputRows(b, outs, single);
      if r.Done? && x.Done? && y.Done? {
        assert [r.value] + (x.value + y.value) == [r.value] + x.value + y.value;
      }
    }
  }

  lemma {:induction false} NamesLength(es: seq<Expr>)
    ensures |Names(es)| == |es|
  {
    NamesAt(es);
  }

  lemma CoveringFits(outs: seq<Output>, n: nat)
    requires Covering(outs, n)
    ensures forall k :: 0 <= k < |outs| ==> outs[k].position < n
  {
  }

  lemma {:induction false} SelectFits(q: Query, s: SelectInfo, outs: seq<Output>, w: Rewrite)
    requires q.Select? && w.Covered()
    requires |s.items| == |q.items| && |s.ons| == |q.joins|
    requires |s.first| == if q.from.None? then 0 else 1
    requires |s.rels| == |s.first| + |q.joins|
    requires |s.filter| == if q.filter.None? then 0 else 1
    requires forall k :: 0 <= k < |outs| ==> outs[k].position < |s.items|
    ensures LeavesFit(PrepQuery(ElabSelect(q, s), w), outs)
  {
    hide PrepCtes, PrepOptionRel, PrepJoins, PrepOptionExpr, ElabJoins, ElabSelect;
    PreparedSelect(q, s, w);
    forall o | o in outs
      ensures o.position < |s.items|
    {
      var k :| 0 <= k < |outs| && outs[k] == o;
    }
  }

  /** A single-SELECT query. */
  lemma OutputSelect(q: Query, outer: Scope, s: SelectInfo, outs: seq<Output>, single: bool, e1: Env, e2: Env, m: World)
    requires m.Valid() && Agree(outer, e1, e2, m.w.used)
    requires q.Select? && AnalyzeSelect(q, outer, m.c) == Ok(s) && SelectLive(s, m)
    requires Covering(outs, |s.items|) && OutputsOf(outs, InfoCols(s.items), single)
    ensures LeavesFit(PrepQuery(ElabSelect(q, s), m.w), outs)
    ensures var t := EvalQuery(Reorder(PrepQuery(ElabSelect(q, s), m.w), outs, single), e2, m.scratch);
            && RowsOf(t) == OutputOf(EvalQuery(q, e1, m.source), outs, single)
            && (t.Done? ==> |t.value.cols| == |outs|)
  {
    hide AnalyzeSelect, Agree, SelectLive, Slots, PrepSlots, Ready, EvalSource, ProjectRows, EvalWith, OutputRows,
         OutputItems, PrepQuery, ElabSelect, PrepOptionRel, PrepJoins, PrepOptionExpr, PrepExprs, Covering, OutputsOf, World.Valid;
    assert m.w.Covered() by { CoveredOf(m); }
    CoveringFits(outs, |s.items|);
    SelectFits(q, s, outs, m.w);
    var q2 := Reorder(PrepQuery(ElabSelect(q, s), m.w), outs, single);
    OutputReady(q, outer, s, outs, single, e1, e2, m);
    var w1 := EvalWith(q.ctes, e1, m.source);
    var w2 := EvalWith(q2.ctes, e2, m.scratch);
    PresSource(q, q2, outer, s, w1, w2, m);
    var src := EvalSource(q, w1, m.source);
    if src.Done? {
      OutputProjectRows(q, q2, outer, s, src.value.rows, outs, single, w1, w2, m);
    }
    NamesLength(q2.items);
  }

  /** The SELECT and its preparation, with the projection in target order, are ready under their WITH. */
  lemma OutputReady(q: Query, outer: Scope, s: SelectInfo, outs: seq<Output>, single: bool, e1: Env, e2: Env, m: World)
    requires m.Valid() && Agree(outer, e1, e2, m.w.used)
    requires q.Select? && AnalyzeSelect(q, outer, m.c) == Ok(s) && SelectLive(s, m)
    requires OutputsOf(outs, InfoCols(s.items), single) && LeavesFit(PrepQuery(ElabSelect(q, s), m.w), outs)
    ensures var q2 := Reorder(PrepQuery(ElabSelect(q, s), m.w), outs, single);
            && q2.Select? && q2.items == OutputItems(PrepExprs(Elabs(s.items), m.w), outs, single)
            && Ready(q, q2, outer, s, EvalWith(q.ctes, e1, m.source), EvalWith(q2.ctes, e2, m.scratch), m)
  {
    hide AnalyzeSelect, Agree, SelectLive, AliasesSafe, Slots, PrepSlots, Ready, EvalWith, AnalyzeWith,
         PrepCtes, OutputItems, PrepQuery, ElabSelect, PrepOptionRel, PrepJoins, PrepOptionExpr, PrepExprs, OutputsOf, World.Valid;
    assert m.w.Covered() by { CoveredOf(m); }
    PreparedSelect(q, s, m.w);
    var q2 := Reorder(PrepQuery(ElabSelect(q, s), m.w), outs, single);
    SelectParts(q, outer, m.c);
    PresWith(q.ctes, outer, {}, e1, e2, m);
    OutputItemsSafe(q, outer, s, outs, single, m);
    SelectReady(q, q2, outer, s, EvalWith(q.ctes, e1, m.source), EvalWith(q2.ctes, e2, m.scratch), m);
  }

  /** Prepare's whole effect on a query without its INSERT's WITH: the same rows, put in target order and cast. */
  lemma {:induction false} OutputQuery(q: Query, outer: Scope, outs: seq<Output>, single: bool, e1: Env, e2: Env, m: World)
    requires m.Valid() && Agree(outer, e1, e2, m.w.used)
    requires AnalyzeQuery(q, outer, m.c).Ok?
    requires var i := AnalyzeQuery(q, outer, m.c).value;
             && m.Live(i.nodes, i.used) && Covering(outs, |i.cols|)
             && OutputsOf(outs, i.cols, single) && (q.Union? ==> !single)
    ensures LeavesFit(PrepQuery(AnalyzeQuery(q, outer, m.c).value.elab, m.w), outs)
    ensures var t := EvalQuery(Reorder(PrepQuery(AnalyzeQuery(q, outer, m.c).value.elab, m.w), outs, single), e2, m.scratch);
            && RowsOf(t) == OutputOf(EvalQuery(q, e1, m.source), outs, single)
            && (t.Done? ==> |t.value.cols| == |outs|)
    decreases q, 1
  {
    hide Agree, AnalyzeSelect, AnalyzeWith, EvalSelect, EvalWith, ElabSelect, OutputRows, Covering, SelectLive;
    match q
    case Select(_, _, _, _, _) =>
      var s := AnalyzeSelect(q, outer, m.c).value;
      SelectLiveParts(q, outer, s, m);
      OutputSelect(q, outer, s, outs, single, e1, e2, m);
    case Union(ctes, left, right) => OutputUnion(ctes, left, right, outer, outs, e1, e2, m);
    case SelectAll(_, _) =>
    case UnsupportedQuery =>
  }

  lemma {:induction false} OutputUnion(ctes: seq<Cte>, left: Query, right: Query, outer: Scope, outs: seq<Output>, e1: Env, e2: Env, m: World)
    requires m.Valid() && Agree(outer, e1, e2, m.w.used)
    requires AnalyzeQuery(Union(ctes, left, right), outer, m.c).Ok?
    requires var i := AnalyzeQuery(Union(ctes, left, right), outer, m.c).value;
             m.Live(i.nodes, i.used) && Covering(outs, |i.cols|) && OutputsOf(outs, i.cols, false)
    ensures var i := AnalyzeQuery(Union(ctes, left, right), outer, m.c).value;
            && LeavesFit(PrepQuery(i.elab, m.w), outs)
            && var t := EvalQuery(Reorder(PrepQuery(i.elab, m.w), outs, false), e2, m.scratch);
            && RowsOf(t) == OutputOf(EvalQuery(Union(ctes, left, right), e1, m.source), outs, false)
            && (t.Done? ==> |t.value.cols| == |outs|)
    decreases Union(ctes, left, right), 0
  {
    assert m.w.Covered();
    hide Agree, AnalyzeQuery, AnalyzeWith, EvalQuery, EvalWith, PrepQuery, PrepCtes, OutputRows, Covering, OutputsOf, UnionCols, OutputItems, World.Valid, World.Live;
    UnionParts(ctes, left, right, outer, m);
    var w := AnalyzeWith(ctes, outer, {}, m.c).value;
    var l := AnalyzeQuery(left, w.scope, m.c).value;
    var r := AnalyzeQuery(right, w.scope, m.c).value;
    var i := AnalyzeQuery(Union(ctes, left, right), outer, m.c).value;
    OutputsLength(outs, i.cols, l.cols);
    OutputsLength(outs, i.cols, r.cols);
    PresWith(ctes, outer, {}, e1, e2, m);
    var w1 := EvalWith(ctes, e1, m.source);
    var w2 := EvalWith(PrepCtes(w.elab, m.w), e2, m.scratch);
    OutputQuery(left, w.scope, outs, false, w1, w2, m);
    OutputQuery(right, w.scope, outs, false, w1, w2, m);
    PresQuery(left, w.scope, w1, w2, m);
    PresQuery(right, w.scope, w1, w2, m);
    OutputBranches(ctes, left, right, PrepCtes(w.elab, m.w), PrepQuery(l.elab, m.w), PrepQuery(r.elab, m.w), outs, l.cols, r.cols, e1, e2, m.source, m.scratch);
  }

  /** Reordered branches give a reordered UNION ALL. */
  lemma OutputBranches(ctes: seq<Cte>, left: Query, right: Query, ctes2: seq<Cte>, left2: Query, right2: Query, outs: seq<Output>,
                       lc: seq<Col>, rc: seq<Col>, e1: Env, e2: Env, d1: Db, d2: Db)
    requires LeavesFit(left2, outs) && LeavesFit(right2, outs) && |lc| == |rc|
    requires var t := EvalQuery(Reorder(left2, outs, false), EvalWith(ctes2, e2, d2), d2); var a := EvalQuery(left, EvalWith(ctes, e1, d1), d1);
      && RowsOf(t) == OutputOf(a, outs, false) && (t.Done? ==> |t.value.cols| == |outs|) && (a.Done? ==> a.value.cols == ColNames(lc))
    requires var t := EvalQuery(Reorder(right2, outs, false), EvalWith(ctes2, e2, d2), d2); var b := EvalQuery(right, EvalWith(ctes, e1, d1), d1);
      && RowsOf(t) == OutputOf(b, outs, false) && (t.Done? ==> |t.value.cols| == |outs|) && (b.Done? ==> b.value.cols == ColNames(rc))
    ensures LeavesFit(Union(ctes2, left2, right2), outs)
    ensures var t := EvalQuery(Reorder(Union(ctes2, left2, right2), outs, false), e2, d2);
            && RowsOf(t) == OutputOf(EvalQuery(Union(ctes, left, right), e1, d1), outs, false)
            && (t.Done? ==> |t.value.cols| == |outs|)
  {
    UnionRows(ctes, left, right, e1, d1);
    assert Reorder(Union(ctes2, left2, right2), outs, false) == Union(ctes2, Reorder(left2, outs, false), Reorder(right2, outs, false));
    UnionRows(ctes2, Reorder(left2, outs, false), Reorder(right2, outs, false), e2, d2);
    hide EvalQuery, EvalWith, Reorder, OutputRows;
    var a, b := EvalQuery(left, EvalWith(ctes, e1, d1), d1), EvalQuery(right, EvalWith(ctes, e1, d1), d1);
    if a.Done? && b.Done? {
      OutputRowsConcat(a.value.rows, b.value.rows, outs, false);
    }
  }

  lemma OutputsLength(outs: seq<Output>, a: seq<Col>, b: seq<Col>)
    requires OutputsOf(outs, a, false) && |a| == |b|
    ensures OutputsOf(outs, b, false)
  {
  }
}
