/**
 Type soundness: on a database that matches the catalog, every value an accepted query yields has
 exactly the analyzed type, and is NULL only where the analyzer says it may be.
 */
module SnapshotTyping {
  import opened Common
  import opened SnapshotIntegers
  import opened SnapshotAst
  import opened SnapshotEval
  import opened SnapshotAnalyze
  import opened SnapshotPrepare
  import opened SnapshotScope
  import opened SnapshotMeaning

  /** A non-NULL value of exactly type t; an integer is in t's range. */
  predicate Conforms(v: Value, t: Type)
  {
    v.Val? && v.typ == t && (IsInteger(t) ==> v.payload.Integer? && InRange(v.payload.n, t))
  }

  predicate Fits(v: Value, c: Col)
  {
    && (Conforms(v, c.typ) || (v.Null? && c.nullable))
    && (c.literal.Some? && !c.nullable ==> v == Val(c.typ, Payload.Integer(c.literal.value)))
  }

  predicate RowFits(row: Row, cols: seq<Col>)
  {
    |row| == |cols| && forall i :: 0 <= i < |row| ==> Fits(row[i], cols[i])
  }

  predicate TableFits(t: TableValue, cols: seq<Col>)
  {
    t.cols == ColNames(cols) && forall r :: r in t.rows ==> RowFits(r, cols)
  }

  ghost predicate EnvFits(scope: Scope, env: Env)
  {
    env.Keys == scope.Keys && forall n :: n in scope && scope[n].clear && env[n].Done? ==> TableFits(env[n].value, scope[n].cols)
  }

  ghost predicate DbFits(c: Context, db: Db)
  {
    && db.current == c.database
    && forall key :: key in c.catalog && key in db.tables ==> TableFits(db.tables[key], TableCols(c.catalog[key].columns))
  }

  lemma DerivedFits(t: TableValue, cols: seq<Col>)
    requires TableFits(t, cols)
    ensures TableFits(t, DerivedCols(cols))
  {
    NamesOfDerived(cols);
    forall r | r in t.rows
      ensures RowFits(r, DerivedCols(cols))
    {
      assert RowFits(r, cols);
    }
  }

  lemma NumberFits(n: int)
    ensures NumberValue(n).Done? ==> Conforms(NumberValue(n).value, Smallest(n).value) && NumberValue(n).value.payload == Payload.Integer(n)
  {
    if Smallest(n).Some? {
      assert InRange(n, Smallest(n).value);
    }
  }

  lemma ApplyFits(op: Op, l: Value, r: Value, nullable: bool)
    requires (l.Null? || r.Null?) ==> nullable
    ensures Apply(op, l, r).Done? ==> Fits(Apply(op, l, r).value, TruthCol(nullable))
  {
  }

  lemma ColumnFits(table: Option<Ident>, column: Ident, rels: seq<RelInfo>, row: RowEnv, env: Env, db: Db)
    requires AnalyzeColumn(table, column, rels).Ok?
    requires RowFits(row.vals, SlotCols(rels)) && (table.None? ==> HarmlessAt(column.name, row.alias, Slots(rels), row.vals))
    ensures var v := EvalExpr(Column(table, column), Slots(rels), row, env, db);
            v.Done? ==> Fits(v.value, AnalyzeColumn(table, column, rels).value.col)
  {
    hide HarmlessAt, Slots, SlotCols;
    var qual := if table.Some? then table.value.name else "";
    var hits := Hits(Slots(rels), qual, column.name);
    assert |hits| == 1;
    ColumnValue(table, column, Slots(rels), row, env, db);
    assert Fits(row.vals[hits[0]], SlotCols(rels)[hits[0]]);
  }

  /** An accepted expression evaluates, if at all, to a value of its analyzed type. */
  lemma {:induction false} TypedExpr(e: Expr, names: set<string>, rels: seq<RelInfo>, scope: Scope, row: RowEnv, env: Env, c: Context, db: Db)
    requires AnalyzeExpr(e, rels, scope, c).Ok? && AnalyzeExpr(e, rels, scope, c).value.clear
    requires EnvFits(scope, env) && DbFits(c, db)
    requires RowFits(row.vals, SlotCols(rels)) && BareNames(e) <= names && Harmless(names, row.alias, Slots(rels), row.vals)
    ensures var v := EvalExpr(e, Slots(rels), row, env, db);
            v.Done? ==> Fits(v.value, AnalyzeExpr(e, rels, scope, c).value.col)
    decreases e, 0
  {
    hide EnvFits, DbFits, RowFits, Fits, HarmlessAt, Slots, SlotCols, AnalyzeColumn, AnalyzeNumber, AnalyzeNeg, AnalyzeQuery, EvalQuery, Lookup, Apply,
         AliasAllowed, TableFits, Negate, NumberValue, LiteralValue, NegatedLiteral, CheckIdent, DollarBody;
    match e
    case Number(_) => LeafFits(e, rels, scope, row, env, c, db);
    case Str(_) => LeafFits(e, rels, scope, row, env, c, db);
    case DollarString(_) => LeafFits(e, rels, scope, row, env, c, db);
    case Neg(_) => LeafFits(e, rels, scope, row, env, c, db);
    case OtherLiteral =>
    case Column(table, column) => ColumnFits(table, column, rels, row, env, db);
    case Paren(x) =>
      ParenShape(x, rels, scope, c);
      TypedExpr(x, names, rels, scope, row, env, c, db);
      SameFits(EvalExpr(x, Slots(rels), row, env, db), AnalyzeExpr(x, rels, scope, c).value.col, AnalyzeExpr(e, rels, scope, c).value.col);
    case Aliased(x, _) =>
      TypedExpr(x, names, rels, scope, row, env, c, db);
      SameFits(EvalExpr(x, Slots(rels), row, env, db), AnalyzeExpr(x, rels, scope, c).value.col, AnalyzeExpr(e, rels, scope, c).value.col);
    case Scalar(q) =>
      TypedQuery(q, scope, env, c, db);
      ScalarFits(q, rels, scope, row, env, c, db);
    case Binary(op, l, r) =>
      BinaryShape(op, l, r, rels, scope, c);
      TypedExpr(l, names, rels, scope, row, env, c, db);
      TypedExpr(r, names, rels, scope, row, env, c, db);
      BinaryFits(op, l, r, rels, scope, row, env, c, db);
    case Not(x) =>
      NotShape(x, rels, scope, c);
      TypedExpr(x, names, rels, scope, row, env, c, db);
      NotFits(x, rels, scope, row, env, c, db);
    case In(x, q) => InFits(x, q, rels, scope, row, env, c, db);
    case Rand(_) =>
    case VolatileCall =>
    case ParameterNode =>
    case UnsupportedExpr(_) =>
    case Cast(_, _) =>
  }

  /** A number, a string or a negated number. */
  lemma LeafFits(e: Expr, rels: seq<RelInfo>, scope: Scope, row: RowEnv, env: Env, c: Context, db: Db)
    requires e.Number? || e.Str? || e.DollarString? || e.Neg?
    requires AnalyzeExpr(e, rels, scope, c).Ok?
    ensures var v := EvalExpr(e, Slots(rels), row, env, db);
            v.Done? ==> Fits(v.value, AnalyzeExpr(e, rels, scope, c).value.col)
  {
    hide Slots, AnalyzeQuery, EvalQuery, AnalyzeColumn, Lookup, Apply, NumberNode, NumberValue;
    match e
    case Number(text) => NumberFits(ParseDigits(text));
    case Neg(x) => NumberFits(-ParseDigits(StripParens(x).text));
    case _ =>
  }

  /** Only the type, the literal and whether it may be NULL count. */
  lemma SameFits(v: Res<Value>, a: Col, b: Col)
    requires v.Done? ==> Fits(v.value, a)
    requires a.typ == b.typ && a.literal == b.literal && a.nullable == b.nullable
    ensures v.Done? ==> Fits(v.value, b)
  {
  }

  lemma InFits(x: Expr, q: Query, rels: seq<RelInfo>, scope: Scope, row: RowEnv, env: Env, c: Context, db: Db)
    requires AnalyzeExpr(In(x, q), rels, scope, c).Ok?
    ensures var v := EvalExpr(In(x, q), Slots(rels), row, env, db);
            v.Done? ==> Fits(v.value, AnalyzeExpr(In(x, q), rels, scope, c).value.col)
  {
    hide Slots, AnalyzeQuery, AnalyzeExpr, EvalQuery, Lookup, Apply, Member;
    InShape(x, q, rels, scope, c);
  }

  lemma NotFits(x: Expr, rels: seq<RelInfo>, scope: Scope, row: RowEnv, env: Env, c: Context, db: Db)
    requires AnalyzeExpr(Not(x), rels, scope, c).Ok? && AnalyzeExpr(x, rels, scope, c).Ok?
    requires var v := EvalExpr(x, Slots(rels), row, env, db); v.Done? ==> Fits(v.value, AnalyzeExpr(x, rels, scope, c).value.col)
    ensures var v := EvalExpr(Not(x), Slots(rels), row, env, db);
            v.Done? ==> Fits(v.value, AnalyzeExpr(Not(x), rels, scope, c).value.col)
  {
    hide Slots, AnalyzeExpr, EvalQuery, Lookup, NumberValue, LiteralValue;
    NotShape(x, rels, scope, c);
  }

  lemma BinaryFits(op: Op, l: Expr, r: Expr, rels: seq<RelInfo>, scope: Scope, row: RowEnv, env: Env, c: Context, db: Db)
    requires AnalyzeExpr(Binary(op, l, r), rels, scope, c).Ok?
    requires AnalyzeExpr(l, rels, scope, c).Ok? && AnalyzeExpr(r, rels, scope, c).Ok?
    requires var v := EvalExpr(l, Slots(rels), row, env, db); v.Done? ==> Fits(v.value, AnalyzeExpr(l, rels, scope, c).value.col)
    requires var v := EvalExpr(r, Slots(rels), row, env, db); v.Done? ==> Fits(v.value, AnalyzeExpr(r, rels, scope, c).value.col)
    ensures var v := EvalExpr(Binary(op, l, r), Slots(rels), row, env, db);
            v.Done? ==> Fits(v.value, AnalyzeExpr(Binary(op, l, r), rels, scope, c).value.col)
  {
    hide Slots, AnalyzeExpr, EvalQuery, Lookup, Apply, NumberValue, LiteralValue;
    BinaryShape(op, l, r, rels, scope, c);
    var a := EvalExpr(l, Slots(rels), row, env, db);
    var b := EvalExpr(r, Slots(rels), row, env, db);
    if a.Done? && b.Done? {
      ApplyFits(op, a.value, b.value, AnalyzeExpr(Binary(op, l, r), rels, scope, c).value.col.nullable);
    }
  }

  lemma ScalarFits(q: Query, rels: seq<RelInfo>, scope: Scope, row: RowEnv, env: Env, c: Context, db: Db)
    requires AnalyzeExpr(Scalar(q), rels, scope, c).Ok?
    requires var t := EvalQuery(q, env, db); t.Done? ==> TableFits(t.value, AnalyzeQuery(q, scope, c).value.cols)
    ensures var v := EvalExpr(Scalar(q), Slots(rels), row, env, db);
            v.Done? ==> Fits(v.value, AnalyzeExpr(Scalar(q), rels, scope, c).value.col)
  {
    hide Slots, AnalyzeQuery, EvalQuery;
    var i := AnalyzeQuery(q, scope, c).value;
    assert AnalyzeExpr(Scalar(q), rels, scope, c) == ScalarInfo(i);
    var t := EvalQuery(q, env, db);
    if t.Done? && t.value.rows != [] {
      assert t.value.rows[0] in t.value.rows;
      assert RowFits(t.value.rows[0], i.cols);
    }
  }

  lemma {:induction false} TypedItems(es: seq<Expr>, names: set<string>, rels: seq<RelInfo>, scope: Scope, row: RowEnv, env: Env, c: Context, db: Db)
    requires AnalyzeExprs(es, rels, scope, c).Ok? && AllClear(AnalyzeExprs(es, rels, scope, c).value)
    requires EnvFits(scope, env) && DbFits(c, db)
    requires RowFits(row.vals, SlotCols(rels)) && Harmless(names, row.alias, Slots(rels), row.vals)
    requires forall k :: 0 <= k < |es| ==> BareNames(es[k]) <= names
    ensures var r := EvalItems(es, Slots(rels), row, env, db);
            r.Done? ==> RowFits(r.value, InfoCols(AnalyzeExprs(es, rels, scope, c).value))
    decreases es, 0
  {
    hide EnvFits, DbFits, Harmless, Slots, SlotCols, AnalyzeExpr, EvalExpr, Fits;
    if es != [] {
      hide AnalyzeExprs, AllClear;
      ItemsSplit(es, rels, scope, c);
      TypedExpr(es[0], names, rels, scope, row, env, c, db);
      TypedItems(es[1..], names, rels, scope, row, env, c, db);
    }
  }

  lemma ItemsSplit(es: seq<Expr>, rels: seq<RelInfo>, scope: Scope, c: Context)
    requires es != [] && AnalyzeExprs(es, rels, scope, c).Ok?
    ensures AnalyzeExpr(es[0], rels, scope, c).Ok? && AnalyzeExprs(es[1..], rels, scope, c).Ok?
    ensures var infos, rest := AnalyzeExprs(es, rels, scope, c).value, AnalyzeExprs(es[1..], rels, scope, c).value;
            && infos == [AnalyzeExpr(es[0], rels, scope, c).value] + rest
            && InfoCols(infos) == [infos[0].col] + InfoCols(rest)
            && (AllClear(infos) ==> infos[0].clear && AllClear(rest))
  {
    hide AnalyzeExpr;
    var infos, rest := AnalyzeExprs(es, rels, scope, c).value, AnalyzeExprs(es[1..], rels, scope, c).value;
    assert infos[1..] == rest;
    assert forall k :: 0 <= k < |rest| ==> rest[k] == infos[k + 1];
  }

  lemma {:induction false} TypedProject(es: seq<Expr>, q: Query, rels: seq<RelInfo>, scope: Scope, rows: seq<Row>, env: Env, c: Context, db: Db)
    requires AnalyzeExprs(es, rels, scope, c).Ok? && AllClear(AnalyzeExprs(es, rels, scope, c).value)
    requires EnvFits(scope, env) && DbFits(c, db)
    requires (forall r :: r in rows ==> RowFits(r, SlotCols(rels))) && q.Select? && SelectSafe(q, Slots(rels))
    requires forall k :: 0 <= k < |es| ==> BareNames(es[k]) <= SelectNames(q)
    ensures var out := ProjectRows(es, Slots(rels), Annotate(q, Slots(rels), rows, env, db), env, db);
            out.Done? ==> forall r :: r in out.value ==> RowFits(r, InfoCols(AnalyzeExprs(es, rels, scope, c).value))
    decreases es, 1, |rows|
  {
    hide EnvFits, DbFits, Harmless, Slots, SlotCols, AnalyzeExprs, EvalItems, SelectSafe, SelectAliases, RowFits, BareNames, SelectNames;
    if rows != [] {
      SelectAliasesHarmless(q, Slots(rels), Slots(rels), rows[0], env, db);
      assert rows[0] in rows;
      TypedItems(es, SelectNames(q), rels, scope, RowEnv(rows[0], SelectAliases(q, Slots(rels), rows[0], env, db)), env, c, db);
      TypedProject(es, q, rels, scope, rows[1..], env, c, db);
    }
  }

  lemma {:induction false} TypedRel(r: Rel, scope: Scope, env: Env, c: Context, db: Db)
    requires AnalyzeRel(r, scope, c).Ok? && AnalyzeRel(r, scope, c).value.clear
    requires EnvFits(scope, env) && DbFits(c, db)
    ensures var t := EvalRel(r, env, db);
            t.Done? ==> TableFits(t.value, AnalyzeRel(r, scope, c).value.cols)
    ensures AnalyzeRel(r, scope, c).value.qualifier == Qualifier(r)
    decreases r, 0
  {
    hide TableFits, AnalyzeQuery, EvalQuery;
    var t := EvalRel(r, env, db);
    match r
    case Table(node, schema, name, alias, _) =>
      if schema.None? && name.name in scope {
        if t.Done? {
          DerivedFits(t.value, scope[name.name].cols);
        }
      }
    case Derived(q, _) =>
      TypedQuery(q, scope, env, c, db);
      if t.Done? {
        DerivedFits(t.value, AnalyzeQuery(q, scope, c).value.cols);
      }
    case UnsupportedRel =>
  }

  lemma {:induction false} TypedWith(ctes: seq<Cte>, scope: Scope, local: set<string>, env: Env, c: Context, db: Db)
    requires AnalyzeWith(ctes, scope, local, c).Ok?
    requires EnvFits(scope, env) && DbFits(c, db)
    ensures EnvFits(AnalyzeWith(ctes, scope, local, c).value.scope, EvalWith(ctes, env, db))
    decreases ctes, 0
  {
    hide TableFits, DbFits, AnalyzeQuery, EvalQuery;
    if ctes != [] {
      var cte := ctes[0];
      var i := AnalyzeCte(cte, scope, c).value;
      var name := cte.alias.name;
      if i.clear {
        TypedCte(cte, scope, env, c, db);
      }
      TypedWith(ctes[1..], scope[name := Entry(Def(cte.node, i.nodes, i.used, i.bases), i.cols, i.clear)], local + {name},
                env[name := EvalCte(cte, env, db)], c, db);
    }
  }

  lemma {:induction false} TypedCte(cte: Cte, scope: Scope, env: Env, c: Context, db: Db)
    requires AnalyzeCte(cte, scope, c).Ok? && AnalyzeCte(cte, scope, c).value.clear
    requires EnvFits(scope, env) && DbFits(c, db)
    ensures var t := EvalCte(cte, env, db);
            t.Done? ==> TableFits(t.value, AnalyzeCte(cte, scope, c).value.cols)
    decreases cte, 0
  {
    TypedQuery(cte.query, scope, env, c, db);
  }

  lemma {:induction false} PrefixFits(l: Row, rows: seq<Row>, lc: seq<Col>, rc: seq<Col>)
    requires RowFits(l, lc) && forall r :: r in rows ==> RowFits(r, rc)
    ensures forall r :: r in PrefixEach(l, rows) ==> RowFits(r, lc + rc)
  {
    if rows != [] {
      assert rows[0] in rows && RowFits(l + rows[0], lc + rc);
      assert forall r :: r in rows[1..] ==> r in rows;
      PrefixFits(l, rows[1..], lc, rc);
    }
  }

  lemma {:induction false} ProductFits(left: seq<Row>, right: seq<Row>, lc: seq<Col>, rc: seq<Col>)
    requires (forall r :: r in left ==> RowFits(r, lc)) && (forall r :: r in right ==> RowFits(r, rc))
    ensures forall r :: r in Product(left, right) ==> RowFits(r, lc + rc)
  {
    if left != [] {
      assert left[0] in left;
      assert forall r :: r in left[1..] ==> r in left;
      PrefixFits(left[0], right, lc, rc);
      ProductFits(left[1..], right, lc, rc);
      assert Product(left, right) == PrefixEach(left[0], right) + Product(left[1..], right);
    }
  }

  /** Filtering keeps only rows it was given. */
  lemma {:induction false} FilterKeeps(e: Expr, q: Query, cols: seq<QName>, rows: seq<Row>, env: Env, db: Db)
    requires q.Select?
    ensures var out := FilterRows(e, cols, Annotate(q, cols, rows, env, db), env, db);
            out.Done? ==> forall r :: r in out.value ==> r in rows
    decreases |rows|
  {
    hide EvalExpr;
    if rows != [] {
      FilterKeeps(e, q, cols, rows[1..], env, db);
    }
  }

  predicate Cleared(q: Query, s: SelectInfo)
    requires q.Select?
  {
    |q.joins| <= |s.rels| && s.Clear(q)
  }

  predicate SourceFits(src: Source, rels: seq<RelInfo>)
  {
    src.cols == Slots(rels) && forall r :: r in src.rows ==> RowFits(r, SlotCols(rels))
  }

  lemma ScopeStep(s: SelectInfo, n: nat)
    requires n < |s.rels|
    ensures SlotCols(Part(s, n + 1)) == SlotCols(Part(s, n)) + s.rels[n].cols
    ensures Slots(Part(s, n + 1)) == Slots(Part(s, n)) + Tag(s.rels[n].qualifier, ColNames(s.rels[n].cols))
  {
    assert Part(s, n + 1)[..n] == Part(s, n) && Part(s, n + 1)[n] == s.rels[n];
  }

  lemma {:induction false} TypedJoin(j: Join, k: nat, q: Query, outer: Scope, s: SelectInfo, src: Source, env: Env, c: Context, db: Db)
    requires q.Select? && AnalyzeSelect(q, outer, c) == Ok(s) && Cleared(q, s) && k < |q.joins| && j == q.joins[k]
    requires EnvFits(s.scope, env) && DbFits(c, db)
    requires SourceFits(src, Part(s, |s.first| + k))
    ensures var n := EvalJoin(q, k, src, env, db); n.Done? ==> SourceFits(n.value, Part(s, |s.first| + k + 1))
    decreases j, 0
  {
    hide AnalyzeSelect, EnvFits, DbFits, RowFits, AnalyzeRel, EvalRel, FilterRows, AnalyzeExpr, Slots, SlotCols, Part;
    var n := |s.first| + k;
    SelectJoin(q, outer, s, c, k);
    TypedRel(j.rel, s.scope, env, c, db);
    ScopeStep(s, n);
    var t := EvalRel(j.rel, env, db);
    if t.Done? {
      ProductFits(src.rows, t.value.rows, SlotCols(Part(s, n)), s.rels[n].cols);
      FilterKeeps(j.on, q, src.cols + Tag(Qualifier(j.rel), t.value.cols), Product(src.rows, t.value.rows), env, db);
    }
  }

  lemma {:induction false} TypedJoins(q: Query, k: nat, outer: Scope, s: SelectInfo, src: Source, env: Env, c: Context, db: Db)
    requires q.Select? && AnalyzeSelect(q, outer, c) == Ok(s) && Cleared(q, s) && k <= |q.joins|
    requires EnvFits(s.scope, env) && DbFits(c, db)
    requires SourceFits(src, Part(s, |s.first| + k))
    ensures var r := EvalJoins(q, k, src, env, db); r.Done? ==> SourceFits(r.value, s.rels)
    decreases q, 0, |q.joins| - k
  {
    hide AnalyzeSelect, EnvFits, DbFits, EvalJoin, SourceFits;
    if k == |q.joins| {
      assert Part(s, |s.rels|) == s.rels;
    } else {
      TypedJoin(q.joins[k], k, q, outer, s, src, env, c, db);
      var n := EvalJoin(q, k, src, env, db);
      if n.Done? {
        TypedJoins(q, k + 1, outer, s, n.value, env, c, db);
      }
    }
  }

  lemma {:induction false} TypedFrom(from: Option<Rel>, q: Query, outer: Scope, s: SelectInfo, env: Env, c: Context, db: Db)
    requires q.Select? && AnalyzeSelect(q, outer, c) == Ok(s) && Cleared(q, s) && from == q.from
    requires EnvFits(s.scope, env) && DbFits(c, db)
    ensures var r := EvalFrom(from, env, db); r.Done? ==> SourceFits(r.value, Part(s, |s.first|))
    decreases from
  {
    hide AnalyzeSelect, EnvFits, DbFits, AnalyzeRel, EvalRel, Slots, SlotCols, RowFits, Part;
    EmptyScope(s);
    match from
    case None => EmptyRowFits();
    case Some(r) =>
      SelectFrom(q, outer, s, c);
      TypedRel(r, s.scope, env, c, db);
      ScopeStep(s, 0);
      assert SlotCols(Part(s, 1)) == s.rels[0].cols;
      assert Slots(Part(s, 1)) == Tag(s.rels[0].qualifier, ColNames(s.rels[0].cols));
  }

  lemma EmptyRowFits()
    ensures RowFits([], [])
  {
  }

  lemma EmptyScope(s: SelectInfo)
    ensures Slots(Part(s, 0)) == [] && SlotCols(Part(s, 0)) == []
  {
  }

  lemma {:induction false} TypedSource(q: Query, outer: Scope, s: SelectInfo, env: Env, c: Context, db: Db)
    requires q.Select? && AnalyzeSelect(q, outer, c) == Ok(s) && Cleared(q, s)
    requires EnvFits(s.scope, env) && DbFits(c, db)
    ensures var r := EvalSource(q, env, db); r.Done? ==> SourceFits(r.value, s.rels)
    decreases q, 1
  {
    hide AnalyzeSelect, EnvFits, DbFits, EvalJoins, EvalFrom, FilterRows, RowFits, Slots, SlotCols;
    TypedFrom(q.from, q, outer, s, env, c, db);
    var f := EvalFrom(q.from, env, db);
    if f.Done? {
      TypedJoins(q, 0, outer, s, f.value, env, c, db);
      var r := EvalJoins(q, 0, f.value, env, db);
      if r.Done? && q.filter.Some? {
        FilterKeeps(q.filter.value, q, r.value.cols, r.value.rows, env, db);
      }
    }
  }

  lemma {:induction false} TypedSelect(q: Query, outer: Scope, s: SelectInfo, env: Env, c: Context, db: Db)
    requires q.Select? && AnalyzeSelect(q, outer, c) == Ok(s) && Cleared(q, s)
    requires EnvFits(outer, env) && DbFits(c, db)
    ensures var t := EvalSelect(q, EvalWith(q.ctes, env, db), db); t.Done? ==> TableFits(t.value, InfoCols(s.items))
    decreases q, 2
  {
    hide AnalyzeSelect, EnvFits, DbFits, EvalSource, ProjectRows, AnalyzeExprs, EvalWith, AnalyzeWith, Slots, SlotCols, RowFits, AliasesSafe;
    SelectParts(q, outer, c);
    TypedWith(q.ctes, outer, {}, env, c, db);
    var inner := EvalWith(q.ctes, env, db);
    TypedSource(q, outer, s, inner, c, db);
    var src := EvalSource(q, inner, db);
    if src.Done? {
      SelectSafeExactly(q, outer, s, c);
      TypedProject(q.items, q, s.rels, s.scope, src.value.rows, inner, c, db);
      NamesOfItems(q.items, s.rels, s.scope, c);
    }
  }

  lemma NamesOfItems(es: seq<Expr>, rels: seq<RelInfo>, scope: Scope, c: Context)
    requires AnalyzeExprs(es, rels, scope, c).Ok?
    ensures Names(es) == ColNames(InfoCols(AnalyzeExprs(es, rels, scope, c).value))
  {
    NamesStable(es, rels, scope, c, Rewrite({}, [], map[]));
  }

  lemma {:induction false} TypedQuery(q: Query, outer: Scope, env: Env, c: Context, db: Db)
    requires AnalyzeQuery(q, outer, c).Ok? && AnalyzeQuery(q, outer, c).value.clear
    requires EnvFits(outer, env) && DbFits(c, db)
    ensures var t := EvalQuery(q, env, db);
            t.Done? ==> TableFits(t.value, AnalyzeQuery(q, outer, c).value.cols)
    decreases q, 4
  {
    hide AnalyzeSelect, EnvFits, DbFits, EvalSelect, AnalyzeWith, EvalWith;
    match q
    case Select(ctes, _, _, _, _) => TypedSelect(q, outer, AnalyzeSelect(q, outer, c).value, env, c, db);
    case Union(ctes, left, right) =>
      var w := AnalyzeWith(ctes, outer, {}, c).value;
      var inner := EvalWith(ctes, env, db);
      TypedWith(ctes, outer, {}, env, c, db);
      TypedQuery(left, w.scope, inner, c, db);
      TypedQuery(right, w.scope, inner, c, db);
      UnionFits(AnalyzeQuery(left, w.scope, c).value.cols, AnalyzeQuery(right, w.scope, c).value.cols,
                EvalQuery(left, inner, db), EvalQuery(right, inner, db));
    case SelectAll(_, _) =>
    case UnsupportedQuery =>
  }

  lemma UnionFits(l: seq<Col>, r: seq<Col>, a: Res<TableValue>, b: Res<TableValue>)
    requires |l| == |r| && UnionCols(l, r).Ok?
    requires (a.Done? ==> TableFits(a.value, l)) && (b.Done? ==> TableFits(b.value, r))
    ensures a.Done? && b.Done? ==> TableFits(TableValue(a.value.cols, a.value.rows + b.value.rows), UnionCols(l, r).value)
  {
    if a.Done? && b.Done? {
      UnionNames(l, r);
      forall row | row in a.value.rows + b.value.rows
        ensures RowFits(row, UnionCols(l, r).value)
      {
        if row in a.value.rows {
          assert RowFits(row, l);
        } else {
          assert RowFits(row, r);
        }
      }
    }
  }
}
