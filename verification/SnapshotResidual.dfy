/** After the prepass no volatile node is left, so the analyzer never reports residual volatility. */
module SnapshotResidual {
  import opened Common
  import opened SnapshotIntegers
  import opened SnapshotAst
  import opened SnapshotAnalyze
  import opened SnapshotPlan
  import opened SnapshotMaterialize

  predicate DrawFree(leaves: seq<Leaf>)
  {
    forall i :: 0 <= i < |leaves| ==> leaves[i].Literal?
  }

  lemma DrawFreeParts(a: seq<Leaf>, b: seq<Leaf>)
    requires DrawFree(a + b)
    ensures DrawFree(a) && DrawFree(b)
  {
    forall i | 0 <= i < |a|
      ensures a[i].Literal?
    {
      assert (a + b)[i] == a[i];
    }
    forall i | 0 <= i < |b|
      ensures b[i].Literal?
    {
      assert (a + b)[|a| + i] == b[i];
    }
  }

  lemma {:induction false} ExprNoResidual(e: Expr, rels: seq<RelInfo>, scope: Scope, c: Context)
    requires DrawFree(ExprLeaves(e))
    ensures AnalyzeExpr(e, rels, scope, c) != Err(Residual)
    decreases e, 0
  {
    hide DrawFree, AnalyzeQuery, QueryLeaves, AliasAllowed, NumberNode, IsDecimal, ParseDigits, InRange;
    match e
    case Paren(x) => ExprNoResidual(x, rels, scope, c);
    case Aliased(x, _) => ExprNoResidual(x, rels, scope, c);
    case Not(x) => ExprNoResidual(x, rels, scope, c);
    case Scalar(q) => QueryNoResidual(q, scope, c);
    case Binary(_, l, r) =>
      DrawFreeParts(ExprLeaves(l), ExprLeaves(r));
      ExprNoResidual(l, rels, scope, c);
      ExprNoResidual(r, rels, scope, c);
    case In(x, q) =>
      DrawFreeParts(ExprLeaves(x), QueryLeaves(q));
      ExprNoResidual(x, rels, scope, c);
      QueryNoResidual(q, scope, c);
    case Rand(wide) => OneDraw(wide);
    case _ =>
  }

  lemma OneDraw(wide: bool)
    ensures !DrawFree([Draw64(wide)])
  {
    assert [Draw64(wide)][0] == Draw64(wide);
  }

  lemma {:induction false} ExprsNoResidual(es: seq<Expr>, rels: seq<RelInfo>, scope: Scope, c: Context)
    requires DrawFree(ExprsLeaves(es))
    ensures AnalyzeExprs(es, rels, scope, c) != Err(Residual)
    decreases es, 0
  {
    hide DrawFree, AnalyzeExpr, ExprLeaves;
    if es != [] {
      DrawFreeParts(ExprLeaves(es[0]), ExprsLeaves(es[1..]));
      ExprNoResidual(es[0], rels, scope, c);
      ExprsNoResidual(es[1..], rels, scope, c);
    }
  }

  lemma {:induction false} RelNoResidual(r: Rel, scope: Scope, c: Context)
    requires DrawFree(RelLeaves(r))
    ensures AnalyzeRel(r, scope, c) != Err(Residual)
    decreases r, 0
  {
    hide DrawFree, AnalyzeQuery, QueryLeaves;
    match r
    case Derived(q, _) => QueryNoResidual(q, scope, c);
    case _ =>
  }

  lemma {:induction false} FromNoResidual(from: Option<Rel>, scope: Scope, c: Context)
    requires DrawFree(FromLeaves(from))
    ensures AnalyzeFrom(from, scope, c) != Err(Residual)
    decreases from
  {
    hide DrawFree, AnalyzeRel, RelLeaves;
    match from
    case None =>
    case Some(r) => RelNoResidual(r, scope, c);
  }

  lemma {:induction false} JoinNoResidual(j: Join, rels: seq<RelInfo>, scope: Scope, c: Context)
    requires DrawFree(JoinLeaves(j))
    ensures AnalyzeJoin(j, rels, scope, c) != Err(Residual)
    decreases j, 0
  {
    hide DrawFree, AnalyzeRel, RelLeaves, AnalyzeExpr, ExprLeaves;
    DrawFreeParts(RelLeaves(j.rel), ExprLeaves(j.on));
    RelNoResidual(j.rel, scope, c);
    var i := AnalyzeRel(j.rel, scope, c);
    if i.Ok? {
      ExprNoResidual(j.on, rels + [i.value], scope, c);
    }
  }

  lemma {:induction false} JoinsNoResidual(js: seq<Join>, rels: seq<RelInfo>, scope: Scope, c: Context)
    requires DrawFree(JoinsLeaves(js))
    ensures AnalyzeJoins(js, rels, scope, c) != Err(Residual)
    decreases js, 0
  {
    hide DrawFree, AnalyzeJoin, JoinLeaves;
    if js != [] {
      DrawFreeParts(JoinLeaves(js[0]), JoinsLeaves(js[1..]));
      JoinNoResidual(js[0], rels, scope, c);
      var r := AnalyzeJoin(js[0], rels, scope, c);
      if r.Ok? {
        JoinsNoResidual(js[1..], rels + [r.value.0], scope, c);
      }
    }
  }

  lemma {:induction false} FilterNoResidual(filter: Option<Expr>, rels: seq<RelInfo>, scope: Scope, c: Context)
    requires DrawFree(FilterLeaves(filter))
    ensures AnalyzeFilter(filter, rels, scope, c) != Err(Residual)
    decreases filter
  {
    hide DrawFree, AnalyzeExpr, ExprLeaves;
    match filter
    case None =>
    case Some(e) => ExprNoResidual(e, rels, scope, c);
  }

  lemma {:induction false} CteNoResidual(cte: Cte, scope: Scope, c: Context)
    requires DrawFree(CteLeaves(cte))
    ensures AnalyzeCte(cte, scope, c) != Err(Residual)
    decreases cte, 0
  {
    QueryNoResidual(cte.query, scope, c);
  }

  lemma {:induction false} WithNoResidual(ctes: seq<Cte>, scope: Scope, local: set<string>, c: Context)
    requires DrawFree(CtesLeaves(ctes))
    ensures AnalyzeWith(ctes, scope, local, c) != Err(Residual)
    decreases ctes, 0
  {
    hide DrawFree, AnalyzeCte, CteLeaves;
    if ctes != [] {
      DrawFreeParts(CteLeaves(ctes[0]), CtesLeaves(ctes[1..]));
      CteNoResidual(ctes[0], scope, c);
      var r := AnalyzeCte(ctes[0], scope, c);
      if r.Ok? {
        var def := Def(ctes[0].node, r.value.nodes, r.value.used, r.value.bases);
        WithNoResidual(ctes[1..], scope[ctes[0].alias.name := Entry(def, r.value.cols, r.value.clear)], local + {ctes[0].alias.name}, c);
      }
    }
  }

  lemma {:induction false} SelectNoResidual(q: Query, outer: Scope, c: Context)
    requires q.Select? && DrawFree(QueryLeaves(q))
    ensures AnalyzeSelect(q, outer, c) != Err(Residual)
    decreases q, 0
  {
    hide DrawFree, AnalyzeWith, CtesLeaves, AnalyzeExprs, ExprsLeaves, AnalyzeFrom, FromLeaves, AnalyzeJoins, JoinsLeaves, AnalyzeFilter, FilterLeaves;
    var d1, d2, d3, d4, d5 := CtesLeaves(q.ctes), ExprsLeaves(q.items), FromLeaves(q.from), JoinsLeaves(q.joins), FilterLeaves(q.filter);
    DrawFreeParts(d1 + d2 + d3 + d4, d5);
    DrawFreeParts(d1 + d2 + d3, d4);
    DrawFreeParts(d1 + d2, d3);
    DrawFreeParts(d1, d2);
    WithNoResidual(q.ctes, outer, {}, c);
    var w := AnalyzeWith(q.ctes, outer, {}, c);
    if w.Ok? {
      FromNoResidual(q.from, w.value.scope, c);
      var f := AnalyzeFrom(q.from, w.value.scope, c);
      if f.Ok? {
        JoinsNoResidual(q.joins, f.value, w.value.scope, c);
        var j := AnalyzeJoins(q.joins, f.value, w.value.scope, c);
        if j.Ok? {
          ExprsNoResidual(q.items, j.value.rels, w.value.scope, c);
          FilterNoResidual(q.filter, j.value.rels, w.value.scope, c);
        }
      }
    }
  }

  lemma {:induction false} UnionColsNoResidual(l: seq<Col>, r: seq<Col>)
    requires |l| == |r|
    ensures UnionCols(l, r) != Err(Residual)
  {
    if l != [] {
      UnionColsNoResidual(l[1..], r[1..]);
    }
  }

  lemma {:induction false} QueryNoResidual(q: Query, outer: Scope, c: Context)
    requires DrawFree(QueryLeaves(q))
    ensures AnalyzeQuery(q, outer, c) != Err(Residual)
    decreases q, 1
  {
    hide DrawFree, AnalyzeWith, CtesLeaves, AnalyzeSelect, UnionCols;
    match q
    case Select(_, _, _, _, _) => SelectNoResidual(q, outer, c);
    case Union(ctes, left, right) =>
      DrawFreeParts(CtesLeaves(ctes) + QueryLeaves(left), QueryLeaves(right));
      DrawFreeParts(CtesLeaves(ctes), QueryLeaves(left));
      WithNoResidual(ctes, outer, {}, c);
      var w := AnalyzeWith(ctes, outer, {}, c);
      if w.Ok? {
        QueryNoResidual(left, w.value.scope, c);
        QueryNoResidual(right, w.value.scope, c);
        var l, r := AnalyzeQuery(left, w.value.scope, c), AnalyzeQuery(right, w.value.scope, c);
        if l.Ok? && r.Ok? && |l.value.cols| == |r.value.cols| {
          UnionColsNoResidual(l.value.cols, r.value.cols);
        }
      }
    case SelectAll(_, _) =>
    case UnsupportedQuery =>
  }

  /** Once the prepass went through, residual volatility is never what the analysis fails with. */
  lemma NeverResidual(stmt: Insert, c: Context, x: Inputs)
    requires MatCtes(stmt.ctes, 0, x).Ok?
    requires MatQuery(stmt.query, MatCtes(stmt.ctes, 0, x).value.1, x).Ok?
    ensures var ctes := MatCtes(stmt.ctes, 0, x).value;
            var w := AnalyzeWith(ctes.0, map[], {}, c);
            && w != Err(Residual)
            && (w.Ok? ==> AnalyzeQuery(MatQuery(stmt.query, ctes.1, x).value.0, w.value.scope, c) != Err(Residual))
  {
    hide AnalyzeWith, AnalyzeQuery, MatCtes, MatQuery, CtesLeaves, QueryLeaves, Fill, FilledLeaf, Fed;
    var ctes := MatCtes(stmt.ctes, 0, x).value;
    CtesFilled(stmt.ctes, 0, x);
    FillExact(CtesLeaves(stmt.ctes), 0, x);
    FilledLiteral(CtesLeaves(stmt.ctes), 0, x);
    WithNoResidual(ctes.0, map[], {}, c);
    QueryFilled(stmt.query, ctes.1, x);
    FillExact(QueryLeaves(stmt.query), ctes.1, x);
    FilledLiteral(QueryLeaves(stmt.query), ctes.1, x);
    var w := AnalyzeWith(ctes.0, map[], {}, c);
    if w.Ok? {
      QueryNoResidual(MatQuery(stmt.query, ctes.1, x).value.0, w.value.scope, c);
    }
  }
}
