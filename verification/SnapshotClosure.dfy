/**
 The bookkeeping of the analyzer is exact: a used definition brings everything it uses, and the
 table ids of a query are the ids of its bound table objects.
 */
module SnapshotClosure {
  import opened Common
  import opened SnapshotAst
  import opened SnapshotAnalyze
  import opened SnapshotScope

  function Ids(nodes: seq<Bound>): set<string>
  {
    set b | b in nodes :: b.tableId
  }

  /** Transitively closed under the definitions used, with exactly the ids of the bound tables. */
  predicate Whole(nodes: seq<Bound>, used: set<Def>, bases: set<string>)
  {
    && (forall d :: d in used ==> d.used <= used && forall b :: b in d.nodes ==> b in nodes)
    && bases == Ids(nodes)
  }

  predicate ScopeWhole(scope: Scope)
  {
    forall n :: n in scope ==> Whole(scope[n].def.nodes, scope[n].def.used, scope[n].def.bases)
  }

  lemma WholeMerge(n1: seq<Bound>, u1: set<Def>, b1: set<string>, n2: seq<Bound>, u2: set<Def>, b2: set<string>)
    requires Whole(n1, u1, b1) && Whole(n2, u2, b2)
    ensures Whole(n1 + n2, u1 + u2, b1 + b2)
  {
  }

  lemma {:induction false} WholeExpr(e: Expr, rels: seq<RelInfo>, scope: Scope, c: Context)
    requires AnalyzeExpr(e, rels, scope, c).Ok? && ScopeWhole(scope)
    ensures var i := AnalyzeExpr(e, rels, scope, c).value; Whole(i.nodes, i.used, i.bases)
    decreases e, 0
  {
    hide ScopeWhole, AnalyzeQuery, Whole;
    match e
    case Number(_) => WholeNothing();
    case Str(_) => WholeNothing();
    case DollarString(_) => WholeNothing();
    case OtherLiteral =>
    case Column(_, _) => WholeNothing();
    case Paren(x) => WholeExpr(x, rels, scope, c);
    case Aliased(x, _) => WholeExpr(x, rels, scope, c);
    case Neg(_) => WholeNothing();
    case Scalar(q) => WholeQuery(q, scope, c);
    case Binary(op, l, r) =>
      BinaryShape(op, l, r, rels, scope, c);
      WholeExpr(l, rels, scope, c);
      WholeExpr(r, rels, scope, c);
      var a := AnalyzeExpr(l, rels, scope, c).value;
      var b := AnalyzeExpr(r, rels, scope, c).value;
      WholeMerge(a.nodes, a.used, a.bases, b.nodes, b.used, b.bases);
    case Not(x) => WholeExpr(x, rels, scope, c);
    case In(x, q) =>
      InShape(x, q, rels, scope, c);
      WholeExpr(x, rels, scope, c);
      WholeQuery(q, scope, c);
      var a := AnalyzeExpr(x, rels, scope, c).value;
      var i := AnalyzeQuery(q, scope, c).value;
      WholeMerge(a.nodes, a.used, a.bases, i.nodes, i.used, i.bases);
    case Rand(_) =>
    case VolatileCall =>
    case ParameterNode =>
    case UnsupportedExpr(_) =>
    case Cast(_, _) =>
  }

  lemma WholeNothing()
    ensures Whole([], {}, {})
  {
  }

  lemma {:induction false} WholeExprs(es: seq<Expr>, rels: seq<RelInfo>, scope: Scope, c: Context)
    requires AnalyzeExprs(es, rels, scope, c).Ok? && ScopeWhole(scope)
    ensures var i := AnalyzeExprs(es, rels, scope, c).value; Whole(AllNodes(i), AllUsed(i), AllBases(i))
    decreases es, 0
  {
    hide ScopeWhole, AnalyzeExpr, Whole;
    if es == [] {
      WholeNothing();
    } else {
      WholeExpr(es[0], rels, scope, c);
      WholeExprs(es[1..], rels, scope, c);
      var a := AnalyzeExpr(es[0], rels, scope, c).value;
      var rest := AnalyzeExprs(es[1..], rels, scope, c).value;
      var all := AnalyzeExprs(es, rels, scope, c).value;
      assert all == [a] + rest && all[0] == a && all[1..] == rest;
      WholeMerge(a.nodes, a.used, a.bases, AllNodes(rest), AllUsed(rest), AllBases(rest));
    }
  }

  /** A bound relation uses its one table and nothing else; the final record keeps its id. */
  predicate RelWhole(r: RelInfo)
  {
    && Whole(r.nodes, r.used, r.bases)
    && (r.elab.Table? && r.elab.bound.Some? ==> r.used == {} && r.bases == {r.elab.bound.value.tableId})
  }

  lemma FinalWhole(r: RelInfo, rels: seq<RelInfo>, quals: set<string>)
    requires RelWhole(r)
    ensures var f := FinalRel(r, rels, quals); Whole(f.nodes, f.used, f.bases) && f.bases == r.bases
  {
  }

  lemma {:induction false} WholeRel(r: Rel, scope: Scope, c: Context)
    requires AnalyzeRel(r, scope, c).Ok? && ScopeWhole(scope)
    ensures RelWhole(AnalyzeRel(r, scope, c).value)
    decreases r, 0
  {
    hide AnalyzeQuery;
    match r
    case Table(_, schema, name, _, _) =>
      if schema.None? && name.name in scope {
        assert Whole(scope[name.name].def.nodes, scope[name.name].def.used, scope[name.name].def.bases);
      }
    case Derived(q, _) => WholeQuery(q, scope, c);
    case UnsupportedRel =>
  }

  lemma {:induction false} WholeRels(rels: seq<RelInfo>, all: seq<RelInfo>, quals: set<string>)
    requires forall i :: 0 <= i < |rels| ==> RelWhole(rels[i])
    ensures var f := FinalRels(rels, all, quals); Whole(RelNodes(f), RelUsed(f), RelBases(rels))
  {
    hide Whole, RelWhole, FinalRel;
    if rels == [] {
      WholeNothing();
    } else {
      FinalWhole(rels[0], all, quals);
      WholeRels(rels[1..], all, quals);
      var f := FinalRel(rels[0], all, quals);
      var rest := FinalRels(rels[1..], all, quals);
      var fs := FinalRels(rels, all, quals);
      assert fs == [f] + rest && fs[0] == f && fs[1..] == rest;
      WholeMerge(f.nodes, f.used, f.bases, RelNodes(rest), RelUsed(rest), RelBases(rels[1..]));
    }
  }

  lemma {:induction false} WholeWith(ctes: seq<Cte>, scope: Scope, local: set<string>, c: Context)
    requires AnalyzeWith(ctes, scope, local, c).Ok? && ScopeWhole(scope)
    ensures ScopeWhole(AnalyzeWith(ctes, scope, local, c).value.scope)
    decreases ctes, 0
  {
    hide Whole, AnalyzeQuery;
    if ctes != [] {
      var cte := ctes[0];
      WholeCte(cte, scope, c);
      var i := AnalyzeCte(cte, scope, c).value;
      var name := cte.alias.name;
      WholeWith(ctes[1..], scope[name := Entry(Def(cte.node, i.nodes, i.used, i.bases), i.cols, i.clear)], local + {name}, c);
    }
  }

  lemma {:induction false} WholeCte(cte: Cte, scope: Scope, c: Context)
    requires AnalyzeCte(cte, scope, c).Ok? && ScopeWhole(scope)
    ensures var i := AnalyzeCte(cte, scope, c).value; Whole(i.nodes, i.used, i.bases)
    decreases cte, 0
  {
    WholeQuery(cte.query, scope, c);
  }

  lemma {:induction false} WholeJoin(j: Join, rels: seq<RelInfo>, scope: Scope, c: Context)
    requires AnalyzeJoin(j, rels, scope, c).Ok? && ScopeWhole(scope)
    ensures var (r, on) := AnalyzeJoin(j, rels, scope, c).value; RelWhole(r) && Whole(on.nodes, on.used, on.bases)
    decreases j, 0
  {
    hide ScopeWhole, AnalyzeRel, AnalyzeExpr, Whole, RelWhole;
    WholeRel(j.rel, scope, c);
    WholeExpr(j.on, rels + [AnalyzeRel(j.rel, scope, c).value], scope, c);
  }

  lemma {:induction false} WholeJoins(joins: seq<Join>, rels: seq<RelInfo>, scope: Scope, c: Context)
    requires AnalyzeJoins(joins, rels, scope, c).Ok? && ScopeWhole(scope)
    requires forall i :: 0 <= i < |rels| ==> RelWhole(rels[i])
    ensures var j := AnalyzeJoins(joins, rels, scope, c).value;
            (forall i :: 0 <= i < |j.rels| ==> RelWhole(j.rels[i])) && Whole(AllNodes(j.ons), AllUsed(j.ons), AllBases(j.ons))
    decreases joins, 0
  {
    hide ScopeWhole, AnalyzeJoin, Whole, RelWhole;
    if joins == [] {
      WholeNothing();
    } else {
      WholeJoin(joins[0], rels, scope, c);
      var (i, on) := AnalyzeJoin(joins[0], rels, scope, c).value;
      WholeJoins(joins[1..], rels + [i], scope, c);
      var rest := AnalyzeJoins(joins[1..], rels + [i], scope, c).value;
      var all := AnalyzeJoins(joins, rels, scope, c).value;
      assert all.rels == rest.rels && all.ons == [on] + rest.ons && all.ons[0] == on && all.ons[1..] == rest.ons;
      WholeMerge(on.nodes, on.used, on.bases, AllNodes(rest.ons), AllUsed(rest.ons), AllBases(rest.ons));
    }
  }

  lemma {:induction false} WholeFrom(from: Option<Rel>, scope: Scope, c: Context)
    requires AnalyzeFrom(from, scope, c).Ok? && ScopeWhole(scope)
    ensures forall i :: 0 <= i < |AnalyzeFrom(from, scope, c).value| ==> RelWhole(AnalyzeFrom(from, scope, c).value[i])
    decreases from
  {
    hide ScopeWhole, AnalyzeRel, RelWhole;
    match from
    case None =>
    case Some(r) => WholeRel(r, scope, c);
  }

  lemma {:induction false} WholeFilter(filter: Option<Expr>, rels: seq<RelInfo>, scope: Scope, c: Context)
    requires AnalyzeFilter(filter, rels, scope, c).Ok? && ScopeWhole(scope)
    ensures var f := AnalyzeFilter(filter, rels, scope, c).value; Whole(AllNodes(f), AllUsed(f), AllBases(f))
    decreases filter
  {
    hide ScopeWhole, AnalyzeExpr, Whole;
    match filter
    case None => WholeNothing();
    case Some(e) =>
      WholeExpr(e, rels, scope, c);
      var i := AnalyzeExpr(e, rels, scope, c).value;
      var f := AnalyzeFilter(filter, rels, scope, c).value;
      assert f == [i] && f[1..] == [];
      WholeNothing();
      WholeMerge(i.nodes, i.used, i.bases, AllNodes(f[1..]), AllUsed(f[1..]), AllBases(f[1..]));
  }

  lemma {:induction false} WholeSelect(q: Query, outer: Scope, c: Context)
    requires q.Select? && AnalyzeSelect(q, outer, c).Ok? && ScopeWhole(outer)
    ensures var s := AnalyzeSelect(q, outer, c).value;
            && Whole(AllNodes(s.ons), AllUsed(s.ons), AllBases(s.ons))
            && Whole(RelNodes(s.Finals()), RelUsed(s.Finals()), RelBases(s.rels))
            && Whole(AllNodes(s.items), AllUsed(s.items), AllBases(s.items))
            && Whole(AllNodes(s.filter), AllUsed(s.filter), AllBases(s.filter))
    decreases q, 0
  {
    hide ScopeWhole, Whole, RelWhole, AnalyzeWith, AnalyzeFrom, AnalyzeJoins, AnalyzeExprs, AnalyzeFilter;
    var s := AnalyzeSelect(q, outer, c).value;
    WholeWith(q.ctes, outer, {}, c);
    WholeFrom(q.from, s.scope, c);
    WholeJoins(q.joins, s.first, s.scope, c);
    WholeRels(s.rels, s.rels, s.Quals());
    WholeExprs(q.items, s.rels, s.scope, c);
    WholeFilter(q.filter, s.rels, s.scope, c);
  }

  /** Every definition a query uses brings its own, and its table ids are exactly those of its bound tables. */
  lemma {:induction false} WholeQuery(q: Query, outer: Scope, c: Context)
    requires AnalyzeQuery(q, outer, c).Ok? && ScopeWhole(outer)
    ensures var i := AnalyzeQuery(q, outer, c).value; Whole(i.nodes, i.used, i.bases)
    decreases q, 1
  {
    hide ScopeWhole, Whole, AnalyzeWith, AnalyzeSelect;
    match q
    case Select(_, _, _, _, _) =>
      WholeSelect(q, outer, c);
      var s := AnalyzeSelect(q, outer, c).value;
      WholeMerge(AllNodes(s.ons), AllUsed(s.ons), AllBases(s.ons), RelNodes(s.Finals()), RelUsed(s.Finals()), RelBases(s.rels));
      WholeMerge(AllNodes(s.ons) + RelNodes(s.Finals()), AllUsed(s.ons) + RelUsed(s.Finals()), AllBases(s.ons) + RelBases(s.rels),
                 AllNodes(s.items), AllUsed(s.items), AllBases(s.items));
      WholeMerge(AllNodes(s.ons) + RelNodes(s.Finals()) + AllNodes(s.items), AllUsed(s.ons) + RelUsed(s.Finals()) + AllUsed(s.items),
                 AllBases(s.ons) + RelBases(s.rels) + AllBases(s.items),
                 AllNodes(s.filter), AllUsed(s.filter), AllBases(s.filter));
    case Union(ctes, left, right) =>
      WholeWith(ctes, outer, {}, c);
      var w := AnalyzeWith(ctes, outer, {}, c).value;
      WholeQuery(left, w.scope, c);
      WholeQuery(right, w.scope, c);
      var l := AnalyzeQuery(left, w.scope, c).value;
      var r := AnalyzeQuery(right, w.scope, c).value;
      WholeMerge(l.nodes, l.used, l.bases, r.nodes, r.used, r.bases);
    case SelectAll(_, _) =>
    case UnsupportedQuery =>
  }
}
