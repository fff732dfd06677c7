/**
 The lexical prepass of materialization: every rand, rand32 and rand64 node is replaced by the
 next value of the pool, WITH before projection before FROM before JOIN before WHERE.
 */
module SnapshotMaterialize {
  import opened Common
  import opened SnapshotIntegers
  import opened SnapshotAst
  import opened SnapshotAnalyze
  import opened SnapshotPlan

  /** The caller's random values and whether materialization was asked for. */
  datatype Inputs = Inputs(pool: seq<nat>, materialize: bool)

  /** A rewritten node and the number of pool values used so far. */
  type Step<+T> = Checked<(T, nat)>

  /** One volatile node: its replacement, or why there is none. */
  function Draw(wide: bool, k: nat, x: Inputs): Step<Expr>
  {
    if !x.materialize then Err(Residual)
    else if k >= |x.pool| then Err(Materialization)
    else if !wide && x.pool[k] > 0xFFFF_FFFF then Err(Materialization)
    else Ok((NumberNode(x.pool[k]), k + 1))
  }

  function MatExpr(e: Expr, k: nat, x: Inputs): Step<Expr>
    decreases e
  {
    match e
    case Rand(wide) => Draw(wide, k, x)
    case Paren(a) => var (b, n) :- MatExpr(a, k, x); Ok((Paren(b), n))
    case Aliased(a, id) => var (b, n) :- MatExpr(a, k, x); Ok((Aliased(b, id), n))
    case Neg(a) => var (b, n) :- MatExpr(a, k, x); Ok((Neg(b), n))
    case Not(a) => var (b, n) :- MatExpr(a, k, x); Ok((Not(b), n))
    case Cast(a, t) => var (b, n) :- MatExpr(a, k, x); Ok((Cast(b, t), n))
    case Scalar(q) => var (r, n) :- MatQuery(q, k, x); Ok((Scalar(r), n))
    case Binary(op, l, r) =>
      var (a, n) :- MatExpr(l, k, x);
      var (b, m) :- MatExpr(r, n, x);
      Ok((Binary(op, a, b), m))
    case In(a, q) =>
      var (b, n) :- MatExpr(a, k, x);
      var (r, m) :- MatQuery(q, n, x);
      Ok((In(b, r), m))
    case _ => Ok((e, k))
  }

  function MatExprs(es: seq<Expr>, k: nat, x: Inputs): Step<seq<Expr>>
    decreases es
  {
    if es == [] then Ok(([], k))
    else
      var (a, n) :- MatExpr(es[0], k, x);
      var (rest, m) :- MatExprs(es[1..], n, x);
      Ok(([a] + rest, m))
  }

  function MatRel(r: Rel, k: nat, x: Inputs): Step<Rel>
    decreases r
  {
    match r
    case Derived(q, alias) => var (s, n) :- MatQuery(q, k, x); Ok((Derived(s, alias), n))
    case _ => Ok((r, k))
  }

  function MatFrom(from: Option<Rel>, k: nat, x: Inputs): Step<Option<Rel>>
    decreases from
  {
    match from
    case None => Ok((None, k))
    case Some(r) => var (s, n) :- MatRel(r, k, x); Ok((Some(s), n))
  }

  function MatFilter(filter: Option<Expr>, k: nat, x: Inputs): Step<Option<Expr>>
    decreases filter
  {
    match filter
    case None => Ok((None, k))
    case Some(e) => var (f, n) :- MatExpr(e, k, x); Ok((Some(f), n))
  }

  function MatJoin(j: Join, k: nat, x: Inputs): Step<Join>
    decreases j
  {
    var (r, n) :- MatRel(j.rel, k, x);
    var (on, m) :- MatExpr(j.on, n, x);
    Ok((Join(r, on, j.allInner), m))
  }

  function MatJoins(js: seq<Join>, k: nat, x: Inputs): Step<seq<Join>>
    decreases js
  {
    if js == [] then Ok(([], k))
    else
      var (a, n) :- MatJoin(js[0], k, x);
      var (rest, m) :- MatJoins(js[1..], n, x);
      Ok(([a] + rest, m))
  }

  function MatCte(c: Cte, k: nat, x: Inputs): Step<Cte>
    decreases c
  {
    var (q, n) :- MatQuery(c.query, k, x);
    Ok((c.(query := q), n))
  }

  function MatCtes(cs: seq<Cte>, k: nat, x: Inputs): Step<seq<Cte>>
    decreases cs
  {
    if cs == [] then Ok(([], k))
    else
      var (a, n) :- MatCte(cs[0], k, x);
      var (rest, m) :- MatCtes(cs[1..], n, x);
      Ok(([a] + rest, m))
  }

  function MatQuery(q: Query, k: nat, x: Inputs): Step<Query>
    decreases q
  {
    match q
    case Select(ctes, items, from, joins, filter) =>
      var (c, n1) :- MatCtes(ctes, k, x);
      var (i, n2) :- MatExprs(items, n1, x);
      var (f, n3) :- MatFrom(from, n2, x);
      var (j, n4) :- MatJoins(joins, n3, x);
      var (w, n5) :- MatFilter(filter, n4, x);
      Ok((Select(c, i, f, j, w), n5))
    case Union(ctes, l, r) =>
      var (c, n1) :- MatCtes(ctes, k, x);
      var (a, n2) :- MatQuery(l, n1, x);
      var (b, n3) :- MatQuery(r, n2, x);
      Ok((Union(c, a, b), n3))
    case SelectAll(ctes, rel) =>
      var (c, n1) :- MatCtes(ctes, k, x);
      var (a, n2) :- MatRel(rel, n1, x);
      Ok((SelectAll(c, a), n2))
    case UnsupportedQuery => Ok((q, k))
  }

  /** What the lexical walk meets: a numeric literal, or a volatile node, true for a 64-bit one. */
  datatype Leaf = Literal(text: string) | Draw64(wide: bool)

  function ExprLeaves(e: Expr): seq<Leaf>
    decreases e
  {
    match e
    case Number(text) => [Leaf.Literal(text)]
    case Rand(wide) => [Draw64(wide)]
    case Paren(a) => ExprLeaves(a)
    case Aliased(a, _) => ExprLeaves(a)
    case Neg(a) => ExprLeaves(a)
    case Not(a) => ExprLeaves(a)
    case Cast(a, _) => ExprLeaves(a)
    case Scalar(q) => QueryLeaves(q)
    case Binary(_, l, r) => ExprLeaves(l) + ExprLeaves(r)
    case In(a, q) => ExprLeaves(a) + QueryLeaves(q)
    case _ => []
  }

  function ExprsLeaves(es: seq<Expr>): seq<Leaf>
    decreases es
  {
    if es == [] then [] else ExprLeaves(es[0]) + ExprsLeaves(es[1..])
  }

  function RelLeaves(r: Rel): seq<Leaf>
    decreases r
  {
    match r
    case Derived(q, _) => QueryLeaves(q)
    case _ => []
  }

  function FromLeaves(from: Option<Rel>): seq<Leaf>
    decreases from
  {
    match from
    case None => []
    case Some(r) => RelLeaves(r)
  }

  function FilterLeaves(filter: Option<Expr>): seq<Leaf>
    decreases filter
  {
    match filter
    case None => []
    case Some(e) => ExprLeaves(e)
  }

  function JoinLeaves(j: Join): seq<Leaf>
    decreases j
  {
    RelLeaves(j.rel) + ExprLeaves(j.on)
  }

  function JoinsLeaves(js: seq<Join>): seq<Leaf>
    decreases js
  {
    if js == [] then [] else JoinLeaves(js[0]) + JoinsLeaves(js[1..])
  }

  function CteLeaves(c: Cte): seq<Leaf>
    decreases c
  {
    QueryLeaves(c.query)
  }

  function CtesLeaves(cs: seq<Cte>): seq<Leaf>
    decreases cs
  {
    if cs == [] then [] else CteLeaves(cs[0]) + CtesLeaves(cs[1..])
  }

  function QueryLeaves(q: Query): seq<Leaf>
    decreases q
  {
    match q
    case Select(ctes, items, from, joins, filter) =>
      CtesLeaves(ctes) + ExprsLeaves(items) + FromLeaves(from) + JoinsLeaves(joins) + FilterLeaves(filter)
    case Union(ctes, l, r) => CtesLeaves(ctes) + QueryLeaves(l) + QueryLeaves(r)
    case SelectAll(ctes, rel) => CtesLeaves(ctes) + RelLeaves(rel)
    case UnsupportedQuery => []
  }

  /** The left-to-right filling of a list of leaves from the pool. */
  function Fill(leaves: seq<Leaf>, k: nat, x: Inputs): Step<seq<Leaf>>
  {
    if leaves == [] then Ok(([], k))
    else
      match leaves[0]
      case Literal(_) =>
        var (rest, n) :- Fill(leaves[1..], k, x);
        Ok(([leaves[0]] + rest, n))
      case Draw64(wide) =>
        if !x.materialize then Err(Residual)
        else if k >= |x.pool| || (!wide && x.pool[k] > 0xFFFF_FFFF) then Err(Materialization)
        else
          var (rest, n) :- Fill(leaves[1..], k + 1, x);
          Ok(([Leaf.Literal(DigitString(x.pool[k]))] + rest, n))
  }

  /** A tree step does to the leaves what Fill does: the same error, or the same values used and leaves left. */
  predicate Agrees<T>(r: Step<T>, left: seq<Leaf>, f: Step<seq<Leaf>>)
  {
    if f.Err? then r == Err(f.error) else r.Ok? && r.value.1 == f.value.1 && left == f.value.0
  }

  lemma {:induction false} FillConcat(a: seq<Leaf>, b: seq<Leaf>, k: nat, x: Inputs)
    ensures Fill(a + b, k, x) ==
            (var l := Fill(a, k, x);
             if l.Err? then l
             else
               var r := Fill(b, l.value.1, x);
               if r.Err? then r else Ok((l.value.0 + r.value.0, r.value.1)))
  {
    if a == [] {
      assert a + b == b;
      var r := Fill(b, k, x);
      if r.Ok? {
        assert [] + r.value.0 == r.value.0;
      }
    } else {
      assert (a + b)[0] == a[0] && (a + b)[1..] == a[1..] + b;
      FillConcat(a[1..], b, k, x);
      FillConcat(a[1..], b, k + 1, x);
      forall n, h: Leaf | n == k || n == k + 1
        ensures var l := Fill(a[1..], n, x);
                l.Ok? && Fill(b, l.value.1, x).Ok? ==>
                  [h] + (l.value.0 + Fill(b, l.value.1, x).value.0) == [h] + l.value.0 + Fill(b, l.value.1, x).value.0
      {
      }
    }
  }

  lemma NothingFilled(k: nat, x: Inputs)
    ensures Fill([], k, x) == Ok(([], k))
  {
  }

  lemma DrawFilled(wide: bool, k: nat, x: Inputs)
    ensures var r := Draw(wide, k, x);
            Agrees(r, if r.Ok? then ExprLeaves(r.value.0) else [], Fill([Draw64(wide)], k, x))
  {
    if Draw(wide, k, x).Ok? {
      assert [Draw64(wide)][1..] == [];
    }
  }

  lemma {:induction false} ExprFilled(e: Expr, k: nat, x: Inputs)
    ensures var r := MatExpr(e, k, x);
            Agrees(r, if r.Ok? then ExprLeaves(r.value.0) else [], Fill(ExprLeaves(e), k, x))
    decreases e
  {
    hide MatQuery, QueryLeaves, Fill;
    NothingFilled(k, x);
    match e
    case Number(_) => LiteralFilled(e, k, x);
    case Rand(wide) => DrawFilled(wide, k, x);
    case Paren(a) => ExprFilled(a, k, x);
    case Aliased(a, _) => ExprFilled(a, k, x);
    case Neg(a) => ExprFilled(a, k, x);
    case Not(a) => ExprFilled(a, k, x);
    case Cast(a, _) => ExprFilled(a, k, x);
    case Scalar(q) => QueryFilled(q, k, x);
    case Binary(_, l, r) =>
      ExprFilled(l, k, x);
      FillConcat(ExprLeaves(l), ExprLeaves(r), k, x);
      var a := MatExpr(l, k, x);
      if a.Ok? {
        ExprFilled(r, a.value.1, x);
      }
    case In(y, q) =>
      ExprFilled(y, k, x);
      FillConcat(ExprLeaves(y), QueryLeaves(q), k, x);
      var a := MatExpr(y, k, x);
      if a.Ok? {
        QueryFilled(q, a.value.1, x);
      }
    case _ =>
  }

  lemma LiteralFilled(e: Expr, k: nat, x: Inputs)
    requires e.Number?
    ensures Fill(ExprLeaves(e), k, x) == Ok((ExprLeaves(e), k))
  {
    assert ExprLeaves(e)[1..] == [];
    NothingFilled(k, x);
    assert [ExprLeaves(e)[0]] + [] == ExprLeaves(e);
  }

  lemma {:induction false} ExprsFilled(es: seq<Expr>, k: nat, x: Inputs)
    ensures var r := MatExprs(es, k, x);
            Agrees(r, if r.Ok? then ExprsLeaves(r.value.0) else [], Fill(ExprsLeaves(es), k, x))
    decreases es
  {
    hide MatExpr, ExprLeaves, Fill;
    NothingFilled(k, x);
    if es != [] {
      ExprFilled(es[0], k, x);
      FillConcat(ExprLeaves(es[0]), ExprsLeaves(es[1..]), k, x);
      var a := MatExpr(es[0], k, x);
      if a.Ok? {
        ExprsFilled(es[1..], a.value.1, x);
      }
    }
  }

  lemma {:induction false} RelFilled(r: Rel, k: nat, x: Inputs)
    ensures var s := MatRel(r, k, x);
            Agrees(s, if s.Ok? then RelLeaves(s.value.0) else [], Fill(RelLeaves(r), k, x))
    decreases r
  {
    hide MatQuery, QueryLeaves, Fill;
    NothingFilled(k, x);
    match r
    case Derived(q, _) => QueryFilled(q, k, x);
    case _ =>
  }

  lemma {:induction false} FromFilled(from: Option<Rel>, k: nat, x: Inputs)
    ensures var r := MatFrom(from, k, x);
            Agrees(r, if r.Ok? then FromLeaves(r.value.0) else [], Fill(FromLeaves(from), k, x))
    decreases from
  {
    hide MatRel, RelLeaves, Fill;
    NothingFilled(k, x);
    match from
    case None =>
    case Some(r) => RelFilled(r, k, x);
  }

  lemma {:induction false} FilterFilled(filter: Option<Expr>, k: nat, x: Inputs)
    ensures var r := MatFilter(filter, k, x);
            Agrees(r, if r.Ok? then FilterLeaves(r.value.0) else [], Fill(FilterLeaves(filter), k, x))
    decreases filter
  {
    hide MatExpr, ExprLeaves, Fill;
    NothingFilled(k, x);
    match filter
    case None =>
    case Some(e) => ExprFilled(e, k, x);
  }

  lemma {:induction false} JoinFilled(j: Join, k: nat, x: Inputs)
    ensures var r := MatJoin(j, k, x);
            Agrees(r, if r.Ok? then JoinLeaves(r.value.0) else [], Fill(JoinLeaves(j), k, x))
    decreases j
  {
    hide MatRel, RelLeaves, MatExpr, ExprLeaves, Fill;
    NothingFilled(k, x);
    RelFilled(j.rel, k, x);
    FillConcat(RelLeaves(j.rel), ExprLeaves(j.on), k, x);
    var a := MatRel(j.rel, k, x);
    if a.Ok? {
      ExprFilled(j.on, a.value.1, x);
    }
  }

  lemma {:induction false} JoinsFilled(js: seq<Join>, k: nat, x: Inputs)
    ensures var r := MatJoins(js, k, x);
            Agrees(r, if r.Ok? then JoinsLeaves(r.value.0) else [], Fill(JoinsLeaves(js), k, x))
    decreases js
  {
    hide MatJoin, JoinLeaves, Fill;
    NothingFilled(k, x);
    if js != [] {
      JoinFilled(js[0], k, x);
      FillConcat(JoinLeaves(js[0]), JoinsLeaves(js[1..]), k, x);
      var a := MatJoin(js[0], k, x);
      if a.Ok? {
        JoinsFilled(js[1..], a.value.1, x);
      }
    }
  }

  lemma {:induction false} CteFilled(c: Cte, k: nat, x: Inputs)
    ensures var r := MatCte(c, k, x);
            Agrees(r, if r.Ok? then CteLeaves(r.value.0) else [], Fill(CteLeaves(c), k, x))
    decreases c
  {
    hide MatQuery, QueryLeaves, Fill;
    NothingFilled(k, x);
    QueryFilled(c.query, k, x);
  }

  lemma {:induction false} CtesFilled(cs: seq<Cte>, k: nat, x: Inputs)
    ensures var r := MatCtes(cs, k, x);
            Agrees(r, if r.Ok? then CtesLeaves(r.value.0) else [], Fill(CtesLeaves(cs), k, x))
    decreases cs
  {
    hide MatCte, CteLeaves, Fill;
    NothingFilled(k, x);
    if cs != [] {
      CteFilled(cs[0], k, x);
      FillConcat(CteLeaves(cs[0]), CtesLeaves(cs[1..]), k, x);
      var a := MatCte(cs[0], k, x);
      if a.Ok? {
        CtesFilled(cs[1..], a.value.1, x);
      }
    }
  }

  /** The walk over a query is the left-to-right filling of its leaves. */
  lemma {:induction false} QueryFilled(q: Query, k: nat, x: Inputs)
    ensures var r := MatQuery(q, k, x);
            Agrees(r, if r.Ok? then QueryLeaves(r.value.0) else [], Fill(QueryLeaves(q), k, x))
    decreases q
  {
    hide MatCtes, CtesLeaves, MatExprs, ExprsLeaves, MatFrom, FromLeaves, MatJoins, JoinsLeaves, MatFilter, FilterLeaves, Fill;
    NothingFilled(k, x);
    match q
    case Select(ctes, items, from, joins, filter) =>
      var d1, d2, d3, d4, d5 := CtesLeaves(ctes), ExprsLeaves(items), FromLeaves(from), JoinsLeaves(joins), FilterLeaves(filter);
      FillConcat(d1, d2, k, x);
      FillConcat(d1 + d2, d3, k, x);
      FillConcat(d1 + d2 + d3, d4, k, x);
      FillConcat(d1 + d2 + d3 + d4, d5, k, x);
      CtesFilled(ctes, k, x);
      var a := MatCtes(ctes, k, x);
      if a.Ok? {
        ExprsFilled(items, a.value.1, x);
        var b := MatExprs(items, a.value.1, x);
        if b.Ok? {
          FromFilled(from, b.value.1, x);
          var c := MatFrom(from, b.value.1, x);
          if c.Ok? {
            JoinsFilled(joins, c.value.1, x);
            var d := MatJoins(joins, c.value.1, x);
            if d.Ok? {
              FilterFilled(filter, d.value.1, x);
            }
          }
        }
      }
    case Union(ctes, l, r) =>
      FillConcat(CtesLeaves(ctes), QueryLeaves(l), k, x);
      FillConcat(CtesLeaves(ctes) + QueryLeaves(l), QueryLeaves(r), k, x);
      CtesFilled(ctes, k, x);
      var a := MatCtes(ctes, k, x);
      if a.Ok? {
        QueryFilled(l, a.value.1, x);
        var b := MatQuery(l, a.value.1, x);
        if b.Ok? {
          QueryFilled(r, b.value.1, x);
        }
      }
    case SelectAll(ctes, rel) =>
      FillConcat(CtesLeaves(ctes), RelLeaves(rel), k, x);
      CtesFilled(ctes, k, x);
      var a := MatCtes(ctes, k, x);
      if a.Ok? {
        RelFilled(rel, a.value.1, x);
      }
    case UnsupportedQuery =>
  }

  /** The volatile leaves before position i. */
  function DrawsIn(leaves: seq<Leaf>): nat
  {
    if leaves == [] then 0 else DrawsIn(leaves[..|leaves| - 1]) + (if leaves[|leaves| - 1].Draw64? then 1 else 0)
  }

  /** The pool has an admissible value for the leaf at i. */
  predicate Fed(leaves: seq<Leaf>, i: nat, k: nat, x: Inputs)
    requires i < |leaves|
  {
    leaves[i].Draw64? ==>
      var n := k + DrawsIn(leaves[..i]);
      x.materialize && n < |x.pool| && (leaves[i].wide || x.pool[n] <= 0xFFFF_FFFF)
  }

  /** The leaf at i after filling: the n-th volatile leaf takes the n-th value, a literal stays. */
  function FilledLeaf(leaves: seq<Leaf>, i: nat, k: nat, x: Inputs): Leaf
    requires i < |leaves| && Fed(leaves, i, k, x)
  {
    if leaves[i].Draw64? then Leaf.Literal(DigitString(x.pool[k + DrawsIn(leaves[..i])])) else leaves[i]
  }

  /**
   Filling succeeds exactly when the pool feeds every volatile leaf; then the n-th volatile leaf in
   lexical order holds the n-th value, nothing else changes, and one value per volatile leaf is used.
   */
  lemma {:induction false} FillExact(leaves: seq<Leaf>, k: nat, x: Inputs)
    ensures Fill(leaves, k, x).Ok? <==> forall i :: 0 <= i < |leaves| ==> Fed(leaves, i, k, x)
    ensures Fill(leaves, k, x).Ok? ==>
      var (out, n) := Fill(leaves, k, x).value;
      n == k + DrawsIn(leaves) && |out| == |leaves| && forall i :: 0 <= i < |leaves| ==> out[i] == FilledLeaf(leaves, i, k, x)
    decreases |leaves|
  {
    hide DigitString, Fill;
    if leaves == [] {
      NothingFilled(k, x);
    } else {
      var init, last := leaves[..|leaves| - 1], leaves[|leaves| - 1];
      assert leaves == init + [last];
      FillExact(init, k, x);
      FillConcat(init, [last], k, x);
      PrefixFed(leaves, k, x);
      assert leaves[..|init|] == init;
      if Fill(init, k, x).Ok? {
        FillLast(last, k + DrawsIn(init), x);
        assert Fed(leaves, |init|, k, x) <==> Fill([last], k + DrawsIn(init), x).Ok?;
      } else {
        var i :| 0 <= i < |init| && !Fed(init, i, k, x);
        assert !Fed(leaves, i, k, x);
      }
    }
  }

  /** The leaves before the last are fed and filled as they are without it. */
  lemma PrefixFed(leaves: seq<Leaf>, k: nat, x: Inputs)
    requires leaves != []
    ensures var init := leaves[..|leaves| - 1];
      forall i :: 0 <= i < |init| ==> leaves[..i] == init[..i] && (Fed(leaves, i, k, x) <==> Fed(init, i, k, x))
  {
    var init := leaves[..|leaves| - 1];
    forall i | 0 <= i < |init|
      ensures leaves[..i] == init[..i] && leaves[i] == init[i]
    {
    }
  }

  lemma FillLast(last: Leaf, n: nat, x: Inputs)
    ensures var r := Fill([last], n, x);
      if last.Draw64? then
        && (r.Ok? <==> x.materialize && n < |x.pool| && (last.wide || x.pool[n] <= 0xFFFF_FFFF))
        && (r.Ok? ==> r.value == ([Leaf.Literal(DigitString(x.pool[n]))], n + 1))
      else r == Ok(([last], n))
  {
    hide DigitString;
    var none: seq<Leaf> := [];
    assert [last][1..] == none;
    NothingFilled(n, x);
    NothingFilled(n + 1, x);
    match last
    case Literal(_) =>
      assert [last] + none == [last];
    case Draw64(_) =>
      if n < |x.pool| {
        var drawn := [Leaf.Literal(DigitString(x.pool[n]))];
        assert drawn + none == drawn;
      }
  }

  /** AnalyzeSnapshot: the prepass, the analysis, and the check that the whole pool was used. */
  function AnalyzeSnapshot(stmt: Insert, c: Context, x: Inputs): Checked<Plan>
  {
    var (ctes, n) :- MatCtes(stmt.ctes, 0, x);
    var (query, used) :- MatQuery(stmt.query, n, x);
    var p :- AnalyzeInsert(Insert(stmt.target, stmt.columns, ctes, query), c);
    if used != |x.pool| then Err(Materialization) else Ok(p)
  }

  /**
   An accepted statement used its whole pool: each value once, in lexical order, WITH first; and the
   statement that was analyzed has no volatile node, so analyzing it again draws nothing.
   */
  lemma PoolUsedExactly(stmt: Insert, c: Context, x: Inputs)
    requires AnalyzeSnapshot(stmt, c, x).Ok?
    ensures var leaves := CtesLeaves(stmt.ctes) + QueryLeaves(stmt.query);
            var ctes := MatCtes(stmt.ctes, 0, x).value;
            var query := MatQuery(stmt.query, ctes.1, x).value;
            var out := CtesLeaves(ctes.0) + QueryLeaves(query.0);
            && DrawsIn(leaves) == |x.pool|
            && |out| == |leaves|
            && (forall i :: 0 <= i < |leaves| ==> Fed(leaves, i, 0, x) && out[i] == FilledLeaf(leaves, i, 0, x))
            && forall i :: 0 <= i < |out| ==> out[i].Literal?
  {
    hide AnalyzeInsert, MatCtes, MatQuery, CtesLeaves, QueryLeaves, Fill, FilledLeaf;
    var leaves := CtesLeaves(stmt.ctes) + QueryLeaves(stmt.query);
    CtesFilled(stmt.ctes, 0, x);
    QueryFilled(stmt.query, MatCtes(stmt.ctes, 0, x).value.1, x);
    FillConcat(CtesLeaves(stmt.ctes), QueryLeaves(stmt.query), 0, x);
    FillExact(leaves, 0, x);
    FilledLiteral(leaves, 0, x);
  }

  lemma FilledLiteral(leaves: seq<Leaf>, k: nat, x: Inputs)
    requires forall i :: 0 <= i < |leaves| ==> Fed(leaves, i, k, x)
    ensures forall i :: 0 <= i < |leaves| ==> FilledLeaf(leaves, i, k, x).Literal?
  {
  }
}
