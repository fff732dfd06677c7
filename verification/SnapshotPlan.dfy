/**
 The INSERT … SELECT plan: the target checks and output checks around the analyzed query, the
 read closure, and Prepare; with the main theorems about the two together.
 */
module SnapshotPlan {
  import opened Common
  import opened SnapshotIntegers
  import opened SnapshotAst
  import opened SnapshotEval
  import opened SnapshotAnalyze
  import opened SnapshotPrepare
  import opened SnapshotMeaning
  import opened SnapshotTyping
  import opened SnapshotClosure
  import opened SnapshotOutput

  datatype Insert = Insert(target: Rel, columns: seq<Ident>, ctes: seq<Cte>, query: Query)

  datatype Plan = Plan(target: CatalogTable, names: seq<string>, outs: seq<Output>, ctes: seq<Cte>, info: QueryInfo, readIds: seq<string>) {
    /** Only the projection of a single SELECT is cast. */
    predicate Single() {
      info.leaves == 1
    }
  }

  predicate IsTimezone(s: string)
  {
    s != "" && forall i :: 0 <= i < |s| ==>
      'a' <= s[i] <= 'z' || 'A' <= s[i] <= 'Z' || '0' <= s[i] <= '9' || s[i] in "/_+-"
  }

  predicate HasPrefix(s: string, p: string)
  {
    |s| >= |p| && s[..|p|] == p
  }

  predicate HasSuffix(s: string, p: string)
  {
    |s| >= |p| && s[|s| - |p|..] == p
  }

  /** Each slice snapshotTemporalType takes of a type's text is one the text has. */
  predicate SlicesExist(t: string)
  {
    if HasPrefix(t, "DateTime('") && HasSuffix(t, "')") then 10 <= |t| - 2
    else HasPrefix(t, "DateTime64(") && HasSuffix(t, ")") ==> 11 <= |t| - 1
  }

  /** One text has prefix and suffix overlapping: on that one the code slices out of range. */
  lemma SlicesExistExactly(t: string)
    ensures SlicesExist(t) <==> t != "DateTime(')"
  {
    var clash := "DateTime(')";
    assert HasPrefix(clash, "DateTime('") && HasSuffix(clash, "')") by {
      assert clash[..10] == "DateTime('" && clash[9..] == "')";
    }
    if HasPrefix(t, "DateTime('") && HasSuffix(t, "')") {
      assert t[8] == t[..10][8] && t[|t| - 2] == t[|t| - 2..][0] && t[|t| - 1] == t[|t| - 2..][1];
      assert |t| == 11 ==> t == t[..10] + [t[|t| - 1]];
    } else if HasPrefix(t, "DateTime64(") && HasSuffix(t, ")") {
      assert t[10] == t[..11][10] && t[|t| - 1] == t[|t| - 1..][0];
    }
  }

  /** snapshotTemporalType: DateTime with a zone, DateTime64 with a digit and perhaps a zone. */
  predicate IsTemporal(t: string)
  {
    SlicesExist(t) && (
      if HasPrefix(t, "DateTime('") && HasSuffix(t, "')") then IsTimezone(t[10..|t| - 2])
      else if !(HasPrefix(t, "DateTime64(") && HasSuffix(t, ")")) then false
      else
        var s := t[11..|t| - 1];
        |s| >= 1 && '0' <= s[0] <= '9' &&
        (|s| == 1 ||
         (|s| >= 5 && s[1..3] == ", " && s[3] == '\'' && s[|s| - 1] == '\'' && IsTimezone(s[4..|s| - 1]))))
  }

  /** snapshotColumnType. */
  predicate IsColumnType(t: Type)
  {
    IsInteger(t) || (t.Named? &&
      (t.name in {"String", "Bool", "Float32", "Float64", "Date", "DateTime", "FixedString(32)"} || IsTemporal(t.name)))
  }

  predicate IsProfileType(t: Type)
  {
    IsColumnType(t) ||
    (t.Named? && (HasPrefix(t.name, "FixedString(") || HasPrefix(t.name, "DateTime(") || HasPrefix(t.name, "DateTime64(")))
  }

  /** eligibleSnapshotTable, from the first column on. */
  function Eligible(columns: seq<CatalogColumn>, types: bool, seen: set<string>): Checked<()>
  {
    if columns == [] then Ok(())
    else
      var c := columns[0];
      if !c.ordinary then Err(Generation)
      else if c.name == "_hg_row_id" then Err(Reserved)
      else if c.name == "" || c.name in seen then Err(Target)
      else if types && !IsColumnType(c.typ) then Err(ColumnType)
      else Eligible(columns[1..], types, seen + {c.name})
  }

  /** base: the catalog entry a table node names. */
  function Base(r: Rel, c: Context): Checked<CatalogTable>
  {
    match r
    case Table(_, schema, name, _, _) =>
      var n :- CheckIdent(name);
      var s :- CheckOptionalIdent(schema);
      var key := (if schema.None? then c.database else s, n);
      if key in c.catalog then Ok(c.catalog[key]) else Err(Catalog)
    case _ => Err(Syntax)
  }

  function CheckIdents(ids: seq<Ident>): (r: Checked<seq<string>>)
    ensures r.Ok? ==> |r.value| == |ids|
  {
    if ids == [] then Ok([])
    else
      var n :- CheckIdent(ids[0]);
      var rest :- CheckIdents(ids[1..]);
      Ok([n] + rest)
  }

  function ColumnNames(columns: seq<CatalogColumn>): (r: seq<string>)
    ensures |r| == |columns|
    ensures forall i :: 0 <= i < |r| ==> r[i] == columns[i].name
  {
    if columns == [] then [] else [columns[0].name] + ColumnNames(columns[1..])
  }

  /** The positions at which a name is listed. */
  function Positions(names: seq<string>, name: string): (r: seq<nat>)
    ensures forall k :: 0 <= k < |r| ==> r[k] < |names| && names[r[k]] == name
    ensures forall i :: 0 <= i < |names| && names[i] == name ==> i in r
  {
    if names == [] then []
    else
      var n := |names| - 1;
      Positions(names[..n], name) + if names[n] == name then [n] else []
  }

  /** For each target column, the one position of the insert list that names it. */
  function OrderOf(columns: seq<CatalogColumn>, names: seq<string>, seen: set<string>): (r: Checked<seq<nat>>)
    ensures r.Ok? ==> |r.value| == |columns|
    ensures r.Ok? ==> forall i :: 0 <= i < |columns| ==>
      r.value[i] < |names| && Positions(names, columns[i].name) == [r.value[i]] && columns[i].name !in seen
    ensures r.Ok? ==> forall i, j :: 0 <= i < j < |columns| ==> columns[i].name != columns[j].name
  {
    if columns == [] then Ok([])
    else
      var p := Positions(names, columns[0].name);
      if |p| != 1 || columns[0].name in seen then Err(Target)
      else
        var rest :- OrderOf(columns[1..], names, seen + {columns[0].name});
        Ok([p[0]] + rest)
  }

  /** checkSnapshotOutput. */
  function CheckOutput(v: Col, t: Type, direct: bool): Checked<()>
  {
    if v.literal.Some? && !v.nullable && direct then
      if !IsColumnType(t) then Err(ColumnType)
      else if !IsInteger(t) then Err(OutputType)
      else if !InRange(v.literal.value, t) then Err(Range)
      else Ok(())
    else if v.nullable then
      if v.scalar && direct then
        if v.typ != t then Err(if v.literal.Some? then OutputType else ScalarOutput)
        else if !IsInteger(t) then Err(ScalarOutput)
        else Ok(())
      else Err(ScalarOutput)
    else if v.typ != t then
      if v.typ == Named("String") && IsInteger(t) && v.literalNode then Err(Literal) else Err(OutputType)
    else Ok(())
  }

  function CheckOutputs(outs: seq<Output>, direct: bool): (r: Checked<()>)
    ensures r.Ok? ==> forall k :: 0 <= k < |outs| ==> CheckOutput(outs[k].col, outs[k].target, direct).Ok?
  {
    if outs == [] then Ok(())
    else
      var first :- CheckOutput(outs[0].col, outs[0].target, direct);
      CheckOutputs(outs[1..], direct)
  }

  function OutputsFor(columns: seq<CatalogColumn>, order: seq<nat>, cols: seq<Col>): (r: seq<Output>)
    requires |order| == |columns| && forall i :: 0 <= i < |order| ==> order[i] < |cols|
    ensures |r| == |columns|
    ensures forall i :: 0 <= i < |r| ==> r[i] == Output(order[i], cols[order[i]], columns[i].typ)
  {
    if columns == [] then []
    else [Output(order[0], cols[order[0]], columns[0].typ)] + OutputsFor(columns[1..], order[1..], cols)
  }

  function AddId(ids: seq<string>, id: string): seq<string>
  {
    if ids == [] then [id]
    else if ids[0] == id then ids
    else if Before(id, ids[0]) then [id] + ids
    else [ids[0]] + AddId(ids[1..], id)
  }

  /** The ids of the bound tables, sorted, each once. */
  function SortedIds(nodes: seq<Bound>): seq<string>
  {
    if nodes == [] then [] else AddId(SortedIds(nodes[1..]), nodes[0].tableId)
  }

  predicate EligibleBases(bases: set<string>, c: Context)
  {
    forall key :: key in c.catalog && c.catalog[key].id in bases ==> Eligible(c.catalog[key].columns, true, {}).Ok?
  }

  /** The resolved target, the insert list and the position that feeds each target column. */
  datatype TargetInfo = TargetInfo(table: CatalogTable, names: seq<string>, order: seq<nat>)

  function AnalyzeTarget(stmt: Insert, c: Context): (r: Checked<TargetInfo>)
    ensures r.Ok? ==> var t := r.value;
      |t.order| == |t.table.columns| == |t.names| && OrderOf(t.table.columns, t.names, {}) == Ok(t.order)
  {
    var target :- Base(stmt.target, c);
    if target.columns == [] then Err(Target)
    else
      var ordinary :- Eligible(target.columns, false, {});
      var listed :- CheckIdents(stmt.columns);
      var names := if listed == [] then ColumnNames(target.columns) else listed;
      if |names| != |target.columns| then Err(Target)
      else
        var order :- OrderOf(target.columns, names, {});
        Ok(TargetInfo(target, names, order))
  }

  /** The checks that follow the analysis of the query. */
  function Finish(t: TargetInfo, ctes: seq<Cte>, q: QueryInfo, c: Context): Checked<Plan>
    requires |t.order| == |t.table.columns| == |t.names| && OrderOf(t.table.columns, t.names, {}) == Ok(t.order)
  {
    if |q.cols| != |t.names| then Err(Target)
    else if exists i :: 0 <= i < |t.table.columns| && !IsProfileType(t.table.columns[i].typ) then Err(ColumnType)
    else
      var outs := OutputsFor(t.table.columns, t.order, q.cols);
      var checked :- CheckOutputs(outs, q.leaves == 1);
      var eligible :- Eligible(t.table.columns, true, {});
      if !EligibleBases(q.bases, c) then Err(ColumnType)
      else Ok(Plan(t.table, t.names, outs, ctes, q, SortedIds(q.nodes)))
  }

  /** AnalyzeSnapshot after materialization. */
  function AnalyzeInsert(stmt: Insert, c: Context): Checked<Plan>
  {
    var t :- AnalyzeTarget(stmt, c);
    var w :- AnalyzeWith(stmt.ctes, map[], {}, c);
    var q :- AnalyzeQuery(stmt.query, w.scope, c);
    Finish(t, w.elab, q, c)
  }

  /** Prepare: refuse a table without a binding, then prune, rename, reorder and hoist. */
  function PrepareSelect(p: Plan, bindings: Bindings): Checked<Query>
  {
    var w := Rewrite(p.info.used, p.info.nodes, bindings);
    if !w.Covered() then Err(Catalog)
    else
      var body := PrepQuery(p.info.elab, w);
      if !LeavesFit(body, p.outs) then Err(Target)
      else Ok(Hoist(PrepCtes(p.ctes, w), Reorder(body, p.outs, p.Single())))
  }

  lemma {:induction false} LeafCount(q: Query, outer: Scope, c: Context)
    requires AnalyzeQuery(q, outer, c).Ok?
    ensures AnalyzeQuery(q, outer, c).value.leaves >= 1
    ensures AnalyzeQuery(q, outer, c).value.leaves == 1 <==> q.Select?
  {
    hide AnalyzeSelect, AnalyzeWith;
    match q
    case Union(ctes, left, right) =>
      var w := AnalyzeWith(ctes, outer, {}, c).value;
      LeafCount(left, w.scope, c);
      LeafCount(right, w.scope, c);
    case _ =>
  }

  predicate Injective(s: seq<nat>)
  {
    forall i, j :: 0 <= i < j < |s| ==> s[i] != s[j]
  }

  /** The numbers below n. */
  function Below(n: nat): (r: set<nat>)
    ensures |r| == n && forall i: nat :: i in r <==> i < n
  {
    if n == 0 then {} else Below(n - 1) + {n - 1}
  }

  function Elements(s: seq<nat>): (r: set<nat>)
    ensures forall x :: x in r <==> x in s
  {
    if s == [] then {} else Elements(s[..|s| - 1]) + {s[|s| - 1]}
  }

  lemma {:induction false} ElementsSize(s: seq<nat>)
    requires Injective(s)
    ensures |Elements(s)| == |s|
  {
    if s != [] {
      ElementsSize(s[..|s| - 1]);
    }
  }

  lemma {:induction false} SubsetSize(a: set<nat>, b: set<nat>)
    requires a <= b
    ensures |a| <= |b|
  {
    if a != {} {
      var x :| x in a;
      SubsetSize(a - {x}, b - {x});
    }
  }

  /** An injective sequence of n numbers below n takes every one of them. */
  lemma InjectiveCovers(s: seq<nat>, n: nat, p: nat)
    requires |s| == n && Injective(s) && p < n
    requires forall i :: 0 <= i < n ==> s[i] < n
    ensures p in s
  {
    if p !in s {
      ElementsSize(s);
      SubsetSize(Elements(s), Below(n) - {p});
    }
  }

  /** The insert list and the target columns are in bijection: every projection feeds exactly one target column. */
  lemma OrderIsPermutation(columns: seq<CatalogColumn>, names: seq<string>)
    requires OrderOf(columns, names, {}).Ok? && |names| == |columns|
    ensures var order := OrderOf(columns, names, {}).value;
            Injective(order) && forall p :: 0 <= p < |names| ==> p in order
  {
    var order := OrderOf(columns, names, {}).value;
    forall i, j | 0 <= i < j < |order|
      ensures order[i] != order[j]
    {
      assert [order[i]] == Positions(names, columns[i].name) && [order[j]] == Positions(names, columns[j].name);
      assert names[[order[i]][0]] == columns[i].name && names[[order[j]][0]] == columns[j].name;
    }
    forall p | 0 <= p < |names|
      ensures p in order
    {
      InjectiveCovers(order, |names|, p);
    }
  }

  /** The outputs of a finished plan: one per target column, reading every query column once, each checked. */
  lemma FinishParts(t: TargetInfo, ctes: seq<Cte>, q: QueryInfo, c: Context)
    requires |t.order| == |t.table.columns| == |t.names| && OrderOf(t.table.columns, t.names, {}) == Ok(t.order)
    requires Finish(t, ctes, q, c).Ok?
    ensures var p := Finish(t, ctes, q, c).value;
            && p.info == q && p.ctes == ctes && p.readIds == SortedIds(q.nodes)
            && |p.outs| == |p.target.columns| == |q.cols|
            && (forall k :: 0 <= k < |p.outs| ==> p.outs[k].target == p.target.columns[k].typ)
            && (forall k :: 0 <= k < |p.outs| ==> CheckOutput(p.outs[k].col, p.outs[k].target, p.Single()).Ok?)
            && OutputsOf(p.outs, q.cols, true) && Covering(p.outs, |q.cols|)
            && EligibleBases(q.bases, c)
  {
    hide Eligible, CheckOutput, EligibleBases, IsProfileType, OrderOf, SortedIds, Injective, OutputsFor, Covering;
    var p := Finish(t, ctes, q, c).value;
    OrderIsPermutation(t.table.columns, t.names);
    EveryPositionFeeds(p.outs, t.order, |q.cols|);
  }

  /** Outputs at the positions of an order that takes every position cover them all. */
  lemma EveryPositionFeeds(outs: seq<Output>, order: seq<nat>, n: nat)
    requires |outs| == |order| && forall k :: 0 <= k < |outs| ==> outs[k].position == order[k] < n
    requires forall p :: 0 <= p < n ==> p in order
    ensures Covering(outs, n)
  {
    forall p | 0 <= p < n
      ensures Feeds(outs, p)
    {
      assert p in order;
      var k :| 0 <= k < |order| && order[k] == p;
      assert outs[k].position == p;
    }
  }

  /** What a plan holds of its statement. */
  lemma PlanParts(stmt: Insert, c: Context)
    requires AnalyzeInsert(stmt, c).Ok?
    ensures AnalyzeTarget(stmt, c).Ok? && AnalyzeWith(stmt.ctes, map[], {}, c).Ok?
    ensures var w := AnalyzeWith(stmt.ctes, map[], {}, c).value;
            && AnalyzeQuery(stmt.query, w.scope, c).Ok?
            && Finish(AnalyzeTarget(stmt, c).value, w.elab, AnalyzeQuery(stmt.query, w.scope, c).value, c) == AnalyzeInsert(stmt, c)
  {
    hide AnalyzeQuery, AnalyzeWith, AnalyzeTarget, Finish;
  }

  /** A SELECT's aliases do not depend on its WITH. */
  lemma HoistAnnotate(q: Query, ctes: seq<Cte>, env: Env, db: Db)
    requires q.Select?
    ensures forall cols, rows :: Annotate(WithCtes(q, ctes), cols, rows, env, db) == Annotate(q, cols, rows, env, db)
  {
    forall cols, rows
      ensures Annotate(WithCtes(q, ctes), cols, rows, env, db) == Annotate(q, cols, rows, env, db)
    {
      HoistRows(q, ctes, cols, rows, env, db);
    }
  }

  lemma {:induction false} HoistRows(q: Query, ctes: seq<Cte>, cols: seq<QName>, rows: seq<Row>, env: Env, db: Db)
    requires q.Select?
    ensures Annotate(WithCtes(q, ctes), cols, rows, env, db) == Annotate(q, cols, rows, env, db)
    decreases |rows|
  {
    hide ItemAliases, OnAliases, FilterAliases;
    if rows != [] {
      HoistRows(q, ctes, cols, rows[1..], env, db);
      assert SelectAliases(WithCtes(q, ctes), cols, rows[0], env, db) == SelectAliases(q, cols, rows[0], env, db);
    }
  }

  lemma {:induction false} HoistSource(q: Query, ctes: seq<Cte>, k: nat, src: Source, env: Env, db: Db)
    requires q.Select? && k <= |q.joins|
    ensures EvalJoins(WithCtes(q, ctes), k, src, env, db) == EvalJoins(q, k, src, env, db)
    decreases |q.joins| - k
  {
    hide EvalRel, FilterRows, Annotate, Product;
    HoistAnnotate(q, ctes, env, db);
    if k < |q.joins| {
      var n := EvalJoin(q, k, src, env, db);
      assert EvalJoin(WithCtes(q, ctes), k, src, env, db) == n;
      if n.Done? {
        HoistSource(q, ctes, k + 1, n.value, env, db);
      }
    }
  }

  lemma HoistSelect(q: Query, ctes: seq<Cte>, env: Env, db: Db)
    requires q.Select?
    ensures EvalSelect(WithCtes(q, ctes), env, db) == EvalSelect(q, env, db)
  {
    hide EvalJoins, EvalFrom, FilterRows, ProjectRows, SelectAliases;
    HoistAnnotate(q, ctes, env, db);
    var f := EvalFrom(q.from, env, db);
    if f.Done? {
      HoistSource(q, ctes, 0, f.value, env, db);
    }
    assert EvalSource(WithCtes(q, ctes), env, db) == EvalSource(q, env, db);
  }

  lemma {:induction false} TagNames(qual: string, names: seq<string>)
    ensures ColumnNamesOf(Tag(qual, names)) == names
  {
    var cols := Tag(qual, names);
    if names != [] {
      TagNames(qual, names[1..]);
      assert cols[1..] == Tag(qual, names[1..]);
      assert names == [names[0]] + names[1..];
    }
  }

  /** A star over a derived table is the derived query's own result. */
  lemma StarOfDerived(ctes: seq<Cte>, q: Query, alias: Option<Ident>, env: Env, db: Db)
    ensures EvalQuery(SelectAll(ctes, Derived(q, alias)), env, db) == EvalQuery(q, EvalWith(ctes, env, db), db)
  {
    hide EvalSelect, Tag, ColumnNamesOf, EvalWith, EvalQuery;
    var inner := EvalWith(ctes, env, db);
    var t := EvalQuery(q, inner, db);
    StarOver(ctes, Derived(q, alias), env, db);
    assert EvalRel(Derived(q, alias), inner, db) == t;
    if t.Done? {
      TagNames(Qualifier(Derived(q, alias)), t.value.cols);
    }
  }

  lemma StarOver(ctes: seq<Cte>, rel: Rel, env: Env, db: Db)
    ensures var t := EvalRel(rel, EvalWith(ctes, env, db), db);
            EvalQuery(SelectAll(ctes, rel), env, db) ==
            if t.Done? then Done(TableValue(ColumnNamesOf(Tag(Qualifier(rel), t.value.cols)), t.value.rows)) else Fail
  {
    hide EvalWith, EvalRel, Tag, ColumnNamesOf;
  }

  /** Hoisting evaluates the query under the INSERT's CTEs. */
  lemma HoistMeaning(ctes: seq<Cte>, q: Query, env: Env, db: Db)
    requires !q.UnsupportedQuery?
    ensures EvalQuery(Hoist(ctes, q), env, db) == EvalQuery(q, EvalWith(ctes, env, db), db)
  {
    hide EvalSelect, EvalRel;
    if ctes != [] {
      if q.ctes == [] {
        var inner := EvalWith(ctes, env, db);
        assert EvalWith([], inner, db) == inner;
        if q.Select? {
          HoistSelect(q, ctes, inner, db);
        }
      } else {
        StarOfDerived(ctes, q, Some(Ident("snapshot_output", false)), env, db);
      }
    }
  }

  /**
   In the query and every definition it uses: an alias written in an ON condition, when an unqualified column of its
   SELECT names it, passes the shadowing check against the relations joined later too.
   */
  predicate AliasesClear(stmt: Insert, c: Context)
    requires AnalyzeInsert(stmt, c).Ok?
  {
    PlanParts(stmt, c);
    var w := AnalyzeWith(stmt.ctes, map[], {}, c).value;
    AnalyzeQuery(stmt.query, w.scope, c).value.clear
  }

  /** The scratch database the bindings promise: each read table's scratch table is a copy of it. */
  ghost predicate ScratchCopies(p: Plan, c: Context, bindings: Bindings, source: Db, scratch: Db)
  {
    && source.current == c.database
    && forall key :: key in c.catalog && c.catalog[key].id in p.info.bases ==> CopiedTable(key, c, bindings, source, scratch)
  }

  ghost predicate CopiedTable(key: (string, string), c: Context, bindings: Bindings, source: Db, scratch: Db)
    requires key in c.catalog
  {
    var t := c.catalog[key];
    && t.id in bindings && bindings[t.id] in scratch.tables
    && key in source.tables && source.tables[key] == scratch.tables[bindings[t.id]]
    && source.tables[key].cols == ColNames(TableCols(t.columns))
  }

  /** The rows the statement inserts: its query under its WITH, in target order, cast as the plan says. */
  ghost function InsertedRows(stmt: Insert, p: Plan, source: Db): Res<seq<Row>>
  {
    OutputOf(EvalQuery(stmt.query, EvalWith(stmt.ctes, map[], source), source), p.outs, p.Single())
  }

  /** The world of a plan: what it uses is kept, closed and copied. */
  lemma PlanWorld(stmt: Insert, c: Context, p: Plan, bindings: Bindings, source: Db, scratch: Db)
    requires AnalyzeInsert(stmt, c) == Ok(p)
    requires forall id :: id in p.info.bases ==> id in bindings
    requires ScratchCopies(p, c, bindings, source, scratch)
    ensures var m := World(c, Rewrite(p.info.used, p.info.nodes, bindings), source, scratch);
            m.Valid() && m.Live(p.info.nodes, p.info.used)
  {
    hide AnalyzeQuery, AnalyzeWith, AnalyzeTarget, Finish, CopiedTable, AnalyzeInsert;
    PlanParts(stmt, c);
    var w := AnalyzeWith(stmt.ctes, map[], {}, c).value;
    FinishParts(AnalyzeTarget(stmt, c).value, w.elab, AnalyzeQuery(stmt.query, w.scope, c).value, c);
    WholeWith(stmt.ctes, map[], {}, c);
    WholeQuery(stmt.query, w.scope, c);
    var m := World(c, Rewrite(p.info.used, p.info.nodes, bindings), source, scratch);
    forall b | b in p.info.nodes
      ensures b.tableId in bindings
    {
      assert b.tableId in Ids(p.info.nodes);
    }
    forall key | key in c.catalog
      ensures m.Copied(key)
    {
      CopyOfUsed(key, p, c, bindings, source, scratch);
    }
  }

  lemma CopyOfUsed(key: (string, string), p: Plan, c: Context, bindings: Bindings, source: Db, scratch: Db)
    requires key in c.catalog && Ids(p.info.nodes) == p.info.bases
    requires forall b :: b in p.info.nodes ==> b.tableId in bindings
    requires ScratchCopies(p, c, bindings, source, scratch)
    ensures World(c, Rewrite(p.info.used, p.info.nodes, bindings), source, scratch).Copied(key)
  {
    var t := c.catalog[key];
    if exists b :: b in p.info.nodes && b.tableId == t.id {
      assert t.id in Ids(p.info.nodes);
      assert CopiedTable(key, c, bindings, source, scratch);
    }
  }

  /**
   Prepare preserves meaning. When every read table has a binding, preparation succeeds, and the
   prepared SELECT, run on any database whose scratch tables are copies of the read tables, gives
   exactly the rows the statement inserts, failing exactly when they do.
   */
  lemma PreparePreservesMeaning(stmt: Insert, c: Context, p: Plan, bindings: Bindings, source: Db, scratch: Db)
    requires AnalyzeInsert(stmt, c) == Ok(p)
    requires forall id :: id in p.info.bases ==> id in bindings
    requires ScratchCopies(p, c, bindings, source, scratch)
    ensures PrepareSelect(p, bindings).Ok?
    ensures RowsOf(EvalQuery(PrepareSelect(p, bindings).value, map[], scratch)) == InsertedRows(stmt, p, source)
  {
    hide AnalyzeQuery, AnalyzeWith, AnalyzeTarget, Finish, AnalyzeInsert, EvalQuery, EvalWith, ScratchCopies, PrepQuery, LeavesFit, OutputsOf, Covering, Reorder, Hoist, OutputRows;
    PlanParts(stmt, c);
    var w := AnalyzeWith(stmt.ctes, map[], {}, c).value;
    FinishParts(AnalyzeTarget(stmt, c).value, w.elab, AnalyzeQuery(stmt.query, w.scope, c).value, c);
    PlanWorld(stmt, c, p, bindings, source, scratch);
    var m := World(c, Rewrite(p.info.used, p.info.nodes, bindings), source, scratch);
    assert Agree(map[], map[], map[], m.w.used);
    PresWith(stmt.ctes, map[], {}, map[], map[], m);
    var e1 := EvalWith(stmt.ctes, map[], source);
    var e2 := EvalWith(PrepCtes(p.ctes, m.w), map[], scratch);
    LeafCount(stmt.query, w.scope, c);
    OutputsWeaker(p.outs, p.info.cols, p.Single());
    OutputQuery(stmt.query, w.scope, p.outs, p.Single(), e1, e2, m);
    var body := PrepQuery(p.info.elab, m.w);
    SupportedBody(stmt.query, w.scope, c, m.w, p.outs, p.Single());
    HoistMeaning(PrepCtes(p.ctes, m.w), Reorder(body, p.outs, p.Single()), map[], scratch);
  }

  lemma OutputsWeaker(outs: seq<Output>, cols: seq<Col>, single: bool)
    requires OutputsOf(outs, cols, true)
    ensures OutputsOf(outs, cols, single)
  {
  }

  lemma SupportedBody(q: Query, outer: Scope, c: Context, w: Rewrite, outs: seq<Output>, single: bool)
    requires AnalyzeQuery(q, outer, c).Ok? && w.Covered()
    requires LeavesFit(PrepQuery(AnalyzeQuery(q, outer, c).value.elab, w), outs)
    ensures !Reorder(PrepQuery(AnalyzeQuery(q, outer, c).value.elab, w), outs, single).UnsupportedQuery?
  {
    hide AnalyzeSelect, AnalyzeWith, LeavesFit;
  }

  lemma {:induction false} ProjectionsFit(q: Query, outer: Scope, c: Context, w: Rewrite, outs: seq<Output>)
    requires AnalyzeQuery(q, outer, c).Ok? && w.Covered()
    requires forall k :: 0 <= k < |outs| ==> outs[k].position < |AnalyzeQuery(q, outer, c).value.cols|
    ensures LeavesFit(PrepQuery(AnalyzeQuery(q, outer, c).value.elab, w), outs)
  {
    hide AnalyzeSelect, AnalyzeWith;
    match q
    case Union(ctes, left, right) =>
      var inner := AnalyzeWith(ctes, outer, {}, c).value.scope;
      ProjectionsFit(left, inner, c, w, outs);
      ProjectionsFit(right, inner, c, w, outs);
    case _ =>
  }

  /** Preparing an analyzed plan succeeds if and only if every table it reads has a binding. */
  lemma PrepareSucceedsExactly(stmt: Insert, c: Context, p: Plan, bindings: Bindings)
    requires AnalyzeInsert(stmt, c) == Ok(p)
    ensures PrepareSelect(p, bindings).Ok? <==> forall id :: id in p.info.bases ==> id in bindings
  {
    hide AnalyzeQuery, AnalyzeWith, AnalyzeTarget, Finish, AnalyzeInsert, PrepQuery, LeavesFit, Reorder, Hoist;
    PlanParts(stmt, c);
    var w := AnalyzeWith(stmt.ctes, map[], {}, c).value;
    FinishParts(AnalyzeTarget(stmt, c).value, w.elab, AnalyzeQuery(stmt.query, w.scope, c).value, c);
    WholeWith(stmt.ctes, map[], {}, c);
    WholeQuery(stmt.query, w.scope, c);
    var r := Rewrite(p.info.used, p.info.nodes, bindings);
    forall b | b in p.info.nodes
      ensures b.tableId in p.info.bases
    {
      assert b.tableId in Ids(p.info.nodes);
    }
    if r.Covered() {
      ProjectionsFit(stmt.query, w.scope, c, r, p.outs);
    }
  }

  /** A checked output value lands in its target column as a non-NULL value of exactly that column's type. */
  lemma OutputConforms(v: Value, o: Output, single: bool)
    requires Fits(v, o.col) && CheckOutput(o.col, o.target, single).Ok?
    ensures OutputValue(v, o, single).Done? ==> Conforms(OutputValue(v, o, single).value, o.target)
    ensures o.col.literal.Some? && !o.col.nullable ==> OutputValue(v, o, single).Done?
  {
  }

  lemma {:induction false} OutputRowConforms(row: Row, cols: seq<Col>, outs: seq<Output>, single: bool)
    requires RowFits(row, cols) && OutputsOf(outs, cols, true)
    requires forall k :: 0 <= k < |outs| ==> CheckOutput(outs[k].col, outs[k].target, single).Ok?
    ensures var r := OutputRow(row, outs, single);
            r.Done? ==> |r.value| == |outs| && forall k :: 0 <= k < |outs| ==> Conforms(r.value[k], outs[k].target)
  {
    hide Conforms, CheckOutput, OutputValue, Fits;
    OutputRowAt(row, outs, single);
    forall k | 0 <= k < |outs|
      ensures OutputValue(row[outs[k].position], outs[k], single).Done? ==>
        Conforms(OutputValue(row[outs[k].position], outs[k], single).value, outs[k].target)
    {
      OutputConforms(row[outs[k].position], outs[k], single);
    }
  }

  predicate RowConforms(row: Row, columns: seq<CatalogColumn>)
  {
    |row| == |columns| && forall k :: 0 <= k < |row| ==> Conforms(row[k], columns[k].typ)
  }

  lemma {:induction false} OutputRowsConform(rows: seq<Row>, cols: seq<Col>, p: Plan)
    requires forall r :: r in rows ==> RowFits(r, cols)
    requires OutputsOf(p.outs, cols, true) && |p.outs| == |p.target.columns|
    requires forall k :: 0 <= k < |p.outs| ==> p.outs[k].target == p.target.columns[k].typ
    requires forall k :: 0 <= k < |p.outs| ==> CheckOutput(p.outs[k].col, p.outs[k].target, p.Single()).Ok?
    ensures var out := OutputRows(rows, p.outs, p.Single());
            out.Done? ==> forall r :: r in out.value ==> RowConforms(r, p.target.columns)
  {
    hide Conforms, CheckOutput, OutputRow, RowFits, OutputsOf;
    if rows != [] {
      assert rows[0] in rows;
      assert forall r :: r in rows[1..] ==> r in rows;
      OutputRowConforms(rows[0], cols, p.outs, p.Single());
      OutputRowsConform(rows[1..], cols, p);
    }
  }

  /**
   Type soundness of acceptance: on a database that matches the catalog, every row the prepared
   SELECT yields has, for each target column in order, a non-NULL value of exactly its type.
   */
  lemma PreparedRowsConform(stmt: Insert, c: Context, p: Plan, bindings: Bindings, source: Db, scratch: Db)
    requires AnalyzeInsert(stmt, c) == Ok(p) && AliasesClear(stmt, c)
    requires forall id :: id in p.info.bases ==> id in bindings
    requires ScratchCopies(p, c, bindings, source, scratch) && DbFits(c, source)
    ensures PrepareSelect(p, bindings).Ok?
    ensures var t := EvalQuery(PrepareSelect(p, bindings).value, map[], scratch);
            t.Done? ==> forall r :: r in t.value.rows ==> RowConforms(r, p.target.columns)
  {
    hide AnalyzeQuery, AnalyzeWith, AnalyzeTarget, Finish, AnalyzeInsert, EvalQuery, EvalWith, ScratchCopies, PrepareSelect, OutputsOf, Covering, OutputRows, RowConforms, RowFits, DbFits;
    PreparePreservesMeaning(stmt, c, p, bindings, source, scratch);
    PlanParts(stmt, c);
    var w := AnalyzeWith(stmt.ctes, map[], {}, c).value;
    FinishParts(AnalyzeTarget(stmt, c).value, w.elab, AnalyzeQuery(stmt.query, w.scope, c).value, c);
    assert EnvFits(map[], map[]);
    TypedWith(stmt.ctes, map[], {}, map[], c, source);
    TypedQuery(stmt.query, w.scope, EvalWith(stmt.ctes, map[], source), c, source);
    var t := EvalQuery(stmt.query, EvalWith(stmt.ctes, map[], source), source);
    if t.Done? {
      OutputRowsConform(t.value.rows, p.info.cols, p);
    }
  }
}
