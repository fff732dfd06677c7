/**
 The request side of Prepare: the read ids are the sorted closure of the plan, the scratch
 bindings must be an exact ordered bijection onto them, and the loop that renames the bound
 table objects in place is the rewrite the meaning theorem is about.
 */
module SnapshotBindings {
  import opened Common
  import opened SnapshotAst
  import opened SnapshotAnalyze
  import opened SnapshotPrepare
  import opened SnapshotClosure
  import opened SnapshotPlan

  predicate Ascending(ids: seq<string>)
  {
    forall i, j :: 0 <= i < j < |ids| ==> Before(ids[i], ids[j])
  }

  lemma {:induction false} AddIdSorted(ids: seq<string>, id: string)
    requires Ascending(ids)
    ensures Ascending(AddId(ids, id))
    ensures forall x :: x in AddId(ids, id) <==> x in ids || x == id
  {
    hide Before;
    if ids != [] && ids[0] != id {
      if Before(id, ids[0]) {
        forall j | 0 < j < |ids|
          ensures Before(id, ids[j])
        {
          BeforeTransitive(id, ids[0], ids[j]);
        }
      } else {
        BeforeTotal(id, ids[0]);
        AddIdSorted(ids[1..], id);
        var rest := AddId(ids[1..], id);
        assert ids == [ids[0]] + ids[1..];
        forall j | 0 <= j < |rest|
          ensures Before(ids[0], rest[j])
        {
          assert rest[j] in rest;
        }
      }
    }
  }

  /** ReadIDs are the ids of the bound tables, strictly ascending. */
  lemma {:induction false} ReadIdsSorted(nodes: seq<Bound>)
    ensures Ascending(SortedIds(nodes))
    ensures forall id :: id in SortedIds(nodes) <==> id in Ids(nodes)
  {
    if nodes != [] {
      ReadIdsSorted(nodes[1..]);
      AddIdSorted(SortedIds(nodes[1..]), nodes[0].tableId);
      assert nodes == [nodes[0]] + nodes[1..];
    }
  }

  datatype Binding = Binding(tableId: string, database: string, table: string)

  /** Unicode white space, as unicode.IsSpace has it. */
  predicate IsSpace(c: char)
  {
    || c == ' ' || '\t' <= c <= '\r' || c == '\U{0085}' || c == '\U{00A0}' || c == '\U{1680}' || '\U{2000}' <= c <= '\U{200A}'
    || c == '\U{2028}' || c == '\U{2029}' || c == '\U{202F}' || c == '\U{205F}' || c == '\U{3000}'
  }

  /** strings.TrimSpace(s) == "". */
  predicate IsBlank(s: string)
  {
    forall i :: 0 <= i < |s| ==> IsSpace(s[i])
  }

  predicate IsScratchName(s: string)
  {
    !IsBlank(s) && '\0' !in s
  }

  /** One binding per read id, in order, each to a usable scratch table of its own. */
  predicate ExactBijection(list: seq<Binding>, ids: seq<string>)
  {
    && |list| == |ids|
    && (forall i :: 0 <= i < |list| ==> list[i].tableId == ids[i] && IsScratchName(list[i].database) && IsScratchName(list[i].table))
    && (forall i, j :: 0 <= i < j < |list| ==> (list[i].database, list[i].table) != (list[j].database, list[j].table))
  }

  /** The first i bindings are in order, usable and distinct; the two maps hold exactly them. */
  ghost predicate CheckedUpTo(list: seq<Binding>, ids: seq<string>, i: nat, bindings: Bindings, scratch: set<(string, string)>)
  {
    && i <= |list| == |ids|
    && (forall k :: 0 <= k < i ==> list[k].tableId == ids[k] && IsScratchName(list[k].database) && IsScratchName(list[k].table))
    && (forall k :: 0 <= k < i ==> PairOf(list[k]) in scratch)
    && (forall p :: p in scratch ==> exists k :: 0 <= k < i && PairOf(list[k]) == p)
    && (forall j, k :: 0 <= j < k < i ==> PairOf(list[j]) != PairOf(list[k]))
    && (forall id :: id in bindings ==> exists k :: 0 <= k < i && ids[k] == id)
    && (forall k :: 0 <= k < i ==> ids[k] in bindings && bindings[ids[k]] == PairOf(list[k]))
  }

  function PairOf(b: Binding): (string, string)
  {
    (b.database, b.table)
  }

  lemma CheckOne(list: seq<Binding>, ids: seq<string>, i: nat, bindings: Bindings, scratch: set<(string, string)>)
    requires Ascending(ids) && CheckedUpTo(list, ids, i, bindings, scratch) && i < |list|
    requires list[i].tableId == ids[i] && IsScratchName(list[i].database) && IsScratchName(list[i].table) && PairOf(list[i]) !in scratch
    ensures CheckedUpTo(list, ids, i + 1, bindings[ids[i] := PairOf(list[i])], scratch + {PairOf(list[i])})
  {
    hide IsScratchName;
    forall k | 0 <= k < i
      ensures ids[k] != ids[i]
    {
      BeforeIrreflexive(ids[k]);
    }
    assert PairOf(list[i]) == PairOf(list[i]);
  }

  lemma RepeatedPair(list: seq<Binding>, ids: seq<string>, i: nat, bindings: Bindings, scratch: set<(string, string)>)
    requires CheckedUpTo(list, ids, i, bindings, scratch) && i < |list| && PairOf(list[i]) in scratch
    ensures !ExactBijection(list, ids)
  {
    hide IsScratchName;
    var k :| 0 <= k < i && PairOf(list[k]) == PairOf(list[i]);
  }

  lemma CheckedAll(list: seq<Binding>, ids: seq<string>, bindings: Bindings, scratch: set<(string, string)>)
    requires CheckedUpTo(list, ids, |list|, bindings, scratch)
    ensures ExactBijection(list, ids)
    ensures forall id :: id in bindings <==> id in ids
    ensures forall i :: 0 <= i < |ids| ==> bindings[ids[i]] == (list[i].database, list[i].table)
    ensures forall a, b :: a in bindings && b in bindings && bindings[a] == bindings[b] ==> a == b
  {
    hide IsScratchName;
    forall i, j | 0 <= i < j < |list|
      ensures (list[i].database, list[i].table) != (list[j].database, list[j].table)
    {
      assert PairOf(list[i]) != PairOf(list[j]);
    }
    forall a, b | a in bindings && b in bindings && bindings[a] == bindings[b]
      ensures a == b
    {
      var j :| 0 <= j < |ids| && ids[j] == a;
      var k :| 0 <= k < |ids| && ids[k] == b;
      assert PairOf(list[j]) == PairOf(list[k]);
    }
  }

  /** prepareSnapshot's check of the scratch bindings. */
  method BindScratch(list: seq<Binding>, ids: seq<string>) returns (r: Option<Bindings>)
    requires Ascending(ids)
    ensures r.Some? <==> ExactBijection(list, ids)
    ensures r.Some? ==> forall id :: id in r.value <==> id in ids
    ensures r.Some? ==> forall i :: 0 <= i < |ids| ==> r.value[ids[i]] == (list[i].database, list[i].table)
    ensures r.Some? ==> forall a, b :: a in r.value && b in r.value && r.value[a] == r.value[b] ==> a == b
  {
    hide Ascending, IsBlank;
    if |list| != |ids| {
      return None;
    }
    var bindings: Bindings := map[];
    var scratch: set<(string, string)> := {};
    var i := 0;
    while i < |list|
      invariant 0 <= i <= |list|
      invariant CheckedUpTo(list, ids, i, bindings, scratch)
    {
      hide CheckedUpTo;
      var b := list[i];
      if b.tableId != ids[i] || IsBlank(b.database) || IsBlank(b.table) || '\0' in b.database || '\0' in b.table {
        return None;
      }
      var pair := (b.database, b.table);
      if pair in scratch {
        RepeatedPair(list, ids, i, bindings, scratch);
        return None;
      }
      CheckOne(list, ids, i, bindings, scratch);
      scratch := scratch + {pair};
      bindings := bindings[b.tableId := pair];
      i := i + 1;
    }
    CheckedAll(list, ids, bindings, scratch);
    r := Some(bindings);
  }

  /** Bindings that pass the check leave Prepare nothing to refuse. */
  lemma CheckedBindingsSuffice(stmt: Insert, c: Context, p: Plan, bindings: Bindings)
    requires AnalyzeInsert(stmt, c) == Ok(p)
    requires forall id :: id in bindings <==> id in p.readIds
    ensures PrepareSelect(p, bindings).Ok?
  {
    hide AnalyzeQuery, AnalyzeWith, AnalyzeTarget, Finish, AnalyzeInsert, PrepareSelect;
    PlanParts(stmt, c);
    var w := AnalyzeWith(stmt.ctes, map[], {}, c).value;
    FinishParts(AnalyzeTarget(stmt, c).value, w.elab, AnalyzeQuery(stmt.query, w.scope, c).value, c);
    WholeWith(stmt.ctes, map[], {}, c);
    WholeQuery(stmt.query, w.scope, c);
    ReadIdsSorted(p.info.nodes);
    PrepareSucceedsExactly(stmt, c, p, bindings);
  }

  /** Renaming twice is renaming once, so a table object reached through two CTE references is safe. */
  lemma RenamedTwice(f: TableFields, qualified: bool, others: set<string>, scratch: (string, string))
    ensures Renamed(Renamed(f, qualified, others, scratch), qualified, others, scratch) == Renamed(f, qualified, others, scratch)
  {
  }

  class TableNode {
    var schema: Option<Ident>
    var name: Ident
    var alias: Option<Ident>

    constructor (schema: Option<Ident>, name: Ident, alias: Option<Ident>)
      ensures Fields() == TableFields(schema, name, alias)
    {
      this.schema, this.name, this.alias := schema, name, alias;
    }

    function Fields(): TableFields
      reads this
    {
      TableFields(schema, name, alias)
    }
  }

  class ColumnNode {
    var table: Option<Ident>

    constructor (table: Option<Ident>)
      ensures this.table == table
    {
      this.table := table;
    }
  }

  class BoundRelation {
    const id: string
    const node: TableNode
    const columns: seq<ColumnNode>
    const others: set<string>

    constructor (id: string, node: TableNode, columns: seq<ColumnNode>, others: set<string>)
      ensures this.id == id && this.node == node && this.columns == columns && this.others == others
    {
      this.id, this.node, this.columns, this.others := id, node, columns, others;
    }

    function Target(bindings: Bindings, f: TableFields): TableFields
      requires id in bindings
    {
      Renamed(f, |columns| > 0, others, bindings[id])
    }
  }

  /**
   Prepare's loop over the bound relations. A relation may be listed once per CTE reference; its
   object is renamed as if once. Qualified column objects are outside the frame: a relation with
   one keeps its name as an alias, so the source's loop over them never runs.
   */
  method RenameBound(nodes: seq<BoundRelation>, bindings: Bindings) returns (ok: bool)
    requires forall i, j :: 0 <= i < |nodes| && 0 <= j < |nodes| && nodes[i].node == nodes[j].node ==> nodes[i] == nodes[j]
    modifies set r | r in nodes :: r.node
    ensures ok <==> forall r :: r in nodes ==> r.id in bindings
    ensures ok ==> forall r :: r in nodes ==> r.node.Fields() == r.Target(bindings, old(r.node.Fields()))
    ensures !ok ==> forall r :: r in nodes ==>
      r.node.Fields() == old(r.node.Fields()) || (r.id in bindings && r.node.Fields() == r.Target(bindings, old(r.node.Fields())))
  {
    var i := 0;
    while i < |nodes|
      invariant 0 <= i <= |nodes|
      invariant forall r :: r in nodes[..i] ==> r.id in bindings && r.node.Fields() == r.Target(bindings, old(r.node.Fields()))
      invariant forall r :: r in nodes && r !in nodes[..i] ==> r.node.Fields() == old(r.node.Fields())
    {
      var r := nodes[i];
      if r.id !in bindings {
        return false;
      }
      var b := bindings[r.id];
      assert r.node.Fields() == old(r.node.Fields()) || r.node.Fields() == r.Target(bindings, old(r.node.Fields()));
      assert forall q :: q in nodes && q.node == r.node ==> q == r by {
        forall q | q in nodes && q.node == r.node
          ensures q == r
        {
          var j :| 0 <= j < |nodes| && nodes[j] == q;
        }
      }
      RenamedTwice(old(r.node.Fields()), |r.columns| > 0, r.others, b);
      if r.node.alias == None && (|r.columns| > 0 || b.1 in r.others) {
        r.node.alias := Some(r.node.name);
      }
      r.node.schema := Some(Identifier(b.0));
      r.node.name := Identifier(b.1);
      // The source now rewrites r.columns when the table still has no alias; there are none then.
      assert r.node.alias == None ==> r.columns == [];
      assert r.node.Fields() == r.Target(bindings, old(r.node.Fields()));
      assert nodes[..i + 1] == nodes[..i] + [r];
      i := i + 1;
    }
    assert nodes[..i] == nodes;
    ok := true;
  }
}
