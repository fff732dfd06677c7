/**
 Name resolution across Prepare: renaming a base table changes no column reference, and a
 projection alias never changes the meaning of a column the analyzer accepted.
 */
module SnapshotScope {
  import opened Common
  import opened SnapshotIntegers
  import opened SnapshotAst
  import opened SnapshotEval
  import opened SnapshotAnalyze
  import opened SnapshotPrepare

  /** The same columns, and the same ones for each qualifier in quals. */
  predicate Aligned(a: seq<QName>, b: seq<QName>, quals: set<string>)
  {
    && |a| == |b|
    && forall k :: 0 <= k < |a| ==> a[k].name == b[k].name && forall t :: t in quals ==> (a[k].qual == t <==> b[k].qual == t)
  }

  lemma {:induction false} HitsAligned(a: seq<QName>, b: seq<QName>, quals: set<string>, qual: string, name: string)
    requires Aligned(a, b, quals)
    requires qual == "" || qual in quals
    ensures Hits(a, qual, name) == Hits(b, qual, name)
  {
    if a != [] {
      HitsAligned(a[..|a| - 1], b[..|b| - 1], quals, qual, name);
    }
  }

  /** A reference with a single candidate keeps it under the candidate's own qualifier. */
  lemma {:induction false} HitsNarrow(cols: seq<QName>, qual: string, name: string)
    requires forall k :: 0 <= k < |cols| && cols[k].name == name ==> cols[k].qual == qual
    ensures Hits(cols, qual, name) == Hits(cols, "", name)
  {
    if cols != [] {
      HitsNarrow(cols[..|cols| - 1], qual, name);
    }
  }

  predicate AliasesSafe(items: seq<Expr>, slots: seq<QName>)
  {
    forall i :: 0 <= i < |items| ==> AliasSafe(items[i], slots)
  }

  /** Every alias of that name in the SELECT, in its projection, its ON conditions and its WHERE, passes the check. */
  predicate SelectSafeAt(q: Query, name: string, slots: seq<QName>)
    requires q.Select?
  {
    && (forall k :: 0 <= k < |q.items| ==> AliasSafeAt(q.items[k], name, slots))
    && (forall k :: 0 <= k < |q.joins| ==> AliasSafeAt(q.joins[k].on, name, slots))
    && (q.filter.Some? ==> AliasSafeAt(q.filter.value, name, slots))
  }

  /** So does every alias that an unqualified column of the SELECT names. */
  predicate SelectSafe(q: Query, slots: seq<QName>)
    requires q.Select?
  {
    forall n :: n in SelectNames(q) ==> SelectSafeAt(q, n, slots)
  }

  /** An alias that passes the check passes it under any name. */
  lemma {:induction false} SafeAt(e: Expr, name: string, slots: seq<QName>)
    requires AliasSafe(e, slots)
    ensures AliasSafeAt(e, name, slots)
  {
    hide AliasAllowed;
    match e
    case Paren(x) => SafeAt(x, name, slots);
    case Not(x) => SafeAt(x, name, slots);
    case In(x, _) => SafeAt(x, name, slots);
    case Cast(x, _) => SafeAt(x, name, slots);
    case Aliased(x, _) => SafeAt(x, name, slots);
    case Binary(_, l, r) =>
      SafeAt(l, name, slots);
      SafeAt(r, name, slots);
    case _ =>
  }

  /** Substituting the alias of that name for a column that resolves gives the column's own value. */
  predicate HarmlessAt(name: string, alias: map<string, Res<Value>>, cols: seq<QName>, vals: Row)
  {
    name in alias && |Hits(cols, "", name)| == 1 ==> alias[name] == Lookup(cols, "", name, vals)
  }

  predicate Harmless(names: set<string>, alias: map<string, Res<Value>>, cols: seq<QName>, vals: Row)
  {
    forall n :: n in names ==> HarmlessAt(n, alias, cols, vals)
  }

  /** The alias's own expression is the column of its name wherever that name resolves. */
  lemma AliasedHarmless(x: Expr, name: string, slots: seq<QName>, cols: seq<QName>, vals: Row, env: Env, db: Db)
    requires AliasAllowed(x, name, slots)
    requires cols <= slots
    requires |Hits(cols, "", name)| == 1
    ensures EvalExpr(x, cols, RowEnv(vals, map[]), env, db) == Lookup(cols, "", name, vals)
  {
    var h := Hits(cols, "", name)[0];
    assert slots[h].name == name;
    if x.table.Some? {
      forall k | 0 <= k < |cols| && cols[k].name == name
        ensures cols[k].qual == x.table.value.name
      {
        assert slots[k].name == name;
      }
      HitsNarrow(cols, x.table.value.name, name);
    }
  }

  lemma {:induction false} AliasHarmless(e: Expr, name: string, slots: seq<QName>, cols: seq<QName>, vals: Row, env: Env, db: Db)
    requires AliasSafeAt(e, name, slots)
    requires cols <= slots
    ensures HarmlessAt(name, AliasValues(e, cols, vals, env, db), cols, vals)
  {
    hide EvalExpr, Lookup, AliasAllowed, Hits;
    match e
    case Paren(x) => AliasHarmless(x, name, slots, cols, vals, env, db);
    case Not(x) => AliasHarmless(x, name, slots, cols, vals, env, db);
    case In(x, _) => AliasHarmless(x, name, slots, cols, vals, env, db);
    case Cast(x, _) => AliasHarmless(x, name, slots, cols, vals, env, db);
    case Binary(_, l, r) =>
      AliasHarmless(l, name, slots, cols, vals, env, db);
      AliasHarmless(r, name, slots, cols, vals, env, db);
    case Aliased(x, a) =>
      AliasHarmless(x, name, slots, cols, vals, env, db);
      if a.name == name && |Hits(cols, "", name)| == 1 {
        AliasedHarmless(x, name, slots, cols, vals, env, db);
      }
    case _ =>
  }

  lemma {:induction false} ItemAliasesHarmless(items: seq<Expr>, name: string, slots: seq<QName>, cols: seq<QName>, vals: Row, env: Env, db: Db)
    requires forall k :: 0 <= k < |items| ==> AliasSafeAt(items[k], name, slots)
    requires cols <= slots
    ensures HarmlessAt(name, ItemAliases(items, cols, vals, env, db), cols, vals)
  {
    hide AliasSafeAt, AliasValues, Lookup, Hits;
    if items != [] {
      AliasHarmless(items[0], name, slots, cols, vals, env, db);
      ItemAliasesHarmless(items[1..], name, slots, cols, vals, env, db);
    }
  }

  lemma {:induction false} OnAliasesHarmless(joins: seq<Join>, name: string, slots: seq<QName>, cols: seq<QName>, vals: Row, env: Env, db: Db)
    requires forall k :: 0 <= k < |joins| ==> AliasSafeAt(joins[k].on, name, slots)
    requires cols <= slots
    ensures HarmlessAt(name, OnAliases(joins, cols, vals, env, db), cols, vals)
  {
    hide AliasSafeAt, AliasValues, Lookup, Hits;
    if joins != [] {
      AliasHarmless(joins[0].on, name, slots, cols, vals, env, db);
      OnAliasesHarmless(joins[1..], name, slots, cols, vals, env, db);
    }
  }

  /** No alias of a safe SELECT changes what a column of it means, over the relations joined so far or over all. */
  lemma SelectAliasesHarmless(q: Query, slots: seq<QName>, cols: seq<QName>, vals: Row, env: Env, db: Db)
    requires q.Select? && SelectSafe(q, slots)
    requires cols <= slots
    ensures Harmless(SelectNames(q), SelectAliases(q, cols, vals, env, db), cols, vals)
  {
    hide AliasSafeAt, AliasValues, ItemAliases, OnAliases, Lookup, Hits, SelectNames;
    forall n | n in SelectNames(q)
      ensures HarmlessAt(n, SelectAliases(q, cols, vals, env, db), cols, vals)
    {
      ItemAliasesHarmless(q.items, n, slots, cols, vals, env, db);
      OnAliasesHarmless(q.joins, n, slots, cols, vals, env, db);
      if q.filter.Some? {
        AliasHarmless(q.filter.value, n, slots, cols, vals, env, db);
      }
    }
  }

  /** What an unqualified column of that name denotes on a row: the alias, if there is one, else the cell. */
  function Bare(alias: map<string, Res<Value>>, cols: seq<QName>, name: string, vals: Row): Res<Value>
  {
    if name in alias then alias[name] else Lookup(cols, "", name, vals)
  }

  /** Every name that one column of slots has denotes the same on both sides. */
  ghost predicate BareAlike(slots: seq<QName>, a: seq<QName>, al1: map<string, Res<Value>>, b: seq<QName>, al2: map<string, Res<Value>>, vals: Row)
  {
    forall n :: |Hits(slots, "", n)| == 1 ==> Bare(al1, a, n, vals) == Bare(al2, b, n, vals)
  }

  lemma LookupAligned(a: seq<QName>, b: seq<QName>, quals: set<string>, qual: string, name: string, vals: Row)
    requires Aligned(a, b, quals) && (qual == "" || qual in quals)
    ensures Lookup(a, qual, name, vals) == Lookup(b, qual, name, vals)
  {
    hide Hits, Aligned;
    HitsAligned(a, b, quals, qual, name);
  }

  /** Without aliases aligned columns denote the same. */
  lemma NoAliasAlike(slots: seq<QName>, a: seq<QName>, b: seq<QName>, quals: set<string>, vals: Row)
    requires Aligned(a, b, quals)
    ensures BareAlike(slots, a, map[], b, map[], vals)
  {
    hide Lookup, Aligned;
    forall n
      ensures Lookup(a, "", n, vals) == Lookup(b, "", n, vals)
    {
      LookupAligned(a, b, quals, "", n, vals);
    }
  }

  /** Harmless aliases of the projection and equal ones of the ON conditions and the WHERE denote the same. */
  lemma AliasesAlike(slots: seq<QName>, a: seq<QName>, b: seq<QName>, quals: set<string>, vals: Row,
                     items1: map<string, Res<Value>>, items2: map<string, Res<Value>>, rest: map<string, Res<Value>>)
    requires Aligned(a, b, quals) && a == slots
    requires forall n :: HarmlessAt(n, items1, a, vals) && HarmlessAt(n, items2, b, vals)
    ensures BareAlike(slots, a, items1 + rest, b, items2 + rest, vals)
  {
    hide Lookup, Aligned, Hits;
    forall n | |Hits(slots, "", n)| == 1
      ensures Bare(items1 + rest, a, n, vals) == Bare(items2 + rest, b, n, vals)
    {
      HitsAligned(a, b, quals, "", n);
      LookupAligned(a, b, quals, "", n, vals);
      assert HarmlessAt(n, items1, a, vals) && HarmlessAt(n, items2, b, vals);
    }
  }

  /** A column expression is analyzed as itself, and is neither a literal nor a scalar subquery. */
  lemma {:induction false} ColumnElab(e: Expr, rels: seq<RelInfo>, scope: Scope, c: Context)
    requires AnalyzeExpr(e, rels, scope, c).Ok?
    requires AnalyzeExpr(e, rels, scope, c).value.elab.Column?
    ensures e == AnalyzeExpr(e, rels, scope, c).value.elab
    ensures AnalyzeExpr(e, rels, scope, c).value.col.literal.None? && !AnalyzeExpr(e, rels, scope, c).value.col.scalar
  {
    match e
    case Paren(x) =>
      if AnalyzeExpr(x, rels, scope, c).value.elab.Column? {
        ColumnElab(x, rels, scope, c);
      }
    case _ =>
  }

  /** Preparing an expression makes or unmakes no column reference. */
  lemma PrepColumn(e: Expr, w: Rewrite)
    requires w.Covered()
    ensures PrepExpr(e, w).Column? <==> e.Column?
    ensures e.Column? ==> PrepExpr(e, w) == e
  {
  }

  /** What the analysis of a binary expression takes from its operands. */
  lemma BinaryShape(op: Op, l: Expr, r: Expr, rels: seq<RelInfo>, scope: Scope, c: Context)
    requires AnalyzeExpr(Binary(op, l, r), rels, scope, c).Ok?
    ensures AnalyzeExpr(l, rels, scope, c).Ok? && AnalyzeExpr(r, rels, scope, c).Ok?
    ensures var i := AnalyzeExpr(Binary(op, l, r), rels, scope, c).value;
            var a := AnalyzeExpr(l, rels, scope, c).value;
            var b := AnalyzeExpr(r, rels, scope, c).value;
            && i == ExprInfo(TruthCol(a.col.nullable || b.col.nullable), Binary(op, a.elab, b.elab),
                             a.nodes + b.nodes, a.used + b.used, a.quals + b.quals, a.bases + b.bases,
                             a.clear && b.clear)
            && IsInteger(a.col.typ) && IsInteger(b.col.typ)
  {
    hide AnalyzeQuery, AnalyzeColumn, AnalyzeNumber, AnalyzeNeg, StringInfo, ParenInfo, AliasedInfo, ScalarInfo, NotInfo, InInfo;
    assert AnalyzeExpr(Binary(op, l, r), rels, scope, c) ==
           BinaryInfo(op, AnalyzeExpr(l, rels, scope, c).value, AnalyzeExpr(r, rels, scope, c));
  }

  lemma ParenShape(x: Expr, rels: seq<RelInfo>, scope: Scope, c: Context)
    requires AnalyzeExpr(Paren(x), rels, scope, c).Ok?
    ensures AnalyzeExpr(x, rels, scope, c).Ok?
    ensures AnalyzeExpr(Paren(x), rels, scope, c).value == ParenInfo(AnalyzeExpr(x, rels, scope, c).value)
  {
  }

  lemma NotShape(x: Expr, rels: seq<RelInfo>, scope: Scope, c: Context)
    requires AnalyzeExpr(Not(x), rels, scope, c).Ok?
    ensures AnalyzeExpr(x, rels, scope, c).Ok?
    ensures var a := AnalyzeExpr(x, rels, scope, c).value;
            AnalyzeExpr(Not(x), rels, scope, c).value == a.(col := TruthCol(a.col.nullable), elab := Not(a.elab))
  {
    hide AnalyzeQuery, AnalyzeColumn, AnalyzeNumber, AnalyzeNeg, StringInfo, ParenInfo, AliasedInfo, ScalarInfo, BinaryInfo, InInfo;
  }

  lemma InShape(x: Expr, q: Query, rels: seq<RelInfo>, scope: Scope, c: Context)
    requires AnalyzeExpr(In(x, q), rels, scope, c).Ok?
    ensures AnalyzeExpr(x, rels, scope, c).Ok? && AnalyzeQuery(q, scope, c).Ok?
    ensures var a := AnalyzeExpr(x, rels, scope, c).value;
            var i := AnalyzeQuery(q, scope, c).value;
            && AnalyzeExpr(In(x, q), rels, scope, c).value ==
               ExprInfo(TruthCol(false), In(a.elab, i.elab), a.nodes + i.nodes, a.used + i.used, a.quals, a.bases + i.bases,
                        a.clear && i.clear)
            && |i.cols| == 1 && IsInteger(a.col.typ) && IsInteger(i.cols[0].typ)
  {
    hide AnalyzeQuery, AnalyzeColumn, AnalyzeNumber, AnalyzeNeg, StringInfo, ParenInfo, AliasedInfo, ScalarInfo, BinaryInfo, NotInfo;
  }

  lemma PrepBinarySafe(op: Op, l: Expr, r: Expr, w: Rewrite, slots: seq<QName>)
    requires w.Covered()
    requires AliasSafe(PrepExpr(l, w), slots) && AliasSafe(PrepExpr(r, w), slots)
    ensures AliasSafe(PrepExpr(Binary(op, l, r), w), slots)
  {
  }

  /** The shadowing check covers the query as written. */
  lemma {:induction false} SourceAliasSafe(e: Expr, rels: seq<RelInfo>, scope: Scope, c: Context)
    requires AnalyzeExpr(e, rels, scope, c).Ok?
    ensures AliasSafe(e, Slots(rels))
  {
    hide AnalyzeQuery, AnalyzeColumn, NumberNode, Slots;
    match e
    case Paren(x) => SourceAliasSafe(x, rels, scope, c);
    case Not(x) => SourceAliasSafe(x, rels, scope, c);
    case In(x, _) => SourceAliasSafe(x, rels, scope, c);
    case Binary(_, l, r) =>
      SourceAliasSafe(l, rels, scope, c);
      SourceAliasSafe(r, rels, scope, c);
    case Aliased(x, a) =>
      SourceAliasSafe(x, rels, scope, c);
      if AnalyzeExpr(x, rels, scope, c).value.elab.Column? {
        ColumnElab(x, rels, scope, c);
      }
    case _ =>
  }

  /** The check against two lists of columns is the check against both. */
  lemma {:induction false} SafeSplit(e: Expr, name: string, a: seq<QName>, b: seq<QName>)
    ensures AliasSafeAt(e, name, a + b) <==> AliasSafeAt(e, name, a) && AliasSafeAt(e, name, b)
  {
    hide AliasAllowed;
    match e
    case Paren(x) => SafeSplit(x, name, a, b);
    case Not(x) => SafeSplit(x, name, a, b);
    case In(x, _) => SafeSplit(x, name, a, b);
    case Cast(x, _) => SafeSplit(x, name, a, b);
    case Binary(_, l, r) =>
      SafeSplit(l, name, a, b);
      SafeSplit(r, name, a, b);
    case Aliased(x, n) =>
      SafeSplit(x, name, a, b);
      AllowedSplit(x, name, a, b);
    case _ =>
  }

  lemma AllowedSplit(x: Expr, name: string, a: seq<QName>, b: seq<QName>)
    ensures AliasAllowed(x, name, a + b) <==> AliasAllowed(x, name, a) && AliasAllowed(x, name, b)
  {
    var all := a + b;
    assert forall i :: 0 <= i < |a| ==> all[i] == a[i];
    assert forall i :: 0 <= i < |b| ==> all[|a| + i] == b[i];
    assert forall i :: 0 <= i < |all| ==> if i < |a| then all[i] == a[i] else all[i] == b[i - |a|];
  }

  lemma {:induction false} SlotsSplit(rels: seq<RelInfo>, k: nat)
    requires k <= |rels|
    ensures Slots(rels) == Slots(rels[..k]) + Slots(rels[k..])
  {
    hide Tag, ColNames;
    var none: seq<QName> := [];
    if k == |rels| {
      assert rels[..k] == rels && rels[k..] == [];
      assert Slots(rels) + none == Slots(rels);
    } else {
      var n, tail := |rels| - 1, rels[k..];
      SlotsSplit(rels[..n], k);
      assert rels[..n][..k] == rels[..k] && tail[..|tail| - 1] == rels[..n][k..] && tail[|tail| - 1] == rels[n];
      var last := Tag(rels[n].qualifier, ColNames(rels[n].cols));
      assert Slots(rels) == Slots(rels[..n]) + last && Slots(tail) == Slots(tail[..|tail| - 1]) + last;
    }
  }

  lemma AllowedAligned(x: Expr, name: string, a: seq<QName>, b: seq<QName>, quals: set<string>)
    requires AliasAllowed(x, name, a) && Aligned(a, b, quals)
    requires x.Column? && x.table.Some? ==> x.table.value.name in quals
    ensures AliasAllowed(x, name, b)
  {
  }

  lemma AliasStaysAllowed(x: Expr, a: Ident, rels: seq<RelInfo>, scope: Scope, c: Context, w: Rewrite, from: seq<QName>, slots: seq<QName>)
    requires AnalyzeExpr(x, rels, scope, c).Ok? && AliasAllowed(x, a.name, from)
    requires w.Covered()
    requires Aligned(from, slots, AnalyzeExpr(x, rels, scope, c).value.quals)
    ensures AliasAllowed(PrepExpr(AnalyzeExpr(x, rels, scope, c).value.elab, w), a.name, slots)
  {
    var i := AnalyzeExpr(x, rels, scope, c).value;
    PrepColumn(i.elab, w);
    if x.Column? {
      ColumnItself(x.table, x.column, rels);
      QualOfColumn(x, rels, scope, c);
    }
    AllowedAligned(x, a.name, from, slots, i.quals);
  }

  lemma AlignedSubset(a: seq<QName>, b: seq<QName>, quals: set<string>, part: set<string>)
    requires Aligned(a, b, quals) && part <= quals
    ensures Aligned(a, b, part)
  {
  }

  /** The shadowing check still holds of the prepared query, whose relations are renamed. */
  lemma {:induction false} PrepAliasSafe(e: Expr, rels: seq<RelInfo>, scope: Scope, c: Context, w: Rewrite, from: seq<QName>, slots: seq<QName>)
    requires AnalyzeExpr(e, rels, scope, c).Ok? && AliasSafe(e, from)
    requires w.Covered()
    requires Aligned(from, slots, AnalyzeExpr(e, rels, scope, c).value.quals)
    ensures AliasSafe(PrepExpr(AnalyzeExpr(e, rels, scope, c).value.elab, w), slots)
  {
    hide AnalyzeQuery, AliasAllowed, PrepQuery, Aligned, AnalyzeColumn;
    match e
    case Paren(x) =>
      ParenShape(x, rels, scope, c);
      PrepAliasSafe(x, rels, scope, c, w, from, slots);
    case Not(x) =>
      NotShape(x, rels, scope, c);
      PrepAliasSafe(x, rels, scope, c, w, from, slots);
    case In(x, q) =>
      InShape(x, q, rels, scope, c);
      PrepAliasSafe(x, rels, scope, c, w, from, slots);
    case Binary(op, l, r) =>
      BinaryShape(op, l, r, rels, scope, c);
      var x := AnalyzeExpr(l, rels, scope, c).value;
      var y := AnalyzeExpr(r, rels, scope, c).value;
      AlignedSubset(from, slots, x.quals + y.quals, x.quals);
      AlignedSubset(from, slots, x.quals + y.quals, y.quals);
      PrepAliasSafe(l, rels, scope, c, w, from, slots);
      PrepAliasSafe(r, rels, scope, c, w, from, slots);
      PrepBinarySafe(op, x.elab, y.elab, w, slots);
    case Aliased(x, a) =>
      PrepAliasSafe(x, rels, scope, c, w, from, slots);
      AliasStaysAllowed(x, a, rels, scope, c, w, from, slots);
    case Column(table, column) => assert AnalyzeExpr(e, rels, scope, c).value.elab == Column(table, column) by { ColumnItself(table, column, rels); }
    case _ =>
  }

  lemma ColumnItself(table: Option<Ident>, column: Ident, rels: seq<RelInfo>)
    requires AnalyzeColumn(table, column, rels).Ok?
    ensures AnalyzeColumn(table, column, rels).value.elab == Column(table, column)
  {
  }

  lemma QualOfColumn(e: Expr, rels: seq<RelInfo>, scope: Scope, c: Context)
    requires e.Column? && AnalyzeExpr(e, rels, scope, c).Ok?
    ensures e.table.Some? ==> e.table.value.name in AnalyzeExpr(e, rels, scope, c).value.quals
  {
  }

  lemma ColumnQual(table: Option<Ident>, column: Ident, rels: seq<RelInfo>)
    requires AnalyzeColumn(table, column, rels).Ok?
    ensures forall t :: t in AnalyzeColumn(table, column, rels).value.quals ==>
      exists k :: 0 <= k < |Slots(rels)| && Slots(rels)[k].qual == t
  {
    if table.Some? {
      var hits := Hits(Slots(rels), table.value.name, column.name);
      assert |hits| == 1;
      assert Hit(Slots(rels)[hits[0]], table.value.name, column.name);
      if table.value.name != "" {
        assert Slots(rels)[hits[0]].qual == table.value.name;
      }
    }
  }

  /** A qualifier used by a column is the qualifier of a column in scope. */
  lemma {:induction false} QualsKnown(e: Expr, rels: seq<RelInfo>, scope: Scope, c: Context, known: set<string>)
    requires AnalyzeExpr(e, rels, scope, c).Ok?
    requires forall k :: 0 <= k < |Slots(rels)| ==> Slots(rels)[k].qual in known
    ensures AnalyzeExpr(e, rels, scope, c).value.quals <= known
  {
    match e
    case Column(table, column) =>
      ColumnQual(table, column, rels);
    case Paren(x) => QualsKnown(x, rels, scope, c, known);
    case Aliased(x, _) => QualsKnown(x, rels, scope, c, known);
    case Not(x) => QualsKnown(x, rels, scope, c, known);
    case In(x, _) => QualsKnown(x, rels, scope, c, known);
    case Binary(op, l, r) =>
      BinaryShape(op, l, r, rels, scope, c);
      QualsKnown(l, rels, scope, c, known);
      QualsKnown(r, rels, scope, c, known);
    case _ =>
  }

  lemma {:induction false} SlotsKnown(rels: seq<RelInfo>, known: set<string>)
    requires forall i :: 0 <= i < |rels| ==> rels[i].qualifier in known
    ensures forall k :: 0 <= k < |Slots(rels)| ==> Slots(rels)[k].qual in known
  {
    if rels != [] {
      SlotsKnown(rels[..|rels| - 1], known);
    }
  }

  /** The columns in scope once every relation is prepared. */
  function PrepSlots(finals: seq<RelInfo>, w: Rewrite): seq<QName>
    requires w.Covered()
  {
    if finals == [] then []
    else
      var n := |finals| - 1;
      PrepSlots(finals[..n], w) + Tag(Qualifier(PrepRel(finals[n].elab, w)), ColNames(finals[n].cols))
  }

  /** A renamed relation answers to exactly the used qualifiers it answered to before. */
  lemma QualifierStable(r: RelInfo, rels: seq<RelInfo>, quals: set<string>, w: Rewrite, t: string)
    requires w.Covered() && r.qualifier == Qualifier(r.elab)
    requires quals <= Qualifiers(rels) && t in quals
    ensures r.qualifier == t <==> Qualifier(PrepRel(FinalRel(r, rels, quals).elab, w)) == t
  {
  }

  /** A renamed table that has no alias and is given none answers to its scratch table's name. */
  predicate TakesScratchName(r: Rel, w: Rewrite)
    requires w.Covered()
  {
    && r.Table? && r.bound.Some? && r.bound.value in w.nodes && r.alias.None?
    && var scratch := w.bindings[r.bound.value.tableId];
    !r.bound.value.qualified && scratch.1 !in r.bound.value.others
  }

  predicate SharesScratchName(a: Rel, b: Rel, w: Rewrite)
    requires w.Covered()
  {
    && TakesScratchName(a, w) && TakesScratchName(b, w)
    && var name := w.bindings[a.bound.value.tableId].1;
    name != "" && name == w.bindings[b.bound.value.tableId].1
  }

  lemma PreparedQualifier(r: Rel, w: Rewrite)
    requires w.Covered()
    ensures Qualifier(PrepRel(r, w)) == if TakesScratchName(r, w) then w.bindings[r.bound.value.tableId].1 else Qualifier(r)
  {
    hide PrepQuery;
  }

  /**
   The analyzer demands distinct qualifiers. The prepared relations have them exactly when no two tables take the
   same scratch name: a name that is a neighbour's qualifier is never taken, but two equal scratch names are.
   */
  lemma PreparedQualifiersDistinct(rels: seq<RelInfo>, quals: set<string>, w: Rewrite, i: nat, j: nat)
    requires w.Covered() && DistinctQualifiers(rels) && i < j < |rels|
    requires forall k :: 0 <= k < |rels| ==> rels[k].qualifier == Qualifier(rels[k].elab)
    ensures var a, b := FinalRel(rels[i], rels, quals).elab, FinalRel(rels[j], rels, quals).elab;
            var p, q := Qualifier(PrepRel(a, w)), Qualifier(PrepRel(b, w));
            p != "" && p == q <==> SharesScratchName(a, b, w)
  {
    hide PrepRel, Qualifiers;
    var a, b := FinalRel(rels[i], rels, quals).elab, FinalRel(rels[j], rels, quals).elab;
    PreparedQualifier(a, w);
    PreparedQualifier(b, w);
    NeighboursKnown(rels, quals, w, i, j);
    NeighboursKnown(rels, quals, w, j, i);
  }

  /** A scratch name that is taken is no neighbour's qualifier. */
  lemma NeighboursKnown(rels: seq<RelInfo>, quals: set<string>, w: Rewrite, i: nat, j: nat)
    requires w.Covered() && i < |rels| && j < |rels| && i != j && DistinctQualifiers(rels)
    requires rels[i].qualifier == Qualifier(rels[i].elab)
    ensures var a := FinalRel(rels[i], rels, quals).elab;
      TakesScratchName(a, w) && rels[j].qualifier != "" ==> w.bindings[a.bound.value.tableId].1 != rels[j].qualifier
    ensures Qualifier(FinalRel(rels[i], rels, quals).elab) == rels[i].qualifier
  {
    assert rels[j].qualifier in Qualifiers(rels);
    hide Qualifiers;
  }

  lemma ConcatAligned(a: seq<QName>, b: seq<QName>, p: string, q: string, names: seq<string>, quals: set<string>)
    requires Aligned(a, b, quals)
    requires forall t :: t in quals ==> (p == t <==> q == t)
    ensures Aligned(a + Tag(p, names), b + Tag(q, names), quals)
  {
  }

  lemma FinalCols(r: RelInfo, rels: seq<RelInfo>, quals: set<string>)
    ensures FinalRel(r, rels, quals).cols == r.cols
  {
  }

  /** In every prefix of the relations, preparing them moves no qualifier that a column uses. */
  lemma {:induction false} SlotsAligned(part: seq<RelInfo>, rels: seq<RelInfo>, quals: set<string>, w: Rewrite)
    requires w.Covered()
    requires forall i :: 0 <= i < |part| ==> part[i].qualifier == Qualifier(part[i].elab)
    requires quals <= Qualifiers(rels)
    ensures Aligned(Slots(part), PrepSlots(FinalRels(part, rels, quals), w), quals)
  {
    if part != [] {
      hide Aligned, FinalRel, PrepRel, Qualifier, Tag, Qualifiers;
      var n := |part| - 1;
      SlotsAligned(part[..n], rels, quals, w);
      var finals := FinalRels(part, rels, quals);
      assert finals[..n] == FinalRels(part[..n], rels, quals);
      forall t | t in quals
        ensures part[n].qualifier == t <==> Qualifier(PrepRel(finals[n].elab, w)) == t
      {
        QualifierStable(part[n], rels, quals, w, t);
      }
      FinalCols(part[n], rels, quals);
      ConcatAligned(Slots(part[..n]), PrepSlots(finals[..n], w),
                    part[n].qualifier, Qualifier(PrepRel(finals[n].elab, w)), ColNames(part[n].cols), quals);
    }
  }

  lemma {:induction false} SlotsPrefix(rels: seq<RelInfo>, k: nat)
    requires k <= |rels|
    ensures Slots(rels[..k]) <= Slots(rels)
  {
    if k == |rels| {
      assert rels[..k] == rels;
    } else {
      var n := |rels| - 1;
      SlotsPrefix(rels[..n], k);
      assert rels[..n][..k] == rels[..k];
    }
  }

  lemma {:induction false} PrepSlotsPrefix(finals: seq<RelInfo>, k: nat, w: Rewrite)
    requires w.Covered() && k <= |finals|
    ensures PrepSlots(finals[..k], w) <= PrepSlots(finals, w)
  {
    if k == |finals| {
      assert finals[..k] == finals;
    } else {
      var n := |finals| - 1;
      PrepSlotsPrefix(finals[..n], k, w);
      assert finals[..n][..k] == finals[..k];
    }
  }

  /** The output name of an expression is the analyzer's, before and after Prepare. */
  lemma {:induction false} NameStable(e: Expr, rels: seq<RelInfo>, scope: Scope, c: Context, w: Rewrite)
    requires AnalyzeExpr(e, rels, scope, c).Ok? && w.Covered()
    ensures AnalyzeExpr(e, rels, scope, c).value.col.name == OutputName(e)
    ensures OutputName(PrepExpr(AnalyzeExpr(e, rels, scope, c).value.elab, w)) == OutputName(e)
  {
    hide AnalyzeQuery, AnalyzeColumn, AliasAllowed, PrepQuery, NumberNode, DollarBody;
    match e
    case Paren(x) =>
      ParenShape(x, rels, scope, c);
      NameStable(x, rels, scope, c, w);
    case Binary(op, l, r) => BinaryShape(op, l, r, rels, scope, c);
    case In(x, q) => InShape(x, q, rels, scope, c);
    case Column(table, column) => ColumnNamed(table, column, rels);
    case Number(text) => NumberUnnamed(ParseDigits(text), w);
    case Neg(x) => NumberUnnamed(-ParseDigits(StripParens(x).text), w);
    case _ =>
  }

  lemma ColumnNamed(table: Option<Ident>, column: Ident, rels: seq<RelInfo>)
    requires AnalyzeColumn(table, column, rels).Ok?
    ensures AnalyzeColumn(table, column, rels).value.elab == Column(table, column)
    ensures AnalyzeColumn(table, column, rels).value.col.name == column.name
  {
    hide Slots, SlotCols, Hits;
    var name := column.name;
    var qual := if table.Some? then table.value.name else "";
    var hits := Hits(Slots(rels), qual, name);
    assert Hit(Slots(rels)[hits[0]], qual, name);
  }

  lemma NumberUnnamed(n: int, w: Rewrite)
    requires w.Covered()
    ensures OutputName(PrepExpr(NumberNode(n), w)) == ""
  {
    hide DigitString;
  }
}
