/**
 An accepted query whose value is not of the analyzed type. The alias z written in the first ON condition is
 checked against a and b only; c, joined later, has a column z, and the projection means the alias.
 */
module SnapshotLateAlias {
  import opened Common
  import opened SnapshotIntegers
  import opened SnapshotAst
  import opened SnapshotEval
  import opened SnapshotAnalyze
  import opened SnapshotTyping

  function Word(s: string): Ident
  {
    Ident(s, false)
  }

  function Named(node: nat, name: string): Rel
  {
    Table(node, None, Word(name), None, None)
  }

  function Of(table: string, column: string): Expr
  {
    Column(Some(Word(table)), Word(column))
  }

  const FIRST_ON := Binary(Eq, Of("a", "x"), Paren(Aliased(Of("b", "y"), Word("z"))))
  const SECOND_ON := Binary(Eq, Of("a", "x"), Of("c", "x"))

  /** `SELECT z FROM a ALL INNER JOIN b ON a.x = (b.y AS z) ALL INNER JOIN c ON a.x = c.x`. */
  const QUERY :=
    Select([], [Column(None, Word("z"))], Some(Named(0, "a")),
           [Join(Named(1, "b"), FIRST_ON, true), Join(Named(2, "c"), SECOND_ON, true)], None)

  const A := CatalogTable("1", [CatalogColumn("x", UInt8, true)])
  const B := CatalogTable("2", [CatalogColumn("y", UInt8, true)])
  const C := CatalogTable("3", [CatalogColumn("x", UInt8, true), CatalogColumn("z", Type.Named("String"), true)])

  const CATALOG := Context("d", map[("d", "a") := A, ("d", "b") := B, ("d", "c") := C])

  const ONE := Val(UInt8, Payload.Integer(1))

  const TEXT := Val(Type.Named("String"), Text("s"))

  /** One row in each table. */
  const STORED :=
    Db("d", map[("d", "a") := TableValue(["x"], [[ONE]]), ("d", "b") := TableValue(["y"], [[ONE]]),
                ("d", "c") := TableValue(["x", "z"], [[ONE, TEXT]])])

  const SCOPE_2 := [QName("a", "x"), QName("b", "y")]
  const SCOPE_3 := [QName("a", "x"), QName("b", "y"), QName("c", "x"), QName("c", "z")]

  // ---------------------------------------------------------------------------------------
  // References

  lemma HitsLast(cols: seq<QName>, c: QName, qual: string, name: string)
    ensures Hits(cols + [c], qual, name) == Hits(cols, qual, name) + if Hit(c, qual, name) then [|cols|] else []
  {
    assert (cols + [c])[..|cols|] == cols;
  }

  lemma HitsInTwo(qual: string, name: string)
    ensures Hits(SCOPE_2, qual, name) ==
      (if Hit(QName("a", "x"), qual, name) then [0] else []) + (if Hit(QName("b", "y"), qual, name) then [1] else [])
  {
    HitsLast([], QName("a", "x"), qual, name);
    HitsLast([QName("a", "x")], QName("b", "y"), qual, name);
    assert Hits([], qual, name) == [];
    hide Hits, Hit;
    assert [] + [QName("a", "x")] == [QName("a", "x")];
    assert [QName("a", "x")] + [QName("b", "y")] == SCOPE_2;
  }

  lemma HitsInThree(qual: string, name: string)
    ensures Hits(SCOPE_3, qual, name) ==
      Hits(SCOPE_2, qual, name) + (if Hit(QName("c", "x"), qual, name) then [2] else []) + (if Hit(QName("c", "z"), qual, name) then [3] else [])
  {
    hide Hits, Hit;
    HitsLast(SCOPE_2, QName("c", "x"), qual, name);
    HitsLast(SCOPE_2 + [QName("c", "x")], QName("c", "z"), qual, name);
    assert SCOPE_2 + [QName("c", "x")] + [QName("c", "z")] == SCOPE_3;
  }

  lemma References()
    ensures Hits(SCOPE_2, "a", "x") == [0] && Hits(SCOPE_2, "b", "y") == [1]
    ensures Hits(SCOPE_3, "a", "x") == [0] && Hits(SCOPE_3, "b", "y") == [1]
    ensures Hits(SCOPE_3, "c", "x") == [2] && Hits(SCOPE_3, "", "z") == [3]
  {
    hide Hits;
    HitsInTwo("a", "x");
    HitsInTwo("b", "y");
    HitsInTwo("c", "x");
    HitsInTwo("", "z");
    HitsInThree("a", "x");
    HitsInThree("b", "y");
    HitsInThree("c", "x");
    HitsInThree("", "z");
  }

  // ---------------------------------------------------------------------------------------
  // The analysis accepts the query

  function RelOf(node: nat, name: string, t: CatalogTable): RelInfo
  {
    var b := Bound(node, t.id, false, {});
    RelInfo(TableCols(t.columns), name, [b], {}, {t.id}, Named(node, name).(bound := Some(b)), true)
  }

  const TWO := [RelOf(0, "a", A), RelOf(1, "b", B)]
  const THREE := [RelOf(0, "a", A), RelOf(1, "b", B), RelOf(2, "c", C)]

  function ColOf(t: Type, name: string): Col
  {
    Col(t, name, None, false, false, false)
  }

  lemma Columns()
    ensures TableCols(A.columns) == [ColOf(UInt8, "x")]
    ensures TableCols(B.columns) == [ColOf(UInt8, "y")]
    ensures TableCols(C.columns) == [ColOf(UInt8, "x"), ColOf(Type.Named("String"), "z")]
  {
  }

  lemma TaggedNames()
    ensures Tag("a", ColNames([ColOf(UInt8, "x")])) == [QName("a", "x")]
    ensures Tag("b", ColNames([ColOf(UInt8, "y")])) == [QName("b", "y")]
    ensures Tag("c", ColNames([ColOf(UInt8, "x"), ColOf(Type.Named("String"), "z")])) == [QName("c", "x"), QName("c", "z")]
  {
    hide Tag, ColNames;
    assert ColNames([ColOf(UInt8, "x")]) == ["x"] && ColNames([ColOf(UInt8, "y")]) == ["y"];
    assert ColNames([ColOf(UInt8, "x"), ColOf(Type.Named("String"), "z")]) == ["x", "z"];
  }

  lemma SlotsLast(rels: seq<RelInfo>, r: RelInfo)
    ensures Slots(rels + [r]) == Slots(rels) + Tag(r.qualifier, ColNames(r.cols))
    ensures SlotCols(rels + [r]) == SlotCols(rels) + r.cols
  {
    hide Tag, ColNames;
    assert (rels + [r])[..|rels|] == rels;
  }

  lemma RelColumns()
    ensures RelOf(0, "a", A).cols == [ColOf(UInt8, "x")] && Tag("a", ColNames(RelOf(0, "a", A).cols)) == [QName("a", "x")]
    ensures RelOf(1, "b", B).cols == [ColOf(UInt8, "y")] && Tag("b", ColNames(RelOf(1, "b", B).cols)) == [QName("b", "y")]
    ensures RelOf(2, "c", C).cols == [ColOf(UInt8, "x"), ColOf(Type.Named("String"), "z")]
    ensures Tag("c", ColNames(RelOf(2, "c", C).cols)) == [QName("c", "x"), QName("c", "z")]
  {
    hide Tag, ColNames, TableCols;
    Columns();
    TaggedNames();
  }

  lemma OneScope(r: RelInfo)
    ensures Slots([r]) == Tag(r.qualifier, ColNames(r.cols)) && SlotCols([r]) == r.cols
  {
    hide Tag, ColNames;
    SlotsLast([], r);
    assert Slots([]) == [] && SlotCols([]) == [] && [] + [r] == [r];
  }

  lemma Joined<T>(a: T, b: T, c: T, d: T)
    ensures [a] + [b] == [a, b] && [a, b] + [c, d] == [a, b, c, d]
  {
  }

  lemma ScopeOfTwo(a: RelInfo, b: RelInfo)
    ensures Slots([a, b]) == Tag(a.qualifier, ColNames(a.cols)) + Tag(b.qualifier, ColNames(b.cols))
    ensures SlotCols([a, b]) == a.cols + b.cols
  {
    hide Slots, SlotCols, Tag, ColNames;
    OneScope(a);
    SlotsLast([a], b);
    assert [a] + [b] == [a, b];
  }

  lemma ScopeOfThree(a: RelInfo, b: RelInfo, c: RelInfo)
    ensures Slots([a, b, c]) == Slots([a, b]) + Tag(c.qualifier, ColNames(c.cols))
    ensures SlotCols([a, b, c]) == SlotCols([a, b]) + c.cols
  {
    hide Slots, SlotCols, Tag, ColNames;
    SlotsLast([a, b], c);
    assert [a, b] + [c] == [a, b, c];
  }

  lemma ScopesAre()
    ensures Slots([RelOf(0, "a", A)]) == [QName("a", "x")] && Slots([RelOf(2, "c", C)]) == [QName("c", "x"), QName("c", "z")]
    ensures Slots(TWO) == SCOPE_2 && SlotCols(TWO) == [ColOf(UInt8, "x"), ColOf(UInt8, "y")]
    ensures Slots(THREE) == SCOPE_3
    ensures SlotCols(THREE) == [ColOf(UInt8, "x"), ColOf(UInt8, "y"), ColOf(UInt8, "x"), ColOf(Type.Named("String"), "z")]
  {
    RelColumns();
    var a, b, c := RelOf(0, "a", A), RelOf(1, "b", B), RelOf(2, "c", C);
    assert a.qualifier == "a" && b.qualifier == "b" && c.qualifier == "c" && TWO == [a, b] && THREE == [a, b, c];
    hide Slots, SlotCols, Tag, ColNames, TableCols, RelOf;
    OneScope(a);
    OneScope(c);
    ScopeOfTwo(a, b);
    ScopeOfThree(a, b, c);
    Joined(QName("a", "x"), QName("b", "y"), QName("c", "x"), QName("c", "z"));
    Joined(ColOf(UInt8, "x"), ColOf(UInt8, "y"), ColOf(UInt8, "x"), ColOf(Type.Named("String"), "z"));
  }

  lemma NamesChecked()
    ensures forall n :: n in ["a", "b", "c", "x", "y", "z"] ==> CheckIdent(Word(n)) == Ok(n)
  {
  }

  lemma TableAnalyzed(node: nat, name: string, t: CatalogTable)
    requires (name == "a" && t == A) || (name == "b" && t == B) || (name == "c" && t == C)
    ensures AnalyzeRel(Named(node, name), map[], CATALOG) == Ok(RelOf(node, name, t))
  {
    hide CheckIdent, TableCols;
    NamesChecked();
    assert name in ["a", "b", "c", "x", "y", "z"] && ("d", name) in CATALOG.catalog && CATALOG.catalog[("d", name)] == t;
  }

  function InfoOf(t: Type, name: string, e: Expr, quals: set<string>): ExprInfo
  {
    ExprInfo(ColOf(t, name), e, [], {}, quals, {}, true)
  }

  /** A qualified or bare reference with one candidate is that column. */
  lemma ColumnFound(table: Option<Ident>, column: string, rels: seq<RelInfo>, at: nat, t: Type)
    requires column in ["x", "y", "z"] && (table.Some? ==> table.value in [Word("a"), Word("b"), Word("c")])
    requires Hits(Slots(rels), if table.Some? then table.value.name else "", column) == [at]
    requires at < |SlotCols(rels)| && SlotCols(rels)[at] == ColOf(t, column)
    ensures AnalyzeExpr(Column(table, Word(column)), rels, map[], CATALOG) ==
      Ok(InfoOf(t, column, Column(table, Word(column)), if table.Some? then {table.value.name} else {}))
  {
    NamesChecked();
    hide Hits, Slots, SlotCols, CheckIdent;
    assert column in ["a", "b", "c", "x", "y", "z"] && (table.Some? ==> table.value.name in ["a", "b", "c", "x", "y", "z"]);
    assert table.Some? ==> table.value == Word(table.value.name) && table.value.name != "";
  }

  lemma ColumnsAnalyzed()
    ensures AnalyzeExpr(Of("a", "x"), TWO, map[], CATALOG) == Ok(InfoOf(UInt8, "x", Of("a", "x"), {"a"}))
    ensures AnalyzeExpr(Of("b", "y"), TWO, map[], CATALOG) == Ok(InfoOf(UInt8, "y", Of("b", "y"), {"b"}))
    ensures AnalyzeExpr(Of("a", "x"), THREE, map[], CATALOG) == Ok(InfoOf(UInt8, "x", Of("a", "x"), {"a"}))
    ensures AnalyzeExpr(Of("c", "x"), THREE, map[], CATALOG) == Ok(InfoOf(UInt8, "x", Of("c", "x"), {"c"}))
    ensures AnalyzeExpr(Column(None, Word("z")), THREE, map[], CATALOG) ==
      Ok(InfoOf(Type.Named("String"), "z", Column(None, Word("z")), {}))
  {
    References();
    ScopesAre();
    hide Hits, Slots, SlotCols, AnalyzeExpr;
    ColumnFound(Some(Word("a")), "x", TWO, 0, UInt8);
    ColumnFound(Some(Word("b")), "y", TWO, 1, UInt8);
    ColumnFound(Some(Word("a")), "x", THREE, 0, UInt8);
    ColumnFound(Some(Word("c")), "x", THREE, 2, UInt8);
    ColumnFound(None, "z", THREE, 3, Type.Named("String"));
  }

  const ALIAS := Aliased(Of("b", "y"), Word("z"))

  function OnInfo(e: Expr, quals: set<string>): ExprInfo
  {
    ExprInfo(TruthCol(false), e, [], {}, quals, {}, true)
  }

  /** The alias passes the check against a and b. */
  lemma AliasAnalyzed()
    ensures AnalyzeExpr(Paren(ALIAS), TWO, map[], CATALOG) == Ok(InfoOf(UInt8, "z", Paren(ALIAS), {"b"}))
  {
    NamesChecked();
    ColumnsAnalyzed();
    ScopesAre();
    hide Slots, SlotCols, CheckIdent, AnalyzeColumn;
    assert "z" in ["a", "b", "c", "x", "y", "z"];
    assert AliasAllowed(Of("b", "y"), "z", SCOPE_2);
    assert AliasedInfo(InfoOf(UInt8, "y", Of("b", "y"), {"b"}), Word("z"), SCOPE_2) == Ok(InfoOf(UInt8, "z", ALIAS, {"b"}));
    assert AnalyzeExpr(ALIAS, TWO, map[], CATALOG) == Ok(InfoOf(UInt8, "z", ALIAS, {"b"}));
  }

  lemma EqualityInfo(l: Expr, r: Expr, m: string, n: string, p: set<string>, q: set<string>)
    ensures BinaryInfo(Eq, InfoOf(UInt8, m, l, p), Ok(InfoOf(UInt8, n, r, q))) == Ok(OnInfo(Binary(Eq, l, r), p + q))
  {
    var none: seq<Bound> := [];
    var noDefs: set<Def> := {};
    var noIds: set<string> := {};
    assert none + none == none && noDefs + noDefs == noDefs && noIds + noIds == noIds;
  }

  /** An equality of two integer columns. */
  lemma EqualityAnalyzed(l: Expr, r: Expr, rels: seq<RelInfo>, m: string, n: string, p: set<string>, q: set<string>)
    requires AnalyzeExpr(l, rels, map[], CATALOG) == Ok(InfoOf(UInt8, m, l, p))
    requires AnalyzeExpr(r, rels, map[], CATALOG) == Ok(InfoOf(UInt8, n, r, q))
    ensures AnalyzeExpr(Binary(Eq, l, r), rels, map[], CATALOG) == Ok(OnInfo(Binary(Eq, l, r), p + q))
  {
    EqualityInfo(l, r, m, n, p, q);
    hide BinaryInfo, InfoOf, OnInfo, AnalyzeQuery, AnalyzeColumn, AnalyzeNumber, AnalyzeNeg, StringInfo, ParenInfo, AliasedInfo, ScalarInfo, NotInfo, InInfo;
  }

  lemma JoinsAnalyzed()
    ensures AnalyzeJoins(QUERY.joins, [RelOf(0, "a", A)], map[], CATALOG) ==
      Ok(JoinsInfo(THREE, [OnInfo(FIRST_ON, {"a"} + {"b"}), OnInfo(SECOND_ON, {"a"} + {"c"})]))
  {
    ColumnsAnalyzed();
    AliasAnalyzed();
    hide AnalyzeExpr, AnalyzeRel, RelOf;
    EqualityAnalyzed(Of("a", "x"), Paren(ALIAS), TWO, "x", "z", {"a"}, {"b"});
    EqualityAnalyzed(Of("a", "x"), Of("c", "x"), THREE, "x", "x", {"a"}, {"c"});
    TableAnalyzed(1, "b", B);
    TableAnalyzed(2, "c", C);
    var first, second := QUERY.joins[0], QUERY.joins[1];
    assert [RelOf(0, "a", A)] + [RelOf(1, "b", B)] == TWO && TWO + [RelOf(2, "c", C)] == THREE;
    assert AnalyzeJoin(first, [RelOf(0, "a", A)], map[], CATALOG) == Ok((RelOf(1, "b", B), OnInfo(FIRST_ON, {"a"} + {"b"})));
    assert AnalyzeJoin(second, TWO, map[], CATALOG) == Ok((RelOf(2, "c", C), OnInfo(SECOND_ON, {"a"} + {"c"})));
    assert QUERY.joins[1..] == [second] && [second][1..] == [] && [second][0] == second;
    var none: seq<ExprInfo> := [];
    var on1, on2 := OnInfo(FIRST_ON, {"a"} + {"b"}), OnInfo(SECOND_ON, {"a"} + {"c"});
    assert [on2] + none == [on2] && [on1] + [on2] == [on1, on2];
    assert AnalyzeJoins([], THREE, map[], CATALOG) == Ok(JoinsInfo(THREE, none));
    assert AnalyzeJoins([second], TWO, map[], CATALOG) == Ok(JoinsInfo(THREE, [on2]));
  }

  function Analysis(): SelectInfo
  {
    SelectInfo(map[], [], [RelOf(0, "a", A)], THREE, [OnInfo(FIRST_ON, {"a"} + {"b"}), OnInfo(SECOND_ON, {"a"} + {"c"})],
               [InfoOf(Type.Named("String"), "z", Column(None, Word("z")), {})], [])
  }

  lemma ItemsAre()
    ensures AnalyzeExprs(QUERY.items, THREE, map[], CATALOG) == Ok(Analysis().items)
  {
    ColumnsAnalyzed();
    hide AnalyzeExpr;
    var item := InfoOf(Type.Named("String"), "z", Column(None, Word("z")), {});
    var none: seq<ExprInfo> := [];
    assert QUERY.items[1..] == [] && AnalyzeExprs([], THREE, map[], CATALOG) == Ok(none) && [item] + none == [item];
  }

  lemma SelectAnalyzed()
    ensures AnalyzeSelect(QUERY, map[], CATALOG) == Ok(Analysis())
  {
    TableAnalyzed(0, "a", A);
    JoinsAnalyzed();
    ItemsAre();
    ThreeQualifiers();
    hide AnalyzeExprs, AnalyzeJoins, AnalyzeRel, DistinctQualifiers, RelOf, OnInfo, InfoOf;
    assert AnalyzeWith([], map[], {}, CATALOG) == Ok(WithInfo(map[], []));
  }

  lemma ThreeQualifiers()
    ensures DistinctQualifiers(THREE)
  {
  }

  /** Against c alone the alias is refused. */
  lemma AliasIsLate()
    ensures !Analysis().Clear(QUERY)
  {
    ScopesAre();
    hide Slots;
    assert THREE[1 + 0 + 1..] == [RelOf(2, "c", C)];
    var late := Slots([RelOf(2, "c", C)]);
    assert late[1].name == "z" && !AliasAllowed(Of("b", "y"), "z", late);
    assert !AliasSafeAt(ALIAS, "z", late);
    assert !AliasSafeAt(Paren(ALIAS), "z", late);
    assert !AliasSafeAt(FIRST_ON, "z", late);
    assert "z" in BareNames(QUERY.items[0]);
    assert "z" in SelectNames(QUERY);
    hide SelectNames, AliasSafeAt;
    assert !AliasSafeAt(QUERY.joins[0].on, "z", Slots(THREE[|THREE| - |QUERY.joins| + 0 + 1..]));
    assert !LateClear(QUERY, THREE);
  }

  // ---------------------------------------------------------------------------------------
  // What it means

  lemma Looked(alias: map<string, Res<Value>>, cols: seq<QName>, table: string, column: string, at: nat, vals: Row)
    requires Hits(cols, table, column) == [at] && at < |vals|
    ensures EvalExpr(Of(table, column), cols, RowEnv(vals, alias), map[], STORED) == Done(vals[at])
  {
    hide Hits;
  }

  /** An equality of two values that are 1. */
  lemma Equal(l: Expr, r: Expr, cols: seq<QName>, row: RowEnv)
    requires EvalExpr(l, cols, row, map[], STORED) == Done(ONE) && EvalExpr(r, cols, row, map[], STORED) == Done(ONE)
    ensures EvalExpr(Binary(Eq, l, r), cols, row, map[], STORED) == Done(ONE)
  {
  }

  lemma FirstHolds(alias: map<string, Res<Value>>)
    ensures EvalExpr(FIRST_ON, SCOPE_2, RowEnv([ONE, ONE], alias), map[], STORED) == Done(ONE)
  {
    References();
    hide Hits;
    Looked(alias, SCOPE_2, "a", "x", 0, [ONE, ONE]);
    Looked(alias, SCOPE_2, "b", "y", 1, [ONE, ONE]);
    var row := RowEnv([ONE, ONE], alias);
    assert EvalExpr(Paren(ALIAS), SCOPE_2, row, map[], STORED) == Done(ONE);
    Equal(Of("a", "x"), Paren(ALIAS), SCOPE_2, row);
  }

  lemma SecondHolds(alias: map<string, Res<Value>>)
    ensures EvalExpr(SECOND_ON, SCOPE_3, RowEnv([ONE, ONE, ONE, TEXT], alias), map[], STORED) == Done(ONE)
  {
    References();
    hide Hits;
    Looked(alias, SCOPE_3, "a", "x", 0, [ONE, ONE, ONE, TEXT]);
    Looked(alias, SCOPE_3, "c", "x", 2, [ONE, ONE, ONE, TEXT]);
    Equal(Of("a", "x"), Of("c", "x"), SCOPE_3, RowEnv([ONE, ONE, ONE, TEXT], alias));
  }

  /** A condition that holds on the one row keeps it. */
  lemma OneRowKept(e: Expr, cols: seq<QName>, row: RowEnv)
    requires EvalExpr(e, cols, row, map[], STORED) == Done(ONE)
    ensures FilterRows(e, cols, [row], map[], STORED) == Done([row.vals])
  {
    hide EvalExpr;
    var none: seq<Row> := [];
    assert [row][1..] == [] && FilterRows(e, cols, [], map[], STORED) == Done(none) && [row.vals] + none == [row.vals];
  }

  lemma OneRowAnnotated(cols: seq<QName>, vals: Row)
    ensures Annotate(QUERY, cols, [vals], map[], STORED) == [RowEnv(vals, SelectAliases(QUERY, cols, vals, map[], STORED))]
  {
    hide SelectAliases;
    assert [vals][1..] == [] && Annotate(QUERY, cols, [], map[], STORED) == [];
  }

  lemma OneProduct(l: Row, r: Row)
    ensures Product([l], [r]) == [l + r]
  {
    assert [r][1..] == [] && PrefixEach(l, []) == [] && [l][1..] == [] && Product([], [r]) == [];
    assert PrefixEach(l, [r]) == [l + r];
  }

  lemma TablesStored()
    ensures EvalRel(Named(0, "a"), map[], STORED) == Done(TableValue(["x"], [[ONE]]))
    ensures EvalRel(Named(1, "b"), map[], STORED) == Done(TableValue(["y"], [[ONE]]))
    ensures EvalRel(Named(2, "c"), map[], STORED) == Done(TableValue(["x", "z"], [[ONE, TEXT]]))
    ensures Tag("a", ["x"]) == [QName("a", "x")] && Tag("b", ["y"]) == [QName("b", "y")]
    ensures Tag("c", ["x", "z"]) == [QName("c", "x"), QName("c", "z")]
  {
  }

  lemma SourceIs()
    ensures EvalSource(QUERY, map[], STORED) == Done(Source(SCOPE_3, [[ONE, ONE, ONE, TEXT]]))
  {
    TablesStored();
    Joined(QName("a", "x"), QName("b", "y"), QName("c", "x"), QName("c", "z"));
    Joined(ONE, ONE, ONE, TEXT);
    var row1, row2 := [ONE, ONE], [ONE, ONE, ONE, TEXT];
    OneProduct([ONE], [ONE]);
    OneProduct(row1, [ONE, TEXT]);
    hide EvalExpr, SelectAliases, FilterRows, Annotate, Product, EvalRel, Tag;
    OneRowAnnotated(SCOPE_2, row1);
    OneRowAnnotated(SCOPE_3, row2);
    FirstHolds(SelectAliases(QUERY, SCOPE_2, row1, map[], STORED));
    SecondHolds(SelectAliases(QUERY, SCOPE_3, row2, map[], STORED));
    OneRowKept(FIRST_ON, SCOPE_2, RowEnv(row1, SelectAliases(QUERY, SCOPE_2, row1, map[], STORED)));
    OneRowKept(SECOND_ON, SCOPE_3, RowEnv(row2, SelectAliases(QUERY, SCOPE_3, row2, map[], STORED)));
    var s0, s1, s2 := Source([QName("a", "x")], [[ONE]]), Source(SCOPE_2, [row1]), Source(SCOPE_3, [row2]);
    assert EvalFrom(QUERY.from, map[], STORED) == Done(s0);
    assert EvalJoin(QUERY, 0, s0, map[], STORED) == Done(s1);
    assert EvalJoin(QUERY, 1, s1, map[], STORED) == Done(s2);
    hide EvalJoin, EvalFrom;
    assert EvalJoins(QUERY, 2, s2, map[], STORED) == Done(s2);
    assert EvalJoins(QUERY, 1, s1, map[], STORED) == Done(s2);
    assert EvalJoins(QUERY, 0, s0, map[], STORED) == Done(s2);
  }

  /** The projection's z is the alias of the ON condition. */
  lemma AliasIsMeant()
    ensures var alias := SelectAliases(QUERY, SCOPE_3, [ONE, ONE, ONE, TEXT], map[], STORED);
      "z" in alias && alias["z"] == Done(ONE)
  {
    References();
    hide Hits;
    var vals := [ONE, ONE, ONE, TEXT];
    Looked(map[], SCOPE_3, "b", "y", 1, vals);
    hide EvalExpr;
    assert AliasValues(SECOND_ON, SCOPE_3, vals, map[], STORED) == map[];
    assert AliasValues(ALIAS, SCOPE_3, vals, map[], STORED)["z"] == Done(ONE);
    assert AliasValues(FIRST_ON, SCOPE_3, vals, map[], STORED)["z"] == Done(ONE);
    hide AliasValues;
    assert QUERY.joins[1..] == [QUERY.joins[1]] && [QUERY.joins[1]][1..] == [];
    assert JoinAliases(QUERY.joins[0], SCOPE_3, vals, map[], STORED)["z"] == Done(ONE);
    assert OnAliases([], SCOPE_3, vals, map[], STORED) == map[];
    assert OnAliases([QUERY.joins[1]], SCOPE_3, vals, map[], STORED) == map[];
    assert OnAliases(QUERY.joins, SCOPE_3, vals, map[], STORED)["z"] == Done(ONE);
  }

  lemma RowIs()
    ensures EvalSelect(QUERY, map[], STORED) == Done(TableValue(["z"], [[ONE]]))
  {
    SourceIs();
    AliasIsMeant();
    var vals := [ONE, ONE, ONE, TEXT];
    var row := RowEnv(vals, SelectAliases(QUERY, SCOPE_3, vals, map[], STORED));
    OneRowAnnotated(SCOPE_3, vals);
    assert EvalExpr(Column(None, Word("z")), SCOPE_3, row, map[], STORED) == Done(ONE);
    hide EvalSource, SelectAliases, Annotate, EvalExpr;
    var none: Row := [];
    var noRows: seq<Row> := [];
    assert QUERY.items[1..] == [] && EvalItems([], SCOPE_3, row, map[], STORED) == Done(none) && [ONE] + none == [ONE];
    assert EvalItems(QUERY.items, SCOPE_3, row, map[], STORED) == Done([ONE]);
    hide EvalItems;
    assert [row][1..] == [] && ProjectRows(QUERY.items, SCOPE_3, [], map[], STORED) == Done(noRows) && [[ONE]] + noRows == [[ONE]];
    assert ProjectRows(QUERY.items, SCOPE_3, [row], map[], STORED) == Done([[ONE]]);
    var noNames: seq<string> := [];
    assert Names([]) == noNames && Names(QUERY.items) == ["z"] + noNames && ["z"] + noNames == ["z"];
  }

  /** The tables are as the catalog says. */
  lemma StoredFits()
    ensures DbFits(CATALOG, STORED)
  {
    Columns();
    hide TableCols;
    assert Conforms(ONE, UInt8) && Conforms(TEXT, Type.Named("String"));
    forall key | key in CATALOG.catalog
      ensures TableFits(STORED.tables[key], TableCols(CATALOG.catalog[key].columns))
    {
    }
  }

  /** The analyzer accepts the query, types its column String, and it yields a number. */
  lemma LateAliasBreaksTyping()
    ensures AnalyzeQuery(QUERY, map[], CATALOG).Ok?
    ensures var i := AnalyzeQuery(QUERY, map[], CATALOG).value;
      i.cols == [ColOf(Type.Named("String"), "z")] && !i.clear
    ensures DbFits(CATALOG, STORED)
    ensures EvalQuery(QUERY, map[], STORED) == Done(TableValue(["z"], [[ONE]]))
    ensures !RowFits([ONE], AnalyzeQuery(QUERY, map[], CATALOG).value.cols)
  {
    SelectAnalyzed();
    AliasIsLate();
    StoredFits();
    RowIs();
    hide AnalyzeSelect, EvalSelect, Slots, DbFits;
    assert EvalWith([], map[], STORED) == map[];
    assert InfoCols(Analysis().items) == [ColOf(Type.Named("String"), "z")];
  }
}
