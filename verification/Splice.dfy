/** Splicing decided table names into a command: edits in place equal one simultaneous substitution. */
module Splice {
  import opened Common
  import opened Tokens

  type Bytes = seq<Byte>

  // ---------------------------------------------------------------------------------------
  // Substitution

  /** The bytes [start, end) are replaced by text. */
  datatype Edit = Edit(start: nat, end: nat, text: Bytes)

  /** The edits lie in order inside [from, to) without overlap. */
  predicate InOrder(edits: seq<Edit>, from: nat, to: nat)
  {
    if edits == [] then from <= to
    else from <= edits[0].start <= edits[0].end && InOrder(edits[1..], edits[0].end, to)
  }

  lemma {:induction false} InOrderBounds(edits: seq<Edit>, from: nat, to: nat)
    requires InOrder(edits, from, to)
    ensures from <= to
    ensures forall i :: 0 <= i < |edits| ==> from <= edits[i].start <= edits[i].end <= to
    ensures forall i, k :: 0 <= i < k < |edits| ==> edits[i].end <= edits[k].start
  {
    if edits != [] {
      InOrderBounds(edits[1..], edits[0].end, to);
      assert forall i :: 0 < i < |edits| ==> edits[i] == edits[1..][i - 1];
    }
  }

  lemma {:induction false} OrderedIsInOrder(edits: seq<Edit>, from: nat, to: nat)
    requires from <= to
    requires forall i :: 0 <= i < |edits| ==> from <= edits[i].start <= edits[i].end <= to
    requires forall i, k :: 0 <= i < k < |edits| ==> edits[i].end <= edits[k].start
    ensures InOrder(edits, from, to)
  {
    if edits != [] {
      assert forall i :: 0 < i < |edits| ==> edits[i] == edits[1..][i - 1];
      OrderedIsInOrder(edits[1..], edits[0].end, to);
    }
  }

  /** The simultaneous substitution: every byte of [from, to) outside the edits once, every edit's text once, in order. */
  function Substitute(sql: Bytes, edits: seq<Edit>, from: nat, to: nat): Bytes
    requires to <= |sql| && InOrder(edits, from, to)
    decreases |edits|
  {
    InOrderBounds(edits, from, to);
    if edits == [] then sql[from..to]
    else sql[from..edits[0].start] + edits[0].text + Substitute(sql, edits[1..], edits[0].end, to)
  }

  /** Keeping every span as written substitutes nothing. */
  lemma {:induction false} KeepingIsIdentity(sql: Bytes, edits: seq<Edit>, from: nat, to: nat)
    requires from <= to <= |sql| && InOrder(edits, from, to)
    requires forall i :: 0 <= i < |edits| ==> edits[i].end <= |sql| && edits[i].start <= edits[i].end && edits[i].text == sql[edits[i].start..edits[i].end]
    ensures Substitute(sql, edits, from, to) == sql[from..to]
    decreases |edits|
  {
    if edits != [] {
      var e := edits[0];
      SubstituteFirst(sql, edits, from, to);
      assert forall i :: 0 <= i < |edits[1..]| ==> edits[1..][i] == edits[i + 1];
      hide Substitute, InOrder;
      KeepingIsIdentity(sql, edits[1..], e.end, to);
      assert sql[from..e.start] + sql[e.start..e.end] + sql[e.end..to] == sql[from..to];
    }
  }

  /** Where byte p of the text ends up: unedited bytes keep their order and value, moved by what the edits before them added. */
  function Shift(edits: seq<Edit>, p: nat): int
  {
    if edits == [] || p < edits[0].end then 0
    else |edits[0].text| - (edits[0].end - edits[0].start) + Shift(edits[1..], p)
  }

  lemma {:induction false} UneditedByteSurvives(sql: Bytes, edits: seq<Edit>, from: nat, to: nat, p: nat)
    requires to <= |sql| && InOrder(edits, from, to) && from <= p < to
    requires forall i :: 0 <= i < |edits| ==> !(edits[i].start <= p < edits[i].end)
    ensures 0 <= p - from + Shift(edits, p) < |Substitute(sql, edits, from, to)|
    ensures Substitute(sql, edits, from, to)[p - from + Shift(edits, p)] == sql[p]
    decreases |edits|
  {
    InOrderBounds(edits, from, to);
    if edits != [] {
      assert !(edits[0].start <= p < edits[0].end);
      if p >= edits[0].end {
        assert forall i :: 0 <= i < |edits[1..]| ==> edits[1..][i] == edits[i + 1];
        UneditedByteSurvives(sql, edits[1..], edits[0].end, to, p);
      }
    }
  }

  /** The edits from index i on, seen from where the edit before them ends. */
  function CutBefore(edits: seq<Edit>, i: nat): nat
    requires i <= |edits|
  {
    if i == 0 then 0 else edits[i - 1].end
  }

  lemma InOrderFrom(edits: seq<Edit>, to: nat, i: nat)
    requires InOrder(edits, 0, to) && i <= |edits|
    ensures InOrder(edits[i..], CutBefore(edits, i), to)
  {
    InOrderBounds(edits, 0, to);
    OrderedIsInOrder(edits[i..], CutBefore(edits, i), to);
  }

  /**
   One edit made in place, right to left: when everything to its right is already substituted and its
   left is still the original, the edit extends the substitution to itself.
   */
  lemma EditInPlace(sql: Bytes, edits: seq<Edit>, i: nat, out: Bytes)
    requires InOrder(edits, 0, |sql|) && i < |edits|
    requires InOrder(edits[i + 1..], edits[i].end, |sql|) && edits[i].start <= edits[i].end <= |sql|
    requires out == sql[..edits[i].end] + Substitute(sql, edits[i + 1..], edits[i].end, |sql|)
    ensures CutBefore(edits, i) <= edits[i].start && InOrder(edits[i..], CutBefore(edits, i), |sql|)
    ensures out[..edits[i].start] + edits[i].text + out[edits[i].end..] ==
      sql[..CutBefore(edits, i)] + Substitute(sql, edits[i..], CutBefore(edits, i), |sql|)
  {
    hide Substitute, InOrder;
    var at, e := CutBefore(edits, i), edits[i];
    InOrderBounds(edits, 0, |sql|);
    InOrderFrom(edits, |sql|, i);
    assert edits[i..][0] == e && edits[i..][1..] == edits[i + 1..];
    SubstituteFirst(sql, edits[i..], at, |sql|);
    PlaceText(sql, at, e, Substitute(sql, edits[i + 1..], e.end, |sql|));
  }

  lemma PlaceText(sql: Bytes, at: nat, e: Edit, right: Bytes)
    requires at <= e.start <= e.end <= |sql|
    ensures var out := sql[..e.end] + right;
      out[..e.start] + e.text + out[e.end..] == sql[..at] + (sql[at..e.start] + e.text + right)
  {
    var out := sql[..e.end] + right;
    assert out[..e.start] == sql[..e.start] == sql[..at] + sql[at..e.start];
    assert out[e.end..] == right;
  }

  lemma SubstituteFirst(sql: Bytes, edits: seq<Edit>, from: nat, to: nat)
    requires to <= |sql| && InOrder(edits, from, to) && edits != []
    ensures from <= edits[0].start <= edits[0].end <= to && InOrder(edits[1..], edits[0].end, to)
    ensures Substitute(sql, edits, from, to) ==
      sql[from..edits[0].start] + edits[0].text + Substitute(sql, edits[1..], edits[0].end, to)
  {
    InOrderBounds(edits, from, to);
  }

  // ---------------------------------------------------------------------------------------
  // Table references of a command

  /** A token with its text and byte span; the tokenizer hands them over in order. */
  datatype RawToken = RawToken(kind: Kind, text: string, start: nat, end: nat)

  predicate Ordered(toks: seq<RawToken>, length: nat)
  {
    && (forall i :: 0 <= i < |toks| ==> toks[i].start <= toks[i].end <= length)
    && forall i, k :: 0 <= i < k < |toks| ==> toks[i].end <= toks[k].start
  }

  datatype Target = Target(db: string, table: string)
  datatype Ref = Ref(target: Target, start: nat, end: nat)
  datatype CommandSub = NoSub | Rename | Exchange | AlterUpdate | BareReject

  /** One letter under Unicode simple folding; the long s folds with S. */
  predicate FoldsTo(c: char, upper: char)
    requires 'A' <= upper <= 'Z'
  {
    c == upper || c as int == upper as int + 32 || (upper == 'S' && c == '\U{017F}')
  }

  predicate EqualFold(text: string, upper: string)
    requires forall i :: 0 <= i < |upper| ==> 'A' <= upper[i] <= 'Z'
  {
    |text| == |upper| && forall i :: 0 <= i < |upper| ==> FoldsTo(text[i], upper[i])
  }

  predicate IsTableWord(text: string)
  {
    EqualFold(text, "TABLE") || EqualFold(text, "TABLES")
  }

  /** A qualified name starts at i: name, dot, name. */
  predicate IsQualified(toks: seq<RawToken>, i: nat)
  {
    i + 2 < |toks| && IsName(toks[i].kind) && toks[i + 1].kind.Dot? && IsName(toks[i + 2].kind)
  }

  function RefAt(toks: seq<RawToken>, i: nat): Ref
    requires i < |toks|
  {
    if IsQualified(toks, i) then Ref(Target(toks[i].text, toks[i + 2].text), toks[i].start, toks[i + 2].end)
    else Ref(Target("", toks[i].text), toks[i].start, toks[i].end)
  }

  predicate OnlyFirst(sub: CommandSub)
  {
    sub.AlterUpdate? || sub.BareReject?
  }

  /** The name runs from token i on; only the first one for a single-target command. */
  function RefsFrom(toks: seq<RawToken>, sub: CommandSub, i: nat): seq<Ref>
    requires i <= |toks|
    decreases |toks| - i
  {
    if i == |toks| then []
    else if !IsName(toks[i].kind) then RefsFrom(toks, sub, i + 1)
    else if OnlyFirst(sub) then [RefAt(toks, i)]
    else [RefAt(toks, i)] + RefsFrom(toks, sub, if IsQualified(toks, i) then i + 3 else i + 1)
  }

  /** The token after the first TABLE or TABLES; past the end when there is none. */
  function AfterTable(toks: seq<RawToken>, i: nat): (r: nat)
    requires i <= |toks|
    ensures r <= |toks| + 1
    decreases |toks| - i
  {
    if i == |toks| then |toks| + 1 else if IsTableWord(toks[i].text) then i + 1 else AfterTable(toks, i + 1)
  }

  function Refs(toks: seq<RawToken>, sub: CommandSub): seq<Ref>
  {
    var start := AfterTable(toks, 0);
    if start > |toks| then [] else RefsFrom(toks, sub, start)
  }

  /** One step of the second loop. */
  lemma RefsStep(toks: seq<RawToken>, sub: CommandSub, i: nat, out: seq<Ref>)
    requires i < |toks|
    ensures !IsName(toks[i].kind) ==> RefsFrom(toks, sub, i) == RefsFrom(toks, sub, i + 1)
    ensures IsName(toks[i].kind) && OnlyFirst(sub) ==> out + RefsFrom(toks, sub, i) == out + [RefAt(toks, i)]
    ensures IsName(toks[i].kind) && !OnlyFirst(sub) ==>
      var next := if IsQualified(toks, i) then i + 3 else i + 1;
      next <= |toks| && out + RefsFrom(toks, sub, i) == out + [RefAt(toks, i)] + RefsFrom(toks, sub, next)
  {
    hide RefAt;
    if IsName(toks[i].kind) && !OnlyFirst(sub) {
      var next := if IsQualified(toks, i) then i + 3 else i + 1;
      var rest := RefsFrom(toks, sub, next);
      assert out + ([RefAt(toks, i)] + rest) == out + [RefAt(toks, i)] + rest;
    }
  }

  lemma RefsStart(toks: seq<RawToken>, sub: CommandSub)
    ensures var start := AfterTable(toks, 0); Refs(toks, sub) == if start > |toks| then [] else RefsFrom(toks, sub, start)
    ensures AfterTable(toks, |toks|) == |toks| + 1
  {
  }

  lemma AfterStep(toks: seq<RawToken>, i: nat)
    requires i < |toks|
    ensures AfterTable(toks, i) == if IsTableWord(toks[i].text) then i + 1 else AfterTable(toks, i + 1)
  {
  }

  lemma NoRefsLeft(toks: seq<RawToken>, sub: CommandSub)
    ensures RefsFrom(toks, sub, |toks|) == []
  {
  }

  /** scanTableRefs. */
  method ScanTableRefs(toks: seq<RawToken>, sub: CommandSub) returns (out: seq<Ref>)
    ensures out == Refs(toks, sub)
  {
    hide IsTableWord, RefAt, IsQualified, RefsFrom, IsName, AfterTable, Refs;
    RefsStart(toks, sub);
    var start := -1;
    var i := 0;
    while i < |toks|
      invariant 0 <= i <= |toks|
      invariant AfterTable(toks, 0) == AfterTable(toks, i)
    {
      AfterStep(toks, i);
      if IsTableWord(toks[i].text) {
        start := i + 1;
        break;
      }
      i := i + 1;
    }
    if start < 0 {
      return [];
    }
    out := [];
    i := start;
    while i < |toks|
      invariant start <= i <= |toks|
      invariant Refs(toks, sub) == out + RefsFrom(toks, sub, i)
    {
      RefsStep(toks, sub, i, out);
      if !IsName(toks[i].kind) {
        i := i + 1;
        continue;
      }
      out := out + [RefAt(toks, i)];
      if OnlyFirst(sub) {
        return;
      }
      i := if IsQualified(toks, i) then i + 3 else i + 1;
    }
    NoRefsLeft(toks, sub);
  }

  /** The spans come in order, apart, and inside the text. */
  lemma {:induction false} RefsAreOrdered(toks: seq<RawToken>, sub: CommandSub, i: nat, length: nat)
    requires Ordered(toks, length) && i <= |toks|
    ensures forall k :: 0 <= k < |RefsFrom(toks, sub, i)| ==>
      && (i < |toks| ==> toks[i].start <= RefsFrom(toks, sub, i)[k].start)
      && RefsFrom(toks, sub, i)[k].start <= RefsFrom(toks, sub, i)[k].end <= length
    ensures forall j, k :: 0 <= j < k < |RefsFrom(toks, sub, i)| ==>
      RefsFrom(toks, sub, i)[j].end <= RefsFrom(toks, sub, i)[k].start
    decreases |toks| - i
  {
    if i < |toks| {
      if !IsName(toks[i].kind) {
        RefsAreOrdered(toks, sub, i + 1, length);
      } else if !OnlyFirst(sub) {
        RefsAreOrdered(toks, sub, if IsQualified(toks, i) then i + 3 else i + 1, length);
      }
    }
  }

  /** No name is missed: for a multi-target command every name token after TABLE lies in one of the spans. */
  lemma {:induction false} EveryNameIsInARef(toks: seq<RawToken>, sub: CommandSub, i: nat, length: nat, n: nat) returns (k: nat)
    requires Ordered(toks, length) && !OnlyFirst(sub) && i <= n < |toks| && IsName(toks[n].kind)
    ensures k < |RefsFrom(toks, sub, i)|
    ensures RefsFrom(toks, sub, i)[k].start <= toks[n].start <= toks[n].end <= RefsFrom(toks, sub, i)[k].end
    decreases |toks| - i
  {
    if !IsName(toks[i].kind) {
      k := EveryNameIsInARef(toks, sub, i + 1, length, n);
    } else {
      var next := if IsQualified(toks, i) then i + 3 else i + 1;
      if n < next {
        k := 0;
      } else {
        var rest := EveryNameIsInARef(toks, sub, next, length, n);
        k := rest + 1;
      }
    }
  }

  // ---------------------------------------------------------------------------------------
  // The splice

  predicate Rewriteable(sub: CommandSub)
  {
    sub.Rename? || sub.Exchange? || sub.AlterUpdate?
  }

  /** RawTableRefs: the targets of a command, in document order. */
  method RawTableRefs(toks: seq<RawToken>, sub: CommandSub) returns (out: seq<Target>)
    ensures out == if sub.NoSub? then [] else Targets(Refs(toks, sub))
  {
    if sub.NoSub? {
      return [];
    }
    var spans := ScanTableRefs(toks, sub);
    out := [];
    var i := 0;
    while i < |spans|
      invariant 0 <= i <= |spans|
      invariant out == Targets(spans[..i])
    {
      assert spans[..i + 1][..i] == spans[..i];
      out := out + [spans[i].target];
      i := i + 1;
    }
    assert spans[..|spans|] == spans;
  }

  function Targets(refs: seq<Ref>): (r: seq<Target>)
    ensures |r| == |refs| && forall i :: 0 <= i < |r| ==> r[i] == refs[i].target
  {
    if refs == [] then [] else Targets(refs[..|refs| - 1]) + [refs[|refs| - 1].target]
  }

  /** What becomes of each span: its decided name, or, for an empty decision or none, the bytes as written. */
  function Edits(sql: Bytes, refs: seq<Ref>, decisions: map<Target, Bytes>): (r: seq<Edit>)
    ensures |r| == |refs|
    ensures forall k :: 0 <= k < |refs| ==>
      r[k] == EditOf(sql, refs[k], decisions) && r[k].start == refs[k].start && r[k].end == refs[k].end
  {
    seq(|refs|, k requires 0 <= k < |refs| => EditOf(sql, refs[k], decisions))
  }

  function EditOf(sql: Bytes, ref: Ref, decisions: map<Target, Bytes>): Edit
  {
    var kept := if ref.start <= ref.end <= |sql| then sql[ref.start..ref.end] else [];
    Edit(ref.start, ref.end, if ref.target in decisions && decisions[ref.target] != [] then decisions[ref.target] else kept)
  }

  lemma RefsEditInOrder(sql: Bytes, toks: seq<RawToken>, sub: CommandSub, decisions: map<Target, Bytes>)
    requires Ordered(toks, |sql|)
    ensures forall k :: 0 <= k < |Refs(toks, sub)| ==> Refs(toks, sub)[k].start <= Refs(toks, sub)[k].end <= |sql|
    ensures forall j, k :: 0 <= j < k < |Refs(toks, sub)| ==> Refs(toks, sub)[j].end <= Refs(toks, sub)[k].start
    ensures InOrder(Edits(sql, Refs(toks, sub), decisions), 0, |sql|)
  {
    var start := AfterTable(toks, 0);
    if start <= |toks| {
      RefsAreOrdered(toks, sub, start, |sql|);
    }
    OrderedIsInOrder(Edits(sql, Refs(toks, sub), decisions), 0, |sql|);
  }

  /**
   SpliceRawTables: fails exactly when a target RawTableRefs reports is undecided, and otherwise returns the
   simultaneous substitution of the decided names.
   */
  method SpliceRawTables(sql: Bytes, toks: seq<RawToken>, sub: CommandSub, decisions: map<Target, Bytes>) returns (r: Option<Bytes>)
    requires Ordered(toks, |sql|)
    ensures !Rewriteable(sub) ==> r == Some(sql)
    ensures Rewriteable(sub) ==> (r.Some? <==> forall t :: t in Targets(Refs(toks, sub)) ==> t in decisions)
    ensures InOrder(Edits(sql, Refs(toks, sub), decisions), 0, |sql|)
    ensures Rewriteable(sub) && r.Some? ==> r.value == Substitute(sql, Edits(sql, Refs(toks, sub), decisions), 0, |sql|)
  {
    hide Refs, Substitute, InOrder, Edits, EditOf, Targets, Ordered;
    RefsEditInOrder(sql, toks, sub, decisions);
    if !Rewriteable(sub) {
      return Some(sql);
    }
    var spans := ScanTableRefs(toks, sub);
    ghost var edits := Edits(sql, spans, decisions);
    InOrderFrom(edits, |sql|, |spans|);
    NothingLeft(sql, edits, CutBefore(edits, |spans|));
    var out := sql;
    var i := |spans|;
    while i > 0
      invariant 0 <= i <= |spans|
      invariant forall k :: i <= k < |spans| ==> spans[k].target in decisions
      invariant CutBefore(edits, i) <= |sql| && InOrder(edits[i..], CutBefore(edits, i), |sql|)
      invariant out == sql[..CutBefore(edits, i)] + Substitute(sql, edits[i..], CutBefore(edits, i), |sql|)
    {
      i := i - 1;
      var s := spans[i];
      EditMade(sql, s, decisions, out);
      if s.target !in decisions {
        assert Targets(spans)[i] == s.target;
        return None;
      }
      EditInPlace(sql, edits, i, out);
      var nv := decisions[s.target];
      if nv == [] {
        continue;
      }
      out := out[..s.start] + nv + out[s.end..];
    }
    assert edits[0..] == edits;
    assert sql[..0] == [];
    r := Some(out);
  }

  lemma NothingLeft(sql: Bytes, edits: seq<Edit>, at: nat)
    requires at <= |sql|
    ensures InOrder(edits[|edits|..], at, |sql|) && sql[..at] + Substitute(sql, edits[|edits|..], at, |sql|) == sql
  {
  }

  /** Replacing a span by its edit's text; a kept span leaves the text as it is. */
  lemma EditMade(sql: Bytes, s: Ref, decisions: map<Target, Bytes>, out: Bytes)
    requires s.start <= s.end <= |sql| && s.end <= |out| && out[..s.end] == sql[..s.end]
    ensures out[..s.start] + EditOf(sql, s, decisions).text + out[s.end..] ==
      if s.target in decisions && decisions[s.target] != [] then out[..s.start] + decisions[s.target] + out[s.end..] else out
  {
    assert out[s.start..s.end] == out[..s.end][s.start..] == sql[s.start..s.end];
    assert out == out[..s.start] + out[s.start..s.end] + out[s.end..];
  }

  // ---------------------------------------------------------------------------------------
  // Rendering left to right

  /** The replacements as sort.Slice may leave them: by start, equal starts in any order. */
  predicate SortedByStart(edits: seq<Edit>)
  {
    forall i, k :: 0 <= i < k < |edits| ==> edits[i].start <= edits[k].start
  }

  predicate NonEmpty(edits: seq<Edit>)
  {
    forall i :: 0 <= i < |edits| ==> edits[i].start < edits[i].end
  }

  /** The loop of renderLiveViewOpaqueAliases over its sorted replacements. */
  method RenderReplacements(sql: Bytes, startByte: nat, endByte: nat, replacements: seq<Edit>) returns (r: Option<Bytes>)
    requires SortedByStart(replacements)
    ensures r.Some? <==>
      startByte < endByte <= |sql| && replacements != [] && NonEmpty(replacements) && InOrder(replacements, startByte, endByte)
    ensures r.Some? ==> r.value == Substitute(sql, replacements, startByte, endByte)
  {
    if endByte <= startByte || endByte > |sql| {
      return None;
    }
    if replacements == [] {
      return None;
    }
    var out: Bytes := [];
    var cursor := startByte;
    var i := 0;
    assert replacements[0..] == replacements;
    while i < |replacements|
      invariant 0 <= i <= |replacements| && startByte <= cursor <= endByte
      invariant forall k :: 0 <= k < i ==> replacements[k].start < replacements[k].end
      invariant InOrder(replacements, startByte, endByte) <==> InOrder(replacements[i..], cursor, endByte)
      invariant InOrder(replacements, startByte, endByte) ==>
        Substitute(sql, replacements, startByte, endByte) == out + Substitute(sql, replacements[i..], cursor, endByte)
    {
      var e := replacements[i];
      ghost var rest := replacements[i..];
      assert rest[0] == e && rest[1..] == replacements[i + 1..];
      if e.start < cursor || e.end <= e.start || e.end > endByte {
        if e.start < cursor || e.end > endByte {
          OutsideIsUnordered(rest, cursor, endByte);
        }
        return None;
      }
      AppendEdit(sql, rest, cursor, endByte, out);
      out := out + sql[cursor..e.start];
      out := out + e.text;
      cursor := e.end;
      i := i + 1;
    }
    out := out + sql[cursor..endByte];
    r := Some(out);
  }

  lemma OutsideIsUnordered(edits: seq<Edit>, from: nat, to: nat)
    requires edits != [] && (edits[0].start < from || edits[0].end > to)
    ensures !InOrder(edits, from, to)
  {
    if InOrder(edits, from, to) {
      InOrderBounds(edits, from, to);
    }
  }

  lemma AppendEdit(sql: Bytes, edits: seq<Edit>, from: nat, to: nat, out: Bytes)
    requires to <= |sql| && edits != [] && from <= edits[0].start <= edits[0].end <= to
    ensures InOrder(edits, from, to) <==> InOrder(edits[1..], edits[0].end, to)
    ensures InOrder(edits, from, to) ==>
      out + Substitute(sql, edits, from, to) ==
        out + sql[from..edits[0].start] + edits[0].text + Substitute(sql, edits[1..], edits[0].end, to)
  {
    if InOrder(edits, from, to) {
      SubstituteFirst(sql, edits, from, to);
    }
  }

  /** However the sort left equal starts, an accepted rendering is the same: its replacements have one order. */
  lemma {:induction false} OrderIsUnique(a: seq<Edit>, b: seq<Edit>, from: nat, to: nat)
    requires multiset(a) == multiset(b) && NonEmpty(a) && InOrder(a, from, to) && SortedByStart(b)
    ensures a == b
    decreases |a|
  {
    if a == [] {
      assert |multiset(b)| == 0;
    } else {
      hide InOrder, NonEmpty, SortedByStart;
      SameFirst(a, b, from, to);
      SameRest(a, b, from, to);
      OrderIsUnique(a[1..], b[1..], a[0].end, to);
      assert a == [a[0]] + a[1..] && b == [b[0]] + b[1..];
    }
  }

  lemma SameRest(a: seq<Edit>, b: seq<Edit>, from: nat, to: nat)
    requires multiset(a) == multiset(b) && NonEmpty(a) && InOrder(a, from, to) && SortedByStart(b)
    requires a != [] && b != [] && a[0] == b[0]
    ensures multiset(a[1..]) == multiset(b[1..]) && NonEmpty(a[1..]) && InOrder(a[1..], a[0].end, to) && SortedByStart(b[1..])
  {
    TailMultiset(a);
    TailMultiset(b);
    assert forall i :: 0 <= i < |a| - 1 ==> a[1..][i] == a[i + 1];
    assert forall i :: 0 <= i < |b| - 1 ==> b[1..][i] == b[i + 1];
  }

  lemma TailMultiset(a: seq<Edit>)
    requires a != []
    ensures multiset(a[1..]) == multiset(a) - multiset{a[0]}
  {
    assert a == [a[0]] + a[1..];
  }

  lemma SameFirst(a: seq<Edit>, b: seq<Edit>, from: nat, to: nat)
    requires multiset(a) == multiset(b) && NonEmpty(a) && InOrder(a, from, to) && SortedByStart(b) && a != []
    ensures b != [] && a[0] == b[0]
  {
    InOrderBounds(a, from, to);
    assert |multiset(a)| == |a| && |multiset(b)| == |b|;
    assert a[0] in multiset(a) && b[0] in multiset(b);
    var i :| 0 <= i < |a| && a[i] == b[0];
    var k :| 0 <= k < |b| && b[k] == a[0];
    assert a[i].start <= a[0].start;
  }
}
