/**
 Collecting a rewritten statement: what the decisions put in place of each reference, at its place, and exactly when
 that is the decided names with nothing captured.
 */
module ReadResult {
  import opened Common
  import opened ReadTree
  import opened ReadWalk
  import opened ReadRewrite
  import opened ReadDecided
  import opened ReadAgain

  // ---------------------------------------------------------------------------------------
  // What is found in a reference's place

  /**
   A kept or renamed reference is found under its name, unless the name is bound there; a remote() call and a FROM
   subquery are not looked into; a query put into an infix IN is, as the operand it now is.
   */
  function Found(ref: Ref, decide: Target -> Decision): seq<Place>
  {
    match decide(ref.target)
    case Skip => if IsBound(ref.site, ref.target, ref.scope) then [] else [Place(ref.path, ref.site, ref.target)]
    case Rename(db, table) =>
      var r := Renamed(ref.site, ref.target, db, table);
      if table == "" || IsBound(ref.site, r, ref.scope) then [] else [Place(ref.path, ref.site, r)]
    case Remote => []
    case Inline(body) =>
      if ref.site.Infix? && Walk(body, Scalar, ref.scope).Some? then Below(ref.path + [1], Places(Walk(body, Scalar, ref.scope).value)) else []
  }

  function FoundAll(refs: seq<Ref>, decide: Target -> Decision): seq<Place>
  {
    if refs == [] then [] else Found(refs[0], decide) + FoundAll(refs[1..], decide)
  }

  /** A query put into an infix IN is one the walk accepts there. */
  predicate BodiesWalk(refs: seq<Ref>, decide: Target -> Decision)
  {
    forall k :: 0 <= k < |refs| && refs[k].site.Infix? && decide(refs[k].target).Inline? ==>
      Walk(decide(refs[k].target).body, Scalar, refs[k].scope).Some?
  }

  lemma {:induction false} FoundConcat(a: seq<Ref>, b: seq<Ref>, decide: Target -> Decision)
    ensures FoundAll(a + b, decide) == FoundAll(a, decide) + FoundAll(b, decide)
  {
    hide Found;
    if a == [] {
      assert a + b == b;
    } else {
      assert (a + b)[1..] == a[1..] + b;
      FoundConcat(a[1..], b, decide);
    }
  }

  lemma {:induction false} FoundUnder(i: nat, refs: seq<Ref>, decide: Target -> Decision)
    ensures FoundAll(Under(i, refs), decide) == Below([i], FoundAll(refs, decide))
  {
    hide Found;
    if refs != [] {
      FoundUnder(i, refs[1..], decide);
      assert Under(i, refs)[1..] == Under(i, refs[1..]);
      FoundBelow(i, refs[0], decide);
      BelowConcat([i], Found(refs[0], decide), FoundAll(refs[1..], decide));
    }
  }

  lemma FoundBelow(i: nat, ref: Ref, decide: Target -> Decision)
    ensures Found(ref.(path := [i] + ref.path), decide) == Below([i], Found(ref, decide))
  {
    var out := ref.(path := [i] + ref.path);
    match decide(ref.target)
    case Inline(body) =>
      if ref.site.Infix? && Walk(body, Scalar, ref.scope).Some? {
        BelowTwice([i], ref.path + [1], Places(Walk(body, Scalar, ref.scope).value));
        assert out.path + [1] == [i] + (ref.path + [1]);
      }
    case _ =>
  }

  lemma BelowTwice(a: seq<nat>, b: seq<nat>, places: seq<Place>)
    ensures Below(a, Below(b, places)) == Below(a + b, places)
  {
    assert forall p: Place :: a + (b + p.path) == a + b + p.path;
  }

  lemma BelowConcat(prefix: seq<nat>, a: seq<Place>, b: seq<Place>)
    ensures Below(prefix, a + b) == Below(prefix, a) + Below(prefix, b)
  {
  }

  lemma FoundOne(ref: Ref, decide: Target -> Decision)
    ensures FoundAll([ref], decide) == Found(ref, decide)
  {
    assert [ref][1..] == [];
  }

  lemma NothingFound(decide: Target -> Decision)
    ensures FoundAll([], decide) == [] == Places([])
  {
  }

  // ---------------------------------------------------------------------------------------
  // Field by field

  function OwnAgainAt(n: Node, role: Role, scope: Scope, again: Scope, k: nat): seq<Ref>
  {
    if k == EmitsAt(n) then EmittedAgain(n, role, scope, again) else []
  }

  function FieldAgain(n: Node, role: Role, scope: Scope, again: Scope, decide: Target -> Decision, k: nat): seq<Ref>
    requires k < |n.kids|
  {
    if VisitsKid(n, role, k) then
      Again(n.kids[k], KidRole(n, role, k), DecidedScope(n, role, scope, decide, k), AgainScope(n, role, again, scope, decide, k), decide)
    else []
  }

  /** At position k, out holds what is to be found in place of n's references there: its own and those of the field. */
  ghost predicate StepFinds(n: Node, out: Node, role: Role, scope: Scope, again: Scope, decide: Target -> Decision, k: nat)
    requires k <= |n.kids| == |out.kids|
  {
    if k == |n.kids| then Places(OwnAt(out, role, again, k)) == FoundAll(OwnAgainAt(n, role, scope, again, k), decide)
    else
      && FieldWalk(out, role, again, k).Some?
      && Places(OwnAt(out, role, again, k)) + Below([k], Places(FieldWalk(out, role, again, k).value)) ==
         FoundAll(OwnAgainAt(n, role, scope, again, k), decide) + Below([k], FoundAll(FieldAgain(n, role, scope, again, decide, k), decide))
  }

  lemma {:induction false} StepsFind(n: Node, out: Node, role: Role, scope: Scope, again: Scope, decide: Target -> Decision, i: nat)
    requires i <= |n.kids| == |out.kids|
    requires forall k :: i <= k <= |n.kids| ==> StepFinds(n, out, role, scope, again, decide, k)
    ensures WalkFrom(out, role, again, i).Some?
    ensures Places(WalkFrom(out, role, again, i).value) == FoundAll(AgainFrom(n, role, scope, again, decide, i), decide)
    decreases |n.kids| - i
  {
    hide Walk, WalkFrom, Again, AgainFrom, KidRole, KidScope, VisitsKid, Emitted, EmittedAgain, EmitsAt, Found, FoundAll, Places, Below,
      StepFinds, FieldWalk, FieldAgain, OwnAt, OwnAgainAt;
    if i < |n.kids| {
      StepsFind(n, out, role, scope, again, decide, i + 1);
      assert StepFinds(n, out, role, scope, again, decide, i);
      StepJoins(n, out, role, scope, again, decide, i);
    } else {
      assert StepFinds(n, out, role, scope, again, decide, i);
      LastJoins(n, out, role, scope, again, decide);
    }
  }

  lemma LastJoins(n: Node, out: Node, role: Role, scope: Scope, again: Scope, decide: Target -> Decision)
    requires |n.kids| == |out.kids| && StepFinds(n, out, role, scope, again, decide, |n.kids|)
    ensures WalkFrom(out, role, again, |n.kids|).Some?
    ensures Places(WalkFrom(out, role, again, |n.kids|).value) == FoundAll(AgainFrom(n, role, scope, again, decide, |n.kids|), decide)
  {
    hide Emitted, EmittedAgain, EmitsAt, Found, FoundAll, Places;
  }

  /** The walk from i is its step at i and the walk from i + 1. */
  lemma StepJoins(n: Node, out: Node, role: Role, scope: Scope, again: Scope, decide: Target -> Decision, i: nat)
    requires i < |n.kids| == |out.kids| && StepFinds(n, out, role, scope, again, decide, i)
    requires WalkFrom(out, role, again, i + 1).Some?
    requires Places(WalkFrom(out, role, again, i + 1).value) == FoundAll(AgainFrom(n, role, scope, again, decide, i + 1), decide)
    ensures WalkFrom(out, role, again, i).Some?
    ensures Places(WalkFrom(out, role, again, i).value) == FoundAll(AgainFrom(n, role, scope, again, decide, i), decide)
  {
    hide Walk, Again, KidRole, KidScope, VisitsKid, Emitted, EmittedAgain, EmitsAt, Found, FoundAll, Places, Below, DecidedScope, AgainScope, Under;
    var own, own' := OwnAt(out, role, again, i), OwnAgainAt(n, role, scope, again, i);
    var kid, kid' := FieldWalk(out, role, again, i).value, FieldAgain(n, role, scope, again, decide, i);
    var rest, rest' := WalkFrom(out, role, again, i + 1).value, AgainFrom(n, role, scope, again, decide, i + 1);
    assert WalkFrom(out, role, again, i) == Some(own + Under(i, kid) + rest);
    assert AgainFrom(n, role, scope, again, decide, i) == own' + Under(i, kid') + rest';
    PlacesConcat(own + Under(i, kid), rest);
    PlacesConcat(own, Under(i, kid));
    PlacesUnder(i, kid);
    FoundConcat(own' + Under(i, kid'), rest', decide);
    FoundConcat(own', Under(i, kid'), decide);
    FoundUnder(i, kid', decide);
  }

  // ---------------------------------------------------------------------------------------
  // Replacements that are not looked into

  /** A field without references adds none. */
  lemma QuietField(n: Node, role: Role, scope: Scope, i: nat)
    requires i < |n.kids| && FieldWalk(n, role, scope, i) == Some([]) && WalkFrom(n, role, scope, i + 1).Some?
    ensures WalkFrom(n, role, scope, i) ==
      Some((if i == EmitsAt(n) then Emitted(n, role, scope) else []) + WalkFrom(n, role, scope, i + 1).value)
  {
    hide Walk, KidRole, KidScope, VisitsKid, Emitted, EmitsAt;
    var here := if i == EmitsAt(n) then Emitted(n, role, scope) else [];
    assert Under(i, []) == [];
    assert here + [] == here;
  }

  /** Parentheses around a sealed subquery. */
  predicate IsSealedChain(n: Node)
  {
    IsSealed(n) || (n.kind.Paren? && |n.kids| == 1 && !AnyRead(n, n.unknown) && IsSealedChain(n.kids[0]))
  }

  lemma {:induction false} SealedIsEmpty(n: Node, role: Role, scope: Scope)
    requires IsSealedChain(n) && (role.Source? || role.Scalar?)
    ensures Walk(n, role, scope) == Some([]) && IsHandled(n)
    decreases n
  {
    if !IsSealed(n) {
      SealedIsEmpty(n.kids[0], KidRole(n, role, 0), KidScope(n, role, scope, 0));
      QuietField(n, role, scope, 0);
      var none: seq<Ref> := [];
      assert Emitted(n, role, scope) == none && none + none == none;
    }
  }

  lemma LeafIsEmpty(k: Kind, scope: Scope)
    requires k.Constant?
    ensures Walk(Leaf(k), Scalar, scope) == Some([])
  {
    hide KidScope;
    assert !ContainsRead(Leaf(k)) by {
      assert Leaf(k).kids == [] && Leaf(k).unknown == [] && Leaf(k).ignored == [];
    }
  }

  lemma {:induction false} ConstantsAreEmpty(n: Node, role: Role, scope: Scope, i: nat)
    requires n == RemoteCall() && (role.Source? || role.Scalar?) && i <= |n.kids|
    ensures WalkFrom(n, role, scope, i) == Some([])
    decreases |n.kids| - i
  {
    hide KidScope, Walk;
    if i < |n.kids| {
      LeafIsEmpty(Constant, KidScope(n, role, scope, i));
      ConstantsAreEmpty(n, role, scope, i + 1);
      QuietField(n, role, scope, i);
      assert Emitted(n, role, scope) + [] == [];
    }
  }

  lemma RemoteIsEmpty(role: Role, scope: Scope)
    requires role.Source? || role.Scalar?
    ensures Walk(RemoteCall(), role, scope) == Some([])
  {
    ConstantsAreEmpty(RemoteCall(), role, scope, 0);
    assert RemoteCall().unknown == [];
  }

  lemma WrapperIsEmpty(n: Node, scope: Scope)
    requires n.kind == SourceWrapper(Aliased) && n.kids == [RemoteCall()]
    ensures Walk(n, Source, scope) == Some([])
  {
    RemoteIsEmpty(Source, scope);
    QuietField(n, Source, scope, 0);
  }

  /** A table's own fields hold no references. */
  lemma {:induction false} TableFields(n: Node, scope: Scope, i: nat)
    requires n.kind.Table? && i <= |n.kids|
    ensures WalkFrom(n, Source, scope, i) == Some(if i == 0 then Emitted(n, Source, scope) else [])
    decreases |n.kids| - i
  {
    hide Walk, Emitted;
    if i < |n.kids| {
      TableFields(n, scope, i + 1);
      QuietField(n, Source, scope, i);
      var none: seq<Ref> := [];
      assert Emitted(n, Source, scope) + none == Emitted(n, Source, scope) && none + none == none;
    }
  }

  // ---------------------------------------------------------------------------------------
  // Nodes whose own reference stays

  /** Walking out, in n's place and in the scope again, finds what is to be found in place of n's references. */
  ghost predicate FindsIn(n: Node, out: Node, role: Role, scope: Scope, again: Scope, decide: Target -> Decision)
  {
    && Walk(out, role, again).Some?
    && Places(Walk(out, role, again).value) == FoundAll(Again(n, role, scope, again, decide), decide)
  }

  /** The fields of the rewritten node that were walked, each finding its own. */
  ghost predicate FieldsFind(n: Node, role: Role, scope: Scope, again: Scope, decide: Target -> Decision)
  {
    forall k :: 0 <= k < |n.kids| && VisitsKid(n, role, k) ==>
      var passed := DecidedScope(n, role, scope, decide, k);
      FindsIn(n.kids[k], Rewrite(n.kids[k], KidRole(n, role, k), passed, decide), KidRole(n, role, k), passed,
              AgainScope(n, role, again, scope, decide, k), decide)
  }

  /** A kept name is found unless the second walk binds it, and a bound one stays bound. */
  lemma KeptIsFound(n: Node, out: Node, role: Role, scope: Scope, again: Scope, decide: Target -> Decision)
    requires Within(scope, again) && Mention(out, role) == Mention(n, role)
    requires var own := EmittedAgain(n, role, scope, again); own == [] || decide(own[0].target).Skip?
    ensures Places(Emitted(out, role, again)) == FoundAll(EmittedAgain(n, role, scope, again), decide)
  {
    hide Mention, IsBound, Within;
    var own := EmittedAgain(n, role, scope, again);
    NothingFound(decide);
    if Mention(n, role).Some? {
      var (site, t) := Mention(n, role).value;
      WithinBinds(scope, again, site, t);
      FoundOne(Ref([], site, t, again), decide);
      if own != [] {
        assert own == [Ref([], site, t, again)];
      }
    }
  }

  lemma SameReads(n: Node, m: Node)
    requires n.unknown == m.unknown
    ensures AnyRead(n, n.unknown) == AnyRead(m, m.unknown)
  {
    hide ContainsRead;
  }

  /** One field of the node and of its rewriting, walked alike. */
  lemma FieldStepFinds(n: Node, out: Node, role: Role, scope: Scope, again: Scope, decide: Target -> Decision, k: nat)
    requires k < |n.kids| == |out.kids| && FieldsFind(n, role, scope, again, decide)
    requires VisitsKid(out, role, k) == VisitsKid(n, role, k)
    requires VisitsKid(n, role, k) ==>
      && KidRole(out, role, k) == KidRole(n, role, k) && KidScope(out, role, again, k) == AgainScope(n, role, again, scope, decide, k)
      && out.kids[k] == Rewrite(n.kids[k], KidRole(n, role, k), DecidedScope(n, role, scope, decide, k), decide)
    requires Places(OwnAt(out, role, again, k)) == FoundAll(OwnAgainAt(n, role, scope, again, k), decide)
    ensures StepFinds(n, out, role, scope, again, decide, k)
  {
    hide Walk, Again, KidRole, KidScope, VisitsKid, OwnAt, OwnAgainAt, Found, FoundAll, Places, Below, DecidedScope, AgainScope, Rewrite;
    NothingFound(decide);
  }

  lemma PlainFinds(n: Node, role: Role, scope: Scope, again: Scope, decide: Target -> Decision)
    requires Formed(n) && FieldsFind(n, role, scope, again, decide) && Within(scope, again)
    requires ModeOf(n, role).Visit? && Walk(n, role, scope).Some?
    requires !(n.kind.Paren? && role.Source? && !IsHandled(n))
    requires var own := EmittedAgain(n, role, scope, again); own == [] || decide(own[0].target).Skip?
    ensures FindsIn(n, FieldsOnly(n, role, scope, decide), role, scope, again, decide)
  {
    hide Found, FoundAll, ContainsRead, AnyRead, Rewrite, KidScope, KidRole, VisitsKid, Mention, Emitted, EmittedAgain, EmitsAt, Checks, IsHandled,
      FieldsOnly, DecidedScope, AgainScope, FieldsFind, StepFinds, WalkFrom, AgainFrom, Within, Places;
    var out := FieldsOnly(n, role, scope, decide);
    WalkedAlike(n, role, scope, decide);
    KeptIsFound(n, out, role, scope, again, decide);
    NothingFound(decide);
    forall k | 0 <= k <= |n.kids|
      ensures StepFinds(n, out, role, scope, again, decide, k)
    {
      if k < |n.kids| {
        FieldOf(n, role, scope, decide, k);
        AgainIsForetold(n, role, again, scope, decide, k);
        FieldStepFinds(n, out, role, scope, again, decide, k);
      } else {
        LastStepFinds(n, out, role, scope, again, decide);
      }
    }
    StepsFind(n, out, role, scope, again, decide, 0);
    FieldsUnknown(n, role, scope, decide);
    SameReads(n, out);
  }

  lemma FieldsUnknown(n: Node, role: Role, scope: Scope, decide: Target -> Decision)
    ensures FieldsOnly(n, role, scope, decide).unknown == n.unknown
  {
  }

  lemma LastStepFinds(n: Node, out: Node, role: Role, scope: Scope, again: Scope, decide: Target -> Decision)
    requires |n.kids| == |out.kids|
    requires Places(OwnAt(out, role, again, |n.kids|)) == FoundAll(OwnAgainAt(n, role, scope, again, |n.kids|), decide)
    ensures StepFinds(n, out, role, scope, again, decide, |n.kids|)
  {
    hide OwnAt, OwnAgainAt, Places, FoundAll;
  }

  // ---------------------------------------------------------------------------------------
  // Parentheses in a source

  /** A source that becomes a query when rewritten is now parentheses around a sealed subquery. */
  lemma {:induction false} SourceBecomesSealed(n: Node, scope: Scope, decide: Target -> Decision)
    requires Formed(n) && !IsHandled(n) && IsHandled(Rewrite(n, Source, scope, decide))
    ensures IsSealedChain(Rewrite(n, Source, scope, decide))
    decreases n
  {
    hide ContainsRead, Partly, IsBound, KidRole, KidScope;
    var out := Rewrite(n, Source, scope, decide);
    if n.kind.Paren? {
      ParenInSource(n, scope, decide);
      SourceBecomesSealed(n.kids[0], scope, decide);
      SameReads(n, out);
    }
  }

  lemma ParenInSource(n: Node, scope: Scope, decide: Target -> Decision)
    requires n.kind.Paren? && !IsHandled(n)
    ensures var out := Rewrite(n, Source, scope, decide);
      && out.kind == n.kind && out.unknown == n.unknown && |out.kids| == |n.kids|
      && (n.kids != [] ==> out.kids[0] == Rewrite(n.kids[0], Source, scope, decide))
  {
    hide Partly, IsHandled;
    assert ModeOf(n, Source).Visit? && Emitted(n, Source, scope) == [];
    if n.kids != [] {
      KidRewritten(n, Source, scope, decide, |n.kids|, 0);
      assert VisitsKid(n, Source, 0) && KidRole(n, Source, 0) == Source;
      assert PassedScope(n, Source, scope, decide, 0) == scope by { ParenScope(n, scope, decide); }
    }
  }

  lemma ParenScope(n: Node, scope: Scope, decide: Target -> Decision)
    requires n.kind.Paren? && !IsHandled(n) && n.kids != []
    ensures PassedScope(n, Source, scope, decide, 0) == DecidedScope(n, Source, scope, decide, 0) == scope
    ensures forall again :: AgainScope(n, Source, again, scope, decide, 0) == again
  {
    hide IsHandled;
  }

  lemma ParenFinds(n: Node, scope: Scope, again: Scope, decide: Target -> Decision)
    requires Formed(n) && FieldsFind(n, Source, scope, again, decide)
    requires n.kind.Paren? && !IsHandled(n) && Walk(n, Source, scope).Some?
    ensures FindsIn(n, Rewrite(n, Source, scope, decide), Source, scope, again, decide)
  {
    hide Found, FoundAll, ContainsRead, AnyRead, RewriteKids, DecidedScope, AgainScope, Places, IsHandled, Rewrite;
    var out := Rewrite(n, Source, scope, decide);
    ParenInSource(n, scope, decide);
    SameReads(n, out);
    NothingFound(decide);
    if n.kids == [] {
      EmptyParen(n, scope, again, decide);
      EmptyParen(out, scope, again, decide);
    } else {
      var kid, kid' := n.kids[0], out.kids[0];
      ParenScope(n, scope, decide);
      assert VisitsKid(n, Source, 0) && KidRole(n, Source, 0) == Source;
      assert FindsIn(kid, kid', Source, scope, again, decide);
      OnlyAgain(n, scope, again, decide);
      if IsHandled(out) {
        SourceBecomesSealed(n, scope, decide);
        SealedInside(out);
        SealedIsEmpty(kid', Source, again);
        SealedIsEmpty(out, Source, again);
      } else {
        OnlyField(out, again);
      }
    }
  }

  lemma EmptyParen(n: Node, scope: Scope, again: Scope, decide: Target -> Decision)
    requires n.kind.Paren? && n.kids == []
    ensures Walk(n, Source, again) == Some([]) && Again(n, Source, scope, again, decide) == []
  {
    hide ContainsRead;
  }

  lemma SealedInside(n: Node)
    requires n.kind.Paren? && IsSealedChain(n)
    ensures n.kids != [] && IsSealedChain(n.kids[0])
  {
  }

  /** Parentheses around one source find what that source does. */
  lemma OnlyField(n: Node, scope: Scope)
    requires n.kind.Paren? && !IsHandled(n) && |n.kids| == 1 && Walk(n.kids[0], Source, scope).Some?
    ensures Walk(n, Source, scope).Some?
    ensures Places(Walk(n, Source, scope).value) == Below([0], Places(Walk(n.kids[0], Source, scope).value))
  {
    hide ContainsRead, IsHandled, Places;
    var kid := Walk(n.kids[0], Source, scope).value;
    var none: seq<Ref> := [];
    assert Emitted(n, Source, scope) == [];
    assert WalkFrom(n, Source, scope, 1) == Some(none);
    assert WalkFrom(n, Source, scope, 0) == Some(none + Under(0, kid) + none);
    assert none + Under(0, kid) + none == Under(0, kid);
    PlacesUnder(0, kid);
  }

  lemma OnlyAgain(n: Node, scope: Scope, again: Scope, decide: Target -> Decision)
    requires n.kind.Paren? && !IsHandled(n) && |n.kids| == 1
    ensures FoundAll(Again(n, Source, scope, again, decide), decide) == Below([0], FoundAll(Again(n.kids[0], Source, scope, again, decide), decide))
  {
    hide Found, FoundAll, IsHandled, DecidedScope, AgainScope;
    ParenScope(n, scope, decide);
    var kid := Again(n.kids[0], Source, scope, again, decide);
    var none: seq<Ref> := [];
    assert EmittedAgain(n, Source, scope, again) == none;
    assert VisitsKid(n, Source, 0) && KidRole(n, Source, 0) == Source;
    assert AgainFrom(n, Source, scope, again, decide, 1) == none;
    assert AgainFrom(n, Source, scope, again, decide, 0) == none + Under(0, kid) + none;
    assert none + Under(0, kid) + none == Under(0, kid);
    FoundUnder(0, kid, decide);
  }

  // ---------------------------------------------------------------------------------------
  // Nodes whose own reference is replaced

  /** The question a node asks about itself, and the answer. */
  ghost predicate Replaces(n: Node, role: Role, scope: Scope, again: Scope, decide: Target -> Decision, ref: Ref)
  {
    && EmittedAgain(n, role, scope, again) == [ref] && !decide(ref.target).Skip?
    && (decide(ref.target).Inline? && ref.site.Infix? ==> Walk(decide(ref.target).body, Scalar, again).Some?)
  }

  lemma OwnReference(n: Node, role: Role, scope: Scope, again: Scope, ref: Ref)
    requires EmittedAgain(n, role, scope, again) == [ref]
    ensures ref.scope == again && ref.path == [] && ModeOf(n, role).Visit?
    ensures match ref.site
      case From => role.Source? && n.kind == Table(ref.target)
      case Infix => role.Scalar? && n.kind == In(Names(ref.target))
      case Callable => role.Scalar? && n.kind.Function? && n.kind.named == Some(ref.target)
    ensures Mention(n, role) == Some((ref.site, ref.target))
    ensures Emitted(n, role, scope) == [Ref([], ref.site, ref.target, scope)]
  {
  }

  lemma {:induction false} TableAgain(n: Node, scope: Scope, again: Scope, decide: Target -> Decision, i: nat)
    requires n.kind.Table? && i <= |n.kids|
    ensures AgainFrom(n, Source, scope, again, decide, i) == if i == 0 then EmittedAgain(n, Source, scope, again) else []
    decreases |n.kids| - i
  {
    hide EmittedAgain;
    if i < |n.kids| {
      TableAgain(n, scope, again, decide, i + 1);
      var none: seq<Ref> := [];
      assert Under(i, none) == none;
      assert EmittedAgain(n, Source, scope, again) + none == EmittedAgain(n, Source, scope, again) && none + none == none;
    }
  }

  lemma TableFinds(n: Node, scope: Scope, again: Scope, decide: Target -> Decision, ref: Ref)
    requires Replaces(n, Source, scope, again, decide, ref)
    ensures FindsIn(n, Rewrite(n, Source, scope, decide), Source, scope, again, decide)
  {
    hide RewriteKids, ContainsRead, KidScope, IsHandled, AgainFrom;
    OwnReference(n, Source, scope, again, ref);
    TableAgain(n, scope, again, decide, 0);
    FoundOne(ref, decide);
    NothingFound(decide);
    var out := Rewrite(n, Source, scope, decide);
    assert out == Apply(FieldsOnly(n, Source, scope, decide), ref.site, ref.target, decide(ref.target));
    assert Again(n, Source, scope, again, decide) == [ref];
    hide Rewrite, WalkFrom, FieldsOnly, Again;
    match decide(ref.target)
    case Rename(db, table) =>
      RenamedTable(out, again);
    case Remote =>
      WrapperIsEmpty(out, again);
    case Inline(body) =>
      SealedIsEmpty(out, Source, again);
  }

  lemma RenamedTable(n: Node, scope: Scope)
    requires n.kind.Table?
    ensures Walk(n, Source, scope) == Some(Emitted(n, Source, scope))
  {
    hide KidScope, Emitted, ContainsRead;
    TableFields(n, scope, 0);
  }

  /** An operand put into an IN or a call stands where the reference was emitted. */
  lemma OperandFinds(n: Node, out: Node, scope: Scope, again: Scope, decide: Target -> Decision, ref: Ref)
    requires Formed(n) && FieldsFind(n, Scalar, scope, again, decide)
    requires EmittedAgain(n, Scalar, scope, again) == [ref] && !ref.site.From? && Walk(n, Scalar, scope).Some?
    requires |out.kids| == |n.kids| && out.unknown == n.unknown
    requires if ref.site.Infix? then out.kind.In? else out.kind.Function?
    requires forall k :: 0 <= k < |n.kids| && k != 1 ==> out.kids[k] == FieldsOnly(n, Scalar, scope, decide).kids[k]
    requires |n.kids| >= 2 && FieldWalk(out, Scalar, again, 1).Some?
    requires Places(Emitted(out, Scalar, again)) + Below([1], Places(FieldWalk(out, Scalar, again, 1).value)) == Found(ref, decide)
    ensures FindsIn(n, out, Scalar, scope, again, decide)
  {
    hide Found, FoundAll, ContainsRead, AnyRead, RewriteKids, Rewrite, Mention, IsBound, KidScope, KidRole, IsHandled, FieldsFind, WalkFrom, AgainFrom,
      DecidedScope, AgainScope, Places, StepFinds, EmittedAgain, Emitted, Below, FieldsOnly;
    OwnReference(n, Scalar, scope, again, ref);
    NothingFound(decide);
    forall k | 0 <= k <= |n.kids|
      ensures StepFinds(n, out, Scalar, scope, again, decide, k)
    {
      if k == |n.kids| {
        LastStepFinds(n, out, Scalar, scope, again, decide);
      } else if k == 1 {
        OperandStep(n, out, scope, again, decide, ref);
      } else {
        FieldOf(n, Scalar, scope, decide, k);
        OperandKeepsField(n, out, scope, again, decide, k);
        FieldStepFinds(n, out, Scalar, scope, again, decide, k);
      }
    }
    StepsFind(n, out, Scalar, scope, again, decide, 0);
    SameReads(n, out);
  }

  lemma OperandStep(n: Node, out: Node, scope: Scope, again: Scope, decide: Target -> Decision, ref: Ref)
    requires EmittedAgain(n, Scalar, scope, again) == [ref] && !ref.site.From? && |out.kids| == |n.kids| >= 2
    requires (out.kind.In? || out.kind.Function?) && FieldWalk(out, Scalar, again, 1).Some?
    requires Places(Emitted(out, Scalar, again)) + Below([1], Places(FieldWalk(out, Scalar, again, 1).value)) == Found(ref, decide)
    ensures StepFinds(n, out, Scalar, scope, again, decide, 1)
  {
    hide Found, FoundAll, Walk, WalkFrom, IsBound, Places, Emitted, EmittedAgain, FieldWalk;
    OwnReference(n, Scalar, scope, again, ref);
    FoundOne(ref, decide);
    NothingFound(decide);
    var none: seq<Ref> := [];
    var nowhere: seq<Place> := [];
    assert FieldAgain(n, Scalar, scope, again, decide, 1) == none;
    assert Below([1], nowhere) == nowhere && Found(ref, decide) + nowhere == Found(ref, decide);
  }

  /** The other fields of an IN or a call are walked as they were. */
  lemma OperandKeepsField(n: Node, out: Node, scope: Scope, again: Scope, decide: Target -> Decision, k: nat)
    requires (n.kind.In? && out.kind.In?) || (n.kind.Function? && out.kind.Function?)
    requires Formed(n) && k < |n.kids| == |out.kids| && k != 1 && (n.kind.Function? ==> n.kind.named.Some?)
    ensures VisitsKid(n, Scalar, k) && VisitsKid(out, Scalar, k)
    ensures KidRole(out, Scalar, k) == KidRole(n, Scalar, k) && KidScope(out, Scalar, again, k) == AgainScope(n, Scalar, again, scope, decide, k)
  {
  }

  lemma OperandReplaced(n: Node, scope: Scope, again: Scope, decide: Target -> Decision, ref: Ref)
    requires Formed(n) && FieldsFind(n, Scalar, scope, again, decide)
    requires Replaces(n, Scalar, scope, again, decide, ref) && !ref.site.From? && Walk(n, Scalar, scope).Some?
    ensures FindsIn(n, Rewrite(n, Scalar, scope, decide), Scalar, scope, again, decide)
  {
    hide RewriteKids, ContainsRead, FieldsFind, WalkFrom, EmittedAgain;
    OwnReference(n, Scalar, scope, again, ref);
    var out := Rewrite(n, Scalar, scope, decide);
    assert out == Apply(FieldsOnly(n, Scalar, scope, decide), ref.site, ref.target, decide(ref.target));
    OperandWalk(n, scope, again, decide, ref, out);
    OperandFinds(n, out, scope, again, decide, ref);
  }

  /** What the new operand, or the new name in its place, adds to the walk. */
  lemma OperandWalk(n: Node, scope: Scope, again: Scope, decide: Target -> Decision, ref: Ref, out: Node)
    requires Formed(n) && Replaces(n, Scalar, scope, again, decide, ref) && !ref.site.From?
    requires out == Apply(FieldsOnly(n, Scalar, scope, decide), ref.site, ref.target, decide(ref.target))
    ensures |out.kids| == |n.kids| >= 2 && out.unknown == n.unknown
    ensures if ref.site.Infix? then out.kind.In? else out.kind.Function?
    ensures forall k :: 0 <= k < |n.kids| && k != 1 ==> out.kids[k] == FieldsOnly(n, Scalar, scope, decide).kids[k]
    ensures FieldWalk(out, Scalar, again, 1).Some?
    ensures Places(Emitted(out, Scalar, again)) + Below([1], Places(FieldWalk(out, Scalar, again, 1).value)) == Found(ref, decide)
  {
    hide RewriteKids, ContainsRead, WalkFrom, Walk, KidScope, KidRole, VisitsKid, IsHandled, EmittedAgain;
    OwnReference(n, Scalar, scope, again, ref);
    OperandField(out, again);
    var d := decide(ref.target);
    var none: seq<Ref> := [];
    NothingFound(decide);
    var nowhere: seq<Place> := [];
    assert Below([1], nowhere) == nowhere;
    if d.Rename? {
      assert FieldWalk(out, Scalar, again, 1) == Some(none);
    } else {
      assert Emitted(out, Scalar, again) == none;
      if d.Remote? {
        RemoteIsEmpty(Scalar, again);
      } else if !ref.site.Infix? {
        SealedIsEmpty(out.kids[1], Scalar, again);
      } else {
        assert ref.path + [1] == [1];
        assert nowhere + Below([1], Places(FieldWalk(out, Scalar, again, 1).value)) == Below([1], Places(FieldWalk(out, Scalar, again, 1).value));
      }
    }
  }

  /** The operand of an IN or a call is walked as a scalar where the node stands, unless it is a name. */
  lemma OperandField(n: Node, scope: Scope)
    requires (n.kind.In? || n.kind.Function?) && |n.kids| >= 2
    ensures KidRole(n, Scalar, 1) == Scalar && KidScope(n, Scalar, scope, 1) == scope
    ensures VisitsKid(n, Scalar, 1) <==> if n.kind.In? then n.kind.operand.Value? else n.kind.named.None?
  {
  }

  // ---------------------------------------------------------------------------------------
  // The whole statement

  /** Whether a walk gives up does not depend on the scope. */
  lemma {:induction false} WalkIgnoresScope(n: Node, role: Role, a: Scope, b: Scope)
    requires Walk(n, role, a).Some?
    ensures Walk(n, role, b).Some?
    decreases n, |n.kids| + 1
  {
    hide ContainsRead, AnyRead, KidScope;
    if ModeOf(n, role).Visit? {
      FieldsIgnoreScope(n, role, a, b, 0);
    }
  }

  lemma {:induction false} FieldsIgnoreScope(n: Node, role: Role, a: Scope, b: Scope, i: nat)
    requires i <= |n.kids| && WalkFrom(n, role, a, i).Some?
    ensures WalkFrom(n, role, b, i).Some?
    decreases n, |n.kids| - i
  {
    hide ContainsRead, AnyRead, KidScope, KidRole, VisitsKid, Emitted, EmitsAt, Walk;
    if i < |n.kids| {
      if VisitsKid(n, role, i) {
        WalkIgnoresScope(n.kids[i], KidRole(n, role, i), KidScope(n, role, a, i), KidScope(n, role, b, i));
      }
      FieldsIgnoreScope(n, role, a, b, i + 1);
    }
  }

  /** Nor does a field give up when its node does not. */
  lemma {:induction false} FieldWalks(n: Node, role: Role, scope: Scope, i: nat, k: nat, passed: Scope)
    requires i <= k < |n.kids| && WalkFrom(n, role, scope, i).Some? && VisitsKid(n, role, k)
    ensures Walk(n.kids[k], KidRole(n, role, k), passed).Some?
    decreases k - i
  {
    hide Walk, KidScope, KidRole, VisitsKid, Emitted, EmitsAt;
    if i < k {
      FieldWalks(n, role, scope, i + 1, k, passed);
    } else {
      WalkIgnoresScope(n.kids[k], KidRole(n, role, k), KidScope(n, role, scope, k), passed);
    }
  }

  lemma BodiesParts(a: seq<Ref>, i: nat, kid: seq<Ref>, rest: seq<Ref>, decide: Target -> Decision)
    requires BodiesWalk(a + Under(i, kid) + rest, decide)
    ensures BodiesWalk(a, decide) && BodiesWalk(kid, decide) && BodiesWalk(rest, decide)
  {
    hide Walk;
    var all := a + Under(i, kid) + rest;
    assert forall k :: 0 <= k < |a| ==> all[k] == a[k];
    assert forall k :: 0 <= k < |kid| ==> all[|a| + k] == Under(i, kid)[k];
    assert forall k :: 0 <= k < |rest| ==> all[|a| + |kid| + k] == rest[k];
  }

  /** The condition on bodies passes on to the node's own reference, and to every field. */
  lemma {:induction false} BodiesInside(n: Node, role: Role, scope: Scope, again: Scope, decide: Target -> Decision, i: nat)
    requires i <= |n.kids| && BodiesWalk(AgainFrom(n, role, scope, again, decide, i), decide)
    ensures i <= EmitsAt(n) ==> BodiesWalk(EmittedAgain(n, role, scope, again), decide)
    decreases |n.kids| - i
  {
    hide Again, AgainFrom, VisitsKid, DecidedScope, AgainScope, KidRole, BodiesWalk, EmittedAgain, EmitsAt, FieldAgain, Under;
    if i < |n.kids| {
      BodiesStep(n, role, scope, again, decide, i);
      BodiesInside(n, role, scope, again, decide, i + 1);
    } else {
      LastFrom(n, role, scope, again, decide);
    }
  }

  lemma {:induction false} BodiesInField(n: Node, role: Role, scope: Scope, again: Scope, decide: Target -> Decision, i: nat, k: nat)
    requires i <= k < |n.kids| && BodiesWalk(AgainFrom(n, role, scope, again, decide, i), decide)
    ensures BodiesWalk(FieldAgain(n, role, scope, again, decide, k), decide)
    decreases k - i
  {
    hide Again, AgainFrom, BodiesWalk, FieldAgain;
    BodiesStep(n, role, scope, again, decide, i);
    if i < k {
      BodiesInField(n, role, scope, again, decide, i + 1, k);
    }
  }

  lemma BodiesStep(n: Node, role: Role, scope: Scope, again: Scope, decide: Target -> Decision, i: nat)
    requires i < |n.kids| && BodiesWalk(AgainFrom(n, role, scope, again, decide, i), decide)
    ensures i == EmitsAt(n) ==> BodiesWalk(EmittedAgain(n, role, scope, again), decide)
    ensures BodiesWalk(FieldAgain(n, role, scope, again, decide, i), decide)
    ensures BodiesWalk(AgainFrom(n, role, scope, again, decide, i + 1), decide)
  {
    hide Again, AgainFrom, BodiesWalk, EmittedAgain, EmitsAt, FieldAgain, Under;
    FromStep(n, role, scope, again, decide, i);
    BodiesParts(OwnAgainAt(n, role, scope, again, i), i, FieldAgain(n, role, scope, again, decide, i), AgainFrom(n, role, scope, again, decide, i + 1), decide);
  }

  lemma LastFrom(n: Node, role: Role, scope: Scope, again: Scope, decide: Target -> Decision)
    ensures AgainFrom(n, role, scope, again, decide, |n.kids|) == OwnAgainAt(n, role, scope, again, |n.kids|)
    ensures EmitsAt(n) <= |n.kids|
  {
    hide EmittedAgain;
  }

  lemma FromStep(n: Node, role: Role, scope: Scope, again: Scope, decide: Target -> Decision, i: nat)
    requires i < |n.kids|
    ensures AgainFrom(n, role, scope, again, decide, i) ==
      OwnAgainAt(n, role, scope, again, i) + Under(i, FieldAgain(n, role, scope, again, decide, i)) + AgainFrom(n, role, scope, again, decide, i + 1)
  {
    hide Again, VisitsKid, DecidedScope, AgainScope, KidRole, EmittedAgain, EmitsAt;
  }

  lemma {:induction false} RewrittenFinds(n: Node, role: Role, scope: Scope, again: Scope, decide: Target -> Decision)
    requires Formed(n) && Within(scope, again)
    requires Walk(n, role, scope).Some? && BodiesWalk(Again(n, role, scope, again, decide), decide)
    ensures FindsIn(n, Rewrite(n, role, scope, decide), role, scope, again, decide)
    decreases n
  {
    hide BodiesWalk, DecidedScope, AgainScope, KidScope, KidRole, VisitsKid, RewriteKids, ContainsRead, AnyRead, Found, FoundAll, Places, Within;
    if ModeOf(n, role).Visit? {
      BodiesInside(n, role, scope, again, decide, 0);
      forall k | 0 <= k < |n.kids| && VisitsKid(n, role, k)
        ensures var passed := DecidedScope(n, role, scope, decide, k);
          FindsIn(n.kids[k], Rewrite(n.kids[k], KidRole(n, role, k), passed, decide), KidRole(n, role, k), passed,
                  AgainScope(n, role, again, scope, decide, k), decide)
      {
        hide FindsIn, Rewrite, Again, EmittedAgain, WalkFrom;
        var passed := DecidedScope(n, role, scope, decide, k);
        AgainWithin(n, role, scope, again, decide, k);
        FieldWalks(n, role, scope, 0, k, passed);
        BodiesInField(n, role, scope, again, decide, 0, k);
        RewrittenFinds(n.kids[k], KidRole(n, role, k), passed, AgainScope(n, role, again, scope, decide, k), decide);
      }
      VisitedFinds(n, role, scope, again, decide);
    } else {
      UnvisitedFinds(n, role, scope, again, decide);
    }
  }

  lemma UnvisitedFinds(n: Node, role: Role, scope: Scope, again: Scope, decide: Target -> Decision)
    requires !ModeOf(n, role).Visit? && Walk(n, role, scope).Some?
    ensures FindsIn(n, Rewrite(n, role, scope, decide), role, scope, again, decide)
  {
    hide ContainsRead, Found;
    NothingFound(decide);
  }

  lemma VisitedFinds(n: Node, role: Role, scope: Scope, again: Scope, decide: Target -> Decision)
    requires Formed(n) && FieldsFind(n, role, scope, again, decide) && Within(scope, again)
    requires ModeOf(n, role).Visit? && Walk(n, role, scope).Some?
    requires BodiesWalk(EmittedAgain(n, role, scope, again), decide)
    ensures FindsIn(n, Rewrite(n, role, scope, decide), role, scope, again, decide)
  {
    hide FieldsFind, FindsIn, RewriteKids, ContainsRead, WalkFrom, Mention, IsBound, Within;
    var own := EmittedAgain(n, role, scope, again);
    if n.kind.Paren? && role.Source? && !IsHandled(n) {
      ParenFinds(n, scope, again, decide);
    } else if own == [] || decide(own[0].target).Skip? {
      PlainFinds(n, role, scope, again, decide);
    } else {
      var ref := own[0];
      assert own == [ref];
      OwnReference(n, role, scope, again, ref);
      if ref.site.From? {
        TableFinds(n, scope, again, decide, ref);
      } else {
        OperandReplaced(n, scope, again, decide, ref);
      }
    }
  }

  lemma SelfWithin(scope: Scope)
    ensures Within(scope, scope)
  {
  }

  /**
   Whatever the decisions, collecting the rewritten statement finds, in order and in its place, what the decision put
   in place of each reference rewriting asked about, unless the second walk binds that name; and nothing else.
   */
  lemma CollectAfterRewrite(root: Node, role: Role, entry: Scope, decide: Target -> Decision)
    requires Formed(root) && Walk(root, role, entry).Some?
    requires BodiesWalk(Again(root, role, entry, entry, decide), decide)
    ensures Walk(Rewrite(root, role, entry, decide), role, entry).Some?
    ensures Places(Walk(Rewrite(root, role, entry, decide), role, entry).value) == FoundAll(Again(root, role, entry, entry, decide), decide)
  {
    SelfWithin(entry);
    RewrittenFinds(root, role, entry, entry, decide);
  }
}
