/**
 Exactly when rewriting asks about what collecting reports. Scopes are foretold from the statement as written
 and the decisions: a definition that becomes a value alias binds its name. The two agree if and only if every
 mentioned table is bound in the foretold scope of its place just when it is bound in the written one.
 */
module ReadDecided {
  import opened Common
  import opened ReadTree
  import opened ReadWalk
  import opened FreeNames
  import opened ReadRewrite

  // ---------------------------------------------------------------------------------------
  // Foretold scopes

  /** What a definition declares at at once its value was rewritten in the scope passed. */
  function DeclareRewritten(at: Scope, n: Node, passed: Scope, decide: Target -> Decision): Scope
  {
    if BecomesAlias(n, at, passed, decide) then at.(aliases := at.aliases + {n.kind.name}) else Declare(at, n)
  }

  function DecidedFirst(scope: Scope, kids: seq<Node>, n: nat, decide: Target -> Decision): Scope
    requires n <= |kids|
  {
    if n == 0 then scope else (var at := DecidedFirst(scope, kids, n - 1, decide); DeclareRewritten(at, kids[n - 1], at, decide))
  }

  /** A recursive WITH has declared its names before any value is rewritten. */
  function AfterDecided(scope: Scope, with: Node, decide: Target -> Decision): Scope
  {
    if with.kind == With(false) then DecidedFirst(scope, with.kids, |with.kids|, decide) else AfterWith(scope, with)
  }

  function DecidedScope(n: Node, role: Role, scope: Scope, decide: Target -> Decision, i: nat): Scope
    requires i < |n.kids|
  {
    match n.kind
    case Select(aliases, marked) =>
      var base := QueryScope(scope, marked);
      if i == 0 then base else SelectScope(AfterDecided(base, n.kids[0], decide), aliases)
    case SetOperation(marked) =>
      var base := QueryScope(scope, marked);
      if i == 0 then base else AfterDecided(base, n.kids[0], decide)
    case With(false) => DecidedFirst(scope, n.kids, i, decide)
    case _ => KidScope(n, role, scope, i)
  }

  /** A rewritten definition declares what was foretold. */
  lemma DefinitionForetold(n: Node, at: Scope, passed: Scope, decide: Target -> Decision)
    requires Formed(n)
    ensures Declare(at, Rewrite(n, Binding, passed, decide)) == DeclareRewritten(at, n, passed, decide)
  {
    hide ContainsRead, AnyRead, IsReadQuery, IsNoTable, BecomesConstant, IsStoredViewLiteral, KidScope, Partly;
    DefinitionKept(n, passed, decide, at);
    if BecomesAlias(n, at, passed, decide) {
      DefinitionRewritten(n, passed, decide);
      ValueClassified(n.kids[0], passed, decide);
      QueryIsNoTable(n.kids[0], passed, decide);
    }
  }

  lemma {:induction false} DefinitionsForetold(n: Node, role: Role, scope: Scope, decide: Target -> Decision, m: nat)
    requires n.kind == With(false) && Formed(n) && m <= |n.kids|
    ensures DeclareFirst(scope, RewriteKids(n, role, scope, decide, m), m) == DecidedFirst(scope, n.kids, m, decide)
    ensures m < |n.kids| ==> PassedScope(n, role, scope, decide, m) == DecidedFirst(scope, n.kids, m, decide)
    decreases m
  {
    hide Declare, DeclareRewritten, Rewrite, RewriteKids;
    var done := RewriteKids(n, role, scope, decide, m);
    if m > 0 {
      var i := m - 1;
      var at := DecidedFirst(scope, n.kids, i, decide);
      DefinitionsForetold(n, role, scope, decide, i);
      KidRewritten(n, role, scope, decide, m, i);
      DeclareFirstLocal(scope, done, RewriteKids(n, role, scope, decide, i), i);
      if n.kids[i].kind.Cte? {
        DefinitionForetold(n.kids[i], at, at, decide);
      } else {
        NoDefinition(n.kids[i], at, decide, at);
        OnlyDefinitions(at, n.kids[i], at, decide);
      }
    }
    if m < |n.kids| {
      assert Partly(n, done).kids == done + n.kids[m..];
      DeclareFirstLocal(scope, done + n.kids[m..], done, m);
    }
  }

  lemma OnlyDefinitions(at: Scope, n: Node, passed: Scope, decide: Target -> Decision)
    requires !n.kind.Cte?
    ensures DeclareRewritten(at, n, passed, decide) == at
  {
  }

  /** The rewritten WITH of a query leaves the foretold scope. */
  lemma WithForetold(w: Node, base: Scope, decide: Target -> Decision)
    requires Formed(w) && w.kind != With(true)
    ensures AfterWith(base, Rewrite(w, Bindings, base, decide)) == AfterDecided(base, w, decide)
  {
    hide Declare, IsHandled, RewriteKids, DeclareFirst, DecidedFirst;
    if w.kind.With? {
      DefinitionsForetold(w, Bindings, base, decide, |w.kids|);
    }
  }

  /** The scope a field is rewritten in is the foretold one. */
  lemma PassedIsForetold(n: Node, role: Role, scope: Scope, decide: Target -> Decision, i: nat)
    requires Formed(n) && i < |n.kids|
    ensures PassedScope(n, role, scope, decide, i) == DecidedScope(n, role, scope, decide, i)
  {
    hide Rewrite, Declare, IsHandled, RewriteKids, AfterWith, AfterDecided, DeclareFirst, DecidedFirst, RewrittenField;
    if n.kind == With(false) {
      DefinitionsForetold(n, role, scope, decide, i);
    } else if n.kind.Select? || n.kind.SetOperation? {
      QueryForetold(n, role, scope, decide, i);
    }
  }

  lemma QueryForetold(n: Node, role: Role, scope: Scope, decide: Target -> Decision, i: nat)
    requires Formed(n) && i < |n.kids| && (n.kind.Select? || n.kind.SetOperation?)
    ensures PassedScope(n, role, scope, decide, i) == DecidedScope(n, role, scope, decide, i)
  {
    hide Rewrite, RewriteKids, AfterWith, AfterDecided, RewrittenField, SelectScope, QueryScope;
    if i > 0 {
      if n.kids[0].kind == With(true) {
        assert AfterDecided(QueryScope(scope, n.kind.marked), n.kids[0], decide) == AfterWith(QueryScope(scope, n.kind.marked), n.kids[0]) by {
          RecursiveForetold(n.kids[0], QueryScope(scope, n.kind.marked), decide);
        }
      } else {
        KidRewritten(n, role, scope, decide, i, 0);
        FirstField(n, role, scope, decide);
        WithForetold(n.kids[0], QueryScope(scope, n.kind.marked), decide);
      }
    }
  }

  lemma RecursiveForetold(w: Node, base: Scope, decide: Target -> Decision)
    requires w.kind == With(true)
    ensures AfterDecided(base, w, decide) == AfterWith(base, w)
  {
  }

  lemma FirstField(n: Node, role: Role, scope: Scope, decide: Target -> Decision)
    requires n.kids != [] && (n.kind.Select? || n.kind.SetOperation?)
    ensures RewrittenField(n, role, scope, decide, 0) == Rewrite(n.kids[0], Bindings, QueryScope(scope, n.kind.marked), decide)
  {
    hide Rewrite, QueryScope;
    assert RewriteKids(n, role, scope, decide, 0) == [];
  }

  // ---------------------------------------------------------------------------------------
  // References without their scopes

  datatype Place = Place(path: seq<nat>, site: Site, target: Target)

  function Places(refs: seq<Ref>): (r: seq<Place>)
    ensures |r| == |refs| && forall k :: 0 <= k < |r| ==> r[k] == Place(refs[k].path, refs[k].site, refs[k].target)
  {
    seq(|refs|, k requires 0 <= k < |refs| => Place(refs[k].path, refs[k].site, refs[k].target))
  }

  /** Every table the walk finds mentioned is bound where it is foretold just when it is bound as written. */
  predicate BoundAlike(n: Node, role: Role, scope: Scope, foretold: Scope, decide: Target -> Decision)
    decreases n
  {
    ModeOf(n, role).Visit? ==>
      && OwnBoundAlike(n, role, scope, foretold)
      && forall i :: 0 <= i < |n.kids| && VisitsKid(n, role, i) ==>
        BoundAlike(n.kids[i], KidRole(n, role, i), KidScope(n, role, scope, i), DecidedScope(n, role, foretold, decide, i), decide)
  }

  predicate OwnBoundAlike(n: Node, role: Role, scope: Scope, foretold: Scope)
  {
    Mention(n, role).Some? ==>
      var (site, t) := Mention(n, role).value; IsBound(site, t, scope) == IsBound(site, t, foretold)
  }

  // ---------------------------------------------------------------------------------------
  // Taking two walks apart

  /** Places of two lists whose first parts satisfy p and whose second parts do not agree when the parts do. */
  lemma SameParts(p: Place -> bool, a: seq<Place>, b: seq<Place>, c: seq<Place>, d: seq<Place>)
    requires forall k :: 0 <= k < |a| ==> p(a[k])
    requires forall k :: 0 <= k < |c| ==> p(c[k])
    requires forall k :: 0 <= k < |b| ==> !p(b[k])
    requires forall k :: 0 <= k < |d| ==> !p(d[k])
    ensures a + b == c + d <==> a == c && b == d
  {
    if a + b == c + d {
      var all := a + b;
      assert forall k :: 0 <= k < |all| ==> (p(all[k]) <==> k < |a|);
      assert forall k :: 0 <= k < |c + d| ==> (p((c + d)[k]) <==> k < |c|);
      var i := if |a| < |c| then |a| else |c|;
      assert i < |all| ==> (p(all[i]) <==> i < |a|) && (p((c + d)[i]) <==> i < |c|);
      assert a == all[..|a|] && c == all[..|c|];
      assert b == all[|a|..] && d == all[|c|..];
    }
  }

  lemma PlacesConcat(a: seq<Ref>, b: seq<Ref>)
    ensures Places(a + b) == Places(a) + Places(b)
  {
  }

  /** The places seen from further out. */
  function Below(prefix: seq<nat>, places: seq<Place>): (r: seq<Place>)
    ensures |r| == |places| && forall k :: 0 <= k < |r| ==> r[k] == places[k].(path := prefix + places[k].path)
  {
    seq(|places|, k requires 0 <= k < |places| => places[k].(path := prefix + places[k].path))
  }

  lemma PlacesUnder(i: nat, refs: seq<Ref>)
    ensures Places(Under(i, refs)) == Below([i], Places(refs))
  {
  }

  lemma BelowApart(i: nat, a: seq<Place>, b: seq<Place>)
    ensures Below([i], a) == Below([i], b) <==> a == b
  {
    if Below([i], a) == Below([i], b) {
      assert |Below([i], a)| == |Below([i], b)|;
      forall k | 0 <= k < |a|
        ensures a[k] == b[k]
      {
        assert Below([i], a)[k] == Below([i], b)[k];
        assert Below([i], a)[k].path[1..] == a[k].path && Below([i], b)[k].path[1..] == b[k].path;
      }
    }
  }

  /** Places asked about from field i on are the node's own, if it is still to come, or below such a field. */
  lemma {:induction false} AskedFromFields(n: Node, role: Role, scope: Scope, decide: Target -> Decision, i: nat)
    requires i <= |n.kids| && AskedFrom(n, role, scope, decide, i).Some?
    ensures FromField(AskedFrom(n, role, scope, decide, i).value, i <= EmitsAt(n), i)
    decreases |n.kids| - i
  {
    hide KidScope, KidRole, VisitsKid, Mention, IsBound, FromField, Partly, Asked, RewriteKids;
    var here := if i == EmitsAt(n) then Emitted(n, role, scope) else [];
    OwnIsOne(n, role, scope, i);
    if i < |n.kids| {
      var kid := if VisitsKid(n, role, i) then Asked(n.kids[i], KidRole(n, role, i), PassedScope(n, role, scope, decide, i), decide) else Some([]);
      AskedFromFields(n, role, scope, decide, i + 1);
      JoinFields(here, i, kid.value, AskedFrom(n, role, scope, decide, i + 1).value, EmitsAt(n));
    }
  }

  lemma JoinFields(own: seq<Ref>, i: nat, kid: seq<Ref>, rest: seq<Ref>, at: nat)
    requires FromField(own, i <= at, i) && FromField(rest, i + 1 <= at, i + 1)
    ensures FromField(own + Under(i, kid) + rest, i <= at, i)
  {
  }

  /** The same of places. */
  predicate PlacesFrom(places: seq<Place>, own: bool, i: nat)
  {
    forall k :: 0 <= k < |places| ==> if places[k].path == [] then own else places[k].path[0] >= i
  }

  /** Only the node's own place, and only when it is due. */
  predicate OwnOnly(places: seq<Place>, due: bool)
  {
    forall k :: 0 <= k < |places| ==> places[k].path == [] && due
  }

  /** Two walks of a node agree from field i on when they agree on its own place, on field i and after it. */
  lemma PlacesApart(i: nat, at: nat, own: seq<Place>, own': seq<Place>, kid: seq<Place>, kid': seq<Place>, rest: seq<Place>, rest': seq<Place>)
    requires OwnOnly(own, i == at) && OwnOnly(own', i == at)
    requires PlacesFrom(rest, i + 1 <= at, i + 1) && PlacesFrom(rest', i + 1 <= at, i + 1)
    ensures own + Below([i], kid) + rest == own' + Below([i], kid') + rest' <==> own == own' && kid == kid' && rest == rest'
  {
    var early := (p: Place) => (i == at && p.path == []) || (p.path != [] && p.path[0] == i);
    var none := (p: Place) => p.path == [];
    SameParts(early, own + Below([i], kid), rest, own' + Below([i], kid'), rest');
    SameParts(none, own, Below([i], kid), own', Below([i], kid'));
    BelowApart(i, kid, kid');
  }

  /** The same of two walks' references. */
  lemma FieldsApart(i: nat, at: nat, own: seq<Ref>, own': seq<Ref>, kid: seq<Ref>, kid': seq<Ref>, rest: seq<Ref>, rest': seq<Ref>)
    requires forall k :: 0 <= k < |own| ==> own[k].path == [] && i == at
    requires forall k :: 0 <= k < |own'| ==> own'[k].path == [] && i == at
    requires FromField(rest, i + 1 <= at, i + 1) && FromField(rest', i + 1 <= at, i + 1)
    ensures Places(own + Under(i, kid) + rest) == Places(own' + Under(i, kid') + rest') <==>
      Places(own) == Places(own') && Places(kid) == Places(kid') && Places(rest) == Places(rest')
  {
    PlacesConcat(own + Under(i, kid), rest);
    PlacesConcat(own' + Under(i, kid'), rest');
    PlacesConcat(own, Under(i, kid));
    PlacesConcat(own', Under(i, kid'));
    PlacesUnder(i, kid);
    PlacesUnder(i, kid');
    PlacesApart(i, at, Places(own), Places(own'), Places(kid), Places(kid'), Places(rest), Places(rest'));
  }

  // ---------------------------------------------------------------------------------------
  // Asked exactly when collected

  /** Rewriting gives up only where collecting does: neither depends on the scope. */
  lemma {:induction false} AskedSucceeds(n: Node, role: Role, scope: Scope, foretold: Scope, decide: Target -> Decision)
    requires Walk(n, role, scope).Some?
    ensures Asked(n, role, foretold, decide).Some?
    decreases n, |n.kids| + 1
  {
    hide ContainsRead, AnyRead, KidScope, PassedScope;
    if ModeOf(n, role).Visit? {
      FieldsSucceed(n, role, scope, foretold, decide, 0);
    }
  }

  lemma {:induction false} FieldsSucceed(n: Node, role: Role, scope: Scope, foretold: Scope, decide: Target -> Decision, i: nat)
    requires i <= |n.kids| && WalkFrom(n, role, scope, i).Some?
    ensures AskedFrom(n, role, foretold, decide, i).Some?
    decreases n, |n.kids| - i
  {
    hide ContainsRead, AnyRead, KidScope, KidRole, VisitsKid, Partly, RewriteKids, Emitted, EmitsAt, Walk, Asked;
    if i < |n.kids| {
      if VisitsKid(n, role, i) {
        AskedSucceeds(n.kids[i], KidRole(n, role, i), KidScope(n, role, scope, i), PassedScope(n, role, foretold, decide, i), decide);
      }
      FieldsSucceed(n, role, scope, foretold, decide, i + 1);
    }
  }

  lemma {:induction false} AskedAlike(n: Node, role: Role, scope: Scope, foretold: Scope, decide: Target -> Decision)
    requires Formed(n) && Walk(n, role, scope).Some?
    ensures Asked(n, role, foretold, decide).Some?
    ensures Places(Asked(n, role, foretold, decide).value) == Places(Walk(n, role, scope).value) <==> BoundAlike(n, role, scope, foretold, decide)
    decreases n, |n.kids| + 2
  {
    hide ContainsRead, AnyRead, KidScope, Partly, DecidedScope, OwnBoundAlike;
    AskedSucceeds(n, role, scope, foretold, decide);
    if ModeOf(n, role).Visit? {
      FieldsAskedAlike(n, role, scope, foretold, decide, 0);
    }
  }

  function FieldWalk(n: Node, role: Role, scope: Scope, i: nat): Option<seq<Ref>>
    requires i < |n.kids|
  {
    if VisitsKid(n, role, i) then Walk(n.kids[i], KidRole(n, role, i), KidScope(n, role, scope, i)) else Some([])
  }

  function FieldAsked(n: Node, role: Role, foretold: Scope, decide: Target -> Decision, i: nat): Option<seq<Ref>>
    requires i < |n.kids|
  {
    if VisitsKid(n, role, i) then Asked(n.kids[i], KidRole(n, role, i), PassedScope(n, role, foretold, decide, i), decide) else Some([])
  }

  function OwnAt(n: Node, role: Role, scope: Scope, i: nat): seq<Ref>
  {
    if i == EmitsAt(n) then Emitted(n, role, scope) else []
  }

  lemma WalkStep(n: Node, role: Role, scope: Scope, i: nat)
    requires i < |n.kids| && WalkFrom(n, role, scope, i).Some?
    ensures FieldWalk(n, role, scope, i).Some? && WalkFrom(n, role, scope, i + 1).Some?
    ensures WalkFrom(n, role, scope, i).value ==
      OwnAt(n, role, scope, i) + Under(i, FieldWalk(n, role, scope, i).value) + WalkFrom(n, role, scope, i + 1).value
  {
    hide KidScope, KidRole, VisitsKid, Emitted, EmitsAt, Walk, Under;
  }

  lemma AskedStep(n: Node, role: Role, foretold: Scope, decide: Target -> Decision, i: nat)
    requires i < |n.kids| && AskedFrom(n, role, foretold, decide, i).Some?
    ensures FieldAsked(n, role, foretold, decide, i).Some? && AskedFrom(n, role, foretold, decide, i + 1).Some?
    ensures AskedFrom(n, role, foretold, decide, i).value ==
      OwnAt(n, role, foretold, i) + Under(i, FieldAsked(n, role, foretold, decide, i).value) + AskedFrom(n, role, foretold, decide, i + 1).value
  {
    hide KidScope, KidRole, VisitsKid, Emitted, EmitsAt, Asked, Under, Partly, RewriteKids;
  }

  /** From field i on the two walks agree when they agree on the node's own reference, on the field and after it. */
  lemma StepAlike(n: Node, role: Role, scope: Scope, foretold: Scope, decide: Target -> Decision, i: nat)
    requires i < |n.kids| && WalkFrom(n, role, scope, i).Some? && AskedFrom(n, role, foretold, decide, i).Some?
    ensures FieldWalk(n, role, scope, i).Some? && WalkFrom(n, role, scope, i + 1).Some?
    ensures FieldAsked(n, role, foretold, decide, i).Some? && AskedFrom(n, role, foretold, decide, i + 1).Some?
    ensures Places(AskedFrom(n, role, foretold, decide, i).value) == Places(WalkFrom(n, role, scope, i).value) <==>
      && (i == EmitsAt(n) ==> OwnBoundAlike(n, role, scope, foretold))
      && Places(FieldAsked(n, role, foretold, decide, i).value) == Places(FieldWalk(n, role, scope, i).value)
      && Places(AskedFrom(n, role, foretold, decide, i + 1).value) == Places(WalkFrom(n, role, scope, i + 1).value)
  {
    hide WalkFrom, AskedFrom, FieldWalk, FieldAsked, OwnBoundAlike, Places, FromField, Emitted, EmitsAt, Under;
    WalkStep(n, role, scope, i);
    AskedStep(n, role, foretold, decide, i);
    OwnAlike(n, role, scope, foretold);
    FieldsAreDistinct(n, role, scope, i + 1);
    AskedFromFields(n, role, foretold, decide, i + 1);
    FieldsApart(i, EmitsAt(n), OwnAt(n, role, foretold, i), OwnAt(n, role, scope, i),
      FieldAsked(n, role, foretold, decide, i).value, FieldWalk(n, role, scope, i).value,
      AskedFrom(n, role, foretold, decide, i + 1).value, WalkFrom(n, role, scope, i + 1).value);
  }

  predicate FieldsBoundAlike(n: Node, role: Role, scope: Scope, foretold: Scope, decide: Target -> Decision, i: nat)
  {
    forall k :: i <= k < |n.kids| && VisitsKid(n, role, k) ==>
      BoundAlike(n.kids[k], KidRole(n, role, k), KidScope(n, role, scope, k), DecidedScope(n, role, foretold, decide, k), decide)
  }

  lemma {:induction false} FieldsAskedAlike(n: Node, role: Role, scope: Scope, foretold: Scope, decide: Target -> Decision, i: nat)
    requires Formed(n) && i <= |n.kids| && WalkFrom(n, role, scope, i).Some? && AskedFrom(n, role, foretold, decide, i).Some?
    ensures Places(AskedFrom(n, role, foretold, decide, i).value) == Places(WalkFrom(n, role, scope, i).value) <==>
      (i <= EmitsAt(n) ==> OwnBoundAlike(n, role, scope, foretold)) && FieldsBoundAlike(n, role, scope, foretold, decide, i)
    decreases n, |n.kids| - i
  {
    if i < |n.kids| {
      hide WalkFrom, AskedFrom, OwnBoundAlike, BoundAlike, FieldsBoundAlike, Places, EmitsAt, Asked, Walk, PassedScope, DecidedScope,
        KidScope, KidRole, VisitsKid;
      StepAlike(n, role, scope, foretold, decide, i);
      PassedIsForetold(n, role, foretold, decide, i);
      if VisitsKid(n, role, i) {
        AskedAlike(n.kids[i], KidRole(n, role, i), KidScope(n, role, scope, i), DecidedScope(n, role, foretold, decide, i), decide);
      }
      FieldsAskedAlike(n, role, scope, foretold, decide, i + 1);
      FieldsSplit(n, role, scope, foretold, decide, i);
    } else {
      hide Emitted, EmitsAt, OwnBoundAlike, FieldsBoundAlike, Places;
      NoFields(n, role, scope, foretold, decide, i);
      OwnAlike(n, role, scope, foretold);
    }
  }

  lemma NoFields(n: Node, role: Role, scope: Scope, foretold: Scope, decide: Target -> Decision, i: nat)
    requires i >= |n.kids|
    ensures FieldsBoundAlike(n, role, scope, foretold, decide, i)
  {
  }

  lemma FieldsSplit(n: Node, role: Role, scope: Scope, foretold: Scope, decide: Target -> Decision, i: nat)
    requires i < |n.kids|
    ensures FieldsBoundAlike(n, role, scope, foretold, decide, i) <==>
      && (VisitsKid(n, role, i) ==>
        BoundAlike(n.kids[i], KidRole(n, role, i), KidScope(n, role, scope, i), DecidedScope(n, role, foretold, decide, i), decide))
      && FieldsBoundAlike(n, role, scope, foretold, decide, i + 1)
  {
    hide BoundAlike, KidRole, KidScope, DecidedScope, VisitsKid;
  }

  /** The node's own reference is emitted in both scopes or in neither. */
  lemma OwnAlike(n: Node, role: Role, scope: Scope, foretold: Scope)
    ensures Places(Emitted(n, role, foretold)) == Places(Emitted(n, role, scope)) <==> OwnBoundAlike(n, role, scope, foretold)
    ensures forall k :: 0 <= k < |Emitted(n, role, scope)| ==> Emitted(n, role, scope)[k].path == []
    ensures forall k :: 0 <= k < |Emitted(n, role, foretold)| ==> Emitted(n, role, foretold)[k].path == []
  {
    hide IsBound;
    var a, b := Emitted(n, role, foretold), Emitted(n, role, scope);
    assert |a| != |b| ==> Places(a) != Places(b);
    assert |a| == |b| ==> Places(a) == Places(b);
  }

  /**
   Where collecting succeeds so does rewriting, and it asks about exactly the references collected if and only if
   every mentioned table is bound in its foretold scope just when it is bound as written.
   */
  lemma AsksExactlyWhatIsCollected(root: Node, role: Role, entry: Scope, decide: Target -> Decision)
    requires Formed(root) && Walk(root, role, entry).Some?
    ensures Asked(root, role, entry, decide).Some?
    ensures Places(Asked(root, role, entry, decide).value) == Places(Walk(root, role, entry).value) <==>
      BoundAlike(root, role, entry, entry, decide)
  {
    AskedAlike(root, role, entry, entry, decide);
  }
}
