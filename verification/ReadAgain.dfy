/**
 Walking a rewritten statement again. A second walk declares every definition, recursive ones included, from its
 rewritten value, so its scopes can differ both from those the statement was rewritten in and from those it has as
 written. They are foretold from the statement as written and the decisions, and from one to the next names are only
 added.
 */
module ReadAgain {
  import opened ReadTree
  import opened ReadWalk
  import opened ReadRewrite
  import opened ReadDecided

  // ---------------------------------------------------------------------------------------
  // Foretold scopes

  /** The first m definitions of a WITH that was rewritten in scope, declared at again. */
  function AgainFirst(again: Scope, with: Node, scope: Scope, decide: Target -> Decision, m: nat): Scope
    requires m <= |with.kids|
  {
    if m == 0 then again
    else DeclareRewritten(AgainFirst(again, with, scope, decide, m - 1), with.kids[m - 1], DecidedScope(with, Bindings, scope, decide, m - 1), decide)
  }

  function AfterAgain(again: Scope, with: Node, scope: Scope, decide: Target -> Decision): Scope
  {
    if with.kind.With? then AgainFirst(again, with, scope, decide, |with.kids|) else again
  }

  /** The scope field i of the rewritten node is walked in, when the node is walked in again and was rewritten in scope. */
  function AgainScope(n: Node, role: Role, again: Scope, scope: Scope, decide: Target -> Decision, i: nat): Scope
    requires i < |n.kids|
  {
    match n.kind
    case Select(aliases, marked) =>
      if i == 0 then QueryScope(again, marked)
      else SelectScope(AfterAgain(QueryScope(again, marked), n.kids[0], QueryScope(scope, marked), decide), aliases)
    case SetOperation(marked) =>
      if i == 0 then QueryScope(again, marked)
      else AfterAgain(QueryScope(again, marked), n.kids[0], QueryScope(scope, marked), decide)
    case With(recursive) => AgainFirst(again, n, scope, decide, if recursive then |n.kids| else i)
    case _ => KidScope(n, role, again, i)
  }

  // ---------------------------------------------------------------------------------------
  // The rewritten node

  /** Field k of the rewritten node. */
  lemma FieldOf(n: Node, role: Role, scope: Scope, decide: Target -> Decision, k: nat)
    requires Formed(n) && k < |n.kids|
    ensures FieldsOnly(n, role, scope, decide).kids[k] ==
      if VisitsKid(n, role, k) then Rewrite(n.kids[k], KidRole(n, role, k), DecidedScope(n, role, scope, decide, k), decide) else n.kids[k]
  {
    hide Rewrite, KidScope, VisitsKid, KidRole, DecidedScope, RewriteKids, PassedScope;
    KidRewritten(n, role, scope, decide, |n.kids|, k);
    PassedIsForetold(n, role, scope, decide, k);
  }

  /** Definitions stay definitions, and nothing else becomes one. */
  lemma CtesStay(n: Node, role: Role, scope: Scope, decide: Target -> Decision, k: nat)
    requires Formed(n) && k < |n.kids| && n.kind.With?
    ensures FieldsOnly(n, role, scope, decide).kids[k].kind.Cte? == n.kids[k].kind.Cte?
  {
    hide Rewrite, RewriteKids, FieldsOnly, DecidedScope;
    FieldOf(n, role, scope, decide, k);
    if n.kids[k].kind.Cte? {
      KindKept(n.kids[k], KidRole(n, role, k), DecidedScope(n, role, scope, decide, k), decide);
    } else {
      NoDefinition(n.kids[k], DecidedScope(n, role, scope, decide, k), decide, scope);
    }
  }

  /** A handled node stays handled. */
  lemma HandledStays(n: Node, role: Role, scope: Scope, decide: Target -> Decision)
    requires Formed(n) && ModeOf(n, role).Visit?
    ensures IsHandled(n) ==> IsHandled(FieldsOnly(n, role, scope, decide))
    ensures !n.kind.Paren? || role.Scalar? ==> IsHandled(FieldsOnly(n, role, scope, decide)) == IsHandled(n)
  {
    hide Rewrite, DecidedScope, RewriteKids, ContainsRead, AnyRead;
    if (n.kind.Paren? || n.kind.Subquery?) && n.kids != [] {
      FieldOf(n, role, scope, decide, 0);
      assert VisitsKid(n, role, 0);
      if KidRole(n, role, 0).Scalar? {
        QueriesKept(n.kids[0], DecidedScope(n, role, scope, decide, 0), decide);
      }
    }
  }

  /** Apart from parentheses in a source, the rewritten node is walked as the written one was. */
  lemma WalkedAlike(n: Node, role: Role, scope: Scope, decide: Target -> Decision)
    requires Formed(n) && ModeOf(n, role).Visit?
    requires !(n.kind.Paren? && role.Source? && !IsHandled(n))
    ensures var out := FieldsOnly(n, role, scope, decide);
      && ModeOf(out, role).Visit? && Checks(out, role) == Checks(n, role)
      && |out.kids| == |n.kids| && EmitsAt(out) == EmitsAt(n) && Mention(out, role) == Mention(n, role)
      && forall k :: 0 <= k < |n.kids| ==>
        VisitsKid(out, role, k) == VisitsKid(n, role, k) && KidRole(out, role, k) == KidRole(n, role, k)
  {
    hide Rewrite, RewriteKids, ContainsRead, AnyRead, IsHandled;
    HandledStays(n, role, scope, decide);
    if n.kind.With? {
      forall k | 0 <= k < |n.kids|
        ensures FieldsOnly(n, role, scope, decide).kids[k].kind.Cte? == n.kids[k].kind.Cte?
      {
        CtesStay(n, role, scope, decide, k);
      }
    }
  }

  /** Rewritten definitions declare what was foretold. */
  lemma {:induction false} AgainDeclares(n: Node, role: Role, again: Scope, scope: Scope, decide: Target -> Decision, m: nat)
    requires n.kind.With? && Formed(n) && m <= |n.kids|
    ensures DeclareFirst(again, FieldsOnly(n, role, scope, decide).kids, m) == AgainFirst(again, n, scope, decide, m)
    decreases m
  {
    hide Declare, DeclareRewritten, Rewrite, RewriteKids, DecidedScope, FieldsOnly;
    assert |FieldsOnly(n, role, scope, decide).kids| == |n.kids| by { FieldsCount(n, role, scope, decide); }
    if m > 0 {
      var i := m - 1;
      var passed := DecidedScope(n, role, scope, decide, i);
      AgainDeclares(n, role, again, scope, decide, i);
      FieldOf(n, role, scope, decide, i);
      SameDecided(n, role, scope, decide, i);
      if n.kids[i].kind.Cte? {
        DefinitionForetold(n.kids[i], AgainFirst(again, n, scope, decide, i), passed, decide);
      } else {
        NoDefinition(n.kids[i], passed, decide, AgainFirst(again, n, scope, decide, i));
        OnlyDefinitions(AgainFirst(again, n, scope, decide, i), n.kids[i], passed, decide);
      }
    }
  }

  lemma FieldsCount(n: Node, role: Role, scope: Scope, decide: Target -> Decision)
    ensures |FieldsOnly(n, role, scope, decide).kids| == |n.kids|
  {
  }

  /** The role a WITH stands in does not matter to its definitions. */
  lemma SameDecided(n: Node, role: Role, scope: Scope, decide: Target -> Decision, i: nat)
    requires n.kind.With? && i < |n.kids|
    ensures DecidedScope(n, role, scope, decide, i) == DecidedScope(n, Bindings, scope, decide, i)
  {
    hide DecidedFirst, DeclareFirst;
  }

  /** The scope a field of the rewritten node is walked in is the foretold one. */
  lemma AgainIsForetold(n: Node, role: Role, again: Scope, scope: Scope, decide: Target -> Decision, i: nat)
    requires Formed(n) && ModeOf(n, role).Visit? && i < |n.kids| && |FieldsOnly(n, role, scope, decide).kids| == |n.kids|
    requires !(n.kind.Paren? && role.Source? && !IsHandled(n))
    ensures KidScope(FieldsOnly(n, role, scope, decide), role, again, i) == AgainScope(n, role, again, scope, decide, i)
  {
    hide Rewrite, Declare, DeclareFirst, AfterWith, AfterAgain, AgainFirst, IsHandled, RewriteKids, ContainsRead, AnyRead;
    HandledStays(n, role, scope, decide);
    if n.kind.With? {
      AgainDeclares(n, role, again, scope, decide, if n.kind.recursive then |n.kids| else i);
    } else if (n.kind.Select? || n.kind.SetOperation?) && i > 0 {
      WithAgain(n, role, again, scope, decide);
    }
  }

  /** The rewritten WITH of a query leaves the foretold scope. */
  lemma WithAgain(n: Node, role: Role, again: Scope, scope: Scope, decide: Target -> Decision)
    requires Formed(n) && (n.kind.Select? || n.kind.SetOperation?) && n.kids != []
    requires |FieldsOnly(n, role, scope, decide).kids| == |n.kids|
    ensures var base := QueryScope(again, n.kind.marked);
      AfterWith(base, FieldsOnly(n, role, scope, decide).kids[0]) == AfterAgain(base, n.kids[0], QueryScope(scope, n.kind.marked), decide)
  {
    hide Declare, RewriteKids, DeclareFirst, AgainFirst, QueryScope, ContainsRead, AnyRead, IsHandled;
    var w, base := n.kids[0], QueryScope(scope, n.kind.marked);
    FieldOf(n, role, scope, decide, 0);
    assert FieldsOnly(n, role, scope, decide).kids[0] == Rewrite(w, Bindings, base, decide);
    if w.kind.With? {
      assert Rewrite(w, Bindings, base, decide) == FieldsOnly(w, Bindings, base, decide);
      FieldsCount(w, Bindings, base, decide);
      AgainDeclares(w, Bindings, QueryScope(again, n.kind.marked), base, decide, |w.kids|);
    }
  }

  // ---------------------------------------------------------------------------------------
  // Names are only added

  /** Every name bound in a is bound in b, and the two differ in nothing else. */
  predicate Within(a: Scope, b: Scope)
  {
    a.ctes <= b.ctes && a.aliases <= b.aliases && a.projection == b.projection && a.stored == b.stored && a.unbound == b.unbound
  }

  lemma WithinBinds(a: Scope, b: Scope, site: Site, t: Target)
    requires Within(a, b)
    ensures IsBound(site, t, a) ==> IsBound(site, t, b)
  {
  }

  /** A definition, declared as written or as it is rewritten, in scopes one within the other. */
  lemma DeclareWithin(a: Scope, b: Scope, n: Node, passed: Scope, decide: Target -> Decision)
    requires Within(a, b)
    ensures Within(Declare(a, n), DeclareRewritten(b, n, passed, decide))
    ensures Within(DeclareRewritten(a, n, passed, decide), DeclareRewritten(b, n, passed, decide))
  {
    hide BecomesConstant, IsReadQuery, IsStoredViewLiteral, IsNoTable;
    if BecomesAlias(n, b, passed, decide) {
      ConstantIsNew(n.kids[0], passed, decide);
    }
  }

  lemma WrittenWithin(a: Scope, b: Scope, n: Node)
    requires Within(a, b)
    ensures Within(Declare(a, n), Declare(b, n))
  {
    hide IsReadQuery, IsStoredViewLiteral, IsNoTable;
  }

  /** Only a value that is no constant as written becomes one. */
  lemma ConstantIsNew(n: Node, scope: Scope, decide: Target -> Decision)
    requires BecomesConstant(n, scope, decide)
    ensures !IsNoTable(n) && !IsReadQuery(n)
  {
    hide BecomesConstant, IsNoTable, IsReadQuery;
    QueryIsNoTable(n, scope, decide);
  }

  lemma {:induction false} DeclaredWithin(a: Scope, b: Scope, kids: seq<Node>, m: nat)
    requires Within(a, b) && m <= |kids|
    ensures Within(DeclareFirst(a, kids, m), DeclareFirst(b, kids, m))
    decreases m
  {
    hide Declare, Within;
    if m > 0 {
      DeclaredWithin(a, b, kids, m - 1);
      WrittenWithin(DeclareFirst(a, kids, m - 1), DeclareFirst(b, kids, m - 1), kids[m - 1]);
    }
  }

  lemma {:induction false} DecidedFirstWithin(a: Scope, b: Scope, kids: seq<Node>, m: nat, decide: Target -> Decision)
    requires Within(a, b) && m <= |kids|
    ensures Within(DeclareFirst(a, kids, m), DecidedFirst(b, kids, m, decide))
    decreases m
  {
    hide Declare, DeclareRewritten, Within;
    if m > 0 {
      DecidedFirstWithin(a, b, kids, m - 1, decide);
      var at := DecidedFirst(b, kids, m - 1, decide);
      DeclareWithin(DeclareFirst(a, kids, m - 1), at, kids[m - 1], at, decide);
    }
  }

  /** The scope a field is rewritten in binds what the one it has as written binds. */
  lemma DecidedWithin(n: Node, role: Role, written: Scope, scope: Scope, decide: Target -> Decision, i: nat)
    requires Within(written, scope) && i < |n.kids|
    ensures Within(KidScope(n, role, written, i), DecidedScope(n, role, scope, decide, i))
  {
    hide IsHandled, DeclareFirst, DecidedFirst, AfterWith, AfterDecided;
    match n.kind
    case Select(_, marked) => AfterDecidedWithin(QueryScope(written, marked), QueryScope(scope, marked), n.kids[0], decide);
    case SetOperation(marked) => AfterDecidedWithin(QueryScope(written, marked), QueryScope(scope, marked), n.kids[0], decide);
    case With(recursive) =>
      if recursive {
        DeclaredWithin(written, scope, n.kids, |n.kids|);
      } else {
        DecidedFirstWithin(written, scope, n.kids, i, decide);
      }
    case _ =>
  }

  lemma AfterDecidedWithin(a: Scope, b: Scope, with: Node, decide: Target -> Decision)
    requires Within(a, b)
    ensures Within(AfterWith(a, with), AfterDecided(b, with, decide))
  {
    hide DeclareFirst, DecidedFirst, Within;
    if with.kind.With? {
      DeclaredWithin(a, b, with.kids, |with.kids|);
      DecidedFirstWithin(a, b, with.kids, |with.kids|, decide);
    }
  }

  lemma {:induction false} AgainFirstWithin(a: Scope, b: Scope, with: Node, decide: Target -> Decision, m: nat)
    requires Within(a, b) && m <= |with.kids| && with.kind.With?
    ensures Within(if with.kind.recursive then DeclareFirst(a, with.kids, m) else DecidedFirst(a, with.kids, m, decide), AgainFirst(b, with, a, decide, m))
    decreases m
  {
    hide Declare, DeclareRewritten, Within;
    if m > 0 {
      AgainFirstWithin(a, b, with, decide, m - 1);
      var before := if with.kind.recursive then DeclareFirst(a, with.kids, m - 1) else DecidedFirst(a, with.kids, m - 1, decide);
      DeclareWithin(before, AgainFirst(b, with, a, decide, m - 1), with.kids[m - 1], DecidedScope(with, Bindings, a, decide, m - 1), decide);
    }
  }

  lemma AfterAgainWithin(a: Scope, b: Scope, with: Node, decide: Target -> Decision)
    requires Within(a, b)
    ensures Within(AfterDecided(a, with, decide), AfterAgain(b, with, a, decide))
  {
    hide DeclareFirst, DecidedFirst, AgainFirst, Within;
    if with.kind.With? {
      AgainFirstWithin(a, b, with, decide, |with.kids|);
    }
  }

  /** The scope of a second walk binds what the one a field was rewritten in binds. */
  lemma AgainWithin(n: Node, role: Role, scope: Scope, again: Scope, decide: Target -> Decision, i: nat)
    requires Within(scope, again) && i < |n.kids|
    ensures Within(DecidedScope(n, role, scope, decide, i), AgainScope(n, role, again, scope, decide, i))
  {
    hide IsHandled, DeclareFirst, DecidedFirst, AgainFirst, AfterDecided, AfterAgain;
    match n.kind
    case Select(_, marked) => AfterAgainWithin(QueryScope(scope, marked), QueryScope(again, marked), n.kids[0], decide);
    case SetOperation(marked) => AfterAgainWithin(QueryScope(scope, marked), QueryScope(again, marked), n.kids[0], decide);
    case With(recursive) => AgainFirstWithin(scope, again, n, decide, if recursive then |n.kids| else i);
    case _ =>
  }

  // ---------------------------------------------------------------------------------------
  // What was asked about, in the scopes of the second walk

  /** The node's own reference, if decide was asked about it. */
  function EmittedAgain(n: Node, role: Role, scope: Scope, again: Scope): seq<Ref>
  {
    match Mention(n, role)
    case None => []
    case Some((site, t)) => if IsBound(site, t, scope) then [] else [Ref([], site, t, again)]
  }

  /** The references decide was asked about, each with the scope of its place in a second walk. */
  function Again(n: Node, role: Role, scope: Scope, again: Scope, decide: Target -> Decision): seq<Ref>
    decreases n, |n.kids| + 1
  {
    if ModeOf(n, role).Visit? then AgainFrom(n, role, scope, again, decide, 0) else []
  }

  function AgainFrom(n: Node, role: Role, scope: Scope, again: Scope, decide: Target -> Decision, i: nat): seq<Ref>
    requires i <= |n.kids|
    decreases n, |n.kids| - i
  {
    var here := if i == EmitsAt(n) then EmittedAgain(n, role, scope, again) else [];
    if i == |n.kids| then here
    else
      var kid :=
        if VisitsKid(n, role, i) then
          Again(n.kids[i], KidRole(n, role, i), DecidedScope(n, role, scope, decide, i), AgainScope(n, role, again, scope, decide, i), decide)
        else [];
      here + Under(i, kid) + AgainFrom(n, role, scope, again, decide, i + 1)
  }

  lemma OwnAgain(n: Node, role: Role, scope: Scope, again: Scope)
    ensures Places(EmittedAgain(n, role, scope, again)) == Places(Emitted(n, role, scope))
  {
    hide IsBound, Mention;
  }

  /** Apart from the scopes these are the questions rewriting asks. */
  lemma {:induction false} AgainIsAsked(n: Node, role: Role, scope: Scope, again: Scope, decide: Target -> Decision)
    requires Formed(n) && Asked(n, role, scope, decide).Some?
    ensures Places(Again(n, role, scope, again, decide)) == Places(Asked(n, role, scope, decide).value)
    decreases n, |n.kids| + 2
  {
    hide ContainsRead, AnyRead, Places;
    NoPlaces();
    if ModeOf(n, role).Visit? {
      FieldsAgain(n, role, scope, again, decide, 0);
    }
  }

  lemma NoPlaces()
    ensures Places([]) == []
  {
  }

  lemma {:induction false} FieldsAgain(n: Node, role: Role, scope: Scope, again: Scope, decide: Target -> Decision, i: nat)
    requires Formed(n) && i <= |n.kids| && AskedFrom(n, role, scope, decide, i).Some?
    ensures Places(AgainFrom(n, role, scope, again, decide, i)) == Places(AskedFrom(n, role, scope, decide, i).value)
    decreases n, |n.kids| - i
  {
    hide Asked, Again, DecidedScope, AgainScope, PassedScope, KidScope, KidRole, VisitsKid, Places, Emitted, EmittedAgain, EmitsAt, Partly, RewriteKids, Under;
    OwnAgain(n, role, scope, again);
    if i < |n.kids| {
      PassedIsForetold(n, role, scope, decide, i);
      var here, own := if i == EmitsAt(n) then EmittedAgain(n, role, scope, again) else [], OwnAt(n, role, scope, i);
      AskedStep(n, role, scope, decide, i);
      var kid := FieldAsked(n, role, scope, decide, i).value;
      var kid' := if VisitsKid(n, role, i) then
          Again(n.kids[i], KidRole(n, role, i), DecidedScope(n, role, scope, decide, i), AgainScope(n, role, again, scope, decide, i), decide)
        else [];
      if VisitsKid(n, role, i) {
        AgainIsAsked(n.kids[i], KidRole(n, role, i), DecidedScope(n, role, scope, decide, i), AgainScope(n, role, again, scope, decide, i), decide);
      }
      FieldsAgain(n, role, scope, again, decide, i + 1);
      PlacesConcat(here + Under(i, kid'), AgainFrom(n, role, scope, again, decide, i + 1));
      PlacesConcat(here, Under(i, kid'));
      PlacesConcat(own + Under(i, kid), AskedFrom(n, role, scope, decide, i + 1).value);
      PlacesConcat(own, Under(i, kid));
      PlacesUnder(i, kid);
      PlacesUnder(i, kid');
      NoPlaces();
    }
  }
}
