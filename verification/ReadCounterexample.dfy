/**
 Two statements a definition of whose WITH becomes a value alias. Rewriting the first does not ask what collecting
 reports; rewriting the second, whose WITH is recursive, asks everything and captures a name that is to be kept.
 */
module ReadCounterexample {
  import opened Common
  import opened ReadTree
  import opened ReadWalk
  import opened ReadRewrite
  import opened ReadDecided
  import opened ReadAgain
  import opened ReadResult
  import opened ReadCapture

  const QUALIFIED := Target("db", "t", "")
  const BARE := Target("", "x", "")

  /** `1 IN t`. */
  function ConstantIn(t: Target): Node
  {
    Node(In(Names(t)), [Leaf(Constant), Leaf(Name(false))], [], [])
  }

  /** `(1 IN db.t) AS x`, as a definition and as a WITH of its own. */
  function Definition(): Node
  {
    Node(Cte("x", false), [ConstantIn(QUALIFIED)], [], [])
  }

  function Definitions(recursive: bool): Node
  {
    Node(With(recursive), [Definition()], [], [])
  }

  /** `WITH (1 IN db.t) AS x SELECT 1 IN x`, parentheses aside, or the same WITH RECURSIVE. */
  function Statement(recursive: bool): Node
  {
    Node(Select({}, false), [Definitions(recursive), ConstantIn(BARE)], [], [])
  }

  /** The caller reads every table through remote(). */
  function AllRemote(t: Target): Decision
  {
    Remote
  }

  lemma ConstantInWalks(t: Target, scope: Scope, decide: Target -> Decision)
    requires t.table != ""
    ensures Walk(ConstantIn(t), Scalar, scope) ==
      Some(if OperandIsBound(t, scope) then [] else [Ref([], Infix, t, scope)])
    ensures Asked(ConstantIn(t), Scalar, scope, decide) == Walk(ConstantIn(t), Scalar, scope)
  {
    hide OperandIsBound;
    var n := ConstantIn(t);
    LeafIsEmpty(Constant, scope);
    assert Emitted(n, Scalar, scope) == if OperandIsBound(t, scope) then [] else [Ref([], Infix, t, scope)];
    var none: seq<Ref> := [];
    assert WalkFrom(n, Scalar, scope, 2) == Some(none);
    QuietField(n, Scalar, scope, 1);
    QuietField(n, Scalar, scope, 0);
    assert Emitted(n, Scalar, scope) + none == Emitted(n, Scalar, scope) && none + Emitted(n, Scalar, scope) == Emitted(n, Scalar, scope);
    assert n.unknown == [];
    forall i | 0 <= i < |n.kids|
      ensures PassedScope(n, Scalar, scope, decide, i) == KidScope(n, Scalar, scope, i)
    {
    }
    assert Asked(Leaf(Constant), Scalar, scope, decide) == Some(none);
    SameFields(n, Scalar, scope, decide, 0);
  }

  /** A WITH value that is a constant but for a table operand names a table; once that is a remote() call, it does not. */
  lemma RemoteMakesItAConstant(t: Target)
    requires t.table != ""
    ensures !IsNoTable(ConstantIn(t)) && IsNoTable(Apply(ConstantIn(t), Infix, t, Remote))
  {
    var n, out := ConstantIn(t), Apply(ConstantIn(t), Infix, t, Remote);
    NamingContains(n);
    var call := RemoteCall();
    assert forall i :: 0 <= i < |Children(call)| ==> Children(call)[i] == Leaf(Constant);
    assert Children(Leaf(Constant)) == [];
    assert !ContainsName(call);
    assert Children(out) == [Leaf(Constant), call];
  }

  // ---------------------------------------------------------------------------------------
  // Collecting

  /** A node with one field that emits nothing itself walks as that field does. */
  lemma OneField(n: Node, role: Role, scope: Scope)
    requires |n.kids| == 1 && n.unknown == [] && ModeOf(n, role).Visit? && Mention(n, role).None? && VisitsKid(n, role, 0)
    requires Walk(n.kids[0], KidRole(n, role, 0), KidScope(n, role, scope, 0)).Some?
    ensures Walk(n, role, scope).Some?
    ensures Targets(Walk(n, role, scope).value) == Targets(Walk(n.kids[0], KidRole(n, role, 0), KidScope(n, role, scope, 0)).value)
  {
    hide KidScope, KidRole, Mention, VisitsKid;
    var none: seq<Ref> := [];
    var kid := Walk(n.kids[0], KidRole(n, role, 0), KidScope(n, role, scope, 0)).value;
    assert Emitted(n, role, scope) == none;
    assert WalkFrom(n, role, scope, 1) == Some(none);
    assert WalkFrom(n, role, scope, 0) == Some(none + Under(0, kid) + none);
  }

  /** The second of two fields adds its references to those of the first. */
  lemma TwoFields(n: Node, scope: Scope)
    requires n.kind.Select? && |n.kids| == 2 && n.unknown == []
    requires Walk(n.kids[0], Bindings, KidScope(n, Scalar, scope, 0)).Some? && Walk(n.kids[1], Scalar, KidScope(n, Scalar, scope, 1)).Some?
    ensures Walk(n, Scalar, scope).Some?
    ensures Targets(Walk(n, Scalar, scope).value) ==
      Targets(Walk(n.kids[0], Bindings, KidScope(n, Scalar, scope, 0)).value) + Targets(Walk(n.kids[1], Scalar, KidScope(n, Scalar, scope, 1)).value)
  {
    hide KidScope, Targets, ContainsRead, AnyRead, KidRole, VisitsKid, Under, WalkFrom;
    NothingUnknown(n);
    TwoRoles(n);
    var none: seq<Ref> := [];
    var a := Walk(n.kids[0], Bindings, KidScope(n, Scalar, scope, 0)).value;
    var b := Walk(n.kids[1], Scalar, KidScope(n, Scalar, scope, 1)).value;
    assert Emitted(n, Scalar, scope) == none;
    LastWalk(n, Scalar, scope);
    assert WalkFrom(n, Scalar, scope, 2) == Some(none);
    WalkedStep(n, scope, 1);
    WalkedStep(n, scope, 0);
    assert WalkFrom(n, Scalar, scope, 0) == Some(none + Under(0, a) + (none + Under(1, b) + none));
    UnderTargets(a, b);
  }

  lemma NothingUnknown(n: Node)
    requires n.unknown == []
    ensures !AnyRead(n, n.unknown)
  {
  }

  lemma WalkedStep(n: Node, scope: Scope, i: nat)
    requires i < |n.kids| && VisitsKid(n, Scalar, i) && Emitted(n, Scalar, scope) == []
    requires Walk(n.kids[i], KidRole(n, Scalar, i), KidScope(n, Scalar, scope, i)).Some? && WalkFrom(n, Scalar, scope, i + 1).Some?
    ensures WalkFrom(n, Scalar, scope, i) ==
      Some([] + Under(i, Walk(n.kids[i], KidRole(n, Scalar, i), KidScope(n, Scalar, scope, i)).value) + WalkFrom(n, Scalar, scope, i + 1).value)
  {
    hide KidScope, KidRole, VisitsKid, Walk, Under, Emitted, EmitsAt;
  }

  lemma UnderTargets(a: seq<Ref>, b: seq<Ref>)
    ensures var none: seq<Ref> := []; Targets(none + Under(0, a) + (none + Under(1, b) + none)) == Targets(a) + Targets(b)
  {
  }

  lemma TwoRoles(n: Node)
    requires n.kind.Select? && |n.kids| == 2
    ensures VisitsKid(n, Scalar, 0) && VisitsKid(n, Scalar, 1) && KidRole(n, Scalar, 0) == Bindings && KidRole(n, Scalar, 1) == Scalar
  {
  }

  /** The written value names a table, so x is not bound. */
  lemma NothingDeclared(recursive: bool)
    ensures DeclareFirst(NO_SCOPE, Definitions(recursive).kids, 1) == NO_SCOPE == AfterWith(NO_SCOPE, Definitions(recursive))
  {
    hide IsNoTable, ContainsName;
    RemoteMakesItAConstant(QUALIFIED);
    assert !IsReadQuery(ConstantIn(QUALIFIED));
    assert DeclareFirst(NO_SCOPE, Definitions(recursive).kids, 0) == NO_SCOPE;
    assert NO_SCOPE.ctes - {"x"} == {} && NO_SCOPE.aliases - {"x"} == {};
    assert Declare(NO_SCOPE, Definition()) == NO_SCOPE;
    assert DeclareFirst(NO_SCOPE, Definitions(recursive).kids, 1) == Declare(NO_SCOPE, Definition());
  }

  lemma DefinitionsWalk(recursive: bool)
    ensures Walk(Definitions(recursive), Bindings, NO_SCOPE).Some?
    ensures Targets(Walk(Definitions(recursive), Bindings, NO_SCOPE).value) == [QUALIFIED]
  {
    hide Walk, ContainsRead, ConstantIn, IsHandled, DeclareFirst, KidScope, Targets;
    ConstantInWalks(QUALIFIED, NO_SCOPE, AllRemote);
    assert !OperandIsBound(QUALIFIED, NO_SCOPE);
    OneTarget(Ref([], Infix, QUALIFIED, NO_SCOPE));
    DefinitionScopes(recursive);
    OneField(Definition(), Binding, NO_SCOPE);
    OneField(Definitions(recursive), Bindings, NO_SCOPE);
  }

  lemma OneTarget(ref: Ref)
    ensures Targets([ref]) == [ref.target]
  {
  }

  lemma DefinitionScopes(recursive: bool)
    ensures KidScope(Definition(), Binding, NO_SCOPE, 0) == NO_SCOPE == KidScope(Definitions(recursive), Bindings, NO_SCOPE, 0)
  {
    hide Declare, IsHandled;
    NothingDeclared(recursive);
  }

  lemma StatementCollects(recursive: bool)
    ensures Collect(Statement(recursive)) == Some([QUALIFIED, BARE])
  {
    hide Walk, ContainsRead, AfterWith;
    DefinitionsWalk(recursive);
    NothingDeclared(recursive);
    var n := Statement(recursive);
    assert KidScope(n, Scalar, NO_SCOPE, 0) == NO_SCOPE;
    assert KidScope(n, Scalar, NO_SCOPE, 1) == NO_SCOPE;
    ConstantInWalks(BARE, NO_SCOPE, AllRemote);
    TwoFields(n, NO_SCOPE);
    assert !OperandIsBound(BARE, NO_SCOPE);
    assert Targets(Walk(n, Scalar, NO_SCOPE).value) == [QUALIFIED] + [BARE] == [QUALIFIED, BARE];
  }

  // ---------------------------------------------------------------------------------------
  // Rewriting

  lemma OneFieldAsked(n: Node, role: Role, scope: Scope)
    requires |n.kids| == 1 && n.unknown == [] && ModeOf(n, role).Visit? && Mention(n, role).None? && VisitsKid(n, role, 0)
    requires Asked(n.kids[0], KidRole(n, role, 0), PassedScope(n, role, scope, AllRemote, 0), AllRemote).Some?
    ensures Asked(n, role, scope, AllRemote).Some?
    ensures Targets(Asked(n, role, scope, AllRemote).value) ==
      Targets(Asked(n.kids[0], KidRole(n, role, 0), PassedScope(n, role, scope, AllRemote, 0), AllRemote).value)
  {
    hide KidScope, KidRole, Mention, VisitsKid, RewriteKids, Partly;
    var none: seq<Ref> := [];
    var kid := Asked(n.kids[0], KidRole(n, role, 0), PassedScope(n, role, scope, AllRemote, 0), AllRemote).value;
    assert Emitted(n, role, scope) == none;
    assert AskedFrom(n, role, scope, AllRemote, 1) == Some(none);
    assert AskedFrom(n, role, scope, AllRemote, 0) == Some(none + Under(0, kid) + none);
  }

  lemma TwoFieldsAsked(n: Node, scope: Scope)
    requires n.kind.Select? && |n.kids| == 2 && n.unknown == []
    requires Asked(n.kids[0], Bindings, PassedScope(n, Scalar, scope, AllRemote, 0), AllRemote).Some?
    requires Asked(n.kids[1], Scalar, PassedScope(n, Scalar, scope, AllRemote, 1), AllRemote) == Some([])
    ensures Asked(n, Scalar, scope, AllRemote).Some?
    ensures Targets(Asked(n, Scalar, scope, AllRemote).value) ==
      Targets(Asked(n.kids[0], Bindings, PassedScope(n, Scalar, scope, AllRemote, 0), AllRemote).value)
  {
    hide KidScope, RewriteKids, Partly, Targets;
    var none: seq<Ref> := [];
    var a := Asked(n.kids[0], Bindings, PassedScope(n, Scalar, scope, AllRemote, 0), AllRemote).value;
    assert Emitted(n, Scalar, scope) == none;
    assert Under(1, none) == none;
    assert AskedFrom(n, Scalar, scope, AllRemote, 2) == Some(none);
    assert AskedFrom(n, Scalar, scope, AllRemote, 1) == Some(none + none + none);
    assert none + none + none == none;
    assert AskedFrom(n, Scalar, scope, AllRemote, 0) == Some(none + Under(0, a) + none);
    assert Targets(none + Under(0, a) + none) == Targets(a);
  }

  lemma FirstScope(n: Node, role: Role)
    requires n.kids != [] && (n == Definitions(false) || n == Definition() || n == Statement(false))
    ensures PassedScope(n, role, NO_SCOPE, AllRemote, 0) == NO_SCOPE
  {
    hide IsNoTable, IsReadQuery;
    assert [] + n.kids[0..] == n.kids;
  }

  lemma DefinitionAsks()
    ensures Asked(Definition(), Binding, NO_SCOPE, AllRemote).Some?
    ensures Targets(Asked(Definition(), Binding, NO_SCOPE, AllRemote).value) == [QUALIFIED]
  {
    hide Asked, PassedScope, KidScope, Partly, RewriteKids, Rewrite, ContainsRead, ConstantIn, Walk;
    FirstScope(Definition(), Binding);
    ConstantInWalks(QUALIFIED, NO_SCOPE, AllRemote);
    assert !OperandIsBound(QUALIFIED, NO_SCOPE);
    OneFieldAsked(Definition(), Binding, NO_SCOPE);
  }

  lemma DefinitionsAsk()
    ensures Asked(Definitions(false), Bindings, NO_SCOPE, AllRemote).Some?
    ensures Targets(Asked(Definitions(false), Bindings, NO_SCOPE, AllRemote).value) == [QUALIFIED]
  {
    hide Asked, PassedScope, KidScope, Partly, RewriteKids, Rewrite, ContainsRead, ConstantIn, Walk;
    FirstScope(Definitions(false), Bindings);
    DefinitionAsks();
    OneFieldAsked(Definitions(false), Bindings, NO_SCOPE);
  }

  /** The rewritten value is a constant, so x is bound. */
  lemma NameDeclared()
    ensures AfterWith(NO_SCOPE, Rewrite(Definitions(false), Bindings, NO_SCOPE, AllRemote)).aliases == {"x"}
  {
    hide IsNoTable, ContainsName;
    RemoteMakesItAConstant(QUALIFIED);
    ValueRewritten(AllRemote);
    var with := Rewrite(Definitions(false), Bindings, NO_SCOPE, AllRemote);
    DefinitionsRewritten();
    assert DeclareFirst(NO_SCOPE, with.kids, 0) == NO_SCOPE;
    assert !IsReadQuery(Apply(ConstantIn(QUALIFIED), Infix, QUALIFIED, Remote));
  }

  lemma ValueRewritten(decide: Target -> Decision)
    requires decide(QUALIFIED).Remote?
    ensures Rewrite(ConstantIn(QUALIFIED), Scalar, NO_SCOPE, decide) == Apply(ConstantIn(QUALIFIED), Infix, QUALIFIED, Remote)
  {
    hide ContainsRead;
    var n := ConstantIn(QUALIFIED);
    KidRewritten(n, Scalar, NO_SCOPE, decide, 2, 0);
    KidRewritten(n, Scalar, NO_SCOPE, decide, 2, 1);
    assert Rewrite(Leaf(Constant), Scalar, PassedScope(n, Scalar, NO_SCOPE, decide, 0), decide) == Leaf(Constant);
    assert RewriteKids(n, Scalar, NO_SCOPE, decide, 2) == n.kids;
  }

  /** A node with one field that asks nothing itself is rewritten in that field. */
  lemma OneFieldRewritten(n: Node, role: Role)
    requires n == Definition() || n == Definitions(false)
    requires ModeOf(n, role).Visit?
    ensures Rewrite(n, role, NO_SCOPE, AllRemote) == Node(n.kind, [Rewrite(n.kids[0], KidRole(n, role, 0), NO_SCOPE, AllRemote)], [], [])
  {
    hide PassedScope, ContainsRead, AnyRead, ConstantIn, RewriteKids, KidRole, Rewrite, KidScope;
    FirstScope(n, role);
    KidRewritten(n, role, NO_SCOPE, AllRemote, 1, 0);
    assert RewriteKids(n, role, NO_SCOPE, AllRemote, 1) == [Rewrite(n.kids[0], KidRole(n, role, 0), NO_SCOPE, AllRemote)];
    FieldsAreAll(n, role);
  }

  /** A definition or a WITH asks nothing itself. */
  lemma FieldsAreAll(n: Node, role: Role)
    requires ModeOf(n, role).Visit? && (n.kind.With? || n.kind.Cte?)
    ensures Rewrite(n, role, NO_SCOPE, AllRemote) == FieldsOnly(n, role, NO_SCOPE, AllRemote)
  {
    hide RewriteKids, ContainsRead, AnyRead;
  }

  lemma DefinitionsRewritten()
    ensures Rewrite(Definitions(false), Bindings, NO_SCOPE, AllRemote) ==
      Node(With(false), [Node(Cte("x", false), [Rewrite(ConstantIn(QUALIFIED), Scalar, NO_SCOPE, AllRemote)], [], [])], [], [])
  {
    hide Rewrite, ConstantIn;
    OneFieldRewritten(Definitions(false), Bindings);
    OneFieldRewritten(Definition(), Binding);
  }

  /** The definition is one that becomes an alias once db.t is read through remote(). */
  lemma ValueBecomesAlias(decide: Target -> Decision)
    requires decide(QUALIFIED).Remote?
    ensures BecomesAlias(Definition(), NO_SCOPE, NO_SCOPE, decide)
  {
    hide IsNoTable, ContainsName, NameStays, Rewrite, ContainsRead, AnyRead;
    var value := ConstantIn(QUALIFIED);
    assert Formed(value) && !value.kind.Paren? && Apply(value, Infix, QUALIFIED, Remote).kind == In(Value);
    RemoteMakesItAConstant(QUALIFIED);
    ValueRewritten(decide);
    ValueClassified(value, NO_SCOPE, decide);
  }

  /** So the statement is not settled. */
  lemma DefinitionBecomesAlias()
    ensures BecomesAlias(Definition(), NO_SCOPE, NO_SCOPE, AllRemote)
    ensures !Settled(Statement(false), Scalar, NO_SCOPE, AllRemote)
  {
    hide Settled, BecomesAlias;
    ValueBecomesAlias(AllRemote);
    StatementUnsettled();
  }

  lemma StatementUnsettled()
    requires BecomesAlias(Definition(), NO_SCOPE, NO_SCOPE, AllRemote)
    ensures !Settled(Statement(false), Scalar, NO_SCOPE, AllRemote)
  {
    hide BecomesAlias;
    assert QueryScope(NO_SCOPE, false) == NO_SCOPE;
    assert Definitions(false).kids[0] == Definition() && DeclareFirst(NO_SCOPE, Definitions(false).kids, 0) == NO_SCOPE;
    assert KidScope(Definitions(false), Bindings, NO_SCOPE, 0) == NO_SCOPE;
    assert !KeepsBindings(Definitions(false), NO_SCOPE, AllRemote);
    assert !OwnWithKept(Statement(false), NO_SCOPE, AllRemote);
  }

  /**
   Collecting reports x: a WITH value that names a table binds nothing. Rewriting reads the value through remote()
   before it declares x, finds a constant, binds x, and never asks about `1 IN x`: the operand stays as written.
   */
  lemma RemoteOperandHidesAReference()
    ensures Collect(Statement(false)) == Some([QUALIFIED, BARE])
    ensures Asked(Statement(false), Scalar, NO_SCOPE, AllRemote).Some?
    ensures Targets(Asked(Statement(false), Scalar, NO_SCOPE, AllRemote).value) == [QUALIFIED]
  {
    hide Asked, AfterWith, Rewrite;
    StatementCollects(false);
    DefinitionsAsk();
    NameDeclared();
    var n := Statement(false);
    FirstScope(n, Scalar);
    KidRewritten(n, Scalar, NO_SCOPE, AllRemote, 1, 0);
    var scope := PassedScope(n, Scalar, NO_SCOPE, AllRemote, 1);
    assert scope.aliases == {"x"};
    ConstantInWalks(BARE, scope, AllRemote);
    TwoFieldsAsked(n, NO_SCOPE);
  }

  // ---------------------------------------------------------------------------------------
  // WITH RECURSIVE

  /** db.t is read through remote() and every other reference is kept. */
  function KeepOthers(t: Target): Decision
  {
    if t == QUALIFIED then Remote else Skip
  }

  lemma ConstantInSettled(t: Target, scope: Scope)
    ensures Formed(ConstantIn(t)) && Settled(ConstantIn(t), Scalar, scope, KeepOthers)
  {
    hide KidScope, AnyRead, ContainsRead;
    var n := ConstantIn(t);
    assert Formed(Leaf(Constant)) && Formed(Leaf(Name(false)));
    assert forall i :: 0 <= i < |n.kids| ==> Formed(n.kids[i]);
    assert OwnWithKept(n, scope, KeepOthers);
    assert forall s :: Settled(Leaf(Constant), Scalar, s, KeepOthers);
    assert forall i :: 0 <= i < |n.kids| && VisitsKid(n, Scalar, i) ==> i == 0 && KidRole(n, Scalar, i) == Scalar;
  }

  /** A recursive WITH declares its names before rewriting a value, so it is settled. */
  lemma RecursiveSettled()
    ensures Formed(Statement(true)) && Settled(Statement(true), Scalar, NO_SCOPE, KeepOthers)
  {
    hide KidScope, ConstantIn, KeepsBindings, ContainsRead, AnyRead;
    var d, w, n := Definition(), Definitions(true), Statement(true);
    forall t, scope
      ensures Formed(ConstantIn(t)) && Settled(ConstantIn(t), Scalar, scope, KeepOthers)
    {
      ConstantInSettled(t, scope);
    }
    ConstantInSettled(QUALIFIED, NO_SCOPE);
    ConstantInSettled(BARE, NO_SCOPE);
    assert Formed(d) by { assert d.kids == [ConstantIn(QUALIFIED)]; }
    assert Formed(w) by { assert w.kids == [d]; }
    assert Formed(n) by { assert n.kids == [w, ConstantIn(BARE)]; }
    assert forall scope :: Settled(d, Binding, scope, KeepOthers);
    assert forall scope :: Settled(w, Bindings, scope, KeepOthers);
    TwoRoles(n);
  }

  /** A node with nothing found in its own place or below its fields. */
  lemma {:induction false} NothingBelow(n: Node, role: Role, scope: Scope, again: Scope, decide: Target -> Decision, i: nat)
    requires i <= |n.kids| && FoundAll(EmittedAgain(n, role, scope, again), decide) == []
    requires forall k :: 0 <= k < |n.kids| ==> FoundAll(FieldAgain(n, role, scope, again, decide, k), decide) == []
    ensures FoundAll(AgainFrom(n, role, scope, again, decide, i), decide) == []
    decreases |n.kids| - i
  {
    hide AgainFrom, FieldAgain, Found, FoundAll, EmittedAgain, EmitsAt, Under;
    NothingFound(decide);
    if i < |n.kids| {
      FromStep(n, role, scope, again, decide, i);
      NothingBelow(n, role, scope, again, decide, i + 1);
      var own, kid := OwnAgainAt(n, role, scope, again, i), FieldAgain(n, role, scope, again, decide, i);
      FoundConcat(own + Under(i, kid), AgainFrom(n, role, scope, again, decide, i + 1), decide);
      FoundConcat(own, Under(i, kid), decide);
      FoundUnder(i, kid, decide);
    } else {
      LastFrom(n, role, scope, again, decide);
    }
  }

  /** Nothing is found of `1 IN db.t`, read through remote(), nor of `1 IN x` where x is bound. */
  lemma ConstantInLeft(t: Target, scope: Scope, again: Scope)
    requires t == QUALIFIED || (t == BARE && OperandIsBound(t, again))
    ensures FoundAll(Again(ConstantIn(t), Scalar, scope, again, KeepOthers), KeepOthers) == []
  {
    hide OperandIsBound, DecidedScope, AgainScope, AgainFrom, ContainsRead;
    var n := ConstantIn(t);
    NothingFound(KeepOthers);
    FoundOne(Ref([], Infix, t, again), KeepOthers);
    assert forall s, r :: Again(Leaf(Constant), Scalar, s, r, KeepOthers) == [];
    NothingBelow(n, Scalar, scope, again, KeepOthers, 0);
  }

  /** In a second walk the recursive definition, now a constant, binds x. */
  lemma BoundAgain()
    ensures OperandIsBound(BARE, AgainScope(Statement(true), Scalar, NO_SCOPE, NO_SCOPE, KeepOthers, 1))
  {
    hide BecomesAlias, DeclareFirst, Declare;
    var w := Definitions(true);
    assert QueryScope(NO_SCOPE, false) == NO_SCOPE;
    NothingDeclared(true);
    assert DecidedScope(w, Bindings, NO_SCOPE, KeepOthers, 0) == NO_SCOPE;
    ValueBecomesAlias(KeepOthers);
    assert AgainFirst(NO_SCOPE, w, NO_SCOPE, KeepOthers, 0) == NO_SCOPE;
    assert w.kids[0] == Definition();
    assert "x" in AgainFirst(NO_SCOPE, w, NO_SCOPE, KeepOthers, 1).aliases;
  }

  lemma DefinitionsLeft(scope: Scope, again: Scope)
    ensures FoundAll(Again(Definitions(true), Bindings, scope, again, KeepOthers), KeepOthers) == []
  {
    hide ConstantIn, DecidedScope, AgainScope, AgainFrom, ContainsRead;
    var d, w := Definition(), Definitions(true);
    NothingFound(KeepOthers);
    forall s, r
      ensures FoundAll(Again(d, Binding, s, r, KeepOthers), KeepOthers) == []
    {
      ConstantInLeft(QUALIFIED, DecidedScope(d, Binding, s, KeepOthers, 0), AgainScope(d, Binding, r, s, KeepOthers, 0));
      NothingBelow(d, Binding, s, r, KeepOthers, 0);
    }
    NothingBelow(w, Bindings, scope, again, KeepOthers, 0);
  }

  lemma StatementLeft()
    ensures FoundAll(Again(Statement(true), Scalar, NO_SCOPE, NO_SCOPE, KeepOthers), KeepOthers) == []
  {
    hide ConstantIn, DecidedScope, AgainScope, AgainFrom, ContainsRead, Again, FoundAll, OperandIsBound;
    var n := Statement(true);
    TwoRoles(n);
    NothingFound(KeepOthers);
    BoundAgain();
    DefinitionsLeft(DecidedScope(n, Scalar, NO_SCOPE, KeepOthers, 0), AgainScope(n, Scalar, NO_SCOPE, NO_SCOPE, KeepOthers, 0));
    ConstantInLeft(BARE, DecidedScope(n, Scalar, NO_SCOPE, KeepOthers, 1), AgainScope(n, Scalar, NO_SCOPE, NO_SCOPE, KeepOthers, 1));
    assert EmittedAgain(n, Scalar, NO_SCOPE, NO_SCOPE) == [];
    NothingBelow(n, Scalar, NO_SCOPE, NO_SCOPE, KeepOthers, 0);
    assert Again(n, Scalar, NO_SCOPE, NO_SCOPE, KeepOthers) == AgainFrom(n, Scalar, NO_SCOPE, NO_SCOPE, KeepOthers, 0) by { VisitedAgain(n); }
  }

  lemma VisitedAgain(n: Node)
    requires ModeOf(n, Scalar).Visit?
    ensures Again(n, Scalar, NO_SCOPE, NO_SCOPE, KeepOthers) == AgainFrom(n, Scalar, NO_SCOPE, NO_SCOPE, KeepOthers, 0)
  {
  }

  /**
   Rewriting asks about both references, reads db.t through remote() and keeps x. But a second walk declares the
   recursive definition from its new value, a constant, so x is captured: nothing is collected any more.
   */
  lemma RecursiveCapturesKeptName()
    ensures Collect(Statement(true)) == Some([QUALIFIED, BARE])
    ensures Asked(Statement(true), Scalar, NO_SCOPE, KeepOthers) == Walk(Statement(true), Scalar, NO_SCOPE)
    ensures Collect(Rewrite(Statement(true), Scalar, NO_SCOPE, KeepOthers)) == Some([])
    ensures !DecisionsHold(Statement(true), Scalar, NO_SCOPE, NO_SCOPE, NO_SCOPE, KeepOthers)
  {
    hide Walk, Again, Asked, Rewrite, Settled, Found, FoundAll, DecisionsHold, Formed;
    var n := Statement(true);
    StatementCollects(true);
    RecursiveSettled();
    AsksWhatIsCollected(n, Scalar, NO_SCOPE, KeepOthers);
    StatementLeft();
    assert BodiesWalk(Again(n, Scalar, NO_SCOPE, NO_SCOPE, KeepOthers), KeepOthers);
    CollectAfterRewrite(n, Scalar, NO_SCOPE, KeepOthers);
    var refs, out := Walk(n, Scalar, NO_SCOPE).value, Walk(Rewrite(n, Scalar, NO_SCOPE, KeepOthers), Scalar, NO_SCOPE).value;
    assert |Places(out)| == 0 && Targets(out) == [];
    assert Targets(refs)[0] == QUALIFIED && Targets(refs)[1] == BARE;
    assert DecidedPlaces(refs, KeepOthers) != [];
    RewriteIsCaptureFree(n, Scalar, NO_SCOPE, KeepOthers);
  }
}
