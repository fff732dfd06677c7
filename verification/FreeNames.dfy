/**
 What the walk emits, said without a walk: the table references a statement leaves free. A place is a path
 of field indexes from the root; the declarations passed on the way decide what a name means there.
 */
module FreeNames {
  import opened Common
  import opened ReadTree
  import opened ReadWalk

  // ---------------------------------------------------------------------------------------
  // Declarations

  /** What a WITH definition makes of its name. */
  datatype Meaning = AQuery | AValue | NoBinding

  /** What a path passes: a definition, a SELECT's projection, the start of a query, or of an independent view body. */
  datatype Decl =
    | Defines(name: string, meaning: Meaning)
    | Projects(names: set<string>)
    | EntersQuery
    | EntersViewBody

  /** A CTE of that name was declared, and not since undone by a definition that binds nothing or left behind by a view body. */
  ghost predicate IsCte(ds: seq<Decl>, name: string)
  {
    exists i :: 0 <= i < |ds| && ds[i] == Defines(name, AQuery) && Lasts(ds, i, name)
  }

  ghost predicate IsValueAlias(ds: seq<Decl>, name: string)
  {
    exists i :: 0 <= i < |ds| && ds[i] == Defines(name, AValue) && Lasts(ds, i, name)
  }

  predicate Lasts(ds: seq<Decl>, i: nat, name: string)
  {
    forall k :: i < k < |ds| ==> ds[k] != EntersViewBody && ds[k] != Defines(name, NoBinding)
  }

  /** The innermost query's own projection has that alias. */
  ghost predicate IsProjected(ds: seq<Decl>, name: string)
  {
    exists i :: 0 <= i < |ds| && ds[i].Projects? && name in ds[i].names &&
      forall k :: i < k < |ds| ==> ds[k].Defines?
  }

  /** A bare name in FROM is bound by a CTE; as an IN operand by a CTE, a WITH value or a projection alias. */
  ghost predicate Binds(ds: seq<Decl>, site: Site, t: Target)
  {
    t.db == "" && (IsCte(ds, t.table) || (!site.From? && (IsValueAlias(ds, t.table) || IsProjected(ds, t.table))))
  }

  // ---------------------------------------------------------------------------------------
  // Declarations along a path

  /** Whether a place is inside a stored view body, and whether names bind there at all. */
  datatype State = State(stored: bool, unbound: bool)

  function Entering(st: State, marked: bool): State
  {
    st.(stored := st.stored || marked)
  }

  function KidState(n: Node, role: Role, st: State): State
  {
    match n.kind
    case Select(_, marked) => Entering(st, marked)
    case SetOperation(marked) => Entering(st, marked)
    case Subquery(_, marked) => Entering(st, marked)
    case Paren(marked) => if IsHandled(n) then Entering(st, marked) else st
    case Function(queryBodied, _, _, _) => if role.Source? && queryBodied then State(st.stored, false) else st
    case _ => st
  }

  /** The declaration a definition makes; none where names do not bind. */
  function Definition(n: Node, st: State): seq<Decl>
  {
    if !n.kind.Cte? || n.kids == [] || n.kind.name == "" || st.unbound then []
    else
      var value := n.kids[0];
      var meaning :=
        if n.kind.aliasFirst && IsReadQuery(value) then AQuery
        else if (if st.stored then IsStoredViewLiteral(value) else IsNoTable(value)) then AValue
        else NoBinding;
      [Defines(n.kind.name, meaning)]
  }

  function Definitions(kids: seq<Node>, n: nat, st: State): seq<Decl>
    requires n <= |kids|
  {
    if n == 0 then [] else Definitions(kids, n - 1, st) + Definition(kids[n - 1], st)
  }

  function WithDefinitions(with: Node, st: State): seq<Decl>
  {
    if with.kind.With? then Definitions(with.kids, |with.kids|, st) else []
  }

  /** What is passed from a node to its field i: earlier definitions only, unless the WITH is recursive. */
  function KidDecls(n: Node, role: Role, st: State, i: nat): seq<Decl>
    requires i < |n.kids|
  {
    match n.kind
    case Select(aliases, marked) =>
      var query := Entering(st, marked);
      var projected := if query.unbound then [] else [Projects(if query.stored then {} else aliases)];
      if i == 0 then [EntersQuery] else [EntersQuery] + WithDefinitions(n.kids[0], query) + projected
    case SetOperation(marked) =>
      [EntersQuery] + (if i == 0 then [] else WithDefinitions(n.kids[0], Entering(st, marked)))
    case Subquery(_, _) => [EntersQuery]
    case Paren(_) => if IsHandled(n) then [EntersQuery] else []
    case With(recursive) => Definitions(n.kids, if recursive then |n.kids| else i, st)
    case Function(queryBodied, _, _, _) => if role.Source? && queryBodied then [EntersViewBody] else []
    case _ => []
  }

  /** The path only enters fields that are walked. */
  predicate Reaches(n: Node, role: Role, path: seq<nat>)
    decreases |path|
  {
    path == [] || (
      && ModeOf(n, role).Visit? && path[0] < |n.kids| && VisitsKid(n, role, path[0])
      && Reaches(n.kids[path[0]], KidRole(n, role, path[0]), path[1..]))
  }

  /** The node, its role and the declarations passed, at the end of a path. */
  function NodeAt(n: Node, role: Role, path: seq<nat>): Node
    requires Reaches(n, role, path)
    decreases |path|
  {
    if path == [] then n else NodeAt(n.kids[path[0]], KidRole(n, role, path[0]), path[1..])
  }

  function RoleAt(n: Node, role: Role, path: seq<nat>): Role
    requires Reaches(n, role, path)
    decreases |path|
  {
    if path == [] then role else RoleAt(n.kids[path[0]], KidRole(n, role, path[0]), path[1..])
  }

  function DeclsAt(n: Node, role: Role, st: State, path: seq<nat>): seq<Decl>
    requires Reaches(n, role, path)
    decreases |path|
  {
    if path == [] then []
    else
      KidDecls(n, role, st, path[0]) +
        DeclsAt(n.kids[path[0]], KidRole(n, role, path[0]), KidState(n, role, st), path[1..])
  }

  // ---------------------------------------------------------------------------------------
  // The scope sets agree with looking a name up

  function Enter(scope: Scope, d: Decl): Scope
  {
    match d
    case Defines(name, AQuery) => scope.(ctes := scope.ctes + {name})
    case Defines(name, AValue) => scope.(aliases := scope.aliases + {name})
    case Defines(name, NoBinding) => scope.(ctes := scope.ctes - {name}, aliases := scope.aliases - {name})
    case Projects(names) => scope.(projection := names)
    case EntersQuery => scope.(projection := {})
    case EntersViewBody => scope.(ctes := {}, aliases := {}, projection := {})
  }

  function EnterAll(scope: Scope, ds: seq<Decl>): Scope
  {
    if ds == [] then scope else Enter(EnterAll(scope, ds[..|ds| - 1]), ds[|ds| - 1])
  }

  lemma {:induction false} EnterAppend(scope: Scope, a: seq<Decl>, b: seq<Decl>)
    ensures EnterAll(scope, a + b) == EnterAll(EnterAll(scope, a), b)
    decreases |b|
  {
    if b == [] {
      assert a + b == a;
    } else {
      assert (a + b)[..|a + b| - 1] == a + b[..|b| - 1];
      EnterAppend(scope, a, b[..|b| - 1]);
    }
  }

  /** The sets after some declarations hold exactly the names those declarations bind. */
  lemma {:induction false} SetsAreLookups(scope: Scope, ds: seq<Decl>, name: string)
    requires scope.ctes == {} && scope.aliases == {} && scope.projection == {}
    ensures name in EnterAll(scope, ds).ctes <==> IsCte(ds, name)
    ensures name in EnterAll(scope, ds).aliases <==> IsValueAlias(ds, name)
    ensures name in EnterAll(scope, ds).projection <==> IsProjected(ds, name)
  {
    hide IsCte, IsValueAlias, IsProjected, Enter;
    if ds == [] {
      NothingBinds(name);
    } else {
      var first, last := ds[..|ds| - 1], ds[|ds| - 1];
      SetsAreLookups(scope, first, name);
      LookupStep(first, last, name);
      EnterStep(EnterAll(scope, first), last, name);
      assert ds == first + [last];
    }
  }

  lemma NothingBinds(name: string)
    ensures !IsCte([], name) && !IsValueAlias([], name) && !IsProjected([], name)
  {
  }

  lemma EnterStep(scope: Scope, d: Decl, name: string)
    ensures name in Enter(scope, d).ctes <==> d == Defines(name, AQuery) || (name in scope.ctes && d != EntersViewBody && d != Defines(name, NoBinding))
    ensures name in Enter(scope, d).aliases <==> d == Defines(name, AValue) || (name in scope.aliases && d != EntersViewBody && d != Defines(name, NoBinding))
    ensures name in Enter(scope, d).projection <==> (d.Projects? && name in d.names) || (name in scope.projection && d.Defines?)
  {
  }

  /** One more declaration. */
  lemma LookupStep(ds: seq<Decl>, d: Decl, name: string)
    ensures IsCte(ds + [d], name) <==> d == Defines(name, AQuery) || (IsCte(ds, name) && d != EntersViewBody && d != Defines(name, NoBinding))
    ensures IsValueAlias(ds + [d], name) <==> d == Defines(name, AValue) || (IsValueAlias(ds, name) && d != EntersViewBody && d != Defines(name, NoBinding))
    ensures IsProjected(ds + [d], name) <==> (d.Projects? && name in d.names) || (IsProjected(ds, name) && d.Defines?)
  {
    var all := ds + [d];
    assert all[|ds|] == d && forall i :: 0 <= i < |ds| ==> all[i] == ds[i];
    if IsCte(ds, name) && d != EntersViewBody && d != Defines(name, NoBinding) {
      var i :| 0 <= i < |ds| && ds[i] == Defines(name, AQuery) && Lasts(ds, i, name);
      assert all[i] == Defines(name, AQuery) && Lasts(all, i, name);
    }
    if IsValueAlias(ds, name) && d != EntersViewBody && d != Defines(name, NoBinding) {
      var i :| 0 <= i < |ds| && ds[i] == Defines(name, AValue) && Lasts(ds, i, name);
      assert all[i] == Defines(name, AValue) && Lasts(all, i, name);
    }
    LookupStepBack(ds, d, name);
  }

  lemma LookupStepBack(ds: seq<Decl>, d: Decl, name: string)
    ensures IsCte(ds + [d], name) ==> d == Defines(name, AQuery) || (IsCte(ds, name) && d != EntersViewBody && d != Defines(name, NoBinding))
    ensures IsValueAlias(ds + [d], name) ==> d == Defines(name, AValue) || (IsValueAlias(ds, name) && d != EntersViewBody && d != Defines(name, NoBinding))
  {
    var all := ds + [d];
    assert all[|ds|] == d && forall i :: 0 <= i < |ds| ==> all[i] == ds[i];
    if IsCte(all, name) && d != Defines(name, AQuery) {
      var i :| 0 <= i < |all| && all[i] == Defines(name, AQuery) && Lasts(all, i, name);
      assert i < |ds| && Lasts(ds, i, name);
    }
    if IsValueAlias(all, name) && d != Defines(name, AValue) {
      var i :| 0 <= i < |all| && all[i] == Defines(name, AValue) && Lasts(all, i, name);
      assert i < |ds| && Lasts(ds, i, name);
    }
  }

  function StateOf(scope: Scope): State
  {
    State(scope.stored, scope.unbound)
  }

  /** The names in force, whatever the place's state. */
  predicate SameNames(a: Scope, b: Scope)
  {
    a.ctes == b.ctes && a.aliases == b.aliases && a.projection == b.projection
  }

  lemma EnterOne(scope: Scope, d: Decl)
    ensures EnterAll(scope, [d]) == Enter(scope, d)
  {
    assert [d][..0] == [];
  }

  lemma DeclareOne(scope: Scope, names: Scope, n: Node)
    requires SameNames(scope, names)
    ensures SameNames(Declare(scope, n), EnterAll(names, Definition(n, StateOf(scope))))
    ensures StateOf(Declare(scope, n)) == StateOf(scope)
  {
    hide IsReadQuery, IsStoredViewLiteral, IsNoTable, EnterAll;
    var ds := Definition(n, StateOf(scope));
    if ds == [] {
      EnterNone(names);
    } else {
      EnterOne(names, ds[0]);
      assert ds == [ds[0]];
    }
  }

  lemma EnterNone(scope: Scope)
    ensures EnterAll(scope, []) == scope
  {
  }

  lemma {:induction false} DeclareIsEnter(scope: Scope, names: Scope, kids: seq<Node>, n: nat)
    requires n <= |kids| && SameNames(scope, names)
    ensures SameNames(DeclareFirst(scope, kids, n), EnterAll(names, Definitions(kids, n, StateOf(scope))))
    ensures StateOf(DeclareFirst(scope, kids, n)) == StateOf(scope)
  {
    hide Declare, Definition;
    if n > 0 {
      var ds := Definitions(kids, n - 1, StateOf(scope));
      DeclareIsEnter(scope, names, kids, n - 1);
      DeclareOne(DeclareFirst(scope, kids, n - 1), EnterAll(names, ds), kids[n - 1]);
      EnterAppend(names, ds, Definition(kids[n - 1], StateOf(scope)));
    }
  }

  /** The scope after a WITH. */
  lemma AfterWithIsEnter(base: Scope, names: Scope, with: Node)
    requires SameNames(base, names)
    ensures SameNames(AfterWith(base, with), EnterAll(names, WithDefinitions(with, StateOf(base))))
    ensures StateOf(AfterWith(base, with)) == StateOf(base)
  {
    if with.kind.With? {
      DeclareIsEnter(base, names, with.kids, |with.kids|);
    } else {
      EnterNone(names);
    }
  }

  /** The scope the walk hands to a field is what the declarations on the way make of the node's own. */
  lemma KidScopeIsEnter(n: Node, role: Role, scope: Scope, names: Scope, i: nat)
    requires i < |n.kids| && SameNames(scope, names)
    ensures SameNames(KidScope(n, role, scope, i), EnterAll(names, KidDecls(n, role, StateOf(scope), i)))
    ensures StateOf(KidScope(n, role, scope, i)) == KidState(n, role, StateOf(scope))
  {
    hide IsHandled, EnterAll, DeclareFirst, Definitions, WithDefinitions, AfterWith;
    EnterNone(names);
    EnterOne(names, EntersQuery);
    EnterOne(names, EntersViewBody);
    match n.kind
    case Select(_, _) =>
      SelectScopeIsEnter(n, role, scope, names, i);
    case SetOperation(marked) =>
      if i > 0 {
        var base := QueryScope(scope, marked);
        AfterWithIsEnter(base, Enter(names, EntersQuery), n.kids[0]);
        EnterAppend(names, [EntersQuery], WithDefinitions(n.kids[0], StateOf(base)));
      } else {
        assert [EntersQuery] + [] == [EntersQuery];
      }
    case With(recursive) =>
      DeclareIsEnter(scope, names, n.kids, if recursive then |n.kids| else i);
    case _ =>
  }

  lemma SelectScopeIsEnter(n: Node, role: Role, scope: Scope, names: Scope, i: nat)
    requires i < |n.kids| && SameNames(scope, names) && n.kind.Select?
    ensures SameNames(KidScope(n, role, scope, i), EnterAll(names, KidDecls(n, role, StateOf(scope), i)))
    ensures StateOf(KidScope(n, role, scope, i)) == KidState(n, role, StateOf(scope))
  {
    hide IsHandled, EnterAll, DeclareFirst, Definitions, WithDefinitions, AfterWith;
    var base := QueryScope(scope, n.kind.marked);
    EnterOne(names, EntersQuery);
    if i > 0 {
      var ds := WithDefinitions(n.kids[0], StateOf(base));
      var projection := Projects(if base.stored then {} else n.kind.aliases);
      AfterWithIsEnter(base, Enter(names, EntersQuery), n.kids[0]);
      EnterAppend(names, [EntersQuery], ds);
      var named := EnterAll(names, [EntersQuery] + ds);
      EnterNone(named);
      EnterOne(named, projection);
      EnterAppend(names, [EntersQuery] + ds, if base.unbound then [] else [projection]);
    }
  }

  // ---------------------------------------------------------------------------------------
  // The walk emits the free references

  /** The table a place mentions where the walk reads names. */
  function MentionAt(root: Node, role: Role, path: seq<nat>): Option<(Site, Target)>
    requires Reaches(root, role, path)
  {
    Mention(NodeAt(root, role, path), RoleAt(root, role, path))
  }

  /** The place mentions a table that no declaration on its path binds. */
  ghost predicate IsFree(root: Node, role: Role, before: seq<Decl>, st: State, path: seq<nat>, site: Site, t: Target)
  {
    && Reaches(root, role, path)
    && MentionAt(root, role, path) == Some((site, t))
    && !Binds(before + DeclsAt(root, role, st, path), site, t)
  }

  /** A mention is only found in a node whose fields the walk visits, and not in one it skips or guards. */
  lemma MentionIsVisited(n: Node, role: Role)
    requires Mention(n, role).Some?
    ensures ModeOf(n, role).Visit?
  {
  }

  ghost predicate Emits(refs: seq<Ref>, path: seq<nat>, site: Site, t: Target)
  {
    exists k :: 0 <= k < |refs| && refs[k].path == path && refs[k].site == site && refs[k].target == t
  }

  lemma EmitsConcat(a: seq<Ref>, b: seq<Ref>, path: seq<nat>, site: Site, t: Target)
    ensures Emits(a + b, path, site, t) <==> Emits(a, path, site, t) || Emits(b, path, site, t)
  {
    var c := a + b;
    if Emits(a, path, site, t) {
      var k :| 0 <= k < |a| && a[k].path == path && a[k].site == site && a[k].target == t;
      assert c[k] == a[k];
    }
    if Emits(b, path, site, t) {
      var k :| 0 <= k < |b| && b[k].path == path && b[k].site == site && b[k].target == t;
      assert c[|a| + k] == b[k];
    }
  }

  lemma EmitsUnder(i: nat, refs: seq<Ref>, path: seq<nat>, site: Site, t: Target)
    ensures Emits(Under(i, refs), path, site, t) <==> path != [] && path[0] == i && Emits(refs, path[1..], site, t)
  {
    var u := Under(i, refs);
    if Emits(u, path, site, t) {
      var k :| 0 <= k < |u| && u[k].path == path && u[k].site == site && u[k].target == t;
      assert path == [i] + refs[k].path;
      assert path[1..] == refs[k].path;
    }
    if path != [] && path[0] == i && Emits(refs, path[1..], site, t) {
      var k :| 0 <= k < |refs| && refs[k].path == path[1..] && refs[k].site == site && refs[k].target == t;
      assert path == [i] + path[1..];
      assert u[k].path == path;
    }
  }

  /** Names in force at a place are those its declarations bind. */
  lemma BoundIsBinds(scope: Scope, before: seq<Decl>, site: Site, t: Target)
    requires SameNames(scope, EnterAll(NO_SCOPE, before))
    ensures IsBound(site, t, scope) <==> Binds(before, site, t)
  {
    SetsAreLookups(NO_SCOPE, before, t.table);
  }

  /** The walk emits a place exactly when it is free. */
  lemma {:induction false} WalkEmitsFree(n: Node, role: Role, scope: Scope, before: seq<Decl>, path: seq<nat>, site: Site, t: Target)
    requires SameNames(scope, EnterAll(NO_SCOPE, before)) && Walk(n, role, scope).Some?
    ensures Emits(Walk(n, role, scope).value, path, site, t) <==> IsFree(n, role, before, StateOf(scope), path, site, t)
    decreases n, |n.kids| + 1
  {
    if ModeOf(n, role).Visit? {
      FieldsEmitFree(n, role, scope, before, 0, path, site, t);
      if path == [] {
        OwnEmission(n, role, scope, before, site, t);
      }
    } else {
      NoneVisited(n, role, before, StateOf(scope), path, site, t);
    }
  }

  lemma NoneVisited(n: Node, role: Role, before: seq<Decl>, st: State, path: seq<nat>, site: Site, t: Target)
    requires !ModeOf(n, role).Visit?
    ensures !IsFree(n, role, before, st, path, site, t)
  {
    if path == [] && Mention(n, role).Some? {
      MentionIsVisited(n, role);
    }
  }

  lemma OwnEmission(n: Node, role: Role, scope: Scope, before: seq<Decl>, site: Site, t: Target)
    requires SameNames(scope, EnterAll(NO_SCOPE, before))
    ensures Emits(Emitted(n, role, scope), [], site, t) <==> IsFree(n, role, before, StateOf(scope), [], site, t)
  {
    hide EnterAll, Binds, IsBound, Mention;
    BoundIsBinds(scope, before, site, t);
    assert before + [] == before;
    var own := Emitted(n, role, scope);
    assert own != [] ==> own[0].path == [];
  }

  /** Of the fields from i on: the node's own reference if it is still to come, and the fields' free places. */
  lemma {:induction false} FieldsEmitFree(n: Node, role: Role, scope: Scope, before: seq<Decl>, i: nat, path: seq<nat>, site: Site, t: Target)
    requires SameNames(scope, EnterAll(NO_SCOPE, before)) && i <= |n.kids| && WalkFrom(n, role, scope, i).Some?
    requires ModeOf(n, role).Visit?
    ensures Emits(WalkFrom(n, role, scope, i).value, path, site, t) <==>
      if path == [] then i <= EmitsAt(n) && Emits(Emitted(n, role, scope), [], site, t)
      else path[0] >= i && IsFree(n, role, before, StateOf(scope), path, site, t)
    decreases n, |n.kids| - i
  {
    hide ModeOf, EnterAll, IsBound, Mention, KidScope, KidRole, VisitsKid, IsFree, Emits;
    var own := Emitted(n, role, scope);
    var here := if i == EmitsAt(n) then own else [];
    OnlyHere(n, role, scope, path, site, t);
    EmitsNothing(path, site, t);
    if i < |n.kids| {
      var kid := if VisitsKid(n, role, i) then Walk(n.kids[i], KidRole(n, role, i), KidScope(n, role, scope, i)) else Some([]);
      var rest := WalkFrom(n, role, scope, i + 1);
      FieldsEmitFree(n, role, scope, before, i + 1, path, site, t);
      EmitsConcat(here + Under(i, kid.value), rest.value, path, site, t);
      EmitsConcat(here, Under(i, kid.value), path, site, t);
      EmitsUnder(i, kid.value, path, site, t);
      if path != [] && path[0] == i {
        if VisitsKid(n, role, i) {
          KidScopeIsEnter(n, role, scope, EnterAll(NO_SCOPE, before), i);
          EnterAppend(NO_SCOPE, before, KidDecls(n, role, StateOf(scope), i));
          WalkEmitsFree(n.kids[i], KidRole(n, role, i), KidScope(n, role, scope, i),
            before + KidDecls(n, role, StateOf(scope), i), path[1..], site, t);
          FreeInField(n, role, before, StateOf(scope), path, site, t);
        } else {
          EmitsNothing(path[1..], site, t);
          NotReached(n, role, before, StateOf(scope), path, site, t);
        }
      }
    } else if path != [] && path[0] >= i {
      NotReached(n, role, before, StateOf(scope), path, site, t);
    }
  }

  lemma OnlyHere(n: Node, role: Role, scope: Scope, path: seq<nat>, site: Site, t: Target)
    ensures Emits(Emitted(n, role, scope), path, site, t) ==> path == []
  {
  }

  lemma EmitsNothing(path: seq<nat>, site: Site, t: Target)
    ensures !Emits([], path, site, t)
  {
  }

  /** A place below field i is free in the node exactly when it is free in the field. */
  lemma FreeInField(n: Node, role: Role, before: seq<Decl>, st: State, path: seq<nat>, site: Site, t: Target)
    requires ModeOf(n, role).Visit? && path != [] && path[0] < |n.kids| && VisitsKid(n, role, path[0])
    ensures var i := path[0]; IsFree(n, role, before, st, path, site, t) <==>
      IsFree(n.kids[i], KidRole(n, role, i), before + KidDecls(n, role, st, i), KidState(n, role, st), path[1..], site, t)
  {
    hide Binds, Mention, KidDecls, KidState, KidRole;
    var i := path[0];
    assert Reaches(n, role, path) <==> Reaches(n.kids[i], KidRole(n, role, i), path[1..]);
    if Reaches(n, role, path) {
      var inner := DeclsAt(n.kids[i], KidRole(n, role, i), KidState(n, role, st), path[1..]);
      assert before + (KidDecls(n, role, st, i) + inner) == before + KidDecls(n, role, st, i) + inner;
    }
  }

  lemma NotReached(n: Node, role: Role, before: seq<Decl>, st: State, path: seq<nat>, site: Site, t: Target)
    requires path != [] && (path[0] >= |n.kids| || !VisitsKid(n, role, path[0]))
    ensures !IsFree(n, role, before, st, path, site, t)
  {
  }

  /** The scope a walk starts in: no names, inside a stored view body or not, and where names bind or not. */
  function EntryScope(st: State): Scope
  {
    NO_SCOPE.(stored := st.stored, unbound := st.unbound)
  }

  /**
   The references of a walk that does not give up are exactly the free table names, for a statement and for a part of
   one walked where nothing binds.
   */
  lemma ReferencesAreFreeNames(root: Node, role: Role, st: State, path: seq<nat>, site: Site, t: Target)
    requires Walk(root, role, EntryScope(st)).Some?
    ensures Emits(Walk(root, role, EntryScope(st)).value, path, site, t) <==> IsFree(root, role, [], st, path, site, t)
  {
    EnterNone(NO_SCOPE);
    WalkEmitsFree(root, role, EntryScope(st), [], path, site, t);
  }

  /** The path passes no view() argument, which is a query of its own. */
  predicate StaysOutside(n: Node, role: Role, path: seq<nat>)
    requires Reaches(n, role, path)
    decreases |path|
  {
    path != [] ==>
      && !(n.kind.Function? && role.Source? && n.kind.queryBodied)
      && StaysOutside(n.kids[path[0]], KidRole(n, role, path[0]), path[1..])
  }

  lemma {:induction false} NothingDefined(kids: seq<Node>, n: nat, st: State)
    requires n <= |kids| && st.unbound
    ensures Definitions(kids, n, st) == []
  {
    if n > 0 {
      NothingDefined(kids, n - 1, st);
    }
  }

  lemma {:induction false} OnlyQueriesEntered(n: Node, role: Role, st: State, path: seq<nat>)
    requires st.unbound && Reaches(n, role, path) && StaysOutside(n, role, path)
    ensures forall k :: 0 <= k < |DeclsAt(n, role, st, path)| ==> DeclsAt(n, role, st, path)[k] == EntersQuery
    decreases |path|
  {
    if path != [] {
      var i := path[0];
      FieldEntersQueries(n, role, st, i);
      OnlyQueriesEntered(n.kids[i], KidRole(n, role, i), KidState(n, role, st), path[1..]);
    }
  }

  lemma FieldEntersQueries(n: Node, role: Role, st: State, i: nat)
    requires i < |n.kids| && st.unbound && !(n.kind.Function? && role.Source? && n.kind.queryBodied)
    ensures KidState(n, role, st).unbound
    ensures forall k :: 0 <= k < |KidDecls(n, role, st, i)| ==> KidDecls(n, role, st, i)[k] == EntersQuery
  {
    hide Definitions, IsHandled;
    match n.kind
    case Select(_, marked) =>
      if n.kids[0].kind.With? {
        NothingDefined(n.kids[0].kids, |n.kids[0].kids|, Entering(st, marked));
      }
    case SetOperation(marked) =>
      if n.kids[0].kind.With? {
        NothingDefined(n.kids[0].kids, |n.kids[0].kids|, Entering(st, marked));
      }
    case With(recursive) => NothingDefined(n.kids, if recursive then |n.kids| else i, st);
    case _ =>
  }

  /** Where names do not bind every table mentioned outside view() is a reference, whatever WITH or projection stands around it. */
  lemma UnboundBindsNothing(root: Node, role: Role, stored: bool, path: seq<nat>, site: Site, t: Target)
    requires Walk(root, role, EntryScope(State(stored, true))).Some?
    requires Reaches(root, role, path) && StaysOutside(root, role, path)
    ensures Emits(Walk(root, role, EntryScope(State(stored, true))).value, path, site, t) <==>
      MentionAt(root, role, path) == Some((site, t))
  {
    hide Walk, Mention, Emits;
    var st := State(stored, true);
    ReferencesAreFreeNames(root, role, st, path, site, t);
    OnlyQueriesEntered(root, role, st, path);
    var ds := DeclsAt(root, role, st, path);
    assert [] + ds == ds;
    assert !Binds(ds, site, t);
  }

  // ---------------------------------------------------------------------------------------
  // Each place once

  /** Places in the order of the statement: a node's own place stands where it is emitted, among its fields' places. */
  ghost predicate DistinctPaths(refs: seq<Ref>)
  {
    forall i, k :: 0 <= i < k < |refs| ==> refs[i].path != refs[k].path
  }

  lemma {:induction false} WalkIsDistinct(n: Node, role: Role, scope: Scope)
    requires Walk(n, role, scope).Some?
    ensures DistinctPaths(Walk(n, role, scope).value)
    decreases n, |n.kids| + 1
  {
    if ModeOf(n, role).Visit? {
      FieldsAreDistinct(n, role, scope, 0);
    }
  }

  /** Every place comes from the node itself, when that is still to come, or from a field at or after i. */
  predicate FromField(refs: seq<Ref>, own: bool, i: nat)
  {
    forall k :: 0 <= k < |refs| ==> if refs[k].path == [] then own else refs[k].path[0] >= i
  }

  lemma {:induction false} FieldsAreDistinct(n: Node, role: Role, scope: Scope, i: nat)
    requires i <= |n.kids| && WalkFrom(n, role, scope, i).Some?
    ensures DistinctPaths(WalkFrom(n, role, scope, i).value)
    ensures FromField(WalkFrom(n, role, scope, i).value, i <= EmitsAt(n), i)
    decreases n, |n.kids| - i
  {
    hide KidScope, KidRole, VisitsKid, Mention, IsBound, DistinctPaths, FromField;
    var here := if i == EmitsAt(n) then Emitted(n, role, scope) else [];
    OwnIsOne(n, role, scope, i);
    if i < |n.kids| {
      var kid := if VisitsKid(n, role, i) then Walk(n.kids[i], KidRole(n, role, i), KidScope(n, role, scope, i)) else Some([]);
      if VisitsKid(n, role, i) {
        WalkIsDistinct(n.kids[i], KidRole(n, role, i), KidScope(n, role, scope, i));
      } else {
        NoneAreDistinct();
      }
      FieldsAreDistinct(n, role, scope, i + 1);
      UnderIsDistinct(i, kid.value);
      ConcatIsDistinct(here, Under(i, kid.value), WalkFrom(n, role, scope, i + 1).value, i, EmitsAt(n));
    }
  }

  lemma NoneAreDistinct()
    ensures DistinctPaths([])
  {
  }

  lemma OwnIsOne(n: Node, role: Role, scope: Scope, i: nat)
    ensures var here := if i == EmitsAt(n) then Emitted(n, role, scope) else [];
      DistinctPaths(here) && |here| <= 1 && (here != [] ==> here[0].path == [] && i == EmitsAt(n)) && FromField(here, i <= EmitsAt(n), i)
  {
    hide Mention, IsBound;
  }

  lemma ConcatIsDistinct(own: seq<Ref>, field: seq<Ref>, rest: seq<Ref>, i: nat, at: nat)
    requires |own| <= 1 && (own != [] ==> own[0].path == [] && i == at)
    requires DistinctPaths(field) && DistinctPaths(rest) && FromField(rest, i + 1 <= at, i + 1)
    requires forall k :: 0 <= k < |field| ==> field[k].path != [] && field[k].path[0] == i
    ensures DistinctPaths(own + field + rest) && FromField(own + field + rest, i <= at, i)
  {
  }

  lemma UnderIsDistinct(i: nat, refs: seq<Ref>)
    requires DistinctPaths(refs)
    ensures DistinctPaths(Under(i, refs))
    ensures forall k :: 0 <= k < |refs| ==> Under(i, refs)[k].path != [] && Under(i, refs)[k].path[0] == i
  {
    var u := Under(i, refs);
    forall a, b | 0 <= a < b < |u|
      ensures u[a].path != u[b].path
    {
      assert u[a].path[1..] == refs[a].path && u[b].path[1..] == refs[b].path;
    }
  }
}
