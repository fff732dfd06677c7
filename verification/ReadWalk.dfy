/** The scope-aware walk over a statement: which table references it emits, and when it gives up. */
module ReadWalk {
  import opened Common
  import opened ReadTree

  /** readSourceScope: the names in force. */
  datatype Scope = Scope(ctes: set<string>, aliases: set<string>, projection: set<string>, stored: bool, unbound: bool)

  const NO_SCOPE := Scope({}, {}, {}, false, false)

  /** The grammar position a node is walked in. */
  datatype Role = Source | Scalar | Bindings | Binding

  // ---------------------------------------------------------------------------------------
  // Scopes

  /** walkReadQuery's entry: no projection alias of an enclosing SELECT is seen, and a view body's marker sticks. */
  function QueryScope(scope: Scope, marked: bool): Scope
  {
    scope.(projection := {}, stored := scope.stored || marked)
  }

  /** declareCTEBinding. */
  function Declare(scope: Scope, n: Node): Scope
  {
    if !n.kind.Cte? || n.kids == [] || n.kind.name == "" || scope.unbound then scope
    else
      var name := n.kind.name;
      if n.kind.aliasFirst && IsReadQuery(n.kids[0]) then scope.(ctes := scope.ctes + {name})
      else if (if scope.stored then IsStoredViewLiteral(n.kids[0]) else IsNoTable(n.kids[0])) then
        scope.(aliases := scope.aliases + {name})
      else scope.(ctes := scope.ctes - {name}, aliases := scope.aliases - {name})
  }

  /** The scope after the first n definitions. */
  function DeclareFirst(scope: Scope, kids: seq<Node>, n: nat): Scope
    requires n <= |kids|
  {
    if n == 0 then scope else Declare(DeclareFirst(scope, kids, n - 1), kids[n - 1])
  }

  /** The scope walkWithObjects returns. */
  function AfterWith(scope: Scope, with: Node): Scope
  {
    if with.kind.With? then DeclareFirst(scope, with.kids, |with.kids|) else scope
  }

  /** selectAliasScope. */
  function SelectScope(scope: Scope, aliases: set<string>): Scope
  {
    if scope.unbound then scope else scope.(projection := if scope.stored then {} else aliases)
  }

  // ---------------------------------------------------------------------------------------
  // The fields of a node

  /** Done: nothing to walk. Guard: not modelled, so it must hold no read. Visit: its fields are walked. */
  datatype Mode = Done | Guard | Visit

  function ModeOf(n: Node, role: Role): Mode
  {
    if role.Bindings? then (if n.kind.With? then Visit else Done)
    else if role.Binding? then (if n.kind.Cte? then Visit else Done)
    else if n.kind.Blank? || IsSealed(n) then Done
    else if n.kind.Sequence? || IsHandled(n) || n.kind.Function? || n.kind.Paren? then Visit
    else if role.Source? then
      (if n.kind.Table? || n.kind.TableParameter? || n.kind.SourceWrapper? || n.kind.Join? then Visit else Guard)
    else (if n.kind.Expression? || n.kind.In? then Visit else Guard)
  }

  /** The role field i is walked in. */
  function KidRole(n: Node, role: Role, i: nat): Role
    requires i < |n.kids|
  {
    match n.kind
    case Sequence => role
    case Select(_, _) => if i == 0 then Bindings else if i == 2 || i == 3 then Source else Scalar
    case SetOperation(_) => if i == 0 then Bindings else Scalar
    case Paren(_) => if IsHandled(n) then Scalar else role
    case With(_) => if n.kids[i].kind.Cte? then Binding else Scalar
    case Join => if i == 0 then Source else Scalar
    case SourceWrapper(wrapper) => if i == 0 || (i == 1 && wrapper.JoinedTable?) then Source else Scalar
    case _ => Scalar
  }

  /** The scope field i is walked in. */
  function KidScope(n: Node, role: Role, scope: Scope, i: nat): Scope
    requires i < |n.kids|
  {
    match n.kind
    case Select(aliases, marked) =>
      var base := QueryScope(scope, marked);
      if i == 0 then base else SelectScope(AfterWith(base, n.kids[0]), aliases)
    case SetOperation(marked) =>
      var base := QueryScope(scope, marked);
      if i == 0 then base else AfterWith(base, n.kids[0])
    case Subquery(_, marked) => QueryScope(scope, marked)
    case Paren(marked) => if IsHandled(n) then QueryScope(scope, marked) else scope
    case With(recursive) => DeclareFirst(scope, n.kids, if recursive then |n.kids| else i)
    case Function(queryBodied, _, _, _) =>
      if role.Source? && queryBodied then NO_SCOPE.(stored := scope.stored) else scope
    case _ => scope
  }

  /** Whether field i is walked at all: a table operand is not. */
  predicate VisitsKid(n: Node, role: Role, i: nat)
  {
    match n.kind
    case Table(_) | TableParameter => false
    case In(operand) => i != 1 || operand.Value?
    case Function(_, _, _, named) => !role.Scalar? || named.None? || i == 0
    case _ => true
  }

  /** Whether fields the walker does not know are refused when they hold a read. */
  predicate Checks(n: Node, role: Role)
  {
    match n.kind
    case Select(_, _) | SetOperation(_) | Subquery(_, _) | Join | Cte(_, _) | In(_) => true
    case Expression(shape, _, _, _) => !shape.Keep? && !(shape.FrameBound? && shape.bounded)
    case Paren(_) => IsHandled(n) || role.Scalar?
    case Function(_, _, _, _) => role.Scalar?
    case With(_) => exists i :: 0 <= i < |n.kids| && n.kids[i].kind.Cte?
    case _ => false
  }

  // ---------------------------------------------------------------------------------------
  // References

  datatype Site = From | Infix | Callable

  /** A reference: where it stands, what it names, and the names in force there. */
  datatype Ref = Ref(path: seq<nat>, site: Site, target: Target, scope: Scope)

  /** isScopedCurrentDatabaseRef, for an operand that is a bare name. */
  predicate OperandIsBound(t: Target, scope: Scope)
  {
    t.db == "" && (t.table in scope.ctes || t.table in scope.aliases || t.table in scope.projection)
  }

  predicate SourceIsBound(t: Target, scope: Scope)
  {
    t.db == "" && t.table in scope.ctes
  }

  /** The table a node names at a place where a name is read, bound or not. */
  function Mention(n: Node, role: Role): Option<(Site, Target)>
  {
    if role.Source? && n.kind.Table? && n.kind.target.table != "" then Some((From, n.kind.target))
    else if role.Scalar? && n.kind.In? && n.kind.operand.Names? && n.kind.operand.target.table != "" then
      Some((Infix, n.kind.operand.target))
    else if role.Scalar? && n.kind.Function? && n.kind.named.Some? && n.kind.named.value.table != "" then
      Some((Callable, n.kind.named.value))
    else None
  }

  predicate IsBound(site: Site, t: Target, scope: Scope)
  {
    if site.From? then SourceIsBound(t, scope) else OperandIsBound(t, scope)
  }

  /** The reference a node emits itself. */
  function Emitted(n: Node, role: Role, scope: Scope): seq<Ref>
  {
    match Mention(n, role)
    case None => []
    case Some((site, t)) => if IsBound(site, t, scope) then [] else [Ref([], site, t, scope)]
  }

  /** It is emitted after the left side of an IN or the first argument of a call. */
  function EmitsAt(n: Node): (r: nat)
    ensures r <= |n.kids|
  {
    if n.kind.Table? || n.kids == [] then 0 else 1
  }

  /** References of field i, seen from its node. */
  function Under(i: nat, refs: seq<Ref>): (r: seq<Ref>)
    ensures |r| == |refs|
    ensures forall k :: 0 <= k < |r| ==> r[k] == refs[k].(path := [i] + refs[k].path)
  {
    seq(|refs|, k requires 0 <= k < |refs| => refs[k].(path := [i] + refs[k].path))
  }

  /** The references of a walk, in the order visited; None when a read would go unseen. */
  function Walk(n: Node, role: Role, scope: Scope): Option<seq<Ref>>
    decreases n, |n.kids| + 1
  {
    match ModeOf(n, role)
    case Done => Some([])
    case Guard => if ContainsRead(n) then None else Some([])
    case Visit =>
      var refs := WalkFrom(n, role, scope, 0);
      if Checks(n, role) && AnyRead(n, n.unknown) then None else refs
  }

  /** The fields from i on. */
  function WalkFrom(n: Node, role: Role, scope: Scope, i: nat): Option<seq<Ref>>
    requires i <= |n.kids|
    decreases n, |n.kids| - i
  {
    var here := if i == EmitsAt(n) then Emitted(n, role, scope) else [];
    if i == |n.kids| then Some(here)
    else
      var kid := if VisitsKid(n, role, i) then Walk(n.kids[i], KidRole(n, role, i), KidScope(n, role, scope, i)) else Some([]);
      var rest := WalkFrom(n, role, scope, i + 1);
      if kid.None? || rest.None? then None else Some(here + Under(i, kid.value) + rest.value)
  }

  function Targets(refs: seq<Ref>): (r: seq<Target>)
    ensures |r| == |refs| && forall k :: 0 <= k < |r| ==> r[k] == refs[k].target
  {
    seq(|refs|, k requires 0 <= k < |refs| => refs[k].target)
  }

  /** CollectSelectTables. */
  function Collect(root: Node): Option<seq<Target>>
  {
    var refs := Walk(root, Scalar, NO_SCOPE);
    if refs.None? then None else Some(Targets(refs.value))
  }
}
