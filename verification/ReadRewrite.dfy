/**
 Rewriting the references of a statement in place while it is walked. A WITH value is rewritten before it is
 classified; when that leaves every scope as written, decide is asked about exactly what collecting reports.
 */
module ReadRewrite {
  import opened Common
  import opened ReadTree
  import opened ReadWalk

  /** A caller's decision: keep the reference, rename it, read it through remote(), or put a query in its place. */
  datatype Decision = Skip | Rename(db: string, table: string) | Remote | Inline(body: Node)

  // ---------------------------------------------------------------------------------------
  // One reference

  function OriginName(t: Target): string
  {
    if t.db != "" then t.db + "." + t.table else t.table
  }

  /** A leaf node. */
  function Leaf(k: Kind): Node
  {
    Node(k, [], [], [])
  }

  /** remoteFunc: a call on five string literals. */
  function RemoteCall(): Node
  {
    var c := Leaf(Constant);
    Node(Function(false, true, true, None), [c, c, c, c, c], [], [])
  }

  /** The name a renamed reference carries: in FROM an empty database keeps the old one, as an operand it drops it. */
  function Renamed(site: Site, t: Target, db: string, table: string): Target
  {
    if site.From? then Target(if db == "" then t.db else db, table, if t.alias != "" then t.alias else OriginName(t))
    else Target(db, table, "")
  }

  /** The operand of an IN or of a callable IN. */
  function WithOperand(n: Node, k: Kind, operand: Node): Node
  {
    Node(k, if |n.kids| >= 2 then n.kids[1 := operand] else n.kids, n.unknown, n.ignored)
  }

  /** applyDecision and applyInOperandDecision. */
  function Apply(n: Node, site: Site, t: Target, d: Decision): Node
  {
    match d
    case Skip => n
    case Rename(db, table) =>
      var r := Renamed(site, t, db, table);
      (match site
       case From => Node(Table(r), n.kids, n.unknown, n.ignored)
       case Infix => WithOperand(n, In(Names(r)), Leaf(Name(false)))
       case Callable => WithOperand(n, WithNamed(n.kind, Some(r)), Leaf(Name(false))))
    case Remote =>
      (match site
       case From => Node(SourceWrapper(Aliased), [RemoteCall()], n.unknown, n.ignored)
       case Infix => WithOperand(n, In(Value), RemoteCall())
       case Callable => WithOperand(n, WithNamed(n.kind, None), RemoteCall()))
    case Inline(body) =>
      (match site
       case From => Node(Subquery(true, false), [body], n.unknown, n.ignored)
       case Infix => WithOperand(n, In(Value), body)
       case Callable => WithOperand(n, WithNamed(n.kind, None), Node(Subquery(true, false), [body], [], [])))
  }

  function WithNamed(k: Kind, named: Option<Target>): Kind
  {
    if k.Function? then Function(k.queryBodied, k.known, k.fixed, named) else k
  }

  // ---------------------------------------------------------------------------------------
  // The walk that rewrites

  /** The node as it stands when field |done| is reached: a WITH that is not recursive has its rewritten values. */
  function Partly(n: Node, done: seq<Node>): Node
    requires |done| <= |n.kids|
  {
    if n.kind == With(false) then Node(n.kind, done + n.kids[|done|..], n.unknown, n.ignored)
    else if (n.kind.Select? || n.kind.SetOperation?) && done != [] && n.kids[0].kind != With(true) then
      Node(n.kind, n.kids[0 := done[0]], n.unknown, n.ignored)
    else n
  }

  /** RewriteSelectTables below a node. */
  function Rewrite(n: Node, role: Role, scope: Scope, decide: Target -> Decision): (r: Node)
    decreases n, |n.kids| + 1
  {
    if !ModeOf(n, role).Visit? then n
    else
      var rewritten := Node(n.kind, RewriteKids(n, role, scope, decide, |n.kids|), n.unknown, n.ignored);
      var refs := Emitted(n, role, scope);
      if refs == [] then rewritten else Apply(rewritten, refs[0].site, refs[0].target, decide(refs[0].target))
  }

  /** The first m fields, rewritten. */
  function RewriteKids(n: Node, role: Role, scope: Scope, decide: Target -> Decision, m: nat): (r: seq<Node>)
    requires m <= |n.kids|
    ensures |r| == m
    decreases n, m
  {
    if m == 0 then []
    else
      var i := m - 1;
      var done := RewriteKids(n, role, scope, decide, i);
      done + [if VisitsKid(n, role, i) then Rewrite(n.kids[i], KidRole(n, role, i), KidScope(Partly(n, done), role, scope, i), decide)
              else n.kids[i]]
  }

  /** The references decide is asked about, in order: the scope of a field is read off the node as it stands by then. */
  function Asked(n: Node, role: Role, scope: Scope, decide: Target -> Decision): Option<seq<Ref>>
    decreases n, |n.kids| + 1
  {
    match ModeOf(n, role)
    case Done => Some([])
    case Guard => if ContainsRead(n) then None else Some([])
    case Visit =>
      var refs := AskedFrom(n, role, scope, decide, 0);
      if Checks(n, role) && AnyRead(n, n.unknown) then None else refs
  }

  function AskedFrom(n: Node, role: Role, scope: Scope, decide: Target -> Decision, i: nat): Option<seq<Ref>>
    requires i <= |n.kids|
    decreases n, |n.kids| - i
  {
    var here := if i == EmitsAt(n) then Emitted(n, role, scope) else [];
    if i == |n.kids| then Some(here)
    else
      var passed := KidScope(Partly(n, RewriteKids(n, role, scope, decide, i)), role, scope, i);
      var kid := if VisitsKid(n, role, i) then Asked(n.kids[i], KidRole(n, role, i), passed, decide) else Some([]);
      var rest := AskedFrom(n, role, scope, decide, i + 1);
      if kid.None? || rest.None? then None else Some(here + Under(i, kid.value) + rest.value)
  }

  // ---------------------------------------------------------------------------------------
  // Renaming

  /** A rename that gives no database keeps a FROM table's; an operand keeps its own only when it had none. */
  lemma RenameKeepsDatabase(site: Site, t: Target, table: string)
    ensures Renamed(site, t, "", table).db == t.db <==> site.From? || t.db == ""
  {
    assert site.From? || t.db == "" || Renamed(site, t, "", table).db == "";
  }

  // ---------------------------------------------------------------------------------------
  // Conditions

  /** An IN has its left side and operand, a callable IN exactly its two arguments, and parentheses hold one node only. */
  predicate Formed(n: Node)
    decreases n, 0
  {
    && (n.kind.In? ==> |n.kids| >= 2)
    && (n.kind.Function? && n.kind.named.Some? ==> |n.kids| == 2)
    && (n.kind.Paren? ==> |n.kids| <= 1 && !AnyRead(n, n.unknown))
    && forall i :: 0 <= i < |n.kids| ==> Formed(n.kids[i])
  }

  predicate AnyName(parts: seq<Node>)
  {
    exists i :: 0 <= i < |parts| && ContainsName(parts[i])
  }

  /** The node itself still names something once its own reference, if it has one, was decided. */
  predicate OwnNameStays(n: Node, scope: Scope, decide: Target -> Decision)
  {
    var own := Emitted(n, Scalar, scope);
    if own == [] then IsNaming(n.kind)
    else
      match decide(own[0].target)
      case Skip | Rename(_, _) => true
      case Remote => n.kind.Function? && !n.kind.fixed
      case Inline(body) => !own[0].site.Infix? || ContainsName(body)
  }

  /** Some naming node in a scalar value is not an operand read through remote(), nor one replaced by a nameless body. */
  predicate NameStays(n: Node, scope: Scope, decide: Target -> Decision)
    decreases n, 1
  {
    if !ModeOf(n, Scalar).Visit? then ContainsName(n)
    else
      || OwnNameStays(n, scope, decide)
      || AnyName(n.unknown)
      || AnyName(n.ignored)
      || (exists i :: 0 <= i < |n.kids| && FieldNameStays(n, scope, decide, i))
  }

  predicate FieldNameStays(n: Node, scope: Scope, decide: Target -> Decision, i: nat)
    requires i < |n.kids|
    decreases n, 0
  {
    if VisitsKid(n, Scalar, i) then NameStays(n.kids[i], KidScope(n, Scalar, scope, i), decide)
    else Emitted(n, Scalar, scope) == [] && ContainsName(n.kids[i])
  }

  /** A WITH value that may name a table as written, and names nothing once its operands are decided. */
  predicate BecomesConstant(n: Node, scope: Scope, decide: Target -> Decision)
  {
    if n.kind.Paren? && n.kids != [] then BecomesConstant(n.kids[0], KidScope(n, Scalar, scope, 0), decide)
    else !IsNoTable(n) && !NameStays(n, scope, decide)
  }

  /** A definition declared at at, whose value is walked in scope, that only rewriting turns into a value alias. */
  predicate BecomesAlias(n: Node, at: Scope, scope: Scope, decide: Target -> Decision)
  {
    n.kind.Cte? && n.kids != [] && n.kind.name != "" && !at.unbound && !at.stored && BecomesConstant(n.kids[0], scope, decide)
  }

  /** No definition of the WITH becomes a value alias. */
  predicate KeepsBindings(with: Node, scope: Scope, decide: Target -> Decision)
  {
    forall i :: 0 <= i < |with.kids| ==>
      !BecomesAlias(with.kids[i], DeclareFirst(scope, with.kids, i), KidScope(with, Bindings, scope, i), decide)
  }

  /** The same of a WITH that is the node or the query's own; a recursive one declares its names before it is rewritten. */
  predicate OwnWithKept(n: Node, scope: Scope, decide: Target -> Decision)
  {
    if n.kind.With? then !n.kind.recursive ==> KeepsBindings(n, scope, decide)
    else if (n.kind.Select? || n.kind.SetOperation?) && n.kids != [] && n.kids[0].kind.With? then
      !n.kids[0].kind.recursive ==> KeepsBindings(n.kids[0], QueryScope(scope, n.kind.marked), decide)
    else true
  }

  /** And of every WITH the walk comes to. */
  predicate Settled(n: Node, role: Role, scope: Scope, decide: Target -> Decision)
    decreases n
  {
    ModeOf(n, role).Visit? ==>
      && OwnWithKept(n, scope, decide)
      && forall i :: 0 <= i < |n.kids| && VisitsKid(n, role, i) ==>
        Settled(n.kids[i], KidRole(n, role, i), KidScope(n, role, scope, i), decide)
  }

  // ---------------------------------------------------------------------------------------
  // What rewriting leaves of a node

  /** A node that emits nothing keeps its kind. */
  lemma KindKept(n: Node, role: Role, scope: Scope, decide: Target -> Decision)
    ensures Emitted(n, role, scope) == [] ==> Rewrite(n, role, scope, decide).kind == n.kind
    ensures n.kind.Cte? || n.kind.With? || n.kind.Select? || n.kind.SetOperation? || n.kind.Subquery? || n.kind.Paren? ==>
      Rewrite(n, role, scope, decide).kind == n.kind
  {
  }

  /** In a scalar position, what counts as a query stays one and nothing else becomes one. */
  lemma {:induction false} QueriesKept(n: Node, scope: Scope, decide: Target -> Decision)
    ensures var r := Rewrite(n, Scalar, scope, decide); IsReadQuery(r) == IsReadQuery(n) && IsHandled(r) == IsHandled(n)
    ensures IsSealed(Rewrite(n, Scalar, scope, decide)) == IsSealed(n)
    decreases n
  {
    var r := Rewrite(n, Scalar, scope, decide);
    if ModeOf(n, Scalar).Visit? && Emitted(n, Scalar, scope) == [] && n.kids != [] && (n.kind.Subquery? || n.kind.Paren?) {
      FirstKid(n, Scalar, scope, decide, |n.kids|);
      QueriesKept(n.kids[0], KidScope(n, Scalar, scope, 0), decide);
    }
  }

  /** The first field is rewritten in the scope of the node as written. */
  lemma {:induction false} FirstKid(n: Node, role: Role, scope: Scope, decide: Target -> Decision, m: nat)
    requires 0 < m <= |n.kids|
    ensures RewriteKids(n, role, scope, decide, m)[0] ==
      if VisitsKid(n, role, 0) then Rewrite(n.kids[0], KidRole(n, role, 0), KidScope(Partly(n, []), role, scope, 0), decide) else n.kids[0]
    ensures !n.kind.With? ==> Partly(n, []) == n
  {
    hide Rewrite, VisitsKid, KidScope;
    if m > 1 {
      FirstKid(n, role, scope, decide, m - 1);
    } else {
      assert RewriteKids(n, role, scope, decide, 0) == [];
    }
  }

  /** The scope field i is rewritten in. */
  function PassedScope(n: Node, role: Role, scope: Scope, decide: Target -> Decision, i: nat): Scope
    requires i < |n.kids|
  {
    KidScope(Partly(n, RewriteKids(n, role, scope, decide, i)), role, scope, i)
  }

  function RewrittenField(n: Node, role: Role, scope: Scope, decide: Target -> Decision, i: nat): Node
    requires i < |n.kids|
  {
    if VisitsKid(n, role, i) then Rewrite(n.kids[i], KidRole(n, role, i), PassedScope(n, role, scope, decide, i), decide) else n.kids[i]
  }

  /** Field i of the rewritten node, and the fields before it. */
  lemma {:induction false} KidRewritten(n: Node, role: Role, scope: Scope, decide: Target -> Decision, m: nat, i: nat)
    requires i < m <= |n.kids|
    ensures RewriteKids(n, role, scope, decide, m)[i] == RewrittenField(n, role, scope, decide, i)
    ensures RewriteKids(n, role, scope, decide, m)[..i] == RewriteKids(n, role, scope, decide, i)
  {
    hide Rewrite, VisitsKid, KidScope, Partly, KidRole;
    var done := RewriteKids(n, role, scope, decide, m - 1);
    assert RewriteKids(n, role, scope, decide, m) == done + [RewrittenField(n, role, scope, decide, m - 1)];
    if i < m - 1 {
      KidRewritten(n, role, scope, decide, m - 1, i);
    }
  }

  // ---------------------------------------------------------------------------------------
  // Names left in a value

  lemma NamingContains(n: Node)
    requires IsNaming(n.kind)
    ensures ContainsName(n)
  {
  }

  /** A node names something itself, or in one of its fields. */
  lemma NamesSplit(n: Node)
    ensures ContainsName(n) <==> IsNaming(n.kind) || AnyName(n.kids) || AnyName(n.unknown) || AnyName(n.ignored)
  {
    if ContainsName(n) && !IsNaming(n.kind) {
      var i :| 0 <= i < |Children(n)| && ContainsName(Children(n)[i]);
      hide ContainsName;
      if i < |n.kids| {
        assert ContainsName(n.kids[i]);
      } else if i < |n.kids| + |n.unknown| {
        assert ContainsName(n.unknown[i - |n.kids|]);
      } else {
        assert ContainsName(n.ignored[i - |n.kids| - |n.unknown|]);
      }
    }
    if i :| 0 <= i < |n.kids| && ContainsName(n.kids[i]) {
      ChildNames(n, i);
    }
    if i :| 0 <= i < |n.unknown| && ContainsName(n.unknown[i]) {
      ChildNames(n, |n.kids| + i);
    }
    if i :| 0 <= i < |n.ignored| && ContainsName(n.ignored[i]) {
      ChildNames(n, |n.kids| + |n.unknown| + i);
    }
  }

  lemma ChildNames(n: Node, i: nat)
    requires i < |Children(n)| && ContainsName(Children(n)[i])
    ensures ContainsName(n)
  {
  }

  lemma RemoteNamesNothing()
    ensures !ContainsName(RemoteCall())
  {
    var call := RemoteCall();
    assert forall i :: 0 <= i < |Children(call)| ==> Children(call)[i] == Leaf(Constant);
    assert Children(Leaf(Constant)) == [];
  }

  /** A value names something after rewriting exactly when one of its names stays. */
  lemma {:induction false} NamesLeft(n: Node, scope: Scope, decide: Target -> Decision)
    requires Formed(n)
    ensures ContainsName(Rewrite(n, Scalar, scope, decide)) <==> NameStays(n, scope, decide)
    decreases n
  {
    hide ContainsName, ContainsRead, AnyRead, AnyName, RewriteKids, OwnNameStays;
    if ModeOf(n, Scalar).Visit? {
      var out := FieldsOnly(n, Scalar, scope, decide);
      if OwnNameStays(n, scope, decide) {
        OwnNameLeft(n, scope, decide);
      } else {
        forall i | 0 <= i < |n.kids|
          ensures VisitsKid(n, Scalar, i) ==> (ContainsName(out.kids[i]) <==> NameStays(n.kids[i], KidScope(n, Scalar, scope, i), decide))
          ensures !VisitsKid(n, Scalar, i) ==> out.kids[i] == n.kids[i]
        {
          ScalarField(n, scope, decide, i);
          if VisitsKid(n, Scalar, i) {
            NamesLeft(n.kids[i], KidScope(n, Scalar, scope, i), decide);
          }
        }
        OtherNamesLeft(n, scope, decide);
      }
    }
  }

  /** The node with its fields rewritten and its own reference left alone. */
  function FieldsOnly(n: Node, role: Role, scope: Scope, decide: Target -> Decision): Node
  {
    Node(n.kind, RewriteKids(n, role, scope, decide, |n.kids|), n.unknown, n.ignored)
  }

  /** Unless a node is a query, its fields are walked as scalars in the scope they have as written. */
  lemma ScalarField(n: Node, scope: Scope, decide: Target -> Decision, i: nat)
    requires ModeOf(n, Scalar).Visit? && i < |n.kids| && !OwnNameStays(n, scope, decide)
    ensures KidRole(n, Scalar, i) == Scalar
    ensures FieldsOnly(n, Scalar, scope, decide).kids[i] ==
      if VisitsKid(n, Scalar, i) then Rewrite(n.kids[i], Scalar, KidScope(n, Scalar, scope, i), decide) else n.kids[i]
  {
    hide Rewrite, RewriteKids, ContainsName, ContainsRead, AnyRead, KidScope, IsBound;
    KidRewritten(n, Scalar, scope, decide, |n.kids|, i);
    assert Partly(n, RewriteKids(n, Scalar, scope, decide, i)) == n;
  }

  lemma OwnNameLeft(n: Node, scope: Scope, decide: Target -> Decision)
    requires Formed(n) && ModeOf(n, Scalar).Visit? && OwnNameStays(n, scope, decide)
    ensures ContainsName(Rewrite(n, Scalar, scope, decide))
  {
    hide ContainsName, ContainsRead, AnyRead, RewriteKids, IsBound;
    var own, r := Emitted(n, Scalar, scope), Rewrite(n, Scalar, scope, decide);
    NamesSplit(r);
    if own != [] {
      var d := decide(own[0].target);
      assert r == Apply(FieldsOnly(n, Scalar, scope, decide), own[0].site, own[0].target, d);
      if d.Inline? {
        if !own[0].site.Infix? {
          NamingContains(r.kids[1]);
        }
        assert ContainsName(r.kids[1]);
      }
    }
  }

  /** When its own name is gone, the node's fields decide. */
  lemma OtherNamesLeft(n: Node, scope: Scope, decide: Target -> Decision)
    requires Formed(n) && ModeOf(n, Scalar).Visit? && !OwnNameStays(n, scope, decide)
    requires var out := FieldsOnly(n, Scalar, scope, decide); forall i :: 0 <= i < |n.kids| ==>
      && (VisitsKid(n, Scalar, i) ==> (ContainsName(out.kids[i]) <==> NameStays(n.kids[i], KidScope(n, Scalar, scope, i), decide)))
      && (!VisitsKid(n, Scalar, i) ==> out.kids[i] == n.kids[i])
    ensures ContainsName(Rewrite(n, Scalar, scope, decide)) <==> NameStays(n, scope, decide)
  {
    hide ContainsName, ContainsRead, AnyRead, RewriteKids, IsBound, KidScope, IsHandled, IsSealed;
    var own, out, r := Emitted(n, Scalar, scope), FieldsOnly(n, Scalar, scope, decide), Rewrite(n, Scalar, scope, decide);
    NamesSplit(r);
    if own == [] {
      assert r == out;
      assert forall i :: 0 <= i < |n.kids| ==> (ContainsName(r.kids[i]) <==> FieldNameStays(n, scope, decide, i));
    } else {
      RemoteNamesNothing();
      assert r == Apply(out, own[0].site, own[0].target, decide(own[0].target));
      assert !IsNaming(r.kind) && r.unknown == n.unknown && r.ignored == n.ignored;
      assert forall i :: 0 <= i < |n.kids| ==> (VisitsKid(n, Scalar, i) <==> i != 1);
      assert forall i :: 0 <= i < |n.kids| && i != 1 ==> r.kids[i] == out.kids[i];
      assert !ContainsName(r.kids[1]);
      assert forall i :: 0 <= i < |n.kids| ==> (ContainsName(r.kids[i]) <==> FieldNameStays(n, scope, decide, i));
    }
  }

  /** Rewriting gives no value its first name. */
  lemma {:induction false} NamesAreOld(n: Node, scope: Scope, decide: Target -> Decision)
    requires NameStays(n, scope, decide)
    ensures ContainsName(n)
    decreases n
  {
    hide ContainsName, ContainsRead, AnyRead, IsBound, KidScope, IsHandled, IsSealed;
    if ModeOf(n, Scalar).Visit? && !IsNaming(n.kind) {
      NamesSplit(n);
      if i :| 0 <= i < |n.kids| && FieldNameStays(n, scope, decide, i) && VisitsKid(n, Scalar, i) {
        NamesAreOld(n.kids[i], KidScope(n, Scalar, scope, i), decide);
        assert AnyName(n.kids);
      }
    } else if IsNaming(n.kind) {
      NamingContains(n);
    }
  }

  // ---------------------------------------------------------------------------------------
  // Definitions

  /** Rewriting makes no query of a value nor takes one away, and makes it a constant exactly when it becomes one. */
  lemma {:induction false} ValueClassified(n: Node, scope: Scope, decide: Target -> Decision)
    requires Formed(n)
    ensures var r := Rewrite(n, Scalar, scope, decide);
      && IsReadQuery(r) == IsReadQuery(n)
      && (IsNoTable(r) <==> IsNoTable(n) || BecomesConstant(n, scope, decide))
      && IsScalarLiteral(Unwrapped(r)) == IsScalarLiteral(Unwrapped(n)) && IsStoredViewLiteral(r) == IsStoredViewLiteral(n)
    decreases n
  {
    hide ContainsName, NameStays, ContainsRead, AnyRead, IsReadQuery, IsHandled, KidScope, Partly;
    var r := Rewrite(n, Scalar, scope, decide);
    QueriesKept(n, scope, decide);
    if n.kind.Paren? && n.kids != [] {
      ParenRewritten(n, scope, decide);
      ValueClassified(n.kids[0], KidScope(n, Scalar, scope, 0), decide);
    } else {
      RootKept(n, scope, decide);
      NamesLeft(n, scope, decide);
      if NameStays(n, scope, decide) {
        NamesAreOld(n, scope, decide);
      }
    }
  }

  lemma ParenRewritten(n: Node, scope: Scope, decide: Target -> Decision)
    requires n.kind.Paren? && n.kids != []
    ensures var r := Rewrite(n, Scalar, scope, decide);
      r.kind == n.kind && r.kids != [] && r.kids[0] == Rewrite(n.kids[0], Scalar, KidScope(n, Scalar, scope, 0), decide)
  {
    hide ContainsRead, AnyRead, IsReadQuery, IsHandled, KidScope;
    assert ModeOf(n, Scalar).Visit?;
    KidRewritten(n, Scalar, scope, decide, |n.kids|, 0);
  }

  /** Rewriting a node that is not parenthesised leaves it the same sort of value by its kind. */
  lemma RootKept(n: Node, scope: Scope, decide: Target -> Decision)
    requires !(n.kind.Paren? && n.kids != []) && Formed(n)
    ensures var r := Rewrite(n, Scalar, scope, decide);
      && !(r.kind.Paren? && r.kids != [])
      && (r.kind == n.kind || (n.kind.In? && r.kind.In?) || (n.kind.Function? && r.kind.Function? && r.kind.fixed == n.kind.fixed))
  {
    hide ContainsRead, AnyRead, IsReadQuery, IsHandled, KidScope, Partly;
  }

  /** A definition declares after rewriting what it declared before, unless it becomes a value alias. */
  lemma DefinitionKept(n: Node, scope: Scope, decide: Target -> Decision, at: Scope)
    requires Formed(n)
    ensures Declare(at, Rewrite(n, Binding, scope, decide)) == Declare(at, n) <==> !BecomesAlias(n, at, scope, decide)
    ensures Rewrite(n, Binding, scope, decide).kind == n.kind
  {
    hide ContainsRead, AnyRead, IsReadQuery, IsNoTable, BecomesConstant, IsStoredViewLiteral, KidScope, Partly;
    if n.kind.Cte? && n.kids != [] {
      var r := Rewrite(n, Binding, scope, decide);
      DefinitionRewritten(n, scope, decide);
      ValueClassified(n.kids[0], scope, decide);
      QueryIsNoTable(n.kids[0], scope, decide);
      NameApart(at, n.kind.name);
    }
  }

  lemma DefinitionRewritten(n: Node, scope: Scope, decide: Target -> Decision)
    requires n.kind.Cte? && n.kids != []
    ensures var r := Rewrite(n, Binding, scope, decide);
      r.kind == n.kind && r.kids != [] && r.kids[0] == Rewrite(n.kids[0], Scalar, scope, decide)
  {
    hide ContainsRead, AnyRead, IsReadQuery;
    KidRewritten(n, Binding, scope, decide, |n.kids|, 0);
  }

  /** Neither a query nor a constant can become a constant. */
  lemma {:induction false} QueryIsNoTable(n: Node, scope: Scope, decide: Target -> Decision)
    ensures IsReadQuery(n) ==> IsNoTable(n)
    ensures IsNoTable(n) ==> !BecomesConstant(n, scope, decide)
    decreases n
  {
    hide ContainsName, NameStays, KidScope;
    if n.kind.Paren? && n.kids != [] {
      QueryIsNoTable(n.kids[0], KidScope(n, Scalar, scope, 0), decide);
    }
  }

  /** Binding a name and undoing it are different scopes. */
  lemma NameApart(at: Scope, name: string)
    ensures at.(aliases := at.aliases + {name}) != at.(ctes := at.ctes - {name}, aliases := at.aliases - {name})
  {
    assert name in at.aliases + {name} && name !in at.aliases - {name};
  }

  /** Nothing else becomes a definition. */
  lemma NoDefinition(n: Node, scope: Scope, decide: Target -> Decision, at: Scope)
    requires !n.kind.Cte?
    ensures Declare(at, Rewrite(n, Scalar, scope, decide)) == Declare(at, n) == at
    ensures !Rewrite(n, Scalar, scope, decide).kind.Cte?
  {
  }

  // ---------------------------------------------------------------------------------------
  // The scopes survive

  /** Only the first definitions matter. */
  lemma {:induction false} DeclareFirstLocal(at: Scope, a: seq<Node>, b: seq<Node>, m: nat)
    requires m <= |a| && m <= |b| && forall j :: 0 <= j < m ==> a[j] == b[j]
    ensures DeclareFirst(at, a, m) == DeclareFirst(at, b, m)
  {
    hide Declare;
    if m > 0 {
      DeclareFirstLocal(at, a, b, m - 1);
    }
  }

  /** The scope definition i is rewritten in, once those before it declare what they declared. */
  lemma DefinitionScope(n: Node, role: Role, scope: Scope, decide: Target -> Decision, i: nat)
    requires n.kind.With? && i < |n.kids|
    requires DeclareFirst(scope, RewriteKids(n, role, scope, decide, i), i) == DeclareFirst(scope, n.kids, i)
    ensures PassedScope(n, role, scope, decide, i) == KidScope(n, role, scope, i)
  {
    hide Declare, Rewrite, RewriteKids, DeclareFirst;
    var done := RewriteKids(n, role, scope, decide, i);
    if !n.kind.recursive {
      assert Partly(n, done).kids == done + n.kids[i..];
      DeclareFirstLocal(scope, done + n.kids[i..], done, i);
    }
  }

  /** Definitions that do not become aliases declare after rewriting what they declared. */
  lemma {:induction false} DeclarationsKept(n: Node, role: Role, scope: Scope, decide: Target -> Decision, m: nat)
    requires n.kind.With? && Formed(n) && m <= |n.kids| && KeepsBindings(n, scope, decide)
    ensures DeclareFirst(scope, RewriteKids(n, role, scope, decide, m), m) == DeclareFirst(scope, n.kids, m)
    decreases m
  {
    hide Declare, Rewrite, RewriteKids, BecomesAlias, KeepsBindings, PassedScope, KidScope;
    if m > 0 {
      var i := m - 1;
      var all, at := RewriteKids(n, role, scope, decide, m), DeclareFirst(scope, n.kids, i);
      DeclarationsKept(n, role, scope, decide, i);
      KidRewritten(n, role, scope, decide, m, i);
      DeclareFirstLocal(scope, all, RewriteKids(n, role, scope, decide, i), i);
      DefinitionScope(n, role, scope, decide, i);
      DefinitionStep(n, role, scope, decide, i);
    }
  }

  lemma DefinitionStep(n: Node, role: Role, scope: Scope, decide: Target -> Decision, i: nat)
    requires n.kind.With? && Formed(n) && i < |n.kids| && KeepsBindings(n, scope, decide)
    requires PassedScope(n, role, scope, decide, i) == KidScope(n, role, scope, i)
    ensures var at := DeclareFirst(scope, n.kids, i); Declare(at, RewrittenField(n, role, scope, decide, i)) == Declare(at, n.kids[i])
  {
    hide Declare, Rewrite, BecomesAlias, PassedScope, DeclareFirst;
    var c, passed, at := n.kids[i], PassedScope(n, role, scope, decide, i), DeclareFirst(scope, n.kids, i);
    assert KidScope(n, role, scope, i) == KidScope(n, Bindings, scope, i);
    if c.kind.Cte? {
      DefinitionKept(c, passed, decide, at);
    } else {
      NoDefinition(c, passed, decide, at);
    }
  }

  /** The rewritten WITH of a query leaves the scope the written one leaves. */
  lemma WithKept(n: Node, role: Role, scope: Scope, decide: Target -> Decision)
    requires Formed(n) && n.kids != [] && (n.kind.Select? || n.kind.SetOperation?) && OwnWithKept(n, scope, decide)
    requires n.kids[0].kind != With(true)
    ensures var base := QueryScope(scope, n.kind.marked);
      AfterWith(base, RewrittenField(n, role, scope, decide, 0)) == AfterWith(base, n.kids[0])
  {
    hide Declare, Asked, IsHandled, KeepsBindings, RewriteKids, DeclareFirst;
    var w, base := n.kids[0], QueryScope(scope, n.kind.marked);
    assert RewriteKids(n, role, scope, decide, 0) == [];
    assert RewrittenField(n, role, scope, decide, 0) == Rewrite(w, Bindings, base, decide);
    if w.kind.With? {
      DeclarationsKept(w, Bindings, base, decide, |w.kids|);
    }
  }

  /** Hence the scope of a field is the one it has in the statement as written. */
  lemma ScopeKept(n: Node, role: Role, scope: Scope, decide: Target -> Decision, i: nat)
    requires Formed(n) && i < |n.kids| && OwnWithKept(n, scope, decide)
    ensures PassedScope(n, role, scope, decide, i) == KidScope(n, role, scope, i)
  {
    hide Rewrite, Declare, Asked, IsHandled, RewriteKids, RewrittenField, KeepsBindings, DeclareFirst;
    var done := RewriteKids(n, role, scope, decide, i);
    if n.kind == With(false) {
      DeclarationsKept(n, role, scope, decide, i);
      DefinitionScope(n, role, scope, decide, i);
    } else if (n.kind.Select? || n.kind.SetOperation?) && i > 0 && n.kids[0].kind != With(true) {
      hide AfterWith, SelectScope;
      KidRewritten(n, role, scope, decide, i, 0);
      WithKept(n, role, scope, decide);
    }
  }

  // ---------------------------------------------------------------------------------------
  // decide is asked about exactly what is collected

  /** Where bindings are kept, every question is what it is without decisions. */
  lemma {:induction false} AskedIsWalked(n: Node, role: Role, scope: Scope, decide: Target -> Decision)
    requires Formed(n) && Settled(n, role, scope, decide)
    ensures Asked(n, role, scope, decide) == Walk(n, role, scope)
    decreases n, |n.kids| + 2
  {
    hide ContainsRead, AnyRead, KidScope, Partly, OwnWithKept;
    if ModeOf(n, role).Visit? {
      forall i | 0 <= i < |n.kids|
        ensures PassedScope(n, role, scope, decide, i) == KidScope(n, role, scope, i)
        ensures VisitsKid(n, role, i) ==>
          Asked(n.kids[i], KidRole(n, role, i), KidScope(n, role, scope, i), decide) == Walk(n.kids[i], KidRole(n, role, i), KidScope(n, role, scope, i))
      {
        hide Asked, Walk, KidRole, PassedScope;
        ScopeKept(n, role, scope, decide, i);
        if VisitsKid(n, role, i) {
          AskedIsWalked(n.kids[i], KidRole(n, role, i), KidScope(n, role, scope, i), decide);
        }
      }
      SameFields(n, role, scope, decide, 0);
    }
  }

  lemma {:induction false} SameFields(n: Node, role: Role, scope: Scope, decide: Target -> Decision, i: nat)
    requires i <= |n.kids|
    requires forall k :: 0 <= k < |n.kids| ==> PassedScope(n, role, scope, decide, k) == KidScope(n, role, scope, k)
    requires forall k :: 0 <= k < |n.kids| && VisitsKid(n, role, k) ==>
      Asked(n.kids[k], KidRole(n, role, k), KidScope(n, role, scope, k), decide) == Walk(n.kids[k], KidRole(n, role, k), KidScope(n, role, scope, k))
    ensures AskedFrom(n, role, scope, decide, i) == WalkFrom(n, role, scope, i)
    decreases |n.kids| - i
  {
    hide KidScope, Partly, VisitsKid, KidRole, Asked, Walk, RewriteKids, Emitted, EmitsAt;
    if i < |n.kids| {
      SameFields(n, role, scope, decide, i + 1);
      assert PassedScope(n, role, scope, decide, i) == KidScope(n, role, scope, i);
    }
  }

  /**
   RewriteSelectTables asks about exactly the references CollectSelectTables returns, in its order, and gives up
   where it does, provided no definition of a WITH that is not recursive becomes a value alias.
   */
  lemma AsksWhatIsCollected(root: Node, role: Role, entry: Scope, decide: Target -> Decision)
    requires Formed(root) && Settled(root, role, entry, decide)
    ensures Asked(root, role, entry, decide) == Walk(root, role, entry)
  {
    AskedIsWalked(root, role, entry, decide);
  }
}
