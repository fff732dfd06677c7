/** When the walk gives up: exactly at a read it would otherwise not have seen. */
module ReadCoverage {
  import opened ReadTree
  import opened ReadWalk
  import opened FreeNames

  /** A read stands at the end of the path, through fields of any kind, outside every sealed subquery. */
  predicate ReadAt(n: Node, path: seq<nat>)
    decreases |path|
  {
    !IsSealed(n) &&
    if path == [] then IsRead(n.kind) else path[0] < |Children(n)| && ReadAt(Children(n)[path[0]], path[1..])
  }

  /** The walk refuses the node: an unmodelled node, or unknown fields, with a read inside. */
  predicate Refuses(n: Node, role: Role)
  {
    || (ModeOf(n, role).Guard? && ContainsRead(n))
    || (ModeOf(n, role).Visit? && Checks(n, role) && AnyRead(n, n.unknown))
  }

  predicate RefusesAt(n: Node, role: Role, path: seq<nat>)
  {
    Reaches(n, role, path) && Refuses(NodeAt(n, role, path), RoleAt(n, role, path))
  }

  // ---------------------------------------------------------------------------------------
  // containsReadBearingNode finds exactly the reads there are

  lemma {:induction false} FoundReadIsThere(n: Node) returns (path: seq<nat>)
    requires ContainsRead(n)
    ensures ReadAt(n, path)
    decreases n
  {
    if IsRead(n.kind) {
      path := [];
    } else {
      var i := ChildWithRead(n);
      var rest := FoundReadIsThere(Children(n)[i]);
      path := [i] + rest;
      assert path[1..] == rest;
    }
  }

  lemma ChildWithRead(n: Node) returns (i: nat)
    requires ContainsRead(n) && !IsRead(n.kind)
    ensures i < |Children(n)| && Children(n)[i] < n && ContainsRead(Children(n)[i])
  {
    if AnyRead(n, n.kids) {
      i :| 0 <= i < |n.kids| && ContainsRead(n.kids[i]);
    } else if AnyRead(n, n.unknown) {
      var k :| 0 <= k < |n.unknown| && ContainsRead(n.unknown[k]);
      i := |n.kids| + k;
      assert Children(n)[i] == n.unknown[k];
    } else {
      var k :| 0 <= k < |n.ignored| && ContainsRead(n.ignored[k]);
      i := |n.kids| + |n.unknown| + k;
      assert Children(n)[i] == n.ignored[k];
    }
  }

  lemma {:induction false} ReadIsFound(n: Node, path: seq<nat>)
    requires ReadAt(n, path)
    ensures ContainsRead(n)
    decreases |path|
  {
    if path != [] {
      ReadIsFound(Children(n)[path[0]], path[1..]);
      InOneBag(n, path[0]);
    }
  }

  /** A field is one of the visited, the unknown or the ignored ones. */
  lemma InOneBag(n: Node, i: nat)
    requires i < |Children(n)| && ContainsRead(Children(n)[i])
    ensures i < |n.kids| ==> Children(n)[i] == n.kids[i] && AnyRead(n, n.kids)
    ensures i >= |n.kids| ==> AnyRead(n, n.unknown) || AnyRead(n, n.ignored)
  {
    hide ContainsRead;
    if i < |n.kids| {
    } else if i < |n.kids| + |n.unknown| {
      assert Children(n)[i] == n.unknown[i - |n.kids|];
    } else {
      assert Children(n)[i] == n.ignored[i - |n.kids| - |n.unknown|];
    }
  }

  // ---------------------------------------------------------------------------------------
  // When the walk gives up

  /** Going down one field. */
  lemma Descend(n: Node, role: Role, i: nat, path: seq<nat>)
    requires ModeOf(n, role).Visit? && i < |n.kids| && VisitsKid(n, role, i)
    ensures Reaches(n, role, [i] + path) <==> Reaches(n.kids[i], KidRole(n, role, i), path)
    ensures Reaches(n, role, [i] + path) ==>
      && NodeAt(n, role, [i] + path) == NodeAt(n.kids[i], KidRole(n, role, i), path)
      && RoleAt(n, role, [i] + path) == RoleAt(n.kids[i], KidRole(n, role, i), path)
  {
    assert ([i] + path)[1..] == path;
  }

  lemma {:induction false} GivingUpIsAtARead(n: Node, role: Role, scope: Scope) returns (path: seq<nat>)
    requires Walk(n, role, scope).None?
    ensures RefusesAt(n, role, path)
    decreases n, |n.kids| + 1
  {
    hide ContainsRead, AnyRead, KidScope;
    if Refuses(n, role) {
      path := [];
    } else {
      path := FieldGivesUp(n, role, scope, 0);
    }
  }

  lemma {:induction false} FieldGivesUp(n: Node, role: Role, scope: Scope, i: nat) returns (path: seq<nat>)
    requires ModeOf(n, role).Visit? && i <= |n.kids| && WalkFrom(n, role, scope, i).None?
    ensures RefusesAt(n, role, path)
    decreases n, |n.kids| - i
  {
    hide ContainsRead, AnyRead, KidScope, KidRole, ModeOf, Emitted, Refuses;
    assert i < |n.kids|;
    if VisitsKid(n, role, i) && Walk(n.kids[i], KidRole(n, role, i), KidScope(n, role, scope, i)).None? {
      var rest := GivingUpIsAtARead(n.kids[i], KidRole(n, role, i), KidScope(n, role, scope, i));
      path := [i] + rest;
      Descend(n, role, i, rest);
    } else {
      path := FieldGivesUp(n, role, scope, i + 1);
    }
  }

  lemma {:induction false} RefusalGivesUp(n: Node, role: Role, scope: Scope, path: seq<nat>)
    requires RefusesAt(n, role, path)
    ensures Walk(n, role, scope).None?
    decreases |path|
  {
    hide ContainsRead, AnyRead, KidScope, KidRole;
    if path != [] {
      var i := path[0];
      assert path == [i] + path[1..];
      Descend(n, role, i, path[1..]);
      RefusalGivesUp(n.kids[i], KidRole(n, role, i), KidScope(n, role, scope, i), path[1..]);
      FieldFails(n, role, scope, 0, i);
    }
  }

  lemma {:induction false} FieldFails(n: Node, role: Role, scope: Scope, k: nat, i: nat)
    requires k <= i < |n.kids| && VisitsKid(n, role, i)
    requires Walk(n.kids[i], KidRole(n, role, i), KidScope(n, role, scope, i)).None?
    ensures WalkFrom(n, role, scope, k).None?
    decreases i - k
  {
    hide KidScope, KidRole, VisitsKid, Walk;
    if k < i {
      FieldFails(n, role, scope, k + 1, i);
    }
  }

  /** The walk gives up exactly when some node it goes to must be refused. */
  lemma GivesUpExactly(root: Node)
    ensures Collect(root).None? <==> exists path :: RefusesAt(root, Scalar, path)
  {
    if Collect(root).None? {
      var path := GivingUpIsAtARead(root, Scalar, NO_SCOPE);
    }
    if path :| RefusesAt(root, Scalar, path) {
      RefusalGivesUp(root, Scalar, NO_SCOPE, path);
    }
  }
}
