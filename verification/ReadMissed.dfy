/**
 What a walk that does not give up can have missed, read by read: those below a field it knows and does not
 walk, below an unknown field in a position it does not check, or in an operand taken as a name.
 */
module ReadMissed {
  import opened Common
  import opened ReadTree
  import opened ReadWalk
  import opened ReadFields

  /** A read stands at the end of the path, outside every sealed subquery. */
  predicate HoldsRead(raw: Raw, path: seq<nat>)
    decreases |path|
  {
    && !(raw.kind.Subquery? && raw.kind.sealed)
    && if path == [] then IsRead(raw.kind) else path[0] < |raw.fields| && HoldsRead(raw.fields[path[0]].value, path[1..])
  }

  /** The field is walked where the object stands in that role. */
  predicate Enters(raw: Raw, role: Role, f: nat)
  {
    && f < |raw.fields| && raw.fields[f].key in WalkedKeys(raw)
    && VisitsKid(Decode(raw), role, KidIndex(raw, f))
  }

  /** The role the field is walked in. */
  function FieldRole(raw: Raw, role: Role, f: nat): Role
    requires IsTree(raw) && Enters(raw, role, f)
  {
    WalkedFieldIsKid(raw, f);
    KidRole(Decode(raw), role, KidIndex(raw, f))
  }

  /** The walk goes to the end of the path and reads the fields there. */
  predicate WalkedTo(raw: Raw, role: Role, path: seq<nat>)
    requires IsTree(raw)
    decreases |path|
  {
    && ModeOf(Decode(raw), role).Visit?
    && (path != [] ==> Enters(raw, role, path[0]) && WalkedTo(raw.fields[path[0]].value, FieldRole(raw, role, path[0]), path[1..]))
  }

  /** A position whose unknown fields are not looked at: most sources, a WITH without definitions, KEEP, a bounded frame. */
  predicate IsUnchecked(raw: Raw, role: Role)
  {
    !Checks(Decode(raw), role)
  }

  /** An operand taken as a table's name or a parameter: of an IN, or the second argument of a callable IN. */
  predicate IsNamedOperand(raw: Raw, role: Role, f: nat)
    requires f < |raw.fields| && raw.fields[f].key in WalkedKeys(raw)
  {
    || (raw.kind.In? && !raw.kind.operand.Value? && KidIndex(raw, f) == 1)
    || (raw.kind.Function? && role.Scalar? && raw.kind.named.Some? && KidIndex(raw, f) > 0)
  }

  /** Every other walked field is entered. */
  lemma EntersUnlessNamed(raw: Raw, role: Role, f: nat)
    requires f < |raw.fields| && raw.fields[f].key in WalkedKeys(raw)
    ensures Enters(raw, role, f) <==> !IsNamedOperand(raw, role, f)
  {
    hide KidIndex, Gathered, Others;
    assert raw.kind.Table? || raw.kind.TableParameter? ==> WalkedKeys(raw) == [];
  }

  /** A step of the path leads into a field that is passed over where it stands, or to an object that is not looked into. */
  predicate PassedOver(raw: Raw, role: Role, path: seq<nat>)
    requires IsTree(raw)
    decreases |path|
  {
    || ModeOf(Decode(raw), role).Done?
    || (path != [] && path[0] < |raw.fields| &&
         var f, key := path[0], raw.fields[path[0]].key;
         if key !in WalkedKeys(raw) then key in SilentKeys(raw) || IsUnchecked(raw, role)
         else if IsNamedOperand(raw, role, f) then true
         else (EntersUnlessNamed(raw, role, f); PassedOver(raw.fields[f].value, FieldRole(raw, role, f), path[1..])))
  }

  // ---------------------------------------------------------------------------------------
  // Reads of the object are reads of the decoded node

  lemma {:induction false} ReadIsDecoded(raw: Raw, path: seq<nat>)
    requires IsTree(raw) && HoldsRead(raw, path)
    ensures ContainsRead(Decode(raw))
    decreases |path|
  {
    hide WalkedKeys, SilentKeys, KidIndex, Others, Gathered;
    if path == [] {
      assert IsRead(DecodedKind(raw)) && !IsSealed(Decode(raw));
    } else {
      var f := path[0];
      ReadIsDecoded(raw.fields[f].value, path[1..]);
      FieldIsDecoded(raw, f);
    }
  }

  /** A field that holds a read makes one of the three lists hold one. */
  lemma FieldIsDecoded(raw: Raw, f: nat)
    requires IsTree(raw) && f < |raw.fields| && ContainsRead(Decode(raw.fields[f].value))
    ensures var n, key := Decode(raw), raw.fields[f].key;
      if key in WalkedKeys(raw) then AnyRead(n, n.kids) else if key in SilentKeys(raw) then AnyRead(n, n.ignored) else AnyRead(n, n.unknown)
  {
    hide ContainsRead, WalkedKeys, SilentKeys, KidIndex, Others, Gathered, IsTree;
    var n, key := Decode(raw), raw.fields[f].key;
    if key in WalkedKeys(raw) {
      WalkedFieldIsKid(raw, f);
    } else {
      OthersHold(raw, f, |raw.fields|);
      var list := if key in SilentKeys(raw) then n.ignored else n.unknown;
      var i :| 0 <= i < |list| && list[i] == Decode(raw.fields[f].value);
      assert ContainsRead(list[i]);
    }
  }

  // ---------------------------------------------------------------------------------------
  // A read is missed exactly when it is passed over

  lemma {:induction false} MissedBelow(raw: Raw, role: Role, scope: Scope, path: seq<nat>)
    requires IsTree(raw) && HoldsRead(raw, path) && Walk(Decode(raw), role, scope).Some?
    ensures WalkedTo(raw, role, path) <==> !PassedOver(raw, role, path)
    decreases |path|
  {
    hide ContainsRead, WalkedKeys, SilentKeys, KidIndex, Decode, KidScope, KidRole, WalkFrom, VisitsKid, IsRead, Checks, AnyRead,
      IsNamedOperand;
    var n := Decode(raw);
    ReadIsDecoded(raw, path);
    if ModeOf(n, role).Visit? && path != [] {
      var f := path[0];
      ReadIsDecoded(raw.fields[f].value, path[1..]);
      FieldIsDecoded(raw, f);
      if raw.fields[f].key in WalkedKeys(raw) {
        EntersUnlessNamed(raw, role, f);
      }
      if Enters(raw, role, f) {
        var i := KidIndex(raw, f);
        WalkedFieldIsKid(raw, f);
        FieldsAreWalked(n, role, scope, 0, i);
        MissedBelow(raw.fields[f].value, FieldRole(raw, role, f), KidScope(n, role, scope, i), path[1..]);
      }
    }
  }

  lemma {:induction false} FieldsAreWalked(n: Node, role: Role, scope: Scope, k: nat, i: nat)
    requires k <= i < |n.kids| && VisitsKid(n, role, i) && WalkFrom(n, role, scope, k).Some?
    ensures Walk(n.kids[i], KidRole(n, role, i), KidScope(n, role, scope, i)).Some?
    decreases i - k
  {
    hide KidScope, KidRole, VisitsKid, Walk;
    if k < i {
      FieldsAreWalked(n, role, scope, k + 1, i);
    }
  }

  /**
   When the walk of a statement does not give up, a read of it is missed if and only if the way to it leads through
   a known field that is not walked, an unknown field in an unchecked position, or an operand taken as a name.
   */
  lemma MissedExactly(root: Raw, path: seq<nat>)
    requires IsTree(root) && Collect(Decode(root)).Some? && HoldsRead(root, path)
    ensures !WalkedTo(root, Scalar, path) <==> PassedOver(root, Scalar, path)
  {
    MissedBelow(root, Scalar, NO_SCOPE, path);
  }

  // ---------------------------------------------------------------------------------------
  // An accepted statement with a missed read

  const QUERY := Raw(Select({}, false), [])

  /** A SELECT whose OPTION holds another SELECT. */
  const OPTIONED := Raw(Select({}, false), [Field("option", QUERY)])

  lemma {:induction false} OnlyBlanks(raw: Raw, m: nat)
    requires raw.kind.Select? && m <= |WalkedKeys(raw)|
    requires forall f :: 0 <= f < |raw.fields| ==> raw.fields[f].key !in WalkedKeys(raw)
    ensures forall i :: 0 <= i < |Gathered(raw, m)| ==> Gathered(raw, m)[i] == BLANK
    decreases m
  {
    hide WalkedKeys, Decode;
    if m > 0 {
      OnlyBlanks(raw, m - 1);
      NonePicked(raw, WalkedKeys(raw)[m - 1], |raw.fields|);
    }
  }

  lemma {:induction false} NonePicked(raw: Raw, key: string, m: nat)
    requires m <= |raw.fields| && forall f :: 0 <= f < |raw.fields| ==> raw.fields[f].key != key
    ensures Picked(raw, key, m) == []
    decreases m
  {
    hide Decode;
    if m > 0 {
      NonePicked(raw, key, m - 1);
    }
  }

  lemma {:induction false} BlanksAreWalked(n: Node, scope: Scope, i: nat)
    requires n.kind.Select? && i <= |n.kids| && forall k :: 0 <= k < |n.kids| ==> n.kids[k] == BLANK
    ensures WalkFrom(n, Scalar, scope, i) == Some([])
    decreases |n.kids| - i
  {
    hide KidScope, KidRole, ContainsRead;
    var none: seq<Ref> := [];
    assert Emitted(n, Scalar, scope) == none;
    if i < |n.kids| {
      BlanksAreWalked(n, scope, i + 1);
      assert KidRole(n, Scalar, i).Bindings? || KidRole(n, Scalar, i).Source? || KidRole(n, Scalar, i).Scalar? by { SelectRoles(n, i); }
      assert Walk(n.kids[i], KidRole(n, Scalar, i), KidScope(n, Scalar, scope, i)) == Some(none);
      assert Under(i, none) == none && none + none + none == none;
    }
  }

  lemma SelectRoles(n: Node, i: nat)
    requires n.kind.Select? && i < |n.kids|
    ensures !KidRole(n, Scalar, i).Binding?
  {
  }

  lemma OptionIsSilent()
    ensures "option" in SilentKeys(OPTIONED) && "option" !in WalkedKeys(OPTIONED)
  {
  }

  lemma OptionIsIgnored()
    ensures Decode(OPTIONED).unknown == []
  {
    OptionIsSilent();
    hide WalkedKeys, SilentKeys, Gathered;
    assert Others(OPTIONED, false, 0) == [];
    assert Others(OPTIONED, false, 1) == [];
  }

  /** It is accepted without a reference, though it holds a read. */
  lemma OptionIsMissed()
    ensures Collect(Decode(OPTIONED)) == Some([])
    ensures HoldsRead(OPTIONED, [0]) && PassedOver(OPTIONED, Scalar, [0]) && !WalkedTo(OPTIONED, Scalar, [0])
  {
    hide WalkedKeys, SilentKeys, WalkFrom, Gathered, Others, KidIndex;
    var n := Decode(OPTIONED);
    OptionIsSilent();
    OptionIsIgnored();
    OnlyBlanks(OPTIONED, |WalkedKeys(OPTIONED)|);
    BlanksAreWalked(n, NO_SCOPE, 0);
    assert Walk(n, Scalar, NO_SCOPE) == Some([]);
    assert HoldsRead(QUERY, []) && [0][1..] == [];
    MissedExactly(OPTIONED, [0]);
  }
}
