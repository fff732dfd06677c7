/**
 Exactly when a rewritten statement is left with the decided names. With every rename qualified, collecting it again
 finds each kept and each renamed reference at its place if and only if no kept name is bound by the second walk and
 no renamed one was bound, and so left alone, while rewriting.
 */
module ReadCapture {
  import opened Common
  import opened ReadTree
  import opened ReadWalk
  import opened ReadRewrite
  import opened ReadDecided
  import opened ReadAgain
  import opened ReadResult

  // ---------------------------------------------------------------------------------------
  // The decided names

  /** Renames that give a database and a name, and no query put into an infix IN. */
  predicate Qualifies(refs: seq<Ref>, decide: Target -> Decision)
  {
    forall k :: 0 <= k < |refs| ==>
      var d := decide(refs[k].target);
      (d.Rename? ==> d.db != "" && d.table != "") && !(d.Inline? && refs[k].site.Infix?)
  }

  /** The decided names at their places: kept and renamed references, with those read through remote() or a query gone. */
  function DecidedPlaces(refs: seq<Ref>, decide: Target -> Decision): seq<Place>
  {
    if refs == [] then []
    else
      (match decide(refs[0].target)
       case Skip => [Place(refs[0].path, refs[0].site, refs[0].target)]
       case Rename(db, table) => [Place(refs[0].path, refs[0].site, Renamed(refs[0].site, refs[0].target, db, table))]
       case _ => []) + DecidedPlaces(refs[1..], decide)
  }

  /** The decision on the node's own reference, if it has one as written, takes: a rename is asked for, a kept name stays free. */
  predicate OwnHolds(n: Node, role: Role, written: Scope, scope: Scope, again: Scope, decide: Target -> Decision)
  {
    Mention(n, role).Some? ==>
      var (site, t) := Mention(n, role).value;
      !IsBound(site, t, written) ==>
        match decide(t)
        case Skip => !IsBound(site, t, again)
        case Rename(_, _) => !IsBound(site, t, scope)
        case _ => true
  }

  /** So does every decision: written, scope and again are the scopes as written, while rewriting and in a second walk. */
  predicate DecisionsHold(n: Node, role: Role, written: Scope, scope: Scope, again: Scope, decide: Target -> Decision)
    decreases n
  {
    ModeOf(n, role).Visit? ==>
      && OwnHolds(n, role, written, scope, again, decide)
      && forall i :: 0 <= i < |n.kids| && VisitsKid(n, role, i) ==>
        DecisionsHold(n.kids[i], KidRole(n, role, i), KidScope(n, role, written, i), DecidedScope(n, role, scope, decide, i),
                      AgainScope(n, role, again, scope, decide, i), decide)
  }

  predicate FieldsHold(n: Node, role: Role, written: Scope, scope: Scope, again: Scope, decide: Target -> Decision, i: nat)
  {
    forall k :: i <= k < |n.kids| && VisitsKid(n, role, k) ==>
      DecisionsHold(n.kids[k], KidRole(n, role, k), KidScope(n, role, written, k), DecidedScope(n, role, scope, decide, k),
                    AgainScope(n, role, again, scope, decide, k), decide)
  }

  // ---------------------------------------------------------------------------------------
  // Lists of references

  lemma {:induction false} DecidedConcat(a: seq<Ref>, b: seq<Ref>, decide: Target -> Decision)
    ensures DecidedPlaces(a + b, decide) == DecidedPlaces(a, decide) + DecidedPlaces(b, decide)
  {
    if a == [] {
      assert a + b == b;
    } else {
      assert (a + b)[1..] == a[1..] + b;
      DecidedConcat(a[1..], b, decide);
    }
  }

  lemma {:induction false} DecidedUnder(i: nat, refs: seq<Ref>, decide: Target -> Decision)
    ensures DecidedPlaces(Under(i, refs), decide) == Below([i], DecidedPlaces(refs, decide))
  {
    if refs != [] {
      DecidedUnder(i, refs[1..], decide);
      assert Under(i, refs)[1..] == Under(i, refs[1..]);
      var first := DecidedPlaces([refs[0]], decide);
      assert refs == [refs[0]] + refs[1..] && Under(i, refs) == [Under(i, refs)[0]] + Under(i, refs)[1..];
      DecidedConcat([refs[0]], refs[1..], decide);
      DecidedConcat([Under(i, refs)[0]], Under(i, refs)[1..], decide);
      assert DecidedPlaces([Under(i, refs)[0]], decide) == Below([i], first);
      BelowConcat([i], first, DecidedPlaces(refs[1..], decide));
    }
  }

  lemma QualifiesParts(a: seq<Ref>, i: nat, kid: seq<Ref>, rest: seq<Ref>, decide: Target -> Decision)
    requires Qualifies(a + Under(i, kid) + rest, decide)
    ensures Qualifies(a, decide) && Qualifies(kid, decide) && Qualifies(rest, decide)
  {
    var all := a + Under(i, kid) + rest;
    assert forall k :: 0 <= k < |a| ==> all[k] == a[k];
    assert forall k :: 0 <= k < |kid| ==> all[|a| + k] == Under(i, kid)[k];
    assert forall k :: 0 <= k < |rest| ==> all[|a| + |kid| + k] == rest[k];
  }

  lemma {:induction false} BodiesConcat(a: seq<Ref>, i: nat, kid: seq<Ref>, rest: seq<Ref>, decide: Target -> Decision)
    requires BodiesWalk(a, decide) && BodiesWalk(kid, decide) && BodiesWalk(rest, decide)
    ensures BodiesWalk(a + Under(i, kid) + rest, decide)
  {
    hide Walk;
  }

  // ---------------------------------------------------------------------------------------
  // One node

  /** The node's own reference ends as decided exactly when the decision on it takes. */
  lemma OwnTaken(n: Node, role: Role, written: Scope, scope: Scope, again: Scope, decide: Target -> Decision)
    requires Within(written, scope) && Within(scope, again) && Qualifies(Emitted(n, role, written), decide)
    ensures FoundAll(EmittedAgain(n, role, scope, again), decide) == DecidedPlaces(Emitted(n, role, written), decide) <==>
      OwnHolds(n, role, written, scope, again, decide)
    ensures OwnOnly(FoundAll(EmittedAgain(n, role, scope, again), decide), true)
    ensures OwnOnly(DecidedPlaces(Emitted(n, role, written), decide), true)
    ensures BodiesWalk(EmittedAgain(n, role, scope, again), decide)
  {
    hide Mention, Within, Walk, IsBound;
    NothingFound(decide);
    if Mention(n, role).Some? {
      var (site, t) := Mention(n, role).value;
      WithinBinds(written, scope, site, t);
      WithinBinds(scope, again, site, t);
      var own, later := Ref([], site, t, written), Ref([], site, t, again);
      FoundOne(later, decide);
      DecidedOne(own, decide);
      if !IsBound(site, t, written) {
        assert Emitted(n, role, written) == [own];
        assert [own][0] == own;
        if decide(t).Rename? {
          QualifiedIsFree(site, t, decide(t).db, decide(t).table, again);
        }
      }
    }
  }

  lemma DecidedOne(ref: Ref, decide: Target -> Decision)
    ensures DecidedPlaces([ref], decide) ==
      match decide(ref.target)
      case Skip => [Place(ref.path, ref.site, ref.target)]
      case Rename(db, table) => [Place(ref.path, ref.site, Renamed(ref.site, ref.target, db, table))]
      case _ => []
  {
    assert [ref][1..] == [];
  }

  /** A qualified name is bound nowhere. */
  lemma QualifiedIsFree(site: Site, t: Target, db: string, table: string, scope: Scope)
    requires db != ""
    ensures !IsBound(site, Renamed(site, t, db, table), scope)
  {
  }

  // ---------------------------------------------------------------------------------------
  // The whole walk

  lemma {:induction false} TakenExactly(n: Node, role: Role, written: Scope, scope: Scope, again: Scope, decide: Target -> Decision)
    requires Within(written, scope) && Within(scope, again)
    requires Walk(n, role, written).Some? && Qualifies(Walk(n, role, written).value, decide)
    ensures FoundAll(Again(n, role, scope, again, decide), decide) == DecidedPlaces(Walk(n, role, written).value, decide) <==>
      DecisionsHold(n, role, written, scope, again, decide)
    ensures BodiesWalk(Again(n, role, scope, again, decide), decide)
    decreases n, |n.kids| + 1
  {
    hide ContainsRead, AnyRead, KidScope, DecidedScope, AgainScope, OwnHolds, FoundAll, DecidedPlaces, BodiesWalk, Qualifies, Within, AgainFrom, WalkFrom;
    if ModeOf(n, role).Visit? {
      FieldsTaken(n, role, written, scope, again, decide, 0);
    } else {
      NothingTaken(decide);
    }
  }

  lemma NothingTaken(decide: Target -> Decision)
    ensures FoundAll([], decide) == [] == DecidedPlaces([], decide) && BodiesWalk([], decide)
  {
  }

  lemma {:induction false} FieldsTaken(n: Node, role: Role, written: Scope, scope: Scope, again: Scope, decide: Target -> Decision, i: nat)
    requires Within(written, scope) && Within(scope, again)
    requires i <= |n.kids| && WalkFrom(n, role, written, i).Some? && Qualifies(WalkFrom(n, role, written, i).value, decide)
    ensures FoundAll(AgainFrom(n, role, scope, again, decide, i), decide) == DecidedPlaces(WalkFrom(n, role, written, i).value, decide) <==>
      (i <= EmitsAt(n) ==> OwnHolds(n, role, written, scope, again, decide)) && FieldsHold(n, role, written, scope, again, decide, i)
    ensures PlacesFrom(FoundAll(AgainFrom(n, role, scope, again, decide, i), decide), i <= EmitsAt(n), i)
    ensures PlacesFrom(DecidedPlaces(WalkFrom(n, role, written, i).value, decide), i <= EmitsAt(n), i)
    ensures BodiesWalk(AgainFrom(n, role, scope, again, decide, i), decide)
    decreases n, |n.kids| - i
  {
    hide OwnOnly, FoundAll, DecidedPlaces, AgainFrom, WalkFrom, OwnHolds, FieldsHold, DecisionsHold, BodiesWalk, Qualifies, Within, EmitsAt, Emitted, EmittedAgain,
      Walk, Again, KidScope, DecidedScope, AgainScope, KidRole, VisitsKid, PlacesFrom, Under;
    if i < |n.kids| {
      WalkStep(n, role, written, i);
      var own, kid, rest := OwnAt(n, role, written, i), FieldWalk(n, role, written, i).value, WalkFrom(n, role, written, i + 1).value;
      QualifiesParts(own, i, kid, rest, decide);
      FieldsTaken(n, role, written, scope, again, decide, i + 1);
      OwnTakenAt(n, role, written, scope, again, decide, i);
      if VisitsKid(n, role, i) {
        DecidedWithin(n, role, written, scope, decide, i);
        AgainWithin(n, role, scope, again, decide, i);
        TakenExactly(n.kids[i], KidRole(n, role, i), KidScope(n, role, written, i), DecidedScope(n, role, scope, decide, i),
                     AgainScope(n, role, again, scope, decide, i), decide);
      } else {
        NothingTaken(decide);
      }
      FromStep(n, role, scope, again, decide, i);
      StepTaken(i, EmitsAt(n), own, kid, rest, OwnAgainAt(n, role, scope, again, i), FieldAgain(n, role, scope, again, decide, i),
                AgainFrom(n, role, scope, again, decide, i + 1), decide);
      HoldsSplit(n, role, written, scope, again, decide, i);
    } else {
      LastWalk(n, role, written);
      LastFrom(n, role, scope, again, decide);
      OwnTakenAt(n, role, written, scope, again, decide, i);
      NoneHold(n, role, written, scope, again, decide, i);
      OwnPlaces(FoundAll(OwnAgainAt(n, role, scope, again, i), decide), i, EmitsAt(n));
      OwnPlaces(DecidedPlaces(OwnAt(n, role, written, i), decide), i, EmitsAt(n));
    }
  }

  lemma LastWalk(n: Node, role: Role, scope: Scope)
    ensures WalkFrom(n, role, scope, |n.kids|) == Some(OwnAt(n, role, scope, |n.kids|)) && EmitsAt(n) <= |n.kids|
  {
    hide Emitted;
  }

  lemma OwnPlaces(places: seq<Place>, i: nat, at: nat)
    requires OwnOnly(places, i == at)
    ensures PlacesFrom(places, i <= at, i)
  {
  }

  /** At position i, where the node's own reference may be due. */
  lemma OwnTakenAt(n: Node, role: Role, written: Scope, scope: Scope, again: Scope, decide: Target -> Decision, i: nat)
    requires Within(written, scope) && Within(scope, again) && Qualifies(OwnAt(n, role, written, i), decide)
    ensures FoundAll(OwnAgainAt(n, role, scope, again, i), decide) == DecidedPlaces(OwnAt(n, role, written, i), decide) <==>
      (i == EmitsAt(n) ==> OwnHolds(n, role, written, scope, again, decide))
    ensures OwnOnly(FoundAll(OwnAgainAt(n, role, scope, again, i), decide), i == EmitsAt(n))
    ensures OwnOnly(DecidedPlaces(OwnAt(n, role, written, i), decide), i == EmitsAt(n))
    ensures BodiesWalk(OwnAgainAt(n, role, scope, again, i), decide)
  {
    hide FoundAll, DecidedPlaces, OwnHolds, BodiesWalk, Qualifies, Within, EmitsAt, Emitted, EmittedAgain;
    NothingTaken(decide);
    if i == EmitsAt(n) {
      OwnTaken(n, role, written, scope, again, decide);
    }
  }

  /** The lists from i on agree when they agree on the node's own reference, on field i and after it. */
  lemma StepTaken(i: nat, at: nat, own: seq<Ref>, kid: seq<Ref>, rest: seq<Ref>, own': seq<Ref>, kid': seq<Ref>, rest': seq<Ref>, decide: Target -> Decision)
    requires OwnOnly(FoundAll(own', decide), i == at)
    requires OwnOnly(DecidedPlaces(own, decide), i == at)
    requires PlacesFrom(DecidedPlaces(rest, decide), i + 1 <= at, i + 1) && PlacesFrom(FoundAll(rest', decide), i + 1 <= at, i + 1)
    requires BodiesWalk(own', decide) && BodiesWalk(kid', decide) && BodiesWalk(rest', decide)
    ensures var found, decided := FoundAll(own' + Under(i, kid') + rest', decide), DecidedPlaces(own + Under(i, kid) + rest, decide);
      && (found == decided <==>
          && FoundAll(own', decide) == DecidedPlaces(own, decide)
          && FoundAll(kid', decide) == DecidedPlaces(kid, decide)
          && FoundAll(rest', decide) == DecidedPlaces(rest, decide))
      && PlacesFrom(found, i <= at, i) && PlacesFrom(decided, i <= at, i)
    ensures BodiesWalk(own' + Under(i, kid') + rest', decide)
  {
    hide OwnOnly, Found, FoundAll, DecidedPlaces, BodiesWalk, Under, Below;
    FoundConcat(own' + Under(i, kid'), rest', decide);
    FoundConcat(own', Under(i, kid'), decide);
    FoundUnder(i, kid', decide);
    DecidedConcat(own + Under(i, kid), rest, decide);
    DecidedConcat(own, Under(i, kid), decide);
    DecidedUnder(i, kid, decide);
    BodiesConcat(own', i, kid', rest', decide);
    var a, b, c := FoundAll(own', decide), FoundAll(kid', decide), FoundAll(rest', decide);
    var d, e, f := DecidedPlaces(own, decide), DecidedPlaces(kid, decide), DecidedPlaces(rest, decide);
    PlacesApart(i, at, a, d, b, e, c, f);
    JoinPlaces(i, at, a, b, c);
    JoinPlaces(i, at, d, e, f);
  }

  lemma JoinPlaces(i: nat, at: nat, own: seq<Place>, kid: seq<Place>, rest: seq<Place>)
    requires OwnOnly(own, i == at)
    requires PlacesFrom(rest, i + 1 <= at, i + 1)
    ensures PlacesFrom(own + Below([i], kid) + rest, i <= at, i)
  {
  }

  lemma HoldsSplit(n: Node, role: Role, written: Scope, scope: Scope, again: Scope, decide: Target -> Decision, i: nat)
    requires i < |n.kids|
    ensures FieldsHold(n, role, written, scope, again, decide, i) <==>
      && (VisitsKid(n, role, i) ==>
        DecisionsHold(n.kids[i], KidRole(n, role, i), KidScope(n, role, written, i), DecidedScope(n, role, scope, decide, i),
                      AgainScope(n, role, again, scope, decide, i), decide))
      && FieldsHold(n, role, written, scope, again, decide, i + 1)
  {
    hide DecisionsHold, KidRole, KidScope, DecidedScope, AgainScope, VisitsKid;
  }

  lemma NoneHold(n: Node, role: Role, written: Scope, scope: Scope, again: Scope, decide: Target -> Decision, i: nat)
    requires i >= |n.kids|
    ensures FieldsHold(n, role, written, scope, again, decide, i)
  {
  }

  /**
   Rewriting a statement that collecting accepts leaves one that collecting accepts, and what is collected then, place
   by place, is what was decided if and only if every decision takes.
   */
  lemma RewriteIsCaptureFree(root: Node, role: Role, entry: Scope, decide: Target -> Decision)
    requires Formed(root) && Walk(root, role, entry).Some? && Qualifies(Walk(root, role, entry).value, decide)
    ensures Walk(Rewrite(root, role, entry, decide), role, entry).Some?
    ensures Places(Walk(Rewrite(root, role, entry, decide), role, entry).value) == DecidedPlaces(Walk(root, role, entry).value, decide) <==>
      DecisionsHold(root, role, entry, entry, entry, decide)
  {
    SelfWithin(entry);
    TakenExactly(root, role, entry, entry, entry, decide);
    CollectAfterRewrite(root, role, entry, decide);
  }

  // ---------------------------------------------------------------------------------------
  // Asked about everything, and left as decided

  predicate OwnKeptFree(n: Node, role: Role, written: Scope, again: Scope, decide: Target -> Decision)
  {
    Mention(n, role).Some? ==>
      var (site, t) := Mention(n, role).value;
      !IsBound(site, t, written) && decide(t).Skip? ==> !IsBound(site, t, again)
  }

  /** Every kept reference is free in the second walk. */
  predicate KeptFree(n: Node, role: Role, written: Scope, scope: Scope, again: Scope, decide: Target -> Decision)
    decreases n
  {
    ModeOf(n, role).Visit? ==>
      && OwnKeptFree(n, role, written, again, decide)
      && forall i :: 0 <= i < |n.kids| && VisitsKid(n, role, i) ==>
        KeptFree(n.kids[i], KidRole(n, role, i), KidScope(n, role, written, i), DecidedScope(n, role, scope, decide, i),
                 AgainScope(n, role, again, scope, decide, i), decide)
  }

  /** Where nothing is bound differently while rewriting, only kept names can fail. */
  lemma {:induction false} KeptIsEnough(n: Node, role: Role, written: Scope, scope: Scope, again: Scope, decide: Target -> Decision)
    requires BoundAlike(n, role, written, scope, decide)
    ensures DecisionsHold(n, role, written, scope, again, decide) <==> KeptFree(n, role, written, scope, again, decide)
    decreases n
  {
    hide KidScope, DecidedScope, AgainScope, KidRole, VisitsKid, IsBound, Mention;
    if ModeOf(n, role).Visit? {
      forall i | 0 <= i < |n.kids| && VisitsKid(n, role, i)
        ensures DecisionsHold(n.kids[i], KidRole(n, role, i), KidScope(n, role, written, i), DecidedScope(n, role, scope, decide, i),
                              AgainScope(n, role, again, scope, decide, i), decide) <==>
                KeptFree(n.kids[i], KidRole(n, role, i), KidScope(n, role, written, i), DecidedScope(n, role, scope, decide, i),
                         AgainScope(n, role, again, scope, decide, i), decide)
      {
        KeptIsEnough(n.kids[i], KidRole(n, role, i), KidScope(n, role, written, i), DecidedScope(n, role, scope, decide, i),
                     AgainScope(n, role, again, scope, decide, i), decide);
      }
    }
  }

  /**
   Rewriting asks about exactly the references collected and leaves exactly the decided names, if and only if every
   mentioned table is bound while rewriting just when it is bound as written and every kept name is free in the second walk.
   */
  lemma AskedAndLeftExactly(root: Node, role: Role, entry: Scope, decide: Target -> Decision)
    requires Formed(root) && Walk(root, role, entry).Some? && Qualifies(Walk(root, role, entry).value, decide)
    ensures Asked(root, role, entry, decide).Some? && Walk(Rewrite(root, role, entry, decide), role, entry).Some?
    ensures var refs := Walk(root, role, entry).value;
      (&& Places(Asked(root, role, entry, decide).value) == Places(refs)
       && Places(Walk(Rewrite(root, role, entry, decide), role, entry).value) == DecidedPlaces(refs, decide)) <==>
      (&& BoundAlike(root, role, entry, entry, decide)
       && KeptFree(root, role, entry, entry, entry, decide))
  {
    hide Walk, Asked, Rewrite, BoundAlike, KeptFree, DecisionsHold, Places, DecidedPlaces, Qualifies;
    AsksExactlyWhatIsCollected(root, role, entry, decide);
    RewriteIsCaptureFree(root, role, entry, decide);
    if BoundAlike(root, role, entry, entry, decide) {
      KeptIsEnough(root, role, entry, entry, entry, decide);
    }
  }
}
