/** The System V hash table validator: accepted exactly when every index is in range and every chain ends. */
module SysVHash {
  import opened Common
  import opened LoaderImage

  // ---------------------------------------------------------------------------------------
  // Chains

  /** Where n steps along the chain links lead; index 0 ends a chain. */
  function Walk(links: seq<nat>, i: nat, n: nat): (r: nat)
    requires InRange(links) && i < |links|
    ensures r < |links|
    decreases n
  {
    if i == 0 || n == 0 then i else Walk(links, links[i], n - 1)
  }

  predicate InRange(links: seq<nat>)
  {
    forall i :: 0 <= i < |links| ==> links[i] < |links|
  }

  /** The chain from i reaches its end. */
  ghost predicate Ends(links: seq<nat>, i: nat)
    requires InRange(links) && i < |links|
  {
    exists n: nat :: Walk(links, i, n) == 0
  }

  lemma EndsFromNext(links: seq<nat>, i: nat)
    requires InRange(links) && i < |links| && i != 0
    ensures Ends(links, i) <==> Ends(links, links[i])
  {
    if Ends(links, links[i]) {
      var n: nat :| Walk(links, links[i], n) == 0;
      assert Walk(links, i, n + 1) == 0;
    }
    if Ends(links, i) {
      var n: nat :| Walk(links, i, n) == 0;
      assert Walk(links, links[i], n - 1) == 0;
    }
  }

  lemma EndEnds(links: seq<nat>)
    requires InRange(links) && |links| > 0
    ensures Ends(links, 0)
  {
    assert Walk(links, 0, 0) == 0;
  }

  /** A set of indexes without 0 that the links never leave holds no end of a chain. */
  lemma {:induction false} TrappedNeverEnds(links: seq<nat>, trap: set<nat>, i: nat, n: nat)
    requires InRange(links) && i in trap && 0 !in trap
    requires forall x :: x in trap ==> x < |links| && links[x] in trap
    ensures Walk(links, i, n) != 0
    decreases n
  {
    if n > 0 {
      TrappedNeverEnds(links, trap, links[i], n - 1);
    }
  }

  // ---------------------------------------------------------------------------------------
  // The chain being followed

  /** chain runs from `start` along the links, and `index` comes next. */
  predicate Follows(links: seq<nat>, chain: seq<nat>, start: nat, index: nat)
  {
    && (forall k :: 0 <= k < |chain| ==> 0 < chain[k] < |links|)
    && (if chain == [] then index == start else chain[0] == start && links[chain[|chain| - 1]] == index)
    && forall k :: 0 <= k < |chain| - 1 ==> links[chain[k]] == chain[k + 1]
  }

  /** Coming back to an index of the chain: it never ends. */
  lemma CycleNeverEnds(links: seq<nat>, chain: seq<nat>, start: nat, index: nat)
    requires InRange(links) && Follows(links, chain, start, index) && index in chain
    ensures index < |links| && !Ends(links, index)
  {
    var p :| 0 <= p < |chain| && chain[p] == index;
    var trap := set k | p <= k < |chain| :: chain[k];
    assert chain[p] in trap;
    forall x | x in trap
      ensures x < |links| && links[x] in trap
    {
      var k :| p <= k < |chain| && chain[k] == x;
      if k < |chain| - 1 {
        assert chain[k + 1] in trap;
      }
    }
    forall n: nat
      ensures Walk(links, index, n) != 0
    {
      TrappedNeverEnds(links, trap, index, n);
    }
  }

  /** When what comes next ends, so does every index of the chain. */
  lemma {:induction false} ChainEnds(links: seq<nat>, chain: seq<nat>, start: nat, index: nat, k: nat)
    requires InRange(links) && Follows(links, chain, start, index) && k < |chain|
    requires index < |links| && Ends(links, index)
    ensures Ends(links, chain[k])
    decreases |chain| - k
  {
    if k < |chain| - 1 {
      ChainEnds(links, chain, start, index, k + 1);
    }
    EndsFromNext(links, chain[k]);
  }

  // ---------------------------------------------------------------------------------------
  // The colouring

  /** The colours between two starts: 0 not seen, 2 known to end. */
  ghost predicate Coloured(links: seq<nat>, state: seq<int>, start: nat)
    requires InRange(links)
  {
    && |state| == |links|
    && (forall i :: 0 <= i < |state| ==> state[i] == 0 || (state[i] == 2 && i != 0 && Ends(links, i)))
    && forall i :: 1 <= i < start && i < |state| ==> state[i] == 2
  }

  /** The colours while a chain is followed: 1 exactly on it. */
  ghost predicate Following(links: seq<nat>, state: seq<int>, chain: seq<nat>, start: nat)
    requires InRange(links)
  {
    && |state| == |links|
    && (forall i :: 0 <= i < |state| ==>
      if state[i] == 1 then i in chain else state[i] == 0 || (state[i] == 2 && i != 0 && Ends(links, i)))
    && (forall k :: 0 <= k < |chain| ==> 0 < chain[k] < |state| && state[chain[k]] == 1)
    && forall i :: 1 <= i < start && i < |state| ==> state[i] == 2
  }

  /** The number of indexes not seen yet. */
  function Unseen(state: seq<int>): (r: nat)
    ensures r <= |state|
  {
    if state == [] then 0
    else (if state[|state| - 1] == 0 then 1 else 0) + Unseen(state[..|state| - 1])
  }

  lemma {:induction false} MarkedIsSeen(state: seq<int>, i: nat, colour: int)
    requires i < |state|
    ensures Unseen(state[i := colour]) ==
      Unseen(state) - (if state[i] == 0 then 1 else 0) + (if colour == 0 then 1 else 0)
  {
    var last := |state| - 1;
    if i < last {
      assert state[i := colour][..last] == state[..last][i := colour];
      MarkedIsSeen(state[..last], i, colour);
    } else {
      assert state[i := colour][..last] == state[..last];
    }
  }

  /** Marking the next index of the chain. */
  lemma MarkStep(links: seq<nat>, state: seq<int>, chain: seq<nat>, start: nat, index: nat)
    requires InRange(links) && Following(links, state, chain, start) && Follows(links, chain, start, index)
    requires 0 < index < |links| && state[index] == 0
    ensures Following(links, state[index := 1], chain + [index], start)
    ensures Follows(links, chain + [index], start, links[index])
    ensures state[0] == 0 ==> state[index := 1][0] == 0
    ensures Unseen(state[index := 1]) == Unseen(state) - 1
  {
    MarkedIsSeen(state, index, 1);
    var longer := chain + [index];
    assert forall k :: 0 <= k < |chain| ==> longer[k] == chain[k];
    forall i | 0 <= i < |state| && state[i] == 1
      ensures i in longer
    {
      var k :| 0 <= k < |chain| && chain[k] == i;
      assert longer[k] == i;
    }
    assert longer[|chain|] == index;
  }

  /** The colours once the chain is settled. */
  function Settled(state: seq<int>, chain: seq<nat>): (r: seq<int>)
    requires forall k :: 0 <= k < |chain| ==> chain[k] < |state|
    ensures |r| == |state|
  {
    if chain == [] then state
    else Settled(state, chain[..|chain| - 1])[chain[|chain| - 1] := 2]
  }

  lemma {:induction false} SettledAt(state: seq<int>, chain: seq<nat>)
    requires forall k :: 0 <= k < |chain| ==> chain[k] < |state| && state[chain[k]] == 1
    ensures forall i :: 0 <= i < |state| ==> Settled(state, chain)[i] == if i in chain then 2 else state[i]
    ensures Unseen(Settled(state, chain)) == Unseen(state)
  {
    if chain != [] {
      var shorter := chain[..|chain| - 1];
      SettledAt(state, shorter);
      MarkedIsSeen(Settled(state, shorter), chain[|chain| - 1], 2);
      assert chain == shorter + [chain[|chain| - 1]];
    }
  }

  /** Once what comes next ends, settling the chain leaves only unseen and ended indexes. */
  lemma SettledIsColoured(links: seq<nat>, state: seq<int>, chain: seq<nat>, start: nat, index: nat)
    requires InRange(links) && Following(links, state, chain, start) && Follows(links, chain, start, index)
    requires 0 < start < |links| && index < |links| && (index == 0 || state[index] == 2) && state[0] == 0
    ensures Coloured(links, Settled(state, chain), start + 1)
    ensures Settled(state, chain)[0] == 0 && Unseen(Settled(state, chain)) == Unseen(state)
  {
    SettledAt(state, chain);
    EndEnds(links);
    forall k | 0 <= k < |chain|
      ensures Ends(links, chain[k])
    {
      ChainEnds(links, chain, start, index, k);
    }
  }

  /**
   The colouring loop of snapshotSysVHashCount: no cycle among the links exactly when every chain ends. Each
   index is marked at most once, so the inner loop runs fewer than |links| times in all.
   */
  method Acyclic(links: seq<nat>) returns (ok: bool, ghost marks: nat)
    requires |links| > 0 && InRange(links)
    ensures ok <==> forall i :: 1 <= i < |links| ==> Ends(links, i)
    ensures marks < |links|
  {
    hide Settled, Unseen, Ends;
    var count := |links|;
    var state := new int[count](_ => 0);
    marks := 0;
    UnseenAll(state[..]);
    var start := 1;
    while start < count
      invariant 1 <= start <= count
      invariant Coloured(links, state[..], start) && state[0] == 0
      invariant marks + Unseen(state[..]) == count
    {
      hide Coloured;
      var chain: seq<nat> := [];
      var index: nat := start;
      ColouredIsFollowing(links, state[..], start);
      while index != 0 && state[index] == 0
        invariant index < count && Follows(links, chain, start, index)
        invariant Following(links, state[..], chain, start) && state[0] == 0
        invariant marks + Unseen(state[..]) == count
        decreases Unseen(state[..])
      {
        hide Following, Follows;
        MarkStep(links, state[..], chain, start, index);
        ghost var was := state[..];
        state[index] := 1;
        assert state[..] == was[index := 1];
        chain := chain + [index];
        index := links[index];
        marks := marks + 1;
      }
      if index != 0 && state[index] == 1 {
        CycleNeverEnds(links, chain, start, index);
        SeenZero(state[..]);
        return false, marks;
      }
      ghost var was := state[..];
      SettledIsColoured(links, was, chain, start, index);
      SettledNone(was);
      assert chain[..0] == [];
      var k := 0;
      while k < |chain|
        invariant 0 <= k <= |chain|
        invariant state[..] == Settled(was, chain[..k])
      {
        hide Following, Follows;
        SettledStep(was, chain, k);
        state[chain[k]] := 2;
        k := k + 1;
      }
      assert chain[..|chain|] == chain;
      start := start + 1;
    }
    SeenZero(state[..]);
    ok := true;
  }

  lemma ColouredIsFollowing(links: seq<nat>, state: seq<int>, start: nat)
    requires InRange(links) && Coloured(links, state, start)
    ensures Following(links, state, [], start)
  {
  }

  lemma SettledNone(state: seq<int>)
    ensures Settled(state, []) == state
  {
  }

  lemma SettledStep(state: seq<int>, chain: seq<nat>, k: nat)
    requires k < |chain| && forall i :: 0 <= i < |chain| ==> chain[i] < |state|
    ensures Settled(state, chain[..k + 1]) == Settled(state, chain[..k])[chain[k] := 2]
  {
    assert chain[..k + 1][..k] == chain[..k];
  }

  lemma {:induction false} UnseenAll(state: seq<int>)
    requires forall i :: 0 <= i < |state| ==> state[i] == 0
    ensures Unseen(state) == |state|
  {
    if state != [] {
      UnseenAll(state[..|state| - 1]);
    }
  }

  /** Index 0 is never marked. */
  lemma {:induction false} SeenZero(state: seq<int>)
    requires |state| > 0 && state[0] == 0
    ensures Unseen(state) >= 1
  {
    if |state| > 1 {
      SeenZero(state[..|state| - 1]);
    }
  }

  // ---------------------------------------------------------------------------------------
  // The table

  /** Word i of the table after its two header words. */
  function Index(table: seq<Byte>, i: nat): (r: U64)
    requires 8 + 4 * i + 4 <= |table|
    ensures r < TWO_TO_THE_32
  {
    Word32(table, 8 + 4 * i)
  }

  /** The chain array: the `count` words after the buckets. */
  function Links(table: seq<Byte>, buckets: nat, count: nat): (r: seq<nat>)
    requires |table| >= 8 + 4 * (buckets + count)
    ensures |r| == count && forall i :: 0 <= i < count ==> r[i] == Index(table, buckets + i)
  {
    if count == 0 then [] else Links(table, buckets, count - 1) + [Index(table, buckets + count - 1)]
  }

  /** What the file holds at addr as a hash table: the header words, and the table when the header is acceptable. */
  function Table(progs: seq<Segment>, addr: U64): Option<(seq<Byte>, nat, nat)>
  {
    var head := Loaded(progs, addr, 8);
    if head.None? then None
    else
      var buckets, count := Word32(head.value, 0), Word32(head.value, 4);
      if buckets == 0 || count == 0 || count > MAX_METADATA / 24 || 8 + 4 * (buckets + count) > MAX_METADATA then None
      else
        var table := Loaded(progs, addr, 8 + 4 * (buckets + count));
        if table.None? then None else Some((table.value, buckets, count))
  }

  lemma TableShape(progs: seq<Segment>, addr: U64)
    ensures Table(progs, addr).Some? ==>
      var (table, buckets, count) := Table(progs, addr).value; |table| == 8 + 4 * (buckets + count) && buckets > 0 && count > 0
  {
  }

  /** Every bucket and chain word names a symbol of the table. */
  ghost predicate IndexesBelow(table: seq<Byte>, words: nat, count: nat)
    requires |table| == 8 + 4 * words
  {
    forall i :: 0 <= i < words ==> Index(table, i) < count
  }

  /** A table the loader can search without end: every index below the count, every chain ending at 0. */
  ghost predicate Sound(table: seq<Byte>, buckets: nat, count: nat)
    requires |table| == 8 + 4 * (buckets + count) && count > 0
  {
    && IndexesBelow(table, buckets + count, count)
    && InRange(Links(table, buckets, count))
    && (forall i :: 0 <= i < count ==> Ends(Links(table, buckets, count), i))
    && forall b :: 0 <= b < buckets ==> Ends(Links(table, buckets, count), Index(table, b))
  }

  /** snapshotSysVHashCount: the symbol count of a readable table, exactly when the table is sound. */
  method SysVHashCount(progs: seq<Segment>, addr: U64) returns (r: Option<U64>)
    ensures Table(progs, addr).None? ==> r.None?
    ensures Table(progs, addr).Some? ==>
      var (table, buckets, count) := Table(progs, addr).value;
      && |table| == 8 + 4 * (buckets + count) && count > 0
      && r == if Sound(table, buckets, count) then Some(count) else None
  {
    hide Loaded, Word32, Ends, Sound;
    TableShape(progs, addr);
    var head := LoadBytes(progs, addr, 8);
    if head.None? {
      return None;
    }
    var buckets := Word32(head.value, 0);
    var count := Word32(head.value, 4);
    if buckets == 0 || count == 0 || count > MAX_METADATA / 24 {
      return None;
    }
    var size: U64 := 8 + 4 * (buckets + count);
    var table := LoadBytes(progs, addr, size);
    if table.None? {
      return None;
    }
    var word := 0;
    while word < buckets + count
      invariant 0 <= word <= buckets + count
      invariant forall i :: 0 <= i < word ==> Index(table.value, i) < count
    {
      if Index(table.value, word) >= count {
        OutsideIsUnsound(table.value, buckets, count, word);
        return None;
      }
      word := word + 1;
    }
    var links := Links(table.value, buckets, count);
    assert InRange(links);
    var ok, _ := Acyclic(links);
    SoundIffAcyclic(table.value, buckets, count);
    r := if ok then Some(count) else None;
  }

  lemma OutsideIsUnsound(table: seq<Byte>, buckets: nat, count: nat, word: nat)
    requires |table| == 8 + 4 * (buckets + count) && count > 0
    requires word < buckets + count && Index(table, word) >= count
    ensures !Sound(table, buckets, count)
  {
  }

  lemma SoundIffAcyclic(table: seq<Byte>, buckets: nat, count: nat)
    requires |table| == 8 + 4 * (buckets + count) && count > 0
    requires forall i :: 0 <= i < buckets + count ==> Index(table, i) < count
    ensures InRange(Links(table, buckets, count))
    ensures Sound(table, buckets, count) <==>
      forall i :: 1 <= i < |Links(table, buckets, count)| ==> Ends(Links(table, buckets, count), i)
  {
    hide Word32;
    EndEnds(Links(table, buckets, count));
  }
}
