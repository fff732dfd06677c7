/** The GNU hash table validator: the loader's symbol extent, read off the end of every bucket's chain. */
module GnuHash {
  import opened Common
  import opened LoaderImage

  /** The largest symbol count, and the first symbol number no chain may reach. */
  const MAX_SYMBOLS := MAX_METADATA / 24

  // ---------------------------------------------------------------------------------------
  // The header

  /** The unsigned bitwise AND. */
  function BitAnd(a: nat, b: nat): nat
  {
    if a == 0 || b == 0 then 0
    else (if a % 2 == 1 && b % 2 == 1 then 1 else 0) + 2 * BitAnd(a / 2, b / 2)
  }

  predicate IsPowerOfTwo(n: nat)
  {
    n == 1 || (n > 0 && n % 2 == 0 && IsPowerOfTwo(n / 2))
  }

  lemma {:induction false} AndSelf(n: nat)
    ensures BitAnd(n, n) == n
  {
    if n > 0 {
      AndSelf(n / 2);
    }
  }

  /** The header's bloom test is the power-of-two test. */
  lemma {:induction false} ClearsLowestBit(n: nat)
    requires n > 0
    ensures BitAnd(n, n - 1) == 0 <==> IsPowerOfTwo(n)
  {
    if n % 2 == 0 {
      assert (n - 1) / 2 == n / 2 - 1;
      ClearsLowestBit(n / 2);
    } else if n > 1 {
      assert (n - 1) / 2 == n / 2;
      AndSelf(n / 2);
    }
  }

  /** An acceptable header with the part of the table up to the chains. */
  datatype Header = Header(buckets: nat, first: nat, bloom: nat, table: seq<Byte>) {
    /** Where the chain words start. */
    function Prefix(): nat {
      16 + bloom * 8 + buckets * 4
    }

    ghost predicate Valid() {
      && 0 < buckets < TWO_TO_THE_32 && 0 < first <= MAX_SYMBOLS && IsPowerOfTwo(bloom)
      && |table| == Prefix() <= MAX_METADATA
    }

    function Bucket(i: nat): (r: U64)
      requires |table| == Prefix() && i < buckets
      ensures r < TWO_TO_THE_32
    {
      Word32(table, 16 + bloom * 8 + i * 4)
    }
  }

  /** What the file holds at addr as the start of a GNU hash table, when that is acceptable. */
  ghost function HeaderAt(progs: seq<Segment>, addr: U64): (r: Option<Header>)
    ensures r.Some? ==> r.value.Valid() && addr + r.value.Prefix() < TWO_TO_THE_64
  {
    var head := Loaded(progs, addr, 16);
    if head.None? then None
    else
      var buckets, first, bloom, shift :=
        Word32(head.value, 0), Word32(head.value, 4), Word32(head.value, 8), Word32(head.value, 12);
      var prefix := 16 + bloom * 8 + buckets * 4;
      if buckets == 0 || !IsPowerOfTwo(bloom) || shift >= 32 || first == 0 || first > MAX_SYMBOLS then None
      else if prefix > MAX_METADATA || addr + prefix >= TWO_TO_THE_64 then None
      else
        var table := Loaded(progs, addr, prefix);
        if table.None? then None else Some(Header(buckets, first, bloom, table.value))
  }

  // ---------------------------------------------------------------------------------------
  // Chains

  /** The chain word of a symbol: None when its address does not exist or is not loaded. */
  function Entry(progs: seq<Segment>, addr: U64, h: Header, symbol: nat): Option<U64>
    requires h.first <= symbol
  {
    var at := addr + h.Prefix() + (symbol - h.first) * 4;
    if at >= TWO_TO_THE_64 then None
    else
      var entry := Loaded(progs, at, 4);
      if entry.None? then None else Some(Word32(entry.value, 0))
  }

  /** The symbol at which the chain from `symbol` ends: the first whose word has its low bit set. */
  function ChainEnd(progs: seq<Segment>, addr: U64, h: Header, symbol: nat): (r: Option<nat>)
    requires h.first <= symbol
    ensures r.Some? ==> symbol <= r.value < MAX_SYMBOLS
    decreases MAX_SYMBOLS - symbol
  {
    if symbol >= MAX_SYMBOLS then None
    else
      var entry := Entry(progs, addr, h, symbol);
      if entry.None? then None
      else if entry.value % 2 == 1 then Some(symbol)
      else ChainEnd(progs, addr, h, symbol + 1)
  }

  /** A chain is all the symbols from its bucket's to the first one marked as an end. */
  lemma {:induction false} ChainEndIsFirstMark(progs: seq<Segment>, addr: U64, h: Header, symbol: nat)
    requires h.first <= symbol && ChainEnd(progs, addr, h, symbol).Some?
    ensures var end := ChainEnd(progs, addr, h, symbol).value;
      && Entry(progs, addr, h, end).Some? && Entry(progs, addr, h, end).value % 2 == 1
      && forall s :: symbol <= s < end ==> Entry(progs, addr, h, s).Some? && Entry(progs, addr, h, s).value % 2 == 0
    decreases MAX_SYMBOLS - symbol
  {
    if Entry(progs, addr, h, symbol).value % 2 == 0 {
      ChainEndIsFirstMark(progs, addr, h, symbol + 1);
    }
  }

  /** The symbols of one bucket, first to last. */
  datatype Chain = Chain(start: nat, end: nat)

  /** The chains of the first n buckets, as symbol intervals; None when one of them is not a chain. */
  function Chains(progs: seq<Segment>, addr: U64, h: Header, n: nat): (r: Option<seq<Chain>>)
    requires |h.table| == h.Prefix() && n <= h.buckets
    ensures r.Some? ==> forall k :: 0 <= k < |r.value| ==> h.first <= r.value[k].start <= r.value[k].end < MAX_SYMBOLS
  {
    if n == 0 then Some([])
    else
      var before := Chains(progs, addr, h, n - 1);
      var symbol := h.Bucket(n - 1);
      if before.None? || symbol == 0 then before
      else if symbol < h.first then None
      else
        var end := ChainEnd(progs, addr, h, symbol);
        if end.None? then None else Some(before.value + [Chain(symbol, end.value)])
  }

  /** No symbol lies on two chains. */
  predicate Disjoint(chains: seq<Chain>)
  {
    forall i, k :: 0 <= i < k < |chains| ==> chains[i].end < chains[k].start || chains[k].end < chains[i].start
  }

  predicate OnChain(chains: seq<Chain>, symbol: nat)
  {
    exists k :: 0 <= k < |chains| && chains[k].start <= symbol <= chains[k].end
  }

  /** One past the last symbol on a chain, and at least `first`. */
  function Extent(first: nat, chains: seq<Chain>): (r: nat)
    ensures first <= r
    ensures forall k :: 0 <= k < |chains| ==> chains[k].end < r
    ensures r == first || exists k :: 0 <= k < |chains| && r == chains[k].end + 1
  {
    if chains == [] then first
    else
      var before := Extent(first, chains[..|chains| - 1]);
      var last := chains[|chains| - 1].end + 1;
      if last > before then last else before
  }

  /** One bad bucket spoils all that follow. */
  lemma {:induction false} ChainsGrow(progs: seq<Segment>, addr: U64, h: Header, n: nat, m: nat)
    requires |h.table| == h.Prefix() && n <= m <= h.buckets
    ensures Chains(progs, addr, h, n).None? ==> Chains(progs, addr, h, m).None?
    ensures Chains(progs, addr, h, n).Some? && Chains(progs, addr, h, m).Some? ==>
      Chains(progs, addr, h, n).value <= Chains(progs, addr, h, m).value
    decreases m
  {
    if n < m {
      ChainsGrow(progs, addr, h, n, m - 1);
    }
  }

  /** Whether the table is accepted: every bucket has a chain and no two overlap. */
  predicate Accepted(progs: seq<Segment>, addr: U64, h: Header)
    requires |h.table| == h.Prefix()
  {
    Chains(progs, addr, h, h.buckets).Some? && Disjoint(Chains(progs, addr, h, h.buckets).value)
  }

  /** A bucket that is no chain, or whose chain meets an earlier one, is refused. */
  lemma BadBucket(progs: seq<Segment>, addr: U64, h: Header, n: nat, chains: seq<Chain>, symbol: nat)
    requires |h.table| == h.Prefix() && n < h.buckets && Chains(progs, addr, h, n) == Some(chains) && h.Bucket(n) != 0
    requires h.Bucket(n) >= h.first ==>
      var end := ChainEnd(progs, addr, h, h.Bucket(n));
      end.None? || (h.Bucket(n) <= symbol <= end.value && OnChain(chains, symbol))
    ensures !Accepted(progs, addr, h)
  {
    hide ChainEnd, Chains, OnChain, Disjoint;
    ChainsGrow(progs, addr, h, n + 1, h.buckets);
    NextBucket(progs, addr, h, n, chains);
    if Chains(progs, addr, h, h.buckets).Some? {
      var end := ChainEnd(progs, addr, h, h.Bucket(n)).value;
      Overlaps(chains, Chain(h.Bucket(n), end), Chains(progs, addr, h, h.buckets).value, symbol);
    }
  }

  lemma NextBucket(progs: seq<Segment>, addr: U64, h: Header, n: nat, chains: seq<Chain>)
    requires |h.table| == h.Prefix() && n < h.buckets && Chains(progs, addr, h, n) == Some(chains) && h.Bucket(n) != 0
    ensures Chains(progs, addr, h, n + 1) ==
      if h.Bucket(n) < h.first || ChainEnd(progs, addr, h, h.Bucket(n)).None? then None
      else Some(chains + [Chain(h.Bucket(n), ChainEnd(progs, addr, h, h.Bucket(n)).value)])
  {
    hide ChainEnd;
  }

  lemma Overlaps(chains: seq<Chain>, next: Chain, all: seq<Chain>, symbol: nat)
    requires chains + [next] <= all && next.start <= symbol <= next.end && OnChain(chains, symbol)
    ensures !Disjoint(all)
  {
    var k :| 0 <= k < |chains| && chains[k].start <= symbol <= chains[k].end;
    var longer := chains + [next];
    assert all[k] == longer[k] == chains[k] && all[|chains|] == longer[|chains|] == next;
  }

  lemma NextChain(first: nat, chains: seq<Chain>, start: nat, end: nat)
    requires start <= end && Disjoint(chains)
    requires forall s :: start <= s <= end ==> !OnChain(chains, s)
    requires forall k :: 0 <= k < |chains| ==> chains[k].start <= chains[k].end
    ensures Disjoint(chains + [Chain(start, end)])
    ensures Extent(first, chains + [Chain(start, end)]) == if end + 1 > Extent(first, chains) then end + 1 else Extent(first, chains)
    ensures forall s: nat :: OnChain(chains + [Chain(start, end)], s) <==> OnChain(chains, s) || start <= s <= end
  {
    var longer := chains + [Chain(start, end)];
    assert longer[..|chains|] == chains;
    forall i | 0 <= i < |chains|
      ensures chains[i].end < start || end < chains[i].start
    {
      assert chains[i].start <= start <= chains[i].end ==> OnChain(chains, start);
      assert OnChain(chains, chains[i].start);
    }
    forall s: nat
      ensures OnChain(longer, s) <==> OnChain(chains, s) || start <= s <= end
    {
      assert longer[|chains|] == Chain(start, end);
      if OnChain(chains, s) {
        var k :| 0 <= k < |chains| && chains[k].start <= s <= chains[k].end;
        assert longer[k] == chains[k];
      }
    }
  }

  /**
   snapshotGNUHashCount: with an acceptable header, the extent of the chains exactly when every bucket's
   chain ends inside the image and no two chains share a symbol. Every value named U64 stays below 2^64
   without wrapping.
   */
  method GnuHashCount(progs: seq<Segment>, addr: U64) returns (r: Option<U64>)
    ensures HeaderAt(progs, addr).None? ==> r.None?
    ensures HeaderAt(progs, addr).Some? ==>
      var h := HeaderAt(progs, addr).value;
      r == if Accepted(progs, addr, h) then Some(Extent(h.first, Chains(progs, addr, h, h.buckets).value)) else None
  {
    hide Loaded, Word32, Chains, Extent, ChainEnd, Disjoint, OnChain;
    var head := LoadBytes(progs, addr, 16);
    if head.None? {
      return None;
    }
    var buckets := Word32(head.value, 0);
    var first := Word32(head.value, 4);
    var bloom := Word32(head.value, 8);
    var shift := Word32(head.value, 12);
    if bloom > 0 {
      ClearsLowestBit(bloom);
    }
    if buckets == 0 || bloom == 0 || BitAnd(bloom, bloom - 1) != 0 || shift >= 32 || first == 0 || first > MAX_SYMBOLS {
      return None;
    }
    var prefix: U64 := 16 + bloom * 8 + buckets * 4;
    if prefix > MAX_METADATA || (addr + prefix) % TWO_TO_THE_64 < addr {
      return None;
    }
    var table := LoadBytes(progs, addr, prefix);
    if table.None? {
      return None;
    }
    ghost var h := Header(buckets, first, bloom, table.value);
    assert HeaderAt(progs, addr) == Some(h);
    r := WalkBuckets(progs, addr, prefix, Header(buckets, first, bloom, table.value));
  }

  /** The bucket loop of snapshotGNUHashCount. */
  method WalkBuckets(progs: seq<Segment>, addr: U64, prefix: U64, h: Header) returns (r: Option<U64>)
    requires h.Valid() && prefix == h.Prefix() && addr + prefix < TWO_TO_THE_64
    ensures r == if Accepted(progs, addr, h) then Some(Extent(h.first, Chains(progs, addr, h, h.buckets).value)) else None
  {
    hide Loaded, Word32, Extent, Disjoint, OnChain, ChainEnd, IsPowerOfTwo;
    var count: U64 := h.first;
    var visited: set<nat> := {};
    ghost var chains: seq<Chain> := [];
    NoChains(h.first);
    var i := 0;
    while i < h.buckets
      invariant 0 <= i <= h.buckets
      invariant Chains(progs, addr, h, i) == Some(chains) && Disjoint(chains)
      invariant forall s: nat :: s in visited <==> OnChain(chains, s)
      invariant count == Extent(h.first, chains) <= MAX_SYMBOLS
    {
      var symbol: nat := h.Bucket(i);
      if symbol != 0 {
        if symbol < h.first {
          BadBucket(progs, addr, h, i, chains, symbol);
          return None;
        }
        var end, ok;
        ok, visited, count, end := WalkChain(progs, addr, prefix, h, symbol, visited, count);
        if !ok {
          BadBucket(progs, addr, h, i, chains, end);
          return None;
        }
        NextChain(h.first, chains, symbol, end);
        chains := chains + [Chain(symbol, end)];
      }
      i := i + 1;
    }
    // the source's last test, count > MAX_SYMBOLS, never holds here
    r := Some(count);
  }

  lemma NoChains(first: nat)
    ensures Disjoint([]) && Extent(first, []) == first && forall s: nat :: !OnChain([], s)
  {
  }

  /** The chain loop: marks the chain's symbols up to its end, or stops at a symbol that cannot be on a chain of its own. */
  method WalkChain(progs: seq<Segment>, addr: U64, prefix: U64, h: Header, start: nat, seen: set<nat>, extent: U64)
    returns (ok: bool, visited: set<nat>, count: U64, symbol: nat)
    requires h.Valid() && prefix == h.Prefix() && addr + prefix < TWO_TO_THE_64 && h.first <= start && extent <= MAX_SYMBOLS
    ensures ok ==>
      && ChainEnd(progs, addr, h, start) == Some(symbol)
      && (forall s :: start <= s <= symbol ==> s !in seen)
      && (forall s :: s in visited <==> s in seen || start <= s <= symbol)
      && count == (if symbol + 1 > extent then symbol + 1 else extent) <= MAX_SYMBOLS
    ensures !ok ==>
      var end := ChainEnd(progs, addr, h, start);
      end.None? || (start <= symbol <= end.value && symbol in seen)
  {
    hide Loaded, Word32, IsPowerOfTwo;
    visited, count, symbol := seen, extent, start;
    while true
      invariant start <= symbol <= MAX_SYMBOLS || symbol == start
      invariant ChainEnd(progs, addr, h, start) == ChainEnd(progs, addr, h, symbol)
      invariant forall s :: start <= s < symbol ==> s !in seen
      invariant forall s :: s in visited <==> s in seen || start <= s < symbol
      invariant count == if symbol > start && symbol > extent then symbol else extent
      decreases MAX_SYMBOLS - symbol
    {
      var index := symbol - h.first;
      if symbol >= MAX_SYMBOLS || index >= MAX_METADATA / 4 || symbol in visited {
        return false, visited, count, symbol;
      }
      visited := visited + {symbol};
      var offset: U64 := prefix + index * 4;
      if (addr + offset) % TWO_TO_THE_64 < addr {
        return false, visited, count, symbol;
      }
      var entry := LoadBytes(progs, addr + offset, 4);
      if entry.None? {
        return false, visited, count, symbol;
      }
      if symbol + 1 > count {
        count := symbol + 1;
      }
      if Word32(entry.value, 0) % 2 != 0 {
        return true, visited, count, symbol;
      }
      symbol := symbol + 1;
    }
  }
}
