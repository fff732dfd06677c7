/** The multiset comparison of spellings that decides whether a regeneration says what the input said. */
module Fidelity {
  import opened Common

  datatype Spelling = Spelling(key: string, show: string)

  const AS_KEY := "W:AS"
  const EQ_KEY := "O:EQ"
  const CROSS_KEY := "W:CROSS"
  const JOIN_KEY := "W:JOIN"

  // ---------------------------------------------------------------------------------------
  // Counting

  function Occurs(s: seq<Spelling>, key: string): (n: nat)
    ensures n > 0 <==> exists i :: 0 <= i < |s| && s[i].key == key
  {
    if s == [] then 0
    else
      var before := Occurs(s[..|s| - 1], key);
      assert forall i :: 0 <= i < |s| - 1 ==> s[..|s| - 1][i] == s[i];
      before + if s[|s| - 1].key == key then 1 else 0
  }

  /** What a key is shown as: its first spelling in the input, its last in the output. */
  function FirstShow(s: seq<Spelling>, key: string): string
  {
    if s == [] then "" else if Occurs(s[..|s| - 1], key) > 0 || s[|s| - 1].key != key then FirstShow(s[..|s| - 1], key)
    else s[|s| - 1].show
  }

  function LastShow(s: seq<Spelling>, key: string): string
  {
    if s == [] then "" else if s[|s| - 1].key == key then s[|s| - 1].show else LastShow(s[..|s| - 1], key)
  }

  function Balance(input: seq<Spelling>, out: seq<Spelling>, key: string): int
  {
    Occurs(input, key) - Occurs(out, key)
  }

  function Min(a: int, b: int): int
  {
    if a < b then a else b
  }

  /** How many CROSS JOIN pairs the output added. */
  function CrossJoins(input: seq<Spelling>, out: seq<Spelling>): int
  {
    var c, j := Balance(input, out, CROSS_KEY), Balance(input, out, JOIN_KEY);
    if c < 0 && j < 0 then Min(-c, -j) else 0
  }

  /** The balance of a key with the added CROSS JOIN pairs taken as commas. */
  function Net(input: seq<Spelling>, out: seq<Spelling>, key: string): int
  {
    Balance(input, out, key) + if key == CROSS_KEY || key == JOIN_KEY then CrossJoins(input, out) else 0
  }

  function LostCount(input: seq<Spelling>, out: seq<Spelling>, key: string): nat
  {
    if Net(input, out, key) > 0 then Net(input, out, key) else 0
  }

  function AddedCount(input: seq<Spelling>, out: seq<Spelling>, key: string): nat
  {
    if Net(input, out, key) < 0 && key != AS_KEY && key != EQ_KEY then -Net(input, out, key) else 0
  }

  // ---------------------------------------------------------------------------------------
  // Sorting

  predicate AtMost(a: string, b: string)
  {
    a == b || Before(a, b)
  }

  lemma AtMostTotal(a: string, b: string)
    ensures AtMost(a, b) || AtMost(b, a)
    ensures AtMost(a, b) && AtMost(b, a) ==> a == b
  {
    hide Before;
    BeforeTotal(a, b);
    if Before(a, b) && Before(b, a) {
      BeforeTransitive(a, b, a);
      BeforeIrreflexive(a);
    }
  }

  lemma AtMostTransitive(a: string, b: string, c: string)
    requires AtMost(a, b) && AtMost(b, c)
    ensures AtMost(a, c)
  {
    hide Before;
    if a != b && b != c {
      BeforeTransitive(a, b, c);
    }
  }

  predicate Sorted(s: seq<string>)
  {
    forall i, k :: 0 <= i < k < |s| ==> AtMost(s[i], s[k])
  }

  /** s with key put before the first larger element. */
  function Insert(s: seq<string>, key: string): (r: seq<string>)
    ensures multiset(r) == multiset(s) + multiset{key}
    ensures Sorted(s) ==> Sorted(r)
  {
    if s == [] then [key]
    else if AtMost(key, s[0]) then
      SortedFirst(key, s);
      assert [key] + s == [key] + s;
      [key] + s
    else
      AtMostTotal(key, s[0]);
      var rest := Insert(s[1..], key);
      assert s == [s[0]] + s[1..];
      InsertedAbove(s, key, rest);
      [s[0]] + rest
  }

  lemma SortedFirst(key: string, s: seq<string>)
    requires s != [] && AtMost(key, s[0])
    ensures Sorted(s) ==> Sorted([key] + s)
  {
    if Sorted(s) {
      forall k | 0 <= k < |s|
        ensures AtMost(key, s[k])
      {
        if k > 0 {
          AtMostTransitive(key, s[0], s[k]);
        }
      }
    }
  }

  lemma InsertedAbove(s: seq<string>, key: string, rest: seq<string>)
    requires s != [] && AtMost(s[0], key) && multiset(rest) == multiset(s[1..]) + multiset{key}
    ensures Sorted(s) && Sorted(rest) ==> Sorted([s[0]] + rest)
  {
    if Sorted(s) && Sorted(rest) {
      forall k | 0 <= k < |rest|
        ensures AtMost(s[0], rest[k])
      {
        assert rest[k] in multiset(rest);
        if rest[k] != key {
          assert rest[k] in multiset(s[1..]);
          var i :| 0 <= i < |s[1..]| && s[1..][i] == rest[k];
          assert s[i + 1] == rest[k];
        }
      }
    }
  }

  /** sort.Strings. */
  method SortStrings(keys: seq<string>) returns (r: seq<string>)
    ensures multiset(r) == multiset(keys) && Sorted(r)
  {
    r := [];
    var i := 0;
    while i < |keys|
      invariant 0 <= i <= |keys|
      invariant multiset(r) == multiset(keys[..i]) && Sorted(r)
    {
      assert keys[..i + 1] == keys[..i] + [keys[i]];
      r := Insert(r, keys[i]);
      i := i + 1;
    }
    assert keys[..|keys|] == keys;
  }

  /** Sorting leaves no choice: two sorted lists of the same strings are one. */
  lemma {:induction false} SortedIsUnique(a: seq<string>, b: seq<string>)
    requires multiset(a) == multiset(b) && Sorted(a) && Sorted(b)
    ensures a == b
  {
    hide AtMost;
    assert |multiset(a)| == |a| && |multiset(b)| == |b|;
    if a != [] {
      SameLeast(a, b);
      assert a == [a[0]] + a[1..] && b == [b[0]] + b[1..];
      assert multiset(a[1..]) == multiset(a) - multiset{a[0]} == multiset(b[1..]);
      SortedIsUnique(a[1..], b[1..]);
    }
  }

  lemma SameLeast(a: seq<string>, b: seq<string>)
    requires multiset(a) == multiset(b) && Sorted(a) && Sorted(b) && a != [] && b != []
    ensures a[0] == b[0]
  {
    hide AtMost;
    assert a[0] in multiset(b) && b[0] in multiset(a);
    var i :| 0 <= i < |a| && a[i] == b[0];
    var k :| 0 <= k < |b| && b[k] == a[0];
    AtMostTotal(a[0], b[0]);
  }

  // ---------------------------------------------------------------------------------------
  // The comparison

  function Get(m: map<string, int>, key: string): int
  {
    if key in m then m[key] else 0
  }

  lemma OccursStep(s: seq<Spelling>, i: nat, key: string)
    requires i < |s|
    ensures Occurs(s[..i + 1], key) == Occurs(s[..i], key) + if s[i].key == key then 1 else 0
    ensures FirstShow(s[..i + 1], key) ==
      if Occurs(s[..i], key) > 0 || s[i].key != key then FirstShow(s[..i], key) else s[i].show
    ensures LastShow(s[..i + 1], key) == if s[i].key == key then s[i].show else LastShow(s[..i], key)
  {
    assert s[..i + 1][..i] == s[..i];
  }

  /** What the count and the shown texts are after the input and the first i tokens of the output. */
  ghost predicate Tallied(input: seq<Spelling>, out: seq<Spelling>, count: map<string, int>, show: map<string, string>)
  {
    && (forall k: string :: Get(count, k) == Balance(input, out, k))
    && (forall k: string :: Balance(input, out, k) > 0 ==> k in show && show[k] == FirstShow(input, k))
    && (forall k: string :: Balance(input, out, k) < 0 ==> k in show && show[k] == LastShow(out, k))
  }

  /** One more token of the output. */
  lemma TallyStep(input: seq<Spelling>, out: seq<Spelling>, i: nat, count: map<string, int>, show: map<string, string>)
    requires i < |out| && Tallied(input, out[..i], count, show)
    ensures var n := Get(count, out[i].key) - 1;
      Tallied(input, out[..i + 1], count[out[i].key := n], if n < 0 then show[out[i].key := out[i].show] else show)
  {
    hide Occurs, FirstShow, LastShow;
    forall k: string
      ensures Occurs(out[..i + 1], k) == Occurs(out[..i], k) + if out[i].key == k then 1 else 0
      ensures LastShow(out[..i + 1], k) == if out[i].key == k then out[i].show else LastShow(out[..i], k)
    {
      OccursStep(out, i, k);
    }
  }

  /** What they are after some tokens of the input: each key that occurred is counted and shown by its first spelling. */
  ghost predicate Read(s: seq<Spelling>, count: map<string, int>, show: map<string, string>)
  {
    && (forall k: string :: Get(count, k) == Occurs(s, k))
    && (forall k: string :: k in show <==> k in count)
    && (forall k: string :: k in show <==> Occurs(s, k) > 0)
    && forall k: string :: k in show ==> show[k] == FirstShow(s, k)
  }

  /** One more token of the input. */
  lemma ReadStep(s: seq<Spelling>, i: nat, count: map<string, int>, show: map<string, string>)
    requires i < |s| && Read(s[..i], count, show)
    ensures Read(s[..i + 1], count[s[i].key := Get(count, s[i].key) + 1], if s[i].key in show then show else show[s[i].key := s[i].show])
  {
    hide Occurs, FirstShow;
    forall k: string
      ensures Occurs(s[..i + 1], k) == Occurs(s[..i], k) + if s[i].key == k then 1 else 0
      ensures FirstShow(s[..i + 1], k) == if Occurs(s[..i], k) > 0 || s[i].key != k then FirstShow(s[..i], k) else s[i].show
    {
      OccursStep(s, i, k);
    }
  }

  /** The first loop of spellingDiff. */
  method TallyInput(input: seq<Spelling>) returns (count: map<string, int>, show: map<string, string>)
    ensures Read(input, count, show)
  {
    hide Occurs, FirstShow, LastShow;
    count, show := map[], map[];
    var i := 0;
    NothingRead(input);
    while i < |input|
      invariant 0 <= i <= |input|
      invariant Read(input[..i], count, show)
    {
      hide Read;
      var s := input[i];
      ReadStep(input, i, count, show);
      count := count[s.key := Get(count, s.key) + 1];
      if s.key !in show {
        show := show[s.key := s.show];
      }
      i := i + 1;
    }
    assert input[..|input|] == input;
  }

  /** The counting loops of spellingDiff. */
  method Tally(input: seq<Spelling>, out: seq<Spelling>) returns (count: map<string, int>, show: map<string, string>)
    ensures forall k: string :: Get(count, k) == Balance(input, out, k)
    ensures forall k: string :: Balance(input, out, k) > 0 ==> k in show && show[k] == FirstShow(input, k)
    ensures forall k: string :: Balance(input, out, k) < 0 ==> k in show && show[k] == LastShow(out, k)
  {
    hide Occurs, FirstShow, LastShow;
    count, show := TallyInput(input);
    NothingRead(out);
    var i := 0;
    assert Tallied(input, out[..0], count, show);
    while i < |out|
      invariant 0 <= i <= |out|
      invariant Tallied(input, out[..i], count, show)
    {
      hide Tallied, Balance;
      var s := out[i];
      TallyStep(input, out, i, count, show);
      count := count[s.key := Get(count, s.key) - 1];
      if count[s.key] < 0 {
        show := show[s.key := s.show];
      }
      i := i + 1;
    }
    assert out[..|out|] == out;
  }

  lemma NothingRead(s: seq<Spelling>)
    ensures s[..0] == [] && forall k: string :: Occurs(s[..0], k) == 0
  {
  }

  // ---------------------------------------------------------------------------------------
  // The two lists

  /** The keys of the first n spellings, sorted, each as often as it occurs but at most as often as cap allows. */
  function Selected(s: seq<Spelling>, n: nat, cap: string -> nat): (r: seq<string>)
    requires n <= |s|
    ensures Sorted(r) && forall k: string :: multiset(r)[k] == Min(Occurs(s[..n], k), cap(k))
  {
    if n == 0 then []
    else
      var key := s[n - 1].key;
      assert s[..n][..n - 1] == s[..n - 1];
      var before := Selected(s, n - 1, cap);
      if Occurs(s[..n - 1], key) < cap(key) then Insert(before, key) else before
  }

  function LostKeys(input: seq<Spelling>, out: seq<Spelling>): seq<string>
  {
    Selected(input, |input|, (k: string) => LostCount(input, out, k))
  }

  function AddedKeys(input: seq<Spelling>, out: seq<Spelling>): seq<string>
  {
    Selected(out, |out|, (k: string) => AddedCount(input, out, k))
  }

  /** No key is lost or added more often than it occurs, so the lists hold every surplus. */
  lemma KeysAreSurplus(input: seq<Spelling>, out: seq<Spelling>)
    ensures Sorted(LostKeys(input, out)) && forall k: string :: multiset(LostKeys(input, out))[k] == LostCount(input, out, k)
    ensures Sorted(AddedKeys(input, out)) && forall k: string :: multiset(AddedKeys(input, out))[k] == AddedCount(input, out, k)
  {
    hide Occurs, Selected;
    assert input[..|input|] == input && out[..|out|] == out;
    forall k: string
      ensures LostCount(input, out, k) <= Occurs(input, k) && AddedCount(input, out, k) <= Occurs(out, k)
    {
      NetSign(input, out, k);
    }
  }

  function FirstShows(s: seq<Spelling>, keys: seq<string>): (r: seq<string>)
    ensures |r| == |keys| && forall i :: 0 <= i < |r| ==> r[i] == FirstShow(s, keys[i])
  {
    seq(|keys|, i requires 0 <= i < |keys| => FirstShow(s, keys[i]))
  }

  function LastShows(s: seq<Spelling>, keys: seq<string>): (r: seq<string>)
    ensures |r| == |keys| && forall i :: 0 <= i < |r| ==> r[i] == LastShow(s, keys[i])
  {
    seq(|keys|, i requires 0 <= i < |keys| => LastShow(s, keys[i]))
  }

  /** What is shown as lost, and as added. */
  function Lost(input: seq<Spelling>, out: seq<Spelling>): seq<string>
  {
    FirstShows(input, LostKeys(input, out))
  }

  function Added(input: seq<Spelling>, out: seq<Spelling>): seq<string>
  {
    LastShows(out, AddedKeys(input, out))
  }

  /** Lists with that surplus and these texts are the ones shown. */
  lemma ListsAreShown(input: seq<Spelling>, out: seq<Spelling>, lostKeys: seq<string>, addedKeys: seq<string>, lost: seq<string>, added: seq<string>)
    requires Sorted(lostKeys) && forall k: string :: multiset(lostKeys)[k] == LostCount(input, out, k)
    requires Sorted(addedKeys) && forall k: string :: multiset(addedKeys)[k] == AddedCount(input, out, k)
    requires |lost| == |lostKeys| && forall i :: 0 <= i < |lost| ==> lost[i] == FirstShow(input, lostKeys[i])
    requires |added| == |addedKeys| && forall i :: 0 <= i < |added| ==> added[i] == LastShow(out, addedKeys[i])
    ensures lost == Lost(input, out) && added == Added(input, out)
  {
    hide Occurs, FirstShow, LastShow, LostCount, AddedCount, AtMost, LostKeys, AddedKeys;
    KeysAreSurplus(input, out);
    assert multiset(lostKeys) == multiset(LostKeys(input, out)) && multiset(addedKeys) == multiset(AddedKeys(input, out));
    SortedIsUnique(lostKeys, LostKeys(input, out));
    SortedIsUnique(addedKeys, AddedKeys(input, out));
  }

  /** spellingDiff: every key with its exact surplus, sorted, each shown as its side spells it. */
  method SpellingDiff(input: seq<Spelling>, out: seq<Spelling>)
    returns (lostKeys: seq<string>, addedKeys: seq<string>, lost: seq<string>, added: seq<string>)
    ensures Sorted(lostKeys) && forall k: string :: multiset(lostKeys)[k] == LostCount(input, out, k)
    ensures Sorted(addedKeys) && forall k: string :: multiset(addedKeys)[k] == AddedCount(input, out, k)
    ensures |lost| == |lostKeys| && forall i :: 0 <= i < |lost| ==> lost[i] == FirstShow(input, lostKeys[i])
    ensures |added| == |addedKeys| && forall i :: 0 <= i < |added| ==> added[i] == LastShow(out, addedKeys[i])
    ensures lost == Lost(input, out) && added == Added(input, out)
  {
    hide Occurs, FirstShow, LastShow, AtMost, Lost, Added;
    var tally, show := Tally(input, out);
    var count := tally;
    var c, j := Get(count, CROSS_KEY), Get(count, JOIN_KEY);
    if c < 0 && j < 0 {
      var n := Min(-c, -j);
      count := count[CROSS_KEY := c + n];
      count := count[JOIN_KEY := j + n];
    }
    CountIsNet(input, out, tally, count);
    lostKeys, addedKeys := Surplus(input, out, count);
    lostKeys := SortStrings(lostKeys);
    addedKeys := SortStrings(addedKeys);
    KeysHaveSurplus(input, out, lostKeys, addedKeys);
    hide Net, Balance, LostCount, AddedCount;
    lost := ShowAll(lostKeys, show, (k: string) => FirstShow(input, k));
    added := ShowAll(addedKeys, show, (k: string) => LastShow(out, k));
    ListsAreShown(input, out, lostKeys, addedKeys, lost, added);
  }

  /** Adding the CROSS JOIN pairs back turns the balance into the net count. */
  lemma CountIsNet(input: seq<Spelling>, out: seq<Spelling>, before: map<string, int>, after: map<string, int>)
    requires forall k: string :: Get(before, k) == Balance(input, out, k)
    requires var c, j := Get(before, CROSS_KEY), Get(before, JOIN_KEY);
      after == if c < 0 && j < 0 then before[CROSS_KEY := c + Min(-c, -j)][JOIN_KEY := j + Min(-c, -j)] else before
    ensures forall k: string :: Get(after, k) == Net(input, out, k)
  {
    hide Occurs, Balance;
  }

  lemma KeysHaveSurplus(input: seq<Spelling>, out: seq<Spelling>, lostKeys: seq<string>, addedKeys: seq<string>)
    requires forall k: string :: multiset(lostKeys)[k] == LostCount(input, out, k)
    requires forall k: string :: multiset(addedKeys)[k] == AddedCount(input, out, k)
    ensures forall i :: 0 <= i < |lostKeys| ==> Balance(input, out, lostKeys[i]) > 0
    ensures forall i :: 0 <= i < |addedKeys| ==> Balance(input, out, addedKeys[i]) < 0
  {
    hide Balance, Net;
    forall i | 0 <= i < |lostKeys|
      ensures Balance(input, out, lostKeys[i]) > 0
    {
      assert lostKeys[i] in multiset(lostKeys);
      NetSign(input, out, lostKeys[i]);
    }
    forall i | 0 <= i < |addedKeys|
      ensures Balance(input, out, addedKeys[i]) < 0
    {
      assert addedKeys[i] in multiset(addedKeys);
      NetSign(input, out, addedKeys[i]);
    }
  }

  /** Taking CROSS JOIN pairs as commas never turns an addition into a loss. */
  lemma NetSign(input: seq<Spelling>, out: seq<Spelling>, key: string)
    ensures Net(input, out, key) > 0 ==> Balance(input, out, key) > 0
    ensures Net(input, out, key) < 0 ==> Balance(input, out, key) < 0
  {
    hide Occurs;
  }

  /** The loop over the count map, in whatever order the map gives its keys. */
  method Surplus(input: seq<Spelling>, out: seq<Spelling>, count: map<string, int>) returns (lostKeys: seq<string>, addedKeys: seq<string>)
    requires forall k: string :: Get(count, k) == Net(input, out, k)
    ensures forall k: string :: multiset(lostKeys)[k] == LostCount(input, out, k)
    ensures forall k: string :: multiset(addedKeys)[k] == AddedCount(input, out, k)
  {
    hide Net;
    lostKeys, addedKeys := [], [];
    var pending := count.Keys;
    while pending != {}
      invariant pending <= count.Keys
      invariant forall k: string :: multiset(lostKeys)[k] == if k in pending then 0 else LostCount(input, out, k)
      invariant forall k: string :: multiset(addedKeys)[k] == if k in pending then 0 else AddedCount(input, out, k)
      decreases pending
    {
      var s: string :| s in pending;
      pending := pending - {s};
      var n := count[s];
      assert n == Net(input, out, s);
      if n < 0 && (s == AS_KEY || s == EQ_KEY) {
        continue;
      }
      var up := Copies(s, if n > 0 then n else 0);
      var down := Copies(s, if n < 0 then -n else 0);
      assert multiset(lostKeys + up) == multiset(lostKeys) + multiset(up);
      assert multiset(addedKeys + down) == multiset(addedKeys) + multiset(down);
      lostKeys := lostKeys + up;
      addedKeys := addedKeys + down;
    }
  }

  function Copies(s: string, n: nat): (r: seq<string>)
    ensures |r| == n && forall k: string :: multiset(r)[k] == if k == s then n else 0
  {
    if n == 0 then [] else Copies(s, n - 1) + [s]
  }

  method ShowAll(keys: seq<string>, show: map<string, string>, f: string -> string) returns (r: seq<string>)
    requires forall i :: 0 <= i < |keys| ==> keys[i] in show && show[keys[i]] == f(keys[i])
    ensures |r| == |keys| && forall i :: 0 <= i < |keys| ==> r[i] == f(keys[i])
  {
    r := [];
    var i := 0;
    while i < |keys|
      invariant 0 <= i <= |keys| && |r| == i
      invariant forall k :: 0 <= k < i ==> r[k] == f(keys[k])
    {
      r := r + [show[keys[i]]];
      i := i + 1;
    }
  }

  // ---------------------------------------------------------------------------------------
  // What an empty difference means

  /** The same spellings as multisets, but for more AS and =, and more CROSS and JOIN in pairs, in the output. */
  ghost predicate SameButNeutral(input: seq<Spelling>, out: seq<Spelling>)
  {
    && (forall k: string :: k !in {AS_KEY, EQ_KEY, CROSS_KEY, JOIN_KEY} ==> Occurs(input, k) == Occurs(out, k))
    && Occurs(input, AS_KEY) <= Occurs(out, AS_KEY) && Occurs(input, EQ_KEY) <= Occurs(out, EQ_KEY)
    && Occurs(out, CROSS_KEY) - Occurs(input, CROSS_KEY) == Occurs(out, JOIN_KEY) - Occurs(input, JOIN_KEY) >= 0
  }

  /** Nothing is lost and nothing added exactly when the spellings are the same but for the neutral additions. */
  lemma EmptyDifference(input: seq<Spelling>, out: seq<Spelling>)
    ensures (forall k: string :: LostCount(input, out, k) == 0 && AddedCount(input, out, k) == 0) <==> SameButNeutral(input, out)
  {
    hide Occurs;
    if forall k: string :: LostCount(input, out, k) == 0 && AddedCount(input, out, k) == 0 {
      assert LostCount(input, out, CROSS_KEY) == 0 && AddedCount(input, out, CROSS_KEY) == 0;
      assert LostCount(input, out, JOIN_KEY) == 0 && AddedCount(input, out, JOIN_KEY) == 0;
      assert LostCount(input, out, AS_KEY) == 0 && LostCount(input, out, EQ_KEY) == 0;
      forall k: string | k !in {AS_KEY, EQ_KEY, CROSS_KEY, JOIN_KEY}
        ensures Occurs(input, k) == Occurs(out, k)
      {
        assert LostCount(input, out, k) == 0 && AddedCount(input, out, k) == 0;
      }
    }
    if SameButNeutral(input, out) {
      forall k: string
        ensures Net(input, out, k) == 0 || (Net(input, out, k) < 0 && (k == AS_KEY || k == EQ_KEY))
      {
        assert k !in {AS_KEY, EQ_KEY, CROSS_KEY, JOIN_KEY} ==> Occurs(input, k) == Occurs(out, k);
      }
    }
  }

  lemma {:induction false} OccursIsMultiset(s: seq<Spelling>, t: seq<Spelling>, key: string)
    requires multiset(s) == multiset(t)
    ensures Occurs(s, key) == Occurs(t, key)
    decreases |s|
  {
    assert |multiset(s)| == |s| && |multiset(t)| == |t|;
    if s != [] {
      var first, x := s[..|s| - 1], s[|s| - 1];
      hide Occurs;
      assert s == first + [x];
      assert x in multiset(t);
      var i :| 0 <= i < |t| && t[i] == x;
      assert t == t[..i] + [x] + t[i + 1..];
      assert multiset(first) == multiset(s) - multiset{x} == multiset(t[..i] + t[i + 1..]);
      OccursTakenOut(first, x, [], key);
      assert first + [x] + [] == s && first + [] == first;
      OccursIsMultiset(first, t[..i] + t[i + 1..], key);
      OccursTakenOut(t[..i], x, t[i + 1..], key);
    }
  }

  lemma OccursTakenOut(a: seq<Spelling>, x: Spelling, b: seq<Spelling>, key: string)
    ensures Occurs(a + [x] + b, key) == Occurs(a + b, key) + if x.key == key then 1 else 0
  {
    OccursOver(a + [x], b, key);
    OccursOver(a, [x], key);
    OccursOver(a, b, key);
    assert [x][..0] == [];
  }

  lemma {:induction false} OccursOver(a: seq<Spelling>, b: seq<Spelling>, key: string)
    ensures Occurs(a + b, key) == Occurs(a, key) + Occurs(b, key)
    decreases |b|
  {
    if b == [] {
      assert a + b == a;
    } else {
      assert (a + b)[..|a + b| - 1] == a + b[..|b| - 1];
      OccursOver(a, b[..|b| - 1], key);
    }
  }

  /** The keys reported do not depend on the order of the tokens on either side. */
  lemma KeysIgnoreOrder(input: seq<Spelling>, input': seq<Spelling>, out: seq<Spelling>, out': seq<Spelling>)
    requires multiset(input) == multiset(input') && multiset(out) == multiset(out')
    ensures LostKeys(input, out) == LostKeys(input', out') && AddedKeys(input, out) == AddedKeys(input', out')
  {
    hide Occurs, LostKeys, AddedKeys, AtMost;
    forall k: string
      ensures Occurs(input, k) == Occurs(input', k) && Occurs(out, k) == Occurs(out', k)
    {
      OccursIsMultiset(input, input', k);
      OccursIsMultiset(out, out', k);
    }
    KeysAreSurplus(input, out);
    KeysAreSurplus(input', out');
    assert multiset(LostKeys(input, out)) == multiset(LostKeys(input', out'));
    assert multiset(AddedKeys(input, out)) == multiset(AddedKeys(input', out'));
    SortedIsUnique(LostKeys(input, out), LostKeys(input', out'));
    SortedIsUnique(AddedKeys(input, out), AddedKeys(input', out'));
  }

  /** All spellings of a key are shown alike. */
  predicate OneSpelling(s: seq<Spelling>, key: string)
  {
    forall i, j :: 0 <= i < j < |s| && s[i].key == key && s[j].key == key ==> s[i].show == s[j].show
  }

  /** The first and the last spelling of a key that occurs. */
  lemma {:induction false} ShownOccurs(s: seq<Spelling>, key: string) returns (first: nat, last: nat)
    requires Occurs(s, key) > 0
    ensures first < |s| && s[first] == Spelling(key, FirstShow(s, key))
    ensures last < |s| && s[last] == Spelling(key, LastShow(s, key))
  {
    var t, x := s[..|s| - 1], s[|s| - 1];
    first, last := |s| - 1, |s| - 1;
    if Occurs(t, key) > 0 {
      var f, l := ShownOccurs(t, key);
      first := f;
      last := if x.key == key then |s| - 1 else l;
    }
  }

  lemma OneSpellingShown(s: seq<Spelling>, t: seq<Spelling>, key: string)
    requires multiset(s) == multiset(t) && OneSpelling(s, key) && Occurs(s, key) > 0
    ensures FirstShow(s, key) == FirstShow(t, key) && LastShow(s, key) == LastShow(t, key)
  {
    hide Occurs, FirstShow, LastShow;
    OccursIsMultiset(s, t, key);
    var f, l := ShownOccurs(s, key);
    var f', l' := ShownOccurs(t, key);
    assert t[f'] in multiset(s) && t[l'] in multiset(s);
    var i :| 0 <= i < |s| && s[i] == t[f'];
    var j :| 0 <= j < |s| && s[j] == t[l'];
    assert s[i].show == s[f].show && s[j].show == s[l].show;
  }

  lemma {:induction false} FirstInFront(x: Spelling, t: seq<Spelling>)
    ensures FirstShow([x] + t, x.key) == x.show
  {
    if t == [] {
      assert [x] + t == [x] && [x][..0] == [];
    } else {
      var s := [x] + t;
      assert s[..|s| - 1] == [x] + t[..|t| - 1];
      FirstInFront(x, t[..|t| - 1]);
      assert s[..|s| - 1][0] == x;
    }
  }

  lemma LastAtEnd(x: Spelling, t: seq<Spelling>)
    ensures LastShow(t + [x], x.key) == x.show
  {
    assert (t + [x])[|t|] == x;
  }

  lemma MovedToFront(s: seq<Spelling>, i: nat)
    requires i < |s|
    ensures multiset([s[i]] + (s[..i] + s[i + 1..])) == multiset(s) == multiset(s[..i] + s[i + 1..] + [s[i]])
  {
    assert s == s[..i] + [s[i]] + s[i + 1..];
  }

  /** With two spellings of a key, another order shows another text first. */
  lemma ReorderedFirst(s: seq<Spelling>, key: string) returns (t: seq<Spelling>)
    requires !OneSpelling(s, key)
    ensures multiset(t) == multiset(s) && FirstShow(t, key) != FirstShow(s, key)
  {
    hide FirstShow;
    var i, j :| 0 <= i < j < |s| && s[i].key == key && s[j].key == key && s[i].show != s[j].show;
    var f := if s[i].show == FirstShow(s, key) then j else i;
    MovedToFront(s, f);
    FirstInFront(s[f], s[..f] + s[f + 1..]);
    t := [s[f]] + (s[..f] + s[f + 1..]);
  }

  lemma ReorderedLast(s: seq<Spelling>, key: string) returns (t: seq<Spelling>)
    requires !OneSpelling(s, key)
    ensures multiset(t) == multiset(s) && LastShow(t, key) != LastShow(s, key)
  {
    hide LastShow;
    var i, j :| 0 <= i < j < |s| && s[i].key == key && s[j].key == key && s[i].show != s[j].show;
    var l := if s[i].show == LastShow(s, key) then j else i;
    MovedToFront(s, l);
    LastAtEnd(s[l], s[..l] + s[l + 1..]);
    t := s[..l] + s[l + 1..] + [s[l]];
  }

  /** Every lost key is spelled one way in the input, and every added key in the output. */
  ghost predicate SpelledOneWay(input: seq<Spelling>, out: seq<Spelling>)
  {
    forall k: string :: (LostCount(input, out, k) > 0 ==> OneSpelling(input, k)) && (AddedCount(input, out, k) > 0 ==> OneSpelling(out, k))
  }

  /** Every order of the tokens on either side shows the same texts. */
  ghost predicate OrderFree(input: seq<Spelling>, out: seq<Spelling>)
  {
    forall input', out' :: multiset(input') == multiset(input) && multiset(out') == multiset(out) ==>
      Lost(input', out') == Lost(input, out) && Added(input', out') == Added(input, out)
  }

  lemma SurplusOccurs(input: seq<Spelling>, out: seq<Spelling>, key: string)
    ensures LostCount(input, out, key) > 0 <==> key in LostKeys(input, out)
    ensures AddedCount(input, out, key) > 0 <==> key in AddedKeys(input, out)
    ensures key in LostKeys(input, out) ==> Occurs(input, key) > 0
    ensures key in AddedKeys(input, out) ==> Occurs(out, key) > 0
  {
    hide Occurs, LostKeys, AddedKeys;
    KeysAreSurplus(input, out);
    NetSign(input, out, key);
    assert key in multiset(LostKeys(input, out)) <==> key in LostKeys(input, out);
    assert key in multiset(AddedKeys(input, out)) <==> key in AddedKeys(input, out);
  }

  lemma SpelledIsOrderFree(input: seq<Spelling>, out: seq<Spelling>, input': seq<Spelling>, out': seq<Spelling>)
    requires SpelledOneWay(input, out) && multiset(input') == multiset(input) && multiset(out') == multiset(out)
    ensures Lost(input', out') == Lost(input, out) && Added(input', out') == Added(input, out)
  {
    hide Occurs, FirstShow, LastShow, LostCount, AddedCount, LostKeys, AddedKeys, OneSpelling;
    KeysIgnoreOrder(input, input', out, out');
    forall key | key in LostKeys(input, out)
      ensures FirstShow(input', key) == FirstShow(input, key)
    {
      SurplusOccurs(input, out, key);
      OneSpellingShown(input, input', key);
    }
    forall key | key in AddedKeys(input, out)
      ensures LastShow(out', key) == LastShow(out, key)
    {
      SurplusOccurs(input, out, key);
      OneSpellingShown(out, out', key);
    }
  }

  lemma LostDiffers(input: seq<Spelling>, out: seq<Spelling>, key: string) returns (input': seq<Spelling>)
    requires LostCount(input, out, key) > 0 && !OneSpelling(input, key)
    ensures multiset(input') == multiset(input) && Lost(input', out) != Lost(input, out)
  {
    hide Occurs, FirstShow, LostCount, AddedCount, LostKeys, AddedKeys, OneSpelling;
    SurplusOccurs(input, out, key);
    input' := ReorderedFirst(input, key);
    KeysIgnoreOrder(input, input', out, out);
    var i :| 0 <= i < |LostKeys(input, out)| && LostKeys(input, out)[i] == key;
    assert Lost(input', out)[i] != Lost(input, out)[i];
  }

  lemma AddedDiffers(input: seq<Spelling>, out: seq<Spelling>, key: string) returns (out': seq<Spelling>)
    requires AddedCount(input, out, key) > 0 && !OneSpelling(out, key)
    ensures multiset(out') == multiset(out) && Added(input, out') != Added(input, out)
  {
    hide Occurs, LastShow, LostCount, AddedCount, LostKeys, AddedKeys, OneSpelling;
    SurplusOccurs(input, out, key);
    out' := ReorderedLast(out, key);
    KeysIgnoreOrder(input, input, out, out');
    var i :| 0 <= i < |AddedKeys(input, out)| && AddedKeys(input, out)[i] == key;
    assert Added(input, out')[i] != Added(input, out)[i];
  }

  lemma OrderFreeIsSpelled(input: seq<Spelling>, out: seq<Spelling>, key: string)
    requires OrderFree(input, out)
    ensures LostCount(input, out, key) > 0 ==> OneSpelling(input, key)
    ensures AddedCount(input, out, key) > 0 ==> OneSpelling(out, key)
  {
    hide LostCount, AddedCount, OneSpelling, Lost, Added;
    if LostCount(input, out, key) > 0 && !OneSpelling(input, key) {
      var input' := LostDiffers(input, out, key);
      assert false;
    }
    if AddedCount(input, out, key) > 0 && !OneSpelling(out, key) {
      var out' := AddedDiffers(input, out, key);
      assert false;
    }
  }

  /** The shown lists are the same for every order of the tokens if and only if each reported key is spelled one way on its side. */
  lemma ShownIgnoresOrderExactly(input: seq<Spelling>, out: seq<Spelling>)
    ensures OrderFree(input, out) <==> SpelledOneWay(input, out)
  {
    hide LostCount, AddedCount, OneSpelling, Lost, Added;
    if OrderFree(input, out) {
      forall k: string
        ensures (LostCount(input, out, k) > 0 ==> OneSpelling(input, k)) && (AddedCount(input, out, k) > 0 ==> OneSpelling(out, k))
      {
        OrderFreeIsSpelled(input, out, k);
      }
    }
    if SpelledOneWay(input, out) {
      forall input', out' | multiset(input') == multiset(input) && multiset(out') == multiset(out)
        ensures Lost(input', out') == Lost(input, out) && Added(input', out') == Added(input, out)
      {
        SpelledIsOrderFree(input, out, input', out');
      }
    }
  }

  /** They can differ: two spellings of one number are shown as whichever came first. */
  lemma ShownTextDependsOnOrder()
    ensures var a, b := Spelling("N:1", "1"), Spelling("N:1", "0x1"); !OrderFree([a, b], [])
  {
    var a, b := Spelling("N:1", "1"), Spelling("N:1", "0x1");
    assert [a, b][..1] == [a] && [a][..0] == [];
    assert Occurs([a, b], "N:1") == 2;
    assert CROSS_KEY != "N:1" && JOIN_KEY != "N:1";
    assert LostCount([a, b], [], "N:1") == 2;
    assert [a, b][0].show != [a, b][1].show && !OneSpelling([a, b], "N:1");
    ShownIgnoresOrderExactly([a, b], []);
  }
}
