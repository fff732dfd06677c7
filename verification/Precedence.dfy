/**
 When an AND is proven logical rather than the AND of a BETWEEN: a backward scan that pairs the two
 words, proved against the forward count of the ANDs still owed.
 */
module Precedence {
  import opened Tokens

  predicate OpensUnit(t: Kind)
  {
    IsOpenBracket(t) || t.Case?
  }

  predicate ClosesUnit(t: Kind)
  {
    IsCloseBracket(t) || t.End?
  }

  /** unitCloser. */
  function UnitCloser(open: Kind): Kind
  {
    if open.Case? then End else CloserOf(open)
  }

  /** opensExpression. */
  predicate OpensExpression(t: Kind)
  {
    || t.LParen? || t.Comma? || t.Select? || t.Distinct? || t.Where? || t.Prewhere? || t.Having?
    || t.When? || t.Then? || t.Else? || t.By? || t.And? || t.Or?
  }

  /** closesExpression. */
  predicate ClosesExpression(t: Kind)
  {
    || t.RParen? || t.Comma? || t.Semicolon? || t.From? || t.Where? || t.Prewhere? || t.Group? || t.Order?
    || t.Having? || t.Limit? || t.Settings? || t.Format? || t.As? || t.When? || t.Then? || t.Else? || t.End?
    || t.And? || t.Or? || t.Asc? || t.Desc? || t.Union?
  }

  /** andBorders. */
  predicate AndBorder(t: Kind)
  {
    || t.Comma? || t.Select? || t.Where? || t.Prewhere? || t.Having? || t.When? || t.Then? || t.Else? || t.By?
    || t.Or? || t.On? || t.Arrow?
  }

  /** andChainToken. */
  predicate AndChainToken(toks: seq<Kind>, k: nat)
    requires k < |toks|
  {
    var t := toks[k];
    if t.Distinct? then k > 0 && (toks[k - 1].Select? || toks[k - 1].Is? || toks[k - 1].Not?)
    else if t.From? then k >= 2 && toks[k - 1].Distinct? && (toks[k - 2].Is? || toks[k - 2].Not?)
    else IsAtomic(t) || t.Identifier? || t.Dot? || t.Not? || t.Is? || t.ChainOperator?
  }

  // ---------------------------------------------------------------------------------------
  // Units and levels

  /** Openers less closers in toks[a..b], CASE … END counting as a bracket pair. */
  function Depth(toks: seq<Kind>, a: nat, b: nat): int
    requires a <= b <= |toks|
  {
    if a == b then 0
    else Depth(toks, a, b - 1) + (if OpensUnit(toks[b - 1]) then 1 else if ClosesUnit(toks[b - 1]) then -1 else 0)
  }

  lemma {:induction false} DepthSplit(toks: seq<Kind>, a: nat, m: nat, b: nat)
    requires a <= m <= b <= |toks|
    ensures Depth(toks, a, b) == Depth(toks, a, m) + Depth(toks, m, b)
  {
    if m < b {
      DepthSplit(toks, a, m, b - 1);
    }
  }

  /** Position i lies directly in the level that starts at lo: no unit opened since lo is open, none was closed too often. */
  predicate InLevel(toks: seq<Kind>, lo: nat, i: nat)
  {
    && lo <= i <= |toks|
    && (lo == 0 || OpensUnit(toks[lo - 1]))
    && Depth(toks, lo, i) == 0
    && forall k :: lo <= k <= i ==> Depth(toks, lo, k) >= 0
  }

  /**
   The forward grammar of BETWEEN: reading the level from lo, how many BETWEENs before i still own
   an AND to come. Each AND settles the innermost one. A border forgets them all; so does DISTINCT,
   unless it is part of IS [NOT] DISTINCT FROM.
   */
  function Owed(toks: seq<Kind>, lo: nat, i: nat): nat
    requires lo <= i <= |toks|
  {
    if i == lo then 0
    else
      var before := Owed(toks, lo, i - 1);
      var t := toks[i - 1];
      if Depth(toks, lo, i - 1) != 0 then before
      else if AndBorder(t) then 0
      else if t.Distinct? && (i < lo + 2 || !(toks[i - 2].Is? || toks[i - 2].Not?)) then 0
      else if t.Between? then before + 1
      else if t.And? && before > 0 then before - 1
      else before
  }

  /** No BETWEEN owns the AND at j, in whatever level it lies. */
  ghost predicate Logical(toks: seq<Kind>, j: nat)
    requires j < |toks|
  {
    forall lo: nat :: InLevel(toks, lo, j) ==> Owed(toks, lo, j) == 0
  }

  /** An IS or NOT stands right before p, so that DISTINCT at p belongs to IS [NOT] DISTINCT FROM. */
  predicate AfterIsNot(toks: seq<Kind>, p: nat)
    requires p < |toks|
  {
    p > 0 && (toks[p - 1].Is? || toks[p - 1].Not?)
  }

  /** A token of the chain that starts at `from` and changes nothing about what is owed. */
  predicate Steady(toks: seq<Kind>, from: nat, p: nat)
    requires from <= p < |toks|
  {
    var t := toks[p];
    && !AndBorder(t) && !t.And? && !t.Between?
    && (t.Distinct? ==> AfterIsNot(toks, p) || (p == from && p > 0 && toks[p - 1].Select?))
  }

  /** Steady tokens leave what is owed as it was. */
  lemma {:induction false} OwedOver(toks: seq<Kind>, lo: nat, from: nat, a: nat, b: nat)
    requires lo <= from <= a <= b <= |toks| && (lo == 0 || OpensUnit(toks[lo - 1]))
    requires Owed(toks, lo, from) == 0
    requires forall p :: a <= p < b && Depth(toks, lo, p) == 0 ==> Steady(toks, from, p)
    ensures Owed(toks, lo, b) == Owed(toks, lo, a)
  {
    if a < b {
      OwedOver(toks, lo, from, a, b - 1);
    }
  }

  /** A BETWEEN or AND of the chain: it stands at no unit's depth, counted back from j. */
  predicate InChain(toks: seq<Kind>, p: nat, j: nat)
    requires p < j <= |toks|
  {
    Depth(toks, p, j) == 0 && (toks[p].Between? || toks[p].And?)
  }

  /** The BETWEEN and AND tokens outside any unit from `from` up to j, right to left. */
  predicate IsChain(toks: seq<Kind>, from: nat, j: nat, chain: seq<nat>)
    requires from <= j <= |toks|
  {
    && (forall i :: 0 <= i < |chain| ==> from <= chain[i] < j && InChain(toks, chain[i], j))
    && (forall i, i' :: 0 <= i < i' < |chain| ==> chain[i'] < chain[i])
    && (forall p :: from <= p < j && InChain(toks, p, j) ==> p in chain)
  }

  /** Outside any unit, `from` up to j holds only BETWEEN, AND and steady tokens. */
  predicate IsRun(toks: seq<Kind>, from: nat, j: nat)
    requires from <= j <= |toks|
  {
    forall p :: from <= p < j && Depth(toks, p, j) == 0 && !toks[p].Between? && !toks[p].And? ==> Steady(toks, from, p)
  }

  /** The pairing pass: false when a BETWEEN is met inside another's bounds; and whether one is left owning an AND. */
  function Pairing(toks: seq<Kind>, chain: seq<nat>): (bool, bool)
    requires forall i :: 0 <= i < |chain| ==> chain[i] < |toks|
  {
    if chain == [] then (true, false)
    else
      var (fine, owned) := Pairing(toks, chain[1..]);
      if toks[chain[0]].Between? then (fine && !owned, true) else (fine, false)
  }

  /** Counting forward and counting back agree inside a level. */
  lemma LevelDepths(toks: seq<Kind>, lo: nat, j: nat)
    requires InLevel(toks, lo, j)
    ensures forall p :: lo <= p <= j ==> Depth(toks, p, j) == -Depth(toks, lo, p)
  {
    forall p | lo <= p <= j
      ensures Depth(toks, lo, p) + Depth(toks, p, j) == 0
    {
      DepthSplit(toks, lo, p, j);
    }
  }

  /** Along the chain, what is owed is what the pairing pass says. */
  lemma {:induction false} PairingIsOwed(toks: seq<Kind>, lo: nat, from: nat, j: nat, chain: seq<nat>)
    requires InLevel(toks, lo, j) && lo <= from <= j && IsChain(toks, from, j, chain) && IsRun(toks, from, j)
    requires Owed(toks, lo, from) == 0
    requires Pairing(toks, chain).0
    ensures Owed(toks, lo, j) == if Pairing(toks, chain).1 then 1 else 0
    decreases |chain|
  {
    LevelDepths(toks, lo, j);
    if chain == [] {
      hide Owed, AndBorder, AfterIsNot;
      forall p | from <= p < j && Depth(toks, lo, p) == 0
        ensures Steady(toks, from, p)
      {
        assert InChain(toks, p, j) <==> toks[p].Between? || toks[p].And?;
      }
      OwedOver(toks, lo, from, from, j);
    } else {
      hide IsRun, IsChain, Steady, AfterIsNot, Depth;
      var c := chain[0];
      ChainTail(toks, lo, from, j, chain);
      OwedOver(toks, lo, from, c + 1, j);
      PairingIsOwed(toks, lo, from, c, chain[1..]);
    }
  }

  /** Everything between the last chain token and j is steady; the rest is the chain of what precedes it. */
  lemma ChainTail(toks: seq<Kind>, lo: nat, from: nat, j: nat, chain: seq<nat>)
    requires InLevel(toks, lo, j) && lo <= from <= j && IsChain(toks, from, j, chain) && chain != [] && IsRun(toks, from, j)
    ensures forall p :: chain[0] < p < j && Depth(toks, lo, p) == 0 ==> Steady(toks, from, p)
    ensures InLevel(toks, lo, chain[0]) && IsChain(toks, from, chain[0], chain[1..]) && IsRun(toks, from, chain[0])
  {
    var c := chain[0];
    LevelDepths(toks, lo, j);
    forall p | lo <= p < c
      ensures Depth(toks, p, c) == Depth(toks, p, j)
    {
      DepthSplit(toks, p, c, j);
    }
    forall p | c < p < j && Depth(toks, lo, p) == 0
      ensures Steady(toks, from, p)
    {
      assert InChain(toks, p, j) <==> toks[p].Between? || toks[p].And?;
    }
    assert forall i :: 0 <= i < |chain[1..]| ==> chain[1..][i] == chain[i + 1];
    forall p | from <= p < c && InChain(toks, p, c)
      ensures p in chain[1..]
    {
      assert InChain(toks, p, j);
    }
  }

  // ---------------------------------------------------------------------------------------
  // The backward scan

  /** A token outside any unit that the scan gives up on. */
  predicate Unclassified(toks: seq<Kind>, p: nat)
    requires p < |toks|
  {
    var t := toks[p];
    !OpensUnit(t) && !ClosesUnit(t) && !AndBorder(t) && !t.Between? && !t.And? && !AndChainToken(toks, p)
  }

  /** An opener and the closer that meets it are of different kinds. */
  predicate Mismatch(toks: seq<Kind>, o: nat, c: nat)
    requires o < c < |toks|
  {
    OpensUnit(toks[o]) && ClosesUnit(toks[c]) && Depth(toks, o + 1, c) == 0 && UnitCloser(toks[o]) != toks[c]
  }

  /** In the level from lo, an unclassified token stands before j, or a BETWEEN inside another's bounds. */
  ghost predicate Obscure(toks: seq<Kind>, lo: nat, j: nat)
    requires j <= |toks|
  {
    exists p :: lo <= p < j && Depth(toks, lo, p) == 0 &&
      (Unclassified(toks, p) || (toks[p].Between? && Owed(toks, lo, p) > 0))
  }

  /** Why the scan may refuse an AND that no BETWEEN owns: units do not match, or the level holds something obscure. */
  ghost predicate Unproven(toks: seq<Kind>, j: nat)
    requires j < |toks|
  {
    || (exists o: nat, c: nat :: o < c < j && Mismatch(toks, o, c))
    || (forall lo: nat :: InLevel(toks, lo, j) ==> Obscure(toks, lo, j))
  }

  /** Scanning back from j down to `from` no unit is left half open, so every level of j starts at or before `from`. */
  lemma LevelStartsBefore(toks: seq<Kind>, lo: nat, from: nat, j: nat)
    requires InLevel(toks, lo, j) && from <= j
    requires forall m :: from <= m <= j ==> Depth(toks, m, j) <= 0
    ensures lo <= from
    ensures forall p :: from <= p <= j ==> Depth(toks, lo, p) == -Depth(toks, p, j)
  {
    LevelDepths(toks, lo, j);
    if lo > from {
      DepthSplit(toks, lo - 1, lo, j);
    }
  }

  /** Where the chain starts nothing is owed: at the level's own start, or after a border. */
  lemma OwedAtStart(toks: seq<Kind>, lo: nat, from: nat, j: nat)
    requires InLevel(toks, lo, j) && from <= j
    requires forall m :: from <= m <= j ==> Depth(toks, m, j) <= 0
    requires Depth(toks, from, j) == 0
    requires from == 0 || OpensUnit(toks[from - 1]) || AndBorder(toks[from - 1])
    ensures lo <= from && Owed(toks, lo, from) == 0
  {
    LevelStartsBefore(toks, lo, from, j);
    if lo < from {
      DepthSplit(toks, lo, from - 1, from);
    }
  }

  /** Extending a count by the token before it. */
  lemma DepthStep(toks: seq<Kind>, k: nat, b: nat)
    requires k < b <= |toks|
    ensures Depth(toks, k, b) == Depth(toks, k + 1, b) + (if OpensUnit(toks[k]) then 1 else if ClosesUnit(toks[k]) then -1 else 0)
  {
    DepthSplit(toks, k, k + 1, b);
  }

  /** One more token read: the chain and the run reach back one further. */
  lemma RunStep(toks: seq<Kind>, k: nat, j: nat, chain: seq<nat>)
    requires k < j <= |toks| && IsChain(toks, k + 1, j, chain) && IsRun(toks, k + 1, j)
    requires Depth(toks, k + 1, j) == 0 ==> !toks[k].Select?
    requires Depth(toks, k, j) != 0 || toks[k].Between? || toks[k].And? || Steady(toks, k, k)
    ensures IsRun(toks, k, j)
    ensures IsChain(toks, k, j, if InChain(toks, k, j) then chain + [k] else chain)
  {
  }

  /** The closers still to be matched and where they stand, innermost last. */
  ghost predicate Pending(toks: seq<Kind>, from: nat, j: nat, open: seq<Kind>, at: seq<nat>)
    requires from <= j <= |toks|
  {
    && |at| == |open| == -Depth(toks, from, j)
    && (forall i :: 0 <= i < |at| ==>
      && from <= at[i] < j && toks[at[i]] == open[i] && ClosesUnit(open[i])
      && Depth(toks, from, at[i]) == i + 1 - |open|)
    && (forall m :: from <= m <= j ==> Depth(toks, m, j) <= 0)
  }

  lemma PendingStep(toks: seq<Kind>, k: nat, j: nat, open: seq<Kind>, at: seq<nat>)
    requires k < j <= |toks| && Pending(toks, k + 1, j, open, at)
    ensures ClosesUnit(toks[k]) ==> Pending(toks, k, j, open + [toks[k]], at + [k])
    ensures OpensUnit(toks[k]) && open != [] ==> Pending(toks, k, j, open[..|open| - 1], at[..|at| - 1])
    ensures OpensUnit(toks[k]) && open != [] && UnitCloser(toks[k]) != open[|open| - 1] ==>
      at[|at| - 1] > k && Mismatch(toks, k, at[|at| - 1])
    ensures !OpensUnit(toks[k]) && !ClosesUnit(toks[k]) ==> Pending(toks, k, j, open, at)
  {
    DepthStep(toks, k, j);
    forall i | 0 <= i < |at|
      ensures Depth(toks, k, at[i]) == Depth(toks, k + 1, at[i]) + (if OpensUnit(toks[k]) then 1 else if ClosesUnit(toks[k]) then -1 else 0)
    {
      DepthStep(toks, k, at[i]);
    }
  }

  /** An unclosed unit, an unclassified token or a nested BETWEEN leaves the AND unproven. */
  lemma ScanGaveUp(toks: seq<Kind>, from: nat, j: nat)
    requires from <= j < |toks|
    requires forall m :: from <= m <= j ==> Depth(toks, m, j) <= 0
    requires (from == 0 && Depth(toks, 0, j) < 0) || (from < j && Depth(toks, from, j) == 0 && Unclassified(toks, from))
    ensures Unproven(toks, j)
  {
    forall lo: nat | InLevel(toks, lo, j)
      ensures Obscure(toks, lo, j)
    {
      LevelStartsBefore(toks, lo, from, j);
    }
  }

  /** What precedes a chain token is itself a chain in the same level. */
  lemma {:induction false} ChainSuffix(toks: seq<Kind>, lo: nat, from: nat, j: nat, chain: seq<nat>, i: nat)
    requires InLevel(toks, lo, j) && lo <= from <= j && IsChain(toks, from, j, chain) && IsRun(toks, from, j) && i < |chain|
    ensures InLevel(toks, lo, chain[i]) && from <= chain[i] < j
    ensures IsChain(toks, from, chain[i], chain[i + 1..]) && IsRun(toks, from, chain[i])
    decreases i
  {
    ChainTail(toks, lo, from, j, chain);
    if i > 0 {
      ChainSuffix(toks, lo, from, chain[0], chain[1..], i - 1);
      assert chain[1..][i..] == chain[i + 1..];
    }
  }

  /** A BETWEEN met while another still owns an AND stands inside that one's bounds. */
  lemma NestedBetween(toks: seq<Kind>, from: nat, j: nat, chain: seq<nat>, i: nat)
    requires from <= j < |toks| && IsChain(toks, from, j, chain) && IsRun(toks, from, j) && i < |chain|
    requires toks[chain[i]].Between? && Pairing(toks, chain[i + 1..]) == (true, true)
    requires forall lo: nat :: InLevel(toks, lo, j) ==> lo <= from && Owed(toks, lo, from) == 0
    ensures Unproven(toks, j)
  {
    forall lo: nat | InLevel(toks, lo, j)
      ensures Obscure(toks, lo, j)
    {
      ChainSuffix(toks, lo, from, j, chain, i);
      PairingIsOwed(toks, lo, from, chain[i], chain[i + 1..]);
    }
  }

  /** What the scan knows when it has read back to `from`. */
  ghost predicate Scanned(toks: seq<Kind>, from: nat, j: nat, open: seq<Kind>, at: seq<nat>, chain: seq<nat>)
    requires from <= j <= |toks|
  {
    Pending(toks, from, j, open, at) && IsChain(toks, from, j, chain) && IsRun(toks, from, j)
  }

  /** Each branch of the scan that reads on keeps what it knows. */
  lemma ScanReads(toks: seq<Kind>, k: nat, j: nat, open: seq<Kind>, at: seq<nat>, chain: seq<nat>)
    requires k < j < |toks| && Scanned(toks, k + 1, j, open, at, chain)
    ensures |at| == |open|
    ensures ClosesUnit(toks[k]) ==> Scanned(toks, k, j, open + [toks[k]], at + [k], chain)
    ensures OpensUnit(toks[k]) && open != [] ==> Scanned(toks, k, j, open[..|open| - 1], at[..|at| - 1], chain)
    ensures OpensUnit(toks[k]) && open != [] && UnitCloser(toks[k]) != open[|open| - 1] ==> Unproven(toks, j)
    ensures !OpensUnit(toks[k]) && !ClosesUnit(toks[k]) && open != [] ==> Scanned(toks, k, j, open, at, chain)
    ensures !OpensUnit(toks[k]) && !ClosesUnit(toks[k]) && open == [] && !AndBorder(toks[k]) ==>
      if toks[k].Between? || toks[k].And? then Scanned(toks, k, j, open, at, chain + [k])
      else if AndChainToken(toks, k) then Scanned(toks, k, j, open, at, chain)
      else Unproven(toks, j)
  {
    hide IsRun, IsChain, Unproven;
    PendingStep(toks, k, j, open, at);
    DepthStep(toks, k, j);
    if OpensUnit(toks[k]) && open != [] && UnitCloser(toks[k]) != open[|open| - 1] {
      MismatchIsUnproven(toks, k, at[|at| - 1], j);
    }
    if OpensUnit(toks[k]) && open == [] {
    } else if open == [] && AndBorder(toks[k]) {
    } else if open == [] && Unclassified(toks, k) {
      ScanGaveUp(toks, k, j);
    } else {
      assert Depth(toks, k, j) != 0 || toks[k].Between? || toks[k].And? || Steady(toks, k, k) by {
        hide Depth;
      }
      RunStep(toks, k, j, chain);
    }
  }

  lemma MismatchIsUnproven(toks: seq<Kind>, o: nat, c: nat, j: nat)
    requires o < c < j < |toks| && Mismatch(toks, o, c)
    ensures Unproven(toks, j)
  {
  }

  /** Where the scan stops with no unit open, every level of j starts at or before that point and owes nothing there. */
  lemma ScanStops(toks: seq<Kind>, from: nat, j: nat, at: seq<nat>, chain: seq<nat>)
    requires from <= j < |toks| && Scanned(toks, from, j, [], at, chain)
    requires from == 0 || OpensUnit(toks[from - 1]) || AndBorder(toks[from - 1])
    ensures IsChain(toks, from, j, chain) && IsRun(toks, from, j)
    ensures forall lo: nat :: InLevel(toks, lo, j) ==> lo <= from && Owed(toks, lo, from) == 0
  {
    forall lo: nat | InLevel(toks, lo, j)
      ensures lo <= from && Owed(toks, lo, from) == 0
    {
      OwedAtStart(toks, lo, from, j);
    }
  }

  /** isLogicalAnd: whether the AND at j is proven logical. */
  method IsLogicalAnd(toks: seq<Kind>, j: nat) returns (r: bool)
    requires j < |toks|
    ensures r ==> Logical(toks, j)
    ensures !r ==> !Logical(toks, j) || Unproven(toks, j)
  {
    hide Depth, Owed, InLevel, Obscure, Mismatch, InChain, IsAtomic, AfterIsNot, Unproven, IsRun;
    var open: seq<Kind> := [];
    ghost var at: seq<nat> := [];
    var chain: seq<nat> := [];
    var k: int := j - 1;
    ScanBegins(toks, j);
    while k >= 0
      invariant -1 <= k < j
      invariant Scanned(toks, k + 1, j, open, at, chain)
    {
      hide Scanned;
      var t := toks[k];
      ScanReads(toks, k, j, open, at, chain);
      if ClosesUnit(t) {
        open := open + [t];
        at := at + [k];
      } else if OpensUnit(t) {
        if open == [] {
          break;
        }
        if UnitCloser(t) != open[|open| - 1] {
          return false;
        }
        open := open[..|open| - 1];
        at := at[..|at| - 1];
      } else if open != [] {
        // inside a unit
      } else if AndBorder(t) {
        break;
      } else if t.Between? || t.And? {
        chain := chain + [k];
      } else if !AndChainToken(toks, k) {
        return false;
      }
      k := k - 1;
    }
    if open != [] {
      LeftOpen(toks, j, open, at, chain);
      return false;
    }
    ScanStops(toks, k + 1, j, at, chain);
    r := PairUp(toks, k + 1, j, chain);
  }

  lemma ScanBegins(toks: seq<Kind>, j: nat)
    requires j < |toks|
    ensures Scanned(toks, j, j, [], [], [])
  {
  }

  lemma LeftOpen(toks: seq<Kind>, j: nat, open: seq<Kind>, at: seq<nat>, chain: seq<nat>)
    requires j < |toks| && Scanned(toks, 0, j, open, at, chain) && open != []
    ensures Unproven(toks, j)
  {
    ScanGaveUp(toks, 0, j);
  }

  /** The second loop of isLogicalAnd: from the left, each BETWEEN of the chain takes the next AND. */
  method PairUp(toks: seq<Kind>, from: nat, j: nat, chain: seq<nat>) returns (r: bool)
    requires from <= j < |toks| && IsChain(toks, from, j, chain) && IsRun(toks, from, j)
    requires forall lo: nat :: InLevel(toks, lo, j) ==> lo <= from && Owed(toks, lo, from) == 0
    ensures r ==> Logical(toks, j)
    ensures !r ==> !Logical(toks, j) || Unproven(toks, j)
  {
    hide Depth, Owed, InLevel, IsRun, Unproven, InChain;
    var owned := false;
    var i := |chain| - 1;
    while i >= 0
      invariant -1 <= i < |chain|
      invariant Pairing(toks, chain[i + 1..]) == (true, owned)
    {
      assert chain[i..][1..] == chain[i + 1..];
      if toks[chain[i]].Between? {
        if owned {
          NestedBetween(toks, from, j, chain, i);
          return false;
        }
        owned := true;
      } else {
        owned := false;
      }
      i := i - 1;
    }
    assert chain[0..] == chain;
    forall lo: nat | InLevel(toks, lo, j)
      ensures Owed(toks, lo, j) == if owned then 1 else 0
    {
      PairingIsOwed(toks, lo, from, j, chain);
    }
    r := !owned;
    if owned {
      NoLevel(toks, j);
    }
  }

  lemma NoLevel(toks: seq<Kind>, j: nat)
    requires j < |toks|
    ensures Unproven(toks, j) || exists lo: nat :: InLevel(toks, lo, j)
  {
  }
}
