/**
 Reading tokens by operator strength, and why an isolated operator's strength does not matter:
 every strength above that of the accepted borders gives the same tree.
 */
module Regrouping {
  import opened Common
  import opened Tokens
  import opened Precedence
  import opened Isolation

  /** The grouping of a token range: positions stand for the tokens. */
  datatype Tree =
    | Nil
    | Token(at: nat, rest: Tree)
    | Unit(open: nat, body: Tree, rest: Tree)
    | Apply(operator: nat, left: Tree, right: Tree)

  /** How tightly each token binds as an operator; None for a token that is none. */
  type Strengths = seq<Option<int>>

  // ---------------------------------------------------------------------------------------
  // Reading by strength

  /** The token at p is an operator of the level that starts at lo. */
  predicate Operates(toks: seq<Kind>, s: Strengths, lo: nat, p: nat)
    requires |s| == |toks| && lo <= p < |toks|
  {
    !IsUnitToken(toks[p]) && Depth(toks, lo, p) == 0 && s[p].Some?
  }

  /** The loosest operator of the range outside any unit, the last of equals. */
  function Loosest(toks: seq<Kind>, s: Strengths, lo: nat, hi: nat): (r: Option<nat>)
    requires |s| == |toks| && lo <= hi <= |toks|
    ensures r.Some? ==> lo <= r.value < hi && Operates(toks, s, lo, r.value)
    decreases hi - lo
  {
    if lo == hi then None
    else
      var before := Loosest(toks, s, lo, hi - 1);
      if !Operates(toks, s, lo, hi - 1) then before
      else if before.None? || s[hi - 1].value <= s[before.value].value then Some(hi - 1)
      else before
  }

  /** The first position at or after m that closes what was open at lo, or hi. */
  function CloserAt(toks: seq<Kind>, lo: nat, m: nat, hi: nat): (r: nat)
    requires lo <= m <= hi <= |toks|
    ensures m <= r <= hi
    ensures r < hi ==> Depth(toks, lo, r + 1) < 0
    ensures forall k :: m < k <= r ==> Depth(toks, lo, k) >= 0
    decreases hi - m
  {
    if m == hi || Depth(toks, lo, m + 1) < 0 then m else CloserAt(toks, lo, m + 1, hi)
  }

  /** Split at the loosest operator; without one, read the first token or unit and go on. */
  function Parse(toks: seq<Kind>, s: Strengths, lo: nat, hi: nat): Tree
    requires |s| == |toks| && lo <= hi <= |toks|
    decreases hi - lo
  {
    match Loosest(toks, s, lo, hi)
    case Some(p) => Apply(p, Parse(toks, s, lo, p), Parse(toks, s, p + 1, hi))
    case None =>
      if lo == hi then Nil
      else if OpensUnit(toks[lo]) then
        var m := CloserAt(toks, lo + 1, lo + 1, hi);
        Unit(lo, Parse(toks, s, lo + 1, m), if m < hi then Parse(toks, s, m + 1, hi) else Nil)
      else Token(lo, Parse(toks, s, lo + 1, hi))
  }

  // ---------------------------------------------------------------------------------------
  // What a reading must respect

  /** Units are closed in the range, none too often. */
  predicate Balanced(toks: seq<Kind>, lo: nat, hi: nat)
  {
    lo <= hi <= |toks| && Depth(toks, lo, hi) == 0 && forall k :: lo <= k <= hi ==> Depth(toks, lo, k) >= 0
  }

  /** The stream is bracketed, IS [NOT] DISTINCT is followed by FROM, and parameters hold no unit. */
  ghost predicate WellFormed(toks: seq<Kind>)
  {
    && Balanced(toks, 0, |toks|)
    && (forall p: nat :: p < |toks| && toks[p].Distinct? && AfterIsNot(toks, p) ==> p + 1 < |toks| && toks[p + 1].From?)
    && (forall a: nat, b: nat :: IsParameter(toks, a, b) ==> forall k :: a < k < b - 1 ==> !IsUnitToken(toks[k]))
  }

  /** The token at p separates expressions: a border token, for AND a logical one, and no part of DISTINCT FROM. */
  ghost predicate Separates(toks: seq<Kind>, p: nat)
    requires p < |toks|
  {
    var t := toks[p];
    && !IsUnitToken(t) && (OpensExpression(t) || ClosesExpression(t))
    && (t.And? ==> Logical(toks, p))
    && (t.Distinct? ==> !(p + 1 < |toks| && toks[p + 1].From?))
    && (t.From? ==> !(p > 0 && toks[p - 1].Distinct?))
  }

  /** Every separator binds no tighter than `floor`. */
  ghost predicate Respects(toks: seq<Kind>, s: Strengths, floor: int)
  {
    && |s| == |toks|
    && forall p: nat :: p < |toks| && Separates(toks, p) ==> s[p].Some? && s[p].value <= floor
  }

  /** The operators the gate respells: one word or symbol, or NOT and the operator it negates. */
  predicate IsRespelled(toks: seq<Kind>, first: nat, last: nat)
  {
    && first <= last < |toks|
    && (first == last || (last == first + 1 && toks[first].Not?))
    && (toks[last].Var? || toks[last].ChainOperator? || toks[last].Other?)
  }

  /** No token of the application but the operator's first is read as an operator. */
  predicate OperandsHoldNoOperator(toks: seq<Kind>, s: Strengths, start: nat, first: nat, end: nat)
  {
    && |s| == |toks| && start <= first < end <= |toks|
    && forall p :: start <= p < end && p != first && Depth(toks, start, p) == 0 && !IsUnitToken(toks[p]) ==> s[p].None?
  }

  // ---------------------------------------------------------------------------------------
  // Depths inside the application

  /** An operand is one whole unit, or outside any: its tokens there neither border nor own anything. */
  lemma OperandIsWhole(toks: seq<Kind>, a: nat, b: nat)
    requires IsOperand(toks, a, b)
    requires IsParameter(toks, a, b) ==> forall k :: a < k < b - 1 ==> !IsUnitToken(toks[k])
    ensures a < b && Balanced(toks, a, b)
    ensures forall p :: a <= p < b && Depth(toks, a, p) == 0 ==> Plain(toks[p])
    ensures !toks[a].From? && !toks[b - 1].Distinct?
  {
    if IsParameter(toks, a, b) {
      InsideParameter(toks, a, b, b - 1);
      assert Depth(toks, a, b) == Depth(toks, a, b - 1) - 1;
    } else {
      hide Depth;
      forall p | a <= p < b
        ensures Plain(toks[p]) && !IsUnitToken(toks[p])
      {
        if IsDottedName(toks, a, b) {
          assert if (p - a) % 2 == 0 then IsName(toks[p]) else toks[p].Dot?;
        }
      }
      FlatDepth(toks, a, b);
      assert IsDottedName(toks, a, b) ==> IsName(toks[a]) && IsName(toks[b - 1]);
    }
  }

  lemma {:induction false} InsideParameter(toks: seq<Kind>, a: nat, b: nat, m: nat)
    requires IsParameter(toks, a, b) && a < m < b
    requires forall k :: a < k < b - 1 ==> !IsUnitToken(toks[k])
    ensures forall k :: a < k <= m ==> Depth(toks, a, k) == 1
  {
    if m > a + 1 {
      InsideParameter(toks, a, b, m - 1);
    }
  }

  lemma {:induction false} FlatDepth(toks: seq<Kind>, a: nat, b: nat)
    requires a <= b <= |toks| && forall p :: a <= p < b ==> !IsUnitToken(toks[p])
    ensures forall k :: a <= k <= b ==> Depth(toks, a, k) == 0
  {
    if a < b {
      FlatDepth(toks, a, b - 1);
    }
  }

  /** Neither a border nor part of a BETWEEN or DISTINCT FROM. */
  predicate Plain(t: Kind)
  {
    !AndBorder(t) && !t.And? && !t.Between? && !t.Distinct?
  }

  /** The whole application is closed under units. */
  lemma ApplicationIsWhole(toks: seq<Kind>, start: nat, first: nat, last: nat, end: nat)
    requires WellFormed(toks) && Isolates(toks, start, first, last, end) && IsRespelled(toks, first, last)
    ensures start < first <= last < last + 1 < end <= |toks|
    ensures Balanced(toks, start, end) && Depth(toks, start, first) == 0
    ensures forall p :: start <= p < end && Depth(toks, start, p) == 0 ==> Plain(toks[p])
    ensures !toks[start].From? && !toks[end - 1].Distinct?
  {
    hide Depth, Logical, IsOperand, OpensExpression, ClosesExpression, AfterIsNot;
    OperandIsWhole(toks, start, first);
    OperandIsWhole(toks, last + 1, end);
    FlatDepth(toks, first, last + 1);
    forall k | first <= k <= last + 1
      ensures Depth(toks, start, k) == 0
    {
      DepthSplit(toks, start, first, k);
    }
    forall k | last + 1 <= k <= end
      ensures Depth(toks, start, k) == Depth(toks, last + 1, k)
    {
      DepthSplit(toks, start, last + 1, k);
    }
  }

  /** Nothing is owed where the application starts. */
  lemma OwedAtApplication(toks: seq<Kind>, start: nat, first: nat, last: nat, end: nat, lo: nat)
    requires WellFormed(toks) && Isolates(toks, start, first, last, end)
    requires start < |toks| && !toks[start].From? && InLevel(toks, lo, start)
    ensures Owed(toks, lo, start) == 0
  {
    hide IsOperand, ClosesExpression, IsParameter;
    if lo < start {
      DepthSplit(toks, lo, start - 1, start);
      if toks[start - 1].And? {
        assert InLevel(toks, lo, start - 1);
      }
    }
  }

  /** An AND right after the application belongs to no BETWEEN. */
  lemma RightAndIsLogical(toks: seq<Kind>, start: nat, first: nat, last: nat, end: nat)
    requires WellFormed(toks) && Isolates(toks, start, first, last, end) && IsRespelled(toks, first, last)
    requires end < |toks|
    ensures Logical(toks, end)
  {
    ApplicationIsWhole(toks, start, first, last, end);
    hide WellFormed, IsOperand, Isolates, OpensExpression, ClosesExpression, IsRespelled, IsParameter;
    forall m | start <= m <= end
      ensures Depth(toks, m, end) == -Depth(toks, start, m)
    {
      DepthSplit(toks, start, m, end);
    }
    forall lo: nat | InLevel(toks, lo, end)
      ensures Owed(toks, lo, end) == 0
    {
      LevelStartsBefore(toks, lo, start, end);
      OwedAtApplication(toks, start, first, last, end, lo);
      assert forall p :: start <= p < end && Depth(toks, lo, p) == 0 ==> Steady(toks, start, p);
      OwedOver(toks, lo, start, start, end);
    }
  }

  // ---------------------------------------------------------------------------------------
  // The loosest operator

  /** Two readings that agree off `first` and agree on what is loosest. */
  ghost predicate AgreeOff(s: Strengths, s': Strengths, first: nat)
  {
    |s| == |s'| && forall p :: 0 <= p < |s| && p != first ==> s[p] == s'[p]
  }

  lemma {:induction false} LoosestWithoutFirst(toks: seq<Kind>, s: Strengths, s': Strengths, lo: nat, hi: nat, first: nat)
    requires |s| == |toks| && AgreeOff(s, s', first) && lo <= hi <= |toks|
    requires lo <= first < hi ==> Depth(toks, lo, first) != 0
    ensures Loosest(toks, s, lo, hi) == Loosest(toks, s', lo, hi)
    decreases hi - lo
  {
    if lo < hi {
      LoosestWithoutFirst(toks, s, s', lo, hi - 1, first);
    }
  }

  /** Below the floor the readings agree; above it nothing below was met. */
  ghost predicate AgreeBelow(toks: seq<Kind>, s: Strengths, s': Strengths, lo: nat, hi: nat, floor: int)
    requires |s| == |s'| == |toks| && lo <= hi <= |toks|
  {
    var p, p' := Loosest(toks, s, lo, hi), Loosest(toks, s', lo, hi);
    || (p == p' && p.Some? && s[p.value].value <= floor)
    || ((p.Some? ==> s[p.value].value > floor) && (p'.Some? ==> s'[p'.value].value > floor))
  }

  lemma {:induction false} LoosestBelow(toks: seq<Kind>, s: Strengths, s': Strengths, lo: nat, hi: nat, first: nat, floor: int)
    requires |s| == |toks| && AgreeOff(s, s', first) && lo <= hi <= |toks| && first < |toks|
    requires s[first].Some? && s[first].value > floor && s'[first].Some? && s'[first].value > floor
    ensures AgreeBelow(toks, s, s', lo, hi, floor)
    ensures forall q :: lo <= q < hi && Operates(toks, s, lo, q) && s[q].value <= floor ==>
      Loosest(toks, s, lo, hi).Some? && s[Loosest(toks, s, lo, hi).value].value <= floor
    decreases hi - lo
  {
    hide Depth;
    if lo < hi {
      LoosestBelow(toks, s, s', lo, hi - 1, first, floor);
    }
  }

  lemma {:induction false} LoosestIsSole(toks: seq<Kind>, s: Strengths, lo: nat, hi: nat, first: nat)
    requires |s| == |toks| && lo <= hi <= |toks|
    requires forall p :: lo <= p < hi && Operates(toks, s, lo, p) ==> p == first
    ensures Loosest(toks, s, lo, hi) == if lo <= first < hi && Operates(toks, s, lo, first) then Some(first) else None
    decreases hi - lo
  {
    hide Depth;
    if lo < hi {
      LoosestIsSole(toks, s, lo, hi - 1, first);
    }
  }

  // ---------------------------------------------------------------------------------------
  // The same tree

  /** Two readings of a stream that differ only in how tightly an isolated operator binds, above the floor. */
  ghost predicate Respelling(toks: seq<Kind>, s: Strengths, s': Strengths, floor: int, start: nat, first: nat, last: nat, end: nat)
  {
    && WellFormed(toks) && Isolates(toks, start, first, last, end) && IsRespelled(toks, first, last)
    && Respects(toks, s, floor) && Respects(toks, s', floor)
    && AgreeOff(s, s', first)
    && s[first].Some? && s[first].value > floor && s'[first].Some? && s'[first].value > floor
    && OperandsHoldNoOperator(toks, s, start, first, end)
  }

  /** Splitting a balanced range at a token outside any unit leaves balanced ranges. */
  lemma BalancedSplit(toks: seq<Kind>, lo: nat, p: nat, hi: nat)
    requires Balanced(toks, lo, hi) && lo <= p < hi && Depth(toks, lo, p) == 0 && !IsUnitToken(toks[p])
    ensures Balanced(toks, lo, p) && Balanced(toks, p + 1, hi)
  {
    var q := p + 1;
    assert Depth(toks, lo, q) == 0;
    forall k | q <= k <= hi
      ensures Depth(toks, q, k) == Depth(toks, lo, k)
    {
      DepthSplit(toks, lo, q, k);
    }
  }

  /** A balanced range that starts with an opener is a unit and a balanced rest. */
  lemma BalancedUnit(toks: seq<Kind>, lo: nat, hi: nat, m: nat)
    requires Balanced(toks, lo, hi) && lo < hi && OpensUnit(toks[lo]) && m == CloserAt(toks, lo + 1, lo + 1, hi)
    ensures m < hi && Balanced(toks, lo + 1, m) && Balanced(toks, m + 1, hi)
  {
    forall k | lo < k <= hi
      ensures Depth(toks, lo, k) == Depth(toks, lo + 1, k) + 1
    {
      DepthStep(toks, lo, k);
    }
    assert m < hi;
    var q := m + 1;
    assert Depth(toks, lo, m + 1) == 0;
    forall k | q <= k <= hi
      ensures Depth(toks, q, k) == Depth(toks, lo, k)
    {
      DepthSplit(toks, lo, q, k);
    }
  }

  /** A balanced range that starts with a token outside any unit goes on balanced. */
  lemma BalancedToken(toks: seq<Kind>, lo: nat, hi: nat)
    requires Balanced(toks, lo, hi) && lo < hi && !OpensUnit(toks[lo])
    ensures !ClosesUnit(toks[lo]) && Balanced(toks, lo + 1, hi)
  {
    assert Depth(toks, lo, lo + 1) >= 0;
    BalancedSplit(toks, lo, lo, hi);
  }

  /** A level that reaches past the application on the left holds its left border. */
  lemma LeftBorder(toks: seq<Kind>, start: nat, first: nat, last: nat, end: nat, lo: nat, hi: nat)
    requires WellFormed(toks) && Isolates(toks, start, first, last, end) && IsRespelled(toks, first, last)
    requires Balanced(toks, lo, hi) && lo < start && first < hi && Depth(toks, lo, first) == 0
    ensures Separates(toks, start - 1) && Depth(toks, lo, start - 1) == 0
  {
    hide IsOperand, Logical, AfterIsNot;
    ApplicationIsWhole(toks, start, first, last, end);
    DepthSplit(toks, lo, start, first);
    DepthSplit(toks, lo, start - 1, start);
    assert Depth(toks, lo, start - 1) >= 0;
    assert Depth(toks, lo, start) == 0;
    assert Depth(toks, lo, start - 1) == 0;
    assert !IsUnitToken(toks[start - 1]);
    assert toks[start - 1].And? ==> Logical(toks, start - 1);
    assert Separates(toks, start - 1);
  }

  /** A level that reaches past the application on the right holds its right border. */
  lemma RightBorder(toks: seq<Kind>, start: nat, first: nat, last: nat, end: nat, lo: nat, hi: nat)
    requires WellFormed(toks) && Isolates(toks, start, first, last, end) && IsRespelled(toks, first, last)
    requires Balanced(toks, lo, hi) && lo <= first && end < hi && Depth(toks, lo, first) == 0
    ensures Separates(toks, end) && Depth(toks, lo, end) == 0
  {
    hide IsOperand, Logical, AfterIsNot;
    ApplicationIsWhole(toks, start, first, last, end);
    DepthSplit(toks, start, first, end);
    DepthSplit(toks, lo, first, end);
    assert Depth(toks, lo, end + 1) >= 0;
    assert Depth(toks, lo, end) == 0;
    assert !IsUnitToken(toks[end]);
    if toks[end].And? {
      RightAndIsLogical(toks, start, first, last, end);
    }
    assert toks[end].From? ==> !toks[end - 1].Distinct?;
    assert Separates(toks, end);
  }

  /** In a level that holds the operator, both readings take the same token as loosest. */
  lemma SameLoosest(toks: seq<Kind>, s: Strengths, s': Strengths, floor: int, start: nat, first: nat, last: nat, end: nat, lo: nat, hi: nat)
    requires Respelling(toks, s, s', floor, start, first, last, end) && Balanced(toks, lo, hi)
    ensures Loosest(toks, s, lo, hi) == Loosest(toks, s', lo, hi)
  {
    assert lo <= hi <= |toks| && |s| == |s'| == |toks| && first < |toks|;
    hide WellFormed, Isolates, IsRespelled, Balanced, Depth, Separates, AgreeOff;
    if !(lo <= first < hi && Depth(toks, lo, first) == 0) {
      LoosestWithoutFirst(toks, s, s', lo, hi, first);
    } else if lo < start {
      LeftBorder(toks, start, first, last, end, lo, hi);
      LoosestBelow(toks, s, s', lo, hi, first, floor);
      assert Operates(toks, s, lo, start - 1) by {
        SeparatorIsNoUnit(toks, start - 1);
      }
    } else if end < hi {
      RightBorder(toks, start, first, last, end, lo, hi);
      LoosestBelow(toks, s, s', lo, hi, first, floor);
      assert Operates(toks, s, lo, end) by {
        SeparatorIsNoUnit(toks, end);
      }
    } else {
      SoleOperator(toks, s, s', floor, start, first, last, end, lo, hi);
      LoosestIsSole(toks, s, lo, hi, first);
      LoosestIsSole(toks, s', lo, hi, first);
    }
  }

  lemma SeparatorIsNoUnit(toks: seq<Kind>, p: nat)
    requires p < |toks| && Separates(toks, p)
    ensures !IsUnitToken(toks[p])
  {
  }

  /** Inside the application the operator stands alone. */
  lemma SoleOperator(toks: seq<Kind>, s: Strengths, s': Strengths, floor: int, start: nat, first: nat, last: nat, end: nat, lo: nat, hi: nat)
    requires Respelling(toks, s, s', floor, start, first, last, end) && Balanced(toks, lo, hi)
    requires start <= lo <= first < hi <= end && Depth(toks, lo, first) == 0
    ensures forall p :: lo <= p < hi && (Operates(toks, s, lo, p) || Operates(toks, s', lo, p)) ==> p == first
    ensures Operates(toks, s, lo, first) <==> Operates(toks, s', lo, first)
  {
    hide Isolates, IsRespelled, Separates, Logical;
    ApplicationIsWhole(toks, start, first, last, end);
    hide WellFormed;
    DepthSplit(toks, start, lo, first);
    forall p | lo <= p < hi && Depth(toks, lo, p) == 0
      ensures Depth(toks, start, p) == 0
    {
      DepthSplit(toks, start, lo, p);
    }
  }

  /** Every balanced range reads the same. */
  lemma {:induction false} SameTree(toks: seq<Kind>, s: Strengths, s': Strengths, floor: int, start: nat, first: nat, last: nat, end: nat, lo: nat, hi: nat)
    requires Respelling(toks, s, s', floor, start, first, last, end) && Balanced(toks, lo, hi)
    ensures Parse(toks, s, lo, hi) == Parse(toks, s', lo, hi)
    decreases hi - lo
  {
    hide Depth, Loosest, CloserAt, WellFormed, Isolates, IsRespelled, Separates, OperandsHoldNoOperator, AgreeOff;
    SameLoosest(toks, s, s', floor, start, first, last, end, lo, hi);
    match Loosest(toks, s, lo, hi)
    case Some(p) =>
      BalancedSplit(toks, lo, p, hi);
      SameTree(toks, s, s', floor, start, first, last, end, lo, p);
      SameTree(toks, s, s', floor, start, first, last, end, p + 1, hi);
    case None =>
      if lo == hi {
      } else if OpensUnit(toks[lo]) {
        var m := CloserAt(toks, lo + 1, lo + 1, hi);
        BalancedUnit(toks, lo, hi, m);
        SameTree(toks, s, s', floor, start, first, last, end, lo + 1, m);
        SameTree(toks, s, s', floor, start, first, last, end, m + 1, hi);
      } else {
        BalancedToken(toks, lo, hi);
        SameTree(toks, s, s', floor, start, first, last, end, lo + 1, hi);
      }
  }

  /**
   Respelling an isolated operator regroups nothing: over a well-formed stream, any two strengths of
   the operator that are tighter than the separators give one tree.
   */
  lemma IsolatedKeepsGrouping(toks: seq<Kind>, s: Strengths, s': Strengths, floor: int, start: nat, first: nat, last: nat, end: nat)
    requires Respelling(toks, s, s', floor, start, first, last, end)
    ensures Parse(toks, s, 0, |toks|) == Parse(toks, s', 0, |toks|)
  {
    SameTree(toks, s, s', floor, start, first, last, end, 0, |toks|);
  }
}
