/**
 When an operator application is isolated: the longest operands on either side of the operator, and a
 border beyond each.
 */
module Isolation {
  import opened Tokens
  import opened Precedence

  predicate IsUnitToken(t: Kind)
  {
    OpensUnit(t) || ClosesUnit(t)
  }

  // ---------------------------------------------------------------------------------------
  // Operands

  /** A {name:Type} parameter. */
  predicate IsParameter(toks: seq<Kind>, a: nat, b: nat)
  {
    && a + 2 <= b <= |toks| && toks[a].LBrace? && toks[b - 1].RBrace?
    && forall k :: a < k < b - 1 ==> !IsBracket(toks[k])
  }

  /** A name, or names joined by dots. */
  predicate IsDottedName(toks: seq<Kind>, a: nat, b: nat)
  {
    && a < b <= |toks| && (b - a) % 2 == 1
    && forall k :: a <= k < b ==> if (k - a) % 2 == 0 then IsName(toks[k]) else toks[k].Dot?
  }

  /** The operands the precedence rules accept. */
  predicate IsOperand(toks: seq<Kind>, a: nat, b: nat)
  {
    IsParameter(toks, a, b) || IsDottedName(toks, a, b) || (a + 1 == b <= |toks| && IsAtomic(toks[a]))
  }

  /** A dotted name that starts further left goes on with a dot and a name there. */
  lemma NameGoesOnBefore(toks: seq<Kind>, a: nat, a': nat, b: nat)
    requires a < a' && IsDottedName(toks, a, b) && IsDottedName(toks, a', b)
    ensures a' >= 2 && toks[a' - 1].Dot? && IsName(toks[a' - 2])
  {
    assert (a' - a) % 2 == 0;
    assert toks[a' - 1].Dot?;
    assert IsName(toks[a' - 2]);
  }

  lemma NameGoesOnAfter(toks: seq<Kind>, a: nat, b': nat, b: nat)
    requires b' < b && IsDottedName(toks, a, b) && IsDottedName(toks, a, b')
    ensures b' + 1 < |toks| && toks[b'].Dot? && IsName(toks[b' + 1])
  {
    assert (b - b') % 2 == 0;
    assert toks[b'].Dot?;
    assert IsName(toks[b' + 1]);
  }

  /** By its last token, an operand is a parameter, a dotted name or an atom. */
  lemma OperandByLast(toks: seq<Kind>, a: nat, b: nat)
    requires IsOperand(toks, a, b)
    ensures 0 < b <= |toks|
    ensures toks[b - 1].RBrace? ==> IsParameter(toks, a, b)
    ensures IsName(toks[b - 1]) ==> IsDottedName(toks, a, b)
    ensures toks[b - 1].RBrace? || IsName(toks[b - 1]) || (a + 1 == b && IsAtomic(toks[a]))
  {
  }

  lemma OperandByFirst(toks: seq<Kind>, a: nat, b: nat)
    requires IsOperand(toks, a, b)
    ensures a < b <= |toks|
    ensures toks[a].LBrace? ==> IsParameter(toks, a, b)
    ensures IsName(toks[a]) ==> IsDottedName(toks, a, b)
    ensures toks[a].LBrace? || IsName(toks[a]) || (a + 1 == b && IsAtomic(toks[a]))
  {
  }

  /** operandBefore: the longest operand that ends right before b, or -1. */
  method OperandBefore(toks: seq<Kind>, b: nat) returns (start: int)
    requires b <= |toks|
    ensures start == -1 || (0 <= start < b && IsOperand(toks, start, b))
    ensures forall a: nat :: IsOperand(toks, a, b) ==> 0 <= start <= a
  {
    if b == 0 {
      return -1;
    }
    var j := b - 1;
    forall a: nat | IsOperand(toks, a, b)
      ensures toks[j].RBrace? ==> IsParameter(toks, a, b)
      ensures IsName(toks[j]) ==> IsDottedName(toks, a, b)
      ensures toks[j].RBrace? || IsName(toks[j]) || (a == j && IsAtomic(toks[a]))
    {
      OperandByLast(toks, a, b);
    }
    if toks[j].RBrace? {
      var k := j - 1;
      while k >= 0
        invariant -1 <= k < j
        invariant forall i :: k < i < j ==> !IsBracket(toks[i])
      {
        hide IsOperand, IsDottedName;
        if toks[k].LBrace? {
          assert IsParameter(toks, k, b);
          break;
        }
        if IsBracket(toks[k]) {
          return -1;
        }
        k := k - 1;
      }
      return k;
    }
    hide IsOperand, IsParameter;
    if IsName(toks[j]) {
      start := j;
      assert IsDottedName(toks, j, b);
      while start >= 2 && toks[start - 1].Dot? && IsName(toks[start - 2])
        invariant 0 <= start <= j && IsDottedName(toks, start, b)
      {
        start := start - 2;
      }
      forall a: nat | a < start
        ensures !IsDottedName(toks, a, b)
      {
        if IsDottedName(toks, a, b) {
          NameGoesOnBefore(toks, a, start, b);
        }
      }
      NameIsOperand(toks, start, b);
      return;
    }
    if IsAtomic(toks[j]) {
      AtomIsOperand(toks, j);
      return j;
    }
    start := -1;
  }

  lemma NameIsOperand(toks: seq<Kind>, a: nat, b: nat)
    requires IsDottedName(toks, a, b)
    ensures IsOperand(toks, a, b)
  {
  }

  lemma AtomIsOperand(toks: seq<Kind>, a: nat)
    requires a < |toks| && IsAtomic(toks[a])
    ensures IsOperand(toks, a, a + 1)
  {
  }

  /** operandAfter: one past the longest operand that starts at k, or -1. */
  method OperandAfter(toks: seq<Kind>, k: nat) returns (end: int)
    ensures end == -1 || (k < end <= |toks| && IsOperand(toks, k, end))
    ensures forall b: nat :: IsOperand(toks, k, b) ==> b <= end
  {
    if k >= |toks| {
      return -1;
    }
    forall b: nat | IsOperand(toks, k, b)
      ensures toks[k].LBrace? ==> IsParameter(toks, k, b)
      ensures IsName(toks[k]) ==> IsDottedName(toks, k, b)
      ensures toks[k].LBrace? || IsName(toks[k]) || (b == k + 1 && IsAtomic(toks[k]))
    {
      OperandByFirst(toks, k, b);
    }
    if toks[k].LBrace? {
      var j := k + 1;
      while j < |toks|
        invariant k < j <= |toks|
        invariant forall i :: k < i < j ==> !IsBracket(toks[i])
      {
        hide IsOperand, IsDottedName;
        if toks[j].RBrace? {
          assert IsParameter(toks, k, j + 1);
          break;
        }
        if IsBracket(toks[j]) {
          return -1;
        }
        j := j + 1;
      }
      return if j < |toks| then j + 1 else -1;
    }
    hide IsOperand, IsParameter;
    if IsName(toks[k]) {
      var at := k;
      assert IsDottedName(toks, k, k + 1);
      while at + 2 < |toks| && toks[at + 1].Dot? && IsName(toks[at + 2])
        invariant k <= at < |toks| && IsDottedName(toks, k, at + 1)
      {
        at := at + 2;
      }
      forall b: nat | b > at + 1
        ensures !IsDottedName(toks, k, b)
      {
        if IsDottedName(toks, k, b) {
          NameGoesOnAfter(toks, k, at + 1, b);
        }
      }
      NameIsOperand(toks, k, at + 1);
      return at + 1;
    }
    if IsAtomic(toks[k]) {
      AtomIsOperand(toks, k);
      return k + 1;
    }
    end := -1;
  }

  // ---------------------------------------------------------------------------------------
  // Isolation

  /** The operator toks[first..last] applies to two accepted operands and is bordered on both sides. */
  ghost predicate Isolates(toks: seq<Kind>, start: nat, first: nat, last: nat, end: nat)
  {
    && first <= last < |toks|
    && IsOperand(toks, start, first) && IsOperand(toks, last + 1, end)
    && (end < |toks| ==> ClosesExpression(toks[end]))
    && (start > 0 ==> OpensExpression(toks[start - 1]) && (toks[start - 1].And? ==> Logical(toks, start - 1)))
  }

  /** An operand with an accepted border beyond it is the longest one there. */
  lemma BorderedIsLongest(toks: seq<Kind>, a: nat, a': nat, b: nat)
    requires a < a' && IsOperand(toks, a, b) && IsOperand(toks, a', b)
    ensures !OpensExpression(toks[a' - 1])
  {
    OperandByLast(toks, a, b);
    OperandByLast(toks, a', b);
    if IsName(toks[b - 1]) {
      NameGoesOnBefore(toks, a, a', b);
    }
  }

  lemma BorderedIsLongestAfter(toks: seq<Kind>, a: nat, b': nat, b: nat)
    requires b' < b && IsOperand(toks, a, b) && IsOperand(toks, a, b')
    ensures !ClosesExpression(toks[b'])
  {
    OperandByFirst(toks, a, b);
    OperandByFirst(toks, a, b');
    if IsName(toks[a]) {
      NameGoesOnAfter(toks, a, b', b);
    }
  }

  /** isolated. */
  method Isolated(toks: seq<Kind>, first: nat, last: nat) returns (r: bool)
    requires first <= last < |toks|
    ensures r ==> exists start: nat, end: nat :: Isolates(toks, start, first, last, end)
    ensures !r ==> forall start: nat, end: nat :: Isolates(toks, start, first, last, end) ==>
      start > 0 && toks[start - 1].And? && Unproven(toks, start - 1)
  {
    hide Logical, Unproven, IsOperand, OpensExpression, ClosesExpression;
    var start := OperandBefore(toks, first);
    var end := OperandAfter(toks, last + 1);
    forall a: nat, b: nat | Isolates(toks, a, first, last, b)
      ensures a == start && b == end
    {
      SoleIsolation(toks, a, first, last, b, start, end);
    }
    if start < 0 || end < 0 {
      return false;
    }
    if end < |toks| && !ClosesExpression(toks[end]) {
      return false;
    }
    if start == 0 {
      assert Isolates(toks, 0, first, last, end);
      return true;
    }
    var b := toks[start - 1];
    if !OpensExpression(b) {
      return false;
    }
    r := true;
    if b.And? {
      r := IsLogicalAnd(toks, start - 1);
    }
    if r {
      assert Isolates(toks, start, first, last, end);
    }
  }

  lemma SoleIsolation(toks: seq<Kind>, a: nat, first: nat, last: nat, b: nat, start: int, end: int)
    requires Isolates(toks, a, first, last, b)
    requires start == -1 || (0 <= start < first && IsOperand(toks, start, first))
    requires end == -1 || (last < end <= |toks| && IsOperand(toks, last + 1, end))
    requires 0 <= start <= a && b <= end
    ensures a == start && b == end
  {
    hide Logical, IsOperand, OpensExpression, ClosesExpression;
    if start < a {
      BorderedIsLongest(toks, start, a, first);
    }
    if b < end {
      BorderedIsLongestAfter(toks, last + 1, b, end);
    }
  }
}
