/** checkBrackets accepts exactly the well-nested streams of the three bracket kinds. */
module Brackets {
  import opened Tokens

  /** Well nested: brackets pair up by kind around well-nested contents. */
  predicate Nested(s: seq<Kind>)
    decreases |s|, 1
  {
    || s == []
    || (!IsBracket(s[0]) && Nested(s[1..]))
    || exists m :: 0 < m < |s| && PairedAt(s, m)
  }

  /** The first token opens a bracket that m closes. */
  predicate PairedAt(s: seq<Kind>, m: nat)
    requires 0 < m < |s|
    decreases |s|, 0
  {
    IsOpenBracket(s[0]) && s[m] == CloserOf(s[0]) && Nested(s[1..m]) && Nested(s[m + 1..])
  }

  /** Reading s with the brackets of `open` still open, innermost last, closes everything. */
  predicate Closes(open: seq<Kind>, s: seq<Kind>)
    decreases |s|
  {
    if s == [] then open == []
    else if IsOpenBracket(s[0]) then Closes(open + [s[0]], s[1..])
    else if IsCloseBracket(s[0]) then
      open != [] && CloserOf(open[|open| - 1]) == s[0] && Closes(open[..|open| - 1], s[1..])
    else Closes(open, s[1..])
  }

  /** A well-nested stretch leaves the open brackets as they were. */
  lemma {:induction false} NestedIsTransparent(open: seq<Kind>, a: seq<Kind>, b: seq<Kind>)
    requires Nested(a)
    ensures Closes(open, a + b) == Closes(open, b)
    decreases |a|
  {
    if a == [] {
      assert a + b == b;
    } else {
      assert (a + b)[0] == a[0] && (a + b)[1..] == a[1..] + b;
      if !IsBracket(a[0]) && Nested(a[1..]) {
        NestedIsTransparent(open, a[1..], b);
      } else {
        var m :| 0 < m < |a| && PairedAt(a, m);
        var inner := open + [a[0]];
        assert a[1..] + b == a[1..m] + ([a[m]] + (a[m + 1..] + b));
        NestedIsTransparent(inner, a[1..m], [a[m]] + (a[m + 1..] + b));
        var rest := [a[m]] + (a[m + 1..] + b);
        assert rest[0] == a[m] && rest[1..] == a[m + 1..] + b;
        assert inner[..|inner| - 1] == open;
        NestedIsTransparent(open, a[m + 1..], b);
      }
    }
  }

  lemma NestedPair(t: seq<Kind>, m: nat)
    requires 0 < m < |t| && PairedAt(t, m)
    ensures Nested(t)
  {
  }

  lemma NestedPlain(t: seq<Kind>)
    requires t == [] || (!IsBracket(t[0]) && Nested(t[1..]))
    ensures Nested(t)
  {
  }

  /** A stream that closes an open bracket is a well-nested stretch, the closer, and the rest. */
  lemma {:induction false} ClosesSplits(open: seq<Kind>, x: Kind, s: seq<Kind>) returns (m: nat)
    requires IsOpenBracket(x) && Closes(open + [x], s)
    ensures m < |s| && s[m] == CloserOf(x) && Nested(s[..m]) && Closes(open, s[m + 1..])
    decreases |s|
  {
    hide Nested;
    var inner := open + [x];
    if IsOpenBracket(s[0]) {
      var n := ClosesSplits(inner, s[0], s[1..]);
      var rest := s[1..][n + 1..];
      assert rest == s[n + 2..];
      var k := ClosesSplits(open, x, rest);
      m := n + 2 + k;
      var t := s[..m];
      assert t[1..n + 1] == s[1..][..n] && t[n + 2..] == rest[..k] && t[n + 1] == s[1..][n];
      NestedPair(t, n + 1);
      assert s[m + 1..] == rest[k + 1..];
    } else if IsCloseBracket(s[0]) {
      m := 0;
      assert inner[..|inner| - 1] == open;
      NestedPlain(s[..0]);
    } else {
      var k := ClosesSplits(open, x, s[1..]);
      m := k + 1;
      assert s[..m][1..] == s[1..][..k];
      NestedPlain(s[..m]);
      assert s[m + 1..] == s[1..][k + 1..];
    }
  }

  /** The stack reading and the grammar agree on every stream. */
  lemma {:induction false} ClosesIsNested(s: seq<Kind>)
    ensures Closes([], s) <==> Nested(s)
    decreases |s|
  {
    if Nested(s) {
      NestedIsTransparent([], s, []);
      assert s + [] == s;
    }
    if Closes([], s) && s != [] {
      if IsOpenBracket(s[0]) {
        var m := ClosesSplits([], s[0], s[1..]);
        ClosesIsNested(s[1..][m + 1..]);
        assert s[1..m + 1] == s[1..][..m] && s[m + 2..] == s[1..][m + 1..] && s[m + 1] == s[1..][m];
        assert PairedAt(s, m + 1);
      } else {
        ClosesIsNested(s[1..]);
      }
    }
  }

  /** checkBrackets, with the reason left out of the error. */
  method CheckBrackets(toks: seq<Kind>) returns (ok: bool)
    ensures ok <==> Nested(toks)
  {
    ClosesIsNested(toks);
    var open: seq<Kind> := [];
    var i := 0;
    while i < |toks|
      invariant 0 <= i <= |toks|
      invariant Closes([], toks) == Closes(open, toks[i..])
    {
      var t := toks[i];
      assert toks[i..][0] == t && toks[i..][1..] == toks[i + 1..];
      if IsOpenBracket(t) {
        open := open + [t];
      } else if IsCloseBracket(t) {
        if open == [] || CloserOf(open[|open| - 1]) != t {
          return false;
        }
        open := open[..|open| - 1];
      }
      i := i + 1;
    }
    ok := open == [];
  }
}
