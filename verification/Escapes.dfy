/**
 The escape language of quoted ClickHouse lexemes: two decoders written apart, exactly when they
 agree, and the printers the decoders undo.
 */
module Escapes {
  import opened Common
  import Utf8

  type Bytes = seq<Byte>

  const BACKSLASH: Byte := 0x5C
  const QUOTE: Byte := 0x27
  const DOUBLE: Byte := 0x22
  const BACKTICK: Byte := 0x60

  // ---------------------------------------------------------------------------------------
  // Hexadecimal escapes

  /** clickHouseUnhex2's digit: -1 for a byte that is no hex digit. */
  function Digit(c: Byte): int
  {
    if '0' as int <= c <= '9' as int then c - '0' as int
    else if 'a' as int <= c <= 'f' as int then c - 'a' as int + 10
    else if 'A' as int <= c <= 'F' as int then c - 'A' as int + 10
    else -1
  }

  /** clickHouseUnhex2: & 0xff of a possibly negative int is the remainder modulo 256. */
  function Unhex2(a: Byte, b: Byte): Byte
  {
    (Digit(a) * 16 + Digit(b)) % 256
  }

  /** unhexDigit: 0xFF for a byte that is no hex digit. */
  function UnhexDigit(c: Byte): Byte
  {
    if '0' as int <= c <= '9' as int then c - '0' as int
    else if 'a' as int <= c <= 'f' as int then c - 'a' as int + 10
    else if 'A' as int <= c <= 'F' as int then c - 'A' as int + 10
    else 0xFF
  }

  /** clickhouseUnquote's pair: a shift and a sum of bytes, each wrapping at 256. */
  function UnhexPair(h: Byte, l: Byte): Byte
  {
    (UnhexDigit(h) * 16 % 256 + UnhexDigit(l)) % 256
  }

  /** The two hex rules are one modulo 256, non-hex bytes included. */
  lemma UnhexRulesAgree(h: Byte, l: Byte)
    ensures UnhexPair(h, l) == Unhex2(h, l)
  {
    var dh, dl := Digit(h), Digit(l);
    assert -1 <= dh <= 15 && -1 <= dl <= 15;
    var uh, ul := if dh < 0 then 255 else dh, if dl < 0 then 255 else dl;
    assert UnhexDigit(h) == uh && UnhexDigit(l) == ul;
    hide Digit, UnhexDigit;
    Mod256(uh * 16, if dh < 0 then 15 else 0);
    var shifted := if dh < 0 then 240 else dh * 16;
    Mod256(shifted + ul, if shifted + ul >= 256 then 1 else 0);
    Mod256(dh * 16 + dl, if dh * 16 + dl < 0 then -1 else 0);
  }

  lemma Mod256(x: int, k: int)
    requires 0 <= x - 256 * k < 256
    ensures x % 256 == x - 256 * k
  {
  }

  /** Only 5C and 5c spell a backslash. */
  lemma BackslashInHex(h: Byte, l: Byte)
    requires Unhex2(h, l) == BACKSLASH
    ensures h == '5' as int && (l == 'C' as int || l == 'c' as int)
  {
    assert -1 <= Digit(h) <= 15 && -1 <= Digit(l) <= 15;
    assert Digit(h) * 16 + Digit(l) == 0x5C || Digit(h) * 16 + Digit(l) == 0x5C - 256;
    assert Digit(h) == 5 && Digit(l) == 12;
  }

  // ---------------------------------------------------------------------------------------
  // Single-byte escapes

  /** What a backslash and c denote, for every c but x and X. */
  function Escape(c: Byte): (r: Bytes)
    ensures |r| <= 2
  {
    if c == 'N' as int then []
    else if c == 'a' as int then [0x07]
    else if c == 'b' as int then [0x08]
    else if c == 'e' as int then [0x1B]
    else if c == 'f' as int then [0x0C]
    else if c == 'n' as int then [0x0A]
    else if c == 'r' as int then [0x0D]
    else if c == 't' as int then [0x09]
    else if c == 'v' as int then [0x0B]
    else if c == '0' as int then [0x00]
    else if c == BACKSLASH || c == QUOTE || c == DOUBLE || c == BACKTICK || c == '/' as int || c == '=' as int then [c]
    else if c <= 0x1F then [c]
    else [BACKSLASH, c]
  }

  predicate IsX(c: Byte)
  {
    c == 'x' as int || c == 'X' as int
  }

  /** clickHouseEscape at the head of s: the bytes denoted and how many it reads. */
  function EscapeAt(s: Bytes): (r: Option<(Bytes, nat)>)
    requires s != [] && s[0] == BACKSLASH
    ensures r.Some? ==> 2 <= r.value.1 <= |s|
  {
    if |s| < 2 then None
    else if IsX(s[1]) then
      if |s| < 4 then None else Some(([Unhex2(s[2], s[3])], 4))
    else Some((Escape(s[1]), 2))
  }

  // ---------------------------------------------------------------------------------------
  // The two decoders, as readings of what is left

  function Prepend(head: Bytes, tail: Option<Bytes>): (r: Option<Bytes>)
  {
    if tail.None? then None else Some(head + tail.value)
  }

  /** decodeQuotedBody from inside the quotes: s ends with the closing quote. */
  function Decode(s: Bytes, q: Byte): Option<Bytes>
  {
    if s == [] then None
    else if s[0] == q then
      if |s| > 1 && s[1] == q then Prepend([q], Decode(s[2..], q))
      else if |s| == 1 then Some([])
      else None
    else if s[0] == BACKSLASH then
      var e := EscapeAt(s);
      if e.None? || e.value.1 > |s| - 1 then None else Prepend(e.value.0, Decode(s[e.value.1..], q))
    else Prepend([s[0]], Decode(s[1..], q))
  }

  /** clickhouseUnquote on what is left of the body, the closing quote already cut off. */
  function Unquote(b: Bytes, q: Byte): Option<Bytes>
  {
    if b == [] then Some([])
    else if b[0] == q then
      if |b| < 2 || b[1] != q then None else Prepend([q], Unquote(b[2..], q))
    else if b[0] == BACKSLASH then
      if |b| < 2 then None
      else if b[1] == 'x' as int then
        if |b| < 4 || b[2] == q || b[3] == q || b[2] == BACKSLASH || b[3] == BACKSLASH then None
        else Prepend([UnhexPair(b[2], b[3])], Unquote(b[4..], q))
      else Prepend(Escape(b[1]), Unquote(b[2..], q))
    else Prepend([b[0]], Unquote(b[1..], q))
  }

  /** The statuses of decodeQuotedBody. */
  datatype Status = Exact | NotUtf8 | Rejected

  /** decodeQuotedBody. */
  method DecodeQuotedBody(raw: Bytes, q: Byte) returns (value: Bytes, status: Status)
    requires |raw| >= 1
    ensures Decode(raw[1..], q).None? ==> value == [] && status == Rejected
    ensures Decode(raw[1..], q).Some? ==>
      value == Decode(raw[1..], q).value && status == if Utf8.Valid(value) then Exact else NotUtf8
  {
    var b: Bytes := [];
    PrependNothing(Decode(raw[1..], q));
    var i := 1;
    while i < |raw|
      invariant 1 <= i <= |raw|
      invariant Decode(raw[1..], q) == Prepend(b, Decode(raw[i..], q))
    {
      var c := raw[i];
      ghost var rest := raw[i..];
      assert rest[0] == c && forall n :: 0 <= n <= |rest| ==> rest[n..] == raw[i + n..];
      if c == q {
        if i + 1 < |raw| && raw[i + 1] == q {
          PrependTwice(b, [q], Decode(raw[i + 2..], q));
          b := b + [q];
          i := i + 2;
          continue;
        }
        if i != |raw| - 1 {
          return [], Rejected;
        }
        assert b + [] == b;
        return b, if Utf8.Valid(b) then Exact else NotUtf8;
      } else if c == BACKSLASH {
        var e := EscapeAt(raw[i..]);
        if e.None? || i + e.value.1 > |raw| - 1 {
          return [], Rejected;
        }
        PrependTwice(b, e.value.0, Decode(raw[i + e.value.1..], q));
        b := b + e.value.0;
        i := i + e.value.1;
      } else {
        PrependTwice(b, [c], Decode(raw[i + 1..], q));
        b := b + [c];
        i := i + 1;
      }
    }
    return [], Rejected;
  }

  lemma PrependNothing(tail: Option<Bytes>)
    ensures Prepend([], tail) == tail
  {
    if tail.Some? {
      assert [] + tail.value == tail.value;
    }
  }

  lemma PrependTwice(a: Bytes, b: Bytes, tail: Option<Bytes>)
    ensures Prepend(a, Prepend(b, tail)) == Prepend(a + b, tail)
  {
    if tail.Some? {
      assert a + (b + tail.value) == a + b + tail.value;
    }
  }

  /** The value clickhouseUnquote gives a lexeme. */
  function Unquoted(raw: Bytes): Option<Bytes>
  {
    if |raw| < 2 || raw[|raw| - 1] != raw[0] then None else Unquote(raw[1..|raw| - 1], raw[0])
  }

  /** The value decodeQuotedBody gives a lexeme read with its own first byte as the quote. */
  function Decoded(raw: Bytes): Option<Bytes>
  {
    if raw == [] then None else Decode(raw[1..], raw[0])
  }

  /** clickhouseUnquote. */
  method ClickhouseUnquote(raw: Bytes) returns (r: Option<Bytes>)
    ensures r == Unquoted(raw)
  {
    if |raw| < 2 || raw[|raw| - 1] != raw[0] {
      return None;
    }
    var q, body := raw[0], raw[1..|raw| - 1];
    var b: Bytes := [];
    PrependNothing(Unquote(body, q));
    assert body[0..] == body;
    var i := 0;
    while i < |body|
      invariant 0 <= i <= |body|
      invariant Unquote(body, q) == Prepend(b, Unquote(body[i..], q))
    {
      var c := body[i];
      ghost var rest := body[i..];
      assert rest[0] == c && forall n :: 0 <= n <= |rest| ==> rest[n..] == body[i + n..];
      if c == q {
        if i + 1 >= |body| || body[i + 1] != q {
          return None;
        }
        PrependTwice(b, [q], Unquote(body[i + 2..], q));
        b := b + [q];
        i := i + 1;
      } else if c == BACKSLASH {
        if i + 1 >= |body| {
          return None;
        }
        i := i + 1;
        var n := body[i];
        if n == 'x' as int {
          if i + 2 >= |body| {
            return None;
          }
          var h, l := body[i + 1], body[i + 2];
          if h == q || l == q || h == BACKSLASH || l == BACKSLASH {
            return None;
          }
          PrependTwice(b, [UnhexPair(h, l)], Unquote(body[i + 3..], q));
          b := b + [UnhexPair(h, l)];
          i := i + 2;
        } else {
          PrependTwice(b, Escape(n), Unquote(body[i + 1..], q));
          b := b + Escape(n);
        }
      } else {
        PrependTwice(b, [c], Unquote(body[i + 1..], q));
        b := b + [c];
      }
      i := i + 1;
    }
    assert b + [] == b;
    r := Some(b);
  }

  // ---------------------------------------------------------------------------------------
  // When the decoders agree

  predicate IsQuote(q: Byte)
  {
    q == QUOTE || q == DOUBLE || q == BACKTICK
  }

  /** The body holds an escape \X where an escape is read. */
  predicate HasCapitalX(b: Bytes, q: Byte)
  {
    if b == [] then false
    else if b[0] == q then |b| >= 2 && HasCapitalX(b[2..], q)
    else if b[0] == BACKSLASH then
      if |b| < 2 then false
      else if b[1] == 'X' as int then true
      else if b[1] == 'x' as int then |b| >= 4 && HasCapitalX(b[4..], q)
      else HasCapitalX(b[2..], q)
    else HasCapitalX(b[1..], q)
  }

  /** A decoder at a quote, with the other one byte ahead of it, never finds the lexeme's end. */
  lemma {:induction false} QuoteHead(b: Bytes, q: Byte)
    requires IsQuote(q) && b != [] && b[0] == q && Unquote(b[1..], q).Some?
    ensures Decode(b + [q], q).None?
    decreases |b|
  {
    var s := b + [q];
    if |b| == 1 {
      assert s[2..] == [];
    } else if b[1] == q {
      assert s[2..] == b[2..] + [q];
      assert b[1..][2..] == b[2..][1..];
      QuoteHead(b[2..], q);
    }
  }

  /** Reading from the same place, decodeQuotedBody never finds more than clickhouseUnquote. */
  lemma {:induction false} NeverLonger(b: Bytes, q: Byte)
    requires IsQuote(q) && Unquote(b, q).Some? && Decode(b + [q], q).Some?
    ensures |Decode(b + [q], q).value| <= |Unquote(b, q).value|
    decreases |b|, 1
  {
    var s := b + [q];
    if b == [] {
    } else if b[0] == q {
      assert s[2..] == b[2..] + [q];
      NeverLonger(b[2..], q);
    } else if b[0] == BACKSLASH {
      if b[1] == 'X' as int {
        assert s[4..] == b[2..][2..] + [q];
        TwoAhead(b[2..], q);
      } else if b[1] == 'x' as int {
        assert s[4..] == b[4..] + [q];
        NeverLonger(b[4..], q);
      } else {
        assert s[2..] == b[2..] + [q];
        NeverLonger(b[2..], q);
      }
    } else {
      assert s[1..] == b[1..] + [q];
      NeverLonger(b[1..], q);
    }
  }

  /** One byte ahead of a backslash, it finds at most two bytes more. */
  lemma {:induction false} OneAhead(b: Bytes, q: Byte)
    requires IsQuote(q) && b != [] && b[0] == BACKSLASH && Unquote(b, q).Some? && Decode(b[1..] + [q], q).Some?
    ensures |Decode(b[1..] + [q], q).value| <= |Unquote(b, q).value| + 2
    decreases |b|, 1
  {
    var s := b[1..] + [q];
    var c := b[1];
    assert s[0] == c;
    if c == 'x' as int {
      PlainRun(s, q);
      assert s[3..] == b[4..] + [q];
      NeverLonger(b[4..], q);
    } else if c == q {
      QuoteHead(b[1..], q);
    } else if c == BACKSLASH {
      OneAheadOfPair(b, q);
    } else {
      assert s[1..] == b[2..] + [q];
      NeverLonger(b[2..], q);
    }
  }

  /** Three bytes that are neither quote nor backslash stand for themselves. */
  lemma PlainRun(s: Bytes, q: Byte)
    requires |s| >= 3 && forall i :: 0 <= i < 3 ==> s[i] != q && s[i] != BACKSLASH
    requires Decode(s, q).Some?
    ensures Decode(s[3..], q).Some? && |Decode(s, q).value| == 3 + |Decode(s[3..], q).value|
  {
    assert s[1..][1..] == s[2..] && s[2..][1..] == s[3..];
    assert Decode(s, q) == Prepend([s[0]], Decode(s[1..], q));
    assert Decode(s[1..], q) == Prepend([s[1]], Decode(s[2..], q));
    assert Decode(s[2..], q) == Prepend([s[2]], Decode(s[3..], q));
  }

  lemma {:induction false} OneAheadOfPair(b: Bytes, q: Byte)
    requires IsQuote(q) && |b| >= 2 && b[0] == BACKSLASH == b[1] && Unquote(b, q).Some? && Decode(b[1..] + [q], q).Some?
    ensures |Decode(b[1..] + [q], q).value| <= |Unquote(b, q).value| + 2
    decreases |b|, 0
  {
    var s := b[1..] + [q];
    var e := EscapeAt(s);
    var rest := b[2..];
    assert Unquote(b, q) == Prepend([BACKSLASH], Unquote(rest, q));
    assert |b| == 2 ==> s == [BACKSLASH, q];
    assert |b| > 2;
    assert s[1] == b[2] == rest[0];
    if IsX(b[2]) {
      assert s[4..] == b[3..][2..] + [q];
      assert rest[1..] == b[3..];
      TwoAhead(b[3..], q);
    } else {
      assert s[2..] == b[3..] + [q] && rest[1..] == b[3..];
      if b[2] == q {
        assert rest[2..] == b[3..][1..];
        QuoteHead(b[3..], q);
      } else if b[2] == BACKSLASH {
        OneAhead(rest, q);
      } else {
        NeverLonger(b[3..], q);
      }
    }
  }

  /** Two bytes ahead, it finds at most one byte more. */
  lemma {:induction false} TwoAhead(b: Bytes, q: Byte)
    requires IsQuote(q) && |b| >= 2 && Unquote(b, q).Some? && Decode(b[2..] + [q], q).Some?
    ensures |Decode(b[2..] + [q], q).value| <= |Unquote(b, q).value| + 1
    decreases |b|, 0
  {
    var s := b[2..] + [q];
    if b[0] == q {
      NeverLonger(b[2..], q);
    } else if b[0] == BACKSLASH {
      if b[1] == 'x' as int {
        assert s[0] == b[2] && s[1] == b[3];
        assert s[1..][1..] == b[4..] + [q];
        assert Decode(s, q) == Prepend([s[0]], Decode(s[1..], q));
        assert Decode(s[1..], q) == Prepend([s[1]], Decode(b[4..] + [q], q));
        NeverLonger(b[4..], q);
      } else {
        NeverLonger(b[2..], q);
      }
    } else {
      var rest := b[1..];
      assert rest[1..] == b[2..];
      assert Unquote(b, q) == Prepend([b[0]], Unquote(rest, q));
      if b[1] == q {
        assert rest[2..] == b[2..][1..];
        QuoteHead(b[2..], q);
      } else if b[1] == BACKSLASH {
        OneAhead(rest, q);
      } else {
        NeverLonger(b[2..], q);
      }
    }
  }

  /** Where clickhouseUnquote reads a body, decodeQuotedBody reads the same value exactly when no \X escape is met. */
  lemma {:induction false} AgreeOnBody(b: Bytes, q: Byte)
    requires IsQuote(q) && Unquote(b, q).Some?
    ensures Decode(b + [q], q) == Unquote(b, q) <==> !HasCapitalX(b, q)
    decreases |b|
  {
    var s := b + [q];
    if b == [] {
    } else if b[0] == q {
      assert s[2..] == b[2..] + [q];
      AgreeOnBody(b[2..], q);
      PrependCancels([q], Decode(s[2..], q), Unquote(b[2..], q));
    } else if b[0] == BACKSLASH {
      if b[1] == 'X' as int {
        CapitalXDiffers(b, q);
      } else if b[1] == 'x' as int {
        assert s[4..] == b[4..] + [q];
        UnhexRulesAgree(b[2], b[3]);
        AgreeOnBody(b[4..], q);
        PrependCancels([Unhex2(b[2], b[3])], Decode(s[4..], q), Unquote(b[4..], q));
      } else {
        assert s[2..] == b[2..] + [q];
        AgreeOnBody(b[2..], q);
        PrependCancels(Escape(b[1]), Decode(s[2..], q), Unquote(b[2..], q));
      }
    } else {
      assert s[1..] == b[1..] + [q];
      AgreeOnBody(b[1..], q);
      PrependCancels([b[0]], Decode(s[1..], q), Unquote(b[1..], q));
    }
  }

  lemma PrependCancels(head: Bytes, a: Option<Bytes>, b: Option<Bytes>)
    ensures Prepend(head, a) == Prepend(head, b) <==> a == b
  {
    if a.Some? && b.Some? && head + a.value == head + b.value {
      assert a.value == (head + a.value)[|head|..] == (head + b.value)[|head|..] == b.value;
    }
  }

  /** At a \X escape the values differ: the hex reading is too short to catch up. */
  lemma CapitalXDiffers(b: Bytes, q: Byte)
    requires IsQuote(q) && |b| >= 2 && b[0] == BACKSLASH && b[1] == 'X' as int && Unquote(b, q).Some?
    ensures Decode(b + [q], q) != Unquote(b, q)
  {
    var s := b + [q];
    var u := Unquote(b, q).value;
    assert u == [BACKSLASH, b[1]] + Unquote(b[2..], q).value;
    if Decode(s, q).Some? {
      var byte := Unhex2(s[2], s[3]);
      assert Decode(s, q).value[0] == byte;
      if byte == BACKSLASH {
        BackslashInHex(s[2], s[3]);
        var rest := b[2..];
        assert s[2] == b[2] == rest[0] && s[3] == b[3] == rest[1..][0];
        assert rest[1..][1..] == b[4..] && s[4..] == b[4..] + [q];
        assert Unquote(rest, q) == Prepend([b[2]], Unquote(rest[1..], q));
        assert Unquote(rest[1..], q) == Prepend([b[3]], Unquote(b[4..], q));
        NeverLonger(b[4..], q);
      }
    }
  }

  /** The two decoders of a quoted lexeme give one value exactly when it holds no \X escape. */
  lemma DecodersAgree(raw: Bytes)
    requires raw != [] && IsQuote(raw[0]) && Unquoted(raw).Some?
    ensures Decoded(raw) == Unquoted(raw) <==> !HasCapitalX(raw[1..|raw| - 1], raw[0])
  {
    var b := raw[1..|raw| - 1];
    assert raw[1..] == b + [raw[0]];
    AgreeOnBody(b, raw[0]);
  }

  // ---------------------------------------------------------------------------------------
  // Printers

  /** The quoting styles: quoteIdentifierSQL, clickhouseQuote, escapeSQLLiteral, and generateSnapshot's backticks. */
  datatype Style = Identifier | Literal | DoubledLiteral | Generated

  function QuoteOf(style: Style): Byte
  {
    match style
    case Identifier | Generated => BACKTICK
    case Literal | DoubledLiteral => QUOTE
  }

  /** An upper-case hex digit. */
  function Hex(n: nat): Byte
    requires n < 16
  {
    if n < 10 then '0' as int + n else 'A' as int + n - 10
  }

  /** How one byte is written. */
  function Spelled(style: Style, c: Byte): (r: Bytes)
    ensures 0 < |r| <= 4
  {
    if c == BACKSLASH then [BACKSLASH, BACKSLASH]
    else if c == QuoteOf(style) then
      if style.Identifier? || style.DoubledLiteral? then [c, c] else [BACKSLASH, c]
    else if style.Identifier? && (c < 0x20 || c == 0x7F) then [BACKSLASH, 'x' as int, Hex(c / 16), Hex(c % 16)]
    else [c]
  }

  /** The text between the quotes. */
  function Body(style: Style, name: Bytes): Bytes
  {
    if name == [] then [] else Spelled(style, name[0]) + Body(style, name[1..])
  }

  function Quoted(style: Style, name: Bytes): Bytes
  {
    [QuoteOf(style)] + Body(style, name) + [QuoteOf(style)]
  }

  lemma {:induction false} BodyAppend(style: Style, a: Bytes, c: Byte)
    ensures Body(style, a + [c]) == Body(style, a) + Spelled(style, c)
  {
    if a == [] {
      assert ([c] + [])[1..] == [];
      assert a + [c] == [c];
    } else {
      assert (a + [c])[1..] == a[1..] + [c];
      BodyAppend(style, a[1..], c);
      assert Spelled(style, a[0]) + (Body(style, a[1..]) + Spelled(style, c)) == Body(style, a) + Spelled(style, c);
    }
  }

  /** quoteIdentifierSQL. */
  method QuoteIdentifierSql(name: Bytes) returns (raw: Bytes)
    ensures raw == Quoted(Identifier, name)
  {
    raw := [BACKTICK];
    var i := 0;
    while i < |name|
      invariant 0 <= i <= |name|
      invariant raw == [BACKTICK] + Body(Identifier, name[..i])
    {
      hide Body;
      var c := name[i];
      BodyAppend(Identifier, name[..i], c);
      assert name[..i + 1] == name[..i] + [c];
      ghost var before := raw;
      if c == BACKTICK {
        raw := raw + [BACKTICK, BACKTICK];
      } else if c == BACKSLASH {
        raw := raw + [BACKSLASH, BACKSLASH];
      } else if c < 0x20 || c == 0x7F {
        raw := raw + [BACKSLASH, 'x' as int];
        raw := raw + [Hex(c / 16)];
        raw := raw + [Hex(c % 16)];
      } else {
        raw := raw + [c];
      }
      assert raw == before + Spelled(Identifier, c);
      assert [BACKTICK] + Body(Identifier, name[..i]) + Spelled(Identifier, c) == [BACKTICK] + (Body(Identifier, name[..i]) + Spelled(Identifier, c));
      i := i + 1;
    }
    assert name[..|name|] == name;
    raw := raw + [BACKTICK];
  }

  /** strings.ReplaceAll of one byte. */
  function ReplaceAll(s: Bytes, c: Byte, put: Bytes): Bytes
  {
    if s == [] then [] else (if s[0] == c then put else [s[0]]) + ReplaceAll(s[1..], c, put)
  }

  lemma {:induction false} ReplaceAllOver(a: Bytes, b: Bytes, c: Byte, put: Bytes)
    ensures ReplaceAll(a + b, c, put) == ReplaceAll(a, c, put) + ReplaceAll(b, c, put)
  {
    if a == [] {
      assert a + b == b;
    } else {
      assert (a + b)[1..] == a[1..] + b;
      ReplaceAllOver(a[1..], b, c, put);
    }
  }

  /** The second quote replacement a style makes after backslashes are doubled. */
  function QuoteReplacement(style: Style): Bytes
    requires !style.Identifier?
  {
    if style.DoubledLiteral? then [QUOTE, QUOTE] else [BACKSLASH, QuoteOf(style)]
  }

  /** Doubling the backslashes first and then replacing the quotes writes each byte once. */
  lemma {:induction false} TwoReplacementsAreOne(style: Style, s: Bytes)
    requires !style.Identifier?
    ensures ReplaceAll(ReplaceAll(s, BACKSLASH, [BACKSLASH, BACKSLASH]), QuoteOf(style), QuoteReplacement(style)) == Body(style, s)
  {
    if s != [] {
      var first := if s[0] == BACKSLASH then [BACKSLASH, BACKSLASH] else [s[0]];
      ReplaceAllOver(first, ReplaceAll(s[1..], BACKSLASH, [BACKSLASH, BACKSLASH]), QuoteOf(style), QuoteReplacement(style));
      TwoReplacementsAreOne(style, s[1..]);
      assert first[1..] == [] || (first[1..] == [BACKSLASH] && first[1..][1..] == []);
      assert ReplaceAll(first, QuoteOf(style), QuoteReplacement(style)) == Spelled(style, s[0]);
    }
  }

  lemma HexPair(c: Byte)
    ensures Digit(Hex(c / 16)) == c / 16 && Digit(Hex(c % 16)) == c % 16
    ensures Unhex2(Hex(c / 16), Hex(c % 16)) == c
    ensures Hex(c / 16) != BACKSLASH && Hex(c % 16) != BACKSLASH && !IsQuote(Hex(c / 16)) && !IsQuote(Hex(c % 16))
  {
  }

  /** Both decoders read one written byte back and go on after it. */
  lemma SpelledIsRead(style: Style, c: Byte, s: Bytes)
    requires s != []
    ensures Decode(Spelled(style, c) + s, QuoteOf(style)) == Prepend([c], Decode(s, QuoteOf(style)))
  {
    var w := Spelled(style, c) + s;
    assert w[|Spelled(style, c)|..] == s;
    HexPair(c);
  }

  lemma SpelledIsUnquoted(style: Style, c: Byte, b: Bytes)
    ensures Unquote(Spelled(style, c) + b, QuoteOf(style)) == Prepend([c], Unquote(b, QuoteOf(style)))
  {
    var w := Spelled(style, c) + b;
    assert w[|Spelled(style, c)|..] == b;
    HexPair(c);
    UnhexRulesAgree(Hex(c / 16), Hex(c % 16));
  }

  lemma {:induction false} BodyIsRead(style: Style, name: Bytes)
    ensures Decode(Body(style, name) + [QuoteOf(style)], QuoteOf(style)) == Some(name)
    ensures Unquote(Body(style, name), QuoteOf(style)) == Some(name)
  {
    if name != [] {
      var rest := Body(style, name[1..]);
      BodyIsRead(style, name[1..]);
      SpelledIsRead(style, name[0], rest + [QuoteOf(style)]);
      SpelledIsUnquoted(style, name[0], rest);
      assert Body(style, name) + [QuoteOf(style)] == Spelled(style, name[0]) + (rest + [QuoteOf(style)]);
      assert [name[0]] + name[1..] == name;
    }
  }

  /** Every printed lexeme is read back whole, by both decoders, as the bytes it was printed from. */
  lemma QuotedIsReadBack(style: Style, name: Bytes)
    ensures Decoded(Quoted(style, name)) == Some(name)
    ensures Unquoted(Quoted(style, name)) == Some(name)
  {
    var raw := Quoted(style, name);
    BodyIsRead(style, name);
    assert raw[1..] == Body(style, name) + [QuoteOf(style)];
    assert raw[1..|raw| - 1] == Body(style, name);
  }

  /** Hence no two names are printed alike. */
  lemma QuotingIsInjective(style: Style, a: Bytes, b: Bytes)
    requires Quoted(style, a) == Quoted(style, b)
    ensures a == b
  {
    QuotedIsReadBack(style, a);
    QuotedIsReadBack(style, b);
  }

  /** English quotes in UTF-8: U+201C opens, U+201D closes. */
  const LEFT_CURLY: Bytes := [0xE2, 0x80, 0x9C]
  const RIGHT_CURLY: Bytes := [0xE2, 0x80, 0x9D]

  predicate OpensCurly(raw: Bytes)
  {
    LEFT_CURLY <= raw
  }

  /** The name between English quotes, verbatim and not empty. */
  function Curly(raw: Bytes): Option<Bytes>
  {
    if |raw| > 6 && OpensCurly(raw) && raw[|raw| - 3..] == RIGHT_CURLY then Some(raw[3..|raw| - 3]) else None
  }

  /** The name a backtick or double-quote lexeme decodes to, if that is not empty. */
  function Named(raw: Bytes): Option<Bytes>
  {
    if |raw| >= 2 && (raw[0] == BACKTICK || raw[0] == DOUBLE) && Decoded(raw) != Some([]) then Decoded(raw) else None
  }

  /** decodeQuotedIdentifier: a name between English quotes is taken as it is, UTF-8 or not. */
  method DecodeQuotedIdentifier(raw: Bytes) returns (value: Bytes, status: Status)
    ensures OpensCurly(raw) ==>
      if Curly(raw).Some? then value == Curly(raw).value && status == Exact else status == Rejected
    ensures !OpensCurly(raw) ==>
      if Named(raw).Some? then value == Named(raw).value && status == (if Utf8.Valid(value) then Exact else NotUtf8) else status == Rejected
    ensures status == Exact ==> value != [] && (Utf8.Valid(value) || !Utf8.Valid(raw))
  {
    hide Utf8.Valid, Decode;
    if OpensCurly(raw) {
      if |raw| < |LEFT_CURLY| + |RIGHT_CURLY| || raw[|raw| - |RIGHT_CURLY|..] != RIGHT_CURLY {
        return [], Rejected;
      }
      var name := raw[|LEFT_CURLY|..|raw| - |RIGHT_CURLY|];
      if name == [] {
        return [], Rejected;
      }
      CurlyIsUtf8Exactly(raw);
      return name, Exact;
    }
    if |raw| < 2 || (raw[0] != BACKTICK && raw[0] != DOUBLE) {
      return [], Rejected;
    }
    value, status := DecodeQuotedBody(raw, raw[0]);
    if status == Exact && value == [] {
      status := Rejected;
    }
    NothingIsUtf8();
  }

  lemma NothingIsUtf8()
    ensures Utf8.Valid([])
  {
  }

  /** A name between English quotes is called exact even when it is not UTF-8, which is exactly when the lexeme is not. */
  lemma CurlyIsUtf8Exactly(raw: Bytes)
    requires Curly(raw).Some?
    ensures Utf8.Valid(Curly(raw).value) <==> Utf8.Valid(raw)
  {
    hide Utf8.Valid;
    var name := Curly(raw).value;
    assert raw == LEFT_CURLY + (name + RIGHT_CURLY);
    AfterLeftCurly(name + RIGHT_CURLY);
    BeforeRightCurly(name);
  }

  lemma AfterLeftCurly(rest: Bytes)
    ensures Utf8.Valid(LEFT_CURLY + rest) <==> Utf8.Valid(rest)
  {
    var s := LEFT_CURLY + rest;
    assert s[0] == 0xE2 && s[1] == 0x80 && s[2] == 0x9C && Utf8.Lead(s) == 3;
    assert s[3..] == rest;
  }

  lemma {:induction false} BeforeRightCurly(name: Bytes)
    ensures Utf8.Valid(name + RIGHT_CURLY) <==> Utf8.Valid(name)
  {
    var s := name + RIGHT_CURLY;
    if name == [] {
      assert s == RIGHT_CURLY && Utf8.Lead(s) == 3 && s[3..] == [];
    } else {
      SameLead(name);
      var n := Utf8.Lead(name);
      hide Utf8.Lead;
      if n > 0 {
        assert s[n..] == name[n..] + RIGHT_CURLY;
        BeforeRightCurly(name[n..]);
      }
    }
  }

  /** The closing quote starts with no continuation byte, so it never completes a sequence. */
  lemma SameLead(name: Bytes)
    requires name != []
    ensures Utf8.Lead(name + RIGHT_CURLY) == Utf8.Lead(name)
  {
    var s := name + RIGHT_CURLY;
    assert forall i :: 0 <= i < |name| ==> s[i] == name[i];
    assert s[|name|] == 0xE2;
  }

  /** A printed identifier names what it was printed from: the round trip through the decoder proper. */
  method IdentifierRoundTrip(name: Bytes) returns (value: Bytes, status: Status)
    requires name != [] && Utf8.Valid(name)
    ensures value == name && status == Exact
  {
    var raw := QuoteIdentifierSql(name);
    QuotedIsReadBack(Identifier, name);
    value, status := DecodeQuotedIdentifier(raw);
  }
}
