/** Translating character positions of a statement into byte positions. */
module TokenStream {
  import opened Common
  import Utf8

  /** How many bytes a Go range over a string steps at the head of s: a character, or one ill-formed byte. */
  function Width(s: seq<Byte>): (n: nat)
    requires s != []
    ensures 1 <= n <= |s|
  {
    if Utf8.Lead(s) > 0 then Utf8.Lead(s) else 1
  }

  /** The characters of s, in Go's reading. */
  function Characters(s: seq<Byte>): (n: nat)
    ensures n <= |s|
  {
    if s == [] then 0 else 1 + Characters(s[Width(s)..])
  }

  /** The byte offset of character k of s; its length for k past the last. */
  function Offset(s: seq<Byte>, k: nat): (r: nat)
    ensures r <= |s|
  {
    if k == 0 || s == [] then 0 else Width(s) + Offset(s[Width(s)..], k - 1)
  }

  /** Offsets rise strictly up to the end of the text. */
  lemma {:induction false} OffsetsRise(s: seq<Byte>, j: nat, k: nat)
    requires j < k <= Characters(s)
    ensures Offset(s, j) < Offset(s, k)
  {
    if j > 0 {
      OffsetsRise(s[Width(s)..], j - 1, k - 1);
    }
  }

  /** Offset k is where the first k characters end. */
  lemma {:induction false} OffsetSplits(s: seq<Byte>, k: nat)
    requires k <= Characters(s)
    ensures Characters(s[Offset(s, k)..]) == Characters(s) - k
    ensures Characters(s[..Offset(s, k)]) == k
  {
    hide Width;
    if k == 0 || s == [] {
      assert s[0..] == s;
    } else {
      var w := Width(s);
      OffsetSplits(s[w..], k - 1);
      var to := Offset(s, k);
      assert s[w..][Offset(s[w..], k - 1)..] == s[to..];
      CutKeepsWidth(s, to);
      assert s[..to][w..] == s[w..][..to - w];
    }
  }

  /** Cutting the text off after its first character leaves that character as it was. */
  lemma CutKeepsWidth(s: seq<Byte>, to: nat)
    requires s != [] && Width(s) <= to <= |s|
    ensures Width(s[..to]) == Width(s)
  {
  }

  /** An offset past an offset is an offset of what is left. */
  lemma {:induction false} OffsetFrom(s: seq<Byte>, j: nat, k: nat)
    requires j <= k <= Characters(s)
    ensures Characters(s[Offset(s, j)..]) == Characters(s) - j
    ensures Offset(s, k) == Offset(s, j) + Offset(s[Offset(s, j)..], k - j)
  {
    hide Width;
    OffsetSplits(s, j);
    if j == 0 {
      assert s[0..] == s;
    } else {
      var w := Width(s);
      OffsetFrom(s[w..], j - 1, k - 1);
      assert Offset(s, j) == w + Offset(s[w..], j - 1) && Offset(s, k) == w + Offset(s[w..], k - 1);
      hide Offset, Characters;
      assert s[w..][Offset(s[w..], j - 1)..] == s[Offset(s, j)..];
    }
  }

  /** A statement with its table of character offsets. */
  datatype TokenStream = TokenStream(sql: seq<Byte>, runeToByte: seq<nat>) {
    predicate Valid() {
      && |runeToByte| == Characters(sql) + 1
      && forall k :: 0 <= k < |runeToByte| ==> runeToByte[k] == Offset(sql, k)
    }
  }

  /** The character after the k-th starts where the k-th ends. */
  lemma NextOffset(sql: seq<Byte>, k: nat)
    requires k <= Characters(sql) && Offset(sql, k) < |sql|
    ensures k < Characters(sql)
    ensures var rest := sql[Offset(sql, k)..];
      && Offset(sql, k + 1) == Offset(sql, k) + Width(rest)
      && Characters(sql[Offset(sql, k + 1)..]) == Characters(rest) - 1
      && Characters(rest) == Characters(sql) - k
  {
    hide Characters, Offset, Width;
    OffsetSplits(sql, k);
    var rest := sql[Offset(sql, k)..];
    FirstOffset(rest);
    OffsetFrom(sql, k, k + 1);
    assert rest[Width(rest)..] == sql[Offset(sql, k) + Width(rest)..];
  }

  lemma FirstOffset(s: seq<Byte>)
    requires s != []
    ensures Offset(s, 1) == Width(s) && Characters(s) == 1 + Characters(s[Width(s)..])
  {
    hide Width;
  }

  /** newTokenStream. */
  method NewTokenStream(sql: seq<Byte>) returns (r: TokenStream)
    ensures r.Valid() && r.sql == sql
  {
    hide Characters, Offset, Width;
    var offsets: seq<nat> := [];
    var at := 0;
    NoOffset(sql);
    while at < |sql|
      invariant 0 <= at <= |sql|
      invariant |offsets| <= Characters(sql) && at == Offset(sql, |offsets|)
      invariant forall k :: 0 <= k < |offsets| ==> offsets[k] == Offset(sql, k)
      decreases |sql| - at
    {
      NextOffset(sql, |offsets|);
      offsets := offsets + [at];
      at := at + Width(sql[at..]);
    }
    AllOffsets(sql, |offsets|);
    r := TokenStream(sql, offsets + [|sql|]);
  }

  lemma NoOffset(sql: seq<Byte>)
    ensures Offset(sql, 0) == 0
  {
  }

  /** Only the offset past the last character is the end of the text. */
  lemma AllOffsets(sql: seq<Byte>, k: nat)
    requires k <= Characters(sql) && Offset(sql, k) == |sql|
    ensures k == Characters(sql)
  {
    OffsetSplits(sql, k);
  }

  /**
   byteRange: the bytes of characters start..end. A range inside the text is always found, it holds exactly
   that many characters, and a longer or later one lies strictly further along.
   */
  method ByteRange(s: TokenStream, start: int, end: int) returns (startByte: nat, endByte: nat, ok: bool)
    requires s.Valid()
    ensures ok <==> 0 <= start <= end <= Characters(s.sql)
    ensures ok ==> startByte == Offset(s.sql, start) && endByte == Offset(s.sql, end)
    ensures ok ==> startByte <= endByte <= |s.sql| && Characters(s.sql[startByte..endByte]) == end - start
    ensures ok && start < end ==> startByte < endByte
  {
    hide Width, Characters, Offset;
    if start < 0 || end < start || end >= |s.runeToByte| {
      return 0, 0, false;
    }
    startByte, endByte := s.runeToByte[start], s.runeToByte[end];
    if start < end {
      OffsetsRise(s.sql, start, end);
    }
    OffsetFrom(s.sql, start, end);
    OffsetSplits(s.sql[startByte..], end - start);
    assert s.sql[startByte..][..endByte - startByte] == s.sql[startByte..endByte];
    ok := startByte >= 0 && endByte >= startByte && endByte <= |s.sql|;
  }

  /** In well-formed text every offset stands between two characters: both sides are well-formed. */
  lemma {:induction false} OffsetsAreBoundaries(s: seq<Byte>, k: nat)
    requires Utf8.Valid(s) && k <= Characters(s)
    ensures Utf8.Valid(s[..Offset(s, k)]) && Utf8.Valid(s[Offset(s, k)..])
  {
    hide Utf8.Lead;
    if k == 0 || s == [] {
      assert s[0..] == s;
    } else {
      var w := Width(s);
      OffsetsAreBoundaries(s[w..], k - 1);
      var to := Offset(s, k);
      assert s[w..][to - w..] == s[to..];
      CutKeepsWidth(s, to);
      assert s[..to][w..] == s[w..][..to - w];
      CutKeepsLead(s, to);
    }
  }

  lemma CutKeepsLead(s: seq<Byte>, to: nat)
    requires s != [] && Utf8.Lead(s) > 0 && Utf8.Lead(s) <= to <= |s|
    ensures Utf8.Lead(s[..to]) == Utf8.Lead(s)
  {
  }
}
