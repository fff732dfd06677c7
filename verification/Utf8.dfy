/** UTF-8 as section 3 of RFC 3629 and section 4 (the syntax of byte sequences) define it. */
module Utf8 {
  import opened Common

  predicate Tail(b: Byte)
  {
    0x80 <= b <= 0xBF
  }

  /** The length of the well-formed sequence s starts with, or 0. */
  function Lead(s: seq<Byte>): (n: nat)
    ensures n <= 4 && n <= |s|
  {
    if |s| >= 1 && s[0] <= 0x7F then 1
    else if |s| >= 2 && 0xC2 <= s[0] <= 0xDF && Tail(s[1]) then 2
    else if |s| >= 3 && Tail(s[2]) && (
      || (s[0] == 0xE0 && 0xA0 <= s[1] <= 0xBF)
      || ((0xE1 <= s[0] <= 0xEC || 0xEE <= s[0] <= 0xEF) && Tail(s[1]))
      || (s[0] == 0xED && 0x80 <= s[1] <= 0x9F)) then 3
    else if |s| >= 4 && Tail(s[2]) && Tail(s[3]) && (
      || (s[0] == 0xF0 && 0x90 <= s[1] <= 0xBF)
      || (0xF1 <= s[0] <= 0xF3 && Tail(s[1]))
      || (s[0] == 0xF4 && 0x80 <= s[1] <= 0x8F)) then 4
    else 0
  }

  predicate Valid(s: seq<Byte>)
  {
    s == [] || (Lead(s) > 0 && Valid(s[Lead(s)..]))
  }
}
