/** Bytes, C strings in byte buffers, and the character classes of the C locale. */
module Bytes {
  type byte = x: int | 0 <= x < 256

  const NUL: byte := 0
  const NEWLINE: byte := 10
  const SPACE: byte := 32
  const DOUBLE_QUOTE: byte := 34
  const SINGLE_QUOTE: byte := 39
  const STAR: byte := 42
  const EQUALS: byte := 61
  const LEFT_BRACKET: byte := 91
  const RIGHT_BRACKET: byte := 93

  predicate IsSpace(c: byte) {
    c == SPACE || 9 <= c <= 13
  }

  predicate IsUpper(c: byte) {
    65 <= c <= 90
  }

  predicate IsLower(c: byte) {
    97 <= c <= 122
  }

  predicate IsAlnum(c: byte) {
    IsUpper(c) || IsLower(c) || 48 <= c <= 57
  }

  function ToUpper(c: byte): byte {
    if IsLower(c) then c - 32 else c
  }

  function ToLower(c: byte): byte {
    if IsUpper(c) then c + 32 else c
  }

  /** The two cases of a letter are each other's, and nothing else has two. */
  lemma Folding(c: byte)
    ensures IsLower(c) ==> IsUpper(ToUpper(c)) && ToLower(ToUpper(c)) == c
    ensures IsUpper(c) ==> IsLower(ToLower(c)) && ToUpper(ToLower(c)) == c
    ensures !IsLower(c) ==> ToUpper(c) == c
    ensures !IsUpper(c) ==> ToLower(c) == c
  {
  }

  /** The position of the first NUL at or after `i`, or the end of the buffer. */
  function End(s: seq<byte>, i: nat): (e: nat)
    requires i <= |s|
    ensures i <= e <= |s|
    ensures forall j :: i <= j < e ==> s[j] != NUL
    ensures e < |s| ==> s[e] == NUL
    decreases |s| - i
  {
    if i == |s| || s[i] == NUL then i else End(s, i + 1)
  }

  /** The C string that starts at `i`. */
  function CString(s: seq<byte>, i: nat): seq<byte>
    requires i <= |s|
  {
    s[i..End(s, i)]
  }

  /** src/strchar.c:8-17 on the string at `i`; a limit of 0 acts like 1. */
  function Length(s: seq<byte>, i: nat, max: nat): nat
    requires i <= |s|
  {
    var n := End(s, i) - i;
    var limit := if max == 0 then 1 else max;
    if n < limit then n else limit
  }

  /** src/strchar.c:8-17: the string ends, or the limit is reached, inside the buffer. */
  method StrLen(a: array<byte>, i: nat, max: nat) returns (count: nat)
    requires i < a.Length
    requires End(a[..], i) < a.Length || i + max <= a.Length
    ensures count == Length(a[..], i, max)
  {
    count := 0;
    var s := i;
    while a[s] != NUL
      invariant i <= s < a.Length && s == i + count && (count < max || count == 0)
      invariant End(a[..], i) == End(a[..], s)
      decreases a.Length - s
    {
      count := count + 1;
      if count >= max {
        assert End(a[..], s) >= s + 1;
        break;
      }
      s := s + 1;
    }
  }

  /** The position of a NUL that no NUL precedes. */
  lemma {:induction false} EndAt(s: seq<byte>, i: nat, e: nat)
    requires i <= e < |s| && s[e] == NUL && forall j :: i <= j < e ==> s[j] != NUL
    ensures End(s, i) == e
  {
  }
}
