/** What the other modules share about sequences. */
module Sequences {

  lemma Associative<T>(a: seq<T>, b: seq<T>, c: seq<T>)
    ensures a + (b + c) == (a + b) + c
  {
  }

  lemma SliceOfSlice<T>(s: seq<T>, a: nat, b: nat, i: nat, n: nat)
    requires a + i + n <= b <= |s|
    ensures s[a..b][i..i + n] == s[a + i..a + i + n]
  {
    var whole, part := s[a..b], s[a + i..a + i + n];
    forall k | 0 <= k < |part|
      ensures whole[i + k] == part[k]
    {
    }
  }

  lemma UpdateOutside<T>(s: seq<T>, k: nat, x: T, i: nat, j: nat)
    requires k < |s| && i <= j <= |s| && (j <= k || k < i)
    ensures s[k := x][i..j] == s[i..j]
  {
  }

  lemma SliceJoin<T>(s: seq<T>, a: nat, b: nat, c: nat)
    requires a <= b <= c <= |s|
    ensures s[a..c] == s[a..b] + s[b..c]
  {
  }
}
