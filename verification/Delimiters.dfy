/** Delimiters in byte sequences: matches, the leftmost split, and what makes it the only one. */
module Delimiters {
  import opened Bytes

  predicate IsAt(s: seq<byte>, i: nat, d: seq<byte>) {
    i + |d| <= |s| && s[i..i + |d|] == d
  }

  ghost predicate FirstMatch(s: seq<byte>, i: nat, d: seq<byte>) {
    IsAt(s, i, d) && forall k :: 0 <= k < i ==> !IsAt(s, k, d)
  }

  ghost predicate Contains(s: seq<byte>, d: seq<byte>) {
    exists k :: 0 <= k <= |s| && IsAt(s, k, d)
  }

  /** cpr_strlen(delim, 16): a delimiter is used up to 16 bytes. */
  function Used(delim: seq<byte>): (d: seq<byte>)
    ensures delim != [] <==> d != []
  {
    if |delim| <= 16 then delim else delim[..16]
  }

  /** The first match from `i` on, or one past the end of the sequence. */
  function Find(s: seq<byte>, i: nat, d: seq<byte>): (k: nat)
    requires i <= |s| + 1
    ensures i <= k <= |s| + 1
    ensures k <= |s| ==> IsAt(s, k, d)
    ensures forall j :: i <= j < k ==> !IsAt(s, j, d)
    decreases |s| + 1 - i
  {
    if i == |s| + 1 || IsAt(s, i, d) then i else Find(s, i + 1, d)
  }

  datatype Split = Split(pieces: seq<seq<byte>>, rest: seq<byte>)

  /** Cutting at the leftmost match again and again. */
  function SplitAt(s: seq<byte>, d: seq<byte>): Split
    requires d != []
    decreases |s|
  {
    var k := Find(s, 0, d);
    if k > |s| then Split([], s)
    else
      var more := SplitAt(s[k + |d|..], d);
      Split([s[..k]] + more.pieces, more.rest)
  }

  /** Every piece with the delimiter behind it, then the rest. */
  function Join(split: Split, d: seq<byte>): seq<byte>
    decreases |split.pieces|
  {
    if split.pieces == [] then split.rest
    else split.pieces[0] + d + Join(Split(split.pieces[1..], split.rest), d)
  }

  lemma JoinFirst(p: seq<byte>, split: Split, d: seq<byte>)
    ensures Join(Split([p] + split.pieces, split.rest), d) == p + d + Join(split, d)
  {
    var pieces := [p] + split.pieces;
    assert pieces[0] == p && pieces[1..] == split.pieces;
  }

  lemma CutAt(s: seq<byte>, k: nat, d: seq<byte>)
    requires IsAt(s, k, d)
    ensures s[..k] + d + s[k + |d|..] == s
  {
    assert s[..k] + s[k..k + |d|] == s[..k + |d|];
  }

  lemma {:induction false} JoinOfSplit(s: seq<byte>, d: seq<byte>)
    requires d != []
    ensures Join(SplitAt(s, d), d) == s
    decreases |s|
  {
    var k := Find(s, 0, d);
    if k <= |s| {
      JoinOfSplit(s[k + |d|..], d);
      JoinFirst(s[..k], SplitAt(s[k + |d|..], d), d);
      CutAt(s, k, d);
    }
  }

  /** A match in a prefix is a match in the whole. */
  lemma IsAtPrefix(a: seq<byte>, b: seq<byte>, k: nat, d: seq<byte>)
    requires k + |d| <= |a|
    ensures IsAt(a, k, d) <==> IsAt(a + b, k, d)
  {
    assert (a + b)[k..k + |d|] == a[k..k + |d|];
  }

  /** A split whose every cut is at the first match and whose rest has none. */
  ghost predicate Leftmost(split: Split, d: seq<byte>) {
    && (forall i :: 0 <= i < |split.pieces| ==> FirstMatch(split.pieces[i] + d, |split.pieces[i]|, d))
    && !Contains(split.rest, d)
  }

  lemma LeftmostFirst(p: seq<byte>, split: Split, d: seq<byte>)
    requires FirstMatch(p + d, |p|, d) && Leftmost(split, d)
    ensures Leftmost(Split([p] + split.pieces, split.rest), d)
  {
  }

  lemma LeftmostCut(s: seq<byte>, k: nat, d: seq<byte>, more: Split)
    requires FirstMatch(s, k, d) && Leftmost(more, d)
    ensures Leftmost(Split([s[..k]] + more.pieces, more.rest), d)
  {
    FirstOfWhole(s, k, d);
    LeftmostFirst(s[..k], more, d);
  }

  lemma NothingFound(s: seq<byte>, d: seq<byte>)
    requires Find(s, 0, d) > |s|
    ensures Leftmost(Split([], s), d)
  {
  }

  lemma {:induction false} SplitIsLeftmost(s: seq<byte>, d: seq<byte>)
    requires d != []
    ensures Leftmost(SplitAt(s, d), d)
    decreases |s|
  {
    var k := Find(s, 0, d);
    if k <= |s| {
      var more := SplitAt(s[k + |d|..], d);
      SplitIsLeftmost(s[k + |d|..], d);
      LeftmostCut(s, k, d, more);
    } else {
      NothingFound(s, d);
    }
  }

  lemma FirstOfWhole(s: seq<byte>, k: nat, d: seq<byte>)
    requires FirstMatch(s, k, d)
    ensures FirstMatch(s[..k] + d, k, d)
  {
    assert s == (s[..k] + d) + s[k + |d|..];
    assert IsAt(s[..k] + d, k, d);
    forall j | 0 <= j < k
      ensures !IsAt(s[..k] + d, j, d)
    {
      IsAtPrefix(s[..k] + d, s[k + |d|..], j, d);
    }
  }

  /** No piece of a leftmost split contains the delimiter. */
  lemma PiecesAreFree(split: Split, d: seq<byte>, i: nat)
    requires d != [] && Leftmost(split, d) && i < |split.pieces|
    ensures !Contains(split.pieces[i], d)
  {
    var p := split.pieces[i];
    forall k | 0 <= k <= |p|
      ensures !IsAt(p, k, d)
    {
      if k + |d| <= |p| {
        IsAtPrefix(p, d, k, d);
        assert FirstMatch(p + d, |p|, d);
      }
    }
  }

  lemma LeftmostTail(split: Split, d: seq<byte>)
    requires Leftmost(split, d) && split.pieces != []
    ensures FirstMatch(split.pieces[0] + d, |split.pieces[0]|, d)
    ensures Leftmost(Split(split.pieces[1..], split.rest), d)
  {
  }

  lemma NotContained(s: seq<byte>, d: seq<byte>)
    requires !Contains(s, d)
    ensures Find(s, 0, d) > |s|
  {
  }

  /** There is only one leftmost split of a byte sequence. */
  lemma {:induction false} LeftmostIsSplit(split: Split, d: seq<byte>)
    requires d != [] && Leftmost(split, d)
    ensures SplitAt(Join(split, d), d) == split
    decreases |split.pieces|
  {
    if split.pieces == [] {
      NotContained(split.rest, d);
    } else {
      var p := split.pieces[0];
      var tail := Split(split.pieces[1..], split.rest);
      LeftmostTail(split, d);
      LeftmostIsSplit(tail, d);
      CutAtPiece(p, Join(tail, d), d);
      assert [p] + tail.pieces == split.pieces;
    }
  }

  lemma Slices(p: seq<byte>, d: seq<byte>, more: seq<byte>)
    ensures var s := p + d + more;
      |s| == |p| + |d| + |more| && s[..|p|] == p && s[|p|..|p| + |d|] == d && s[|p| + |d|..] == more
  {
  }

  lemma CutAtPiece(p: seq<byte>, more: seq<byte>, d: seq<byte>)
    requires FirstMatch(p + d, |p|, d)
    ensures var s := p + d + more;
      Find(s, 0, d) == |p| && s[..|p|] == p && s[|p| + |d|..] == more
  {
    Slices(p, d, more);
    FirstInFront(p + d, more, |p|, d);
  }

  /** A first match is still the first when more follows. */
  lemma FirstInFront(a: seq<byte>, more: seq<byte>, k: nat, d: seq<byte>)
    requires FirstMatch(a, k, d) && |a| == k + |d|
    ensures Find(a + more, 0, d) == k
  {
    forall j | 0 <= j <= k
      ensures IsAt(a + more, j, d) <==> IsAt(a, j, d)
    {
      IsAtPrefix(a, more, j, d);
    }
    var r := Find(a + more, 0, d);
    assert r <= k;
    assert IsAt(a + more, r, d);
  }
}
