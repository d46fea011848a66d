/** The packed bit sets of src/bitset.c: bytes that stand for a set of natural numbers. */
module Bitset {

  /** src/bitset.h:34-38 */
  function BitSize(bits: nat): (size: nat)
    ensures 8 * size >= bits > 8 * size - 8
  {
    bits / 8 + if bits % 8 != 0 then 1 else 0
  }

  /** src/bitset.c:6-8: a one shifted left by `bits` modulo 8. */
  function ByteMask(bits: nat): bv8 {
    match bits % 8
    case 0 => 1
    case 1 => 2
    case 2 => 4
    case 3 => 8
    case 4 => 16
    case 5 => 32
    case 6 => 64
    case _ => 128
  }

  predicate Bit(b: bv8, k: nat) {
    b & ByteMask(k) != 0
  }

  function One(b: bv8, k: nat): nat {
    if Bit(b, k) then 1 else 0
  }

  /** How many of a byte's bits are set. */
  function Ones(b: bv8): nat {
    One(b, 0) + One(b, 1) + One(b, 2) + One(b, 3) + One(b, 4) + One(b, 5) + One(b, 6) + One(b, 7)
  }

  predicate At(s: seq<bv8>, i: nat)
    requires i < 8 * |s|
  {
    Bit(s[i / 8], i)
  }

  /** The set that packed bytes stand for. */
  function Members(s: seq<bv8>): set<nat> {
    set i: nat | i < 8 * |s| && At(s, i)
  }

  /** Bytes that hold a set of numbers below `n`: no bit is set in the padding. */
  ghost predicate Packs(s: seq<bv8>, n: nat) {
    |s| == BitSize(n) && forall i :: i in Members(s) ==> i < n
  }

  // Bytes

  /** n & (n - 1) clears exactly the lowest bit set. */
  lemma LowestBit(b: bv8) returns (k: nat)
    requires b != 0
    ensures k < 8 && Bit(b, k) && b & (b - 1) == b & !ByteMask(k)
    ensures forall j: nat :: j < k ==> !Bit(b, j)
  {
    k := if b & 1 != 0 then 0 else if b & 2 != 0 then 1 else if b & 4 != 0 then 2 else if b & 8 != 0 then 3
    else if b & 16 != 0 then 4 else if b & 32 != 0 then 5 else if b & 64 != 0 then 6 else 7;
  }

  lemma ClearLowest(b: bv8)
    requires b != 0
    ensures Ones(b & (b - 1)) == Ones(b) - 1
  {
    var k := LowestBit(b);
    var c := b & !ByteMask(k);
    OneCleared(b, k, 0);
    OneCleared(b, k, 1);
    OneCleared(b, k, 2);
    OneCleared(b, k, 3);
    OneCleared(b, k, 4);
    OneCleared(b, k, 5);
    OneCleared(b, k, 6);
    OneCleared(b, k, 7);
  }

  lemma OneCleared(b: bv8, k: nat, j: nat)
    requires k < 8 && j < 8
    ensures One(b & !ByteMask(k), j) == if j == k then 0 else One(b, j)
  {
    BitsOfMask(b, k, j);
  }

  lemma NoOnes(b: bv8)
    ensures b == 0 <==> Ones(b) == 0
    ensures b == 0xFF <==> Ones(b) == 8
  {
  }

  /** src/bitset.c:10-17 */
  method CountBits(b: bv8) returns (count: nat)
    ensures count == Ones(b)
  {
    var n := b;
    count := 0;
    NoOnes(b);
    while n > 0
      invariant count + Ones(n) == Ones(b)
      decreases Ones(n)
    {
      ClearLowest(n);
      n := n & (n - 1);
      count := count + 1;
    }
  }

  lemma BitsOfAnd(a: bv8, b: bv8, k: nat)
    ensures Bit(a & b, k) <==> Bit(a, k) && Bit(b, k)
    ensures Bit(a & !b, k) <==> Bit(a, k) && !Bit(b, k)
  {
  }

  lemma BitsOfMask(a: bv8, k: nat, j: nat)
    ensures Bit(a | ByteMask(k), j) <==> Bit(a, j) || j % 8 == k % 8
    ensures Bit(a & !ByteMask(k), j) <==> Bit(a, j) && j % 8 != k % 8
  {
  }

  // Counting

  /** How many of the first `m` bits are set. */
  function Count(s: seq<bv8>, m: nat): nat
    requires m <= 8 * |s|
  {
    if m == 0 then 0 else Count(s, m - 1) + if At(s, m - 1) then 1 else 0
  }

  function Below(s: seq<bv8>, m: nat): set<nat>
    requires m <= 8 * |s|
  {
    set i: nat | i < m && At(s, i)
  }

  lemma {:induction false} CountIsCardinality(s: seq<bv8>, m: nat)
    requires m <= 8 * |s|
    ensures |Below(s, m)| == Count(s, m)
  {
    if m == 0 {
      assert Below(s, 0) == {};
    } else {
      CountIsCardinality(s, m - 1);
      assert Below(s, m) == if At(s, m - 1) then Below(s, m - 1) + {m - 1} else Below(s, m - 1);
    }
  }

  lemma CountByte(s: seq<bv8>, i: nat)
    requires i < |s|
    ensures Count(s, 8 * i + 8) == Count(s, 8 * i) + Ones(s[i])
  {
    CountFrom(s, i, 8);
    OnesUpToAll(s[i]);
  }

  function OnesUpTo(b: bv8, k: nat): nat {
    if k == 0 then 0 else OnesUpTo(b, k - 1) + One(b, k - 1)
  }

  lemma OnesUpToAll(b: bv8)
    ensures OnesUpTo(b, 8) == Ones(b)
  {
    assert OnesUpTo(b, 1) == One(b, 0);
    assert OnesUpTo(b, 3) == OnesUpTo(b, 1) + One(b, 1) + One(b, 2);
    assert OnesUpTo(b, 5) == OnesUpTo(b, 3) + One(b, 3) + One(b, 4);
    assert OnesUpTo(b, 7) == OnesUpTo(b, 5) + One(b, 5) + One(b, 6);
  }

  lemma {:induction false} CountFrom(s: seq<bv8>, i: nat, k: nat)
    requires i < |s| && k <= 8
    ensures Count(s, 8 * i + k) == Count(s, 8 * i) + OnesUpTo(s[i], k)
  {
    if k > 0 {
      CountFrom(s, i, k - 1);
      AtByte(s, i, k - 1);
      CountNext(s, 8 * i + (k - 1));
    }
  }

  lemma CountNext(s: seq<bv8>, m: nat)
    requires m < 8 * |s|
    ensures Count(s, m + 1) == Count(s, m) + if At(s, m) then 1 else 0
  {
  }

  lemma Position(i: nat, k: nat)
    requires k < 8
    ensures (8 * i + k) / 8 == i && (8 * i + k) % 8 == k
  {
  }

  /** Every number below 8 * |s| is a bit of a byte. */
  lemma AtByte(s: seq<bv8>, i: nat, k: nat)
    requires i < |s| && k < 8
    ensures At(s, 8 * i + k) <==> Bit(s[i], k)
  {
    Position(i, k);
  }

  lemma MembersCount(s: seq<bv8>)
    ensures |Members(s)| == Count(s, 8 * |s|)
  {
    CountIsCardinality(s, 8 * |s|);
    assert Members(s) == Below(s, 8 * |s|);
  }

  // The calls

  /** src/bitset.c:19-25 */
  method MakeBits(n: nat) returns (bits: array<bv8>)
    ensures fresh(bits) && Packs(bits[..], n) && Members(bits[..]) == {}
  {
    bits := new bv8[BitSize(n)](_ => 0);
  }

  /** src/bitset.c:62-67 */
  method Set(bits: array<bv8>, offset: nat, ghost n: nat)
    requires Packs(bits[..], n) && offset < n
    modifies bits
    ensures Packs(bits[..], n)
    ensures Members(bits[..]) == old(Members(bits[..])) + {offset}
  {
    ghost var was := bits[..];
    bits[offset / 8] := bits[offset / 8] | ByteMask(offset);
    forall i: nat | i < 8 * bits.Length
      ensures At(bits[..], i) <==> At(was, i) || i == offset
    {
      BitsOfMask(was[offset / 8], offset, i);
    }
    assert Members(bits[..]) == Members(was) + {offset};
  }

  /** src/bitset.c:69-74 */
  method Clear(bits: array<bv8>, offset: nat, ghost n: nat)
    requires Packs(bits[..], n) && offset < n
    modifies bits
    ensures Packs(bits[..], n)
    ensures Members(bits[..]) == old(Members(bits[..])) - {offset}
  {
    ghost var was := bits[..];
    bits[offset / 8] := bits[offset / 8] & !ByteMask(offset);
    forall i: nat | i < 8 * bits.Length
      ensures At(bits[..], i) <==> At(was, i) && i != offset
    {
      BitsOfMask(was[offset / 8], offset, i);
    }
    assert Members(bits[..]) == Members(was) - {offset};
  }

  /** src/bitset.c:55-60 */
  method Get(bits: array<bv8>, offset: nat) returns (isSet: bool)
    requires offset < 8 * bits.Length
    ensures isSet <==> offset in Members(bits[..])
  {
    isSet := bits[offset / 8] & ByteMask(offset) != 0;
  }

  /** src/bitset.c:27-36; no mask is made of no bits. */
  method MakeMask(bits: array<bv8>, mask: array<bv8>, n: nat) returns (out: array?<bv8>)
    requires Packs(bits[..], n) && mask.Length == BitSize(n)
    ensures out == null <==> n == 0
    ensures out != null ==> fresh(out) && Packs(out[..], n) && Members(out[..]) == Members(bits[..]) * Members(mask[..])
  {
    if n == 0 {
      return null;
    }
    var made := MakeBits(n);
    for pos := 0 to made.Length
      invariant fresh(made) && made.Length == bits.Length
      invariant forall i :: 0 <= i < pos ==> made[i] == bits[i] & mask[i]
    {
      made[pos] := bits[pos] & mask[pos];
    }
    AndIsIntersection(bits[..], mask[..], made[..]);
    out := made;
  }

  lemma AndIsIntersection(a: seq<bv8>, b: seq<bv8>, c: seq<bv8>)
    requires |a| == |b| == |c| && forall i :: 0 <= i < |a| ==> c[i] == a[i] & b[i]
    ensures Members(c) == Members(a) * Members(b)
  {
    forall i: nat | i < 8 * |a|
      ensures At(c, i) <==> At(a, i) && At(b, i)
    {
      BitsOfAnd(a[i / 8], b[i / 8], i);
    }
  }

  lemma AndNotIsDifference(a: seq<bv8>, b: seq<bv8>, c: seq<bv8>)
    requires |a| == |b| == |c| && forall i :: 0 <= i < |a| ==> c[i] == a[i] & !b[i]
    ensures Members(c) == Members(a) - Members(b)
  {
    forall i: nat | i < 8 * |a|
      ensures At(c, i) <==> At(a, i) && !At(b, i)
    {
      BitsOfAnd(a[i / 8], b[i / 8], i);
    }
  }

  /** src/bitset.c:38-49; the mask is freed at the end. */
  method FoldMask(bits: array<bv8>, mask: array<bv8>, n: nat)
    requires Packs(bits[..], n) && mask.Length == BitSize(n)
    modifies bits
    ensures Packs(bits[..], n)
    ensures Members(bits[..]) == old(Members(bits[..])) - old(Members(mask[..]))
  {
    ghost var was, m := bits[..], mask[..];
    if n == 0 {
      return;
    }
    for pos := 0 to bits.Length
      invariant forall i :: 0 <= i < pos ==> bits[i] == was[i] & !m[i]
      invariant forall i :: pos <= i < bits.Length ==> bits[i] == was[i] && mask[i] == m[i]
    {
      bits[pos] := bits[pos] & !mask[pos];
    }
    AndNotIsDifference(was, m, bits[..]);
  }

  /** src/bitset.c:85-93 */
  method BitCount(bits: array<bv8>, n: nat) returns (total: nat)
    requires Packs(bits[..], n)
    ensures total == |Members(bits[..])|
  {
    MembersCount(bits[..]);
    if n == 0 {
      return 0;
    }
    total := 0;
    for i := 0 to bits.Length
      invariant total == Count(bits[..], 8 * i)
    {
      CountByte(bits[..], i);
      var ones := CountBits(bits[i]);
      total := total + ones;
    }
  }

  /** All the numbers below `n`. */
  function Numbers(n: nat): (r: set<nat>)
    ensures |r| == n && forall i: nat :: i in r <==> i < n
  {
    if n == 0 then {} else Numbers(n - 1) + {n - 1}
  }

  /** src/bitset.h:30-32 */
  method AllBits(bits: array<bv8>, n: nat) returns (all: bool)
    requires Packs(bits[..], n)
    ensures all <==> Members(bits[..]) == Numbers(n)
  {
    var count := BitCount(bits, n);
    all := count == n;
    if all {
      SameSizeSubset(Members(bits[..]), Numbers(n));
    }
  }

  lemma SameSizeSubset(a: set<nat>, b: set<nat>)
    requires a <= b && |a| == |b|
    ensures a == b
  {
    assert b == a + (b - a);
  }

  /** src/bitset.c:76-83 */
  method AnyBits(bits: array<bv8>, n: nat) returns (any: bool)
    requires Packs(bits[..], n)
    ensures any <==> Members(bits[..]) != {}
  {
    var p := 0;
    while p < bits.Length
      invariant p <= bits.Length
      invariant forall i :: 0 <= i < p ==> bits[i] == 0
    {
      if bits[p] != 0 {
        ghost var k := LowestBit(bits[p]);
        AtByte(bits[..], p, k);
        assert 8 * p + k in Members(bits[..]);
        return true;
      }
      p := p + 1;
    }
    any := false;
    forall i: nat | i < 8 * bits.Length
      ensures !At(bits[..], i)
    {
    }
  }

  /** __builtin_ffs less one, on a byte that is not zero. */
  method LowestOf(b: bv8) returns (k: nat)
    requires b != 0
    ensures k < 8 && Bit(b, k) && forall j: nat :: j < k ==> !Bit(b, j)
  {
    ghost var least := LowestBit(b);
    k := 0;
    while !Bit(b, k)
      invariant k <= least
      invariant forall j: nat :: j < k ==> !Bit(b, j)
      decreases least - k
    {
      k := k + 1;
    }
  }

  /** The least number below `n` with the wanted property, or `n`. */
  ghost predicate IsLeast(r: nat, n: nat, wanted: nat -> bool) {
    r <= n && (r < n ==> wanted(r)) && forall i: nat :: i < r ==> !wanted(i)
  }

  /** src/bitset.c:112-127 */
  method LowestSet(bits: array<bv8>, n: nat) returns (pos: nat)
    requires Packs(bits[..], n)
    ensures IsLeast(pos, n, i => i in Members(old(bits[..])))
  {
    ghost var s := bits[..];
    for i := 0 to bits.Length
      invariant forall j: nat :: j < 8 * i ==> j !in Members(s)
    {
      if bits[i] != 0 {
        var bit := LowestOf(bits[i]);
        pos := i * 8 + bit;
        AtByte(s, i, bit);
        assert pos in Members(s);
        forall j: nat | j < pos
          ensures j !in Members(s)
        {
          if j >= 8 * i {
            AtByte(s, i, j - 8 * i);
          }
        }
        return;
      }
      forall j: nat | 8 * i <= j < 8 * i + 8
        ensures j !in Members(s)
      {
        AtByte(s, i, j - 8 * i);
      }
    }
    pos := n;
  }

  /** src/bitset.c:95-110; the padding stops the search. */
  method LowestClear(bits: array<bv8>, n: nat) returns (pos: nat)
    requires Packs(bits[..], n)
    ensures IsLeast(pos, n, i => i !in Members(old(bits[..])))
  {
    ghost var s := bits[..];
    for i := 0 to bits.Length
      invariant forall j: nat :: j < 8 * i ==> j in Members(s)
    {
      if bits[i] != 0xFF {
        var bit := LowestOf(!bits[i]);
        pos := i * 8 + bit;
        forall j: nat | 8 * i <= j <= pos
          ensures j in Members(s) <==> j < pos
        {
          AtByte(s, i, j - 8 * i);
          BitsOfNot(bits[i], j - 8 * i);
        }
        if pos >= n {
          pos := n;
        }
        return;
      }
      forall j: nat | 8 * i <= j < 8 * i + 8
        ensures j in Members(s)
      {
        AtByte(s, i, j - 8 * i);
      }
    }
    pos := n;
  }

  lemma BitsOfNot(b: bv8, k: nat)
    ensures Bit(!b, k) <==> !Bit(b, k)
  {
  }

  /** What a mask takes out and what folding it leaves add up: no bit is lost or doubled. */
  lemma MaskConserves(bits: seq<bv8>, mask: seq<bv8>, taken: seq<bv8>, left: seq<bv8>)
    requires |bits| == |mask| == |taken| == |left|
    requires forall i :: 0 <= i < |bits| ==> taken[i] == bits[i] & mask[i] && left[i] == bits[i] & !mask[i]
    ensures Members(taken) !! Members(left) && Members(taken) + Members(left) == Members(bits)
    ensures Count(taken, 8 * |taken|) + Count(left, 8 * |left|) == Count(bits, 8 * |bits|)
  {
    AndIsIntersection(bits, mask, taken);
    AndNotIsDifference(bits, mask, left);
    MembersCount(taken);
    MembersCount(left);
    MembersCount(bits);
  }
}
