/** The circular store of a pipeline: `head`, `tail`, `count` and `buf[]`, indices taken modulo `size`.

  The functions below are the four ways the critical sections of src/pipeline.c touch the store; the
  class `Store` is the same store updated in place. The lemmas say what each does to the items held,
  read off in order from `head`.
 */
module RingStore {
  import opened Sequences

  /** A `void *` put into the pipeline; NULL may be put like any other pointer. */
  type Item = nat
  const NULL: Item := 0

  datatype Ring = Ring(size: nat, head: nat, tail: nat, count: nat, buf: seq<Item>)

  /** An index taken modulo the ring's size. */
  function Slot(x: nat, n: nat): (k: nat)
    requires n > 0
    ensures k < n
  {
    x % n
  }

  predicate Ok(r: Ring) {
    && r.size > 0
    && |r.buf| == r.size
    && r.head < r.size
    && r.count <= r.size
    && r.tail == Slot(r.head + r.count, r.size)
  }

  /** The items held, oldest first. */
  function Contents(r: Ring): (items: seq<Item>)
    requires Ok(r)
    ensures |items| == r.count
  {
    seq(r.count, i requires 0 <= i < r.count => r.buf[Slot(r.head + i, r.size)])
  }

  function Empty(size: nat): Ring {
    Ring(size, 0, 0, 0, seq(size, _ => NULL))
  }

  /** src/pipeline.c:79-81 */
  function Push(r: Ring, x: Item): Ring
    requires Ok(r) && r.count < r.size
  {
    TailInRange(r);
    r.(buf := r.buf[r.tail := x], tail := Slot(r.tail + 1, r.size), count := r.count + 1)
  }

  /** src/pipeline.c:55-58: the slot is cleared behind the item taken. */
  function Pop(r: Ring): Ring
    requires Ok(r) && r.count > 0
  {
    r.(buf := r.buf[r.head := NULL], head := Slot(r.head + 1, r.size), count := r.count - 1)
  }

  /** src/pipeline.c:44-45 and 92-93: the slot keeps its stale pointer. */
  function Discard(r: Ring): Ring
    requires Ok(r) && r.count > 0
  {
    r.(head := Slot(r.head + 1, r.size), count := r.count - 1)
  }

  lemma ModWrap(x: nat, n: nat)
    requires 0 < n && x < 2 * n
    ensures Slot(x, n) == if x < n then x else x - n
  {
    if x >= n {
      assert x == n + (x - n);
    }
  }

  lemma TailInRange(r: Ring)
    requires Ok(r)
    ensures r.tail < r.size
    ensures r.tail == if r.head + r.count < r.size then r.head + r.count else r.head + r.count - r.size
  {
    ModWrap(r.head + r.count, r.size);
  }

  lemma SlotAt(r: Ring, i: nat)
    requires Ok(r) && i < r.count
    ensures Contents(r)[i] == r.buf[if r.head + i < r.size then r.head + i else r.head + i - r.size]
  {
    ModWrap(r.head + i, r.size);
  }

  lemma EmptyHoldsNothing(size: nat)
    requires size > 0
    ensures Ok(Empty(size)) && Contents(Empty(size)) == []
  {
  }

  lemma PushAppends(r: Ring, x: Item)
    requires Ok(r) && r.count < r.size
    ensures Ok(Push(r, x))
    ensures Contents(Push(r, x)) == Contents(r) + [x]
  {
    var r' := Push(r, x);
    TailInRange(r);
    ModWrap(r.tail + 1, r.size);
    ModWrap(r'.head + r'.count, r.size);
    forall i: nat | i < r'.count
      ensures Contents(r')[i] == (Contents(r) + [x])[i]
    {
      SlotAt(r', i);
      if i < r.count {
        SlotAt(r, i);
      }
    }
  }

  /** Taking the head and discarding it agree on what remains: everything but the oldest item. */
  lemma PopTakesOldest(r: Ring)
    requires Ok(r) && r.count > 0
    ensures Ok(Pop(r)) && Contents(r) == [r.buf[r.head]] + Contents(Pop(r))
    ensures Ok(Discard(r)) && Contents(r) == [r.buf[r.head]] + Contents(Discard(r))
  {
    AdvanceHead(r, Pop(r));
    AdvanceHead(r, Discard(r));
  }

  lemma AdvanceHead(r: Ring, r': Ring)
    requires Ok(r) && r.count > 0
    requires |r'.buf| == r.size && r' == r.(buf := r'.buf, head := Slot(r.head + 1, r.size), count := r.count - 1)
    requires forall k :: 0 <= k < r.size && k != r.head ==> r'.buf[k] == r.buf[k]
    ensures Ok(r') && Contents(r) == [r.buf[r.head]] + Contents(r')
  {
    TailInRange(r);
    ModWrap(r.head + 1, r.size);
    ModWrap(r'.head + r'.count, r.size);
    forall i: nat | i < r.count
      ensures Contents(r)[i] == ([r.buf[r.head]] + Contents(r'))[i]
    {
      SlotAt(r, i);
      if i > 0 {
        SlotAt(r', i - 1);
      }
    }
  }

  /** The store of a `pipeline_t`, changed in place by whoever holds the lock. */
  class Store {
    const size: nat
    var head: nat
    var tail: nat
    var count: nat
    const buf: array<Item>

    ghost predicate Valid()
      reads this, buf
    {
      Ok(View())
    }

    ghost function View(): Ring
      reads this, buf
    {
      Ring(size, head, tail, count, buf[..])
    }

    /** src/pipeline.c:8-23; a size of 0 is accepted, and gives a ring that every put and take would
        divide by zero on. */
    constructor (n: nat)
      ensures fresh(buf) && View() == Empty(n)
      ensures Valid() <==> n > 0
    {
      size, head, tail, count := n, 0, 0, 0;
      buf := new Item[n](_ => NULL);
      new;
      assert buf[..] == seq(n, _ => NULL);
    }

    /** src/pipeline.c:78-84 under the lock; `edge` is when the consumers are signalled. */
    method Put(x: Item) returns (edge: bool)
      requires Valid() && count < size
      modifies this, buf
      ensures Valid() && View() == Push(old(View()), x)
      ensures Contents(View()) == old(Contents(View())) + [x]
      ensures edge <==> old(Contents(View())) == []
    {
      PushAppends(View(), x);
      TailInRange(View());
      buf[tail] := x;
      tail := Slot(tail + 1, size);
      edge := count == 0;
      count := count + 1;
    }

    /** src/pipeline.c:54-61 under the lock; `edge` is when the producers are signalled. */
    method Get() returns (out: Item, edge: bool)
      requires Valid() && count > 0
      modifies this, buf
      ensures Valid() && View() == Pop(old(View()))
      ensures old(Contents(View())) == [out] + Contents(View())
      ensures edge <==> |old(Contents(View()))| == size
    {
      PopTakesOldest(View());
      out := buf[head];
      buf[head] := NULL;
      head := Slot(head + 1, size);
      edge := count == size;
      count := count - 1;
    }

    /** src/pipeline.c:44-45 and 92-93 */
    method Skip()
      requires Valid() && count > 0
      modifies this
      ensures Valid() && View() == Discard(old(View()))
      ensures Contents(View()) == old(Contents(View()))[1..]
    {
      PopTakesOldest(View());
      head := Slot(head + 1, size);
      count := count - 1;
    }

    /** src/pipeline.c:41-46: every item held is handed to `free` once, oldest first, NULLs excepted. */
    method Drain() returns (freed: seq<Item>)
      requires Valid()
      modifies this
      ensures Valid() && count == 0 && buf[..] == old(buf[..])
      ensures freed == NonNull(old(Contents(View())))
    {
      freed := [];
      while count > 0
        invariant Valid() && buf[..] == old(buf[..])
        invariant freed + NonNull(Contents(View())) == NonNull(old(Contents(View())))
      {
        ghost var was := freed;
        var out := buf[head];
        NonNullFirst(View());
        Associative(freed, NonNullOf(out), NonNull(Contents(Discard(View()))));
        if out != NULL {
          freed := freed + [out];
        }
        assert freed == was + NonNullOf(out);
        Skip();
      }
      assert Contents(View()) == [];
    }
  }

  function NonNullOf(x: Item): seq<Item> {
    if x != NULL then [x] else []
  }

  function NonNull(items: seq<Item>): seq<Item> {
    if items == [] then [] else NonNullOf(items[0]) + NonNull(items[1..])
  }

  lemma NonNullFirst(r: Ring)
    requires Ok(r) && r.count > 0
    ensures Ok(Discard(r)) && NonNull(Contents(r)) == NonNullOf(r.buf[r.head]) + NonNull(Contents(Discard(r)))
  {
    PopTakesOldest(r);
    assert Contents(r)[1..] == Contents(Discard(r));
  }
}
