/** The micro-heap of src/mempager.c: what one call does to the pages, as functions on the list of the
  pages' `used` fields. Sizes are `size_t` and additions on them wrap, as in the source; `count` is an
  unsigned 32-bit integer.
 */
module Mempager {

  /** sizeof(struct _mempage) with 64-bit pointers. */
  const HEADER := 24
  const WORD := 0x1_0000_0000_0000_0000
  /** PTRDIFF_MAX: no single object, hence no page, is larger. */
  const MAX_OBJECT := 0x7fff_ffff_ffff_ffff
  const UNSIGNED := 0x1_0000_0000

  type Size = n: int | 0 <= n < WORD

  /** `used` by page from head to tail; `spare` pages wait on the free list. */
  datatype Pager = Pager(size: Size, limit: nat, count: nat, used: seq<Size>, spare: nat)

  /** The bytes `offset .. offset + length` of the page at position `page` of the list. */
  datatype Region = Region(page: nat, offset: nat, length: nat)

  datatype Option<T> = None | Some(value: T)

  function Plus(a: Size, b: Size): Size {
    (a + b) % WORD
  }

  function Created(size: Size, limit: nat): Pager {
    Pager(size, limit, 0, [], 0)
  }

  /** Why a page cannot be had: src/mempager.c:53-63. */
  predicate NoPage(p: Pager, mallocOk: bool) {
    p.spare == 0 && ((p.limit != 0 && p.count >= p.limit) || !mallocOk)
  }

  function Request(p: Pager, mallocOk: bool): Pager
    requires !NoPage(p, mallocOk)
  {
    var q := if p.spare > 0 then p.(spare := p.spare - 1) else p.(count := (p.count + 1) % UNSIGNED);
    q.(used := p.used + [HEADER])
  }

  /** The test of src/mempager.c:86 at page `i`. */
  predicate HasRoom(p: Pager, i: nat, n: Size)
    requires i < |p.used|
  {
    Plus(p.used[i], n) <= p.size
  }

  /** The first page from `i` on with room, or the number of pages. */
  function FirstFit(p: Pager, n: Size, i: nat): (k: nat)
    requires i <= |p.used|
    ensures i <= k <= |p.used|
    ensures k < |p.used| ==> HasRoom(p, k, n)
    ensures forall j :: i <= j < k ==> !HasRoom(p, j, n)
    decreases |p.used| - i
  {
    if i == |p.used| || HasRoom(p, i, n) then i else FirstFit(p, n, i + 1)
  }

  function Alloc(p: Pager, n: Size, mallocOk: bool): (Pager, Option<Region>) {
    if Plus(n, HEADER) > p.size then (p, None)
    else
      var k := FirstFit(p, n, 0);
      if k < |p.used| then
        (p.(used := p.used[k := Plus(p.used[k], n)]), Some(Region(k, p.used[k], n)))
      else if NoPage(p, mallocOk) then (p, None)
      else
        var q := Request(p, mallocOk);
        (q.(used := q.used[k := Plus(HEADER, n)]), Some(Region(k, HEADER, n)))
  }

  function Reset(p: Pager): Pager {
    p.(count := 0, used := [], spare := 0)
  }

  /** Every page's cursor is past its header and inside the page. */
  predicate Sound(p: Pager) {
    HEADER <= p.size <= MAX_OBJECT && forall i :: 0 <= i < |p.used| ==> HEADER <= p.used[i] <= p.size
  }

  predicate Inside(p: Pager, r: Region) {
    HEADER <= r.offset && r.offset + r.length <= p.size
  }

  /** A request whose size does not overflow when the header is added never gets bytes outside a page's
      payload; one that does overflow never gets anything else. */
  lemma AllocInsideIffNoOverflow(p: Pager, n: Size, mallocOk: bool)
    requires Sound(p)
    ensures var (q, r) := Alloc(p, n, mallocOk);
      r.Some? ==> (Inside(p, r.value) <==> n + HEADER < WORD)
    ensures n + HEADER < WORD ==> Sound(Alloc(p, n, mallocOk).0)
    ensures n + HEADER >= WORD && p.used != [] ==> Alloc(p, n, mallocOk).1.Some?
  {
    if n + HEADER >= WORD && p.used != [] {
      assert HasRoom(p, 0, n);
    }
  }

  /** NULL means too large, or no room anywhere and no further page to be had. */
  lemma NullReasons(p: Pager, n: Size, mallocOk: bool)
    requires Sound(p) && n + HEADER < WORD
    ensures Alloc(p, n, mallocOk).1.None? <==>
      || n + HEADER > p.size
      || (NoPage(p, mallocOk) && forall i :: 0 <= i < |p.used| ==> p.used[i] + n > p.size)
    ensures Alloc(p, n, mallocOk).1.None? ==> Alloc(p, n, mallocOk).0 == p
  {
    if n + HEADER <= p.size {
      var k := FirstFit(p, n, 0);
      assert forall i :: 0 <= i < |p.used| ==> (HasRoom(p, i, n) <==> p.used[i] + n <= p.size);
    }
  }

  // Sequences of calls. `live` holds every region returned since creation or the last reset.

  datatype Op = DoAlloc(n: Size, mallocOk: bool) | DoRequest(mallocOk: bool) | DoReset

  datatype World = World(p: Pager, live: seq<Region>)

  function Step(w: World, op: Op): World {
    match op
    case DoAlloc(n, ok) =>
      var (q, r) := Alloc(w.p, n, ok);
      World(q, if r.Some? then w.live + [r.value] else w.live)
    case DoRequest(ok) => if NoPage(w.p, ok) then w else w.(p := Request(w.p, ok))
    case DoReset => World(Reset(w.p), [])
  }

  function Run(w: World, ops: seq<Op>): World
    decreases |ops|
  {
    if ops == [] then w else Run(Step(w, ops[0]), ops[1..])
  }

  /** No requested size overflows when a header is added to it. */
  predicate NoOverflow(ops: seq<Op>) {
    forall i :: 0 <= i < |ops| && ops[i].DoAlloc? ==> ops[i].n + HEADER < WORD
  }

  predicate Disjoint(a: Region, b: Region) {
    a.page != b.page || a.offset + a.length <= b.offset || b.offset + b.length <= a.offset
  }

  /** The bytes handed out of page `i`. */
  function Given(live: seq<Region>, i: nat): nat {
    if live == [] then 0
    else Given(live[..|live| - 1], i) + (if live[|live| - 1].page == i then live[|live| - 1].length else 0)
  }

  ghost predicate WorldOk(w: World) {
    && Sound(w.p)
    && w.p.count == (|w.p.used| + w.p.spare) % UNSIGNED
    && (w.p.limit != 0 ==> |w.p.used| + w.p.spare <= w.p.limit)
    && w.p.limit < UNSIGNED
    && (forall k :: 0 <= k < |w.live| ==>
          && w.live[k].page < |w.p.used| && HEADER <= w.live[k].offset
          && w.live[k].offset + w.live[k].length <= w.p.used[w.live[k].page])
    && (forall j, k :: 0 <= j < k < |w.live| ==> Disjoint(w.live[j], w.live[k]))
    && (forall i :: 0 <= i < |w.p.used| ==> w.p.used[i] == HEADER + Given(w.live, i))
  }

  lemma GivenMore(live: seq<Region>, r: Region, i: nat)
    ensures Given(live + [r], i) == Given(live, i) + (if r.page == i then r.length else 0)
  {
    assert (live + [r])[..|live|] == live;
  }

  lemma {:induction false} GivenNothing(live: seq<Region>, i: nat)
    requires forall k :: 0 <= k < |live| ==> live[k].page != i
    ensures Given(live, i) == 0
  {
    if live != [] {
      GivenNothing(live[..|live| - 1], i);
    }
  }

  /** Without overflow an allocation fails, grows one page's cursor, or adds a page. */
  lemma AllocShape(p: Pager, n: Size, mallocOk: bool)
    requires Sound(p) && n + HEADER < WORD
    ensures var (q, r) := Alloc(p, n, mallocOk); var k := FirstFit(p, n, 0);
      && (r.None? ==> q == p)
      && (r.Some? && k < |p.used| ==>
            && p.used[k] + n <= p.size
            && q == p.(used := p.used[k := p.used[k] + n])
            && r.value == Region(k, p.used[k], n))
      && (r.Some? && k == |p.used| ==>
            && !NoPage(p, mallocOk) && n + HEADER <= p.size
            && (forall i :: 0 <= i < |p.used| ==> p.used[i] + n > p.size)
            && q == Request(p, mallocOk).(used := p.used + [HEADER + n])
            && r.value == Region(k, HEADER, n))
  {
    NoWrapInside(p, n);
    if Plus(n, HEADER) <= p.size && FirstFit(p, n, 0) == |p.used| && !NoPage(p, mallocOk) {
      assert (p.used + [HEADER])[|p.used| := HEADER + n] == p.used + [HEADER + n];
    }
  }

  /** A request that passes the first test makes no sum wrap. */
  lemma NoWrapInside(p: Pager, n: Size)
    requires Sound(p) && n + HEADER < WORD
    ensures n + HEADER <= p.size ==> var k := FirstFit(p, n, 0);
      && (k < |p.used| ==> Plus(p.used[k], n) == p.used[k] + n <= p.size)
      && (forall i :: 0 <= i < k ==> p.used[i] + n > p.size)
  {
    if n + HEADER <= p.size {
      var k := FirstFit(p, n, 0);
      assert k < |p.used| ==> HasRoom(p, k, n);
      forall i | 0 <= i < k
        ensures p.used[i] + n > p.size
      {
        assert !HasRoom(p, i, n);
      }
    }
  }

  lemma GrowKeepsWorld(w: World, k: nat, n: nat)
    requires WorldOk(w) && k < |w.p.used| && w.p.used[k] + n <= w.p.size
    ensures WorldOk(World(w.p.(used := w.p.used[k := w.p.used[k] + n]), w.live + [Region(k, w.p.used[k], n)]))
  {
    var r := Region(k, w.p.used[k], n);
    forall i | 0 <= i < |w.p.used|
      ensures Given(w.live + [r], i) == Given(w.live, i) + (if i == k then n else 0)
    {
      GivenMore(w.live, r, i);
    }
  }

  lemma AddKeepsWorld(w: World, p': Pager, n: nat)
    requires WorldOk(w) && HEADER + n <= w.p.size
    requires p' == w.p.(count := p'.count, spare := p'.spare, used := w.p.used + [HEADER + n])
    requires p'.count == (|p'.used| + p'.spare) % UNSIGNED && (p'.limit != 0 ==> |p'.used| + p'.spare <= p'.limit)
    ensures WorldOk(World(p', w.live + [Region(|w.p.used|, HEADER, n)]))
  {
    var r := Region(|w.p.used|, HEADER, n);
    forall i | 0 <= i <= |w.p.used|
      ensures p'.used[i] == HEADER + Given(w.live + [r], i)
    {
      GivenMore(w.live, r, i);
      if i == |w.p.used| {
        GivenNothing(w.live, i);
      }
    }
  }

  lemma AllocKeepsWorld(w: World, n: Size, mallocOk: bool)
    requires WorldOk(w) && n + HEADER < WORD
    ensures WorldOk(Step(w, DoAlloc(n, mallocOk)))
  {
    AllocStep(w, n, mallocOk);
    KeepsEither(w, Step(w, DoAlloc(n, mallocOk)), FirstFit(w.p, n, 0), n, mallocOk);
  }

  lemma KeepsEither(w: World, w': World, k: nat, n: Size, mallocOk: bool)
    requires WorldOk(w)
    requires
      || w' == w
      || (k < |w.p.used| && w.p.used[k] + n <= w.p.size
          && w' == World(w.p.(used := w.p.used[k := w.p.used[k] + n]), w.live + [Region(k, w.p.used[k], n)]))
      || (k == |w.p.used| && !NoPage(w.p, mallocOk) && n + HEADER <= w.p.size
          && w' == World(Request(w.p, mallocOk).(used := w.p.used + [HEADER + n]), w.live + [Region(k, HEADER, n)]))
    ensures WorldOk(w')
  {
    if w' != w {
      if k < |w.p.used| {
        GrowKeepsWorld(w, k, n);
      } else {
        AllocAdds(w, w'.p, n, mallocOk);
      }
    }
  }

  /** AllocShape, said of the world. */
  lemma AllocStep(w: World, n: Size, mallocOk: bool)
    requires Sound(w.p) && n + HEADER < WORD
    ensures var (q, r) := Alloc(w.p, n, mallocOk);
      var k := FirstFit(w.p, n, 0);
      var w' := Step(w, DoAlloc(n, mallocOk));
      && (r.None? ==> w' == w)
      && (r.Some? && k < |w.p.used| ==>
            && w.p.used[k] + n <= w.p.size
            && w' == World(w.p.(used := w.p.used[k := w.p.used[k] + n]), w.live + [Region(k, w.p.used[k], n)]))
      && (r.Some? && k == |w.p.used| ==>
            && !NoPage(w.p, mallocOk) && n + HEADER <= w.p.size
            && q == Request(w.p, mallocOk).(used := w.p.used + [HEADER + n])
            && w' == World(q, w.live + [Region(k, HEADER, n)]))
  {
    AllocShape(w.p, n, mallocOk);
  }

  lemma AllocAdds(w: World, q: Pager, n: Size, mallocOk: bool)
    requires WorldOk(w) && !NoPage(w.p, mallocOk) && n + HEADER <= w.p.size
    requires q == Request(w.p, mallocOk).(used := w.p.used + [HEADER + n])
    ensures WorldOk(World(q, w.live + [Region(|w.p.used|, HEADER, n)]))
  {
    RequestCounts(w, mallocOk);
    AddKeepsWorld(w, q, n);
  }

  lemma RequestCounts(w: World, mallocOk: bool)
    requires WorldOk(w) && !NoPage(w.p, mallocOk)
    ensures var q := Request(w.p, mallocOk);
      && q.count == (|q.used| + q.spare) % UNSIGNED
      && (q.limit != 0 ==> |q.used| + q.spare <= q.limit)
  {
  }

  lemma RequestKeepsWorld(w: World, mallocOk: bool)
    requires WorldOk(w)
    ensures WorldOk(Step(w, DoRequest(mallocOk)))
  {
    if !NoPage(w.p, mallocOk) {
      RequestCounts(w, mallocOk);
      GivenNothing(w.live, |w.p.used|);
      PageKeepsWorld(w, Request(w.p, mallocOk));
    }
  }

  lemma PageKeepsWorld(w: World, p': Pager)
    requires WorldOk(w) && p' == w.p.(count := p'.count, spare := p'.spare, used := w.p.used + [HEADER])
    requires p'.count == (|p'.used| + p'.spare) % UNSIGNED && (p'.limit != 0 ==> |p'.used| + p'.spare <= p'.limit)
    requires Given(w.live, |w.p.used|) == 0
    ensures WorldOk(w.(p := p'))
  {
  }

  lemma {:induction false} RunKeepsWorld(w: World, ops: seq<Op>)
    requires WorldOk(w) && NoOverflow(ops)
    ensures WorldOk(Run(w, ops))
    decreases |ops|
  {
    if ops != [] {
      match ops[0] {
        case DoAlloc(n, ok) => AllocKeepsWorld(w, n, ok);
        case DoRequest(ok) => RequestKeepsWorld(w, ok);
        case DoReset =>
      }
      RunKeepsWorld(Step(w, ops[0]), ops[1..]);
    }
  }

  /** Whatever the calls: all regions handed out since the last reset lie behind the header of a page of
      the list and inside it, no two overlap, and the pages in use never exceed a non-zero limit. */
  lemma RegionsDisjoint(size: Size, limit: nat, ops: seq<Op>)
    requires HEADER <= size <= MAX_OBJECT && limit < UNSIGNED && NoOverflow(ops)
    ensures var w := Run(World(Created(size, limit), []), ops);
      && (forall k :: 0 <= k < |w.live| ==> w.live[k].page < |w.p.used| && Inside(w.p, w.live[k]))
      && (forall j, k :: 0 <= j < k < |w.live| ==> Disjoint(w.live[j], w.live[k]))
      && (w.p.limit != 0 ==> w.p.count == |w.p.used| + w.p.spare <= w.p.limit)
  {
    RunKeepsWorld(World(Created(size, limit), []), ops);
  }

  lemma {:induction false} NoSpares(w: World, ops: seq<Op>)
    requires w.p.spare == 0
    ensures Run(w, ops).p.spare == 0 && Run(w, ops).p.size == w.p.size && Run(w, ops).p.limit == w.p.limit
    decreases |ops|
  {
    if ops != [] {
      NoSpares(Step(w, ops[0]), ops[1..]);
    }
  }

  /** The bytes that page `i` has given away leave room for `n` more. */
  predicate Fits(w: World, i: nat, n: Size) {
    HEADER + Given(w.live, i) + n <= w.p.size
  }

  /** Whatever the calls before, told from the regions handed out: a request is answered with NULL exactly when
      it is too large, or no page has room and there are as many pages as allowed or malloc fails. Otherwise
      it gets its bytes on the first page with room, behind all that page has given away, or behind the
      header of a new page. */
  lemma AllocAnswers(size: Size, limit: nat, ops: seq<Op>, n: Size, mallocOk: bool)
    requires HEADER <= size <= MAX_OBJECT && limit < UNSIGNED && NoOverflow(ops) && n + HEADER < WORD
    ensures var w := Run(World(Created(size, limit), []), ops);
      var pages, r := |w.p.used|, Alloc(w.p, n, mallocOk).1;
      && (r.None? <==>
            || n + HEADER > size
            || ((forall i :: 0 <= i < pages ==> !Fits(w, i, n)) && ((limit != 0 && pages >= limit) || !mallocOk)))
      && (r.Some? ==>
            && r.value.length == n && r.value.page <= pages
            && (forall i :: 0 <= i < r.value.page ==> !Fits(w, i, n))
            && (r.value.page < pages ==>
                  Fits(w, r.value.page, n) && r.value.offset == HEADER + Given(w.live, r.value.page))
            && (r.value.page == pages ==> r.value.offset == HEADER))
  {
    var w := Run(World(Created(size, limit), []), ops);
    RunKeepsWorld(World(Created(size, limit), []), ops);
    NoSpares(World(Created(size, limit), []), ops);
    NullAt(w, n, mallocOk);
    SomeAt(w, n, mallocOk);
  }

  lemma NullAt(w: World, n: Size, mallocOk: bool)
    requires WorldOk(w) && w.p.spare == 0 && n + HEADER < WORD
    ensures Alloc(w.p, n, mallocOk).1.None? <==>
      || n + HEADER > w.p.size
      || ((forall i :: 0 <= i < |w.p.used| ==> !Fits(w, i, n)) &&
          ((w.p.limit != 0 && |w.p.used| >= w.p.limit) || !mallocOk))
  {
    NullReasons(w.p, n, mallocOk);
    FitsIsRoom(w, n);
  }

  lemma SomeAt(w: World, n: Size, mallocOk: bool)
    requires WorldOk(w) && n + HEADER < WORD
    ensures var pages, r := |w.p.used|, Alloc(w.p, n, mallocOk).1;
      r.Some? ==>
        && r.value.length == n && r.value.page <= pages
        && (forall i :: 0 <= i < r.value.page ==> !Fits(w, i, n))
        && (r.value.page < pages ==>
              Fits(w, r.value.page, n) && r.value.offset == HEADER + Given(w.live, r.value.page))
        && (r.value.page == pages ==> r.value.offset == HEADER)
  {
    FitsIsRoom(w, n);
  }

  lemma FitsIsRoom(w: World, n: Size)
    requires WorldOk(w) && n + HEADER < WORD
    ensures forall i :: 0 <= i < |w.p.used| ==>
      w.p.used[i] == HEADER + Given(w.live, i) && (w.p.used[i] + n <= w.p.size <==> Fits(w, i, n))
    ensures n + HEADER <= w.p.size ==> forall i :: 0 <= i < |w.p.used| ==> (HasRoom(w.p, i, n) <==> Fits(w, i, n))
  {
  }

  // Packing

  function Load(p: Pager, i: nat): int
    requires i < |p.used|
  {
    p.used[i] - HEADER
  }

  function Capacity(p: Pager): int {
    p.size - HEADER
  }

  /** Any two pages together hold more than one page could. */
  ghost predicate Packed(p: Pager) {
    forall i, j :: 0 <= i < j < |p.used| ==> Load(p, i) + Load(p, j) > Capacity(p)
  }

  lemma AllocKeepsPacked(p: Pager, n: Size, mallocOk: bool)
    requires Sound(p) && Packed(p) && n + HEADER < WORD
    ensures Packed(Alloc(p, n, mallocOk).0)
  {
    AllocShape(p, n, mallocOk);
    var q := Alloc(p, n, mallocOk).0;
    var k := FirstFit(p, n, 0);
    if k < |p.used| {
      assert forall i :: 0 <= i < |q.used| ==> Load(q, i) >= Load(p, i);
    } else {
      forall i, j | 0 <= i < j < |q.used|
        ensures Load(q, i) + Load(q, j) > Capacity(q)
      {
        assert q.used[i] == p.used[i];
        if j == |p.used| {
          assert p.used[i] + n > p.size && q.used[j] == HEADER + n;
        } else {
          assert q.used[j] == p.used[j] && Load(p, i) + Load(p, j) > Capacity(p);
        }
      }
    }
  }

  /** Pages are made by pager_alloc alone. */
  predicate OnlyAllocs(ops: seq<Op>) {
    forall i :: 0 <= i < |ops| ==> !ops[i].DoRequest?
  }

  lemma {:induction false} RunKeepsPacked(w: World, ops: seq<Op>)
    requires WorldOk(w) && Packed(w.p) && NoOverflow(ops) && OnlyAllocs(ops)
    ensures WorldOk(Run(w, ops)) && Packed(Run(w, ops).p)
    decreases |ops|
  {
    if ops != [] {
      if ops[0].DoAlloc? {
        AllocKeepsWorld(w, ops[0].n, ops[0].mallocOk);
        AllocKeepsPacked(w.p, ops[0].n, ops[0].mallocOk);
      }
      RunKeepsPacked(Step(w, ops[0]), ops[1..]);
    }
  }

  /** The bytes handed out of the first `k` pages. */
  function Total(p: Pager, k: nat): int
    requires k <= |p.used|
  {
    if k == 0 then 0 else Total(p, k - 1) + Load(p, k - 1)
  }

  function Times(k: nat, c: int): int {
    if k == 0 then 0 else Times(k - 1, c) + c
  }

  lemma {:induction false} PairUp(p: Pager, k: nat)
    requires Packed(p) && 1 <= k <= |p.used|
    ensures 2 * Total(p, k) >= Load(p, 0) + Load(p, k - 1) + Times(k - 1, Capacity(p) + 1)
  {
    if k > 1 {
      PairUp(p, k - 1);
    } else {
      assert Total(p, 1) == Total(p, 0) + Load(p, 0);
    }
  }

  lemma {:induction false} TimesIsProduct(k: nat, c: int)
    ensures Times(k, c) == k * c
  {
    if k > 0 {
      TimesIsProduct(k - 1, c);
    }
  }

  /** The bytes in live regions. */
  function LiveBytes(live: seq<Region>): nat {
    if live == [] then 0 else LiveBytes(live[..|live| - 1]) + live[|live| - 1].length
  }

  /** The bytes of live regions in the first `k` pages. */
  function GivenUpTo(live: seq<Region>, k: nat): nat {
    if k == 0 then 0 else GivenUpTo(live, k - 1) + Given(live, k - 1)
  }

  lemma {:induction false} GivenUpToMore(live: seq<Region>, k: nat)
    requires live != []
    ensures var r := live[|live| - 1];
      GivenUpTo(live, k) == GivenUpTo(live[..|live| - 1], k) + (if r.page < k then r.length else 0)
  {
    if k > 0 {
      GivenUpToMore(live, k - 1);
    }
  }

  lemma {:induction false} GivenUpToNone(k: nat)
    ensures GivenUpTo([], k) == 0
  {
    if k > 0 {
      GivenUpToNone(k - 1);
    }
  }

  lemma {:induction false} LiveIsGiven(live: seq<Region>, k: nat)
    requires forall i :: 0 <= i < |live| ==> live[i].page < k
    ensures LiveBytes(live) == GivenUpTo(live, k)
  {
    if live == [] {
      GivenUpToNone(k);
    } else {
      LiveIsGiven(live[..|live| - 1], k);
      GivenUpToMore(live, k);
    }
  }

  lemma {:induction false} TotalIsGiven(w: World, k: nat)
    requires WorldOk(w) && k <= |w.p.used|
    ensures Total(w.p, k) == GivenUpTo(w.live, k)
  {
    if k > 0 {
      TotalIsGiven(w, k - 1);
    }
  }

  /** First fit packs: with pages made by pager_alloc only, any two pages hold more than one could, so
      from two pages on, more than half of all payload bytes are handed out. */
  lemma FirstFitPacks(size: Size, limit: nat, ops: seq<Op>)
    requires HEADER <= size <= MAX_OBJECT && limit < UNSIGNED && NoOverflow(ops) && OnlyAllocs(ops)
    ensures var w := Run(World(Created(size, limit), []), ops);
      && Packed(w.p)
      && (|w.p.used| >= 2 ==> 2 * LiveBytes(w.live) > |w.p.used| * Capacity(w.p))
  {
    RunKeepsPacked(World(Created(size, limit), []), ops);
    var w := Run(World(Created(size, limit), []), ops);
    if |w.p.used| >= 2 {
      PackedHolds(w);
    }
  }

  lemma PackedHolds(w: World)
    requires WorldOk(w) && Packed(w.p) && |w.p.used| >= 2
    ensures 2 * LiveBytes(w.live) > |w.p.used| * Capacity(w.p)
  {
    var k := |w.p.used|;
    TotalIsGiven(w, k);
    LiveIsGiven(w.live, k);
    PairUp(w.p, k);
    assert Load(w.p, 0) + Load(w.p, k - 1) >= Capacity(w.p) + 1;
    MoreThanHalf(LiveBytes(w.live), k, Capacity(w.p));
  }

  lemma MoreThanHalf(bytes: nat, k: nat, c: int)
    requires k > 0 && 2 * bytes >= Times(k - 1, c + 1) + (c + 1)
    ensures 2 * bytes > k * c
  {
    TimesIsProduct(k, c + 1);
    Distribute(k, c);
  }

  lemma Distribute(k: nat, c: int)
    ensures k * (c + 1) == k * c + k
  {
  }
}
