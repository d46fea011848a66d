/** The pages of src/mempager.c as they are: a doubly linked list between `head` and `tail`, a singly
  linked free list, and the calls that walk and change them. Each call is tied to the function of
  module Mempager on the `used` fields read from head to tail.
 */
module PageList {
  import opened Mempager

  class Page {
    var next: Page?
    var prev: Page?
    var used: Size

    /** Where the page stands: its position in the list, or minus its position from the end of the free list. */
    ghost var place: int

    constructor ()
    {
      next, prev, used := null, null, 0;
    }

    /** src/mempager.c:70-72 */
    method Start(last: Page?, ghost position: nat)
      modifies this
      ensures prev == last && next == null && used == HEADER && place == position
    {
      prev := last;
      next := null;
      used := HEADER;
      place := position;
    }
  }

  function After(chain: seq<Page>, i: nat): Page? {
    if i + 1 < |chain| then chain[i + 1] else null
  }

  function Before(chain: seq<Page>, i: nat): Page? {
    if 0 < i <= |chain| then chain[i - 1] else null
  }

  lemma NextExtended(chain: seq<Page>, page: Page)
    requires page.next == null
    requires forall i {:trigger chain[i].next} :: 0 <= i < |chain| ==> chain[i].next == After(chain + [page], i)
    ensures var longer := chain + [page];
      forall i {:trigger longer[i].next} :: 0 <= i < |longer| ==> longer[i].next == After(longer, i)
  {
  }

  lemma PrevExtended(chain: seq<Page>, page: Page)
    requires page.prev == Before(chain, |chain|)
    requires forall i {:trigger chain[i].prev} :: 0 <= i < |chain| ==> chain[i].prev == Before(chain, i)
    ensures var longer := chain + [page];
      forall i {:trigger longer[i].prev} :: 0 <= i < |longer| ==> longer[i].prev == Before(longer, i)
  {
    var longer := chain + [page];
    assert forall i :: 0 <= i <= |chain| ==> Before(longer, i) == Before(chain, i);
  }

  lemma PlaceExtended(chain: seq<Page>, page: Page)
    requires page.place == |chain| && forall i {:trigger chain[i].place} :: 0 <= i < |chain| ==> chain[i].place == i
    ensures var longer := chain + [page];
      forall i {:trigger longer[i].place} :: 0 <= i < |longer| ==> longer[i].place == i
  {
  }

  /** What is left of the free list when its first page is taken. */
  lemma SparesLeft(chain: seq<Page>)
    requires chain != []
    requires forall i {:trigger chain[i].next} :: 0 <= i < |chain| ==> chain[i].next == After(chain, i)
    requires forall i {:trigger chain[i].place} :: 0 <= i < |chain| ==> chain[i].place == i - |chain|
    ensures var rest := chain[1..];
      && chain[0].next == (if rest == [] then null else rest[0])
      && (forall i {:trigger rest[i].next} :: 0 <= i < |rest| ==> rest[i].next == After(rest, i))
      && (forall i {:trigger rest[i].place} :: 0 <= i < |rest| ==> rest[i].place == i - |rest|)
      && chain[0] !in rest
  {
    var rest := chain[1..];
    assert forall i :: 0 <= i < |rest| ==> rest[i] == chain[i + 1] && After(rest, i) == After(chain, i + 1);
    assert forall i :: 0 <= i < |rest| ==> rest[i].place != chain[0].place;
  }

  class PageHeap {
    const size: Size
    const limit: nat
    var head: Page?
    var tail: Page?
    var free: Page?
    var count: nat
    ghost var pages: seq<Page>
    ghost var spares: seq<Page>

    ghost predicate Chained()
      reads this, pages, spares
    {
      && (forall i {:trigger pages[i].next} :: 0 <= i < |pages| ==> pages[i].next == After(pages, i))
      && (forall i {:trigger pages[i].prev} :: 0 <= i < |pages| ==> pages[i].prev == Before(pages, i))
      && (forall i {:trigger spares[i].next} :: 0 <= i < |spares| ==> spares[i].next == After(spares, i))
    }

    /** `head`, `tail` and `free` are the ends of two chains that share no page and repeat none. */
    ghost predicate Valid()
      reads this, pages, spares
    {
      && Chained()
      && head == (if pages == [] then null else pages[0])
      && tail == (if pages == [] then null else pages[|pages| - 1])
      && free == (if spares == [] then null else spares[0])
      && (forall i {:trigger pages[i].place} :: 0 <= i < |pages| ==> pages[i].place == i)
      && (forall i {:trigger spares[i].place} :: 0 <= i < |spares| ==> spares[i].place == i - |spares|)
    }

    ghost function View(): Pager
      reads this, pages
    {
      Pager(size, limit, count, seq(|pages|, i requires 0 <= i < |pages| reads this, pages => pages[i].used), |spares|)
    }

    /** src/mempager.c:6-16 of pager_create */
    constructor (pagesize: Size, max: nat)
      ensures Valid() && View() == Created(pagesize, max)
    {
      size, limit, count := pagesize, max, 0;
      head, tail, free := null, null, null;
      pages, spares := [], [];
    }

    /** src/mempager.c:55 */
    method PopSpare()
      requires Valid() && free != null
      modifies this`free, this`spares
      ensures Valid() && spares == old(spares)[1..] && old(free) !in spares && old(free) !in pages
    {
      assert free.place == -|spares| && free == spares[0];
      SparesLeft(spares);
      free := free.next;
      spares := spares[1..];
    }

    /** src/mempager.c:53-63: a page off the free list, or a new one within the limit. */
    method Obtain(mallocOk: bool) returns (page: Page?)
      requires Valid()
      modifies this`free, this`spares, this`count
      ensures Valid() && pages == old(pages)
      ensures page == null <==> NoPage(old(View()), mallocOk)
      ensures page == null ==> View() == old(View()) && spares == old(spares)
      ensures page != null ==> page !in pages && page !in spares && (page in old(spares) || fresh(page))
      ensures page != null ==>
        if old(spares) == [] then spares == [] && count == (old(count) + 1) % UNSIGNED
        else spares == old(spares)[1..] && count == old(count)
    {
      page := free;
      if page != null {
        PopSpare();
      } else if limit != 0 && count >= limit {
        return null;
      } else {
        if !mallocOk {
          return null;
        }
        page := Make();
        CountPage();
      }
    }

    /** A malloc that succeeds: nothing that was there before changes. */
    method Make() returns (page: Page)
      ensures fresh(page)
    {
      page := new Page();
    }

    /** src/mempager.c:62 */
    method CountPage()
      requires Valid()
      modifies this`count
      ensures Valid() && count == (old(count) + 1) % UNSIGNED
    {
      count := (count + 1) % UNSIGNED;
    }

    ghost function TailSet(): set<object>
      reads this
    {
      if tail == null then {} else {tail}
    }

    /** src/mempager.c:65-73 */
    method Link(page: Page)
      requires Valid() && page !in pages && page !in spares
      modifies this`head, this`tail, this`pages, TailSet(), page
      ensures Valid() && pages == old(pages) + [page]
      ensures View() == old(View()).(used := old(View()).used + [HEADER])
    {
      ghost var was := View();
      Hook(page);
      page.Start(tail, |pages|);
      assert View() == was;
      Adopt(page);
    }

    /** src/mempager.c:73: the page is linked, only `tail` does not point to it yet. */
    method Adopt(page: Page)
      requires head == if pages == [] then page else pages[0]
      requires forall i {:trigger pages[i].next} :: 0 <= i < |pages| ==> pages[i].next == After(pages + [page], i)
      requires forall i {:trigger pages[i].prev} :: 0 <= i < |pages| ==> pages[i].prev == Before(pages, i)
      requires forall i {:trigger pages[i].place} :: 0 <= i < |pages| ==> pages[i].place == i
      requires forall i {:trigger spares[i].next} :: 0 <= i < |spares| ==> spares[i].next == After(spares, i)
      requires forall i {:trigger spares[i].place} :: 0 <= i < |spares| ==> spares[i].place == i - |spares|
      requires free == (if spares == [] then null else spares[0])
      requires page.prev == Before(pages, |pages|) && page.next == null && page.place == |pages| && page.used == HEADER
      modifies this`tail, this`pages
      ensures Valid() && pages == old(pages) + [page]
      ensures View() == old(View()).(used := old(View()).used + [HEADER])
    {
      ghost var used := View().used;
      NextExtended(pages, page);
      PrevExtended(pages, page);
      PlaceExtended(pages, page);
      tail := page;
      pages := pages + [page];
      assert View().used == used + [HEADER];
    }

    /** src/mempager.c:65-68 */
    method Hook(page: Page)
      requires Valid() && page !in pages && page !in spares
      modifies this`head, TailSet()
      ensures tail == old(tail) && pages == old(pages) && spares == old(spares)
      ensures head == if pages == [] then page else pages[0]
      ensures forall i {:trigger pages[i].next} :: 0 <= i < |pages| ==> pages[i].next == After(pages + [page], i)
      ensures forall i {:trigger pages[i].prev} :: 0 <= i < |pages| ==> pages[i].prev == Before(pages, i)
      ensures forall i :: 0 <= i < |pages| ==> pages[i].used == old(pages[i].used)
      ensures forall i {:trigger spares[i].next} :: 0 <= i < |spares| ==> spares[i].next == After(spares, i)
      ensures forall i {:trigger pages[i].place} :: 0 <= i < |pages| ==> pages[i].place == i
      ensures forall i {:trigger spares[i].place} :: 0 <= i < |spares| ==> spares[i].place == i - |spares|
    {
      if tail != null {
        assert forall i :: 0 <= i < |pages| - 1 ==> pages[i].place != tail.place;
        assert forall i :: 0 <= i < |spares| ==> spares[i].place != tail.place;
        tail.next := page;
      } else {
        head := page;
      }
    }

    /** src/mempager.c:52-75 */
    method Take(mallocOk: bool) returns (page: Page?)
      requires Valid() && HEADER <= size
      modifies this, tail, spares
      ensures Valid()
      ensures page == null <==> NoPage(old(View()), mallocOk)
      ensures page == null ==> View() == old(View()) && pages == old(pages)
      ensures page != null ==> View() == Request(old(View()), mallocOk) && pages == old(pages) + [page]
      ensures page != null ==> page in old(spares) || fresh(page)
    {
      page := Obtain(mallocOk);
      if page != null {
        assert View().used == old(View()).used;
        Link(page);
      }
    }

    /** The walk of src/mempager.c:84-92, up to the page it stops at. */
    method Find(n: Size) returns (page: Page?, ghost k: nat)
      requires Valid()
      ensures k == FirstFit(View(), n, 0)
      ensures page == if k < |pages| then pages[k] else null
    {
      page := head;
      k := 0;
      while page != null && Plus(page.used, n) > size
        invariant k <= |pages| && page == (if k < |pages| then pages[k] else null)
        invariant FirstFit(View(), n, 0) == FirstFit(View(), n, k)
        decreases |pages| - k
      {
        assert pages[k].next == After(pages, k);
        page := page.next;
        k := k + 1;
      }
    }

    lemma UsedNow(used: seq<Size>)
      requires |used| == |pages| && forall i :: 0 <= i < |pages| ==> pages[i].used == used[i]
      ensures View().used == used
    {
    }

    /** src/mempager.c:88 and 98 */
    method Advance(page: Page, ghost k: nat, n: Size)
      requires Valid() && k < |pages| && page == pages[k]
      modifies page`used
      ensures Valid() && View() == old(View()).(used := old(View()).used[k := Plus(old(page.used), n)])
    {
      ghost var was := View().used;
      page.used := Plus(page.used, n);
      assert forall i :: 0 <= i < |pages| && i != k ==> pages[i].place != page.place;
      UsedNow(was[k := Plus(was[k], n)]);
    }

    /** src/mempager.c:77-100: the bytes returned are `page + offset .. page + offset + n`. */
    method Give(n: Size, mallocOk: bool) returns (page: Page?, offset: nat)
      requires Valid() && HEADER <= size
      modifies this, pages, spares
      ensures Valid() && old(pages) <= pages
      ensures var (q, r) := Alloc(old(View()), n, mallocOk);
        && View() == q
        && (page == null <==> r.None?)
        && (page != null ==>
              && r.value.page < |pages| && page == pages[r.value.page]
              && offset == r.value.offset && n == r.value.length)
    {
      offset := 0;
      if Plus(n, HEADER) > size {
        return null, 0;
      }
      ghost var p := View();
      ghost var k;
      page, k := Find(n);
      if page != null {
        offset := page.used;
        assert offset == p.used[k];
        Advance(page, k, n);
      } else {
        page, offset := GiveFromNewPage(n, mallocOk, k);
      }
    }

    /** src/mempager.c:94-99 */
    method GiveFromNewPage(n: Size, mallocOk: bool, ghost k: nat) returns (page: Page?, offset: nat)
      requires Valid() && HEADER <= size && k == |pages|
      modifies this, tail, spares
      ensures Valid() && old(pages) <= pages
      ensures page == null <==> NoPage(old(View()), mallocOk)
      ensures page == null ==> View() == old(View())
      ensures page != null ==>
        && |pages| == k + 1 && page == pages[k] && offset == HEADER
        && View() == var q := Request(old(View()), mallocOk); q.(used := q.used[k := Plus(HEADER, n)])
    {
      offset := HEADER;
      page := Take(mallocOk);
      if page != null {
        assert page.used == View().used[k];
        Advance(page, k, n);
      }
    }

    /** One of the loops of src/mempager.c:27-31 and 34-38: each page's link is read before it goes. */
    method Walk(first: Page?, ghost chain: seq<Page>) returns (freed: seq<Page>)
      requires first == (if chain == [] then null else chain[0])
      requires forall i {:trigger chain[i].next} :: 0 <= i < |chain| ==> chain[i].next == After(chain, i)
      ensures freed == chain
    {
      freed := [];
      var page := first;
      ghost var i := 0;
      while page != null
        invariant 0 <= i <= |chain| && page == (if i < |chain| then chain[i] else null)
        invariant freed == chain[..i]
        decreases |chain| - i
      {
        assert chain[i].next == After(chain, i);
        var next := page.next;
        freed := freed + [page];
        page := next;
        i := i + 1;
      }
    }

    /** src/mempager.c:25-42: `freed` are the arguments of the calls of `free`, every page once. */
    method Clear() returns (freed: seq<Page>)
      requires Valid()
      modifies this
      ensures Valid() && View() == Reset(old(View()))
      ensures freed == old(spares) + old(pages)
      ensures forall i, j :: 0 <= i < j < |freed| ==> freed[i] != freed[j]
    {
      var first := Walk(free, spares);
      var second := Walk(head, pages);
      freed := first + second;
      assert forall i :: 0 <= i < |freed| ==> freed[i].place == i - |first|;
      count := 0;
      head, tail, free := null, null, null;
      pages, spares := [], [];
    }
  }
}
