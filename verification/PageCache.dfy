/** The page cache: span objects, one list of free spans per page count, and the two maps that
    find a span by its first or last page. Its methods are proved against the tables of Pages. */
module PageCache {
  import opened Lists
  import opened Pages
  import opened SpanIndex

  class Span {
    var pageId: nat
    var pageCount: nat

    constructor (pageId: nat, pageCount: nat)
      ensures this.pageId == pageId && this.pageCount == pageCount
    {
      this.pageId, this.pageCount := pageId, pageCount;
    }
  }

  /** The greatest of some page numbers. */
  function Greatest(keys: set<nat>): (k: nat)
    requires keys != {}
    ensures k in keys && forall j :: j in keys ==> j <= k
  {
    GreatestExists(keys);
    var k :| k in keys && forall j :: j in keys ==> j <= k;
    k
  }

  lemma {:induction false} GreatestExists(keys: set<nat>)
    requires keys != {}
    ensures exists k :: k in keys && forall j :: j in keys ==> j <= k
  {
    var x :| x in keys;
    var rest := keys - {x};
    assert forall j :: j in keys <==> j in rest || j == x;
    if rest == {} {
      assert forall j :: j in rest ==> false;
      assert x in keys;
    } else {
      GreatestExists(rest);
      var k :| k in rest && forall j :: j in rest ==> j <= k;
      assert (if k < x then x else k) in keys;
    }
  }

  datatype Option<T> = None | Some(value: T)

  ghost predicate ApartFromChunks(chunks: set<nat>, c: nat) {
    forall d :: d in chunks ==> c + MAX_PAGE_NUM <= d || d + MAX_PAGE_NUM <= c
  }

  /** Every span object carries the first page and the page count of its table entry. */
  ghost predicate Described(spans: Spans, at: map<nat, Span>)
    reads at.Values
  {
    && at.Keys == spans.Keys
    && forall s :: s in spans ==> at[s].pageId == s && at[s].pageCount == spans[s].pages
  }

  ghost predicate DescribedBut(spans: Spans, at: map<nat, Span>, b: nat)
    reads at.Values
  {
    && at.Keys == spans.Keys
    && forall s :: s in spans && s != b ==> at[s].pageId == s && at[s].pageCount == spans[s].pages
  }

  /** Span object b gets a new page count; the others keep theirs. */
  method Resize(x: Span, pages: nat, ghost spans: Spans, ghost at: map<nat, Span>, ghost b: nat)
    requires Described(spans, at) && b in at && at[b] == x
    modifies x
    ensures DescribedBut(spans, at, b) && x.pageId == b && x.pageCount == pages
  {
    x.pageCount := pages;
  }

  /** Span object x takes over both neighbours a and b, one of which it described. */
  method Regroup(x: Span, id: nat, pages: nat, ghost spans: Spans, ghost at: map<nat, Span>, ghost a: nat, ghost b: nat,
                 ghost at': map<nat, Span>)
    requires Described(spans, at) && a in spans && b in spans && a != b && (at[a] == x || at[b] == x)
    requires id == a && pages == spans[a].pages + spans[b].pages && at' == (at - {b})[a := x]
    modifies x
    ensures Described(Join(spans, a, b), at') && x.pageId == id && x.pageCount == pages
  {
    x.pageId, x.pageCount := id, pages;
  }

  class PageCache {
    var lists: seq<seq<Span>>
    var freeMap: map<nat, Span>
    var busyMap: map<nat, Span>
    var chunks: set<nat>
    ghost var table: Table
    ghost var at: map<nat, Span>

    /** The representation invariant, except that the spans in x are neither listed nor entered
        in a map while they are being worked on. */
    ghost predicate Holding(x: set<nat>)
      reads this, at.Values
    {
      && WellFormed(table) && Described(table.spans, at)
      && table.chunks == chunks
      && Indexed(lists, freeMap, busyMap, table.spans, at, x)
    }

    ghost predicate Valid()
      reads this, at.Values
    {
      Holding({})
    }

    constructor ()
      ensures Valid() && table == Table(map[], {})
    {
      lists := seq(MAX_PAGE_NUM, _ => []);
      freeMap, busyMap, chunks := map[], map[], {};
      table, at := Table(map[], {}), map[];
    }

    /** Takes over changed lists and maps that describe a changed table. */
    method Store(newLists: seq<seq<Span>>, newFree: map<nat, Span>, newBusy: map<nat, Span>, newChunks: set<nat>,
                 ghost t: Table, ghost newAt: map<nat, Span>)
      requires WellFormed(t) && Described(t.spans, newAt) && t.chunks == newChunks
      requires Indexed(newLists, newFree, newBusy, t.spans, newAt, {})
      modifies this
      ensures Valid() && table == t && at == newAt
    {
      hide WellFormed, Indexed;
      lists, freeMap, busyMap, chunks := newLists, newFree, newBusy, newChunks;
      table, at := t, newAt;
    }

    // ---- the three ways of fetching ----

    /** The front span of the list of n pages is handed out. */
    method TakeExact(n: nat) returns (x: Span)
      requires Valid() && 1 <= n <= MAX_PAGE_NUM && |lists| == MAX_PAGE_NUM && lists[n - 1] != []
      modifies this
      ensures Valid() && at == old(at) && x.pageId in at && at[x.pageId] == x
      ensures CanFetch(old(table), n, Exact(x.pageId)) && table == Fetch(old(table), n, Exact(x.pageId))
    {
      hide Indexed, Partition, ChunksApart;
      x := lists[n - 1][0];
      ghost var s := FrontSpan(lists, freeMap, busyMap, table.spans, at, n);
      IndexTakeExact(lists, freeMap, busyMap, table.spans, at, s);
      RelabelPartition(table.spans, table.chunks, s, true);
      lists := lists[n - 1 := lists[n - 1][1..]];
      freeMap := freeMap - {x.pageId, x.pageId + x.pageCount - 1};
      busyMap := Put<Span>(Put<Span>(busyMap, x.pageId, x), x.pageId + x.pageCount - 1, x);
      table := table.(spans := table.spans[s := Run(n, true)]);
    }

    /** The front span of the list of m pages keeps its first m - n pages; the rest is handed out. */
    method TakeSplit(n: nat, m: nat) returns (x: Span, ghost b: nat)
      requires Valid() && 1 <= n < m <= MAX_PAGE_NUM && |lists| == MAX_PAGE_NUM && lists[m - 1] != []
      requires forall s :: Free(table.spans, s) ==> table.spans[s].pages < n || m <= table.spans[s].pages
      modifies this, at.Values
      ensures Valid() && fresh(at.Values - old(at.Values)) && x.pageId in at && at[x.pageId] == x
      ensures CanFetch(old(table), n, Split(b)) && table == Fetch(old(table), n, Split(b))
      ensures x.pageId == FetchedFirst(old(table), n, Split(b))
    {
      hide Indexed, Partition, ChunksApart, KeysUnique, Sized, Injective, Described;
      var bigger := lists[m - 1][0];
      b := FrontSpan(lists, freeMap, busyMap, table.spans, at, m);
      assert CanFetch(table, n, Split(b));
      ghost var f: nat := b + m - n;
      ghost var t' := SplitTable(table, n, m, b);
      DescribedAt(table.spans, at, b);
      x := new Span(bigger.pageId + m - n, n);
      Resize(bigger, m - n, table.spans, at, b);
      ghost var at' := Put<Span>(at, f, x);
      DescribedSplit(table.spans, at, b, f, x, at');
      IndexTakeSplit(lists, freeMap, busyMap, table.spans, at, b, n, at');
      var popped := lists[m - 1 := lists[m - 1][1..]];
      var last := bigger.pageId + bigger.pageCount - 1;
      var newLists := popped[bigger.pageCount - 1 := [bigger] + popped[bigger.pageCount - 1]];
      var newFree := Put<Span>(freeMap - {last + x.pageCount}, last, bigger);
      var newBusy := Put<Span>(Put<Span>(busyMap, x.pageId, x), x.pageId + x.pageCount - 1, x);
      Store(newLists, newFree, newBusy, chunks, t', at');
    }

    /** A whole new chunk starting at page c is handed out. */
    method TakeWholeChunk(c: nat) returns (x: Span)
      requires Valid() && CanFetch(table, MAX_PAGE_NUM, Grow(c))
      modifies this
      ensures Valid() && fresh(at.Values - old(at.Values)) && x.pageId in at && at[x.pageId] == x
      ensures table == Fetch(old(table), MAX_PAGE_NUM, Grow(c)) && x.pageId == c
    {
      hide Indexed, Partition, ChunksApart, KeysUnique, Sized, Injective, Described;
      GrowStep(table, MAX_PAGE_NUM, c);
      x := new Span(c, MAX_PAGE_NUM);
      ghost var at' := Put<Span>(at, c, x);
      DescribedWhole(table.spans, at, c, x, at');
      IndexTakeWholeChunk(lists, freeMap, busyMap, table.spans, at, c, at');
      busyMap := Put<Span>(Put<Span>(busyMap, x.pageId, x), x.pageId + x.pageCount - 1, x);
      chunks, table, at := chunks + {c}, Fetch(table, MAX_PAGE_NUM, Grow(c)), at';
    }

    /** A new chunk starting at page c: its last n pages are handed out, the others are free. */
    method TakeChunkTail(n: nat, c: nat) returns (x: Span)
      requires Valid() && 1 <= n < MAX_PAGE_NUM && CanFetch(table, n, Grow(c))
      modifies this
      ensures Valid() && fresh(at.Values - old(at.Values)) && x.pageId in at && at[x.pageId] == x
      ensures table == Fetch(old(table), n, Grow(c)) && x.pageId == FetchedFirst(old(table), n, Grow(c))
    {
      hide Indexed, Partition, ChunksApart, KeysUnique, Sized, Injective, Described;
      ghost var t', f := Fetch(table, n, Grow(c)), c + MAX_PAGE_NUM - n;
      GrowStep(table, n, c);
      var maxSpan := new Span(c, MAX_PAGE_NUM - n);
      x := new Span(maxSpan.pageId + MAX_PAGE_NUM - n, n);
      ghost var at' := Put<Span>(Put<Span>(at, c, maxSpan), f, x);
      DescribedCut(table.spans, at, c, f, maxSpan, x, at');
      IndexTakeChunk(lists, freeMap, busyMap, table.spans, at, c, n, t'.spans, at');
      var newLists := lists[maxSpan.pageCount - 1 := [maxSpan] + lists[maxSpan.pageCount - 1]];
      var last := maxSpan.pageId + maxSpan.pageCount - 1;
      var newFree := Put<Span>(Put<Span>(freeMap, maxSpan.pageId, maxSpan), last, maxSpan);
      var newBusy := Put<Span>(Put<Span>(busyMap, x.pageId, x), x.pageId + x.pageCount - 1, x);
      Store(newLists, newFree, newBusy, chunks + {c}, t', at');
    }

    /** The first non-empty list of spans with more than n pages, when there is none with n. */
    method FindLarger(n: nat) returns (i: nat)
      requires Valid() && 1 <= n <= MAX_PAGE_NUM && |lists| == MAX_PAGE_NUM && lists[n - 1] == []
      ensures n <= i <= MAX_PAGE_NUM && (i < MAX_PAGE_NUM ==> lists[i] != [])
      ensures forall s :: Free(table.spans, s) ==> table.spans[s].pages < n || i < table.spans[s].pages
    {
      hide Partition, ChunksApart, KeysUnique, Sized, Injective, Described, Keyed;
      ListEmpty(lists, table.spans, at, n);
      i := n;
      while i < MAX_PAGE_NUM && lists[i] == []
        invariant n <= i <= MAX_PAGE_NUM
        invariant forall s :: Free(table.spans, s) ==> table.spans[s].pages < n || i < table.spans[s].pages
      {
        ListEmpty(lists, table.spans, at, i + 1);
        i := i + 1;
      }
    }

    /** Hands out a span of n pages: a free one of that size if there is one, else the tail of a
        smallest larger one, else the tail of a new chunk. Without any of these it gives null. */
    method FetchSpan(n: nat, chunk: Option<nat>) returns (x: Span?, ghost src: Source)
      requires Valid() && 1 <= n <= MAX_PAGE_NUM
      requires chunk.Some? ==> 1 <= chunk.value && ApartFromChunks(table.chunks, chunk.value)
      modifies this, at.Values
      ensures Valid() && fresh(at.Values - old(at.Values))
      ensures x == null ==> chunk.None? && table == old(table) && at == old(at)
      ensures x == null ==> forall s :: Free(table.spans, s) ==> table.spans[s].pages < n
      ensures x != null ==> CanFetch(old(table), n, src) && table == Fetch(old(table), n, src)
      ensures x != null ==> x.pageId == FetchedFirst(old(table), n, src) && x.pageId in at && at[x.pageId] == x
    {
      hide Partition, ChunksApart, KeysUnique, Sized, Injective, Described, Keyed;
      if lists[n - 1] != [] {
        x := TakeExact(n);
        src := Exact(x.pageId);
        return;
      }
      var i := FindLarger(n);
      if i < MAX_PAGE_NUM {
        ghost var b;
        x, b := TakeSplit(n, i + 1);
        src := Split(b);
        return;
      }
      FreeAtMost(table);
      if chunk.None? {
        return null, Grow(0);
      }
      src := Grow(chunk.value);
      if n == MAX_PAGE_NUM {
        x := TakeWholeChunk(chunk.value);
      } else {
        x := TakeChunkTail(n, chunk.value);
      }
    }

    // ---- giving a span back ----

    /** Span x is being given back: it is free, belongs to no list or map, and stands for s of
        table t and the spans merged with it so far. */
    ghost predicate Merging(x: Span, t: Table, s: nat)
      reads this, x, at.Values
    {
      && Holding({x.pageId}) && x.pageId in at && at[x.pageId] == x && Free(table.spans, x.pageId)
      && table.chunks == t.chunks && Gathered(t.spans, s, table.spans, x.pageId)
    }

    method Release(x: Span)
      requires Valid() && x.pageId in at && at[x.pageId] == x && Busy(table.spans, x.pageId)
      modifies this
      ensures Merging(x, old(table), x.pageId) && at == old(at)
    {
      hide Indexed, Partition, ChunksApart;
      ghost var s := x.pageId;
      IndexRelease(lists, freeMap, busyMap, table.spans, at, s);
      RelabelPartition(table.spans, table.chunks, s, false);
      GatheredSelf(table, s);
      busyMap := busyMap - {x.pageId, x.pageId + x.pageCount - 1};
      table := table.(spans := table.spans[s := Run(table.spans[s].pages, false)]);
    }

    /** The free span y next to x becomes part of x; a is the first page of the two. */
    method Absorb(x: Span, y: Span, ghost a: nat, ghost b: nat, ghost t: Table, ghost s: nat)
      requires Merging(x, t, s) && y.pageId in at && at[y.pageId] == y && Free(table.spans, y.pageId)
      requires (a == x.pageId && b == y.pageId) || (a == y.pageId && b == x.pageId)
      requires a != b && a + table.spans[a].pages == b && x.pageCount + y.pageCount <= MAX_PAGE_NUM
      modifies this, x
      ensures Merging(x, t, s) && x.pageId == a && table == Table(Join(old(table.spans), a, b), t.chunks)
      ensures x.pageCount == old(x.pageCount + y.pageCount)
      ensures at.Values <= old(at.Values)
    {
      hide Indexed, Partition, ChunksApart, KeysUnique, Sized, Injective, Gathered, Described;
      ghost var r, at' := x.pageId, Put<Span>(at - {b}, a, x);
      DescribedAt(table.spans, at, x.pageId);
      DescribedAt(table.spans, at, y.pageId);
      JoinStep(table, t, s, a, b, r);
      IndexJoin(lists, freeMap, busyMap, table.spans, at, a, b, r, at');
      lists := lists[y.pageCount - 1 := Without(lists[y.pageCount - 1], y)];
      freeMap := freeMap - {y.pageId, y.pageId + y.pageCount - 1};
      var first := if y.pageId < x.pageId then y.pageId else x.pageId;
      Regroup(x, first, x.pageCount + y.pageCount, table.spans, at, a, b, at');
      table, at := table.(spans := Join(table.spans, a, b)), at';
    }

    /** Merges free spans in front of x as long as they fit. */
    method MergePrev(x: Span, ghost t: Table, ghost s: nat)
      requires Merging(x, t, s)
      modifies this, x
      ensures Merging(x, t, s) && MaximalPrev(table.spans, x.pageId)
      ensures at.Values <= old(at.Values)
    {
      hide Partition, KeysUnique, Injective, Keyed, Listed, Gathered, ChunksApart;
      PrevFound(x, t, s);
      while x.pageId - 1 in freeMap && x.pageCount + freeMap[x.pageId - 1].pageCount <= MAX_PAGE_NUM
        invariant Merging(x, t, s) && at.Values <= old(at.Values)
        invariant x.pageId - 1 in freeMap ==> IsPrev(freeMap[x.pageId - 1], x)
        invariant x.pageId - 1 !in freeMap ==> MaximalPrev(table.spans, x.pageId)
        decreases MAX_PAGE_NUM - x.pageCount
      {
        var prev := freeMap[x.pageId - 1];
        Absorb(x, prev, prev.pageId, x.pageId, t, s);
        PrevFound(x, t, s);
      }
      if x.pageId - 1 in freeMap {
        PrevTooLarge(x, t, s);
      }
    }

    /** y is the free span that ends where x starts. */
    ghost predicate IsPrev(y: Span, x: Span)
      reads this, x, y, at.Values
    {
      && y.pageId in at && at[y.pageId] == y && Free(table.spans, y.pageId)
      && y.pageId in table.spans && y.pageId + table.spans[y.pageId].pages == x.pageId
      && 1 <= y.pageCount && y.pageCount == table.spans[y.pageId].pages
    }

    lemma PrevFound(x: Span, t: Table, s: nat)
      requires Merging(x, t, s)
      ensures x.pageId >= 1 && x.pageCount == table.spans[x.pageId].pages
      ensures x.pageId - 1 in freeMap ==> IsPrev(freeMap[x.pageId - 1], x)
      ensures x.pageId - 1 !in freeMap ==> MaximalPrev(table.spans, x.pageId)
    {
      hide Keyed, Listed, KeysUnique, Injective, ChunksApart, Covers;
      PrevKey(lists, freeMap, busyMap, table.spans, at, x.pageId);
    }

    lemma PrevTooLarge(x: Span, t: Table, s: nat)
      requires Merging(x, t, s) && x.pageId - 1 in freeMap && IsPrev(freeMap[x.pageId - 1], x)
      requires x.pageCount + freeMap[x.pageId - 1].pageCount > MAX_PAGE_NUM
      ensures MaximalPrev(table.spans, x.pageId)
    {
      hide Keyed, Listed, KeysUnique, Injective, ChunksApart, Covers;
      PrevKey(lists, freeMap, busyMap, table.spans, at, x.pageId);
    }

    /** Merges free spans behind x as long as they fit; what is in front of x still does not fit. */
    method MergeNext(x: Span, ghost t: Table, ghost s: nat)
      requires Merging(x, t, s) && MaximalPrev(table.spans, x.pageId)
      modifies this, x
      ensures Merging(x, t, s) && Maximal(table.spans, x.pageId)
      ensures at.Values <= old(at.Values)
    {
      hide Partition, KeysUnique, Injective, Keyed, Listed, Gathered, ChunksApart, MaximalPrev, Maximal;
      NextFound(x, t, s);
      while x.pageId + x.pageCount in freeMap && x.pageCount + freeMap[x.pageId + x.pageCount].pageCount <= MAX_PAGE_NUM
        invariant Merging(x, t, s) && MaximalPrev(table.spans, x.pageId) && at.Values <= old(at.Values)
        invariant x.pageId + x.pageCount in freeMap ==> IsNext(freeMap[x.pageId + x.pageCount], x)
        decreases MAX_PAGE_NUM - x.pageCount
      {
        var next := freeMap[x.pageId + x.pageCount];
        MaximalPrevKept(table.spans, x.pageId, next.pageId);
        Absorb(x, next, x.pageId, next.pageId, t, s);
        NextFound(x, t, s);
      }
      NextTooLarge(x, t, s);
    }

    /** y is the free span that starts where x ends. */
    ghost predicate IsNext(y: Span, x: Span)
      reads this, x, y, at.Values
    {
      && y.pageId == x.pageId + x.pageCount && y.pageId in at && at[y.pageId] == y && Free(table.spans, y.pageId)
      && x.pageId in table.spans && x.pageCount == table.spans[x.pageId].pages
      && 1 <= x.pageCount && 1 <= y.pageCount && y.pageCount == table.spans[y.pageId].pages
    }

    lemma NextFound(x: Span, t: Table, s: nat)
      requires Merging(x, t, s)
      ensures x.pageId + x.pageCount in freeMap ==> IsNext(freeMap[x.pageId + x.pageCount], x)
    {
      hide Keyed, Listed, KeysUnique, Injective, ChunksApart, Covers;
      NextKey(lists, freeMap, busyMap, table.spans, at, x.pageId);
    }

    lemma NextTooLarge(x: Span, t: Table, s: nat)
      requires Merging(x, t, s) && MaximalPrev(table.spans, x.pageId)
      requires var e := x.pageId + x.pageCount; e in freeMap ==> x.pageCount + freeMap[e].pageCount > MAX_PAGE_NUM
      ensures Maximal(table.spans, x.pageId)
    {
      hide Keyed, Listed, KeysUnique, Injective, ChunksApart, Covers, Gathered, Sized, Indexed;
      NextKey(lists, freeMap, busyMap, table.spans, at, x.pageId);
    }

    /** Takes span x back, merged with its free neighbours as far as 128 pages allow. */
    method ReturnSpan(x: Span)
      requires Valid() && x.pageId in at && at[x.pageId] == x && Busy(table.spans, x.pageId)
      modifies this, x
      ensures Valid() && x.pageId in at && at[x.pageId] == x && at.Values <= old(at.Values)
      ensures Returned(old(table), old(x.pageId), table, x.pageId)
    {
      hide Indexed, Partition, KeysUnique, Injective, ChunksApart, MaximalPrev, Maximal, Gathered;
      ghost var t, s := table, x.pageId;
      Release(x);
      MergePrev(x, t, s);
      MergeNext(x, t, s);
      EnterFree(lists, freeMap, busyMap, table.spans, at, {x.pageId}, x.pageId);
      assert {x.pageId} - {x.pageId} == {};
      freeMap := Put<Span>(Put<Span>(freeMap, x.pageId, x), x.pageId + x.pageCount - 1, x);
      lists := lists[x.pageCount - 1 := [x] + lists[x.pageCount - 1]];
    }

    // ---- looking up ----

    /** The busy span whose pages include the given address, or null if there is none. Only the
        first and last pages are in the map; the greatest key up to the page decides. */
    method ObjectToSpan(address: nat) returns (x: Span?)
      requires Valid()
      ensures x != null ==> x.pageId in at && at[x.pageId] == x && Busy(table.spans, x.pageId)
      ensures x != null ==> Holds(table.spans, x.pageId, address / PAGE_SIZE)
      ensures forall s :: Busy(table.spans, s) && Holds(table.spans, s, address / PAGE_SIZE) ==> x == at[s]
    {
      hide Indexed, Partition, ChunksApart, Described;
      var page := address / PAGE_SIZE;
      var keys := set k | k in busyMap && k <= page;
      if keys == {} {
        assert forall k :: k in busyMap && k <= page ==> k in keys;
        NoKeyNoSpan(page);
        return null;
      }
      var k := Greatest(keys);
      x := busyMap[k];
      assert k in keys;
      forall j | j in busyMap && j <= page ensures j <= k {
        assert j in keys;
      }
      GreatestKeyDecides(page, k);
      if page >= x.pageId + x.pageCount {
        x := null;
      }
    }

    lemma NoKeyNoSpan(page: nat)
      requires Valid() && forall k :: k in busyMap ==> page < k
      ensures forall s :: Busy(table.spans, s) ==> !Holds(table.spans, s, page)
    {
      hide Listed, Covers, ChunksApart, Injective;
      forall s | Busy(table.spans, s) ensures !Holds(table.spans, s, page) {
        assert IsKey(table.spans, s, s) && OfKind(table.spans, s, true);
      }
    }

    lemma GreatestKeyDecides(page: nat, k: nat)
      requires Valid() && k in busyMap && k <= page && forall j :: j in busyMap && j <= page ==> j <= k
      ensures var x := busyMap[k];
              && x.pageId in at && at[x.pageId] == x && Busy(table.spans, x.pageId) && x.pageId <= page
              && x.pageCount == table.spans[x.pageId].pages
              && forall s :: Busy(table.spans, s) && Holds(table.spans, s, page) ==> s == x.pageId
    {
      hide Listed, Covers, ChunksApart, Injective, KeysUnique;
      var r :| IsKey(table.spans, r, k) && OfKind(table.spans, r, true) && busyMap[k] == at[r];
      forall s | Busy(table.spans, s) && Holds(table.spans, s, page) ensures s == r {
        assert IsKey(table.spans, s, s) && OfKind(table.spans, s, true);
      }
    }
  }

  /** After the front part of span b has been cut at page f and object x made for the rest. */
  lemma DescribedSplit(spans: Spans, at: map<nat, Span>, b: nat, f: nat, x: Span, at': map<nat, Span>)
    requires at' == at[f := x] && at.Keys == spans.Keys && Free(spans, b) && b < f < b + spans[b].pages && f !in spans
    requires DescribedBut(spans, at, b)
    requires at[b].pageId == b && at[b].pageCount == f - b && x.pageId == f && x.pageCount == b + spans[b].pages - f
    ensures Described(Cut(spans, b, spans[b].pages, f), at') && Injective(at')
  {}

  lemma DescribedAt(spans: Spans, at: map<nat, Span>, b: nat)
    requires Described(spans, at) && b in spans
    ensures at.Keys == spans.Keys && at[b].pageId == b && at[b].pageCount == spans[b].pages
  {}

  lemma DescribedWhole(spans: Spans, at: map<nat, Span>, c: nat, x: Span, at': map<nat, Span>)
    requires at' == at[c := x] && Described(spans, at) && c !in spans && x.pageId == c && x.pageCount == MAX_PAGE_NUM
    ensures Described(spans[c := Run(MAX_PAGE_NUM, true)], at') && Injective(at')
  {}

  lemma DescribedCut(spans: Spans, at: map<nat, Span>, c: nat, f: nat, y: Span, x: Span, at': map<nat, Span>)
    requires at' == at[c := y][f := x] && Described(spans, at) && c !in spans && f !in spans && c < f < c + MAX_PAGE_NUM
    requires y.pageId == c && y.pageCount == f - c && x.pageId == f && x.pageCount == c + MAX_PAGE_NUM - f
    ensures Described(Cut(spans, c, MAX_PAGE_NUM, f), at') && Injective(at')
  {}

  lemma GrowStep(t: Table, n: nat, c: nat)
    requires WellFormed(t) && 1 <= n <= MAX_PAGE_NUM && CanFetch(t, n, Grow(c))
    ensures c !in t.spans && c + MAX_PAGE_NUM - n !in t.spans
    ensures WellFormed(Fetch(t, n, Grow(c)))
    ensures KeysUnique(Fetch(t, n, Grow(c)).spans) && Sized(Fetch(t, n, Grow(c)).spans)
  {
    AddChunk(t, c);
    GrowWellFormed(t, n, c);
    DisjointKeys(Fetch(t, n, Grow(c)).spans);
  }

  lemma SplitTable(t: Table, n: nat, m: nat, b: nat) returns (t': Table)
    requires WellFormed(t) && 1 <= n < m && CanFetch(t, n, Split(b)) && t.spans[b].pages == m
    ensures t' == Fetch(t, n, Split(b)) && WellFormed(t')
    ensures t'.chunks == t.chunks && t'.spans == Cut(t.spans, b, m, b + m - n) && b + m - n !in t.spans
    ensures FetchedFirst(t, n, Split(b)) == b + m - n
    ensures KeysUnique(t'.spans) && Sized(t'.spans)
  {
    t' := Fetch(t, n, Split(b));
    FetchWellFormed(t, n, Split(b));
    DisjointKeys(t'.spans);
  }

  lemma FreeAtMost(t: Table)
    requires WellFormed(t)
    ensures forall s :: Free(t.spans, s) ==> t.spans[s].pages <= MAX_PAGE_NUM
  {}

  lemma JoinStep(t: Table, t0: Table, s: nat, a: nat, b: nat, r: nat)
    requires WellFormed(t) && Gathered(t0.spans, s, t.spans, r) && (a == r || b == r)
    requires Free(t.spans, a) && Free(t.spans, b) && a + t.spans[a].pages == b
    requires t.spans[a].pages + t.spans[b].pages <= MAX_PAGE_NUM
    ensures WellFormed(t.(spans := Join(t.spans, a, b))) && Gathered(t0.spans, s, Join(t.spans, a, b), a)
    ensures KeysUnique(Join(t.spans, a, b)) && Sized(Join(t.spans, a, b))
  {
    JoinPartition(t.spans, t.chunks, a, b);
    GatherMore(t0.spans, s, t.spans, a, b, r);
    DisjointKeys(Join(t.spans, a, b));
  }

  /** No free span in front of the one at r fits. */
  ghost predicate MaximalPrev(spans: Spans, r: nat)
    requires r in spans
  {
    forall a: nat :: Free(spans, a) && a + spans[a].pages == r ==> spans[a].pages + spans[r].pages > MAX_PAGE_NUM
  }

  /** A merge behind the span at r only makes what is in front of it fit even less. */
  lemma MaximalPrevKept(spans: Spans, r: nat, b: nat)
    requires Free(spans, r) && Free(spans, b) && MaximalPrev(spans, r) && b != r
    ensures MaximalPrev(Join(spans, r, b), r)
  {
    forall a: nat | Free(Join(spans, r, b), a) && a != r ensures Free(spans, a) {}
  }
}
