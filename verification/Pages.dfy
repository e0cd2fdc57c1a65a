/** Abstract state of the page cache: the page runs (spans) it manages, keyed by first page,
    and which of them are handed out. */
module Pages {
  const PAGE_SIZE: nat := 4096
  const MAX_PAGE_NUM: nat := 128

  datatype Run = Run(pages: nat, busy: bool)
  type Spans = map<nat, Run>
  datatype Table = Table(spans: Spans, chunks: set<nat>)

  ghost predicate Holds(spans: Spans, s: nat, p: nat) {
    s in spans && s <= p < s + spans[s].pages
  }

  ghost predicate Inside(r: nat, n: nat, p: nat) {
    r <= p < r + n
  }

  /** Page p lies in a 128-page chunk obtained from the system. */
  ghost predicate Owned(chunks: set<nat>, p: nat) {
    exists c :: c in chunks && Inside(c, MAX_PAGE_NUM, p)
  }

  ghost predicate ChunksApart(chunks: set<nat>) {
    && (forall c :: c in chunks ==> 1 <= c)
    && (forall c, d :: c in chunks && d in chunks && c < d ==> c + MAX_PAGE_NUM <= d)
  }

  /** No two chunks touch. */
  ghost predicate Separated(chunks: set<nat>) {
    forall c, d :: c in chunks && d in chunks && c < d ==> c + MAX_PAGE_NUM < d
  }

  ghost predicate Sized(spans: Spans) {
    forall s :: s in spans ==> 1 <= s && 1 <= spans[s].pages <= MAX_PAGE_NUM
  }

  ghost predicate Disjoint(spans: Spans) {
    forall a, b :: a in spans && b in spans && a < b ==> a + spans[a].pages <= b
  }

  /** The spans cover exactly the pages obtained from the system. */
  ghost predicate Covers(spans: Spans, chunks: set<nat>) {
    && (forall s, p :: Holds(spans, s, p) ==> Owned(chunks, p))
    && (forall p :: Owned(chunks, p) ==> exists s :: Holds(spans, s, p))
  }

  ghost predicate Partition(spans: Spans, chunks: set<nat>) {
    Sized(spans) && Disjoint(spans) && Covers(spans, chunks)
  }

  ghost predicate WellFormed(t: Table) {
    ChunksApart(t.chunks) && Partition(t.spans, t.chunks)
  }

  ghost predicate Free(spans: Spans, s: nat) {
    s in spans && !spans[s].busy
  }

  ghost predicate Busy(spans: Spans, s: nat) {
    s in spans && spans[s].busy
  }

  /** No free span begins where another free span ends. */
  ghost predicate Coalesced(spans: Spans) {
    forall a: nat, b: nat :: Free(spans, a) && Free(spans, b) ==> a + spans[a].pages != b
  }

  // ---- fetching ----

  /** Where a fetched span comes from: a free span of the exact size, the tail of a larger
      one, or the tail of a new chunk. */
  datatype Source = Exact(first: nat) | Split(first: nat) | Grow(first: nat)

  ghost predicate CanFetch(t: Table, n: nat, src: Source) {
    match src
    case Exact(s) => Free(t.spans, s) && t.spans[s].pages == n
    case Split(b) =>
      && Free(t.spans, b) && n < t.spans[b].pages
      && forall x :: Free(t.spans, x) ==> t.spans[x].pages < n || t.spans[b].pages <= t.spans[x].pages
    case Grow(c) =>
      && 1 <= c
      && (forall x :: Free(t.spans, x) ==> t.spans[x].pages < n)
      && forall d :: d in t.chunks ==> c + MAX_PAGE_NUM <= d || d + MAX_PAGE_NUM <= c
  }

  ghost function FetchedFirst(t: Table, n: nat, src: Source): nat
    requires CanFetch(t, n, src) && n <= MAX_PAGE_NUM
  {
    match src
    case Exact(s) => s
    case Split(b) => b + t.spans[b].pages - n
    case Grow(c) => c + MAX_PAGE_NUM - n
  }

  /** [b, b+n) is cut at page f; the part from f on is handed out. */
  ghost function Cut(spans: Spans, b: nat, n: nat, f: nat): Spans
    requires b <= f < b + n
  {
    (if b < f then spans[b := Run(f - b, false)] else spans)[f := Run(b + n - f, true)]
  }

  ghost function Fetch(t: Table, n: nat, src: Source): Table
    requires CanFetch(t, n, src) && 1 <= n <= MAX_PAGE_NUM
  {
    match src
    case Exact(s) => t.(spans := t.spans[s := Run(n, true)])
    case Split(b) => t.(spans := Cut(t.spans, b, t.spans[b].pages, b + t.spans[b].pages - n))
    case Grow(c) => Table(Cut(t.spans, c, MAX_PAGE_NUM, c + MAX_PAGE_NUM - n), t.chunks + {c})
  }

  // ---- returning ----

  /** spans' is spans with everything that starts inside [r, r+n) replaced by the span at r. */
  ghost predicate Replaced(spans: Spans, spans': Spans, r: nat, n: nat) {
    && (forall a :: a in spans' <==> a == r || (a in spans && !Inside(r, n, a)))
    && (forall a :: a in spans' && a != r ==> spans'[a] == spans[a])
  }

  /** What starts inside [r, r+n) ends inside of it too, and is free unless it is s. */
  ghost predicate Encloses(spans: Spans, s: nat, r: nat, n: nat) {
    forall a :: a in spans && Inside(r, n, a) ==> a + spans[a].pages <= r + n && (Busy(spans, a) ==> a == s)
  }

  /** Every page of [r, r+n) belongs to a span that starts in it. */
  ghost predicate Filled(spans: Spans, r: nat, n: nat) {
    forall p :: Inside(r, n, p) ==> exists a :: Holds(spans, a, p) && r <= a
  }

  /** spans' is spans with busy span s and the free spans joined to it replaced by one free
      span at r. */
  ghost predicate Gathered(spans: Spans, s: nat, spans': Spans, r: nat) {
    && Busy(spans, s) && Free(spans', r)
    && var n := spans'[r].pages;
       && r <= s && s + spans[s].pages <= r + n && n <= MAX_PAGE_NUM
       && Replaced(spans, spans', r, n) && Encloses(spans, s, r, n) && Filled(spans, r, n)
  }

  /** Every free neighbour of the span at r is too large to be joined to it. */
  ghost predicate Maximal(spans: Spans, r: nat)
    requires r in spans
  {
    forall a: nat :: Free(spans, a) && (a + spans[a].pages == r || r + spans[r].pages == a) ==>
      spans[a].pages + spans[r].pages > MAX_PAGE_NUM
  }

  /** t' results from giving busy span s back; the span at r in t' is the one it became part of. */
  ghost predicate Returned(t: Table, s: nat, t': Table, r: nat) {
    && t'.chunks == t.chunks
    && Gathered(t.spans, s, t'.spans, r)
    && Maximal(t'.spans, r)
  }

  // ---- the invariant is kept ----

  /** Relabelling a span as free or busy changes nothing about the pages. */
  lemma RelabelPartition(spans: Spans, chunks: set<nat>, s: nat, busy: bool)
    requires Partition(spans, chunks) && s in spans
    ensures Partition(spans[s := Run(spans[s].pages, busy)], chunks)
  {
    var spans' := spans[s := Run(spans[s].pages, busy)];
    assert forall x, p :: Holds(spans, x, p) <==> Holds(spans', x, p);
  }

  lemma CutPartition(spans: Spans, chunks: set<nat>, b: nat, f: nat)
    requires Partition(spans, chunks) && b in spans && b < f < b + spans[b].pages
    ensures f !in spans
    ensures Partition(Cut(spans, b, spans[b].pages, f), chunks)
  {
    var cut := Cut(spans, b, spans[b].pages, f);
    forall p: nat | Owned(chunks, p) ensures exists x :: Holds(cut, x, p) {
      var x :| Holds(spans, x, p);
      assert Holds(cut, if x == b && f <= p then f else x, p);
    }
    forall x: nat, p: nat | Holds(cut, x, p) ensures Owned(chunks, p) {
      assert Holds(spans, if x == f then b else x, p);
    }
  }

  /** A span and a run of pages that shares no page with any chunk lie apart. */
  lemma SpanAvoids(t: Table, c: nat, x: nat)
    requires WellFormed(t) && x in t.spans
    requires forall d :: d in t.chunks ==> c + MAX_PAGE_NUM <= d || d + MAX_PAGE_NUM <= c
    ensures x + t.spans[x].pages <= c || c + MAX_PAGE_NUM <= x
  {
    var p := if x <= c < x + t.spans[x].pages then c else x;
    assert Holds(t.spans, x, p);
  }

  /** A new chunk handed over as one busy span. */
  lemma AddChunk(t: Table, c: nat)
    requires WellFormed(t) && 1 <= c
    requires forall d :: d in t.chunks ==> c + MAX_PAGE_NUM <= d || d + MAX_PAGE_NUM <= c
    ensures c !in t.spans
    ensures WellFormed(Table(t.spans[c := Run(MAX_PAGE_NUM, true)], t.chunks + {c}))
  {
    var spans', chunks' := t.spans[c := Run(MAX_PAGE_NUM, true)], t.chunks + {c};
    forall x | x in t.spans ensures x + t.spans[x].pages <= c || c + MAX_PAGE_NUM <= x {
      SpanAvoids(t, c, x);
    }
    forall x: nat, p: nat | Holds(spans', x, p) ensures Owned(chunks', p) {
      if x == c {
        assert c in chunks' && Inside(c, MAX_PAGE_NUM, p);
      } else {
        assert Holds(t.spans, x, p);
        var d :| d in t.chunks && Inside(d, MAX_PAGE_NUM, p);
        assert d in chunks';
      }
    }
    forall p: nat | Owned(chunks', p) ensures exists x :: Holds(spans', x, p) {
      if Inside(c, MAX_PAGE_NUM, p) {
        assert Holds(spans', c, p);
      } else {
        assert Owned(t.chunks, p);
        var x :| Holds(t.spans, x, p);
        assert Holds(spans', x, p);
      }
    }
  }

  lemma FetchWellFormed(t: Table, n: nat, src: Source)
    requires WellFormed(t) && 1 <= n <= MAX_PAGE_NUM && CanFetch(t, n, src)
    ensures WellFormed(Fetch(t, n, src))
    ensures src.Exact? || FetchedFirst(t, n, src) !in t.spans
  {
    hide Partition;
    match src
    case Exact(s) =>
      RelabelPartition(t.spans, t.chunks, s, true);
    case Split(b) =>
      CutPartition(t.spans, t.chunks, b, b + t.spans[b].pages - n);
    case Grow(c) =>
      GrowWellFormed(t, n, c);
  }

  lemma CutOverwrites(spans: Spans, b: nat, n: nat, f: nat, run: Run)
    requires b < f < b + n
    ensures Cut(spans[b := run], b, n, f) == Cut(spans, b, n, f)
  {}

  lemma GrowWellFormed(t: Table, n: nat, c: nat)
    requires WellFormed(t) && 1 <= n <= MAX_PAGE_NUM && CanFetch(t, n, Grow(c))
    ensures WellFormed(Fetch(t, n, Grow(c)))
    ensures c + MAX_PAGE_NUM - n !in t.spans
  {
    hide Partition;
    AddChunk(t, c);
    if n < MAX_PAGE_NUM {
      GrowTail(t, c, c + MAX_PAGE_NUM - n);
    }
  }

  lemma GrowTail(t: Table, c: nat, f: nat)
    requires WellFormed(Table(t.spans[c := Run(MAX_PAGE_NUM, true)], t.chunks + {c})) && c < f < c + MAX_PAGE_NUM
    ensures WellFormed(Table(Cut(t.spans, c, MAX_PAGE_NUM, f), t.chunks + {c}))
    ensures f !in t.spans
  {
    var whole := t.spans[c := Run(MAX_PAGE_NUM, true)];
    CutPartition(whole, t.chunks + {c}, c, f);
    CutOverwrites(t.spans, c, MAX_PAGE_NUM, f, Run(MAX_PAGE_NUM, true));
  }

  /** Free span b has at least n pages, and no free span that has is smaller. */
  ghost predicate SmallestFit(t: Table, n: nat, b: nat) {
    && Free(t.spans, b) && t.spans[b].pages >= n
    && forall x :: Free(t.spans, x) && t.spans[x].pages >= n ==> t.spans[b].pages <= t.spans[x].pages
  }

  /** If some free span has n pages, the pages handed out are the last ones of a smallest such span,
      and no chunk is asked for. */
  lemma FetchBestFit(t: Table, n: nat, src: Source, s: nat)
    requires n <= MAX_PAGE_NUM && CanFetch(t, n, src) && Free(t.spans, s) && t.spans[s].pages >= n
    ensures !src.Grow? && SmallestFit(t, n, src.first)
    ensures FetchedFirst(t, n, src) + n == src.first + t.spans[src.first].pages
  {
    assert !src.Grow?;
  }

  /** Fetching hands out exactly one new busy span of n pages and leaves the others as they were. */
  lemma FetchHandsOut(t: Table, n: nat, src: Source)
    requires WellFormed(t) && 1 <= n <= MAX_PAGE_NUM && CanFetch(t, n, src)
    ensures var spans', f := Fetch(t, n, src).spans, FetchedFirst(t, n, src);
            && !Busy(t.spans, f) && f in spans' && spans'[f] == Run(n, true)
            && (forall x :: Busy(spans', x) <==> Busy(t.spans, x) || x == f)
            && forall x :: Busy(t.spans, x) ==> spans'[x] == t.spans[x]
  {
    hide Partition, ChunksApart;
    FetchWellFormed(t, n, src);
    if src.Grow? {
      AddChunk(t, src.first);
    }
  }

  /** Giving a span back conserves every page. */
  lemma ReturnWellFormed(t: Table, s: nat, t': Table, r: nat)
    requires WellFormed(t) && t'.chunks == t.chunks && Gathered(t.spans, s, t'.spans, r)
    ensures WellFormed(t')
  {
    var n := t'.spans[r].pages;
    forall p: nat | Owned(t'.chunks, p) ensures exists x :: Holds(t'.spans, x, p) {
      var x :| Holds(t.spans, x, p);
      assert Holds(t'.spans, if Inside(r, n, x) then r else x, p);
    }
    forall x: nat, p: nat | Holds(t'.spans, x, p) ensures Owned(t'.chunks, p) {
      if x == r {
        assert Inside(r, n, p);
        var a :| Holds(t.spans, a, p) && r <= a;
        assert Holds(t.spans, a, p);
      } else {
        assert Holds(t.spans, x, p);
      }
    }
    assert Inside(r, n, r);
    var a :| Holds(t.spans, a, r) && r <= a;
  }

  /** Joining two neighbouring spans into one free span. */
  ghost function Join(spans: Spans, a: nat, b: nat): Spans
    requires a in spans && b in spans
  {
    (spans - {b})[a := Run(spans[a].pages + spans[b].pages, false)]
  }

  lemma JoinPartition(spans: Spans, chunks: set<nat>, a: nat, b: nat)
    requires Partition(spans, chunks) && a in spans && b in spans
    requires a + spans[a].pages == b && spans[a].pages + spans[b].pages <= MAX_PAGE_NUM
    ensures Partition(Join(spans, a, b), chunks)
  {
    var spans' := Join(spans, a, b);
    forall p: nat | Owned(chunks, p) ensures exists x :: Holds(spans', x, p) {
      var x :| Holds(spans, x, p);
      assert Holds(spans', if x == b then a else x, p);
    }
    forall x: nat, p: nat | Holds(spans', x, p) ensures Owned(chunks, p) {
      assert Holds(spans, if x == a && b <= p then b else x, p);
    }
  }

  /** A span starting inside the joined run was inside the run before, or is the neighbour. */
  lemma InsideJoin(spans: Spans, spans': Spans, a: nat, b: nat, r: nat)
    requires Disjoint(spans') && Sized(spans') && r in spans' && Replaced(spans, spans', r, spans'[r].pages)
    requires a in spans' && b in spans' && (a == r || b == r) && a + spans'[a].pages == b
    ensures forall y :: y in spans && Inside(a, spans'[a].pages + spans'[b].pages, y) ==>
      Inside(r, spans'[r].pages, y) || y == if a == r then b else a
  {
    forall y | y in spans && !Inside(r, spans'[r].pages, y) ensures y in spans' {}
  }

  lemma FilledJoin(spans: Spans, a: nat, n: nat, b: nat, m: nat)
    requires Filled(spans, a, n) && Filled(spans, b, m) && a + n == b
    ensures Filled(spans, a, n + m)
  {
    var k := n + m;
    forall p: nat | Inside(a, k, p) ensures exists y :: Holds(spans, y, p) && a <= y {
      assert Inside(if p < b then a else b, if p < b then n else m, p);
      var y :| Holds(spans, y, p) && (if p < b then a else b) <= y;
    }
  }

  lemma NeighbourFilled(spans: Spans, spans': Spans, r: nat, n: nat, x: nat)
    requires Replaced(spans, spans', r, n) && Sized(spans') && x in spans' && x != r
    ensures Filled(spans, x, spans'[x].pages)
  {
    var k := spans'[x].pages;
    forall p: nat | Inside(x, k, p) ensures Holds(spans, x, p) && x <= x {}
  }

  lemma FilledByBoth(spans: Spans, spans': Spans, a: nat, b: nat, r: nat)
    requires r in spans' && Replaced(spans, spans', r, spans'[r].pages) && Sized(spans')
    requires Filled(spans, r, spans'[r].pages)
    requires a in spans' && b in spans' && (a == r || b == r) && a + spans'[a].pages == b
    ensures Filled(spans, a, spans'[a].pages + spans'[b].pages)
  {
    NeighbourFilled(spans, spans', r, spans'[r].pages, if a == r then b else a);
    FilledJoin(spans, a, spans'[a].pages, b, spans'[b].pages);
  }

  lemma JoinedKey(spans: Spans, spans': Spans, a: nat, b: nat, r: nat, y: nat)
    requires Disjoint(spans') && Sized(spans') && r in spans' && Replaced(spans, spans', r, spans'[r].pages)
    requires a in spans' && b in spans' && (a == r || b == r) && a + spans'[a].pages == b
    ensures y in Join(spans', a, b) <==> y == a || (y in spans && !Inside(a, spans'[a].pages + spans'[b].pages, y))
  {
    InsideJoin(spans, spans', a, b, r);
    var n := spans'[a].pages + spans'[b].pages;
    assert Inside(r, spans'[r].pages, y) ==> Inside(a, n, y);
    if y in spans' && y != a && y != b {
      assert !Holds(spans', a, y) && !Holds(spans', b, y);
    }
  }

  lemma ReplacedJoin(spans: Spans, spans': Spans, a: nat, b: nat, r: nat)
    requires Disjoint(spans') && Sized(spans') && r in spans' && Replaced(spans, spans', r, spans'[r].pages)
    requires a in spans' && b in spans' && (a == r || b == r) && a + spans'[a].pages == b
    ensures Replaced(spans, Join(spans', a, b), a, spans'[a].pages + spans'[b].pages)
  {
    forall y ensures y in Join(spans', a, b) <==>
      y == a || (y in spans && !Inside(a, spans'[a].pages + spans'[b].pages, y))
    {
      JoinedKey(spans, spans', a, b, r, y);
    }
    hide Inside, Disjoint, Sized;
  }

  lemma EnclosesJoin(spans: Spans, s: nat, spans': Spans, a: nat, b: nat, r: nat)
    requires Disjoint(spans') && Sized(spans') && r in spans' && Replaced(spans, spans', r, spans'[r].pages)
    requires Free(spans', a) && Free(spans', b) && (a == r || b == r) && a + spans'[a].pages == b
    requires Encloses(spans, s, r, spans'[r].pages)
    ensures Encloses(spans, s, a, spans'[a].pages + spans'[b].pages)
  {
    InsideJoin(spans, spans', a, b, r);
  }

  /** Joining one more free neighbour to the span being returned keeps it a gathering. */
  lemma GatherMore(spans: Spans, s: nat, spans': Spans, a: nat, b: nat, r: nat)
    requires Disjoint(spans') && Sized(spans') && Gathered(spans, s, spans', r)
    requires Free(spans', a) && Free(spans', b) && (a == r || b == r)
    requires a + spans'[a].pages == b && spans'[a].pages + spans'[b].pages <= MAX_PAGE_NUM
    ensures Gathered(spans, s, Join(spans', a, b), a)
  {
    hide Disjoint, Sized, Filled, Replaced, Encloses;
    FilledByBoth(spans, spans', a, b, r);
    ReplacedJoin(spans, spans', a, b, r);
    EnclosesJoin(spans, s, spans', a, b, r);
  }

  /** A run of owned pages inside separated chunks stays within one chunk. */
  lemma RunWithinChunk(chunks: set<nat>, a: nat, n: nat) returns (c: nat)
    requires ChunksApart(chunks) && Separated(chunks) && n >= 1
    requires forall p :: Inside(a, n, p) ==> Owned(chunks, p)
    ensures c in chunks && c <= a && a + n <= c + MAX_PAGE_NUM
  {
    assert Inside(a, n, a);
    c :| c in chunks && Inside(c, MAX_PAGE_NUM, a);
    forall d | d in chunks ensures !Inside(d, MAX_PAGE_NUM, c + MAX_PAGE_NUM) {}
    assert !Owned(chunks, c + MAX_PAGE_NUM);
    assert !Inside(a, n, c + MAX_PAGE_NUM);
  }

  /** With separated chunks two neighbouring spans never exceed a chunk together. */
  lemma NeighboursFitOneChunk(t: Table, a: nat, b: nat)
    requires WellFormed(t) && Separated(t.chunks)
    requires a in t.spans && b in t.spans && a + t.spans[a].pages == b
    ensures t.spans[a].pages + t.spans[b].pages <= MAX_PAGE_NUM
  {
    forall p: nat | Inside(a, t.spans[a].pages + t.spans[b].pages, p) ensures Owned(t.chunks, p) {
      assert Holds(t.spans, if p < b then a else b, p);
    }
    var c := RunWithinChunk(t.chunks, a, t.spans[a].pages + t.spans[b].pages);
  }

  lemma FetchCoalesced(t: Table, n: nat, src: Source)
    requires WellFormed(t) && Coalesced(t.spans) && 1 <= n <= MAX_PAGE_NUM && CanFetch(t, n, src)
    requires Separated(Fetch(t, n, src).chunks)
    ensures Coalesced(Fetch(t, n, src).spans)
  {
    var t' := Fetch(t, n, src);
    FetchWellFormed(t, n, src);
    if src.Grow? {
      var c := src.first;
      forall a: nat, b: nat | Free(t'.spans, a) && Free(t'.spans, b) ensures a + t'.spans[a].pages != b {
        if a in t.spans && a != c { ApartFromNewChunk(t, c, a); }
        if b in t.spans && b != c { ApartFromNewChunk(t, c, b); }
        if a != c && b != c { assert Free(t.spans, a) && Free(t.spans, b); }
      }
    } else {
      forall a: nat, b: nat | Free(t'.spans, a) && Free(t'.spans, b) ensures a + t'.spans[a].pages != b {
        assert Free(t.spans, a) && Free(t.spans, b);
      }
    }
  }

  lemma ApartFromNewChunk(t: Table, c: nat, x: nat)
    requires WellFormed(t) && x in t.spans && Separated(t.chunks + {c}) && c !in t.chunks
    ensures x + t.spans[x].pages < c || c + MAX_PAGE_NUM < x
  {
    forall p: nat | Inside(x, t.spans[x].pages, p) ensures Owned(t.chunks, p) {
      assert Holds(t.spans, x, p);
    }
    assert forall d, e :: d in t.chunks && e in t.chunks && d < e ==> d in t.chunks + {c} && e in t.chunks + {c};
    var d := RunWithinChunk(t.chunks, x, t.spans[x].pages);
    assert d in t.chunks + {c} && c in t.chunks + {c};
  }

  lemma ReturnCoalesced(t: Table, s: nat, t': Table, r: nat)
    requires WellFormed(t) && Coalesced(t.spans) && Separated(t.chunks) && Returned(t, s, t', r)
    ensures Coalesced(t'.spans)
  {
    ReturnWellFormed(t, s, t', r);
    forall a: nat, b: nat | Free(t'.spans, a) && Free(t'.spans, b) ensures a + t'.spans[a].pages != b {
      if a != r && b != r {
        assert Free(t.spans, a) && Free(t.spans, b);
      } else if a + t'.spans[a].pages == b {
        NeighboursFitOneChunk(t', a, b);
      }
    }
  }

  /** Once nothing is handed out, every chunk is again one free span of 128 pages. */
  lemma AllReturned(t: Table)
    requires WellFormed(t) && Coalesced(t.spans) && Separated(t.chunks)
    requires forall s :: !Busy(t.spans, s)
    ensures t.spans == map c | c in t.chunks :: Run(MAX_PAGE_NUM, false)
  {
    forall c | c in t.chunks ensures c in t.spans && t.spans[c] == Run(MAX_PAGE_NUM, false) {
      ChunkWhole(t, c);
    }
    forall s | s in t.spans ensures s in t.chunks {
      assert Holds(t.spans, s, s);
      var c :| c in t.chunks && Inside(c, MAX_PAGE_NUM, s);
      ChunkWhole(t, c);
    }
  }

  lemma ChunkWhole(t: Table, c: nat)
    requires WellFormed(t) && Coalesced(t.spans) && Separated(t.chunks) && c in t.chunks
    requires forall s :: !Busy(t.spans, s)
    ensures c in t.spans && t.spans[c] == Run(MAX_PAGE_NUM, false)
  {
    assert Inside(c, MAX_PAGE_NUM, c);
    assert Owned(t.chunks, c);
    var s :| Holds(t.spans, s, c);
    SpanInChunk(t, s, c);
    assert !Busy(t.spans, c);
    var e := c + t.spans[c].pages;
    forall x | x in t.spans && c < x ensures e < x {
      assert !Busy(t.spans, x);
      assert Free(t.spans, c) && Free(t.spans, x);
    }
    assert forall x :: !Holds(t.spans, x, e);
    assert !Owned(t.chunks, e);
    assert !Inside(c, MAX_PAGE_NUM, e);
  }

  lemma SpanInChunk(t: Table, s: nat, c: nat)
    requires WellFormed(t) && Separated(t.chunks) && c in t.chunks && Holds(t.spans, s, c)
    ensures s == c
  {
    forall p: nat | Inside(s, t.spans[s].pages, p) ensures Owned(t.chunks, p) {
      assert Holds(t.spans, s, p);
    }
    var d := RunWithinChunk(t.chunks, s, t.spans[s].pages);
  }

  // ---- both operations are always possible ----

  lemma BeyondAll(chunks: set<nat>) returns (c: nat)
    ensures 1 <= c && forall d :: d in chunks ==> d + MAX_PAGE_NUM <= c
  {
    if chunks == {} {
      c := 1;
    } else {
      var d :| d in chunks;
      var rest := BeyondAll(chunks - {d});
      c := if rest < d + MAX_PAGE_NUM then d + MAX_PAGE_NUM else rest;
      assert forall e :: e in chunks && e != d ==> e in chunks - {d};
    }
  }

  lemma SmallestAbove(spans: Spans, n: nat, x: nat) returns (b: nat)
    requires Free(spans, x) && n < spans[x].pages
    ensures Free(spans, b) && n < spans[b].pages
    ensures forall y :: Free(spans, y) && n < spans[y].pages ==> spans[b].pages <= spans[y].pages
    decreases spans[x].pages
  {
    if y :| Free(spans, y) && n < spans[y].pages < spans[x].pages {
      b := SmallestAbove(spans, n, y);
    } else {
      b := x;
    }
  }

  /** If the system grants a chunk, a span can always be fetched. */
  lemma SomeSource(t: Table, n: nat) returns (src: Source)
    ensures CanFetch(t, n, src)
  {
    if s :| Free(t.spans, s) && t.spans[s].pages == n {
      src := Exact(s);
    } else if x :| Free(t.spans, x) && n < t.spans[x].pages {
      var b := SmallestAbove(t.spans, n, x);
      src := Split(b);
    } else {
      var c := BeyondAll(t.chunks);
      src := Grow(c);
    }
  }

  lemma {:induction false} GatherAll(t: Table, s: nat, spans': Spans, r: nat) returns (t'': Table, r'': nat)
    requires Gathered(t.spans, s, spans', r) && Partition(spans', t.chunks)
    ensures Returned(t, s, t'', r'')
    decreases |spans'|
  {
    if a: nat :| Free(spans', a) && a + spans'[a].pages == r && spans'[a].pages + spans'[r].pages <= MAX_PAGE_NUM {
      JoinShrinks(spans', a, r);
      GatherStep(t, s, spans', a, r, r);
      t'', r'' := GatherAll(t, s, Join(spans', a, r), a);
    } else if a: nat :|
      Free(spans', a) && r + spans'[r].pages == a && spans'[a].pages + spans'[r].pages <= MAX_PAGE_NUM {
      JoinShrinks(spans', r, a);
      GatherStep(t, s, spans', r, a, r);
      t'', r'' := GatherAll(t, s, Join(spans', r, a), r);
    } else {
      t'', r'' := t.(spans := spans'), r;
    }
  }

  lemma JoinShrinks(spans: Spans, a: nat, b: nat)
    requires a in spans && b in spans && a != b
    ensures |Join(spans, a, b)| < |spans|
  {
    assert Join(spans, a, b).Keys == spans.Keys - {b};
    assert |Join(spans, a, b).Keys| == |spans.Keys| - 1;
  }

  lemma GatherStep(t: Table, s: nat, spans': Spans, a: nat, b: nat, r: nat)
    requires Gathered(t.spans, s, spans', r) && Partition(spans', t.chunks) && (a == r || b == r)
    requires Free(spans', a) && Free(spans', b) && a + spans'[a].pages == b
    requires spans'[a].pages + spans'[b].pages <= MAX_PAGE_NUM
    ensures a != b && Gathered(t.spans, s, Join(spans', a, b), a) && Partition(Join(spans', a, b), t.chunks)
  {
    hide Gathered, Covers, Disjoint;
    assert spans'[a].pages >= 1;
    GatherMore(t.spans, s, spans', a, b, r);
    hide Partition;
    JoinPartition(spans', t.chunks, a, b);
  }

  /** A busy span can always be given back. */
  lemma SomeReturn(t: Table, s: nat) returns (t': Table, r: nat)
    requires WellFormed(t) && Busy(t.spans, s)
    ensures Returned(t, s, t', r)
  {
    var spans' := t.spans[s := Run(t.spans[s].pages, false)];
    RelabelPartition(t.spans, t.chunks, s, false);
    GatheredSelf(t, s);
    hide Gathered, Partition, Returned;
    t', r := GatherAll(t, s, spans', s);
  }

  lemma GatheredSelf(t: Table, s: nat)
    requires WellFormed(t) && Busy(t.spans, s)
    ensures Gathered(t.spans, s, t.spans[s := Run(t.spans[s].pages, false)], s)
  {
    var n := t.spans[s].pages;
    assert Filled(t.spans, s, n) by {
      forall p: nat | Inside(s, n, p) ensures Holds(t.spans, s, p) && s <= s {}
    }
    forall a | a in t.spans && Inside(s, n, a) ensures a == s {}
  }
}
