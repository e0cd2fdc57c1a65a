/** Every step of the memory pool keeps its invariant. */
module PoolSafety {
  import opened Lists
  import opened Pages
  import opened Size
  import opened Stock
  import opened Slabs
  import opened Pool

  // ---- threads that do not take the step ----

  ghost predicate OtherLists(t: nat, k: Stock, k': Stock) {
    forall u, i :: u != t ==>
      List(k', Cached(u, i)) == List(k, Cached(u, i)) && List(k', Transit(u, i)) == List(k, Transit(u, i))
  }

  /** The blocks other threads carry are still blocks of the same span. */
  ghost predicate OtherHomes(t: nat, k: Stock, k': Stock) {
    forall b :: b in k.blocks && k.blocks[b].place.Transit? && k.blocks[b].place.thread != t ==>
      b in k'.blocks && k'.blocks[b].span == k.blocks[b].span
  }

  lemma OtherThreadOk(t: nat, u: nat, th: Thread, k: Stock, k': Stock)
    requires ThreadOk(u, th, k) && Listed(k) && u != t && OtherLists(t, k, k') && OtherHomes(t, k, k')
    ensures ThreadOk(u, th, k')
  {
    if th.step.Found? {
      assert At(k, List(k, Transit(u, th.step.index))[0], Transit(u, th.step.index));
    }
  }

  lemma OthersOk(threads: map<nat, Thread>, k: Stock, t: nat, th: Thread, k': Stock)
    requires ThreadsOk(threads, k) && Listed(k) && OtherLists(t, k, k') && OtherHomes(t, k, k') && ThreadOk(t, th, k')
    ensures ThreadsOk(threads[t := th], k')
  {
    hide ThreadOk, Listed, OtherHomes;
    forall u | u in threads && u != t ensures ThreadOk(u, threads[u], k') {
      OtherThreadOk(t, u, threads[u], k, k');
    }
  }

  lemma SameHomesOther(t: nat, k: Stock, k': Stock)
    requires SameHomes(k, k')
    ensures OtherHomes(t, k, k')
  {}

  lemma SameStockOther(t: nat, k: Stock)
    ensures OtherLists(t, k, k) && OtherHomes(t, k, k)
  {}

  /** A step of thread t that moves no block. */
  lemma OnlyStep(p: Pool, t: nat, th: Thread)
    requires Inv(p) && ThreadOk(t, th, p.stock)
    ensures ThreadsOk(p.threads[t := th], p.stock)
  {
    SameStockOther(t, p.stock);
    hide ThreadOk, OtherLists, OtherHomes, ThreadsOk, WellFormed, Coalesced, Homed, Counted, Classed, SpansOk;
    hide Placed, Unique;
    assert Listed(p.stock);
    OthersOk(p.threads, p.stock, t, th, p.stock);
  }

  // ---- spans ----

  ghost predicate SameClasses(slabs: map<nat, Slab>, slabs': map<nat, Slab>) {
    slabs'.Keys == slabs.Keys && forall s :: s in slabs ==> slabs'[s].index == slabs[s].index
  }

  ghost predicate HoldsNothing(step: Step) {
    !step.Carving? && !step.Releasing?
  }

  /** A step of a thread that holds no span before or after it. */
  lemma SpansFrame(spans: Spans, slabs: map<nat, Slab>, slabs': map<nat, Slab>, held: map<nat, nat>,
                   threads: map<nat, Thread>, t: nat, th: Thread)
    requires SpansOk(spans, slabs, held, threads) && SameClasses(slabs, slabs')
    requires HoldsNothing(th.step) && (t in threads ==> HoldsNothing(threads[t].step))
    ensures SpansOk(spans, slabs', held, threads[t := th])
  {}

  lemma KeepsSpans(p: Pool, t: nat, th: Thread)
    requires Inv(p) && HoldsNothing(th.step) && (t in p.threads ==> HoldsNothing(p.threads[t].step))
    ensures SpansOk(p.pages.spans, p.slabs, p.held, p.threads[t := th])
  {
    hide ThreadsOk, WellFormed, Coalesced, Stocked;
    SpansFrame(p.pages.spans, p.slabs, p.slabs, p.held, p.threads, t, th);
  }

  // ---- steps that move no block ----

  lemma StartKeeps(p: Pool, t: nat)
    requires Inv(p) && Enabled(p, Start(t))
    ensures Inv(Apply(p, Start(t)))
  {
    var th := Thread(seq(MAX_ARRAY_SIZE, _ => 1), Idle);
    assert ThreadOk(t, th, p.stock) by {
      assert forall i :: List(p.stock, Cached(t, i)) == [] && List(p.stock, Transit(t, i)) == [];
    }
    OnlyStep(p, t, th);
    KeepsSpans(p, t, th);
    hide ThreadsOk, WellFormed, Coalesced, Stocked, SpansOk, Separated;
  }

  lemma StepKeeps(p: Pool, t: nat, step: Step)
    requires Inv(p) && t in p.threads && HoldsNothing(step) && HoldsNothing(p.threads[t].step)
    requires ThreadOk(t, p.threads[t].(step := step), p.stock)
    ensures Inv(p.(threads := Go(p.threads, t, step)))
  {
    hide ThreadsOk, WellFormed, Coalesced, Stocked, SpansOk, Separated, ThreadOk;
    OnlyStep(p, t, p.threads[t].(step := step));
    KeepsSpans(p, t, p.threads[t].(step := step));
  }

  lemma ThreadHolds(p: Pool, t: nat)
    requires Inv(p) && t in p.threads
    ensures ThreadOk(t, p.threads[t], p.stock) && |p.threads[t].maxSize| == MAX_ARRAY_SIZE
  {
    hide WellFormed, Coalesced, Stocked, SpansOk, Separated, StepOk;
  }

  lemma StockHolds(p: Pool)
    requires Inv(p)
    ensures Stocked(p.slabs, p.stock)
  {
    hide WellFormed, Coalesced, ThreadsOk, SpansOk, Separated, Stocked;
  }

  lemma AllocateMissKeeps(p: Pool, t: nat, bytes: nat)
    requires Inv(p) && Enabled(p, AllocateMiss(t, bytes))
    ensures Inv(Apply(p, AllocateMiss(t, bytes)))
  {
    hide Inv;
    ThreadHolds(p, t);
    StepKeeps(p, t, Looking(ClassOf(bytes), bytes));
  }

  lemma NoBlocksKeeps(p: Pool, t: nat)
    requires Inv(p) && Enabled(p, NoBlocks(t))
    ensures Inv(Apply(p, NoBlocks(t)))
  {
    hide Inv;
    ThreadHolds(p, t);
    StepKeeps(p, t, Fetching(p.threads[t].step.index, p.threads[t].step.bytes));
  }

  lemma FinishKeeps(p: Pool, t: nat)
    requires Inv(p) && Enabled(p, Finish(t))
    ensures Inv(Apply(p, Finish(t)))
  {
    hide Inv;
    ThreadHolds(p, t);
    StepKeeps(p, t, Idle);
  }

  /** The lookup of a block finds exactly the span it was carved from. */
  lemma LookupFindsHome(p: Pool, b: nat)
    requires Inv(p) && b in p.stock.blocks
    ensures forall s :: SpanAt(p.pages.spans, s, b) <==> s == p.stock.blocks[b].span
  {
    var x := p.stock.blocks[b];
    assert InSlab(p.slabs, b, x);
    var index := p.slabs[x.span].index;
    SlotInside(x.span, index, x.slot);
    assert SpanAt(p.pages.spans, x.span, b) by {
      hide Stocked, WellFormed, Address, BlockCount, PagesFor;
    }
    OneHome(p.pages, x.span, b);
  }

  lemma OneHome(pages: Table, s: nat, b: nat)
    requires WellFormed(pages) && SpanAt(pages.spans, s, b)
    ensures forall r :: SpanAt(pages.spans, r, b) <==> r == s
  {
    hide Covers, ChunksApart;
    forall r | SpanAt(pages.spans, r, b) ensures r == s {
      assert r in pages.spans && s in pages.spans;
    }
  }

  lemma TransitHead(p: Pool, t: nat, i: nat)
    requires Inv(p) && List(p.stock, Transit(t, i)) != []
    ensures var b := List(p.stock, Transit(t, i))[0]; At(p.stock, b, Transit(t, i))
  {
    hide ThreadsOk, WellFormed, Coalesced, SpansOk, Separated, Homed, Counted, Classed, Unique, Placed;
    assert List(p.stock, Transit(t, i))[0] in List(p.stock, Transit(t, i));
  }

  lemma LookupKeeps(p: Pool, t: nat, s: nat)
    requires Inv(p) && Enabled(p, Lookup(t, s))
    ensures Inv(Apply(p, Lookup(t, s)))
  {
    hide Inv;
    var i := p.threads[t].step.index;
    ThreadHolds(p, t);
    TransitHead(p, t, i);
    LookupFindsHome(p, List(p.stock, Transit(t, i))[0]);
    hide SpanAt;
    StepKeeps(p, t, Found(i, s));
  }

  /** The branch that skips a block without a span is never taken. */
  lemma LookupNeverMisses(p: Pool, t: nat)
    requires Inv(p)
    ensures !Enabled(p, LookupNothing(t))
  {
    hide Inv, SpanAt;
    if t in p.threads && p.threads[t].step.Returning? && List(p.stock, Transit(t, p.threads[t].step.index)) != [] {
      var b := List(p.stock, Transit(t, p.threads[t].step.index))[0];
      TransitHead(p, t, p.threads[t].step.index);
      LookupFindsHome(p, b);
      assert SpanAt(p.pages.spans, p.stock.blocks[b].span, b);
    }
  }

  // ---- steps that move blocks between a cache, a list in transit and use ----

  /** Blocks of a class may move between the two places. */
  ghost predicate SameClass(p: Place, q: Place) {
    match p
    case Cached(_, i) => (q.Transit? && q.index == i) ||
      (q.Live? && 1 <= q.bytes <= MAX_MEMORY_SIZE && ClassOf(q.bytes) == i)
    case Transit(_, i) => q.Cached? && q.index == i
    case Live(bytes) => q.Cached? && q.index == ClassOf(bytes)
    case OnSpan(_) => false
  }

  lemma SameClassMoves(slabs: map<nat, Slab>, k: Stock, p: Place, q: Place, k': Stock)
    requires Stocked(slabs, k) && SameClass(p, q)
    ensures MovesSuit(slabs, k, p, q, k') && p != q && !p.OnSpan? && !q.OnSpan?
  {
    SameClassSuits(slabs, k, p, q, k');
    hide Located, Homed, Counted, Classed, MovesSuit, ClassOf;
  }

  lemma MovedElsewhere(k: Stock, p: Place, q: Place, k': Stock)
    requires List(k, p) != [] && Moved(k, p, q, k') && !p.OnSpan? && !q.OnSpan?
    ensures forall s :: List(k', OnSpan(s)) == List(k, OnSpan(s))
  {}

  lemma MoveStocked(slabs: map<nat, Slab>, k: Stock, p: Place, q: Place)
    requires Stocked(slabs, k) && SameClass(p, q) && List(k, p) != []
    ensures Stocked(slabs, Move(k, p, q)) && OnlyMoved(k, p, q, Move(k, p, q)) && Moved(k, p, q, Move(k, p, q))
  {
    hide Located, Homed, Counted, Classed, OnlyMoved, Move, MovesSuit, ClassOf, Moved, SameClass, List;
    SameClassMoves(slabs, k, p, q, Move(k, p, q));
    MoveLocated(k, p, q);
    MovedElsewhere(k, p, q, Move(k, p, q));
    MovedStocked(slabs, k, p, q, Move(k, p, q));
  }

  lemma MoveManyStocked(slabs: map<nat, Slab>, k: Stock, p: Place, q: Place, n: nat)
    requires Stocked(slabs, k) && SameClass(p, q) && !q.Live?
    ensures Stocked(slabs, MoveMany(k, p, q, n)) && OnlyMoved(k, p, q, MoveMany(k, p, q, n))
    ensures forall r :: r != p && r != q ==> List(MoveMany(k, p, q, n), r) == List(k, r)
    ensures |List(MoveMany(k, p, q, n), p)| == |List(k, p)| - Min(n, |List(k, p)|)
    ensures |List(MoveMany(k, p, q, n), q)| == |List(k, q)| + Min(n, |List(k, p)|)
  {
    hide Located, Homed, Counted, Classed, OnlyMoved, MoveMany, MovesSuit, ClassOf, SameClass, List;
    SameClassMoves(slabs, k, p, q, MoveMany(k, p, q, n));
    MoveManyLocated(k, p, q, n);
    MoveManyCounts(k, p, q, n);
    MovedStocked(slabs, k, p, q, MoveMany(k, p, q, n));
  }

  /** The parts of the invariant that a step of t on its own lists has to establish. */
  lemma OwnListsKeep(p: Pool, t: nat, th: Thread, k: Stock)
    requires Inv(p) && t in p.threads && HoldsNothing(p.threads[t].step) && HoldsNothing(th.step)
    requires Stocked(p.slabs, k) && OtherLists(t, p.stock, k) && OtherHomes(t, p.stock, k) && ThreadOk(t, th, k)
    ensures Inv(p.(threads := p.threads[t := th], stock := k))
  {
    KeepsSpans(p, t, th);
    assert Listed(p.stock);
    hide WellFormed, Coalesced, SpansOk, Separated, Homed, Counted, Classed, Unique, Placed, ThreadsOk, ThreadOk,
      Listed, OtherLists, OtherHomes;
    OthersOk(p.threads, p.stock, t, th, k);
  }

  ghost predicate OwnPlace(t: nat, p: Place) {
    match p
    case Cached(u, _) => u == t
    case Transit(u, _) => u == t
    case Live(_) => true
    case OnSpan(_) => true
  }

  lemma OwnMoveOther(t: nat, k: Stock, p: Place, q: Place, k': Stock)
    requires OwnPlace(t, p) && OwnPlace(t, q) && List(k, p) != [] && Moved(k, p, q, k')
    ensures OtherLists(t, k, k')
  {}

  lemma ServedThreadOk(t: nat, th: Thread, index: nat, bytes: nat, k: Stock, k': Stock)
    requires ThreadOk(t, th, k) && th.step.Idle? && List(k, Cached(t, index)) != []
    requires Moved(k, Cached(t, index), Live(bytes), k')
    ensures ThreadOk(t, th, k')
  {
    assert forall i: nat :: List(k', Transit(t, i)) == List(k, Transit(t, i));
    assert forall i: nat :: |List(k', Cached(t, i))| <= |List(k, Cached(t, i))|;
  }

  lemma AllocateHitKeeps(p: Pool, t: nat, bytes: nat)
    requires Inv(p) && t in p.threads && p.threads[t].step.Idle? && 1 <= bytes <= MAX_MEMORY_SIZE
    requires List(p.stock, Cached(t, ClassOf(bytes))) != []
    ensures Inv(p.(stock := Move(p.stock, Cached(t, ClassOf(bytes)), Live(bytes))))
  {
    var here, k := Cached(t, ClassOf(bytes)), Move(p.stock, Cached(t, ClassOf(bytes)), Live(bytes));
    hide Inv, Stocked, ClassOf, Move, Moved, ThreadOk;
    ThreadHolds(p, t);
    StockHolds(p);
    MoveStocked(p.slabs, p.stock, here, Live(bytes));
    SameHomesOther(t, p.stock, k);
    assert p.threads[t := p.threads[t]] == p.threads;
    hide SameHomes, OnlyMoved, OtherHomes, OtherLists;
    OwnMoveOther(t, p.stock, here, Live(bytes), k);
    ServedThreadOk(t, p.threads[t], ClassOf(bytes), bytes, p.stock, k);
    OwnListsKeep(p, t, p.threads[t], k);
  }

  /** All blocks in transit are cached and one of them is handed out. */
  ghost predicate Got(t: nat, i: nat, k: Stock, k': Stock) {
    && (forall r :: r != Cached(t, i) && r != Transit(t, i) ==> List(k', r) == List(k, r))
    && |List(k', Cached(t, i))| + 1 == |List(k, Cached(t, i))| + |List(k, Transit(t, i))|
    && |List(k', Transit(t, i))| == 0
  }

  lemma OnlyMovedHomes(k: Stock, p: Place, q: Place, k': Stock)
    requires OnlyMoved(k, p, q, k')
    ensures SameHomes(k, k')
  {
    hide SameHomes;
  }

  lemma SameHomesTransitive(k: Stock, k1: Stock, k2: Stock)
    requires SameHomes(k, k1) && SameHomes(k1, k2)
    ensures SameHomes(k, k2)
  {}

  lemma GotLists(t: nat, i: nat, k: Stock, all: Stock, q: Place, k': Stock)
    requires forall r :: r != Transit(t, i) && r != Cached(t, i) ==> List(all, r) == List(k, r)
    requires |List(all, Transit(t, i))| == 0
    requires |List(all, Cached(t, i))| == |List(k, Cached(t, i))| + |List(k, Transit(t, i))|
    requires List(all, Cached(t, i)) != [] && q.Live? && Moved(all, Cached(t, i), q, k')
    ensures Got(t, i, k, k')
  {}

  lemma GotStocked(slabs: map<nat, Slab>, k: Stock, t: nat, i: nat, bytes: nat)
    requires Stocked(slabs, k) && 1 <= bytes <= MAX_MEMORY_SIZE && i == ClassOf(bytes)
    requires |List(k, Transit(t, i))| >= 1
    ensures var all := MoveMany(k, Transit(t, i), Cached(t, i), |List(k, Transit(t, i))|);
            && Got(t, i, k, Move(all, Cached(t, i), Live(bytes)))
            && Stocked(slabs, Move(all, Cached(t, i), Live(bytes)))
            && SameHomes(k, Move(all, Cached(t, i), Live(bytes)))
  {
    var here, from, q := Cached(t, i), Transit(t, i), Live(bytes);
    var all := MoveMany(k, from, here, |List(k, from)|);
    hide Stocked, ClassOf, Move, MoveMany, List, SameHomes, OnlyMoved, Moved, Got;
    MoveManyStocked(slabs, k, from, here, |List(k, from)|);
    MoveStocked(slabs, all, here, q);
    OnlyMovedHomes(k, from, here, all);
    OnlyMovedHomes(all, here, q, Move(all, here, q));
    SameHomesTransitive(k, all, Move(all, here, q));
    GotLists(t, i, k, all, q, Move(all, here, q));
  }

  lemma GotThreadOk(t: nat, th: Thread, i: nat, bytes: nat, k: Stock, k': Stock)
    requires ThreadOk(t, th, k) && th.step == Received(i, bytes) && Got(t, i, k, k')
    ensures ThreadOk(t, Thread(th.maxSize[i := Batch(th.maxSize[i]) + 1], Idle), k')
  {}

  lemma GotOther(t: nat, i: nat, k: Stock, k': Stock)
    requires Got(t, i, k, k')
    ensures OtherLists(t, k, k')
  {}

  lemma ReceivedFacts(t: nat, th: Thread, i: nat, bytes: nat, k: Stock)
    requires ThreadOk(t, th, k) && th.step == Received(i, bytes)
    ensures 1 <= bytes <= MAX_MEMORY_SIZE && i == ClassOf(bytes) && |List(k, Transit(t, i))| >= 1
  {}

  lemma ReceivedKeeps(p: Pool, t: nat, i: nat, bytes: nat, th: Thread, k: Stock)
    requires Inv(p) && t in p.threads && p.threads[t].step == Received(i, bytes) && i < |p.threads[t].maxSize|
    requires Got(t, i, p.stock, k) && Stocked(p.slabs, k) && SameHomes(p.stock, k)
    requires th == Thread(p.threads[t].maxSize[i := Batch(p.threads[t].maxSize[i]) + 1], Idle)
    ensures Inv(p.(threads := p.threads[t := th], stock := k))
  {
    hide Inv, Stocked, Got, OtherHomes, OtherLists, ThreadOk, SameHomes, Batch;
    ThreadHolds(p, t);
    SameHomesOther(t, p.stock, k);
    GotOther(t, i, p.stock, k);
    GotThreadOk(t, p.threads[t], i, bytes, p.stock, k);
    OwnListsKeep(p, t, th, k);
  }

  lemma ReceiveKeeps(p: Pool, t: nat, i: nat, bytes: nat)
    requires Inv(p) && t in p.threads && p.threads[t].step == Received(i, bytes) && i < |p.threads[t].maxSize|
    ensures var th, here, from := p.threads[t], Cached(t, i), Transit(t, i);
      Inv(p.(threads := p.threads[t := Thread(th.maxSize[i := Batch(th.maxSize[i]) + 1], Idle)],
             stock := Move(MoveMany(p.stock, from, here, |List(p.stock, from)|), here, Live(bytes))))
  {
    hide Inv, Stocked, ClassOf, Move, MoveMany, Got, ThreadOk, List, SameHomes, Batch;
    var th := p.threads[t];
    var k := Move(MoveMany(p.stock, Transit(t, i), Cached(t, i), |List(p.stock, Transit(t, i))|), Cached(t, i),
      Live(bytes));
    ThreadHolds(p, t);
    StockHolds(p);
    ReceivedFacts(t, th, i, bytes, p.stock);
    GotStocked(p.slabs, p.stock, t, i, bytes);
    ReceivedKeeps(p, t, i, bytes, Thread(th.maxSize[i := Batch(th.maxSize[i]) + 1], Idle), k);
  }

  lemma FlushKeeps(p: Pool, t: nat, index: nat)
    requires Inv(p) && Enabled(p, Flush(t, index))
    ensures Inv(Apply(p, Flush(t, index)))
  {
    var k := MoveMany(p.stock, Cached(t, index), Transit(t, index), |List(p.stock, Cached(t, index))|);
    hide Inv, Stocked, ClassOf, MoveMany;
    ThreadHolds(p, t);
    StockHolds(p);
    MoveManyStocked(p.slabs, p.stock, Cached(t, index), Transit(t, index), |List(p.stock, Cached(t, index))|);
    SameHomesOther(t, p.stock, k);
    hide SameHomes, OnlyMoved, OtherHomes;
    assert OtherLists(t, p.stock, k);
    assert ThreadOk(t, p.threads[t].(step := Returning(index)), k);
    OwnListsKeep(p, t, p.threads[t].(step := Returning(index)), k);
  }

  lemma PutStocked(slabs: map<nat, Slab>, k: Stock, b: nat, q: Place)
    requires Stocked(slabs, k) && b in k.blocks && SameClass(k.blocks[b].place, q) && k.blocks[b].place.Live?
    ensures Stocked(slabs, Put(k, b, q)) && SameHomes(k, Put(k, b, q))
    ensures forall r :: r != q ==> List(Put(k, b, q), r) == List(k, r)
    ensures List(Put(k, b, q), q) == [b] + List(k, q)
  {
    hide Located, Homed, Counted, Classed, OnlyMoved, Put, MovesSuit, SameClass, SameHomes, List;
    var from := k.blocks[b].place;
    SameClassMoves(slabs, k, from, q, Put(k, b, q));
    NotLive(from, q);
    PutLocated(k, b, q);
    OnlyMovedHomes(k, from, q, Put(k, b, q));
    MovedStocked(slabs, k, from, q, Put(k, b, q));
  }

  lemma NotLive(p: Place, q: Place)
    requires p.Live? && SameClass(p, q)
    ensures q.Cached?
  {
    hide ClassOf;
  }

  /** Thread t cached one more block of class i. */
  ghost predicate Cached1(t: nat, i: nat, k: Stock, k': Stock) {
    && (forall r :: r != Cached(t, i) ==> List(k', r) == List(k, r))
    && |List(k', Cached(t, i))| == |List(k, Cached(t, i))| + 1
  }

  lemma FewEnough(t: nat, th: Thread, i: nat, k: Stock, k': Stock)
    requires ThreadOk(t, th, k) && th.step.Idle? && i < MAX_ARRAY_SIZE && Cached1(t, i, k, k')
    requires |List(k', Cached(t, i))| < th.maxSize[i] * 2
    ensures ThreadOk(t, th, k')
  {
    assert forall j: nat :: List(k', Transit(t, j)) == List(k, Transit(t, j));
  }

  lemma TooMany(t: nat, th: Thread, i: nat, k: Stock, k1: Stock, k2: Stock)
    requires ThreadOk(t, th, k) && th.step.Idle? && i < MAX_ARRAY_SIZE && Cached1(t, i, k, k1)
    requires |List(k1, Cached(t, i))| >= th.maxSize[i] * 2
    requires |List(k2, Cached(t, i))| == |List(k1, Cached(t, i))| - th.maxSize[i]
    requires forall r :: r != Cached(t, i) && r != Transit(t, i) ==> List(k2, r) == List(k1, r)
    ensures ThreadOk(t, th.(step := Returning(i)), k2)
  {}

  lemma SurplusOther(t: nat, i: nat, k: Stock, k1: Stock, k2: Stock)
    requires Cached1(t, i, k, k1)
    requires forall r :: r != Cached(t, i) && r != Transit(t, i) ==> List(k2, r) == List(k1, r)
    ensures OtherLists(t, k, k1) && OtherLists(t, k, k2)
  {}

  lemma DeallocateKeeps(p: Pool, t: nat, b: nat, i: nat)
    requires Inv(p) && b in p.stock.blocks && p.stock.blocks[b].place.Live?
    requires t in p.threads && p.threads[t].step.Idle? && i == ClassOf(p.stock.blocks[b].place.bytes)
    requires i < MAX_ARRAY_SIZE
    requires i < |p.threads[t].maxSize|
    ensures var kept, max := Put(p.stock, b, Cached(t, i)), p.threads[t].maxSize[i];
            if |List(kept, Cached(t, i))| >= max * 2 then
              Inv(p.(stock := MoveMany(kept, Cached(t, i), Transit(t, i), max),
                threads := Go(p.threads, t, Returning(i))))
            else Inv(p.(stock := kept))
  {
    hide Inv, Stocked, ClassOf, MoveMany, Put, ThreadOk, OtherLists, OtherHomes, SameHomes, List;
    var th, kept, max := p.threads[t], Put(p.stock, b, Cached(t, i)), p.threads[t].maxSize[i];
    ThreadHolds(p, t);
    StockHolds(p);
    PutStocked(p.slabs, p.stock, b, Cached(t, i));
    var gone := MoveMany(kept, Cached(t, i), Transit(t, i), max);
    SameHomesOther(t, p.stock, kept);
    if |List(kept, Cached(t, i))| >= max * 2 {
      MoveManyStocked(p.slabs, kept, Cached(t, i), Transit(t, i), max);
      OnlyMovedHomes(kept, Cached(t, i), Transit(t, i), gone);
      SameHomesTransitive(p.stock, kept, gone);
      SameHomesOther(t, p.stock, gone);
      hide OnlyMoved;
      SurplusOther(t, i, p.stock, kept, gone);
      TooMany(t, th, i, p.stock, kept, gone);
      OwnListsKeep(p, t, th.(step := Returning(i)), gone);
    } else {
      SurplusOther(t, i, p.stock, kept, kept);
      FewEnough(t, th, i, p.stock, kept);
      assert p.threads[t := th] == p.threads;
      OwnListsKeep(p, t, th, kept);
    }
  }

  // ---- taking blocks from a span ----

  /** Everything about the slabs but the use count of s. */
  ghost predicate StockedBut(slabs: map<nat, Slab>, k: Stock, s: nat) {
    Located(k) && Homed(slabs, k) && Classed(slabs, k) && Counted(slabs - {s}, k)
  }

  lemma StockedIsStockedBut(slabs: map<nat, Slab>, k: Stock, s: nat)
    requires Stocked(slabs, k) && s in slabs
    ensures StockedBut(slabs, k, s) && slabs[s].index < MAX_ARRAY_SIZE && slabs[s].used >= 1
    ensures slabs[s].used + |List(k, OnSpan(s))| == BlockCount(slabs[s].index)
  {
    hide Located, Homed, Classed, BlockCount;
  }

  /** n blocks of span s, or all it has, are now in transit with thread t. */
  ghost predicate Taken(t: nat, i: nat, s: nat, n: nat, k: Stock, k': Stock) {
    && (forall r :: r != OnSpan(s) && r != Transit(t, i) ==> List(k', r) == List(k, r))
    && |List(k', OnSpan(s))| + Min(n, |List(k, OnSpan(s))|) == |List(k, OnSpan(s))|
    && |List(k', Transit(t, i))| == |List(k, Transit(t, i))| + Min(n, |List(k, OnSpan(s))|)
  }

  lemma TakeMoves(k: Stock, t: nat, i: nat, s: nat, n: nat)
    requires Located(k)
    ensures var k' := MoveMany(k, OnSpan(s), Transit(t, i), n);
            Located(k') && OnlyMoved(k, OnSpan(s), Transit(t, i), k') && SameHomes(k, k') && Taken(t, i, s, n, k, k')
  {
    hide Located, OnlyMoved, MoveMany, SameHomes, List;
    var k' := MoveMany(k, OnSpan(s), Transit(t, i), n);
    MoveManyLocated(k, OnSpan(s), Transit(t, i), n);
    MoveManyCounts(k, OnSpan(s), Transit(t, i), n);
    OnlyMovedHomes(k, OnSpan(s), Transit(t, i), k');
  }

  lemma TakenSuits(slabs: map<nat, Slab>, k: Stock, t: nat, s: nat, k': Stock)
    requires s in slabs && Classed(slabs, k)
    ensures MovesSuit(slabs, k, OnSpan(s), Transit(t, slabs[s].index), k')
  {
    SameClassSuits(slabs, k, OnSpan(s), Transit(t, slabs[s].index), k');
    hide MovesSuit, Classed;
  }

  lemma TakeStocked(slabs: map<nat, Slab>, k: Stock, t: nat, s: nat, n: nat)
    requires s in slabs && StockedBut(slabs, k, s) && slabs[s].index < MAX_ARRAY_SIZE && n >= 1
    requires List(k, OnSpan(s)) != []
    requires slabs[s].used + |List(k, OnSpan(s))| == BlockCount(slabs[s].index)
    ensures var i := slabs[s].index;
            var k' := MoveMany(k, OnSpan(s), Transit(t, i), n);
            && Taken(t, i, s, n, k, k') && SameHomes(k, k')
            && Stocked(slabs[s := slabs[s].(used := slabs[s].used + Min(n, |List(k, OnSpan(s))|))], k')
  {
    hide Located, Homed, Classed, Counted, OnlyMoved, MoveMany, SameHomes, MovesSuit, BlockCount, List;
    var i := slabs[s].index;
    var k' := MoveMany(k, OnSpan(s), Transit(t, i), n);
    TakenSuits(slabs, k, t, s, k');
    TakeMoves(k, t, i, s, n);
    UsedStocked(slabs, k, OnSpan(s), Transit(t, i), k', s, slabs[s].used + Min(n, |List(k, OnSpan(s))|));
  }

  lemma TakenThreadOk(t: nat, th: Thread, i: nat, bytes: nat, s: nat, k: Stock, k': Stock)
    requires ThreadOk(t, th, k) && (th.step == Looking(i, bytes) || th.step == Carving(i, bytes, s))
    requires List(k, OnSpan(s)) != []  && i < |th.maxSize| && Taken(t, i, s, Batch(th.maxSize[i]), k, k')
    ensures ThreadOk(t, th.(step := Received(i, bytes)), k')
  {}

  lemma TakenOther(t: nat, i: nat, s: nat, n: nat, k: Stock, k': Stock)
    requires Taken(t, i, s, n, k, k')
    ensures OtherLists(t, k, k')
  {}

  lemma BatchPositive(t: nat, th: Thread, k: Stock, i: nat)
    requires ThreadOk(t, th, k) && i < MAX_ARRAY_SIZE
    ensures |th.maxSize| == MAX_ARRAY_SIZE && 1 <= Batch(th.maxSize[i]) <= MAX_BLOCK_NUM
  {
    hide StepOk;
  }

  lemma PagesSpansHold(p: Pool)
    requires Inv(p)
    ensures WellFormed(p.pages) && (Separated(p.pages.chunks) ==> Coalesced(p.pages.spans))
    ensures SpansOk(p.pages.spans, p.slabs, p.held, p.threads) && ThreadsOk(p.threads, p.stock) && Listed(p.stock)
  {
    hide WellFormed, Coalesced, SpansOk, Separated, Homed, Counted, Classed, Unique, Placed, ThreadsOk, Listed;
  }

  lemma TakeBlocksKeeps(p: Pool, t: nat, s: nat, i: nat, bytes: nat)
    requires Inv(p) && t in p.threads && p.threads[t].step == Looking(i, bytes) && i < |p.threads[t].maxSize|
    requires s in p.slabs && p.slabs[s].index == i && List(p.stock, OnSpan(s)) != []
    ensures Inv(TakeFrom(p, t, s))
  {
    hide Inv, Stocked, StockedBut, Taken, MoveMany, BlockCount, Batch, ThreadOk, OtherLists, OtherHomes, SameHomes;
    hide List;
    hide WellFormed, Separated, Coalesced, ThreadsOk, Listed, SpansOk;
    ThreadHolds(p, t);
    StockHolds(p);
    StockedIsStockedBut(p.slabs, p.stock, s);
    var n := Batch(p.threads[t].maxSize[i]);
    BatchPositive(t, p.threads[t], p.stock, i);
    TakeStocked(p.slabs, p.stock, t, s, n);
    var p' := TakeFrom(p, t, s);
    var th := p.threads[t].(step := Received(i, bytes));
    TakenThreadOk(t, p.threads[t], i, bytes, s, p.stock, p'.stock);
    TakenOther(t, i, s, n, p.stock, p'.stock);
    SameHomesOther(t, p.stock, p'.stock);
    PagesSpansHold(p);
    OthersOk(p.threads, p.stock, t, th, p'.stock);
    SpansFrame(p.pages.spans, p.slabs, p'.slabs, p.held, p.threads, t, th);
    InvOf(p');
  }

  lemma InvOf(p: Pool)
    requires WellFormed(p.pages) && (Separated(p.pages.chunks) ==> Coalesced(p.pages.spans))
    requires Stocked(p.slabs, p.stock) && ThreadsOk(p.threads, p.stock)
    requires SpansOk(p.pages.spans, p.slabs, p.held, p.threads)
    ensures Inv(p)
  {
    hide WellFormed, Coalesced, Separated, Stocked, ThreadsOk, SpansOk;
  }

  // ---- a span fetched from the page cache and carved ----

  /** One new busy span f of n pages, everything else handed out as before. */
  ghost predicate HandedOut(spans: Spans, f: nat, n: nat, spans': Spans) {
    && !Busy(spans, f) && f in spans' && spans'[f] == Run(n, true)
    && (forall x :: Busy(spans', x) <==> Busy(spans, x) || x == f)
    && forall x :: Busy(spans, x) ==> spans'[x] == spans[x]
  }

  lemma HandedOutSpansOk(spans: Spans, f: nat, n: nat, spans': Spans, slabs: map<nat, Slab>, held: map<nat, nat>,
                         threads: map<nat, Thread>, t: nat, th: Thread)
    requires HandedOut(spans, f, n, spans') && SpansOk(spans, slabs, held, threads)
    requires t in threads && HoldsNothing(threads[t].step)
    requires th.step.Carving? && th.step.span == f && PagesFor(th.step.index) == n
    ensures SpansOk(spans', slabs, held[f := t], threads[t := th])
  {
    hide PagesFor;
    assert f !in slabs && f !in held;
    forall u | u in threads && threads[u].step.Carving? && u != t
      ensures Busy(spans, threads[u].step.span) && threads[u].step.span != f
    {
      assert Holder(threads[u].step, threads[u].step.span);
    }
  }

  lemma FetchPagesOk(pages: Table, n: nat, source: Source)
    requires WellFormed(pages) && (Separated(pages.chunks) ==> Coalesced(pages.spans))
    requires 1 <= n <= MAX_PAGE_NUM && CanFetch(pages, n, source)
    ensures var t := Fetch(pages, n, source); WellFormed(t) && (Separated(t.chunks) ==> Coalesced(t.spans))
  {
    var t := Fetch(pages, n, source);
    FetchWellFormed(pages, n, source);
    if Separated(t.chunks) {
      assert Separated(pages.chunks) by {
        assert forall c :: c in pages.chunks ==> c in t.chunks;
      }
      FetchCoalesced(pages, n, source);
    }
  }

  lemma FetchPagesKeeps(p: Pool, t: nat, i: nat, bytes: nat, source: Source)
    requires Inv(p) && t in p.threads && p.threads[t].step == Fetching(i, bytes)
    requires 1 <= PagesFor(i) <= MAX_PAGE_NUM && CanFetch(p.pages, PagesFor(i), source)
    ensures var s := FetchedFirst(p.pages, PagesFor(i), source);
            Inv(p.(pages := Fetch(p.pages, PagesFor(i), source), held := p.held[s := t],
                   threads := Go(p.threads, t, Carving(i, bytes, s))))
  {
    hide Inv, Stocked, OtherLists, OtherHomes, CanFetch, Fetch, FetchedFirst, PagesFor;
    hide WellFormed, Separated, Coalesced, Listed, SpansOk, ThreadsOk;
    var n, s := PagesFor(i), FetchedFirst(p.pages, PagesFor(i), source);
    var th := p.threads[t].(step := Carving(i, bytes, s));
    ThreadHolds(p, t);
    StockHolds(p);
    PagesSpansHold(p);
    OnlyStep(p, t, th);
    hide ThreadOk;
    FetchPagesOk(p.pages, n, source);
    FetchHandsOut(p.pages, n, source);
    HandedOutSpansOk(p.pages.spans, s, n, Fetch(p.pages, n, source).spans, p.slabs, p.held, p.threads, t, th);
    InvOf(p.(pages := Fetch(p.pages, n, source), held := p.held[s := t],
      threads := Go(p.threads, t, Carving(i, bytes, s))));
  }

  lemma HomeIsSlab(p: Pool, s: nat, b: nat)
    requires Inv(p) && b in p.stock.blocks && SpanAt(p.pages.spans, s, b)
    ensures s in p.slabs
  {
    LookupFindsHome(p, b);
    assert InSlab(p.slabs, b, p.stock.blocks[b]);
  }

  /** The slots of a span that is not carved yet are new addresses. */
  lemma FreshAddresses(p: Pool, s: nat, i: nat)
    requires Inv(p) && Busy(p.pages.spans, s) && s !in p.slabs && i < MAX_ARRAY_SIZE
    requires p.pages.spans[s].pages == PagesFor(i)
    ensures forall b :: b in Addresses(s, i) ==> b !in p.stock.blocks
  {
    hide Inv, PagesFor, BlockCount, Address;
    forall b | b in Addresses(s, i) ensures b !in p.stock.blocks {
      var j :| 0 <= j < |Addresses(s, i)| && Addresses(s, i)[j] == b;
      SlotInside(s, i, BlockCount(i) - 1 - j);
      assert SpanAt(p.pages.spans, s, b);
      if b in p.stock.blocks {
        HomeIsSlab(p, s, b);
      }
    }
  }

  lemma CarvedStocked(slabs: map<nat, Slab>, k: Stock, s: nat, i: nat)
    requires Stocked(slabs, k) && s !in slabs && i < MAX_ARRAY_SIZE
    requires forall b :: b in Addresses(s, i) ==> b !in k.blocks
    ensures var k' := Carved(k, s, Addresses(s, i));
            && StockedBut(slabs[s := Slab(i, 0)], k', s) && |List(k', OnSpan(s))| == BlockCount(i)
            && (forall r :: r != OnSpan(s) ==> List(k', r) == List(k, r))
  {
    hide Located, Homed, NoDuplicates, BlockCount;
    var k' := Carved(k, s, Addresses(s, i));
    AddressesDistinct(s, i);
    NotCarvedYet(slabs, k, s);
    CarvedLocated(k, s, Addresses(s, i));
    CarvedHomed(slabs, k, s, Slab(i, 0));
    assert slabs[s := Slab(i, 0)] - {s} == slabs;
    CarvedClassed(slabs, k, s, i);
    hide Classed;
  }

  lemma CarvedClassed(slabs: map<nat, Slab>, k: Stock, s: nat, i: nat)
    requires Homed(slabs, k) && Classed(slabs, k) && s !in slabs && i < MAX_ARRAY_SIZE
    ensures Classed(slabs[s := Slab(i, 0)], Carved(k, s, Addresses(s, i)))
  {
    var k' := Carved(k, s, Addresses(s, i));
    hide BlockCount, Address;
    forall a | a in k'.blocks && k'.blocks[a].span in slabs[s := Slab(i, 0)]
      ensures Suits(k'.blocks[a].place, k'.blocks[a].span, slabs[s := Slab(i, 0)][k'.blocks[a].span].index)
    {
      if a !in Addresses(s, i) {
        assert InSlab(slabs, a, k.blocks[a]);
      }
    }
  }

  lemma CarvedOther(t: nat, k: Stock, s: nat, addresses: seq<nat>, th: Thread)
    requires forall b :: b in addresses ==> b !in k.blocks
    requires forall r :: r != OnSpan(s) ==> List(Carved(k, s, addresses), r) == List(k, r)
    requires ThreadOk(t, th, k) && th.step.Carving?
    ensures OtherLists(t, k, Carved(k, s, addresses)) && OtherHomes(t, k, Carved(k, s, addresses))
    ensures ThreadOk(t, th, Carved(k, s, addresses))
  {
    hide List;
  }

  /** A held span becomes a slab of its holder's class. */
  lemma CarveSpansOk(spans: Spans, slabs: map<nat, Slab>, held: map<nat, nat>, threads: map<nat, Thread>, t: nat,
                     s: nat, slab: Slab, th: Thread)
    requires SpansOk(spans, slabs, held, threads) && t in threads && threads[t].step.Carving?
    requires threads[t].step.span == s
    requires slab.index == threads[t].step.index && HoldsNothing(th.step)
    ensures SpansOk(spans, slabs[s := slab], held - {s}, threads[t := th])
  {
    hide PagesFor;
    assert Holder(threads[t].step, s);
  }

  lemma HeldSpan(p: Pool, t: nat, i: nat, bytes: nat, s: nat)
    requires Inv(p) && t in p.threads && p.threads[t].step == Carving(i, bytes, s)
    ensures Busy(p.pages.spans, s) && s !in p.slabs && p.pages.spans[s].pages == PagesFor(i)
  {
    hide PagesFor, WellFormed, ThreadsOk, Stocked, Coalesced, Separated;
    assert Holder(p.threads[t].step, s);
  }

  lemma CarveKeeps(p: Pool, t: nat, i: nat, bytes: nat, s: nat)
    requires Inv(p) && t in p.threads && p.threads[t].step == Carving(i, bytes, s) && i < MAX_ARRAY_SIZE
    requires i < |p.threads[t].maxSize|
    ensures Inv(TakeFrom(p.(slabs := p.slabs[s := Slab(i, 0)], held := p.held - {s},
                            stock := Carved(p.stock, s, Addresses(s, i))), t, s))
  {
    hide Inv, Stocked, StockedBut, Taken, MoveMany, BlockCount, Batch, ThreadOk, OtherLists, OtherHomes, SameHomes;
    hide List;
    hide WellFormed, Separated, Coalesced, ThreadsOk, Listed, SpansOk, Carved, Addresses, PagesFor, Busy;
    ThreadHolds(p, t);
    StockHolds(p);
    PagesSpansHold(p);
    HeldSpan(p, t, i, bytes, s);
    FreshAddresses(p, s, i);
    var slabs0, k0 := p.slabs[s := Slab(i, 0)], Carved(p.stock, s, Addresses(s, i));
    CarvedStocked(p.slabs, p.stock, s, i);
    CarvedOther(t, p.stock, s, Addresses(s, i), p.threads[t]);
    OthersOk(p.threads, p.stock, t, p.threads[t], k0);
    assert p.threads[t := p.threads[t]] == p.threads;
    CarveTake(p, t, i, bytes, s, slabs0, k0);
  }

  lemma CarveTake(p: Pool, t: nat, i: nat, bytes: nat, s: nat, slabs0: map<nat, Slab>, k0: Stock)
    requires t in p.threads && p.threads[t].step == Carving(i, bytes, s) && i < MAX_ARRAY_SIZE
    requires i < |p.threads[t].maxSize|
    requires WellFormed(p.pages) && (Separated(p.pages.chunks) ==> Coalesced(p.pages.spans))
    requires SpansOk(p.pages.spans, p.slabs, p.held, p.threads)
    requires slabs0 == p.slabs[s := Slab(i, 0)] && StockedBut(slabs0, k0, s) && |List(k0, OnSpan(s))| == BlockCount(i)
    requires ThreadsOk(p.threads, k0) && ThreadOk(t, p.threads[t], k0)
    ensures Inv(TakeFrom(p.(slabs := slabs0, held := p.held - {s}, stock := k0), t, s))
  {
    hide Inv, Stocked, Taken, MoveMany, BlockCount, Batch, ThreadOk, OtherLists, OtherHomes, SameHomes, List;
    hide WellFormed, Separated, Coalesced, ThreadsOk, Listed, SpansOk;
    var n := Batch(p.threads[t].maxSize[i]);
    BatchPositive(t, p.threads[t], k0, i);
    BlockCountPositive(i);
    assert Listed(k0) by { StockedButListed(slabs0, k0, s); }
    hide StockedBut;
    TakeStocked(slabs0, k0, t, s, n);
    var p' := TakeFrom(p.(slabs := slabs0, held := p.held - {s}, stock := k0), t, s);
    var th := p.threads[t].(step := Received(i, bytes));
    TakenThreadOk(t, p.threads[t], i, bytes, s, k0, p'.stock);
    TakenOther(t, i, s, n, k0, p'.stock);
    SameHomesOther(t, k0, p'.stock);
    OthersOk(p.threads, k0, t, th, p'.stock);
    assert p'.slabs == p.slabs[s := p'.slabs[s]];
    CarveSpansOk(p.pages.spans, p.slabs, p.held, p.threads, t, s, p'.slabs[s], th);
    InvOf(p');
  }

  lemma StockedButListed(slabs: map<nat, Slab>, k: Stock, s: nat)
    requires StockedBut(slabs, k, s)
    ensures Listed(k)
  {
    hide Listed, Homed, Classed, Counted, Unique, Placed;
  }

  // ---- blocks given back to their span ----

  /** The front block of thread t's list in transit is back on the free list of its span s. */
  ghost predicate Back(t: nat, i: nat, s: nat, k: Stock, k': Stock) {
    && (forall r :: r != OnSpan(s) && r != Transit(t, i) ==> List(k', r) == List(k, r))
    && |List(k', OnSpan(s))| == |List(k, OnSpan(s))| + 1
  }

  lemma BackMoves(slabs: map<nat, Slab>, k: Stock, t: nat, i: nat, s: nat)
    requires Located(k) && List(k, Transit(t, i)) != []
    requires var b := List(k, Transit(t, i))[0]; b in k.blocks && k.blocks[b].span == s
    ensures var k' := Move(k, Transit(t, i), OnSpan(s));
            && Located(k') && OnlyMoved(k, Transit(t, i), OnSpan(s), k') && Back(t, i, s, k, k')
            && MovesSuit(slabs, k, Transit(t, i), OnSpan(s), k')
  {
    MoveLocated(k, Transit(t, i), OnSpan(s));
    var k', b := Move(k, Transit(t, i), OnSpan(s)), List(k, Transit(t, i))[0];
    hide OnlyMoved, Move;
    forall a | At(k, a, Transit(t, i)) && At(k', a, OnSpan(s)) ensures a == b {
      assert a in List(k', OnSpan(s));
      assert a !in List(k, OnSpan(s));
    }
  }

  /** Some blocks of span s are still out: its use count falls by one. */
  lemma BackStocked(slabs: map<nat, Slab>, k: Stock, t: nat, i: nat, s: nat)
    requires Stocked(slabs, k) && s in slabs && slabs[s].used > 1 && List(k, Transit(t, i)) != []
    requires var b := List(k, Transit(t, i))[0]; b in k.blocks && k.blocks[b].span == s
    ensures var k' := Move(k, Transit(t, i), OnSpan(s));
            && Back(t, i, s, k, k') && SameHomes(k, k')
            && Stocked(slabs[s := slabs[s].(used := slabs[s].used - 1)], k')
  {
    StockedIsStockedBut(slabs, k, s);
    hide Located, Homed, Classed, Counted, OnlyMoved, Move, SameHomes, MovesSuit, BlockCount;
    BackMoves(slabs, k, t, i, s);
    var k' := Move(k, Transit(t, i), OnSpan(s));
    OnlyMovedHomes(k, Transit(t, i), OnSpan(s), k');
    UsedStocked(slabs, k, Transit(t, i), OnSpan(s), k', s, slabs[s].used - 1);
  }

  lemma ListedPlaced(slabs: map<nat, Slab>, k: Stock, p: Place, q: Place, k': Stock, s: nat)
    requires Stocked(slabs, k) && OnlyMoved(k, p, q, k') && MovesSuit(slabs, k, p, q, k')
    ensures Homed(slabs, k') && Classed(slabs, k') && SameHomes(k, k')
  {
    hide Located, Homed, Classed, Counted, MovesSuit;
    SameHomesHomed(slabs, k, slabs, k');
    MovedClassed(slabs, k, p, q, k');
  }

  lemma CountedWithout(slabs: map<nat, Slab>, k: Stock, k': Stock, s: nat)
    requires Counted(slabs, k) && forall r :: r != s ==> List(k', OnSpan(r)) == List(k, OnSpan(r))
    ensures Counted(slabs - {s}, k')
  {
    hide BlockCount, List;
  }

  /** The last block of span s is back: the whole span leaves the central cache. */
  lemma LastBackStocked(slabs: map<nat, Slab>, k: Stock, t: nat, i: nat, s: nat)
    requires Stocked(slabs, k) && s in slabs && slabs[s].used == 1 && List(k, Transit(t, i)) != []
    requires var b := List(k, Transit(t, i))[0]; b in k.blocks && k.blocks[b].span == s
    ensures var k' := Dropped(Move(k, Transit(t, i), OnSpan(s)), s);
            && Stocked(slabs - {s}, k') && OtherHomes(t, k, k')
            && (forall r :: r != OnSpan(s) && r != Transit(t, i) ==> List(k', r) == List(k, r))
  {
    StockedIsStockedBut(slabs, k, s);
    var back := Move(k, Transit(t, i), OnSpan(s));
    hide Located, Homed, Classed, Counted, OnlyMoved, Move, SameHomes, MovesSuit, BlockCount, Dropped, OtherHomes;
    BackMoves(slabs, k, t, i, s);
    ListedPlaced(slabs, k, Transit(t, i), OnSpan(s), back, s);
    CountedWithout(slabs, k, back, s);
    DroppedStocked(slabs, back, s);
    DroppedOtherHomes(t, i, s, k, back, Dropped(back, s));
  }

  lemma DroppedOtherHomes(t: nat, i: nat, s: nat, k: Stock, back: Stock, k': Stock)
    requires OnlyMoved(k, Transit(t, i), OnSpan(s), back)
    requires forall a :: a in back.blocks && back.blocks[a].place != OnSpan(s) ==>
      a in k'.blocks && k'.blocks[a] == back.blocks[a]
    ensures OtherHomes(t, k, k')
  {
    forall b | b in k.blocks && k.blocks[b].place.Transit? && k.blocks[b].place.thread != t
      ensures b in k'.blocks && k'.blocks[b].span == k.blocks[b].span
    {
      assert At(back, b, k.blocks[b].place);
    }
  }

  lemma ReturningThreadOk(t: nat, th: Thread, i: nat, s: nat, k: Stock, k': Stock)
    requires ThreadOk(t, th, k) && th.step == Found(i, s)
    requires forall r :: r != OnSpan(s) && r != Transit(t, i) ==> List(k', r) == List(k, r)
    ensures ThreadOk(t, th.(step := Returning(i)), k') && ThreadOk(t, th.(step := Releasing(i, s)), k')
    ensures OtherLists(t, k, k')
  {}

  /** What a thread that found the span of its front block can rely on. */
  lemma FoundHolds(p: Pool, t: nat, i: nat, s: nat)
    requires Inv(p) && t in p.threads && p.threads[t].step == Found(i, s)
    ensures List(p.stock, Transit(t, i)) != []
    ensures var b := List(p.stock, Transit(t, i))[0]; b in p.stock.blocks && p.stock.blocks[b].span == s
    ensures s in p.slabs && p.slabs[s].used >= 1
  {
    hide WellFormed, Coalesced, Separated, SpansOk, Located, Classed;
    ThreadHolds(p, t);
    var b := List(p.stock, Transit(t, i))[0];
    assert InSlab(p.slabs, b, p.stock.blocks[b]);
  }

  lemma ReleaseSpansOk(spans: Spans, slabs: map<nat, Slab>, held: map<nat, nat>, threads: map<nat, Thread>, t: nat,
                       s: nat, th: Thread)
    requires SpansOk(spans, slabs, held, threads) && t in threads && HoldsNothing(threads[t].step)
    requires s in slabs && th.step.Releasing? && th.step.span == s
    ensures SpansOk(spans, slabs - {s}, held[s := t], threads[t := th])
  {
    hide PagesFor;
  }

  lemma GiveBackKeeps(p: Pool, t: nat, i: nat, s: nat)
    requires Inv(p) && t in p.threads && p.threads[t].step == Found(i, s) && s in p.slabs
    ensures var back, slab := Move(p.stock, Transit(t, i), OnSpan(s)), p.slabs[s];
            slab.used >= 1 &&
            if slab.used == 1 then
              Inv(p.(stock := Dropped(back, s), slabs := p.slabs - {s}, held := p.held[s := t],
                     threads := Go(p.threads, t, Releasing(i, s))))
            else
              Inv(p.(stock := back, slabs := p.slabs[s := slab.(used := slab.used - 1)],
                     threads := Go(p.threads, t, Returning(i))))
  {
    hide Inv, Stocked, Move, Dropped, ThreadOk, OtherLists, OtherHomes, SameHomes, List, Back;
    hide WellFormed, Separated, Coalesced, ThreadsOk, Listed, SpansOk;
    StockHolds(p);
    ThreadHolds(p, t);
    PagesSpansHold(p);
    FoundHolds(p, t, i, s);
    var back, th := Move(p.stock, Transit(t, i), OnSpan(s)), p.threads[t];
    if p.slabs[s].used == 1 {
      LastBackStocked(p.slabs, p.stock, t, i, s);
      var k := Dropped(back, s);
      ReturningThreadOk(t, th, i, s, p.stock, k);
      OthersOk(p.threads, p.stock, t, th.(step := Releasing(i, s)), k);
      ReleaseSpansOk(p.pages.spans, p.slabs, p.held, p.threads, t, s, th.(step := Releasing(i, s)));
      InvOf(p.(stock := k, slabs := p.slabs - {s}, held := p.held[s := t],
        threads := Go(p.threads, t, Releasing(i, s))));
    } else {
      GiveOneBack(p, t, i, s);
    }
  }

  lemma GiveOneBack(p: Pool, t: nat, i: nat, s: nat)
    requires Inv(p) && t in p.threads && p.threads[t].step == Found(i, s) && s in p.slabs && p.slabs[s].used > 1
    ensures Inv(p.(stock := Move(p.stock, Transit(t, i), OnSpan(s)),
                   slabs := p.slabs[s := p.slabs[s].(used := p.slabs[s].used - 1)],
                   threads := Go(p.threads, t, Returning(i))))
  {
    hide Inv, Stocked, Move, ThreadOk, OtherLists, OtherHomes, SameHomes, List;
    hide WellFormed, Separated, Coalesced, ThreadsOk, Listed, SpansOk;
    StockHolds(p);
    ThreadHolds(p, t);
    PagesSpansHold(p);
    FoundHolds(p, t, i, s);
    BackStocked(p.slabs, p.stock, t, i, s);
    var back, th := Move(p.stock, Transit(t, i), OnSpan(s)), p.threads[t].(step := Returning(i));
    var slabs' := p.slabs[s := p.slabs[s].(used := p.slabs[s].used - 1)];
    ReturningThreadOk(t, p.threads[t], i, s, p.stock, back);
    SameHomesOther(t, p.stock, back);
    OthersOk(p.threads, p.stock, t, th, back);
    SpansFrame(p.pages.spans, p.slabs, slabs', p.held, p.threads, t, th);
    InvOf(p.(stock := back, slabs := slabs', threads := Go(p.threads, t, Returning(i))));
  }

  /** Giving back span s takes exactly s out of the busy spans. */
  lemma ReturnHandsBack(pages: Table, s: nat, pages': Table, r: nat)
    requires WellFormed(pages) && Returned(pages, s, pages', r)
    ensures forall x :: Busy(pages'.spans, x) <==> Busy(pages.spans, x) && x != s
    ensures forall x :: Busy(pages'.spans, x) ==> pages'.spans[x] == pages.spans[x]
  {
    hide Covers, ChunksApart, Disjoint, Filled, Maximal;
    assert Inside(r, pages'.spans[r].pages, s);
  }

  lemma HandedBackSpansOk(spans: Spans, s: nat, spans': Spans, slabs: map<nat, Slab>, held: map<nat, nat>,
                          threads: map<nat, Thread>, t: nat, th: Thread)
    requires forall x :: Busy(spans', x) <==> Busy(spans, x) && x != s
    requires forall x :: Busy(spans', x) && Busy(spans, x) ==> spans'[x] == spans[x]
    requires SpansOk(spans, slabs, held, threads) && t in threads && threads[t].step.Releasing?
    requires threads[t].step.span == s
    requires HoldsNothing(th.step)
    ensures SpansOk(spans', slabs, held - {s}, threads[t := th])
  {
    hide PagesFor;
    assert Holder(threads[t].step, s);
    forall u | u in threads && threads[u].step.Carving?
      ensures Busy(spans, threads[u].step.span) && threads[u].step.span != s
    {
      assert Holder(threads[u].step, threads[u].step.span);
    }
  }

  lemma ReleasedThreadOk(t: nat, th: Thread, i: nat, s: nat, k: Stock)
    requires ThreadOk(t, th, k) && th.step == Releasing(i, s)
    ensures ThreadOk(t, th.(step := Returning(i)), k)
  {}

  lemma ReturnPagesKeeps(p: Pool, t: nat, i: nat, s: nat, pages': Table, r: nat)
    requires Inv(p) && t in p.threads && p.threads[t].step == Releasing(i, s) && Returned(p.pages, s, pages', r)
    ensures Inv(p.(pages := pages', held := p.held - {s}, threads := Go(p.threads, t, Returning(i))))
  {
    hide Inv, Stocked, ThreadOk, WellFormed, Separated, Coalesced, ThreadsOk, Listed, SpansOk, Gathered, Maximal;
    StockHolds(p);
    ThreadHolds(p, t);
    PagesSpansHold(p);
    ReturnWellFormed(p.pages, s, pages', r);
    if Separated(pages'.chunks) {
      ReturnCoalesced(p.pages, s, pages', r);
    }
    ReturnHandsBack(p.pages, s, pages', r);
    var th := p.threads[t].(step := Returning(i));
    HandedBackSpansOk(p.pages.spans, s, pages'.spans, p.slabs, p.held, p.threads, t, th);
    ReleasedThreadOk(t, p.threads[t], i, s, p.stock);
    OnlyStep(p, t, th);
    InvOf(p.(pages := pages', held := p.held - {s}, threads := Go(p.threads, t, Returning(i))));
  }

  // ---- all steps ----

  /** Steps of a thread that runs allocate or deallocate on its own lists. */
  lemma CacheStepKeeps(p: Pool, a: Action)
    requires Inv(p) && Enabled(p, a)
    requires a.Start? || a.AllocateHit? || a.AllocateMiss? || a.Receive? || a.Deallocate? || a.Flush?
    ensures Inv(Apply(p, a))
  {
    hide Inv, ClassOf, Move, MoveMany, Put, List, TakeFrom, CanFetch, Fetch, FetchedFirst, Returned;
    match a
    case Start(t) => StartKeeps(p, t);
    case AllocateHit(t, bytes) => AllocateHitKeeps(p, t, bytes);
    case AllocateMiss(t, bytes) => AllocateMissKeeps(p, t, bytes);
    case Receive(t) => ReceiveKeeps(p, t, p.threads[t].step.index, p.threads[t].step.bytes);
    case Deallocate(t, b) => DeallocateKeeps(p, t, b, ClassOf(p.stock.blocks[b].place.bytes));
    case Flush(t, index) => FlushKeeps(p, t, index);
    case _ =>
  }

  /** Steps that fetch a span or a batch of blocks. */
  lemma FetchStepKeeps(p: Pool, a: Action)
    requires Inv(p) && Enabled(p, a)
    requires a.TakeBlocks? || a.NoBlocks? || a.FetchPages? || a.Carve?
    ensures Inv(Apply(p, a))
  {
    hide Inv, ClassOf, Move, MoveMany, Put, List, TakeFrom, CanFetch, Fetch, FetchedFirst, Returned;
    var step := p.threads[a.t].step;
    match a
    case TakeBlocks(t, s) => TakeBlocksKeeps(p, t, s, step.index, step.bytes);
    case NoBlocks(t) => NoBlocksKeeps(p, t);
    case FetchPages(t, source) =>
      PagesForBounds(step.index);
      FetchPagesKeeps(p, t, step.index, step.bytes, source);
    case Carve(t) => CarveKeeps(p, t, step.index, step.bytes, step.span);
    case _ =>
  }

  /** Steps that return blocks and spans. */
  lemma ReturnStepKeeps(p: Pool, a: Action)
    requires Inv(p) && Enabled(p, a)
    requires a.Lookup? || a.LookupNothing? || a.GiveBack? || a.ReturnPages? || a.Finish?
    ensures Inv(Apply(p, a))
  {
    hide Inv, ClassOf, Move, MoveMany, Put, List, TakeFrom, CanFetch, Fetch, FetchedFirst, Returned;
    var step := p.threads[a.t].step;
    match a
    case Lookup(t, s) => LookupKeeps(p, t, s);
    case LookupNothing(t) => LookupNeverMisses(p, t);
    case GiveBack(t) => GiveBackKeeps(p, t, step.index, step.span);
    case ReturnPages(t, pages', r) => ReturnPagesKeeps(p, t, step.index, step.span, pages', r);
    case Finish(t) => FinishKeeps(p, t);
    case _ =>
  }

  lemma StepKeepsInv(p: Pool, a: Action)
    requires Inv(p) && Enabled(p, a)
    ensures Inv(Apply(p, a))
  {
    hide Inv, Enabled, Apply;
    if a.Start? || a.AllocateHit? || a.AllocateMiss? || a.Receive? || a.Deallocate? || a.Flush? {
      CacheStepKeeps(p, a);
    } else if a.TakeBlocks? || a.NoBlocks? || a.FetchPages? || a.Carve? {
      FetchStepKeeps(p, a);
    } else {
      ReturnStepKeeps(p, a);
    }
  }

  lemma InitialInv()
    ensures Inv(Initial)
  {}
}
