/** What the invariant means over whole runs of the memory pool. */
module PoolRuns {
  import opened Lists
  import opened Pages
  import opened Size
  import opened Stock
  import opened Slabs
  import opened Pool
  import opened PoolSafety

  /** Any interleaving of the threads, from the empty pool. */
  ghost predicate IsRun(states: seq<Pool>, actions: seq<Action>) {
    && |states| == |actions| + 1 && states[0] == Initial
    && forall i :: 0 <= i < |actions| ==>
      Enabled(states[i], actions[i]) && states[i + 1] == Apply(states[i], actions[i])
  }

  lemma {:induction false} RunsKeepInv(states: seq<Pool>, actions: seq<Action>, n: nat)
    requires IsRun(states, actions) && n < |states|
    ensures Inv(states[n])
  {
    hide Inv, Enabled, Apply;
    if n == 0 {
      InitialInv();
    } else {
      RunsKeepInv(states, actions, n - 1);
      StepKeepsInv(states[n - 1], actions[n - 1]);
    }
  }

  // ---- blocks in use ----

  ghost predicate LiveBlock(p: Pool, b: nat) {
    b in p.stock.blocks && p.stock.blocks[b].place.Live?
  }

  /** Bytes from a on, n of them, lie inside busy span s. */
  ghost predicate InsideSpan(spans: Spans, s: nat, a: nat, n: nat) {
    Busy(spans, s) && s * PAGE_SIZE <= a && a + n <= (s + spans[s].pages) * PAGE_SIZE
  }

  /** The size of the blocks of b's span: at least what was asked for, and within the span. */
  lemma BlockRoom(p: Pool, b: nat)
    requires Inv(p) && b in p.stock.blocks
    ensures var s := p.stock.blocks[b].span;
            && s in p.slabs && p.slabs[s].index < MAX_ARRAY_SIZE
            && InsideSpan(p.pages.spans, s, b, IndexToSize(p.slabs[s].index))
            && (LiveBlock(p, b) ==> 1 <= p.stock.blocks[b].place.bytes <= IndexToSize(p.slabs[s].index))
  {
    var x := p.stock.blocks[b];
    var index := p.slabs[x.span].index;
    assert InSlab(p.slabs, b, x);
    BlockInside(p, b, x.span, index, x.slot);
    if x.place.Live? {
      LiveSuits(p.slabs, p.stock, b);
      ClassFits(x.place.bytes);
    }
  }

  lemma BlockInside(p: Pool, b: nat, s: nat, index: nat, slot: nat)
    requires Inv(p) && s in p.slabs && p.slabs[s].index == index && index < MAX_ARRAY_SIZE && slot < BlockCount(index)
    requires b == Address(s, index, slot)
    ensures InsideSpan(p.pages.spans, s, b, IndexToSize(index))
  {
    SlotInside(s, index, slot);
    hide Stocked, WellFormed, ThreadsOk, Separated, Coalesced, PagesFor, BlockCount, Address;
  }

  lemma LiveSuits(slabs: map<nat, Slab>, k: Stock, b: nat)
    requires Classed(slabs, k) && b in k.blocks && k.blocks[b].place.Live? && k.blocks[b].span in slabs
    ensures Suits(k.blocks[b].place, k.blocks[b].span, slabs[k.blocks[b].span].index)
  {}

  lemma SpansApart(p: Pool, s: nat, r: nat, a: nat, n: nat, b: nat, m: nat)
    requires Inv(p) && InsideSpan(p.pages.spans, s, a, n) && InsideSpan(p.pages.spans, r, b, m)
    requires s != r && a < b && n >= 1 && m >= 1
    ensures a + n <= b
  {
    hide Stocked, ThreadsOk, SpansOk, Covers, ChunksApart, Coalesced, Separated;
  }

  /** Two carved blocks never overlap. */
  lemma BlocksApart(p: Pool, a: nat, b: nat)
    requires Inv(p) && a in p.stock.blocks && b in p.stock.blocks && a < b
    ensures p.stock.blocks[a].span in p.slabs
    ensures a + IndexToSize(p.slabs[p.stock.blocks[a].span].index) <= b
  {
    BlockRoom(p, a);
    BlockRoom(p, b);
    var x, y := p.stock.blocks[a], p.stock.blocks[b];
    var index, size := p.slabs[x.span].index, IndexToSize(p.slabs[x.span].index);
    if x.span == y.span {
      assert InSlab(p.slabs, a, x) && InSlab(p.slabs, b, y);
      SlotOrder(x.span, index, x.slot, y.slot);
    } else {
      SizesIncrease(index, index);
      SizesIncrease(p.slabs[y.span].index, p.slabs[y.span].index);
      hide Inv, IndexToSize;
      SpansApart(p, x.span, y.span, a, size, b, IndexToSize(p.slabs[y.span].index));
    }
  }

  lemma SlotOrder(s: nat, index: nat, i: nat, j: nat)
    requires index < MAX_ARRAY_SIZE && i < BlockCount(index) && j < BlockCount(index)
    requires Address(s, index, i) < Address(s, index, j)
    ensures Address(s, index, i) + IndexToSize(index) <= Address(s, index, j)
  {
    if i < j {
      SlotsApart(s, index, i, j);
    } else if j < i {
      SlotsApart(s, index, j, i);
    }
  }

  /** In every state of every run, blocks in use are disjoint byte ranges, each as long as was
      asked for and inside a span that the page cache has handed out. */
  lemma LiveBlocksDisjoint(states: seq<Pool>, actions: seq<Action>, n: nat)
    requires IsRun(states, actions) && n < |states|
    ensures var p := states[n];
            && (forall b :: LiveBlock(p, b) ==>
                  p.stock.blocks[b].place.bytes >= 1
                  && InsideSpan(p.pages.spans, p.stock.blocks[b].span, b, p.stock.blocks[b].place.bytes))
            && (forall a: nat, b: nat :: LiveBlock(p, a) && LiveBlock(p, b) && a < b ==>
              a + p.stock.blocks[a].place.bytes <= b)
  {
    hide Inv, Enabled, Apply, IndexToSize;
    RunsKeepInv(states, actions, n);
    var p := states[n];
    forall b | LiveBlock(p, b)
      ensures p.stock.blocks[b].place.bytes >= 1
      ensures InsideSpan(p.pages.spans, p.stock.blocks[b].span, b, p.stock.blocks[b].place.bytes)
    {
      BlockRoom(p, b);
    }
    forall a: nat, b: nat | LiveBlock(p, a) && LiveBlock(p, b) && a < b ensures a + p.stock.blocks[a].place.bytes <= b {
      BlockRoom(p, a);
      BlocksApart(p, a, b);
    }
  }

  /** In every state of every run, each carved block is in exactly one place. */
  lemma OnePlaceEach(states: seq<Pool>, actions: seq<Action>, n: nat, b: nat)
    requires IsRun(states, actions) && n < |states| && b in states[n].stock.blocks
    ensures var k := states[n].stock;
            && (forall p :: b in List(k, p) <==> p == k.blocks[b].place && !p.Live?)
            && forall p, i, j :: 0 <= i < j < |List(k, p)| ==> List(k, p)[i] != List(k, p)[j]
  {
    RunsKeepInv(states, actions, n);
    StockHolds(states[n]);
    hide Inv, Homed, Counted, Classed, Enabled, Apply;
    var k := states[n].stock;
    forall p ensures b in List(k, p) <==> p == k.blocks[b].place && !p.Live? {
      assert b in List(k, p) ==> At(k, b, p);
    }
  }

  // ---- use counts ----

  /** The blocks of span s that are not on its free list. */
  ghost function Outside(k: Stock, s: nat): set<nat> {
    set b | b in k.blocks && k.blocks[b].span == s && k.blocks[b].place != OnSpan(s)
  }

  lemma BlocksOfSpan(slabs: map<nat, Slab>, k: Stock, s: nat)
    requires Homed(slabs, k) && s in slabs && slabs[s].index < MAX_ARRAY_SIZE
    ensures forall b :: b in k.blocks && k.blocks[b].span == s <==> b in Addresses(s, slabs[s].index)
  {
    var index := slabs[s].index;
    hide BlockCount;
    forall b | b in k.blocks && k.blocks[b].span == s ensures b in Addresses(s, index) {
      assert InSlab(slabs, b, k.blocks[b]);
      AddressMember(s, index, k.blocks[b].slot);
    }
    forall b | b in Addresses(s, index) ensures b in k.blocks && k.blocks[b].span == s {
      var j :| 0 <= j < BlockCount(index) && Addresses(s, index)[j] == b;
      assert HasSlot(k, s, index, BlockCount(index) - 1 - j);
    }
  }

  /** The use count of a span is exactly the number of its blocks outside its free list. */
  lemma UsedIsOutside(slabs: map<nat, Slab>, k: Stock, s: nat)
    requires Stocked(slabs, k) && s in slabs
    ensures slabs[s].used == |Outside(k, s)| >= 1
  {
    var index, xs := slabs[s].index, List(k, OnSpan(s));
    BlocksOfSpan(slabs, k, s);
    AddressesDistinct(s, index);
    ElementCount(Addresses(s, index));
    assert NoDuplicates(xs);
    ElementCount(xs);
    FreeListOwn(slabs, k, s);
    forall b | b in Addresses(s, index) ensures b in xs <==> b !in Outside(k, s) {
      assert b in k.blocks && k.blocks[b].span == s;
      assert b in xs ==> At(k, b, OnSpan(s));
      assert k.blocks[b].place == OnSpan(s) ==> b in xs;
    }
    assert Elements(Addresses(s, index)) - Elements(xs) == Outside(k, s);
    assert Elements(xs) <= Elements(Addresses(s, index));
  }

  /** So a span leaves the central cache exactly when the block given back was its last one out. */
  lemma LeavesWhenLast(p: Pool, t: nat)
    requires Inv(p) && Enabled(p, GiveBack(t))
    ensures var s, b := p.threads[t].step.span, List(p.stock, Transit(t, p.threads[t].step.index))[0];
            s !in Apply(p, GiveBack(t)).slabs <==> Outside(p.stock, s) == {b}
  {
    var s, i := p.threads[t].step.span, p.threads[t].step.index;
    FoundHolds(p, t, i, s);
    TransitHead(p, t, i);
    StockHolds(p);
    UsedIsOutside(p.slabs, p.stock, s);
    var b := List(p.stock, Transit(t, i))[0];
    hide Inv, Stocked;
    assert b in Outside(p.stock, s);
    OneElement(Outside(p.stock, s), b);
  }

  lemma OneElement(a: set<nat>, b: nat)
    requires b in a
    ensures |a| == 1 <==> a == {b}
  {
    if |a| == 1 {
      SubsetSameSize({b}, a);
    }
  }

  // ---- thread caches ----

  /** Bounds in every state of every run. */
  lemma CacheBounds(states: seq<Pool>, actions: seq<Action>, n: nat, t: nat, i: nat)
    requires IsRun(states, actions) && n < |states| && t in states[n].threads && i < MAX_ARRAY_SIZE
    ensures |states[n].threads[t].maxSize| == MAX_ARRAY_SIZE
    ensures var max := states[n].threads[t].maxSize[i];
            1 <= max <= MAX_BLOCK_NUM + 1 && |List(states[n].stock, Cached(t, i))| < 2 * max &&
              1 <= Batch(max) <= MAX_BLOCK_NUM
  {
    hide Inv, Enabled, Apply, StepOk;
    RunsKeepInv(states, actions, n);
    ThreadHolds(states[n], t);
  }

  /** A step of one thread changes no other thread. */
  lemma OthersStay(p: Pool, a: Action, t: nat)
    requires Enabled(p, a) && a.t != t && t in p.threads
    ensures t in Apply(p, a).threads && Apply(p, a).threads[t] == p.threads[t]
  {
    hide List, Move, MoveMany, Put, Carved, Dropped, Fetch, CanFetch, Returned, SpanAt, Ready, ClassOf;
  }

  lemma OwnMaxSize(p: Pool, a: Action)
    requires Enabled(p, a) && !a.Start? && !a.Receive?
    ensures a.t in Apply(p, a).threads && Apply(p, a).threads[a.t].maxSize == p.threads[a.t].maxSize
  {
    hide ClassOf, Move, MoveMany, Put, List, CanFetch, Fetch, FetchedFirst, Returned, Carved, Dropped, SpanAt;
  }

  /** A list of a thread never lowers its maximum. */
  lemma MaxSizeGrows(p: Pool, a: Action, t: nat, i: nat)
    requires Inv(p) && Enabled(p, a) && t in p.threads && i < MAX_ARRAY_SIZE
    ensures t in Apply(p, a).threads && |p.threads[t].maxSize| == |Apply(p, a).threads[t].maxSize| == MAX_ARRAY_SIZE
    ensures p.threads[t].maxSize[i] <= Apply(p, a).threads[t].maxSize[i]
  {
    ThreadHolds(p, t);
    if a.t != t {
      OthersStay(p, a, t);
    } else if !a.Start? && !a.Receive? {
      OwnMaxSize(p, a);
    } else if a.Receive? {
      var j := p.threads[t].step.index;
      assert p.threads[t].maxSize[j] <= MAX_BLOCK_NUM + 1;
      ReceivedMaxSize(p, t);
    }
    hide Inv, Apply, ThreadOk;
  }

  lemma ReceivedMaxSize(p: Pool, t: nat)
    requires Enabled(p, Receive(t))
    ensures var j := p.threads[t].step.index;
            && t in Apply(p, Receive(t)).threads && j < |p.threads[t].maxSize|
            && Apply(p, Receive(t)).threads[t].maxSize == p.threads[t].maxSize[j := Batch(p.threads[t].maxSize[j]) + 1]
  {
    hide Move, MoveMany, List;
  }

  // ---- what one call does to the lists ----

  /** allocate with an empty cache: the block handed out is the front one of the chosen span, the
      rest of the batch is cached in the order of the span, and the span keeps what is behind it. */
  lemma FetchedBatch(p: Pool, t: nat, s: nat)
    requires Inv(p) && Enabled(p, TakeBlocks(t, s)) && Enabled(Apply(p, TakeBlocks(t, s)), Receive(t))
    ensures var i, bytes := p.threads[t].step.index, p.threads[t].step.bytes;
            var xs, k := List(p.stock, OnSpan(s)), Apply(Apply(p, TakeBlocks(t, s)), Receive(t)).stock;
            var asked := Min(p.threads[t].maxSize[i], MAX_BLOCK_NUM);
            var m := Min(asked, |xs|);
            && 1 <= m && List(k, Cached(t, i)) == xs[1..m] && List(k, OnSpan(s)) == xs[m..]
            && At(k, xs[0], Live(bytes)) && i == ClassOf(bytes)
            && Apply(Apply(p, TakeBlocks(t, s)), Receive(t)).threads[t].maxSize[i] == asked + 1
  {
    hide WellFormed, Coalesced, Separated, SpansOk, Homed, Counted, Classed, CanFetch;
    ThreadHolds(p, t);
    StockHolds(p);
    var i, bytes := p.threads[t].step.index, p.threads[t].step.bytes;
    BatchPositive(t, p.threads[t], p.stock, i);
    assert List(p.stock, Cached(t, i)) == [] && List(p.stock, Transit(t, i)) == [];
    hide Inv, Stocked, ThreadOk;
    assert Located(p.stock);
    BatchServed(p.stock, t, i, s, Batch(p.threads[t].maxSize[i]), bytes);
  }

  lemma BatchServed(k: Stock, t: nat, i: nat, s: nat, n: nat, bytes: nat)
    requires Located(k) && n >= 1 && List(k, OnSpan(s)) != []
    requires List(k, Cached(t, i)) == [] && List(k, Transit(t, i)) == []
    ensures var xs := List(k, OnSpan(s));
            var k1 := MoveMany(k, OnSpan(s), Transit(t, i), n);
            var k2 := MoveMany(k1, Transit(t, i), Cached(t, i), |List(k1, Transit(t, i))|);
            var k3, m := Move(k2, Cached(t, i), Live(bytes)), Min(n, |xs|);
            && 1 <= m && List(k3, Cached(t, i)) == xs[1..m] && List(k3, OnSpan(s)) == xs[m..]
            && At(k3, xs[0], Live(bytes))
  {
    var xs, m := List(k, OnSpan(s)), Min(n, |List(k, OnSpan(s))|);
    var k1 := MoveMany(k, OnSpan(s), Transit(t, i), n);
    var k2 := MoveMany(k1, Transit(t, i), Cached(t, i), |List(k1, Transit(t, i))|);
    hide Located, MoveMany, Move, List, Reverse;
    MoveManyLocated(k, OnSpan(s), Transit(t, i), n);
    MoveManyLists(k, OnSpan(s), Transit(t, i), n);
    assert Reverse(xs[..m]) + [] == Reverse(xs[..m]);
    MoveManyLocated(k1, Transit(t, i), Cached(t, i), m);
    MoveManyLists(k1, Transit(t, i), Cached(t, i), m);
    ReverseTwice(xs[..m]);
    assert Reverse(xs[..m])[..m] == Reverse(xs[..m]) && xs[..m] + [] == xs[..m];
    assert List(k2, Cached(t, i)) == xs[..m] && List(k2, OnSpan(s)) == xs[m..];
    HandedOver(k2, t, i, bytes);
    assert xs[..m][1..] == xs[1..m];
  }

  lemma HandedOver(k: Stock, t: nat, i: nat, bytes: nat)
    requires Located(k) && List(k, Cached(t, i)) != []
    ensures var k', xs := Move(k, Cached(t, i), Live(bytes)), List(k, Cached(t, i));
            && List(k', Cached(t, i)) == xs[1..] && At(k', xs[0], Live(bytes))
            && forall s :: List(k', OnSpan(s)) == List(k, OnSpan(s))
  {
    MoveLocated(k, Cached(t, i), Live(bytes));
    hide Located, OnlyMoved;
  }

  /** deallocate: the block goes to the front of its class, and when that makes the list twice its
      maximum, the front maximum of blocks leave it, last one first. */
  lemma FreedBlock(p: Pool, t: nat, b: nat)
    requires Inv(p) && Enabled(p, Deallocate(t, b))
    ensures var i := ClassOf(p.stock.blocks[b].place.bytes);
            var all, max, k := [b] + List(p.stock, Cached(t, i)), p.threads[t].maxSize[i],
              Apply(p, Deallocate(t, b)).stock;
            if |all| >= 2 * max then
              max <= |all| && List(k, Cached(t, i)) == all[max..] && List(k, Transit(t, i)) == Reverse(all[..max])
            else List(k, Cached(t, i)) == all && List(k, Transit(t, i)) == []
  {
    hide Inv, ThreadOk, ClassOf, Stocked, Put, List, MoveMany, Reverse;
    var i := ClassOf(p.stock.blocks[b].place.bytes);
    ThreadHolds(p, t);
    StockHolds(p);
    IdleLists(t, p.threads[t], p.stock, i);
    StockedLocated(p.slabs, p.stock);
    FreedLists(p.stock, t, b, i, p.threads[t].maxSize[i]);
  }

  lemma IdleLists(t: nat, th: Thread, k: Stock, i: nat)
    requires ThreadOk(t, th, k) && th.step.Idle?
    ensures List(k, Transit(t, i)) == []
  {
    hide Bounded;
  }

  lemma StockedLocated(slabs: map<nat, Slab>, k: Stock)
    requires Stocked(slabs, k)
    ensures Located(k)
  {
    hide Located, Homed, Counted, Classed;
  }

  lemma FreedLists(k: Stock, t: nat, b: nat, i: nat, max: nat)
    requires Located(k) && b in k.blocks && k.blocks[b].place.Live? && List(k, Transit(t, i)) == []
    ensures var all, kept := [b] + List(k, Cached(t, i)), Put(k, b, Cached(t, i));
            && List(kept, Cached(t, i)) == all && List(kept, Transit(t, i)) == []
            && (|all| >= max * 2 ==>
                  var gone := MoveMany(kept, Cached(t, i), Transit(t, i), max);
                  max <= |all| && List(gone, Cached(t, i)) == all[max..] &&
                    List(gone, Transit(t, i)) == Reverse(all[..max]))
  {
    hide Located, Put, List, MoveMany, Reverse;
    var all, kept := [b] + List(k, Cached(t, i)), Put(k, b, Cached(t, i));
    PutLocated(k, b, Cached(t, i));
    if |all| >= max * 2 {
      MoveManyLists(kept, Cached(t, i), Transit(t, i), max);
      assert Reverse(all[..max]) + [] == Reverse(all[..max]);
    }
  }

  // ---- drain ----

  /** Nothing in use, no thread in the middle of a step, every thread cache flushed. */
  ghost predicate Drained(p: Pool) {
    && (forall b :: b in p.stock.blocks ==> !p.stock.blocks[b].place.Live? && !p.stock.blocks[b].place.Cached?)
    && (forall t :: t in p.threads ==> p.threads[t].step.Idle?)
  }

  lemma NothingInTransit(p: Pool, t: nat, i: nat)
    requires Inv(p) && Drained(p)
    ensures List(p.stock, Transit(t, i)) == []
  {
    hide WellFormed, Coalesced, Separated, SpansOk, Stocked, Bounded;
  }

  /** Once everything is freed and flushed no span is busy, and if chunks do not touch each one is
      again a single free span of 128 pages, whatever happened before. */
  lemma Drain(states: seq<Pool>, actions: seq<Action>, n: nat)
    requires IsRun(states, actions) && n < |states| && Drained(states[n])
    ensures states[n].slabs == map[] && states[n].stock.blocks == map[]
    ensures forall s :: !Busy(states[n].pages.spans, s)
    ensures Separated(states[n].pages.chunks) ==>
      states[n].pages.spans == map c | c in states[n].pages.chunks :: Run(MAX_PAGE_NUM, false)
  {
    var p := states[n];
    hide Enabled, Apply, Inv, Separated;
    RunsKeepInv(states, actions, n);
    StockHolds(p);
    forall b | b in p.stock.blocks ensures p.stock.blocks[b].place == OnSpan(p.stock.blocks[b].span) {
      DrainedOnSpan(p, b);
    }
    assert forall s :: Outside(p.stock, s) == {};
    forall s: nat ensures s !in p.slabs {
      if s in p.slabs {
        UsedIsOutside(p.slabs, p.stock, s);
      }
    }
    forall b ensures b !in p.stock.blocks {
      assert b in p.stock.blocks ==> InSlab(p.slabs, b, p.stock.blocks[b]);
    }
    hide Stocked;
    PagesSpansHold(p);
    NoneBusy(p);
    hide SpansOk, WellFormed, Coalesced;
    if Separated(p.pages.chunks) {
      AllReturned(p.pages);
    }
  }

  lemma NoneBusy(p: Pool)
    requires SpansOk(p.pages.spans, p.slabs, p.held, p.threads) && p.slabs == map[] && Drained(p)
    ensures forall s :: !Busy(p.pages.spans, s)
  {
    assert forall t, s :: t in p.threads ==> !Holder(p.threads[t].step, s);
  }

  lemma DrainedOnSpan(p: Pool, b: nat)
    requires Inv(p) && Drained(p) && b in p.stock.blocks
    ensures p.stock.blocks[b].place == OnSpan(p.stock.blocks[b].span)
  {
    var x := p.stock.blocks[b];
    assert InSlab(p.slabs, b, x);
    assert Suits(x.place, x.span, p.slabs[x.span].index);
    assert !x.place.Live? ==> b in List(p.stock, x.place);
    if x.place.Transit? {
      NothingInTransit(p, x.place.thread, x.place.index);
    }
  }

  // ---- progress ----

  /** A thread inside an operation always has a next step, so no thread is ever stuck. */
  lemma Progress(p: Pool, t: nat) returns (a: Action)
    requires Inv(p) && t in p.threads && !p.threads[t].step.Idle?
    ensures a.t == t && Enabled(p, a) && !a.LookupNothing?
  {
    hide WellFormed, Coalesced, Separated, Stocked, SpansOk, Returned, CanFetch, PagesFor, ClassOf, OnlyTransit;
    hide Bounded;
    ThreadHolds(p, t);
    assert |p.threads[t].maxSize| == MAX_ARRAY_SIZE;
    match p.threads[t].step
    case Looking(i, bytes) =>
      if s :| s in p.slabs && p.slabs[s].index == i && List(p.stock, OnSpan(s)) != [] {
        a := TakeBlocks(t, s);
      } else {
        a := NoBlocks(t);
      }
    case Fetching(i, bytes) =>
      var source := SomeSource(p.pages, PagesFor(i));
      a := FetchPages(t, source);
    case Carving(i, bytes, s) => a := Carve(t);
    case Received(i, bytes) => a := Receive(t);
    case Returning(i) => a := NextReturn(p, t, i);
    case Found(i, s) =>
      FoundHolds(p, t, i, s);
      a := GiveBack(t);
    case Releasing(i, s) =>
      ReleasedBusy(p, t);
      var pages', r := SomeReturn(p.pages, s);
      a := ReturnPages(t, pages', r);
  }

  lemma ReleasedBusy(p: Pool, t: nat)
    requires Inv(p) && t in p.threads && p.threads[t].step.Releasing?
    ensures Busy(p.pages.spans, p.threads[t].step.span) && WellFormed(p.pages)
  {
    hide WellFormed, ThreadsOk, Stocked, Coalesced, Separated;
    assert Holder(p.threads[t].step, p.threads[t].step.span);
  }

  lemma NextReturn(p: Pool, t: nat, i: nat) returns (a: Action)
    requires Inv(p) && t in p.threads && p.threads[t].step == Returning(i)
    ensures a.t == t && Enabled(p, a) && !a.LookupNothing?
  {
    hide Inv, SpanAt;
    ThreadHolds(p, t);
    var xs := List(p.stock, Transit(t, i));
    if xs == [] {
      a := Finish(t);
    } else {
      TransitHead(p, t, i);
      LookupFindsHome(p, xs[0]);
      a := Lookup(t, p.stock.blocks[xs[0]].span);
      assert SpanAt(p.pages.spans, a.span, xs[0]);
    }
  }

  // ---- how long a call takes ----

  /** How many own steps are at most left of the operation thread t is in: an allocation has a fixed
      number of steps, a return has three for each block of the list and one to finish. */
  function Remaining(p: Pool, t: nat): nat
    requires t in p.threads
  {
    match p.threads[t].step
    case Idle => 0
    case Looking(_, _) => 4
    case Fetching(_, _) => 3
    case Carving(_, _, _) => 2
    case Received(_, _) => 1
    case Returning(i) => 3 * |List(p.stock, Transit(t, i))| + 1
    case Found(i, _) => 3 * |List(p.stock, Transit(t, i))|
    case Releasing(i, _) => 3 * |List(p.stock, Transit(t, i))| + 2
  }

  lemma MoveFrame(k: Stock, p: Place, q: Place, r: Place)
    requires r != p && r != q
    ensures List(Move(k, p, q), r) == List(k, r)
  {}

  lemma {:induction false} MoveManyFrame(k: Stock, p: Place, q: Place, n: nat, r: Place)
    requires r != p && r != q
    ensures List(MoveMany(k, p, q, n), r) == List(k, r)
    decreases n
  {
    hide Move, List;
    if n > 0 && List(k, p) != [] {
      MoveFrame(k, p, q, r);
      MoveManyFrame(Move(k, p, q), p, q, n - 1, r);
    }
  }

  lemma PutFrame(k: Stock, b: nat, q: Place, r: Place)
    requires b in k.blocks && r != q
    ensures List(Put(k, b, q), r) == List(k, r)
  {}

  lemma CarvedFrame(k: Stock, s: nat, addresses: seq<nat>, r: Place)
    requires r != OnSpan(s)
    ensures List(Carved(k, s, addresses), r) == List(k, r)
  {
    hide SlotOf;
  }

  lemma DroppedFrame(k: Stock, s: nat, r: Place)
    requires r != OnSpan(s)
    ensures List(Dropped(k, s), r) == List(k, r)
  {}

  lemma TakeFromFrame(p: Pool, t: nat, s: nat, r: Place)
    requires t in p.threads && (p.threads[t].step.Looking? || p.threads[t].step.Carving?) && s in p.slabs
    requires p.threads[t].step.index < |p.threads[t].maxSize| && r != OnSpan(s)
    requires r != Transit(t, p.threads[t].step.index)
    ensures List(TakeFrom(p, t, s).stock, r) == List(p.stock, r)
  {
    hide List, MoveMany;
    MoveManyFrame(p.stock, OnSpan(s), Transit(t, p.threads[t].step.index),
      Batch(p.threads[t].maxSize[p.threads[t].step.index]), r);
  }

  /** A step of one thread leaves every list that another thread carries as it is. */
  lemma OthersCarryOn(p: Pool, a: Action, t: nat, i: nat)
    requires Enabled(p, a) && a.t != t
    ensures List(Apply(p, a).stock, Transit(t, i)) == List(p.stock, Transit(t, i))
  {
    var u, k, r := a.t, p.stock, Transit(t, i);
    match a
    case AllocateHit(_, bytes) => MoveFrame(k, Cached(u, ClassOf(bytes)), Live(bytes), r);
    case TakeBlocks(_, s) => TakeFromFrame(p, u, s, r);
    case Carve(_) => CarveFrame(p, u, r);
    case Receive(_) => ReceiveFrame(p, u, r);
    case Deallocate(_, b) => DeallocateFrame(p, u, b, r);
    case LookupNothing(_) =>
    case GiveBack(_) => GiveBackFrame(p, u, r);
    case Flush(_, index) => MoveManyFrame(k, Cached(u, index), Transit(u, index), |List(k, Cached(u, index))|, r);
    case _ =>
  }

  lemma CarveFrame(p: Pool, t: nat, r: Place)
    requires Enabled(p, Carve(t)) && r.Transit? && r.thread != t
    ensures List(Apply(p, Carve(t)).stock, r) == List(p.stock, r)
  {
    hide List, Carved, TakeFrom;
    var step := p.threads[t].step;
    var k := Carved(p.stock, step.span, Addresses(step.span, step.index));
    CarvedFrame(p.stock, step.span, Addresses(step.span, step.index), r);
    TakeFromFrame(p.(slabs := p.slabs[step.span := Slab(step.index, 0)], held := p.held - {step.span}, stock := k), t,
      step.span, r);
  }

  lemma ReceiveFrame(p: Pool, t: nat, r: Place)
    requires Enabled(p, Receive(t)) && r.Transit? && r.thread != t
    ensures List(Apply(p, Receive(t)).stock, r) == List(p.stock, r)
  {
    hide List, Move, MoveMany;
    var i := p.threads[t].step.index;
    var from, here := Transit(t, i), Cached(t, i);
    MoveManyFrame(p.stock, from, here, |List(p.stock, from)|, r);
    MoveFrame(MoveMany(p.stock, from, here, |List(p.stock, from)|), here, Live(p.threads[t].step.bytes), r);
  }

  lemma DeallocateFrame(p: Pool, t: nat, b: nat, r: Place)
    requires Enabled(p, Deallocate(t, b)) && r.Transit? && r.thread != t
    ensures List(Apply(p, Deallocate(t, b)).stock, r) == List(p.stock, r)
  {
    hide List, Put, MoveMany, ClassOf;
    var index := ClassOf(p.stock.blocks[b].place.bytes);
    PutFrame(p.stock, b, Cached(t, index), r);
    MoveManyFrame(Put(p.stock, b, Cached(t, index)), Cached(t, index), Transit(t, index), p.threads[t].maxSize[index],
      r);
  }

  lemma GiveBackFrame(p: Pool, t: nat, r: Place)
    requires Enabled(p, GiveBack(t)) && r.Transit? && r.thread != t
    ensures List(Apply(p, GiveBack(t)).stock, r) == List(p.stock, r)
  {
    hide List, Move, Dropped;
    var step := p.threads[t].step;
    MoveFrame(p.stock, Transit(t, step.index), OnSpan(step.span), r);
    DroppedFrame(Move(p.stock, Transit(t, step.index), OnSpan(step.span)), step.span, r);
  }

  lemma OthersWait(p: Pool, a: Action, t: nat)
    requires Enabled(p, a) && a.t != t && t in p.threads
    ensures t in Apply(p, a).threads && Remaining(Apply(p, a), t) == Remaining(p, t)
  {
    OthersStay(p, a, t);
    hide Enabled, Apply, List;
    if p.threads[t].step.Returning? || p.threads[t].step.Found? || p.threads[t].step.Releasing? {
      OthersCarryOn(p, a, t, p.threads[t].step.index);
    }
  }

  lemma MoveFront(k: Stock, p: Place, q: Place)
    requires p != q && List(k, p) != [] && List(k, p)[0] in k.blocks
    ensures List(Move(k, p, q), p) == List(k, p)[1..]
  {}

  lemma FoundList(p: Pool, t: nat)
    requires Inv(p) && t in p.threads && p.threads[t].step.Found?
    ensures var xs := List(p.stock, Transit(t, p.threads[t].step.index)); xs != [] && xs[0] in p.stock.blocks
  {
    ThreadHolds(p, t);
    hide Inv, Bounded, OnlyTransit, List;
  }

  lemma GiveBackLess(p: Pool, t: nat)
    requires Inv(p) && Enabled(p, GiveBack(t))
    ensures Remaining(Apply(p, GiveBack(t)), t) < Remaining(p, t)
  {
    hide Inv, Move, List, Dropped;
    var step, k := p.threads[t].step, p.stock;
    var here := Transit(t, step.index);
    FoundList(p, t);
    MoveFront(k, here, OnSpan(step.span));
    DroppedFrame(Move(k, here, OnSpan(step.span)), step.span, here);
  }

  lemma AllocationLess(p: Pool, a: Action)
    requires Enabled(p, a) && (a.TakeBlocks? || a.NoBlocks? || a.FetchPages? || a.Carve? || a.Receive?)
    ensures Remaining(Apply(p, a), a.t) < Remaining(p, a.t)
  {
    hide List, MoveMany, Move, Carved, Fetch, CanFetch, Addresses, PagesFor, FetchedFirst, Batch;
  }

  lemma ReturnLess(p: Pool, a: Action)
    requires Enabled(p, a) && (a.Lookup? || a.LookupNothing? || a.ReturnPages? || a.Finish?)
    ensures Remaining(Apply(p, a), a.t) < Remaining(p, a.t)
  {
    hide Returned, SpanAt;
  }

  lemma OwnStepLess(p: Pool, a: Action)
    requires Inv(p) && Enabled(p, a) && a.t in p.threads && !p.threads[a.t].step.Idle?
    ensures a.t in Apply(p, a).threads && Remaining(Apply(p, a), a.t) < Remaining(p, a.t)
  {
    OwnStays(p, a);
    if a.GiveBack? {
      GiveBackLess(p, a.t);
    } else if a.Lookup? || a.LookupNothing? || a.ReturnPages? || a.Finish? {
      ReturnLess(p, a);
    } else {
      NotIdle(p, a);
      AllocationLess(p, a);
    }
    hide Inv, Enabled, Apply, Remaining;
  }

  lemma NotIdle(p: Pool, a: Action)
    requires Enabled(p, a) && a.t in p.threads && !p.threads[a.t].step.Idle?
    ensures !a.Start? && !a.AllocateHit? && !a.AllocateMiss? && !a.Deallocate? && !a.Flush?
  {
    hide Ready, List, CanFetch, Returned, SpanAt, ClassOf;
  }

  lemma OwnStays(p: Pool, a: Action)
    requires Enabled(p, a)
    ensures a.t in Apply(p, a).threads
  {
    hide List, Move, MoveMany, Put, Carved, Dropped, Fetch, CanFetch, Returned, SpanAt, ClassOf;
  }

  /** How many of the actions are steps of thread t. */
  function OwnSteps(actions: seq<Action>, t: nat): nat {
    if actions == [] then 0
    else OwnSteps(actions[..|actions| - 1], t) + if actions[|actions| - 1].t == t then 1 else 0
  }

  ghost predicate Busied(p: Pool, t: nat) {
    t in p.threads && !p.threads[t].step.Idle?
  }

  /** Whatever the other threads do, an operation that thread t is in ends after at most the
      remaining number of its own steps. */
  lemma {:induction false} CallBounded(states: seq<Pool>, actions: seq<Action>, t: nat, i: nat, j: nat)
    requires IsRun(states, actions) && i <= j < |states| && t in states[i].threads
    requires forall k :: i <= k < j ==> Busied(states[k], t)
    ensures t in states[j].threads
    ensures OwnSteps(actions[i..j], t) + Remaining(states[j], t) <= Remaining(states[i], t)
    decreases j
  {
    hide Inv, Enabled, Apply, Remaining;
    if i < j {
      var p, a := states[j - 1], actions[j - 1];
      CallBounded(states, actions, t, i, j - 1);
      RunsKeepInv(states, actions, j - 1);
      assert Enabled(p, a) && states[j] == Apply(p, a);
      assert Busied(p, t);
      assert actions[i..j][..j - i - 1] == actions[i..j - 1] && actions[i..j][j - i - 1] == a;
      if a.t == t {
        OwnStepLess(p, a);
      } else {
        OthersWait(p, a, t);
      }
    } else {
      assert actions[i..j] == [];
    }
  }
}
