/** The three caches together as a state machine. One step is one stretch of code that runs
    without releasing a lock, so a run is any interleaving of the threads at lock release points.
    The system always has another chunk to give. */
module Pool {
  import opened Lists
  import opened Pages
  import opened Size
  import opened Stock
  import opened Slabs

  /** Where a thread is: in allocate, waiting for a span or a list, or in the loop that returns
      blocks. The list a thread is moving is kept under Transit. */
  datatype Step =
    | Idle
    | Looking(index: nat, bytes: nat)
    | Fetching(index: nat, bytes: nat)
    | Carving(index: nat, bytes: nat, span: nat)
    | Received(index: nat, bytes: nat)
    | Returning(index: nat)
    | Found(index: nat, span: nat)
    | Releasing(index: nat, span: nat)

  datatype Thread = Thread(maxSize: seq<nat>, step: Step)

  /** held: which thread works on a busy span that is not in a central list. */
  datatype Pool = Pool(pages: Table, slabs: map<nat, Slab>, held: map<nat, nat>, threads: map<nat, Thread>,
                       stock: Stock)

  datatype Action =
    | Start(t: nat)
    | AllocateHit(t: nat, bytes: nat)
    | AllocateMiss(t: nat, bytes: nat)
    | TakeBlocks(t: nat, span: nat)
    | NoBlocks(t: nat)
    | FetchPages(t: nat, source: Source)
    | Carve(t: nat)
    | Receive(t: nat)
    | Deallocate(t: nat, block: nat)
    | Lookup(t: nat, span: nat)
    | LookupNothing(t: nat)
    | GiveBack(t: nat)
    | ReturnPages(t: nat, pages: Table, first: nat)
    | Finish(t: nat)
    | Flush(t: nat, index: nat)

  ghost const Initial: Pool := Pool(Table(map[], {}), map[], map[], map[], Stock(map[], map[]))

  function Batch(maxSize: nat): nat {
    if maxSize > MAX_BLOCK_NUM then MAX_BLOCK_NUM else maxSize
  }

  function Go(threads: map<nat, Thread>, t: nat, step: Step): map<nat, Thread>
    requires t in threads
  {
    threads[t := threads[t].(step := step)]
  }

  ghost predicate Ready(p: Pool, t: nat, index: nat) {
    t in p.threads && index < MAX_ARRAY_SIZE && index < |p.threads[t].maxSize|
  }

  ghost predicate SpanAt(spans: Spans, s: nat, address: nat) {
    Busy(spans, s) && Holds(spans, s, address / PAGE_SIZE)
  }

  ghost predicate Enabled(p: Pool, a: Action) {
    match a
    case Start(t) => t !in p.threads
    case AllocateHit(t, bytes) =>
      && 1 <= bytes <= MAX_MEMORY_SIZE && Ready(p, t, ClassOf(bytes)) && p.threads[t].step.Idle?
      && List(p.stock, Cached(t, ClassOf(bytes))) != []
    case AllocateMiss(t, bytes) =>
      && 1 <= bytes <= MAX_MEMORY_SIZE && Ready(p, t, ClassOf(bytes)) && p.threads[t].step.Idle?
      && List(p.stock, Cached(t, ClassOf(bytes))) == []
    case TakeBlocks(t, s) =>
      && t in p.threads && p.threads[t].step.Looking? && Ready(p, t, p.threads[t].step.index)
      && s in p.slabs && p.slabs[s].index == p.threads[t].step.index && List(p.stock, OnSpan(s)) != []
    case NoBlocks(t) =>
      && t in p.threads && p.threads[t].step.Looking?
      && forall s :: s in p.slabs && p.slabs[s].index == p.threads[t].step.index ==> List(p.stock, OnSpan(s)) == []
    case FetchPages(t, source) =>
      && t in p.threads && p.threads[t].step.Fetching? && Ready(p, t, p.threads[t].step.index)
      && CanFetch(p.pages, PagesFor(p.threads[t].step.index), source)
    case Carve(t) => t in p.threads && p.threads[t].step.Carving? && Ready(p, t, p.threads[t].step.index)
    case Receive(t) => t in p.threads && p.threads[t].step.Received? && Ready(p, t, p.threads[t].step.index)
    case Deallocate(t, b) =>
      && b in p.stock.blocks && p.stock.blocks[b].place.Live?
      && Ready(p, t, ClassOf(p.stock.blocks[b].place.bytes)) && p.threads[t].step.Idle?
    case Lookup(t, s) =>
      && t in p.threads && p.threads[t].step.Returning? && Ready(p, t, p.threads[t].step.index)
      && List(p.stock, Transit(t, p.threads[t].step.index)) != []
      && SpanAt(p.pages.spans, s, List(p.stock, Transit(t, p.threads[t].step.index))[0])
    case LookupNothing(t) =>
      && t in p.threads && p.threads[t].step.Returning? && Ready(p, t, p.threads[t].step.index)
      && List(p.stock, Transit(t, p.threads[t].step.index)) != []
      && forall s :: !SpanAt(p.pages.spans, s, List(p.stock, Transit(t, p.threads[t].step.index))[0])
    case GiveBack(t) =>
      && t in p.threads && p.threads[t].step.Found? && p.threads[t].step.span in p.slabs
      && p.slabs[p.threads[t].step.span].used >= 1
    case ReturnPages(t, pages', r) =>
      && t in p.threads && p.threads[t].step.Releasing?
      && Returned(p.pages, p.threads[t].step.span, pages', r)
    case Finish(t) =>
      && t in p.threads && p.threads[t].step.Returning?
      && List(p.stock, Transit(t, p.threads[t].step.index)) == []
    case Flush(t, index) =>
      && Ready(p, t, index) && p.threads[t].step.Idle? && List(p.stock, Cached(t, index)) != []
  }

  ghost function Apply(p: Pool, a: Action): Pool
    requires Enabled(p, a)
  {
    match a
    case Start(t) => p.(threads := p.threads[t := Thread(seq(MAX_ARRAY_SIZE, _ => 1), Idle)])
    case AllocateHit(t, bytes) => p.(stock := Move(p.stock, Cached(t, ClassOf(bytes)), Live(bytes)))
    case AllocateMiss(t, bytes) => p.(threads := Go(p.threads, t, Looking(ClassOf(bytes), bytes)))
    case TakeBlocks(t, s) => TakeFrom(p, t, s)
    case NoBlocks(t) =>
      p.(threads := Go(p.threads, t, Fetching(p.threads[t].step.index, p.threads[t].step.bytes)))
    case FetchPages(t, source) =>
      var step := p.threads[t].step;
      PagesForBounds(step.index);
      var s := FetchedFirst(p.pages, PagesFor(step.index), source);
      p.(pages := Fetch(p.pages, PagesFor(step.index), source), held := p.held[s := t],
         threads := Go(p.threads, t, Carving(step.index, step.bytes, s)))
    case Carve(t) =>
      var step := p.threads[t].step;
      TakeFrom(p.(slabs := p.slabs[step.span := Slab(step.index, 0)], held := p.held - {step.span},
                  stock := Carved(p.stock, step.span, Addresses(step.span, step.index))), t, step.span)
    case Receive(t) =>
      var step, th := p.threads[t].step, p.threads[t];
      var here := Cached(t, step.index);
      var all := MoveMany(p.stock, Transit(t, step.index), here, |List(p.stock, Transit(t, step.index))|);
      p.(threads := p.threads[t := Thread(th.maxSize[step.index := Batch(th.maxSize[step.index]) + 1], Idle)],
         stock := Move(all, here, Live(step.bytes)))
    case Deallocate(t, b) =>
      var index := ClassOf(p.stock.blocks[b].place.bytes);
      var kept := Put(p.stock, b, Cached(t, index));
      var max := p.threads[t].maxSize[index];
      if |List(kept, Cached(t, index))| >= max * 2 then
        p.(stock := MoveMany(kept, Cached(t, index), Transit(t, index), max),
          threads := Go(p.threads, t, Returning(index)))
      else
        p.(stock := kept)
    case Lookup(t, s) => p.(threads := Go(p.threads, t, Found(p.threads[t].step.index, s)))
    case LookupNothing(t) =>
      var here := Transit(t, p.threads[t].step.index);
      p.(stock := p.stock.(lists := p.stock.lists[here := List(p.stock, here)[1..]]))
    case GiveBack(t) =>
      var step := p.threads[t].step;
      var s, slab := step.span, p.slabs[step.span];
      var back := Move(p.stock, Transit(t, step.index), OnSpan(s));
      if slab.used == 1 then
        p.(stock := Dropped(back, s), slabs := p.slabs - {s}, held := p.held[s := t],
           threads := Go(p.threads, t, Releasing(step.index, s)))
      else
        p.(stock := back, slabs := p.slabs[s := slab.(used := slab.used - 1)],
           threads := Go(p.threads, t, Returning(step.index)))
    case ReturnPages(t, pages', r) =>
      var step := p.threads[t].step;
      p.(pages := pages', held := p.held - {step.span}, threads := Go(p.threads, t, Returning(step.index)))
    case Finish(t) => p.(threads := Go(p.threads, t, Idle))
    case Flush(t, index) =>
      p.(stock := MoveMany(p.stock, Cached(t, index), Transit(t, index), |List(p.stock, Cached(t, index))|),
         threads := Go(p.threads, t, Returning(index)))
  }

  /** The locked part of fetchRange: up to a batch of blocks of span s, but at most all it has. */
  function TakeFrom(p: Pool, t: nat, s: nat): Pool
    requires t in p.threads && (p.threads[t].step.Looking? || p.threads[t].step.Carving?) && s in p.slabs
    requires p.threads[t].step.index < |p.threads[t].maxSize|
  {
    var step := p.threads[t].step;
    var n := Batch(p.threads[t].maxSize[step.index]);
    p.(stock := MoveMany(p.stock, OnSpan(s), Transit(t, step.index), n),
       slabs := p.slabs[s := p.slabs[s].(used := p.slabs[s].used + Min(n, |List(p.stock, OnSpan(s))|))],
       threads := Go(p.threads, t, Received(step.index, step.bytes)))
  }

  // ---- the invariant ----

  ghost predicate OnlyTransit(t: nat, i: int, k: Stock) {
    forall j: nat :: j != i ==> List(k, Transit(t, j)) == []
  }

  ghost predicate Asking(t: nat, index: nat, bytes: nat, k: Stock) {
    && 1 <= bytes <= MAX_MEMORY_SIZE && index == ClassOf(bytes) && index < MAX_ARRAY_SIZE
    && List(k, Cached(t, index)) == []
  }

  /** Growth stays within bounds, and no list of the thread ever reaches twice its maximum. */
  ghost predicate Bounded(t: nat, maxSize: seq<nat>, k: Stock) {
    && |maxSize| == MAX_ARRAY_SIZE
    && forall i: nat :: i < MAX_ARRAY_SIZE ==>
         1 <= maxSize[i] <= MAX_BLOCK_NUM + 1 && |List(k, Cached(t, i))| < 2 * maxSize[i]
  }

  ghost predicate StepOk(t: nat, th: Thread, k: Stock)
    requires |th.maxSize| == MAX_ARRAY_SIZE
  {
    match th.step
    case Idle => OnlyTransit(t, -1, k)
    case Looking(i, bytes) => Asking(t, i, bytes, k) && OnlyTransit(t, -1, k)
    case Fetching(i, bytes) => Asking(t, i, bytes, k) && OnlyTransit(t, -1, k)
    case Carving(i, bytes, s) => Asking(t, i, bytes, k) && OnlyTransit(t, -1, k)
    case Received(i, bytes) =>
      Asking(t, i, bytes, k) && OnlyTransit(t, i, k) && 1 <= |List(k, Transit(t, i))| <= Batch(th.maxSize[i])
    case Returning(i) => i < MAX_ARRAY_SIZE && OnlyTransit(t, i, k)
    case Found(i, s) =>
      && i < MAX_ARRAY_SIZE && OnlyTransit(t, i, k)
      && var xs := List(k, Transit(t, i)); xs != [] && xs[0] in k.blocks && k.blocks[xs[0]].span == s
    case Releasing(i, s) => i < MAX_ARRAY_SIZE && OnlyTransit(t, i, k)
  }

  ghost predicate ThreadOk(t: nat, th: Thread, k: Stock) {
    Bounded(t, th.maxSize, k) && StepOk(t, th, k)
  }

  ghost predicate ThreadsOk(threads: map<nat, Thread>, k: Stock) {
    && (forall t :: t in threads ==> ThreadOk(t, threads[t], k))
    && (forall t, i :: t !in threads ==> List(k, Cached(t, i)) == [] && List(k, Transit(t, i)) == [])
  }

  ghost predicate Holder(step: Step, s: nat) {
    (step.Carving? || step.Releasing?) && step.span == s
  }

  /** The busy spans of the page cache are those in a central list and those a thread works on. */
  ghost predicate SpansOk(spans: Spans, slabs: map<nat, Slab>, held: map<nat, nat>, threads: map<nat, Thread>) {
    && (forall s :: Busy(spans, s) <==> s in slabs || s in held)
    && slabs.Keys !! held.Keys
    && (forall s :: s in slabs ==> spans[s].pages == PagesFor(slabs[s].index))
    && (forall s :: s in held ==> held[s] in threads && Holder(threads[held[s]].step, s))
    && (forall t, s :: t in threads && Holder(threads[t].step, s) ==> s in held && held[s] == t)
    && (forall t :: t in threads && threads[t].step.Carving? && threads[t].step.span in spans ==>
          spans[threads[t].step.span].pages == PagesFor(threads[t].step.index))
  }

  ghost predicate Inv(p: Pool) {
    && WellFormed(p.pages) && (Separated(p.pages.chunks) ==> Coalesced(p.pages.spans))
    && Stocked(p.slabs, p.stock)
    && ThreadsOk(p.threads, p.stock)
    && SpansOk(p.pages.spans, p.slabs, p.held, p.threads)
  }
}
