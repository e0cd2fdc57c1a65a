/** Spans carved into blocks of one size: how many blocks there are, where each one lies, and how
    the use count of a span relates to where its blocks are. */
module Slabs {
  import opened Lists
  import opened Pages
  import opened Size
  import opened Stock

  const MAX_BLOCK_NUM: nat := 512

  /** A span in use by the central cache: its size class and its number of blocks handed out. */
  datatype Slab = Slab(index: nat, used: nat)

  function ClassOf(bytes: nat): nat {
    var index := SizeToIndex(RoundUp(bytes));
    if index < 0 then 0 else index
  }

  /** Pages asked for to serve a class: room for 512 blocks, but at most 128 pages. */
  function PagesFor(index: nat): nat {
    var total := IndexToSize(index) * MAX_BLOCK_NUM;
    var pages := total / PAGE_SIZE + (if total % PAGE_SIZE != 0 then 1 else 0);
    if pages > MAX_PAGE_NUM then MAX_PAGE_NUM else pages
  }

  function BlockCount(index: nat): nat
    requires index < MAX_ARRAY_SIZE
  {
    SizesIncrease(index, index);
    PagesFor(index) * PAGE_SIZE / IndexToSize(index)
  }

  function Address(span: nat, index: nat, slot: nat): nat {
    span * PAGE_SIZE + slot * IndexToSize(index)
  }

  /** The blocks of a fresh span in the order of its free list: carved upwards, each in front. */
  function Addresses(span: nat, index: nat): (r: seq<nat>)
    requires index < MAX_ARRAY_SIZE
    ensures |r| == BlockCount(index)
  {
    var n := BlockCount(index);
    seq(n, i requires 0 <= i < n => Address(span, index, n - 1 - i))
  }

  lemma PagesForBounds(index: nat)
    requires index < MAX_ARRAY_SIZE
    ensures 1 <= PagesFor(index) <= MAX_PAGE_NUM
    ensures IndexToSize(index) <= PagesFor(index) * PAGE_SIZE
  {
    SizesIncrease(index, index);
  }

  /** A class asks for the smallest number of pages that hold 512 blocks, or for 128 pages if fewer do
      not hold them. */
  lemma PagesForSmallest(index: nat, pages: nat)
    requires index < MAX_ARRAY_SIZE && pages < MAX_PAGE_NUM
    ensures PagesFor(index) <= pages <==> MAX_BLOCK_NUM * IndexToSize(index) <= pages * PAGE_SIZE
  {
    var total := IndexToSize(index) * MAX_BLOCK_NUM;
    hide IndexToSize;
    assert total / PAGE_SIZE * PAGE_SIZE + total % PAGE_SIZE == total;
  }

  /** A span is carved into as many blocks as fit. */
  lemma BlocksFill(index: nat)
    requires index < MAX_ARRAY_SIZE
    ensures var size, room := IndexToSize(index), PagesFor(index) * PAGE_SIZE;
            BlockCount(index) * size <= room < (BlockCount(index) + 1) * size
  {
    SizesIncrease(index, index);
    var size, room := IndexToSize(index), PagesFor(index) * PAGE_SIZE;
    hide IndexToSize, PagesFor;
    assert room / size * size + room % size == room;
    assert (room / size + 1) * size == room / size * size + size;
  }

  lemma DivMul(a: nat, d: nat)
    requires d >= 1
    ensures a / d * d <= a && (d <= a ==> 1 <= a / d)
  {
    assert a / d * d + a % d == a;
    assert a % d < d;
    assert a / d == 0 ==> a / d * d == 0;
  }

  lemma MulMono(a: nat, b: nat, c: nat)
    requires a <= b
    ensures a * c <= b * c
  {}

  /** Every slot lies inside its span, and two slots do not overlap. */
  lemma SlotsApart(span: nat, index: nat, i: nat, j: nat)
    requires index < MAX_ARRAY_SIZE && i < j < BlockCount(index)
    ensures Address(span, index, i) + IndexToSize(index) <= Address(span, index, j)
  {
    MulMono(i + 1, j, IndexToSize(index));
    assert (i + 1) * IndexToSize(index) == i * IndexToSize(index) + IndexToSize(index);
  }

  lemma SlotInside(span: nat, index: nat, i: nat)
    requires index < MAX_ARRAY_SIZE && i < BlockCount(index)
    ensures span * PAGE_SIZE <= Address(span, index, i)
    ensures Address(span, index, i) + IndexToSize(index) <= (span + PagesFor(index)) * PAGE_SIZE
    ensures span <= Address(span, index, i) / PAGE_SIZE < span + PagesFor(index)
  {
    SizesIncrease(index, index);
    var size, pages := IndexToSize(index), PagesFor(index);
    hide IndexToSize, PagesFor;
    DivMul(pages * PAGE_SIZE, size);
    MulMono(i + 1, BlockCount(index), size);
    assert (i + 1) * size == i * size + size;
    assert (span + pages) * PAGE_SIZE == span * PAGE_SIZE + pages * PAGE_SIZE;
  }

  lemma BlockCountPositive(index: nat)
    requires index < MAX_ARRAY_SIZE
    ensures BlockCount(index) >= 1
  {
    SizesIncrease(index, index);
    PagesForBounds(index);
    DivMul(PagesFor(index) * PAGE_SIZE, IndexToSize(index));
  }

  // ---- what holds between the slabs and the stock ----

  ghost predicate InSlab(slabs: map<nat, Slab>, a: nat, x: Block) {
    && x.span in slabs && slabs[x.span].index < MAX_ARRAY_SIZE && x.slot < BlockCount(slabs[x.span].index)
    && a == Address(x.span, slabs[x.span].index, x.slot)
  }

  /** Slot i of span s is a block of the stock. */
  ghost predicate HasSlot(k: Stock, s: nat, index: nat, i: nat) {
    var a := Address(s, index, i);
    a in k.blocks && k.blocks[a].span == s && k.blocks[a].slot == i
  }

  /** The blocks of the stock are exactly the slots of the slabs. */
  ghost predicate Homed(slabs: map<nat, Slab>, k: Stock) {
    && (forall s :: s in slabs ==> slabs[s].index < MAX_ARRAY_SIZE)
    && (forall a :: a in k.blocks ==> InSlab(slabs, a, k.blocks[a]))
    && (forall s, i :: s in slabs && 0 <= i < BlockCount(slabs[s].index) ==> HasSlot(k, s, slabs[s].index, i))
  }

  /** The use count of every slab is the number of its blocks that are not on its free list. */
  ghost predicate Counted(slabs: map<nat, Slab>, k: Stock) {
    forall s :: s in slabs ==>
      && slabs[s].index < MAX_ARRAY_SIZE && slabs[s].used >= 1
      && slabs[s].used + |List(k, OnSpan(s))| == BlockCount(slabs[s].index)
  }

  /** A place for blocks of span s, whose class is index. */
  ghost predicate Suits(p: Place, s: nat, index: nat) {
    match p
    case OnSpan(t) => t == s
    case Cached(_, i) => i == index
    case Transit(_, i) => i == index
    case Live(bytes) => 1 <= bytes <= MAX_MEMORY_SIZE && ClassOf(bytes) == index
  }

  /** Blocks are only in places of their own class, or on the free list of their own span. */
  ghost predicate Classed(slabs: map<nat, Slab>, k: Stock) {
    forall a :: a in k.blocks && k.blocks[a].span in slabs ==>
      Suits(k.blocks[a].place, k.blocks[a].span, slabs[k.blocks[a].span].index)
  }

  ghost predicate Stocked(slabs: map<nat, Slab>, k: Stock) {
    Located(k) && Homed(slabs, k) && Counted(slabs, k) && Classed(slabs, k)
  }

  lemma SameHomesHomed(slabs: map<nat, Slab>, k: Stock, slabs': map<nat, Slab>, k': Stock)
    requires Homed(slabs, k) && SameHomes(k, k')
    requires slabs'.Keys == slabs.Keys && forall s :: s in slabs ==> slabs'[s].index == slabs[s].index
    ensures Homed(slabs', k')
  {
    forall a | a in k'.blocks ensures InSlab(slabs', a, k'.blocks[a]) {
      assert InSlab(slabs, a, k.blocks[a]);
    }
    forall s, i | s in slabs' && 0 <= i < BlockCount(slabs'[s].index) ensures HasSlot(k', s, slabs'[s].index, i) {
      assert HasSlot(k, s, slabs[s].index, i);
    }
  }

  /** What moved from p to q suits q. */
  ghost predicate MovesSuit(slabs: map<nat, Slab>, k: Stock, p: Place, q: Place, k': Stock) {
    forall a :: At(k, a, p) && At(k', a, q) && k.blocks[a].span in slabs ==>
      Suits(q, k.blocks[a].span, slabs[k.blocks[a].span].index)
  }

  lemma MovedClassed(slabs: map<nat, Slab>, k: Stock, p: Place, q: Place, k': Stock)
    requires Classed(slabs, k) && OnlyMoved(k, p, q, k') && MovesSuit(slabs, k, p, q, k')
    ensures Classed(slabs, k')
  {
    forall a | a in k'.blocks && k'.blocks[a].span in slabs
      ensures Suits(k'.blocks[a].place, k'.blocks[a].span, slabs[k'.blocks[a].span].index)
    {
      assert At(k, a, k.blocks[a].place);
    }
  }

  /** q suits whatever p suits, so moves from p to q keep blocks in their class. */
  lemma SameClassSuits(slabs: map<nat, Slab>, k: Stock, p: Place, q: Place, k': Stock)
    requires Classed(slabs, k)
    requires forall s :: s in slabs && Suits(p, s, slabs[s].index) ==> Suits(q, s, slabs[s].index)
    ensures MovesSuit(slabs, k, p, q, k')
  {}

  /** Moves that do not touch a free list keep the slabs as they are. */
  lemma MovedStocked(slabs: map<nat, Slab>, k: Stock, p: Place, q: Place, k': Stock)
    requires Stocked(slabs, k) && Located(k') && OnlyMoved(k, p, q, k') && MovesSuit(slabs, k, p, q, k')
    requires forall s :: List(k', OnSpan(s)) == List(k, OnSpan(s))
    ensures Stocked(slabs, k')
  {
    hide Located, Homed, Classed;
    MovedClassed(slabs, k, p, q, k');
    SameHomesHomed(slabs, k, slabs, k');
  }

  /** Blocks taken from or given back to the free list of span s change only its use count. */
  lemma UsedStocked(slabs: map<nat, Slab>, k: Stock, p: Place, q: Place, k': Stock, s: nat, used: nat)
    requires Located(k') && Homed(slabs, k) && Classed(slabs, k) && s in slabs && Counted(slabs - {s}, k)
    requires OnlyMoved(k, p, q, k') && MovesSuit(slabs, k, p, q, k')
    requires forall t :: t != s ==> List(k', OnSpan(t)) == List(k, OnSpan(t))
    requires used >= 1 && slabs[s].index < MAX_ARRAY_SIZE
    requires used + |List(k', OnSpan(s))| == BlockCount(slabs[s].index)
    ensures Stocked(slabs[s := slabs[s].(used := used)], k')
  {
    hide Located, Homed, Classed;
    MovedClassed(slabs, k, p, q, k');
    SameHomesHomed(slabs, k, slabs[s := slabs[s].(used := used)], k');
    UsedClassed(slabs, k', s, used);
    hide OnlyMoved, MovesSuit, BlockCount;
    forall t | t in slabs && t != s ensures t in slabs - {s} {}
  }

  lemma UsedClassed(slabs: map<nat, Slab>, k: Stock, s: nat, used: nat)
    requires Classed(slabs, k) && s in slabs
    ensures Classed(slabs[s := slabs[s].(used := used)], k)
  {}

  // ---- counting ----

  ghost function Elements(xs: seq<nat>): set<nat> {
    set x | x in xs
  }

  lemma {:induction false} ElementCount(xs: seq<nat>)
    requires NoDuplicates(xs)
    ensures |Elements(xs)| == |xs|
  {
    if xs != [] {
      var x, rest := xs[0], xs[1..];
      assert xs == [x] + rest;
      ElementCount(rest);
      assert x !in rest;
      assert Elements(xs) == Elements(rest) + {x};
    }
  }

  /** A list without duplicates that is as long as another and within it has all its elements. */
  lemma SameLength(xs: seq<nat>, ys: seq<nat>)
    requires NoDuplicates(xs) && NoDuplicates(ys) && |xs| == |ys| && forall x :: x in xs ==> x in ys
    ensures forall y :: y in ys ==> y in xs
  {
    ElementCount(xs);
    ElementCount(ys);
    assert Elements(xs) <= Elements(ys);
    SubsetSameSize(Elements(xs), Elements(ys));
    assert forall y :: y in ys ==> y in Elements(xs);
  }

  lemma SubsetSameSize(a: set<nat>, b: set<nat>)
    requires a <= b && |a| == |b|
    ensures a == b
  {
    assert |b - a| == |b| - |a|;
  }

  lemma AddressesDistinct(span: nat, index: nat)
    requires index < MAX_ARRAY_SIZE
    ensures NoDuplicates(Addresses(span, index))
  {
    var n := BlockCount(index);
    forall i, j | 0 <= i < j < n ensures Addresses(span, index)[i] != Addresses(span, index)[j] {
      SlotsApart(span, index, n - 1 - j, n - 1 - i);
      SizesIncrease(index, index);
    }
  }

  lemma AddressMember(span: nat, index: nat, i: nat)
    requires index < MAX_ARRAY_SIZE && i < BlockCount(index)
    ensures Address(span, index, i) in Addresses(span, index)
  {
    assert Addresses(span, index)[BlockCount(index) - 1 - i] == Address(span, index, i);
  }

  /** The free list of a slab holds only blocks of the slab. */
  lemma FreeListOwn(slabs: map<nat, Slab>, k: Stock, s: nat)
    requires Located(k) && Homed(slabs, k) && Classed(slabs, k) && s in slabs
    ensures forall a :: a in List(k, OnSpan(s)) ==> a in k.blocks && k.blocks[a].span == s
    ensures forall a :: a in List(k, OnSpan(s)) ==> a in Addresses(s, slabs[s].index)
  {
    forall a | a in List(k, OnSpan(s))
      ensures a in k.blocks && k.blocks[a].span == s && a in Addresses(s, slabs[s].index)
    {
      assert At(k, a, OnSpan(s));
      assert InSlab(slabs, a, k.blocks[a]);
      AddressMember(s, slabs[s].index, k.blocks[a].slot);
    }
  }

  /** When a slab's free list is as long as its block count, every block of it is on that list. */
  lemma FullFreeList(slabs: map<nat, Slab>, k: Stock, s: nat)
    requires Located(k) && Homed(slabs, k) && Classed(slabs, k)
    requires s in slabs && |List(k, OnSpan(s))| == BlockCount(slabs[s].index)
    ensures forall a :: a in k.blocks ==> (k.blocks[a].span == s <==> k.blocks[a].place == OnSpan(s))
  {
    var index := slabs[s].index;
    AddressesDistinct(s, index);
    FreeListOwn(slabs, k, s);
    SameLength(List(k, OnSpan(s)), Addresses(s, index));
    forall a | a in k.blocks ensures k.blocks[a].span == s <==> k.blocks[a].place == OnSpan(s) {
      if k.blocks[a].span == s {
        assert InSlab(slabs, a, k.blocks[a]);
        AddressMember(s, index, k.blocks[a].slot);
        assert At(k, a, OnSpan(s));
      }
    }
  }

  // ---- carving and dropping a whole span ----

  lemma NotCarvedYet(slabs: map<nat, Slab>, k: Stock, s: nat)
    requires Located(k) && Homed(slabs, k) && Classed(slabs, k) && s !in slabs
    ensures List(k, OnSpan(s)) == []
  {
    var xs := List(k, OnSpan(s));
    forall a: nat ensures a !in xs {
      assert a in xs ==> At(k, a, OnSpan(s)) && InSlab(slabs, a, k.blocks[a]);
    }
    assert NoDuplicates(xs) && Elements(xs) == {};
    ElementCount(xs);
  }

  /** Carving span s adds exactly its slots, all on its free list. */
  lemma CarvedHomed(slabs: map<nat, Slab>, k: Stock, s: nat, slab: Slab)
    requires Homed(slabs, k) && s !in slabs && slab.index < MAX_ARRAY_SIZE
    requires forall b :: b in Addresses(s, slab.index) ==> b !in k.blocks
    ensures Homed(slabs[s := slab], Carved(k, s, Addresses(s, slab.index)))
  {
    var slabs', xs, k' := slabs[s := slab], Addresses(s, slab.index), Carved(k, s, Addresses(s, slab.index));
    forall a | a in k'.blocks ensures InSlab(slabs', a, k'.blocks[a]) {
      if a in xs {
        assert xs[|xs| - 1 - SlotOf(xs, a)] == Address(s, slab.index, SlotOf(xs, a));
      } else {
        assert InSlab(slabs, a, k.blocks[a]);
      }
    }
    forall t, i | t in slabs' && 0 <= i < BlockCount(slabs'[t].index) ensures HasSlot(k', t, slabs'[t].index, i) {
      if t == s {
        CarvedSlot(k, s, slab.index, i);
      } else {
        assert HasSlot(k, t, slabs[t].index, i);
      }
    }
  }

  lemma CarvedSlot(k: Stock, s: nat, index: nat, i: nat)
    requires index < MAX_ARRAY_SIZE && i < BlockCount(index)
    ensures HasSlot(Carved(k, s, Addresses(s, index)), s, index, i)
  {
    var xs, a := Addresses(s, index), Address(s, index, i);
    AddressMember(s, index, i);
    var j := SlotOf(xs, a);
    assert xs[|xs| - 1 - j] == Address(s, index, j);
    if i < j {
      SlotsApart(s, index, i, j);
    } else if j < i {
      SlotsApart(s, index, j, i);
    }
    SizesIncrease(index, index);
  }

  lemma DroppedStocked(slabs: map<nat, Slab>, k: Stock, s: nat)
    requires Located(k) && Homed(slabs, k) && Classed(slabs, k) && s in slabs
    requires Counted(slabs - {s}, k) && |List(k, OnSpan(s))| == BlockCount(slabs[s].index)
    ensures Stocked(slabs - {s}, Dropped(k, s))
    ensures forall a :: a in k.blocks && k.blocks[a].place != OnSpan(s) ==>
      a in Dropped(k, s).blocks && Dropped(k, s).blocks[a] == k.blocks[a]
    ensures forall r :: r != OnSpan(s) ==> List(Dropped(k, s), r) == List(k, r)
  {
    FullFreeList(slabs, k, s);
    DroppedLocated(k, s);
    DroppedHomed(slabs, k, s);
    hide Located, Homed;
  }

  lemma DroppedHomed(slabs: map<nat, Slab>, k: Stock, s: nat)
    requires Homed(slabs, k) && s in slabs
    ensures Homed(slabs - {s}, Dropped(k, s))
  {
    var k' := Dropped(k, s);
    forall a | a in k'.blocks ensures InSlab(slabs - {s}, a, k'.blocks[a]) {
      assert InSlab(slabs, a, k.blocks[a]);
    }
    forall t, i | t in slabs - {s} && 0 <= i < BlockCount((slabs - {s})[t].index)
      ensures HasSlot(k', t, (slabs - {s})[t].index, i)
    {
      assert HasSlot(k, t, slabs[t].index, i);
    }
  }
}
