/** Free blocks linked through their own memory, and the loops that move them between lists. A
    block is its address; address 0 is the null pointer. */
module FreeLists {
  import opened Lists
  import opened Size
  import opened Slabs

  /** The first word of every free block: the address of the next one. */
  class Memory {
    var next: map<nat, nat>

    constructor ()
      ensures next == map[]
    {
      next := map[];
    }

    method SetNext(b: nat, to: nat)
      modifies this
      ensures next == old(next)[b := to]
    {
      next := next[b := to];
    }
  }

  /** Following next from head meets exactly the blocks xs, in order, and then null. */
  ghost predicate Chain(next: map<nat, nat>, head: nat, xs: seq<nat>)
    decreases |xs|
  {
    if xs == [] then head == 0
    else head == xs[0] && head != 0 && head in next && Chain(next, next[head], xs[1..])
  }

  /** Relinking blocks that are not in a chain leaves the chain alone. */
  lemma {:induction false} ChainFrame(next: map<nat, nat>, next': map<nat, nat>, head: nat, xs: seq<nat>)
    requires Chain(next, head, xs) && forall b :: b in xs && b in next ==> b in next' && next'[b] == next[b]
    ensures Chain(next', head, xs)
    decreases |xs|
  {
    if xs != [] {
      assert forall b :: b in xs[1..] ==> b in xs;
      ChainFrame(next, next', next[head], xs[1..]);
    }
  }

  lemma ChainPush(next: map<nat, nat>, head: nat, xs: seq<nat>, b: nat)
    requires Chain(next, head, xs) && b !in xs && b != 0
    ensures Chain(next[b := head], b, [b] + xs)
  {
    ChainFrame(next, next[b := head], head, xs);
    assert ([b] + xs)[1..] == xs;
  }

  class FreeList {
    const memory: Memory
    var head: nat
    var size: nat
    var maxSize: nat
    ghost var blocks: seq<nat>

    ghost predicate Valid()
      reads this, memory
    {
      Chain(memory.next, head, blocks) && NoDuplicates(blocks) && size == |blocks|
    }

    constructor (m: Memory)
      ensures Valid() && memory == m && blocks == [] && maxSize == 1
    {
      memory, head, size, maxSize, blocks := m, 0, 0, 1, [];
    }

    method Front() returns (b: nat)
      requires Valid() && blocks != []
      ensures b == blocks[0] && b != 0
    {
      b := head;
    }

    method PushFront(b: nat)
      requires Valid() && b != 0 && b !in blocks
      modifies this, memory
      ensures Valid() && blocks == [b] + old(blocks) && maxSize == old(maxSize)
      ensures memory.next == old(memory.next)[b := old(head)]
    {
      ChainPush(memory.next, head, blocks, b);
      memory.SetNext(b, head);
      head, size, blocks := b, size + 1, [b] + blocks;
    }

    method PopFront()
      requires Valid() && blocks != []
      modifies this
      ensures Valid() && blocks == old(blocks)[1..] && maxSize == old(maxSize)
    {
      head, size, blocks := memory.next[head], size - 1, blocks[1..];
    }

    method Clear()
      requires Valid()
      modifies this
      ensures Valid() && blocks == [] && maxSize == 1
    {
      head, size, maxSize, blocks := 0, 0, 1, [];
    }

    method SetMaxSize(n: nat)
      requires Valid()
      modifies this`maxSize
      ensures Valid() && maxSize == n
    {
      maxSize := n;
    }
  }

  /** What every loop below does: the front m blocks of xs end up reversed in front of ys. */
  lemma ReverseOne(xs: seq<nat>, m: nat)
    requires m < |xs|
    ensures Reverse(xs[..m + 1]) == [xs[m]] + Reverse(xs[..m])
    decreases m
  {
    if m > 0 {
      assert xs[..m + 1][1..] == xs[1..][..m] && xs[..m][1..] == xs[1..][..m - 1];
      ReverseOne(xs[1..], m - 1);
      assert Reverse(xs[..m + 1]) == Reverse(xs[1..][..m]) + [xs[0]];
      assert Reverse(xs[..m]) == Reverse(xs[1..][..m - 1]) + [xs[0]];
      assert xs[1..][m - 1] == xs[m];
    } else {
      assert xs[..1][1..] == [];
    }
  }

  /** Links outside xs are as they were. */
  ghost predicate LinksKept(was: map<nat, nat>, now: map<nat, nat>, xs: seq<nat>) {
    forall b :: b !in xs ==> (b in now <==> b in was) && (b in now ==> now[b] == was[b])
  }

  lemma LinksKeptOne(was: map<nat, nat>, now: map<nat, nat>, xs: seq<nat>, b: nat, to: nat, ys: seq<nat>)
    requires LinksKept(was, now, xs) && b in ys && forall c :: c in xs ==> c in ys
    ensures LinksKept(was, now[b := to], ys)
  {}

  /** One turn of a loop that takes the front block of a list and puts it in front of a chain. */
  method TakeOne(list: FreeList, head: nat, ghost done: seq<nat>) returns (b: nat)
    requires list.Valid() && list.blocks != [] && Chain(list.memory.next, head, done)
    requires list.blocks[0] !in done
    modifies list, list.memory
    ensures list.Valid() && list.blocks == old(list.blocks)[1..] && list.maxSize == old(list.maxSize)
    ensures b == old(list.blocks)[0] && Chain(list.memory.next, b, [b] + done)
    ensures list.memory.next == old(list.memory.next)[b := head]
  {
    b := list.Front();
    list.PopFront();
    ChainPush(list.memory.next, head, done, b);
    ChainFrame(list.memory.next, list.memory.next[b := head], list.head, list.blocks);
    list.memory.SetNext(b, head);
  }

  lemma TakeMore(xs: seq<nat>, i: nat)
    requires i < |xs| && NoDuplicates(xs)
    ensures xs[i] !in Reverse(xs[..i]) && Reverse(xs[..i + 1]) == [xs[i]] + Reverse(xs[..i])
    ensures forall c :: c in xs[..i + 1] <==> c in xs[..i] || c == xs[i]
  {
    ReverseOne(xs, i);
    ReverseMember(xs[..i], xs[i]);
    assert xs[..i + 1] == xs[..i] + [xs[i]];
  }

  /** The loop that pops n blocks off a thread's list and links them into a chain. */
  method TakeChain(list: FreeList, n: nat) returns (head: nat)
    requires list.Valid() && n <= |list.blocks|
    modifies list, list.memory
    ensures list.Valid() && list.blocks == old(list.blocks)[n..] && list.maxSize == old(list.maxSize)
    ensures Chain(list.memory.next, head, Reverse(old(list.blocks)[..n]))
    ensures LinksKept(old(list.memory.next), list.memory.next, old(list.blocks)[..n])
  {
    head := 0;
    var i := 0;
    ghost var xs := list.blocks;
    while i < n
      invariant 0 <= i <= n && list.Valid() && list.blocks == xs[i..] && list.maxSize == old(list.maxSize)
      invariant Chain(list.memory.next, head, Reverse(xs[..i]))
      invariant LinksKept(old(list.memory.next), list.memory.next, xs[..i])
    {
      TakeMore(xs, i);
      ghost var was := list.memory.next;
      var b := TakeOne(list, head, Reverse(xs[..i]));
      LinksKeptOne(old(list.memory.next), was, xs[..i], b, head, xs[..i + 1]);
      head, i := b, i + 1;
    }
  }

  /** One turn of the loop that pushes the blocks of a chain on a list. */
  method PushOne(list: FreeList, cur: nat, ghost xs: seq<nat>, ghost i: nat) returns (next: nat)
    requires list.Valid() && i < |xs| && Chain(list.memory.next, cur, xs[i..]) && NoDuplicates(xs)
    requires xs[i] !in list.blocks
    modifies list, list.memory
    ensures list.Valid() && list.blocks == [xs[i]] + old(list.blocks)
    ensures Chain(list.memory.next, next, xs[i + 1..])
    ensures list.memory.next == old(list.memory.next)[xs[i] := old(list.head)]
  {
    next := list.memory.next[cur];
    assert xs[i..][1..] == xs[i + 1..];
    ghost var was := list.memory.next;
    list.PushFront(cur);
    ChainFrame(was, list.memory.next, next, xs[i + 1..]);
  }

  lemma FirstReceived(xs: seq<nat>, i: nat, ys: seq<nat>, was: map<nat, nat>)
    requires i == 0
    ensures ys == Reverse(xs[..i]) + ys && xs[i..] == xs && LinksKept(was, was, xs[..i])
  {}

  lemma NextReceived(xs: seq<nat>, i: nat, ys: seq<nat>)
    requires i < |xs| && NoDuplicates(xs) && forall b :: b in xs ==> b !in ys
    ensures xs[i] !in Reverse(xs[..i]) + ys
    ensures [xs[i]] + (Reverse(xs[..i]) + ys) == Reverse(xs[..i + 1]) + ys
    ensures forall c :: c in xs[..i + 1] <==> c in xs[..i] || c == xs[i]
  {
    TakeMore(xs, i);
  }

  /** The loop that walks a chain of blocks and pushes each on a thread's list. */
  method Receive(list: FreeList, chain: nat, count: nat, ghost xs: seq<nat>)
    requires list.Valid() && Chain(list.memory.next, chain, xs) && NoDuplicates(xs)
    requires forall b :: b in xs ==> b !in list.blocks
    modifies list, list.memory
    ensures list.Valid() && list.blocks == Reverse(xs) + old(list.blocks) && list.maxSize == count + 1
    ensures LinksKept(old(list.memory.next), list.memory.next, xs)
  {
    hide Reverse, LinksKept, NoDuplicates;
    var cur := chain;
    ghost var i, ys := 0, list.blocks;
    FirstReceived(xs, i, ys, list.memory.next);
    while cur != 0
      invariant 0 <= i <= |xs| && list.Valid() && list.blocks == Reverse(xs[..i]) + ys
      invariant Chain(list.memory.next, cur, xs[i..])
      invariant LinksKept(old(list.memory.next), list.memory.next, xs[..i])
      decreases |xs| - i
    {
      NextReceived(xs, i, ys);
      ghost var was, front := list.memory.next, list.head;
      cur := PushOne(list, cur, xs, i);
      LinksKeptOne(old(list.memory.next), was, xs[..i], xs[i], front, xs[..i + 1]);
      i := i + 1;
    }
    assert xs[..i] == xs;
    list.SetMaxSize(count + 1);
  }

  /** A span in the central cache: its free list and how many of its blocks are handed out. */
  class CarvedSpan {
    const pageId: nat
    const freeList: FreeList
    var used: nat

    constructor (id: nat, list: FreeList)
      ensures pageId == id && freeList == list && used == 0
    {
      pageId, freeList, used := id, list, 0;
    }
  }

  /** The loop that cuts a span into blocks of class index and pushes them on its free list. */
  method Carve(span: CarvedSpan, index: nat)
    requires span.freeList.Valid() && span.freeList.blocks == [] && index < MAX_ARRAY_SIZE && span.pageId >= 1
    modifies span.freeList, span.freeList.memory
    ensures span.freeList.Valid() && span.freeList.blocks == Addresses(span.pageId, index)
    ensures span.freeList.maxSize == old(span.freeList.maxSize)
  {
    var n, i := BlockCount(index), 0;
    ghost var all := Addresses(span.pageId, index);
    while i < n
      invariant 0 <= i <= n && span.freeList.Valid() && span.freeList.blocks == all[n - i..]
      invariant span.freeList.maxSize == old(span.freeList.maxSize)
    {
      var b := Address(span.pageId, index, i);
      assert all[n - 1 - i] == b;
      AddressesDistinct(span.pageId, index);
      SlotInside(span.pageId, index, i);
      span.freeList.PushFront(b);
      assert all[n - 1 - i..] == [b] + all[n - i..];
      i := i + 1;
    }
  }

  /** The locked loop of fetchRange: up to count blocks, but no more than the span has. */
  method FetchBatch(span: CarvedSpan, count: nat) returns (head: nat)
    requires span.freeList.Valid() && span.freeList.blocks != [] && count >= 1
    modifies span, span.freeList, span.freeList.memory
    ensures var xs, m := old(span.freeList.blocks), Min(count, |old(span.freeList.blocks)|);
            && span.freeList.Valid() && span.freeList.blocks == xs[m..]
            && span.used == old(span.used) + m
            && Chain(span.freeList.memory.next, head, Reverse(xs[..m]))
            && LinksKept(old(span.freeList.memory.next), span.freeList.memory.next, xs[..m])
  {
    head := 0;
    var i, list := 0, span.freeList;
    ghost var xs := list.blocks;
    while i < count
      invariant 0 <= i <= Min(count, |xs|) && (i < count ==> i < |xs|) && list.Valid() && list.blocks == xs[i..]
      invariant span.used == old(span.used) + i
      invariant Chain(list.memory.next, head, Reverse(xs[..i]))
      invariant LinksKept(old(list.memory.next), list.memory.next, xs[..i])
    {
      TakeMore(xs, i);
      ghost var was := list.memory.next;
      var b := TakeOne(list, head, Reverse(xs[..i]));
      LinksKeptOne(old(list.memory.next), was, xs[..i], b, head, xs[..i + 1]);
      head, i, span.used := b, i + 1, span.used + 1;
      if list.head == 0 {
        break;
      }
    }
  }

  /** One turn of returnRange with the lock held: the block is back on its span; if it was the
      last one out, the free list is emptied and the span has to leave the central cache. */
  method GiveBack(span: CarvedSpan, b: nat) returns (allBack: bool)
    requires span.freeList.Valid() && b != 0 && b !in span.freeList.blocks && span.used >= 1
    modifies span, span.freeList, span.freeList.memory
    ensures span.freeList.Valid() && span.used == old(span.used) - 1 && allBack == (span.used == 0)
    ensures span.freeList.blocks == if allBack then [] else [b] + old(span.freeList.blocks)
  {
    span.freeList.PushFront(b);
    span.used := span.used - 1;
    allBack := span.used == 0;
    if allBack {
      span.freeList.Clear();
    }
  }

  /** allocate on a class whose list is empty, served by a span that has free blocks: the block
      handed out is the front one of the span, and the rest of the batch keeps its order. */
  method AllocateFrom(list: FreeList, span: CarvedSpan) returns (b: nat)
    requires list.Valid() && list.blocks == [] && list.maxSize >= 1
    requires span.freeList.Valid() && span.freeList.blocks != [] && span.freeList != list
    requires span.freeList.memory == list.memory
    modifies list, span, span.freeList, list.memory
    ensures var xs := old(span.freeList.blocks);
            var m := Min(Min(old(list.maxSize), MAX_BLOCK_NUM), |xs|);
            && list.Valid() && span.freeList.Valid()
            && b == xs[0] && list.blocks == xs[1..m] && span.freeList.blocks == xs[m..]
            && span.used == old(span.used) + m
            && list.maxSize == Min(old(list.maxSize), MAX_BLOCK_NUM) + 1
  {
    var count := list.maxSize;
    if count > MAX_BLOCK_NUM {
      count := MAX_BLOCK_NUM;
    }
    ghost var xs := span.freeList.blocks;
    ghost var m := Min(count, |xs|);
    var chain := FetchBatch(span, count);
    ghost var was := list.memory.next;
    assert NoDuplicates(xs[..m]) && NoDuplicates(xs[m..]);
    ReverseNoDuplicates(xs[..m]);
    Receive(list, chain, count, Reverse(xs[..m]));
    ReverseTwice(xs[..m]);
    assert list.blocks == xs[..m];
    KeptApart(was, list.memory.next, span.freeList.head, xs, m);
    b := list.Front();
    list.PopFront();
  }

  lemma KeptApart(was: map<nat, nat>, now: map<nat, nat>, head: nat, xs: seq<nat>, m: nat)
    requires m <= |xs| && NoDuplicates(xs) && Chain(was, head, xs[m..]) && LinksKept(was, now, Reverse(xs[..m]))
    ensures Chain(now, head, xs[m..])
  {
    forall b | b in xs[m..] && b in was ensures b in now && now[b] == was[b] {
      ReverseMember(xs[..m], b);
    }
    ChainFrame(was, now, head, xs[m..]);
  }

  /** deallocate: the block is cached, and when its list has reached twice the maximum, the front
      maxSize blocks are unlinked into a chain for the central cache. */
  method Deallocate(list: FreeList, b: nat) returns (surplus: nat)
    requires list.Valid() && b != 0 && b !in list.blocks && list.maxSize >= 1
    modifies list, list.memory
    ensures list.Valid() && list.maxSize == old(list.maxSize)
    ensures var all, max := [b] + old(list.blocks), old(list.maxSize);
            if |all| >= max * 2 then
              list.blocks == all[max..] && Chain(list.memory.next, surplus, Reverse(all[..max]))
            else list.blocks == all && surplus == 0
    ensures LinksKept(old(list.memory.next), list.memory.next, [b] + old(list.blocks))
  {
    list.PushFront(b);
    surplus := 0;
    if list.size >= list.maxSize * 2 {
      surplus := TakeChain(list, list.maxSize);
    }
  }
}
