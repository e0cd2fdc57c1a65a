/** Where the blocks of the memory pool are: on the free list of their span, in a thread's cache,
    in a list on its way between the two, or in use. */
module Stock {
  import opened Lists

  /** Live(bytes) is a block in use, requested with that many bytes. */
  datatype Place = OnSpan(span: nat) | Cached(thread: nat, index: nat) | Transit(thread: nat, index: nat)
    | Live(bytes: nat)

  /** The span and slot a block was carved from, and where it is now. */
  datatype Block = Block(span: nat, slot: nat, place: Place)

  /** The lists themselves, front first, and the location of every carved block. */
  datatype Stock = Stock(lists: map<Place, seq<nat>>, blocks: map<nat, Block>)

  function List(k: Stock, p: Place): seq<nat> {
    if p in k.lists then k.lists[p] else []
  }

  ghost predicate Unique(k: Stock) {
    forall p :: NoDuplicates(List(k, p))
  }

  ghost predicate At(k: Stock, b: nat, p: Place) {
    b in k.blocks && k.blocks[b].place == p
  }

  ghost predicate Listed(k: Stock) {
    forall p, b :: b in List(k, p) ==> !p.Live? && At(k, b, p)
  }

  ghost predicate Placed(k: Stock) {
    forall b :: b in k.blocks && !k.blocks[b].place.Live? ==> b in List(k, k.blocks[b].place)
  }

  /** Every carved block is in exactly one place: in the list of its location, once, or in use. */
  ghost predicate Located(k: Stock) {
    Unique(k) && Listed(k) && Placed(k)
  }

  function Put(k: Stock, b: nat, p: Place): Stock
    requires b in k.blocks
  {
    Stock(if p.Live? then k.lists else k.lists[p := [b] + List(k, p)], k.blocks[b := k.blocks[b].(place := p)])
  }

  /** Pops the front block of list p and pushes it on list q, or hands it out if q is Live. */
  function Move(k: Stock, p: Place, q: Place): Stock {
    if List(k, p) == [] || List(k, p)[0] !in k.blocks then k
    else Put(k.(lists := k.lists[p := List(k, p)[1..]]), List(k, p)[0], q)
  }

  /** n times Move, or less if list p runs out. */
  function MoveMany(k: Stock, p: Place, q: Place, n: nat): Stock
    decreases n
  {
    if n == 0 || List(k, p) == [] then k else MoveMany(Move(k, p, q), p, q, n - 1)
  }

  /** A move changes neither the set of blocks nor where they were carved from. */
  ghost predicate SameHomes(k: Stock, k': Stock) {
    && k'.blocks.Keys == k.blocks.Keys
    && forall b :: b in k.blocks ==> k'.blocks[b].span == k.blocks[b].span && k'.blocks[b].slot == k.blocks[b].slot
  }

  /** Blocks are where they were, or moved from p to q. */
  ghost predicate OnlyMoved(k: Stock, p: Place, q: Place, k': Stock) {
    && SameHomes(k, k')
    && forall b :: b in k.blocks ==> At(k', b, k.blocks[b].place) || (At(k, b, p) && At(k', b, q))
  }

  /** What a move does to the lists. */
  ghost predicate Moved(k: Stock, p: Place, q: Place, k': Stock)
    requires List(k, p) != []
  {
    && (forall r :: r != p && r != q ==> List(k', r) == List(k, r))
    && List(k', p) == List(k, p)[1..]
    && List(k', q) == (if q.Live? then List(k, q) else [List(k, p)[0]] + List(k, q))
  }

  lemma MoveMoves(k: Stock, p: Place, q: Place)
    requires Located(k) && List(k, p) != [] && p != q
    ensures List(k, p)[0] in List(k, p) && Moved(k, p, q, Move(k, p, q)) && !p.Live?
    ensures OnlyMoved(k, p, q, Move(k, p, q))
  {
    assert List(k, p)[0] in List(k, p);
  }

  lemma MoveUnique(k: Stock, p: Place, q: Place, k': Stock)
    requires Located(k) && List(k, p) != [] && p != q && Moved(k, p, q, k')
    ensures Unique(k')
  {
    var b := List(k, p)[0];
    assert b in List(k, p);
    assert At(k, b, p) && b !in List(k, q);
    forall r ensures NoDuplicates(List(k', r)) {
      assert NoDuplicates(List(k, r));
      assert NoDuplicates(List(k, p));
    }
  }

  lemma MoveListed(k: Stock, p: Place, q: Place, k': Stock)
    requires Located(k) && List(k, p) != [] && p != q && Moved(k, p, q, k') && !p.Live?
    requires var b := List(k, p)[0]; b in k.blocks && k'.blocks == k.blocks[b := k.blocks[b].(place := q)]
    ensures Listed(k')
  {
    var b, xs := List(k, p)[0], List(k, p);
    assert xs == [b] + xs[1..];
    assert b !in xs[1..] by {
      assert NoDuplicates(xs);
    }
    assert b in xs;
    forall r, c | c in List(k', r) ensures !r.Live? && At(k', c, r) {
      if !(c == b && r == q) {
        assert c in List(k, r);
      }
    }
  }

  lemma MovePlaced(k: Stock, p: Place, q: Place, k': Stock)
    requires Located(k) && List(k, p) != [] && p != q && Moved(k, p, q, k')
    requires var b := List(k, p)[0]; b in k.blocks && k'.blocks == k.blocks[b := k.blocks[b].(place := q)]
    ensures Placed(k')
  {
    hide Unique, Listed;
    var b, xs := List(k, p)[0], List(k, p);
    assert xs == [b] + xs[1..];
    forall c | c in k'.blocks && !k'.blocks[c].place.Live? ensures c in List(k', k'.blocks[c].place) {
      if c != b {
        assert c in List(k, k.blocks[c].place);
      }
    }
  }

  /** Moving a block from one place to another keeps every block in exactly one place. */
  lemma MoveLocated(k: Stock, p: Place, q: Place)
    requires Located(k) && List(k, p) != [] && p != q
    ensures List(k, p)[0] in k.blocks && Located(Move(k, p, q)) && OnlyMoved(k, p, q, Move(k, p, q))
    ensures Moved(k, p, q, Move(k, p, q))
  {
    MoveMoves(k, p, q);
    hide Moved;
    MoveUnique(k, p, q, Move(k, p, q));
    MoveListed(k, p, q, Move(k, p, q));
    MovePlaced(k, p, q, Move(k, p, q));
    hide Unique, Listed, Placed;
  }

  lemma OnlyMovedSelf(k: Stock, p: Place, q: Place)
    ensures OnlyMoved(k, p, q, k)
  {}

  lemma OnlyMovedTransitive(k: Stock, k1: Stock, k2: Stock, p: Place, q: Place)
    requires OnlyMoved(k, p, q, k1) && OnlyMoved(k1, p, q, k2)
    ensures OnlyMoved(k, p, q, k2)
  {}

  lemma {:induction false} MoveManyLocated(k: Stock, p: Place, q: Place, n: nat)
    requires Located(k) && p != q && !q.Live?
    ensures Located(MoveMany(k, p, q, n)) && OnlyMoved(k, p, q, MoveMany(k, p, q, n))
    ensures forall r :: r != p && r != q ==> List(MoveMany(k, p, q, n), r) == List(k, r)
    decreases n
  {
    hide Located, OnlyMoved;
    if n > 0 && List(k, p) != [] {
      MoveLocated(k, p, q);
      MoveManyLocated(Move(k, p, q), p, q, n - 1);
      OnlyMovedTransitive(k, Move(k, p, q), MoveMany(k, p, q, n), p, q);
    } else {
      OnlyMovedSelf(k, p, q);
    }
  }

  /** The front m of xs reversed onto ys, one by one. */
  lemma ReverseStep(xs: seq<nat>, m: nat, ys: seq<nat>)
    requires 1 <= m <= |xs|
    ensures xs[1..][m - 1..] == xs[m..]
    ensures Reverse(xs[..m]) + ys == Reverse(xs[1..][..m - 1]) + ([xs[0]] + ys)
  {
    assert xs[..m][1..] == xs[1..][..m - 1];
  }

  /** Moving n blocks reverses their order, as each is popped in front and pushed in front. */
  lemma {:induction false} MoveManyLists(k: Stock, p: Place, q: Place, n: nat)
    requires Located(k) && p != q && !q.Live?
    ensures var m := Min(n, |List(k, p)|);
            && List(MoveMany(k, p, q, n), p) == List(k, p)[m..]
            && List(MoveMany(k, p, q, n), q) == Reverse(List(k, p)[..m]) + List(k, q)
    decreases n
  {
    hide Located, OnlyMoved;
    var xs, m := List(k, p), Min(n, |List(k, p)|);
    if m > 0 {
      MoveLocated(k, p, q);
      MoveManyLists(Move(k, p, q), p, q, n - 1);
      ReverseStep(xs, m, List(k, q));
      hide Reverse;
    } else {
      assert xs[..0] == [] && xs[0..] == xs;
      assert [] + List(k, q) == List(k, q);
    }
  }

  /** How many blocks move. */
  lemma MoveManyCounts(k: Stock, p: Place, q: Place, n: nat)
    requires Located(k) && p != q && !q.Live?
    ensures var m := Min(n, |List(k, p)|);
            && |List(MoveMany(k, p, q, n), p)| == |List(k, p)| - m
            && |List(MoveMany(k, p, q, n), q)| == |List(k, q)| + m
  {
    hide Located, MoveMany;
    MoveManyLists(k, p, q, n);
    var m := Min(n, |List(k, p)|);
    SumLength(Reverse(List(k, p)[..m]), List(k, q));
    hide Reverse, List;
  }

  lemma SumLength(xs: seq<nat>, ys: seq<nat>)
    ensures |xs + ys| == |xs| + |ys|
  {}

  /** The blocks of a span that have just been carved, listed on the free list of the span. */
  function Carved(k: Stock, span: nat, addresses: seq<nat>): Stock {
    Stock(k.lists[OnSpan(span) := addresses],
          k.blocks + map i | i in addresses :: Block(span, SlotOf(addresses, i), OnSpan(span)))
  }

  /** Blocks are carved upwards and pushed in front, so the last list element is slot 0. */
  function SlotOf(addresses: seq<nat>, b: nat): (slot: nat)
    ensures b in addresses ==> slot < |addresses| && addresses[|addresses| - 1 - slot] == b
  {
    if addresses == [] then 0
    else if addresses[0] == b then |addresses| - 1
    else SlotOf(addresses[1..], b)
  }

  lemma CarvedLocated(k: Stock, span: nat, addresses: seq<nat>)
    requires Located(k) && List(k, OnSpan(span)) == [] && NoDuplicates(addresses)
    requires forall b :: b in addresses ==> b !in k.blocks
    ensures Located(Carved(k, span, addresses))
    ensures forall r :: r != OnSpan(span) ==> List(Carved(k, span, addresses), r) == List(k, r)
  {
    var k' := Carved(k, span, addresses);
    assert forall r :: r != OnSpan(span) ==> List(k', r) == List(k, r);
    assert List(k', OnSpan(span)) == addresses;
    assert forall r, b :: At(k, b, r) ==> At(k', b, r);
    forall r, b | b in List(k', r) ensures !r.Live? && At(k', b, r) {
      if r != OnSpan(span) {
        assert b in List(k, r);
      }
    }
    forall b | b in k'.blocks && !k'.blocks[b].place.Live? ensures b in List(k', k'.blocks[b].place) {
      if b !in addresses {
        assert b in List(k, k.blocks[b].place);
      }
    }
    forall r ensures NoDuplicates(List(k', r)) {
      assert NoDuplicates(List(k, r));
    }
  }

  /** The stock without span s and its blocks. */
  function Dropped(k: Stock, s: nat): Stock {
    Stock(k.lists - {OnSpan(s)}, map b | b in k.blocks && k.blocks[b].span != s :: k.blocks[b])
  }

  lemma DroppedLocated(k: Stock, s: nat)
    requires Located(k)
    requires forall b :: b in k.blocks ==> (k.blocks[b].span == s <==> k.blocks[b].place == OnSpan(s))
    ensures Located(Dropped(k, s)) && List(Dropped(k, s), OnSpan(s)) == []
    ensures forall r :: r != OnSpan(s) ==> List(Dropped(k, s), r) == List(k, r)
  {
    var k' := Dropped(k, s);
    assert forall r :: r != OnSpan(s) ==> List(k', r) == List(k, r);
    assert List(k', OnSpan(s)) == [];
    forall r, b | b in List(k', r) ensures !r.Live? && At(k', b, r) {
      assert b in List(k, r) && At(k, b, r);
    }
    forall b | b in k'.blocks && !k'.blocks[b].place.Live? ensures b in List(k', k'.blocks[b].place) {
      assert b in List(k, k.blocks[b].place);
    }
    forall r ensures NoDuplicates(List(k', r)) {
      assert NoDuplicates(List(k, r));
    }
  }

  /** A block in use is pushed on list q. */
  lemma PutLocated(k: Stock, b: nat, q: Place)
    requires Located(k) && b in k.blocks && k.blocks[b].place.Live? && !q.Live?
    ensures Located(Put(k, b, q)) && OnlyMoved(k, k.blocks[b].place, q, Put(k, b, q))
    ensures forall r :: r != q ==> List(Put(k, b, q), r) == List(k, r)
    ensures List(Put(k, b, q), q) == [b] + List(k, q)
  {
    var k' := Put(k, b, q);
    assert forall r :: r != q ==> List(k', r) == List(k, r);
    assert forall r :: b in List(k, r) ==> !At(k, b, r) || r.Live?;
    assert b !in List(k, q);
    forall r, c | c in List(k', r) ensures !r.Live? && At(k', c, r) {
      if !(c == b && r == q) {
        assert c in List(k, r);
      }
    }
    forall c | c in k'.blocks && !k'.blocks[c].place.Live? ensures c in List(k', k'.blocks[c].place) {
      if c != b {
        assert c in List(k, k.blocks[c].place);
      }
    }
    forall r ensures NoDuplicates(List(k', r)) {
      assert NoDuplicates(List(k, r));
    }
  }
}
