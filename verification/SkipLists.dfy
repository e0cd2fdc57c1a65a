/** The skip list that holds the key-value store: nodes linked on several levels, kept in step
    with the finite map they stand for. */
module SkipLists {
  import opened Lists

  /** A node is on levels 0 to height - 1; height never changes. */
  class Node<K, V> {
    const key: K
    const height: nat
    var value: V
    var forward: seq<Node?<K, V>>

    constructor (key: K, value: V, height: nat)
      ensures this.key == key && this.value == value && this.height == height
      ensures |forward| == height && forall l :: 0 <= l < height ==> forward[l] == null
    {
      this.key, this.value, this.height := key, value, height;
      forward := seq(height, _ => null);
    }

    method SetForward(l: nat, to: Node?<K, V>)
      requires l < |forward|
      modifies this`forward
      ensures forward == old(forward)[l := to]
    {
      forward := forward[l := to];
    }
  }

  ghost predicate StrictOrder<K(!new)>(less: (K, K) -> bool) {
    && (forall a, b :: less(a, b) ==> !less(b, a))
    && (forall a, b, c :: less(a, b) && less(b, c) ==> less(a, c))
    && (forall a, b :: a != b ==> less(a, b) || less(b, a))
  }

  /** The first node after node i that is on level l, or the number of nodes if there is none. */
  ghost function Next<K, V>(nodes: seq<Node<K, V>>, i: nat, l: nat): (j: nat)
    requires i < |nodes|
    ensures i < j <= |nodes|
    decreases |nodes| - i
  {
    if i + 1 == |nodes| || l < nodes[i + 1].height then i + 1 else Next(nodes, i + 1, l)
  }

  lemma {:induction false} NextSkips<K, V>(nodes: seq<Node<K, V>>, i: nat, l: nat)
    requires i < |nodes|
    ensures var j := Next(nodes, i, l);
            (j < |nodes| ==> l < nodes[j].height) && forall k :: i < k < j ==> nodes[k].height <= l
    decreases |nodes| - i
  {
    if i + 1 < |nodes| && nodes[i + 1].height <= l {
      NextSkips(nodes, i + 1, l);
    }
  }

  lemma {:induction false} NextIs<K, V>(nodes: seq<Node<K, V>>, i: nat, l: nat, j: nat)
    requires i < j <= |nodes| && (j < |nodes| ==> l < nodes[j].height)
    requires forall k :: i < k < j ==> nodes[k].height <= l
    ensures Next(nodes, i, l) == j
    decreases |nodes| - i
  {
    if i + 1 < j {
      NextIs(nodes, i + 1, l, j);
    }
  }

  lemma BottomLevel<K, V>(nodes: seq<Node<K, V>>, i: nat)
    requires Shape(nodes) && i < |nodes|
    ensures Next(nodes, i, 0) == i + 1
  {}

  ghost function NodeAt<K, V>(nodes: seq<Node<K, V>>, j: nat): Node?<K, V>
    requires j <= |nodes|
  {
    if j == |nodes| then null else nodes[j]
  }

  ghost predicate Link<K, V>(nodes: seq<Node<K, V>>, i: nat, l: nat)
    requires i < |nodes|
    reads nodes`forward
  {
    l < |nodes[i].forward| && nodes[i].forward[l] == NodeAt(nodes, Next(nodes, i, l))
  }

  /** Level l links exactly the nodes that reach it, in the order of the list. */
  ghost predicate Level<K, V>(nodes: seq<Node<K, V>>, l: nat)
    reads nodes`forward
  {
    forall i :: 0 <= i < |nodes| && l < nodes[i].height ==> Link(nodes, i, l)
  }

  /** A node of the list other than the head. */
  ghost predicate Element<K, V>(nodes: seq<Node<K, V>>, node: Node<K, V>) {
    exists i :: 1 <= i < |nodes| && nodes[i] == node
  }

  /** NoDuplicates nodes, of which the first is the head and the tallest. */
  ghost predicate Shape<K, V>(nodes: seq<Node<K, V>>) {
    && nodes != [] && NoDuplicates(nodes)
    && (forall i :: 1 <= i < |nodes| ==> 1 <= nodes[i].height <= nodes[0].height)
  }

  ghost predicate Lengths<K, V>(nodes: seq<Node<K, V>>)
    reads nodes`forward
  {
    forall i :: 0 <= i < |nodes| ==> |nodes[i].forward| == nodes[i].height
  }

  ghost predicate Sorted<K, V>(nodes: seq<Node<K, V>>, less: (K, K) -> bool) {
    forall i, j :: 1 <= i < j < |nodes| ==> less(nodes[i].key, nodes[j].key)
  }

  /** Exactly the nodes before position s have a smaller key. */
  ghost predicate Splits<K, V>(nodes: seq<Node<K, V>>, less: (K, K) -> bool, key: K, s: nat) {
    && 1 <= s <= |nodes|
    && (forall i :: 1 <= i < s ==> less(nodes[i].key, key))
    && (forall i :: s <= i < |nodes| ==> !less(nodes[i].key, key))
  }

  lemma {:induction false} SplitExists<K(!new), V>(nodes: seq<Node<K, V>>, less: (K, K) -> bool, key: K)
    returns (s: nat)
    requires nodes != [] && Sorted(nodes, less) && StrictOrder(less)
    ensures Splits(nodes, less, key, s)
  {
    s := 1;
    while s < |nodes| && less(nodes[s].key, key)
      invariant 1 <= s <= |nodes| && forall i :: 1 <= i < s ==> less(nodes[i].key, key)
    {
      s := s + 1;
    }
    forall i | s <= i < |nodes| ensures !less(nodes[i].key, key) {
      assert s < i ==> less(nodes[s].key, nodes[i].key);
    }
  }

  /** The nodes hold exactly the entries of the map, one each. */
  ghost predicate Holds<K(!new), V>(nodes: seq<Node<K, V>>, m: map<K, V>)
    reads nodes`value
  {
    && (forall i :: 1 <= i < |nodes| ==> nodes[i].key in m && m[nodes[i].key] == nodes[i].value)
    && (forall k :: k in m ==> exists i :: 1 <= i < |nodes| && nodes[i].key == k)
  }

  /** level is the highest level with a node on it, or 0. */
  ghost predicate Highest<K, V>(nodes: seq<Node<K, V>>, level: nat)
    requires nodes != []
  {
    && (level < nodes[0].height)
    && (forall i :: 1 <= i < |nodes| ==> nodes[i].height <= level + 1)
    && (level == 0 || exists i :: 1 <= i < |nodes| && nodes[i].height == level + 1)
  }

  class SkipList<K(!new, ==), V> {
    const less: (K, K) -> bool
    const head: Node<K, V>
    const default: V
    var current: nat
    var size: nat
    ghost var nodes: seq<Node<K, V>>
    ghost var contents: map<K, V>

    ghost predicate Valid()
      reads this, nodes
    {
      && StrictOrder(less) && Shape(nodes) && nodes[0] == head && Lengths(nodes)
      && (forall l :: 0 <= l < head.height ==> Level(nodes, l))
      && Sorted(nodes, less) && Holds(nodes, contents)
      && Highest(nodes, current)
      && size == |nodes| - 1 == |contents|
    }

    constructor (less: (K, K) -> bool, key: K, default: V, maxLevel: nat)
      requires StrictOrder(less) && maxLevel >= 1
      ensures Valid() && contents == map[] && this.less == less && this.default == default && head.height == maxLevel
    {
      this.less, this.default, current, size, contents := less, default, 0, 0, map[];
      head := new Node(key, default, maxLevel);
      nodes := [head];
    }

    /** The search shared by all operations: from the top level down, forward while the next key is
        smaller. update[l] is the last node on level l before the position of the key. */
    method FindWithUpdate(key: K) returns (ptr: Node?<K, V>, update: seq<Node?<K, V>>, ghost at: seq<nat>, ghost s: nat)
      requires Valid()
      ensures Splits(nodes, less, key, s) && ptr == NodeAt(nodes, s)
      ensures key in contents <==> ptr != null && ptr.key == key
      ensures |update| == |at| == head.height
      ensures forall l :: 0 <= l <= current ==> Before(nodes, at[l], l, s) && update[l] == nodes[at[l]]
    {
      hide StrictOrder, Sorted, Holds;
      s := SplitExists(nodes, less, key);
      FoundAt(nodes, contents, less, key, s);
      assert 1 <= s <= |nodes|;
      assert Level(nodes, 0);
      hide Splits, Next;
      update, at := seq(head.height, _ => null), seq(head.height, _ => 0);
      var cur, level := head, current + 1;
      ghost var c := 0;
      while level > 0
        invariant 0 <= level <= current + 1 && |update| == |at| == head.height
        invariant 0 <= c < s && nodes[c] == cur && level <= cur.height
        invariant level <= current ==> Before(nodes, c, level, s)
        invariant forall l :: level <= l <= current ==> Before(nodes, at[l], l, s) && update[l] == nodes[at[l]]
      {
        level := level - 1;
        cur, c := Advance(cur, level, key, c, s);
        update, at := update[level := cur], at[level := c];
      }
      BottomLevel(nodes, c);
      assert Link(nodes, c, 0);
      assert s == c + 1;
      ptr := cur.forward[0];
    }

    method Advance(from: Node<K, V>, level: nat, key: K, ghost i: nat, ghost s: nat)
      returns (cur: Node<K, V>, ghost c: nat)
      requires Valid() && Splits(nodes, less, key, s) && i < s && nodes[i] == from && level < from.height
      requires level < head.height
      ensures c < s && nodes[c] == cur && Before(nodes, c, level, s)
    {
      cur, c := from, i;
      assert Level(nodes, level);
      assert Link(nodes, c, level);
      while cur.forward[level] != null && less(cur.forward[level].key, key)
        invariant c < s && nodes[c] == cur && level < cur.height && |cur.forward| == cur.height && Link(nodes, c, level)
        decreases |nodes| - c
      {
        NextSkips(nodes, c, level);
        cur, c := cur.forward[level], Next(nodes, c, level);
      }
    }

    /** Behind nothing, the head is the last node on every level above the current one. */
    method HeadAbove(update: seq<Node?<K, V>>, height: nat, ghost at: seq<nat>, ghost s: nat)
      returns (all: seq<Node?<K, V>>, ghost ats: seq<nat>)
      requires Shape(nodes) && nodes[0] == head && Highest(nodes, current) && 1 <= s <= |nodes| && height <= head.height
      requires |update| == |at| == head.height
      requires forall l :: 0 <= l <= current ==> Before(nodes, at[l], l, s) && update[l] == nodes[at[l]]
      ensures |all| == |ats| == head.height
      ensures forall l :: 0 <= l < height ==> Before(nodes, ats[l], l, s) && all[l] == nodes[ats[l]]
    {
      all, ats := update, at;
      var l := current + 1;
      hide Shape;
      while l < height
        invariant current + 1 <= l && |all| == |ats| == head.height
        invariant forall k :: 0 <= k < l && k < head.height ==> Before(nodes, ats[k], k, s) && all[k] == nodes[ats[k]]
      {
        NextIs(nodes, 0, l, |nodes|);
        all, ats, l := all[l := head], ats[l := 0], l + 1;
      }
    }

    /** Adds a node of the given height, which the source draws at random, behind update. */
    method CreateAndInsert(key: K, value: V, height: nat, update: seq<Node?<K, V>>, ghost at: seq<nat>, ghost s: nat)
      returns (node: Node<K, V>)
      requires Valid() && Splits(nodes, less, key, s) && key !in contents && 1 <= height <= head.height
      requires |update| == |at| == head.height
      requires forall l :: 0 <= l <= current ==> Before(nodes, at[l], l, s) && update[l] == nodes[at[l]]
      modifies this, nodes
      ensures Valid() && fresh(node) && node.key == key && node.value == value && node.height == height
      ensures contents == old(contents)[key := value] && nodes == Inserted(old(nodes), s, node)
    {
      hide Shape, Sorted, Level, Before, Linked, Targets, LevelWas, Splits, Highest, StrictOrder, Inserted, Lengths;
      hide Snapshot;
      hide NoDuplicates, LengthsWere, Holds;
      SplitBounds(nodes, less, key, s);
      ShapeParts(nodes);
      node := new Node(key, value, height);
      var all;
      ghost var was, links, ats := nodes, Snapshot(nodes), at;
      all, ats := HeadAbove(update, height, at, s);
      forall l: nat | l < head.height ensures LevelWas(was, links, l) {
        SnapshotLevel(was, l);
      }
      TargetsBefore(was, links, all, ats, height, s);
      InsertedHighest(was, s, node, current);
      if height - 1 > current {
        current := height - 1;
      }
      LinkNode(node, all, was, links, ats);
      forall l: nat | l < head.height ensures Level(Inserted(was, s, node), l) {
        InsertedLevel(was, links, s, node, ats, l);
      }
      KeyNotThere(was, contents, key);
      InsertedShape(was, s, node);
      LinkedLengths(was, links, node, ats, s);
      InsertedSize(was, s, node);
      InsertedSorted(was, s, node, less);
      InsertedHolds(was, s, node, contents);
      size := size + 1;
      nodes, contents := Inserted(was, s, node), contents[key := value];
    }

    method Find(key: K) returns (node: Node?<K, V>)
      requires Valid()
      ensures node != null <==> key in contents
      ensures node != null ==> Element(nodes, node) && node.key == key && node.value == contents[key]
    {
      var ptr;
      ghost var update, at, s;
      ptr, update, at, s := FindWithUpdate(key);
      FoundAt(nodes, contents, less, key, s);
      hide Sorted, Level, Splits, Highest, StrictOrder, Lengths, Shape;
      node := if ptr != null && ptr.key == key then ptr else null;
    }

    /** Inserts unless the key is there. height stands for the random draw. */
    method Insert(key: K, value: V, height: nat) returns (node: Node<K, V>, inserted: bool)
      requires Valid() && 1 <= height <= head.height
      modifies this, nodes
      ensures Valid() && inserted == (key !in old(contents))
      ensures contents == if inserted then old(contents)[key := value] else old(contents)
      ensures Element(nodes, node) && node.key == key && (inserted ==> node.height == height)
      ensures fresh(node) || node in old(nodes)
    {
      hide Level, Highest, Lengths, Shape, Before, Element, Sorted, StrictOrder, Splits, Inserted;
      var ptr, update;
      ghost var at, s;
      ptr, update, at, s := FindWithUpdate(key);
      FoundAt(nodes, contents, less, key, s);
      SplitBounds(nodes, less, key, s);
      if ptr != null && ptr.key == key {
        ElementAt(nodes, s);
        return ptr, false;
      }
      ghost var was := nodes;
      node := CreateAndInsert(key, value, height, update, at, s);
      InsertedElement(was, s, node);
      inserted := true;
    }

    lemma StoredValue(node: Node<K, V>)
      requires Valid() && Element(nodes, node)
      ensures node.key in contents && contents[node.key] == node.value
    {
      hide StrictOrder, Shape, Level, Sorted, Highest, Lengths;
    }

    /** operator[]: the node of the key, made with the default value if it is not there. */
    method GetOrInsert(key: K, height: nat) returns (node: Node<K, V>)
      requires Valid() && 1 <= height <= head.height
      modifies this, nodes
      ensures Valid() && contents == if key in old(contents) then old(contents) else old(contents)[key := default]
      ensures Element(nodes, node) && node.key == key && node.value == contents[key]
      ensures fresh(node) || node in old(nodes)
    {
      hide *;
      var inserted;
      node, inserted := Insert(key, default, height);
      StoredValue(node);
    }

    /** Assigning through the reference that operator[] gives. */
    method SetValue(node: Node<K, V>, value: V)
      requires Valid() && Element(nodes, node)
      modifies node`value, `contents
      ensures Valid() && contents == old(contents)[node.key := value]
    {
      hide Level, Highest, Lengths, Sorted, StrictOrder, Shape, Element;
      ghost var s := OnlyElement(nodes, less, node);
      node.value := value;
      contents := contents[node.key := value];
    }

    /** Walks level 0 from the head: every node once, in key order. */
    method Walk() returns (all: seq<Node<K, V>>)
      requires Valid()
      ensures [head] + all == nodes
    {
      hide Sorted, StrictOrder, Lengths, Holds, Shape, Level;
      assert 0 < head.height;
      hide Highest;
      all := [];
      BottomLink(nodes, 0);
      var cur := head.forward[0];
      while cur != null
        invariant |all| < |nodes| && [head] + all == nodes[..|all| + 1] && cur == NodeAt(nodes, |all| + 1)
        decreases |nodes| - |all|
      {
        ghost var i := |all| + 1;
        BottomLink(nodes, i);
        assert nodes[..i + 1] == nodes[..i] + [nodes[i]];
        all := all + [cur];
        cur := cur.forward[0];
      }
    }

    /** Destroys every node and empties the head. The result lists the destroyed nodes. */
    method Clear() returns (destroyed: seq<Node<K, V>>)
      requires Valid()
      modifies this, head
      ensures Valid() && contents == map[] && nodes == [head] && [head] + destroyed == old(nodes)
    {
      destroyed := Walk();
      OnlyHead(nodes, current);
      ghost var was := head.forward;
      var level := 0;
      while level <= current
        invariant 0 <= level <= current + 1 && |head.forward| == head.height
        invariant forall l :: 0 <= l < head.height ==> head.forward[l] == if l < level then null else was[l]
        modifies head
      {
        head.SetForward(level, null);
        level := level + 1;
      }
      current, size, nodes, contents := 0, 0, [head], map[];
      HeadAlone(head);
    }

    /** Lowers the current level past the levels that became empty. */
    method LowerLevel()
      requires Shape(nodes) && nodes[0] == head && (forall l :: 0 <= l < head.height ==> Level(nodes, l))
      requires current < head.height && forall i :: 1 <= i < |nodes| ==> nodes[i].height <= current + 1
      modifies `current
      ensures nodes != [] && Highest(nodes, current)
    {
      hide Level, Link;
      while true
        invariant current < head.height && forall i :: 1 <= i < |nodes| ==> nodes[i].height <= current + 1
        decreases current
      {
        HeadLink(nodes, current);
        if !(current > 0 && head.forward[current] == null) {
          break;
        }
        current := current - 1;
      }
    }

    /** The node at s has been unlinked on all its levels: the rest of both erase operations. */
    method FinishErase(ghost links: seq<seq<Node?<K, V>>>, ghost at: seq<nat>, ghost s: nat)
      requires StrictOrder(less) && Shape(nodes) && nodes[0] == head && Sorted(nodes, less) && Holds(nodes, contents)
      requires Highest(nodes, current) && size == |nodes| - 1 == |contents|
      requires 1 <= s < |nodes| && LengthsWere(nodes, links) && nodes[s].height <= |at|
      requires forall l :: 0 <= l < head.height ==> LevelWas(nodes, links, l)
      requires forall l :: 0 <= l < nodes[s].height ==> Before(nodes, at[l], l, s)
      requires Unlinked(nodes, links, s, at, 0, nodes[s].height)
      modifies this
      ensures Valid() && nodes == Removed(old(nodes), s) && contents == old(contents) - {old(nodes)[s].key}
    {
      hide Shape, Sorted, Level, Before, Unlinked, LevelWas, StrictOrder, Removed, Lengths, LengthsWere, Holds;
      ghost var was := nodes;
      forall l: nat | l < head.height ensures Level(Removed(was, s), l) {
        RemovedLevel(was, links, s, at, l);
      }
      UnlinkedLengths(was, links, s, at, was[s].height);
      RemovedShape(was, s);
      RemovedSorted(was, s, less);
      RemovedHolds(was, s, contents, less);
      RemovedHeights(was, s, current);
      RemovedSize(was, s, contents, was[s].key);
      hide Highest;
      nodes, contents := Removed(was, s), contents - {was[s].key};
      LowerLevel();
      size := size - 1;
    }

    /** The node at s, found by its key, is unlinked behind the recorded nodes. */
    method EraseFound(ptr: Node<K, V>, update: seq<Node?<K, V>>, ghost at: seq<nat>, ghost s: nat)
      requires Valid() && 1 <= s < |nodes| && nodes[s] == ptr && |update| == |at| == head.height
      requires forall l :: 0 <= l <= current ==> Before(nodes, at[l], l, s) && update[l] == nodes[at[l]]
      modifies this, nodes
      ensures Valid() && nodes == Removed(old(nodes), s) && contents == old(contents) - {ptr.key}
    {
      hide Sorted, Level, Before, Unlinked, LevelWas, Highest, StrictOrder, Removed, Lengths, Snapshot, Shape;
      hide NoDuplicates, LengthsWere, Holds;
      ghost var was, links := nodes, Snapshot(nodes);
      ShapeParts(nodes);
      forall l: nat | l < head.height ensures LevelWas(was, links, l) {
        SnapshotLevel(was, l);
      }
      HeightBound(nodes, current, s);
      assert forall l :: 0 <= l <= current ==> LastBefore(was, links, update, at, l, s);
      UnlinkUpdated(ptr, update, current, was, links, at, s);
      FinishErase(links, at, s);
    }

    /** Erases the key's node; how many were erased. */
    method EraseKey(key: K) returns (count: nat)
      requires Valid()
      modifies this, nodes
      ensures Valid() && count == (if key in old(contents) then 1 else 0) && contents == old(contents) - {key}
      ensures key !in old(contents) ==> nodes == old(nodes) && current == old(current)
      ensures key in old(contents) ==> exists s ::
        1 <= s < |old(nodes)| && old(nodes)[s].key == key && nodes == Removed(old(nodes), s)
    {
      var ptr, update;
      ghost var at, s;
      ptr, update, at, s := FindWithUpdate(key);
      FoundAt(nodes, contents, less, key, s);
      if ptr == null || ptr.key != key {
        return 0;
      }
      hide Sorted, Level, Before, Highest, StrictOrder, Removed, Lengths, Shape, Holds;
      EraseFound(ptr, update, at, s);
      count := 1;
    }

    method EraseNode(pos: Node<K, V>, ghost s: nat) returns (next: Node?<K, V>)
      requires Valid() && 1 <= s < |nodes| && nodes[s] == pos
      modifies this, nodes
      ensures Valid() && contents == old(contents) - {pos.key}
      ensures nodes == Removed(old(nodes), s) && next == NodeAt(old(nodes), s + 1)
    {
      hide Sorted, Splits, Before, Unlinked, LevelWas, Highest, StrictOrder, Removed, Lengths, Snapshot, Shape;
      hide NoDuplicates;
      hide LengthsWere, Holds, Next, NodeAt;
      BottomLevel(nodes, s);
      HeightBound(nodes, current, s);
      assert Level(nodes, 0) && Link(nodes, s, 0);
      next := pos.forward[0];
      hide Level, Link;
      ghost var was, links := nodes, Snapshot(nodes);
      ShapeParts(nodes);
      forall l: nat | l < head.height ensures LevelWas(was, links, l) {
        SnapshotLevel(was, l);
      }
      ghost var at := UnlinkByWalk(pos, head, was, links, s);
      FinishErase(links, at, s);
    }

    /** Erases the node at a position; the node that follows it. */
    method EraseAt(pos: Node?<K, V>) returns (next: Node?<K, V>)
      requires Valid() && (pos == null || Element(nodes, pos))
      modifies this, nodes
      ensures Valid()
      ensures pos == null ==> contents == old(contents) && nodes == old(nodes) && next == null
      ensures pos != null ==> contents == old(contents) - {pos.key} && exists s ::
        && 1 <= s < |old(nodes)| && old(nodes)[s] == pos && nodes == Removed(old(nodes), s)
        && next == NodeAt(old(nodes), s + 1)
    {
      if pos == null {
        return null;
      }
      ghost var s :| 1 <= s < |nodes| && nodes[s] == pos;
      hide *;
      next := EraseNode(pos, s);
    }
  }

  lemma HeightBound<K, V>(nodes: seq<Node<K, V>>, level: nat, s: nat)
    requires 1 <= s < |nodes| && Shape(nodes) && Highest(nodes, level)
    ensures 1 <= nodes[s].height <= level + 1 <= nodes[0].height
  {}

  /** The head's link on a level is null exactly when no node is on it. */
  lemma HeadLink<K, V>(nodes: seq<Node<K, V>>, l: nat)
    requires Shape(nodes) && Level(nodes, l) && l < nodes[0].height
    ensures l < |nodes[0].forward|
    ensures nodes[0].forward[l] == null <==> forall i :: 1 <= i < |nodes| ==> nodes[i].height <= l
  {
    assert Link(nodes, 0, l);
    NextSkips(nodes, 0, l);
  }

  /** Above the current level the head points at nothing. */
  lemma OnlyHead<K, V>(nodes: seq<Node<K, V>>, level: nat)
    requires Shape(nodes) && Lengths(nodes) && Highest(nodes, level)
    requires forall l :: 0 <= l < nodes[0].height ==> Level(nodes, l)
    ensures forall l :: level < l < nodes[0].height ==> nodes[0].forward[l] == null
  {
    hide Level;
    forall l | level < l < nodes[0].height ensures nodes[0].forward[l] == null {
      HeadLink(nodes, l);
    }
  }

  lemma BottomLink<K, V>(nodes: seq<Node<K, V>>, i: nat)
    requires Shape(nodes) && 0 < nodes[0].height && Level(nodes, 0) && i < |nodes|
    ensures 0 < |nodes[i].forward| && nodes[i].forward[0] == NodeAt(nodes, i + 1)
  {
    assert Link(nodes, i, 0);
    BottomLevel(nodes, i);
  }

  lemma HeadAlone<K, V>(head: Node<K, V>)
    requires |head.forward| == head.height && forall l :: 0 <= l < head.height ==> head.forward[l] == null
    ensures forall l :: 0 <= l < head.height ==> Level([head], l)
  {}

  lemma RemovedSize<T, K, V>(xs: seq<T>, s: nat, m: map<K, V>, key: K)
    requires s < |xs| && key in m
    ensures |Removed(xs, s)| == |xs| - 1 && |m - {key}| == |m| - 1
  {
    assert (m - {key}).Keys == m.Keys - {key};
    assert |(m - {key}).Keys| == |m.Keys| - 1;
  }

  lemma ElementAt<K, V>(nodes: seq<Node<K, V>>, s: nat)
    requires 1 <= s < |nodes|
    ensures Element(nodes, nodes[s])
  {}

  lemma InsertedElement<K, V>(nodes: seq<Node<K, V>>, s: nat, node: Node<K, V>)
    requires 1 <= s <= |nodes|
    ensures Element(Inserted(nodes, s, node), node)
  {
    InsertedAt(nodes, s, node);
    ElementAt(Inserted(nodes, s, node), s);
  }

  lemma OnlyElement<K(!new), V>(nodes: seq<Node<K, V>>, less: (K, K) -> bool, node: Node<K, V>) returns (s: nat)
    requires Element(nodes, node) && Shape(nodes) && Sorted(nodes, less) && StrictOrder(less)
    ensures 1 <= s < |nodes| && nodes[s] == node
    ensures forall i :: 1 <= i < |nodes| && i != s ==> nodes[i] != node && nodes[i].key != node.key
  {
    s :| 1 <= s < |nodes| && nodes[s] == node;
    forall i | 1 <= i < |nodes| && i != s ensures nodes[i].key != node.key {
      KeysDiffer(nodes, less, s, i);
    }
  }

  lemma KeyAtSplit<K(!new), V>(nodes: seq<Node<K, V>>, less: (K, K) -> bool, key: K, s: nat, i: nat)
    requires Splits(nodes, less, key, s) && Sorted(nodes, less) && StrictOrder(less)
    requires 1 <= i < |nodes| && nodes[i].key == key
    ensures i == s
  {
    if s < i {
      InOrder(nodes, less, s, i);
    }
  }

  lemma InOrder<K(!new), V>(nodes: seq<Node<K, V>>, less: (K, K) -> bool, i: nat, j: nat)
    requires Sorted(nodes, less) && 1 <= i < j < |nodes|
    ensures less(nodes[i].key, nodes[j].key)
  {}

  /** The key is in the map exactly when the node at its position holds it. */
  lemma FoundAt<K(!new), V>(nodes: seq<Node<K, V>>, m: map<K, V>, less: (K, K) -> bool, key: K, s: nat)
    requires Splits(nodes, less, key, s) && Sorted(nodes, less) && StrictOrder(less) && Holds(nodes, m)
    ensures key in m <==> s < |nodes| && nodes[s].key == key
    ensures s < |nodes| && nodes[s].key == key ==> m[key] == nodes[s].value
  {
    if key in m {
      var i :| 1 <= i < |nodes| && nodes[i].key == key;
      KeyAtSplit(nodes, less, key, s, i);
    }
  }

  lemma KeyNotThere<K(!new), V>(nodes: seq<Node<K, V>>, m: map<K, V>, key: K)
    requires Holds(nodes, m) && key !in m
    ensures forall i :: 1 <= i < |nodes| ==> nodes[i].key != key
  {}

  lemma TargetsBefore<K, V>(nodes: seq<Node<K, V>>, links: seq<seq<Node?<K, V>>>, update: seq<Node?<K, V>>,
                            at: seq<nat>, n: nat, s: nat)
    requires |links| == |nodes| && n <= |at| && n <= |update|
    requires forall l :: 0 <= l < n ==> LevelWas(nodes, links, l)
    requires forall l :: 0 <= l < n ==> Before(nodes, at[l], l, s) && update[l] == nodes[at[l]]
    ensures Targets(nodes, links, update, at, n)
  {
    forall l: nat | l < n ensures at[l] < |nodes| && l < |links[at[l]]| {
      assert Before(nodes, at[l], l, s) && LevelWas(nodes, links, l);
    }
  }

  ghost predicate LengthsWere<K, V>(nodes: seq<Node<K, V>>, links: seq<seq<Node?<K, V>>>) {
    |links| == |nodes| && forall i :: 0 <= i < |nodes| ==> |links[i]| == nodes[i].height
  }

  lemma SplitBounds<K, V>(nodes: seq<Node<K, V>>, less: (K, K) -> bool, key: K, s: nat)
    requires Splits(nodes, less, key, s)
    ensures 1 <= s <= |nodes|
  {}

  lemma ShapeParts<K, V>(nodes: seq<Node<K, V>>)
    requires Shape(nodes) && Lengths(nodes)
    ensures nodes != [] && NoDuplicates(nodes) && LengthsWere(nodes, Snapshot(nodes))
  {
    hide Snapshot;
  }

  lemma InsertedSize<T>(xs: seq<T>, s: nat, x: T)
    requires s <= |xs|
    ensures |Inserted(xs, s, x)| == |xs| + 1
  {}

  lemma LinkedLengths<K, V>(nodes: seq<Node<K, V>>, links: seq<seq<Node?<K, V>>>, node: Node<K, V>, at: seq<nat>,
                            s: nat)
    requires LengthsWere(nodes, links) && node.height <= |at| && Linked(nodes, links, node, at, node.height)
    requires |node.forward| == node.height && s <= |nodes|
    ensures Lengths(Inserted(nodes, s, node))
  {
    InsertedLengths(nodes, s, node);
  }

  /** The front n of the new node's levels are linked in behind the nodes at[0], ..., at[n - 1]. */
  ghost predicate Linked<K, V>(nodes: seq<Node<K, V>>, links: seq<seq<Node?<K, V>>>, node: Node<K, V>, at: seq<nat>,
                               n: nat)
    reads nodes`forward, node`forward
    requires |links| == |nodes| && n <= |at|
  {
    && (forall i :: 0 <= i < |nodes| ==> |nodes[i].forward| == |links[i]|)
    && (forall i, l {:trigger nodes[i].forward[l]} {:trigger links[i][l]} ::
          0 <= i < |nodes| && 0 <= l < |links[i]| ==>
            nodes[i].forward[l] == if l < n && at[l] == i then node else links[i][l])
    && n <= |node.forward|
    && (forall l :: 0 <= l < n ==> at[l] < |links| && l < |links[at[l]]| && node.forward[l] == links[at[l]][l])
  }

  /** Nodes where links are to be changed: each at its place, on its level. */
  ghost predicate Targets<K, V>(nodes: seq<Node<K, V>>, links: seq<seq<Node?<K, V>>>, update: seq<Node?<K, V>>,
                                at: seq<nat>, n: nat) {
    |links| == |nodes| && n <= |at| && n <= |update| &&
    forall l :: 0 <= l < n ==> at[l] < |nodes| && update[l] == nodes[at[l]] && l < |links[at[l]]|
  }

  method LinkNode<K, V>(node: Node<K, V>, update: seq<Node?<K, V>>, ghost nodes: seq<Node<K, V>>,
                        ghost links: seq<seq<Node?<K, V>>>, ghost at: seq<nat>)
    requires NoDuplicates(nodes) && node !in nodes
    requires |node.forward| == node.height && Targets(nodes, links, update, at, node.height)
    requires forall i :: 0 <= i < |nodes| ==> nodes[i].forward == links[i]
    modifies node`forward, nodes`forward
    ensures Linked(nodes, links, node, at, node.height) && |node.forward| == node.height
  {
    var l := 0;
    while l < node.height
      invariant 0 <= l <= node.height && |node.forward| == node.height
      invariant Linked(nodes, links, node, at, l)
    {
      node.SetForward(l, update[l].forward[l]);
      update[l].SetForward(l, node);
      l := l + 1;
    }
  }

  /** Node i is the last one on level l before position s. */
  ghost predicate Before<K, V>(nodes: seq<Node<K, V>>, i: nat, l: nat, s: nat) {
    i < s <= |nodes| && l < nodes[i].height && s <= Next(nodes, i, l)
  }

  // ---- inserting a node at position s ----

  ghost function Inserted<T>(xs: seq<T>, s: nat, x: T): seq<T>
    requires s <= |xs|
  {
    xs[..s] + [x] + xs[s..]
  }

  lemma InsertedAt<T>(xs: seq<T>, s: nat, x: T)
    requires s <= |xs|
    ensures |Inserted(xs, s, x)| == |xs| + 1 && Inserted(xs, s, x)[s] == x
    ensures forall i :: 0 <= i < s ==> Inserted(xs, s, x)[i] == xs[i]
    ensures forall i {:trigger Inserted(xs, s, x)[i]} :: s < i < |xs| + 1 ==> Inserted(xs, s, x)[i] == xs[i - 1]
  {}

  lemma InsertedNew<T>(xs: seq<T>, s: nat, x: T)
    requires s <= |xs|
    ensures |Inserted(xs, s, x)| == |xs| + 1 && Inserted(xs, s, x)[s] == x
  {}

  lemma InsertedFrom<T>(xs: seq<T>, s: nat, x: T, i: nat)
    requires s <= |xs| && i < |Inserted(xs, s, x)|
    ensures |Inserted(xs, s, x)| == |xs| + 1
    ensures Inserted(xs, s, x)[i] == if i == s then x else xs[if i < s then i else i - 1]
  {}

  /** Where node i of the old list now points on level l. */
  lemma NextInserted<K, V>(nodes: seq<Node<K, V>>, s: nat, node: Node<K, V>, l: nat, i: nat)
    requires s <= |nodes| && i < |nodes|
    ensures var after, j := Inserted(nodes, s, node), Next(nodes, i, l);
            if i >= s then i + 1 < |after| && Next(after, i + 1, l) == j + 1
            else i < |after| && Next(after, i, l) == if j < s then j else if l < node.height then s else j + 1
  {
    var after, j := Inserted(nodes, s, node), Next(nodes, i, l);
    NextSkips(nodes, i, l);
    InsertedAt(nodes, s, node);
    hide Inserted, Next;
    if i >= s {
      NextIs(after, i + 1, l, j + 1);
    } else if j < s {
      NextIs(after, i, l, j);
    } else if l < node.height {
      NextIs(after, i, l, s);
    } else {
      NextIs(after, i, l, j + 1);
    }
  }

  lemma NextOfNew<K, V>(nodes: seq<Node<K, V>>, s: nat, node: Node<K, V>, l: nat, c: nat)
    requires Before(nodes, c, l, s)
    ensures s < |Inserted(nodes, s, node)| && Next(Inserted(nodes, s, node), s, l) == Next(nodes, c, l) + 1
  {
    NextSkips(nodes, c, l);
    InsertedAt(nodes, s, node);
    hide Inserted, Next;
    NextIs(Inserted(nodes, s, node), s, l, Next(nodes, c, l) + 1);
  }

  /** On a level there is one last node before a position. */
  lemma BeforeUnique<K, V>(nodes: seq<Node<K, V>>, c: nat, l: nat, s: nat, i: nat)
    requires Before(nodes, c, l, s) && i < s && l < nodes[i].height
    ensures i != c ==> Next(nodes, i, l) < s
  {
    NextSkips(nodes, i, l);
    NextSkips(nodes, c, l);
    hide Next;
  }

  /** All links of all nodes. */
  ghost function Snapshot<K, V>(nodes: seq<Node<K, V>>): (links: seq<seq<Node?<K, V>>>)
    reads nodes
    ensures |links| == |nodes| && forall i :: 0 <= i < |nodes| ==> links[i] == nodes[i].forward
  {
    seq(|nodes|, i requires 0 <= i < |nodes| reads nodes => nodes[i].forward)
  }

  /** The links of level l are those of the list of nodes. */
  ghost predicate LevelWas<K, V>(nodes: seq<Node<K, V>>, links: seq<seq<Node?<K, V>>>, l: nat) {
    |links| == |nodes| && forall i :: 0 <= i < |nodes| && l < nodes[i].height ==>
      l < |links[i]| && links[i][l] == NodeAt(nodes, Next(nodes, i, l))
  }

  lemma SnapshotLevel<K, V>(nodes: seq<Node<K, V>>, l: nat)
    requires Level(nodes, l)
    ensures LevelWas(nodes, Snapshot(nodes), l)
  {
    hide Snapshot, NodeAt, Next;
    forall i | 0 <= i < |nodes| && l < nodes[i].height
      ensures l < |nodes[i].forward| && nodes[i].forward[l] == NodeAt(nodes, Next(nodes, i, l))
    {
      assert Link(nodes, i, l);
    }
  }

  lemma InsertedNodeAt<K, V>(nodes: seq<Node<K, V>>, s: nat, node: Node<K, V>, j: nat)
    requires s <= |nodes| && j <= |nodes|
    ensures |Inserted(nodes, s, node)| == |nodes| + 1
    ensures j < s ==> NodeAt(Inserted(nodes, s, node), j) == NodeAt(nodes, j)
    ensures s <= j ==> NodeAt(Inserted(nodes, s, node), j + 1) == NodeAt(nodes, j)
    ensures NodeAt(Inserted(nodes, s, node), s) == node
  {
    InsertedAt(nodes, s, node);
    hide Inserted;
  }

  lemma BeforeBound<K, V>(nodes: seq<Node<K, V>>, c: nat, l: nat, s: nat)
    requires Before(nodes, c, l, s)
    ensures c < s <= Next(nodes, c, l) && l < nodes[c].height
  {}

  lemma LinkedAt<K, V>(nodes: seq<Node<K, V>>, links: seq<seq<Node?<K, V>>>, node: Node<K, V>, at: seq<nat>, k: nat,
                       l: nat)
    requires LevelWas(nodes, links, l) && node.height <= |at| && Linked(nodes, links, node, at, node.height)
    requires k < |nodes| && l < nodes[k].height
    ensures l < |nodes[k].forward|
    ensures nodes[k].forward[l] == if l < node.height && at[l] == k then node else NodeAt(nodes, Next(nodes, k, l))
    ensures l < node.height && at[l] == k ==> l < |node.forward| && node.forward[l] == NodeAt(nodes, Next(nodes, k, l))
  {
    assert links[k][l] == NodeAt(nodes, Next(nodes, k, l));
    assert l < |links[k]|;
    assert l < node.height && at[l] == k ==> nodes[k].forward[l] == node;
    assert !(l < node.height && at[l] == k) ==> nodes[k].forward[l] == links[k][l];
  }

  lemma OldPlace<T>(xs: seq<T>, s: nat, x: T, k: nat)
    requires s <= |xs| && k < |xs|
    ensures (if k < s then k else k + 1) < |Inserted(xs, s, x)|
    ensures Inserted(xs, s, x)[if k < s then k else k + 1] == xs[k]
  {}

  lemma InsertedLink<K, V>(nodes: seq<Node<K, V>>, links: seq<seq<Node?<K, V>>>, s: nat, node: Node<K, V>,
                           at: seq<nat>, l: nat, k: nat)
    requires LevelWas(nodes, links, l) && 1 <= s <= |nodes| && node.height <= |at| && k < |nodes| && l < nodes[k].height
    requires Linked(nodes, links, node, at, node.height)
    requires l < node.height ==> Before(nodes, at[l], l, s)
    ensures (if k < s then k else k + 1) < |Inserted(nodes, s, node)|
    ensures Link(Inserted(nodes, s, node), if k < s then k else k + 1, l)
  {
    hide Inserted, Next, Before, Linked, LevelWas, NodeAt;
    LinkedAt(nodes, links, node, at, k, l);
    NextInserted(nodes, s, node, l, k);
    InsertedNodeAt(nodes, s, node, Next(nodes, k, l));
    OldPlace(nodes, s, node, k);
    if l < node.height {
      BeforeBound(nodes, at[l], l, s);
      if k < s {
        BeforeUnique(nodes, at[l], l, s, k);
      }
    }
  }

  lemma NewLink<K, V>(nodes: seq<Node<K, V>>, links: seq<seq<Node?<K, V>>>, s: nat, node: Node<K, V>, at: seq<nat>,
                      l: nat)
    requires LevelWas(nodes, links, l) && 1 <= s <= |nodes| && node.height <= |at| && l < node.height
    requires Linked(nodes, links, node, at, node.height) && Before(nodes, at[l], l, s)
    ensures s < |Inserted(nodes, s, node)| && Link(Inserted(nodes, s, node), s, l)
  {
    hide Inserted, Next, Before, Linked, LevelWas, NodeAt;
    InsertedNew(nodes, s, node);
    BeforeBound(nodes, at[l], l, s);
    LinkedAt(nodes, links, node, at, at[l], l);
    NextOfNew(nodes, s, node, l, at[l]);
    InsertedNodeAt(nodes, s, node, Next(nodes, at[l], l));
  }

  lemma InsertedLinkAt<K, V>(nodes: seq<Node<K, V>>, links: seq<seq<Node?<K, V>>>, s: nat, node: Node<K, V>,
                             at: seq<nat>, l: nat, i: nat)
    requires LevelWas(nodes, links, l) && 1 <= s <= |nodes| && node.height <= |at|
    requires Linked(nodes, links, node, at, node.height)
    requires l < node.height ==> Before(nodes, at[l], l, s)
    requires i < |Inserted(nodes, s, node)| && l < Inserted(nodes, s, node)[i].height
    ensures Link(Inserted(nodes, s, node), i, l)
  {
    hide Inserted, Before, Linked, LevelWas, Link;
    InsertedFrom(nodes, s, node, i);
    if i == s {
      NewLink(nodes, links, s, node, at, l);
    } else if i < s {
      InsertedLink(nodes, links, s, node, at, l, i);
    } else {
      InsertedLink(nodes, links, s, node, at, l, i - 1);
    }
  }

  lemma InsertedLevel<K, V>(nodes: seq<Node<K, V>>, links: seq<seq<Node?<K, V>>>, s: nat, node: Node<K, V>,
                            at: seq<nat>, l: nat)
    requires LevelWas(nodes, links, l) && 1 <= s <= |nodes| && node.height <= |at|
    requires Linked(nodes, links, node, at, node.height)
    requires l < node.height ==> Before(nodes, at[l], l, s)
    ensures Level(Inserted(nodes, s, node), l)
  {
    hide Inserted, Before, Linked, LevelWas, Link;
    forall i: nat | i < |Inserted(nodes, s, node)| && l < Inserted(nodes, s, node)[i].height
      ensures Link(Inserted(nodes, s, node), i, l)
    {
      InsertedLinkAt(nodes, links, s, node, at, l, i);
    }
  }

  lemma InsertedShape<K, V>(nodes: seq<Node<K, V>>, s: nat, node: Node<K, V>)
    requires Shape(nodes) && 1 <= s <= |nodes| && node !in nodes && 1 <= node.height <= nodes[0].height
    ensures Shape(Inserted(nodes, s, node)) && Inserted(nodes, s, node)[0] == nodes[0]
  {
    var after := Inserted(nodes, s, node);
    InsertedAt(nodes, s, node);
    hide Inserted;
    forall i: nat, j: nat | i < j < |after| ensures after[i] != after[j] {
      assert j != s ==> after[j] == nodes[if j < s then j else j - 1];
      assert i != s ==> after[i] == nodes[if i < s then i else i - 1];
    }
  }

  lemma InsertedLengths<K, V>(nodes: seq<Node<K, V>>, s: nat, node: Node<K, V>)
    requires Lengths(nodes) && s <= |nodes| && |node.forward| == node.height
    ensures Lengths(Inserted(nodes, s, node))
  {
    InsertedAt(nodes, s, node);
    hide Inserted;
  }

  lemma InsertedSorted<K(!new), V>(nodes: seq<Node<K, V>>, s: nat, node: Node<K, V>, less: (K, K) -> bool)
    requires Sorted(nodes, less) && Splits(nodes, less, node.key, s) && StrictOrder(less)
    requires s < |nodes| ==> nodes[s].key != node.key
    ensures Sorted(Inserted(nodes, s, node), less)
  {
    var after := Inserted(nodes, s, node);
    InsertedAt(nodes, s, node);
    hide Inserted;
    forall i: nat, j: nat | 1 <= i < j < |after| ensures less(after[i].key, after[j].key) {
      assert j != s ==> after[j] == nodes[if j < s then j else j - 1];
      assert i != s ==> after[i] == nodes[if i < s then i else i - 1];
      if i == s {
        AfterSplit(nodes, less, node.key, s, j - 1);
      }
    }
  }

  lemma AfterSplit<K(!new), V>(nodes: seq<Node<K, V>>, less: (K, K) -> bool, key: K, s: nat, j: nat)
    requires s <= j < |nodes| && nodes[s].key != key
    requires Sorted(nodes, less) && Splits(nodes, less, key, s) && StrictOrder(less)
    ensures less(key, nodes[j].key)
  {
    assert less(key, nodes[s].key);
    assert s < j ==> less(nodes[s].key, nodes[j].key);
  }

  lemma InsertedHolds<K(!new), V>(nodes: seq<Node<K, V>>, s: nat, node: Node<K, V>, m: map<K, V>)
    requires Holds(nodes, m) && 1 <= s <= |nodes| && node.key !in m
    ensures Holds(Inserted(nodes, s, node), m[node.key := node.value])
  {
    var after, m' := Inserted(nodes, s, node), m[node.key := node.value];
    InsertedAt(nodes, s, node);
    hide Inserted;
    forall i: nat | 1 <= i < |after| ensures after[i].key in m' && m'[after[i].key] == after[i].value {
      assert i != s ==> after[i] == nodes[if i < s then i else i - 1];
    }
    forall k | k in m' ensures exists i :: 1 <= i < |after| && after[i].key == k {
      if k == node.key {
        assert after[s].key == k;
      } else {
        var i :| 1 <= i < |nodes| && nodes[i].key == k;
        assert after[if i < s then i else i + 1] == nodes[i];
      }
    }
  }

  lemma InsertedHighest<K, V>(nodes: seq<Node<K, V>>, s: nat, node: Node<K, V>, level: nat)
    requires Shape(nodes) && Highest(nodes, level) && 1 <= s <= |nodes| && 1 <= node.height <= nodes[0].height
    ensures |Inserted(nodes, s, node)| > 0
    ensures Highest(Inserted(nodes, s, node), if node.height - 1 > level then node.height - 1 else level)
  {
    var after := Inserted(nodes, s, node);
    InsertedAt(nodes, s, node);
    hide Inserted, Shape;
    var level' := if node.height - 1 > level then node.height - 1 else level;
    forall i: nat | 1 <= i < |after| ensures after[i].height <= level' + 1 {
      assert i != s ==> after[i] == nodes[if i < s then i else i - 1];
    }
    if node.height - 1 > level {
      assert after[s].height == level' + 1;
    } else if level > 0 {
      var i :| 1 <= i < |nodes| && nodes[i].height == level + 1;
      assert after[if i < s then i else i + 1].height == level' + 1;
    }
  }

  // ---- removing the node at position s ----

  lemma RemovedFrom<T>(xs: seq<T>, s: nat, i: nat)
    requires s < |xs| && i < |Removed(xs, s)|
    ensures i < |xs| - 1 && Removed(xs, s)[i] == xs[if i < s then i else i + 1]
  {}

  lemma RemovedPlace<T>(xs: seq<T>, s: nat, k: nat)
    requires s < |xs| && k < |xs| && k != s
    ensures (if k < s then k else k - 1) < |Removed(xs, s)|
    ensures Removed(xs, s)[if k < s then k else k - 1] == xs[k]
  {}

  /** On levels lo to n - 1 the links to node s are replaced by its own. */
  ghost predicate Unlinked<K, V>(nodes: seq<Node<K, V>>, links: seq<seq<Node?<K, V>>>, s: nat, at: seq<nat>, lo: nat,
                                 n: nat)
    reads nodes`forward
    requires |links| == |nodes| && n <= |at| && s < |nodes|
  {
    && (forall i :: 0 <= i < |nodes| ==> |nodes[i].forward| == |links[i]|) && n <= |links[s]|
    && (forall i, l {:trigger nodes[i].forward[l]} {:trigger links[i][l]} ::
          0 <= i < |nodes| && 0 <= l < |links[i]| ==>
            nodes[i].forward[l] == if lo <= l < n && at[l] == i then links[s][l] else links[i][l])
  }

  lemma NextRemoved<K, V>(nodes: seq<Node<K, V>>, s: nat, l: nat, i: nat)
    requires s < |nodes| && i < |nodes| && i != s
    ensures var after, j := Removed(nodes, s), Next(nodes, i, l);
            if i > s then i - 1 < |after| && Next(after, i - 1, l) == j - 1
            else
              && i < |after|
              && Next(after, i, l) == if j < s then j else if j == s then Next(nodes, s, l) - 1 else j - 1
  {
    var after, j := Removed(nodes, s), Next(nodes, i, l);
    NextSkips(nodes, i, l);
    NextSkips(nodes, s, l);
    RemovedAt(nodes, s);
    hide Removed, Next;
    if i > s {
      NextIs(after, i - 1, l, j - 1);
    } else if j < s {
      NextIs(after, i, l, j);
    } else if j == s {
      NextIs(after, i, l, Next(nodes, s, l) - 1);
    } else {
      NextIs(after, i, l, j - 1);
    }
  }

  lemma RemovedNodeAt<K, V>(nodes: seq<Node<K, V>>, s: nat, j: nat)
    requires s < |nodes| && j <= |nodes| && j != s
    ensures |Removed(nodes, s)| == |nodes| - 1
    ensures NodeAt(Removed(nodes, s), if j < s then j else j - 1) == NodeAt(nodes, j)
  {
    RemovedAt(nodes, s);
    hide Removed;
  }

  lemma UnlinkedAt<K, V>(nodes: seq<Node<K, V>>, links: seq<seq<Node?<K, V>>>, s: nat, at: seq<nat>, n: nat, k: nat,
                         l: nat)
    requires LevelWas(nodes, links, l) && n <= |at| && s < |nodes| && Unlinked(nodes, links, s, at, 0, n)
    requires k < |nodes| && l < nodes[k].height && (l < n <==> l < nodes[s].height)
    ensures l < |nodes[k].forward|
    ensures nodes[k].forward[l] ==
      if l < n && at[l] == k then NodeAt(nodes, Next(nodes, s, l)) else NodeAt(nodes, Next(nodes, k, l))
  {
    assert links[k][l] == NodeAt(nodes, Next(nodes, k, l));
    assert l < n ==> links[s][l] == NodeAt(nodes, Next(nodes, s, l));
    assert l < |links[k]|;
  }

  lemma RemovedLink<K, V>(nodes: seq<Node<K, V>>, links: seq<seq<Node?<K, V>>>, s: nat, at: seq<nat>, l: nat, k: nat)
    requires LevelWas(nodes, links, l) && s < |nodes| && nodes[s].height <= |at| && k < |nodes| && k != s
    requires l < nodes[k].height
    requires Unlinked(nodes, links, s, at, 0, nodes[s].height)
    requires l < nodes[s].height ==> Before(nodes, at[l], l, s)
    ensures (if k < s then k else k - 1) < |Removed(nodes, s)|
    ensures Link(Removed(nodes, s), if k < s then k else k - 1, l)
  {
    hide Removed, Before, Unlinked, LevelWas, NodeAt;
    UnlinkedAt(nodes, links, s, at, nodes[s].height, k, l);
    NextRemoved(nodes, s, l, k);
    RemovedPlace(nodes, s, k);
    NextSkips(nodes, k, l);
    hide Next;
    if l < nodes[s].height {
      BeforeBound(nodes, at[l], l, s);
      RemovedNodeAt(nodes, s, Next(nodes, s, l));
      if k < s {
        BeforeUnique(nodes, at[l], l, s, k);
        ReachesNext(nodes, at[l], l, s);
      }
    }
    if Next(nodes, k, l) != s {
      RemovedNodeAt(nodes, s, Next(nodes, k, l));
    }
  }

  lemma ReachesNext<K, V>(nodes: seq<Node<K, V>>, c: nat, l: nat, s: nat)
    requires Before(nodes, c, l, s) && s < |nodes|
    ensures Next(nodes, c, l) == s <==> l < nodes[s].height
  {
    NextSkips(nodes, c, l);
  }

  lemma RemovedLevel<K, V>(nodes: seq<Node<K, V>>, links: seq<seq<Node?<K, V>>>, s: nat, at: seq<nat>, l: nat)
    requires LevelWas(nodes, links, l) && s < |nodes| && nodes[s].height <= |at|
    requires Unlinked(nodes, links, s, at, 0, nodes[s].height)
    requires l < nodes[s].height ==> Before(nodes, at[l], l, s)
    ensures Level(Removed(nodes, s), l)
  {
    var after := Removed(nodes, s);
    hide Removed, Before, Unlinked, LevelWas, Link;
    forall i: nat | i < |after| && l < after[i].height ensures Link(after, i, l) {
      RemovedFrom(nodes, s, i);
      RemovedLink(nodes, links, s, at, l, if i < s then i else i + 1);
    }
  }

  lemma RemovedShape<K, V>(nodes: seq<Node<K, V>>, s: nat)
    requires Shape(nodes) && 1 <= s < |nodes|
    ensures Shape(Removed(nodes, s)) && Removed(nodes, s)[0] == nodes[0]
  {
    RemovedAt(nodes, s);
    hide Removed;
  }

  lemma RemovedSorted<K(!new), V>(nodes: seq<Node<K, V>>, s: nat, less: (K, K) -> bool)
    requires Sorted(nodes, less) && 1 <= s < |nodes|
    ensures Sorted(Removed(nodes, s), less)
  {
    RemovedAt(nodes, s);
    hide Removed;
  }

  lemma UnlinkedLengths<K, V>(nodes: seq<Node<K, V>>, links: seq<seq<Node?<K, V>>>, s: nat, at: seq<nat>, n: nat)
    requires LengthsWere(nodes, links) && n <= |at| && s < |nodes| && Unlinked(nodes, links, s, at, 0, n)
    ensures Lengths(Removed(nodes, s))
  {
    RemovedAt(nodes, s);
    hide Removed;
  }

  lemma RemovedHolds<K(!new), V>(nodes: seq<Node<K, V>>, s: nat, m: map<K, V>, less: (K, K) -> bool)
    requires Holds(nodes, m) && 1 <= s < |nodes| && Sorted(nodes, less) && StrictOrder(less)
    ensures nodes[s].key in m && Holds(Removed(nodes, s), m - {nodes[s].key})
  {
    var after, m' := Removed(nodes, s), m - {nodes[s].key};
    RemovedAt(nodes, s);
    hide Removed;
    forall i: nat | 1 <= i < |after| ensures after[i].key in m' && m'[after[i].key] == after[i].value {
      KeysDiffer(nodes, less, s, if i < s then i else i + 1);
    }
    forall k | k in m' ensures exists i :: 1 <= i < |after| && after[i].key == k {
      var i :| 1 <= i < |nodes| && nodes[i].key == k;
      assert after[if i < s then i else i - 1] == nodes[i];
    }
  }

  lemma KeysDiffer<K(!new), V>(nodes: seq<Node<K, V>>, less: (K, K) -> bool, s: nat, i: nat)
    requires 1 <= s < |nodes| && 1 <= i < |nodes| && i != s && Sorted(nodes, less) && StrictOrder(less)
    ensures nodes[i].key != nodes[s].key
  {
    assert if i < s then less(nodes[i].key, nodes[s].key) else less(nodes[s].key, nodes[i].key);
  }

  lemma RemovedHeights<K, V>(nodes: seq<Node<K, V>>, s: nat, level: nat)
    requires 1 <= s < |nodes| && Highest(nodes, level)
    ensures forall i :: 1 <= i < |Removed(nodes, s)| ==> Removed(nodes, s)[i].height <= level + 1
  {
    RemovedAt(nodes, s);
    hide Removed;
  }

  /** One level: the node before ptr now points past it. */
  method CutLevel<K, V>(before: Node<K, V>, ptr: Node<K, V>, l: nat, ghost nodes: seq<Node<K, V>>,
                        ghost links: seq<seq<Node?<K, V>>>, ghost at: seq<nat>, ghost s: nat)
    requires NoDuplicates(nodes) && |links| == |nodes| && l < |at| && at[l] < |nodes| && nodes[at[l]] == before
    requires s < |nodes| && nodes[s] == ptr && at[l] != s && l < |links[at[l]]| && l < |links[s]|
    requires Unlinked(nodes, links, s, at, 0, l)
    modifies before`forward
    ensures Unlinked(nodes, links, s, at, 0, l + 1)
  {
    before.SetForward(l, ptr.forward[l]);
  }

  ghost predicate LastBefore<K, V>(nodes: seq<Node<K, V>>, links: seq<seq<Node?<K, V>>>, update: seq<Node?<K, V>>,
                                   at: seq<nat>, l: nat, s: nat)
    requires l < |at| && l < |update|
  {
    LevelWas(nodes, links, l) && Before(nodes, at[l], l, s) && update[l] == nodes[at[l]]
  }

  /** erase by key: levels from the bottom up, as long as the node before the key points at it. */
  method UnlinkUpdated<K, V>(ptr: Node<K, V>, update: seq<Node?<K, V>>, current: nat, ghost nodes: seq<Node<K, V>>,
                             ghost links: seq<seq<Node?<K, V>>>, ghost at: seq<nat>, ghost s: nat)
    requires NoDuplicates(nodes) && LengthsWere(nodes, links)
    requires forall i :: 0 <= i < |nodes| ==> nodes[i].forward == links[i]
    requires 1 <= s < |nodes| && nodes[s] == ptr && ptr.height <= current + 1 <= |at| && |update| == |at|
    requires forall l :: 0 <= l <= current ==> LastBefore(nodes, links, update, at, l, s)
    modifies nodes`forward
    ensures Unlinked(nodes, links, s, at, 0, ptr.height)
  {
    var l := 0;
    NothingUnlinked(nodes, links, s, at);
    hide LastBefore, NoDuplicates, LengthsWere, Unlinked;
    while l <= current
      invariant 0 <= l <= ptr.height && Unlinked(nodes, links, s, at, 0, l)
    {
      PointsAt(nodes, links, update, at, l, s);
      StillPoints(nodes, links, s, at, l);
      if update[l].forward[l] != ptr {
        break;
      }
      CutLevel(update[l], ptr, l, nodes, links, at, s);
      l := l + 1;
    }
  }

  lemma NothingUnlinked<K, V>(nodes: seq<Node<K, V>>, links: seq<seq<Node?<K, V>>>, s: nat, at: seq<nat>)
    requires |links| == |nodes| && s < |nodes| && forall i :: 0 <= i < |nodes| ==> nodes[i].forward == links[i]
    ensures Unlinked(nodes, links, s, at, 0, 0)
  {}

  lemma StillPoints<K, V>(nodes: seq<Node<K, V>>, links: seq<seq<Node?<K, V>>>, s: nat, at: seq<nat>, l: nat)
    requires |links| == |nodes| && s < |nodes| && l < |at| && at[l] < |nodes| && l < |links[at[l]]|
    requires Unlinked(nodes, links, s, at, 0, l)
    ensures l < |nodes[at[l]].forward| && nodes[at[l]].forward[l] == links[at[l]][l]
  {}

  lemma PointsAt<K, V>(nodes: seq<Node<K, V>>, links: seq<seq<Node?<K, V>>>, update: seq<Node?<K, V>>, at: seq<nat>,
                       l: nat, s: nat)
    requires NoDuplicates(nodes) && LengthsWere(nodes, links) && s < |nodes| && l < |at| && l < |update|
    requires LastBefore(nodes, links, update, at, l, s)
    ensures at[l] < s && update[l] == nodes[at[l]] && l < |links[at[l]]| && |links[s]| == nodes[s].height
    ensures links[at[l]][l] == nodes[s] <==> l < nodes[s].height
  {
    ReachesNext(nodes, at[l], l, s);
    hide Next;
  }

  /** erase by position: on each level of the node, walk from the head to the node before it. */
  method WalkTo<K, V>(pos: Node<K, V>, l: nat, head: Node<K, V>, ghost nodes: seq<Node<K, V>>,
                      ghost links: seq<seq<Node?<K, V>>>, ghost s: nat)
    returns (cur: Node<K, V>, ghost c: nat)
    requires NoDuplicates(nodes) && LevelWas(nodes, links, l) && |links| == |nodes|
    requires 1 <= s < |nodes| && nodes[s] == pos && nodes[0] == head && l < pos.height <= head.height
    requires forall i :: 0 <= i < |nodes| && l < nodes[i].height ==>
      l < |nodes[i].forward| && nodes[i].forward[l] == links[i][l]
    ensures c < s && nodes[c] == cur && Before(nodes, c, l, s) && l < |cur.forward|
  {
    hide Next, NodeAt, LevelWas, NoDuplicates, Before;
    cur, c := head, 0;
    WalkStep(nodes, links, c, l, s);
    while cur.forward[l] != pos
      invariant c < s && nodes[c] == cur && l < nodes[c].height && l < |links[c]|
      invariant if Next(nodes, c, l) < s then links[c][l] == nodes[Next(nodes, c, l)] != pos else links[c][l] == pos
      invariant Next(nodes, c, l) < s ==> l < nodes[Next(nodes, c, l)].height
      decreases s - c
    {
      cur, c := cur.forward[l], Next(nodes, c, l);
      WalkStep(nodes, links, c, l, s);
    }
    WalkStep(nodes, links, c, l, s);
  }

  lemma WalkStep<K, V>(nodes: seq<Node<K, V>>, links: seq<seq<Node?<K, V>>>, c: nat, l: nat, s: nat)
    requires NoDuplicates(nodes) && LevelWas(nodes, links, l) && c < s < |nodes| && l < nodes[c].height
    requires l < nodes[s].height
    ensures l < |links[c]|
    ensures if Next(nodes, c, l) < s then links[c][l] == nodes[Next(nodes, c, l)] != nodes[s]
            else links[c][l] == nodes[s] && Before(nodes, c, l, s)
    ensures Next(nodes, c, l) < s ==> l < nodes[Next(nodes, c, l)].height
  {
    NextSkips(nodes, c, l);
    hide Next;
    assert links[c][l] == NodeAt(nodes, Next(nodes, c, l));
  }

  method UnlinkByWalk<K, V>(pos: Node<K, V>, head: Node<K, V>, ghost nodes: seq<Node<K, V>>,
                            ghost links: seq<seq<Node?<K, V>>>, ghost s: nat)
    returns (ghost at: seq<nat>)
    requires NoDuplicates(nodes) && LengthsWere(nodes, links)
    requires forall i :: 0 <= i < |nodes| ==> nodes[i].forward == links[i]
    requires 1 <= s < |nodes| && nodes[s] == pos && nodes[0] == head && 1 <= pos.height <= head.height
    requires forall l :: 0 <= l < pos.height ==> LevelWas(nodes, links, l)
    modifies nodes`forward
    ensures |at| == pos.height && forall l :: 0 <= l < pos.height ==> Before(nodes, at[l], l, s)
    ensures Unlinked(nodes, links, s, at, 0, pos.height)
  {
    at := seq(pos.height, _ => 0);
    var l := pos.height;
    while l > 0
      invariant 0 <= l <= pos.height == |at|
      invariant forall k :: l <= k < pos.height ==> Before(nodes, at[k], k, s)
      invariant Unlinked(nodes, links, s, at, l, pos.height)
    {
      l := l - 1;
      var cur;
      ghost var c;
      cur, c := WalkTo(pos, l, head, nodes, links, s);
      at := at[l := c];
      cur.SetForward(l, pos.forward[l]);
    }
  }

  /** The list of nodes determines every link and the current level, so two operations that leave
      the same nodes leave the same structure. */
  lemma StructureDetermined<K, V>(nodes: seq<Node<K, V>>, links: seq<seq<Node?<K, V>>>, links': seq<seq<Node?<K, V>>>,
                                  level: nat, level': nat)
    requires Shape(nodes) && LengthsWere(nodes, links) && LengthsWere(nodes, links')
    requires forall l :: 0 <= l < nodes[0].height ==> LevelWas(nodes, links, l) && LevelWas(nodes, links', l)
    requires Highest(nodes, level) && Highest(nodes, level')
    ensures links == links' && level == level'
  {
    hide Next;
    forall i: nat | i < |nodes| ensures links[i] == links'[i] {
      forall l: nat | l < |links[i]| ensures links[i][l] == links'[i][l] {
        assert LevelWas(nodes, links, l) && LevelWas(nodes, links', l);
      }
    }
  }

  /** Erasing a key and erasing the position where it is remove the same node. */
  lemma ErasesAgree<K(!new), V>(nodes: seq<Node<K, V>>, less: (K, K) -> bool, s: nat, t: nat)
    requires Sorted(nodes, less) && StrictOrder(less)
    requires 1 <= s < |nodes| && 1 <= t < |nodes| && nodes[s].key == nodes[t].key
    ensures Removed(nodes, s) == Removed(nodes, t)
  {
    if s != t {
      KeysDiffer(nodes, less, s, t);
    }
  }
}
