/** The index a leader may commit: the middle of the sorted match table. */
module Quorum {
  /** How many values are at least x. */
  function AtLeast(xs: seq<int>, x: int): nat {
    if xs == [] then 0 else (if xs[0] >= x then 1 else 0) + AtLeast(xs[1..], x)
  }

  ghost predicate Ascending(xs: seq<int>) {
    forall i, j :: 0 <= i < j < |xs| ==> xs[i] <= xs[j]
  }

  function Insert(xs: seq<int>, v: int): seq<int> {
    if xs == [] || v <= xs[0] then [v] + xs else [xs[0]] + Insert(xs[1..], v)
  }

  /** The values in ascending order. */
  function Sort(xs: seq<int>): seq<int> {
    if xs == [] then [] else Insert(Sort(xs[1..]), xs[0])
  }

  lemma {:induction false} InsertAscending(xs: seq<int>, v: int)
    requires Ascending(xs)
    ensures Ascending(Insert(xs, v)) && |Insert(xs, v)| == |xs| + 1
    ensures forall x :: x in Insert(xs, v) ==> x == v || x in xs
  {
    if xs != [] && v > xs[0] {
      InsertAscending(xs[1..], v);
      assert forall x :: x in Insert(xs[1..], v) ==> xs[0] <= x;
      assert forall i :: 0 <= i < |Insert(xs[1..], v)| ==> Insert(xs[1..], v)[i] in Insert(xs[1..], v);
    }
  }

  lemma {:induction false} InsertCounts(xs: seq<int>, v: int, x: int)
    ensures AtLeast(Insert(xs, v), x) == AtLeast(xs, x) + if v >= x then 1 else 0
  {
    if xs != [] && v > xs[0] {
      InsertCounts(xs[1..], v, x);
      assert Insert(xs, v)[1..] == Insert(xs[1..], v);
    } else {
      assert ([v] + xs)[1..] == xs;
    }
  }

  /** Sorting orders the values and keeps each as often as it was. */
  lemma {:induction false} SortSorts(xs: seq<int>, x: int)
    ensures Ascending(Sort(xs)) && |Sort(xs)| == |xs| && AtLeast(Sort(xs), x) == AtLeast(xs, x)
  {
    if xs != [] {
      SortSorts(xs[1..], x);
      InsertAscending(Sort(xs[1..]), xs[0]);
      InsertCounts(Sort(xs[1..]), xs[0], x);
    }
  }

  lemma {:induction false} AllCount(xs: seq<int>, x: int)
    ensures AtLeast(xs, x) <= |xs|
    ensures (forall i :: 0 <= i < |xs| ==> xs[i] >= x) ==> AtLeast(xs, x) == |xs|
  {
    if xs != [] {
      AllCount(xs[1..], x);
    }
  }

  /** In ascending order, the value at i is at least x exactly when all from i on are. */
  lemma {:induction false} RankCounts(xs: seq<int>, i: nat, x: int)
    requires Ascending(xs) && i < |xs|
    ensures xs[i] >= x <==> AtLeast(xs, x) >= |xs| - i
  {
    if i == 0 {
      if xs[0] >= x {
        AllCount(xs, x);
      } else {
        AllCount(xs[1..], x);
      }
    } else {
      RankCounts(xs[1..], i - 1, x);
      if xs[0] >= x {
        AllCount(xs[1..], x);
        assert xs[1..][i - 1] == xs[i];
      }
    }
  }

  /** The leader's last index and all match entries, sorted; the one in the middle. */
  function MajorityMatch(last: int, matches: seq<int>): int {
    SortSorts([last] + matches, 0);
    Sort([last] + matches)[(|matches| + 1) / 2]
  }

  /** How many nodes hold index x: the leader by its own log, the others by the match table. */
  function Holders(last: int, matches: seq<int>, self: nat, x: int): nat
    requires self < |matches|
  {
    AtLeast(matches[self := last], x)
  }

  lemma {:induction false} UpdateCounts(xs: seq<int>, k: nat, v: int, x: int)
    requires k < |xs|
    ensures AtLeast(xs[k := v], x) + (if xs[k] >= x then 1 else 0) == AtLeast(xs, x) + if v >= x then 1 else 0
  {
    if k == 0 {
      assert xs[0 := v][1..] == xs[1..];
    } else {
      assert xs[k := v][1..] == xs[1..][k - 1 := v];
      UpdateCounts(xs[1..], k - 1, v, x);
    }
  }

  /** For clusters of every size: a positive index is at most the middle value exactly when a
      strict majority of the nodes hold it, the leader's own entry being always 0. */
  lemma MajorityHolds(last: int, matches: seq<int>, self: nat, x: int)
    requires self < |matches| && matches[self] == 0 && x > 0
    ensures x <= MajorityMatch(last, matches) <==> 2 * Holders(last, matches, self, x) > |matches|
  {
    var all := [last] + matches;
    SortSorts(all, x);
    RankCounts(Sort(all), (|matches| + 1) / 2, x);
    UpdateCounts(matches, self, last, x);
    assert all[1..] == matches;
    hide Sort;
  }

  lemma {:induction false} CountsGrow(xs: seq<int>, ys: seq<int>, x: int)
    requires |xs| == |ys| && forall i :: 0 <= i < |xs| ==> xs[i] <= ys[i]
    ensures AtLeast(xs, x) <= AtLeast(ys, x)
  {
    if xs != [] {
      CountsGrow(xs[1..], ys[1..], x);
    }
  }

  /** The middle value never falls when entries grow. */
  lemma MajorityGrows(last: int, matches: seq<int>, last': int, matches': seq<int>)
    requires |matches| == |matches'| && last <= last' && forall i :: 0 <= i < |matches| ==> matches[i] <= matches'[i]
    ensures MajorityMatch(last, matches) <= MajorityMatch(last', matches')
  {
    hide Sort, AtLeast;
    var x := MajorityMatch(last, matches);
    var mid := (|matches| + 1) / 2;
    SortSorts([last] + matches, x);
    SortSorts([last'] + matches', x);
    RankCounts(Sort([last] + matches), mid, x);
    RankCounts(Sort([last'] + matches'), mid, x);
    CountsGrow([last] + matches, [last'] + matches', x);
  }
}
