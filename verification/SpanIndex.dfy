/** How the page cache finds its spans: the lists of free spans by size, and the maps from a
    span's first and last page. The lemmas say what one change of a map or list means. */
module SpanIndex {
  import opened Lists
  import opened Pages

  /** A map of page numbers with the entry for page k set to v. */
  function Put<V>(m: map<nat, V>, k: nat, v: V): map<nat, V> {
    m[k := v]
  }

  /** A span's keys are its first and its last page. */
  ghost predicate IsKey(spans: Spans, s: nat, k: nat) {
    s in spans && (k == s || k == s + spans[s].pages - 1)
  }

  ghost predicate OfKind(spans: Spans, s: nat, busy: bool) {
    s in spans && spans[s].busy == busy
  }

  /** m has entries for exactly the spans of kind busy that are not in x. */
  ghost predicate Keyed<Ref>(m: map<nat, Ref>, spans: Spans, at: map<nat, Ref>, busy: bool, x: set<nat>)
    requires at.Keys == spans.Keys
  {
    && (forall k :: k in m ==> exists s :: IsKey(spans, s, k) && OfKind(spans, s, busy) && s !in x && m[k] == at[s])
    && (forall s, k :: IsKey(spans, s, k) && OfKind(spans, s, busy) && s !in x ==> k in m && m[k] == at[s])
  }

  ghost predicate OnList<Ref>(lists: seq<seq<Ref>>, n: nat, older y: Ref) {
    1 <= n <= |lists| && y in lists[n - 1]
  }

  /** lists[i] has exactly the free spans of i + 1 pages that are not in x. */
  ghost predicate Listed<Ref>(lists: seq<seq<Ref>>, spans: Spans, at: map<nat, Ref>, x: set<nat>)
    requires at.Keys == spans.Keys
  {
    && |lists| == MAX_PAGE_NUM
    && (forall i :: 0 <= i < MAX_PAGE_NUM ==> NoDuplicates(lists[i]))
    && (forall n, y :: OnList(lists, n, y) ==>
          exists s :: OfKind(spans, s, false) && s !in x && at[s] == y && spans[s].pages == n)
    && (forall s :: OfKind(spans, s, false) && s !in x ==> OnList(lists, spans[s].pages, at[s]))
  }

  ghost predicate Injective<Ref>(at: map<nat, Ref>) {
    forall a, b :: a in at && b in at && a != b ==> at[a] != at[b]
  }

  /** The two tables and their span objects agree except on the spans in x. */
  ghost predicate SameBut<Ref>(spans: Spans, at: map<nat, Ref>, spans': Spans, at': map<nat, Ref>, x: set<nat>)
    requires at.Keys == spans.Keys && at'.Keys == spans'.Keys
  {
    forall s :: s !in x ==> (s in spans <==> s in spans') && (s in spans ==> spans[s] == spans'[s] && at[s] == at'[s])
  }

  /** No page is a key of two spans. */
  ghost predicate KeysUnique(spans: Spans) {
    forall a, b, k :: IsKey(spans, a, k) && IsKey(spans, b, k) ==> a == b
  }

  lemma DisjointKeys(spans: Spans)
    requires Sized(spans) && Disjoint(spans)
    ensures KeysUnique(spans)
  {}

  lemma KeyedFrame<Ref>(m: map<nat, Ref>, spans: Spans, at: map<nat, Ref>, spans': Spans, at': map<nat, Ref>,
                        busy: bool, x: set<nat>)
    requires at.Keys == spans.Keys && at'.Keys == spans'.Keys && SameBut(spans, at, spans', at', x)
    requires Keyed(m, spans, at, busy, x)
    ensures Keyed(m, spans', at', busy, x)
  {
    forall k | k in m
      ensures exists s :: IsKey(spans', s, k) && OfKind(spans', s, busy) && s !in x && m[k] == at'[s]
    {
      var s :| IsKey(spans, s, k) && OfKind(spans, s, busy) && s !in x && m[k] == at[s];
      assert IsKey(spans', s, k) && OfKind(spans', s, busy);
    }
    forall s: nat, k: nat | IsKey(spans', s, k) && OfKind(spans', s, busy) && s !in x ensures k in m && m[k] == at'[s] {
      assert IsKey(spans, s, k) && OfKind(spans, s, busy);
    }
  }

  /** A span of the other kind, or none at all, may be counted among the exceptions or not. */
  lemma KeyedOther<Ref>(m: map<nat, Ref>, spans: Spans, at: map<nat, Ref>, busy: bool, x: set<nat>, y: set<nat>)
    requires at.Keys == spans.Keys && Keyed(m, spans, at, busy, x)
    requires forall s :: OfKind(spans, s, busy) ==> (s in x <==> s in y)
    ensures Keyed(m, spans, at, busy, y)
  {}

  /** Erasing both keys of a span takes it out of the map and nothing else. */
  lemma KeyedErase<Ref>(m: map<nat, Ref>, spans: Spans, at: map<nat, Ref>, busy: bool, x: set<nat>, s: nat)
    requires at.Keys == spans.Keys && KeysUnique(spans) && s in spans && 1 <= spans[s].pages
    requires Keyed(m, spans, at, busy, x)
    ensures Keyed(m - {s, s + spans[s].pages - 1}, spans, at, busy, x + {s})
  {
    var m' := m - {s, s + spans[s].pages - 1};
    forall k | k in m'
      ensures exists y :: IsKey(spans, y, k) && OfKind(spans, y, busy) && y !in x + {s} && m'[k] == at[y]
    {
      var y :| IsKey(spans, y, k) && OfKind(spans, y, busy) && y !in x && m[k] == at[y];
      assert y != s;
    }
    forall y: nat, k: nat | IsKey(spans, y, k) && OfKind(spans, y, busy) && y !in x + {s}
      ensures k in m' && m'[k] == at[y]
    {
      assert IsKey(spans, s, s) && IsKey(spans, s, s + spans[s].pages - 1);
    }
  }

  lemma KeyedEnter<Ref>(m: map<nat, Ref>, spans: Spans, at: map<nat, Ref>, busy: bool, x: set<nat>, s: nat)
    requires at.Keys == spans.Keys && KeysUnique(spans) && OfKind(spans, s, busy) && 1 <= spans[s].pages
    requires Keyed(m, spans, at, busy, x)
    ensures Keyed(m[s := at[s]][s + spans[s].pages - 1 := at[s]], spans, at, busy, x - {s})
  {
    var l := s + spans[s].pages - 1;
    var m' := m[s := at[s]][l := at[s]];
    assert IsKey(spans, s, s) && IsKey(spans, s, l);
    forall k | k in m'
      ensures exists y :: IsKey(spans, y, k) && OfKind(spans, y, busy) && y !in x - {s} && m'[k] == at[y]
    {
      if k != s && k != l {
        var y :| IsKey(spans, y, k) && OfKind(spans, y, busy) && y !in x && m[k] == at[y];
        assert y !in x - {s};
      }
    }
  }

  lemma ListedFrame<Ref>(lists: seq<seq<Ref>>, spans: Spans, at: map<nat, Ref>, spans': Spans, at': map<nat, Ref>,
                         x: set<nat>)
    requires at.Keys == spans.Keys && at'.Keys == spans'.Keys && SameBut(spans, at, spans', at', x)
    requires Listed(lists, spans, at, x)
    ensures Listed(lists, spans', at', x)
  {
    forall n: nat, y | OnList(lists, n, y)
      ensures exists s :: OfKind(spans', s, false) && s !in x && at'[s] == y && spans'[s].pages == n
    {
      var s :| OfKind(spans, s, false) && s !in x && at[s] == y && spans[s].pages == n;
      assert OfKind(spans', s, false);
    }
    forall s | OfKind(spans', s, false) && s !in x ensures OnList(lists, spans'[s].pages, at'[s]) {
      assert OfKind(spans, s, false);
    }
  }

  lemma ListedOther<Ref>(lists: seq<seq<Ref>>, spans: Spans, at: map<nat, Ref>, x: set<nat>, y: set<nat>)
    requires at.Keys == spans.Keys && Listed(lists, spans, at, x)
    requires forall s :: OfKind(spans, s, false) ==> (s in x <==> s in y)
    ensures Listed(lists, spans, at, y)
  {}

  /** Removing a span from the list of its size takes it off the lists and nothing else. */
  lemma ListedErase<Ref>(lists: seq<seq<Ref>>, spans: Spans, at: map<nat, Ref>, x: set<nat>, s: nat)
    requires at.Keys == spans.Keys && Injective(at) && OfKind(spans, s, false) && s !in x
    requires Listed(lists, spans, at, x)
    ensures OnList(lists, spans[s].pages, at[s])
    ensures var i := spans[s].pages - 1; Listed(lists[i := Without(lists[i], at[s])], spans, at, x + {s})
  {
    var i := spans[s].pages - 1;
    var lists' := lists[i := Without(lists[i], at[s])];
    assert forall n, y :: OnList(lists', n, y) <==> OnList(lists, n, y) && (n != spans[s].pages || y != at[s]);
    forall n: nat, y | OnList(lists', n, y)
      ensures exists a :: OfKind(spans, a, false) && a !in x + {s} && at[a] == y && spans[a].pages == n
    {
      var a :| OfKind(spans, a, false) && a !in x && at[a] == y && spans[a].pages == n;
      assert a !in x + {s};
    }
  }

  lemma ListedEnter<Ref>(lists: seq<seq<Ref>>, spans: Spans, at: map<nat, Ref>, x: set<nat>, s: nat)
    requires at.Keys == spans.Keys && Injective(at) && OfKind(spans, s, false) && s in x
    requires 1 <= spans[s].pages <= MAX_PAGE_NUM && Listed(lists, spans, at, x)
    ensures var i := spans[s].pages - 1; Listed(lists[i := [at[s]] + lists[i]], spans, at, x - {s})
  {
    var i := spans[s].pages - 1;
    var lists' := lists[i := [at[s]] + lists[i]];
    assert !OnList(lists, spans[s].pages, at[s]);
    assert forall n, y :: OnList(lists', n, y) <==> OnList(lists, n, y) || (n == spans[s].pages && y == at[s]);
    forall n: nat, y | OnList(lists', n, y)
      ensures exists a :: OfKind(spans, a, false) && a !in x - {s} && at[a] == y && spans[a].pages == n
    {
      if OnList(lists, n, y) {
        var a :| OfKind(spans, a, false) && a !in x && at[a] == y && spans[a].pages == n;
        assert a !in x - {s};
      }
    }
  }

  // ---- one whole step of the page cache ----

  /** The lists and both maps index exactly the spans of the table that are not in x. */
  ghost predicate Indexed<Ref>(lists: seq<seq<Ref>>, freeMap: map<nat, Ref>, busyMap: map<nat, Ref>,
                               spans: Spans, at: map<nat, Ref>, x: set<nat>)
  {
    && at.Keys == spans.Keys && KeysUnique(spans) && Sized(spans) && Injective(at)
    && Keyed(freeMap, spans, at, false, x) && Keyed(busyMap, spans, at, true, x) && Listed(lists, spans, at, x)
  }

  /** The span in front of a list is a free one of the list's size. */
  lemma FrontSpan<Ref>(lists: seq<seq<Ref>>, freeMap: map<nat, Ref>, busyMap: map<nat, Ref>,
                       spans: Spans, at: map<nat, Ref>, n: nat) returns (s: nat)
    requires Indexed(lists, freeMap, busyMap, spans, at, {}) && 1 <= n <= |lists| && lists[n - 1] != []
    ensures Free(spans, s) && spans[s].pages == n && at[s] == lists[n - 1][0]
  {
    assert OnList(lists, n, lists[n - 1][0]);
    s :| OfKind(spans, s, false) && at[s] == lists[n - 1][0] && spans[s].pages == n;
  }

  lemma ListEmpty<Ref>(lists: seq<seq<Ref>>, spans: Spans, at: map<nat, Ref>, n: nat)
    requires at.Keys == spans.Keys && Listed(lists, spans, at, {}) && 1 <= n <= MAX_PAGE_NUM && lists[n - 1] == []
    ensures forall s :: Free(spans, s) ==> spans[s].pages != n
  {
    forall s | Free(spans, s) ensures spans[s].pages != n {
      assert OfKind(spans, s, false);
    }
  }

  /** The keys of the spans outside x survive a change of the spans in x. */
  lemma IndexedFrame<Ref>(lists: seq<seq<Ref>>, freeMap: map<nat, Ref>, busyMap: map<nat, Ref>,
                          spans: Spans, at: map<nat, Ref>, spans': Spans, at': map<nat, Ref>, x: set<nat>)
    requires Indexed(lists, freeMap, busyMap, spans, at, x)
    requires at'.Keys == spans'.Keys && KeysUnique(spans') && Sized(spans') && Injective(at')
    requires SameBut(spans, at, spans', at', x)
    ensures Indexed(lists, freeMap, busyMap, spans', at', x)
  {
    hide Keyed, Listed, KeysUnique, Sized, Injective;
    KeyedFrame(freeMap, spans, at, spans', at', false, x);
    KeyedFrame(busyMap, spans, at, spans', at', true, x);
    ListedFrame(lists, spans, at, spans', at', x);
  }

  /** Spans that do not exist may be counted among the exceptions or not. */
  lemma IndexedAbsent<Ref>(lists: seq<seq<Ref>>, freeMap: map<nat, Ref>, busyMap: map<nat, Ref>,
                           spans: Spans, at: map<nat, Ref>, x: set<nat>, y: set<nat>)
    requires Indexed(lists, freeMap, busyMap, spans, at, x)
    requires forall s :: s in spans ==> (s in x <==> s in y)
    ensures Indexed(lists, freeMap, busyMap, spans, at, y)
  {
    KeyedOther(freeMap, spans, at, false, x, y);
    KeyedOther(busyMap, spans, at, true, x, y);
    ListedOther(lists, spans, at, x, y);
  }

  lemma EraseFree<Ref>(lists: seq<seq<Ref>>, freeMap: map<nat, Ref>, busyMap: map<nat, Ref>,
                       spans: Spans, at: map<nat, Ref>, x: set<nat>, s: nat)
    requires Indexed(lists, freeMap, busyMap, spans, at, x) && Free(spans, s) && s !in x
    ensures OnList(lists, spans[s].pages, at[s])
    ensures var i := spans[s].pages - 1;
            Indexed(lists[i := Without(lists[i], at[s])], freeMap - {s, s + i}, busyMap, spans, at, x + {s})
  {
    ListedErase(lists, spans, at, x, s);
    KeyedErase(freeMap, spans, at, false, x, s);
    KeyedOther(busyMap, spans, at, true, x, x + {s});
    hide Keyed, Listed, KeysUnique, Injective;
  }

  lemma EnterFree<Ref>(lists: seq<seq<Ref>>, freeMap: map<nat, Ref>, busyMap: map<nat, Ref>,
                       spans: Spans, at: map<nat, Ref>, x: set<nat>, s: nat)
    requires Indexed(lists, freeMap, busyMap, spans, at, x) && Free(spans, s) && s in x
    ensures |lists| == MAX_PAGE_NUM && 1 <= spans[s].pages <= MAX_PAGE_NUM
    ensures var i := spans[s].pages - 1;
            Indexed(lists[i := [at[s]] + lists[i]], freeMap[s := at[s]][s + i := at[s]], busyMap, spans, at, x - {s})
  {
    ListedEnter(lists, spans, at, x, s);
    KeyedEnter(freeMap, spans, at, false, x, s);
    KeyedOther(busyMap, spans, at, true, x, x - {s});
    hide Keyed, KeysUnique, Injective;
  }

  lemma EraseBusy<Ref>(lists: seq<seq<Ref>>, freeMap: map<nat, Ref>, busyMap: map<nat, Ref>,
                       spans: Spans, at: map<nat, Ref>, x: set<nat>, s: nat)
    requires Indexed(lists, freeMap, busyMap, spans, at, x) && Busy(spans, s)
    ensures Indexed(lists, freeMap, busyMap - {s, s + spans[s].pages - 1}, spans, at, x + {s})
  {
    KeyedErase(busyMap, spans, at, true, x, s);
    KeyedOther(freeMap, spans, at, false, x, x + {s});
    ListedOther(lists, spans, at, x, x + {s});
    hide Keyed, Listed, KeysUnique, Injective;
  }

  lemma EnterBusy<Ref>(lists: seq<seq<Ref>>, freeMap: map<nat, Ref>, busyMap: map<nat, Ref>,
                       spans: Spans, at: map<nat, Ref>, x: set<nat>, s: nat)
    requires Indexed(lists, freeMap, busyMap, spans, at, x) && Busy(spans, s)
    ensures Indexed(lists, freeMap, busyMap[s := at[s]][s + spans[s].pages - 1 := at[s]], spans, at, x - {s})
  {
    KeyedEnter(busyMap, spans, at, true, x, s);
    KeyedOther(freeMap, spans, at, false, x, x - {s});
    ListedOther(lists, spans, at, x, x - {s});
    hide Keyed, Listed, KeysUnique, Injective;
  }

  lemma IndexTakeExact<Ref>(lists: seq<seq<Ref>>, freeMap: map<nat, Ref>, busyMap: map<nat, Ref>,
                            spans: Spans, at: map<nat, Ref>, s: nat)
    requires Indexed(lists, freeMap, busyMap, spans, at, {}) && Free(spans, s)
    requires OnList(lists, spans[s].pages, at[s]) && lists[spans[s].pages - 1][0] == at[s]
    ensures var i := spans[s].pages - 1;
            Indexed(lists[i := lists[i][1..]], freeMap - {s, s + i}, busyMap[s := at[s]][s + i := at[s]],
                    spans[s := Run(spans[s].pages, true)], at, {})
  {
    hide Indexed, Keyed, Listed;
    var i := spans[s].pages - 1;
    var spans' := spans[s := Run(spans[s].pages, true)];
    PopIsWithout(lists[i]);
    EraseFree(lists, freeMap, busyMap, spans, at, {}, s);
    assert {} + {s} == {s};
    SameShape(lists, freeMap, busyMap, spans, at, spans');
    IndexedFrame(lists[i := lists[i][1..]], freeMap - {s, s + i}, busyMap, spans, at, spans', at, {s});
    EnterBusy(lists[i := lists[i][1..]], freeMap - {s, s + i}, busyMap, spans', at, {s}, s);
    assert {s} - {s} == {};
  }

  lemma SameShape<Ref>(lists: seq<seq<Ref>>, freeMap: map<nat, Ref>, busyMap: map<nat, Ref>,
                       spans: Spans, at: map<nat, Ref>, spans': Spans)
    requires Indexed(lists, freeMap, busyMap, spans, at, {})
    requires spans'.Keys == spans.Keys && forall s :: s in spans ==> spans'[s].pages == spans[s].pages
    ensures KeysUnique(spans') && Sized(spans') && Injective(at) && at.Keys == spans'.Keys
  {
    assert forall s, k :: IsKey(spans', s, k) ==> IsKey(spans, s, k);
  }

  lemma IndexTakeSplit<Ref>(lists: seq<seq<Ref>>, freeMap: map<nat, Ref>, busyMap: map<nat, Ref>,
                            spans: Spans, at: map<nat, Ref>, b: nat, n: nat, at': map<nat, Ref>)
    requires Indexed(lists, freeMap, busyMap, spans, at, {}) && Free(spans, b) && 1 <= n < spans[b].pages
    requires OnList(lists, spans[b].pages, at[b]) && lists[spans[b].pages - 1][0] == at[b]
    requires var f, spans' := b + spans[b].pages - n, Cut(spans, b, spans[b].pages, b + spans[b].pages - n);
             f !in spans && f in at' && at' == at[f := at'[f]] && Injective(at') && KeysUnique(spans') && Sized(spans')
    ensures var m := spans[b].pages; var f := b + m - n;
            var popped := lists[m - 1 := lists[m - 1][1..]];
            |lists| == MAX_PAGE_NUM && m <= MAX_PAGE_NUM &&
            Indexed(popped[m - n - 1 := [at[b]] + popped[m - n - 1]],
                    (freeMap - {b + m - 1})[f - 1 := at[b]],
                    busyMap[f := at'[f]][f + n - 1 := at'[f]], Cut(spans, b, m, f), at', {})
  {
    hide Indexed, Keyed, Listed, KeysUnique, Sized, Injective;
    var m := spans[b].pages;
    var f := b + m - n;
    var spans' := Cut(spans, b, m, f);
    EraseFree(lists, freeMap, busyMap, spans, at, {}, b);
    PopIsWithout(lists[m - 1]);
    var popped, erased := lists[m - 1 := lists[m - 1][1..]], freeMap - {b, b + m - 1};
    IndexedAbsent(popped, erased, busyMap, spans, at, {} + {b}, {b, f});
    IndexedFrame(popped, erased, busyMap, spans, at, spans', at', {b, f});
    EnterFree(popped, erased, busyMap, spans', at', {b, f}, b);
    EnterBusy(popped[m - n - 1 := [at[b]] + popped[m - n - 1]], erased[b := at[b]][f - 1 := at[b]], busyMap,
              spans', at',
              {b, f} - {b}, f);
    assert {b, f} - {b} - {f} == {};
    FirstKey(lists, freeMap, busyMap, spans, at, b);
    assert erased[b := at[b]][f - 1 := at[b]] == (freeMap - {b + m - 1})[f - 1 := at[b]];
  }

  lemma FirstKey<Ref>(lists: seq<seq<Ref>>, freeMap: map<nat, Ref>, busyMap: map<nat, Ref>,
                      spans: Spans, at: map<nat, Ref>, b: nat)
    requires Indexed(lists, freeMap, busyMap, spans, at, {}) && Free(spans, b)
    ensures b in freeMap && freeMap[b] == at[b]
  {
    assert IsKey(spans, b, b) && OfKind(spans, b, false);
  }

  lemma IndexTakeChunk<Ref>(lists: seq<seq<Ref>>, freeMap: map<nat, Ref>, busyMap: map<nat, Ref>,
                            spans: Spans, at: map<nat, Ref>, c: nat, n: nat, spans': Spans, at': map<nat, Ref>)
    requires Indexed(lists, freeMap, busyMap, spans, at, {}) && 1 <= n < MAX_PAGE_NUM
    requires c !in spans && c + MAX_PAGE_NUM - n !in spans
    requires spans' == Cut(spans, c, MAX_PAGE_NUM, c + MAX_PAGE_NUM - n)
    requires {c, c + MAX_PAGE_NUM - n} <= at'.Keys
    requires at' == at + map[c := at'[c], c + MAX_PAGE_NUM - n := at'[c + MAX_PAGE_NUM - n]]
    requires Injective(at') && KeysUnique(spans') && Sized(spans')
    ensures |lists| == MAX_PAGE_NUM
    ensures var f, i := c + MAX_PAGE_NUM - n, MAX_PAGE_NUM - n - 1;
            Indexed(lists[i := [at'[c]] + lists[i]], freeMap[c := at'[c]][f - 1 := at'[c]],
                    busyMap[f := at'[f]][f + n - 1 := at'[f]], spans', at', {})
  {
    hide Indexed, KeysUnique, Sized, Injective;
    var f, i := c + MAX_PAGE_NUM - n, MAX_PAGE_NUM - n - 1;
    IndexedAbsent(lists, freeMap, busyMap, spans, at, {}, {c, f});
    ChunkAt(lists, freeMap, busyMap, spans, at, c, f, spans', at');
    IndexedFrame(lists, freeMap, busyMap, spans, at, spans', at', {c, f});
    EnterFree(lists, freeMap, busyMap, spans', at', {c, f}, c);
    EnterBusy(lists[i := [at'[c]] + lists[i]], freeMap[c := at'[c]][f - 1 := at'[c]], busyMap, spans', at',
      {c, f} - {c}, f);
    assert {c, f} - {c} - {f} == {};
  }

  lemma ChunkAt<Ref>(lists: seq<seq<Ref>>, freeMap: map<nat, Ref>, busyMap: map<nat, Ref>,
                     spans: Spans, at: map<nat, Ref>, c: nat, f: nat, spans': Spans, at': map<nat, Ref>)
    requires Indexed(lists, freeMap, busyMap, spans, at, {}) && c < f < c + MAX_PAGE_NUM
    requires spans' == Cut(spans, c, MAX_PAGE_NUM, f) && {c, f} <= at'.Keys && at' == at + map[c := at'[c], f := at'[f]]
    ensures at.Keys == spans.Keys && at'.Keys == spans'.Keys && SameBut(spans, at, spans', at', {c, f})
  {}

  lemma IndexTakeWholeChunk<Ref>(lists: seq<seq<Ref>>, freeMap: map<nat, Ref>, busyMap: map<nat, Ref>,
                                 spans: Spans, at: map<nat, Ref>, c: nat, at': map<nat, Ref>)
    requires Indexed(lists, freeMap, busyMap, spans, at, {}) && c !in spans
    requires c in at' && at' == at[c := at'[c]] && Injective(at')
    requires var spans' := spans[c := Run(MAX_PAGE_NUM, true)]; KeysUnique(spans') && Sized(spans')
    ensures Indexed(lists, freeMap, busyMap[c := at'[c]][c + MAX_PAGE_NUM - 1 := at'[c]],
                    spans[c := Run(MAX_PAGE_NUM, true)], at', {})
  {
    hide KeysUnique, Sized, Injective, Keyed, Listed;
    var spans' := spans[c := Run(MAX_PAGE_NUM, true)];
    IndexedAbsent(lists, freeMap, busyMap, spans, at, {}, {c});
    IndexedFrame(lists, freeMap, busyMap, spans, at, spans', at', {c});
    EnterBusy(lists, freeMap, busyMap, spans', at', {c}, c);
    assert {c} - {c} == {};
  }

  /** Span s leaves the busy map; it is now free but not yet listed. */
  lemma IndexRelease<Ref>(lists: seq<seq<Ref>>, freeMap: map<nat, Ref>, busyMap: map<nat, Ref>,
                          spans: Spans, at: map<nat, Ref>, s: nat)
    requires Indexed(lists, freeMap, busyMap, spans, at, {}) && Busy(spans, s)
    ensures Indexed(lists, freeMap, busyMap - {s, s + spans[s].pages - 1}, spans[s := Run(spans[s].pages, false)], at,
      {s})
  {
    hide Keyed, Listed, Indexed;
    var spans' := spans[s := Run(spans[s].pages, false)];
    EraseBusy(lists, freeMap, busyMap, spans, at, {}, s);
    assert {} + {s} == {s};
    SameShape(lists, freeMap, busyMap, spans, at, spans');
    IndexedFrame(lists, freeMap, busyMap - {s, s + spans[s].pages - 1}, spans, at, spans', at, {s});
  }

  /** Neighbours a and b become one span at a, where one of them is the span being returned. */
  lemma IndexJoin<Ref>(lists: seq<seq<Ref>>, freeMap: map<nat, Ref>, busyMap: map<nat, Ref>,
                       spans: Spans, at: map<nat, Ref>, a: nat, b: nat, r: nat, at': map<nat, Ref>)
    requires Indexed(lists, freeMap, busyMap, spans, at, {r}) && (a == r || b == r) && a != b
    requires Free(spans, a) && Free(spans, b) && KeysUnique(Join(spans, a, b)) && Sized(Join(spans, a, b))
    requires at' == (at - {b})[a := at[r]]
    ensures var x := if a == r then b else a; var i := spans[x].pages - 1;
            && OnList(lists, spans[x].pages, at[x])
            && Indexed(lists[i := Without(lists[i], at[x])], freeMap - {x, x + i}, busyMap, Join(spans, a, b), at', {a})
  {
    hide KeysUnique, Sized, Keyed, Listed;
    var x := if a == r then b else a;
    var i := spans[x].pages - 1;
    EraseFree(lists, freeMap, busyMap, spans, at, {r}, x);
    var lists', freeMap' := lists[i := Without(lists[i], at[x])], freeMap - {x, x + i};
    assert {r} + {x} == {a, b};
    assert Injective(at');
    IndexedFrame(lists', freeMap', busyMap, spans, at, Join(spans, a, b), at', {a, b});
    IndexedAbsent(lists', freeMap', busyMap, Join(spans, a, b), at', {a, b}, {a});
  }

  /** The free neighbour in front of the span being returned is found through its last page. */
  lemma PrevKey<Ref>(lists: seq<seq<Ref>>, freeMap: map<nat, Ref>, busyMap: map<nat, Ref>,
                     spans: Spans, at: map<nat, Ref>, r: nat)
    requires Indexed(lists, freeMap, busyMap, spans, at, {r}) && Disjoint(spans) && Free(spans, r)
    ensures forall a: nat :: Free(spans, a) && a + spans[a].pages == r ==> r - 1 in freeMap && freeMap[r - 1] == at[a]
    ensures r - 1 in freeMap ==> exists a: nat :: Free(spans, a) && a + spans[a].pages == r && freeMap[r - 1] == at[a]
  {
    forall a: nat | Free(spans, a) && a + spans[a].pages == r ensures r - 1 in freeMap && freeMap[r - 1] == at[a] {
      assert IsKey(spans, a, r - 1) && OfKind(spans, a, false);
    }
  }

  /** The free neighbour behind the span being returned is found through its first page. */
  lemma NextKey<Ref>(lists: seq<seq<Ref>>, freeMap: map<nat, Ref>, busyMap: map<nat, Ref>,
                     spans: Spans, at: map<nat, Ref>, r: nat)
    requires Indexed(lists, freeMap, busyMap, spans, at, {r}) && Disjoint(spans) && Free(spans, r)
    ensures var a := r + spans[r].pages; a in freeMap <==> Free(spans, a)
    ensures var a := r + spans[r].pages; a in freeMap ==> freeMap[a] == at[a]
  {
    var a := r + spans[r].pages;
    if Free(spans, a) {
      assert IsKey(spans, a, a) && OfKind(spans, a, false);
    }
  }
}
