/** Running log entries on a store, and what it means that a store can catch up with the log. */
module Replays {
  import opened Commands
  import opened Journals

  function CommandsOf(es: seq<Entry>): seq<Command> {
    seq(|es|, i requires 0 <= i < |es| => Parse(es[i].command))
  }

  function Replay(es: seq<Entry>, s: Store): Store {
    Run(CommandsOf(es), s)
  }

  lemma CommandsOfSum(a: seq<Entry>, b: seq<Entry>)
    ensures CommandsOf(a + b) == CommandsOf(a) + CommandsOf(b)
  {}

  lemma ReplayAppend(a: seq<Entry>, b: seq<Entry>, s: Store)
    ensures Replay(a + b, s) == Replay(b, Replay(a, s))
  {
    CommandsOfSum(a, b);
    RunAppend(CommandsOf(a), CommandsOf(b), s);
  }

  lemma ReplayParts(full: seq<Entry>, a: nat, b: nat, c: nat, s: Store)
    requires a <= b <= c <= |full|
    ensures Replay(full[a..c], s) == Replay(full[b..c], Replay(full[a..b], s))
  {
    assert full[a..c] == full[a..b] + full[b..c];
    ReplayAppend(full[a..b], full[b..c], s);
  }

  lemma ReplayTwice(es: seq<Entry>, s: Store)
    ensures Replay(es, Replay(es, s)) == Replay(es, s)
  {
    RunTwice(CommandsOf(es), s);
  }

  lemma ReplayNothing(s: Store)
    ensures Replay([], s) == s
  {}

  /** If the last entry about a key is the text of an update, the store ends with its value. */
  lemma LastUpdateStays(before: seq<Entry>, e: Entry, after: seq<Entry>, k: string, v: string, s: Store)
    requires Clean(k) && Clean(v) && e.command == "update " + k + " " + v
    requires forall f :: f in after ==> !About(Parse(f.command), k)
    ensures var end := Replay(before + [e] + after, s); k in end && end[k] == v
  {
    PlainParsed(Update(k, v));
    CommandsOfSum(before + [e], after);
    CommandsOfSum(before, [e]);
    assert CommandsOf([e]) == [Update(k, v)] by { hide Parse; }
    forall c | c in CommandsOf(after) ensures !About(c, k) {
      var i :| 0 <= i < |after| && CommandsOf(after)[i] == c;
      assert after[i] in after;
    }
    hide CommandsOf, Run, Parse;
    LastUpdateWins(CommandsOf(before), k, v, CommandsOf(after), s);
  }

  /** Replaying from index u on turns the store into what the whole log up to h gives. */
  ghost predicate Good(full: seq<Entry>, s: Store, u: int, h: int)
    requires 0 <= u <= h <= |full|
  {
    Replay(full[u..h], s) == Replay(full[..h], map[])
  }

  ghost predicate GoodTo(full: seq<Entry>, s: Store, lo: int, hi: int, h: int) {
    0 <= lo <= hi <= h <= |full| && forall u :: lo <= u <= hi ==> Good(full, s, u, h)
  }

  lemma GoodLater(full: seq<Entry>, s: Store, u: nat, h: nat, h': nat)
    requires u <= h <= h' <= |full| && Good(full, s, u, h)
    ensures Good(full, s, u, h')
  {
    hide Replay;
    ReplayParts(full, u, h, h', s);
    ReplayParts(full, 0, h, h', map[]);
    assert full[0..h] == full[..h] && full[0..h'] == full[..h'];
  }

  lemma GoodGrown(full: seq<Entry>, es: seq<Entry>, s: Store, u: nat, h: nat)
    requires u <= h <= |full| && Good(full, s, u, h)
    ensures Good(full + es, s, u, h)
  {
    assert (full + es)[u..h] == full[u..h] && (full + es)[..h] == full[..h];
    hide Replay;
  }

  lemma GoodToGrown(full: seq<Entry>, es: seq<Entry>, s: Store, lo: int, hi: int, h: int)
    requires GoodTo(full, s, lo, hi, h)
    ensures GoodTo(full + es, s, lo, hi, h)
  {
    hide Good;
    forall u | lo <= u <= hi ensures Good(full + es, s, u, h) {
      GoodGrown(full, es, s, u, h);
    }
  }

  lemma GoodToLater(full: seq<Entry>, s: Store, lo: int, hi: int, h: int, h': int)
    requires GoodTo(full, s, lo, hi, h) && h <= h' <= |full|
    ensures GoodTo(full, s, lo, hi, h')
  {
    hide Good;
    forall u | lo <= u <= hi ensures Good(full, s, u, h') {
      GoodLater(full, s, u, h, h');
    }
  }

  /** After the entries from pos to p have run, replaying from an index between them still works:
      running entries twice is running them once. */
  lemma GoodInside(full: seq<Entry>, s: Store, pos: nat, u: nat, p: nat, h: nat)
    requires pos <= u <= p <= h <= |full| && Good(full, s, pos, h)
    ensures Good(full, Replay(full[pos..p], s), u, h)
  {
    hide Replay;
    var half := Replay(full[pos..u], s);
    ReplayParts(full, pos, u, p, s);
    ReplayTwice(full[u..p], half);
    ReplayParts(full, u, p, h, Replay(full[pos..p], s));
    ReplayParts(full, pos, p, h, s);
  }

  /** Replaying from before pos works too, although the entries behind pos then run before those in
      front of it and again after them. */
  lemma GoodBefore(full: seq<Entry>, s: Store, u: nat, pos: nat, p: nat, h: nat)
    requires u <= pos <= p <= h <= |full| && Good(full, s, u, h) && Good(full, s, pos, h)
    ensures Good(full, Replay(full[pos..p], s), u, h)
  {
    hide Run;
    var a, b, c := full[u..pos], full[pos..p], full[p..h];
    ReplayParts(full, pos, p, h, s);
    ReplayParts(full, u, p, h, s);
    ReplayParts(full, u, p, h, Replay(b, s));
    assert full[u..p] == a + b;
    CommandsOfSum(a, b);
    hide CommandsOf;
    RunAgain(CommandsOf(a), CommandsOf(b), CommandsOf(c), s, Replay(full[..h], map[]));
  }

  /** A batch from pos to p keeps a store able to catch up, from every index up to p. */
  lemma BatchGood(full: seq<Entry>, s: Store, lo: int, pos: int, p: int, h: int)
    requires lo <= pos <= p <= h && GoodTo(full, s, lo, pos, h)
    ensures GoodTo(full, Replay(full[pos..p], s), lo, p, h)
  {
    hide Good, Replay;
    forall u | lo <= u <= p ensures Good(full, Replay(full[pos..p], s), u, h) {
      if u <= pos {
        GoodBefore(full, s, u, pos, p, h);
      } else {
        GoodInside(full, s, pos, u, p, h);
      }
    }
  }

  // ---- indices of entries ----

  /** The indices behind a up to b. */
  function From(a: int, b: int): (r: seq<int>)
    ensures |r| == if a < b then b - a else 0
  {
    if a < b then seq(b - a, k => a + 1 + k) else []
  }

  lemma FromSum(a: int, b: int, c: int)
    requires a <= b <= c
    ensures From(a, b) + From(b, c) == From(a, c)
  {}

  predicate Within(trail: seq<int>, n: int) {
    forall i :: 0 <= i < |trail| ==> 1 <= trail[i] <= n
  }

  /** The entries with these indices. */
  function Picked(full: seq<Entry>, trail: seq<int>): seq<Entry>
    requires Within(trail, |full|)
  {
    seq(|trail|, i requires 0 <= i < |trail| => full[trail[i] - 1])
  }

  lemma PickedFrom(full: seq<Entry>, a: int, b: int)
    requires 0 <= a <= b <= |full|
    ensures Within(From(a, b), |full|) && Picked(full, From(a, b)) == full[a..b]
  {}

  lemma PickedSum(full: seq<Entry>, x: seq<int>, y: seq<int>)
    requires Within(x, |full|) && Within(y, |full|)
    ensures Within(x + y, |full|) && Picked(full, x + y) == Picked(full, x) + Picked(full, y)
  {}

  lemma PickedGrown(full: seq<Entry>, es: seq<Entry>, x: seq<int>)
    requires Within(x, |full|)
    ensures Within(x, |full + es|) && Picked(full + es, x) == Picked(full, x)
  {}
}
