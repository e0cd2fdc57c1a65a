/** What passes between a leader and a follower: what a broadcast carries, what the follower's log
    then holds, what it answers, and what the leader may conclude. */
module Replication {
  import opened Journals
  import opened Quorum
  import opened RaftNode

  // ---- what the leader sends ----

  /** A peer within the leader's log gets exactly the entries from its next index on, behind the
      index and term of the entry before them; a heartbeat carries none. */
  lemma SyncCarries(p: Peer, id: int, term: nat, j: Journal, heartbeat: bool)
    requires Aligned(j) && j.base <= p.nextIndex <= j.last + 1
    ensures var m := SyncMessage(p, id, term, j, heartbeat);
            && m.Some? && m.value.AppendRequest?
            && m.value.to == p.id && m.value.from == id && m.value.term == term && m.value.commit == j.commit
            && m.value.prevIndex == p.nextIndex - 1 && Some(m.value.prevTerm) == GetTermAt(j, p.nextIndex - 1)
            && |m.value.entries| == (if heartbeat then 0 else j.last + 1 - p.nextIndex)
            && forall k :: 0 <= k < |m.value.entries| ==> Some(m.value.entries[k]) == GetLogAt(j, p.nextIndex + k)
  {
    LogFromHolds(j, p.nextIndex);
    AlignedNeverFails(j, p.nextIndex - 1, 0);
    hide GetLogFrom, GetLogAt, GetTermAt, Aligned;
  }

  lemma LogFromHolds(j: Journal, i: int)
    requires Aligned(j) && j.base <= i <= j.last + 1
    ensures var es := GetLogFrom(j, i);
            && es.Some? && |es.value| == j.last + 1 - i
            && forall k :: 0 <= k < |es.value| ==> Some(es.value[k]) == GetLogAt(j, i + k)
  {}

  /** A peer that needs entries the snapshot has replaced is offered the snapshot; one that is taken
      to be beyond the log gets no entries, behind an index of which no term is known. */
  lemma SyncOutside(p: Peer, id: int, term: nat, j: Journal, heartbeat: bool)
    requires Aligned(j)
    ensures p.nextIndex <= j.included ==>
      SyncMessage(p, id, term, j, heartbeat) == Some(SnapshotRequest(p.id, id, term, j.included, j.includedTerm))
    ensures p.nextIndex > j.last + 1 ==>
      SyncMessage(p, id, term, j, heartbeat) == Some(AppendRequest(p.id, id, term, j.commit, p.nextIndex - 1, 0, []))
  {}

  // ---- what the follower's log then holds ----

  /** The follower has the leader's entry at every index up to upTo that both logs hold. */
  ghost predicate Agree(f: Journal, l: Journal, upTo: int) {
    forall i :: Covers(f, i) && Covers(l, i) && i <= upTo ==> GetLogAt(f, i) == GetLogAt(l, i)
  }

  /** Peer p is the follower, as the leader knows it; the follower's log reaches at least up to the
      entry before the next index, and it agrees with the leader's. */
  ghost predicate Reached(f: Journal, l: Journal, p: Peer) {
    && Aligned(f) && Aligned(l) && l.base <= p.nextIndex <= l.last + 1
    && p.nextIndex - 1 <= f.last && Agree(f, l, f.last)
  }

  /** What the follower makes of the leader's entries. */
  function Delivered(f: Journal, l: Journal, p: Peer, id: int, term: nat): Option<AppendReply> {
    var m := SyncMessage(p, id, term, l, false);
    if m.Some? && m.value.AppendRequest?
    then OnAppendRequest(f, m.value.prevIndex, m.value.prevTerm, m.value.entries, m.value.commit)
    else None
  }

  /** A follower takes entries exactly if it has the entry in front of them, with its term. */
  lemma AcceptedIff(f: Journal, prev: int, prevTerm: nat, entries: seq<Entry>, leaderCommit: int)
    requires Aligned(f) && OnAppendRequest(f, prev, prevTerm, entries, leaderCommit).Some?
    ensures OnAppendRequest(f, prev, prevTerm, entries, leaderCommit).value.success <==>
      prev == 0 || (f.included <= prev <= f.last && GetTermAt(f, prev) == Some(prevTerm))
  {
    AlignedNeverFails(f, prev, prevTerm);
    hide Append, ApplyCommitLogs;
  }

  lemma AppliedLog(j: Journal)
    requires ApplyCommitLogs(j).Some?
    ensures var k := ApplyCommitLogs(j).value.journal; k == j.(applying := k.applying)
  {
    hide Batch;
  }

  /** A success adds the entries and nothing else to the log. */
  lemma SuccessAdds(f: Journal, prev: int, prevTerm: nat, entries: seq<Entry>, leaderCommit: int)
    requires Aligned(f)
    requires var r := OnAppendRequest(f, prev, prevTerm, entries, leaderCommit); r.Some? && r.value.success
    ensures var g, more := OnAppendRequest(f, prev, prevTerm, entries, leaderCommit).value.journal, Append(f, entries);
            && g.logs == more.logs && g.base == more.base && g.last == more.last && g.included == more.included
            && g.commit <= (if f.commit < leaderCommit then leaderCommit else f.commit)
  {
    var more := Append(f, entries);
    assert more.commit == f.commit;
    var last := Min(leaderCommit, more.last);
    if leaderCommit > more.commit && ApplyCommitLogs(more.(commit := last)).Some? {
      AppliedLog(more.(commit := last));
    }
    hide Append, ApplyCommitLogs, LogMatch, GetTermAt, TruncateAfter;
  }

  lemma AppendedAt(j: Journal, entries: seq<Entry>, i: int)
    requires Aligned(j) && j.last < i <= j.last + |entries|
    ensures GetLogAt(Append(j, entries), i) == Some(entries[i - j.last - 1])
  {}

  /** Lookups do not depend on the commit index or on what is under way. */
  lemma SameLog(j: Journal, k: Journal)
    requires Aligned(j) && k.logs == j.logs && k.base == j.base && k.last == j.last && k.included == j.included
    ensures Aligned(k) && forall i :: GetLogAt(k, i) == GetLogAt(j, i)
  {}

  /** The follower's log behind a success: its own entries, then the leader's. */
  lemma DeliveredEntries(f: Journal, l: Journal, p: Peer, id: int, term: nat)
    requires Aligned(f) && Aligned(l) && l.base <= p.nextIndex <= l.last + 1
    requires var r := Delivered(f, l, p, id, term); r.Some? && r.value.success
    ensures var g, n := Delivered(f, l, p, id, term).value.journal, l.last + 1 - p.nextIndex;
            && Aligned(g) && g.included == f.included && g.last == f.last + n
            && (forall i :: Covers(f, i) ==> GetLogAt(g, i) == GetLogAt(f, i))
            && (forall i :: f.last < i <= g.last ==> GetLogAt(g, i) == GetLogAt(l, i - f.last + p.nextIndex - 1))
            && g.commit <= (if f.commit < l.commit then l.commit else f.commit)
  {
    SyncCarries(p, id, term, l, false);
    var m := SyncMessage(p, id, term, l, false).value;
    hide SyncMessage;
    var more := Append(f, m.entries);
    var g := Delivered(f, l, p, id, term).value.journal;
    SuccessAdds(f, m.prevIndex, m.prevTerm, m.entries, m.commit);
    hide OnAppendRequest;
    AppendAligned(f, m.entries);
    AppendKeepsLabel(f, m.entries);
    hide Append, Aligned;
    SameLog(more, g);
    hide GetLogAt, Delivered;
    forall i | f.last < i <= g.last ensures GetLogAt(g, i) == GetLogAt(l, i - f.last + p.nextIndex - 1) {
      AppendedAt(f, m.entries, i);
      assert Some(m.entries[i - f.last - 1]) == GetLogAt(l, p.nextIndex + (i - f.last - 1));
    }
  }

  lemma AppendKeepsLabel(j: Journal, entries: seq<Entry>)
    ensures Append(j, entries).included == j.included
  {}

  /** How far the follower's log goes beyond the entry before the next index. */
  function Shift(f: Journal, p: Peer): int {
    f.last - (p.nextIndex - 1)
  }

  /** The leader's entries behind index from are those shift places before them. */
  ghost predicate RepeatsBehind(l: Journal, from: int, shift: int) {
    forall i :: from < i <= l.last ==> GetLogAt(l, i) == GetLogAt(l, i - shift)
  }

  lemma DeliveredAt(f: Journal, l: Journal, p: Peer, id: int, term: nat, i: int)
    requires Reached(f, l, p) && i <= l.last && f.included < i && l.included < i
    requires var r := Delivered(f, l, p, id, term); r.Some? && r.value.success
    ensures var g := Delivered(f, l, p, id, term).value.journal;
            GetLogAt(g, i) == if i <= f.last then GetLogAt(l, i) else GetLogAt(l, i - Shift(f, p))
  {
    DeliveredEntries(f, l, p, id, term);
    if i <= f.last {
      assert Covers(f, i) && Covers(l, i);
    }
    hide Delivered, GetLogAt;
  }

  lemma DeliveredCovers(f: Journal, l: Journal, p: Peer, id: int, term: nat, i: int)
    requires Reached(f, l, p) && i <= l.last
    requires var r := Delivered(f, l, p, id, term); r.Some? && r.value.success
    ensures var g := Delivered(f, l, p, id, term).value.journal;
            && g.last == l.last + Shift(f, p) && (Covers(g, i) <==> f.included < i)
  {
    DeliveredEntries(f, l, p, id, term);
    hide Delivered, GetLogAt;
  }

  /** The entries of a broadcast are added behind the end of the follower's log, wherever that is. The
      logs then agree, at every index both hold up to the leader's last, exactly if the leader's
      entries behind the follower's old end repeat themselves at the distance by which that log had
      gone further than the leader thought, as it does when a request is sent again before the answer
      to the first one. */
  lemma RepeatedAgreesIff(f: Journal, l: Journal, p: Peer, id: int, term: nat)
    requires Reached(f, l, p)
    requires var r := Delivered(f, l, p, id, term); r.Some? && r.value.success
    ensures var g := Delivered(f, l, p, id, term).value.journal;
            && g.last == l.last + Shift(f, p)
            && (Agree(g, l, l.last) <==> RepeatsBehind(l, f.last, Shift(f, p)))
  {
    var g := Delivered(f, l, p, id, term).value.journal;
    DeliveredCovers(f, l, p, id, term, l.last);
    LabelsBelow(f, l, p);
    hide Delivered, GetLogAt, Shift, Reached;
    if Agree(g, l, l.last) {
      forall i | f.last < i <= l.last ensures GetLogAt(l, i) == GetLogAt(l, i - Shift(f, p)) {
        DeliveredCovers(f, l, p, id, term, i);
        DeliveredAt(f, l, p, id, term, i);
      }
    }
    if RepeatsBehind(l, f.last, Shift(f, p)) {
      forall i | Covers(g, i) && Covers(l, i) && i <= l.last ensures GetLogAt(g, i) == GetLogAt(l, i) {
        DeliveredCovers(f, l, p, id, term, i);
        DeliveredAt(f, l, p, id, term, i);
      }
    }
  }

  lemma LabelsBelow(f: Journal, l: Journal, p: Peer)
    requires Reached(f, l, p)
    ensures f.included <= f.last && l.included <= f.last
  {
    hide Agree;
  }

  /** So a follower that stands where the leader thinks has the leader's log afterwards: the same
      entry at every index both hold, the same last index, and it commits no more than the leader. */
  lemma EntriesArrive(f: Journal, l: Journal, p: Peer, id: int, term: nat)
    requires Reached(f, l, p) && f.last == p.nextIndex - 1
    requires var r := Delivered(f, l, p, id, term); r.Some? && r.value.success
    ensures var g := Delivered(f, l, p, id, term).value.journal;
            && g.last == l.last && Agree(g, l, l.last)
            && g.commit <= (if f.commit < l.commit then l.commit else f.commit)
  {
    hide Delivered, GetLogAt, Agree, Reached;
    RepeatedAgreesIff(f, l, p, id, term);
    CommitFollows(f, l, p, id, term);
    assert Shift(f, p) == 0;
  }

  lemma CommitFollows(f: Journal, l: Journal, p: Peer, id: int, term: nat)
    requires Reached(f, l, p)
    requires var r := Delivered(f, l, p, id, term); r.Some? && r.value.success
    ensures Delivered(f, l, p, id, term).value.journal.commit <= (if f.commit < l.commit then l.commit else f.commit)
  {
    DeliveredEntries(f, l, p, id, term);
    hide Delivered, GetLogAt, Agree;
  }

  /** Two writes before the first answer: the follower gets the first entry twice, and answers with
      an index that the leader's log does not have. */
  lemma TwoWritesRepeat(e: Entry, f: Entry, id: int, term: nat) returns (first: AppendReply, second: AppendReply)
    requires e.term == f.term == term > 0
    ensures var one := Append(FreshJournal, [e]);
            var two := Append(one, [f]);
            var p := Peer(1, 1, 0);
            && Delivered(FreshJournal, one, p, id, term) == Some(first)
            && Delivered(first.journal, two, p, id, term) == Some(second)
            && first.success && second.success && two.last == 2
            && second.journal.logs == [e, e, f] && second.journal.last == 3
            && (Agree(second.journal, two, 2) <==> e == f)
  {
    var one := Append(FreshJournal, [e]);
    var two := Append(one, [f]);
    var p := Peer(1, 1, 0);
    assert one.logs == [e] && two.logs == [e, f];
    assert SyncMessage(p, id, term, one, false).value.entries == [e];
    assert SyncMessage(p, id, term, two, false).value.entries == [e, f];
    first := AppendReply(one, [], true);
    second := AppendReply(Append(one, [e, f]), [], true);
    assert second.journal.logs == [e, e, f];
    if e == f {
      forall i | Covers(second.journal, i) && Covers(two, i) && i <= 2
        ensures GetLogAt(second.journal, i) == GetLogAt(two, i)
      {
        assert i == 1 || i == 2;
      }
    } else {
      assert GetLogAt(second.journal, 2) == Some(e) && GetLogAt(two, 2) == Some(f);
      assert Covers(second.journal, 2) && Covers(two, 2);
    }
  }

  // ---- what the leader concludes ----

  /** The match entry that a leader takes from a success is an index the follower's log ended at when
      it answered, and the next request begins right behind it. */
  lemma MatchIsHeld(f: Journal, prev: int, prevTerm: nat, entries: seq<Entry>, leaderCommit: int, id: int, term: nat)
    requires Aligned(f)
    requires var r := OnAppendRequest(f, prev, prevTerm, entries, leaderCommit); r.Some? && r.value.success
    ensures var r := OnAppendRequest(f, prev, prevTerm, entries, leaderCommit).value;
            var messages := Answer(r, id, term);
            && messages != [] && messages[|messages| - 1].AppendResponse?
            && var x := messages[|messages| - 1].lastIndex;
               && messages[|messages| - 1] == AppendResponse(id, term, true, x) && Ends(r.journal, x)
               && x == f.last + |entries|
  {
    AnswerReports(f, prev, prevTerm, entries, leaderCommit);
    AppendAligned(f, entries);
    hide Append, Batch, LogMatch, Ends;
  }

  /** An index that a log has reached stays reached: appending and cutting behind a snapshot do not
      lower its last index. */
  lemma HeldForGood(f: Journal, prev: int, prevTerm: nat, entries: seq<Entry>, leaderCommit: int, x: int)
    requires Aligned(f)
    ensures var r := OnAppendRequest(f, prev, prevTerm, entries, leaderCommit);
            r.Some? ==> Aligned(r.value.journal) && r.value.journal.last >= f.last
    ensures f.included <= x <= f.last ==>
      var cut := OnSnapshot(f, x, GetTermAt(f, x).value);
      cut.Some? && Aligned(cut.value) && cut.value.last == f.last
  {
    AnswerReports(f, prev, prevTerm, entries, leaderCommit);
    AppendAligned(f, entries);
    AlignedNeverFails(f, prev, prevTerm);
    if f.included <= x <= f.last {
      SnapshotInvisible(f, x);
    }
    hide Append, Batch, OnSnapshot, GetTermAt;
  }

  /** Whatever the leader commits is held by a strict majority of the logs, if every match entry is an
      index that the log of its node has reached. */
  lemma CommittedIsHeld(last: int, matches: seq<int>, lasts: seq<int>, self: nat)
    requires self < |matches| == |lasts| && matches[self] == 0 && lasts[self] == last
    requires forall i :: 0 <= i < |matches| && i != self ==> matches[i] <= lasts[i]
    ensures var m := MajorityMatch(last, matches); m > 0 ==> 2 * AtLeast(lasts, m) > |lasts|
  {
    var m := MajorityMatch(last, matches);
    if m > 0 {
      MajorityHolds(last, matches, self, m);
      CountsGrow(matches[self := last], lasts, m);
    }
    hide AtLeast, MajorityMatch;
  }

  // ---- what the leader assumes of its peers ----

  lemma {:induction false} CountsNone(xs: seq<int>, x: int)
    requires forall i :: 0 <= i < |xs| ==> xs[i] < x
    ensures AtLeast(xs, x) == 0
  {
    if xs != [] {
      CountsNone(xs[1..], x);
    }
  }

  /** A new leader takes every other peer to stand at the end of its own log and to hold nothing: it
      sends each a request without entries behind its own last entry, and counts only itself as
      holding an index. */
  lemma ResetStartsOver(peers: seq<Peer>, id: int, term: nat, j: Journal, self: nat, i: nat, x: int)
    requires Settled(j) && self < |peers| && i < |peers| && peers[self].id == id && peers[self].matchIndex == 0
    requires (forall k :: 0 <= k < |peers| && k != self ==> peers[k].id != id) && 0 < x <= j.last
    ensures var reset := ResetPeers(peers, id, j.last);
            && |reset| == |peers| && reset[i].id == peers[i].id && reset[self] == peers[self]
            && (i != self ==>
                  && SyncMessage(reset[i], id, term, j, true) == SyncMessage(reset[i], id, term, j, false)
                  && SyncMessage(reset[i], id, term, j, true) ==
                       Some(AppendRequest(peers[i].id, id, term, j.commit, j.last, j.lastTerm, [])))
            && Holders(j.last, MatchIndexes(reset), self, x) == 1
  {
    var reset := ResetPeers(peers, id, j.last);
    var matches := MatchIndexes(reset);
    assert j.base <= j.last + 1;
    if i != self {
      SyncCarries(reset[i], id, term, j, true);
      SyncCarries(reset[i], id, term, j, false);
      assert GetLogFrom(j, j.last + 1) == Some([]);
    }
    CountsNone(matches, x);
    UpdateCounts(matches, self, j.last, x);
  }

  /** The peer after n rejections. */
  function Rejected(p: Peer, n: nat): Peer {
    if n == 0 then p else StepBack(Rejected(p, n - 1))
  }

  lemma {:induction false} RejectedIndex(p: Peer, n: nat)
    requires p.nextIndex >= 1
    ensures var q := Rejected(p, n);
            && q.id == p.id && q.matchIndex == p.matchIndex
            && q.nextIndex == if n < p.nextIndex then p.nextIndex - n else 1
  {
    if n > 0 {
      RejectedIndex(p, n - 1);
    }
  }

  /** Each rejection goes one entry further back; in the end a leader without a snapshot offers its
      whole log, behind index 0, which no follower rejects. */
  lemma RejectionsReachStart(p: Peer, id: int, term: nat, l: Journal, f: Journal)
    requires Aligned(l) && Aligned(f) && l.included == 0 && 1 <= p.nextIndex
    ensures var q := Rejected(p, p.nextIndex - 1);
            var m := SyncMessage(q, id, term, l, false);
            && m.Some? && m.value.AppendRequest? && m.value.entries == l.logs && m.value.prevIndex == 0
            && LogMatch(f, m.value.prevIndex, m.value.prevTerm) == Some(true)
  {
    RejectedIndex(p, p.nextIndex - 1);
    assert l.logs[0..] == l.logs;
    hide Rejected;
  }
}
