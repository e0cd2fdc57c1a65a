/** The log of one node with its indices: what is in memory, what a snapshot has replaced, and how
    far it is committed and applied. */
module Journals {
  datatype Option<T> = None | Some(value: T)

  datatype Entry = Entry(term: nat, command: string)

  /** base: index of the first log entry in memory; last: index of the last one; included: index of
      the last entry that only the snapshot holds. */
  datatype Journal = Journal(logs: seq<Entry>, base: int, last: int, lastTerm: nat, included: int, includedTerm: nat,
                             commit: int, applied: int, applying: bool, snapshotting: bool)

  const FreshJournal: Journal := Journal([], 1, 0, 0, 0, 0, 0, 0, false, false)

  const SNAPSHOT_THRESHOLD: int := 3

  /** Requests to the state machine, in the order of its queue. */
  datatype Job = ApplyEntries(upTo: int, entries: seq<Entry>) | MakeSnapshot(index: int, term: nat)

  /** What is on disk about the log. */
  datatype Image = Image(logs: seq<Entry>, included: int, includedTerm: nat)

  // ---- lookups; None stands for an exception the node does not survive ----

  function GetTermAt(j: Journal, i: int): Option<nat> {
    if i == j.included then Some(j.includedTerm)
    else if i < j.base || i > j.last then Some(0)
    else if i - j.base < |j.logs| then Some(j.logs[i - j.base].term)
    else None
  }

  predicate LogUpToDate(j: Journal, index: int, term: nat) {
    if term != j.lastTerm then term > j.lastTerm else index >= j.last
  }

  function LogMatch(j: Journal, i: int, term: nat): Option<bool> {
    if i == 0 then Some(true)
    else if i == j.included then Some(j.includedTerm == term)
    else if i < j.base || i > j.last then Some(false)
    else
      var t := GetTermAt(j, i);
      if t.None? then None else Some(t.value == term)
  }

  function GetLogAt(j: Journal, i: int): Option<Entry> {
    if j.base <= i <= j.last && i - j.base < |j.logs| then Some(j.logs[i - j.base]) else None
  }

  function GetLogFrom(j: Journal, i: int): Option<seq<Entry>> {
    if i < j.base || i > j.last then Some([])
    else if i - j.base <= |j.logs| then Some(j.logs[i - j.base..])
    else None
  }

  // ---- changes ----

  /** Entries arriving from a leader go to the end of the log. */
  function Append(j: Journal, entries: seq<Entry>): Journal {
    if entries == [] then j
    else
      var logs := j.logs + entries;
      j.(logs := logs, last := j.base + |logs| - 1, lastTerm := logs[|logs| - 1].term)
  }

  function TruncateBefore(j: Journal, i: int): Option<Journal> {
    if i <= j.base || i > j.last + 1 then Some(j)
    else if i - j.base <= |j.logs| then Some(j.(logs := j.logs[i - j.base..], base := i))
    else None
  }

  /** The entries from index i to upTo. */
  function Batch(j: Journal, i: int, upTo: int): Option<seq<Entry>>
    decreases upTo - i
  {
    if i > upTo then Some([])
    else
      var e, more := GetLogAt(j, i), Batch(j, i + 1, upTo);
      if e.None? || more.None? then None else Some([e.value] + more.value)
  }

  datatype Outcome = Outcome(journal: Journal, jobs: seq<Job>)

  /** Hands everything committed and not yet applied to the state machine, one batch at a time. */
  function ApplyCommitLogs(j: Journal): Option<Outcome> {
    if j.applying then Some(Outcome(j, []))
    else
      var batch := Batch(j, j.applied + 1, j.commit);
      if batch.None? then None
      else Some(Outcome(j.(applying := true), [ApplyEntries(j.commit, batch.value)]))
  }

  function CheckIfNeedSnapshot(j: Journal): Option<Outcome> {
    if j.snapshotting || j.applied - j.included < SNAPSHOT_THRESHOLD then Some(Outcome(j, []))
    else
      var t := GetTermAt(j, j.applied);
      if t.None? then None
      else Some(Outcome(j.(snapshotting := true), [MakeSnapshot(j.applied, t.value)]))
  }

  /** The state machine reports that it has applied up to an index. */
  function OnApplied(j: Journal, upTo: int): Option<Outcome> {
    CheckIfNeedSnapshot(j.(applied := upTo, applying := false))
  }

  /** The state machine reports a snapshot; (-1, 0) says that it failed. */
  function OnSnapshot(j: Journal, index: int, term: nat): Option<Journal> {
    if index == -1 && term == 0 then Some(j)
    else
      var cut := TruncateBefore(j, index + 1);
      if cut.None? then None
      else Some(cut.value.(included := index, includedTerm := term, snapshotting := false))
  }

  /** The entries before index i; the index of the last entry is left as it was. */
  function TruncateAfter(j: Journal, i: int): Journal {
    if i < j.base || i > j.last then j else j.(logs := Resize(j.logs, i - j.base))
  }

  function Resize(logs: seq<Entry>, n: nat): seq<Entry> {
    if n <= |logs| then logs[..n] else logs + seq(n - |logs|, _ => Entry(0, ""))
  }

  function Min(a: int, b: int): int {
    if a < b then a else b
  }

  datatype AppendReply = AppendReply(journal: Journal, jobs: seq<Job>, success: bool)

  /** A leader's entries behind index prev. If the log has another term there it is cut off, and the
      lookup that follows, for the log message, then fails. */
  function OnAppendRequest(j: Journal, prev: int, prevTerm: nat, entries: seq<Entry>,
                           leaderCommit: int): Option<AppendReply> {
    var found := LogMatch(j, prev, prevTerm);
    if found.None? then None
    else if !found.value then
      var cut := TruncateAfter(j, prev);
      if GetTermAt(cut, prev).None? then None else Some(AppendReply(cut, [], false))
    else
      var more := Append(j, entries);
      if leaderCommit > more.commit then
        var o := ApplyCommitLogs(more.(commit := Min(leaderCommit, more.last)));
        if o.None? then None else Some(AppendReply(o.value.journal, o.value.jobs, true))
      else Some(AppendReply(more, [], true))
  }

  /** A leader that leads in a term finds that a majority has an index. */
  function OnMajority(j: Journal, term: nat, majority: int): Option<Outcome> {
    var t := GetTermAt(j, majority);
    if t.None? then None
    else if t.value != term then Some(Outcome(j, []))
    else
      var o := ApplyCommitLogs(j.(commit := majority));
      if o.None? then None
      else
        var more := CheckIfNeedSnapshot(o.value.journal);
        if more.None? then None else Some(Outcome(more.value.journal, o.value.jobs + more.value.jobs))
  }

  function ImageOf(j: Journal): Image {
    Image(j.logs, j.included, j.includedTerm)
  }

  function Load(d: Image): Journal {
    var last := d.included + |d.logs|;
    var j := Journal(d.logs, d.included + 1, last, 0, d.included, d.includedTerm, d.included, d.included, false, false);
    j.(lastTerm := GetTermAt(j, last).value)
  }

  // ---- the indices fit together ----

  /** The log in memory begins right behind the snapshot, and last is its last index. */
  predicate Aligned(j: Journal) {
    j.included >= 0 && j.base == j.included + 1 && j.last == j.included + |j.logs|
  }

  /** Where an aligned log knows the entry of an index. */
  predicate Covers(j: Journal, i: int) {
    j.included < i <= j.last
  }

  lemma AlignedNeverFails(j: Journal, i: int, term: nat)
    requires Aligned(j)
    ensures GetTermAt(j, i).Some? && LogMatch(j, i, term).Some? && GetLogFrom(j, i).Some?
    ensures TruncateBefore(j, i).Some? && (GetLogAt(j, i).Some? <==> Covers(j, i))
  {}

  lemma AppendAligned(j: Journal, entries: seq<Entry>)
    requires Aligned(j)
    ensures Aligned(Append(j, entries)) && Append(j, entries).last == j.last + |entries|
    ensures forall i :: i <= j.last ==> GetTermAt(Append(j, entries), i) == GetTermAt(j, i)
    ensures forall i :: Covers(j, i) ==> GetLogAt(Append(j, entries), i) == GetLogAt(j, i)
  {}

  /** Counting the last index up by one is the same as counting the entries, if the log is aligned. */
  lemma WriteIsAppend(j: Journal, e: Entry)
    requires Aligned(j)
    ensures j.(logs := j.logs + [e], last := j.last + 1, lastTerm := e.term) == Append(j, [e])
  {}

  /** A snapshot at an index that the log covers keeps it aligned, and every lookup at an index it
      still covers gives what it gave before. */
  lemma SnapshotInvisible(j: Journal, x: int)
    requires Aligned(j) && j.included <= x <= j.last
    ensures var t := GetTermAt(j, x); t.Some?
    ensures var j' := OnSnapshot(j, x, GetTermAt(j, x).value);
            && j'.Some? && Aligned(j'.value) && j'.value.included == x && j'.value.last == j.last
            && (forall i :: x <= i ==> GetTermAt(j'.value, i) == GetTermAt(j, i))
            && (forall i, term :: x <= i && i != 0 ==> LogMatch(j'.value, i, term) == LogMatch(j, i, term))
            && (forall i :: x < i ==> GetLogFrom(j'.value, i) == GetLogFrom(j, i))
            && (forall i :: x < i ==> GetLogAt(j'.value, i) == GetLogAt(j, i))
  {
    var j' := OnSnapshot(j, x, GetTermAt(j, x).value).value;
    forall i | x < i ensures GetLogFrom(j', i) == GetLogFrom(j, i) {
      if i <= j.last {
        assert j.logs[x - j.included..][i - j'.base..] == j.logs[i - j.base..];
      }
    }
  }

  /** Loading what was persisted gives the same term and command at every index. */
  lemma LoadRestores(j: Journal)
    requires Aligned(j)
    ensures var j' := Load(ImageOf(j));
            && Aligned(j') && j'.included == j.included && j'.last == j.last && j'.logs == j.logs
            && (forall i :: GetTermAt(j', i) == GetTermAt(j, i)) && (forall i :: GetLogAt(j', i) == GetLogAt(j, i))
            && (forall i, term :: LogMatch(j', i, term) == LogMatch(j, i, term))
            && j'.commit == j'.applied == j.included && Some(j'.lastTerm) == GetTermAt(j, j.last)
  {}

  /** Besides, the term kept for the last entry is that entry's term. */
  predicate Settled(j: Journal) {
    Aligned(j) && GetTermAt(j, j.last) == Some(j.lastTerm)
  }

  lemma AppendSettled(j: Journal, entries: seq<Entry>)
    requires Settled(j)
    ensures Settled(Append(j, entries))
  {}

  lemma SnapshotSettled(j: Journal, x: int)
    requires Settled(j) && j.included <= x <= j.last
    ensures GetTermAt(j, x).Some? && OnSnapshot(j, x, GetTermAt(j, x).value).Some?
    ensures Settled(OnSnapshot(j, x, GetTermAt(j, x).value).value)
  {
    SnapshotInvisible(j, x);
    assert OnSnapshot(j, x, GetTermAt(j, x).value).value.lastTerm == j.lastTerm;
    hide OnSnapshot, GetTermAt;
  }

  /** Cutting the log at an index it covers keeps exactly the entries in front of it. */
  lemma CutKeepsFront(j: Journal, i: int, k: int)
    requires Aligned(j) && Covers(j, i)
    ensures GetLogAt(TruncateAfter(j, i), k) == if k < i then GetLogAt(j, k) else None
  {}

  // ---- which log is newer ----

  /** The candidate's log is at least as new as the voter's, as the candidate claims it. */
  predicate AtLeastAsNew(candidate: Journal, voter: Journal) {
    LogUpToDate(voter, candidate.last, candidate.lastTerm)
  }

  /** Comparing logs is a total preorder. */
  lemma NewnessOrders(a: Journal, b: Journal, c: Journal)
    ensures AtLeastAsNew(a, a)
    ensures AtLeastAsNew(a, b) || AtLeastAsNew(b, a)
    ensures AtLeastAsNew(a, b) && AtLeastAsNew(b, c) ==> AtLeastAsNew(a, c)
  {}

  /** Two logs are each at least as new as the other exactly if they end at the same index with
      entries of the same term. */
  lemma EquallyNewIff(a: Journal, b: Journal)
    requires Settled(a) && Settled(b)
    ensures AtLeastAsNew(a, b) && AtLeastAsNew(b, a) <==>
      a.last == b.last && GetTermAt(a, a.last) == GetTermAt(b, b.last)
  {
    hide GetTermAt;
  }

  /** The term of the last entry decides, and the index only between equal terms. */
  lemma NewerByTermThenIndex(a: Journal, b: Journal)
    requires Settled(a) && Settled(b)
    ensures var s, t := GetTermAt(a, a.last).value, GetTermAt(b, b.last).value;
            && (s < t ==> !AtLeastAsNew(a, b)) && (s > t ==> AtLeastAsNew(a, b))
            && (s == t ==> (AtLeastAsNew(a, b) <==> a.last >= b.last))
  {
    hide GetTermAt;
  }

  /** A log with more entries is at least as new, if the entries added are of no older term. */
  lemma AppendedIsNewer(j: Journal, entries: seq<Entry>)
    requires Settled(j) && forall e :: e in entries ==> e.term >= j.lastTerm
    ensures AtLeastAsNew(Append(j, entries), j)
    ensures entries != [] ==> !AtLeastAsNew(j, Append(j, entries))
  {
    if entries != [] {
      assert (j.logs + entries)[|j.logs + entries| - 1] == entries[|entries| - 1];
      assert entries[|entries| - 1] in entries;
    }
  }

  lemma {:induction false} BatchFails(j: Journal, i: int, upTo: int)
    requires Aligned(j)
    ensures Batch(j, i, upTo).None? <==> i <= upTo && (i <= j.included || upTo > j.last)
    decreases upTo - i
  {
    if i <= upTo {
      BatchFails(j, i + 1, upTo);
    }
  }

  /** Handing over a batch ends the process exactly if it begins with an entry that only the snapshot
      holds, or ends behind the log. */
  lemma ApplyFailsIff(j: Journal)
    requires Aligned(j)
    ensures ApplyCommitLogs(j).None? <==>
      !j.applying && j.applied < j.commit && (j.applied < j.included || j.commit > j.last)
  {
    BatchFails(j, j.applied + 1, j.commit);
    hide Batch, Aligned;
  }

  /** A leader's commit ends the process exactly if the majority's entry is of its term and the batch
      up to it begins with an entry that only the snapshot holds. */
  lemma MajorityFailsIff(j: Journal, term: nat, majority: int)
    requires Aligned(j) && term > 0
    ensures OnMajority(j, term, majority).None? <==>
      GetTermAt(j, majority) == Some(term) && !j.applying && j.applied < j.included && j.applied < majority
  {
    AlignedNeverFails(j, majority, 0);
    if GetTermAt(j, majority) == Some(term) {
      assert majority <= j.last;
      ApplyFailsIff(j.(commit := majority));
      CheckNeverFails(j.(commit := majority));
      CheckNeverFails(j.(commit := majority, applying := true));
    }
    hide Batch, CheckIfNeedSnapshot;
  }

  lemma CheckNeverFails(j: Journal)
    requires Aligned(j)
    ensures CheckIfNeedSnapshot(j).Some?
  {
    AlignedNeverFails(j, j.applied, 0);
  }

  /** A log that disagrees with the leader inside its range is never cut: the node dies first, and
      finds the whole log again on disk. So a log only grows, or loses what a snapshot holds. */
  lemma MismatchIsFatal(j: Journal, prev: int, prevTerm: nat, entries: seq<Entry>, leaderCommit: int)
    requires Aligned(j)
    ensures OnAppendRequest(j, prev, prevTerm, entries, leaderCommit).None? <==>
      || (Covers(j, prev) && GetTermAt(j, prev) != Some(prevTerm))
      || (LogMatch(j, prev, prevTerm) == Some(true) && leaderCommit > j.commit && !j.applying
          && j.applied < j.included && j.applied < Min(leaderCommit, j.last + |entries|))
    ensures var r := OnAppendRequest(j, prev, prevTerm, entries, leaderCommit);
            r.Some? ==> r.value.journal.logs == if r.value.success then j.logs + entries else j.logs
  {
    AppendAligned(j, entries);
    var more := Append(j, entries);
    assert more.commit == j.commit && more.applied == j.applied && more.applying == j.applying &&
      more.included == j.included;
    assert more.logs == j.logs + entries;
    ApplyFailsIff(more.(commit := Min(leaderCommit, more.last)));
    hide Batch, Append;
  }
}
