/** One node: its fields and the handlers that change them. Every handler is proved to change the
    ballot and the journal exactly as the functions of Election and Journals say. A handler that
    reports crashed has run into an exception that ends the process. */
module RaftNode {
  import C = Commands
  import E = Election
  import opened Journals
  import opened Quorum

  datatype Peer = Peer(id: int, nextIndex: int, matchIndex: int)

  /** What the node hands to its application. */
  datatype Message =
    | VoteRequest(to: int, from: int, term: nat, lastIndex: int, lastTerm: nat)
    | VoteResponse(term: nat, granted: bool)
    | AppendRequest(to: int, from: int, term: nat, commit: int, prevIndex: int, prevTerm: nat, entries: seq<Entry>)
    | SnapshotRequest(to: int, from: int, term: nat, includedIndex: int, includedTerm: nat)
    | AppendResponse(from: int, term: nat, success: bool, lastIndex: int)
    | ForStateMachine(job: Job)
    | Redirect(leader: int)
    | Read(key: string)

  /** What a client asks for. */
  datatype Operation = Put | Update | Delete | Get

  function CommandFor(op: Operation, key: string, value: string): C.Command {
    match op
    case Put => C.Put(key, value)
    case Update => C.Update(key, value)
    case Delete => C.Delete(key)
    case Get => C.Nothing
  }

  /** The persisted file. */
  datatype Disk = Disk(term: nat, votedFor: int, image: Image)

  // ---- broadcasts ----

  /** A vote request to every peer but the node itself. */
  function VoteRequests(peers: seq<Peer>, id: int, term: nat, j: Journal): seq<Message> {
    if peers == [] then []
    else
      var p, rest := peers[|peers| - 1], VoteRequests(peers[..|peers| - 1], id, term, j);
      if p.id == id then rest else rest + [VoteRequest(p.id, id, term, j.last, j.lastTerm)]
  }

  function SyncMessage(p: Peer, id: int, term: nat, j: Journal, heartbeat: bool): Option<Message> {
    if p.nextIndex < j.base then Some(SnapshotRequest(p.id, id, term, j.included, j.includedTerm))
    else
      var t, es := GetTermAt(j, p.nextIndex - 1), GetLogFrom(j, p.nextIndex);
      if t.None? || (!heartbeat && es.None?) then None
      else Some(AppendRequest(p.id, id, term, j.commit, p.nextIndex - 1, t.value, if heartbeat then [] else es.value))
  }

  /** Entries, a bare heartbeat, or a snapshot for a peer that is too far behind. */
  function SyncMessages(peers: seq<Peer>, id: int, term: nat, j: Journal, heartbeat: bool): Option<seq<Message>> {
    if peers == [] then Some([])
    else
      var p, rest := peers[|peers| - 1], SyncMessages(peers[..|peers| - 1], id, term, j, heartbeat);
      if p.id == id then rest
      else
        var m := SyncMessage(p, id, term, j, heartbeat);
        if rest.None? || m.None? then None else Some(rest.value + [m.value])
  }

  function ResetPeers(peers: seq<Peer>, id: int, last: int): seq<Peer> {
    seq(|peers|, i requires 0 <= i < |peers| => if peers[i].id == id then peers[i] else Peer(peers[i].id, last + 1, 0))
  }

  function MatchIndexes(peers: seq<Peer>): seq<int> {
    seq(|peers|, i requires 0 <= i < |peers| => peers[i].matchIndex)
  }

  function Jobs(jobs: seq<Job>): seq<Message> {
    seq(|jobs|, i requires 0 <= i < |jobs| => ForStateMachine(jobs[i]))
  }

  /** The commit index follows a leader's as far as the log goes. */
  function Follow(j: Journal, leaderCommit: int): Option<Outcome> {
    if leaderCommit > j.commit then ApplyCommitLogs(j.(commit := Journals.Min(leaderCommit, j.last)))
    else Some(Outcome(j, []))
  }

  /** What an append request leads to: work for the state machine and an answer to the leader. */
  function Answer(r: AppendReply, id: int, term: nat): seq<Message> {
    Jobs(r.jobs) + [AppendResponse(id, term, r.success, if r.success then r.journal.last else 0)]
  }

  /** With distinct peers, every other node is asked once, and nobody else. */
  lemma {:induction false} EveryoneAsked(peers: seq<Peer>, id: int, term: nat, j: Journal, m: Message)
    ensures m in VoteRequests(peers, id, term, j) <==>
      exists i :: 0 <= i < |peers| && peers[i].id != id && m == VoteRequest(peers[i].id, id, term, j.last, j.lastTerm)
  {
    if peers != [] {
      var front := peers[..|peers| - 1];
      EveryoneAsked(front, id, term, j, m);
      assert forall i :: 0 <= i < |front| ==> front[i] == peers[i];
      if i :| 0 <= i < |peers| && peers[i].id != id && m == VoteRequest(peers[i].id, id, term, j.last, j.lastTerm) {
        assert i < |front| ==> front[i] == peers[i];
      }
    }
  }

  /** An aligned log never makes a broadcast fail. */
  lemma {:induction false} SyncNeverFails(peers: seq<Peer>, id: int, term: nat, j: Journal, heartbeat: bool)
    requires Aligned(j)
    ensures SyncMessages(peers, id, term, j, heartbeat).Some?
  {
    if peers != [] {
      var p := peers[|peers| - 1];
      SyncNeverFails(peers[..|peers| - 1], id, term, j, heartbeat);
      AlignedNeverFails(j, p.nextIndex - 1, 0);
      AlignedNeverFails(j, p.nextIndex, 0);
      hide Aligned, GetTermAt, GetLogFrom;
    }
  }

  /** A broadcast is exactly the messages for the other peers, one each. */
  lemma {:induction false} SyncReaches(peers: seq<Peer>, id: int, term: nat, j: Journal, heartbeat: bool, m: Message)
    requires Aligned(j)
    ensures var sent := SyncMessages(peers, id, term, j, heartbeat);
            && sent.Some?
            && (m in sent.value <==>
                  exists i :: 0 <= i < |peers| && peers[i].id != id
                    && SyncMessage(peers[i], id, term, j, heartbeat) == Some(m))
            && |sent.value| == Others(peers, id)
  {
    SyncNeverFails(peers, id, term, j, heartbeat);
    hide Aligned, SyncMessage;
    if peers != [] {
      var front := peers[..|peers| - 1];
      SyncReaches(front, id, term, j, heartbeat, m);
      assert forall i :: 0 <= i < |front| ==> front[i] == peers[i];
      if i :| 0 <= i < |peers| && peers[i].id != id && SyncMessage(peers[i], id, term, j, heartbeat) == Some(m) {
        assert i < |front| ==> front[i] == peers[i];
      }
    }
  }

  /** How many peers are not the node itself. */
  function Others(peers: seq<Peer>, id: int): nat {
    if peers == [] then 0
    else Others(peers[..|peers| - 1], id) + if peers[|peers| - 1].id == id then 0 else 1
  }

  /** The log of j ends exactly at index x: with the entry there, or with the snapshot. */
  ghost predicate Ends(j: Journal, x: int) {
    && x == j.included + |j.logs| && GetLogAt(j, x + 1).None?
    && (x > j.included ==> GetLogAt(j, x).Some?)
  }

  lemma AnswerReports(j: Journal, prev: int, prevTerm: nat, entries: seq<Entry>, leaderCommit: int)
    requires Aligned(j)
    ensures var r := OnAppendRequest(j, prev, prevTerm, entries, leaderCommit);
            r.Some? ==>
              && (r.value.success ==> Ends(r.value.journal, r.value.journal.last))
              && r.value.journal.last >= j.last && r.value.journal.included == j.included
  {
    AppendAligned(j, entries);
    AlignedNeverFails(j, prev, prevTerm);
    hide Append, Batch;
  }

  class Raft {
    const id: int
    var role: E.Role
    var term: nat
    var voteCount: nat
    var votedFor: int
    var leaderId: int
    var logs: seq<Entry>
    var baseIndex: int
    var lastLogIndex: int
    var lastLogTerm: nat
    var lastIncludedIndex: int
    var lastIncludedTerm: nat
    var lastCommitIndex: int
    var lastAppliedIndex: int
    var isApplying: bool
    var isSnapshotting: bool
    var peers: seq<Peer>
    var inner: seq<Message>
    var disk: Option<Disk>

    function Ballot(): E.Ballot
      reads this
    {
      E.Ballot(role, term, votedFor, voteCount)
    }

    function TheJournal(): Journal
      reads this
    {
      Journal(logs, baseIndex, lastLogIndex, lastLogTerm, lastIncludedIndex, lastIncludedTerm, lastCommitIndex,
              lastAppliedIndex, isApplying, isSnapshotting)
    }

    /** A restart would find the term and the vote in memory, and the log of j; without a file it
        would find a fresh node. */
    ghost predicate DiskHolds(j: Journal)
      reads this
    {
      if disk.Some? then disk.value == Disk(term, votedFor, ImageOf(j))
      else term == 0 && votedFor == E.NOBODY && ImageOf(j) == ImageOf(FreshJournal)
    }

    /** An answer to an append request: a success tells the index of the last entry that this node's
        log holds. */
    ghost predicate Reports(m: Message)
      reads this
    {
      && m.AppendResponse? && m.from == id && m.term == term
      && (m.success ==> Ends(TheJournal(), m.lastIndex))
    }

    /** The class invariant: the indices and the last term fit the log, and the disk holds what is in
        memory. */
    ghost predicate Saved()
      reads this
    {
      Settled(TheJournal()) && DiskHolds(TheJournal())
    }

    constructor (id: int, peers: seq<Peer>)
      ensures Ballot() == E.FreshBallot && TheJournal() == FreshJournal && Saved()
      ensures this.id == id && this.peers == peers && inner == [] && disk == None && leaderId == -1
    {
      this.id, this.peers := id, peers;
      role, term, voteCount, votedFor, leaderId := E.Follower, 0, 0, E.NOBODY, -1;
      logs, baseIndex, lastLogIndex, lastLogTerm := [], 1, 0, 0;
      lastIncludedIndex, lastIncludedTerm, lastCommitIndex, lastAppliedIndex := 0, 0, 0, 0;
      isApplying, isSnapshotting, inner, disk := false, false, [], None;
    }

    method Persist()
      modifies `disk
      ensures disk == Some(Disk(term, votedFor, ImageOf(TheJournal())))
    {
      var entries, i := [], 0;
      while i < |logs|
        invariant 0 <= i <= |logs| && entries == logs[..i]
        modifies {}
      {
        entries := entries + [Entry(logs[i].term, logs[i].command)];
        i := i + 1;
      }
      assert entries == logs;
      disk := Some(Disk(term, votedFor, Image(entries, lastIncludedIndex, lastIncludedTerm)));
    }

    /** Reads the entries of the file. */
    method LoadLogs(entries: seq<Entry>)
      requires logs == []
      modifies `logs
      ensures logs == entries
    {
      var i := 0;
      while i < |entries|
        invariant 0 <= i <= |entries| && logs == entries[..i]
        modifies `logs
      {
        logs := logs + [entries[i]];
        i := i + 1;
      }
      assert logs == entries;
    }

    /** The log of the file, with everything up to its label committed and applied. */
    method LoadImage(image: Image)
      requires TheJournal() == FreshJournal
      modifies `lastIncludedIndex, `lastIncludedTerm, `logs, `baseIndex, `lastLogIndex, `lastLogTerm, `lastCommitIndex,
        `lastAppliedIndex
      ensures TheJournal() == Load(image)
    {
      lastIncludedIndex, lastIncludedTerm := image.included, image.includedTerm;
      LoadLogs(image.logs);
      baseIndex := lastIncludedIndex + 1;
      lastLogIndex := baseIndex + |logs| - 1;
      lastCommitIndex, lastAppliedIndex := lastIncludedIndex, lastIncludedIndex;
      lastLogTerm := GetTermAt(TheJournal(), lastLogIndex).value;
    }

    /** Restores term, vote and log; a fresh node stays fresh if there is no file. */
    method LoadPersist() returns (ok: bool)
      requires Ballot() == E.FreshBallot && TheJournal() == FreshJournal
      modifies `term, `votedFor, `lastIncludedIndex, `lastIncludedTerm, `logs, `baseIndex, `lastLogIndex, `lastLogTerm,
        `lastCommitIndex, `lastAppliedIndex
      ensures ok == disk.Some?
      ensures ok ==> TheJournal() == Load(disk.value.image) && DiskHolds(TheJournal())
      ensures ok && disk.value.image.included >= 0 ==> Saved()
      ensures ok ==> Ballot() == E.Restart(E.Ballot(role, disk.value.term, disk.value.votedFor, voteCount))
      ensures !ok ==> Ballot() == E.FreshBallot && TheJournal() == FreshJournal
    {
      if disk.None? {
        return false;
      }
      term, votedFor := disk.value.term, disk.value.votedFor;
      LoadImage(disk.value.image);
      ok := true;
    }

    method BecomeFollower(leader: int, newTerm: nat)
      modifies `role, `term, `leaderId, `votedFor, `disk
      ensures Ballot() == E.BecomeFollower(old(Ballot()), newTerm) && leaderId == leader
      ensures disk == Some(Disk(term, votedFor, ImageOf(TheJournal())))
    {
      role, term, leaderId, votedFor := E.Follower, newTerm, leader, E.NOBODY;
      Persist();
    }

    method BecomeCandidate()
      modifies `role, `term, `votedFor, `voteCount, `disk, `inner
      ensures Ballot() == E.BecomeCandidate(old(Ballot()), id)
      ensures disk == Some(Disk(term, votedFor, ImageOf(TheJournal())))
      ensures inner == old(inner) + VoteRequests(peers, id, term, TheJournal())
    {
      role, term, votedFor, voteCount := E.Candidate, term + 1, id, 1;
      Persist();
      var i := 0;
      while i < |peers|
        invariant 0 <= i <= |peers| && inner == old(inner) + VoteRequests(peers[..i], id, term, TheJournal())
        modifies `inner
      {
        assert peers[..i + 1][..i] == peers[..i];
        if peers[i].id != id {
          inner := inner + [VoteRequest(peers[i].id, id, term, lastLogIndex, lastLogTerm)];
        }
        i := i + 1;
      }
      assert peers[..|peers|] == peers;
    }

    method SendAppendEntries(heartbeat: bool) returns (crashed: bool)
      modifies `inner
      ensures var sent := SyncMessages(peers, id, term, TheJournal(), heartbeat);
              crashed == sent.None? && (!crashed ==> inner == old(inner) + sent.value)
      ensures Aligned(TheJournal()) ==> !crashed
    {
      hide SyncMessage;
      if Aligned(TheJournal()) {
        SyncNeverFails(peers, id, term, TheJournal(), heartbeat);
      }
      var i := 0;
      while i < |peers|
        invariant 0 <= i <= |peers|
        invariant var sent := SyncMessages(peers[..i], id, term, TheJournal(), heartbeat);
                  sent.Some? && inner == old(inner) + sent.value
        modifies `inner
      {
        assert peers[..i + 1][..i] == peers[..i];
        if peers[i].id != id {
          var m := SyncMessage(peers[i], id, term, TheJournal(), heartbeat);
          if m.None? {
            SyncStays(peers, i + 1, id, term, TheJournal(), heartbeat);
            return true;
          }
          inner := inner + [m.value];
        }
        i := i + 1;
      }
      assert peers[..|peers|] == peers;
      crashed := false;
    }

    method BecomeLeader() returns (crashed: bool)
      requires Saved()
      modifies `role, `leaderId, `voteCount, `votedFor, `disk, `peers, `inner
      ensures Ballot() == E.BecomeLeader(old(Ballot())) && leaderId == id && Saved() && disk.Some?
      ensures peers == ResetPeers(old(peers), id, lastLogIndex)
      ensures var sent := SyncMessages(peers, id, term, TheJournal(), true);
              !crashed && sent.Some? && inner == old(inner) + sent.value
    {
      hide SyncMessages, ResetPeers;
      TakeLead();
      crashed := SendAppendEntries(true);
    }

    method TakeLead()
      modifies `role, `leaderId, `voteCount, `votedFor, `disk, `peers
      ensures Ballot() == E.BecomeLeader(old(Ballot())) && leaderId == id
      ensures disk == Some(Disk(term, votedFor, ImageOf(TheJournal())))
      ensures peers == ResetPeers(old(peers), id, lastLogIndex)
    {
      hide ResetPeers, ImageOf;
      role, leaderId, voteCount, votedFor := E.Leader, id, 0, E.NOBODY;
      Persist();
      ResetAll();
    }

    /** Every other peer is taken to have the same last index and to hold nothing. */
    method ResetAll()
      modifies `peers
      ensures peers == ResetPeers(old(peers), id, lastLogIndex)
    {
      var i := 0;
      while i < |peers|
        invariant 0 <= i <= |peers| == |old(peers)|
        invariant forall k :: 0 <= k < |peers| ==>
          peers[k] == if k < i then ResetPeers(old(peers), id, lastLogIndex)[k] else old(peers)[k]
        modifies `peers
      {
        if peers[i].id != id {
          peers := peers[i := Peer(peers[i].id, lastLogIndex + 1, 0)];
        }
        i := i + 1;
      }
      assert peers == ResetPeers(old(peers), id, lastLogIndex);
    }

    method HandleRequestVoteRequest(from: int, candidateTerm: nat, lastIndex: int, lastTerm: nat)
      requires Saved()
      modifies `role, `term, `leaderId, `votedFor, `disk, `inner
      ensures var newEnough := LogUpToDate(old(TheJournal()), lastIndex, lastTerm);
              var reply := E.OnVoteRequest(old(Ballot()), from, candidateTerm, newEnough);
              Ballot() == reply.ballot && inner == old(inner) + [VoteResponse(reply.term, reply.granted)]
      ensures Saved() && leaderId == if candidateTerm > old(term) then -1 else old(leaderId)
      ensures term == (if candidateTerm > old(term) then candidateTerm else old(term))
      ensures role == (if candidateTerm > old(term) then E.Follower else old(role))
      ensures inner != [] && inner[|inner| - 1] == VoteResponse(term, true) ==> votedFor == from
      ensures inner != [] && inner[|inner| - 1] == VoteResponse(term, false) ==>
        votedFor == if candidateTerm > old(term) then E.NOBODY else old(votedFor)
      ensures var last := GetTermAt(old(TheJournal()), old(lastLogIndex));
              var free := candidateTerm > old(term)
                || (candidateTerm == old(term) && (old(votedFor) == E.NOBODY || old(votedFor) == from));
              && last.Some? && inner != []
              && inner[|inner| - 1] == VoteResponse(term,
                   free && (lastTerm > last.value || (lastTerm == last.value && lastIndex >= old(lastLogIndex))))
    {
      if candidateTerm < term {
        inner := inner + [VoteResponse(term, false)];
        return;
      }
      if candidateTerm > term {
        BecomeFollower(-1, candidateTerm);
      }
      if votedFor != E.NOBODY && votedFor != from {
        inner := inner + [VoteResponse(term, false)];
        return;
      }
      if !LogUpToDate(TheJournal(), lastIndex, lastTerm) {
        inner := inner + [VoteResponse(term, false)];
        return;
      }
      votedFor := from;
      Persist();
      inner := inner + [VoteResponse(term, true)];
    }

    method HandleRequestVoteResponse(otherTerm: nat, granted: bool) returns (crashed: bool)
      requires Saved()
      modifies `role, `term, `leaderId, `voteCount, `votedFor, `disk, `peers, `inner
      ensures Ballot() == E.OnVoteResponse(old(Ballot()), otherTerm, granted, |old(peers)|) && Saved() && !crashed
      ensures if old(role) == E.Candidate && role == E.Leader then
                var sent := SyncMessages(peers, id, term, TheJournal(), true);
                && leaderId == id && peers == ResetPeers(old(peers), id, lastLogIndex)
                && sent.Some? && inner == old(inner) + sent.value
              else peers == old(peers) && inner == old(inner)
      ensures old(role) == E.Candidate && role == E.Leader <==>
        old(role) == E.Candidate && otherTerm == old(term) && granted && 2 * (old(voteCount) + 1) > |old(peers)|
      ensures old(role) == E.Candidate && otherTerm > old(term) ==>
        role == E.Follower && term == otherTerm && votedFor == E.NOBODY && leaderId == -1
      ensures old(role) != E.Candidate || otherTerm < old(term) ==> Ballot() == old(Ballot())
      ensures role == E.Candidate && otherTerm == term ==> voteCount == old(voteCount) + if granted then 1 else 0
    {
      if role != E.Candidate {
        return false;
      }
      if otherTerm > term {
        BecomeFollower(-1, otherTerm);
        return false;
      }
      if otherTerm < term {
        return false;
      }
      crashed := false;
      if granted {
        voteCount := voteCount + 1;
        if voteCount > |peers| / 2 {
          crashed := BecomeLeader();
        }
      }
    }

    method ApplyCommitLogs() returns (crashed: bool)
      modifies `isApplying, `inner
      ensures var o := Journals.ApplyCommitLogs(old(TheJournal()));
              && crashed == o.None?
              && (!crashed ==> TheJournal() == o.value.journal && inner == old(inner) + Jobs(o.value.jobs))
    {
      if isApplying {
        assert Jobs([]) == [];
        return false;
      }
      isApplying := true;
      var entries, i := [], lastAppliedIndex + 1;
      ghost var j := old(TheJournal());
      Collecting(j, i);
      while i <= lastCommitIndex
        invariant lastAppliedIndex + 1 <= i && Collected(j, i, entries)
        decreases lastCommitIndex - i
        modifies {}
      {
        SameEntry(j, TheJournal(), i);
        CollectOne(j, i, entries);
        var e := GetLogAt(TheJournal(), i);
        if e.None? {
          return true;
        }
        entries := entries + [e.value];
        i := i + 1;
      }
      CollectedAll(j, i, entries);
      inner := inner + [ForStateMachine(ApplyEntries(lastCommitIndex, entries))];
      assert Jobs([ApplyEntries(lastCommitIndex, entries)]) ==
        [ForStateMachine(ApplyEntries(lastCommitIndex, entries))];
      crashed := false;
    }

    method CheckIfNeedSnapshot() returns (crashed: bool)
      modifies `isSnapshotting, `inner
      ensures var o := Journals.CheckIfNeedSnapshot(old(TheJournal()));
              && crashed == o.None?
              && (!crashed ==> TheJournal() == o.value.journal && inner == old(inner) + Jobs(o.value.jobs))
      ensures old(Aligned(TheJournal())) ==> !crashed
    {
      crashed := false;
      assert Jobs([]) == [];
      if isSnapshotting {
        return;
      }
      isSnapshotting := true;
      if lastAppliedIndex - lastIncludedIndex >= SNAPSHOT_THRESHOLD {
        crashed := GenerateSnapshot();
        return;
      }
      isSnapshotting := false;
    }

    method GenerateSnapshot() returns (crashed: bool)
      modifies `inner
      ensures var t := GetTermAt(TheJournal(), lastAppliedIndex);
              crashed == t.None? && (!crashed ==> inner == old(inner) + Jobs([MakeSnapshot(lastAppliedIndex, t.value)]))
      ensures Aligned(TheJournal()) ==> !crashed
    {
      var t := GetTermAt(TheJournal(), lastAppliedIndex);
      if t.None? {
        return true;
      }
      inner := inner + [ForStateMachine(MakeSnapshot(lastAppliedIndex, t.value))];
      assert Jobs([MakeSnapshot(lastAppliedIndex, t.value)]) ==
        [ForStateMachine(MakeSnapshot(lastAppliedIndex, t.value))];
      crashed := false;
    }

    /** The state machine has applied up to an index. */
    method HandleApplyCommitLogs(upTo: int) returns (crashed: bool)
      requires Saved()
      modifies `lastAppliedIndex, `isApplying, `isSnapshotting, `inner
      ensures var o := OnApplied(old(TheJournal()), upTo);
              && !crashed && o.Some? && TheJournal() == o.value.journal && inner == old(inner) + Jobs(o.value.jobs)
      ensures Saved()
    {
      lastAppliedIndex, isApplying := upTo, false;
      crashed := CheckIfNeedSnapshot();
    }

    method TruncateBefore(i: int) returns (crashed: bool)
      modifies `logs, `baseIndex
      ensures var cut := Journals.TruncateBefore(old(TheJournal()), i);
              crashed == cut.None? && (!crashed ==> TheJournal() == cut.value)
      ensures old(Aligned(TheJournal())) ==> !crashed
    {
      if i <= baseIndex || i > lastLogIndex + 1 {
        return false;
      }
      if i - baseIndex > |logs| {
        return true;
      }
      logs, baseIndex := logs[i - baseIndex..], i;
      crashed := false;
    }

    /** The state machine has written a snapshot, or failed to. The invariant is kept for every index
        that the log can be cut at. */
    method HandleGenerateSnapshot(index: int, snapshotTerm: nat) returns (crashed: bool)
      requires Saved()
      modifies `logs, `baseIndex, `lastIncludedIndex, `lastIncludedTerm, `isSnapshotting, `disk
      ensures var done := OnSnapshot(old(TheJournal()), index, snapshotTerm);
              !crashed && done.Some? && TheJournal() == done.value && DiskHolds(TheJournal())
      ensures (index == -1 && snapshotTerm == 0) || old(lastIncludedIndex) <= index <= old(lastLogIndex) ==>
        Aligned(TheJournal())
      ensures index == -1 && snapshotTerm == 0 ==> Saved()
      ensures GetTermAt(old(TheJournal()), index) == Some(snapshotTerm) ==>
        old(lastIncludedIndex) <= index <= old(lastLogIndex) ==> Saved()
    {
      ghost var j := TheJournal();
      if index == -1 && snapshotTerm == 0 {
        return false;
      }
      crashed := TruncateBefore(index + 1);
      if crashed {
        return;
      }
      lastIncludedIndex, lastIncludedTerm := index, snapshotTerm;
      Persist();
      isSnapshotting := false;
      if j.included <= index <= j.last {
        SnapshotInvisible(j, index);
        SnapshotSettled(j, index);
      }
    }

    method TruncateAfter(i: int)
      modifies `logs
      ensures TheJournal() == Journals.TruncateAfter(old(TheJournal()), i)
    {
      if i < baseIndex || i > lastLogIndex {
        return;
      }
      logs := Resize(logs, i - baseIndex);
    }

    /** Everything of a leader's append request once the terms have been compared. Even if it ends the
        process, the disk holds the log with the entries that have been accepted. */
    method AppendFromLeader(prev: int, prevTerm: nat, entries: seq<Entry>, leaderCommit: int) returns (crashed: bool)
      requires Saved()
      modifies `logs, `lastLogIndex, `lastLogTerm, `lastCommitIndex, `isApplying, `inner, `disk
      ensures var j := old(TheJournal());
              var r := OnAppendRequest(j, prev, prevTerm, entries, leaderCommit);
              && crashed == r.None?
              && (!crashed ==> TheJournal() == r.value.journal && inner == old(inner) + Answer(r.value, id, term))
              && DiskHolds(if LogMatch(j, prev, prevTerm) == Some(true) then Append(j, entries) else j)
      ensures !crashed ==> Saved()
    {
      AlignedNeverFails(TheJournal(), prev, prevTerm);
      AppendAligned(TheJournal(), entries);
      assert Jobs([]) == [];
      var found := LogMatch(TheJournal(), prev, prevTerm);
      if found.None? {
        return true;
      }
      if !found.value {
        TruncateAfter(prev);
        inner := inner + [AppendResponse(id, term, false, 0)];
        var shown := GetTermAt(TheJournal(), prev);
        return shown.None?;
      }
      crashed := AcceptFromLeader(entries, leaderCommit);
    }

    /** The entries are added and saved, and the commit index follows the leader's. */
    method AcceptFromLeader(entries: seq<Entry>, leaderCommit: int) returns (crashed: bool)
      requires Saved()
      modifies `logs, `lastLogIndex, `lastLogTerm, `lastCommitIndex, `isApplying, `inner, `disk
      ensures var more := Append(old(TheJournal()), entries);
              var o := Follow(more, leaderCommit);
              && crashed == o.None? && DiskHolds(more)
              && (!crashed ==> TheJournal() == o.value.journal)
              && (!crashed ==>
                    inner == old(inner) + Jobs(o.value.jobs) + [AppendResponse(id, term, true, lastLogIndex)])
      ensures !crashed ==> Saved()
    {
      hide Follow, Settled, Jobs;
      if entries != [] {
        AddEntries(entries);
      }
      assert TheJournal() == Append(old(TheJournal()), entries);
      hide Append, ImageOf;
      crashed := CommitFromLeader(leaderCommit);
      if crashed {
        return;
      }
      inner := inner + [AppendResponse(id, term, true, lastLogIndex)];
    }

    method CommitFromLeader(leaderCommit: int) returns (crashed: bool)
      requires Saved()
      modifies `lastCommitIndex, `isApplying, `inner
      ensures var o := Follow(old(TheJournal()), leaderCommit);
              && crashed == o.None?
              && (!crashed ==> TheJournal() == o.value.journal && inner == old(inner) + Jobs(o.value.jobs))
      ensures Saved() && DiskHolds(old(TheJournal()))
    {
      assert Jobs([]) == [];
      crashed := false;
      if leaderCommit > lastCommitIndex {
        lastCommitIndex := Journals.Min(leaderCommit, lastLogIndex);
        crashed := ApplyCommitLogs();
      }
    }

    method AddEntries(entries: seq<Entry>)
      requires entries != [] && Saved()
      modifies `logs, `lastLogIndex, `lastLogTerm, `disk
      ensures TheJournal() == Append(old(TheJournal()), entries) && Saved() && disk.Some?
    {
      AppendSettled(TheJournal(), entries);
      var i := 0;
      while i < |entries|
        invariant 0 <= i <= |entries| && logs == old(logs) + entries[..i]
        modifies `logs
      {
        logs := logs + [entries[i]];
        i := i + 1;
      }
      assert entries[..i] == entries;
      Persist();
      lastLogIndex, lastLogTerm := baseIndex + |logs| - 1, logs[|logs| - 1].term;
    }

    method HandleAppendEntriesRequest(from: int, leaderTerm: nat, prev: int, prevTerm: nat, entries: seq<Entry>,
                                      leaderCommit: int)
      returns (crashed: bool)
      requires Saved()
      modifies `role, `term, `leaderId, `votedFor, `logs, `lastLogIndex, `lastLogTerm, `lastCommitIndex, `isApplying,
        `inner, `disk
      ensures Ballot() == if leaderTerm > old(term) then E.BecomeFollower(old(Ballot()), leaderTerm) else old(Ballot())
      ensures if leaderTerm < old(term) then
                && !crashed && TheJournal() == old(TheJournal())
                && inner == old(inner) + [AppendResponse(id, term, false, 0)]
              else
                var j := old(TheJournal());
                var r := OnAppendRequest(j, prev, prevTerm, entries, leaderCommit);
                && crashed == r.None?
                && (!crashed ==> TheJournal() == r.value.journal && inner == old(inner) + Answer(r.value, id, term))
                && DiskHolds(if LogMatch(j, prev, prevTerm) == Some(true) then Append(j, entries) else j)
      ensures !crashed ==> Saved()
      ensures leaderId == if leaderTerm > old(term) then from else old(leaderId)
      ensures leaderTerm > old(term) ==> role == E.Follower && term == leaderTerm && votedFor == E.NOBODY
      ensures !crashed ==> inner != [] && Reports(inner[|inner| - 1])
    {
      AnswerReports(TheJournal(), prev, prevTerm, entries, leaderCommit);
      if leaderTerm < term {
        inner := inner + [AppendResponse(id, term, false, 0)];
        return false;
      }
      if leaderTerm > term {
        BecomeFollower(from, leaderTerm);
      }
      crashed := AppendFromLeader(prev, prevTerm, entries, leaderCommit);
    }

    /** Where the peer is in the list, or the length of the list. */
    method FindPeer(peer: int) returns (i: nat)
      ensures i == PeerIndex(peers, peer) <= |peers|
      ensures i < |peers| ==> peers[i].id == peer
      ensures forall k :: 0 <= k < i ==> peers[k].id != peer
    {
      i := 0;
      while i < |peers|
        invariant 0 <= i <= |peers| && PeerIndex(peers, peer) >= i
        invariant forall k :: 0 <= k < i ==> peers[k].id != peer
        modifies {}
      {
        PeerIndexFrom(peers, peer, i);
        if peers[i].id == peer {
          break;
        }
        i := i + 1;
      }
    }

    /** A peer has answered an append request. */
    method HandleAppendEntriesResponse(from: int, otherTerm: nat, success: bool, otherLast: int) returns (crashed: bool)
      requires Saved()
      modifies `role, `term, `leaderId, `votedFor, `disk, `peers, `lastCommitIndex, `isApplying, `isSnapshotting, `inner
      ensures Saved()
      ensures Ballot() ==
        if old(role) == E.Leader && otherTerm > old(term) then E.BecomeFollower(old(Ballot()), otherTerm)
        else old(Ballot())
      ensures old(role) == E.Leader && otherTerm > old(term) ==>
        role == E.Follower && term == otherTerm && votedFor == E.NOBODY && leaderId == -1
      ensures var i := PeerIndex(old(peers), from);
              if old(role) != E.Leader || otherTerm > old(term) || i == |old(peers)| then
                !crashed && peers == old(peers) && TheJournal() == old(TheJournal()) && inner == old(inner)
              else if !success then
                && !crashed && TheJournal() == old(TheJournal()) && inner == old(inner)
                && peers == old(peers)[i := StepBack(old(peers)[i])]
              else
                var o := OnMajority(old(TheJournal()), term, MajorityMatch(lastLogIndex, MatchIndexes(peers)));
                && peers == old(peers)[i := Peer(old(peers)[i].id, otherLast + 1, otherLast)]
                && crashed == o.None?
                && (!crashed ==> TheJournal() == o.value.journal && inner == old(inner) + Jobs(o.value.jobs))
    {
      assert Jobs([]) == [];
      if role != E.Leader {
        return false;
      }
      if otherTerm > term {
        BecomeFollower(-1, otherTerm);
        return false;
      }
      var i := FindPeer(from);
      if i == |peers| {
        return false;
      }
      if !success {
        peers := peers[i := StepBack(peers[i])];
        return false;
      }
      peers := peers[i := Peer(peers[i].id, otherLast + 1, otherLast)];
      crashed := CommitMajority();
    }

    /** Commits what a majority holds, if it is of the current term. */
    method CommitMajority() returns (crashed: bool)
      modifies `lastCommitIndex, `isApplying, `isSnapshotting, `inner
      ensures var o := OnMajority(old(TheJournal()), term, MajorityMatch(lastLogIndex, MatchIndexes(peers)));
              && crashed == o.None?
              && (!crashed ==> TheJournal() == o.value.journal && inner == old(inner) + Jobs(o.value.jobs))
    {
      assert Jobs([]) == [];
      var matches, i := [], 0;
      while i < |peers|
        invariant 0 <= i <= |peers| && matches == MatchIndexes(peers)[..i]
        modifies {}
      {
        matches := matches + [peers[i].matchIndex];
        i := i + 1;
      }
      assert matches == MatchIndexes(peers);
      var majority := MajorityMatch(lastLogIndex, matches);
      var t := GetTermAt(TheJournal(), majority);
      if t.None? {
        return true;
      }
      crashed := false;
      if t.value == term {
        lastCommitIndex := majority;
        crashed := ApplyCommitLogs();
        if crashed {
          return;
        }
        ghost var first := inner;
        crashed := CheckIfNeedSnapshot();
      }
    }

    /** A client's operation: a leader puts the text of a write at the end of its log, saves it and
        sends it out, and passes a read on; any other node names its leader. */
    method HandleKVOperation(op: Operation, key: string, value: string) returns (crashed: bool)
      requires Saved()
      modifies `logs, `lastLogIndex, `lastLogTerm, `disk, `inner
      ensures Saved() && !crashed
      ensures if role != E.Leader then
                disk == old(disk) && TheJournal() == old(TheJournal()) && inner == old(inner) + [Redirect(leaderId)]
              else if op == Get then
                disk == old(disk) && TheJournal() == old(TheJournal()) && inner == old(inner) + [Read(key)]
              else
                var sent := SyncMessages(peers, id, term, TheJournal(), false);
                && TheJournal() == Append(old(TheJournal()), [Entry(term, C.Format(CommandFor(op, key, value)))])
                && disk.Some? && sent.Some? && inner == old(inner) + sent.value
      ensures role == E.Leader && op == Put ==> logs == old(logs) + [Entry(term, "put " + key + " " + value)]
      ensures role == E.Leader && op == Update ==> logs == old(logs) + [Entry(term, "update " + key + " " + value)]
      ensures role == E.Leader && op == Delete ==> logs == old(logs) + [Entry(term, "delete " + key)]
    {
      if role != E.Leader {
        inner := inner + [Redirect(leaderId)];
        return false;
      }
      if op == Get {
        inner := inner + [Read(key)];
        return false;
      }
      var command := "";
      match op {
        case Put => command := "put " + key + " " + value;
        case Update => command := "update " + key + " " + value;
        case Delete => command := "delete " + key;
      }
      hide SyncMessages, Append;
      AddCommand(command);
      crashed := SendAppendEntries(false);
    }

    method AddCommand(command: string)
      requires Saved()
      modifies `logs, `lastLogIndex, `lastLogTerm, `disk
      ensures TheJournal() == Append(old(TheJournal()), [Entry(term, command)]) && Saved() && disk.Some?
      ensures logs == old(logs) + [Entry(term, command)]
    {
      ghost var entry := Entry(term, command);
      WriteIsAppend(TheJournal(), entry);
      AppendSettled(TheJournal(), [entry]);
      logs := logs + [Entry(term, command)];
      Persist();
      lastLogIndex, lastLogTerm := lastLogIndex + 1, term;
    }
  }

  /** The entries from the first unapplied one up to index i have been copied. */
  ghost predicate Collected(j: Journal, i: int, entries: seq<Entry>) {
    var rest := Batch(j, i, j.commit);
    Batch(j, j.applied + 1, j.commit) == if rest.None? then None else Some(entries + rest.value)
  }

  lemma Collecting(j: Journal, i: int)
    requires i == j.applied + 1
    ensures Collected(j, i, [])
  {
    var rest := Batch(j, i, j.commit);
    assert rest.Some? ==> [] + rest.value == rest.value;
    hide Batch;
  }

  lemma CollectOne(j: Journal, i: int, entries: seq<Entry>)
    requires Collected(j, i, entries) && i <= j.commit
    ensures GetLogAt(j, i).None? ==> Batch(j, j.applied + 1, j.commit).None?
    ensures GetLogAt(j, i).Some? ==> Collected(j, i + 1, entries + [GetLogAt(j, i).value])
  {
    var e, rest := GetLogAt(j, i), Batch(j, i + 1, j.commit);
    assert e.Some? && rest.Some? ==> entries + ([e.value] + rest.value) == (entries + [e.value]) + rest.value;
  }

  lemma CollectedAll(j: Journal, i: int, entries: seq<Entry>)
    requires Collected(j, i, entries) && i > j.commit
    ensures Batch(j, j.applied + 1, j.commit) == Some(entries)
  {
    assert entries + [] == entries;
  }

  /** Setting the applying flag changes no lookup. */
  lemma SameEntry(j: Journal, k: Journal, i: int)
    requires k == j.(applying := k.applying)
    ensures GetLogAt(j, i) == GetLogAt(k, i)
  {}

  /** Where a peer is in the list, or the length of the list. */
  function PeerIndex(peers: seq<Peer>, id: int): (i: nat)
    ensures i <= |peers|
  {
    if peers == [] || peers[0].id == id then 0 else 1 + PeerIndex(peers[1..], id)
  }

  lemma {:induction false} PeerIndexFrom(peers: seq<Peer>, id: int, i: nat)
    requires i < |peers| && PeerIndex(peers, id) >= i
    ensures PeerIndex(peers, id) == i <==> peers[i].id == id
  {
    if i > 0 {
      PeerIndexFrom(peers[1..], id, i - 1);
    }
  }

  function StepBack(p: Peer): Peer {
    if p.nextIndex > 1 then p.(nextIndex := p.nextIndex - 1) else p
  }

  lemma {:induction false} SyncStays(peers: seq<Peer>, i: nat, id: int, term: nat, j: Journal, heartbeat: bool)
    requires i <= |peers| && SyncMessages(peers[..i], id, term, j, heartbeat).None?
    ensures SyncMessages(peers, id, term, j, heartbeat).None?
    decreases |peers|
  {
    hide SyncMessage;
    if i < |peers| {
      assert peers[..|peers| - 1][..i] == peers[..i];
      SyncStays(peers[..|peers| - 1], i, id, term, j, heartbeat);
    } else {
      assert peers[..i] == peers;
    }
  }
}
