/** One node and its state machine with the two queues between them, snapshots, and crashes at any
    point. The commit index may rise and fall as the handlers of a node allow; the log only grows,
    and there are no reads. */
module Pipeline {
  import opened Commands
  import opened Journals
  import opened Replays

  datatype Note = Applied(upTo: int) | SnapshotDone(index: int, term: nat)

  /** What has happened so far. full: every entry the log ever had, index 1 first. start and
      startStore: snapshot label and store at the last restart. trail: the indices of the entries
      that reached the store since then; pos: the index they were reported up to. fileTrail: the
      trail when the snapshot file was taken. reach and fileReach: up to which index the store and
      the file can be taken for newer. high: the furthest index whose effect the store or the file
      may have. */
  datatype Past = Past(full: seq<Entry>, start: int, startStore: Store, trail: seq<int>, pos: int, fileTrail: seq<int>,
                       reach: int, fileReach: int, high: int)

  /** failed: an exception has ended the process, which can only be started again. */
  datatype System = System(j: Journal, disk: Image, store: Store, file: Option<Store>, jobs: seq<Job>, notes: seq<Note>,
                           failed: bool, past: Past)

  datatype Action =
    | Add(entries: seq<Entry>)
    | Commit(upTo: int, check: bool)
    | RunJob
    | FailSnapshot
    | TakeNote
    | Crash

  const Initial: System :=
    System(FreshJournal, ImageOf(FreshJournal), map[], None, [], [], false, Past([], 0, map[], [], 0, [], 0, 0, 0))

  function Contents(file: Option<Store>): Store {
    if file.None? then map[] else file.value
  }

  /** A follower only raises the commit index; a leader sets it to any index whose term it knows. */
  predicate MayCommit(j: Journal, c: int) {
    (j.commit < c || j.included <= c) && c <= j.last
  }

  predicate Enabled(s: System, a: Action) {
    match a
    case Add(_) => !s.failed
    case Commit(c, _) => !s.failed && MayCommit(s.j, c)
    case RunJob => !s.failed && s.jobs != []
    case FailSnapshot => !s.failed && s.jobs != [] && s.jobs[0].MakeSnapshot?
    case TakeNote => !s.failed && s.notes != []
    case Crash => true
  }

  /** The node continues with an outcome, or dies of an exception. */
  function Continue(s: System, o: Option<Outcome>): System {
    if o.None? then s.(failed := true) else s.(j := o.value.journal, jobs := s.jobs + o.value.jobs)
  }

  function CommitAndApply(s: System, c: int): System {
    Continue(s, ApplyCommitLogs(s.j.(commit := c)))
  }

  function Check(s: System): System {
    Continue(s, CheckIfNeedSnapshot(s.j))
  }

  function Max(a: int, b: int): int {
    if a < b then b else a
  }

  function RunFirst(s: System, job: Job): System {
    match job
    case ApplyEntries(upTo, es) =>
      s.(store := Replay(es, s.store), notes := s.notes + [Applied(upTo)],
         past := s.past.(pos := upTo, trail := s.past.trail + IndicesOf(job),
                         reach := if es == [] then s.past.reach else upTo,
                         high := if es == [] then s.past.high else Max(s.past.high, upTo)))
    case MakeSnapshot(i, t) =>
      s.(file := Some(s.store), notes := s.notes + [SnapshotDone(i, t)],
         past := s.past.(fileTrail := s.past.trail, fileReach := s.past.reach))
  }

  /** The indices of the entries in a batch. */
  function IndicesOf(job: Job): seq<int> {
    if job.ApplyEntries? then From(job.upTo - |job.entries|, job.upTo) else []
  }

  function TakeFirst(s: System, note: Note): System {
    match note
    case Applied(upTo) => Continue(s, OnApplied(s.j, upTo))
    case SnapshotDone(i, t) =>
      var cut := OnSnapshot(s.j, i, t);
      if cut.None? then s.(failed := true) else s.(j := cut.value, disk := ImageOf(cut.value))
  }

  function Restarted(s: System): System {
    var found, mark := Contents(s.file), s.disk.included;
    System(Load(s.disk), s.disk, found, s.file, [], [], false,
           Past(s.past.full, mark, found, [], mark, [], mark, s.past.fileReach, s.past.high))
  }

  function Step(s: System, a: Action): System
    requires Enabled(s, a)
  {
    match a
    case Add(es) =>
      var j := Append(s.j, es);
      s.(j := j, disk := ImageOf(j), past := s.past.(full := s.past.full + es))
    case Commit(c, check) =>
      var s1 := CommitAndApply(s, c);
      if check && !s1.failed then Check(s1) else s1
    case RunJob => RunFirst(s.(jobs := s.jobs[1..]), s.jobs[0])
    case FailSnapshot => s.(jobs := s.jobs[1..], notes := s.notes + [SnapshotDone(-1, 0)])
    case TakeNote => TakeFirst(s.(notes := s.notes[1..]), s.notes[0])
    case Crash => Restarted(s)
  }

  // ---- the invariant ----

  function TermOf(full: seq<Entry>, i: int): nat {
    if 1 <= i <= |full| then full[i - 1].term else 0
  }

  /** The disk holds the end of the full log. */
  ghost predicate DiskOk(disk: Image, full: seq<Entry>) {
    && 0 <= disk.included <= |full| && disk.logs == full[disk.included..]
    && disk.includedTerm == TermOf(full, disk.included)
  }

  /** Memory holds what the disk holds. */
  ghost predicate LogOk(j: Journal, disk: Image, full: seq<Entry>) {
    Aligned(j) && |full| == j.last && disk == ImageOf(j)
  }

  ghost predicate Indices(j: Journal, p: Past) {
    && p.start <= j.included && p.start <= j.applied <= p.reach && p.start <= j.commit <= j.last
    && p.start <= p.pos <= p.reach
  }

  /** Store and file can catch up with the log from wherever they may be replayed. */
  ghost predicate Healthy(store: Store, file: Option<Store>, disk: Image, p: Past) {
    && GoodTo(p.full, store, p.start, p.reach, p.high)
    && GoodTo(p.full, Contents(file), p.start, p.fileReach, p.high)
    && p.start <= disk.included <= p.fileReach
  }

  /** Store and file have exactly the entries of their trails. */
  ghost predicate Traced(store: Store, file: Option<Store>, p: Past) {
    && Within(p.trail, |p.full|) && store == Replay(Picked(p.full, p.trail), p.startStore)
    && Within(p.fileTrail, |p.full|) && Contents(file) == Replay(Picked(p.full, p.fileTrail), p.startStore)
  }

  ghost predicate JobOk(j: Journal, p: Past, job: Job) {
    match job
    case ApplyEntries(upTo, es) =>
      && p.pos == j.applied && 0 <= p.start <= upTo <= |p.full| && 0 <= j.applied <= |p.full|
      && es == if j.applied <= upTo then p.full[j.applied..upTo] else []
    case MakeSnapshot(i, t) => j.included < i <= p.reach && t == TermOf(p.full, i)
  }

  ghost predicate NoteOk(j: Journal, p: Past, note: Note) {
    match note
    case Applied(upTo) => p.pos == upTo
    case SnapshotDone(i, t) => (i == -1 && t == 0) || (j.included < i <= p.fileReach && t == TermOf(p.full, i))
  }

  ghost predicate QueuesOk(j: Journal, jobs: seq<Job>, notes: seq<Note>, p: Past) {
    && (forall job :: job in jobs ==> JobOk(j, p, job))
    && (forall note :: note in notes ==> NoteOk(j, p, note))
  }

  /** A snapshot that is taken behind a batch is not labelled beyond the batch. */
  ghost predicate OrderOk(jobs: seq<Job>) {
    forall a, b :: 0 <= a < b < |jobs| && jobs[a].ApplyEntries? && jobs[b].MakeSnapshot? ==>
      jobs[a].entries == [] || jobs[b].index <= jobs[a].upTo
  }

  function Batches(jobs: seq<Job>): nat {
    if jobs == [] then 0 else (if jobs[0].ApplyEntries? then 1 else 0) + Batches(jobs[1..])
  }

  function Snapshots(jobs: seq<Job>): nat {
    if jobs == [] then 0 else (if jobs[0].MakeSnapshot? then 1 else 0) + Snapshots(jobs[1..])
  }

  function Reports(notes: seq<Note>): nat {
    if notes == [] then 0 else (if notes[0].Applied? then 1 else 0) + Reports(notes[1..])
  }

  function Dones(notes: seq<Note>): nat {
    if notes == [] then 0 else (if notes[0].SnapshotDone? then 1 else 0) + Dones(notes[1..])
  }

  /** At most one batch and one snapshot are under way, and pos differs from applied only while a
      report does. */
  ghost predicate FlightsOk(j: Journal, jobs: seq<Job>, notes: seq<Note>, p: Past) {
    && Batches(jobs) + Reports(notes) <= (if j.applying then 1 else 0)
    && Snapshots(jobs) + Dones(notes) <= (if j.snapshotting then 1 else 0)
    && (Reports(notes) == 0 ==> p.pos == j.applied)
  }

  /** What holds while the process lives. */
  ghost predicate Alive(j: Journal, disk: Image, jobs: seq<Job>, notes: seq<Note>, p: Past) {
    && LogOk(j, disk, p.full) && Indices(j, p)
    && QueuesOk(j, jobs, notes, p) && OrderOk(jobs) && FlightsOk(j, jobs, notes, p)
  }

  ghost predicate Inv(s: System) {
    && DiskOk(s.disk, s.past.full) && Healthy(s.store, s.file, s.disk, s.past) && Traced(s.store, s.file, s.past)
    && (!s.failed ==> Alive(s.j, s.disk, s.jobs, s.notes, s.past))
  }

  lemma InitialInv()
    ensures Inv(Initial)
  {}

  // ---- counting in queues ----

  lemma {:induction false} JobsAppend(a: seq<Job>, b: seq<Job>)
    ensures Batches(a + b) == Batches(a) + Batches(b) && Snapshots(a + b) == Snapshots(a) + Snapshots(b)
  {
    if a == [] {
      assert a + b == b;
    } else {
      assert (a + b)[1..] == a[1..] + b;
      JobsAppend(a[1..], b);
    }
  }

  lemma {:induction false} NotesAppend(a: seq<Note>, b: seq<Note>)
    ensures Reports(a + b) == Reports(a) + Reports(b) && Dones(a + b) == Dones(a) + Dones(b)
  {
    if a == [] {
      assert a + b == b;
    } else {
      assert (a + b)[1..] == a[1..] + b;
      NotesAppend(a[1..], b);
    }
  }

  lemma {:induction false} CountedJob(jobs: seq<Job>, job: Job)
    requires job in jobs
    ensures job.ApplyEntries? ==> Batches(jobs) >= 1
    ensures job.MakeSnapshot? ==> Snapshots(jobs) >= 1
  {
    if jobs[0] != job {
      CountedJob(jobs[1..], job);
    }
  }

  lemma {:induction false} CountedNote(notes: seq<Note>, note: Note)
    requires note in notes
    ensures note.Applied? ==> Reports(notes) >= 1
    ensures note.SnapshotDone? ==> Dones(notes) >= 1
  {
    if notes[0] != note {
      CountedNote(notes[1..], note);
    }
  }

  lemma PoppedJobs(jobs: seq<Job>)
    requires jobs != []
    ensures Batches(jobs) == Batches(jobs[1..]) + (if jobs[0].ApplyEntries? then 1 else 0)
    ensures Snapshots(jobs) == Snapshots(jobs[1..]) + (if jobs[0].MakeSnapshot? then 1 else 0)
    ensures OrderOk(jobs) ==> OrderOk(jobs[1..])
  {}

  lemma PoppedNotes(notes: seq<Note>)
    requires notes != []
    ensures Reports(notes) == Reports(notes[1..]) + (if notes[0].Applied? then 1 else 0)
    ensures Dones(notes) == Dones(notes[1..]) + (if notes[0].SnapshotDone? then 1 else 0)
  {}

  lemma AddedNote(notes: seq<Note>, note: Note)
    ensures Reports(notes + [note]) == Reports(notes) + (if note.Applied? then 1 else 0)
    ensures Dones(notes + [note]) == Dones(notes) + (if note.SnapshotDone? then 1 else 0)
  {
    NotesAppend(notes, [note]);
  }

  lemma AddedJob(jobs: seq<Job>, job: Job)
    ensures Batches(jobs + [job]) == Batches(jobs) + (if job.ApplyEntries? then 1 else 0)
    ensures Snapshots(jobs + [job]) == Snapshots(jobs) + (if job.MakeSnapshot? then 1 else 0)
  {
    JobsAppend(jobs, [job]);
  }

  lemma AddedQueues(j: Journal, jobs: seq<Job>, job: Job, notes: seq<Note>, p: Past)
    requires QueuesOk(j, jobs, notes, p) && JobOk(j, p, job)
    ensures QueuesOk(j, jobs + [job], notes, p)
  {
    hide JobOk, NoteOk;
  }

  // ---- batches ----

  lemma {:induction false} BatchIs(j: Journal, i: int, upTo: int)
    requires Aligned(j) && j.included < i <= upTo + 1 <= j.last + 1
    ensures Batch(j, i, upTo) == Some(j.logs[i - j.base..upTo + 1 - j.base])
    decreases upTo - i
  {
    if i <= upTo {
      BatchIs(j, i + 1, upTo);
      assert j.logs[i - j.base..upTo + 1 - j.base] == [j.logs[i - j.base]] + j.logs[i + 1 - j.base..upTo + 1 - j.base];
    } else {
      assert j.logs[i - j.base..upTo + 1 - j.base] == [];
    }
  }

  /** The entries behind the applied index, up to index c. */
  function NextEntries(j: Journal, full: seq<Entry>, c: int): seq<Entry> {
    if 0 <= j.applied <= c <= |full| then full[j.applied..c] else []
  }

  /** The next batch: an exception if the snapshot has overtaken the applied index, else exactly the
      entries behind it. */
  lemma BatchOfFull(j: Journal, disk: Image, p: Past)
    requires LogOk(j, disk, p.full) && DiskOk(disk, p.full) && 0 <= j.applied <= j.last && j.commit <= j.last
    ensures Batch(j, j.applied + 1, j.commit) ==
      if j.applied < j.included && j.applied < j.commit then None else Some(NextEntries(j, p.full, j.commit))
  {
    if j.applied < j.commit {
      if j.applied >= j.included {
        BatchIs(j, j.applied + 1, j.commit);
        assert p.full[j.included..][j.applied + 1 - j.base..j.commit + 1 - j.base] == p.full[j.applied..j.commit];
      }
    } else {
      assert NextEntries(j, p.full, j.commit) == [];
    }
  }

  lemma TermOfFull(j: Journal, disk: Image, full: seq<Entry>, i: int)
    requires LogOk(j, disk, full) && DiskOk(disk, full) && j.included <= i <= j.last
    ensures GetTermAt(j, i) == Some(TermOf(full, i))
  {}

  lemma TermKept(full: seq<Entry>, es: seq<Entry>, i: int)
    requires i <= |full|
    ensures TermOf(full + es, i) == TermOf(full, i)
  {}

  // ---- adding entries ----

  lemma TailOfSum(a: seq<Entry>, b: seq<Entry>, k: int)
    requires 0 <= k <= |a|
    ensures (a + b)[k..] == a[k..] + b
  {}

  lemma AddLog(j: Journal, disk: Image, full: seq<Entry>, es: seq<Entry>)
    requires LogOk(j, disk, full) && DiskOk(disk, full)
    ensures var j' := Append(j, es); LogOk(j', ImageOf(j'), full + es) && DiskOk(ImageOf(j'), full + es)
  {
    AppendAligned(j, es);
    TailOfSum(full, es, disk.included);
    TermKept(full, es, disk.included);
  }

  lemma AddHealthy(store: Store, file: Option<Store>, disk: Image, disk': Image, p: Past, es: seq<Entry>)
    requires Healthy(store, file, disk, p) && disk'.included == disk.included
    ensures Healthy(store, file, disk', p.(full := p.full + es))
  {
    GoodToGrown(p.full, es, store, p.start, p.reach, p.high);
    GoodToGrown(p.full, es, Contents(file), p.start, p.fileReach, p.high);
    hide GoodTo;
  }

  lemma AddTraced(store: Store, file: Option<Store>, p: Past, es: seq<Entry>)
    requires Traced(store, file, p)
    ensures Traced(store, file, p.(full := p.full + es))
  {
    PickedGrown(p.full, es, p.trail);
    PickedGrown(p.full, es, p.fileTrail);
    hide Picked, Replay, Within;
  }

  lemma AddJobOk(j: Journal, p: Past, es: seq<Entry>, job: Job)
    requires JobOk(j, p, job) && p.reach <= |p.full|
    ensures JobOk(Append(j, es), p.(full := p.full + es), job)
  {
    if job.ApplyEntries? {
      if j.applied <= job.upTo {
        assert (p.full + es)[j.applied..job.upTo] == p.full[j.applied..job.upTo];
      }
    } else {
      TermKept(p.full, es, job.index);
    }
  }

  lemma AddQueues(j: Journal, jobs: seq<Job>, notes: seq<Note>, p: Past, es: seq<Entry>)
    requires QueuesOk(j, jobs, notes, p) && p.reach <= |p.full| && p.fileReach <= |p.full|
    ensures QueuesOk(Append(j, es), jobs, notes, p.(full := p.full + es))
  {
    var j', p' := Append(j, es), p.(full := p.full + es);
    forall job | job in jobs ensures JobOk(j', p', job) {
      assert JobOk(j, p, job);
      AddJobOk(j, p, es, job);
    }
    hide JobOk;
    forall note | note in notes ensures NoteOk(j', p', note) {
      assert NoteOk(j, p, note);
      if note.SnapshotDone? && note.index >= 0 {
        TermKept(p.full, es, note.index);
      }
    }
  }

  lemma AddKeeps(s: System, es: seq<Entry>)
    requires Inv(s) && !s.failed
    ensures Inv(Step(s, Add(es)))
  {
    var j, p := Append(s.j, es), s.past.(full := s.past.full + es);
    AddLog(s.j, s.disk, s.past.full, es);
    assert ImageOf(j).included == s.disk.included;
    AddHealthy(s.store, s.file, s.disk, ImageOf(j), s.past, es);
    AddTraced(s.store, s.file, s.past, es);
    ReachInside(s);
    AddQueues(s.j, s.jobs, s.notes, s.past, es);
    AddIndices(s.j, s.disk, s.past, es);
    assert FlightsOk(j, s.jobs, s.notes, p);
    hide LogOk, DiskOk, Healthy, Traced, Indices, QueuesOk, OrderOk, FlightsOk;
  }

  lemma ReachInside(s: System)
    requires Inv(s)
    ensures s.past.reach <= s.past.high <= |s.past.full| && s.past.fileReach <= s.past.high
    ensures 0 <= s.past.start <= s.disk.included <= s.past.fileReach && s.past.start <= s.past.reach
  {
    hide Traced, Alive, DiskOk, Good;
  }

  lemma AddIndices(j: Journal, disk: Image, p: Past, es: seq<Entry>)
    requires LogOk(j, disk, p.full) && Indices(j, p)
    ensures Indices(Append(j, es), p.(full := p.full + es))
  {}

  // ---- handing over a batch ----

  lemma FlightsHandOver(j: Journal, c: int, jobs: seq<Job>, es: seq<Entry>, notes: seq<Note>, p: Past)
    requires FlightsOk(j, jobs, notes, p) && !j.applying
    ensures FlightsOk(j.(commit := c, applying := true), jobs + [ApplyEntries(c, es)], notes, p)
    ensures OrderOk(jobs) ==> OrderOk(jobs + [ApplyEntries(c, es)])
    ensures p.pos == j.applied
  {
    AddedJob(jobs, ApplyEntries(c, es));
    hide Batches, Reports, Snapshots, Dones;
  }

  /** The commit index matters to nothing that is under way. */
  lemma QueuesCommit(j: Journal, c: int, applying: bool, jobs: seq<Job>, notes: seq<Note>, p: Past)
    requires QueuesOk(j, jobs, notes, p)
    ensures QueuesOk(j.(commit := c, applying := applying), jobs, notes, p)
  {
    var j' := j.(commit := c, applying := applying);
    forall job | job in jobs ensures JobOk(j', p, job) { assert JobOk(j, p, job); }
    forall note | note in notes ensures NoteOk(j', p, note) { assert NoteOk(j, p, note); }
  }

  /** The batch that is handed over when the commit index is set to c. */
  function NextBatch(j: Journal, full: seq<Entry>, c: int): Job {
    ApplyEntries(c, NextEntries(j, full, c))
  }

  lemma HandOver(j: Journal, disk: Image, p: Past)
    requires LogOk(j, disk, p.full) && DiskOk(disk, p.full) && 0 <= j.applied <= j.last && j.commit <= j.last
    ensures ApplyCommitLogs(j) ==
      if j.applying then Some(Outcome(j, []))
      else if j.applied < j.included && j.applied < j.commit then None
      else Some(Outcome(j.(applying := true), [NextBatch(j, p.full, j.commit)]))
  {
    hide Batch, DiskOk, LogOk, NextEntries;
    BatchOfFull(j, disk, p);
  }

  /** What a commit step does: nothing new while a batch is under way, else the batch behind the
      applied index, unless the snapshot has overtaken that index. */
  lemma CommitIs(s: System, c: int)
    requires Inv(s) && Enabled(s, Commit(c, false))
    ensures 0 <= s.j.applied <= |s.past.full| && s.past.start <= c <= |s.past.full|
    ensures CommitAndApply(s, c) ==
      if s.j.applying then s.(j := s.j.(commit := c))
      else if s.j.applied < s.j.included && s.j.applied < c then s.(failed := true)
      else s.(j := s.j.(commit := c, applying := true), jobs := s.jobs + [NextBatch(s.j, s.past.full, c)])
  {
    ReachInside(s);
    assert s.jobs + [] == s.jobs;
    hide Healthy, Traced, QueuesOk, OrderOk, FlightsOk, DiskOk, ApplyCommitLogs, NextBatch;
    var j1 := s.j.(commit := c);
    assert LogOk(j1, s.disk, s.past.full);
    HandOver(j1, s.disk, s.past);
    assert NextBatch(j1, s.past.full, c) == NextBatch(s.j, s.past.full, c) by { SameBatch(s.j, j1, s.past.full, c); }
  }

  lemma SameBatch(j: Journal, j': Journal, full: seq<Entry>, c: int)
    requires j'.applied == j.applied
    ensures NextBatch(j', full, c) == NextBatch(j, full, c)
  {}

  lemma AliveCommit(s: System, c: int, applying: bool)
    requires Inv(s) && Enabled(s, Commit(c, false))
    ensures var j := s.j.(commit := c, applying := applying);
            LogOk(j, s.disk, s.past.full) && Indices(j, s.past) && QueuesOk(j, s.jobs, s.notes, s.past)
  {
    QueuesCommit(s.j, c, applying, s.jobs, s.notes, s.past);
    hide Healthy, Traced, QueuesOk, OrderOk, FlightsOk, DiskOk;
  }

  lemma CommitKeeps(s: System, c: int)
    requires Inv(s) && Enabled(s, Commit(c, false))
    ensures Inv(CommitAndApply(s, c))
  {
    CommitIs(s, c);
    hide CommitAndApply, MayCommit;
    if s.j.applying {
      AliveCommit(s, c, true);
      assert FlightsOk(s.j.(commit := c), s.jobs, s.notes, s.past);
    } else if s.j.applied < s.j.included && s.j.applied < c {
    } else {
      AliveCommit(s, c, true);
      var job := NextBatch(s.j, s.past.full, c);
      FlightsHandOver(s.j, c, s.jobs, job.entries, s.notes, s.past);
      assert JobOk(s.j.(commit := c, applying := true), s.past, job);
      AddedQueues(s.j.(commit := c, applying := true), s.jobs, job, s.notes, s.past);
    }
    hide LogOk, DiskOk, Healthy, Traced, Indices, QueuesOk, OrderOk, FlightsOk;
  }

  // ---- asking for a snapshot ----

  lemma FlightsAsk(j: Journal, jobs: seq<Job>, i: int, t: nat, notes: seq<Note>, p: Past)
    requires FlightsOk(j, jobs, notes, p) && !j.snapshotting
    ensures FlightsOk(j.(snapshotting := true), jobs + [MakeSnapshot(i, t)], notes, p)
  {
    AddedJob(jobs, MakeSnapshot(i, t));
    hide Batches, Reports, Snapshots, Dones;
  }

  lemma OrderAsk(j: Journal, jobs: seq<Job>, t: nat, notes: seq<Note>, p: Past)
    requires QueuesOk(j, jobs, notes, p) && OrderOk(jobs)
    ensures OrderOk(jobs + [MakeSnapshot(j.applied, t)])
  {
    forall a | 0 <= a < |jobs| && jobs[a].ApplyEntries? && jobs[a].entries != [] ensures j.applied <= jobs[a].upTo {
      assert jobs[a] in jobs;
      assert JobOk(j, p, jobs[a]);
    }
  }

  lemma QueuesAsk(j: Journal, jobs: seq<Job>, notes: seq<Note>, p: Past)
    requires QueuesOk(j, jobs, notes, p)
    ensures QueuesOk(j.(snapshotting := true), jobs, notes, p)
  {
    var j' := j.(snapshotting := true);
    forall job | job in jobs ensures JobOk(j', p, job) { assert JobOk(j, p, job); }
    forall note | note in notes ensures NoteOk(j', p, note) { assert NoteOk(j, p, note); }
  }

  /** From three applied entries behind the snapshot on, a snapshot at the applied index is asked
      for; the lookup of its term never fails. */
  lemma CheckIs(s: System)
    requires Inv(s) && !s.failed
    ensures Check(s) ==
      if s.j.snapshotting || s.j.applied - s.j.included < SNAPSHOT_THRESHOLD then s
      else s.(j := s.j.(snapshotting := true),
              jobs := s.jobs + [MakeSnapshot(s.j.applied, TermOf(s.past.full, s.j.applied))])
  {
    ReachInside(s);
    assert s.jobs + [] == s.jobs;
    if s.j.applied - s.j.included >= SNAPSHOT_THRESHOLD {
      TermOfFull(s.j, s.disk, s.past.full, s.j.applied);
    }
    hide Healthy, Traced, QueuesOk, OrderOk, FlightsOk, DiskOk, TermOf, GetTermAt;
  }

  lemma CheckKeeps(s: System)
    requires Inv(s) && !s.failed
    ensures Inv(Check(s)) && !Check(s).failed
  {
    CheckIs(s);
    hide Check;
    if !s.j.snapshotting && s.j.applied - s.j.included >= SNAPSHOT_THRESHOLD {
      var j, t := s.j.(snapshotting := true), TermOf(s.past.full, s.j.applied);
      FlightsAsk(s.j, s.jobs, s.j.applied, t, s.notes, s.past);
      OrderAsk(s.j, s.jobs, t, s.notes, s.past);
      QueuesAsk(s.j, s.jobs, s.notes, s.past);
      assert JobOk(j, s.past, MakeSnapshot(s.j.applied, t));
      AddedQueues(j, s.jobs, MakeSnapshot(s.j.applied, t), s.notes, s.past);
      assert LogOk(j, s.disk, s.past.full) && Indices(j, s.past);
      hide LogOk, DiskOk, Healthy, Traced, Indices, QueuesOk, OrderOk, FlightsOk, TermOf;
    }
  }

  // ---- the state machine runs a batch ----

  /** A batch under way is the only one, and no report is. */
  lemma OnlyBatch(j: Journal, jobs: seq<Job>, notes: seq<Note>, p: Past)
    requires FlightsOk(j, jobs, notes, p) && jobs != [] && jobs[0].ApplyEntries?
    ensures j.applying && Batches(jobs[1..]) == 0 && Reports(notes) == 0 && p.pos == j.applied
    ensures forall job :: job in jobs[1..] ==> job.MakeSnapshot?
    ensures forall note :: note in notes ==> note.SnapshotDone?
  {
    PoppedJobs(jobs);
    forall job | job in jobs[1..] ensures job.MakeSnapshot? { CountedJob(jobs[1..], job); }
    forall note | note in notes ensures note.SnapshotDone? { CountedNote(notes, note); }
  }

  /** The past after a batch. */
  function PastBatch(p: Past, upTo: int, es: seq<Entry>): Past {
    p.(pos := upTo, trail := p.trail + From(upTo - |es|, upTo), reach := if es == [] then p.reach else upTo,
       high := if es == [] then p.high else Max(p.high, upTo))
  }

  lemma BatchHealthy(j: Journal, store: Store, file: Option<Store>, disk: Image, p: Past, upTo: int, es: seq<Entry>)
    requires Healthy(store, file, disk, p) && JobOk(j, p, ApplyEntries(upTo, es)) && Indices(j, p)
    ensures Healthy(Replay(es, store), file, disk, PastBatch(p, upTo, es))
  {
    if es == [] {
      ReplayNothing(store);
    } else {
      var high := Max(p.high, upTo);
      GoodToLater(p.full, store, p.start, p.reach, p.high, high);
      GoodToLater(p.full, Contents(file), p.start, p.fileReach, p.high, high);
      assert GoodTo(p.full, store, p.start, p.pos, high);
      BatchGood(p.full, store, p.start, p.pos, upTo, high);
    }
    hide GoodTo, Replay, From;
  }

  lemma BatchTraced(j: Journal, store: Store, file: Option<Store>, p: Past, upTo: int, es: seq<Entry>)
    requires Traced(store, file, p) && JobOk(j, p, ApplyEntries(upTo, es))
    ensures Traced(Replay(es, store), file, PastBatch(p, upTo, es))
  {
    var more := From(upTo - |es|, upTo);
    assert Within(more, |p.full|) && Picked(p.full, more) == es by {
      if es == [] {
        assert more == [];
      } else {
        PickedFrom(p.full, j.applied, upTo);
      }
    }
    PickedSum(p.full, p.trail, more);
    ReplayAppend(Picked(p.full, p.trail), es, p.startStore);
    hide Replay, Picked, From, Within;
  }

  lemma BatchQueues(j: Journal, jobs: seq<Job>, notes: seq<Note>, p: Past, upTo: int, es: seq<Entry>)
    requires jobs != [] && jobs[0] == ApplyEntries(upTo, es)
    requires QueuesOk(j, jobs, notes, p) && OrderOk(jobs) && FlightsOk(j, jobs, notes, p)
    ensures QueuesOk(j, jobs[1..], notes + [Applied(upTo)], PastBatch(p, upTo, es))
  {
    var p' := PastBatch(p, upTo, es);
    OnlyBatch(j, jobs, notes, p);
    forall job | job in jobs[1..] ensures JobOk(j, p', job) {
      assert JobOk(j, p, job);
      var b :| 0 <= b < |jobs[1..]| && jobs[1..][b] == job;
      assert jobs[b + 1] == job;
    }
    forall note | note in notes ensures NoteOk(j, p', note) { assert NoteOk(j, p, note); }
    hide JobOk, FlightsOk, OrderOk, From;
  }

  lemma BatchFlights(j: Journal, jobs: seq<Job>, notes: seq<Note>, p: Past, upTo: int, es: seq<Entry>)
    requires jobs != [] && jobs[0] == ApplyEntries(upTo, es) && FlightsOk(j, jobs, notes, p)
    ensures FlightsOk(j, jobs[1..], notes + [Applied(upTo)], PastBatch(p, upTo, es))
    ensures p.pos == j.applied && (OrderOk(jobs) ==> OrderOk(jobs[1..]))
  {
    OnlyBatch(j, jobs, notes, p);
    PoppedJobs(jobs);
    AddedNote(notes, Applied(upTo));
    hide Batches, Snapshots, Reports, Dones, From;
  }

  lemma BatchIndices(j: Journal, p: Past, upTo: int, es: seq<Entry>)
    requires Indices(j, p) && JobOk(j, p, ApplyEntries(upTo, es))
    ensures Indices(j, PastBatch(p, upTo, es))
  {
    hide From;
  }

  lemma FirstBatch(j: Journal, disk: Image, jobs: seq<Job>, notes: seq<Note>, p: Past)
    requires Alive(j, disk, jobs, notes, p) && jobs != []
    ensures JobOk(j, p, jobs[0]) && Indices(j, p)
  {
    hide LogOk, Indices, OrderOk, FlightsOk, JobOk;
  }

  lemma BatchAlive(j: Journal, disk: Image, jobs: seq<Job>, notes: seq<Note>, p: Past)
    requires Alive(j, disk, jobs, notes, p) && jobs != [] && jobs[0].ApplyEntries?
    ensures Alive(j, disk, jobs[1..], notes + [Applied(jobs[0].upTo)], PastBatch(p, jobs[0].upTo, jobs[0].entries))
  {
    hide LogOk, Indices, QueuesOk, OrderOk, FlightsOk, JobOk, From;
    FirstBatch(j, disk, jobs, notes, p);
    BatchQueues(j, jobs, notes, p, jobs[0].upTo, jobs[0].entries);
    BatchFlights(j, jobs, notes, p, jobs[0].upTo, jobs[0].entries);
    BatchIndices(j, p, jobs[0].upTo, jobs[0].entries);
  }

  lemma BatchKeeps(s: System)
    requires Inv(s) && Enabled(s, RunJob) && s.jobs[0].ApplyEntries?
    ensures Inv(Step(s, RunJob))
  {
    hide DiskOk, Healthy, Traced, Alive, Indices, JobOk, Replay, From;
    var upTo, es := s.jobs[0].upTo, s.jobs[0].entries;
    FirstBatch(s.j, s.disk, s.jobs, s.notes, s.past);
    BatchHealthy(s.j, s.store, s.file, s.disk, s.past, upTo, es);
    BatchTraced(s.j, s.store, s.file, s.past, upTo, es);
    BatchAlive(s.j, s.disk, s.jobs, s.notes, s.past);
  }

  // ---- the state machine writes a snapshot ----

  /** A snapshot under way is the only one. */
  lemma OnlySnapshot(j: Journal, jobs: seq<Job>, notes: seq<Note>, p: Past)
    requires FlightsOk(j, jobs, notes, p) && jobs != [] && jobs[0].MakeSnapshot?
    ensures j.snapshotting && Snapshots(jobs[1..]) == 0 && Dones(notes) == 0
    ensures forall job :: job in jobs[1..] ==> job.ApplyEntries?
    ensures forall note :: note in notes ==> note.Applied?
  {
    PoppedJobs(jobs);
    forall job | job in jobs[1..] ensures job.ApplyEntries? { CountedJob(jobs[1..], job); }
    forall note | note in notes ensures note.Applied? { CountedNote(notes, note); }
  }

  lemma SnapshotQueues(j: Journal, jobs: seq<Job>, notes: seq<Note>, p: Past, p': Past, done: Note)
    requires QueuesOk(j, jobs, notes, p) && FlightsOk(j, jobs, notes, p) && jobs != [] && jobs[0].MakeSnapshot?
    requires p' == p.(fileTrail := p'.fileTrail, fileReach := p'.fileReach) && NoteOk(j, p', done)
    ensures QueuesOk(j, jobs[1..], notes + [done], p')
  {
    OnlySnapshot(j, jobs, notes, p);
    forall job | job in jobs[1..] ensures JobOk(j, p', job) { assert JobOk(j, p, job); }
    forall note | note in notes ensures NoteOk(j, p', note) { assert NoteOk(j, p, note); }
    hide JobOk, FlightsOk, NoteOk;
  }

  lemma SnapshotFlights(j: Journal, jobs: seq<Job>, notes: seq<Note>, p: Past, p': Past, done: Note)
    requires FlightsOk(j, jobs, notes, p) && jobs != [] && jobs[0].MakeSnapshot? && done.SnapshotDone?
    requires p'.pos == p.pos
    ensures FlightsOk(j, jobs[1..], notes + [done], p')
    ensures OrderOk(jobs) ==> OrderOk(jobs[1..])
  {
    OnlySnapshot(j, jobs, notes, p);
    PoppedJobs(jobs);
    AddedNote(notes, done);
    hide Batches, Snapshots, Reports, Dones;
  }

  lemma SnapshotHealthy(store: Store, file: Option<Store>, disk: Image, p: Past)
    requires Healthy(store, file, disk, p) && Traced(store, file, p) && disk.included <= p.reach
    ensures Healthy(store, Some(store), disk, p.(fileTrail := p.trail, fileReach := p.reach))
    ensures Traced(store, Some(store), p.(fileTrail := p.trail, fileReach := p.reach))
  {
    hide GoodTo, Replay, Picked, Within;
  }

  lemma SnapshotKeeps(s: System)
    requires Inv(s) && Enabled(s, RunJob) && s.jobs[0].MakeSnapshot?
    ensures Inv(Step(s, RunJob))
  {
    var i, t := s.jobs[0].index, s.jobs[0].term;
    var p := s.past.(fileTrail := s.past.trail, fileReach := s.past.reach);
    assert JobOk(s.j, s.past, s.jobs[0]);
    assert s.disk == ImageOf(s.j);
    assert NoteOk(s.j, p, SnapshotDone(i, t)) && Indices(s.j, p);
    SnapshotHealthy(s.store, s.file, s.disk, s.past);
    SnapshotQueues(s.j, s.jobs, s.notes, s.past, p, SnapshotDone(i, t));
    SnapshotFlights(s.j, s.jobs, s.notes, s.past, p, SnapshotDone(i, t));
    hide LogOk, DiskOk, Healthy, Traced, Indices, QueuesOk, OrderOk, FlightsOk;
  }

  lemma FailureKeeps(s: System)
    requires Inv(s) && Enabled(s, FailSnapshot)
    ensures Inv(Step(s, FailSnapshot))
  {
    SnapshotQueues(s.j, s.jobs, s.notes, s.past, s.past, SnapshotDone(-1, 0));
    SnapshotFlights(s.j, s.jobs, s.notes, s.past, s.past, SnapshotDone(-1, 0));
    hide LogOk, DiskOk, Healthy, Traced, Indices, QueuesOk, OrderOk, FlightsOk;
  }

  // ---- the node hears of a batch ----

  lemma OnlyReport(j: Journal, jobs: seq<Job>, notes: seq<Note>, p: Past)
    requires FlightsOk(j, jobs, notes, p) && notes != [] && notes[0].Applied?
    ensures j.applying && Batches(jobs) == 0 && Reports(notes[1..]) == 0
    ensures forall job :: job in jobs ==> job.MakeSnapshot?
    ensures forall note :: note in notes[1..] ==> note.SnapshotDone?
  {
    PoppedNotes(notes);
    forall job | job in jobs ensures job.MakeSnapshot? { CountedJob(jobs, job); }
    forall note | note in notes[1..] ensures note.SnapshotDone? { CountedNote(notes[1..], note); }
  }

  lemma ReportQueues(j: Journal, jobs: seq<Job>, notes: seq<Note>, p: Past, upTo: int)
    requires QueuesOk(j, jobs, notes, p) && FlightsOk(j, jobs, notes, p) && notes != [] && notes[0] == Applied(upTo)
    ensures QueuesOk(j.(applied := upTo, applying := false), jobs, notes[1..], p)
  {
    var j' := j.(applied := upTo, applying := false);
    OnlyReport(j, jobs, notes, p);
    forall job | job in jobs ensures JobOk(j', p, job) { assert JobOk(j, p, job); }
    forall note | note in notes[1..] ensures NoteOk(j', p, note) { assert NoteOk(j, p, note); }
    hide JobOk, NoteOk, FlightsOk;
  }

  lemma ReportFlights(j: Journal, jobs: seq<Job>, notes: seq<Note>, p: Past, upTo: int)
    requires FlightsOk(j, jobs, notes, p) && notes != [] && notes[0] == Applied(upTo) && p.pos == upTo
    ensures FlightsOk(j.(applied := upTo, applying := false), jobs, notes[1..], p)
  {
    OnlyReport(j, jobs, notes, p);
    PoppedNotes(notes);
    hide Batches, Snapshots, Reports, Dones;
  }

  /** The state once a report has been taken. */
  function Heard(s: System, upTo: int): System
    requires s.notes != []
  {
    s.(notes := s.notes[1..], j := s.j.(applied := upTo, applying := false))
  }

  lemma ReportedKeeps(s: System)
    requires Inv(s) && Enabled(s, TakeNote) && s.notes[0].Applied?
    ensures Inv(Heard(s, s.notes[0].upTo))
    ensures Step(s, TakeNote) == Check(Heard(s, s.notes[0].upTo))
  {
    var upTo := s.notes[0].upTo;
    var j := s.j.(applied := upTo, applying := false);
    assert NoteOk(s.j, s.past, s.notes[0]);
    ReportQueues(s.j, s.jobs, s.notes, s.past, upTo);
    ReportFlights(s.j, s.jobs, s.notes, s.past, upTo);
    assert LogOk(j, s.disk, s.past.full) && Indices(j, s.past);
    hide LogOk, DiskOk, Healthy, Traced, Indices, QueuesOk, OrderOk, FlightsOk, CheckIfNeedSnapshot;
  }

  lemma ReportKeeps(s: System)
    requires Inv(s) && Enabled(s, TakeNote) && s.notes[0].Applied?
    ensures Inv(Step(s, TakeNote)) && !Step(s, TakeNote).failed
  {
    ReportedKeeps(s);
    CheckKeeps(Heard(s, s.notes[0].upTo));
    hide Inv, Step, Check;
  }

  // ---- the node hears of a snapshot ----

  lemma OnlyDone(j: Journal, jobs: seq<Job>, notes: seq<Note>, p: Past)
    requires FlightsOk(j, jobs, notes, p) && notes != [] && notes[0].SnapshotDone?
    ensures j.snapshotting && Snapshots(jobs) == 0 && Dones(notes[1..]) == 0
    ensures forall job :: job in jobs ==> job.ApplyEntries?
    ensures forall note :: note in notes[1..] ==> note.Applied?
  {
    PoppedNotes(notes);
    forall job | job in jobs ensures job.ApplyEntries? { CountedJob(jobs, job); }
    forall note | note in notes[1..] ensures note.Applied? { CountedNote(notes[1..], note); }
  }

  lemma DoneQueues(j: Journal, j': Journal, jobs: seq<Job>, notes: seq<Note>, p: Past)
    requires QueuesOk(j, jobs, notes, p) && FlightsOk(j, jobs, notes, p) && notes != [] && notes[0].SnapshotDone?
    requires j'.applied == j.applied
    ensures QueuesOk(j', jobs, notes[1..], p)
  {
    OnlyDone(j, jobs, notes, p);
    forall job | job in jobs ensures JobOk(j', p, job) { assert JobOk(j, p, job); }
    forall note | note in notes[1..] ensures NoteOk(j', p, note) { assert NoteOk(j, p, note); }
    hide JobOk, NoteOk, FlightsOk;
  }

  lemma DoneFlights(j: Journal, j': Journal, jobs: seq<Job>, notes: seq<Note>, p: Past)
    requires FlightsOk(j, jobs, notes, p) && notes != [] && notes[0].SnapshotDone?
    requires j'.applied == j.applied && j'.applying == j.applying
    ensures FlightsOk(j', jobs, notes[1..], p)
  {
    OnlyDone(j, jobs, notes, p);
    PoppedNotes(notes);
    hide Batches, Snapshots, Reports, Dones;
  }

  lemma CutLog(j: Journal, disk: Image, full: seq<Entry>, i: int)
    requires LogOk(j, disk, full) && DiskOk(disk, full) && j.included < i <= |full|
    ensures var cut := OnSnapshot(j, i, TermOf(full, i));
            && cut.Some? && LogOk(cut.value, ImageOf(cut.value), full) && DiskOk(ImageOf(cut.value), full)
            && cut.value == j.(logs := full[i..], base := i + 1, included := i, includedTerm := TermOf(full, i),
                               snapshotting := false)
  {
    assert full[j.included..][i - j.included..] == full[i..];
  }

  lemma DoneKeeps(s: System)
    requires Inv(s) && Enabled(s, TakeNote) && s.notes[0].SnapshotDone?
    ensures Inv(Step(s, TakeNote)) && !Step(s, TakeNote).failed
  {
    var note := s.notes[0];
    assert NoteOk(s.j, s.past, note);
    ReachInside(s);
    if note.index == -1 && note.term == 0 {
      assert s.disk == ImageOf(s.j);
      DoneQueues(s.j, s.j, s.jobs, s.notes, s.past);
      DoneFlights(s.j, s.j, s.jobs, s.notes, s.past);
      hide LogOk, DiskOk, Healthy, Traced, Indices, QueuesOk, OrderOk, FlightsOk;
    } else {
      CutLog(s.j, s.disk, s.past.full, note.index);
      var j := OnSnapshot(s.j, note.index, note.term).value;
      DoneQueues(s.j, j, s.jobs, s.notes, s.past);
      DoneFlights(s.j, j, s.jobs, s.notes, s.past);
      assert Healthy(s.store, s.file, ImageOf(j), s.past) by { hide GoodTo, OnSnapshot; }
      assert Indices(j, s.past) by { hide OnSnapshot; }
      hide LogOk, DiskOk, Healthy, Traced, Indices, QueuesOk, OrderOk, FlightsOk, OnSnapshot, TermOf;
    }
  }

  // ---- a crash ----

  lemma LoadLog(disk: Image, full: seq<Entry>)
    requires DiskOk(disk, full)
    ensures LogOk(Load(disk), disk, full)
  {}

  lemma CrashHealthy(s: System)
    requires Inv(s)
    ensures var r := Restarted(s); Healthy(r.store, r.file, r.disk, r.past) && Traced(r.store, r.file, r.past)
  {
    ReplayNothing(Contents(s.file));
    assert Picked(s.past.full, []) == [];
    hide Good, Replay, Picked, Alive, DiskOk, Traced, Load;
  }

  /** Whatever state a crash finds, the node continues from the snapshot label on disk. */
  lemma CrashKeeps(s: System)
    requires Inv(s)
    ensures Inv(Step(s, Crash)) && !Step(s, Crash).failed
  {
    var r := Restarted(s);
    LoadLog(s.disk, s.past.full);
    CrashHealthy(s);
    assert QueuesOk(r.j, [], [], r.past) && OrderOk([]) && FlightsOk(r.j, [], [], r.past);
    assert Indices(r.j, r.past) by { hide Healthy, Traced; }
    hide LogOk, Healthy, Traced, Indices, QueuesOk, OrderOk, FlightsOk;
  }

  /** Every step of the node, of its state machine, and every crash keeps the invariant. */
  lemma StepKeepsInv(s: System, a: Action)
    requires Inv(s) && Enabled(s, a)
    ensures Inv(Step(s, a))
  {
    hide Inv, CommitAndApply, Check, RunFirst, TakeFirst, Restarted;
    match a
    case Add(es) => AddKeeps(s, es);
    case Commit(c, check) =>
      CommitKeeps(s, c);
      if !CommitAndApply(s, c).failed {
        CheckKeeps(CommitAndApply(s, c));
      }
    case RunJob => if s.jobs[0].ApplyEntries? { BatchKeeps(s); } else { SnapshotKeeps(s); }
    case FailSnapshot => FailureKeeps(s);
    case TakeNote => if s.notes[0].Applied? { ReportKeeps(s); } else { DoneKeeps(s); }
    case Crash => CrashKeeps(s);
  }
}
