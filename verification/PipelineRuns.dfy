/** Whole runs of a node with its state machine: what reaches the store and when it repeats, what a
    restart finds, and how the handlers of the node are made of the steps. */
module PipelineRuns {
  import opened Commands
  import opened Journals
  import opened Pipeline
  import opened Quorum
  import opened Replays

  ghost predicate IsRun(states: seq<System>, actions: seq<Action>) {
    && |states| == |actions| + 1 && states[0] == Initial
    && forall i :: 0 <= i < |actions| ==> Enabled(states[i], actions[i]) && states[i + 1] == Step(states[i], actions[i])
  }

  lemma {:induction false} RunsKeepInv(states: seq<System>, actions: seq<Action>, n: nat)
    requires IsRun(states, actions) && n < |states|
    ensures Inv(states[n])
  {
    hide Inv, Enabled, Step;
    if n == 0 {
      InitialInv();
    } else {
      RunsKeepInv(states, actions, n - 1);
      StepKeepsInv(states[n - 1], actions[n - 1]);
    }
  }

  // ---- exactly once, in order ----

  /** The indices of the entries that are queued for the store. */
  function Queued(jobs: seq<Job>): seq<int> {
    if jobs == [] then [] else IndicesOf(jobs[0]) + Queued(jobs[1..])
  }

  /** The index the store will be reported at once the queue is empty. */
  function LastTo(jobs: seq<Job>, pos: int): int {
    if jobs == [] then pos else LastTo(jobs[1..], if jobs[0].ApplyEntries? then jobs[0].upTo else pos)
  }

  /** What has reached the store since the last restart, and what is queued for it. */
  function Line(s: System): seq<int> {
    s.past.trail + Queued(s.jobs)
  }

  function Reported(s: System): int {
    LastTo(s.jobs, s.past.pos)
  }

  /** A batch is handed over, maybe an empty one. */
  predicate HandsOver(s: System, a: Action) {
    a.Commit? && !s.j.applying && (s.j.included <= s.j.applied || a.upTo <= s.j.applied)
  }

  lemma {:induction false} QueuedMore(jobs: seq<Job>, job: Job, pos: int)
    ensures Queued(jobs + [job]) == Queued(jobs) + IndicesOf(job)
    ensures LastTo(jobs + [job], pos) == if job.ApplyEntries? then job.upTo else LastTo(jobs, pos)
  {
    hide IndicesOf;
    if jobs == [] {
      assert [job][1..] == [] && jobs + [job] == [job];
    } else {
      assert (jobs + [job])[1..] == jobs[1..] + [job];
      QueuedMore(jobs[1..], job, if jobs[0].ApplyEntries? then jobs[0].upTo else pos);
    }
  }

  lemma {:induction false} NoneQueued(jobs: seq<Job>, pos: int)
    requires Batches(jobs) == 0
    ensures Queued(jobs) == [] && LastTo(jobs, pos) == pos
  {
    if jobs != [] {
      NoneQueued(jobs[1..], pos);
    }
  }

  /** While no batch is under way, nothing is queued and the applied index is the reported one. */
  lemma NotApplying(s: System)
    requires Inv(s) && !s.failed && !s.j.applying
    ensures Queued(s.jobs) == [] && Reported(s) == s.past.pos == s.j.applied
    ensures 0 <= s.past.start <= s.j.applied <= |s.past.full|
  {
    ReachInside(s);
    NoneQueued(s.jobs, s.past.pos);
    hide DiskOk, LogOk, Healthy, Traced, QueuesOk, OrderOk, Queued, LastTo;
  }

  /** The two states have the same entries on their way, and the same index to be reported. */
  ghost predicate SameLine(s: System, s': System) {
    Line(s') == Line(s) && Reported(s') == Reported(s) && s'.past.start == s.past.start
  }

  lemma CheckLine(s: System)
    requires Inv(s) && !s.failed
    ensures SameLine(s, Check(s))
  {
    CheckIs(s);
    QueuedMore(s.jobs, MakeSnapshot(s.j.applied, TermOf(s.past.full, s.j.applied)), s.past.pos);
    hide Check, Inv, Queued, LastTo;
  }

  /** What a step that hands over a batch adds. */
  ghost predicate LineGrows(s: System, s': System, c: int) {
    Line(s') == Line(s) + From(s.j.applied, c) && Reported(s') == c && s'.past.start == s.past.start
  }

  lemma BatchLine(applied: int, c: int, trail: seq<int>, jobs: seq<Job>, job: Job, pos: int)
    requires job.ApplyEntries? && job.upTo == c && |job.entries| == if applied <= c then c - applied else 0
    ensures trail + Queued(jobs + [job]) == (trail + Queued(jobs)) + From(applied, c)
    ensures LastTo(jobs + [job], pos) == c
  {
    QueuedMore(jobs, job, pos);
    assert IndicesOf(job) == From(applied, c);
    hide Queued, LastTo, From, IndicesOf;
  }

  lemma CommitLine(s: System, c: int)
    requires Inv(s) && Enabled(s, Commit(c, false))
    ensures var s' := CommitAndApply(s, c);
            if HandsOver(s, Commit(c, false)) then LineGrows(s, s', c) else SameLine(s, s')
  {
    CommitIs(s, c);
    if HandsOver(s, Commit(c, false)) {
      BatchLine(s.j.applied, c, s.past.trail, s.jobs, NextBatch(s.j, s.past.full, c), s.past.pos);
    }
    hide CommitAndApply, Inv, Enabled, Queued, LastTo, From, IndicesOf;
  }

  lemma CommitStepLine(s: System, c: int, check: bool)
    requires Inv(s) && Enabled(s, Commit(c, check))
    ensures var s' := Step(s, Commit(c, check));
            if HandsOver(s, Commit(c, check)) then LineGrows(s, s', c) else SameLine(s, s')
  {
    assert Enabled(s, Commit(c, false));
    CommitLine(s, c);
    CommitKeeps(s, c);
    hide Inv, CommitAndApply, Check, Line, Reported;
    if !CommitAndApply(s, c).failed {
      CheckLine(CommitAndApply(s, c));
    }
  }

  lemma RunLine(s: System)
    requires Enabled(s, RunJob)
    ensures SameLine(s, Step(s, RunJob))
  {
    hide From, Replay;
    assert s.past.trail + Queued(s.jobs) == (s.past.trail + IndicesOf(s.jobs[0])) + Queued(s.jobs[1..]);
    if s.jobs[0].MakeSnapshot? {
      assert s.past.trail + [] == s.past.trail;
    }
    hide IndicesOf;
  }

  lemma NoteLine(s: System)
    requires Inv(s) && Enabled(s, TakeNote)
    ensures SameLine(s, Step(s, TakeNote))
  {
    if s.notes[0].Applied? {
      ReportedKeeps(s);
      CheckLine(Heard(s, s.notes[0].upTo));
      hide Inv, Step, Check, Queued, LastTo;
    } else {
      hide Inv, OnSnapshot, Queued, LastTo;
    }
  }

  /** What one step does to the entries on their way to the store. */
  lemma StepLine(s: System, a: Action)
    requires Inv(s) && Enabled(s, a)
    ensures var s' := Step(s, a);
            if a.Crash? then Line(s') == [] && Reported(s') == s'.past.start
            else if HandsOver(s, a) then LineGrows(s, s', a.upTo) else SameLine(s, s')
  {
    match a
    case Commit(c, check) => CommitStepLine(s, c, check);
    case RunJob => RunLine(s);
    case TakeNote => NoteLine(s);
    case Crash => hide Inv;
    case Add(_) => hide Inv, Queued, LastTo, Append;
    case FailSnapshot =>
      assert [] + Queued(s.jobs[1..]) == Queued(s.jobs[1..]);
      hide Inv, From;
  }

  /** The entries on their way are those behind the label, one after the other, each once, up to the
      index that is reported. */
  ghost predicate Tracks(s: System) {
    s.past.start <= Reported(s) && Line(s) == From(s.past.start, Reported(s))
  }

  /** The commit index is set back behind the applied one while no batch is under way. */
  predicate Lowers(s: System, a: Action) {
    a.Commit? && !s.j.applying && a.upTo < s.j.applied
  }

  lemma StepTracks(s: System, a: Action)
    requires Inv(s) && Enabled(s, a) && Tracks(s)
    ensures Tracks(Step(s, a)) <==> !Lowers(s, a)
  {
    StepLine(s, a);
    if HandsOver(s, a) {
      NotApplying(s);
      assert s.past.start <= a.upTo by { CommitIs(s, a.upTo); hide *; }
      hide Inv, Step, Line, Reported, Enabled;
      if s.j.applied <= a.upTo {
        FromSum(s.past.start, s.j.applied, a.upTo);
      } else {
        assert Line(s) + [] == Line(s);
      }
    } else {
      hide Inv, Step, Line, Reported;
    }
  }

  lemma InitialTracks()
    ensures Tracks(Initial)
  {}

  /** Over every run with crashes at any point and every value the handlers can give the commit
      index: the store gets the entries one after the other, each exactly once, and the report says
      up to where, exactly if the commit index is never set back behind the applied one while no
      batch is under way. */
  lemma {:induction false} InOrderIff(states: seq<System>, actions: seq<Action>, n: nat)
    requires IsRun(states, actions) && n < |states|
    ensures (forall i :: 0 <= i <= n ==> Tracks(states[i])) <==>
      (forall i :: 0 <= i < n ==> !Lowers(states[i], actions[i]))
  {
    hide Tracks, Lowers, Step, Enabled, Inv;
    if n == 0 {
      InitialTracks();
    } else {
      InOrderIff(states, actions, n - 1);
      RunsKeepInv(states, actions, n - 1);
      assert Enabled(states[n - 1], actions[n - 1]);
      if Tracks(states[n - 1]) {
        StepTracks(states[n - 1], actions[n - 1]);
        assert Tracks(states[n]) <==> !Lowers(states[n - 1], actions[n - 1]);
      }
      hide IsRun;
      assert (forall i :: 0 <= i < n ==> !Lowers(states[i], actions[i])) <==>
        (forall i :: 0 <= i < n - 1 ==> !Lowers(states[i], actions[i])) && !Lowers(states[n - 1], actions[n - 1]);
      assert (forall i :: 0 <= i <= n ==> Tracks(states[i])) <==>
        (forall i :: 0 <= i <= n - 1 ==> Tracks(states[i])) && Tracks(states[n]);
    }
  }

  /** No entry is on its way twice since the last restart, and none has been left out. */
  ghost predicate Once(s: System) {
    Line(s) == From(s.past.start, s.past.start + |Line(s)|)
  }

  /** A batch is handed over that begins with an entry that is or was already on its way. */
  predicate Repeats(s: System, a: Action) {
    HandsOver(s, a) && s.j.applied < a.upTo && s.j.applied < s.past.start + |Line(s)|
  }

  /** No report is ever ahead of the entries. */
  ghost predicate NotAhead(s: System) {
    Reported(s) <= s.past.start + |Line(s)|
  }

  lemma StepNotAhead(s: System, a: Action)
    requires Inv(s) && Enabled(s, a) && NotAhead(s)
    ensures NotAhead(Step(s, a))
  {
    StepLine(s, a);
    if HandsOver(s, a) {
      NotApplying(s);
    }
    hide Inv, Step, Line, Reported;
  }

  lemma RepeatBreaks(start: int, line: seq<int>, applied: int, c: int)
    requires applied < c && applied < start + |line|
    ensures var more := line + From(applied, c); more != From(start, start + |more|)
  {
    var more := line + From(applied, c);
    assert more[|line|] == applied + 1;
    assert From(start, start + |more|)[|line|] == start + 1 + |line|;
  }

  lemma OnceGrows(start: int, line: seq<int>, applied: int, c: int)
    requires line == From(start, start + |line|) && start <= applied <= start + |line|
    ensures var more := line + From(applied, c);
            more == From(start, start + |more|) <==> !(applied < c && applied < start + |line|)
  {
    if applied < c {
      if applied < start + |line| {
        RepeatBreaks(start, line, applied, c);
      } else {
        FromSum(start, applied, c);
      }
      hide From;
    } else {
      assert line + From(applied, c) == line;
    }
  }

  lemma OnceCrash(s: System)
    requires Line(s) == []
    ensures Once(s)
  {}

  lemma OnceSame(s: System, s': System)
    requires SameLine(s, s')
    ensures Once(s') <==> Once(s)
  {
    hide Line, Reported, From;
  }

  lemma OnceGrown(s: System, s': System, c: int)
    requires LineGrows(s, s', c) && Once(s) && s.past.start <= s.j.applied <= s.past.start + |Line(s)|
    ensures Once(s') <==> !(s.j.applied < c && s.j.applied < s.past.start + |Line(s)|)
  {
    hide Line, Reported, From;
    OnceGrows(s.past.start, Line(s), s.j.applied, c);
  }

  lemma AppliedInside(s: System)
    requires Inv(s) && NotAhead(s) && !s.failed && !s.j.applying
    ensures s.past.start <= s.j.applied <= s.past.start + |Line(s)|
  {
    hide Inv, Line, Reported;
    NotApplying(s);
  }

  lemma StepOnce(s: System, a: Action)
    requires Inv(s) && Enabled(s, a) && Once(s) && NotAhead(s)
    ensures Once(Step(s, a)) <==> !Repeats(s, a)
  {
    assert HandsOver(s, a) ==> !s.failed && !s.j.applying && a.Commit?;
    hide Inv, Step, Line, Reported, Enabled, LineGrows, SameLine, Once, HandsOver, NotAhead;
    StepLine(s, a);
    if a.Crash? {
      OnceCrash(Step(s, a));
      assert !HandsOver(s, a) by { CrashHandsOver(s); }
    } else if HandsOver(s, a) {
      AppliedInside(s);
      OnceGrown(s, Step(s, a), a.upTo);
    } else {
      OnceSame(s, Step(s, a));
    }
  }

  lemma CrashHandsOver(s: System)
    ensures !HandsOver(s, Crash)
  {}

  /** An entry reaches the store a second time exactly by a batch that is handed over while the
      applied index is behind the last entry that went there. */
  lemma {:induction false} OnceIff(states: seq<System>, actions: seq<Action>, n: nat)
    requires IsRun(states, actions) && n < |states|
    ensures NotAhead(states[n])
    ensures (forall i :: 0 <= i <= n ==> Once(states[i])) <==>
      (forall i :: 0 <= i < n ==> !Repeats(states[i], actions[i]))
  {
    if n == 0 {
      assert Line(Initial) == [];
    } else {
      hide Once, Repeats, Step, Enabled, Inv, NotAhead;
      OnceIff(states, actions, n - 1);
      RunsKeepInv(states, actions, n - 1);
      assert Enabled(states[n - 1], actions[n - 1]);
      StepNotAhead(states[n - 1], actions[n - 1]);
      if Once(states[n - 1]) {
        StepOnce(states[n - 1], actions[n - 1]);
        assert Once(states[n]) <==> !Repeats(states[n - 1], actions[n - 1]);
      }
      hide IsRun;
      assert (forall i :: 0 <= i < n ==> !Repeats(states[i], actions[i])) <==>
        (forall i :: 0 <= i < n - 1 ==> !Repeats(states[i], actions[i])) && !Repeats(states[n - 1], actions[n - 1]);
      assert (forall i :: 0 <= i <= n ==> Once(states[i])) <==>
        (forall i :: 0 <= i <= n - 1 ==> Once(states[i])) && Once(states[n]);
    }
  }

  // ---- while the commit index is not lowered ----

  function FileTo(p: Past): int {
    p.start + |p.fileTrail|
  }

  ghost predicate JobSteady(j: Journal, job: Job) {
    match job
    case ApplyEntries(upTo, _) => j.applied <= upTo
    case MakeSnapshot(i, _) => i <= j.applied
  }

  ghost predicate NoteSteady(j: Journal, p: Past, note: Note) {
    note.SnapshotDone? ==> note.index <= j.applied && note.index <= FileTo(p)
  }

  ghost predicate QueuesSteady(j: Journal, jobs: seq<Job>, notes: seq<Note>, p: Past) {
    && (forall job :: job in jobs ==> JobSteady(j, job))
    && (forall note :: note in notes ==> NoteSteady(j, p, note))
  }

  /** The label of the disk, what is applied, and what the store and the snapshot file have. */
  ghost predicate LineSteady(j: Journal, p: Past) {
    && p.start <= j.included <= j.applied <= p.pos && j.included <= FileTo(p)
    && p.trail == From(p.start, p.pos) && p.fileTrail == From(p.start, FileTo(p))
  }

  ghost predicate Steady(s: System) {
    !s.failed && LineSteady(s.j, s.past) && QueuesSteady(s.j, s.jobs, s.notes, s.past)
  }

  lemma SteadyQueues(j: Journal, j': Journal, jobs: seq<Job>, jobs': seq<Job>, notes: seq<Note>, notes': seq<Note>,
                     p: Past, p': Past)
    requires QueuesSteady(j, jobs, notes, p)
    requires forall job :: job in jobs' ==> job in jobs || JobSteady(j', job)
    requires forall note :: note in notes' ==> note in notes || NoteSteady(j', p', note)
    requires j'.applied == j.applied || (j'.applied >= j.applied && forall job :: job in jobs ==> job.MakeSnapshot?)
    requires FileTo(p') == FileTo(p) || (forall note :: note in notes ==> note.Applied?)
    ensures QueuesSteady(j', jobs', notes', p')
  {
    forall job | job in jobs' ensures JobSteady(j', job) {
      if job in jobs {
        assert JobSteady(j, job);
      }
    }
    forall note | note in notes' ensures NoteSteady(j', p', note) {
      if note in notes {
        assert NoteSteady(j, p, note);
      }
    }
  }

  lemma SteadyCommit(s: System, c: int)
    requires Inv(s) && Steady(s) && Enabled(s, Commit(c, false)) && !Lowers(s, Commit(c, false))
    ensures Steady(CommitAndApply(s, c))
  {
    CommitIs(s, c);
    var s' := CommitAndApply(s, c);
    SteadyQueues(s.j, s'.j, s.jobs, s'.jobs, s.notes, s.notes, s.past, s.past) by {
      hide Inv, CommitAndApply, LineSteady, QueuesSteady, FileTo;
    }
    hide Inv, CommitAndApply, QueuesSteady, From;
  }

  lemma SteadyCheck(s: System)
    requires Inv(s) && Steady(s)
    ensures Steady(Check(s))
  {
    CheckIs(s);
    var s' := Check(s);
    SteadyQueues(s.j, s'.j, s.jobs, s'.jobs, s.notes, s.notes, s.past, s.past) by {
      hide Inv, Check, LineSteady, QueuesSteady, FileTo;
    }
    hide Inv, Check, QueuesSteady, From;
  }

  lemma BatchLineSteady(j: Journal, p: Past, job: Job)
    requires LineSteady(j, p) && JobOk(j, p, job) && JobSteady(j, job) && job.ApplyEntries?
    ensures LineSteady(j, PastBatch(p, job.upTo, job.entries))
  {
    FromSum(p.start, j.applied, job.upTo);
    assert |job.entries| == job.upTo - j.applied;
    hide From;
  }

  lemma BatchQueuesSteady(j: Journal, jobs: seq<Job>, notes: seq<Note>, p: Past)
    requires QueuesSteady(j, jobs, notes, p) && jobs != [] && jobs[0].ApplyEntries?
    ensures QueuesSteady(j, jobs[1..], notes + [Applied(jobs[0].upTo)], PastBatch(p, jobs[0].upTo, jobs[0].entries))
  {
    SteadyQueues(j, j, jobs, jobs[1..], notes, notes + [Applied(jobs[0].upTo)], p,
                 PastBatch(p, jobs[0].upTo, jobs[0].entries)) by { hide QueuesSteady; }
    hide QueuesSteady;
  }

  lemma FirstJob(s: System)
    requires Inv(s) && Steady(s) && Enabled(s, RunJob)
    ensures JobOk(s.j, s.past, s.jobs[0]) && JobSteady(s.j, s.jobs[0])
  {
    hide JobOk, JobSteady, DiskOk, LogOk, Indices, Healthy, Traced, OrderOk, FlightsOk, LineSteady;
  }

  lemma SteadyBatch(s: System)
    requires Inv(s) && Steady(s) && Enabled(s, RunJob) && s.jobs[0].ApplyEntries?
    ensures Steady(Step(s, RunJob))
  {
    hide Inv, JobOk, JobSteady, Replay, QueuesSteady, LineSteady, From;
    FirstJob(s);
    BatchLineSteady(s.j, s.past, s.jobs[0]);
    BatchQueuesSteady(s.j, s.jobs, s.notes, s.past);
  }

  lemma SteadySnapshot(s: System)
    requires Inv(s) && Steady(s) && Enabled(s, RunJob) && s.jobs[0].MakeSnapshot?
    ensures Steady(Step(s, RunJob))
  {
    var s' := Step(s, RunJob);
    assert JobSteady(s.j, s.jobs[0]);
    OnlySnapshot(s.j, s.jobs, s.notes, s.past);
    SteadyQueues(s.j, s.j, s.jobs, s'.jobs, s.notes, s'.notes, s.past, s'.past) by {
      hide Inv, QueuesSteady;
    }
    hide Inv, QueuesSteady, From;
  }

  lemma SteadyFailure(s: System)
    requires Inv(s) && Steady(s) && Enabled(s, FailSnapshot)
    ensures Steady(Step(s, FailSnapshot))
  {
    var s' := Step(s, FailSnapshot);
    ReachInside(s);
    assert s.disk.included == s.j.included;
    SteadyQueues(s.j, s.j, s.jobs, s'.jobs, s.notes, s'.notes, s.past, s'.past) by {
      hide Inv, QueuesSteady, From;
    }
    hide Inv, QueuesSteady, From;
  }

  lemma SteadyReport(s: System)
    requires Inv(s) && Steady(s) && Enabled(s, TakeNote) && s.notes[0].Applied?
    ensures Steady(Heard(s, s.notes[0].upTo))
  {
    var s' := Heard(s, s.notes[0].upTo);
    assert NoteOk(s.j, s.past, s.notes[0]);
    OnlyReport(s.j, s.jobs, s.notes, s.past);
    SteadyQueues(s.j, s'.j, s.jobs, s.jobs, s.notes, s'.notes, s.past, s.past) by {
      hide Inv, QueuesSteady, From;
    }
    hide Inv, QueuesSteady, From;
  }

  lemma SteadyDone(s: System)
    requires Inv(s) && Steady(s) && Enabled(s, TakeNote) && s.notes[0].SnapshotDone?
    ensures Steady(Step(s, TakeNote))
  {
    var s', note := Step(s, TakeNote), s.notes[0];
    DoneKeeps(s);
    assert NoteOk(s.j, s.past, note) && NoteSteady(s.j, s.past, note);
    ReachInside(s);
    if !(note.index == -1 && note.term == 0) {
      CutLog(s.j, s.disk, s.past.full, note.index);
    }
    hide OnSnapshot, Inv, From;
    assert s'.j.applied == s.j.applied;
    SteadyQueues(s.j, s'.j, s.jobs, s.jobs, s.notes, s'.notes, s.past, s.past) by { hide QueuesSteady; }
    hide QueuesSteady;
  }

  lemma SteadyAdd(s: System, es: seq<Entry>)
    requires Inv(s) && Steady(s) && Enabled(s, Add(es))
    ensures Steady(Step(s, Add(es)))
  {
    var s' := Step(s, Add(es));
    SteadyQueues(s.j, s'.j, s.jobs, s.jobs, s.notes, s.notes, s.past, s'.past) by { hide Inv, QueuesSteady, From; }
    hide Inv, QueuesSteady, From;
  }

  lemma SteadyCrash(s: System)
    requires Inv(s)
    ensures Steady(Restarted(s))
  {
    CrashKeeps(s);
    hide Inv;
  }

  lemma StepSteady(s: System, a: Action)
    requires Inv(s) && Steady(s) && Enabled(s, a) && !Lowers(s, a)
    ensures Steady(Step(s, a))
  {
    hide Inv, Steady, CommitAndApply, Check, RunFirst, TakeFirst, Restarted;
    match a
    case Add(es) => SteadyAdd(s, es);
    case Commit(c, check) =>
      assert Enabled(s, Commit(c, false)) && !Lowers(s, Commit(c, false));
      SteadyCommit(s, c);
      CommitKeeps(s, c);
      if !CommitAndApply(s, c).failed {
        SteadyCheck(CommitAndApply(s, c));
      }
    case RunJob => if s.jobs[0].ApplyEntries? { SteadyBatch(s); } else { SteadySnapshot(s); }
    case FailSnapshot => SteadyFailure(s);
    case TakeNote =>
      if s.notes[0].Applied? {
        SteadyReport(s);
        ReportedKeeps(s);
        SteadyCheck(Heard(s, s.notes[0].upTo));
        hide Step;
      } else {
        SteadyDone(s);
      }
    case Crash => SteadyCrash(s);
  }

  lemma {:induction false} RunsSteady(states: seq<System>, actions: seq<Action>, n: nat)
    requires IsRun(states, actions) && n < |states| && forall i :: 0 <= i < n ==> !Lowers(states[i], actions[i])
    ensures Steady(states[n])
  {
    hide Step, Enabled, Inv, Lowers;
    if n > 0 {
      hide Steady;
      RunsSteady(states, actions, n - 1);
      RunsKeepInv(states, actions, n - 1);
      StepSteady(states[n - 1], actions[n - 1]);
    }
  }

  /** As long as the commit index has not been lowered: the node lives, its applied index is never
      ahead of the store nor behind the snapshot, and the store has exactly the entries behind the
      label it started from. */
  lemma AppliedInOrder(states: seq<System>, actions: seq<Action>, n: nat)
    requires IsRun(states, actions) && n < |states| && forall i :: 0 <= i < n ==> !Lowers(states[i], actions[i])
    ensures var s, p := states[n], states[n].past;
            && !s.failed && 0 <= p.start <= s.j.included <= s.j.applied <= p.pos <= |p.full|
            && p.trail == From(p.start, p.pos) && s.store == Replay(p.full[p.start..p.pos], p.startStore)
            && Batches(s.jobs) + Reports(s.notes) <= 1 && Snapshots(s.jobs) + Dones(s.notes) <= 1
  {
    RunsKeepInv(states, actions, n);
    RunsSteady(states, actions, n);
    ReachInside(states[n]);
    PickedFrom(states[n].past.full, states[n].past.start, states[n].past.pos);
    hide IsRun, Healthy, DiskOk, LogOk, QueuesOk, OrderOk, QueuesSteady, Replay, Picked, From, Batches, Snapshots;
  }

  /** And the snapshot file is the label's store or a newer one. */
  lemma SnapshotsNewEnough(states: seq<System>, actions: seq<Action>, n: nat)
    requires IsRun(states, actions) && n < |states| && forall i :: 0 <= i < n ==> !Lowers(states[i], actions[i])
    ensures var s, p := states[n], states[n].past;
            && p.start <= s.disk.included <= FileTo(p) <= |p.full| && 0 <= p.start
            && (forall note :: note in s.notes && note.SnapshotDone? ==> note.index <= FileTo(p))
            && Contents(s.file) == Replay(p.full[p.start..FileTo(p)], p.startStore)
  {
    var s, p := states[n], states[n].past;
    RunsKeepInv(states, actions, n);
    RunsSteady(states, actions, n);
    ReachInside(s);
    hide IsRun;
    assert s.disk.included == s.j.included;
    forall note | note in s.notes && note.SnapshotDone? ensures note.index <= FileTo(p) {
      assert NoteSteady(s.j, p, note);
    }
    hide Healthy, DiskOk, LogOk, QueuesOk, OrderOk, FlightsOk, QueuesSteady;
    assert FileTo(p) <= |p.full| by {
      if p.fileTrail != [] {
        assert p.fileTrail[|p.fileTrail| - 1] == FileTo(p);
      }
      hide Replay, Picked;
    }
    PickedFrom(p.full, p.start, FileTo(p));
    hide Replay, Picked, From, Within;
  }

  // ---- in every run ----

  /** The process dies exactly where a batch begins with an entry that only the snapshot holds. */
  lemma StepFailsIff(s: System, a: Action)
    requires Inv(s) && Enabled(s, a) && !s.failed
    ensures Step(s, a).failed <==> a.Commit? && !s.j.applying && s.j.applied < s.j.included && s.j.applied < a.upTo
  {
    match a
    case Add(_) => hide Inv;
    case Commit(c, _) =>
      CommitIs(s, c);
      CommitKeeps(s, c);
      if !CommitAndApply(s, c).failed {
        CheckKeeps(CommitAndApply(s, c));
      }
      hide Inv, CommitAndApply, Check;
    case RunJob => hide Inv, Replay;
    case FailSnapshot => hide Inv;
    case TakeNote =>
      if s.notes[0].Applied? { ReportKeeps(s); } else { DoneKeeps(s); }
      hide Inv, Step;
    case Crash => hide Inv;
  }

  /** While the process lives, the indices fit together, and memory, disk and snapshot together are
      the whole log. */
  lemma LogStaysWhole(states: seq<System>, actions: seq<Action>, n: nat)
    requires IsRun(states, actions) && n < |states| && !states[n].failed
    ensures var j, full := states[n].j, states[n].past.full;
            && 0 <= j.included && j.base == j.included + 1 && j.last == j.base + |j.logs| - 1 == |full|
            && (forall i :: j.included < i <= |full| ==> GetLogAt(j, i) == Some(full[i - 1]))
            && (forall i :: j.included <= i <= |full| ==> GetTermAt(j, i) == Some(TermOf(full, i)))
            && states[n].disk == ImageOf(j)
  {
    RunsKeepInv(states, actions, n);
    hide IsRun, QueuesOk, OrderOk, Healthy, Traced, FlightsOk;
  }

  /** In every state of every run, whatever the commit index has done: replaying the log from any
      index between the last restart's label and what the store has reached gives what the whole log
      gives; and so does replaying it on the snapshot file from the label a restart would find. */
  lemma AlwaysCatchesUp(states: seq<System>, actions: seq<Action>, n: nat, u: int)
    requires IsRun(states, actions) && n < |states|
    ensures var s, p := states[n], states[n].past;
            && 0 <= p.start <= s.disk.included <= p.high <= |p.full| && p.reach <= p.high
            && (!s.failed ==> p.start <= p.pos <= p.reach)
            && (p.start <= u <= p.reach ==> Replay(p.full[u..p.high], s.store) == Replay(p.full[..p.high], map[]))
            && Replay(p.full[s.disk.included..p.high], Contents(s.file)) == Replay(p.full[..p.high], map[])
  {
    RunsKeepInv(states, actions, n);
    var s, p := states[n], states[n].past;
    ReachInside(s);
    hide IsRun, DiskOk, LogOk, QueuesOk, OrderOk, FlightsOk, Traced, Replay;
    assert Good(p.full, Contents(s.file), s.disk.included, p.high);
    if p.start <= u <= p.reach {
      assert Good(p.full, s.store, u, p.high);
    }
  }

  lemma HighStep(s: System, a: Action)
    requires Enabled(s, a)
    ensures Step(s, a).past.high <= Max(s.past.high, Step(s, a).past.pos)
  {
    hide Replay, OnSnapshot, CheckIfNeedSnapshot, ApplyCommitLogs;
  }

  /** high never exceeds the furthest index the store has been reported at. */
  lemma {:induction false} HighReached(states: seq<System>, actions: seq<Action>, n: nat, top: int)
    requires IsRun(states, actions) && n < |states|
    requires forall k :: 0 <= k <= n ==> states[k].past.pos <= top
    ensures states[n].past.high <= top
  {
    hide Step, Enabled;
    if n > 0 {
      HighReached(states, actions, n - 1, top);
      HighStep(states[n - 1], actions[n - 1]);
      assert states[n].past.pos <= top;
    } else {
      assert states[0].past.pos <= top;
    }
  }

  /** Crash recovery: after any number of crashes at any points, and whatever the commit index has
      done, once the furthest index ever reported is reported again, the store is exactly what the
      whole log up to there gives. */
  lemma Recovered(states: seq<System>, actions: seq<Action>, n: nat)
    requires IsRun(states, actions) && n < |states| && !states[n].failed
    requires forall k :: 0 <= k <= n ==> states[k].past.pos <= states[n].past.pos
    ensures var s, p := states[n], states[n].past;
            0 <= p.pos <= |p.full| && s.store == Replay(p.full[..p.pos], map[])
  {
    var s, p := states[n], states[n].past;
    HighReached(states, actions, n, p.pos);
    AlwaysCatchesUp(states, actions, n, p.pos);
    assert p.full[p.pos..p.pos] == [];
    ReplayNothing(s.store);
    hide IsRun, Replay;
  }

  /** Nothing in the node, its queues or on disk refers to an index beyond top. */
  ghost predicate Below(s: System, top: int) {
    && s.past.pos <= top && s.j.applied <= top && s.j.included <= top && s.disk.included <= top
    && (forall job :: job in s.jobs ==> (if job.ApplyEntries? then job.upTo else job.index) <= top)
    && (forall note :: note in s.notes ==> (if note.Applied? then note.upTo else note.index) <= top)
  }

  lemma BelowCheck(s: System, top: int)
    requires Below(s, top)
    ensures Below(Check(s), top) && Check(s).j.commit == s.j.commit
  {
    hide GetTermAt;
  }

  lemma BelowCommit(s: System, c: int, top: int)
    requires Below(s, top) && CommitAndApply(s, c).j.commit <= top
    ensures Below(CommitAndApply(s, c), top)
  {
    hide Batch;
  }

  lemma BelowStep(s: System, a: Action, top: int)
    requires Inv(s) && Enabled(s, a) && Below(s, top) && 0 <= top && Step(s, a).j.commit <= top
    ensures Below(Step(s, a), top)
  {
    hide Inv;
    match a
    case Add(es) =>
    case Commit(c, check) =>
      assert Check(CommitAndApply(s, c)).j.commit == CommitAndApply(s, c).j.commit by { hide CommitAndApply; }
      hide Below, CommitAndApply, Check;
      BelowCommit(s, c, top);
      BelowCheck(CommitAndApply(s, c), top);
    case RunJob => hide Replay, From;
    case FailSnapshot =>
    case TakeNote =>
      if s.notes[0].Applied? {
        BelowCheck(Heard(s, s.notes[0].upTo), top);
        hide CheckIfNeedSnapshot;
      }
    case Crash =>
  }

  lemma {:induction false} BelowRun(states: seq<System>, actions: seq<Action>, n: nat, top: int)
    requires IsRun(states, actions) && n < |states|
    requires forall k :: 0 <= k <= n ==> states[k].j.commit <= top
    ensures Below(states[n], top)
  {
    hide Step, Enabled, Inv;
    assert states[0].j.commit <= top;
    if n > 0 {
      hide Below;
      BelowRun(states, actions, n - 1, top);
      RunsKeepInv(states, actions, n - 1);
      assert states[n].j.commit <= top;
      BelowStep(states[n - 1], actions[n - 1], top);
    }
  }

  /** In particular when everything that was ever committed is committed and applied again. */
  lemma RecoveredCommitted(states: seq<System>, actions: seq<Action>, n: nat)
    requires IsRun(states, actions) && n < |states| && !states[n].failed
    requires states[n].past.pos == states[n].j.commit
    requires forall k :: 0 <= k <= n ==> states[k].j.commit <= states[n].j.commit
    ensures 0 <= states[n].j.commit <= |states[n].past.full|
    ensures states[n].store == Replay(states[n].past.full[..states[n].j.commit], map[])
  {
    hide IsRun, Replay;
    forall k | 0 <= k <= n ensures states[k].past.pos <= states[n].past.pos {
      BelowRun(states, actions, k, states[n].j.commit);
    }
    Recovered(states, actions, n);
  }

  // ---- the handlers of a node are made of these steps ----

  /** The append handler: it dies if the log holds another term at index prev; it changes nothing if
      the log does not reach prev; else it adds the entries and then commits as far as the leader has
      and the log goes, and dies exactly where that step does. */
  lemma AppendRequestSteps(s: System, prev: int, prevTerm: nat, entries: seq<Entry>, leaderCommit: int)
    requires Inv(s) && !s.failed
    ensures var r, found := OnAppendRequest(s.j, prev, prevTerm, entries, leaderCommit), LogMatch(s.j, prev, prevTerm);
            && found.Some?
            && (!found.value && Covers(s.j, prev) ==> r.None?)
            && (!found.value && !Covers(s.j, prev) ==> r == Some(AppendReply(s.j, [], false)))
            && (found.value ==>
                  var added := Step(s, Add(entries));
                  var commit := Commit(Journals.Min(leaderCommit, added.j.last), false);
                  && (leaderCommit > added.j.commit ==> Enabled(added, commit))
                  && var after := if leaderCommit > added.j.commit then Step(added, commit) else added;
                  && (r.None? <==> after.failed)
                  && (r.Some? ==> r.value.success && after.j == r.value.journal && after.jobs == s.jobs + r.value.jobs))
  {
    assert Aligned(s.j) && s.j.commit <= s.j.last by { AliveAligned(s); }
    AlignedNeverFails(s.j, prev, prevTerm);
    AppendAligned(s.j, entries);
    assert s.jobs + [] == s.jobs;
    hide Inv, Append, Batch;
    if !LogMatch(s.j, prev, prevTerm).value && !Covers(s.j, prev) {
      assert prev != s.j.included || s.j.includedTerm != prevTerm;
    }
  }

  lemma AliveAligned(s: System)
    requires Inv(s) && !s.failed
    ensures Aligned(s.j) && s.past.start <= s.j.commit <= s.j.last && |s.past.full| == s.j.last
  {
    hide DiskOk, Healthy, Traced, QueuesOk, OrderOk, FlightsOk;
  }

  lemma MajorityIs(s: System, term: nat, c: int)
    requires !s.failed && GetTermAt(s.j, c) == Some(term) && MayCommit(s.j, c)
    ensures var o, commit := OnMajority(s.j, term, c), Commit(c, true);
            && (o.None? <==> Step(s, commit).failed)
            && (o.Some? ==> Step(s, commit) == s.(j := o.value.journal, jobs := s.jobs + o.value.jobs))
  {
    hide ApplyCommitLogs, CheckIfNeedSnapshot, GetTermAt, MayCommit;
    var first := ApplyCommitLogs(s.j.(commit := c));
    if first.Some? {
      var second := CheckIfNeedSnapshot(first.value.journal);
      if second.Some? {
        assert (s.jobs + first.value.jobs) + second.value.jobs == s.jobs + (first.value.jobs + second.value.jobs);
      }
    }
  }

  /** The response handler of a leader: if the majority's entry is of its term, the commit index
      becomes the majority, however far it falls or rises, and the handler is that step; else nothing
      happens. */
  lemma MajoritySteps(s: System, term: nat, majority: int)
    requires Inv(s) && !s.failed && term > 0
    ensures var o, commit := OnMajority(s.j, term, majority), Commit(majority, true);
            if GetTermAt(s.j, majority) == Some(term) then
              && Enabled(s, commit)
              && (o.None? <==> Step(s, commit).failed)
              && (o.Some? ==> Step(s, commit) == s.(j := o.value.journal, jobs := s.jobs + o.value.jobs))
            else o == Some(Outcome(s.j, []))
  {
    AliveAligned(s);
    AlignedNeverFails(s.j, majority, 0);
    if GetTermAt(s.j, majority) == Some(term) {
      assert MayCommit(s.j, majority);
      MajorityIs(s, term, majority);
    }
    hide Inv, Step, ApplyCommitLogs, CheckIfNeedSnapshot;
  }

  // ---- a run in which an entry reaches the store twice ----

  lemma TwoMatches()
    ensures MajorityMatch(2, [0, 2, 0]) == 2 && MajorityMatch(2, [0, 1, 0]) == 1
  {
    Above([2, 2, 0], 2);
    Above([2, 2, 0], 3);
    Above([2, 1, 0], 1);
    Above([2, 1, 0], 2);
    assert [0, 2, 0][0 := 2] == [2, 2, 0] && [0, 1, 0][0 := 2] == [2, 1, 0];
    hide MajorityMatch, AtLeast;
    MajorityHolds(2, [0, 2, 0], 0, 2);
    MajorityHolds(2, [0, 2, 0], 0, 3);
    MajorityHolds(2, [0, 1, 0], 0, 1);
    MajorityHolds(2, [0, 1, 0], 0, 2);
  }

  lemma Above(xs: seq<int>, x: int)
    requires |xs| == 3
    ensures AtLeast(xs, x) ==
      (if xs[0] >= x then 1 else 0) + (if xs[1] >= x then 1 else 0) + (if xs[2] >= x then 1 else 0)
  {
    assert xs[1..][1..] == [xs[2]] && [xs[2]][1..] == [];
    assert AtLeast([xs[2]], x) == if xs[2] >= x then 1 else 0;
  }

  /** A node with two entries of one term in its log and no snapshot. */
  function Pair(e: Entry, f: Entry, commit: int, applied: int, applying: bool): Journal {
    Journal([e, f], 1, 2, f.term, 0, 0, commit, applied, applying, false)
  }

  function TwoEntries(e: Entry, f: Entry, j: Journal, store: Store, jobs: seq<Job>, notes: seq<Note>, trail: seq<int>,
                      pos: int, reach: int): System {
    System(j, Image([e, f], 0, 0), store, None, jobs, notes, false,
           Past([e, f], 0, map[], trail, pos, [], reach, 0, reach))
  }

  /** The batch that a node with both entries hands over when it commits up to c. */
  function PairBatch(e: Entry, f: Entry, applied: int, c: int): seq<Entry> {
    if 0 <= applied <= c <= 2 then [e, f][applied..c] else []
  }

  lemma PairHandsOver(e: Entry, f: Entry, applied: int, c: int)
    requires 0 <= applied <= 2 && 1 <= c <= 2
    ensures ApplyCommitLogs(Pair(e, f, c, applied, false)) ==
      Some(Outcome(Pair(e, f, c, applied, true), [ApplyEntries(c, PairBatch(e, f, applied, c))]))
    ensures CheckIfNeedSnapshot(Pair(e, f, c, applied, true)) == Some(Outcome(Pair(e, f, c, applied, true), []))
  {
    var j := Pair(e, f, c, applied, false);
    if applied < c {
      BatchIs(j, applied + 1, c);
      assert j.logs[applied..c] == PairBatch(e, f, applied, c);
    } else {
      assert PairBatch(e, f, applied, c) == [];
    }
    hide Batch, PairBatch;
  }

  lemma PairCommits(e: Entry, f: Entry, commit: int, applied: int, c: int, store: Store, trail: seq<int>, reach: int)
    requires 0 <= applied <= 2 && 1 <= c <= 2 && e.term == f.term > 0
    ensures var s := TwoEntries(e, f, Pair(e, f, commit, applied, false), store, [], [], trail, applied, reach);
            var jobs := [ApplyEntries(c, PairBatch(e, f, applied, c))];
            var s' := TwoEntries(e, f, Pair(e, f, c, applied, true), store, jobs, [], trail, applied, reach);
            && Enabled(s, Commit(c, true)) && Step(s, Commit(c, true)) == s'
            && OnMajority(s.j, f.term, c) == Some(Outcome(s'.j, s'.jobs))
  {
    var j := Pair(e, f, commit, applied, false);
    assert GetTermAt(j, c) == Some(f.term);
    assert j.(commit := c) == Pair(e, f, c, applied, false);
    assert MayCommit(j, c);
    PairHandsOver(e, f, applied, c);
    var jobs := [ApplyEntries(c, PairBatch(e, f, applied, c))];
    assert [] + jobs == jobs && jobs + [] == jobs;
    hide ApplyCommitLogs, CheckIfNeedSnapshot, PairBatch, Pair, GetTermAt, MayCommit;
  }

  lemma PairReports(e: Entry, f: Entry, commit: int, applied: int, upTo: int, store: Store, trail: seq<int>, reach: int)
    requires upTo <= 2
    ensures var j, notes := Pair(e, f, commit, applied, true), [Applied(upTo)];
            var s := TwoEntries(e, f, j, store, [], notes, trail, upTo, reach);
            && Enabled(s, TakeNote)
            && Step(s, TakeNote) == TwoEntries(e, f, Pair(e, f, commit, upTo, false), store, [], [], trail, upTo, reach)
  {}

  lemma PairRuns(e: Entry, f: Entry, commit: int, applied: int, es: seq<Entry>, upTo: int, store: Store,
                 trail: seq<int>, reach: int)
    requires es != [] ==> upTo >= reach
    ensures var j, job := Pair(e, f, commit, applied, true), ApplyEntries(upTo, es);
            var s := TwoEntries(e, f, j, store, [job], [], trail, applied, reach);
            && Enabled(s, RunJob)
            && Step(s, RunJob) ==
                 TwoEntries(e, f, j, Replay(es, store), [], [Applied(upTo)], trail + IndicesOf(job), upTo,
                            if es == [] then reach else upTo)
  {
    hide Replay, IndicesOf;
  }

  lemma {:induction false} Extended(states: seq<System>, actions: seq<Action>, a: Action)
    requires IsRun(states, actions) && Enabled(states[|actions|], a)
    ensures |states| == |actions| + 1 && IsRun(states + [Step(states[|actions|], a)], actions + [a])
  {
    hide Enabled, Step;
  }

  /** Three more steps. */
  lemma RunOn(states: seq<System>, actions: seq<Action>, s1: System, a1: Action, s2: System, a2: Action, s3: System,
              a3: Action)
    returns (states': seq<System>, actions': seq<Action>)
    requires IsRun(states, actions)
    requires Enabled(states[|actions|], a1) && s1 == Step(states[|actions|], a1)
    requires Enabled(s1, a2) && s2 == Step(s1, a2) && Enabled(s2, a3) && s3 == Step(s2, a3)
    ensures IsRun(states', actions') && states' == states + [s1, s2, s3] && actions' == actions + [a1, a2, a3]
  {
    hide Enabled, Step, IsRun;
    Extended(states, actions, a1);
    var first, done := states + [s1], actions + [a1];
    Extended(first, done, a2);
    states', actions' := first + [s2], done + [a2];
    Extended(states', actions', a3);
    states', actions' := states' + [s3], actions' + [a3];
  }

  /** A commit by the response handler, its batch, and the report. */
  lemma PairRound(states: seq<System>, actions: seq<Action>, e: Entry, f: Entry, commit: int, applied: int, c: int,
                  store: Store, trail: seq<int>, reach: int) returns (s1: System, s2: System, s3: System)
    requires IsRun(states, actions) && 0 <= applied <= 2 && 1 <= c <= 2 && e.term == f.term > 0 && reach <= 2
    requires states[|actions|] ==
      TwoEntries(e, f, Pair(e, f, commit, applied, false), store, [], [], trail, applied, reach)
    requires applied < c ==> reach <= c
    ensures IsRun(states + [s1, s2, s3], actions + [Commit(c, true), RunJob, TakeNote])
    ensures OnMajority(states[|actions|].j, f.term, c) == Some(Outcome(s1.j, s1.jobs))
    ensures var es := PairBatch(e, f, applied, c);
            s3 == TwoEntries(e, f, Pair(e, f, c, c, false), Replay(es, store), [], [],
                             trail + IndicesOf(ApplyEntries(c, es)), c, if applied < c then c else reach)
  {
    var es := PairBatch(e, f, applied, c);
    var after := trail + IndicesOf(ApplyEntries(c, es));
    PairCommits(e, f, commit, applied, c, store, trail, reach);
    PairRuns(e, f, c, applied, es, c, store, trail, reach);
    PairReports(e, f, c, applied, c, Replay(es, store), after, if applied < c then c else reach);
    hide Replay, IndicesOf, Enabled, Step, OnMajority, IsRun, Pair, TwoEntries;
    s1 := Step(states[|actions|], Commit(c, true));
    s2 := Step(s1, RunJob);
    s3 := Step(s2, TakeNote);
    var states', actions' := RunOn(states, actions, s1, Commit(c, true), s2, RunJob, s3, TakeNote);
  }

  lemma PairTrails(e: Entry, f: Entry)
    ensures PairBatch(e, f, 0, 2) == [e, f] && PairBatch(e, f, 2, 1) == [] && PairBatch(e, f, 1, 2) == [f]
    ensures [] + IndicesOf(ApplyEntries(2, [e, f])) == [1, 2] && [1, 2] + IndicesOf(ApplyEntries(1, [])) == [1, 2]
    ensures [1, 2] + IndicesOf(ApplyEntries(2, [f])) == [1, 2, 2]
  {}

  lemma AddsPair(e: Entry, f: Entry)
    ensures IsRun([Initial, Step(Initial, Add([e, f]))], [Add([e, f])])
    ensures Step(Initial, Add([e, f])) == TwoEntries(e, f, Pair(e, f, 0, 0, false), map[], [], [], [], 0, 0)
  {
    assert [] + [e, f] == [e, f];
  }

  /** A leader's response handler sets the commit index back when a late answer lowers a match entry;
      then an entry that was already applied reaches the store a second time. */
  lemma LoweredCommitRepeats(e: Entry, f: Entry) returns (states: seq<System>, actions: seq<Action>)
    requires e.term == f.term > 0
    ensures IsRun(states, actions) && |actions| == 10 && states[10].past.trail == [1, 2, 2]
    ensures Lowers(states[4], actions[4])
    ensures OnMajority(states[1].j, f.term, MajorityMatch(2, [0, 2, 0])) == Some(Outcome(states[2].j, states[2].jobs))
    ensures OnMajority(states[4].j, f.term, MajorityMatch(2, [0, 1, 0])) == Some(Outcome(states[5].j, states[5].jobs))
    ensures OnMajority(states[7].j, f.term, MajorityMatch(2, [0, 2, 0])) == Some(Outcome(states[8].j, states[8].jobs))
  {
    hide Replay, IndicesOf, Enabled, Step, OnMajority, MajorityMatch, IsRun, PairBatch;
    TwoMatches();
    PairTrails(e, f);
    AddsPair(e, f);
    var all := Replay([e, f], map[]);
    states, actions := [Initial, Step(Initial, Add([e, f]))], [Add([e, f])];
    var s2, s3, s4 := PairRound(states, actions, e, f, 0, 0, 2, map[], [], 0);
    states, actions := states + [s2, s3, s4], actions + [Commit(2, true), RunJob, TakeNote];
    var s5, s6, s7 := PairRound(states, actions, e, f, 2, 2, 1, all, [1, 2], 2);
    states, actions := states + [s5, s6, s7], actions + [Commit(1, true), RunJob, TakeNote];
    var s8, s9, s10 := PairRound(states, actions, e, f, 1, 1, 2, Replay([], all), [1, 2], 2);
    states, actions := states + [s8, s9, s10], actions + [Commit(2, true), RunJob, TakeNote];
  }

  /** The state of a node with three entries once it has applied them and written a snapshot that it
      has not heard of yet. */
  function ThreeApplied(es: seq<Entry>, t: nat): System {
    var store := Replay(es, map[]);
    System(Journal(es, 1, 3, t, 0, 0, 3, 3, false, true), Image(es, 0, 0), store, Some(store), [], [SnapshotDone(3, t)],
           false, Past(es, 0, map[], [1, 2, 3], 3, [1, 2, 3], 3, 3, 3))
  }

  ghost predicate OneTerm(es: seq<Entry>, t: nat) {
    |es| == 3 && es[0].term == es[1].term == es[2].term == t > 0
  }

  lemma ThreeCommitted(es: seq<Entry>, t: nat, s: System)
    requires OneTerm(es, t) && s == Step(Initial, Add(es))
    ensures Enabled(s, Commit(3, true))
    ensures Step(s, Commit(3, true)) == s.(j := s.j.(commit := 3, applying := true), jobs := [ApplyEntries(3, es)])
    ensures OnMajority(s.j, t, 3) == Some(Outcome(s.j.(commit := 3, applying := true), [ApplyEntries(3, es)]))
    ensures s == System(Journal(es, 1, 3, t, 0, 0, 0, 0, false, false), Image(es, 0, 0), map[], None, [], [], false,
                        Past(es, 0, map[], [], 0, [], 0, 0, 0))
  {
    assert [] + es == es;
    BatchIs(s.j.(commit := 3), 1, 3);
    assert es[0..3] == es;
    var jobs := [ApplyEntries(3, es)];
    assert [] + jobs == jobs && jobs + [] == jobs;
    hide Batch;
  }

  lemma ThreeReach(es: seq<Entry>, t: nat, s2: System) returns (s3: System, s4: System)
    requires OneTerm(es, t)
    requires s2 == System(Journal(es, 1, 3, t, 0, 0, 3, 0, true, false), Image(es, 0, 0), map[], None,
                          [ApplyEntries(3, es)], [], false, Past(es, 0, map[], [], 0, [], 0, 0, 0))
    ensures Enabled(s2, RunJob) && s3 == Step(s2, RunJob) && Enabled(s3, TakeNote) && s4 == Step(s3, TakeNote)
    ensures Enabled(s4, RunJob) && Step(s4, RunJob) == ThreeApplied(es, t)
  {
    hide Replay;
    s3 := Step(s2, RunJob);
    assert s3.past.trail == [1, 2, 3];
    s4 := Step(s3, TakeNote);
    assert s4.jobs == [MakeSnapshot(3, t)];
  }

  /** The response handler lowers the commit index; the node then hears of the snapshot, which is
      newer, and at the next commit looks for entries that only the snapshot holds. */
  lemma ThreeEnds(es: seq<Entry>, t: nat) returns (s6: System, s7: System, s8: System, s9: System)
    requires OneTerm(es, t)
    ensures var s5 := ThreeApplied(es, t);
            && Enabled(s5, Commit(1, true)) && s6 == Step(s5, Commit(1, true)) && Lowers(s5, Commit(1, true))
            && OnMajority(s5.j, t, 1) == Some(Outcome(s6.j, s6.jobs))
    ensures Enabled(s6, RunJob) && s7 == Step(s6, RunJob) && Enabled(s7, TakeNote) && s8 == Step(s7, TakeNote)
    ensures Enabled(s8, TakeNote) && s9 == Step(s8, TakeNote)
    ensures Enabled(s9, Commit(3, true)) && Step(s9, Commit(3, true)).failed && OnMajority(s9.j, t, 3).None?
  {
    hide Replay;
    var s5 := ThreeApplied(es, t);
    s6 := Step(s5, Commit(1, true));
    var none := [ApplyEntries(1, [])];
    assert none + [] == none && [] + none == none;
    assert s6.j == s5.j.(commit := 1, applying := true) && s6.jobs == [ApplyEntries(1, [])];
    s7 := Step(s6, RunJob);
    assert s7.notes == [SnapshotDone(3, t), Applied(1)];
    s8 := Step(s7, TakeNote);
    assert s8.j == Journal(es[3..], 4, 3, t, 3, t, 1, 3, true, false);
    s9 := Step(s8, TakeNote);
    assert s9.j == Journal(es[3..], 4, 3, t, 3, t, 1, 1, false, false);
    assert GetLogAt(s9.j.(commit := 3), 2).None?;
  }

  lemma ThreeMatches()
    ensures MajorityMatch(3, [0, 3, 0]) == 3 && MajorityMatch(3, [0, 1, 0]) == 1
  {
    Above([3, 3, 0], 3);
    Above([3, 3, 0], 4);
    Above([3, 1, 0], 1);
    Above([3, 1, 0], 2);
    assert [0, 3, 0][0 := 3] == [3, 3, 0] && [0, 1, 0][0 := 3] == [3, 1, 0];
    hide MajorityMatch, AtLeast;
    MajorityHolds(3, [0, 3, 0], 0, 3);
    MajorityHolds(3, [0, 3, 0], 0, 4);
    MajorityHolds(3, [0, 1, 0], 0, 1);
    MajorityHolds(3, [0, 1, 0], 0, 2);
  }

  lemma ThreeAdded(es: seq<Entry>)
    ensures IsRun([Initial, Step(Initial, Add(es))], [Add(es)])
  {}

  /** A lowered commit index can also end the process: a snapshot taken before overtakes the applied
      index, and the next commit by the response handler looks for an entry that the log has lost. */
  lemma LoweredCommitKills(es: seq<Entry>, t: nat) returns (states: seq<System>, actions: seq<Action>)
    requires OneTerm(es, t)
    ensures IsRun(states, actions) && |actions| == 10 && states[10].failed
    ensures OnMajority(states[5].j, t, MajorityMatch(3, [0, 1, 0])) == Some(Outcome(states[6].j, states[6].jobs))
    ensures Lowers(states[5], actions[5]) && OnMajority(states[9].j, t, MajorityMatch(3, [0, 3, 0])).None?
  {
    hide Enabled, Step, OnMajority, MajorityMatch, IsRun, Lowers, OneTerm;
    ThreeMatches();
    ThreeAdded(es);
    var s1 := Step(Initial, Add(es));
    ThreeCommitted(es, t, s1);
    var s2 := Step(s1, Commit(3, true));
    var s3, s4 := ThreeReach(es, t, s2);
    var s5 := ThreeApplied(es, t);
    hide ThreeApplied;
    var s6, s7, s8, s9 := ThreeEnds(es, t);
    states, actions := [Initial, s1], [Add(es)];
    states, actions := RunOn(states, actions, s2, Commit(3, true), s3, RunJob, s4, TakeNote);
    states, actions := RunOn(states, actions, s5, RunJob, s6, Commit(1, true), s7, RunJob);
    states, actions := RunOn(states, actions, s8, TakeNote, s9, TakeNote, Step(s9, Commit(3, true)), Commit(3, true));
  }
}
