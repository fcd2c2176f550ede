/** What every run of batch jobs keeps, how a job ends, and what a shutdown leaves. */
module BatchRuns {
  import opened Wrappers
  import opened Sequences
  import opened LinkStore
  import opened BatchJobs
  import opened BatchRows
  import opened BatchBalance

  // ------------------------------------------------------------------------ all runs

  lemma StepKeepsInv(s: State, step: Step)
    requires BatchInv(s) && Enabled(s, step)
    ensures BatchInv(Apply(s, step))
  {
    StepKeepsJobs(s, step);
    StepKeepsLinks(s, step);
    StepKeepsStore(s, step);
    StepKeepsRows(s, step, Apply(s, step));
    StepKeepsTags(s, step, Apply(s, step));
  }

  /** A link table before the first batch. */
  predicate NoJobYet(store: Store) {
    LinkStore.Inv(store) && forall id | id in store.table.rows :: store.table.rows[id].batchJob == None
  }

  lemma InitInv(store: Store, queueSize: nat, maxItems: nat, submitters: nat, workers: nat)
    requires NoJobYet(store)
    ensures BatchInv(Init(store, queueSize, maxItems, submitters, workers))
  {
  }

  lemma {:induction false} RunKeepsInv(s: State, run: seq<Step>)
    requires BatchInv(s) && Possible(s, run)
    ensures BatchInv(After(s, run))
    decreases |run|
  {
    if run != [] {
      StepKeepsInv(s, run[0]);
      RunKeepsInv(Apply(s, run[0]), run[1..]);
    }
  }

  lemma {:induction false} RunKeepsJobs(s: State, run: seq<Step>)
    requires JobSide(s) && Possible(s, run)
    ensures JobSide(After(s, run))
    decreases |run|
  {
    if run != [] {
      StepKeepsJobs(s, run[0]);
      RunKeepsJobs(Apply(s, run[0]), run[1..]);
    }
  }

  // ---------------------------------------------------------------------- job history

  predicate Prefix<T(==)>(a: seq<T>, b: seq<T>) {
    |a| <= |b| && a == b[..|a|]
  }

  predicate HistoryAdmitted(history: seq<Status>) {
    || Prefix(history, [Pending, Running, Completed])
    || Prefix(history, [Pending, Running, Failed])
    || Prefix(history, [Pending, Failed])
  }

  predicate SafeState(t: State) {
    && (forall i, j | i in t.jobs && j in t.jobs && t.jobs[i].key == t.jobs[j].key :: i == j)
    && NoDuplicates(t.enqueued) && NoDuplicates(t.taken) && Prefix(t.taken, t.enqueued)
    && |t.queue| <= t.queueSize
    && forall j | j in t.jobs :: HistoryAdmitted(t.jobs[j].history) && t.jobs[j].history != []
                                 && t.jobs[j].status == t.jobs[j].history[|t.jobs[j].history| - 1]
  }

  /** Over every interleaving: one row per idempotency key, each job queued and taken at most once and
      in the order of queueing, and its status only ever as the service means it to. */
  lemma RunsAreSafe(s: State, run: seq<Step>)
    requires JobSide(s) && Possible(s, run)
    ensures SafeState(After(s, run))
  {
    RunKeepsJobs(s, run);
    var t := After(s, run);
    assert t.enqueued[..|t.taken|] == t.taken;
    forall i, j | 0 <= i < j < |t.taken|
      ensures t.taken[i] != t.taken[j]
    {
      assert t.enqueued[i] == t.taken[i] && t.enqueued[j] == t.taken[j];
    }
    forall j | j in t.jobs
      ensures HistoryAdmitted(t.jobs[j].history) && t.jobs[j].history != []
      ensures t.jobs[j].status == t.jobs[j].history[|t.jobs[j].history| - 1]
    {
      HistoryOf(t.jobs[j]);
    }
  }

  lemma HistoryOf(job: Job)
    requires JobInv(job)
    ensures HistoryAdmitted(job.history) && job.history != []
    ensures job.status == job.history[|job.history| - 1]
  {
    assert [Pending, Running, Completed][..2] == [Pending, Running];
    assert [Pending, Running, Completed][..1] == [Pending];
  }

  /** A job's row keeps its owner, key and items, and its history only grows. */
  predicate Extends(before: Job, after: Job) {
    && after.userId == before.userId && after.key == before.key && after.links == before.links
    && Prefix(before.history, after.history)
  }

  lemma StepExtends(s: State, step: Step, j: nat)
    requires Enabled(s, step) && j in s.jobs && j < s.nextJob
    ensures j in Apply(s, step).jobs && Extends(s.jobs[j], Apply(s, step).jobs[j])
    ensures j < Apply(s, step).nextJob
  {
  }

  lemma ExtendsTransitive(a: Job, b: Job, c: Job)
    requires Extends(a, b) && Extends(b, c)
    ensures Extends(a, c)
  {
  }

  lemma {:induction false} RunExtends(s: State, run: seq<Step>, j: nat)
    requires Possible(s, run) && j in s.jobs && j < s.nextJob
    ensures j in After(s, run).jobs && Extends(s.jobs[j], After(s, run).jobs[j])
    decreases |run|
  {
    if run != [] {
      var t := Apply(s, run[0]);
      StepExtends(s, run[0], j);
      RunExtends(t, run[1..], j);
      ExtendsTransitive(s.jobs[j], t.jobs[j], After(t, run[1..]).jobs[j]);
    }
  }

  /** The step changes the row of this job. */
  predicate Touches(s: State, step: Step, j: nat)
    requires Enabled(s, step)
  {
    match step
    case Enqueue(i) => s.submitters[i] == Inserted(j)
    case Take(w) => s.queue[0] == j
    case Item(w, _) => s.workers[w].job == j
    case Finish(w) => s.workers[w].job == j
    case _ => false
  }

  lemma UntouchedStays(s: State, step: Step, j: nat)
    requires Enabled(s, step) && j in s.jobs && j < s.nextJob && !Touches(s, step, j)
    ensures j in Apply(s, step).jobs && Apply(s, step).jobs[j] == s.jobs[j]
  {
  }

  lemma TouchedIsOpen(s: State, step: Step, j: nat)
    requires QueueInv(s) && SubmittersInv(s) && OwnersInv(s) && Enabled(s, step) && Touches(s, step, j)
    ensures j in s.jobs && !Terminal(s.jobs[j].status)
  {
    if step.Take? {
      assert s.queue[0] in s.queue;
    }
  }

  /** What has ended stays ended, with its counters and results. */
  lemma TerminalStays(s: State, step: Step, j: nat)
    requires KeysInv(s) && QueueInv(s) && SubmittersInv(s) && OwnersInv(s) && Enabled(s, step)
    requires j in s.jobs && Terminal(s.jobs[j].status)
    ensures j in Apply(s, step).jobs && Apply(s, step).jobs[j] == s.jobs[j]
  {
    assert j < s.nextJob;
    if Touches(s, step, j) {
      TouchedIsOpen(s, step, j);
    } else {
      UntouchedStays(s, step, j);
    }
  }

  // ------------------------------------------------------------------- how a job ends

  /** The last step of a worker ends its job, and completes it iff no item has failed. Of a completed
      job there is at most one row per item, as reported, and of a failed one there is none. */
  lemma FinishAllOrNothing(s: State, w: nat)
    requires BatchInv(s) && CanFinish(s, w)
    ensures var worker, t := s.workers[w], DoFinish(s, w);
      && worker.job in t.jobs && JobRows(t.store, t.jobs[worker.job], worker.job)
      && var job := t.jobs[worker.job];
         JobInv(job) && Terminal(job.status) && (job.status == Completed <==> worker.Creating? && worker.failures == 0)
  {
    FinishEndsJob(s, w);
    FinishRows(s, w);
  }

  /** How often somebody else deletes a row of the job in this run. */
  function Removed(s: State, run: seq<Step>, j: nat): nat
    requires Possible(s, run)
    decreases |run|
  {
    if run == [] then 0
    else (if Removes(s, run[0], j) then 1 else 0) + Removed(Apply(s, run[0]), run[1..], j)
  }

  lemma StepDoomed(s: State, step: Step, j: nat)
    requires JobSide(s) && Enabled(s, step) && Doomed(s, j)
    ensures Doomed(Apply(s, step), j)
  {
    if j in s.jobs && s.jobs[j].status == Failed {
      TerminalStays(s, step, j);
    } else {
      var w :| 0 <= w < |s.workers| && s.workers[w].Undoing? && s.workers[w].job == j;
      UndoerStays(s, step, w);
    }
  }

  lemma UndoerStays(s: State, step: Step, w: nat)
    requires OwnersInv(s) && Enabled(s, step) && w < |s.workers| && s.workers[w].Undoing?
    ensures Doomed(Apply(s, step), s.workers[w].job)
  {
    var t := Apply(s, step);
    if step.Finish? && step.w == w {
      assert t.jobs[s.workers[w].job].status == Failed;
    } else {
      assert t.workers[w].Undoing? && t.workers[w].job == s.workers[w].job;
    }
  }

  lemma {:induction false} DoomedStays(s: State, run: seq<Step>, j: nat)
    requires JobSide(s) && Possible(s, run) && Doomed(s, j)
    ensures Doomed(After(s, run), j)
    decreases |run|
  {
    if run != [] {
      StepDoomed(s, run[0], j);
      StepKeepsJobs(s, run[0]);
      DoomedStays(Apply(s, run[0]), run[1..], j);
    }
  }

  lemma CompletedNotDoomed(s: State, j: nat)
    requires OwnersInv(s) && j in s.jobs && s.jobs[j].status == Completed
    ensures !Doomed(s, j)
  {
  }

  /** A completed job misses the rows that it missed before and those deleted by somebody else since. */
  lemma {:induction false} RunBalance(s: State, run: seq<Step>, j: nat)
    requires BatchInv(s) && Possible(s, run) && !Doomed(After(s, run), j)
    ensures Lost(After(s, run), j) == Lost(s, j) + Removed(s, run, j)
    decreases |run|
  {
    if run != [] {
      var t := Apply(s, run[0]);
      StepKeepsInv(s, run[0]);
      NotDoomedYet(t, run[1..], j);
      StepBalance(s, run[0], j);
      RunBalance(t, run[1..], j);
    }
  }

  lemma NotDoomedYet(s: State, run: seq<Step>, j: nat)
    requires JobSide(s) && Possible(s, run) && !Doomed(After(s, run), j)
    ensures !Doomed(s, j)
  {
    if Doomed(s, j) {
      DoomedStays(s, run, j);
    }
  }

  /** The queue was full when the job was submitted. */
  predicate TurnedAway(job: Job) {
    job.history == [Pending, Failed]
  }

  /** That is decided where the job is offered to the queue, by the room in it. */
  lemma TurnedAwayIffFull(s: State, i: nat)
    requires JobSide(s) && CanEnqueue(s, i)
    ensures TurnedAway(DoEnqueue(s, i).jobs[s.submitters[i].job]) <==> |s.queue| >= s.queueSize
  {
    assert JobInv(s.jobs[s.submitters[i].job]);
    assert [Pending] + [Failed] == [Pending, Failed];
  }

  predicate CountsAgree(job: Job) {
    job.processed == job.totalItems == job.successes + job.failures
  }

  /** How every job ends. It is all or nothing: a completed job has made one row per item, a failed one has
      none. The rows that a completed job misses are the ones deleted by somebody else, so it has all
      of them iff there was no such deletion. Its counters add up iff it was not turned away or has
      no items. */
  ghost predicate EndedWell(store: Store, job: Job, j: nat, removed: int) {
    && JobInv(job) && JobRows(store, job, j)
    && (job.status == Completed ==>
          && job.successes == job.totalItems && |RowSet(store, j)| + removed == job.totalItems
          && (MadeAll(store, job, j) <==> removed == 0))
    && (job.status == Failed ==> job.successes == 0 && forall id :: !Tagged(store, id, j))
    && (CountsAgree(job) <==> !TurnedAway(job) || job.totalItems == 0)
  }

  lemma TerminalEndedWell(s: State, j: nat)
    requires BatchInv(s) && j in s.jobs && Terminal(s.jobs[j].status)
    ensures EndedWell(s.store, s.jobs[j], j, Lost(s, j))
  {
    assert JobInv(s.jobs[j]) && JobRows(s.store, s.jobs[j], j);
    CountsWhen(s.jobs[j]);
    if s.jobs[j].status == Completed {
      NobodyNotes(s, s.workers, j);
      MadeAllIff(s.store, s.jobs[j], j);
    }
  }

  lemma CountsWhen(job: Job)
    requires JobInv(job) && Terminal(job.status)
    ensures CountsAgree(job) <==> !TurnedAway(job) || job.totalItems == 0
  {
    if job.status == Failed {
      assert [Pending, Running, Failed][1] == Running;
    }
  }

  lemma {:induction false} NobodyNotes(s: State, workers: seq<Worker>, j: nat)
    requires forall w | 0 <= w < |workers| :: !Holds(workers[w], j)
    ensures NotedRows(workers, j) == 0
  {
    if workers != [] {
      NobodyNotes(s, workers[1..], j);
    }
  }

  /** Over every interleaving, whatever other users do, every job that has ended has ended well. */
  lemma BatchesAllOrNothing(s: State, run: seq<Step>, j: nat)
    requires BatchInv(s) && Possible(s, run)
    requires j in After(s, run).jobs && Terminal(After(s, run).jobs[j].status)
    ensures var t := After(s, run);
      EndedWell(t.store, t.jobs[j], j, if t.jobs[j].status == Completed then Lost(s, j) + Removed(s, run, j) else 0)
  {
    RunKeepsInv(s, run);
    TerminalEndedWell(After(s, run), j);
    if After(s, run).jobs[j].status == Completed {
      CompletedNotDoomed(After(s, run), j);
      RunBalance(s, run, j);
    }
  }

  /** A job with one item and a queue without room: it ends at once, and its counters do not add up. */
  lemma TurnedAwayUncounted(store: Store, userId: nat, req: CreateRequest, key: string)
    ensures var s, run := Init(store, 0, 1, 1, 0), [Look(0, userId, [req], key), InsertRow(0), Enqueue(0)];
      && Possible(s, run) && 0 in After(s, run).jobs
      && var job := After(s, run).jobs[0];
         job.status == Failed && TurnedAway(job) && job.totalItems == 1 && job.processed == 0 && !CountsAgree(job)
  {
    var s := Init(store, 0, 1, 1, 0);
    var s1 := DoLook(s, 0, userId, [req], key);
    assert s1.submitters == [Looked(userId, [req], key)];
    var s2 := DoInsert(s1, 0);
    assert s2.submitters == [Inserted(0)];
    ThreeSteps(s, Look(0, userId, [req], key), InsertRow(0), Enqueue(0), s1, s2, DoEnqueue(s2, 0));
  }

  lemma ThreeSteps(s: State, a: Step, b: Step, c: Step, s1: State, s2: State, s3: State)
    requires Enabled(s, a) && s1 == Apply(s, a) && Enabled(s1, b) && s2 == Apply(s1, b)
    requires Enabled(s2, c) && s3 == Apply(s2, c)
    ensures Possible(s, [a, b, c]) && After(s, [a, b, c]) == s3
  {
    Prepend(s2, c, []);
    Prepend(s1, b, [c]);
    Prepend(s, a, [b, c]);
    assert [a] + [b, c] == [a, b, c];
  }

  lemma Prepend(s: State, step: Step, run: seq<Step>)
    requires Enabled(s, step) && Possible(Apply(s, step), run)
    ensures Possible(s, [step] + run) && After(s, [step] + run) == After(Apply(s, step), run)
  {
    assert ([step] + run)[1..] == run;
  }

  // ------------------------------------------------------------------------- shutdown

  /** Once the queue is closed and its workers have returned, every job has ended iff there was a worker
      or nothing is left in the queue. */
  lemma AllJobsEnd(s: State)
    requires JobSide(s) && s.closed
    requires forall w | 0 <= w < |s.workers| :: s.workers[w] == Exited
    ensures (forall j | j in s.jobs :: Terminal(s.jobs[j].status)) <==> s.workers != [] || s.queue == []
    ensures s.workers != [] ==> s.queue == [] && s.taken == s.enqueued
  {
    if s.workers != [] {
      assert s.workers[0] == Exited;
    }
    if s.queue == [] {
      assert s.enqueued == s.taken;
      forall j | j in s.jobs
        ensures Terminal(s.jobs[j].status)
      {
        assert s.jobs[j].status != Running;
        assert s.jobs[j].status != Pending;
      }
    } else {
      StillQueued(s);
    }
  }

  lemma StillQueued(s: State)
    requires QueueInv(s) && s.queue != []
    ensures s.queue[0] in s.jobs && !Terminal(s.jobs[s.queue[0]].status)
  {
    assert s.queue[0] in s.queue;
    assert s.enqueued[|s.taken|] == s.queue[0];
  }

  /** How many steps a worker may still make before it waits or returns. */
  function Weight(s: State, worker: Worker): nat {
    match worker
    case Waiting => 1
    case Creating(j, results, created, _) =>
      3 + |created| + if j in s.jobs && |results| <= |s.jobs[j].links| then 2 * (|s.jobs[j].links| - |results|) else 0
    case Undoing(_, _, created, undone) => 2 + if undone <= |created| then |created| - undone else 0
    case Exited => 0
  }

  function WorkersWeight(s: State, workers: seq<Worker>): nat {
    if workers == [] then 0 else Weight(s, workers[0]) + WorkersWeight(s, workers[1..])
  }

  function QueueWeight(s: State, queue: seq<nat>): nat {
    if queue == [] then 0
    else (if queue[0] in s.jobs then 3 + 2 * |s.jobs[queue[0]].links| else 0) + QueueWeight(s, queue[1..])
  }

  function Measure(s: State): nat {
    QueueWeight(s, s.queue) + WorkersWeight(s, s.workers)
  }

  lemma {:induction false} QueueWeightFrame(s: State, t: State, queue: seq<nat>)
    requires SameLinks(s, t) && forall j | j in queue :: j in s.jobs
    ensures QueueWeight(t, queue) == QueueWeight(s, queue)
  {
    if queue != [] {
      QueueWeightFrame(s, t, queue[1..]);
    }
  }

  lemma {:induction false} WorkersWeightFrame(s: State, t: State, workers: seq<Worker>)
    requires SameLinks(s, t) && forall w | 0 <= w < |workers| && Busy(workers[w]) :: workers[w].job in s.jobs
    ensures WorkersWeight(t, workers) == WorkersWeight(s, workers)
  {
    if workers != [] {
      WorkersWeightFrame(s, t, workers[1..]);
    }
  }

  lemma {:induction false} WorkerReplaced(s: State, workers: seq<Worker>, w: nat, worker: Worker)
    requires w < |workers|
    ensures WorkersWeight(s, workers[w := worker]) + Weight(s, workers[w])
         == WorkersWeight(s, workers) + Weight(s, worker)
  {
    if w > 0 {
      WorkerReplaced(s, workers[1..], w - 1, worker);
      assert workers[w := worker][1..] == workers[1..][w - 1 := worker];
    } else {
      assert workers[w := worker][1..] == workers[1..];
    }
  }

  /** The steps that are a worker's. */
  predicate Works(step: Step) {
    step.Take? || step.Item? || step.StartUndo? || step.Undo? || step.Finish? || step.Exit?
  }

  lemma WorkerLighter(s: State, step: Step, worker: Worker)
    requires Enabled(s, step) && Works(step) && !step.Take? && worker == Apply(s, step).workers[step.w]
    ensures Weight(s, worker) < Weight(s, s.workers[step.w])
  {
  }

  lemma StepKeepsLinks(s: State, step: Step)
    requires Enabled(s, step) && KeysInv(s)
    ensures SameLinks(s, Apply(s, step))
  {
    forall j | j in s.jobs
      ensures j in Apply(s, step).jobs && Apply(s, step).jobs[j].links == s.jobs[j].links
    {
      StepExtends(s, step, j);
    }
  }

  /** A step of a worker changes the queue and that worker's notes. */
  lemma WorkerStep(s: State, step: Step, t: State)
    requires Enabled(s, step) && Works(step) && t == Apply(s, step)
    ensures step.w < |s.workers| && |t.workers| == |s.workers|
    ensures t.workers == s.workers[step.w := t.workers[step.w]]
    ensures QueueWeight(s, t.queue) + Weight(s, t.workers[step.w])
          < QueueWeight(s, s.queue) + Weight(s, s.workers[step.w])
    ensures t.jobs.Keys == s.jobs.Keys
  {
    if !step.Take? {
      WorkerLighter(s, step, t.workers[step.w]);
    }
  }

  /** Every step of a worker brings its return nearer. */
  lemma WorkDecreases(s: State, step: Step)
    requires JobSide(s) && Enabled(s, step) && Works(step)
    ensures Measure(Apply(s, step)) < Measure(s)
  {
    StepKeepsJobs(s, step);
    StepKeepsLinks(s, step);
    WorkerStep(s, step, Apply(s, step));
    AllJobsKnown(s, Apply(s, step));
    WorkMeasured(s, Apply(s, step), step.w);
  }

  predicate JobsKnown(s: State, workers: seq<Worker>, queue: seq<nat>) {
    && (forall j | j in queue :: j in s.jobs)
    && (forall w | 0 <= w < |workers| && Busy(workers[w]) :: workers[w].job in s.jobs)
  }

  lemma AllJobsKnown(s: State, t: State)
    requires QueueInv(t) && OwnersInv(t) && t.jobs.Keys == s.jobs.Keys
    ensures JobsKnown(s, t.workers, t.queue)
  {
    forall j | j in t.queue
      ensures j in s.jobs
    {
      var k :| 0 <= k < |t.queue| && t.queue[k] == j;
      assert t.enqueued[|t.taken| + k] == j;
      assert j in t.jobs.Keys;
    }
    forall w | 0 <= w < |t.workers| && Busy(t.workers[w])
      ensures t.workers[w].job in s.jobs
    {
      assert t.workers[w].job in t.jobs.Keys;
    }
  }

  lemma WorkMeasured(s: State, t: State, w: nat)
    requires w < |s.workers| && |t.workers| == |s.workers| && t.workers == s.workers[w := t.workers[w]]
    requires QueueWeight(s, t.queue) + Weight(s, t.workers[w]) < QueueWeight(s, s.queue) + Weight(s, s.workers[w])
    requires SameLinks(s, t) && JobsKnown(s, t.workers, t.queue)
    ensures Measure(t) < Measure(s)
  {
    WorkerReplaced(s, s.workers, w, t.workers[w]);
    QueueWeightFrame(s, t, t.queue);
    WorkersWeightFrame(s, t, t.workers);
  }

  /** The number of steps of a run that workers make. */
  function WorkSteps(run: seq<Step>): nat {
    if run == [] then 0 else (if Works(run[0]) then 1 else 0) + WorkSteps(run[1..])
  }

  lemma IdleStep(s: State, step: Step)
    requires JobSide(s) && s.closed && Enabled(s, step) && !Works(step)
    ensures Measure(Apply(s, step)) == Measure(s)
  {
    var t := Apply(s, step);
    assert t.queue == s.queue && t.workers == s.workers && t.jobs == s.jobs;
    QueueWeightFrame(s, t, s.queue);
    WorkersWeightFrame(s, t, s.workers);
  }

  lemma StillClosed(s: State, step: Step)
    requires s.closed && Enabled(s, step)
    ensures Apply(s, step).closed
  {
  }

  /** After the last submission the workers can make no more steps than the measure, whatever else happens. */
  lemma {:induction false} ShutdownTerminates(s: State, run: seq<Step>)
    requires JobSide(s) && s.closed && Possible(s, run)
    ensures WorkSteps(run) + Measure(After(s, run)) <= Measure(s)
    decreases |run|
  {
    if run != [] {
      var t := Apply(s, run[0]);
      StepKeepsJobs(s, run[0]);
      StillClosed(s, run[0]);
      if Works(run[0]) {
        WorkDecreases(s, run[0]);
      } else {
        IdleStep(s, run[0]);
      }
      ShutdownTerminates(t, run[1..]);
    }
  }

  /** A worker that has not returned can always go on, so a shutdown cannot hang. */
  lemma ShutdownProgresses(s: State, w: nat)
    requires QueueInv(s) && NotesInv(s) && s.closed && w < |s.workers| && s.workers[w] != Exited
    ensures exists step: Step :: Works(step) && step.w == w && Enabled(s, step)
  {
    var worker := s.workers[w];
    var step :=
      match worker
      case Waiting => if s.queue == [] then Exit(w) else Take(w)
      case Creating(j, results, _, _) =>
        if |results| < |s.jobs[j].links| then Item(w, Draw(Unparsable, [], false))
        else if MustUndo(worker) then StartUndo(w) else Finish(w)
      case Undoing(_, _, created, undone) => if undone < |created| then Undo(w) else Finish(w);
    assert s.queue != [] ==> s.queue[0] in s.queue;
    assert Enabled(s, step);
  }

  // ---------------------------------------------------------------- from the beginning

  /** Every run from a start without jobs: keys, queue and histories are as they should be. */
  lemma EveryRunIsSafe(store: Store, queueSize: nat, maxItems: nat, submitters: nat, workers: nat, run: seq<Step>)
    requires NoJobYet(store) && Possible(Init(store, queueSize, maxItems, submitters, workers), run)
    ensures SafeState(After(Init(store, queueSize, maxItems, submitters, workers), run))
  {
    InitInv(store, queueSize, maxItems, submitters, workers);
    RunsAreSafe(Init(store, queueSize, maxItems, submitters, workers), run);
  }

  /** Every job that ends in such a run ends well: of a completed one exactly the rows that somebody else
      has deleted are missing. */
  lemma EveryBatchAllOrNothing(store: Store, queueSize: nat, maxItems: nat, submitters: nat, workers: nat,
      run: seq<Step>, j: nat)
    requires NoJobYet(store)
    requires var s := Init(store, queueSize, maxItems, submitters, workers);
      Possible(s, run) && j in After(s, run).jobs && Terminal(After(s, run).jobs[j].status)
    ensures var s := Init(store, queueSize, maxItems, submitters, workers);
      var t := After(s, run);
      EndedWell(t.store, t.jobs[j], j, if t.jobs[j].status == Completed then Removed(s, run, j) else 0)
  {
    var s := Init(store, queueSize, maxItems, submitters, workers);
    InitInv(store, queueSize, maxItems, submitters, workers);
    NobodyNotes(s, s.workers, j);
    assert RowSet(store, j) == {};
    BatchesAllOrNothing(s, run, j);
  }

  /** After a shutdown that has returned, every job has ended iff there are workers or nothing is queued. */
  lemma EveryJobEnds(store: Store, queueSize: nat, maxItems: nat, submitters: nat, workers: nat, run: seq<Step>)
    requires NoJobYet(store) && Possible(Init(store, queueSize, maxItems, submitters, workers), run)
    requires var t := After(Init(store, queueSize, maxItems, submitters, workers), run);
      t.closed && forall w | 0 <= w < |t.workers| :: t.workers[w] == Exited
    ensures var t := After(Init(store, queueSize, maxItems, submitters, workers), run);
      (forall j | j in t.jobs :: Terminal(t.jobs[j].status)) <==> workers > 0 || t.queue == []
  {
    InitInv(store, queueSize, maxItems, submitters, workers);
    RunKeepsJobs(Init(store, queueSize, maxItems, submitters, workers), run);
    CrewFixed(Init(store, queueSize, maxItems, submitters, workers), run);
    AllJobsEnd(After(Init(store, queueSize, maxItems, submitters, workers), run));
  }

  lemma {:induction false} CrewFixed(s: State, run: seq<Step>)
    requires Possible(s, run)
    ensures |After(s, run).workers| == |s.workers|
    decreases |run|
  {
    if run != [] {
      CrewFixed(Apply(s, run[0]), run[1..]);
    }
  }
}
