/** Batch jobs: submitters insert one job row per idempotency key and queue it, workers create the
    links of a job one by one next to everybody else's calls, and a job with a failure undoes what
    it created. Any interleaving is a sequence of the steps below. */
module BatchJobs {
  import opened Wrappers
  import opened Sequences
  import opened LinkStore

  datatype Status = Pending | Running | Completed | Failed

  datatype ItemError = Refused(error: Error) | RolledBack

  datatype ItemResult = ItemResult(url: string, shortCode: Option<string>, success: bool, error: Option<ItemError>)

  datatype Report = Nothing | QueueFull | Items(results: seq<ItemResult>)

  /** A job row, with the history of its status. */
  datatype Job = Job(userId: nat, key: string, links: seq<CreateRequest>, status: Status, totalItems: nat,
                     processed: nat, successes: nat, failures: int, report: Report, history: seq<Status>)

  /** A call of SubmitAsync between its lookup, its insert and its enqueue. */
  datatype Submitter = Idle | Looked(userId: nat, links: seq<CreateRequest>, key: string) | Inserted(job: nat)

  datatype Worker =
    | Waiting
    | Creating(job: nat, results: seq<ItemResult>, created: seq<nat>, failures: nat)
    | Undoing(job: nat, results: seq<ItemResult>, created: seq<nat>, undone: nat)
    | Exited

  datatype State = State(
    store: Store,
    jobs: map<nat, Job>,
    byKey: map<string, nat>,
    nextJob: nat,
    queue: seq<nat>,
    queueSize: nat,
    maxItems: nat,
    closed: bool,
    submitters: seq<Submitter>,
    workers: seq<Worker>,
    // what happened so far
    enqueued: seq<nat>,
    taken: seq<nat>)

  datatype Step =
    | Look(i: nat, userId: nat, links: seq<CreateRequest>, key: string)
    | InsertRow(i: nat)
    | Enqueue(i: nat)
    | Close
    | Take(w: nat)
    | Item(w: nat, draw: Draw)
    | StartUndo(w: nat)
    | Undo(w: nat)
    | Finish(w: nat)
    | Exit(w: nat)
    | Other(call: Call)

  function Init(store: Store, queueSize: nat, maxItems: nat, submitters: nat, workers: nat): State {
    State(store, map[], map[], 0, [], queueSize, maxItems, false,
          seq(submitters, _ => Idle), seq(workers, _ => Waiting), [], [])
  }

  predicate Terminal(status: Status) {
    status == Completed || status == Failed
  }

  /** What other users may do meanwhile: anything, but a job's tag is only written by its worker. */
  predicate Ordinary(call: Call) {
    call.CreateCall? ==> call.batchJob == None
  }

  // ------------------------------------------------------------------ when steps occur

  predicate CanInsert(s: State, i: nat) {
    i < |s.submitters| && s.submitters[i].Looked?
  }

  predicate CanEnqueue(s: State, i: nat) {
    i < |s.submitters| && s.submitters[i].Inserted? && s.submitters[i].job in s.jobs
  }

  predicate CanTake(s: State, w: nat) {
    w < |s.workers| && s.workers[w] == Waiting && s.queue != [] && s.queue[0] in s.jobs
  }

  predicate CanAdvance(s: State, w: nat) {
    w < |s.workers| && s.workers[w].Creating? && s.workers[w].job in s.jobs
    && |s.workers[w].results| < |s.jobs[s.workers[w].job].links|
  }

  predicate CanStartUndo(s: State, w: nat) {
    w < |s.workers| && AllTried(s, s.workers[w]) && MustUndo(s.workers[w])
  }

  predicate CanUndo(s: State, w: nat) {
    w < |s.workers| && s.workers[w].Undoing? && s.workers[w].undone < |s.workers[w].created|
  }

  predicate CanFinish(s: State, w: nat) {
    w < |s.workers|
    && ((AllTried(s, s.workers[w]) && !MustUndo(s.workers[w]))
        || (s.workers[w].Undoing? && s.workers[w].job in s.jobs && s.workers[w].undone == |s.workers[w].created|))
  }

  predicate AllTried(s: State, worker: Worker) {
    worker.Creating? && worker.job in s.jobs && |worker.results| == |s.jobs[worker.job].links|
  }

  predicate MustUndo(worker: Worker)
    requires worker.Creating?
  {
    worker.failures > 0 && worker.created != []
  }

  function SetStatus(job: Job, status: Status): Job {
    job.(status := status, history := job.history + [status])
  }

  function NewJob(submitter: Submitter): Job
    requires submitter.Looked?
  {
    Job(submitter.userId, submitter.key, submitter.links, Pending, |submitter.links|, 0, 0, 0, Nothing, [Pending])
  }

  /** The worker's notes after an item: a failure is counted, a new link remembered for a rollback. */
  function Noted(worker: Worker, req: CreateRequest, outcome: Result<Link, Error>): Worker
    requires worker.Creating?
  {
    var Creating(job, results, created, failures) := worker;
    match outcome
    case Failure(error) =>
      Creating(job, results + [ItemResult(req.url, None, false, Some(Refused(error)))], created, failures + 1)
    case Success(link) =>
      Creating(job, results + [ItemResult(req.url, Some(link.code), true, None)], created + [link.id], failures)
  }

  function Advance(s: State, w: nat, draw: Draw): State
    requires CanAdvance(s, w)
  {
    var worker := s.workers[w];
    var job := s.jobs[worker.job];
    var req := job.links[|worker.results|];
    var (store, outcome) := Create(s.store, job.userId, req, draw, Some(worker.job));
    var next := Noted(worker, req, outcome);
    var progress :=
      if |next.results| % 10 == 0 then
        job.(processed := |next.results|, successes := |next.created|, failures := next.failures)
      else job;
    s.(store := store, workers := s.workers[w := next], jobs := s.jobs[worker.job := progress])
  }

  function Unmarked(result: ItemResult): ItemResult {
    if result.success then result.(success := false, error := Some(RolledBack)) else result
  }

  function UnmarkAll(results: seq<ItemResult>): seq<ItemResult> {
    seq(|results|, k requires 0 <= k < |results| => Unmarked(results[k]))
  }

  function Closing(job: Job, worker: Worker): Job
    requires worker.Creating? || worker.Undoing?
  {
    var results := if worker.Undoing? then UnmarkAll(worker.results) else worker.results;
    var successes := if worker.Undoing? then 0 else |worker.created|;
    var failed := worker.Undoing? || worker.failures > 0;
    SetStatus(job.(processed := |job.links|, successes := successes, failures := |job.links| - successes,
                   report := Items(results)),
              if failed then Failed else Completed)
  }

  function DoLook(s: State, i: nat, userId: nat, links: seq<CreateRequest>, key: string): State
    requires i < |s.submitters|
  {
    if |links| > s.maxItems then s
    else if key in s.byKey && s.byKey[key] in s.jobs && s.jobs[s.byKey[key]].status in {Completed, Running} then s
    else s.(submitters := s.submitters[i := Looked(userId, links, key)])
  }

  function DoInsert(s: State, i: nat): State
    requires CanInsert(s, i)
  {
    var submitter := s.submitters[i];
    if submitter.key in s.byKey then s.(submitters := s.submitters[i := Idle])
    else s.(jobs := s.jobs[s.nextJob := NewJob(submitter)], byKey := s.byKey[submitter.key := s.nextJob],
            nextJob := s.nextJob + 1, submitters := s.submitters[i := Inserted(s.nextJob)])
  }

  function DoEnqueue(s: State, i: nat): State
    requires CanEnqueue(s, i)
  {
    var id := s.submitters[i].job;
    if |s.queue| < s.queueSize then
      s.(queue := s.queue + [id], enqueued := s.enqueued + [id], submitters := s.submitters[i := Idle])
    else
      s.(jobs := s.jobs[id := SetStatus(s.jobs[id].(report := QueueFull), Failed)],
          submitters := s.submitters[i := Idle])
  }

  function DoTake(s: State, w: nat): State
    requires CanTake(s, w)
  {
    var id := s.queue[0];
    s.(queue := s.queue[1..], taken := s.taken + [id], jobs := s.jobs[id := SetStatus(s.jobs[id], Running)],
       workers := s.workers[w := Creating(id, [], [], 0)])
  }

  function DoStartUndo(s: State, w: nat): State
    requires CanStartUndo(s, w)
  {
    var worker := s.workers[w];
    s.(workers := s.workers[w := Undoing(worker.job, worker.results, worker.created, 0)])
  }

  function DoUndo(s: State, w: nat): State
    requires CanUndo(s, w)
  {
    var worker := s.workers[w];
    s.(store := ForceDelete(s.store, worker.created[worker.undone]),
       workers := s.workers[w := Undoing(worker.job, worker.results, worker.created, worker.undone + 1)])
  }

  function DoFinish(s: State, w: nat): State
    requires CanFinish(s, w)
  {
    var worker := s.workers[w];
    s.(jobs := s.jobs[worker.job := Closing(s.jobs[worker.job], worker)], workers := s.workers[w := Waiting])
  }

  // ------------------------------------------------------------------------ the steps

  predicate Enabled(s: State, step: Step) {
    match step
    case Look(i, _, _, _) => i < |s.submitters| && s.submitters[i] == Idle && !s.closed
    case InsertRow(i) => CanInsert(s, i)
    case Enqueue(i) => CanEnqueue(s, i)
    case Close => forall i | 0 <= i < |s.submitters| :: s.submitters[i] == Idle
    case Take(w) => CanTake(s, w)
    case Item(w, _) => CanAdvance(s, w)
    case StartUndo(w) => CanStartUndo(s, w)
    case Undo(w) => CanUndo(s, w)
    case Finish(w) => CanFinish(s, w)
    case Exit(w) => w < |s.workers| && s.workers[w] == Waiting && s.queue == [] && s.closed
    case Other(call) => Ordinary(call)
  }

  function Apply(s: State, step: Step): State
    requires Enabled(s, step)
  {
    match step
    case Look(i, userId, links, key) => DoLook(s, i, userId, links, key)
    case InsertRow(i) => DoInsert(s, i)
    case Enqueue(i) => DoEnqueue(s, i)
    case Close => s.(closed := true)
    case Take(w) => DoTake(s, w)
    case Item(w, draw) => Advance(s, w, draw)
    case StartUndo(w) => DoStartUndo(s, w)
    case Undo(w) => DoUndo(s, w)
    case Finish(w) => DoFinish(s, w)
    case Exit(w) => s.(workers := s.workers[w := Exited])
    case Other(call) => s.(store := Perform(s.store, call).0)
  }

  predicate Possible(s: State, run: seq<Step>)
    decreases |run|
  {
    run == [] || (Enabled(s, run[0]) && Possible(Apply(s, run[0]), run[1..]))
  }

  function After(s: State, run: seq<Step>): State
    requires Possible(s, run)
    decreases |run|
  {
    if run == [] then s else After(Apply(s, run[0]), run[1..])
  }

  // ---------------------------------------------------------------------- job rows

  /** The unique index: one row per idempotency key. */
  predicate KeysInv(s: State) {
    && (forall j | j in s.jobs :: s.jobs[j].key in s.byKey && s.byKey[s.jobs[j].key] == j && j < s.nextJob)
    && forall key | key in s.byKey :: s.byKey[key] in s.jobs && s.jobs[s.byKey[key]].key == key
  }

  /** The results list the URLs of the items, in order. */
  predicate Reports(results: seq<ItemResult>, links: seq<CreateRequest>) {
    |results| <= |links| && forall k | 0 <= k < |results| :: results[k].url == links[k].url
  }

  /** No worker has counted anything yet. */
  predicate Untouched(job: Job) {
    job.processed == job.successes == job.failures == 0
  }

  /** The row of a job says what its status and history admit. */
  predicate JobInv(job: Job) {
    && job.totalItems == |job.links|
    && match job.status
       case Pending => job.history == [Pending] && Untouched(job)
       case Running => job.history == [Pending, Running]
       case Completed =>
         && job.history == [Pending, Running, Completed]
         && job.processed == job.successes == job.totalItems && job.failures == 0
         && job.report.Items? && |job.report.results| == job.totalItems && Reports(job.report.results, job.links)
         && forall k | 0 <= k < job.totalItems :: job.report.results[k].success
       case Failed =>
         || (job.history == [Pending, Failed] && job.report == QueueFull && Untouched(job))
         || (&& job.history == [Pending, Running, Failed]
             && job.processed == job.failures == job.totalItems && job.successes == 0
             && job.report.Items? && |job.report.results| == job.totalItems && Reports(job.report.results, job.links)
             && forall k | 0 <= k < job.totalItems :: !job.report.results[k].success)
  }

  predicate JobsInv(s: State) {
    forall j | j in s.jobs :: JobInv(s.jobs[j])
  }

  // ------------------------------------------------------------------ queue and owners

  /** Jobs pass through the queue in order and at most once. */
  predicate QueueInv(s: State) {
    && |s.queue| <= s.queueSize
    && s.enqueued == s.taken + s.queue
    && NoDuplicates(s.enqueued)
    && (forall j | j in s.enqueued :: j in s.jobs)
    && (forall j | j in s.queue :: s.jobs[j].status == Pending)
  }

  predicate SubmittersInv(s: State) {
    && (forall i | 0 <= i < |s.submitters| && s.submitters[i].Inserted? ::
          s.submitters[i].job in s.jobs && s.jobs[s.submitters[i].job].status == Pending
          && s.submitters[i].job !in s.enqueued)
    && (forall i, k | 0 <= i < k < |s.submitters| && s.submitters[i].Inserted? && s.submitters[k].Inserted? ::
          s.submitters[i].job != s.submitters[k].job)
    && (forall j | j in s.jobs && s.jobs[j].status == Pending ::
          j in s.queue || exists i | 0 <= i < |s.submitters| :: s.submitters[i] == Inserted(j))
    && (s.closed ==> forall i | 0 <= i < |s.submitters| :: s.submitters[i] == Idle)
  }

  predicate Busy(worker: Worker) {
    worker.Creating? || worker.Undoing?
  }

  predicate Holds(worker: Worker, j: nat) {
    Busy(worker) && worker.job == j
  }

  /** A running job has exactly one worker. */
  predicate OwnersInv(s: State) {
    && (forall w | 0 <= w < |s.workers| && Busy(s.workers[w]) ::
          s.workers[w].job in s.jobs && s.jobs[s.workers[w].job].status == Running)
    && (forall v, w | 0 <= v < w < |s.workers| && Busy(s.workers[v]) ::
          !Holds(s.workers[w], s.workers[v].job))
    && (forall j | j in s.jobs && s.jobs[j].status == Running ::
          exists w | 0 <= w < |s.workers| :: Holds(s.workers[w], j))
    && ((exists w | 0 <= w < |s.workers| :: s.workers[w] == Exited) ==> s.closed && s.queue == [])
  }

  // ---------------------------------------------------------------------------- notes

  /** What a worker has noted about its items is consistent in itself. */
  predicate NotesOk(links: seq<CreateRequest>, worker: Worker) {
    match worker
    case Creating(_, results, created, failures) =>
      && Reports(results, links)
      && |created| + failures == |results|
      && (failures == 0 ==> forall k | 0 <= k < |results| :: results[k].success)
      && (created == [] ==> forall k | 0 <= k < |results| :: !results[k].success)
    case Undoing(_, results, created, undone) =>
      Reports(results, links) && |results| == |links| && undone <= |created|
    case _ => true
  }

  predicate NotesInv(s: State) {
    forall w | 0 <= w < |s.workers| && Busy(s.workers[w]) ::
      s.workers[w].job in s.jobs && NotesOk(s.jobs[s.workers[w].job].links, s.workers[w])
  }

  predicate JobSide(s: State) {
    KeysInv(s) && JobsInv(s) && QueueInv(s) && SubmittersInv(s) && OwnersInv(s) && NotesInv(s)
  }

  predicate SameLinks(s: State, t: State) {
    forall j | j in s.jobs :: j in t.jobs && t.jobs[j].links == s.jobs[j].links
  }

  lemma NotesFrame(s: State, t: State)
    requires NotesInv(s) && t.workers == s.workers && SameLinks(s, t)
    ensures NotesInv(t)
  {
  }

  lemma NotesReplaced(s: State, t: State, w: nat, worker: Worker)
    requires NotesInv(s) && w < |s.workers| && t.workers == s.workers[w := worker] && SameLinks(s, t)
    requires Busy(worker) ==> worker.job in t.jobs && NotesOk(t.jobs[worker.job].links, worker)
    ensures NotesInv(t)
  {
  }

  // ------------------------------------------------------------ steps of submitters

  lemma LookKeepsJobs(s: State, i: nat, userId: nat, links: seq<CreateRequest>, key: string)
    requires JobSide(s) && i < |s.submitters| && s.submitters[i] == Idle && !s.closed
    ensures JobSide(DoLook(s, i, userId, links, key))
  {
    LookKeepsSubmitters(s, i, userId, links, key);
    LookKeepsOwners(s, i, userId, links, key);
    NotesFrame(s, DoLook(s, i, userId, links, key));
  }

  lemma LookKeepsSubmitters(s: State, i: nat, userId: nat, links: seq<CreateRequest>, key: string)
    requires SubmittersInv(s) && i < |s.submitters| && s.submitters[i] == Idle && !s.closed
    ensures SubmittersInv(DoLook(s, i, userId, links, key))
  {
    var t := DoLook(s, i, userId, links, key);
    forall j, k | 0 <= k < |s.submitters| && s.submitters[k] == Inserted(j)
      ensures t.submitters[k] == Inserted(j)
    {
    }
  }

  lemma LookKeepsOwners(s: State, i: nat, userId: nat, links: seq<CreateRequest>, key: string)
    requires OwnersInv(s) && i < |s.submitters|
    ensures OwnersInv(DoLook(s, i, userId, links, key))
  {
  }

  lemma InsertKeepsJobs(s: State, i: nat)
    requires JobSide(s) && CanInsert(s, i)
    ensures JobSide(DoInsert(s, i))
  {
    InsertKeepsTable(s, i);
    InsertKeepsSubmitters(s, i);
    InsertKeepsOwners(s, i);
    NotesFrame(s, DoInsert(s, i));
  }

  lemma InsertKeepsTable(s: State, i: nat)
    requires KeysInv(s) && JobsInv(s) && QueueInv(s) && CanInsert(s, i)
    ensures KeysInv(DoInsert(s, i)) && JobsInv(DoInsert(s, i)) && QueueInv(DoInsert(s, i))
  {
  }

  lemma InsertKeepsSubmitters(s: State, i: nat)
    requires KeysInv(s) && QueueInv(s) && SubmittersInv(s) && CanInsert(s, i)
    ensures SubmittersInv(DoInsert(s, i))
  {
    var t := DoInsert(s, i);
    forall j | j in t.jobs && t.jobs[j].status == Pending && j !in t.queue
      ensures exists k | 0 <= k < |t.submitters| :: t.submitters[k] == Inserted(j)
    {
      if j in s.jobs {
        var k :| 0 <= k < |s.submitters| && s.submitters[k] == Inserted(j);
        assert t.submitters[k] == Inserted(j);
      } else {
        assert t.submitters[i] == Inserted(j);
      }
    }
  }

  lemma InsertKeepsOwners(s: State, i: nat)
    requires KeysInv(s) && OwnersInv(s) && CanInsert(s, i)
    ensures OwnersInv(DoInsert(s, i))
  {
    var t := DoInsert(s, i);
    forall j | j in t.jobs && t.jobs[j].status == Running
      ensures exists w | 0 <= w < |t.workers| :: Holds(t.workers[w], j)
    {
      assert j in s.jobs;
    }
  }

  lemma EnqueueKeepsJobs(s: State, i: nat)
    requires JobSide(s) && CanEnqueue(s, i)
    ensures JobSide(DoEnqueue(s, i))
  {
    EnqueueKeepsTable(s, i);
    EnqueueKeepsQueue(s, i);
    EnqueueKeepsSubmitters(s, i);
    EnqueueKeepsOwners(s, i);
    NotesFrame(s, DoEnqueue(s, i));
  }

  lemma EnqueueKeepsTable(s: State, i: nat)
    requires KeysInv(s) && JobsInv(s) && SubmittersInv(s) && CanEnqueue(s, i)
    ensures KeysInv(DoEnqueue(s, i)) && JobsInv(DoEnqueue(s, i))
  {
    assert JobInv(s.jobs[s.submitters[i].job]);
  }

  lemma EnqueueKeepsQueue(s: State, i: nat)
    requires QueueInv(s) && SubmittersInv(s) && CanEnqueue(s, i)
    ensures QueueInv(DoEnqueue(s, i))
  {
    var t, id := DoEnqueue(s, i), s.submitters[i].job;
    if |s.queue| < s.queueSize {
      assert t.enqueued == t.taken + t.queue;
    } else {
      assert id !in s.queue;
    }
  }

  lemma EnqueueKeepsSubmitters(s: State, i: nat)
    requires SubmittersInv(s) && CanEnqueue(s, i)
    ensures SubmittersInv(DoEnqueue(s, i))
  {
    var t, id := DoEnqueue(s, i), s.submitters[i].job;
    forall j | j in t.jobs && t.jobs[j].status == Pending && j !in t.queue
      ensures exists k | 0 <= k < |t.submitters| :: t.submitters[k] == Inserted(j)
    {
      assert j != id && j !in s.queue;
      var k :| 0 <= k < |s.submitters| && s.submitters[k] == Inserted(j);
      assert k != i;
      assert t.submitters[k] == Inserted(j);
    }
  }

  lemma EnqueueKeepsOwners(s: State, i: nat)
    requires SubmittersInv(s) && OwnersInv(s) && CanEnqueue(s, i)
    ensures OwnersInv(DoEnqueue(s, i))
  {
    var t := DoEnqueue(s, i);
    forall j | j in t.jobs && t.jobs[j].status == Running
      ensures exists w | 0 <= w < |t.workers| :: Holds(t.workers[w], j)
    {
      assert s.jobs[j].status == Running;
    }
  }

  lemma CloseKeepsJobs(s: State)
    requires JobSide(s) && forall i | 0 <= i < |s.submitters| :: s.submitters[i] == Idle
    ensures JobSide(s.(closed := true))
  {
    NotesFrame(s, s.(closed := true));
  }

  // -------------------------------------------------------------- steps of workers

  lemma ExitKeepsJobs(s: State, w: nat)
    requires JobSide(s) && w < |s.workers| && s.workers[w] == Waiting && s.queue == [] && s.closed
    ensures JobSide(s.(workers := s.workers[w := Exited]))
  {
    ExitKeepsOwners(s, w);
    NotesReplaced(s, s.(workers := s.workers[w := Exited]), w, Exited);
  }

  lemma ExitKeepsOwners(s: State, w: nat)
    requires OwnersInv(s) && w < |s.workers| && s.workers[w] == Waiting && s.queue == [] && s.closed
    ensures OwnersInv(s.(workers := s.workers[w := Exited]))
  {
    var t := s.(workers := s.workers[w := Exited]);
    forall j | j in t.jobs && t.jobs[j].status == Running
      ensures exists v | 0 <= v < |t.workers| :: Holds(t.workers[v], j)
    {
      var v :| 0 <= v < |s.workers| && Holds(s.workers[v], j);
      assert Holds(t.workers[v], j);
    }
  }

  lemma HeadLeavesQueue(s: State)
    requires QueueInv(s) && s.queue != []
    ensures s.queue[0] !in s.queue[1..] && s.enqueued == (s.taken + [s.queue[0]]) + s.queue[1..]
  {
    assert forall k | 0 <= k < |s.queue| :: s.enqueued[|s.taken| + k] == s.queue[k];
  }

  lemma TakeKeepsJobs(s: State, w: nat)
    requires JobSide(s) && CanTake(s, w)
    ensures JobSide(DoTake(s, w))
  {
    TakeKeepsTable(s, w);
    TakeKeepsQueue(s, w);
    TakeKeepsSubmitters(s, w);
    TakeKeepsOwners(s, w);
    TakeKeepsNotes(s, w);
  }

  lemma TakeKeepsNotes(s: State, w: nat)
    requires NotesInv(s) && CanTake(s, w)
    ensures NotesInv(DoTake(s, w))
  {
    NotesReplaced(s, DoTake(s, w), w, Creating(s.queue[0], [], [], 0));
  }

  lemma TakeKeepsTable(s: State, w: nat)
    requires KeysInv(s) && JobsInv(s) && QueueInv(s) && CanTake(s, w)
    ensures KeysInv(DoTake(s, w)) && JobsInv(DoTake(s, w))
  {
    assert s.queue[0] in s.queue;
    assert JobInv(s.jobs[s.queue[0]]);
  }

  lemma TakeKeepsQueue(s: State, w: nat)
    requires QueueInv(s) && CanTake(s, w)
    ensures QueueInv(DoTake(s, w))
  {
    HeadLeavesQueue(s);
    assert s.queue[0] in s.queue;
  }

  lemma TakeKeepsSubmitters(s: State, w: nat)
    requires QueueInv(s) && SubmittersInv(s) && CanTake(s, w)
    ensures SubmittersInv(DoTake(s, w))
  {
    var t := DoTake(s, w);
    assert s.queue == [s.queue[0]] + s.queue[1..];
    assert s.queue[0] in s.enqueued by {
      assert s.enqueued[|s.taken|] == s.queue[0];
    }
  }

  lemma TakeKeepsOwners(s: State, w: nat)
    requires QueueInv(s) && OwnersInv(s) && CanTake(s, w)
    ensures OwnersInv(DoTake(s, w))
  {
    var t, id := DoTake(s, w), s.queue[0];
    assert id in s.queue;
    forall j | j in t.jobs && t.jobs[j].status == Running
      ensures exists v | 0 <= v < |t.workers| :: Holds(t.workers[v], j)
    {
      if j == id {
        assert Holds(t.workers[w], j);
      } else {
        var v :| 0 <= v < |s.workers| && Holds(s.workers[v], j);
        assert Holds(t.workers[v], j);
      }
    }
  }

  /** t is s after worker w has gone on with its job: its notes, the job's progress and the store may differ. */
  predicate WentOn(s: State, w: nat, worker: Worker, job: Job, t: State) {
    && w < |s.workers| && Busy(s.workers[w]) && Holds(worker, s.workers[w].job)
    && s.workers[w].job in s.jobs && s.jobs[s.workers[w].job].status == Running
    && JobInv(job) && job.status == Running && NotesOk(job.links, worker)
    && job.key == s.jobs[s.workers[w].job].key && job.links == s.jobs[s.workers[w].job].links
    && t == s.(store := t.store, workers := s.workers[w := worker], jobs := s.jobs[s.workers[w].job := job])
  }

  lemma WentOnKeepsTable(s: State, w: nat, worker: Worker, job: Job, t: State)
    requires KeysInv(s) && JobsInv(s) && QueueInv(s) && WentOn(s, w, worker, job, t)
    ensures KeysInv(t) && JobsInv(t) && QueueInv(t)
  {
  }

  lemma WentOnKeepsSubmitters(s: State, w: nat, worker: Worker, job: Job, t: State)
    requires SubmittersInv(s) && WentOn(s, w, worker, job, t)
    ensures SubmittersInv(t)
  {
    forall i | i in t.jobs && t.jobs[i].status == Pending
      ensures i in t.queue || exists k | 0 <= k < |t.submitters| :: t.submitters[k] == Inserted(i)
    {
      assert i in s.jobs && s.jobs[i].status == Pending;
    }
  }

  lemma WentOnKeepsOwners(s: State, w: nat, worker: Worker, job: Job, t: State)
    requires OwnersInv(s) && WentOn(s, w, worker, job, t)
    ensures OwnersInv(t)
  {
    forall i | i in t.jobs && t.jobs[i].status == Running
      ensures exists v | 0 <= v < |t.workers| :: Holds(t.workers[v], i)
    {
      var v :| 0 <= v < |s.workers| && Holds(s.workers[v], i);
      assert Holds(t.workers[v], i);
    }
  }

  lemma WentOnKeepsJobs(s: State, w: nat, worker: Worker, job: Job, t: State)
    requires JobSide(s) && WentOn(s, w, worker, job, t)
    ensures JobSide(t)
  {
    WentOnKeepsTable(s, w, worker, job, t);
    WentOnKeepsSubmitters(s, w, worker, job, t);
    WentOnKeepsOwners(s, w, worker, job, t);
    NotesReplaced(s, t, w, worker);
  }

  lemma ItemKeepsJobs(s: State, w: nat, draw: Draw)
    requires JobSide(s) && CanAdvance(s, w)
    ensures JobSide(Advance(s, w, draw))
  {
    var t := Advance(s, w, draw);
    ItemWentOn(s, w, draw);
    WentOnKeepsJobs(s, w, t.workers[w], t.jobs[s.workers[w].job], t);
  }

  lemma ItemWentOn(s: State, w: nat, draw: Draw)
    requires JobsInv(s) && OwnersInv(s) && NotesInv(s) && CanAdvance(s, w)
    ensures var t, j := Advance(s, w, draw), s.workers[w].job;
      j in t.jobs && t.jobs[j].links == s.jobs[j].links && WentOn(s, w, t.workers[w], t.jobs[j], t)
  {
    var worker, job := s.workers[w], s.jobs[s.workers[w].job];
    assert JobInv(job);
    var req := job.links[|worker.results|];
    NotedOk(job.links, worker, req, Create(s.store, job.userId, req, draw, Some(worker.job)).1);
  }

  lemma NotedOk(links: seq<CreateRequest>, worker: Worker, req: CreateRequest, outcome: Result<Link, Error>)
    requires worker.Creating? && NotesOk(links, worker) && |worker.results| < |links|
    requires req == links[|worker.results|]
    ensures NotesOk(links, Noted(worker, req, outcome))
  {
  }

  lemma StartUndoKeepsJobs(s: State, w: nat)
    requires JobSide(s) && CanStartUndo(s, w)
    ensures JobSide(DoStartUndo(s, w))
  {
    var j, t := s.workers[w].job, DoStartUndo(s, w);
    assert s.jobs[j := s.jobs[j]] == s.jobs;
    WentOnKeepsJobs(s, w, t.workers[w], s.jobs[j], t);
  }

  lemma UndoKeepsJobs(s: State, w: nat)
    requires JobSide(s) && CanUndo(s, w)
    ensures JobSide(DoUndo(s, w))
  {
    var j, t := s.workers[w].job, DoUndo(s, w);
    assert s.jobs[j := s.jobs[j]] == s.jobs;
    WentOnKeepsJobs(s, w, t.workers[w], s.jobs[j], t);
  }

  /** The last step of a job sets counters, report and status as the notes have it. */
  lemma ClosingOk(job: Job, worker: Worker)
    requires JobInv(job) && job.status == Running && NotesOk(job.links, worker)
    requires worker.Creating? ==> |worker.results| == |job.links| && !MustUndo(worker)
    requires worker.Creating? || worker.Undoing?
    ensures JobInv(Closing(job, worker)) && Terminal(Closing(job, worker).status)
    ensures Closing(job, worker).status == Completed <==> worker.Creating? && worker.failures == 0
  {
    if worker.Undoing? {
      assert forall k | 0 <= k < |worker.results| :: !UnmarkAll(worker.results)[k].success;
    }
  }

  lemma FinishKeepsJobs(s: State, w: nat)
    requires JobSide(s) && CanFinish(s, w)
    ensures JobSide(DoFinish(s, w))
  {
    FinishEndsJob(s, w);
    FinishKeepsTable(s, w);
    FinishKeepsQueue(s, w);
    FinishKeepsSubmitters(s, w);
    FinishKeepsOwners(s, w);
    FinishKeepsNotes(s, w);
  }

  /** It ends the job, and completes it iff no item has failed. */
  lemma FinishEndsJob(s: State, w: nat)
    requires JobsInv(s) && OwnersInv(s) && NotesInv(s) && CanFinish(s, w)
    ensures var worker := s.workers[w];
      && worker.job in DoFinish(s, w).jobs
      && var job := DoFinish(s, w).jobs[worker.job];
         JobInv(job) && Terminal(job.status) && (job.status == Completed <==> worker.Creating? && worker.failures == 0)
  {
    assert JobInv(s.jobs[s.workers[w].job]);
    ClosingOk(s.jobs[s.workers[w].job], s.workers[w]);
  }

  lemma FinishKeepsNotes(s: State, w: nat)
    requires NotesInv(s) && CanFinish(s, w)
    ensures NotesInv(DoFinish(s, w))
  {
    NotesReplaced(s, DoFinish(s, w), w, Waiting);
  }

  lemma FinishKeepsTable(s: State, w: nat)
    requires KeysInv(s) && JobsInv(s) && CanFinish(s, w) && JobInv(DoFinish(s, w).jobs[s.workers[w].job])
    ensures KeysInv(DoFinish(s, w)) && JobsInv(DoFinish(s, w))
  {
  }

  lemma FinishKeepsQueue(s: State, w: nat)
    requires QueueInv(s) && OwnersInv(s) && CanFinish(s, w)
    ensures QueueInv(DoFinish(s, w))
  {
  }

  lemma FinishKeepsSubmitters(s: State, w: nat)
    requires SubmittersInv(s) && OwnersInv(s) && CanFinish(s, w)
    ensures SubmittersInv(DoFinish(s, w))
  {
    var t := DoFinish(s, w);
    forall i | i in t.jobs && t.jobs[i].status == Pending
      ensures i in t.queue || exists k | 0 <= k < |t.submitters| :: t.submitters[k] == Inserted(i)
    {
      assert i in s.jobs && s.jobs[i].status == Pending;
    }
  }

  lemma FinishKeepsOwners(s: State, w: nat)
    requires OwnersInv(s) && CanFinish(s, w)
    ensures OwnersInv(DoFinish(s, w))
  {
    var t := DoFinish(s, w);
    forall i | i in t.jobs && t.jobs[i].status == Running
      ensures exists v | 0 <= v < |t.workers| :: Holds(t.workers[v], i)
    {
      var v :| 0 <= v < |s.workers| && Holds(s.workers[v], i);
      assert Holds(t.workers[v], i);
    }
  }

  lemma OtherKeepsJobs(s: State, t: State)
    requires JobSide(s) && t == s.(store := t.store)
    ensures JobSide(t)
  {
    NotesFrame(s, t);
  }

  /** Whatever other users do: every step keeps the job rows, the queue, the submitters and the notes. */
  lemma StepKeepsJobs(s: State, step: Step)
    requires JobSide(s) && Enabled(s, step)
    ensures JobSide(Apply(s, step))
  {
    match step
    case Look(i, userId, links, key) => LookKeepsJobs(s, i, userId, links, key);
    case InsertRow(i) => InsertKeepsJobs(s, i);
    case Enqueue(i) => EnqueueKeepsJobs(s, i);
    case Close => CloseKeepsJobs(s);
    case Take(w) => TakeKeepsJobs(s, w);
    case Item(w, draw) => ItemKeepsJobs(s, w, draw);
    case StartUndo(w) => StartUndoKeepsJobs(s, w);
    case Undo(w) => UndoKeepsJobs(s, w);
    case Finish(w) => FinishKeepsJobs(s, w);
    case Exit(w) => ExitKeepsJobs(s, w);
    case Other(call) => OtherKeepsJobs(s, Apply(s, step));
  }
}
