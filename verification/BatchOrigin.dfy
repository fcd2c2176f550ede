/** Jobs, their rows and their reports, traced back to the submissions of the run: nobody's URLs are changed,
    left out or given to another user on the way. */
module BatchOrigin {
  import opened Wrappers
  import opened Sequences
  import opened LinkStore
  import opened BatchJobs
  import BatchRows
  import BatchBalance
  import BatchRuns

  // --------------------------------------------------------------- where jobs come from

  /** The step starts a submission of what the job holds. */
  predicate Asks(step: Step, job: Job) {
    step.Look? && step.userId == job.userId && step.links == job.links && step.key == job.key
  }

  predicate AskedIn(run: seq<Step>, job: Job) {
    exists k | 0 <= k < |run| :: Asks(run[k], job)
  }

  /** A submission of what the job holds is on its way. */
  predicate LookedFor(s: State, job: Job) {
    exists i | 0 <= i < |s.submitters| :: s.submitters[i] == Looked(job.userId, job.links, job.key)
  }

  predicate SameOrder(before: Job, after: Job) {
    after.userId == before.userId && after.links == before.links && after.key == before.key
  }

  lemma StepOrigin(s: State, step: Step, j: nat)
    requires KeysInv(s) && Enabled(s, step) && j in Apply(s, step).jobs
    ensures (j in s.jobs && SameOrder(s.jobs[j], Apply(s, step).jobs[j])) || LookedFor(s, Apply(s, step).jobs[j])
  {
    if step.InsertRow? && j == s.nextJob && j !in s.jobs {
      assert s.submitters[step.i] == Looked(s.submitters[step.i].userId, s.submitters[step.i].links,
          s.submitters[step.i].key);
    }
  }

  lemma LookOrigin(s: State, step: Step, job: Job)
    requires Enabled(s, step) && LookedFor(Apply(s, step), job)
    ensures LookedFor(s, job) || Asks(step, job)
  {
    var t := Apply(s, step);
    var i :| 0 <= i < |t.submitters| && t.submitters[i] == Looked(job.userId, job.links, job.key);
    if t.submitters[i] == s.submitters[i] {
      assert LookedFor(s, job);
    }
  }

  lemma AskedLater(run: seq<Step>, job: Job)
    requires run != [] && AskedIn(run[1..], job)
    ensures AskedIn(run, job)
  {
    var k :| 0 <= k < |run[1..]| && Asks(run[1..][k], job);
    assert run[k + 1] == run[1..][k];
  }

  lemma OneStepOrigin(s: State, step: Step, job: Job, j: nat)
    requires KeysInv(s) && Enabled(s, step)
    requires (j in Apply(s, step).jobs && SameOrder(Apply(s, step).jobs[j], job)) || LookedFor(Apply(s, step), job)
    ensures (j in s.jobs && SameOrder(s.jobs[j], job)) || LookedFor(s, job) || Asks(step, job)
  {
    if j in Apply(s, step).jobs && SameOrder(Apply(s, step).jobs[j], job) {
      StepOrigin(s, step, j);
    } else {
      LookOrigin(s, step, job);
    }
  }

  /** Every job is an old one, or was submitted in the run, by its owner and with just its items. */
  lemma {:induction false} JobsAreSubmissions(s: State, run: seq<Step>, j: nat)
    requires JobSide(s) && Possible(s, run) && j in After(s, run).jobs
    ensures var job := After(s, run).jobs[j];
      (j in s.jobs && SameOrder(s.jobs[j], job)) || LookedFor(s, job) || AskedIn(run, job)
    decreases |run|
  {
    if run != [] {
      var job := After(s, run).jobs[j];
      StepKeepsJobs(s, run[0]);
      JobsAreSubmissions(Apply(s, run[0]), run[1..], j);
      if AskedIn(run[1..], job) {
        AskedLater(run, job);
      } else {
        OneStepOrigin(s, run[0], job, j);
        assert Asks(run[0], job) ==> AskedIn(run, job);
      }
    }
  }

  // ---------------------------------------------------------------- whose the rows are

  /** A tagged row belongs to the owner of its job. */
  predicate OwnersAgree(s: State) {
    forall id | id in s.store.table.rows && s.store.table.rows[id].batchJob.Some? ::
      var j := s.store.table.rows[id].batchJob.value;
      j in s.jobs && s.store.table.rows[id].userId == s.jobs[j].userId
  }

  /** Rows keep tag and owner, and a new one with a tag is this user's and for this job. */
  predicate RowsFrom(before: Store, after: Store, userId: nat, tag: Option<nat>) {
    forall id | id in after.table.rows ::
      var row := after.table.rows[id];
      || (id in before.table.rows && before.table.rows[id].batchJob == row.batchJob
          && before.table.rows[id].userId == row.userId)
      || (row.batchJob == tag && (tag.Some? ==> row.userId == userId))
  }

  lemma CallRows(s: Store, call: Call)
    requires LinkStore.Inv(s) && Ordinary(call)
    ensures RowsFrom(s, Perform(s, call).0, 0, None)
  {
    if call.ResolveCall? {
      ResolveAnswersTable(s, call.code);
    }
  }

  lemma StepRows(s: State, step: Step)
    requires LinkStore.Inv(s.store) && Enabled(s, step)
    ensures var t := Apply(s, step);
      if step.Item? then RowsFrom(s.store, t.store, s.jobs[s.workers[step.w].job].userId, Some(s.workers[step.w].job))
      else RowsFrom(s.store, t.store, 0, None)
  {
    if step.Other? {
      CallRows(s.store, step.call);
    }
  }

  lemma StepKeepsOwners(s: State, step: Step)
    requires LinkStore.Inv(s.store) && KeysInv(s) && OwnersAgree(s) && Enabled(s, step)
    ensures OwnersAgree(Apply(s, step))
  {
    StepRows(s, step);
    OrdersStay(s, step, Apply(s, step));
  }

  lemma OrdersStay(s: State, step: Step, t: State)
    requires KeysInv(s) && Enabled(s, step) && t == Apply(s, step)
    ensures forall j | j in s.jobs :: j in t.jobs && t.jobs[j].userId == s.jobs[j].userId
  {
    forall j | j in s.jobs
      ensures j in t.jobs && t.jobs[j].userId == s.jobs[j].userId
    {
      BatchRuns.StepExtends(s, step, j);
    }
  }

  // ---------------------------------------------------------- what the notes and reports tell

  function Successes(results: seq<ItemResult>): (n: nat)
    ensures n <= |results|
  {
    if results == [] then 0
    else Successes(results[..|results| - 1]) + if results[|results| - 1].success then 1 else 0
  }

  lemma OneMore(results: seq<ItemResult>, result: ItemResult)
    ensures Successes(results + [result]) == Successes(results) + if result.success then 1 else 0
  {
    assert (results + [result])[..|results|] == results;
  }

  lemma {:induction false} SomeFailed(results: seq<ItemResult>) returns (k: nat)
    requires Successes(results) < |results|
    ensures k < |results| && !results[k].success
  {
    var last := |results| - 1;
    if results[last].success {
      k := SomeFailed(results[..last]);
    } else {
      k := last;
    }
  }

  /** A code for a link that was made, a reason for one that was not. */
  predicate Told(result: ItemResult) {
    if result.success then result.shortCode.Some? && result.error == None
    else result.shortCode == None && result.error.Some? && result.error.value.Refused?
  }

  /** The worker's notes list the code or the reason for each item, and count both kinds. */
  predicate Detailed(worker: Worker) {
    Busy(worker) ==>
      && (forall k | 0 <= k < |worker.results| :: Told(worker.results[k]))
      && |worker.created| == Successes(worker.results)
      && (worker.Creating? ==> worker.failures == |worker.results| - Successes(worker.results))
      && (worker.Undoing? ==> Successes(worker.results) < |worker.results|)
  }

  /** The counters of a running job are those of its items up to the last tenth one. */
  predicate Progressed(job: Job, results: seq<ItemResult>) {
    var n := |results| - |results| % 10;
    job.processed == n && job.successes == Successes(results[..n]) && job.failures == n - Successes(results[..n])
  }

  /** The reason for an item of a failed batch: its own, or that others have failed; then its code is still listed. */
  predicate ToldFailed(result: ItemResult) {
    && !result.success && result.error.Some?
    && (result.error.value.Refused? <==> result.shortCode == None)
  }

  predicate Refusal(result: ItemResult) {
    result.error.Some? && result.error.value.Refused?
  }

  /** A completed job reports a code for each item; a failed one that was worked on, a reason for each item, and at
      least one item was refused. */
  predicate Explained(job: Job) {
    match job.status
    case Completed =>
      job.report.Items? ==> forall k | 0 <= k < |job.report.results| ::
        job.report.results[k].success && Told(job.report.results[k])
    case Failed =>
      job.report.Items? ==>
        && (forall k | 0 <= k < |job.report.results| :: ToldFailed(job.report.results[k]))
        && exists k | 0 <= k < |job.report.results| :: Refusal(job.report.results[k])
    case _ => true
  }

  predicate TellingInv(s: State) {
    && (forall w | 0 <= w < |s.workers| && Busy(s.workers[w]) ::
          && Detailed(s.workers[w]) && s.workers[w].job in s.jobs
          && Progressed(s.jobs[s.workers[w].job], s.workers[w].results))
    && forall j | j in s.jobs :: Explained(s.jobs[j])
  }

  lemma NotedDetailed(worker: Worker, req: CreateRequest, outcome: Result<Link, Error>)
    requires worker.Creating? && Detailed(worker)
    ensures Detailed(Noted(worker, req, outcome))
  {
    var next := Noted(worker, req, outcome);
    OneMore(worker.results, next.results[|worker.results|]);
  }

  /** The items up to the last tenth one stay the same until the next tenth one. */
  lemma LastTenth(results: seq<ItemResult>, result: ItemResult)
    ensures var next := results + [result];
      var n, m := |results| - |results| % 10, |next| - |next| % 10;
      if |next| % 10 == 0 then m == |next| && next[..m] == next else m == n && next[..m] == results[..n]
  {
  }

  /** The progress update after every tenth item. */
  lemma ItemProgressed(s: State, w: nat, draw: Draw)
    requires CanAdvance(s, w) && Detailed(s.workers[w])
    requires Progressed(s.jobs[s.workers[w].job], s.workers[w].results)
    ensures var t, j := Advance(s, w, draw), s.workers[w].job;
      && Detailed(t.workers[w]) && Progressed(t.jobs[j], t.workers[w].results)
      && t.jobs[j].status == s.jobs[j].status && t.jobs[j].report == s.jobs[j].report
  {
    var worker, job := s.workers[w], s.jobs[s.workers[w].job];
    var req := job.links[|worker.results|];
    var next := Noted(worker, req, Create(s.store, job.userId, req, draw, Some(worker.job)).1);
    assert Advance(s, w, draw).workers[w] == next;
    NotedDetailed(worker, req, Create(s.store, job.userId, req, draw, Some(worker.job)).1);
    LastTenth(worker.results, next.results[|worker.results|]);
    assert next.results == worker.results + [next.results[|worker.results|]];
  }

  /** One more item: a link of the owner's as the item asks for it, tagged, or nothing but the reason. */
  lemma ItemMakesLink(s: State, w: nat, draw: Draw)
    requires LinkStore.Inv(s.store) && CanAdvance(s, w)
    ensures var worker, t := s.workers[w], Advance(s, w, draw);
      var j, req := worker.job, s.jobs[worker.job].links[|worker.results|];
      if Creatable(s.store, req, draw) then
        var id := s.store.table.nextId;
        id in t.store.table.rows && var row := t.store.table.rows[id];
        && t.store.table.rows == s.store.table.rows[id := row]
        && (row.userId, row.url, row.title, row.batchJob) == (s.jobs[j].userId, req.url, req.title, Some(j))
        && row.status == "active" && row.expiresAt == req.expiresAt
        && t.workers[w] == Creating(j, worker.results + [ItemResult(req.url, Some(row.code), true, None)],
                                    worker.created + [id], worker.failures)
      else
        && t.store == s.store
        && t.workers[w] == Creating(j,
             worker.results + [ItemResult(req.url, None, false, Some(Refused(WhyRefused(s.store.table, req, draw))))],
             worker.created, worker.failures + 1)
  {
    var job := s.jobs[s.workers[w].job];
    var req := job.links[|s.workers[w].results|];
    CreatedResolves(s.store, job.userId, req, draw, Some(s.workers[w].job));
    CreatedIsCached(s.store, job.userId, req, draw, Some(s.workers[w].job));
    assert Advance(s, w, draw).workers[w]
        == Noted(s.workers[w], req, Create(s.store, job.userId, req, draw, Some(s.workers[w].job)).1);
  }

  lemma ClosingExplained(job: Job, worker: Worker)
    requires Busy(worker) && Detailed(worker) && (worker.Creating? ==> !MustUndo(worker))
    ensures Explained(Closing(job, worker))
  {
    if worker.Undoing? || worker.failures > 0 {
      var k := SomeFailed(worker.results);
      assert Refusal(Closing(job, worker).report.results[k]);
      NoneMade(worker.results);
    } else {
      AllMade(worker.results);
    }
  }

  lemma {:induction false} NoneMade(results: seq<ItemResult>)
    ensures Successes(results) == 0 ==> forall k | 0 <= k < |results| :: !results[k].success
  {
    if results != [] {
      NoneMade(results[..|results| - 1]);
    }
  }

  lemma {:induction false} AllMade(results: seq<ItemResult>)
    ensures Successes(results) == |results| ==> forall k | 0 <= k < |results| :: results[k].success
  {
    if results != [] {
      AllMade(results[..|results| - 1]);
    }
  }

  lemma ActorTells(s: State, step: Step, w: nat, t: State)
    requires JobsInv(s) && QueueInv(s) && TellingInv(s) && Enabled(s, step) && BatchRows.Acts(step, w)
    requires t == Apply(s, step) && w < |t.workers| && Busy(t.workers[w])
    ensures Detailed(t.workers[w]) && t.workers[w].job in t.jobs
    ensures Progressed(t.jobs[t.workers[w].job], t.workers[w].results)
  {
    match step {
      case Take(_) =>
        assert s.queue[0] in s.queue && JobInv(s.jobs[s.queue[0]]);
        assert t.workers[w] == Creating(s.queue[0], [], [], 0);
      case Item(_, draw) => ItemProgressed(s, w, draw);
      case _ =>
    }
  }

  lemma OthersTell(s: State, step: Step, v: nat, t: State)
    requires JobSide(s) && TellingInv(s) && Enabled(s, step) && !BatchRows.Acts(step, v)
    requires t == Apply(s, step) && v < |t.workers| && Busy(t.workers[v])
    ensures Detailed(t.workers[v]) && t.workers[v].job in t.jobs
    ensures Progressed(t.jobs[t.workers[v].job], t.workers[v].results)
  {
    BatchRows.SameCrew(s, step, v);
    BatchRows.OthersRest(s, step, v);
    NotTouched(s, step, v);
    BatchRuns.UntouchedStays(s, step, s.workers[v].job);
  }

  /** A step of another worker, or of nobody's, leaves a busy worker's job alone. */
  lemma NotTouched(s: State, step: Step, v: nat)
    requires JobSide(s) && Enabled(s, step) && !BatchRows.Acts(step, v) && v < |s.workers| && Busy(s.workers[v])
    ensures s.workers[v].job in s.jobs && s.workers[v].job < s.nextJob
    ensures !BatchRuns.Touches(s, step, s.workers[v].job)
  {
    match step {
      case Take(_) => assert s.queue[0] in s.queue;
      case Item(w, _) => BatchRows.OthersRest(s, step, v);
      case Finish(w) => assert w != v && Busy(s.workers[w]);
      case _ =>
    }
  }

  lemma JobTells(s: State, step: Step, j: nat, t: State)
    requires JobSide(s) && TellingInv(s) && Enabled(s, step) && t == Apply(s, step) && j in t.jobs
    ensures Explained(t.jobs[j])
  {
    if j in s.jobs {
      assert Explained(s.jobs[j]) && j < s.nextJob;
      if BatchRuns.Touches(s, step, j) {
        TouchedTells(s, step, j, t);
      } else {
        BatchRuns.UntouchedStays(s, step, j);
      }
    }
  }

  lemma TouchedTells(s: State, step: Step, j: nat, t: State)
    requires OwnersInv(s) && TellingInv(s) && Enabled(s, step) && t == Apply(s, step) && j in s.jobs && j in t.jobs
    requires BatchRuns.Touches(s, step, j)
    ensures Explained(t.jobs[j])
  {
    match step {
      case Item(w, draw) => assert t.jobs[j].status == Running;
      case Finish(w) => ClosingExplained(s.jobs[j], s.workers[w]);
      case _ =>
    }
  }

  lemma StepKeepsTelling(s: State, step: Step)
    requires JobSide(s) && TellingInv(s) && Enabled(s, step)
    ensures TellingInv(Apply(s, step))
  {
    var t := Apply(s, step);
    forall w | 0 <= w < |t.workers| && Busy(t.workers[w])
      ensures Detailed(t.workers[w]) && t.workers[w].job in t.jobs
      ensures Progressed(t.jobs[t.workers[w].job], t.workers[w].results)
    {
      if BatchRows.Acts(step, w) {
        ActorTells(s, step, w, t);
      } else {
        OthersTell(s, step, w, t);
      }
    }
    forall j | j in t.jobs
      ensures Explained(t.jobs[j])
    {
      JobTells(s, step, j, t);
    }
  }

  // ------------------------------------------------------------------------- all runs

  ghost predicate OriginInv(s: State) {
    BatchRows.BatchInv(s) && OwnersAgree(s) && TellingInv(s)
  }

  /** Over every run: owners agree, and notes, counters and reports tell what became of each item. */
  lemma {:induction false} RunKeepsOrigin(s: State, run: seq<Step>)
    requires OriginInv(s) && Possible(s, run)
    ensures OriginInv(After(s, run))
    decreases |run|
  {
    if run != [] {
      BatchRuns.StepKeepsInv(s, run[0]);
      StepKeepsOwners(s, run[0]);
      StepKeepsTelling(s, run[0]);
      RunKeepsOrigin(Apply(s, run[0]), run[1..]);
    }
  }

  /** Row ids[k] is, as far as it is left, the link asked for by the k-th item, and it is reported. */
  ghost predicate RowPerItem(t: State, j: nat, ids: seq<nat>, userId: nat, links: seq<CreateRequest>)
    requires j in t.jobs && t.jobs[j].report.Items?
  {
    && |ids| == |links| == |t.jobs[j].report.results| && NoDuplicates(ids)
    && (forall id | BatchRows.Tagged(t.store, id, j) :: id in ids)
    && forall k | 0 <= k < |links| ::
         && t.jobs[j].report.results[k].url == links[k].url && t.jobs[j].report.results[k].success
         && (ids[k] in t.store.table.rows ==>
               var row := t.store.table.rows[ids[k]];
               && row.batchJob == Some(j) && row.userId == userId && row.url == links[k].url
               && (links[k].customCode != "" ==> row.code == links[k].customCode)
               && t.jobs[j].report.results[k].shortCode == Some(row.code))
  }

  lemma CompletedRows(t: State, j: nat) returns (ids: seq<nat>)
    requires OriginInv(t) && j in t.jobs && t.jobs[j].status == Completed
    ensures t.jobs[j].report.Items? && RowPerItem(t, j, ids, t.jobs[j].userId, t.jobs[j].links)
  {
    var job := t.jobs[j];
    assert JobInv(job) && BatchRows.JobRows(t.store, job, j);
    ids :| |ids| == job.totalItems && BatchRows.DoneWith(t.store, job, j, ids);
    forall k | 0 <= k < |ids| && ids[k] in t.store.table.rows
      ensures BatchRows.Tagged(t.store, ids[k], j) && t.store.table.rows[ids[k]].userId == job.userId
    {
      assert ids[k] in ids;
    }
  }

  /** A submission of the run made this job; its URLs, in order, are the job's. */
  predicate SubmittedBy(run: seq<Step>, k: nat, job: Job) {
    k < |run| && run[k].Look? && run[k].key == job.key && run[k].userId == job.userId && run[k].links == job.links
    && job.totalItems == |run[k].links|
  }

  /** If the job has completed, it has made one row for each URL of this submission, owned by the submitter, under the
      code asked for and as reported, and no other row; so many of them have been removed. */
  ghost predicate Fulfilled(t: State, j: nat, submission: Step, removed: int)
    requires j in t.jobs && submission.Look?
  {
    t.jobs[j].status == Completed ==>
      && t.jobs[j].report.Items?
      && (exists ids :: RowPerItem(t, j, ids, submission.userId, submission.links))
      && |BatchBalance.RowSet(t.store, j)| + removed == |submission.links|
  }

  lemma CompletedFulfils(t: State, j: nat, submission: Step, removed: int)
    requires OriginInv(t) && j in t.jobs && submission.Look?
    requires submission.userId == t.jobs[j].userId && submission.links == t.jobs[j].links
    requires t.jobs[j].status == Completed ==> BatchRuns.EndedWell(t.store, t.jobs[j], j, removed)
    ensures Fulfilled(t, j, submission, removed)
  {
    assert JobInv(t.jobs[j]);
    if t.jobs[j].status == Completed {
      var ids := CompletedRows(t, j);
      assert RowPerItem(t, j, ids, submission.userId, submission.links);
    }
  }

  /** In every run from a start without jobs, each job was submitted by its owner with just its items, and fulfils
      the submission if it has completed; the rows that are missing are those that somebody else has deleted. */
  lemma EverySubmissionFulfilled(store: Store, queueSize: nat, maxItems: nat, submitters: nat, workers: nat,
      run: seq<Step>, j: nat)
    requires BatchRuns.NoJobYet(store)
    requires var s := Init(store, queueSize, maxItems, submitters, workers);
      Possible(s, run) && j in After(s, run).jobs
    ensures var s := Init(store, queueSize, maxItems, submitters, workers);
      var t := After(s, run);
      exists k: nat :: SubmittedBy(run, k, t.jobs[j]) && Fulfilled(t, j, run[k], BatchRuns.Removed(s, run, j))
  {
    var s := Init(store, queueSize, maxItems, submitters, workers);
    BatchRuns.InitInv(store, queueSize, maxItems, submitters, workers);
    RunKeepsOrigin(s, run);
    JobsAreSubmissions(s, run, j);
    var t := After(s, run);
    assert JobInv(t.jobs[j]);
    var k: nat := AskedAt(run, t.jobs[j]);
    if t.jobs[j].status == Completed {
      BatchRuns.EveryBatchAllOrNothing(store, queueSize, maxItems, submitters, workers, run, j);
    }
    CompletedFulfils(t, j, run[k], BatchRuns.Removed(s, run, j));
  }

  lemma AskedAt(run: seq<Step>, job: Job) returns (k: nat)
    requires AskedIn(run, job) && job.totalItems == |job.links|
    ensures SubmittedBy(run, k, job)
  {
    k :| k < |run| && Asks(run[k], job);
  }

  /** In every such run a failed job reports why: the queue was full, or at least one item was refused and each of
      them is listed as refused or as undone because of others. The counters of a running one are right up to the
      last tenth item. */
  lemma EveryFailureExplained(store: Store, queueSize: nat, maxItems: nat, submitters: nat, workers: nat,
      run: seq<Step>, j: nat)
    requires BatchRuns.NoJobYet(store)
    requires var s := Init(store, queueSize, maxItems, submitters, workers);
      Possible(s, run) && j in After(s, run).jobs
    ensures var t := After(Init(store, queueSize, maxItems, submitters, workers), run);
      var job := t.jobs[j];
      && (job.status == Failed ==>
            || job.report == QueueFull
            || (&& job.report.Items? && |job.report.results| == |job.links|
                && (forall k | 0 <= k < |job.links| ::
                      job.report.results[k].url == job.links[k].url && ToldFailed(job.report.results[k]))
                && exists k | 0 <= k < |job.links| :: Refusal(job.report.results[k])))
      && (forall w | 0 <= w < |t.workers| && Busy(t.workers[w]) && t.workers[w].job == j ::
            Progressed(job, t.workers[w].results))
  {
    var s := Init(store, queueSize, maxItems, submitters, workers);
    BatchRuns.InitInv(store, queueSize, maxItems, submitters, workers);
    RunKeepsOrigin(s, run);
    assert JobInv(After(s, run).jobs[j]) && Explained(After(s, run).jobs[j]);
  }
}
