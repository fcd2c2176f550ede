/** The link rows that carry a job's tag: whoever else calls the link service meanwhile, they are the
    rows its worker has made, less those that somebody has deleted. */
module BatchRows {
  import opened Wrappers
  import opened Sequences
  import opened LinkStore
  import opened BatchJobs

  predicate Tagged(store: Store, id: nat, j: nat) {
    id in store.table.rows && store.table.rows[id].batchJob == Some(j)
  }

  // ------------------------------------------------------------------------- frames

  /** Rows only appear with new ids, and keep tag, URL and code. */
  ghost predicate Older(before: Store, after: Store) {
    && before.table.nextId <= after.table.nextId
    && forall id | id in after.table.rows && id < before.table.nextId ::
         && id in before.table.rows
         && after.table.rows[id].batchJob == before.table.rows[id].batchJob
         && after.table.rows[id].url == before.table.rows[id].url
         && after.table.rows[id].code == before.table.rows[id].code
  }

  /** Moreover none of them is for job j. */
  ghost predicate NoNew(before: Store, after: Store, j: nat) {
    Older(before, after) && forall id: nat | Tagged(after, id, j) :: id < before.table.nextId
  }

  lemma CreateFrame(store: Store, userId: nat, req: CreateRequest, draw: Draw, tag: Option<nat>, j: nat)
    requires LinkStore.Inv(store)
    ensures Older(store, Create(store, userId, req, draw, tag).0)
    ensures tag != Some(j) ==> NoNew(store, Create(store, userId, req, draw, tag).0, j)
  {
  }

  lemma ForceDeleteFrame(store: Store, id: nat, j: nat)
    requires LinkStore.Inv(store)
    ensures NoNew(store, ForceDelete(store, id), j)
  {
  }

  lemma OtherFrame(store: Store, call: Call, j: nat)
    requires LinkStore.Inv(store) && Ordinary(call)
    ensures NoNew(store, Perform(store, call).0, j)
  {
    match call
    case CreateCall(userId, req, draw, batchJob) => CreateFrame(store, userId, req, draw, batchJob, j);
    case DeleteCall(_, id) => ForceDeleteFrame(store, id, j);
    case ForceDeleteCall(id) => ForceDeleteFrame(store, id, j);
    case ResolveCall(code) => ResolveAnswersTable(store, code);
    case _ =>
  }

  /** Only the worker of a job makes rows for it. */
  lemma StepFrame(s: State, step: Step, j: nat)
    requires LinkStore.Inv(s.store) && Enabled(s, step)
    ensures Older(s.store, Apply(s, step).store)
    ensures !(step.Item? && s.workers[step.w].job == j) ==> NoNew(s.store, Apply(s, step).store, j)
  {
    match step {
      case Item(w, draw) =>
        var job := s.jobs[s.workers[w].job];
        CreateFrame(s.store, job.userId, job.links[|s.workers[w].results|], draw, Some(s.workers[w].job), j);
      case Undo(w) => ForceDeleteFrame(s.store, s.workers[w].created[s.workers[w].undone], j);
      case Other(call) => OtherFrame(s.store, call, j);
      case _ =>
    }
  }

  // --------------------------------------------------------------------- what is noted

  /** These rows are made, and those that are left carry the tag. */
  ghost predicate Own(store: Store, ids: seq<nat>, j: nat) {
    && NoDuplicates(ids)
    && forall id | id in ids :: id < store.table.nextId && (id in store.table.rows ==> Tagged(store, id, j))
  }

  /** Item k made row ids[k], with its URL and the reported code, as far as the row is left. */
  ghost predicate Matches(store: Store, ids: seq<nat>, results: seq<ItemResult>, links: seq<CreateRequest>, j: nat) {
    && |ids| == |results| <= |links|
    && forall k | 0 <= k < |ids| && Tagged(store, ids[k], j) ::
         && store.table.rows[ids[k]].url == links[k].url
         && results[k].shortCode == Some(store.table.rows[ids[k]].code)
         && (links[k].customCode != "" ==> store.table.rows[ids[k]].code == links[k].customCode)
  }

  ghost predicate OnlyThese(store: Store, ids: seq<nat>, j: nat) {
    forall id | Tagged(store, id, j) :: id in ids
  }

  /** What a worker remembers about rows agrees with the rows that carry its job's tag. */
  ghost predicate RowsOk(store: Store, links: seq<CreateRequest>, worker: Worker) {
    match worker
    case Creating(j, results, created, failures) =>
      Own(store, created, j) && OnlyThese(store, created, j)
      && (failures == 0 ==> Matches(store, created, results, links, j))
    case Undoing(j, _, created, undone) =>
      Own(store, created, j) && undone <= |created| && OnlyThese(store, created[undone..], j)
    case _ => true
  }

  ghost predicate RowsInv(s: State) {
    forall w | 0 <= w < |s.workers| && Busy(s.workers[w]) ::
      s.workers[w].job in s.jobs && RowsOk(s.store, s.jobs[s.workers[w].job].links, s.workers[w])
  }

  /** A completed job has made one row per item, and what is left of them is as reported. */
  ghost predicate Done(store: Store, job: Job, j: nat) {
    job.report.Items?
    && exists ids :: |ids| == job.totalItems && DoneWith(store, job, j, ids)
  }

  ghost predicate DoneWith(store: Store, job: Job, j: nat, ids: seq<nat>)
    requires job.report.Items?
  {
    Own(store, ids, j) && OnlyThese(store, ids, j) && Matches(store, ids, job.report.results, job.links, j)
  }

  /** The rows that a job's status admits. */
  ghost predicate JobRows(store: Store, job: Job, j: nat) {
    match job.status
    case Pending => forall id :: !Tagged(store, id, j)
    case Running => true
    case Completed => Done(store, job, j)
    case Failed => forall id :: !Tagged(store, id, j)
  }

  ghost predicate TagsInv(s: State) {
    && (forall id | id in s.store.table.rows && s.store.table.rows[id].batchJob.Some? ::
          s.store.table.rows[id].batchJob.value in s.jobs)
    && (forall j | j in s.jobs :: JobRows(s.store, s.jobs[j], j))
  }

  ghost predicate RowSide(s: State) {
    LinkStore.Inv(s.store) && TagsInv(s) && RowsInv(s)
  }

  ghost predicate BatchInv(s: State) {
    JobSide(s) && RowSide(s)
  }

  // ------------------------------------------------------------ frames of what is noted

  lemma OwnFrame(before: Store, after: Store, ids: seq<nat>, j: nat)
    requires Own(before, ids, j) && Older(before, after)
    ensures Own(after, ids, j)
  {
  }

  lemma OnlyTheseFrame(before: Store, after: Store, ids: seq<nat>, j: nat)
    requires OnlyThese(before, ids, j) && NoNew(before, after, j)
    ensures OnlyThese(after, ids, j)
  {
  }

  lemma MatchesFrame(before: Store, after: Store, ids: seq<nat>, results: seq<ItemResult>,
      links: seq<CreateRequest>, j: nat)
    requires Own(before, ids, j) && Matches(before, ids, results, links, j) && Older(before, after)
    ensures Matches(after, ids, results, links, j)
  {
    forall k | 0 <= k < |ids| && Tagged(after, ids[k], j)
      ensures Tagged(before, ids[k], j)
    {
      assert ids[k] in ids;
    }
  }

  lemma RowsFrame(before: Store, after: Store, links: seq<CreateRequest>, worker: Worker)
    requires Busy(worker) && RowsOk(before, links, worker) && NoNew(before, after, worker.job)
    ensures RowsOk(after, links, worker)
  {
    OwnFrame(before, after, worker.created, worker.job);
    if worker.Creating? {
      OnlyTheseFrame(before, after, worker.created, worker.job);
      if worker.failures == 0 {
        MatchesFrame(before, after, worker.created, worker.results, links, worker.job);
      }
    } else {
      OnlyTheseFrame(before, after, worker.created[worker.undone..], worker.job);
    }
  }

  lemma JobRowsFrame(before: Store, after: Store, job: Job, j: nat)
    requires JobRows(before, job, j) && NoNew(before, after, j)
    ensures JobRows(after, job, j)
  {
    if job.status == Completed {
      var ids :| |ids| == job.totalItems && DoneWith(before, job, j, ids);
      OwnFrame(before, after, ids, j);
      OnlyTheseFrame(before, after, ids, j);
      MatchesFrame(before, after, ids, job.report.results, job.links, j);
      assert DoneWith(after, job, j, ids);
    } else if job.status in {Pending, Failed} {
      forall id
        ensures !Tagged(after, id, j)
      {
        assert !Tagged(before, id, j);
      }
    }
  }

  // ------------------------------------------------------------------ the worker's steps

  lemma NewRow(store: Store, links: seq<CreateRequest>, worker: Worker, req: CreateRequest, link: Link, after: Store)
    requires worker.Creating? && RowsOk(store, links, worker) && |worker.created| + worker.failures == |worker.results|
    requires |worker.results| < |links| && req == links[|worker.results|] && link.url == req.url
    requires req.customCode != "" ==> link.code == req.customCode
    requires link.batchJob == Some(worker.job) && link.id == store.table.nextId && link.id !in store.table.rows
    requires after.table.rows == store.table.rows[link.id := link] && after.table.nextId == link.id + 1
    ensures RowsOk(after, links, Noted(worker, req, Success(link)))
  {
    var next := Noted(worker, req, Success(link));
    assert forall id :: id in next.created <==> id in worker.created || id == link.id;
    forall id | Tagged(after, id, worker.job)
      ensures id in next.created
    {
      assert id == link.id || Tagged(store, id, worker.job);
    }
    if next.failures == 0 {
      forall k | 0 <= k < |next.created| && Tagged(after, next.created[k], worker.job)
        ensures after.table.rows[next.created[k]].url == links[k].url
        ensures next.results[k].shortCode == Some(after.table.rows[next.created[k]].code)
        ensures links[k].customCode != "" ==> after.table.rows[next.created[k]].code == links[k].customCode
      {
        if k < |worker.created| {
          assert worker.created[k] in worker.created;
          assert Tagged(store, worker.created[k], worker.job);
        }
      }
    }
  }

  lemma ItemRows(store: Store, job: Job, worker: Worker, draw: Draw)
    requires LinkStore.Inv(store) && worker.Creating? && RowsOk(store, job.links, worker) && NotesOk(job.links, worker)
    requires |worker.results| < |job.links|
    ensures var req := job.links[|worker.results|];
      var (after, outcome) := Create(store, job.userId, req, draw, Some(worker.job));
      RowsOk(after, job.links, Noted(worker, req, outcome))
  {
    var req := job.links[|worker.results|];
    var (after, outcome) := Create(store, job.userId, req, draw, Some(worker.job));
    if outcome.Success? {
      NewRow(store, job.links, worker, req, outcome.value, after);
    }
  }

  lemma UndoneIsGone(ids: seq<nat>, k: nat, id: nat)
    requires k < |ids| && id in ids[k..] && id != ids[k]
    ensures id in ids[k + 1..]
  {
    assert ids[k..] == [ids[k]] + ids[k + 1..];
  }

  lemma UndoRows(store: Store, links: seq<CreateRequest>, worker: Worker)
    requires LinkStore.Inv(store) && worker.Undoing? && RowsOk(store, links, worker) && worker.undone < |worker.created|
    ensures RowsOk(ForceDelete(store, worker.created[worker.undone]), links,
                   Undoing(worker.job, worker.results, worker.created, worker.undone + 1))
  {
    var gone := worker.created[worker.undone];
    var after := ForceDelete(store, gone);
    ForceDeleteFrame(store, gone, worker.job);
    OwnFrame(store, after, worker.created, worker.job);
    forall id | Tagged(after, id, worker.job)
      ensures id in worker.created[worker.undone + 1..]
    {
      assert Tagged(store, id, worker.job);
      UndoneIsGone(worker.created, worker.undone, id);
    }
  }

  /** The rows of a job when its worker closes it. */
  lemma ClosingRows(store: Store, job: Job, worker: Worker)
    requires JobInv(job) && RowsOk(store, job.links, worker) && NotesOk(job.links, worker)
    requires worker.Creating? ==> |worker.results| == |job.links| && !MustUndo(worker)
    requires worker.Creating? || (worker.Undoing? && worker.undone == |worker.created|)
    ensures JobRows(store, Closing(job, worker), worker.job)
  {
    if worker.Undoing? {
      assert worker.created[worker.undone..] == [];
    } else if worker.failures == 0 {
      assert DoneWith(store, Closing(job, worker), worker.job, worker.created);
    }
  }

  // -------------------------------------------------------------------------- all steps

  lemma StepKeepsStore(s: State, step: Step)
    requires LinkStore.Inv(s.store) && Enabled(s, step)
    ensures LinkStore.Inv(Apply(s, step).store)
  {
    match step {
      case Item(w, draw) =>
        var job := s.jobs[s.workers[w].job];
        CreateKeepsInv(s.store, job.userId, job.links[|s.workers[w].results|], draw, Some(s.workers[w].job));
      case Undo(w) => ForceDeleteKeepsInv(s.store, s.workers[w].created[s.workers[w].undone]);
      case Other(call) => PerformKeepsInv(s.store, call);
      case _ =>
    }
  }

  /** The step is a worker's own, and the worker is w. */
  predicate Acts(step: Step, w: nat) {
    (step.Take? || step.Item? || step.StartUndo? || step.Undo? || step.Finish? || step.Exit?) && step.w == w
  }

  lemma OthersRest(s: State, step: Step, v: nat)
    requires OwnersInv(s) && Enabled(s, step) && v < |s.workers| && Busy(s.workers[v]) && !Acts(step, v)
    ensures v < |Apply(s, step).workers| && Apply(s, step).workers[v] == s.workers[v]
    ensures !(step.Item? && s.workers[step.w].job == s.workers[v].job)
  {
    if step.Item? {
      assert Busy(s.workers[step.w]) && step.w != v;
    }
  }

  /** The acting worker's own rows. */
  lemma ActorRows(s: State, step: Step, w: nat)
    requires LinkStore.Inv(s.store) && QueueInv(s) && NotesInv(s) && TagsInv(s) && RowsInv(s)
    requires Enabled(s, step) && Acts(step, w)
    ensures var t := Apply(s, step);
      w < |t.workers| && (Busy(t.workers[w]) ==>
        t.workers[w].job in t.jobs && RowsOk(t.store, t.jobs[t.workers[w].job].links, t.workers[w]))
  {
    match step {
      case Take(_) => TakenRows(s, w);
      case Item(_, draw) => ItemRows(s.store, s.jobs[s.workers[w].job], s.workers[w], draw);
      case StartUndo(_) => assert s.workers[w].created[0..] == s.workers[w].created;
      case Undo(_) => UndoRows(s.store, s.jobs[s.workers[w].job].links, s.workers[w]);
      case _ =>
    }
  }

  lemma TakenRows(s: State, w: nat)
    requires QueueInv(s) && TagsInv(s) && CanTake(s, w)
    ensures RowsOk(s.store, s.jobs[s.queue[0]].links, Creating(s.queue[0], [], [], 0))
  {
    assert s.queue[0] in s.queue;
    assert JobRows(s.store, s.jobs[s.queue[0]], s.queue[0]);
  }

  lemma StepKeepsRows(s: State, step: Step, t: State)
    requires JobSide(s) && RowSide(s) && Enabled(s, step) && t == Apply(s, step) && SameLinks(s, t)
    ensures RowsInv(t)
  {
    forall v | 0 <= v < |t.workers| && Busy(t.workers[v])
      ensures t.workers[v].job in t.jobs && RowsOk(t.store, t.jobs[t.workers[v].job].links, t.workers[v])
    {
      if Acts(step, v) {
        ActorRows(s, step, v);
      } else {
        SameCrew(s, step, v);
        OthersRest(s, step, v);
        StepFrame(s, step, s.workers[v].job);
        RowsFrame(s.store, t.store, s.jobs[s.workers[v].job].links, s.workers[v]);
      }
    }
  }

  lemma SameCrew(s: State, step: Step, v: nat)
    requires Enabled(s, step) && !Acts(step, v) && v < |Apply(s, step).workers|
    ensures v < |s.workers| && Apply(s, step).workers[v] == s.workers[v]
  {
  }

  /** A job that is not running keeps the rows its status admits. */
  lemma StepJobRows(s: State, step: Step, t: State, j: nat)
    requires JobSide(s) && RowSide(s) && Enabled(s, step) && t == Apply(s, step) && j in t.jobs
    ensures JobRows(t.store, t.jobs[j], j)
  {
    if step.Finish? && s.workers[step.w].job == j {
      FinishRows(s, step.w);
    } else if step.Item? && s.workers[step.w].job == j {
      assert s.jobs[j].status == Running;
    } else {
      StepFrame(s, step, j);
      RestRows(s, step, t, j);
      JobRowsFrame(s.store, t.store, t.jobs[j], j);
    }
  }

  lemma FinishRows(s: State, w: nat)
    requires JobsInv(s) && NotesInv(s) && RowsInv(s) && CanFinish(s, w)
    ensures var j, t := s.workers[w].job, DoFinish(s, w); j in t.jobs && JobRows(t.store, t.jobs[j], j)
  {
    assert JobInv(s.jobs[s.workers[w].job]);
    ClosingRows(s.store, s.jobs[s.workers[w].job], s.workers[w]);
  }

  /** Without its worker's last step, a job's new status admits what its old one does. */
  lemma RestRows(s: State, step: Step, t: State, j: nat)
    requires KeysInv(s) && SubmittersInv(s) && QueueInv(s) && TagsInv(s)
    requires Enabled(s, step) && t == Apply(s, step) && j in t.jobs
    requires !(step.Finish? && s.workers[step.w].job == j) && !(step.Item? && s.workers[step.w].job == j)
    ensures JobRows(s.store, t.jobs[j], j)
  {
    if j in s.jobs {
      assert JobRows(s.store, s.jobs[j], j);
      assert j < s.nextJob;
    } else {
      assert t.jobs[j].status == Pending;
      assert forall id :: !Tagged(s.store, id, j);
    }
  }

  lemma StepKeepsTags(s: State, step: Step, t: State)
    requires JobSide(s) && RowSide(s) && Enabled(s, step) && t == Apply(s, step) && SameLinks(s, t)
    ensures TagsInv(t)
  {
    forall id | id in t.store.table.rows && t.store.table.rows[id].batchJob.Some?
      ensures t.store.table.rows[id].batchJob.value in t.jobs
    {
      TagKnown(s, step, t, id);
    }
    forall j | j in t.jobs
      ensures JobRows(t.store, t.jobs[j], j)
    {
      StepJobRows(s, step, t, j);
    }
  }

  lemma TagKnown(s: State, step: Step, t: State, id: nat)
    requires LinkStore.Inv(s.store) && TagsInv(s) && Enabled(s, step) && t == Apply(s, step) && SameLinks(s, t)
    requires id in t.store.table.rows && t.store.table.rows[id].batchJob.Some?
    ensures t.store.table.rows[id].batchJob.value in t.jobs
  {
    var j := t.store.table.rows[id].batchJob.value;
    StepFrame(s, step, j);
    if !(step.Item? && s.workers[step.w].job == j) {
      assert Tagged(t.store, id, j);
      assert Tagged(s.store, id, j);
    }
  }
}
