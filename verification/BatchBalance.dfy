/** Counting the rows of a job: what its worker has made is there, or has been deleted by somebody else. */
module BatchBalance {
  import opened Wrappers
  import opened Sequences
  import opened LinkStore
  import opened BatchJobs
  import opened BatchRows

  ghost function RowSet(store: Store, j: nat): set<nat> {
    set id | id in store.table.rows && store.table.rows[id].batchJob == Some(j)
  }

  function Part(worker: Worker, j: nat): nat {
    if worker.Creating? && worker.job == j then |worker.created| else 0
  }

  /** The rows that workers have noted for a job. */
  function NotedRows(workers: seq<Worker>, j: nat): nat {
    if workers == [] then 0 else Part(workers[0], j) + NotedRows(workers[1..], j)
  }

  /** The rows that a job has made so far, unless it is being rolled back. */
  function MadeSoFar(s: State, j: nat): nat {
    NotedRows(s.workers, j) + if j in s.jobs && s.jobs[j].status == Completed then s.jobs[j].totalItems else 0
  }

  /** The rows of a job that are missing. */
  ghost function Lost(s: State, j: nat): int {
    MadeSoFar(s, j) - |RowSet(s.store, j)|
  }

  /** The job will not be completed. */
  predicate Doomed(s: State, j: nat) {
    || (j in s.jobs && s.jobs[j].status == Failed)
    || exists w | 0 <= w < |s.workers| :: s.workers[w].Undoing? && s.workers[w].job == j
  }

  /** Somebody else deletes a row of the job. */
  predicate Removes(s: State, step: Step, j: nat) {
    match step
    case Other(DeleteCall(userId, id)) => Tagged(s.store, id, j) && s.store.table.rows[id].userId == userId
    case Other(ForceDeleteCall(id)) => Tagged(s.store, id, j)
    case _ => false
  }

  /** The worker of the job makes a row. */
  predicate Makes(s: State, step: Step, j: nat)
    requires Enabled(s, step)
  {
    && step.Item? && s.workers[step.w].job == j
    && var job := s.jobs[j];
       Create(s.store, job.userId, job.links[|s.workers[step.w].results|], step.draw, Some(j)).1.Success?
  }

  // ------------------------------------------------------------------------------ rows

  lemma RowAdded(store: Store, link: Link, j: nat)
    requires link.id !in store.table.rows
    ensures |RowSet(store.(table := Insert(store.table, link)), j)|
         == |RowSet(store, j)| + if link.batchJob == Some(j) then 1 else 0
  {
    var after := store.(table := Insert(store.table, link));
    if link.batchJob == Some(j) {
      assert RowSet(after, j) == RowSet(store, j) + {link.id};
    } else {
      assert RowSet(after, j) == RowSet(store, j);
    }
  }

  lemma SameRowSet(before: Store, after: Store, j: nat)
    requires before.table.rows.Keys == after.table.rows.Keys
    requires forall id | id in before.table.rows :: after.table.rows[id].batchJob == before.table.rows[id].batchJob
    ensures RowSet(after, j) == RowSet(before, j)
  {
  }

  lemma CreateCounts(store: Store, userId: nat, req: CreateRequest, draw: Draw, tag: Option<nat>, j: nat)
    requires LinkStore.Inv(store)
    ensures var (after, outcome) := Create(store, userId, req, draw, tag);
      |RowSet(after, j)| == |RowSet(store, j)| + if outcome.Success? && tag == Some(j) then 1 else 0
  {
    var (after, outcome) := Create(store, userId, req, draw, tag);
    if outcome.Success? {
      RowAdded(store, outcome.value, j);
      assert RowSet(after, j) == RowSet(store.(table := Insert(store.table, outcome.value)), j);
    }
  }

  lemma ForceDeleteCounts(store: Store, id: nat, j: nat)
    ensures |RowSet(ForceDelete(store, id), j)| + (if Tagged(store, id, j) then 1 else 0) == |RowSet(store, j)|
  {
    var after := ForceDelete(store, id);
    if Tagged(store, id, j) {
      assert RowSet(store, j) == RowSet(after, j) + {id};
    } else {
      assert RowSet(store, j) == RowSet(after, j);
    }
  }

  lemma OtherCounts(s: State, call: Call, j: nat)
    requires LinkStore.Inv(s.store) && Ordinary(call)
    ensures |RowSet(Perform(s.store, call).0, j)| + (if Removes(s, Other(call), j) then 1 else 0)
        == |RowSet(s.store, j)|
  {
    match call
    case CreateCall(userId, req, draw, batchJob) => CreateCounts(s.store, userId, req, draw, batchJob, j);
    case DeleteCall(_, id) => ForceDeleteCounts(s.store, id, j);
    case ForceDeleteCall(id) => ForceDeleteCounts(s.store, id, j);
    case UpdateCall(_, _, _) => SameRowSet(s.store, Perform(s.store, call).0, j);
    case ResolveCall(code) => ResolveAnswersTable(s.store, code);
    case _ =>
  }

  lemma UndoDooms(s: State, w: nat)
    requires CanUndo(s, w)
    ensures Doomed(DoUndo(s, w), s.workers[w].job)
  {
    assert DoUndo(s, w).workers[w].Undoing?;
  }

  lemma StartUndoDooms(s: State, w: nat)
    requires CanStartUndo(s, w)
    ensures Doomed(DoStartUndo(s, w), s.workers[w].job)
  {
    assert DoStartUndo(s, w).workers[w].Undoing?;
  }

  /** An undo takes no row from any other job. */
  lemma UndoCounts(s: State, w: nat, j: nat)
    requires RowsInv(s) && CanUndo(s, w)
    ensures j != s.workers[w].job ==> |RowSet(DoUndo(s, w).store, j)| == |RowSet(s.store, j)|
  {
    var worker := s.workers[w];
    var gone := worker.created[worker.undone];
    assert gone in worker.created && RowsOk(s.store, s.jobs[worker.job].links, worker);
    ForceDeleteCounts(s.store, gone, j);
  }

  lemma StepCounts(s: State, step: Step, j: nat)
    requires RowSide(s) && Enabled(s, step) && !Doomed(Apply(s, step), j)
    ensures |RowSet(Apply(s, step).store, j)| + (if Removes(s, step, j) then 1 else 0)
         == |RowSet(s.store, j)| + if Makes(s, step, j) then 1 else 0
  {
    match step {
      case Item(w, draw) =>
        var job := s.jobs[s.workers[w].job];
        CreateCounts(s.store, job.userId, job.links[|s.workers[w].results|], draw, Some(s.workers[w].job), j);
      case Undo(w) =>
        UndoDooms(s, w);
        UndoCounts(s, w, j);
      case Other(call) => OtherCounts(s, call, j);
      case _ =>
    }
  }

  // ----------------------------------------------------------------------------- notes

  lemma {:induction false} NotedReplaced(workers: seq<Worker>, w: nat, worker: Worker, j: nat)
    requires w < |workers|
    ensures NotedRows(workers[w := worker], j) + Part(workers[w], j) == NotedRows(workers, j) + Part(worker, j)
  {
    if w > 0 {
      NotedReplaced(workers[1..], w - 1, worker, j);
      assert workers[w := worker][1..] == workers[1..][w - 1 := worker];
    } else {
      assert workers[w := worker][1..] == workers[1..];
    }
  }

  /** A completed job has as many items as its worker has noted rows. */
  lemma FinishMakes(s: State, w: nat, j: nat)
    requires JobsInv(s) && OwnersInv(s) && NotesInv(s) && CanFinish(s, w) && !Doomed(DoFinish(s, w), j)
    ensures MadeSoFar(DoFinish(s, w), j) == MadeSoFar(s, j)
  {
    var worker, t := s.workers[w], DoFinish(s, w);
    NotedReplaced(s.workers, w, Waiting, j);
    if worker.job == j {
      assert JobInv(s.jobs[j]) && NotesOk(s.jobs[j].links, worker);
      assert t.jobs[j].status == Completed;
    }
  }

  lemma StepMakes(s: State, step: Step, j: nat)
    requires JobSide(s) && Enabled(s, step) && !Doomed(Apply(s, step), j)
    ensures MadeSoFar(Apply(s, step), j) == MadeSoFar(s, j) + if Makes(s, step, j) then 1 else 0
  {
    match step {
      case Enqueue(i) => EnqueueMakes(s, i, j);
      case Take(w) => TakeMakes(s, w, j);
      case Item(w, draw) => ItemMakes(s, w, draw, j);
      case StartUndo(w) => StartUndoMakes(s, w, j);
      case Undo(w) => UndoMakes(s, w, j);
      case Finish(w) => FinishMakes(s, w, j);
      case Exit(w) => ExitMakes(s, w, j);
      case _ =>
    }
  }

  lemma StartUndoMakes(s: State, w: nat, j: nat)
    requires CanStartUndo(s, w) && !Doomed(DoStartUndo(s, w), j)
    ensures MadeSoFar(DoStartUndo(s, w), j) == MadeSoFar(s, j)
  {
    StartUndoDooms(s, w);
    NotedReplaced(s.workers, w, DoStartUndo(s, w).workers[w], j);
  }

  lemma ExitMakes(s: State, w: nat, j: nat)
    requires w < |s.workers| && s.workers[w] == Waiting
    ensures MadeSoFar(s.(workers := s.workers[w := Exited]), j) == MadeSoFar(s, j)
  {
    NotedReplaced(s.workers, w, Exited, j);
  }

  lemma UndoMakes(s: State, w: nat, j: nat)
    requires CanUndo(s, w)
    ensures MadeSoFar(DoUndo(s, w), j) == MadeSoFar(s, j)
  {
    NotedReplaced(s.workers, w, DoUndo(s, w).workers[w], j);
  }

  lemma EnqueueMakes(s: State, i: nat, j: nat)
    requires SubmittersInv(s) && CanEnqueue(s, i)
    ensures MadeSoFar(DoEnqueue(s, i), j) == MadeSoFar(s, j)
  {
  }

  lemma ItemMakes(s: State, w: nat, draw: Draw, j: nat)
    requires OwnersInv(s) && CanAdvance(s, w)
    ensures MadeSoFar(Advance(s, w, draw), j) == MadeSoFar(s, j) + if Makes(s, Item(w, draw), j) then 1 else 0
  {
    NotedReplaced(s.workers, w, Advance(s, w, draw).workers[w], j);
  }

  lemma TakeMakes(s: State, w: nat, j: nat)
    requires QueueInv(s) && CanTake(s, w)
    ensures MadeSoFar(DoTake(s, w), j) == MadeSoFar(s, j)
  {
    NotedReplaced(s.workers, w, DoTake(s, w).workers[w], j);
    assert s.queue[0] in s.queue;
  }

  /** The missing rows are the ones that somebody else has deleted. */
  lemma StepBalance(s: State, step: Step, j: nat)
    requires JobSide(s) && RowSide(s) && Enabled(s, step) && !Doomed(Apply(s, step), j)
    ensures Lost(Apply(s, step), j) == Lost(s, j) + if Removes(s, step, j) then 1 else 0
  {
    StepCounts(s, step, j);
    StepMakes(s, step, j);
  }

  // ------------------------------------------------------------------------ all of them

  /** One row per item is there. */
  ghost predicate MadeAll(store: Store, job: Job, j: nat)
    requires job.report.Items?
  {
    exists ids ::
      |ids| == job.totalItems && DoneWith(store, job, j, ids) && forall k | 0 <= k < |ids| :: Tagged(store, ids[k], j)
  }

  ghost function Members(ids: seq<nat>): set<nat> {
    set id | id in ids
  }

  lemma OneMember(ids: seq<nat>)
    requires ids != []
    ensures Members(ids) == Members(ids[..|ids| - 1]) + {ids[|ids| - 1]}
  {
    assert ids == ids[..|ids| - 1] + [ids[|ids| - 1]];
  }

  lemma {:induction false} DistinctCount(ids: seq<nat>)
    requires NoDuplicates(ids)
    ensures |Members(ids)| == |ids|
  {
    if ids == [] {
      assert Members(ids) == {};
    } else {
      var init := ids[..|ids| - 1];
      OneMember(ids);
      DistinctCount(init);
      assert ids[|ids| - 1] !in Members(init);
    }
  }

  lemma SmallerSet<T>(a: set<T>, b: set<T>)
    requires a <= b
    ensures |a| <= |b| && (|a| == |b| <==> a == b)
  {
    assert b == a + (b - a);
    if |a| == |b| {
      assert |b - a| == 0;
    }
  }

  /** A completed job has all its rows iff it has as many rows as items. */
  lemma MadeAllIff(store: Store, job: Job, j: nat)
    requires Done(store, job, j)
    ensures MadeAll(store, job, j) <==> |RowSet(store, j)| == job.totalItems
  {
    var ids :| |ids| == job.totalItems && DoneWith(store, job, j, ids);
    CountOf(store, ids, j);
    if |RowSet(store, j)| == job.totalItems {
      assert MadeAll(store, job, j);
    }
    if MadeAll(store, job, j) {
      var all :| |all| == job.totalItems && DoneWith(store, job, j, all) && forall k | 0 <= k < |all| ::
        Tagged(store, all[k], j);
      CountOf(store, all, j);
    }
  }

  lemma CountOf(store: Store, ids: seq<nat>, j: nat)
    requires NoDuplicates(ids) && OnlyThese(store, ids, j)
    ensures |RowSet(store, j)| == |ids| <==> forall k | 0 <= k < |ids| :: Tagged(store, ids[k], j)
  {
    DistinctCount(ids);
    assert RowSet(store, j) <= Members(ids) by {
      forall id | id in RowSet(store, j)
        ensures id in Members(ids)
      {
        assert Tagged(store, id, j);
      }
    }
    SmallerSet(RowSet(store, j), Members(ids));
    if RowSet(store, j) == Members(ids) {
      forall k | 0 <= k < |ids|
        ensures Tagged(store, ids[k], j)
      {
        assert ids[k] in Members(ids);
      }
    }
    if forall k | 0 <= k < |ids| :: Tagged(store, ids[k], j) {
      forall id | id in Members(ids)
        ensures id in RowSet(store, j)
      {
        var k :| 0 <= k < |ids| && ids[k] == id;
      }
      assert RowSet(store, j) == Members(ids);
    }
  }
}
