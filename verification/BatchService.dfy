/** The batch service object, with one caller and one worker: its methods are runs of the steps in
    BatchJobs, and a failed job that ran alone leaves no trace. */
module BatchService {
  import opened Wrappers
  import opened Sequences
  import opened LinkStore
  import opened BatchJobs
  import BatchRows
  import BatchBalance
  import BatchRuns
  import LinkService
  import IdempotencyKey

  // ---------------------------------------------------------------- making and undoing

  predicate New(s: Store, ids: seq<nat>, code: string) {
    code in s.table.byCode && s.table.byCode[code] in ids
  }

  /** s is s0 with the new rows ids and their cache entries. */
  ghost predicate Grown(s0: Store, s: Store, ids: seq<nat>) {
    && s.now == s0.now && NoDuplicates(ids)
    && (forall id | id in ids :: id in s.table.rows && id !in s0.table.rows)
    && (forall id :: id in s0.table.rows <==> id in s.table.rows && id !in ids)
    && (forall id | id in s0.table.rows :: s.table.rows[id] == s0.table.rows[id])
    && (forall code | code in s0.cache :: !New(s, ids, code) && code in s.cache && s.cache[code] == s0.cache[code])
    && (forall code | code in s.cache :: code in s0.cache || New(s, ids, code))
  }

  lemma CreateGrows(s0: Store, s: Store, ids: seq<nat>, userId: nat, req: CreateRequest, draw: Draw, tag: Option<nat>)
    requires Inv(s0) && Inv(s) && Grown(s0, s, ids)
    ensures var (t, outcome) := Create(s, userId, req, draw, tag);
      Inv(t) && Grown(s0, t, if outcome.Success? then ids + [outcome.value.id] else ids)
  {
    CreateKeepsInv(s, userId, req, draw, tag);
    CreateInserts(s, userId, req, draw, tag);
    var (t, outcome) := Create(s, userId, req, draw, tag);
    if outcome.Success? {
      LinkGrows(s0, s, ids, outcome.value, t);
    }
  }

  lemma CreateInserts(s: Store, userId: nat, req: CreateRequest, draw: Draw, tag: Option<nat>)
    ensures var (t, outcome) := Create(s, userId, req, draw, tag);
      && (outcome.Failure? ==> t == s)
      && (outcome.Success? ==>
            var link := outcome.value;
            && link.id == s.table.nextId && link.code !in s.table.byCode
            && t.table == Insert(s.table, link) && t.now == s.now
            && link.code in t.cache && t.cache - {link.code} == s.cache - {link.code})
  {
    UnusedIsUnused(s.table, draw.candidates, ATTEMPTS);
  }

  lemma LinkGrows(s0: Store, s: Store, ids: seq<nat>, link: Link, t: Store)
    requires Inv(s0) && Inv(s) && Grown(s0, s, ids)
    requires link.id == s.table.nextId && link.code !in s.table.byCode
    requires t.table == Insert(s.table, link) && t.now == s.now
    requires link.code in t.cache && t.cache - {link.code} == s.cache - {link.code}
    ensures Grown(s0, t, ids + [link.id])
  {
    var more := ids + [link.id];
    assert link.id !in s.table.rows && link.code !in s.cache;
    assert forall id :: id in more <==> id in ids || id == link.id;
    forall code
      ensures New(t, more, code) <==> New(s, ids, code) || code == link.code
    {
    }
    SameElsewhere(s.cache, t.cache, link.code);
  }

  lemma SameElsewhere<V>(m: map<string, V>, n: map<string, V>, key: string)
    requires m - {key} == n - {key}
    ensures forall k | k != key :: (k in m <==> k in n) && (k in m ==> m[k] == n[k])
  {
    forall k | k != key
      ensures (k in m <==> k in n) && (k in m ==> m[k] == n[k])
    {
      assert k in m <==> k in m - {key};
      assert k in n <==> k in n - {key};
      assert k in m ==> (m - {key})[k] == m[k];
    }
  }

  lemma FirstGone(ids: seq<nat>)
    requires NoDuplicates(ids) && ids != []
    ensures NoDuplicates(ids[1..]) && forall id :: id in ids[1..] <==> id in ids && id != ids[0]
  {
    assert ids == [ids[0]] + ids[1..];
    assert forall i | 0 < i < |ids| :: ids[i] != ids[0];
  }

  lemma UndoShrinks(s0: Store, s: Store, ids: seq<nat>)
    requires Inv(s0) && Inv(s) && ids != [] && Grown(s0, s, ids)
    ensures Inv(ForceDelete(s, ids[0])) && Grown(s0, ForceDelete(s, ids[0]), ids[1..])
  {
    ForceDeleteKeepsInv(s, ids[0]);
    FirstGone(ids);
    ShrinksTo(s0, s, ids, ids[1..]);
  }

  lemma ShrinksTo(s0: Store, s: Store, ids: seq<nat>, rest: seq<nat>)
    requires Inv(s0) && Inv(s) && ids != [] && Grown(s0, s, ids)
    requires NoDuplicates(rest) && forall id :: id in rest <==> id in ids && id != ids[0]
    ensures Grown(s0, ForceDelete(s, ids[0]), rest)
  {
    var t, code0 := ForceDelete(s, ids[0]), s.table.rows[ids[0]].code;
    forall code
      ensures New(t, rest, code) <==> New(s, ids, code) && code != code0
    {
    }
  }

  /** Once everything new is undone, rows, index and cache are what they were. */
  predicate Restored(s0: Store, s: Store) {
    s.table.rows == s0.table.rows && s.table.byCode == s0.table.byCode && s.cache == s0.cache && s.now == s0.now
  }

  lemma AllUndone(s0: Store, s: Store)
    requires Inv(s0) && Inv(s) && Grown(s0, s, [])
    ensures Restored(s0, s)
  {
    assert s.table.rows == s0.table.rows;
    assert forall code :: code in s.table.byCode <==> code in s0.table.byCode;
  }

  datatype SubmitError = TooLarge | Full

  // ------------------------------------------------------------------------ submitting

  /** What one undisturbed submission does: the job there is, or a new one in the queue, or a failed one. */
  function Submitted(s: State, userId: nat, items: seq<CreateRequest>, key: string): (State, Result<nat, SubmitError>) {
    if |items| > s.maxItems then (s, Failure(TooLarge))
    else if key in s.byKey then (s, Success(s.byKey[key]))
    else
      var id, row := s.nextJob, NewJob(Looked(userId, items, key));
      var t := s.(byKey := s.byKey[key := id], nextJob := id + 1);
      if |s.queue| < s.queueSize then
        (t.(jobs := s.jobs[id := row], queue := s.queue + [id], enqueued := s.enqueued + [id]), Success(id))
      else
        (t.(jobs := s.jobs[id := SetStatus(row.(report := QueueFull), Failed)]), Failure(Full))
  }

  /** Too large a batch and a known key make no job. A new key makes one: owned by the caller, with just these items,
      nothing done yet, and in the queue, or failed at once where the queue has no room. */
  lemma SubmissionMakesJob(s: State, userId: nat, items: seq<CreateRequest>, key: string)
    ensures var (t, answer) := Submitted(s, userId, items, key);
      if |items| > s.maxItems then t == s && answer == Failure(TooLarge)
      else if key in s.byKey then t == s && answer == Success(s.byKey[key])
      else
        s.nextJob in t.jobs && var row := t.jobs[s.nextJob];
        && t == s.(jobs := s.jobs[s.nextJob := row], byKey := s.byKey[key := s.nextJob], nextJob := s.nextJob + 1,
                   queue := t.queue, enqueued := t.enqueued)
        && row.userId == userId && row.links == items && row.totalItems == |items| && row.key == key
        && row.processed == row.successes == row.failures == 0
        && if |s.queue| < s.queueSize then
             && answer == Success(s.nextJob)
             && t.queue == s.queue + [s.nextJob] && t.enqueued == s.enqueued + [s.nextJob]
             && row.status == Pending && row.history == [Pending] && row.report == Nothing
           else
             && answer == Failure(Full) && t.queue == s.queue && t.enqueued == s.enqueued
             && row.status == Failed && row.history == [Pending, Failed] && row.report == QueueFull
  {
    assert [Pending] + [Failed] == [Pending, Failed];
  }

  /** It is the three steps of a submitter in a row, so it keeps every invariant. */
  lemma SubmitKeepsInv(s: State, userId: nat, items: seq<CreateRequest>, key: string)
    requires BatchRows.BatchInv(s) && s.submitters == [Idle] && !s.closed
    ensures BatchRows.BatchInv(Submitted(s, userId, items, key).0)
  {
    if |items| <= s.maxItems && key !in s.byKey {
      var looked := DoLook(s, 0, userId, items, key);
      BatchRuns.StepKeepsInv(s, Look(0, userId, items, key));
      BatchRuns.StepKeepsInv(looked, InsertRow(0));
      SubmitSteps(s, userId, items, key);
      BatchRuns.StepKeepsInv(Apply(looked, InsertRow(0)), Enqueue(0));
    }
  }

  lemma SubmitSteps(s: State, userId: nat, items: seq<CreateRequest>, key: string)
    requires s.submitters == [Idle] && !s.closed && |items| <= s.maxItems && key !in s.byKey
    ensures var inserted := Apply(DoLook(s, 0, userId, items, key), InsertRow(0));
      Enabled(inserted, Enqueue(0)) && Apply(inserted, Enqueue(0)) == Submitted(s, userId, items, key).0
  {
    var id, row := s.nextJob, NewJob(Looked(userId, items, key));
    assert s.jobs[id := row][id := SetStatus(row.(report := QueueFull), Failed)]
        == s.jobs[id := SetStatus(row.(report := QueueFull), Failed)];
  }

  lemma {:induction false} KeysStay(s: State, run: seq<Step>, key: string)
    requires Possible(s, run) && key in s.byKey
    ensures key in After(s, run).byKey && After(s, run).byKey[key] == s.byKey[key]
    ensures After(s, run).maxItems == s.maxItems
    decreases |run|
  {
    if run != [] {
      KeysStay(Apply(s, run[0]), run[1..], key);
    }
  }

  /** Whatever happens between two submissions of the same URLs in any order, and however the first
      one ended: the second is given the job of the first and changes nothing. */
  lemma SubmittedOnce(s: State, userId: nat, items: seq<CreateRequest>, again: seq<CreateRequest>,
      hash: string -> string, run: seq<Step>)
    requires |items| <= s.maxItems
    requires multiset(IdempotencyKey.Urls(items)) == multiset(IdempotencyKey.Urls(again))
    requires Possible(Submitted(s, userId, items,
        hash(IdempotencyKey.HashedText(userId, IdempotencyKey.Urls(items)))).0, run)
    ensures var key := hash(IdempotencyKey.HashedText(userId, IdempotencyKey.Urls(items)));
      var first := Submitted(s, userId, items, key);
      var t := After(first.0, run);
      var second := Submitted(t, userId, again, hash(IdempotencyKey.HashedText(userId, IdempotencyKey.Urls(again))));
      second.0 == t && second.1.Success? && (first.1.Success? ==> second.1 == first.1)
  {
    var key := hash(IdempotencyKey.HashedText(userId, IdempotencyKey.Urls(items)));
    IdempotencyKey.OrderIrrelevant(userId, IdempotencyKey.Urls(items), IdempotencyKey.Urls(again));
    KeysStay(Submitted(s, userId, items, key).0, run, key);
    assert |IdempotencyKey.Urls(items)| == |multiset(IdempotencyKey.Urls(items))| == |IdempotencyKey.Urls(again)|;
  }

  // ----------------------------------------------------------------- working a job off

  /** The first worker goes on with its job, alone, until the job has ended. */
  function WorkOff(s: State, draws: nat -> Draw): State
    decreases if s.workers != [] then BatchRuns.Weight(s, s.workers[0]) else 0
  {
    if CanFinish(s, 0) then DoFinish(s, 0)
    else if !Enabled(s, NextStep(s, draws)) then s
    else
      var t := Apply(s, NextStep(s, draws));
      BatchRuns.WorkerLighter(s, NextStep(s, draws), t.workers[0]);
      WorkOff(t, draws)
  }

  /** What the first worker does before it finishes. */
  function NextStep(s: State, draws: nat -> Draw): (step: Step)
    ensures BatchRuns.Works(step) && !step.Take? && step.w == 0
  {
    if CanAdvance(s, 0) then
      Item(0, draws(|s.workers[0].results|))
    else if CanStartUndo(s, 0) then StartUndo(0)
    else Undo(0)
  }

  /** The only worker has a job and can go on with it. */
  predicate AtWork(s: State) {
    && |s.workers| == 1 && Busy(s.workers[0]) && s.workers[0].job in s.jobs
    && match s.workers[0]
       case Creating(j, results, _, _) => |results| <= |s.jobs[j].links|
       case Undoing(_, _, created, undone) => undone <= |created|
       case _ => false
  }

  /** Nobody else does anything. */
  predicate Alone(run: seq<Step>) {
    forall k | 0 <= k < |run| :: !run[k].Other?
  }

  lemma {:induction false} NothingRemoved(s: State, run: seq<Step>, j: nat)
    requires Possible(s, run) && Alone(run)
    ensures BatchRuns.Removed(s, run, j) == 0
    decreases |run|
  {
    if run != [] {
      assert !run[0].Other?;
      assert Alone(run[1..]);
      NothingRemoved(Apply(s, run[0]), run[1..], j);
    }
  }

  /** Working off is a run of the worker's steps, and the last one ends the job. */
  lemma {:induction false} WorkOffIsRun(s: State, draws: nat -> Draw) returns (run: seq<Step>)
    requires AtWork(s)
    ensures Possible(s, run) && After(s, run) == WorkOff(s, draws) && Alone(run)
    ensures var t, j := WorkOff(s, draws), s.workers[0].job;
      t.workers == [Waiting] && j in t.jobs && Terminal(t.jobs[j].status)
    decreases BatchRuns.Weight(s, s.workers[0])
  {
    var step := if CanFinish(s, 0) then Finish(0) else NextStep(s, draws);
    var t := Apply(s, step);
    var rest := [];
    if !CanFinish(s, 0) {
      BatchRuns.WorkerLighter(s, step, t.workers[0]);
      rest := WorkOffIsRun(t, draws);
    }
    run := [step] + rest;
    BatchRuns.Prepend(s, step, rest);
  }

  /** A job that has run alone is all or nothing. */
  lemma WorkedOff(s: State, draws: nat -> Draw)
    requires BatchRows.BatchInv(s) && AtWork(s) && BatchBalance.Lost(s, s.workers[0].job) == 0
    ensures var t, j := WorkOff(s, draws), s.workers[0].job;
      && BatchRows.BatchInv(t) && t.workers == [Waiting]
      && j in t.jobs && Terminal(t.jobs[j].status) && BatchRuns.EndedWell(t.store, t.jobs[j], j, 0)
  {
    var run := WorkOffIsRun(s, draws);
    EndsAlone(s, run, WorkOff(s, draws), s.workers[0].job);
  }

  lemma EndsAlone(s: State, run: seq<Step>, t: State, j: nat)
    requires BatchRows.BatchInv(s) && BatchBalance.Lost(s, j) == 0
    requires Possible(s, run) && Alone(run) && t == After(s, run) && j in t.jobs && Terminal(t.jobs[j].status)
    ensures BatchRows.BatchInv(t) && BatchRuns.EndedWell(t.store, t.jobs[j], j, 0)
  {
    BatchRuns.RunKeepsInv(s, run);
    NothingRemoved(s, run, j);
    BatchRuns.BatchesAllOrNothing(s, run, j);
  }

  /** The rows that the worker has made and not yet undone. */
  function Made(worker: Worker): seq<nat> {
    match worker
    case Creating(_, _, created, _) => created
    case Undoing(_, _, created, undone) => if undone <= |created| then created[undone..] else []
    case _ => []
  }

  ghost predicate Building(s0: Store, s: State) {
    AtWork(s) && LinkStore.Inv(s0) && LinkStore.Inv(s.store) && Grown(s0, s.store, Made(s.workers[0]))
  }

  /** A failed job that has run alone leaves rows, index and cache as they were. */
  lemma {:induction false} FailedWithoutTrace(s0: Store, s: State, draws: nat -> Draw)
    requires Building(s0, s)
    ensures var t, j := WorkOff(s, draws), s.workers[0].job;
      j in t.jobs && (t.jobs[j].status == Failed ==> Restored(s0, t.store))
    decreases BatchRuns.Weight(s, s.workers[0])
  {
    if CanFinish(s, 0) {
      LastStep(s0, s);
    } else {
      var step := NextStep(s, draws);
      BatchRuns.WorkerLighter(s, step, Apply(s, step).workers[0]);
      StepBuilds(s0, s, draws, step);
      FailedWithoutTrace(s0, Apply(s, step), draws);
    }
  }

  lemma LastStep(s0: Store, s: State)
    requires Building(s0, s) && CanFinish(s, 0)
    ensures DoFinish(s, 0).jobs[s.workers[0].job].status == Failed ==> Restored(s0, s.store)
  {
    if Made(s.workers[0]) == [] {
      AllUndone(s0, s.store);
    }
  }

  lemma StepBuilds(s0: Store, s: State, draws: nat -> Draw, step: Step)
    requires Building(s0, s) && !CanFinish(s, 0) && step == NextStep(s, draws)
    ensures Building(s0, Apply(s, step))
  {
    if step.Item? {
      ItemGrows(s0, s, step.draw);
    } else if step.StartUndo? {
      assert s.workers[0].created[0..] == s.workers[0].created;
    } else {
      UndoneShrinks(s0, s);
    }
  }

  lemma ItemGrows(s0: Store, s: State, draw: Draw)
    requires LinkStore.Inv(s0) && LinkStore.Inv(s.store) && CanAdvance(s, 0) && Grown(s0, s.store, Made(s.workers[0]))
    ensures var t := Advance(s, 0, draw); LinkStore.Inv(t.store) && Grown(s0, t.store, Made(t.workers[0]))
  {
    var worker := s.workers[0];
    var job := s.jobs[worker.job];
    var req := job.links[|worker.results|];
    CreateGrows(s0, s.store, worker.created, job.userId, req, draw, Some(worker.job));
  }

  lemma UndoneShrinks(s0: Store, s: State)
    requires LinkStore.Inv(s0) && LinkStore.Inv(s.store) && CanUndo(s, 0) && Grown(s0, s.store, Made(s.workers[0]))
    ensures var t := DoUndo(s, 0); LinkStore.Inv(t.store) && Grown(s0, t.store, Made(t.workers[0]))
  {
    var worker := s.workers[0];
    assert worker.created[worker.undone..][1..] == worker.created[worker.undone + 1..];
    UndoShrinks(s0, s.store, worker.created[worker.undone..]);
  }

  /** One turn of the worker: the job at the head of the queue ends, and is all or nothing. */
  lemma TurnEndsJob(s: State, draws: nat -> Draw)
    requires BatchRows.BatchInv(s) && s.workers == [Waiting] && CanTake(s, 0)
    ensures var t, j := WorkOff(DoTake(s, 0), draws), s.queue[0];
      && BatchRows.BatchInv(t) && t.workers == [Waiting]
      && j in t.jobs && Terminal(t.jobs[j].status) && BatchRuns.EndedWell(t.store, t.jobs[j], j, 0)
  {
    BatchRuns.StepKeepsInv(s, Take(0));
    NothingLost(s);
    WorkedOff(DoTake(s, 0), draws);
  }

  lemma NothingLost(s: State)
    requires QueueInv(s) && BatchRows.TagsInv(s) && s.workers == [Waiting] && CanTake(s, 0)
    ensures BatchBalance.Lost(DoTake(s, 0), s.queue[0]) == 0
  {
    var j := s.queue[0];
    assert j in s.queue;
    assert BatchRows.JobRows(s.store, s.jobs[j], j);
    assert BatchBalance.RowSet(s.store, j) == {} by {
      forall id | id in BatchBalance.RowSet(s.store, j)
        ensures false
      {
        assert BatchRows.Tagged(s.store, id, j);
      }
    }
    var t := DoTake(s, 0);
    assert t.workers == [Creating(j, [], [], 0)] && t.workers[1..] == [];
    assert BatchBalance.NotedRows(t.workers, j) == 0;
  }

  /** If it fails, the link table and the cache are what they were before its turn. */
  lemma TurnLeavesNoTrace(s: State, draws: nat -> Draw)
    requires LinkStore.Inv(s.store) && s.workers == [Waiting] && CanTake(s, 0)
    ensures var t, j := WorkOff(DoTake(s, 0), draws), s.queue[0];
      j in t.jobs && (t.jobs[j].status == Failed ==> Restored(s.store, t.store))
  {
    FailedWithoutTrace(s.store, DoTake(s, 0), draws);
  }

  lemma {:induction false} WorkOffKeepsRest(s: State, draws: nat -> Draw)
    requires AtWork(s)
    ensures var t := WorkOff(s, draws);
      t.queue == s.queue && t.closed == s.closed && t.submitters == s.submitters && t.jobs.Keys == s.jobs.Keys
    ensures forall j | j in s.jobs && j != s.workers[0].job :: WorkOff(s, draws).jobs[j] == s.jobs[j]
    decreases BatchRuns.Weight(s, s.workers[0])
  {
    if !CanFinish(s, 0) {
      var step := NextStep(s, draws);
      BatchRuns.WorkerLighter(s, step, Apply(s, step).workers[0]);
      WorkOffKeepsRest(Apply(s, step), draws);
    }
  }

  /** The only worker takes jobs until the queue is empty. */
  function Emptied(s: State, draws: nat -> nat -> Draw): State
    decreases |s.queue|
  {
    if s.workers == [Waiting] && CanTake(s, 0) then
      WorkOffKeepsRest(DoTake(s, 0), draws(s.queue[0]));
      Emptied(WorkOff(DoTake(s, 0), draws(s.queue[0])), draws)
    else s
  }

  predicate QueueKnown(s: State) {
    forall k | 0 <= k < |s.queue| :: s.queue[k] in s.jobs
  }

  /** Then every job has ended. */
  lemma {:induction false} EmptiedEndsAll(s: State, draws: nat -> nat -> Draw)
    requires BatchRows.BatchInv(s) && s.workers == [Waiting] && s.closed
    ensures var t := Emptied(s, draws);
      BatchRows.BatchInv(t) && t.jobs.Keys == s.jobs.Keys && t.queue == [] && forall j | j in t.jobs ::
        Terminal(t.jobs[j].status)
    decreases |s.queue|
  {
    if s.queue == [] {
      NothingLeft(s);
    } else {
      HeadCanBeTaken(s);
      var next := WorkOff(DoTake(s, 0), draws(s.queue[0]));
      NextTurn(s, draws(s.queue[0]), next);
      EmptiedEndsAll(next, draws);
    }
  }

  lemma NextTurn(s: State, draws: nat -> Draw, next: State)
    requires BatchRows.BatchInv(s) && s.workers == [Waiting] && s.closed && CanTake(s, 0)
    requires next == WorkOff(DoTake(s, 0), draws)
    ensures BatchRows.BatchInv(next) && next.workers == [Waiting] && next.closed
    ensures next.queue == s.queue[1..] && next.jobs.Keys == s.jobs.Keys
  {
    TurnEndsJob(s, draws);
    WorkOffKeepsRest(DoTake(s, 0), draws);
  }

  lemma HeadCanBeTaken(s: State)
    requires QueueInv(s) && s.workers == [Waiting] && s.queue != []
    ensures CanTake(s, 0)
  {
    assert s.queue[0] in s.queue;
    assert s.enqueued[|s.taken|] == s.queue[0];
  }

  lemma NothingLeft(s: State)
    requires BatchRows.BatchInv(s) && s.workers == [Waiting] && s.closed && s.queue == []
    ensures forall j | j in s.jobs :: Terminal(s.jobs[j].status)
  {
    BatchRuns.StepKeepsInv(s, Exit(0));
    BatchRuns.AllJobsEnd(Apply(s, Exit(0)));
  }

  class Service {
    const links: LinkService.Service
    const hash: string -> string
    const queueSize: nat
    const maxItems: nat

    var jobs: map<nat, Job>
    var byKey: map<string, nat>
    var nextJob: nat
    var jobChan: seq<nat>
    var closed: bool

    ghost var enqueued: seq<nat>
    ghost var taken: seq<nat>

    constructor (links: LinkService.Service, hash: string -> string, queueSize: nat, maxBatchSize: nat)
      requires links.Valid() && forall id | id in links.rows :: links.rows[id].batchJob == None
      ensures this.links == links && this.hash == hash && this.queueSize == queueSize && maxItems == 10 * maxBatchSize
      ensures BatchRows.BatchInv(View(Idle, Waiting))
    {
      this.links, this.hash, this.queueSize, maxItems := links, hash, queueSize, maxBatchSize * 10;
      jobs, byKey, nextJob, jobChan, closed := map[], map[], 0, [], false;
      enqueued, taken := [], [];
    }

    /** The state of the step system, as seen with this submitter and this worker. */
    ghost function View(submitter: Submitter, worker: Worker): State
      reads this, links
    {
      State(links.View(), jobs, byKey, nextJob, jobChan, queueSize, maxItems, closed, [submitter], [worker],
          enqueued, taken)
    }

    method SubmitAsync(userId: nat, items: seq<CreateRequest>) returns (job: Result<nat, SubmitError>)
      requires !closed
      modifies this
      ensures forall worker ::
        (View(Idle, worker), job) == Submitted(old(View(Idle, worker)), userId, items,
                                               hash(IdempotencyKey.HashedText(userId, IdempotencyKey.Urls(items))))
    {
      if |items| > maxItems {
        return Failure(TooLarge);
      }
      var key := IdempotencyKey.ComputeIdempotencyKey(userId, items, hash);
      if key in byKey && byKey[key] in jobs && jobs[byKey[key]].status in {Completed, Running} {
        return Success(byKey[key]);
      }
      if key in byKey {
        return Success(byKey[key]);
      }
      var id, row := nextJob, Job(userId, key, items, Pending, |items|, 0, 0, 0, Nothing, [Pending]);
      jobs, byKey, nextJob := jobs[id := row], byKey[key := id], nextJob + 1;
      if |jobChan| < queueSize {
        jobChan := jobChan + [id];
        enqueued := enqueued + [id];
        return Success(id);
      }
      jobs := jobs[id := SetStatus(row.(report := QueueFull), Failed)];
      assert jobs == old(jobs)[id := jobs[id]];
      return Failure(Full);
    }

    /** One round of the loop over the items. */
    method TryItem(id: nat, userId: nat, req: CreateRequest, draw: Draw, results: seq<ItemResult>,
        created: seq<nat>, failures: nat)
      returns (results': seq<ItemResult>, created': seq<nat>, failures': nat)
      requires links.Valid() && id in jobs && |results| < |jobs[id].links|
      requires userId == jobs[id].userId && req == jobs[id].links[|results|]
      modifies this`jobs, links
      ensures links.Valid()
      ensures View(Idle, Creating(id, results', created', failures'))
           == old(Apply(View(Idle, Creating(id, results, created, failures)), Item(0, draw)))
      ensures |results'| == |results| + 1
    {
      var link := links.CreateWithBatchId(userId, req, draw, Some(id));
      results', created', failures' := results, created, failures;
      if link.Failure? {
        failures' := failures + 1;
        results' := results + [ItemResult(req.url, None, false, Some(Refused(link.error)))];
      } else {
        created' := created + [link.value.id];
        results' := results + [ItemResult(req.url, Some(link.value.code), true, None)];
      }
      if |results'| % 10 == 0 {
        jobs := jobs[id := jobs[id].(processed := |results'|, successes := |created'|, failures := failures')];
      }
    }

    /** Deletes what the job has created, in the order of creation. */
    method RollBack(id: nat, results: seq<ItemResult>, created: seq<nat>, ghost draws: nat -> Draw)
      requires links.Valid()
      modifies links
      ensures links.Valid()
      ensures WorkOff(View(Idle, Undoing(id, results, created, |created|)), draws)
           == old(WorkOff(View(Idle, Undoing(id, results, created, 0)), draws))
    {
      for k := 0 to |created|
        invariant links.Valid()
        invariant WorkOff(View(Idle, Undoing(id, results, created, k)), draws)
               == old(WorkOff(View(Idle, Undoing(id, results, created, 0)), draws))
      {
        UndoOne(id, results, created, k, draws);
      }
    }

    method UndoOne(id: nat, results: seq<ItemResult>, created: seq<nat>, k: nat, ghost draws: nat -> Draw)
      requires links.Valid() && k < |created|
      modifies links
      ensures links.Valid()
      ensures WorkOff(View(Idle, Undoing(id, results, created, k + 1)), draws)
           == old(WorkOff(View(Idle, Undoing(id, results, created, k)), draws))
    {
      ghost var before := View(Idle, Undoing(id, results, created, k));
      links.ForceDelete(created[k]);
      assert View(Idle, Undoing(id, results, created, k + 1)) == DoUndo(before, 0);
    }

    /** The loop over the items of a job. */
    method TryItems(id: nat, draws: nat -> Draw)
      returns (results: seq<ItemResult>, created: seq<nat>, failures: nat)
      requires links.Valid() && id in jobs
      modifies this`jobs, links
      ensures links.Valid() && id in jobs && jobs[id].links == old(jobs[id].links) && |results| == |jobs[id].links|
      ensures WorkOff(View(Idle, Creating(id, results, created, failures)), draws)
           == old(WorkOff(View(Idle, Creating(id, [], [], 0)), draws))
    {
      var items, userId := jobs[id].links, jobs[id].userId;
      results, created, failures := [], [], 0;
      for i := 0 to |items|
        invariant links.Valid() && id in jobs && jobs[id].links == items && jobs[id].userId == userId && |results| == i
        invariant WorkOff(View(Idle, Creating(id, results, created, failures)), draws)
               == old(WorkOff(View(Idle, Creating(id, [], [], 0)), draws))
      {
        results, created, failures := TryItem(id, userId, items[i], draws(i), results, created, failures);
      }
    }

    /** The next job from the queue, from its first item to its last status. */
    method ProcessJob(draws: nat -> Draw) returns (id: nat)
      requires links.Valid() && jobChan != [] && jobChan[0] in jobs
      modifies this, links
      ensures links.Valid() && id == old(jobChan[0])
      ensures View(Idle, Waiting) == WorkOff(old(DoTake(View(Idle, Waiting), 0)), draws)
    {
      id := jobChan[0];
      ghost var s := View(Idle, Waiting);
      jobChan, taken := jobChan[1..], taken + [id];
      jobs := jobs[id := SetStatus(jobs[id], Running)];
      assert View(Idle, Creating(id, [], [], 0)) == DoTake(s, 0);
      var results, created, failures := TryItems(id, draws);
      EndJob(id, results, created, failures, draws);
    }

    /** The end of a job: its rollback where one item failed, and its last status. */
    method EndJob(id: nat, results: seq<ItemResult>, created: seq<nat>, failures: nat, ghost draws: nat -> Draw)
      requires links.Valid() && id in jobs && |results| == |jobs[id].links|
      modifies this`jobs, links
      ensures links.Valid()
      ensures View(Idle, Waiting) == old(WorkOff(View(Idle, Creating(id, results, created, failures)), draws))
    {
      ghost var me := Creating(id, results, created, failures);
      ghost var start := View(Idle, me);
      var total, reported, successes := |jobs[id].links|, results, |created|;
      if failures > 0 && created != [] {
        me := Undoing(id, results, created, |created|);
        assert View(Idle, Undoing(id, results, created, 0)) == DoStartUndo(start, 0);
        RollBack(id, results, created, draws);
        reported, successes := UnmarkAll(results), 0;
      }
      ghost var before := View(Idle, me);
      assert WorkOff(before, draws) == WorkOff(start, draws);
      jobs := jobs[id := SetStatus(jobs[id].(processed := total, successes := successes, failures := total - successes,
                                             report := Items(reported)),
                                   if failures == 0 then Completed else Failed)];
      assert View(Idle, Waiting) == DoFinish(before, 0);
    }

    /** The queue is closed, and its worker empties it and returns. */
    method Shutdown(draws: nat -> nat -> Draw)
      requires links.Valid() && QueueKnown(View(Idle, Waiting))
      modifies this, links
      ensures links.Valid() && jobChan == []
      ensures View(Idle, Waiting) == Emptied(old(View(Idle, Waiting)).(closed := true), draws)
    {
      closed := true;
      while jobChan != []
        invariant links.Valid() && QueueKnown(View(Idle, Waiting))
        invariant Emptied(View(Idle, Waiting), draws) == Emptied(old(View(Idle, Waiting)).(closed := true), draws)
        decreases |jobChan|
      {
        WorkOffKeepsRest(DoTake(View(Idle, Waiting), 0), draws(jobChan[0]));
        var id := ProcessJob(draws(jobChan[0]));
      }
    }
  }
}
