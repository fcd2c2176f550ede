/** The access-log pipeline: callers fill a bounded channel without ever blocking, workers drain
    it in batches, and a batch that the database refuses four times goes to the fallback sink.
    Any interleaving of callers and workers is a sequence of the steps below. */
module AccessLog {

  const BATCH_LIMIT: nat := 100
  const MAX_RETRIES: nat := 3

  datatype Entry = Entry(linkId: nat, ip: string, userAgent: string, referer: string, accessedAt: int)

  /** An entry with the number of the call that submitted it, which tells equal entries apart. */
  datatype Item = Item(id: nat, entry: Entry)

  /** Where a worker is in its loops; Leaving is the last flush before it returns. */
  datatype Phase = Running | Draining | Leaving | Exited

  /** A flush in progress holds its copy of the batch and the number of failed attempts so far.
      The output is everything the worker has handed to a sink, in order. */
  datatype Worker = Worker(phase: Phase, batch: seq<Item>, writing: seq<Item>, failures: nat, output: seq<Item>)

  datatype State = State(
    capacity: nat,
    channel: seq<Item>,
    stopped: bool,
    dropped: nat,
    workers: seq<Worker>,
    database: seq<Item>,
    fallback: seq<Item>,
    // what happened so far
    submitted: seq<Item>,
    accepted: seq<Item>,
    refused: seq<Item>)

  datatype Step =
    | Record(entry: Entry)
    | Stop
    | Receive(w: nat)
    | Tick(w: nat)
    | NoticeStop(w: nat)
    | Drained(w: nat)
    | WriteOk(w: nat)
    | WriteFail(w: nat)

  function Fresh(): Worker {
    Worker(Running, [], [], 0, [])
  }

  function Init(capacity: nat, workers: nat): State {
    State(capacity, [], false, 0, seq(workers, _ => Fresh()), [], [], [], [], [])
  }

  predicate Enabled(s: State, step: Step) {
    match step
    case Record(_) => true
    case Stop => true
    case Receive(w) =>
      w < |s.workers| && s.workers[w].writing == [] && s.workers[w].phase in {Running, Draining} && s.channel != []
    case Tick(w) => w < |s.workers| && s.workers[w].writing == [] && s.workers[w].phase == Running
    case NoticeStop(w) => w < |s.workers| && s.workers[w].writing == [] && s.workers[w].phase == Running && s.stopped
    case Drained(w) =>
      w < |s.workers| && s.workers[w].writing == [] && s.workers[w].phase == Draining && s.channel == []
    case WriteOk(w) => w < |s.workers| && s.workers[w].writing != []
    case WriteFail(w) => w < |s.workers| && s.workers[w].writing != []
  }

  /** The flush closure: nothing for an empty batch, otherwise a copy to write and a fresh batch. */
  function Flush(w: Worker): Worker {
    if w.batch == [] then w else w.(batch := [], writing := w.batch, failures := 0)
  }

  function Took(w: Worker, item: Item): Worker {
    var more := w.(batch := w.batch + [item]);
    if |more.batch| >= BATCH_LIMIT then Flush(more) else more
  }

  /** A flush that has reached a sink; a leaving worker returns. */
  function Written(w: Worker): Worker {
    w.(output := w.output + w.writing, writing := [], failures := 0,
       phase := if w.phase == Leaving then Exited else w.phase)
  }

  function Leave(w: Worker): Worker {
    if w.batch == [] then w.(phase := Exited) else Flush(w).(phase := Leaving)
  }

  function Apply(s: State, step: Step): State
    requires Enabled(s, step)
  {
    match step
    case Record(entry) =>
      var item := Item(|s.submitted|, entry);
      if |s.channel| < s.capacity then
        s.(channel := s.channel + [item], submitted := s.submitted + [item], accepted := s.accepted + [item])
      else
        s.(dropped := s.dropped + 1, submitted := s.submitted + [item], refused := s.refused + [item])
    case Stop => s.(stopped := true)
    case Receive(w) =>
      s.(channel := s.channel[1..], workers := s.workers[w := Took(s.workers[w], s.channel[0])])
    case Tick(w) => s.(workers := s.workers[w := Flush(s.workers[w])])
    case NoticeStop(w) => s.(workers := s.workers[w := s.workers[w].(phase := Draining)])
    case Drained(w) => s.(workers := s.workers[w := Leave(s.workers[w])])
    case WriteOk(w) =>
      s.(database := s.database + s.workers[w].writing, workers := s.workers[w := Written(s.workers[w])])
    case WriteFail(w) =>
      var worker := s.workers[w];
      if worker.failures < MAX_RETRIES then
        s.(workers := s.workers[w := worker.(failures := worker.failures + 1)])
      else
        s.(fallback := s.fallback + worker.writing, workers := s.workers[w := Written(worker)])
  }

  predicate Possible(s: State, run: seq<Step>)
    decreases |run|
  {
    run == [] || (Enabled(s, run[0]) && Possible(Apply(s, run[0]), run[1..]))
  }

  function After(s: State, run: seq<Step>): State
    requires Possible(s, run)
    decreases |run|
  {
    if run == [] then s else After(Apply(s, run[0]), run[1..])
  }

  // ------------------------------------------------------------------ sums over workers

  function Pending(w: Worker): seq<Item> {
    w.writing + w.batch
  }

  function Sum(parts: seq<seq<Item>>): multiset<Item> {
    if parts == [] then multiset{} else Sum(parts[..|parts| - 1]) + multiset(parts[|parts| - 1])
  }

  function AllPending(workers: seq<Worker>): multiset<Item> {
    Sum(PendingParts(workers))
  }

  function AllOutput(workers: seq<Worker>): multiset<Item> {
    Sum(OutputParts(workers))
  }

  lemma {:induction false} PartReplaced(parts: seq<seq<Item>>, k: nat, now: seq<Item>)
    requires k < |parts|
    ensures Sum(parts[k := now]) + multiset(parts[k]) == Sum(parts) + multiset(now)
  {
    var init, last := parts[..|parts| - 1], parts[|parts| - 1];
    var changed := parts[k := now];
    assert Sum(changed) == Sum(changed[..|parts| - 1]) + multiset(changed[|parts| - 1]);
    assert Sum(parts) == Sum(init) + multiset(last);
    if k == |parts| - 1 {
      assert changed[..|parts| - 1] == init && changed[|parts| - 1] == now;
    } else {
      assert changed[|parts| - 1] == last && init[k] == parts[k];
      assert changed[..|parts| - 1] == init[k := now];
      PartReplaced(init, k, now);
      assert Sum(init[k := now]) + multiset(parts[k]) == Sum(init) + multiset(now);
      assert Sum(changed) == Sum(init[k := now]) + multiset(last);
      assert Sum(changed) + multiset(parts[k]) == Sum(init[k := now]) + multiset(parts[k]) + multiset(last);
    }
    assert Sum(changed) + multiset(parts[k]) == Sum(parts) + multiset(now);
  }

  function PendingParts(workers: seq<Worker>): (parts: seq<seq<Item>>)
    ensures |parts| == |workers|
  {
    seq(|workers|, i requires 0 <= i < |workers| => Pending(workers[i]))
  }

  function OutputParts(workers: seq<Worker>): (parts: seq<seq<Item>>)
    ensures |parts| == |workers|
  {
    seq(|workers|, i requires 0 <= i < |workers| => workers[i].output)
  }

  /** One worker's change is all that the sums see. */
  lemma WorkerReplaced(workers: seq<Worker>, w: nat, now: Worker)
    requires w < |workers|
    ensures AllPending(workers[w := now]) + multiset(Pending(workers[w]))
        == AllPending(workers) + multiset(Pending(now))
    ensures AllOutput(workers[w := now]) + multiset(workers[w].output) == AllOutput(workers) + multiset(now.output)
  {
    PartReplaced(PendingParts(workers), w, Pending(now));
    PartReplaced(OutputParts(workers), w, now.output);
    PartsReplaced(workers, w, now);
  }

  lemma PartsReplaced(workers: seq<Worker>, w: nat, now: Worker)
    requires w < |workers|
    ensures PendingParts(workers[w := now]) == PendingParts(workers)[w := Pending(now)]
    ensures OutputParts(workers[w := now]) == OutputParts(workers)[w := now.output]
  {
  }

  // ------------------------------------------------------------------------- invariant

  predicate Increasing(items: seq<Item>) {
    forall i, j | 0 <= i < j < |items| :: items[i].id < items[j].id
  }

  /** Everything the worker ever took from the channel, in the order it took it. */
  function History(w: Worker): seq<Item> {
    w.output + w.writing + w.batch
  }

  lemma HistoryKept(w: Worker, item: Item)
    ensures History(Flush(w)) == History(w) || w.writing != []
    ensures History(Written(w)) == History(w)
    ensures w.writing == [] ==> History(Leave(w)) == History(w)
    ensures w.writing == [] ==> History(Took(w, item)) == History(w) + [item]
  {
    assert w.output + [] + w.batch == w.output + w.batch;
    assert w.output + [] + (w.batch + [item]) == w.output + (w.batch + [item]) + [];
    assert w.output + w.batch + [] == w.output + [] + w.batch;
    assert (w.output + w.writing) + [] + w.batch == w.output + w.writing + w.batch;
  }

  predicate PhaseInv(stopped: bool, w: Worker) {
    && |w.batch| < BATCH_LIMIT
    && |w.writing| <= BATCH_LIMIT
    && w.failures <= MAX_RETRIES
    && (w.phase != Running ==> stopped)
    && (w.phase == Leaving ==> w.batch == [] && w.writing != [])
    && (w.phase == Exited ==> w.batch == [] && w.writing == [])
  }

  predicate WorkerInv(s: State, w: Worker) {
    && PhaseInv(s.stopped, w)
    && Increasing(History(w) + s.channel)
    && forall item | item in History(w) :: item in s.accepted
  }

  /** Ids number the submissions; channel and workers keep the order of acceptance. */
  predicate OrderInv(s: State) {
    && |s.channel| <= s.capacity
    && (forall i | 0 <= i < |s.submitted| :: s.submitted[i].id == i)
    && (forall item | item in s.accepted :: item.id < |s.submitted|)
    && (forall item | item in s.channel :: item in s.accepted)
    && Increasing(s.accepted)
    && Increasing(s.channel)
    && forall w | 0 <= w < |s.workers| :: WorkerInv(s, s.workers[w])
  }

  /** What is in no worker's hands: still in the channel, or in a sink. */
  function Settled(s: State): multiset<Item> {
    multiset(s.channel) + multiset(s.database) + multiset(s.fallback)
  }

  /** Nothing is lost and nothing is invented. */
  predicate SumInv(s: State) {
    && s.dropped == |s.refused|
    && multiset(s.submitted) == multiset(s.refused) + multiset(s.accepted)
    && multiset(s.accepted) == AllPending(s.workers) + Settled(s)
    && multiset(s.database) + multiset(s.fallback) == AllOutput(s.workers)
  }

  lemma IncreasingParts(a: seq<Item>, b: seq<Item>)
    requires Increasing(a + b)
    ensures Increasing(a) && Increasing(b)
  {
    assert forall i | 0 <= i < |a| :: (a + b)[i] == a[i];
    assert forall i | 0 <= i < |b| :: (a + b)[|a| + i] == b[i];
  }

  lemma IncreasingWithout(a: seq<Item>, b: seq<Item>)
    requires b != [] && Increasing(a + b)
    ensures Increasing(a + b[1..])
  {
    var all, fewer := a + b, a + b[1..];
    forall i, j | 0 <= i < j < |fewer|
      ensures fewer[i].id < fewer[j].id
    {
      assert fewer[i] == all[if i < |a| then i else i + 1];
      assert fewer[j] == all[if j < |a| then j else j + 1];
    }
  }

  lemma IncreasingMore(a: seq<Item>, item: Item)
    requires Increasing(a) && forall x | x in a :: x.id < item.id
    ensures Increasing(a + [item])
  {
  }

  /** One worker moves on without touching the channel or its history. */
  lemma WorkerMoves(s: State, w: nat, now: Worker, t: State)
    requires OrderInv(s) && w < |s.workers|
    requires PhaseInv(s.stopped, now) && History(now) == History(s.workers[w])
    requires t == s.(workers := s.workers[w := now], database := t.database, fallback := t.fallback)
    ensures OrderInv(t)
  {
    forall k | 0 <= k < |t.workers|
      ensures WorkerInv(t, t.workers[k])
    {
      assert WorkerInv(s, s.workers[k]);
    }
  }

  lemma RecordKeepsOrder(s: State, entry: Entry)
    requires OrderInv(s)
    ensures OrderInv(Apply(s, Record(entry)))
  {
    var t := Apply(s, Record(entry));
    if |s.channel| < s.capacity {
      var item := Item(|s.submitted|, entry);
      IncreasingMore(s.accepted, item);
      IncreasingMore(s.channel, item);
      forall k | 0 <= k < |t.workers|
        ensures WorkerInv(t, t.workers[k])
      {
        var history := History(s.workers[k]);
        assert WorkerInv(s, s.workers[k]);
        IncreasingMore(history + s.channel, item);
        assert history + t.channel == (history + s.channel) + [item];
      }
    } else {
      forall k | 0 <= k < |t.workers|
        ensures WorkerInv(t, t.workers[k])
      {
        assert WorkerInv(s, s.workers[k]);
      }
    }
  }

  lemma ReceiveKeepsWorker(s: State, w: nat, k: nat)
    requires OrderInv(s) && Enabled(s, Receive(w)) && k < |s.workers|
    ensures WorkerInv(Apply(s, Receive(w)), Apply(s, Receive(w)).workers[k])
  {
    var history := History(s.workers[k]);
    assert WorkerInv(s, s.workers[k]);
    if k == w {
      HistoryKept(s.workers[w], s.channel[0]);
      assert (history + [s.channel[0]]) + s.channel[1..] == history + s.channel;
    } else {
      IncreasingWithout(history, s.channel);
    }
  }

  lemma ReceiveKeepsOrder(s: State, w: nat)
    requires OrderInv(s) && Enabled(s, Receive(w))
    ensures OrderInv(Apply(s, Receive(w)))
  {
    var t := Apply(s, Receive(w));
    assert [] + s.channel == s.channel && [] + s.channel[1..] == t.channel;
    IncreasingWithout([], s.channel);
    forall item | item in t.channel
      ensures item in t.accepted
    {
      assert item in s.channel;
    }
    forall k | 0 <= k < |t.workers|
      ensures WorkerInv(t, t.workers[k])
    {
      ReceiveKeepsWorker(s, w, k);
    }
  }

  lemma StopKeepsOrder(s: State)
    requires OrderInv(s)
    ensures OrderInv(Apply(s, Stop))
  {
    var t := Apply(s, Stop);
    forall k | 0 <= k < |t.workers|
      ensures WorkerInv(t, t.workers[k])
    {
      assert WorkerInv(s, s.workers[k]);
    }
  }

  lemma StepKeepsOrder(s: State, step: Step)
    requires OrderInv(s) && Enabled(s, step)
    ensures OrderInv(Apply(s, step))
  {
    match step
    case Record(entry) => RecordKeepsOrder(s, entry);
    case Stop => StopKeepsOrder(s);
    case Receive(w) => ReceiveKeepsOrder(s, w);
    case Tick(w) =>
      assert WorkerInv(s, s.workers[w]);
      HistoryKept(s.workers[w], Item(0, Entry(0, "", "", "", 0)));
      WorkerMoves(s, w, Flush(s.workers[w]), Apply(s, step));
    case NoticeStop(w) =>
      assert WorkerInv(s, s.workers[w]);
      WorkerMoves(s, w, s.workers[w].(phase := Draining), Apply(s, step));
    case Drained(w) =>
      assert WorkerInv(s, s.workers[w]);
      HistoryKept(s.workers[w], Item(0, Entry(0, "", "", "", 0)));
      WorkerMoves(s, w, Leave(s.workers[w]), Apply(s, step));
    case WriteOk(w) =>
      assert WorkerInv(s, s.workers[w]);
      HistoryKept(s.workers[w], s.workers[w].writing[0]);
      WorkerMoves(s, w, Written(s.workers[w]), Apply(s, step));
    case WriteFail(w) =>
      assert WorkerInv(s, s.workers[w]);
      HistoryKept(s.workers[w], s.workers[w].writing[0]);
      if s.workers[w].failures < MAX_RETRIES {
        WorkerMoves(s, w, s.workers[w].(failures := s.workers[w].failures + 1), Apply(s, step));
      } else {
        WorkerMoves(s, w, Written(s.workers[w]), Apply(s, step));
      }
  }

  /** Sums survive when what a worker gives up turns up in the channel's or a sink's books. */
  lemma WorkerBalances(s: State, w: nat, now: Worker, t: State)
    requires SumInv(s) && w < |s.workers| && t.workers == s.workers[w := now]
    requires t.dropped == s.dropped && t.refused == s.refused && t.submitted == s.submitted && t.accepted == s.accepted
    requires Settled(t) + multiset(Pending(now)) == Settled(s) + multiset(Pending(s.workers[w]))
    requires multiset(now.output) + (multiset(s.database) + multiset(s.fallback))
          == multiset(s.workers[w].output) + (multiset(t.database) + multiset(t.fallback))
    ensures SumInv(t)
  {
    WorkerReplaced(s.workers, w, now);
    Balance(AllPending(s.workers), AllPending(t.workers), multiset(Pending(s.workers[w])), multiset(Pending(now)),
            Settled(s), Settled(t));
    Cancel(AllOutput(t.workers), multiset(s.workers[w].output), AllOutput(s.workers), multiset(now.output),
           multiset(t.database) + multiset(t.fallback));
  }

  lemma Cancel(all': multiset<Item>, part: multiset<Item>, all: multiset<Item>, part': multiset<Item>,
      sinks': multiset<Item>)
    requires all' + part == all + part'
    requires part' + all == part + sinks'
    ensures sinks' == all'
  {
    forall x
      ensures sinks'[x] == all'[x]
    {
      assert (all' + part)[x] == (part + sinks')[x];
    }
  }

  lemma Balance(all: multiset<Item>, all': multiset<Item>, part: multiset<Item>, part': multiset<Item>,
      rest: multiset<Item>, rest': multiset<Item>)
    requires all' + part == all + part'
    requires rest' + part' == rest + part
    ensures all' + rest' == all + rest
  {
    forall x
      ensures (all' + rest')[x] == (all + rest)[x]
    {
      assert (all' + part)[x] == (all + part')[x];
      assert (rest' + part')[x] == (rest + part)[x];
    }
  }

  lemma ReceiveKeepsSums(s: State, w: nat)
    requires SumInv(s) && Enabled(s, Receive(w))
    ensures SumInv(Apply(s, Receive(w)))
  {
    var now := Took(s.workers[w], s.channel[0]);
    assert s.channel == [s.channel[0]] + s.channel[1..];
    assert Pending(now) == Pending(s.workers[w]) + [s.channel[0]];
    WorkerBalances(s, w, now, Apply(s, Receive(w)));
  }

  lemma WrittenKeepsSums(s: State, w: nat, t: State)
    requires SumInv(s) && w < |s.workers|
    requires t == s.(workers := s.workers[w := Written(s.workers[w])], database := s.database + s.workers[w].writing)
      || t == s.(workers := s.workers[w := Written(s.workers[w])], fallback := s.fallback + s.workers[w].writing)
    ensures SumInv(t)
  {
    assert Pending(Written(s.workers[w])) == s.workers[w].batch;
    WorkerBalances(s, w, Written(s.workers[w]), t);
  }

  lemma RecordKeepsSums(s: State, entry: Entry)
    requires SumInv(s)
    ensures SumInv(Apply(s, Record(entry)))
  {
    if |s.channel| < s.capacity {
      AcceptKeepsSums(s, entry);
    } else {
      var t, item := Apply(s, Record(entry)), Item(|s.submitted|, entry);
      assert multiset(t.submitted) == multiset(s.submitted) + multiset{item};
      assert multiset(t.refused) == multiset(s.refused) + multiset{item};
      AddToSum(multiset(s.submitted), multiset(s.accepted), multiset(s.refused), item);
    }
  }

  lemma AcceptKeepsSums(s: State, entry: Entry)
    requires SumInv(s) && |s.channel| < s.capacity
    ensures SumInv(Apply(s, Record(entry)))
  {
    var t, item := Apply(s, Record(entry)), Item(|s.submitted|, entry);
    assert multiset(t.submitted) == multiset(s.submitted) + multiset{item};
    assert multiset(t.accepted) == multiset(s.accepted) + multiset{item};
    assert Settled(t) == Settled(s) + multiset{item};
    AddToSum(multiset(s.accepted), AllPending(s.workers), Settled(s), item);
    AddToSum(multiset(s.submitted), multiset(s.refused), multiset(s.accepted), item);
  }

  lemma AddToSum(total: multiset<Item>, a: multiset<Item>, b: multiset<Item>, item: Item)
    requires total == a + b
    ensures total + multiset{item} == a + (b + multiset{item})
    ensures total + multiset{item} == (b + multiset{item}) + a
  {
  }

  lemma StepKeepsSums(s: State, step: Step)
    requires SumInv(s) && Enabled(s, step)
    ensures SumInv(Apply(s, step))
  {
    match step
    case Record(entry) => RecordKeepsSums(s, entry);
    case Stop =>
    case Receive(w) => ReceiveKeepsSums(s, w);
    case Tick(w) =>
      assert Pending(Flush(s.workers[w])) == Pending(s.workers[w]);
      WorkerBalances(s, w, Flush(s.workers[w]), Apply(s, step));
    case NoticeStop(w) => WorkerBalances(s, w, s.workers[w].(phase := Draining), Apply(s, step));
    case Drained(w) =>
      assert Pending(Leave(s.workers[w])) == Pending(s.workers[w]);
      WorkerBalances(s, w, Leave(s.workers[w]), Apply(s, step));
    case WriteOk(w) => WrittenKeepsSums(s, w, Apply(s, step));
    case WriteFail(w) =>
      if s.workers[w].failures < MAX_RETRIES {
        WorkerBalances(s, w, s.workers[w].(failures := s.workers[w].failures + 1), Apply(s, step));
      } else {
        WrittenKeepsSums(s, w, Apply(s, step));
      }
  }

  // ------------------------------------------------------------------- over whole runs

  predicate Inv(s: State) {
    OrderInv(s) && SumInv(s)
  }

  lemma {:induction false} SumOfNothing(parts: seq<seq<Item>>)
    requires forall i | 0 <= i < |parts| :: parts[i] == []
    ensures Sum(parts) == multiset{}
  {
    if parts != [] {
      SumOfNothing(parts[..|parts| - 1]);
    }
  }

  lemma InitInv(capacity: nat, workers: nat)
    ensures Inv(Init(capacity, workers))
  {
    SumOfNothing(PendingParts(Init(capacity, workers).workers));
    SumOfNothing(OutputParts(Init(capacity, workers).workers));
  }

  lemma {:induction false} RunKeepsInv(s: State, run: seq<Step>)
    requires Inv(s) && Possible(s, run)
    ensures Inv(After(s, run))
    decreases |run|
  {
    if run != [] {
      StepKeepsOrder(s, run[0]);
      StepKeepsSums(s, run[0]);
      RunKeepsInv(Apply(s, run[0]), run[1..]);
    }
  }

  /** The entries of the RecordAccess calls of a run. */
  function Calls(run: seq<Step>): seq<Entry> {
    if run == [] then [] else (if run[0].Record? then [run[0].entry] else []) + Calls(run[1..])
  }

  function Entries(items: seq<Item>): seq<Entry> {
    seq(|items|, i requires 0 <= i < |items| => items[i].entry)
  }

  lemma {:induction false} SubmittedAreCalls(s: State, run: seq<Step>)
    requires Possible(s, run)
    ensures Entries(After(s, run).submitted) == Entries(s.submitted) + Calls(run)
    decreases |run|
  {
    if run != [] {
      var t := Apply(s, run[0]);
      SubmittedAreCalls(t, run[1..]);
      if run[0].Record? {
        assert Entries(t.submitted) == Entries(s.submitted) + [run[0].entry];
      }
    }
  }

  lemma OutputOrdered(s: State, w: nat)
    requires OrderInv(s) && w < |s.workers|
    ensures |s.workers[w].batch| < BATCH_LIMIT && Increasing(s.workers[w].output)
    ensures forall item | item in s.workers[w].output :: item in s.accepted
  {
    var worker := s.workers[w];
    assert WorkerInv(s, worker);
    var rest := worker.writing + worker.batch + s.channel;
    assert History(worker) + s.channel == worker.output + rest;
    IncreasingParts(worker.output, rest);
    forall item | item in worker.output
      ensures item in s.accepted
    {
      assert item in History(worker);
    }
  }

  lemma SumsAccount(s: State)
    requires SumInv(s)
    ensures multiset(s.submitted) == multiset(s.refused) + multiset(s.channel) + AllPending(s.workers)
                                     + multiset(s.database) + multiset(s.fallback)
  {
    Regroup(multiset(s.refused), AllPending(s.workers), multiset(s.channel), multiset(s.database),
        multiset(s.fallback));
  }

  lemma Regroup(a: multiset<Item>, b: multiset<Item>, c: multiset<Item>, d: multiset<Item>, e: multiset<Item>)
    ensures a + (b + (c + d + e)) == a + c + b + d + e
  {
  }

  /** Each submission is in exactly one place, the channel is bounded, batches stay below the limit,
      the counter counts the refusals, and each worker's output keeps the order of acceptance. */
  predicate Accounted(s: State) {
    && multiset(s.submitted) == multiset(s.refused) + multiset(s.channel) + AllPending(s.workers)
                                + multiset(s.database) + multiset(s.fallback)
    && (forall i | 0 <= i < |s.submitted| :: s.submitted[i].id == i)
    && |s.channel| <= s.capacity
    && s.dropped == |s.refused|
    && Increasing(s.accepted)
    && forall w | 0 <= w < |s.workers| ::
         && |s.workers[w].batch| < 100
         && Increasing(s.workers[w].output)
         && forall item | item in s.workers[w].output :: item in s.accepted
  }

  lemma InvAccounts(s: State)
    requires Inv(s)
    ensures Accounted(s)
  {
    SumsAccount(s);
    forall w | 0 <= w < |s.workers|
      ensures |s.workers[w].batch| < 100 && Increasing(s.workers[w].output)
      ensures forall item | item in s.workers[w].output :: item in s.accepted
    {
      OutputOrdered(s, w);
    }
  }

  lemma ReachableAccounts(s: State, run: seq<Step>)
    requires Inv(s) && Possible(s, run)
    ensures Accounted(After(s, run))
  {
    RunKeepsInv(s, run);
    InvAccounts(After(s, run));
  }

  lemma SubmittedFromStart(capacity: nat, workers: nat, run: seq<Step>)
    requires Possible(Init(capacity, workers), run)
    ensures Entries(After(Init(capacity, workers), run).submitted) == Calls(run)
  {
    SubmittedAreCalls(Init(capacity, workers), run);
    assert Entries([]) == [];
  }

  /** In every state that any interleaving of calls and workers can reach, every entry ever passed to
      RecordAccess is accounted for. */
  lemma EveryEntryAccounted(capacity: nat, workers: nat, run: seq<Step>)
    requires Possible(Init(capacity, workers), run)
    ensures Accounted(After(Init(capacity, workers), run))
    ensures Entries(After(Init(capacity, workers), run).submitted) == Calls(run)
  {
    InitInv(capacity, workers);
    ReachableAccounts(Init(capacity, workers), run);
    SubmittedFromStart(capacity, workers, run);
  }

  lemma {:induction false} CapacityFixed(s: State, run: seq<Step>)
    requires Possible(s, run)
    ensures After(s, run).capacity == s.capacity && |After(s, run).workers| == |s.workers|
    decreases |run|
  {
    if run != [] {
      CapacityFixed(Apply(s, run[0]), run[1..]);
    }
  }

  // ------------------------------------------------------------------ stop and drain

  predicate Quiet(run: seq<Step>) {
    forall k | 0 <= k < |run| :: !run[k].Record?
  }

  function Weight(w: Worker): nat {
    6 * |w.batch|
    + (if w.writing == [] || w.failures > MAX_RETRIES then 0 else MAX_RETRIES + 1 - w.failures)
    + (match w.phase case Running => 2 case Draining => 1 case Leaving => 0 case Exited => 0)
  }

  function Total(weights: seq<nat>): nat {
    if weights == [] then 0 else Total(weights[..|weights| - 1]) + weights[|weights| - 1]
  }

  function Weights(workers: seq<Worker>): (weights: seq<nat>)
    ensures |weights| == |workers|
  {
    seq(|workers|, i requires 0 <= i < |workers| => Weight(workers[i]))
  }

  /** What the workers still have to do: receive, flush, retry, leave. */
  function Measure(s: State): nat {
    10 * |s.channel| + Total(Weights(s.workers))
  }

  lemma {:induction false} WeightReplaced(weights: seq<nat>, k: nat, now: nat)
    requires k < |weights|
    ensures Total(weights[k := now]) + weights[k] == Total(weights) + now
  {
    var init := weights[..|weights| - 1];
    if k == |weights| - 1 {
      assert weights[k := now][..|weights| - 1] == init;
    } else {
      assert weights[k := now][..|weights| - 1] == init[k := now];
      WeightReplaced(init, k, now);
    }
  }

  /** After the stop signal every step that is no call and changes anything brings the end nearer. */
  lemma StepDecreases(s: State, step: Step)
    requires OrderInv(s) && s.stopped && Enabled(s, step) && !step.Record? && Apply(s, step) != s
    ensures Measure(Apply(s, step)) < Measure(s)
  {
    if !step.Stop? {
      var t, w := Apply(s, step), step.w;
      assert WorkerInv(s, s.workers[w]);
      WeightReplaced(Weights(s.workers), w, Weight(t.workers[w]));
      assert Weights(t.workers) == Weights(s.workers)[w := Weight(t.workers[w])];
    }
  }

  /** The number of steps of a run that change anything. */
  function Moves(s: State, run: seq<Step>): nat
    requires Possible(s, run)
    decreases |run|
  {
    if run == [] then 0
    else (if Apply(s, run[0]) == s then 0 else 1) + Moves(Apply(s, run[0]), run[1..])
  }

  /** No schedule can keep the workers busy for more than the measure. */
  lemma {:induction false} DrainTerminates(s: State, run: seq<Step>)
    requires Inv(s) && s.stopped && Possible(s, run) && Quiet(run)
    ensures Moves(s, run) + Measure(After(s, run)) <= Measure(s)
    decreases |run|
  {
    if run != [] {
      var t := Apply(s, run[0]);
      assert !run[0].Record?;
      StepKeepsOrder(s, run[0]);
      StepKeepsSums(s, run[0]);
      if t != s {
        StepDecreases(s, run[0]);
      }
      assert Quiet(run[1..]);
      DrainTerminates(t, run[1..]);
    }
  }

  /** What a worker that has not returned can do next once the signal is out. */
  function NextMove(s: State, w: nat): Step
    requires w < |s.workers|
  {
    if s.workers[w].writing != [] then WriteOk(w)
    else if s.workers[w].phase == Running then NoticeStop(w)
    else if s.channel != [] then Receive(w)
    else Drained(w)
  }

  /** No worker that has not returned is ever stuck. */
  lemma DrainProgresses(s: State, w: nat)
    requires OrderInv(s) && s.stopped && w < |s.workers| && s.workers[w].phase != Exited
    ensures Enabled(s, NextMove(s, w)) && !NextMove(s, w).Record? && Apply(s, NextMove(s, w)) != s
  {
    assert WorkerInv(s, s.workers[w]);
    var t := Apply(s, NextMove(s, w));
    NextMoveChanges(s, w, t);
  }

  lemma NextMoveChanges(s: State, w: nat, t: State)
    requires w < |s.workers| && Enabled(s, NextMove(s, w)) && t == Apply(s, NextMove(s, w))
    ensures t != s
  {
    assert t.workers[w] != s.workers[w] || |t.channel| < |s.channel|;
  }

  /** Some worker still takes entries from the channel. */
  predicate Manned(s: State) {
    exists w | 0 <= w < |s.workers| :: s.workers[w].phase in {Running, Draining}
  }

  /** The calls of a run that are accepted when no worker takes entries any more. */
  function Late(s: State, run: seq<Step>): nat
    requires Possible(s, run)
    decreases |run|
  {
    if run == [] then 0
    else (if run[0].Record? && !Manned(s) && |s.channel| < s.capacity then 1 else 0) + Late(Apply(s, run[0]), run[1..])
  }

  /** The last worker to leave leaves an empty channel, and nobody comes back. */
  lemma StepManned(s: State, step: Step)
    requires Enabled(s, step)
    ensures !Manned(s) ==> !Manned(Apply(s, step))
    ensures !Manned(s) && step.Record? ==>
      |Apply(s, step).channel| == |s.channel| + if |s.channel| < s.capacity then 1 else 0
    ensures !Manned(s) && !step.Record? ==> Apply(s, step).channel == s.channel
    ensures Manned(s) && !Manned(Apply(s, step)) ==> Apply(s, step).channel == [] && !step.Record?
  {
    var t := Apply(s, step);
    if !Manned(s) && !step.Record? && !step.Stop? {
      assert s.workers[step.w].phase !in {Running, Draining};
    }
    if Manned(s) && !Manned(t) {
      var w :| 0 <= w < |s.workers| && s.workers[w].phase in {Running, Draining};
      assert t.workers[w].phase !in {Running, Draining};
    }
  }

  /** A channel that nobody reads any more holds what it held, or nothing, and the late calls. */
  lemma {:induction false} UnmannedChannel(s: State, run: seq<Step>)
    requires Possible(s, run)
    ensures !Manned(After(s, run)) ==>
      |After(s, run).channel| == Late(s, run) + if Manned(s) then 0 else |s.channel|
    decreases |run|
  {
    if run != [] {
      StepManned(s, run[0]);
      UnmannedChannel(Apply(s, run[0]), run[1..]);
    }
  }

  lemma {:induction false} QuietIsNotLate(s: State, run: seq<Step>)
    requires Possible(s, run) && Quiet(run)
    ensures Late(s, run) == 0 && After(s, run).accepted == s.accepted
    decreases |run|
  {
    if run != [] {
      assert !run[0].Record?;
      assert Quiet(run[1..]);
      QuietIsNotLate(Apply(s, run[0]), run[1..]);
    }
  }

  predicate AllReturned(s: State) {
    forall w | 0 <= w < |s.workers| :: s.workers[w].phase == Exited
  }

  lemma NothingPending(s: State)
    requires OrderInv(s) && AllReturned(s)
    ensures AllPending(s.workers) == multiset{}
  {
    forall k | 0 <= k < |s.workers|
      ensures PendingParts(s.workers)[k] == []
    {
      assert WorkerInv(s, s.workers[k]);
    }
    SumOfNothing(PendingParts(s.workers));
  }

  lemma InOneSink(s: State, item: Item)
    requires Increasing(s.accepted) && item in s.accepted
    requires multiset(s.accepted) == multiset(s.database) + multiset(s.fallback)
    ensures multiset(s.database)[item] + multiset(s.fallback)[item] == 1
  {
    IncreasingDistinct(s.accepted, item);
    assert item in multiset(s.accepted);
    assert multiset(s.accepted)[item] == (multiset(s.database) + multiset(s.fallback))[item];
  }

  lemma AllSunk(s: State)
    requires Inv(s) && AllReturned(s) && s.channel == []
    ensures multiset(s.accepted) == multiset(s.database) + multiset(s.fallback)
  {
    NothingPending(s);
    assert Settled(s) == multiset(s.database) + multiset(s.fallback);
  }

  /** The item is in exactly one of the sinks, and there once. */
  predicate SunkOnce(s: State, item: Item) {
    multiset(s.database)[item] + multiset(s.fallback)[item] == 1
  }

  /** What is left in the channel when all workers have returned is in no sink. */
  lemma LeftBehind(s: State)
    requires Inv(s) && AllReturned(s) && s.channel != []
    ensures s.channel[0] in s.accepted && !SunkOnce(s, s.channel[0])
  {
    var item := s.channel[0];
    assert item in s.channel;
    NothingPending(s);
    IncreasingDistinct(s.accepted, item);
    assert multiset(s.accepted)[item] == Settled(s)[item];
    assert item in multiset(s.channel);
  }

  predicate AllSunkOnce(s: State) {
    forall item | item in s.accepted :: SunkOnce(s, item)
  }

  lemma AllSunkIff(s: State, left: nat)
    requires Inv(s) && AllReturned(s) && |s.channel| == left
    ensures AllSunkOnce(s) <==> left == 0
  {
    if s.channel != [] {
      LeftBehind(s);
    } else {
      AllSunk(s);
      forall item | item in s.accepted
        ensures SunkOnce(s, item)
      {
        InOneSink(s, item);
      }
    }
  }

  /** When the last worker has returned, everything accepted is in exactly one of the two sinks, once,
      iff no call was accepted after the last worker had stopped taking entries. A call between the
      stop signal and that moment is written like any other. */
  lemma DrainedCompletely(s: State, run: seq<Step>)
    requires Inv(s) && (Manned(s) || s.channel == []) && Possible(s, run) && AllReturned(After(s, run))
    ensures AllSunkOnce(After(s, run)) <==> Late(s, run) == 0
  {
    RunKeepsInv(s, run);
    LateOnesLeft(s, run, After(s, run));
    AllSunkIff(After(s, run), Late(s, run));
  }

  lemma LateOnesLeft(s: State, run: seq<Step>, t: State)
    requires (Manned(s) || s.channel == []) && Possible(s, run) && t == After(s, run) && AllReturned(t)
    ensures |t.channel| == Late(s, run)
    ensures Quiet(run) ==> t.channel == [] && t.accepted == s.accepted
  {
    UnmannedChannel(s, run);
    if Quiet(run) {
      QuietIsNotLate(s, run);
    }
  }

  /** From the start, with any number of workers. */
  lemma EveryAcceptedWrittenIff(capacity: nat, workers: nat, run: seq<Step>)
    requires Possible(Init(capacity, workers), run) && AllReturned(After(Init(capacity, workers), run))
    ensures var t := After(Init(capacity, workers), run);
      AllSunkOnce(t) <==> Late(Init(capacity, workers), run) == 0
  {
    InitInv(capacity, workers);
    DrainedCompletely(Init(capacity, workers), run);
  }

  lemma {:induction false} IncreasingDistinct(items: seq<Item>, item: Item)
    requires Increasing(items)
    ensures multiset(items)[item] <= 1
  {
    if items != [] {
      var init, last := items[..|items| - 1], items[|items| - 1];
      assert items == init + [last];
      IncreasingDistinct(init, item);
      if item == last {
        assert item !in init;
      }
    }
  }

  /** A call that arrives after the workers have returned is accepted and never written. */
  lemma LateCallStranded(entry: Entry)
    ensures var run := [Stop, NoticeStop(0), Drained(0), Record(entry)];
      && Possible(Init(10000, 1), run)
      && AllReturned(After(Init(10000, 1), run))
      && After(Init(10000, 1), run).channel == [Item(0, entry)]
      && Late(Init(10000, 1), run) == 1
  {
    var s := Init(10000, 1);
    var s1 := Apply(s, Stop);
    var s2 := Apply(s1, NoticeStop(0));
    var s3 := Apply(s2, Drained(0));
    assert s3.workers[0].phase == Exited && s3.channel == [] && s3.submitted == [];
    Prepend(s3, Record(entry), []);
    Prepend(s2, Drained(0), [Record(entry)]);
    Prepend(s1, NoticeStop(0), [Drained(0), Record(entry)]);
    Prepend(s, Stop, [NoticeStop(0), Drained(0), Record(entry)]);
    var run := [Stop, NoticeStop(0), Drained(0), Record(entry)];
    assert s.workers[0].phase == Running;
    UnmannedChannel(s, run);
  }

  lemma Prepend(s: State, step: Step, run: seq<Step>)
    requires Enabled(s, step) && Possible(Apply(s, step), run)
    ensures Possible(s, [step] + run) && After(s, [step] + run) == After(Apply(s, step), run)
  {
    assert ([step] + run)[1..] == run;
  }

  /** Once all workers have returned the sinks are final and the channel can only grow. */
  lemma {:induction false} ReturnedForGood(s: State, run: seq<Step>)
    requires OrderInv(s) && Possible(s, run) && AllReturned(s)
    ensures var t := After(s, run);
      t.database == s.database && t.fallback == s.fallback && s.channel <= t.channel && t.workers == s.workers
    decreases |run|
  {
    if run != [] {
      ReturnedStep(s, run[0]);
      StepKeepsOrder(s, run[0]);
      ReturnedForGood(Apply(s, run[0]), run[1..]);
    }
  }

  lemma ReturnedStep(s: State, step: Step)
    requires OrderInv(s) && AllReturned(s) && Enabled(s, step)
    ensures step.Record? || step.Stop?
  {
    forall w | 0 <= w < |s.workers|
      ensures s.workers[w].writing == [] && s.workers[w].phase == Exited
    {
      assert WorkerInv(s, s.workers[w]);
    }
  }

  // -------------------------------------------------------------------- the loops in figures

  /** The hundredth entry of a batch starts a write of all hundred; an earlier one only waits. */
  lemma FlushedAtHundred(s: State, w: nat)
    requires OrderInv(s) && Enabled(s, Receive(w))
    ensures var was, now := s.workers[w], Apply(s, Receive(w)).workers[w];
      && s.channel == [s.channel[0]] + Apply(s, Receive(w)).channel
      && now.phase == was.phase && now.output == was.output && |was.batch| <= 99
      && (if |was.batch| == 99 then now.writing == was.batch + [s.channel[0]] && now.batch == [] && now.failures == 0
          else now.batch == was.batch + [s.channel[0]] && now.writing == [])
  {
    assert WorkerInv(s, s.workers[w]);
  }

  /** The ticker and the end of the drain loop start a write of whatever has gathered; with nothing gathered the first
      does nothing and the second lets the worker return. */
  lemma GatheredIsWritten(s: State, w: nat, step: Step)
    requires Enabled(s, step) && step in {Tick(w), Drained(w)}
    ensures var was, now := s.workers[w], Apply(s, step).workers[w];
      && now.output == was.output && now.batch == [] && now.writing == was.batch
      && (was.batch != [] ==> now.failures == 0)
      && (step.Tick? ==> now.phase == was.phase)
      && (step.Drained? ==> now.phase == if was.batch == [] then Exited else Leaving)
    ensures Apply(s, step) == s.(workers := Apply(s, step).workers)
  {
  }

  /** The first three failed attempts are repeated; the fourth hands the batch to the fallback, and a success hands it
      to the database. Either way it is in one sink as a whole, and a leaving worker returns. */
  lemma FourthFailureFallsBack(s: State, w: nat, step: Step)
    requires OrderInv(s) && Enabled(s, step) && step in {WriteOk(w), WriteFail(w)}
    ensures var was, t := s.workers[w], Apply(s, step);
      if step.WriteFail? && was.failures < 3 then
        && t == s.(workers := t.workers) && t.workers == s.workers[w := t.workers[w]]
        && t.workers[w] == was.(failures := was.failures + 1)
      else
        && t.database == s.database + (if step.WriteOk? then was.writing else [])
        && t.fallback == s.fallback + (if step.WriteOk? then [] else was.writing)
        && t.workers[w].output == was.output + was.writing && t.workers[w].writing == []
        && t.workers[w].batch == was.batch && t.channel == s.channel
        && (t.workers[w].phase == Exited <==> was.phase == Leaving)
        && (step.WriteFail? ==> was.failures == 3)
  {
    assert WorkerInv(s, s.workers[w]);
  }
}
