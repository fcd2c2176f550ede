/** The service object of the pipeline: its methods are proved to be runs of the steps in AccessLog. */
module AccessLogService {
  import opened AccessLog
  import opened Numbers

  /** Runs compose. */
  lemma {:induction false} RunsCompose(s: State, first: seq<Step>, second: seq<Step>)
    requires Possible(s, first) && Possible(After(s, first), second)
    ensures Possible(s, first + second) && After(s, first + second) == After(After(s, first), second)
    decreases |first|
  {
    if first == [] {
      assert first + second == second;
    } else {
      RunsCompose(Apply(s, first[0]), first[1..], second);
      assert (first + second)[1..] == first[1..] + second;
    }
  }

  lemma OneMore(s: State, run: seq<Step>, step: Step)
    requires Possible(s, run) && Enabled(After(s, run), step)
    ensures Possible(s, run + [step]) && After(s, run + [step]) == Apply(After(s, run), step)
  {
    var t := After(s, run);
    assert [step][1..] == [];
    assert Possible(Apply(t, step), [step][1..]);
    assert Possible(t, [step]) && After(t, [step]) == Apply(t, step);
    RunsCompose(s, run, [step]);
  }

  /** Milliseconds slept after the given number of retries: 500, then twice as long each time. */
  function Backoff(retries: nat): nat {
    500 * (Pow2(retries) - 1)
  }

  /** How many of the next attempts fail in a row, up to four. */
  function FailuresFrom(databaseUp: nat -> bool, attempt: nat, limit: nat): (failures: nat)
    ensures failures <= limit
    decreases limit
  {
    if limit == 0 || databaseUp(attempt) then 0 else 1 + FailuresFrom(databaseUp, attempt + 1, limit - 1)
  }

  /** Being the number of leading failures, told pointwise. */
  lemma {:induction false} FailuresAre(databaseUp: nat -> bool, attempt: nat, limit: nat, n: nat)
    requires n <= limit
    requires forall k | attempt <= k < attempt + n :: !databaseUp(k)
    requires n < limit ==> databaseUp(attempt + n)
    ensures FailuresFrom(databaseUp, attempt, limit) == n
    decreases limit
  {
    if n > 0 {
      FailuresAre(databaseUp, attempt + 1, limit - 1, n - 1);
    }
  }

  // ------------------------------------------------------- a flush as a run of steps

  function Fails(w: nat, n: nat): seq<Step> {
    seq(n, _ => WriteFail(w))
  }

  /** The steps of one flush that meets this many failures. */
  function FlushRun(w: nat, failures: nat): seq<Step> {
    if failures <= MAX_RETRIES then Fails(w, failures) + [WriteOk(w)] else Fails(w, MAX_RETRIES + 1)
  }

  /** The state after a flush that met this many failures. */
  function Flushed(s: State, w: nat, failures: nat): State
    requires w < |s.workers|
  {
    var worker := s.workers[w];
    var t := s.(workers := s.workers[w := Written(worker)]);
    if failures <= MAX_RETRIES then t.(database := s.database + worker.writing)
    else t.(fallback := s.fallback + worker.writing)
  }

  lemma {:induction false} FailsRun(s: State, w: nat, n: nat)
    requires w < |s.workers| && s.workers[w].writing != [] && s.workers[w].failures == 0 && n <= MAX_RETRIES
    ensures Possible(s, Fails(w, n))
    ensures After(s, Fails(w, n)) == s.(workers := s.workers[w := s.workers[w].(failures := n)])
  {
    if n == 0 {
      assert s.workers[w := s.workers[w].(failures := 0)] == s.workers;
    } else {
      FailsRun(s, w, n - 1);
      OneMore(s, Fails(w, n - 1), WriteFail(w));
      assert Fails(w, n) == Fails(w, n - 1) + [WriteFail(w)];
    }
  }

  /** Retrying within a flush is a run of the step system. */
  lemma FlushIsRun(s: State, w: nat, failures: nat)
    requires w < |s.workers| && s.workers[w].writing != [] && s.workers[w].failures == 0
    requires failures <= MAX_RETRIES + 1
    ensures Possible(s, FlushRun(w, failures)) && After(s, FlushRun(w, failures)) == Flushed(s, w, failures)
  {
    if failures <= MAX_RETRIES {
      FailsRun(s, w, failures);
      OneMore(s, Fails(w, failures), WriteOk(w));
    } else {
      FailsRun(s, w, MAX_RETRIES);
      OneMore(s, Fails(w, MAX_RETRIES), WriteFail(w));
      assert Fails(w, MAX_RETRIES + 1) == Fails(w, MAX_RETRIES) + [WriteFail(w)];
    }
  }

  class Service {
    const capacity: nat
    /** Whether the n-th write to the database succeeds. */
    const databaseUp: nat -> bool

    var logChan: seq<Item>
    var stopped: bool
    var dropped: nat
    var database: seq<Item>
    var failedFile: seq<Item>
    var attempts: nat
    var slept: nat

    ghost var submitted: seq<Item>
    ghost var accepted: seq<Item>
    ghost var refused: seq<Item>
    var calls: nat

    constructor (databaseUp: nat -> bool)
      ensures capacity == 10000 && this.databaseUp == databaseUp && Valid()
      ensures View([]) == Init(10000, 0) && attempts == 0 && slept == 0
    {
      capacity := 10000;
      this.databaseUp := databaseUp;
      logChan, stopped, dropped, calls := [], false, 0, 0;
      database, failedFile, attempts, slept := [], [], 0, 0;
      submitted, accepted, refused := [], [], [];
    }

    ghost predicate Valid()
      reads this
    {
      calls == |submitted|
    }

    /** The state of the step system, as seen with these workers. */
    ghost function View(workers: seq<Worker>): State
      reads this
    {
      State(capacity, logChan, stopped, dropped, workers, database, failedFile, submitted, accepted, refused)
    }

    method RecordAccess(linkId: nat, ip: string, ua: string, referer: string, now: int)
      requires Valid()
      modifies this
      ensures Valid()
      ensures var entry := Entry(linkId := linkId, ip := ip, userAgent := ua, referer := referer, accessedAt := now);
        && (forall workers :: View(workers) == Apply(old(View(workers)), Record(entry)))
        && if old(|logChan|) < capacity then
             logChan == old(logChan) + [Item(|old(submitted)|, entry)] && dropped == old(dropped)
           else logChan == old(logChan) && dropped == old(dropped) + 1
      ensures attempts == old(attempts) && slept == old(slept)
    {
      var item := Item(calls, Entry(linkId, ip, ua, referer, now));
      calls := calls + 1;
      submitted := submitted + [item];
      if |logChan| < capacity {
        logChan := logChan + [item];
        accepted := accepted + [item];
      } else {
        dropped := dropped + 1;
        refused := refused + [item];
      }
    }

    method WriteToFallback(logs: seq<Item>)
      modifies this`failedFile
      ensures failedFile == old(failedFile) + logs
    {
      for i := 0 to |logs|
        invariant failedFile == old(failedFile) + logs[..i]
      {
        failedFile := failedFile + [logs[i]];
      }
    }

    /** One flush: at most four attempts, at most three sleeps of 500, 1000 and 2000 ms, and then the
        batch is in one of the sinks as a whole. */
    method WriteBatchWithRetry(logs: seq<Item>)
      modifies this`database, this`failedFile, this`attempts, this`slept
      ensures old(attempts) < attempts <= old(attempts) + 4
      ensures forall k | old(attempts) <= k < attempts - 1 :: !databaseUp(k)
      ensures if databaseUp(attempts - 1) then database == old(database) + logs && failedFile == old(failedFile)
        else attempts == old(attempts) + 4 && database == old(database) && failedFile == old(failedFile) + logs
      ensures slept == old(slept) + [0, 500, 1500, 3500][attempts - old(attempts) - 1]
      ensures var failures := FailuresFrom(databaseUp, old(attempts), MAX_RETRIES + 1);
        && attempts == old(attempts) + (if failures <= MAX_RETRIES then failures + 1 else MAX_RETRIES + 1)
        && slept == old(slept) + Backoff(if failures <= MAX_RETRIES then failures else MAX_RETRIES)
        && database == (if failures <= MAX_RETRIES then old(database) + logs else old(database))
        && failedFile == (if failures <= MAX_RETRIES then old(failedFile) else old(failedFile) + logs)
    {
      var backoff := 500;
      for attempt := 0 to MAX_RETRIES + 1
        invariant attempts == old(attempts) + attempt
        invariant forall k | old(attempts) <= k < attempts :: !databaseUp(k)
        invariant attempt <= MAX_RETRIES ==> backoff == 500 * Pow2(attempt)
        invariant slept == old(slept) + Backoff(if attempt <= MAX_RETRIES then attempt else MAX_RETRIES)
        invariant database == old(database) && failedFile == old(failedFile)
      {
        var err := !databaseUp(attempts);
        attempts := attempts + 1;
        if !err {
          FailuresAre(databaseUp, old(attempts), MAX_RETRIES + 1, attempt);
          database := database + logs;
          return;
        }
        if attempt < MAX_RETRIES {
          slept := slept + backoff;
          backoff := backoff * 2;
        }
      }
      FailuresAre(databaseUp, old(attempts), MAX_RETRIES + 1, MAX_RETRIES + 1);
      WriteToFallback(logs);
    }

    /** The write half of a flush, once the batch has been copied. */
    method FinishWrite(me: Worker) returns (done: Worker, ghost run: seq<Step>)
      requires me.writing != [] && me.failures == 0
      modifies this`database, this`failedFile, this`attempts, this`slept
      ensures done == Written(me)
      ensures Quiet(run) && Possible(old(View([me])), run) && View([done]) == After(old(View([me])), run)
    {
      ghost var failures := FailuresFrom(databaseUp, attempts, MAX_RETRIES + 1);
      run := FlushRun(0, failures);
      FlushIsRun(View([me]), 0, failures);
      WriteBatchWithRetry(me.writing);
      done := Written(me);
      assert [me][0 := done] == [done];
    }

    /** Takes one entry from the channel, and flushes when the batch is full. */
    method ReceiveOne(me: Worker) returns (done: Worker, ghost run: seq<Step>)
      requires me.phase in {Running, Draining} && me.writing == [] && |me.batch| < BATCH_LIMIT
      requires logChan != []
      modifies this`logChan, this`database, this`failedFile, this`attempts, this`slept
      ensures done.phase == me.phase && done.writing == [] && |done.batch| < BATCH_LIMIT
      ensures logChan == old(logChan)[1..]
      ensures Quiet(run) && Possible(old(View([me])), run) && View([done]) == After(old(View([me])), run)
    {
      ghost var s := View([me]);
      done := Took(me, logChan[0]);
      logChan := logChan[1..];
      run := [Receive(0)];
      assert [me][0 := done] == [done];
      OneMore(s, [], Receive(0));
      if done.writing != [] {
        ghost var writes;
        done, writes := FinishWrite(done);
        RunsCompose(s, run, writes);
        run := run + writes;
      }
    }

    /** The inner loop that a worker enters on the stop signal: it empties the channel, flushes what
        is left and returns. */
    method DrainAndReturn(me: Worker) returns (done: Worker, ghost run: seq<Step>)
      requires me.phase == Draining && me.writing == [] && |me.batch| < BATCH_LIMIT
      modifies this`logChan, this`database, this`failedFile, this`attempts, this`slept
      ensures done.phase == Exited && done.batch == [] && logChan == []
      ensures Quiet(run) && Possible(old(View([me])), run) && View([done]) == After(old(View([me])), run)
    {
      ghost var s := View([me]);
      done, run := me, [];
      while logChan != []
        invariant done.phase == Draining && done.writing == [] && |done.batch| < BATCH_LIMIT
        invariant Quiet(run) && Possible(s, run) && View([done]) == After(s, run)
        decreases |logChan|
      {
        ghost var more;
        done, more := ReceiveOne(done);
        RunsCompose(s, run, more);
        run := run + more;
      }
      OneMore(s, run, Drained(0));
      assert [done][0 := Leave(done)] == [Leave(done)];
      done := Leave(done);
      run := run + [Drained(0)];
      if done.writing != [] {
        ghost var writes;
        done, writes := FinishWrite(done);
        RunsCompose(s, run, writes);
        run := run + writes;
      }
    }
  }
}
