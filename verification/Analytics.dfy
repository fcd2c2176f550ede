/** Realtime counts per minute bucket, and the window in which a repeated access is not unique. */
module Analytics {
  import opened Wrappers
  import opened Clock
  import opened Text
  import opened RedisCache
  import opened Counters

  // ----------------------------------------------------------------------- realtime

  /** How many minutes a bucket stays readable. */
  const KEPT: nat := 10

  function RealtimeFamily(): Family {
    Family("rt:", MINUTE, Decimal)
  }

  lemma RealtimeProper()
    ensures Proper(RealtimeFamily())
  {
    forall b
      ensures Lacks(Decimal(b), ':') && Value(Decimal(b)) == b
    {
      DecimalLacks(b, ':');
      DecimalReadsBack(b);
    }
  }

  function Recorded(c: Cache, link: nat): Cache {
    CountRenewed(c, RealtimeFamily(), Decimal(link), KEPT * MINUTE)
  }

  /** The counter of the minute goes up by one, and expires ten minutes from now. */
  lemma RecordedInFigures(c: Cache, link: nat)
    ensures var name := "rt:" + Decimal(link) + ":" + Decimal(c.now / 60);
      Recorded(c, link) == c.(entries := c.entries[name := Entry(Decimal(Number(c, name) + 1), Some(c.now + 600))])
  {
    KeyText(RealtimeFamily(), Decimal(link), c.now / 60);
  }

  /** The sum over the current bucket and the ones before it; before time zero there is none. */
  function Total(c: Cache, link: nat, minutes: nat): nat {
    if minutes == 0 then 0
    else
      var age := minutes - 1;
      Total(c, link, age)
      + if age <= c.now / MINUTE then Number(c, Key(RealtimeFamily(), Decimal(link), c.now / MINUTE - age)) else 0
  }

  /** Every counter of a bucket is the number of its calls, and expires ten minutes after the last. */
  ghost predicate RealtimeInv(c: Cache, hits: seq<Hit<()>>) {
    && CounterInv(c, RealtimeFamily(), KEPT, hits)
    && RenewedInv(c, RealtimeFamily(), KEPT * MINUTE, hits)
  }

  lemma RecordKeepsInv(c: Cache, hits: seq<Hit<()>>, link: nat)
    requires RealtimeInv(c, hits)
    ensures RealtimeInv(Recorded(c, link), hits + [Hit(Decimal(link), c.now, ())])
  {
    var hit := Hit(Decimal(link), c.now, ());
    RealtimeProper();
    HitRenewedKeepsInv(c, RealtimeFamily(), KEPT, hits, hit);
    HitRenews(c, RealtimeFamily(), KEPT * MINUTE, hits, hit);
  }

  lemma OthersKeepRealtime(c: Cache, t: Cache, hits: seq<Hit<()>>, key: string)
    requires RealtimeInv(c, hits) && t.now >= c.now && Foreign(RealtimeFamily(), key) && SameBut(c, t, key)
    ensures RealtimeInv(t, hits)
  {
    OthersKeepInv(c, t, RealtimeFamily(), KEPT, hits, key);
    OthersKeepRenewed(c, t, RealtimeFamily(), KEPT * MINUTE, hits, key);
  }

  /** The calls for a link from a bucket on. */
  function CallsSince(hits: seq<Hit<()>>, link: nat, bucket: int): nat {
    if hits == [] then 0
    else
      var last := hits[|hits| - 1];
      CallsSince(hits[..|hits| - 1], link, bucket)
      + if last.group == Decimal(link) && last.time / 60 >= bucket then 1 else 0
  }

  lemma {:induction false} OneBucketMore(hits: seq<Hit<()>>, link: nat, bucket: int)
    ensures CallsSince(hits, link, bucket)
         == CallsSince(hits, link, bucket + 1) + if bucket >= 0 then Count(hits, Decimal(link), 60, bucket) else 0
  {
    if hits != [] {
      OneBucketMore(hits[..|hits| - 1], link, bucket);
    }
  }

  lemma {:induction false} NoneYet(hits: seq<Hit<()>>, link: nat, now: nat)
    requires forall k | 0 <= k < |hits| :: hits[k].time <= now
    ensures CallsSince(hits, link, now / 60 + 1) == 0
  {
    if hits != [] {
      NoneYet(hits[..|hits| - 1], link, now);
    }
  }

  /** A bucket whose calls, if any, go on to within the last ten minutes. */
  predicate Recent(hits: seq<Hit<()>>, link: nat, bucket: nat, now: nat) {
    var last := LastCall(hits, Decimal(link), 60, bucket);
    last.Some? ==> now < last.value + 600
  }

  predicate AllRecent(hits: seq<Hit<()>>, link: nat, minutes: nat, now: nat) {
    forall bucket: nat | now / 60 - minutes < bucket <= now / 60 :: Recent(hits, link, bucket, now)
  }

  /** For every history and every span: the sum never exceeds the number of calls in these minutes, and
      is that number iff all of the buckets that have calls have one in the last ten minutes. */
  lemma {:induction false} RealtimeCounts(c: Cache, hits: seq<Hit<()>>, link: nat, minutes: nat)
    requires RealtimeInv(c, hits)
    ensures Total(c, link, minutes) <= CallsSince(hits, link, c.now / 60 - minutes + 1)
    ensures Total(c, link, minutes) == CallsSince(hits, link, c.now / 60 - minutes + 1)
       <==> AllRecent(hits, link, minutes, c.now)
  {
    if minutes == 0 {
      NoneYet(hits, link, c.now);
    } else {
      var age := minutes - 1;
      var bucket := c.now / 60 - age;
      RealtimeCounts(c, hits, link, age);
      OneBucketMore(hits, link, bucket);
      if bucket >= 0 {
        ReadIff(c, RealtimeFamily(), KEPT, KEPT * MINUTE, hits, Decimal(link), bucket);
      }
      OneAgeMore(hits, link, age, c.now);
    }
  }

  lemma OneAgeMore(hits: seq<Hit<()>>, link: nat, age: nat, now: nat)
    ensures AllRecent(hits, link, age + 1, now) <==>
      AllRecent(hits, link, age, now) && (age <= now / 60 ==> Recent(hits, link, now / 60 - age, now))
  {
    if AllRecent(hits, link, age, now) && (age <= now / 60 ==> Recent(hits, link, now / 60 - age, now)) {
      forall bucket: nat | now / 60 - (age + 1) < bucket <= now / 60
        ensures Recent(hits, link, bucket, now)
      {
        assert bucket > now / 60 - age || bucket == now / 60 - age;
      }
    }
  }

  /** Up to ten minutes that is always so. */
  lemma TenMinutesRecent(hits: seq<Hit<()>>, link: nat, minutes: nat, now: nat)
    requires minutes <= 10
    ensures AllRecent(hits, link, minutes, now)
  {
    forall bucket: nat | now / 60 - minutes < bucket <= now / 60
      ensures Recent(hits, link, bucket, now)
    {
      LastCallFalls(hits, Decimal(link), bucket);
    }
  }

  lemma {:induction false} LastCallFalls(hits: seq<Hit<()>>, group: string, bucket: nat)
    ensures var last := LastCall(hits, group, 60, bucket); last.Some? ==> last.value / 60 == bucket
  {
    if hits != [] {
      LastCallFalls(hits[..|hits| - 1], group, bucket);
    }
  }

  // -------------------------------------------------------------------------- dedup

  function DedupKey(link: nat, ip: string): string {
    "dedup:" + (Decimal(link) + ":" + ip)
  }

  lemma DedupKeysApart(link: nat, ip: string, other: nat, otherIp: string)
    requires DedupKey(link, ip) == DedupKey(other, otherIp)
    ensures link == other && ip == otherIp
  {
    var p, q := Decimal(link) + ":" + ip, Decimal(other) + ":" + otherIp;
    assert ("dedup:" + p)[6..] == p && ("dedup:" + q)[6..] == q;
    NumeralFirst(link, ip, other, otherIp);
  }

  function DedupChecked(c: Cache, window: int, link: nat, ip: string): (Cache, bool) {
    var text := Found(c, DedupKey(link, ip));
    if text.Some? && text.value != "" then (c, false)
    else (Stored(c, DedupKey(link, ip), "1", window), true)
  }

  /** An access is unique iff nothing is kept for its link and address, and is then kept for the window, or for good. */
  lemma DedupInFigures(c: Cache, window: int, link: nat, ip: string)
    ensures var (t, unique) := DedupChecked(c, window, link, ip);
      var name := "dedup:" + Decimal(link) + ":" + ip;
      var kept := name in c.entries && c.entries[name].text != ""
                  && (c.entries[name].expiresAt.Some? ==> c.now < c.entries[name].expiresAt.value);
      && (unique <==> !kept)
      && t == if kept then c
              else c.(entries := c.entries[name := Entry("1", if window > 0 then Some(c.now + window) else None)])
  {
    assert "dedup:" + Decimal(link) + ":" + ip == "dedup:" + (Decimal(link) + ":" + ip);
  }

  /** One checked access, and whether it was marked unique. */
  datatype Visit = Visit(link: nat, ip: string, time: nat, unique: bool)

  predicate Same(visit: Visit, link: nat, ip: string) {
    visit.link == link && visit.ip == ip
  }

  /** The last access of this link and address that was marked unique. */
  function LastUnique(visits: seq<Visit>, link: nat, ip: string): Option<nat> {
    if visits == [] then None
    else
      var last := visits[|visits| - 1];
      if Same(last, link, ip) && last.unique then Some(last.time) else LastUnique(visits[..|visits| - 1], link, ip)
  }

  predicate InOrder(visits: seq<Visit>, now: nat) {
    && (forall i, j | 0 <= i < j < |visits| :: visits[i].time <= visits[j].time)
    && forall i | 0 <= i < |visits| :: visits[i].time <= now
  }

  ghost predicate Remembered(c: Cache, window: int, visits: seq<Visit>, link: nat, ip: string) {
    match LastUnique(visits, link, ip)
    case None => DedupKey(link, ip) !in c.entries
    case Some(time) =>
      && DedupKey(link, ip) in c.entries
      && c.entries[DedupKey(link, ip)] == Entry("1", if window > 0 then Some(time + window) else None)
  }

  /** The cache holds the last unique access of every link and address. */
  ghost predicate DedupInv(c: Cache, window: int, visits: seq<Visit>) {
    InOrder(visits, c.now) && forall link, ip :: Remembered(c, window, visits, link, ip)
  }

  /** Whether an access at this time is unique, by the history alone. */
  predicate Fresh(visits: seq<Visit>, window: int, link: nat, ip: string, time: nat) {
    match LastUnique(visits, link, ip)
    case None => true
    case Some(last) => window > 0 && time >= last + window
  }

  lemma CheckAnswersHistory(c: Cache, window: int, visits: seq<Visit>, link: nat, ip: string)
    requires DedupInv(c, window, visits)
    ensures DedupChecked(c, window, link, ip).1 <==> Fresh(visits, window, link, ip, c.now)
  {
    assert Remembered(c, window, visits, link, ip);
  }

  lemma CheckKeepsInv(c: Cache, window: int, visits: seq<Visit>, link: nat, ip: string)
    requires DedupInv(c, window, visits)
    ensures var (t, unique) := DedupChecked(c, window, link, ip);
      DedupInv(t, window, visits + [Visit(link, ip, c.now, unique)])
  {
    var (t, unique) := DedupChecked(c, window, link, ip);
    var more := visits + [Visit(link, ip, c.now, unique)];
    assert more[..|visits|] == visits;
    forall other, otherIp
      ensures Remembered(t, window, more, other, otherIp)
    {
      assert Remembered(c, window, visits, other, otherIp);
      if DedupKey(other, otherIp) == DedupKey(link, ip) {
        DedupKeysApart(other, otherIp, link, ip);
      }
    }
  }

  /** What happens under other keys, and the passing of time, leave it alone. */
  lemma OthersKeepDedup(c: Cache, t: Cache, window: int, visits: seq<Visit>, key: string)
    requires DedupInv(c, window, visits) && t.now >= c.now
    requires (key == "" || key[0] != 'd') && SameBut(c, t, key)
    ensures DedupInv(t, window, visits)
  {
    forall link, ip
      ensures Remembered(t, window, visits, link, ip)
    {
      assert Remembered(c, window, visits, link, ip);
    }
  }

  // ---------------------------------------------------------- how many are unique

  /** Every mark in the log was given by the history before it. */
  ghost predicate MarkedByHistory(visits: seq<Visit>, window: int) {
    forall i | 0 <= i < |visits| ::
      visits[i].unique <==> Fresh(visits[..i], window, visits[i].link, visits[i].ip, visits[i].time)
  }

  /** The times of all accesses of a link and address, or of the unique ones. */
  function Times(visits: seq<Visit>, link: nat, ip: string, onlyUnique: bool): seq<nat> {
    if visits == [] then []
    else
      var last := visits[|visits| - 1];
      Times(visits[..|visits| - 1], link, ip, onlyUnique)
      + if Same(last, link, ip) && (onlyUnique ==> last.unique) then [last.time] else []
  }

  /** Taking an access whenever it is a window after the last one taken. */
  function Greedy(times: seq<nat>, window: int): seq<nat> {
    if times == [] then []
    else
      var taken, time := Greedy(times[..|times| - 1], window), times[|times| - 1];
      if taken == [] || time >= taken[|taken| - 1] + window then taken + [time] else taken
  }

  predicate Spread(times: seq<nat>, window: int) {
    forall i, j | 0 <= i < j < |times| :: times[j] >= times[i] + window
  }

  predicate Ascending(times: seq<nat>) {
    forall i, j | 0 <= i < j < |times| :: times[i] <= times[j]
  }

  predicate Chosen(some: seq<nat>, times: seq<nat>)
    decreases |times|
  {
    some == []
    || (times != [] && Chosen(some, times[..|times| - 1]))
    || (times != [] && some[|some| - 1] == times[|times| - 1] && Chosen(some[..|some| - 1], times[..|times| - 1]))
  }

  lemma {:induction false} GreedyIsChosen(times: seq<nat>, window: int)
    ensures Chosen(Greedy(times, window), times)
  {
    if times != [] {
      var taken, time := Greedy(times[..|times| - 1], window), times[|times| - 1];
      GreedyIsChosen(times[..|times| - 1], window);
      assert (taken + [time])[..|taken|] == taken;
    }
  }

  lemma SpreadMore(taken: seq<nat>, time: nat, window: int)
    requires window > 0 && Spread(taken, window) && (taken != [] ==> time >= taken[|taken| - 1] + window)
    ensures Spread(taken + [time], window)
  {
    forall i | 0 <= i < |taken|
      ensures time >= taken[i] + window
    {
      assert i == |taken| - 1 || taken[|taken| - 1] >= taken[i] + window;
    }
  }

  lemma {:induction false} GreedyIsSpread(times: seq<nat>, window: int)
    requires window > 0
    ensures Spread(Greedy(times, window), window)
  {
    if times != [] {
      var taken, time := Greedy(times[..|times| - 1], window), times[|times| - 1];
      GreedyIsSpread(times[..|times| - 1], window);
      if taken == [] || time >= taken[|taken| - 1] + window {
        SpreadMore(taken, time, window);
      }
    }
  }

  lemma {:induction false} GreedyLast(times: seq<nat>, window: int)
    requires Ascending(times) && times != []
    ensures Greedy(times, window) != [] && Greedy(times, window)[|Greedy(times, window)| - 1] <= times[|times| - 1]
  {
    if |times| > 1 {
      GreedyLast(times[..|times| - 1], window);
    }
  }

  /** Nothing that is spread out is longer, nor as long and over sooner. */
  lemma {:induction false} GreedyIsBest(times: seq<nat>, some: seq<nat>, window: int)
    requires window > 0 && Ascending(times) && Chosen(some, times) && Spread(some, window)
    ensures var best := Greedy(times, window);
      && |some| <= |best|
      && (some != [] && |some| == |best| ==> best[|best| - 1] <= some[|some| - 1])
    ensures some != [] ==> times != [] && some[|some| - 1] <= times[|times| - 1]
    decreases |times|
  {
    if times != [] && some != [] {
      var init := times[..|times| - 1];
      if Chosen(some, init) {
        GreedyIsBest(init, some, window);
      } else {
        var fewer := some[..|some| - 1];
        GreedyIsBest(init, fewer, window);
        assert fewer != [] ==> some[|some| - 1] >= fewer[|fewer| - 1] + window;
      }
      GreedyLast(times, window);
    }
  }

  lemma {:induction false} LastUniqueTime(visits: seq<Visit>, link: nat, ip: string)
    ensures var unique := Times(visits, link, ip, true);
      LastUnique(visits, link, ip) == if unique == [] then None else Some(unique[|unique| - 1])
  {
    if visits != [] {
      LastUniqueTime(visits[..|visits| - 1], link, ip);
    }
  }

  lemma MarkedPrefix(visits: seq<Visit>, window: int)
    requires visits != [] && MarkedByHistory(visits, window)
    ensures MarkedByHistory(visits[..|visits| - 1], window)
  {
    var init := visits[..|visits| - 1];
    forall i | 0 <= i < |init|
      ensures init[..i] == visits[..i] && init[i] == visits[i]
    {
    }
  }

  lemma {:induction false} UniqueIsGreedy(visits: seq<Visit>, window: int, link: nat, ip: string)
    requires window > 0 && MarkedByHistory(visits, window)
    ensures Times(visits, link, ip, true) == Greedy(Times(visits, link, ip, false), window)
  {
    if visits != [] {
      var init, last := visits[..|visits| - 1], visits[|visits| - 1];
      MarkedPrefix(visits, window);
      UniqueIsGreedy(init, window, link, ip);
      LastUniqueTime(init, link, ip);
      assert last.unique <==> Fresh(init, window, last.link, last.ip, last.time);
      var all := Times(init, link, ip, false);
      if Same(last, link, ip) {
        var more := all + [last.time];
        assert Times(visits, link, ip, false) == more && more[..|more| - 1] == all;
      } else {
        assert Times(visits, link, ip, false) == all;
      }
    }
  }

  lemma {:induction false} TimesAscend(visits: seq<Visit>, now: nat, link: nat, ip: string)
    requires InOrder(visits, now)
    ensures Ascending(Times(visits, link, ip, false))
    ensures forall k | 0 <= k < |Times(visits, link, ip, false)| :: Times(visits, link, ip, false)[k] <= now
  {
    if visits != [] {
      TimesAscend(visits[..|visits| - 1], visits[|visits| - 1].time, link, ip);
    }
  }

  /** The accesses marked unique are spread by the window, and no choice of accesses that is so is larger. */
  lemma UniqueIsOptimal(visits: seq<Visit>, now: nat, window: int, link: nat, ip: string, some: seq<nat>)
    requires window > 0 && MarkedByHistory(visits, window) && InOrder(visits, now)
    ensures var all, unique := Times(visits, link, ip, false), Times(visits, link, ip, true);
      && Chosen(unique, all) && Spread(unique, window)
      && (Chosen(some, all) && Spread(some, window) ==> |some| <= |unique|)
  {
    var all := Times(visits, link, ip, false);
    UniqueIsGreedy(visits, window, link, ip);
    TimesAscend(visits, now, link, ip);
    GreedyIsChosen(all, window);
    GreedyIsSpread(all, window);
    if Chosen(some, all) && Spread(some, window) {
      GreedyIsBest(all, some, window);
    }
  }

  /** With a window that is not positive only the first access ever is unique. */
  lemma {:induction false} OnlyFirstUnique(visits: seq<Visit>, window: int, link: nat, ip: string)
    requires window <= 0 && MarkedByHistory(visits, window)
    ensures var all, unique := Times(visits, link, ip, false), Times(visits, link, ip, true);
      unique == if all == [] then [] else [all[0]]
  {
    if visits != [] {
      MarkedPrefix(visits, window);
      OnlyFirstUnique(visits[..|visits| - 1], window, link, ip);
      LastUniqueTime(visits[..|visits| - 1], link, ip);
    }
  }

  /** A choice of the times that is spread by the window, and as large as any. */
  ghost predicate Largest(some: seq<nat>, times: seq<nat>, window: int) {
    && Chosen(some, times) && Spread(some, window)
    && forall other | Chosen(other, times) && Spread(other, window) :: |other| <= |some|
  }

  lemma {:induction false} AllChosen(times: seq<nat>)
    ensures Chosen(times, times)
    decreases |times|
  {
    if times != [] {
      AllChosen(times[..|times| - 1]);
    }
  }

  lemma {:induction false} ChosenAreFewer(some: seq<nat>, times: seq<nat>)
    requires Chosen(some, times)
    ensures |some| <= |times|
    decreases |times|
  {
    if some != [] {
      if Chosen(some, times[..|times| - 1]) {
        ChosenAreFewer(some, times[..|times| - 1]);
      } else {
        ChosenAreFewer(some[..|some| - 1], times[..|times| - 1]);
      }
    }
  }

  /** The unique accesses are a largest choice iff the window is positive or there is at most one access. */
  lemma UniqueIsLargestIff(visits: seq<Visit>, now: nat, window: int, link: nat, ip: string)
    requires MarkedByHistory(visits, window) && InOrder(visits, now)
    ensures var all, unique := Times(visits, link, ip, false), Times(visits, link, ip, true);
      Largest(unique, all, window) <==> window > 0 || |all| <= 1
  {
    var all, unique := Times(visits, link, ip, false), Times(visits, link, ip, true);
    if window > 0 {
      UniqueIsOptimal(visits, now, window, link, ip, []);
      forall other | Chosen(other, all) && Spread(other, window)
        ensures |other| <= |unique|
      {
        UniqueIsOptimal(visits, now, window, link, ip, other);
      }
    } else {
      OnlyFirstUnique(visits, window, link, ip);
      TimesAscend(visits, now, link, ip);
      AllChosen(all);
      assert Spread(all, window);
      forall other | Chosen(other, all) && Spread(other, window)
        ensures |other| <= |all|
      {
        ChosenAreFewer(other, all);
      }
      assert |all| <= 1 ==> unique == all;
    }
  }

  // -------------------------------------------------------------------- the service

  class Service {
    const cache: Redis
    const window: int

    constructor (cache: Redis, window: int)
      ensures this.cache == cache && this.window == window
    {
      this.cache, this.window := cache, window;
    }

    method CheckDedup(linkId: nat, ip: string) returns (unique: bool)
      modifies cache`entries
      ensures (cache.View(), unique) == if cache.available then DedupChecked(old(cache.View()), window, linkId, ip)
                                        else (old(cache.View()), true)
    {
      var stored := cache.Get(DedupKey(linkId, ip));
      if stored.Some? && stored.value != "" {
        return false;
      }
      cache.Set(DedupKey(linkId, ip), "1", window);
      return true;
    }

    method RecordRealtime(linkId: nat)
      modifies cache`entries
      ensures cache.View() == if cache.available then Recorded(old(cache.View()), linkId) else old(cache.View())
    {
      var key := Key(RealtimeFamily(), Decimal(linkId), cache.now / MINUTE);
      var count := cache.Incr(key);
      cache.Expire(key, KEPT * MINUTE);
    }

    method GetRealtime(linkId: nat, minutes: int, ghost hits: seq<Hit<()>>) returns (total: nat)
      requires RealtimeInv(cache.View(), hits)
      ensures var span := if minutes > 0 then minutes else 0;
        var calls := CallsSince(hits, linkId, cache.now / 60 - span + 1);
        && total <= calls
        && (cache.available ==> (total == calls <==> AllRecent(hits, linkId, span, cache.now)))
        && (cache.available && minutes <= 10 ==> total == calls)
    {
      var bucket := cache.now / MINUTE;
      total := 0;
      var i := 0;
      while i < minutes
        invariant 0 <= i && (minutes > 0 ==> i <= minutes) && (minutes <= 0 ==> i == 0)
        invariant total == if cache.available then Total(cache.View(), linkId, i) else 0
      {
        if i <= bucket {
          var text := cache.Get(Key(RealtimeFamily(), Decimal(linkId), bucket - i));
          if text.Some? {
            total := total + Value(text.value);
          }
        }
        i := i + 1;
      }
      RealtimeCounts(cache.View(), hits, linkId, i);
      if minutes <= 10 {
        TenMinutesRecent(hits, linkId, i, cache.now);
      }
    }
  }
}
