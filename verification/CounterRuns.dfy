/** Every run of the analytics and API-key calls over one cache: each counter stays what the history says. */
module CounterRuns {
  import opened Clock
  import opened Text
  import opened RedisCache
  import opened Counters
  import opened Analytics
  import opened ApiKeys

  datatype Config = Config(window: int, dateText: nat -> string)

  datatype State = State(cache: Cache, hits: seq<Hit<()>>, visits: seq<Visit>, minuteCalls: Calls, dayCalls: Calls)

  datatype Event =
    | Pass(seconds: nat)
    | Realtime(link: nat)
    | Dedup(link: nat, ip: string)
    | Rate(key: ApiKey)
    | Quota(key: ApiKey)

  function Init(now: nat): State {
    State(Cache(map[], now), [], [], [], [])
  }

  function Happens(s: State, config: Config, event: Event): State {
    var c := s.cache;
    match event
    case Pass(seconds) => s.(cache := c.(now := c.now + seconds))
    case Realtime(link) =>
      s.(cache := Recorded(c, link), hits := s.hits + [Hit(Decimal(link), c.now, ())])
    case Dedup(link, ip) =>
      var (t, unique) := DedupChecked(c, config.window, link, ip);
      s.(cache := t, visits := s.visits + [Visit(link, ip, c.now, unique)])
    case Rate(key) =>
      var (t, allowed) := RateChecked(c, key);
      s.(cache := t, minuteCalls := s.minuteCalls + [Hit(key.prefix, c.now, Answer(key, allowed))])
    case Quota(key) =>
      var (t, allowed) := QuotaChecked(c, config.dateText, key);
      s.(cache := t, dayCalls := s.dayCalls + [Hit(key.prefix, c.now, Answer(key, allowed))])
  }

  function After(s: State, config: Config, events: seq<Event>): State
    decreases |events|
  {
    if events == [] then s else After(Happens(s, config, events[0]), config, events[1..])
  }

  const RATE: ApiKey -> int := (key: ApiKey) => key.ratePerMin
  const QUOTA: ApiKey -> int := (key: ApiKey) => key.quotaDaily

  /** What the cache holds for each kind of key. */
  ghost predicate CacheInv(c: Cache, s: State, config: Config) {
    && RealtimeInv(c, s.hits)
    && DedupInv(c, config.window, s.visits)
    && CounterInv(c, RateFamily(), 1, s.minuteCalls)
    && CounterInv(c, QuotaFamily(config.dateText), 1, s.dayCalls)
  }

  /** The answers given so far are the ones the history calls for. */
  ghost predicate AnswersInv(s: State, config: Config) {
    && MarkedByHistory(s.visits, config.window)
    && ByOrdinal(s.minuteCalls, MINUTE, RATE)
    && ByOrdinal(s.dayCalls, DAY, QUOTA)
  }

  lemma PassKeepsInv(s: State, config: Config, seconds: nat)
    requires CacheInv(s.cache, s, config)
    ensures var t := Happens(s, config, Pass(seconds)); CacheInv(t.cache, t, config)
  {
    var t := s.cache.(now := s.cache.now + seconds);
    OthersKeepRealtime(s.cache, t, s.hits, "");
    OthersKeepDedup(s.cache, t, config.window, s.visits, "");
    OthersKeepInv(s.cache, t, RateFamily(), 1, s.minuteCalls, "");
    OthersKeepInv(s.cache, t, QuotaFamily(config.dateText), 1, s.dayCalls, "");
  }

  lemma RealtimeKeepsInv(s: State, config: Config, link: nat)
    requires CacheInv(s.cache, s, config)
    ensures var t := Happens(s, config, Realtime(link)); CacheInv(t.cache, t, config)
  {
    var t, key := Recorded(s.cache, link), Key(RealtimeFamily(), Decimal(link), s.cache.now / MINUTE);
    var group, bucket := Decimal(link), s.cache.now / MINUTE;
    FamiliesApart(RealtimeFamily(), RateFamily(), group, bucket, 1);
    FamiliesApart(RealtimeFamily(), QuotaFamily(config.dateText), group, bucket, 0);
    assert SameBut(s.cache, t, key);
    RecordKeepsInv(s.cache, s.hits, link);
    OthersKeepDedup(s.cache, t, config.window, s.visits, key);
    OthersKeepInv(s.cache, t, RateFamily(), 1, s.minuteCalls, key);
    OthersKeepInv(s.cache, t, QuotaFamily(config.dateText), 1, s.dayCalls, key);
  }

  lemma DedupKeepsInv(s: State, config: Config, link: nat, ip: string)
    requires CacheInv(s.cache, s, config)
    ensures var t := Happens(s, config, Dedup(link, ip)); CacheInv(t.cache, t, config)
  {
    var t, key := DedupChecked(s.cache, config.window, link, ip).0, DedupKey(link, ip);
    assert key[0] == 'd';
    assert SameBut(s.cache, t, key);
    CheckKeepsInv(s.cache, config.window, s.visits, link, ip);
    OthersKeepRealtime(s.cache, t, s.hits, key);
    OthersKeepInv(s.cache, t, RateFamily(), 1, s.minuteCalls, key);
    OthersKeepInv(s.cache, t, QuotaFamily(config.dateText), 1, s.dayCalls, key);
  }

  lemma RateKeepsInv(s: State, config: Config, key: ApiKey)
    requires CacheInv(s.cache, s, config)
    ensures var t := Happens(s, config, Rate(key)); CacheInv(t.cache, t, config)
  {
    var (t, allowed) := RateChecked(s.cache, key);
    var rlKey := Key(RateFamily(), key.prefix, s.cache.now / MINUTE);
    FamiliesApart(RateFamily(), RealtimeFamily(), key.prefix, s.cache.now / MINUTE, 1);
    FamiliesApart(RateFamily(), QuotaFamily(config.dateText), key.prefix, s.cache.now / MINUTE, 0);
    assert SameBut(s.cache, t, rlKey);
    RateProper();
    CountCallKeepsInv(s.cache, RateFamily(), s.minuteCalls, Hit(key.prefix, s.cache.now, Answer(key, allowed)), MINUTE);
    OthersKeepRealtime(s.cache, t, s.hits, rlKey);
    OthersKeepDedup(s.cache, t, config.window, s.visits, rlKey);
    OthersKeepInv(s.cache, t, QuotaFamily(config.dateText), 1, s.dayCalls, rlKey);
  }

  lemma QuotaKeepsInv(s: State, config: Config, key: ApiKey)
    requires CacheInv(s.cache, s, config) && Dates(config.dateText)
    ensures var t := Happens(s, config, Quota(key)); CacheInv(t.cache, t, config)
  {
    var (t, allowed) := QuotaChecked(s.cache, config.dateText, key);
    var f := QuotaFamily(config.dateText);
    var quotaKey := Key(f, key.prefix, s.cache.now / DAY);
    FamiliesApart(f, RealtimeFamily(), key.prefix, s.cache.now / DAY, 0);
    FamiliesApart(f, RateFamily(), key.prefix, s.cache.now / DAY, 0);
    assert SameBut(s.cache, t, quotaKey);
    NextMidnight(s.cache.now);
    CountCallKeepsInv(s.cache, f, s.dayCalls, Hit(key.prefix, s.cache.now, Answer(key, allowed)),
        UntilMidnight(s.cache.now));
    OthersKeepRealtime(s.cache, t, s.hits, quotaKey);
    OthersKeepDedup(s.cache, t, config.window, s.visits, quotaKey);
    OthersKeepInv(s.cache, t, RateFamily(), 1, s.minuteCalls, quotaKey);
  }

  /** The answer of a limiter is decided by the call's ordinal in its bucket. */
  lemma NextByOrdinal(c: Cache, f: Family, calls: Calls, limit: ApiKey -> int, key: ApiKey, allowed: bool)
    requires f.width >= 1 && CounterInv(c, f, 1, calls) && ByOrdinal(calls, f.width, limit)
    requires allowed <==> Number(c, Key(f, key.prefix, c.now / f.width)) + 1 <= limit(key)
    ensures ByOrdinal(calls + [Hit(key.prefix, c.now, Answer(key, allowed))], f.width, limit)
  {
    var more := calls + [Hit(key.prefix, c.now, Answer(key, allowed))];
    CurrentNumber(c, f, 1, calls, key.prefix);
    forall i | 0 <= i < |more|
      ensures more[..i] == if i < |calls| then calls[..i] else calls
    {
    }
  }

  lemma NextMarked(visits: seq<Visit>, window: int, visit: Visit)
    requires MarkedByHistory(visits, window)
    requires visit.unique <==> Fresh(visits, window, visit.link, visit.ip, visit.time)
    ensures MarkedByHistory(visits + [visit], window)
  {
    var more := visits + [visit];
    forall i | 0 <= i < |more|
      ensures more[..i] == if i < |visits| then visits[..i] else visits
    {
    }
  }

  lemma EventKeepsInv(s: State, config: Config, event: Event)
    requires CacheInv(s.cache, s, config) && AnswersInv(s, config) && Dates(config.dateText)
    ensures var t := Happens(s, config, event); CacheInv(t.cache, t, config) && AnswersInv(t, config)
  {
    match event
    case Pass(seconds) => PassKeepsInv(s, config, seconds);
    case Realtime(link) => RealtimeKeepsInv(s, config, link);
    case Dedup(link, ip) =>
      DedupKeepsInv(s, config, link, ip);
      CheckAnswersHistory(s.cache, config.window, s.visits, link, ip);
      NextMarked(s.visits, config.window,
          Visit(link, ip, s.cache.now, DedupChecked(s.cache, config.window, link, ip).1));
    case Rate(key) =>
      RateKeepsInv(s, config, key);
      NextByOrdinal(s.cache, RateFamily(), s.minuteCalls, RATE, key, RateChecked(s.cache, key).1);
    case Quota(key) =>
      QuotaKeepsInv(s, config, key);
      NextByOrdinal(s.cache, QuotaFamily(config.dateText), s.dayCalls, QUOTA, key,
          QuotaChecked(s.cache, config.dateText, key).1);
  }

  lemma {:induction false} RunKeepsInv(s: State, config: Config, events: seq<Event>)
    requires CacheInv(s.cache, s, config) && AnswersInv(s, config) && Dates(config.dateText)
    ensures var t := After(s, config, events); CacheInv(t.cache, t, config) && AnswersInv(t, config)
    decreases |events|
  {
    if events != [] {
      EventKeepsInv(s, config, events[0]);
      RunKeepsInv(Happens(s, config, events[0]), config, events[1..]);
    }
  }

  lemma InitInv(now: nat, config: Config)
    ensures var s := Init(now); CacheInv(s.cache, s, config) && AnswersInv(s, config)
  {
  }

  // -------------------------------------------------------------- over every history

  /** The sum that a realtime query reads is the number of calls in those minutes iff all of its buckets
      are recent, and always for up to ten minutes. */
  lemma RealtimeExact(now: nat, config: Config, events: seq<Event>, link: nat, minutes: nat)
    requires Dates(config.dateText)
    ensures var t := After(Init(now), config, events);
      var calls := CallsSince(t.hits, link, t.cache.now / 60 - minutes + 1);
      && Total(t.cache, link, minutes) <= calls
      && (Total(t.cache, link, minutes) == calls <==> AllRecent(t.hits, link, minutes, t.cache.now))
      && (minutes <= 10 ==> Total(t.cache, link, minutes) == calls)
  {
    var t := After(Init(now), config, events);
    InitInv(now, config);
    RunKeepsInv(Init(now), config, events);
    RealtimeCounts(t.cache, t.hits, link, minutes);
    if minutes <= 10 {
      TenMinutesRecent(t.hits, link, minutes, t.cache.now);
    }
  }

  /** The accesses marked unique are a window apart, and as many as can be, iff the window is positive
      or there is at most one access. */
  lemma DedupOptimal(now: nat, config: Config, events: seq<Event>, link: nat, ip: string)
    requires Dates(config.dateText)
    ensures var t := After(Init(now), config, events);
      var all, unique := Times(t.visits, link, ip, false), Times(t.visits, link, ip, true);
      Largest(unique, all, config.window) <==> config.window > 0 || |all| <= 1
  {
    var t := After(Init(now), config, events);
    InitInv(now, config);
    RunKeepsInv(Init(now), config, events);
    UniqueIsLargestIff(t.visits, t.cache.now, config.window, link, ip);
  }

  /** At most the rate in any calendar minute, and at most twice the rate in any sixty seconds. */
  lemma RateBounded(now: nat, config: Config, events: seq<Event>, key: ApiKey, from: nat)
    requires Dates(config.dateText)
    ensures var t := After(Init(now), config, events);
      && (from % 60 == 0 ==> Allowed(t.minuteCalls, key, from, from + 60) <= AtLeastZero(key.ratePerMin))
      && Allowed(t.minuteCalls, key, from, from + 60) <= 2 * AtLeastZero(key.ratePerMin)
  {
    var t := After(Init(now), config, events);
    InitInv(now, config);
    RunKeepsInv(Init(now), config, events);
    LimitHolds(t.minuteCalls, 60, RATE, key, from / 60);
    TwiceInAnyInterval(t.minuteCalls, 60, RATE, key, from);
  }

  /** At most the quota on any day, and the counter is the number of calls that day. */
  lemma QuotaBounded(now: nat, config: Config, events: seq<Event>, key: ApiKey, day: nat)
    requires Dates(config.dateText)
    ensures var t := After(Init(now), config, events);
      var today := t.cache.now / 86400;
      && Allowed(t.dayCalls, key, day * 86400, day * 86400 + 86400) <= AtLeastZero(key.quotaDaily)
      && Number(t.cache, Key(QuotaFamily(config.dateText), key.prefix, today))
         == Count(t.dayCalls, key.prefix, 86400, today)
  {
    var t := After(Init(now), config, events);
    InitInv(now, config);
    RunKeepsInv(Init(now), config, events);
    LimitHolds(t.dayCalls, 86400, QUOTA, key, day);
    CurrentNumber(t.cache, QuotaFamily(config.dateText), 1, t.dayCalls, key.prefix);
  }

  /** The i-th of these calls was answered by its ordinal among those under its prefix in the same minute or day. */
  predicate AnsweredInTurn(calls: Calls, i: nat, width: nat, limit: int)
    requires width >= 1 && i < |calls|
  {
    && calls[i].group == calls[i].tag.key.prefix
    && (calls[i].tag.allowed <==> Count(calls[..i], calls[i].group, width, calls[i].time / width) < limit)
  }

  /** Exactly which calls pass: those with fewer than rate (quota) calls before them in the same sixty seconds of the
      clock (on the same day). */
  lemma EveryCallInTurn(now: nat, config: Config, events: seq<Event>)
    requires Dates(config.dateText)
    ensures var t := After(Init(now), config, events);
      && (forall i | 0 <= i < |t.minuteCalls| ::
            AnsweredInTurn(t.minuteCalls, i, 60, t.minuteCalls[i].tag.key.ratePerMin))
      && (forall i | 0 <= i < |t.dayCalls| ::
            AnsweredInTurn(t.dayCalls, i, 86400, t.dayCalls[i].tag.key.quotaDaily))
  {
    InitInv(now, config);
    RunKeepsInv(Init(now), config, events);
  }

  // ------------------------------------------------- twice the rate in sixty seconds

  function Repeated(event: Event, n: nat): seq<Event> {
    seq(n, _ => event)
  }

  lemma {:induction false} RunsCompose(s: State, config: Config, first: seq<Event>, second: seq<Event>)
    ensures After(s, config, first + second) == After(After(s, config, first), config, second)
    decreases |first|
  {
    if first == [] {
      assert first + second == second;
    } else {
      RunsCompose(Happens(s, config, first[0]), config, first[1..], second);
      assert (first + second)[1..] == first[1..] + second;
    }
  }

  /** The limiter's part of the invariant, with the key's calls of this minute. */
  ghost predicate Used(s: State, key: ApiKey, n: nat) {
    && CounterInv(s.cache, RateFamily(), 1, s.minuteCalls)
    && Count(s.minuteCalls, key.prefix, MINUTE, s.cache.now / MINUTE) == n
  }

  /** A call within the rate is allowed. */
  lemma NextAllowed(s: State, config: Config, key: ApiKey, n: nat)
    requires Used(s, key, n) && n < key.ratePerMin
    ensures var t := Happens(s, config, Rate(key));
      && Used(t, key, n + 1) && t.cache.now == s.cache.now
      && t.minuteCalls == s.minuteCalls + [Hit(key.prefix, s.cache.now, Answer(key, true))]
  {
    var hit := Hit(key.prefix, s.cache.now, Answer(key, true));
    RateProper();
    CurrentNumber(s.cache, RateFamily(), 1, s.minuteCalls, key.prefix);
    CountCallKeepsInv(s.cache, RateFamily(), s.minuteCalls, hit, MINUTE);
    CountOneMore(s.minuteCalls, hit, key.prefix, MINUTE, s.cache.now / MINUTE);
  }

  /** So are as many calls as there is room for in the minute, all at once. */
  lemma {:induction false} BurstAllowed(s: State, config: Config, key: ApiKey, used: nat, n: nat, from: int, to: int)
    requires Used(s, key, used) && used + n <= key.ratePerMin && from <= s.cache.now < to
    ensures var t := After(s, config, Repeated(Rate(key), n));
      && Used(t, key, used + n) && t.cache.now == s.cache.now
      && Allowed(t.minuteCalls, key, from, to) == Allowed(s.minuteCalls, key, from, to) + n
    decreases n
  {
    if n > 0 {
      var next := Happens(s, config, Rate(key));
      NextAllowed(s, config, key, used);
      AllowedOneMore(s.minuteCalls, Hit(key.prefix, s.cache.now, Answer(key, true)), key, from, to);
      BurstAllowed(next, config, key, used + 1, n - 1, from, to);
      assert Repeated(Rate(key), n)[1..] == Repeated(Rate(key), n - 1);
    }
  }

  /** A new minute starts with nothing used. */
  lemma NewMinute(s: State, config: Config, key: ApiKey, used: nat)
    requires Used(s, key, used) && s.cache.now % MINUTE == MINUTE - 1
    ensures var t := Happens(s, config, Pass(1));
      Used(t, key, 0) && t.cache.now == s.cache.now + 1 && t.minuteCalls == s.minuteCalls
  {
    var t := Happens(s, config, Pass(1));
    OthersKeepInv(s.cache, t.cache, RateFamily(), 1, s.minuteCalls, "");
    NothingFalls(s.minuteCalls, key.prefix, MINUTE, t.cache.now / MINUTE, s.cache.now);
  }

  /** The rate in the last second of a minute, and again in the next second. */
  function DoubleBurst(key: ApiKey): seq<Event>
    requires key.ratePerMin >= 0
  {
    [Pass(59)] + (Repeated(Rate(key), key.ratePerMin) + ([Pass(1)] + Repeated(Rate(key), key.ratePerMin)))
  }

  /** For every key: the service allows all of these calls, which is twice the rate in sixty seconds. */
  lemma TwiceIsReached(config: Config, key: ApiKey)
    requires key.ratePerMin >= 0
    ensures Allowed(After(Init(0), config, DoubleBurst(key)).minuteCalls, key, 59, 119) == 2 * key.ratePerMin
  {
    var n := key.ratePerMin;
    var burst := Repeated(Rate(key), n);
    var s0 := Init(0);
    var s1 := Happens(s0, config, Pass(59));
    var s2 := After(s1, config, burst);
    var s3 := Happens(s2, config, Pass(1));
    assert Used(s1, key, 0);
    BurstAllowed(s1, config, key, 0, n, 59, 119);
    NewMinute(s2, config, key, n);
    BurstAllowed(s3, config, key, 0, n, 59, 119);
    OneThenRest(s2, config, Pass(1), burst);
    RunsCompose(s1, config, burst, [Pass(1)] + burst);
    OneThenRest(s0, config, Pass(59), burst + ([Pass(1)] + burst));
  }

  lemma OneThenRest(s: State, config: Config, event: Event, events: seq<Event>)
    ensures After(s, config, [event] + events) == After(Happens(s, config, event), config, events)
  {
    assert ([event] + events)[1..] == events;
  }
}
