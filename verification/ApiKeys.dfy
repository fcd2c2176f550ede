/** The limits of an API key: calls per minute and calls per day. */
module ApiKeys {
  import opened Wrappers
  import opened Clock
  import opened Text
  import opened Numbers
  import opened RedisCache
  import opened Counters

  datatype ApiKey = ApiKey(id: nat, userId: nat, prefix: string, quotaDaily: int, ratePerMin: int)

  function RateFamily(): Family {
    Family("rl:apikey:", MINUTE, Decimal)
  }

  /** The text of a day is its date; all that matters is that dates differ and hold no colon. */
  function QuotaFamily(dateText: nat -> string): Family {
    Family("quota:apikey:", DAY, dateText)
  }

  ghost predicate Dates(dateText: nat -> string) {
    Proper(QuotaFamily(dateText))
  }

  lemma RateProper()
    ensures Proper(RateFamily())
  {
    forall b
      ensures Lacks(Decimal(b), ':') && Value(Decimal(b)) == b
    {
      DecimalLacks(b, ':');
      DecimalReadsBack(b);
    }
  }

  function RateChecked(c: Cache, key: ApiKey): (Cache, bool) {
    (CountCall(c, RateFamily(), key.prefix, MINUTE),
     Number(c, Key(RateFamily(), key.prefix, c.now / MINUTE)) + 1 <= key.ratePerMin)
  }

  /** Seconds to the next midnight. */
  function UntilMidnight(now: nat): int {
    (now + DAY) / DAY * DAY - now
  }

  function QuotaChecked(c: Cache, dateText: nat -> string, key: ApiKey): (Cache, bool) {
    (CountCall(c, QuotaFamily(dateText), key.prefix, UntilMidnight(c.now)),
     Number(c, Key(QuotaFamily(dateText), key.prefix, c.now / DAY)) + 1 <= key.quotaDaily)
  }

  lemma NextMidnight(now: nat)
    ensures UntilMidnight(now) == (now / 86400 + 1) * 86400 - now && 0 < UntilMidnight(now) <= 86400
  {
  }

  /** What a check does to a counter: one more, with this expiry if it is the first, and the rest untouched. */
  predicate CountedUp(c: Cache, t: Cache, name: string, expiresAt: int) {
    var n := Number(c, name);
    t == c.(entries := c.entries[name :=
              Entry(Decimal(n + 1), if n == 0 then Some(expiresAt) else c.entries[name].expiresAt)])
  }

  /** A call passes iff the counter of its minute does not go beyond the rate; the first one lets it expire after sixty
      seconds. */
  lemma RateInFigures(c: Cache, key: ApiKey)
    ensures var (t, allowed) := RateChecked(c, key);
      var name := "rl:apikey:" + key.prefix + ":" + Decimal(c.now / 60);
      CountedUp(c, t, name, c.now + 60) && (allowed <==> Number(c, name) < key.ratePerMin)
  {
    KeyText(RateFamily(), key.prefix, c.now / 60);
  }

  /** A call passes iff the counter of its day does not go beyond the quota; the first one lets it expire at the end of
      the day. */
  lemma QuotaInFigures(c: Cache, dateText: nat -> string, key: ApiKey)
    ensures var (t, allowed) := QuotaChecked(c, dateText, key);
      var name := "quota:apikey:" + key.prefix + ":" + dateText(c.now / 86400);
      CountedUp(c, t, name, 86400 * (c.now / 86400 + 1)) && (allowed <==> Number(c, name) < key.quotaDaily)
  {
    KeyText(QuotaFamily(dateText), key.prefix, c.now / 86400);
    NextMidnight(c.now);
  }

  // ------------------------------------------------------------------------ history

  datatype Answer = Answer(key: ApiKey, allowed: bool)

  type Calls = seq<Hit<Answer>>

  /** A call is allowed iff it is not beyond the limit, counting the calls under its key's prefix. */
  ghost predicate ByOrdinal(calls: Calls, width: nat, limit: ApiKey -> int)
    requires width >= 1
  {
    forall i | 0 <= i < |calls| ::
      var call := calls[i];
      && call.group == call.tag.key.prefix
      && (call.tag.allowed <==> Count(calls[..i], call.group, width, call.time / width) + 1 <= limit(call.tag.key))
  }

  function Passes(call: Hit<Answer>, key: ApiKey, from: int, to: int): nat {
    if call.tag.key == key && call.tag.allowed && from <= call.time < to then 1 else 0
  }

  /** How often the key was allowed at a time from `from` to before `to`. */
  function Allowed(calls: Calls, key: ApiKey, from: int, to: int): nat {
    if calls == [] then 0
    else Allowed(calls[..|calls| - 1], key, from, to) + Passes(calls[|calls| - 1], key, from, to)
  }

  lemma ByOrdinalPrefix(calls: Calls, width: nat, limit: ApiKey -> int)
    requires width >= 1 && calls != [] && ByOrdinal(calls, width, limit)
    ensures ByOrdinal(calls[..|calls| - 1], width, limit)
  {
    var init := calls[..|calls| - 1];
    forall i | 0 <= i < |init|
      ensures init[..i] == calls[..i] && init[i] == calls[i]
    {
    }
  }

  function AtLeastZero(limit: int): nat {
    if limit > 0 then limit else 0
  }

  lemma AllowedOneMore(calls: Calls, call: Hit<Answer>, key: ApiKey, from: int, to: int)
    ensures Allowed(calls + [call], key, from, to) == Allowed(calls, key, from, to) + Passes(call, key, from, to)
  {
    assert (calls + [call])[..|calls|] == calls;
  }

  /** No key is allowed more than its limit in a bucket, nor more than the calls under its prefix,
      however many keys share the prefix. */
  lemma {:induction false} LimitHolds(calls: Calls, width: nat, limit: ApiKey -> int, key: ApiKey, bucket: nat)
    requires width >= 1 && ByOrdinal(calls, width, limit)
    ensures Allowed(calls, key, bucket * width, bucket * width + width) <= Count(calls, key.prefix, width, bucket)
    ensures Allowed(calls, key, bucket * width, bucket * width + width) <= AtLeastZero(limit(key))
  {
    if calls != [] {
      var last := calls[|calls| - 1];
      ByOrdinalPrefix(calls, width, limit);
      LimitHolds(calls[..|calls| - 1], width, limit, key, bucket);
      InBlock(last.time, width, bucket);
    }
  }

  lemma {:induction false} AllowedSplits(calls: Calls, key: ApiKey, from: int, middle: int, to: int)
    requires from <= middle <= to
    ensures Allowed(calls, key, from, to) == Allowed(calls, key, from, middle) + Allowed(calls, key, middle, to)
  {
    if calls != [] {
      AllowedSplits(calls[..|calls| - 1], key, from, middle, to);
    }
  }

  /** Hence at most twice the limit in any interval as long as a bucket. */
  lemma TwiceInAnyInterval(calls: Calls, width: nat, limit: ApiKey -> int, key: ApiKey, from: nat)
    requires width >= 1 && ByOrdinal(calls, width, limit)
    ensures Allowed(calls, key, from, from + width) <= 2 * AtLeastZero(limit(key))
  {
    var b := from / width;
    InBlock(from, width, b);
    var start, middle, end := b * width, b * width + width, b * width + 2 * width;
    LimitHolds(calls, width, limit, key, b);
    LimitHolds(calls, width, limit, key, b + 1);
    assert (b + 1) * width == middle;
    AllowedSplits(calls, key, start, from, middle);
    AllowedSplits(calls, key, middle, from + width, end);
    AllowedSplits(calls, key, from, middle, from + width);
  }

  // -------------------------------------------------------------------- the service

  datatype UsageError = NotFound | Forbidden

  datatype Usage = Usage(id: nat, quotaDaily: int, usedToday: nat, remaining: int, ratePerMin: int)

  class Service {
    const cache: Redis
    const dateText: nat -> string
    var keys: map<nat, ApiKey>

    constructor (cache: Redis, dateText: nat -> string)
      ensures this.cache == cache && this.dateText == dateText && keys == map[]
    {
      this.cache, this.dateText, keys := cache, dateText, map[];
    }

    /** An error of the store lets the call pass. */
    method CheckRateLimit(key: ApiKey) returns (allowed: bool)
      modifies cache`entries
      ensures (cache.View(), allowed) == if cache.available then RateChecked(old(cache.View()), key)
          else (old(cache.View()), true)
    {
      var rlKey := Key(RateFamily(), key.prefix, cache.now / MINUTE);
      var count := cache.Incr(rlKey);
      if count.None? {
        return true;
      }
      if count.value == 1 {
        cache.Expire(rlKey, MINUTE);
      }
      allowed := count.value <= key.ratePerMin;
    }

    method CheckQuota(key: ApiKey) returns (allowed: bool)
      modifies cache`entries
      ensures (cache.View(), allowed) == if cache.available then QuotaChecked(old(cache.View()), dateText, key)
                                         else (old(cache.View()), true)
    {
      var quotaKey := Key(QuotaFamily(dateText), key.prefix, cache.now / DAY);
      var count := cache.Incr(quotaKey);
      if count.None? {
        return true;
      }
      if count.value == 1 {
        var midnight := (cache.now + DAY) / DAY * DAY;
        cache.Expire(quotaKey, midnight - cache.now);
      }
      allowed := count.value <= key.quotaDaily;
    }

    /** Read-only: the calls of the day under the key's prefix, and what is left of its quota. */
    method GetUsage(userId: nat, keyId: nat, ghost calls: Calls) returns (usage: Result<Usage, UsageError>)
      requires CounterInv(cache.View(), QuotaFamily(dateText), 1, calls)
      ensures keyId !in keys <==> usage == Failure(NotFound)
      ensures keyId in keys && keys[keyId].userId != userId <==> usage == Failure(Forbidden)
      ensures usage.Success? ==>
        var key := keys[keyId];
        var count := if cache.available then Count(calls, key.prefix, 86400, cache.now / 86400) else 0;
        usage.value == Usage(key.id, key.quotaDaily, count, key.quotaDaily - count, key.ratePerMin)
    {
      if keyId !in keys {
        return Failure(NotFound);
      }
      var key := keys[keyId];
      if key.userId != userId {
        return Failure(Forbidden);
      }
      CurrentNumber(cache.View(), QuotaFamily(dateText), 1, calls, key.prefix);
      var text := cache.Get(Key(QuotaFamily(dateText), key.prefix, cache.now / DAY));
      var used := if text.Some? then Value(text.value) else 0;
      return Success(Usage(key.id, key.quotaDaily, used, key.quotaDaily - used, key.ratePerMin));
    }
  }
}
