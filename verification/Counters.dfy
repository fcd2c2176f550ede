/** Keyed counters with an expiry refine a count over the history of calls. */
module Counters {
  import opened Wrappers
  import opened Text
  import opened RedisCache
  import opened Numbers

  // ---------------------------------------------------------------------- families

  /** Keys of one kind: a counter per group and per bucket of the given width in seconds. */
  datatype Family = Family(name: string, width: nat, bucketText: nat -> string)

  ghost predicate Proper(f: Family) {
    && f.width >= 1
    && (forall b :: Lacks(f.bucketText(b), ':'))
    && (forall b, c | f.bucketText(b) == f.bucketText(c) :: b == c)
  }

  function Key(f: Family, group: string, bucket: nat): string {
    f.name + (group + ([':'] + f.bucketText(bucket)))
  }

  lemma KeyText(f: Family, group: string, bucket: nat)
    ensures Key(f, group, bucket) == f.name + group + ":" + f.bucketText(bucket)
  {
  }

  lemma KeysApart(f: Family, g: string, b: nat, h: string, c: nat)
    requires Proper(f) && Key(f, g, b) == Key(f, h, c)
    ensures g == h && b == c
  {
    var p, q := g + ([':'] + f.bucketText(b)), h + ([':'] + f.bucketText(c));
    assert (f.name + p)[|f.name|..] == p && (f.name + q)[|f.name|..] == q;
    SplitAtLast(g, f.bucketText(b), h, f.bucketText(c), ':');
  }

  /** The key does not begin with the name of the family. */
  predicate Foreign(f: Family, key: string) {
    |key| < |f.name| || key[..|f.name|] != f.name
  }

  /** Families whose names differ early have different keys. */
  lemma FamiliesApart(f: Family, g: Family, group: string, bucket: nat, i: nat)
    requires i < |f.name| && i < |g.name| && f.name[i] != g.name[i]
    ensures Foreign(g, Key(f, group, bucket))
    ensures Key(f, group, bucket)[i] == f.name[i]
  {
    var key := Key(f, group, bucket);
    assert |key| >= |g.name| ==> key[..|g.name|][i] == key[i];
  }

  lemma OwnKey(f: Family, group: string, bucket: nat)
    ensures !Foreign(f, Key(f, group, bucket))
  {
  }

  // ----------------------------------------------------------------------- history

  /** One counted call. */
  datatype Hit<T> = Hit(group: string, time: nat, tag: T)

  predicate Falls<T>(hit: Hit<T>, group: string, width: nat, bucket: nat)
    requires width >= 1
  {
    hit.group == group && hit.time / width == bucket
  }

  /** How many calls of the group fell into the bucket. */
  function Count<T>(hits: seq<Hit<T>>, group: string, width: nat, bucket: nat): nat
    requires width >= 1
  {
    if hits == [] then 0
    else Count(hits[..|hits| - 1], group, width, bucket)
         + if Falls(hits[|hits| - 1], group, width, bucket) then 1 else 0
  }

  lemma CountOneMore<T>(hits: seq<Hit<T>>, hit: Hit<T>, group: string, width: nat, bucket: nat)
    requires width >= 1
    ensures Count(hits + [hit], group, width, bucket)
         == Count(hits, group, width, bucket) + if Falls(hit, group, width, bucket) then 1 else 0
  {
    assert (hits + [hit])[..|hits|] == hits;
  }

  lemma {:induction false} NothingFalls<T>(hits: seq<Hit<T>>, group: string, width: nat, bucket: nat, now: nat)
    requires width >= 1 && bucket > now / width && forall k | 0 <= k < |hits| :: hits[k].time <= now
    ensures Count(hits, group, width, bucket) == 0
  {
    if hits != [] {
      QuotientGrows(hits[|hits| - 1].time, now, width);
      NothingFalls(hits[..|hits| - 1], group, width, bucket, now);
    }
  }

  // --------------------------------------------------------------------- invariant

  /** The counter of this group and bucket is the number of its calls, and lives to the end of the
      bucket and of the following ones, slack in all. */
  ghost predicate Exact<T>(c: Cache, f: Family, slack: nat, hits: seq<Hit<T>>, group: string, bucket: nat)
    requires f.width >= 1
  {
    var n, key := Count(hits, group, f.width, bucket), Key(f, group, bucket);
    if n == 0 then key !in c.entries
    else
      && key in c.entries
      && c.entries[key].text == Decimal(n)
      && c.entries[key].expiresAt.Some? && c.entries[key].expiresAt.value >= (bucket + slack) * f.width
  }

  ghost predicate CounterInv<T>(c: Cache, f: Family, slack: nat, hits: seq<Hit<T>>)
    requires f.width >= 1
  {
    && (forall k | 0 <= k < |hits| :: hits[k].time <= c.now)
    && forall group, bucket :: Exact(c, f, slack, hits, group, bucket)
  }

  /** In its own bucket a counter is alive and exact, so counting up gives the call's ordinal. */
  lemma CurrentNumber<T>(c: Cache, f: Family, slack: nat, hits: seq<Hit<T>>, group: string)
    requires f.width >= 1 && slack >= 1 && CounterInv(c, f, slack, hits)
    ensures var key, n := Key(f, group, c.now / f.width), Count(hits, group, f.width, c.now / f.width);
      Number(c, key) == n && (Live(c, key) <==> n > 0)
  {
    AliveFor(c, f, slack, hits, group, 0);
  }

  /** The counter of an earlier bucket, as long as it is within the slack. */
  lemma AliveFor<T>(c: Cache, f: Family, slack: nat, hits: seq<Hit<T>>, group: string, age: nat)
    requires f.width >= 1 && age < slack && age <= c.now / f.width && CounterInv(c, f, slack, hits)
    ensures var key, n := Key(f, group, c.now / f.width - age), Count(hits, group, f.width, c.now / f.width - age);
      Number(c, key) == n && (Live(c, key) <==> n > 0)
  {
    var bucket := c.now / f.width - age;
    assert Exact(c, f, slack, hits, group, bucket);
    InBlock(c.now, f.width, c.now / f.width);
    ScaledNext(c.now / f.width, bucket + slack, f.width);
    DecimalReadsBack(Count(hits, group, f.width, bucket));
  }

  /** One more call: its key holds the next number, and lives long enough. */
  lemma HitKeepsInv<T>(c: Cache, t: Cache, f: Family, slack: nat, hits: seq<Hit<T>>, hit: Hit<T>)
    requires Proper(f) && CounterInv(c, f, slack, hits) && t.now == c.now == hit.time
    requires var b := c.now / f.width;
      var key := Key(f, hit.group, b);
      && key in t.entries && t.entries == c.entries[key := t.entries[key]]
      && t.entries[key].text == Decimal(Count(hits, hit.group, f.width, b) + 1)
      && t.entries[key].expiresAt.Some? && t.entries[key].expiresAt.value >= (b + slack) * f.width
    ensures CounterInv(t, f, slack, hits + [hit])
  {
    forall group, bucket
      ensures Exact(t, f, slack, hits + [hit], group, bucket)
    {
      CountOneMore(hits, hit, group, f.width, bucket);
      assert Exact(c, f, slack, hits, group, bucket);
      if Key(f, group, bucket) == Key(f, hit.group, c.now / f.width) {
        KeysApart(f, group, bucket, hit.group, c.now / f.width);
      }
    }
  }

  /** The caches differ at most under this key. */
  ghost predicate SameBut(c: Cache, t: Cache, key: string) {
    forall k | k != key :: (k in t.entries <==> k in c.entries) && (k in c.entries ==> t.entries[k] == c.entries[k])
  }

  /** What happens under other keys, and the passing of time, leave a family alone. */
  lemma OthersKeepInv<T>(c: Cache, t: Cache, f: Family, slack: nat, hits: seq<Hit<T>>, key: string)
    requires f.width >= 1 && CounterInv(c, f, slack, hits) && t.now >= c.now
    requires Foreign(f, key) && SameBut(c, t, key)
    ensures CounterInv(t, f, slack, hits)
  {
    forall group, bucket
      ensures Exact(t, f, slack, hits, group, bucket)
    {
      assert Exact(c, f, slack, hits, group, bucket);
      OwnKey(f, group, bucket);
    }
  }

  // ------------------------------------------------------- counters that expire once

  /** Counts a call, and sets the expiry if it is the first under its key. */
  function CountCall(c: Cache, f: Family, group: string, ttl: int): Cache
    requires f.width >= 1
  {
    var key := Key(f, group, c.now / f.width);
    var counted := Incremented(c, key);
    if Number(c, key) == 0 then Expiring(counted, key, ttl) else counted
  }

  /** An expiry at the end of the bucket or later cannot fire inside it, so no call is forgotten. */
  lemma CountCallKeepsInv<T>(c: Cache, f: Family, hits: seq<Hit<T>>, hit: Hit<T>, ttl: int)
    requires Proper(f) && CounterInv(c, f, 1, hits) && hit.time == c.now
    requires ttl > 0 && c.now + ttl >= (c.now / f.width + 1) * f.width
    ensures CounterInv(CountCall(c, f, hit.group, ttl), f, 1, hits + [hit])
  {
    var t, key := CountCall(c, f, hit.group, ttl), Key(f, hit.group, c.now / f.width);
    CurrentNumber(c, f, 1, hits, hit.group);
    assert Exact(c, f, 1, hits, hit.group, c.now / f.width);
    assert t.entries == c.entries[key := t.entries[key]];
    HitKeepsInv(c, t, f, 1, hits, hit);
  }

  // ------------------------------------------------- counters that each call renews

  function CountRenewed(c: Cache, f: Family, group: string, ttl: int): Cache
    requires f.width >= 1
  {
    var key := Key(f, group, c.now / f.width);
    Expiring(Incremented(c, key), key, ttl)
  }

  /** An expiry renewed by each call outlives as many buckets as it is long. */
  lemma HitRenewedKeepsInv<T>(c: Cache, f: Family, slack: nat, hits: seq<Hit<T>>, hit: Hit<T>)
    requires Proper(f) && slack >= 1 && CounterInv(c, f, slack, hits) && hit.time == c.now
    ensures CounterInv(CountRenewed(c, f, hit.group, slack * f.width), f, slack, hits + [hit])
  {
    var b := c.now / f.width;
    var t, key := CountRenewed(c, f, hit.group, slack * f.width), Key(f, hit.group, b);
    CurrentNumber(c, f, slack, hits, hit.group);
    InBlock(c.now, f.width, b);
    assert slack * f.width > 0;
    assert (b + slack) * f.width == b * f.width + slack * f.width;
    assert t.entries == c.entries[key := t.entries[key]];
    HitKeepsInv(c, t, f, slack, hits, hit);
  }

  /** The time of the last call of the group in the bucket. */
  function LastCall<T>(hits: seq<Hit<T>>, group: string, width: nat, bucket: nat): Option<nat>
    requires width >= 1
  {
    if hits == [] then None
    else if Falls(hits[|hits| - 1], group, width, bucket) then Some(hits[|hits| - 1].time)
    else LastCall(hits[..|hits| - 1], group, width, bucket)
  }

  lemma {:induction false} LastCallIffCounted<T>(hits: seq<Hit<T>>, group: string, width: nat, bucket: nat)
    requires width >= 1
    ensures LastCall(hits, group, width, bucket).Some? <==> Count(hits, group, width, bucket) > 0
  {
    if hits != [] {
      LastCallIffCounted(hits[..|hits| - 1], group, width, bucket);
    }
  }

  /** The counter of this group and bucket expires a fixed time after its last call. */
  ghost predicate Renewed<T>(c: Cache, f: Family, ttl: nat, hits: seq<Hit<T>>, group: string, bucket: nat)
    requires f.width >= 1
  {
    var last, key := LastCall(hits, group, f.width, bucket), Key(f, group, bucket);
    last.Some? ==> key in c.entries && c.entries[key].expiresAt == Some(last.value + ttl)
  }

  ghost predicate RenewedInv<T>(c: Cache, f: Family, ttl: nat, hits: seq<Hit<T>>)
    requires f.width >= 1
  {
    forall group, bucket :: Renewed(c, f, ttl, hits, group, bucket)
  }

  lemma HitRenews<T>(c: Cache, f: Family, ttl: nat, hits: seq<Hit<T>>, hit: Hit<T>)
    requires Proper(f) && ttl > 0 && RenewedInv(c, f, ttl, hits) && hit.time == c.now
    ensures RenewedInv(CountRenewed(c, f, hit.group, ttl), f, ttl, hits + [hit])
  {
    var t, more := CountRenewed(c, f, hit.group, ttl), hits + [hit];
    assert more[..|hits|] == hits;
    forall group, bucket
      ensures Renewed(t, f, ttl, more, group, bucket)
    {
      assert Renewed(c, f, ttl, hits, group, bucket);
      if Key(f, group, bucket) == Key(f, hit.group, c.now / f.width) {
        KeysApart(f, group, bucket, hit.group, c.now / f.width);
      }
    }
  }

  lemma OthersKeepRenewed<T>(c: Cache, t: Cache, f: Family, ttl: nat, hits: seq<Hit<T>>, key: string)
    requires f.width >= 1 && RenewedInv(c, f, ttl, hits) && Foreign(f, key) && SameBut(c, t, key)
    ensures RenewedInv(t, f, ttl, hits)
  {
    forall group, bucket
      ensures Renewed(t, f, ttl, hits, group, bucket)
    {
      assert Renewed(c, f, ttl, hits, group, bucket);
      OwnKey(f, group, bucket);
    }
  }

  /** A bucket is read in full iff its last call is not as long ago as the expiry, or it has none. */
  lemma ReadIff<T>(c: Cache, f: Family, slack: nat, ttl: nat, hits: seq<Hit<T>>, group: string, bucket: nat)
    requires f.width >= 1 && CounterInv(c, f, slack, hits) && RenewedInv(c, f, ttl, hits)
    ensures var n, read := Count(hits, group, f.width, bucket), Number(c, Key(f, group, bucket));
      var last := LastCall(hits, group, f.width, bucket);
      read <= n && (read == n <==> (last.Some? ==> c.now < last.value + ttl))
  {
    assert Exact(c, f, slack, hits, group, bucket) && Renewed(c, f, ttl, hits, group, bucket);
    LastCallIffCounted(hits, group, f.width, bucket);
    DecimalReadsBack(Count(hits, group, f.width, bucket));
  }
}
