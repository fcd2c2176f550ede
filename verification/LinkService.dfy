/** The link service object: table and cache as fields, every method proved against LinkStore. */
module LinkService {
  import opened Wrappers
  import opened LinkStore
  import IpRanges
  import Clock

  class Service {
    var rows: map<nat, Link>
    var byCode: map<string, nat>
    var nextId: nat
    var cache: map<string, Cached>
    var now: int

    ghost function View(): Store
      reads this
    {
      Store(Table(rows, byCode, nextId), cache, now)
    }

    ghost predicate Valid()
      reads this
    {
      Inv(View())
    }

    constructor (now: int)
      ensures Valid() && View() == Store(Table(map[], map[], 0), map[], now)
    {
      rows, byCode, nextId, cache := map[], map[], 0, map[];
      this.now := now;
    }

    method ValidateUrl(target: Target) returns (allowed: bool)
      ensures allowed == Allowed(target)
      ensures !allowed <==>
        || target.Unparsable? || (target.scheme != "http" && target.scheme != "https") || target.host == ""
        || target.isLocalhost || (target.address.Some? && IpRanges.Reserved(target.address.value))
        || (target.address.None? && target.lookup.Some?
            && exists k | 0 <= k < |target.lookup.value| :: IpRanges.Reserved(target.lookup.value[k]))
    {
      if target.Unparsable? || target.scheme !in {"http", "https"} || target.host == "" || target.isLocalhost {
        return false;
      }
      if target.address.Some? {
        var reserved := IpRanges.IsPrivateOrReservedIp(target.address.value);
        return !reserved;
      }
      if target.lookup.Some? {
        allowed := NoneReserved(target.lookup.value);
        return;
      }
      return true;
    }

    /** The loop over the addresses that the name resolves to. */
    method NoneReserved(addresses: seq<IpRanges.Ip>) returns (allowed: bool)
      ensures allowed == forall k | 0 <= k < |addresses| :: !IpRanges.Reserved(addresses[k])
    {
      for k := 0 to |addresses|
        invariant forall j | 0 <= j < k :: !IpRanges.Reserved(addresses[j])
      {
        var reserved := IpRanges.IsPrivateOrReservedIp(addresses[k]);
        if reserved {
          return false;
        }
      }
      return true;
    }

    /** Up to ten random codes, supplied by the caller, until one is free. */
    method GenerateUniqueCode(candidates: seq<string>) returns (code: Result<string, Error>)
      ensures code == FirstUnused(View().table, candidates, ATTEMPTS)
    {
      var attempt := 0;
      while attempt < ATTEMPTS && attempt < |candidates|
        invariant attempt <= ATTEMPTS && attempt <= |candidates|
        invariant FirstUnused(View().table, candidates, ATTEMPTS)
               == FirstUnused(View().table, candidates[attempt..], ATTEMPTS - attempt)
      {
        if candidates[attempt] !in byCode {
          return Success(candidates[attempt]);
        }
        assert candidates[attempt..][1..] == candidates[attempt + 1..];
        attempt := attempt + 1;
      }
      return Failure(NoUniqueCode);
    }

    /** The caller's own code if it is free, or else a generated one. */
    method PickCode(req: CreateRequest, candidates: seq<string>) returns (code: Result<string, Error>)
      ensures code == ChooseCode(View().table, req, candidates)
    {
      if req.customCode == "" {
        code := GenerateUniqueCode(candidates);
      } else if req.customCode in byCode {
        code := Failure(ShortCodeExists);
      } else {
        code := Success(req.customCode);
      }
    }

    method CreateWithBatchId(userId: nat, req: CreateRequest, draw: Draw, batchJob: Option<nat>)
      returns (link: Result<Link, Error>)
      requires Valid()
      modifies this
      ensures Valid()
      ensures (View(), link) == LinkStore.Create(old(View()), userId, req, draw, batchJob)
    {
      CreateKeepsInv(View(), userId, req, draw, batchJob);
      var allowed := ValidateUrl(draw.target);
      if !allowed {
        return Failure(InvalidUrl);
      }
      var code := PickCode(req, draw.candidates);
      if code.Failure? {
        return Failure(code.error);
      }
      if draw.raced {
        // the unique index refuses the row
        return Failure(ShortCodeExists);
      }
      var row := Link(nextId, userId, code.value, req.url, req.title, ACTIVE, req.expiresAt, batchJob);
      InsertRow(row);
      return Success(row);
    }

    /** The insert of the row, and its entry in the cache. */
    method InsertRow(row: Link)
      requires row.id == nextId
      modifies this
      ensures now == old(now) && View().table == Insert(old(View()).table, row)
      ensures cache == old(cache)[row.code := Keep(row.url, TimeToLive(row, now), now)]
    {
      rows, byCode, nextId := rows[nextId := row], byCode[row.code := nextId], nextId + 1;
      var ttl: int := Clock.DAY;
      if row.expiresAt.Some? {
        ttl := row.expiresAt.value - now;
      }
      cache := cache[row.code := Keep(row.url, ttl, now)];
    }

    /** The answer is the table's, whatever the cache holds. */
    method Resolve(code: string) returns (target: Result<(string, nat), Error>)
      requires Valid()
      modifies this`cache
      ensures Valid()
      ensures target == Lookup(old(View()), code)
      ensures View() == LinkStore.Resolve(old(View()), code).0
    {
      ResolveAnswersTable(View(), code);
      if code in cache && Live(cache[code], now) {
        var url, id := cache[code].url, 0;
        if code in byCode && byCode[code] in rows {
          var link := rows[byCode[code]];
          if link.status != ACTIVE {
            return Failure(Inactive);
          }
          if link.expiresAt.Some? && link.expiresAt.value < now {
            cache := cache - {code};
            return Failure(Expired);
          }
          id := link.id;
        }
        return Success((url, id));
      }
      if code !in byCode || byCode[code] !in rows {
        return Failure(NotFound);
      }
      var link := rows[byCode[code]];
      if link.status != ACTIVE {
        return Failure(Inactive);
      }
      if link.expiresAt.Some? && link.expiresAt.value < now {
        return Failure(Expired);
      }
      var ttl: int := Clock.DAY;
      if link.expiresAt.Some? {
        ttl := link.expiresAt.value - now;
      }
      cache := cache[code := Keep(link.url, ttl, now)];
      return Success((link.url, link.id));
    }

    method Update(userId: nat, id: nat, req: UpdateRequest) returns (link: Result<Link, Error>)
      requires Valid()
      modifies this`rows, this`cache
      ensures Valid()
      ensures (View(), link) == LinkStore.Update(old(View()), userId, id, req)
    {
      UpdateKeepsInv(View(), userId, id, req);
      if id !in rows {
        return Failure(NotFound);
      }
      var row := rows[id];
      if row.userId != userId {
        return Failure(Forbidden);
      }
      if req.title.Some? {
        row := row.(title := req.title.value);
      }
      if req.status.Some? {
        row := row.(status := req.status.value);
      }
      if req.expiresAt.Some? {
        row := row.(expiresAt := req.expiresAt);
      }
      rows := rows[id := row];
      cache := cache - {row.code};
      return Success(row);
    }

    method Delete(userId: nat, id: nat) returns (outcome: Result<(), Error>)
      requires Valid()
      modifies this`rows, this`byCode, this`cache
      ensures Valid()
      ensures (View(), outcome) == LinkStore.Delete(old(View()), userId, id)
    {
      ForceDeleteKeepsInv(View(), id);
      if id !in rows {
        return Failure(NotFound);
      }
      var row := rows[id];
      if row.userId != userId {
        return Failure(Forbidden);
      }
      cache := cache - {row.code};
      rows, byCode := rows - {id}, byCode - {row.code};
      return Success(());
    }

    method ForceDelete(id: nat)
      requires Valid()
      modifies this`rows, this`byCode, this`cache
      ensures Valid()
      ensures View() == LinkStore.ForceDelete(old(View()), id)
    {
      ForceDeleteKeepsInv(View(), id);
      if id !in rows {
        return;
      }
      var row := rows[id];
      cache := cache - {row.code};
      rows, byCode := rows - {id}, byCode - {row.code};
    }
  }
}
