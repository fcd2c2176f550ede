/** The link table, the cache in front of it, and what each service call does to both. */
module LinkStore {
  import opened Wrappers
  import IpRanges
  import Clock

  datatype Error = ShortCodeExists | NotFound | Expired | Inactive | Forbidden | InvalidUrl | NoUniqueCode

  // ------------------------------------------------------------------------- targets

  /** What the URL parser, the address parser and the name lookup say about a URL. */
  datatype Target =
    | Unparsable
    | Target(scheme: string, host: string, isLocalhost: bool,
             address: Option<IpRanges.Ip>, lookup: Option<seq<IpRanges.Ip>>)

  /** A web URL whose host neither is nor resolves to an excluded address; a failed lookup passes. */
  predicate Allowed(target: Target) {
    && target.Target?
    && target.scheme in {"http", "https"}
    && target.host != ""
    && !target.isLocalhost
    && (target.address.Some? ==> !IpRanges.Reserved(target.address.value))
    && (target.address.None? && target.lookup.Some? ==>
          forall k | 0 <= k < |target.lookup.value| :: !IpRanges.Reserved(target.lookup.value[k]))
  }

  // --------------------------------------------------------------------------- table

  const ACTIVE := "active"

  datatype Link = Link(id: nat, userId: nat, code: string, url: string, title: string, status: string,
                       expiresAt: Option<int>, batchJob: Option<nat>)

  /** The table with its unique index on the short code and the sequence its ids come from. */
  datatype Table = Table(rows: map<nat, Link>, byCode: map<string, nat>, nextId: nat)

  predicate TableInv(table: Table) {
    && (forall id | id in table.rows ::
          && table.rows[id].id == id && id < table.nextId
          && table.rows[id].code in table.byCode && table.byCode[table.rows[id].code] == id)
    && (forall code | code in table.byCode ::
          table.byCode[code] in table.rows && table.rows[table.byCode[code]].code == code)
  }

  function FindByCode(table: Table, code: string): Option<Link> {
    if code in table.byCode && table.byCode[code] in table.rows then Some(table.rows[table.byCode[code]]) else None
  }

  function Insert(table: Table, link: Link): Table {
    Table(table.rows[link.id := link], table.byCode[link.code := link.id], link.id + 1)
  }

  function Remove(table: Table, id: nat): Table
    requires id in table.rows
  {
    table.(rows := table.rows - {id}, byCode := table.byCode - {table.rows[id].code})
  }

  // --------------------------------------------------------------------------- cache

  datatype Cached = Cached(url: string, expiresAt: Option<int>)

  datatype Store = Store(table: Table, cache: map<string, Cached>, now: int)

  predicate Live(cached: Cached, now: int) {
    cached.expiresAt.Some? ==> now < cached.expiresAt.value
  }

  predicate InCache(s: Store, code: string) {
    code in s.cache && Live(s.cache[code], s.now)
  }

  /** A time to live that is not positive sets no expiry at all. */
  function Keep(url: string, ttl: int, now: int): Cached {
    Cached(url, if ttl > 0 then Some(now + ttl) else None)
  }

  function TimeToLive(link: Link, now: int): int {
    if link.expiresAt.Some? then link.expiresAt.value - now else Clock.DAY
  }

  /** Every cached code has a row, and the row has the cached URL. */
  predicate CacheInv(s: Store) {
    forall code | code in s.cache ::
      FindByCode(s.table, code).Some? && FindByCode(s.table, code).value.url == s.cache[code].url
  }

  predicate Inv(s: Store) {
    TableInv(s.table) && CacheInv(s)
  }

  // ---------------------------------------------------------------------- operations

  datatype CreateRequest = CreateRequest(url: string, customCode: string, title: string, expiresAt: Option<int>)

  /** What the outside supplies for one creation: what is known of the target, the random codes, and
      whether somebody else's insert takes the code after it has been found free. */
  datatype Draw = Draw(target: Target, candidates: seq<string>, raced: bool)

  datatype UpdateRequest = UpdateRequest(title: Option<string>, status: Option<string>, expiresAt: Option<int>)

  const ATTEMPTS: nat := 10

  /** The first of the random candidates that no row uses, within the given number of attempts. */
  function FirstUnused(table: Table, candidates: seq<string>, attempts: nat): Result<string, Error>
    decreases attempts
  {
    if attempts == 0 || candidates == [] then Failure(NoUniqueCode)
    else if candidates[0] !in table.byCode then Success(candidates[0])
    else FirstUnused(table, candidates[1..], attempts - 1)
  }

  function ChooseCode(table: Table, req: CreateRequest, candidates: seq<string>): Result<string, Error> {
    if req.customCode != "" then
      if req.customCode in table.byCode then Failure(ShortCodeExists) else Success(req.customCode)
    else FirstUnused(table, candidates, ATTEMPTS)
  }

  function NewLink(s: Store, userId: nat, req: CreateRequest, code: string, batchJob: Option<nat>): Link {
    Link(s.table.nextId, userId, code, req.url, req.title, ACTIVE, req.expiresAt, batchJob)
  }

  function Create(s: Store, userId: nat, req: CreateRequest, draw: Draw, batchJob: Option<nat>)
    : (Store, Result<Link, Error>)
  {
    if !Allowed(draw.target) then (s, Failure(InvalidUrl))
    else
      match ChooseCode(s.table, req, draw.candidates)
      case Failure(error) => (s, Failure(error))
      case Success(code) =>
        if draw.raced then (s, Failure(ShortCodeExists)) else
        var link := NewLink(s, userId, req, code, batchJob);
        (s.(table := Insert(s.table, link), cache := s.cache[code := Keep(link.url, TimeToLive(link, s.now), s.now)]),
         Success(link))
  }

  /** What a lookup in the table alone would answer. */
  function Lookup(s: Store, code: string): Result<(string, nat), Error> {
    match FindByCode(s.table, code)
    case None => Failure(NotFound)
    case Some(link) =>
      if link.status != ACTIVE then Failure(Inactive)
      else if link.expiresAt.Some? && link.expiresAt.value < s.now then Failure(Expired)
      else Success((link.url, link.id))
  }

  function Resolve(s: Store, code: string): (Store, Result<(string, nat), Error>) {
    if InCache(s, code) then
      match FindByCode(s.table, code)
      case None => (s, Success((s.cache[code].url, 0)))
      case Some(link) =>
        if link.status != ACTIVE then (s, Failure(Inactive))
        else if link.expiresAt.Some? && link.expiresAt.value < s.now then
          (s.(cache := s.cache - {code}), Failure(Expired))
        else (s, Success((s.cache[code].url, link.id)))
    else
      match FindByCode(s.table, code)
      case None => (s, Failure(NotFound))
      case Some(link) =>
        if link.status != ACTIVE then (s, Failure(Inactive))
        else if link.expiresAt.Some? && link.expiresAt.value < s.now then (s, Failure(Expired))
        else
          (s.(cache := s.cache[code := Keep(link.url, TimeToLive(link, s.now), s.now)]), Success((link.url, link.id)))
  }

  function Changed(link: Link, req: UpdateRequest): Link {
    link.(title := if req.title.Some? then req.title.value else link.title,
          status := if req.status.Some? then req.status.value else link.status,
          expiresAt := if req.expiresAt.Some? then req.expiresAt else link.expiresAt)
  }

  function Update(s: Store, userId: nat, id: nat, req: UpdateRequest): (Store, Result<Link, Error>) {
    if id !in s.table.rows then (s, Failure(NotFound))
    else if s.table.rows[id].userId != userId then (s, Failure(Forbidden))
    else
      var link := Changed(s.table.rows[id], req);
      (s.(table := s.table.(rows := s.table.rows[id := link]), cache := s.cache - {link.code}), Success(link))
  }

  function Delete(s: Store, userId: nat, id: nat): (Store, Result<(), Error>) {
    if id !in s.table.rows then (s, Failure(NotFound))
    else if s.table.rows[id].userId != userId then (s, Failure(Forbidden))
    else (ForceDelete(s, id), Success(()))
  }

  function ForceDelete(s: Store, id: nat): Store {
    if id !in s.table.rows then s
    else s.(table := Remove(s.table, id), cache := s.cache - {s.table.rows[id].code})
  }

  // ------------------------------------------------------------- every run of calls

  datatype Call =
    | CreateCall(userId: nat, req: CreateRequest, draw: Draw, batchJob: Option<nat>)
    | ResolveCall(code: string)
    | UpdateCall(userId: nat, id: nat, change: UpdateRequest)
    | DeleteCall(userId: nat, id: nat)
    | ForceDeleteCall(id: nat)
    | Wait(time: nat)
    | Evict(code: string)

  datatype Answer =
    | Created(link: Result<Link, Error>)
    | Resolved(target: Result<(string, nat), Error>)
    | Deleted(outcome: Result<(), Error>)
    | Silent

  function Perform(s: Store, call: Call): (Store, Answer) {
    match call
    case CreateCall(userId, req, draw, batchJob) =>
      var (t, r) := Create(s, userId, req, draw, batchJob); (t, Created(r))
    case ResolveCall(code) => var (t, r) := Resolve(s, code); (t, Resolved(r))
    case UpdateCall(userId, id, change) => var (t, r) := Update(s, userId, id, change); (t, Created(r))
    case DeleteCall(userId, id) => var (t, r) := Delete(s, userId, id); (t, Deleted(r))
    case ForceDeleteCall(id) => (ForceDelete(s, id), Silent)
    case Wait(time) => (s.(now := s.now + time), Silent)
    case Evict(code) => (s.(cache := s.cache - {code}), Silent)
  }

  function Answers(s: Store, calls: seq<Call>): seq<Answer>
    decreases |calls|
  {
    if calls == [] then [] else [Perform(s, calls[0]).1] + Answers(Perform(s, calls[0]).0, calls[1..])
  }

  /** The same service with its cache emptied before and after every call. */
  function Bare(s: Store): Store {
    s.(cache := map[])
  }

  function BareAnswers(s: Store, calls: seq<Call>): seq<Answer>
    decreases |calls|
  {
    if calls == [] then []
    else [Perform(Bare(s), calls[0]).1] + BareAnswers(Bare(Perform(Bare(s), calls[0]).0), calls[1..])
  }

  lemma {:induction false} UnusedIsUnused(table: Table, candidates: seq<string>, attempts: nat)
    ensures FirstUnused(table, candidates, attempts).Success?
        ==> FirstUnused(table, candidates, attempts).value !in table.byCode
    ensures FirstUnused(table, candidates, attempts).Failure? <==>
      forall k | 0 <= k < |candidates| && k < attempts :: candidates[k] in table.byCode
    decreases attempts
  {
    if attempts > 0 && candidates != [] {
      UnusedIsUnused(table, candidates[1..], attempts - 1);
      if candidates[0] in table.byCode && FirstUnused(table, candidates, attempts).Failure? {
        forall k | 0 <= k < |candidates| && k < attempts
          ensures candidates[k] in table.byCode
        {
          assert k > 0 ==> candidates[k] == candidates[1..][k - 1];
        }
      }
      if forall k | 0 <= k < |candidates| && k < attempts :: candidates[k] in table.byCode {
        forall k | 0 <= k < |candidates[1..]| && k < attempts - 1
          ensures candidates[1..][k] in table.byCode
        {
          assert candidates[1..][k] == candidates[k + 1];
        }
      }
    }
  }

  lemma InsertKeepsTable(table: Table, link: Link)
    requires TableInv(table) && link.code !in table.byCode && link.id == table.nextId
    ensures TableInv(Insert(table, link))
    ensures FindByCode(Insert(table, link), link.code) == Some(link)
    ensures forall code | code != link.code :: FindByCode(Insert(table, link), code) == FindByCode(table, code)
  {
  }

  lemma RemoveKeepsTable(table: Table, id: nat)
    requires TableInv(table) && id in table.rows
    ensures TableInv(Remove(table, id))
    ensures forall code | code != table.rows[id].code :: FindByCode(Remove(table, id), code) == FindByCode(table, code)
  {
  }

  lemma CreateKeepsInv(s: Store, userId: nat, req: CreateRequest, draw: Draw, batchJob: Option<nat>)
    requires Inv(s)
    ensures Inv(Create(s, userId, req, draw, batchJob).0)
  {
    UnusedIsUnused(s.table, draw.candidates, ATTEMPTS);
    var code := ChooseCode(s.table, req, draw.candidates);
    if code.Success? {
      InsertKeepsTable(s.table, NewLink(s, userId, req, code.value, batchJob));
    }
  }

  lemma ForceDeleteKeepsInv(s: Store, id: nat)
    requires Inv(s)
    ensures Inv(ForceDelete(s, id))
  {
    if id in s.table.rows {
      RemoveKeepsTable(s.table, id);
    }
  }

  lemma UpdateKeepsInv(s: Store, userId: nat, id: nat, req: UpdateRequest)
    requires Inv(s)
    ensures Inv(Update(s, userId, id, req).0)
  {
  }

  /** Whatever is cached, expired or evicted: a resolve answers what the table says. */
  lemma ResolveAnswersTable(s: Store, code: string)
    requires Inv(s)
    ensures Resolve(s, code).1 == Lookup(s, code)
    ensures Inv(Resolve(s, code).0) && Resolve(s, code).0.table == s.table
  {
  }

  /** What is kept in the cache for a URL: a day without an expiry of its own, else up to it; an expiry that has passed
      keeps it for good. */
  function KeptUntil(url: string, expiresAt: Option<int>, now: int): Cached {
    if expiresAt == None then Cached(url, Some(now + 86400))
    else if now < expiresAt.value then Cached(url, expiresAt)
    else Cached(url, None)
  }

  /** The answer to a resolve, from the row of the code, and what it leaves in the cache: a success not cached yet is
      cached, an expired row drops a live entry, and nothing else changes. */
  lemma ResolveInRows(s: Store, code: string)
    requires Inv(s)
    ensures Resolve(s, code).1 ==
      if code !in s.table.byCode then Failure(NotFound) else
      var link := s.table.rows[s.table.byCode[code]];
      if link.status != "active" then Failure(Inactive)
      else if link.expiresAt.Some? && link.expiresAt.value < s.now then Failure(Expired)
      else Success((link.url, link.id))
    ensures var (t, answer) := Resolve(s, code);
      var live := code in s.cache && (s.cache[code].expiresAt.Some? ==> s.now < s.cache[code].expiresAt.value);
      && t == s.(cache := t.cache)
      && t.cache == if answer.Success? && !live then
                      s.cache[code := KeptUntil(answer.value.0, s.table.rows[answer.value.1].expiresAt, s.now)]
                    else if answer == Failure(Expired) && live then s.cache - {code}
                    else s.cache
  {
  }

  /** When a link can be made: the target is allowed, the code asked for is free, or one of the first
      ten candidates is, and nobody takes it before the insert. */
  predicate Creatable(s: Store, req: CreateRequest, draw: Draw) {
    && Allowed(draw.target) && !draw.raced
    && if req.customCode != "" then req.customCode !in s.table.byCode
       else exists k | 0 <= k < |draw.candidates| && k < 10 :: draw.candidates[k] !in s.table.byCode
  }

  /** The code is the first of ten candidates that no row uses. */
  predicate FirstFree(table: Table, candidates: seq<string>, code: string) {
    exists k | 0 <= k < |candidates| && k < 10 ::
      candidates[k] == code && code !in table.byCode && forall j | 0 <= j < k :: candidates[j] in table.byCode
  }

  /** A new link resolves at once to the URL asked for, under the code asked for, until it expires;
      no other code is affected, and a refusal changes nothing. */
  lemma CreatedResolves(s: Store, userId: nat, req: CreateRequest, draw: Draw, batchJob: Option<nat>)
    requires Inv(s)
    ensures var (t, outcome) := Create(s, userId, req, draw, batchJob);
      && (outcome.Success? <==> Creatable(s, req, draw))
      && (outcome.Failure? ==> t == s)
      && (outcome.Success? ==>
            var link := outcome.value;
            && link.id !in s.table.rows && t.table.rows == s.table.rows[link.id := link]
            && (link.userId, link.url, link.title, link.batchJob) == (userId, req.url, req.title, batchJob)
            && link.status == "active" && link.expiresAt == req.expiresAt
            && (if req.customCode != "" then link.code == req.customCode
                else FirstFree(s.table, draw.candidates, link.code))
            && Resolve(t, link.code).1 == (if req.expiresAt.Some? && req.expiresAt.value < s.now then Failure(Expired)
                                           else Success((req.url, link.id)))
            && forall code | code != link.code :: Resolve(t, code).1 == Resolve(s, code).1)
  {
    UnusedIsUnused(s.table, draw.candidates, ATTEMPTS);
    CreateKeepsInv(s, userId, req, draw, batchJob);
    var (t, outcome) := Create(s, userId, req, draw, batchJob);
    if outcome.Success? {
      var link := outcome.value;
      if req.customCode == "" {
        var k := UnusedIsFirst(s.table, draw.candidates, ATTEMPTS);
      }
      InsertKeepsTable(s.table, link);
      ResolveAnswersTable(t, link.code);
      ForallAnswers(s, t, link.code);
    }
  }

  lemma {:induction false} UnusedIsFirst(table: Table, candidates: seq<string>, attempts: nat) returns (k: nat)
    requires FirstUnused(table, candidates, attempts).Success?
    ensures k < |candidates| && k < attempts && candidates[k] == FirstUnused(table, candidates, attempts).value
    ensures candidates[k] !in table.byCode && forall j | 0 <= j < k :: candidates[j] in table.byCode
    decreases attempts
  {
    if candidates[0] !in table.byCode {
      k := 0;
    } else {
      k := UnusedIsFirst(table, candidates[1..], attempts - 1);
      k := k + 1;
      assert forall j | 1 <= j < k :: candidates[j] == candidates[1..][j - 1];
    }
  }

  predicate NoneFree(table: Table, candidates: seq<string>) {
    forall k | 0 <= k < |candidates| && k < 10 :: candidates[k] in table.byCode
  }

  /** Why a link cannot be made; a code that is taken, also by somebody else's insert, exists already. */
  function WhyRefused(table: Table, req: CreateRequest, draw: Draw): Error {
    if !Allowed(draw.target) then InvalidUrl
    else if req.customCode == "" && NoneFree(table, draw.candidates) then NoUniqueCode
    else ShortCodeExists
  }

  /** The effect of a creation on index, ids and cache, and the reason of a refusal. */
  lemma CreatedIsCached(s: Store, userId: nat, req: CreateRequest, draw: Draw, batchJob: Option<nat>)
    ensures var (t, outcome) := Create(s, userId, req, draw, batchJob);
      && (outcome.Success? ==>
            var code := outcome.value.code;
            && outcome.value.id == s.table.nextId == t.table.nextId - 1 && t.now == s.now
            && t.table.byCode == s.table.byCode[code := s.table.nextId]
            && t.cache == s.cache[code := KeptUntil(req.url, req.expiresAt, s.now)])
      && (outcome.Failure? ==> outcome.error == WhyRefused(s.table, req, draw))
  {
    UnusedIsUnused(s.table, draw.candidates, ATTEMPTS);
    FailureIsNoUniqueCode(s.table, draw.candidates, ATTEMPTS);
  }

  lemma {:induction false} FailureIsNoUniqueCode(table: Table, candidates: seq<string>, attempts: nat)
    ensures FirstUnused(table, candidates, attempts).Failure?
        ==> FirstUnused(table, candidates, attempts).error == NoUniqueCode
    decreases attempts
  {
    if attempts > 0 && candidates != [] {
      FailureIsNoUniqueCode(table, candidates[1..], attempts - 1);
    }
  }

  /** Where the rows are the same, so are the answers. */
  lemma ForallAnswers(s: Store, t: Store, changed: string)
    requires Inv(s) && Inv(t) && s.now == t.now
    requires forall code | code != changed :: FindByCode(s.table, code) == FindByCode(t.table, code)
    ensures forall code | code != changed :: Resolve(t, code).1 == Resolve(s, code).1
  {
    forall code | code != changed
      ensures Resolve(t, code).1 == Resolve(s, code).1
    {
      ResolveAnswersTable(s, code);
      ResolveAnswersTable(t, code);
    }
  }

  /** A change of the owner's is seen by the very next resolve, although the old answer was cached. */
  lemma UpdatedResolves(s: Store, userId: nat, id: nat, req: UpdateRequest)
    requires Inv(s)
    ensures var (t, outcome) := Update(s, userId, id, req);
      && (outcome.Success? <==> id in s.table.rows && s.table.rows[id].userId == userId)
      && (outcome.Failure? ==> t == s && outcome.error == if id in s.table.rows then Forbidden else NotFound)
      && (outcome.Success? ==>
            var was, link := s.table.rows[id], outcome.value;
            var status := if req.status.Some? then req.status.value else was.status;
            var expiry := if req.expiresAt.Some? then req.expiresAt else was.expiresAt;
            && t.table == s.table.(rows := s.table.rows[id := link]) && t.cache == s.cache - {was.code}
            && link.title == (if req.title.Some? then req.title.value else was.title)
            && link.status == status && link.expiresAt == expiry
            && (link.id, link.userId, link.code, link.url, link.batchJob)
                 == (id, userId, was.code, was.url, was.batchJob)
            && Resolve(t, was.code).1 ==
                 (if status != "active" then Failure(Inactive)
                  else if expiry.Some? && expiry.value < s.now then Failure(Expired)
                  else Success((was.url, id)))
            && forall code | code != was.code :: Resolve(t, code).1 == Resolve(s, code).1)
  {
    UpdateKeepsInv(s, userId, id, req);
    var (t, outcome) := Update(s, userId, id, req);
    if outcome.Success? {
      ResolveAnswersTable(t, outcome.value.code);
      ForallAnswers(s, t, outcome.value.code);
    }
  }

  /** What its owner deletes is gone for the very next resolve, and nothing else is. */
  lemma DeletedIsGone(s: Store, userId: nat, id: nat)
    requires Inv(s)
    ensures var (t, outcome) := Delete(s, userId, id);
      && (outcome.Success? <==> id in s.table.rows && s.table.rows[id].userId == userId)
      && (outcome.Failure? ==> t == s && outcome.error == if id in s.table.rows then Forbidden else NotFound)
      && (outcome.Success? ==>
            var code := s.table.rows[id].code;
            && Resolve(t, code).1 == Failure(NotFound)
            && t.table.rows == s.table.rows - {id} && t.table.byCode == s.table.byCode - {code}
            && t.cache == s.cache - {code} && t.table.nextId == s.table.nextId
            && forall other | other != code :: Resolve(t, other).1 == Resolve(s, other).1)
    ensures ForceDelete(s, id) == if id in s.table.rows then Delete(s, s.table.rows[id].userId, id).0 else s
  {
    ForceDeleteKeepsInv(s, id);
    var (t, outcome) := Delete(s, userId, id);
    if outcome.Success? {
      var code := s.table.rows[id].code;
      RemoveKeepsTable(s.table, id);
      ResolveAnswersTable(t, code);
      ForallAnswers(s, t, code);
    }
  }

  lemma PerformKeepsInv(s: Store, call: Call)
    requires Inv(s)
    ensures Inv(Perform(s, call).0)
  {
    match call
    case CreateCall(userId, req, draw, batchJob) => CreateKeepsInv(s, userId, req, draw, batchJob);
    case ResolveCall(code) => ResolveAnswersTable(s, code);
    case UpdateCall(userId, id, change) => UpdateKeepsInv(s, userId, id, change);
    case DeleteCall(userId, id) => ForceDeleteKeepsInv(s, id);
    case ForceDeleteCall(id) => ForceDeleteKeepsInv(s, id);
    case Wait(time) =>
    case Evict(code) =>
  }

  /** The cache changes no answer and leaves no trace in the table. */
  lemma CacheInvisible(s: Store, call: Call)
    requires Inv(s)
    ensures Perform(s, call).1 == Perform(Bare(s), call).1
    ensures Bare(Perform(s, call).0) == Bare(Perform(Bare(s), call).0)
  {
    if call.ResolveCall? {
      ResolveAnswersTable(s, call.code);
      ResolveAnswersTable(Bare(s), call.code);
    }
  }

  /** Over every run of calls, waits and evictions the service answers as if it had no cache. */
  lemma {:induction false} CacheTransparent(s: Store, calls: seq<Call>)
    requires Inv(s)
    ensures Answers(s, calls) == BareAnswers(s, calls)
    decreases |calls|
  {
    if calls != [] {
      var t := Perform(s, calls[0]).0;
      CacheInvisible(s, calls[0]);
      PerformKeepsInv(s, calls[0]);
      CacheTransparent(t, calls[1..]);
      BareTwice(t, calls[1..]);
    }
  }

  lemma BareTwice(s: Store, calls: seq<Call>)
    ensures BareAnswers(s, calls) == BareAnswers(Bare(s), calls)
  {
    assert Bare(Bare(s)) == Bare(s);
  }
}
