/** The read-through credential cache (internal/keystore/keystore.go, exchangeresolver.go and
    internal/sfdetach/sfdetach.go) as a step system: one clock, the database rows, the
    Redis map with deadlines, the lookups in flight and one program counter per caller. Any
    number of processes share the database and Redis; each has its own singleflight group.
    Times are microseconds. Every interleaving of the steps is a behaviour. */
module KeyCache {
  import opened Strings
  import opened KeyRows
  import opened KeyGrant

  const TTL: int := 60_000_000

  /** A bearer, named by what verifying it yields; its hash is injective, so the bearer
      itself is the cache key. */
  datatype Cred =
    | PkBearer(key: KeyId)
    | EkBearer(key: KeyId)
    | ExchangeJwt(key: KeyId, exp: int)
    | Unrecognised(text: string)

  datatype KeyInfo = KeyInfo(key: KeyId, expiresAt: Option<int>)

  datatype Db = Db(personal: map<KeyId, PkRow>, environment: map<KeyId, EkRow>, grants: seq<Grant>)

  /** The shared lookup. An exchange JWT reads its row and its grants in two statements. */
  datatype Phase =
    | Started
    | Anchored(anchor: int)
    | HaveRow(anchor: int, row: EkRow)
    | Done(anchor: int, info: Option<KeyInfo>)
    | Failed

  datatype Flight = Flight(cred: Cred, phase: Phase)

  /** Where a caller of Resolve stands; a caller that has returned has no counter.
      `since` is the clock reading the lifetime was measured at. */
  datatype Pc =
    | Missed(cred: Cred)
    | Waiting(flight: nat)
    | Filled(flight: nat)
    | Measured(flight: nat, remaining: int, since: int)
    | Capped(flight: nat, remaining: int, since: int)
    | Checked(flight: nat, remaining: int, since: int)

  /** A Redis entry; `flight` records which lookup it came from. */
  datatype Entry = Entry(info: KeyInfo, deadline: int, flight: nat)

  /** `group` maps a process and a bearer to the flight that process's callers share. */
  datatype State = State(
    now: int, db: Db, redis: map<Cred, Entry>,
    flights: seq<Flight>, group: map<(nat, Cred), nat>, callers: map<nat, Pc>)

  datatype Step =
    | Tick(dt: nat)
    | PkCommit(id: KeyId, pk: PkEvent) | EkCommit(id: KeyId, ek: EkEvent)
    | InsertPk(id: KeyId, pkRow: PkRow) | InsertEk(id: KeyId, ekRow: EkRow)
    | SetGrants(grants: seq<Grant>)
    | Evict(cred: Cred)
    | Miss(c: nat, cred: Cred) | Join(c: nat, proc: nat) | Deliver(c: nat) | Leave(c: nat)
    | Measure(c: nat) | Cap(c: nat) | Check(c: nat) | Store(c: nat)
    | TakeAnchor(f: nat) | Lookup(f: nat) | ReadGrants(f: nat) | Refuse(f: nat) | FailFlight(f: nat)
    | Retire(f: nat, proc: nat)

  // ----- The pieces of Resolve

  /** The hit path: a live entry is served unless its own expiry has passed. */
  function Hit(redis: map<Cred, Entry>, cred: Cred, now: int): (r: Option<KeyInfo>) {
    if cred in redis && now < redis[cred].deadline && Unexpired(redis[cred].info.expiresAt, now)
    then Some(redis[cred].info) else None
  }

  /** ttl - (now - anchor). */
  function Elapse(anchor: int, now: int): (r: int) {
    TTL - (now - anchor)
  }

  function CapAt(remaining: int, expiresAt: Option<int>, now: int): (r: int) {
    if expiresAt.Some? && expiresAt.value - now < remaining then expiresAt.value - now else remaining
  }

  /** SET with a lifetime; nothing is stored when none is left. */
  function StoreIn(redis: map<Cred, Entry>, cred: Cred, info: KeyInfo, now: int, remaining: int, f: nat)
    : (r: map<Cred, Entry>)
  {
    if remaining > 0 then redis[cred := Entry(info, now + remaining, f)] else redis
  }

  function EarlierOf(a: Option<int>, exp: int): (r: int) {
    if a.None? || exp < a.value then exp else a.value
  }

  /** The first database statement of a lookup: the updated rows and the next phase. */
  function LookupIn(db: Db, cred: Cred, anchor: int, now: int): (r: (Db, Phase)) {
    match cred
    case PkBearer(k) =>
      if k in db.personal && PkAccepts(db.personal[k], now) then
        var row := PkUse(db.personal[k], now);
        (db.(personal := db.personal[k := row]), Done(anchor, Some(KeyInfo(k, Some(row.expiresAt)))))
      else (db, Done(anchor, None))
    case EkBearer(k) =>
      if k in db.environment && EkAccepts(db.environment[k], now) then
        var row := EkUse(db.environment[k], now);
        (db.(environment := db.environment[k := row]), Done(anchor, Some(KeyInfo(k, row.expiresAt))))
      else (db, Done(anchor, None))
    case ExchangeJwt(k, _) =>
      if k in db.environment && db.environment[k].exchange && EkAccepts(db.environment[k], now) then
        var row := ExchangeUse(db.environment[k], now);
        (db.(environment := db.environment[k := row]), HaveRow(anchor, row))
      else (db, Done(anchor, None))
    case Unrecognised(_) => (db, Done(anchor, None))
  }

  function KeyOf(k: KeyId, row: EkRow): (r: ExchangeKey) {
    ExchangeKey(k, row.owner, row.environment, row.requester)
  }

  /** The resolver's own code around the shared lookup, run by one caller. */
  class CachedResolver {
    var redis: map<Cred, Entry>

    /** The hit path: the first component says whether Resolve returns here, without a lookup. */
    method Cached(cred: Cred, now: int) returns (answered: bool, r: Option<KeyInfo>)
      ensures r == Hit(redis, cred, now)
      ensures answered <==> cred in redis && now < redis[cred].deadline
    {
      answered, r := false, None;
      if cred in redis && now < redis[cred].deadline {
        answered := true;
        var info := redis[cred].info;
        if info.expiresAt.None? || now < info.expiresAt.value {
          r := Some(info);
        }
      }
    }

    /** What every joined caller does with the shared result; t1 to t4 are its successive
        clock readings. The stored entry ends within a minute of the anchor and by the
        info's own expiry, up to the gap between the first reading and the SET. */
    method Fill(cred: Cred, f: nat, info: KeyInfo, anchor: int, t1: int, t2: int, t3: int, t4: int)
      returns (r: Option<KeyInfo>)
      requires anchor <= t1 <= t2 <= t3 <= t4
      modifies this`redis
      ensures r == if Unexpired(info.expiresAt, t3) then Some(info) else None
      ensures redis ==
                if r.Some? then StoreIn(old(redis), cred, info, t4, CapAt(Elapse(anchor, t1), info.expiresAt, t2), f)
                else old(redis)
      ensures redis != old(redis) ==>
                && redis == old(redis)[cred := redis[cred]] && redis[cred].info == info && redis[cred].deadline > t4
                && redis[cred].deadline <= anchor + 60_000_000 + (t4 - t1)
                && (info.expiresAt.Some? ==> redis[cred].deadline <= info.expiresAt.value + (t4 - t2))
    {
      var remaining := TTL - (t1 - anchor);
      if info.expiresAt.Some? {
        var until := info.expiresAt.value - t2;
        if until < remaining {
          remaining := until;
        }
        if !(t3 < info.expiresAt.value) {
          return None;
        }
      }
      if remaining > 0 {
        redis := redis[cred := Entry(info, t4 + remaining, f)];
      }
      return Some(info);
    }
  }

  // ----- Steps

  predicate FlightAt(s: State, f: nat, p: Phase) {
    f < |s.flights| && s.flights[f].phase == p
  }

  /** The info a finished flight carries. */
  predicate Carries(s: State, f: nat) {
    f < |s.flights| && s.flights[f].phase.Done? && s.flights[f].phase.info.Some?
  }

  predicate Enabled(delta: nat, s: State, step: Step) {
    match step
    case Tick(_) => true
    case PkCommit(id, e) => id in s.db.personal && e.at == s.now
    case EkCommit(id, e) => id in s.db.environment && e.at == s.now
    case InsertPk(id, row) =>
      id !in s.db.personal && row.createdAt == s.now && row.status == Active
      && row.lastUsedAt.None? && row.expiresAt <= s.now + WINDOW
    case InsertEk(id, row) => id !in s.db.environment && row.createdAt == s.now && row.status == Active
    case SetGrants(_) => true
    case Evict(_) => true
    case Miss(c, _) => c !in s.callers
    case Join(c, _) => c in s.callers && s.callers[c].Missed?
    case Deliver(c) =>
      c in s.callers && s.callers[c].Waiting? && s.callers[c].flight < |s.flights|
      && (s.flights[s.callers[c].flight].phase.Done? || s.flights[s.callers[c].flight].phase.Failed?)
    case Leave(c) => c in s.callers
    case Measure(c) => c in s.callers && s.callers[c].Filled? && Carries(s, s.callers[c].flight)
    case Cap(c) => c in s.callers && s.callers[c].Measured? && Carries(s, s.callers[c].flight)
    case Check(c) => c in s.callers && s.callers[c].Capped? && Carries(s, s.callers[c].flight)
    case Store(c) =>
      && c in s.callers && s.callers[c].Checked? && Carries(s, s.callers[c].flight)
      && s.now - s.callers[c].since <= delta
    case TakeAnchor(f) => FlightAt(s, f, Started)
    case Lookup(f) => f < |s.flights| && s.flights[f].phase.Anchored?
    case ReadGrants(f) => f < |s.flights| && s.flights[f].phase.HaveRow? && s.flights[f].cred.ExchangeJwt?
    case Refuse(f) => f < |s.flights| && s.flights[f].phase.Anchored?
    case FailFlight(f) => f < |s.flights| && !s.flights[f].phase.Done?
    case Retire(f, proc) =>
      f < |s.flights| && (s.flights[f].phase.Done? || s.flights[f].phase.Failed?)
      && (proc, s.flights[f].cred) in s.group && s.group[(proc, s.flights[f].cred)] == f
  }

  function SetPhase(s: State, f: nat, p: Phase): (r: State)
    requires f < |s.flights|
  {
    s.(flights := s.flights[f := s.flights[f].(phase := p)])
  }

  function SetPc(s: State, c: nat, pc: Pc): (r: State) {
    s.(callers := s.callers[c := pc])
  }

  function Gone(s: State, c: nat): (r: State) {
    s.(callers := s.callers - {c})
  }

  /** The caller's steps after the shared lookup. */
  function CallerStep(delta: nat, s: State, step: Step): (r: State)
    requires Enabled(delta, s, step)
    requires step.Join? || step.Deliver? || step.Measure? || step.Cap? || step.Check? || step.Store?
  {
    match step
    case Join(c, proc) =>
      var cred := s.callers[c].cred;
      if (proc, cred) in s.group then SetPc(s, c, Waiting(s.group[(proc, cred)]))
      else SetPc(s.(flights := s.flights + [Flight(cred, Started)], group := s.group[(proc, cred) := |s.flights|]),
                 c, Waiting(|s.flights|))
    case Deliver(c) =>
      if Carries(s, s.callers[c].flight) then SetPc(s, c, Filled(s.callers[c].flight)) else Gone(s, c)
    case Measure(c) =>
      var f := s.callers[c].flight;
      SetPc(s, c, Measured(f, Elapse(s.flights[f].phase.anchor, s.now), s.now))
    case Cap(c) =>
      var Measured(f, remaining, since) := s.callers[c];
      SetPc(s, c, Capped(f, CapAt(remaining, s.flights[f].phase.info.value.expiresAt, s.now), since))
    case Check(c) =>
      var Capped(f, remaining, since) := s.callers[c];
      if Unexpired(s.flights[f].phase.info.value.expiresAt, s.now) then SetPc(s, c, Checked(f, remaining, since))
      else Gone(s, c)
    case Store(c) =>
      var Checked(f, remaining, _) := s.callers[c];
      Gone(s.(redis := StoreIn(s.redis, s.flights[f].cred, s.flights[f].phase.info.value, s.now, remaining, f)), c)
  }

  function FlightStep(delta: nat, s: State, step: Step): (r: State)
    requires Enabled(delta, s, step)
    requires step.TakeAnchor? || step.Lookup? || step.ReadGrants? || step.Refuse? || step.FailFlight? || step.Retire?
  {
    match step
    case TakeAnchor(f) => SetPhase(s, f, Anchored(s.now))
    case Lookup(f) =>
      var (db, p) := LookupIn(s.db, s.flights[f].cred, s.flights[f].phase.anchor, s.now);
      SetPhase(s.(db := db), f, p)
    case ReadGrants(f) =>
      var ExchangeJwt(k, exp) := s.flights[f].cred;
      var HaveRow(anchor, row) := s.flights[f].phase;
      SetPhase(s, f, Done(anchor, if ResolverAllows(s.db.grants, KeyOf(k, row))
                                  then Some(KeyInfo(k, Some(EarlierOf(row.expiresAt, exp)))) else None))
    case Refuse(f) => SetPhase(s, f, Done(s.flights[f].phase.anchor, None))
    case FailFlight(f) => SetPhase(s, f, Failed)
    case Retire(f, proc) => s.(group := s.group - {(proc, s.flights[f].cred)})
  }

  function Apply(delta: nat, s: State, step: Step): (r: State)
    requires Enabled(delta, s, step)
  {
    match step
    case Tick(dt) => s.(now := s.now + dt)
    case PkCommit(id, e) => s.(db := s.db.(personal := s.db.personal[id := PkApply(s.db.personal[id], e)]))
    case EkCommit(id, e) => s.(db := s.db.(environment := s.db.environment[id := EkApply(s.db.environment[id], e)]))
    case InsertPk(id, row) => s.(db := s.db.(personal := s.db.personal[id := row]))
    case InsertEk(id, row) => s.(db := s.db.(environment := s.db.environment[id := row]))
    case SetGrants(gs) => s.(db := s.db.(grants := gs))
    case Evict(cred) => s.(redis := s.redis - {cred})
    case Miss(c, cred) => SetPc(s, c, Missed(cred))
    case Leave(c) => Gone(s, c)
    case Join(_, _) => CallerStep(delta, s, step)
    case Deliver(_) => CallerStep(delta, s, step)
    case Measure(_) => CallerStep(delta, s, step)
    case Cap(_) => CallerStep(delta, s, step)
    case Check(_) => CallerStep(delta, s, step)
    case Store(_) => CallerStep(delta, s, step)
    case TakeAnchor(_) => FlightStep(delta, s, step)
    case Lookup(_) => FlightStep(delta, s, step)
    case ReadGrants(_) => FlightStep(delta, s, step)
    case Refuse(_) => FlightStep(delta, s, step)
    case FailFlight(_) => FlightStep(delta, s, step)
    case Retire(_, _) => FlightStep(delta, s, step)
  }

  ghost predicate Next(delta: nat, s: State, s': State) {
    exists step :: Enabled(delta, s, step) && s' == Apply(delta, s, step)
  }

  ghost predicate Init(s: State) {
    s.db.personal == map[] && s.db.environment == map[] && s.redis == map[]
    && s.flights == [] && s.group == map[] && s.callers == map[]
  }

  ghost predicate Behaviour(delta: nat, tr: seq<State>) {
    && tr != [] && Init(tr[0])
    && forall i :: 0 <= i < |tr| - 1 ==> NextAt(delta, tr, i)
  }

  ghost predicate NextAt(delta: nat, tr: seq<State>, i: int)
    requires 0 <= i < |tr| - 1
  {
    Next(delta, tr[i], tr[i + 1])
  }
}
