/** What every behaviour of the credential cache keeps, and the bound on stale hits. */
module KeyCacheProofs {
  import opened Strings
  import opened KeyRows
  import opened KeyGrant
  import opened KeyCache

  // ----- The invariant

  /** `info` may have come from the current row of the bearer's key: it names that key and
      expires no later than the row, nor later than the token itself. */
  predicate Backed(db: Db, cred: Cred, info: KeyInfo) {
    match cred
    case PkBearer(k) =>
      && info.key == k && k in db.personal
      && info.expiresAt.Some? && info.expiresAt.value <= db.personal[k].expiresAt
    case EkBearer(k) => info.key == k && k in db.environment && info.expiresAt == db.environment[k].expiresAt
    case ExchangeJwt(k, exp) =>
      && info.key == k && k in db.environment && db.environment[k].exchange
      && info.expiresAt == Some(EarlierOf(db.environment[k].expiresAt, exp))
    case Unrecognised(_) => false
  }

  ghost predicate FlightOk(db: Db, now: int, fl: Flight) {
    match fl.phase
    case Started => true
    case Failed => true
    case Anchored(a) => a <= now
    case HaveRow(a, row) =>
      && a <= now && fl.cred.ExchangeJwt? && fl.cred.key in db.environment
      && row.exchange && SameIdentity(row, db.environment[fl.cred.key])
    case Done(a, info) => a <= now && (info.Some? ==> Backed(db, fl.cred, info.value))
  }

  predicate PcOk(s: State, pc: Pc) {
    match pc
    case Missed(_) => true
    case Waiting(f) => f < |s.flights|
    case Filled(f) => Carries(s, f)
    case Measured(f, remaining, since) =>
      Carries(s, f) && since <= s.now && remaining == Elapse(s.flights[f].phase.anchor, since)
    case Capped(f, remaining, since) => LifetimeOk(s, f, remaining, since)
    case Checked(f, remaining, since) => LifetimeOk(s, f, remaining, since)
  }

  predicate LifetimeOk(s: State, f: nat, remaining: int, since: int) {
    && Carries(s, f) && since <= s.now && remaining <= Elapse(s.flights[f].phase.anchor, since)
    && (s.flights[f].phase.info.value.expiresAt.Some? ==>
          remaining <= s.flights[f].phase.info.value.expiresAt.value - since)
  }

  /** An entry comes from a finished flight of its own bearer and ends within a minute of that
      flight's anchor and no later than its own expiry, give or take `delta`. */
  predicate EntryOk(delta: nat, s: State, cred: Cred, e: Entry) {
    && Carries(s, e.flight) && s.flights[e.flight].cred == cred
    && s.flights[e.flight].phase.info.value == e.info
    && e.deadline <= s.flights[e.flight].phase.anchor + TTL + delta
    && (e.info.expiresAt.Some? ==> e.deadline <= e.info.expiresAt.value + delta)
  }

  ghost predicate RowsOk(db: Db, now: int) {
    forall k | k in db.personal :: WindowInv(db.personal[k], now)
  }

  ghost predicate FlightsOk(s: State) {
    forall f | 0 <= f < |s.flights| :: FlightOk(s.db, s.now, s.flights[f])
  }

  ghost predicate Inv(delta: nat, s: State) {
    && RowsOk(s.db, s.now)
    && FlightsOk(s)
    && (forall g | g in s.group :: s.group[g] < |s.flights| && s.flights[s.group[g]].cred == g.1)
    && (forall c | c in s.callers :: PcOk(s, s.callers[c]))
    && (forall cred | cred in s.redis :: EntryOk(delta, s, cred, s.redis[cred]))
  }

  // ----- Every step keeps it

  /** The database only grows and only changes rows in ways that keep every info backed. */
  ghost predicate Grows(db: Db, db': Db) {
    && (forall k | k in db.personal :: k in db'.personal && db.personal[k].expiresAt <= db'.personal[k].expiresAt)
    && (forall k | k in db.environment :: k in db'.environment && SameIdentity(db.environment[k], db'.environment[k]))
  }

  lemma PkApplyKeeps(row: PkRow, e: PkEvent, now: int)
    requires WindowInv(row, now) && e.at == now
    ensures WindowInv(PkApply(row, e), now) && row.expiresAt <= PkApply(row, e).expiresAt
  {
  }

  lemma EkApplyKeeps(row: EkRow, e: EkEvent)
    ensures SameIdentity(row, EkApply(row, e))
  {
  }

  lemma LookupKeeps(db: Db, cred: Cred, anchor: int, now: int)
    requires RowsOk(db, now) && anchor <= now
    ensures
      var (db', p) := LookupIn(db, cred, anchor, now);
      RowsOk(db', now) && Grows(db, db') && FlightOk(db', now, Flight(cred, p)) && db'.grants == db.grants
  {
    match cred {
      case PkBearer(k) => if k in db.personal { PkApplyKeeps(db.personal[k], Use(now), now); }
      case _ =>
    }
  }

  /** A new database or a later clock, with everything else left alone, keeps the invariant. */
  lemma WorldMoves(delta: nat, s: State, db': Db, now': int)
    requires Inv(delta, s) && Grows(s.db, db') && s.now <= now' && RowsOk(db', now')
    ensures Inv(delta, s.(db := db', now := now'))
  {
  }

  /** Moving one unfinished flight to a new good phase keeps the invariant. */
  lemma PhaseMoves(delta: nat, s: State, f: nat, p: Phase)
    requires Inv(delta, s) && f < |s.flights| && (!s.flights[f].phase.Done? || p == s.flights[f].phase)
    requires FlightOk(s.db, s.now, s.flights[f].(phase := p))
    ensures Inv(delta, SetPhase(s, f, p))
  {
  }

  lemma PcMoves(delta: nat, s: State, c: nat, pc: Pc)
    requires Inv(delta, s) && PcOk(s, pc)
    ensures Inv(delta, SetPc(s, c, pc))
  {
  }

  lemma PcEnds(delta: nat, s: State, c: nat)
    requires Inv(delta, s)
    ensures Inv(delta, Gone(s, c))
  {
  }

  lemma FlightAdded(delta: nat, s: State, cred: Cred, proc: nat)
    requires Inv(delta, s)
    ensures Inv(delta, s.(flights := s.flights + [Flight(cred, Started)],
                          group := s.group[(proc, cred) := |s.flights|]))
  {
  }

  lemma EntriesDropped(delta: nat, s: State, redis: map<Cred, Entry>, group: map<(nat, Cred), nat>)
    requires Inv(delta, s)
    requires forall k | k in redis :: k in s.redis && redis[k] == s.redis[k]
    requires forall k | k in group :: k in s.group && group[k] == s.group[k]
    ensures Inv(delta, s.(redis := redis, group := group))
  {
  }

  lemma JoinKeeps(delta: nat, s: State, c: nat, proc: nat)
    requires Inv(delta, s) && Enabled(delta, s, Join(c, proc))
    ensures Inv(delta, CallerStep(delta, s, Join(c, proc)))
  {
    var cred := s.callers[c].cred;
    if (proc, cred) in s.group {
      PcMoves(delta, s, c, Waiting(s.group[(proc, cred)]));
    } else {
      FlightAdded(delta, s, cred, proc);
      PcMoves(delta, s.(flights := s.flights + [Flight(cred, Started)], group := s.group[(proc, cred) := |s.flights|]),
              c, Waiting(|s.flights|));
    }
  }

  lemma StoreKeeps(delta: nat, s: State, c: nat)
    requires Inv(delta, s) && Enabled(delta, s, Store(c))
    ensures Inv(delta, CallerStep(delta, s, Store(c)))
  {
  }

  lemma CallerStepKeeps(delta: nat, s: State, step: Step)
    requires Inv(delta, s) && Enabled(delta, s, step)
    requires step.Deliver? || step.Measure? || step.Cap? || step.Check?
    ensures Inv(delta, CallerStep(delta, s, step))
  {
    var pc := s.callers[step.c];
    assert PcOk(s, pc);
    var s' := CallerStep(delta, s, step);
    if step.c in s'.callers {
      PcMoves(delta, s, step.c, s'.callers[step.c]);
    } else {
      PcEnds(delta, s, step.c);
    }
  }

  lemma LookupStepKeeps(delta: nat, s: State, f: nat)
    requires Inv(delta, s) && Enabled(delta, s, Lookup(f))
    ensures Inv(delta, FlightStep(delta, s, Lookup(f)))
  {
    var fl := s.flights[f];
    assert FlightOk(s.db, s.now, fl);
    LookupKeeps(s.db, fl.cred, fl.phase.anchor, s.now);
    var (db, p) := LookupIn(s.db, fl.cred, fl.phase.anchor, s.now);
    WorldMoves(delta, s, db, s.now);
    assert s.(db := db, now := s.now) == s.(db := db);
    PhaseMoves(delta, s.(db := db), f, p);
  }

  lemma RetireKeeps(delta: nat, s: State, f: nat, proc: nat)
    requires Inv(delta, s) && Enabled(delta, s, Retire(f, proc))
    ensures Inv(delta, FlightStep(delta, s, Retire(f, proc)))
  {
    var g := s.group - {(proc, s.flights[f].cred)};
    EntriesDropped(delta, s, s.redis, g);
    assert s.(redis := s.redis, group := g) == s.(group := g);
  }

  lemma FlightStepKeeps(delta: nat, s: State, step: Step)
    requires Inv(delta, s) && Enabled(delta, s, step)
    requires step.TakeAnchor? || step.ReadGrants? || step.Refuse? || step.FailFlight?
    ensures Inv(delta, FlightStep(delta, s, step))
  {
    assert FlightOk(s.db, s.now, s.flights[step.f]);
    PhaseMoves(delta, s, step.f, FlightStep(delta, s, step).flights[step.f].phase);
  }

  lemma CommitKeeps(delta: nat, s: State, step: Step)
    requires Inv(delta, s) && Enabled(delta, s, step)
    requires step.Tick? || step.PkCommit? || step.EkCommit? || step.InsertPk? || step.InsertEk? || step.SetGrants?
    ensures Inv(delta, Apply(delta, s, step))
  {
    var s' := Apply(delta, s, step);
    match step {
      case PkCommit(id, e) => PkApplyKeeps(s.db.personal[id], e, s.now);
      case EkCommit(id, e) => EkApplyKeeps(s.db.environment[id], e);
      case _ =>
    }
    WorldMoves(delta, s, s'.db, s'.now);
    assert s' == s.(db := s'.db, now := s'.now);
  }

  lemma StepKeepsInv(delta: nat, s: State, step: Step)
    requires Inv(delta, s) && Enabled(delta, s, step)
    ensures Inv(delta, Apply(delta, s, step))
  {
    if step.Join? {
      JoinKeeps(delta, s, step.c, step.proc);
    } else if step.Store? {
      StoreKeeps(delta, s, step.c);
    } else if step.Deliver? || step.Measure? || step.Cap? || step.Check? {
      CallerStepKeeps(delta, s, step);
    } else if step.Lookup? {
      LookupStepKeeps(delta, s, step.f);
    } else if step.Retire? {
      RetireKeeps(delta, s, step.f, step.proc);
    } else if step.TakeAnchor? || step.ReadGrants? || step.Refuse? || step.FailFlight? {
      FlightStepKeeps(delta, s, step);
    } else if step.Evict? {
      EntriesDropped(delta, s, s.redis - {step.cred}, s.group);
      assert Apply(delta, s, step) == s.(redis := s.redis - {step.cred}, group := s.group);
    } else if step.Miss? {
      PcMoves(delta, s, step.c, Missed(step.cred));
    } else if step.Leave? {
      PcEnds(delta, s, step.c);
    } else {
      CommitKeeps(delta, s, step);
    }
  }

  lemma {:induction false} BehaviourKeepsInv(delta: nat, tr: seq<State>, i: nat)
    requires Behaviour(delta, tr) && i < |tr|
    ensures Inv(delta, tr[i])
  {
    if i > 0 {
      BehaviourKeepsInv(delta, tr, i - 1);
      assert NextAt(delta, tr, i - 1);
      var step :| Enabled(delta, tr[i - 1], step) && tr[i] == Apply(delta, tr[i - 1], step);
      StepKeepsInv(delta, tr[i - 1], step);
    }
  }

  // ----- Deadlines and expiry

  /** In every interleaving each entry ends within a minute of its flight's anchor, taken no
      later than now, and no later than its own expiry, give or take `delta`. */
  lemma DeadlineBound(delta: nat, tr: seq<State>, i: nat, cred: Cred)
    requires Behaviour(delta, tr) && i < |tr| && cred in tr[i].redis
    ensures
      var s := tr[i];
      var e := s.redis[cred];
      && Carries(s, e.flight) && s.flights[e.flight].cred == cred
      && s.flights[e.flight].phase.anchor <= s.now
      && e.deadline <= s.flights[e.flight].phase.anchor + 60_000_000 + delta
      && (e.info.expiresAt.Some? ==> e.deadline <= e.info.expiresAt.value + delta)
  {
    BehaviourKeepsInv(delta, tr, i);
    assert EntryOk(delta, tr[i], cred, tr[i].redis[cred]);
    assert FlightOk(tr[i].db, tr[i].now, tr[i].flights[tr[i].redis[cred].flight]);
  }

  /** A hit names the bearer's own key and is never served at or after the expiry its row
      holds at that moment, nor, for an exchange JWT, at or after the token's own exp. */
  lemma HitNotExpired(delta: nat, tr: seq<State>, i: nat, cred: Cred)
    requires Behaviour(delta, tr) && i < |tr| && Hit(tr[i].redis, cred, tr[i].now).Some?
    ensures
      var s := tr[i];
      match cred
      case PkBearer(k) => k in s.db.personal && s.now < s.db.personal[k].expiresAt
      case EkBearer(k) => k in s.db.environment && Unexpired(s.db.environment[k].expiresAt, s.now)
      case ExchangeJwt(k, exp) =>
        && k in s.db.environment && s.db.environment[k].exchange
        && Unexpired(s.db.environment[k].expiresAt, s.now) && s.now < exp
      case Unrecognised(_) => false
    ensures !cred.Unrecognised? ==> Hit(tr[i].redis, cred, tr[i].now).value.key == cred.key
  {
    BehaviourKeepsInv(delta, tr, i);
    var s := tr[i];
    assert EntryOk(delta, s, cred, s.redis[cred]);
    assert FlightOk(s.db, s.now, s.flights[s.redis[cred].flight]);
  }

  // ----- Staleness

  /** The key row would not authenticate the bearer now. */
  predicate RowRefuses(s: State, cred: Cred) {
    match cred
    case PkBearer(k) => !(k in s.db.personal && PkAccepts(s.db.personal[k], s.now))
    case EkBearer(k) => !(k in s.db.environment && EkAccepts(s.db.environment[k], s.now))
    case ExchangeJwt(k, _) =>
      !(k in s.db.environment && s.db.environment[k].exchange && EkAccepts(s.db.environment[k], s.now))
    case Unrecognised(_) => true
  }

  /** No grant covers the exchange key's row now. */
  predicate GrantsRefuse(s: State, cred: Cred) {
    && cred.ExchangeJwt?
    && (cred.key in s.db.environment ==> !ResolverAllows(s.db.grants, KeyOf(cred.key, s.db.environment[cred.key])))
  }

  /** What a lookup in this state yields, once the grants are found to cover the row. */
  function InfoAt(s: State, cred: Cred): (r: KeyInfo)
    requires !RowRefuses(s, cred)
  {
    match cred
    case PkBearer(k) => KeyInfo(k, Some(PkUse(s.db.personal[k], s.now).expiresAt))
    case EkBearer(k) => KeyInfo(k, s.db.environment[k].expiresAt)
    case ExchangeJwt(k, exp) => KeyInfo(k, Some(EarlierOf(s.db.environment[k].expiresAt, exp)))
    case Unrecognised(text) => KeyInfo(text, None)
  }

  /** The state with the rows as a lookup of the bearer leaves them. */
  function Looked(s: State, cred: Cred): (r: State) {
    s.(db := LookupIn(s.db, cred, s.now, s.now).0)
  }

  /** In state `a` the row accepts the bearer, and the next step is a lookup of it. */
  ghost predicate ReadAt(tr: seq<State>, a: nat, cred: Cred, anchor: int, info: KeyInfo)
    requires a + 1 < |tr|
  {
    && anchor <= tr[a].now && !RowRefuses(tr[a], cred) && info == InfoAt(tr[a], cred)
    && tr[a + 1].now == tr[a].now && tr[a + 1].db == Looked(tr[a], cred).db
  }

  ghost predicate RowSeen(tr: seq<State>, j: nat, cred: Cred, anchor: int, info: KeyInfo)
    requires j < |tr|
  {
    exists a: nat :: a < j && ReadAt(tr, a, cred, anchor, info)
  }

  /** The row was read in state `a` and, later, the grants covered it in state `b`. */
  ghost predicate SeenAt(tr: seq<State>, a: nat, b: nat, cred: Cred, anchor: int, info: KeyInfo)
    requires a < b < |tr|
  {
    ReadAt(tr, a, cred, anchor, info) && !GrantsRefuse(tr[b], cred)
  }

  ghost predicate BothSeen(tr: seq<State>, j: nat, cred: Cred, anchor: int, info: KeyInfo)
    requires j < |tr|
  {
    exists a: nat, b: nat :: a < b <= j && SeenAt(tr, a, b, cred, anchor, info)
  }

  /** What the database showed a lookup that got this far. */
  ghost predicate Traced(tr: seq<State>, j: nat, fl: Flight)
    requires j < |tr|
  {
    match fl.phase
    case HaveRow(anchor, row) =>
      fl.cred.ExchangeJwt? && RowSeen(tr, j, fl.cred, anchor, InfoOf(fl.cred, row))
    case Done(anchor, Some(info)) => BothSeen(tr, j, fl.cred, anchor, info)
    case _ => true
  }

  /** The info an exchange JWT's lookup makes of the row it read. */
  function InfoOf(cred: Cred, row: EkRow): (r: KeyInfo)
    requires cred.ExchangeJwt?
  {
    KeyInfo(cred.key, Some(EarlierOf(row.expiresAt, cred.exp)))
  }

  /** A phase that claims nothing about the database. */
  predicate Idle(p: Phase) {
    p.Started? || p.Anchored? || p.Failed? || (p.Done? && p.info.None?)
  }

  /** How one step may change a flight: a row is taken over while it accepts, and turned into a
      result while the grants cover it. */
  predicate FlightMove(s: State, s': State, f: nat)
    requires f < |s'.flights|
  {
    var fl := s'.flights[f];
    || (f < |s.flights| && fl == s.flights[f])
    || Idle(fl.phase)
    || (&& !RowRefuses(s, fl.cred) && s'.now == s.now && s'.db == Looked(s, fl.cred).db
        && ((fl.phase.HaveRow? && fl.phase.anchor <= s.now && fl.cred.ExchangeJwt?
             && InfoOf(fl.cred, fl.phase.row) == InfoAt(s, fl.cred))
            || (fl.phase.Done? && fl.phase.anchor <= s.now && !fl.cred.ExchangeJwt?
                && fl.phase.info == Some(InfoAt(s, fl.cred)))))
    || (&& fl.phase.Done? && fl.cred.ExchangeJwt? && f < |s.flights| && s.flights[f].cred == fl.cred
        && s.flights[f].phase.HaveRow? && s.flights[f].phase.anchor == fl.phase.anchor
        && fl.phase.info == Some(InfoOf(fl.cred, s.flights[f].phase.row)) && !GrantsRefuse(s, fl.cred))
  }

  lemma LookupMoves(delta: nat, s: State, f: nat)
    requires Inv(delta, s) && Enabled(delta, s, Lookup(f))
    ensures FlightMove(s, Apply(delta, s, Lookup(f)), f)
  {
    assert FlightOk(s.db, s.now, s.flights[f]);
  }

  lemma GrantsMove(delta: nat, s: State, f: nat)
    requires Inv(delta, s) && Enabled(delta, s, ReadGrants(f))
    ensures FlightMove(s, Apply(delta, s, ReadGrants(f)), f)
  {
    assert FlightOk(s.db, s.now, s.flights[f]);
  }

  lemma FlightMoves(delta: nat, s: State, step: Step, f: nat)
    requires Inv(delta, s) && Enabled(delta, s, step) && f < |Apply(delta, s, step).flights|
    ensures FlightMove(s, Apply(delta, s, step), f)
  {
    if step == Lookup(f) {
      LookupMoves(delta, s, f);
    } else if step == ReadGrants(f) {
      GrantsMove(delta, s, f);
    }
  }

  lemma TracedStep(tr: seq<State>, j: nat, f: nat)
    requires j + 1 < |tr| && f < |tr[j + 1].flights| && FlightMove(tr[j], tr[j + 1], f)
    requires forall g | 0 <= g < |tr[j].flights| :: Traced(tr, j, tr[j].flights[g])
    ensures Traced(tr, j + 1, tr[j + 1].flights[f])
  {
    var s, fl := tr[j], tr[j + 1].flights[f];
    if f < |s.flights| && fl == s.flights[f] {
      assert Traced(tr, j, s.flights[f]);
    } else if fl.phase.HaveRow? {
      assert ReadAt(tr, j, fl.cred, fl.phase.anchor, InfoOf(fl.cred, fl.phase.row));
    } else if fl.phase.Done? && fl.phase.info.Some? {
      var anchor, info := fl.phase.anchor, fl.phase.info.value;
      if fl.cred.ExchangeJwt? {
        assert Traced(tr, j, s.flights[f]);
        var a: nat :| a < j && ReadAt(tr, a, fl.cred, anchor, info);
        assert SeenAt(tr, a, j, fl.cred, anchor, info);
      } else {
        assert SeenAt(tr, j, j + 1, fl.cred, anchor, info);
      }
    }
  }

  lemma {:induction false} EveryFlightTraced(delta: nat, tr: seq<State>, j: nat)
    requires Behaviour(delta, tr) && j < |tr|
    ensures forall f | 0 <= f < |tr[j].flights| :: Traced(tr, j, tr[j].flights[f])
  {
    if j > 0 {
      EveryFlightTraced(delta, tr, j - 1);
      BehaviourKeepsInv(delta, tr, j - 1);
      assert NextAt(delta, tr, j - 1);
      var step :| Enabled(delta, tr[j - 1], step) && tr[j] == Apply(delta, tr[j - 1], step);
      forall f | 0 <= f < |tr[j].flights| ensures Traced(tr, j, tr[j].flights[f]) {
        FlightMoves(delta, tr[j - 1], step, f);
        TracedStep(tr, j - 1, f);
      }
    }
  }

  /** The lifetime was measured at time `since`, after both had been seen. */
  ghost predicate MeasuredBy(tr: seq<State>, j: nat, cred: Cred, p: Phase, since: int)
    requires j < |tr| && p.Done? && p.info.Some?
  {
    exists m: nat :: m <= j && tr[m].now == since && BothSeen(tr, m, cred, p.anchor, p.info.value)
  }

  /** Measured in state `m`, after both had been seen, and stored in state `t`, to end by `deadline`. */
  ghost predicate StoredAt(delta: nat, tr: seq<State>, m: nat, t: nat, cred: Cred, p: Phase, deadline: int)
    requires m < |tr| && t < |tr| && p.Done? && p.info.Some?
  {
    && m <= t && tr[t].now - tr[m].now <= delta && BothSeen(tr, m, cred, p.anchor, p.info.value)
    && deadline <= p.anchor + TTL + (tr[t].now - tr[m].now)
  }

  ghost predicate StoredBy(delta: nat, tr: seq<State>, j: nat, cred: Cred, p: Phase, deadline: int)
    requires j < |tr| && p.Done? && p.info.Some?
  {
    exists m: nat, t: nat :: m <= j && t <= j && StoredAt(delta, tr, m, t, cred, p, deadline)
  }

  predicate HasMeasured(pc: Pc) {
    pc.Measured? || pc.Capped? || pc.Checked?
  }

  ghost predicate TracedCaller(tr: seq<State>, j: nat, pc: Pc)
    requires j < |tr|
  {
    HasMeasured(pc) ==>
      && Carries(tr[j], pc.flight)
      && MeasuredBy(tr, j, tr[j].flights[pc.flight].cred, tr[j].flights[pc.flight].phase, pc.since)
  }

  ghost predicate TracedEntry(delta: nat, tr: seq<State>, j: nat, cred: Cred, e: Entry)
    requires j < |tr|
  {
    Carries(tr[j], e.flight) && StoredBy(delta, tr, j, cred, tr[j].flights[e.flight].phase, e.deadline)
  }

  lemma CarriedStays(delta: nat, s: State, step: Step, f: nat)
    requires Enabled(delta, s, step) && Carries(s, f)
    ensures Carries(Apply(delta, s, step), f) && Apply(delta, s, step).flights[f] == s.flights[f]
  {
  }

  /** How one step may change a caller that holds a measured lifetime. */
  lemma CallerMoves(delta: nat, s: State, step: Step, c: nat)
    requires Enabled(delta, s, step) && c in Apply(delta, s, step).callers
    requires HasMeasured(Apply(delta, s, step).callers[c])
    ensures
      var pc := Apply(delta, s, step).callers[c];
      && c in s.callers
      && (|| (HasMeasured(s.callers[c]) && s.callers[c].flight == pc.flight && s.callers[c].since == pc.since)
          || (s.callers[c] == Filled(pc.flight) && pc.since == s.now && Carries(s, pc.flight)))
  {
  }

  /** Caller c stores e, having measured its lifetime no longer than `delta` ago. */
  predicate Stores(delta: nat, s: State, c: nat, cred: Cred, e: Entry) {
    && c in s.callers && s.callers[c].Checked? && s.callers[c].flight == e.flight
    && Carries(s, e.flight) && s.flights[e.flight].cred == cred
    && s.now - s.callers[c].since <= delta
    && e.deadline <= s.now + Elapse(s.flights[e.flight].phase.anchor, s.callers[c].since)
  }

  lemma StoreMoves(delta: nat, s: State, c: nat, cred: Cred)
    requires Inv(delta, s) && Enabled(delta, s, Store(c)) && cred in Apply(delta, s, Store(c)).redis
    ensures
      var e := Apply(delta, s, Store(c)).redis[cred];
      (cred in s.redis && s.redis[cred] == e) || Stores(delta, s, c, cred, e)
  {
    assert PcOk(s, s.callers[c]);
  }

  lemma OthersStoreNothing(delta: nat, s: State, step: Step, cred: Cred)
    requires Enabled(delta, s, step) && !step.Store? && cred in Apply(delta, s, step).redis
    ensures cred in s.redis && s.redis[cred] == Apply(delta, s, step).redis[cred]
  {
  }

  lemma EntryMoves(delta: nat, s: State, step: Step, cred: Cred)
    requires Inv(delta, s) && Enabled(delta, s, step) && cred in Apply(delta, s, step).redis
    ensures
      var e := Apply(delta, s, step).redis[cred];
      (cred in s.redis && s.redis[cred] == e) || (step.Store? && Stores(delta, s, step.c, cred, e))
  {
    if step.Store? {
      StoreMoves(delta, s, step.c, cred);
    } else {
      OthersStoreNothing(delta, s, step, cred);
    }
  }

  lemma CallerTracedStep(delta: nat, tr: seq<State>, j: nat, step: Step, c: nat)
    requires j + 1 < |tr| && Enabled(delta, tr[j], step) && tr[j + 1] == Apply(delta, tr[j], step)
    requires forall f | 0 <= f < |tr[j].flights| :: Traced(tr, j, tr[j].flights[f])
    requires forall d | d in tr[j].callers :: TracedCaller(tr, j, tr[j].callers[d])
    requires c in tr[j + 1].callers
    ensures TracedCaller(tr, j + 1, tr[j + 1].callers[c])
  {
    var s, pc := tr[j], tr[j + 1].callers[c];
    if HasMeasured(pc) {
      CallerMoves(delta, s, step, c);
      if HasMeasured(s.callers[c]) {
        assert TracedCaller(tr, j, s.callers[c]);
      } else {
        assert Traced(tr, j, s.flights[pc.flight]);
      }
      CarriedStays(delta, s, step, pc.flight);
      var fl := s.flights[pc.flight];
      assert MeasuredBy(tr, j, fl.cred, fl.phase, pc.since);
    }
  }

  lemma StoreTraced(delta: nat, tr: seq<State>, j: nat, c: nat, cred: Cred, e: Entry)
    requires j < |tr| && Stores(delta, tr[j], c, cred, e) && TracedCaller(tr, j, tr[j].callers[c])
    ensures TracedEntry(delta, tr, j, cred, e)
  {
    var s, p := tr[j], tr[j].flights[e.flight].phase;
    var m: nat :| m <= j && tr[m].now == s.callers[c].since && BothSeen(tr, m, cred, p.anchor, p.info.value);
    assert StoredAt(delta, tr, m, j, cred, p, e.deadline);
  }

  lemma EntryStays(delta: nat, tr: seq<State>, j: nat, cred: Cred, e: Entry)
    requires j + 1 < |tr| && TracedEntry(delta, tr, j, cred, e)
    requires Carries(tr[j + 1], e.flight) && tr[j + 1].flights[e.flight] == tr[j].flights[e.flight]
    ensures TracedEntry(delta, tr, j + 1, cred, e)
  {
    assert StoredBy(delta, tr, j, cred, tr[j].flights[e.flight].phase, e.deadline);
  }

  lemma EntryTracedStep(delta: nat, tr: seq<State>, j: nat, step: Step, cred: Cred)
    requires j + 1 < |tr| && Inv(delta, tr[j]) && Enabled(delta, tr[j], step) && tr[j + 1] == Apply(delta, tr[j], step)
    requires AllTraced(delta, tr, j) && cred in tr[j + 1].redis
    ensures TracedEntry(delta, tr, j + 1, cred, tr[j + 1].redis[cred])
  {
    var s, e := tr[j], tr[j + 1].redis[cred];
    EntryMoves(delta, s, step, cred);
    if cred in s.redis && s.redis[cred] == e {
      assert TracedEntry(delta, tr, j, cred, s.redis[cred]);
    } else {
      StoreTraced(delta, tr, j, step.c, cred, e);
    }
    CarriedStays(delta, s, step, e.flight);
    EntryStays(delta, tr, j, cred, e);
  }

  ghost predicate AllTraced(delta: nat, tr: seq<State>, j: nat)
    requires j < |tr|
  {
    && (forall c | c in tr[j].callers :: TracedCaller(tr, j, tr[j].callers[c]))
    && (forall k | k in tr[j].redis :: TracedEntry(delta, tr, j, k, tr[j].redis[k]))
  }

  lemma {:induction false} EveryEntryTraced(delta: nat, tr: seq<State>, j: nat)
    requires Behaviour(delta, tr) && j < |tr|
    ensures AllTraced(delta, tr, j)
  {
    if j > 0 {
      EveryEntryTraced(delta, tr, j - 1);
      EveryFlightTraced(delta, tr, j - 1);
      BehaviourKeepsInv(delta, tr, j - 1);
      assert NextAt(delta, tr, j - 1);
      var step :| Enabled(delta, tr[j - 1], step) && tr[j] == Apply(delta, tr[j - 1], step);
      forall c | c in tr[j].callers ensures TracedCaller(tr, j, tr[j].callers[c]) {
        CallerTracedStep(delta, tr, j - 1, step, c);
      }
      forall k | k in tr[j].redis ensures TracedEntry(delta, tr, j, k, tr[j].redis[k]) {
        EntryTracedStep(delta, tr, j - 1, step, k);
      }
    }
  }

  /** The states in which the row was read and the grants covered it, and in which the lifetime of the
      entry was measured and the entry stored. */
  datatype Window = Window(row: nat, grants: nat, measured: nat, stored: nat)

  predicate Sequential(w: Window, j: nat) {
    w.row < w.grants <= w.measured <= w.stored <= j
  }

  /** Less than a minute since state `row`, plus the time between measuring and storing, and what was
      looked up then has not expired. */
  predicate Lasts(delta: nat, tr: seq<State>, row: nat, measured: nat, stored: nat, j: nat, cred: Cred)
    requires row < |tr| && measured < |tr| && stored < |tr| && j < |tr| && !RowRefuses(tr[row], cred)
  {
    && tr[stored].now - tr[measured].now <= delta
    && tr[j].now < tr[row].now + 60_000_000 + (tr[stored].now - tr[measured].now)
    && Unexpired(InfoAt(tr[row], cred).expiresAt, tr[j].now)
  }

  predicate Justifies(delta: nat, tr: seq<State>, w: Window, j: nat, cred: Cred)
    requires Sequential(w, j) && j < |tr|
  {
    && !RowRefuses(tr[w.row], cred) && !GrantsRefuse(tr[w.grants], cred)
    && tr[w.row + 1].now == tr[w.row].now && tr[w.row + 1].db == Looked(tr[w.row], cred).db
    && Lasts(delta, tr, w.row, w.measured, w.stored, j, cred)
  }

  lemma SeenJustifies(delta: nat, tr: seq<State>, w: Window, j: nat, cred: Cred, anchor: int, info: KeyInfo)
    requires Sequential(w, j) && j < |tr| && SeenAt(tr, w.row, w.grants, cred, anchor, info)
    requires tr[w.stored].now - tr[w.measured].now <= delta
    requires tr[j].now < anchor + TTL + (tr[w.stored].now - tr[w.measured].now) && Unexpired(info.expiresAt, tr[j].now)
    ensures Justifies(delta, tr, w, j, cred)
  {
  }

  lemma StoredJustifies(delta: nat, tr: seq<State>, j: nat, cred: Cred, p: Phase, deadline: int) returns (w: Window)
    requires j < |tr| && p.Done? && p.info.Some? && StoredBy(delta, tr, j, cred, p, deadline)
    requires tr[j].now < deadline && Unexpired(p.info.value.expiresAt, tr[j].now)
    ensures Sequential(w, j) && Justifies(delta, tr, w, j, cred)
  {
    var m: nat, t: nat :| m <= j && t <= j && StoredAt(delta, tr, m, t, cred, p, deadline);
    var a: nat, b: nat :| a < b <= m && SeenAt(tr, a, b, cred, p.anchor, p.info.value);
    w := Window(a, b, m, t);
    SeenJustifies(delta, tr, w, j, cred, p.anchor, p.info.value);
  }

  /** Every hit is justified: less than a minute (+ delta) ago the row accepted the bearer and was looked
      up, and in a later state the grants covered it. */
  lemma HitJustified(delta: nat, tr: seq<State>, j: nat, cred: Cred) returns (w: Window)
    requires Behaviour(delta, tr) && j < |tr| && Hit(tr[j].redis, cred, tr[j].now).Some?
    ensures Sequential(w, j) && Justifies(delta, tr, w, j, cred)
  {
    var e := tr[j].redis[cred];
    assert EntryOk(delta, tr[j], cred, e) by {
      BehaviourKeepsInv(delta, tr, j);
    }
    assert TracedEntry(delta, tr, j, cred, e) by {
      EveryEntryTraced(delta, tr, j);
    }
    w := StoredJustifies(delta, tr, j, cred, tr[j].flights[e.flight].phase, e.deadline);
  }

  lemma NextClock(delta: nat, s: State, s': State)
    requires Next(delta, s, s')
    ensures s.now <= s'.now
  {
  }

  lemma {:induction false} ClockAdvances(delta: nat, tr: seq<State>, i: nat, j: nat)
    requires Behaviour(delta, tr) && i <= j < |tr|
    ensures tr[i].now <= tr[j].now
    decreases j - i
  {
    if i < j {
      ClockAdvances(delta, tr, i, j - 1);
      assert NextAt(delta, tr, j - 1);
      NextClock(delta, tr[j - 1], tr[j]);
    }
  }

  /** If from time T on the row never accepts the bearer in a state from which, then or later, the
      grants cover it, no hit at or after T + 60 s (+ delta) serves the bearer, whichever deletes
      were lost and whichever fills raced, in any number of processes. */
  lemma NoStaleHit(delta: nat, tr: seq<State>, i: nat, j: nat, cred: Cred)
    requires Behaviour(delta, tr) && i <= j < |tr|
    requires forall a, b | i <= a <= b <= j :: RowRefuses(tr[a], cred) || GrantsRefuse(tr[b], cred)
    requires tr[i].now + 60_000_000 + delta <= tr[j].now
    ensures Hit(tr[j].redis, cred, tr[j].now).None?
  {
    if Hit(tr[j].redis, cred, tr[j].now).Some? {
      var w := HitJustified(delta, tr, j, cred);
      if w.row < i {
        ClockAdvances(delta, tr, w.row, i);
      }
      assert false;
    }
  }

  /** Revoked is absorbing along every behaviour. */
  predicate RowRevoked(s: State, cred: Cred) {
    match cred
    case PkBearer(k) => k in s.db.personal && s.db.personal[k].status == Revoked
    case EkBearer(k) => k in s.db.environment && s.db.environment[k].status == Revoked
    case ExchangeJwt(k, _) => k in s.db.environment && s.db.environment[k].status == Revoked
    case Unrecognised(_) => false
  }

  lemma LookupKeepsRevoked(s: State, cred: Cred, other: Cred, anchor: int)
    requires RowRevoked(s, cred)
    ensures RowRevoked(s.(db := LookupIn(s.db, other, anchor, s.now).0), cred)
  {
  }

  predicate WritesRows(step: Step) {
    step.PkCommit? || step.EkCommit? || step.InsertPk? || step.InsertEk?
  }

  lemma CommitKeepsRevoked(delta: nat, s: State, step: Step, cred: Cred)
    requires Enabled(delta, s, step) && WritesRows(step) && RowRevoked(s, cred)
    ensures RowRevoked(Apply(delta, s, step), cred)
  {
  }

  lemma OthersKeepRows(delta: nat, s: State, step: Step)
    requires Enabled(delta, s, step) && !WritesRows(step) && !step.Lookup?
    ensures Apply(delta, s, step).db.personal == s.db.personal
    ensures Apply(delta, s, step).db.environment == s.db.environment
  {
  }

  lemma NextKeepsRevoked(delta: nat, s: State, s': State, cred: Cred)
    requires Next(delta, s, s') && RowRevoked(s, cred)
    ensures RowRevoked(s', cred)
  {
    var step :| Enabled(delta, s, step) && s' == Apply(delta, s, step);
    if step.Lookup? {
      LookupKeepsRevoked(s, cred, s.flights[step.f].cred, s.flights[step.f].phase.anchor);
    } else if WritesRows(step) {
      CommitKeepsRevoked(delta, s, step, cred);
    } else {
      OthersKeepRows(delta, s, step);
    }
  }

  lemma {:induction false} RevokedStays(delta: nat, tr: seq<State>, i: nat, j: nat, cred: Cred)
    requires Behaviour(delta, tr) && i <= j < |tr| && RowRevoked(tr[i], cred)
    ensures RowRevoked(tr[j], cred)
    decreases j - i
  {
    if i < j {
      RevokedStays(delta, tr, i, j - 1, cred);
      assert NextAt(delta, tr, j - 1);
      NextKeepsRevoked(delta, tr[j - 1], tr[j], cred);
    }
  }

  /** A key revoked at T is not served from the cache at or after T + 60 s (+ delta). */
  lemma RevokedNotServed(delta: nat, tr: seq<State>, i: nat, j: nat, cred: Cred)
    requires Behaviour(delta, tr) && i <= j < |tr| && RowRevoked(tr[i], cred)
    requires tr[i].now + 60_000_000 + delta <= tr[j].now
    ensures Hit(tr[j].redis, cred, tr[j].now).None?
  {
    forall k | i <= k <= j ensures RowRefuses(tr[k], cred) {
      RevokedStays(delta, tr, i, k, cred);
    }
    NoStaleHit(delta, tr, i, j, cred);
  }

  /** The bearers that authenticate with key k of a table. */
  predicate NamesPersonal(cred: Cred, k: KeyId) {
    cred == PkBearer(k)
  }

  predicate NamesEnvironment(cred: Cred, k: KeyId) {
    (cred.EkBearer? || cred.ExchangeJwt?) && cred.key == k
  }

  /** From the commit of a revocation at T on no hit at or after T + 60 s (+ delta) serves the key,
      whatever happens in between. */
  lemma PersonalRevocationHolds(delta: nat, tr: seq<State>, i: nat, j: nat, k: KeyId)
    requires Behaviour(delta, tr) && i < j < |tr| && tr[i].now + 60_000_000 + delta <= tr[j].now
    requires k in tr[i].db.personal && tr[i].db.personal[k].status == Active
    requires tr[i + 1] == Apply(delta, tr[i], PkCommit(k, Revoke(tr[i].now)))
    ensures tr[i + 1].db.personal[k] == tr[i].db.personal[k].(status := Revoked, revokedAt := Some(tr[i].now))
    ensures forall cred | NamesPersonal(cred, k) :: Hit(tr[j].redis, cred, tr[j].now).None?
  {
    RevokedNotServed(delta, tr, i + 1, j, PkBearer(k));
  }

  lemma EnvironmentRevocationHolds(delta: nat, tr: seq<State>, i: nat, j: nat, k: KeyId)
    requires Behaviour(delta, tr) && i < j < |tr| && tr[i].now + 60_000_000 + delta <= tr[j].now
    requires k in tr[i].db.environment && tr[i + 1] == Apply(delta, tr[i], EkCommit(k, RevokedAt(tr[i].now)))
    ensures tr[i].db.environment[k].status != Revoked ==>
              tr[i + 1].db.environment[k] ==
                tr[i].db.environment[k].(status := Revoked, revokedAt := Some(tr[i].now))
    ensures forall cred | NamesEnvironment(cred, k) :: Hit(tr[j].redis, cred, tr[j].now).None?
  {
    forall cred | NamesEnvironment(cred, k) ensures Hit(tr[j].redis, cred, tr[j].now).None? {
      RevokedNotServed(delta, tr, i + 1, j, cred);
    }
  }
}
