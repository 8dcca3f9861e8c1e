/** Rows of personal_keys and environment_keys and the single-statement updates on
    them (internal/db). Times are microseconds, the resolution of timestamptz. Each
    UPDATE ... WHERE ... RETURNING is one atomic guarded change of one row. */
module KeyRows {
  import opened Strings

  const MINUTE: int := 60_000_000
  const DAY: int := 24 * 60 * MINUTE
  const DEBOUNCE: int := 5 * MINUTE
  const WINDOW: int := 7 * DAY
  const LIFETIME: int := 90 * DAY

  type KeyId = string

  datatype Status = Active | Suspended | Revoked | Expired

  function Min(a: int, b: int): (r: int) {
    if a <= b then a else b
  }

  // ----- Personal keys

  datatype PkRow = PkRow(
    owner: string, oauth: bool, status: Status, createdAt: int,
    lastUsedAt: Option<int>, expiresAt: int, revokedAt: Option<int>)

  /** The candidate predicate of check-and-extend. */
  predicate PkAccepts(row: PkRow, now: int) {
    row.status == Active && row.expiresAt > now && row.createdAt + LIFETIME > now
  }

  predicate ShouldExtend(row: PkRow, now: int) {
    row.lastUsedAt.None? || row.lastUsedAt.value < now - DEBOUNCE
  }

  /** The row after check-and-extend; a rejected row is left alone. */
  function PkUse(row: PkRow, now: int): (r: PkRow) {
    if PkAccepts(row, now) && ShouldExtend(row, now)
    then row.(lastUsedAt := Some(now), expiresAt := Min(now + WINDOW, row.createdAt + LIFETIME))
    else row
  }

  function PkRevoke(row: PkRow, now: int): (r: PkRow) {
    if row.status == Active then row.(status := Revoked, revokedAt := Some(now)) else row
  }

  /** keyLive on a personal key. */
  predicate PkLive(row: PkRow, now: int) {
    row.status == Active && now < row.expiresAt
  }

  /** The status column of the merged key listing. */
  function PkListed(row: PkRow, now: int): (s: Status) {
    if row.status == Active && Min(row.expiresAt, row.createdAt + LIFETIME) <= now then Expired else row.status
  }

  predicate ActiveOAuthPK(row: PkRow, now: int) {
    row.oauth && row.status == Active && row.expiresAt > now
  }

  // ----- Histories of a personal key

  datatype PkEvent = Use(at: int) | Revoke(at: int)

  function PkApply(row: PkRow, e: PkEvent): (r: PkRow) {
    match e
    case Use(at) => PkUse(row, at)
    case Revoke(at) => PkRevoke(row, at)
  }

  function PkRun(row: PkRow, evs: seq<PkEvent>): (r: PkRow) {
    if evs == [] then row else PkApply(PkRun(row, evs[..|evs| - 1]), evs[|evs| - 1])
  }

  /** Events in time order, none before `from`. */
  predicate InOrder(from: int, evs: seq<PkEvent>) {
    evs == [] || (InOrder(from, evs[..|evs| - 1]) && LastTime(from, evs[..|evs| - 1]) <= evs[|evs| - 1].at)
  }

  function LastTime(from: int, evs: seq<PkEvent>): (t: int) {
    if evs == [] then from else evs[|evs| - 1].at
  }

  /** A row as inserted: active, never used, expiring at most a window after creation. */
  ghost predicate Fresh(row: PkRow) {
    row.status == Active && row.lastUsedAt.None? && row.expiresAt <= row.createdAt + WINDOW
  }

  /** What every history keeps, as of time `now`. */
  ghost predicate WindowInv(row: PkRow, now: int) {
    && row.status in {Active, Revoked}
    && row.createdAt <= now
    && row.expiresAt <= row.createdAt + LIFETIME
    && match row.lastUsedAt
       case None => row.expiresAt <= row.createdAt + WINDOW
       case Some(u) => row.createdAt <= u <= now && row.expiresAt == Min(u + WINDOW, row.createdAt + LIFETIME)
  }

  lemma PkRunConcat(row: PkRow, a: seq<PkEvent>, b: seq<PkEvent>)
    ensures PkRun(row, a + b) == PkRun(PkRun(row, a), b)
    decreases |b|
  {
    if b == [] {
      assert a + b == a;
    } else {
      assert (a + b)[..|a + b| - 1] == a + b[..|b| - 1];
      PkRunConcat(row, a, b[..|b| - 1]);
    }
  }

  /** Any history from a row that satisfies the invariant keeps it, keeps the identity
      columns and never moves the expiry back. */
  lemma {:induction false} RunKeepsWindow(row: PkRow, from: int, evs: seq<PkEvent>)
    requires WindowInv(row, from) && InOrder(from, evs)
    ensures
      var r := PkRun(row, evs);
      && WindowInv(r, LastTime(from, evs))
      && r.owner == row.owner && r.oauth == row.oauth && r.createdAt == row.createdAt
      && row.expiresAt <= r.expiresAt
      && (row.status == Revoked ==> r == row)
  {
    if evs != [] {
      var init := evs[..|evs| - 1];
      RunKeepsWindow(row, from, init);
    }
  }

  /** The sliding window over every history of a fresh key. */
  lemma {:induction false} WindowLaw(row: PkRow, evs: seq<PkEvent>)
    requires Fresh(row) && InOrder(row.createdAt, evs)
    ensures
      var r := PkRun(row, evs);
      && (r.lastUsedAt.Some? ==> r.expiresAt == Min(r.lastUsedAt.value + WINDOW, r.createdAt + LIFETIME))
      && (r.lastUsedAt.None? ==> r.expiresAt == row.expiresAt)
      && r.createdAt == row.createdAt
  {
    RunKeepsWindow(row, row.createdAt, evs);
    UnusedKeepsExpiry(row, evs);
  }

  lemma {:induction false} UnusedKeepsExpiry(row: PkRow, evs: seq<PkEvent>)
    ensures PkRun(row, evs).lastUsedAt.None? ==> PkRun(row, evs).expiresAt == row.expiresAt
  {
    if evs != [] {
      UnusedKeepsExpiry(row, evs[..|evs| - 1]);
    }
  }

  /** The expiry never moves back along a history. */
  lemma ExpiryMonotone(row: PkRow, evs: seq<PkEvent>, more: seq<PkEvent>)
    requires Fresh(row) && InOrder(row.createdAt, evs + more)
    ensures PkRun(row, evs).expiresAt <= PkRun(row, evs + more).expiresAt
  {
    SplitOrder(row.createdAt, evs, more);
    RunKeepsWindow(row, row.createdAt, evs);
    RunKeepsWindow(PkRun(row, evs), LastTime(row.createdAt, evs), more);
    PkRunConcat(row, evs, more);
  }

  lemma {:induction false} SplitOrder(from: int, a: seq<PkEvent>, b: seq<PkEvent>)
    requires InOrder(from, a + b)
    ensures InOrder(from, a) && InOrder(LastTime(from, a), b)
    ensures LastTime(from, a + b) == LastTime(LastTime(from, a), b)
    decreases |b|
  {
    if b == [] {
      assert a + b == a;
    } else {
      assert (a + b)[..|a + b| - 1] == a + b[..|b| - 1];
      SplitOrder(from, a, b[..|b| - 1]);
    }
  }

  lemma {:induction false} LastTimeAfter(from: int, evs: seq<PkEvent>)
    requires InOrder(from, evs)
    ensures from <= LastTime(from, evs)
  {
    if evs != [] {
      LastTimeAfter(from, evs[..|evs| - 1]);
    }
  }

  ghost predicate NoRevoke(evs: seq<PkEvent>) {
    forall i :: 0 <= i < |evs| ==> evs[i].Use?
  }

  /** A key accepted at t is still accepted before t + 7 days - 5 minutes and before its
      90-day cap, whatever uses happen in between. */
  lemma UsedStaysValid(row: PkRow, evs: seq<PkEvent>, t: int, later: seq<PkEvent>, t': int)
    requires Fresh(row) && InOrder(row.createdAt, evs + [Use(t)] + later)
    requires PkAccepts(PkRun(row, evs), t) && NoRevoke(later)
    requires LastTime(t, later) <= t' < Min(t + WINDOW - DEBOUNCE, row.createdAt + LIFETIME)
    ensures PkAccepts(PkRun(row, evs + [Use(t)] + later), t')
  {
    var hist := evs + [Use(t)];
    assert hist[..|hist| - 1] == evs;
    SplitOrder(row.createdAt, hist, later);
    SplitOrder(row.createdAt, evs, [Use(t)]);
    assert [Use(t)][0].at == t;
    RunKeepsWindow(row, row.createdAt, evs);
    RunKeepsWindow(row, row.createdAt, hist);
    RunKeepsWindow(PkRun(row, hist), t, later);
    PkRunConcat(row, hist, later);
    NoRevokeKeepsStatus(PkRun(row, hist), later);
  }

  lemma {:induction false} NoRevokeKeepsStatus(row: PkRow, evs: seq<PkEvent>)
    requires NoRevoke(evs)
    ensures PkRun(row, evs).status == row.status
  {
    if evs != [] {
      assert evs[|evs| - 1].Use?;
      NoRevokeKeepsStatus(row, evs[..|evs| - 1]);
    }
  }

  /** A rejected key stays rejected, whatever is tried afterwards. */
  lemma {:induction false} RejectedForever(row: PkRow, t: int, later: seq<PkEvent>, t': int)
    requires !PkAccepts(row, t) && InOrder(t, later) && LastTime(t, later) <= t'
    ensures !PkAccepts(PkRun(row, later), t')
  {
    if later != [] {
      var init, e := later[..|later| - 1], later[|later| - 1];
      LastTimeAfter(t, init);
      RejectedForever(row, t, init, e.at);
    }
  }

  /** Whatever came before, revoking a personal key that was active leaves it revoked for good. */
  lemma PkRevokedForGood(row: PkRow, before: seq<PkEvent>, t: int, later: seq<PkEvent>, now: int)
    requires PkRun(row, before).status == Active
    ensures
      var r := PkRun(row, before + [Revoke(t)] + later);
      r.status == Revoked && r.revokedAt == Some(t) && !PkAccepts(r, now)
  {
    PkRunConcat(row, before + [Revoke(t)], later);
    PkRunConcat(row, before, [Revoke(t)]);
    PkRevokedStays(PkRun(row, before + [Revoke(t)]), later);
  }

  lemma {:induction false} PkRevokedStays(row: PkRow, evs: seq<PkEvent>)
    requires row.status == Revoked
    ensures PkRun(row, evs) == row
  {
    if evs != [] {
      PkRevokedStays(row, evs[..|evs| - 1]);
    }
  }

  // ----- The separately written liveness tests

  /** On every row a history can reach, all four tests agree at every time. */
  lemma {:induction false} LivenessTestsAgree(row: PkRow, evs: seq<PkEvent>, now: int)
    requires Fresh(row) && InOrder(row.createdAt, evs)
    ensures
      var r := PkRun(row, evs);
      && (PkAccepts(r, now) <==> PkLive(r, now))
      && (PkAccepts(r, now) <==> PkListed(r, now) == Active)
      && (r.oauth ==> (PkAccepts(r, now) <==> ActiveOAuthPK(r, now)))
  {
    RunKeepsWindow(row, row.createdAt, evs);
  }

  /** On an arbitrary row keyLive, which has no 90-day cap, agrees with check-and-extend at
      every time exactly when the row is not active or expires within the cap. */
  lemma LivenessAgreesIff(row: PkRow)
    ensures (forall now: int :: PkAccepts(row, now) <==> PkLive(row, now)) <==>
              (row.status != Active || row.expiresAt <= row.createdAt + LIFETIME)
  {
    if row.status == Active && row.expiresAt > row.createdAt + LIFETIME {
      var now := row.createdAt + LIFETIME;
      assert PkLive(row, now) && !PkAccepts(row, now);
    }
  }

  // ----- Environment keys

  datatype EkRow = EkRow(
    environment: string, owner: string, requester: string, exchange: bool, status: Status, createdAt: int,
    lastUsedAt: Option<int>, expiresAt: Option<int>, revokedAt: Option<int>)

  predicate Unexpired(expiresAt: Option<int>, now: int) {
    expiresAt.None? || expiresAt.value > now
  }

  predicate EkAccepts(row: EkRow, now: int) {
    row.status == Active && Unexpired(row.expiresAt, now)
  }

  function EkTouch(row: EkRow, now: int): (r: EkRow) {
    if row.lastUsedAt.None? || row.lastUsedAt.value < now - DEBOUNCE then row.(lastUsedAt := Some(now)) else row
  }

  function EkUse(row: EkRow, now: int): (r: EkRow) {
    if EkAccepts(row, now) then EkTouch(row, now) else row
  }

  function ExchangeUse(row: EkRow, now: int): (r: EkRow) {
    if row.exchange && EkAccepts(row, now) then EkTouch(row, now) else row
  }

  function EkSuspend(row: EkRow): (r: EkRow) {
    if row.status == Active then row.(status := Suspended) else row
  }

  function EkResume(row: EkRow, now: int): (r: EkRow) {
    if row.status == Suspended && Unexpired(row.expiresAt, now) then row.(status := Active) else row
  }

  function EkRevoke(row: EkRow, now: int): (r: EkRow) {
    if row.status != Revoked then row.(status := Revoked, revokedAt := Some(now)) else row
  }

  predicate EkLive(row: EkRow, now: int) {
    row.status == Active && (row.expiresAt.None? || now < row.expiresAt.value)
  }

  function EkListed(row: EkRow, now: int): (s: Status) {
    if row.status in {Active, Suspended} && row.expiresAt.Some? && row.expiresAt.value <= now
    then Expired else row.status
  }

  /** EkResolve, keyLive and the listing agree on every row at every time. */
  lemma EkLivenessTestsAgree(row: EkRow, now: int)
    ensures EkAccepts(row, now) <==> EkLive(row, now)
    ensures EkAccepts(row, now) <==> EkListed(row, now) == Active
  {
  }

  datatype EkEvent =
    | EkUsed(at: int) | ExchangeUsed(at: int)
    | SuspendedAt(at: int) | ResumedAt(at: int) | RevokedAt(at: int)

  function EkApply(row: EkRow, e: EkEvent): (r: EkRow) {
    match e
    case EkUsed(at) => EkUse(row, at)
    case ExchangeUsed(at) => ExchangeUse(row, at)
    case SuspendedAt(_) => EkSuspend(row)
    case ResumedAt(at) => EkResume(row, at)
    case RevokedAt(at) => EkRevoke(row, at)
  }

  function EkRun(row: EkRow, evs: seq<EkEvent>): (r: EkRow) {
    if evs == [] then row else EkApply(EkRun(row, evs[..|evs| - 1]), evs[|evs| - 1])
  }

  /** Columns no statement changes. */
  predicate SameIdentity(a: EkRow, b: EkRow) {
    && a.environment == b.environment && a.owner == b.owner && a.requester == b.requester
    && a.exchange == b.exchange && a.createdAt == b.createdAt && a.expiresAt == b.expiresAt
  }

  /** Revoked is absorbing and no history changes identity or expiry. */
  lemma {:induction false} EkRevokedAbsorbing(row: EkRow, evs: seq<EkEvent>)
    ensures SameIdentity(row, EkRun(row, evs))
    ensures row.status == Revoked ==> EkRun(row, evs) == row
  {
    if evs != [] {
      EkRevokedAbsorbing(row, evs[..|evs| - 1]);
    }
  }

  /** A suspended key that expired while suspended can never authenticate again. */
  lemma {:induction false} ExpiredNeverResumes(row: EkRow, t: int, evs: seq<EkEvent>, t': int)
    requires row.expiresAt.Some? && row.expiresAt.value <= t <= t'
    requires forall i :: 0 <= i < |evs| ==> t <= evs[i].at
    ensures !EkAccepts(EkRun(row, evs), t')
    ensures row.status != Active ==> EkRun(row, evs).status != Active
  {
    EkRevokedAbsorbing(row, evs);
    if evs != [] {
      assert t <= evs[|evs| - 1].at;
      EkRevokedAbsorbing(row, evs[..|evs| - 1]);
      ExpiredNeverResumes(row, t, evs[..|evs| - 1], t');
    }
  }

  lemma {:induction false} EkRunConcat(row: EkRow, a: seq<EkEvent>, b: seq<EkEvent>)
    ensures EkRun(row, a + b) == EkRun(EkRun(row, a), b)
    decreases |b|
  {
    if b == [] {
      assert a + b == a;
    } else {
      assert (a + b)[..|a + b| - 1] == a + b[..|b| - 1];
      EkRunConcat(row, a, b[..|b| - 1]);
    }
  }

  /** Whatever came before, a revocation leaves the row revoked and stamped for good. */
  lemma RevokedForGood(row: EkRow, before: seq<EkEvent>, t: int, later: seq<EkEvent>)
    ensures EkRun(row, before + [RevokedAt(t)] + later).status == Revoked
    ensures EkRun(row, before).status != Revoked ==> EkRun(row, before + [RevokedAt(t)] + later).revokedAt == Some(t)
  {
    EkRunConcat(row, before + [RevokedAt(t)], later);
    EkRunConcat(row, before, [RevokedAt(t)]);
    EkRevokedAbsorbing(EkRun(row, before + [RevokedAt(t)]), later);
  }

  /** A suspended key does not authenticate, and resuming it gives back the row exactly when its expiry
      has not passed by then. */
  lemma SuspensionIsUndone(row: EkRow, s: int, r: int, now: int)
    requires row.status == Active
    ensures !EkAccepts(EkRun(row, [SuspendedAt(s)]), now)
    ensures EkRun(row, [SuspendedAt(s), ResumedAt(r)]) == row <==> row.expiresAt.None? || r < row.expiresAt.value
  {
    assert [SuspendedAt(s), ResumedAt(r)][..1] == [SuspendedAt(s)] && [SuspendedAt(s)][..0] == [];
  }
}
