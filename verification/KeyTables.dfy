/** The two key tables as the statements of internal/db change them in place, each tied to the step
    of the cache's or the reaper's step system that stands for it. A lookup by credential hash is a
    lookup by key id: the hash is injective. In the contracts 5 minutes, 7 days and 90 days are written
    out in microseconds. */
module KeyTables {
  import opened Strings
  import opened KeyRows
  import KeyCache
  import OrphanRun

  /** What check-and-extend returns: the expiry after the call and whether it slid. */
  datatype PkInfo = PkInfo(key: KeyId, expiresAt: int, extended: bool)

  class Tables {
    var personal: map<KeyId, PkRow>
    var environment: map<KeyId, EkRow>

    ghost function Rows(): (db: KeyCache.Db)
      reads this
    {
      KeyCache.Db(personal, environment, [])
    }

    /** The tables as a state of the cache's step system. */
    ghost function Cached(now: int): (s: KeyCache.State)
      reads this
    {
      KeyCache.State(now, Rows(), map[], [], map[], map[])
    }

    /** The tables as a state of the reaper's step system. */
    ghost function Reaped(now: int): (s: OrphanRun.State)
      reads this
    {
      OrphanRun.State(now, personal, environment, map[], {}, OrphanRun.Resting)
    }

    /** One statement decides and slides the window; it is the lookup of a flight. */
    method CheckAndExtend(id: KeyId, now: int) returns (r: Option<PkInfo>)
      modifies this`personal
      ensures r.Some? <==>
                && id in old(personal) && old(personal)[id].status == Active
                && now < old(personal)[id].expiresAt && now < old(personal)[id].createdAt + 7_776_000_000_000
      ensures r.Some? ==>
                var row := old(personal)[id];
                && id in personal && r.value == PkInfo(id, personal[id].expiresAt, r.value.extended)
                && (r.value.extended <==> row.lastUsedAt.None? || row.lastUsedAt.value + 300_000_000 < now)
      ensures r.Some? && r.value.extended ==>
                var row, until := old(personal)[id], r.value.expiresAt;
                && personal == old(personal)[id := row.(lastUsedAt := Some(now), expiresAt := until)]
                && until <= now + 604_800_000_000 && until <= row.createdAt + 7_776_000_000_000
                && (until == now + 604_800_000_000 || until == row.createdAt + 7_776_000_000_000)
      ensures r.Some? && !r.value.extended ==> personal == old(personal)
      ensures r.None? ==> personal == old(personal)
      ensures
        var (db, phase) := KeyCache.LookupIn(old(Rows()), KeyCache.PkBearer(id), now, now);
        && Rows() == db && phase.Done?
        && phase.info == if r.None? then None else Some(KeyCache.KeyInfo(id, Some(r.value.expiresAt)))
    {
      r := None;
      if id in personal {
        var row := personal[id];
        if row.status == Active && row.expiresAt > now && row.createdAt + LIFETIME > now {
          var extend := row.lastUsedAt.None? || row.lastUsedAt.value < now - DEBOUNCE;
          if extend {
            row := row.(lastUsedAt := Some(now),
                        expiresAt := Min(now + WINDOW, row.createdAt + LIFETIME));
            personal := personal[id := row];
          }
          r := Some(PkInfo(id, row.expiresAt, extend));
        }
      }
    }

    /** Revokes and stamps exactly an active row; it is the revocation step of the cache's system. */
    method RevokePersonalKey(id: KeyId, now: int) returns (flipped: bool)
      modifies this`personal
      ensures flipped <==> id in old(personal) && old(personal)[id].status == Active
      ensures personal ==
                if flipped then old(personal)[id := old(personal)[id].(status := Revoked, revokedAt := Some(now))]
                else old(personal)
      ensures id in old(personal) ==>
                Cached(now) == KeyCache.Apply(0, old(Cached(now)), KeyCache.PkCommit(id, Revoke(now)))
    {
      flipped := id in personal && personal[id].status == Active;
      if flipped {
        personal := personal[id := personal[id].(status := Revoked, revokedAt := Some(now))];
      }
    }

    /** EkResolve: the row authenticates exactly when active and unexpired; the debounced
        last_used_at plays no part in the decision. */
    method ResolveEnvironmentKey(id: KeyId, now: int) returns (r: Option<EkRow>)
      modifies this`environment
      ensures r.Some? <==>
                && id in old(environment) && old(environment)[id].status == Active
                && (old(environment)[id].expiresAt.None? || now < old(environment)[id].expiresAt.value)
      ensures r.Some? ==>
                var row := old(environment)[id];
                && environment == old(environment)[id := r.value] && r.value == row.(lastUsedAt := r.value.lastUsedAt)
                && r.value.lastUsedAt ==
                     if row.lastUsedAt.None? || row.lastUsedAt.value + 300_000_000 < now
                     then Some(now) else row.lastUsedAt
      ensures r.None? ==> environment == old(environment)
      ensures
        var (db, phase) := KeyCache.LookupIn(old(Rows()), KeyCache.EkBearer(id), now, now);
        && Rows() == db && phase.Done?
        && phase.info == if r.None? then None else Some(KeyCache.KeyInfo(id, r.value.expiresAt))
    {
      r := None;
      if id in environment && environment[id].status == Active && Unexpired(environment[id].expiresAt, now) {
        environment := environment[id := EkTouch(environment[id], now)];
        r := Some(environment[id]);
      }
    }

    /** ExchangeKeyResolve: only an active, unexpired exchange key answers, found by its id; it is the first
        statement of an exchange JWT's lookup. */
    method ResolveExchangeKey(id: KeyId, exp: int, now: int) returns (r: Option<EkRow>)
      modifies this`environment
      ensures r.Some? <==>
                && id in old(environment) && old(environment)[id].exchange && old(environment)[id].status == Active
                && (old(environment)[id].expiresAt.None? || now < old(environment)[id].expiresAt.value)
      ensures r.Some? ==>
                var row := old(environment)[id];
                && environment == old(environment)[id := r.value] && r.value == row.(lastUsedAt := r.value.lastUsedAt)
                && r.value.lastUsedAt ==
                     if row.lastUsedAt.None? || row.lastUsedAt.value + 300_000_000 < now
                     then Some(now) else row.lastUsedAt
      ensures r.None? ==> environment == old(environment)
      ensures
        var (db, phase) := KeyCache.LookupIn(old(Rows()), KeyCache.ExchangeJwt(id, exp), now, now);
        Rows() == db && phase == if r.None? then KeyCache.Done(now, None) else KeyCache.HaveRow(now, r.value)
    {
      r := None;
      if id in environment && environment[id].exchange && environment[id].status == Active
         && Unexpired(environment[id].expiresAt, now)
      {
        environment := environment[id := EkTouch(environment[id], now)];
        r := Some(environment[id]);
      }
    }

    /** Suspends an active row, resumes a suspended one that has not expired, revokes and stamps one that
        is not revoked; each is the commit step of the cache's system. */
    method FlipEnvironmentKey(id: KeyId, e: EkEvent) returns (flipped: bool)
      requires e.SuspendedAt? || e.ResumedAt? || e.RevokedAt?
      modifies this`environment
      ensures flipped <==>
                && id in old(environment)
                && (e.SuspendedAt? ==> old(environment)[id].status == Active)
                && (e.ResumedAt? ==>
                      && old(environment)[id].status == Suspended
                      && (old(environment)[id].expiresAt.None? || e.at < old(environment)[id].expiresAt.value))
                && (e.RevokedAt? ==> old(environment)[id].status != Revoked)
      ensures flipped ==>
                var row := old(environment)[id];
                environment == old(environment)[id :=
                  if e.SuspendedAt? then row.(status := Suspended)
                  else if e.ResumedAt? then row.(status := Active)
                  else row.(status := Revoked, revokedAt := Some(e.at))]
      ensures !flipped ==> environment == old(environment)
      ensures id in old(environment) ==>
                Cached(e.at) == KeyCache.Apply(0, old(Cached(e.at)), KeyCache.EkCommit(id, e))
    {
      flipped := false;
      if id in environment {
        var row := environment[id];
        match e {
          case SuspendedAt(_) =>
            flipped := row.status == Active;
            row := row.(status := Suspended);
          case ResumedAt(now) =>
            flipped := row.status == Suspended && (row.expiresAt.None? || row.expiresAt.value > now);
            row := row.(status := Active);
          case RevokedAt(now) =>
            flipped := row.status != Revoked;
            row := row.(status := Revoked, revokedAt := Some(now));
        }
        if flipped {
          environment := environment[id := row];
        }
      }
    }

    /** The finalizer's drain: afterwards no row of the environment is left undrained, rows
        that were already revoked keep their stamp and other environments are untouched. */
    method Drain(env: string, now: int)
      modifies this`environment
      ensures environment.Keys == old(environment).Keys
      ensures forall k | k in environment && environment[k].environment == env :: environment[k].status == Revoked
      ensures forall k | k in environment && environment[k] != old(environment)[k] ::
                && old(environment)[k].environment == env && old(environment)[k].status != Revoked
                && environment[k] == old(environment)[k].(status := Revoked, revokedAt := Some(now))
      ensures forall k | k in environment ::
                environment[k] == old(environment)[k] || environment[k] == EkApply(old(environment)[k], RevokedAt(now))
    {
      environment := map k | k in environment ::
        if environment[k].environment == env && environment[k].status != Revoked
        then environment[k].(status := Revoked, revokedAt := Some(now)) else environment[k];
    }

    /** The managed set that the reaper's run takes as its snapshot: the ids not revoked. */
    method ListManaged() returns (ids: set<KeyId>)
      ensures forall k :: k in ids <==>
                || (k in personal && personal[k].status != Revoked)
                || (k in environment && environment[k].status != Revoked)
      ensures forall now: int :: ids == OrphanRun.Managed(Reaped(now))
    {
      ids := {};
      var pks, eks := personal.Keys, environment.Keys;
      while pks != {}
        invariant pks <= personal.Keys
        invariant forall k :: k in ids <==> k in personal && k !in pks && personal[k].status != Revoked
        decreases |pks|
      {
        var k :| k in pks;
        pks := pks - {k};
        if personal[k].status != Revoked { ids := ids + {k}; }
      }
      while eks != {}
        invariant eks <= environment.Keys
        invariant forall k :: k in ids <==>
                    || (k in personal && personal[k].status != Revoked)
                    || (k in environment && k !in eks && environment[k].status != Revoked)
        decreases |eks|
      {
        var k :| k in eks;
        eks := eks - {k};
        if environment[k].status != Revoked { ids := ids + {k}; }
      }
    }
  }
}
