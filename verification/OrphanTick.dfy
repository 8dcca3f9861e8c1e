/** One pass of the orphan reaper (internal/orphan/runnable.go): two passes over the LiteLLM
    listings, the guards, and the revoke calls with their counters. */
module OrphanTick {
  import opened Strings

  /** Ten minutes, in microseconds. */
  const AGE_FLOOR: int := 600_000_000
  const DEFAULT_MAX_REVOKE: nat := 10

  /** A LiteLLM key; the two metadata values are None when absent or not text. */
  datatype UserKey = UserKey(token: string, createdAt: int, achKeyId: Option<string>, achIssuer: Option<string>)

  datatype Candidate = Candidate(user: string, token: string, achId: string)

  datatype Config = Config(dryRun: bool, issuer: string, maxRevoke: int)

  datatype Metrics = Metrics(
    candidates: nat, revoked: nat, dryRun: nat, emptySet: nat, breaker: nat, unreachable: nat, failed: nat)

  /** What a tick reads: the two database lists, the clock, each user's keys, and whether the
      i-th revoke call succeeds. */
  datatype Inputs = Inputs(
    users: Result<seq<string>, string>, managed: Result<seq<string>, string>, now: int,
    keysOf: string -> Result<seq<UserKey>, string>, revokeOk: nat -> bool)

  /** A failed or absent type assertion yields the empty string. */
  function Text(o: Option<string>): (r: string) {
    if o.Some? then o.value else ""
  }

  /** Minted by this release, old enough, and no longer tracked. */
  predicate IsOrphan(k: UserKey, managed: set<string>, issuer: string, cutoff: int) {
    && k.createdAt < cutoff
    && Text(k.achKeyId) != ""
    && Text(k.achIssuer) == issuer
    && Text(k.achKeyId) !in managed
  }

  function CandidateOf(user: string, k: UserKey): (c: Candidate) {
    Candidate(user, k.token, Text(k.achKeyId))
  }

  function Orphans(user: string, keys: seq<UserKey>, managed: set<string>, issuer: string, cutoff: int)
    : (r: seq<Candidate>)
  {
    if keys == [] then []
    else
      var r := Orphans(user, keys[..|keys| - 1], managed, issuer, cutoff);
      var k := keys[|keys| - 1];
      if IsOrphan(k, managed, issuer, cutoff) then r + [CandidateOf(user, k)] else r
  }

  /** Pass 1 over the users; one failed listing fails the pass. */
  function Collected(users: seq<string>, keysOf: string -> Result<seq<UserKey>, string>,
                     managed: set<string>, issuer: string, cutoff: int): (r: Result<seq<Candidate>, string>)
  {
    if users == [] then Ok([])
    else
      var r := Collected(users[..|users| - 1], keysOf, managed, issuer, cutoff);
      var u := users[|users| - 1];
      if r.Err? then r
      else if keysOf(u).Err? then Err(u)
      else Ok(r.value + Orphans(u, keysOf(u).value, managed, issuer, cutoff))
  }

  function SetOf(ids: seq<string>): (r: set<string>) {
    set id | id in ids
  }

  function Cap(cfg: Config): (n: nat) {
    if cfg.maxRevoke <= 0 then DEFAULT_MAX_REVOKE else cfg.maxRevoke
  }

  /** Pass 2 runs only past the empty-set guard, the circuit breaker and dry-run. */
  predicate Proceeds(cfg: Config, managed: set<string>, candidates: nat) {
    !cfg.dryRun && managed != {} && candidates <= Cap(cfg)
  }

  function Tokens(cs: seq<Candidate>): (r: seq<string>) {
    seq(|cs|, i requires 0 <= i < |cs| => cs[i].token)
  }

  function Succeeded(n: nat, ok: nat -> bool): (r: nat)
    ensures r <= n
  {
    if n == 0 then 0 else Succeeded(n - 1, ok) + if ok(n - 1) then 1 else 0
  }

  /** The candidates of a tick: none when a database list fails or there are no users, and the
      user whose listing failed when one did. */
  function CandidatesOf(cfg: Config, i: Inputs): (r: Result<seq<Candidate>, string>) {
    if i.users.Err? || i.users.value == [] || i.managed.Err? then Ok([])
    else Collected(i.users.value, i.keysOf, SetOf(i.managed.value), cfg.issuer, i.now - AGE_FLOOR)
  }

  function ManagedOf(i: Inputs): (r: set<string>) {
    if i.managed.Ok? then SetOf(i.managed.value) else {}
  }

  /** The tokens a tick asks LiteLLM to revoke, in order. */
  function Calls(cfg: Config, i: Inputs): (r: seq<string>) {
    var cs := CandidatesOf(cfg, i);
    if cs.Ok? && Proceeds(cfg, ManagedOf(i), |cs.value|) then Tokens(cs.value) else []
  }

  /** The counters after a tick. */
  function Counted(cfg: Config, m: Metrics, i: Inputs): (r: Metrics) {
    match CandidatesOf(cfg, i)
    case Err(_) => m.(unreachable := m.unreachable + 1)
    case Ok(cs) =>
      var n := |cs|;
      var seen := m.(candidates := m.candidates + n, dryRun := m.dryRun + if cfg.dryRun then n else 0);
      if n == 0 then m
      else if ManagedOf(i) == {} then seen.(emptySet := m.emptySet + n)
      else if n > Cap(cfg) then seen.(breaker := m.breaker + n)
      else if cfg.dryRun then seen
      else
        var good := Succeeded(n, i.revokeOk);
        seen.(revoked := m.revoked + good, failed := m.failed + (n - good))
  }

  class Reaper {
    const cfg: Config
    var metrics: Metrics

    constructor (cfg: Config)
      ensures this.cfg == cfg && metrics == Metrics(0, 0, 0, 0, 0, 0, 0)
    {
      this.cfg := cfg;
      metrics := Metrics(0, 0, 0, 0, 0, 0, 0);
    }

    /** Pass 1. */
    method Collect(users: seq<string>, keysOf: string -> Result<seq<UserKey>, string>, managed: set<string>, now: int)
      returns (r: Result<seq<Candidate>, string>)
      ensures r == Collected(users, keysOf, managed, cfg.issuer, now - AGE_FLOOR)
    {
      var cutoff := now - AGE_FLOOR;
      var candidates: seq<Candidate> := [];
      var i := 0;
      while i < |users|
        invariant 0 <= i <= |users|
        invariant Collected(users[..i], keysOf, managed, cfg.issuer, cutoff) == Ok(candidates)
      {
        var uid := users[i];
        assert users[..i + 1][..i] == users[..i];
        var listed := keysOf(uid);
        if listed.Err? {
          CollectedErr(users, i + 1, keysOf, managed, cfg.issuer, cutoff);
          return Err(uid);
        }
        var mine := CollectUser(uid, listed.value, managed, cutoff);
        candidates := candidates + mine;
        i := i + 1;
      }
      assert users[..i] == users;
      return Ok(candidates);
    }

    method CollectUser(uid: string, keys: seq<UserKey>, managed: set<string>, cutoff: int) returns (r: seq<Candidate>)
      ensures r == Orphans(uid, keys, managed, cfg.issuer, cutoff)
    {
      r := [];
      for i := 0 to |keys|
        invariant r == Orphans(uid, keys[..i], managed, cfg.issuer, cutoff)
      {
        var k := keys[i];
        assert keys[..i + 1][..i] == keys[..i];
        if !(k.createdAt < cutoff) { continue; }
        var achId := Text(k.achKeyId);
        if achId == "" { continue; }
        if Text(k.achIssuer) != cfg.issuer { continue; }
        if achId in managed { continue; }
        r := r + [Candidate(uid, k.token, achId)];
      }
      assert keys[..|keys|] == keys;
    }

    method PreviewDryRun(candidates: seq<Candidate>)
      modifies this`metrics
      ensures metrics == old(metrics).(dryRun := old(metrics).dryRun + |candidates|)
    {
      for i := 0 to |candidates|
        invariant metrics == old(metrics).(dryRun := old(metrics).dryRun + i)
      {
        metrics := metrics.(dryRun := metrics.dryRun + 1);
      }
    }

    /** Pass 2: a failed call is counted and the tick goes on to the next candidate. */
    method RevokeAll(candidates: seq<Candidate>, revokeOk: nat -> bool) returns (calls: seq<string>)
      modifies this`metrics
      ensures calls == Tokens(candidates)
      ensures
        var good := Succeeded(|candidates|, revokeOk);
        metrics == old(metrics).(revoked := old(metrics).revoked + good,
                                 failed := old(metrics).failed + (|candidates| - good))
    {
      calls := [];
      for i := 0 to |candidates|
        invariant calls == Tokens(candidates[..i])
        invariant metrics == old(metrics).(revoked := old(metrics).revoked + Succeeded(i, revokeOk),
                                           failed := old(metrics).failed + (i - Succeeded(i, revokeOk)))
      {
        calls := calls + [candidates[i].token];
        if revokeOk(i) {
          metrics := metrics.(revoked := metrics.revoked + 1);
        } else {
          metrics := metrics.(failed := metrics.failed + 1);
        }
      }
      assert candidates[..|candidates|] == candidates;
    }

    method TickOnce(i: Inputs) returns (calls: seq<string>)
      modifies this`metrics
      ensures calls == Calls(cfg, i)
      ensures metrics == Counted(cfg, old(metrics), i)
    {
      calls := [];
      if i.users.Err? || |i.users.value| == 0 || i.managed.Err? {
        return;
      }
      var achKeySet := SetOf(i.managed.value);
      var pass1 := Collect(i.users.value, i.keysOf, achKeySet, i.now);
      if pass1.Err? {
        metrics := metrics.(unreachable := metrics.unreachable + 1);
        return;
      }
      var candidates := pass1.value;
      metrics := metrics.(candidates := metrics.candidates + |candidates|);
      if |candidates| == 0 {
        return;
      }
      if achKeySet == {} {
        if cfg.dryRun { PreviewDryRun(candidates); }
        metrics := metrics.(emptySet := metrics.emptySet + |candidates|);
        return;
      }
      if |candidates| > Cap(cfg) {
        if cfg.dryRun { PreviewDryRun(candidates); }
        metrics := metrics.(breaker := metrics.breaker + |candidates|);
        return;
      }
      if cfg.dryRun {
        PreviewDryRun(candidates);
        return;
      }
      calls := RevokeAll(candidates, i.revokeOk);
    }
  }

  lemma {:induction false} CollectedErr(users: seq<string>, n: nat, keysOf: string -> Result<seq<UserKey>, string>,
                                        managed: set<string>, issuer: string, cutoff: int)
    requires n <= |users| && Collected(users[..n], keysOf, managed, issuer, cutoff).Err?
    ensures Collected(users, keysOf, managed, issuer, cutoff) == Collected(users[..n], keysOf, managed, issuer, cutoff)
    decreases |users|
  {
    if n == |users| {
      assert users[..n] == users;
    } else {
      assert users[..|users| - 1][..n] == users[..n];
      CollectedErr(users[..|users| - 1], n, keysOf, managed, issuer, cutoff);
    }
  }

  // ----- What a tick may do

  /** The issuer stamp reads as `issuer`; an absent one reads as "". */
  predicate StampReads(k: UserKey, issuer: string) {
    k.achIssuer == Some(issuer) || (k.achIssuer.None? && issuer == "")
  }

  /** The key carries an ACH id that is not managed, this release's issuer, and is more than ten minutes
      older than `now`. */
  predicate Untracked(k: UserKey, managed: set<string>, issuer: string, now: int) {
    && k.achKeyId.Some? && k.achKeyId.value != "" && k.achKeyId.value !in managed
    && StampReads(k, issuer) && now - k.createdAt > 600_000_000
  }

  lemma OrphanIsUntracked(k: UserKey, managed: set<string>, issuer: string, now: int)
    ensures IsOrphan(k, managed, issuer, now - AGE_FLOOR) <==> Untracked(k, managed, issuer, now)
  {
  }

  lemma {:induction false} OrphansSound(
    user: string, keys: seq<UserKey>, managed: set<string>, issuer: string, cutoff: int)
    ensures forall c :: c in Orphans(user, keys, managed, issuer, cutoff) <==>
              exists k :: k in keys && IsOrphan(k, managed, issuer, cutoff) && c == CandidateOf(user, k)
  {
    if keys != [] {
      var init, last := keys[..|keys| - 1], keys[|keys| - 1];
      OrphansSound(user, init, managed, issuer, cutoff);
      assert forall k :: k in keys <==> k in init || k == last;
    }
  }

  /** A key some user listed and every gate let through. */
  ghost predicate Listed(c: Candidate, users: seq<string>, keysOf: string -> Result<seq<UserKey>, string>,
                         managed: set<string>, issuer: string, now: int)
  {
    && c.user in users && keysOf(c.user).Ok?
    && exists k :: && k in keysOf(c.user).value && Untracked(k, managed, issuer, now)
                   && k.token == c.token && k.achKeyId == Some(c.achId)
  }

  lemma OrphansOfUser(user: string, keys: seq<UserKey>, managed: set<string>, issuer: string, now: int)
    ensures forall c :: c in Orphans(user, keys, managed, issuer, now - AGE_FLOOR) <==>
              && c.user == user
              && exists k :: && k in keys && Untracked(k, managed, issuer, now)
                             && k.token == c.token && k.achKeyId == Some(c.achId)
  {
    var os := Orphans(user, keys, managed, issuer, now - AGE_FLOOR);
    OrphansSound(user, keys, managed, issuer, now - AGE_FLOOR);
    forall c | c in os
      ensures c.user == user
      ensures exists k :: && k in keys && Untracked(k, managed, issuer, now)
                          && k.token == c.token && k.achKeyId == Some(c.achId)
    {
      var k :| k in keys && IsOrphan(k, managed, issuer, now - AGE_FLOOR) && c == CandidateOf(user, k);
      OrphanIsUntracked(k, managed, issuer, now);
      assert k.achKeyId == Some(c.achId);
    }
    forall c: Candidate, k | && c.user == user && k in keys && Untracked(k, managed, issuer, now)
                             && k.token == c.token && k.achKeyId == Some(c.achId)
      ensures c in os
    {
      OrphanIsUntracked(k, managed, issuer, now);
      assert c == CandidateOf(user, k);
    }
  }

  lemma {:induction false} CollectedSound(users: seq<string>, keysOf: string -> Result<seq<UserKey>, string>,
                                          managed: set<string>, issuer: string, now: int)
    ensures
      var r := Collected(users, keysOf, managed, issuer, now - AGE_FLOOR);
      && (r.Ok? <==> forall u | u in users :: keysOf(u).Ok?)
      && (r.Ok? ==> forall c :: c in r.value <==> Listed(c, users, keysOf, managed, issuer, now))
  {
    if users != [] {
      var init, u := users[..|users| - 1], users[|users| - 1];
      CollectedSound(init, keysOf, managed, issuer, now);
      assert forall x :: x in users <==> x in init || x == u;
      if keysOf(u).Ok? {
        OrphansOfUser(u, keysOf(u).value, managed, issuer, now);
      }
    }
  }

  // ----- How many

  ghost function UntrackedAt(keys: seq<UserKey>, managed: set<string>, issuer: string, now: int): (r: set<int>) {
    set k | 0 <= k < |keys| && Untracked(keys[k], managed, issuer, now)
  }

  lemma {:induction false} OrphansCounted(
    user: string, keys: seq<UserKey>, managed: set<string>, issuer: string, now: int)
    ensures |Orphans(user, keys, managed, issuer, now - AGE_FLOOR)| == |UntrackedAt(keys, managed, issuer, now)|
  {
    var at := UntrackedAt(keys, managed, issuer, now);
    if keys == [] {
      assert at == {};
    } else {
      var n := |keys| - 1;
      var init := keys[..n];
      OrphansCounted(user, init, managed, issuer, now);
      OrphanIsUntracked(keys[n], managed, issuer, now);
      assert at == UntrackedAt(init, managed, issuer, now)
                     + if Untracked(keys[n], managed, issuer, now) then {n} else {};
    }
  }

  /** How many untracked keys the users list. */
  ghost function Total(users: seq<string>, keysOf: string -> Result<seq<UserKey>, string>,
                       managed: set<string>, issuer: string, now: int): (n: nat)
    requires forall u | u in users :: keysOf(u).Ok?
  {
    if users == [] then 0
    else
      var u := users[|users| - 1];
      assert u in users && forall x | x in users[..|users| - 1] :: x in users;
      Total(users[..|users| - 1], keysOf, managed, issuer, now)
      + |UntrackedAt(keysOf(u).value, managed, issuer, now)|
  }

  lemma {:induction false} CollectedCounted(users: seq<string>, keysOf: string -> Result<seq<UserKey>, string>,
                                            managed: set<string>, issuer: string, now: int)
    requires forall u | u in users :: keysOf(u).Ok?
    ensures
      var r := Collected(users, keysOf, managed, issuer, now - AGE_FLOOR);
      r.Ok? && |r.value| == Total(users, keysOf, managed, issuer, now)
  {
    if users != [] {
      var init, u := users[..|users| - 1], users[|users| - 1];
      assert u in users && forall x | x in init :: x in users;
      CollectedCounted(init, keysOf, managed, issuer, now);
      OrphansCounted(u, keysOf(u).value, managed, issuer, now);
    }
  }

  ghost function Goods(n: nat, ok: nat -> bool): (r: set<nat>) {
    set k: nat | k < n && ok(k)
  }

  lemma {:induction false} SucceededCounted(n: nat, ok: nat -> bool)
    ensures Succeeded(n, ok) == |Goods(n, ok)|
  {
    if n == 0 {
      assert Goods(n, ok) == {};
    } else {
      SucceededCounted(n - 1, ok);
      assert Goods(n, ok) == Goods(n - 1, ok) + if ok(n - 1) then {n - 1} else {};
    }
  }

  /** Both database lists are there, some user is, and every listing succeeds. */
  ghost predicate AllListed(i: Inputs) {
    && i.users.Ok? && i.users.value != [] && i.managed.Ok?
    && forall u | u in i.users.value :: i.keysOf(u).Ok?
  }

  ghost function Managed(i: Inputs): (r: set<string>)
    requires i.managed.Ok?
  {
    set id | id in i.managed.value
  }

  ghost function TotalOf(cfg: Config, i: Inputs): (n: nat)
    requires AllListed(i)
  {
    Total(i.users.value, i.keysOf, Managed(i), cfg.issuer, i.now)
  }

  lemma CandidatesCounted(cfg: Config, i: Inputs)
    requires AllListed(i)
    ensures CandidatesOf(cfg, i).Ok? && |CandidatesOf(cfg, i).value| == TotalOf(cfg, i) && ManagedOf(i) == Managed(i)
  {
    CollectedCounted(i.users.value, i.keysOf, Managed(i), cfg.issuer, i.now);
    assert SetOf(i.managed.value) == Managed(i);
  }

  lemma NotAllListed(cfg: Config, i: Inputs)
    requires !AllListed(i)
    ensures CandidatesOf(cfg, i) == Ok([]) || CandidatesOf(cfg, i).Err?
    ensures CandidatesOf(cfg, i).Err? <==>
              i.users.Ok? && i.managed.Ok? && exists u :: u in i.users.value && i.keysOf(u).Err?
  {
    if i.users.Ok? && i.managed.Ok? {
      CollectedSound(i.users.value, i.keysOf, SetOf(i.managed.value), cfg.issuer, i.now);
    }
  }

  lemma TokensOf(cs: seq<Candidate>)
    ensures forall t :: t in Tokens(cs) <==> exists c :: c in cs && c.token == t
  {
    forall t ensures t in Tokens(cs) <==> exists c :: c in cs && c.token == t {
      if t in Tokens(cs) {
        var n :| 0 <= n < |cs| && Tokens(cs)[n] == t;
        assert cs[n] in cs;
      }
      if c :| c in cs && c.token == t {
        var n :| 0 <= n < |cs| && cs[n] == c;
        assert Tokens(cs)[n] == t;
      }
    }
  }

  /** The operator's MaxRevoke, ten when it is not positive. */
  ghost predicate WithinLimit(cfg: Config, n: int) {
    if cfg.maxRevoke > 0 then n <= cfg.maxRevoke else n <= 10
  }

  /** A tick calls LiteLLM exactly when it is not a dry run, everything was listed, something is managed
      and the untracked keys are within the limit. Then it calls once for each of them and for nothing
      else. */
  lemma TickRevokes(cfg: Config, i: Inputs)
    ensures Calls(cfg, i) != [] ==>
              !cfg.dryRun && AllListed(i) && Managed(i) != {} && WithinLimit(cfg, TotalOf(cfg, i))
    ensures !cfg.dryRun && AllListed(i) && Managed(i) != {} && WithinLimit(cfg, TotalOf(cfg, i)) ==>
              && |Calls(cfg, i)| == TotalOf(cfg, i)
              && forall t :: t in Calls(cfg, i) <==>
                   exists c: Candidate ::
                     c.token == t && Listed(c, i.users.value, i.keysOf, Managed(i), cfg.issuer, i.now)
    ensures WithinLimit(cfg, |Calls(cfg, i)|)
  {
    if AllListed(i) {
      CandidatesCounted(cfg, i);
      CollectedSound(i.users.value, i.keysOf, Managed(i), cfg.issuer, i.now);
      TokensOf(CandidatesOf(cfg, i).value);
    } else {
      NotAllListed(cfg, i);
    }
  }

  /** What a tick adds to each counter. */
  lemma TickCounts(cfg: Config, m: Metrics, i: Inputs)
    ensures !AllListed(i) ==>
              Counted(cfg, m, i) ==
                if i.users.Ok? && i.managed.Ok? && exists u :: u in i.users.value && i.keysOf(u).Err?
                then m.(unreachable := m.unreachable + 1) else m
    ensures AllListed(i) ==>
              var m', n := Counted(cfg, m, i), TotalOf(cfg, i);
              && m'.candidates == m.candidates + n && m'.unreachable == m.unreachable
              && m'.dryRun == m.dryRun + (if cfg.dryRun then n else 0)
              && m'.emptySet == m.emptySet + (if Managed(i) == {} then n else 0)
              && m'.breaker == m.breaker + (if Managed(i) != {} && !WithinLimit(cfg, n) then n else 0)
              && var good := |Goods(n, i.revokeOk)|;
                 if !cfg.dryRun && Managed(i) != {} && WithinLimit(cfg, n)
                 then m'.revoked == m.revoked + good && m'.failed == m.failed + (n - good)
                 else m'.revoked == m.revoked && m'.failed == m.failed
  {
    if AllListed(i) {
      CandidatesCounted(cfg, i);
      SucceededCounted(TotalOf(cfg, i), i.revokeOk);
    } else {
      NotAllListed(cfg, i);
    }
  }

  /** No key without this release's stamp is an orphan, whatever the listing, exactly when the
      release has a non-empty issuer. */
  lemma UnstampedSpared(issuer: string)
    ensures (forall k: UserKey, managed: set<string>, cutoff: int ::
               IsOrphan(k, managed, issuer, cutoff) ==> k.achKeyId.Some? && k.achIssuer == Some(issuer))
            <==> issuer != ""
  {
    if issuer == "" {
      var k := UserKey("t", 0, Some("pkid_x"), None);
      assert IsOrphan(k, {}, issuer, 1);
    }
  }

  // ----- Counters over every history of ticks

  function History(cfg: Config, ticks: seq<Inputs>): (m: Metrics) {
    if ticks == [] then Metrics(0, 0, 0, 0, 0, 0, 0)
    else Counted(cfg, History(cfg, ticks[..|ticks| - 1]), ticks[|ticks| - 1])
  }

  /** The revoke calls of a history. */
  function AllCalls(cfg: Config, ticks: seq<Inputs>): (n: nat) {
    if ticks == [] then 0 else AllCalls(cfg, ticks[..|ticks| - 1]) + |Calls(cfg, ticks[|ticks| - 1])|
  }

  /** Every candidate is accounted for once, and every call ends revoked or failed. */
  lemma {:induction false} CandidatesConserved(cfg: Config, ticks: seq<Inputs>)
    ensures
      var m := History(cfg, ticks);
      && (cfg.dryRun ==> m.candidates == m.dryRun && m.revoked == m.failed == 0)
      && (!cfg.dryRun ==> m.candidates == m.revoked + m.failed + m.emptySet + m.breaker && m.dryRun == 0)
      && AllCalls(cfg, ticks) == m.revoked + m.failed
      && (cfg.maxRevoke > 0 ==> AllCalls(cfg, ticks) <= |ticks| * cfg.maxRevoke)
      && (cfg.maxRevoke <= 0 ==> AllCalls(cfg, ticks) <= |ticks| * 10)
  {
    if ticks != [] {
      CandidatesConserved(cfg, ticks[..|ticks| - 1]);
      TickRevokes(cfg, ticks[|ticks| - 1]);
      assert |ticks| * cfg.maxRevoke == (|ticks| - 1) * cfg.maxRevoke + cfg.maxRevoke;
    }
  }
}
