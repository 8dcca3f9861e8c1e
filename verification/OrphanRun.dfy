/** The reaper against a moving world (internal/orphan/runnable.go, internal/db): keys are
    minted upstream, rows are inserted and flipped, and the steps of a tick interleave with
    all of it. `delay` bounds the time from minting a key to inserting its row, `gap` the time
    from reading the managed set to reading the clock. */
module OrphanRun {
  import opened Strings
  import opened KeyRows
  import opened OrphanTick

  /** A LiteLLM key and its user. */
  datatype Minted = Minted(user: string, key: UserKey)

  /** Where the tick stands. */
  datatype Phase =
    | Resting
    | HaveManaged(managed: set<KeyId>, at: int)
    | Collecting(managed: set<KeyId>, at: int, cutoff: int, found: seq<Candidate>)
    | Revoking(cutoff: int, pending: seq<Candidate>)

  /** `minted` keeps every key ever minted, `upstream` the tokens LiteLLM still holds. */
  datatype State = State(
    now: int, personal: map<KeyId, PkRow>, environment: map<KeyId, EkRow>,
    minted: map<string, Minted>, upstream: set<string>, phase: Phase)

  datatype Params = Params(cfg: Config, delay: nat, gap: nat)

  datatype Step =
    | Tick(dt: nat)
    | Mint(user: string, key: UserKey)
    | InsertPk(id: KeyId, pkRow: PkRow) | InsertEk(id: KeyId, ekRow: EkRow)
    | PkCommit(id: KeyId, pk: PkEvent) | EkCommit(id: KeyId, ek: EkEvent)
    | RemoveUpstream(token: string)
    | ReadManaged | ReadClock | ListUser(user: string, keys: seq<UserKey>) | Abort | Decide | RevokeNext(ok: bool)

  /** The row of a managed key: present in either table and not revoked. */
  predicate Live(s: State, id: KeyId) {
    || (id in s.personal && s.personal[id].status != Revoked)
    || (id in s.environment && s.environment[id].status != Revoked)
  }

  function Managed(s: State): (r: set<KeyId>) {
    set id | id in s.personal.Keys + s.environment.Keys && Live(s, id)
  }

  /** Carries this release's stamp for the key id. */
  predicate Stamped(cfg: Config, k: UserKey, id: KeyId) {
    Text(k.achKeyId) == id && Text(k.achIssuer) == cfg.issuer
  }

  /** Every key minted for this row was minted at most `delay` ago. */
  ghost predicate InTime(p: Params, s: State, id: KeyId) {
    forall t | t in s.minted && Stamped(p.cfg, s.minted[t].key, id) :: s.now - s.minted[t].key.createdAt <= p.delay
  }

  ghost predicate Enabled(p: Params, s: State, step: Step) {
    match step
    case Tick(_) => true
    case Mint(_, key) => key.token !in s.minted && key.createdAt == s.now
    case InsertPk(id, row) => id !in s.personal && row.createdAt == s.now && InTime(p, s, id)
    case InsertEk(id, row) => id !in s.environment && row.createdAt == s.now && InTime(p, s, id)
    case PkCommit(id, _) => id in s.personal
    case EkCommit(id, _) => id in s.environment
    case RemoveUpstream(_) => true
    case ReadManaged => s.phase.Resting?
    case ReadClock => s.phase.HaveManaged? && s.now - s.phase.at <= p.gap
    case ListUser(u, keys) =>
      s.phase.Collecting? && forall k | k in keys :: k.token in s.minted && s.minted[k.token] == Minted(u, k)
    case Abort => true
    case Decide => s.phase.Collecting?
    case RevokeNext(_) => s.phase.Revoking? && s.phase.pending != []
  }

  function Apply(p: Params, s: State, step: Step): (s': State)
    requires Enabled(p, s, step)
  {
    match step
    case Tick(dt) => s.(now := s.now + dt)
    case Mint(u, key) => s.(minted := s.minted[key.token := Minted(u, key)], upstream := s.upstream + {key.token})
    case InsertPk(id, row) => s.(personal := s.personal[id := row])
    case InsertEk(id, row) => s.(environment := s.environment[id := row])
    case PkCommit(id, e) => s.(personal := s.personal[id := PkApply(s.personal[id], e)])
    case EkCommit(id, e) => s.(environment := s.environment[id := EkApply(s.environment[id], e)])
    case RemoveUpstream(t) => s.(upstream := s.upstream - {t})
    case ReadManaged => s.(phase := HaveManaged(Managed(s), s.now))
    case ReadClock => s.(phase := Collecting(s.phase.managed, s.phase.at, s.now - AGE_FLOOR, []))
    case ListUser(u, keys) =>
      s.(phase := s.phase.(found := s.phase.found + Orphans(u, keys, s.phase.managed, p.cfg.issuer, s.phase.cutoff)))
    case Abort => s.(phase := Resting)
    case Decide =>
      if Proceeds(p.cfg, s.phase.managed, |s.phase.found|) then s.(phase := Revoking(s.phase.cutoff, s.phase.found))
      else s.(phase := Resting)
    case RevokeNext(ok) =>
      var c := s.phase.pending[0];
      s.(phase := Revoking(s.phase.cutoff, s.phase.pending[1..]),
         upstream := if ok then s.upstream - {c.token} else s.upstream)
  }

  ghost predicate Next(p: Params, s: State, s': State) {
    exists step :: Enabled(p, s, step) && s' == Apply(p, s, step)
  }

  ghost predicate NextAt(p: Params, tr: seq<State>, i: int)
    requires 0 <= i < |tr| - 1
  {
    Next(p, tr[i], tr[i + 1])
  }

  ghost predicate Init(s: State) {
    s.personal == map[] && s.environment == map[] && s.minted == map[] && s.upstream == {} && s.phase == Resting
  }

  ghost predicate Behaviour(p: Params, tr: seq<State>) {
    tr != [] && Init(tr[0]) && forall i :: 0 <= i < |tr| - 1 ==> NextAt(p, tr, i)
  }

  // ----- What every step keeps

  /** Rows of either table came at most `delay` after the keys minted for them, and no later
      than now. */
  ghost predicate DelayOk(p: Params, s: State) {
    && (forall t, id | t in s.minted && id in s.personal && Stamped(p.cfg, s.minted[t].key, id) ::
          s.personal[id].createdAt <= s.minted[t].key.createdAt + p.delay)
    && (forall t, id | t in s.minted && id in s.environment && Stamped(p.cfg, s.minted[t].key, id) ::
          s.environment[id].createdAt <= s.minted[t].key.createdAt + p.delay)
  }

  ghost predicate TimesOk(s: State) {
    && (forall t | t in s.minted :: s.minted[t].key.token == t && s.minted[t].key.createdAt <= s.now)
    && (forall id | id in s.personal :: s.personal[id].createdAt <= s.now)
    && (forall id | id in s.environment :: s.environment[id].createdAt <= s.now)
  }

  /** Whatever is live and was not in the set read at `at` was inserted since. */
  ghost predicate SnapshotOk(s: State, managed: set<KeyId>, at: int) {
    && at <= s.now
    && (forall id | id in s.personal && s.personal[id].status != Revoked ::
          id in managed || at <= s.personal[id].createdAt)
    && (forall id | id in s.environment && s.environment[id].status != Revoked ::
          id in managed || at <= s.environment[id].createdAt)
  }

  /** A candidate names a key this release minted before the cutoff whose row is not live. */
  ghost predicate CandidateOk(p: Params, s: State, cutoff: int, c: Candidate) {
    && c.token in s.minted && c.achId != ""
    && Stamped(p.cfg, s.minted[c.token].key, c.achId)
    && s.minted[c.token].key.createdAt < cutoff
    && !Live(s, c.achId)
  }

  ghost predicate PhaseOk(p: Params, s: State) {
    match s.phase
    case Resting => true
    case HaveManaged(managed, at) => SnapshotOk(s, managed, at)
    case Collecting(managed, at, cutoff, found) =>
      && SnapshotOk(s, managed, at) && at <= cutoff + AGE_FLOOR <= s.now && cutoff + AGE_FLOOR <= at + p.gap
      && forall c | c in found :: CandidateOk(p, s, cutoff, c)
    case Revoking(cutoff, pending) =>
      cutoff + AGE_FLOOR <= s.now && forall c | c in pending :: CandidateOk(p, s, cutoff, c)
  }

  ghost predicate Inv(p: Params, s: State) {
    DelayOk(p, s) && TimesOk(s) && PhaseOk(p, s)
  }

  /** A change of the world that brings no candidate's row to life keeps the tick's facts. */
  lemma WorldKeeps(p: Params, s: State, s': State)
    requires PhaseOk(p, s) && s'.phase == s.phase && s.now <= s'.now
    requires forall t | t in s.minted :: t in s'.minted && s'.minted[t] == s.minted[t]
    requires forall id | id in s'.personal && s'.personal[id].status != Revoked ::
               (&& id in s.personal && s.personal[id].status != Revoked
                && s'.personal[id].createdAt == s.personal[id].createdAt)
               || (id !in s.personal && s'.personal[id].createdAt == s.now && InTime(p, s, id))
    requires forall id | id in s'.environment && s'.environment[id].status != Revoked ::
               (&& id in s.environment && s.environment[id].status != Revoked
                && s'.environment[id].createdAt == s.environment[id].createdAt)
               || (id !in s.environment && s'.environment[id].createdAt == s.now && InTime(p, s, id))
    requires p.delay <= AGE_FLOOR
    ensures PhaseOk(p, s')
  {
  }

  predicate IsInsert(step: Step) {
    step.InsertPk? || step.InsertEk?
  }

  lemma InsertKeeps(p: Params, s: State, step: Step)
    requires Inv(p, s) && Enabled(p, s, step) && p.delay <= AGE_FLOOR && IsInsert(step)
    ensures Inv(p, Apply(p, s, step))
  {
    var s' := Apply(p, s, step);
    WorldKeeps(p, s, s');
  }

  predicate IsCommit(step: Step) {
    step.PkCommit? || step.EkCommit?
  }

  lemma CommitKeeps(p: Params, s: State, step: Step)
    requires Inv(p, s) && Enabled(p, s, step) && p.delay <= AGE_FLOOR && IsCommit(step)
    ensures Inv(p, Apply(p, s, step))
  {
    var s' := Apply(p, s, step);
    assert forall id | id in s'.personal :: id in s.personal && s'.personal[id].createdAt == s.personal[id].createdAt;
    assert forall id | id in s'.environment ::
             id in s.environment && s'.environment[id].createdAt == s.environment[id].createdAt;
    WorldKeeps(p, s, s');
  }

  predicate IsUpstream(step: Step) {
    step.Tick? || step.Mint? || step.RemoveUpstream?
  }

  lemma UpstreamKeeps(p: Params, s: State, step: Step)
    requires Inv(p, s) && Enabled(p, s, step) && p.delay <= AGE_FLOOR && IsUpstream(step)
    ensures Inv(p, Apply(p, s, step))
  {
    WorldKeeps(p, s, Apply(p, s, step));
  }

  /** The heart of it: a key old enough to be a candidate, whose id the managed set lacks, has
      no live row, because such a row would have had to be inserted before the set was read. */
  lemma OrphanIsNotLive(p: Params, s: State, t: string)
    requires Inv(p, s) && s.phase.Collecting? && t in s.minted && p.delay + p.gap <= AGE_FLOOR
    requires IsOrphan(s.minted[t].key, s.phase.managed, p.cfg.issuer, s.phase.cutoff)
    ensures !Live(s, Text(s.minted[t].key.achKeyId))
  {
  }

  lemma ListUserKeeps(p: Params, s: State, u: string, keys: seq<UserKey>)
    requires Inv(p, s) && Enabled(p, s, ListUser(u, keys)) && p.delay + p.gap <= AGE_FLOOR
    ensures Inv(p, Apply(p, s, ListUser(u, keys)))
  {
    var s' := Apply(p, s, ListUser(u, keys));
    OrphansSound(u, keys, s.phase.managed, p.cfg.issuer, s.phase.cutoff);
    forall c | c in s'.phase.found ensures CandidateOk(p, s', s.phase.cutoff, c) {
      if c in s.phase.found {
        assert CandidateOk(p, s, s.phase.cutoff, c);
      } else {
        var k :| k in keys && IsOrphan(k, s.phase.managed, p.cfg.issuer, s.phase.cutoff) && c == CandidateOf(u, k);
        OrphanIsNotLive(p, s, k.token);
      }
    }
  }

  lemma TickStepKeeps(p: Params, s: State, step: Step)
    requires Inv(p, s) && Enabled(p, s, step)
    requires step.ReadManaged? || step.ReadClock? || step.Abort? || step.Decide? || step.RevokeNext?
    ensures Inv(p, Apply(p, s, step))
  {
    var s' := Apply(p, s, step);
    var cs := if s'.phase.Collecting? then s'.phase.found else if s'.phase.Revoking? then s'.phase.pending else [];
    forall c | c in cs ensures CandidateOk(p, s', s'.phase.cutoff, c) {
      assert CandidateOk(p, s, s.phase.cutoff, c);
    }
  }

  lemma StepKeepsInv(p: Params, s: State, step: Step)
    requires Inv(p, s) && Enabled(p, s, step) && p.delay + p.gap <= AGE_FLOOR
    ensures Inv(p, Apply(p, s, step))
  {
    if step.ListUser? {
      ListUserKeeps(p, s, step.user, step.keys);
    } else if step.ReadManaged? || step.ReadClock? || step.Abort? || step.Decide? || step.RevokeNext? {
      TickStepKeeps(p, s, step);
    } else if IsInsert(step) {
      InsertKeeps(p, s, step);
    } else if IsCommit(step) {
      CommitKeeps(p, s, step);
    } else {
      UpstreamKeeps(p, s, step);
    }
  }

  lemma {:induction false} BehaviourKeepsInv(p: Params, tr: seq<State>, i: nat)
    requires Behaviour(p, tr) && i < |tr| && p.delay + p.gap <= AGE_FLOOR
    ensures Inv(p, tr[i])
  {
    if i > 0 {
      BehaviourKeepsInv(p, tr, i - 1);
      assert NextAt(p, tr, i - 1);
      var step :| Enabled(p, tr[i - 1], step) && tr[i] == Apply(p, tr[i - 1], step);
      StepKeepsInv(p, tr[i - 1], step);
    }
  }

  /** At any point of any run, every key the reaper is about to revoke is one this release minted
      and stamped, and the row of its key id is absent or revoked at that very moment. */
  lemma ReaperSparesManaged(p: Params, tr: seq<State>, i: nat, c: Candidate)
    requires Behaviour(p, tr) && i < |tr| && p.delay + p.gap <= AGE_FLOOR
    requires tr[i].phase.Revoking? && c in tr[i].phase.pending
    ensures !Live(tr[i], c.achId) && c.achId !in Managed(tr[i])
    ensures c.token in tr[i].minted && c.achId != "" && tr[i].minted[c.token].key.achKeyId == Some(c.achId)
    ensures p.cfg.issuer != "" ==> tr[i].minted[c.token].key.achIssuer == Some(p.cfg.issuer)
  {
    BehaviourKeepsInv(p, tr, i);
    assert CandidateOk(p, tr[i], tr[i].phase.cutoff, c);
  }

  /** A key about to be revoked is so only outside dry run and with no more than MaxRevoke of them, ten
      when that is not positive. */
  lemma {:induction false} ReaperIsGuarded(p: Params, tr: seq<State>, i: nat)
    requires Behaviour(p, tr) && i < |tr| && tr[i].phase.Revoking?
    ensures tr[i].phase.pending != [] ==> !p.cfg.dryRun
    ensures WithinLimit(p.cfg, |tr[i].phase.pending|)
  {
    assert NextAt(p, tr, i - 1);
    if tr[i - 1].phase.Revoking? {
      ReaperIsGuarded(p, tr, i - 1);
    }
  }

  /** A successful call takes exactly that key from LiteLLM, a failed one nothing, and in no run does the
      reaper take a key whose row is live. */
  lemma ReaperKeepsLive(p: Params, tr: seq<State>, i: nat, ok: bool)
    requires Behaviour(p, tr) && i + 1 < |tr| && p.delay + p.gap <= AGE_FLOOR
    requires Enabled(p, tr[i], RevokeNext(ok)) && tr[i + 1] == Apply(p, tr[i], RevokeNext(ok))
    ensures !ok ==> tr[i + 1].upstream == tr[i].upstream
    ensures ok ==> forall t :: t in tr[i + 1].upstream <==> t in tr[i].upstream && t != tr[i].phase.pending[0].token
    ensures forall t | t in tr[i].upstream && t in tr[i].minted && tr[i].minted[t].key.achKeyId.Some?
              && Live(tr[i], tr[i].minted[t].key.achKeyId.value) :: t in tr[i + 1].upstream
  {
    ReaperSparesManaged(p, tr, i, tr[i].phase.pending[0]);
  }

  // ----- The bound is tight

  ghost predicate EndangersLive(s: State) {
    s.phase.Revoking? && exists c :: c in s.phase.pending && Live(s, c.achId)
  }

  function FreshEk(now: int): (r: EkRow) {
    EkRow("env", "owner", "", false, Active, now, None, None, None)
  }

  lemma OneOrphan(user: string, k: UserKey, managed: set<string>, issuer: string, cutoff: int)
    requires IsOrphan(k, managed, issuer, cutoff)
    ensures Orphans(user, [k], managed, issuer, cutoff) == [CandidateOf(user, k)]
  {
  }

  lemma Extend(p: Params, tr: seq<State>, step: Step) returns (tr': seq<State>)
    requires Behaviour(p, tr) && Enabled(p, tr[|tr| - 1], step)
    ensures Behaviour(p, tr') && tr'[|tr'| - 1] == Apply(p, tr[|tr| - 1], step)
  {
    var s := tr[|tr| - 1];
    tr' := tr + [Apply(p, s, step)];
    forall i | 0 <= i < |tr'| - 1 ensures NextAt(p, tr', i) {
      if i < |tr| - 1 {
        assert NextAt(p, tr, i);
      } else {
        assert Enabled(p, s, step) && tr'[i + 1] == Apply(p, s, step);
      }
    }
  }

  function LateKey(cfg: Config): (k: UserKey) {
    UserKey("t", 0, Some("ekid_x"), Some(cfg.issuer))
  }

  /** A key is minted at 0 and the managed set is read `delay` later, just before its row comes. */
  lemma ReadBeforeInsert(p: Params) returns (tr: seq<State>)
    ensures Behaviour(p, tr)
    ensures tr[|tr| - 1] == State(p.delay, map[], map["ekid_y" := FreshEk(0)],
                                  map["t" := Minted("u", LateKey(p.cfg))], {"t"}, HaveManaged({"ekid_y"}, p.delay))
  {
    tr := [State(0, map[], map[], map[], {}, Resting)];
    tr := Extend(p, tr, InsertEk("ekid_y", FreshEk(0)));
    tr := Extend(p, tr, Mint("u", LateKey(p.cfg)));
    tr := Extend(p, tr, Tick(p.delay));
    assert Managed(tr[|tr| - 1]) == {"ekid_y"};
    tr := Extend(p, tr, ReadManaged);
  }

  /** With a looser delay and gap there is a run in which the reaper is about to revoke a live key. */
  lemma DelayBoundTight(p: Params)
    requires p.delay + p.gap > AGE_FLOOR && !p.cfg.dryRun
    ensures exists tr :: Behaviour(p, tr) && EndangersLive(tr[|tr| - 1])
  {
    var tr := ReadBeforeInsert(p);
    tr := Extend(p, tr, InsertEk("ekid_x", FreshEk(p.delay)));
    tr := Extend(p, tr, Tick(p.gap));
    tr := Extend(p, tr, ReadClock);
    var cutoff := p.delay + p.gap - AGE_FLOOR;
    tr := Extend(p, tr, ListUser("u", [LateKey(p.cfg)]));
    OneOrphan("u", LateKey(p.cfg), {"ekid_y"}, p.cfg.issuer, cutoff);
    tr := Extend(p, tr, Decide);
    var s := tr[|tr| - 1];
    assert s.phase.pending[0] in s.phase.pending && Live(s, "ekid_x");
  }
}
