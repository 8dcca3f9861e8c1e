/** The staleness bound is exact: whenever a history of rows, grants and clock readings leaves room for a
    lookup that accepts a bearer, and for storing what it found, some run through that very history
    serves the bearer from the cache now. */
module KeyCacheExact {
  import opened Strings
  import opened KeyRows
  import opened KeyGrant
  import opened KeyCache
  import opened KeyCacheProofs

  // ----- Runs through the same history

  predicate SameButUse(a: EkRow, b: EkRow) {
    a.(lastUsedAt := None) == b.(lastUsedAt := None)
  }

  /** The same clock and database, up to when environment keys were last used. */
  ghost predicate Alike(r: State, s: State) {
    && r.now == s.now && r.db.personal == s.db.personal && r.db.grants == s.db.grants
    && r.db.environment.Keys == s.db.environment.Keys
    && forall k | k in s.db.environment :: SameButUse(r.db.environment[k], s.db.environment[k])
  }

  /** A run and, for each of its states, the state of the given history it stands at. */
  datatype Run = Run(states: seq<State>, at: seq<nat>)

  /** A behaviour that goes through the history `tr` in order, skipping none of its states. */
  ghost predicate Follows(delta: nat, run: Run, tr: seq<State>) {
    && Behaviour(delta, run.states) && |run.at| == |run.states| && run.at[0] == 0
    && (forall i | 0 <= i < |run.at| :: run.at[i] < |tr| && Alike(run.states[i], tr[run.at[i]]))
    && (forall i | 0 < i < |run.at| :: run.at[i - 1] <= run.at[i] <= run.at[i - 1] + 1)
  }

  function Last(run: Run): (s: State)
    requires run.states != []
  {
    run.states[|run.states| - 1]
  }

  /** `run` follows `tr` up to its state `n`. */
  ghost predicate FollowsTo(delta: nat, run: Run, tr: seq<State>, n: nat) {
    Follows(delta, run, tr) && run.at[|run.at| - 1] == n
  }

  lemma BehaviourSnoc(delta: nat, tr: seq<State>, s: State)
    requires Behaviour(delta, tr) && Next(delta, tr[|tr| - 1], s)
    ensures Behaviour(delta, tr + [s])
  {
    forall i | 0 <= i < |tr + [s]| - 1 ensures NextAt(delta, tr + [s], i) {
      if i < |tr| - 1 {
        assert NextAt(delta, tr, i);
      }
    }
  }

  lemma Snoc(delta: nat, run: Run, tr: seq<State>, n: nat, s: State, n': nat) returns (run': Run)
    requires FollowsTo(delta, run, tr, n) && Next(delta, Last(run), s)
    requires n <= n' <= n + 1 && n' < |tr| && Alike(s, tr[n'])
    ensures FollowsTo(delta, run', tr, n') && Last(run') == s
  {
    run' := Run(run.states + [s], run.at + [n']);
    BehaviourSnoc(delta, run.states, s);
  }

  /** A step of the cache's own, at a standstill of the history. */
  lemma Act(delta: nat, run: Run, tr: seq<State>, n: nat, step: Step) returns (run': Run)
    requires FollowsTo(delta, run, tr, n) && Enabled(delta, Last(run), step)
    requires Alike(Apply(delta, Last(run), step), Last(run))
    ensures FollowsTo(delta, run', tr, n) && Last(run') == Apply(delta, Last(run), step)
  {
    var s := Apply(delta, Last(run), step);
    assert Alike(Last(run), tr[n]);
    run' := Snoc(delta, run, tr, n, s, n);
  }

  /** The commit, tick or idle step that changes rows and clock as `step` does. */
  function Shadow(delta: nat, s: State, step: Step): (w: Step)
    requires Enabled(delta, s, step)
  {
    match step
    case Tick(_) => step
    case PkCommit(_, _) => step
    case EkCommit(_, _) => step
    case InsertPk(_, _) => step
    case InsertEk(_, _) => step
    case SetGrants(_) => step
    case Lookup(f) =>
      (match s.flights[f].cred
       case PkBearer(k) => if k in s.db.personal then PkCommit(k, Use(s.now)) else Tick(0)
       case EkBearer(k) => if k in s.db.environment then EkCommit(k, EkUsed(s.now)) else Tick(0)
       case ExchangeJwt(k, _) => if k in s.db.environment then EkCommit(k, ExchangeUsed(s.now)) else Tick(0)
       case Unrecognised(_) => Tick(0))
    case _ => Tick(0)
  }

  predicate WorldStep(step: Step) {
    step.Tick? || step.PkCommit? || step.EkCommit? || step.InsertPk? || step.InsertEk? || step.SetGrants?
  }

  lemma ShadowOfLookup(delta: nat, s: State, f: nat)
    requires Enabled(delta, s, Lookup(f))
    ensures
      var w := Shadow(delta, s, Lookup(f));
      && WorldStep(w) && Enabled(delta, s, w)
      && Apply(delta, s, w) == s.(db := LookupIn(s.db, s.flights[f].cred, s.flights[f].phase.anchor, s.now).0)
  {
    match s.flights[f].cred {
      case PkBearer(k) =>
        assert k in s.db.personal ==> s.db.personal[k := s.db.personal[k]] == s.db.personal;
      case EkBearer(k) =>
        assert k in s.db.environment ==> s.db.environment[k := s.db.environment[k]] == s.db.environment;
      case ExchangeJwt(k, _) =>
        assert k in s.db.environment ==> s.db.environment[k := s.db.environment[k]] == s.db.environment;
      case Unrecognised(_) =>
    }
  }

  lemma ShadowSame(delta: nat, s: State, step: Step)
    requires Enabled(delta, s, step)
    ensures
      var w := Shadow(delta, s, step);
      && WorldStep(w) && Enabled(delta, s, w)
      && Apply(delta, s, w) == s.(now := Apply(delta, s, step).now, db := Apply(delta, s, step).db)
  {
    if step.Lookup? {
      ShadowOfLookup(delta, s, step.f);
    }
  }

  lemma EkApplyAlike(a: EkRow, b: EkRow, e: EkEvent)
    requires SameButUse(a, b)
    ensures SameButUse(EkApply(a, e), EkApply(b, e))
  {
  }

  /** Commits and ticks keep states alike and touch nothing of the cache. */
  lemma WorldStepAlike(delta: nat, r: State, s: State, w: Step)
    requires Alike(r, s) && WorldStep(w) && Enabled(delta, s, w)
    ensures Enabled(delta, r, w) && Alike(Apply(delta, r, w), Apply(delta, s, w))
    ensures Apply(delta, r, w) == r.(now := Apply(delta, r, w).now, db := Apply(delta, r, w).db)
  {
    if w.EkCommit? {
      EkApplyAlike(r.db.environment[w.id], s.db.environment[w.id], w.ek);
    }
  }

  /** Only the clock and the database differ. */
  ghost predicate OnlyWorld(r: State, r': State) {
    r' == r.(now := r'.now, db := r'.db)
  }

  lemma ReplayStep(delta: nat, r: State, s: State, s': State) returns (r': State)
    requires Alike(r, s) && Next(delta, s, s')
    ensures Next(delta, r, r') && Alike(r', s') && OnlyWorld(r, r')
  {
    var step :| Enabled(delta, s, step) && s' == Apply(delta, s, step);
    var w := Shadow(delta, s, step);
    ShadowSame(delta, s, step);
    WorldStepAlike(delta, r, s, w);
    r' := Apply(delta, r, w);
  }

  /** The history goes on to its state n' while the cache does nothing. */
  lemma {:induction false} ReplayTo(delta: nat, run: Run, tr: seq<State>, n: nat, n': nat) returns (run': Run)
    requires Behaviour(delta, tr) && FollowsTo(delta, run, tr, n) && n <= n' < |tr|
    ensures FollowsTo(delta, run', tr, n') && OnlyWorld(Last(run), Last(run'))
    decreases n' - n
  {
    if n == n' {
      run' := run;
    } else {
      assert NextAt(delta, tr, n);
      var r := ReplayStep(delta, Last(run), tr[n], tr[n + 1]);
      run' := Snoc(delta, run, tr, n, r, n + 1);
      run' := ReplayTo(delta, run', tr, n + 1, n');
    }
  }

  // ----- When a run can serve

  /** The states of a history in which the row accepts, in which it stands as a lookup of it leaves it
      (the same state or the next), in which the grants cover it, and in which a lifetime is measured
      and stored. */
  datatype Opening = Opening(row: nat, after: nat, grants: nat, measured: nat, stored: nat)

  predicate Ordered(o: Opening, j: nat) {
    o.row <= o.after <= o.row + 1 && o.after <= o.grants <= o.measured <= o.stored <= j
  }

  ghost predicate Opens(delta: nat, tr: seq<State>, o: Opening, j: nat, cred: Cred) {
    && Ordered(o, j) && j < |tr|
    && !RowRefuses(tr[o.row], cred) && Alike(Looked(tr[o.row], cred), tr[o.after])
    && !GrantsRefuse(tr[o.grants], cred) && Lasts(delta, tr, o.row, o.measured, o.stored, j, cred)
  }

  ghost predicate Serves(delta: nat, run: Run, tr: seq<State>, j: nat, cred: Cred) {
    FollowsTo(delta, run, tr, j) && Hit(Last(run).redis, cred, Last(run).now).Some?
  }

  /** A lookup of an environment credential only changes when its key was last used. */
  lemma LookupIsAlike(s: State, cred: Cred)
    requires !cred.PkBearer?
    ensures Alike(Looked(s, cred), s)
  {
  }

  lemma AlikeTransitive(r: State, s: State, t: State)
    requires Alike(r, s) && Alike(s, t)
    ensures Alike(r, t) && Alike(s, r)
  {
  }

  lemma AlikeRow(r: State, s: State, cred: Cred)
    requires Alike(r, s)
    ensures RowRefuses(r, cred) <==> RowRefuses(s, cred)
    ensures !RowRefuses(s, cred) ==> InfoAt(r, cred) == InfoAt(s, cred)
  {
    if !cred.PkBearer? && !cred.Unrecognised? && cred.key in s.db.environment {
      assert SameButUse(r.db.environment[cred.key], s.db.environment[cred.key]);
    }
  }

  lemma AlikeGrants(r: State, s: State, cred: Cred)
    requires Alike(r, s)
    ensures GrantsRefuse(r, cred) <==> GrantsRefuse(s, cred)
  {
    if cred.ExchangeJwt? && cred.key in s.db.environment {
      assert SameButUse(r.db.environment[cred.key], s.db.environment[cred.key]);
      assert KeyOf(cred.key, r.db.environment[cred.key]) == KeyOf(cred.key, s.db.environment[cred.key]);
    }
  }

  lemma LookedAlike(r: State, s: State, cred: Cred)
    requires Alike(r, s)
    ensures Alike(Looked(r, cred), Looked(s, cred))
  {
    if !cred.PkBearer? {
      LookupIsAlike(r, cred);
      LookupIsAlike(s, cred);
      AlikeTransitive(Looked(s, cred), s, s);
      AlikeTransitive(Looked(r, cred), r, s);
      AlikeTransitive(Looked(r, cred), s, Looked(s, cred));
    }
  }

  /** A lookup leaves alike states alike, so it stands wherever the history has its effect. */
  lemma LookupStands(r: State, r': State, s: State, s': State, cred: Cred)
    requires Alike(r, s) && r'.now == r.now && r'.db == Looked(r, cred).db
    ensures Alike(r', s') <==> Alike(Looked(s, cred), s')
  {
    var x, y := Looked(r, cred), Looked(s, cred);
    LookedAlike(r, s, cred);
    AlikeTransitive(x, y, y);
    if Alike(r', s') {
      AlikeTransitive(y, x, s');
    }
    if Alike(y, s') {
      AlikeTransitive(x, y, s');
    }
  }

  // ----- A run that serves

  /** One flight of one caller, and nothing cached. */
  ghost predicate Stage(s: State, cred: Cred, p: Phase, pc: Pc) {
    s.redis == map[] && s.flights == [Flight(cred, p)] && s.callers == map[0 := pc]
  }

  /** The phase after the row has been read. */
  ghost predicate HasRead(p: Phase, cred: Cred, anchor: int, info: KeyInfo) {
    if cred.ExchangeJwt? then p.HaveRow? && p.anchor == anchor && InfoOf(cred, p.row) == info
    else p == Done(anchor, Some(info))
  }

  lemma Joining(delta: nat, run: Run, tr: seq<State>, a: nat, cred: Cred) returns (run': Run)
    requires FollowsTo(delta, run, tr, a)
    requires Last(run).redis == map[] && Last(run).flights == []
    requires Last(run).group == map[] && Last(run).callers == map[]
    ensures FollowsTo(delta, run', tr, a) && Stage(Last(run'), cred, Started, Waiting(0))
  {
    run' := Act(delta, run, tr, a, Miss(0, cred));
    run' := Act(delta, run', tr, a, Join(0, 0));
  }

  lemma Anchoring(delta: nat, tr: seq<State>, a: nat, cred: Cred) returns (run: Run)
    requires Behaviour(delta, tr) && a < |tr|
    ensures FollowsTo(delta, run, tr, a) && Stage(Last(run), cred, Anchored(tr[a].now), Waiting(0))
  {
    run := Run([tr[0]], [0]);
    run := ReplayTo(delta, run, tr, 0, a);
    run := Joining(delta, run, tr, a, cred);
    run := Act(delta, run, tr, a, TakeAnchor(0));
  }

  lemma LookupReads(delta: nat, s: State, cred: Cred, anchor: int)
    requires !RowRefuses(s, cred) && Stage(s, cred, Anchored(anchor), Waiting(0))
    ensures
      var s' := Apply(delta, s, Lookup(0));
      && s'.now == s.now && s'.db == Looked(s, cred).db && |s'.flights| == 1
      && HasRead(s'.flights[0].phase, cred, anchor, InfoAt(s, cred))
      && Stage(s', cred, s'.flights[0].phase, Waiting(0))
  {
  }

  lemma Reading(delta: nat, tr: seq<State>, o: Opening, j: nat, cred: Cred) returns (run: Run, p: Phase)
    requires Behaviour(delta, tr) && Opens(delta, tr, o, j, cred)
    ensures FollowsTo(delta, run, tr, o.after) && Stage(Last(run), cred, p, Waiting(0))
    ensures HasRead(p, cred, tr[o.row].now, InfoAt(tr[o.row], cred))
  {
    run := Anchoring(delta, tr, o.row, cred);
    var s, t := Last(run), tr[o.row];
    assert Alike(s, t);
    AlikeRow(s, t, cred);
    LookupReads(delta, s, cred, t.now);
    var s' := Apply(delta, s, Lookup(0));
    LookupStands(s, s', t, tr[o.after], cred);
    run := Snoc(delta, run, tr, o.row, s', o.after);
    p := s'.flights[0].phase;
  }

  lemma Granting(delta: nat, run: Run, tr: seq<State>, b: nat, cred: Cred, anchor: int, info: KeyInfo, p: Phase)
    returns (run': Run)
    requires FollowsTo(delta, run, tr, b) && !GrantsRefuse(tr[b], cred)
    requires Stage(Last(run), cred, p, Waiting(0)) && HasRead(p, cred, anchor, info)
    ensures FollowsTo(delta, run', tr, b) && Stage(Last(run'), cred, Done(anchor, Some(info)), Waiting(0))
  {
    run' := run;
    if cred.ExchangeJwt? {
      var s := Last(run);
      assert Alike(s, tr[b]);
      BehaviourKeepsInv(delta, run.states, |run.states| - 1);
      assert FlightOk(s.db, s.now, s.flights[0]);
      assert KeyOf(cred.key, p.row) == KeyOf(cred.key, tr[b].db.environment[cred.key]);
      run' := Act(delta, run, tr, b, ReadGrants(0));
    }
  }

  lemma Measuring(delta: nat, run: Run, tr: seq<State>, b: nat, cred: Cred, anchor: int, info: KeyInfo)
    returns (run': Run)
    requires FollowsTo(delta, run, tr, b) && Stage(Last(run), cred, Done(anchor, Some(info)), Waiting(0))
    ensures FollowsTo(delta, run', tr, b)
    ensures Stage(Last(run'), cred, Done(anchor, Some(info)), Measured(0, Elapse(anchor, tr[b].now), tr[b].now))
  {
    run' := Act(delta, run, tr, b, Deliver(0));
    run' := Act(delta, run', tr, b, Measure(0));
  }

  lemma Checking(delta: nat, run: Run, tr: seq<State>, b: nat, cred: Cred, anchor: int, info: KeyInfo, left: int)
    returns (run': Run)
    requires FollowsTo(delta, run, tr, b) && Unexpired(info.expiresAt, tr[b].now)
    requires Stage(Last(run), cred, Done(anchor, Some(info)), Measured(0, left, tr[b].now))
    ensures FollowsTo(delta, run', tr, b)
    ensures Stage(Last(run'), cred, Done(anchor, Some(info)),
                  Checked(0, CapAt(left, info.expiresAt, tr[b].now), tr[b].now))
  {
    run' := Act(delta, run, tr, b, Cap(0));
    run' := Act(delta, run', tr, b, Check(0));
  }

  /** When an entry measured in state m and stored in state t ends. */
  function Deadline(tr: seq<State>, m: nat, t: nat, anchor: int, info: KeyInfo): (d: int)
    requires m < |tr| && t < |tr|
  {
    tr[t].now + CapAt(Elapse(anchor, tr[m].now), info.expiresAt, tr[m].now)
  }

  /** The caller measures in state m and stores in state t what its flight found. */
  lemma Filling(delta: nat, run: Run, tr: seq<State>, m: nat, t: nat, cred: Cred, anchor: int, info: KeyInfo)
    returns (run': Run)
    requires Behaviour(delta, tr) && FollowsTo(delta, run, tr, m) && m <= t < |tr| && tr[t].now - tr[m].now <= delta
    requires Stage(Last(run), cred, Done(anchor, Some(info)), Waiting(0))
    requires tr[t].now < Deadline(tr, m, t, anchor, info) && Unexpired(info.expiresAt, tr[m].now)
    ensures FollowsTo(delta, run', tr, t)
    ensures Last(run').redis == map[cred := Entry(info, Deadline(tr, m, t, anchor, info), 0)]
  {
    run' := Measuring(delta, run, tr, m, cred, anchor, info);
    run' := Checking(delta, run', tr, m, cred, anchor, info, Elapse(anchor, tr[m].now));
    run' := ReplayTo(delta, run', tr, m, t);
    assert Alike(Last(run'), tr[t]);
    run' := Act(delta, run', tr, t, Store(0));
  }

  // ----- The exact condition

  lemma OpenDeadline(delta: nat, tr: seq<State>, o: Opening, j: nat, cred: Cred)
    requires Behaviour(delta, tr) && Opens(delta, tr, o, j, cred)
    ensures
      var info := InfoAt(tr[o.row], cred);
      && tr[o.stored].now <= tr[j].now < Deadline(tr, o.measured, o.stored, tr[o.row].now, info)
      && Unexpired(info.expiresAt, tr[o.measured].now)
  {
    ClockAdvances(delta, tr, o.measured, o.stored);
    ClockAdvances(delta, tr, o.stored, j);
  }

  lemma Storing(delta: nat, tr: seq<State>, o: Opening, j: nat, cred: Cred) returns (run: Run, e: Entry)
    requires Behaviour(delta, tr) && Opens(delta, tr, o, j, cred)
    ensures FollowsTo(delta, run, tr, o.stored) && Last(run).redis == map[cred := e]
    ensures tr[j].now < e.deadline && Unexpired(e.info.expiresAt, tr[j].now)
  {
    var anchor, info := tr[o.row].now, InfoAt(tr[o.row], cred);
    OpenDeadline(delta, tr, o, j, cred);
    var p: Phase;
    run, p := Reading(delta, tr, o, j, cred);
    run := ReplayTo(delta, run, tr, o.after, o.grants);
    run := Granting(delta, run, tr, o.grants, cred, anchor, info, p);
    run := ReplayTo(delta, run, tr, o.grants, o.measured);
    run := Filling(delta, run, tr, o.measured, o.stored, cred, anchor, info);
    e := Entry(info, Deadline(tr, o.measured, o.stored, anchor, info), 0);
  }

  lemma OpeningServes(delta: nat, tr: seq<State>, o: Opening, j: nat, cred: Cred) returns (run: Run)
    requires Behaviour(delta, tr) && Opens(delta, tr, o, j, cred)
    ensures Serves(delta, run, tr, j, cred)
  {
    var e: Entry;
    run, e := Storing(delta, tr, o, j, cred);
    run := ReplayTo(delta, run, tr, o.stored, j);
    assert Alike(Last(run), tr[j]);
  }

  lemma {:induction false} FollowsInOrder(delta: nat, run: Run, tr: seq<State>, i: nat, j: nat)
    requires Follows(delta, run, tr) && i <= j < |run.at|
    ensures run.at[i] <= run.at[j]
    decreases j - i
  {
    if i < j {
      FollowsInOrder(delta, run, tr, i, j - 1);
    }
  }

  /** The opening that the justification of a hit leaves in the history the run goes through. */
  function OpeningOf(run: Run, w: Window): (o: Opening)
    requires w.row + 1 < |run.at| && w.grants < |run.at| && w.measured < |run.at| && w.stored < |run.at|
  {
    Opening(run.at[w.row], run.at[w.row + 1], run.at[w.grants], run.at[w.measured], run.at[w.stored])
  }

  lemma OpeningOrdered(delta: nat, run: Run, tr: seq<State>, w: Window)
    requires Follows(delta, run, tr) && Sequential(w, |run.at| - 1)
    ensures Ordered(OpeningOf(run, w), run.at[|run.at| - 1])
  {
    FollowsInOrder(delta, run, tr, w.row + 1, w.grants);
    FollowsInOrder(delta, run, tr, w.grants, w.measured);
    FollowsInOrder(delta, run, tr, w.measured, w.stored);
    FollowsInOrder(delta, run, tr, w.stored, |run.at| - 1);
  }

  lemma AlikeAt(delta: nat, run: Run, tr: seq<State>, i: nat)
    requires Follows(delta, run, tr) && i < |run.at|
    ensures run.at[i] < |tr| && Alike(run.states[i], tr[run.at[i]])
  {
  }

  lemma SameTimes(delta: nat, run: Run, tr: seq<State>, w: Window)
    requires Follows(delta, run, tr) && Sequential(w, |run.at| - 1)
    ensures run.at[w.measured] < |tr| && run.states[w.measured].now == tr[run.at[w.measured]].now
    ensures run.at[w.stored] < |tr| && run.states[w.stored].now == tr[run.at[w.stored]].now
    ensures run.at[|run.at| - 1] < |tr| && Last(run).now == tr[run.at[|run.at| - 1]].now
  {
    AlikeAt(delta, run, tr, w.measured);
    AlikeAt(delta, run, tr, w.stored);
    AlikeAt(delta, run, tr, |run.at| - 1);
  }

  lemma SameReads(delta: nat, run: Run, tr: seq<State>, w: Window, j: nat, cred: Cred)
    requires Follows(delta, run, tr) && Sequential(w, j) && j < |run.at| && Justifies(delta, run.states, w, j, cred)
    ensures
      var o := OpeningOf(run, w);
      && o.row < |tr| && o.after < |tr| && o.grants < |tr| && run.states[w.row].now == tr[o.row].now
      && !RowRefuses(tr[o.row], cred) && InfoAt(run.states[w.row], cred) == InfoAt(tr[o.row], cred)
      && Alike(Looked(tr[o.row], cred), tr[o.after]) && !GrantsRefuse(tr[o.grants], cred)
  {
    var o := OpeningOf(run, w);
    AlikeAt(delta, run, tr, w.row);
    AlikeAt(delta, run, tr, w.row + 1);
    AlikeAt(delta, run, tr, w.grants);
    AlikeRow(run.states[w.row], tr[o.row], cred);
    LookupStands(run.states[w.row], run.states[w.row + 1], tr[o.row], tr[o.after], cred);
    AlikeGrants(run.states[w.grants], tr[o.grants], cred);
  }

  lemma LastsAlso(delta: nat, a: seq<State>, w: Window, i: nat, tr: seq<State>, o: Opening, j: nat, cred: Cred)
    requires Sequential(w, i) && i < |a| && Justifies(delta, a, w, i, cred) && Ordered(o, j) && j < |tr|
    requires a[w.row].now == tr[o.row].now && a[w.measured].now == tr[o.measured].now
    requires a[w.stored].now == tr[o.stored].now && a[i].now == tr[j].now
    requires !RowRefuses(tr[o.row], cred) && InfoAt(a[w.row], cred) == InfoAt(tr[o.row], cred)
    ensures Lasts(delta, tr, o.row, o.measured, o.stored, j, cred)
  {
  }

  /** A run that serves has an opening in the history it goes through. */
  lemma ServingHadOpening(delta: nat, run: Run, tr: seq<State>, j: nat, cred: Cred) returns (o: Opening)
    requires Serves(delta, run, tr, j, cred)
    ensures Opens(delta, tr, o, j, cred)
  {
    var last := |run.states| - 1;
    var w := HitJustified(delta, run.states, last, cred);
    o := OpeningOf(run, w);
    assert Ordered(o, j) by {
      OpeningOrdered(delta, run, tr, w);
    }
    SameReads(delta, run, tr, w, last, cred);
    assert Lasts(delta, tr, o.row, o.measured, o.stored, j, cred) by {
      SameTimes(delta, run, tr, w);
      LastsAlso(delta, run.states, w, last, tr, o, j, cred);
    }
  }

  /** A run through this history can serve the bearer from the cache now exactly when the history has an
      opening, whatever the time allowed between measuring a lifetime and storing it. */
  lemma ServedIffOpening(delta: nat, tr: seq<State>, j: nat, cred: Cred)
    requires Behaviour(delta, tr) && j < |tr|
    ensures (exists run :: Serves(delta, run, tr, j, cred)) <==> (exists o :: Opens(delta, tr, o, j, cred))
  {
    if run :| Serves(delta, run, tr, j, cred) {
      var o := ServingHadOpening(delta, run, tr, j, cred);
    }
    if o :| Opens(delta, tr, o, j, cred) {
      var run := OpeningServes(delta, tr, o, j, cred);
    }
  }
}
