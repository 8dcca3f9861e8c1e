/** Why the staleness bound orders its two refusals: an exchange JWT reads its row and its grants in
    two statements, and a lookup that straddles a change of each succeeds. */
module KeyCacheLimits {
  import opened Strings
  import opened KeyRows
  import opened KeyGrant
  import opened KeyCache
  import opened KeyCacheProofs
  import opened KeyCacheExact

  function Jwt(delta: nat): (c: Cred) {
    ExchangeJwt("ekid_x", 3 * TTL + delta)
  }

  function Row(status: Status): (r: EkRow) {
    EkRow("env", "owner", "sa", true, status, 0, None, None, None)
  }

  function Cover(): (g: Grant) {
    Grant("ns", "g", "owner", ["env"], ["sa"], None, "")
  }

  lemma CoverAllows(row: EkRow)
    requires row.owner == "owner" && row.environment == "env" && row.requester == "sa"
    ensures ResolverAllows([Cover()], KeyOf("ekid_x", row)) && !ResolverAllows([], KeyOf("ekid_x", row))
  {
  }

  function At(now: int, rows: map<KeyId, EkRow>, grants: seq<Grant>): (s: State) {
    State(now, Db(map[], rows, grants), map[], [], map[], map[])
  }

  /** An active key without a grant; a minute (+ delta) later it is suspended, and only then granted. */
  function History(delta: nat): (tr: seq<State>) {
    var t, active, suspended := TTL + delta, map["ekid_x" := Row(Active)], map["ekid_x" := Row(Suspended)];
    [At(0, map[], []), At(0, active, []), At(t, active, []), At(t, suspended, []), At(t, suspended, [Cover()])]
  }

  lemma HistoryIsBehaviour(delta: nat)
    ensures Behaviour(delta, History(delta))
  {
    var tr := History(delta);
    assert NextAt(delta, tr, 0) by {
      assert Enabled(delta, tr[0], InsertEk("ekid_x", Row(Active)));
      assert tr[1] == Apply(delta, tr[0], InsertEk("ekid_x", Row(Active)));
    }
    assert NextAt(delta, tr, 1) by {
      assert Enabled(delta, tr[1], Tick(TTL + delta)) && tr[2] == Apply(delta, tr[1], Tick(TTL + delta));
    }
    assert NextAt(delta, tr, 2) by {
      assert Enabled(delta, tr[2], EkCommit("ekid_x", SuspendedAt(TTL + delta)));
      assert tr[3] == Apply(delta, tr[2], EkCommit("ekid_x", SuspendedAt(TTL + delta)));
    }
    assert NextAt(delta, tr, 3) by {
      assert Enabled(delta, tr[3], SetGrants([Cover()])) && tr[4] == Apply(delta, tr[3], SetGrants([Cover()]));
    }
  }

  predicate Refuses(s: State, cred: Cred) {
    RowRefuses(s, cred) || GrantsRefuse(s, cred)
  }

  lemma HistoryRefuses(delta: nat, n: nat)
    requires 1 <= n <= 4
    ensures Refuses(History(delta)[n], Jwt(delta))
  {
    CoverAllows(Row(Active));
    assert n == 1 || n == 2 || n == 3 || n == 4;
  }

  lemma HistoryOpens(delta: nat)
    ensures Opens(delta, History(delta), Opening(2, 2, 4, 4, 4), 4, Jwt(delta))
  {
    LookupIsAlike(History(delta)[2], Jwt(delta));
    CoverAllows(Row(Suspended));
  }

  lemma AlikeRefuse(r: State, s: State, cred: Cred)
    requires Alike(r, s) && Refuses(s, cred)
    ensures Refuses(r, cred)
  {
    AlikeRow(r, s, cred);
    AlikeGrants(r, s, cred);
  }

  /** A run passes every state of the history it follows. */
  lemma {:induction false} Passes(delta: nat, run: Run, tr: seq<State>, n: nat, from: nat) returns (i: nat)
    requires Follows(delta, run, tr) && from < |run.at| && n <= run.at[from]
    ensures i <= from && run.at[i] == n
  {
    if run.at[from] == n {
      i := from;
    } else {
      i := Passes(delta, run, tr, n, from - 1);
    }
  }

  /** From state `i` on the row or the grants refuse the bearer at every moment, and yet a hit a
      minute (+ delta) later serves it. */
  ghost predicate ServedThoughRefused(delta: nat, tr: seq<State>, i: nat, cred: Cred) {
    && Behaviour(delta, tr) && i < |tr| && tr[i].now + TTL + delta <= tr[|tr| - 1].now
    && (forall k | i <= k < |tr| :: Refuses(tr[k], cred))
    && Hit(tr[|tr| - 1].redis, cred, tr[|tr| - 1].now).Some?
  }

  lemma MixedRefusalServes(delta: nat)
    ensures exists tr, i, cred :: ServedThoughRefused(delta, tr, i, cred)
  {
    var tr, cred := History(delta), Jwt(delta);
    HistoryIsBehaviour(delta);
    HistoryOpens(delta);
    var run := OpeningServes(delta, tr, Opening(2, 2, 4, 4, 4), 4, cred);
    var i := Passes(delta, run, tr, 1, |run.at| - 1);
    forall k | i <= k < |run.states| ensures Refuses(run.states[k], cred) {
      FollowsInOrder(delta, run, tr, i, k);
      HistoryRefuses(delta, run.at[k]);
      AlikeRefuse(run.states[k], tr[run.at[k]], cred);
    }
    assert Alike(run.states[i], tr[1]) && Alike(Last(run), tr[4]);
    assert ServedThoughRefused(delta, run.states, i, cred);
  }
}
