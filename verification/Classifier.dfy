/** The classifier's resumable scan over idle sessions (ee/classifier/job.go) and the listing
    it runs against (ee/classifier/reader.go). */
module Classifier {
  import opened Strings

  const MAX_ATTEMPTS: nat := 3

  /** A listed session and its last generation; also the form of the cursor. */
  datatype Row = Row(last: int, id: string)

  /** The order of the listing: last generation, then session id. */
  predicate Before(a: Row, b: Row) {
    a.last < b.last || (a.last == b.last && Less(a.id, b.id))
  }

  predicate AtOrBefore(a: Row, b: Row) {
    a == b || Before(a, b)
  }

  lemma BeforeTotal(a: Row, b: Row)
    ensures Before(a, b) || a == b || Before(b, a)
    ensures !(Before(a, b) && Before(b, a)) && !Before(a, a)
  {
    LessTotal(a.id, b.id);
  }

  lemma BeforeTransitive(a: Row, b: Row, c: Row)
    requires Before(a, b) && Before(b, c)
    ensures Before(a, c)
  {
    if a.last == b.last == c.last {
      LessTransitive(a.id, b.id, c.id);
    }
  }

  // ----- One pass

  /** The job's fields, the attempts made so far (newest last) and whether the pass is holding
      its cursor. */
  datatype Scan = Scan(after: Row, fails: map<string, nat>, log: seq<Attempt>, held: bool)

  datatype Attempt = Attempt(row: Row, ok: bool)

  function FailsOf(fails: map<string, nat>, id: string): (n: nat) {
    if id in fails then fails[id] else 0
  }

  /** One session of the loop: a failure below the limit holds the cursor for the rest of the
      pass; a success or the last failure clears the count and moves a cursor not held. */
  function One(s: Scan, row: Row, ok: bool): (r: Scan) {
    var log := s.log + [Attempt(row, ok)];
    var n := FailsOf(s.fails, row.id) + 1;
    if !ok && n < MAX_ATTEMPTS then Scan(s.after, s.fails[row.id := n], log, true)
    else Scan(if s.held then s.after else row, s.fails - {row.id}, log, s.held)
  }

  function Process(s: Scan, rows: seq<Row>, ok: seq<bool>): (r: Scan)
    requires |rows| == |ok|
  {
    if rows == [] then s
    else One(Process(s, rows[..|rows| - 1], ok[..|rows| - 1]), rows[|rows| - 1], ok[|rows| - 1])
  }

  lemma ProcessSnoc(s: Scan, rows: seq<Row>, ok: seq<bool>, n: nat)
    requires n < |rows| && |rows| == |ok|
    ensures Process(s, rows[..n + 1], ok[..n + 1]) == One(Process(s, rows[..n], ok[..n]), rows[n], ok[n])
  {
    assert rows[..n + 1][..n] == rows[..n] && ok[..n + 1][..n] == ok[..n];
  }

  lemma ForgetCount(fails: map<string, nat>, id: string, n: nat)
    ensures fails[id := n] - {id} == fails - {id}
  {
  }

  class Job {
    const batch: int
    var after: Row
    var fails: map<string, nat>

    /** `rows` is what the listing returned, `ok[i]` whether labelling rows[i] succeeds, and the
        context is found cancelled from the given iteration on. A pass takes as many rows as the batch
        allows, all if there are fewer, unless it is cancelled before. */
    method Pass(rows: seq<Row>, ok: seq<bool>, cancelledAt: nat) returns (n: nat)
      requires |ok| == |rows|
      modifies this`after, this`fails
      ensures n <= |rows| && n <= cancelledAt && (batch > 0 ==> n <= batch) && (batch <= 0 ==> n == 0)
      ensures n == |rows| || n == cancelledAt || n >= batch
      ensures
        var r := Process(Scan(old(after), old(fails), [], false), rows[..n], ok[..n]);
        after == r.after && fails == r.fails
    {
      n := 0;
      var held := false;
      ghost var start := Scan(after, fails, [], false);
      ghost var log: seq<Attempt> := [];
      while n < |rows|
        invariant n <= |rows| && n <= cancelledAt && (n == 0 || n <= batch)
        invariant Process(start, rows[..n], ok[..n]) == Scan(after, fails, log, held)
      {
        if n >= batch || n >= cancelledAt {
          break;
        }
        ghost var before := Scan(after, fails, log, held);
        ProcessSnoc(start, rows, ok, n);
        held := Label(rows[n], ok[n], held);
        log := log + [Attempt(rows[n], ok[n])];
        assert Scan(after, fails, log, held) == One(before, rows[n], ok[n]);
        n := n + 1;
      }
    }

    /** The body of the loop: one session. */
    method Label(row: Row, ok: bool, held: bool) returns (held': bool)
      modifies this`after, this`fails
      ensures One(Scan(old(after), old(fails), [], held), row, ok) == Scan(after, fails, [Attempt(row, ok)], held')
    {
      held' := held;
      ForgetCount(fails, row.id, FailsOf(fails, row.id) + 1);
      if !ok {
        fails := fails[row.id := FailsOf(fails, row.id) + 1];
        if fails[row.id] < MAX_ATTEMPTS {
          held' := true;
          return;
        }
      }
      fails := fails - {row.id};
      if !held {
        after := row;
      }
    }
  }

  // ----- The listing

  /** The idle sessions and the ids whose score the listing can already see. */
  datatype World = World(sessions: set<Row>, scored: set<string>)

  /** Listable now: past the cursor and not scored. */
  predicate Visible(w: World, after: Row, row: Row) {
    row in w.sessions && row.id !in w.scored && Before(after, row)
  }

  ghost predicate InOrder(rows: seq<Row>) {
    forall i, j :: 0 <= i < j < |rows| ==> Before(rows[i], rows[j])
  }

  /** One row per session id. */
  ghost predicate OnePerSession(w: World) {
    forall a, b | a in w.sessions && b in w.sessions && a.id == b.id :: a == b
  }

  /** The listing: the first visible rows in order, as many as asked for or all there are. */
  ghost predicate IsListing(w: World, after: Row, limit: nat, rows: seq<Row>) {
    && InOrder(rows) && |rows| <= limit
    && (forall row | row in rows :: Visible(w, after, row))
    && (forall row | Visible(w, after, row) ::
          row in rows || (|rows| == limit && forall x | x in rows :: Before(x, row)))
  }

  // ----- Nothing at or before the cursor is forgotten

  /** Failures of the session since it last succeeded or was given up. */
  function Streak(log: seq<Attempt>, id: string): (n: nat)
    ensures n <= 2
  {
    if log == [] then 0
    else
      var n, last := Streak(log[..|log| - 1], id), log[|log| - 1];
      if last.row.id != id then n else if last.ok || n + 1 >= MAX_ATTEMPTS then 0 else n + 1
  }

  /** The attempt at p is the last one this row gets: it succeeded, or it failed after two
      failures in a row. */
  ghost predicate Settles(log: seq<Attempt>, p: int, row: Row)
    requires 0 <= p < |log|
  {
    log[p].row == row && (log[p].ok || Streak(log[..p], row.id) == 2)
  }

  /** Already scored, or this very row was attempted and settled. */
  ghost predicate Finished(log: seq<Attempt>, scored: set<string>, row: Row) {
    row.id in scored || exists p :: 0 <= p < |log| && Settles(log, p, row)
  }

  /** The counts are the failures in a row that the log shows. */
  ghost predicate CountsOk(s: Scan) {
    forall id :: FailsOf(s.fails, id) == Streak(s.log, id)
  }

  ghost predicate Covered(s: Scan, w: World) {
    forall row | row in w.sessions && AtOrBefore(row, s.after) :: Finished(s.log, w.scored, row)
  }

  lemma LogGrows(log: seq<Attempt>, more: seq<Attempt>, scored: set<string>, row: Row)
    requires Finished(log, scored, row) && log <= more
    ensures Finished(more, scored, row)
  {
    if row.id !in scored {
      var p :| 0 <= p < |log| && Settles(log, p, row);
      assert more[..p] == log[..p];
      assert Settles(more, p, row);
    }
  }

  lemma StreakSnoc(log: seq<Attempt>, a: Attempt, id: string)
    ensures
      var n := Streak(log, id);
      Streak(log + [a], id) == if a.row.id != id then n else if a.ok || n + 1 >= MAX_ATTEMPTS then 0 else n + 1
  {
    assert (log + [a])[..|log|] == log;
  }

  lemma OneKeepsCounts(s: Scan, row: Row, ok: bool)
    requires CountsOk(s)
    ensures CountsOk(One(s, row, ok))
    ensures One(s, row, ok).held || Finished(One(s, row, ok).log, {}, row)
    ensures s.held ==> One(s, row, ok).held && One(s, row, ok).after == s.after
  {
    var r := One(s, row, ok);
    forall id ensures FailsOf(r.fails, id) == Streak(r.log, id) {
      StreakSnoc(s.log, Attempt(row, ok), id);
    }
    if !r.held {
      assert r.log[..|s.log|] == s.log;
      assert Settles(r.log, |s.log|, row);
    }
  }

  /** From s, the scan r reached the k-th row: the cursor is there, all rows up to it are
      finished, and it stopped short only because something held it. */
  ghost predicate Reached(s: Scan, rows: seq<Row>, r: Scan, k: nat) {
    && k <= |rows| && (r.held || k == |rows|)
    && r.after == (if k == 0 then s.after else rows[k - 1])
    && forall i :: 0 <= i < k ==> Finished(r.log, {}, rows[i])
  }

  lemma ReachedSnoc(s: Scan, rows: seq<Row>, m: Scan, k: nat, row: Row, ok: bool)
    requires Reached(s, rows, m, k) && CountsOk(m)
    ensures var r := One(m, row, ok); Reached(s, rows + [row], r, if r.held then k else |rows| + 1)
  {
    var r := One(m, row, ok);
    OneKeepsCounts(m, row, ok);
    forall i | 0 <= i < k ensures Finished(r.log, {}, (rows + [row])[i]) {
      LogGrows(m.log, r.log, {}, rows[i]);
    }
  }

  /** What a scan from s over the rows keeps. */
  ghost predicate Keeps(s: Scan, rows: seq<Row>, r: Scan, k: nat) {
    CountsOk(r) && s.log <= r.log && Reached(s, rows, r, k)
  }

  lemma KeepsSnoc(s: Scan, rows: seq<Row>, m: Scan, k: nat, row: Row, ok: bool) returns (k': nat)
    requires Keeps(s, rows, m, k)
    ensures Keeps(s, rows + [row], One(m, row, ok), k')
  {
    OneKeepsCounts(m, row, ok);
    ReachedSnoc(s, rows, m, k, row, ok);
    k' := if One(m, row, ok).held then k else |rows| + 1;
  }

  /** Any pass reaches some row. */
  lemma {:induction false} ProcessKeeps(s: Scan, rows: seq<Row>, ok: seq<bool>) returns (k: nat)
    requires |rows| == |ok| && CountsOk(s) && !s.held
    ensures Keeps(s, rows, Process(s, rows, ok), k)
  {
    if rows == [] {
      k := 0;
    } else {
      var init, last := rows[..|rows| - 1], rows[|rows| - 1];
      k := ProcessKeeps(s, init, ok[..|rows| - 1]);
      k := KeepsSnoc(s, init, Process(s, init, ok[..|rows| - 1]), k, last, ok[|rows| - 1]);
      assert rows == init + [last];
    }
  }

  /** A pass over any listing, with any mix of failures, cut-offs and scored sessions, never moves
      the cursor back and leaves everything at or before it finished. */
  lemma PassKeepsCovered(s: Scan, w: World, limit: nat, rows: seq<Row>, n: nat, ok: seq<bool>)
    requires CountsOk(s) && Covered(s, w) && !s.held
    requires IsListing(w, s.after, limit, rows) && n <= |rows| && |ok| == n
    ensures
      var r := Process(s, rows[..n], ok);
      CountsOk(r) && Covered(r, w) && AtOrBefore(s.after, r.after) && s.log <= r.log
  {
    var taken := rows[..n];
    var k := ProcessKeeps(s, taken, ok);
    var r := Process(s, taken, ok);
    if k > 0 {
      assert rows[k - 1] in rows && r.after == rows[k - 1];
      assert Visible(w, s.after, r.after);
    }
    forall row | row in w.sessions && AtOrBefore(row, r.after) ensures Finished(r.log, w.scored, row) {
      if AtOrBefore(row, s.after) {
        LogGrows(s.log, r.log, w.scored, row);
      } else if row.id !in w.scored {
        BeforeTotal(row, s.after);
        CoveredRow(s, w, limit, rows, k, row);
        var i :| 0 <= i < k && rows[i] == row;
        assert Finished(r.log, {}, taken[i]);
      }
    }
  }

  /** A visible row at or before rows[k-1] is one of rows[..k]. */
  lemma CoveredRow(s: Scan, w: World, limit: nat, rows: seq<Row>, k: nat, row: Row)
    requires IsListing(w, s.after, limit, rows) && 0 < k <= |rows|
    requires Visible(w, s.after, row) && AtOrBefore(row, rows[k - 1])
    ensures exists i :: 0 <= i < k && rows[i] == row
  {
    BeforeTotal(row, rows[k - 1]);
    assert rows[k - 1] in rows;
    assert row in rows;
    var i :| 0 <= i < |rows| && rows[i] == row;
    if i >= k {
      BeforeTotal(rows[k - 1], rows[i]);
    }
  }

  lemma {:induction false} ProcessLogs(s: Scan, rows: seq<Row>, ok: seq<bool>)
    requires |rows| == |ok|
    ensures
      var log := Process(s, rows, ok).log;
      && |log| == |s.log| + |rows| && s.log <= log
      && forall i :: 0 <= i < |rows| ==> log[|s.log| + i] == Attempt(rows[i], ok[i])
  {
    if rows != [] {
      ProcessLogs(s, rows[..|rows| - 1], ok[..|rows| - 1]);
    }
  }

  /** A pass attempts each row it takes once, in order; none of them was scored when it was listed, and
      all lie past the cursor. */
  lemma AttemptsWereListed(s: Scan, w: World, limit: nat, rows: seq<Row>, n: nat, ok: seq<bool>)
    requires IsListing(w, s.after, limit, rows) && n <= |rows| && |ok| == n
    ensures
      var log := Process(s, rows[..n], ok).log;
      && |log| == |s.log| + n <= |s.log| + limit
      && forall p | |s.log| <= p < |log| ::
           && log[p] == Attempt(rows[p - |s.log|], ok[p - |s.log|])
           && log[p].row in w.sessions && log[p].row.id !in w.scored
           && (s.after.last < log[p].row.last || (s.after.last == log[p].row.last && Less(s.after.id, log[p].row.id)))
           && forall q | p < q < |log| :: log[p].row.last <= log[q].row.last && log[p].row != log[q].row
  {
    ProcessLogs(s, rows[..n], ok);
    var log := Process(s, rows[..n], ok).log;
    forall p | |s.log| <= p < |log|
      ensures log[p] == Attempt(rows[p - |s.log|], ok[p - |s.log|])
      ensures log[p].row in w.sessions && log[p].row.id !in w.scored && Before(s.after, log[p].row)
    {
      assert rows[..n][p - |s.log|] in rows;
    }
    forall p, q | |s.log| <= p < q < |log|
      ensures log[p].row.last <= log[q].row.last && log[p].row != log[q].row
    {
      BeforeTotal(rows[p - |s.log|], rows[q - |s.log|]);
    }
  }

  // ----- Whole runs

  /** Between passes sessions appear past the cursor or go, and scores become visible. */
  ghost predicate WorldMoves(s: Scan, w: World, w': World) {
    && (forall row | row in w'.sessions && row !in w.sessions :: Before(s.after, row))
    && w.scored <= w'.scored
  }

  ghost predicate PassStep(limit: nat, s: Scan, w: World, s': Scan) {
    exists rows, n: nat, ok ::
      IsListing(w, s.after, limit, rows) && n <= |rows| && |ok| == n
      && s' == Process(s, rows[..n], ok).(held := false)
  }

  /** A run alternates passes and changes of the world. */
  datatype Moment = Moment(scan: Scan, world: World)

  ghost predicate RunStep(limit: nat, m: Moment, m': Moment) {
    || (m'.world == m.world && PassStep(limit, m.scan, m.world, m'.scan))
    || (m'.scan == m.scan && WorldMoves(m.scan, m.world, m'.world))
  }

  ghost predicate StepAt(limit: nat, run: seq<Moment>, i: int)
    requires 0 <= i < |run| - 1
  {
    RunStep(limit, run[i], run[i + 1])
  }

  /** The job starts with no counts and a cursor before every session. */
  ghost predicate Run(limit: nat, run: seq<Moment>) {
    && run != [] && run[0].scan.fails == map[] && run[0].scan.log == [] && !run[0].scan.held
    && (forall row | row in run[0].world.sessions :: Before(run[0].scan.after, row))
    && forall i :: 0 <= i < |run| - 1 ==> StepAt(limit, run, i)
  }

  lemma {:induction false} RunKeeps(limit: nat, run: seq<Moment>, i: nat)
    requires Run(limit, run) && i < |run|
    ensures CountsOk(run[i].scan) && Covered(run[i].scan, run[i].world) && !run[i].scan.held
    ensures i > 0 ==> AtOrBefore(run[i - 1].scan.after, run[i].scan.after)
  {
    if i == 0 {
      forall row | row in run[0].world.sessions ensures !AtOrBefore(row, run[0].scan.after) {
        BeforeTotal(row, run[0].scan.after);
      }
    } else {
      RunKeeps(limit, run, i - 1);
      assert StepAt(limit, run, i - 1);
      StepKeeps(limit, run[i - 1], run[i]);
    }
  }

  lemma StepKeeps(limit: nat, m: Moment, m': Moment)
    requires RunStep(limit, m, m') && CountsOk(m.scan) && Covered(m.scan, m.world) && !m.scan.held
    ensures CountsOk(m'.scan) && Covered(m'.scan, m'.world) && !m'.scan.held
    ensures AtOrBefore(m.scan.after, m'.scan.after)
  {
    if m'.world == m.world && PassStep(limit, m.scan, m.world, m'.scan) {
      var rows, n: nat, ok :| IsListing(m.world, m.scan.after, limit, rows) && n <= |rows| && |ok| == n
                              && m'.scan == Process(m.scan, rows[..n], ok).(held := false);
      PassKeepsCovered(m.scan, m.world, limit, rows, n, ok);
      var r := Process(m.scan, rows[..n], ok);
      assert Covered(m'.scan, m.world) by {
        assert m'.scan.log == r.log && m'.scan.after == r.after;
      }
    } else {
      forall row | row in m'.world.sessions && AtOrBefore(row, m'.scan.after)
        ensures Finished(m'.scan.log, m'.world.scored, row)
      {
        BeforeTotal(row, m.scan.after);
        assert row in m.world.sessions;
        assert Finished(m.scan.log, m.world.scored, row);
      }
    }
  }

  /** At every point of every run each row at or before the cursor is already scored or was itself
      attempted and settled, and the cursor only moves forward. */
  lemma {:induction false} NothingForgotten(limit: nat, run: seq<Moment>, i: nat, j: nat)
    requires Run(limit, run) && i <= j < |run|
    ensures Covered(run[j].scan, run[j].world)
    ensures AtOrBefore(run[i].scan.after, run[j].scan.after)
    decreases j - i
  {
    RunKeeps(limit, run, j);
    if i < j {
      NothingForgotten(limit, run, i, j - 1);
      if run[i].scan.after != run[j - 1].scan.after && run[j - 1].scan.after != run[j].scan.after {
        BeforeTransitive(run[i].scan.after, run[j - 1].scan.after, run[j].scan.after);
      }
    }
  }
}
