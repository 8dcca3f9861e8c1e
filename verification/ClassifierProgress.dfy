/** The classifier always gets somewhere: a measure that every uncancelled pass lowers, and the
    number of passes it needs for a fixed population of sessions. */
module ClassifierProgress {
  import opened Classifier

  // ----- What a pass does to its first row

  ghost predicate DistinctIds(rows: seq<Row>) {
    forall i, j :: 0 <= i < j < |rows| ==> rows[i].id != rows[j].id
  }

  predicate HeadHolds(s: Scan, row: Row, ok: bool) {
    !ok && FailsOf(s.fails, row.id) + 1 < MAX_ATTEMPTS
  }

  /** If the first row fails below the limit its count goes up by one and the cursor stays; otherwise
      the cursor ends on one of the rows taken. */
  lemma {:induction false} HeadEffect(s: Scan, rows: seq<Row>, ok: seq<bool>)
    requires |rows| == |ok| >= 1 && !s.held && DistinctIds(rows)
    ensures
      var r := Process(s, rows, ok);
      if HeadHolds(s, rows[0], ok[0])
      then r.held && r.after == s.after && FailsOf(r.fails, rows[0].id) == FailsOf(s.fails, rows[0].id) + 1
      else r.after in rows
  {
    var init := rows[..|rows| - 1];
    if init == [] {
      assert Process(s, init, ok[..0]) == s;
    } else {
      assert init[0] == rows[0];
      HeadEffect(s, init, ok[..|rows| - 1]);
      assert forall x | x in init :: x in rows;
      assert rows[|rows| - 1].id != rows[0].id;
    }
  }

  ghost predicate BelowLimit(s: Scan) {
    forall id :: FailsOf(s.fails, id) < MAX_ATTEMPTS
  }

  lemma OneKeepsBelow(s: Scan, row: Row, ok: bool)
    requires BelowLimit(s)
    ensures BelowLimit(One(s, row, ok))
  {
    forall id ensures FailsOf(One(s, row, ok).fails, id) < MAX_ATTEMPTS {
      assert FailsOf(s.fails, id) < MAX_ATTEMPTS;
    }
  }

  lemma {:induction false} ProcessKeepsBelow(s: Scan, rows: seq<Row>, ok: seq<bool>)
    requires |rows| == |ok| && BelowLimit(s)
    ensures BelowLimit(Process(s, rows, ok))
  {
    if rows != [] {
      ProcessKeepsBelow(s, rows[..|rows| - 1], ok[..|rows| - 1]);
      OneKeepsBelow(Process(s, rows[..|rows| - 1], ok[..|rows| - 1]), rows[|rows| - 1], ok[|rows| - 1]);
    }
  }

  // ----- The measure

  function VisibleRows(w: World, after: Row): (v: set<Row>) {
    set row | row in w.sessions && Visible(w, after, row)
  }

  ghost predicate IsHead(v: set<Row>, row: Row) {
    row in v && forall x | x in v :: AtOrBefore(row, x)
  }

  ghost function Head(v: set<Row>): (h: Row)
    requires v != {}
    ensures IsHead(v, h)
    decreases |v|
  {
    var x :| x in v;
    var rest := v - {x};
    if rest == {} then
      assert v == {x};
      x
    else
      var h := Head(rest);
      BeforeTotal(x, h);
      assert forall y | y in v :: y == x || y in rest;
      assert Before(x, h) ==> forall y | y in rest :: AtOrBefore(x, y) by {
        if Before(x, h) {
          forall y | y in rest ensures AtOrBefore(x, y) {
            if y != h { BeforeTransitive(x, h, y); }
          }
        }
      }
      if Before(x, h) then x else h
  }

  lemma HeadUnique(v: set<Row>, a: Row, b: Row)
    requires IsHead(v, a) && IsHead(v, b)
    ensures a == b
  {
    BeforeTotal(a, b);
  }

  /** Three points for every session still to pass, less the failures of the one in front. */
  ghost function Measure(s: Scan, w: World): (n: int) {
    var v := VisibleRows(w, s.after);
    if v == {} then 0 else MAX_ATTEMPTS * |v| - FailsOf(s.fails, Head(v).id)
  }

  lemma MeasureBounds(s: Scan, w: World)
    requires BelowLimit(s)
    ensures
      var v := VisibleRows(w, s.after);
      && (v != {} ==> MAX_ATTEMPTS * |v| - 2 <= Measure(s, w))
      && Measure(s, w) <= MAX_ATTEMPTS * |v|
      && (v == {} <==> Measure(s, w) == 0) && 0 <= Measure(s, w)
  {
  }

  lemma SmallerSet(a: set<Row>, b: set<Row>)
    requires a <= b
    ensures |a| <= |b| && (a != b ==> |a| < |b|)
  {
    assert b == a + (b - a);
    assert |b| == |a| + |b - a|;
    if a != b {
      assert b - a != {};
    }
  }

  /** The first listed row is the first visible one. */
  lemma ListingHead(w: World, after: Row, limit: nat, rows: seq<Row>)
    requires IsListing(w, after, limit, rows) && limit > 0
    ensures rows == [] <==> VisibleRows(w, after) == {}
    ensures rows != [] ==> IsHead(VisibleRows(w, after), rows[0])
  {
    var v := VisibleRows(w, after);
    assert forall row | row in v :: Visible(w, after, row);
    if rows != [] {
      assert rows[0] in rows;
      assert rows[0] in v;
      forall x | x in v ensures AtOrBefore(rows[0], x) {
        assert Visible(w, after, x);
        if x in rows {
          var i :| 0 <= i < |rows| && rows[i] == x;
        }
      }
    }
  }

  lemma ListingDistinct(w: World, after: Row, limit: nat, rows: seq<Row>, n: nat)
    requires IsListing(w, after, limit, rows) && OnePerSession(w) && n <= |rows|
    ensures DistinctIds(rows[..n])
  {
    forall i, j | 0 <= i < j < n ensures rows[i].id != rows[j].id {
      assert rows[i] in rows && rows[j] in rows;
      BeforeTotal(rows[i], rows[j]);
    }
  }

  lemma VisibleShrinks(w: World, w': World, a: Row, a': Row)
    requires w'.sessions == w.sessions && w.scored <= w'.scored && AtOrBefore(a, a')
    ensures VisibleRows(w', a') <= VisibleRows(w, a)
  {
    forall row | row in VisibleRows(w', a') ensures row in VisibleRows(w, a) {
      if a != a' {
        BeforeTransitive(a, a', row);
      }
    }
  }

  /** Losing the front session, or one more failure of it, lowers the measure. */
  lemma MeasureFalls(s: Scan, w: World, s': Scan, w': World, head: Row)
    requires BelowLimit(s) && BelowLimit(s') && IsHead(VisibleRows(w, s.after), head)
    requires VisibleRows(w', s'.after) <= VisibleRows(w, s.after)
    requires head in VisibleRows(w', s'.after) ==> FailsOf(s'.fails, head.id) == FailsOf(s.fails, head.id) + 1
    ensures Measure(s', w') < Measure(s, w)
  {
    var v, v' := VisibleRows(w, s.after), VisibleRows(w', s'.after);
    SmallerSet(v', v);
    HeadUnique(v, head, Head(v));
    MeasureBounds(s, w);
    MeasureBounds(s', w');
    if head in v' {
      assert IsHead(v', head);
      HeadUnique(v', head, Head(v'));
    }
  }

  // ----- Passes over a fixed population

  /** The pass from m to m' lists `rows` and labels the first |ok| of them, as many as the batch allows or
      all there are. */
  ghost predicate Passed(batch: nat, m: Moment, m': Moment, rows: seq<Row>, ok: seq<bool>) {
    && IsListing(m.world, m.scan.after, 4 * batch, rows)
    && |ok| <= |rows| && |ok| <= batch && (|ok| == |rows| || |ok| == batch)
    && m'.scan == Process(m.scan, rows[..|ok|], ok).(held := false)
  }

  /** One uncancelled pass with a positive batch, after which more scores may have become visible. */
  ghost predicate FullPass(batch: nat, m: Moment, m': Moment) {
    && batch > 0 && m'.world.sessions == m.world.sessions && m.world.scored <= m'.world.scored
    && exists rows, ok :: Passed(batch, m, m', rows, ok)
  }

  /** A pass either moves the cursor to or past the front session or adds a failure, still below the
      limit, to its count. */
  lemma PassProgress(s: Scan, w: World, limit: nat, rows: seq<Row>, n: nat, ok: seq<bool>)
    requires BelowLimit(s) && !s.held && OnePerSession(w)
    requires IsListing(w, s.after, limit, rows) && 1 <= n <= |rows| && |ok| == n
    ensures
      var r := Process(s, rows[..n], ok);
      || (AtOrBefore(rows[0], r.after) && Before(s.after, r.after))
      || (r.after == s.after && FailsOf(r.fails, rows[0].id) == FailsOf(s.fails, rows[0].id) + 1 < MAX_ATTEMPTS)
  {
    ListingDistinct(w, s.after, limit, rows, n);
    HeadEffect(s, rows[..n], ok);
    var r := Process(s, rows[..n], ok);
    if !HeadHolds(s, rows[0], ok[0]) {
      var i :| 0 <= i < n && rows[..n][i] == r.after;
      assert rows[i] in rows && rows[i] == r.after;
    }
  }

  lemma FullPassProgress(batch: nat, m: Moment, m': Moment)
    requires FullPass(batch, m, m') && BelowLimit(m.scan) && !m.scan.held && OnePerSession(m.world)
    ensures BelowLimit(m'.scan) && !m'.scan.held
    ensures VisibleRows(m'.world, m'.scan.after) <= VisibleRows(m.world, m.scan.after)
    ensures VisibleRows(m.world, m.scan.after) != {} ==> Measure(m'.scan, m'.world) < Measure(m.scan, m.world)
  {
    var rows, ok :| Passed(batch, m, m', rows, ok);
    var r := Process(m.scan, rows[..|ok|], ok);
    ProcessKeepsBelow(m.scan, rows[..|ok|], ok);
    ListingHead(m.world, m.scan.after, 4 * batch, rows);
    if rows == [] {
      VisibleShrinks(m.world, m'.world, m.scan.after, m'.scan.after);
    } else {
      PassProgress(m.scan, m.world, 4 * batch, rows, |ok|, ok);
      VisibleShrinks(m.world, m'.world, m.scan.after, m'.scan.after);
      assert BelowLimit(m'.scan);
      BeforeTotal(rows[0], m'.scan.after);
      MeasureFalls(m.scan, m.world, m'.scan, m'.world, rows[0]);
    }
  }

  ghost predicate PassAt(batch: nat, run: seq<Moment>, i: int)
    requires 0 <= i < |run| - 1
  {
    FullPass(batch, run[i], run[i + 1])
  }

  lemma {:induction false} MeasureAfter(batch: nat, run: seq<Moment>, i: nat)
    requires run != [] && (forall k :: 0 <= k < |run| - 1 ==> PassAt(batch, run, k)) && i < |run|
    requires BelowLimit(run[0].scan) && !run[0].scan.held && OnePerSession(run[0].world)
    ensures BelowLimit(run[i].scan) && !run[i].scan.held && run[i].world.sessions == run[0].world.sessions
    ensures
      var v := VisibleRows(run[i].world, run[i].scan.after);
      v == {} || Measure(run[i].scan, run[i].world) + i <= Measure(run[0].scan, run[0].world)
  {
    if i > 0 {
      MeasureAfter(batch, run, i - 1);
      assert PassAt(batch, run, i - 1);
      assert OnePerSession(run[i - 1].world);
      FullPassProgress(batch, run[i - 1], run[i]);
    }
  }

  /** Three passes per session suffice: after 3N passes over N sessions none is left to list. */
  lemma ThreePassesEach(batch: nat, run: seq<Moment>)
    requires run != [] && (forall k :: 0 <= k < |run| - 1 ==> PassAt(batch, run, k))
    requires BelowLimit(run[0].scan) && !run[0].scan.held && OnePerSession(run[0].world)
    requires |run| > 3 * |run[0].world.sessions|
    ensures
      var end := run[|run| - 1];
      VisibleRows(end.world, end.scan.after) == {}
  {
    var end := run[|run| - 1];
    MeasureAfter(batch, run, |run| - 1);
    MeasureBounds(run[0].scan, run[0].world);
    MeasureBounds(end.scan, end.world);
    SmallerSet(VisibleRows(run[0].world, run[0].scan.after), run[0].world.sessions);
  }

  // ----- Passes in which every label succeeds

  ghost predicate AllTrue(ok: seq<bool>) {
    forall i :: 0 <= i < |ok| ==> ok[i]
  }

  /** The cursor ends on the last row taken, with nothing held. */
  lemma {:induction false} GoodLabels(s: Scan, rows: seq<Row>, ok: seq<bool>)
    requires |rows| == |ok| && AllTrue(ok) && !s.held
    ensures
      var r := Process(s, rows, ok);
      !r.held && r.after == if rows == [] then s.after else rows[|rows| - 1]
  {
    if rows != [] {
      GoodLabels(s, rows[..|rows| - 1], ok[..|rows| - 1]);
    }
  }

  lemma {:induction false} ListedAreMany(rows: seq<Row>)
    requires InOrder(rows)
    ensures |set row | row in rows| == |rows|
  {
    if rows == [] {
      assert (set row | row in rows) == {};
    } else {
      var init, last := rows[..|rows| - 1], rows[|rows| - 1];
      ListedAreMany(init);
      forall i | 0 <= i < |init| ensures init[i] != last {
        BeforeTotal(rows[i], last);
      }
      assert (set row | row in rows) == (set row | row in init) + {last};
    }
  }

  /** What is left to list after the rows up to rows[n - 1]: n fewer, and none when no more were listed. */
  lemma LeftAfter(w: World, after: Row, limit: nat, rows: seq<Row>, n: nat, w': World)
    requires IsListing(w, after, limit, rows) && 1 <= n <= |rows|
    requires w'.sessions == w.sessions && w.scored <= w'.scored
    ensures |VisibleRows(w', rows[n - 1])| <= |VisibleRows(w, after)| - n
    ensures n == |rows| < limit ==> VisibleRows(w', rows[n - 1]) == {}
  {
    var taken, v, v' := rows[..n], VisibleRows(w, after), VisibleRows(w', rows[n - 1]);
    var t := set row | row in taken;
    assert rows[n - 1] in rows;
    assert InOrder(taken);
    ListedAreMany(taken);
    forall row | row in v' ensures row in v && row !in t {
      BeforeTransitive(after, rows[n - 1], row);
      if row in t {
        var i :| 0 <= i < n && taken[i] == row;
        BeforeTotal(rows[i], rows[n - 1]);
      }
    }
    forall row | row in t ensures row in v {
      assert row in rows;
    }
    assert v' <= v - t && |v - t| == |v| - |t|;
    SmallerSet(v', v - t);
    if n == |rows| < limit {
      assert taken == rows;
      forall row | row in v ensures row in t {
        assert Visible(w, after, row);
      }
      assert v - t == {};
    }
  }

  /** A full pass every label of which succeeds. */
  ghost predicate GoodPass(batch: nat, m: Moment, m': Moment) {
    && batch > 0 && m'.world.sessions == m.world.sessions && m.world.scored <= m'.world.scored
    && exists rows, ok :: Passed(batch, m, m', rows, ok) && AllTrue(ok)
  }

  /** It leaves a whole batch fewer sessions to list, or none. */
  lemma GoodPassTakesBatch(batch: nat, m: Moment, m': Moment)
    requires GoodPass(batch, m, m') && !m.scan.held
    ensures !m'.scan.held
    ensures
      var v, v' := VisibleRows(m.world, m.scan.after), VisibleRows(m'.world, m'.scan.after);
      v' == {} || |v'| <= |v| - batch
  {
    var rows, ok :| Passed(batch, m, m', rows, ok) && AllTrue(ok);
    GoodLabels(m.scan, rows[..|ok|], ok);
    ListingHead(m.world, m.scan.after, 4 * batch, rows);
    if rows == [] {
      VisibleShrinks(m.world, m'.world, m.scan.after, m'.scan.after);
    } else {
      LeftAfter(m.world, m.scan.after, 4 * batch, rows, |ok|, m'.world);
    }
  }

  ghost predicate GoodPassAt(batch: nat, run: seq<Moment>, i: int)
    requires 0 <= i < |run| - 1
  {
    GoodPass(batch, run[i], run[i + 1])
  }

  lemma {:induction false} GoodPassesTake(batch: nat, run: seq<Moment>, i: nat)
    requires run != [] && (forall k :: 0 <= k < |run| - 1 ==> GoodPassAt(batch, run, k)) && i < |run|
    requires !run[0].scan.held
    ensures !run[i].scan.held
    ensures
      var v := VisibleRows(run[i].world, run[i].scan.after);
      v == {} || |v| + i * batch <= |VisibleRows(run[0].world, run[0].scan.after)|
  {
    if i > 0 {
      GoodPassesTake(batch, run, i - 1);
      assert GoodPassAt(batch, run, i - 1);
      GoodPassTakesBatch(batch, run[i - 1], run[i]);
      assert i * batch == (i - 1) * batch + batch;
      var v := VisibleRows(run[i - 1].world, run[i - 1].scan.after);
      if v == {} {
        assert |v| == 0;
      }
    }
  }

  /** When every label succeeds, as many passes as it takes to hold N sessions in batches leave none of N
      to list. */
  lemma BatchesSuffice(batch: nat, run: seq<Moment>)
    requires run != [] && (forall k :: 0 <= k < |run| - 1 ==> GoodPassAt(batch, run, k))
    requires !run[0].scan.held && (|run| - 1) * batch >= |run[0].world.sessions|
    ensures
      var end := run[|run| - 1];
      VisibleRows(end.world, end.scan.after) == {}
  {
    var end := run[|run| - 1];
    var v := VisibleRows(end.world, end.scan.after);
    GoodPassesTake(batch, run, |run| - 1);
    SmallerSet(VisibleRows(run[0].world, run[0].scan.after), run[0].world.sessions);
    assert v == {} || |v| > 0;
  }
}
