/** Following the cursors of a list endpoint to the end. */
module PageWalk {
  import opened Strings
  import opened KeyRows
  import opened Cursor
  import opened Pages

  // ----- Walks in general

  /** One answer: its items and, unless it is the last, the cursor to ask with next; the first request
      has none. */
  datatype Fetch = Fetch(items: seq<Item>, next: Option<Option<Position>>)

  type Fetcher = Option<Position> -> Fetch

  /** The cursor of the k-th request, or None once the walk has ended. */
  function At(f: Fetcher, k: nat): (r: Option<Option<Position>>) {
    if k == 0 then Some(None)
    else
      var prev := At(f, k - 1);
      if prev.None? then None else f(prev.value).next
  }

  /** The items of the first k answers. */
  function Seen(f: Fetcher, k: nat): (r: seq<Item>) {
    if k == 0 then []
    else
      var from := At(f, k - 1);
      if from.None? then Seen(f, k - 1) else Seen(f, k - 1) + f(from.value).items
  }

  lemma SameOnward(f: Fetcher, a: nat, b: nat)
    requires At(f, a) == At(f, b)
    ensures At(f, a + 1) == At(f, b + 1)
  {
  }

  // ----- Offsets

  /** Index of the first row of page k. */
  function Offset(n: nat, k: nat): (o: nat) {
    if k == 0 then 0 else Offset(n, k - 1) + n
  }

  lemma {:induction false} OffsetGrows(n: nat, k: nat)
    requires n >= 1
    ensures Offset(n, k) >= k
  {
    if k > 0 {
      OffsetGrows(n, k - 1);
    }
  }

  lemma {:induction false} OffsetMonotone(n: nat, k: nat, j: nat)
    requires k <= j
    ensures Offset(n, k) <= Offset(n, j)
    decreases j
  {
    if k < j {
      OffsetMonotone(n, k, j - 1);
    }
  }

  /** Page k exists and the cursor that asks for it has the zero time. */
  predicate ZeroBoundary(full: seq<Item>, n: nat, k: nat) {
    k > 0 && 0 < Offset(n, k) < |full| && full[Offset(n, k) - 1].createdAt == ZERO_TIME
  }

  ghost predicate NoZeroBefore(full: seq<Item>, n: nat, k: nat) {
    forall j :: 0 <= j < k ==> !ZeroBoundary(full, n, j)
  }

  // ----- What one request returns

  lemma {:induction false} AfterRow(full: seq<Item>, i: nat)
    requires Descending(full) && i < |full|
    ensures After(full, Some(PositionOf(full[i]))) == full[i + 1..]
  {
    BelowTotal(PositionOf(full[0]), PositionOf(full[i]));
    if i == 0 {
      AfterAll(full[1..], PositionOf(full[0]));
    } else {
      AfterRow(full[1..], i - 1);
      assert full[1..][i..] == full[i + 1..];
    }
  }

  lemma {:induction false} AfterAll(rows: seq<Item>, p: Position)
    requires forall i :: 0 <= i < |rows| ==> Below(PositionOf(rows[i]), p)
    ensures After(rows, Some(p)) == rows
  {
    if rows != [] {
      AfterAll(rows[1..], p);
    }
  }

  /** The cursor of the page that starts at offset o. */
  function CursorAt(full: seq<Item>, o: nat): (c: Option<Position>)
    requires o <= |full|
  {
    if o == 0 then None else Some(PositionOf(full[o - 1]))
  }

  function Rows(full: seq<Item>, n: nat, o: nat): (r: Fetch)
    requires o <= |full|
  {
    if |full| - o > n then Fetch(full[o..o + n], Some(CursorAt(full, o + n))) else Fetch(full[o..], None)
  }

  function AsFetch(s: Slice): (r: Fetch) {
    Fetch(s.items, if s.next.None? then None else Some(s.next))
  }

  /** The fetcher of the list endpoint, cursors taken as positions. */
  ghost predicate Lists(f: Fetcher, full: seq<Item>, n: nat, zeroIsNone: bool)
    requires n >= 1
  {
    forall p :: f(p) == AsFetch(SliceAt(full, n, zeroIsNone, p))
  }

  lemma ListFetcher(full: seq<Item>, n: nat, zeroIsNone: bool) returns (f: Fetcher)
    requires n >= 1
    ensures Lists(f, full, n, zeroIsNone)
  {
    f := p => AsFetch(SliceAt(full, n, zeroIsNone, p));
  }

  /** Every cursor that is not mistaken fetches the rows from its offset on, and a mistaken one those
      from the start. */
  ghost predicate Serves(f: Fetcher, full: seq<Item>, n: nat, zeroIsNone: bool) {
    forall o: nat | o <= |full| :: f(CursorAt(full, o)) ==
      Rows(full, n, if zeroIsNone && o > 0 && full[o - 1].createdAt == ZERO_TIME then 0 else o)
  }

  lemma AfterCursor(full: seq<Item>, o: nat)
    requires Descending(full) && o <= |full|
    ensures After(full, CursorAt(full, o)) == full[o..]
  {
    if o > 0 {
      AfterRow(full, o - 1);
    }
  }

  lemma LongSlice(full: seq<Item>, n: nat, from: Option<Position>, zeroIsNone: bool, rows: seq<Item>)
    requires n >= 1 && |rows| > n && After(full, Start(from, zeroIsNone)) == rows
    ensures SliceAt(full, n, zeroIsNone, from) == Slice(rows[..n], Some(PositionOf(rows[n - 1])))
  {
    assert |rows| == n + 1 ==> rows[..n + 1] == rows;
    assert rows[..n + 1][..n] == rows[..n];
  }

  lemma ShortSlice(full: seq<Item>, n: nat, from: Option<Position>, zeroIsNone: bool, rows: seq<Item>)
    requires n >= 1 && |rows| <= n && After(full, Start(from, zeroIsNone)) == rows
    ensures SliceAt(full, n, zeroIsNone, from) == Slice(rows, None)
  {
  }

  lemma SliceFrom(full: seq<Item>, n: nat, zeroIsNone: bool, o: nat)
    requires Descending(full) && n >= 1 && o <= |full|
    requires zeroIsNone && o > 0 ==> full[o - 1].createdAt != ZERO_TIME
    ensures AsFetch(SliceAt(full, n, zeroIsNone, CursorAt(full, o))) == Rows(full, n, o)
  {
    var rows := full[o..];
    AfterCursor(full, o);
    if |rows| > n {
      LongSlice(full, n, CursorAt(full, o), zeroIsNone, rows);
      assert rows[..n] == full[o..o + n];
    } else {
      ShortSlice(full, n, CursorAt(full, o), zeroIsNone, rows);
    }
  }

  lemma MistakenIsStart(full: seq<Item>, n: nat, p: Position)
    requires n >= 1 && p.createdAt == ZERO_TIME
    ensures SliceAt(full, n, true, Some(p)) == SliceAt(full, n, true, None)
  {
  }

  lemma ListsServes(f: Fetcher, full: seq<Item>, n: nat, zeroIsNone: bool)
    requires n >= 1 && Descending(full) && Lists(f, full, n, zeroIsNone)
    ensures Serves(f, full, n, zeroIsNone)
  {
    forall o: nat | o <= |full| ensures f(CursorAt(full, o)) ==
      Rows(full, n, if zeroIsNone && o > 0 && full[o - 1].createdAt == ZERO_TIME then 0 else o)
    {
      if zeroIsNone && o > 0 && full[o - 1].createdAt == ZERO_TIME {
        SliceFrom(full, n, zeroIsNone, 0);
        MistakenIsStart(full, n, PositionOf(full[o - 1]));
      } else {
        SliceFrom(full, n, zeroIsNone, o);
      }
    }
  }

  // ----- The walk over positions

  /** After k pages the walk is at its k-th offset, or over with everything listed. */
  ghost predicate OnCourse(f: Fetcher, full: seq<Item>, k: nat, o: nat) {
    if k == 0 || o < |full|
    then o <= |full| && At(f, k) == Some(CursorAt(full, o)) && Seen(f, k) == full[..o]
    else At(f, k) == None && Seen(f, k) == full
  }

  lemma CourseStep(f: Fetcher, full: seq<Item>, n: nat, k: nat, o: nat)
    requires n >= 1 && (k == 0 ==> o == 0) && OnCourse(f, full, k, o)
    requires o <= |full| ==> f(CursorAt(full, o)) == Rows(full, n, o)
    ensures OnCourse(f, full, k + 1, o + n)
  {
  }

  /** Up to the first mistaken cursor the walk stays on course. */
  lemma {:induction false} WalkPrefix(f: Fetcher, full: seq<Item>, n: nat, zeroIsNone: bool, k: nat)
    requires n >= 1 && Serves(f, full, n, zeroIsNone)
    requires zeroIsNone ==> NoZeroBefore(full, n, k)
    ensures OnCourse(f, full, k, Offset(n, k))
  {
    if k == 0 {
      assert full[..0] == [];
    } else {
      var o := Offset(n, k - 1);
      WalkPrefix(f, full, n, zeroIsNone, k - 1);
      assert zeroIsNone ==> !ZeroBoundary(full, n, k - 1);
      if k == 1 || o < |full| {
        CourseStep(f, full, n, k - 1, o);
      }
    }
  }

  lemma AtBoundary(f: Fetcher, full: seq<Item>, n: nat, j: nat)
    requires n >= 1 && Serves(f, full, n, true) && ZeroBoundary(full, n, j) && NoZeroBefore(full, n, j)
    ensures At(f, j) == Some(CursorAt(full, Offset(n, j)))
  {
    WalkPrefix(f, full, n, true, j);
  }

  lemma Restarts(f: Fetcher, full: seq<Item>, n: nat, j: nat, o: nat)
    requires Serves(f, full, n, true) && 0 < o < |full| && full[o - 1].createdAt == ZERO_TIME
    requires At(f, j) == Some(CursorAt(full, o))
    ensures At(f, j + 1) == At(f, 1)
  {
    assert f(CursorAt(full, o)) == Rows(full, n, 0);
    assert f(CursorAt(full, 0)) == Rows(full, n, 0);
    assert At(f, 0) == Some(CursorAt(full, 0));
  }

  lemma {:induction false} RepeatsFrom(f: Fetcher, j: nat, k: nat)
    requires k >= 1 && At(f, j + 1) == At(f, 1)
    ensures At(f, k + j) == At(f, k)
  {
    if k > 1 {
      RepeatsFrom(f, j, k - 1);
      SameOnward(f, k - 1 + j, k - 1);
    }
  }

  /** After the mistaken cursor of page j the walk is back where it was after the first page. */
  lemma WalkRepeats(f: Fetcher, full: seq<Item>, n: nat, j: nat, k: nat)
    requires n >= 1 && k >= 1 && Serves(f, full, n, true)
    requires ZeroBoundary(full, n, j) && NoZeroBefore(full, n, j)
    ensures At(f, k + j) == At(f, k)
  {
    AtBoundary(f, full, n, j);
    Restarts(f, full, n, j, Offset(n, j));
    RepeatsFrom(f, j, k);
  }

  lemma {:induction false} WalkNeverEnds(f: Fetcher, full: seq<Item>, n: nat, j: nat, k: nat)
    requires n >= 1 && Serves(f, full, n, true)
    requires ZeroBoundary(full, n, j) && NoZeroBefore(full, n, j)
    ensures At(f, k).Some?
    decreases k
  {
    if k <= j {
      OffsetMonotone(n, k, j);
      WalkPrefix(f, full, n, true, k);
    } else {
      WalkNeverEnds(f, full, n, j, k - j);
      WalkRepeats(f, full, n, j, k - j);
    }
  }

  lemma FirstZero(full: seq<Item>, n: nat, k: nat) returns (j: nat)
    requires ZeroBoundary(full, n, k)
    ensures ZeroBoundary(full, n, j) && NoZeroBefore(full, n, j)
  {
    j := 0;
    while !ZeroBoundary(full, n, j)
      invariant j <= k && NoZeroBefore(full, n, j)
      decreases k - j
    {
      j := j + 1;
    }
  }

  // ----- The walk over tokens

  /** A cursor that names a row of the listing. */
  ghost predicate NamesRow(full: seq<Item>, p: Option<Position>) {
    p.Some? ==> exists i :: i in full && PositionOf(i) == p.value
  }

  lemma SliceNextNamesRow(full: seq<Item>, n: nat, zeroIsNone: bool, from: Option<Position>)
    requires n >= 1
    ensures NamesRow(full, SliceAt(full, n, zeroIsNone, from).next)
  {
    var rows := Query(full, Start(from, zeroIsNone), n);
    QuerySubset(full, Start(from, zeroIsNone), n);
    if |rows| > n {
      assert rows[n - 1] in rows && rows[n - 1] in full;
    }
  }

  lemma RowIsText(full: seq<Item>, tt: TimeText, p: Option<Position>)
    requires Texts(full, tt) && NamesRow(full, p)
    ensures IsText(p, tt)
  {
    if p.Some? {
      var i :| i in full && PositionOf(i) == p.value;
      assert IsText(Some(PositionOf(i)), tt);
    }
  }

  /** The time of every row reads back from its text. */
  ghost predicate Faithful(full: seq<Item>, tt: TimeText) {
    Texts(full, tt) && forall i | i in full :: ReadsBack(tt, i.createdAt)
  }

  /** The page a token fetches, as ListKeys computes it. */
  ghost function PageOf(full: seq<Item>, n: nat, zeroIsNone: bool, tt: TimeText, token: string)
    : (r: Result<Page, string>)
    requires n >= 1 && Texts(full, tt)
  {
    var from := DecodeCursor(token, tt);
    if from.Err? then Err(from.error)
    else
      var s := SliceAt(full, n, zeroIsNone, from.value);
      SliceNextNamesRow(full, n, zeroIsNone, from.value);
      RowIsText(full, tt, s.next);
      Ok(Page(s.items, Token(s.next, tt)))
  }

  lemma TokenRoundTrip(full: seq<Item>, p: Option<Position>, tt: TimeText)
    requires Faithful(full, tt) && NamesRow(full, p)
    ensures IsText(p, tt) && DecodeCursor(Token(p, tt), tt) == Ok(p)
    ensures Token(p, tt) == "" <==> p.None?
  {
    RowIsText(full, tt, p);
    if p.Some? {
      var i :| i in full && PositionOf(i) == p.value;
      assert ReadsBack(tt, i.createdAt);
      CursorRoundTrip(tt.format(p.value.createdAt), p.value.id, tt);
    }
  }

  /** A client stops at an error or an empty cursor. */
  function NextToken(p: Result<Page, string>): (r: Option<string>) {
    if p.Err? || p.value.next == "" then None else Some(p.value.next)
  }

  /** The token of the k-th request of a client that starts without one. */
  ghost function TokenAt(full: seq<Item>, n: nat, zeroIsNone: bool, tt: TimeText, k: nat): (r: Option<string>)
    requires n >= 1 && Texts(full, tt)
  {
    if k == 0 then Some("")
    else
      var prev := TokenAt(full, n, zeroIsNone, tt, k - 1);
      if prev.None? then None else NextToken(PageOf(full, n, zeroIsNone, tt, prev.value))
  }

  /** The items of the first k pages that client fetches. */
  ghost function Fetched(full: seq<Item>, n: nat, zeroIsNone: bool, tt: TimeText, k: nat): (r: seq<Item>)
    requires n >= 1 && Texts(full, tt)
  {
    if k == 0 then []
    else
      var token := TokenAt(full, n, zeroIsNone, tt, k - 1);
      if token.None? then Fetched(full, n, zeroIsNone, tt, k - 1)
      else
        var p := PageOf(full, n, zeroIsNone, tt, token.value);
        Fetched(full, n, zeroIsNone, tt, k - 1) + if p.Err? then [] else p.value.items
  }

  /** The text of a cursor does not matter: its token fetches what its position does. */
  lemma PageOfToken(full: seq<Item>, n: nat, zeroIsNone: bool, tt: TimeText, p: Option<Position>)
    requires n >= 1 && Faithful(full, tt) && NamesRow(full, p)
    ensures
      var s := SliceAt(full, n, zeroIsNone, p);
      && IsText(p, tt) && NamesRow(full, s.next) && IsText(s.next, tt)
      && PageOf(full, n, zeroIsNone, tt, Token(p, tt)) == Ok(Page(s.items, Token(s.next, tt)))
      && (Token(s.next, tt) == "" <==> s.next.None?)
  {
    var s := SliceAt(full, n, zeroIsNone, p);
    TokenRoundTrip(full, p, tt);
    SliceNextNamesRow(full, n, zeroIsNone, p);
    TokenRoundTrip(full, s.next, tt);
  }

  /** The k-th requests of the two walks correspond. */
  ghost predicate InStep(f: Fetcher, full: seq<Item>, n: nat, zeroIsNone: bool, tt: TimeText, k: nat)
    requires n >= 1 && Texts(full, tt)
  {
    var at := At(f, k);
    && (at.Some? ==> NamesRow(full, at.value) && IsText(at.value, tt))
    && TokenAt(full, n, zeroIsNone, tt, k) == (if at.None? then None else Some(Token(at.value, tt)))
    && Fetched(full, n, zeroIsNone, tt, k) == Seen(f, k)
  }

  lemma StepTogether(f: Fetcher, full: seq<Item>, n: nat, zeroIsNone: bool, tt: TimeText, k: nat, s: Slice)
    requires n >= 1 && Texts(full, tt) && InStep(f, full, n, zeroIsNone, tt, k)
    requires At(f, k).Some? ==>
               && NamesRow(full, s.next) && IsText(s.next, tt) && f(At(f, k).value) == AsFetch(s)
               && PageOf(full, n, zeroIsNone, tt, Token(At(f, k).value, tt)) == Ok(Page(s.items, Token(s.next, tt)))
               && (Token(s.next, tt) == "" <==> s.next.None?)
    ensures InStep(f, full, n, zeroIsNone, tt, k + 1)
  {
  }

  lemma NextPage(f: Fetcher, full: seq<Item>, n: nat, zeroIsNone: bool, tt: TimeText, p: Option<Position>)
    returns (s: Slice)
    requires n >= 1 && Faithful(full, tt) && Lists(f, full, n, zeroIsNone) && NamesRow(full, p)
    ensures IsText(p, tt) && NamesRow(full, s.next) && IsText(s.next, tt) && f(p) == AsFetch(s)
    ensures PageOf(full, n, zeroIsNone, tt, Token(p, tt)) == Ok(Page(s.items, Token(s.next, tt)))
    ensures Token(s.next, tt) == "" <==> s.next.None?
  {
    s := SliceAt(full, n, zeroIsNone, p);
    PageOfToken(full, n, zeroIsNone, tt, p);
  }

  lemma {:induction false} TokensFollowPositions(
    f: Fetcher, full: seq<Item>, n: nat, zeroIsNone: bool, tt: TimeText, k: nat)
    requires n >= 1 && Faithful(full, tt) && Lists(f, full, n, zeroIsNone)
    ensures InStep(f, full, n, zeroIsNone, tt, k)
  {
    if k > 0 {
      TokensFollowPositions(f, full, n, zeroIsNone, tt, k - 1);
      var at, s := At(f, k - 1), Slice([], None);
      if at.Some? {
        s := NextPage(f, full, n, zeroIsNone, tt, at.value);
      }
      StepTogether(f, full, n, zeroIsNone, tt, k - 1, s);
    }
  }

  // ----- Main results

  lemma EndedListsAll(f: Fetcher, full: seq<Item>, n: nat, zeroIsNone: bool, k: nat)
    requires n >= 1 && Serves(f, full, n, zeroIsNone) && At(f, k).None?
    ensures Seen(f, k) == full
  {
    if zeroIsNone && exists j: nat :: ZeroBoundary(full, n, j) {
      var j: nat :| ZeroBoundary(full, n, j);
      var first := FirstZero(full, n, j);
      WalkNeverEnds(f, full, n, first, k);
    } else {
      WalkPrefix(f, full, n, zeroIsNone, k);
    }
  }

  /** A walk that ends has listed every row of the listing once, in order. */
  lemma WalkListsAll(full: seq<Item>, limit: int, zeroIsNone: bool, tt: TimeText, k: nat)
    requires Faithful(full, tt) && Descending(full)
    requires TokenAt(full, ClampLimit(limit), zeroIsNone, tt, k).None?
    ensures Fetched(full, ClampLimit(limit), zeroIsNone, tt, k) == full
  {
    var n := ClampLimit(limit);
    var f := ListFetcher(full, n, zeroIsNone);
    TokensFollowPositions(f, full, n, zeroIsNone, tt, k);
    ListsServes(f, full, n, zeroIsNone);
    EndedListsAll(f, full, n, zeroIsNone, k);
  }

  /** Some request is the last one. */
  ghost predicate WalkEnds(full: seq<Item>, n: nat, zeroIsNone: bool, tt: TimeText)
    requires n >= 1 && Texts(full, tt)
  {
    exists k: nat :: TokenAt(full, n, zeroIsNone, tt, k).None?
  }

  lemma MistakenNeverEnds(full: seq<Item>, n: nat, tt: TimeText, j: nat)
    requires n >= 1 && Faithful(full, tt) && Descending(full) && ZeroBoundary(full, n, j)
    ensures !WalkEnds(full, n, true, tt)
  {
    var f := ListFetcher(full, n, true);
    ListsServes(f, full, n, true);
    var first := FirstZero(full, n, j);
    forall k: nat ensures TokenAt(full, n, true, tt, k).Some? {
      TokensFollowPositions(f, full, n, true, tt, k);
      WalkNeverEnds(f, full, n, first, k);
    }
  }

  lemma UnmistakenEnds(full: seq<Item>, n: nat, zeroIsNone: bool, tt: TimeText)
    requires n >= 1 && Faithful(full, tt) && Descending(full)
    requires zeroIsNone ==> forall k: nat :: !ZeroBoundary(full, n, k)
    ensures TokenAt(full, n, zeroIsNone, tt, |full| + 1).None?
  {
    var f := ListFetcher(full, n, zeroIsNone);
    ListsServes(f, full, n, zeroIsNone);
    OffsetGrows(n, |full| + 1);
    WalkPrefix(f, full, n, zeroIsNone, |full| + 1);
    TokensFollowPositions(f, full, n, zeroIsNone, tt, |full| + 1);
  }

  /** The walk ends exactly when no page is asked for with the zero time that ListKeys reads as "no
      cursor"; the listings by owner have no such case and always end. */
  lemma WalkEndsIff(full: seq<Item>, limit: int, zeroIsNone: bool, tt: TimeText)
    requires Faithful(full, tt) && Descending(full)
    ensures WalkEnds(full, ClampLimit(limit), zeroIsNone, tt) <==>
              !(zeroIsNone && exists k: nat :: ZeroBoundary(full, ClampLimit(limit), k))
  {
    var n := ClampLimit(limit);
    if zeroIsNone && exists k: nat :: ZeroBoundary(full, n, k) {
      var j: nat :| ZeroBoundary(full, n, j);
      MistakenNeverEnds(full, n, tt, j);
    } else {
      UnmistakenEnds(full, n, zeroIsNone, tt);
    }
  }

  /** For every table, time and filter: the ordered listing exists, and when no row has the zero time
      the walk ends having fetched exactly that listing. */
  lemma EveryTablePages(
    pks: map<KeyId, PkRow>, eks: map<KeyId, EkRow>, f: Filter, now: int, limit: int, zeroIsNone: bool, tt: TimeText)
    returns (full: seq<Item>)
    requires pks.Keys !! eks.Keys
    requires forall i | i in Selected(pks, eks, f, now) :: IsText(Some(PositionOf(i)), tt) && ReadsBack(tt, i.createdAt)
    requires zeroIsNone ==> forall i | i in Selected(pks, eks, f, now) :: i.createdAt != ZERO_TIME
    ensures ListingOf(full, Selected(pks, eks, f, now)) && Faithful(full, tt)
    ensures TokenAt(full, ClampLimit(limit), zeroIsNone, tt, |full| + 1).None?
    ensures Fetched(full, ClampLimit(limit), zeroIsNone, tt, |full| + 1) == full
  {
    SelectedUnique(pks, eks, f, now);
    full := ListingExists(Selected(pks, eks, f, now));
    var n := ClampLimit(limit);
    forall j: nat ensures !(zeroIsNone && ZeroBoundary(full, n, j)) {
      if ZeroBoundary(full, n, j) {
        assert full[Offset(n, j) - 1] in full;
      }
    }
    UnmistakenEnds(full, n, zeroIsNone, tt);
    WalkListsAll(full, limit, zeroIsNone, tt, |full| + 1);
  }

  // ----- A listing that never ends

  const FIRST_ID: KeyId := "pkid_b"
  const SECOND_ID: KeyId := "pkid_a"

  lemma {:induction false} LessAfterPrefix(p: string, a: string, b: string)
    requires Less(a, b)
    ensures Less(p + a, p + b)
  {
    if p == [] {
      assert p + a == a && p + b == b;
    } else {
      LessAfterPrefix(p[1..], a, b);
      assert (p + a)[1..] == p[1..] + a && (p + b)[1..] == p[1..] + b;
    }
  }

  lemma IdsInOrder()
    ensures Less(SECOND_ID, FIRST_ID) && Bytes(FIRST_ID) && Bytes(SECOND_ID)
  {
    var p := "pkid_";
    LessAfterPrefix(p, "a", "b");
    assert SECOND_ID == p + "a" && FIRST_ID == p + "b";
  }

  /** Two keys created at the zero time, newest id first. */
  function TwoAtZero(): (full: seq<Item>) {
    [Item(FIRST_ID, true, "owner", None, Active, ZERO_TIME), Item(SECOND_ID, true, "owner", None, Active, ZERO_TIME)]
  }

  /** One row per page: the cursor after the first page has the zero time, so the walk starts over. */
  lemma TwoAtZeroNeverEnds(tt: TimeText)
    requires Bytes(tt.format(ZERO_TIME)) && ReadsBack(tt, ZERO_TIME)
    ensures Faithful(TwoAtZero(), tt) && Descending(TwoAtZero()) && !WalkEnds(TwoAtZero(), ClampLimit(1), true, tt)
  {
    IdsInOrder();
    assert Offset(1, 1) == 1;
    assert ZeroBoundary(TwoAtZero(), 1, 1);
    WalkEndsIff(TwoAtZero(), 1, true, tt);
  }
}
