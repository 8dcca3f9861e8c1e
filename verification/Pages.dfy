/** Keyset pages over the key tables (internal/db/keys_list.go, paginate.go, personal_keys.go):
    the merged listing with its derived status, and one page of it. */
module Pages {
  import opened Strings
  import opened KeyRows
  import opened Cursor

  const DEFAULT_LIMIT: int := 100
  const MAX_LIMIT: int := 500

  function ClampLimit(limit: int): (n: nat)
    ensures 1 <= limit <= 500 ==> n == limit
    ensures limit <= 0 ==> n == 100
    ensures limit > 500 ==> n == 500
  {
    if limit <= 0 then DEFAULT_LIMIT else if limit > MAX_LIMIT then MAX_LIMIT else limit
  }

  // ----- The listing

  datatype Item = Item(
    id: KeyId, isPk: bool, owner: string, environment: Option<string>, status: Status, createdAt: int)

  datatype Filter = Filter(
    owner: Option<string>, isPk: Option<bool>, status: Option<Status>, environment: Option<string>)

  function PkItem(id: KeyId, row: PkRow, now: int): (i: Item) {
    Item(id, true, row.owner, None, PkListed(row, now), row.createdAt)
  }

  function EkItem(id: KeyId, row: EkRow, now: int): (i: Item) {
    Item(id, false, row.owner, Some(row.environment), EkListed(row, now), row.createdAt)
  }

  predicate Matches(f: Filter, i: Item) {
    && (f.owner.Some? ==> i.owner == f.owner.value)
    && (f.isPk.Some? ==> i.isPk == f.isPk.value)
    && (f.status.Some? ==> i.status == f.status.value)
    && (f.environment.Some? ==> i.environment == f.environment)
  }

  /** UNION ALL of both tables, filtered. */
  function Selected(pks: map<KeyId, PkRow>, eks: map<KeyId, EkRow>, f: Filter, now: int): (r: set<Item>) {
    (set id | id in pks && Matches(f, PkItem(id, pks[id], now)) :: PkItem(id, pks[id], now))
    + (set id | id in eks && Matches(f, EkItem(id, eks[id], now)) :: EkItem(id, eks[id], now))
  }

  /** The filter names nothing the item does not have. */
  predicate Passes(f: Filter, i: Item) {
    && (f.owner.None? || f.owner.value == i.owner) && (f.isPk.None? || f.isPk.value == i.isPk)
    && (f.status.None? || f.status.value == i.status) && (f.environment.None? || f.environment == i.environment)
  }

  /** The item of a personal key: expired once it is past its own expiry or 90 days old (in
      microseconds) while active. */
  ghost predicate IsPkItem(i: Item, row: PkRow, now: int) {
    && i.isPk && i.owner == row.owner && i.environment.None? && i.createdAt == row.createdAt
    && var old90 := row.createdAt + 7_776_000_000_000;
    && (row.status == Active && (row.expiresAt <= now || old90 <= now) ==> i.status == Expired)
    && (row.status != Active || (now < row.expiresAt && now < old90) ==> i.status == row.status)
  }

  /** The item of an environment key: expired once past its expiry, active or suspended. */
  ghost predicate IsEkItem(i: Item, row: EkRow, now: int) {
    && !i.isPk && i.owner == row.owner && i.environment == Some(row.environment) && i.createdAt == row.createdAt
    && (row.status in {Active, Suspended} && row.expiresAt.Some? && row.expiresAt.value <= now ==> i.status == Expired)
    && (row.status !in {Active, Suspended} || row.expiresAt.None? || now < row.expiresAt.value ==>
          i.status == row.status)
  }

  /** What is listed: the items of both tables that the filter lets pass. */
  lemma SelectedExact(pks: map<KeyId, PkRow>, eks: map<KeyId, EkRow>, f: Filter, now: int)
    ensures forall i :: i in Selected(pks, eks, f, now) <==>
              && Passes(f, i)
              && (|| (i.id in pks && IsPkItem(i, pks[i.id], now))
                  || (i.id in eks && IsEkItem(i, eks[i.id], now)))
  {
    forall i
      ensures i in Selected(pks, eks, f, now) <==>
                && Passes(f, i)
                && (|| (i.id in pks && IsPkItem(i, pks[i.id], now))
                    || (i.id in eks && IsEkItem(i, eks[i.id], now)))
    {
      assert i.id in pks ==> (IsPkItem(i, pks[i.id], now) <==> i == PkItem(i.id, pks[i.id], now));
      assert i.id in eks ==> (IsEkItem(i, eks[i.id], now) <==> i == EkItem(i.id, eks[i.id], now));
      assert Matches(f, i) <==> Passes(f, i);
    }
  }

  function PositionOf(i: Item): (p: Position) {
    Position(i.createdAt, i.id)
  }

  /** (created_at, key_id) row comparison. */
  predicate Below(a: Position, b: Position) {
    a.createdAt < b.createdAt || (a.createdAt == b.createdAt && Less(a.id, b.id))
  }

  lemma BelowTotal(a: Position, b: Position)
    ensures Below(a, b) || a == b || Below(b, a)
    ensures !(Below(a, b) && Below(b, a)) && !Below(a, a)
  {
    LessTotal(a.id, b.id);
  }

  lemma BelowTransitive(a: Position, b: Position, c: Position)
    requires Below(a, b) && Below(b, c)
    ensures Below(a, c)
  {
    if a.createdAt == b.createdAt == c.createdAt {
      LessTransitive(a.id, b.id, c.id);
    }
  }

  /** ORDER BY created_at DESC, key_id DESC. */
  ghost predicate Descending(rows: seq<Item>) {
    forall i, j :: 0 <= i < j < |rows| ==> Below(PositionOf(rows[j]), PositionOf(rows[i]))
  }

  /** No two items share a position: ids are primary keys and the tables' id prefixes differ. */
  ghost predicate UniquePositions(items: set<Item>) {
    forall a, b | a in items && b in items && PositionOf(a) == PositionOf(b) :: a == b
  }

  /** The full ordered listing of a set of items. */
  ghost predicate ListingOf(rows: seq<Item>, items: set<Item>) {
    Descending(rows) && forall i :: i in rows <==> i in items
  }

  lemma SelectedUnique(pks: map<KeyId, PkRow>, eks: map<KeyId, EkRow>, f: Filter, now: int)
    requires pks.Keys !! eks.Keys
    ensures UniquePositions(Selected(pks, eks, f, now))
  {
  }

  lemma InsertItem(rows: seq<Item>, x: Item) returns (r: seq<Item>)
    requires Descending(rows) && forall i | i in rows :: PositionOf(i) != PositionOf(x)
    ensures Descending(r) && forall i :: i in r <==> i in rows || i == x
  {
    var k := 0;
    while k < |rows| && Below(PositionOf(x), PositionOf(rows[k]))
      invariant 0 <= k <= |rows|
      invariant forall i :: 0 <= i < k ==> Below(PositionOf(x), PositionOf(rows[i]))
    {
      k := k + 1;
    }
    forall i | k <= i < |rows| ensures Below(PositionOf(rows[i]), PositionOf(x)) {
      assert rows[k] in rows;
      BelowTotal(PositionOf(rows[k]), PositionOf(x));
      if i > k {
        BelowTransitive(PositionOf(rows[i]), PositionOf(rows[k]), PositionOf(x));
      }
    }
    r := rows[..k] + [x] + rows[k..];
    assert rows == rows[..k] + rows[k..];
  }

  /** Every set of items with distinct positions has a listing. */
  lemma {:induction false} ListingExists(items: set<Item>) returns (rows: seq<Item>)
    requires UniquePositions(items)
    ensures ListingOf(rows, items)
    decreases |items|
  {
    if items == {} {
      rows := [];
    } else {
      var x :| x in items;
      rows := ListingExists(items - {x});
      rows := InsertItem(rows, x);
    }
  }

  // ----- One page

  /** WHERE position < cursor, in order. */
  function After(rows: seq<Item>, c: Option<Position>): (r: seq<Item>)
    ensures c.None? ==> r == rows
  {
    if rows == [] then []
    else if c.None? || Below(PositionOf(rows[0]), c.value) then [rows[0]] + After(rows[1..], c)
    else After(rows[1..], c)
  }

  /** What the query returns: at most limit + 1 rows past the cursor. */
  function Query(full: seq<Item>, c: Option<Position>, limit: nat): (r: seq<Item>) {
    var rows := After(full, c);
    if |rows| <= limit + 1 then rows else rows[..limit + 1]
  }

  /** Go's zero time, in microseconds from 1970. */
  const ZERO_TIME: int := -62_135_596_800_000_000

  /** ListKeys turns a zero cursor time into "no cursor"; the listings by owner test for the empty
      cursor text instead. */
  function Start(c: Option<Position>, zeroIsNone: bool): (r: Option<Position>) {
    if zeroIsNone && c.Some? && c.value.createdAt == ZERO_TIME then None else c
  }

  datatype Page = Page(items: seq<Item>, next: string)

  /** A page before its cursor is written as text: its rows, and the position of the last one when a
      further row was seen. */
  datatype Slice = Slice(items: seq<Item>, next: Option<Position>)

  function SliceAt(full: seq<Item>, n: nat, zeroIsNone: bool, from: Option<Position>): (s: Slice)
    requires n >= 1
  {
    var rows := Query(full, Start(from, zeroIsNone), n);
    if |rows| > n then Slice(rows[..n], Some(PositionOf(rows[n - 1]))) else Slice(rows, None)
  }

  /** The parts of a cursor are byte strings, as every Go string is. */
  predicate IsText(p: Option<Position>, tt: TimeText) {
    p.Some? ==> Bytes(tt.format(p.value.createdAt)) && Bytes(p.value.id)
  }

  function Token(p: Option<Position>, tt: TimeText): (s: string)
    requires IsText(p, tt)
  {
    if p.None? then "" else EncodeCursor(tt.format(p.value.createdAt), p.value.id)
  }

  ghost predicate Texts(rows: seq<Item>, tt: TimeText) {
    forall i | i in rows :: IsText(Some(PositionOf(i)), tt)
  }

  method Paginate(rows: seq<Item>, n: nat, tt: TimeText) returns (p: Page)
    requires n >= 1 && Texts(rows, tt)
    ensures |rows| > n ==> IsText(Some(PositionOf(rows[n - 1])), tt)
    ensures p == if |rows| > n then Page(rows[..n], Token(Some(PositionOf(rows[n - 1])), tt)) else Page(rows, "")
  {
    var out: seq<Item> := [];
    for i := 0 to |rows|
      invariant out == rows[..i]
    {
      out := out + [rows[i]];
    }
    assert out == rows;
    var next := "";
    if |out| > n {
      var last := out[n - 1];
      assert last in rows && IsText(Some(PositionOf(last)), tt);
      next := EncodeCursor(tt.format(last.createdAt), last.id);
      out := out[..n];
    }
    p := Page(out, next);
  }

  lemma {:induction false} AfterSubset(rows: seq<Item>, c: Option<Position>)
    ensures forall i | i in After(rows, c) :: i in rows
  {
    if rows != [] {
      AfterSubset(rows[1..], c);
    }
  }

  lemma QuerySubset(full: seq<Item>, c: Option<Position>, n: nat)
    ensures forall i | i in Query(full, c, n) :: i in full
  {
    AfterSubset(full, c);
    assert forall i | i in Query(full, c, n) :: i in After(full, c);
  }

  /** One call of a list endpoint: a malformed token is an error, any other yields the slice past its
      position, its own cursor written as text. */
  method ListKeys(full: seq<Item>, limit: int, token: string, zeroIsNone: bool, tt: TimeText)
    returns (r: Result<Page, string>)
    requires Texts(full, tt)
    ensures match DecodeCursor(token, tt)
            case Err(e) => r == Err(e)
            case Ok(from) =>
              var s := SliceAt(full, ClampLimit(limit), zeroIsNone, from);
              IsText(s.next, tt) && r == Ok(Page(s.items, Token(s.next, tt)))
  {
    var n := ClampLimit(limit);
    var c := DecodeCursor(token, tt);
    if c.Err? {
      return Err(c.error);
    }
    var from := c.value;
    if zeroIsNone && from.Some? && from.value.createdAt == ZERO_TIME {
      from := None;
    }
    var rows := Query(full, from, n);
    QuerySubset(full, from, n);
    var p := Paginate(rows, n, tt);
    return Ok(p);
  }
}
