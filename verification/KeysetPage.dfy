/** One keyset page: the anchor check, the row-wise boundary, the limit + 1 probe, the next cursor. */
module KeysetPage {
  import opened Options
  import opened RowOrder

  /**
   * The two backing tables as one statement sees them, each row with its other columns.
   * A single-table list uses the left one.
   */
  datatype Tables<D> = Tables(left: map<Row, D>, right: map<Row, D>) {
    function Of(side: Side): map<Row, D> {
      if side.Left? then left else right
    }

    /** Rows are where their side says, and primary keys hold. */
    ghost predicate Valid() {
      && (forall r :: r in left ==> r.side.Left?)
      && (forall r :: r in right ==> r.side.Right?)
      && Keyed(left.Keys) && Keyed(right.Keys)
    }

    /** `select ... where id = ...` on one table. */
    ghost function LookUp(side: Side, id: nat): Option<Row> {
      if exists r :: r in Of(side) && r.id == id then
        var r :| r in Of(side) && r.id == id;
        Some(r)
      else None
    }
  }

  type Store<D> = t: Tables<D> | t.Valid() witness Tables(map[], map[])

  /** The decoded cursor: a millisecond, an identity, and the scope that names its table. */
  datatype Cursor = Cursor(ms: int, id: nat, scope: Option<string>)

  /** The millisecond that a JavaScript Date keeps of a microsecond timestamp. */
  function Ms(time: int): (ms: int)
    ensures 1000 * ms <= time < 1000 * (ms + 1)
  {
    time / 1000
  }

  datatype Matched = Matched(row: Row, scope: Option<string>)

  type AnchorRead<!D> = (Store<D>, Cursor) -> Option<Matched>

  /** How a list resolves its cursor: anchor columns, a filtered read of them, or a virtual list. */
  datatype Anchoring<!D> =
    | Plain
    | TableRead(read: AnchorRead<D>)
    | Virtual(read: AnchorRead<D>)

  datatype CursorError = InvalidCursor

  datatype Page = Page(rows: seq<Row>, hasNext: bool, next: Option<Cursor>)

  /** The anchor check: the row the cursor names, or nothing when the cursor is rejected. */
  ghost function CheckAnchor<D>(anchoring: Anchoring<D>, store: Store<D>, cursor: Cursor): Option<Row> {
    match anchoring
    case Plain => (
      if cursor.scope.Some? then None
      else
        match store.LookUp(Left, cursor.id)
        case Some(row) => if Ms(row.time) == cursor.ms then Some(row) else None
        case None => None
    )
    case TableRead(read) => (
      match read(store, cursor)
      case Some(m) => if Ms(m.row.time) == cursor.ms && m.scope == cursor.scope then Some(m.row) else None
      case None => None
    )
    case Virtual(read) => (
      match read(store, cursor)
      case Some(m) =>
        if Ms(m.row.time) == cursor.ms && (cursor.scope.Some? ==> m.scope == cursor.scope) then Some(m.row) else None
      case None => None
    )
  }

  /**
   * The page boundary. The anchor row is selected again inside the page query, so a row that is
   * gone by then makes the row-wise comparison NULL and no row passes it.
   */
  datatype Boundary = Start | AfterRow(anchor: Row) | NoRow {
    ghost predicate Admits(sort: Sort, r: Row) {
      match this
      case Start => true
      case AfterRow(a) => Before(sort, a, r)
      case NoRow => false
    }
  }

  ghost function Past(sort: Sort, boundary: Boundary, rows: set<Row>): set<Row> {
    set r | r in rows && boundary.Admits(sort, r)
  }

  ghost function BoundaryAt<D>(store: Store<D>, anchor: Row): Boundary {
    match store.LookUp(anchor.side, anchor.id)
    case Some(row) => AfterRow(row)
    case None => NoRow
  }

  /** The probe for one row more than the limit, the trim, and the next cursor. */
  ghost function Cut(sort: Sort, boundary: Boundary, matching: set<Row>, limit: nat, mint: Row -> Cursor): Page
    requires Keyed(matching)
  {
    var probe := Take(Sorted(sort, Past(sort, boundary, matching)), limit + 1);
    var hasNext := |probe| > limit;
    var rows := if hasNext then probe[..limit] else probe;
    Page(rows, hasNext, if hasNext && |rows| > 0 then Some(mint(rows[|rows| - 1])) else None)
  }

  /** The filtered rows of one table. */
  ghost function Matching<D>(store: Store<D>, side: Side, where: (Row, D) -> bool): (rows: set<Row>)
    ensures Keyed(rows) && forall r :: r in rows ==> r.side == side
  {
    set r | r in store.Of(side) && where(r, store.Of(side)[r])
  }

  /**
   * Reads one page of one table. The anchor check and the page query are separate statements and
   * see the tables as they are at their own time.
   */
  ghost function ReadKeysetPage<D>(
    anchoring: Anchoring<D>, side: Side, cursor: Option<Cursor>, sort: Sort, limit: nat,
    where: (Row, D) -> bool, mint: Row -> Cursor, atCheck: Store<D>, atRead: Store<D>
  ): Result<Page, CursorError>
  {
    var matching := Matching(atRead, side, where);
    match cursor
    case None => Ok(Cut(sort, Start, matching, limit, mint))
    case Some(c) =>
      var anchor := CheckAnchor(anchoring, atCheck, c);
      if anchor.None? then Err(InvalidCursor)
      else Ok(Cut(sort, BoundaryAt(atRead, anchor.value), matching, limit, mint))
  }

  lemma ProbeThenTrim<T>(s: seq<T>, limit: nat)
    ensures |Take(s, limit + 1)| > limit <==> |s| > limit
    ensures (if |s| > limit then Take(s, limit + 1)[..limit] else Take(s, limit + 1)) == Take(s, limit)
  {
  }

  /** A page holds the first rows past its boundary; it has a successor exactly when rows remain. */
  lemma CutIsPrefix(sort: Sort, boundary: Boundary, matching: set<Row>, limit: nat, mint: Row -> Cursor)
    requires Keyed(matching)
    ensures
      var page := Cut(sort, boundary, matching, limit, mint);
      var past := Past(sort, boundary, matching);
      && page.rows == Take(Sorted(sort, past), limit)
      && (page.hasNext <==> |past| > limit)
      && (page.next.Some? <==> |past| > limit > 0)
      && (page.next.Some? ==> |page.rows| == limit && page.next.value == mint(page.rows[limit - 1]))
  {
    ProbeThenTrim(Sorted(sort, Past(sort, boundary, matching)), limit);
  }

  /** A page with these rows and this successor is the cut; there is no other. */
  lemma CutIs(sort: Sort, boundary: Boundary, matching: set<Row>, limit: nat, mint: Row -> Cursor, page: Page)
    requires Keyed(matching)
    requires page.rows == Take(Sorted(sort, Past(sort, boundary, matching)), limit)
    requires page.hasNext <==> |Past(sort, boundary, matching)| > limit
    requires page.next == if page.hasNext && |page.rows| > 0 then Some(mint(page.rows[|page.rows| - 1])) else None
    ensures page == Cut(sort, boundary, matching, limit, mint)
  {
    CutIsPrefix(sort, boundary, matching, limit, mint);
  }

  lemma LookUpFinds<D>(store: Store<D>, row: Row)
    requires row in store.Of(row.side)
    ensures store.LookUp(row.side, row.id) == Some(row)
  {
  }

  /** The cursor that a single-table list mints for a row. */
  function PlainCursor(row: Row): Cursor {
    Cursor(Ms(row.time), row.id, None)
  }

  /** A cursor whose row is gone, has moved to another millisecond, or carries a scope is rejected. */
  lemma PlainCursorRejected<D>(
    cursor: Cursor, sort: Sort, limit: nat, where: (Row, D) -> bool, mint: Row -> Cursor,
    atCheck: Store<D>, atRead: Store<D>)
    ensures
      ReadKeysetPage(Plain, Left, Some(cursor), sort, limit, where, mint, atCheck, atRead).Err? <==>
      !(cursor.scope.None? && exists r :: r in atCheck.left && r.id == cursor.id && Ms(r.time) == cursor.ms)
  {
    forall r | r in atCheck.left && r.id == cursor.id
      ensures atCheck.LookUp(Left, cursor.id) == Some(r)
    {
      LookUpFinds(atCheck, r);
    }
  }

  /**
   * The page after a live anchor. When the anchor is deleted between the check and the page
   * query, the reader returns an empty last page instead of an error. That is the true page in
   * exactly two cases: the anchor is still there, or nothing matching follows it.
   */
  lemma {:induction false} PageAfterAnchor<D>(
    anchor: Row, sort: Sort, limit: nat, where: (Row, D) -> bool, atCheck: Store<D>, atRead: Store<D>)
    requires anchor in atCheck.left && limit > 0
    requires forall r :: r in atRead.left && r.id == anchor.id ==> r == anchor
    ensures
      var mint := (r: Row) => PlainCursor(r);
      var truth := Cut(sort, AfterRow(anchor), Matching(atRead, Left, where), limit, mint);
      var result := ReadKeysetPage(Plain, Left, Some(PlainCursor(anchor)), sort, limit, where, mint, atCheck, atRead);
      && result.Ok?
      && (anchor !in atRead.left ==> result.value == Page([], false, None))
      && (result.value == truth <==>
            anchor in atRead.left || Past(sort, AfterRow(anchor), Matching(atRead, Left, where)) == {})
  {
    LookUpFinds(atCheck, anchor);
    if anchor in atRead.left {
      LookUpFinds(atRead, anchor);
    } else {
      assert atRead.LookUp(Left, anchor.id) == None;
      EmptyTail(anchor, sort, limit, Matching(atRead, Left, where), (r: Row) => PlainCursor(r));
    }
  }

  /** The NULL boundary yields the empty last page, which is the true page only when nothing follows. */
  lemma EmptyTail(anchor: Row, sort: Sort, limit: nat, matching: set<Row>, mint: Row -> Cursor)
    requires Keyed(matching) && limit > 0
    ensures Cut(sort, NoRow, matching, limit, mint) == Page([], false, None)
    ensures Cut(sort, AfterRow(anchor), matching, limit, mint) == Page([], false, None)
            <==> Past(sort, AfterRow(anchor), matching) == {}
  {
    assert Past(sort, NoRow, matching) == {};
    CutIsPrefix(sort, NoRow, matching, limit, mint);
    CutIsPrefix(sort, AfterRow(anchor), matching, limit, mint);
  }

  /**
   * The empty page of a lost anchor at its worst: the anchor passes the check, is gone when the
   * page is read, and the row that follows it is never shown.
   */
  lemma LostAnchorHidesRows() returns (anchor: Row, later: Row, atCheck: Store<bool>, atRead: Store<bool>)
    ensures anchor in atCheck.left && anchor !in atRead.left && later in atRead.left && Before(Oldest, anchor, later)
    ensures
      ReadKeysetPage(
        Plain, Left, Some(PlainCursor(anchor)), Oldest, 1, (r: Row, d: bool) => true, (r: Row) => PlainCursor(r),
        atCheck, atRead)
      == Ok(Page([], false, None))
    ensures
      Cut(
        Oldest, AfterRow(anchor), Matching(atRead, Left, (r: Row, d: bool) => true), 1, (r: Row) => PlainCursor(r))
      == Page([later], false, None)
  {
    anchor, later := Row(0, 0, Left), Row(1, 1, Left);
    atCheck := Tables(map[anchor := true, later := true], map[]);
    atRead := Tables(map[later := true], map[]);
    var where := (r: Row, d: bool) => true;
    var mint := (r: Row) => PlainCursor(r);
    LookUpFinds(atCheck, anchor);
    assert atRead.LookUp(Left, anchor.id) == None;
    assert Matching(atRead, Left, where) == {later};
    EmptyTail(anchor, Oldest, 1, {later}, mint);
    OnlyRowAfter(anchor, later, mint);
  }

  lemma OnlyRowAfter(anchor: Row, later: Row, mint: Row -> Cursor)
    requires Before(Oldest, anchor, later)
    ensures Cut(Oldest, AfterRow(anchor), {later}, 1, mint) == Page([later], false, None)
  {
    assert Past(Oldest, AfterRow(anchor), {later}) == {later};
    assert Elems([later]) == {later};
    SortedUnique(Oldest, [later], {later});
    CutIsPrefix(Oldest, AfterRow(anchor), {later}, 1, mint);
  }
}
