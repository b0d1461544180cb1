/** A list over two tables: two keyset pages, merged in memory, cut to the limit, one cursor minted. */
module MergedList {
  import opened Options
  import opened RowOrder
  import opened KeysetPage
  import opened PageWalk

  /** One request of a merged list. A table can be left out of it. */
  datatype Request<!D> = Request(
    sort: Sort, limit: nat, includeLeft: bool, includeRight: bool,
    where: (Row, D) -> bool, read: AnchorRead<D>, scopeOf: Side -> string)
  {
    function Mint(row: Row): Cursor {
      Cursor(Ms(row.time), row.id, Some(scopeOf(row.side)))
    }

    function Minter(): Row -> Cursor {
      row => Mint(row)
    }

    ghost function ShownOn(side: Side, m: Moment<D>): (rows: set<Row>)
      ensures Keyed(rows) && forall r :: r in rows ==> r.side == side
    {
      match side
      case Left => if includeLeft then Matching(m.readLeft, Left, where) else {}
      case Right => if includeRight then Matching(m.readRight, Right, where) else {}
    }

    /** The rows the list is about: the filtered union of its tables. */
    ghost function Shown(m: Moment<D>): (rows: set<Row>)
      ensures Keyed(rows)
    {
      ShownOn(Left, m) + ShownOn(Right, m)
    }
  }

  const NO_PAGE := Page([], false, None)

  ghost function SidePage<D>(
    req: Request<D>, side: Side, m: Moment<D>, cursor: Option<Cursor>): Result<Page, CursorError>
  {
    var mint := req.Minter();
    match side
    case Left =>
      if req.includeLeft
      then
        ReadKeysetPage(
          Virtual(req.read), Left, cursor, req.sort, req.limit, req.where, mint, m.checkLeft, m.readLeft)
      else Ok(NO_PAGE)
    case Right =>
      if req.includeRight
      then
        ReadKeysetPage(
          Virtual(req.read), Right, cursor, req.sort, req.limit, req.where, mint, m.checkRight, m.readRight)
      else Ok(NO_PAGE)
  }

  /** The merge, the cut, and the single next cursor of the two pages. */
  ghost function Merge(sort: Sort, limit: nat, mint: Row -> Cursor, left: Page, right: Page): Page
    requires Keyed(Elems(left.rows) + Elems(right.rows))
  {
    var sorted := Sorted(sort, Elems(left.rows) + Elems(right.rows));
    var items := Take(sorted, limit);
    var hasNext := left.hasNext || right.hasNext || |sorted| > limit;
    Page(items, hasNext, if hasNext && |items| > 0 then Some(mint(items[|items| - 1])) else None)
  }

  lemma SideRows<D>(req: Request<D>, side: Side, m: Moment<D>, cursor: Option<Cursor>)
    requires SidePage(req, side, m, cursor).Ok?
    ensures
      var rows := Elems(SidePage(req, side, m, cursor).value.rows);
      Keyed(rows) && forall r :: r in rows ==> r.side == side
  {
    var mint := req.Minter();
    if |SidePage(req, side, m, cursor).value.rows| > 0 {
      var matching :=
        if side.Left? then Matching(m.readLeft, Left, req.where) else Matching(m.readRight, Right, req.where);
      var boundary: Boundary :|
        SidePage(req, side, m, cursor).value == Cut(req.sort, boundary, matching, req.limit, mint);
      CutIsPrefix(req.sort, boundary, matching, req.limit, mint);
      TakeIsPrefix(req.sort, Past(req.sort, boundary, matching), req.limit);
    }
  }

  lemma BothSides<D>(req: Request<D>, m: Moment<D>, cursor: Option<Cursor>)
    requires SidePage(req, Left, m, cursor).Ok? && SidePage(req, Right, m, cursor).Ok?
    ensures Keyed(Elems(SidePage(req, Left, m, cursor).value.rows) + Elems(SidePage(req, Right, m, cursor).value.rows))
  {
    SideRows(req, Left, m, cursor);
    SideRows(req, Right, m, cursor);
  }

  /** Both pages are read, and either one's invalid cursor fails the list. */
  ghost function MergedPage<D>(req: Request<D>, m: Moment<D>, cursor: Option<Cursor>): Result<Page, CursorError> {
    var left := SidePage(req, Left, m, cursor);
    var right := SidePage(req, Right, m, cursor);
    if left.Err? || right.Err? then Err(InvalidCursor)
    else
      BothSides(req, m, cursor);
      Ok(Merge(req.sort, req.limit, req.Minter(), left.value, right.value))
  }

  /** The cursor check accepts the row behind the cursor, wherever its table is read. */
  ghost predicate Anchored<D>(req: Request<D>, m: Moment<D>, a: Row) {
    && CheckAnchor(Virtual(req.read), m.checkLeft, req.Mint(a)) == Some(a)
    && CheckAnchor(Virtual(req.read), m.checkRight, req.Mint(a)) == Some(a)
    && a in m.readLeft.Of(a.side) && a in m.readRight.Of(a.side)
  }

  /** The cursor that a boundary stands for. */
  ghost predicate Resumes<D>(req: Request<D>, m: Moment<D>, boundary: Boundary, cursor: Option<Cursor>) {
    match boundary
    case Start => cursor.None?
    case AfterRow(a) => cursor == Some(req.Mint(a)) && Anchored(req, m, a)
    case NoRow => false
  }

  /** A page that holds the first rows of a table. */
  ghost predicate Heads(sort: Sort, limit: nat, page: Page, rows: set<Row>)
    requires Keyed(rows)
  {
    page.rows == Take(Sorted(sort, rows), limit) && (page.hasNext <==> |rows| > limit)
  }

  lemma SidePageIsCut<D>(
    req: Request<D>, side: Side, m: Moment<D>, boundary: Boundary, cursor: Option<Cursor>)
    returns (page: Page)
    requires Resumes(req, m, boundary, cursor)
    ensures SidePage(req, side, m, cursor) == Ok(page)
    ensures Heads(req.sort, req.limit, page, Past(req.sort, boundary, req.ShownOn(side, m)))
  {
    var mint := req.Minter();
    var store := if side.Left? then m.readLeft else m.readRight;
    if boundary.AfterRow? {
      LookUpFinds(store, boundary.anchor);
    }
    CutIsPrefix(req.sort, boundary, Matching(store, side, req.where), req.limit, mint);
    assert Past(req.sort, boundary, {}) == {};
    page := SidePage(req, side, m, cursor).value;
  }

  lemma MergeHeads(sort: Sort, limit: nat, mint: Row -> Cursor, left: Page, right: Page, a: set<Row>, b: set<Row>)
    requires Keyed(a + b) && Keyed(Elems(left.rows) + Elems(right.rows))
    requires Heads(sort, limit, left, a) && Heads(sort, limit, right, b)
    ensures Heads(sort, limit, Merge(sort, limit, mint, left, right), a + b)
  {
    MergeTakesUnionPrefix(sort, a, b, limit);
  }

  lemma MergeIsCut(
    sort: Sort, limit: nat, mint: Row -> Cursor, left: Page, right: Page, a: set<Row>, b: set<Row>,
    boundary: Boundary, union: set<Row>)
    requires Keyed(a + b) && Keyed(Elems(left.rows) + Elems(right.rows)) && Keyed(union)
    requires Heads(sort, limit, left, a) && Heads(sort, limit, right, b)
    requires Past(sort, boundary, union) == a + b
    ensures Merge(sort, limit, mint, left, right) == Cut(sort, boundary, union, limit, mint)
  {
    MergeHeads(sort, limit, mint, left, right, a, b);
    CutIs(sort, boundary, union, limit, mint, Merge(sort, limit, mint, left, right));
  }

  lemma PastOfUnion(sort: Sort, boundary: Boundary, a: set<Row>, b: set<Row>)
    ensures Past(sort, boundary, a + b) == Past(sort, boundary, a) + Past(sort, boundary, b)
  {
  }

  lemma MergedSides<D>(req: Request<D>, m: Moment<D>, boundary: Boundary, left: Page, right: Page)
    requires Keyed(Elems(left.rows) + Elems(right.rows))
    requires Heads(req.sort, req.limit, left, Past(req.sort, boundary, req.ShownOn(Left, m)))
    requires Heads(req.sort, req.limit, right, Past(req.sort, boundary, req.ShownOn(Right, m)))
    ensures Merge(req.sort, req.limit, req.Minter(), left, right)
         == Cut(req.sort, boundary, req.Shown(m), req.limit, req.Minter())
  {
    PastOfUnion(req.sort, boundary, req.ShownOn(Left, m), req.ShownOn(Right, m));
    MergeIsCut(
      req.sort, req.limit, req.Minter(), left, right,
      Past(req.sort, boundary, req.ShownOn(Left, m)), Past(req.sort, boundary, req.ShownOn(Right, m)),
      boundary, req.Shown(m));
  }

  lemma MergedPageIs<D>(req: Request<D>, m: Moment<D>, cursor: Option<Cursor>, left: Page, right: Page)
    requires SidePage(req, Left, m, cursor) == Ok(left) && SidePage(req, Right, m, cursor) == Ok(right)
    ensures Keyed(Elems(left.rows) + Elems(right.rows))
    ensures MergedPage(req, m, cursor) == Ok(Merge(req.sort, req.limit, req.Minter(), left, right))
  {
    BothSides(req, m, cursor);
  }

  lemma MergedPageOf<D>(
    req: Request<D>, m: Moment<D>, boundary: Boundary, cursor: Option<Cursor>, left: Page, right: Page)
    requires SidePage(req, Left, m, cursor) == Ok(left) && SidePage(req, Right, m, cursor) == Ok(right)
    requires Heads(req.sort, req.limit, left, Past(req.sort, boundary, req.ShownOn(Left, m)))
    requires Heads(req.sort, req.limit, right, Past(req.sort, boundary, req.ShownOn(Right, m)))
    ensures MergedPage(req, m, cursor) == Ok(Cut(req.sort, boundary, req.Shown(m), req.limit, req.Minter()))
  {
    MergedPageIs(req, m, cursor, left, right);
    MergedSides(req, m, boundary, left, right);
  }

  /** Two merged keyset pages are one keyset page of both tables together. */
  lemma {:induction false} MergedPageIsTrue<D>(
    req: Request<D>, m: Moment<D>, boundary: Boundary, cursor: Option<Cursor>)
    requires Resumes(req, m, boundary, cursor)
    ensures MergedPage(req, m, cursor) == Ok(Cut(req.sort, boundary, req.Shown(m), req.limit, req.Minter()))
  {
    var left := SidePageIsCut(req, Left, m, boundary, cursor);
    var right := SidePageIsCut(req, Right, m, boundary, cursor);
    MergedPageOf(req, m, boundary, cursor, left, right);
  }

  // ---- Cursors whose row the four snapshots do not agree on ----

  function Checked<D>(m: Moment<D>, side: Side): Store<D> {
    if side.Left? then m.checkLeft else m.checkRight
  }

  function Queried<D>(m: Moment<D>, side: Side): Store<D> {
    if side.Left? then m.readLeft else m.readRight
  }

  predicate Includes<D>(req: Request<D>, side: Side) {
    if side.Left? then req.includeLeft else req.includeRight
  }

  /** The cursor's row is found as it was or not at all: no other row takes its identity. */
  ghost predicate ResolvesOn<D>(req: Request<D>, m: Moment<D>, side: Side, a: Row) {
    && CheckAnchor(Virtual(req.read), Checked(m, side), req.Mint(a)) in {None, Some(a)}
    && (forall r :: r in Queried(m, side).Of(a.side) && r.id == a.id ==> r == a)
  }

  ghost predicate Resolves<D>(req: Request<D>, m: Moment<D>, a: Row) {
    ResolvesOn(req, m, Left, a) && ResolvesOn(req, m, Right, a)
  }

  /** A table that is left out of the list checks nothing. */
  ghost predicate AcceptsOn<D>(req: Request<D>, m: Moment<D>, side: Side, a: Row) {
    Includes(req, side) ==> CheckAnchor(Virtual(req.read), Checked(m, side), req.Mint(a)) == Some(a)
  }

  ghost predicate Accepts<D>(req: Request<D>, m: Moment<D>, a: Row) {
    AcceptsOn(req, m, Left, a) && AcceptsOn(req, m, Right, a)
  }

  /** The boundary that a table's page query sees: none passes it once the row is gone. */
  ghost function SeenBoundary<D>(m: Moment<D>, side: Side, a: Row): Boundary {
    if a in Queried(m, side).Of(a.side) then AfterRow(a) else NoRow
  }

  ghost function SeenOn<D>(req: Request<D>, m: Moment<D>, side: Side, a: Row): set<Row> {
    Past(req.sort, SeenBoundary(m, side, a), req.ShownOn(side, m))
  }

  /** The rows that the two page queries can still see past the cursor. */
  ghost function Seen<D>(req: Request<D>, m: Moment<D>, a: Row): (rows: set<Row>)
    ensures Keyed(rows) && rows <= Past(req.sort, AfterRow(a), req.Shown(m))
  {
    SeenOn(req, m, Left, a) + SeenOn(req, m, Right, a)
  }

  /** Those that follow the cursor but that a query no longer sees. */
  ghost function Lost<D>(req: Request<D>, m: Moment<D>, a: Row): set<Row> {
    Past(req.sort, AfterRow(a), req.Shown(m)) - Seen(req, m, a)
  }

  lemma SidePageFails<D>(req: Request<D>, m: Moment<D>, side: Side, a: Row)
    requires ResolvesOn(req, m, side, a)
    ensures SidePage(req, side, m, Some(req.Mint(a))).Ok? <==> AcceptsOn(req, m, side, a)
  {
  }

  lemma SeenBoundaryIs<D>(req: Request<D>, m: Moment<D>, side: Side, a: Row)
    requires ResolvesOn(req, m, side, a)
    ensures BoundaryAt(Queried(m, side), a) == SeenBoundary(m, side, a)
  {
    var store := Queried(m, side);
    if a in store.Of(a.side) {
      LookUpFinds(store, a);
    } else {
      assert store.LookUp(a.side, a.id) == None;
    }
  }

  lemma SidePageSeen<D>(req: Request<D>, m: Moment<D>, side: Side, a: Row) returns (page: Page)
    requires ResolvesOn(req, m, side, a) && AcceptsOn(req, m, side, a)
    ensures SidePage(req, side, m, Some(req.Mint(a))) == Ok(page)
    ensures Heads(req.sort, req.limit, page, SeenOn(req, m, side, a))
  {
    var boundary := SeenBoundary(m, side, a);
    SeenBoundaryIs(req, m, side, a);
    CutIsPrefix(req.sort, boundary, Matching(Queried(m, side), side, req.where), req.limit, req.Minter());
    assert Past(req.sort, boundary, {}) == {};
    page := SidePage(req, side, m, Some(req.Mint(a))).value;
  }

  lemma MergedPageFails<D>(req: Request<D>, m: Moment<D>, cursor: Option<Cursor>)
    ensures MergedPage(req, m, cursor).Ok?
            <==> SidePage(req, Left, m, cursor).Ok? && SidePage(req, Right, m, cursor).Ok?
  {
  }

  /** The merged list fails exactly when an included table's check no longer accepts the cursor. */
  lemma MergedPageFailsExactly<D>(req: Request<D>, m: Moment<D>, a: Row)
    requires Resolves(req, m, a)
    ensures MergedPage(req, m, Some(req.Mint(a))).Err? <==> !Accepts(req, m, a)
  {
    SidePageFails(req, m, Left, a);
    SidePageFails(req, m, Right, a);
    MergedPageFails(req, m, Some(req.Mint(a)));
  }

  /** The successor that a page of these rows mints. */
  ghost predicate MintsNext<D>(req: Request<D>, page: Page) {
    page.next == if page.hasNext && |page.rows| > 0 then Some(req.Minter()(page.rows[|page.rows| - 1])) else None
  }

  lemma MergedSeen<D>(req: Request<D>, m: Moment<D>, a: Row, left: Page, right: Page, page: Page)
    requires Keyed(Elems(left.rows) + Elems(right.rows))
    requires page == Merge(req.sort, req.limit, req.Minter(), left, right)
    requires Heads(req.sort, req.limit, left, SeenOn(req, m, Left, a))
    requires Heads(req.sort, req.limit, right, SeenOn(req, m, Right, a))
    ensures Heads(req.sort, req.limit, page, Seen(req, m, a)) && MintsNext(req, page)
  {
    assert Keyed(Seen(req, m, a));
    MergeHeads(req.sort, req.limit, req.Minter(), left, right, SeenOn(req, m, Left, a), SeenOn(req, m, Right, a));
  }

  /** An accepted cursor gets the first rows of those the queries can see, with their own successor. */
  lemma MergedPageSeen<D>(req: Request<D>, m: Moment<D>, a: Row) returns (page: Page)
    requires Resolves(req, m, a) && Accepts(req, m, a)
    ensures MergedPage(req, m, Some(req.Mint(a))) == Ok(page)
    ensures Heads(req.sort, req.limit, page, Seen(req, m, a)) && MintsNext(req, page)
  {
    var left := SidePageSeen(req, m, Left, a);
    var right := SidePageSeen(req, m, Right, a);
    MergedPageIs(req, m, Some(req.Mint(a)), left, right);
    page := Merge(req.sort, req.limit, req.Minter(), left, right);
    MergedSeen(req, m, a, left, right, page);
  }

  /** Rows missing from a list leave its first page true exactly when there are none, or all come later. */
  lemma SameFirstPage(sort: Sort, seen: set<Row>, all: set<Row>, limit: nat)
    requires Keyed(all) && Keyed(seen) && seen <= all && limit > 0
    ensures
      Take(Sorted(sort, seen), limit) == Take(Sorted(sort, all), limit) && (|seen| > limit <==> |all| > limit)
      <==> LeavesFirstPage(sort, seen, all - seen, limit)
  {
    TakeIsPrefix(sort, seen, limit);
    TakeIsPrefix(sort, all, limit);
    var rows := Take(Sorted(sort, seen), limit);
    if LeavesFirstPage(sort, seen, all - seen, limit) {
      LaterRowsKeepPage(sort, seen, all, limit);
    } else if rows == Take(Sorted(sort, all), limit) && (|seen| > limit <==> |all| > limit) {
      SamePageLater(sort, seen, all, limit);
    }
  }

  ghost predicate LeavesFirstPage(sort: Sort, seen: set<Row>, lost: set<Row>, limit: nat)
    requires Keyed(seen) && limit > 0
  {
    || lost == {}
    || (|seen| > limit && forall x :: x in lost ==> Before(sort, Take(Sorted(sort, seen), limit)[limit - 1], x))
  }

  lemma UpToLast(sort: Sort, rows: seq<Row>, x: Row, y: Row)
    requires Ascending(sort, rows) && y in rows && Before(sort, rows[|rows| - 1], x)
    ensures Before(sort, y, x)
  {
  }

  lemma LaterRowsKeepPage(sort: Sort, seen: set<Row>, all: set<Row>, limit: nat)
    requires Keyed(all) && Keyed(seen) && seen <= all && limit > 0
    requires LeavesFirstPage(sort, seen, all - seen, limit)
    ensures Take(Sorted(sort, seen), limit) == Take(Sorted(sort, all), limit) && (|seen| > limit <==> |all| > limit)
  {
    if all - seen == {} {
      assert all == seen;
    } else {
      LaterRowsPrefix(sort, seen, all, limit, Take(Sorted(sort, seen), limit));
      SizeMonotone(seen, all);
    }
  }

  lemma LongerPrefix(sort: Sort, rows: seq<Row>, seen: set<Row>, all: set<Row>, limit: nat)
    requires seen <= all && |seen| > limit > 0 && IsPrefix(sort, rows, seen, limit)
    requires forall x :: x in all - seen ==> Before(sort, rows[limit - 1], x)
    ensures IsPrefix(sort, rows, all, limit)
  {
    SizeMonotone(seen, all);
    forall x, y | x in all && x !in rows && y in rows
      ensures Before(sort, y, x)
    {
      if x !in seen {
        assert x in all - seen && |rows| == limit;
        UpToLast(sort, rows, x, y);
      }
    }
  }

  lemma LaterRowsPrefix(sort: Sort, seen: set<Row>, all: set<Row>, limit: nat, rows: seq<Row>)
    requires Keyed(all) && Keyed(seen) && seen <= all && |seen| > limit > 0
    requires rows == Take(Sorted(sort, seen), limit)
    requires forall x :: x in all - seen ==> Before(sort, rows[limit - 1], x)
    ensures rows == Take(Sorted(sort, all), limit)
  {
    TakeIsPrefix(sort, seen, limit);
    LongerPrefix(sort, rows, seen, all, limit);
    PrefixIsTake(sort, rows, all, limit);
  }

  lemma SamePageLater(sort: Sort, seen: set<Row>, all: set<Row>, limit: nat)
    requires Keyed(all) && Keyed(seen) && seen <= all && limit > 0
    requires Take(Sorted(sort, seen), limit) == Take(Sorted(sort, all), limit) && (|seen| > limit <==> |all| > limit)
    ensures LeavesFirstPage(sort, seen, all - seen, limit)
  {
    var rows := Take(Sorted(sort, seen), limit);
    TakeIsPrefix(sort, seen, limit);
    TakeIsPrefix(sort, all, limit);
    if |seen| <= limit {
      ElemsSize(sort, rows);
      SizeMonotone(Elems(rows), all);
      assert all == Elems(rows);
    } else {
      forall x | x in all - seen
        ensures Before(sort, rows[limit - 1], x)
      {
        assert x !in Elems(rows);
        assert rows[limit - 1] in rows;
      }
    }
  }

  /**
   * A cursor that both checks accept gets the true merged page exactly when the page queries miss
   * none of the rows that follow it, or only rows that come after a full page of the others. A
   * query misses rows when the cursor's row was deleted before it ran.
   */
  lemma {:induction false} MergedPageTrueExactly<D>(req: Request<D>, m: Moment<D>, a: Row)
    requires req.limit > 0 && Resolves(req, m, a) && Accepts(req, m, a)
    ensures
      MergedPage(req, m, Some(req.Mint(a))) == Ok(Cut(req.sort, AfterRow(a), req.Shown(m), req.limit, req.Minter()))
      <==> LeavesFirstPage(req.sort, Seen(req, m, a), Lost(req, m, a), req.limit)
  {
    var all := Past(req.sort, AfterRow(a), req.Shown(m));
    var page := MergedPageSeen(req, m, a);
    SameFirstPage(req.sort, Seen(req, m, a), all, req.limit);
    CutIsPrefix(req.sort, AfterRow(a), req.Shown(m), req.limit, req.Minter());
    if page.rows == Take(Sorted(req.sort, all), req.limit) && (page.hasNext <==> |all| > req.limit) {
      CutIs(req.sort, AfterRow(a), req.Shown(m), req.limit, req.Minter(), page);
    }
  }

  /** The cursor's row is still in both tables' page queries. */
  ghost predicate Standing<D>(req: Request<D>, m: Moment<D>, a: Row) {
    Resolves(req, m, a) && a in m.readLeft.Of(a.side) && a in m.readRight.Of(a.side)
  }

  lemma StandingPage<D>(req: Request<D>, m: Moment<D>, a: Row)
    requires req.limit > 0 && Standing(req, m, a)
    ensures
      Refuses(AsListing(req), m, a) || TruePage(AsListing(req), m, AfterRow(a), Some(req.Mint(a)))
  {
    MergedPageFailsExactly(req, m, a);
    if Accepts(req, m, a) {
      PastOfUnion(req.sort, AfterRow(a), req.ShownOn(Left, m), req.ShownOn(Right, m));
      assert Lost(req, m, a) == {};
      MergedPageTrueExactly(req, m, a);
    }
  }

  /** Every row shown at an earlier moment is still there at each later one, accepted or not. */
  ghost predicate RowsRemain<D>(req: Request<D>, moments: seq<Moment<D>>) {
    forall i, k, a :: 0 <= i < k < |moments| && a in req.Shown(moments[i]) ==> Standing(req, moments[k], a)
  }

  /** While rows remain, the merged list shows true pages or refuses the cursor. */
  lemma MergedListIsHonest<D>(req: Request<D>, moments: seq<Moment<D>>)
    requires req.limit > 0 && RowsRemain(req, moments)
    ensures Honest(AsListing(req), moments)
  {
    var list := AsListing(req);
    forall k | 0 <= k < |moments|
      ensures TruePage(list, moments[k], Start, None)
    {
      MergedPageIsTrue(req, moments[k], Start, None);
    }
    forall i, k, a | 0 <= i < k < |moments| && a in list.matching(moments[i])
      ensures Refuses(list, moments[k], a) || TruePage(list, moments[k], AfterRow(a), Some(list.mint(a)))
    {
      StandingPage(req, moments[k], a);
    }
  }

  ghost function AsListing<D>(req: Request<D>): Listing<D> {
    Listing(req.sort, req.limit, req.Minter(), m => req.Shown(m), (m, cursor) => MergedPage(req, m, cursor))
  }

  /** Every row shown at an earlier moment still anchors a page at each later one. */
  ghost predicate AnchorsLast<D>(req: Request<D>, moments: seq<Moment<D>>) {
    forall i, k, a :: 0 <= i < k < |moments| && a in req.Shown(moments[i]) ==> Anchored(req, moments[k], a)
  }

  lemma MergedListIsFaithful<D>(req: Request<D>, moments: seq<Moment<D>>)
    requires req.limit > 0 && AnchorsLast(req, moments)
    ensures Faithful(AsListing(req), moments)
  {
    var list := AsListing(req);
    forall k | 0 <= k < |moments|
      ensures TruePage(list, moments[k], Start, None)
    {
      MergedPageIsTrue(req, moments[k], Start, None);
    }
    forall i, k, a | 0 <= i < k < |moments| && a in list.matching(moments[i])
      ensures TruePage(list, moments[k], AfterRow(a), Some(list.mint(a)))
    {
      MergedPageIsTrue(req, moments[k], AfterRow(a), Some(req.Mint(a)));
    }
  }

  /** On fixed tables, following nextCursor from the first page yields the sorted union, and stops. */
  lemma {:induction false} WalkIsSortedUnion<D>(req: Request<D>, moments: seq<Moment<D>>, rows: set<Row>)
    requires req.limit > 0 && AnchorsLast(req, moments)
    requires Keyed(rows) && |moments| > |rows| && forall i :: 0 <= i < |moments| ==> req.Shown(moments[i]) == rows
    ensures Walk(AsListing(req), moments, 0, None) == Walked(Sorted(req.sort, rows), Finished)
  {
    MergedListIsFaithful(req, moments);
    assert Past(req.sort, Start, rows) == rows;
    WalkOverFixedTables(AsListing(req), moments, 0, Start, None, rows);
  }
}
