/** The client's walk over nextCursor, on fixed tables and on tables that grow between reads. */
module PageWalk {
  import opened Options
  import opened RowOrder
  import opened KeysetPage

  /** The four snapshots behind one page: each table's anchor check and each table's page query. */
  datatype Moment<D> = Moment(checkLeft: Store<D>, readLeft: Store<D>, checkRight: Store<D>, readRight: Store<D>)

  /** A paged list: its order, its page size, its cursors, the rows it should show, and its reader. */
  datatype Listing<!D> = Listing(
    sort: Sort, limit: nat, mint: Row -> Cursor,
    matching: Moment<D> -> set<Row>,
    read: (Moment<D>, Option<Cursor>) -> Result<Page, CursorError>)

  datatype End = Finished | StillMore | Rejected

  datatype Walked = Walked(rows: seq<Row>, end: End)

  /** Follow nextCursor from the given cursor, one page per moment. */
  ghost function Walk<D>(list: Listing<D>, moments: seq<Moment<D>>, k: nat, cursor: Option<Cursor>): Walked
    requires k <= |moments|
    decreases |moments| - k
  {
    if k == |moments| then Walked([], StillMore)
    else
      var page := list.read(moments[k], cursor);
      if page.Err? then Walked([], Rejected)
      else if page.value.next.None? then Walked(page.value.rows, Finished)
      else
        var rest := Walk(list, moments, k + 1, page.value.next);
        Walked(page.value.rows + rest.rows, rest.end)
  }

  /**
   * The reader never lies: at every moment it returns the true page, from the start and after
   * every row shown before, or refuses the cursor of such a row.
   */
  ghost predicate Honest<D>(list: Listing<D>, moments: seq<Moment<D>>) {
    && list.limit > 0
    && (forall k {:trigger TruePage(list, moments[k], Start, None)} ::
          0 <= k < |moments| ==> TruePage(list, moments[k], Start, None))
    && (forall i, k, a
            {:trigger a in list.matching(moments[i]), TruePage(list, moments[k], AfterRow(a), Some(list.mint(a)))} ::
          0 <= i < k < |moments| && a in list.matching(moments[i])
          ==> Refuses(list, moments[k], a) || TruePage(list, moments[k], AfterRow(a), Some(list.mint(a))))
  }

  /** The row's cursor is an invalid one at this moment. */
  ghost predicate Refuses<D>(list: Listing<D>, m: Moment<D>, a: Row) {
    list.read(m, Some(list.mint(a))).Err?
  }

  /** An honest reader that refuses no cursor of a row shown before. */
  ghost predicate Faithful<D>(list: Listing<D>, moments: seq<Moment<D>>) {
    && Honest(list, moments)
    && (forall i, k, a {:trigger a in list.matching(moments[i]), Refuses(list, moments[k], a)} ::
          0 <= i < k < |moments| && a in list.matching(moments[i]) ==> !Refuses(list, moments[k], a))
  }

  ghost predicate TruePage<D>(list: Listing<D>, m: Moment<D>, boundary: Boundary, cursor: Option<Cursor>) {
    && Keyed(list.matching(m))
    && list.read(m, cursor) == Ok(Cut(list.sort, boundary, list.matching(m), list.limit, list.mint))
  }

  /** Where a walk stands: at the start, or after a row that an earlier page showed. */
  ghost predicate StandsAt<D>(
    list: Listing<D>, moments: seq<Moment<D>>, k: nat, boundary: Boundary, cursor: Option<Cursor>)
  {
    match boundary
    case Start => cursor.None?
    case AfterRow(a) =>
      && cursor == Some(list.mint(a))
      && ShownBefore(list, moments, k, a)
    case NoRow => false
  }

  ghost predicate ShownBefore<D>(list: Listing<D>, moments: seq<Moment<D>>, k: nat, a: Row) {
    exists i :: 0 <= i < k && i < |moments| && a in list.matching(moments[i])
  }

  ghost predicate ShownAt<D>(list: Listing<D>, moments: seq<Moment<D>>, k: nat, r: Row) {
    exists i :: k <= i < |moments| && r in list.matching(moments[i])
  }

  /** The rows that match at every moment from the k-th on. */
  ghost predicate Stable<D>(list: Listing<D>, moments: seq<Moment<D>>, k: nat, r: Row) {
    forall i :: k <= i < |moments| ==> r in list.matching(moments[i])
  }

  /** What the walk needs to know of one page. */
  ghost predicate GoodPage<D>(list: Listing<D>, matching: set<Row>, boundary: Boundary, page: Page) {
    && Ascending(list.sort, page.rows)
    && (forall r :: r in page.rows ==> r in matching && boundary.Admits(list.sort, r))
    && (page.next.Some? ==> |page.rows| > 0 && page.next.value == list.mint(page.rows[|page.rows| - 1]))
    && (forall r :: r in matching && boundary.Admits(list.sort, r) && r !in page.rows
          ==> page.next.Some? && Before(list.sort, page.rows[|page.rows| - 1], r))
  }

  lemma PrefixLeavesLater(sort: Sort, p: seq<Row>, past: set<Row>, limit: nat)
    requires limit > 0 && IsPrefix(sort, p, past, limit)
    ensures forall r :: r in p ==> r in past
    ensures forall r :: r in past && r !in p ==> |p| == limit < |past| && Before(sort, p[limit - 1], r)
  {
    ElemsSize(sort, p);
    forall r | r in p
      ensures r in past
    {
      assert r in Elems(p);
    }
    forall r | r in past && r !in p
      ensures |p| == limit < |past| && Before(sort, p[limit - 1], r)
    {
      SizeMonotone(Elems(p) + {r}, past);
      assert p[limit - 1] in p;
    }
  }

  lemma PageFacts<D>(list: Listing<D>, m: Moment<D>, boundary: Boundary, cursor: Option<Cursor>)
    requires list.limit > 0 && TruePage(list, m, boundary, cursor)
    ensures list.read(m, cursor).Ok?
    ensures GoodPage(list, list.matching(m), boundary, list.read(m, cursor).value)
  {
    var past := Past(list.sort, boundary, list.matching(m));
    CutIsPrefix(list.sort, boundary, list.matching(m), list.limit, list.mint);
    TakeIsPrefix(list.sort, past, list.limit);
    PrefixLeavesLater(list.sort, Take(Sorted(list.sort, past), list.limit), past, list.limit);
  }

  /** Each page of an honest walk is good, and leaves the walk standing at its last row. */
  lemma StepFacts<D>(list: Listing<D>, moments: seq<Moment<D>>, k: nat, boundary: Boundary, cursor: Option<Cursor>)
    requires k < |moments| && Honest(list, moments) && StandsAt(list, moments, k, boundary, cursor)
    ensures list.read(moments[k], cursor).Err? ==> boundary.AfterRow? && Refuses(list, moments[k], boundary.anchor)
    ensures list.read(moments[k], cursor).Ok?
      ==> GoodPage(list, list.matching(moments[k]), boundary, list.read(moments[k], cursor).value)
    ensures
      list.read(moments[k], cursor).Ok? && list.read(moments[k], cursor).value.next.Some? ==>
        var page := list.read(moments[k], cursor).value;
        |page.rows| > 0 && StandsAt(list, moments, k + 1, AfterRow(page.rows[|page.rows| - 1]), page.next)
  {
    if list.read(moments[k], cursor).Ok? {
      assert TruePage(list, moments[k], boundary, cursor);
      PageFacts(list, moments[k], boundary, cursor);
      var page := list.read(moments[k], cursor).value;
      if page.next.Some? {
        assert page.rows[|page.rows| - 1] in page.rows;
      }
    }
  }

  /** The row whose cursor a walk read last: its last row, or where it stood before. */
  function LastStand(boundary: Boundary, rows: seq<Row>): Option<Row> {
    if rows != [] then Some(rows[|rows| - 1])
    else if boundary.AfterRow? then Some(boundary.anchor)
    else None
  }

  /** A rejected walk stopped because the cursor of its last row was refused. */
  ghost predicate RefusedLater<D>(list: Listing<D>, moments: seq<Moment<D>>, k: nat, last: Option<Row>) {
    && last.Some?
    && exists j :: k <= j < |moments| && ShownBefore(list, moments, j, last.value)
                    && Refuses(list, moments[j], last.value)
  }

  /**
   * What a walk over changing tables shows: no row twice, only rows that were there, and, once
   * finished, every row that matched throughout. It fails only at its last row's refused cursor.
   */
  ghost predicate GoodWalk<D>(list: Listing<D>, moments: seq<Moment<D>>, k: nat, boundary: Boundary, w: Walked) {
    && Ascending(list.sort, w.rows)
    && (forall r :: r in w.rows ==> boundary.Admits(list.sort, r) && ShownAt(list, moments, k, r))
    && (w.end == Finished ==>
          forall r :: Stable(list, moments, k, r) && boundary.Admits(list.sort, r) ==> r in w.rows)
    && (w.end == Rejected ==> RefusedLater(list, moments, k, LastStand(boundary, w.rows)))
  }

  /** Every walk of an honest reader is good. */
  lemma {:induction false} WalkKeepsStableRows<D>(
    list: Listing<D>, moments: seq<Moment<D>>, k: nat, boundary: Boundary, cursor: Option<Cursor>)
    requires k <= |moments| && Honest(list, moments) && StandsAt(list, moments, k, boundary, cursor)
    ensures GoodWalk(list, moments, k, boundary, Walk(list, moments, k, cursor))
    decreases |moments| - k
  {
    if k < |moments| {
      StepFacts(list, moments, k, boundary, cursor);
      if list.read(moments[k], cursor).Ok? && list.read(moments[k], cursor).value.next.Some? {
        WalkOn(list, moments, k, boundary, cursor, list.read(moments[k], cursor).value);
      }
    }
  }

  lemma {:induction false} WalkOn<D>(
    list: Listing<D>, moments: seq<Moment<D>>, k: nat, boundary: Boundary, cursor: Option<Cursor>, page: Page)
    requires k < |moments| && Honest(list, moments) && StandsAt(list, moments, k, boundary, cursor)
    requires list.read(moments[k], cursor) == Ok(page) && page.next.Some?
    requires GoodPage(list, list.matching(moments[k]), boundary, page)
    requires StandsAt(list, moments, k + 1, AfterRow(page.rows[|page.rows| - 1]), page.next)
    ensures GoodWalk(list, moments, k, boundary, Walk(list, moments, k, cursor))
    decreases |moments| - k, 0
  {
    var last := page.rows[|page.rows| - 1];
    WalkKeepsStableRows(list, moments, k + 1, AfterRow(last), page.next);
    var rest := Walk(list, moments, k + 1, page.next);
    JoinPages(list, moments, k, boundary, page.rows, rest.rows);
    if rest.end == Finished {
      CoverPages(list, moments, k, boundary, page, rest.rows);
    } else if rest.end == Rejected {
      assert LastStand(boundary, page.rows + rest.rows) == LastStand(AfterRow(last), rest.rows);
    }
  }

  lemma {:induction false} FaithfulNeverRejects<D>(
    list: Listing<D>, moments: seq<Moment<D>>, k: nat, boundary: Boundary, cursor: Option<Cursor>)
    requires k <= |moments| && Faithful(list, moments) && StandsAt(list, moments, k, boundary, cursor)
    ensures Walk(list, moments, k, cursor).end != Rejected
    decreases |moments| - k
  {
    if k < |moments| {
      StepFacts(list, moments, k, boundary, cursor);
      var page := list.read(moments[k], cursor);
      if page.Ok? && page.value.next.Some? {
        FaithfulNeverRejects(list, moments, k + 1, AfterRow(page.value.rows[|page.value.rows| - 1]), page.value.next);
      }
    }
  }

  /** A stable row is on this page, or past its last row and so on a later page. */
  lemma CoverPages<D>(list: Listing<D>, moments: seq<Moment<D>>, k: nat, boundary: Boundary, page: Page, rest: seq<Row>)
    requires k < |moments| && page.next.Some? && GoodPage(list, list.matching(moments[k]), boundary, page)
    requires
      var last := AfterRow(page.rows[|page.rows| - 1]);
      forall r :: Stable(list, moments, k + 1, r) && last.Admits(list.sort, r) ==> r in rest
    ensures forall r :: Stable(list, moments, k, r) && boundary.Admits(list.sort, r) ==> r in page.rows + rest
  {
    forall r | Stable(list, moments, k, r) && boundary.Admits(list.sort, r)
      ensures r in page.rows + rest
    {
      assert r in list.matching(moments[k]);
      if r !in page.rows {
        assert AfterRow(page.rows[|page.rows| - 1]).Admits(list.sort, r);
        assert Stable(list, moments, k + 1, r);
      }
    }
  }

  lemma JoinPages<D>(
    list: Listing<D>, moments: seq<Moment<D>>, k: nat, boundary: Boundary, page: seq<Row>, rest: seq<Row>)
    requires k < |moments| && |page| > 0 && Ascending(list.sort, page) && Ascending(list.sort, rest)
    requires forall r :: r in page ==> boundary.Admits(list.sort, r) && r in list.matching(moments[k])
    requires
      var last := AfterRow(page[|page| - 1]);
      forall r :: r in rest ==> last.Admits(list.sort, r) && ShownAt(list, moments, k + 1, r)
    ensures Ascending(list.sort, page + rest)
    ensures forall r :: r in page + rest ==> boundary.Admits(list.sort, r) && ShownAt(list, moments, k, r)
  {
    var last := page[|page| - 1];
    assert last in page;
    var q := page + rest;
    forall i, j | 0 <= i < j < |q|
      ensures Before(list.sort, q[i], q[j])
    {
      if i < |page| <= j {
        assert q[j] in rest;
        assert Before(list.sort, last, q[j]);
        assert i == |page| - 1 || Before(list.sort, q[i], last);
      }
    }
    forall r | r in q
      ensures boundary.Admits(list.sort, r) && ShownAt(list, moments, k, r)
    {
      if r !in page {
        assert r in rest;
        assert Before(list.sort, last, r);
      }
    }
  }

  /**
   * On fixed tables a walk of more pages than rows finishes, and its pages joined together are
   * exactly the sorted rows past the starting point.
   */
  lemma {:induction false} WalkOverFixedTables<D>(
    list: Listing<D>, moments: seq<Moment<D>>, k: nat, boundary: Boundary, cursor: Option<Cursor>, rows: set<Row>)
    requires k <= |moments| && Faithful(list, moments) && StandsAt(list, moments, k, boundary, cursor)
    requires Keyed(rows) && forall i :: 0 <= i < |moments| ==> list.matching(moments[i]) == rows
    requires |moments| - k > |Past(list.sort, boundary, rows)|
    ensures Walk(list, moments, k, cursor) == Walked(Sorted(list.sort, Past(list.sort, boundary, rows)), Finished)
    decreases |moments| - k
  {
    WalkKeepsStableRows(list, moments, k, boundary, cursor);
    WalkFinishes(list, moments, k, boundary, cursor, rows);
    var w := Walk(list, moments, k, cursor);
    var past := Past(list.sort, boundary, rows);
    forall r | r in past
      ensures r in Elems(w.rows)
    {
      assert Stable(list, moments, k, r);
    }
    assert Elems(w.rows) == past;
    SortedUnique(list.sort, w.rows, past);
  }

  lemma {:induction false} WalkFinishes<D>(
    list: Listing<D>, moments: seq<Moment<D>>, k: nat, boundary: Boundary, cursor: Option<Cursor>, rows: set<Row>)
    requires k <= |moments| && Faithful(list, moments) && StandsAt(list, moments, k, boundary, cursor)
    requires Keyed(rows) && forall i :: 0 <= i < |moments| ==> list.matching(moments[i]) == rows
    requires |moments| - k > |Past(list.sort, boundary, rows)|
    ensures Walk(list, moments, k, cursor).end == Finished
    decreases |moments| - k
  {
    StepFacts(list, moments, k, boundary, cursor);
    var page := list.read(moments[k], cursor).value;
    if page.next.Some? {
      var last := page.rows[|page.rows| - 1];
      assert last in page.rows;
      PastShrinks(list.sort, boundary, last, rows);
      WalkFinishes(list, moments, k + 1, AfterRow(last), page.next, rows);
    }
  }

  lemma PastShrinks(sort: Sort, boundary: Boundary, last: Row, rows: set<Row>)
    requires last in Past(sort, boundary, rows)
    ensures |Past(sort, AfterRow(last), rows)| < |Past(sort, boundary, rows)|
  {
    var past := Past(sort, boundary, rows);
    var later := Past(sort, AfterRow(last), rows);
    forall r | r in later
      ensures r in past - {last}
    {
      assert Before(sort, last, r);
    }
    SizeMonotone(later, past - {last});
  }
}
