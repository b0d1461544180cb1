/** Lists over one table: with the anchor columns alone, or with a filtered read of the anchor. */
module SingleList {
  import opened KeysetPage
  import opened Options
  import opened PageWalk
  import opened RowOrder

  /** One list of the left table. Its cursors carry a scope when its anchors are read with the filters. */
  datatype Request<!D> = Request(sort: Sort, limit: nat, where: (Row, D) -> bool, scope: Option<string>) {
    function Mint(row: Row): Cursor {
      Cursor(Ms(row.time), row.id, scope)
    }

    function Minter(): Row -> Cursor {
      row => Mint(row)
    }

    ghost predicate Lists(store: Store<D>, a: Row) {
      a in store.left && where(a, store.left[a])
    }

    /** The anchor read with the list's current filters. */
    ghost function ReadFiltered(store: Store<D>, cursor: Cursor): Option<Matched> {
      var found := store.LookUp(Left, cursor.id);
      if found.Some? && Lists(store, found.value) then Some(Matched(found.value, scope)) else None
    }

    ghost function Anchors(): Anchoring<D> {
      if scope.None? then Plain else TableRead((store, cursor) => ReadFiltered(store, cursor))
    }

    /** Whether the anchor check accepts a row's cursor: the row is there, or is there and still listed. */
    ghost predicate Accepts(store: Store<D>, a: Row) {
      if scope.None? then a in store.left else Lists(store, a)
    }

    ghost function Shown(m: Moment<D>): (rows: set<Row>)
      ensures Keyed(rows)
    {
      Matching(m.readLeft, Left, where)
    }

    ghost function Read(m: Moment<D>, cursor: Option<Cursor>): Result<Page, CursorError> {
      ReadKeysetPage(Anchors(), Left, cursor, sort, limit, where, Minter(), m.checkLeft, m.readLeft)
    }

    ghost function AsListing(): Listing<D> {
      Listing(sort, limit, Minter(), m => Shown(m), (m, cursor) => Read(m, cursor))
    }
  }

  /** No other row ever takes the identity of a shown row: time and identity are immutable. */
  ghost predicate Immutable<D>(req: Request<D>, moments: seq<Moment<D>>) {
    forall i, k, a {:trigger a in req.Shown(moments[i]), OnlyRowOfId(moments[k], a)} ::
      0 <= i < k < |moments| && a in req.Shown(moments[i]) ==> OnlyRowOfId(moments[k], a)
  }

  ghost predicate OnlyRowOfId<D>(m: Moment<D>, a: Row) {
    && a.side.Left?
    && (forall r :: r in m.checkLeft.left && r.id == a.id ==> r == a)
    && (forall r :: r in m.readLeft.left && r.id == a.id ==> r == a)
  }

  /** No shown row is deleted between the anchor check and the page query of one read. */
  ghost predicate WholeReads<D>(req: Request<D>, moments: seq<Moment<D>>) {
    forall i, k, a {:trigger a in req.Shown(moments[i]), req.Accepts(moments[k].checkLeft, a)} ::
      0 <= i < k < |moments| && a in req.Shown(moments[i]) && req.Accepts(moments[k].checkLeft, a)
      ==> a in moments[k].readLeft.left
  }

  lemma AnchorOfRow<D>(req: Request<D>, store: Store<D>, a: Row)
    requires a.side.Left? && forall r :: r in store.left && r.id == a.id ==> r == a
    ensures CheckAnchor(req.Anchors(), store, req.Mint(a)) == if req.Accepts(store, a) then Some(a) else None
  {
    if a in store.left {
      LookUpFinds(store, a);
    } else {
      assert store.LookUp(Left, a.id) == None;
    }
  }

  /** A cursor is refused exactly when its row is gone or, with a filtered read, no longer listed. */
  lemma RefusedExactlyWhenGone<D>(req: Request<D>, m: Moment<D>, a: Row)
    requires OnlyRowOfId(m, a)
    ensures Refuses(req.AsListing(), m, a) <==> !req.Accepts(m.checkLeft, a)
  {
    AnchorOfRow(req, m.checkLeft, a);
  }

  lemma PageAfterRow<D>(req: Request<D>, m: Moment<D>, a: Row)
    requires OnlyRowOfId(m, a) && req.Accepts(m.checkLeft, a) && a in m.readLeft.left
    ensures TruePage(req.AsListing(), m, AfterRow(a), Some(req.Mint(a)))
  {
    AnchorOfRow(req, m.checkLeft, a);
    LookUpFinds(m.readLeft, a);
  }

  lemma SingleListIsHonest<D>(req: Request<D>, moments: seq<Moment<D>>)
    requires req.limit > 0 && Immutable(req, moments) && WholeReads(req, moments)
    ensures Honest(req.AsListing(), moments)
  {
    var list := req.AsListing();
    forall i, k, a | 0 <= i < k < |moments| && a in list.matching(moments[i])
      ensures Refuses(list, moments[k], a) || TruePage(list, moments[k], AfterRow(a), Some(list.mint(a)))
    {
      assert a in req.Shown(moments[i]) && OnlyRowOfId(moments[k], a);
      RefusedExactlyWhenGone(req, moments[k], a);
      if req.Accepts(moments[k].checkLeft, a) {
        PageAfterRow(req, moments[k], a);
      }
    }
  }

  /**
   * Any cursor at all is accepted exactly when it carries the list's scope and names a row, at its
   * millisecond, that is there and, where the anchor is read with the filters, listed.
   */
  lemma {:induction false} SingleCursorExactly<D>(req: Request<D>, store: Store<D>, c: Cursor)
    ensures
      CheckAnchor(req.Anchors(), store, c).Some? <==>
        exists r ::
          && r in store.left && c == Cursor(Ms(r.time), r.id, req.scope)
          && (req.scope.Some? ==> req.where(r, store.left[r]))
  {
    forall r | r in store.left && r.id == c.id
      ensures store.LookUp(Left, c.id) == Some(r)
    {
      LookUpFinds(store, r);
    }
    if CheckAnchor(req.Anchors(), store, c).Some? {
      var r := CheckAnchor(req.Anchors(), store, c).value;
      assert r in store.left && c == Cursor(Ms(r.time), r.id, req.scope);
    }
  }

  /** A walk's last row was, at some later read, gone or no longer listed. */
  ghost predicate LastRowGone<D>(req: Request<D>, moments: seq<Moment<D>>, rows: seq<Row>) {
    rows != [] && exists k :: 0 <= k < |moments| && !req.Accepts(moments[k].checkLeft, rows[|rows| - 1])
  }

  /**
   * While rows come, change and go between reads, a walk repeats no row, invents none, and once
   * finished has shown every row that matched throughout. It fails only because the last row it
   * showed is gone or no longer listed, and then with an invalid cursor, never a wrong page.
   */
  lemma SingleWalk<D>(req: Request<D>, moments: seq<Moment<D>>)
    requires req.limit > 0 && Immutable(req, moments) && WholeReads(req, moments)
    ensures GoodWalk(req.AsListing(), moments, 0, Start, Walk(req.AsListing(), moments, 0, None))
    ensures
      var w := Walk(req.AsListing(), moments, 0, None);
      w.end == Rejected ==> LastRowGone(req, moments, w.rows)
  {
    SingleListIsHonest(req, moments);
    WalkKeepsStableRows(req.AsListing(), moments, 0, Start, None);
    RejectedRowIsGone(req, moments, Walk(req.AsListing(), moments, 0, None));
  }

  lemma RejectedRowIsGone<D>(req: Request<D>, moments: seq<Moment<D>>, w: Walked)
    requires Immutable(req, moments) && GoodWalk(req.AsListing(), moments, 0, Start, w)
    ensures w.end == Rejected ==> LastRowGone(req, moments, w.rows)
  {
    if w.end == Rejected {
      LastRowIsGone(req, moments, w.rows[|w.rows| - 1]);
    }
  }

  lemma LastRowIsGone<D>(req: Request<D>, moments: seq<Moment<D>>, last: Row)
    requires Immutable(req, moments) && RefusedLater(req.AsListing(), moments, 0, Some(last))
    ensures exists k :: 0 <= k < |moments| && !req.Accepts(moments[k].checkLeft, last)
  {
    var list := req.AsListing();
    var k :| 0 <= k < |moments| && ShownBefore(list, moments, k, last) && Refuses(list, moments[k], last);
    var i :| 0 <= i < k && i < |moments| && last in list.matching(moments[i]);
    assert last in req.Shown(moments[i]);
    RefusedExactlyWhenGone(req, moments[k], last);
  }

  /** Rows are only added, and a shown row stays acceptable to the anchor check. */
  ghost predicate KeepsAnchors<D>(req: Request<D>, moments: seq<Moment<D>>) {
    forall i, k, a {:trigger a in req.Shown(moments[i]), OnlyRowOfId(moments[k], a)} ::
      0 <= i < k < |moments| && a in req.Shown(moments[i])
      ==> OnlyRowOfId(moments[k], a) && req.Accepts(moments[k].checkLeft, a) && a in moments[k].readLeft.left
  }

  lemma KeptAnchorsAreFaithful<D>(req: Request<D>, moments: seq<Moment<D>>)
    requires req.limit > 0 && KeepsAnchors(req, moments)
    ensures Faithful(req.AsListing(), moments)
  {
    var list := req.AsListing();
    forall i, k, a | 0 <= i < k < |moments| && a in list.matching(moments[i])
      ensures TruePage(list, moments[k], AfterRow(a), Some(list.mint(a))) && !Refuses(list, moments[k], a)
    {
      assert a in req.Shown(moments[i]) && OnlyRowOfId(moments[k], a);
      PageAfterRow(req, moments[k], a);
    }
  }

  /** With the anchor columns alone, only insertions matter: filters may change under a row freely. */
  ghost predicate OnlyInserts<D>(moments: seq<Moment<D>>) {
    forall i, k, a {:trigger a in moments[i].readLeft.left, a in moments[k].checkLeft.left} ::
      0 <= i < k < |moments| && a in moments[i].readLeft.left
      ==> a in moments[k].checkLeft.left && a in moments[k].readLeft.left
  }

  lemma InsertsKeepAnchors<D>(req: Request<D>, moments: seq<Moment<D>>)
    requires req.scope.None? && OnlyInserts(moments)
    ensures KeepsAnchors(req, moments)
  {
    forall i, k, a | 0 <= i < k < |moments| && a in req.Shown(moments[i])
      ensures OnlyRowOfId(moments[k], a) && req.Accepts(moments[k].checkLeft, a) && a in moments[k].readLeft.left
    {
      assert a in moments[i].readLeft.left;
      assert a in moments[k].checkLeft.left && a in moments[k].readLeft.left;
    }
  }

  /**
   * With rows inserted anywhere between page reads and filters changing under them, a plain walk
   * never fails, and once finished has shown every row that matched throughout exactly once.
   */
  lemma PlainWalkUnderInserts<D>(req: Request<D>, moments: seq<Moment<D>>)
    requires req.scope.None? && req.limit > 0 && OnlyInserts(moments)
    ensures
      var list := req.AsListing();
      var w := Walk(list, moments, 0, None);
      && w.end != Rejected
      && Ascending(req.sort, w.rows)
      && (forall r :: r in w.rows ==> ShownAt(list, moments, 0, r))
      && (w.end == Finished ==> forall r :: Stable(list, moments, 0, r) ==> r in w.rows)
  {
    InsertsKeepAnchors(req, moments);
    KeptAnchorsAreFaithful(req, moments);
    WalkKeepsStableRows(req.AsListing(), moments, 0, Start, None);
    FaithfulNeverRejects(req.AsListing(), moments, 0, Start, None);
  }

  function At<D>(store: Store<D>): Moment<D> {
    Moment(store, store, store, store)
  }

  lemma FixedTableKeepsAnchors<D>(req: Request<D>, store: Store<D>, moments: seq<Moment<D>>)
    requires forall i :: 0 <= i < |moments| ==> moments[i] == At(store)
    ensures KeepsAnchors(req, moments)
  {
    forall i, k, a | 0 <= i < k < |moments| && a in req.Shown(moments[i])
      ensures OnlyRowOfId(moments[k], a) && req.Accepts(moments[k].checkLeft, a) && a in moments[k].readLeft.left
    {
      assert moments[i] == At(store) && moments[k] == At(store);
    }
  }

  /**
   * On a fixed table, with either kind of anchor, the whole walk is the sorted filtered table: it
   * ends, and it has as many items as the count query returns.
   */
  lemma SingleWalkIsComplete<D>(req: Request<D>, store: Store<D>, moments: seq<Moment<D>>)
    requires req.limit > 0 && forall i :: 0 <= i < |moments| ==> moments[i] == At(store)
    requires |moments| > |Matching(store, Left, req.where)|
    ensures
      var w := Walk(req.AsListing(), moments, 0, None);
      && w == Walked(Sorted(req.sort, Matching(store, Left, req.where)), Finished)
      && |w.rows| == |Matching(store, Left, req.where)|
  {
    var rows := Matching(store, Left, req.where);
    FixedTableKeepsAnchors(req, store, moments);
    KeptAnchorsAreFaithful(req, moments);
    assert Past(req.sort, Start, rows) == rows;
    WalkOverFixedTables(req.AsListing(), moments, 0, Start, None, rows);
  }

  /** On a fixed table the walk shows exactly the rows that pass the filters. */
  lemma {:induction false} SingleWalkShowsExactly<D>(
    req: Request<D>, store: Store<D>, moments: seq<Moment<D>>, r: Row)
    requires req.limit > 0 && forall i :: 0 <= i < |moments| ==> moments[i] == At(store)
    requires |moments| > |Matching(store, Left, req.where)|
    ensures r in Walk(req.AsListing(), moments, 0, None).rows <==> r in store.left && req.where(r, store.left[r])
  {
    SingleWalkIsComplete(req, store, moments);
    ListedRows(req.sort, Matching(store, Left, req.where), r);
  }

  lemma ListedRows(sort: Sort, rows: set<Row>, r: Row)
    requires Keyed(rows)
    ensures r in Sorted(sort, rows) <==> r in rows
  {
    assert r in Elems(Sorted(sort, rows)) <==> r in rows;
  }
}
