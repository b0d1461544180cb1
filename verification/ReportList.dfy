/** The Admin report list: Report Cases and Conduct Reports in one keyset order, with counts by status. */
module ReportList {
  import opened Options
  import opened RowOrder
  import opened KeysetPage
  import opened PageWalk
  import opened MergedList
  import opened ListSearch

  datatype Status =
    | CasePending | CaseDismissed | CaseHidden | CaseRestored
    | ConductPending | ConductUpheld | ConductDismissed

  const CASE_STATUSES := [CasePending, CaseDismissed, CaseHidden, CaseRestored]
  const CONDUCT_STATUSES := [ConductPending, ConductUpheld, ConductDismissed]

  predicate IsCaseStatus(s: Status) {
    s in CASE_STATUSES
  }

  /** A report's status and the joined columns that the Member, Quest and search filters read. */
  datatype Report = Report(status: Status, columns: int)

  /** Conduct Reports are the left table: 'CONDUCT_REPORT' sorts before 'REPORT_CASE'. */
  function KindName(side: Side): string {
    if side.Left? then "CONDUCT_REPORT" else "REPORT_CASE"
  }

  datatype StatusMode = OpenQueue | FullHistory

  datatype Query = Query(
    kind: Option<Side>, status: Option<Status>, mode: StatusMode,
    common: (Row, Report) -> bool, limit: int, sort: Sort)

  /** The status checks of both tables hold. */
  ghost predicate StatusesFit(store: Store<Report>) {
    && (forall r :: r in store.left ==> !IsCaseStatus(store.left[r].status))
    && (forall r :: r in store.right ==> IsCaseStatus(store.right[r].status))
  }

  predicate HasReportCases(q: Query) {
    q.kind != Some(Left)
  }

  predicate HasConductReports(q: Query) {
    q.kind != Some(Right)
  }

  predicate IsOpen(s: Status) {
    s == CasePending || s == CaseHidden || s == ConductPending
  }

  function Where(q: Query): (Row, Report) -> bool {
    (row, report: Report) =>
      && (if q.status.Some? then report.status == q.status.value
          else q.mode.OpenQueue? ==> IsOpen(report.status))
      && q.common(row, report)
  }

  /** Finds the cursor's row by its scope; a cursor without one must name exactly one table's row. */
  ghost function ReadReportAnchor(store: Store<Report>, cursor: Cursor): Option<Matched> {
    var conduct := store.LookUp(Left, cursor.id);
    var reportCase := store.LookUp(Right, cursor.id);
    var conductMatch := if conduct.Some? then Some(Matched(conduct.value, Some(KindName(Left)))) else None;
    var caseMatch := if reportCase.Some? then Some(Matched(reportCase.value, Some(KindName(Right)))) else None;
    if cursor.scope == Some(KindName(Right)) then caseMatch
    else if cursor.scope == Some(KindName(Left)) then conductMatch
    else if cursor.scope.Some? || (caseMatch.Some? && conductMatch.Some?) then None
    else if caseMatch.Some? then caseMatch else conductMatch
  }

  ghost function AsRequest(q: Query): Request<Report>
    requires q.limit >= 0
  {
    Request(
      q.sort, q.limit,
      HasConductReports(q) && (q.status.None? || !IsCaseStatus(q.status.value)),
      HasReportCases(q) && (q.status.None? || IsCaseStatus(q.status.value)),
      Where(q), (store, cursor) => ReadReportAnchor(store, cursor), side => KindName(side))
  }

  // ---- The cursor check ----

  lemma ReportAnchorFound(q: Query, store: Store<Report>, a: Row)
    requires q.limit >= 0 && a in store.Of(a.side)
    ensures CheckAnchor(Virtual(AsRequest(q).read), store, AsRequest(q).Mint(a)) == Some(a)
  {
    LookUpFinds(store, a);
    assert KindName(Left) != KindName(Right) by { assert KindName(Left)[0] != KindName(Right)[0]; }
  }

  /** A cursor of the older form, without a scope, is accepted exactly when one table alone has its row. */
  lemma UnscopedCursor(store: Store<Report>, ms: int, id: nat)
    ensures
      var accepted := CheckAnchor(
        Virtual((s: Store<Report>, c: Cursor) => ReadReportAnchor(s, c)), store, Cursor(ms, id, None));
      accepted.Some? <==>
        exists r, side :: r in store.Of(side) && r.id == id && Ms(r.time) == ms
          && forall other :: other in store.left.Keys + store.right.Keys && other.id == id ==> other == r
  {
    var accepted := CheckAnchor(
      Virtual((s: Store<Report>, c: Cursor) => ReadReportAnchor(s, c)), store, Cursor(ms, id, None));
    forall r, side | r in store.Of(side) && r.id == id
      ensures store.LookUp(side, id) == Some(r)
    {
      LookUpFinds(store, r);
    }
    if accepted.Some? {
      var r := accepted.value;
      assert r in store.Of(r.side) && r.id == id && Ms(r.time) == ms;
    }
  }

  /** A cursor with a scope is accepted exactly when the table it names has its row at its millisecond. */
  lemma ScopedCursor(store: Store<Report>, ms: int, id: nat, scope: string)
    ensures
      var accepted := CheckAnchor(
        Virtual((s: Store<Report>, c: Cursor) => ReadReportAnchor(s, c)), store, Cursor(ms, id, Some(scope)));
      accepted.Some? <==>
        exists r, side :: r in store.Of(side) && r.id == id && Ms(r.time) == ms && scope == KindName(side)
  {
    var accepted := CheckAnchor(
      Virtual((s: Store<Report>, c: Cursor) => ReadReportAnchor(s, c)), store, Cursor(ms, id, Some(scope)));
    assert KindName(Left) != KindName(Right) by { assert KindName(Left)[0] != KindName(Right)[0]; }
    forall r, side | r in store.Of(side) && r.id == id
      ensures store.LookUp(side, id) == Some(r)
    {
      LookUpFinds(store, r);
    }
    if accepted.Some? {
      var r := accepted.value;
      assert r in store.Of(r.side) && r.id == id && Ms(r.time) == ms && scope == KindName(r.side);
    }
  }

  ghost predicate Everywhere(m: Moment<Report>, a: Row) {
    && a in m.checkLeft.Of(a.side) && a in m.readLeft.Of(a.side)
    && a in m.checkRight.Of(a.side) && a in m.readRight.Of(a.side)
  }

  /** Rows are only ever added: whatever one moment's queries saw, every later query sees. */
  ghost predicate OnlyInserts(moments: seq<Moment<Report>>) {
    forall i, k, a ::
      0 <= i < k < |moments| && (a in moments[i].readLeft.left || a in moments[i].readRight.right)
      ==> Everywhere(moments[k], a)
  }

  lemma AnchoredEverywhere(q: Query, m: Moment<Report>, a: Row)
    requires q.limit >= 0 && Everywhere(m, a)
    ensures Anchored(AsRequest(q), m, a)
  {
    ReportAnchorFound(q, m.checkLeft, a);
    ReportAnchorFound(q, m.checkRight, a);
  }

  lemma InsertsKeepAnchors(q: Query, moments: seq<Moment<Report>>)
    requires q.limit >= 0 && OnlyInserts(moments)
    ensures AnchorsLast(AsRequest(q), moments)
  {
    var req := AsRequest(q);
    forall i, k, a | 0 <= i < k < |moments| && a in req.Shown(moments[i])
      ensures Anchored(req, moments[k], a)
    {
      assert a in moments[i].readLeft.left || a in moments[i].readRight.right;
      assert Everywhere(moments[k], a);
      AnchoredEverywhere(q, moments[k], a);
    }
  }

  /**
   * With reports filed and statuses changed between page reads, a finished walk has shown every
   * report that matched throughout exactly once, in order, and nothing that never matched.
   */
  lemma {:induction false} ReportWalkUnderInserts(q: Query, moments: seq<Moment<Report>>)
    requires 1 <= q.limit && OnlyInserts(moments)
    ensures
      var list := AsListing(AsRequest(q));
      var w := Walk(list, moments, 0, None);
      && w.end != Rejected
      && Ascending(q.sort, w.rows)
      && (forall r :: r in w.rows ==> ShownAt(list, moments, 0, r))
      && (w.end == Finished ==> forall r :: Stable(list, moments, 0, r) ==> r in w.rows)
  {
    InsertsKeepAnchors(q, moments);
    MergedListIsFaithful(AsRequest(q), moments);
    WalkKeepsStableRows(AsListing(AsRequest(q)), moments, 0, Start, None);
    FaithfulNeverRejects(AsListing(AsRequest(q)), moments, 0, Start, None);
  }

  // ---- The counts ----

  function At(store: Store<Report>): Moment<Report> {
    Moment(store, store, store, store)
  }

  /** The rows of one table's filter that have one status. */
  ghost function OfStatus(q: Query, store: Store<Report>, side: Side, s: Status): set<Row>
    requires q.limit >= 0
  {
    set r | r in AsRequest(q).ShownOn(side, At(store)) && store.Of(side)[r].status == s
  }

  ghost function CountOf(q: Query, store: Store<Report>, s: Status): nat
    requires q.limit >= 0
  {
    |OfStatus(q, store, Left, s)| + |OfStatus(q, store, Right, s)|
  }

  function SumOf(counts: map<Status, nat>, statuses: seq<Status>): nat
    requires forall s :: s in statuses ==> s in counts
  {
    if statuses == [] then 0 else counts[statuses[0]] + SumOf(counts, statuses[1..])
  }

  const ALL_STATUSES := CASE_STATUSES + CONDUCT_STATUSES

  function TotalCount(q: Query, counts: map<Status, nat>): nat
    requires forall s: Status :: s in counts
  {
    if q.status.Some? then counts[q.status.value]
    else if q.mode.FullHistory? then
      (if HasReportCases(q) then SumOf(counts, CASE_STATUSES) else 0)
      + (if HasConductReports(q) then SumOf(counts, CONDUCT_STATUSES) else 0)
    else
      (if HasReportCases(q) then counts[CasePending] + counts[CaseHidden] else 0)
      + (if HasConductReports(q) then counts[ConductPending] else 0)
  }

  /** Rows split by status lose and double nothing. */
  lemma {:induction false} SplitByStatus(
    rows: set<Row>, statusOf: Row -> Status, statuses: seq<Status>, counts: map<Status, nat>)
    requires forall i, j :: 0 <= i < j < |statuses| ==> statuses[i] != statuses[j]
    requires forall s :: s in statuses ==> s in counts && counts[s] == |set r | r in rows && statusOf(r) == s|
    ensures SumOf(counts, statuses) == |set r | r in rows && statusOf(r) in statuses|
  {
    if statuses == [] {
      assert (set r | r in rows && statusOf(r) in statuses) == {};
    } else {
      SplitByStatus(rows, statusOf, statuses[1..], counts);
      var first := set r | r in rows && statusOf(r) == statuses[0];
      var later := set r | r in rows && statusOf(r) in statuses[1..];
      assert statuses == [statuses[0]] + statuses[1..];
      assert (set r | r in rows && statusOf(r) in statuses) == first + later;
      assert first !! later;
    }
  }

  function StatusIn(table: map<Row, Report>): Row -> Status {
    r => if r in table then table[r].status else CasePending
  }

  /** A status is counted on its own table only. */
  lemma CountOnSide(q: Query, store: Store<Report>, side: Side, s: Status)
    requires q.limit >= 0 && StatusesFit(store) && (IsCaseStatus(s) <==> side.Right?)
    ensures CountOf(q, store, s) == |OfStatus(q, store, side, s)|
  {
    if side.Left? {
      assert OfStatus(q, store, Right, s) == {};
    } else {
      assert OfStatus(q, store, Left, s) == {};
    }
  }

  lemma StatusSlice(q: Query, store: Store<Report>, side: Side, s: Status)
    requires q.limit >= 0
    ensures (set r | r in AsRequest(q).ShownOn(side, At(store)) && StatusIn(store.Of(side))(r) == s)
         == OfStatus(q, store, side, s)
  {
  }

  lemma SideStatuses(q: Query, store: Store<Report>, side: Side, statuses: seq<Status>)
    requires q.limit >= 0 && StatusesFit(store)
    requires statuses == if side.Left? then CONDUCT_STATUSES else CASE_STATUSES
    ensures
      var shown := AsRequest(q).ShownOn(side, At(store));
      (set r | r in shown && StatusIn(store.Of(side))(r) in statuses) == shown
  {
    var shown := AsRequest(q).ShownOn(side, At(store));
    forall r | r in shown
      ensures StatusIn(store.Of(side))(r) in statuses
    {
      assert r in store.Of(side);
      Listed(store.Of(side)[r].status);
    }
  }

  lemma Listed(s: Status)
    ensures s in ALL_STATUSES
    ensures !IsCaseStatus(s) ==> s in CONDUCT_STATUSES
  {
    assert ALL_STATUSES
      == [CasePending, CaseDismissed, CaseHidden, CaseRestored, ConductPending, ConductUpheld, ConductDismissed];
    assert s == ALL_STATUSES[0] || s == ALL_STATUSES[1] || s == ALL_STATUSES[2] || s == ALL_STATUSES[3]
        || s == ALL_STATUSES[4] || s == ALL_STATUSES[5] || s == ALL_STATUSES[6];
  }

  /** One table's filtered rows are as many as its own statuses count. */
  lemma SideTotal(q: Query, store: Store<Report>, side: Side, counts: map<Status, nat>, statuses: seq<Status>)
    requires q.limit >= 0 && StatusesFit(store) && forall s: Status :: s in counts && counts[s] == CountOf(q, store, s)
    requires statuses == if side.Left? then CONDUCT_STATUSES else CASE_STATUSES
    ensures |AsRequest(q).ShownOn(side, At(store))| == SumOf(counts, statuses)
  {
    var shown := AsRequest(q).ShownOn(side, At(store));
    var statusOf := StatusIn(store.Of(side));
    forall s | s in statuses
      ensures counts[s] == |set r | r in shown && statusOf(r) == s|
    {
      CountOnSide(q, store, side, s);
      StatusSlice(q, store, side, s);
    }
    SplitByStatus(shown, statusOf, statuses, counts);
    SideStatuses(q, store, side, statuses);
  }

  /** Whether the filters let any report of this status through. */
  predicate Counted(q: Query, s: Status) {
    && (if q.status.Some? then s == q.status.value else q.mode.OpenQueue? ==> IsOpen(s))
    && (if IsCaseStatus(s) then HasReportCases(q) else HasConductReports(q))
  }

  /** Statuses that a filter leaves out are counted zero. */
  lemma FilteredOut(q: Query, store: Store<Report>, s: Status)
    requires q.limit >= 0 && StatusesFit(store)
    requires !Counted(q, s)
    ensures CountOf(q, store, s) == 0
  {
    assert OfStatus(q, store, Left, s) == {};
    assert OfStatus(q, store, Right, s) == {};
  }

  lemma SumCons(counts: map<Status, nat>, s: Status, rest: seq<Status>)
    requires forall s: Status :: s in counts
    ensures SumOf(counts, [s] + rest) == counts[s] + SumOf(counts, rest)
  {
    assert ([s] + rest)[1..] == rest;
  }

  lemma SumsSpelledOut(counts: map<Status, nat>)
    requires forall s: Status :: s in counts
    ensures SumOf(counts, CASE_STATUSES)
         == counts[CasePending] + counts[CaseDismissed] + counts[CaseHidden] + counts[CaseRestored]
    ensures SumOf(counts, CONDUCT_STATUSES) == counts[ConductPending] + counts[ConductUpheld] + counts[ConductDismissed]
  {
    SumCons(counts, CaseRestored, []);
    SumCons(counts, CaseHidden, [CaseRestored]);
    SumCons(counts, CaseDismissed, [CaseHidden, CaseRestored]);
    SumCons(counts, CasePending, [CaseDismissed, CaseHidden, CaseRestored]);
    SumCons(counts, ConductDismissed, []);
    SumCons(counts, ConductUpheld, [ConductDismissed]);
    SumCons(counts, ConductPending, [ConductUpheld, ConductDismissed]);
    assert CASE_STATUSES == [CasePending] + ([CaseDismissed] + ([CaseHidden] + ([CaseRestored] + [])));
    assert CONDUCT_STATUSES == [ConductPending] + ([ConductUpheld] + ([ConductDismissed] + []));
  }

  /** The total is both tables' sums once the filtered-out statuses are zero. */
  lemma TotalIsBothSums(q: Query, counts: map<Status, nat>)
    requires forall s: Status :: s in counts && (!Counted(q, s) ==> counts[s] == 0)
    ensures TotalCount(q, counts) == SumOf(counts, CONDUCT_STATUSES) + SumOf(counts, CASE_STATUSES)
  {
    SumsSpelledOut(counts);
    assert forall s: Status :: IsCaseStatus(s) <==> s in {CasePending, CaseDismissed, CaseHidden, CaseRestored};
  }

  /** The reported total is the number of rows the list is about, for every choice of filters. */
  lemma TotalCountIsSize(q: Query, store: Store<Report>, counts: map<Status, nat>)
    requires q.limit >= 0 && StatusesFit(store) && forall s: Status :: s in counts && counts[s] == CountOf(q, store, s)
    ensures TotalCount(q, counts) == |AsRequest(q).Shown(At(store))|
  {
    ShownSize(q, store);
    SideTotal(q, store, Left, counts, CONDUCT_STATUSES);
    SideTotal(q, store, Right, counts, CASE_STATUSES);
    forall s: Status | !Counted(q, s)
      ensures counts[s] == 0
    {
      FilteredOut(q, store, s);
    }
    TotalIsBothSums(q, counts);
  }

  lemma ShownSize(q: Query, store: Store<Report>)
    requires q.limit >= 0
    ensures |AsRequest(q).Shown(At(store))|
         == |AsRequest(q).ShownOn(Left, At(store))| + |AsRequest(q).ShownOn(Right, At(store))|
  {
    assert AsRequest(q).ShownOn(Left, At(store)) !! AsRequest(q).ShownOn(Right, At(store));
  }

  /**
   * On fixed tables the whole walk is the filtered union of both tables in order, it ends, and
   * it has as many items as the total count read back from the grouped status rows.
   */
  lemma ReportWalkIsComplete(
    q: Query, store: Store<Report>, moments: seq<Moment<Report>>, groups: seq<StatusCount<Status>>)
    requires 1 <= q.limit && StatusesFit(store)
    requires forall i :: 0 <= i < |moments| ==> moments[i] == At(store)
    requires |moments| > |AsRequest(q).Shown(At(store))|
    requires IsGrouping(groups, s => CountOf(q, store, s))
    ensures
      var w := Walk(AsListing(AsRequest(q)), moments, 0, None);
      var counts := CountsAfter(ALL_STATUSES, groups);
      && w == Walked(Sorted(q.sort, AsRequest(q).Shown(At(store))), Finished)
      && (forall s: Status :: s in counts)
      && |w.rows| == TotalCount(q, counts)
  {
    var counts := CountsAfter(ALL_STATUSES, groups);
    CountsAreTrue(ALL_STATUSES, groups, s => CountOf(q, store, s));
    forall s: Status
      ensures s in counts && counts[s] == CountOf(q, store, s)
    {
      Listed(s);
    }
    TotalCountIsSize(q, store, counts);
    InsertsKeepAnchors(q, moments);
    WalkIsSortedUnion(AsRequest(q), moments, AsRequest(q).Shown(At(store)));
  }

  // ---- Which reports are listed ----

  /** A report of this kind that the query asks for; without a status, the open queue holds the open ones. */
  predicate IsAskedFor(report: Report, kind: Side, r: Row, q: Query) {
    && q.kind in {None, Some(kind)}
    && (q.status.Some? ==> report.status == q.status.value)
    && (q.status.None? && q.mode.OpenQueue? ==> report.status in {CasePending, CaseHidden, ConductPending})
    && q.common(r, report)
  }

  predicate IsAskedForAt(m: Moment<Report>, q: Query, r: Row) {
    || (r in m.readLeft.left && IsAskedFor(m.readLeft.left[r], Left, r, q))
    || (r in m.readRight.right && IsAskedFor(m.readRight.right[r], Right, r, q))
  }

  lemma KindIs(kind: Option<Side>)
    ensures kind != Some(Right) <==> kind in {None, Some(Left)}
    ensures kind != Some(Left) <==> kind in {None, Some(Right)}
  {
    assert kind.Some? ==> kind.value.Left? || kind.value.Right?;
  }

  lemma SideIsAskedFor(q: Query, store: Store<Report>, side: Side, r: Row)
    requires q.limit >= 0 && StatusesFit(store) && r in store.Of(side)
    ensures
      var req := AsRequest(q);
      (if side.Left? then req.includeLeft else req.includeRight) && req.where(r, store.Of(side)[r])
      <==> IsAskedFor(store.Of(side)[r], side, r, q)
  {
    var report := store.Of(side)[r];
    KindIs(q.kind);
    assert IsCaseStatus(report.status) <==> side.Right?;
    assert IsOpen(report.status) <==> report.status in {CasePending, CaseHidden, ConductPending};
  }

  lemma ShownIsAskedFor(m: Moment<Report>, q: Query, r: Row)
    requires q.limit >= 0 && StatusesFit(m.readLeft) && StatusesFit(m.readRight)
    ensures r in AsRequest(q).Shown(m) <==> IsAskedForAt(m, q, r)
  {
    if r in m.readLeft.left {
      SideIsAskedFor(q, m.readLeft, Left, r);
    }
    if r in m.readRight.right {
      SideIsAskedFor(q, m.readRight, Right, r);
    }
  }

  /**
   * A finished walk, with reports filed and statuses changed between reads, has every report that
   * was asked for at every moment, and none that never was.
   */
  lemma {:induction false} ReportWalkShowsAskedFor(q: Query, moments: seq<Moment<Report>>, r: Row)
    requires 1 <= q.limit && OnlyInserts(moments)
    requires forall m :: m in moments ==> StatusesFit(m.readLeft) && StatusesFit(m.readRight)
    ensures
      var w := Walk(AsListing(AsRequest(q)), moments, 0, None);
      && (r in w.rows ==> exists m :: m in moments && IsAskedForAt(m, q, r))
      && (w.end == Finished && (forall m :: m in moments ==> IsAskedForAt(m, q, r)) ==> r in w.rows)
  {
    var list := AsListing(AsRequest(q));
    var w := Walk(list, moments, 0, None);
    ReportWalkUnderInserts(q, moments);
    if r in w.rows {
      assert ShownAt(list, moments, 0, r);
      var i :| 0 <= i < |moments| && r in list.matching(moments[i]);
      assert moments[i] in moments;
      ShownIsAskedFor(moments[i], q, r);
    }
    if forall m :: m in moments ==> IsAskedForAt(m, q, r) {
      forall i | 0 <= i < |moments|
        ensures r in list.matching(moments[i])
      {
        assert moments[i] in moments;
        ShownIsAskedFor(moments[i], q, r);
      }
      assert Stable(list, moments, 0, r);
    }
  }

  /** On fixed tables the walk shows a report exactly when the query asks for it. */
  lemma {:induction false} ReportWalkShowsExactly(
    q: Query, store: Store<Report>, moments: seq<Moment<Report>>, groups: seq<StatusCount<Status>>, r: Row)
    requires 1 <= q.limit && StatusesFit(store)
    requires forall i :: 0 <= i < |moments| ==> moments[i] == At(store)
    requires |moments| > |AsRequest(q).Shown(At(store))|
    requires IsGrouping(groups, s => CountOf(q, store, s))
    ensures r in Walk(AsListing(AsRequest(q)), moments, 0, None).rows <==> IsAskedForAt(At(store), q, r)
  {
    var shown := AsRequest(q).Shown(At(store));
    ReportWalkIsComplete(q, store, moments, groups);
    ShownIsAskedFor(At(store), q, r);
    assert r in Elems(Sorted(q.sort, shown)) <==> r in shown;
  }

  // ---- When a page fails ----

  /** No other row takes the identity of this one, in any of the four snapshots. */
  ghost predicate OnlyRowOfId(m: Moment<Report>, a: Row) {
    && (forall r :: r in m.checkLeft.Of(a.side) && r.id == a.id ==> r == a)
    && (forall r :: r in m.readLeft.Of(a.side) && r.id == a.id ==> r == a)
    && (forall r :: r in m.checkRight.Of(a.side) && r.id == a.id ==> r == a)
    && (forall r :: r in m.readRight.Of(a.side) && r.id == a.id ==> r == a)
  }

  lemma ReportAnchorIs(q: Query, store: Store<Report>, a: Row)
    requires q.limit >= 0 && forall r :: r in store.Of(a.side) && r.id == a.id ==> r == a
    ensures CheckAnchor(Virtual(AsRequest(q).read), store, AsRequest(q).Mint(a))
         == if a in store.Of(a.side) then Some(a) else None
  {
    if a in store.Of(a.side) {
      ReportAnchorFound(q, store, a);
    } else {
      assert store.LookUp(a.side, a.id) == None;
      assert KindName(Left) != KindName(Right) by { assert KindName(Left)[0] != KindName(Right)[0]; }
    }
  }

  /**
   * A page's cursor fails exactly when its report is gone from the check of a table that the query
   * reads: a query for one kind, or for a status of one kind, reads that kind's table only.
   */
  lemma {:induction false} ReportCursorFailsExactly(q: Query, m: Moment<Report>, a: Row)
    requires q.limit >= 0 && OnlyRowOfId(m, a)
    ensures
      var conductAsked :=
        && q.kind != Some(Right)
        && (q.status == None || q.status.value in {ConductPending, ConductUpheld, ConductDismissed});
      var casesAsked :=
        && q.kind != Some(Left)
        && (q.status == None || q.status.value in {CasePending, CaseDismissed, CaseHidden, CaseRestored});
      Refuses(AsListing(AsRequest(q)), m, a) <==>
        || (conductAsked && a !in m.checkLeft.Of(a.side))
        || (casesAsked && a !in m.checkRight.Of(a.side))
  {
    ReportAnchorIs(q, m.checkLeft, a);
    ReportAnchorIs(q, m.checkRight, a);
    MergedPageFailsExactly(AsRequest(q), m, a);
    if q.status.Some? {
      Listed(q.status.value);
      assert IsCaseStatus(q.status.value)
        <==> q.status.value in {CasePending, CaseDismissed, CaseHidden, CaseRestored};
    }
  }
}
