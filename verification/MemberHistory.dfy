/** A Member's Quest history: Quests hired and Assignments worked, newest first, bound to the filters. */
module MemberHistory {
  import opened Options
  import opened RowOrder
  import opened KeysetPage
  import opened PageWalk
  import opened MergedList

  datatype QuestStatus =
    | Draft | Open | AwaitingConsent | Assigned | InProgress | Submitted
    | Approved | Rework | Completed | Cancelled | Disputed | Failed

  datatype AssignmentStatus = Active | AssignmentCompleted | Incomplete | AssignmentCancelled

  /**
   * What the history filters read of a row: whose it is, the Quest's status, and the Assignment
   * statuses behind it (all of a hired Quest's, or the worked Assignment's own).
   */
  datatype Entry = Entry(memberId: nat, questStatus: QuestStatus, assignments: set<AssignmentStatus>)

  /** Hired Quests are the left table: 'HIRER' sorts before 'WORKER'. */
  datatype Query = Query(
    role: Option<Side>, questStatus: Option<QuestStatus>, assignmentStatus: Option<AssignmentStatus>)

  function RoleName(side: Side): string {
    if side.Left? then "HIRER" else "WORKER"
  }

  /** The status's position in the enum as one upper-case base 36 digit. */
  function QuestDigit(s: QuestStatus): char {
    match s
    case Draft => '0' case Open => '1' case AwaitingConsent => '2' case Assigned => '3'
    case InProgress => '4' case Submitted => '5' case Approved => '6' case Rework => '7'
    case Completed => '8' case Cancelled => '9' case Disputed => 'A' case Failed => 'B'
  }

  function AssignmentName(s: AssignmentStatus): string {
    match s
    case Active => "ASSIGNMENT_ACTIVE"
    case AssignmentCompleted => "ASSIGNMENT_COMPLETED"
    case Incomplete => "ASSIGNMENT_INCOMPLETE"
    case AssignmentCancelled => "ASSIGNMENT_CANCELLED"
  }

  function RoleFilterText(q: Query): string {
    match q.role
    case Some(side) => RoleName(side)
    case None => "ALL"
  }

  function QuestFilterText(q: Query): string {
    match q.questStatus
    case Some(s) => [QuestDigit(s)]
    case None => "N"
  }

  function AssignmentFilterText(q: Query): string {
    match q.assignmentStatus
    case Some(s) => AssignmentName(s)
    case None => "N"
  }

  function CursorScope(side: Side, q: Query): string {
    var filters := QuestFilterText(q) + ("_" + AssignmentFilterText(q));
    "MH_" + (RoleName(side) + ("_" + (RoleFilterText(q) + ("_" + filters))))
  }

  function Where(userId: nat, q: Query): (Row, Entry) -> bool {
    (row: Row, e: Entry) =>
      && e.memberId == userId
      && (q.role.Some? ==> q.role.value == row.side)
      && (q.questStatus.Some? ==> e.questStatus == q.questStatus.value)
      && (q.assignmentStatus.Some? ==> q.assignmentStatus.value in e.assignments)
  }

  ghost function ReadOn(store: Store<Entry>, side: Side, userId: nat, q: Query, cursor: Cursor): Option<Matched> {
    var found := store.LookUp(side, cursor.id);
    if found.Some? && Where(userId, q)(found.value, store.Of(side)[found.value])
    then Some(Matched(found.value, Some(CursorScope(side, q))))
    else None
  }

  /** The anchor is read with the list's current filters, from the table its scope names. */
  ghost function ReadHistoryAnchor(store: Store<Entry>, userId: nat, q: Query, cursor: Cursor): Option<Matched> {
    if cursor.scope == Some(CursorScope(Left, q)) then ReadOn(store, Left, userId, q, cursor)
    else if cursor.scope == Some(CursorScope(Right, q)) then ReadOn(store, Right, userId, q, cursor)
    else None
  }

  ghost function AsRequest(userId: nat, q: Query, limit: nat): Request<Entry> {
    Request(
      Newest, limit, true, true, Where(userId, q),
      (store, cursor) => ReadHistoryAnchor(store, userId, q, cursor), side => CursorScope(side, q))
  }

  // ---- The scope text ----

  /** Two different words of which neither starts the other keep any continuations apart. */
  lemma WordsApart(a: string, x: string, b: string, y: string, i: nat)
    requires i < |a| && i < |b| && a[i] != b[i]
    ensures a + x != b + y
  {
    assert (a + x)[i] == a[i] && (b + y)[i] == b[i];
  }

  lemma RoleTextApart(p: Query, q: Query, x: string, y: string)
    requires RoleFilterText(p) + x == RoleFilterText(q) + y
    ensures p.role == q.role && x == y
  {
    if p.role == q.role {
      JoinsEqual(RoleFilterText(p), x, RoleFilterText(q), y);
    } else {
      WordsApart(RoleFilterText(p), x, RoleFilterText(q), y, 0);
    }
  }

  lemma SideTextApart(s: Side, t: Side, x: string, y: string)
    requires RoleName(s) + x == RoleName(t) + y
    ensures s == t && x == y
  {
    if s == t {
      JoinsEqual(RoleName(s), x, RoleName(t), y);
    } else {
      WordsApart(RoleName(s), x, RoleName(t), y, 0);
    }
  }

  lemma AssignmentTextApart(p: Query, q: Query)
    requires AssignmentFilterText(p) == AssignmentFilterText(q)
    ensures p.assignmentStatus == q.assignmentStatus
  {
    assert AssignmentName(AssignmentCompleted)[12] == 'O';
    assert AssignmentName(AssignmentCancelled)[12] == 'A';
  }

  /** The scope names the role and every filter: equal scopes come from equal requests. */
  lemma ScopeNamesFilters(s: Side, p: Query, t: Side, q: Query)
    ensures CursorScope(s, p) == CursorScope(t, q) <==> s == t && p == q
  {
    if CursorScope(s, p) == CursorScope(t, q) {
      var restP := "_" + (QuestFilterText(p) + ("_" + AssignmentFilterText(p)));
      var restQ := "_" + (QuestFilterText(q) + ("_" + AssignmentFilterText(q)));
      JoinsEqual(
        "MH_", RoleName(s) + ("_" + (RoleFilterText(p) + restP)), "MH_",
        RoleName(t) + ("_" + (RoleFilterText(q) + restQ)));
      SideTextApart(s, t, "_" + (RoleFilterText(p) + restP), "_" + (RoleFilterText(q) + restQ));
      JoinsEqual("_", RoleFilterText(p) + restP, "_", RoleFilterText(q) + restQ);
      RoleTextApart(p, q, restP, restQ);
      JoinsEqual(
        "_", QuestFilterText(p) + ("_" + AssignmentFilterText(p)), "_",
        QuestFilterText(q) + ("_" + AssignmentFilterText(q)));
      JoinsEqual(QuestFilterText(p), "_" + AssignmentFilterText(p), QuestFilterText(q), "_" + AssignmentFilterText(q));
      assert QuestFilterText(p)[0] == QuestFilterText(q)[0];
      JoinsEqual("_", AssignmentFilterText(p), "_", AssignmentFilterText(q));
      AssignmentTextApart(p, q);
    }
  }

  // ---- Cursors and walks ----

  ghost predicate StillListed(store: Store<Entry>, userId: nat, q: Query, a: Row) {
    a in store.Of(a.side) && Where(userId, q)(a, store.Of(a.side)[a])
  }

  /**
   * A cursor minted under one set of filters is accepted under another exactly when they are the
   * same filters and its row is still listed. Reusing it elsewhere is an error, not a shifted page.
   */
  lemma CursorBoundToFilters(store: Store<Entry>, userId: nat, limit: nat, minted: Query, used: Query, a: Row)
    requires forall r :: r in store.Of(a.side) && r.id == a.id ==> r == a
    ensures
      CheckAnchor(Virtual(AsRequest(userId, used, limit).read), store, AsRequest(userId, minted, limit).Mint(a))
      == if minted == used && StillListed(store, userId, used, a) then Some(a) else None
  {
    ScopeNamesFilters(a.side, minted, Left, used);
    ScopeNamesFilters(a.side, minted, Right, used);
    if a in store.Of(a.side) {
      LookUpFinds(store, a);
    } else {
      assert store.LookUp(a.side, a.id) == None;
    }
  }

  ghost predicate ListedEverywhere(m: Moment<Entry>, userId: nat, q: Query, a: Row) {
    && StillListed(m.checkLeft, userId, q, a) && a in m.readLeft.Of(a.side)
    && StillListed(m.checkRight, userId, q, a) && a in m.readRight.Of(a.side)
  }

  /** Rows are added between page reads, and a listed row keeps matching the filters. */
  ghost predicate KeepsMatching(moments: seq<Moment<Entry>>, userId: nat, q: Query, limit: nat) {
    forall i, k, a ::
      0 <= i < k < |moments| && a in AsRequest(userId, q, limit).Shown(moments[i])
      ==> ListedEverywhere(moments[k], userId, q, a)
  }

  lemma HistoryAnchored(m: Moment<Entry>, userId: nat, q: Query, limit: nat, a: Row)
    requires ListedEverywhere(m, userId, q, a)
    ensures Anchored(AsRequest(userId, q, limit), m, a)
  {
    CursorBoundToFilters(m.checkLeft, userId, limit, q, q, a);
    CursorBoundToFilters(m.checkRight, userId, limit, q, q, a);
  }

  lemma HistoryAnchorsLast(moments: seq<Moment<Entry>>, userId: nat, q: Query, limit: nat)
    requires KeepsMatching(moments, userId, q, limit)
    ensures AnchorsLast(AsRequest(userId, q, limit), moments)
  {
    forall i, k, a | 0 <= i < k < |moments| && a in AsRequest(userId, q, limit).Shown(moments[i])
      ensures Anchored(AsRequest(userId, q, limit), moments[k], a)
    {
      HistoryAnchored(moments[k], userId, q, limit, a);
    }
  }

  /** While the filters keep matching, a history walk never fails. */
  lemma ListedWalkNeverFails(moments: seq<Moment<Entry>>, userId: nat, q: Query, limit: nat)
    requires limit > 0 && KeepsMatching(moments, userId, q, limit)
    ensures Walk(AsListing(AsRequest(userId, q, limit)), moments, 0, None).end != Rejected
  {
    HistoryAnchorsLast(moments, userId, q, limit);
    MergedListIsFaithful(AsRequest(userId, q, limit), moments);
    FaithfulNeverRejects(AsListing(AsRequest(userId, q, limit)), moments, 0, Start, None);
  }

  ghost predicate Everywhere(m: Moment<Entry>, a: Row) {
    && a in m.checkLeft.Of(a.side) && a in m.readLeft.Of(a.side)
    && a in m.checkRight.Of(a.side) && a in m.readRight.Of(a.side)
  }

  /** Rows are only ever added; their statuses may change at any time. */
  ghost predicate OnlyInserts(moments: seq<Moment<Entry>>) {
    forall i, k, a ::
      0 <= i < k < |moments| && (a in moments[i].readLeft.left || a in moments[i].readRight.right)
      ==> Everywhere(moments[k], a)
  }

  /** The entry is listed, or not, in the snapshots of both tables' cursor checks. */
  ghost predicate ListedByChecks(m: Moment<Entry>, userId: nat, q: Query, a: Row) {
    StillListed(m.checkLeft, userId, q, a) && StillListed(m.checkRight, userId, q, a)
  }

  lemma EverywhereStands(m: Moment<Entry>, userId: nat, q: Query, limit: nat, a: Row)
    requires Everywhere(m, a)
    ensures Standing(AsRequest(userId, q, limit), m, a)
    ensures Accepts(AsRequest(userId, q, limit), m, a) <==> ListedByChecks(m, userId, q, a)
  {
    CursorBoundToFilters(m.checkLeft, userId, limit, q, q, a);
    CursorBoundToFilters(m.checkRight, userId, limit, q, q, a);
  }

  lemma InsertsStand(moments: seq<Moment<Entry>>, userId: nat, q: Query, limit: nat)
    requires OnlyInserts(moments)
    ensures RowsRemain(AsRequest(userId, q, limit), moments)
  {
    var req := AsRequest(userId, q, limit);
    forall i, k, a | 0 <= i < k < |moments| && a in req.Shown(moments[i])
      ensures Standing(req, moments[k], a)
    {
      assert a in moments[i].readLeft.left || a in moments[i].readRight.right;
      assert Everywhere(moments[k], a);
      EverywhereStands(moments[k], userId, q, limit, a);
    }
  }

  /** A page cursor of the history fails exactly when one of its two checks no longer lists the entry. */
  lemma HistoryCursorFailsExactly(m: Moment<Entry>, userId: nat, q: Query, limit: nat, a: Row)
    requires Everywhere(m, a)
    ensures Refuses(AsListing(AsRequest(userId, q, limit)), m, a) <==> !ListedByChecks(m, userId, q, a)
  {
    EverywhereStands(m, userId, q, limit, a);
    MergedPageFailsExactly(AsRequest(userId, q, limit), m, a);
  }

  /** The last entry that a walk showed was unlisted by a status change before a later read. */
  ghost predicate LastEntryUnlisted(moments: seq<Moment<Entry>>, userId: nat, q: Query, rows: seq<Row>) {
    rows != [] && exists k :: 0 <= k < |moments| && !ListedByChecks(moments[k], userId, q, rows[|rows| - 1])
  }

  /**
   * With rows added and statuses changed freely between page reads, a history walk repeats no
   * entry, shows only entries that were listed, and once finished has shown every entry that
   * stayed listed. It fails only because the last entry it showed is no longer listed.
   */
  lemma {:induction false} HistoryWalkUnderInserts(moments: seq<Moment<Entry>>, userId: nat, q: Query, limit: nat)
    requires limit > 0 && OnlyInserts(moments)
    ensures
      var list := AsListing(AsRequest(userId, q, limit));
      var w := Walk(list, moments, 0, None);
      GoodWalk(list, moments, 0, Start, w) && (w.end == Rejected ==> LastEntryUnlisted(moments, userId, q, w.rows))
  {
    var list := AsListing(AsRequest(userId, q, limit));
    InsertsStand(moments, userId, q, limit);
    MergedListIsHonest(AsRequest(userId, q, limit), moments);
    WalkKeepsStableRows(list, moments, 0, Start, None);
    RejectedIsUnlisted(moments, userId, q, limit, Walk(list, moments, 0, None));
  }

  lemma RejectedIsUnlisted(moments: seq<Moment<Entry>>, userId: nat, q: Query, limit: nat, w: Walked)
    requires OnlyInserts(moments) && GoodWalk(AsListing(AsRequest(userId, q, limit)), moments, 0, Start, w)
    ensures w.end == Rejected ==> LastEntryUnlisted(moments, userId, q, w.rows)
  {
    if w.end == Rejected {
      RefusedIsUnlisted(moments, userId, q, limit, w.rows[|w.rows| - 1]);
    }
  }

  lemma ShownIsStored(m: Moment<Entry>, userId: nat, q: Query, limit: nat, a: Row)
    requires a in AsRequest(userId, q, limit).Shown(m)
    ensures a in m.readLeft.left || a in m.readRight.right
  {
  }

  lemma RefusedIsUnlisted(moments: seq<Moment<Entry>>, userId: nat, q: Query, limit: nat, last: Row)
    requires OnlyInserts(moments)
    requires RefusedLater(AsListing(AsRequest(userId, q, limit)), moments, 0, Some(last))
    ensures exists k :: 0 <= k < |moments| && !ListedByChecks(moments[k], userId, q, last)
  {
    var list := AsListing(AsRequest(userId, q, limit));
    var k :| 0 <= k < |moments| && ShownBefore(list, moments, k, last) && Refuses(list, moments[k], last);
    var i :| 0 <= i < k && i < |moments| && last in list.matching(moments[i]);
    ShownIsStored(moments[i], userId, q, limit, last);
    assert Everywhere(moments[k], last);
    HistoryCursorFailsExactly(moments[k], userId, q, limit, last);
  }

  function At(store: Store<Entry>): Moment<Entry> {
    Moment(store, store, store, store)
  }

  lemma FixedTablesKeepMatching(store: Store<Entry>, moments: seq<Moment<Entry>>, userId: nat, q: Query, limit: nat)
    requires forall i :: 0 <= i < |moments| ==> moments[i] == At(store)
    ensures KeepsMatching(moments, userId, q, limit)
  {
    forall i, k, a | 0 <= i < k < |moments| && a in AsRequest(userId, q, limit).Shown(moments[i])
      ensures ListedEverywhere(moments[k], userId, q, a)
    {
      assert moments[i] == At(store) && moments[k] == At(store);
      assert StillListed(store, userId, q, a);
    }
  }

  lemma FixedTablesShow(store: Store<Entry>, moments: seq<Moment<Entry>>, userId: nat, q: Query, limit: nat)
    requires forall i :: 0 <= i < |moments| ==> moments[i] == At(store)
    ensures forall i :: 0 <= i < |moments| ==>
              AsRequest(userId, q, limit).Shown(moments[i]) == AsRequest(userId, q, limit).Shown(At(store))
  {
  }

  lemma HistorySize(store: Store<Entry>, userId: nat, q: Query, limit: nat)
    ensures |AsRequest(userId, q, limit).Shown(At(store))|
         == |Matching(store, Left, Where(userId, q))| + |Matching(store, Right, Where(userId, q))|
  {
    assert Matching(store, Left, Where(userId, q)) !! Matching(store, Right, Where(userId, q));
  }

  /**
   * On fixed tables the whole history walk is the filtered union, newest first, and its length is
   * the total that the two count queries add up to.
   */
  lemma {:induction false} HistoryWalkIsComplete(
    store: Store<Entry>, moments: seq<Moment<Entry>>, userId: nat, q: Query, limit: nat)
    requires limit > 0
    requires forall i :: 0 <= i < |moments| ==> moments[i] == At(store)
    requires |moments| > |AsRequest(userId, q, limit).Shown(At(store))|
    ensures
      var w := Walk(AsListing(AsRequest(userId, q, limit)), moments, 0, None);
      && w == Walked(Sorted(Newest, AsRequest(userId, q, limit).Shown(At(store))), Finished)
      && |w.rows| == |Matching(store, Left, Where(userId, q))| + |Matching(store, Right, Where(userId, q))|
  {
    FixedTablesKeepMatching(store, moments, userId, q, limit);
    HistoryAnchorsLast(moments, userId, q, limit);
    HistorySize(store, userId, q, limit);
    FixedTablesShow(store, moments, userId, q, limit);
    WalkIsSortedUnion(AsRequest(userId, q, limit), moments, AsRequest(userId, q, limit).Shown(At(store)));
  }

  // ---- Who is in a Member's history ----

  /** The Member's own entry, in the role and with the statuses that the query asks for. */
  predicate IsOwn(entry: Entry, role: Side, userId: nat, q: Query) {
    && entry.memberId == userId
    && q.role in {None, Some(role)}
    && q.questStatus in {None, Some(entry.questStatus)}
    && (q.assignmentStatus == None || q.assignmentStatus.value in entry.assignments)
  }

  /** The row is, at this moment, a Quest that the Member hires for or an Assignment that they work on. */
  predicate IsOwnAt(m: Moment<Entry>, userId: nat, q: Query, r: Row) {
    || (r in m.readLeft.left && IsOwn(m.readLeft.left[r], Left, userId, q))
    || (r in m.readRight.right && IsOwn(m.readRight.right[r], Right, userId, q))
  }

  lemma ShownIsOwn(m: Moment<Entry>, userId: nat, q: Query, limit: nat, r: Row)
    ensures r in AsRequest(userId, q, limit).Shown(m) <==> IsOwnAt(m, userId, q, r)
  {
  }

  /**
   * Any cursor at all is accepted exactly when some own entry has its identity and millisecond and
   * it carries the scope of that entry's role under these very filters; one without a scope never is.
   */
  lemma {:induction false} HistoryCursorExactly(store: Store<Entry>, userId: nat, q: Query, limit: nat, c: Cursor)
    ensures
      CheckAnchor(Virtual(AsRequest(userId, q, limit).read), store, c).Some? <==>
        exists r, side ::
          && r in store.Of(side) && IsOwn(store.Of(side)[r], side, userId, q)
          && c == Cursor(Ms(r.time), r.id, Some(CursorScope(side, q)))
  {
    ScopeNamesFilters(Left, q, Right, q);
    forall r, side | r in store.Of(side) && r.id == c.id
      ensures store.LookUp(side, c.id) == Some(r)
    {
      LookUpFinds(store, r);
    }
    var accepted := CheckAnchor(Virtual(AsRequest(userId, q, limit).read), store, c);
    if accepted.Some? {
      var side := if c.scope == Some(CursorScope(Left, q)) then Left else Right;
      assert accepted.value in store.Of(side) && IsOwn(store.Of(side)[accepted.value], side, userId, q);
    }
  }

  /**
   * A finished history walk, with rows added and statuses changed between reads, has every row
   * that was the Member's own under the filters at every moment, and no row that never was.
   */
  lemma {:induction false} HistoryShowsOwn(
    moments: seq<Moment<Entry>>, userId: nat, q: Query, limit: nat, r: Row)
    requires limit > 0 && OnlyInserts(moments)
    ensures
      var w := Walk(AsListing(AsRequest(userId, q, limit)), moments, 0, None);
      && (r in w.rows ==> exists m :: m in moments && IsOwnAt(m, userId, q, r))
      && (w.end == Finished && (forall m :: m in moments ==> IsOwnAt(m, userId, q, r)) ==> r in w.rows)
  {
    var list := AsListing(AsRequest(userId, q, limit));
    var w := Walk(list, moments, 0, None);
    HistoryWalkUnderInserts(moments, userId, q, limit);
    if r in w.rows {
      assert ShownAt(list, moments, 0, r);
      var i :| 0 <= i < |moments| && r in list.matching(moments[i]);
      ShownIsOwn(moments[i], userId, q, limit, r);
      assert moments[i] in moments;
    }
    if forall m :: m in moments ==> IsOwnAt(m, userId, q, r) {
      forall i | 0 <= i < |moments|
        ensures r in list.matching(moments[i])
      {
        ShownIsOwn(moments[i], userId, q, limit, r);
        assert moments[i] in moments;
      }
      assert Stable(list, moments, 0, r);
    }
  }

  /**
   * On fixed tables the walk shows a Quest or an Assignment exactly when it is the Member's own, in
   * the role and with the statuses asked for.
   */
  lemma {:induction false} HistoryShowsExactly(
    store: Store<Entry>, moments: seq<Moment<Entry>>, userId: nat, q: Query, limit: nat, r: Row)
    requires limit > 0
    requires forall i :: 0 <= i < |moments| ==> moments[i] == At(store)
    requires |moments| > |AsRequest(userId, q, limit).Shown(At(store))|
    ensures r in Walk(AsListing(AsRequest(userId, q, limit)), moments, 0, None).rows
            <==> IsOwnAt(At(store), userId, q, r)
  {
    var shown := AsRequest(userId, q, limit).Shown(At(store));
    HistoryWalkIsComplete(store, moments, userId, q, limit);
    ShownIsOwn(At(store), userId, q, limit, r);
    assert r in Elems(Sorted(Newest, shown)) <==> r in shown;
  }
}
