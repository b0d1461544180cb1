/** The five newest moderation actions against a Member before a case was filed, from two tables. */
module ModerationContext {
  import opened Options
  import opened RowOrder
  import opened ReportDesk

  datatype Action = DismissCase | HideCase | RestoreCase | DismissConduct | UpholdConduct

  /** A decision row with the Member it is about. Report Case decisions are the right table. */
  datatype CaseEntry = CaseEntry(memberId: nat, newStatus: CaseStatus)

  datatype ConductEntry = ConductEntry(memberId: nat, status: ConductStatus)

  datatype History = History(decisions: map<Row, CaseEntry>, conduct: map<Row, ConductEntry>) {
    /** The keys, and the checks of the decision table: a decision never leads to pending. */
    ghost predicate Valid() {
      && (forall r :: r in decisions ==> r.side.Right? && !decisions[r].newStatus.Pending?)
      && (forall r :: r in conduct ==> r.side.Left?)
      && Keyed(decisions.Keys) && Keyed(conduct.Keys)
    }
  }

  datatype Event = Event(row: Row, action: Action)

  const LIMIT := 5

  function ReportCaseActionFor(s: CaseStatus): Option<Action> {
    match s
    case Dismissed => Some(DismissCase)
    case Hidden => Some(HideCase)
    case Restored => Some(RestoreCase)
    case Pending => None
  }

  function ConductReportActionFor(s: ConductStatus): Option<Action> {
    match s
    case ConductDismissed => Some(DismissConduct)
    case Upheld => Some(UpholdConduct)
    case ConductPending => None
  }

  // ---- The two queries ----

  ghost function CaseRows(h: History, memberId: nat, before: int): set<Row> {
    set r | r in h.decisions && h.decisions[r].memberId == memberId && r.time < before
  }

  ghost function ConductRows(h: History, memberId: nat, before: int): set<Row> {
    set r |
      r in h.conduct && h.conduct[r].memberId == memberId && !h.conduct[r].status.ConductPending? && r.time < before
  }

  /** The action behind a row of either table. */
  function ActionOf(h: History, r: Row): Option<Action> {
    if r in h.decisions then ReportCaseActionFor(h.decisions[r].newStatus)
    else if r in h.conduct then ConductReportActionFor(h.conduct[r].status)
    else None
  }

  /** `flatMap`: the rows that stand for an action, with it. */
  function Events(h: History, rows: seq<Row>): seq<Event> {
    if rows == [] then []
    else
      var action := ActionOf(h, rows[|rows| - 1]);
      Events(h, rows[..|rows| - 1]) + (if action.Some? then [Event(rows[|rows| - 1], action.value)] else [])
  }

  /** `ORDER BY time DESC, id DESC LIMIT 5`. */
  ghost function NewestRows(rows: set<Row>): seq<Row>
    requires Keyed(rows)
  {
    Take(Sorted(Newest, rows), LIMIT)
  }

  // ---- The stable sort on (occurredAt, id) alone ----

  predicate Newer(a: Row, b: Row) {
    a.time > b.time || (a.time == b.time && a.id > b.id)
  }

  /** The place of an event: after every event that is newer or equal. */
  function Insert(sorted: seq<Event>, e: Event): seq<Event> {
    if sorted != [] && Newer(e.row, sorted[|sorted| - 1].row)
    then Insert(sorted[..|sorted| - 1], e) + [sorted[|sorted| - 1]]
    else sorted + [e]
  }

  function StableSort(events: seq<Event>): seq<Event> {
    if events == [] then [] else Insert(StableSort(events[..|events| - 1]), events[|events| - 1])
  }

  datatype Context = Context(
    memberStatus: Option<string>, previousReportCount: Option<nat>, confirmedViolationCount: Option<nat>,
    actions: seq<Action>)

  const EMPTY := Context(None, None, None, [])

  /** `flatMap` both streams, sort, and keep the first five. */
  function ShownActions(h: History, caseRows: seq<Row>, conductRows: seq<Row>): seq<Action> {
    ActionsIn(Take(StableSort(Events(h, caseRows) + Events(h, conductRows)), LIMIT))
  }

  ghost function GetContext(
    h: History, memberId: Option<nat>, before: int, memberStatus: nat -> Option<string>,
    caseReports: nat, conductReports: nat, violations: nat
  ): Context
    requires h.Valid()
  {
    if memberId.None? || memberStatus(memberId.value).None? then EMPTY
    else
      Context(
        memberStatus(memberId.value), Some(caseReports + conductReports), Some(violations),
        ShownActions(
          h, NewestRows(CaseRows(h, memberId.value, before)), NewestRows(ConductRows(h, memberId.value, before))))
  }

  function ActionsIn(events: seq<Event>): seq<Action> {
    seq(|events|, i requires 0 <= i < |events| => events[i].action)
  }

  function RowsIn(events: seq<Event>): seq<Row> {
    seq(|events|, i requires 0 <= i < |events| => events[i].row)
  }

  // ---- Every selected row stands for an action ----

  /** Events in the strict order of their rows. */
  ghost predicate Ordered(q: seq<Event>) {
    forall i, j :: 0 <= i < j < |q| ==> Before(Newest, q[i].row, q[j].row)
  }

  lemma {:induction false} NothingDropped(h: History, rows: seq<Row>)
    requires forall r :: r in rows ==> ActionOf(h, r).Some?
    ensures RowsIn(Events(h, rows)) == rows
    ensures forall e :: e in Events(h, rows) ==> ActionOf(h, e.row) == Some(e.action)
  {
    if rows != [] {
      NothingDropped(h, rows[..|rows| - 1]);
    }
  }

  // ---- The stable sort orders the two streams like one table ----

  /** An event that ties with none of the others, or comes after those it ties with. */
  ghost predicate SortsAfterTies(events: seq<Event>, e: Event) {
    forall f :: f in events && Ties(f, e) ==> Before(Newest, f.row, e.row)
  }

  lemma {:induction false} InsertOrders(sorted: seq<Event>, e: Event)
    requires Ordered(sorted) && SortsAfterTies(sorted, e)
    ensures Ordered(Insert(sorted, e)) && Elems(Insert(sorted, e)) == Elems(sorted) + {e}
    decreases |sorted|
  {
    var n := |sorted|;
    if n > 0 && Newer(e.row, sorted[n - 1].row) {
      var front := sorted[..n - 1];
      assert sorted == front + [sorted[n - 1]];
      InsertOrders(front, e);
      AppendOldest(Insert(front, e), front, e, sorted[n - 1]);
    } else {
      forall i | 0 <= i < n
        ensures Before(Newest, sorted[i].row, e.row)
      {
        assert sorted[i] in sorted && sorted[n - 1] in sorted;
        assert i < n - 1 ==> Before(Newest, sorted[i].row, sorted[n - 1].row);
      }
    }
  }

  lemma AppendOldest(q: seq<Event>, front: seq<Event>, e: Event, last: Event)
    requires Ordered(q) && Elems(q) == Elems(front) + {e}
    requires Ordered(front + [last]) && Newer(e.row, last.row)
    ensures Ordered(q + [last]) && Elems(q + [last]) == Elems(front + [last]) + {e}
  {
    forall i | 0 <= i < |q|
      ensures Before(Newest, q[i].row, last.row)
    {
      assert q[i] in Elems(q);
      if q[i] != e {
        var j :| 0 <= j < |front| && front[j] == q[i];
        assert (front + [last])[j] == q[i] && (front + [last])[|front|] == last;
      }
    }
    assert Elems(q + [last]) == Elems(q) + {last};
    assert Elems(front + [last]) == Elems(front) + {last};
  }

  /** Ties of time and identity stand in the input with the Report Case decision first. */
  ghost predicate TiesInOrder(events: seq<Event>) {
    forall i, j :: 0 <= i < j < |events| && Ties(events[i], events[j]) ==> Before(Newest, events[i].row, events[j].row)
  }

  predicate Ties(e: Event, f: Event) {
    e.row.time == f.row.time && e.row.id == f.row.id
  }

  lemma {:induction false} StableSortOrders(events: seq<Event>)
    requires TiesInOrder(events)
    ensures Ordered(StableSort(events)) && Elems(StableSort(events)) == Elems(events)
  {
    if events != [] {
      var front := events[..|events| - 1];
      var e := events[|events| - 1];
      StableSortOrders(front);
      LastTies(events, StableSort(front));
      InsertOrders(StableSort(front), e);
      assert events == front + [e];
      assert Elems(events) == Elems(front) + {e};
    }
  }

  lemma LastTies(events: seq<Event>, others: seq<Event>)
    requires events != [] && TiesInOrder(events) && Elems(others) == Elems(events[..|events| - 1])
    ensures SortsAfterTies(others, events[|events| - 1])
  {
    var front := events[..|events| - 1];
    forall f | f in others && Ties(f, events[|events| - 1])
      ensures Before(Newest, f.row, events[|events| - 1].row)
    {
      assert f in Elems(others);
      var i :| 0 <= i < |front| && front[i] == f;
      assert events[i] == f;
    }
  }

  /** An ascending listing of one table followed by one of the other keeps ties in order. */
  lemma StreamsKeepTies(a: seq<Event>, b: seq<Event>)
    requires Ordered(a) && (forall e :: e in a ==> e.row.side.Right?)
    requires Ordered(b) && (forall e :: e in b ==> e.row.side.Left?)
    ensures TiesInOrder(a + b)
  {
    var q := a + b;
    forall i, j | 0 <= i < j < |q| && Ties(q[i], q[j])
      ensures Before(Newest, q[i].row, q[j].row)
    {
      if i < |a| <= j {
        assert q[i] in a && q[j] in b;
      }
    }
  }

  // ---- The newest five ----

  /** Every action against the Member before the case, of both kinds. */
  ghost function AllRows(h: History, memberId: nat, before: int): (rows: set<Row>)
    requires h.Valid()
    ensures Keyed(rows)
  {
    CaseRows(h, memberId, before) + ConductRows(h, memberId, before)
  }

  /** What the merge needs to know of one table's rows. */
  ghost predicate Stream(h: History, side: Side, rows: seq<Row>) {
    Ascending(Newest, rows) && forall r :: r in rows ==> r.side == side && ActionOf(h, r).Some?
  }

  lemma StreamEvents(h: History, side: Side, rows: seq<Row>)
    requires Stream(h, side, rows)
    ensures EventsOf(h, side, rows, Events(h, rows))
  {
    NothingDropped(h, rows);
    var q := Events(h, rows);
    forall i | 0 <= i < |q|
      ensures q[i].row == rows[i] && q[i].row in rows
    {
      assert RowsIn(q)[i] == q[i].row;
    }
  }

  lemma RowElems(q: seq<Event>, p: seq<Event>)
    requires Elems(q) == Elems(p)
    ensures Elems(RowsIn(q)) == Elems(RowsIn(p))
  {
    RowsFrom(q, p);
    RowsFrom(p, q);
  }

  lemma RowsFrom(q: seq<Event>, p: seq<Event>)
    requires Elems(q) == Elems(p)
    ensures Elems(RowsIn(q)) <= Elems(RowsIn(p))
  {
    forall r | r in Elems(RowsIn(q))
      ensures r in Elems(RowsIn(p))
    {
      var i :| 0 <= i < |q| && RowsIn(q)[i] == r;
      assert q[i] in Elems(p);
      var j :| 0 <= j < |p| && p[j] == q[i];
      assert RowsIn(p)[j] == r;
    }
  }

  /** A sorted listing of events orders their rows like one table, each with its own action. */
  lemma OrderedEvents(h: History, q: seq<Event>, sorted: seq<Event>, rows: set<Row>)
    requires Ordered(sorted) && Elems(sorted) == Elems(q) && Keyed(rows) && Elems(RowsIn(q)) == rows
    requires forall e :: e in q ==> ActionOf(h, e.row) == Some(e.action)
    ensures RowsIn(sorted) == Sorted(Newest, rows)
    ensures forall e :: e in sorted ==> ActionOf(h, e.row) == Some(e.action)
  {
    RowElems(sorted, q);
    SortedUnique(Newest, RowsIn(sorted), rows);
    forall e | e in sorted
      ensures ActionOf(h, e.row) == Some(e.action)
    {
      assert e in Elems(sorted);
    }
  }

  /** The events of one table's rows, in order. */
  ghost predicate EventsOf(h: History, side: Side, rows: seq<Row>, events: seq<Event>) {
    && RowsIn(events) == rows && Ordered(events)
    && forall e :: e in events ==> e.row.side == side && ActionOf(h, e.row) == Some(e.action)
  }

  lemma JoinedStreams(h: History, caseRows: seq<Row>, conductRows: seq<Row>, a: seq<Event>, b: seq<Event>)
    requires EventsOf(h, Right, caseRows, a) && EventsOf(h, Left, conductRows, b)
    ensures TiesInOrder(a + b) && Elems(RowsIn(a + b)) == Elems(caseRows) + Elems(conductRows)
    ensures forall e :: e in a + b ==> ActionOf(h, e.row) == Some(e.action)
  {
    StreamsKeepTies(a, b);
    assert RowsIn(a + b) == caseRows + conductRows;
    assert Elems(caseRows + conductRows) == Elems(caseRows) + Elems(conductRows);
  }

  lemma SortedStreams(
    h: History, caseRows: seq<Row>, conductRows: seq<Row>, a: seq<Event>, b: seq<Event>, rows: set<Row>)
    requires EventsOf(h, Right, caseRows, a) && EventsOf(h, Left, conductRows, b)
    requires rows == Elems(caseRows) + Elems(conductRows) && Keyed(rows)
    ensures RowsIn(StableSort(a + b)) == Sorted(Newest, rows)
    ensures forall e :: e in StableSort(a + b) ==> ActionOf(h, e.row) == Some(e.action)
  {
    JoinedStreams(h, caseRows, conductRows, a, b);
    StableSortOrders(a + b);
    OrderedEvents(h, a + b, StableSort(a + b), rows);
  }

  lemma CaseStream(h: History, memberId: nat, before: int)
    requires h.Valid()
    ensures Stream(h, Right, NewestRows(CaseRows(h, memberId, before)))
  {
    var rows := NewestRows(CaseRows(h, memberId, before));
    TakeIsPrefix(Newest, CaseRows(h, memberId, before), LIMIT);
    forall r | r in rows
      ensures r.side == Right && ActionOf(h, r).Some?
    {
      assert r in Elems(rows);
    }
  }

  lemma ConductStream(h: History, memberId: nat, before: int)
    requires h.Valid()
    ensures Stream(h, Left, NewestRows(ConductRows(h, memberId, before)))
  {
    var rows := NewestRows(ConductRows(h, memberId, before));
    TakeIsPrefix(Newest, ConductRows(h, memberId, before), LIMIT);
    forall r | r in rows
      ensures r.side == Left && ActionOf(h, r).Some?
    {
      assert r in Elems(rows);
      assert r !in h.decisions;
    }
  }

  /** The actions of some events, read off their rows. */
  ghost predicate Shows(h: History, actions: seq<Action>, rows: seq<Row>) {
    |actions| == |rows| && forall i :: 0 <= i < |rows| ==> ActionOf(h, rows[i]) == Some(actions[i])
  }

  lemma ShowsTaken(h: History, sorted: seq<Event>, rows: seq<Row>)
    requires Take(RowsIn(sorted), LIMIT) == rows
    requires forall e :: e in sorted ==> ActionOf(h, e.row) == Some(e.action)
    ensures Shows(h, ActionsIn(Take(sorted, LIMIT)), rows)
  {
    assert |Take(sorted, LIMIT)| == |rows|;
    forall i | 0 <= i < |rows|
      ensures ActionOf(h, rows[i]) == Some(ActionsIn(Take(sorted, LIMIT))[i])
    {
      assert RowsIn(sorted)[i] == rows[i] && sorted[i] in sorted;
    }
  }

  /** The merge of two streams shows the newest of both tables. */
  lemma MergedActions(h: History, a: set<Row>, b: set<Row>, all: set<Row>, caseRows: seq<Row>, conductRows: seq<Row>)
    requires all == a + b && Keyed(all)
    requires caseRows == NewestRows(a) && conductRows == NewestRows(b)
    requires Stream(h, Right, caseRows) && Stream(h, Left, conductRows)
    ensures Shows(h, ShownActions(h, caseRows, conductRows), NewestRows(all))
  {
    MergeTakesUnionPrefix(Newest, a, b, LIMIT);
    StreamEvents(h, Right, caseRows);
    StreamEvents(h, Left, conductRows);
    SortedStreams(
      h, caseRows, conductRows, Events(h, caseRows), Events(h, conductRows), Elems(caseRows) + Elems(conductRows));
    ShowsTaken(h, StableSort(Events(h, caseRows) + Events(h, conductRows)), NewestRows(all));
  }

  lemma NewestActions(h: History, memberId: nat, before: int)
    requires h.Valid()
    ensures
      Shows(
        h, ShownActions(h, NewestRows(CaseRows(h, memberId, before)), NewestRows(ConductRows(h, memberId, before))),
        NewestRows(AllRows(h, memberId, before)))
  {
    CaseStream(h, memberId, before);
    ConductStream(h, memberId, before);
    MergedActions(
      h, CaseRows(h, memberId, before), ConductRows(h, memberId, before), AllRows(h, memberId, before),
      NewestRows(CaseRows(h, memberId, before)), NewestRows(ConductRows(h, memberId, before)));
  }

  /**
   * The context of a known Member shows the five newest actions of both kinds together: no newer
   * action is missing, none is shown twice, and ties of time and identity have one fixed order.
   */
  lemma {:induction false} ContextShowsNewestActions(
    h: History, memberId: nat, before: int, memberStatus: nat -> Option<string>,
    caseReports: nat, conductReports: nat, violations: nat)
    requires h.Valid() && memberStatus(memberId).Some?
    ensures
      Shows(
        h, GetContext(h, Some(memberId), before, memberStatus, caseReports, conductReports, violations).actions,
        NewestRows(AllRows(h, memberId, before)))
  {
    NewestActions(h, memberId, before);
  }

  // ---- The context, column by column ----

  /** Moderation of this Member before the case, and the action that stands for it. */
  ghost predicate IsModeration(h: History, memberId: nat, before: int, r: Row, action: Action) {
    && r.time < before
    && ((r in h.decisions && h.decisions[r].memberId == memberId
         && (h.decisions[r].newStatus, action)
            in {(Dismissed, DismissCase), (Hidden, HideCase), (Restored, RestoreCase)})
        || (r in h.conduct && h.conduct[r].memberId == memberId
            && (h.conduct[r].status, action) in {(ConductDismissed, DismissConduct), (Upheld, UpholdConduct)}))
  }

  lemma ActionStandsFor(h: History, memberId: nat, before: int, r: Row, action: Action)
    requires h.Valid()
    ensures IsModeration(h, memberId, before, r, action)
            <==> r in AllRows(h, memberId, before) && ActionOf(h, r) == Some(action)
  {
    if r in h.decisions {
      assert r !in h.conduct;
    }
  }

  /** Newer, or of one time and identity with the Report Case decision first. */
  predicate IsNewer(a: Row, b: Row) {
    || a.time > b.time
    || (a.time == b.time && (a.id > b.id || (a.id == b.id && a.side.Right? && b.side.Left?)))
  }

  lemma NewestFive(rows: set<Row>)
    requires Keyed(rows)
    ensures
      var shown := NewestRows(rows);
      && |shown| <= 5 && (forall r :: r in shown ==> r in rows)
      && (forall i, j :: 0 <= i < j < |shown| ==> IsNewer(shown[i], shown[j]))
      && (forall r :: r in rows && r !in shown ==> |shown| == 5 && forall s :: s in shown ==> IsNewer(s, r))
  {
    var shown := NewestRows(rows);
    TakeIsPrefix(Newest, rows, LIMIT);
    forall r | r in shown
      ensures r in rows
    {
      assert r in Elems(shown);
    }
    if |shown| < 5 {
      ElemsSize(Newest, shown);
      SameSize(Elems(shown), rows);
    }
  }

  lemma SameSize(some: set<Row>, all: set<Row>)
    requires some <= all && |some| == |all|
    ensures some == all
  {
    assert |all - some| == |all| - |some|;
  }

  /**
   * The context of a known Member: both report counts together, the violations, and at most five
   * actions, newest first. Each stands for some moderation of this Member before the case, and any
   * that is not shown is older than five that are.
   */
  lemma {:induction false} ContextIs(
    h: History, memberId: nat, before: int, memberStatus: nat -> Option<string>,
    caseReports: nat, conductReports: nat, violations: nat)
    returns (rows: seq<Row>)
    requires h.Valid() && memberStatus(memberId).Some?
    ensures
      var context := GetContext(h, Some(memberId), before, memberStatus, caseReports, conductReports, violations);
      && context.memberStatus == memberStatus(memberId)
      && context.previousReportCount == Some(caseReports + conductReports)
      && context.confirmedViolationCount == Some(violations)
      && |context.actions| == |rows| <= 5
      && (forall i :: 0 <= i < |rows| ==> IsModeration(h, memberId, before, rows[i], context.actions[i]))
    ensures forall i, j :: 0 <= i < j < |rows| ==> IsNewer(rows[i], rows[j])
    ensures
      forall r, action :: IsModeration(h, memberId, before, r, action) && r !in rows ==>
        |rows| == 5 && forall s :: s in rows ==> IsNewer(s, r)
  {
    rows := NewestRows(AllRows(h, memberId, before));
    ContextShowsNewestActions(h, memberId, before, memberStatus, caseReports, conductReports, violations);
    NewestFive(AllRows(h, memberId, before));
    forall r, action
      ensures IsModeration(h, memberId, before, r, action)
              <==> r in AllRows(h, memberId, before) && ActionOf(h, r) == Some(action)
    {
      ActionStandsFor(h, memberId, before, r, action);
    }
  }

  /** Without a Member, or for an unknown one, the context is empty. */
  lemma UnknownMemberHasNoContext(
    h: History, memberId: Option<nat>, before: int, memberStatus: nat -> Option<string>,
    caseReports: nat, conductReports: nat, violations: nat)
    requires h.Valid()
    ensures
      var context := GetContext(h, memberId, before, memberStatus, caseReports, conductReports, violations);
      (context == Context(None, None, None, [])) == (memberId.None? || memberStatus(memberId.value).None?)
  {
  }
}
