/** Report Cases, Conduct Reports, and the Message and Attachment visibility that decisions change. */
module ReportDesk {
  import opened Options

  datatype CaseStatus = Pending | Dismissed | Hidden | Restored

  datatype Outcome = Dismiss | Hide | Restore {
    function Status(): CaseStatus {
      match this
      case Dismiss => Dismissed
      case Hide => Hidden
      case Restore => Restored
    }
  }

  datatype ConductStatus = ConductPending | Upheld | ConductDismissed

  datatype CaseRow = CaseRow(messageId: nat, status: CaseStatus, closedAt: Option<int>, version: nat)

  datatype ConductRow = ConductRow(
    status: ConductStatus, resolvedBy: Option<nat>, resolvedAt: Option<int>, version: nat)

  datatype Decision = Decision(caseId: nat, adminId: nat, previous: CaseStatus, next: CaseStatus, at: int)

  datatype MessageRow = MessageRow(conversationId: nat, hiddenAt: Option<int>, hiddenBy: Option<nat>)

  datatype AttachmentStatus = Quarantined | Validated | Rejected | Consumed | HiddenFile | Expired

  /** An attachment, with the one Message it is linked to, if any. */
  datatype Attachment = Attachment(
    messageId: Option<nat>, conversationId: nat, status: AttachmentStatus,
    hiddenAt: Option<int>, deletedAt: Option<int>)

  datatype Desk = Desk(
    cases: map<nat, CaseRow>, conduct: map<nat, ConductRow>, decisions: seq<Decision>,
    messages: map<nat, MessageRow>, attachments: map<nat, Attachment>,
    entries: map<(nat, nat), nat>)

  datatype Error = MessageNotFound | CaseNotFound | ConductNotFound | OutcomeInvalid | Conflict

  predicate IsOpen(s: CaseStatus) {
    s.Pending? || s.Hidden?
  }

  /** From pending to dismissed or hidden; from hidden to dismissed, hidden again, or restored. */
  predicate Allowed(current: CaseStatus, outcome: Outcome) {
    match current
    case Pending => !outcome.Restore?
    case Hidden => true
    case _ => false
  }

  // ---- The row updates ----

  function HiddenMessage(m: MessageRow, adminId: nat, now: int): MessageRow {
    if m.hiddenAt.None? then m.(hiddenAt := Some(now), hiddenBy := Some(adminId)) else m
  }

  function ShownMessage(m: MessageRow): MessageRow {
    m.(hiddenAt := None, hiddenBy := None)
  }

  /** Whether the attachment updates of a Message's hide or restore can reach this attachment. */
  predicate Reachable(a: Attachment, messageId: nat, conversationId: nat) {
    a.messageId == Some(messageId) && a.conversationId == conversationId && a.deletedAt.None?
  }

  function HiddenAttachment(a: Attachment, messageId: nat, conversationId: nat, now: int): Attachment {
    if Reachable(a, messageId, conversationId) && a.status.Consumed?
    then a.(status := HiddenFile, hiddenAt := Some(now)) else a
  }

  function ShownAttachment(a: Attachment, messageId: nat, conversationId: nat): Attachment {
    if Reachable(a, messageId, conversationId) && a.status.HiddenFile?
    then a.(status := Consumed, hiddenAt := None) else a
  }

  function DecidedMessage(outcome: Outcome, m: MessageRow, adminId: nat, now: int): MessageRow {
    match outcome
    case Hide => HiddenMessage(m, adminId, now)
    case Restore => ShownMessage(m)
    case Dismiss => m
  }

  function DecidedAttachment(
    outcome: Outcome, a: Attachment, messageId: nat, conversationId: nat, now: int): Attachment
  {
    match outcome
    case Hide => HiddenAttachment(a, messageId, conversationId, now)
    case Restore => ShownAttachment(a, messageId, conversationId)
    case Dismiss => a
  }

  /** The new versions of the files linked to a Message. */
  function DecidedFiles(
    outcome: Outcome, files: map<nat, Attachment>, messageId: nat, conversationId: nat, now: int): map<nat, Attachment>
  {
    map a | a in files && files[a].messageId == Some(messageId)
      :: DecidedAttachment(outcome, files[a], messageId, conversationId, now)
  }

  // ---- Commands ----

  datatype Target = OnCase(id: nat, outcome: Outcome) | OnConduct(id: nat, verdict: ConductStatus)

  datatype Command = Command(adminId: nat, target: Target, expectedVersion: nat, now: int)

  /** The uncommitted row versions that a command has written. */
  datatype Writes =
    | CaseWrites(caseRow: CaseRow, messageId: nat, message: MessageRow, files: map<nat, Attachment>, decision: Decision)
    | ConductWrites(conductRow: ConductRow)

  predicate CaseExists(desk: Desk, id: nat) {
    id in desk.cases && desk.cases[id].messageId in desk.messages
  }

  /** `prepare`: find the row and, for a Report Case, check the transition. Yields its version. */
  function Prepare(desk: Desk, target: Target): Result<nat, Error> {
    match target
    case OnCase(id, outcome) => (
      if !CaseExists(desk, id) then Err(CaseNotFound)
      else if !Allowed(desk.cases[id].status, outcome) then Err(OutcomeInvalid)
      else Ok(desk.cases[id].version)
    )
    case OnConduct(id, verdict) =>
      if id !in desk.conduct then Err(ConductNotFound) else Ok(desk.conduct[id].version)
  }

  /** `apply`: what the command writes. */
  function Apply(desk: Desk, c: Command): Result<Writes, Error>
    requires Prepare(desk, c.target).Ok?
  {
    match c.target
    case OnCase(id, outcome) => (
      var row := desk.cases[id];
      var message := desk.messages[row.messageId];
      Ok(CaseWrites(
        row.(
          status := outcome.Status(),
          closedAt := if outcome.Hide? then None else Some(c.now),
          version := row.version + 1),
        row.messageId,
        DecidedMessage(outcome, message, c.adminId, c.now),
        DecidedFiles(outcome, desk.attachments, row.messageId, message.conversationId, c.now),
        Decision(id, c.adminId, row.status, outcome.Status(), c.now)))
    )
    case OnConduct(id, verdict) =>
      var row := desk.conduct[id];
      if !row.status.ConductPending? then Err(OutcomeInvalid)
      else Ok(ConductWrites(ConductRow(verdict, Some(c.adminId), Some(c.now), row.version + 1)))
  }

  function Write(desk: Desk, target: Target, w: Writes): Desk {
    match w
    case CaseWrites(row, messageId, message, files, decision) =>
      desk.(
        cases := desk.cases[target.id := row],
        messages := desk.messages[messageId := message],
        attachments := desk.attachments + files,
        decisions := desk.decisions + [decision])
    case ConductWrites(row) => desk.(conduct := desk.conduct[target.id := row])
  }

  /** A whole decision as one step: prepare, the version check, apply, commit. */
  function Decide(desk: Desk, c: Command): Result<(Desk, nat), Error> {
    var current := Prepare(desk, c.target);
    if current.Err? then Err(current.error)
    else if current.value != c.expectedVersion then Err(Conflict)
    else
      var writes := Apply(desk, c);
      if writes.Err? then Err(writes.error) else Ok((Write(desk, c.target, writes.value), c.expectedVersion + 1))
  }

  // ---- Filing ----

  predicate IsOpenCaseOf(desk: Desk, id: nat, messageId: nat) {
    id in desk.cases && desk.cases[id].messageId == messageId && IsOpen(desk.cases[id].status)
  }

  datatype Filing = Filing(memberId: nat, messageId: nat, visible: bool, newId: nat)

  /** A Member reports a Message: join its open case, or open one under a fresh identity. */
  ghost function File(desk: Desk, f: Filing): Result<Desk, Error> {
    if !f.visible || f.messageId !in desk.messages then Err(MessageNotFound)
    else if (f.messageId, f.memberId) in desk.entries then Ok(desk)
    else if exists id :: IsOpenCaseOf(desk, id, f.messageId) then
      var id :| IsOpenCaseOf(desk, id, f.messageId);
      Ok(desk.(entries := desk.entries[(f.messageId, f.memberId) := id]))
    else if f.newId in desk.cases then Err(CaseNotFound)
    else Ok(desk.(
      cases := desk.cases[f.newId := CaseRow(f.messageId, Pending, None, 1)],
      entries := desk.entries[(f.messageId, f.memberId) := f.newId]))
  }

  // ---- Runs ----

  datatype Op = Decided(command: Command) | Filed(filing: Filing)

  ghost function Do(desk: Desk, op: Op): Result<Desk, Error> {
    match op
    case Decided(c) => (
      var r := Decide(desk, c);
      if r.Ok? then Ok(r.value.0) else Err(r.error)
    )
    case Filed(f) => File(desk, f)
  }

  /** The desk after each operation succeeded in turn. */
  ghost function Run(desk: Desk, ops: seq<Op>): Result<Desk, Error> {
    if ops == [] then Ok(desk)
    else
      var before := Run(desk, ops[..|ops| - 1]);
      if before.Err? then before else Do(before.value, ops[|ops| - 1])
  }

  /** The decisions of one case, in order. */
  function DecisionsOf(decisions: seq<Decision>, id: nat): seq<Decision> {
    if decisions == [] then []
    else
      DecisionsOf(decisions[..|decisions| - 1], id)
      + (if decisions[|decisions| - 1].caseId == id then [decisions[|decisions| - 1]] else [])
  }

  /** The steps of a case, one by one. */
  predicate AllowedStep(from: CaseStatus, to: CaseStatus) {
    (from, to) in {
      (Pending, Dismissed), (Pending, Hidden), (Hidden, Dismissed), (Hidden, Hidden), (Hidden, Restored)}
  }

  /**
   * The log folds from pending to the status: each decision starts where the one before it ended,
   * by an allowed step, and the last one ends at the status.
   */
  predicate Chained(log: seq<Decision>, status: CaseStatus) {
    if log == [] then status == Pending
    else
      var last := log[|log| - 1];
      last.next == status && AllowedStep(last.previous, last.next) && Chained(log[..|log| - 1], last.previous)
  }

  ghost predicate CaseFacts(desk: Desk, id: nat)
    requires id in desk.cases
  {
    var row := desk.cases[id];
    && row.messageId in desk.messages
    && (row.closedAt.Some? <==> row.status.Dismissed? || row.status.Restored?)
    && (row.status.Hidden? ==> desk.messages[row.messageId].hiddenAt.Some?)
    && row.version == |DecisionsOf(desk.decisions, id)| + 1
    && Chained(DecisionsOf(desk.decisions, id), row.status)
  }

  ghost predicate OneOpenCase(desk: Desk) {
    forall a, b, m :: IsOpenCaseOf(desk, a, m) && IsOpenCaseOf(desk, b, m) ==> a == b
  }

  /** What every reachable desk satisfies. */
  ghost predicate Inv(desk: Desk) {
    && OneOpenCase(desk)
    && (forall id :: id in desk.cases ==> CaseFacts(desk, id))
    && (forall i :: 0 <= i < |desk.decisions| ==> desk.decisions[i].caseId in desk.cases)
  }

  lemma {:induction false} NoDecisions(decisions: seq<Decision>, id: nat)
    requires forall i :: 0 <= i < |decisions| ==> decisions[i].caseId != id
    ensures DecisionsOf(decisions, id) == []
  {
    if decisions != [] {
      NoDecisions(decisions[..|decisions| - 1], id);
    }
  }

  /** A case keeps its facts when its row, its log and its Message's hiding stay. */
  lemma FactsCarry(desk: Desk, after: Desk, id: nat)
    requires id in desk.cases && CaseFacts(desk, id)
    requires id in after.cases && after.cases[id] == desk.cases[id]
    requires DecisionsOf(after.decisions, id) == DecisionsOf(desk.decisions, id)
    requires desk.cases[id].messageId in after.messages
    requires
      var m := desk.cases[id].messageId;
      desk.cases[id].status.Hidden? ==> after.messages[m].hiddenAt.Some? || after.messages[m] == desk.messages[m]
    ensures CaseFacts(after, id)
  {
  }

  lemma AppendedDecision(decisions: seq<Decision>, d: Decision, id: nat)
    ensures DecisionsOf(decisions + [d], id) == DecisionsOf(decisions, id) + (if d.caseId == id then [d] else [])
  {
    assert (decisions + [d])[..|decisions|] == decisions;
  }

  lemma CaseDecisionKeepsOthers(desk: Desk, c: Command, other: nat)
    requires Inv(desk) && c.target.OnCase? && Decide(desk, c).Ok? && other in desk.cases && other != c.target.id
    ensures CaseFacts(Decide(desk, c).value.0, other)
  {
    AppendedDecision(desk.decisions, Apply(desk, c).value.decision, other);
    assert CaseFacts(desk, other);
    if desk.cases[other].status.Hidden? {
      var m := desk.cases[other].messageId;
      assert IsOpenCaseOf(desk, other, m);
      assert !IsOpenCaseOf(desk, c.target.id, m);
    }
    FactsCarry(desk, Decide(desk, c).value.0, other);
  }

  lemma CaseDecisionKeepsFacts(desk: Desk, c: Command)
    requires Inv(desk) && c.target.OnCase? && Decide(desk, c).Ok?
    ensures CaseFacts(Decide(desk, c).value.0, c.target.id)
  {
    var id := c.target.id;
    assert CaseFacts(desk, id);
    var d := Apply(desk, c).value.decision;
    AppendedDecision(desk.decisions, d, id);
    var log := DecisionsOf(desk.decisions, id);
    assert (log + [d])[..|log|] == log;
  }

  lemma FewerOpenCases(desk: Desk, after: Desk)
    requires OneOpenCase(desk)
    requires forall id, m :: IsOpenCaseOf(after, id, m) ==> IsOpenCaseOf(desk, id, m)
    ensures OneOpenCase(after)
  {
  }

  lemma CaseDecisionOpens(desk: Desk, c: Command)
    requires OneOpenCase(desk) && c.target.OnCase? && Decide(desk, c).Ok?
    ensures OneOpenCase(Decide(desk, c).value.0)
  {
    var after := Decide(desk, c).value.0;
    forall id, m | IsOpenCaseOf(after, id, m)
      ensures IsOpenCaseOf(desk, id, m)
    {
    }
    FewerOpenCases(desk, after);
  }

  lemma CaseDecisionKeepsInv(desk: Desk, c: Command, after: Desk)
    requires Inv(desk) && c.target.OnCase? && Decide(desk, c).Ok? && Decide(desk, c).value.0 == after
    ensures Inv(after)
  {
    CaseDecisionKeepsFacts(desk, c);
    CaseDecisionOpens(desk, c);
    forall id | id in after.cases
      ensures CaseFacts(after, id)
    {
      if id != c.target.id {
        CaseDecisionKeepsOthers(desk, c, id);
      }
    }
    AppendedDecisionKnown(desk, c, after);
  }

  lemma AppendedDecisionKnown(desk: Desk, c: Command, after: Desk)
    requires Inv(desk) && c.target.OnCase? && Decide(desk, c).Ok? && Decide(desk, c).value.0 == after
    ensures forall i :: 0 <= i < |after.decisions| ==> after.decisions[i].caseId in after.cases
  {
  }

  lemma ConductDecisionKeepsInv(desk: Desk, c: Command, after: Desk)
    requires Inv(desk) && c.target.OnConduct? && Decide(desk, c).Ok? && Decide(desk, c).value.0 == after
    ensures Inv(after)
  {
    forall id | id in after.cases
      ensures CaseFacts(after, id)
    {
      FactsCarry(desk, after, id);
    }
    FewerOpenCases(desk, after);
  }

  lemma DecideKeepsInv(desk: Desk, c: Command)
    requires Inv(desk) && Decide(desk, c).Ok?
    ensures Inv(Decide(desk, c).value.0)
  {
    if c.target.OnCase? {
      CaseDecisionKeepsInv(desk, c, Decide(desk, c).value.0);
    } else {
      ConductDecisionKeepsInv(desk, c, Decide(desk, c).value.0);
    }
  }

  lemma FiledCaseOpens(desk: Desk, after: Desk, messageId: nat, newId: nat)
    requires OneOpenCase(desk) && newId !in desk.cases && !(exists id :: IsOpenCaseOf(desk, id, messageId))
    requires after.cases == desk.cases[newId := CaseRow(messageId, Pending, None, 1)]
    ensures OneOpenCase(after)
  {
    forall a, b, m | IsOpenCaseOf(after, a, m) && IsOpenCaseOf(after, b, m)
      ensures a == b
    {
      assert a == newId || IsOpenCaseOf(desk, a, m);
      assert b == newId || IsOpenCaseOf(desk, b, m);
    }
  }

  lemma SameCasesKeepInv(desk: Desk, after: Desk)
    requires Inv(desk) && after.cases == desk.cases
    requires after.decisions == desk.decisions && after.messages == desk.messages
    ensures Inv(after)
  {
    forall id | id in after.cases
      ensures CaseFacts(after, id)
    {
      FactsCarry(desk, after, id);
    }
    FewerOpenCases(desk, after);
  }

  lemma NewCaseKeepsFacts(desk: Desk, after: Desk, messageId: nat, newId: nat, id: nat)
    requires Inv(desk) && newId !in desk.cases && messageId in desk.messages
    requires after.cases == desk.cases[newId := CaseRow(messageId, Pending, None, 1)]
    requires after.decisions == desk.decisions && after.messages == desk.messages && id in after.cases
    ensures CaseFacts(after, id)
  {
    if id == newId {
      NoDecisions(desk.decisions, id);
    } else {
      FactsCarry(desk, after, id);
    }
  }

  lemma NewCaseKeepsInv(desk: Desk, after: Desk, messageId: nat, newId: nat)
    requires Inv(desk) && newId !in desk.cases && messageId in desk.messages
    requires !(exists id :: IsOpenCaseOf(desk, id, messageId))
    requires after.cases == desk.cases[newId := CaseRow(messageId, Pending, None, 1)]
    requires after.decisions == desk.decisions && after.messages == desk.messages
    ensures Inv(after)
  {
    FiledCaseOpens(desk, after, messageId, newId);
    forall id | id in after.cases
      ensures CaseFacts(after, id)
    {
      NewCaseKeepsFacts(desk, after, messageId, newId, id);
    }
  }

  lemma FileKeepsInv(desk: Desk, f: Filing)
    requires Inv(desk) && File(desk, f).Ok?
    ensures Inv(File(desk, f).value)
  {
    if (f.messageId, f.memberId) in desk.entries || exists id :: IsOpenCaseOf(desk, id, f.messageId) {
      SameCasesKeepInv(desk, File(desk, f).value);
    } else {
      NewCaseKeepsInv(desk, File(desk, f).value, f.messageId, f.newId);
    }
  }

  /** Over every run of decisions and filings the desk invariants hold. */
  lemma {:induction false} RunKeepsInv(desk: Desk, ops: seq<Op>)
    requires Inv(desk) && Run(desk, ops).Ok?
    ensures Inv(Run(desk, ops).value)
  {
    if ops != [] {
      var front := ops[..|ops| - 1];
      RunKeepsInv(desk, front);
      var before := Run(desk, front).value;
      match ops[|ops| - 1]
      case Decided(c) => DecideKeepsInv(before, c);
      case Filed(f) => FileKeepsInv(before, f);
    }
  }
}
