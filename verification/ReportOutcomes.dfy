/** Exactly when a decision or a filing succeeds, and what it leaves of every row. */
module ReportOutcomes {
  import opened Options
  import opened ReportDesk

  /** The decisions that a case's status admits. */
  const TRANSITIONS := {
    (Pending, Dismiss), (Pending, Hide), (Hidden, Dismiss), (Hidden, Hide), (Hidden, Restore)}

  /**
   * A Report Case is decided exactly when it and its Message exist, its version is the expected
   * one, and its status admits the outcome. The first of these that fails names the error.
   */
  lemma CaseDecidedExactly(desk: Desk, c: Command)
    requires c.target.OnCase?
    ensures
      var found := c.target.id in desk.cases && desk.cases[c.target.id].messageId in desk.messages;
      var admits := found && (desk.cases[c.target.id].status, c.target.outcome) in TRANSITIONS;
      var current := found && desk.cases[c.target.id].version == c.expectedVersion;
      && (Decide(desk, c).Ok? <==> found && admits && current)
      && (Decide(desk, c) == Err(CaseNotFound) <==> !found)
      && (Decide(desk, c) == Err(OutcomeInvalid) <==> found && !admits)
      && (Decide(desk, c) == Err(Conflict) <==> found && admits && !current)
  {
    if c.target.id in desk.cases {
      var pair := (desk.cases[c.target.id].status, c.target.outcome);
      assert pair in TRANSITIONS <==>
        || pair == (Pending, Dismiss) || pair == (Pending, Hide) || pair == (Hidden, Dismiss)
        || pair == (Hidden, Hide) || pair == (Hidden, Restore);
    }
  }

  /** A Conduct Report is decided exactly when it is pending at the expected version. */
  lemma ConductDecidedExactly(desk: Desk, c: Command)
    requires c.target.OnConduct?
    ensures
      var found := c.target.id in desk.conduct;
      var current := found && desk.conduct[c.target.id].version == c.expectedVersion;
      var pending := found && desk.conduct[c.target.id].status.ConductPending?;
      && (Decide(desk, c).Ok? <==> found && current && pending)
      && (Decide(desk, c) == Err(ConductNotFound) <==> !found)
      && (Decide(desk, c) == Err(Conflict) <==> found && !current)
      && (Decide(desk, c) == Err(OutcomeInvalid) <==> found && current && !pending)
  {
  }

  /** How a decided case's Message stands: hidden once, shown by a restore, otherwise as it was. */
  ghost predicate MessageDecided(before: MessageRow, after: MessageRow, c: Command)
    requires c.target.OnCase?
  {
    && after.conversationId == before.conversationId
    && (c.target.outcome.Hide? && before.hiddenAt.None? ==>
          after.hiddenAt == Some(c.now) && after.hiddenBy == Some(c.adminId))
    && (c.target.outcome.Restore? ==> after.hiddenAt.None? && after.hiddenBy.None?)
    && (c.target.outcome.Dismiss? || (c.target.outcome.Hide? && before.hiddenAt.Some?) ==> after == before)
  }

  /** How a file stands: only consumed files are hidden and only hidden ones shown, and no deleted ones. */
  ghost predicate FileDecided(before: Attachment, after: Attachment, messageId: nat, conversationId: nat, c: Command)
    requires c.target.OnCase?
  {
    var linked :=
      before.messageId == Some(messageId) && before.conversationId == conversationId && before.deletedAt.None?;
    && after.messageId == before.messageId && after.conversationId == before.conversationId
    && after.deletedAt == before.deletedAt
    && (linked && c.target.outcome.Hide? && before.status.Consumed? ==>
          after.status.HiddenFile? && after.hiddenAt == Some(c.now))
    && (linked && c.target.outcome.Restore? && before.status.HiddenFile? ==>
          after.status.Consumed? && after.hiddenAt.None?)
    && (after.status != before.status || after.hiddenAt != before.hiddenAt ==>
          && linked
          && ((c.target.outcome.Hide? && before.status.Consumed?)
              || (c.target.outcome.Restore? && before.status.HiddenFile?)))
  }

  /** A decided case, its log entry, its Message and every file, each as it stands afterwards. */
  lemma {:induction false} CaseDecisionWrites(desk: Desk, c: Command)
    requires c.target.OnCase? && Decide(desk, c).Ok?
    ensures
      var (after, version) := Decide(desk, c).value;
      var row := desk.cases[c.target.id];
      var status :=
        if c.target.outcome == Dismiss then Dismissed else if c.target.outcome == Hide then Hidden else Restored;
      && version == c.expectedVersion + 1
      && after.cases == desk.cases[c.target.id :=
           CaseRow(row.messageId, status, if status == Hidden then None else Some(c.now), row.version + 1)]
      && after.decisions == desk.decisions + [Decision(c.target.id, c.adminId, row.status, status, c.now)]
      && after.conduct == desk.conduct && after.entries == desk.entries
      && after.messages.Keys == desk.messages.Keys
      && (forall k :: k in desk.messages && k != row.messageId ==> after.messages[k] == desk.messages[k])
      && MessageDecided(desk.messages[row.messageId], after.messages[row.messageId], c)
      && after.attachments.Keys == desk.attachments.Keys
      && (forall a :: a in desk.attachments ==>
            FileDecided(
              desk.attachments[a], after.attachments[a], row.messageId,
              desk.messages[row.messageId].conversationId, c))
  {
  }

  /** A decided Conduct Report takes the verdict and its resolver; nothing else changes. */
  lemma {:induction false} ConductDecisionWrites(desk: Desk, c: Command)
    requires c.target.OnConduct? && Decide(desk, c).Ok?
    ensures
      var (after, version) := Decide(desk, c).value;
      && version == c.expectedVersion + 1
      && after == desk.(conduct := desk.conduct[c.target.id :=
           ConductRow(c.target.verdict, Some(c.adminId), Some(c.now), c.expectedVersion + 1)])
  {
  }

  /** The case is about the Message and still pending or hidden. */
  predicate OpenOn(desk: Desk, id: nat, messageId: nat) {
    && id in desk.cases && desk.cases[id].messageId == messageId
    && desk.cases[id].status in {Pending, Hidden}
  }

  /**
   * A report is refused exactly when its Message is not there to be seen. Otherwise the Member
   * ends up on the Message's open case: the one they reported before, the one there is, or a new
   * pending one, which is opened only when there is none. Nothing else changes.
   */
  lemma FiledExactly(desk: Desk, f: Filing)
    requires f.newId !in desk.cases
    ensures File(desk, f).Ok? <==> f.visible && f.messageId in desk.messages
    ensures
      File(desk, f).Ok? ==>
        var after := File(desk, f).value;
        var key := (f.messageId, f.memberId);
        && (key in desk.entries ==> after == desk)
        && (key !in desk.entries ==>
              && key in after.entries && after.entries == desk.entries[key := after.entries[key]]
              && OpenOn(after, after.entries[key], f.messageId)
              && after == desk.(cases := after.cases, entries := after.entries)
              && if exists id :: OpenOn(desk, id, f.messageId) then after.cases == desk.cases
                 else after.entries[key] == f.newId
                      && after.cases == desk.cases[f.newId := CaseRow(f.messageId, Pending, None, 1)])
  {
    forall id
      ensures OpenOn(desk, id, f.messageId) <==> IsOpenCaseOf(desk, id, f.messageId)
    {
    }
  }
}
