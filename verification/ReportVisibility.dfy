/** What decisions do to Message and Attachment visibility over whole runs of the report desk. */
module ReportVisibility {
  import opened Options
  import opened ReportDesk

  lemma StepKeepsClosed(desk: Desk, op: Op, id: nat)
    requires id in desk.cases && !IsOpen(desk.cases[id].status) && Do(desk, op).Ok?
    ensures id in Do(desk, op).value.cases && Do(desk, op).value.cases[id] == desk.cases[id]
  {
  }

  /** Dismissed and restored are terminal: no run ever changes a closed case again. */
  lemma {:induction false} ClosedIsTerminal(desk: Desk, ops: seq<Op>, id: nat)
    requires id in desk.cases && !IsOpen(desk.cases[id].status) && Run(desk, ops).Ok?
    ensures id in Run(desk, ops).value.cases && Run(desk, ops).value.cases[id] == desk.cases[id]
  {
    if ops != [] {
      ClosedIsTerminal(desk, ops[..|ops| - 1], id);
      StepKeepsClosed(Run(desk, ops[..|ops| - 1]).value, ops[|ops| - 1], id);
    }
  }

  /** A decision reaches one Message and the files linked to it, and no others. */
  lemma OtherMessagesUntouched(desk: Desk, c: Command)
    requires c.target.OnCase? && Decide(desk, c).Ok?
    ensures
      var after := Decide(desk, c).value.0;
      var m := desk.cases[c.target.id].messageId;
      && after.messages.Keys == desk.messages.Keys
      && (forall k :: k in desk.messages && k != m ==> after.messages[k] == desk.messages[k])
      && after.attachments.Keys == desk.attachments.Keys
      && (forall a :: a in desk.attachments && desk.attachments[a].messageId != Some(m)
            ==> after.attachments[a] == desk.attachments[a])
  {
  }

  /** How a file stands when its Message has been hidden since the start. */
  ghost predicate HiddenSince(start: Attachment, now: Attachment, m: nat, conversationId: nat) {
    now == start.(
      status := if Reachable(start, m, conversationId) && start.status.Consumed? then HiddenFile else start.status,
      hiddenAt := now.hiddenAt)
  }

  /** How a Message and its files stand while its open case has only been pending or hidden. */
  ghost predicate Image(start: Desk, now: Desk, id: nat)
    requires id in start.cases && start.cases[id].messageId in start.messages
  {
    var m := start.cases[id].messageId;
    && id in now.cases && now.cases[id].messageId == m
    && m in now.messages && now.messages[m].conversationId == start.messages[m].conversationId
    && now.attachments.Keys == start.attachments.Keys
    && (forall a :: a in start.attachments ==> now.attachments[a].messageId == start.attachments[a].messageId)
    && (now.cases[id].status.Pending? ==>
          && now.messages[m] == start.messages[m]
          && forall a :: a in start.attachments && start.attachments[a].messageId == Some(m)
               ==> now.attachments[a] == start.attachments[a])
    && (now.cases[id].status.Hidden? ==>
          && now.messages[m].hiddenAt.Some?
          && forall a :: a in start.attachments && start.attachments[a].messageId == Some(m)
               ==> HiddenSince(start.attachments[a], now.attachments[a], m, start.messages[m].conversationId))
  }

  lemma StepKeepsLinks(desk: Desk, op: Op)
    requires Do(desk, op).Ok?
    ensures
      var after := Do(desk, op).value;
      && after.messages.Keys == desk.messages.Keys
      && (forall k :: k in desk.messages ==> after.messages[k].conversationId == desk.messages[k].conversationId)
      && after.attachments.Keys == desk.attachments.Keys
      && (forall a :: a in desk.attachments ==> after.attachments[a].messageId == desk.attachments[a].messageId)
      && (forall id :: id in desk.cases ==> id in after.cases && after.cases[id].messageId == desk.cases[id].messageId)
  {
  }

  /** Another case's decision leaves an open case's Message and files alone. */
  lemma OtherCaseElsewhere(now: Desk, c: Command, id: nat)
    requires Inv(now) && id in now.cases && IsOpen(now.cases[id].status)
    requires c.target.OnCase? && c.target.id != id && Decide(now, c).Ok?
    ensures now.cases[c.target.id].messageId != now.cases[id].messageId
  {
    assert IsOpenCaseOf(now, id, now.cases[id].messageId);
    assert IsOpenCaseOf(now, c.target.id, now.cases[c.target.id].messageId);
  }

  lemma HideKeepsImage(start: Desk, now: Desk, c: Command)
    requires c.target.OnCase? && c.target.outcome.Hide? && c.target.id in start.cases
    requires start.cases[c.target.id].messageId in start.messages
    requires Image(start, now, c.target.id) && IsOpen(now.cases[c.target.id].status) && Decide(now, c).Ok?
    ensures Image(start, Decide(now, c).value.0, c.target.id)
  {
    StepKeepsLinks(now, Decided(c));
  }

  lemma SameRowsKeepImage(start: Desk, now: Desk, after: Desk, id: nat)
    requires id in start.cases && start.cases[id].messageId in start.messages && Image(start, now, id)
    requires id in after.cases && after.cases[id] == now.cases[id]
    requires start.cases[id].messageId in after.messages
    requires after.messages[start.cases[id].messageId] == now.messages[start.cases[id].messageId]
    requires after.attachments.Keys == now.attachments.Keys
    requires forall a :: a in now.attachments ==> after.attachments[a].messageId == now.attachments[a].messageId
    requires forall a ::
               a in now.attachments && now.attachments[a].messageId == Some(start.cases[id].messageId)
               ==> after.attachments[a] == now.attachments[a]
    ensures Image(start, after, id)
  {
  }

  lemma OtherCaseKeepsImage(start: Desk, now: Desk, c: Command, id: nat)
    requires id in start.cases && start.cases[id].messageId in start.messages
    requires Inv(now) && Image(start, now, id) && IsOpen(now.cases[id].status)
    requires c.target.OnCase? && c.target.id != id && Decide(now, c).Ok?
    ensures Image(start, Decide(now, c).value.0, id)
  {
    OtherCaseElsewhere(now, c, id);
    OtherMessagesUntouched(now, c);
    StepKeepsLinks(now, Decided(c));
    SameRowsKeepImage(start, now, Decide(now, c).value.0, id);
  }

  lemma QuietOpKeepsImage(start: Desk, now: Desk, op: Op, id: nat)
    requires id in start.cases && start.cases[id].messageId in start.messages
    requires Image(start, now, id) && Do(now, op).Ok? && (op.Decided? ==> op.command.target.OnConduct?)
    ensures Image(start, Do(now, op).value, id)
  {
    assert Do(now, op).value.cases[id] == now.cases[id];
    assert Do(now, op).value.messages == now.messages && Do(now, op).value.attachments == now.attachments;
  }

  lemma StepKeepsImage(start: Desk, now: Desk, op: Op, id: nat)
    requires id in start.cases && start.cases[id].messageId in start.messages
    requires Inv(now) && Image(start, now, id) && IsOpen(now.cases[id].status) && Do(now, op).Ok?
    requires id in Do(now, op).value.cases && IsOpen(Do(now, op).value.cases[id].status)
    ensures Image(start, Do(now, op).value, id)
  {
    if op.Decided? && op.command.target.OnCase? {
      if op.command.target.id == id {
        HideKeepsImage(start, now, op.command);
      } else {
        OtherCaseKeepsImage(start, now, op.command, id);
      }
    } else {
      QuietOpKeepsImage(start, now, op, id);
    }
  }

  /** Through any run in which a pending case stays open, its Message is as at the start, or hidden. */
  lemma {:induction false} RunKeepsImage(start: Desk, ops: seq<Op>, id: nat)
    requires Inv(start) && id in start.cases && start.cases[id].status.Pending?
    requires Run(start, ops).Ok? && id in Run(start, ops).value.cases && IsOpen(Run(start, ops).value.cases[id].status)
    ensures start.cases[id].messageId in start.messages
    ensures Image(start, Run(start, ops).value, id)
  {
    assert CaseFacts(start, id);
    if ops != [] {
      var front := ops[..|ops| - 1];
      RunKeepsInv(start, front);
      CasesStay(start, front, id);
      var before := Run(start, front).value;
      if !IsOpen(before.cases[id].status) {
        StepKeepsClosed(before, ops[|ops| - 1], id);
      }
      RunKeepsImage(start, front, id);
      StepKeepsImage(start, before, ops[|ops| - 1], id);
    }
  }

  lemma {:induction false} CasesStay(desk: Desk, ops: seq<Op>, id: nat)
    requires id in desk.cases && Run(desk, ops).Ok?
    ensures id in Run(desk, ops).value.cases
  {
    if ops != [] {
      CasesStay(desk, ops[..|ops| - 1], id);
      StepKeepsLinks(Run(desk, ops[..|ops| - 1]).value, ops[|ops| - 1]);
    }
  }

  /** Whether a Message and its files are, in visibility, as they were. */
  ghost predicate VisibilityRestored(start: Desk, after: Desk, m: nat)
    requires m in start.messages
  {
    && m in after.messages && after.messages[m].hiddenAt.Some? == start.messages[m].hiddenAt.Some?
    && after.attachments.Keys == start.attachments.Keys
    && forall a :: a in start.attachments && start.attachments[a].messageId == Some(m)
         ==> after.attachments[a].status == start.attachments[a].status
  }

  /** Nothing of the Message was hidden before its case was decided. */
  ghost predicate NothingHidden(desk: Desk, m: nat)
    requires m in desk.messages
  {
    && desk.messages[m].hiddenAt.None?
    && forall a :: a in desk.attachments && Reachable(desk.attachments[a], m, desk.messages[m].conversationId)
         ==> !desk.attachments[a].status.HiddenFile?
  }

  lemma RestoreOnImage(start: Desk, now: Desk, c: Command)
    requires c.target.OnCase? && c.target.outcome.Restore? && c.target.id in start.cases
    requires start.cases[c.target.id].messageId in start.messages
    requires Image(start, now, c.target.id) && now.cases[c.target.id].status.Hidden? && Decide(now, c).Ok?
    ensures
      var after := Decide(now, c).value.0;
      var m := start.cases[c.target.id].messageId;
      VisibilityRestored(start, after, m) <==> NothingHidden(start, m)
  {
    var after := Decide(now, c).value.0;
    var m := start.cases[c.target.id].messageId;
    var conversationId := start.messages[m].conversationId;
    StepKeepsLinks(now, Decided(c));
    assert after.messages[m].hiddenAt.None?;
    forall a | a in start.attachments && start.attachments[a].messageId == Some(m)
      ensures after.attachments[a].status ==
        if Reachable(start.attachments[a], m, conversationId) && start.attachments[a].status.HiddenFile? then Consumed
        else start.attachments[a].status
    {
      assert HiddenSince(start.attachments[a], now.attachments[a], m, conversationId);
      assert after.attachments[a] == ShownAttachment(now.attachments[a], m, conversationId);
    }
  }

  /**
   * A pending case, any run of hides with other cases' decisions and filings in between, then a
   * restore: the Message and all its files are back as they were exactly when nothing of the
   * Message was hidden at the start. A file that was already hidden is shown by the restore.
   */
  lemma RestoreUndoesHides(start: Desk, ops: seq<Op>, c: Command)
    requires Inv(start) && c.target.OnCase? && c.target.outcome.Restore?
    requires c.target.id in start.cases && start.cases[c.target.id].status.Pending?
    requires Run(start, ops).Ok? && Decide(Run(start, ops).value, c).Ok?
    ensures
      var m := start.cases[c.target.id].messageId;
      && m in start.messages
      && (VisibilityRestored(start, Decide(Run(start, ops).value, c).value.0, m) <==> NothingHidden(start, m))
  {
    RunKeepsImage(start, ops, c.target.id);
    RestoreOnImage(start, Run(start, ops).value, c);
  }

  // ---- A restore that shows what an earlier case hid ----

  /** One visible Message with one file, and no report yet. */
  const CLEAN := Desk(
    map[], map[], [],
    map[1 := MessageRow(1, None, None)], map[1 := Attachment(Some(1), 1, Consumed, None, None)], map[])

  function DecideCase(id: nat, outcome: Outcome, version: nat): Command {
    Command(1, OnCase(id, outcome), version, 0)
  }

  function FiledDesk(): Desk {
    CLEAN.(cases := map[1 := CaseRow(1, Pending, None, 1)], entries := map[(1, 1) := 1])
  }

  function HiddenDesk(): Desk {
    FiledDesk().(
      cases := map[1 := CaseRow(1, Hidden, None, 2)],
      decisions := [Decision(1, 1, Pending, Hidden, 0)],
      messages := map[1 := MessageRow(1, Some(0), Some(1))],
      attachments := map[1 := Attachment(Some(1), 1, HiddenFile, Some(0), None)])
  }

  /** The case is dismissed and its Message stays hidden. */
  function DismissedDesk(): Desk {
    HiddenDesk().(
      cases := map[1 := CaseRow(1, Dismissed, Some(0), 3)],
      decisions := [Decision(1, 1, Pending, Hidden, 0), Decision(1, 1, Hidden, Dismissed, 0)])
  }

  /** Its sender, who still sees it, reports it: a second case opens on a hidden Message. */
  function RefiledDesk(): Desk {
    DismissedDesk().(
      cases := map[1 := CaseRow(1, Dismissed, Some(0), 3), 2 := CaseRow(1, Pending, None, 1)],
      entries := map[(1, 1) := 1, (1, 2) := 2])
  }

  const EARLIER_CASE := [
    Filed(Filing(1, 1, true, 1)), Decided(DecideCase(1, Hide, 1)), Decided(DecideCase(1, Dismiss, 2)),
    Filed(Filing(2, 1, true, 2))]

  lemma NextOp(desk: Desk, ops: seq<Op>, before: Desk, op: Op, after: Desk)
    requires Run(desk, ops) == Ok(before) && Do(before, op) == Ok(after)
    ensures Run(desk, ops + [op]) == Ok(after)
  {
    assert (ops + [op])[..|ops|] == ops;
  }

  lemma CaseOpens(desk: Desk, f: Filing, after: Desk)
    requires f.visible && f.messageId in desk.messages && (f.messageId, f.memberId) !in desk.entries
    requires f.newId !in desk.cases && forall id :: !IsOpenCaseOf(desk, id, f.messageId)
    requires after == desk.(
      cases := desk.cases[f.newId := CaseRow(f.messageId, Pending, None, 1)],
      entries := desk.entries[(f.messageId, f.memberId) := f.newId])
    ensures Do(desk, Filed(f)) == Ok(after)
  {
  }

  lemma FirstFiled()
    ensures Do(CLEAN, EARLIER_CASE[0]) == Ok(FiledDesk())
  {
    CaseOpens(CLEAN, Filing(1, 1, true, 1), FiledDesk());
  }

  lemma ThenHidden()
    ensures Do(FiledDesk(), EARLIER_CASE[1]) == Ok(HiddenDesk())
  {
    var done := Decide(FiledDesk(), DecideCase(1, Hide, 1)).value.0;
    assert done.attachments == HiddenDesk().attachments;
    assert done.messages == HiddenDesk().messages && done.cases == HiddenDesk().cases;
    assert done.decisions == HiddenDesk().decisions;
  }

  lemma ThenDismissed()
    ensures Do(HiddenDesk(), EARLIER_CASE[2]) == Ok(DismissedDesk())
  {
    var done := Decide(HiddenDesk(), DecideCase(1, Dismiss, 2)).value.0;
    assert done.attachments == DismissedDesk().attachments;
    assert done.messages == DismissedDesk().messages && done.cases == DismissedDesk().cases;
    assert done.decisions == DismissedDesk().decisions;
  }

  lemma ThenRefiled()
    ensures Do(DismissedDesk(), EARLIER_CASE[3]) == Ok(RefiledDesk())
  {
    CaseOpens(DismissedDesk(), Filing(2, 1, true, 2), RefiledDesk());
  }

  lemma EarlierCaseRuns()
    ensures Inv(CLEAN) && Run(CLEAN, EARLIER_CASE) == Ok(RefiledDesk())
  {
    FirstFiled();
    ThenHidden();
    ThenDismissed();
    ThenRefiled();
    var ops := EARLIER_CASE;
    NextOp(CLEAN, [], CLEAN, ops[0], FiledDesk());
    NextOp(CLEAN, [] + [ops[0]], FiledDesk(), ops[1], HiddenDesk());
    NextOp(CLEAN, [] + [ops[0]] + [ops[1]], HiddenDesk(), ops[2], DismissedDesk());
    NextOp(CLEAN, [] + [ops[0]] + [ops[1]] + [ops[2]], DismissedDesk(), ops[3], RefiledDesk());
    assert ops == [] + [ops[0]] + [ops[1]] + [ops[2]] + [ops[3]];
  }

  lemma LaterHideRuns() returns (hidden: Desk)
    ensures Run(RefiledDesk(), [Decided(DecideCase(2, Hide, 1))]) == Ok(hidden)
    ensures Decide(hidden, DecideCase(2, Restore, 2)).Ok?
  {
    hidden := Decide(RefiledDesk(), DecideCase(2, Hide, 1)).value.0;
    NextOp(RefiledDesk(), [], RefiledDesk(), Decided(DecideCase(2, Hide, 1)), hidden);
  }

  /**
   * From a clean desk: a Message is reported, hidden and its case dismissed; its sender reports it
   * again, and that case is hidden and restored. The restore shows the Message and its file,
   * although both were hidden before the second case was decided.
   */
  lemma RestoreShowsEarlierHide() returns (hidden: Desk)
    ensures Inv(CLEAN) && Run(CLEAN, EARLIER_CASE) == Ok(RefiledDesk())
    ensures Run(RefiledDesk(), [Decided(DecideCase(2, Hide, 1))]) == Ok(hidden)
    ensures
      var restored := Decide(hidden, DecideCase(2, Restore, 2));
      && restored.Ok?
      && !VisibilityRestored(RefiledDesk(), restored.value.0, 1)
      && RefiledDesk().messages[1].hiddenAt.Some? && 1 in restored.value.0.messages
      && restored.value.0.messages[1].hiddenAt.None?
  {
    EarlierCaseRuns();
    RunKeepsInv(CLEAN, EARLIER_CASE);
    hidden := LaterHideRuns();
    RestoreUndoesHides(RefiledDesk(), [Decided(DecideCase(2, Hide, 1))], DecideCase(2, Restore, 2));
  }
}
