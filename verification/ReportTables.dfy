/** The report tables as the service updates them: row by row, inside one transaction. */
module ReportTables {
  import opened Options
  import opened ReportDesk

  class Tables {
    var cases: map<nat, CaseRow>
    var conduct: map<nat, ConductRow>
    var decisions: seq<Decision>
    var messages: map<nat, MessageRow>
    var attachments: map<nat, Attachment>
    var entries: map<(nat, nat), nat>

    function State(): Desk
      reads this
    {
      Desk(cases, conduct, decisions, messages, attachments, entries)
    }

    constructor (desk: Desk)
      ensures State() == desk
    {
      cases, conduct, decisions := desk.cases, desk.conduct, desk.decisions;
      messages, attachments, entries := desk.messages, desk.attachments, desk.entries;
    }

    method HideMessage(messageId: nat, conversationId: nat, adminId: nat, now: int)
      requires messageId in messages
      modifies this`messages, this`attachments
      ensures messages == old(messages)[messageId := HiddenMessage(old(messages)[messageId], adminId, now)]
      ensures attachments.Keys == old(attachments).Keys
      ensures forall a :: a in attachments ==>
                attachments[a] == HiddenAttachment(old(attachments)[a], messageId, conversationId, now)
    {
      if messages[messageId].hiddenAt.None? {
        messages := messages[messageId := messages[messageId].(hiddenAt := Some(now), hiddenBy := Some(adminId))];
      }
      var linked := set a | a in attachments && attachments[a].messageId == Some(messageId);
      attachments := map a | a in attachments ::
        var file := attachments[a];
        if a in linked && file.conversationId == conversationId && file.status.Consumed? && file.deletedAt.None?
        then file.(status := HiddenFile, hiddenAt := Some(now)) else file;
    }

    method RestoreMessage(messageId: nat, conversationId: nat)
      requires messageId in messages
      modifies this`messages, this`attachments
      ensures messages == old(messages)[messageId := ShownMessage(old(messages)[messageId])]
      ensures attachments.Keys == old(attachments).Keys
      ensures forall a :: a in attachments ==>
                attachments[a] == ShownAttachment(old(attachments)[a], messageId, conversationId)
    {
      messages := messages[messageId := messages[messageId].(hiddenAt := None, hiddenBy := None)];
      var linked := set a | a in attachments && attachments[a].messageId == Some(messageId);
      attachments := map a | a in attachments ::
        var file := attachments[a];
        if a in linked && file.conversationId == conversationId && file.status.HiddenFile? && file.deletedAt.None?
        then file.(status := Consumed, hiddenAt := None) else file;
    }

    /** Decides a Report Case; a failed command leaves every table as it was. */
    method DecideReportCase(
      id: nat, outcome: Outcome, adminId: nat, expectedVersion: nat, now: int)
      returns (r: Result<nat, Error>)
      modifies this
      ensures
        match Decide(old(State()), Command(adminId, OnCase(id, outcome), expectedVersion, now))
        case Ok((desk, version)) => r == Ok(version) && State() == desk
        case Err(e) => r == Err(e) && State() == old(State())
    {
      if id !in cases || cases[id].messageId !in messages {
        return Err(CaseNotFound);
      }
      var current := cases[id];
      if !Allowed(current.status, outcome) {
        return Err(OutcomeInvalid);
      }
      if current.version != expectedVersion {
        return Err(Conflict);
      }
      ghost var writes := Apply(State(), Command(adminId, OnCase(id, outcome), expectedVersion, now)).value;
      var conversationId := messages[current.messageId].conversationId;
      if outcome.Hide? {
        HideMessage(current.messageId, conversationId, adminId, now);
      } else if outcome.Restore? {
        RestoreMessage(current.messageId, conversationId);
      }
      assert messages == old(messages)[current.messageId := writes.message];
      assert attachments == old(attachments) + writes.files;
      decisions := decisions + [Decision(id, adminId, current.status, outcome.Status(), now)];
      var closedAt := if outcome.Hide? then None else Some(now);
      cases := cases[id := current.(status := outcome.Status(), closedAt := closedAt, version := current.version + 1)];
      r := Ok(current.version + 1);
    }

    /** Decides a Conduct Report; the pending check comes after the version check. */
    method DecideConductReport(
      id: nat, verdict: ConductStatus, adminId: nat, expectedVersion: nat, now: int)
      returns (r: Result<nat, Error>)
      modifies this
      ensures
        match Decide(old(State()), Command(adminId, OnConduct(id, verdict), expectedVersion, now))
        case Ok((desk, version)) => r == Ok(version) && State() == desk
        case Err(e) => r == Err(e) && State() == old(State())
    {
      if id !in conduct {
        return Err(ConductNotFound);
      }
      var current := conduct[id];
      if current.version != expectedVersion {
        return Err(Conflict);
      }
      if !current.status.ConductPending? {
        return Err(OutcomeInvalid);
      }
      conduct := conduct[id := ConductRow(verdict, Some(adminId), Some(now), current.version + 1)];
      r := Ok(current.version + 1);
    }

    /** Files a Member's report: at most one open case per Message, whoever files first. */
    method SubmitMessageReport(f: Filing) returns (ok: bool)
      requires Inv(State()) && f.newId !in cases
      modifies this
      ensures Inv(State())
      ensures ok <==> File(old(State()), f).Ok?
      ensures ok ==> State() == File(old(State()), f).value && (f.messageId, f.memberId) in entries
      ensures !ok ==> State() == old(State())
    {
      ghost var before := State();
      if !f.visible || f.messageId !in messages {
        return false;
      }
      if (f.messageId, f.memberId) !in entries {
        if exists id :: id in cases && cases[id].messageId == f.messageId && IsOpen(cases[id].status) {
          var id :| id in cases && cases[id].messageId == f.messageId && IsOpen(cases[id].status);
          assert IsOpenCaseOf(before, id, f.messageId);
          entries := entries[(f.messageId, f.memberId) := id];
        } else {
          assert !(exists id :: IsOpenCaseOf(before, id, f.messageId));
          cases := cases[f.newId := CaseRow(f.messageId, Pending, None, 1)];
          entries := entries[(f.messageId, f.memberId) := f.newId];
        }
      }
      FileKeepsInv(before, f);
      ok := true;
    }
  }
}
