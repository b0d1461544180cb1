/** What the evidence access rows say: who read what, for every page returned and for nothing else. */
module EvidenceRecords {
  import opened Options
  import opened JsText
  import opened EvidenceAccess

  // ---- When a page is read ----

  lemma ReadOutcome(
    env: Env, rows: Rows, enabled: bool, call: Call, page: Option<Page>, reportId: nat, key: string,
    files: Result<Rows, Error>)
    requires env.reportOf(call.handle) == Some(reportId) && NormalizeRequestKey(call.requestKey) == Some(key)
    requires page.Some? ==> files == RecordFiles(env, rows, enabled, call, reportId, Linked(page.value.messages))
    ensures
      var f := Fields(call.adminId, ChatAccess, reportId, key, PageAsked(call.handle, call.limit, call.cursor));
      var k := Key(call.adminId, ChatAccess, key);
      FirstRead(env, rows, enabled, call, page) ==
        if !enabled then Err(AdminNotFound)
        else if k in rows then (if rows[k].hash == env.hash(f) then Ok(Known) else Err(KeyReused))
        else if page.None? then Err(EvidenceNotFound)
        else if files.Err? then Err(files.error)
        else Ok(Fresh(files.value[k := Row(f, env.hash(f))]))
  {
  }

  /**
   * The outcome of a first read, cause by cause: an unknown handle, a blank or overlong request
   * key, a disabled Admin, the key of another request, an earlier read, or a page that is gone.
   */
  lemma {:induction false} FirstReadExactly(
    env: Env, texts: iset<string>, rows: Rows, enabled: bool, call: Call, page: Option<Page>)
    requires IsDigest(env.sha) && CollisionFree(env.sha, texts) && RowsInv(env, texts, rows)
    requires IsHandle(call.handle) && (page.Some? ==> FormedLinks(texts, call, Linked(page.value.messages)))
    ensures
      var trimmed := Trim(call.requestKey);
      var key := Key(call.adminId, ChatAccess, trimmed);
      var result := FirstRead(env, rows, enabled, call, page);
      if env.reportOf(call.handle).None? then result == Err(EvidenceNotFound)
      else if !(1 <= |trimmed| <= 200) then result == Err(InvalidRequestKey)
      else if !enabled then result == Err(AdminNotFound)
      else if key !in rows then
        if page.None? then result == Err(EvidenceNotFound) else result.Ok? && result.value.Fresh?
      else
        var asked := PageAsked(call.handle, call.limit, call.cursor);
        var fields := Fields(call.adminId, ChatAccess, env.reportOf(call.handle).value, trimmed, asked);
        result == if rows[key].hash == env.hash(fields) then Ok(Known) else Err(KeyReused)
  {
    var report, key := env.reportOf(call.handle), NormalizeRequestKey(call.requestKey);
    if report.Some? && key.Some? {
      var files: Result<Rows, Error> := Ok(rows);
      if enabled && page.Some? {
        FilesRecorded(env, texts, rows, call, report.value, Linked(page.value.messages));
      }
      if page.Some? {
        files := RecordFiles(env, rows, enabled, call, report.value, Linked(page.value.messages));
      }
      ReadOutcome(env, rows, enabled, call, page, report.value, key.value, files);
    }
  }

  lemma FilesRecorded(env: Env, texts: iset<string>, rows: Rows, call: Call, reportId: nat, ids: seq<string>)
    requires IsDigest(env.sha) && CollisionFree(env.sha, texts) && RowsInv(env, texts, rows)
    requires IsHandle(call.handle) && env.reportOf(call.handle) == Some(reportId) && FormedLinks(texts, call, ids)
    ensures RecordFiles(env, rows, true, call, reportId, ids).Ok?
  {
    RecordFilesKeeps(env, texts, rows, call, reportId, ids);
  }

  // ---- Which links a page has ----

  /** An attachment of the page is returned with a link. */
  ghost predicate HasLink(page: Page, id: string) {
    exists m, a :: m in page.messages && a in m.attachments && a.hasUrl && a.id == id
  }

  lemma {:induction false} LinkedInExactly(attachments: seq<Attachment>, id: string)
    ensures id in LinkedIn(attachments) <==> exists a :: a in attachments && a.hasUrl && a.id == id
  {
    if attachments != [] {
      LinkedInExactly(attachments[..|attachments| - 1], id);
      assert attachments == attachments[..|attachments| - 1] + [attachments[|attachments| - 1]];
    }
  }

  lemma {:induction false} LinkedExactly(messages: seq<Message>, id: string)
    ensures id in Linked(messages) <==> HasLink(Page(messages), id)
  {
    if messages != [] {
      var front, last := messages[..|messages| - 1], messages[|messages| - 1];
      LinkedExactly(front, id);
      LinkedInExactly(last.attachments, id);
      assert messages == front + [last];
      if id in LinkedIn(last.attachments) {
        var a :| a in last.attachments && a.hasUrl && a.id == id;
        assert last in messages;
      }
    }
  }

  // ---- Every row is of its own key ----

  /** A row that recording the link of an attachment makes. */
  predicate IsFileRow(env: Env, k: Key, row: Row, call: Call, reportId: nat, id: string) {
    k == KeyOf(FileFields(env, call, reportId, id)) && row == RowFor(env, FileFields(env, call, reportId, id))
  }

  /** The row was there, or is of one of these links. */
  ghost predicate IsOldOrFile(env: Env, rows: Rows, k: Key, row: Row, call: Call, reportId: nat, ids: seq<string>) {
    (k in rows && rows[k] == row) || exists id :: id in ids && IsFileRow(env, k, row, call, reportId, id)
  }

  lemma FileAdds(env: Env, rows: Rows, enabled: bool, call: Call, reportId: nat, id: string, k: Key)
    requires RecordFile(env, rows, enabled, call, reportId, id).Ok?
    requires k in RecordFile(env, rows, enabled, call, reportId, id).value
    ensures
      var row := RecordFile(env, rows, enabled, call, reportId, id).value[k];
      (k in rows && rows[k] == row) || IsFileRow(env, k, row, call, reportId, id)
  {
  }

  lemma MoreLinks(
    env: Env, rows: Rows, k: Key, row: Row, call: Call, reportId: nat, front: seq<string>, ids: seq<string>)
    requires front <= ids && IsOldOrFile(env, rows, k, row, call, reportId, front)
    ensures IsOldOrFile(env, rows, k, row, call, reportId, ids)
  {
    if !(k in rows && rows[k] == row) {
      var id :| id in front && IsFileRow(env, k, row, call, reportId, id);
      assert id in ids;
    }
  }

  lemma {:induction false} FilesAdd(
    env: Env, rows: Rows, enabled: bool, call: Call, reportId: nat, ids: seq<string>, k: Key, after: Rows)
    requires RecordFiles(env, rows, enabled, call, reportId, ids) == Ok(after) && k in after
    ensures IsOldOrFile(env, rows, k, after[k], call, reportId, ids)
  {
    if ids != [] {
      var n := |ids| - 1;
      var before := RecordFiles(env, rows, enabled, call, reportId, ids[..n]).value;
      FileAdds(env, before, enabled, call, reportId, ids[n], k);
      if k in before && before[k] == after[k] {
        FilesAdd(env, rows, enabled, call, reportId, ids[..n], k, before);
        MoreLinks(env, rows, k, after[k], call, reportId, ids[..n], ids);
      }
    }
  }

  /** A row's hash and key are those of its fields. */
  ghost predicate IsOwnRow(env: Env, k: Key, row: Row) {
    && row.hash == env.hash(row.fields)
    && k == Key(row.fields.adminId, row.fields.action, row.fields.requestKey)
  }

  ghost predicate OwnRows(env: Env, rows: Rows) {
    forall k :: k in rows ==> IsOwnRow(env, k, rows[k])
  }

  lemma OldOrFileIsOwn(env: Env, rows: Rows, k: Key, row: Row, call: Call, reportId: nat, ids: seq<string>)
    requires OwnRows(env, rows) && IsOldOrFile(env, rows, k, row, call, reportId, ids)
    ensures IsOwnRow(env, k, row)
  {
  }

  lemma FilesAreOwn(env: Env, rows: Rows, enabled: bool, call: Call, reportId: nat, ids: seq<string>, after: Rows)
    requires OwnRows(env, rows) && RecordFiles(env, rows, enabled, call, reportId, ids) == Ok(after)
    ensures OwnRows(env, after)
  {
    forall k | k in after
      ensures IsOwnRow(env, k, after[k])
    {
      FilesAdd(env, rows, enabled, call, reportId, ids, k, after);
      OldOrFileIsOwn(env, rows, k, after[k], call, reportId, ids);
    }
  }

  /** The rows that the links of a step's page leave. */
  function LinkRows(env: Env, s: State, step: Step): Result<Rows, Error>
    requires env.reportOf(step.call.handle).Some? && step.page.Some?
  {
    RecordFiles(
      env, s.rows, step.enabled, step.call, env.reportOf(step.call.handle).value, Linked(step.page.value.messages))
  }

  /** A step that returns a page has recorded its links, and a first read its page row as well. */
  ghost predicate Returns(env: Env, s: State, step: Step, after: State) {
    && env.reportOf(step.call.handle).Some? && step.page.Some?
    && after.returned == s.returned + [Returned(step.call, step.page.value)]
    && LinkRows(env, s, step).Ok?
    && (step.Again? ==> after.rows == LinkRows(env, s, step).value)
    && (step.First? ==>
          && NormalizeRequestKey(step.call.requestKey).Some?
          && var f := PageFields(
               step.call, env.reportOf(step.call.handle).value, NormalizeRequestKey(step.call.requestKey).value);
             after.rows == LinkRows(env, s, step).value[KeyOf(f) := RowFor(env, f)])
  }

  lemma FreshStep(env: Env, s: State, call: Call, enabled: bool, page: Page, rows: Rows)
    requires FirstRead(env, s.rows, enabled, call, Some(page)) == Ok(Fresh(rows))
    ensures Next(env, s, First(call, enabled, Some(page)))
         == s.(rows := rows, returned := s.returned + [Returned(call, page)])
  {
  }

  lemma OtherStep(env: Env, s: State, call: Call, enabled: bool, page: Option<Page>)
    requires
      var reading := FirstRead(env, s.rows, enabled, call, page);
      reading.Err? || reading == Ok(Known)
    ensures Next(env, s, First(call, enabled, page)).rows == s.rows
    ensures Next(env, s, First(call, enabled, page)).returned == s.returned
  {
  }

  lemma FirstReturns(env: Env, s: State, call: Call, enabled: bool, page: Option<Page>)
    ensures
      var step := First(call, enabled, page);
      var after := Next(env, s, step);
      (after.rows == s.rows && after.returned == s.returned) || Returns(env, s, step, after)
  {
    var reading := FirstRead(env, s.rows, enabled, call, page);
    if reading.Err? || reading == Ok(Known) {
      OtherStep(env, s, call, enabled, page);
    } else {
      var report, key := env.reportOf(call.handle), NormalizeRequestKey(call.requestKey);
      var files := LinkRows(env, s, First(call, enabled, page));
      ReadOutcome(env, s.rows, enabled, call, page, report.value, key.value, files);
      FreshStep(env, s, call, enabled, page.value, reading.value.rows);
    }
  }

  lemma AgainReturns(env: Env, s: State, call: Call, enabled: bool, page: Option<Page>)
    ensures
      var step := Again(call, enabled, page);
      var after := Next(env, s, step);
      (after.rows == s.rows && after.returned == s.returned) || Returns(env, s, step, after)
  {
  }

  lemma StepReturns(env: Env, s: State, step: Step)
    ensures
      var after := Next(env, s, step);
      (after.rows == s.rows && after.returned == s.returned) || Returns(env, s, step, after)
  {
    match step
    case First(call, enabled, page) => FirstReturns(env, s, call, enabled, page);
    case Again(call, enabled, page) => AgainReturns(env, s, call, enabled, page);
  }

  lemma StepKeepsOwnRows(env: Env, s: State, step: Step)
    requires OwnRows(env, s.rows)
    ensures OwnRows(env, Next(env, s, step).rows)
  {
    var after := Next(env, s, step);
    StepReturns(env, s, step);
    if after.returned != s.returned {
      var reportId := env.reportOf(step.call.handle).value;
      var ids := Linked(step.page.value.messages);
      var files := LinkRows(env, s, step).value;
      FilesAreOwn(env, s.rows, step.enabled, step.call, reportId, ids, files);
    }
  }

  lemma {:induction false} RunKeepsOwnRows(env: Env, steps: seq<Step>)
    ensures OwnRows(env, Exec(env, steps).rows)
  {
    if steps != [] {
      RunKeepsOwnRows(env, steps[..|steps| - 1]);
      StepKeepsOwnRows(env, Exec(env, steps[..|steps| - 1]), steps[|steps| - 1]);
    }
  }

  // ---- Every returned page is on record ----

  /** Some row says that this Admin read this page: handle, limit and cursor, under the trimmed key. */
  ghost predicate PageOnRecord(env: Env, rows: Rows, call: Call) {
    exists k ::
      && k in rows && k.adminId == call.adminId && k.action == ChatAccess && k.requestKey == Trim(call.requestKey)
      && rows[k].fields.adminId == call.adminId && rows[k].fields.requestKey == Trim(call.requestKey)
      && rows[k].fields.asked == PageAsked(call.handle, call.limit, call.cursor)
      && env.reportOf(call.handle) == Some(rows[k].fields.reportId)
  }

  /** Some row says that this Admin got a link to this attachment of this handle. */
  ghost predicate FileOnRecord(env: Env, rows: Rows, call: Call, id: string) {
    exists k ::
      && k in rows && k.adminId == call.adminId && k.action == FileAccess
      && rows[k].fields.adminId == call.adminId && rows[k].fields.asked == FileAsked(id, call.handle)
      && env.reportOf(call.handle) == Some(rows[k].fields.reportId)
  }

  lemma RowNamesFields(env: Env, rows: Rows, f: Fields)
    requires forall g, h :: env.hash(g) == env.hash(h) ==> g == h
    requires OwnRows(env, rows) && HasRow(env, rows, f)
    ensures Key(f.adminId, f.action, f.requestKey) in rows
    ensures rows[Key(f.adminId, f.action, f.requestKey)].fields == f
  {
    assert IsOwnRow(env, KeyOf(f), rows[KeyOf(f)]);
  }

  /**
   * In every run, each returned page is on record for the Admin who read it, and so is each link
   * on it: no row of another Admin, page, attachment or handle stands in.
   */
  lemma {:induction false} EveryReturnNamesItsReader(
    env: Env, texts: iset<string>, steps: seq<Step>, r: Returned, id: string)
    requires IsDigest(env.sha) && CollisionFree(env.sha, texts)
    requires forall g, h :: env.hash(g) == env.hash(h) ==> g == h
    requires forall i :: 0 <= i < |steps| ==> WellFormed(texts, steps[i])
    requires r in Exec(env, steps).returned
    ensures PageOnRecord(env, Exec(env, steps).rows, r.call)
    ensures HasLink(r.page, id) ==> FileOnRecord(env, Exec(env, steps).rows, r.call, id)
  {
    var rows := Exec(env, steps).rows;
    EveryReturnIsRecorded(env, texts, steps, r);
    RunKeepsOwnRows(env, steps);
    var reportId := env.reportOf(r.call.handle).value;
    RowNamesFields(env, rows, PageFields(r.call, reportId, NormalizeRequestKey(r.call.requestKey).value));
    if HasLink(r.page, id) {
      LinkedExactly(r.page.messages, id);
      var ids := Linked(r.page.messages);
      var i :| 0 <= i < |ids| && ids[i] == id;
      RowNamesFields(env, rows, FileFields(env, r.call, reportId, ids[i]));
    }
  }

  // ---- Nothing else is on record ----

  /** A page was returned to the Admin that this row names, and it is the page or a link on it. */
  ghost predicate WasReturned(returned: seq<Returned>, k: Key, row: Row) {
    exists r :: r in returned && Explains(r, k, row)
  }

  ghost predicate Explains(r: Returned, k: Key, row: Row) {
    && r.call.adminId == k.adminId
    && match row.fields.asked
       case PageAsked(handle, limit, cursor) =>
         && k.action == ChatAccess && k.requestKey == Trim(r.call.requestKey)
         && r.call.handle == handle && r.call.limit == limit && r.call.cursor == cursor
       case FileAsked(id, handle) =>
         k.action == FileAccess && r.call.handle == handle && HasLink(r.page, id)
  }

  lemma FileIsExplained(
    env: Env, before: Rows, r: Returned, reportId: nat, k: Key, row: Row)
    requires IsOldOrFile(env, before, k, row, r.call, reportId, Linked(r.page.messages))
    ensures (k in before && before[k] == row) || Explains(r, k, row)
  {
    if !(k in before && before[k] == row) {
      var id :| id in Linked(r.page.messages) && IsFileRow(env, k, row, r.call, reportId, id);
      LinkedExactly(r.page.messages, id);
    }
  }

  ghost predicate AllReturned(s: State) {
    forall k :: k in s.rows ==> WasReturned(s.returned, k, s.rows[k])
  }

  lemma StillReturned(s: State, after: State, k: Key)
    requires AllReturned(s) && k in s.rows && k in after.rows && after.rows[k] == s.rows[k]
    requires s.returned <= after.returned
    ensures WasReturned(after.returned, k, after.rows[k])
  {
    var r :| r in s.returned && Explains(r, k, s.rows[k]);
    assert r in after.returned;
  }

  lemma LinkRowReturned(env: Env, s: State, step: Step, files: Rows, k: Key)
    requires env.reportOf(step.call.handle).Some? && step.page.Some? && AllReturned(s)
    requires LinkRows(env, s, step) == Ok(files) && k in files
    ensures WasReturned(s.returned + [Returned(step.call, step.page.value)], k, files[k])
  {
    var reportId := env.reportOf(step.call.handle).value;
    var r := Returned(step.call, step.page.value);
    FilesAdd(env, s.rows, step.enabled, step.call, reportId, Linked(step.page.value.messages), k, files);
    FileIsExplained(env, s.rows, r, reportId, k, files[k]);
    if Explains(r, k, files[k]) {
      assert r in s.returned + [r];
    } else {
      StillReturned(s, s.(rows := files, returned := s.returned + [r]), k);
    }
  }

  lemma StepKeepsReturned(env: Env, s: State, step: Step)
    requires AllReturned(s)
    ensures AllReturned(Next(env, s, step))
  {
    var after := Next(env, s, step);
    StepReturns(env, s, step);
    if after.returned != s.returned {
      var reportId := env.reportOf(step.call.handle).value;
      var ids := Linked(step.page.value.messages);
      var files := LinkRows(env, s, step).value;
      var r := Returned(step.call, step.page.value);
      assert r in after.returned;
      forall k | k in after.rows
        ensures WasReturned(after.returned, k, after.rows[k])
      {
        if k in files && after.rows[k] == files[k] {
          LinkRowReturned(env, s, step, files, k);
        } else {
          assert Explains(r, k, after.rows[k]);
        }
      }
    }
  }

  /** In every run, each row names an Admin to whom its page, or a page with its link, was returned. */
  lemma {:induction false} OnlyReturnsAreRecorded(env: Env, steps: seq<Step>)
    ensures AllReturned(Exec(env, steps))
  {
    if steps != [] {
      OnlyReturnsAreRecorded(env, steps[..|steps| - 1]);
      StepKeepsReturned(env, Exec(env, steps[..|steps| - 1]), steps[|steps| - 1]);
    }
  }

  // ---- Reads come back ----

  lemma NextStep(env: Env, steps: seq<Step>, step: Step)
    ensures Exec(env, []) == State(map[], {}, [])
    ensures Exec(env, steps + [step]) == Next(env, Exec(env, steps), step)
  {
    assert (steps + [step])[..|steps|] == steps;
  }

  /** A page that this Admin has not read under this key comes back in one step. */
  lemma {:induction false} NewReadReturns(env: Env, texts: iset<string>, steps: seq<Step>, call: Call, page: Page)
    requires IsDigest(env.sha) && CollisionFree(env.sha, texts)
    requires forall i :: 0 <= i < |steps| ==> WellFormed(texts, steps[i])
    requires IsHandle(call.handle) && env.reportOf(call.handle).Some? && FormedLinks(texts, call, Linked(page.messages))
    requires 1 <= |Trim(call.requestKey)| <= 200
    requires Key(call.adminId, ChatAccess, Trim(call.requestKey)) !in Exec(env, steps).rows
    ensures Exec(env, steps + [First(call, true, Some(page))]).returned
         == Exec(env, steps).returned + [Returned(call, page)]
  {
    var s := Exec(env, steps);
    RunKeepsInv(env, texts, steps);
    FirstReadExactly(env, texts, s.rows, true, call, Some(page));
    NextStep(env, steps, First(call, true, Some(page)));
    FreshStep(env, s, call, true, page, FirstRead(env, s.rows, true, call, Some(page)).value.rows);
  }

  lemma KnownStep(env: Env, s: State, call: Call, enabled: bool, page: Option<Page>)
    requires FirstRead(env, s.rows, enabled, call, page) == Ok(Known)
    ensures Next(env, s, First(call, enabled, page)) == s.(replaying := s.replaying + {call})
  {
  }

  /** The second transaction returns a page exactly once for each discovery of an earlier read. */
  lemma ReplayStep(env: Env, s: State, call: Call, enabled: bool, page: Option<Page>)
    ensures
      var after := Next(env, s, Again(call, enabled, page));
      if call in s.replaying && ReplayRead(env, s.rows, enabled, call, page).Ok?
      then page.Some? && after.returned == s.returned + [Returned(call, page.value)] && call !in after.replaying
      else after == s
  {
  }

  /** Reading a returned page again, however it has changed since, returns it again: in two steps. */
  lemma {:induction false} RepeatReturns(
    env: Env, texts: iset<string>, steps: seq<Step>, r: Returned, first: Option<Page>, page: Page)
    requires IsDigest(env.sha) && CollisionFree(env.sha, texts)
    requires forall i :: 0 <= i < |steps| ==> WellFormed(texts, steps[i])
    requires r in Exec(env, steps).returned && IsHandle(r.call.handle)
    requires FormedLinks(texts, r.call, Linked(r.page.messages)) && FormedLinks(texts, r.call, Linked(page.messages))
    ensures Exec(env, steps + [First(r.call, true, first)] + [Again(r.call, true, Some(page))]).returned
         == Exec(env, steps).returned + [Returned(r.call, page)]
  {
    var s := Exec(env, steps);
    RepeatAddsNothing(env, texts, steps, r, first);
    EveryReturnIsRecorded(env, texts, steps, r);
    ReplayNeverFails(env, texts, steps, r.call, page);
    NextStep(env, steps, First(r.call, true, first));
    KnownStep(env, s, r.call, true, first);
    NextStep(env, steps + [First(r.call, true, first)], Again(r.call, true, Some(page)));
    ReplayStep(env, s.(replaying := s.replaying + {r.call}), r.call, true, Some(page));
  }
}
