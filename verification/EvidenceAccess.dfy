/**
 * Conduct Report evidence reads: one access row for each page and one file-access row for each
 * returned link, on first reads and on replays.
 */
module EvidenceAccess {
  import opened Options
  import opened JsText

  datatype Action = ChatAccess | FileAccess

  datatype Asked =
    | PageAsked(handle: string, limit: int, cursor: Option<string>)
    | FileAsked(attachmentId: string, handle: string)

  /** What is hashed of an evidence access: who, what, under which normalized request key. */
  datatype Fields = Fields(adminId: nat, action: Action, reportId: nat, requestKey: string, asked: Asked)

  datatype Key = Key(adminId: nat, action: Action, requestKey: string)

  /** An immutable Admin Action row of an access. */
  datatype Row = Row(fields: Fields, hash: string)

  type Rows = map<Key, Row>

  datatype Error = InvalidRequestKey | AdminNotFound | KeyReused | EvidenceNotFound

  datatype Attachment = Attachment(id: string, hasUrl: bool)

  datatype Message = Message(attachments: seq<Attachment>)

  datatype Page = Page(messages: seq<Message>)

  datatype Call = Call(adminId: nat, handle: string, requestKey: string, limit: int, cursor: Option<string>)

  /** The digest in hexadecimal, the request hash, and the report that each handle belongs to. */
  datatype Env = Env(sha: string -> string, hash: Fields -> string, reportOf: string -> Option<nat>)

  // ---- Keys ----

  function NormalizeRequestKey(value: string): Option<string> {
    var key := Trim(value);
    if key == "" || |key| > 200 then None else Some(key)
  }

  function FileText(requestKey: string, handle: string, attachmentId: string): string {
    requestKey + (":" + (handle + (":" + attachmentId)))
  }

  function FileAccessRequestKey(env: Env, requestKey: string, handle: string, attachmentId: string): string {
    "CRHF_" + env.sha(FileText(requestKey, handle, attachmentId))
  }

  /** Route validation: a fixed prefix and 43 base64url characters. */
  predicate IsHandle(s: string) {
    |s| == 47 && s[..4] == "CRH_"
  }

  predicate IsAttachmentId(s: string) {
    |s| == 36
  }

  /** SHA-256 prints as 64 hexadecimal digits. */
  ghost predicate IsDigest(sha: string -> string) {
    forall t :: |sha(t)| == 64 && forall i :: 0 <= i < 64 ==> sha(t)[i] in "0123456789abcdef"
  }

  /** No two of these texts share a digest. */
  ghost predicate CollisionFree(sha: string -> string, texts: iset<string>) {
    forall s, t :: s in texts && t in texts && sha(s) == sha(t) ==> s == t
  }

  /** Whatever colons a request key holds, the hashed text tells the three parts apart. */
  lemma FileTextInjective(k: string, h: string, a: string, l: string, g: string, b: string)
    requires IsHandle(h) && IsHandle(g) && IsAttachmentId(a) && IsAttachmentId(b)
    ensures FileText(k, h, a) == FileText(l, g, b) <==> k == l && h == g && a == b
  {
    if FileText(k, h, a) == FileText(l, g, b) {
      JoinsEqual(k, ":" + (h + (":" + a)), l, ":" + (g + (":" + b)));
      JoinsEqual(":", h + (":" + a), ":", g + (":" + b));
      JoinsEqual(h, ":" + a, g, ":" + b);
      JoinsEqual(":", a, ":", b);
    }
  }

  /** Distinct request key, handle and attachment triples have distinct file keys. */
  lemma FileKeysDistinct(env: Env, k: string, h: string, a: string, l: string, g: string, b: string)
    requires IsHandle(h) && IsHandle(g) && IsAttachmentId(a) && IsAttachmentId(b)
    requires CollisionFree(env.sha, iset{FileText(k, h, a), FileText(l, g, b)})
    ensures FileAccessRequestKey(env, k, h, a) == FileAccessRequestKey(env, l, g, b) <==> k == l && h == g && a == b
  {
    FileTextInjective(k, h, a, l, g, b);
    if FileAccessRequestKey(env, k, h, a) == FileAccessRequestKey(env, l, g, b) {
      JoinsEqual("CRHF_", env.sha(FileText(k, h, a)), "CRHF_", env.sha(FileText(l, g, b)));
    }
  }

  lemma UntrimmedIsKept(s: string)
    requires s != "" && !IsSpace(s[0]) && !IsSpace(s[|s| - 1])
    ensures Trim(s) == s
  {
    assert TrimStart(s) == s;
    assert TrimEnd(s) == s;
  }

  lemma FileKeyIsNormalized(env: Env, k: string, h: string, a: string)
    requires IsDigest(env.sha)
    ensures NormalizeRequestKey(FileAccessRequestKey(env, k, h, a)) == Some(FileAccessRequestKey(env, k, h, a))
  {
    var digest := env.sha(FileText(k, h, a));
    assert digest[63] in "0123456789abcdef";
    UntrimmedIsKept("CRHF_" + digest);
  }

  // ---- One access ----

  function KeyOf(f: Fields): Key {
    Key(f.adminId, f.action, f.requestKey)
  }

  function RowFor(env: Env, f: Fields): Row {
    Row(f, env.hash(f))
  }

  /** The replay lookup: nothing yet, the same request again, or the key of another one. */
  datatype Lookup = Unseen | Replay | Reused

  function LookUp(env: Env, rows: Rows, f: Fields): Lookup {
    if KeyOf(f) !in rows then Unseen
    else if rows[KeyOf(f)].hash != env.hash(f) then Reused
    else Replay
  }

  function FileFields(env: Env, call: Call, reportId: nat, attachmentId: string): Fields {
    Fields(
      call.adminId, FileAccess, reportId, FileAccessRequestKey(env, call.requestKey, call.handle, attachmentId),
      FileAsked(attachmentId, call.handle))
  }

  function PageFields(call: Call, reportId: nat, key: string): Fields {
    Fields(call.adminId, ChatAccess, reportId, key, PageAsked(call.handle, call.limit, call.cursor))
  }

  /** Records one file access inside the running transaction. */
  function RecordFile(
    env: Env, rows: Rows, enabled: bool, call: Call, reportId: nat, attachmentId: string): Result<Rows, Error>
  {
    var f := FileFields(env, call, reportId, attachmentId);
    if NormalizeRequestKey(f.requestKey) != Some(f.requestKey) then Err(InvalidRequestKey)
    else if !enabled then Err(AdminNotFound)
    else
      match LookUp(env, rows, f)
      case Unseen => Ok(rows[KeyOf(f) := RowFor(env, f)])
      case Replay => Ok(rows)
      case Reused => Err(KeyReused)
  }

  /** The attachments whose links a page returns, in order. */
  function LinkedIn(attachments: seq<Attachment>): seq<string> {
    if attachments == [] then []
    else
      LinkedIn(attachments[..|attachments| - 1])
      + (if attachments[|attachments| - 1].hasUrl then [attachments[|attachments| - 1].id] else [])
  }

  function Linked(messages: seq<Message>): seq<string> {
    if messages == [] then []
    else Linked(messages[..|messages| - 1]) + LinkedIn(messages[|messages| - 1].attachments)
  }

  function RecordFiles(
    env: Env, rows: Rows, enabled: bool, call: Call, reportId: nat, ids: seq<string>): Result<Rows, Error>
  {
    if ids == [] then Ok(rows)
    else
      var before := RecordFiles(env, rows, enabled, call, reportId, ids[..|ids| - 1]);
      if before.Err? then before else RecordFile(env, before.value, enabled, call, reportId, ids[|ids| - 1])
  }

  // ---- A page read ----

  datatype Reading = Fresh(rows: Rows) | Known

  /** The first transaction: a fresh read with all its rows, or the discovery of an earlier one. */
  function FirstRead(env: Env, rows: Rows, enabled: bool, call: Call, page: Option<Page>): Result<Reading, Error> {
    if env.reportOf(call.handle).None? then Err(EvidenceNotFound)
    else if NormalizeRequestKey(call.requestKey).None? then Err(InvalidRequestKey)
    else if !enabled then Err(AdminNotFound)
    else
      var reportId := env.reportOf(call.handle).value;
      var f := PageFields(call, reportId, NormalizeRequestKey(call.requestKey).value);
      match LookUp(env, rows, f)
      case Reused => Err(KeyReused)
      case Replay => Ok(Known)
      case Unseen =>
        if page.None? then Err(EvidenceNotFound)
        else
          var files := RecordFiles(env, rows, enabled, call, reportId, Linked(page.value.messages));
          if files.Err? then Err(files.error) else Ok(Fresh(files.value[KeyOf(f) := RowFor(env, f)]))
  }

  /** The second transaction of a replay: the page is read again and its links recorded. */
  function ReplayRead(env: Env, rows: Rows, enabled: bool, call: Call, page: Option<Page>): Result<Rows, Error> {
    if env.reportOf(call.handle).None? || page.None? then Err(EvidenceNotFound)
    else RecordFiles(env, rows, enabled, call, env.reportOf(call.handle).value, Linked(page.value.messages))
  }

  /** A page that was handed to an Admin. */
  datatype Returned = Returned(call: Call, page: Page)

  datatype State = State(rows: Rows, replaying: set<Call>, returned: seq<Returned>)

  datatype Step =
    | First(call: Call, enabled: bool, page: Option<Page>)
    | Again(call: Call, enabled: bool, page: Option<Page>)

  /** One transaction of any Admin's read; a failed one changes nothing. */
  function Next(env: Env, s: State, step: Step): State {
    match step
    case First(call, enabled, page) => (
      match FirstRead(env, s.rows, enabled, call, page)
      case Ok(Fresh(rows)) =>
        if page.None? then s else s.(rows := rows, returned := s.returned + [Returned(call, page.value)])
      case Ok(Known) => s.(replaying := s.replaying + {call})
      case Err(_) => s
    )
    case Again(call, enabled, page) =>
      if call !in s.replaying || page.None? then s
      else
        match ReplayRead(env, s.rows, enabled, call, page)
        case Ok(rows) =>
          s.(rows := rows, replaying := s.replaying - {call}, returned := s.returned + [Returned(call, page.value)])
        case Err(_) => s
  }

  function Exec(env: Env, steps: seq<Step>): State {
    if steps == [] then State(map[], {}, []) else Next(env, Exec(env, steps[..|steps| - 1]), steps[|steps| - 1])
  }

  /** A step whose handle and attachments have the form that the route and the database give them. */
  ghost predicate WellFormed(texts: iset<string>, step: Step) {
    && IsHandle(step.call.handle)
    && (step.page.Some? ==> FormedLinks(texts, step.call, Linked(step.page.value.messages)))
  }

  /** The texts hashed for a page's links, which `texts` collects. */
  ghost predicate FormedLinks(texts: iset<string>, call: Call, ids: seq<string>) {
    forall i :: 0 <= i < |ids| ==> IsAttachmentId(ids[i]) && FileText(call.requestKey, call.handle, ids[i]) in texts
  }

  // ---- What every run keeps ----

  /** A file-access row belongs to the request key, handle and attachment that its key was made from. */
  ghost predicate FileRowFacts(env: Env, texts: iset<string>, k: Key, row: Row) {
    && row == RowFor(env, row.fields) && row.fields.asked.FileAsked?
    && IsHandle(row.fields.asked.handle) && IsAttachmentId(row.fields.asked.attachmentId)
    && env.reportOf(row.fields.asked.handle) == Some(row.fields.reportId)
    && row.fields.adminId == k.adminId && row.fields.action == FileAccess && row.fields.requestKey == k.requestKey
    && exists requestKey ::
         && k.requestKey
            == FileAccessRequestKey(env, requestKey, row.fields.asked.handle, row.fields.asked.attachmentId)
         && FileText(requestKey, row.fields.asked.handle, row.fields.asked.attachmentId) in texts
  }

  ghost predicate RowsInv(env: Env, texts: iset<string>, rows: Rows) {
    forall k :: k in rows && k.action.FileAccess? ==> FileRowFacts(env, texts, k, rows[k])
  }

  predicate HasRow(env: Env, rows: Rows, f: Fields) {
    KeyOf(f) in rows && rows[KeyOf(f)].hash == env.hash(f)
  }

  ghost predicate Covered(env: Env, rows: Rows, r: Returned) {
    var reportId := env.reportOf(r.call.handle);
    && reportId.Some? && NormalizeRequestKey(r.call.requestKey).Some?
    && HasRow(env, rows, PageFields(r.call, reportId.value, NormalizeRequestKey(r.call.requestKey).value))
    && CoveredFiles(env, rows, r.call, reportId.value, Linked(r.page.messages))
  }

  ghost predicate CoveredFiles(env: Env, rows: Rows, call: Call, reportId: nat, ids: seq<string>) {
    forall i :: 0 <= i < |ids| ==> HasRow(env, rows, FileFields(env, call, reportId, ids[i]))
  }

  ghost predicate IsKnown(env: Env, rows: Rows, call: Call) {
    var reportId := env.reportOf(call.handle);
    && reportId.Some? && NormalizeRequestKey(call.requestKey).Some?
    && HasRow(env, rows, PageFields(call, reportId.value, NormalizeRequestKey(call.requestKey).value))
  }

  ghost predicate Inv(env: Env, texts: iset<string>, s: State) {
    && RowsInv(env, texts, s.rows)
    && (forall call :: call in s.replaying ==> IsKnown(env, s.rows, call) && IsHandle(call.handle))
    && (forall i :: 0 <= i < |s.returned| ==> Covered(env, s.rows, s.returned[i]))
  }

  /** Later rows still hold every earlier one. */
  ghost predicate Keeps(before: Rows, after: Rows) {
    forall k :: k in before ==> k in after && after[k] == before[k]
  }

  lemma FileNeverReused(env: Env, texts: iset<string>, rows: Rows, call: Call, reportId: nat, attachmentId: string)
    requires CollisionFree(env.sha, texts) && RowsInv(env, texts, rows)
    requires IsHandle(call.handle) && IsAttachmentId(attachmentId) && env.reportOf(call.handle) == Some(reportId)
    requires FileText(call.requestKey, call.handle, attachmentId) in texts
    ensures LookUp(env, rows, FileFields(env, call, reportId, attachmentId)) != Reused
  {
    var f := FileFields(env, call, reportId, attachmentId);
    if KeyOf(f) in rows {
      var row := rows[KeyOf(f)];
      assert FileRowFacts(env, texts, KeyOf(f), row);
      var h, a := row.fields.asked.handle, row.fields.asked.attachmentId;
      var l :| f.requestKey == FileAccessRequestKey(env, l, h, a) && FileText(l, h, a) in texts;
      FileKeysDistinct(env, call.requestKey, call.handle, attachmentId, l, h, a);
    }
  }

  lemma RecordFileKeeps(env: Env, texts: iset<string>, rows: Rows, call: Call, reportId: nat, attachmentId: string)
    requires IsDigest(env.sha) && CollisionFree(env.sha, texts) && RowsInv(env, texts, rows)
    requires IsHandle(call.handle) && IsAttachmentId(attachmentId) && env.reportOf(call.handle) == Some(reportId)
    requires FileText(call.requestKey, call.handle, attachmentId) in texts
    ensures
      var r := RecordFile(env, rows, true, call, reportId, attachmentId);
      && r.Ok? && RowsInv(env, texts, r.value) && Keeps(rows, r.value)
      && HasRow(env, r.value, FileFields(env, call, reportId, attachmentId))
      && (HasRow(env, rows, FileFields(env, call, reportId, attachmentId)) ==> r.value == rows)
  {
    var f := FileFields(env, call, reportId, attachmentId);
    FileKeyIsNormalized(env, call.requestKey, call.handle, attachmentId);
    FileNeverReused(env, texts, rows, call, reportId, attachmentId);
    assert FileRowFacts(env, texts, KeyOf(f), RowFor(env, f));
  }

  /** Recording a page's links never fails for an enabled Admin, keeps every row, and adds no second one. */
  lemma {:induction false} RecordFilesKeeps(
    env: Env, texts: iset<string>, rows: Rows, call: Call, reportId: nat, ids: seq<string>)
    requires IsDigest(env.sha) && CollisionFree(env.sha, texts) && RowsInv(env, texts, rows)
    requires IsHandle(call.handle) && env.reportOf(call.handle) == Some(reportId) && FormedLinks(texts, call, ids)
    ensures
      var r := RecordFiles(env, rows, true, call, reportId, ids);
      && r.Ok? && RowsInv(env, texts, r.value) && Keeps(rows, r.value)
      && CoveredFiles(env, r.value, call, reportId, ids)
      && (CoveredFiles(env, rows, call, reportId, ids) ==> r.value == rows)
  {
    if ids != [] {
      var front := ids[..|ids| - 1];
      assert FormedLinks(texts, call, front);
      RecordFilesKeeps(env, texts, rows, call, reportId, front);
      var before := RecordFiles(env, rows, true, call, reportId, front).value;
      RecordFileKeeps(env, texts, before, call, reportId, ids[|ids| - 1]);
      CoveredByOneMore(env, before, RecordFiles(env, rows, true, call, reportId, ids).value, call, reportId, ids);
      if CoveredFiles(env, rows, call, reportId, ids) {
        assert CoveredFiles(env, rows, call, reportId, front);
      }
    }
  }

  lemma CoveredByOneMore(env: Env, before: Rows, after: Rows, call: Call, reportId: nat, ids: seq<string>)
    requires ids != [] && Keeps(before, after) && CoveredFiles(env, before, call, reportId, ids[..|ids| - 1])
    requires HasRow(env, after, FileFields(env, call, reportId, ids[|ids| - 1]))
    ensures CoveredFiles(env, after, call, reportId, ids)
  {
    forall i | 0 <= i < |ids| - 1
      ensures HasRow(env, after, FileFields(env, call, reportId, ids[i]))
    {
      assert ids[..|ids| - 1][i] == ids[i];
    }
  }

  lemma {:induction false} DisabledRecordsNothing(env: Env, rows: Rows, call: Call, reportId: nat, ids: seq<string>)
    ensures ids != [] ==> RecordFiles(env, rows, false, call, reportId, ids).Err?
  {
    if |ids| > 1 {
      DisabledRecordsNothing(env, rows, call, reportId, ids[..|ids| - 1]);
    }
  }

  lemma KeptStaysCovered(env: Env, before: Rows, after: Rows, r: Returned)
    requires Keeps(before, after) && Covered(env, before, r)
    ensures Covered(env, after, r)
  {
    var reportId := env.reportOf(r.call.handle).value;
    var ids := Linked(r.page.messages);
    forall i | 0 <= i < |ids|
      ensures HasRow(env, after, FileFields(env, r.call, reportId, ids[i]))
    {
      assert HasRow(env, before, FileFields(env, r.call, reportId, ids[i]));
    }
  }

  lemma {:induction false} OnlyFileRowsAdded(
    env: Env, rows: Rows, enabled: bool, call: Call, reportId: nat, ids: seq<string>, k: Key)
    requires RecordFiles(env, rows, enabled, call, reportId, ids).Ok? && k.action.ChatAccess?
    ensures k in RecordFiles(env, rows, enabled, call, reportId, ids).value <==> k in rows
  {
    if ids != [] {
      OnlyFileRowsAdded(env, rows, enabled, call, reportId, ids[..|ids| - 1], k);
    }
  }

  /** The page row joins the file rows without disturbing them. */
  lemma PageRowJoins(env: Env, texts: iset<string>, files: Rows, f: Fields, call: Call, reportId: nat, ids: seq<string>)
    requires f.action.ChatAccess? && RowsInv(env, texts, files) && CoveredFiles(env, files, call, reportId, ids)
    ensures
      var after := files[KeyOf(f) := RowFor(env, f)];
      RowsInv(env, texts, after) && CoveredFiles(env, after, call, reportId, ids) && HasRow(env, after, f)
  {
    var after := files[KeyOf(f) := RowFor(env, f)];
    forall i | 0 <= i < |ids|
      ensures HasRow(env, after, FileFields(env, call, reportId, ids[i]))
    {
      assert HasRow(env, files, FileFields(env, call, reportId, ids[i]));
    }
    forall k | k in after && k.action.FileAccess?
      ensures FileRowFacts(env, texts, k, after[k])
    {
      assert FileRowFacts(env, texts, k, files[k]);
    }
  }

  lemma FreshReadCovers(env: Env, texts: iset<string>, rows: Rows, call: Call, page: Page)
    requires IsDigest(env.sha) && CollisionFree(env.sha, texts) && RowsInv(env, texts, rows)
    requires IsHandle(call.handle) && FormedLinks(texts, call, Linked(page.messages))
    requires FirstRead(env, rows, true, call, Some(page)).Ok?
    requires FirstRead(env, rows, true, call, Some(page)).value.Fresh?
    ensures
      var after := FirstRead(env, rows, true, call, Some(page)).value.rows;
      RowsInv(env, texts, after) && Keeps(rows, after) && Covered(env, after, Returned(call, page))
  {
    var reportId := env.reportOf(call.handle).value;
    var f := PageFields(call, reportId, NormalizeRequestKey(call.requestKey).value);
    var ids := Linked(page.messages);
    RecordFilesKeeps(env, texts, rows, call, reportId, ids);
    OnlyFileRowsAdded(env, rows, true, call, reportId, ids, KeyOf(f));
    PageRowJoins(env, texts, RecordFiles(env, rows, true, call, reportId, ids).value, f, call, reportId, ids);
  }

  lemma ReplayCovers(env: Env, texts: iset<string>, rows: Rows, enabled: bool, call: Call, page: Page)
    requires IsDigest(env.sha) && CollisionFree(env.sha, texts) && RowsInv(env, texts, rows)
    requires IsHandle(call.handle) && FormedLinks(texts, call, Linked(page.messages)) && IsKnown(env, rows, call)
    requires ReplayRead(env, rows, enabled, call, Some(page)).Ok?
    ensures
      var after := ReplayRead(env, rows, enabled, call, Some(page)).value;
      RowsInv(env, texts, after) && Keeps(rows, after) && Covered(env, after, Returned(call, page))
  {
    var reportId := env.reportOf(call.handle).value;
    var ids := Linked(page.messages);
    if enabled {
      RecordFilesKeeps(env, texts, rows, call, reportId, ids);
    } else {
      DisabledRecordsNothing(env, rows, call, reportId, ids);
    }
  }

  /** Adding a covered return to a state whose rows were kept. */
  lemma ReturnKeepsInv(env: Env, texts: iset<string>, s: State, after: State, r: Returned)
    requires Inv(env, texts, s) && RowsInv(env, texts, after.rows) && Keeps(s.rows, after.rows)
    requires after.replaying <= s.replaying && after.returned == s.returned + [r] && Covered(env, after.rows, r)
    ensures Inv(env, texts, after)
  {
    forall i | 0 <= i < |after.returned|
      ensures Covered(env, after.rows, after.returned[i])
    {
      if i < |s.returned| {
        KeptStaysCovered(env, s.rows, after.rows, s.returned[i]);
      }
    }
  }

  lemma FirstKeepsInv(env: Env, texts: iset<string>, s: State, call: Call, enabled: bool, page: Option<Page>)
    requires IsDigest(env.sha) && CollisionFree(env.sha, texts) && Inv(env, texts, s)
    requires WellFormed(texts, First(call, enabled, page))
    ensures Inv(env, texts, Next(env, s, First(call, enabled, page)))
    ensures Keeps(s.rows, Next(env, s, First(call, enabled, page)).rows)
  {
    var reading := FirstRead(env, s.rows, enabled, call, page);
    if reading.Ok? && reading.value.Fresh? {
      FreshReadCovers(env, texts, s.rows, call, page.value);
      ReturnKeepsInv(env, texts, s, Next(env, s, First(call, enabled, page)), Returned(call, page.value));
    }
  }

  lemma AgainKeepsInv(env: Env, texts: iset<string>, s: State, call: Call, enabled: bool, page: Option<Page>)
    requires IsDigest(env.sha) && CollisionFree(env.sha, texts) && Inv(env, texts, s)
    requires WellFormed(texts, Again(call, enabled, page))
    ensures Inv(env, texts, Next(env, s, Again(call, enabled, page)))
    ensures Keeps(s.rows, Next(env, s, Again(call, enabled, page)).rows)
  {
    if call in s.replaying && page.Some? && ReplayRead(env, s.rows, enabled, call, page).Ok? {
      ReplayCovers(env, texts, s.rows, enabled, call, page.value);
      ReturnKeepsInv(env, texts, s, Next(env, s, Again(call, enabled, page)), Returned(call, page.value));
    }
  }

  lemma StepKeepsInv(env: Env, texts: iset<string>, s: State, step: Step)
    requires IsDigest(env.sha) && CollisionFree(env.sha, texts) && Inv(env, texts, s) && WellFormed(texts, step)
    ensures Inv(env, texts, Next(env, s, step)) && Keeps(s.rows, Next(env, s, step).rows)
  {
    match step
    case First(call, enabled, page) => FirstKeepsInv(env, texts, s, call, enabled, page);
    case Again(call, enabled, page) => AgainKeepsInv(env, texts, s, call, enabled, page);
  }

  lemma {:induction false} RunKeepsInv(env: Env, texts: iset<string>, steps: seq<Step>)
    requires IsDigest(env.sha) && CollisionFree(env.sha, texts)
    requires forall i :: 0 <= i < |steps| ==> WellFormed(texts, steps[i])
    ensures Inv(env, texts, Exec(env, steps))
  {
    if steps != [] {
      RunKeepsInv(env, texts, steps[..|steps| - 1]);
      StepKeepsInv(env, texts, Exec(env, steps[..|steps| - 1]), steps[|steps| - 1]);
    }
  }

  // ---- The guarantees ----

  /**
   * In every run, first reads and replays alike: each returned page has its access row, and each
   * link on it has a file-access row made with the same Admin's request key.
   */
  lemma {:induction false} EveryReturnIsRecorded(env: Env, texts: iset<string>, steps: seq<Step>, r: Returned)
    requires IsDigest(env.sha) && CollisionFree(env.sha, texts)
    requires forall i :: 0 <= i < |steps| ==> WellFormed(texts, steps[i])
    requires r in Exec(env, steps).returned
    ensures Covered(env, Exec(env, steps).rows, r)
  {
    RunKeepsInv(env, texts, steps);
  }

  /** Access rows are never changed or removed, whatever is read later. */
  lemma {:induction false} RowsAreImmutable(env: Env, texts: iset<string>, steps: seq<Step>, n: nat)
    requires IsDigest(env.sha) && CollisionFree(env.sha, texts) && n <= |steps|
    requires forall i :: 0 <= i < |steps| ==> WellFormed(texts, steps[i])
    ensures Keeps(Exec(env, steps[..n]).rows, Exec(env, steps).rows)
    decreases |steps|
  {
    if n == |steps| {
      assert steps[..n] == steps;
    } else {
      var front := steps[..|steps| - 1];
      assert front[..n] == steps[..n];
      RowsAreImmutable(env, texts, front, n);
      RunKeepsInv(env, texts, front);
      StepKeepsInv(env, texts, Exec(env, front), steps[|steps| - 1]);
    }
  }

  /**
   * Reading a returned page again under the same key is a replay: it never fails as key reuse,
   * and recording its links adds no second row.
   */
  lemma {:induction false} RepeatAddsNothing(
    env: Env, texts: iset<string>, steps: seq<Step>, r: Returned, page: Option<Page>)
    requires IsDigest(env.sha) && CollisionFree(env.sha, texts)
    requires forall i :: 0 <= i < |steps| ==> WellFormed(texts, steps[i])
    requires r in Exec(env, steps).returned && IsHandle(r.call.handle)
    requires FormedLinks(texts, r.call, Linked(r.page.messages))
    ensures FirstRead(env, Exec(env, steps).rows, true, r.call, page) == Ok(Known)
    ensures ReplayRead(env, Exec(env, steps).rows, true, r.call, Some(r.page)) == Ok(Exec(env, steps).rows)
  {
    RunKeepsInv(env, texts, steps);
    var rows := Exec(env, steps).rows;
    assert Covered(env, rows, r);
    RecordFilesKeeps(env, texts, rows, r.call, env.reportOf(r.call.handle).value, Linked(r.page.messages));
  }

  /** A replay of a page that has changed since still records every link on it. */
  lemma {:induction false} ReplayNeverFails(env: Env, texts: iset<string>, steps: seq<Step>, call: Call, page: Page)
    requires IsDigest(env.sha) && CollisionFree(env.sha, texts)
    requires forall i :: 0 <= i < |steps| ==> WellFormed(texts, steps[i])
    requires IsHandle(call.handle) && env.reportOf(call.handle).Some? && FormedLinks(texts, call, Linked(page.messages))
    ensures ReplayRead(env, Exec(env, steps).rows, true, call, Some(page)).Ok?
  {
    RunKeepsInv(env, texts, steps);
    RecordFilesKeeps(env, texts, Exec(env, steps).rows, call, env.reportOf(call.handle).value, Linked(page.messages));
  }

  /**
   * The page row is keyed by the trimmed request key and the file rows by the raw one: two keys
   * share the page row exactly when they trim alike, and the file rows exactly when they are equal.
   */
  lemma {:induction false} TrimmedPageRawFiles(env: Env, call: Call, other: string, reportId: nat, attachmentId: string)
    requires IsHandle(call.handle) && IsAttachmentId(attachmentId)
    requires NormalizeRequestKey(call.requestKey).Some? && NormalizeRequestKey(other).Some?
    requires
      CollisionFree(
        env.sha, iset{FileText(call.requestKey, call.handle, attachmentId), FileText(other, call.handle, attachmentId)})
    ensures
      var twin := call.(requestKey := other);
      var samePage :=
        KeyOf(PageFields(call, reportId, NormalizeRequestKey(call.requestKey).value))
        == KeyOf(PageFields(twin, reportId, NormalizeRequestKey(other).value));
      var sameFile :=
        KeyOf(FileFields(env, call, reportId, attachmentId)) == KeyOf(FileFields(env, twin, reportId, attachmentId));
      (samePage <==> Trim(call.requestKey) == Trim(other)) && (sameFile <==> call.requestKey == other)
  {
    FileKeysDistinct(env, call.requestKey, call.handle, attachmentId, other, call.handle, attachmentId);
  }

  // ---- The tables as the service updates them ----

  lemma {:induction false} ErrorStays(
    env: Env, rows: Rows, enabled: bool, call: Call, reportId: nat, ids: seq<string>, n: nat)
    requires n <= |ids| && RecordFiles(env, rows, enabled, call, reportId, ids[..n]).Err?
    ensures RecordFiles(env, rows, enabled, call, reportId, ids)
         == RecordFiles(env, rows, enabled, call, reportId, ids[..n])
    decreases |ids|
  {
    if n == |ids| {
      assert ids[..n] == ids;
    } else {
      assert ids[..|ids| - 1][..n] == ids[..n];
      ErrorStays(env, rows, enabled, call, reportId, ids[..|ids| - 1], n);
    }
  }

  lemma {:induction false} LinkedInPrefix(attachments: seq<Attachment>, j: nat)
    requires j <= |attachments|
    ensures LinkedIn(attachments[..j]) <= LinkedIn(attachments)
    decreases |attachments|
  {
    if j == |attachments| {
      assert attachments[..j] == attachments;
    } else {
      assert attachments[..|attachments| - 1][..j] == attachments[..j];
      LinkedInPrefix(attachments[..|attachments| - 1], j);
    }
  }

  lemma {:induction false} LinkedPrefix(messages: seq<Message>, i: nat, j: nat)
    requires i < |messages| && j <= |messages[i].attachments|
    ensures Linked(messages[..i]) + LinkedIn(messages[i].attachments[..j]) <= Linked(messages)
    decreases |messages|
  {
    var n := |messages| - 1;
    LinkedInPrefix(messages[i].attachments, j);
    if i < n {
      assert messages[..n][..i] == messages[..i];
      LinkedPrefix(messages[..n], i, j);
    }
  }

  lemma OneMoreFile(
    env: Env, before: Rows, enabled: bool, call: Call, reportId: nat, done: seq<string>, id: string, rows: Rows)
    requires RecordFiles(env, before, enabled, call, reportId, done) == Ok(rows)
    ensures RecordFiles(env, before, enabled, call, reportId, done + [id])
         == RecordFile(env, rows, enabled, call, reportId, id)
  {
    assert (done + [id])[..|done|] == done;
  }

  lemma OneMoreAttachment(attachments: seq<Attachment>, j: nat, head: seq<string>)
    requires j < |attachments|
    ensures head + LinkedIn(attachments[..j + 1]) ==
      if attachments[j].hasUrl then (head + LinkedIn(attachments[..j])) + [attachments[j].id]
      else head + LinkedIn(attachments[..j])
  {
    assert attachments[..j + 1][..j] == attachments[..j];
  }

  lemma NextLink(
    env: Env, before: Rows, enabled: bool, call: Call, reportId: nat, head: seq<string>, attachments: seq<Attachment>,
    j: nat, rows: Rows)
    requires j < |attachments|
    requires RecordFiles(env, before, enabled, call, reportId, head + LinkedIn(attachments[..j])) == Ok(rows)
    ensures RecordFiles(env, before, enabled, call, reportId, head + LinkedIn(attachments[..j + 1])) ==
      if attachments[j].hasUrl then RecordFile(env, rows, enabled, call, reportId, attachments[j].id) else Ok(rows)
  {
    OneMoreAttachment(attachments, j, head);
    OneMoreFile(env, before, enabled, call, reportId, head + LinkedIn(attachments[..j]), attachments[j].id, rows);
  }

  lemma LinkFails(
    env: Env, before: Rows, enabled: bool, call: Call, reportId: nat, messages: seq<Message>, i: nat, j: nat)
    requires i < |messages| && j <= |messages[i].attachments|
    requires
      var done := Linked(messages[..i]) + LinkedIn(messages[i].attachments[..j]);
      RecordFiles(env, before, enabled, call, reportId, done).Err?
    ensures RecordFiles(env, before, enabled, call, reportId, Linked(messages))
         == RecordFiles(
              env, before, enabled, call, reportId, Linked(messages[..i]) + LinkedIn(messages[i].attachments[..j]))
  {
    var done := Linked(messages[..i]) + LinkedIn(messages[i].attachments[..j]);
    LinkedPrefix(messages, i, j);
    assert Linked(messages)[..|done|] == done;
    ErrorStays(env, before, enabled, call, reportId, Linked(messages), |done|);
  }

  lemma NextMessage(messages: seq<Message>, i: nat)
    requires i < |messages|
    ensures Linked(messages[..i + 1]) == Linked(messages[..i]) + LinkedIn(messages[i].attachments)
  {
    assert messages[..i + 1][..i] == messages[..i];
  }

  class AccessLog {
    var rows: Rows

    constructor ()
      ensures rows == map[]
    {
      rows := map[];
    }

    /** Records a link of the page; the request hash decides a replay. */
    method RecordFileAccess(
      env: Env, enabled: bool, call: Call, reportId: nat, attachmentId: string)
      returns (error: Option<Error>)
      modifies this
      ensures
        match RecordFile(env, old(rows), enabled, call, reportId, attachmentId)
        case Ok(after) => error == None && rows == after
        case Err(e) => error == Some(e) && rows == old(rows)
    {
      var f := FileFields(env, call, reportId, attachmentId);
      if NormalizeRequestKey(f.requestKey) != Some(f.requestKey) {
        return Some(InvalidRequestKey);
      }
      if !enabled {
        return Some(AdminNotFound);
      }
      var found := LookUp(env, rows, f);
      if found.Reused? {
        return Some(KeyReused);
      }
      if found.Unseen? {
        rows := rows[KeyOf(f) := RowFor(env, f)];
      }
      error := None;
    }

    /** The inner loop: the links of one message, after those of the messages before it. */
    method RecordAttachments(
      env: Env, enabled: bool, call: Call, reportId: nat, attachments: seq<Attachment>,
      ghost before: Rows, ghost head: seq<string>)
      returns (error: Option<Error>, ghost stop: nat)
      requires RecordFiles(env, before, enabled, call, reportId, head) == Ok(rows)
      modifies this
      ensures stop <= |attachments| && (error.None? ==> stop == |attachments|)
      ensures RecordFiles(env, before, enabled, call, reportId, head + LinkedIn(attachments[..stop]))
           == if error.None? then Ok(rows) else Err(error.value)
    {
      assert head + LinkedIn(attachments[..0]) == head;
      for j := 0 to |attachments|
        invariant RecordFiles(env, before, enabled, call, reportId, head + LinkedIn(attachments[..j])) == Ok(rows)
      {
        NextLink(env, before, enabled, call, reportId, head, attachments, j, rows);
        if !attachments[j].hasUrl {
          continue;
        }
        error := RecordFileAccess(env, enabled, call, reportId, attachments[j].id);
        if error.Some? {
          return error, j + 1;
        }
      }
      return None, |attachments|;
    }

    /** Records every link of every message; the caller's transaction undoes a failed half. */
    method RecordFileAccesses(
      env: Env, enabled: bool, call: Call, reportId: nat, messages: seq<Message>)
      returns (error: Option<Error>)
      modifies this
      ensures RecordFiles(env, old(rows), enabled, call, reportId, Linked(messages))
           == if error.None? then Ok(rows) else Err(error.value)
    {
      ghost var before := rows;
      ghost var stop: nat;
      for i := 0 to |messages|
        invariant RecordFiles(env, before, enabled, call, reportId, Linked(messages[..i])) == Ok(rows)
      {
        error, stop := RecordAttachments(
          env, enabled, call, reportId, messages[i].attachments, before, Linked(messages[..i]));
        if error.Some? {
          LinkFails(env, before, enabled, call, reportId, messages, i, stop);
          return;
        }
        assert messages[i].attachments[..stop] == messages[i].attachments;
        NextMessage(messages, i);
      }
      assert messages[..|messages|] == messages;
      error := None;
    }

    /** The recorded access: its read and its row commit together, or nothing does. */
    method FirstTransaction(
      env: Env, enabled: bool, call: Call, page: Option<Page>)
      returns (known: Result<bool, Error>)
      requires env.reportOf(call.handle).Some?
      modifies this
      ensures
        match FirstRead(env, old(rows), enabled, call, page)
        case Err(e) => known == Err(e) && rows == old(rows)
        case Ok(Known) => known == Ok(true) && rows == old(rows)
        case Ok(Fresh(after)) => known == Ok(false) && page.Some? && rows == after
    {
      var key := NormalizeRequestKey(call.requestKey);
      if key.None? {
        return Err(InvalidRequestKey);
      }
      if !enabled {
        return Err(AdminNotFound);
      }
      var reportId := env.reportOf(call.handle).value;
      var f := PageFields(call, reportId, key.value);
      var found := LookUp(env, rows, f);
      if found.Reused? {
        return Err(KeyReused);
      }
      if found.Replay? {
        return Ok(true);
      }
      if page.None? {
        return Err(EvidenceNotFound);
      }
      var saved := rows;
      var error := RecordFileAccesses(env, enabled, call, reportId, page.value.messages);
      if error.Some? {
        rows := saved;
        return Err(error.value);
      }
      rows := rows[KeyOf(f) := RowFor(env, f)];
      known := Ok(false);
    }

    /** The replay's own transaction: the page is read again and its links recorded. */
    method ReplayTransaction(env: Env, enabled: bool, call: Call, page: Option<Page>) returns (error: Option<Error>)
      requires env.reportOf(call.handle).Some?
      modifies this
      ensures
        match ReplayRead(env, old(rows), enabled, call, page)
        case Err(e) => error == Some(e) && rows == old(rows)
        case Ok(after) => error == None && page.Some? && rows == after
    {
      if page.None? {
        return Some(EvidenceNotFound);
      }
      var saved := rows;
      error := RecordFileAccesses(env, enabled, call, env.reportOf(call.handle).value, page.value.messages);
      if error.Some? {
        rows := saved;
      }
    }

    /**
     * Reads a page of evidence: in one transaction when it is read for the first time, and in a
     * second one when an earlier read under the same key is found.
     */
    method GetEvidencePage(env: Env, enabled: bool, call: Call, first: Option<Page>, again: Option<Page>)
      returns (r: Result<Page, Error>)
      modifies this
      ensures
        match FirstRead(env, old(rows), enabled, call, first)
        case Err(e) => r == Err(e) && rows == old(rows)
        case Ok(Fresh(after)) => first.Some? && r == Ok(first.value) && rows == after
        case Ok(Known) => (
          match ReplayRead(env, old(rows), enabled, call, again)
          case Err(e) => r == Err(e) && rows == old(rows)
          case Ok(after) => again.Some? && r == Ok(again.value) && rows == after
        )
    {
      if env.reportOf(call.handle).None? {
        return Err(EvidenceNotFound);
      }
      var known := FirstTransaction(env, enabled, call, first);
      if known.Err? {
        return Err(known.error);
      }
      if !known.value {
        return Ok(first.value);
      }
      var error := ReplayTransaction(env, enabled, call, again);
      if error.Some? {
        return Err(error.value);
      }
      r := Ok(again.value);
    }
  }
}
