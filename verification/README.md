# Admin services of KU Quest: a verified model

The Admin side of the repository lists reports and Member histories page by page, carries out
moderation commands that may be retried, streams updates to Admins, records every look at evidence,
and shows the ledger. This project models those services in Dafny and proves what they promise.
`dafny verify dfyconfig.toml` checks all of it.

Each file is one module. Pure code of the services is modelled as functions with lemmas; code that
changes rows, maps or queues step by step is modelled as classes and methods with loops, each proved
equal to a function on values about which the lemmas then speak.

| area | modules |
|---|---|
| keyset paging and merged lists | `RowOrder`, `KeysetPage`, `PageWalk`, `SingleList`, `MergedList`, `ReportList`, `MemberHistory`, `ModerationContext`, `Timestamps`, `IsoReading`, `TextOrder` |
| Admin commands | `ReportDesk`, `ReportOutcomes`, `ReportTables`, `ReportVisibility`, `ActionProtocol`, `ActionOutcomes`, `ResourceRevision`, `CommandRetries`, `ActionPolicy`, `PolicyScope`, `PolicyNames`, `CanonicalJson`, `RequestHash`, `RequestIdentity` |
| evidence access | `EvidenceAccess`, `EvidenceRecords`, `Calendar` |
| update fan-out | `UpdateHub`, `UpdateStreams` |
| cursors and search | `CursorText`, `CursorForm`, `Base64Url`, `Json`, `ListSearch` |
| ledger | `Ledger`, `Grouping` |
| shared | `Options`, `JsText`, `CodeUnits` |

## How things are modelled

- **Tables** are finite maps from rows to their other columns. What never changes about a listed
  row (microsecond time, identity, table) is its key. Every SQL statement sees the tables as they
  are at its own time, so one page of a merged list has four snapshots. Filters are arbitrary
  predicates.
- **Transactions** are interleaved steps: take the key lock, look up, lock the row, check and apply,
  commit or abort. PostgreSQL is assumed to commit atomically, to hand out locks exclusively, to
  keep unique keys and to compare rows lexicographically.
- **The update listener** has generations. The environment commits events, drops connections and
  restores them. A listener's callback after re-listening is assumed to run before the
  notifications that follow it.
- **Hashing** is an arbitrary function. Where a claim needs distinct digests it says on which texts.
- **Strings** in JSON are sequences of UTF-16 code units, lone surrogates included. Numbers are
  carried as the text that `String` prints.
- **Dates** are integers: microseconds in the tables, milliseconds in JavaScript. Parsing a date
  text is a parameter that must read ISO texts as ECMA-262 requires.

## What the proofs show that the comments do not say

- `readKeysetPage` says it never reports an empty page for a lost anchor. It checks the anchor in
  one statement and selects it again in the page query. An anchor deleted in between makes the row
  comparison NULL, and the reader returns an empty last page (`KeysetPage.LostAnchorHidesRows`).
  `KeysetPage.PageAfterAnchor` states exactly when the returned page is still the true one, and
  `MergedList.MergedPageTrueExactly` does so for a list over two tables, where only one side may be
  missing.
- Restoring a Message shows the Message and every hidden attachment of it, also when they were
  hidden before the case was decided: a dismissed case leaves its Message hidden, the sender can
  report it again, and restoring that second case shows it (`ReportVisibility.RestoreShowsEarlierHide`).
  `ReportVisibility.RestoreUndoesHides` states the exact condition under which a restore returns
  everything to its start.
- The merged lists compare timestamp texts. That is the order of the times for years up to 9999 and
  not beyond: `Timestamps.TextOrderUpToYear`.
- An evidence page is recorded under the trimmed request key and its file links under a digest of
  the raw one. Two keys that differ in outer white space share the page row but not the file rows:
  `EvidenceAccess.TrimmedPageRawFiles`. (The HTTP layer already strips ASCII blanks.)
- A timestamp-based command may leave its timestamp unchanged, and then a second command can expect
  the same one (`ResourceRevision.StandingTimestampServesTwice`).
  `ResourceRevision.TimestampsRepeatExactlyWhenTheyStand` says exactly when.
- `oneCalendarYearAfter` can look up the length of a February in the wrong century, for years 0 to
  99 (`Calendar.CenturyIsWrong`). `Calendar.CenturyIsHarmless` shows that the result is right all the same.

## Model

| member | source | states |
|---|---|---|
| `RowOrder.MergeTakesUnionPrefix` | src/modules/admin/admin-report.service.ts:982-1003 | Taking at most k of each of two sorted streams, merging and cutting to k gives the first k of the union, and some page or the merge overflows exactly when the union has more than k rows. |
| `RowOrder.SortedUnique` | src/shared/keyset-page.ts:131-132 | An ascending listing of a table is its only sorted reading, so a page order is determined by its rows. |
| `KeysetPage.CutIsPrefix` | src/shared/keyset-page.ts:139-160 | The limit + 1 probe yields the first `limit` rows past the boundary, a successor exactly when rows remain, and a next cursor minted from the last shown row. |
| `KeysetPage.PlainCursorRejected` | src/shared/keyset-page.ts:105-117 | A single-table cursor fails exactly when it carries a scope or no row has its identity at its millisecond. |
| `KeysetPage.PageAfterAnchor` | src/shared/keyset-page.ts:105-147 | When the anchor is deleted between check and page query the reader returns the empty last page; that is the true page if and only if the anchor is still there or nothing matching follows it. |
| `KeysetPage.LostAnchorHidesRows` | src/shared/keyset-page.ts:67-69 | A concrete case: the anchor passes its check, is gone when the page is read, and the row that follows it is never shown. |
| `SingleList.RefusedExactlyWhenGone` | src/shared/keyset-page.ts:96-117 | A cursor of a one-table list is refused exactly when its row is gone or, where the anchor is read with the filters, no longer listed. |
| `SingleList.SingleCursorExactly` | src/shared/keyset-page.ts:96-117 | Any cursor is accepted exactly when it carries the list's scope and names a row, at its millisecond, that is there and, where the anchor is read with the filters, listed. |
| `SingleList.SingleWalk` | src/shared/keyset-page.ts:84-159 | While rows come, change and go between reads, a walk over a one-table list repeats no row and once finished has shown every row that matched throughout; it fails only because the last row it showed is gone or no longer listed. Assumes that time and identity are immutable and that no shown row is deleted within one read. |
| `SingleList.PlainWalkUnderInserts` | src/modules/admin/admin-activity-log.service.ts:135-177 | With rows inserted anywhere between page reads and filters changing under them, a plain walk never fails and shows every row that matched throughout exactly once. |
| `SingleList.SingleWalkIsComplete` | src/modules/admin/admin-member.service.ts:1301-1349 | On a fixed table, with either kind of anchor, the walk is the sorted filtered table, ends, and is as long as the count query says. |
| `SingleList.SingleWalkShowsExactly` | src/shared/keyset-page.ts:84-159 | On a fixed table the walk shows exactly the rows that pass the filters. |
| `MergedList.MergedPageFailsExactly` | src/modules/admin/admin-report.service.ts:894-946 | The merged list fails exactly when an included table's cursor check, at its own time, no longer accepts the cursor. |
| `MergedList.MergedPageTrueExactly` | src/modules/admin/admin-report.service.ts:982-1032 | An accepted cursor gets the true page of both tables together exactly when the page queries, each at its own time, miss none of the rows that follow it, or only rows that come after a full page of the others. |
| `MergedList.WalkIsSortedUnion` | src/modules/admin/admin-member.service.ts:1160-1278 | On fixed tables the merged walk is the sorted filtered union of both tables, with no gap and no repeat, and it stops. |
| `ReportList.UnscopedCursor` | src/modules/admin/admin-report.service.ts:607-632 | A report cursor without a scope is accepted exactly when one table alone has its row at its millisecond. |
| `ReportList.ScopedCursor` | src/modules/admin/admin-report.service.ts:607-632 | A report cursor with a scope is accepted exactly when the table it names has its row at its millisecond. |
| `ReportList.ReportCursorFailsExactly` | src/modules/admin/admin-report.service.ts:831-946 | A page's cursor fails exactly when its report is gone from the check of a table that the query reads; a query for one kind, or a status of one kind, reads that kind's table only. |
| `ReportList.ReportWalkUnderInserts` | src/modules/admin/admin-report.service.ts:814-1036 | With reports filed and statuses changed between page reads, the walk shows every report that matched throughout exactly once, in order. |
| `ReportList.TotalCountIsSize` | src/modules/admin/admin-report.service.ts:1005-1021 | For every combination of kind, status and mode the total count is the number of rows the list is about. |
| `ReportList.ReportWalkIsComplete` | src/modules/admin/admin-report.service.ts:946-1032 | On fixed tables the whole walk is the sorted filtered union and has as many items as the total read back from the grouped status counts. |
| `ReportList.ReportWalkShowsAskedFor` | src/modules/admin/admin-report.service.ts:814-1036 | With reports filed and statuses changed between reads, a finished walk has every report that was asked for throughout and none that never was: its kind, its status or the open queue, and the other filters. |
| `ReportList.ReportWalkShowsExactly` | src/modules/admin/admin-report.service.ts:946-1032 | On fixed tables the walk shows a report exactly when the query asks for it. |
| `MemberHistory.ScopeNamesFilters` | src/modules/admin/admin-member.service.ts:953-963 | Two cursor scopes are equal exactly when role and all filters are. |
| `MemberHistory.CursorBoundToFilters` | src/modules/admin/admin-member.service.ts:996-1025 | A history cursor is accepted exactly under the filters it was minted with, while its row is still listed. |
| `MemberHistory.HistoryCursorExactly` | src/modules/admin/admin-member.service.ts:996-1025 | Any cursor is accepted exactly when an own entry has its identity and millisecond and it carries the scope of that role under these filters; one without a scope never is. |
| `MemberHistory.HistoryCursorFailsExactly` | src/modules/admin/admin-member.service.ts:996-1025 | While rows are only added, a history cursor fails exactly when one of its two checks no longer lists its entry. |
| `MemberHistory.HistoryWalkUnderInserts` | src/modules/admin/admin-member.service.ts:1061-1278 | With rows added and statuses changed freely between reads, a history walk repeats no entry, shows only listed ones, and once finished has shown every entry that stayed listed; it fails only because the last entry it showed is no longer listed. |
| `MemberHistory.ListedWalkNeverFails` | src/modules/admin/admin-member.service.ts:1061-1278 | While shown entries stay listed the walk never fails. |
| `MemberHistory.HistoryWalkIsComplete` | src/modules/admin/admin-member.service.ts:1160-1278 | On fixed tables the walk is the filtered union, newest first, and as long as the sum of the two counts. |
| `MemberHistory.HistoryShowsOwn` | src/modules/admin/admin-member.service.ts:978-1061 | With rows added and statuses changed between reads, a finished walk has every Quest and Assignment that was the Member's own under the role and status filters throughout, and none that never was. |
| `MemberHistory.HistoryShowsExactly` | src/modules/admin/admin-member.service.ts:978-1061 | On fixed tables the walk shows a Quest or an Assignment exactly when it is the Member's own, in the role and with the statuses asked for. |
| `ModerationContext.StableSortOrders` | src/modules/admin/admin-member-moderation-context.service.ts:152-165 | A stable sort by timestamp and identity orders the two streams as one table, ties with the Report Case decision first. |
| `ModerationContext.ContextShowsNewestActions` | src/modules/admin/admin-member-moderation-context.service.ts:106-175 | The context shows the five newest actions of both kinds before the case, each with its own action. |
| `ModerationContext.ContextIs` | src/modules/admin/admin-member-moderation-context.service.ts:40-175 | The context of a known Member has both report counts added up, the violations, and at most five actions, newest first, each of a moderation of this Member before the case; whatever is not shown is older than five that are. |
| `ModerationContext.UnknownMemberHasNoContext` | src/modules/admin/admin-member-moderation-context.service.ts:147-148 | The context is empty exactly without a Member or for an unknown one. |
| `TextOrder.DigitsAgree` | src/modules/admin/admin-member.service.ts:1055-1056 | Fixed-width numerals compare as texts as they do as numbers. |
| `TextOrder.UuidsAgree` | src/modules/admin/admin-report.service.ts:982-1000 | Identity texts order as the 128-bit values that PostgreSQL compares. |
| `Timestamps.TextOrderUpToYear` | src/modules/admin/admin-member.service.ts:774-775 | Timestamp texts order as the times do for all years up to a bound if and only if the bound has at most four digits. |
| `Timestamps.ComparatorIsRowOrder` | src/modules/admin/admin-report.service.ts:982-1000 | The in-memory comparator on timestamp, id and kind texts has the sign of the SQL row comparison, in both directions, and is zero only for a row and itself. |
| `Timestamps.ComparatorSorts` | src/modules/admin/admin-member.service.ts:1160-1172 | Sorting distinct rows by the comparator gives the one sorted reading that SQL ordering would. |
| `Timestamps.KindNamesOrder` | src/modules/admin/admin-report.service.ts:652-656 | Both lists name their tables in the order the comparator and the SQL boundary need. |
| `Timestamps.NewestFirstIsNewer` | src/modules/admin/admin-member-moderation-context.service.ts:162-165 | The moderation context's comparison of texts is the newest-first order on time and identity. |
| `Timestamps.IsoTextInjective` | src/shared/cursor.ts:64-65 | No two instants of the whole date range print the same ISO text. |
| `IsoReading.IsoTextReads` | src/shared/cursor.ts:64-65 | Every ISO text says its instant: a year, a date that exists, a time of day and milliseconds in their places, which add up to the instant it was printed from. |
| `IsoReading.TimestampTextReads` | src/modules/admin/admin-member-moderation-context.service.ts:115-115 | So does the text of a database timestamp, to the microsecond, for years 1 to 9999. |
| `ReportDesk.DecideKeepsInv` | src/modules/admin/admin-report.service.ts:1634-1749 | Every decision keeps the desk invariants: one open case for each Message, closing time exactly on closed cases, a hidden case's Message hidden, version one more than the decisions, and a log that chains from pending to the status. |
| `ReportDesk.FileKeepsInv` | src/modules/work-chat/message-report.service.ts:158-219 | Filing a report keeps the desk invariants. |
| `ReportDesk.RunKeepsInv` | src/database/schema/admin.schema.ts:346-362 | Over every run of decisions and filings the desk invariants hold. |
| `ReportOutcomes.CaseDecidedExactly` | src/modules/admin/admin-report.service.ts:1541-1555 | A Report Case is decided exactly when it exists, its version is the expected one, and (status, outcome) is one of five pairs; otherwise the first failing check names the error. |
| `ReportOutcomes.ConductDecidedExactly` | src/modules/admin/admin-report.service.ts:1787-1815 | A Conduct Report is decided exactly when it exists at the expected version and is pending, with each failure's own error. |
| `ReportOutcomes.CaseDecisionWrites` | src/modules/admin/admin-report.service.ts:1557-1749 | Where every row stands after a decision: the case's status, closing time and version, the log entry, the Message, and each file; nothing else changes. |
| `ReportOutcomes.ConductDecisionWrites` | src/modules/admin/admin-report.service.ts:1847-1870 | The verdict, its resolver, the time and the next version; nothing else changes. |
| `ReportOutcomes.FiledExactly` | src/modules/work-chat/message-report.service.ts:158-219 | A filing is refused exactly when the Message is not there to be seen; otherwise the Member is on the Message's open case, and a new pending one is opened only when there is none. |
| `ReportVisibility.ClosedIsTerminal` | src/modules/admin/admin-report.service.ts:1541-1555 | No run ever changes a dismissed or restored case again. |
| `ReportVisibility.OtherMessagesUntouched` | src/modules/admin/admin-report.service.ts:1557-1614 | A decision touches one Message and the files linked to it, and no others. |
| `ReportVisibility.RunKeepsImage` | src/modules/admin/admin-report.service.ts:1557-1585 | While a case stays open its Message and files are as at the start, or hidden, whatever happens to other cases. |
| `ReportVisibility.RestoreUndoesHides` | src/modules/admin/admin-report.service.ts:1557-1614 | Hides followed by a restore return Message visibility and all attachment statuses to the start exactly when nothing of the Message was hidden then. |
| `ReportVisibility.RestoreShowsEarlierHide` | src/modules/admin/admin-report.service.ts:1587-1614 | A concrete run from a clean desk: a Message hidden by a dismissed case, reported again by its sender, hidden and restored, ends shown with its file. |
| `ReportTables.Tables.HideMessage` | src/modules/admin/admin-report.service.ts:1557-1585 | Hides the Message unless it is hidden, and its consumed, undeleted files of the same conversation; nothing else changes. |
| `ReportTables.Tables.RestoreMessage` | src/modules/admin/admin-report.service.ts:1587-1614 | Shows the Message and its hidden, undeleted files of the same conversation; nothing else changes. |
| `ReportTables.Tables.DecideReportCase` | src/modules/admin/admin-report.service.ts:1634-1749 | The row-by-row decision has exactly the effect of the decision function, errors included; a failed one leaves every table as it was. |
| `ReportTables.Tables.DecideConductReport` | src/modules/admin/admin-report.service.ts:1761-1898 | The same for Conduct Reports, with the version check before the pending check. |
| `ReportTables.Tables.SubmitMessageReport` | src/modules/work-chat/message-report.service.ts:158-219 | Joins the Message's open case or opens one, and keeps the desk invariants. |
| `ActionProtocol.EveryInterleavingIsSerial` | src/modules/admin/admin-action.service.ts:364-438 | After any interleaving of any number of transactions the committed desk is the result of the committed commands and filings one at a time in commit order, and satisfies the desk invariants. |
| `ActionProtocol.AppliedAtMostOnce` | src/modules/admin/admin-action.service.ts:364-438 | A command commits at most once for each Admin, action and request key. |
| `ActionProtocol.ActionsAreImmutable` | src/database/schema/admin.schema.ts:55-59 | An Admin Action row, once there, stays as it is. |
| `ActionProtocol.RetriesReturnFirstResult` | src/modules/admin/admin-action.service.ts:310-324 | Any two successes under one key return the same stored result, however far the resource has moved on. |
| `ActionProtocol.ReusedKeyNeverSucceeds` | src/modules/admin/admin-action.service.ts:310-324 | A key once used never succeeds with another request hash, now or later. |
| `ActionProtocol.FailureChangesNothing` | src/modules/admin/admin-action.service.ts:364-438 | A step that ends a transaction in failure changes nothing that is committed. |
| `ActionProtocol.NoLostUpdates` | src/modules/admin/admin-action.service.ts:491-504 | On one resource each committed command decided on the very version it expected, and a later one expects no less than an earlier one's result. |
| `ActionOutcomes.KeysTellRequestsApart` | src/modules/admin/admin-action.service.ts:290-308 | Two requests share a key exactly when Admin, kind of action and request key agree, and a row lock exactly when they are about one resource. |
| `ActionOutcomes.BlockedExactlyByHolders` | src/modules/admin/admin-action.service.ts:364-371 | In every reachable state a transaction gets its key, or its row, exactly when no other one under way has taken it: locks never leak. |
| `ActionOutcomes.LookUpFinds` | src/modules/admin/admin-action.service.ts:310-381 | A disabled Admin is turned away; a key used by the same request gets that commit's stored result, a key used by another one is an error, and only an unused key goes on. |
| `ActionOutcomes.RetryIsAnswered` | src/modules/admin/admin-action.service.ts:310-381 | From every reachable state in which its key is free, the retry of a committed request gets that commit's result and changes nothing. |
| `ActionOutcomes.NewRequestIsAnswered` | src/modules/admin/admin-action.service.ts:364-438 | From every reachable state, an undisturbed request under an unused key ends exactly as the decision on the desk does: committed with the next version, or failed with the decision's error and nothing changed. |
| `ActionOutcomes.CancelsCleanly` | src/modules/admin/admin-action.service.ts:510-513 | A transaction can be cancelled exactly until it ends, and that changes nothing else. |
| `ResourceRevision.VersionsNeverRepeat` | src/modules/admin/admin-action.service.ts:326-348 | On a versioned resource the expected versions of successful commands strictly increase. |
| `ResourceRevision.ExecutesExactly` | src/modules/admin/admin-action.service.ts:326-362 | A command succeeds, with its own result, exactly when it found the resource where it expected it and left it further on; another revision is a conflict whatever the result. |
| `ResourceRevision.TimestampsRepeatExactlyWhenTheyStand` | src/modules/admin/admin-action.service.ts:349-362 | Two successful timestamp-based commands expect one timestamp exactly when every command from the first to before the second left it where it was. |
| `ResourceRevision.StandingTimestampServesTwice` | src/modules/admin/admin-action.service.ts:349-362 | Two commands that leave a timestamp where it was can both expect it and both succeed. |
| `CommandRetries.OneKeyOneCommand` | src/modules/admin/admin-action.service.ts:310-324 | With a collision-free hash, two successes under one key had equal fields throughout and one result. |
| `CommandRetries.DifferentFieldsFail` | src/modules/admin/admin-action.service.ts:310-324 | A transaction with other fields under a used key can only fail. |
| `Json.CharsRoundTrip` | src/modules/admin/admin-action.service.ts:165-175 | A quoted string reads back unchanged for every sequence of code units. |
| `Json.JsonRoundTrip` | src/modules/admin/admin-action.service.ts:165-175 | Parsing what was printed gives the tree back, so no two trees print alike (RFC 8259, sections 2 to 7). |
| `CanonicalJson.CanonicalJsonPrints` | src/modules/admin/admin-action.service.ts:165-175 | Canonical JSON is the print of the tree with the keys of every object sorted. |
| `CanonicalJson.CanonicalJsonIsInjective` | src/modules/admin/admin-action.service.ts:165-175 | Two values have one canonical text exactly when they are equal up to key order, however deep they nest. |
| `RequestHash.IntTextInjective` | src/modules/admin/admin-action.service.ts:168-168 | Printed integers are equal exactly when the integers are. |
| `RequestHash.IntTextReads` | src/modules/admin/admin-action.service.ts:165-168 | An integer prints as a minus sign exactly when negative, then its digits, with no leading zero. |
| `RequestHash.HashTellsCommandsApart` | src/modules/admin/admin-action.service.ts:240-254 | With a collision-free hash, two commands share a request hash exactly when all their normalized fields agree. |
| `ActionPolicy.SpellingsAlike` | src/modules/admin/admin-action.policy.ts:83-88 | A field name is restricted exactly when its snake case spelling is. |
| `ActionPolicy.NormalizeSafeValue` | src/modules/admin/admin-action.policy.ts:230-258 | Accepts exactly the values that are safe at every depth, and returns them unchanged. |
| `ActionPolicy.NormalizeSafeObject` | src/modules/admin/admin-action.policy.ts:260-264 | An absent object is empty; anything else must be a safe object and comes back unchanged. |
| `ActionPolicy.ReplayIsAccepted` | src/modules/admin/admin-action.service.ts:284-289 | An accepted result is accepted again, unchanged, in whatever property order it is read back. |
| `ActionPolicy.NormalizeRequestValue` | src/modules/admin/admin-action.policy.ts:309-342 | Accepts exactly the JSON requests with safe integers and short names, and turns every undefined value into null. |
| `ActionPolicy.NulledTwice` | src/modules/admin/admin-action.policy.ts:309-342 | Normalizing a request twice is normalizing it once, and only undefined values ever change. |
| `ActionPolicy.RequestsHashAlike` | src/modules/admin/admin-action.service.ts:238-254 | Retries that differ only in the raw request hash alike exactly when the requests are equal JSON values once undefined is read as null. |
| `RequestIdentity.CommandsHashAlike` | src/modules/admin/admin-action.service.ts:199-270 | Two commands, as they arrive, hash alike exactly when every plain field agrees and their requests and metadata are equal up to the order of names, undefined read as null. |
| `PolicyScope.SafeExactly` | src/modules/admin/admin-action.policy.ts:230-258 | Metadata and results are accepted exactly when each part, at any depth, is acceptable on its own. |
| `PolicyScope.RequestExactly` | src/modules/admin/admin-action.policy.ts:309-342 | The same for requests. |
| `PolicyScope.NulledExactly` | src/modules/admin/admin-action.policy.ts:309-342 | Normalizing a request keeps every part in its place and turns undefined into null, nothing else. |
| `PolicyNames.UnsafeTextExactly` | src/modules/admin/admin-action.policy.ts:80-80 | A text is restricted exactly when, whatever the case of its letters, it holds one of six marks, or "signed" with no word character on either side. |
| `PolicyNames.SnakeOfJoin` | src/modules/admin/admin-action.policy.ts:84-84 | The spelling puts an underscore exactly where a lower-case letter meets an upper-case one, and lowers the rest. |
| `PolicyNames.RestrictedNameExactly` | src/modules/admin/admin-action.policy.ts:83-88 | A name is restricted exactly when its spelling does not end in the exempt word, and holds "reason_text" or a restricted word between its underscores. |
| `EvidenceAccess.FileTextInjective` | src/modules/admin/admin-report.service.ts:2442-2449 | The hashed text tells request key, handle and attachment apart, whatever colons the key holds. |
| `EvidenceAccess.FileKeysDistinct` | src/modules/admin/admin-report.service.ts:2442-2449 | Distinct triples have distinct file keys unless their digests collide. |
| `EvidenceAccess.RecordFilesKeeps` | src/modules/admin/admin-report.service.ts:2451-2481 | Recording a page's links never fails for an enabled Admin, keeps every row, covers every link and adds no second row. |
| `EvidenceAccess.EveryReturnIsRecorded` | src/modules/admin/admin-report.service.ts:2495-2572 | In every run, first reads and replays alike, each returned page has its access row and each link on it a file-access row. |
| `EvidenceRecords.EveryReturnNamesItsReader` | src/modules/admin/admin-report.service.ts:2451-2543 | In every run each returned page has a row with the reader's Admin, its handle, limit, cursor and trimmed key, and each link on it a row with that Admin, the attachment and the handle. Assumes that request hashes do not collide. |
| `EvidenceRecords.OnlyReturnsAreRecorded` | src/modules/admin/admin-report.service.ts:2451-2569 | In every run each row names an Admin to whom its page, or a page with its link, was returned. |
| `EvidenceRecords.FirstReadExactly` | src/modules/admin/admin-report.service.ts:2484-2543 | The outcome of a first read, cause by cause and in order: handle, key, Admin, another request's key, an earlier read, a page that is gone. |
| `EvidenceRecords.NewReadReturns` | src/modules/admin/admin-report.service.ts:2495-2546 | In every run, a page that the Admin has not read under this key comes back in one step. |
| `EvidenceRecords.RepeatReturns` | src/modules/admin/admin-report.service.ts:2548-2571 | In every run, reading a returned page again under its key returns it again in two steps, however it has changed since. |
| `EvidenceAccess.RowsAreImmutable` | src/modules/admin/admin-action.service.ts:400-425 | Access rows are never changed or removed. |
| `EvidenceAccess.RepeatAddsNothing` | src/modules/admin/admin-report.service.ts:2545-2569 | Reading a returned page again under its key is a replay: never a key reuse, and no second row. |
| `EvidenceAccess.ReplayNeverFails` | src/modules/admin/admin-report.service.ts:2545-2569 | A replay of a page that has changed since still records every link on it. |
| `EvidenceAccess.TrimmedPageRawFiles` | src/modules/admin/admin-report.service.ts:2472-2472 | Two request keys share the page row exactly when they trim alike, and the file rows exactly when they are equal. |
| `EvidenceAccess.AccessLog.RecordFileAccess` | src/modules/admin/admin-action.service.ts:515-530 | One link is recorded, found again, or refused, exactly as the function says; a refusal changes nothing. |
| `EvidenceAccess.AccessLog.RecordAttachments` | src/modules/admin/admin-report.service.ts:2462-2479 | The inner loop records the links of one message up to the first refusal. |
| `EvidenceAccess.AccessLog.RecordFileAccesses` | src/modules/admin/admin-report.service.ts:2451-2481 | The nested loops record exactly the linked attachments of the page, in order. |
| `EvidenceAccess.AccessLog.FirstTransaction` | src/modules/admin/admin-report.service.ts:2502-2543 | The access and its file rows commit together or not at all. |
| `EvidenceAccess.AccessLog.ReplayTransaction` | src/modules/admin/admin-report.service.ts:2545-2569 | A replay records its links in a transaction of its own. |
| `EvidenceAccess.AccessLog.GetEvidencePage` | src/modules/admin/admin-report.service.ts:2495-2572 | The whole read is the two transactions' functions, errors included. |
| `Calendar.DayFromYearFormula` | src/modules/admin/admin-report.service.ts:1226-1233 | Counting years one by one gives the closed form of ECMA-262. |
| `Calendar.CivilRoundTrip` | src/modules/admin/admin-report.service.ts:1226-1233 | Dates and day numbers correspond one to one. |
| `Calendar.MonthTable` | src/modules/admin/admin-report.service.ts:1226-1233 | Each month begins where the table of ECMA-262 says. |
| `Calendar.CenturyIsHarmless` | src/modules/admin/admin-report.service.ts:1229-1231 | The two-digit year rule of `Date.UTC` never changes the clamped day. |
| `Calendar.YearIs365Or366` | src/modules/admin/admin-report.service.ts:1226-1233 | One calendar year on is 365 days later, or 366 exactly when a 29 February lies after the first day and up to the last; the time of day is kept. |
| `Calendar.ExpiryOrder` | src/modules/admin/admin-report.service.ts:1226-1233 | A later end never expires on an earlier day, and expires at an earlier instant exactly when it falls on a 29 February and the earlier end on the 28th at a later time of day. |
| `UpdateHub.RunKeepsInv` | src/modules/admin/admin-update.delivery.ts:77-166 | Over every run the hub's subscriptions satisfy the delivery invariant. |
| `UpdateHub.NoSilentMiss` | src/modules/admin/admin-update.delivery.ts:53-62 | What a live subscription has received and has queued is, in commit order and once each, the backlog it opened with and every event committed since. |
| `UpdateHub.GapClosesSubscriptions` | src/modules/admin/admin-update.delivery.ts:110-114 | Whoever is live while a listener hears opened after its last reconnection. |
| `UpdateHub.StoppedNeverDelivers` | src/modules/admin/admin-update.delivery.ts:95-109 | Nothing that a listener generation queued is delivered once it is no longer active, ever. |
| `UpdateStreams.StreamEndsExactly` | src/modules/admin/admin-update.delivery.ts:42-166 | A live stream outlives a step exactly when the step is not its own end, a stop, a re-registration of the active listener, a delivery it does not take, or a delivery that fails for all; a survivor has received what was delivered. |
| `UpdateStreams.StreamLivesOn` | src/modules/admin/admin-update.delivery.ts:42-166 | Over whole runs a stream that none of these ends stays live, whatever becomes of the others, and has received every event delivered since, in order. |
| `UpdateStreams.UpdateArrives` | src/modules/admin/admin-update.delivery.ts:93-103 | In every reachable state, an event committed while a stream's listener hears is the last thing that stream has received once the queue has drained. |
| `UpdateStreams.StreamOpensExactly` | src/modules/admin/admin-update.delivery.ts:127-157 | A stream opens by its own subscription only, empty and under the active listener. |
| `UpdateStreams.SubscribesExactly` | src/modules/admin/admin-update.delivery.ts:127-133 | One can subscribe exactly while an active listener has begun to hear. |
| `UpdateStreams.ListenerChangesExactly` | src/modules/admin/admin-update.delivery.ts:77-121 | The active listener changes only when a first one starts under a new number, its own start fails, or the hub stops. |
| `UpdateStreams.QueueChangesExactly` | src/modules/admin/admin-update.delivery.ts:95-109 | A valid payload heard by the active listener joins the queue, and each delivery leaves its head. |
| `UpdateHub.Hub.CloseAllSubscriptions` | src/modules/admin/admin-update.delivery.ts:49-51 | Leaves no subscription. |
| `UpdateHub.Hub.DeliverEvent` | src/modules/admin/admin-update.delivery.ts:53-62 | Appends the event to every stream that takes it and closes exactly those that throw. |
| `UpdateHub.Hub.EnsureListener` | src/modules/admin/admin-update.delivery.ts:77-91 | Starts a new generation only when none is active. |
| `UpdateHub.Hub.Listening` | src/modules/admin/admin-update.delivery.ts:110-114 | After a re-registration of the active generation every subscription is closed; another generation's callback does nothing. |
| `UpdateHub.Hub.ListenFailed` | src/modules/admin/admin-update.delivery.ts:117-121 | A failed start clears only its own generation. |
| `UpdateHub.Hub.Notify` | src/modules/admin/admin-update.delivery.ts:95-101 | Only the active generation queues a delivery, and only for a valid payload. |
| `UpdateHub.Hub.NotifyAll` | src/modules/admin/admin-update.delivery.ts:95-101 | However many listeners hear a commit, it is queued at most once. |
| `UpdateHub.Hub.Notified` | src/modules/admin/admin-update.delivery.ts:95-109 | A commit heard by the connected listeners is the model's commit step. |
| `UpdateHub.Hub.RunDelivery` | src/modules/admin/admin-update.delivery.ts:100-103 | The next queued delivery reaches the streams only if its generation is still active. |
| `UpdateHub.Hub.FailDelivery` | src/modules/admin/admin-update.delivery.ts:104-108 | A delivery that throws closes every subscription of the active generation. |
| `UpdateHub.Hub.SubscribeToUpdates` | src/modules/admin/admin-update.delivery.ts:127-157 | Adds one live subscription that has received nothing. |
| `UpdateHub.Hub.EndSubscription` | src/modules/admin/admin-update.delivery.ts:132-157 | Leaving, expiry and a failed heartbeat remove that subscription only. |
| `UpdateHub.Hub.StopListener` | src/modules/admin/admin-update.delivery.ts:159-166 | No generation is active and no subscription is left. |
| `Base64Url.EncodesSextets` | src/shared/cursor.ts:43-44 | The three replacements drop exactly the padding and swap exactly the two unsafe characters. |
| `Base64Url.UrlAlphabetIs` | src/shared/cursor.ts:43-44 | Each six-bit group prints as RFC 4648, section 5, says. |
| `Base64Url.SpareBitsAreZero` | src/shared/cursor.ts:43-44 | The spare bits of the last group are zero (RFC 4648, section 3.5). |
| `Base64Url.Base64UrlRoundTrip` | src/shared/cursor.ts:43-52 | Restoring the padding by length gives back every non-empty byte string (RFC 4648, sections 3.2, 4 and 5). |
| `Base64Url.DecodesExactly` | src/shared/cursor.ts:46-52 | Decoding yields bytes, and fails exactly on an empty text, other characters, or a lone last one. |
| `CursorText.IsoDatesCanBeRead` | src/shared/cursor.ts:54-65 | A date reading as the other cursor claims assume it exists: each ISO text names one instant. |
| `CursorText.CursorRoundTrip` | src/shared/cursor.ts:54-123 | Exactly the valid payloads encode, and each decodes to itself with its time in canonical form, with and without scope. |
| `CursorText.AcceptedCursorsEncode` | src/shared/cursor.ts:74-123 | Every accepted cursor holds a payload that encodes again and is then unchanged. |
| `CursorForm.AcceptedExactly` | src/shared/cursor.ts:74-123 | A text is accepted exactly when it is the base64url form of a JSON object with version one, a canonical time, a UUID, maybe a scope, and no other property. |
| `CursorText.MintedCursorsSurvive` | src/shared/keyset-page.ts:150-160 | A cursor minted by a page comes back as the millisecond, identity and scope it was minted from. |
| `CursorText.ScopesEncode` | src/modules/admin/admin-member.service.ts:953-963 | The scopes of both lists pass the cursor's own scope check, whatever the filters. |
| `ListSearch.SearchFindsSubstrings` | src/shared/list-search.ts:3-24 | For every search text and value the pattern matches exactly when the folded value contains the folded text, and the matcher never rejects the pattern. |
| `ListSearch.QueryFindsSubstrings` | src/shared/list-search.ts:3-9 | A query for some text finds exactly the values that contain it, its outer space taken off. |
| `ListSearch.BlankQueryHasNoPattern` | src/shared/list-search.ts:6-9 | There is no pattern exactly for a missing query or one of white space. |
| `ListSearch.BuildStatusCounts` | src/shared/list-search.ts:11-21 | The loop computes the counts function. |
| `ListSearch.CountsAreTrue` | src/shared/list-search.ts:11-21 | Read back from a grouping, the counts are the true counts, absent statuses included. |
| `Grouping.GroupByKey` | src/modules/admin/admin-member.service.ts:1203-1220 | The loop that fills a Map of arrays computes the grouping function. |
| `Grouping.GroupsAreComplete` | src/modules/admin/admin-finance.service.ts:398-403 | Each key's array holds exactly its rows in reading order, and there are no other keys. |
| `Ledger.SumOf` | src/modules/admin/admin-finance.service.ts:407-407 | The running total is the sum of the amounts. |
| `Ledger.ListTransactions` | src/modules/admin/admin-finance.service.ts:398-419 | Each listed transaction shows exactly its own postings and is balanced exactly when they sum to zero. |
| `Ledger.ItemsShowTheirOwn` | src/modules/admin/admin-finance.service.ts:398-419 | A listed transaction shows all of its postings and no other transaction's, and is balanced exactly when they sum to zero. |
| `Ledger.ListingShowsEveryPosting` | src/modules/admin/admin-finance.service.ts:398-403 | Grouping loses no posting and doubles none. |
| `Ledger.FinanceOverview` | src/modules/admin/admin-finance.service.ts:446-511 | Each balance is the true balance of its account type as the first statement saw the ledger, absent types zero; the balance flag is the second statement's; and the flag says whether circulating money is the negation of revenue plus suspense exactly when both states sum to zero or neither does. |
| `Ledger.BalancedCommitsKeepOverviewTrue` | src/modules/admin/admin-finance.service.ts:485-507 | While transactions are only committed balanced, both states sum to zero, so the overview's two statements agree whatever is committed between them. |
| `Ledger.BothSumsAgree` | src/modules/admin/admin-finance.service.ts:398-498 | Summing by transaction and by account type gives one total. |
| `Ledger.BalancedTransactionsBalanceTheBooks` | src/modules/admin/admin-finance.service.ts:398-498 | When every transaction is reported as balanced, the postings sum to zero and circulating money is the negation of revenue plus suspense. |

## Left out

- HTTP routes, schemas, sessions and rate limits: they decide who may call, not what a call does.
- PostgreSQL: its locks, snapshots, unique indexes and row comparison are assumed as described above.
- Wallets, payouts, quest lifecycle, push messages and the penalty ladder: a decision's effect on them is not part of this model.
- Object storage, signed URLs and encryption: an attachment is returned with a link or without one.
- SHA-256: an arbitrary function; a digest has 64 hexadecimal digits and no collision where a claim says so.
- `normalizeReasonCatalog`: a check of fixed catalog data, field by field, that no other property needs.
- `conductReportEvidenceExpiresAt`: the choice of the end of a Quest; only the year added to it is modelled.
- The columns that searches and filters read: any predicate on a row's other columns stands for them.
- Sparse arrays in a request: an array here has all of its items.
- Dates outside the range of JavaScript dates, which become invalid dates there.
- ActionProtocol.EveryInterleavingIsSerial: the key lock is the key itself; two keys whose lock numbers collide would only wait for each other.
- ActionProtocol.NoLostUpdates: speaks of Report Cases and Conduct Reports; other commands are covered by `ResourceRevision` for one resource at a time.
- ActionPolicy.NormalizeSafeValue: unsafe texts are found by ASCII case folding, and the path in an error message is not modelled.
- Base64Url.Base64UrlRoundTrip: the blank-stripping of `atob` is not modelled, because the pattern before it admits no blanks.
- CursorText.CursorRoundTrip: whether a parsed number equals 1 is a parameter, because decimal rounding is not modelled.
- ListSearch.SearchFindsSubstrings: case folding is any character map that leaves the three pattern characters apart, so foldings that change a text's length are not covered.
- Timestamps.ComparatorIsRowOrder: assumes identities of 128 bits and years 1 to 9999, as stored by the tables.
- Timestamps.NewestFirstIsNewer: compares by code units where the source calls `localeCompare`; on digits, lower-case hexadecimal and fixed separators both orders are the same.
- UpdateHub.NoSilentMiss: the heartbeat and expiry timers are steps that may happen at any time; their periods are not modelled.
- ReportVisibility.RestoreUndoesHides: deletions of a Message or file in between are not part of a run.
