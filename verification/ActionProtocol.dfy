/**
 * The Admin Action command protocol: any number of transactions, interleaved step by step, over
 * the key lock, the replay lookup, the row lock, the version check, the writes and the commit.
 */
module ActionProtocol {
  import opened Options
  import opened ReportDesk

  datatype Key = Key(adminId: nat, action: string, requestKey: string)

  /** A normalized command: who, what, under which request key, and the hash of all of it. */
  datatype Request = Request(command: Command, requestKey: string, hash: string) {
    function KeyOf(): Key {
      Key(command.adminId, ActionName(command.target), requestKey)
    }
  }

  function ActionName(target: Target): string {
    match target
    case OnCase(_, Dismiss) => "REPORT_CASE_DISMISS"
    case OnCase(_, Hide) => "REPORT_CASE_HIDE"
    case OnCase(_, Restore) => "REPORT_CASE_RESTORE"
    case OnConduct(_, verdict) =>
      if verdict.ConductDismissed? then "CONDUCT_REPORT_DISMISS" else "CONDUCT_REPORT_UPHOLD"
  }

  /** The resource row that a command locks with `for update`. */
  datatype RowId = CaseRowId(id: nat) | ConductRowId(id: nat)

  function RowOf(target: Target): RowId {
    match target
    case OnCase(id, _) => CaseRowId(id)
    case OnConduct(id, _) => ConductRowId(id)
  }

  /** An immutable Admin Action row: the hash it was made with and its stored result. */
  datatype Stored = Stored(hash: string, version: nat, actionId: nat)

  datatype Failure = AdminNotFound | KeyReused | Refused(error: Error) | Cancelled

  datatype Phase =
    | Waiting
    | Keyed
    | Unseen
    | Prepared(version: nat)
    | Applied(writes: Writes)
    | Done(result: Result<Stored, Failure>)

  datatype Tx = Tx(request: Request, phase: Phase)

  datatype Event = Committed(request: Request) | Reported(filing: Filing)

  /** The committed database, the locks, the running transactions, and the order of commits. */
  datatype State = State(
    desk: Desk, actions: map<Key, Stored>,
    keyLocks: map<Key, nat>, rowLocks: map<RowId, nat>,
    txs: map<nat, Tx>, history: seq<Event>)

  datatype Step =
    | Begin(tx: nat, request: Request)
    | LockKey(tx: nat)
    | LookUp(tx: nat, adminEnabled: bool)
    | LockRow(tx: nat)
    | CheckAndApply(tx: nat)
    | Commit(tx: nat)
    | Abort(tx: nat)
    | FileReport(filing: Filing)

  function Release<K>(locks: map<K, nat>, tx: nat): map<K, nat> {
    map k | k in locks && locks[k] != tx :: locks[k]
  }

  function Move(s: State, tx: nat, phase: Phase): State
    requires tx in s.txs
  {
    s.(txs := s.txs[tx := s.txs[tx].(phase := phase)])
  }

  /** The transaction ends: its locks are released. */
  function Finish(s: State, tx: nat, result: Result<Stored, Failure>): State
    requires tx in s.txs
  {
    Move(s, tx, Done(result)).(keyLocks := Release(s.keyLocks, tx), rowLocks := Release(s.rowLocks, tx))
  }

  function WithReport(s: State, filing: Filing, desk: Desk): State {
    s.(desk := desk, history := s.history + [Reported(filing)])
  }

  ghost function Next(s: State, step: Step): Option<State> {
    match step
    case Begin(tx, request) =>
      if tx in s.txs then None else Some(s.(txs := s.txs[tx := Tx(request, Waiting)]))
    case LockKey(tx) =>
      if tx !in s.txs || !s.txs[tx].phase.Waiting? || s.txs[tx].request.KeyOf() in s.keyLocks then None
      else Some(Move(s, tx, Keyed).(keyLocks := s.keyLocks[s.txs[tx].request.KeyOf() := tx]))
    case LookUp(tx, adminEnabled) =>
      if tx !in s.txs || !s.txs[tx].phase.Keyed? then None
      else
        var request := s.txs[tx].request;
        if !adminEnabled then Some(Finish(s, tx, Err(AdminNotFound)))
        else if request.KeyOf() !in s.actions then Some(Move(s, tx, Unseen))
        else if s.actions[request.KeyOf()].hash != request.hash then Some(Finish(s, tx, Err(KeyReused)))
        else Some(Finish(s, tx, Ok(s.actions[request.KeyOf()])))
    case LockRow(tx) =>
      if tx !in s.txs || !s.txs[tx].phase.Unseen? || RowOf(s.txs[tx].request.command.target) in s.rowLocks then None
      else
        var current := Prepare(s.desk, s.txs[tx].request.command.target);
        if current.Err? then Some(Finish(s, tx, Err(Refused(current.error))))
        else
          Some(Move(s, tx, Prepared(current.value))
            .(rowLocks := s.rowLocks[RowOf(s.txs[tx].request.command.target) := tx]))
    case CheckAndApply(tx) =>
      if tx !in s.txs || !s.txs[tx].phase.Prepared? || Prepare(s.desk, s.txs[tx].request.command.target).Err? then None
      else
        var c := s.txs[tx].request.command;
        if s.txs[tx].phase.version != c.expectedVersion then Some(Finish(s, tx, Err(Refused(Conflict))))
        else
          var writes := Apply(s.desk, c);
          if writes.Err? then Some(Finish(s, tx, Err(Refused(writes.error))))
          else Some(Move(s, tx, Applied(writes.value)))
    case Commit(tx) =>
      if tx !in s.txs || !s.txs[tx].phase.Applied? || s.txs[tx].request.KeyOf() in s.actions then None
      else
        var request := s.txs[tx].request;
        var stored := Stored(request.hash, request.command.expectedVersion + 1, |s.history|);
        Some(Finish(s, tx, Ok(stored)).(
          desk := Write(s.desk, request.command.target, s.txs[tx].phase.writes),
          actions := s.actions[request.KeyOf() := stored],
          history := s.history + [Committed(request)]))
    case Abort(tx) =>
      if tx !in s.txs || s.txs[tx].phase.Done? then None else Some(Finish(s, tx, Err(Cancelled)))
    case FileReport(filing) =>
      var filed := File(s.desk, filing);
      if filed.Err? then Some(s) else Some(WithReport(s, filing, filed.value))
  }

  ghost function Exec(s: State, steps: seq<Step>): Option<State> {
    if steps == [] then Some(s)
    else
      var before := Exec(s, steps[..|steps| - 1]);
      if before.None? then None else Next(before.value, steps[|steps| - 1])
  }

  function Start(desk: Desk): State {
    State(desk, map[], map[], map[], map[], [])
  }

  // ---- What every interleaving keeps ----

  function OpsOf(history: seq<Event>): seq<Op> {
    seq(|history|, i requires 0 <= i < |history| =>
      match history[i] case Committed(r) => Decided(r.command) case Reported(f) => Filed(f))
  }

  predicate HoldsKey(p: Phase) {
    p.Keyed? || p.Unseen? || p.Prepared? || p.Applied?
  }

  predicate HoldsRow(p: Phase) {
    p.Prepared? || p.Applied?
  }

  ghost predicate TxFacts(s: State, tx: nat)
    requires tx in s.txs
  {
    var t := s.txs[tx];
    var key := t.request.KeyOf();
    var c := t.request.command;
    && (HoldsKey(t.phase) ==> key in s.keyLocks && s.keyLocks[key] == tx)
    && (HoldsRow(t.phase) ==> RowOf(c.target) in s.rowLocks && s.rowLocks[RowOf(c.target)] == tx)
    && (t.phase.Unseen? || HoldsRow(t.phase) ==> key !in s.actions)
    && (t.phase.Prepared? ==> Prepare(s.desk, c.target) == Ok(t.phase.version))
    && (t.phase.Applied? ==> Prepare(s.desk, c.target) == Ok(c.expectedVersion)
                              && Apply(s.desk, c) == Ok(t.phase.writes))
    && (t.phase.Done? && t.phase.result.Ok? ==>
          key in s.actions && s.actions[key] == t.phase.result.value && t.phase.result.value.hash == t.request.hash)
  }

  /** The i-th commit is the one Admin Action of its key. */
  ghost predicate RecordedAt(s: State, i: nat)
    requires i < |s.history| && s.history[i].Committed?
  {
    var r := s.history[i].request;
    r.KeyOf() in s.actions && s.actions[r.KeyOf()] == Stored(r.hash, r.command.expectedVersion + 1, i)
  }

  /** The committed database is what the commits, run one after the other, make of the first desk. */
  ghost predicate DbSafe(initial: Desk, s: State) {
    && Inv(s.desk)
    && Run(initial, OpsOf(s.history)) == Ok(s.desk)
    && (forall i :: 0 <= i < |s.history| && s.history[i].Committed? ==> RecordedAt(s, i))
    && (forall k :: k in s.actions ==>
          var i := s.actions[k].actionId;
          i < |s.history| && s.history[i].Committed? && s.history[i].request.KeyOf() == k)
  }

  ghost predicate Safe(initial: Desk, s: State) {
    DbSafe(initial, s) && forall tx :: tx in s.txs ==> TxFacts(s, tx)
  }

  lemma HistoryGrows(initial: Desk, history: seq<Event>, e: Event)
    requires Run(initial, OpsOf(history)).Ok?
    ensures Run(initial, OpsOf(history + [e])) == Do(Run(initial, OpsOf(history)).value, OpsOf([e])[0])
  {
    assert OpsOf(history + [e])[..|history|] == OpsOf(history);
  }

  lemma SameFiles(
    outcome: Outcome, before: map<nat, Attachment>, after: map<nat, Attachment>, m: nat, conversationId: nat, now: int)
    requires before.Keys == after.Keys
    requires forall a :: a in before ==> after[a].messageId == before[a].messageId
    requires forall a :: a in before && before[a].messageId == Some(m) ==> after[a] == before[a]
    ensures DecidedFiles(outcome, after, m, conversationId, now)
         == DecidedFiles(outcome, before, m, conversationId, now)
  {
  }

  /** A command's writes do not move what another open row's command has read. */
  lemma WritesApart(desk: Desk, c: Command, other: Command)
    requires Inv(desk) && Decide(desk, c).Ok?
    requires RowOf(c.target) != RowOf(other.target) && Prepare(desk, other.target).Ok?
    ensures Prepare(Decide(desk, c).value.0, other.target) == Prepare(desk, other.target)
    ensures Apply(Decide(desk, c).value.0, other) == Apply(desk, other)
  {
    if c.target.OnCase? && other.target.OnCase? {
      OpenMessagesApart(desk, c, other);
      var n := desk.cases[other.target.id].messageId;
      SameFiles(
        other.target.outcome, desk.attachments, Decide(desk, c).value.0.attachments, n,
        desk.messages[n].conversationId, other.now);
    }
  }

  /** Two open cases are about different Messages, so no lock on the Message is needed. */
  lemma OpenMessagesApart(desk: Desk, c: Command, other: Command)
    requires Inv(desk) && c.target.OnCase? && other.target.OnCase? && c.target.id != other.target.id
    requires Prepare(desk, c.target).Ok? && Prepare(desk, other.target).Ok?
    ensures desk.cases[c.target.id].messageId != desk.cases[other.target.id].messageId
  {
    assert IsOpenCaseOf(desk, c.target.id, desk.cases[c.target.id].messageId);
    assert IsOpenCaseOf(desk, other.target.id, desk.cases[other.target.id].messageId);
  }

  lemma FilingApart(desk: Desk, f: Filing, other: Command)
    requires File(desk, f).Ok? && Prepare(desk, other.target).Ok?
    ensures Prepare(File(desk, f).value, other.target) == Prepare(desk, other.target)
    ensures Apply(File(desk, f).value, other) == Apply(desk, other)
  {
  }

  // ---- Every step keeps the state safe ----

  /** Facts about a transaction that the step did not touch carry over. */
  lemma FactsStay(s: State, after: State, tx: nat)
    requires tx in s.txs && tx in after.txs && after.txs[tx] == s.txs[tx] && TxFacts(s, tx)
    requires
      var key := s.txs[tx].request.KeyOf();
      HoldsKey(s.txs[tx].phase) ==> key in after.keyLocks && after.keyLocks[key] == tx
    requires
      var row := RowOf(s.txs[tx].request.command.target);
      HoldsRow(s.txs[tx].phase) ==> row in after.rowLocks && after.rowLocks[row] == tx
    requires s.desk == after.desk && s.actions == after.actions
    ensures TxFacts(after, tx)
  {
  }

  lemma SameDatabase(initial: Desk, s: State, after: State)
    requires DbSafe(initial, s) && after.desk == s.desk && after.actions == s.actions && after.history == s.history
    ensures DbSafe(initial, after)
  {
    forall i | 0 <= i < |s.history| && s.history[i].Committed?
      ensures RecordedAt(after, i)
    {
      assert RecordedAt(s, i);
    }
  }

  predicate IsQuiet(step: Step) {
    !step.Commit? && !step.FileReport?
  }

  lemma QuietStepKeepsDatabase(s: State, step: Step)
    requires IsQuiet(step) && Next(s, step).Some?
    ensures
      var after := Next(s, step).value;
      after.desk == s.desk && after.actions == s.actions && after.history == s.history
  {
  }

  lemma QuietStepKeepsOthers(s: State, step: Step, tx: nat)
    requires IsQuiet(step) && Next(s, step).Some? && tx in s.txs && tx != step.tx && TxFacts(s, tx)
    ensures tx in Next(s, step).value.txs && TxFacts(Next(s, step).value, tx)
  {
    QuietStepKeepsDatabase(s, step);
    FactsStay(s, Next(s, step).value, tx);
  }

  lemma QuietStepKeepsOwn(s: State, step: Step)
    requires IsQuiet(step) && Next(s, step).Some? && (step.tx in s.txs ==> TxFacts(s, step.tx))
    ensures step.tx in Next(s, step).value.txs && TxFacts(Next(s, step).value, step.tx)
  {
  }

  /** Steps that neither commit nor file leave the database alone and keep everyone's facts. */
  lemma QuietStepKeepsSafe(initial: Desk, s: State, step: Step)
    requires Safe(initial, s) && IsQuiet(step) && Next(s, step).Some?
    ensures Safe(initial, Next(s, step).value)
  {
    QuietStepKeepsDatabase(s, step);
    SameDatabase(initial, s, Next(s, step).value);
    forall tx | tx in Next(s, step).value.txs
      ensures TxFacts(Next(s, step).value, tx)
    {
      if tx == step.tx {
        QuietStepKeepsOwn(s, step);
      } else {
        assert tx in s.txs;
        QuietStepKeepsOthers(s, step, tx);
      }
    }
  }

  /** What a commit writes is what the command does to the committed desk in one step. */
  lemma CommitDecides(s: State, tx: nat)
    requires tx in s.txs && s.txs[tx].phase.Applied? && TxFacts(s, tx)
    ensures
      var c := s.txs[tx].request.command;
      Decide(s.desk, c) == Ok((Write(s.desk, c.target, s.txs[tx].phase.writes), c.expectedVersion + 1))
  {
  }

  lemma CommitKeepsDatabase(initial: Desk, s: State, tx: nat)
    requires DbSafe(initial, s) && Next(s, Commit(tx)).Some? && TxFacts(s, tx)
    ensures DbSafe(initial, Next(s, Commit(tx)).value)
  {
    var after := Next(s, Commit(tx)).value;
    var request := s.txs[tx].request;
    CommitDecides(s, tx);
    DecideKeepsInv(s.desk, request.command);
    HistoryGrows(initial, s.history, Committed(request));
    forall i | 0 <= i < |after.history| && after.history[i].Committed?
      ensures RecordedAt(after, i)
    {
      if i < |s.history| {
        assert RecordedAt(s, i);
      }
    }
  }

  lemma CommitKeepsOthers(initial: Desk, s: State, tx: nat, other: nat)
    requires DbSafe(initial, s) && Next(s, Commit(tx)).Some? && TxFacts(s, tx)
    requires other in s.txs && other != tx && TxFacts(s, other)
    ensures TxFacts(Next(s, Commit(tx)).value, other)
  {
    CommitDecides(s, tx);
    if HoldsRow(s.txs[other].phase) {
      WritesApart(s.desk, s.txs[tx].request.command, s.txs[other].request.command);
    }
  }

  lemma CommitKeepsSafe(initial: Desk, s: State, tx: nat)
    requires Safe(initial, s) && Next(s, Commit(tx)).Some?
    ensures Safe(initial, Next(s, Commit(tx)).value)
  {
    assert TxFacts(s, tx);
    CommitKeepsDatabase(initial, s, tx);
    forall other | other in Next(s, Commit(tx)).value.txs
      ensures TxFacts(Next(s, Commit(tx)).value, other)
    {
      if other != tx {
        CommitKeepsOthers(initial, s, tx, other);
      }
    }
  }

  lemma ReportedIsRecorded(initial: Desk, s: State, f: Filing, desk: Desk)
    requires DbSafe(initial, s) && Inv(desk) && Do(s.desk, Filed(f)) == Ok(desk)
    ensures DbSafe(initial, WithReport(s, f, desk))
  {
    var after := WithReport(s, f, desk);
    HistoryGrows(initial, s.history, Reported(f));
    forall i | 0 <= i < |after.history| && after.history[i].Committed?
      ensures RecordedAt(after, i)
    {
      assert RecordedAt(s, i);
    }
  }

  lemma FileKeepsFacts(s: State, f: Filing, desk: Desk, tx: nat)
    requires File(s.desk, f) == Ok(desk) && tx in s.txs && TxFacts(s, tx)
    ensures TxFacts(WithReport(s, f, desk), tx)
  {
    if HoldsRow(s.txs[tx].phase) {
      FilingApart(s.desk, f, s.txs[tx].request.command);
    }
  }

  lemma FiledKeepsDatabase(initial: Desk, s: State, f: Filing, desk: Desk)
    requires DbSafe(initial, s) && File(s.desk, f) == Ok(desk)
    ensures DbSafe(initial, WithReport(s, f, desk))
  {
    FileKeepsInv(s.desk, f);
    ReportedIsRecorded(initial, s, f, desk);
  }

  lemma FileKeepsSafe(initial: Desk, s: State, f: Filing)
    requires Safe(initial, s)
    ensures Safe(initial, Next(s, FileReport(f)).value)
  {
    if File(s.desk, f).Ok? {
      var desk := File(s.desk, f).value;
      FiledKeepsDatabase(initial, s, f, desk);
      forall tx | tx in s.txs
        ensures TxFacts(WithReport(s, f, desk), tx)
      {
        FileKeepsFacts(s, f, desk, tx);
      }
      assert Next(s, FileReport(f)) == Some(WithReport(s, f, desk));
    }
  }

  lemma StepKeepsSafe(initial: Desk, s: State, step: Step)
    requires Safe(initial, s) && Next(s, step).Some?
    ensures Safe(initial, Next(s, step).value)
  {
    match step
    case Commit(tx) => CommitKeepsSafe(initial, s, tx);
    case FileReport(f) => FileKeepsSafe(initial, s, f);
    case _ => QuietStepKeepsSafe(initial, s, step);
  }

  // ---- The guarantees ----

  /**
   * Serializability: after any interleaving the committed desk is the result of the committed
   * commands and filings, run one at a time in commit order, and it satisfies the desk invariants.
   */
  lemma {:induction false} EveryInterleavingIsSerial(initial: Desk, steps: seq<Step>)
    requires Inv(initial) && Exec(Start(initial), steps).Some?
    ensures
      var s := Exec(Start(initial), steps).value;
      Safe(initial, s) && Run(initial, OpsOf(s.history)) == Ok(s.desk) && Inv(s.desk)
  {
    if steps == [] {
      assert OpsOf([]) == [];
    } else {
      EveryInterleavingIsSerial(initial, steps[..|steps| - 1]);
      StepKeepsSafe(initial, Exec(Start(initial), steps[..|steps| - 1]).value, steps[|steps| - 1]);
    }
  }

  /** A command commits at most once per Admin, action and request key. */
  lemma AppliedAtMostOnce(initial: Desk, steps: seq<Step>, i: nat, j: nat)
    requires Inv(initial) && Exec(Start(initial), steps).Some?
    requires
      var h := Exec(Start(initial), steps).value.history;
      i < |h| && j < |h| && h[i].Committed? && h[j].Committed? && h[i].request.KeyOf() == h[j].request.KeyOf()
    ensures i == j
  {
    EveryInterleavingIsSerial(initial, steps);
    var s := Exec(Start(initial), steps).value;
    assert RecordedAt(s, i) && RecordedAt(s, j);
  }

  lemma StepKeepsActions(initial: Desk, s: State, step: Step, k: Key)
    requires Safe(initial, s) && Next(s, step).Some? && k in s.actions
    ensures k in Next(s, step).value.actions && Next(s, step).value.actions[k] == s.actions[k]
  {
    if IsQuiet(step) {
      QuietStepKeepsDatabase(s, step);
    }
  }

  lemma {:induction false} ActionsAreImmutable(initial: Desk, steps: seq<Step>, n: nat, k: Key)
    requires Inv(initial) && n <= |steps| && Exec(Start(initial), steps).Some?
    ensures Exec(Start(initial), steps[..n]).Some?
    ensures
      var early := Exec(Start(initial), steps[..n]).value;
      var late := Exec(Start(initial), steps).value;
      k in early.actions ==> k in late.actions && late.actions[k] == early.actions[k]
    decreases |steps|
  {
    if n == |steps| {
      assert steps[..n] == steps;
    } else {
      var front := steps[..|steps| - 1];
      assert front[..n] == steps[..n];
      ActionsAreImmutable(initial, front, n, k);
      EveryInterleavingIsSerial(initial, front);
      if k in Exec(Start(initial), front).value.actions {
        StepKeepsActions(initial, Exec(Start(initial), front).value, steps[|steps| - 1], k);
      }
    }
  }

  /**
   * Any two successes under one key, however far apart and whatever happened to the resource in
   * between, return the same stored result, and were the same request.
   */
  lemma RetriesReturnFirstResult(initial: Desk, steps: seq<Step>, n: nat, tx: nat, retry: nat)
    requires Inv(initial) && n <= |steps| && Exec(Start(initial), steps).Some? && Exec(Start(initial), steps[..n]).Some?
    requires
      var early := Exec(Start(initial), steps[..n]).value;
      var late := Exec(Start(initial), steps).value;
      && tx in early.txs && early.txs[tx].phase.Done? && early.txs[tx].phase.result.Ok?
      && retry in late.txs && late.txs[retry].phase.Done? && late.txs[retry].phase.result.Ok?
      && late.txs[retry].request.KeyOf() == early.txs[tx].request.KeyOf()
    ensures
      var early := Exec(Start(initial), steps[..n]).value;
      var late := Exec(Start(initial), steps).value;
      && late.txs[retry].phase.result == early.txs[tx].phase.result
      && late.txs[retry].request.hash == early.txs[tx].request.hash
  {
    var early := Exec(Start(initial), steps[..n]).value;
    var late := Exec(Start(initial), steps).value;
    EveryInterleavingIsSerial(initial, steps[..n]);
    EveryInterleavingIsSerial(initial, steps);
    assert TxFacts(early, tx) && TxFacts(late, retry);
    ActionsAreImmutable(initial, steps, n, early.txs[tx].request.KeyOf());
  }

  /** A key that was used cannot succeed with another request, now or later. */
  lemma {:induction false} ReusedKeyNeverSucceeds(initial: Desk, steps: seq<Step>, n: nat, tx: nat)
    requires Inv(initial) && n <= |steps| && Exec(Start(initial), steps).Some? && Exec(Start(initial), steps[..n]).Some?
    requires tx in Exec(Start(initial), steps).value.txs
    requires
      var early := Exec(Start(initial), steps[..n]).value;
      var request := Exec(Start(initial), steps).value.txs[tx].request;
      request.KeyOf() in early.actions && early.actions[request.KeyOf()].hash != request.hash
    ensures
      var t := Exec(Start(initial), steps).value.txs[tx];
      t.phase.Done? ==> t.phase.result.Err?
  {
    var late := Exec(Start(initial), steps).value;
    EveryInterleavingIsSerial(initial, steps);
    assert TxFacts(late, tx);
    ActionsAreImmutable(initial, steps, n, late.txs[tx].request.KeyOf());
  }

  /** A step that ends a transaction in failure changes nothing that is committed. */
  lemma FailureChangesNothing(s: State, step: Step, tx: nat)
    requires Next(s, step).Some? && tx in s.txs && !s.txs[tx].phase.Done?
    requires
      var t := Next(s, step).value.txs[tx];
      tx in Next(s, step).value.txs && t.phase.Done? && t.phase.result.Err?
    ensures
      var after := Next(s, step).value;
      after.desk == s.desk && after.actions == s.actions && after.history == s.history
  {
    if IsQuiet(step) {
      QuietStepKeepsDatabase(s, step);
    }
  }

  // ---- No lost updates ----

  function VersionOf(desk: Desk, row: RowId): Option<nat> {
    match row
    case CaseRowId(id) => if id in desk.cases then Some(desk.cases[id].version) else None
    case ConductRowId(id) => if id in desk.conduct then Some(desk.conduct[id].version) else None
  }

  lemma OpRaisesVersions(desk: Desk, op: Op, row: RowId)
    requires Do(desk, op).Ok? && VersionOf(desk, row).Some?
    ensures VersionOf(Do(desk, op).value, row).Some?
    ensures VersionOf(Do(desk, op).value, row).value >= VersionOf(desk, row).value
    ensures op.Decided? && RowOf(op.command.target) == row ==>
      && VersionOf(desk, row).value == op.command.expectedVersion
      && VersionOf(Do(desk, op).value, row).value == op.command.expectedVersion + 1
  {
  }

  lemma {:induction false} PrefixRuns(desk: Desk, ops: seq<Op>, n: nat)
    requires n <= |ops| && Run(desk, ops).Ok?
    ensures Run(desk, ops[..n]).Ok?
    decreases |ops|
  {
    if n == |ops| {
      assert ops[..n] == ops;
    } else {
      assert ops[..|ops| - 1][..n] == ops[..n];
      PrefixRuns(desk, ops[..|ops| - 1], n);
    }
  }

  lemma {:induction false} VersionsOnlyRise(desk: Desk, ops: seq<Op>, n: nat, row: RowId)
    requires n <= |ops| && Run(desk, ops).Ok? && Run(desk, ops[..n]).Ok?
    requires VersionOf(Run(desk, ops[..n]).value, row).Some?
    ensures VersionOf(Run(desk, ops).value, row).Some?
    ensures VersionOf(Run(desk, ops).value, row).value >= VersionOf(Run(desk, ops[..n]).value, row).value
    decreases |ops|
  {
    if n == |ops| {
      assert ops[..n] == ops;
    } else {
      assert ops[..|ops| - 1][..n] == ops[..n];
      VersionsOnlyRise(desk, ops[..|ops| - 1], n, row);
      OpRaisesVersions(Run(desk, ops[..|ops| - 1]).value, ops[|ops| - 1], row);
    }
  }

  lemma RunReaches(desk: Desk, ops: seq<Op>, i: nat)
    requires Run(desk, ops).Ok? && i < |ops|
    ensures Run(desk, ops[..i]).Ok? && Run(desk, ops[..i + 1]).Ok?
    ensures Do(Run(desk, ops[..i]).value, ops[i]) == Run(desk, ops[..i + 1])
  {
    PrefixRuns(desk, ops, i);
    PrefixRuns(desk, ops, i + 1);
    assert ops[..i + 1][..i] == ops[..i];
  }

  /** A decision takes a row from the version it expected to the next one. */
  ghost predicate Versioned(before: Desk, op: Op, after: Desk)
    requires op.Decided?
  {
    var row := RowOf(op.command.target);
    && VersionOf(before, row) == Some(op.command.expectedVersion)
    && VersionOf(after, row) == Some(op.command.expectedVersion + 1)
  }

  lemma DecisionVersions(before: Desk, op: Op, after: Desk)
    requires op.Decided? && Do(before, op) == Ok(after)
    ensures Versioned(before, op, after)
  {
  }

  lemma DecidedVersion(desk: Desk, ops: seq<Op>, i: nat) returns (before: Desk, after: Desk)
    requires Run(desk, ops).Ok? && i < |ops| && ops[i].Decided?
    ensures Run(desk, ops[..i]) == Ok(before) && Run(desk, ops[..i + 1]) == Ok(after)
    ensures Versioned(before, ops[i], after)
  {
    RunReaches(desk, ops, i);
    before, after := Run(desk, ops[..i]).value, Run(desk, ops[..i + 1]).value;
    DecisionVersions(before, ops[i], after);
  }

  /**
   * No lost updates: each committed command decided on the very version it expected, and of two
   * on one resource the later one expected a version no older than the earlier one produced. So
   * expected versions are distinct and result versions strictly increase.
   */
  lemma NoLostUpdates(desk: Desk, ops: seq<Op>, i: nat, j: nat)
    requires Run(desk, ops).Ok? && i < j < |ops|
    requires ops[i].Decided? && ops[j].Decided? && RowOf(ops[i].command.target) == RowOf(ops[j].command.target)
    ensures Run(desk, ops[..j]).Ok?
    ensures VersionOf(Run(desk, ops[..j]).value, RowOf(ops[j].command.target)) == Some(ops[j].command.expectedVersion)
    ensures ops[i].command.expectedVersion + 1 <= ops[j].command.expectedVersion
  {
    var before, after := DecidedVersion(desk, ops, i);
    var before', after' := DecidedVersion(desk, ops, j);
    assert ops[..j][..i + 1] == ops[..i + 1];
    VersionsOnlyRise(desk, ops[..j], i + 1, RowOf(ops[i].command.target));
  }
}
