/** How each transaction of a command ends: what a retry gets, who blocks whom, and what succeeds. */
module ActionOutcomes {
  import opened Options
  import opened ReportDesk
  import opened ActionProtocol

  // ---- What keys and rows stand for ----

  predicate SameAction(a: Target, b: Target) {
    match (a, b)
    case (OnCase(_, o), OnCase(_, p)) => o == p
    case (OnConduct(_, v), OnConduct(_, w)) => v.ConductDismissed? == w.ConductDismissed?
    case _ => false
  }

  /** One Admin, one kind of action, one request key. */
  predicate SameKey(a: Request, b: Request) {
    && a.command.adminId == b.command.adminId && a.requestKey == b.requestKey
    && SameAction(a.command.target, b.command.target)
  }

  predicate SameRow(a: Target, b: Target) {
    a.OnCase? == b.OnCase? && a.id == b.id
  }

  lemma NamesApart(a: Target, b: Target)
    ensures ActionName(a) == ActionName(b) <==> SameAction(a, b)
  {
    assert |"REPORT_CASE_DISMISS"| == 19 && |"REPORT_CASE_HIDE"| == 16 && |"REPORT_CASE_RESTORE"| == 19;
    assert |"CONDUCT_REPORT_DISMISS"| == 22 && |"CONDUCT_REPORT_UPHOLD"| == 21;
    assert "REPORT_CASE_DISMISS"[12] == 'D' && "REPORT_CASE_RESTORE"[12] == 'R';
  }

  /** Two requests share a key exactly when Admin, kind of action and request key agree. */
  lemma {:induction false} KeysTellRequestsApart(a: Request, b: Request)
    ensures a.KeyOf() == b.KeyOf() <==> SameKey(a, b)
    ensures RowOf(a.command.target) == RowOf(b.command.target) <==> SameRow(a.command.target, b.command.target)
  {
    NamesApart(a.command.target, b.command.target);
  }

  // ---- Locks ----

  /** Every key lock belongs to a transaction at work under that key. */
  ghost predicate KeyLocksOwned(s: State) {
    forall key :: key in s.keyLocks ==>
      s.keyLocks[key] in s.txs && HoldsKey(s.txs[s.keyLocks[key]].phase)
      && s.txs[s.keyLocks[key]].request.KeyOf() == key
  }

  /** Every row lock belongs to a transaction that has read the row and not yet ended. */
  ghost predicate RowLocksOwned(s: State) {
    forall row :: row in s.rowLocks ==>
      s.rowLocks[row] in s.txs && HoldsRow(s.txs[s.rowLocks[row]].phase)
      && RowOf(s.txs[s.rowLocks[row]].request.command.target) == row
  }

  /** What a step does to its transaction. */
  lemma {:induction false} StepMoves(s: State, step: Step)
    requires !step.FileReport? && Next(s, step).Some?
    ensures step.tx in Next(s, step).value.txs
    ensures
      var t := Next(s, step).value.txs[step.tx];
      && Next(s, step).value.txs == s.txs[step.tx := t]
      && (step.Begin? ==> t.phase.Waiting? && step.tx !in s.txs)
      && (!step.Begin? ==> step.tx in s.txs && t.request == s.txs[step.tx].request)
      && (step.LockKey? ==> HoldsKey(t.phase))
      && (!step.Begin? && !t.phase.Done? && HoldsKey(s.txs[step.tx].phase) ==> HoldsKey(t.phase))
      && (!step.Begin? && !t.phase.Done? && HoldsRow(s.txs[step.tx].phase) ==> HoldsRow(t.phase))
  {
  }

  /** What a step does to the key locks: an end frees its transaction's, and one step takes one. */
  lemma StepKeyLocks(s: State, step: Step)
    requires !step.FileReport? && Next(s, step).Some? && step.tx in Next(s, step).value.txs
    ensures
      var t := Next(s, step).value.txs[step.tx];
      Next(s, step).value.keyLocks ==
        if t.phase.Done? then Release(s.keyLocks, step.tx)
        else if step.LockKey? then s.keyLocks[t.request.KeyOf() := step.tx] else s.keyLocks
  {
  }

  lemma StepRowLocks(s: State, step: Step)
    requires !step.FileReport? && Next(s, step).Some? && step.tx in Next(s, step).value.txs
    ensures
      var t := Next(s, step).value.txs[step.tx];
      && (step.LockRow? && !t.phase.Done? ==> HoldsRow(t.phase))
      && Next(s, step).value.rowLocks == (
           if t.phase.Done? then Release(s.rowLocks, step.tx)
           else if step.LockRow? then s.rowLocks[RowOf(t.request.command.target) := step.tx] else s.rowLocks)
  {
  }

  lemma StepKeepsLocks(s: State, step: Step)
    requires KeyLocksOwned(s) && RowLocksOwned(s) && Next(s, step).Some?
    ensures KeyLocksOwned(Next(s, step).value) && RowLocksOwned(Next(s, step).value)
  {
    if !step.FileReport? {
      StepMoves(s, step);
      StepKeyLocks(s, step);
      StepRowLocks(s, step);
    }
  }

  /** What every reachable state satisfies. */
  ghost predicate Sound(initial: Desk, s: State) {
    Safe(initial, s) && KeyLocksOwned(s) && RowLocksOwned(s)
  }

  ghost predicate Reachable(initial: Desk, s: State) {
    Inv(initial) && exists steps :: Exec(Start(initial), steps) == Some(s)
  }

  lemma {:induction false} RunIsSound(initial: Desk, steps: seq<Step>)
    requires Inv(initial) && Exec(Start(initial), steps).Some?
    ensures Sound(initial, Exec(Start(initial), steps).value)
  {
    EveryInterleavingIsSerial(initial, steps);
    if steps != [] {
      RunIsSound(initial, steps[..|steps| - 1]);
      StepKeepsLocks(Exec(Start(initial), steps[..|steps| - 1]).value, steps[|steps| - 1]);
    }
  }

  lemma ReachableIsSound(initial: Desk, s: State)
    requires Reachable(initial, s)
    ensures Sound(initial, s)
  {
    var steps :| Exec(Start(initial), steps) == Some(s);
    RunIsSound(initial, steps);
  }

  /** The start is reachable, and whatever a step makes of a reachable state. */
  lemma StepsReach(initial: Desk, s: State, step: Step)
    requires Inv(initial)
    ensures Reachable(initial, Start(initial))
    ensures Reachable(initial, s) && Next(s, step).Some? ==> Reachable(initial, Next(s, step).value)
  {
    assert Exec(Start(initial), []) == Some(Start(initial));
    if Reachable(initial, s) && Next(s, step).Some? {
      var steps :| Exec(Start(initial), steps) == Some(s);
      assert (steps + [step])[..|steps|] == steps;
      assert Exec(Start(initial), steps + [step]) == Next(s, step);
    }
  }

  lemma StepKeepsSound(initial: Desk, s: State, step: Step)
    requires Sound(initial, s) && Next(s, step).Some?
    ensures Sound(initial, Next(s, step).value)
  {
    StepKeepsSafe(initial, s, step);
    StepKeepsLocks(s, step);
  }

  /** A transaction under way that has taken the key of this request. */
  ghost predicate KeyTaken(s: State, r: Request) {
    exists tx :: tx in s.txs && HoldsKey(s.txs[tx].phase) && SameKey(s.txs[tx].request, r)
  }

  /** A transaction under way that has locked the row of this target. */
  ghost predicate RowTaken(s: State, t: Target) {
    exists tx :: tx in s.txs && HoldsRow(s.txs[tx].phase) && SameRow(s.txs[tx].request.command.target, t)
  }

  /** A key or a row is locked exactly while a transaction under way has taken it. */
  lemma LockedExactlyWhileTaken(initial: Desk, s: State, r: Request)
    requires Sound(initial, s)
    ensures r.KeyOf() in s.keyLocks <==> KeyTaken(s, r)
    ensures RowOf(r.command.target) in s.rowLocks <==> RowTaken(s, r.command.target)
  {
    forall tx | tx in s.txs
      ensures TxFacts(s, tx)
      ensures s.txs[tx].request.KeyOf() == r.KeyOf() <==> SameKey(s.txs[tx].request, r)
      ensures RowOf(s.txs[tx].request.command.target) == RowOf(r.command.target)
              <==> SameRow(s.txs[tx].request.command.target, r.command.target)
    {
      KeysTellRequestsApart(s.txs[tx].request, r);
    }
  }

  /**
   * A waiting transaction gets its key exactly when no other one under way has taken it, and its
   * row exactly when no other one has; neither ever waits for anything else.
   */
  lemma BlockedExactlyByHolders(initial: Desk, s: State, tx: nat)
    requires Reachable(initial, s) && tx in s.txs
    ensures Next(s, LockKey(tx)).Some? <==> s.txs[tx].phase.Waiting? && !KeyTaken(s, s.txs[tx].request)
    ensures Next(s, LockRow(tx)).Some?
            <==> s.txs[tx].phase.Unseen? && !RowTaken(s, s.txs[tx].request.command.target)
  {
    ReachableIsSound(initial, s);
    LockedExactlyWhileTaken(initial, s, s.txs[tx].request);
  }

  // ---- The replay lookup ----

  /** The i-th commit was made under this request's key. */
  predicate CommittedUnder(s: State, i: nat, r: Request) {
    i < |s.history| && s.history[i].Committed? && SameKey(s.history[i].request, r)
  }

  lemma KeyUsedExactly(initial: Desk, s: State, r: Request)
    requires DbSafe(initial, s)
    ensures r.KeyOf() in s.actions <==> exists i: nat :: CommittedUnder(s, i, r)
    ensures forall i: nat :: CommittedUnder(s, i, r) ==>
              s.actions[r.KeyOf()]
              == Stored(s.history[i].request.hash, s.history[i].request.command.expectedVersion + 1, i)
  {
    forall i | 0 <= i < |s.history| && s.history[i].Committed?
      ensures RecordedAt(s, i)
      ensures s.history[i].request.KeyOf() == r.KeyOf() <==> SameKey(s.history[i].request, r)
    {
      KeysTellRequestsApart(s.history[i].request, r);
    }
    if r.KeyOf() in s.actions {
      var i := s.actions[r.KeyOf()].actionId;
      assert s.history[i].request.KeyOf() == r.KeyOf();
      assert CommittedUnder(s, i, r);
    }
  }

  lemma LookUpByKey(s: State, tx: nat, enabled: bool) returns (after: State)
    requires tx in s.txs && s.txs[tx].phase.Keyed?
    ensures Next(s, LookUp(tx, enabled)) == Some(after)
    ensures after.desk == s.desk && after.actions == s.actions && after.history == s.history
    ensures after.txs.Keys == s.txs.Keys && after.txs[tx].request == s.txs[tx].request
    ensures
      var r := s.txs[tx].request;
      after.txs[tx].phase ==
        if !enabled then Done(Err(AdminNotFound))
        else if r.KeyOf() !in s.actions then Unseen
        else if s.actions[r.KeyOf()].hash == r.hash then Done(Ok(s.actions[r.KeyOf()]))
        else Done(Err(KeyReused))
  {
    after := Next(s, LookUp(tx, enabled)).value;
  }

  /**
   * What a lookup finds: a disabled Admin is turned away; a key used by the same request gets that
   * commit's own result, however long ago it was; a key used by another request is an error; and
   * only an unused key goes on.
   */
  lemma LookUpFinds(initial: Desk, s: State, tx: nat, enabled: bool) returns (after: State)
    requires Safe(initial, s) && tx in s.txs && s.txs[tx].phase.Keyed?
    ensures Next(s, LookUp(tx, enabled)) == Some(after)
    ensures after.desk == s.desk && after.actions == s.actions && after.history == s.history
    ensures after.txs.Keys == s.txs.Keys && after.txs[tx].request == s.txs[tx].request
    ensures
      var r := s.txs[tx].request;
      && (!enabled ==> after.txs[tx].phase == Done(Err(AdminNotFound)))
      && (enabled && (forall i: nat :: !CommittedUnder(s, i, r)) ==> after.txs[tx].phase == Unseen)
      && (forall i: nat :: enabled && CommittedUnder(s, i, r) ==>
            after.txs[tx].phase ==
            if s.history[i].request.hash == r.hash
            then Done(Ok(Stored(r.hash, s.history[i].request.command.expectedVersion + 1, i)))
            else Done(Err(KeyReused)))
  {
    KeyUsedExactly(initial, s, s.txs[tx].request);
    after := LookUpByKey(s, tx, enabled);
  }

  // ---- Answers ----

  /** A request whose key is free gets the key and stands before its lookup. */
  lemma OpensWhenFree(initial: Desk, s: State, tx: nat, r: Request) returns (begun: State, ready: State)
    requires Sound(initial, s) && tx !in s.txs && !KeyTaken(s, r)
    ensures Next(s, Begin(tx, r)) == Some(begun) && Next(begun, LockKey(tx)) == Some(ready)
    ensures tx in ready.txs && ready.txs[tx] == Tx(r, Keyed)
    ensures ready.desk == s.desk && ready.actions == s.actions && ready.history == s.history
    ensures ready.rowLocks == s.rowLocks
  {
    begun := s.(txs := s.txs[tx := Tx(r, Waiting)]);
    LockedExactlyWhileTaken(initial, s, r);
    ready := Next(begun, LockKey(tx)).value;
  }

  lemma StoredResult(initial: Desk, s: State, i: nat, r: Request)
    requires Sound(initial, s) && CommittedUnder(s, i, r)
    ensures r.KeyOf() in s.actions
    ensures s.actions[r.KeyOf()]
         == Stored(s.history[i].request.hash, s.history[i].request.command.expectedVersion + 1, i)
  {
    KeyUsedExactly(initial, s, r);
  }

  lemma RetryFinds(initial: Desk, s: State, i: nat, tx: nat, r: Request)
    returns (begun: State, ready: State, after: State)
    requires Sound(initial, s) && tx !in s.txs && !KeyTaken(s, r)
    requires CommittedUnder(s, i, r) && s.history[i].request.hash == r.hash
    ensures Next(s, Begin(tx, r)) == Some(begun) && Next(begun, LockKey(tx)) == Some(ready)
    ensures Next(ready, LookUp(tx, true)) == Some(after)
    ensures tx in after.txs && after.txs[tx].phase
         == Done(Ok(Stored(r.hash, s.history[i].request.command.expectedVersion + 1, i)))
    ensures after.desk == s.desk && after.actions == s.actions && after.history == s.history
  {
    begun, ready := OpensWhenFree(initial, s, tx, r);
    StoredResult(initial, s, i, r);
    after := LookUpByKey(ready, tx, true);
  }

  /**
   * A retry is answered: whenever no other transaction holds its key, a request that was committed
   * before gets the result of that commit again, and changes nothing.
   */
  lemma RetryIsAnswered(initial: Desk, s: State, i: nat, tx: nat, r: Request)
    returns (begun: State, ready: State, after: State)
    requires Reachable(initial, s) && tx !in s.txs && !KeyTaken(s, r)
    requires CommittedUnder(s, i, r) && s.history[i].request.hash == r.hash
    ensures Next(s, Begin(tx, r)) == Some(begun) && Next(begun, LockKey(tx)) == Some(ready)
    ensures Next(ready, LookUp(tx, true)) == Some(after)
    ensures tx in after.txs && after.txs[tx].phase
         == Done(Ok(Stored(r.hash, s.history[i].request.command.expectedVersion + 1, i)))
    ensures after.desk == s.desk && after.actions == s.actions && after.history == s.history
  {
    ReachableIsSound(initial, s);
    begun, ready, after := RetryFinds(initial, s, i, tx, r);
  }

  /** A transaction can be cancelled exactly until it ends; that ends it and changes nothing else. */
  lemma CancelsCleanly(s: State, tx: nat) returns (after: State)
    requires tx in s.txs
    ensures Next(s, Abort(tx)).Some? <==> !s.txs[tx].phase.Done?
    ensures !s.txs[tx].phase.Done? ==> Next(s, Abort(tx)) == Some(after)
    ensures after.desk == s.desk && after.actions == s.actions && after.history == s.history
    ensures !s.txs[tx].phase.Done? ==> after.txs == s.txs[tx := s.txs[tx].(phase := Done(Err(Cancelled)))]
  {
    after := if s.txs[tx].phase.Done? then s else Next(s, Abort(tx)).value;
  }

  // ---- A request on its own ----

  /** The next step of a transaction that goes on. */
  function NextStep(tx: nat, phase: Phase): Step
    requires !phase.Done?
  {
    match phase
    case Waiting => LockKey(tx)
    case Keyed => LookUp(tx, true)
    case Unseen => LockRow(tx)
    case Prepared(_) => CheckAndApply(tx)
    case Applied(_) => Commit(tx)
  }

  /** One step of an undisturbed transaction; after its end it takes none. */
  ghost predicate GoesOn(s: State, tx: nat, after: State) {
    && tx in s.txs && tx in after.txs
    && if s.txs[tx].phase.Done? then after == s else Next(s, NextStep(tx, s.txs[tx].phase)) == Some(after)
  }

  /** The transaction has ended as the decision on this desk does. */
  ghost predicate EndsAsDecided(before: State, tx: nat, r: Request, after: State) {
    && tx in after.txs
    && match Decide(before.desk, r.command)
       case Ok((desk, version)) =>
         && after.txs[tx].phase == Done(Ok(Stored(r.hash, version, |before.history|)))
         && after.desk == desk && after.history == before.history + [Committed(r)]
         && after.actions == before.actions[r.KeyOf() := Stored(r.hash, version, |before.history|)]
       case Err(e) =>
         && after.txs[tx].phase == Done(Err(Refused(e)))
         && after.desk == before.desk && after.actions == before.actions && after.history == before.history
  }

  lemma RowLocked(s: State, tx: nat) returns (locked: State)
    requires tx in s.txs && s.txs[tx].phase.Unseen? && RowOf(s.txs[tx].request.command.target) !in s.rowLocks
    ensures GoesOn(s, tx, locked) && locked.txs[tx].request == s.txs[tx].request
    ensures locked.desk == s.desk && locked.actions == s.actions && locked.history == s.history
    ensures locked.txs[tx].phase ==
      match Prepare(s.desk, s.txs[tx].request.command.target)
      case Ok(version) => Prepared(version)
      case Err(e) => Done(Err(Refused(e)))
  {
    locked := Next(s, LockRow(tx)).value;
  }

  lemma VersionChecked(s: State, tx: nat) returns (checked: State)
    requires tx in s.txs && s.txs[tx].phase.Prepared?
    requires Prepare(s.desk, s.txs[tx].request.command.target) == Ok(s.txs[tx].phase.version)
    ensures GoesOn(s, tx, checked) && checked.txs[tx].request == s.txs[tx].request
    ensures checked.desk == s.desk && checked.actions == s.actions && checked.history == s.history
    ensures checked.txs[tx].phase ==
      if s.txs[tx].phase.version != s.txs[tx].request.command.expectedVersion then Done(Err(Refused(Conflict)))
      else
        match Apply(s.desk, s.txs[tx].request.command)
        case Ok(writes) => Applied(writes)
        case Err(e) => Done(Err(Refused(e)))
  {
    checked := Next(s, CheckAndApply(tx)).value;
  }

  lemma Written(s: State, tx: nat) returns (after: State)
    requires tx in s.txs && s.txs[tx].phase.Applied? && s.txs[tx].request.KeyOf() !in s.actions
    ensures GoesOn(s, tx, after)
    ensures
      var r := s.txs[tx].request;
      && after.txs[tx].phase == Done(Ok(Stored(r.hash, r.command.expectedVersion + 1, |s.history|)))
      && after.desk == Write(s.desk, r.command.target, s.txs[tx].phase.writes)
      && after.history == s.history + [Committed(r)]
      && after.actions
         == s.actions[r.KeyOf() := Stored(r.hash, r.command.expectedVersion + 1, |s.history|)]
  {
    after := Next(s, Commit(tx)).value;
  }

  lemma UnseenIsDecided(s: State, tx: nat) returns (locked: State, checked: State, after: State)
    requires tx in s.txs && s.txs[tx].phase.Unseen? && s.txs[tx].request.KeyOf() !in s.actions
    requires RowOf(s.txs[tx].request.command.target) !in s.rowLocks
    ensures GoesOn(s, tx, locked) && GoesOn(locked, tx, checked) && GoesOn(checked, tx, after)
    ensures EndsAsDecided(s, tx, s.txs[tx].request, after)
  {
    locked := RowLocked(s, tx);
    checked := locked;
    if locked.txs[tx].phase.Prepared? {
      checked := VersionChecked(locked, tx);
    }
    after := checked;
    if checked.txs[tx].phase.Applied? {
      after := Written(checked, tx);
    }
  }

  lemma UnusedKey(initial: Desk, s: State, r: Request)
    requires Sound(initial, s) && forall i: nat :: !CommittedUnder(s, i, r)
    ensures r.KeyOf() !in s.actions
  {
    KeyUsedExactly(initial, s, r);
  }

  lemma NewRequestIsDecided(initial: Desk, s: State, tx: nat, r: Request)
    returns (begun: State, ready: State, seen: State, locked: State, checked: State, after: State)
    requires Sound(initial, s) && tx !in s.txs && !KeyTaken(s, r) && !RowTaken(s, r.command.target)
    requires forall i: nat :: !CommittedUnder(s, i, r)
    ensures Next(s, Begin(tx, r)) == Some(begun) && GoesOn(begun, tx, ready) && GoesOn(ready, tx, seen)
    ensures GoesOn(seen, tx, locked) && GoesOn(locked, tx, checked) && GoesOn(checked, tx, after)
    ensures EndsAsDecided(s, tx, r, after)
  {
    LockedExactlyWhileTaken(initial, s, r);
    UnusedKey(initial, s, r);
    begun, ready := OpensWhenFree(initial, s, tx, r);
    seen := Looked(s, begun, ready, tx, r);
    locked, checked, after := UnseenIsDecided(seen, tx);
  }

  lemma Looked(s: State, begun: State, ready: State, tx: nat, r: Request) returns (seen: State)
    requires Next(s, Begin(tx, r)) == Some(begun) && Next(begun, LockKey(tx)) == Some(ready)
    requires tx in ready.txs && ready.txs[tx] == Tx(r, Keyed) && r.KeyOf() !in ready.actions
    ensures GoesOn(begun, tx, ready) && GoesOn(ready, tx, seen) && seen.txs[tx] == Tx(r, Unseen)
    ensures seen.desk == ready.desk && seen.actions == ready.actions && seen.history == ready.history
    ensures seen.rowLocks == ready.rowLocks
  {
    seen := Next(ready, LookUp(tx, true)).value;
  }

  /**
   * A new request is answered: an enabled Admin's command under an unused key, which no other
   * transaction disturbs, ends after its five steps exactly as the decision on the desk does. It
   * commits the decided desk and its own entry of the history, or fails with the decision's error
   * and changes nothing.
   */
  lemma NewRequestIsAnswered(initial: Desk, s: State, tx: nat, r: Request)
    returns (begun: State, ready: State, seen: State, locked: State, checked: State, after: State)
    requires Reachable(initial, s) && tx !in s.txs && !KeyTaken(s, r) && !RowTaken(s, r.command.target)
    requires forall i: nat :: !CommittedUnder(s, i, r)
    ensures Next(s, Begin(tx, r)) == Some(begun) && GoesOn(begun, tx, ready) && GoesOn(ready, tx, seen)
    ensures GoesOn(seen, tx, locked) && GoesOn(locked, tx, checked) && GoesOn(checked, tx, after)
    ensures EndsAsDecided(s, tx, r, after)
  {
    ReachableIsSound(initial, s);
    begun, ready, seen, locked, checked, after := NewRequestIsDecided(initial, s, tx, r);
  }
}
