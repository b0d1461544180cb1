/** What a request key stands for: the protocol of Admin commands with their hashed fields. */
module CommandRetries {
  import opened CodeUnits
  import opened ReportDesk
  import opened ActionProtocol
  import RequestHash

  /** Every transaction's request carries the hash of its own normalized fields. */
  ghost predicate HashesFields(sha: Text -> string, s: State, fields: nat -> RequestHash.Input) {
    forall tx :: tx in s.txs ==>
                   fields(tx).Valid() && s.txs[tx].request.hash == RequestHash.RequestHash(sha, fields(tx))
  }

  predicate Succeeded(s: State, tx: nat) {
    tx in s.txs && s.txs[tx].phase.Done? && s.txs[tx].phase.result.Ok?
  }

  /**
   * One request key, one command: after any interleaving, two transactions that succeeded under
   * one Admin, action and key had equal fields throughout, and got the same stored result.
   */
  lemma {:induction false} OneKeyOneCommand(
    sha: Text -> string, initial: Desk, steps: seq<Step>, fields: nat -> RequestHash.Input, tx: nat, retry: nat)
    requires forall s, t :: sha(s) == sha(t) ==> s == t
    requires Inv(initial) && Exec(Start(initial), steps).Some?
    requires HashesFields(sha, Exec(Start(initial), steps).value, fields)
    requires Succeeded(Exec(Start(initial), steps).value, tx) && Succeeded(Exec(Start(initial), steps).value, retry)
    requires
      var s := Exec(Start(initial), steps).value;
      s.txs[tx].request.KeyOf() == s.txs[retry].request.KeyOf()
    ensures
      var s := Exec(Start(initial), steps).value;
      RequestHash.SameInput(fields(tx), fields(retry)) && s.txs[tx].phase.result == s.txs[retry].phase.result
  {
    assert steps[..|steps|] == steps;
    RetriesReturnFirstResult(initial, steps, |steps|, tx, retry);
    RequestHash.HashTellsCommandsApart(sha, fields(tx), fields(retry));
  }

  /** A transaction whose fields differ from those a key was used with can only fail. */
  lemma {:induction false} DifferentFieldsFail(
    sha: Text -> string, initial: Desk, steps: seq<Step>, fields: nat -> RequestHash.Input, tx: nat, other: nat)
    requires forall s, t :: sha(s) == sha(t) ==> s == t
    requires Inv(initial) && Exec(Start(initial), steps).Some?
    requires HashesFields(sha, Exec(Start(initial), steps).value, fields)
    requires Succeeded(Exec(Start(initial), steps).value, tx) && other in Exec(Start(initial), steps).value.txs
    requires
      var s := Exec(Start(initial), steps).value;
      s.txs[tx].request.KeyOf() == s.txs[other].request.KeyOf()
    requires !RequestHash.SameInput(fields(tx), fields(other))
    ensures !Succeeded(Exec(Start(initial), steps).value, other)
  {
    if Succeeded(Exec(Start(initial), steps).value, other) {
      OneKeyOneCommand(sha, initial, steps, fields, tx, other);
    }
  }
}
