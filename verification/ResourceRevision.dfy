/**
 * The revision checks of Admin commands: what a command expects of its resource, and what its
 * result must show. Versions rule out lost updates; timestamps do so only while they move.
 */
module ResourceRevision {
  import opened Options

  datatype Revision = Revision(version: Option<int>, timestamp: Option<int>)

  /** A command gives exactly one of the two. */
  datatype Expected = ByVersion(version: int) | ByTimestamp(timestamp: int)

  datatype Error = Conflict | InvalidVersion | InvalidResult

  datatype Command = Command(expected: Expected, result: Revision)

  /** The check before the writes: the resource is at the expected revision. */
  function CheckCurrent(expected: Expected, current: Revision): Option<Error> {
    if current.version.Some? && current.version.value < 1 then Some(InvalidVersion)
    else
      match expected
      case ByVersion(v) => if current.version != Some(v) then Some(Conflict) else None
      case ByTimestamp(t) => if current.timestamp != Some(t) then Some(Conflict) else None
  }

  /** The check after them: a newer version, or a timestamp that is not older. */
  function AssertResourceRevision(expected: Expected, result: Revision): Option<Error> {
    if result.version.Some? && result.version.value < 1 then Some(InvalidVersion)
    else
      match expected
      case ByVersion(v) => if result.version.None? || result.version.value <= v then Some(InvalidResult) else None
      case ByTimestamp(t) => if result.timestamp.None? || result.timestamp.value < t then Some(InvalidResult) else None
  }

  /** A command on a resource: its new revision, or the error that leaves it as it was. */
  function Execute(current: Revision, c: Command): Result<Revision, Error> {
    var before := CheckCurrent(c.expected, current);
    var after := AssertResourceRevision(c.expected, c.result);
    if before.Some? then Err(before.value) else if after.Some? then Err(after.value) else Ok(c.result)
  }

  /** A revision that gives a version gives a positive one. */
  predicate IsRevision(r: Revision) {
    r.version.None? || r.version.value >= 1
  }

  /** The resource stands where the command expects it. */
  predicate IsCurrent(current: Revision, expected: Expected) {
    (expected.ByVersion? && current.version == Some(expected.version))
    || (expected.ByTimestamp? && current.timestamp == Some(expected.timestamp))
  }

  /** A greater version, or a timestamp at least as late. */
  predicate IsNext(expected: Expected, result: Revision) {
    (expected.ByVersion? && result.version.Some? && result.version.value > expected.version)
    || (expected.ByTimestamp? && result.timestamp.Some? && result.timestamp.value >= expected.timestamp)
  }

  /**
   * A command succeeds, with its own result, exactly when it found the resource where it expected
   * it and left it further on. Expecting another revision is a conflict, whatever the result.
   */
  lemma ExecutesExactly(current: Revision, c: Command)
    ensures Execute(current, c).Ok? <==>
      IsRevision(current) && IsCurrent(current, c.expected) && IsRevision(c.result) && IsNext(c.expected, c.result)
    ensures Execute(current, c).Ok? ==> Execute(current, c).value == c.result
    ensures Execute(current, c) == Err(Conflict) <==> IsRevision(current) && !IsCurrent(current, c.expected)
    ensures Execute(current, c) == Err(InvalidResult) <==>
      IsRevision(current) && IsCurrent(current, c.expected) && IsRevision(c.result) && !IsNext(c.expected, c.result)
  {
  }

  /** The resource after each command succeeded in turn. */
  function Run(current: Revision, commands: seq<Command>): Option<Revision> {
    if commands == [] then Some(current)
    else
      var before := Run(current, commands[..|commands| - 1]);
      if before.None? then None
      else
        var r := Execute(before.value, commands[|commands| - 1]);
        if r.Ok? then Some(r.value) else None
  }

  predicate AllByVersion(commands: seq<Command>) {
    forall i :: 0 <= i < |commands| ==> commands[i].expected.ByVersion?
  }

  predicate AllByTimestamp(commands: seq<Command>) {
    forall i :: 0 <= i < |commands| ==> commands[i].expected.ByTimestamp?
  }

  lemma {:induction false} PrefixRuns(current: Revision, commands: seq<Command>, n: nat)
    requires n <= |commands| && Run(current, commands).Some?
    ensures Run(current, commands[..n]).Some?
    decreases |commands|
  {
    if n == |commands| {
      assert commands[..n] == commands;
    } else {
      assert commands[..|commands| - 1][..n] == commands[..n];
      PrefixRuns(current, commands[..|commands| - 1], n);
    }
  }

  lemma Executed(current: Revision, commands: seq<Command>, i: nat)
    requires i < |commands| && Run(current, commands).Some?
    ensures Run(current, commands[..i]).Some? && Run(current, commands[..i + 1]) == Some(commands[i].result)
    ensures CheckCurrent(commands[i].expected, Run(current, commands[..i]).value).None?
    ensures AssertResourceRevision(commands[i].expected, commands[i].result).None?
  {
    PrefixRuns(current, commands, i);
    PrefixRuns(current, commands, i + 1);
    assert commands[..i + 1][..i] == commands[..i];
  }

  /** On a versioned resource no two successful commands expect one version: each sees the last one's result. */
  lemma {:induction false} VersionsNeverRepeat(current: Revision, commands: seq<Command>, i: nat, j: nat)
    requires Run(current, commands).Some? && AllByVersion(commands) && i < j < |commands|
    ensures commands[i].expected.version < commands[j].expected.version
    decreases j
  {
    Executed(current, commands, j - 1);
    Executed(current, commands, j);
    if i < j - 1 {
      VersionsNeverRepeat(current, commands, i, j - 1);
    }
  }

  lemma {:induction false} TimestampsNeverFall(current: Revision, commands: seq<Command>, i: nat, j: nat)
    requires Run(current, commands).Some? && AllByTimestamp(commands) && i < j < |commands|
    ensures commands[i].result.timestamp.Some? && commands[i].result.timestamp.value <= commands[j].expected.timestamp
    ensures commands[i].expected.timestamp <= commands[i].result.timestamp.value
    decreases j
  {
    Executed(current, commands, i);
    Executed(current, commands, j - 1);
    Executed(current, commands, j);
    if i < j - 1 {
      TimestampsNeverFall(current, commands, i, j - 1);
    }
  }

  /** A result that leaves the timestamp where it was. */
  predicate Stands(c: Command) {
    c.expected.ByTimestamp? && c.result.timestamp == Some(c.expected.timestamp)
  }

  /**
   * Timestamps are accepted when they merely do not fall. Two successful commands on one resource
   * expect the same timestamp exactly when every command from the first up to the second left it
   * where it was; otherwise the later one expects a newer timestamp.
   */
  lemma TimestampsRepeatExactlyWhenTheyStand(current: Revision, commands: seq<Command>, i: nat, j: nat)
    requires Run(current, commands).Some? && AllByTimestamp(commands) && i < j < |commands|
    ensures commands[i].expected.timestamp <= commands[j].expected.timestamp
    ensures commands[i].expected.timestamp == commands[j].expected.timestamp
            <==> forall k :: i <= k < j ==> Stands(commands[k])
  {
    TimestampsNeverFall(current, commands, i, j);
    if commands[i].expected.timestamp == commands[j].expected.timestamp {
      forall k | i <= k < j
        ensures Stands(commands[k])
      {
        TimestampsNeverFall(current, commands, k, j);
        if i < k {
          TimestampsNeverFall(current, commands, i, k);
        }
      }
    } else if forall k :: i <= k < j ==> Stands(commands[k]) {
      StandingKeeps(current, commands, i, j);
    }
  }

  lemma {:induction false} StandingKeeps(current: Revision, commands: seq<Command>, i: nat, j: nat)
    requires Run(current, commands).Some? && AllByTimestamp(commands) && i < j < |commands|
    requires forall k :: i <= k < j ==> Stands(commands[k])
    ensures commands[i].expected.timestamp == commands[j].expected.timestamp
    decreases j
  {
    Executed(current, commands, j - 1);
    Executed(current, commands, j);
    assert Stands(commands[j - 1]);
    if i < j - 1 {
      StandingKeeps(current, commands, i, j - 1);
    }
  }

  /** Two commands that leave a timestamp where it was can both expect it and both succeed. */
  lemma StandingTimestampServesTwice(timestamp: int)
    ensures
      var stays := Command(ByTimestamp(timestamp), Revision(None, Some(timestamp)));
      Run(Revision(None, Some(timestamp)), [stays, stays]).Some?
  {
    var stays := Command(ByTimestamp(timestamp), Revision(None, Some(timestamp)));
    assert [stays, stays][..1] == [stays] && [stays][..0] == [];
    assert Run(Revision(None, Some(timestamp)), [stays]).Some?;
  }
}
