/**
 * `RuntimeCmd::run` of the `check runtime` command: spawn a local node, check the
 * requested properties against a live chain one after another, and kill the node
 * on every path on which `run` returns once it has been spawned.
 *
 * Spawning, the two checks and killing are calls this model cannot see; their
 * outcomes are an `Environment` value. The run returns its result, the sequence of
 * calls it made (`Event`s) and the lines it printed.
 */
module RuntimeCheck {
  import opened Wrappers
  import Decimal

  /** `Property`: what a run compares. */
  datatype Property = Storage | Version

  /** The command's arguments. */
  datatype RuntimeCmd = RuntimeCmd(executable: string, chain: string, live: string, properties: seq<Property>)

  /** The port the local node is spawned on. */
  const NodePort: nat := 23333

  /** The RPC endpoint of the local node that every check is given. */
  const LocalEndpoint: string := "http://127.0.0.1:23333"

  /**
   * A successful storage check: the pallet-level diff lines, and per pallet prefix its
   * entry diff lines, in the order the check yields them (each line as its `Display`
   * writes it).
   */
  datatype StorageDiffs = StorageDiffs(palletsDiff: seq<string>, entriesDiffs: seq<(string, seq<string>)>)

  /**
   * What the outside world answers: whether spawning succeeds, the answer of the check
   * of the property at each position of the list, and whether killing succeeds.
   */
  datatype Environment = Environment(
    spawn: Outcome<string>,
    checkStorage: nat -> Result<StorageDiffs, string>,
    checkVersion: nat -> Result<Option<string>, string>,
    kill: Outcome<string>)

  /** A call the run makes to the outside world. */
  datatype Event =
    | Spawn(executable: string, port: nat, chain: string)
    | CheckStorage(local: string, live: string)
    | CheckVersion(local: string, live: string)
    | Kill

  /** The local endpoint names the port the node is spawned on. */
  lemma LocalEndpointUsesNodePort()
    ensures LocalEndpoint == "http://127.0.0.1:" + Decimal.Text(NodePort)
  {
  }

  // ---------------------------------------------------------------- printing

  /** Lines printed for the pallet-level diff: each line and a blank one, or nothing at all. */
  function PalletLines(palletsDiff: seq<string>): (lines: seq<string>) {
    if palletsDiff == [] then [] else palletsDiff + [""]
  }

  /** Lines printed for one pallet's entries: a `Pallet:` header, the entries, a blank line. */
  function EntryLines(entry: (string, seq<string>)): (lines: seq<string>) {
    ["Pallet: " + entry.0] + entry.1 + [""]
  }

  function EntriesLines(entries: seq<(string, seq<string>)>): (lines: seq<string>) {
    if entries == [] then []
    else EntriesLines(entries[..|entries| - 1]) + EntryLines(entries[|entries| - 1])
  }

  /** Everything printed for a successful storage check. */
  function StorageLines(diffs: StorageDiffs): (lines: seq<string>) {
    PalletLines(diffs.palletsDiff) + EntriesLines(diffs.entriesDiffs)
  }

  /** The printing of a successful storage check, loop by loop. */
  method PrintStorageDiffs(diffs: StorageDiffs) returns (lines: seq<string>)
    ensures lines == StorageLines(diffs)
  {
    lines := [];
    if diffs.palletsDiff != [] {
      for i := 0 to |diffs.palletsDiff|
        invariant lines == diffs.palletsDiff[..i]
      {
        lines := lines + [diffs.palletsDiff[i]];
      }
      lines := lines + [""];
    }
    assert lines == PalletLines(diffs.palletsDiff);
    for j := 0 to |diffs.entriesDiffs|
      invariant lines == PalletLines(diffs.palletsDiff) + EntriesLines(diffs.entriesDiffs[..j])
    {
      var entry := PrintEntryDiffs(diffs.entriesDiffs[j]);
      lines := lines + entry;
      assert diffs.entriesDiffs[..j + 1][..j] == diffs.entriesDiffs[..j];
    }
    assert diffs.entriesDiffs[..|diffs.entriesDiffs|] == diffs.entriesDiffs;
  }

  /** The printing of one pallet's entry diffs. */
  method PrintEntryDiffs(entry: (string, seq<string>)) returns (lines: seq<string>)
    ensures lines == EntryLines(entry)
  {
    var (prefix, entryDiffs) := entry;
    lines := ["Pallet: " + prefix];
    for k := 0 to |entryDiffs|
      invariant lines == ["Pallet: " + prefix] + entryDiffs[..k]
    {
      lines := lines + [entryDiffs[k]];
    }
    assert entryDiffs[..|entryDiffs|] == entryDiffs;
    lines := lines + [""];
  }

  /** The entry sections take two lines per pallet besides its entries. */
  lemma {:induction false} EntriesLinesLength(entries: seq<(string, seq<string>)>)
    ensures |EntriesLines(entries)| >= 2 * |entries|
    decreases |entries|
  {
    if entries != [] {
      EntriesLinesLength(entries[..|entries| - 1]);
    }
  }

  /**
   * A storage check prints nothing exactly when it found no difference; otherwise the
   * pallet-level diff comes first, followed by its blank line, only when there is one.
   */
  lemma StorageLinesSilentIffNoDiff(diffs: StorageDiffs)
    ensures StorageLines(diffs) == [] <==> diffs.palletsDiff == [] && diffs.entriesDiffs == []
    ensures diffs.palletsDiff != [] ==>
              StorageLines(diffs)[..|diffs.palletsDiff| + 1] == diffs.palletsDiff + [""]
  {
    EntriesLinesLength(diffs.entriesDiffs);
  }

  // ---------------------------------------------------------------- the run, as a specification

  /** Whether the check of the property at position `i` succeeds. */
  predicate Succeeds(env: Environment, props: seq<Property>, i: nat)
    requires i < |props|
  {
    match props[i]
    case Storage => env.checkStorage(i).Success?
    case Version => env.checkVersion(i).Success?
  }

  /** The error of a failing check. */
  function CheckError(env: Environment, props: seq<Property>, i: nat): (error: string)
    requires i < |props| && !Succeeds(env, props, i)
  {
    match props[i]
    case Storage => env.checkStorage(i).error
    case Version => env.checkVersion(i).error
  }

  /** The position of the first failing check from `from` on, or `|props|` when none fails. */
  function FirstFailure(env: Environment, props: seq<Property>, from: nat): (k: nat)
    requires from <= |props|
    ensures from <= k <= |props|
    ensures forall i :: from <= i < k ==> Succeeds(env, props, i)
    ensures k < |props| ==> !Succeeds(env, props, k)
    decreases |props| - from
  {
    if from == |props| || !Succeeds(env, props, from) then from
    else FirstFailure(env, props, from + 1)
  }

  /** A position whose predecessors all succeed and which fails (or is the end) is the first failure. */
  lemma {:induction false} FirstFailureIs(env: Environment, props: seq<Property>, from: nat, k: nat)
    requires from <= k <= |props|
    requires forall i :: from <= i < k ==> Succeeds(env, props, i)
    requires k < |props| ==> !Succeeds(env, props, k)
    ensures FirstFailure(env, props, from) == k
    decreases k - from
  {
    if from < k {
      FirstFailureIs(env, props, from + 1, k);
    }
  }

  /** The number of properties whose check is attempted: up to and including the first failure. */
  function Attempted(env: Environment, props: seq<Property>): (n: nat) {
    var k := FirstFailure(env, props, 0);
    if k < |props| then k + 1 else k
  }

  /** The lines a successful check prints: the storage report, or the version diff when there is one. */
  function Printed(env: Environment, props: seq<Property>, i: nat): (lines: seq<string>)
    requires i < |props| && Succeeds(env, props, i)
  {
    match props[i]
    case Storage => StorageLines(env.checkStorage(i).value)
    case Version =>
      match env.checkVersion(i).value
      case Some(diff) => [diff]
      case None => []
  }

  /** Everything the first `k` checks print, in order. */
  function PrintedBefore(env: Environment, props: seq<Property>, k: nat): (lines: seq<string>)
    requires k <= |props| && forall i :: 0 <= i < k ==> Succeeds(env, props, i)
  {
    if k == 0 then [] else PrintedBefore(env, props, k - 1) + Printed(env, props, k - 1)
  }

  function CheckEvent(live: string, p: Property): (event: Event) {
    match p
    case Storage => CheckStorage(LocalEndpoint, live)
    case Version => CheckVersion(LocalEndpoint, live)
  }

  function CheckEvents(live: string, props: seq<Property>): (events: seq<Event>)
    ensures |events| == |props|
  {
    seq(|props|, i requires 0 <= i < |props| => CheckEvent(live, props[i]))
  }

  /** The calls a run makes. */
  function RunTrace(cmd: RuntimeCmd, env: Environment): (trace: seq<Event>) {
    var spawn := Spawn(cmd.executable, NodePort, cmd.chain);
    if env.spawn.Fail? then [spawn]
    else [spawn] + CheckEvents(cmd.live, cmd.properties[..Attempted(env, cmd.properties)]) + [Kill]
  }

  /** The lines a run prints. */
  function RunOutput(cmd: RuntimeCmd, env: Environment): (output: seq<string>) {
    if env.spawn.Fail? then []
    else PrintedBefore(env, cmd.properties, FirstFailure(env, cmd.properties, 0))
  }

  /** What a run returns. */
  function RunResult(cmd: RuntimeCmd, env: Environment): (result: Outcome<string>) {
    var k := FirstFailure(env, cmd.properties, 0);
    if env.spawn.Fail? then Fail(env.spawn.error)
    else if env.kill.Fail? then Fail(env.kill.error)
    else if k < |cmd.properties| then Fail(CheckError(env, cmd.properties, k))
    else Pass
  }

  // ---------------------------------------------------------------- the run

  /**
   * One turn of the loop of `RuntimeCmd::run`: the check of the property at position `i`,
   * and what it prints when it succeeds or its error when it fails.
   */
  method CheckProperty(env: Environment, props: seq<Property>, i: nat, local: string, live: string)
    returns (event: Event, outcome: Result<seq<string>, string>)
    requires i < |props| && local == LocalEndpoint
    ensures event == CheckEvent(live, props[i])
    ensures outcome.Success? <==> Succeeds(env, props, i)
    ensures outcome.Success? ==> outcome.value == Printed(env, props, i)
    ensures outcome.Failure? ==> outcome.error == CheckError(env, props, i)
  {
    match props[i] {
      case Storage =>
        event := CheckStorage(local, live);
        match env.checkStorage(i) {
          case Success(diffs) =>
            var lines := PrintStorageDiffs(diffs);
            outcome := Success(lines);
          case Failure(e) =>
            outcome := Failure(e);
        }
      case Version =>
        event := CheckVersion(local, live);
        match env.checkVersion(i) {
          case Success(Some(diff)) =>
            outcome := Success([diff]);
          case Success(None) =>
            outcome := Success([]);
          case Failure(e) =>
            outcome := Failure(e);
        }
    }
  }

  /** The events after one more check are the events before it and that check. */
  lemma EventsStep(live: string, props: seq<Property>, i: nat)
    requires i < |props|
    ensures CheckEvents(live, props[..i + 1]) == CheckEvents(live, props[..i]) + [CheckEvent(live, props[i])]
  {
  }

  /** The output after one more successful check is the output before it and what that check printed. */
  lemma OutputStep(env: Environment, props: seq<Property>, i: nat)
    requires i < |props| && forall j :: 0 <= j <= i ==> Succeeds(env, props, j)
    ensures PrintedBefore(env, props, i + 1) == PrintedBefore(env, props, i) + Printed(env, props, i)
  {
  }

  /**
   * `RuntimeCmd::run`: spawn the node, check the properties in order, and kill the node
   * where the source does, at the first failing check, whose error it returns unless the
   * kill's error comes first, or else after the loop.
   */
  method Run(cmd: RuntimeCmd, env: Environment) returns (result: Outcome<string>, trace: seq<Event>, output: seq<string>)
    ensures result == RunResult(cmd, env)
    ensures trace == RunTrace(cmd, env)
    ensures output == RunOutput(cmd, env)
  {
    var props, spawn := cmd.properties, Spawn(cmd.executable, NodePort, cmd.chain);
    trace := [spawn];
    output := [];
    if env.spawn.Fail? {
      return Fail(env.spawn.error), trace, output;
    }
    for i := 0 to |props|
      invariant forall j :: 0 <= j < i ==> Succeeds(env, props, j)
      invariant trace == [spawn] + CheckEvents(cmd.live, props[..i])
      invariant output == PrintedBefore(env, props, i)
    {
      var event, outcome := CheckProperty(env, props, i, LocalEndpoint, cmd.live);
      EventsStep(cmd.live, props, i);
      trace := trace + [event];
      if outcome.Failure? {
        FirstFailureIs(env, props, 0, i);
        trace := trace + [Kill];
        if env.kill.Fail? {
          return Fail(env.kill.error), trace, output;
        }
        return Fail(outcome.error), trace, output;
      }
      OutputStep(env, props, i);
      output := output + outcome.value;
    }
    FirstFailureIs(env, props, 0, |props|);
    assert props[..|props|] == props;
    trace := trace + [Kill];
    if env.kill.Fail? {
      return Fail(env.kill.error), trace, output;
    }
    return Pass, trace, output;
  }

  // ---------------------------------------------------------------- what a run guarantees

  /**
   * The node is spawned once, first, on the fixed port; a failed spawn ends the run
   * with its error before any check and without a kill.
   */
  lemma SpawnFirstAndOnce(cmd: RuntimeCmd, env: Environment)
    ensures var trace := RunTrace(cmd, env);
            && trace[0] == Spawn(cmd.executable, NodePort, cmd.chain)
            && (forall i :: 0 < i < |trace| ==> !trace[i].Spawn?)
    ensures env.spawn.Fail? ==>
              RunTrace(cmd, env) == [Spawn(cmd.executable, NodePort, cmd.chain)]
              && RunResult(cmd, env) == Fail(env.spawn.error) && RunOutput(cmd, env) == []
  {
  }

  /**
   * Resource release: once the node is spawned, it is killed exactly once, and the kill
   * is the run's last call, on every path on which `run` returns.
   */
  lemma KilledExactlyOnce(cmd: RuntimeCmd, env: Environment)
    ensures var trace := RunTrace(cmd, env);
            env.spawn.Pass? ==>
              && trace[|trace| - 1] == Kill
              && forall i :: 0 <= i < |trace| - 1 ==> trace[i] != Kill
    ensures env.spawn.Fail? ==> Kill !in RunTrace(cmd, env)
  {
  }

  /**
   * The checks are made in the given order, each against the local endpoint and the live
   * one, up to and including the first failing one; the properties after it are never
   * checked.
   */
  lemma ChecksInOrderUpToFirstFailure(cmd: RuntimeCmd, env: Environment)
    requires env.spawn.Pass?
    ensures var trace := RunTrace(cmd, env);
            var n := Attempted(env, cmd.properties);
            && |trace| == n + 2
            && (forall i :: 0 <= i < n ==> trace[1 + i] == CheckEvent(cmd.live, cmd.properties[i]))
            && (forall i :: 1 <= i <= n ==> trace[i].local == LocalEndpoint && trace[i].live == cmd.live)
    ensures forall i :: 0 <= i < |cmd.properties| && !Succeeds(env, cmd.properties, i) ==>
              Attempted(env, cmd.properties) <= i + 1
  {
    var props := cmd.properties;
    var n := Attempted(env, props);
    var trace := RunTrace(cmd, env);
    forall i | 0 <= i < n
      ensures trace[1 + i] == CheckEvent(cmd.live, props[i])
    {
      assert trace[1 + i] == CheckEvents(cmd.live, props[..n])[i];
    }
  }

  /**
   * A run succeeds exactly when the spawn, every check and the final kill succeed; a
   * failing kill's error is returned in place of a check's.
   */
  lemma ResultCharacterised(cmd: RuntimeCmd, env: Environment)
    ensures RunResult(cmd, env).Pass? <==>
              && env.spawn.Pass? && env.kill.Pass?
              && forall i :: 0 <= i < |cmd.properties| ==> Succeeds(env, cmd.properties, i)
    ensures env.spawn.Pass? && env.kill.Fail? ==> RunResult(cmd, env) == Fail(env.kill.error)
  {
  }

  /**
   * The output is the concatenation of what the checks before the first failure printed;
   * a version check with no difference prints nothing, one with a difference one line.
   */
  lemma OutputOfVersionCheck(env: Environment, props: seq<Property>, i: nat)
    requires i < |props| && props[i].Version? && Succeeds(env, props, i)
    ensures env.checkVersion(i).value.None? ==> Printed(env, props, i) == []
    ensures env.checkVersion(i).value.Some? ==> Printed(env, props, i) == [env.checkVersion(i).value.value]
  {
  }
}
