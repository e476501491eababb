/** The targets and the main loop of `build.py`. What processes, files and xcodebuild answer is
    given to the model as an environment, one entry per operation of a target. */
module BuildDriver {
  import opened Wrappers
  import opened Text
  import opened BuildSettings

  type Settings = map<string, string>

  /** The answers to one `codecov` operation. */
  datatype CoverageAnswers = CoverageAnswers(
    settingsBlob: Option<string>,   // output of -showBuildSettings; None if the process fails
    guidFound: bool,                // whether the device lookup succeeds
    profileExists: bool,
    executableExists: bool,
    report: Option<real>)           // the percentage read from llvm-cov; None if that raises

  /** The answers to one operation: a process exit code, or an exception before there is one, and
      whether printing the error excerpt of a failed process raises. */
  datatype Answers = Answers(exitCode: Option<int>, excerptRaises: bool, coverage: CoverageAnswers)

  /** The mutable part of a target. */
  datatype TargetState = TargetState(settings: Option<Settings>, coverage: Option<real>, failed: bool)

  /** The fixed part of a target. */
  datatype Config = Config(operations: seq<string>, minWarnCodecov: Option<real>, minCodecov: Option<real>)

  /** The state after a call and its result; `None` is an exception. */
  datatype Step<+T> = Step(state: TargetState, result: Option<T>)

  // ---------- what the methods do to a target

  function SettingsStep(st: TargetState, blob: Option<string>): Step<Settings> {
    match (st.settings, blob)
    case (Some(m), _) => Step(st, Some(m))
    case (None, None) => Step(st, None)
    case (None, Some(text)) =>
      var m := ParseLines(Split(text, NEWLINE));
      Step(st.(settings := Some(m)), Some(m))
  }

  /** -1 if the coverage is below the required minimum, otherwise 0. */
  function CoverageStatus(config: Config, coverage: Option<real>): int {
    if coverage.Some? && config.minCodecov.Some? && coverage.value < config.minCodecov.value then -1 else 0
  }

  function CodecovStep(config: Config, st: TargetState, a: CoverageAnswers): Step<int> {
    var s := SettingsStep(st, a.settingsBlob);
    if s.result.None? then Step(s.state, None)
    else if "BUILD_DIR" !in s.result.value || !a.guidFound then Step(s.state, None)
    else if !a.profileExists then Step(s.state, Some(-1))
    else if "CONFIGURATION_BUILD_DIR" !in s.result.value || "EXECUTABLE_PATH" !in s.result.value then Step(s.state, None)
    else if !a.executableExists then Step(s.state, Some(-1))
    else if a.report.None? then Step(s.state, None)
    else Step(s.state.(coverage := a.report), Some(CoverageStatus(config, a.report)))
  }

  /** An operation always yields an exit code: -1 stands for an exception before there was one. */
  function OperationStep(config: Config, st: TargetState, operation: string, a: Answers): (TargetState, int) {
    var s := if operation == "codecov" then CodecovStep(config, st, a.coverage) else Step(st, a.exitCode);
    var exitCode := if s.result.Some? then s.result.value else -1;
    (if exitCode != 0 then s.state.(failed := true) else s.state, exitCode)
  }

  /** The state of a target after its operations from `k` on, and the exit codes of those executed. */
  datatype TargetRun = TargetRun(state: TargetState, exits: seq<int>)

  function OperationsRun(config: Config, st: TargetState, answers: nat -> Answers, k: nat): TargetRun
    decreases |config.operations| - k
  {
    if k >= |config.operations| then TargetRun(st, [])
    else
      var (st', exitCode) := OperationStep(config, st, config.operations[k], answers(k));
      if exitCode != 0 then TargetRun(st', [exitCode])
      else
        var rest := OperationsRun(config, st', answers, k + 1);
        TargetRun(rest.state, [exitCode] + rest.exits)
  }

  /** Everything one target goes through in the main loop; `None` is an uncaught exception. */
  function TargetStep(config: Config, st: TargetState, showSettings: bool, blob: Option<string>, answers: nat -> Answers)
    : (r: (TargetState, Option<seq<int>>))
  {
    var s := SettingsStep(st, blob);
    if showSettings && s.result.None? then (s.state, None)
    else
      var run := OperationsRun(config, if showSettings then s.state else st, answers, 0);
      (run.state, Some(run.exits))
  }

  // ---------- the class

  class BuildTarget {
    const config: Config
    var buildSettings: Option<Settings>
    var coverage: Option<real>
    var failed: bool

    constructor (config: Config)
      ensures this.config == config
      ensures State() == TargetState(None, None, false)
    {
      this.config := config;
      buildSettings, coverage, failed := None, None, false;
    }

    function State(): TargetState
      reads this
    {
      TargetState(buildSettings, coverage, failed)
    }

    /** `get_build_settings`: asks xcodebuild once and keeps the answer. */
    method GetBuildSettings(blob: Option<string>) returns (settings: Option<Settings>)
      modifies this`buildSettings
      ensures Step(State(), settings) == SettingsStep(old(State()), blob)
      ensures old(buildSettings).Some? ==> settings == old(buildSettings) == buildSettings
      ensures settings.Some? ==> buildSettings == settings
    {
      if buildSettings != None {
        return buildSettings;
      }
      if blob.None? {
        return None;
      }
      var parsed := ParseBlob(blob.value);
      buildSettings := Some(parsed);
      return buildSettings;
    }

    /** `print_coverage`: the verdict; a coverage below the recommended minimum only warns. */
    method PrintCoverage() returns (status: int)
      ensures status == CoverageStatus(config, coverage)
      ensures status == -1 || status == 0
      ensures status == -1 <==> coverage.Some? && config.minCodecov.Some? && coverage.value < config.minCodecov.value
    {
      if coverage == None {
        return 0;
      }
      var printed := false;
      if config.minWarnCodecov.Some? && coverage.value < config.minWarnCodecov.value {
        printed := true;
      }
      if config.minCodecov.Some? && coverage.value < config.minCodecov.value {
        return -1;
      }
      return 0;
    }

    /** `do_codecov`; `None` is an exception. */
    method DoCodecov(a: CoverageAnswers) returns (status: Option<int>)
      modifies this`buildSettings, this`coverage
      ensures Step(State(), status) == CodecovStep(config, old(State()), a)
    {
      var settings := GetBuildSettings(a.settingsBlob);
      if settings.None? || "BUILD_DIR" !in settings.value {
        return None;
      }
      if !a.guidFound {
        return None;
      }
      if !a.profileExists {
        return Some(-1);
      }
      if "CONFIGURATION_BUILD_DIR" !in settings.value || "EXECUTABLE_PATH" !in settings.value {
        return None;
      }
      if !a.executableExists {
        return Some(-1);
      }
      if a.report.None? {
        return None;
      }
      coverage := a.report;
      var verdict := PrintCoverage();
      return Some(verdict);
    }

    /** `do_operation` */
    method DoOperation(operation: string, a: Answers) returns (exitCode: int)
      modifies this
      ensures (State(), exitCode) == OperationStep(config, old(State()), operation, a)
      ensures failed == (old(failed) || exitCode != 0)
    {
      exitCode := -1;
      var raised := false;
      if operation == "codecov" {
        var status := DoCodecov(a.coverage);
        if status.Some? {
          exitCode := status.value;
        } else {
          raised := true;
        }
      } else {
        if a.exitCode.Some? {
          exitCode := a.exitCode.value;
          if exitCode != 0 && a.excerptRaises {
            raised := true;
          }
        } else {
          raised := true;
        }
      }
      if raised {
        failed := true;
      } else if exitCode != 0 {
        failed := true;
      }
    }

    /** The body of the main loop for one target; `None` is an uncaught exception. */
    method RunOperations(showSettings: bool, blob: Option<string>, answers: nat -> Answers)
      returns (exits: Option<seq<int>>)
      modifies this
      ensures (State(), exits) == TargetStep(config, old(State()), showSettings, blob, answers)
    {
      var exitCode := 0;
      if showSettings {
        var settings := GetBuildSettings(blob);
        if settings.None? {
          return None;
        }
      }
      ghost var start := State();
      var codes: seq<int> := [];
      for k := 0 to |config.operations|
        invariant exitCode == 0 ==>
          OperationsRun(config, start, answers, 0)
            == var rest := OperationsRun(config, State(), answers, k); TargetRun(rest.state, codes + rest.exits)
        invariant exitCode != 0 ==> OperationsRun(config, start, answers, 0) == TargetRun(State(), codes)
      {
        if exitCode != 0 {
          break;
        }
        var before := codes;
        exitCode := DoOperation(config.operations[k], answers(k));
        codes := before + [exitCode];
        assert forall rest: seq<int> :: before + ([exitCode] + rest) == codes + rest;
      }
      assert codes + [] == codes;
      return Some(codes);
    }
  }

  // ---------- the whole script

  /** A target as the main loop leaves it, and the exit codes of the operations it executed. */
  datatype Finished = Finished(state: TargetState, exits: seq<int>)

  /** The environment of a whole run: per target the settings output and the answers to each operation. */
  datatype Environment = Environment(blob: nat -> Option<string>, answers: (nat, nat) -> Answers)

  function AnswersFor(env: Environment, i: nat): nat -> Answers {
    (k: nat) => env.answers(i, k)
  }

  /** The first `n` targets, one after the other; `None` is an uncaught exception. */
  function TargetsRun(configs: seq<Config>, states: seq<TargetState>, showSettings: bool, env: Environment, n: nat)
    : (r: Option<seq<Finished>>)
    requires n <= |configs| == |states|
    ensures r.Some? ==> |r.value| == n
  {
    if n == 0 then Some([])
    else
      match TargetsRun(configs, states, showSettings, env, n - 1)
      case None => None
      case Some(before) =>
        var (st, exits) := TargetStep(configs[n - 1], states[n - 1], showSettings, env.blob(n - 1), AnswersFor(env, n - 1));
        if exits.None? then None else Some(before + [Finished(st, exits.value)])
  }

  lemma OneMoreTarget(configs: seq<Config>, states: seq<TargetState>, showSettings: bool, env: Environment,
                      i: nat, finished: seq<Finished>, st: TargetState, exits: Option<seq<int>>)
    requires i < |configs| == |states| && TargetsRun(configs, states, showSettings, env, i) == Some(finished)
    requires TargetStep(configs[i], states[i], showSettings, env.blob(i), AnswersFor(env, i)) == (st, exits)
    ensures TargetsRun(configs, states, showSettings, env, i + 1)
         == if exits.None? then None else Some(finished + [Finished(st, exits.value)])
  {
  }

  lemma {:induction false} CrashIsFinal(configs: seq<Config>, states: seq<TargetState>, showSettings: bool, env: Environment, m: nat, n: nat)
    requires m <= n <= |configs| == |states|
    requires TargetsRun(configs, states, showSettings, env, m).None?
    ensures TargetsRun(configs, states, showSettings, env, n).None?
  {
    if m < n {
      CrashIsFinal(configs, states, showSettings, env, m, n - 1);
    }
  }

  /** The exit status: 1 if some target is marked as failed, otherwise 0. */
  function FinalStatus(states: seq<TargetState>): int {
    if exists i | 0 <= i < |states| :: states[i].failed then 1 else 0
  }

  function FinishedStates(finished: seq<Finished>): (states: seq<TargetState>)
    ensures |states| == |finished| && forall i | 0 <= i < |states| :: states[i] == finished[i].state
  {
    seq(|finished|, i requires 0 <= i < |finished| => finished[i].state)
  }

  /** The status the script exits with; `None` if an exception ends it before. */
  function ScriptStatus(configs: seq<Config>, states: seq<TargetState>, showSettings: bool, env: Environment): Option<int>
    requires |configs| == |states|
  {
    match TargetsRun(configs, states, showSettings, env, |configs|)
    case None => None
    case Some(finished) => Some(FinalStatus(FinishedStates(finished)))
  }

  function Configs(targets: seq<BuildTarget>): (configs: seq<Config>)
    ensures |configs| == |targets| && forall i | 0 <= i < |targets| :: configs[i] == targets[i].config
  {
    seq(|targets|, i requires 0 <= i < |targets| => targets[i].config)
  }

  ghost function States(targets: seq<BuildTarget>): (states: seq<TargetState>)
    reads targets
    ensures |states| == |targets| && forall i | 0 <= i < |targets| :: states[i] == targets[i].State()
  {
    seq(|targets|, i requires 0 <= i < |targets| reads targets => targets[i].State())
  }

  /** The main loop; false if an uncaught exception ends it. */
  method RunTargets(targets: seq<BuildTarget>, showSettings: bool, env: Environment)
    returns (completed: bool, ghost finished: seq<Finished>)
    requires forall i, j | 0 <= i < j < |targets| :: targets[i] != targets[j]
    modifies targets
    ensures TargetsRun(Configs(targets), old(States(targets)), showSettings, env, |targets|)
         == if completed then Some(finished) else None
    ensures completed ==> forall j | 0 <= j < |targets| :: targets[j].State() == finished[j].state
  {
    ghost var configs, states := Configs(targets), States(targets);
    finished := [];
    for i := 0 to |targets|
      invariant TargetsRun(configs, states, showSettings, env, i) == Some(finished)
      invariant forall j | 0 <= j < i :: targets[j].State() == finished[j].state
      invariant forall j | i <= j < |targets| :: targets[j].State() == states[j]
    {
      var exits := targets[i].RunOperations(showSettings, env.blob(i), AnswersFor(env, i));
      OneMoreTarget(configs, states, showSettings, env, i, finished, targets[i].State(), exits);
      if exits.None? {
        CrashIsFinal(configs, states, showSettings, env, i + 1, |targets|);
        return false, finished;
      }
      finished := finished + [Finished(targets[i].State(), exits.value)];
    }
    return true, finished;
  }

  /** The final report over all targets. */
  method ReportStatus(targets: seq<BuildTarget>) returns (finalStatus: int)
    ensures finalStatus == FinalStatus(States(targets))
  {
    finalStatus := 0;
    for i := 0 to |targets|
      invariant finalStatus == if exists j | 0 <= j < i :: targets[j].State().failed then 1 else 0
    {
      if targets[i].failed {
        finalStatus := 1;
      }
    }
  }

  /** The script from the main loop on. */
  method BuildAll(targets: seq<BuildTarget>, showSettings: bool, env: Environment) returns (status: Option<int>)
    requires forall i, j | 0 <= i < j < |targets| :: targets[i] != targets[j]
    modifies targets
    ensures status == ScriptStatus(Configs(targets), old(States(targets)), showSettings, env)
    ensures status == Some(0) || status == Some(1) || status == None
    ensures status.Some? ==>
              (status == Some(0) <==> forall i | 0 <= i < |targets| ::
                !old(targets[i].failed) && AllPass(Configs(targets), old(States(targets)), showSettings, env, i))
    ensures status.Some? ==>
              TargetsRun(Configs(targets), old(States(targets)), showSettings, env, |targets|).Some? &&
              States(targets) == FinishedStates(
                TargetsRun(Configs(targets), old(States(targets)), showSettings, env, |targets|).value)
  {
    var completed, finished := RunTargets(targets, showSettings, env);
    if !completed {
      return None;
    }
    assert States(targets) == FinishedStates(finished);
    var finalStatus := ReportStatus(targets);
    StatusIsZeroIffAllPass(Configs(targets), old(States(targets)), showSettings, env);
    assert forall i | 0 <= i < |targets| :: old(States(targets))[i].failed == old(targets[i].failed);
    return Some(finalStatus);
  }

  // ---------- laws

  /** The executed operations of a target are its first ones, up to and including the first that fails;
      the target is marked as failed iff it was before or the last executed operation failed. */
  lemma {:induction false} OperationsStopAtFirstFailure(config: Config, st: TargetState, answers: nat -> Answers, k: nat)
    requires k <= |config.operations|
    ensures var run := OperationsRun(config, st, answers, k);
            var n := |run.exits|;
            && k + n <= |config.operations|
            && (forall j | 0 <= j < n - 1 :: run.exits[j] == 0)
            && (k + n < |config.operations| ==> n > 0 && run.exits[n - 1] != 0)
            && (run.state.failed <==> st.failed || (n > 0 && run.exits[n - 1] != 0))
    decreases |config.operations| - k
  {
    if k < |config.operations| {
      var (st', exitCode) := OperationStep(config, st, config.operations[k], answers(k));
      if exitCode == 0 {
        OperationsStopAtFirstFailure(config, st', answers, k + 1);
        var rest := OperationsRun(config, st', answers, k + 1);
        var run := OperationsRun(config, st, answers, k);
        assert forall j | 1 <= j < |run.exits| :: run.exits[j] == rest.exits[j - 1];
      }
    }
  }

  /** A target not marked as failed executed all of its operations, each with exit code 0. */
  lemma UnfailedTargetRanEverything(config: Config, st: TargetState, answers: nat -> Answers)
    requires !OperationsRun(config, st, answers, 0).state.failed
    ensures |OperationsRun(config, st, answers, 0).exits| == |config.operations|
    ensures forall j | 0 <= j < |config.operations| :: OperationsRun(config, st, answers, 0).exits[j] == 0
  {
    OperationsStopAtFirstFailure(config, st, answers, 0);
  }

  /** The settings known after xcodebuild was asked: the ones known before, or else the parsed output. */
  function Known(settings: Option<Settings>, blob: Option<string>): Option<Settings> {
    if settings.Some? then settings
    else if blob.Some? then Some(ParseLines(Split(blob.value, NEWLINE)))
    else None
  }

  /** A call answers with what is known after it, and changes nothing else of the target. */
  lemma SettingsStepIs(st: TargetState, blob: Option<string>)
    ensures SettingsStep(st, blob) == Step(st.(settings := Known(st.settings, blob)), Known(st.settings, blob))
  {
  }

  /** A first call on the printed lines of a map returns that map, and so does every later call. */
  lemma PrintedSettingsAreStored(st: TargetState, indent: string, m: Settings, order: seq<string>, later: Option<string>)
    requires st.settings.None?
    requires AllSpace(indent) && '\n' !in indent
    requires forall k :: k in order <==> k in m
    requires forall k | k in m :: Plain(Setting(k, m[k]))
    ensures var first := SettingsStep(st, Some(Join(PrintLines(indent, SettingsOf(m, order)), NEWLINE)));
            && first == Step(st.(settings := Some(m)), Some(m))
            && SettingsStep(first.state, later) == first
  {
    PrintedMapIsRecovered(indent, m, order);
  }

  /** Settings, device, files and report of a coverage operation are there. */
  predicate CoverageIsRead(settings: Option<Settings>, a: CoverageAnswers) {
    var known := Known(settings, a.settingsBlob);
    && known.Some?
    && "BUILD_DIR" in known.value && "CONFIGURATION_BUILD_DIR" in known.value && "EXECUTABLE_PATH" in known.value
    && a.guidFound && a.profileExists && a.executableExists && a.report.Some?
  }

  /** When an operation counts as passed, given the settings known before it. */
  predicate Passes(config: Config, settings: Option<Settings>, operation: string, a: Answers) {
    if operation == "codecov" then
      && CoverageIsRead(settings, a.coverage)
      && (config.minCodecov.Some? ==> config.minCodecov.value <= a.coverage.report.value)
    else a.exitCode == Some(0)
  }

  /** An operation has exit code 0 exactly when it passes: its process ended with 0, or, for coverage,
      settings, device, files and report are there and the required minimum is met. The
      recommended minimum plays no part. */
  lemma ExitCodeZeroIffPasses(config: Config, st: TargetState, operation: string, a: Answers)
    ensures OperationStep(config, st, operation, a).1 == 0 <==> Passes(config, st.settings, operation, a)
  {
  }

  /** The exit code: the one of the process, and -1 for exceptions and failed coverage. */
  function ExitCode(config: Config, settings: Option<Settings>, operation: string, a: Answers): int {
    if operation == "codecov" then (if Passes(config, settings, operation, a) then 0 else -1)
    else if a.exitCode.Some? then a.exitCode.value
    else -1
  }

  /** What an operation does to its target: it is marked iff the exit code is not 0, settings are asked for
      and coverage is recorded by a coverage operation only. */
  lemma OperationStepIs(config: Config, st: TargetState, operation: string, a: Answers)
    ensures var exitCode := ExitCode(config, st.settings, operation, a);
            OperationStep(config, st, operation, a) ==
              (TargetState(if operation == "codecov" then Known(st.settings, a.coverage.settingsBlob) else st.settings,
                           if operation == "codecov" && CoverageIsRead(st.settings, a.coverage) then a.coverage.report else st.coverage,
                           st.failed || exitCode != 0),
               exitCode)
  {
    SettingsStepIs(st, a.coverage.settingsBlob);
  }

  // ---------- a run in terms of its environment

  /** The settings of target `i` that are known before its operation `j`. */
  function SettingsBefore(config: Config, start: Option<Settings>, env: Environment, i: nat, j: nat): Option<Settings>
    requires j <= |config.operations|
  {
    if j == 0 then start
    else
      var known := SettingsBefore(config, start, env, i, j - 1);
      if config.operations[j - 1] == "codecov" then Known(known, env.answers(i, j - 1).coverage.settingsBlob) else known
  }

  /** The exit code operation `j` of target `i` has if it is reached. */
  function ExitAt(config: Config, start: Option<Settings>, env: Environment, i: nat, j: nat): int
    requires j < |config.operations|
  {
    ExitCode(config, SettingsBefore(config, start, env, i, j), config.operations[j], env.answers(i, j))
  }

  /** The exit codes of all operations of target `i`, as if each were reached. */
  function AllExits(config: Config, start: Option<Settings>, env: Environment, i: nat): (exits: seq<int>)
    ensures |exits| == |config.operations|
    ensures forall j | 0 <= j < |exits| :: exits[j] == ExitAt(config, start, env, i, j)
  {
    seq(|config.operations|, j requires 0 <= j < |config.operations| => ExitAt(config, start, env, i, j))
  }

  /** One operation of target `i`, given the settings known before it. */
  lemma StepFollowsEnvironment(config: Config, st: TargetState, start: Option<Settings>, env: Environment, i: nat, k: nat)
    requires k < |config.operations| && st.settings == SettingsBefore(config, start, env, i, k)
    ensures var (st', exitCode) := OperationStep(config, st, config.operations[k], AnswersFor(env, i)(k));
            && exitCode == AllExits(config, start, env, i)[k]
            && st'.settings == SettingsBefore(config, start, env, i, k + 1)
  {
    OperationStepIs(config, st, config.operations[k], env.answers(i, k));
  }

  /** The exit codes of the operations from `k` on belong to these operations, one after the other. */
  lemma {:induction false} ExitsFollowEnvironment(config: Config, st: TargetState, start: Option<Settings>, env: Environment, i: nat, k: nat)
    requires k <= |config.operations| && st.settings == SettingsBefore(config, start, env, i, k)
    ensures var TargetRun(st', exits) := OperationsRun(config, st, AnswersFor(env, i), k);
            && exits <= AllExits(config, start, env, i)[k..]
            && st'.settings == SettingsBefore(config, start, env, i, k + |exits|)
    decreases |config.operations| - k
  {
    if k < |config.operations| {
      var (st', exitCode) := OperationStep(config, st, config.operations[k], AnswersFor(env, i)(k));
      StepFollowsEnvironment(config, st, start, env, i, k);
      var all := AllExits(config, start, env, i);
      if exitCode == 0 {
        ExitsFollowEnvironment(config, st', start, env, i, k + 1);
        OneMoreExit(all, k, OperationsRun(config, st', AnswersFor(env, i), k + 1).exits);
      } else {
        OneMoreExit(all, k, []);
      }
    }
  }

  lemma OneMoreExit(all: seq<int>, k: nat, rest: seq<int>)
    requires k < |all| && rest <= all[k + 1..]
    ensures [all[k]] + rest <= all[k..]
  {
  }

  /** The settings of target `i` that are known when its operations start. */
  function StartSettings(states: seq<TargetState>, showSettings: bool, env: Environment, i: nat): Option<Settings>
    requires i < |states|
  {
    if showSettings then Known(states[i].settings, env.blob(i)) else states[i].settings
  }

  /** A finished target is as its operations from the first one on leave it. */
  lemma FinishedIsRun(configs: seq<Config>, states: seq<TargetState>, showSettings: bool, env: Environment, i: nat)
    requires i < |configs| == |states|
    requires TargetsRun(configs, states, showSettings, env, |configs|).Some?
    ensures var st := states[i].(settings := StartSettings(states, showSettings, env, i));
            var run := OperationsRun(configs[i], st, AnswersFor(env, i), 0);
            TargetsRun(configs, states, showSettings, env, |configs|).value[i] == Finished(run.state, run.exits)
  {
    FinishedAt(configs, states, showSettings, env, |configs|, i);
    SettingsStepIs(states[i], env.blob(i));
  }

  /** The operations of a target executed from the first one on, each once and in order, against its own part
      of the environment; all but the last executed one ended with 0, and if some were not executed, the last
      executed one did not; the target is marked iff it was before or that one did not. */
  ghost predicate FollowsEnvironment(config: Config, st: TargetState, env: Environment, i: nat, state: TargetState, exits: seq<int>) {
    && exits <= AllExits(config, st.settings, env, i)
    && state.settings == SettingsBefore(config, st.settings, env, i, |exits|)
    && (forall j | 0 <= j < |exits| - 1 :: exits[j] == 0)
    && (|exits| < |config.operations| ==> exits != [] && exits[|exits| - 1] != 0)
    && (state.failed <==> st.failed || (exits != [] && exits[|exits| - 1] != 0))
  }

  lemma RunFollowsEnvironment(config: Config, st: TargetState, env: Environment, i: nat, first: nat, run: TargetRun)
    requires first == 0 && run == OperationsRun(config, st, AnswersFor(env, i), first)
    ensures FollowsEnvironment(config, st, env, i, run.state, run.exits)
  {
    OperationsStopAtFirstFailure(config, st, AnswersFor(env, i), first);
    ExitsFollowEnvironment(config, st, st.settings, env, i, first);
    assert AllExits(config, st.settings, env, i)[first..] == AllExits(config, st.settings, env, i);
  }

  /** Every finished target did so. */
  lemma TargetFollowsEnvironment(configs: seq<Config>, states: seq<TargetState>, showSettings: bool, env: Environment, i: nat)
    requires i < |configs| == |states|
    requires TargetsRun(configs, states, showSettings, env, |configs|).Some?
    ensures var start := states[i].(settings := StartSettings(states, showSettings, env, i));
            var Finished(st, exits) := TargetsRun(configs, states, showSettings, env, |configs|).value[i];
            FollowsEnvironment(configs[i], start, env, i, st, exits)
  {
    var start := states[i].(settings := StartSettings(states, showSettings, env, i));
    FinishedIsRun(configs, states, showSettings, env, i);
    RunFollowsEnvironment(configs[i], start, env, i, 0, OperationsRun(configs[i], start, AnswersFor(env, i), 0));
  }

  /** Operation `j` of target `i` passes. */
  predicate PassesAt(configs: seq<Config>, states: seq<TargetState>, showSettings: bool, env: Environment, i: nat, j: nat)
    requires i < |configs| == |states| && j < |configs[i].operations|
  {
    var settings := SettingsBefore(configs[i], StartSettings(states, showSettings, env, i), env, i, j);
    Passes(configs[i], settings, configs[i].operations[j], env.answers(i, j))
  }

  predicate AllPass(configs: seq<Config>, states: seq<TargetState>, showSettings: bool, env: Environment, i: nat)
    requires i < |configs| == |states|
  {
    forall j | 0 <= j < |configs[i].operations| :: PassesAt(configs, states, showSettings, env, i, j)
  }

  lemma UnmarkedIffAllPass(configs: seq<Config>, states: seq<TargetState>, showSettings: bool, env: Environment, i: nat)
    requires i < |configs| == |states|
    requires TargetsRun(configs, states, showSettings, env, |configs|).Some?
    ensures TargetsRun(configs, states, showSettings, env, |configs|).value[i].state.failed
       <==> states[i].failed || !AllPass(configs, states, showSettings, env, i)
  {
    TargetFollowsEnvironment(configs, states, showSettings, env, i);
    var exits := TargetsRun(configs, states, showSettings, env, |configs|).value[i].exits;
    forall j | 0 <= j < |exits|
      ensures exits[j] == 0 <==> PassesAt(configs, states, showSettings, env, i, j)
    {
    }
    if exits != [] && exits[|exits| - 1] != 0 {
      assert !PassesAt(configs, states, showSettings, env, i, |exits| - 1);
    }
  }

  /** The status in terms of the environment: 0 iff no target was marked before and every operation of every
      target passes. So status 0 means that all of them were executed, with exit code 0. */
  lemma StatusIsZeroIffAllPass(configs: seq<Config>, states: seq<TargetState>, showSettings: bool, env: Environment)
    requires |configs| == |states| && ScriptStatus(configs, states, showSettings, env).Some?
    ensures var status := ScriptStatus(configs, states, showSettings, env).value;
            && (status == 0 || status == 1)
            && (status == 0 <==> forall i | 0 <= i < |configs| ::
                  !states[i].failed && AllPass(configs, states, showSettings, env, i))
  {
    forall i | 0 <= i < |configs|
      ensures TargetsRun(configs, states, showSettings, env, |configs|).value[i].state.failed
         <==> states[i].failed || !AllPass(configs, states, showSettings, env, i)
    {
      UnmarkedIffAllPass(configs, states, showSettings, env, i);
    }
  }

  /** Without coverage operations and earlier marks: the status is 1 iff some process does not end with 0. */
  lemma StatusOfProcesses(configs: seq<Config>, states: seq<TargetState>, showSettings: bool, env: Environment)
    requires |configs| == |states| && ScriptStatus(configs, states, showSettings, env).Some?
    requires forall i | 0 <= i < |configs| :: !states[i].failed && "codecov" !in configs[i].operations
    ensures ScriptStatus(configs, states, showSettings, env).value == 1
       <==> exists i, j :: 0 <= i < |configs| && 0 <= j < |configs[i].operations| && env.answers(i, j).exitCode != Some(0)
  {
    StatusIsZeroIffAllPass(configs, states, showSettings, env);
    forall i, j | 0 <= i < |configs| && 0 <= j < |configs[i].operations|
      ensures PassesAt(configs, states, showSettings, env, i, j) <==> env.answers(i, j).exitCode == Some(0)
    {
      assert configs[i].operations[j] in configs[i].operations;
    }
  }

  lemma {:induction false} FinishedAt(configs: seq<Config>, states: seq<TargetState>, showSettings: bool, env: Environment, n: nat, i: nat)
    requires i < n <= |configs| == |states|
    requires TargetsRun(configs, states, showSettings, env, n).Some?
    ensures var f := TargetsRun(configs, states, showSettings, env, n).value[i];
            TargetStep(configs[i], states[i], showSettings, env.blob(i), AnswersFor(env, i)) == (f.state, Some(f.exits))
  {
    if i < n - 1 {
      FinishedAt(configs, states, showSettings, env, n - 1, i);
    }
  }

  /** For targets that start unmarked: the script exits with 1 iff some executed operation of some
      target had a nonzero exit code or raised (which reads as -1), and otherwise with 0. */
  lemma StatusIsOneIffSomeOperationFailed(configs: seq<Config>, states: seq<TargetState>, showSettings: bool, env: Environment)
    requires |configs| == |states|
    requires forall i | 0 <= i < |states| :: !states[i].failed
    requires ScriptStatus(configs, states, showSettings, env).Some?
    ensures var status := ScriptStatus(configs, states, showSettings, env).value;
            var finished := TargetsRun(configs, states, showSettings, env, |configs|).value;
            && (status == 1 <==> exists i, j :: 0 <= i < |finished| && 0 <= j < |finished[i].exits| && finished[i].exits[j] != 0)
            && (status == 0 || status == 1)
  {
    var finished := TargetsRun(configs, states, showSettings, env, |configs|).value;
    forall i | 0 <= i < |finished|
      ensures finished[i].state.failed <==> exists j :: 0 <= j < |finished[i].exits| && finished[i].exits[j] != 0
    {
      FinishedAt(configs, states, showSettings, env, |configs|, i);
      var st := if showSettings then SettingsStep(states[i], env.blob(i)).state else states[i];
      OperationsStopAtFirstFailure(configs[i], st, AnswersFor(env, i), 0);
      assert finished[i].exits == OperationsRun(configs[i], st, AnswersFor(env, i), 0).exits;
    }
  }

  /** The script ends without a status only where settings are to be shown and cannot be had. */
  lemma {:induction false} CrashIffSettingsMissing(configs: seq<Config>, states: seq<TargetState>, showSettings: bool, env: Environment, n: nat)
    requires n <= |configs| == |states|
    ensures TargetsRun(configs, states, showSettings, env, n).None?
       <==> showSettings && exists i :: 0 <= i < n && states[i].settings.None? && env.blob(i).None?
  {
    if n > 0 {
      CrashIffSettingsMissing(configs, states, showSettings, env, n - 1);
    }
  }

  /** Once known, the settings of a target stay as they are, whatever xcodebuild would answer later. */
  lemma {:induction false} SettingsAreKept(config: Config, st: TargetState, answers: nat -> Answers, k: nat)
    requires st.settings.Some?
    ensures OperationsRun(config, st, answers, k).state.settings == st.settings
    decreases |config.operations| - k
  {
    if k < |config.operations| {
      var (st', exitCode) := OperationStep(config, st, config.operations[k], answers(k));
      SettingsAreKept(config, st', answers, k + 1);
    }
  }
}
