/**
 * `handle_bridge`: the startup gate on the bridge key, the settings handed
 * to the poll loop, and the supervisor that restarts the poll loop when it
 * returns or raises. Each run of the poll loop is summarised by how it ended.
 */
module Bridge {

  import opened Wrappers
  import opened Text
  import ConfigManager

  type Config = ConfigManager.Config
  type Value = ConfigManager.Value

  /** Every accepted bridge key starts with this. */
  const KeyPrefix: string := "pb_"
  /** Seconds before restarting after the poll loop returned, and after it raised. */
  const ReturnPause: nat := 5
  const CrashPause: nat := 10
  /** The command-line default of `--poll-interval`. */
  const DefaultPollInterval: int := 3

  /** The options of `bridge start`. */
  datatype StartArgs = StartArgs(key: Option<string>, name: Option<string>, pollInterval: int, autoRestart: bool)

  /** `args.x` is truthy if it was given and is not empty. */
  predicate Given(o: Option<string>) {
    o.Some? && o.value != ""
  }

  /** `args.key or cfg.get("bridge_key")`. */
  function ChosenKey(argKey: Option<string>, cfg: Config): (r: Option<Value>)
    ensures Given(argKey) ==> r == Some(ConfigManager.Str(argKey.value))
    ensures !Given(argKey) ==> (r.Some? <==> "bridge_key" in cfg)
    ensures !Given(argKey) && r.Some? ==> r.value == cfg["bridge_key"]
  {
    if Given(argKey) then Some(ConfigManager.Str(argKey.value))
    else if "bridge_key" in cfg then Some(cfg["bridge_key"])
    else None
  }

  /** Why the bridge refuses to start: no key, a key without the prefix, or a key that is not text. */
  datatype KeyFailure = KeyRequired | KeyInvalid | KeyNotText

  datatype KeyCheck = KeyAccepted(key: string) | KeyRejected(failure: KeyFailure)

  /** The two checks before the poll loop starts; `startswith` on a non-string raises. */
  function CheckKey(argKey: Option<string>, cfg: Config): (r: KeyCheck)
    ensures r.KeyAccepted? ==> StartsWith(r.key, KeyPrefix)
    ensures Given(argKey) ==> (r.KeyAccepted? <==> StartsWith(argKey.value, KeyPrefix))
    ensures Given(argKey) && r.KeyAccepted? ==> r.key == argKey.value
    ensures !Given(argKey) && r.KeyAccepted? ==> "bridge_key" in cfg && cfg["bridge_key"] == ConfigManager.Str(r.key)
  {
    match ChosenKey(argKey, cfg)
    case None => KeyRejected(KeyRequired)
    case Some(v) =>
      if !ConfigManager.Truthy(v) then KeyRejected(KeyRequired)
      else if !v.Str? then KeyRejected(KeyNotText)
      else if !StartsWith(v.s, KeyPrefix) then KeyRejected(KeyInvalid)
      else KeyAccepted(v.s)
  }

  /** A key is required exactly when neither the option nor the configuration supplies a non-empty one. */
  lemma KeyRequiredIff(argKey: Option<string>, cfg: Config)
    ensures CheckKey(argKey, cfg) == KeyRejected(KeyRequired)
        <==> !Given(argKey) && ("bridge_key" in cfg ==> !ConfigManager.Truthy(cfg["bridge_key"]))
  {
  }

  /** The key from the configuration is accepted exactly when it is text with the prefix. */
  lemma ConfiguredKeyAcceptedIff(argKey: Option<string>, cfg: Config)
    requires !Given(argKey)
    ensures CheckKey(argKey, cfg).KeyAccepted?
        <==> "bridge_key" in cfg && cfg["bridge_key"].Str? && StartsWith(cfg["bridge_key"].s, KeyPrefix)
  {
    if "bridge_key" in cfg && cfg["bridge_key"].Str? && StartsWith(cfg["bridge_key"].s, KeyPrefix) {
      assert cfg["bridge_key"].s[..|KeyPrefix|] == KeyPrefix;
    }
  }

  /** On a fresh installation (nothing set) the bridge needs `--key`. */
  lemma FreshInstallNeedsKey(file: ConfigManager.ConfigFile, modelsDir: string)
    requires file.Parsed? ==> "bridge_key" !in file.user
    ensures CheckKey(None, ConfigManager.LoadConfig(file, modelsDir)) == KeyRejected(KeyRequired)
  {
  }

  /** `cfg.get(key, fallback)`: the stored value, the fallback only for an absent key. */
  function GetAsWritten(cfg: Config, key: string, fallback: Value): (v: Value)
    ensures key in cfg ==> v == cfg[key]
    ensures key !in cfg ==> v == fallback
  {
    if key in cfg then cfg[key] else fallback
  }

  /**
   * The backend URL, the anonymous key and the machine name always have an
   * entry in a loaded configuration, so `cfg.get` never yields the fallback:
   * unless the user set them, the worker gets empty strings.
   */
  lemma FallbackUnreachableAsWritten(file: ConfigManager.ConfigFile, modelsDir: string, key: string, fallback: Value)
    requires key == "backend_url" || key == "anon_key" || key == "machine_name"
    requires file.Parsed? ==> key !in file.user
    ensures GetAsWritten(ConfigManager.LoadConfig(file, modelsDir), key, fallback) == ConfigManager.Str("")
  {
  }

  /** `cfg.get(key) or fallback`: the configured value if set and non-empty, else the fallback. */
  function Setting(cfg: Config, key: string, fallback: Value): (v: Value)
    ensures key in cfg && ConfigManager.Truthy(cfg[key]) ==> v == cfg[key]
    ensures !(key in cfg && ConfigManager.Truthy(cfg[key])) ==> v == fallback
  {
    if key in cfg && ConfigManager.Truthy(cfg[key]) then cfg[key] else fallback
  }

  /** With the corrected lookup, an unset entry yields the fallback and a user's non-empty entry wins. */
  lemma SettingHonoursFallback(file: ConfigManager.ConfigFile, modelsDir: string, key: string, fallback: Value)
    requires key == "backend_url" || key == "anon_key" || key == "machine_name"
    ensures file.Parsed? && key in file.user && ConfigManager.Truthy(file.user[key]) ==>
      Setting(ConfigManager.LoadConfig(file, modelsDir), key, fallback) == file.user[key]
    ensures (file.Parsed? ==> key !in file.user) ==>
      Setting(ConfigManager.LoadConfig(file, modelsDir), key, fallback) == fallback
  {
  }

  /** What `handle_bridge` hands to the poll loop. */
  datatype Start = Start(
    apiKey: string,
    backend: Value,
    anonKey: Value,
    machineName: Value,
    pollInterval: Value,
    autoRestart: bool)

  /** `args.poll_interval or cfg.get("poll_interval", 3)`. */
  function PollIntervalChoice(argInterval: int, cfg: Config): (v: Value)
    ensures argInterval != 0 ==> v == ConfigManager.Int(argInterval)
    ensures argInterval == 0 && "poll_interval" in cfg ==> v == cfg["poll_interval"]
    ensures argInterval == 0 && "poll_interval" !in cfg ==> v == ConfigManager.Int(DefaultPollInterval)
  {
    if argInterval != 0 then ConfigManager.Int(argInterval)
    else GetAsWritten(cfg, "poll_interval", ConfigManager.Int(DefaultPollInterval))
  }

  /** The configuration's `poll_interval` matters only for an explicit `--poll-interval 0`. */
  lemma ConfigPollIntervalShadowed(args: StartArgs, file: ConfigManager.ConfigFile, modelsDir: string)
    requires args.pollInterval == DefaultPollInterval
    ensures PollIntervalChoice(args.pollInterval, ConfigManager.LoadConfig(file, modelsDir)) == ConfigManager.Int(3)
  {
  }

  /**
   * Under `--poll-interval 0` the configured value is used; as `load_config`
   * always holds `poll_interval`, the built-in 3 is reached only through the
   * default configuration.
   */
  lemma ZeroPollIntervalUsesConfig(file: ConfigManager.ConfigFile, modelsDir: string)
    ensures var cfg := ConfigManager.LoadConfig(file, modelsDir);
      PollIntervalChoice(0, cfg) == cfg["poll_interval"]
    ensures (file.Parsed? ==> "poll_interval" !in file.user) ==>
      PollIntervalChoice(0, ConfigManager.LoadConfig(file, modelsDir)) == ConfigManager.Int(DefaultPollInterval)
  {
    ConfigManager.LoadedHasDefaults(file, modelsDir);
  }

  /** The outcome of the start-up part of `handle_bridge`. */
  datatype Launch = Launch(start: Start) | Exit(status: int, failure: KeyFailure) | UnknownAction(action: string)

  /** `platform.node() or "unknown"`. */
  function HostName(host: string): (n: string)
    ensures n != ""
    ensures host != "" ==> n == host
  {
    if host != "" then host else "unknown"
  }

  /**
   * No action or `start` starts the worker once the key is accepted, with
   * the settings looked up as written (`cfg.get(key, fallback)`); `host` is
   * `platform.node()`.
   */
  function StartupGate(action: Option<string>, args: StartArgs, cfg: Config, host: string,
                       defaultBackend: string, defaultAnonKey: string): (r: Launch)
    ensures r.UnknownAction? <==> Given(action) && action.value != "start"
    ensures r.Exit? ==> r.status == 1 && CheckKey(args.key, cfg) == KeyRejected(r.failure)
    ensures r.Launch? <==> !(Given(action) && action.value != "start") && CheckKey(args.key, cfg).KeyAccepted?
    ensures r.Launch? ==> CheckKey(args.key, cfg) == KeyAccepted(r.start.apiKey) && StartsWith(r.start.apiKey, KeyPrefix)
    ensures r.Launch? ==> r.start.autoRestart == args.autoRestart
    ensures r.Launch? ==> r.start.pollInterval == PollIntervalChoice(args.pollInterval, cfg)
    ensures r.Launch? ==> r.start.backend == (if "backend_url" in cfg then cfg["backend_url"] else ConfigManager.Str(defaultBackend))
    ensures r.Launch? ==> r.start.anonKey == (if "anon_key" in cfg then cfg["anon_key"] else ConfigManager.Str(defaultAnonKey))
    ensures r.Launch? && Given(args.name) ==> r.start.machineName == ConfigManager.Str(args.name.value)
    ensures r.Launch? && !Given(args.name) ==>
      r.start.machineName == (if "machine_name" in cfg then cfg["machine_name"] else ConfigManager.Str(HostName(host)))
  {
    if Given(action) && action.value != "start" then UnknownAction(action.value)
    else match CheckKey(args.key, cfg)
      case KeyRejected(f) => Exit(1, f)
      case KeyAccepted(key) =>
        Launch(Start(
          key,
          GetAsWritten(cfg, "backend_url", ConfigManager.Str(defaultBackend)),
          GetAsWritten(cfg, "anon_key", ConfigManager.Str(defaultAnonKey)),
          if Given(args.name) then ConfigManager.Str(args.name.value)
          else GetAsWritten(cfg, "machine_name", ConfigManager.Str(HostName(host))),
          PollIntervalChoice(args.pollInterval, cfg),
          args.autoRestart))
  }

  /**
   * As written, a worker started on a loaded configuration whose user file
   * does not set the backend URL, the anonymous key or the machine name is
   * handed empty strings for them, whatever defaults the caller passes.
   */
  lemma StartupDropsDefaultsAsWritten(action: Option<string>, args: StartArgs, file: ConfigManager.ConfigFile,
                                      modelsDir: string, host: string, defaultBackend: string, defaultAnonKey: string)
    requires file.Parsed? ==> "backend_url" !in file.user && "anon_key" !in file.user && "machine_name" !in file.user
    ensures var r := StartupGate(action, args, ConfigManager.LoadConfig(file, modelsDir), host, defaultBackend, defaultAnonKey);
      r.Launch? ==>
        && r.start.backend == ConfigManager.Str("")
        && r.start.anonKey == ConfigManager.Str("")
        && (!Given(args.name) ==> r.start.machineName == ConfigManager.Str(""))
  {
    ConfigManager.LoadedHasDefaults(file, modelsDir);
  }

  /** The start-up gate with the corrected lookup `cfg.get(key) or fallback`. */
  function StartupGateCorrected(action: Option<string>, args: StartArgs, cfg: Config, host: string,
                                defaultBackend: string, defaultAnonKey: string): (r: Launch)
    ensures r.Launch? <==> StartupGate(action, args, cfg, host, defaultBackend, defaultAnonKey).Launch?
    ensures !r.Launch? ==> r == StartupGate(action, args, cfg, host, defaultBackend, defaultAnonKey)
    ensures r.Launch? ==>
      var s := StartupGate(action, args, cfg, host, defaultBackend, defaultAnonKey).start;
      r.start.apiKey == s.apiKey && r.start.pollInterval == s.pollInterval && r.start.autoRestart == s.autoRestart
    ensures r.Launch? ==> r.start.backend == Setting(cfg, "backend_url", ConfigManager.Str(defaultBackend))
    ensures r.Launch? ==> r.start.anonKey == Setting(cfg, "anon_key", ConfigManager.Str(defaultAnonKey))
    ensures r.Launch? && !Given(args.name) ==>
      r.start.machineName == Setting(cfg, "machine_name", ConfigManager.Str(HostName(host)))
  {
    match StartupGate(action, args, cfg, host, defaultBackend, defaultAnonKey)
    case Launch(s) =>
      Launch(s.(
        backend := Setting(cfg, "backend_url", ConfigManager.Str(defaultBackend)),
        anonKey := Setting(cfg, "anon_key", ConfigManager.Str(defaultAnonKey)),
        machineName := if Given(args.name) then ConfigManager.Str(args.name.value)
                       else Setting(cfg, "machine_name", ConfigManager.Str(HostName(host)))))
    case other => other
  }

  /**
   * With the corrected lookup, a fresh installation started with only
   * `--key` reaches the built-in backend, the built-in anonymous key and
   * the host name.
   */
  lemma CorrectedStartupUsesDefaults(action: Option<string>, args: StartArgs, file: ConfigManager.ConfigFile,
                                     modelsDir: string, host: string, defaultBackend: string, defaultAnonKey: string)
    requires file.Parsed? ==> "backend_url" !in file.user && "anon_key" !in file.user && "machine_name" !in file.user
    ensures var r := StartupGateCorrected(action, args, ConfigManager.LoadConfig(file, modelsDir), host, defaultBackend, defaultAnonKey);
      r.Launch? ==>
        && r.start.backend == ConfigManager.Str(defaultBackend)
        && r.start.anonKey == ConfigManager.Str(defaultAnonKey)
        && (!Given(args.name) ==> r.start.machineName == ConfigManager.Str(HostName(host)))
  {
    var cfg := ConfigManager.LoadConfig(file, modelsDir);
    SettingHonoursFallback(file, modelsDir, "backend_url", ConfigManager.Str(defaultBackend));
    SettingHonoursFallback(file, modelsDir, "anon_key", ConfigManager.Str(defaultAnonKey));
    SettingHonoursFallback(file, modelsDir, "machine_name", ConfigManager.Str(HostName(host)));
  }

  /** How one run of the poll loop ended: it returned (with the `running` flag then in force) or raised. */
  datatype LoopExit = Returned(runningAfter: bool) | Raised

  /** The pause before the next run, or None when the supervisor stops. */
  function RestartPause(e: LoopExit, autoRestart: bool): (p: Option<nat>)
    ensures p.Some? ==> autoRestart
    ensures e.Raised? ==> (p.Some? <==> autoRestart)
    ensures p.Some? ==> p.value == (if e.Raised? then CrashPause else ReturnPause)
  {
    match e
    case Returned(runningAfter) => if !autoRestart || !runningAfter then None else Some(ReturnPause)
    case Raised => if !autoRestart then None else Some(CrashPause)
  }

  /** The index of the first run after which the supervisor stops, |exits| if it never does. */
  function StopIndex(exits: seq<LoopExit>, autoRestart: bool): (k: nat)
    ensures k <= |exits|
    ensures forall j :: 0 <= j < k ==> RestartPause(exits[j], autoRestart).Some?
    ensures k < |exits| ==> RestartPause(exits[k], autoRestart).None?
  {
    if exits == [] then 0
    else if RestartPause(exits[0], autoRestart).None? then 0
    else 1 + StopIndex(exits[1..], autoRestart)
  }

  /** Without `--auto-restart` the poll loop runs once, however it ends. */
  lemma NoAutoRestartStopsFirst(exits: seq<LoopExit>)
    requires exits != []
    ensures StopIndex(exits, false) == 0
  {
  }

  /** With `--auto-restart` the supervisor stops only after a return with `running` cleared. */
  lemma AutoRestartStopsOnlyOnSignal(exits: seq<LoopExit>)
    ensures StopIndex(exits, true) < |exits| ==> exits[StopIndex(exits, true)] == Returned(false)
    ensures forall j :: 0 <= j < StopIndex(exits, true) ==> exits[j] != Returned(false)
  {
  }

  /**
   * `poll_loop` returns only once `running` is cleared (its loop runs while
   * `running` holds, and the signal handlers replace `KeyboardInterrupt`),
   * so no loop ending is `Returned(true)`. Then every restart follows a
   * crash, after the 10-second pause: the 5-second restart is never taken.
   */
  lemma OnlyCrashesRestart(exits: seq<LoopExit>, autoRestart: bool)
    requires forall j :: 0 <= j < |exits| ==> exits[j] != Returned(true)
    ensures forall j :: 0 <= j < StopIndex(exits, autoRestart) ==>
      exits[j].Raised? && RestartPause(exits[j], autoRestart) == Some(CrashPause)
    ensures StopIndex(exits, autoRestart) < |exits| && autoRestart ==> exits[StopIndex(exits, autoRestart)] == Returned(false)
  {
  }

  /**
   * The `while True` of `handle_bridge` over the ends of successive runs:
   * `runs` is how many runs started, `pauses` the sleeps between them, and
   * `stopped` whether it broke out before the runs were exhausted.
   */
  method Supervise(autoRestart: bool, exits: seq<LoopExit>) returns (runs: nat, pauses: seq<nat>, stopped: bool)
    ensures stopped <==> StopIndex(exits, autoRestart) < |exits|
    ensures runs == if stopped then StopIndex(exits, autoRestart) + 1 else |exits|
    ensures |pauses| == StopIndex(exits, autoRestart)
    ensures forall j :: 0 <= j < |pauses| ==> RestartPause(exits[j], autoRestart) == Some(pauses[j])
  {
    runs, pauses, stopped := 0, [], false;
    while runs < |exits|
      invariant runs <= |exits|
      invariant |pauses| == runs
      invariant runs <= StopIndex(exits, autoRestart)
      invariant forall j :: 0 <= j < runs ==> RestartPause(exits[j], autoRestart) == Some(pauses[j])
    {
      var pause := RestartPause(exits[runs], autoRestart);
      runs := runs + 1;
      if pause.None? {
        stopped := true;
        return;
      }
      pauses := pauses + [pause.value];
    }
  }

  /**
   * `handle_bridge` over a configuration and the ends of the poll loop's runs:
   * the exit status, how many runs started, and the pauses between them.
   */
  method HandleBridge(action: Option<string>, args: StartArgs, cfg: Config, host: string,
                      defaultBackend: string, defaultAnonKey: string, exits: seq<LoopExit>)
    returns (status: int, runs: nat, pauses: seq<nat>)
    ensures var gate := StartupGate(action, args, cfg, host, defaultBackend, defaultAnonKey);
      && (!gate.Launch? ==> runs == 0 && pauses == [])
      && (gate.Exit? ==> status == 1)
      && (!gate.Exit? ==> status == 0)
    ensures runs > 0 ==> StartsWith(CheckKey(args.key, cfg).key, KeyPrefix) && CheckKey(args.key, cfg).KeyAccepted?
    ensures StartupGate(action, args, cfg, host, defaultBackend, defaultAnonKey).Launch? ==>
      && |pauses| == StopIndex(exits, args.autoRestart)
      && runs == (if StopIndex(exits, args.autoRestart) < |exits| then StopIndex(exits, args.autoRestart) + 1 else |exits|)
  {
    var gate := StartupGate(action, args, cfg, host, defaultBackend, defaultAnonKey);
    match gate
    case UnknownAction(_) =>
      status, runs, pauses := 0, 0, [];
    case Exit(s, _) =>
      status, runs, pauses := s, 0, [];
    case Launch(start) =>
      var stopped;
      runs, pauses, stopped := Supervise(start.autoRestart, exits);
      status := 0;
  }
}
