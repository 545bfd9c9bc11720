/**
 * The service configuration: a JSON object stored in smdr_config.json,
 * found in the working directory, the install directory or the user's
 * AppData directory, merged over the defaults when loaded. File-system
 * checks, reads and writes are parameters.
 */
module Config {
  import opened Text

  /** A JSON value as json.load returns it; arrays, objects and floats are `Other`. */
  datatype Value = Int(i: int) | Str(s: string) | Bool(b: bool) | Null | Other

  const ConfigFile: string := "smdr_config.json"
  const ProgramFilesDir: string := "C:/Program Files/SMDR Receiver"

  /** DEFAULT_CONFIG. */
  function DefaultConfig(): map<string, Value>
  {
    map["port" := Int(7004), "log_file" := Str("smdr.log"), "auto_start" := Bool(true)]
  }

  /** `dir / name` for a relative name. */
  function Child(dir: string, name: string): string
  {
    dir + "/" + name
  }

  /** Path.home() / "AppData/Local/SMDR Receiver". */
  function AppDataDir(home: string): string
  {
    Child(home, "AppData/Local/SMDR Receiver")
  }

  /** _find_config_file: `present(p)` says whether path p exists. */
  function FindConfigFile(cwd: string, home: string, present: string -> bool): string
  {
    var local := Child(cwd, ConfigFile);
    if present(local) then local
    else if present(ProgramFilesDir) && present(Child(ProgramFilesDir, ConfigFile)) then Child(ProgramFilesDir, ConfigFile)
    else if present(AppDataDir(home)) && present(Child(AppDataDir(home), ConfigFile)) then Child(AppDataDir(home), ConfigFile)
    else local
  }

  /** A place to look for the file: the directory that must exist first, if any, and the file. */
  datatype Candidate = Candidate(dir: Option<string>, file: string)

  predicate Qualifies(c: Candidate, present: string -> bool)
  {
    (c.dir.None? || present(c.dir.value)) && present(c.file)
  }

  /** The places searched, in priority order. */
  function Candidates(cwd: string, home: string): seq<Candidate>
  {
    [Candidate(None, Child(cwd, ConfigFile)),
     Candidate(Some(ProgramFilesDir), Child(ProgramFilesDir, ConfigFile)),
     Candidate(Some(AppDataDir(home)), Child(AppDataDir(home), ConfigFile))]
  }

  /** The index of the first qualifying candidate, if there is one. */
  function FirstQualifying(cs: seq<Candidate>, present: string -> bool): (r: Option<nat>)
    ensures r.Some? ==>
      && r.value < |cs| && Qualifies(cs[r.value], present)
      && forall j :: 0 <= j < r.value ==> !Qualifies(cs[j], present)
    ensures r.None? ==> forall j :: 0 <= j < |cs| ==> !Qualifies(cs[j], present)
  {
    if cs == [] then None
    else if Qualifies(cs[0], present) then Some(0)
    else
      match FirstQualifying(cs[1..], present)
      case None => None
      case Some(j) => Some(j + 1)
  }

  /**
   * The search returns the file of the first candidate that qualifies, in
   * the order working directory, install directory, AppData, and the
   * working-directory path when none does.
   */
  lemma FindConfigFileIsFirst(cwd: string, home: string, present: string -> bool)
    ensures var cs := Candidates(cwd, home);
      FindConfigFile(cwd, home, present) ==
        match FirstQualifying(cs, present)
        case Some(i) => cs[i].file
        case None => Child(cwd, ConfigFile)
  {
    var cs := Candidates(cwd, home);
    assert cs[1..][1..] == [cs[2]];
  }

  /** What reading the configuration file gave. */
  datatype ConfigSource =
    | Missing                          // the path does not exist
    | Unreadable                       // open or json.load raised
    | Parsed(m: map<string, Value>)    // a JSON object

  /**
   * _load_config: the defaults overridden by the file's keys; a fresh copy
   * of the defaults when the file is missing or cannot be read.
   */
  function LoadConfig(source: ConfigSource): (r: map<string, Value>)
    ensures r.Keys == DefaultConfig().Keys + (if source.Parsed? then source.m.Keys else {})
    ensures source.Parsed? ==> forall k :: k in source.m ==> r[k] == source.m[k]
    ensures forall k :: k in DefaultConfig() && (source.Parsed? ==> k !in source.m) ==> r[k] == DefaultConfig()[k]
  {
    match source
    case Missing => DefaultConfig()
    case Unreadable => DefaultConfig()
    case Parsed(m) => DefaultConfig() + m
  }

  /** dict.get(key, default): the stored value when the key is present, the default otherwise. */
  function Lookup(m: map<string, Value>, key: string, default: Value): (r: Value)
    ensures key in m ==> r == m[key]
    ensures key !in m ==> r == default
  {
    if key in m then m[key] else default
  }

  /**
   * The getters' own fallbacks (7004, 'smdr.log', True) are the defaults, so
   * on a loaded configuration each getter gives the file's value when the
   * file has the key and the default otherwise.
   */
  lemma GettersOfLoaded(source: ConfigSource)
    ensures var c := LoadConfig(source);
      && Lookup(c, "port", Int(7004)) == (if source.Parsed? && "port" in source.m then source.m["port"] else Int(7004))
      && Lookup(c, "log_file", Str("smdr.log")) == (if source.Parsed? && "log_file" in source.m then source.m["log_file"] else Str("smdr.log"))
      && Lookup(c, "auto_start", Bool(true)) == (if source.Parsed? && "auto_start" in source.m then source.m["auto_start"] else Bool(true))
  {
  }

  /** Path(log_file): a path for a string, the TypeError (None) for anything else. */
  function PathOf(v: Value): (r: Option<string>)
    ensures r.Some? <==> v.Str?
    ensures r.Some? ==> r.value == v.s
  {
    if v.Str? then Some(v.s) else None
  }

  class SMDRConfig {
    var path: string
    var config: map<string, Value>
    /** The configurations written to `path`, in order. */
    var saved: seq<map<string, Value>>

    /**
     * SMDRConfig(config_path): the given path, or the one the search finds;
     * the loaded configuration; a missing file gets the defaults written.
     */
    constructor(configPath: Option<string>, cwd: string, home: string, present: string -> bool,
                source: ConfigSource, writeOk: bool)
      ensures path == if configPath.Some? then configPath.value else FindConfigFile(cwd, home, present)
      ensures config == LoadConfig(source)
      ensures saved == if source.Missing? && writeOk then [DefaultConfig()] else []
    {
      path := if configPath.Some? then configPath.value else FindConfigFile(cwd, home, present);
      saved := [];
      config := DefaultConfig();
      new;
      if source.Missing? {
        var _ := SaveConfig(Some(DefaultConfig()), true, writeOk);
      }
      config := LoadConfig(source);
    }

    /**
     * save_config(config): adopts the new configuration if one is given,
     * then creates the directory and writes the file. None stands for the
     * exception a failed mkdir raises; otherwise whether the write succeeded.
     */
    method SaveConfig(newConfig: Option<map<string, Value>>, mkdirOk: bool, writeOk: bool) returns (r: Option<bool>)
      modifies this
      ensures config == if newConfig.Some? then newConfig.value else old(config)
      ensures r == if mkdirOk then Some(writeOk) else None
      ensures saved == if mkdirOk && writeOk then old(saved) + [config] else old(saved)
      ensures path == old(path)
    {
      if newConfig.Some? {
        config := newConfig.value;
      }
      if !mkdirOk {
        return None;
      }
      if writeOk {
        saved := saved + [config];
      }
      r := Some(writeOk);
    }

    /** get(key, default). */
    function Get(key: string, default: Value): (r: Value)
      reads this
      ensures key in config ==> r == config[key]
      ensures key !in config ==> r == default
    {
      Lookup(config, key, default)
    }

    /** set(key, value): only that key changes. */
    method Set(key: string, value: Value)
      modifies this
      ensures config == old(config)[key := value]
      ensures Get(key, Null) == value
      ensures forall k :: k != key ==> Get(k, Null) == old(Get(k, Null))
      ensures path == old(path) && saved == old(saved)
    {
      config := config[key := value];
    }

    /** get_port(): the stored port, or the default port when none is stored. */
    function GetPort(): (r: Value)
      reads this
      ensures "port" in config ==> r == config["port"]
      ensures "port" !in config ==> r == DefaultConfig()["port"]
    {
      Lookup(config, "port", Int(7004))
    }

    /** set_port(port): stores the port and saves. */
    method SetPort(port: Value, mkdirOk: bool, writeOk: bool) returns (r: Option<bool>)
      modifies this
      ensures config == old(config)["port" := port] && GetPort() == port
      ensures r == if mkdirOk then Some(writeOk) else None
      ensures saved == if mkdirOk && writeOk then old(saved) + [config] else old(saved)
      ensures path == old(path)
    {
      config := config["port" := port];
      r := SaveConfig(None, mkdirOk, writeOk);
    }

    /** get_log_file(): the stored value (default 'smdr.log') as a path. */
    function GetLogFile(): (r: Option<string>)
      reads this
      ensures r.Some? <==> "log_file" !in config || config["log_file"].Str?
      ensures "log_file" !in config ==> r == Some(DefaultConfig()["log_file"].s)
      ensures "log_file" in config && config["log_file"].Str? ==> r == Some(config["log_file"].s)
    {
      PathOf(Lookup(config, "log_file", Str("smdr.log")))
    }

    /** set_log_file(log_file): stores str(log_file) and saves. */
    method SetLogFile(logFile: string, mkdirOk: bool, writeOk: bool) returns (r: Option<bool>)
      modifies this
      ensures config == old(config)["log_file" := Str(logFile)] && GetLogFile() == Some(logFile)
      ensures r == if mkdirOk then Some(writeOk) else None
      ensures saved == if mkdirOk && writeOk then old(saved) + [config] else old(saved)
      ensures path == old(path)
    {
      config := config["log_file" := Str(logFile)];
      r := SaveConfig(None, mkdirOk, writeOk);
    }

    /** get_auto_start(): the stored flag, or the default (true) when none is stored. */
    function GetAutoStart(): (r: Value)
      reads this
      ensures "auto_start" in config ==> r == config["auto_start"]
      ensures "auto_start" !in config ==> r == DefaultConfig()["auto_start"]
    {
      Lookup(config, "auto_start", Bool(true))
    }

    /** set_auto_start(auto_start): stores the flag and saves. */
    method SetAutoStart(autoStart: Value, mkdirOk: bool, writeOk: bool) returns (r: Option<bool>)
      modifies this
      ensures config == old(config)["auto_start" := autoStart] && GetAutoStart() == autoStart
      ensures r == if mkdirOk then Some(writeOk) else None
      ensures saved == if mkdirOk && writeOk then old(saved) + [config] else old(saved)
      ensures path == old(path)
    {
      config := config["auto_start" := autoStart];
      r := SaveConfig(None, mkdirOk, writeOk);
    }
  }
}
