/**
 * `mapreduce-server.cc`: the bookkeeping of a MapReduce server. It has:
 * - the queue of file patterns still to hand out, and the set of patterns
 *   handed out but not yet acknowledged;
 * - the checks on the command-line flags and on the keys of the
 *   configuration file;
 * - the default port, and the list of patterns the reducers work through.
 * Sockets, threads, ssh and the worker processes are not part of this model.
 */
module MrServer {
  import opened Wrappers
  import opened Text
  import opened CNumbers

  const NUM_WORKER_THREADS: nat := 32
  const MIN_WORKERS: nat := 1
  const MAX_WORKERS: nat := NUM_WORKER_THREADS
  const LOWEST_OPEN_PORT: nat := 1024
  const USHRT_MAX: nat := 65535
  const SIZE_T_LIMIT: nat := 0x1_0000_0000_0000_0000

  /** `kConfigFileKeys`: the keys a configuration file must supply, each once. */
  const CONFIG_KEYS: set<string> :=
    {"mapper", "reducer", "num-mappers", "num-reducers", "input-path", "intermediate-path", "output-path"}

  /** The `MapReduceServerException`s thrown while the server is configured. */
  datatype ServerError =
    | MapperTwice | ReducerTwice | BadFlag | MalformedPort(arg: string) | PortOutOfRange
    | TooManyArguments | NoMapper | NoReducer | NoConfigFile
    | ConfigUnopened(name: string) | KeyUnrecognized(key: string) | KeyRepeated(key: string) | KeysMissing
    | NotPositive(key: string) | OutOfRange(key: string, number: int)
    | NoSuchPath(key: string, path: string) | NotADirectory(key: string, path: string)
    | NotExecutable(name: string)

  /**
   * What the server sees of its machine: the working directory, what `stat`
   * reports (present: the path exists; true: it is a directory), the
   * readable files with their text, and the executable paths.
   */
  datatype Env = Env(cwd: string, stat: map<string, bool>, files: map<string, string>, executables: set<string>)

  /** The server's data members set from the configuration file. */
  datatype Config = Config(mapperExecutable: string, reducerExecutable: string, numMappers: nat, numReducers: nat,
                           inputPath: string, intermediatePath: string, outputPath: string)

  /** What `getopt_long` returns for each option, its argument included. */
  datatype Flag = MapperFlag(name: string) | ReducerFlag(name: string) | QuietFlag | PortFlag(port: string)
                | ConfigFlag(file: string) | MapOnlyFlag | UnknownFlag

  /** The members `parseArgumentList` sets from the flags, and the configuration file name. */
  datatype Options = Options(mapper: string, reducer: string, verbose: bool, serverPort: nat, configFile: string,
                             mapOnly: bool)

  // The default port.

  /**
   * `computeDefaultPortForUser`, given the `size_t` hash of "user@host":
   * the hash modulo `USHRT_MAX - 1024`, moved up by 1024.
   */
  function DefaultPort(hashValue: nat): (port: nat)
    requires hashValue < SIZE_T_LIMIT
    ensures LOWEST_OPEN_PORT <= port <= USHRT_MAX - 1
    ensures (port - LOWEST_OPEN_PORT) % (USHRT_MAX - LOWEST_OPEN_PORT) == hashValue % (USHRT_MAX - LOWEST_OPEN_PORT)
  {
    hashValue % (USHRT_MAX - LOWEST_OPEN_PORT) + LOWEST_OPEN_PORT
  }

  /** Every port of the range is the default for some hash. */
  lemma DefaultPortOnto(port: nat)
    requires LOWEST_OPEN_PORT <= port <= USHRT_MAX - 1
    ensures DefaultPort(port - LOWEST_OPEN_PORT) == port
  {
  }

  // Numbers read from text.

  /** `extractPortNumber`: a base-0 `strtol` that must use all the text and lie in [1, 65535]. */
  function ExtractPortNumber(arg: string): (r: Result<nat, ServerError>)
    ensures r.Success? <==> Strtol(CStr(arg), 0).end == |CStr(arg)| && 1 <= Strtol(CStr(arg), 0).value <= USHRT_MAX
    ensures r.Success? ==> r.value == Strtol(CStr(arg), 0).value && 1 <= r.value <= USHRT_MAX
    ensures Strtol(CStr(arg), 0).end < |CStr(arg)| ==> r == Failure(MalformedPort(arg))
  {
    var p := Strtol(CStr(arg), 0);
    if p.end != |CStr(arg)| then Failure(MalformedPort(arg))
    else if p.value < 1 || p.value > USHRT_MAX then Failure(PortOutOfRange)
    else Success(p.value)
  }

  /**
   * `parseNumberInRange`: a base-0 `strtol` that must use all the text, be
   * non-negative and lie in [low, high].
   */
  function ParseNumberInRange(key: string, value: string, low: nat, high: nat): (r: Result<nat, ServerError>)
    ensures r.Success? <==> Strtol(CStr(value), 0).end == |CStr(value)| && low <= Strtol(CStr(value), 0).value <= high
    ensures r.Success? ==> r.value == Strtol(CStr(value), 0).value && low <= r.value <= high
    ensures Strtol(CStr(value), 0).end < |CStr(value)| ==> r == Failure(NotPositive(key))
  {
    var p := Strtol(CStr(value), 0);
    if p.end != |CStr(value)| then Failure(NotPositive(key))
    else if p.value < 0 || p.value < low || p.value > high then Failure(OutOfRange(key, p.value))
    else Success(p.value)
  }

  /**
   * `ensureDirectoryExists`: the path made absolute against the working
   * directory when it is relative; an error when `stat` fails on it or it is
   * not a directory.
   */
  function EnsureDirectoryExists(key: string, path: string, env: Env): (r: Result<string, ServerError>)
    ensures path !in env.stat ==> r == Failure(NoSuchPath(key, path))
    ensures path in env.stat && !env.stat[path] ==> r == Failure(NotADirectory(key, path))
    ensures r.Success? ==> path in env.stat && env.stat[path]
    ensures r.Success? && path != [] && path[0] == '/' ==> r.value == path
    ensures r.Success? && path != [] && path[0] != '/' ==> r.value == env.cwd + "/" + path
  {
    var absolutePath := if path != [] && path[0] != '/' then env.cwd + "/" + path else path;
    if path !in env.stat then Failure(NoSuchPath(key, path))
    else if !env.stat[path] then Failure(NotADirectory(key, path))
    else Success(absolutePath)
  }

  /** `applyToServer`: the member a configuration key names, set from its value. */
  function ApplyToServer(cfg: Config, key: string, value: string, env: Env): (r: Result<Config, ServerError>)
    ensures key !in CONFIG_KEYS ==> r == Success(cfg)
    ensures key == "mapper" ==> r == Success(cfg.(mapperExecutable := value))
    ensures key == "reducer" ==> r == Success(cfg.(reducerExecutable := value))
    ensures key == "num-mappers" ==> r == (match ParseNumberInRange(key, value, MIN_WORKERS, MAX_WORKERS)
      case Success(n) => Success(cfg.(numMappers := n)) case Failure(e) => Failure(e))
    ensures key == "num-reducers" ==> r == (match ParseNumberInRange(key, value, MIN_WORKERS, MAX_WORKERS)
      case Success(n) => Success(cfg.(numReducers := n)) case Failure(e) => Failure(e))
    ensures key == "input-path" ==> r == (match EnsureDirectoryExists(key, value, env)
      case Success(p) => Success(cfg.(inputPath := p)) case Failure(e) => Failure(e))
    ensures key == "intermediate-path" ==> r == (match EnsureDirectoryExists(key, value, env)
      case Success(p) => Success(cfg.(intermediatePath := p)) case Failure(e) => Failure(e))
    ensures key == "output-path" ==> r == (match EnsureDirectoryExists(key, value, env)
      case Success(p) => Success(cfg.(outputPath := p)) case Failure(e) => Failure(e))
    ensures key == "num-mappers" && r.Success? ==> MIN_WORKERS <= r.value.numMappers <= MAX_WORKERS
    ensures key == "num-reducers" && r.Success? ==> MIN_WORKERS <= r.value.numReducers <= MAX_WORKERS
    ensures key != "num-mappers" && r.Success? ==> r.value.numMappers == cfg.numMappers
    ensures key != "num-reducers" && r.Success? ==> r.value.numReducers == cfg.numReducers
    ensures r.Failure? ==> r.error.NotPositive? || r.error.OutOfRange? || r.error.NoSuchPath? || r.error.NotADirectory?
  {
    if key == "mapper" then Success(cfg.(mapperExecutable := value))
    else if key == "reducer" then Success(cfg.(reducerExecutable := value))
    else if key == "num-mappers" then
      (match ParseNumberInRange(key, value, MIN_WORKERS, MAX_WORKERS)
       case Success(n) => Success(cfg.(numMappers := n))
       case Failure(e) => Failure(e))
    else if key == "num-reducers" then
      (match ParseNumberInRange(key, value, MIN_WORKERS, MAX_WORKERS)
       case Success(n) => Success(cfg.(numReducers := n))
       case Failure(e) => Failure(e))
    else if key == "input-path" then
      (match EnsureDirectoryExists(key, value, env)
       case Success(p) => Success(cfg.(inputPath := p))
       case Failure(e) => Failure(e))
    else if key == "intermediate-path" then
      (match EnsureDirectoryExists(key, value, env)
       case Success(p) => Success(cfg.(intermediatePath := p))
       case Failure(e) => Failure(e))
    else if key == "output-path" then
      (match EnsureDirectoryExists(key, value, env)
       case Success(p) => Success(cfg.(outputPath := p))
       case Failure(e) => Failure(e))
    else Success(cfg)
  }

  // The configuration file.

  /**
   * The loop of `initializeFromConfigFile` from position `pos`, with the keys
   * `supplied` so far: a key is read up to a space and trimmed (an empty one
   * is skipped), must be one of the seven and new, and the rest of its line,
   * trimmed, is its value. At the end of the text it gives the keys supplied
   * and the configuration built.
   */
  function KeyLoop(text: string, pos: nat, supplied: set<string>, cfg: Config, env: Env): Result<(set<string>, Config), ServerError>
    requires pos <= |text|
    decreases |text| - pos
  {
    var k := GetLineDelim(text, pos, ' ');
    if k.failed then Success((supplied, cfg))
    else
      var key := Trim(k.text);
      if key == [] then KeyLoop(text, k.next, supplied, cfg, env)
      else if key !in CONFIG_KEYS then Failure(KeyUnrecognized(key))
      else if key in supplied then Failure(KeyRepeated(key))
      else
        var v := GetLine(text, k.next);
        match ApplyToServer(cfg, key, Trim(v.text), env)
        case Failure(e) => Failure(e)
        case Success(c) => KeyLoop(text, v.next, supplied + {key}, c, env)
  }

  /** `initializeFromConfigFile` on the file's text: the key loop, then every one of the seven keys must have come. */
  function ReadConfig(text: string, cfg0: Config, env: Env): Result<Config, ServerError> {
    match KeyLoop(text, 0, {}, cfg0, env)
    case Failure(e) => Failure(e)
    case Success((supplied, cfg)) => if supplied == CONFIG_KEYS then Success(cfg) else Failure(KeysMissing)
  }

  /** The workers counts set so far lie in range. */
  predicate CountsSet(cfg: Config, supplied: set<string>) {
    ("num-mappers" in supplied ==> MIN_WORKERS <= cfg.numMappers <= MAX_WORKERS) &&
    ("num-reducers" in supplied ==> MIN_WORKERS <= cfg.numReducers <= MAX_WORKERS)
  }

  /**
   * The key loop only adds keys, and only the seven; the counts it has read
   * lie in [1, 32]; and it never reports missing keys itself.
   */
  lemma {:induction false} KeyLoopKeys(text: string, pos: nat, supplied: set<string>, cfg: Config, env: Env)
    requires pos <= |text| && supplied <= CONFIG_KEYS && CountsSet(cfg, supplied)
    ensures var r := KeyLoop(text, pos, supplied, cfg, env);
      (r.Success? ==> supplied <= r.value.0 <= CONFIG_KEYS && CountsSet(r.value.1, r.value.0)) &&
      (r.Failure? ==> r.error != KeysMissing)
    decreases |text| - pos
  {
    var k := GetLineDelim(text, pos, ' ');
    if !k.failed {
      var key := Trim(k.text);
      if key == [] {
        KeyLoopKeys(text, k.next, supplied, cfg, env);
      } else if key in CONFIG_KEYS && key !in supplied {
        var v := GetLine(text, k.next);
        var a := ApplyToServer(cfg, key, Trim(v.text), env);
        if a.Success? {
          KeyLoopKeys(text, v.next, supplied + {key}, a.value, env);
        }
      }
    }
  }

  /**
   * A configuration is accepted exactly when the key loop reads the text to
   * its end with all seven keys supplied, and then both worker counts come
   * from the file and lie in [1, 32]; missing keys are reported exactly when
   * the loop reads to the end without some of the seven.
   */
  lemma ReadConfigOutcome(text: string, cfg0: Config, env: Env)
    ensures var l := KeyLoop(text, 0, {}, cfg0, env);
      ReadConfig(text, cfg0, env).Success? <==> l.Success? && l.value.0 == CONFIG_KEYS
    ensures ReadConfig(text, cfg0, env).Success? ==>
      var c := ReadConfig(text, cfg0, env).value;
      MIN_WORKERS <= c.numMappers <= MAX_WORKERS && MIN_WORKERS <= c.numReducers <= MAX_WORKERS
    ensures var l := KeyLoop(text, 0, {}, cfg0, env);
      ReadConfig(text, cfg0, env) == Failure(KeysMissing) <==> l.Success? && l.value.0 != CONFIG_KEYS
  {
    KeyLoopKeys(text, 0, {}, cfg0, env);
  }

  /** An unrecognized key is a non-empty word outside the seven; a repeated key is one of them. */
  predicate KeyErrorsNamed<T>(r: Result<T, ServerError>) {
    r.Failure? ==>
      (r.error.KeyUnrecognized? ==> r.error.key !in CONFIG_KEYS && r.error.key != []) &&
      (r.error.KeyRepeated? ==> r.error.key in CONFIG_KEYS)
  }

  /** Every key error of the key loop names the key as `KeyErrorsNamed` says. */
  lemma {:induction false} KeyLoopKeyErrors(text: string, pos: nat, supplied: set<string>, cfg: Config, env: Env)
    requires pos <= |text|
    ensures KeyErrorsNamed(KeyLoop(text, pos, supplied, cfg, env))
    decreases |text| - pos
  {
    var k := GetLineDelim(text, pos, ' ');
    if !k.failed {
      var key := Trim(k.text);
      if key == [] {
        KeyLoopKeyErrors(text, k.next, supplied, cfg, env);
      } else if key !in CONFIG_KEYS {
        assert KeyLoop(text, pos, supplied, cfg, env) == Failure(KeyUnrecognized(key));
      } else if key in supplied {
        assert KeyLoop(text, pos, supplied, cfg, env) == Failure(KeyRepeated(key));
      } else {
        var v := GetLine(text, k.next);
        var a := ApplyToServer(cfg, key, Trim(v.text), env);
        if a.Success? {
          KeyLoopKeyErrors(text, v.next, supplied + {key}, a.value, env);
          assert KeyLoop(text, pos, supplied, cfg, env) == KeyLoop(text, v.next, supplied + {key}, a.value, env);
        }
      }
    }
  }

  /** Every key error `initializeFromConfigFile` throws names the key as `KeyErrorsNamed` says. */
  lemma ReadConfigKeyErrors(text: string, cfg0: Config, env: Env)
    ensures KeyErrorsNamed(ReadConfig(text, cfg0, env))
  {
    KeyLoopKeyErrors(text, 0, {}, cfg0, env);
  }

  /** The argument scan with fields `o`: one step per option, throwing as `parseArgumentList` does. */
  function ScanFlags(flags: seq<Flag>, o: Options): (r: Result<Options, ServerError>)
    ensures r.Success? ==> r.value.mapper == o.mapper || exists i :: 0 <= i < |flags| && flags[i] == MapperFlag(r.value.mapper)
  {
    if flags == [] then Success(o)
    else
      var step := match flags[0]
        case MapperFlag(n) => if o.mapper != [] then Failure(MapperTwice) else Success(o.(mapper := n))
        case ReducerFlag(n) => if o.reducer != [] then Failure(ReducerTwice) else Success(o.(reducer := n))
        case QuietFlag => Success(o.(verbose := false))
        case PortFlag(p) => (match ExtractPortNumber(p) case Success(n) => Success(o.(serverPort := n)) case Failure(e) => Failure(e))
        case ConfigFlag(f) => Success(o.(configFile := f))
        case MapOnlyFlag => Success(o.(mapOnly := true))
        case UnknownFlag => Failure(BadFlag);
      match step
      case Failure(e) => Failure(e)
      case Success(o') =>
        var r := ScanFlags(flags[1..], o');
        assert r.Success? && r.value.mapper != o'.mapper ==> exists i :: 1 <= i < |flags| && flags[i] == MapperFlag(r.value.mapper) by {
          if r.Success? && r.value.mapper != o'.mapper {
            var i :| 0 <= i < |flags[1..]| && flags[1..][i] == MapperFlag(r.value.mapper);
            assert flags[i + 1] == MapperFlag(r.value.mapper);
          }
        }
        r
  }

  /**
   * A scan that gets through has no `--mapper` after a non-empty one and no
   * `--reducer` after a non-empty one: each is given at most once (once set,
   * since the check is for an empty member rather than an earlier flag).
   */
  lemma {:induction false} ScanFlagsOnce(flags: seq<Flag>, o: Options)
    requires ScanFlags(flags, o).Success?
    ensures o.mapper != [] ==> forall j :: 0 <= j < |flags| ==> !flags[j].MapperFlag?
    ensures o.reducer != [] ==> forall j :: 0 <= j < |flags| ==> !flags[j].ReducerFlag?
    ensures forall i, j :: 0 <= i < j < |flags| && flags[i].MapperFlag? && flags[j].MapperFlag? ==> flags[i].name == []
    ensures forall i, j :: 0 <= i < j < |flags| && flags[i].ReducerFlag? && flags[j].ReducerFlag? ==> flags[i].name == []
  {
    if flags != [] {
      var o' := match flags[0]
        case MapperFlag(n) => o.(mapper := n)
        case ReducerFlag(n) => o.(reducer := n)
        case QuietFlag => o.(verbose := false)
        case PortFlag(p) => o.(serverPort := ExtractPortNumber(p).value)
        case ConfigFlag(f) => o.(configFile := f)
        case MapOnlyFlag => o.(mapOnly := true)
        case UnknownFlag => o;
      assert ScanFlags(flags[1..], o').Success?;
      ScanFlagsOnce(flags[1..], o');
      forall j | 1 <= j < |flags| ensures flags[j] == flags[1..][j - 1] {
      }
    }
  }

  /** `confirmExecutablesAreExecutable`: the first of the four programs `access` refuses. */
  function FirstNotExecutable(names: seq<string>, env: Env): (r: Option<string>)
    ensures r.None? <==> forall i :: 0 <= i < |names| ==> names[i] in env.executables
    ensures r.Some? ==> r.value in names && r.value !in env.executables
  {
    if names == [] then None
    else if names[0] !in env.executables then Some(names[0])
    else FirstNotExecutable(names[1..], env)
  }

  /**
   * What `parseArgumentList` concludes from the options and the number of
   * operands left: the scanned options and the configuration read, or the
   * first error in the order the checks are made.
   */
  function Configure(flags: seq<Flag>, operands: nat, env: Env, o0: Options, cfg0: Config): Result<(Options, Config), ServerError> {
    var scan := ScanFlags(flags, o0);
    if scan.Failure? then Failure(scan.error) else Confirm(scan.value, operands, env, cfg0)
  }

  /** The checks `parseArgumentList` makes once the options are scanned. */
  function Confirm(o: Options, operands: nat, env: Env, cfg0: Config): Result<(Options, Config), ServerError> {
    if operands > 0 then Failure(TooManyArguments)
    else if o.mapper == [] then Failure(NoMapper)
    else if o.reducer == [] then Failure(NoReducer)
    else if o.configFile == [] then Failure(NoConfigFile)
    else if o.configFile !in env.files then Failure(ConfigUnopened(o.configFile))
    else
      var read := ReadConfig(env.files[o.configFile], cfg0, env);
      if read.Failure? then Failure(read.error)
      else
        var c := read.value;
        var missing := FirstNotExecutable([o.mapper, o.reducer, c.mapperExecutable, c.reducerExecutable], env);
        if missing.Some? then Failure(NotExecutable(missing.value)) else Success((o, c))
  }

  /**
   * A configuration that is accepted names a mapper and a reducer, all four
   * programs are executable, both worker counts lie in [1, 32], and neither
   * `--mapper` nor `--reducer` followed a non-empty one.
   */
  lemma ConfigureAccepted(flags: seq<Flag>, operands: nat, env: Env, o0: Options, cfg0: Config)
    requires Configure(flags, operands, env, o0, cfg0).Success?
    ensures var (o, c) := Configure(flags, operands, env, o0, cfg0).value;
      o.mapper != [] && o.reducer != [] && operands == 0 &&
      o.mapper in env.executables && o.reducer in env.executables &&
      c.mapperExecutable in env.executables && c.reducerExecutable in env.executables &&
      MIN_WORKERS <= c.numMappers <= MAX_WORKERS && MIN_WORKERS <= c.numReducers <= MAX_WORKERS
    ensures forall i, j :: 0 <= i < j < |flags| && flags[i].MapperFlag? && flags[j].MapperFlag? ==> flags[i].name == []
    ensures forall i, j :: 0 <= i < j < |flags| && flags[i].ReducerFlag? && flags[j].ReducerFlag? ==> flags[i].name == []
  {
    ScanFlagsOnce(flags, o0);
    var o := ScanFlags(flags, o0).value;
    ReadConfigOutcome(env.files[o.configFile], cfg0, env);
    var c := ReadConfig(env.files[o.configFile], cfg0, env).value;
    var names := [o.mapper, o.reducer, c.mapperExecutable, c.reducerExecutable];
    assert names[0] in env.executables && names[1] in env.executables;
    assert names[2] in env.executables && names[3] in env.executables;
  }

  /** The error a result carries, if any. */
  function ErrorOf<T>(r: Result<T, ServerError>): (e: Option<ServerError>)
    ensures e.None? <==> r.Success?
    ensures r.Failure? ==> e == Some(r.error)
  {
    if r.Failure? then Some(r.error) else None
  }

  // The server.

  /** The file patterns a reducer works on: the intermediate directory, a slash, a star, a dot, `i` zero-padded to five digits and ".mapped". */
  function ReducerPattern(intermediatePath: string, i: nat): string {
    intermediatePath + "/*." + PadDecimal(i, 5) + ".mapped"
  }

  /** Reducer patterns for different numbers differ. */
  lemma ReducerPatternsDistinct(dir: string, i: nat, j: nat)
    requires i != j
    ensures ReducerPattern(dir, i) != ReducerPattern(dir, j)
  {
    PatternNumber(dir, i);
    PatternNumber(dir, j);
  }

  /** The number a reducer pattern is made from, read back from between its fixed parts. */
  lemma PatternNumber(dir: string, i: nat)
    ensures |ReducerPattern(dir, i)| >= |dir| + 10
    ensures DecimalValue(ReducerPattern(dir, i)[|dir| + 3..|ReducerPattern(dir, i)| - 7]) == i
  {
    var p := ReducerPattern(dir, i);
    assert p[|dir| + 3..|p| - 7] == PadDecimal(i, 5);
    PadDecimalValue(i, 5);
  }

  /** Distinct, and none of them handed out twice. */
  predicate NoRepeats(q: seq<string>) {
    forall i, j :: 0 <= i < j < |q| ==> q[i] != q[j]
  }

  class MapReduceServer {
    var user: string
    var host: string
    var mapper: string
    var reducer: string
    var verbose: bool
    var serverPort: nat
    var mapOnly: bool
    var config: Config
    /** Patterns waiting to be handed to a worker, in order. */
    var unprocessed: seq<string>
    /** Patterns a worker is working on. */
    var inflight: set<string>

    /** Every pattern the server still has to see done, queued or out. */
    ghost function Pending(): multiset<string>
      reads this
    {
      multiset(unprocessed) + multiset(inflight)
    }

    /** Every member but the two pattern collections. */
    ghost function Settings(): (string, string, string, string, bool, nat, bool, Config)
      reads this
    {
      (user, host, mapper, reducer, verbose, serverPort, mapOnly, config)
    }

    /** No pattern is queued twice or both queued and out. */
    ghost predicate Distinct()
      reads this
    {
      NoRepeats(unprocessed) && forall i :: 0 <= i < |unprocessed| ==> unprocessed[i] !in inflight
    }

    /**
     * The members the constructor fills in before reading its arguments:
     * the port for "user@host" whose `hash<string>` is `hashValue`,
     * verbose on, map-only off, running nothing yet.
     */
    constructor(user: string, host: string, hashValue: nat)
      requires hashValue < SIZE_T_LIMIT
      ensures this.user == user && this.host == host && serverPort == DefaultPort(hashValue)
      ensures verbose && !mapOnly && mapper == [] && reducer == []
      ensures unprocessed == [] && inflight == {}
    {
      this.user := user;
      this.host := host;
      serverPort := DefaultPort(hashValue);
      verbose := true;
      mapOnly := false;
      mapper := [];
      reducer := [];
      config := Config([], [], 0, 0, [], [], []);
      unprocessed := [];
      inflight := {};
    }

    /**
     * `parseArgumentList`: the options scanned, then the checks of
     * `Configure`; the members are set when all of them pass.
     */
    method ParseArgumentList(flags: seq<Flag>, operands: nat, env: Env) returns (err: Option<ServerError>, ghost r: Result<(Options, Config), ServerError>)
      modifies this
      ensures unprocessed == old(unprocessed) && inflight == old(inflight) && user == old(user) && host == old(host)
      ensures r == Configure(flags, operands, env, Options(old(mapper), old(reducer), old(verbose), old(serverPort), [], old(mapOnly)), old(config))
      ensures r.Failure? ==> err == Some(r.error)
      ensures r.Success? ==> err.None? && config == r.value.1
      ensures r.Success? ==> Options(mapper, reducer, verbose, serverPort, r.value.0.configFile, mapOnly) == r.value.0
    {
      var outcome := ConfigureServer(flags, operands, env, Options(mapper, reducer, verbose, serverPort, [], mapOnly), config);
      r := outcome;
      Adopt(outcome);
      err := ErrorOf(outcome);
    }

    /** The members `parseArgumentList` sets once every check has passed. */
    method Adopt(outcome: Result<(Options, Config), ServerError>)
      modifies this
      ensures unprocessed == old(unprocessed) && inflight == old(inflight) && user == old(user) && host == old(host)
      ensures outcome.Failure? ==> mapper == old(mapper) && reducer == old(reducer) && verbose == old(verbose) && serverPort == old(serverPort) && mapOnly == old(mapOnly) && config == old(config)
      ensures outcome.Success? ==> config == outcome.value.1
      ensures outcome.Success? ==> Options(mapper, reducer, verbose, serverPort, outcome.value.0.configFile, mapOnly) == outcome.value.0
    {
      if outcome.Success? {
        var o := outcome.value.0;
        mapper, reducer, verbose, serverPort, mapOnly := o.mapper, o.reducer, o.verbose, o.serverPort, o.mapOnly;
        config := outcome.value.1;
      }
    }

    /** The checks of `parseArgumentList` in the order it makes them, the first that fails thrown. */
    static method ConfigureServer(flags: seq<Flag>, operands: nat, env: Env, o0: Options, cfg0: Config)
      returns (r: Result<(Options, Config), ServerError>)
      ensures r == Configure(flags, operands, env, o0, cfg0)
    {
      var scan := ScanArguments(flags, o0);
      if scan.Failure? {
        return Failure(scan.error);
      }
      var o := scan.value;
      if operands > 0 {
        return Failure(TooManyArguments);
      }
      if o.mapper == [] {
        return Failure(NoMapper);
      }
      if o.reducer == [] {
        return Failure(NoReducer);
      }
      if o.configFile == [] {
        return Failure(NoConfigFile);
      }
      if o.configFile !in env.files {
        return Failure(ConfigUnopened(o.configFile));
      }
      var read := InitializeFromConfigFile(env.files[o.configFile], cfg0, env);
      if read.Failure? {
        return Failure(read.error);
      }
      var missing := FirstNotExecutable([o.mapper, o.reducer, read.value.mapperExecutable, read.value.reducerExecutable], env);
      if missing.Some? {
        return Failure(NotExecutable(missing.value));
      }
      return Success((o, read.value));
    }

    /** The `getopt_long` loop of `parseArgumentList`, one option at a time. */
    static method ScanArguments(flags: seq<Flag>, o0: Options) returns (r: Result<Options, ServerError>)
      ensures r == ScanFlags(flags, o0)
    {
      var o := o0;
      var i := 0;
      while i < |flags|
        invariant i <= |flags|
        invariant ScanFlags(flags[i..], o) == ScanFlags(flags, o0)
      {
        assert flags[i..][1..] == flags[i + 1..];
        match flags[i] {
          case MapperFlag(n) =>
            if o.mapper != [] {
              return Failure(MapperTwice);
            }
            o := o.(mapper := n);
          case ReducerFlag(n) =>
            if o.reducer != [] {
              return Failure(ReducerTwice);
            }
            o := o.(reducer := n);
          case QuietFlag =>
            o := o.(verbose := false);
          case PortFlag(p) =>
            var port := ExtractPortNumber(p);
            if port.Failure? {
              return Failure(port.error);
            }
            o := o.(serverPort := port.value);
          case ConfigFlag(f) =>
            o := o.(configFile := f);
          case MapOnlyFlag =>
            o := o.(mapOnly := true);
          case UnknownFlag =>
            return Failure(BadFlag);
        }
        i := i + 1;
      }
      return Success(o);
    }

    /**
     * `initializeFromConfigFile` on the text of the file: the key loop,
     * tracking the keys supplied so far.
     */
    static method InitializeFromConfigFile(text: string, cfg0: Config, env: Env) returns (r: Result<Config, ServerError>)
      ensures r == ReadConfig(text, cfg0, env)
      ensures r.Success? ==> MIN_WORKERS <= r.value.numMappers <= MAX_WORKERS && MIN_WORKERS <= r.value.numReducers <= MAX_WORKERS
    {
      ReadConfigOutcome(text, cfg0, env);
      var suppliedKeys: set<string> := {};
      var cfg := cfg0;
      var pos := 0;
      while true
        invariant pos <= |text|
        invariant KeyLoop(text, pos, suppliedKeys, cfg, env) == KeyLoop(text, 0, {}, cfg0, env)
        decreases |text| - pos
      {
        var k := GetLineDelim(text, pos, ' ');
        if k.failed {
          break;
        }
        var key := Trim(k.text);
        if key == [] {
          pos := k.next;
          continue;
        }
        if key !in CONFIG_KEYS {
          return Failure(KeyUnrecognized(key));
        }
        if key in suppliedKeys {
          return Failure(KeyRepeated(key));
        }
        suppliedKeys := suppliedKeys + {key};
        var v := GetLine(text, k.next);
        var applied := ApplyToServer(cfg, key, Trim(v.text), env);
        if applied.Failure? {
          return Failure(applied.error);
        }
        cfg := applied.value;
        pos := v.next;
      }
      if suppliedKeys != CONFIG_KEYS {
        return Failure(KeysMissing);
      }
      return Success(cfg);
    }

    /**
     * `surfaceNextFilePattern`: false on an empty queue, which stays as it
     * is; otherwise the front pattern, moved from the queue to the patterns
     * out for processing.
     */
    method SurfaceNextFilePattern() returns (ok: bool, pattern: string)
      modifies this
      ensures ok <==> old(unprocessed) != []
      ensures !ok ==> unprocessed == old(unprocessed) && inflight == old(inflight)
      ensures ok ==> pattern == old(unprocessed)[0] && unprocessed == old(unprocessed)[1..]
      ensures ok ==> inflight == old(inflight) + {pattern}
      ensures Settings() == old(Settings())
      ensures old(Distinct()) ==> Distinct() && Pending() == old(Pending())
    {
      if |unprocessed| == 0 {
        return false, [];
      }
      pattern := unprocessed[0];
      if Distinct() {
        PendingPop(unprocessed, inflight);
      }
      unprocessed := unprocessed[1..];
      inflight := inflight + {pattern};
      return true, pattern;
    }

    /** `markFilePatternAsProcessed`: the pattern is no longer out; the queue is untouched. */
    method MarkFilePatternAsProcessed(pattern: string)
      modifies this
      ensures inflight == old(inflight) - {pattern} && unprocessed == old(unprocessed)
      ensures Settings() == old(Settings())
      ensures old(Distinct()) ==> Distinct()
    {
      inflight := inflight - {pattern};
    }

    /** `rescheduleFilePattern`: the pattern moved from the patterns out to the back of the queue. */
    method RescheduleFilePattern(pattern: string)
      modifies this
      ensures inflight == old(inflight) - {pattern} && unprocessed == old(unprocessed) + [pattern]
      ensures Settings() == old(Settings())
      ensures old(Distinct()) && pattern in old(inflight) ==> Distinct() && Pending() == old(Pending())
    {
      if Distinct() && pattern in inflight {
        PendingPush(unprocessed, inflight, pattern);
      }
      inflight := inflight - {pattern};
      unprocessed := unprocessed + [pattern];
    }

    /** The queue `spawnReducers` sets up: one pattern per mapper and reducer pair, in order. */
    method StageReducerPatterns()
      modifies this
      ensures |unprocessed| == config.numMappers * config.numReducers
      ensures forall i :: 0 <= i < |unprocessed| ==> unprocessed[i] == ReducerPattern(config.intermediatePath, i)
      ensures NoRepeats(unprocessed)
      ensures inflight == old(inflight) && Settings() == old(Settings())
    {
      var q := ReducerQueue(config.intermediatePath, config.numMappers * config.numReducers);
      unprocessed := q;
    }
  }

  /** The patterns for `0..n`, built one at a time. */
  method ReducerQueue(dir: string, n: nat) returns (q: seq<string>)
    ensures |q| == n && NoRepeats(q)
    ensures forall i :: 0 <= i < n ==> q[i] == ReducerPattern(dir, i)
  {
    q := [];
    var i := 0;
    while i < n
      invariant i <= n && |q| == i
      invariant forall k :: 0 <= k < i ==> q[k] == ReducerPattern(dir, k)
    {
      q := q + [ReducerPattern(dir, i)];
      i := i + 1;
    }
    forall a, b | 0 <= a < b < |q| ensures q[a] != q[b] {
      ReducerPatternsDistinct(dir, a, b);
    }
  }

  lemma PendingPop(q: seq<string>, out: set<string>)
    requires q != [] && NoRepeats(q) && forall i :: 0 <= i < |q| ==> q[i] !in out
    ensures multiset(q[1..]) + multiset(out + {q[0]}) == multiset(q) + multiset(out)
    ensures NoRepeats(q[1..]) && forall i :: 0 <= i < |q[1..]| ==> q[1..][i] !in out + {q[0]}
  {
    assert q == [q[0]] + q[1..];
    assert multiset(out + {q[0]}) == multiset(out) + multiset{q[0]};
    forall i | 0 <= i < |q[1..]| ensures q[1..][i] == q[i + 1] {
    }
  }

  lemma PendingPush(q: seq<string>, out: set<string>, p: string)
    requires p in out && NoRepeats(q) && forall i :: 0 <= i < |q| ==> q[i] !in out
    ensures multiset(q + [p]) + multiset(out - {p}) == multiset(q) + multiset(out)
    ensures NoRepeats(q + [p]) && forall i :: 0 <= i < |q + [p]| ==> (q + [p])[i] !in out - {p}
  {
    assert out == (out - {p}) + {p};
    assert multiset(out) == multiset(out - {p}) + multiset{p};
    forall i | 0 <= i < |q| ensures (q + [p])[i] == q[i] && q[i] != p {
    }
  }
}
