/**
 * Start-up validation (setup in main.go): loading module definitions from
 * the configuration directories, resolving the bearer token, cleaning and
 * checking the proxy and telemetry paths, and the discovery defaults; and the
 * handler registrations main makes with the paths setup returns.
 */
module Setup {
  import opened Wrappers
  import opened TextUtil
  import opened Dispatch

  // ---------------------------------------------------------------------
  // Configuration directories

  /**
   * One entry of ioutil.ReadDir, with what os.Open (an error, if it fails)
   * and readModuleConfig would return for it.
   */
  datatype Entry = Entry(name: string, isDir: bool, openError: Option<string>, parsed: Result<ModuleConfig>)

  /** ioutil.ReadDir of a -config.dirs entry: its entries, or an error that is or is not "does not exist". */
  datatype Listing = Listed(entries: seq<Entry>) | NotExist(err: string) | Unreadable(err: string)

  datatype ConfigDir = ConfigDir(path: string, listing: Listing)

  /** An entry setup reads: a file whose extension is ".yml" or ".yaml". */
  predicate IsYamlFile(e: Entry)
  {
    !e.isDir && (Ext(e.name) == ".yml" || Ext(e.name) == ".yaml")
  }

  /** filepath.Join of a directory and an entry name (the cleaning Join also does is not modelled). */
  function FullPath(dir: string, name: string): string
  {
    dir + "/" + name
  }

  function AlreadyDefined(mn: string): string
  {
    "module " + mn + " is already defined"
  }

  function OpenFailed(path: string, err: string): string
  {
    "failed to open config file " + path + ", " + err
  }

  function ReadFailed(path: string, err: string): string
  {
    "failed reading configs " + path + ", " + err
  }

  function DirFailed(path: string, err: string): string
  {
    "failed reading directory: " + path + ", " + err
  }

  /**
   * One entry of a directory: skipped unless it is a yaml file; otherwise the
   * module it names must not be registered yet, and the file must open and
   * parse.
   */
  function LoadEntry(mods: map<string, ModuleConfig>, dir: string, e: Entry): (r: Result<map<string, ModuleConfig>>)
    ensures !IsYamlFile(e) ==> r == Ok(mods)
    ensures IsYamlFile(e) && ModuleName(e.name) in mods ==> r == Err(AlreadyDefined(ModuleName(e.name)))
    ensures IsYamlFile(e) && r.Ok? ==>
      ModuleName(e.name) !in mods && e.parsed.Ok? && r.value == mods[ModuleName(e.name) := e.parsed.value]
    ensures IsYamlFile(e) && ModuleName(e.name) !in mods && e.openError.None? && e.parsed.Ok? ==> r.Ok?
  {
    if !IsYamlFile(e) then Ok(mods)
    else
      var mn := ModuleName(e.name);
      if mn in mods then Err(AlreadyDefined(mn))
      else if e.openError.Some? then Err(OpenFailed(FullPath(dir, e.name), e.openError.value))
      else if e.parsed.Err? then Err(ReadFailed(FullPath(dir, e.name), e.parsed.error))
      else Ok(mods[mn := e.parsed.value])
  }

  /** The entries of one directory, in order, up to the first that fails. */
  function LoadEntries(mods: map<string, ModuleConfig>, dir: string, es: seq<Entry>): Result<map<string, ModuleConfig>>
    decreases |es|
  {
    if es == [] then Ok(mods)
    else match LoadEntry(mods, dir, es[0])
      case Err(err) => Err(err)
      case Ok(m) => LoadEntries(m, dir, es[1..])
  }

  /** The -config.dirs entries in order; a missing directory is skipped only with -config.skip-dirs. */
  function LoadDirs(mods: map<string, ModuleConfig>, dirs: seq<ConfigDir>, skipDirs: bool): Result<map<string, ModuleConfig>>
    decreases |dirs|
  {
    if dirs == [] then Ok(mods)
    else
      var d := dirs[0];
      match d.listing
      case NotExist(err) =>
        if skipDirs then LoadDirs(mods, dirs[1..], skipDirs)
        else Err(DirFailed(d.path, err))
      case Unreadable(err) => Err(DirFailed(d.path, err))
      case Listed(es) =>
        match LoadEntries(mods, d.path, es)
        case Err(e) => Err(e)
        case Ok(m) => LoadDirs(m, dirs[1..], skipDirs)
  }

  /** The entry loop of setup for one directory. */
  method LoadDirEntries(mods0: map<string, ModuleConfig>, dir: string, es: seq<Entry>) returns (r: Result<map<string, ModuleConfig>>)
    ensures r == LoadEntries(mods0, dir, es)
  {
    var mods := mods0;
    var j := 0;
    while j < |es|
      invariant 0 <= j <= |es|
      invariant LoadEntries(mods, dir, es[j..]) == LoadEntries(mods0, dir, es)
    {
      var e := es[j];
      assert es[j..][1..] == es[j + 1..];
      if IsYamlFile(e) {
        var mn := ModuleName(e.name);
        if mn in mods {
          return Err(AlreadyDefined(mn));
        }
        if e.openError.Some? {
          return Err(OpenFailed(FullPath(dir, e.name), e.openError.value));
        }
        if e.parsed.Err? {
          return Err(ReadFailed(FullPath(dir, e.name), e.parsed.error));
        }
        mods := mods[mn := e.parsed.value];
      }
      j := j + 1;
    }
    return Ok(mods);
  }

  /** The directory loop of setup: the module registry after every -config.dirs entry, or the first error. */
  method LoadConfigDirs(mods0: map<string, ModuleConfig>, dirs: seq<ConfigDir>, skipDirs: bool)
    returns (r: Result<map<string, ModuleConfig>>)
    ensures r == LoadDirs(mods0, dirs, skipDirs)
  {
    var mods := mods0;
    var i := 0;
    while i < |dirs|
      invariant 0 <= i <= |dirs|
      invariant LoadDirs(mods, dirs[i..], skipDirs) == LoadDirs(mods0, dirs, skipDirs)
    {
      var d := dirs[i];
      assert dirs[i..][1..] == dirs[i + 1..];
      match d.listing {
        case NotExist(err) =>
          if !skipDirs {
            return Err(DirFailed(d.path, err));
          }
        case Unreadable(err) =>
          return Err(DirFailed(d.path, err));
        case Listed(es) =>
          var loaded := LoadDirEntries(mods, d.path, es);
          if loaded.Err? {
            return Err(loaded.error);
          }
          mods := loaded.value;
      }
      i := i + 1;
    }
    return Ok(mods);
  }

  /** Loading never replaces a module that is already registered. */
  lemma {:induction false} LoadEntriesKeeps(mods: map<string, ModuleConfig>, dir: string, es: seq<Entry>)
    requires LoadEntries(mods, dir, es).Ok?
    ensures var r := LoadEntries(mods, dir, es).value;
      mods.Keys <= r.Keys && forall k :: k in mods ==> r[k] == mods[k]
    decreases |es|
  {
    if es != [] {
      LoadEntriesKeeps(LoadEntry(mods, dir, es[0]).value, dir, es[1..]);
    }
  }

  /** Loading a directory is loading its first entry, then the rest. */
  lemma LoadEntriesStep(mods: map<string, ModuleConfig>, dir: string, es: seq<Entry>)
    requires es != []
    ensures LoadEntry(mods, dir, es[0]).Err? ==> LoadEntries(mods, dir, es).Err?
    ensures LoadEntry(mods, dir, es[0]).Ok? ==>
      LoadEntries(mods, dir, es) == LoadEntries(LoadEntry(mods, dir, es[0]).value, dir, es[1..])
  {
  }

  /** A yaml file naming an already registered module makes loading fail. */
  lemma {:induction false} RegisteredNameRejected(mods: map<string, ModuleConfig>, dir: string, es: seq<Entry>, i: nat)
    requires i < |es| && IsYamlFile(es[i]) && ModuleName(es[i].name) in mods
    ensures LoadEntries(mods, dir, es).Err?
    decreases |es|
  {
    var step := LoadEntry(mods, dir, es[0]);
    LoadEntriesStep(mods, dir, es);
    if i > 0 && step.Ok? {
      assert es[1..][i - 1] == es[i];
      assert mods.Keys <= step.value.Keys;
      RegisteredNameRejected(step.value, dir, es[1..], i - 1);
    }
  }

  /** After a successful load every yaml file's module is registered with the definition read from it. */
  lemma {:induction false} YamlFilesRegistered(mods: map<string, ModuleConfig>, dir: string, es: seq<Entry>, i: nat)
    requires i < |es| && IsYamlFile(es[i]) && LoadEntries(mods, dir, es).Ok?
    ensures var r := LoadEntries(mods, dir, es).value;
      es[i].parsed.Ok? && ModuleName(es[i].name) in r && r[ModuleName(es[i].name)] == es[i].parsed.value
    decreases |es|
  {
    var step := LoadEntry(mods, dir, es[0]);
    if i == 0 {
      LoadEntriesKeeps(step.value, dir, es[1..]);
    } else {
      assert es[1..][i - 1] == es[i];
      YamlFilesRegistered(step.value, dir, es[1..], i - 1);
    }
  }

  /** Loading a directory is loading a prefix of its entries, then the rest. */
  lemma {:induction false} LoadEntriesSplit(mods: map<string, ModuleConfig>, dir: string, es: seq<Entry>, n: nat)
    requires n <= |es|
    ensures LoadEntries(mods, dir, es[..n]).Err? ==> LoadEntries(mods, dir, es).Err?
    ensures LoadEntries(mods, dir, es[..n]).Ok? ==>
      LoadEntries(mods, dir, es) == LoadEntries(LoadEntries(mods, dir, es[..n]).value, dir, es[n..])
    decreases n
  {
    if n > 0 {
      LoadEntriesStep(mods, dir, es);
      LoadEntriesStep(mods, dir, es[..n]);
      assert es[..n][0] == es[0] && es[..n][1..] == es[1..][..n - 1];
      assert es[1..][n - 1..] == es[n..];
      var step := LoadEntry(mods, dir, es[0]);
      if step.Ok? {
        LoadEntriesSplit(step.value, dir, es[1..], n - 1);
      }
    }
  }

  /** Two yaml files of one directory that define the same module make loading fail. */
  lemma DuplicateNameRejected(mods: map<string, ModuleConfig>, dir: string, es: seq<Entry>, i: nat, j: nat)
    requires i < j < |es| && IsYamlFile(es[i]) && IsYamlFile(es[j])
    requires ModuleName(es[i].name) == ModuleName(es[j].name)
    ensures LoadEntries(mods, dir, es).Err?
  {
    LoadEntriesSplit(mods, dir, es, j);
    var before := LoadEntries(mods, dir, es[..j]);
    if before.Ok? {
      assert es[..j][i] == es[i];
      YamlFilesRegistered(mods, dir, es[..j], i);
      assert es[j..][0] == es[j];
      RegisteredNameRejected(before.value, dir, es[j..], 0);
    }
  }

  /** The yaml files among es, in order. */
  function YamlFiles(es: seq<Entry>): (r: seq<Entry>)
    ensures forall i :: 0 <= i < |r| ==> IsYamlFile(r[i])
    ensures forall e :: e in r <==> e in es && IsYamlFile(e)
    ensures |r| <= |es|
  {
    if es == [] then [] else if IsYamlFile(es[0]) then [es[0]] + YamlFiles(es[1..]) else YamlFiles(es[1..])
  }

  /** Directories and files without a yaml extension have no effect on loading. */
  lemma {:induction false} OnlyYamlFilesMatter(mods: map<string, ModuleConfig>, dir: string, es: seq<Entry>)
    ensures LoadEntries(mods, dir, es) == LoadEntries(mods, dir, YamlFiles(es))
    decreases |es|
  {
    if es != [] {
      var e := es[0];
      if IsYamlFile(e) {
        var ys := [e] + YamlFiles(es[1..]);
        assert ys[0] == e && ys[1..] == YamlFiles(es[1..]);
        var step := LoadEntry(mods, dir, e);
        if step.Ok? {
          OnlyYamlFilesMatter(step.value, dir, es[1..]);
        }
      } else {
        OnlyYamlFilesMatter(mods, dir, es[1..]);
      }
    }
  }

  /** Loading the directories never replaces a module that is already registered. */
  lemma {:induction false} LoadDirsKeeps(mods: map<string, ModuleConfig>, dirs: seq<ConfigDir>, skipDirs: bool)
    requires LoadDirs(mods, dirs, skipDirs).Ok?
    ensures var r := LoadDirs(mods, dirs, skipDirs).value;
      mods.Keys <= r.Keys && forall k :: k in mods ==> r[k] == mods[k]
    decreases |dirs|
  {
    if dirs != [] {
      match dirs[0].listing
      case NotExist(_) => LoadDirsKeeps(mods, dirs[1..], skipDirs);
      case Unreadable(_) =>
      case Listed(es) =>
        LoadEntriesKeeps(mods, dirs[0].path, es);
        LoadDirsKeeps(LoadEntries(mods, dirs[0].path, es).value, dirs[1..], skipDirs);
    }
  }

  // ---------------------------------------------------------------------
  // Bearer token

  const TokenExclusive := "web.bearer.token and web.bearer.token-file are mutually exclusive options"
  const EmptyTokenFile := "token file should not be empty"

  /**
   * The bearer token setup settles on: the -web.bearer.token flag, or the
   * trimmed contents of -web.bearer.token-file (read gives ioutil.ReadFile's
   * result), never both; current is the token before either flag applies.
   */
  function ResolveBearerToken(current: string, token: string, tokenFile: string, read: Result<string>): (r: Result<string>)
    ensures token != "" && tokenFile != "" ==> r == Err(TokenExclusive)
    ensures tokenFile == "" ==> r == Ok(if token != "" then token else current)
    ensures tokenFile != "" && token == "" && read.Err? ==>
      r == Err("failed reading bearer file " + tokenFile + ", " + read.error)
    ensures tokenFile != "" && token == "" && read.Ok? ==>
      && (r.Ok? <==> !AllSpace(read.value))
      && (r.Err? ==> r.error == EmptyTokenFile)
      && (r.Ok? ==> r.value == TrimSpace(read.value) && r.value != "" && !IsSpace(r.value[0]) && !IsSpace(r.value[|r.value| - 1]))
  {
    var t := if token != "" then token else current;
    if tokenFile == "" then Ok(t)
    else if token != "" then Err(TokenExclusive)
    else if read.Err? then Err("failed reading bearer file " + tokenFile + ", " + read.error)
    else
      var trimmed := TrimSpace(read.value);
      if |trimmed| == 0 then Err(EmptyTokenFile) else Ok(trimmed)
  }

  // ---------------------------------------------------------------------
  // Proxy and telemetry paths

  const PathCollision := "flags -web.proxy-path and -web.telemetry-path can not be set to the same value"
  const RootPath := "flags -web.proxy-path and -web.telemetry-path can not be set to /"

  /**
   * http.HandleFunc/http.Handle on the default ServeMux, in turn: the set of
   * registered patterns, or the first pattern registered twice (the
   * registration panics).
   */
  function RegisterAll(patterns: seq<string>): (r: Result<set<string>>)
    ensures r.Ok? <==> forall i, j :: 0 <= i < j < |patterns| ==> patterns[i] != patterns[j]
    ensures r.Ok? ==> r.value == set p | p in patterns
  {
    if patterns == [] then Ok({})
    else match RegisterAll(patterns[..|patterns| - 1])
      case Err(e) => Err(e)
      case Ok(mux) =>
        var p := patterns[|patterns| - 1];
        assert forall q :: q in patterns[..|patterns| - 1] <==> q in mux;
        if p in mux then
          var i :| 0 <= i < |patterns| - 1 && patterns[i] == p;
          Err("multiple registrations for " + p)
        else
          assert forall q :: q in patterns <==> q in patterns[..|patterns| - 1] || q == p;
          Ok(mux + {p})
  }

  /** The patterns main registers: the proxy path, the module index at "/", then the telemetry path. */
  function Registrations(proxyPath: string, telemetryPath: string): seq<string>
  {
    [proxyPath, "/", telemetryPath]
  }

  /** The path check of setup as written: only a clash between the two cleaned paths is refused. */
  function CheckPathsAsWritten(proxyFlag: string, telemetryFlag: string): (r: Result<(string, string)>)
    ensures r.Ok? <==> CleanRooted(proxyFlag) != CleanRooted(telemetryFlag)
    ensures r.Ok? ==> r.value == (CleanRooted(proxyFlag), CleanRooted(telemetryFlag))
    ensures r.Err? ==> r.error == PathCollision
  {
    var proxyPath, telemetryPath := CleanRooted(proxyFlag), CleanRooted(telemetryFlag);
    if proxyPath == telemetryPath then Err(PathCollision) else Ok((proxyPath, telemetryPath))
  }

  /** -web.proxy-path=/ passes the as-written check, and then registering the module index at "/" panics. */
  lemma RootProxyPathPassesAsWritten()
    ensures CheckPathsAsWritten("/", "/metrics").Ok?
    ensures RegisterAll(Registrations(CheckPathsAsWritten("/", "/metrics").value.0,
                                      CheckPathsAsWritten("/", "/metrics").value.1)).Err?
  {
    CleanRoot();
    CleanDefaultPaths();
  }

  /** The path check of setup, refusing also the paths that collide with the module index. */
  function CheckPaths(proxyFlag: string, telemetryFlag: string): (r: Result<(string, string)>)
    ensures r.Ok? ==> r.value == (CleanRooted(proxyFlag), CleanRooted(telemetryFlag))
    ensures CleanRooted(proxyFlag) == CleanRooted(telemetryFlag) ==> r == Err(PathCollision)
    ensures r.Ok? <==> RegisterAll(Registrations(CleanRooted(proxyFlag), CleanRooted(telemetryFlag))).Ok?
  {
    var proxyPath, telemetryPath := CleanRooted(proxyFlag), CleanRooted(telemetryFlag);
    var regs := Registrations(proxyPath, telemetryPath);
    assert regs[0] == proxyPath && regs[1] == "/" && regs[2] == telemetryPath;
    if proxyPath == telemetryPath then Err(PathCollision)
    else if proxyPath == "/" || telemetryPath == "/" then Err(RootPath)
    else Ok((proxyPath, telemetryPath))
  }

  /**
   * The corrected check passes exactly what setup's check passes and the
   * registrations of main then accept, with the same cleaned paths.
   */
  lemma CheckPathsRefinesAsWritten(proxyFlag: string, telemetryFlag: string)
    ensures CheckPaths(proxyFlag, telemetryFlag).Ok? <==>
      CheckPathsAsWritten(proxyFlag, telemetryFlag).Ok? &&
      RegisterAll(Registrations(CleanRooted(proxyFlag), CleanRooted(telemetryFlag))).Ok?
    ensures CheckPaths(proxyFlag, telemetryFlag).Ok? ==>
      CheckPaths(proxyFlag, telemetryFlag) == CheckPathsAsWritten(proxyFlag, telemetryFlag)
  {
  }

  /** Setting both paths to the same place, however spelt, is refused. */
  lemma SamePathRefused()
    ensures CheckPaths("proxy", "/proxy") == Err(PathCollision)
  {
    CleanCanonical(["proxy"]);
    assert JoinSlash(["proxy"]) == "proxy";
    CleanDefaultPaths();
  }

  // ---------------------------------------------------------------------
  // setup

  /** The discovery block of the configuration file. */
  datatype Discovery = Discovery(enabled: bool, address: string, interval: string)

  /** What readConfig yields for -config.file. */
  datatype FileConfig = FileConfig(modules: map<string, ModuleConfig>, discovery: Option<Discovery>)

  /** The flags setup reads. */
  datatype SetupFlags = SetupFlags(
    configFile: string,
    skipDirs: bool,
    bearerToken: string,
    bearerTokenFile: string,
    proxyPath: string,
    telemetryPath: string)

  /** What setup returns: the handler configuration, the discovery settings and the parsed interval. */
  datatype Gateway = Gateway(config: Config, discovery: Discovery, interval: int)

  /** The modules setup starts from: those of -config.file, if one is named. */
  function InitialModules(f: SetupFlags, file: Result<FileConfig>): map<string, ModuleConfig>
  {
    if f.configFile != "" && file.Ok? then file.value.modules else map[]
  }

  /** The discovery settings with the defaults of setup filled in. */
  function DiscoveryDefaults(f: SetupFlags, file: Result<FileConfig>): (d: Discovery)
    ensures d.address != "" && d.interval != ""
    ensures f.configFile != "" && file.Ok? && file.value.discovery.Some? ==>
      d.enabled == file.value.discovery.value.enabled
  {
    var d := if f.configFile != "" && file.Ok? && file.value.discovery.Some? then file.value.discovery.value
             else Discovery(false, "", "");
    var d := if d.address == "" then d.(address := "localhost") else d;
    if d.interval == "" then d.(interval := "5m") else d
  }

  /**
   * setup. file is opening and parsing -config.file, dirs the -config.dirs
   * entries with their contents, tokenRead the contents of
   * -web.bearer.token-file, and parseDuration time.ParseDuration. The path
   * check is the one setup makes, CheckPathsAsWritten: paths that pass it
   * can still fail to register (RootProxyPathPassesAsWritten), which
   * CheckPaths would refuse.
   */
  method RunSetup(f: SetupFlags, file: Result<FileConfig>, dirs: seq<ConfigDir>, tokenRead: Result<string>,
                  parseDuration: string -> Result<int>) returns (r: Result<Gateway>)
    ensures r.Ok? <==>
      && (f.configFile != "" ==> file.Ok?)
      && LoadDirs(InitialModules(f, file), dirs, f.skipDirs).Ok?
      && ResolveBearerToken("", f.bearerToken, f.bearerTokenFile, tokenRead).Ok?
      && CheckPathsAsWritten(f.proxyPath, f.telemetryPath).Ok?
      && parseDuration(DiscoveryDefaults(f, file).interval).Ok?
    ensures r.Ok? ==>
      var g := r.value;
      && g.config.modules == LoadDirs(InitialModules(f, file), dirs, f.skipDirs).value
      && g.config.bearerToken == ResolveBearerToken("", f.bearerToken, f.bearerTokenFile, tokenRead).value
      && g.config.proxyPath == CleanRooted(f.proxyPath)
      && g.config.telemetryPath == CleanRooted(f.telemetryPath)
      && g.config.proxyPath != g.config.telemetryPath
      && g.discovery == DiscoveryDefaults(f, file)
      && g.interval == parseDuration(g.discovery.interval).value
  {
    var modules: map<string, ModuleConfig> := map[];
    var discovery: Option<Discovery> := None;
    if f.configFile != "" {
      if file.Err? {
        return Err(file.error);
      }
      modules := file.value.modules;
      discovery := file.value.discovery;
    }

    var loaded := LoadConfigDirs(modules, dirs, f.skipDirs);
    if loaded.Err? {
      return Err(loaded.error);
    }
    modules := loaded.value;

    var token := ReadBearerToken(f, tokenRead);
    if token.Err? {
      return Err(token.error);
    }

    var paths := CheckPathsAsWritten(f.proxyPath, f.telemetryPath);
    if paths.Err? {
      return Err(paths.error);
    }
    var (proxyPath, telemetryPath) := paths.value;

    var disc := FillDiscovery(discovery);
    assert disc == DiscoveryDefaults(f, file);
    var dur := parseDuration(disc.interval);
    if dur.Err? {
      return Err(dur.error);
    }
    return Ok(Gateway(Config(modules, proxyPath, telemetryPath, token.value), disc, dur.value));
  }

  /** The discovery defaulting steps of setup, on the discovery section the configuration file gave. */
  method FillDiscovery(discovery: Option<Discovery>) returns (d: Discovery)
    ensures var given := if discovery.Some? then discovery.value else Discovery(false, "", "");
      && d.enabled == given.enabled
      && d.address == (if given.address == "" then "localhost" else given.address)
      && d.interval == (if given.interval == "" then "5m" else given.interval)
  {
    d := if discovery.Some? then discovery.value else Discovery(false, "", "");
    if d.address == "" {
      d := d.(address := "localhost");
    }
    if d.interval == "" {
      d := d.(interval := "5m");
    }
  }

  /** The bearer-token steps of setup, starting from no token. */
  method ReadBearerToken(f: SetupFlags, tokenRead: Result<string>) returns (r: Result<string>)
    ensures r == ResolveBearerToken("", f.bearerToken, f.bearerTokenFile, tokenRead)
  {
    var token := "";
    if f.bearerToken != "" {
      token := f.bearerToken;
    }
    if f.bearerTokenFile != "" {
      if f.bearerToken != "" {
        return Err(TokenExclusive);
      }
      if tokenRead.Err? {
        return Err("failed reading bearer file " + f.bearerTokenFile + ", " + tokenRead.error);
      }
      var t := TrimSpace(tokenRead.value);
      if |t| == 0 {
        return Err(EmptyTokenFile);
      }
      token := t;
    }
    return Ok(token);
  }

  /** Each refusal of setup: paths that clash, both token flags, a blank token file, a module defined twice. */
  lemma SetupRefusals(f: SetupFlags, file: Result<FileConfig>, dirs: seq<ConfigDir>, tokenRead: Result<string>)
    ensures CleanRooted(f.proxyPath) == CleanRooted(f.telemetryPath) ==>
      CheckPathsAsWritten(f.proxyPath, f.telemetryPath) == Err(PathCollision)
    ensures f.bearerToken != "" && f.bearerTokenFile != "" ==>
      ResolveBearerToken("", f.bearerToken, f.bearerTokenFile, tokenRead).Err?
    ensures f.bearerToken == "" && f.bearerTokenFile != "" && tokenRead.Ok? && AllSpace(tokenRead.value) ==>
      ResolveBearerToken("", f.bearerToken, f.bearerTokenFile, tokenRead) == Err(EmptyTokenFile)
    ensures forall d, i ::
      (0 <= d < |dirs| && dirs[d].listing.Listed? && 0 <= i < |dirs[d].listing.entries|
       && IsYamlFile(dirs[d].listing.entries[i])
       && ModuleName(dirs[d].listing.entries[i].name) in InitialModules(f, file))
      ==> LoadDirs(InitialModules(f, file), dirs, f.skipDirs).Err?
    ensures forall d1, i, d2, j ::
      (0 <= d1 < d2 < |dirs| && dirs[d1].listing.Listed? && dirs[d2].listing.Listed?
       && 0 <= i < |dirs[d1].listing.entries| && 0 <= j < |dirs[d2].listing.entries|
       && IsYamlFile(dirs[d1].listing.entries[i]) && IsYamlFile(dirs[d2].listing.entries[j])
       && ModuleName(dirs[d1].listing.entries[i].name) == ModuleName(dirs[d2].listing.entries[j].name))
      ==> LoadDirs(InitialModules(f, file), dirs, f.skipDirs).Err?
  {
    forall d, i | 0 <= d < |dirs| && dirs[d].listing.Listed? && 0 <= i < |dirs[d].listing.entries|
      && IsYamlFile(dirs[d].listing.entries[i])
      && ModuleName(dirs[d].listing.entries[i].name) in InitialModules(f, file)
      ensures LoadDirs(InitialModules(f, file), dirs, f.skipDirs).Err?
    {
      RegisteredInDirsRejected(InitialModules(f, file), dirs, f.skipDirs, d, i);
    }
    forall d1, i, d2, j | 0 <= d1 < d2 < |dirs| && dirs[d1].listing.Listed? && dirs[d2].listing.Listed?
      && 0 <= i < |dirs[d1].listing.entries| && 0 <= j < |dirs[d2].listing.entries|
      && IsYamlFile(dirs[d1].listing.entries[i]) && IsYamlFile(dirs[d2].listing.entries[j])
      && ModuleName(dirs[d1].listing.entries[i].name) == ModuleName(dirs[d2].listing.entries[j].name)
      ensures LoadDirs(InitialModules(f, file), dirs, f.skipDirs).Err?
    {
      DuplicateAcrossDirsRejected(InitialModules(f, file), dirs, f.skipDirs, d1, i, d2, j);
    }
  }

  /** A yaml file in any directory naming a module registered before loading makes loading fail. */
  lemma {:induction false} RegisteredInDirsRejected(mods: map<string, ModuleConfig>, dirs: seq<ConfigDir>, skipDirs: bool, d: nat, i: nat)
    requires d < |dirs| && dirs[d].listing.Listed? && i < |dirs[d].listing.entries|
    requires IsYamlFile(dirs[d].listing.entries[i]) && ModuleName(dirs[d].listing.entries[i].name) in mods
    ensures LoadDirs(mods, dirs, skipDirs).Err?
    decreases |dirs|
  {
    if d == 0 {
      RegisteredNameRejected(mods, dirs[0].path, dirs[0].listing.entries, i);
    } else {
      assert dirs[1..][d - 1] == dirs[d];
      match dirs[0].listing
      case NotExist(_) =>
        if skipDirs { RegisteredInDirsRejected(mods, dirs[1..], skipDirs, d - 1, i); }
      case Unreadable(_) =>
      case Listed(es) =>
        if LoadEntries(mods, dirs[0].path, es).Ok? {
          LoadEntriesKeeps(mods, dirs[0].path, es);
          RegisteredInDirsRejected(LoadEntries(mods, dirs[0].path, es).value, dirs[1..], skipDirs, d - 1, i);
        }
    }
  }

  /** Loading the directories in two runs: a failure of the first part fails the whole, otherwise the rest starts from its result. */
  lemma {:induction false} LoadDirsSplit(mods: map<string, ModuleConfig>, dirs: seq<ConfigDir>, skipDirs: bool, n: nat)
    requires n <= |dirs|
    ensures LoadDirs(mods, dirs[..n], skipDirs).Err? ==> LoadDirs(mods, dirs, skipDirs).Err?
    ensures LoadDirs(mods, dirs[..n], skipDirs).Ok? ==>
      LoadDirs(mods, dirs, skipDirs) == LoadDirs(LoadDirs(mods, dirs[..n], skipDirs).value, dirs[n..], skipDirs)
    decreases n
  {
    if n == 0 {
      assert dirs[..0] == [] && dirs[0..] == dirs;
    } else {
      assert dirs[..n][0] == dirs[0] && dirs[..n][1..] == dirs[1..][..n - 1];
      assert dirs[1..][n - 1..] == dirs[n..];
      match dirs[0].listing
      case NotExist(_) =>
        if skipDirs { LoadDirsSplit(mods, dirs[1..], skipDirs, n - 1); }
      case Unreadable(_) =>
      case Listed(es) =>
        var first := LoadEntries(mods, dirs[0].path, es);
        if first.Ok? { LoadDirsSplit(first.value, dirs[1..], skipDirs, n - 1); }
    }
  }

  /** After loading succeeds, the module of every yaml file of every listed directory is registered. */
  lemma {:induction false} YamlFilesInDirsRegistered(mods: map<string, ModuleConfig>, dirs: seq<ConfigDir>, skipDirs: bool, d: nat, i: nat)
    requires d < |dirs| && dirs[d].listing.Listed? && i < |dirs[d].listing.entries|
    requires IsYamlFile(dirs[d].listing.entries[i]) && LoadDirs(mods, dirs, skipDirs).Ok?
    ensures ModuleName(dirs[d].listing.entries[i].name) in LoadDirs(mods, dirs, skipDirs).value
    decreases |dirs|
  {
    match dirs[0].listing
    case NotExist(_) =>
      assert dirs[1..][d - 1] == dirs[d];
      YamlFilesInDirsRegistered(mods, dirs[1..], skipDirs, d - 1, i);
    case Unreadable(_) =>
    case Listed(es) =>
      var first := LoadEntries(mods, dirs[0].path, es).value;
      if d == 0 {
        YamlFilesRegistered(mods, dirs[0].path, es, i);
        LoadDirsKeeps(first, dirs[1..], skipDirs);
      } else {
        assert dirs[1..][d - 1] == dirs[d];
        YamlFilesInDirsRegistered(first, dirs[1..], skipDirs, d - 1, i);
      }
  }

  /** Two yaml files in different -config.dirs directories naming the same module make loading fail. */
  lemma DuplicateAcrossDirsRejected(mods: map<string, ModuleConfig>, dirs: seq<ConfigDir>, skipDirs: bool,
                                    d1: nat, i: nat, d2: nat, j: nat)
    requires d1 < d2 < |dirs| && dirs[d1].listing.Listed? && dirs[d2].listing.Listed?
    requires i < |dirs[d1].listing.entries| && j < |dirs[d2].listing.entries|
    requires IsYamlFile(dirs[d1].listing.entries[i]) && IsYamlFile(dirs[d2].listing.entries[j])
    requires ModuleName(dirs[d1].listing.entries[i].name) == ModuleName(dirs[d2].listing.entries[j].name)
    ensures LoadDirs(mods, dirs, skipDirs).Err?
  {
    var n := d1 + 1;
    LoadDirsSplit(mods, dirs, skipDirs, n);
    var before := LoadDirs(mods, dirs[..n], skipDirs);
    if before.Ok? {
      assert dirs[..n][d1] == dirs[d1];
      YamlFilesInDirsRegistered(mods, dirs[..n], skipDirs, d1, i);
      assert dirs[n..][d2 - n] == dirs[d2];
      RegisteredInDirsRejected(before.value, dirs[n..], skipDirs, d2 - n, j);
    }
  }
}
