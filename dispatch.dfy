/**
 * Dispatch of scrape requests (main.go): doProxy picks the module named by
 * the first "module" query value, moduleConfig.ServeHTTP hands the request
 * to that module's exec or http backend under the module's timeout, and
 * listModules answers the index page in JSON or HTML.
 */
module Dispatch {
  import opened Wrappers
  import opened HttpTypes
  import opened Metrics
  import Director

  /** The module configuration fields the dispatch reads. */
  datatype ModuleConfig = ModuleConfig(
    name: string,
    methodName: string,
    /** time.Duration of the module's timeout; 0 means none. */
    timeout: int)

  /** The gateway configuration as the handlers see it after setup. */
  datatype Config = Config(
    modules: map<string, ModuleConfig>,
    proxyPath: string,
    telemetryPath: string,
    bearerToken: string)

  /** cfg.getModule: the module registered under name, if any. */
  function GetModule(cfg: Config, name: string): Option<ModuleConfig>
  {
    if name in cfg.modules then Some(cfg.modules[name]) else None
  }

  datatype Backend = ExecBackend | HttpBackend

  /**
   * What a handler did with a request: answered it itself, or passed it to a
   * backend of the named module (whose ServeHTTP is not part of this model).
   */
  datatype Outcome =
    | Reply(response: Response)
    | Delegated(backend: Backend, moduleName: string, request: Req)

  // ---------------------------------------------------------------------
  // moduleConfig.ServeHTTP

  /**
   * r.WithContext(context.WithTimeout(r.Context(), timeout)) at time now, or r
   * itself for a zero timeout. The derived context keeps an earlier parent
   * deadline.
   */
  function WithTimeout(r: Req, timeout: int, now: int): (nr: Req)
    ensures timeout == 0 ==> nr == r
    ensures timeout != 0 ==>
      && nr.url == r.url && nr.header == r.header && nr.remoteAddr == r.remoteAddr
      && nr.deadline.Some?
      && nr.deadline.value <= now + timeout
      && (r.deadline.Some? ==> nr.deadline.value <= r.deadline.value)
      && (nr.deadline.value == now + timeout || nr.deadline == r.deadline)
  {
    if timeout == 0 then r
    else
      var d := now + timeout;
      if r.deadline.Some? && r.deadline.value < d then r
      else r.(deadline := Some(d))
  }

  predicate KnownMethod(methodName: string)
  {
    methodName == "exec" || methodName == "http"
  }

  const UnknownMethodPrefix := "unknown module method "

  /** The outcome of moduleConfig.ServeHTTP for request r arriving at time now. */
  function ServeModuleOutcome(m: ModuleConfig, r: Req, now: int): (o: Outcome)
    ensures o.Delegated? <==> KnownMethod(m.methodName)
    ensures o.Delegated? ==>
      && o.backend == (if m.methodName == "exec" then ExecBackend else HttpBackend)
      && o.moduleName == m.name
      && o.request == WithTimeout(r, m.timeout, now)
    ensures o.Reply? ==> o.response == Response(StatusNotFound, UnknownMethodPrefix + m.methodName + "\n\n")
  {
    var nr := WithTimeout(r, m.timeout, now);
    if m.methodName == "exec" then Delegated(ExecBackend, m.name, nr)
    else if m.methodName == "http" then Delegated(HttpBackend, m.name, nr)
    else Reply(HttpError(UnknownMethodPrefix + m.methodName + "\n", StatusNotFound))
  }

  /**
   * moduleConfig.ServeHTTP: one duration observation under the module's name
   * on every path (the deferred Observe), and one error under that name when
   * the method is unknown.
   */
  method ServeModule(metrics: Metrics, m: ModuleConfig, r: Req, now: int) returns (o: Outcome)
    modifies metrics
    ensures o == ServeModuleOutcome(m, r, now)
    ensures metrics.durations == Bump(old(metrics.durations), m.name)
    ensures metrics.errors == if KnownMethod(m.methodName) then old(metrics.errors) else Bump(old(metrics.errors), m.name)
  {
    var nr := r;
    if m.timeout != 0 {
      nr := WithTimeout(r, m.timeout, now);
    }
    if m.methodName == "exec" {
      o := Delegated(ExecBackend, m.name, nr);
    } else if m.methodName == "http" {
      o := Delegated(HttpBackend, m.name, nr);
    } else {
      metrics.IncError(m.name);
      o := Reply(HttpError(UnknownMethodPrefix + m.methodName + "\n", StatusNotFound));
    }
    metrics.Observe(m.name);
  }

  /** A module without a timeout hands its backend the very request it received. */
  lemma ZeroTimeoutPassesRequestThrough(m: ModuleConfig, r: Req, now: int)
    requires KnownMethod(m.methodName) && m.timeout == 0
    ensures ServeModuleOutcome(m, r, now).request == r
  {
  }

  /** A positive timeout gives the backend request a deadline within the timeout, never later than the caller's. */
  lemma TimeoutBoundsDeadline(m: ModuleConfig, r: Req, now: int)
    requires KnownMethod(m.methodName) && m.timeout > 0
    ensures var d := ServeModuleOutcome(m, r, now).request.deadline;
      d.Some? && d.value <= now + m.timeout && (r.deadline.Some? ==> d.value <= r.deadline.value)
  {
  }

  // ---------------------------------------------------------------------
  // doProxy

  /** The elements of vs separated by single spaces. */
  function JoinSpace(vs: seq<string>): (r: string)
    ensures vs == [] ==> r == ""
    ensures vs != [] ==> |vs[0]| <= |r| && r[..|vs[0]|] == vs[0]
    ensures vs != [] ==> |r| == SumLengths(vs) + |vs| - 1
  {
    if vs == [] then "" else if |vs| == 1 then vs[0] else vs[0] + " " + JoinSpace(vs[1..])
  }

  /** The total length of the elements of vs. */
  function SumLengths(vs: seq<string>): nat
  {
    if vs == [] then 0 else |vs[0]| + SumLengths(vs[1..])
  }

  /**
   * fmt's %v of a []string: the elements, space separated, in brackets. The
   * first element follows the opening bracket, and a single element is
   * printed alone between the brackets.
   */
  function FormatList(vs: seq<string>): (s: string)
    ensures |s| >= 2 && s[0] == '[' && s[|s| - 1] == ']'
    ensures vs == [] ==> s == "[]"
    ensures vs != [] ==> |vs[0]| + 2 <= |s| && s[1..|vs[0]| + 1] == vs[0]
    ensures |vs| == 1 ==> s == "[" + vs[0] + "]"
    ensures vs != [] ==> |s| == SumLengths(vs) + |vs| + 1
  {
    "[" + JoinSpace(vs) + "]"
  }

  /**
   * Where JoinSpace puts each element: element k starts after the elements
   * before it and one space for each, and a space follows every element but
   * the last. With the length of JoinSpace, this fixes every character.
   */
  lemma {:induction false} JoinSpaceLayout(vs: seq<string>, k: nat)
    requires k < |vs|
    ensures var o := SumLengths(vs[..k]) + k;
      var r := JoinSpace(vs);
      o + |vs[k]| <= |r| && r[o..o + |vs[k]|] == vs[k]
      && (k < |vs| - 1 ==> o + |vs[k]| < |r| && r[o + |vs[k]|] == ' ')
    decreases k
  {
    if |vs| > 1 {
      var x, t := vs[0] + " ", JoinSpace(vs[1..]);
      assert JoinSpace(vs) == x + t;
      if k == 0 {
        assert vs[..0] == [];
        assert (x + t)[|vs[0]|] == ' ';
      } else {
        JoinSpaceLayout(vs[1..], k - 1);
        assert vs[..k][1..] == vs[1..][..k - 1];
        var o' := SumLengths(vs[1..][..k - 1]) + k - 1;
        assert SumLengths(vs[..k]) + k == |x| + o';
        assert vs[1..][k - 1] == vs[k];
        SliceAfter(x, t, o', o' + |vs[k]|);
      }
    } else {
      assert vs[..0] == [];
    }
  }

  /** A slice of x + t beyond x is the same slice of t. */
  lemma SliceAfter(x: string, t: string, i: nat, j: nat)
    requires i <= j <= |t|
    ensures (x + t)[|x| + i..|x| + j] == t[i..j]
    ensures j < |t| ==> (x + t)[|x| + j] == t[j]
  {
  }

  /**
   * The same for FormatList: after the opening bracket, element k at its
   * offset, and a space after every element but the last.
   */
  lemma FormatListLayout(vs: seq<string>, k: nat)
    requires k < |vs|
    ensures var o := 1 + SumLengths(vs[..k]) + k;
      var s := FormatList(vs);
      o + |vs[k]| < |s| && s[o..o + |vs[k]|] == vs[k]
      && (k < |vs| - 1 ==> s[o + |vs[k]|] == ' ')
  {
    var r := JoinSpace(vs);
    JoinSpaceLayout(vs, k);
    var o := SumLengths(vs[..k]) + k;
    var s := FormatList(vs);
    assert s == "[" + r + "]";
    assert s[1..|r| + 1] == r;
    assert s[1 + o..1 + o + |vs[k]|] == r[o..o + |vs[k]|];
    if k < |vs| - 1 {
      assert s[1 + o + |vs[k]|] == r[o + |vs[k]|];
    }
  }

  const MissingModuleBody := "require parameter module is missing[]\n\n"
  const UnknownModulePrefix := "unknown module "

  /**
   * The outcome of doProxy: 400 without a "module" parameter, the module's
   * own ServeHTTP for a registered first value, 404 otherwise.
   */
  function DoProxyOutcome(cfg: Config, r: Req, now: int): (o: Outcome)
    requires WellFormedQuery(r.url.query)
    ensures "module" !in r.url.query ==> o == Reply(Response(StatusBadRequest, MissingModuleBody))
    ensures "module" in r.url.query ==>
      var mod := r.url.query["module"];
      match GetModule(cfg, mod[0])
      case Some(m) => o == ServeModuleOutcome(m, r, now)
      case None => o == Reply(Response(StatusNotFound, UnknownModulePrefix + FormatList(mod) + "\n\n"))
  {
    if "module" !in r.url.query then
      assert "require parameter module is missing" + FormatList([]) + "\n" + "\n" == MissingModuleBody;
      Reply(HttpError("require parameter module is missing" + FormatList([]) + "\n", StatusBadRequest))
    else
      var mod := r.url.query["module"];
      match GetModule(cfg, mod[0])
      case Some(m) => ServeModuleOutcome(m, r, now)
      case None => Reply(HttpError(UnknownModulePrefix + FormatList(mod) + "\n", StatusNotFound))
  }

  /**
   * doProxy. mod[0] exists because URL.Query() never stores an empty list,
   * hence the requirement that the query be well formed.
   */
  method DoProxy(metrics: Metrics, cfg: Config, r: Req, now: int) returns (o: Outcome)
    requires WellFormedQuery(r.url.query)
    modifies metrics
    ensures o == DoProxyOutcome(cfg, r, now)
    ensures "module" !in r.url.query ==>
      metrics.errors == old(metrics.errors) && metrics.durations == old(metrics.durations)
    ensures "module" in r.url.query && r.url.query["module"][0] !in cfg.modules ==>
      metrics.errors == Bump(old(metrics.errors), "unknown") && metrics.durations == old(metrics.durations)
    ensures "module" in r.url.query && r.url.query["module"][0] in cfg.modules ==>
      var m := cfg.modules[r.url.query["module"][0]];
      && metrics.durations == Bump(old(metrics.durations), m.name)
      && metrics.errors == if KnownMethod(m.methodName) then old(metrics.errors) else Bump(old(metrics.errors), m.name)
  {
    if "module" !in r.url.query {
      o := Reply(HttpError("require parameter module is missing" + FormatList([]) + "\n", StatusBadRequest));
      return;
    }
    var mod := r.url.query["module"];
    var found := GetModule(cfg, mod[0]);
    if found.Some? {
      o := ServeModule(metrics, found.value, r, now);
      return;
    }
    metrics.IncError("unknown");
    o := Reply(HttpError(UnknownModulePrefix + FormatList(mod) + "\n", StatusNotFound));
  }

  /** Whatever doProxy hands to a backend is the request it received, apart from the deadline. */
  lemma DelegatedRequestIsOriginal(cfg: Config, r: Req, now: int)
    requires WellFormedQuery(r.url.query)
    requires DoProxyOutcome(cfg, r, now).Delegated?
    ensures var o := DoProxyOutcome(cfg, r, now);
      && "module" in r.url.query && r.url.query["module"][0] in cfg.modules
      && o.moduleName == cfg.modules[r.url.query["module"][0]].name
      && o.request.url == r.url && o.request.header == r.header && o.request.remoteAddr == r.remoteAddr
  {
  }

  /**
   * A request doProxy hands to a backend carries a "module" value, so the
   * director of an http module can always drop the first one.
   */
  lemma DelegatedRequestCanBeDirected(cfg: Config, r: Req, now: int, defaults: Values)
    requires WellFormedQuery(r.url.query)
    requires DoProxyOutcome(cfg, r, now).Delegated?
    ensures Director.ModuleValues(DoProxyOutcome(cfg, r, now).request.url.query, defaults) != []
  {
    DelegatedRequestIsOriginal(cfg, r, now);
    assert Lookup(r.url.query, "module") != [];
  }

  // ---------------------------------------------------------------------
  // listModules

  /** A link of the module index: the path it points at and its query. */
  datatype Link = Link(path: string, query: Values)

  /**
   * What listModules writes. The JSON body is a marshalled object whose keys
   * are the module names; the HTML page holds one link per module. The
   * rendering itself is not modelled, only the content type and what is
   * listed. A page whose rendering failed part-way went out under the status
   * and content type its first write committed, with the error text after
   * what had been written.
   */
  datatype Listing =
    | JsonListing(contentType: string, names: set<string>)
    | HtmlListing(contentType: string, links: map<string, Link>)
    | ListingError(response: Response)
    | TruncatedPage(status: int, contentType: string, body: string)

  const JsonContentType := "application/json"
  const HtmlContentType := "text/html; charset=utf-8"

  /** The href the template writes for module name, as written: always under "/proxy". */
  function AsWrittenLink(name: string): Link
  {
    Link("/proxy", map["module" := [name]])
  }

  /** The href of the index page pointing at the configured proxy path. */
  function ProxyLink(cfg: Config, name: string): Link
  {
    Link(cfg.proxyPath, map["module" := [name]])
  }

  /**
   * listModules. link is the href the template uses; marshalOk and
   * executeOk stand for json.Marshal and template execution succeeding, and
   * written for what the template had written when it failed. The page opens
   * with static text, so the template has always called Write, committing
   * 200 and the HTML content type, before anything can fail; http.Error's
   * status and content type then come too late and only its text is
   * appended. Nothing is written before json.Marshal, so its failure is a
   * clean 500.
   */
  function ListModulesWith(cfg: Config, accept: string, marshalOk: bool, executeOk: bool, written: string,
                           link: string -> Link): (l: Listing)
    ensures accept == JsonContentType ==>
      if marshalOk then l == JsonListing(JsonContentType, cfg.modules.Keys)
      else l == ListingError(Response(StatusInternalServerError, "Failed to produce JSON\n"))
    ensures accept != JsonContentType ==>
      if executeOk then l.HtmlListing? && l.contentType == HtmlContentType
        && l.links.Keys == cfg.modules.Keys && forall n :: n in l.links ==> l.links[n] == link(n)
      else l == TruncatedPage(StatusOK, HtmlContentType, written + "Can't execute the template\n")
  {
    if accept == JsonContentType then
      if marshalOk then JsonListing(JsonContentType, cfg.modules.Keys)
      else
        assert "Failed to produce JSON" + "\n" == "Failed to produce JSON\n";
        ListingError(HttpError("Failed to produce JSON", StatusInternalServerError))
    else if executeOk then HtmlListing(HtmlContentType, map n | n in cfg.modules :: link(n))
    else
      assert "Can't execute the template" + "\n" == "Can't execute the template\n";
      TruncatedPage(StatusOK, HtmlContentType, written + HttpError("Can't execute the template", StatusInternalServerError).body)
  }

  /** listModules as written: the links are built with AsWrittenLink. */
  function ListModulesAsWritten(cfg: Config, header: Values, marshalOk: bool, executeOk: bool, written: string): (l: Listing)
    ensures l.HtmlListing? ==> forall n :: n in l.links ==> l.links[n].path == "/proxy"
  {
    ListModulesWith(cfg, HeaderGet(header, "Accept"), marshalOk, executeOk, written, AsWrittenLink)
  }

  /** listModules with the links under the configured proxy path. */
  function ListModules(cfg: Config, header: Values, marshalOk: bool, executeOk: bool, written: string): (l: Listing)
    ensures l.HtmlListing? ==>
      l.links.Keys == cfg.modules.Keys && forall n :: n in l.links ==> l.links[n] == ProxyLink(cfg, n)
  {
    ListModulesWith(cfg, HeaderGet(header, "Accept"), marshalOk, executeOk, written, n => ProxyLink(cfg, n))
  }

  /** With -web.proxy-path=/scrape the as-written index links to a path no proxy handler serves. */
  lemma AsWrittenLinkMissesProxyPath()
    ensures var cfg := Config(map["node" := ModuleConfig("node", "http", 0)], "/scrape", "/metrics", "");
      var l := ListModulesAsWritten(cfg, map[], true, true, "");
      l.HtmlListing? && "node" in l.links && l.links["node"].path != cfg.proxyPath
  {
    var cfg := Config(map["node" := ModuleConfig("node", "http", 0)], "/scrape", "/metrics", "");
    assert HeaderGet(map[], "Accept") == "";
  }

  /**
   * Following a link of the index page (with the corrected links) to the
   * proxy path selects the module it names: doProxy serves it with that
   * module's configuration.
   */
  lemma IndexLinkSelectsModule(cfg: Config, name: string, r: Req, now: int)
    requires name in cfg.modules
    requires r.url.path == ProxyLink(cfg, name).path && r.url.query == ProxyLink(cfg, name).query
    ensures r.url.path == cfg.proxyPath
    ensures DoProxyOutcome(cfg, r, now) == ServeModuleOutcome(cfg.modules[name], r, now)
  {
    assert r.url.query["module"] == [name];
  }
}
