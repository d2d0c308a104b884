/**
 * The reverse-proxy director of an HTTP module (getReverseProxyDirectorFunc,
 * http.go): it rewrites the outbound copy of an inbound scrape request into
 * the request sent to the module's backend exporter.
 */
module Director {
  import opened Wrappers
  import opened HttpTypes
  import opened Encoding

  /** The HTTP backend section of a module's configuration. */
  datatype HttpConfig = HttpConfig(
    scheme: string,
    address: string,
    port: int,
    path: string,
    headers: map<string, string>,
    basicAuthUsername: string,
    basicAuthPassword: string)

  /** What url.Parse makes of the configured path: its path and its parsed query. */
  datatype BaseUrl = BaseUrl(path: string, query: Values)

  /** The director closure, as the values it captures. */
  datatype DirectorFunc = DirectorFunc(cfg: HttpConfig, basePath: string, defaults: Values)

  const DirectorPathError := "http configuration path should be a valid URL path with options, "

  /**
   * getReverseProxyDirectorFunc. parsed is url.Parse(cfg.path): the director
   * exists exactly when the configured path parses, and then captures the
   * parsed path and its query as the module's default query values.
   */
  function NewDirector(cfg: HttpConfig, parsed: Result<BaseUrl>): (r: Result<DirectorFunc>)
    ensures r.Ok? <==> parsed.Ok?
    ensures r.Ok? ==> r.value.cfg == cfg && r.value.basePath == parsed.value.path
                      && r.value.defaults == parsed.value.query
    ensures r.Err? ==> r.error == DirectorPathError + parsed.error
  {
    match parsed
    case Err(e) => Err(DirectorPathError + e)
    case Ok(base) => Ok(DirectorFunc(cfg, base.path, base.query))
  }

  // ---------------------------------------------------------------------
  // The query

  /** Every value of q followed, key by key, by every default value. */
  function MergeQuery(q: Values, defaults: Values): Values
  {
    map k | k in q.Keys + defaults.Keys :: Lookup(q, k) + Lookup(defaults, k)
  }

  /** The module selector list after the merge, before its first value is dropped. */
  function ModuleValues(q: Values, defaults: Values): seq<string>
  {
    Lookup(q, "module") + Lookup(defaults, "module")
  }

  /**
   * The outbound query: the merge with the first "module" value removed,
   * encoded. Go slices qvs["module"][1:], which panics when that list is
   * empty, hence the precondition.
   */
  function DirectedQuery(q: Values, defaults: Values): (r: Values)
    requires ModuleValues(q, defaults) != []
    ensures WellFormedQuery(r)
    ensures forall k :: k != "module" ==> Lookup(r, k) == Lookup(q, k) + Lookup(defaults, k)
    ensures Lookup(r, "module") == ModuleValues(q, defaults)[1..]
    ensures |Lookup(q, "module")| == 1 && Lookup(defaults, "module") == [] ==> "module" !in r
  {
    var m := MergeQuery(q, defaults);
    Encode(m["module" := ModuleValues(q, defaults)[1..]])
  }

  // ---------------------------------------------------------------------
  // The headers

  /** order lists each key of keys exactly once (one iteration order of a Go map). */
  predicate Enumerates(order: seq<string>, keys: set<string>)
  {
    && (forall i, j :: 0 <= i < j < |order| ==> order[i] != order[j])
    && (forall i :: 0 <= i < |order| ==> order[i] in keys)
    && (forall k :: k in keys ==> k in order)
  }

  /** Header.Add of every configured header, in the order the map was iterated. */
  function AddHeaders(h: Values, hs: map<string, string>, order: seq<string>): Values
    requires forall i :: 0 <= i < |order| ==> order[i] in hs
  {
    if order == [] then h
    else
      var last := order[|order| - 1];
      HeaderAdd(AddHeaders(h, hs, order[..|order| - 1]), last, hs[last])
  }

  /** The configured values that land under the canonical key, in iteration order. */
  function ValuesFor(hs: map<string, string>, order: seq<string>, key: string): seq<string>
    requires forall i :: 0 <= i < |order| ==> order[i] in hs
  {
    if order == [] then []
    else
      var last := order[|order| - 1];
      ValuesFor(hs, order[..|order| - 1], key) + (if CanonicalKey(last) == key then [hs[last]] else [])
  }

  /** One step of the header loop, for one key. */
  lemma AddHeadersStep(h: Values, hs: map<string, string>, order: seq<string>, key: string)
    requires order != [] && forall i :: 0 <= i < |order| ==> order[i] in hs
    ensures var pre, last := order[..|order| - 1], order[|order| - 1];
      var added := if CanonicalKey(last) == key then [hs[last]] else [];
      && Lookup(AddHeaders(h, hs, order), key) == Lookup(AddHeaders(h, hs, pre), key) + added
      && ValuesFor(hs, order, key) == ValuesFor(hs, pre, key) + added
  {
  }

  /** Each configured header is appended after the values the request already had. */
  lemma {:induction false} AddHeadersAppends(h: Values, hs: map<string, string>, order: seq<string>, key: string)
    requires forall i :: 0 <= i < |order| ==> order[i] in hs
    ensures Lookup(AddHeaders(h, hs, order), key) == Lookup(h, key) + ValuesFor(hs, order, key)
  {
    if order != [] {
      var pre, last := order[..|order| - 1], order[|order| - 1];
      AddHeadersAppends(h, hs, pre, key);
      AddHeadersStep(h, hs, order, key);
      var a, b := Lookup(h, key), ValuesFor(hs, pre, key);
      var added := if CanonicalKey(last) == key then [hs[last]] else [];
      assert a + b + added == a + (b + added);
    }
  }

  /** Some configured name in order canonicalises to key. */
  predicate NamesKey(order: seq<string>, key: string)
  {
    exists i :: 0 <= i < |order| && CanonicalKey(order[i]) == key
  }

  /** A key is named by an order exactly when its prefix or its last name names it. */
  lemma NamesKeyLast(order: seq<string>, key: string)
    requires order != []
    ensures NamesKey(order, key) <==>
            NamesKey(order[..|order| - 1], key) || CanonicalKey(order[|order| - 1]) == key
  {
    var pre := order[..|order| - 1];
    if NamesKey(pre, key) {
      var i :| 0 <= i < |pre| && CanonicalKey(pre[i]) == key;
      assert order[i] == pre[i];
    }
    if NamesKey(order, key) {
      var i :| 0 <= i < |order| && CanonicalKey(order[i]) == key;
      if i < |pre| {
        assert pre[i] == order[i];
      }
    }
  }

  /** The keys of the outbound header: the inbound ones and the canonical configured names. */
  lemma {:induction false} AddHeadersKeys(h: Values, hs: map<string, string>, order: seq<string>, key: string)
    requires forall i :: 0 <= i < |order| ==> order[i] in hs
    ensures key in AddHeaders(h, hs, order) <==> key in h || NamesKey(order, key)
  {
    if order != [] {
      var pre, last := order[..|order| - 1], order[|order| - 1];
      AddHeadersKeys(h, hs, pre, key);
      NamesKeyLast(order, key);
    }
  }

  /** No two configured header names share a canonical form. */
  predicate NoCanonicalCollision(hs: map<string, string>)
  {
    forall a, b :: a in hs && b in hs && a != b ==> CanonicalKey(a) != CanonicalKey(b)
  }

  /** Without collisions, a canonical key receives the single configured value that maps to it. */
  lemma {:induction false} ValuesForSingle(hs: map<string, string>, order: seq<string>, key: string)
    requires forall i :: 0 <= i < |order| ==> order[i] in hs
    requires forall i, j :: 0 <= i < j < |order| ==> order[i] != order[j]
    requires NoCanonicalCollision(hs)
    ensures (forall i :: 0 <= i < |order| ==> CanonicalKey(order[i]) != key) ==> ValuesFor(hs, order, key) == []
    ensures forall i :: 0 <= i < |order| && CanonicalKey(order[i]) == key ==> ValuesFor(hs, order, key) == [hs[order[i]]]
  {
    if order != [] {
      var pre, last := order[..|order| - 1], order[|order| - 1];
      ValuesForSingle(hs, pre, key);
      if CanonicalKey(last) == key {
        forall i | 0 <= i < |pre| ensures CanonicalKey(pre[i]) != key {
          assert pre[i] == order[i] != last;
        }
      }
      forall i | 0 <= i < |order| && CanonicalKey(order[i]) == key
        ensures ValuesFor(hs, order, key) == [hs[order[i]]]
      {
        if i < |pre| {
          assert order[i] == pre[i] != last;
        }
      }
    }
  }

  lemma MapsEqualByLookup(a: Values, b: Values)
    requires a.Keys == b.Keys
    requires forall k :: Lookup(a, k) == Lookup(b, k)
    ensures a == b
  {
    forall k | k in a ensures a[k] == b[k] {
      assert Lookup(a, k) == Lookup(b, k);
    }
  }

  /**
   * When no two configured names collide after canonicalisation, the headers
   * do not depend on the order in which the configuration map is iterated.
   */
  lemma AddHeadersOrderIndependent(h: Values, hs: map<string, string>, o1: seq<string>, o2: seq<string>)
    requires Enumerates(o1, hs.Keys) && Enumerates(o2, hs.Keys)
    requires NoCanonicalCollision(hs)
    ensures AddHeaders(h, hs, o1) == AddHeaders(h, hs, o2)
  {
    var a1, a2 := AddHeaders(h, hs, o1), AddHeaders(h, hs, o2);
    forall key ensures Lookup(a1, key) == Lookup(a2, key) && (key in a1 <==> key in a2) {
      AddHeadersAppends(h, hs, o1, key);
      AddHeadersAppends(h, hs, o2, key);
      AddHeadersKeys(h, hs, o1, key);
      AddHeadersKeys(h, hs, o2, key);
      ValuesForSingle(hs, o1, key);
      ValuesForSingle(hs, o2, key);
      if exists i :: 0 <= i < |o1| && CanonicalKey(o1[i]) == key {
        var i :| 0 <= i < |o1| && CanonicalKey(o1[i]) == key;
        var j :| 0 <= j < |o2| && o2[j] == o1[i];
        assert CanonicalKey(o2[j]) == key;
      }
    }
    MapsEqualByLookup(a1, a2);
  }

  /** "x-a" and "X-A" share the canonical form "X-A". */
  lemma CollidingNames()
    ensures CanonicalKey("x-a") == "X-A" && CanonicalKey("X-A") == "X-A"
  {
    assert AllTokenChars("x-a") by {
      assert IsTokenChar("x-a"[0]) && IsTokenChar("x-a"[1]) && IsTokenChar("x-a"[2]);
    }
    assert AllTokenChars("X-A") by {
      assert IsTokenChar("X-A"[0]) && IsTokenChar("X-A"[1]) && IsTokenChar("X-A"[2]);
    }
    assert CanonicalKey("x-a") == ['X', '-', 'A'];
    assert CanonicalKey("X-A") == ['X', '-', 'A'];
  }

  /** Adding two colliding names in order a, b gives their values in that order. */
  lemma AddTwo(hs: map<string, string>, a: string, b: string, key: string)
    requires a in hs && b in hs && CanonicalKey(a) == key && CanonicalKey(b) == key
    ensures Lookup(AddHeaders(map[], hs, [a, b]), key) == [hs[a], hs[b]]
  {
    assert [a, b][..1] == [a];
    assert [a][..0] == [];
    assert AddHeaders(map[], hs, [a]) == HeaderAdd(map[], a, hs[a]);
  }

  /**
   * Two configured names that differ only in case land under one key, and
   * the order of their values follows the map's iteration order.
   */
  lemma HeaderOrderMattersOnCollision()
    ensures var hs := map["x-a" := "1", "X-A" := "2"];
      Lookup(AddHeaders(map[], hs, ["x-a", "X-A"]), "X-A") == ["1", "2"] &&
      Lookup(AddHeaders(map[], hs, ["X-A", "x-a"]), "X-A") == ["2", "1"]
  {
    var hs := map["x-a" := "1", "X-A" := "2"];
    CollidingNames();
    AddTwo(hs, "x-a", "X-A", "X-A");
    AddTwo(hs, "X-A", "x-a", "X-A");
  }

  // ---------------------------------------------------------------------
  // Basic auth and the final header

  /** Request.SetBasicAuth's header value. */
  function BasicAuthValue(username: string, password: string): string
  {
    "Basic " + Base64(Utf8String(username + ":" + password))
  }

  /** The backend can recover the credentials: after "Basic " comes the base64 of "user:password". */
  lemma BasicAuthDecodes(username: string, password: string)
    ensures var v := BasicAuthValue(username, password);
      |v| >= 6 && v[..6] == "Basic " && Base64Decode(v[6..]) == Utf8String(username + ":" + password)
  {
    var b := Utf8String(username + ":" + password);
    Base64RoundTrip(b);
    assert ("Basic " + Base64(b))[6..] == Base64(b);
  }

  lemma AuthorizationIsCanonical()
    ensures CanonicalKey("Authorization") == "Authorization"
  {
    var s := "Authorization";
    assert AllTokenChars(s) by {
      assert forall i :: 0 <= i < 13 ==> IsTokenChar(s[i]);
    }
    forall i | 0 <= i < |s| ensures CanonicalCharAt(s, i) == s[i] {
      assert i > 0 ==> s[i - 1] != '-';
    }
    CanonicalKeyOfCanonical(s);
  }

  /**
   * The outbound headers: the inbound ones with the configured headers appended
   * and, when both basic-auth credentials are non-empty, Authorization
   * replaced by the basic credentials.
   */
  function FinalHeader(h: Values, cfg: HttpConfig, order: seq<string>): (r: Values)
    requires forall i :: 0 <= i < |order| ==> order[i] in cfg.headers
    ensures forall key :: key != "Authorization" ==>
              Lookup(r, key) == Lookup(h, key) + ValuesFor(cfg.headers, order, key)
    ensures cfg.basicAuthUsername != "" && cfg.basicAuthPassword != "" ==>
              Lookup(r, "Authorization") == [BasicAuthValue(cfg.basicAuthUsername, cfg.basicAuthPassword)]
    ensures !(cfg.basicAuthUsername != "" && cfg.basicAuthPassword != "") ==>
              Lookup(r, "Authorization") == Lookup(h, "Authorization") + ValuesFor(cfg.headers, order, "Authorization")
  {
    forall key ensures Lookup(AddHeaders(h, cfg.headers, order), key)
                       == Lookup(h, key) + ValuesFor(cfg.headers, order, key) {
      AddHeadersAppends(h, cfg.headers, order, key);
    }
    AuthorizationIsCanonical();
    var added := AddHeaders(h, cfg.headers, order);
    if cfg.basicAuthUsername != "" && cfg.basicAuthPassword != "" then
      HeaderSet(added, "Authorization", BasicAuthValue(cfg.basicAuthUsername, cfg.basicAuthPassword))
    else added
  }

  /** The whole outbound header set is independent of iteration order without collisions. */
  lemma FinalHeaderOrderIndependent(h: Values, cfg: HttpConfig, o1: seq<string>, o2: seq<string>)
    requires Enumerates(o1, cfg.headers.Keys) && Enumerates(o2, cfg.headers.Keys)
    requires NoCanonicalCollision(cfg.headers)
    ensures FinalHeader(h, cfg, o1) == FinalHeader(h, cfg, o2)
  {
    AddHeadersOrderIndependent(h, cfg.headers, o1, o2);
  }

  // ---------------------------------------------------------------------
  // The director applied to a request

  /** The outbound request the reverse proxy hands to the director (a clone of the inbound one). */
  class ProxyRequest {
    var url: Url
    var header: Values

    constructor (r: Req)
      ensures url == r.url && header == r.header
    {
      url := r.url;
      header := r.header;
    }
  }

  /** The backend address the director writes into the URL's host. */
  function BackendHost(cfg: HttpConfig): string
  {
    JoinHostPort(cfg.address, Itoa(cfg.port))
  }

  /** for _, v := range vs { qvs.Add(k, v) } */
  method AddValues(qvs: Values, k: string, vs: seq<string>) returns (r: Values)
    ensures Lookup(r, k) == Lookup(qvs, k) + vs
    ensures forall j :: j != k ==> Lookup(r, j) == Lookup(qvs, j)
  {
    r := qvs;
    var i := 0;
    while i < |vs|
      invariant 0 <= i <= |vs|
      invariant Lookup(r, k) == Lookup(qvs, k) + vs[..i]
      invariant forall j :: j != k ==> Lookup(r, j) == Lookup(qvs, j)
    {
      assert vs[..i + 1] == vs[..i] + [vs[i]];
      r := QueryAdd(r, k, vs[i]);
      i := i + 1;
    }
    assert vs[..i] == vs;
  }

  /** The merge loop: for k, vs := range cvs { for _, v := range vs { qvs.Add(k, v) } } */
  method AddDefaultQuery(q0: Values, defaults: Values) returns (qvs: Values)
    ensures forall k :: Lookup(qvs, k) == Lookup(q0, k) + Lookup(defaults, k)
  {
    qvs := q0;
    var remaining := defaults.Keys;
    while remaining != {}
      invariant remaining <= defaults.Keys
      invariant forall k :: Lookup(qvs, k) == Lookup(q0, k) + (if k in remaining then [] else Lookup(defaults, k))
      decreases remaining
    {
      var k :| k in remaining;
      qvs := AddValues(qvs, k, defaults[k]);
      remaining := remaining - {k};
    }
  }

  /** for k, v := range cfg.HTTP.Headers { r.Header.Add(k, v) }, in the order the map yields. */
  method AddConfiguredHeaders(h0: Values, hs: map<string, string>) returns (h: Values, ghost order: seq<string>)
    ensures Enumerates(order, hs.Keys)
    ensures h == AddHeaders(h0, hs, order)
    ensures HeadersAdded(h0, hs, h)
  {
    h := h0;
    var left := hs.Keys;
    order := [];
    while left != {}
      invariant left <= hs.Keys
      invariant forall i :: 0 <= i < |order| ==> order[i] in hs
      invariant forall k :: k in hs ==> (k in order <==> k !in left)
      invariant forall i, j :: 0 <= i < j < |order| ==> order[i] != order[j]
      invariant h == AddHeaders(h0, hs, order)
      decreases left
    {
      var k :| k in left;
      ghost var prev := order;
      order := prev + [k];
      assert order[..|order| - 1] == prev;
      assert AddHeaders(h0, hs, order) == HeaderAdd(AddHeaders(h0, hs, prev), k, hs[k]);
      h := HeaderAdd(h, k, hs[k]);
      left := left - {k};
    }
    HeaderLoopResult(h0, hs, order);
  }

  /**
   * h is h0 with the configured headers added, described without an order:
   * its keys are those of h0 and the canonical configured names; when no two
   * names canonicalise alike each name's value is appended under its key;
   * every other key keeps its values.
   */
  ghost predicate HeadersAdded(h0: Values, hs: map<string, string>, h: Values)
  {
    && (forall key :: key in h <==> key in h0 || exists n :: n in hs && CanonicalKey(n) == key)
    && (NoCanonicalCollision(hs) ==>
          forall n :: n in hs ==> Lookup(h, CanonicalKey(n)) == Lookup(h0, CanonicalKey(n)) + [hs[n]])
    && (forall key :: (forall n :: n in hs ==> CanonicalKey(n) != key) ==> Lookup(h, key) == Lookup(h0, key))
  }

  /** What the header loop leaves under each key, whatever order it took. */
  lemma HeaderLoopResult(h0: Values, hs: map<string, string>, order: seq<string>)
    requires Enumerates(order, hs.Keys)
    ensures HeadersAdded(h0, hs, AddHeaders(h0, hs, order))
  {
    var h := AddHeaders(h0, hs, order);
    forall key ensures key in h <==> key in h0 || exists n :: n in hs && CanonicalKey(n) == key {
      AddHeadersKeys(h0, hs, order, key);
      if NamesKey(order, key) {
        var i :| 0 <= i < |order| && CanonicalKey(order[i]) == key;
        assert order[i] in hs;
      }
      if exists n :: n in hs && CanonicalKey(n) == key {
        var n :| n in hs && CanonicalKey(n) == key;
        var i :| 0 <= i < |order| && order[i] == n;
      }
    }
    if NoCanonicalCollision(hs) {
      forall n | n in hs ensures Lookup(h, CanonicalKey(n)) == Lookup(h0, CanonicalKey(n)) + [hs[n]] {
        AddHeadersAppends(h0, hs, order, CanonicalKey(n));
        ValuesForSingle(hs, order, CanonicalKey(n));
        var i :| 0 <= i < |order| && order[i] == n;
      }
    }
    forall key | forall n :: n in hs ==> CanonicalKey(n) != key
      ensures Lookup(h, key) == Lookup(h0, key)
    {
      AddHeadersAppends(h0, hs, order, key);
      ValuesForNone(hs, order, key);
    }
  }

  /** A key no configured name canonicalises to receives no configured value. */
  lemma {:induction false} ValuesForNone(hs: map<string, string>, order: seq<string>, key: string)
    requires forall i :: 0 <= i < |order| ==> order[i] in hs
    requires forall n :: n in hs ==> CanonicalKey(n) != key
    ensures ValuesFor(hs, order, key) == []
  {
    if order != [] {
      ValuesForNone(hs, order[..|order| - 1], key);
    }
  }

  /** The query steps of the director: merge the defaults, drop the first module, encode. */
  method DirectQuery(q0: Values, defaults: Values) returns (q: Values)
    requires ModuleValues(q0, defaults) != []
    ensures q == DirectedQuery(q0, defaults)
  {
    // qvs := r.URL.Query(), with every default value added
    var qvs := AddDefaultQuery(q0, defaults);
    // qvs["module"] = qvs["module"][1:]
    qvs := qvs["module" := Lookup(qvs, "module")[1..]];
    var spec := MergeQuery(q0, defaults)["module" := ModuleValues(q0, defaults)[1..]];
    EncodeRespectsLookup(qvs, spec);
    q := Encode(qvs);
  }

  /**
   * The director closure: rewrites r in place. `order` is the iteration
   * order of the configured header map this run happened to use.
   */
  method Direct(d: DirectorFunc, r: ProxyRequest) returns (ghost order: seq<string>)
    requires ModuleValues(r.url.query, d.defaults) != []
    modifies r
    ensures r.url == Url(d.cfg.scheme, BackendHost(d.cfg), d.basePath, DirectedQuery(old(r.url.query), d.defaults))
    ensures Enumerates(order, d.cfg.headers.Keys)
    ensures r.header == FinalHeader(old(r.header), d.cfg, order)
  {
    var q := DirectQuery(r.url.query, d.defaults);
    r.url := r.url.(query := q);

    var h;
    ghost var h0 := r.header;
    h, order := AddConfiguredHeaders(r.header, d.cfg.headers);
    r.header := h;

    r.url := r.url.(scheme := d.cfg.scheme, host := JoinHostPort(d.cfg.address, Itoa(d.cfg.port)), path := d.basePath);
    if d.cfg.basicAuthUsername != "" && d.cfg.basicAuthPassword != "" {
      r.header := HeaderSet(r.header, "Authorization",
                            BasicAuthValue(d.cfg.basicAuthUsername, d.cfg.basicAuthPassword));
    }
  }
}
