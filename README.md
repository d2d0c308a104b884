# exporter_exporter request handling, in Dafny

exporter_exporter is a reverse proxy for Prometheus exporters. A scraper asks
for `GET <proxy-path>?module=<name>`. The gateway checks the client: an
optional IP allow list, then an optional bearer token. It picks the module
named by the first `module` value and hands the request to that module's
backend. For an `http` backend the request is first rewritten by the
reverse-proxy director: configured query defaults and headers are merged
in, the first `module` value is dropped, the URL is pointed at the backend,
and basic auth is added when configured.

This project models that decision logic and proves its properties:

- the director (`director.dfy`), over the query and header maps of url.Values and http.Header (`httptypes.dfy`), with strconv.Itoa, net.JoinHostPort and base64 (`encoding.dfy`);
- the proxy error handler (`proxyerrors.dfy`);
- the bearer and IP allow-list middlewares (`auth.dfy`);
- the Prometheus counters the handlers update (`metrics.dfy`);
- doProxy, moduleConfig.ServeHTTP and listModules (`dispatch.dfy`);
- the middleware chain main builds and the status-recording response writer (`chain.dfy`);
- setupTLS and the client-certificate matcher (`tlspolicy.dfy`);
- setup's validation (`setup.dfy`), with path.Clean, strings.TrimSpace and filepath.Ext (`textutil.dfy`);
- the repeatable flags (`flags.dfy`).

Code with state keeps that form:

- The director is a method that rewrites a `ProxyRequest` object in place.
- The counters are a `Metrics` class whose methods bump `map<string, nat>` fields.
- The response writers are classes.
- The directory and entry loops of setup are `while` loops.

Each method is proved against a specification function, and the lemmas are stated about those functions.

Go map iteration order is a nondeterministic choice (`:|`) in the loops. The contracts hold for every order.

Library calls whose results the logic only branches on are parameters of the model. These are:

- url.Parse of the module path;
- SplitHostPort with ParseIP of the remote address;
- ParseCIDR;
- regexp compilation and matching;
- reads of files and directories;
- YAML parsing;
- time.ParseDuration;
- the current time.

## Model

| member | source | states |
|---|---|---|
| HttpTypes.QueryAdd | http.go:49 | url.Values.Add appends the value to the list under the key and leaves every other key unchanged |
| HttpTypes.Encode | http.go:54 | encoding then re-parsing the query keeps every non-empty list and drops the keys whose list is empty |
| HttpTypes.EncodeRespectsLookup | http.go:54 | two queries with the same value lists encode the same |
| HttpTypes.EncodeWellFormed | http.go:54 | a query without empty lists comes back from encoding unchanged |
| HttpTypes.CanonicalKey | http.go:57 | canonicalisation keeps the length and every character up to ASCII case; in a key of token characters a character comes out upper case exactly when it is a letter at the start or right after a '-'; a key with non-token characters is unchanged |
| HttpTypes.CanonicalKeyCaseInsensitive | http.go:57 | two token keys have the same canonical form exactly when they are equal up to ASCII case, so configured header names that differ only in case name one header |
| HttpTypes.CanonicalKeyIdempotent | http.go:57 | canonicalising a header key twice gives the same key as once |
| HttpTypes.HeaderSet | http.go:64 | Header.Set replaces the list under the canonical key with the one value, and leaves every other key unchanged |
| Encoding.NatDigits | http.go:61 | the decimal digits are non-empty digit characters, and start with '0' exactly when the number is zero |
| Encoding.NatDigitsValue | http.go:61 | reading the digits of n as a decimal number gives n back |
| Encoding.ItoaRoundTrip | http.go:61 | strconv.Itoa of the port, read back as a signed decimal, is the port |
| Encoding.NegativeRoundTrip | http.go:61 | a '-' followed by the digits of m reads back as -m |
| Encoding.NonNegativeRoundTrip | http.go:61 | the digits of n read back as n |
| Encoding.ItoaHasNoColon | http.go:61 | the port text never contains ':' |
| Encoding.JoinHostPortSplits | http.go:61 | the backend host splits at its last ':' into the port and the address, and the address is bracketed exactly when it contains ':' |
| Encoding.Base64 | http.go:64 | the basic-auth encoding has length 4·⌈n/3⌉, and every character is from the base64 alphabet or is '=' |
| Encoding.GroupRoundTrip | http.go:64 | each full group of four characters reads back as the three bytes it encodes, and holds no padding |
| Encoding.Base64RoundTrip | http.go:64 | decoding (base64.StdEncoding.DecodeString on well-formed input) gives back exactly the bytes that were encoded |
| Encoding.Base64Injective | http.go:64 | different credentials never produce the same encoding |
| Director.NewDirector | http.go:37-44 | a director is built exactly when the module path parses, and it captures the configuration, the parsed path and the parsed default query; otherwise the error carries the fixed prefix and the parse error |
| Director.DirectedQuery | http.go:46-54 | every key other than "module" gets the inbound values followed by the defaults; "module" gets the merged list without its first element; one inbound module value and no default leave no "module" key |
| Director.DirectQuery | http.go:46-54 | the query steps of the director compute the directed query |
| Director.AddValues | http.go:47-49 | the inner loop appends all of vs under one key in order, and no other key changes |
| Director.AddDefaultQuery | http.go:46-51 | for every key and every iteration order of the defaults, the result is the inbound values followed by the defaults |
| Director.AddConfiguredHeaders | http.go:56-58 | the header loop visits each configured header exactly once, in the order it chose, and yields the fold over that order; whatever that order, the result has exactly the inbound keys plus the canonical configured names, each configured value appended under its key when no two names collide, and every other key untouched |
| Director.HeaderLoopResult | http.go:56-58 | for every order the loop may take, the fold adds exactly the configured headers and leaves every other key as it was |
| Director.ValuesForNone | http.go:56-58 | a key that no configured name canonicalises to receives no configured value |
| Director.AddHeadersAppends | http.go:56-58 | under every header key the inbound values are kept and the configured values for that key are appended |
| Director.AddHeadersKeys | http.go:56-58 | a key is present afterwards exactly when it was present before or some configured name canonicalises to it |
| Director.ValuesForSingle | http.go:56-58 | without collisions, each canonical key receives exactly the one value configured for it, and other keys receive none |
| Director.AddHeadersOrderIndependent | http.go:56-58 | when no two configured names share a canonical form, the map iteration order does not change the headers |
| Director.HeaderOrderMattersOnCollision | http.go:56-58 | with "x-a" and "X-A" both configured, the two iteration orders put their values under "X-A" in opposite orders |
| Director.BasicAuthDecodes | http.go:63-65 | the Authorization value SetBasicAuth writes is "Basic " followed by text that decodes to the UTF-8 bytes of username:password |
| Director.AuthorizationIsCanonical | http.go:63-65 | SetBasicAuth's header name is already canonical |
| Director.FinalHeader | http.go:56-65 | Authorization becomes exactly the basic-auth value when both username and password are set; otherwise it keeps its appended list; every other key keeps its appended list |
| Director.FinalHeaderOrderIndependent | http.go:56-65 | without header name collisions the final header does not depend on iteration order |
| Director.Direct | http.go:45-66 | the request's URL becomes the configured scheme, JoinHostPort of address and decimal port, the base path and the directed query; its header becomes FinalHeader of the old header |
| ProxyErrors.ProxyErrorResponse | http.go:69-80 | 504 "Gateway Timeout" exactly when the error is or wraps the deadline error, and 502 "Bad Gateway" otherwise, each body followed by a newline |
| ProxyErrors.WrappingPreservesClass | http.go:71 | wrapping an error any number of times does not change the response |
| ProxyErrors.DeadlineInJoinTimesOut | http.go:71 | a deadline error anywhere inside a joined error still gives 504 |
| Auth.SplitN2 | http.go:95 | SplitN at the first space: one part exactly when there is no space; otherwise two parts that rejoin to the input, the first without a space |
| Auth.BearerSplit | http.go:95-100 | the split gives ["Bearer", rest] exactly when the header starts with "Bearer " |
| Auth.BearerCheck | http.go:88-107 | the request passes exactly when Authorization is "Bearer " + token; an empty header, a non-Bearer header and a wrong token each get their own 401 body |
| Auth.NetworkNumberAndMask | http.go:137 | network number and mask have equal length: 0 when malformed, 4 for IPv4 and 16 for IPv6 |
| Auth.ContainsMappedV6 | http.go:126-137 | a network contains an IPv4 address exactly when it contains the IPv4-mapped IPv6 form ParseIP returns |
| Auth.FirstContaining | http.go:135-141 | the loop stops at the first network that contains the address; if it finds none, no network contains it |
| Auth.IPAclCheck | http.go:114-146 | an unparsable client address gets 500; the request passes exactly when some network contains the address; otherwise 403 "Forbidden"; an empty list admits nobody |
| Auth.TenSlashEightExample | http.go:135-146 | example, one input: 10.0.0.0/8 admits 10.1.2.3 and forbids 192.168.1.1 |
| Metrics.Bump | main.go:78-83 | Inc raises the counter of one label by exactly 1 and leaves every other label unchanged |
| Metrics.BumpCommutes | main.go:78-83 | increments on two labels commute |
| Metrics.Metrics.IncError | main.go:456 | the error counter of the label is bumped and the duration observations are unchanged |
| Metrics.Metrics.Observe | main.go:491-494 | one more duration observation under the label, and the error counter is unchanged |
| Dispatch.WithTimeout | main.go:496-502 | timeout 0 passes the request through unchanged; otherwise the request gets a deadline no later than now + timeout and no later than the caller's, and URL, header and remote address are kept |
| Dispatch.ServeModuleOutcome | main.go:505-515 | "exec" and "http" hand the request with the timeout applied to that backend; any other method gets 404 "unknown module method …" |
| Dispatch.ServeModule | main.go:490-517 | the outcome above, exactly one duration observation under the module's name on every path, and one error under that name only for an unknown method |
| Dispatch.ZeroTimeoutPassesRequestThrough | main.go:496-502 | with no timeout the backend receives the very request doProxy got |
| Dispatch.TimeoutBoundsDeadline | main.go:497-501 | a positive timeout bounds the backend deadline by now + timeout and by the caller's deadline |
| Dispatch.JoinSpace | main.go:457 | the elements separated by single spaces: empty for no elements, starting with the first, and as long as all elements plus one space between each two |
| Dispatch.JoinSpaceLayout | main.go:457 | element k starts after the elements before it and one space for each, and a space follows every element but the last; with the length this fixes every character |
| Dispatch.FormatList | main.go:457 | %v of a string list is bracketed, "[]" for a missing list, "[v]" for one value, the first element right after the bracket, and as long as the elements, the spaces between them and the two brackets |
| Dispatch.FormatListLayout | main.go:457 | inside the brackets element k sits at its offset followed by a space unless it is the last, so the 404 text names every requested value in order |
| Dispatch.DoProxyOutcome | main.go:440-458 | no "module" parameter gets 400 without invoking a module; a registered first value is served by that module; otherwise 404 "unknown module [v…]" |
| Dispatch.DoProxy | main.go:440-458 | the outcome above; on 400 no counter changes; on 404 only the "unknown" error counter rises, by 1; a registered module updates only its own counters |
| Dispatch.DelegatedRequestIsOriginal | main.go:448-453 | a backend receives the original request's URL, header and remote address, under the module named by the first value |
| Dispatch.DelegatedRequestCanBeDirected | main.go:441-451 | every request handed to a backend satisfies the director's precondition of a non-empty "module" list |
| Dispatch.ListModulesWith | main.go:460-488 | an Accept of exactly "application/json" lists the module names as JSON, anything else lists one link per module as HTML; a marshal failure gets a clean 500 with its own body, while a template failure keeps the 200 and HTML content type its first write committed and appends the error text to what was written |
| Dispatch.ListModulesAsWritten | main.go:474-482 | every link of the HTML index points at "/proxy" |
| Dispatch.ListModules | main.go:474-482 | the HTML index has one link per module, under the configured proxy path |
| Dispatch.AsWrittenLinkMissesProxyPath | main.go:479 | with -web.proxy-path=/scrape the index links lead away from the proxy path |
| Dispatch.IndexLinkSelectsModule | main.go:479 | following a corrected index link makes doProxy serve the module named in it |
| Chain.BuildHandler | main.go:372-387 | AccessLog is outermost; the allow list is present exactly when it is non-empty, and comes second; the bearer check is present exactly when a token is set, and is innermost |
| Chain.Serve | main.go:372-387 | a request reaches the mux exactly when every layer admits it; otherwise the first layer that denies answers |
| Chain.ReachesMuxIff | main.go:372-387 | the mux is reached exactly when the allow list (if configured) and the bearer check (if configured) both admit |
| Chain.AclAnswersBeforeBearer | main.go:376-383 | a client the allow list refuses gets the allow list's answer, never a 401 |
| Chain.OpenWithoutAuth | main.go:372-387 | without a token and without an allow list every request reaches the mux |
| Chain.StatusWriterAsWritten.WriteHeader | main.go:415-418 | the recorded status is the last code passed, while the client keeps the first |
| Chain.AsWrittenMisreports | main.go:424-438 | a body write followed by an error response makes the access log record 500 while 200 was sent |
| Chain.StatusWriter.WriteHeader | main.go:415-418 | (corrected) the recorded status stays equal to the status the client receives |
| Chain.StatusWriter.Write | main.go:410-418 | (corrected) an implicit 200 from Write is what gets recorded |
| Chain.CorrectedReports | main.go:424-438 | the same calls through the corrected writer record 200, the status sent |
| TlsPolicy.AnyMatches | main.go:232-242 | the name loops succeed exactly when some name matches the pattern |
| TlsPolicy.ClientValidator | main.go:223-246 | no error exactly when the leaf of some verified chain has a matching CN, DNS name or email address; otherwise the fixed no-match error |
| TlsPolicy.OnlyLeavesMatter | main.go:226 | certificates after the leaf never affect the match |
| TlsPolicy.SetupTLSWith | main.go:248-302 | no TLS address gives neither a config nor an error; each failing step gives its own error; a config has the key pair, TLS 1.2 minimum, the six ECDHE AEAD suites, and requires verified client certificates against the CA pool exactly in the selected mode; certificate matching is installed only in that mode and only when asked for; without client certificates and without certmatch the listener always gets a config |
| TlsPolicy.SetupTLSAsWritten | main.go:273 | client certificates are required exactly when -web.tls.verify is false, and asking for matching with verify true is an error |
| TlsPolicy.VerifyFlagInverted | main.go:273-299 | with -web.tls.verify=true the code builds a config that requests no client certificate, and refuses certmatch with the message that verify must be set |
| TlsPolicy.SetupTLS | main.go:248-302 | (corrected) client certificates are required exactly when -web.tls.verify is true; matching without verify is refused |
| TlsPolicy.PeerCheck | main.go:287-291 | with a pattern in the configuration, a handshake passes exactly when some leaf matches that very pattern; without one, nothing beyond chain verification is checked |
| TextUtil.SplitSlash | main.go:205-206 | splitting on '/' yields pieces without '/' that join back to the input |
| TextUtil.SplitJoin | main.go:205-206 | splitting undoes joining for pieces without '/' |
| TextUtil.Resolve | main.go:205-206 | lexical resolution of ".", ".." and empty segments yields only canonical segments |
| TextUtil.ResolveAppend | main.go:205-206 | resolving a concatenation of segment lists is resolving the second list from where the first one left off |
| TextUtil.ResolveCanonical | main.go:205-206 | canonical segments are kept as they are |
| TextUtil.CleanRooted | main.go:205-206 | path.Clean("/" + p) starts with '/' and, unless it is "/", consists only of canonical segments |
| TextUtil.CleanIdempotent | main.go:205-206 | cleaning a cleaned path changes nothing |
| TextUtil.CleanCanonical | main.go:205-206 | a relative path of canonical segments cleans to itself, rooted |
| TextUtil.CleanDefaultPaths | main.go:64-65 | the default "/proxy" and "/metrics" are already clean |
| TextUtil.CleanOneSegment | main.go:205-206 | a rooted path of one canonical segment is already clean |
| TextUtil.CleanEmpty | main.go:205-206 | an empty path flag cleans to "/" |
| TextUtil.JoinSlashAppend | main.go:205-206 | joining two non-empty segment lists is joining each with a '/' between |
| TextUtil.SplitSlashConcat | main.go:205-206 | splitting x + "/" + y is splitting x and then y |
| TextUtil.CleanAppend | main.go:205-206 | cleaning p + "/" + rest resolves the segments of rest from the cleaned segments of p |
| TextUtil.CleanParent | main.go:205-206 | for every p and every canonical segment, p + "/" + seg + "/.." cleans to what p cleans to |
| TextUtil.CleanTrailing | main.go:205-206 | for every p, a trailing "/" or "/." does not change the cleaned path |
| TextUtil.CleanParentOfRoot | main.go:205-206 | for every p that cleans to "/", p + "/.." also cleans to "/" |
| TextUtil.SkipSpace | main.go:200 | the leading white space ends at the first non-space character |
| TextUtil.EndOfText | main.go:200 | the trailing white space starts just after the last non-space character |
| TextUtil.TrimmedPart | main.go:200 | the trimmed middle is a slice of the input, empty exactly when the input is all white space |
| TextUtil.TrimSpace | main.go:200-201 | the result is empty exactly when the contents are all white space; otherwise it starts and ends with a non-space character and is a slice of the input with only white space around it |
| TextUtil.LastDot | main.go:150 | it finds the last '.' of the final path element, or reports that the final element has none |
| TextUtil.Ext | main.go:150 | the extension is a suffix of the name that starts with its only '.' and holds no '/', and it is empty exactly when the final element of the name has no '.' |
| TextUtil.TrimSuffix | main.go:155 | the suffix is removed when the name ends with it, and nothing changes otherwise |
| TextUtil.ModuleName | main.go:155 | the module name followed by the extension is the file name |
| TextUtil.ModuleNameExamples | main.go:150-155 | examples, fixed inputs: "node.yml" defines "node", "app.v2.yaml" defines "app.v2", and "README" has no extension |
| Setup.LoadEntry | main.go:148-170 | non-yaml entries are skipped; a yaml file naming a registered module is refused; otherwise its parsed definition is registered under its name |
| Setup.LoadDirEntries | main.go:148-171 | the entry loop computes LoadEntries |
| Setup.LoadConfigDirs | main.go:135-172 | the directory loop computes LoadDirs; a missing directory is skipped only with -config.skip-dirs |
| Setup.LoadEntriesSplit | main.go:148-171 | loading a directory is loading a prefix of its entries and then the rest, and a failure in the prefix is a failure of the whole |
| Setup.LoadEntriesKeeps | main.go:155-157 | loading never replaces a registered module |
| Setup.RegisteredNameRejected | main.go:155-157 | a yaml file naming an already registered module makes loading fail |
| Setup.DuplicateNameRejected | main.go:155-157 | two yaml files of one directory that define the same module make loading fail |
| Setup.DuplicateAcrossDirsRejected | main.go:155-157 | two yaml files in different -config.dirs directories that name the same module make loading fail, because the later one sees the module the earlier directory registered |
| Setup.YamlFilesRegistered | main.go:154-170 | after a successful load every yaml file's module is registered with the definition read from it |
| Setup.YamlFiles | main.go:150-152 | the filter keeps exactly the yaml files of the listing, and no more entries than it has |
| Setup.OnlyYamlFilesMatter | main.go:150-152 | directories and non-yaml files have no effect on loading |
| Setup.LoadDirsKeeps | main.go:135-172 | across all directories no registered module is replaced |
| Setup.RegisteredInDirsRejected | main.go:135-172 | a yaml file in any directory naming a module already registered makes setup fail |
| Setup.LoadDirsSplit | main.go:135-172 | the directory loop composes over a split of the directory list: a failure in the first part fails the whole, otherwise the rest loads from its result |
| Setup.YamlFilesInDirsRegistered | main.go:135-172 | after every directory loaded, the module of every yaml file in a listed directory is registered |
| Setup.ResolveBearerToken | main.go:185-206 | both token flags are refused; a token file's contents are trimmed; a blank file is refused; each error has its own text |
| Setup.ReadBearerToken | main.go:185-206 | the token steps of setup compute ResolveBearerToken |
| Setup.RegisterAll | main.go:368-370 | handler registration succeeds exactly when no pattern repeats, and then registers exactly those patterns |
| Setup.CheckPathsAsWritten | main.go:205-209 | only cleaned proxy and telemetry paths that are equal are refused |
| Setup.RootProxyPathPassesAsWritten | main.go:205-209 | -web.proxy-path=/ passes the check, and then the registrations collide at "/" |
| Setup.CheckPaths | main.go:205-209 | (corrected) equal cleaned paths are refused with the source's message; the check passes exactly when all three registrations can be made |
| Setup.SamePathRefused | main.go:205-209 | "proxy" and "/proxy" are the same path after cleaning and are refused |
| Setup.CheckPathsRefinesAsWritten | main.go:205-209 | the corrected check passes exactly the paths setup's check passes and whose registrations (main.go:368-370) succeed, yielding the same cleaned paths |
| Setup.DiscoveryDefaults | main.go:173-219 | the discovery address and interval are never empty, and the enabled switch comes from the file |
| Setup.RunSetup | main.go:116-221 | setup succeeds exactly when every step succeeds; it then returns the loaded modules, the resolved token, the cleaned paths, which differ, the discovery defaults and the parsed interval; the path check is the one setup makes, which lets a proxy path of "/" through |
| Setup.SetupRefusals | main.go:155-212 | colliding paths, both token flags and a blank token file each make setup fail, and so does a module defined twice: in the configuration file and in a directory, or in two different directories |
| Flags.StringSliceFlag.Set | main.go:528-531 | appends the value and returns no error |
| Flags.IPNetSliceFlag.Set | main.go:545-552 | appends the parsed network, or returns the parse error and leaves the list unchanged |
| Flags.AllowNetsInOrder | main.go:545-552 | example, fixed inputs: two allow-list networks are kept in the order given, and a value that does not parse after them adds nothing |

## Left out

- Listeners, http.Server, runListener, the errgroup and shutdown: these are concurrency and network I/O.
- TLS handshakes, x509 parsing, PEM and CA loading, LoadX509KeyPair, BuildNameToCertificate and the config Clone: the model stands these for their results (a key-pair name, CA bytes, a success flag).
- The regexp engine: the certmatch pattern is an uninterpreted predicate.
- File and directory reads and YAML parsing (readConfig, readModuleConfig): these are inputs, and ReadDir's sorting by name is taken as given.
- JSON marshalling and html/template rendering in listModules (including the escaping of module names): only the content type, the listed names and the links are modelled.
- Prometheus internals, time and the float duration value: only the number of observations per label is kept.
- expexp_proxy_timeout_errors_total and expexp_malformed_content_errors_total: no shown handler increments them.
- Logging, including the access-log line format and its timing; LogLevelFlag; the String methods of the flags; manageService, versionStr, startDiscovery and pprof.
- The exec and HTTP backend ServeHTTP, and the reverse-proxy transport: a request handed to them is the end of the model.
- The telemetry handler and ServeMux path matching and redirects: only the registrations (and their collision) are modelled.
- HttpTypes.Encode: RawQuery is kept as the parsed map; percent-encoding and the key order of Encode are not modelled.
- Encoding.Base64Decode: it exists only as the inverse for the round trip, decodes well-formed input only, and reports no error for malformed input; the gateway itself never decodes.
- HttpTypes.StatusText: it covers only the status codes this gateway writes.
- TextUtil.TrimSpace: token-file bytes are taken as characters, so invalid UTF-8 is not modelled.
- Setup.FullPath: it joins with '/' without the cleaning filepath.Join also does; this only affects error texts.
- Dispatch.ModuleConfig: a module's name is whatever readModuleConfig stored, because that function is not part of this model.
- Dispatch.DoProxy: it requires a well-formed query, because URL.Query() never stores an empty list; Go would panic on mod[0] for an empty list.
- Director.Direct: it requires a non-empty merged "module" list, because Go panics slicing a nil list; doProxy always provides one (Dispatch.DelegatedRequestCanBeDirected).
- Director.AddHeadersOrderIndependent: configured header names that collide after canonicalisation (such as "x-a" and "X-A") get their values in map iteration order, so the header list is not determined; Director.HeaderOrderMattersOnCollision shows this.
- Setup.RunSetup: when time.ParseDuration fails, Go returns the config together with the error; main discards both, so the model returns only the error. "no modules loaded" is only logged.
- Setup.CheckPaths: its refusal of a path that cleans to "/", and the RootPath message it gives, are the model's own; the source refuses only equal paths, and setup (Setup.RunSetup) keeps that as-written check.

## Findings

| source | as written | input that shows it | evidently intended | confidence | as-written member | corrected member |
|---|---|---|---|---|---|---|
| main.go:273 | `if !*verify` requires and verifies client certificates when -web.tls.verify is false | `-web.tls.verify=true` gives a config that asks for no client certificate; `-web.tls.verify=true -web.tls.certmatch=x` is refused as "tls.web.verify must be set" | the flag's help text (main.go:60) and the error (main.go:298): verification when the flag is true | high; not executed | TlsPolicy.SetupTLSAsWritten (shown by TlsPolicy.VerifyFlagInverted) | TlsPolicy.SetupTLS |
| main.go:479 | index links are hard-coded as `/proxy?module=<name>` | `-web.proxy-path=/scrape`: the links point at /proxy, which the proxy handler does not serve | links under the configured proxy path | medium; not executed | Dispatch.ListModulesAsWritten (shown by Dispatch.AsWrittenLinkMissesProxyPath) | Dispatch.ListModules (with Dispatch.IndexLinkSelectsModule) |
| main.go:415-418 | responseWriterWithStatus records every WriteHeader code, but net/http keeps only the first | listModules writes part of the page and then calls http.Error: the access log records 500, the client got 200 | record the status actually sent | medium; not executed | Chain.StatusWriterAsWritten.WriteHeader (shown by Chain.AsWrittenMisreports) | Chain.StatusWriter.WriteHeader (with Chain.CorrectedReports) |
| main.go:205-209 | only equal proxy and telemetry paths are refused | `-web.proxy-path=/` passes setup, and then http.HandleFunc("/", listModules) registers "/" a second time, which panics | also refuse a path that cleans to "/" | medium; not executed | Setup.CheckPathsAsWritten (shown by Setup.RootProxyPathPassesAsWritten) | Setup.CheckPaths |
