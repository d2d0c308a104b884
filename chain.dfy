/**
 * The handler chain main builds around the request multiplexer (main.go):
 * AccessLogMiddleware outermost, then the IP allow list when one is
 * configured, then the bearer check when a token is configured; and the
 * status-recording writer the access log reads its status from.
 */
module Chain {
  import opened Wrappers
  import opened HttpTypes
  import opened Auth

  /** One middleware wrapped around the multiplexer. */
  datatype Layer = AccessLog | IPAuth(acl: seq<IPNet>) | BearerAuth(token: string)

  /**
   * The layers main installs, outermost first. main wraps from the inside
   * out: the bearer check around the mux, the allow list around that, and the
   * access log around everything.
   */
  function BuildHandler(token: string, acl: seq<IPNet>): (layers: seq<Layer>)
    ensures |layers| >= 1 && layers[0] == AccessLog
    ensures forall i :: 1 <= i < |layers| ==> !layers[i].AccessLog?
    ensures IPAuth(acl) in layers <==> acl != []
    ensures BearerAuth(token) in layers <==> token != ""
    ensures forall i :: 0 <= i < |layers| ==>
      (layers[i].IPAuth? ==> layers[i] == IPAuth(acl) && i == 1) &&
      (layers[i].BearerAuth? ==> layers[i] == BearerAuth(token) && i == |layers| - 1)
  {
    var handler: seq<Layer> := [];
    var handler := if token != "" then [BearerAuth(token)] + handler else handler;
    var handler := if |acl| > 0 then [IPAuth(acl)] + handler else handler;
    [AccessLog] + handler
  }

  /** Where a request ends up: answered by a middleware, or handed to the multiplexer. */
  datatype Served = Answered(response: Response) | ReachedMux

  /** The decision one layer takes on a request whose client address parses to client. */
  function LayerVerdict(l: Layer, r: Req, client: Option<IP>): Verdict
  {
    match l
    case AccessLog => Admit
    case IPAuth(acl) => IPAclCheck(acl, client)
    case BearerAuth(token) => BearerCheck(token, r.header)
  }

  /** A request passed down the layers: the first layer that denies answers it. */
  function Serve(layers: seq<Layer>, r: Req, client: Option<IP>): (s: Served)
    ensures s.ReachedMux? <==> forall i :: 0 <= i < |layers| ==> LayerVerdict(layers[i], r, client) == Admit
    ensures s.Answered? ==> exists i :: 0 <= i < |layers| && LayerVerdict(layers[i], r, client) == Deny(s.response)
                              && forall j :: 0 <= j < i ==> LayerVerdict(layers[j], r, client) == Admit
  {
    if layers == [] then ReachedMux
    else match LayerVerdict(layers[0], r, client)
      case Deny(resp) => Answered(resp)
      case Admit =>
        var s := Serve(layers[1..], r, client);
        if s.Answered? then
          ghost var i :| 0 <= i < |layers[1..]| && LayerVerdict(layers[1..][i], r, client) == Deny(s.response)
                          && forall j :: 0 <= j < i ==> LayerVerdict(layers[1..][j], r, client) == Admit;
          assert LayerVerdict(layers[i + 1], r, client) == Deny(s.response);
          s
        else
          assert forall i :: 1 <= i < |layers| ==> layers[i] == layers[1..][i - 1];
          s
  }

  /**
   * A request reaches the multiplexer exactly when the allow list (if any)
   * and the bearer check (if any) both admit it.
   */
  lemma ReachesMuxIff(token: string, acl: seq<IPNet>, r: Req, client: Option<IP>)
    ensures Serve(BuildHandler(token, acl), r, client).ReachedMux? <==>
      (acl == [] || IPAclCheck(acl, client) == Admit) && (token == "" || BearerCheck(token, r.header) == Admit)
  {
    var inner: seq<Layer> := if token != "" then [BearerAuth(token)] else [];
    var mid := if acl != [] then [IPAuth(acl)] + inner else inner;
    assert BuildHandler(token, acl) == [AccessLog] + mid;
    ServeFirst(AccessLog, mid, r, client);
    if acl != [] {
      ServeFirst(IPAuth(acl), inner, r, client);
    }
    if token != "" {
      ServeFirst(BearerAuth(token), [], r, client);
    }
  }

  /** A layer either answers the request itself or passes it on. */
  lemma ServeFirst(l: Layer, rest: seq<Layer>, r: Req, client: Option<IP>)
    ensures LayerVerdict(l, r, client).Deny? ==> Serve([l] + rest, r, client) == Answered(LayerVerdict(l, r, client).response)
    ensures LayerVerdict(l, r, client).Admit? ==> Serve([l] + rest, r, client) == Serve(rest, r, client)
  {
    assert ([l] + rest)[1..] == rest;
  }

  /** The allow list is consulted before the token: a client it refuses never sees a 401. */
  lemma AclAnswersBeforeBearer(token: string, acl: seq<IPNet>, r: Req, client: Option<IP>)
    requires acl != [] && IPAclCheck(acl, client).Deny?
    ensures Serve(BuildHandler(token, acl), r, client) == Answered(IPAclCheck(acl, client).response)
  {
    var layers := BuildHandler(token, acl);
    assert layers[0] == AccessLog && layers[1] == IPAuth(acl);
  }

  /** With neither a token nor an allow list every request reaches the multiplexer. */
  lemma OpenWithoutAuth(r: Req, client: Option<IP>)
    ensures Serve(BuildHandler("", []), r, client) == ReachedMux
  {
    assert BuildHandler("", []) == [AccessLog];
  }

  // ---------------------------------------------------------------------
  // Response writers

  /**
   * The http.ResponseWriter of the server: the first WriteHeader fixes the
   * status, later ones are ignored, and a Write before any WriteHeader sends
   * 200.
   */
  class ResponseWriter {
    var wroteHeader: bool
    var status: int
    var body: string

    constructor()
      ensures !wroteHeader && body == ""
    {
      wroteHeader := false;
      status := StatusOK;
      body := "";
    }

    /** The status the client receives: the one sent, or 200 when the handler sent none. */
    function Sent(): int
      reads this
    {
      if wroteHeader then status else StatusOK
    }

    method WriteHeader(code: int)
      modifies this
      ensures wroteHeader && body == old(body)
      ensures status == if old(wroteHeader) then old(status) else code
    {
      if !wroteHeader {
        wroteHeader := true;
        status := code;
      }
    }

    method Write(data: string)
      modifies this
      ensures wroteHeader && body == old(body) + data
      ensures status == if old(wroteHeader) then old(status) else StatusOK
    {
      if !wroteHeader {
        WriteHeader(StatusOK);
      }
      body := body + data;
    }
  }

  /**
   * responseWriterWithStatus as written: it starts at 200 and records every
   * WriteHeader call, so it ends with the last code passed, while Write goes
   * straight to the wrapped writer.
   */
  class StatusWriterAsWritten {
    const inner: ResponseWriter
    var status: int

    constructor(w: ResponseWriter)
      ensures inner == w && status == StatusOK
    {
      inner := w;
      status := StatusOK;
    }

    method WriteHeader(code: int)
      modifies this, inner
      ensures status == code
      ensures inner.wroteHeader && inner.body == old(inner.body)
      ensures inner.status == if old(inner.wroteHeader) then old(inner.status) else code
    {
      status := code;
      inner.WriteHeader(code);
    }
  }

  /**
   * listModules writing part of the page and then calling http.Error: the
   * access log records 500 while the client received 200.
   */
  method AsWrittenMisreports() returns (logged: int, sent: int)
    ensures logged == StatusInternalServerError && sent == StatusOK
  {
    var w := new ResponseWriter();
    var sw := new StatusWriterAsWritten(w);
    w.Write("\n\t\t\t<h2>Exporters:</h2>");
    sw.WriteHeader(StatusInternalServerError);
    logged, sent := sw.status, w.Sent();
  }

  /**
   * A status-recording writer that records what the client receives: it
   * keeps the first code, and notes the implicit 200 of a Write.
   */
  class StatusWriter {
    const inner: ResponseWriter
    var status: int

    /** The recorded status is the status the wrapped writer sends. */
    predicate Valid()
      reads this, inner
    {
      status == inner.Sent()
    }

    constructor(w: ResponseWriter)
      requires !w.wroteHeader
      ensures inner == w && Valid() && status == StatusOK
    {
      inner := w;
      status := StatusOK;
    }

    method WriteHeader(code: int)
      requires Valid()
      modifies this, inner
      ensures Valid()
      ensures inner.wroteHeader && inner.body == old(inner.body)
      ensures inner.status == if old(inner.wroteHeader) then old(inner.status) else code
    {
      if !inner.wroteHeader {
        status := code;
      }
      inner.WriteHeader(code);
    }

    method Write(data: string)
      requires Valid()
      modifies this, inner
      ensures Valid()
      ensures inner.wroteHeader && inner.body == old(inner.body) + data
      ensures inner.status == if old(inner.wroteHeader) then old(inner.status) else StatusOK
    {
      inner.Write(data);
    }
  }

  /** The same sequence of calls through the corrected writer logs what was sent. */
  method CorrectedReports() returns (logged: int, sent: int)
    ensures logged == sent == StatusOK
  {
    var w := new ResponseWriter();
    var sw := new StatusWriter(w);
    sw.Write("\n\t\t\t<h2>Exporters:</h2>");
    sw.WriteHeader(StatusInternalServerError);
    logged, sent := sw.status, w.Sent();
  }
}
