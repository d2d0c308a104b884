/**
 * The parts of Go's net/url and net/http values that the gateway's handlers
 * read and write: url.Values, http.Header, the request URL, a request as a
 * handler sees it, and a written response.
 */
module HttpTypes {
  import opened Wrappers

  /** url.Values and http.Header share the shape map[string][]string. */
  type Values = map<string, seq<string>>

  /** The values listed under k; Go reads a missing key as a nil slice. */
  function Lookup(m: Values, k: string): seq<string>
  {
    if k in m then m[k] else []
  }

  /** url.ParseQuery never stores a key without at least one value. */
  predicate WellFormedQuery(q: Values)
  {
    forall k :: k in q ==> q[k] != []
  }

  /** url.Values.Add: appends v to the list under k, creating it if absent. */
  function QueryAdd(q: Values, k: string, v: string): (r: Values)
    ensures Lookup(r, k) == Lookup(q, k) + [v]
    ensures forall j :: j != k ==> Lookup(r, j) == Lookup(q, j)
    ensures r.Keys == q.Keys + {k}
  {
    q[k := Lookup(q, k) + [v]]
  }

  /**
   * url.Values.Encode followed by URL.Query(): a key whose list is empty
   * writes nothing, so it does not come back; every other list comes back
   * as it was. (The percent-encoding and the key order of RawQuery are not
   * modelled.)
   */
  function Encode(q: Values): (r: Values)
    ensures WellFormedQuery(r)
    ensures forall k :: Lookup(r, k) == Lookup(q, k)
    ensures forall k :: k in r <==> Lookup(q, k) != []
  {
    map k | k in q && q[k] != [] :: q[k]
  }

  /** Encode reads a query only through Lookup. */
  lemma EncodeRespectsLookup(a: Values, b: Values)
    requires forall k :: Lookup(a, k) == Lookup(b, k)
    ensures Encode(a) == Encode(b)
  {
    var ea, eb := Encode(a), Encode(b);
    assert ea.Keys == eb.Keys by {
      forall k ensures k in ea <==> k in eb {
        assert Lookup(a, k) == Lookup(b, k);
      }
    }
    forall k | k in ea ensures ea[k] == eb[k] {
      assert Lookup(ea, k) == Lookup(a, k) == Lookup(b, k) == Lookup(eb, k);
    }
  }

  /** A well-formed query is already in encoded form. */
  lemma {:induction false} EncodeWellFormed(q: Values)
    requires WellFormedQuery(q)
    ensures Encode(q) == q
  {
    var e := Encode(q);
    assert e.Keys == q.Keys by {
      forall k ensures k in e <==> k in q {
        assert k in q ==> q[k] != [];
      }
    }
  }

  // ---------------------------------------------------------------------
  // Header keys: textproto.CanonicalMIMEHeaderKey

  /** The bytes Go accepts in a header field name (RFC 7230 token characters). */
  predicate IsTokenChar(c: char)
  {
    ('a' <= c <= 'z') || ('A' <= c <= 'Z') || ('0' <= c <= '9') ||
    c in "!#$%&'*+-.^_`|~"
  }

  function ToUpper(c: char): char
  {
    if 'a' <= c <= 'z' then (c as int - 32) as char else c
  }

  function ToLower(c: char): char
  {
    if 'A' <= c <= 'Z' then (c as int + 32) as char else c
  }

  predicate IsUpper(c: char)
  {
    'A' <= c <= 'Z'
  }

  predicate IsLetter(c: char)
  {
    ('a' <= c <= 'z') || ('A' <= c <= 'Z')
  }

  /** The case the canonical form gives position i of s. */
  function CanonicalCharAt(s: string, i: nat): char
    requires i < |s|
  {
    if i == 0 || s[i - 1] == '-' then ToUpper(s[i]) else ToLower(s[i])
  }

  predicate AllTokenChars(s: string)
  {
    forall i :: 0 <= i < |s| ==> IsTokenChar(s[i])
  }

  /**
   * A key made only of token characters gets its first letter and every
   * letter after a '-' upper-cased and all other letters lower-cased; any
   * other key is used unchanged.
   */
  function CanonicalKey(s: string): (r: string)
    ensures |r| == |s|
    ensures !AllTokenChars(s) ==> r == s
    ensures forall i :: 0 <= i < |s| ==> ToLower(r[i]) == ToLower(s[i])
    ensures AllTokenChars(s) ==> forall i :: 0 <= i < |s| ==>
      (IsUpper(r[i]) <==> IsLetter(s[i]) && (i == 0 || s[i - 1] == '-'))
  {
    if AllTokenChars(s) then
      CanonicalChars(s);
      seq(|s|, i requires 0 <= i < |s| => CanonicalCharAt(s, i))
    else s
  }

  /** The canonical case of each position keeps the letter and upper-cases exactly the word starts. */
  lemma CanonicalChars(s: string)
    requires AllTokenChars(s)
    ensures forall i :: 0 <= i < |s| ==> ToLower(CanonicalCharAt(s, i)) == ToLower(s[i])
    ensures forall i :: 0 <= i < |s| ==>
      (IsUpper(CanonicalCharAt(s, i)) <==> IsLetter(s[i]) && (i == 0 || s[i - 1] == '-'))
  {
    forall i | 0 <= i < |s|
      ensures ToLower(CanonicalCharAt(s, i)) == ToLower(s[i])
      ensures IsUpper(CanonicalCharAt(s, i)) <==> IsLetter(s[i]) && (i == 0 || s[i - 1] == '-')
    {
      assert IsTokenChar(s[i]);
    }
  }

  /** Canonicalising twice is canonicalising once. */
  lemma CanonicalKeyIdempotent(s: string)
    ensures CanonicalKey(CanonicalKey(s)) == CanonicalKey(s)
  {
    var c := CanonicalKey(s);
    if AllTokenChars(s) {
      forall i | 0 <= i < |c| ensures IsTokenChar(c[i]) && (c[i] == '-' <==> s[i] == '-') {
        assert c[i] == CanonicalCharAt(s, i);
      }
      assert AllTokenChars(c);
      var cc := CanonicalKey(c);
      forall i | 0 <= i < |c| ensures cc[i] == c[i] {
        assert cc[i] == CanonicalCharAt(c, i);
        assert c[i] == CanonicalCharAt(s, i);
      }
    }
  }

  /** A token key whose every character already has its canonical case is its own canonical form. */
  lemma CanonicalKeyOfCanonical(s: string)
    requires AllTokenChars(s)
    requires forall i :: 0 <= i < |s| ==> CanonicalCharAt(s, i) == s[i]
    ensures CanonicalKey(s) == s
  {
    var c := CanonicalKey(s);
    assert forall i :: 0 <= i < |s| ==> c[i] == CanonicalCharAt(s, i);
  }

  /** Characters equal up to case agree in both cases, and '-' is only equal to itself. */
  lemma SameLetter(x: char, y: char)
    requires ToLower(x) == ToLower(y)
    ensures ToUpper(x) == ToUpper(y) && (x == '-' <==> y == '-')
  {
  }

  /**
   * Two keys made of token characters have the same canonical form exactly
   * when they are equal up to ASCII case, so header names that differ only in
   * case name the same header.
   */
  lemma CanonicalKeyCaseInsensitive(a: string, b: string)
    requires AllTokenChars(a) && AllTokenChars(b)
    ensures CanonicalKey(a) == CanonicalKey(b) <==>
      |a| == |b| && forall i :: 0 <= i < |a| ==> ToLower(a[i]) == ToLower(b[i])
  {
    if |a| == |b| && forall i :: 0 <= i < |a| ==> ToLower(a[i]) == ToLower(b[i]) {
      var ca, cb := CanonicalKey(a), CanonicalKey(b);
      forall i | 0 <= i < |a| ensures ca[i] == cb[i] {
        assert ca[i] == CanonicalCharAt(a, i) && cb[i] == CanonicalCharAt(b, i);
        SameLetter(a[i], b[i]);
        if i > 0 {
          SameLetter(a[i - 1], b[i - 1]);
        }
      }
      assert ca == cb;
    }
    if CanonicalKey(a) == CanonicalKey(b) {
      forall i | 0 <= i < |a| ensures ToLower(a[i]) == ToLower(b[i]) {
        assert ToLower(CanonicalKey(a)[i]) == ToLower(a[i]);
      }
    }
  }

  /** http.Header.Get: the first value under the canonical key, or "". */
  function HeaderGet(h: Values, key: string): string
  {
    var vs := Lookup(h, CanonicalKey(key));
    if vs == [] then "" else vs[0]
  }

  /** http.Header.Add: appends to the list under the canonical key. */
  function HeaderAdd(h: Values, key: string, v: string): Values
  {
    QueryAdd(h, CanonicalKey(key), v)
  }

  /** http.Header.Set: replaces the list under the canonical key by [v]. */
  function HeaderSet(h: Values, key: string, v: string): (r: Values)
    ensures Lookup(r, CanonicalKey(key)) == [v]
    ensures forall j :: j != CanonicalKey(key) ==> Lookup(r, j) == Lookup(h, j)
  {
    h[CanonicalKey(key) := [v]]
  }

  // ---------------------------------------------------------------------
  // Requests and responses

  /**
   * The URL fields the gateway reads or rewrites; query is RawQuery as
   * URL.Query() parses it.
   */
  datatype Url = Url(scheme: string, host: string, path: string, query: Values)

  /**
   * An inbound request as a handler sees it: its URL, its headers, the
   * connection's remote address, and the deadline (an absolute time) of its
   * context, if any.
   */
  datatype Req = Req(url: Url, header: Values, remoteAddr: string, deadline: Option<int>)

  /** A status code and body written to an http.ResponseWriter. */
  datatype Response = Response(status: int, body: string)

  const StatusOK := 200
  const StatusBadRequest := 400
  const StatusUnauthorized := 401
  const StatusForbidden := 403
  const StatusNotFound := 404
  const StatusInternalServerError := 500
  const StatusBadGateway := 502
  const StatusGatewayTimeout := 504

  /** http.StatusText for the codes this gateway writes. */
  function StatusText(code: int): string
  {
    if code == 200 then "OK"
    else if code == 400 then "Bad Request"
    else if code == 401 then "Unauthorized"
    else if code == 403 then "Forbidden"
    else if code == 404 then "Not Found"
    else if code == 500 then "Internal Server Error"
    else if code == 502 then "Bad Gateway"
    else if code == 504 then "Gateway Timeout"
    else ""
  }

  /** http.Error: writes the code and the message followed by a newline. */
  function HttpError(msg: string, code: int): Response
  {
    Response(code, msg + "\n")
  }
}
