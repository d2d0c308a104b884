/**
 * The two authorization middlewares (http.go): BearerAuthMiddleware and
 * IPAddressAuthMiddleware. Each either admits the request to the handler it
 * wraps or answers it itself without calling that handler.
 */
module Auth {
  import opened Wrappers
  import opened HttpTypes
  import opened TextUtil

  /** What a middleware does with a request: pass it on, or answer it itself. */
  datatype Verdict = Admit | Deny(response: Response)

  // ---------------------------------------------------------------------
  // Bearer token

  const MissingHeaderMsg := "Authorization header is missing"
  const NotBearerMsg := "Authorization header not of Bearer type"
  const InvalidTokenMsg := "Invalid Bearer Token"

  /** strings.SplitN(s, sep, 2) for a one-character separator. */
  function SplitN2(s: string, sep: char): (parts: seq<string>)
    ensures |parts| == 1 <==> sep !in s
    ensures |parts| == 1 ==> parts[0] == s
    ensures |parts| == 2 ==> parts[0] + [sep] + parts[1] == s && sep !in parts[0]
    ensures 1 <= |parts| <= 2
  {
    match IndexOf(s, sep)
    case None => [s]
    case Some(i) =>
      assert s == s[..i] + [sep] + s[i + 1..];
      [s[..i], s[i + 1..]]
  }

  /** A value of the form "Bearer <rest>": the word Bearer and a space, then anything. */
  predicate IsBearerForm(a: string)
  {
    |a| >= 7 && a[..7] == "Bearer "
  }

  /** SplitN at the first space yields ["Bearer", rest] exactly for the Bearer form. */
  lemma BearerSplit(a: string)
    ensures var ss := SplitN2(a, ' ');
      (|ss| == 2 && ss[0] == "Bearer") <==> IsBearerForm(a)
    ensures IsBearerForm(a) ==> SplitN2(a, ' ') == ["Bearer", a[7..]]
  {
    var ss := SplitN2(a, ' ');
    if |ss| == 2 && ss[0] == "Bearer" {
      assert a == "Bearer" + [' '] + ss[1];
      assert a[..7] == "Bearer ";
    }
    if IsBearerForm(a) {
      assert a[6] == ' ';
      assert ' ' in a;
      var i := IndexOf(a, ' ').value;
      assert i == 6;
      assert a[..6] == "Bearer";
    }
  }

  /**
   * BearerAuthMiddleware.ServeHTTP without the inner call: the request is
   * admitted exactly when its Authorization header reads "Bearer " followed
   * by the token; otherwise one of three 401 answers is written.
   */
  function BearerCheck(token: string, header: Values): (v: Verdict)
    ensures var a := HeaderGet(header, "Authorization");
      && (v == Admit <==> a == "Bearer " + token)
      && (a == "" ==> v == Deny(Response(StatusUnauthorized, MissingHeaderMsg)))
      && (a != "" && !IsBearerForm(a) ==> v == Deny(Response(StatusUnauthorized, NotBearerMsg)))
      && (IsBearerForm(a) && a[7..] != token ==> v == Deny(Response(StatusUnauthorized, InvalidTokenMsg)))
  {
    var authHeader := HeaderGet(header, "Authorization");
    BearerSplit(authHeader);
    if authHeader == "" then Deny(Response(StatusUnauthorized, MissingHeaderMsg))
    else
      var ss := SplitN2(authHeader, ' ');
      if !(|ss| == 2 && ss[0] == "Bearer") then Deny(Response(StatusUnauthorized, NotBearerMsg))
      else if ss[1] != token then Deny(Response(StatusUnauthorized, InvalidTokenMsg))
      else Admit
  }

  // ---------------------------------------------------------------------
  // IP allow list

  type IP = seq<bv8>

  /** net.IPNet: a network number and a mask, each 4 or 16 bytes when well formed. */
  datatype IPNet = IPNet(ip: IP, mask: seq<bv8>)

  predicate IsZeros(s: seq<bv8>)
  {
    forall i :: 0 <= i < |s| ==> s[i] == 0
  }

  /** net.IP.To4: the 4-byte form of an IPv4 address (also of its IPv4-mapped IPv6 form). */
  function To4(ip: IP): (r: Option<IP>)
    ensures r.Some? ==> |r.value| == 4
  {
    if |ip| == 4 then Some(ip)
    else if |ip| == 16 && IsZeros(ip[..10]) && ip[10] == 0xff && ip[11] == 0xff then Some(ip[12..])
    else None
  }

  /** The IPv4-mapped IPv6 form net.ParseIP gives a dotted-quad address. */
  function MappedV6(ip4: IP): IP
    requires |ip4| == 4
  {
    [0, 0, 0, 0, 0, 0, 0, 0, 0, 0, 0xff, 0xff] + ip4
  }

  /**
   * networkNumberAndMask: the network number (in 4-byte form for IPv4) and a
   * mask of the same length; both empty when the IPNet is malformed.
   */
  function NetworkNumberAndMask(n: IPNet): (r: (IP, seq<bv8>))
    ensures |r.0| == |r.1|
    ensures |r.0| == 0 || |r.0| == 4 || |r.0| == 16
  {
    var ip := match To4(n.ip) case Some(x) => x case None => n.ip;
    if To4(n.ip).None? && |ip| != 16 then ([], [])
    else if |n.mask| == 4 then (if |ip| != 4 then ([], []) else (ip, n.mask))
    else if |n.mask| == 16 then (if |ip| == 4 then (ip, n.mask[12..]) else (ip, n.mask))
    else ([], [])
  }

  /** The form net.IPNet.Contains compares: the 4-byte form when there is one. */
  function Normalize(ip: IP): IP
  {
    match To4(ip) case Some(x) => x case None => ip
  }

  /** net.IPNet.Contains: same length as the network number, and equal under the mask. */
  predicate Contains(n: IPNet, ip: IP)
  {
    var (nn, m) := NetworkNumberAndMask(n);
    var x := Normalize(ip);
    |x| == |nn| && forall i :: 0 <= i < |x| ==> nn[i] & m[i] == x[i] & m[i]
  }

  /** A network cannot tell an IPv4 address from its IPv4-mapped IPv6 form. */
  lemma ContainsMappedV6(n: IPNet, ip4: IP)
    requires |ip4| == 4
    ensures Contains(n, MappedV6(ip4)) <==> Contains(n, ip4)
  {
    var v6 := MappedV6(ip4);
    assert v6[..10] == [0, 0, 0, 0, 0, 0, 0, 0, 0, 0];
    assert v6[12..] == ip4;
    assert Normalize(v6) == Normalize(ip4);
  }

  /** The index of the first network of acl that contains ip (the loop's early return). */
  function FirstContaining(acl: seq<IPNet>, ip: IP): (r: Option<nat>)
    ensures r.Some? ==> r.value < |acl| && Contains(acl[r.value], ip)
                        && forall j :: 0 <= j < r.value ==> !Contains(acl[j], ip)
    ensures r.None? ==> forall j :: 0 <= j < |acl| ==> !Contains(acl[j], ip)
  {
    if acl == [] then None
    else if Contains(acl[0], ip) then Some(0)
    else match FirstContaining(acl[1..], ip)
      case None => None
      case Some(i) => Some(i + 1)
  }

  const NoClientIPMsg := "Failed to determine client IP address"
  const ForbiddenMsg := "Forbidden"

  /**
   * IPAddressAuthMiddleware.ServeHTTP without the inner call. client is
   * net.ParseIP of the host net.SplitHostPort takes from the remote address,
   * None when either fails.
   */
  function IPAclCheck(acl: seq<IPNet>, client: Option<IP>): (v: Verdict)
    ensures client.None? ==> v == Deny(Response(StatusInternalServerError, NoClientIPMsg))
    ensures client.Some? ==> (v == Admit <==> exists j :: 0 <= j < |acl| && Contains(acl[j], client.value))
    ensures client.Some? && v != Admit ==> v == Deny(Response(StatusForbidden, ForbiddenMsg))
    ensures acl == [] ==> v != Admit
  {
    match client
    case None => Deny(Response(StatusInternalServerError, NoClientIPMsg))
    case Some(addr) =>
      if FirstContaining(acl, addr).Some? then Admit
      else Deny(Response(StatusForbidden, ForbiddenMsg))
  }

  /** The network 10.0.0.0/8 in the form net.ParseCIDR returns. */
  const TenSlashEight := IPNet([10, 0, 0, 0], [0xff, 0, 0, 0])

  /** The network number and mask Contains compares against for 10.0.0.0/8. */
  lemma TenSlashEightNumberAndMask()
    ensures NetworkNumberAndMask(TenSlashEight) == ([10, 0, 0, 0], [0xff, 0, 0, 0])
  {
    assert To4(TenSlashEight.ip) == Some([10, 0, 0, 0]);
  }

  /** 10.0.0.0/8 contains 10.1.2.3: the first byte agrees and the mask clears the others. */
  lemma TenSlashEightContainsInside()
    ensures Contains(TenSlashEight, [10, 1, 2, 3])
  {
    TenSlashEightNumberAndMask();
    var x: IP := [10, 1, 2, 3];
    assert Normalize(x) == x;
    var nn: IP, m: seq<bv8> := [10, 0, 0, 0], [0xff, 0, 0, 0];
    assert nn[0] & m[0] == 10 == x[0] & m[0];
    assert nn[1] & m[1] == 0 == x[1] & m[1];
    assert nn[2] & m[2] == 0 == x[2] & m[2];
    assert nn[3] & m[3] == 0 == x[3] & m[3];
  }

  /** 10.0.0.0/8 does not contain 192.168.1.1: the first byte differs under the mask. */
  lemma TenSlashEightContainsOutside()
    ensures !Contains(TenSlashEight, [192, 168, 1, 1])
  {
    TenSlashEightNumberAndMask();
    var x: IP := [192, 168, 1, 1];
    assert Normalize(x) == x;
    var nn: IP, m: seq<bv8> := [10, 0, 0, 0], [0xff, 0, 0, 0];
    assert nn[0] & m[0] == 10 && x[0] & m[0] == 192;
  }

  /** An allow list of 10.0.0.0/8 admits 10.1.2.3 and forbids 192.168.1.1 (both as net.ParseIP returns them). */
  lemma TenSlashEightExample()
    ensures IPAclCheck([TenSlashEight], Some(MappedV6([10, 1, 2, 3]))) == Admit
    ensures IPAclCheck([TenSlashEight], Some(MappedV6([192, 168, 1, 1]))) == Deny(Response(403, "Forbidden"))
  {
    ContainsMappedV6(TenSlashEight, [10, 1, 2, 3]);
    ContainsMappedV6(TenSlashEight, [192, 168, 1, 1]);
    TenSlashEightContainsInside();
    TenSlashEightContainsOutside();
  }
}
