/**
 * The TLS decisions of the gateway (main.go): which configuration setupTLS
 * builds from the web.tls.* flags, and the certificate-match check
 * getClientValidator installs for each client.
 */
module TlsPolicy {
  import opened Wrappers

  // ---------------------------------------------------------------------
  // getClientValidator

  /** The parts of an x509 certificate the match looks at. */
  datatype Cert = Cert(commonName: string, dnsNames: seq<string>, emailAddresses: seq<string>)

  /** The certificate is accepted by the pattern: its subject CN, one of its DNS names or one of its email addresses matches. */
  predicate LeafMatches(rx: string -> bool, leaf: Cert)
  {
    || rx(leaf.commonName)
    || (exists i :: 0 <= i < |leaf.dnsNames| && rx(leaf.dnsNames[i]))
    || (exists i :: 0 <= i < |leaf.emailAddresses| && rx(leaf.emailAddresses[i]))
  }

  /** Verified chains always start with the leaf. */
  predicate NonEmptyChains(chains: seq<seq<Cert>>)
  {
    forall i :: 0 <= i < |chains| ==> chains[i] != []
  }

  /** Some verified chain has a leaf the pattern accepts. */
  predicate SomeLeafMatches(rx: string -> bool, chains: seq<seq<Cert>>)
    requires NonEmptyChains(chains)
  {
    exists i :: 0 <= i < |chains| && LeafMatches(rx, chains[i][0])
  }

  const NoMatchMsg := "no client certificate subject or email address matched"

  /** Whether any of names matches, scanning from the front. */
  method AnyMatches(rx: string -> bool, names: seq<string>) returns (found: bool)
    ensures found <==> exists i :: 0 <= i < |names| && rx(names[i])
  {
    var k := 0;
    while k < |names|
      invariant 0 <= k <= |names|
      invariant forall i :: 0 <= i < k ==> !rx(names[i])
    {
      if rx(names[k]) {
        return true;
      }
      k := k + 1;
    }
    return false;
  }

  /**
   * The VerifyPeerCertificate callback: nil (None) as soon as a chain's leaf
   * matches, otherwise the no-match error.
   */
  method ClientValidator(rx: string -> bool, chains: seq<seq<Cert>>) returns (err: Option<string>)
    requires NonEmptyChains(chains)
    ensures err.None? <==> SomeLeafMatches(rx, chains)
    ensures err.Some? ==> err.value == NoMatchMsg
  {
    var c := 0;
    while c < |chains|
      invariant 0 <= c <= |chains|
      invariant forall i :: 0 <= i < c ==> !LeafMatches(rx, chains[i][0])
    {
      var leaf := chains[c][0];
      if rx(leaf.commonName) {
        return None;
      }
      var dns := AnyMatches(rx, leaf.dnsNames);
      if dns {
        return None;
      }
      var email := AnyMatches(rx, leaf.emailAddresses);
      if email {
        return None;
      }
      c := c + 1;
    }
    return Some(NoMatchMsg);
  }

  /** Only leaves are matched: the intermediates and roots of a chain never decide. */
  lemma OnlyLeavesMatter(rx: string -> bool, chains: seq<seq<Cert>>, other: seq<seq<Cert>>)
    requires NonEmptyChains(chains) && NonEmptyChains(other) && |chains| == |other|
    requires forall i :: 0 <= i < |chains| ==> chains[i][0] == other[i][0]
    ensures SomeLeafMatches(rx, chains) <==> SomeLeafMatches(rx, other)
  {
    if SomeLeafMatches(rx, chains) {
      var i :| 0 <= i < |chains| && LeafMatches(rx, chains[i][0]);
      assert LeafMatches(rx, other[i][0]);
    }
    if SomeLeafMatches(rx, other) {
      var i :| 0 <= i < |other| && LeafMatches(rx, other[i][0]);
      assert LeafMatches(rx, chains[i][0]);
    }
  }

  // ---------------------------------------------------------------------
  // setupTLS

  /** The web.tls.* flags. */
  datatype TlsFlags = TlsFlags(
    listenAddress: string,
    certPath: string,
    keyPath: string,
    caPath: string,
    verify: bool,
    certMatch: string)

  /**
   * What the library calls setupTLS makes return: tls.LoadX509KeyPair (the
   * loaded pair, by name), ioutil.ReadFile of the CA file, whether
   * AppendCertsFromPEM found a certificate, and regexp.Compile of the
   * pattern (None when it compiles).
   */
  datatype TlsEnv = TlsEnv(
    keyPair: Result<string>,
    caFile: Result<seq<int>>,
    caCertsLoaded: bool,
    compileError: Option<string>)

  datatype ClientAuth = NoClientCert | RequireAndVerifyClientCert

  /** tls.VersionTLS12 */
  const VersionTLS12 := 0x0303

  /**
   * The cipher suites, in the order given: ECDHE-ECDSA and ECDHE-RSA each with
   * AES-256-GCM-SHA384, ChaCha20-Poly1305 and AES-128-GCM-SHA256.
   */
  const CipherSuites: seq<int> := [0xc02c, 0xc030, 0xcca9, 0xcca8, 0xc02b, 0xc02f]

  /** The fields of the *tls.Config setupTLS returns. */
  datatype TlsConfig = TlsConfig(
    certificates: seq<string>,
    minVersion: int,
    cipherSuites: seq<int>,
    clientAuth: ClientAuth,
    /** The CA pool client certificates are verified against, when set. */
    clientCAs: Option<seq<int>>,
    /** The pattern GetConfigForClient installs a ClientValidator for, when set. */
    certMatch: Option<string>)

  const KeyPairError := "could not parse key/cert, "
  const CaFileError := "could not open ca file, "
  const CaCertsError := "failed loading ca certs"
  const RegexpError := "tls.web.certmatch is not a valid regexp, "
  const VerifyRequiredError := "tls.web.verify must be set to use certificate matching"

  /**
   * setupTLS with the branch condition that selects the client-certificate
   * mode given explicitly: Ok(None) when no TLS address is set, an error
   * from the first step that fails, or the configuration.
   */
  function SetupTLSWith(f: TlsFlags, env: TlsEnv, requireClientCerts: bool): (r: Result<Option<TlsConfig>>)
    ensures f.listenAddress == "" ==> r == Ok(None)
    ensures f.listenAddress != "" && env.keyPair.Err? ==> r == Err(KeyPairError + env.keyPair.error)
    ensures r.Ok? && r.value.Some? ==>
      var c := r.value.value;
      && f.listenAddress != "" && env.keyPair.Ok?
      && c.certificates == [env.keyPair.value]
      && c.minVersion == VersionTLS12 && c.cipherSuites == CipherSuites
      && (c.clientAuth == RequireAndVerifyClientCert <==> requireClientCerts)
      && (requireClientCerts ==> env.caFile.Ok? && env.caCertsLoaded && c.clientCAs == Some(env.caFile.value))
      && (!requireClientCerts ==> c.clientCAs == None)
      && (c.certMatch.Some? <==> f.certMatch != "")
      && (c.certMatch.Some? ==> c.certMatch.value == f.certMatch && requireClientCerts && env.compileError.None?)
    ensures f.listenAddress != "" && env.keyPair.Ok? && !requireClientCerts ==>
      (r.Err? <==> f.certMatch != "") && (r.Err? ==> r.error == VerifyRequiredError) && (r.Ok? ==> r.value.Some?)
    ensures f.listenAddress != "" && env.keyPair.Ok? && requireClientCerts ==>
      && (env.caFile.Err? ==> r == Err(CaFileError + env.caFile.error))
      && (env.caFile.Ok? && !env.caCertsLoaded ==> r == Err(CaCertsError))
      && (env.caFile.Ok? && env.caCertsLoaded && f.certMatch != "" && env.compileError.Some? ==>
            r == Err(RegexpError + env.compileError.value))
      && (env.caFile.Ok? && env.caCertsLoaded && (f.certMatch == "" || env.compileError.None?) ==>
            r.Ok? && r.value.Some?)
  {
    if f.listenAddress == "" then Ok(None)
    else if env.keyPair.Err? then Err(KeyPairError + env.keyPair.error)
    else
      var config := TlsConfig([env.keyPair.value], VersionTLS12, CipherSuites, NoClientCert, None, None);
      if requireClientCerts then
        if env.caFile.Err? then Err(CaFileError + env.caFile.error)
        else if !env.caCertsLoaded then Err(CaCertsError)
        else
          var config := config.(clientAuth := RequireAndVerifyClientCert, clientCAs := Some(env.caFile.value));
          if f.certMatch != "" then
            if env.compileError.Some? then Err(RegexpError + env.compileError.value)
            else Ok(Some(config.(certMatch := Some(f.certMatch))))
          else Ok(Some(config))
      else if f.certMatch != "" then Err(VerifyRequiredError)
      else Ok(Some(config))
  }

  /** setupTLS as written: client certificates are required when web.tls.verify is false. */
  function SetupTLSAsWritten(f: TlsFlags, env: TlsEnv): (r: Result<Option<TlsConfig>>)
    ensures r.Ok? && r.value.Some? ==> (r.value.value.clientAuth == RequireAndVerifyClientCert <==> !f.verify)
    ensures f.listenAddress != "" && env.keyPair.Ok? && f.verify && f.certMatch != "" ==> r == Err(VerifyRequiredError)
  {
    SetupTLSWith(f, env, !f.verify)
  }

  /**
   * With the flags as documented ("-web.tls.verify: Enable client
   * verification") the as-written setup turns verification off, and asking
   * for certificate matching with verification on is refused with a message
   * that says verification must be on.
   */
  lemma VerifyFlagInverted(env: TlsEnv)
    requires env.keyPair.Ok? && env.caFile.Ok? && env.caCertsLoaded && env.compileError.None?
    ensures var on := TlsFlags(":9998", "cert.pem", "key.pem", "ca.pem", true, "");
      SetupTLSAsWritten(on, env).Ok? && SetupTLSAsWritten(on, env).value.Some? &&
      SetupTLSAsWritten(on, env).value.value.clientAuth == NoClientCert
    ensures SetupTLSAsWritten(TlsFlags(":9998", "cert.pem", "key.pem", "ca.pem", true, "^client$"), env)
            == Err(VerifyRequiredError)
  {
  }

  /** setupTLS with web.tls.verify meaning what its help text and error message say. */
  function SetupTLS(f: TlsFlags, env: TlsEnv): (r: Result<Option<TlsConfig>>)
    ensures r.Ok? && r.value.Some? ==> (r.value.value.clientAuth == RequireAndVerifyClientCert <==> f.verify)
    ensures r.Ok? && r.value.Some? && r.value.value.certMatch.Some? ==> f.verify
    ensures f.listenAddress != "" && env.keyPair.Ok? && !f.verify && f.certMatch != "" ==> r == Err(VerifyRequiredError)
  {
    SetupTLSWith(f, env, f.verify)
  }

  /**
   * The pattern compiled by regexp.MustCompile, as the test it applies to a
   * name: matches(pattern, name) is MatchString of the compiled pattern.
   */
  function Matcher(matches: (string, string) -> bool, pattern: string): string -> bool
  {
    n => matches(pattern, n)
  }

  /**
   * The per-client configuration GetConfigForClient returns checks, after the
   * chain verification of the handshake, that some leaf matches the pattern
   * the configuration holds; without a pattern nothing beyond chain
   * verification is checked.
   */
  method PeerCheck(c: TlsConfig, matches: (string, string) -> bool, chains: seq<seq<Cert>>) returns (err: Option<string>)
    requires NonEmptyChains(chains)
    ensures c.certMatch.None? ==> err.None?
    ensures c.certMatch.Some? ==> (err.None? <==> SomeLeafMatches(Matcher(matches, c.certMatch.value), chains))
  {
    if c.certMatch.None? {
      return None;
    }
    err := ClientValidator(Matcher(matches, c.certMatch.value), chains);
  }
}
