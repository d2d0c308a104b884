/**
 * The reverse proxy's error handler (getReverseProxyErrorHandlerFunc,
 * http.go): a failed backend round trip becomes 504 when the failure is the
 * request's deadline running out and 502 otherwise.
 */
module ProxyErrors {
  import opened HttpTypes

  /**
   * An error value as errors.Is walks it: the context.DeadlineExceeded
   * sentinel, context.Canceled, any other leaf error, an error wrapping one
   * other (fmt.Errorf with %w, *url.Error, ...), or a join of several.
   */
  datatype Error =
    | DeadlineExceeded
    | Canceled
    | Leaf(msg: string)
    | Wrapped(msg: string, inner: Error)
    | Joined(errs: seq<Error>)

  /** errors.Is(err, context.DeadlineExceeded): the sentinel is err or is reachable by unwrapping. */
  predicate IsDeadlineExceeded(e: Error)
  {
    match e
    case DeadlineExceeded => true
    case Canceled => false
    case Leaf(_) => false
    case Wrapped(_, inner) => IsDeadlineExceeded(inner)
    case Joined(es) => exists x | x in es :: IsDeadlineExceeded(x)
  }

  /** The response the error handler writes (through http.Error) for err. */
  function ProxyErrorResponse(err: Error): (r: Response)
    ensures r.status == StatusGatewayTimeout <==> IsDeadlineExceeded(err)
    ensures r.status == StatusBadGateway <==> !IsDeadlineExceeded(err)
    ensures r.body == StatusText(r.status) + "\n"
  {
    if IsDeadlineExceeded(err) then HttpError(StatusText(StatusGatewayTimeout), StatusGatewayTimeout)
    else HttpError(StatusText(StatusBadGateway), StatusBadGateway)
  }

  /** Wrapping an error, however deeply, does not change how it is classified. */
  lemma {:induction false} WrappingPreservesClass(e: Error, msgs: seq<string>)
    ensures ProxyErrorResponse(WrapAll(e, msgs)) == ProxyErrorResponse(e)
    decreases |msgs|
  {
    if msgs != [] {
      WrappingPreservesClass(e, msgs[1..]);
    }
  }

  /** e wrapped once per message, innermost first. */
  function WrapAll(e: Error, msgs: seq<string>): Error
    decreases |msgs|
  {
    if msgs == [] then e else Wrapped(msgs[0], WrapAll(e, msgs[1..]))
  }

  /** A deadline hidden anywhere in a join of errors still gives 504. */
  lemma DeadlineInJoinTimesOut(es: seq<Error>, i: nat)
    requires i < |es| && IsDeadlineExceeded(es[i])
    ensures ProxyErrorResponse(Joined(es)).status == StatusGatewayTimeout
  {
    assert es[i] in es;
  }
}
