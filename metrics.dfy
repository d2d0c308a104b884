/**
 * The Prometheus collectors the request handlers update (main.go): the
 * expexp_proxy_errors_total counter and the number of observations of the
 * expexp_proxy_duration_seconds summary, each per "module" label.
 */
module Metrics {

  /** The value of a labelled counter; a key never touched reads as 0. */
  function Count(c: map<string, nat>, key: string): nat
  {
    if key in c then c[key] else 0
  }

  /** A counter after one Inc() on key. */
  function Bump(c: map<string, nat>, key: string): (r: map<string, nat>)
    ensures Count(r, key) == Count(c, key) + 1
    ensures forall l :: l != key ==> Count(r, l) == Count(c, l)
    ensures r.Keys == c.Keys + {key}
  {
    c[key := Count(c, key) + 1]
  }

  /** Increments on two different labels commute. */
  lemma BumpCommutes(c: map<string, nat>, a: string, b: string)
    ensures Bump(Bump(c, a), b) == Bump(Bump(c, b), a)
  {
    var l, r := Bump(Bump(c, a), b), Bump(Bump(c, b), a);
    assert l.Keys == r.Keys;
    forall k | k in l ensures l[k] == r[k] {
      assert l[k] == Count(l, k) && r[k] == Count(r, k);
    }
  }

  class Metrics {
    /** expexp_proxy_errors_total, by module label. */
    var errors: map<string, nat>
    /** How many durations expexp_proxy_duration_seconds has observed, by module label. */
    var durations: map<string, nat>

    /** Freshly registered collectors hold no samples. */
    constructor()
      ensures errors == map[] && durations == map[]
    {
      errors := map[];
      durations := map[];
    }

    /** proxyErrorCount.WithLabelValues(label).Inc() */
    method IncError(key: string)
      modifies this
      ensures errors == Bump(old(errors), key)
      ensures durations == old(durations)
    {
      errors := Bump(errors, key);
    }

    /** proxyDuration.WithLabelValues(label).Observe(...): one more observation. */
    method Observe(key: string)
      modifies this
      ensures durations == Bump(old(durations), key)
      ensures errors == old(errors)
    {
      durations := Bump(durations, key);
    }
  }
}
