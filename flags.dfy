/**
 * The repeatable command-line flags (main.go): -config.dirs collects every
 * value given, -allow.net collects every network given in CIDR notation.
 */
module Flags {
  import opened Wrappers
  import opened Auth

  /** StringSliceFlag: the values of every use of the flag, in order. */
  class StringSliceFlag {
    var values: seq<string>

    constructor()
      ensures values == []
    {
      values := [];
    }

    /** Set appends the value and never fails. */
    method Set(value: string) returns (err: Option<string>)
      modifies this
      ensures values == old(values) + [value]
      ensures err == None
    {
      values := values + [value];
      return None;
    }
  }

  /** IPNetSliceFlag: the networks of every use of the flag, in order. */
  class IPNetSliceFlag {
    var nets: seq<IPNet>

    constructor()
      ensures nets == []
    {
      nets := [];
    }

    /**
     * Set with parsed standing for net.ParseCIDR(value): the network is
     * appended when the value parses; otherwise the parse error is returned
     * and the list is unchanged.
     */
    method Set(value: string, parsed: Result<IPNet>) returns (err: Option<string>)
      modifies this
      ensures parsed.Ok? ==> nets == old(nets) + [parsed.value] && err == None
      ensures parsed.Err? ==> nets == old(nets) && err == Some(parsed.error)
    {
      if parsed.Err? {
        return Some(parsed.error);
      }
      nets := nets + [parsed.value];
      return None;
    }
  }

  /** Networks given on the command line keep their order, and the first one listed is consulted first. */
  method AllowNetsInOrder(a: IPNet, b: IPNet) returns (acl: seq<IPNet>)
    ensures acl == [a, b]
  {
    var flag := new IPNetSliceFlag();
    var e1 := flag.Set("first", Ok(a));
    var e2 := flag.Set("second", Ok(b));
    var e3 := flag.Set("not-a-cidr", Err("invalid CIDR address: not-a-cidr"));
    acl := flag.nets;
  }
}
