/**
 * The small standard-library encoders the reverse-proxy director relies on:
 * strconv.Itoa for the backend port, net.JoinHostPort, the UTF-8 bytes of a
 * Go string, and base64.StdEncoding for basic-auth credentials.
 */
module Encoding {
  import opened Wrappers

  type byte = b: int | 0 <= b < 256

  function DigitChar(d: nat): char
    requires d < 10
  {
    ('0' as int + d) as char
  }

  predicate IsDigit(c: char)
  {
    '0' <= c <= '9'
  }

  /** The decimal digits of n, most significant first, without leading zeros. */
  function NatDigits(n: nat): (r: string)
    ensures |r| >= 1
    ensures forall i :: 0 <= i < |r| ==> IsDigit(r[i])
    ensures r[0] == '0' <==> n == 0
    ensures n == 0 ==> r == "0"
    decreases n
  {
    if n < 10 then [DigitChar(n)] else NatDigits(n / 10) + [DigitChar(n % 10)]
  }

  /** strconv.Itoa: decimal, with a leading '-' for negative numbers. */
  function Itoa(n: int): string
  {
    if n < 0 then "-" + NatDigits(-n) else NatDigits(n)
  }

  function DigitOf(c: char): nat
    requires IsDigit(c)
  {
    c as int - '0' as int
  }

  /** The number a string of decimal digits denotes. */
  function DigitsValue(s: string): nat
    requires forall i :: 0 <= i < |s| ==> IsDigit(s[i])
  {
    if s == [] then 0 else DigitsValue(s[..|s| - 1]) * 10 + DigitOf(s[|s| - 1])
  }

  /** The number a decimal string with an optional leading '-' denotes. */
  function SignedValue(s: string): Option<int>
  {
    if |s| > 0 && s[0] == '-' then
      if |s| > 1 && forall i :: 1 <= i < |s| ==> IsDigit(s[i]) then
        var v: int := DigitsValue(s[1..]);
        Some(-v)
      else None
    else if |s| > 0 && forall i :: 0 <= i < |s| ==> IsDigit(s[i]) then Some(DigitsValue(s) as int)
    else None
  }

  lemma {:induction false} NatDigitsValue(n: nat)
    ensures DigitsValue(NatDigits(n)) == n
    decreases n
  {
    if n >= 10 {
      NatDigitsValue(n / 10);
      var d := NatDigits(n);
      assert d[..|d| - 1] == NatDigits(n / 10);
    }
  }

  /** Itoa is inverted by reading the string back as a signed decimal. */
  lemma ItoaRoundTrip(n: int)
    ensures SignedValue(Itoa(n)) == Some(n)
  {
    if n < 0 {
      NegativeRoundTrip(-n);
    } else {
      NonNegativeRoundTrip(n);
    }
  }

  /** A '-' followed by the digits of m reads back as -m. */
  lemma NegativeRoundTrip(m: nat)
    ensures SignedValue("-" + NatDigits(m)) == Some(-(m as int))
  {
    var d := NatDigits(m);
    var s := "-" + d;
    NatDigitsValue(m);
    assert s[1..] == d;
    assert forall i :: 1 <= i < |s| ==> IsDigit(s[i]) by {
      forall i | 1 <= i < |s| ensures IsDigit(s[i]) { assert s[i] == d[i - 1]; }
    }
    assert DigitsValue(s[1..]) == m;
  }

  /** The digits of n read back as n. */
  lemma NonNegativeRoundTrip(n: nat)
    ensures SignedValue(NatDigits(n)) == Some(n)
  {
    NatDigitsValue(n);
    var s := NatDigits(n);
    assert s[0] != '-' by { assert IsDigit(s[0]); }
  }

  /** Itoa never produces a ':' (so it is a well-formed port for JoinHostPort). */
  lemma ItoaHasNoColon(n: int)
    ensures ':' !in Itoa(n)
  {
    var s := Itoa(n);
    forall i | 0 <= i < |s| ensures s[i] != ':' {
      if n < 0 && i > 0 { assert s[i] == NatDigits(-n)[i - 1]; }
    }
  }

  /** net.JoinHostPort: a host containing ':' (an IPv6 literal) is bracketed. */
  function JoinHostPort(host: string, port: string): string
  {
    if ':' in host then "[" + host + "]:" + port else host + ":" + port
  }

  /** The index just past the last ':' in s, where the port begins. */
  function PortStart(s: string): nat
    ensures PortStart(s) <= |s|
  {
    if s == [] then 0 else if s[|s| - 1] == ':' then |s| else PortStart(s[..|s| - 1])
  }

  /**
   * A port without ':' is what follows the last ':' of the joined address,
   * and the host is what precedes it, inside brackets when it has a ':'.
   */
  lemma {:induction false} JoinHostPortSplits(host: string, port: string)
    requires ':' !in port
    ensures var hp := JoinHostPort(host, port);
      var i := PortStart(hp);
      0 < i && hp[i..] == port &&
      hp[..i - 1] == (if ':' in host then "[" + host + "]" else host)
  {
    var hp := JoinHostPort(host, port);
    var pre := if ':' in host then "[" + host + "]" else host;
    assert hp == pre + ":" + port;
    PortStartAfterLastColon(pre, port);
  }

  lemma {:induction false} PortStartAfterLastColon(pre: string, port: string)
    requires ':' !in port
    ensures PortStart(pre + ":" + port) == |pre| + 1
    decreases |port|
  {
    var s := pre + ":" + port;
    if port == [] {
      assert s[|s| - 1] == ':';
    } else {
      assert s[|s| - 1] == port[|port| - 1];
      assert port[|port| - 1] in port;
      assert s[..|s| - 1] == pre + ":" + port[..|port| - 1];
      PortStartAfterLastColon(pre, port[..|port| - 1]);
    }
  }

  // ---------------------------------------------------------------------
  // Bytes of a string and base64

  /** The UTF-8 encoding of one character. */
  function Utf8(c: char): (r: seq<byte>)
    ensures 1 <= |r| <= 4
    ensures (c as int < 0x80) <==> |r| == 1
  {
    var n := c as int;
    if n < 0x80 then [n]
    else if n < 0x800 then [0xC0 + n / 64, 0x80 + n % 64]
    else if n < 0x10000 then [0xE0 + n / 4096, 0x80 + (n / 64) % 64, 0x80 + n % 64]
    else [0xF0 + n / 262144, 0x80 + (n / 4096) % 64, 0x80 + (n / 64) % 64, 0x80 + n % 64]
  }

  /** The bytes of a Go string holding s. */
  function Utf8String(s: string): seq<byte>
  {
    if s == [] then [] else Utf8(s[0]) + Utf8String(s[1..])
  }

  /** The characters of the standard base64 alphabet: A-Z, a-z, 0-9, '+' and '/'. */
  predicate IsBase64Char(c: char)
  {
    ('A' <= c <= 'Z') || ('a' <= c <= 'z') || ('0' <= c <= '9') || c == '+' || c == '/'
  }

  /** The standard alphabet's character for the 6-bit value i. */
  function B64(i: nat): (c: char)
    requires i < 64
    ensures IsBase64Char(c)
  {
    if i < 26 then ('A' as int + i) as char
    else if i < 52 then ('a' as int + (i - 26)) as char
    else if i < 62 then ('0' as int + (i - 52)) as char
    else if i == 62 then '+'
    else '/'
  }

  /** The four characters of one full three-byte group. */
  function Group(b0: byte, b1: byte, b2: byte): (r: string)
    ensures |r| == 4 && forall i :: 0 <= i < 4 ==> IsBase64Char(r[i])
  {
    var s0, s1, s2, s3 := b0 / 4, (b0 % 4) * 16 + b1 / 16, (b1 % 16) * 4 + b2 / 64, b2 % 64;
    [B64(s0), B64(s1), B64(s2), B64(s3)]
  }

  /** One more full group of input is one more group of output. */
  lemma GroupCount(n: nat)
    requires n >= 3
    ensures 4 * ((n - 3 + 2) / 3) + 4 == 4 * ((n + 2) / 3)
  {
    assert (n - 3 + 2) / 3 + 1 == (n + 2) / 3;
  }

  /** Concatenation keeps every character in the padded alphabet. */
  lemma Base64Concat(g: string, rest: string)
    requires forall i :: 0 <= i < |g| ==> g[i] == '=' || IsBase64Char(g[i])
    requires forall i :: 0 <= i < |rest| ==> rest[i] == '=' || IsBase64Char(rest[i])
    ensures forall i :: 0 <= i < |g + rest| ==> (g + rest)[i] == '=' || IsBase64Char((g + rest)[i])
  {
    forall i | 0 <= i < |g + rest|
      ensures (g + rest)[i] == '=' || IsBase64Char((g + rest)[i])
    {
      if i >= |g| {
        assert (g + rest)[i] == rest[i - |g|];
      }
    }
  }

  /** base64.StdEncoding.EncodeToString: three bytes to four characters, '=' padded. */
  function Base64(b: seq<byte>): (r: string)
    ensures |r| == 4 * ((|b| + 2) / 3)
    ensures forall i :: 0 <= i < |r| ==> r[i] == '=' || IsBase64Char(r[i])
    decreases |b|
  {
    if |b| == 0 then ""
    else if |b| == 1 then
      var g := Group(b[0], 0, 0);
      [g[0], g[1], '=', '=']
    else if |b| == 2 then
      var g := Group(b[0], b[1], 0);
      [g[0], g[1], g[2], '=']
    else
      var g, rest := Group(b[0], b[1], b[2]), Base64(b[3..]);
      GroupCount(|b|);
      Base64Concat(g, rest);
      g + rest
  }

  /** The 6-bit value a character of the standard alphabet stands for. */
  function B64Value(c: char): (i: nat)
    ensures i < 64
  {
    if 'A' <= c <= 'Z' then c as int - 'A' as int
    else if 'a' <= c <= 'z' then c as int - 'a' as int + 26
    else if '0' <= c <= '9' then c as int - '0' as int + 52
    else if c == '+' then 62
    else 63
  }

  /** Every alphabet character reads back as the 6-bit value it was written for. */
  lemma B64Inverse(i: nat)
    requires i < 64
    ensures B64Value(B64(i)) == i && B64(i) != '='
  {
  }

  /** The three bytes four alphabet characters stand for. */
  function Ungroup(c0: char, c1: char, c2: char, c3: char): seq<byte>
  {
    var s0, s1, s2, s3 := B64Value(c0), B64Value(c1), B64Value(c2), B64Value(c3);
    [s0 * 4 + s1 / 16, (s1 % 16) * 16 + s2 / 4, (s2 % 4) * 64 + s3]
  }

  /** A group read back gives the three bytes it was made from. */
  lemma GroupRoundTrip(b0: byte, b1: byte, b2: byte)
    ensures var g := Group(b0, b1, b2);
      Ungroup(g[0], g[1], g[2], g[3]) == [b0, b1, b2] && g[2] != '=' && g[3] != '='
  {
    var s0, s1, s2, s3 := b0 / 4, (b0 % 4) * 16 + b1 / 16, (b1 % 16) * 4 + b2 / 64, b2 % 64;
    B64Inverse(s0);
    B64Inverse(s1);
    B64Inverse(s2);
    B64Inverse(s3);
    assert s1 / 16 == b0 % 4 && s1 % 16 == b1 / 16;
    assert s2 / 4 == b1 % 16 && s2 % 4 == b2 / 64;
  }

  /** base64.StdEncoding.DecodeString on well-formed input: four characters to up to three bytes. */
  function Base64Decode(s: string): seq<byte>
    decreases |s|
  {
    if |s| < 4 then []
    else
      var bs := Ungroup(s[0], s[1], s[2], s[3]);
      if s[2] == '=' then bs[..1]
      else if s[3] == '=' then bs[..2]
      else bs + Base64Decode(s[4..])
  }

  /** A padded last group reads back as its one byte. */
  lemma OneByteRoundTrip(b0: byte)
    ensures Base64Decode(Base64([b0])) == [b0]
  {
    var g := Group(b0, 0, 0);
    GroupRoundTrip(b0, 0, 0);
    var s := [g[0], g[1], '=', '='];
    assert Base64([b0]) == s;
    assert Base64Decode(s) == Ungroup(g[0], g[1], '=', '=')[..1];
  }

  /** A padded last group reads back as its two bytes. */
  lemma TwoBytesRoundTrip(b0: byte, b1: byte)
    ensures Base64Decode(Base64([b0, b1])) == [b0, b1]
  {
    var g := Group(b0, b1, 0);
    GroupRoundTrip(b0, b1, 0);
    var s := [g[0], g[1], g[2], '='];
    assert Base64([b0, b1]) == s;
    assert Base64Decode(s) == Ungroup(g[0], g[1], g[2], '=')[..2];
  }

  /** Input shorter than a group reads back unchanged. */
  lemma ShortRoundTrip(b: seq<byte>)
    requires |b| <= 2
    ensures Base64Decode(Base64(b)) == b
  {
    if |b| == 1 {
      OneByteRoundTrip(b[0]);
      assert b == [b[0]];
    } else if |b| == 2 {
      TwoBytesRoundTrip(b[0], b[1]);
      assert b == [b[0], b[1]];
    }
  }

  /** A full group followed by more output reads back as its three bytes followed by the rest. */
  lemma GroupThenRest(b: seq<byte>, rest: string)
    requires |b| >= 3
    ensures Base64Decode(Group(b[0], b[1], b[2]) + rest) == b[..3] + Base64Decode(rest)
  {
    var g := Group(b[0], b[1], b[2]);
    GroupRoundTrip(b[0], b[1], b[2]);
    assert (g + rest)[..4] == g && (g + rest)[4..] == rest;
    assert [b[0], b[1], b[2]] == b[..3];
  }

  /** Decoding undoes the encoding, so the encoding loses nothing. */
  lemma {:induction false} Base64RoundTrip(b: seq<byte>)
    ensures Base64Decode(Base64(b)) == b
    decreases |b|
  {
    if |b| <= 2 {
      ShortRoundTrip(b);
    } else {
      assert Base64(b) == Group(b[0], b[1], b[2]) + Base64(b[3..]);
      GroupThenRest(b, Base64(b[3..]));
      Base64RoundTrip(b[3..]);
      assert b[..3] + b[3..] == b;
    }
  }

  /** Different byte strings have different encodings. */
  lemma Base64Injective(a: seq<byte>, b: seq<byte>)
    ensures Base64(a) == Base64(b) ==> a == b
  {
    Base64RoundTrip(a);
    Base64RoundTrip(b);
  }
}
