/**
 * The string and path functions setup applies to flags and file names:
 * strings.Split and strings.Join on "/", path.Clean of a rooted path,
 * strings.TrimSpace, filepath.Ext and strings.TrimSuffix.
 */
module TextUtil {
  import opened Wrappers

  /** The first index of c in s. */
  function IndexOf(s: string, c: char): (r: Option<nat>)
    ensures r.Some? ==> r.value < |s| && s[r.value] == c && c !in s[..r.value]
    ensures r.None? ==> c !in s
  {
    if s == [] then None
    else if s[0] == c then Some(0)
    else match IndexOf(s[1..], c)
      case None => None
      case Some(i) =>
        assert s[..i + 1] == [s[0]] + s[1..][..i];
        Some(i + 1)
  }

  // ---------------------------------------------------------------------
  // Path segments

  /** strings.Join(segs, "/") */
  function JoinSlash(segs: seq<string>): string
  {
    if segs == [] then "" else if |segs| == 1 then segs[0] else segs[0] + "/" + JoinSlash(segs[1..])
  }

  /** strings.Split(s, "/"): the pieces between the slashes, and as many as there are slashes plus one. */
  function SplitSlash(s: string): (segs: seq<string>)
    ensures |segs| >= 1
    ensures forall i :: 0 <= i < |segs| ==> '/' !in segs[i]
    ensures JoinSlash(segs) == s
    decreases |s|
  {
    match IndexOf(s, '/')
    case None => [s]
    case Some(i) =>
      var rest := SplitSlash(s[i + 1..]);
      assert s == s[..i] + "/" + s[i + 1..];
      [s[..i]] + rest
  }

  /** Splitting undoes joining, for segments without a slash. */
  lemma {:induction false} SplitJoin(segs: seq<string>)
    requires segs != []
    requires forall i :: 0 <= i < |segs| ==> '/' !in segs[i]
    ensures SplitSlash(JoinSlash(segs)) == segs
    decreases |segs|
  {
    if |segs| > 1 {
      var s := JoinSlash(segs);
      var tail := JoinSlash(segs[1..]);
      assert s == segs[0] + "/" + tail;
      assert s[..|segs[0]|] == segs[0];
      assert s[|segs[0]|] == '/';
      assert IndexOf(s, '/') == Some(|segs[0]|);
      assert s[|segs[0]| + 1..] == tail;
      SplitJoin(segs[1..]);
    } else {
      assert IndexOf(segs[0], '/').None?;
    }
  }

  /** A segment that a cleaned path keeps: not empty, not "." or "..", without '/'. */
  predicate Canonical(seg: string)
  {
    seg != "" && seg != "." && seg != ".." && '/' !in seg
  }

  predicate AllCanonical(segs: seq<string>)
  {
    forall i :: 0 <= i < |segs| ==> Canonical(segs[i])
  }

  /**
   * The lexical processing of path.Clean, left to right over the segments:
   * empty and "." segments vanish, ".." removes the segment before it (and
   * nothing at the root), any other segment is kept.
   */
  function Resolve(segs: seq<string>, stack: seq<string>): (r: seq<string>)
    requires AllCanonical(stack)
    requires forall i :: 0 <= i < |segs| ==> '/' !in segs[i]
    ensures AllCanonical(r)
    decreases |segs|
  {
    if segs == [] then stack
    else
      var s := segs[0];
      if s == "" || s == "." then Resolve(segs[1..], stack)
      else if s == ".." then Resolve(segs[1..], if stack == [] then [] else stack[..|stack| - 1])
      else Resolve(segs[1..], stack + [s])
  }

  /** Segments that are already canonical are kept as they are. */
  lemma {:induction false} ResolveCanonical(segs: seq<string>, stack: seq<string>)
    requires AllCanonical(stack) && AllCanonical(segs)
    ensures Resolve(segs, stack) == stack + segs
    decreases |segs|
  {
    if segs != [] {
      ResolveCanonical(segs[1..], stack + [segs[0]]);
      assert stack + [segs[0]] + segs[1..] == stack + segs;
    }
  }

  /**
   * path.Clean("/" + p): the shortest rooted path lexically equivalent to
   * "/" + p. It begins with '/', and apart from "/" itself it names only
   * canonical segments, so it has no "//", no "." or ".." and no trailing '/'.
   */
  function CleanRooted(p: string): (r: string)
    ensures |r| >= 1 && r[0] == '/'
    ensures r != "/" ==> AllCanonical(SplitSlash(r[1..]))
  {
    var segs := Resolve(SplitSlash("/" + p), []);
    var r := "/" + JoinSlash(segs);
    assert r[1..] == JoinSlash(segs);
    if segs != [] then
      SplitJoin(segs);
      r
    else r
  }

  /** Cleaning a cleaned path changes nothing. */
  lemma CleanIdempotent(p: string)
    ensures CleanRooted(CleanRooted(p)) == CleanRooted(p)
  {
    var segs := Resolve(SplitSlash("/" + p), []);
    assert CleanRooted(p) == "/" + JoinSlash(segs);
    if segs == [] {
      assert "/" + JoinSlash(segs) == "/";
      CleanRoot();
    } else {
      CleanRootedCanonical(segs);
    }
  }

  /** A leading slash splits off an empty first segment. */
  lemma SplitSlashLeading(s: string)
    ensures SplitSlash("/" + s) == [""] + SplitSlash(s)
  {
    assert IndexOf("/" + s, '/') == Some(0);
    assert ("/" + s)[..0] == "" && ("/" + s)[1..] == s;
  }

  /** An empty segment does not change the resolution. */
  lemma ResolveSkipsEmpty(segs: seq<string>, stack: seq<string>)
    requires AllCanonical(stack) && forall i :: 0 <= i < |segs| ==> '/' !in segs[i]
    ensures Resolve([""] + segs, stack) == Resolve(segs, stack)
  {
    assert ([""] + segs)[0] == "" && ([""] + segs)[1..] == segs;
  }

  /** The root cleans to itself. */
  lemma CleanRoot()
    ensures CleanRooted("/") == "/"
  {
    assert ['/'] + "/" == "//" && ['/'] + "" == "/";
    assert SplitSlash("") == [""];
    SplitSlashLeading("/");
    SplitSlashLeading("");
    assert SplitSlash("//") == [""] + ([""] + [""]);
    ResolveSkipsEmpty([""] + [""], []);
    ResolveSkipsEmpty([""], []);
    assert Resolve([""], []) == Resolve([], []) by {
      ResolveSkipsEmpty([], []);
      assert [""] + [] == [""];
    }
  }

  /** A rooted path of canonical segments cleans to itself. */
  lemma CleanRootedCanonical(segs: seq<string>)
    requires segs != [] && AllCanonical(segs)
    ensures CleanRooted("/" + JoinSlash(segs)) == "/" + JoinSlash(segs)
  {
    var j := JoinSlash(segs);
    SplitSlashLeading("/" + j);
    SplitSlashLeading(j);
    SplitJoin(segs);
    assert SplitSlash("/" + ("/" + j)) == [""] + ([""] + segs);
    ResolveSkipsEmpty([""] + segs, []);
    ResolveSkipsEmpty(segs, []);
    ResolveCanonical(segs, []);
    assert [] + segs == segs;
  }

  /** A relative path of canonical segments cleans to the same path, rooted. */
  lemma CleanCanonical(segs: seq<string>)
    requires segs != [] && AllCanonical(segs)
    ensures CleanRooted(JoinSlash(segs)) == "/" + JoinSlash(segs)
  {
    var t := [""] + segs;
    assert t[1..] == segs;
    assert JoinSlash(t) == "" + "/" + JoinSlash(segs);
    SplitJoin(t);
    assert Resolve(t, []) == Resolve(segs, []);
    ResolveCanonical(segs, []);
    assert [] + segs == segs;
  }

  /** A single canonical segment under the root is already clean. */
  lemma CleanOneSegment(seg: string)
    requires Canonical(seg)
    ensures CleanRooted("/" + seg) == "/" + seg
  {
    assert JoinSlash([seg]) == seg;
    CleanRootedCanonical([seg]);
  }

  /** The default proxy and telemetry paths are already clean. */
  lemma CleanDefaultPaths()
    ensures CleanRooted("/proxy") == "/proxy"
    ensures CleanRooted("/metrics") == "/metrics"
  {
    assert ['/'] + "proxy" == "/proxy" && ['/'] + "metrics" == "/metrics";
    CleanOneSegment("proxy");
    CleanOneSegment("metrics");
  }

  /** An empty flag value cleans to the root. */
  lemma CleanEmpty()
    ensures CleanRooted("") == "/"
  {
    assert SplitSlash("/") == ["", ""] by {
      assert IndexOf("/", '/') == Some(0);
      assert "/"[1..] == "";
      assert IndexOf("", '/') == None;
    }
    assert Resolve(["", ""], []) == [] by {
      assert ["", ""][1..] == [""];
      assert [""][1..] == [];
    }
  }

  /** Joining two non-empty lists of segments is joining each and putting a '/' between. */
  lemma {:induction false} JoinSlashAppend(a: seq<string>, b: seq<string>)
    requires a != [] && b != []
    ensures JoinSlash(a + b) == JoinSlash(a) + "/" + JoinSlash(b)
    decreases |a|
  {
    assert (a + b)[0] == a[0];
    if |a| == 1 {
      assert (a + b)[1..] == b;
    } else {
      assert (a + b)[1..] == a[1..] + b;
      JoinSlashAppend(a[1..], b);
    }
  }

  /** Splitting at a '/' between two strings is splitting each. */
  lemma SplitSlashConcat(x: string, y: string)
    ensures SplitSlash(x + "/" + y) == SplitSlash(x) + SplitSlash(y)
  {
    var a, b := SplitSlash(x), SplitSlash(y);
    JoinSlashAppend(a, b);
    assert forall i :: 0 <= i < |a + b| ==> '/' !in (a + b)[i] by {
      forall i | 0 <= i < |a + b| ensures '/' !in (a + b)[i] {
        if i >= |a| { assert (a + b)[i] == b[i - |a|]; }
      }
    }
    SplitJoin(a + b);
  }

  /** A string without '/' splits into itself alone. */
  lemma SplitSlashSingle(seg: string)
    requires '/' !in seg
    ensures SplitSlash(seg) == [seg]
  {
    SplitJoin([seg]);
  }

  /** Resolving two lists of segments one after the other is resolving their concatenation. */
  lemma {:induction false} ResolveAppend(a: seq<string>, b: seq<string>, stack: seq<string>)
    requires AllCanonical(stack)
    requires forall i :: 0 <= i < |a| ==> '/' !in a[i]
    requires forall i :: 0 <= i < |b| ==> '/' !in b[i]
    ensures forall i :: 0 <= i < |a + b| ==> '/' !in (a + b)[i]
    ensures Resolve(a + b, stack) == Resolve(b, Resolve(a, stack))
    decreases |a|
  {
    forall i | 0 <= i < |a + b| ensures '/' !in (a + b)[i] {
      if i >= |a| { assert (a + b)[i] == b[i - |a|]; }
    }
    if a == [] {
      assert a + b == b;
    } else {
      var s := a[0];
      assert (a + b)[0] == s && (a + b)[1..] == a[1..] + b;
      var next := if s == "" || s == "." then stack
                  else if s == ".." then (if stack == [] then [] else stack[..|stack| - 1])
                  else stack + [s];
      assert Resolve(a + b, stack) == Resolve(a[1..] + b, next);
      assert Resolve(a, stack) == Resolve(a[1..], next);
      ResolveAppend(a[1..], b, next);
    }
  }

  /** A ".." right after a segment takes that segment back off. */
  lemma ResolveSegmentThenParent(seg: string, stack: seq<string>)
    requires Canonical(seg) && AllCanonical(stack)
    ensures Resolve([seg, ".."], stack) == stack
  {
    assert [seg, ".."][1..] == [".."] && [".."][1..] == [];
    assert (stack + [seg])[..|stack|] == stack;
  }

  /** Cleaning p + "/" + rest resolves the segments of rest after those of p. */
  lemma CleanAppend(p: string, rest: string)
    ensures AllCanonical(Resolve(SplitSlash("/" + p), []))
    ensures CleanRooted(p + "/" + rest) == "/" + JoinSlash(Resolve(SplitSlash(rest), Resolve(SplitSlash("/" + p), [])))
  {
    SplitRootedConcat(p, rest);
    ResolveAppend(SplitSlash("/" + p), SplitSlash(rest), []);
  }

  /** The segments of "/" + p + "/" + rest are those of "/" + p followed by those of rest. */
  lemma SplitRootedConcat(p: string, rest: string)
    ensures SplitSlash("/" + (p + "/" + rest)) == SplitSlash("/" + p) + SplitSlash(rest)
  {
    SplitSlashLeading(p + "/" + rest);
    SplitSlashLeading(p);
    SplitSlashConcat(p, rest);
    ConsAppend("", SplitSlash(p), SplitSlash(rest));
  }

  lemma ConsAppend<T>(x: T, a: seq<T>, b: seq<T>)
    ensures [x] + (a + b) == ([x] + a) + b
  {
  }

  /** Cleaning p + "/" + seg + "/.." gives the cleaned p back: ".." undoes the segment before it. */
  lemma CleanParent(p: string, seg: string)
    requires Canonical(seg)
    ensures CleanRooted(p + "/" + seg + "/..") == CleanRooted(p)
  {
    assert p + "/" + seg + "/.." == p + "/" + (seg + "/" + "..");
    CleanAppend(p, seg + "/" + "..");
    SplitSlashConcat(seg, "..");
    SplitSlashSingle(seg);
    SplitSlashSingle("..");
    assert SplitSlash(seg + "/" + "..") == [seg, ".."];
    ResolveSegmentThenParent(seg, Resolve(SplitSlash("/" + p), []));
  }

  /** A final "/." or "/" changes nothing once cleaned. */
  lemma CleanTrailing(p: string, last: string)
    requires last == "" || last == "."
    ensures CleanRooted(p + "/" + last) == CleanRooted(p)
  {
    CleanAppend(p, last);
    SplitSlashSingle(last);
    assert [last][1..] == [];
  }

  /** A ".." at the root stays at the root. */
  lemma CleanParentOfRoot(p: string)
    requires CleanRooted(p) == "/"
    ensures CleanRooted(p + "/..") == "/"
  {
    assert p + "/.." == p + "/" + "..";
    CleanAppend(p, "..");
    SplitSlashSingle("..");
    var st := Resolve(SplitSlash("/" + p), []);
    assert "/" + JoinSlash(st) == "/";
    if st != [] {
      JoinSlashNonEmpty(st);
    }
    assert Resolve([".."], st) == [] by {
      assert [".."][1..] == [];
    }
    assert "/" + JoinSlash([]) == "/";
  }

  /** Canonical segments never join to the empty string. */
  lemma JoinSlashNonEmpty(segs: seq<string>)
    requires segs != [] && AllCanonical(segs)
    ensures JoinSlash(segs) != ""
  {
    if |segs| > 1 {
      assert |JoinSlash(segs)| >= |segs[0]| + 1;
    }
  }

  // ---------------------------------------------------------------------
  // strings.TrimSpace

  /** unicode.IsSpace: the Latin-1 spaces and the other White_Space code points. */
  predicate IsSpace(c: char)
  {
    c == '\t' || c == '\n' || c == '\U{000B}' || c == '\U{000C}' || c == '\r' || c == ' ' ||
    c == '\U{0085}' || c == '\U{00A0}' || c == '\U{1680}' || ('\U{2000}' <= c <= '\U{200A}') ||
    c == '\U{2028}' || c == '\U{2029}' || c == '\U{202F}' || c == '\U{205F}' || c == '\U{3000}'
  }

  predicate AllSpace(s: string)
  {
    forall i :: 0 <= i < |s| ==> IsSpace(s[i])
  }

  /** The index of the first non-space character, or |s|. */
  function SkipSpace(s: string): (i: nat)
    ensures i <= |s| && AllSpace(s[..i]) && (i < |s| ==> !IsSpace(s[i]))
  {
    if s == [] || !IsSpace(s[0]) then 0
    else
      var i := SkipSpace(s[1..]) + 1;
      assert s[..i] == [s[0]] + s[1..][..i - 1];
      i
  }

  /** The index just past the last non-space character, or 0. */
  function EndOfText(s: string): (j: nat)
    ensures j <= |s| && AllSpace(s[j..]) && (j > 0 ==> !IsSpace(s[j - 1]))
  {
    if s == [] || !IsSpace(s[|s| - 1]) then |s|
    else
      var j := EndOfText(s[..|s| - 1]);
      assert s[j..] == s[..|s| - 1][j..] + [s[|s| - 1]];
      j
  }

  /**
   * strings.TrimSpace: s without its leading and trailing white space. The
   * result is empty exactly when s is all white space.
   */
  function TrimSpace(s: string): (r: string)
    ensures r == "" <==> AllSpace(s)
    ensures r != "" ==> !IsSpace(r[0]) && !IsSpace(r[|r| - 1])
    ensures exists i, j | 0 <= i <= j <= |s| :: r == s[i..j] && AllSpace(s[..i]) && AllSpace(s[j..])
  {
    var i := SkipSpace(s);
    var j := EndOfText(s[i..]);
    TrimmedPart(s, i, j);
    s[i..][..j]
  }

  lemma TrimmedPart(s: string, i: nat, j: nat)
    requires i <= |s| && AllSpace(s[..i]) && (i < |s| ==> !IsSpace(s[i]))
    requires j <= |s| - i && AllSpace(s[i..][j..]) && (j > 0 ==> !IsSpace(s[i..][j - 1]))
    ensures s[i..][..j] == s[i..i + j] && AllSpace(s[i + j..])
    ensures s[i..][..j] == "" <==> AllSpace(s)
  {
    var rest := s[i..];
    assert rest[j..] == s[i + j..];
    if rest[..j] != "" {
      assert s[i] == rest[0];
    }
  }

  // ---------------------------------------------------------------------
  // File names

  /** The index of the last '.' in the final '/'-separated element of s, if any. */
  function LastDot(s: string): (r: Option<nat>)
    ensures r.Some? ==> r.value < |s| && s[r.value] == '.'
    ensures r.Some? ==> forall k :: r.value < k < |s| ==> s[k] != '.' && s[k] != '/'
    ensures r.None? ==> forall k :: 0 <= k < |s| && s[k] == '.' ==> exists m :: k < m < |s| && s[m] == '/'
  {
    if s == [] || s[|s| - 1] == '/' then None
    else if s[|s| - 1] == '.' then Some(|s| - 1)
    else LastDot(s[..|s| - 1])
  }

  /**
   * filepath.Ext: the suffix of the final element starting at its last '.',
   * or "" when that element has no '.'.
   */
  function Ext(name: string): (e: string)
    ensures |e| <= |name| && e == name[|name| - |e|..]
    ensures e != "" ==> e[0] == '.' && forall k :: 1 <= k < |e| ==> e[k] != '.' && e[k] != '/'
    ensures e == "" ==> forall k :: 0 <= k < |name| && name[k] == '.' ==> exists m :: k < m < |name| && name[m] == '/'
  {
    match LastDot(name)
    case None => ""
    case Some(i) => name[i..]
  }

  /** strings.TrimSuffix */
  function TrimSuffix(s: string, suffix: string): (r: string)
    ensures (|suffix| <= |s| && s[|s| - |suffix|..] == suffix) ==> r + suffix == s
    ensures !(|suffix| <= |s| && s[|s| - |suffix|..] == suffix) ==> r == s
  {
    if |suffix| <= |s| && s[|s| - |suffix|..] == suffix then s[..|s| - |suffix|] else s
  }

  /** The module a configuration file defines: its name without the extension. */
  function ModuleName(fileName: string): (m: string)
    ensures m + Ext(fileName) == fileName
  {
    TrimSuffix(fileName, Ext(fileName))
  }

  /** Dropping a last character that is neither '.' nor '/' does not move the last dot. */
  lemma LastDotSkip(s: string)
    requires s != [] && s[|s| - 1] != '/' && s[|s| - 1] != '.'
    ensures LastDot(s) == LastDot(s[..|s| - 1])
  {
  }

  /** Only the last extension is dropped. */
  lemma ModuleNameExamples()
    ensures Ext("node.yml") == ".yml" && ModuleName("node.yml") == "node"
    ensures Ext("app.v2.yaml") == ".yaml" && ModuleName("app.v2.yaml") == "app.v2"
    ensures Ext("README") == ""
  {
    NodeYml();
    AppV2Yaml();
    Readme();
  }

  lemma NodeYml()
    ensures Ext("node.yml") == ".yml" && ModuleName("node.yml") == "node"
  {
    var s := "node.yml";
    assert s[..7] == "node.ym" && "node.ym"[..6] == "node.y" && "node.y"[..5] == "node.";
    LastDotSkip(s);
    LastDotSkip("node.ym");
    LastDotSkip("node.y");
    assert LastDot("node.") == Some(4);
    assert s[4..] == ".yml";
    assert s[..4] == "node";
  }

  lemma AppV2Yaml()
    ensures Ext("app.v2.yaml") == ".yaml" && ModuleName("app.v2.yaml") == "app.v2"
  {
    var s := "app.v2.yaml";
    assert s[..10] == "app.v2.yam" && "app.v2.yam"[..9] == "app.v2.ya";
    assert "app.v2.ya"[..8] == "app.v2.y" && "app.v2.y"[..7] == "app.v2.";
    LastDotSkip(s);
    LastDotSkip("app.v2.yam");
    LastDotSkip("app.v2.ya");
    LastDotSkip("app.v2.y");
    assert LastDot("app.v2.") == Some(6);
    assert s[6..] == ".yaml";
    assert s[..6] == "app.v2";
  }

  lemma Readme()
    ensures Ext("README") == ""
  {
    assert "README"[..5] == "READM" && "READM"[..4] == "READ" && "READ"[..3] == "REA";
    assert "REA"[..2] == "RE" && "RE"[..1] == "R" && "R"[..0] == "";
    LastDotSkip("README");
    LastDotSkip("READM");
    LastDotSkip("READ");
    LastDotSkip("REA");
    LastDotSkip("RE");
    LastDotSkip("R");
  }
}
