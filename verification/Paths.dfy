/** Vault paths: `normalizePath` and `validateVaultPath` of ui.go, and Go's path.Clean,
    path.Join and path.Base on rooted paths. */
module Paths {
  import opened Strings
  import opened Wrappers

  predicate Rooted(p: string) {
    p != "" && p[0] == '/'
  }

  function NormalizePath(p: string): (r: string)
    ensures Rooted(r)
  {
    if p == "" || p == "/" then "/"
    else if !("/" <= p) then "/" + p
    else p
  }

  /** What lies between the slashes, taken literally: "/a//b" has parts "a", "", "b". */
  function Parts(p: string): seq<string>
    requires Rooted(p)
  {
    Split(p[1..], '/')
  }

  /** One segment of path.Clean: "" and "." vanish, ".." drops the segment before it (and
      itself at the root), anything else is kept. */
  function PushSegment(stack: seq<string>, seg: string): seq<string> {
    if seg == "" || seg == "." then stack
    else if seg == ".." then if stack == [] then [] else stack[..|stack| - 1]
    else stack + [seg]
  }

  function Resolve(stack: seq<string>, parts: seq<string>): seq<string>
    decreases parts
  {
    if parts == [] then stack else Resolve(PushSegment(stack, parts[0]), parts[1..])
  }

  /** The segments a path denotes: its place in the hierarchy. The root denotes []. */
  function Segments(p: string): seq<string>
    requires Rooted(p)
  {
    Resolve([], Parts(p))
  }

  function Render(segs: seq<string>): (p: string)
    ensures Rooted(p)
  {
    "/" + Join(segs, "/")
  }

  /** path.Clean on a rooted path. */
  function Clean(p: string): (r: string)
    requires Rooted(p)
    ensures Rooted(r)
  {
    Render(Segments(p))
  }

  /** path.Join(dir, name) for a rooted dir; Go ignores empty elements. */
  function PathJoin(dir: string, name: string): (r: string)
    requires Rooted(dir)
    ensures Rooted(r)
  {
    if name == "" then Clean(dir) else Clean(dir + "/" + name)
  }

  function StripTrailingSlashes(p: string): string {
    if p != "" && p[|p| - 1] == '/' then StripTrailingSlashes(p[..|p| - 1]) else p
  }

  /** path.Base on a rooted path. */
  function Base(p: string): string
    requires Rooted(p)
  {
    var q := StripTrailingSlashes(p);
    if q == "" then "/" else var parts := Split(q, '/'); parts[|parts| - 1]
  }

  predicate NormalSegment(seg: string) {
    seg != "" && seg != "." && seg != ".." && '/' !in seg
  }

  predicate NormalSegments(segs: seq<string>) {
    forall i | 0 <= i < |segs| :: NormalSegment(segs[i])
  }

  predicate Canonical(p: string) {
    Rooted(p) && Clean(p) == p
  }

  predicate HasControl(p: string) {
    exists i | 0 <= i < |p| :: IsControl(p[i])
  }

  /** The keys that may enter a vault. */
  predicate ValidKey(p: string) {
    p != "/" && Canonical(p) && !HasControl(p)
  }

  datatype PathError = PathRequired | ControlCharacter | NotCanonical

  /** The first rule of validateVaultPath that the path breaks. */
  predicate Breaks(p: string, error: PathError) {
    match error
    case PathRequired => p == "/"
    case ControlCharacter => p != "/" && HasControl(p)
    case NotCanonical => p != "/" && !HasControl(p) && !Canonical(p)
  }

  /** validateVaultPath; `p must already be normalized`. */
  method ValidateVaultPath(p: string) returns (err: Option<PathError>)
    requires Rooted(p)
    ensures err.None? <==> ValidKey(p)
    ensures err.Some? ==> Breaks(p, err.value)
  {
    if p == "/" {
      RootIsCanonical();
      return Some(PathRequired);
    }
    for i := 0 to |p|
      invariant forall j | 0 <= j < i :: !IsControl(p[j])
    {
      if IsControl(p[i]) {
        return Some(ControlCharacter);
      }
    }
    if Clean(p) != p {
      return Some(NotCanonical);
    }
    return None;
  }

  /** The prefix the code tests for "lies below dir". */
  function ChildPrefix(dir: string): string {
    if dir == "/" then "/" else dir + "/"
  }

  // ---------- path.Clean ----------

  lemma RootIsCanonical()
    ensures Canonical("/") && Segments("/") == []
  {
    assert Parts("/") == [""];
    assert Resolve([], [""]) == Resolve([], []);
  }

  lemma {:induction false} ResolveNormal(stack: seq<string>, parts: seq<string>)
    requires NormalSegments(stack)
    requires forall i | 0 <= i < |parts| :: '/' !in parts[i]
    ensures NormalSegments(Resolve(stack, parts))
    decreases parts
  {
    if parts != [] {
      ResolveNormal(PushSegment(stack, parts[0]), parts[1..]);
    }
  }

  lemma {:induction false} ResolveKeepsNormal(stack: seq<string>, parts: seq<string>)
    requires NormalSegments(parts)
    ensures Resolve(stack, parts) == stack + parts
    decreases parts
  {
    if parts != [] {
      assert PushSegment(stack, parts[0]) == stack + [parts[0]];
      ResolveKeepsNormal(stack + [parts[0]], parts[1..]);
      assert stack + parts == stack + [parts[0]] + parts[1..];
    }
  }

  lemma SegmentsAreNormal(p: string)
    requires Rooted(p)
    ensures NormalSegments(Segments(p))
  {
    SplitParts(p[1..], '/');
    ResolveNormal([], Parts(p));
  }

  /** Rendering and resolving are inverse on normal segments. */
  lemma SegmentsOfRender(segs: seq<string>)
    requires NormalSegments(segs)
    ensures Segments(Render(segs)) == segs
    ensures segs != [] ==> Parts(Render(segs)) == segs
    ensures segs == [] <==> Render(segs) == "/"
  {
    if segs == [] {
      RootIsCanonical();
    } else {
      assert Render(segs)[1..] == Join(segs, "/");
      SplitJoin(segs, '/');
      ResolveKeepsNormal([], segs);
      assert [] + segs == segs;
      assert Split("", '/') == [""];
      assert NormalSegment(segs[0]);
    }
  }

  /** Cleaning is idempotent: its result is canonical and denotes the same segments. */
  lemma CleanIsCanonical(p: string)
    requires Rooted(p)
    ensures Canonical(Clean(p)) && Segments(Clean(p)) == Segments(p)
  {
    SegmentsAreNormal(p);
    SegmentsOfRender(Segments(p));
  }

  /** Canonical form read off the characters: no empty, "." or ".." part and no trailing
      slash. On such paths the literal parts are the segments. */
  lemma CanonicalByParts(p: string)
    requires Rooted(p)
    ensures Canonical(p) <==> p == "/" || NormalSegments(Parts(p))
    ensures Canonical(p) && p != "/" ==> Parts(p) == Segments(p)
  {
    if p == "/" {
      RootIsCanonical();
    } else if Canonical(p) {
      SegmentsAreNormal(p);
      SegmentsOfRender(Segments(p));
    } else {
      JoinSplit(p[1..], '/');
      assert p == "/" + p[1..];
      assert [] + Parts(p) == Parts(p);
      if NormalSegments(Parts(p)) {
        ResolveKeepsNormal([], Parts(p));
      }
    }
  }

  lemma CanonicalDetermined(a: string, b: string)
    requires Canonical(a) && Canonical(b) && Segments(a) == Segments(b)
    ensures a == b
  {
  }

  /** The string-prefix test of the code is the ancestor relation on segments. */
  lemma PrefixIsAncestor(a: string, b: string)
    requires Canonical(a) && Canonical(b)
    ensures a != b && ChildPrefix(a) <= b <==> Segments(a) < Segments(b)
  {
    CanonicalByParts(a);
    CanonicalByParts(b);
    RootIsCanonical();
    if a == "/" {
      assert ChildPrefix(a) <= b by { assert b[..1] == "/"; }
      if b != "/" {
        assert Segments(b) == Parts(b);
      }
    } else if b == "/" {
      assert !(ChildPrefix(a) <= b);
    } else {
      RootedPrefix(a, b);
    }
  }

  /** The same test on the literal parts, for any rooted strings. */
  lemma RootedPrefix(a: string, b: string)
    requires Rooted(a) && Rooted(b)
    ensures a + "/" <= b <==> Parts(a) < Parts(b)
    ensures a == b <==> Parts(a) == Parts(b)
  {
    var x, y := a[1..], b[1..];
    assert a == "/" + x && b == "/" + y;
    PrefixIsPartPrefix(x, y, '/');
    if a + "/" <= b {
      assert (a + "/")[1..] == x + ['/'];
      assert b[1..][..|x| + 1] == x + ['/'];
    }
    if x + ['/'] <= y {
      assert b[..|a| + 1] == "/" + y[..|x| + 1];
    }
    if Parts(a) == Parts(b) {
      SplitInjective(x, y, '/');
    }
  }

  /** The prefix the code tests for, on any rooted strings. */
  lemma ChildPrefixIsPartPrefix(a: string, b: string)
    requires Rooted(a) && Rooted(b)
    ensures ChildPrefix(a) <= b <==> a == "/" || Parts(a) < Parts(b)
  {
    RootedPrefix(a, b);
    assert b[..1] == "/";
  }

  lemma NormalizeRooted(p: string)
    requires Rooted(p)
    ensures NormalizePath(p) == p
  {
    assert p[..1] == "/";
  }

  lemma NormalizeUnrooted(p: string)
    requires !Rooted(p)
    ensures NormalizePath(p) == "/" + p
  {
    assert "/" + "" == "/";
    if p != "" {
      assert p[..1] == [p[0]];
    }
  }

  // ---------- The rules of path.Clean ----------

  lemma {:induction false} ResolveAppend(stack: seq<string>, xs: seq<string>, ys: seq<string>)
    ensures Resolve(stack, xs + ys) == Resolve(Resolve(stack, xs), ys)
    decreases xs
  {
    if xs == [] {
      assert xs + ys == ys;
    } else {
      assert (xs + ys)[1..] == xs[1..] + ys;
      ResolveAppend(PushSegment(stack, xs[0]), xs[1..], ys);
    }
  }

  /** The segments of what stands before a slash; nothing stands before the first one. */
  function SegmentsBefore(dir: string): seq<string>
    requires dir == "" || Rooted(dir)
  {
    if dir == "" then [] else Segments(dir)
  }

  lemma SegmentsBelow(dir: string, rest: string)
    requires dir == "" || Rooted(dir)
    ensures Rooted(dir + "/" + rest)
    ensures Segments(dir + "/" + rest) == Resolve(SegmentsBefore(dir), Split(rest, '/'))
  {
    var p := dir + "/" + rest;
    if dir == "" {
      assert p[1..] == rest;
    } else {
      assert p[1..] == dir[1..] + ['/'] + rest;
      SplitAppend(dir[1..], rest, '/');
      ResolveAppend([], Parts(dir), Split(rest, '/'));
    }
  }

  lemma SegmentsBelowPart(dir: string, part: string, rest: string)
    requires (dir == "" || Rooted(dir)) && '/' !in part
    ensures Rooted(dir + "/" + part + "/" + rest)
    ensures Segments(dir + "/" + part + "/" + rest) ==
            Resolve(PushSegment(SegmentsBefore(dir), part), Split(rest, '/'))
  {
    assert dir + "/" + part + "/" + rest == dir + "/" + (part + ['/'] + rest);
    SegmentsBelow(dir, part + ['/'] + rest);
    SplitAppend(part, rest, '/');
    SplitWithoutSep(part, '/');
    ResolveAppend(SegmentsBefore(dir), [part], Split(rest, '/'));
    assert [part][1..] == [];
  }

  /** Empty and "." parts vanish. */
  lemma CleanDropsPart(dir: string, part: string, rest: string)
    requires (dir == "" || Rooted(dir)) && (part == "" || part == ".")
    ensures Rooted(dir + "/" + part + "/" + rest) && Rooted(dir + "/" + rest)
    ensures Clean(dir + "/" + part + "/" + rest) == Clean(dir + "/" + rest)
  {
    SegmentsBelowPart(dir, part, rest);
    SegmentsBelow(dir, rest);
  }

  /** ".." cancels the segment before it. */
  lemma CleanDotDot(dir: string, seg: string, rest: string)
    requires (dir == "" || Rooted(dir)) && NormalSegment(seg)
    ensures Rooted(dir + "/" + seg + "/../" + rest) && Rooted(dir + "/" + rest)
    ensures Clean(dir + "/" + seg + "/../" + rest) == Clean(dir + "/" + rest)
  {
    var below := dir + "/" + seg;
    var segs := SegmentsBefore(dir);
    SegmentsBelow(dir, seg);
    SplitWithoutSep(seg, '/');
    assert [seg][1..] == [];
    assert SegmentsBefore(below) == PushSegment(segs, seg) == segs + [seg];
    SegmentsBelowPart(below, "..", rest);
    assert PushSegment(segs + [seg], "..") == segs;
    assert below + "/" + ".." + "/" + rest == dir + "/" + seg + "/../" + rest;
    SegmentsBelow(dir, rest);
  }

  /** There is nothing above the root. */
  lemma CleanDotDotAtRoot(rest: string)
    ensures Clean("/../" + rest) == Clean("/" + rest)
  {
    SegmentsBelowPart("", "..", rest);
    SegmentsBelow("", rest);
    assert "" + "/" + ".." + "/" + rest == "/../" + rest && "" + "/" + rest == "/" + rest;
  }

  /** A trailing slash does not count. With the rules above and `CanonicalByParts` this
      determines path.Clean on every rooted path. */
  lemma CleanTrailingSlash(p: string)
    requires Rooted(p)
    ensures Clean(p + "/") == Clean(p)
  {
    SegmentsBelow(p, "");
    assert p + "/" + "" == p + "/" && [""][1..] == [];
  }

  /** The keys that may enter a vault, read off the characters. */
  lemma ValidKeyByParts(p: string)
    requires Rooted(p)
    ensures ValidKey(p) <==>
            && (forall i | 0 <= i < |Parts(p)| ::
                  Parts(p)[i] != "" && Parts(p)[i] != "." && Parts(p)[i] != ".." && '/' !in Parts(p)[i])
            && (forall i | 0 <= i < |p| :: ' ' <= p[i] && !('\U{7F}' <= p[i] <= '\U{9F}'))
  {
    CanonicalByParts(p);
    if p == "/" {
      assert Parts(p) == [""];
    }
    SplitParts(p[1..], '/');
  }

  // ---------- path.Base and path.Join ----------

  lemma PartsOfRender(segs: seq<string>)
    requires NormalSegments(segs) && segs != []
    ensures Split(Render(segs), '/') == [""] + segs
  {
    SplitJoin(segs, '/');
    SplitAppend("", Join(segs, "/"), '/');
    assert Render(segs) == "" + ['/'] + Join(segs, "/");
  }

  /** path.Join cleans what is joined, the empty name included. */
  lemma JoinIsClean(dir: string, name: string)
    requires Rooted(dir)
    ensures PathJoin(dir, name) == Clean(dir + "/" + name)
  {
    if name == "" {
      CleanTrailingSlash(dir);
      assert dir + "/" + "" == dir + "/";
    }
  }

  /** path.Base ignores trailing slashes. */
  lemma BaseTrailingSlash(p: string)
    requires Rooted(p)
    ensures Base(p + "/") == Base(p) && Base("/") == "/"
  {
    assert (p + "/")[..|p|] == p && StripTrailingSlashes("") == "" && "/"[..0] == "";
  }

  lemma TrailingSlashPart(p: string)
    requires p != "" && p[|p| - 1] == '/'
    ensures var parts := Split(p, '/'); parts[|parts| - 1] == ""
  {
    SplitAppend(p[..|p| - 1], "", '/');
    assert p == p[..|p| - 1] + ['/'] + "";
  }

  lemma BaseIsLastPart(p: string, parts: seq<string>)
    requires Rooted(p) && parts == Split(p, '/') && parts[|parts| - 1] != ""
    ensures Base(p) == parts[|parts| - 1]
  {
    if p[|p| - 1] == '/' {
      TrailingSlashPart(p);
    }
  }

  lemma BaseOfRender(segs: seq<string>)
    requires NormalSegments(segs) && segs != []
    ensures Base(Render(segs)) == segs[|segs| - 1]
  {
    PartsOfRender(segs);
    assert NormalSegment(segs[|segs| - 1]);
    BaseIsLastPart(Render(segs), [""] + segs);
  }

  lemma JoinChild(dir: string, name: string)
    requires Canonical(dir) && NormalSegment(name)
    ensures PathJoin(dir, name) == Render(Segments(dir) + [name])
    ensures dir == "/" ==> "/" + name == Render(Segments(dir) + [name])
    ensures ChildPrefix(dir) + name == Render(Segments(dir) + [name])
  {
    var p := dir + "/" + name;
    assert p[1..] == dir[1..] + ['/'] + name;
    SplitAppend(dir[1..], name, '/');
    SplitWithoutSep(name, '/');
    assert Parts(p) == Parts(dir) + [name];
    SegmentsAreNormal(dir);
    CanonicalByParts(dir);
    RootIsCanonical();
    if dir == "/" {
      assert Parts(p) == ["", name];
      assert Resolve([], ["", name]) == Resolve([], [name]);
      ResolveKeepsNormal([], [name]);
      assert [] + [name] == [name];
    } else {
      ResolveKeepsNormal([], Parts(dir) + [name]);
      assert [] + (Parts(dir) + [name]) == Parts(dir) + [name];
      JoinAppend(Segments(dir), [name], "/");
      assert Render(Segments(dir) + [name]) == "/" + (Join(Segments(dir), "/") + "/" + name);
    }
  }
}
