/** Path patterns: `matchPermission`, `CanRead`/`CanWrite` and `CanAccess` of permissions.go. */
module Permissions {
  import opened Paths
  import opened Strings

  datatype UserPermissions = UserPermissions(isAdmin: bool, patterns: seq<string>) {
    predicate CanRead(vaultPath: string) {
      isAdmin || exists i | 0 <= i < |patterns| :: MatchPermission(patterns[i], vaultPath)
    }

    predicate CanWrite(vaultPath: string) {
      CanRead(vaultPath)
    }
  }

  predicate IsWildcard(pattern: string) {
    |pattern| >= 2 && pattern[|pattern| - 2..] == "/*"
  }

  /** matchPermission */
  predicate MatchPermission(pattern: string, vaultPath: string) {
    MatchNormalized(NormalizePath(pattern), Clean(NormalizePath(vaultPath)))
  }

  predicate MatchNormalized(pat: string, path: string) {
    if IsWildcard(pat) then
      var prefix := pat[..|pat| - 2];
      if prefix == "" then true
      else if path == prefix then true
      else
        var dir := if prefix[|prefix| - 1] != '/' then prefix + "/" else prefix;
        dir <= path
    else pat == path
  }

  // ---------- What a pattern grants ----------

  // A pattern read segment by segment, without any string prefix: it grants the position
  // `segs` of the hierarchy. "P/*" grants P and everything below it, except that a P that
  // itself ends in a slash grants only what lies strictly below.
  predicate Grants(pattern: string, segs: seq<string>) {
    GrantsNormalized(NormalizePath(pattern), segs)
  }

  predicate GrantsNormalized(pat: string, segs: seq<string>)
    requires Rooted(pat)
  {
    if !IsWildcard(pat) then
      LiteralSegments(pat) == segs
    else
      var prefix := pat[..|pat| - 2];
      if prefix == "" || prefix == "/" then true
      else if prefix[|prefix| - 1] != '/' then LiteralSegments(prefix) <= segs
      else Parts(prefix[..|prefix| - 1]) < segs
  }

  /** The parts of a pattern as written; the root has none. */
  function LiteralSegments(p: string): seq<string>
    requires Rooted(p)
  {
    if p == "/" then [] else Parts(p)
  }

  lemma LiteralOfCanonical(p: string)
    requires Canonical(p)
    ensures LiteralSegments(p) == Segments(p)
  {
    CanonicalByParts(p);
    RootIsCanonical();
  }

  lemma LiteralInjective(a: string, b: string)
    requires Rooted(a) && Canonical(b) && LiteralSegments(a) == LiteralSegments(b)
    ensures a == b
  {
    LiteralOfCanonical(b);
    RootedPrefix(a, b);
    assert |Parts(a)| >= 1 && |Parts(b)| >= 1;
  }

  /** matchPermission, for every pattern and every path: the string code decides segment-wise
      membership of the cleaned path. */
  lemma MatchIsSegmentwise(pattern: string, vaultPath: string)
    ensures MatchPermission(pattern, vaultPath) <==> Grants(pattern, Segments(NormalizePath(vaultPath)))
  {
    var path := NormalizePath(vaultPath);
    CleanIsCanonical(path);
    NormalizedIsSegmentwise(NormalizePath(pattern), Clean(path));
  }

  lemma NormalizedIsSegmentwise(pat: string, path: string)
    requires Rooted(pat) && Canonical(path)
    ensures MatchNormalized(pat, path) <==> GrantsNormalized(pat, Segments(path))
  {
    if IsWildcard(pat) {
      WildcardIsSegmentwise(pat, path);
    } else {
      ExactIsSegmentwise(pat, path);
    }
  }

  lemma ExactIsSegmentwise(pat: string, path: string)
    requires Rooted(pat) && Canonical(path)
    ensures pat == path <==> LiteralSegments(pat) == Segments(path)
  {
    LiteralOfCanonical(path);
    if LiteralSegments(pat) == LiteralSegments(path) {
      LiteralInjective(pat, path);
    }
  }

  lemma WildcardIsSegmentwise(pat: string, path: string)
    requires Rooted(pat) && IsWildcard(pat) && Canonical(path)
    ensures var prefix := pat[..|pat| - 2];
            prefix != "" ==>
              ((path == prefix || (if prefix[|prefix| - 1] != '/' then prefix + "/" else prefix) <= path) <==>
               (prefix == "/" ||
                if prefix[|prefix| - 1] != '/' then LiteralSegments(prefix) <= Segments(path)
                else Parts(prefix[..|prefix| - 1]) < Segments(path)))
  {
    var prefix := pat[..|pat| - 2];
    LiteralOfCanonical(path);
    if prefix != "" {
      assert prefix[0] == pat[0] == '/';
      if prefix == "/" {
        assert path[..1] == "/";
      } else if prefix[|prefix| - 1] != '/' {
        BelowLiteral(prefix, path);
        if LiteralSegments(prefix) == LiteralSegments(path) {
          LiteralInjective(prefix, path);
        }
      } else {
        var dir := prefix[..|prefix| - 1];
        assert prefix == dir + "/";
        BelowLiteral(dir, path);
        TrailingSlashNotCanonical(dir);
      }
    }
  }

  lemma BelowLiteral(dir: string, path: string)
    requires Rooted(dir) && Canonical(path)
    ensures dir + "/" <= path <==> Parts(dir) < Segments(path)
  {
    CanonicalByParts(path);
    RootedPrefix(dir, path);
    RootIsCanonical();
    assert Parts("/") == [""];
  }

  lemma TrailingSlashNotCanonical(dir: string)
    requires Rooted(dir)
    ensures !Canonical(dir + "/")
  {
    var p := dir + "/";
    CanonicalByParts(p);
    assert p[1..] == dir[1..] + ['/'] + "";
    SplitAppend(dir[1..], "", '/');
    var parts := Parts(p);
    assert parts[|parts| - 1] == "";
    assert !NormalSegment(parts[|parts| - 1]);
  }

  // The pattern of the documentation: a canonical directory followed by "/*".
  lemma CanonicalWildcard(dir: string, vaultPath: string)
    requires Canonical(dir)
    ensures MatchPermission(ChildPrefix(dir) + "*", vaultPath) <==> Segments(dir) <= Segments(NormalizePath(vaultPath))
  {
    var pattern := ChildPrefix(dir) + "*";
    NormalizeRooted(pattern);
    MatchIsSegmentwise(pattern, vaultPath);
    WildcardGrants(dir, Segments(NormalizePath(vaultPath)));
  }

  lemma WildcardGrants(dir: string, segs: seq<string>)
    requires Canonical(dir)
    ensures GrantsNormalized(ChildPrefix(dir) + "*", segs) <==> Segments(dir) <= segs
  {
    var pattern := ChildPrefix(dir) + "*";
    RootIsCanonical();
    if dir == "/" {
      WildcardPrefix("");
      assert pattern == "" + "/*";
    } else {
      WildcardPrefix(dir);
      assert pattern == dir + "/*";
      LiteralOfCanonical(dir);
      NoTrailingSlash(dir);
    }
  }

  lemma WildcardPrefix(dir: string)
    ensures IsWildcard(dir + "/*") && (dir + "/*")[..|dir|] == dir
  {
  }

  lemma NoTrailingSlash(dir: string)
    requires Canonical(dir) && dir != "/"
    ensures dir[|dir| - 1] != '/'
  {
    TrailingSlashNotCanonical(dir[..|dir| - 1]);
    assert dir == dir[..|dir| - 1] + [dir[|dir| - 1]];
  }

  /** Every other wildcard. What stands before the last slash and the star must be canonical, up to
      one more slash, which excludes the directory itself; otherwise nothing is granted. The root
      takes no more slashes. */
  lemma RawWildcard(dir: string, vaultPath: string)
    requires Rooted(dir) && !Canonical(dir)
    ensures MatchPermission(dir + "/*", vaultPath) <==>
            exists q :: dir == q + "/" && q != "/" && Canonical(q) && Segments(q) < Segments(NormalizePath(vaultPath))
  {
    var pattern, segs := dir + "/*", Segments(NormalizePath(vaultPath));
    NormalizeRooted(pattern);
    MatchIsSegmentwise(pattern, vaultPath);
    SegmentsAreNormal(NormalizePath(vaultPath));
    assert IsWildcard(pattern) && pattern[..|pattern| - 2] == dir;
    RootIsCanonical();
    if dir[|dir| - 1] == '/' {
      var q := dir[..|dir| - 1];
      assert dir == q + "/" && Rooted(q);
      if Parts(q) < segs {
        NormalPrefix(Parts(q), segs);
        CanonicalByParts(q);
      }
      forall r | dir == r + "/" ensures r == q {
        assert r == dir[..|dir| - 1];
      }
      if Canonical(q) {
        CanonicalByParts(q);
      }
      assert Parts("/") == [""] && !NormalSegment("");
    } else {
      if Parts(dir) <= segs {
        NormalPrefix(Parts(dir), segs);
        CanonicalByParts(dir);
      }
      EndsInSlash(dir);
    }
  }

  lemma EndsInSlash(p: string)
    requires p != ""
    ensures (exists q :: p == q + "/") <==> p[|p| - 1] == '/'
  {
    if p[|p| - 1] == '/' {
      assert p == p[..|p| - 1] + "/";
    }
  }

  lemma NormalPrefix(xs: seq<string>, segs: seq<string>)
    requires NormalSegments(segs) && xs <= segs
    ensures NormalSegments(xs)
  {
    forall i | 0 <= i < |xs| ensures NormalSegment(xs[i]) {
      assert xs[i] == segs[i];
    }
  }

  /** A canonical pattern without wildcard grants its own place only. */
  lemma CanonicalExact(pattern: string, vaultPath: string)
    requires Canonical(pattern) && !IsWildcard(pattern)
    ensures MatchPermission(pattern, vaultPath) <==> Segments(NormalizePath(vaultPath)) == Segments(pattern)
  {
    NormalizeRooted(pattern);
    CleanIsCanonical(NormalizePath(vaultPath));
  }

  /** A pattern that is neither canonical nor a wildcard grants nothing at all. */
  lemma NonCanonicalExactGrantsNothing(pattern: string, vaultPath: string)
    requires !Canonical(NormalizePath(pattern)) && !IsWildcard(NormalizePath(pattern))
    ensures !MatchPermission(pattern, vaultPath)
  {
    CleanIsCanonical(NormalizePath(vaultPath));
  }

  lemma MatchIgnoresCleaning(pattern: string, vaultPath: string)
    ensures MatchPermission(pattern, vaultPath) == MatchPermission(pattern, Clean(NormalizePath(vaultPath)))
  {
    CleanIsCanonical(NormalizePath(vaultPath));
    NormalizeRooted(Clean(NormalizePath(vaultPath)));
  }

  /** A wildcard grant is closed under descendants. */
  lemma WildcardClosedBelow(pattern: string, upper: string, lower: string)
    requires IsWildcard(NormalizePath(pattern))
    requires Segments(NormalizePath(upper)) <= Segments(NormalizePath(lower))
    requires MatchPermission(pattern, upper)
    ensures MatchPermission(pattern, lower)
  {
    MatchIsSegmentwise(pattern, upper);
    MatchIsSegmentwise(pattern, lower);
  }

  /** A pattern is a wildcard iff it ends in a slash and a star; if it is canonical, iff its last
      segment is a star. */
  lemma WildcardExactly(pattern: string)
    ensures IsWildcard(pattern) <==> exists dir :: pattern == dir + "/*"
    ensures Canonical(pattern) ==>
              (IsWildcard(pattern) <==>
                Segments(pattern) != [] && Segments(pattern)[|Segments(pattern)| - 1] == "*")
  {
    if IsWildcard(pattern) {
      assert pattern == pattern[..|pattern| - 2] + "/*";
    }
    if Canonical(pattern) {
      RootIsCanonical();
      CanonicalByParts(pattern);
      if pattern != "/" {
        LastPartStar(pattern);
      }
    }
  }

  lemma LastPartStar(p: string)
    requires Rooted(p)
    ensures IsWildcard(p) <==> Parts(p)[|Parts(p)| - 1] == "*"
  {
    if IsWildcard(p) {
      StarIsPart(p, p[..|p| - 2]);
    }
    if Parts(p)[|Parts(p)| - 1] == "*" {
      PartIsStar(p, Parts(p)[..|Parts(p)| - 1]);
    }
  }

  lemma StarIsPart(p: string, dir: string)
    requires Rooted(p) && p == dir + "/*"
    ensures Parts(p)[|Parts(p)| - 1] == "*"
  {
    SplitWithoutSep("*", '/');
    if dir == "" {
      assert p[1..] == "*";
    } else {
      assert p[1..] == dir[1..] + ['/'] + "*";
      SplitAppend(dir[1..], "*", '/');
    }
  }

  lemma PartIsStar(p: string, init: seq<string>)
    requires Rooted(p) && Parts(p) == init + ["*"]
    ensures IsWildcard(p)
  {
    JoinSplit(p[1..], '/');
    assert p == "/" + p[1..];
    if init == [] {
      assert p == "/*";
    } else {
      JoinAppend(init, ["*"], "/");
      assert p == ("/" + Join(init, "/")) + "/*";
    }
  }

  /** ".." does not escape a grant: what matters is where the path leads. */
  lemma DotDotIsResolved(pattern: string, dir: string, seg: string, rest: string)
    requires (dir == "" || Rooted(dir)) && NormalSegment(seg)
    ensures MatchPermission(pattern, dir + "/" + seg + "/../" + rest) <==> MatchPermission(pattern, dir + "/" + rest)
  {
    CleanDotDot(dir, seg, rest);
    NormalizeRooted(dir + "/" + seg + "/../" + rest);
    NormalizeRooted(dir + "/" + rest);
  }

  lemma TwoSegments(x: string, y: string)
    requires NormalSegment(x) && NormalSegment(y)
    ensures Canonical("/" + x) && Segments("/" + x) == [x]
    ensures Segments("/" + (x + "/" + y)) == [x, y]
  {
    SegmentsOfRender([x]);
    SegmentsOfRender([x, y]);
    assert [x, y][1..] == [y];
    assert Join([x], "/") == x && Join([x, y], "/") == x + "/" + y;
    assert x + "/" + y == x + ("/" + y) && "/" + (x + "/" + y) == Render([x, y]);
  }

  lemma GrantBelow(seg: string, path: string)
    requires NormalSegment(seg) && Rooted(path)
    ensures MatchPermission("/" + seg + "/*", path) <==> [seg] <= Segments(path)
  {
    TwoSegments(seg, seg);
    assert ChildPrefix("/" + seg) + "*" == "/" + seg + "/*";
    CanonicalWildcard("/" + seg, path);
    NormalizeRooted(path);
  }

  /** Whoever is granted what lies below one directory is not granted what lies below another,
      even if the path goes through the first. */
  lemma DotDotDenied(seg: string, other: string, name: string, path: string)
    requires NormalSegment(seg) && NormalSegment(other) && NormalSegment(name) && seg != other
    requires path == "/" + seg + "/../" + (other + "/" + name)
    ensures !MatchPermission("/" + seg + "/*", path)
  {
    var direct := "/" + (other + "/" + name);
    TwoSegments(other, name);
    assert "" + "/" + (other + "/" + name) == direct && "" + "/" + seg + "/../" + (other + "/" + name) == path;
    GrantBelow(seg, direct);
    DotDotIsResolved("/" + seg + "/*", "", seg, other + "/" + name);
  }

  lemma AppPaths()
    ensures "/" + "app" + "/*" == "/app/*" && "/" + "app" + "/../" + ("admin" + "/" + "x") == "/app/../admin/x"
  {
  }

  /** The example of the code. */
  lemma AppDoesNotReachAdmin(pattern: string, path: string)
    requires pattern == "/app/*" && path == "/app/../admin/x"
    ensures !MatchPermission(pattern, path)
  {
    AppPaths();
    DotDotDenied("app", "admin", "x", path);
  }

  // ---------- Raw keys ----------

  predicate GrantedByAny(patterns: seq<string>, segs: seq<string>) {
    exists i | 0 <= i < |patterns| :: Grants(patterns[i], segs)
  }

  /** A user may read and write a canonical key exactly as an admin, or when any of the patterns
      grants the place that the key literally names. */
  lemma UserAccessIsLiteral(up: UserPermissions, k: string)
    requires Canonical(k)
    ensures up.CanRead(k) <==> up.isAdmin || GrantedByAny(up.patterns, LiteralSegments(k))
    ensures up.CanWrite(k) <==> up.CanRead(k)
  {
    NormalizeRooted(k);
    LiteralOfCanonical(k);
    forall i | 0 <= i < |up.patterns|
      ensures MatchPermission(up.patterns[i], k) <==> Grants(up.patterns[i], LiteralSegments(k))
    {
      MatchIsSegmentwise(up.patterns[i], k);
    }
  }

  /** Whatever pattern matches the key, by its cleaned form, grants the place it literally names. */
  ghost predicate NeverEscapes(key: string)
    requires Rooted(key)
  {
    forall pattern :: MatchPermission(pattern, key) ==> Grants(pattern, LiteralSegments(key))
  }

  // The canonical keys, and the raw keys that clean to a path ending in "/*" whose segments are
  // the first parts of what is written.
  predicate CleansHarmlessly(key: string)
    requires Rooted(key)
  {
    Canonical(key) || (IsWildcard(Clean(key)) && Segments(key) <= LiteralSegments(key))
  }

  lemma WildcardGrantsBelow(pat: string, upper: seq<string>, lower: seq<string>)
    requires Rooted(pat) && IsWildcard(pat) && GrantsNormalized(pat, upper) && upper <= lower
    ensures GrantsNormalized(pat, lower)
  {
  }

  lemma HarmlessNeverEscapes(key: string, pattern: string)
    requires Rooted(key) && CleansHarmlessly(key) && MatchPermission(pattern, key)
    ensures Grants(pattern, LiteralSegments(key))
  {
    MatchIsSegmentwise(pattern, key);
    NormalizeRooted(key);
    if Canonical(key) {
      LiteralOfCanonical(key);
    } else {
      WildcardGrantsBelow(NormalizePath(pattern), Segments(key), LiteralSegments(key));
    }
  }

  lemma ReadableIsGranted(key: string, up: UserPermissions)
    requires Rooted(key) && CleansHarmlessly(key) && !up.isAdmin && up.CanRead(key)
    ensures GrantedByAny(up.patterns, LiteralSegments(key))
  {
    var i :| 0 <= i < |up.patterns| && MatchPermission(up.patterns[i], key);
    HarmlessNeverEscapes(key, up.patterns[i]);
  }

  lemma EscapingPattern(key: string) returns (pattern: string)
    requires Rooted(key) && !CleansHarmlessly(key)
    ensures MatchPermission(pattern, key) && !Grants(pattern, LiteralSegments(key))
  {
    var clean := Clean(key);
    NormalizeRooted(key);
    CleanIsCanonical(key);
    if IsWildcard(clean) {
      pattern := ChildPrefix(clean) + "*";
      CanonicalWildcard(clean, key);
      NormalizeRooted(pattern);
      WildcardGrants(clean, LiteralSegments(key));
    } else {
      pattern := clean;
      NormalizeRooted(clean);
      if LiteralSegments(clean) == LiteralSegments(key) {
        LiteralInjective(key, clean);
      }
    }
  }

  /** Exactly when the check on the cleaned path covers the key as it is written. */
  lemma EscapesExactly(key: string)
    requires Rooted(key)
    ensures NeverEscapes(key) <==> CleansHarmlessly(key)
  {
    if CleansHarmlessly(key) {
      forall pattern | MatchPermission(pattern, key) ensures Grants(pattern, LiteralSegments(key)) {
        HarmlessNeverEscapes(key, pattern);
      }
    } else {
      var pattern := EscapingPattern(key);
      assert !NeverEscapes(key);
    }
  }

  // ---------- Pods ----------

  type Rules = map<string, seq<string>>

  predicate AnyMatches(patterns: seq<string>, vaultPath: string) {
    exists i | 0 <= i < |patterns| :: MatchPermission(patterns[i], vaultPath)
  }

  function PodKey(namespace: string, sa: string): string {
    namespace + "/" + sa
  }

  /** PermissionManager.CanAccess */
  predicate CanAccess(rules: Rules, namespace: string, sa: string, vaultPath: string) {
    var key := PodKey(namespace, sa);
    if key in rules then AnyMatches(rules[key], vaultPath)
    else namespace in rules && AnyMatches(rules[namespace], vaultPath)
  }

  /** The patterns that decide for a pod: its own rule, else the rule of its namespace. */
  function DecidingRule(rules: Rules, namespace: string, sa: string): seq<string> {
    var key := PodKey(namespace, sa);
    if key in rules then rules[key] else if namespace in rules then rules[namespace] else []
  }

  /** A pod may read a canonical key exactly when a pattern of the deciding rule grants the
      place that the key literally names. */
  lemma AccessIsLiteral(rules: Rules, namespace: string, sa: string, k: string)
    requires Canonical(k)
    ensures CanAccess(rules, namespace, sa, k) <==>
            GrantedByAny(DecidingRule(rules, namespace, sa), LiteralSegments(k))
  {
    var patterns := DecidingRule(rules, namespace, sa);
    NormalizeRooted(k);
    LiteralOfCanonical(k);
    forall i | 0 <= i < |patterns|
      ensures MatchPermission(patterns[i], k) <==> Grants(patterns[i], LiteralSegments(k))
    {
      MatchIsSegmentwise(patterns[i], k);
    }
  }

  lemma PodKeyParts(namespace: string, sa: string)
    requires '/' !in namespace && '/' !in sa
    ensures Split(PodKey(namespace, sa), '/') == [namespace, sa]
  {
    SplitAppend(namespace, sa, '/');
    SplitWithoutSep(namespace, '/');
    SplitWithoutSep(sa, '/');
  }

  /** The key of a pod determines the pair and is never the key of a namespace. */
  lemma PodKeyInjective(ns1: string, sa1: string, ns2: string, sa2: string)
    requires '/' !in ns1 && '/' !in sa1 && '/' !in ns2 && '/' !in sa2
    ensures PodKey(ns1, sa1) == PodKey(ns2, sa2) <==> ns1 == ns2 && sa1 == sa2
    ensures PodKey(ns1, sa1) != ns2
  {
    PodKeyParts(ns1, sa1);
    PodKeyParts(ns2, sa2);
    SplitWithoutSep(ns2, '/');
  }

  /** Replacing, adding or removing the rule of one pod identity decides that identity alone:
      the new rule shadows its namespace, and no other identity notices. */
  lemma PodRuleIsSeparate(rules: Rules, ns: string, sa: string, patterns: seq<string>,
                          ns2: string, sa2: string, vaultPath: string)
    requires '/' !in ns && '/' !in sa && '/' !in ns2 && '/' !in sa2
    ensures CanAccess(rules[PodKey(ns, sa) := patterns], ns, sa, vaultPath) <==> AnyMatches(patterns, vaultPath)
    ensures (ns2, sa2) != (ns, sa) ==>
              (CanAccess(rules[PodKey(ns, sa) := patterns], ns2, sa2, vaultPath) <==>
                CanAccess(rules, ns2, sa2, vaultPath))
    ensures (ns2, sa2) != (ns, sa) ==>
              (CanAccess(rules - {PodKey(ns, sa)}, ns2, sa2, vaultPath) <==> CanAccess(rules, ns2, sa2, vaultPath))
  {
    PodKeyInjective(ns, sa, ns2, sa2);
  }

  /** Without a rule of its own and of its namespace a pod may read nothing. */
  lemma UnlistedPodDenied(rules: Rules, namespace: string, sa: string, vaultPath: string)
    requires namespace + "/" + sa !in rules && namespace !in rules
    ensures !CanAccess(rules, namespace, sa, vaultPath)
  {
  }

  /** A namespace rule reaches exactly the identities of that namespace without a rule of
      their own. */
  lemma NamespaceRuleScope(rules: Rules, ns: string, patterns: seq<string>, ns2: string, sa2: string, vaultPath: string)
    requires '/' !in ns && '/' !in ns2 && '/' !in sa2
    ensures CanAccess(rules[ns := patterns], ns2, sa2, vaultPath) <==>
            if ns2 == ns && PodKey(ns2, sa2) !in rules then AnyMatches(patterns, vaultPath)
            else CanAccess(rules, ns2, sa2, vaultPath)
  {
    PodKeyInjective(ns2, sa2, ns, sa2);
  }
}
