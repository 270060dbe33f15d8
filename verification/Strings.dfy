/** The parts of Go's `strings` and `unicode` packages that the vault relies on.
    A string is a sequence of code points. */
module Strings {

  /** strings.Split(s, sep) for a one-character separator; never empty. */
  function Split(s: string, sep: char): (parts: seq<string>)
    ensures |parts| >= 1
  {
    if s == "" then [""]
    else
      var rest := Split(s[1..], sep);
      if s[0] == sep then [""] + rest else [[s[0]] + rest[0]] + rest[1..]
  }

  /** strings.Join(parts, sep). */
  function Join(parts: seq<string>, sep: string): string
  {
    if parts == [] then ""
    else if |parts| == 1 then parts[0]
    else parts[0] + sep + Join(parts[1..], sep)
  }

  /** strings.SplitN(s, sep, 2): cut at the first separator only. */
  function SplitN2(s: string, sep: char): (parts: seq<string>)
    ensures 1 <= |parts| <= 2
  {
    if s == "" then [""]
    else if s[0] == sep then ["", s[1..]]
    else
      var rest := SplitN2(s[1..], sep);
      [[s[0]] + rest[0]] + rest[1..]
  }

  /** unicode.IsSpace */
  predicate IsSpace(c: char) {
    '\t' <= c <= '\r' || c == ' ' || c == '\U{85}' || c == '\U{A0}' || c == '\U{1680}' ||
    '\U{2000}' <= c <= '\U{200A}' || c == '\U{2028}' || c == '\U{2029}' || c == '\U{202F}' ||
    c == '\U{205F}' || c == '\U{3000}'
  }

  /** unicode.IsControl */
  predicate IsControl(c: char) {
    c < ' ' || '\U{7F}' <= c <= '\U{9F}'
  }

  function TrimLeft(s: string): string {
    if s != "" && IsSpace(s[0]) then TrimLeft(s[1..]) else s
  }

  function TrimRight(s: string): string {
    if s != "" && IsSpace(s[|s| - 1]) then TrimRight(s[..|s| - 1]) else s
  }

  /** strings.TrimSpace */
  function TrimSpace(s: string): string {
    TrimRight(TrimLeft(s))
  }

  predicate Trimmed(s: string) {
    s != "" ==> !IsSpace(s[0]) && !IsSpace(s[|s| - 1])
  }

  /** Go's `<` on strings: lexicographic. Byte order on UTF-8 is code point order. */
  predicate Less(a: string, b: string) {
    b != "" && (a == "" || a[0] < b[0] || (a[0] == b[0] && Less(a[1..], b[1..])))
  }

  // ---------- Split and Join are inverse ----------

  lemma {:induction false} JoinSplit(s: string, sep: char)
    ensures Join(Split(s, sep), [sep]) == s
  {
    if s != "" {
      JoinSplit(s[1..], sep);
      var rest := Split(s[1..], sep);
      if s[0] == sep {
        assert ([""] + rest)[1..] == rest;
      } else {
        var parts := [[s[0]] + rest[0]] + rest[1..];
        assert parts[1..] == rest[1..];
        assert s == [s[0]] + s[1..];
      }
    }
  }

  lemma {:induction false} SplitParts(s: string, sep: char)
    ensures forall i | 0 <= i < |Split(s, sep)| :: sep !in Split(s, sep)[i]
  {
    if s != "" {
      SplitParts(s[1..], sep);
    }
  }

  lemma {:induction false} SplitWithoutSep(s: string, sep: char)
    requires sep !in s
    ensures Split(s, sep) == [s]
  {
    if s != "" {
      SplitWithoutSep(s[1..], sep);
      assert s == [s[0]] + s[1..];
    }
  }

  lemma {:induction false} SplitAppend(a: string, b: string, sep: char)
    ensures Split(a + [sep] + b, sep) == Split(a, sep) + Split(b, sep)
  {
    var whole := a + [sep] + b;
    if a == "" {
      assert whole[1..] == b;
    } else {
      assert whole[1..] == a[1..] + [sep] + b;
      SplitAppend(a[1..], b, sep);
    }
  }

  lemma {:induction false} SplitJoin(parts: seq<string>, sep: char)
    requires parts != []
    requires forall i | 0 <= i < |parts| :: sep !in parts[i]
    ensures Split(Join(parts, [sep]), sep) == parts
  {
    SplitWithoutSep(parts[0], sep);
    if |parts| > 1 {
      SplitJoin(parts[1..], sep);
      SplitAppend(parts[0], Join(parts[1..], [sep]), sep);
    }
  }

  lemma {:induction false} JoinAppend(xs: seq<string>, ys: seq<string>, sep: string)
    requires xs != [] && ys != []
    ensures Join(xs + ys, sep) == Join(xs, sep) + sep + Join(ys, sep)
  {
    if |xs| == 1 {
      assert (xs + ys)[1..] == ys;
    } else {
      assert (xs + ys)[1..] == xs[1..] + ys;
      JoinAppend(xs[1..], ys, sep);
      assert Join(xs + ys, sep) == xs[0] + sep + (Join(xs[1..], sep) + sep + Join(ys, sep));
    }
  }

  lemma SplitInjective(a: string, b: string, sep: char)
    requires Split(a, sep) == Split(b, sep)
    ensures a == b
  {
    JoinSplit(a, sep);
    JoinSplit(b, sep);
  }

  /** `strings.HasPrefix(b, a + sep)` is exactly "the parts of a are a proper prefix of the
      parts of b": the string test and the hierarchy agree, for all strings. */
  lemma PrefixIsPartPrefix(a: string, b: string, sep: char)
    ensures a + [sep] <= b <==> Split(a, sep) < Split(b, sep)
  {
    var xs, ys := Split(a, sep), Split(b, sep);
    if a + [sep] <= b {
      var rest := b[|a| + 1..];
      assert b == a + [sep] + rest;
      SplitAppend(a, rest, sep);
    }
    if xs < ys {
      var rest := ys[|xs|..];
      assert ys == xs + rest;
      JoinAppend(xs, rest, [sep]);
      JoinSplit(a, sep);
      JoinSplit(b, sep);
      assert b == a + [sep] + Join(rest, [sep]);
    }
  }

  /** SplitN(s, sep, 2) against Split: same first part, one part exactly when there is no sep. */
  lemma {:induction false} SplitN2VsSplit(s: string, sep: char)
    ensures SplitN2(s, sep)[0] == Split(s, sep)[0]
    ensures |SplitN2(s, sep)| == 1 <==> |Split(s, sep)| == 1
  {
    if s != "" && s[0] != sep {
      SplitN2VsSplit(s[1..], sep);
    }
  }

  lemma {:induction false} SplitN2Cut(a: string, b: string, sep: char)
    requires sep !in a
    ensures SplitN2(a + [sep] + b, sep) == [a, b]
  {
    var whole := a + [sep] + b;
    if a == "" {
      assert whole[1..] == b;
    } else {
      assert whole[1..] == a[1..] + [sep] + b;
      SplitN2Cut(a[1..], b, sep);
      assert a == [a[0]] + a[1..];
    }
  }

  lemma {:induction false} SplitN2Whole(s: string, sep: char)
    requires sep !in s
    ensures SplitN2(s, sep) == [s]
  {
    if s != "" {
      SplitN2Whole(s[1..], sep);
      assert s == [s[0]] + s[1..];
    }
  }

  // ---------- Trimming ----------

  predicate Blank(s: string) {
    forall i | 0 <= i < |s| :: IsSpace(s[i])
  }

  lemma {:induction false} TrimLeftBlank(pre: string, rest: string)
    requires Blank(pre)
    ensures TrimLeft(pre + rest) == TrimLeft(rest)
  {
    if pre == "" {
      assert pre + rest == rest;
    } else {
      assert (pre + rest)[1..] == pre[1..] + rest;
      TrimLeftBlank(pre[1..], rest);
    }
  }

  lemma {:induction false} TrimRightBlank(rest: string, post: string)
    requires Blank(post)
    ensures TrimRight(rest + post) == TrimRight(rest)
    decreases post
  {
    if post == "" {
      assert rest + post == rest;
    } else {
      var n := |post| - 1;
      assert (rest + post)[..|rest + post| - 1] == rest + post[..n];
      TrimRightBlank(rest, post[..n]);
    }
  }

  /** TrimSpace drops the blanks at both ends and nothing else. */
  lemma TrimBlank(pre: string, core: string, post: string)
    requires Trimmed(core) && Blank(pre) && Blank(post)
    ensures TrimSpace(pre + core + post) == core
  {
    assert pre + core + post == pre + (core + post);
    TrimLeftBlank(pre, core + post);
    if core == "" {
      assert core + post == post + "";
      TrimLeftBlank(post, "");
    } else {
      TrimRightBlank(core, post);
    }
  }

  /** Every string is blanks, its trimmed form and blanks. */
  lemma TrimSpaceCuts(s: string) returns (pre: string, post: string)
    ensures s == pre + TrimSpace(s) + post && Blank(pre) && Blank(post)
  {
    pre := TrimLeftCuts(s);
    post := TrimRightCuts(TrimLeft(s));
    assert s == pre + (TrimSpace(s) + post);
  }

  lemma {:induction false} TrimLeftCuts(s: string) returns (pre: string)
    ensures s == pre + TrimLeft(s) && Blank(pre)
  {
    pre := "";
    if s != "" && IsSpace(s[0]) {
      var rest := TrimLeftCuts(s[1..]);
      pre := [s[0]] + rest;
      assert s == [s[0]] + s[1..];
    }
  }

  lemma {:induction false} TrimRightCuts(s: string) returns (post: string)
    ensures s == TrimRight(s) + post && Blank(post)
  {
    post := "";
    if s != "" && IsSpace(s[|s| - 1]) {
      var n := |s| - 1;
      var rest := TrimRightCuts(s[..n]);
      post := rest + [s[n]];
      assert s == s[..n] + [s[n]];
    }
  }

  lemma TrimTrimmed(s: string)
    requires Trimmed(s)
    ensures TrimSpace(s) == s
  {
    TrimBlank("", s, "");
    assert "" + s + "" == s;
  }

  lemma {:induction false} TrimLeftAround(left: string, c: char, right: string)
    requires !IsSpace(c)
    ensures TrimLeft(left + [c] + right) == TrimLeft(left) + [c] + right
  {
    var whole := left + [c] + right;
    if left == "" {
      assert whole == [c] + right;
    } else if IsSpace(left[0]) {
      assert whole[1..] == left[1..] + [c] + right;
      TrimLeftAround(left[1..], c, right);
    }
  }

  lemma {:induction false} TrimRightAround(left: string, c: char, right: string)
    requires !IsSpace(c)
    ensures TrimRight(left + [c] + right) == left + [c] + TrimRight(right)
    decreases right
  {
    var whole := left + [c] + right;
    if right == "" {
      assert whole == left + [c];
    } else if IsSpace(right[|right| - 1]) {
      var n := |right| - 1;
      assert whole[..|whole| - 1] == left + [c] + right[..n];
      TrimRightAround(left, c, right[..n]);
    }
  }

  /** A character that is not blank separates what is trimmed. */
  lemma TrimSpaceAround(left: string, c: char, right: string)
    requires !IsSpace(c)
    ensures TrimSpace(left + [c] + right) == TrimLeft(left) + [c] + TrimRight(right)
  {
    TrimLeftAround(left, c, right);
    TrimRightAround(TrimLeft(left), c, right);
  }

  lemma BlankAround(pre: string, s: string, post: string)
    requires Blank(pre) && Blank(post)
    ensures TrimSpace(pre + s + post) == TrimSpace(s)
  {
    var a, b := TrimSpaceCuts(s);
    TrimSpaceTrimmed(s);
    var core := TrimSpace(s);
    assert Blank(pre + a) && Blank(b + post);
    TrimBlank(pre + a, core, b + post);
    assert pre + (a + core + b) + post == (pre + a) + core + (b + post);
  }

  lemma BlankBefore(pre: string, s: string)
    requires Blank(pre)
    ensures TrimSpace(pre + s) == TrimSpace(s)
  {
    BlankAround(pre, s, "");
    assert pre + s + "" == pre + s;
  }

  lemma BlankAfter(s: string, post: string)
    requires Blank(post)
    ensures TrimSpace(s + post) == TrimSpace(s)
  {
    BlankAround("", s, post);
    assert "" + s + post == s + post;
  }

  lemma TrimAfterLeft(s: string)
    ensures TrimSpace(TrimLeft(s)) == TrimSpace(s)
  {
    var pre := TrimLeftCuts(s);
    BlankBefore(pre, TrimLeft(s));
  }

  lemma TrimAfterRight(s: string)
    ensures TrimSpace(TrimRight(s)) == TrimSpace(s)
  {
    var post := TrimRightCuts(s);
    BlankAfter(TrimRight(s), post);
  }

  /** ASCII: blanks are the space and five of the control characters, which are what is neither
      the space nor printable. */
  lemma AsciiClasses(c: char)
    requires c < '\U{80}'
    ensures IsControl(c) <==> !('\U{20}' <= c <= '\U{7E}')
    ensures IsSpace(c) <==> c in ['\U{9}', '\U{A}', '\U{B}', '\U{C}', '\U{D}', '\U{20}']
  {
    assert ['\U{9}', '\U{A}', '\U{B}', '\U{C}', '\U{D}', '\U{20}'][5] == ' ';
  }

  /** Beyond ASCII: the two Latin-1 blanks and the separators of Unicode. */
  lemma UnicodeSpaces(c: char)
    requires '\U{80}' <= c
    ensures IsSpace(c) <==> c == '\U{85}' || c == '\U{A0}' || IsSeparator(c)
  {
  }

  /** Unicode categories Zs (without the no-break space), Zl and Zp. */
  predicate IsSeparator(c: char) {
    c in ['\U{1680}', '\U{202F}', '\U{205F}', '\U{3000}', '\U{2028}', '\U{2029}'] ||
    c in ['\U{2000}', '\U{2001}', '\U{2002}', '\U{2003}', '\U{2004}', '\U{2005}',
          '\U{2006}', '\U{2007}', '\U{2008}', '\U{2009}', '\U{200A}']
  }

  lemma {:induction false} TrimSpaceTrimmed(s: string)
    ensures Trimmed(TrimSpace(s))
    decreases |s|
  {
    if s != "" && IsSpace(s[0]) {
      TrimSpaceTrimmed(s[1..]);
    } else {
      TrimRightTrimmed(s);
    }
  }

  lemma {:induction false} TrimRightTrimmed(s: string)
    requires s != "" ==> !IsSpace(s[0])
    ensures Trimmed(TrimRight(s))
  {
    if s != "" && IsSpace(s[|s| - 1]) {
      TrimRightTrimmed(s[..|s| - 1]);
    }
  }

  lemma {:induction false} TrimLeftKeepsOut(s: string, c: char)
    requires c !in s
    ensures c !in TrimLeft(s)
  {
    if s != "" && IsSpace(s[0]) {
      TrimLeftKeepsOut(s[1..], c);
    }
  }

  lemma {:induction false} TrimRightKeepsOut(s: string, c: char)
    requires c !in s
    ensures c !in TrimRight(s)
  {
    if s != "" && IsSpace(s[|s| - 1]) {
      TrimRightKeepsOut(s[..|s| - 1], c);
    }
  }

  lemma TrimSpaceKeepsOut(s: string, c: char)
    requires c !in s
    ensures c !in TrimSpace(s)
  {
    TrimLeftKeepsOut(s, c);
    TrimRightKeepsOut(TrimLeft(s), c);
  }

  /** The first part has no separator, and no part has a character that was not there. */
  lemma {:induction false} SplitN2Parts(s: string, sep: char, c: char)
    requires c !in s
    ensures var parts := SplitN2(s, sep); sep !in parts[0] && c !in parts[0] && (|parts| == 2 ==> c !in parts[1])
  {
    if s != "" && s[0] != sep {
      SplitN2Parts(s[1..], sep, c);
      assert c !in s[1..];
    }
  }

  // ---------- The order used for sorting ----------

  /** The two strings agree before `i` and differ there. */
  predicate FirstDifference(a: string, b: string, i: nat) {
    i < |a| && i < |b| && a[..i] == b[..i] && a[i] != b[i]
  }

  /** The shorter of two strings comes first if it begins the other one; otherwise the first
      difference decides. */
  lemma {:induction false} LessIsLexicographic(a: string, b: string)
    ensures Less(a, b) <==> a < b || exists i | 0 <= i :: FirstDifference(a, b, i) && a[i] < b[i]
  {
    if a != "" && b != "" {
      if a[0] == b[0] {
        LessIsLexicographic(a[1..], b[1..]);
        SameHead(a, b);
      } else {
        assert FirstDifference(a, b, 0);
        assert forall i | 0 < i :: FirstDifference(a, b, i) ==> a[..i][0] == b[..i][0];
      }
    }
  }

  lemma SameHead(a: string, b: string)
    requires a != "" && b != "" && a[0] == b[0]
    ensures a < b <==> a[1..] < b[1..]
    ensures !FirstDifference(a, b, 0)
    ensures forall i | 0 < i :: FirstDifference(a, b, i) <==> FirstDifference(a[1..], b[1..], i - 1)
    ensures forall i | 0 <= i :: FirstDifference(a[1..], b[1..], i) ==> FirstDifference(a, b, i + 1)
  {
    forall i | 0 < i <= |a| && i <= |b| ensures a[..i] == b[..i] <==> a[1..][..i - 1] == b[1..][..i - 1] {
      assert a[..i] == [a[0]] + a[1..][..i - 1];
      assert b[..i] == [b[0]] + b[1..][..i - 1];
    }
    assert a == [a[0]] + a[1..] && b == [b[0]] + b[1..];
  }

  lemma {:induction false} LessTotal(a: string, b: string)
    ensures Less(a, b) || a == b || Less(b, a)
  {
    if a != "" && b != "" && a[0] == b[0] {
      LessTotal(a[1..], b[1..]);
      assert a == [a[0]] + a[1..] && b == [b[0]] + b[1..];
    }
  }

  lemma {:induction false} LessAsymmetric(a: string, b: string)
    requires Less(a, b)
    ensures !Less(b, a) && a != b
  {
    if a != "" && a[0] == b[0] {
      LessAsymmetric(a[1..], b[1..]);
    }
  }

  lemma {:induction false} LessTransitive(a: string, b: string, c: string)
    requires Less(a, b) && Less(b, c)
    ensures Less(a, c)
  {
    if a != "" && a[0] == b[0] == c[0] {
      LessTransitive(a[1..], b[1..], c[1..]);
    }
  }
}
