/** Values that may be missing, and results of operations that may fail. */
module Wrappers {
  datatype Option<+T> = None | Some(value: T)

  datatype Result<+T, +E> = Ok(value: T) | Err(error: E)

  /** The results of the elements that have one, in order. */
  function FilterMap<T, U>(s: seq<T>, f: T -> Option<U>): seq<U> {
    if s == [] then []
    else
      var init := FilterMap(s[..|s| - 1], f);
      match f(s[|s| - 1])
      case None => init
      case Some(value) => init + [value]
  }

  lemma {:induction false} FilterMapFirst<T, U>(x: T, rest: seq<T>, f: T -> Option<U>)
    requires f(x).Some?
    ensures FilterMap([x] + rest, f) == [f(x).value] + FilterMap(rest, f)
    decreases rest
  {
    if rest == [] {
      assert [x] + rest == [x] && [x][..0] == [];
    } else {
      var n := |rest| - 1;
      assert ([x] + rest)[..n + 1] == [x] + rest[..n];
      FilterMapFirst(x, rest[..n], f);
    }
  }

  lemma {:induction false} FilterMapAppend<T, U>(xs: seq<T>, ys: seq<T>, f: T -> Option<U>)
    ensures FilterMap(xs + ys, f) == FilterMap(xs, f) + FilterMap(ys, f)
    decreases ys
  {
    if ys == [] {
      assert xs + ys == xs;
    } else {
      var n := |ys| - 1;
      assert (xs + ys)[..|xs + ys| - 1] == xs + ys[..n];
      FilterMapAppend(xs, ys[..n], f);
    }
  }

  lemma FilterMapOne<T, U>(x: T, f: T -> Option<U>)
    ensures FilterMap([x], f) == if f(x).Some? then [f(x).value] else []
  {
    assert [x][..0] == [];
  }

  /** One more element appends its result; later ones only append. */
  lemma FilterMapStep<T, U>(s: seq<T>, i: nat, f: T -> Option<U>)
    requires i < |s|
    ensures f(s[i]).None? ==> FilterMap(s[..i + 1], f) == FilterMap(s[..i], f)
    ensures f(s[i]).Some? ==>
              var before := FilterMap(s[..i], f);
              && FilterMap(s[..i + 1], f) == before + [f(s[i]).value]
              && |before| < |FilterMap(s, f)| && FilterMap(s, f)[|before|] == f(s[i]).value
              && FilterMap(s, f)[..|before|] == before
  {
    assert s[..i + 1][..i] == s[..i];
    FilterMapGrows(s, i + 1, f);
    if f(s[i]).Some? {
      var n := |FilterMap(s[..i], f)|;
      assert FilterMap(s, f)[..n] == FilterMap(s[..i + 1], f)[..n];
    }
  }

  lemma {:induction false} FilterMapFrom<T, U>(s: seq<T>, f: T -> Option<U>, i: nat) returns (j: nat)
    requires i < |FilterMap(s, f)|
    ensures j < |s| && f(s[j]) == Some(FilterMap(s, f)[i])
  {
    var n := |s| - 1;
    if i < |FilterMap(s[..n], f)| {
      j := FilterMapFrom(s[..n], f, i);
    } else {
      j := n;
    }
  }

  lemma {:induction false} FilterMapGrows<T, U>(s: seq<T>, i: nat, f: T -> Option<U>)
    requires i <= |s|
    ensures FilterMap(s[..i], f) <= FilterMap(s, f)
    decreases |s| - i
  {
    assert s[..|s|] == s;
    if i < |s| {
      FilterMapGrows(s, i + 1, f);
      assert s[..i + 1][..i] == s[..i];
    }
  }
}
