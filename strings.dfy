/** The few `java.lang.String` operations the mixin engine relies on. */
module Strings {

  /** `s.replace(from, to)`: every occurrence of the character `from` becomes `to`. */
  function Replace(s: string, from: char, to: char): (r: string)
    ensures |r| == |s|
    ensures forall i :: 0 <= i < |s| ==> r[i] == (if s[i] == from then to else s[i])
    ensures from != to ==> from !in r
  {
    if s == [] then [] else [if s[0] == from then to else s[0]] + Replace(s[1..], from, to)
  }

  /** `s.indexOf(c)`: the position of the first `c` in `s`, or -1 when there is none. */
  function IndexOf(s: string, c: char): (r: int)
    ensures -1 <= r < |s|
    ensures r == -1 <==> c !in s
    ensures r >= 0 ==> s[r] == c && c !in s[..r]
  {
    if s == [] then -1
    else if s[0] == c then 0
    else
      var k := IndexOf(s[1..], c);
      if k == -1 then -1
      else
        assert s[..k + 1] == [s[0]] + s[1..][..k];
        k + 1
  }

  /** When `b` starts with `c` and `a` holds no `c`, the first `c` of `a + b` is where `b` begins. */
  lemma IndexOfJoin(a: string, b: string, c: char)
    requires c !in a && |b| > 0 && b[0] == c
    ensures IndexOf(a + b, c) == |a|
  {
    var s := a + b;
    assert s[..|a|] == a;
    assert s[|a|] == c;
  }

  /** A string can be split back into the part before its first `c` and the rest. */
  lemma SplitAtFirst(a: string, b: string, a': string, b': string, c: char)
    requires c !in a && |b| > 0 && b[0] == c
    requires c !in a' && |b'| > 0 && b'[0] == c
    requires a + b == a' + b'
    ensures a == a' && b == b'
  {
    IndexOfJoin(a, b, c);
    IndexOfJoin(a', b', c);
    assert a == (a + b)[..|a|];
    assert a' == (a' + b')[..|a'|];
    assert b == (a + b)[|a|..];
    assert b' == (a' + b')[|a'|..];
  }

  /** A string whose last `c` is followed by a `c`-free tail splits back at that `c`. */
  lemma SplitAtLast(a: string, b: string, a': string, b': string, c: char)
    requires c !in b && c !in b'
    requires a + [c] + b == a' + [c] + b'
    ensures a == a' && b == b'
  {
    var s := a + [c] + b;
    var s' := a' + [c] + b';
    forall k | |a| < k < |s| ensures s[k] != c {
      assert s[k] == b[k - |a| - 1];
    }
    forall k | |a'| < k < |s'| ensures s'[k] != c {
      assert s'[k] == b'[k - |a'| - 1];
    }
    assert s[|a|] == c && s'[|a'|] == c;
    assert |a| == |a'|;
    assert a == s[..|a|] && a' == s'[..|a'|];
    assert b == s[|a| + 1..] && b' == s'[|a'| + 1..];
  }

  /** A sequence is its prefix followed by the rest. */
  lemma SliceJoin<T>(s: seq<T>, i: nat)
    requires i <= |s|
    ensures s[..i] + s[i..] == s
  {
  }
}
