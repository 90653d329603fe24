/** A piece of text standing at a position of a longer one. */
module Texts {

  ghost predicate TextAt<T>(s: seq<T>, f: seq<T>, i: int) {
    && 0 <= i && i + |f| <= |s|
    && forall k :: 0 <= k < |f| ==> f[k] == s[i + k]
  }

  lemma TextParts<T>(s: seq<T>, f: seq<T>, g: seq<T>, i: int)
    requires TextAt(s, f + g, i)
    ensures TextAt(s, f, i) && TextAt(s, g, i + |f|)
  {
    forall k | 0 <= k < |f| ensures f[k] == s[i + k] { assert (f + g)[k] == f[k]; }
    forall k | 0 <= k < |g| ensures g[k] == s[i + |f| + k] { assert (f + g)[|f| + k] == g[k]; }
  }

  lemma OneItem<T>(s: seq<T>, c: T, i: int)
    requires TextAt(s, [c], i)
    ensures 0 <= i < |s| && s[i] == c
  {
    assert [c][0] == c;
  }
}
