/** Generic sequence helpers shared by the models. */
module Seqs {
  /** The concatenation of `f(x)` over the elements `x` of `s`, in order. */
  function FlatMap<A, B>(s: seq<A>, f: A -> seq<B>): seq<B>
  {
    if s == [] then [] else FlatMap(s[..|s| - 1], f) + f(s[|s| - 1])
  }

  lemma {:induction false} FlatMapAppend<A, B>(a: seq<A>, b: seq<A>, f: A -> seq<B>)
    ensures FlatMap(a + b, f) == FlatMap(a, f) + FlatMap(b, f)
    decreases |b|
  {
    if b == [] {
      assert a + b == a;
    } else {
      var n := |b| - 1;
      assert (a + b)[..|a + b| - 1] == a + b[..n];
      FlatMapAppend(a, b[..n], f);
    }
  }

  /** Each element's contribution appears in the result. */
  lemma FlatMapMember<A, B>(s: seq<A>, f: A -> seq<B>, i: int, y: B)
    requires 0 <= i < |s| && y in f(s[i])
    ensures y in FlatMap(s, f)
  {
    assert s == s[..i] + ([s[i]] + s[i + 1..]);
    FlatMapAppend(s[..i], [s[i]] + s[i + 1..], f);
    FlatMapAppend([s[i]], s[i + 1..], f);
    assert [s[i]][..0] == [];
  }

  /** Every element of the result comes from some element's contribution. */
  lemma {:induction false} FlatMapSource<A, B>(s: seq<A>, f: A -> seq<B>, k: int) returns (i: int, l: int)
    requires 0 <= k < |FlatMap(s, f)|
    ensures 0 <= i < |s| && 0 <= l < |f(s[i])| && FlatMap(s, f)[k] == f(s[i])[l]
    decreases |s|
  {
    var n := |s| - 1;
    var prefix := FlatMap(s[..n], f);
    if k < |prefix| {
      i, l := FlatMapSource(s[..n], f, k);
      assert s[..n][i] == s[i];
    } else {
      i, l := n, k - |prefix|;
    }
  }
}
