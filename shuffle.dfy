/** The Fisher-Yates shuffle used to draw a session's questions. The random
    draws are an input: `js[i]` is the index chosen when the loop stands at
    position `i`, which the random source keeps within `0..i`. */
module FisherYates {

  import opened Questions

  /** The draws `Math.floor(Math.random() * (i + 1))` can produce, one per position. */
  predicate ValidChoices(n: nat, js: seq<int>)
  {
    |js| == n && forall i :: 0 <= i < n ==> 0 <= js[i] <= i
  }

  /** The destructuring swap of positions `i` and `j`. */
  function Swap<T>(s: seq<T>, i: nat, j: nat): (r: seq<T>)
    requires i < |s| && j < |s|
    ensures |r| == |s|
  {
    s[i := s[j]][j := s[i]]
  }

  /** The swap exchanges positions i and j and leaves every other position alone. */
  lemma SwapElements<T>(s: seq<T>, i: nat, j: nat)
    requires i < |s| && j < |s|
    ensures Swap(s, i, j)[i] == s[j] && Swap(s, i, j)[j] == s[i]
    ensures forall k :: 0 <= k < |s| && k != i && k != j ==> Swap(s, i, j)[k] == s[k]
  {
  }

  /** A swap only rearranges: the multiset of elements is kept. */
  lemma SwapPermutes<T>(s: seq<T>, i: nat, j: nat)
    requires i < |s| && j < |s|
    ensures multiset(Swap(s, i, j)) == multiset(s)
  {
    var t := s[i := s[j]];
    assert multiset(t) == multiset(s) - multiset{s[i]} + multiset{s[j]};
  }

  /** The sequence after the loop has done the swaps at positions |s|-1 down to k. */
  function SwapsFrom<T>(s: seq<T>, js: seq<int>, k: nat): (r: seq<T>)
    requires ValidChoices(|s|, js)
    ensures |r| == |s|
    decreases |s| - k
  {
    if k >= |s| then s else Swap(SwapsFrom(s, js, k + 1), k, js[k])
  }

  /** The result of the whole loop, which stops before position 0. */
  function Shuffled<T>(s: seq<T>, js: seq<int>): (r: seq<T>)
    requires ValidChoices(|s|, js)
    ensures |r| == |s|
  {
    SwapsFrom(s, js, 1)
  }

  /** `shuffle` copies its input into a fresh array and swaps in place from the
      last index down to 1; the input itself is a value and is left as it was. */
  method Shuffle<T>(items: seq<T>, js: seq<int>) returns (r: seq<T>)
    requires ValidChoices(|items|, js)
    ensures r == Shuffled(items, js)
    ensures multiset(r) == multiset(items)
  {
    var a := new T[|items|](k requires 0 <= k < |items| => items[k]);
    var i := |items| - 1;
    while i > 0
      invariant -1 <= i < |items|
      invariant |items| > 0 ==> 0 <= i
      invariant a[..] == SwapsFrom(items, js, i + 1)
    {
      var j := js[i];
      a[i], a[j] := a[j], a[i];
      i := i - 1;
    }
    r := a[..];
    ShuffledIsPermutation(items, js);
  }

  lemma {:induction false} SwapsFromIsPermutation<T>(s: seq<T>, js: seq<int>, k: nat)
    requires ValidChoices(|s|, js)
    ensures multiset(SwapsFrom(s, js, k)) == multiset(s)
    decreases |s| - k
  {
    if k < |s| {
      var t := SwapsFrom(s, js, k + 1);
      assert multiset(t) == multiset(s) by {
        SwapsFromIsPermutation(s, js, k + 1);
      }
      assert multiset(SwapsFrom(s, js, k)) == multiset(t) by {
        SwapPermutes(t, k, js[k]);
      }
    }
  }

  /** The shuffle returns a permutation of its input. */
  lemma ShuffledIsPermutation<T>(s: seq<T>, js: seq<int>)
    requires ValidChoices(|s|, js)
    ensures |Shuffled(s, js)| == |s|
    ensures multiset(Shuffled(s, js)) == multiset(s)
  {
    SwapsFromIsPermutation(s, js, 1);
  }

  lemma SwapKeepsDistinct<T, K>(s: seq<T>, i: nat, j: nat, key: T -> K)
    requires i < |s| && j < |s|
    requires DistinctBy(s, key)
    ensures DistinctBy(Swap(s, i, j), key)
  {
    var r := Swap(s, i, j);
    SwapElements(s, i, j);
    forall p, q | 0 <= p < q < |r|
      ensures key(r[p]) != key(r[q])
    {
      var p' := if p == i then j else if p == j then i else p;
      var q' := if q == i then j else if q == j then i else q;
      assert r[p] == s[p'] && r[q] == s[q'];
      assert p' != q';
      if p' < q' {
        assert key(s[p']) != key(s[q']);
      } else {
        assert key(s[q']) != key(s[p']);
      }
    }
  }

  lemma {:induction false} SwapsFromKeepsDistinct<T, K>(s: seq<T>, js: seq<int>, k: nat, key: T -> K)
    requires ValidChoices(|s|, js)
    requires DistinctBy(s, key)
    ensures DistinctBy(SwapsFrom(s, js, k), key)
    decreases |s| - k
  {
    if k < |s| {
      SwapsFromKeepsDistinct(s, js, k + 1, key);
      SwapKeepsDistinct(SwapsFrom(s, js, k + 1), k, js[k], key);
    }
  }

  /** Taking the first n of a shuffle of distinct items gives distinct items,
      each drawn from the input. */
  lemma ShuffledPrefix<T, K>(s: seq<T>, js: seq<int>, n: nat, key: T -> K)
    requires ValidChoices(|s|, js)
    requires n <= |s|
    ensures |Shuffled(s, js)[..n]| == n
    ensures multiset(Shuffled(s, js)[..n]) <= multiset(s)
    ensures DistinctBy(s, key) ==> DistinctBy(Shuffled(s, js)[..n], key)
  {
    var r := Shuffled(s, js);
    ShuffledIsPermutation(s, js);
    assert r == r[..n] + r[n..];
    assert multiset(r) == multiset(r[..n]) + multiset(r[n..]);
    if DistinctBy(s, key) {
      SwapsFromKeepsDistinct(s, js, 1, key);
    }
  }
}
