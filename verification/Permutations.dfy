/** Lists with the same elements in a different order. */
module Permutations {

  lemma TakeOut<T>(s: seq<T>, j: nat)
    requires j < |s|
    ensures multiset(s) == multiset(s[..j] + s[j + 1..]) + multiset{s[j]}
    ensures multiset(s[..j] + s[j + 1..]) == multiset(s) - multiset{s[j]}
  {
    assert s == s[..j] + [s[j]] + s[j + 1..];
  }

  lemma SamePlace<T>(s: seq<T>, t: seq<T>) returns (j: nat)
    requires s != [] && multiset(s) == multiset(t)
    ensures j < |t| && t[j] == s[|s| - 1]
    ensures multiset(s[..|s| - 1]) == multiset(t[..j] + t[j + 1..])
  {
    var last := |s| - 1;
    assert s[last] in multiset(s);
    assert s[last] in multiset(t);
    j :| 0 <= j < |t| && t[j] == s[last];
    TakeOut(t, j);
    TakeOut(s, last);
    assert s[..last] + s[last + 1..] == s[..last];
  }

  /** `image` is `f` of every element of `s`, in place. */
  ghost predicate Maps<T, U>(f: T -> U, s: seq<T>, image: seq<U>) {
    |image| == |s| && forall i :: 0 <= i < |s| ==> image[i] == f(s[i])
  }

  lemma MapsWithout<T, U>(f: T -> U, s: seq<T>, image: seq<U>, j: nat)
    requires Maps(f, s, image) && j < |s|
    ensures Maps(f, s[..j] + s[j + 1..], image[..j] + image[j + 1..])
  {
  }

  /** Permuting a list permutes its image. */
  lemma {:induction false} ImagesPermute<T, U>(f: T -> U, a: seq<T>, b: seq<T>, imageA: seq<U>, imageB: seq<U>)
    requires Maps(f, a, imageA) && Maps(f, b, imageB) && multiset(a) == multiset(b)
    ensures multiset(imageA) == multiset(imageB)
    decreases |a|
  {
    if a == [] {
      assert |multiset(b)| == 0;
    } else {
      var j := SamePlace(a, b);
      var last := |a| - 1;
      MapsWithout(f, b, imageB, j);
      ImagesPermute(f, a[..last], b[..j] + b[j + 1..], imageA[..last], imageB[..j] + imageB[j + 1..]);
      TakeOut(imageB, j);
      assert imageA == imageA[..last] + [imageA[last]];
      assert a[last] == b[j] && imageA[last] == imageB[j];
    }
  }

  lemma SingletonsEqual<T>(a: seq<T>, b: seq<T>)
    requires multiset(a) == multiset(b)
    ensures |a| == |b|
    ensures |a| == 1 ==> a == b
  {
    assert |multiset(a)| == |a| && |multiset(b)| == |b|;
    if |a| == 1 {
      assert a == [a[0]] && b == [b[0]];
      assert b[0] in multiset(a);
    }
  }
}
