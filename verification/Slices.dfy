/** A sequence standing inside another one, at a given position. */
module Slices {
  // w stands in s at position i
  predicate Has<T(==)>(s: seq<T>, i: nat, w: seq<T>) {
    i + |w| <= |s| && s[i..i + |w|] == w
  }

  lemma HasSplit<T>(s: seq<T>, i: nat, a: seq<T>, b: seq<T>)
    ensures Has(s, i, a + b) <==> Has(s, i, a) && Has(s, i + |a|, b)
  {
    if Has(s, i, a + b) {
      assert s[i..i + |a|] == (a + b)[..|a|];
      assert s[i + |a|..i + |a| + |b|] == (a + b)[|a|..];
    }
    if Has(s, i, a) && Has(s, i + |a|, b) {
      assert s[i..i + |a + b|] == s[i..i + |a|] + s[i + |a|..i + |a| + |b|];
    }
  }

  lemma HasAt<T>(s: seq<T>, i: nat, w: seq<T>)
    requires Has(s, i, w)
    ensures forall k | 0 <= k < |w| :: s[i + k] == w[k]
  {
    forall k | 0 <= k < |w| ensures s[i + k] == w[k] {
      assert s[i..i + |w|][k] == w[k];
    }
  }

  lemma SliceGrows<T>(s: seq<T>, lo: nat, hi: nat)
    requires lo <= hi < |s|
    ensures s[lo..hi + 1] == s[lo..hi] + [s[hi]]
  {
  }

  lemma HasBound<T>(s: seq<T>, i: nat, w: seq<T>)
    requires Has(s, i, w)
    ensures i + |w| <= |s|
  {
  }

  // What stands inside x stands in s, where x stands in s.
  lemma HasInside<T>(s: seq<T>, p: nat, x: seq<T>, j: nat, w: seq<T>)
    requires Has(s, p, x) && j + |w| <= |x|
    ensures Has(x, j, w) <==> Has(s, p + j, w)
  {
    HasAt(s, p, x);
    var a, b := s[p + j..p + j + |w|], x[j..j + |w|];
    forall k | 0 <= k < |w| ensures a[k] == b[k] {
      assert s[p + (j + k)] == x[j + k];
    }
    assert a == b;
  }

  lemma HasOne<T>(s: seq<T>, i: nat, x: T)
    requires Has(s, i, [x])
    ensures i < |s| && s[i] == x
  {
    HasAt(s, i, [x]);
    assert s[i + 0] == [x][0];
  }

  // What stands in a part stands in the whole.
  lemma HasInSum<T>(a: seq<T>, b: seq<T>, i: nat, w: seq<T>)
    ensures Has(a, i, w) ==> Has(a + b, i, w)
    ensures Has(b, i, w) ==> Has(a + b, |a| + i, w)
  {
    if Has(a, i, w) { assert (a + b)[i..i + |w|] == a[i..i + |w|]; }
    if Has(b, i, w) { assert (a + b)[|a| + i..|a| + i + |w|] == b[i..i + |w|]; }
  }
}
