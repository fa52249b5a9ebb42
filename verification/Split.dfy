/** Cutting a sequence at every occurrence of one element. */
module Split {
  // The first index of c in s, or the length of s.
  function Find<T(==)>(s: seq<T>, c: T): (i: nat)
    ensures i <= |s| && c !in s[..i] && (i < |s| ==> s[i] == c)
  {
    if s == [] || s[0] == c then 0 else
      var i := Find(s[1..], c);
      assert s[..i + 1] == [s[0]] + s[1..][..i];
      i + 1
  }

  // The parts between the occurrences of c, empty ones included.
  function Pieces<T(==)>(s: seq<T>, c: T): (r: seq<seq<T>>)
    ensures |r| >= 1
  {
    var i := Find(s, c);
    if i == |s| then [s] else [s[..i]] + Pieces(s[i + 1..], c)
  }

  lemma {:induction false} FindAfter<T>(a: seq<T>, b: seq<T>, c: T)
    requires c !in a
    ensures Find(a + [c] + b, c) == |a|
  {
    if a != [] {
      FindAfter(a[1..], b, c);
      assert (a + [c] + b)[1..] == a[1..] + [c] + b;
    }
  }

  lemma {:induction false} FindNone<T>(a: seq<T>, c: T)
    requires c !in a
    ensures Find(a, c) == |a|
  {
    if a != [] { FindNone(a[1..], c); }
  }

  lemma PiecesCons<T>(a: seq<T>, b: seq<T>, c: T)
    requires c !in a
    ensures Pieces(a + [c] + b, c) == [a] + Pieces(b, c)
  {
    FindAfter(a, b, c);
    assert (a + [c] + b)[..|a|] == a && (a + [c] + b)[|a| + 1..] == b;
  }

  lemma PiecesOne<T>(a: seq<T>, c: T)
    requires c !in a
    ensures Pieces(a, c) == [a]
  {
    FindNone(a, c);
  }

  lemma Regroup<T>(a: seq<T>, c: seq<T>, rest: seq<T>, b: seq<T>)
    ensures (a + c + rest) + c + b == a + c + (rest + c + b)
  {
  }

  lemma Prepend<T>(a: T, r: seq<T>, b: seq<T>)
    ensures ([a] + r) + b == [a] + (r + b)
  {
  }

  lemma {:induction false} PiecesSnoc<T>(a: seq<T>, b: seq<T>, c: T)
    requires c !in b
    ensures Pieces(a + [c] + b, c) == Pieces(a, c) + [b]
    decreases |a|
  {
    hide Pieces;
    var i := Find(a, c);
    if i == |a| {
      assert a[..i] == a;
      PiecesOne(a, c);
      PiecesCons(a, b, c);
      PiecesOne(b, c);
    } else {
      var first, rest := a[..i], a[i + 1..];
      assert a == first + [c] + rest;
      PiecesSnoc(rest, b, c);
      Regroup(first, [c], rest, b);
      PiecesCons(first, rest + [c] + b, c);
      PiecesCons(first, rest, c);
      Prepend(first, Pieces(rest, c), [b]);
    }
  }

  lemma {:induction false} PiecesAreFree<T>(s: seq<T>, c: T)
    ensures forall k | 0 <= k < |Pieces(s, c)| :: c !in Pieces(s, c)[k]
    decreases |s|
  {
    var i := Find(s, c);
    if i < |s| { PiecesAreFree(s[i + 1..], c); }
  }
}
