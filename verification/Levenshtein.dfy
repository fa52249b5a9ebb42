/** The edit distance of two words: the matrix, the recursive distance, and what it measures. */
module Levenshtein {

  const SIZE_MAX: nat := 0xFFFF_FFFF_FFFF_FFFF
  const MATRIX_SIZE: nat := 256

  function Min(a: nat, b: nat): nat {
    if a <= b then a else b
  }

  function Init<T>(s: seq<T>): seq<T>
    requires s != []
  {
    s[..|s| - 1]
  }

  function Last<T>(s: seq<T>): T
    requires s != []
  {
    s[|s| - 1]
  }

  function Cost<T(==)>(x: T, y: T): nat {
    if x == y then 0 else 1
  }

  function Distance<T(==)>(a: seq<T>, b: seq<T>): nat
    decreases |a| + |b|
  {
    if b == [] then |a|
    else if a == [] then |b|
    else
      Min(Min(Distance(a, Init(b)) + 1, Distance(Init(a), b) + 1),
          Distance(Init(a), Init(b)) + Cost(Last(a), Last(b)))
  }

  // ----- The matrix -----

  datatype Cell = Cell(row: nat, column: nat)

  // The guard of the routine: words of up to 256 symbols are measured.
  predicate Admitted<T>(s1: seq<T>, s2: seq<T>) {
    |s1| <= 256 && |s2| <= 256
  }

  // The cells that the routine touches for two words: the loops run up to the lengths.
  predicate Touched<T>(s1: seq<T>, s2: seq<T>, c: Cell) {
    Admitted(s1, s2) && s1 != [] && s2 != [] && c.row <= |s2| && c.column <= |s1|
  }

  // The matrix has rows and columns 0..255.
  predicate InMatrix(c: Cell) {
    c.row < MATRIX_SIZE && c.column < MATRIX_SIZE
  }

  ghost predicate StaysInMatrix<T(!new)>(s1: seq<T>, s2: seq<T>) {
    forall c | Touched(s1, s2, c) :: InMatrix(c)
  }

  // The call that leaves the matrix: a word of exactly 256 symbols, against a word the
  // guard admits as well.
  predicate Overruns<T>(s1: seq<T>, s2: seq<T>) {
    Admitted(s1, s2) && s1 != [] && s2 != [] && (|s1| == 256 || |s2| == 256)
  }

  // Every access is inside the matrix exactly when no word has 256 symbols, but against
  // an empty or a longer one.
  lemma GuardIff<T(!new)>(s1: seq<T>, s2: seq<T>)
    ensures StaysInMatrix(s1, s2) <==> !Overruns(s1, s2)
  {
    if Overruns(s1, s2) {
      var c := if |s2| == 256 then Cell(256, 0) else Cell(0, 256);
      assert Touched(s1, s2, c) && !InMatrix(c);
    }
  }

  // A word of 256 symbols, compared with itself, is measured in row 256.
  lemma RowTouched<T(!new)>(x: T)
    ensures var w := seq(256, i => x);
            Admitted(w, w) && Touched(w, w, Cell(256, 0)) && !InMatrix(Cell(256, 0)) && !StaysInMatrix(w, w)
  {
    var w := seq(256, i => x);
    assert Touched(w, w, Cell(256, 0)) && !InMatrix(Cell(256, 0));
  }

  function Measured<T(==)>(s1: seq<T>, s2: seq<T>): nat {
    if Admitted(s1, s2) then Distance(s1, s2) else SIZE_MAX
  }

  method Measure<T(==)>(s1: seq<T>, s2: seq<T>) returns (r: nat)
    requires !Overruns(s1, s2)
    ensures r == Measured(s1, s2)
  {
    hide Distance;
    EmptyWords(s1, s2);
    if |s2| > 256 || |s1| > 256 { return SIZE_MAX; }
    if |s2| == 0 { return |s1|; }
    if |s1| == 0 { return |s2|; }
    var matrix := new nat[MATRIX_SIZE, MATRIX_SIZE];
    ghost var touched;
    r, touched := Fill(s1, s2, matrix);
  }

  // The loops, on a matrix large enough for them: they touch the cells up to the lengths
  // of the words, and no others.
  method Fill<T(==)>(s1: seq<T>, s2: seq<T>, matrix: array2<nat>) returns (r: nat, ghost touched: set<Cell>)
    requires Admitted(s1, s2) && s1 != [] && s2 != []
    requires |s2| < matrix.Length0 && |s1| < matrix.Length1
    modifies matrix
    ensures r == Distance(s1, s2)
    ensures forall c :: c in touched <==> Touched(s1, s2, c)
  {
    hide Distance;
    var n, m := |s2|, |s1|;
    touched := FillBorders(matrix, n, m);
    FirstRow(s1, s2, matrix);
    var i := 1;
    while i <= n
      invariant 1 <= i <= n + 1
      invariant forall k | 0 <= k <= n :: matrix[k, 0] == Distance(s1[..0], s2[..k])
      invariant forall k, l | 0 <= k < i && 0 <= l <= m :: matrix[k, l] == Distance(s1[..l], s2[..k])
      invariant forall c :: c in touched <==> InRows(c, i, n, m)
    {
      ghost var row := FillRow(s1, s2, matrix, i);
      touched := touched + row;
      i := i + 1;
    }
    assert s1[..m] == s1 && s2[..n] == s2;
    r := matrix[n, m];
  }

  // The first column, and the rows before i, of the cells up to n and m.
  predicate InRows(c: Cell, i: nat, n: nat, m: nat) {
    c.row <= n && c.column <= m && (c.column == 0 || c.row < i)
  }

  lemma EmptyWords<T>(s1: seq<T>, s2: seq<T>)
    ensures s2 == [] ==> Distance(s1, s2) == |s1|
    ensures s1 == [] ==> Distance(s1, s2) == |s2|
  {
  }

  method FillBorders(matrix: array2<nat>, n: nat, m: nat) returns (ghost touched: set<Cell>)
    requires n < matrix.Length0 && m < matrix.Length1
    modifies matrix
    ensures forall k | 0 <= k <= n :: matrix[k, 0] == k
    ensures forall k | 0 <= k <= m :: matrix[0, k] == k
    ensures forall c :: c in touched <==> InRows(c, 1, n, m)
  {
    touched := {};
    var i := 0;
    while i <= n
      invariant 0 <= i <= n + 1
      invariant forall k | 0 <= k < i :: matrix[k, 0] == k
      invariant forall c :: c in touched <==> c.column == 0 && c.row < i
    {
      matrix[i, 0] := i;
      touched := touched + {Cell(i, 0)};
      i := i + 1;
    }
    var j := 1;
    while j <= m
      invariant 1 <= j <= m + 1
      invariant forall k | 0 <= k <= n :: matrix[k, 0] == k
      invariant forall k | 0 <= k < j :: matrix[0, k] == k
      invariant forall c :: c in touched <==> (c.column == 0 && c.row <= n) || (c.row == 0 && c.column < j)
    {
      matrix[0, j] := j;
      touched := touched + {Cell(0, j)};
      j := j + 1;
    }
  }

  // One turn of the outer loop: the cells of row i, and those they are computed from.
  method FillRow<T(==)>(s1: seq<T>, s2: seq<T>, matrix: array2<nat>, i: nat) returns (ghost touched: set<Cell>)
    requires 1 <= i <= |s2| < matrix.Length0 && |s1| < matrix.Length1
    requires forall k | 0 <= k <= |s2| :: matrix[k, 0] == Distance(s1[..0], s2[..k])
    requires forall k, l | 0 <= k < i && 0 <= l <= |s1| :: matrix[k, l] == Distance(s1[..l], s2[..k])
    modifies matrix
    ensures forall k | 0 <= k <= |s2| :: matrix[k, 0] == Distance(s1[..0], s2[..k])
    ensures forall k, l | 0 <= k <= i && 0 <= l <= |s1| :: matrix[k, l] == Distance(s1[..l], s2[..k])
    ensures forall c :: c in touched <==> (c.row == i && 1 <= c.column <= |s1|) || Above(c, i, |s1| + 1)
  {
    hide Distance;
    var sc := s2[i - 1];
    var j := 1;
    touched := {};
    while j <= |s1|
      invariant 1 <= j <= |s1| + 1
      invariant forall k | 0 <= k <= |s2| :: matrix[k, 0] == Distance(s1[..0], s2[..k])
      invariant forall k, l | 0 <= k < i && 0 <= l <= |s1| :: matrix[k, l] == Distance(s1[..l], s2[..k])
      invariant forall l | 0 <= l < j :: matrix[i, l] == Distance(s1[..l], s2[..i])
      invariant forall c :: c in touched <==> (c.row == i && 1 <= c.column < j) || Above(c, i, j)
    {
      var v := matrix[i - 1, j - 1];
      if s1[j - 1] != sc { v := v + 1; }
      CellStep(s1, s2, i, j);
      matrix[i, j] := Min(Min(matrix[i - 1, j] + 1, matrix[i, j - 1] + 1), v);
      touched := touched + {Cell(i - 1, j - 1), Cell(i - 1, j), Cell(i, j - 1), Cell(i, j)};
      j := j + 1;
    }
  }

  // The cells read for the columns before j of row i, but for those of the row's own columns.
  predicate Above(c: Cell, i: nat, j: nat) {
    j > 1 && ((c.row == i - 1 && c.column < j) || (c.row == i && c.column == 0))
  }

  lemma FirstRow<T>(s1: seq<T>, s2: seq<T>, matrix: array2<nat>)
    requires |s1| < matrix.Length1 && |s2| < matrix.Length0
    requires forall k | 0 <= k <= |s2| :: matrix[k, 0] == k
    requires forall k | 0 <= k <= |s1| :: matrix[0, k] == k
    ensures forall k | 0 <= k <= |s2| :: matrix[k, 0] == Distance(s1[..0], s2[..k])
    ensures forall k | 0 <= k <= |s1| :: matrix[0, k] == Distance(s1[..k], s2[..0])
  {
  }

  lemma Unfold<T>(a: seq<T>, b: seq<T>)
    requires a != [] && b != []
    ensures Distance(a, b) ==
            Min(Min(Distance(a, Init(b)) + 1, Distance(Init(a), b) + 1),
                Distance(Init(a), Init(b)) + Cost(Last(a), Last(b)))
  {
    hide Min, Cost, Init, Last;
  }

  lemma CellStep<T>(s1: seq<T>, s2: seq<T>, i: nat, j: nat)
    requires 1 <= i <= |s2| && 1 <= j <= |s1|
    ensures Distance(s1[..j], s2[..i]) ==
            Min(Min(Distance(s1[..j], s2[..i - 1]) + 1, Distance(s1[..j - 1], s2[..i]) + 1),
                Distance(s1[..j - 1], s2[..i - 1]) + Cost(s1[j - 1], s2[i - 1]))
  {
    hide Distance;
    assert Init(s1[..j]) == s1[..j - 1] && Init(s2[..i]) == s2[..i - 1];
    Unfold(s1[..j], s2[..i]);
  }

  // ----- The distance is a metric -----

  lemma {:induction false} Bounds<T>(a: seq<T>, b: seq<T>)
    ensures |a| - |b| <= Distance(a, b) && |b| - |a| <= Distance(a, b)
    ensures Distance(a, b) <= if |a| <= |b| then |b| else |a|
    decreases |a| + |b|
  {
    if a != [] && b != [] {
      Bounds(a, Init(b));
      Bounds(Init(a), b);
      Bounds(Init(a), Init(b));
    }
  }

  lemma {:induction false} Symmetric<T>(a: seq<T>, b: seq<T>)
    ensures Distance(a, b) == Distance(b, a)
    decreases |a| + |b|
  {
    if a != [] && b != [] {
      Symmetric(a, Init(b));
      Symmetric(Init(a), b);
      Symmetric(Init(a), Init(b));
    }
  }

  lemma EqualParts<T>(a: seq<T>, b: seq<T>)
    requires a != [] && b != []
    ensures a == b <==> Init(a) == Init(b) && Last(a) == Last(b)
    ensures |Init(a)| == |a| - 1 && |Init(b)| == |b| - 1
  {
    assert a == Init(a) + [Last(a)] && b == Init(b) + [Last(b)];
  }

  lemma {:induction false} ZeroIffEqual<T>(a: seq<T>, b: seq<T>)
    ensures Distance(a, b) == 0 <==> a == b
    decreases |a| + |b|
  {
    if a != [] && b != [] {
      hide Distance, Init, Last;
      Unfold(a, b);
      EqualParts(a, b);
      Bounds(a, b);
      ZeroIffEqual(Init(a), Init(b));
    }
  }

  lemma {:induction false} LeastOfThree<T>(a: seq<T>, b: seq<T>)
    requires a != [] && b != []
    ensures Distance(a, b) <= Distance(a, Init(b)) + 1 && Distance(a, b) <= Distance(Init(a), b) + 1
    ensures Distance(a, b) <= Distance(Init(a), Init(b)) + Cost(Last(a), Last(b))
    ensures Distance(a, b) == Distance(a, Init(b)) + 1 || Distance(a, b) == Distance(Init(a), b) + 1 ||
            Distance(a, b) == Distance(Init(a), Init(b)) + Cost(Last(a), Last(b))
    ensures |Init(a)| == |a| - 1 && |Init(b)| == |b| - 1
  {
    hide Distance, Cost, Min, Last;
    Unfold(a, b);
    MinOfThree(Distance(a, Init(b)) + 1, Distance(Init(a), b) + 1, Distance(Init(a), Init(b)) + Cost(Last(a), Last(b)));
  }

  lemma MinOfThree(x: nat, y: nat, z: nat)
    ensures var d := Min(Min(x, y), z); d <= x && d <= y && d <= z && (d == x || d == y || d == z)
  {
  }

  lemma {:induction false} Triangle<T>(a: seq<T>, b: seq<T>, c: seq<T>)
    ensures Distance(a, c) <= Distance(a, b) + Distance(b, c)
    decreases |a| + |b| + |c|
  {
    if a == [] || b == [] || c == [] {
      Bounds(a, b);
      Bounds(b, c);
      Bounds(a, c);
    } else {
      hide Distance, Init, Last;
      LeastOfThree(a, b);
      LeastOfThree(b, c);
      LeastOfThree(a, c);
      if Distance(a, b) == Distance(Init(a), b) + 1 {
        Triangle(Init(a), b, c);
      } else if Distance(b, c) == Distance(b, Init(c)) + 1 {
        Triangle(a, b, Init(c));
      } else if Distance(a, b) == Distance(a, Init(b)) + 1 {
        if Distance(b, c) == Distance(Init(b), c) + 1 {
          Triangle(a, Init(b), c);
        } else {
          Triangle(a, Init(b), Init(c));
        }
      } else if Distance(b, c) == Distance(Init(b), c) + 1 {
        Triangle(Init(a), Init(b), c);
      } else {
        Triangle(Init(a), Init(b), Init(c));
      }
    }
  }

  // ----- It is the least number of single edits -----

  datatype Edit<T> = Insert(at: nat, x: T) | Delete(at: nat) | Replace(at: nat, x: T)

  predicate Fits<T>(a: seq<T>, e: Edit<T>) {
    if e.Insert? then e.at <= |a| else e.at < |a|
  }

  function Apply<T>(a: seq<T>, e: Edit<T>): seq<T>
    requires Fits(a, e)
  {
    match e
    case Insert(i, x) => a[..i] + [x] + a[i..]
    case Delete(i) => a[..i] + a[i + 1..]
    case Replace(i, x) => a[..i] + [x] + a[i + 1..]
  }

  predicate Rewrites<T(==)>(a: seq<T>, edits: seq<Edit<T>>, b: seq<T>)
    decreases |edits|
  {
    if edits == [] then a == b
    else Fits(a, edits[0]) && Rewrites(Apply(a, edits[0]), edits[1..], b)
  }

  lemma {:induction false} SharedTail<T>(a: seq<T>, b: seq<T>, t: seq<T>)
    ensures Distance(a + t, b + t) <= Distance(a, b)
    decreases |t|
  {
    hide Distance;
    if t == [] {
      assert a + t == a && b + t == b;
    } else {
      SharedTail(a, b, Init(t));
      assert Init(a + t) == a + Init(t) && Init(b + t) == b + Init(t);
      assert Last(a + t) == Last(t) == Last(b + t);
      Unfold(a + t, b + t);
    }
  }

  lemma OneEdit<T>(a: seq<T>, e: Edit<T>)
    requires Fits(a, e)
    ensures Distance(a, Apply(a, e)) <= 1
  {
    hide Distance;
    var p := a[..e.at];
    ZeroIffEqual(p, p);
    match e
    case Insert(i, x) =>
      assert a == p + a[i..] && Init(p + [x]) == p;
      SharedTail(p, p + [x], a[i..]);
      AddOne(p, x);
    case Delete(i) =>
      assert a == (p + [a[i]]) + a[i + 1..] && Init(p + [a[i]]) == p;
      SharedTail(p + [a[i]], p, a[i + 1..]);
      AddOne(p, a[i]);
      Symmetric(p + [a[i]], p);
    case Replace(i, x) =>
      assert a == (p + [a[i]]) + a[i + 1..];
      assert Init(p + [a[i]]) == p == Init(p + [x]);
      SharedTail(p + [a[i]], p + [x], a[i + 1..]);
      Unfold(p + [a[i]], p + [x]);
  }

  lemma AddOne<T>(p: seq<T>, x: T)
    ensures Distance(p, p + [x]) <= 1
  {
    assert Init(p + [x]) == p;
    ZeroIffEqual(p, p);
  }

  // No script of edits is shorter than the distance.
  lemma {:induction false} NoShorterScript<T>(a: seq<T>, edits: seq<Edit<T>>, b: seq<T>)
    requires Rewrites(a, edits, b)
    ensures Distance(a, b) <= |edits|
    decreases |edits|
  {
    if edits == [] {
      ZeroIffEqual(a, b);
    } else {
      OneEdit(a, edits[0]);
      NoShorterScript(Apply(a, edits[0]), edits[1..], b);
      Triangle(a, Apply(a, edits[0]), b);
    }
  }

  lemma {:induction false} ScriptSnoc<T>(a: seq<T>, edits: seq<Edit<T>>, b: seq<T>, e: Edit<T>)
    requires Rewrites(a, edits, b) && Fits(b, e)
    ensures Rewrites(a, edits + [e], Apply(b, e))
    decreases |edits|
  {
    if edits == [] {
      assert edits + [e] == [e] && [e][1..] == [];
    } else {
      assert (edits + [e])[1..] == edits[1..] + [e];
      ScriptSnoc(Apply(a, edits[0]), edits[1..], b, e);
    }
  }

  // A script for a works on a with one more symbol behind it.
  lemma {:induction false} ScriptBefore<T>(a: seq<T>, edits: seq<Edit<T>>, b: seq<T>, c: T)
    requires Rewrites(a, edits, b)
    ensures Rewrites(a + [c], edits, b + [c])
    decreases |edits|
  {
    if edits != [] {
      var e := edits[0];
      assert Apply(a + [c], e) == Apply(a, e) + [c];
      ScriptBefore(Apply(a, e), edits[1..], b, c);
    }
  }

  lemma DeleteLast<T>(a: seq<T>, rest: seq<Edit<T>>, b: seq<T>)
    requires a != [] && Rewrites(Init(a), rest, b)
    ensures Rewrites(a, [Delete(|a| - 1)] + rest, b)
  {
    var edits: seq<Edit<T>> := [Delete(|a| - 1)] + rest;
    assert Apply(a, edits[0]) == Init(a) && edits[1..] == rest;
  }

  lemma InsertLast<T>(a: seq<T>, first: seq<Edit<T>>, b: seq<T>)
    requires b != [] && Rewrites(a, first, Init(b))
    ensures Rewrites(a, first + [Insert(|b| - 1, Last(b))], b)
  {
    var e := Insert(|b| - 1, Last(b));
    ScriptSnoc(a, first, Init(b), e);
    assert Apply(Init(b), e) == b;
  }

  lemma ReplaceLast<T>(a: seq<T>, first: seq<Edit<T>>, b: seq<T>)
    requires a != [] && b != [] && Rewrites(Init(a), first, Init(b))
    ensures Rewrites(a, first + if Last(a) == Last(b) then [] else [Replace(|b| - 1, Last(b))], b)
  {
    hide Rewrites;
    assert a == Init(a) + [Last(a)] && b == Init(b) + [Last(b)];
    ScriptBefore(Init(a), first, Init(b), Last(a));
    if Last(a) == Last(b) {
      assert first + [] == first;
    } else {
      var e := Replace(|b| - 1, Last(b));
      ScriptSnoc(a, first, Init(b) + [Last(a)], e);
      assert Apply(Init(b) + [Last(a)], e) == b;
    }
  }

  lemma {:induction false} ShortestScript<T>(a: seq<T>, b: seq<T>) returns (edits: seq<Edit<T>>)
    ensures Rewrites(a, edits, b) && |edits| == Distance(a, b)
    decreases |a| + |b|
  {
    hide Distance, Rewrites;
    EmptyWords(a, b);
    if a == [] && b == [] {
      edits := [];
      NoEdits(a);
    } else if b == [] {
      EmptyWords(Init(a), b);
      var rest := ShortestScript(Init(a), b);
      DeleteLast(a, rest, b);
      edits := [Delete(|a| - 1)] + rest;
    } else if a == [] {
      EmptyWords(a, Init(b));
      var first := ShortestScript(a, Init(b));
      InsertLast(a, first, b);
      edits := first + [Insert(|b| - 1, Last(b))];
    } else {
      Unfold(a, b);
      if Distance(a, b) == Distance(Init(a), b) + 1 {
        var rest := ShortestScript(Init(a), b);
        DeleteLast(a, rest, b);
        edits := [Delete(|a| - 1)] + rest;
      } else if Distance(a, b) == Distance(a, Init(b)) + 1 {
        var first := ShortestScript(a, Init(b));
        InsertLast(a, first, b);
        edits := first + [Insert(|b| - 1, Last(b))];
      } else {
        var first := ShortestScript(Init(a), Init(b));
        ReplaceLast(a, first, b);
        edits := first + if Last(a) == Last(b) then [] else [Replace(|b| - 1, Last(b))];
      }
    }
  }

  lemma NoEdits<T>(a: seq<T>)
    ensures Rewrites(a, [], a)
  {
  }

  // The distance is the length of a shortest script.
  lemma DistanceIsLeast<T>(a: seq<T>, b: seq<T>)
    ensures exists edits: seq<Edit<T>> :: Rewrites(a, edits, b) && |edits| == Distance(a, b)
    ensures forall edits: seq<Edit<T>> :: Rewrites(a, edits, b) ==> Distance(a, b) <= |edits|
  {
    var edits := ShortestScript(a, b);
    forall other: seq<Edit<T>> | Rewrites(a, other, b) ensures Distance(a, b) <= |other| {
      NoShorterScript(a, other, b);
    }
  }
}
