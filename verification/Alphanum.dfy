/**
  The natural-order comparison of two C strings: single characters against single
  characters, whole numbers against whole numbers, in one pass over both.
*/
module Alphanum {
  import opened MachineWords
  import opened Wrappers

  // A character of a C string, before its final NUL; char is signed.
  type Char = c: int | -128 <= c < 128 && c != 0 witness 1

  type CString = seq<Char>

  const TWO31: nat := 0x8000_0000

  predicate IsDigit(c: Char) {
    48 <= c <= 57
  }

  // ----- A string as a sequence of tokens -----

  datatype Token = Chr(c: Char) | Num(v: nat)

  // How many digits stand from position i on.
  function RunEnd(s: CString, i: nat): (e: nat)
    requires i <= |s|
    ensures i <= e <= |s| && (forall k | i <= k < e :: IsDigit(s[k])) && (e < |s| ==> !IsDigit(s[e]))
    ensures i < |s| && IsDigit(s[i]) ==> i < e
    decreases |s| - i
  {
    if i < |s| && IsDigit(s[i]) then RunEnd(s, i + 1) else i
  }

  function Value(digits: CString): nat
    requires forall k | 0 <= k < |digits| :: IsDigit(digits[k])
  {
    if digits == [] then 0
    else
      var last: int := digits[|digits| - 1];
      assert IsDigit(digits[|digits| - 1]);
      10 * Value(digits[..|digits| - 1]) + (last - 48)
  }

  // The value of the digits from position i on.
  function NumberAt(s: CString, i: nat): nat
    requires i <= |s|
  {
    Value(s[i..RunEnd(s, i)])
  }

  // Single characters, and maximal runs of digits by their value.
  function Tokens(s: CString, i: nat := 0): seq<Token>
    requires i <= |s|
    decreases |s| - i
  {
    if i == |s| then []
    else if IsDigit(s[i]) then [Num(NumberAt(s, i))] + Tokens(s, RunEnd(s, i))
    else [Chr(s[i])] + Tokens(s, i + 1)
  }

  // ----- The order on tokens, and on sequences of them -----

  predicate Before(x: Token, y: Token, textFirst: bool) {
    match (x, y)
    case (Chr(c), Chr(d)) => c < d
    case (Num(v), Num(w)) => v < w
    case (Chr(_), Num(_)) => textFirst
    case (Num(_), Chr(_)) => !textFirst
  }

  // The lexicographic order: -1, 0 or 1.
  function Lexicographic(a: seq<Token>, b: seq<Token>, textFirst: bool): int {
    if a == [] then (if b == [] then 0 else -1)
    else if b == [] then 1
    else if a[0] == b[0] then Lexicographic(a[1..], b[1..], textFirst)
    else if Before(a[0], b[0], textFirst) then -1
    else 1
  }

  lemma {:induction false} LexicographicZero(a: seq<Token>, b: seq<Token>, textFirst: bool)
    ensures Lexicographic(a, b, textFirst) == 0 <==> a == b
  {
    if a != [] && b != [] && a[0] == b[0] {
      LexicographicZero(a[1..], b[1..], textFirst);
      assert a == [a[0]] + a[1..] && b == [b[0]] + b[1..];
    }
  }

  lemma {:induction false} LexicographicFlips(a: seq<Token>, b: seq<Token>, textFirst: bool)
    ensures Lexicographic(b, a, textFirst) == -Lexicographic(a, b, textFirst)
  {
    if a != [] && b != [] && a[0] == b[0] {
      LexicographicFlips(a[1..], b[1..], textFirst);
    }
  }

  lemma {:induction false} LexicographicTransitive(a: seq<Token>, b: seq<Token>, c: seq<Token>, textFirst: bool)
    requires Lexicographic(a, b, textFirst) == -1 && Lexicographic(b, c, textFirst) == -1
    ensures Lexicographic(a, c, textFirst) == -1
  {
    if a != [] && a[0] == b[0] && b[0] == c[0] {
      LexicographicTransitive(a[1..], b[1..], c[1..], textFirst);
    }
  }

  // ----- What the machine words make of it -----

  // A signed word of 32 bits.
  function Wrap32(x: int): int {
    var m := x % TWO32;
    if m < TWO31 then m else m - TWO32
  }

  // The comparison of two numbers: an unsigned difference of 64 bits, returned as an int.
  predicate SameWord(v: nat, w: nat) {
    v % TWO64 == w % TWO64
  }

  // The value returned, for any strings of these tokens.
  function Outcome(a: seq<Token>, b: seq<Token>, textFirst: bool): int {
    if a == [] then (if b == [] then 0 else -1)
    else if b == [] then 1
    else
      match (a[0], b[0])
      case (Chr(c), Chr(d)) => if c != d then c - d else Outcome(a[1..], b[1..], textFirst)
      case (Num(v), Num(w)) => if SameWord(v, w) then Outcome(a[1..], b[1..], textFirst) else Wrap32(v - w)
      case (Chr(_), Num(_)) => if textFirst then -1 else 1
      case (Num(_), Chr(_)) => if textFirst then 1 else -1
  }

  function Signed64(x: int): int {
    var m := x % TWO64;
    if m < 0x8000_0000_0000_0000 then m else m - TWO64
  }

  lemma Words(v: nat, w: nat)
    ensures var diff := Signed64(v % TWO64 - w % TWO64);
            (diff == 0 <==> SameWord(v, w)) && Wrap32(diff) == Wrap32(v - w)
  {
    var x, y := v % TWO64, w % TWO64;
    var diff := Signed64(x - y);
    var n := (diff - (v - w)) / TWO64;
    assert diff == (v - w) + TWO32 * (TWO32 * n) by {
      assert v == x + TWO64 * (v / TWO64) && w == y + TWO64 * (w / TWO64);
      Multiple(x - y, v / TWO64, w / TWO64, diff);
    }
    Shifted(v - w, TWO32 * n);
  }

  lemma Multiple(d: int, p: int, q: int, diff: int)
    requires diff == Signed64(d)
    ensures var x := d + TWO64 * p - TWO64 * q; diff == x + TWO64 * ((diff - x) / TWO64)
  {
    var m := d / TWO64;
    assert d % TWO64 == d - TWO64 * m;
    var k := q - p - m;
    var x := d + TWO64 * p - TWO64 * q;
    assert diff - x == TWO64 * k || diff - x == TWO64 * (k - 1);
  }

  lemma Shifted(x: int, n: int)
    ensures (x + TWO32 * n) % TWO32 == x % TWO32
  {
  }

  // ----- The comparison -----

  datatype Mode = Text | Number

  method NumberFrom(s: CString, start: nat) returns (value: nat, end: nat)
    requires start <= |s|
    ensures end == RunEnd(s, start) && value == NumberAt(s, start) % TWO64
  {
    value, end := 0, start;
    while end < |s| && IsDigit(s[end])
      invariant start <= end <= |s| && forall k | start <= k < end :: IsDigit(s[k])
      invariant RunEnd(s, start) == RunEnd(s, end)
      invariant value == Value(s[start..end]) % TWO64
    {
      OneMoreDigit(s, start, end);
      value := (value * 10 + s[end] as int - 48) % TWO64;
      end := end + 1;
    }
  }

  lemma OneMoreDigit(s: CString, start: nat, end: nat)
    requires start <= end < |s| && forall k | start <= k <= end :: IsDigit(s[k])
    ensures (Value(s[start..end]) % TWO64 * 10 + s[end] as int - 48) % TWO64 == Value(s[start..end + 1]) % TWO64
  {
    var v := Value(s[start..end]);
    assert s[start..end + 1][..end - start] == s[start..end];
    DigitStep(v, s[end] as int - 48);
  }

  lemma DigitStep(v: nat, d: int)
    ensures (v % TWO64 * 10 + d) % TWO64 == (10 * v + d) % TWO64
  {
    var q := v / TWO64;
    assert 10 * v + d == (v % TWO64 * 10 + d) + TWO64 * (10 * q);
  }

  // What is returned from positions i and j on.
  function From(l: CString, r: CString, i: nat, j: nat, textFirst: bool): int
    requires i <= |l| && j <= |r|
  {
    Outcome(Tokens(l, i), Tokens(r, j), textFirst)
  }

  lemma TokensAt(s: CString, i: nat)
    requires i < |s|
    ensures Tokens(s, i) == if IsDigit(s[i]) then [Num(NumberAt(s, i))] + Tokens(s, RunEnd(s, i))
                            else [Chr(s[i])] + Tokens(s, i + 1)
  {
  }

  lemma OutcomeAt(x: Token, a: seq<Token>, y: Token, b: seq<Token>, textFirst: bool)
    ensures Outcome([x] + a, [y] + b, textFirst) ==
            match (x, y)
            case (Chr(c), Chr(d)) => if c != d then c as int - d as int else Outcome(a, b, textFirst)
            case (Num(v), Num(w)) => if SameWord(v, w) then Outcome(a, b, textFirst) else Wrap32(v - w)
            case (Chr(_), Num(_)) => if textFirst then -1 else 1
            case (Num(_), Chr(_)) => if textFirst then 1 else -1
  {
    hide SameWord, Wrap32;
    assert ([x] + a)[1..] == a && ([y] + b)[1..] == b;
  }

  lemma FromCharacters(l: CString, r: CString, i: nat, j: nat, textFirst: bool)
    requires i < |l| && j < |r| && !(IsDigit(l[i]) && IsDigit(r[j]))
    ensures From(l, r, i, j, textFirst) ==
            if IsDigit(l[i]) then if textFirst then 1 else -1
            else if IsDigit(r[j]) then if textFirst then -1 else 1
            else if l[i] != r[j] then l[i] as int - r[j] as int
            else From(l, r, i + 1, j + 1, textFirst)
  {
    hide Tokens, Outcome;
    TokensAt(l, i);
    TokensAt(r, j);
    OutcomeAt(Tokens(l, i)[0], Tokens(l, i)[1..], Tokens(r, j)[0], Tokens(r, j)[1..], textFirst);
  }

  lemma FromNumbers(l: CString, r: CString, i: nat, j: nat, textFirst: bool)
    requires i < |l| && j < |r| && IsDigit(l[i]) && IsDigit(r[j])
    ensures From(l, r, i, j, textFirst) ==
            if SameWord(NumberAt(l, i), NumberAt(r, j)) then From(l, r, RunEnd(l, i), RunEnd(r, j), textFirst)
            else Wrap32(NumberAt(l, i) - NumberAt(r, j))
  {
    hide Tokens, Outcome, NumberAt, RunEnd, SameWord, Wrap32;
    TokensAt(l, i);
    TokensAt(r, j);
    OutcomeAt(Num(NumberAt(l, i)), Tokens(l, RunEnd(l, i)), Num(NumberAt(r, j)), Tokens(r, RunEnd(r, j)), textFirst);
  }

  lemma FromEnd(l: CString, r: CString, i: nat, j: nat, textFirst: bool)
    requires i <= |l| && j <= |r| && (i == |l| || j == |r|)
    ensures From(l, r, i, j, textFirst) == if j < |r| then -1 else if i < |l| then 1 else 0
  {
  }

  // The STRING mode, from two positions inside the strings on: a verdict, or the next mode.
  method Characters(l: CString, r: CString, i0: nat, j0: nat, textFirst: bool)
    returns (verdict: Option<int>, mode: Mode, i: nat, j: nat)
    requires i0 < |l| && j0 < |r|
    ensures verdict.Some? ==> verdict.value == From(l, r, i0, j0, textFirst)
    ensures verdict.None? ==>
              && i <= |l| && j <= |r| && From(l, r, i, j, textFirst) == From(l, r, i0, j0, textFirst)
              && i0 <= i && j0 <= j && (mode == Text ==> i0 < i)
              && (mode == Number ==> i < |l| && j < |r| && IsDigit(l[i]) && IsDigit(r[j]))
  {
    hide From, IsDigit;
    var lDigitResult := if textFirst then 1 else -1;
    var rDigitResult := if textFirst then -1 else 1;
    i, j, mode := i0, j0, Text;
    while i < |l| && j < |r|
      invariant i0 <= i <= |l| && j0 <= j <= |r| && i - i0 == j - j0 && mode == Text
      invariant From(l, r, i, j, textFirst) == From(l, r, i0, j0, textFirst)
    {
      var lDigit, rDigit := IsDigit(l[i]), IsDigit(r[j]);
      if lDigit && rDigit {
        mode := Number;
        break;
      }
      FromCharacters(l, r, i, j, textFirst);
      if lDigit { return Some(lDigitResult), mode, i, j; }
      if rDigit { return Some(rDigitResult), mode, i, j; }
      var diff := l[i] as int - r[j] as int;
      if diff != 0 { return Some(diff), mode, i, j; }
      i, j := i + 1, j + 1;
    }
    verdict := None;
  }

  // The NUMBER mode, from two digits on.
  method Numbers(l: CString, r: CString, i0: nat, j0: nat, textFirst: bool)
    returns (verdict: Option<int>, i: nat, j: nat)
    requires i0 < |l| && j0 < |r| && IsDigit(l[i0]) && IsDigit(r[j0])
    ensures verdict.Some? ==> verdict.value == From(l, r, i0, j0, textFirst)
    ensures verdict.None? ==>
              i0 < i <= |l| && j0 < j <= |r| && From(l, r, i, j, textFirst) == From(l, r, i0, j0, textFirst)
  {
    hide NumberAt, Wrap32, Signed64, SameWord, From;
    FromNumbers(l, r, i0, j0, textFirst);
    Words(NumberAt(l, i0), NumberAt(r, j0));
    var lInt: int, rInt: int;
    lInt, i := NumberFrom(l, i0);
    rInt, j := NumberFrom(r, j0);
    var diff := Signed64(lInt - rInt);
    verdict := if diff != 0 then Some(Wrap32(diff)) else None;
  }

  // alphanum_impl
  method Compare(l: CString, r: CString, textFirst: bool) returns (result: int)
    ensures result == Outcome(Tokens(l), Tokens(r), textFirst)
  {
    ghost var all := From(l, r, 0, 0, textFirst);
    assert all == Outcome(Tokens(l), Tokens(r), textFirst);
    hide IsDigit, Tokens, Outcome, From;
    var mode := Text;
    var i: nat, j: nat := 0, 0;
    while i < |l| && j < |r|
      invariant i <= |l| && j <= |r|
      invariant mode == Number ==> i < |l| && j < |r| && IsDigit(l[i]) && IsDigit(r[j])
      invariant From(l, r, i, j, textFirst) == all
      decreases |l| - i + |r| - j, if mode == Text then 1 else 0
    {
      var verdict;
      if mode == Text {
        verdict, mode, i, j := Characters(l, r, i, j, textFirst);
      } else {
        verdict, i, j := Numbers(l, r, i, j, textFirst);
        mode := Text;
      }
      if verdict.Some? { return verdict.value; }
    }
    FromEnd(l, r, i, j, textFirst);
    if j < |r| { return -1; }
    if i < |l| { return 1; }
    return 0;
  }

  // ----- Numbers below a bound -----

  predicate Below(a: seq<Token>, bound: nat) {
    forall k | 0 <= k < |a| && a[k].Num? :: a[k].v < bound
  }

  function Sign(x: int): int {
    if x < 0 then -1 else if x == 0 then 0 else 1
  }

  lemma SmallDifference(v: nat, w: nat)
    requires v < TWO31 && w < TWO31
    ensures Wrap32(v - w) == v - w && (SameWord(v, w) <==> v == w)
  {
  }

  lemma {:induction false} OutcomeIsLexicographic(a: seq<Token>, b: seq<Token>, textFirst: bool)
    requires Below(a, TWO31) && Below(b, TWO31)
    ensures Sign(Outcome(a, b, textFirst)) == Lexicographic(a, b, textFirst)
  {
    if a != [] && b != [] {
      if a[0].Num? && b[0].Num? { SmallDifference(a[0].v, b[0].v); }
      if a[0] == b[0] { OutcomeIsLexicographic(a[1..], b[1..], textFirst); }
    }
  }

  // The functors: alphanum_less, and alphanum_text_first_less.
  predicate Less(l: CString, r: CString, textFirst: bool) {
    Outcome(Tokens(l), Tokens(r), textFirst) < 0
  }

  predicate Equivalent(l: CString, r: CString, textFirst: bool) {
    !Less(l, r, textFirst) && !Less(r, l, textFirst)
  }

  predicate RunsBelow(s: CString, bound: nat) {
    Below(Tokens(s), bound)
  }

  // A strict weak order, on the strings whose numbers are below a bound.
  ghost predicate StrictWeakOrder(bound: nat, textFirst: bool) {
    && (forall x | RunsBelow(x, bound) :: !Less(x, x, textFirst))
    && (forall x, y | RunsBelow(x, bound) && RunsBelow(y, bound) && Less(x, y, textFirst) :: !Less(y, x, textFirst))
    && (forall x, y, z | RunsBelow(x, bound) && RunsBelow(y, bound) && RunsBelow(z, bound)
                         && Less(x, y, textFirst) && Less(y, z, textFirst) :: Less(x, z, textFirst))
    && (forall x, y, z | RunsBelow(x, bound) && RunsBelow(y, bound) && RunsBelow(z, bound)
                         && Equivalent(x, y, textFirst) && Equivalent(y, z, textFirst) :: Equivalent(x, z, textFirst))
  }

  lemma LessMeans(x: CString, y: CString, textFirst: bool)
    requires RunsBelow(x, TWO31) && RunsBelow(y, TWO31)
    ensures Less(x, y, textFirst) <==> Lexicographic(Tokens(x), Tokens(y), textFirst) == -1
    ensures Less(y, x, textFirst) <==> Lexicographic(Tokens(x), Tokens(y), textFirst) == 1
  {
    OutcomeIsLexicographic(Tokens(x), Tokens(y), textFirst);
    OutcomeIsLexicographic(Tokens(y), Tokens(x), textFirst);
    LexicographicFlips(Tokens(x), Tokens(y), textFirst);
  }

  // Two strings are equivalent exactly when they have the same tokens: "007" and "7".
  lemma EquivalentIffSameTokens(x: CString, y: CString, textFirst: bool)
    requires RunsBelow(x, TWO31) && RunsBelow(y, TWO31)
    ensures Equivalent(x, y, textFirst) <==> Tokens(x) == Tokens(y)
  {
    LessMeans(x, y, textFirst);
    LexicographicZero(Tokens(x), Tokens(y), textFirst);
    OutcomeIsLexicographic(Tokens(x), Tokens(y), textFirst);
  }

  lemma SmallNumbersAreOrdered(textFirst: bool)
    ensures StrictWeakOrder(TWO31, textFirst)
  {
    forall x, y | RunsBelow(x, TWO31) && RunsBelow(y, TWO31)
      ensures Less(x, y, textFirst) <==> Lexicographic(Tokens(x), Tokens(y), textFirst) == -1
      ensures Less(y, x, textFirst) <==> Lexicographic(Tokens(x), Tokens(y), textFirst) == 1
      ensures Equivalent(x, y, textFirst) <==> Tokens(x) == Tokens(y)
    {
      LessMeans(x, y, textFirst);
      EquivalentIffSameTokens(x, y, textFirst);
    }
    forall x, y, z | RunsBelow(x, TWO31) && RunsBelow(y, TWO31) && RunsBelow(z, TWO31)
                     && Less(x, y, textFirst) && Less(y, z, textFirst)
      ensures Less(x, z, textFirst)
    {
      LexicographicTransitive(Tokens(x), Tokens(y), Tokens(z), textFirst);
    }
  }

  // "2147483648" and "0" each come before the other.
  const BIG: CString := [50, 49, 52, 55, 52, 56, 51, 54, 52, 56]
  const ZERO: CString := [48]

  lemma {:induction false} BigValue(n: nat)
    requires n <= 10
    ensures forall k | 0 <= k < n :: IsDigit(BIG[..n][k])
    ensures Value(BIG[..n]) == [0, 2, 21, 214, 2147, 21474, 214748, 2147483, 21474836, 214748364, 2147483648][n]
  {
    if n > 0 {
      BigValue(n - 1);
      assert BIG[..n][..n - 1] == BIG[..n - 1];
    }
  }

  lemma BigTokens()
    ensures Tokens(BIG) == [Num(TWO31)] && Tokens(ZERO) == [Num(0)]
  {
    BigValue(10);
    assert BIG[..10] == BIG;
    assert RunEnd(BIG, 0) == 10 && RunEnd(ZERO, 0) == 1;
    assert ZERO[0..1] == ZERO && ZERO[..0] == [];
  }

  lemma BigGoesBothWays(textFirst: bool)
    ensures Less(BIG, ZERO, textFirst) && Less(ZERO, BIG, textFirst)
  {
    BigTokens();
  }

  // The functors order the strings whose numbers are below 2^31, and no larger such set.
  lemma StrictWeakOrderIff(bound: nat, textFirst: bool)
    ensures StrictWeakOrder(bound, textFirst) <==> bound <= TWO31
  {
    if bound <= TWO31 {
      SmallNumbersAreOrdered(textFirst);
      forall x: CString | RunsBelow(x, bound) ensures RunsBelow(x, TWO31) {}
    } else {
      BigTokens();
      BigGoesBothWays(textFirst);
      assert RunsBelow(BIG, bound) && RunsBelow(ZERO, bound);
    }
  }
}
