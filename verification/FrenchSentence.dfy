/**
  Sentences as sequences of words with a phonetic form: the greedy comparison with
  its stealing of better matches, and the prefix test over two nested cursors.
  Scores are exact reals; the phonetic form of a word is any phoneme sequence.
*/
module FrenchSentence {
  import opened Levenshtein

  datatype Phoneme =
    | A | AN | B | CH | D | E | F | G | I | J | K | L | M | N | O | ON | P | R | S | T | U | V | Z

  datatype Word = Word(phonetic: seq<Phoneme>, plainLowerSource: string)

  datatype Sentence = Sentence(lowerSource: string, words: seq<Word>)

  // What the constructor keeps: only words that have a phonetic form.
  predicate Valid(s: Sentence) {
    forall k | 0 <= k < |s.words| :: s.words[k].phonetic != []
  }

  // getPhoneticString().empty(): a second word already brings a space.
  predicate NoPhonetics(s: Sentence) {
    s.words == [] || (|s.words| == 1 && s.words[0].phonetic == [])
  }

  datatype ComparisonScore = ComparisonScore(levenshtein: nat, phoneticScore: real)

  // ----- The score of one word against another -----

  // The distance of the two words is measured inside the matrix.
  predicate ComparableWords(w: Word, q: Word) {
    !Overruns(w.phonetic, q.phonetic)
  }

  function BaseScore(w: Word, q: Word): real
    requires q.phonetic != []
  {
    var d := Measured(w.phonetic, q.phonetic);
    1.0 - d as real / (if d > |q.phonetic| then d else |q.phonetic|) as real
  }

  function WithBonus(score: real, w: Word, q: Word): real {
    if score > 0.0 && q.phonetic <= w.phonetic then score + (1.0 - score) * score else score
  }

  function MinScore(q: Word): real {
    var x := 0.1 * |q.plainLowerSource| as real;
    if 0.9 < x then 0.9 else x
  }

  function WordScore(w: Word, q: Word): real
    requires q.phonetic != []
  {
    var score := WithBonus(BaseScore(w, q), w, q);
    if q.plainLowerSource <= w.plainLowerSource && score < MinScore(q) then MinScore(q) else score
  }

  lemma QuotientRange(d: real, x: real)
    requires 0.0 <= d <= x && 0.0 < x
    ensures 0.0 <= d / x <= 1.0
    ensures d / x == 0.0 <==> d == 0.0
  {
    if d > 0.0 { assert d / x * x == d; }
  }

  lemma ProductRange(a: real, b: real)
    requires 0.0 <= a && 0.0 <= b
    ensures a * b >= 0.0
    ensures a * b == 0.0 <==> a == 0.0 || b == 0.0
  {
  }

  lemma BonusRange(x: real, w: Word, q: Word)
    requires 0.0 <= x <= 1.0
    ensures x <= WithBonus(x, w, q) <= 1.0
    ensures WithBonus(x, w, q) == 1.0 <==> x == 1.0
  {
    var y := 1.0 - x;
    ProductRange(y, y);
    ProductRange(y, x);
    assert x + y * x == 1.0 - y * y;
  }

  lemma BaseRange(w: Word, q: Word)
    requires q.phonetic != []
    ensures 0.0 <= BaseScore(w, q) <= 1.0
    ensures BaseScore(w, q) == 1.0 <==> Measured(w.phonetic, q.phonetic) == 0
  {
    var d := Measured(w.phonetic, q.phonetic);
    QuotientRange(d as real, (if d > |q.phonetic| then d else |q.phonetic|) as real);
  }

  lemma MinRange(q: Word)
    ensures 0.0 <= MinScore(q) <= 0.9
  {
  }

  lemma ScoreBounds(w: Word, q: Word)
    requires q.phonetic != []
    ensures 0.0 <= WordScore(w, q) <= 1.0
    ensures WordScore(w, q) == 1.0 <==> Measured(w.phonetic, q.phonetic) == 0
    ensures WordScore(w, q) == 1.0 ==> w.phonetic == q.phonetic && |q.phonetic| <= 256
  {
    hide BaseScore, MinScore, WithBonus;
    BaseRange(w, q);
    BonusRange(BaseScore(w, q), w, q);
    MinRange(q);
    ZeroIffEqual(w.phonetic, q.phonetic);
  }

  // A score is in [0, 1], and 1 exactly for equal phonetic forms that fit the matrix.
  lemma WordScoreRange(w: Word, q: Word)
    requires q.phonetic != [] && ComparableWords(w, q)
    ensures 0.0 <= WordScore(w, q) <= 1.0
    ensures WordScore(w, q) == 1.0 <==> w.phonetic == q.phonetic && |q.phonetic| < 256
  {
    hide WordScore;
    ScoreBounds(w, q);
    ZeroIffEqual(w.phonetic, q.phonetic);
  }

  // FrenchPhoneticString::startsWith and startsWithExact: one position loop each.
  method StartsWithPhonetic(w: seq<Phoneme>, s: seq<Phoneme>) returns (r: bool)
    ensures r <==> s <= w
  {
    if |s| > |w| { return false; }
    var pos := 0;
    while pos < |s|
      invariant 0 <= pos <= |s|
      invariant forall k | 0 <= k < pos :: s[k] == w[k]
    {
      if s[pos] != w[pos] { return false; }
      pos := pos + 1;
    }
    r := true;
  }

  method StartsWithExact(s1: string, s2: string) returns (r: bool)
    ensures r <==> s1 <= s2
  {
    if |s1| > |s2| { return false; }
    var pos := 0;
    while pos < |s1|
      invariant 0 <= pos <= |s1|
      invariant forall k | 0 <= k < pos :: s1[k] == s2[k]
    {
      if s1[pos] != s2[pos] { return false; }
      pos := pos + 1;
    }
    r := true;
  }

  method ScoreWords(w: Word, q: Word) returns (score: real)
    requires q.phonetic != [] && ComparableWords(w, q)
    ensures score == WordScore(w, q)
  {
    hide BaseScore, WithBonus;
    var distance := Measure(w.phonetic, q.phonetic);
    var size := |q.phonetic|;
    score := 1.0 - distance as real / (if distance > size then distance else size) as real;
    assert score == BaseScore(w, q) by { BaseIs(w, q); }
    if score > 0.0 {
      var starts := StartsWithPhonetic(w.phonetic, q.phonetic);
      BonusIs(score, w, q);
      if starts { score := score + (1.0 - score) * score; }
    }
    assert score == WithBonus(BaseScore(w, q), w, q) by { NoBonus(BaseScore(w, q), w, q); }
    var exact := StartsWithExact(q.plainLowerSource, w.plainLowerSource);
    if exact {
      var minScore := 0.1 * |q.plainLowerSource| as real;
      if 0.9 < minScore { minScore := 0.9; }
      if score < minScore { score := minScore; }
    }
  }

  lemma BonusIs(score: real, w: Word, q: Word)
    requires score > 0.0
    ensures WithBonus(score, w, q) == if q.phonetic <= w.phonetic then score + (1.0 - score) * score else score
  {
  }

  lemma NoBonus(score: real, w: Word, q: Word)
    ensures score <= 0.0 ==> WithBonus(score, w, q) == score
  {
  }

  lemma BaseIs(w: Word, q: Word)
    requires q.phonetic != []
    ensures var d := Measured(w.phonetic, q.phonetic);
            BaseScore(w, q) == 1.0 - d as real / (if d > |q.phonetic| then d else |q.phonetic|) as real
  {
  }

  // ----- The matching -----

  // othersToThis: for a word of the argument, the word matched with it and the score.
  type Relations = map<nat, (nat, real)>

  // The slot that word w of `t` would take among the first j, with its score.
  function Best(w: Word, s: Sentence, m: Relations, j: nat): (r: (real, nat))
    requires j <= |s.words|
  {
    if j == 0 then (0.0, 0)
    else
      var b := Best(w, s, m, j - 1);
      if s.words[j - 1].phonetic == [] then b
      else
        var score := WordScore(w, s.words[j - 1]);
        if score > b.0 && (j - 1 !in m || m[j - 1].1 < score) then (score, j - 1) else b
  }

  // The relation after the first i words of t have chosen.
  function Matching(t: Sentence, s: Sentence, i: nat): Relations
    requires i <= |t.words|
  {
    if i == 0 then map[]
    else
      var m := Matching(t, s, i - 1);
      if t.words[i - 1].phonetic == [] then m
      else
        var b := Best(t.words[i - 1], s, m, |s.words|);
        if b.0 > 0.0 then m[b.1 := (i - 1, b.0)] else m
  }

  function Total(m: Relations, j: nat): real
  {
    if j == 0 then 0.0 else Total(m, j - 1) + if j - 1 in m then m[j - 1].1 else 0.0
  }

  // The word matched last among the first j slots; n when there is none.
  function LastIndex(m: Relations, j: nat, n: nat): nat
  {
    if j == 0 then n else if j - 1 in m then m[j - 1].0 else LastIndex(m, j - 1, n)
  }

  function Penalties(m: Relations, j: nat, n: nat): nat
  {
    if j == 0 then 0
    else
      Penalties(m, j - 1, n) +
      if j - 1 in m && LastIndex(m, j - 1, n) != n && m[j - 1].0 < LastIndex(m, j - 1, n) then 1 else 0
  }

  function PhoneticScore(t: Sentence, s: Sentence): real
  {
    if NoPhonetics(s) then 0.0
    else
      var m := Matching(t, s, |t.words|);
      var average := Total(m, |s.words|) / |s.words| as real;
      var penalties := Penalties(m, |s.words|, |t.words|);
      if penalties > 0 then average / (1.0 + 0.25 * penalties as real) else average
  }

  predicate Comparable(t: Sentence, s: Sentence) {
    && (forall i, j | 0 <= i < |t.words| && 0 <= j < |s.words| :: ComparableWords(t.words[i], s.words[j]))
    && !Overruns(t.lowerSource, s.lowerSource)
  }

  method FindBest(w: Word, s: Sentence, othersToThis: Relations) returns (bestScore: real, bestIndex: nat)
    requires forall j | 0 <= j < |s.words| :: ComparableWords(w, s.words[j])
    ensures (bestScore, bestIndex) == Best(w, s, othersToThis, |s.words|)
  {
    hide WordScore;
    bestScore, bestIndex := 0.0, 0;
    var j := 0;
    while j < |s.words|
      invariant 0 <= j <= |s.words|
      invariant (bestScore, bestIndex) == Best(w, s, othersToThis, j)
    {
      if s.words[j].phonetic != [] {
        var score := ScoreWords(w, s.words[j]);
        if score > bestScore {
          if j !in othersToThis || othersToThis[j].1 < score {
            bestScore := score;
            bestIndex := j;
          }
        }
      }
      j := j + 1;
    }
  }

  method MatchWords(t: Sentence, s: Sentence) returns (othersToThis: Relations)
    requires Comparable(t, s)
    ensures othersToThis == Matching(t, s, |t.words|)
  {
    hide Best;
    othersToThis := map[];
    var i := 0;
    while i < |t.words|
      invariant 0 <= i <= |t.words|
      invariant othersToThis == Matching(t, s, i)
    {
      if t.words[i].phonetic != [] {
        var bestScore, bestIndex := FindBest(t.words[i], s, othersToThis);
        if bestScore > 0.0 {
          othersToThis := othersToThis[bestIndex := (i, bestScore)];
        }
      }
      i := i + 1;
    }
  }

  method Compare(t: Sentence, s: Sentence) returns (score: ComparisonScore)
    requires Comparable(t, s)
    ensures score.phoneticScore == PhoneticScore(t, s)
    ensures score.levenshtein == Measured(t.lowerSource, s.lowerSource)
  {
    hide Matching;
    var totalScores := 0.0;
    if !NoPhonetics(s) {
      var othersToThis := MatchWords(t, s);
      var j := 0;
      while j < |s.words|
        invariant 0 <= j <= |s.words|
        invariant totalScores == Total(othersToThis, j)
      {
        if j in othersToThis { totalScores := totalScores + othersToThis[j].1; }
        j := j + 1;
      }
      totalScores := totalScores / |s.words| as real;
      var lastIndex, penalties := |t.words|, 0;
      j := 0;
      while j < |s.words|
        invariant 0 <= j <= |s.words|
        invariant lastIndex == LastIndex(othersToThis, j, |t.words|)
        invariant penalties == Penalties(othersToThis, j, |t.words|)
      {
        if j in othersToThis {
          if lastIndex != |t.words| && othersToThis[j].0 < lastIndex { penalties := penalties + 1; }
          lastIndex := othersToThis[j].0;
        }
        j := j + 1;
      }
      if penalties > 0 { totalScores := totalScores / (1.0 + 0.25 * penalties as real); }
    }
    var d := Measure(t.lowerSource, s.lowerSource);
    score := ComparisonScore(d, totalScores);
  }

  // ----- What every run of the matching keeps -----

  // Word w may take slot l: it scores better there than the present holder.
  predicate Eligible(w: Word, s: Sentence, m: Relations, l: nat)
    requires l < |s.words|
  {
    s.words[l].phonetic != [] && (l !in m || m[l].1 < WordScore(w, s.words[l]))
  }

  lemma {:induction false} BestIsFirstMaximum(w: Word, s: Sentence, m: Relations, j: nat)
    requires j <= |s.words|
    ensures var b := Best(w, s, m, j);
            && 0.0 <= b.0 <= 1.0
            && (b.0 > 0.0 ==> b.1 < j && Eligible(w, s, m, b.1) && b.0 == WordScore(w, s.words[b.1]))
            && forall l | 0 <= l < j && Eligible(w, s, m, l) ::
                 WordScore(w, s.words[l]) <= b.0 && (WordScore(w, s.words[l]) == b.0 > 0.0 ==> b.1 <= l)
  {
    hide WordScore;
    if j > 0 {
      BestIsFirstMaximum(w, s, m, j - 1);
      if s.words[j - 1].phonetic != [] { ScoreBounds(w, s.words[j - 1]); }
    }
  }

  // Each slot holds the score of an earlier word, and no word holds two slots.
  predicate Consistent(t: Sentence, s: Sentence, m: Relations, i: nat)
    requires i <= |t.words|
  {
    && (forall j | j in m :: j < |s.words| && s.words[j].phonetic != [] && m[j].0 < i)
    && (forall j | j in m :: 0.0 < m[j].1 <= 1.0 && m[j].1 == WordScore(t.words[m[j].0], s.words[j]))
    && (forall j, l | j in m && l in m && j != l :: m[j].0 != m[l].0)
  }

  lemma NothingMatched(t: Sentence, s: Sentence)
    ensures Consistent(t, s, map[], 0)
  {
  }

  lemma OneMore(t: Sentence, s: Sentence, m: Relations, i: nat, b: (real, nat))
    requires i < |t.words| && Consistent(t, s, m, i)
    ensures Consistent(t, s, m, i + 1)
    ensures b.1 < |s.words| && s.words[b.1].phonetic != [] && 0.0 < b.0 <= 1.0 && b.0 == WordScore(t.words[i], s.words[b.1])
            ==> Consistent(t, s, m[b.1 := (i, b.0)], i + 1)
  {
    hide WordScore;
  }

  lemma {:induction false} MatchingConsistent(t: Sentence, s: Sentence, i: nat)
    requires i <= |t.words|
    ensures Consistent(t, s, Matching(t, s, i), i)
  {
    hide WordScore, Best, Consistent;
    if i == 0 {
      NothingMatched(t, s);
    } else {
      var w, m := t.words[i - 1], Matching(t, s, i - 1);
      MatchingConsistent(t, s, i - 1);
      BestIsFirstMaximum(w, s, m, |s.words|);
      OneMore(t, s, m, i - 1, Best(w, s, m, |s.words|));
    }
  }

  // A slot, once taken, only ever gets a better score.
  lemma {:induction false} ScoresNeverDrop(t: Sentence, s: Sentence, i: nat, k: nat, j: nat)
    requires i <= k <= |t.words| && j in Matching(t, s, i)
    ensures j in Matching(t, s, k) && Matching(t, s, i)[j].1 <= Matching(t, s, k)[j].1
    decreases k
  {
    hide WordScore, Best;
    if i < k {
      ScoresNeverDrop(t, s, i, k - 1, j);
      BestIsFirstMaximum(t.words[k - 1], s, Matching(t, s, k - 1), |s.words|);
    }
  }

  lemma {:induction false} TotalRange(t: Sentence, s: Sentence, m: Relations, i: nat, j: nat)
    requires i <= |t.words| && Consistent(t, s, m, i)
    ensures 0.0 <= Total(m, j) <= j as real
    ensures Total(m, j) == j as real <==> forall l | 0 <= l < j :: l in m && m[l].1 == 1.0
  {
    hide Consistent;
    if j > 0 {
      TotalRange(t, s, m, i, j - 1);
      if j - 1 in m { assert 0.0 < m[j - 1].1 <= 1.0 by { EntryRange(t, s, m, i, j - 1); } }
    }
  }

  lemma EntryRange(t: Sentence, s: Sentence, m: Relations, i: nat, j: nat)
    requires i <= |t.words| && Consistent(t, s, m, i) && j in m
    ensures 0.0 < m[j].1 <= 1.0
  {
  }

  lemma {:induction false} PenaltiesIff(m: Relations, j: nat, n: nat)
    requires forall l | 0 <= l < j :: l in m && m[l].0 < n
    ensures j > 0 ==> LastIndex(m, j, n) == m[j - 1].0
    ensures Penalties(m, j, n) == 0 <==> forall l | 1 <= l < j :: m[l - 1].0 <= m[l].0
  {
    if j > 0 { PenaltiesIff(m, j - 1, n); }
  }

  lemma ScoreQuotient(total: real, size: nat, penalties: nat)
    requires 0.0 <= total <= size as real && size > 0
    ensures var average := total / size as real;
            var score := if penalties > 0 then average / (1.0 + 0.25 * penalties as real) else average;
            0.0 <= score <= 1.0 && (score == 1.0 <==> total == size as real && penalties == 0)
  {
    var average := total / size as real;
    QuotientRange(total, size as real);
    assert average * size as real == total;
    if penalties > 0 {
      var d := 1.0 + 0.25 * penalties as real;
      assert d > 1.0;
      QuotientRange(average, d);
      assert average / d * d == average;
    }
  }

  // Every slot is full with score 1, and their words come in order.
  predicate Flawless(t: Sentence, s: Sentence, m: Relations) {
    && (forall j | 0 <= j < |s.words| :: j in m && m[j].1 == 1.0)
    && forall j | 1 <= j < |s.words| :: m[j - 1].0 <= m[j].0
  }

  lemma EntriesBelow(t: Sentence, s: Sentence, m: Relations)
    requires Consistent(t, s, m, |t.words|)
    ensures forall j | j in m :: m[j].0 < |t.words|
  {
  }

  lemma ScoreRange(t: Sentence, s: Sentence)
    ensures 0.0 <= PhoneticScore(t, s) <= 1.0
    ensures PhoneticScore(t, s) == 1.0 <==> !NoPhonetics(s) && Flawless(t, s, Matching(t, s, |t.words|))
  {
    hide Matching, Consistent, Total, Penalties;
    if !NoPhonetics(s) {
      var m := Matching(t, s, |t.words|);
      MatchingConsistent(t, s, |t.words|);
      TotalRange(t, s, m, |t.words|, |s.words|);
      ScoreQuotient(Total(m, |s.words|), |s.words|, Penalties(m, |s.words|, |t.words|));
      if forall j | 0 <= j < |s.words| :: j in m && m[j].1 == 1.0 {
        EntriesBelow(t, s, m);
        PenaltiesIff(m, |s.words|, |t.words|);
      }
    }
  }

  // ----- Which words a perfect matching pairs -----

  function Occurrences(words: seq<Word>, p: seq<Phoneme>, i: nat): nat
    requires i <= |words|
  {
    if i == 0 then 0 else Occurrences(words, p, i - 1) + if words[i - 1].phonetic == p then 1 else 0
  }

  lemma {:induction false} OccurrencesGrow(words: seq<Word>, p: seq<Phoneme>, i: nat, k: nat)
    requires i <= k <= |words|
    ensures Occurrences(words, p, i) <= Occurrences(words, p, k)
    ensures i < k && words[i].phonetic == p ==> Occurrences(words, p, i) < Occurrences(words, p, k)
    decreases k
  {
    if i < k { OccurrencesGrow(words, p, i, k - 1); }
  }

  lemma {:induction false} OccurrenceAt(words: seq<Word>, p: seq<Phoneme>, i: nat, r: nat) returns (k: nat)
    requires i <= |words| && r < Occurrences(words, p, i)
    ensures k < i && words[k].phonetic == p && Occurrences(words, p, k) == r
  {
    if r == Occurrences(words, p, i - 1) {
      k := i - 1;
    } else {
      k := OccurrenceAt(words, p, i - 1, r);
    }
  }

  // Word k of t sounds like word j of s, and as many such words come before it.
  predicate Serves(t: Sentence, s: Sentence, j: nat, k: nat) {
    && j < |s.words| && k < |t.words| && t.words[k].phonetic == s.words[j].phonetic
    && Occurrences(t.words, t.words[k].phonetic, k) == Occurrences(s.words, s.words[j].phonetic, j)
  }

  lemma ServesOnce(t: Sentence, s: Sentence, j: nat, k: nat, l: nat)
    requires Serves(t, s, j, k) && Serves(t, s, j, l)
    ensures k == l
  {
    var p := s.words[j].phonetic;
    if k < l { OccurrencesGrow(t.words, p, k, l); }
    if l < k { OccurrencesGrow(t.words, p, l, k); }
  }

  // A slot with fewer such words before it than word k is served by an earlier word.
  lemma ServerBefore(t: Sentence, s: Sentence, j: nat, k: nat) returns (earlier: nat)
    requires j < |s.words| && k < |t.words| && t.words[k].phonetic == s.words[j].phonetic
    requires Occurrences(s.words, s.words[j].phonetic, j) < Occurrences(t.words, s.words[j].phonetic, k)
    ensures earlier < k && Serves(t, s, j, earlier)
  {
    earlier := OccurrenceAt(t.words, s.words[j].phonetic, k, Occurrences(s.words, s.words[j].phonetic, j));
  }

  ghost predicate Served(t: Sentence, s: Sentence, j: nat) {
    exists k: nat :: Serves(t, s, j, k)
  }

  predicate Short(s: Sentence) {
    forall j | 0 <= j < |s.words| :: |s.words[j].phonetic| < 256
  }

  // The slots with score 1 are those that one of the first i words serves.
  ghost predicate PerfectSlots(t: Sentence, s: Sentence, m: Relations, i: nat) {
    && (forall j: nat, k: nat | k < i && Serves(t, s, j, k) :: j in m && m[j] == (k, 1.0))
    && (forall j | j in m && m[j].1 == 1.0 :: m[j].0 < i && Serves(t, s, j, m[j].0))
  }

  // A word that serves a slot chooses it.
  lemma ServerChooses(t: Sentence, s: Sentence, m: Relations, j: nat, k: nat)
    requires Valid(s) && Short(s) && Serves(t, s, j, k) && PerfectSlots(t, s, m, k)
    requires forall l | l in m :: m[l].1 <= 1.0
    ensures Best(t.words[k], s, m, |s.words|) == (1.0, j)
  {
    hide WordScore, Best;
    var w, p := t.words[k], s.words[j].phonetic;
    var b := Best(w, s, m, |s.words|);
    BestIsFirstMaximum(w, s, m, |s.words|);
    WordScoreRange(w, s.words[j]);
    if j in m && m[j].1 == 1.0 { ServesOnce(t, s, j, k, m[j].0); }
    assert Eligible(w, s, m, j);
    ScoreBounds(w, s.words[b.1]);
    if b.1 < j {
      OccurrencesGrow(s.words, p, b.1, j);
      var _ := ServerBefore(t, s, b.1, k);
    }
  }

  // A word that scores 1 in the slot it chooses serves it.
  lemma ChooserServes(t: Sentence, s: Sentence, m: Relations, k: nat)
    requires Valid(s) && Short(s) && k < |t.words| && PerfectSlots(t, s, m, k)
    requires forall l | l in m :: m[l].1 <= 1.0
    requires Best(t.words[k], s, m, |s.words|).0 == 1.0
    ensures Serves(t, s, Best(t.words[k], s, m, |s.words|).1, k)
  {
    hide WordScore, Best;
    var w := t.words[k];
    var j := Best(w, s, m, |s.words|).1;
    var p := w.phonetic;
    BestIsFirstMaximum(w, s, m, |s.words|);
    ScoreBounds(w, s.words[j]);
    var here, there := Occurrences(s.words, p, j), Occurrences(t.words, p, k);
    if here < there {
      var _ := ServerBefore(t, s, j, k);
    } else if there < here {
      var l := OccurrenceAt(s.words, p, j, there);
      ServerChooses(t, s, m, l, k);
    }
  }

  lemma {:induction false} MatchingPerfect(t: Sentence, s: Sentence, i: nat)
    requires Valid(s) && Valid(t) && Comparable(t, s) && Short(s) && i <= |t.words|
    ensures PerfectSlots(t, s, Matching(t, s, i), i)
  {
    hide WordScore, Best, Serves;
    if i > 0 {
      var k, m, m' := i - 1, Matching(t, s, i - 1), Matching(t, s, i);
      MatchingPerfect(t, s, k);
      MatchingConsistent(t, s, k);
      var b := Best(t.words[k], s, m, |s.words|);
      BestIsFirstMaximum(t.words[k], s, m, |s.words|);
      forall j: nat, l: nat | l < i && Serves(t, s, j, l) ensures j in m' && m'[j] == (l, 1.0) {
        if l == k { ServerChooses(t, s, m, j, k); }
      }
      if b.0 == 1.0 { ChooserServes(t, s, m, k); }
    }
  }

  // Every word of s is served, and in order.
  ghost predicate ServedInOrder(t: Sentence, s: Sentence) {
    && (forall j | 0 <= j < |s.words| :: Served(t, s, j))
    && forall j: nat, l: nat, k: nat, n: nat | j < l && Serves(t, s, j, k) && Serves(t, s, l, n) :: k < n
  }

  // A score of 1, exactly: each word of the argument fits the matrix and meets its
  // counterpart, in order.
  lemma PerfectIff(t: Sentence, s: Sentence)
    requires Valid(t) && Valid(s) && Comparable(t, s) && s.words != []
    ensures PhoneticScore(t, s) == 1.0 <==> Short(s) && ServedInOrder(t, s)
  {
    hide Matching, PhoneticScore, Serves, ComparableWords;
    var m := Matching(t, s, |t.words|);
    ScoreRange(t, s);
    MatchingConsistent(t, s, |t.words|);
    if Flawless(t, s, m) {
      forall j | 0 <= j < |s.words| ensures |s.words[j].phonetic| < 256 { PerfectEntry(t, s, m, j); }
      MatchingPerfect(t, s, |t.words|);
      FlawlessServes(t, s, m);
    }
    if Short(s) && ServedInOrder(t, s) {
      MatchingPerfect(t, s, |t.words|);
      forall j | 0 <= j < |s.words| ensures j in m && m[j].1 == 1.0 {
        assert Served(t, s, j);
        var k: nat :| Serves(t, s, j, k);
        ServedRange(t, s, j, k);
      }
    }
  }

  lemma ServedRange(t: Sentence, s: Sentence, j: nat, k: nat)
    requires Serves(t, s, j, k)
    ensures j < |s.words| && k < |t.words|
  {
  }

  lemma FlawlessServes(t: Sentence, s: Sentence, m: Relations)
    requires Flawless(t, s, m) && PerfectSlots(t, s, m, |t.words|) && Consistent(t, s, m, |t.words|)
    ensures ServedInOrder(t, s)
  {
    hide Serves, WordScore;
    forall j | 0 <= j < |s.words| ensures Served(t, s, j) { assert Serves(t, s, j, m[j].0); }
    forall j: nat, l: nat, k: nat, n: nat | j < l && Serves(t, s, j, k) && Serves(t, s, l, n) ensures k < n {
      ServedRange(t, s, j, k);
      ServedRange(t, s, l, n);
      Increasing(t, s, m, j, l);
    }
  }

  lemma {:induction false} Increasing(t: Sentence, s: Sentence, m: Relations, j: nat, l: nat)
    requires Flawless(t, s, m) && j < l < |s.words| && Consistent(t, s, m, |t.words|)
    ensures m[j].0 < m[l].0
    decreases l
  {
    hide WordScore;
    if j < l - 1 { Increasing(t, s, m, j, l - 1); }
    assert m[l - 1].0 != m[l].0;
  }

  lemma PerfectEntry(t: Sentence, s: Sentence, m: Relations, j: nat)
    requires Flawless(t, s, m) && j < |s.words| && Consistent(t, s, m, |t.words|)
    ensures j in m && m[j].0 < |t.words| && t.words[m[j].0].phonetic == s.words[j].phonetic
    ensures |s.words[j].phonetic| <= 256 && (Comparable(t, s) ==> |s.words[j].phonetic| < 256)
  {
    hide WordScore;
    ScoreBounds(t.words[m[j].0], s.words[j]);
    if Comparable(t, s) { WordScoreRange(t.words[m[j].0], s.words[j]); }
  }

  // A perfect score means that the argument's words occur, in order, among these.
  lemma PerfectIsSubsequence(t: Sentence, s: Sentence) returns (f: seq<nat>)
    requires !NoPhonetics(s) && PhoneticScore(t, s) == 1.0
    ensures |f| == |s.words|
    ensures forall j | 0 <= j < |f| :: f[j] < |t.words| && t.words[f[j]].phonetic == s.words[j].phonetic
    ensures forall j, l | 0 <= j < l < |f| :: f[j] < f[l]
  {
    hide Matching, PhoneticScore, Consistent;
    var m := Matching(t, s, |t.words|);
    ScoreRange(t, s);
    MatchingConsistent(t, s, |t.words|);
    f := seq(|s.words|, j requires 0 <= j < |s.words| => m[j].0);
    forall j | 0 <= j < |f| ensures f[j] < |t.words| && t.words[f[j]].phonetic == s.words[j].phonetic {
      PerfectEntry(t, s, m, j);
    }
    forall j, l | 0 <= j < l < |f| ensures f[j] < f[l] { Increasing(t, s, m, j, l); }
  }

  // ----- A sentence compared with itself -----

  // The comparison stays in the matrix exactly when nothing counts 256 symbols.
  lemma ComparableSelfIff(s: Sentence)
    requires Valid(s)
    ensures Comparable(s, s) <==>
            |s.lowerSource| != 256 && forall j | 0 <= j < |s.words| :: |s.words[j].phonetic| != 256
  {
    forall j | 0 <= j < |s.words| && |s.words[j].phonetic| == 256 ensures !Comparable(s, s) {
      assert !ComparableWords(s.words[j], s.words[j]);
    }
  }

  lemma SelfServed(s: Sentence)
    ensures ServedInOrder(s, s)
  {
    hide Serves;
    forall j: nat | j < |s.words| ensures Served(s, s, j) && Serves(s, s, j, j) { ServesItself(s, j); }
    forall j: nat, l: nat, k: nat, n: nat | j < l && Serves(s, s, j, k) && Serves(s, s, l, n) ensures k < n {
      ServedRange(s, s, j, k);
      ServedRange(s, s, l, n);
      ServesOnce(s, s, j, j, k);
      ServesOnce(s, s, l, l, n);
    }
  }

  lemma ServesItself(s: Sentence, j: nat)
    requires j < |s.words|
    ensures Serves(s, s, j, j)
  {
  }

  // A sentence matches itself, without leaving the matrix, exactly when its words have at
  // most 255 phonemes and its spelling has not 256 characters. A word of 256 phonemes
  // leaves the matrix; with a longer one, and none of 256, the score is below 1.
  lemma SelfScoreIff(s: Sentence)
    requires Valid(s) && s.words != []
    ensures Comparable(s, s) && PhoneticScore(s, s) == 1.0 <==> Short(s) && |s.lowerSource| != 256
    ensures (exists j :: 0 <= j < |s.words| && |s.words[j].phonetic| == 256) ==> !Comparable(s, s)
    ensures Comparable(s, s) && !Short(s) ==> PhoneticScore(s, s) < 1.0
  {
    hide PhoneticScore, Comparable, ServedInOrder;
    ComparableSelfIff(s);
    if Comparable(s, s) {
      SelfServed(s);
      PerfectIff(s, s);
      ScoreRange(s, s);
    }
  }

  function OneWord(n: nat): Sentence {
    Sentence("", [Word(seq(n, i => A), "")])
  }

  // One word of 256 phonemes leaves the matrix, one of 257 does not match itself.
  lemma LongWords()
    ensures Valid(OneWord(256)) && !Comparable(OneWord(256), OneWord(256))
    ensures Valid(OneWord(257)) && Comparable(OneWord(257), OneWord(257))
    ensures PhoneticScore(OneWord(257), OneWord(257)) < 1.0
  {
    hide PhoneticScore, Comparable;
    var s, l := OneWord(256), OneWord(257);
    assert |s.words| == |l.words| == 1 && |s.words[0].phonetic| == 256 && |l.words[0].phonetic| == 257;
    SelfScoreIff(s);
    SelfScoreIff(l);
    ComparableSelfIff(l);
    assert !Short(l);
  }

  // ----- startsWith -----

  function Phonemes(words: seq<Word>): seq<Phoneme>
  {
    if words == [] then [] else Phonemes(words[..|words| - 1]) + words[|words| - 1].phonetic
  }

  method Size(s: Sentence) returns (size: nat)
    ensures size == |Phonemes(s.words)|
  {
    size := 0;
    var i := 0;
    while i < |s.words|
      invariant 0 <= i <= |s.words|
      invariant size == |Phonemes(s.words[..i])|
    {
      assert s.words[..i + 1][..i] == s.words[..i];
      size := size + |s.words[i].phonetic|;
      i := i + 1;
    }
    assert s.words[..i] == s.words;
  }

  lemma {:induction false} PhonemesPrefix(words: seq<Word>, i: nat)
    requires i <= |words|
    ensures Phonemes(words[..i]) <= Phonemes(words)
    ensures i < |words| ==> Phonemes(words[..i + 1]) == Phonemes(words[..i]) + words[i].phonetic
    ensures i < |words| ==> Phonemes(words[..i + 1]) <= Phonemes(words)
    decreases |words| - i
  {
    if i == |words| {
      assert words[..i] == words;
    } else {
      PhonemesPrefix(words, i + 1);
      assert words[..i + 1][..i] == words[..i];
    }
  }

  // A cursor: a word, and a position inside it unless the words are exhausted.
  predicate CursorOk(words: seq<Word>, i: nat, pos: nat) {
    i <= |words| && if i < |words| then pos < |words[i].phonetic| else pos == 0
  }

  // How many phonemes lie before the cursor.
  function Offset(words: seq<Word>, i: nat, pos: nat): nat
    requires i <= |words|
  {
    |Phonemes(words[..i])| + pos
  }

  lemma CursorAt(words: seq<Word>, i: nat, pos: nat)
    requires CursorOk(words, i, pos)
    ensures Offset(words, i, pos) <= |Phonemes(words)|
    ensures i < |words| ==>
              Offset(words, i, pos) < |Phonemes(words)| && Phonemes(words)[Offset(words, i, pos)] == words[i].phonetic[pos]
    ensures i == |words| ==> Offset(words, i, pos) == |Phonemes(words)|
  {
    PhonemesPrefix(words, i);
    if i == |words| { assert words[..i] == words; }
  }

  // One step of a cursor: the next position, or the next word.
  method Advance(words: seq<Word>, i: nat, pos: nat) returns (i': nat, pos': nat)
    requires CursorOk(words, i, pos) && i < |words|
    requires forall k | 0 <= k < |words| :: words[k].phonetic != []
    ensures CursorOk(words, i', pos') && Offset(words, i', pos') == Offset(words, i, pos) + 1
  {
    PhonemesPrefix(words, i);
    i', pos' := i, pos + 1;
    if pos' >= |words[i'].phonetic| {
      pos' := 0;
      i' := i' + 1;
    }
  }

  method StartsWith(t: Sentence, s: Sentence) returns (r: bool)
    requires Valid(t) && Valid(s)
    ensures r <==> Phonemes(s.words) <= Phonemes(t.words)
  {
    hide Phonemes;
    var sSize := Size(s);
    var tSize := Size(t);
    if sSize > tSize { return false; }
    ghost var all, start := Phonemes(t.words), Phonemes(s.words);
    var iword: nat, jword: nat, ipos: nat, jpos: nat := 0, 0, 0, 0;
    NothingBefore(t.words);
    NothingBefore(s.words);
    while iword < |t.words| && jword < |s.words| && ipos < |t.words[iword].phonetic| && jpos < |s.words[jword].phonetic|
      invariant CursorOk(t.words, iword, ipos) && CursorOk(s.words, jword, jpos)
      invariant Offset(t.words, iword, ipos) == Offset(s.words, jword, jpos) <= |start| <= |all|
      invariant forall k | 0 <= k < Offset(s.words, jword, jpos) :: all[k] == start[k]
      decreases |start| - Offset(s.words, jword, jpos)
    {
      CursorAt(t.words, iword, ipos);
      CursorAt(s.words, jword, jpos);
      if t.words[iword].phonetic[ipos] != s.words[jword].phonetic[jpos] { return false; }
      iword, ipos := Advance(t.words, iword, ipos);
      jword, jpos := Advance(s.words, jword, jpos);
      CursorAt(s.words, jword, jpos);
    }
    CursorAt(t.words, iword, ipos);
    CursorAt(s.words, jword, jpos);
    r := true;
  }

  lemma NothingBefore(words: seq<Word>)
    ensures Offset(words, 0, 0) == 0
  {
  }
}
