/** The Needleman-Wunsch recurrence over a (|a|+1) x (|b|+1) table, the
    reference against which the filled table is stated. */
module NeedlemanWunsch {
  import opened Costs

  function Min(x: int, y: int): int {
    if x <= y then x else y
  }

  function Abs(x: int): int {
    if x < 0 then -x else x
  }

  /** The least total cost of aligning the first `i` letters of `a` with the
      first `j` letters of `b`. */
  function Score(a: string, b: string, i: nat, j: nat): int
    requires i <= |a| && j <= |b|
    decreases i + j
  {
    if i == 0 then j * INDEL
    else if j == 0 then i * INDEL
    else Min3(Score(a, b, i, j - 1) + INDEL,
              Score(a, b, i - 1, j) + INDEL,
              Score(a, b, i - 1, j - 1) + MatchSubPenalty(a[i - 1] == b[j - 1]))
  }

  /** One step of the recurrence at an interior cell. */
  lemma ScoreStep(a: string, b: string, i: nat, j: nat)
    requires 1 <= i <= |a| && 1 <= j <= |b|
    ensures Score(a, b, i, j) == Min3(Score(a, b, i, j - 1) + INDEL,
                                      Score(a, b, i - 1, j) + INDEL,
                                      Score(a, b, i - 1, j - 1) + MatchSubPenalty(a[i - 1] == b[j - 1]))
  {
  }

  /** Every alignment pays at least one indel per letter of length difference,
      and no step is cheaper than a match. */
  lemma {:induction false} ScoreLowerBound(a: string, b: string, i: nat, j: nat)
    requires i <= |a| && j <= |b|
    ensures Score(a, b, i, j) >= Min(i, j) * MATCH + Abs(i - j) * INDEL
    decreases i + j
  {
    if i > 0 && j > 0 {
      ScoreLowerBound(a, b, i, j - 1);
      ScoreLowerBound(a, b, i - 1, j);
      ScoreLowerBound(a, b, i - 1, j - 1);
    }
  }

  /** The all-gaps path is always available. */
  lemma {:induction false} ScoreUpperBound(a: string, b: string, i: nat, j: nat)
    requires i <= |a| && j <= |b|
    ensures Score(a, b, i, j) <= (i + j) * INDEL
    decreases i + j
  {
    if i > 0 && j > 0 {
      ScoreUpperBound(a, b, i, j - 1);
    }
  }

  /** Aligning a prefix with itself costs one MATCH per letter. */
  lemma {:induction false} ScoreIdentity(a: string, i: nat)
    requires i <= |a|
    ensures Score(a, a, i, i) == i * MATCH
  {
    if i > 0 {
      ScoreIdentity(a, i - 1);
      ScoreLowerBound(a, a, i, i);
    }
  }

  /** Swapping the two sequences does not change the score. */
  lemma {:induction false} ScoreSymmetric(a: string, b: string, i: nat, j: nat)
    requires i <= |a| && j <= |b|
    ensures Score(a, b, i, j) == Score(b, a, j, i)
    decreases i + j
  {
    if i > 0 && j > 0 {
      ScoreSymmetric(a, b, i, j - 1);
      ScoreSymmetric(a, b, i - 1, j);
      ScoreSymmetric(a, b, i - 1, j - 1);
    }
  }

  /** A table sized |s| x |s| and compared at s[i], s[j] (as the full-mode fill
      does) scores s against itself as the recurrence scores s[1..]: the first
      letters are never compared and one MATCH is lost. */
  lemma AsWrittenLosesFirstMatch(s: string)
    requires |s| >= 1
    ensures Score(s[1..], s[1..], |s| - 1, |s| - 1) == (|s| - 1) * MATCH
    ensures Score(s[1..], s[1..], |s| - 1, |s| - 1) == Score(s, s, |s|, |s|) - MATCH
  {
    ScoreIdentity(s[1..], |s| - 1);
    ScoreIdentity(s, |s|);
  }
}
