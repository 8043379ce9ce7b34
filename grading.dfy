/** The grade calculator: the average with one lowest grade dropped, and the letter for an average. */
module Grading {

  /** Sum of a grade list. */
  function Sum(s: seq<int>): int
  {
    if |s| == 0 then 0 else Sum(s[..|s| - 1]) + s[|s| - 1]
  }

  /** Smallest grade of a non-empty list. */
  function Min(s: seq<int>): (m: int)
    requires |s| > 0
    ensures m in s
    ensures forall i :: 0 <= i < |s| ==> m <= s[i]
  {
    if |s| == 1 then s[0]
    else
      var m' := Min(s[..|s| - 1]);
      assert forall i :: 0 <= i < |s| - 1 ==> s[..|s| - 1][i] == s[i];
      if s[|s| - 1] < m' then s[|s| - 1] else m'
  }

  /** Largest grade of a non-empty list. */
  function Max(s: seq<int>): (m: int)
    requires |s| > 0
    ensures m in s
    ensures forall i :: 0 <= i < |s| ==> s[i] <= m
  {
    if |s| == 1 then s[0]
    else
      var m' := Max(s[..|s| - 1]);
      assert forall i :: 0 <= i < |s| - 1 ==> s[..|s| - 1][i] == s[i];
      if s[|s| - 1] > m' then s[|s| - 1] else m'
  }

  /** The list with one occurrence of x taken out (the last one, when x occurs). */
  function RemoveOne(s: seq<int>, x: int): seq<int>
  {
    if |s| == 0 then []
    else if s[|s| - 1] == x then s[..|s| - 1]
    else RemoveOne(s[..|s| - 1], x) + [s[|s| - 1]]
  }

  /** Arithmetic mean of a non-empty list, exactly. */
  function Mean(s: seq<int>): real
    requires |s| > 0
  {
    Sum(s) as real / |s| as real
  }

  /**
   * What the grade book reports as a student's average: 0 for no grades, the
   * grade itself for one grade, and otherwise the sum less the lowest grade,
   * divided by one less than the number of grades.
   */
  function AverageDroppingLowest(g: seq<int>): real
  {
    if |g| == 0 then 0.0
    else if |g| == 1 then g[0] as real
    else (Sum(g) - Min(g)) as real / (|g| - 1) as real
  }

  /** The averaging loop: one pass keeping the running sum and the lowest grade seen. */
  method CalculateAverage(g: seq<int>) returns (avg: real)
    ensures |g| == 0 ==> avg == 0.0
    ensures |g| == 1 ==> avg == g[0] as real
    ensures avg == AverageDroppingLowest(g)
  {
    if |g| <= 1 {
      avg := if |g| == 0 then 0.0 else g[0] as real;
      return;
    }
    var sum := 0;
    var lowest := g[0];
    ghost var at := 0;
    for k := 0 to |g|
      invariant sum == Sum(g[..k])
      invariant 0 <= at < |g| && lowest == g[at]
      invariant at <= k && (k > 0 ==> at < k)
      invariant forall j :: 0 <= j < k ==> lowest <= g[j]
    {
      assert g[..k + 1][..k] == g[..k];
      sum := sum + g[k];
      if g[k] < lowest {
        lowest := g[k];
        at := k;
      }
    }
    assert g[..|g|] == g;
    avg := (sum - lowest) as real / (|g| - 1) as real;
  }

  lemma {:induction false} RemoveOneFacts(s: seq<int>, x: int)
    requires x in s
    ensures |RemoveOne(s, x)| == |s| - 1
    ensures Sum(RemoveOne(s, x)) == Sum(s) - x
    ensures multiset(RemoveOne(s, x)) + multiset{x} == multiset(s)
  {
    var n := |s|;
    var init := s[..n - 1];
    assert s == init + [s[n - 1]];
    if s[n - 1] != x {
      assert x in init;
      RemoveOneFacts(init, x);
      var r := RemoveOne(init, x);
      assert (r + [s[n - 1]])[..|r|] == r;
    }
  }

  lemma InRemoveOne(s: seq<int>, x: int, y: int)
    requires x in s && y in RemoveOne(s, x)
    ensures y in s
  {
  }

  lemma {:induction false} SumBounds(s: seq<int>, lo: int, hi: int)
    requires forall i :: 0 <= i < |s| ==> lo <= s[i] <= hi
    ensures |s| * lo <= Sum(s) <= |s| * hi
  {
    if |s| > 0 {
      var n := |s| - 1;
      SumBounds(s[..n], lo, hi);
      assert |s| * lo == n * lo + lo && |s| * hi == n * hi + hi;
    }
  }

  lemma QuotientBounds(a: int, n: int, lo: int, hi: int)
    requires n > 0 && n * lo <= a <= n * hi
    ensures lo as real <= a as real / n as real <= hi as real
  {
  }

  /**
   * With two or more grades the reported average is the mean of the list
   * after exactly one occurrence of its minimum is removed: a tied minimum
   * keeps its other occurrences, and no other grade is dropped.
   */
  lemma DropsExactlyOneLowest(g: seq<int>)
    requires |g| >= 2
    ensures |RemoveOne(g, Min(g))| == |g| - 1
    ensures multiset(RemoveOne(g, Min(g))) + multiset{Min(g)} == multiset(g)
    ensures multiset(RemoveOne(g, Min(g)))[Min(g)] == multiset(g)[Min(g)] - 1
    ensures AverageDroppingLowest(g) == Mean(RemoveOne(g, Min(g)))
  {
    RemoveOneFacts(g, Min(g));
  }

  /** With two or more grades the average lies between the lowest and the highest grade. */
  lemma AverageWithinRange(g: seq<int>)
    requires |g| >= 2
    ensures Min(g) as real <= AverageDroppingLowest(g) <= Max(g) as real
  {
    var lo, hi := Min(g), Max(g);
    var rest := RemoveOne(g, lo);
    DropsExactlyOneLowest(g);
    forall i | 0 <= i < |rest| ensures lo <= rest[i] <= hi {
      InRemoveOne(g, lo, rest[i]);
    }
    SumBounds(rest, lo, hi);
    QuotientBounds(Sum(rest), |rest|, lo, hi);
    assert AverageDroppingLowest(g) == Mean(rest);
  }

  /** Grades in [0,100] give an average in [0,100], for any number of grades. */
  lemma AverageOfValidGradesIsValid(g: seq<int>)
    requires forall i :: 0 <= i < |g| ==> 0 <= g[i] <= 100
    ensures 0.0 <= AverageDroppingLowest(g) <= 100.0
  {
    if |g| >= 2 {
      AverageWithinRange(g);
    }
  }

  /** Lowest average that earns a letter other than F. */
  function Cutoff(c: char): real
  {
    match c
    case 'A' => 90.0
    case 'B' => 80.0
    case 'C' => 70.0
    case 'D' => 60.0
    case _ => 0.0
  }

  /** The next better letter. */
  function Better(c: char): char
  {
    match c
    case 'F' => 'D'
    case 'D' => 'C'
    case 'C' => 'B'
    case _ => 'A'
  }

  /** Grade points of a letter: A is 4, F is 0. */
  function Points(c: char): nat
  {
    match c
    case 'A' => 4
    case 'B' => 3
    case 'C' => 2
    case 'D' => 1
    case _ => 0
  }

  /**
   * Letter for an average. The result is the best letter whose inclusive
   * lower cutoff the average reaches: the average is at least the cutoff of
   * the letter given and below the cutoff of the next better one.
   */
  function LetterGrade(avg: real): (c: char)
    ensures c in {'A', 'B', 'C', 'D', 'F'}
    ensures c != 'F' ==> avg >= Cutoff(c)
    ensures c != 'A' ==> avg < Cutoff(Better(c))
  {
    if avg >= 90.0 then 'A'
    else if avg >= 80.0 then 'B'
    else if avg >= 70.0 then 'C'
    else if avg >= 60.0 then 'D'
    else 'F'
  }

  /** A higher average never earns a worse letter. */
  lemma LetterGradeMonotone(a: real, b: real)
    requires a <= b
    ensures Points(LetterGrade(a)) <= Points(LetterGrade(b))
  {
  }

  /** Each cutoff belongs to the higher letter; just below it gives the lower one. */
  lemma LetterGradeBoundaries()
    ensures LetterGrade(90.0) == 'A' && LetterGrade(89.99) == 'B'
    ensures LetterGrade(80.0) == 'B' && LetterGrade(79.99) == 'C'
    ensures LetterGrade(70.0) == 'C' && LetterGrade(69.99) == 'D'
    ensures LetterGrade(60.0) == 'D' && LetterGrade(59.99) == 'F'
  {
  }

  /** Worked cases: [70, 80, 90] drops the 70 and averages 85, a B; [100] is an A; no grades is an F. */
  lemma WorkedCases()
    ensures AverageDroppingLowest([70, 80, 90]) == 85.0
    ensures LetterGrade(AverageDroppingLowest([70, 80, 90])) == 'B'
    ensures AverageDroppingLowest([100]) == 100.0 && LetterGrade(100.0) == 'A'
    ensures AverageDroppingLowest([]) == 0.0 && LetterGrade(0.0) == 'F'
  {
    var g := [70, 80, 90];
    assert g[..2] == [70, 80] && g[..2][..1] == [70];
    assert Sum([70]) == 70;
    assert Sum([70, 80]) == 150;
    assert Sum(g) == 240;
    assert Min(g) == 70;
  }
}
