/**
 * The grade aggregation: from the courses a student selected and graded to
 * the statistics record the program prints. Although the function keeps its
 * historical name `calculate_weighted_harmonic_mean`, it computes the
 * credit-weighted ARITHMETIC mean sum(grade * credits) / sum(credits) over
 * the courses that have a grade and positive credits, rounded to two
 * decimals. Also here: the translation of the user's multi-select answer
 * (a list of indices) into the selected courses.
 */
module GradeCalculator {
  import opened Wrappers
  import opened Seqs
  import opened Models

  /** The result dictionary: final_grade, total_credits, passing_courses, failing_courses, total_courses. */
  datatype Stats = Stats(
    finalGrade: real,
    totalCredits: real,
    passingCourses: nat,
    failingCourses: nat,
    totalCourses: nat)

  /** The record returned when no course can be averaged. */
  const ZeroStats: Stats := Stats(0.0, 0.0, 0, 0, 0)

  /** A course takes part in the average when it has a grade and positive credits. */
  predicate IsValid(c: Course)
  {
    HasGrade(c) && c.credits > 0.0
  }

  /** The courses that take part in the average, in input order. */
  function ValidCourses(courses: seq<Course>): (valid: seq<Course>)
    ensures |valid| <= |courses|
    ensures forall c :: c in valid <==> c in courses && IsValid(c)
  {
    Filter(courses, IsValid)
  }

  function Credits(c: Course): real
  {
    c.credits
  }

  /** grade * credits, the course's contribution to the weighted sum. */
  function GradePoints(c: Course): real
  {
    match c.grade
    case Some(g) => g * c.credits
    case None => 0.0
  }

  /** `sum(c.credits for c in valid_courses)`: zero for no course, positive for courses of positive credits. */
  function TotalCredits(valid: seq<Course>): (t: real)
    ensures valid == [] ==> t == 0.0
    ensures valid != [] && (forall k :: 0 <= k < |valid| ==> valid[k].credits > 0.0) ==> t > 0.0
  {
    assert valid != [] && (forall k :: 0 <= k < |valid| ==> Credits(valid[k]) > 0.0) ==> Sum(valid, Credits) > 0.0 by {
      if valid != [] && (forall k :: 0 <= k < |valid| ==> Credits(valid[k]) > 0.0) {
        SumPositive(valid, Credits);
      }
    }
    Sum(valid, Credits)
  }

  /** `sum(c.grade * c.credits for c in valid_courses)`: not negative when no grade and no credit is. */
  function WeightedGradeSum(valid: seq<Course>): (s: real)
    ensures valid == [] ==> s == 0.0
    ensures (forall k :: 0 <= k < |valid| ==> valid[k].credits >= 0.0 && (valid[k].grade.Some? ==> valid[k].grade.value >= 0.0))
      ==> s >= 0.0
  {
    assert (forall k :: 0 <= k < |valid| ==> valid[k].credits >= 0.0 && (valid[k].grade.Some? ==> valid[k].grade.value >= 0.0))
      ==> Sum(valid, GradePoints) >= 0.0 by {
      if forall k :: 0 <= k < |valid| ==> valid[k].credits >= 0.0 && (valid[k].grade.Some? ==> valid[k].grade.value >= 0.0) {
        forall k | 0 <= k < |valid| ensures GradePoints(valid[k]) >= 0.0 {
          if valid[k].grade.Some? {
            assert valid[k].grade.value * valid[k].credits >= 0.0;
          }
        }
        SumNonNegative(valid, GradePoints);
      }
    }
    Sum(valid, GradePoints)
  }

  /**
   * The unrounded weighted mean, with the program's guard against a zero
   * credit total: the number that, weighted by the credit total, gives the
   * weighted grade sum.
   */
  function WeightedMean(valid: seq<Course>): (m: real)
    ensures TotalCredits(valid) == 0.0 ==> m == 0.0
    ensures TotalCredits(valid) != 0.0 ==> m * TotalCredits(valid) == WeightedGradeSum(valid)
  {
    if TotalCredits(valid) == 0.0 then 0.0 else WeightedGradeSum(valid) / TotalCredits(valid)
  }

  /**
   * `round(x, 2)` on exact reals: the multiple of 0.01 nearest to `x`, and
   * of two equally near ones the one with an even number of hundredths.
   */
  function Round2(x: real): (r: real)
    ensures (r * 100.0).Floor as real == r * 100.0
    ensures -0.005 <= r - x <= 0.005
    ensures (r - x == 0.005 || x - r == 0.005) ==> (r * 100.0).Floor % 2 == 0
  {
    var y := x * 100.0;
    var f := y.Floor;
    var d := y - f as real;
    var n := if d < 0.5 then f else if d > 0.5 then f + 1 else if f % 2 == 0 then f else f + 1;
    assert (n as real / 100.0) * 100.0 == n as real;
    n as real / 100.0
  }

  /** Rounding keeps a value on the 0 to 10 scale on that scale. */
  lemma Round2InRange(x: real)
    requires 0.0 <= x <= 10.0
    ensures 0.0 <= Round2(x) <= 10.0
  {
    var n := (Round2(x) * 100.0).Floor;
    assert -0.5 <= n as real - x * 100.0 <= 0.5;
  }

  /** Among graded courses, every one is counted as passing or as failing, and none as both. */
  lemma {:induction false} PassFailCount(valid: seq<Course>)
    requires forall k :: 0 <= k < |valid| ==> HasGrade(valid[k])
    ensures |Filter(valid, IsPassing)| + |Filter(valid, IsFailing)| == |valid|
  {
    if valid != [] {
      GradePartition(valid[0]);
      PassFailCount(valid[1..]);
    }
  }

  /**
   * `calculate_weighted_harmonic_mean`, which computes the weighted
   * arithmetic mean. The record counts the valid courses, splits them into
   * passing and failing ones, sums their credits (a positive total whenever
   * there is a valid course, so the division is always defined) and rounds
   * their weighted mean; with no valid course it is the all-zero record.
   */
  function CalculateWeightedHarmonicMean(courses: seq<Course>): (r: Stats)
    ensures r.totalCourses == |ValidCourses(courses)|
    ensures r.passingCourses == |Filter(ValidCourses(courses), IsPassing)|
    ensures r.failingCourses == |Filter(ValidCourses(courses), IsFailing)|
    ensures r.passingCourses + r.failingCourses == r.totalCourses
    ensures r.totalCredits == TotalCredits(ValidCourses(courses))
    ensures r.totalCourses > 0 ==> r.totalCredits > 0.0
    ensures r.finalGrade == Round2(WeightedMean(ValidCourses(courses)))
    ensures r.totalCourses == 0 <==> r == ZeroStats
  {
    if courses == [] then ZeroStats
    else
      var valid := ValidCourses(courses);
      if valid == [] then ZeroStats
      else
        var passing := Filter(valid, IsPassing);
        var failing := Filter(valid, IsFailing);
        var totalCredits := TotalCredits(valid);
        PassFailCount(valid);
        SumPositive(valid, Credits);
        Stats(Round2(WeightedMean(valid)), totalCredits, |passing|, |failing|, |valid|)
  }

  /** Two inputs with the same valid courses in the same order give the same record. */
  lemma SameValidSameStats(a: seq<Course>, b: seq<Course>)
    requires ValidCourses(a) == ValidCourses(b)
    ensures CalculateWeightedHarmonicMean(a) == CalculateWeightedHarmonicMean(b)
  {
  }

  /**
   * With no course that has both a grade and positive credits (an empty
   * list, only ungraded courses, or only courses with credits <= 0) the
   * result is the all-zero record.
   */
  lemma NoValidCourseGivesZero(courses: seq<Course>)
    requires forall k :: 0 <= k < |courses| ==> !HasGrade(courses[k]) || courses[k].credits <= 0.0
    ensures CalculateWeightedHarmonicMean(courses) == ZeroStats
  {
    var valid := ValidCourses(courses);
    if valid != [] {
      assert valid[0] in courses;
    }
  }

  /** A course without a grade or without positive credits has no effect on any field of the result. */
  lemma ExcludedCourseIgnored(xs: seq<Course>, c: Course, ys: seq<Course>)
    requires !HasGrade(c) || c.credits <= 0.0
    ensures CalculateWeightedHarmonicMean(xs + [c] + ys) == CalculateWeightedHarmonicMean(xs + ys)
  {
    FilterSkipsRejected(xs, c, ys, IsValid);
    SameValidSameStats(xs + [c] + ys, xs + ys);
  }

  /** Reordering the input leaves every field of the result unchanged. */
  lemma PermutationInvariant(a: seq<Course>, b: seq<Course>)
    requires multiset(a) == multiset(b)
    ensures CalculateWeightedHarmonicMean(a) == CalculateWeightedHarmonicMean(b)
  {
    var va, vb := ValidCourses(a), ValidCourses(b);
    FilterPermutation(a, b, IsValid);
    FilterPermutation(va, vb, IsPassing);
    FilterPermutation(va, vb, IsFailing);
    SumPermutation(va, vb, Credits);
    SumPermutation(va, vb, GradePoints);
    assert |va| == |multiset(va)| == |multiset(vb)| == |vb|;
    assert |Filter(va, IsPassing)| == |multiset(Filter(va, IsPassing))| == |Filter(vb, IsPassing)|;
    assert |Filter(va, IsFailing)| == |multiset(Filter(va, IsFailing))| == |Filter(vb, IsFailing)|;
  }

  /** Bounds on every grade bound the weighted sum by the same multiples of the credit total. */
  lemma {:induction false} WeightedSumBounds(valid: seq<Course>, lo: real, hi: real)
    requires forall k :: 0 <= k < |valid| ==> IsValid(valid[k]) && lo <= valid[k].grade.value <= hi
    ensures lo * TotalCredits(valid) <= WeightedGradeSum(valid) <= hi * TotalCredits(valid)
  {
    if valid != [] {
      var c := valid[0];
      var g, w := c.grade.value, c.credits;
      WeightedSumBounds(valid[1..], lo, hi);
      assert IsValid(c) && lo <= g <= hi;
      assert w > 0.0 && g - lo >= 0.0 && hi - g >= 0.0;
      assert (g - lo) * w >= 0.0 && (hi - g) * w >= 0.0;
      assert GradePoints(c) == g * w;
      assert lo * TotalCredits(valid) == lo * w + lo * TotalCredits(valid[1..]);
      assert hi * TotalCredits(valid) == hi * w + hi * TotalCredits(valid[1..]);
    }
  }

  /** The unrounded mean of valid courses lies between any lower and upper bound of their grades. */
  lemma MeanBounds(valid: seq<Course>, lo: real, hi: real)
    requires valid != []
    requires forall k :: 0 <= k < |valid| ==> IsValid(valid[k]) && lo <= valid[k].grade.value <= hi
    ensures lo <= WeightedMean(valid) <= hi
  {
    SumPositive(valid, Credits);
    WeightedSumBounds(valid, lo, hi);
    var t, s := TotalCredits(valid), WeightedGradeSum(valid);
    var m := s / t;
    assert m * t == s;
    if m < lo {
      assert (lo - m) * t > 0.0;
    }
    if m > hi {
      assert (m - hi) * t > 0.0;
    }
  }

  /** The smallest grade among graded courses. */
  function MinGrade(graded: seq<Course>): (m: real)
    requires graded != []
    requires forall k :: 0 <= k < |graded| ==> graded[k].grade.Some?
    ensures forall k :: 0 <= k < |graded| ==> m <= graded[k].grade.value
    ensures exists k :: 0 <= k < |graded| && m == graded[k].grade.value
  {
    if |graded| == 1 then graded[0].grade.value
    else
      var rest := MinGrade(graded[1..]);
      if graded[0].grade.value <= rest then graded[0].grade.value else rest
  }

  /** The largest grade among graded courses. */
  function MaxGrade(graded: seq<Course>): (m: real)
    requires graded != []
    requires forall k :: 0 <= k < |graded| ==> graded[k].grade.Some?
    ensures forall k :: 0 <= k < |graded| ==> graded[k].grade.value <= m
    ensures exists k :: 0 <= k < |graded| && m == graded[k].grade.value
  {
    if |graded| == 1 then graded[0].grade.value
    else
      var rest := MaxGrade(graded[1..]);
      if graded[0].grade.value >= rest then graded[0].grade.value else rest
  }

  /** The unrounded mean lies between the lowest and the highest valid grade. */
  lemma MeanBetweenMinAndMax(courses: seq<Course>)
    requires ValidCourses(courses) != []
    ensures var valid := ValidCourses(courses);
      MinGrade(valid) <= WeightedMean(valid) <= MaxGrade(valid)
  {
    var valid := ValidCourses(courses);
    assert forall k :: 0 <= k < |valid| ==> IsValid(valid[k]) by {
      forall k | 0 <= k < |valid| ensures IsValid(valid[k]) {
        assert valid[k] in valid;
      }
    }
    MeanBounds(valid, MinGrade(valid), MaxGrade(valid));
  }

  /** With every grade in [0, 10], as the grade prompt enforces, the final grade is in [0, 10]. */
  lemma FinalGradeInRange(courses: seq<Course>)
    requires forall k :: 0 <= k < |courses| && HasGrade(courses[k]) ==> 0.0 <= courses[k].grade.value <= 10.0
    ensures 0.0 <= CalculateWeightedHarmonicMean(courses).finalGrade <= 10.0
  {
    var valid := ValidCourses(courses);
    if valid != [] {
      forall k | 0 <= k < |valid|
        ensures IsValid(valid[k]) && 0.0 <= valid[k].grade.value <= 10.0
      {
        assert valid[k] in courses;
      }
      MeanBounds(valid, 0.0, 10.0);
      Round2InRange(WeightedMean(valid));
    }
  }

  /** One course of 5 credits graded 8: final grade 8.00 over 5 credits, one passing course. */
  lemma ExampleSingleCourse()
    ensures CalculateWeightedHarmonicMean([Course("A", 5.0, Some(8.0))]) == Stats(8.0, 5.0, 1, 0, 1)
  {
    var courses := [Course("A", 5.0, Some(8.0))];
    assert ValidCourses(courses) == courses;
    assert WeightedMean(courses) == 8.0;
  }

  /** Courses of 5 credits graded 8 and 4: final grade 6.00 over 10 credits, one passing and one failing. */
  lemma ExampleTwoCourses()
    ensures CalculateWeightedHarmonicMean([Course("A", 5.0, Some(8.0)), Course("B", 5.0, Some(4.0))])
         == Stats(6.0, 10.0, 1, 1, 2)
  {
    var courses := [Course("A", 5.0, Some(8.0)), Course("B", 5.0, Some(4.0))];
    assert courses[1..][1..] == [];
    assert ValidCourses(courses) == courses;
    assert TotalCredits(courses) == 10.0 && WeightedGradeSum(courses) == 60.0;
    assert WeightedMean(courses) == 6.0;
  }

  /** The selected indices that address an element of a list of length `n`, in the order given, duplicates kept. */
  function InRange(indices: seq<int>, n: int): (kept: seq<int>)
    ensures |kept| <= |indices|
    ensures forall k :: 0 <= k < |kept| ==> 0 <= kept[k] < n
  {
    Filter(indices, i => 0 <= i < n)
  }

  /** Each in-range index is kept as often as it was given; an out-of-range one never. */
  lemma InRangeMultiplicity(indices: seq<int>, n: int, i: int)
    ensures multiset(InRange(indices, n))[i] == if 0 <= i < n then multiset(indices)[i] else 0
  {
    FilterMultiplicity(indices, j => 0 <= j < n, i);
  }

  /** Appending one index appends it to the kept ones exactly when it is in range. */
  lemma InRangeAppend(indices: seq<int>, i: int, n: int)
    ensures InRange(indices + [i], n) == InRange(indices, n) + (if 0 <= i < n then [i] else [])
  {
    FilterConcat(indices, [i], j => 0 <= j < n);
  }

  /** Indices -1, 0 and 100 against three courses keep only index 0. */
  lemma ExampleSelection()
    ensures InRange([-1, 0, 100], 3) == [0]
  {
  }

  /**
   * `filter_selected_courses`: the course at each in-range index, in the
   * order of the indices and with repetitions; out-of-range indices are
   * skipped without error.
   */
  method FilterSelectedCourses(courses: seq<Course>, selectedIndices: seq<int>) returns (selected: seq<Course>)
    ensures |selected| == |InRange(selectedIndices, |courses|)|
    ensures forall k :: 0 <= k < |selected| ==> selected[k] == courses[InRange(selectedIndices, |courses|)[k]]
  {
    selected := [];
    for j := 0 to |selectedIndices|
      invariant |selected| == |InRange(selectedIndices[..j], |courses|)|
      invariant forall k :: 0 <= k < |selected| ==> selected[k] == courses[InRange(selectedIndices[..j], |courses|)[k]]
    {
      var idx := selectedIndices[j];
      assert selectedIndices[..j + 1] == selectedIndices[..j] + [idx];
      InRangeAppend(selectedIndices[..j], idx, |courses|);
      if 0 <= idx < |courses| {
        selected := selected + [courses[idx]];
      }
    }
    assert selectedIndices[..|selectedIndices|] == selectedIndices;
  }
}
