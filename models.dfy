/**
 * The course record of the grade calculator and the three predicates on its
 * optional grade. A grade of at least `PassMark` passes; a course without a
 * grade neither passes nor fails.
 */
module Models {
  import opened Wrappers

  /** One curriculum entry: its name, its ECTS credits and the grade, `None` until one is entered. */
  datatype Course = Course(name: string, credits: real, grade: Option<real>)

  /** The lowest passing grade on the 0 to 10 scale. */
  const PassMark: real := 5.0

  /** The course as the curriculum source creates it: with no grade yet. */
  function NewCourse(name: string, credits: real): (c: Course)
    ensures c.name == name && c.credits == credits
    ensures !HasGrade(c) && !IsPassing(c) && !IsFailing(c)
  {
    Course(name, credits, None)
  }

  /** `has_grade`: a grade has been entered. */
  predicate HasGrade(c: Course)
  {
    c.grade.Some?
  }

  /** `is_passing`: a grade has been entered and it is at least the pass mark. */
  predicate IsPassing(c: Course)
    ensures IsPassing(c) ==> HasGrade(c)
  {
    c.grade.Some? && c.grade.value >= PassMark
  }

  /** `is_failing`: a grade has been entered and it is below the pass mark. */
  predicate IsFailing(c: Course)
    ensures IsFailing(c) ==> HasGrade(c) && !IsPassing(c)
  {
    c.grade.Some? && c.grade.value < PassMark
  }

  /** A graded course either passes or fails, never both; an ungraded course does neither. */
  lemma GradePartition(c: Course)
    ensures HasGrade(c) ==> IsPassing(c) != IsFailing(c)
    ensures !HasGrade(c) ==> !IsPassing(c) && !IsFailing(c)
    ensures HasGrade(c) <==> IsPassing(c) || IsFailing(c)
  {
  }

  /** Passing and failing are decided by the grade alone, against the threshold 5. */
  lemma PassingThreshold(c: Course, g: real)
    requires c.grade == Some(g)
    ensures HasGrade(c)
    ensures IsPassing(c) <==> g >= 5.0
    ensures IsFailing(c) <==> g < 5.0
  {
  }
}
