/**
 * The three-way conclusion `show_result` draws from the displayed
 * percentage, and the message it shows for each.
 */
module Verdict {

  datatype Conclusion = Teacher | PossiblyTeacher | NotTeacher

  /** The if/elif/else chain on the percentage: above 70 is a teacher's
      resume, above 30 up to 70 possibly one, anything else not; each bound
      belongs to the lower tier. */
  function Conclude(percent: real): (c: Conclusion)
    ensures c == Teacher <==> percent > 70.0
    ensures c == PossiblyTeacher <==> 30.0 < percent <= 70.0
    ensures c == NotTeacher <==> percent <= 30.0
  {
    if percent > 70.0 then Teacher
    else if percent > 30.0 then PossiblyTeacher
    else NotTeacher
  }

  /** The label shown for each conclusion. */
  function Message(c: Conclusion): string {
    match c
    case Teacher => "Это резюме преподавателя!"
    case PossiblyTeacher => "Возможно, это резюме преподавателя"
    case NotTeacher => "Это не похоже на резюме преподавателя"
  }

  /** How strongly a conclusion points to a teacher. */
  function Strength(c: Conclusion): nat {
    match c
    case NotTeacher => 0
    case PossiblyTeacher => 1
    case Teacher => 2
  }

  /** A higher percentage never gives a weaker conclusion. */
  lemma ConcludeMonotone(p: real, q: real)
    requires p <= q
    ensures Strength(Conclude(p)) <= Strength(Conclude(q))
  {
  }

  /** The boundary cases: exactly 70 and exactly 30 fall to the lower tier. */
  lemma ConcludeBoundaries()
    ensures Conclude(70.0) == PossiblyTeacher && Conclude(70.01) == Teacher
    ensures Conclude(30.0) == NotTeacher && Conclude(30.01) == PossiblyTeacher
  {
  }

  /** Distinct conclusions are shown with distinct messages. */
  lemma MessageDistinct(c: Conclusion, d: Conclusion)
    requires c != d
    ensures Message(c) != Message(d)
  {
  }
}
