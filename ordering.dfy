/** The ORDER BY clauses of the application as preorders on rows:
    `ORDER BY last_name, first_name`, `ORDER BY appointment_date ASC` and
    `ORDER BY appointment_date DESC`. */
module Ordering {
  import opened Common
  import opened Text
  import opened Query
  import opened Store

  /** `ORDER BY last_name, first_name` (BINARY collation). */
  predicate NameOrder(a: Patient, b: Patient)
  {
    LexLess(a.lastName, b.lastName) || (a.lastName == b.lastName && LexLe(a.firstName, b.firstName))
  }

  lemma LexLessIsLe(a: string, b: string)
    requires LexLess(a, b)
    ensures LexLe(a, b) && a != b
  {
    LexLessIsNotLe(a, b);
    LexLeTotal(a, b);
  }

  lemma LexLessTransitive(a: string, b: string, c: string)
    requires LexLess(a, b) && LexLess(b, c)
    ensures LexLess(a, c)
  {
    LexLessIsLe(a, b);
    LexLessIsNotLe(b, c);
    LexLessIsNotLe(a, c);
    if LexLe(c, a) {
      LexLeTransitive(c, a, b);
    }
  }

  lemma NameOrderTotalPreorder()
    ensures TotalPreorder(NameOrder)
  {
    forall a: Patient, b: Patient ensures NameOrder(a, b) || NameOrder(b, a) {
      LexLessIsNotLe(a.lastName, b.lastName);
      LexLessIsNotLe(b.lastName, a.lastName);
      LexLeTotal(a.lastName, b.lastName);
      LexLeTotal(a.firstName, b.firstName);
      if !LexLess(a.lastName, b.lastName) && !LexLess(b.lastName, a.lastName) {
        LexLeAntisymmetric(a.lastName, b.lastName);
      }
    }
    forall a: Patient, b: Patient, c: Patient | NameOrder(a, b) && NameOrder(b, c) ensures NameOrder(a, c) {
      if LexLess(a.lastName, b.lastName) && LexLess(b.lastName, c.lastName) {
        LexLessTransitive(a.lastName, b.lastName, c.lastName);
      } else if a.lastName == b.lastName && b.lastName == c.lastName {
        LexLeTransitive(a.firstName, b.firstName, c.firstName);
      }
    }
  }

  /** `ORDER BY appointment_date DESC`. */
  predicate NewestFirst(a: Appointment, b: Appointment)
  {
    !Earlier(a.date, b.date)
  }

  /** `ORDER BY appointment_date ASC`. */
  predicate OldestFirst(a: Appointment, b: Appointment)
  {
    !Earlier(b.date, a.date)
  }

  lemma DateOrdersTotalPreorders()
    ensures TotalPreorder(NewestFirst) && TotalPreorder(OldestFirst)
  {
  }
}
