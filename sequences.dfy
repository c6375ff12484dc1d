/** Regrouping facts about sequence concatenation, stated once for any element type so
    that a proof can name the step it needs instead of leaving the solver to find it. */
module Sequences {
  lemma Associative<T>(a: seq<T>, b: seq<T>, c: seq<T>)
    ensures a + b + c == a + (b + c)
  {
  }

  lemma HeadAndRest<T>(s: seq<T>)
    requires |s| >= 1
    ensures [s[0]] + s[1..] == s
  {
  }

  /** Moving the first element of `b` over to the end of `a`. */
  lemma ShiftOne<T>(a: seq<T>, b: seq<T>)
    requires |b| >= 1
    ensures a + b == (a + [b[0]]) + b[1..]
  {
    assert b == [b[0]] + b[1..];
  }
}
