/** Small shared vocabulary: optional values, minimum and maximum, spans of time, and two laws of division. */
module Common {
  datatype Option<+T> = None | Some(value: T)

  function Max(a: real, b: real): real {
    if a >= b then a else b
  }

  function Min(a: real, b: real): real {
    if a <= b then a else b
  }

  /** The least natural number not below `r`, or one more: a whole-number measure for real time left. */
  function Ceiling(r: real): nat {
    if r <= 0.0 then 0 else r.Floor + 1
  }

  /** How long so many gaps take. */
  function Span(gap: real, gaps: nat): real {
    gap * gaps as real
  }

  lemma OneMoreGap(gap: real, gaps: nat)
    ensures Span(gap, gaps + 1) == Span(gap, gaps) + gap && Span(gap, 0) == 0.0
    ensures gap >= 0.0 ==> Span(gap, gaps) >= 0.0
  {
  }

  lemma Quotient(q: real, d: real, x: real)
    requires d > 0.0 && q * d == x
    ensures x / d == q
  {
  }

  lemma DivisionIsMonotone(a: real, b: real, d: real)
    requires d > 0.0 && a <= b
    ensures a / d <= b / d
  {
  }
}
