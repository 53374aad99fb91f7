/** The `struct timeval` arithmetic of ril_event.cpp (timeradd, timersub, timercmp). */
module Timevals {
  datatype Timeval = Timeval(sec: int, usec: int) {

    /** What every consumer of a timeval expects: microseconds within one second. */
    ghost predicate Normalised() {
      0 <= usec < 1_000_000
    }

    /** The instant (or length of time) a timeval stands for. */
    ghost function Micros(): int {
      sec * 1_000_000 + usec
    }
  }

  /** timeradd: one carry only. */
  function TimerAdd(t: Timeval, u: Timeval): (v: Timeval)
    ensures v.Micros() == t.Micros() + u.Micros()
    ensures v.Normalised() <==> 0 <= t.usec + u.usec < 2_000_000
  {
    var usec := t.usec + u.usec;
    if usec >= 1_000_000 then Timeval(t.sec + u.sec + 1, usec - 1_000_000)
    else Timeval(t.sec + u.sec, usec)
  }

  /** timersub: one borrow only. */
  function TimerSub(a: Timeval, b: Timeval): (v: Timeval)
    ensures v.Micros() == a.Micros() - b.Micros()
    ensures a.Normalised() && b.Normalised() ==> v.Normalised()
  {
    var usec := a.usec - b.usec;
    if usec < 0 then Timeval(a.sec - b.sec - 1, usec + 1_000_000)
    else Timeval(a.sec - b.sec, usec)
  }

  /** timercmp(a, b, <); timercmp(a, b, >) is the same test with the operands swapped. */
  predicate TimerLess(a: Timeval, b: Timeval) {
    if a.sec == b.sec then a.usec < b.usec else a.sec < b.sec
  }

  /** The field-by-field comparison orders instants, given normalised operands. */
  lemma TimerLessIsOrder(a: Timeval, b: Timeval)
    requires a.Normalised() && b.Normalised()
    ensures TimerLess(a, b) <==> a.Micros() < b.Micros()
  {
  }

  /** Normalised operands are needed: the comparison looks at the seconds alone when they differ. */
  lemma TimerLessNeedsNormalised()
    ensures var a, b := Timeval(0, 2 * 1_000_000), Timeval(1, 0);
            TimerLess(a, b) && b.Micros() < a.Micros()
  {
  }

  /** Normalised timevals are determined by the instant they stand for. */
  lemma NormalisedIsCanonical(a: Timeval, b: Timeval)
    requires a.Normalised() && b.Normalised() && a.Micros() == b.Micros()
    ensures a == b
  {
  }
}
