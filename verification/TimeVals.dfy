/** C's struct timeval and the three macros of ril_event.cpp over it, related to whole microseconds. */
module TimeVals {
  const MICROS_PER_SEC := 1_000_000

  datatype TimeVal = TimeVal(sec: int, usec: int)

  /** The form every timeval handed to the event loop has. */
  predicate Normal(t: TimeVal) {
    0 <= t.usec < MICROS_PER_SEC
  }

  function Micros(t: TimeVal): int {
    t.sec * MICROS_PER_SEC + t.usec
  }

  /** timeradd: one carry is enough for normalised operands. */
  function Add(a: TimeVal, b: TimeVal): (r: TimeVal)
    ensures Micros(r) == Micros(a) + Micros(b)
    ensures Normal(a) && Normal(b) ==> Normal(r)
  {
    var sec, usec := a.sec + b.sec, a.usec + b.usec;
    if usec >= MICROS_PER_SEC then TimeVal(sec + 1, usec - MICROS_PER_SEC) else TimeVal(sec, usec)
  }

  /** timersub: one borrow is enough for normalised operands. */
  function Sub(a: TimeVal, b: TimeVal): (r: TimeVal)
    ensures Micros(r) == Micros(a) - Micros(b)
    ensures Normal(a) && Normal(b) ==> Normal(r)
  {
    var sec, usec := a.sec - b.sec, a.usec - b.usec;
    if usec < 0 then TimeVal(sec - 1, usec + MICROS_PER_SEC) else TimeVal(sec, usec)
  }

  /** timercmp(a, b, <): seconds first, then microseconds. */
  predicate Less(a: TimeVal, b: TimeVal)
    ensures Normal(a) && Normal(b) ==> (Less(a, b) <==> Micros(a) < Micros(b))
  {
    if a.sec == b.sec then a.usec < b.usec else a.sec < b.sec
  }
}
