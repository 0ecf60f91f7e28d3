/** What several components share: the optional value, and events on one time line. */
module Common {
  datatype Option<+T> = None | Some(value: T)

  /** The zero `time.Time`: midnight on 1 January of year 1, in nanoseconds from the Unix epoch. */
  const ZERO_TIME: int := -62_135_596_800 * 1_000_000_000

  /** The events happen at non-decreasing times, none before `t`. */
  predicate Timed<E>(es: seq<E>, at: E -> int, t: int) {
    es == [] || (t <= at(es[0]) && Timed(es[1..], at, at(es[0])))
  }

  /** The time of the last event, or `t`. */
  function EndTime<E>(es: seq<E>, at: E -> int, t: int): int {
    if es == [] then t else EndTime(es[1..], at, at(es[0]))
  }

  lemma {:induction false} EndsLater<E>(es: seq<E>, at: E -> int, t: int)
    requires Timed(es, at, t)
    ensures t <= EndTime(es, at, t)
  {
    if es != [] {
      EndsLater(es[1..], at, at(es[0]));
    }
  }
}
