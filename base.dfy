/** Shared vocabulary of the marketplace model: identifiers, money, time and
    the Option/Result wrappers used for the source's None values and errors. */
module Base {

  /** Python's Decimal is exact, so money is a mathematical real. */
  type Money = real

  /** A timezone-aware instant, in whole seconds since the epoch. */
  type Timestamp = int

  type UserId = nat
  type ArtworkId = nat
  type OrderId = nat
  type PaymentId = nat

  datatype Option<T> = None | Some(value: T)

  datatype Result<T, E> = Success(value: T) | Failure(error: E)

  const SecondsPerHour: int := 3600
  const SecondsPerDay: int := 86400

  /** `(later - earlier).days`. A timedelta keeps its seconds part in
      [0, 86400), so the day count is the floor of the span measured in days,
      and negative when the span runs backwards. */
  function DaysBetween(later: Timestamp, earlier: Timestamp): (d: int)
    ensures d * 86400 <= later - earlier < (d + 1) * 86400
  {
    (later - earlier) / 86400
  }

  /** The whole-day count exceeds k exactly when the span reaches k + 1 full
      days: a listing 30 days and 23 hours old is still "30 days" old. */
  lemma DaysExceed(later: Timestamp, earlier: Timestamp, k: int)
    ensures DaysBetween(later, earlier) > k <==> later - earlier >= (k + 1) * SecondsPerDay
  {
    var d := DaysBetween(later, earlier);
    if d > k {
      assert (k + 1) * 86400 <= d * 86400;
    } else {
      assert (d + 1) * 86400 <= (k + 1) * 86400;
    }
  }

  /** Moving one element from the pending part of a split to the done part
      keeps it a split of the same set. */
  lemma MoveToDone<T>(whole: set<T>, done: set<T>, pending: set<T>, x: T)
    requires done !! pending && done + pending == whole && x in pending
    ensures (done + {x}) !! (pending - {x}) && (done + {x}) + (pending - {x}) == whole
  {
  }
}
