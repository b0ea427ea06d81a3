/** Meeting time slots (java/logic_error/.../scheduler/model/TimeSlot.java).
    A `LocalDateTime` is a whole number of minutes since 1970-01-01T00:00
    and a `Duration` a whole number of minutes; a slot is the pair of its
    ends, with no check that the start comes first. */
module TimeSlots {

  const MinutesPerDay := 1440

  datatype Slot = Slot(start: int, end: int)

  /** `new TimeSlot(start, duration)`. */
  function FromDuration(start: int, duration: int): (s: Slot)
    ensures s.start == start && Duration(s) == duration
  {
    Slot(start, start + duration)
  }

  /** `getDuration`: `Duration.between(start, end)`, negative for a reversed slot. */
  function Duration(s: Slot): int {
    s.end - s.start
  }

  /** A slot that starts no later than it ends. */
  predicate WellFormed(s: Slot) {
    s.start <= s.end
  }

  /** `overlaps` as written: neither slot ends after the other starts. */
  predicate Overlaps(a: Slot, b: Slot) {
    !(a.end > b.start) && !(b.end > a.start)
  }

  /** `contains`: the half-open slot `[start, end)`. */
  predicate Contains(s: Slot, t: int) {
    !(t < s.start) && t < s.end
  }

  /** `canFit`: the slot is strictly longer than the meeting. */
  predicate CanFit(s: Slot, meeting: int) {
    Duration(s) > meeting
  }

  /** `splitAt`: the two slots on either side of `at`. */
  function SplitAt(s: Slot, at: int): (halves: (Slot, Slot))
    ensures halves.0.start == s.start && halves.0.end == at
    ensures halves.1.start == at && halves.1.end == s.end
    ensures Duration(halves.0) + Duration(halves.1) == Duration(s)
  {
    (Slot(s.start, at), Slot(at, s.end))
  }

  /** Splitting inside a slot cuts its minutes in two: each minute of the
      slot lies in exactly one half, and the halves hold no other minute. */
  lemma SplitPartitions(s: Slot, at: int, t: int)
    requires s.start <= at <= s.end
    ensures var (left, right) := SplitAt(s, at);
      && WellFormed(left) && WellFormed(right)
      && (Contains(s, t) <==> Contains(left, t) || Contains(right, t))
      && !(Contains(left, t) && Contains(right, t))
  {
  }

  /** A slot of exactly the meeting's length does not fit it. */
  lemma CanFitIsStrict(start: int, meeting: int)
    ensures !CanFit(FromDuration(start, meeting), meeting)
    ensures CanFit(FromDuration(start, meeting + 1), meeting)
  {
  }

  /** As written, `overlaps` never holds for two well-formed slots of which
      one is not empty: it asks for `b.end <= a.start < a.end <= b.start`. */
  lemma OverlapsNeverHolds(a: Slot, b: Slot)
    requires WellFormed(a) && WellFormed(b)
    requires a.start < a.end || b.start < b.end
    ensures !Overlaps(a, b)
  {
  }

  /** 9:00-11:00 and 10:00-12:00 share an hour, yet do not overlap as
      written. */
  lemma OverlapsMissesSharedHour()
    ensures var a := Slot(9 * 60, 11 * 60);
      var b := Slot(10 * 60, 12 * 60);
      Contains(a, 10 * 60) && Contains(b, 10 * 60) && !Overlaps(a, b)
  {
  }

  /** The overlap test the scheduler needs: each slot starts before the
      other ends, so back-to-back slots do not overlap. */
  predicate Intersects(a: Slot, b: Slot) {
    a.start < b.end && b.start < a.end
  }

  /** For non-empty slots, `Intersects` holds exactly when some minute lies
      in both. */
  lemma IntersectsIffShared(a: Slot, b: Slot)
    requires a.start < a.end && b.start < b.end
    ensures Intersects(a, b) ==> var t := if a.start < b.start then b.start else a.start;
      Contains(a, t) && Contains(b, t)
    ensures forall t :: Contains(a, t) && Contains(b, t) ==> Intersects(a, b)
  {
  }

  /** Back-to-back slots do not intersect; a slot intersects itself when
      it is not empty. */
  lemma IntersectsExamples(start: int, length: int)
    requires length > 0
    ensures !Intersects(FromDuration(start, length), FromDuration(start + length, length))
    ensures Intersects(FromDuration(start, length), FromDuration(start, length))
  {
  }
}
