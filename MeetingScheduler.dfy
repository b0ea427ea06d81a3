/** The meeting scheduler (java/logic_error/.../scheduler/service/SchedulerService.java):
    for each user, the list of meetings they take part in; conflict-checked
    scheduling, free slots in the working day, and a few suggestions.
    A date is a day number from 1970-01-01, a Thursday; a `LocalDateTime` is
    minutes since 1970-01-01T00:00 (see `TimeSlots`); a `LocalTime` is a
    second of the day. A `Meeting` is kept by value. */
module MeetingScheduler {
  import opened Sorting
  import opened TimeSlots

  const WorkDayStart := 9 * 60
  const WorkDayEnd := 17 * 60
  const MinMeetingGap := 15
  const SecondsPerDay := 86400

  /** A `LocalTime` to the second. */
  type TimeOfDay = t: int | 0 <= t < SecondsPerDay

  /** The fields of a meeting that the scheduler reads. */
  datatype Meeting = Meeting(id: string, title: string, organizer: string, attendees: seq<string>, slot: Slot)

  /** `scheduleMeeting`'s participants: the attendees, then the organizer. */
  function Participants(m: Meeting): (ps: seq<string>)
    ensures |ps| == |m.attendees| + 1 && ps[|ps| - 1] == m.organizer
    ensures forall p :: p in ps <==> p in m.attendees || p == m.organizer
  {
    m.attendees + [m.organizer]
  }

  /** `toLocalDate`: the day a minute falls on (rounding down). */
  function DateOf(t: int): (date: int)
    ensures date * MinutesPerDay <= t < (date + 1) * MinutesPerDay
  {
    t / MinutesPerDay
  }

  /** `getDayOfWeek().getValue()`: 1 for Monday to 7 for Sunday. */
  function DayOfWeek(date: int): (d: int)
    ensures 1 <= d <= 7
  {
    (date + 3) % 7 + 1
  }

  /** `isWeekend`: Saturday or Sunday. */
  predicate IsWeekend(date: int) {
    DayOfWeek(date) == 6 || DayOfWeek(date) == 7
  }

  /** 1970-01-01 was a Thursday, so days 2 and 3 are the first weekend;
      weekends repeat every seven days. */
  lemma WeekendExamples(date: int)
    ensures DayOfWeek(0) == 4 && IsWeekend(2) && IsWeekend(3) && !IsWeekend(4)
    ensures IsWeekend(date) <==> IsWeekend(date + 7)
  {
  }

  /** `getMeetingsForUser`: `getOrDefault(user, [])`. */
  function MeetingsOf(table: map<string, seq<Meeting>>, user: string): (ms: seq<Meeting>)
    ensures user !in table ==> ms == []
  {
    if user in table then table[user] else []
  }

  // ---------------------------------------------------------------------
  // Scheduling

  /** Some participant already has a meeting that `overlaps` the new one. */
  ghost predicate Clashes(table: map<string, seq<Meeting>>, meeting: Meeting) {
    var ps := Participants(meeting);
    exists i, j :: 0 <= i < |ps| && 0 <= j < |MeetingsOf(table, ps[i])|
      && Overlaps(meeting.slot, MeetingsOf(table, ps[i])[j].slot)
  }

  /** The table after appending `meeting` to the list of each of `ps`,
      creating the lists that are missing. */
  function AddToAll(table: map<string, seq<Meeting>>, ps: seq<string>, meeting: Meeting): map<string, seq<Meeting>>
  {
    if ps == [] then table
    else
      var before := AddToAll(table, ps[..|ps| - 1], meeting);
      var p := ps[|ps| - 1];
      before[p := MeetingsOf(before, p) + [meeting]]
  }

  /** Each user's list gains one copy of the meeting per time the user is
      listed, at its end, and nothing else changes; in particular an
      organizer who is also an attendee gets the meeting twice. */
  lemma {:induction false} AddToAllSpec(table: map<string, seq<Meeting>>, ps: seq<string>, meeting: Meeting, user: string)
    ensures MeetingsOf(AddToAll(table, ps, meeting), user)
      == MeetingsOf(table, user) + seq(multiset(ps)[user], _ => meeting)
    ensures user in AddToAll(table, ps, meeting) <==> user in table || user in ps
  {
    if ps != [] {
      var init := ps[..|ps| - 1];
      var p := ps[|ps| - 1];
      assert ps == init + [p];
      AddToAllSpec(table, init, meeting, user);
      var before := AddToAll(table, init, meeting);
      assert AddToAll(table, ps, meeting) == before[p := MeetingsOf(before, p) + [meeting]];
      var n := multiset(init)[user];
      assert multiset(ps) == multiset(init) + multiset{p};
      if p == user {
        Copies(n, meeting);
      }
    }
  }

  lemma Copies<T>(n: nat, x: T)
    ensures seq(n + 1, _ => x) == seq(n, _ => x) + [x]
  {
  }

  // ---------------------------------------------------------------------
  // Free slots

  /** The order `findAvailableSlotsForDay` sorts meetings in. */
  function ByStart(m: Meeting): real {
    m.slot.start as real
  }

  /** The meetings of each of `ps` in turn (`flatMap`). */
  function Gathered(table: map<string, seq<Meeting>>, ps: seq<string>): (ms: seq<Meeting>)
    ensures forall m :: m in ms <==> exists i :: 0 <= i < |ps| && m in MeetingsOf(table, ps[i])
  {
    if ps == [] then []
    else
      var rest := Gathered(table, ps[1..]);
      assert forall i :: 0 < i < |ps| ==> ps[1..][i - 1] == ps[i];
      MeetingsOf(table, ps[0]) + rest
  }

  /** The meetings that start on `date`, in their order. */
  function OnDate(ms: seq<Meeting>, date: int): (r: seq<Meeting>)
    ensures forall m :: m in r <==> m in ms && DateOf(m.slot.start) == date
  {
    if ms == [] then []
    else (if DateOf(ms[0].slot.start) == date then [ms[0]] else []) + OnDate(ms[1..], date)
  }

  /** The meetings `findAvailableSlotsForDay` walks through: the
      participants' meetings that start on the day, sorted by start. */
  function DayMeetings(table: map<string, seq<Meeting>>, ps: seq<string>, date: int): seq<Meeting> {
    SortBy(OnDate(Gathered(table, ps), date), ByStart)
  }

  /** The day's meetings are the participants' meetings on that day, each as
      many times as it is listed, sorted by start. */
  lemma DayMeetingsSpec(table: map<string, seq<Meeting>>, ps: seq<string>, date: int)
    ensures SortedBy(DayMeetings(table, ps, date), ByStart)
    ensures multiset(DayMeetings(table, ps, date)) == multiset(OnDate(Gathered(table, ps), date))
    ensures forall m :: m in DayMeetings(table, ps, date) <==>
      DateOf(m.slot.start) == date && exists i :: 0 <= i < |ps| && m in MeetingsOf(table, ps[i])
  {
    var day := OnDate(Gathered(table, ps), date);
    SortSorted(day, ByStart);
    SortPermutes(day, ByStart);
    forall m ensures m in DayMeetings(table, ps, date) <==> m in day {
      assert m in multiset(DayMeetings(table, ps, date)) <==> m in multiset(day);
    }
  }

  /** The free slot before a meeting that starts at `meetingStart`: from
      `slotStart` to 15 minutes before the meeting, when the whole gap fits
      the meeting and the shortened one is still longer. */
  function Gap(slotStart: int, meetingStart: int, duration: int): (r: seq<Slot>)
    ensures |r| <= 1
  {
    if slotStart < meetingStart && CanFit(Slot(slotStart, meetingStart), duration)
       && slotStart + duration < meetingStart - MinMeetingGap
    then [Slot(slotStart, meetingStart - MinMeetingGap)]
    else []
  }

  /** The slots `findAvailableSlotsForDay` finds among `ms` from `slotStart`:
      a gap before each meeting, the next gap starting where that meeting
      ends, and a last slot up to `dayEnd`. */
  function FreeSlots(ms: seq<Meeting>, slotStart: int, dayEnd: int, duration: int): seq<Slot>
    decreases |ms|
  {
    if ms == [] then
      if slotStart < dayEnd && CanFit(Slot(slotStart, dayEnd), duration) then [Slot(slotStart, dayEnd)] else []
    else Gap(slotStart, ms[0].slot.start, duration) + FreeSlots(ms[1..], ms[0].slot.end, dayEnd, duration)
  }

  function Starts(ms: seq<Meeting>): set<int> {
    set m | m in ms :: m.slot.start
  }

  function Ends(ms: seq<Meeting>): set<int> {
    set m | m in ms :: m.slot.end
  }

  /** Every free slot is longer than the meeting; it starts at `slotStart`
      or where a meeting ends, and ends at `dayEnd` or 15 minutes before a
      meeting starts. */
  lemma {:induction false} FreeSlotsSpec(ms: seq<Meeting>, slotStart: int, dayEnd: int, duration: int)
    ensures forall s :: s in FreeSlots(ms, slotStart, dayEnd, duration) ==>
      && CanFit(s, duration)
      && (s.start == slotStart || s.start in Ends(ms))
      && (s.end == dayEnd || s.end + MinMeetingGap in Starts(ms))
    decreases |ms|
  {
    if ms != [] {
      var first := ms[0];
      var rest := ms[1..];
      FreeSlotsSpec(rest, first.slot.end, dayEnd, duration);
      assert first in ms;
      assert first.slot.start in Starts(ms) && first.slot.end in Ends(ms);
      forall m | m in rest ensures m.slot.start in Starts(ms) && m.slot.end in Ends(ms) {
        assert m in ms;
      }
    }
  }

  /** A meeting nested inside an earlier one moves the slot start back: with
      9:00-12:00 and 10:00-10:30 booked, 10:30-17:00 is offered as free,
      though it shares 10:30-12:00 with the first meeting. */
  lemma FreeSlotsNestedMeeting(a: Meeting, b: Meeting)
    requires a.slot == Slot(9 * 60, 12 * 60) && b.slot == Slot(10 * 60, 10 * 60 + 30)
    ensures FreeSlots([a, b], WorkDayStart, WorkDayEnd, 60) == [Slot(10 * 60 + 30, WorkDayEnd)]
    ensures Intersects(Slot(10 * 60 + 30, WorkDayEnd), a.slot)
  {
    assert [a, b][1..] == [b];
    assert Gap(WorkDayStart, a.slot.start, 60) == [];
    assert Gap(a.slot.end, b.slot.start, 60) == [];
    assert FreeSlots([], b.slot.end, WorkDayEnd, 60) == [Slot(10 * 60 + 30, WorkDayEnd)];
    assert FreeSlots([b], a.slot.end, WorkDayEnd, 60) == [Slot(10 * 60 + 30, WorkDayEnd)];
  }

  /** `FreeSlots` with the slot start kept at the latest end seen so far. */
  function FreeSlotsAfterBusy(ms: seq<Meeting>, slotStart: int, dayEnd: int, duration: int): seq<Slot>
    decreases |ms|
  {
    if ms == [] then
      if slotStart < dayEnd && CanFit(Slot(slotStart, dayEnd), duration) then [Slot(slotStart, dayEnd)] else []
    else
      var next := if ms[0].slot.end < slotStart then slotStart else ms[0].slot.end;
      Gap(slotStart, ms[0].slot.start, duration) + FreeSlotsAfterBusy(ms[1..], next, dayEnd, duration)
  }

  /** Over meetings sorted by start, no slot of the corrected walk shares a
      minute with any meeting, and none starts before `slotStart`. */
  lemma {:induction false} FreeSlotsAfterBusyAreFree(ms: seq<Meeting>, slotStart: int, dayEnd: int, duration: int)
    requires SortedBy(ms, ByStart)
    ensures forall s, j :: s in FreeSlotsAfterBusy(ms, slotStart, dayEnd, duration) && 0 <= j < |ms| ==>
      !Intersects(s, ms[j].slot)
    ensures forall s :: s in FreeSlotsAfterBusy(ms, slotStart, dayEnd, duration) ==> s.start >= slotStart
    decreases |ms|
  {
    if ms != [] {
      var first := ms[0];
      var next := if first.slot.end < slotStart then slotStart else first.slot.end;
      var rest := ms[1..];
      assert SortedBy(rest, ByStart) by {
        forall i, j | 0 <= i < j < |rest| ensures ByStart(rest[i]) <= ByStart(rest[j]) {
          assert rest[i] == ms[i + 1] && rest[j] == ms[j + 1];
        }
      }
      FreeSlotsAfterBusyAreFree(rest, next, dayEnd, duration);
      forall j | 0 <= j < |ms| ensures first.slot.start <= ms[j].slot.start {
        if j > 0 {
          assert ByStart(ms[0]) <= ByStart(ms[j]);
        }
      }
      forall s, j | s in FreeSlotsAfterBusy(ms, slotStart, dayEnd, duration) && 0 <= j < |ms|
        ensures !Intersects(s, ms[j].slot)
      {
        if s !in Gap(slotStart, first.slot.start, duration) && j > 0 {
          assert ms[j] == rest[j - 1];
        }
      }
    }
  }

  lemma Regroup<T>(a: seq<T>, b: seq<T>, c: seq<T>)
    ensures (a + b) + c == a + (b + c)
  {
  }

  /** One turn of `findAvailableSlotsForDay`'s loop. */
  lemma FreeSlotsStep(ms: seq<Meeting>, i: nat, slotStart: int, dayEnd: int, duration: int)
    requires i < |ms|
    ensures FreeSlots(ms[i..], slotStart, dayEnd, duration)
      == Gap(slotStart, ms[i].slot.start, duration) + FreeSlots(ms[i + 1..], ms[i].slot.end, dayEnd, duration)
  {
    assert ms[i..][1..] == ms[i + 1..];
  }

  /** The slots `findAvailableSlotsForDay` finds on `date`. */
  function DaySlots(table: map<string, seq<Meeting>>, ps: seq<string>, date: int, duration: int): seq<Slot> {
    FreeSlots(DayMeetings(table, ps, date), date * MinutesPerDay + WorkDayStart,
              date * MinutesPerDay + WorkDayEnd, duration)
  }

  /** The slots `findAvailableSlots` collects over the days `[first, last)`. */
  function AvailableSlots(table: map<string, seq<Meeting>>, ps: seq<string>, first: int, last: int, duration: int): seq<Slot>
    decreases last - first
  {
    if first >= last then []
    else
      var today := if IsWeekend(first) then [] else DaySlots(table, ps, first, duration);
      today + AvailableSlots(table, ps, first + 1, last, duration)
  }

  /** One day of `findAvailableSlots`'s loop. */
  lemma AvailableStep(table: map<string, seq<Meeting>>, ps: seq<string>, date: int, last: int, duration: int,
                      found: seq<Slot>, today: seq<Slot>)
    requires date < last
    requires today == if IsWeekend(date) then [] else DaySlots(table, ps, date, duration)
    ensures (found + today) + AvailableSlots(table, ps, date + 1, last, duration)
      == found + AvailableSlots(table, ps, date, last, duration)
  {
    Regroup(found, today, AvailableSlots(table, ps, date + 1, last, duration));
  }

  lemma AvailableLoopStep(table: map<string, seq<Meeting>>, ps: seq<string>, first: int, date: int, last: int, duration: int,
                          found: seq<Slot>, today: seq<Slot>)
    requires date < last
    requires today == if IsWeekend(date) then [] else DaySlots(table, ps, date, duration)
    requires found + AvailableSlots(table, ps, date, last, duration) == AvailableSlots(table, ps, first, last, duration)
    ensures (found + today) + AvailableSlots(table, ps, date + 1, last, duration) == AvailableSlots(table, ps, first, last, duration)
  {
    AvailableStep(table, ps, date, last, duration, found, today);
  }

  /** `s` is a slot of a weekday in `[first, last)`. */
  ghost predicate FoundOnWeekday(table: map<string, seq<Meeting>>, ps: seq<string>, first: int, last: int, duration: int, s: Slot) {
    exists date :: first <= date < last && !IsWeekend(date) && s in DaySlots(table, ps, date, duration)
  }

  /** Every slot found comes from a weekday in `[first, last)`. */
  lemma {:induction false} AvailableOnWeekdays(table: map<string, seq<Meeting>>, ps: seq<string>, first: int, last: int, duration: int)
    ensures forall s :: s in AvailableSlots(table, ps, first, last, duration) ==> FoundOnWeekday(table, ps, first, last, duration, s)
    decreases last - first
  {
    if first < last {
      AvailableOnWeekdays(table, ps, first + 1, last, duration);
    }
  }

  /** Every slot of a weekday in `[first, last)` is found. */
  lemma {:induction false} WeekdaysAvailable(table: map<string, seq<Meeting>>, ps: seq<string>, first: int, last: int, duration: int, date: int)
    requires first <= date < last && !IsWeekend(date)
    ensures forall s :: s in DaySlots(table, ps, date, duration) ==> s in AvailableSlots(table, ps, first, last, duration)
    decreases last - first
  {
    var today := if IsWeekend(first) then [] else DaySlots(table, ps, first, duration);
    var later := AvailableSlots(table, ps, first + 1, last, duration);
    assert AvailableSlots(table, ps, first, last, duration) == today + later;
    if first < date {
      WeekdaysAvailable(table, ps, first + 1, last, duration, date);
    } else {
      assert today == DaySlots(table, ps, date, duration);
    }
  }

  // ---------------------------------------------------------------------
  // Suggestions

  /** `suggestRoomSize`. */
  function SuggestRoomSize(attendeeCount: int): string {
    if attendeeCount < 4 then "Small Huddle Room (2-4 people)"
    else if attendeeCount < 8 then "Medium Conference Room (5-8 people)"
    else if attendeeCount < 15 then "Large Conference Room (9-15 people)"
    else "Auditorium (15+ people)"
  }

  /** The buckets do not match their labels: 4 people get the room labelled
      5-8, and 8 people the room labelled 9-15. */
  lemma RoomSizeBuckets()
    ensures SuggestRoomSize(3) == "Small Huddle Room (2-4 people)"
    ensures SuggestRoomSize(4) == "Medium Conference Room (5-8 people)"
    ensures SuggestRoomSize(8) == "Large Conference Room (9-15 people)"
    ensures SuggestRoomSize(14) == "Large Conference Room (9-15 people)"
    ensures SuggestRoomSize(15) == "Auditorium (15+ people)"
  {
  }

  /** The sum of the whole minutes of the day of `times`. */
  function TotalMinutes(times: seq<TimeOfDay>): int {
    if times == [] then 0 else TotalMinutes(times[..|times| - 1]) + times[|times| - 1] / 60
  }

  /** When every time lies in `[lo, hi]` minutes, the total lies between
      `lo` and `hi` times the count. */
  lemma {:induction false} TotalMinutesBetween(times: seq<TimeOfDay>, lo: int, hi: int)
    requires forall i :: 0 <= i < |times| ==> lo <= times[i] / 60 <= hi
    ensures lo * |times| <= TotalMinutes(times) <= hi * |times|
  {
    if times != [] {
      TotalMinutesBetween(times[..|times| - 1], lo, hi);
    }
  }

  /** `suggestMeetingTime`: 10:00 without preferences, otherwise the time at
      the whole-minute mean of the preferred minutes of the day. */
  method SuggestMeetingTime(preferred: seq<TimeOfDay>) returns (t: TimeOfDay)
    ensures preferred == [] ==> t == 10 * 3600
    ensures preferred != [] ==> t == TotalMinutes(preferred) / |preferred| * 60
  {
    if preferred == [] {
      return 10 * 3600;
    }
    var totalMinutes := 0;
    for i := 0 to |preferred|
      invariant totalMinutes == TotalMinutes(preferred[..i])
    {
      assert preferred[..i + 1][..i] == preferred[..i];
      totalMinutes := totalMinutes + preferred[i] / 60;
    }
    assert preferred[..|preferred|] == preferred;
    TotalMinutesBetween(preferred, 0, 1439);
    var averageMinutes := totalMinutes / |preferred|;
    t := averageMinutes / 60 * 3600 + averageMinutes % 60 * 60;
  }

  /** The suggestion lies between the earliest and the latest preferred
      minute, so it stays within the day. */
  lemma SuggestionBetween(preferred: seq<TimeOfDay>, lo: int, hi: int)
    requires preferred != []
    requires forall i :: 0 <= i < |preferred| ==> lo <= preferred[i] / 60 <= hi
    ensures lo * 60 <= TotalMinutes(preferred) / |preferred| * 60 <= hi * 60
  {
    TotalMinutesBetween(preferred, lo, hi);
    DivBetween(TotalMinutes(preferred), |preferred|, lo, hi);
  }

  /** A total between `lo * n` and `hi * n` has its quotient by `n` between
      `lo` and `hi`. */
  lemma DivBetween(total: int, n: int, lo: int, hi: int)
    requires n > 0 && lo * n <= total <= hi * n
    ensures lo <= total / n <= hi
  {
    var q := total / n;
    assert total == q * n + total % n;
    assert q * n <= total < (q + 1) * n;
    MulLess(lo, q + 1, n);
    MulLess(q, hi + 1, n);
  }

  /** Multiplying by a positive number keeps a strict order. */
  lemma MulLess(a: int, b: int, n: int)
    requires n > 0 && a * n < b * n
    ensures a < b
  {
    assert (b - a) * n == b * n - a * n;
  }

  /** The mean ignores that the day wraps: 23:00 and 01:00 give noon. */
  lemma SuggestionAcrossMidnight()
    ensures TotalMinutes([23 * 3600, 1 * 3600]) / 2 * 60 == 12 * 3600
  {
    assert [23 * 3600, 1 * 3600][..1] == [23 * 3600];
  }

  /** The meetings of `ms` dated from `start` to `end`, both included. */
  function InRange(ms: seq<Meeting>, start: int, end: int): (r: seq<Meeting>)
    ensures |r| <= |ms|
    ensures forall i :: 0 <= i < |r| ==> r[i] in ms && start <= DateOf(r[i].slot.start) <= end
    ensures forall m :: m in ms && start <= DateOf(m.slot.start) <= end ==> m in r
  {
    if ms == [] then []
    else
      var date := DateOf(ms[0].slot.start);
      var rest := InRange(ms[1..], start, end);
      assert forall m :: m in ms[1..] ==> m in ms;
      (if date > start - 1 && !(date > end) then [ms[0]] else []) + rest
  }

  /** The filter keeps the meetings' order and multiplicity: it
      distributes over concatenation, and a single meeting is kept exactly
      when it is dated in the range. */
  lemma {:induction false} InRangeOrder(a: seq<Meeting>, b: seq<Meeting>, start: int, end: int)
    ensures InRange(a + b, start, end) == InRange(a, start, end) + InRange(b, start, end)
    decreases |a|
  {
    if a == [] {
      assert a + b == b;
    } else {
      assert (a + b)[0] == a[0] && (a + b)[1..] == a[1..] + b;
      InRangeOrder(a[1..], b, start, end);
    }
  }

  lemma InRangeSingle(m: Meeting, start: int, end: int)
    ensures InRange([m], start, end) == if start <= DateOf(m.slot.start) <= end then [m] else []
  {
    assert [m][1..] == [];
  }

  class SchedulerService {
    var userMeetings: map<string, seq<Meeting>>

    constructor()
      ensures userMeetings == map[]
    {
      userMeetings := map[];
    }

    /** `scheduleMeeting`: refuses, changing nothing, when a participant has
        a meeting that `overlaps` it; otherwise appends the meeting to the
        list of each participant, once per time they are listed. */
    method ScheduleMeeting(meeting: Meeting) returns (ok: bool)
      modifies this
      ensures ok <==> !Clashes(old(userMeetings), meeting)
      ensures !ok ==> userMeetings == old(userMeetings)
      ensures ok ==> userMeetings == AddToAll(old(userMeetings), Participants(meeting), meeting)
    {
      var all := Participants(meeting);
      for i := 0 to |all|
        invariant forall p, j :: 0 <= p < i && 0 <= j < |MeetingsOf(userMeetings, all[p])| ==>
          !Overlaps(meeting.slot, MeetingsOf(userMeetings, all[p])[j].slot)
      {
        var existing := MeetingsOf(userMeetings, all[i]);
        for j := 0 to |existing|
          invariant forall k :: 0 <= k < j ==> !Overlaps(meeting.slot, existing[k].slot)
        {
          if Overlaps(meeting.slot, existing[j].slot) {
            return false;
          }
        }
      }
      for i := 0 to |all|
        invariant userMeetings == AddToAll(old(userMeetings), all[..i], meeting)
      {
        assert all[..i + 1][..i] == all[..i];
        userMeetings := userMeetings[all[i] := MeetingsOf(userMeetings, all[i]) + [meeting]];
      }
      assert all[..|all|] == all;
      return true;
    }

    /** `findAvailableSlotsForDay`. */
    method FindAvailableSlotsForDay(participants: seq<string>, date: int, duration: int) returns (free: seq<Slot>)
      ensures free == DaySlots(userMeetings, participants, date, duration)
    {
      var dayStart := date * MinutesPerDay + WorkDayStart;
      var dayEnd := date * MinutesPerDay + WorkDayEnd;
      var all := DayMeetings(userMeetings, participants, date);
      free := [];
      var slotStart := dayStart;
      for i := 0 to |all|
        invariant free + FreeSlots(all[i..], slotStart, dayEnd, duration) == FreeSlots(all, dayStart, dayEnd, duration)
      {
        ghost var before := free;
        FreeSlotsStep(all, i, slotStart, dayEnd, duration);
        var meetingStart := all[i].slot.start;
        var meetingEnd := all[i].slot.end;
        if slotStart < meetingStart {
          if CanFit(Slot(slotStart, meetingStart), duration) {
            var adjustedEnd := meetingStart - MinMeetingGap;
            if slotStart + duration < adjustedEnd {
              free := free + [Slot(slotStart, adjustedEnd)];
            }
          }
        }
        assert free == before + Gap(slotStart, meetingStart, duration);
        Regroup(before, Gap(slotStart, meetingStart, duration), FreeSlots(all[i + 1..], meetingEnd, dayEnd, duration));
        slotStart := meetingEnd;
      }
      if slotStart < dayEnd {
        var lastSlot := Slot(slotStart, dayEnd);
        if CanFit(lastSlot, duration) {
          free := free + [lastSlot];
        }
      }
    }

    /** `findAvailableSlots`: the free slots of each weekday in
        `[startDate, endDate)`, day by day. */
    method FindAvailableSlots(participants: seq<string>, startDate: int, endDate: int, duration: int)
      returns (slots: seq<Slot>)
      ensures slots == AvailableSlots(userMeetings, participants, startDate, endDate, duration)
    {
      var table := userMeetings;
      slots := [];
      var date := startDate;
      while date < endDate
        invariant slots + AvailableSlots(table, participants, date, endDate, duration)
          == AvailableSlots(table, participants, startDate, endDate, duration)
        decreases endDate - date
      {
        var today := [];
        if !IsWeekend(date) {
          today := FindAvailableSlotsForDay(participants, date, duration);
        }
        AvailableLoopStep(table, participants, startDate, date, endDate, duration, slots, today);
        slots, date := slots + today, date + 1;
      }
      assert AvailableSlots(table, participants, date, endDate, duration) == [];
      assert slots + [] == slots;
    }

    /** `getMeetingsInRange`: the user's meetings dated from `start` to
        `end`, both included, in their order. */
    function GetMeetingsInRange(user: string, start: int, end: int): (r: seq<Meeting>)
      reads this
      ensures forall i :: 0 <= i < |r| ==> r[i] in MeetingsOf(userMeetings, user)
      ensures forall m :: m in MeetingsOf(userMeetings, user) ==>
        (m in r <==> start <= DateOf(m.slot.start) <= end)
    {
      InRange(MeetingsOf(userMeetings, user), start, end)
    }
  }

  /** As written, a meeting with a non-empty slot is never refused when the
      stored slots are well formed. */
  lemma NeverClashes(table: map<string, seq<Meeting>>, meeting: Meeting)
    requires meeting.slot.start < meeting.slot.end
    requires forall u, j :: u in table && 0 <= j < |table[u]| ==> WellFormed(table[u][j].slot)
    ensures !Clashes(table, meeting)
  {
    var ps := Participants(meeting);
    forall i, j | 0 <= i < |ps| && 0 <= j < |MeetingsOf(table, ps[i])|
      ensures !Overlaps(meeting.slot, MeetingsOf(table, ps[i])[j].slot)
    {
      OverlapsNeverHolds(meeting.slot, MeetingsOf(table, ps[i])[j].slot);
    }
  }
}
