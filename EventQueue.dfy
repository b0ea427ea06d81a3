/** The priority event queue of the asynchronous services
    (typescript/async_failures/src/services/queue.ts). Events wait in
    `pending`, highest priority first; a dequeued event's id is kept in
    `processing`; `failed` maps an id to its error message. The fresh id
    (`uuidv4()`) and the clock (`Date.now()`) are parameters, and `await`
    is sequential execution. */
module Events {
  import opened Wrappers
  import opened Sorting

  /** An event; its payload is not modelled. */
  datatype Event = Event(id: string, eventType: string, timestamp: int, priority: int)

  /** What a caller passes to `enqueue`: an event without id and timestamp. */
  datatype EventInput = EventInput(eventType: string, priority: int)

  datatype QueueStats = QueueStats(pending: nat, processing: nat, completed: nat, failed: nat)

  /** The comparator `(a, b) => b.priority - a.priority` as an ascending key. */
  function ByPriorityDesc(e: Event): real {
    -(e.priority as real)
  }

  /** `validateEvent` rejects an event whose type is empty. */
  predicate Untyped(e: Event) {
    e.eventType == ""
  }

  const TypeRequired := "Event type is required"

  /** Some event of `s` carries the id. */
  predicate Carries(s: seq<Event>, id: string) {
    exists i :: 0 <= i < |s| && s[i].id == id
  }

  /** No two events of `s` share an id. */
  predicate DistinctIds(s: seq<Event>) {
    forall i, j :: 0 <= i < j < |s| ==> s[i].id != s[j].id
  }

  /** The ids of the events of `s`. */
  function IdSet(s: seq<Event>): set<string> {
    if s == [] then {} else IdSet(s[..|s| - 1]) + {s[|s| - 1].id}
  }

  lemma {:induction false} IdSetCarries(s: seq<Event>)
    ensures forall id :: id in IdSet(s) <==> Carries(s, id)
    decreases |s|
  {
    if s != [] {
      var init := s[..|s| - 1];
      IdSetCarries(init);
      assert forall i :: 0 <= i < |init| ==> init[i] == s[i];
    }
  }

  /** `pending.find(e => e.id === eventId)`: the first event carrying the id. */
  function FindById(s: seq<Event>, id: string): (r: Option<Event>)
    ensures r.None? <==> !Carries(s, id)
    ensures r.Some? ==> r.value in s && r.value.id == id
  {
    if s == [] then None
    else if s[0].id == id then Some(s[0])
    else
      var r := FindById(s[1..], id);
      assert forall i :: 1 <= i < |s| ==> s[i] == s[1..][i - 1];
      assert Carries(s[1..], id) ==> Carries(s, id);
      r
  }

  /** The event `enqueue` builds from its input, fresh id and time. */
  function Stamped(input: EventInput, freshId: string, now: int): (e: Event)
    ensures e.id == freshId && e.timestamp == now
    ensures e.eventType == input.eventType && e.priority == input.priority
  {
    Event(freshId, input.eventType, now, input.priority)
  }

  /** The index of the first untyped event of `s`, if any. */
  function FirstUntyped(s: seq<Event>): (r: Option<nat>)
    ensures r.None? <==> forall i :: 0 <= i < |s| ==> !Untyped(s[i])
    ensures r.Some? ==> r.value < |s| && Untyped(s[r.value]) && forall i :: 0 <= i < r.value ==> !Untyped(s[i])
  {
    if s == [] then None
    else if Untyped(s[0]) then Some(0)
    else match FirstUntyped(s[1..])
      case None => None
      case Some(j) => Some(j + 1)
  }

  /** The first untyped event is the one after a run of typed events. */
  lemma {:induction false} FirstUntypedAt(s: seq<Event>, i: nat)
    requires i < |s| && Untyped(s[i])
    requires forall k :: 0 <= k < i ==> !Untyped(s[k])
    ensures FirstUntyped(s) == Some(i)
    decreases i
  {
    if i > 0 {
      FirstUntypedAt(s[1..], i - 1);
    }
  }

  lemma IdSetAppend(s: seq<Event>, x: Event)
    ensures IdSet(s + [x]) == IdSet(s) + {x.id}
  {
    assert (s + [x])[..|s|] == s;
  }

  /** How many events of a batch are admitted to processing: those before
      the first untyped one. */
  function Admitted(taken: seq<Event>): (n: nat)
    ensures n <= |taken|
    ensures forall k :: 0 <= k < n ==> !Untyped(taken[k])
    ensures n < |taken| ==> Untyped(taken[n])
  {
    match FirstUntyped(taken)
    case None => |taken|
    case Some(j) => j
  }

  /** How many events of a batch leave `pending`: the admitted ones and the
      untyped one that stops the batch. */
  function Consumed(taken: seq<Event>): (n: nat)
    ensures n <= |taken|
    ensures n == if Admitted(taken) == |taken| then |taken| else Admitted(taken) + 1
  {
    match FirstUntyped(taken)
    case None => |taken|
    case Some(j) => j + 1
  }

  /** How many events `dequeueBatch(count)` asks for: `min(count, size)`,
      and none for a count that is not positive. */
  function BatchSize(count: int, size: nat): (m: nat)
    ensures m <= size
    ensures count >= 0 ==> m == if count < size then count else size
    ensures count < 0 ==> m == 0
  {
    if count <= 0 then 0 else if count < size then count else size
  }

  /** Inserting by priority puts the event at one place, between the
      events before it and those after it. */
  lemma {:induction false} InsertSplit(x: Event, s: seq<Event>) returns (k: nat)
    ensures k <= |s| && Insert(x, s, ByPriorityDesc) == s[..k] + [x] + s[k..]
    decreases |s|
  {
    if s == [] || ByPriorityDesc(x) < ByPriorityDesc(s[0]) {
      k := 0;
    } else {
      var j := InsertSplit(x, s[1..]);
      k := j + 1;
      assert s[..k] == [s[0]] + s[1..][..j];
      assert s[k..] == s[1..][j..];
    }
  }

  /** The id of an event inserted by priority is new when it was new to the
      pending events. */
  lemma InsertKeepsDistinct(x: Event, s: seq<Event>)
    requires DistinctIds(s) && !Carries(s, x.id)
    ensures DistinctIds(Insert(x, s, ByPriorityDesc))
    ensures forall id :: Carries(Insert(x, s, ByPriorityDesc), id) <==> id == x.id || Carries(s, id)
  {
    var k := InsertSplit(x, s);
    var r := Insert(x, s, ByPriorityDesc);
    assert forall i :: 0 <= i < k ==> r[i] == s[i];
    assert r[k] == x;
    assert forall i :: k < i < |r| ==> r[i] == s[i - 1];
    forall i, j | 0 <= i < j < |r| ensures r[i].id != r[j].id {
      if j < k {
      } else if i < k && j == k {
      } else if i < k {
        assert r[j] == s[j - 1];
      } else if i == k {
        assert r[j] == s[j - 1];
      } else {
        assert r[i] == s[i - 1] && r[j] == s[j - 1];
      }
    }
    forall id ensures Carries(r, id) <==> id == x.id || Carries(s, id) {
      if Carries(s, id) {
        var i :| 0 <= i < |s| && s[i].id == id;
        if i < k {
          assert r[i] == s[i];
        } else {
          assert r[i + 1] == s[i];
        }
      }
      if Carries(r, id) {
        var i :| 0 <= i < |r| && r[i].id == id;
        if i < k {
          assert s[i] == r[i];
        } else if i > k {
          assert s[i - 1] == r[i];
        }
      }
    }
  }

  /** Sorting an already sorted queue with one event appended inserts that
      event after every event of at least its priority: the result is in
      priority order, holds the same events plus the new one, and keeps the
      arrival order among events of equal priority. */
  lemma SortAppended(s: seq<Event>, x: Event)
    requires SortedBy(s, ByPriorityDesc)
    ensures SortBy(s + [x], ByPriorityDesc) == Insert(x, s, ByPriorityDesc)
    ensures SortedBy(Insert(x, s, ByPriorityDesc), ByPriorityDesc)
    ensures multiset(Insert(x, s, ByPriorityDesc)) == multiset(s) + multiset{x}
    ensures forall k ::
      WithKey(Insert(x, s, ByPriorityDesc), ByPriorityDesc, k) == WithKey(s, ByPriorityDesc, k) + (if ByPriorityDesc(x) == k then [x] else [])
  {
    assert (s + [x])[..|s|] == s;
    SortOfSorted(s, ByPriorityDesc);
    InsertPermutes(x, s, ByPriorityDesc);
    InsertSorted(x, s, ByPriorityDesc);
    forall k ensures WithKey(Insert(x, s, ByPriorityDesc), ByPriorityDesc, k)
      == WithKey(s, ByPriorityDesc, k) + (if ByPriorityDesc(x) == k then [x] else [])
    {
      InsertStable(x, s, ByPriorityDesc, k);
    }
  }

  class EventQueue {
    var pending: seq<Event>
    var processing: set<string>
    var completed: seq<Event>
    var failed: map<string, string>

    /** The pending events are in priority order and carry distinct ids. */
    ghost predicate Valid()
      reads this
    {
      SortedBy(pending, ByPriorityDesc) && DistinctIds(pending)
    }

    constructor()
      ensures Valid()
      ensures pending == [] && processing == {} && completed == [] && failed == map[]
    {
      pending := [];
      processing := {};
      completed := [];
      failed := map[];
    }

    /** `enqueue`: stamps the event with its fresh id and the time, appends
        it and re-sorts by priority. The sort is stable, so the event lands
        after every pending event of at least its priority; among events of
        equal priority the order of arrival is kept. */
    method Enqueue(input: EventInput, freshId: string, now: int) returns (e: Event)
      requires Valid() && !Carries(pending, freshId)
      modifies this
      ensures Valid()
      ensures e == Stamped(input, freshId, now)
      ensures pending == SortBy(old(pending) + [e], ByPriorityDesc)
      ensures pending == Insert(e, old(pending), ByPriorityDesc)
      ensures forall id :: Carries(pending, id) <==> id == freshId || Carries(old(pending), id)
      ensures processing == old(processing) && completed == old(completed) && failed == old(failed)
    {
      e := Stamped(input, freshId, now);
      SortAppended(pending, e);
      InsertKeepsDistinct(e, pending);
      pending := SortBy(pending + [e], ByPriorityDesc);
    }

    /** `enqueueBatch`: enqueues the inputs one after the other, each with
        its own fresh id and time; the result is the same as sorting all of
        them appended at once. */
    method EnqueueBatch(inputs: seq<EventInput>, freshIds: seq<string>, times: seq<int>) returns (added: seq<Event>)
      requires Valid()
      requires |freshIds| == |inputs| == |times|
      requires forall i, j :: 0 <= i < j < |freshIds| ==> freshIds[i] != freshIds[j]
      requires forall i :: 0 <= i < |freshIds| ==> !Carries(pending, freshIds[i])
      modifies this
      ensures Valid()
      ensures |added| == |inputs|
      ensures forall i :: 0 <= i < |added| ==> added[i] == Stamped(inputs[i], freshIds[i], times[i])
      ensures pending == SortBy(old(pending) + added, ByPriorityDesc)
      ensures processing == old(processing) && completed == old(completed) && failed == old(failed)
    {
      added := [];
      SortOfSorted(pending, ByPriorityDesc);
      assert old(pending) + added == old(pending);
      for i := 0 to |inputs|
        invariant Valid()
        invariant |added| == i
        invariant forall k :: 0 <= k < i ==> added[k] == Stamped(inputs[k], freshIds[k], times[k])
        invariant pending == SortBy(old(pending) + added, ByPriorityDesc)
        invariant forall j :: i <= j < |freshIds| ==> !Carries(pending, freshIds[j])
        invariant processing == old(processing) && completed == old(completed) && failed == old(failed)
      {
        var e := Enqueue(inputs[i], freshIds[i], times[i]);
        assert old(pending) + (added + [e]) == (old(pending) + added) + [e];
        ghost var before := added;
        added := added + [e];
        forall k | 0 <= k < i + 1 ensures added[k] == Stamped(inputs[k], freshIds[k], times[k]) {
          if k < i {
            assert added[k] == before[k];
          }
        }
      }
    }

    /** `dequeue`: null when nothing is pending; otherwise the head leaves
        `pending`. An untyped head fails validation after it was shifted,
        so it is then neither pending nor processing; a valid head's id
        joins `processing` and is no longer pending. */
    method Dequeue() returns (r: Result<Option<Event>, string>)
      requires Valid()
      modifies this
      ensures Valid()
      ensures old(pending) == [] ==> r == Ok(None) && pending == [] && processing == old(processing)
      ensures old(pending) != [] ==> pending == old(pending)[1..]
      ensures old(pending) != [] && Untyped(old(pending)[0]) ==>
        r == Err(TypeRequired) && processing == old(processing)
      ensures old(pending) != [] && !Untyped(old(pending)[0]) ==>
        r == Ok(Some(old(pending)[0])) && processing == old(processing) + {old(pending)[0].id}
      ensures r.Ok? && r.value.Some? ==> r.value.value.id !in IdSet(pending)
      ensures completed == old(completed) && failed == old(failed)
    {
      if |pending| == 0 {
        return Ok(None);
      }
      var e := pending[0];
      pending := pending[1..];
      if Untyped(e) {
        return Err(TypeRequired);
      }
      processing := processing + {e.id};
      assert forall i :: 0 <= i < |pending| ==> pending[i] == old(pending)[i + 1];
      IdSetCarries(pending);
      return Ok(Some(e));
    }

    /** `dequeueBatch(count)`: dequeues up to `count` events in order. The
        first untyped one among them ends the batch with its error; the
        events dequeued before it stay in `processing` but are not returned. */
    method DequeueBatch(count: int) returns (r: Result<seq<Event>, string>)
      requires Valid()
      modifies this
      ensures Valid()
      ensures var taken := old(pending)[..BatchSize(count, |old(pending)|)];
        && pending == old(pending)[Consumed(taken)..]
        && processing == old(processing) + IdSet(taken[..Admitted(taken)])
        && r == if Admitted(taken) == |taken| then Ok(taken) else Err(TypeRequired)
      ensures completed == old(completed) && failed == old(failed)
    {
      var m := BatchSize(count, |pending|);
      ghost var taken := old(pending)[..m];
      var events: seq<Event> := [];
      var i := 0;
      while i < count && |pending| > 0
        invariant Valid()
        invariant 0 <= i <= m
        invariant events == old(pending)[..i] && pending == old(pending)[i..]
        invariant forall k :: 0 <= k < i ==> !Untyped(events[k])
        invariant processing == old(processing) + IdSet(events)
        invariant completed == old(completed) && failed == old(failed)
        decreases |pending|
      {
        var head := pending[0];
        assert pending[1..] == old(pending)[i + 1..];
        var d := Dequeue();
        assert taken[..i] == events && taken[i] == head;
        if d.Err? {
          FirstUntypedAt(taken, i);
          assert Admitted(taken) == i;
          return Err(d.error);
        }
        IdSetAppend(events, head);
        assert old(pending)[..i + 1] == events + [head];
        events := events + [head];
        i := i + 1;
      }
      assert events == taken;
      assert FirstUntyped(taken).None?;
      assert taken[..Admitted(taken)] == events;
      return Ok(events);
    }

    /** `markCompleted`: the id leaves `processing`; the event is looked up
        among the pending events, so an id that is no longer pending, as
        every dequeued id is, never reaches `completed`. */
    method MarkCompleted(eventId: string)
      modifies this
      ensures processing == old(processing) - {eventId}
      ensures eventId !in IdSet(pending) ==> completed == old(completed)
      ensures FindById(pending, eventId).Some? ==> completed == old(completed) + [FindById(pending, eventId).value]
      ensures pending == old(pending) && failed == old(failed)
    {
      processing := processing - {eventId};
      IdSetCarries(pending);
      var found := FindById(pending, eventId);
      if found.Some? {
        completed := completed + [found.value];
      }
    }

    /** `markFailed`: the id leaves `processing` and is recorded with its
        error, replacing an earlier error for the same id. */
    method MarkFailed(eventId: string, error: string)
      modifies this
      ensures processing == old(processing) - {eventId}
      ensures failed == old(failed)[eventId := error]
      ensures pending == old(pending) && completed == old(completed)
    {
      processing := processing - {eventId};
      failed := failed[eventId := error];
    }

    /** `retryFailed`: forgets every failed id, one at a time, and returns
        how many there were. The events themselves were never kept, so
        nothing goes back to `pending`. */
    method RetryFailed() returns (retried: nat)
      modifies this
      ensures failed == map[]
      ensures retried == |old(failed).Keys|
      ensures pending == old(pending) && processing == old(processing) && completed == old(completed)
    {
      retried := 0;
      while failed != map[]
        invariant failed.Keys <= old(failed).Keys
        invariant retried + |failed.Keys| == |old(failed).Keys|
        invariant pending == old(pending) && processing == old(processing) && completed == old(completed)
        decreases |failed.Keys|
      {
        var eventId :| eventId in failed;
        ghost var before := failed.Keys;
        failed := map k | k in failed && k != eventId :: failed[k];
        assert failed.Keys == before - {eventId};
        retried := retried + 1;
      }
    }

    /** `getStats`: the sizes of the four collections. */
    function Stats(): (stats: QueueStats)
      reads this
      ensures stats.pending == |pending| && stats.processing == |processing|
      ensures stats.completed == |completed| && stats.failed == |failed.Keys|
    {
      QueueStats(|pending|, |processing|, |completed|, |failed.Keys|)
    }

    /** `clear`: empties all four collections. */
    method Clear()
      modifies this
      ensures Valid()
      ensures pending == [] && processing == {} && completed == [] && failed == map[]
      ensures Stats() == QueueStats(0, 0, 0, 0)
    {
      pending := [];
      processing := {};
      completed := [];
      failed := map[];
    }
  }
}
