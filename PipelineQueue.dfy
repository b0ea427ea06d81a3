/** The pipeline's bounded data queue
    (python/hypothesis_debugging/pipeline/queue.py): a `deque` with a
    maximum length and a count of the items taken out. The lock only
    serialises the calls and is not modelled. */
module PipelineQueue {
  import opened Wrappers

  /** What a deque with `maxlen = n` keeps of `s`: its last `n` items. */
  function Bounded<T>(s: seq<T>, n: nat): (r: seq<T>)
    ensures |r| == if |s| <= n then |s| else n
    ensures r == s[|s| - |r|..]
  {
    if |s| <= n then s else s[|s| - n..]
  }

  /** Appending to a bounded deque and bounding again is the same as
      bounding once at the end: `extend` is `append` item by item. */
  lemma BoundedAppend<T>(s: seq<T>, t: seq<T>, n: nat)
    ensures Bounded(Bounded(s, n) + t, n) == Bounded(s + t, n)
  {
    var b := Bounded(s, n);
    var k := |s| - |b|;
    assert s == s[..k] + b;
    assert s + t == s[..k] + (b + t);
    var full := s + t;
    var r := Bounded(b + t, n);
    assert r == (b + t)[|b + t| - |r|..];
    assert (b + t)[|b + t| - |r|..] == full[|full| - |r|..];
  }

  /** How many items `get_batch(count)` takes from a queue of `size` items:
      `min(count, size)`, and none for a negative count. */
  function BatchSize(count: int, size: nat): (m: nat)
    ensures m <= size
    ensures count >= 0 ==> m == if count < size then count else size
    ensures count < 0 ==> m == 0
  {
    if count <= 0 then 0 else if count < size then count else size
  }

  class DataQueue<T> {
    var items: seq<T>
    var processed: nat
    const maxSize: nat

    /** The deque never holds more than its maximum length. */
    ghost predicate Valid()
      reads this
    {
      |items| <= maxSize
    }

    constructor(maxSize: nat)
      ensures Valid() && this.maxSize == maxSize && items == [] && processed == 0
    {
      this.maxSize := maxSize;
      items := [];
      processed := 0;
    }

    /** `put`: appends the item; a full queue drops its oldest item first. */
    method Put(item: T)
      requires Valid()
      modifies this
      ensures Valid() && processed == old(processed)
      ensures items == Bounded(old(items) + [item], maxSize)
      ensures |old(items)| < maxSize ==> items == old(items) + [item]
      ensures 0 < maxSize == |old(items)| ==> items == old(items)[1..] + [item]
    {
      items := Bounded(items + [item], maxSize);
    }

    /** `put_batch`: the same as putting the items one by one. */
    method PutBatch(batch: seq<T>)
      requires Valid()
      modifies this
      ensures Valid() && processed == old(processed)
      ensures items == Bounded(old(items) + batch, maxSize)
    {
      items := Bounded(items + batch, maxSize);
    }

    /** `get`: None on an empty queue; otherwise the oldest item, which is
        removed and counted. */
    method Get() returns (r: Option<T>)
      requires Valid()
      modifies this
      ensures Valid()
      ensures old(items) == [] ==> r == None && items == [] && processed == old(processed)
      ensures old(items) != [] ==> r == Some(old(items)[0]) && items == old(items)[1..] && processed == old(processed) + 1
    {
      if items != [] {
        var item := items[0];
        items := items[1..];
        processed := processed + 1;
        return Some(item);
      }
      return None;
    }

    /** `get_batch`: takes the `min(count, size)` oldest items, in order,
        and counts each of them. */
    method GetBatch(count: int) returns (batch: seq<T>)
      requires Valid()
      modifies this
      ensures Valid()
      ensures var m := BatchSize(count, |old(items)|);
        && batch == old(items)[..m] && items == old(items)[m..] && processed == old(processed) + m
    {
      var m := BatchSize(count, |items|);
      batch := [];
      for k := 0 to m
        invariant batch == old(items)[..k] && items == old(items)[k..]
        invariant processed == old(processed) + k
      {
        batch := batch + [items[0]];
        items := items[1..];
        processed := processed + 1;
      }
    }

    /** `size`. */
    function Size(): (n: nat)
      reads this
      requires Valid()
      ensures n == |items| && n <= maxSize
    {
      |items|
    }

    /** `processed_count`: the number of items taken out so far. */
    function ProcessedCount(): (n: nat)
      reads this
      ensures n == processed
    {
      processed
    }

    /** `clear`: empties the queue; the items dropped are not counted. */
    method Clear()
      requires Valid()
      modifies this
      ensures Valid() && items == [] && processed == old(processed)
    {
      items := [];
    }
  }
}
