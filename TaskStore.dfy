/** The task model and in-memory task store of the task board server
    (javascript/frontend_backend_mismatch/server/models/task.js). A task
    object is a `Task` whose `update` changes its fields; the store keeps
    each task's record (what `toJSON` returns) in a map whose keys remember
    their insertion order, as a JavaScript `Map` does. The clock
    (`Date.now()` and `new Date().toISOString()`) is a parameter. */
module TaskApi {
  import opened Wrappers
  import opened Text

  /** The fields `toJSON` returns; `null` is `None`. */
  datatype TaskRecord = TaskRecord(
    taskId: string,
    userId: string,
    title: string,
    description: string,
    status: string,
    priority: string,
    dueDate: Option<string>,
    createdAt: string,
    updatedAt: string,
    tags: seq<string>,
    assigneeId: Option<string>)

  /** What the constructor receives; a missing property is `None`. */
  datatype TaskData = TaskData(
    taskId: Option<string>,
    userId: string,
    title: string,
    description: Option<string>,
    status: Option<string>,
    priority: Option<string>,
    dueDate: Option<string>,
    createdAt: Option<string>,
    updatedAt: Option<string>,
    tags: Option<seq<string>>,
    assigneeId: Option<string>)

  /** What `update` receives: `None` is `undefined`, so the field is left
      alone; `Some(None)` sets a nullable field to `null`. */
  datatype TaskPatch = TaskPatch(
    title: Option<string>,
    description: Option<string>,
    status: Option<string>,
    priority: Option<string>,
    dueDate: Option<Option<string>>,
    tags: Option<seq<string>>,
    assigneeId: Option<Option<string>>)

  /** `value || fallback` for a string property: a missing or empty string
      takes the fallback. */
  function OrElse(value: Option<string>, fallback: string): (r: string)
    ensures value.Some? && value.value != "" ==> r == value.value
    ensures value.None? || value.value == "" ==> r == fallback
  {
    if value.Some? && value.value != "" then value.value else fallback
  }

  /** `value || null` for a string property. */
  function OrNull(value: Option<string>): (r: Option<string>)
    ensures r.Some? <==> value.Some? && value.value != ""
    ensures r.Some? ==> r == value
  {
    if value.Some? && value.value != "" then value else None
  }

  /** `task_${Date.now()}`. */
  function GeneratedId(nowMs: nat): string {
    "task_" + NatToString(nowMs)
  }

  /** `new Task(data)` as a record: every missing or empty property takes
      its default. */
  function Created(data: TaskData, nowMs: nat, nowIso: string): (t: TaskRecord)
    ensures t.taskId == OrElse(data.taskId, GeneratedId(nowMs))
    ensures t.userId == data.userId && t.title == data.title
    ensures t.description == OrElse(data.description, "")
    ensures t.status == OrElse(data.status, "pending")
    ensures t.priority == OrElse(data.priority, "medium")
    ensures t.dueDate == OrNull(data.dueDate)
    ensures t.createdAt == OrElse(data.createdAt, nowIso)
    ensures t.updatedAt == OrElse(data.updatedAt, nowIso)
    ensures t.tags == (if data.tags.Some? then data.tags.value else [])
    ensures t.assigneeId == OrNull(data.assigneeId)
  {
    TaskRecord(
      OrElse(data.taskId, GeneratedId(nowMs)),
      data.userId,
      data.title,
      OrElse(data.description, ""),
      OrElse(data.status, "pending"),
      OrElse(data.priority, "medium"),
      OrNull(data.dueDate),
      OrElse(data.createdAt, nowIso),
      OrElse(data.updatedAt, nowIso),
      if data.tags.Some? then data.tags.value else [],
      OrNull(data.assigneeId))
  }

  /** A task built from only a user and a title: pending, of medium
      priority, with no description, tags, due date or assignee, and an id
      made from the clock. */
  lemma CreatedDefaults(userId: string, title: string, nowMs: nat, nowIso: string)
    ensures var t := Created(TaskData(None, userId, title, None, None, None, None, None, None, None, None), nowMs, nowIso);
      && t.taskId == GeneratedId(nowMs)
      && t.status == "pending" && t.priority == "medium" && t.description == ""
      && t.tags == [] && t.dueDate == None && t.assigneeId == None
      && t.createdAt == nowIso && t.updatedAt == nowIso
  {
  }

  /** `update(data)` as a function of the record: each defined property
      replaces its field, every other field stays, and `updated_at` becomes
      the current time. */
  function Updated(t: TaskRecord, patch: TaskPatch, nowIso: string): (r: TaskRecord)
    ensures r.taskId == t.taskId && r.userId == t.userId && r.createdAt == t.createdAt
    ensures r.updatedAt == nowIso
    ensures r.title == patch.title.GetOr(t.title)
    ensures r.description == patch.description.GetOr(t.description)
    ensures r.status == patch.status.GetOr(t.status)
    ensures r.priority == patch.priority.GetOr(t.priority)
    ensures r.dueDate == patch.dueDate.GetOr(t.dueDate)
    ensures r.tags == patch.tags.GetOr(t.tags)
    ensures r.assigneeId == patch.assigneeId.GetOr(t.assigneeId)
  {
    t.(title := patch.title.GetOr(t.title),
       description := patch.description.GetOr(t.description),
       status := patch.status.GetOr(t.status),
       priority := patch.priority.GetOr(t.priority),
       dueDate := patch.dueDate.GetOr(t.dueDate),
       tags := patch.tags.GetOr(t.tags),
       assigneeId := patch.assigneeId.GetOr(t.assigneeId),
       updatedAt := nowIso)
  }

  /** An empty patch only touches the timestamp, and applying the same
      patch twice at the same time is the same as applying it once. */
  lemma UpdateProperties(t: TaskRecord, patch: TaskPatch, nowIso: string)
    ensures Updated(t, TaskPatch(None, None, None, None, None, None, None), nowIso) == t.(updatedAt := nowIso)
    ensures Updated(Updated(t, patch, nowIso), patch, nowIso) == Updated(t, patch, nowIso)
  {
  }

  /** `Task.validStatuses`. */
  const ValidStatuses: seq<string> := ["pending", "in_progress", "completed", "cancelled"]

  /** `Task.validPriorities`. */
  const ValidPriorities: seq<string> := ["low", "medium", "high", "urgent"]

  /** `isValidStatus(status)`. */
  function IsValidStatus(status: string): (ok: bool)
    ensures ok <==> status in ValidStatuses
  {
    status == "pending" || status == "in_progress" || status == "completed" || status == "cancelled"
  }

  /** The default status and priority are among the valid ones. */
  lemma DefaultsAreValid()
    ensures IsValidStatus("pending") && "medium" in ValidPriorities
  {
  }

  class Task {
    var taskId: string
    var userId: string
    var title: string
    var description: string
    var status: string
    var priority: string
    var dueDate: Option<string>
    var createdAt: string
    var updatedAt: string
    var tags: seq<string>
    var assigneeId: Option<string>

    /** `toJSON()`. */
    function ToJson(): (r: TaskRecord)
      reads this
      ensures r.taskId == taskId && r.userId == userId && r.status == status && r.updatedAt == updatedAt
    {
      TaskRecord(taskId, userId, title, description, status, priority, dueDate, createdAt, updatedAt, tags, assigneeId)
    }

    /** `new Task(data)`. */
    constructor(data: TaskData, nowMs: nat, nowIso: string)
      ensures ToJson() == Created(data, nowMs, nowIso)
    {
      taskId := OrElse(data.taskId, GeneratedId(nowMs));
      userId := data.userId;
      title := data.title;
      description := OrElse(data.description, "");
      status := OrElse(data.status, "pending");
      priority := OrElse(data.priority, "medium");
      dueDate := OrNull(data.dueDate);
      createdAt := OrElse(data.createdAt, nowIso);
      updatedAt := OrElse(data.updatedAt, nowIso);
      tags := if data.tags.Some? then data.tags.value else [];
      assigneeId := OrNull(data.assigneeId);
    }

    /** `update(data)`: field by field, each defined property is copied
        (an undefined one leaves the field as it is); then the update time
        is set. */
    method Update(patch: TaskPatch, nowIso: string)
      modifies this
      ensures ToJson() == Updated(old(ToJson()), patch, nowIso)
    {
      title := patch.title.GetOr(title);
      description := patch.description.GetOr(description);
      status := patch.status.GetOr(status);
      priority := patch.priority.GetOr(priority);
      dueDate := patch.dueDate.GetOr(dueDate);
      tags := patch.tags.GetOr(tags);
      assigneeId := patch.assigneeId.GetOr(assigneeId);
      updatedAt := nowIso;
    }
  }

  // ----- listing -----

  /** The UTF-16 code units of one character: itself below U+10000,
      otherwise a high and a low surrogate. */
  function CharUnits(c: char): (units: seq<int>)
    ensures 1 <= |units| <= 2
    ensures |units| == 1 <==> (c as int) < 0x1_0000
    ensures |units| == 1 ==> units[0] == c as int
    ensures |units| == 2 ==> 0xD800 <= units[0] < 0xDC00 && 0xDC00 <= units[1] < 0xE000
    ensures |units| == 2 ==> (c as int) == 0x1_0000 + (units[0] - 0xD800) * 0x400 + (units[1] - 0xDC00)
  {
    var n := c as int;
    if n < 0x1_0000 then [n]
    else [0xD800 + (n - 0x1_0000) / 0x400, 0xDC00 + (n - 0x1_0000) % 0x400]
  }

  /** A JavaScript string: the sequence of UTF-16 code units a Dafny
      string of code points encodes to. */
  function Utf16(s: string): (units: seq<int>)
    ensures |s| <= |units| <= 2 * |s|
  {
    if s == [] then [] else CharUnits(s[0]) + Utf16(s[1..])
  }

  /** Distinct strings have distinct encodings: the code units decode
      back to the characters. */
  lemma {:induction false} Utf16Injective(a: string, b: string)
    requires Utf16(a) == Utf16(b)
    ensures a == b
    decreases |a|
  {
    if a != [] && b != [] {
      var ua, ub := CharUnits(a[0]), CharUnits(b[0]);
      assert Utf16(a) == ua + Utf16(a[1..]) && Utf16(b) == ub + Utf16(b[1..]);
      assert ua[0] == Utf16(a)[0] == ub[0];
      if |ua| == 2 {
        assert |ub| == 2;
        assert ua[1] == Utf16(a)[1] == ub[1];
      } else {
        assert |ub| == 1;
      }
      assert a[0] == b[0];
      assert Utf16(a[1..]) == Utf16(a)[|ua|..] == Utf16(b)[|ub|..] == Utf16(b[1..]);
      Utf16Injective(a[1..], b[1..]);
      assert a == [a[0]] + a[1..] && b == [b[0]] + b[1..];
    }
  }

  /** The lexicographic order on code units: at the first difference the
      smaller unit goes first, and a proper prefix goes first. */
  predicate UnitsLess(a: seq<int>, b: seq<int>) {
    if a == [] then b != []
    else if b == [] then false
    else if a[0] != b[0] then a[0] < b[0]
    else UnitsLess(a[1..], b[1..])
  }

  lemma {:induction false} UnitsLessTransitive(a: seq<int>, b: seq<int>, c: seq<int>)
    requires UnitsLess(a, b) && UnitsLess(b, c)
    ensures UnitsLess(a, c)
    decreases |a|
  {
    if a != [] && a[0] == b[0] && b[0] == c[0] {
      UnitsLessTransitive(a[1..], b[1..], c[1..]);
    }
  }

  lemma {:induction false} UnitsLessTotal(a: seq<int>, b: seq<int>)
    ensures a == b || UnitsLess(a, b) || UnitsLess(b, a)
    decreases |a|
  {
    if a != [] && b != [] && a[0] == b[0] {
      UnitsLessTotal(a[1..], b[1..]);
      assert a[1..] == b[1..] ==> a == [a[0]] + a[1..] == [b[0]] + b[1..] == b;
    }
  }

  /** JavaScript's `<` on strings: their UTF-16 code units compared in
      order, a proper prefix first. A character above U+FFFF compares by
      its high surrogate, so it sorts below U+E000-U+FFFF. */
  predicate Less(a: string, b: string) {
    UnitsLess(Utf16(a), Utf16(b))
  }

  lemma {:induction false} LessIrreflexive(a: string)
    ensures !Less(a, a)
  {
    UnitsLessIrreflexive(Utf16(a));
  }

  lemma {:induction false} UnitsLessIrreflexive(a: seq<int>)
    ensures !UnitsLess(a, a)
    decreases |a|
  {
    if a != [] {
      UnitsLessIrreflexive(a[1..]);
    }
  }

  lemma {:induction false} LessAsymmetric(a: string, b: string)
    ensures Less(a, b) ==> !Less(b, a)
  {
    if Less(a, b) && Less(b, a) {
      UnitsLessTransitive(Utf16(a), Utf16(b), Utf16(a));
      UnitsLessIrreflexive(Utf16(a));
    }
  }

  /** `<` is a strict total order on strings: of two different strings,
      exactly one sorts first. */
  lemma LessTotal(a: string, b: string)
    ensures a != b <==> Less(a, b) || Less(b, a)
  {
    UnitsLessTotal(Utf16(a), Utf16(b));
    if Utf16(a) == Utf16(b) {
      Utf16Injective(a, b);
    }
    LessIrreflexive(a);
  }

  lemma LessTransitive(a: string, b: string, c: string)
    requires Less(a, b) && Less(b, c)
    ensures Less(a, c)
  {
    UnitsLessTransitive(Utf16(a), Utf16(b), Utf16(c));
  }

  /** Code units, not code points: U+1F600 (surrogates D83D DE00) sorts
      before the fullwidth exclamation mark U+FF01, although its code point
      is the larger; a plain ASCII comparison is unaffected. */
  lemma SurrogateOrder()
    ensures Less("\U{1F600}", "\U{FF01}") && !Less("\U{FF01}", "\U{1F600}")
    ensures Less("ab", "b") && Less("a", "ab")
  {
    assert Utf16("\U{1F600}") == [0xD83D, 0xDE00];
    assert Utf16("\U{FF01}") == [0xFF01];
    assert Utf16("ab") == [0x61, 0x62] && Utf16("b") == [0x62] && Utf16("a") == [0x61];
  }

  /** The property named by `options.sortBy`; a property the record does
      not have reads as `undefined` on both sides, so every pair compares
      equal. */
  datatype SortField = ByTaskId | ByTitle | ByDescription | ByStatus | ByPriority | ByCreatedAt | ByUpdatedAt | ByMissing

  function FieldValue(t: TaskRecord, field: SortField): string {
    match field
    case ByTaskId => t.taskId
    case ByTitle => t.title
    case ByDescription => t.description
    case ByStatus => t.status
    case ByPriority => t.priority
    case ByCreatedAt => t.createdAt
    case ByUpdatedAt => t.updatedAt
    case ByMissing => ""
  }

  /** The comparator returns a negative number: `a` goes before `b`. */
  predicate Before(a: TaskRecord, b: TaskRecord, field: SortField, ascending: bool) {
    if ascending then Less(FieldValue(a, field), FieldValue(b, field))
    else Less(FieldValue(b, field), FieldValue(a, field))
  }

  /** Places `x` after the leading records it does not go before. */
  function InsertRecord(x: TaskRecord, s: seq<TaskRecord>, field: SortField, ascending: bool): (r: seq<TaskRecord>)
    ensures |r| == |s| + 1 && multiset(r) == multiset(s) + multiset{x}
    ensures r[0] == x || (s != [] && r[0] == s[0])
  {
    if s == [] || Before(x, s[0], field, ascending) then [x] + s
    else
      var rest := InsertRecord(x, s[1..], field, ascending);
      assert s == [s[0]] + s[1..];
      [s[0]] + rest
  }

  /** The stable sort `Array.prototype.sort` performs with the comparator
      (stability is `SortRecordsStable`). */
  function SortRecords(s: seq<TaskRecord>, field: SortField, ascending: bool): (r: seq<TaskRecord>)
    ensures multiset(r) == multiset(s)
  {
    if s == [] then []
    else
      var init := s[..|s| - 1];
      assert s == init + [s[|s| - 1]];
      InsertRecord(s[|s| - 1], SortRecords(init, field, ascending), field, ascending)
  }

  lemma BeforeAsymmetric(a: TaskRecord, b: TaskRecord, field: SortField, ascending: bool)
    ensures Before(a, b, field, ascending) ==> !Before(b, a, field, ascending)
  {
    LessAsymmetric(FieldValue(a, field), FieldValue(b, field));
    LessAsymmetric(FieldValue(b, field), FieldValue(a, field));
  }

  /** No neighbour goes before its predecessor. */
  predicate InOrder(s: seq<TaskRecord>, field: SortField, ascending: bool) {
    forall i :: 0 < i < |s| ==> !Before(s[i], s[i - 1], field, ascending)
  }

  lemma {:induction false} InsertInOrder(x: TaskRecord, s: seq<TaskRecord>, field: SortField, ascending: bool)
    requires InOrder(s, field, ascending)
    ensures InOrder(InsertRecord(x, s, field, ascending), field, ascending)
    decreases |s|
  {
    if s == [] {
    } else if Before(x, s[0], field, ascending) {
      var r := [x] + s;
      BeforeAsymmetric(x, s[0], field, ascending);
      forall i | 0 < i < |r| ensures !Before(r[i], r[i - 1], field, ascending) {
        if i > 1 {
          assert r[i] == s[i - 1] && r[i - 1] == s[i - 2];
        }
      }
    } else {
      var rest := InsertRecord(x, s[1..], field, ascending);
      InsertInOrder(x, s[1..], field, ascending);
      var r := [s[0]] + rest;
      forall i | 0 < i < |r| ensures !Before(r[i], r[i - 1], field, ascending) {
        if i == 1 {
          if rest[0] != x {
            assert rest[0] == s[1];
          }
        } else {
          assert r[i] == rest[i - 1] && r[i - 1] == rest[i - 2];
        }
      }
    }
  }

  /** The sort returns the same records, with no neighbour out of order. */
  lemma {:induction false} SortRecordsInOrder(s: seq<TaskRecord>, field: SortField, ascending: bool)
    ensures InOrder(SortRecords(s, field, ascending), field, ascending)
    decreases |s|
  {
    if s != [] {
      SortRecordsInOrder(s[..|s| - 1], field, ascending);
      InsertInOrder(s[|s| - 1], SortRecords(s[..|s| - 1], field, ascending), field, ascending);
    }
  }

  /** The elements `keep` accepts, in their order. */
  function Filter<T>(s: seq<T>, keep: T -> bool): (r: seq<T>)
    ensures |r| <= |s|
  {
    if s == [] then []
    else (if keep(s[0]) then [s[0]] else []) + Filter(s[1..], keep)
  }

  lemma FilterCons<T>(x: T, t: seq<T>, keep: T -> bool)
    ensures Filter([x] + t, keep) == (if keep(x) then [x] else []) + Filter(t, keep)
  {
    assert ([x] + t)[0] == x && ([x] + t)[1..] == t;
  }

  lemma {:induction false} FilterAppend<T>(a: seq<T>, b: seq<T>, keep: T -> bool)
    ensures Filter(a + b, keep) == Filter(a, keep) + Filter(b, keep)
    decreases |a|
  {
    if a != [] {
      FilterAppend(a[1..], b, keep);
      assert (a + b)[1..] == a[1..] + b;
    } else {
      assert a + b == b;
    }
  }

  lemma HeadTail<T>(s: seq<T>)
    requires s != []
    ensures s == [s[0]] + s[1..]
  {
  }

  lemma ConcatAssociative<T>(a: seq<T>, b: seq<T>, c: seq<T>)
    ensures a + (b + c) == (a + b) + c
  {
  }

  /** The records whose sort field holds `v`: those the comparator ties
      with each other. */
  function Tied(field: SortField, v: string): TaskRecord -> bool {
    t => FieldValue(t, field) == v
  }

  lemma InOrderTail(s: seq<TaskRecord>, field: SortField, ascending: bool)
    requires s != [] && InOrder(s, field, ascending)
    ensures InOrder(s[1..], field, ascending)
  {
    forall i | 0 < i < |s[1..]| ensures !Before(s[1..][i], s[1..][i - 1], field, ascending) {
      assert s[1..][i] == s[i + 1] && s[1..][i - 1] == s[i];
    }
  }

  /** A record that goes before `a` goes before every record not before
      `a`. */
  lemma BeforeChain(x: TaskRecord, a: TaskRecord, b: TaskRecord, field: SortField, ascending: bool)
    requires Before(x, a, field, ascending) && !Before(b, a, field, ascending)
    ensures Before(x, b, field, ascending)
  {
    var vx, va, vb := FieldValue(x, field), FieldValue(a, field), FieldValue(b, field);
    LessTotal(va, vb);
    if ascending {
      if va != vb {
        LessTransitive(vx, va, vb);
      }
    } else {
      if va != vb {
        LessTransitive(vb, va, vx);
      }
    }
  }

  /** In an ordered list, nothing ties with a record that goes before its
      head. */
  lemma {:induction false} NoneTiedAfter(x: TaskRecord, s: seq<TaskRecord>, field: SortField, ascending: bool)
    requires s != [] && InOrder(s, field, ascending) && Before(x, s[0], field, ascending)
    ensures Filter(s, Tied(field, FieldValue(x, field))) == []
    decreases |s|
  {
    LessIrreflexive(FieldValue(x, field));
    if |s| > 1 {
      assert !Before(s[1], s[0], field, ascending);
      BeforeChain(x, s[0], s[1], field, ascending);
      InOrderTail(s, field, ascending);
      NoneTiedAfter(x, s[1..], field, ascending);
    }
  }

  /** Inserting into an ordered list puts the record after the records
      it ties with. */
  lemma {:induction false} InsertStable(x: TaskRecord, s: seq<TaskRecord>, field: SortField, ascending: bool, v: string)
    requires InOrder(s, field, ascending)
    ensures Filter(InsertRecord(x, s, field, ascending), Tied(field, v))
         == Filter(s, Tied(field, v)) + (if FieldValue(x, field) == v then [x] else [])
    decreases |s|
  {
    var keep, e := Tied(field, v), if FieldValue(x, field) == v then [x] else [];
    if s == [] {
      assert InsertRecord(x, s, field, ascending) == [x] + [];
      FilterCons(x, [], keep);
    } else if Before(x, s[0], field, ascending) {
      assert InsertRecord(x, s, field, ascending) == [x] + s;
      if FieldValue(x, field) == v {
        NoneTiedAfter(x, s, field, ascending);
      }
      FilterCons(x, s, keep);
    } else {
      var rest := InsertRecord(x, s[1..], field, ascending);
      assert InsertRecord(x, s, field, ascending) == [s[0]] + rest;
      InOrderTail(s, field, ascending);
      InsertStable(x, s[1..], field, ascending, v);
      var h := if keep(s[0]) then [s[0]] else [];
      FilterCons(s[0], rest, keep);
      FilterCons(s[0], s[1..], keep);
      HeadTail(s);
      ConcatAssociative(h, Filter(s[1..], keep), e);
    }
  }

  /** `Array.prototype.sort` is stable: the records the comparator ties
      keep their relative order. */
  lemma {:induction false} SortRecordsStable(s: seq<TaskRecord>, field: SortField, ascending: bool, v: string)
    ensures Filter(SortRecords(s, field, ascending), Tied(field, v)) == Filter(s, Tied(field, v))
    decreases |s|
  {
    if s != [] {
      var init, last := s[..|s| - 1], s[|s| - 1];
      SortRecordsStable(init, field, ascending, v);
      SortRecordsInOrder(init, field, ascending);
      InsertStable(last, SortRecords(init, field, ascending), field, ascending, v);
      FilterAppend(init, [last], Tied(field, v));
      assert s == init + [last];
      FilterCons(last, [], Tied(field, v));
      assert [last] + [] == [last];
    }
  }

  /** Sorting by a missing property changes nothing. */
  lemma {:induction false} SortByMissingKeepsOrder(s: seq<TaskRecord>, ascending: bool)
    ensures SortRecords(s, ByMissing, ascending) == s
    decreases |s|
  {
    if s != [] {
      var init := s[..|s| - 1];
      var last := s[|s| - 1];
      assert s == init + [last];
      SortByMissingKeepsOrder(init, ascending);
      NoneBeforeMissing(last, init, ascending);
    }
  }

  lemma {:induction false} NoneBeforeMissing(x: TaskRecord, s: seq<TaskRecord>, ascending: bool)
    ensures InsertRecord(x, s, ByMissing, ascending) == s + [x]
    decreases |s|
  {
    LessIrreflexive("");
    if s != [] {
      NoneBeforeMissing(x, s[1..], ascending);
      assert s == [s[0]] + s[1..];
    }
  }

  /** `Array.prototype.slice(start, end)`: a negative bound counts from the
      end, and every bound is clamped to the sequence. */
  function SliceIndex(i: int, length: nat): (k: nat)
    ensures k <= length
    ensures 0 <= i <= length ==> k == i
  {
    if i < 0 then (if length + i < 0 then 0 else length + i)
    else if i > length then length
    else i
  }

  function JsSlice<T>(s: seq<T>, start: int, end: int): (r: seq<T>)
    ensures |r| <= |s|
    ensures 0 <= start <= end <= |s| ==> r == s[start..end]
  {
    var lo, hi := SliceIndex(start, |s|), SliceIndex(end, |s|);
    if lo < hi then s[lo..hi] else []
  }

  /** The filtering and sorting options of `findByUserId`; a missing or
      falsy option is `None`, and `ascending` is `sortOrder === 'asc'`. */
  datatype Filters = Filters(
    status: Option<string>,
    priority: Option<string>,
    sortBy: Option<SortField>,
    ascending: bool)

  /** All options of `findByUserId`. */
  datatype FindOptions = FindOptions(filters: Filters, page: Option<int>, limit: Option<int>)

  datatype FindResult = FindResult(tasks: seq<TaskRecord>, total: nat, page: int, limit: int)

  /** `options.page || 1` and `options.limit || 10`. */
  function PageOf(options: FindOptions): int {
    if options.page.Some? && options.page.value != 0 then options.page.value else 1
  }

  function LimitOf(options: FindOptions): int {
    if options.limit.Some? && options.limit.value != 0 then options.limit.value else 10
  }

  /** `.filter(t => t.user_id === userId)` and the optional status and
      priority filters. */
  function Matching(s: seq<TaskRecord>, userId: string, filters: Filters): (r: seq<TaskRecord>)
    ensures |r| <= |s|
    ensures forall t :: t in r <==> t in s && Matches(t, userId, filters)
  {
    if s == [] then []
    else
      var head := if Matches(s[0], userId, filters) then [s[0]] else [];
      head + Matching(s[1..], userId, filters)
  }

  predicate Matches(t: TaskRecord, userId: string, filters: Filters) {
    && t.userId == userId
    && (filters.status.None? || filters.status.value == "" || t.status == filters.status.value)
    && (filters.priority.None? || filters.priority.value == "" || t.priority == filters.priority.value)
  }

  /** The filtered records, sorted when `sortBy` is given. */
  function Listed(s: seq<TaskRecord>, userId: string, filters: Filters): (r: seq<TaskRecord>)
    ensures multiset(r) == multiset(Matching(s, userId, filters))
  {
    var filtered := Matching(s, userId, filters);
    if filters.sortBy.Some? then SortRecords(filtered, filters.sortBy.value, filters.ascending) else filtered
  }

  /** `findByUserId(userId, options)` over the records in store order: the
      page `[start, start + limit)` of the listed records with
      `start = (page - 1) * limit`, and the count of all listed records. */
  function FindByUser(s: seq<TaskRecord>, userId: string, options: FindOptions): (r: FindResult)
    ensures r.total == |Listed(s, userId, options.filters)|
    ensures r.page == PageOf(options) && r.limit == LimitOf(options)
  {
    var listed := Listed(s, userId, options.filters);
    var page, limit := PageOf(options), LimitOf(options);
    var start := (page - 1) * limit;
    FindResult(JsSlice(listed, start, start + limit), |listed|, page, limit)
  }

  lemma PageBounds(page: int, limit: int)
    requires page >= 1 && limit >= 1
    ensures 0 <= (page - 1) * limit
    ensures (page - 1) * limit + limit == page * limit
  {
  }

  /** Every returned record is one of the store's, belongs to the user
      and passes the filters. */
  lemma FindByUserMembers(s: seq<TaskRecord>, userId: string, options: FindOptions)
    ensures forall t :: t in FindByUser(s, userId, options).tasks ==> t in s && Matches(t, userId, options.filters)
  {
    var listed := Listed(s, userId, options.filters);
    var matching := Matching(s, userId, options.filters);
    var page, limit := PageOf(options), LimitOf(options);
    var start := (page - 1) * limit;
    var tasks := JsSlice(listed, start, start + limit);
    assert FindByUser(s, userId, options).tasks == tasks;
    forall t | t in tasks ensures t in s && Matches(t, userId, options.filters) {
      SliceMember(listed, start, start + limit, t);
      assert t in multiset(listed);
      assert t in multiset(matching);
      assert t in matching;
    }
  }

  /** An element of a slice is an element of the sliced sequence. */
  lemma SliceMember<T>(s: seq<T>, start: int, end: int, x: T)
    requires x in JsSlice(s, start, end)
    ensures x in s
  {
    var lo, hi := SliceIndex(start, |s|), SliceIndex(end, |s|);
    var k :| 0 <= k < |JsSlice(s, start, end)| && JsSlice(s, start, end)[k] == x;
    assert s[lo + k] == x;
  }

  /** The total counts every record of the user that passes the filters,
      whatever the page asked for. */
  lemma FindByUserTotal(s: seq<TaskRecord>, userId: string, options: FindOptions)
    ensures FindByUser(s, userId, options).total == |Matching(s, userId, options.filters)|
    ensures forall p :: FindByUser(s, userId, options.(page := p)).total == FindByUser(s, userId, options).total
  {
    var listed := Listed(s, userId, options.filters);
    assert |listed| == |multiset(listed)|;
  }

  /** For a positive page and limit the page is the slice
      `[(page - 1) * limit, page * limit)` of the listed records, cut at
      their end. */
  lemma FindByUserPage(s: seq<TaskRecord>, userId: string, options: FindOptions)
    requires PageOf(options) >= 1 && LimitOf(options) >= 1
    ensures var page, limit := PageOf(options), LimitOf(options);
      var listed := Listed(s, userId, options.filters);
      0 <= (page - 1) * limit <= page * limit <= |listed| ==>
        FindByUser(s, userId, options).tasks == listed[(page - 1) * limit..page * limit]
    ensures var page, limit := PageOf(options), LimitOf(options);
      var listed := Listed(s, userId, options.filters);
      0 <= (page - 1) * limit <= |listed| < page * limit ==>
        FindByUser(s, userId, options).tasks == listed[(page - 1) * limit..]
  {
    PageBounds(PageOf(options), LimitOf(options));
  }

  /** Without a sort the listing keeps the store order, so the first page
      is the user's first `limit` records. */
  lemma UnsortedFirstPage(s: seq<TaskRecord>, userId: string, limit: nat)
    requires 1 <= limit <= |Matching(s, userId, Filters(None, None, None, false))|
    ensures var options := FindOptions(Filters(None, None, None, false), None, Some(limit));
      FindByUser(s, userId, options).tasks == Matching(s, userId, options.filters)[..limit]
  {
  }

  /** `TaskStore.seed`'s sample tasks, without the user. */
  const Samples: seq<TaskData> := [
    TaskData(None, "", "Review project proposal", Some("Check the Q4 project proposal document"), Some("pending"), Some("high"), None, None, None, None, None),
    TaskData(None, "", "Update documentation", Some("Update API docs with new endpoints"), Some("in_progress"), Some("medium"), None, None, None, None, None),
    TaskData(None, "", "Fix login bug", Some("Users reporting issues with OAuth"), Some("pending"), Some("urgent"), None, None, None, None, None),
    TaskData(None, "", "Team meeting notes", Some("Write up notes from standup"), Some("completed"), Some("low"), None, None, None, None, None)
  ]

  /** Sample `i` for the user: it carries no id of its own. */
  function SampleFor(i: nat, userId: string): (data: TaskData)
    requires i < |Samples|
    ensures data.taskId == None && data.userId == userId
  {
    Samples[i].(userId := userId)
  }

  /** No key occurs twice. */
  predicate Distinct(s: seq<string>) {
    forall i, j :: 0 <= i < j < |s| ==> s[i] != s[j]
  }

  /** `s` without the key `x`, the rest in their order. */
  function Removed(s: seq<string>, x: string): (r: seq<string>)
    ensures forall y :: y in r <==> y in s && y != x
  {
    if s == [] then []
    else if s[0] == x then Removed(s[1..], x)
    else [s[0]] + Removed(s[1..], x)
  }

  /** Removing a key from a list of distinct keys leaves distinct keys. */
  lemma {:induction false} RemovedKeepsDistinct(s: seq<string>, x: string)
    requires Distinct(s)
    ensures Distinct(Removed(s, x))
  {
    if s != [] {
      RemovedKeepsDistinct(s[1..], x);
      var rest := Removed(s[1..], x);
      if s[0] == x {
        assert Removed(s, x) == rest;
      } else {
        assert s[0] !in s[1..];
        var r := [s[0]] + rest;
        assert Removed(s, x) == r;
        forall i, j | 0 <= i < j < |r| ensures r[i] != r[j] {
          if i == 0 {
            assert r[j] == rest[j - 1] && rest[j - 1] in rest;
          } else {
            assert r[i] == rest[i - 1] && r[j] == rest[j - 1];
          }
        }
      }
    }
  }

  /** The in-memory store: `tasks`, a map from id to task object whose
      keys keep their insertion order in `order`. */
  class TaskStore {
    var tasks: map<string, Task>
    var order: seq<string>

    /** `order` lists each key once and every task sits under its own id
        (so no task object is stored under two ids). */
    ghost predicate Valid()
      reads this, tasks.Values
    {
      && Distinct(order)
      && (forall id :: id in tasks <==> id in order)
      && (forall id :: id in tasks ==> tasks[id].taskId == id)
    }

    constructor()
      ensures Valid() && tasks == map[] && order == []
    {
      tasks := map[];
      order := [];
    }

    /** The record of every stored task, by id. */
    function Records(): (records: map<string, TaskRecord>)
      reads this, tasks.Values
      ensures records.Keys == tasks.Keys
    {
      map id | id in tasks :: tasks[id].ToJson()
    }

    /** `Array.from(tasks.values())`, as records, in insertion order. */
    function Values(): (values: seq<TaskRecord>)
      reads this, tasks.Values
      requires Valid()
      ensures |values| == |order|
      ensures forall i :: 0 <= i < |order| ==> values[i] == Records()[order[i]]
    {
      seq(|order|, i requires 0 <= i < |order| && order[i] in tasks reads this, tasks.Values => tasks[order[i]].ToJson())
    }

    /** `create(taskData)`: stores a new task under its id, replacing a
        task that already had that id (which keeps its place in the
        order). */
    method Create(data: TaskData, nowMs: nat, nowIso: string) returns (task: Task)
      requires Valid()
      modifies this
      ensures Valid() && fresh(task)
      ensures task.ToJson() == Created(data, nowMs, nowIso)
      ensures tasks == old(tasks)[task.taskId := task]
      ensures order == if task.taskId in old(tasks) then old(order) else old(order) + [task.taskId]
    {
      task := new Task(data, nowMs, nowIso);
      if task.taskId !in tasks {
        order := order + [task.taskId];
      }
      tasks := tasks[task.taskId := task];
    }

    /** `findById(taskId)`: the stored task, or null. */
    function FindById(taskId: string): (r: Option<Task>)
      reads this, tasks.Values
      requires Valid()
      ensures r.Some? <==> taskId in tasks
      ensures r.Some? ==> r.value.taskId == taskId && r.value.ToJson() == Records()[taskId]
    {
      if taskId in tasks then Some(tasks[taskId]) else None
    }

    /** `findByUserId(userId, options)`: only the user's stored tasks that
        pass the filters, and the count of all of them. */
    function FindByUserId(userId: string, options: FindOptions): (r: FindResult)
      reads this, tasks.Values
      requires Valid()
      ensures forall t :: t in r.tasks ==> t.taskId in tasks && Records()[t.taskId] == t && Matches(t, userId, options.filters)
      ensures r.total == |Matching(Values(), userId, options.filters)|
    {
      var values := Values();
      FindByUserMembers(values, userId, options);
      FindByUserTotal(values, userId, options);
      var r := FindByUser(values, userId, options);
      assert forall t :: t in values ==> t.taskId in tasks && Records()[t.taskId] == t;
      r
    }

    /** `update(taskId, data)`: null for an unknown id; otherwise the
        stored task itself is updated and returned. */
    method Update(taskId: string, patch: TaskPatch, nowIso: string) returns (r: Option<Task>)
      requires Valid()
      modifies tasks.Values
      ensures Valid() && tasks == old(tasks) && order == old(order)
      ensures taskId !in tasks ==> r == None && Records() == old(Records())
      ensures taskId in tasks ==>
        && r == Some(tasks[taskId])
        && Records() == old(Records())[taskId := Updated(old(Records())[taskId], patch, nowIso)]
    {
      if taskId !in tasks {
        return None;
      }
      var task := tasks[taskId];
      task.Update(patch, nowIso);
      forall id | id in tasks && id != taskId ensures tasks[id].ToJson() == old(tasks[id].ToJson()) {
        assert old(tasks[id].taskId) == id;
        assert tasks[id] != task;
      }
      return Some(task);
    }

    /** `delete(taskId)`: whether the id was stored; it no longer is. */
    method Delete(taskId: string) returns (existed: bool)
      requires Valid()
      modifies this
      ensures Valid()
      ensures existed <==> taskId in old(tasks)
      ensures tasks == old(tasks) - {taskId}
      ensures order == Removed(old(order), taskId)
    {
      existed := taskId in tasks;
      RemovedKeepsDistinct(order, taskId);
      tasks := tasks - {taskId};
      order := Removed(order, taskId);
    }

    /** `seed(userId)`: creates the four sample tasks for the user, one
        after the other, each with the clock reading of its creation. The
        generated ids are the readings, so samples created within the same
        millisecond overwrite each other. */
    method Seed(userId: string, times: seq<nat>, nowIso: string)
      requires Valid() && |times| == |Samples|
      modifies this
      ensures Valid()
      ensures tasks.Keys == old(tasks).Keys + set i | 0 <= i < |times| :: GeneratedId(times[i])
      ensures forall id :: id in IdsOf(times) ==> id in tasks && tasks[id].userId == userId
      ensures forall id :: id in IdsOf(times) ==> tasks[id].ToJson() == SeededRecords(times, userId, nowIso)[id]
      ensures forall id :: id in old(tasks) && id !in IdsOf(times) ==>
                id in tasks && tasks[id] == old(tasks)[id] && tasks[id].ToJson() == old(tasks[id].ToJson())
      ensures order == SeededOrder(old(order), times)
    {
      ghost var done: seq<nat> := [];
      for i := 0 to |Samples|
        invariant done == times[..i]
        invariant Valid()
        invariant tasks.Keys == old(tasks).Keys + IdsOf(done)
        invariant forall id :: id in IdsOf(done) ==>
                    tasks[id].userId == userId && tasks[id].ToJson() == SeededRecords(done, userId, nowIso)[id]
        invariant forall id :: id in old(tasks) && id !in IdsOf(done) ==> tasks[id] == old(tasks)[id]
        invariant order == SeededOrder(old(order), done)
      {
        SeedNext(userId, times, i, nowIso, old(tasks), old(order));
        done := times[..i + 1];
      }
      assert done == times;
      IdsOfIsSet(times);
    }

    /** One turn of `seed`'s loop: sample `i` is created with reading `times[i]`. */
    method SeedNext(userId: string, times: seq<nat>, i: nat, nowIso: string,
                    ghost t0: map<string, Task>, ghost o0: seq<string>)
      requires Valid() && i < |times| == |Samples|
      requires tasks.Keys == t0.Keys + IdsOf(times[..i])
      requires forall id :: id in IdsOf(times[..i]) ==>
                 tasks[id].userId == userId && tasks[id].ToJson() == SeededRecords(times[..i], userId, nowIso)[id]
      requires forall id :: id in t0 && id !in IdsOf(times[..i]) ==> tasks[id] == t0[id]
      requires order == SeededOrder(o0, times[..i])
      modifies this
      ensures Valid()
      ensures tasks.Keys == t0.Keys + IdsOf(times[..i + 1])
      ensures forall id :: id in IdsOf(times[..i + 1]) ==>
                tasks[id].userId == userId && tasks[id].ToJson() == SeededRecords(times[..i + 1], userId, nowIso)[id]
      ensures forall id :: id in t0 && id !in IdsOf(times[..i + 1]) ==> tasks[id] == t0[id]
      ensures order == SeededOrder(o0, times[..i + 1])
    {
      ghost var tasksBefore := tasks;
      ghost var orderBefore := order;
      var g := GeneratedId(times[i]);
      CreateSample(userId, times, i, nowIso);
      SeedStep(o0, times, i, userId, nowIso);
      SeedBookkeeping(t0.Keys, o0, times, i, tasksBefore.Keys, tasks.Keys, orderBefore, order);
      forall id | id in IdsOf(times[..i + 1])
        ensures tasks[id].userId == userId && tasks[id].ToJson() == SeededRecords(times[..i + 1], userId, nowIso)[id]
      {
        if id != g {
          assert tasks[id] == tasksBefore[id];
        }
      }
      forall id | id in t0 && id !in IdsOf(times[..i + 1]) ensures tasks[id] == t0[id] {
        assert id != g && id !in IdsOf(times[..i]);
      }
    }

    /** `this.create({ ...data, user_id: userId })` for sample `i`. */
    method CreateSample(userId: string, times: seq<nat>, i: nat, nowIso: string)
      requires Valid() && i < |times| == |Samples|
      modifies this
      ensures Valid()
      ensures tasks.Keys == old(tasks).Keys + {GeneratedId(times[i])}
      ensures tasks[GeneratedId(times[i])].userId == userId
      ensures tasks[GeneratedId(times[i])].ToJson() == Created(SampleFor(i, userId), times[i], nowIso)
      ensures forall id :: id in old(tasks) && id != GeneratedId(times[i]) ==>
                tasks[id] == old(tasks)[id] && tasks[id].ToJson() == old(tasks[id].ToJson())
      ensures order == if GeneratedId(times[i]) in old(order) then old(order) else old(order) + [GeneratedId(times[i])]
    {
      var task := Create(SampleFor(i, userId), times[i], nowIso);
      assert task.taskId == GeneratedId(times[i]);
    }
  }

  /** The records that `seed` leaves under the generated ids: sample `i`
      is created with the reading `times[i]`, and a later sample replaces
      an earlier one that got the same id. */
  function SeededRecords(times: seq<nat>, userId: string, nowIso: string): (m: map<string, TaskRecord>)
    requires |times| <= |Samples|
    ensures m.Keys == IdsOf(times)
    ensures forall id :: id in m ==> m[id].taskId == id && m[id].userId == userId
  {
    if times == [] then map[]
    else
      var k := |times| - 1;
      SeededRecords(times[..k], userId, nowIso)[GeneratedId(times[k]) := Created(SampleFor(k, userId), times[k], nowIso)]
  }

  /** The key order after `seed`: each generated id that is not yet
      stored goes to the end, in the order the ids were first generated. */
  function SeededOrder(order: seq<string>, times: seq<nat>): (r: seq<string>)
    ensures forall id :: id in r <==> id in order || id in IdsOf(times)
    ensures Distinct(order) ==> Distinct(r)
    ensures |r| >= |order| && r[..|order|] == order
  {
    if times == [] then order
    else
      var prev := SeededOrder(order, times[..|times| - 1]);
      var id := GeneratedId(times[|times| - 1]);
      if id in prev then prev else prev + [id]
  }

  /** One more sample: the stored keys and the key order stay those of
      the old store extended by the generated ids. */
  lemma SeedBookkeeping(t0Keys: set<string>, o0: seq<string>, times: seq<nat>, i: nat,
                        keysBefore: set<string>, keysAfter: set<string>, orderBefore: seq<string>, orderAfter: seq<string>)
    requires i < |times|
    requires keysBefore == t0Keys + IdsOf(times[..i]) && orderBefore == SeededOrder(o0, times[..i])
    requires keysAfter == keysBefore + {GeneratedId(times[i])}
    requires orderAfter == if GeneratedId(times[i]) in orderBefore then orderBefore else orderBefore + [GeneratedId(times[i])]
    ensures keysAfter == t0Keys + IdsOf(times[..i + 1])
    ensures orderAfter == SeededOrder(o0, times[..i + 1])
  {
    assert times[..i + 1][..i] == times[..i];
  }

  /** One more sample: how the seeded records and the order grow. */
  lemma SeedStep(order: seq<string>, times: seq<nat>, i: nat, userId: string, nowIso: string)
    requires i < |times| <= |Samples|
    ensures SeededRecords(times[..i + 1], userId, nowIso)
            == SeededRecords(times[..i], userId, nowIso)[GeneratedId(times[i]) := Created(SampleFor(i, userId), times[i], nowIso)]
    ensures var prev := SeededOrder(order, times[..i]);
            SeededOrder(order, times[..i + 1]) == if GeneratedId(times[i]) in prev then prev else prev + [GeneratedId(times[i])]
    ensures IdsOf(times[..i + 1]) == IdsOf(times[..i]) + {GeneratedId(times[i])}
  {
    assert times[..i + 1][..i] == times[..i];
  }

  /** The ids generated from the clock readings `times`. */
  function IdsOf(times: seq<nat>): set<string> {
    if times == [] then {} else IdsOf(times[..|times| - 1]) + {GeneratedId(times[|times| - 1])}
  }

  lemma IdsOfStep(times: seq<nat>, i: nat)
    requires i < |times|
    ensures IdsOf(times[..i + 1]) == IdsOf(times[..i]) + {GeneratedId(times[i])}
  {
    assert times[..i + 1][..i] == times[..i];
  }

  /** `IdsOf` is the set of the generated ids. */
  lemma {:induction false} IdsOfIsSet(times: seq<nat>)
    ensures IdsOf(times) == set i | 0 <= i < |times| :: GeneratedId(times[i])
  {
    if times != [] {
      var init := times[..|times| - 1];
      IdsOfIsSet(init);
      forall id | id in IdsOf(times) ensures id in set i | 0 <= i < |times| :: GeneratedId(times[i]) {
        if id in IdsOf(init) {
          var k :| 0 <= k < |init| && id == GeneratedId(init[k]);
          assert id == GeneratedId(times[k]);
        } else {
          assert id == GeneratedId(times[|times| - 1]);
        }
      }
      forall id | id in set i | 0 <= i < |times| :: GeneratedId(times[i]) ensures id in IdsOf(times) {
        var k :| 0 <= k < |times| && id == GeneratedId(times[k]);
        if k < |init| {
          assert id == GeneratedId(init[k]);
        }
      }
    }
  }

  /** Four samples seeded within one millisecond leave a single new task. */
  lemma SeedWithinOneMillisecond(old_keys: set<string>, ms: nat)
    ensures old_keys + (set i | 0 <= i < 4 :: GeneratedId([ms, ms, ms, ms][i])) == old_keys + {GeneratedId(ms)}
  {
    var times := [ms, ms, ms, ms];
    assert GeneratedId(times[0]) in (set i | 0 <= i < 4 :: GeneratedId(times[i]));
  }
}
