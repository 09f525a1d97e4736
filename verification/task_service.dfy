/**
 * The task half of the front-end data service (src/lib/dataService.ts): the
 * conversions between the front-end task and the database row, and what the
 * task service does when the desktop backend is unavailable — the task list
 * then lives in browser storage, modelled here as a sequence held by an
 * object. Reading and writing that storage as JSON is left out; the stored
 * list is the object's field.
 */
module TaskService {
  import opened Wrappers
  import opened Text
  import LanGateway

  /** The front-end task (`LegacyTask`); the optional fields are `Option`s. */
  datatype LegacyTask = LegacyTask(
    id: string,
    title: string,
    description: string,
    status: string,
    priority: string,
    date: string,
    startTime: string,
    duration: real,
    tags: seq<string>,
    repeat: Option<string>,
    repeatDays: Option<seq<int>>,
    timerType: Option<string>,
    timerDuration: Option<int>)

  /** A task read from a markdown plan (`ImportedTask`). */
  datatype ImportedTask = ImportedTask(title: string, date: string, priority: string, tags: seq<string>, status: string)

  /** The database row (`Task`), shared with the backend. */
  type Task = LanGateway.Task

  const DefaultStart := "09:00"
  const DefaultDuration: real := 1.0
  const DefaultTimerMinutes := 25
  const NoRepeat := "none"

  // ---------------------------------------------------------------- conversions

  /** `text || fallback`: the empty string is falsy. */
  function TextOr(text: string, fallback: string): string {
    if text == "" then fallback else text
  }

  /** `option || fallback` on an optional string. */
  function OptionOr(o: Option<string>, fallback: string): string {
    if o.Some? then TextOr(o.value, fallback) else fallback
  }

  /** `number || fallback` for the hour count: zero is falsy. */
  function HoursOr(h: real, fallback: real): real {
    if h == 0.0 then fallback else h
  }

  /** `number || fallback` for the minute count: zero and absence are falsy. */
  function MinutesOr(m: Option<int>, fallback: int): int {
    if m.Some? && m.value != 0 then m.value else fallback
  }

  function NonEmpty(s: string): bool {
    s != ""
  }

  /** `legacyToDbTask`: defaults for the falsy fields, tags joined with commas, both stamps `now`. */
  function LegacyToDb(t: LegacyTask, now: string): Task {
    LanGateway.Task(
      t.id, t.title, TextOr(t.description, ""), t.status, t.priority, t.date,
      TextOr(t.startTime, DefaultStart), HoursOr(t.duration, DefaultDuration),
      Join(t.tags, ","), OptionOr(t.repeat, NoRepeat), OptionOr(t.timerType, NoRepeat),
      MinutesOr(t.timerDuration, DefaultTimerMinutes), now, now)
  }

  /** `dbToLegacyTask`: the comma list split with its empty pieces dropped; no repeat days. */
  function DbToLegacy(d: Task): LegacyTask {
    LegacyTask(
      d.id, d.title, d.description, d.status, d.priority, d.date, d.startTime, d.duration,
      if d.tags == "" then [] else Filter(Split(d.tags, ','), NonEmpty),
      Some(TextOr(d.repeatType, NoRepeat)), None, Some(TextOr(d.timerType, NoRepeat)),
      Some(if d.timerDuration == 0 then DefaultTimerMinutes else d.timerDuration))
  }

  /** A converted row never carries a falsy start, duration, repeat, timer type or timer length. */
  lemma LegacyToDbDefaults(t: LegacyTask, now: string)
    ensures LegacyToDb(t, now).startTime != "" && LegacyToDb(t, now).duration != 0.0
    ensures LegacyToDb(t, now).repeatType != "" && LegacyToDb(t, now).timerType != ""
    ensures LegacyToDb(t, now).timerDuration != 0
    ensures t.startTime == "" ==> LegacyToDb(t, now).startTime == DefaultStart
    ensures t.duration == 0.0 ==> LegacyToDb(t, now).duration == DefaultDuration
    ensures t.timerDuration.None? ==> LegacyToDb(t, now).timerDuration == DefaultTimerMinutes
    ensures t.repeat.None? ==> LegacyToDb(t, now).repeatType == NoRepeat
    ensures t.timerType.None? ==> LegacyToDb(t, now).timerType == NoRepeat
    ensures LegacyToDb(t, now).tags == Join(t.tags, ",")
    ensures LegacyToDb(t, now).createdAt == now && LegacyToDb(t, now).updatedAt == now
  {
  }

  /** Keeping only non-empty pieces of pieces that are all non-empty keeps them all. */
  lemma {:induction false} FilterNonEmptyIdle(parts: seq<string>)
    requires forall p :: p in parts ==> p != ""
    ensures Filter(parts, NonEmpty) == parts
  {
    if parts != [] {
      assert parts[0] in parts && forall p :: p in parts[1..] ==> p in parts;
      FilterNonEmptyIdle(parts[1..]);
      assert parts == [parts[0]] + parts[1..];
    }
  }

  /**
   * Tags without commas survive the round trip through the database row,
   * except the empty ones, which the split drops.
   */
  lemma TagsRoundTrip(tags: seq<string>)
    requires forall tag :: tag in tags ==> ',' !in tag
    ensures (if Join(tags, ",") == "" then [] else Filter(Split(Join(tags, ","), ','), NonEmpty)) == Filter(tags, NonEmpty)
  {
    if tags != [] {
      SplitJoin(tags, ',');
      if |tags| > 1 {
        assert Join(tags, ",") == tags[0] + "," + Join(tags[1..], ",");
      }
      if Join(tags, ",") == "" {
        assert tags == [""];
        assert Filter(tags, NonEmpty) == Filter(tags[1..], NonEmpty);
      }
    }
  }

  /**
   * `dbToLegacyTask(legacyToDbTask(t))` gives `t` back with its falsy fields
   * defaulted and its repeat days dropped, when every tag is non-empty and
   * comma-free.
   */
  lemma LegacyRoundTrip(t: LegacyTask, now: string)
    requires forall tag :: tag in t.tags ==> tag != "" && ',' !in tag
    ensures DbToLegacy(LegacyToDb(t, now)) == t.(
      startTime := TextOr(t.startTime, DefaultStart),
      duration := HoursOr(t.duration, DefaultDuration),
      repeat := Some(OptionOr(t.repeat, NoRepeat)),
      repeatDays := None,
      timerType := Some(OptionOr(t.timerType, NoRepeat)),
      timerDuration := Some(MinutesOr(t.timerDuration, DefaultTimerMinutes)))
  {
    TagsRoundTrip(t.tags);
    FilterNonEmptyIdle(t.tags);
  }

  /** The fields the round trip always preserves, with no condition on the tags beyond commas. */
  lemma LegacyRoundTripKeeps(t: LegacyTask, now: string)
    requires forall tag :: tag in t.tags ==> ',' !in tag
    ensures DbToLegacy(LegacyToDb(t, now)).id == t.id && DbToLegacy(LegacyToDb(t, now)).title == t.title
    ensures DbToLegacy(LegacyToDb(t, now)).status == t.status && DbToLegacy(LegacyToDb(t, now)).priority == t.priority
    ensures DbToLegacy(LegacyToDb(t, now)).date == t.date
    ensures DbToLegacy(LegacyToDb(t, now)).tags == Filter(t.tags, NonEmpty)
  {
    TagsRoundTrip(t.tags);
  }

  // ---------------------------------------------------------------- stored-list operations

  /** The position of the first task with the id (`findIndex`). */
  function FirstIndex(ts: seq<LegacyTask>, id: string): (r: Option<nat>)
    ensures r.Some? ==> r.value < |ts| && ts[r.value].id == id
    ensures r.Some? ==> forall j :: 0 <= j < r.value ==> ts[j].id != id
    ensures r.None? ==> forall j :: 0 <= j < |ts| ==> ts[j].id != id
  {
    if ts == [] then None
    else if ts[0].id == id then Some(0)
    else match FirstIndex(ts[1..], id)
      case Some(i) => Some(i + 1)
      case None => None
  }

  /** The `update` fallback on the list: the first task with the id is replaced. */
  function ReplaceFirst(ts: seq<LegacyTask>, task: LegacyTask): seq<LegacyTask> {
    match FirstIndex(ts, task.id)
    case Some(i) => ts[i := task]
    case None => ts
  }

  /** The `delete` fallback on the list: every task with the id is dropped. */
  function WithoutId(ts: seq<LegacyTask>, id: string): seq<LegacyTask> {
    if ts == [] then []
    else (if ts[0].id == id then [] else [ts[0]]) + WithoutId(ts[1..], id)
  }

  /** The ids already stored. */
  function IdsOf(ts: seq<LegacyTask>): set<string> {
    set t | t in ts :: t.id
  }

  /** The tasks of a batch whose id is not among `existing`, in batch order. */
  function Unseen(batch: seq<LegacyTask>, existing: set<string>): seq<LegacyTask> {
    if batch == [] then []
    else Unseen(batch[..|batch| - 1], existing) + (if batch[|batch| - 1].id in existing then [] else [batch[|batch| - 1]])
  }

  /**
   * Replacing keeps the length, changes at most the first position holding
   * the id, puts the task there, and is a no-op when the id is absent.
   */
  lemma ReplaceFirstEffect(ts: seq<LegacyTask>, task: LegacyTask)
    ensures |ReplaceFirst(ts, task)| == |ts|
    ensures (forall j :: 0 <= j < |ts| ==> ts[j].id != task.id) ==> ReplaceFirst(ts, task) == ts
    ensures forall j :: 0 <= j < |ts| && ReplaceFirst(ts, task)[j] != ts[j] ==>
      ReplaceFirst(ts, task)[j] == task && ts[j].id == task.id && forall k :: 0 <= k < j ==> ts[k].id != task.id
    ensures (exists j :: 0 <= j < |ts| && ts[j].id == task.id) ==> task in ReplaceFirst(ts, task)
  {
    if i :| 0 <= i < |ts| && ts[i].id == task.id {
      var f := FirstIndex(ts, task.id);
      assert f.Some?;
      assert ReplaceFirst(ts, task)[f.value] == task;
    }
  }

  /** Updating twice with the same task is updating once. */
  lemma ReplaceFirstIdempotent(ts: seq<LegacyTask>, task: LegacyTask)
    ensures ReplaceFirst(ReplaceFirst(ts, task), task) == ReplaceFirst(ts, task)
  {
    var f := FirstIndex(ts, task.id);
    if f.Some? {
      var r := ts[f.value := task];
      assert forall j :: 0 <= j < f.value ==> r[j].id != task.id;
      assert r[f.value].id == task.id;
      assert FirstIndex(r, task.id) == f;
    }
  }

  /** After deleting, no task has the id; every other task stays, in its order. */
  lemma {:induction false} WithoutIdEffect(ts: seq<LegacyTask>, id: string)
    ensures forall t :: t in WithoutId(ts, id) <==> t in ts && t.id != id
    ensures (forall t :: t in ts ==> t.id != id) ==> WithoutId(ts, id) == ts
    ensures |WithoutId(ts, id)| <= |ts|
  {
    if ts != [] {
      WithoutIdEffect(ts[1..], id);
      assert ts == [ts[0]] + ts[1..];
    }
  }

  /**
   * Deleting keeps the order of the other tasks: deleting from two lists
   * joined is deleting from each and joining the results.
   */
  lemma {:induction false} WithoutIdAppend(a: seq<LegacyTask>, b: seq<LegacyTask>, id: string)
    ensures WithoutId(a + b, id) == WithoutId(a, id) + WithoutId(b, id)
  {
    if a != [] {
      assert (a + b)[0] == a[0];
      assert (a + b)[1..] == a[1..] + b;
      WithoutIdAppend(a[1..], b, id);
    } else {
      assert a + b == b;
    }
  }

  /** Deleting twice is deleting once. */
  lemma WithoutIdIdempotent(ts: seq<LegacyTask>, id: string)
    ensures WithoutId(WithoutId(ts, id), id) == WithoutId(ts, id)
  {
    WithoutIdEffect(ts, id);
    WithoutIdEffect(WithoutId(ts, id), id);
  }

  /** The batch fallback appends exactly the tasks whose id was not stored before the call. */
  lemma {:induction false} UnseenEffect(batch: seq<LegacyTask>, existing: set<string>)
    ensures forall t :: t in Unseen(batch, existing) <==> t in batch && t.id !in existing
    ensures |Unseen(batch, existing)| <= |batch|
  {
    if batch != [] {
      var init := batch[..|batch| - 1];
      UnseenEffect(init, existing);
      assert batch == init + [batch[|batch| - 1]];
    }
  }

  /** Each copy of an unseen task in the batch is appended: in-batch duplicates are kept. */
  lemma {:induction false} UnseenKeepsCopies(batch: seq<LegacyTask>, existing: set<string>, t: LegacyTask)
    requires t.id !in existing
    ensures multiset(Unseen(batch, existing))[t] == multiset(batch)[t]
  {
    if batch != [] {
      var init := batch[..|batch| - 1];
      UnseenKeepsCopies(init, existing, t);
      assert batch == init + [batch[|batch| - 1]];
    }
  }

  /** A batch whose ids are all new is appended whole. */
  lemma {:induction false} UnseenAllNew(batch: seq<LegacyTask>, existing: set<string>)
    requires forall t :: t in batch ==> t.id !in existing
    ensures Unseen(batch, existing) == batch
  {
    if batch != [] {
      UnseenAllNew(batch[..|batch| - 1], existing);
      assert batch == batch[..|batch| - 1] + [batch[|batch| - 1]];
    }
  }

  // ---------------------------------------------------------------- import

  /** The task `importTasks` makes of an imported one, under a fresh id. */
  function FromImported(t: ImportedTask, id: string): LegacyTask {
    LegacyTask(id, t.title, "", t.status, t.priority, t.date, DefaultStart, DefaultDuration,
      t.tags, Some(NoRepeat), None, Some(NoRepeat), Some(DefaultTimerMinutes))
  }

  /** Every imported task, in order, under the ids the generator gives by position. */
  function AllFromImported(imported: seq<ImportedTask>, newId: nat -> string): (r: seq<LegacyTask>)
    ensures |r| == |imported|
  {
    seq(|imported|, i requires 0 <= i < |imported| => FromImported(imported[i], newId(i)))
  }

  /**
   * Importing maps the tasks one to one, keeping title, date, status,
   * priority and tags, with the default start, one hour and 25 timer minutes.
   */
  lemma ImportedMapping(imported: seq<ImportedTask>, newId: nat -> string, i: nat)
    requires i < |imported|
    ensures AllFromImported(imported, newId)[i].title == imported[i].title
    ensures AllFromImported(imported, newId)[i].date == imported[i].date
    ensures AllFromImported(imported, newId)[i].status == imported[i].status
    ensures AllFromImported(imported, newId)[i].priority == imported[i].priority
    ensures AllFromImported(imported, newId)[i].tags == imported[i].tags
    ensures AllFromImported(imported, newId)[i].startTime == DefaultStart
    ensures AllFromImported(imported, newId)[i].duration == DefaultDuration
    ensures AllFromImported(imported, newId)[i].timerDuration == Some(DefaultTimerMinutes)
  {
    assert AllFromImported(imported, newId)[i] == FromImported(imported[i], newId(i));
  }

  /** With fresh, distinct-from-stored ids, every imported task is created. */
  lemma ImportCreatesAll(imported: seq<ImportedTask>, newId: nat -> string, existing: set<string>)
    requires forall i :: 0 <= i < |imported| ==> newId(i) !in existing
    ensures Unseen(AllFromImported(imported, newId), existing) == AllFromImported(imported, newId)
  {
    var all := AllFromImported(imported, newId);
    forall t | t in all
      ensures t.id !in existing
    {
      var i :| 0 <= i < |all| && all[i] == t;
      assert t.id == newId(i);
    }
    UnseenAllNew(all, existing);
  }

  // ---------------------------------------------------------------- the stored list

  /** The task list kept in browser storage while the backend is unavailable. */
  class LocalTasks {
    var tasks: seq<LegacyTask>

    constructor (stored: seq<LegacyTask>)
      ensures tasks == stored
    {
      tasks := stored;
    }

    /** The `create` fallback: the task is appended. */
    method Create(task: LegacyTask) returns (r: LegacyTask)
      modifies this
      ensures tasks == old(tasks) + [task] && r == task
    {
      tasks := tasks + [task];
      r := task;
    }

    /** The `update` fallback: `findIndex`, then the found slot is overwritten. */
    method Update(task: LegacyTask) returns (r: LegacyTask)
      modifies this
      ensures tasks == ReplaceFirst(old(tasks), task) && r == task
    {
      var idx := 0;
      while idx < |tasks| && tasks[idx].id != task.id
        invariant 0 <= idx <= |tasks|
        invariant forall j :: 0 <= j < idx ==> tasks[j].id != task.id
      {
        idx := idx + 1;
      }
      if idx < |tasks| {
        assert FirstIndex(tasks, task.id) == Some(idx);
        tasks := tasks[idx := task];
      }
      r := task;
    }

    /** The `delete` fallback: the list without the id. */
    method Delete(id: string)
      modifies this
      ensures tasks == WithoutId(old(tasks), id)
    {
      tasks := WithoutId(tasks, id);
    }

    /**
     * The `batchCreate` fallback: the stored ids are taken once, then each
     * batch task whose id is not among them is appended and counted.
     */
    method BatchCreate(batch: seq<LegacyTask>) returns (count: nat)
      modifies this
      ensures tasks == old(tasks) + Unseen(batch, IdsOf(old(tasks)))
      ensures count == |Unseen(batch, IdsOf(old(tasks)))|
    {
      var existing := IdsOf(tasks);
      count := 0;
      var i := 0;
      while i < |batch|
        invariant 0 <= i <= |batch|
        invariant tasks == old(tasks) + Unseen(batch[..i], existing)
        invariant count == |Unseen(batch[..i], existing)|
      {
        assert batch[..i + 1][..i] == batch[..i];
        if batch[i].id !in existing {
          tasks := tasks + [batch[i]];
          count := count + 1;
        }
        i := i + 1;
      }
      assert batch[..i] == batch;
    }

    /** `importTasks`: the imported tasks under fresh ids, through the batch fallback. */
    method ImportTasks(imported: seq<ImportedTask>, newId: nat -> string) returns (count: nat)
      modifies this
      ensures tasks == old(tasks) + Unseen(AllFromImported(imported, newId), IdsOf(old(tasks)))
      ensures count == |Unseen(AllFromImported(imported, newId), IdsOf(old(tasks)))|
    {
      count := BatchCreate(AllFromImported(imported, newId));
    }
  }
}
