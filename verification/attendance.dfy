/**
 * The attendance logic of the dashboard (src/pages/Dashboard.tsx): one
 * record per day, kept in a map from the date text, the check-in/check-out
 * button that updates today's record, the streak of days with focus time,
 * the session clock text and the done/to-do toggle of today's tasks. The
 * clock, the date texts of past days and the parsing of stored instants are
 * parameters; storage and the task service calls are left out.
 */
module Attendance {
  import opened Wrappers
  import opened Text
  import opened Numbers
  import opened ClockText
  import TaskService
  import TaskList

  /** `DailyAttendance`: the optional fields are `Option`s (absent or `undefined` is `None`). */
  datatype DailyAttendance = DailyAttendance(
    checkedInAt: Option<string>,
    checkedOutAt: Option<string>,
    totalFocusSeconds: int,
    activeTaskId: Option<string>)

  /** `AttendanceMap`: the record of each day, keyed by its date text. */
  type AttendanceMap = map<string, DailyAttendance>

  /** `defaultAttendance()`. */
  const Default := DailyAttendance(None, None, 0, None)

  /**
   * `Partial<DailyAttendance>`: for each field, whether the patch names it
   * (`Some`) and with which value; naming a field with `undefined` clears it.
   */
  datatype Patch = Patch(
    checkedInAt: Option<Option<string>>,
    checkedOutAt: Option<Option<string>>,
    totalFocusSeconds: Option<int>,
    activeTaskId: Option<Option<string>>)

  /** The patch that names no field. */
  const NoChange := Patch(None, None, None, None)

  /** The value of a field after a patch that may name it. */
  function Over<T>(field: Option<T>, current: T): T {
    if field.Some? then field.value else current
  }

  /** `{ ...record, ...patch }`. */
  function Merge(record: DailyAttendance, patch: Patch): DailyAttendance {
    DailyAttendance(
      Over(patch.checkedInAt, record.checkedInAt),
      Over(patch.checkedOutAt, record.checkedOutAt),
      Over(patch.totalFocusSeconds, record.totalFocusSeconds),
      Over(patch.activeTaskId, record.activeTaskId))
  }

  /** `patch` then `later`, as one patch: the later one wins on each field it names. */
  function Then(patch: Patch, later: Patch): Patch {
    Patch(
      if later.checkedInAt.Some? then later.checkedInAt else patch.checkedInAt,
      if later.checkedOutAt.Some? then later.checkedOutAt else patch.checkedOutAt,
      if later.totalFocusSeconds.Some? then later.totalFocusSeconds else patch.totalFocusSeconds,
      if later.activeTaskId.Some? then later.activeTaskId else patch.activeTaskId)
  }

  /** `attendanceMap[today] || defaultAttendance()`. */
  function TodayOf(attendance: AttendanceMap, today: string): DailyAttendance {
    if today in attendance then attendance[today] else Default
  }

  /**
   * `updateTodayAttendance(patch)`: today's record, or the default one, with
   * the patch merged over it; every other day is left as it was.
   */
  function UpdateToday(attendance: AttendanceMap, today: string, patch: Patch): (r: AttendanceMap)
    ensures r.Keys == attendance.Keys + {today}
    ensures forall d :: d in attendance && d != today ==> r[d] == attendance[d]
    ensures r[today] == Merge(TodayOf(attendance, today), patch)
  {
    attendance[today := Merge(TodayOf(attendance, today), patch)]
  }

  /** Two updates of today in a row are one update with the patches merged in order. */
  lemma UpdateTwice(attendance: AttendanceMap, today: string, patch: Patch, later: Patch)
    ensures UpdateToday(UpdateToday(attendance, today, patch), today, later)
      == UpdateToday(attendance, today, Then(patch, later))
  {
  }

  /** A patch naming no field leaves an existing record of today as it was. */
  lemma UpdateNothing(attendance: AttendanceMap, today: string)
    requires today in attendance
    ensures UpdateToday(attendance, today, NoChange) == attendance
  {
    assert Merge(attendance[today], NoChange) == attendance[today];
  }

  // ---------------------------------------------------------------- check in / out

  /** `Boolean(todayAttendance.checkedInAt)`: an empty text counts as not checked in. */
  predicate CheckedIn(record: DailyAttendance) {
    record.checkedInAt.Some? && record.checkedInAt.value != ""
  }

  /** `Math.max(0, Math.floor((now - start) / 1000))`: whole seconds since the check-in, never negative. */
  function Elapsed(nowMs: int, startMs: int): (seconds: nat)
    ensures nowMs >= startMs ==> seconds * 1000 <= nowMs - startMs < (seconds + 1) * 1000
    ensures nowMs < startMs ==> seconds == 0
  {
    if nowMs - startMs <= 0 then 0 else (nowMs - startMs) / 1000
  }

  /** `a || b` on optional ids: an empty or missing id gives way to the next one. */
  function FirstId(a: Option<string>, b: Option<string>): Option<string> {
    if a.Some? && a.value != "" then a else b
  }

  /**
   * `handleCheckInOut()`. Checked in: the time since the check-in is added to
   * today's total and the day is checked out at `nowIso`. Otherwise: the day
   * is checked in at `nowIso`, its check-out cleared, and the active task is
   * the selected one, else the one already active, else the first pending
   * task. `nowMs` is the clock and `instantOf` reads a stored instant in
   * milliseconds.
   */
  function CheckInOut(attendance: AttendanceMap, today: string, nowIso: string, nowMs: int,
                      instantOf: string -> int, selectedTaskId: string,
                      firstPendingId: Option<string>): AttendanceMap
  {
    var current := TodayOf(attendance, today);
    if CheckedIn(current) then
      var elapsed := Elapsed(nowMs, instantOf(current.checkedInAt.value));
      UpdateToday(attendance, today,
        Patch(Some(None), Some(Some(nowIso)), Some(current.totalFocusSeconds + elapsed), None))
    else
      var nextTaskId := FirstId(Some(selectedTaskId), FirstId(current.activeTaskId, firstPendingId));
      UpdateToday(attendance, today, Patch(Some(Some(nowIso)), Some(None), None, Some(nextTaskId)))
  }

  /**
   * Checking out clears the check-in, records the check-out and adds the
   * non-negative elapsed seconds to the total; checking in records the
   * check-in, clears the check-out and keeps the total. Every press flips
   * whether today is checked in, and no other day changes.
   */
  lemma CheckInOutEffect(attendance: AttendanceMap, today: string, nowIso: string, nowMs: int,
                         instantOf: string -> int, selectedTaskId: string, firstPendingId: Option<string>)
    requires nowIso != ""
    ensures var before := TodayOf(attendance, today);
      var after := CheckInOut(attendance, today, nowIso, nowMs, instantOf, selectedTaskId, firstPendingId)[today];
      && (CheckedIn(after) <==> !CheckedIn(before))
      && (CheckedIn(before) ==>
            && after.checkedInAt.None? && after.checkedOutAt == Some(nowIso)
            && after.totalFocusSeconds
               == before.totalFocusSeconds + Elapsed(nowMs, instantOf(before.checkedInAt.value))
            && after.activeTaskId == before.activeTaskId)
      && (!CheckedIn(before) ==>
            && after.checkedInAt == Some(nowIso) && after.checkedOutAt.None?
            && after.totalFocusSeconds == before.totalFocusSeconds
            && (selectedTaskId != "" ==> after.activeTaskId == Some(selectedTaskId)))
    ensures var r := CheckInOut(attendance, today, nowIso, nowMs, instantOf, selectedTaskId, firstPendingId);
      r.Keys == attendance.Keys + {today} && forall d :: d in attendance && d != today ==> r[d] == attendance[d]
  {
  }

  /** Checking in and then out adds exactly the whole seconds between the two instants. */
  lemma CheckInThenOut(attendance: AttendanceMap, today: string, inIso: string, inMs: int, outIso: string, outMs: int,
                       instantOf: string -> int, selectedTaskId: string, firstPendingId: Option<string>)
    requires inIso != "" && outIso != ""
    requires !CheckedIn(TodayOf(attendance, today))
    requires instantOf(inIso) == inMs && inMs <= outMs
    ensures var checkedIn := CheckInOut(attendance, today, inIso, inMs, instantOf, selectedTaskId, firstPendingId);
      var after := CheckInOut(checkedIn, today, outIso, outMs, instantOf, selectedTaskId, firstPendingId)[today];
      && !CheckedIn(after)
      && after.totalFocusSeconds == TodayOf(attendance, today).totalFocusSeconds + (outMs - inMs) / 1000
  {
    CheckInOutEffect(attendance, today, inIso, inMs, instantOf, selectedTaskId, firstPendingId);
    var checkedIn := CheckInOut(attendance, today, inIso, inMs, instantOf, selectedTaskId, firstPendingId);
    CheckInOutEffect(checkedIn, today, outIso, outMs, instantOf, selectedTaskId, firstPendingId);
  }

  // ---------------------------------------------------------------- streak

  /** How many days back the streak looks. */
  const StreakWindow := 30

  /** The focus seconds of a day: today's live total, else the stored total, else 0. */
  function DaySeconds(attendance: AttendanceMap, today: string, todayFocusSeconds: int, date: string): int {
    if date == today then todayFocusSeconds
    else if date in attendance then attendance[date].totalFocusSeconds
    else 0
  }

  /**
   * The `streak` loop: `dateOf(i)` is the date text `i` days before now. The
   * result counts the leading run of days, from today backwards, with
   * positive focus time: every counted day has some, the first day not
   * counted has none, and at most 30 days are looked at.
   */
  method Streak(attendance: AttendanceMap, today: string, todayFocusSeconds: int, dateOf: nat -> string)
    returns (days: nat)
    ensures days <= StreakWindow
    ensures forall k :: 0 <= k < days ==> DaySeconds(attendance, today, todayFocusSeconds, dateOf(k)) > 0
    ensures days < StreakWindow ==> DaySeconds(attendance, today, todayFocusSeconds, dateOf(days)) <= 0
  {
    days := 0;
    var i := 0;
    while i < StreakWindow
      invariant days == i <= StreakWindow
      invariant forall k :: 0 <= k < i ==> DaySeconds(attendance, today, todayFocusSeconds, dateOf(k)) > 0
    {
      var dateStr := dateOf(i);
      var seconds := if dateStr == today then todayFocusSeconds
        else if dateStr in attendance then attendance[dateStr].totalFocusSeconds
        else 0;
      if seconds > 0 {
        days := days + 1;
      } else {
        break;
      }
      i := i + 1;
    }
  }

  // ---------------------------------------------------------------- session clock

  /** `formatClock(seconds)`: hours, minutes and seconds, each padded to two digits. */
  function FormatClock(seconds: nat): string {
    ZeroPad(seconds / 3600, 2) + ":" + ZeroPad((seconds % 3600) / 60, 2) + ":" + ZeroPad(seconds % 60, 2)
  }

  /**
   * The session clock is an hour field of at least two digits, then minutes
   * and seconds of two digits below 60, and it shows exactly the given
   * seconds.
   */
  lemma FormatClockReadsBack(seconds: nat)
    ensures var fields := Split(FormatClock(seconds), ':');
      && |fields| == 3 && |fields[0]| >= 2
      && ClockFields(fields) && Seconds(fields) == seconds
  {
    var h := seconds / 3600;
    var m := (seconds % 3600) / 60;
    var s := seconds % 60;
    ClockPlaces(seconds);
    TwoDigitField(m);
    TwoDigitField(s);
    SplitThree(ZeroPad(h, 2), ZeroPad(m, 2), ZeroPad(s, 2));
    ClockFieldsThree(ZeroPad(h, 2), ZeroPad(m, 2), ZeroPad(s, 2));
  }

  // ---------------------------------------------------------------- task toggle

  /** `i` is the first index of a task with the id. */
  predicate FirstWithId(tasks: seq<TaskService.LegacyTask>, id: string, i: int) {
    0 <= i < |tasks| && tasks[i].id == id && forall j :: 0 <= j < i ==> tasks[j].id != id
  }

  /** The index of the first task with the id (`findIndex`), if any. */
  function FirstIndex(tasks: seq<TaskService.LegacyTask>, id: string): (r: Option<nat>)
    ensures r.Some? ==> FirstWithId(tasks, id, r.value)
    ensures r.None? ==> forall i :: 0 <= i < |tasks| ==> tasks[i].id != id
  {
    if tasks == [] then None
    else if tasks[0].id == id then Some(0)
    else
      match FirstIndex(tasks[1..], id)
      case Some(k) => assert tasks[k + 1] == tasks[1..][k]; Some(k + 1)
      case None => None
  }

  /** The first task with the id (`find`). */
  function FindTask(tasks: seq<TaskService.LegacyTask>, id: string): Option<TaskService.LegacyTask> {
    match FirstIndex(tasks, id)
    case Some(i) => Some(tasks[i])
    case None => None
  }

  /**
   * `toggleTaskDone(taskId)`: the tasks with that id flipped between done and
   * to-do, and the task handed to `modifyTask`, the first of them, if any.
   */
  function ToggleTaskDone(tasks: seq<TaskService.LegacyTask>, taskId: string)
    : (seq<TaskService.LegacyTask>, Option<TaskService.LegacyTask>)
  {
    var updated := TaskList.ToggleStatus(tasks, taskId);
    (updated, FindTask(updated, taskId))
  }

  /**
   * A task is handed on exactly when one has the id, and it is the first such
   * task with its status flipped; every other task is unchanged.
   */
  lemma ToggleTaskDoneEffect(tasks: seq<TaskService.LegacyTask>, taskId: string)
    ensures var (updated, changed) := ToggleTaskDone(tasks, taskId);
      && |updated| == |tasks|
      && (forall i :: 0 <= i < |tasks| && tasks[i].id != taskId ==> updated[i] == tasks[i])
      && (changed.None? <==> forall i :: 0 <= i < |tasks| ==> tasks[i].id != taskId)
      && (changed.Some? ==> exists i :: (FirstWithId(tasks, taskId, i)
            && changed.value == tasks[i].(status := TaskList.Flipped(tasks[i].status))))
  {
    var updated := TaskList.ToggleStatus(tasks, taskId);
    var found := FirstIndex(tasks, taskId);
    if found.Some? {
      var i := found.value;
      assert FirstWithId(updated, taskId, i);
      FirstIndexUnique(updated, taskId, i);
    } else {
      assert forall i :: 0 <= i < |updated| ==> updated[i].id != taskId;
      FirstIndexNone(updated, taskId);
    }
  }

  /** `findIndex` returns the first index with the id. */
  lemma FirstIndexUnique(tasks: seq<TaskService.LegacyTask>, id: string, i: nat)
    requires FirstWithId(tasks, id, i)
    ensures FirstIndex(tasks, id) == Some(i)
  {
    var r := FirstIndex(tasks, id);
    assert r.Some? by {
      if r.None? {
        assert tasks[i].id == id;
      }
    }
    assert !(r.value < i) && !(i < r.value);
  }

  /** `findIndex` finds nothing when no task has the id. */
  lemma FirstIndexNone(tasks: seq<TaskService.LegacyTask>, id: string)
    requires forall i :: 0 <= i < |tasks| ==> tasks[i].id != id
    ensures FirstIndex(tasks, id) == None
  {
  }
}
