/**
 * The markdown study-plan importer (`parse_markdown_plan` and
 * `infer_import_durations` in src-tauri/src/lib.rs). A plan is a list of
 * lines; a `#`/`##` header carrying a `DDDD-DD-DD` date sets the current
 * date, and a task-list item (`- [ ] `, `- [x] `, `- [X] `, the task list
 * items of section 5.3 of the GitHub Flavored Markdown spec) becomes a task
 * with an optional `[hh:mm]` start, an optional `@date`, an optional
 * `(high|low|medium)` suffix and `#tags`. Durations are then filled in, in
 * tenths of an hour, from the next later start on the same day.
 *
 * The reading of the clock in `chrono_today` is the `today` parameter.
 */
module PlanImport {
  import opened Wrappers
  import opened Text
  import opened ClockDate

  /** An imported task; `duration` is in tenths of an hour. */
  datatype ImportedTask = ImportedTask(
    title: string,
    date: string,
    priority: string,
    tags: seq<string>,
    status: string,
    startTime: Option<string>,
    duration: Option<nat>)

  datatype ImportReport = ImportReport(total: nat, created: nat, skipped: nat, tasks: seq<ImportedTask>)

  predicate IsHash(c: char) {
    c == '#'
  }

  predicate IsPriority(p: string) {
    p == "high" || p == "low" || p == "medium"
  }

  /** The three task-list markers the importer accepts. */
  predicate IsTaskLine(trimmed: string) {
    StartsWith(trimmed, "- [ ] ") || StartsWith(trimmed, "- [x] ") || StartsWith(trimmed, "- [X] ")
  }

  predicate IsDoneLine(trimmed: string) {
    StartsWith(trimmed, "- [x] ") || StartsWith(trimmed, "- [X] ")
  }

  // ---------------------------------------------------------------- one line

  /** The date a `# ` or `## ` header line names, if it names one. */
  function HeaderDate(trimmed: string): (r: Option<string>)
    ensures r.Some? ==> IsIsoDate(r.value)
  {
    if StartsWith(trimmed, "## ") || StartsWith(trimmed, "# ") then
      IsoDate(Trim(TrimStart(trimmed, IsHash), IsRustSpace))
    else None
  }

  /**
   * A leading `[...]` whose trimmed inside is a valid clock becomes the start
   * time, and the text after the bracket is kept; any other text is kept whole.
   */
  function LeadingTime(text: string): (r: (Option<string>, string))
    ensures r.0.Some? ==> ParseClockMinutes(r.0.value).Some?
  {
    if StartsWith(text, "[") then
      match IndexOfChar(text, ']')
      case Some(e) =>
        var maybeTime := Trim(text[1..e], IsRustSpace);
        if ParseClockMinutes(maybeTime).Some? then (Some(maybeTime), Trim(text[e + 1..], IsRustSpace))
        else (None, text)
      case None => (None, text)
    else (None, text)
  }

  /**
   * The first `@` ends the title text; a date right after it (anywhere in
   * the rest) replaces the current date.
   */
  function DateAndText(text: string, currentDate: string): (r: (string, string))
    ensures '@' !in r.1 || r.1 == text
    ensures r.0 == currentDate || IsIsoDate(r.0)
  {
    match IndexOfChar(text, '@')
    case None => (currentDate, text)
    case Some(pos) =>
      var date := IsoDate(text[pos + 1..]).GetOr(currentDate);
      TrimKeepsAbsence(text[..pos], IsRustSpace, '@');
      (date, Trim(text[..pos], IsRustSpace))
  }

  /** A trailing `(high)`, `(low)` or `(medium)`, in any case, sets the priority and is cut off. */
  function PrioritySuffix(text: string): (r: (string, string))
    ensures IsPriority(r.0)
  {
    if EndsWith(text, ")") then
      match LastIndexOfChar(text, '(')
      case Some(open) => assert text[|text| - 1] == ')'; SuffixAt(text, open)
      case None => ("medium", text)
    else ("medium", text)
  }

  /** The suffix step once the last `(` is found at `open`: the level between it and the closing `)`, if it is one. */
  function SuffixAt(text: string, open: nat): (r: (string, string))
    requires open < |text| - 1
    ensures IsPriority(r.0)
  {
    var level := Lower(Trim(text[open + 1..|text| - 1], IsRustSpace));
    if IsPriority(level) then (level, Trim(text[..open], IsRustSpace)) else ("medium", text)
  }

  /** What the word loop accumulates. */
  datatype WordScan = WordScan(priority: string, title: string, tags: seq<string>)

  /** A `#word`: a priority keyword sets the priority, anything else is a lower-cased tag; other words join the title. */
  function ScanWord(st: WordScan, part: string): WordScan {
    if StartsWith(part, "#") then
      var tag := Lower(TrimStart(part, IsHash));
      if tag == "high" || tag == "urgent" then st.(priority := "high")
      else if tag == "low" then st.(priority := "low")
      else if tag == "medium" then st.(priority := "medium")
      else st.(tags := st.tags + [tag])
    else
      st.(title := if st.title == "" then part else st.title + " " + part)
  }

  /** The word loop as a left fold: `start` updated by each word in turn. */
  function ScanWords(words: seq<string>, start: WordScan): WordScan {
    if words == [] then start else ScanWords(words[1..], ScanWord(start, words[0]))
  }

  /** The task a trimmed line yields, if any. */
  function TaskLine(trimmed: string, currentDate: string, today: string): (r: Option<ImportedTask>)
    ensures r.Some? ==> IsTaskLine(trimmed)
    ensures r.Some? ==> (r.value.status == "done" <==> IsDoneLine(trimmed))
    ensures r.Some? && (currentDate == "" || IsIsoDate(currentDate)) ==> WellFormedTask(r.value, today)
  {
    if !IsTaskLine(trimmed) then None
    else
      var (startTime, restText) := LeadingTime(Trim(trimmed[6..], IsRustSpace));
      var (taskDate, taskText) := DateAndText(restText, currentDate);
      var (priority, text) := PrioritySuffix(taskText);
      var st := ScanWords(Words(text, IsRustSpace), WordScan(priority, "", []));
      ScanWordsTags(Words(text, IsRustSpace), WordScan(priority, "", []));
      if st.title == "" then None
      else
        Some(ImportedTask(
          st.title,
          if taskDate == "" then today else taskDate,
          st.priority,
          st.tags,
          if IsDoneLine(trimmed) then "done" else "todo",
          startTime,
          None))
  }

  /** What reads one trimmed line under a current date: the task it yields, if any. */
  type LineReader = (string, string) -> Option<ImportedTask>

  /** What moves the current date at one trimmed line. */
  type DateStep = (string, string) -> string

  /** A `# ` or `## ` header naming a date moves the current date to it. */
  function NextDate(trimmed: string, currentDate: string): (date: string)
    ensures date == currentDate || IsIsoDate(date)
  {
    HeaderDate(trimmed).GetOr(currentDate)
  }

  /** The importer's reader of task lines. */
  function Reader(today: string): LineReader {
    (trimmed, date) => TaskLine(trimmed, date, today)
  }

  /**
   * The tasks of the lines from a given current date on, in order: `next`
   * may move the current date, then the line is read under it. The fold is
   * stated for any date step and reader, so that its properties rest only on
   * what those promise.
   */
  function PlanWith(lines: seq<string>, currentDate: string, next: DateStep, read: LineReader): seq<ImportedTask> {
    if lines == [] then []
    else
      var trimmed := Trim(lines[0], IsRustSpace);
      var date := next(trimmed, currentDate);
      AsList(read(trimmed, date)) + PlanWith(lines[1..], date, next, read)
  }

  /** The task a line yields, as a list of zero or one task. */
  function AsList(task: Option<ImportedTask>): seq<ImportedTask> {
    match task
    case Some(t) => [t]
    case None => []
  }

  function PlanTasks(content: string, today: string): seq<ImportedTask> {
    PlanWith(Lines(content), "", NextDate, Reader(today))
  }

  // ---------------------------------------------------------------- the loops

  /** The `[hh:mm]` step of the task branch. */
  method ReadLeadingTime(text: string) returns (startTime: Option<string>, restText: string)
    ensures (startTime, restText) == LeadingTime(text)
  {
    startTime := None;
    restText := text;
    if StartsWith(restText, "[") {
      var endIdx := IndexOfChar(restText, ']');
      if endIdx.Some? {
        var maybeTime := Trim(restText[1..endIdx.value], IsRustSpace);
        if ParseClockMinutes(maybeTime).Some? {
          startTime := Some(maybeTime);
          restText := Trim(restText[endIdx.value + 1..], IsRustSpace);
        }
      }
    }
  }

  /** The `@date` step of the task branch. */
  method ReadTaskDate(restText: string, currentDate: string) returns (taskDate: string, taskText: string)
    ensures (taskDate, taskText) == DateAndText(restText, currentDate)
  {
    taskDate := currentDate;
    taskText := restText;
    var pos := IndexOfChar(restText, '@');
    if pos.Some? {
      var afterAt := restText[pos.value + 1..];
      var date := ExtractIsoDate(afterAt);
      if date.Some? {
        taskDate := date.value;
      }
      assert taskDate == date.GetOr(currentDate);
      taskText := Trim(restText[..pos.value], IsRustSpace);
    }
  }

  /** The `(priority)` suffix step of the task branch. */
  method ReadPrioritySuffix(text: string) returns (priority: string, taskText: string)
    ensures (priority, taskText) == PrioritySuffix(text)
  {
    priority := "medium";
    taskText := text;
    if EndsWith(text, ")") {
      var openIdx := LastIndexOfChar(text, '(');
      if openIdx.Some? {
        var level := Lower(Trim(text[openIdx.value + 1..|text| - 1], IsRustSpace));
        if level == "high" || level == "low" || level == "medium" {
          priority := level;
          taskText := Trim(text[..openIdx.value], IsRustSpace);
        }
        assert (priority, taskText) == SuffixAt(text, openIdx.value);
      }
    }
  }

  /** One turn of the word loop. */
  method ReadWord(priority: string, cleanTitle: string, tags: seq<string>, part: string)
    returns (priority': string, cleanTitle': string, tags': seq<string>)
    ensures WordScan(priority', cleanTitle', tags') == ScanWord(WordScan(priority, cleanTitle, tags), part)
  {
    priority', cleanTitle', tags' := priority, cleanTitle, tags;
    if StartsWith(part, "#") {
      var tag := Lower(TrimStart(part, IsHash));
      if tag == "high" || tag == "urgent" {
        priority' := "high";
      } else if tag == "low" {
        priority' := "low";
      } else if tag == "medium" {
        priority' := "medium";
      } else {
        tags' := tags + [tag];
      }
    } else {
      if cleanTitle' != "" {
        cleanTitle' := cleanTitle' + " ";
      }
      cleanTitle' := cleanTitle' + part;
    }
  }

  /** The word loop of the task branch. */
  method ScanTaskWords(words: seq<string>, start: WordScan) returns (st: WordScan)
    ensures st == ScanWords(words, start)
  {
    var priority := start.priority;
    var cleanTitle := start.title;
    var tags := start.tags;
    var i := 0;
    while i < |words|
      invariant 0 <= i <= |words|
      invariant ScanWords(words[i..], WordScan(priority, cleanTitle, tags)) == ScanWords(words, start)
    {
      assert words[i..][1..] == words[i + 1..];
      priority, cleanTitle, tags := ReadWord(priority, cleanTitle, tags, words[i]);
      i := i + 1;
    }
    st := WordScan(priority, cleanTitle, tags);
  }

  /** The task branch of the line loop. */
  method ParseTaskLine(trimmed: string, currentDate: string, today: string) returns (r: Option<ImportedTask>)
    requires IsTaskLine(trimmed)
    ensures r == TaskLine(trimmed, currentDate, today)
  {
    var isDone := IsDoneLine(trimmed);
    var rest := trimmed[6..];
    var startTime, restText := ReadLeadingTime(Trim(rest, IsRustSpace));
    var taskDate, taskText := ReadTaskDate(restText, currentDate);
    var priority, text := ReadPrioritySuffix(taskText);
    var st := ScanTaskWords(Words(text, IsRustSpace), WordScan(priority, "", []));
    if st.title == "" {
      return None;
    }
    r := Some(ImportedTask(
      st.title,
      if taskDate == "" then today else taskDate,
      st.priority,
      st.tags,
      if isDone then "done" else "todo",
      startTime,
      None));
  }

  /** One step of the line loop, as the plan function reads it. */
  lemma PlanWithStep(lines: seq<string>, currentDate: string, next: DateStep, read: LineReader, date: string, task: Option<ImportedTask>)
    requires lines != []
    requires date == next(Trim(lines[0], IsRustSpace), currentDate)
    requires task == read(Trim(lines[0], IsRustSpace), date)
    ensures PlanWith(lines, currentDate, next, read) == AsList(task) + PlanWith(lines[1..], date, next, read)
  {
  }

  /** The header step of the line loop: a `# ` or `## ` line naming a date moves the current date. */
  method ReadHeaderDate(trimmed: string, currentDate: string) returns (date: string)
    ensures date == NextDate(trimmed, currentDate)
  {
    date := currentDate;
    if StartsWith(trimmed, "## ") || StartsWith(trimmed, "# ") {
      var header := Trim(TrimStart(trimmed, IsHash), IsRustSpace);
      var found := ExtractIsoDate(header);
      if found.Some? {
        date := found.value;
      }
      assert date == found.GetOr(currentDate);
    }
  }

  /** The body of the line loop: a header may move the current date, then a task line may yield a task. */
  method ParseLine(line: string, currentDate: string, today: string) returns (date: string, task: Option<ImportedTask>)
    ensures date == NextDate(Trim(line, IsRustSpace), currentDate)
    ensures task == TaskLine(Trim(line, IsRustSpace), date, today)
  {
    var trimmed := Trim(line, IsRustSpace);
    date := ReadHeaderDate(trimmed, currentDate);
    task := None;
    if IsTaskLine(trimmed) {
      task := ParseTaskLine(trimmed, date, today);
    }
  }

  /** One turn of the line loop: line `i` is read and its task, if any, pushed. */
  method CollectLine(lines: seq<string>, i: nat, currentDate: string, today: string, tasks: seq<ImportedTask>)
    returns (date: string, pushed: seq<ImportedTask>)
    requires i < |lines|
    ensures pushed + PlanWith(lines[i + 1..], date, NextDate, Reader(today))
      == tasks + PlanWith(lines[i..], currentDate, NextDate, Reader(today))
  {
    var task;
    date, task := ParseLine(lines[i], currentDate, today);
    pushed := PushTask(tasks, task);
    assert lines[i..][1..] == lines[i + 1..];
    CollectStep(lines[i..], currentDate, NextDate, Reader(today), date, task, tasks, pushed);
  }

  /** `if let Some(task) = ... { tasks.push(task) }`. */
  method PushTask(tasks: seq<ImportedTask>, task: Option<ImportedTask>) returns (pushed: seq<ImportedTask>)
    ensures pushed == tasks + AsList(task)
  {
    pushed := tasks;
    if task.Some? {
      pushed := pushed + [task.value];
    }
  }

  /** Pushing the task of the first line keeps the whole plan in view. */
  lemma CollectStep(rest: seq<string>, currentDate: string, next: DateStep, read: LineReader,
                    date: string, task: Option<ImportedTask>, tasks: seq<ImportedTask>, pushed: seq<ImportedTask>)
    requires rest != []
    requires date == next(Trim(rest[0], IsRustSpace), currentDate)
    requires task == read(Trim(rest[0], IsRustSpace), date)
    requires pushed == tasks + AsList(task)
    ensures pushed + PlanWith(rest[1..], date, next, read) == tasks + PlanWith(rest, currentDate, next, read)
  {
    PlanWithStep(rest, currentDate, next, read, date, task);
    AppendAssociative(tasks, AsList(task), PlanWith(rest[1..], date, next, read));
  }

  /** The line loop of `parse_markdown_plan`. */
  method CollectPlanTasks(content: string, today: string) returns (tasks: seq<ImportedTask>)
    ensures tasks == PlanTasks(content, today)
  {
    var lines := Lines(content);
    tasks := [];
    var currentDate := "";
    var i := 0;
    while i < |lines|
      invariant 0 <= i <= |lines|
      invariant tasks + PlanWith(lines[i..], currentDate, NextDate, Reader(today)) == PlanTasks(content, today)
    {
      currentDate, tasks := CollectLine(lines, i, currentDate, today, tasks);
      i := i + 1;
    }
    assert lines[i..] == [];
    assert tasks + [] == tasks;
  }

  /** `parse_markdown_plan`: the line loop, then duration inference over the collected tasks. */
  method ParseMarkdownPlan(content: string, today: string) returns (report: ImportReport)
    ensures report.tasks == Inferred(PlanTasks(content, today))
    ensures report.total == |report.tasks| && report.created == 0 && report.skipped == 0
  {
    var tasks := CollectPlanTasks(content, today);
    report := InferReport(tasks);
  }

  /** The collected tasks copied into a buffer, durations filled in, and reported. */
  method InferReport(tasks: seq<ImportedTask>) returns (report: ImportReport)
    ensures report.tasks == Inferred(tasks)
    ensures report.total == |report.tasks| && report.created == 0 && report.skipped == 0
  {
    var a := new ImportedTask[|tasks|](k requires 0 <= k < |tasks| => tasks[k]);
    assert a[..] == tasks;
    InferImportDurations(a);
    report := ImportReport(a.Length, 0, 0, a[..]);
  }

  // ---------------------------------------------------------------- durations

  /** The start of a task in minutes after midnight, when it has a valid one. */
  function StartMinutes(t: ImportedTask): Option<int> {
    match t.startTime
    case Some(v) => ParseClockMinutes(v)
    case None => None
  }

  /** A task on `date` starting strictly after minute `cur`. */
  predicate StartsLater(t: ImportedTask, date: string, cur: int) {
    t.date == date && StartMinutes(t).Some? && StartMinutes(t).value > cur
  }

  /** The earliest start on `date` strictly after minute `cur`. */
  function NextStart(tasks: seq<ImportedTask>, date: string, cur: int): (r: Option<int>)
    ensures r.Some? ==> r.value > cur && exists k :: 0 <= k < |tasks| && StartsLater(tasks[k], date, cur) && StartMinutes(tasks[k]) == r
    ensures forall k :: 0 <= k < |tasks| && StartsLater(tasks[k], date, cur) ==>
      r.Some? && r.value <= StartMinutes(tasks[k]).value
  {
    if tasks == [] then None
    else
      var init := tasks[..|tasks| - 1];
      var last := tasks[|tasks| - 1];
      var rest := NextStart(init, date, cur);
      assert forall k :: 0 <= k < |init| ==> init[k] == tasks[k];
      if StartsLater(last, date, cur) && (rest.None? || StartMinutes(last).value < rest.value) then StartMinutes(last)
      else rest
  }

  /** Half-up rounding of minutes to tenths of an hour, never below half an hour. */
  function TenthsBetween(cur: int, next: int): (r: nat)
    requires next > cur
    ensures r >= 5
  {
    var tenths := (next - cur + 3) / 6;
    if tenths < 5 then 5 else tenths
  }

  /** The duration inferred for task `k`: one hour without a start, two hours without a later start. */
  function InferredDuration(tasks: seq<ImportedTask>, k: nat): nat
    requires k < |tasks|
  {
    match StartMinutes(tasks[k])
    case None => 10
    case Some(cur) =>
      match NextStart(tasks, tasks[k].date, cur)
      case None => 20
      case Some(next) => TenthsBetween(cur, next)
  }

  /** Every task without a duration gets its inferred one. */
  function Inferred(tasks: seq<ImportedTask>): (r: seq<ImportedTask>)
    ensures |r| == |tasks|
  {
    seq(|tasks|, k requires 0 <= k < |tasks| =>
      if tasks[k].duration.Some? then tasks[k] else tasks[k].(duration := Some(InferredDuration(tasks, k))))
  }

  /** Tasks that agree on date and start time agree on every inferred duration. */
  lemma {:induction false} NextStartSameStarts(a: seq<ImportedTask>, b: seq<ImportedTask>, date: string, cur: int)
    requires SameStarts(a, b)
    ensures NextStart(a, date, cur) == NextStart(b, date, cur)
  {
    if a != [] {
      NextStartSameStarts(a[..|a| - 1], b[..|b| - 1], date, cur);
    }
  }

  /** The inner scan: the earliest later start on `date` among the tasks of `a`. */
  method EarliestLaterStart(a: array<ImportedTask>, date: string, cur: int) returns (best: Option<int>)
    ensures best == NextStart(a[..], date, cur)
  {
    best := None;
    var j := 0;
    while j < a.Length
      invariant 0 <= j <= a.Length
      invariant best == NextStart(a[..j], date, cur)
    {
      assert a[..j + 1][..j] == a[..j];
      var next := StartMinutes(a[j]);
      if a[j].date == date && next.Some? && next.value > cur && (best.None? || next.value < best.value) {
        best := next;
      }
      j := j + 1;
    }
    assert a[..j] == a[..];
  }

  /** Tasks that agree on dates and start times. */
  predicate SameStarts(a: seq<ImportedTask>, b: seq<ImportedTask>) {
    |a| == |b| && forall k :: 0 <= k < |a| ==> a[k].date == b[k].date && a[k].startTime == b[k].startTime
  }

  /** One turn of the inference loop: task `i`, still as read, gets its inferred duration. */
  method FillDuration(a: array<ImportedTask>, i: nat, ghost orig: seq<ImportedTask>)
    modifies a
    requires i < a.Length && SameStarts(a[..], orig) && a[i] == orig[i]
    ensures a[i] == Inferred(orig)[i]
    ensures forall k :: 0 <= k < a.Length && k != i ==> a[k] == old(a[k])
    ensures SameStarts(a[..], orig)
  {
    if a[i].duration.None? {
      var duration := DurationOf(a, i, orig);
      a[i] := a[i].(duration := Some(duration));
    }
  }

  /** The duration task `i` is given: one hour, two hours, or the distance to the next later start. */
  method DurationOf(a: array<ImportedTask>, i: nat, ghost orig: seq<ImportedTask>) returns (duration: nat)
    requires i < a.Length && SameStarts(a[..], orig) && a[i].startTime == orig[i].startTime
    ensures duration == InferredDuration(orig, i)
  {
    var current := StartMinutes(a[i]);
    if current.None? {
      duration := 10;
    } else {
      var cur := current.value;
      var best := EarliestLaterStart(a, a[i].date, cur);
      NextStartSameStarts(a[..], orig, a[i].date, cur);
      duration := if best.Some? then TenthsBetween(cur, best.value) else 20;
    }
  }

  /**
   * `infer_import_durations`: each task without a duration gets one hour
   * when it has no valid start, otherwise the distance to the next later
   * start on the same date rounded to tenths (at least half an hour), or two
   * hours when none follows.
   */
  method InferImportDurations(a: array<ImportedTask>)
    modifies a
    ensures a[..] == Inferred(old(a[..]))
  {
    ghost var orig := a[..];
    var i := 0;
    while i < a.Length
      invariant 0 <= i <= a.Length
      invariant forall k :: 0 <= k < i ==> a[k] == Inferred(orig)[k]
      invariant forall k :: i <= k < a.Length ==> a[k] == orig[k]
      invariant SameStarts(a[..], orig)
    {
      FillDuration(a, i, orig);
      i := i + 1;
    }
    assert a[..] == Inferred(orig);
  }

  // ---------------------------------------------------------------- properties

  /** Inference fills every duration, keeps given ones and changes nothing else. */
  lemma InferredShape(tasks: seq<ImportedTask>)
    ensures forall k :: 0 <= k < |tasks| ==> Inferred(tasks)[k].duration.Some?
    ensures forall k :: 0 <= k < |tasks| && tasks[k].duration.Some? ==> Inferred(tasks)[k] == tasks[k]
    ensures forall k :: 0 <= k < |tasks| ==> Inferred(tasks)[k].(duration := tasks[k].duration) == tasks[k]
  {
  }

  /**
   * A task with a valid start and a later start on its date lasts until that
   * start (rounded, at least half an hour); no task lasts past the next start
   * by more than the rounding.
   */
  lemma InferredUntilNext(tasks: seq<ImportedTask>, k: nat, j: nat)
    requires k < |tasks| && j < |tasks| && tasks[k].duration.None?
    requires StartMinutes(tasks[k]).Some? && StartsLater(tasks[j], tasks[k].date, StartMinutes(tasks[k]).value)
    ensures Inferred(tasks)[k].duration.value >= 5
    ensures Inferred(tasks)[k].duration.value <= if StartMinutes(tasks[j]).value - StartMinutes(tasks[k]).value < 30 then 5
      else (StartMinutes(tasks[j]).value - StartMinutes(tasks[k]).value + 3) / 6
  {
    var cur := StartMinutes(tasks[k]).value;
    var next := NextStart(tasks, tasks[k].date, cur);
    DivMonotone(next.value - cur + 3, StartMinutes(tasks[j]).value - cur + 3);
  }

  lemma DivMonotone(x: int, y: int)
    requires 0 <= x <= y
    ensures x / 6 <= y / 6
  {
  }

  /** The words kept out of tags form the title, separated by single spaces. */
  predicate TitleWord(w: string) {
    !StartsWith(w, "#")
  }

  lemma ScanWordsTitle(words: seq<string>, start: WordScan)
    requires start.title == ""
    requires forall w :: w in words ==> w != ""
    ensures ScanWords(words, start).title == Join(Filter(words, TitleWord), " ")
  {
    ScanWordsTitleFold(words, start);
    TitleFoldJoin(words, start.title);
    assert TitlePieces(start.title) + Filter(words, TitleWord) == Filter(words, TitleWord);
  }

  /** A title so far, as a list of one piece or none. */
  function TitlePieces(title: string): seq<string> {
    if title == "" then [] else [title]
  }

  /** The title after one word: a title word is appended, one space apart; a tag leaves it. */
  function TitleAfter(title: string, w: string): string {
    if !TitleWord(w) then title else if title == "" then w else title + " " + w
  }

  /** The title part of the word loop, on its own. */
  function TitleFold(words: seq<string>, title: string): string {
    if words == [] then title else TitleFold(words[1..], TitleAfter(title, words[0]))
  }

  /** The word loop builds its title as the title fold does. */
  lemma {:induction false} ScanWordsTitleFold(words: seq<string>, start: WordScan)
    ensures ScanWords(words, start).title == TitleFold(words, start.title)
  {
    if words != [] {
      var next := ScanWord(start, words[0]);
      assert next.title == TitleAfter(start.title, words[0]);
      ScanWordsTitleFold(words[1..], next);
    }
  }

  /** The title words are appended to the title so far, one space apart. */
  lemma {:induction false} TitleFoldJoin(words: seq<string>, title: string)
    requires forall w :: w in words ==> w != ""
    ensures TitleFold(words, title) == Join(TitlePieces(title) + Filter(words, TitleWord), " ")
  {
    var pre := TitlePieces(title);
    if words == [] {
      assert pre + [] == pre;
    } else {
      var w := words[0];
      var next := TitleAfter(title, w);
      assert forall v :: v in words[1..] ==> v in words;
      TitleFoldJoin(words[1..], next);
      var rest := Filter(words[1..], TitleWord);
      if TitleWord(w) {
        assert Filter(words, TitleWord) == [w] + rest;
        TitleStep(title, w, rest, next);
      } else {
        assert Filter(words, TitleWord) == rest;
      }
    }
  }

  /** A title word appended to the title so far, as the join of the pieces sees it. */
  lemma TitleStep(title: string, w: string, rest: seq<string>, newTitle: string)
    requires w != ""
    requires newTitle == if title == "" then w else title + " " + w
    ensures Join(TitlePieces(title) + ([w] + rest), " ") == Join(TitlePieces(newTitle) + rest, " ")
  {
    if title == "" {
      assert TitlePieces(title) + ([w] + rest) == TitlePieces(newTitle) + rest;
    } else {
      assert TitlePieces(title) + ([w] + rest) == [title, w] + rest;
      JoinPair(title, w, rest, " ");
    }
  }

  /** Joining `a + sep + b` in front of the rest is joining `a` and `b` there. */
  lemma JoinPair(a: string, b: string, rest: seq<string>, sep: string)
    ensures Join([a + sep + b] + rest, sep) == Join([a, b] + rest, sep)
  {
    assert ([a, b] + rest)[1..] == [b] + rest;
    if rest != [] {
      assert ([a + sep + b] + rest)[1..] == rest;
      assert ([b] + rest)[1..] == rest;
    }
  }

  /** A tag in lower case that is not a priority keyword. */
  predicate CleanTag(t: string) {
    Lower(t) == t && t != "high" && t != "urgent" && t != "low" && t != "medium"
  }

  /** No tag is a priority keyword, and every tag is in lower case. */
  lemma {:induction false} ScanWordsTags(words: seq<string>, start: WordScan)
    requires IsPriority(start.priority)
    requires forall t :: t in start.tags ==> CleanTag(t)
    ensures IsPriority(ScanWords(words, start).priority)
    ensures forall t :: t in ScanWords(words, start).tags ==> CleanTag(t)
  {
    if words != [] {
      ScanWordTags(start, words[0]);
      ScanWordsTags(words[1..], ScanWord(start, words[0]));
    }
  }

  /** One word keeps the priority a keyword and every tag clean. */
  lemma ScanWordTags(st: WordScan, part: string)
    requires IsPriority(st.priority)
    requires forall t :: t in st.tags ==> CleanTag(t)
    ensures IsPriority(ScanWord(st, part).priority)
    ensures forall t :: t in ScanWord(st, part).tags ==> CleanTag(t)
  {
    ScanWordTagStep(st, part);
    if TagWord(part) {
      LowerIdempotent(TrimStart(part, IsHash));
    }
  }

  /** One word: the priority becomes a keyword's or stays, and only a `#word` naming no keyword adds its name as a tag. */
  lemma ScanWordTagStep(st: WordScan, w: string)
    ensures ScanWord(st, w).tags == st.tags + (if TagWord(w) then [TagName(w)] else [])
    ensures ScanWord(st, w).priority == if KeywordWord(w) then PriorityOf(w) else st.priority
  {
  }

  /** A priority keyword, `medium` included: it sets the priority and never becomes a tag. */
  predicate Keyword(t: string) {
    t == "high" || t == "urgent" || t == "low" || t == "medium"
  }

  /** The name a `#word` gives: the word without its leading `#`s, in lower case. */
  function TagName(w: string): string {
    Lower(TrimStart(w, IsHash))
  }

  /** A `#word` naming a priority keyword. */
  predicate KeywordWord(w: string) {
    StartsWith(w, "#") && Keyword(TagName(w))
  }

  /** A `#word` naming no priority keyword: it becomes a tag. */
  predicate TagWord(w: string) {
    StartsWith(w, "#") && !Keyword(TagName(w))
  }

  /** The names of some `#word`s, in order. */
  function TagNames(ws: seq<string>): seq<string> {
    seq(|ws|, i requires 0 <= i < |ws| => TagName(ws[i]))
  }

  lemma TagNamesAppend(a: seq<string>, b: seq<string>)
    ensures TagNames(a + b) == TagNames(a) + TagNames(b)
  {
    var joined := TagNames(a + b);
    var apart := TagNames(a) + TagNames(b);
    assert |joined| == |apart|;
    forall i | 0 <= i < |joined|
      ensures joined[i] == apart[i]
    {
      if i < |a| {
        assert (a + b)[i] == a[i];
      } else {
        assert (a + b)[i] == b[i - |a|];
      }
    }
  }

  /** The tags gathered are those already there, then the names of the `#word`s naming no keyword, in order. */
  lemma {:induction false} ScanWordsTagsInOrder(words: seq<string>, start: WordScan)
    ensures ScanWords(words, start).tags == start.tags + TagNames(Filter(words, TagWord))
  {
    if words != [] {
      var w := words[0];
      var next := ScanWord(start, w);
      assert ScanWords(words, start) == ScanWords(words[1..], next);
      ScanWordsTagsInOrder(words[1..], next);
      ScanWordTagStep(start, w);
      TagNamesStep(words);
      AppendAssociative(start.tags, if TagWord(w) then [TagName(w)] else [], TagNames(Filter(words[1..], TagWord)));
    }
  }

  /** The tag names of some words: the first word's, if it is a tag, then the rest's. */
  lemma TagNamesStep(words: seq<string>)
    requires words != []
    ensures TagNames(Filter(words, TagWord))
      == (if TagWord(words[0]) then [TagName(words[0])] else []) + TagNames(Filter(words[1..], TagWord))
  {
    var first := if TagWord(words[0]) then [words[0]] else [];
    assert Filter(words, TagWord) == first + Filter(words[1..], TagWord);
    TagNamesAppend(first, Filter(words[1..], TagWord));
    assert TagNames(first) == if TagWord(words[0]) then [TagName(words[0])] else [];
  }

  /** The priority a keyword sets: high for `high` and `urgent`, otherwise the keyword itself. */
  function PriorityOf(w: string): string
    requires KeywordWord(w)
  {
    var t := TagName(w);
    if t == "high" || t == "urgent" then "high" else t
  }

  /** Words naming no keyword leave the priority as it was. */
  lemma {:induction false} NoKeywordKeepsPriority(words: seq<string>, start: WordScan)
    requires forall j :: 0 <= j < |words| ==> !KeywordWord(words[j])
    ensures ScanWords(words, start).priority == start.priority
  {
    if words != [] {
      assert !KeywordWord(words[0]);
      NoKeywordKeepsPriority(words[1..], ScanWord(start, words[0]));
    }
  }

  /** The last keyword decides the priority; `#medium` puts it back to medium. */
  lemma {:induction false} LastKeywordWins(words: seq<string>, start: WordScan, i: nat)
    requires i < |words| && KeywordWord(words[i])
    requires forall j :: i < j < |words| ==> !KeywordWord(words[j])
    ensures ScanWords(words, start).priority == PriorityOf(words[i])
  {
    var next := ScanWord(start, words[0]);
    if i == 0 {
      NoKeywordKeepsPriority(words[1..], next);
    } else {
      LastKeywordWins(words[1..], next, i - 1);
    }
  }

  /** The number of lines that are task-list items once trimmed. */
  function TaskLineCount(lines: seq<string>): nat {
    if lines == [] then 0
    else (if IsTaskLine(Trim(lines[0], IsRustSpace)) then 1 else 0) + TaskLineCount(lines[1..])
  }

  /** What every imported task satisfies before durations are filled in. */
  predicate WellFormedTask(t: ImportedTask, today: string) {
    && t.title != ""
    && IsPriority(t.priority)
    && (t.status == "done" || t.status == "todo")
    && t.duration.None?
    && (t.date == today || IsIsoDate(t.date))
    && (forall g :: g in t.tags ==> CleanTag(g))
    && (t.startTime.Some? ==> ParseClockMinutes(t.startTime.value).Some?)
  }

  /** A reader that yields tasks only for task-list lines. */
  ghost predicate ReadsOnlyTaskLines(read: LineReader) {
    forall trimmed, date :: read(trimmed, date).Some? ==> IsTaskLine(trimmed)
  }

  /** A reader whose tasks are well formed whenever the current date is empty or a date. */
  ghost predicate ReadsWellFormed(read: LineReader, today: string) {
    forall trimmed, date :: (date == "" || IsIsoDate(date)) && read(trimmed, date).Some? ==>
      WellFormedTask(read(trimmed, date).value, today)
  }

  /** A date step that keeps the current date empty or a date. */
  ghost predicate StepsToDates(next: DateStep) {
    forall trimmed, date :: (date == "" || IsIsoDate(date)) ==> (next(trimmed, date) == "" || IsIsoDate(next(trimmed, date)))
  }

  /** The importer's reader keeps both promises. */
  lemma ReaderPromises(today: string)
    ensures ReadsOnlyTaskLines(Reader(today))
    ensures ReadsWellFormed(Reader(today), today)
  {
    forall trimmed, date ensures Reader(today)(trimmed, date) == TaskLine(trimmed, date, today) {
    }
  }

  /** The importer's date step keeps the current date empty or a date. */
  lemma NextDatePromise()
    ensures StepsToDates(NextDate)
  {
  }

  /** Every task of the fold is well formed when the reader's tasks are. */
  lemma {:induction false} PlanWithWellFormed(lines: seq<string>, currentDate: string, next: DateStep, read: LineReader, today: string)
    requires currentDate == "" || IsIsoDate(currentDate)
    requires StepsToDates(next)
    requires ReadsWellFormed(read, today)
    ensures forall t :: t in PlanWith(lines, currentDate, next, read) ==> WellFormedTask(t, today)
  {
    if lines != [] {
      var trimmed := Trim(lines[0], IsRustSpace);
      var date := next(trimmed, currentDate);
      assert date == "" || IsIsoDate(date);
      PlanWithWellFormed(lines[1..], date, next, read, today);
      var head := AsList(read(trimmed, date));
      assert forall t :: t in head ==> WellFormedTask(t, today);
      assert PlanWith(lines, currentDate, next, read) == head + PlanWith(lines[1..], date, next, read);
    }
  }

  /** Only task-list lines yield tasks, at most one each. */
  lemma {:induction false} PlanWithCount(lines: seq<string>, currentDate: string, next: DateStep, read: LineReader)
    requires ReadsOnlyTaskLines(read)
    ensures |PlanWith(lines, currentDate, next, read)| <= TaskLineCount(lines)
  {
    if lines != [] {
      PlanWithCount(lines[1..], next(Trim(lines[0], IsRustSpace), currentDate), next, read);
    }
  }

  /**
   * The plan of a whole document: only task-list lines yield tasks, at most
   * one each, and every task has a title, a priority keyword, a status, a
   * valid start if any, clean tags and a date that is `today` or a date.
   */
  lemma PlanTasksWellFormed(content: string, today: string)
    ensures |PlanTasks(content, today)| <= TaskLineCount(Lines(content))
    ensures forall t :: t in PlanTasks(content, today) ==> WellFormedTask(t, today)
  {
    ReaderPromises(today);
    NextDatePromise();
    PlanWithWellFormed(Lines(content), "", NextDate, Reader(today), today);
    PlanWithCount(Lines(content), "", NextDate, Reader(today));
  }
}
