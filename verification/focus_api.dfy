/**
 * The request rules of the focus endpoints of the LAN gateway
 * (src-tauri/src/lib.rs): the checks and defaults applied to a focus
 * template before it is written, the checks of `db_start_focus_run` and
 * `db_finish_focus_run`, the row those two write, and the way an error text
 * becomes an HTTP status.
 */
module FocusApi {
  import opened Wrappers
  import opened Text

  const BadRequest := 400
  const NotFound := 404
  const InternalServerError := 500
  const NoContent := 204

  /** The `(StatusCode, String)` pair a handler fails with. */
  datatype ApiError = ApiError(status: int, message: string)

  /** A saved timer preset (`FocusTemplate`). */
  datatype FocusTemplate = FocusTemplate(
    id: string,
    name: string,
    timerType: string,
    durationMinutes: int,
    tagsJson: string,
    linkedTaskTitle: Option<string>,
    colorToken: Option<string>,
    isArchived: int,
    createdAt: string,
    updatedAt: string)

  /** One focus session (`FocusRun`). */
  datatype FocusRun = FocusRun(
    id: string,
    source: string,
    templateId: Option<string>,
    taskId: Option<string>,
    timerType: string,
    plannedMinutes: int,
    actualSeconds: int,
    status: string,
    startedAt: string,
    endedAt: Option<string>,
    date: string,
    tagsJson: string,
    note: Option<string>,
    createdAt: string,
    updatedAt: string)

  /** The body of a start request (`StartFocusRunPayload`). */
  datatype StartRunPayload = StartRunPayload(
    source: string,
    templateId: Option<string>,
    taskId: Option<string>,
    timerType: string,
    plannedMinutes: int,
    date: Option<string>,
    tagsJson: Option<string>,
    note: Option<string>)

  /** The body of a finish request (`FinishFocusRunPayload`). */
  datatype FinishRunPayload = FinishRunPayload(
    actualSeconds: int,
    status: string,
    endedAt: Option<string>,
    tagsJson: Option<string>,
    note: Option<string>)

  const NameRequired := "template.name 不能为空"
  const DurationRequired := "template.duration_minutes 必须大于 0"
  const SourceRequired := "source 不能为空"
  const PlannedRequired := "planned_minutes 必须大于 0"
  const TimerTypeRequired := "timer_type 不能为空"
  const StatusUnsupported := "status 仅支持 completed 或 aborted"
  const TemplateMissing := "Focus template not found"
  const RunMissing := "Focus run not found"
  const DefaultTimerType := "pomodoro"
  const EmptyTags := "[]"

  /** `s.trim().is_empty()`: the text is white space from end to end. */
  predicate IsBlank(s: string) {
    s == [] || (IsRustSpace(s[0]) && IsBlank(s[1..]))
  }

  /** Being blank is having nothing left after trimming. */
  lemma {:induction false} BlankIffTrimmedEmpty(s: string)
    ensures IsBlank(s) <==> Trim(s, IsRustSpace) == []
  {
    SpacesBlank(s);
    TrimEmptyIffBlank(s, IsRustSpace);
  }

  lemma {:induction false} SpacesBlank(s: string)
    ensures IsBlank(s) <==> Blank(s, IsRustSpace)
  {
    if s != [] {
      SpacesBlank(s[1..]);
      assert forall k :: 1 <= k < |s| ==> s[k] == s[1..][k - 1];
    }
  }

  /** The checks the create and update handlers run first: the name first, then the duration. */
  function TemplateProblem(t: FocusTemplate): (r: Option<ApiError>)
    ensures r.None? <==> !IsBlank(t.name) && t.durationMinutes > 0
    ensures r.Some? ==> r.value.status == BadRequest
    ensures r.Some? ==> r.value.message == if IsBlank(t.name) then NameRequired else DurationRequired
  {
    if IsBlank(t.name) then Some(ApiError(BadRequest, NameRequired))
    else if t.durationMinutes <= 0 then Some(ApiError(BadRequest, DurationRequired))
    else None
  }

  /** A blank timer type becomes "pomodoro" and blank tags become "[]". */
  function WithDefaults(t: FocusTemplate): (r: FocusTemplate)
    ensures r == t.(timerType := r.timerType, tagsJson := r.tagsJson)
    ensures r.timerType == if IsBlank(t.timerType) then DefaultTimerType else t.timerType
    ensures r.tagsJson == if IsBlank(t.tagsJson) then EmptyTags else t.tagsJson
    ensures !IsBlank(r.timerType) && !IsBlank(r.tagsJson)
  {
    t.(timerType := if IsBlank(t.timerType) then DefaultTimerType else t.timerType,
       tagsJson := if IsBlank(t.tagsJson) then EmptyTags else t.tagsJson)
  }

  /** What a template passing the checks and carrying its defaults looks like. */
  predicate Prepared(t: FocusTemplate) {
    !IsBlank(t.name) && t.durationMinutes > 0
    && !IsBlank(t.timerType) && !IsBlank(t.tagsJson)
    && !IsBlank(t.id) && !IsBlank(t.createdAt)
  }

  /**
   * `api_create_focus_template_handler` up to the insert: the checks, then a
   * generated id for a blank one, the defaults, the creation time for a blank
   * one, and `now` as the update time.
   */
  function NewTemplate(t: FocusTemplate, generatedId: string, now: string): (r: Result<FocusTemplate, ApiError>)
    ensures r.Err? <==> IsBlank(t.name) || t.durationMinutes <= 0
    ensures r.Err? ==> r.error.status == BadRequest
    ensures r.Ok? ==> r.value.name == t.name && r.value.durationMinutes == t.durationMinutes
    ensures r.Ok? ==> r.value.linkedTaskTitle == t.linkedTaskTitle && r.value.colorToken == t.colorToken
    ensures r.Ok? ==> r.value.isArchived == t.isArchived && r.value.updatedAt == now
    ensures r.Ok? ==> r.value.id == if IsBlank(t.id) then generatedId else t.id
    ensures r.Ok? ==> r.value.createdAt == if IsBlank(t.createdAt) then now else t.createdAt
    ensures r.Ok? ==> r.value.timerType == if IsBlank(t.timerType) then DefaultTimerType else t.timerType
    ensures r.Ok? ==> r.value.tagsJson == if IsBlank(t.tagsJson) then EmptyTags else t.tagsJson
    ensures r.Ok? && !IsBlank(generatedId) && !IsBlank(now) ==> Prepared(r.value)
  {
    match TemplateProblem(t)
    case Some(e) => Err(e)
    case None =>
      var d := WithDefaults(t);
      Ok(d.(id := if IsBlank(t.id) then generatedId else t.id,
            createdAt := if IsBlank(t.createdAt) then now else t.createdAt,
            updatedAt := now))
  }

  /**
   * `api_update_focus_template_handler` up to the update: the same checks and
   * defaults, the id taken from the path, `now` as the update time and, for a
   * blank creation time, `now` again.
   */
  function UpdatedTemplate(id: string, t: FocusTemplate, now: string): (r: Result<FocusTemplate, ApiError>)
    ensures r.Err? <==> IsBlank(t.name) || t.durationMinutes <= 0
    ensures r.Err? ==> r.error.status == BadRequest
    ensures r.Ok? ==> r.value.id == id && r.value.name == t.name && r.value.durationMinutes == t.durationMinutes
    ensures r.Ok? ==> r.value.linkedTaskTitle == t.linkedTaskTitle && r.value.colorToken == t.colorToken
    ensures r.Ok? ==> r.value.isArchived == t.isArchived && r.value.updatedAt == now
    ensures r.Ok? ==> r.value.createdAt == if IsBlank(t.createdAt) then now else t.createdAt
    ensures r.Ok? ==> r.value.timerType == if IsBlank(t.timerType) then DefaultTimerType else t.timerType
    ensures r.Ok? ==> r.value.tagsJson == if IsBlank(t.tagsJson) then EmptyTags else t.tagsJson
  {
    match TemplateProblem(t)
    case Some(e) => Err(e)
    case None =>
      var d := WithDefaults(t);
      Ok(d.(id := id, updatedAt := now, createdAt := if IsBlank(t.createdAt) then now else t.createdAt))
  }

  /** Preparing a prepared template again, at the same time, changes nothing. */
  lemma NewTemplateIdempotent(t: FocusTemplate, generatedId: string, now: string, otherId: string)
    requires NewTemplate(t, generatedId, now).Ok?
    requires !IsBlank(generatedId) && !IsBlank(now)
    ensures NewTemplate(NewTemplate(t, generatedId, now).value, otherId, now) == NewTemplate(t, generatedId, now)
  {
    var p := NewTemplate(t, generatedId, now).value;
    var q := NewTemplate(p, otherId, now);
    assert Prepared(p);
    assert q.Ok?;
    assert q.value == p;
  }

  /** `db_start_focus_run`'s checks, in order: the source, the planned minutes, the timer type. */
  function RunProblem(p: StartRunPayload): (r: Option<string>)
    ensures r.None? <==> !IsBlank(p.source) && p.plannedMinutes > 0 && !IsBlank(p.timerType)
    ensures r.Some? ==> r.value in {SourceRequired, PlannedRequired, TimerTypeRequired}
  {
    if IsBlank(p.source) then Some(SourceRequired)
    else if p.plannedMinutes <= 0 then Some(PlannedRequired)
    else if IsBlank(p.timerType) then Some(TimerTypeRequired)
    else None
  }

  /** A run that is under way: nothing elapsed and no end. */
  predicate Running(run: FocusRun) {
    run.status == "running" && run.actualSeconds == 0 && run.endedAt.None?
  }

  /**
   * The row `db_start_focus_run` inserts: source and timer type trimmed, the
   * date defaulting to today and the tags to "[]", all three time stamps `now`.
   */
  function NewRun(p: StartRunPayload, generatedId: string, now: string, today: string): (r: Result<FocusRun, string>)
    ensures r.Err? <==> RunProblem(p).Some?
    ensures r.Ok? ==> Running(r.value) && r.value.id == generatedId
    ensures r.Ok? ==> r.value.source != [] && Trimmed(r.value.source, IsRustSpace)
    ensures r.Ok? ==> r.value.timerType != [] && Trimmed(r.value.timerType, IsRustSpace)
    ensures r.Ok? ==> r.value.plannedMinutes == p.plannedMinutes > 0
    ensures r.Ok? ==> r.value.templateId == p.templateId && r.value.taskId == p.taskId && r.value.note == p.note
    ensures r.Ok? ==> r.value.date == p.date.GetOr(today) && r.value.tagsJson == p.tagsJson.GetOr(EmptyTags)
    ensures r.Ok? ==> r.value.startedAt == now && r.value.createdAt == now && r.value.updatedAt == now
  {
    match RunProblem(p)
    case Some(e) => Err(e)
    case None =>
      BlankIffTrimmedEmpty(p.source);
      BlankIffTrimmedEmpty(p.timerType);
      Ok(FocusRun(generatedId, Trim(p.source, IsRustSpace), p.templateId, p.taskId, Trim(p.timerType, IsRustSpace),
        p.plannedMinutes, 0, "running", now, None, p.date.GetOr(today), p.tagsJson.GetOr(EmptyTags), p.note, now, now))
  }

  /** The status a finish request asks for, trimmed and lower-cased; only "completed" and "aborted" pass. */
  function FinishStatus(status: string): (r: Result<string, string>)
    ensures r.Ok? <==> Lower(Trim(status, IsRustSpace)) in {"completed", "aborted"}
    ensures r.Ok? ==> r.value == Lower(Trim(status, IsRustSpace))
    ensures r.Err? ==> r.error == StatusUnsupported
  {
    var next := Lower(Trim(status, IsRustSpace));
    if next != "completed" && next != "aborted" then Err(StatusUnsupported) else Ok(next)
  }

  /**
   * The row `db_finish_focus_run` leaves behind: the elapsed seconds clamped at
   * zero, the new status, an end time (the given one or `endedNow`), tags and
   * note replaced only when given, and `updatedNow` as the update time.
   */
  function FinishedRun(run: FocusRun, p: FinishRunPayload, status: string, endedNow: string, updatedNow: string): (r: FocusRun)
    ensures r == run.(actualSeconds := r.actualSeconds, status := status, endedAt := r.endedAt,
      tagsJson := r.tagsJson, note := r.note, updatedAt := updatedNow)
    ensures r.actualSeconds >= 0 && (p.actualSeconds >= 0 ==> r.actualSeconds == p.actualSeconds)
    ensures r.endedAt == Some(p.endedAt.GetOr(endedNow))
    ensures r.tagsJson == p.tagsJson.GetOr(run.tagsJson) && r.note == (if p.note.Some? then p.note else run.note)
  {
    run.(actualSeconds := if p.actualSeconds > 0 then p.actualSeconds else 0,
         status := status,
         endedAt := Some(p.endedAt.GetOr(endedNow)),
         tagsJson := p.tagsJson.GetOr(run.tagsJson),
         note := if p.note.Some? then p.note else run.note,
         updatedAt := updatedNow)
  }

  /** A finished run is no longer running: it has an end, a final status and no negative time. */
  lemma FinishedIsFinal(run: FocusRun, p: FinishRunPayload, endedNow: string, updatedNow: string)
    requires FinishStatus(p.status).Ok?
    ensures var done := FinishedRun(run, p, FinishStatus(p.status).value, endedNow, updatedNow);
      !Running(done) && done.status in {"completed", "aborted"} && done.endedAt.Some? && done.actualSeconds >= 0
      && done.id == run.id && done.source == run.source && done.startedAt == run.startedAt
  {
  }

  /** How the update, archive and finish handlers turn an error text into a status: "not found" gives 404. */
  function NotFoundOr(e: string, otherwise: int): (r: ApiError)
    ensures r.message == e
    ensures Contains(e, "not found") ==> r.status == NotFound
    ensures !Contains(e, "not found") ==> r.status == otherwise
  {
    if Contains(e, "not found") then ApiError(NotFound, e) else ApiError(otherwise, e)
  }

  /** A text lacking one character of a pattern does not contain it. */
  lemma LacksCharNotContained(s: string, pat: string, c: char)
    requires c in pat && c !in s
    ensures !Contains(s, pat)
  {
    var k :| 0 <= k < |pat| && pat[k] == c;
    forall j | 0 <= j <= |s|
      ensures !OccursAt(s, pat, j)
    {
      if j + |pat| <= |s| {
        assert s[j..j + |pat|][k] == s[j + k] != c;
      }
    }
  }

  /** The missing-row texts map to 404, and the status check of a finish request stays a 400. */
  lemma StatusMapping()
    ensures NotFoundOr(TemplateMissing, InternalServerError).status == NotFound
    ensures NotFoundOr(RunMissing, BadRequest).status == NotFound
    ensures NotFoundOr(StatusUnsupported, BadRequest).status == BadRequest
  {
    assert OccursAt(TemplateMissing, "not found", 15);
    assert OccursAt(RunMissing, "not found", 10);
    LacksCharNotContained(StatusUnsupported, "not found", 'f');
  }
}
