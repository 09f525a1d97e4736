/**
 * The writing handlers of the LAN gateway (src-tauri/src/lib.rs): each one
 * checks its request, writes to the database and, only once the write has
 * succeeded, publishes a sync action to every listener. The database is three
 * tables keyed by id; a statement can also fail for reasons outside the
 * model (the `outage` parameters), and the published actions are an append-only
 * log.
 */
module LanGateway {
  import opened Wrappers
  import opened Text
  import opened FocusApi

  /** A planner task row (`Task`); the duration in hours is kept as a real number. */
  datatype Task = Task(
    id: string,
    title: string,
    description: string,
    status: string,
    priority: string,
    date: string,
    startTime: string,
    duration: real,
    tags: string,
    repeatType: string,
    timerType: string,
    timerDuration: int,
    createdAt: string,
    updatedAt: string)

  const SyncTasks := "SYNC_TASKS"
  const SyncFocusTemplates := "SYNC_FOCUS_TEMPLATES"
  const SyncFocusRuns := "SYNC_FOCUS_RUNS"

  /** What SQLite answers when an insert reuses a primary key. */
  const KeyConflict := "UNIQUE constraint failed"

  /** The JSON text `emit_sync_action` sends for an action. */
  function SyncPayload(action: string): (r: string)
    ensures StartsWith(r, "{\"action\":\"") && EndsWith(r, action + "\"}")
  {
    var head := "{\"action\":\"";
    var r := head + action + "\"}";
    assert r[..|head|] == head;
    assert r[|r| - |action + "\"}"|..] == action + "\"}";
    r
  }

  /** The row an UPDATE of a task leaves in place of `stored`: every column but the id and the creation time. */
  function TaskUpdate(stored: Task, t: Task): Task {
    t.(id := stored.id, createdAt := stored.createdAt)
  }

  /** The row an UPDATE of a template leaves in place of `stored`: every column but the id and the creation time. */
  function TemplateUpdate(stored: FocusTemplate, t: FocusTemplate): FocusTemplate {
    t.(id := stored.id, createdAt := stored.createdAt)
  }

  /** The runs table after finishing run `id` with an accepted status: only a known id is rewritten. */
  function FinishWriteRuns(id: string, p: FinishRunPayload, status: string, endedNow: string, updatedNow: string,
                           outage: Option<string>, runs: map<string, FocusRun>): map<string, FocusRun>
  {
    if outage.None? && id in runs then runs[id := FinishedRun(runs[id], p, status, endedNow, updatedNow)] else runs
  }

  /** What finishing run `id` with an accepted status answers, against the runs table before the call. */
  function FinishWrite(id: string, p: FinishRunPayload, status: string, endedNow: string, updatedNow: string,
                       outage: Option<string>, refetchOutage: Option<string>, runs: map<string, FocusRun>)
    : Result<FocusRun, ApiError>
  {
    if outage.Some? then Err(NotFoundOr("Failed to finish focus run: " + outage.value, BadRequest))
    else if id !in runs then Err(NotFoundOr(RunMissing, BadRequest))
    else if refetchOutage.Some? then Err(NotFoundOr("Failed to fetch finished focus run: " + refetchOutage.value, BadRequest))
    else Ok(FinishedRun(runs[id], p, status, endedNow, updatedNow))
  }

  /** Finishing answers 404 exactly for an unknown id and touches nothing on failure of the update itself. */
  lemma FinishWriteOutcome(id: string, p: FinishRunPayload, status: string, endedNow: string, updatedNow: string,
                           outage: Option<string>, refetchOutage: Option<string>, runs: map<string, FocusRun>)
    ensures outage.None? && id !in runs ==>
      FinishWrite(id, p, status, endedNow, updatedNow, outage, refetchOutage, runs) == Err(ApiError(NotFound, RunMissing))
    ensures FinishWrite(id, p, status, endedNow, updatedNow, outage, refetchOutage, runs).Ok?
      <==> outage.None? && id in runs && refetchOutage.None?
    ensures FinishWriteRuns(id, p, status, endedNow, updatedNow, outage, runs) != runs ==> id in runs && outage.None?
    ensures FinishWrite(id, p, status, endedNow, updatedNow, outage, refetchOutage, runs).Ok? ==>
      FinishWrite(id, p, status, endedNow, updatedNow, outage, refetchOutage, runs).value
        == FinishWriteRuns(id, p, status, endedNow, updatedNow, outage, runs)[id]
  {
    StatusMapping();
  }

  /** The database and the sync hub the gateway's handlers share. */
  class LanState {
    var tasks: map<string, Task>
    var templates: map<string, FocusTemplate>
    var runs: map<string, FocusRun>
    /** Every action published so far, oldest first. */
    var published: seq<string>

    /** Every row is stored under its own id. */
    ghost predicate Valid()
      reads this
    {
      && (forall id :: id in tasks ==> tasks[id].id == id)
      && (forall id :: id in templates ==> templates[id].id == id)
      && (forall id :: id in runs ==> runs[id].id == id)
    }

    constructor ()
      ensures Valid()
      ensures tasks == map[] && templates == map[] && runs == map[] && published == []
    {
      tasks := map[];
      templates := map[];
      runs := map[];
      published := [];
    }

    /** `api_create_task_handler`: insert the task, then publish. */
    method CreateTask(task: Task, outage: Option<string>) returns (r: Result<Task, ApiError>)
      requires Valid()
      modifies this
      ensures Valid() && templates == old(templates) && runs == old(runs)
      ensures outage.Some? ==> r == Err(ApiError(InternalServerError, "Failed to create task: " + outage.value))
      ensures outage.None? && task.id in old(tasks) ==>
        r == Err(ApiError(InternalServerError, "Failed to create task: " + KeyConflict))
      ensures r.Err? ==> tasks == old(tasks) && published == old(published)
      ensures r.Ok? ==> r.value == task && tasks == old(tasks)[task.id := task]
      ensures r.Ok? ==> published == old(published) + [SyncTasks]
      ensures r.Ok? <==> outage.None? && task.id !in old(tasks)
    {
      if outage.Some? {
        return Err(ApiError(InternalServerError, "Failed to create task: " + outage.value));
      }
      if task.id in tasks {
        return Err(ApiError(InternalServerError, "Failed to create task: " + KeyConflict));
      }
      tasks := tasks[task.id := task];
      published := published + [SyncTasks];
      r := Ok(task);
    }

    /**
     * `api_update_task_handler`: the id comes from the path; an id with no row
     * updates nothing and still answers with the task and publishes.
     */
    method UpdateTask(id: string, task: Task, outage: Option<string>) returns (r: Result<Task, ApiError>)
      requires Valid()
      modifies this
      ensures Valid() && templates == old(templates) && runs == old(runs)
      ensures outage.Some? ==> r == Err(ApiError(InternalServerError, "Failed to update task: " + outage.value))
      ensures outage.Some? ==> tasks == old(tasks) && published == old(published)
      ensures outage.None? ==> r == Ok(task.(id := id)) && published == old(published) + [SyncTasks]
      ensures outage.None? && id in old(tasks) ==> tasks == old(tasks)[id := TaskUpdate(old(tasks)[id], task)]
      ensures outage.None? && id !in old(tasks) ==> tasks == old(tasks)
    {
      var t := task.(id := id);
      if outage.Some? {
        return Err(ApiError(InternalServerError, "Failed to update task: " + outage.value));
      }
      if id in tasks {
        tasks := tasks[id := TaskUpdate(tasks[id], t)];
      }
      published := published + [SyncTasks];
      r := Ok(t);
    }

    /** `api_delete_task_handler`: delete the row if there is one, then publish; 204 either way. */
    method DeleteTask(id: string, outage: Option<string>) returns (r: Result<int, ApiError>)
      requires Valid()
      modifies this
      ensures Valid() && templates == old(templates) && runs == old(runs)
      ensures outage.Some? ==> r == Err(ApiError(InternalServerError, "Failed to delete task: " + outage.value))
      ensures outage.Some? ==> tasks == old(tasks) && published == old(published)
      ensures outage.None? ==> r == Ok(NoContent) && tasks == old(tasks) - {id}
      ensures outage.None? ==> published == old(published) + [SyncTasks]
    {
      if outage.Some? {
        return Err(ApiError(InternalServerError, "Failed to delete task: " + outage.value));
      }
      tasks := tasks - {id};
      published := published + [SyncTasks];
      r := Ok(NoContent);
    }

    /**
     * `api_create_focus_template_handler`: a blank name or a duration that is
     * not positive is refused with 400 before the database is touched.
     */
    method CreateTemplate(template: FocusTemplate, generatedId: string, now: string, outage: Option<string>)
      returns (r: Result<FocusTemplate, ApiError>)
      requires Valid()
      modifies this
      ensures Valid() && tasks == old(tasks) && runs == old(runs)
      ensures NewTemplate(template, generatedId, now).Err? ==>
        r == NewTemplate(template, generatedId, now) && templates == old(templates) && published == old(published)
      ensures r.Err? ==> templates == old(templates) && published == old(published)
      ensures r.Ok? <==> (NewTemplate(template, generatedId, now).Ok? && outage.None?
        && NewTemplate(template, generatedId, now).value.id !in old(templates))
      ensures r.Ok? ==> r == NewTemplate(template, generatedId, now)
      ensures r.Ok? ==> templates == old(templates)[r.value.id := r.value]
      ensures r.Ok? ==> published == old(published) + [SyncFocusTemplates]
    {
      var prepared := NewTemplate(template, generatedId, now);
      if prepared.Err? {
        return prepared;
      }
      var t := prepared.value;
      if outage.Some? {
        return Err(ApiError(InternalServerError, "Failed to create focus template: " + outage.value));
      }
      if t.id in templates {
        return Err(ApiError(InternalServerError, "Failed to create focus template: " + KeyConflict));
      }
      templates := templates[t.id := t];
      published := published + [SyncFocusTemplates];
      r := Ok(t);
    }

    /** `api_update_focus_template_handler`: 400 for a bad template, 404 for an unknown id. */
    method UpdateTemplate(id: string, template: FocusTemplate, now: string, outage: Option<string>)
      returns (r: Result<FocusTemplate, ApiError>)
      requires Valid()
      modifies this
      ensures Valid() && tasks == old(tasks) && runs == old(runs)
      ensures UpdatedTemplate(id, template, now).Err? ==> r == UpdatedTemplate(id, template, now)
      ensures UpdatedTemplate(id, template, now).Ok? && outage.None? && id !in old(templates) ==>
        r == Err(ApiError(NotFound, TemplateMissing))
      ensures r.Err? ==> templates == old(templates) && published == old(published)
      ensures r.Ok? <==> UpdatedTemplate(id, template, now).Ok? && outage.None? && id in old(templates)
      ensures r.Ok? ==> r == UpdatedTemplate(id, template, now)
      ensures r.Ok? ==> templates == old(templates)[id := TemplateUpdate(old(templates)[id], r.value)]
      ensures r.Ok? ==> published == old(published) + [SyncFocusTemplates]
    {
      var prepared := UpdatedTemplate(id, template, now);
      if prepared.Err? {
        return prepared;
      }
      if outage.Some? {
        return Err(NotFoundOr("Failed to update focus template: " + outage.value, InternalServerError));
      }
      if id !in templates {
        StatusMapping();
        return Err(NotFoundOr(TemplateMissing, InternalServerError));
      }
      templates := templates[id := TemplateUpdate(templates[id], prepared.value)];
      published := published + [SyncFocusTemplates];
      r := prepared;
    }

    /** `api_archive_focus_template_handler`: mark the row archived, 404 for an unknown id, 204 otherwise. */
    method ArchiveTemplate(id: string, now: string, outage: Option<string>) returns (r: Result<int, ApiError>)
      requires Valid()
      modifies this
      ensures Valid() && tasks == old(tasks) && runs == old(runs)
      ensures outage.None? && id !in old(templates) ==> r == Err(ApiError(NotFound, TemplateMissing))
      ensures r.Err? ==> templates == old(templates) && published == old(published)
      ensures r.Ok? <==> outage.None? && id in old(templates)
      ensures r.Ok? ==> r.value == NoContent
      ensures r.Ok? ==> templates == old(templates)[id := old(templates)[id].(isArchived := 1, updatedAt := now)]
      ensures r.Ok? ==> published == old(published) + [SyncFocusTemplates]
    {
      if outage.Some? {
        return Err(NotFoundOr("Failed to archive focus template: " + outage.value, InternalServerError));
      }
      if id !in templates {
        StatusMapping();
        return Err(NotFoundOr(TemplateMissing, InternalServerError));
      }
      templates := templates[id := templates[id].(isArchived := 1, updatedAt := now)];
      published := published + [SyncFocusTemplates];
      r := Ok(NoContent);
    }

    /** `api_start_focus_run_handler`: every failure, the checks included, is a 400. */
    method StartRun(payload: StartRunPayload, generatedId: string, now: string, today: string, outage: Option<string>)
      returns (r: Result<FocusRun, ApiError>)
      requires Valid()
      modifies this
      ensures Valid() && tasks == old(tasks) && templates == old(templates)
      ensures r.Err? ==> r.error.status == BadRequest && runs == old(runs) && published == old(published)
      ensures NewRun(payload, generatedId, now, today).Err? ==>
        r == Err(ApiError(BadRequest, NewRun(payload, generatedId, now, today).error))
      ensures r.Ok? <==> (NewRun(payload, generatedId, now, today).Ok? && outage.None? && generatedId !in old(runs))
      ensures r.Ok? ==> r.value == NewRun(payload, generatedId, now, today).value && Running(r.value)
      ensures r.Ok? ==> runs == old(runs)[generatedId := r.value]
      ensures r.Ok? ==> published == old(published) + [SyncFocusRuns]
    {
      var started := NewRun(payload, generatedId, now, today);
      if started.Err? {
        return Err(ApiError(BadRequest, started.error));
      }
      r := InsertRun(started.value, outage);
    }

    /** The INSERT of `db_start_focus_run` and the publication after it; the handler answers every failure with 400. */
    method InsertRun(run: FocusRun, outage: Option<string>) returns (r: Result<FocusRun, ApiError>)
      requires Valid()
      modifies this
      ensures Valid() && tasks == old(tasks) && templates == old(templates)
      ensures r.Err? ==> r.error.status == BadRequest && runs == old(runs) && published == old(published)
      ensures r.Ok? <==> outage.None? && run.id !in old(runs)
      ensures r.Ok? ==> r.value == run && runs == old(runs)[run.id := run]
      ensures r.Ok? ==> published == old(published) + [SyncFocusRuns]
    {
      if outage.Some? {
        return Err(ApiError(BadRequest, "Failed to start focus run: " + outage.value));
      }
      if run.id in runs {
        return Err(ApiError(BadRequest, "Failed to start focus run: " + KeyConflict));
      }
      runs := runs[run.id := run];
      published := published + [SyncFocusRuns];
      r := Ok(run);
    }

    /**
     * `api_finish_focus_run_handler`: 400 for an unsupported status, 404 for an
     * unknown id. When reading the row back fails (`refetchOutage`), the update
     * stays written but nothing is published.
     */
    method FinishRun(id: string, payload: FinishRunPayload, endedNow: string, updatedNow: string,
                     outage: Option<string>, refetchOutage: Option<string>)
      returns (r: Result<FocusRun, ApiError>)
      requires Valid()
      modifies this
      ensures Valid() && tasks == old(tasks) && templates == old(templates)
      ensures FinishStatus(payload.status).Err? ==> r == Err(ApiError(BadRequest, StatusUnsupported))
      ensures FinishStatus(payload.status).Err? ==> runs == old(runs) && published == old(published)
      ensures FinishStatus(payload.status).Ok? ==>
        r == FinishWrite(id, payload, FinishStatus(payload.status).value, endedNow, updatedNow, outage, refetchOutage, old(runs))
      ensures FinishStatus(payload.status).Ok? ==> runs == FinishWriteRuns(id, payload, FinishStatus(payload.status).value, endedNow, updatedNow, outage, old(runs))
      ensures r.Err? ==> published == old(published)
      ensures r.Ok? ==> r.value == runs[id] && published == old(published) + [SyncFocusRuns]
    {
      var status := FinishStatus(payload.status);
      if status.Err? {
        StatusMapping();
        return Err(NotFoundOr(status.error, BadRequest));
      }
      r := UpdateRun(id, payload, status.value, endedNow, updatedNow, outage, refetchOutage);
    }

    /** The UPDATE and read-back of `db_finish_focus_run` for an accepted status, and the publication after them. */
    method UpdateRun(id: string, payload: FinishRunPayload, status: string, endedNow: string, updatedNow: string,
                     outage: Option<string>, refetchOutage: Option<string>)
      returns (r: Result<FocusRun, ApiError>)
      requires Valid()
      modifies this
      ensures Valid() && tasks == old(tasks) && templates == old(templates)
      ensures r == FinishWrite(id, payload, status, endedNow, updatedNow, outage, refetchOutage, old(runs))
      ensures runs == FinishWriteRuns(id, payload, status, endedNow, updatedNow, outage, old(runs))
      ensures r.Err? ==> published == old(published)
      ensures r.Ok? ==> r.value == runs[id] && published == old(published) + [SyncFocusRuns]
    {
      if outage.Some? {
        return Err(NotFoundOr("Failed to finish focus run: " + outage.value, BadRequest));
      }
      if id !in runs {
        return Err(NotFoundOr(RunMissing, BadRequest));
      }
      runs := runs[id := FinishedRun(runs[id], payload, status, endedNow, updatedNow)];
      if refetchOutage.Some? {
        return Err(NotFoundOr("Failed to fetch finished focus run: " + refetchOutage.value, BadRequest));
      }
      published := published + [SyncFocusRuns];
      r := Ok(runs[id]);
    }
  }
}
