/**
 * The task controller's status rules: the three-value status check, the order
 * in which `createTask`, `updateTask` and `toggleTaskStatus` run their checks,
 * and the toggle transition, on a tasks table updated in place.
 */
module TaskController {
  import opened Wrappers
  import opened Http
  import opened TaskModel

  const MissingRequiredFields := ApiError(400, "Missing required fields")
  const InvalidStatus := ApiError(400, "Invalid status (Only To Do, In Progress and Done are allowed)")
  const ProjectIdRequired := ApiError(400, "Project ID is required")
  const TaskIdRequired := ApiError(400, "Task ID is required")
  const TaskRequired := ApiError(400, "Task is required")

  /** The task object in the body of a toggle request; only its status is read. */
  datatype TaskBody = TaskBody(status: Option<string>)

  /**
   * The controllers' test: a status is accepted only if it is one of the three
   * literals, which are exactly the values of the status column's ENUM.
   */
  function IsValidStatus(status: Option<string>): (valid: bool)
    ensures valid <==> status.Some? && status.value in StatusValues
  {
    status.Some? && (status.value == "To Do" || status.value == "In Progress" || status.value == "Done")
  }

  /** The toggle: a stored "To Do" becomes "In Progress"; any other stored status becomes "To Do". */
  function ToggledStatus(stored: string): (r: string)
    ensures IsValidStatus(Some(r)) && r != "Done"
    ensures r == "In Progress" <==> stored == "To Do"
  {
    if stored == "To Do" then "In Progress" else "To Do"
  }

  /** Toggling twice restores "To Do" and "In Progress"; from "Done" it ends at "In Progress". */
  lemma ToggleTwice(stored: string)
    ensures stored == "To Do" || stored == "In Progress" ==> ToggledStatus(ToggledStatus(stored)) == stored
    ensures stored == "Done" ==> ToggledStatus(ToggledStatus(stored)) == "In Progress"
  {
  }

  /** `createTask`'s checks: missing fields first, then the status value. */
  function CreateTaskCheck(title: Option<string>, status: Option<string>, projectId: Option<int>): (r: Option<Failure>)
    ensures r == Some(MissingRequiredFields) <==> !Present(title) || !Present(status) || projectId.None?
    ensures r == Some(InvalidStatus) <==>
      Present(title) && Present(status) && projectId.Some? && !IsValidStatus(status)
    ensures r.None? <==> Present(title) && IsValidStatus(status) && projectId.Some?
  {
    if !Present(title) || !Present(status) || projectId.None? then Some(MissingRequiredFields)
    else if !IsValidStatus(status) then Some(InvalidStatus)
    else if projectId.None? then Some(ProjectIdRequired)
    else None
  }

  /** `updateTask`'s checks: the status value first, so a missing status is reported as invalid. */
  function UpdateTaskCheck(title: Option<string>, status: Option<string>): (r: Option<Failure>)
    ensures r == Some(InvalidStatus) <==> !IsValidStatus(status)
    ensures r == Some(MissingRequiredFields) <==> IsValidStatus(status) && !Present(title)
    ensures r.None? <==> IsValidStatus(status) && Present(title)
  {
    if !IsValidStatus(status) then Some(InvalidStatus)
    else if !Present(title) || !Present(status) then Some(MissingRequiredFields)
    else None
  }

  /** `toggleTaskStatus`'s checks: the id, then the body's task, then the body task's status. */
  function ToggleTaskCheck(taskId: Option<int>, task: Option<TaskBody>): (r: Option<Failure>)
    ensures r == Some(TaskIdRequired) <==> taskId.None?
    ensures r == Some(TaskRequired) <==> taskId.Some? && task.None?
    ensures r == Some(InvalidStatus) <==> taskId.Some? && task.Some? && !IsValidStatus(task.value.status)
    ensures r.None? <==> taskId.Some? && task.Some? && IsValidStatus(task.value.status)
  {
    if taskId.None? then Some(TaskIdRequired)
    else if task.None? then Some(TaskRequired)
    else if !IsValidStatus(task.value.status) then Some(InvalidStatus)
    else None
  }

  /** The tasks table, updated in place by the handlers. */
  class TaskStore {
    var tasks: map<int, Task>
    var nextId: int

    /** Keys lie below the auto-increment counter and every stored status is one of the ENUM values. */
    ghost predicate Valid()
      reads this
    {
      forall k :: k in tasks ==> k < nextId && IsValidStatus(Some(tasks[k].status))
    }

    constructor ()
      ensures Valid() && tasks == map[] && nextId == 1
    {
      tasks := map[];
      nextId := 1;
    }

    /** `createTask` for the project `projectId`: on success one row is added with exactly the three values given. */
    method CreateTask(title: Option<string>, status: Option<string>, projectId: Option<int>)
      returns (r: Result<int, Failure>)
      requires Valid()
      modifies this
      ensures Valid()
      ensures CreateTaskCheck(title, status, projectId).Some? ==>
        r == Err(CreateTaskCheck(title, status, projectId).value) && tasks == old(tasks) && nextId == old(nextId)
      ensures CreateTaskCheck(title, status, projectId).None? ==>
        && r == Ok(200)
        && old(nextId) !in old(tasks)
        && tasks == old(tasks)[old(nextId) := Task(title.value, status.value, projectId.value)]
        && nextId == old(nextId) + 1
    {
      if !Present(title) || !Present(status) || projectId.None? {
        return Err(MissingRequiredFields);
      }
      if status.value != "To Do" && status.value != "In Progress" && status.value != "Done" {
        return Err(InvalidStatus);
      }
      if projectId.None? {
        return Err(ProjectIdRequired);
      }
      tasks := tasks[nextId := Task(title.value, status.value, projectId.value)];
      nextId := nextId + 1;
      r := Ok(200);
    }

    /**
     * `updateTask` on row `id`: only that row's title and status change. A
     * missing row makes the callback read a property of null.
     */
    method UpdateTask(id: int, title: Option<string>, status: Option<string>) returns (r: Result<int, Failure>)
      requires Valid()
      modifies this
      ensures Valid() && nextId == old(nextId)
      ensures UpdateTaskCheck(title, status).Some? ==>
        r == Err(UpdateTaskCheck(title, status).value) && tasks == old(tasks)
      ensures UpdateTaskCheck(title, status).None? && id !in old(tasks) ==>
        r == Err(Unhandled(TypeError)) && tasks == old(tasks)
      ensures UpdateTaskCheck(title, status).None? && id in old(tasks) ==>
        && r == Ok(200)
        && tasks == old(tasks)[id := old(tasks)[id].(title := title.value, status := status.value)]
        && tasks[id].projectId == old(tasks)[id].projectId
    {
      if !IsValidStatus(status) {
        return Err(InvalidStatus);
      }
      if !Present(title) || !Present(status) {
        return Err(MissingRequiredFields);
      }
      if id !in tasks {
        return Err(Unhandled(TypeError));
      }
      var task := tasks[id];
      task := task.(title := title.value);
      task := task.(status := status.value);
      tasks := tasks[id := task];
      r := Ok(200);
    }

    /**
     * `toggleTaskStatus`: the body's status is only validated; the new status
     * is derived from the stored one.
     */
    method ToggleTaskStatus(taskId: Option<int>, task: Option<TaskBody>) returns (r: Result<int, Failure>)
      requires Valid()
      modifies this
      ensures Valid() && nextId == old(nextId)
      ensures ToggleTaskCheck(taskId, task).Some? ==>
        r == Err(ToggleTaskCheck(taskId, task).value) && tasks == old(tasks)
      ensures ToggleTaskCheck(taskId, task).None? && taskId.value !in old(tasks) ==>
        r == Err(Unhandled(TypeError)) && tasks == old(tasks)
      ensures ToggleTaskCheck(taskId, task).None? && taskId.value in old(tasks) ==>
        && r == Ok(200)
        && tasks == old(tasks)[taskId.value := old(tasks)[taskId.value].(status := ToggledStatus(old(tasks)[taskId.value].status))]
    {
      if taskId.None? {
        return Err(TaskIdRequired);
      }
      if task.None? {
        return Err(TaskRequired);
      }
      if !IsValidStatus(task.value.status) {
        return Err(InvalidStatus);
      }
      var id := taskId.value;
      if id !in tasks {
        return Err(Unhandled(TypeError));
      }
      var stored := tasks[id];
      tasks := tasks[id := stored.(status := if stored.status == "To Do" then "In Progress" else "To Do")];
      r := Ok(200);
    }
  }
}
