/**
 * The task endpoints. Each handler is a function of the request and of what the
 * service returns; it yields the service calls it makes (none, or exactly one) and
 * the HTTP response. A handler that rejects a request makes no call, so the
 * service result it was given plays no part in its answer.
 */
module TaskController {
  import opened Wrappers
  import opened Models

  /** Where `String.trim` starts: the first index from `i` on holding a character above U+0020, or `|s|`. */
  function SkipLow(s: string, i: nat): (j: nat)
    requires i <= |s|
    ensures i <= j <= |s|
    ensures forall k :: i <= k < j ==> s[k] <= ' '
    ensures j < |s| ==> s[j] > ' '
    decreases |s| - i
  {
    if i < |s| && s[i] <= ' ' then SkipLow(s, i + 1) else i
  }

  /** Where `String.trim` ends: `len` pulled back over characters at or below U+0020, never below `st`. */
  function DropLow(s: string, st: nat, len: nat): (e: nat)
    requires st <= len <= |s|
    ensures st <= e <= len
    ensures forall k :: e <= k < len ==> s[k] <= ' '
    ensures e > st ==> s[e - 1] > ' '
    decreases len
  {
    if st < len && s[len - 1] <= ' ' then DropLow(s, st, len - 1) else len
  }

  /** `t` is `s` from index `i` on, less characters at or below U+0020 on either side. */
  ghost predicate TrimmedAt(s: string, t: string, i: int)
  {
    && 0 <= i <= |s| - |t|
    && (forall k :: 0 <= k < |t| ==> t[k] == s[i + k])
    && (forall k :: 0 <= k < i ==> s[k] <= ' ')
    && (forall k :: i + |t| <= k < |s| ==> s[k] <= ' ')
  }

  /** Java's `String.trim`: the string without its leading and trailing characters at or below U+0020. */
  function Trim(s: string): (t: string)
    ensures exists i :: TrimmedAt(s, t, i)
    ensures t != [] ==> t[0] > ' ' && t[|t| - 1] > ' '
  {
    var st := SkipLow(s, 0);
    var len := DropLow(s, st, |s|);
    assert TrimmedAt(s, s[st..len], st);
    s[st..len]
  }

  /** Java's `s == null || s.trim().isEmpty()`: null, or nothing above U+0020. */
  predicate IsBlank(s: Option<string>)
    ensures IsBlank(s) <==> s.None? || forall i :: 0 <= i < |s.value| ==> s.value[i] <= ' '
  {
    s.None? || Trim(s.value) == []
  }

  /** A string that is not blank has a character above U+0020: the first one its trim keeps. */
  lemma VisibleChar(s: string) returns (i: int)
    requires !IsBlank(Some(s))
    ensures 0 <= i < |s| && s[i] > ' '
    ensures i == SkipLow(s, 0)
  {
    i := SkipLow(s, 0);
  }

  datatype HttpStatus = Ok | Created | NoContent | BadRequest | NotFound
  {
    /** The numeric status code sent on the wire. */
    function Code(): (c: int)
      ensures 200 <= c < 300 <==> this in {Ok, Created, NoContent}
      ensures 400 <= c < 500 <==> this in {BadRequest, NotFound}
    {
      match this
      case Ok => 200
      case Created => 201
      case NoContent => 204
      case BadRequest => 400
      case NotFound => 404
    }
  }

  /** A response: its status and, for the statuses that carry one, its body. */
  datatype Response<T> = Response(status: HttpStatus, body: Option<T>)

  /** A call a handler makes on the task service. */
  datatype ServiceCall =
    | CreateCall(task: Task)
    | GetByIdCall(id: int)
    | GetAllCall
    | UpdateStatusCall(id: int, status: string)
    | DeleteCall(id: int)

  /** What a handler does: the service calls it makes, in order, and the response it returns. */
  datatype Handled<T> = Handled(calls: seq<ServiceCall>, response: Response<T>)

  /**
   * POST /api/tasks. `created` is what the service returns for the task. A blank title
   * is a 400 and no call; otherwise the task is passed on once and the result is a 201.
   */
  function CreateTask(task: Task, created: Task): (h: Handled<Task>)
    ensures h.response.status == BadRequest <==> IsBlank(task.title)
    ensures IsBlank(task.title) ==> h.calls == [] && h.response.body.None?
    ensures !IsBlank(task.title) ==> h.calls == [CreateCall(task)] && h.response.body == Some(created)
    ensures h.response.status in {BadRequest, Created}
    ensures h.response.status.Code() == if IsBlank(task.title) then 400 else 201
  {
    if IsBlank(task.title) then Handled([], Response(BadRequest, None))
    else Handled([CreateCall(task)], Response(Created, Some(created)))
  }

  /** GET /api/tasks/{id}. `found` is the service's lookup result: 200 with it, or 404. */
  function GetTaskById(id: int, found: Option<Task>): (h: Handled<Task>)
    ensures h.calls == [GetByIdCall(id)]
    ensures h.response.status == Ok <==> found.Some?
    ensures h.response.status == NotFound <==> found.None?
    ensures h.response.body == found
    ensures h.response.status.Code() == if found.Some? then 200 else 404
  {
    match found
    case Some(t) => Handled([GetByIdCall(id)], Response(Ok, Some(t)))
    case None => Handled([GetByIdCall(id)], Response(NotFound, None))
  }

  /** GET /api/tasks. Always 200, with the service's list as it came. */
  function GetAllTasks(tasks: seq<Task>): (h: Handled<seq<Task>>)
    ensures h.calls == [GetAllCall]
    ensures h.response.status == Ok && h.response.status.Code() == 200 && h.response.body.Some?
    ensures |h.response.body.value| == |tasks| && forall i :: 0 <= i < |tasks| ==> h.response.body.value[i] == tasks[i]
  {
    Handled([GetAllCall], Response(Ok, Some(tasks)))
  }

  /** The value of the body's `status` key: absent when the key is missing or its value is null. */
  function StatusField(statusUpdate: map<string, Option<string>>): (s: Option<string>)
    ensures "status" !in statusUpdate ==> s.None?
    ensures "status" in statusUpdate ==> s == statusUpdate["status"]
  {
    if "status" in statusUpdate then statusUpdate["status"] else None
  }

  /**
   * PUT /api/tasks/{id}/status. `updated` is the service's result (absent for null).
   * A missing or blank status is a 400 and no call; otherwise one call, then 200 or 404.
   */
  function UpdateTaskStatus(id: int, statusUpdate: map<string, Option<string>>, updated: Option<Task>): (h: Handled<Task>)
    ensures h.response.status == BadRequest <==> IsBlank(StatusField(statusUpdate))
    ensures IsBlank(StatusField(statusUpdate)) ==> h.calls == [] && h.response.body.None?
    ensures !IsBlank(StatusField(statusUpdate)) ==>
      && h.calls == [UpdateStatusCall(id, StatusField(statusUpdate).value)]
      && (h.response.status == Ok <==> updated.Some?)
      && (h.response.status == NotFound <==> updated.None?)
      && h.response.body == updated
    ensures h.response.status.Code() == if IsBlank(StatusField(statusUpdate)) then 400 else if updated.Some? then 200 else 404
  {
    var status := StatusField(statusUpdate);
    if IsBlank(status) then Handled([], Response(BadRequest, None))
    else
      var calls := [UpdateStatusCall(id, status.value)];
      if updated.Some? then Handled(calls, Response(Ok, updated))
      else Handled(calls, Response(NotFound, None))
  }

  /** DELETE /api/tasks/{id}. `deleted` is the service's answer: 204 when true, 404 when false. */
  function DeleteTask(id: int, deleted: bool): (h: Handled<()>)
    ensures h.calls == [DeleteCall(id)]
    ensures h.response.status == NoContent <==> deleted
    ensures h.response.status == NotFound <==> !deleted
    ensures h.response.body.None?
    ensures h.response.status.Code() == if deleted then 204 else 404
  {
    if deleted then Handled([DeleteCall(id)], Response(NoContent, None))
    else Handled([DeleteCall(id)], Response(NotFound, None))
  }

  /** Every handler makes at most one service call. */
  lemma AtMostOneCall(task: Task, created: Task, id: int, found: Option<Task>, tasks: seq<Task>,
                      statusUpdate: map<string, Option<string>>, updated: Option<Task>, deleted: bool)
    ensures |CreateTask(task, created).calls| <= 1
    ensures |GetTaskById(id, found).calls| == 1
    ensures |GetAllTasks(tasks).calls| == 1
    ensures |UpdateTaskStatus(id, statusUpdate, updated).calls| <= 1
    ensures |DeleteTask(id, deleted).calls| == 1
  {
  }

  /**
   * What reaches the service is never blank: a task passed to create has a title with
   * a character above U+0020, and so does a status passed to the status update.
   */
  lemma ServiceSeesNoBlank(task: Task, created: Task, id: int, statusUpdate: map<string, Option<string>>, updated: Option<Task>)
    ensures forall c :: c in CreateTask(task, created).calls ==>
      c.CreateCall? && c.task.title.Some? && exists i :: 0 <= i < |c.task.title.value| && c.task.title.value[i] > ' '
    ensures forall c :: c in UpdateTaskStatus(id, statusUpdate, updated).calls ==>
      c.UpdateStatusCall? && exists i :: 0 <= i < |c.status| && c.status[i] > ' '
  {
    if IsBlank(task.title) {
      assert CreateTask(task, created).calls == [];
    } else {
      var i := VisibleChar(task.title.value);
      assert CreateTask(task, created).calls == [CreateCall(task)];
    }
    var status := StatusField(statusUpdate);
    if IsBlank(status) {
      assert UpdateTaskStatus(id, statusUpdate, updated).calls == [];
    } else {
      var j := VisibleChar(status.value);
      assert UpdateTaskStatus(id, statusUpdate, updated).calls == [UpdateStatusCall(id, status.value)];
    }
  }

  /** A rejected request's response does not depend on the service result it was paired with. */
  lemma RejectionIgnoresService(task: Task, c1: Task, c2: Task, id: int, statusUpdate: map<string, Option<string>>, u1: Option<Task>, u2: Option<Task>)
    ensures IsBlank(task.title) ==> CreateTask(task, c1) == CreateTask(task, c2)
    ensures IsBlank(StatusField(statusUpdate)) ==> UpdateTaskStatus(id, statusUpdate, u1) == UpdateTaskStatus(id, statusUpdate, u2)
  {
  }
}
