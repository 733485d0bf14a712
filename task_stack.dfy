/**
 * The task endpoints in front of the lifecycle service and a task store: each
 * handler is paired with the service outcome of the one call it makes. The task
 * service itself is the lifecycle service instantiated with the task fields.
 */
module TaskStack {
  import opened Wrappers
  import opened Models
  import opened Store
  import opened Services
  import opened TaskController

  /**
   * A valid task posted to a fresh store comes back as a 201 whose body is the
   * task with id 1, its fields echoed and both dates set from the clock.
   */
  lemma FirstCreateGetsIdOne(task: Task, createdAt: Timestamp, updatedAt: Timestamp)
    requires task.id.None? && !IsBlank(task.title)
    ensures var o := CreateOutcome(Initial(), task, createdAt, updatedAt);
      var h := CreateTask(task, o.result);
      && h.response == Response(Created, Some(o.result))
      && o.result.id == Some(1)
      && o.result.(id := None, createdDate := task.createdDate, updatedDate := task.updatedDate) == task
      && Lookup(o.store, 1) == Some(o.result)
  {
  }

  /**
   * A status update with a non-blank status answers 200 exactly when the task exists,
   * and a lookup afterwards answers 200 with the same record the update returned.
   */
  lemma UpdateThenGet(s: StoreState<TaskFields>, id: int, statusUpdate: map<string, Option<string>>, now: Timestamp)
    requires Wellformed(s) && !IsBlank(StatusField(statusUpdate))
    ensures var o := StatusUpdated(s, id, StatusField(statusUpdate).value, now);
      var put := UpdateTaskStatus(id, statusUpdate, o.result);
      var get := GetTaskById(id, Lookup(o.store, id));
      && (put.response.status == Ok <==> id in s.records)
      && (put.response.status == NotFound ==> o.store == s)
      && (put.response.status == Ok ==> get.response == put.response)
  {
  }

  /** Deleting an existing task answers 204, and deleting it again answers 404. */
  lemma DeleteThenDeleteAgain(s: StoreState<TaskFields>, id: int)
    requires id in s.records
    ensures var first := DeleteReported(s, id);
      var second := DeleteReported(first.store, id);
      && DeleteTask(id, first.result).response.status == NoContent
      && DeleteTask(id, second.result).response.status == NotFound
      && GetTaskById(id, Lookup(second.store, id)).response.status == NotFound
  {
  }

  /**
   * A client of the task service, proved from the method contracts alone: two tasks
   * get ids 1 and 2, both are listed, a status update touches only the status and
   * the update date, and a second delete of the same id reports false.
   */
  method LifecycleWalkthrough(t1: Task, t2: Task, now: Timestamp)
    requires t1.id.None? && t2.id.None?
  {
    var repo := new Repository<TaskFields>();
    var service := new LifecycleService(repo);
    var a := service.Create(t1, now, now);
    var b := service.Create(t2, now, now);
    assert a.id == Some(1) && b.id == Some(2);
    var all := service.GetAll();
    assert |all| == 2;
    var u := service.UpdateStatus(1, "COMPLETED", now);
    assert u.Some? && u.value.status == Some("COMPLETED");
    assert u.value.title == t1.title && u.value.extra == t1.extra && u.value.createdDate == Some(now);
    var first := service.Delete(1);
    var second := service.Delete(1);
    assert first && !second;
    var gone := service.GetById(1);
    var missing := service.GetById(999);
    assert gone.None? && missing.None?;
    var kept := service.GetById(2);
    assert kept == Some(b);
  }
}
