# Case management backend: task and case lifecycle

This project models the core of a small CRUD backend for tasks and cases in Dafny.
It covers three layers and proves properties about each:

- **Store** (`store.dfy`, module `Store`). This is the in-memory entity store of
  `TaskRepository`: a table from ids to records plus an id generator that starts at 1.
  `StoreState` with `Stamped`, `Saved` and `Deleted` is the specification. The class
  `Repository` is the mutable store. Each of its methods ensures that its new state
  equals one of those functions applied to the old state. Lemmas over sequences of
  saves and deletes (`Run`, `Generated`) cover the generator: it hands out consecutive
  values, never goes back, and never reuses an id, even after a deletion.
- **Lifecycle service** (`service.dfy`, module `Services`). This models `CaseService`:
  create, get by id, get all, status update and delete, all going through one store.
  The pure functions `CreateOutcome`, `StatusUpdated` and `DeleteReported` give each
  call's result and the store it leaves behind. The class `LifecycleService` is proved
  against them.
- **Task endpoints** (`controller.dfy`, module `TaskController`). This models the
  handlers of `TaskController` as pure functions. Each takes the request fields and the
  service's result. It returns the service calls it makes (none or one) and the HTTP
  response. Blankness follows Java's `s == null || s.trim().isEmpty()`, with `Trim`
  written out as `String.trim` works: it moves a start index past the leading
  characters at or below U+0020, then pulls the end back over the trailing ones.
- **Task stack** (`task_stack.dfy`, module `TaskStack`). These lemmas pair the handlers
  with the service outcome of the call each one makes: first create, update then get,
  delete twice. A client method walks through the lifecycle on the real classes.

Records are values (`Models.Record<Extra>`). Every nullable Java field is an `Option`.
The per-entity fields sit in `extra`:

- `TaskFields(caseId, dueDateTime)` for tasks, so `Task` carries the fields of
  `models/Task.java`.
- `CaseFields(caseNumber)` for cases.

`Timestamp` is an integer clock reading. Every `LocalDateTime.now()` call becomes a
parameter of its own. `Create` takes two readings, because `createCase` reads the clock
twice.

One class, `Repository<X>`, models both stores:

- For tasks it is `TaskRepository` as written.
- For cases it stands in for `CaseRepository`. That is a JPA repository interface
  whose implementation is not part of this model, so it is given the same
  table-and-counter contract.

The task service is the same `LifecycleService` with the task fields. `TaskService.java`
is not part of this model. It is taken to do what the case service does, over task records.

Where the code falls short of what the system is meant to do, the model follows the code:

- A generated id is meant to be an unused one. `save` hands out the counter's value
  without looking at the table. A caller can save a record under an
  explicit id, for example through the request body of `createTask`. A later generated
  id can then equal that id and overwrite its record (`Store.GeneratedIdCanCollide`).
  The generated id is proved fresh only while every stored id is below the counter
  (`Store.KeysBelowCounter`). The save contract says that this invariant survives
  deletions, saves without an id, and saves whose id is below the counter.
- A status update is meant to move `updatedDate` forward. The code only sets it from
  the clock. The model promises only that it equals the given
  reading.
- The service does not check the status it is given. `updateCaseStatus` stores it
  as it comes, blank included (`Services.WithStatus`). Only the layer in front of the
  service keeps blank statuses out.

## Model

| member | source | states |
|---|---|---|
| `Store.Stamped` | src/main/java/uk/gov/hmcts/reform/dev/repositories/TaskRepository.java:19-22 | the record `save` returns always has an id; an existing id is kept unchanged; a missing id becomes the generator's current value; no other field changes; the generated id is not in the table when every stored id is below the counter |
| `Store.Saved` | src/main/java/uk/gov/hmcts/reform/dev/repositories/TaskRepository.java:19-25 | after `save`, the returned record is stored under its id, overwriting any old entry; the key set gains exactly that id; every other key's entry is unchanged; the counter rises by exactly 1 when an id was generated and stays put otherwise; "every record filed under its own id" is preserved, and so is "all ids below the counter" when the id was generated or already below it |
| `Store.Deleted` | src/main/java/uk/gov/hmcts/reform/dev/repositories/TaskRepository.java:35-37 | after `deleteById`, the id is absent; every other entry and the counter are unchanged; deleting an absent id changes nothing |
| `Store.GeneratedAreConsecutive` | src/main/java/uk/gov/hmcts/reform/dev/repositories/TaskRepository.java:17-37 | over any sequence of saves and deletes, the generated ids are the counter's start value, +1, +2, and so on; the counter ends exactly one past the last id handed out |
| `Store.CounterNeverDecreases` | src/main/java/uk/gov/hmcts/reform/dev/repositories/TaskRepository.java:17-37 | no sequence of saves and deletes lowers the counter |
| `Store.GeneratedIdsStrictlyIncrease` | src/main/java/uk/gov/hmcts/reform/dev/repositories/TaskRepository.java:17-37 | each generated id is strictly greater than every one handed out before it, even across deletions; all of them lie between the counter's start and end values |
| `Store.FirstGeneratedIdsFromOne` | src/main/java/uk/gov/hmcts/reform/dev/repositories/TaskRepository.java:17-22 | from a fresh store the generated ids are 1, 2, 3, … in order |
| `Store.RunKeepsWellformed` | src/main/java/uk/gov/hmcts/reform/dev/repositories/TaskRepository.java:19-37 | any sequence of saves and deletes keeps every record filed under its own id |
| `Store.OnlySavedIdsStored` | src/main/java/uk/gov/hmcts/reform/dev/repositories/TaskRepository.java:19-37 | over any sequence of saves and deletes, an id that was absent, that no save carries and that the generator does not hand out is still absent at the end: only `save` puts entries in the table |
| `Store.GeneratedIdCanCollide` | src/main/java/uk/gov/hmcts/reform/dev/repositories/TaskRepository.java:19-24 | after a record is saved under the explicit id 1, a record saved without an id also gets 1 and replaces it |
| `Store.Repository.constructor` | src/main/java/uk/gov/hmcts/reform/dev/repositories/TaskRepository.java:16-17 | a new store has an empty table and its generator at 1 |
| `Store.Repository.Save` | src/main/java/uk/gov/hmcts/reform/dev/repositories/TaskRepository.java:19-25 | returns `Stamped` of the old state; the new state is `Saved` of the old state; the store invariant holds |
| `Store.Lookup` | src/main/java/uk/gov/hmcts/reform/dev/repositories/TaskRepository.java:27-29 | a lookup finds a record exactly when the id is stored, and then it is the stored record |
| `Store.Repository.FindById` | src/main/java/uk/gov/hmcts/reform/dev/repositories/TaskRepository.java:27-29 | returns `Lookup` of the current state: a record exactly when the id is stored (so empty exactly when `ExistsById` is false), and then the stored record |
| `Store.Repository.FindAll` | src/main/java/uk/gov/hmcts/reform/dev/repositories/TaskRepository.java:31-33 | returns every stored record exactly once: the length equals the number of keys, the ids are pairwise distinct, each element is the entry under its id, and every entry appears; the order is left open |
| `Store.Repository.DeleteById` | src/main/java/uk/gov/hmcts/reform/dev/repositories/TaskRepository.java:35-37 | the new state is `Deleted` of the old state; the store invariant holds |
| `Store.Repository.ExistsById` | src/main/java/uk/gov/hmcts/reform/dev/repositories/TaskRepository.java:39-41 | true exactly when a record is stored under the id |
| `Services.WithDates` | src/main/java/uk/gov/hmcts/reform/dev/services/CaseService.java:24-25 | `createdDate` and `updatedDate` are the two clock readings; every other field is the caller's |
| `Services.CreateOutcome` | src/main/java/uk/gov/hmcts/reform/dev/services/CaseService.java:23-27 | the created record carries both dates, the caller's other fields, and an id under which it is stored; a missing id becomes the counter's value and the counter rises by 1; a given id is kept and the counter stays; the new id is unused when all ids are below the counter; other entries are unchanged |
| `Services.WithStatus` | src/main/java/uk/gov/hmcts/reform/dev/services/CaseService.java:41-42 | `status` is the given string, stored as given even when blank; `updatedDate` is the clock reading; every other field is unchanged |
| `Services.StatusUpdated` | src/main/java/uk/gov/hmcts/reform/dev/services/CaseService.java:37-46 | for an unknown id: an absent result and an unchanged store, so no record is created; for a stored id: the result and the new entry are the old record with only status and `updatedDate` changed; every other entry and the counter are unchanged |
| `Services.DeleteReported` | src/main/java/uk/gov/hmcts/reform/dev/services/CaseService.java:48-54 | returns true exactly when the id was stored; afterwards it is absent; other entries and the counter are unchanged; a false result leaves the store unchanged |
| `Services.DeleteTwice` | src/main/java/uk/gov/hmcts/reform/dev/services/CaseService.java:48-54 | a second delete of the same id returns false and changes nothing |
| `Services.UpdateThenLookup` | src/main/java/uk/gov/hmcts/reform/dev/services/CaseService.java:37-46 | after a status update, the id is stored exactly when it was before, and with the new status and its own id; every other id is stored exactly when it was before, with the same record |
| `Services.LifecycleService.constructor` | src/main/java/uk/gov/hmcts/reform/dev/services/CaseService.java:18-21 | the service works on the store it is given |
| `Services.LifecycleService.Create` | src/main/java/uk/gov/hmcts/reform/dev/services/CaseService.java:23-27 | returns the result of `CreateOutcome` on the old store and leaves its store; one `save` |
| `Services.LifecycleService.GetById` | src/main/java/uk/gov/hmcts/reform/dev/services/CaseService.java:29-31 | returns the store's entry for the id, or nothing when it is absent; the store is not modified |
| `Services.LifecycleService.GetAll` | src/main/java/uk/gov/hmcts/reform/dev/services/CaseService.java:33-35 | returns every stored record exactly once, as `FindAll` does; the store is not modified |
| `Services.LifecycleService.UpdateStatus` | src/main/java/uk/gov/hmcts/reform/dev/services/CaseService.java:37-46 | returns the result of `StatusUpdated` on the old store and leaves its store |
| `Services.LifecycleService.Delete` | src/main/java/uk/gov/hmcts/reform/dev/services/CaseService.java:48-54 | returns the result of `DeleteReported` on the old store and leaves its store |
| `TaskController.SkipLow` | src/main/java/uk/gov/hmcts/reform/dev/controllers/TaskController.java:36 | the start index `trim()` reaches: every character it skips is at or below U+0020, and the character it stops at, if any, is above U+0020 |
| `TaskController.DropLow` | src/main/java/uk/gov/hmcts/reform/dev/controllers/TaskController.java:36 | the end index `trim()` reaches: it stays between the start and the old end, every character it drops is at or below U+0020, and the last kept character, if any, is above U+0020 |
| `TaskController.Trim` | src/main/java/uk/gov/hmcts/reform/dev/controllers/TaskController.java:36 | `trim()` returns a contiguous part of the input with only characters at or below U+0020 before and after it; a non-empty result starts and ends above U+0020 |
| `TaskController.IsBlank` | src/main/java/uk/gov/hmcts/reform/dev/controllers/TaskController.java:59 | a value is blank exactly when it is null or every character in it is at or below U+0020 |
| `TaskController.VisibleChar` | src/main/java/uk/gov/hmcts/reform/dev/controllers/TaskController.java:36-39 | a value that is not blank has a character above U+0020; the lemma returns the index where `trim()` starts, `SkipLow(s, 0)` |
| `TaskController.HttpStatus.Code` | src/main/java/uk/gov/hmcts/reform/dev/controllers/TaskController.java:34-77 | the codes sent are 2xx exactly for OK, CREATED and NO_CONTENT, and 4xx exactly for BAD_REQUEST and NOT_FOUND |
| `TaskController.CreateTask` | src/main/java/uk/gov/hmcts/reform/dev/controllers/TaskController.java:34-41 | 400 exactly when the title is null or trims to empty, and then no service call and no body; otherwise exactly one create call with the request's task, and 201 with the service's result as body; the numbers are the `HttpStatus.Code` of the response |
| `TaskController.GetTaskById` | src/main/java/uk/gov/hmcts/reform/dev/controllers/TaskController.java:43-48 | one lookup call; 200 exactly when the service found a record, 404 exactly when it did not; the body is the record found; the numbers are the `HttpStatus.Code` of the response |
| `TaskController.GetAllTasks` | src/main/java/uk/gov/hmcts/reform/dev/controllers/TaskController.java:50-54 | one call; always 200, with the service's list as body, at the same length and in the same order; the numbers are the `HttpStatus.Code` of the response |
| `TaskController.StatusField` | src/main/java/uk/gov/hmcts/reform/dev/controllers/TaskController.java:58 | a missing `status` key reads as null; otherwise the value under the key |
| `TaskController.UpdateTaskStatus` | src/main/java/uk/gov/hmcts/reform/dev/controllers/TaskController.java:56-68 | 400 exactly when the status is missing, null or trims to empty, and then no service call; otherwise one update call with that id and status, then 200 with the service's result when it is present and 404 when it is null; the numbers are the `HttpStatus.Code` of the response |
| `TaskController.DeleteTask` | src/main/java/uk/gov/hmcts/reform/dev/controllers/TaskController.java:70-77 | one delete call; 204 exactly when the service reports true, 404 exactly when it reports false; no body; the numbers are the `HttpStatus.Code` of the response |
| `TaskController.AtMostOneCall` | src/main/java/uk/gov/hmcts/reform/dev/controllers/TaskController.java:34-77 | each handler calls the service at most once; the lookup, list and delete handlers call it exactly once |
| `TaskController.ServiceSeesNoBlank` | src/main/java/uk/gov/hmcts/reform/dev/controllers/TaskController.java:34-68 | every task the create handler passes on has a title with a character above U+0020; every status the update handler passes on has one too |
| `TaskController.RejectionIgnoresService` | src/main/java/uk/gov/hmcts/reform/dev/controllers/TaskController.java:34-68 | when a create or status-update request is rejected, the handler's whole answer is the same whatever the service would have returned |
| `TaskStack.FirstCreateGetsIdOne` | src/test/java/uk/gov/hmcts/reform/dev/controllers/TaskControllerUnitTest.java:53-83 | a valid task without an id, posted to a fresh store, gets 201 with a body that has id 1, both dates, and the caller's other fields; a lookup of 1 finds it |
| `TaskStack.UpdateThenGet` | src/main/java/uk/gov/hmcts/reform/dev/services/CaseService.java:37-46 | with a non-blank status, the update answers 200 exactly when the task exists; a 404 leaves the store unchanged; after a 200, a lookup of the id answers the same response |
| `TaskStack.DeleteThenDeleteAgain` | src/main/java/uk/gov/hmcts/reform/dev/controllers/TaskController.java:70-77 | deleting an existing task answers 204; deleting it again answers 404, and so does a lookup |

## Left out

- Concurrency. `ConcurrentHashMap` and the atomic `getAndIncrement` make the store
  safe under concurrent callers. The model is sequential, so atomicity and lost
  updates between concurrent status updates are not captured.
- The real-time clock. Every `LocalDateTime.now()` becomes a `Timestamp` parameter.
  Nothing is claimed about two readings being ordered or equal.
- 64-bit `Long` overflow of the id generator. The counter is an unbounded integer.
- Object aliasing. `save` stores and returns the same object, and `updateCaseStatus`
  mutates the object `findById` handed out. Records are values here, so sharing a
  record between the table and a caller is not modelled. Each step's result is the same.
- `CaseRepository`'s JPA implementation is not part of this model. It is given the
  contract of `TaskRepository`. JPA-specific behaviour (merge of a detached entity,
  generated ids in the database, storage failures) is not captured.
- Storage failures. The in-memory store cannot fail, and the durable store is not modelled.
- `Services.LifecycleService.UpdateStatus` takes a non-null status. The Java parameter
  may be null. No application code calls `CaseService.updateCaseStatus`, and on the task
  path `updateTaskStatus` (TaskController.java:59) rejects null before calling
  `TaskService.updateTaskStatus`.
- Null arguments. A null id or a null record passed to the store would throw a
  `NullPointerException` in Java. Path variables and request bodies are never null
  there, so ids and records are plain values.
- Spring wiring, HTTP routing and JSON (de)serialisation. Handlers take the request's
  fields as values and return a status and body.
- `@Valid` bean validation driven by `@NotBlank` on `title` and `status`. It runs in
  Spring's validator, not in the application's own code. Only the handlers' own checks
  are modelled. `createTask`'s own check covers only the title. Bean validation rejects a
  null or blank status on create, so the model's `CreateTask` answers 201 where the
  running handler answers 400.
- `TaskService.java` and `models/Case.java` are not part of this model. The task service
  is the lifecycle service over task records. A case is modelled with one field of its
  own, `caseNumber`, besides the fields it shares with a task.
- `RootController` and `CaseController` return a fixed greeting and a hard-coded
  example case, and hold no logic.
