/**
 * The persisted records. Every reference-typed Java field may hold `null`, so each
 * one is an `Option`; only the fields common to tasks and cases live in `Record`,
 * and the per-entity ones sit in its `extra` part.
 */
module Models {
  import opened Wrappers

  /** A reading of the clock. The model compares readings only for equality. */
  type Timestamp = int

  /** A record of either entity type: the shared fields plus the entity's own ones. */
  datatype Record<Extra> = Record(
    id: Option<int>,
    title: Option<string>,
    description: Option<string>,
    status: Option<string>,
    extra: Extra,
    createdDate: Option<Timestamp>,
    updatedDate: Option<Timestamp>)

  /** The fields only a task has. */
  datatype TaskFields = TaskFields(caseId: Option<string>, dueDateTime: Option<Timestamp>)

  type Task = Record<TaskFields>

  /** The field only a case has. */
  datatype CaseFields = CaseFields(caseNumber: Option<string>)

  type Case = Record<CaseFields>
}
