/**
 * The task repository: the partial update of a task and the mapping of a stored task
 * row back to a task, including its recurrence.
 */
module Tasks {
  import opened Wrappers
  import opened SqlUpdate
  import opened Recurrence

  datatype RepeatFrom = DueDate | CompletionDate

  /** The schema's `repeat_from` literals. */
  function RepeatFromText(r: RepeatFrom): string {
    match r
    case DueDate => "due_date"
    case CompletionDate => "completion_date"
  }

  /**
   * The values a task update binds: a plain SQLite value, the RRULE written by
   * `_recurrence_to_ical`, or the ISO text of an instant converted to UTC.
   */
  datatype TaskValue = Sql(v: SqlValue) | RuleText(rule: Rrule) | UtcIso(at: Timestamp)

  /** The fields of `TaskUpdate`; `Missing` is UNSET. */
  datatype TaskPatch = TaskPatch(
    title: Field<string>,
    notes: Field<Option<string>>,
    completed: Field<bool>,
    recurrence: Field<Option<Recurrence>>,
    repeatFrom: Field<Option<RepeatFrom>>,
    dueAt: Field<Option<Timestamp>>,
    completedAt: Field<Option<Timestamp>>)

  function RecurrenceValue(r: Option<Recurrence>): TaskValue {
    match r
    case None => Sql(Null)
    case Some(rec) => RuleText(ToIcal(rec))
  }

  function RepeatFromValue(r: Option<RepeatFrom>): TaskValue {
    match r
    case None => Sql(Null)
    case Some(x) => Sql(Text(RepeatFromText(x)))
  }

  function InstantValue(t: Option<Timestamp>): TaskValue {
    match t
    case None => Sql(Null)
    case Some(at) => UtcIso(at)
  }

  /** The seven `if data.x is not UNSET` blocks, in the order the repository runs them. */
  function TaskColumns(d: TaskPatch): seq<Column<TaskValue>> {
    [Column("title", d.title.Map(t => Sql(Text(t)))),
     Column("notes", d.notes.Map(n => Sql(NullableText(n)))),
     Column("completed", d.completed.Map(b => Sql(Bool(b)))),
     Column("recurrence", d.recurrence.Map(RecurrenceValue)),
     Column("repeat_from", d.repeatFrom.Map(RepeatFromValue)),
     Column("due_at", d.dueAt.Map(InstantValue)),
     Column("completed_at", d.completedAt.Map(InstantValue))]
  }

  predicate NothingSupplied(d: TaskPatch) {
    && d.title.Missing? && d.notes.Missing? && d.completed.Missing? && d.recurrence.Missing?
    && d.repeatFrom.Missing? && d.dueAt.Missing? && d.completedAt.Missing?
  }

  /** The names of the supplied fields, in the repository's fixed order. */
  function SuppliedNames(d: TaskPatch): seq<string> {
    (if d.title.Present? then ["title"] else [])
    + (if d.notes.Present? then ["notes"] else [])
    + (if d.completed.Present? then ["completed"] else [])
    + (if d.recurrence.Present? then ["recurrence"] else [])
    + (if d.repeatFrom.Present? then ["repeat_from"] else [])
    + (if d.dueAt.Present? then ["due_at"] else [])
    + (if d.completedAt.Present? then ["completed_at"] else [])
  }

  /** The blocks select exactly the supplied fields in the fixed order. */
  lemma TaskColumnsSelected(d: TaskPatch)
    ensures Selected(TaskColumns(d)) == SuppliedNames(d)
  {
    var cs := TaskColumns(d);
    assert cs[..1][..0] == [];
    assert cs[..2][..1] == cs[..1] && cs[..3][..2] == cs[..2] && cs[..4][..3] == cs[..3];
    assert cs[..5][..4] == cs[..4] && cs[..6][..5] == cs[..5] && cs[..7][..6] == cs[..6] && cs[..7] == cs;
    assert Selected(cs[..1]) == (if d.title.Present? then ["title"] else []);
    assert Selected(cs[..2]) == Selected(cs[..1]) + (if d.notes.Present? then ["notes"] else []);
    assert Selected(cs[..3]) == Selected(cs[..2]) + (if d.completed.Present? then ["completed"] else []);
    assert Selected(cs[..4]) == Selected(cs[..3]) + (if d.recurrence.Present? then ["recurrence"] else []);
    assert Selected(cs[..5]) == Selected(cs[..4]) + (if d.repeatFrom.Present? then ["repeat_from"] else []);
    assert Selected(cs[..6]) == Selected(cs[..5]) + (if d.dueAt.Present? then ["due_at"] else []);
    assert Selected(cs) == Selected(cs[..6]) + (if d.completedAt.Present? then ["completed_at"] else []);
  }

  const TaskTail := " WHERE id = :id RETURNING *"

  /** Task `update`: build the clauses, then refuse an update with none. */
  function TaskUpdate(id: int, d: TaskPatch): (r: Result<Statement<TaskValue>, UpdateError>)
    ensures r.Err? <==> NothingSupplied(d)
  {
    var u0 := Update([], map["id" := Sql(Int(id))]);
    var u := SetAll(u0, TaskColumns(d));
    SetAllSets(u0, TaskColumns(d));
    TaskColumnsSelected(d);
    if |u.sets| == 0 then Err(NothingToUpdate)
    else Ok(Statement("UPDATE tasks SET " + Join(u.sets, ", ") + TaskTail, u.params))
  }

  /**
   * A successful update assigns exactly the supplied fields in the fixed order title,
   * notes, completed, recurrence, repeat_from, due_at, completed_at.
   */
  lemma TaskUpdateSql(id: int, d: TaskPatch)
    requires !NothingSupplied(d)
    ensures TaskUpdate(id, d).Ok?
    ensures TaskUpdate(id, d).value.sql == "UPDATE tasks SET " + Join(Assignments(SuppliedNames(d)), ", ") + TaskTail
  {
    var u0 := Update([], map["id" := Sql(Int(id))]);
    SetAllSets(u0, TaskColumns(d));
    TaskColumnsSelected(d);
    assert [] + Assignments(SuppliedNames(d)) == Assignments(SuppliedNames(d));
    assert SetAll(u0, TaskColumns(d)).sets == Assignments(SuppliedNames(d));
  }

  /** A successful update binds `id` plus exactly the supplied fields. */
  lemma TaskUpdateParams(id: int, d: TaskPatch)
    requires !NothingSupplied(d)
    ensures TaskUpdate(id, d).Ok?
    ensures TaskUpdate(id, d).value.params.Keys == {"id"} + set n | n in SuppliedNames(d)
    ensures TaskUpdate(id, d).value.params["id"] == Sql(Int(id))
  {
    var cs := TaskColumns(d);
    SetAllParams(Update([], map["id" := Sql(Int(id))]), cs);
    TaskColumnsSelected(d);
    BoundKeys(cs);
    assert "id" !in SuppliedNames(d);
  }

  /** Each supplied field is bound to its converted value. */
  lemma TaskUpdateValues(id: int, d: TaskPatch)
    requires !NothingSupplied(d)
    ensures var r := TaskUpdate(id, d);
      && r.Ok?
      && (d.title.Present? ==> "title" in r.value.params && r.value.params["title"] == Sql(Text(d.title.value)))
      && (d.notes.Present? ==> "notes" in r.value.params && r.value.params["notes"] == Sql(NullableText(d.notes.value)))
      && (d.completed.Present? ==> "completed" in r.value.params && r.value.params["completed"] == Sql(Bool(d.completed.value)))
      && (d.recurrence.Present? ==> "recurrence" in r.value.params && r.value.params["recurrence"] == RecurrenceValue(d.recurrence.value))
      && (d.repeatFrom.Present? ==> "repeat_from" in r.value.params && r.value.params["repeat_from"] == RepeatFromValue(d.repeatFrom.value))
      && (d.dueAt.Present? ==> "due_at" in r.value.params && r.value.params["due_at"] == InstantValue(d.dueAt.value))
      && (d.completedAt.Present? ==> "completed_at" in r.value.params && r.value.params["completed_at"] == InstantValue(d.completedAt.value))
  {
    var cs := TaskColumns(d);
    SetAllParams(Update([], map["id" := Sql(Int(id))]), cs);
    assert DistinctNames(cs);
    BoundValues(cs);
    assert cs[0].field.Present? == d.title.Present? && cs[1].field.Present? == d.notes.Present?;
    assert cs[2].field.Present? == d.completed.Present? && cs[3].field.Present? == d.recurrence.Present?;
    assert cs[4].field.Present? == d.repeatFrom.Present? && cs[5].field.Present? == d.dueAt.Present?;
    assert cs[6].field.Present? == d.completedAt.Present?;
  }

  /** A stored task row; `recurrence` is the RRULE text or NULL. */
  datatype TaskRow = TaskRow(
    id: int,
    taskListId: int,
    completed: SqlValue,
    title: string,
    notes: Option<string>,
    recurrence: Option<string>,
    repeatFrom: Option<string>,
    createdAt: Timestamp,
    updatedAt: Timestamp,
    dueAt: Option<Timestamp>,
    completedAt: Option<Timestamp>)

  datatype Task = Task(
    id: int,
    taskListId: int,
    completed: bool,
    title: string,
    notes: Option<string>,
    recurrence: Option<Recurrence>,
    repeatFrom: Option<string>,
    createdAt: Timestamp,
    updatedAt: Timestamp,
    dueAt: Option<Timestamp>,
    completedAt: Option<Timestamp>)

  /**
   * `_map_task_row`, with `parse` standing for `vRecur.from_ical`: the recurrence is
   * read only when the column holds text, and a reading error propagates.
   */
  function MapTaskRow(row: TaskRow, parse: string -> Rrule): (r: Result<Task, IcalError>)
    ensures r.Ok? ==> (r.value.completed <==> row.completed == Int(1))
    ensures r.Ok? ==> r.value.id == row.id && r.value.title == row.title && r.value.dueAt == row.dueAt
    ensures r.Ok? ==> r.value.taskListId == row.taskListId && r.value.notes == row.notes && r.value.repeatFrom == row.repeatFrom
    ensures r.Ok? ==> r.value.createdAt == row.createdAt && r.value.updatedAt == row.updatedAt
    ensures r.Ok? ==> r.value.completedAt == row.completedAt
    ensures row.recurrence.None? ==> r.Ok? && r.value.recurrence.None?
    ensures row.recurrence.Some? ==>
              && (r.Ok? <==> FromIcal(parse(row.recurrence.value)).Ok?)
              && (r.Ok? ==> r.value.recurrence == Some(FromIcal(parse(row.recurrence.value)).value))
  {
    var task := Task(row.id, row.taskListId, FlagOf(row.completed), row.title, row.notes, None,
                     row.repeatFrom, row.createdAt, row.updatedAt, row.dueAt, row.completedAt);
    match row.recurrence
    case None => Ok(task)
    case Some(text) =>
      var rec :- FromIcal(parse(text));
      Ok(task.(recurrence := Some(rec)))
  }

  /**
   * What an update stores reads back: a `completed` flag stored as SQLite stores it, and
   * a recurrence stored as the text of its RRULE (given that parsing that text gives the
   * RRULE back), map to the same flag and recurrence.
   */
  lemma StoredTaskReadsBack(row: TaskRow, parse: string -> Rrule, serialize: Rrule -> string,
                            completed: bool, recurrence: Option<Recurrence>)
    requires row.completed == StoredBool(completed)
    requires row.recurrence == if recurrence.None? then None else Some(serialize(ToIcal(recurrence.value)))
    requires recurrence.Some? ==> parse(serialize(ToIcal(recurrence.value))) == ToIcal(recurrence.value)
    ensures MapTaskRow(row, parse).Ok?
    ensures MapTaskRow(row, parse).value.completed == completed
    ensures MapTaskRow(row, parse).value.recurrence == recurrence
  {
    FlagRoundTrip(completed);
    if recurrence.Some? {
      FromToIcal(recurrence.value);
    }
  }
}
