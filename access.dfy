/** The create, patch and delete handlers as functions from the table before
    the request to the reply and the table after it. A failed statement is
    never committed, so every error reply leaves the table as it was. */
module Access {
  import opened Json
  import opened Sql
  import opened Records
  import opened Patch

  // ================================================================ tasks

  /** The UPDATE that `update_task` runs. */
  function UpdateTaskExec(t: seq<Row<Task>>, id: string, data: map<string, Json>): Exec<seq<Row<Task>>> {
    var cols := TaskSetColumns(data);
    ExecUpdate(t, |cols|, TaskSetParams(data) + [JStr(id)], TaskAssigner(cols), TaskNotNull)
  }

  /** `update_task`: 500 when the statement fails, 404 when no row matched,
      otherwise the row read back with `optimalEmotions` decoded. */
  function UpdateTask(t: seq<Row<Task>>, id: string, data: map<string, Json>): (r: (Reply<TaskRecord>, seq<Row<Task>>))
    ensures |r.1| == |t|
    ensures r.0.Ok? ==> r.0.body.id == id
    ensures r.0.Error? ==> r.0 == Error(404, "Task not found") || r.0 == Error(500, "Failed to update task")
    ensures r.0.Error? && r.0.status == 404 ==> r.1 == t
  {
    match UpdateTaskExec(t, id, data)
    case Failed(_) => (Error(500, "Failed to update task"), t)
    case Done(n, t') =>
      if n == 0 then (Error(404, "Task not found"), t)
      else
        match IndexOf(t', id)
        case Some(i) => (Ok(TaskView(t'[i])), t')
        case None => (Error(500, "Failed to update task"), t')  // fetchone() found nothing after the commit
  }

  /** The patched row: each column named in the payload takes the bound
      payload value, every other column keeps its value. */
  ghost predicate TaskPatched(before: Task, after: Task, data: map<string, Json>) {
    && after.createdAt == before.createdAt
    && forall c: TaskColumn ::
         if TaskPayloadKey(c) in data then Bind(TaskParam(c, data)) == Some(TaskColumnValue(after, c))
         else TaskColumnValue(after, c) == TaskColumnValue(before, c)
  }

  /** Every parameter of the UPDATE on `tasks` can be bound. */
  predicate TaskParamsBind(data: map<string, Json>, id: string) {
    BindAll(TaskSetParams(data) + [JStr(id)]).Some?
  }

  lemma TaskAssignmentEffect(t: Task, data: map<string, Json>, id: string, cells: seq<Cell>)
    requires BindAll(TaskSetParams(data) + [JStr(id)]) == Some(cells)
    ensures TaskPatched(t, AssignTask(t, TaskSetColumns(data), cells[..|TaskSetColumns(data)|]), data)
  {
    var cs := TaskSetColumns(data);
    var vs := cells[..|cs|];
    var ps := TaskSetParams(data) + [JStr(id)];
    TaskSetColumnsOrdered(data);
    assert forall i, j :: 0 <= i < j < |cs| ==> cs[i] != cs[j] by {
      forall i, j | 0 <= i < j < |cs| ensures cs[i] != cs[j] {
        assert TaskColumnRank(cs[i]) < TaskColumnRank(cs[j]);
      }
    }
    var t' := AssignTask(t, cs, vs);
    forall c: TaskColumn ensures
         if TaskPayloadKey(c) in data then Bind(TaskParam(c, data)) == Some(TaskColumnValue(t', c))
         else TaskColumnValue(t', c) == TaskColumnValue(t, c)
    {
      AssignTaskEffect(t, cs, vs, c);
      TaskSetColumnsIff(data, c);
      if c in cs {
        var k :| 0 <= k < |cs| && cs[k] == c;
        assert vs[k] == cells[k] == Bind(ps[k]).value;
        assert ps[k] == TaskParam(c, data);
      }
    }
    AssignTaskEffect(t, cs, vs, Title);
  }

  /** A patch of an existing task succeeds exactly when the payload names a
      column, every value binds and the NOT NULL columns stay non-NULL. Then
      only that row changes, only in the named columns, and the reply is the
      row read back; otherwise the reply is 500 and nothing changes. */
  lemma UpdateTaskExisting(t: seq<Row<Task>>, id: string, data: map<string, Json>, k: nat)
    requires UniqueIds(t) && k < |t| && t[k].id == id
    ensures var (reply, t') := UpdateTask(t, id, data);
      && (reply.Ok? <==> TaskSetColumns(data) != [] && TaskParamsBind(data, id) &&
                         exists p :: TaskPatched(t[k].cols, p, data) && TaskNotNull(p))
      && (reply.Ok? ==>
            && |t'| == |t|
            && (forall j :: 0 <= j < |t| && j != k ==> t'[j] == t[j])
            && t'[k].id == id && t'[k].userId == t[k].userId
            && TaskPatched(t[k].cols, t'[k].cols, data)
            && reply.body == TaskView(t'[k]))
      && (reply.Error? ==> reply.status == 500 && t' == t)
  {
    IndexOfUnique(t, id, k);
    var cs := TaskSetColumns(data);
    var ps := TaskSetParams(data) + [JStr(id)];
    TaskValuesMatch(data, id);
    assert |ps| == |cs| + 1 && ps[|cs|] == JStr(id);
    if cs != [] {
      match BindAll(ps)
      case None =>
      case Some(cells) =>
        assert cells[|cs|] == Text(id);
        var patched := AssignTask(t[k].cols, cs, cells[..|cs|]);
        TaskAssignmentEffect(t[k].cols, data, id, cells);
        forall other | TaskPatched(t[k].cols, other, data) ensures other == patched {
          TaskPatchedUnique(t[k].cols, other, patched, data);
        }
        var row := t[k].(cols := patched);
        if TaskNotNull(patched) {
          var t' := t[k := row];
          assert UpdateTaskExec(t, id, data) == Done(1, t');
          assert UniqueIds(t') by {
            forall i, j | 0 <= i < j < |t'| ensures t'[i].id != t'[j].id { }
          }
          IndexOfUnique(t', id, k);
        } else {
          assert UpdateTaskExec(t, id, data) == Failed(NotNullFailed);
        }
    }
  }

  lemma TaskPatchedUnique(before: Task, a: Task, b: Task, data: map<string, Json>)
    requires TaskPatched(before, a, data) && TaskPatched(before, b, data)
    ensures a == b
  {
    assert TaskColumnValue(a, Title) == TaskColumnValue(b, Title);
    assert TaskColumnValue(a, Description) == TaskColumnValue(b, Description);
    assert TaskColumnValue(a, Priority) == TaskColumnValue(b, Priority);
    assert TaskColumnValue(a, Complexity) == TaskColumnValue(b, Complexity);
    assert TaskColumnValue(a, Completed) == TaskColumnValue(b, Completed);
    assert TaskColumnValue(a, OptimalEmotions) == TaskColumnValue(b, OptimalEmotions);
  }

  /** A patch whose id matches no row leaves the table as it is; it is a 404
      unless the statement fails first (no recognised key, or a value that
      cannot be bound), which is a 500. */
  lemma UpdateTaskMissing(t: seq<Row<Task>>, id: string, data: map<string, Json>)
    requires IndexOf(t, id).None?
    ensures UpdateTask(t, id, data).1 == t
    ensures UpdateTask(t, id, data).0 ==
      if TaskSetColumns(data) != [] && TaskParamsBind(data, id)
      then Error(404, "Task not found") else Error(500, "Failed to update task")
  {
    TaskValuesMatch(data, id);
  }

  /** A payload with none of the six keys builds an empty SET clause: the
      statement is malformed, the reply is 500 and no row changes. */
  lemma UpdateTaskEmptyPayload(t: seq<Row<Task>>, id: string, data: map<string, Json>)
    requires forall c: TaskColumn :: TaskPayloadKey(c) !in data
    ensures UpdateTask(t, id, data) == (Error(500, "Failed to update task"), t)
  {
    TaskSetColumnsEmpty(data);
  }

  /** The patch handler's read-back: `optimalEmotions` is the payload's list
      when the payload sets it, and the decoded stored text otherwise. */
  lemma UpdateTaskReadBack(t: seq<Row<Task>>, id: string, data: map<string, Json>, k: nat)
    requires UniqueIds(t) && k < |t| && t[k].id == id
    requires UpdateTask(t, id, data).0.Ok?
    ensures UpdateTask(t, id, data).0.body.optimalEmotions ==
      if "optimalEmotions" in data then data["optimalEmotions"]
      else DecodeOptimalEmotions(t[k].cols.optimalEmotions)
  {
    UpdateTaskExisting(t, id, data, k);
    var t' := UpdateTask(t, id, data).1;
    var stored := TaskColumnValue(t'[k].cols, OptimalEmotions);
    if "optimalEmotions" in data {
      assert Bind(TaskParam(OptimalEmotions, data)) == Some(stored);
      StoredEmotionsRoundTrip(data["optimalEmotions"]);
    } else {
      assert stored == TaskColumnValue(t[k].cols, OptimalEmotions);
    }
  }

  /** `delete_task`. */
  function DeleteTask(t: seq<Row<Task>>, id: string): (r: (Reply<string>, seq<Row<Task>>))
    ensures r.0.Ok? <==> IndexOf(t, id).Some?
    ensures r.0.Error? ==> r == (Error(404, "Task not found"), t)
    ensures r.0.Ok? ==> |r.1| < |t| && IndexOf(r.1, id).None?
  {
    var r := ExecDelete(t, id);  // a DELETE by key cannot violate a constraint
    if r.rowcount == 0 then (Error(404, "Task not found"), t) else (Ok("Task deleted successfully"), r.table)
  }

  /** Deleting an existing task removes exactly that row and keeps the order
      of the others; a missing id is a 404 that changes nothing. */
  lemma DeleteTaskSpec(t: seq<Row<Task>>, id: string)
    requires UniqueIds(t)
    ensures DeleteTask(t, id).0.Ok? <==> IndexOf(t, id).Some?
    ensures IndexOf(t, id).None? ==> DeleteTask(t, id) == (Error(404, "Task not found"), t)
    ensures IndexOf(t, id).Some? ==>
      var k := IndexOf(t, id).value;
      DeleteTask(t, id).1 == t[..k] + t[k + 1..] && UniqueIds(DeleteTask(t, id).1)
      && IndexOf(DeleteTask(t, id).1, id).None?
  {
    match IndexOf(t, id)
    case None =>
    case Some(k) =>
      WithoutShrinks(t, id);
      WithoutAt(t, id, k);
      WithoutKeepsUnique(t, id);
      var w := Without(t, id);
      forall i | 0 <= i < |w| ensures w[i].id != id {
        WithoutMembers(t, id, w[i]);
      }
  }

  /** Deleting a task twice: the first delete succeeds, the second is a 404
      and leaves the table as the first left it. */
  lemma DeleteTaskTwice(t: seq<Row<Task>>, id: string)
    requires UniqueIds(t) && IndexOf(t, id).Some?
    ensures DeleteTask(t, id).0 == Ok("Task deleted successfully")
    ensures DeleteTask(DeleteTask(t, id).1, id) == (Error(404, "Task not found"), DeleteTask(t, id).1)
  {
    DeleteTaskSpec(t, id);
    DeleteTaskSpec(DeleteTask(t, id).1, id);
  }

  /** The parameters of `create_task`'s INSERT after the owner, in order. */
  function CreateTaskParams(data: map<string, Json>): seq<Json> {
    [Get(data, "title"), Get(data, "description"), Get(data, "priority"), Get(data, "complexity"),
     JStr(Encode(GetOr(data, "optimalEmotions", JArr([]))))]
  }

  /** `create_task`: insert with the store's defaults (`completed` is
      'false', `created_at` is now) and return the raw row read back. */
  function CreateTask(t: seq<Row<Task>>, newId: string, now: nat, data: map<string, Json>): (r: (Reply<Row<Task>>, seq<Row<Task>>))
    ensures r.0.Error? ==> r == (Error(400, "Invalid task data"), t)
    ensures r.0.Ok? ==> r.1 == t + [r.0.body] && r.0.body.id == newId && r.0.body.userId == DefaultUser
  {
    match BindAll(CreateTaskParams(data))
    case None => (Error(400, "Invalid task data"), t)
    case Some(c) =>
      var row := Row(newId, DefaultUser, Task(c[0], c[1], c[2], c[3], c[4], Text("false"), now));
      match ExecInsert(t, row, TaskNotNull(row.cols))
      case Failed(_) => (Error(400, "Invalid task data"), t)
      case Done(_, t') => (Ok(t'[|t'| - 1]), t')
  }

  /** A task is created exactly when every value binds, `title` and
      `priority` are given and non-null, and the id is fresh. The new row
      holds the payload's values, 'false' and now, and its stored
      `optimal_emotions` decodes to the payload's list ([] when absent). */
  lemma CreateTaskSpec(t: seq<Row<Task>>, newId: string, now: nat, data: map<string, Json>)
    ensures var (reply, t') := CreateTask(t, newId, now, data);
      && (reply.Ok? <==> BindAll(CreateTaskParams(data)).Some? && Get(data, "title") != JNull
                         && Get(data, "priority") != JNull && IndexOf(t, newId).None?)
      && (reply.Error? ==> reply == Error(400, "Invalid task data") && t' == t)
      && (reply.Ok? ==>
            && t' == t + [reply.body]
            && reply.body.id == newId && reply.body.userId == DefaultUser
            && reply.body.cols.title == Bind(Get(data, "title")).value
            && reply.body.cols.description == Bind(Get(data, "description")).value
            && reply.body.cols.priority == Bind(Get(data, "priority")).value
            && reply.body.cols.complexity == Bind(Get(data, "complexity")).value
            && DecodeOptimalEmotions(reply.body.cols.optimalEmotions) == GetOr(data, "optimalEmotions", JArr([]))
            && reply.body.cols.completed == Text("false")
            && reply.body.cols.createdAt == now)
  {
    StoredEmotionsRoundTrip(GetOr(data, "optimalEmotions", JArr([])));
  }

  /** A created task is listed last by `get_tasks`, and the list it shows
      for `optimalEmotions` is the one the payload gave ([] when absent). */
  lemma CreatedTaskListed(t: seq<Row<Task>>, newId: string, now: nat, data: map<string, Json>)
    requires CreateTask(t, newId, now, data).0.Ok?
    ensures var (reply, t') := CreateTask(t, newId, now, data);
      && OwnedBy(t', DefaultUser) == OwnedBy(t, DefaultUser) + [reply.body]
      && TaskView(reply.body).optimalEmotions == GetOr(data, "optimalEmotions", JArr([]))
  {
    CreateTaskSpec(t, newId, now, data);
    var (reply, t') := CreateTask(t, newId, now, data);
    OwnedByAppend(t, reply.body, DefaultUser);
  }

  // ================================================================ emotion sessions

  function UpdateSessionExec(t: seq<Row<Session>>, id: string, data: map<string, Json>): Exec<seq<Row<Session>>> {
    var cols := SessionSetColumns(data);
    ExecUpdate(t, |cols|, SessionParams(cols, data) + [JStr(id)], SessionAssigner(cols), SessionNotNull)
  }

  /** `update_emotion_session`: the row is read back as stored. */
  function UpdateSession(t: seq<Row<Session>>, id: string, data: map<string, Json>): (r: (Reply<Row<Session>>, seq<Row<Session>>))
    ensures |r.1| == |t|
    ensures r.0.Ok? ==> r.0.body.id == id && r.0.body in r.1
    ensures r.0.Error? ==> r.0 == Error(404, "Emotion session not found") || r.0 == Error(500, "Failed to update emotion session")
    ensures r.0.Error? && r.0.status == 404 ==> r.1 == t
  {
    match UpdateSessionExec(t, id, data)
    case Failed(_) => (Error(500, "Failed to update emotion session"), t)
    case Done(n, t') =>
      if n == 0 then (Error(404, "Emotion session not found"), t)
      else
        match IndexOf(t', id)
        case Some(i) => (Ok(t'[i]), t')
        case None => (Error(500, "Failed to update emotion session"), t')
  }

  predicate SessionParamsBind(data: map<string, Json>) {
    ("end_time" in data ==> Bind(data["end_time"]).Some?)
  }

  /** The two assignments of a session patch, on one row. */
  lemma SessionAssignmentEffect(s: Session, data: map<string, Json>, id: string, cells: seq<Cell>)
    requires BindAll(SessionParams(SessionSetColumns(data), data) + [JStr(id)]) == Some(cells)
    ensures var r := AssignSession(s, SessionSetColumns(data), cells[..|SessionSetColumns(data)|]);
      && r.startTime == s.startTime
      && (if "end_time" in data then Bind(data["end_time"]) == Some(r.endTime) else r.endTime == s.endTime)
      && r.emotions == (if "emotions" in data then Text(Encode(data["emotions"])) else s.emotions)
  {
    var cs := SessionSetColumns(data);
    var ps := SessionParams(cs, data) + [JStr(id)];
    if "end_time" in data && "emotions" in data {
      assert cs == [EndTime, Emotions];
      assert ps[0] == data["end_time"] && ps[1] == JStr(Encode(data["emotions"]));
      var vs := cells[..2];
      assert vs == [cells[0], cells[1]] && vs[1..] == [cells[1]];
      var s1 := SetSessionColumn(s, EndTime, cells[0]);
      assert AssignSession(s, cs, vs) == AssignSession(s1, [Emotions], [cells[1]]);
      assert AssignSession(s1, [Emotions], [cells[1]]) == AssignSession(s1.(emotions := cells[1]), [], []);
    } else if "end_time" in data {
      assert cs == [EndTime] && ps[0] == data["end_time"];
      assert cells[..1] == [cells[0]];
    } else if "emotions" in data {
      assert cs == [Emotions] && ps[0] == JStr(Encode(data["emotions"]));
      assert cells[..1] == [cells[0]];
    }
  }

  /** Whether the session UPDATE's parameters bind. */
  lemma SessionBinding(data: map<string, Json>, id: string)
    ensures BindAll(SessionParams(SessionSetColumns(data), data) + [JStr(id)]).Some? <==> SessionParamsBind(data)
  {
    var cs := SessionSetColumns(data);
    var ps := SessionParams(cs, data) + [JStr(id)];
    if "end_time" in data {
      assert ps[0] == data["end_time"];
    }
    assert ps[|cs|] == JStr(id);
    if "emotions" in data {
      assert ps[|cs| - 1] == JStr(Encode(data["emotions"]));
    }
  }

  /** Ending a session: `end_time` takes the payload value and `emotions` the
      payload's JSON text, each only when its key is present; the start time,
      owner, and every other row are unchanged. An empty payload is a 500. */
  lemma UpdateSessionExisting(t: seq<Row<Session>>, id: string, data: map<string, Json>, k: nat)
    requires UniqueIds(t) && k < |t| && t[k].id == id
    ensures var (reply, t') := UpdateSession(t, id, data);
      && (reply.Ok? <==> ("end_time" in data || "emotions" in data) && SessionParamsBind(data))
      && (reply.Ok? ==>
            && |t'| == |t|
            && (forall j :: 0 <= j < |t| && j != k ==> t'[j] == t[j])
            && t'[k].id == id && t'[k].userId == t[k].userId
            && t'[k].cols.startTime == t[k].cols.startTime
            && (if "end_time" in data then Bind(data["end_time"]) == Some(t'[k].cols.endTime)
                else t'[k].cols.endTime == t[k].cols.endTime)
            && t'[k].cols.emotions == (if "emotions" in data then Text(Encode(data["emotions"])) else t[k].cols.emotions)
            && reply.body == t'[k])
      && (reply.Error? ==> reply.status == 500 && t' == t)
  {
    IndexOfUnique(t, id, k);
    SessionBinding(data, id);
    var cs := SessionSetColumns(data);
    var ps := SessionParams(cs, data) + [JStr(id)];
    if cs != [] {
      match BindAll(ps)
      case None =>
      case Some(cells) =>
        assert cells[|cs|] == Text(id);
        SessionAssignmentEffect(t[k].cols, data, id, cells);
        var row := t[k].(cols := AssignSession(t[k].cols, cs, cells[..|cs|]));
        var t' := t[k := row];
        assert UpdateSessionExec(t, id, data) == Done(1, t');
        assert UniqueIds(t') by {
          forall i, j | 0 <= i < j < |t'| ensures t'[i].id != t'[j].id { }
        }
        IndexOfUnique(t', id, k);
    }
  }

  lemma UpdateSessionMissing(t: seq<Row<Session>>, id: string, data: map<string, Json>)
    requires IndexOf(t, id).None?
    ensures UpdateSession(t, id, data).1 == t
    ensures UpdateSession(t, id, data).0 ==
      if ("end_time" in data || "emotions" in data) && SessionParamsBind(data)
      then Error(404, "Emotion session not found") else Error(500, "Failed to update emotion session")
  {
    SessionBinding(data, id);
  }

  function CreateSessionParams(data: map<string, Json>): seq<Json> {
    [JStr(Encode(GetOr(data, "emotions", JObj([]))))]
  }

  /** `create_emotion_session`: the start time is now, the end time NULL. */
  function CreateSession(t: seq<Row<Session>>, newId: string, now: nat, data: map<string, Json>): (r: (Reply<Row<Session>>, seq<Row<Session>>))
    ensures r.0.Error? ==> r == (Error(400, "Invalid emotion session data"), t)
    ensures r.0.Ok? ==> r.1 == t + [r.0.body] && r.0.body.id == newId && r.0.body.userId == DefaultUser
  {
    match BindAll(CreateSessionParams(data))
    case None => (Error(400, "Invalid emotion session data"), t)
    case Some(c) =>
      var row := Row(newId, DefaultUser, Session(now, Null, c[0]));
      match ExecInsert(t, row, true)
      case Failed(_) => (Error(400, "Invalid emotion session data"), t)
      case Done(_, t') => (Ok(t'[|t'| - 1]), t')
  }

  lemma CreateSessionSpec(t: seq<Row<Session>>, newId: string, now: nat, data: map<string, Json>)
    ensures var (reply, t') := CreateSession(t, newId, now, data);
      && (reply.Ok? <==> IndexOf(t, newId).None?)
      && (reply.Error? ==> reply == Error(400, "Invalid emotion session data") && t' == t)
      && (reply.Ok? ==>
            && t' == t + [reply.body]
            && reply.body == Row(newId, DefaultUser, Session(now, Null, Text(Encode(GetOr(data, "emotions", JObj([])))))))
  {
  }

  // ================================================================ interventions

  function UpdateInterventionExec(t: seq<Row<Intervention>>, id: string, data: map<string, Json>): Exec<seq<Row<Intervention>>> {
    ExecUpdate(t, 1, [Get(data, "accepted"), JStr(id)],
               SetAccepted, InterventionUpdateNotNull)
  }

  /** `SET accepted = ?` on one row. */
  function SetAccepted(x: Intervention, vs: seq<Cell>): Intervention {
    if vs == [] then x else x.(accepted := vs[0])
  }

  /** `accepted` is the only column the patch writes, and it may be NULL. */
  predicate InterventionUpdateNotNull(x: Intervention) {
    true
  }

  /** `update_intervention`: always `SET accepted = ?`. */
  function UpdateIntervention(t: seq<Row<Intervention>>, id: string, data: map<string, Json>): (r: (Reply<Row<Intervention>>, seq<Row<Intervention>>))
    ensures |r.1| == |t|
    ensures r.0.Ok? ==> r.0.body.id == id && r.0.body in r.1
    ensures r.0.Error? ==> r.0 == Error(404, "Intervention not found") || r.0 == Error(500, "Failed to update intervention")
    ensures r.0.Error? && r.0.status == 404 ==> r.1 == t
  {
    match UpdateInterventionExec(t, id, data)
    case Failed(_) => (Error(500, "Failed to update intervention"), t)
    case Done(n, t') =>
      if n == 0 then (Error(404, "Intervention not found"), t)
      else
        match IndexOf(t', id)
        case Some(i) => (Ok(t'[i]), t')
        case None => (Error(500, "Failed to update intervention"), t')
  }

  /** Answering a nudge overwrites `accepted` with the payload value, NULL when
      the key is absent; nothing else changes. A missing id is a 404 unless
      the value cannot be bound (500). */
  lemma UpdateInterventionSpec(t: seq<Row<Intervention>>, id: string, data: map<string, Json>)
    requires UniqueIds(t)
    ensures var (reply, t') := UpdateIntervention(t, id, data);
      && (IndexOf(t, id).None? ==>
            t' == t && reply == (if Bind(Get(data, "accepted")).Some? then Error(404, "Intervention not found")
                                 else Error(500, "Failed to update intervention")))
      && (IndexOf(t, id).Some? ==>
            var k := IndexOf(t, id).value;
            && (reply.Ok? <==> Bind(Get(data, "accepted")).Some?)
            && (reply.Ok? ==>
                  && t' == t[k := t[k].(cols := t[k].cols.(accepted := Bind(Get(data, "accepted")).value))]
                  && reply.body == t'[k])
            && (reply.Error? ==> reply.status == 500 && t' == t))
  {
    match IndexOf(t, id)
    case None =>
    case Some(k) =>
      match Bind(Get(data, "accepted"))
      case None =>
      case Some(a) =>
        var t' := t[k := t[k].(cols := t[k].cols.(accepted := a))];
        var ps := [Get(data, "accepted"), JStr(id)];
        assert Bind(ps[0]).Some? && Bind(ps[1]) == Some(Text(id));
        assert BindAll(ps).value == [a, Text(id)];
        assert UpdateInterventionExec(t, id, data) == Done(1, t');
        assert UniqueIds(t') by {
          forall i, j | 0 <= i < j < |t'| ensures t'[i].id != t'[j].id { }
        }
        IndexOfUnique(t', id, k);
  }

  function CreateInterventionParams(data: map<string, Json>): seq<Json> {
    [Get(data, "type"), Get(data, "emotion"), Get(data, "message"), Get(data, "accepted")]
  }

  /** `create_intervention`: `type`, `emotion` and `message` are NOT NULL. */
  function CreateIntervention(t: seq<Row<Intervention>>, newId: string, now: nat, data: map<string, Json>): (r: (Reply<Row<Intervention>>, seq<Row<Intervention>>))
    ensures r.0.Error? ==> r == (Error(400, "Invalid intervention data"), t)
    ensures r.0.Ok? ==> r.1 == t + [r.0.body] && r.0.body.id == newId && r.0.body.userId == DefaultUser
  {
    match BindAll(CreateInterventionParams(data))
    case None => (Error(400, "Invalid intervention data"), t)
    case Some(c) =>
      var row := Row(newId, DefaultUser, Intervention(c[0], c[1], c[2], c[3], now));
      match ExecInsert(t, row, c[0] != Null && c[1] != Null && c[2] != Null)
      case Failed(_) => (Error(400, "Invalid intervention data"), t)
      case Done(_, t') => (Ok(t'[|t'| - 1]), t')
  }

  lemma CreateInterventionSpec(t: seq<Row<Intervention>>, newId: string, now: nat, data: map<string, Json>)
    ensures var (reply, t') := CreateIntervention(t, newId, now, data);
      && (reply.Ok? <==> BindAll(CreateInterventionParams(data)).Some? && Get(data, "type") != JNull
                         && Get(data, "emotion") != JNull && Get(data, "message") != JNull
                         && IndexOf(t, newId).None?)
      && (reply.Error? ==> reply == Error(400, "Invalid intervention data") && t' == t)
      && (reply.Ok? ==>
            && t' == t + [reply.body]
            && reply.body.id == newId && reply.body.userId == DefaultUser
            && reply.body.cols.kind == Bind(Get(data, "type")).value
            && reply.body.cols.emotion == Bind(Get(data, "emotion")).value
            && reply.body.cols.message == Bind(Get(data, "message")).value
            && reply.body.cols.accepted == Bind(Get(data, "accepted")).value
            && reply.body.cols.createdAt == now)
  {
  }

  // ================================================================ behavioural data

  function CreateSampleParams(data: map<string, Json>): seq<Json> {
    [Get(data, "typingSpeed"), Get(data, "mouseActivity"), Get(data, "focusScore")]
  }

  /** `create_behavioral_data`: the timestamp is now. */
  function CreateSample(t: seq<Row<Sample>>, newId: string, now: nat, data: map<string, Json>): (r: (Reply<Row<Sample>>, seq<Row<Sample>>))
    ensures r.0.Error? ==> r == (Error(400, "Invalid behavioral data"), t)
    ensures r.0.Ok? ==> r.1 == t + [r.0.body] && r.0.body.id == newId && r.0.body.cols.timestamp == now
  {
    match BindAll(CreateSampleParams(data))
    case None => (Error(400, "Invalid behavioral data"), t)
    case Some(c) =>
      var row := Row(newId, DefaultUser, Sample(now, c[0], c[1], c[2]));
      match ExecInsert(t, row, true)
      case Failed(_) => (Error(400, "Invalid behavioral data"), t)
      case Done(_, t') => (Ok(t'[|t'| - 1]), t')
  }

  lemma CreateSampleSpec(t: seq<Row<Sample>>, newId: string, now: nat, data: map<string, Json>)
    ensures var (reply, t') := CreateSample(t, newId, now, data);
      && (reply.Ok? <==> BindAll(CreateSampleParams(data)).Some? && IndexOf(t, newId).None?)
      && (reply.Error? ==> reply == Error(400, "Invalid behavioral data") && t' == t)
      && (reply.Ok? ==>
            && t' == t + [reply.body]
            && reply.body == Row(newId, DefaultUser, Sample(now, Bind(Get(data, "typingSpeed")).value,
                                   Bind(Get(data, "mouseActivity")).value, Bind(Get(data, "focusScore")).value)))
  {
  }

  // ================================================================ wellbeing reports

  function CreateReportParams(data: map<string, Json>): seq<Json> {
    [Get(data, "weekStartDate"), Get(data, "avgMoodScore"), Get(data, "flowSessions"),
     Get(data, "breaksTaken"), Get(data, "tasksCompleted"), JStr(Encode(GetOr(data, "reportData", JObj([]))))]
  }

  /** `create_wellbeing_report`: `week_start_date` is NOT NULL. */
  function CreateReport(t: seq<Row<Report>>, newId: string, now: nat, data: map<string, Json>): (r: (Reply<Row<Report>>, seq<Row<Report>>))
    ensures r.0.Error? ==> r == (Error(400, "Invalid wellbeing report data"), t)
    ensures r.0.Ok? ==> r.1 == t + [r.0.body] && r.0.body.id == newId && r.0.body.userId == DefaultUser
  {
    match BindAll(CreateReportParams(data))
    case None => (Error(400, "Invalid wellbeing report data"), t)
    case Some(c) =>
      var row := Row(newId, DefaultUser, Report(c[0], c[1], c[2], c[3], c[4], c[5], now));
      match ExecInsert(t, row, c[0] != Null)
      case Failed(_) => (Error(400, "Invalid wellbeing report data"), t)
      case Done(_, t') => (Ok(t'[|t'| - 1]), t')
  }

  lemma CreateReportSpec(t: seq<Row<Report>>, newId: string, now: nat, data: map<string, Json>)
    ensures var (reply, t') := CreateReport(t, newId, now, data);
      && (reply.Ok? <==> BindAll(CreateReportParams(data)).Some? && Get(data, "weekStartDate") != JNull
                         && IndexOf(t, newId).None?)
      && (reply.Error? ==> reply == Error(400, "Invalid wellbeing report data") && t' == t)
      && (reply.Ok? ==>
            && t' == t + [reply.body]
            && reply.body.id == newId && reply.body.userId == DefaultUser
            && reply.body.cols.weekStartDate == Bind(Get(data, "weekStartDate")).value
            && reply.body.cols.avgMoodScore == Bind(Get(data, "avgMoodScore")).value
            && reply.body.cols.flowSessions == Bind(Get(data, "flowSessions")).value
            && reply.body.cols.breaksTaken == Bind(Get(data, "breaksTaken")).value
            && reply.body.cols.tasksCompleted == Bind(Get(data, "tasksCompleted")).value
            && Decode(reply.body.cols.reportData.s) == Some(GetOr(data, "reportData", JObj([])))
            && reply.body.cols.createdAt == now)
  {
    DecodeEncode(GetOr(data, "reportData", JObj([])));
  }
}
