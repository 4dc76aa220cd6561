/** The database file as one object: the six tables, changed in place by the
    request handlers. Each handler is specified by the function of its
    module that gives the reply and the new table; every other table is
    left as it was. */
module Store {
  import opened Json
  import opened Sql
  import opened Records
  import opened Patch
  import Access
  import Seed

  class Database {
    var users: seq<User>
    var samples: seq<Row<Sample>>
    var sessions: seq<Row<Session>>
    var interventions: seq<Row<Intervention>>
    var tasks: seq<Row<Task>>
    var reports: seq<Row<Report>>

    /** The primary keys, and the UNIQUE username. */
    ghost predicate Valid()
      reads this
    {
      Seed.ValidUsers(users) && UniqueIds(samples) && UniqueIds(sessions) && UniqueIds(interventions)
      && UniqueIds(tasks) && UniqueIds(reports)
    }

    /** A database file with the tables created and nothing in them. */
    constructor ()
      ensures Valid()
      ensures users == [] && samples == [] && sessions == [] && interventions == [] && tasks == [] && reports == []
    {
      users, samples, sessions, interventions, tasks, reports := [], [], [], [], [], [];
    }

    /** `init_db`'s seeding, with the three task ids and the clock passed in.
        `ok` is false when an insert raised; nothing is committed then. */
    method InitDb(a: string, b: string, c: string, now: nat) returns (ok: bool)
      requires Valid()
      modifies this
      ensures Valid()
      ensures ok == Seed.InitDb(old(users), old(tasks), a, b, c, now).Some?
      ensures ok ==> (users, tasks) == Seed.InitDb(old(users), old(tasks), a, b, c, now).value
      ensures !ok ==> users == old(users) && tasks == old(tasks)
      ensures samples == old(samples) && sessions == old(sessions)
      ensures interventions == old(interventions) && reports == old(reports)
    {
      if Seed.HasUser(users, DefaultUser) {
        assert Seed.InitDb(users, tasks, a, b, c, now) == Some((users, tasks));
        return true;
      }
      if Seed.UsernameTaken(users, Seed.DemoUser.username) {
        assert Seed.InitDb(users, tasks, a, b, c, now).None?;
        return false;
      }
      var rows := Seed.SeedTasks(a, b, c, now);
      var t := tasks;
      for k := 0 to |rows|
        invariant unchanged(this)
        invariant Seed.InsertAll(tasks, rows) == Seed.InsertAll(t, rows[k..])
        invariant UniqueIds(t)
      {
        match ExecInsert(t, rows[k], TaskNotNull(rows[k].cols))
        case Failed(_) =>
          assert Seed.InsertAll(t, rows[k..]).None?;
          assert Seed.InitDb(users, tasks, a, b, c, now).None?;
          return false;
        case Done(_, t') =>
          assert rows[k..][1..] == rows[k + 1..];
          InsertKeepsUnique(t, rows[k]);
          t := t';
      }
      assert rows[|rows|..] == [];
      assert Seed.InsertAll(tasks, rows) == Some(t);
      assert Seed.InitDb(users, tasks, a, b, c, now) == Some((users + [Seed.DemoUser], t));
      Seed.InitDbFresh(users, tasks, a, b, c, now);
      users := users + [Seed.DemoUser];
      tasks := t;
      ok := true;
    }

    // ------------------------------------------------------------ tasks

    method CreateTask(newId: string, now: nat, data: map<string, Json>) returns (reply: Reply<Row<Task>>)
      requires Valid()
      modifies this
      ensures Valid()
      ensures (reply, tasks) == Access.CreateTask(old(tasks), newId, now, data)
      ensures users == old(users) && samples == old(samples) && sessions == old(sessions)
      ensures interventions == old(interventions) && reports == old(reports)
    {
      var r := Access.CreateTask(tasks, newId, now, data);
      Access.CreateTaskSpec(tasks, newId, now, data);
      if r.0.Ok? {
        InsertKeepsUnique(tasks, r.0.body);
      }
      reply, tasks := r.0, r.1;
    }

    /** `update_task`: build the statement, run it, and read the row back. */
    method UpdateTask(id: string, data: map<string, Json>) returns (reply: Reply<TaskRecord>)
      requires Valid()
      modifies this
      ensures Valid()
      ensures (reply, tasks) == Access.UpdateTask(old(tasks), id, data)
      ensures users == old(users) && samples == old(samples) && sessions == old(sessions)
      ensures interventions == old(interventions) && reports == old(reports)
    {
      var columns, values := BuildTaskUpdate(data, id);
      var r := ExecUpdate(tasks, |columns|, values, TaskAssigner(columns), TaskNotNull);
      ExecUpdateKeepsUnique(tasks, |columns|, values, TaskAssigner(columns), TaskNotNull);
      match r
      case Failed(_) =>
        reply := Error(500, "Failed to update task");
      case Done(n, t') =>
        if n == 0 {
          reply := Error(404, "Task not found");
        } else {
          tasks := t';
          match IndexOf(tasks, id)
          case Some(k) =>
            reply := Ok(TaskView(tasks[k]));
          case None =>
            reply := Error(500, "Failed to update task");
        }
    }

    method DeleteTask(id: string) returns (reply: Reply<string>)
      requires Valid()
      modifies this
      ensures Valid()
      ensures (reply, tasks) == Access.DeleteTask(old(tasks), id)
      ensures users == old(users) && samples == old(samples) && sessions == old(sessions)
      ensures interventions == old(interventions) && reports == old(reports)
    {
      var r := ExecDelete(tasks, id);
      ExecDeleteKeepsUnique(tasks, id);
      if r.rowcount == 0 {
        reply := Error(404, "Task not found");
      } else {
        tasks := r.table;
        reply := Ok("Task deleted successfully");
      }
    }

    /** `get_tasks`: each of the default user's tasks with its stored
        `optimal_emotions` replaced by the decoded `optimalEmotions`. */
    method ListTasks() returns (result: seq<TaskRecord>)
      ensures |result| == |OwnedBy(tasks, DefaultUser)|
      ensures forall i :: 0 <= i < |result| ==>
        var row := OwnedBy(tasks, DefaultUser)[i];
        result[i] == TaskRecord(row.id, row.userId, row.cols.title, row.cols.description, row.cols.priority,
                                row.cols.complexity, DecodeOptimalEmotions(row.cols.optimalEmotions),
                                row.cols.completed, row.cols.createdAt)
    {
      var rows := OwnedBy(tasks, DefaultUser);
      result := [];
      for k := 0 to |rows|
        invariant |result| == k
        invariant forall i :: 0 <= i < k ==> result[i] == TaskView(rows[i])
      {
        var row := rows[k];
        var stored := row.cols.optimalEmotions;
        var emotions := JArr([]);
        if Truthy(stored) && stored.Text? {
          match Decode(stored.s)
          case Some(j) =>
            emotions := j;
          case None =>
        }
        result := result + [TaskRecord(row.id, row.userId, row.cols.title, row.cols.description, row.cols.priority,
                                       row.cols.complexity, emotions, row.cols.completed, row.cols.createdAt)];
      }
    }

    // ------------------------------------------------------------ emotion sessions

    method CreateEmotionSession(newId: string, now: nat, data: map<string, Json>) returns (reply: Reply<Row<Session>>)
      requires Valid()
      modifies this
      ensures Valid()
      ensures (reply, sessions) == Access.CreateSession(old(sessions), newId, now, data)
      ensures users == old(users) && samples == old(samples) && tasks == old(tasks)
      ensures interventions == old(interventions) && reports == old(reports)
    {
      var r := Access.CreateSession(sessions, newId, now, data);
      Access.CreateSessionSpec(sessions, newId, now, data);
      if r.0.Ok? {
        InsertKeepsUnique(sessions, r.0.body);
      }
      reply, sessions := r.0, r.1;
    }

    /** `update_emotion_session`: build the statement, run it, and read the row back. */
    method UpdateEmotionSession(id: string, data: map<string, Json>) returns (reply: Reply<Row<Session>>)
      requires Valid()
      modifies this
      ensures Valid()
      ensures (reply, sessions) == Access.UpdateSession(old(sessions), id, data)
      ensures users == old(users) && samples == old(samples) && tasks == old(tasks)
      ensures interventions == old(interventions) && reports == old(reports)
    {
      var columns, values := BuildSessionUpdate(data, id);
      var r := ExecUpdate(sessions, |columns|, values, SessionAssigner(columns), SessionNotNull);
      ExecUpdateKeepsUnique(sessions, |columns|, values, SessionAssigner(columns), SessionNotNull);
      match r
      case Failed(_) =>
        reply := Error(500, "Failed to update emotion session");
      case Done(n, t') =>
        if n == 0 {
          reply := Error(404, "Emotion session not found");
        } else {
          sessions := t';
          match IndexOf(sessions, id)
          case Some(k) =>
            reply := Ok(sessions[k]);
          case None =>
            reply := Error(500, "Failed to update emotion session");
        }
    }

    // ------------------------------------------------------------ interventions

    method CreateIntervention(newId: string, now: nat, data: map<string, Json>) returns (reply: Reply<Row<Intervention>>)
      requires Valid()
      modifies this
      ensures Valid()
      ensures (reply, interventions) == Access.CreateIntervention(old(interventions), newId, now, data)
      ensures users == old(users) && samples == old(samples) && sessions == old(sessions)
      ensures tasks == old(tasks) && reports == old(reports)
    {
      var r := Access.CreateIntervention(interventions, newId, now, data);
      Access.CreateInterventionSpec(interventions, newId, now, data);
      if r.0.Ok? {
        InsertKeepsUnique(interventions, r.0.body);
      }
      reply, interventions := r.0, r.1;
    }

    method UpdateIntervention(id: string, data: map<string, Json>) returns (reply: Reply<Row<Intervention>>)
      requires Valid()
      modifies this
      ensures Valid()
      ensures (reply, interventions) == Access.UpdateIntervention(old(interventions), id, data)
      ensures users == old(users) && samples == old(samples) && sessions == old(sessions)
      ensures tasks == old(tasks) && reports == old(reports)
    {
      var values := [Get(data, "accepted"), JStr(id)];
      var r := ExecUpdate(interventions, 1, values, Access.SetAccepted, Access.InterventionUpdateNotNull);
      ExecUpdateKeepsUnique(interventions, 1, values, Access.SetAccepted, Access.InterventionUpdateNotNull);
      match r
      case Failed(_) =>
        reply := Error(500, "Failed to update intervention");
      case Done(n, t') =>
        if n == 0 {
          reply := Error(404, "Intervention not found");
        } else {
          interventions := t';
          match IndexOf(interventions, id)
          case Some(k) =>
            reply := Ok(interventions[k]);
          case None =>
            reply := Error(500, "Failed to update intervention");
        }
    }

    // ------------------------------------------------------------ behavioural data and reports

    method CreateBehavioralData(newId: string, now: nat, data: map<string, Json>) returns (reply: Reply<Row<Sample>>)
      requires Valid()
      modifies this
      ensures Valid()
      ensures (reply, samples) == Access.CreateSample(old(samples), newId, now, data)
      ensures users == old(users) && sessions == old(sessions) && tasks == old(tasks)
      ensures interventions == old(interventions) && reports == old(reports)
    {
      var r := Access.CreateSample(samples, newId, now, data);
      Access.CreateSampleSpec(samples, newId, now, data);
      if r.0.Ok? {
        InsertKeepsUnique(samples, r.0.body);
      }
      reply, samples := r.0, r.1;
    }

    method CreateWellbeingReport(newId: string, now: nat, data: map<string, Json>) returns (reply: Reply<Row<Report>>)
      requires Valid()
      modifies this
      ensures Valid()
      ensures (reply, reports) == Access.CreateReport(old(reports), newId, now, data)
      ensures users == old(users) && samples == old(samples) && sessions == old(sessions)
      ensures interventions == old(interventions) && tasks == old(tasks)
    {
      var r := Access.CreateReport(reports, newId, now, data);
      Access.CreateReportSpec(reports, newId, now, data);
      if r.0.Ok? {
        InsertKeepsUnique(reports, r.0.body);
      }
      reply, reports := r.0, r.1;
    }
  }
}
