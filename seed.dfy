/** `init_db`'s seeding: the default user and its three starter tasks, added
    only when the default user is missing. */
module Seed {
  import opened Json
  import opened Sql
  import opened Records
  import opened Patch
  import Analytics
  import Queries

  const DemoUser: User := User(DefaultUser, "demo_user", "demo_password")

  /** The primary key and the UNIQUE username of `users`. */
  ghost predicate ValidUsers(us: seq<User>) {
    forall i, j :: 0 <= i < j < |us| ==> us[i].id != us[j].id && us[i].username != us[j].username
  }

  /** `SELECT COUNT(*) FROM users WHERE id = 'default-user'` is not 0. */
  predicate HasUser(us: seq<User>, id: string) {
    exists i :: 0 <= i < |us| && us[i].id == id
  }

  predicate UsernameTaken(us: seq<User>, name: string) {
    exists i :: 0 <= i < |us| && us[i].username == name
  }

  function SeedTask(id: string, title: string, description: string, priority: string,
                    complexity: int, emotions: seq<string>, now: nat): Row<Task> {
    Row(id, DefaultUser, Task(Text(title), Text(description), Text(priority), Int(complexity),
                              Text(Encode(JArr(seq(|emotions|, i requires 0 <= i < |emotions| => JStr(emotions[i]))))),
                              Text("false"), now))
  }

  /** The three starter tasks, with the ids `uuid4()` gave them. */
  function SeedTasks(a: string, b: string, c: string, now: nat): (r: seq<Row<Task>>)
    ensures |r| == 3 && r[0].id == a && r[1].id == b && r[2].id == c
    ensures forall i :: 0 <= i < |r| ==> r[i].userId == DefaultUser && r[i].cols.completed == Text("false")
    ensures forall i :: 0 <= i < |r| ==> TaskNotNull(r[i].cols)
  {
    [SeedTask(a, "Design user interface mockups", "Create wireframes and visual designs", "high", 7, ["happy", "neutral"], now),
     SeedTask(b, "Code new features", "Implement the emotion detection module", "high", 9, ["neutral", "focused"], now),
     SeedTask(c, "Review performance metrics", "Analyze last quarter's data", "medium", 5, ["neutral", "analytical"], now)]
  }

  /** Read back through `get_tasks`, a starter task shows its emotions list. */
  lemma SeedTaskReadBack(id: string, title: string, description: string, priority: string,
                         complexity: int, emotions: seq<string>, now: nat)
    ensures var v := TaskView(SeedTask(id, title, description, priority, complexity, emotions, now));
      && v.optimalEmotions.JArr? && |v.optimalEmotions.items| == |emotions|
      && (forall i :: 0 <= i < |emotions| ==> v.optimalEmotions.items[i] == JStr(emotions[i]))
      && v.completed == Text("false") && v.userId == DefaultUser
  {
    StoredEmotionsRoundTrip(JArr(seq(|emotions|, i requires 0 <= i < |emotions| => JStr(emotions[i]))));
  }

  /** Inserts the rows one after another; any failure aborts all of them. */
  function InsertAll(t: seq<Row<Task>>, rows: seq<Row<Task>>): (r: Option<seq<Row<Task>>>)
    ensures r.Some? ==> |r.value| == |t| + |rows|
    decreases |rows|
  {
    if rows == [] then Some(t)
    else
      match ExecInsert(t, rows[0], TaskNotNull(rows[0].cols))
      case Failed(_) => None
      case Done(_, t') => InsertAll(t', rows[1..])
  }

  /** `init_db`'s effect on `users` and `tasks`, or None when an insert
      raises (nothing is committed then). */
  function InitDb(us: seq<User>, t: seq<Row<Task>>, a: string, b: string, c: string, now: nat): (r: Option<(seq<User>, seq<Row<Task>>)>)
    ensures HasUser(us, DefaultUser) ==> r == Some((us, t))
    ensures r.Some? && !HasUser(us, DefaultUser) ==>
      r.value.0 == us + [DemoUser] && |r.value.1| == |t| + 3 && HasUser(r.value.0, DefaultUser)
  {
    if HasUser(us, DefaultUser) then Some((us, t))
    else if UsernameTaken(us, DemoUser.username) then None
    else
      match InsertAll(t, SeedTasks(a, b, c, now))
      case None => None
      case Some(t') =>
        assert (us + [DemoUser])[|us|].id == DefaultUser;
        Some((us + [DemoUser], t'))
  }

  lemma {:induction false} InsertAllSpec(t: seq<Row<Task>>, rows: seq<Row<Task>>)
    ensures InsertAll(t, rows).Some? ==> InsertAll(t, rows).value == t + rows
    decreases |rows|
  {
    if rows != [] {
      match ExecInsert(t, rows[0], TaskNotNull(rows[0].cols))
      case Failed(_) =>
      case Done(_, t') =>
        InsertAllSpec(t', rows[1..]);
        assert t' + rows[1..] == t + rows;
    }
  }

  /** When the default user is missing and the inserts succeed, seeding adds
      the demo user and exactly the three starter tasks, and keeps both
      tables' keys unique. */
  lemma InitDbFresh(us: seq<User>, t: seq<Row<Task>>, a: string, b: string, c: string, now: nat)
    requires ValidUsers(us) && UniqueIds(t) && !HasUser(us, DefaultUser)
    requires InitDb(us, t, a, b, c, now).Some?
    ensures InitDb(us, t, a, b, c, now).value == (us + [DemoUser], t + SeedTasks(a, b, c, now))
    ensures ValidUsers(InitDb(us, t, a, b, c, now).value.0)
    ensures HasUser(InitDb(us, t, a, b, c, now).value.0, DefaultUser)
  {
    InsertAllSpec(t, SeedTasks(a, b, c, now));
    var us' := us + [DemoUser];
    assert us'[|us|] == DemoUser;
    forall i, j | 0 <= i < j < |us'| ensures us'[i].id != us'[j].id && us'[i].username != us'[j].username {
      if j == |us| {
        assert us'[i] == us[i];
      }
    }
  }

  /** Seeding is idempotent: once it has run, running it again (with any new
      ids and clock) changes nothing. */
  lemma InitDbIdempotent(us: seq<User>, t: seq<Row<Task>>, a: string, b: string, c: string, now: nat,
                         a': string, b': string, c': string, later: nat)
    requires InitDb(us, t, a, b, c, now).Some?
    ensures var (us', t') := InitDb(us, t, a, b, c, now).value;
      InitDb(us', t', a', b', c', later) == Some((us', t'))
  {
    if !HasUser(us, DefaultUser) {
      var us' := InitDb(us, t, a, b, c, now).value.0;
      assert us' == us + [DemoUser];
      assert us'[|us|].id == DefaultUser;
    }
  }

  /** The inserts all succeed when the new keys are distinct and fresh and
      every row has its NOT NULL columns. */
  lemma {:induction false} InsertAllSucceeds(t: seq<Row<Task>>, rows: seq<Row<Task>>)
    requires UniqueIds(t + rows)
    requires forall i :: 0 <= i < |rows| ==> TaskNotNull(rows[i].cols)
    ensures InsertAll(t, rows) == Some(t + rows)
    decreases |rows|
  {
    if rows != [] {
      var u := t + rows;
      forall i | 0 <= i < |t| ensures t[i].id != rows[0].id {
        assert u[i] == t[i] && u[|t|] == rows[0];
      }
      assert ExecInsert(t, rows[0], TaskNotNull(rows[0].cols)) == Done(1, t + [rows[0]]);
      assert (t + [rows[0]]) + rows[1..] == u;
      assert forall i :: 0 <= i < |rows| - 1 ==> rows[1..][i] == rows[i + 1];
      InsertAllSucceeds(t + [rows[0]], rows[1..]);
    } else {
      assert t + rows == t;
    }
  }

  /** Seeding an empty database gives three open tasks in the analytics. */
  lemma InitDbAnalytics(samples: seq<Row<Sample>>, a: string, b: string, c: string, now: nat, today: nat)
    requires a != b && b != c && a != c
    ensures InitDb([], [], a, b, c, now).Some?
    ensures var tasks := InitDb([], [], a, b, c, now).value.1;
      Analytics.TodayAnalytics(samples, tasks, today).totalTasks == 3
      && Analytics.TodayAnalytics(samples, tasks, today).tasksCompleted == 0
  {
    InitDbEmpty(a, b, c, now);
    OpenTasksAnalytics(samples, SeedTasks(a, b, c, now), today);
  }

  /** Seeding an empty database adds the demo user and the three tasks. */
  lemma InitDbEmpty(a: string, b: string, c: string, now: nat)
    requires a != b && b != c && a != c
    ensures InitDb([], [], a, b, c, now) == Some(([DemoUser], SeedTasks(a, b, c, now)))
  {
    var rows := SeedTasks(a, b, c, now);
    FreshSeedInserts(rows);
    assert !HasUser([], DefaultUser) && !UsernameTaken([], DemoUser.username);
    assert [] + [DemoUser] == [DemoUser];
  }

  lemma FreshSeedInserts(rows: seq<Row<Task>>)
    requires |rows| == 3 && rows[0].id != rows[1].id && rows[1].id != rows[2].id && rows[0].id != rows[2].id
    requires forall i :: 0 <= i < |rows| ==> TaskNotNull(rows[i].cols)
    ensures InsertAll([], rows) == Some(rows)
  {
    ThreeUnique(rows);
    InsertAllFromEmpty(rows);
  }

  lemma InsertAllFromEmpty(rows: seq<Row<Task>>)
    requires UniqueIds(rows)
    requires forall i :: 0 <= i < |rows| ==> TaskNotNull(rows[i].cols)
    ensures InsertAll([], rows) == Some(rows)
  {
    assert [] + rows == rows;
    InsertAllSucceeds([], rows);
  }

  lemma ThreeUnique(rows: seq<Row<Task>>)
    requires |rows| == 3 && rows[0].id != rows[1].id && rows[1].id != rows[2].id && rows[0].id != rows[2].id
    ensures UniqueIds(rows)
  {
  }

  lemma OpenTasksAnalytics(samples: seq<Row<Sample>>, tasks: seq<Row<Task>>, today: nat)
    requires forall i :: 0 <= i < |tasks| ==> tasks[i].userId == DefaultUser && tasks[i].cols.completed == Text("false")
    ensures Analytics.TodayAnalytics(samples, tasks, today).totalTasks == |tasks|
    ensures Analytics.TodayAnalytics(samples, tasks, today).tasksCompleted == 0
  {
    Queries.ListOwnedAll(tasks);
    Analytics.CompletedCountExtremes(tasks);
  }
}
