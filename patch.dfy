/** The sparse-patch builders of the PATCH handlers: which columns go into
    the SET list, in which order, and the parallel list of parameter values
    (the row id last); and the effect of the resulting assignments on a row. */
module Patch {
  import opened Json
  import opened Sql
  import opened Records

  // ================================================================ tasks

  datatype TaskColumn = Title | Description | Priority | Complexity | Completed | OptimalEmotions

  /** The column as named in the SET list. */
  function TaskColumnName(c: TaskColumn): string {
    match c
    case Title => "title"
    case Description => "description"
    case Priority => "priority"
    case Complexity => "complexity"
    case Completed => "completed"
    case OptimalEmotions => "optimal_emotions"
  }

  /** The request key that sets the column; only `optimal_emotions` is renamed. */
  function TaskPayloadKey(c: TaskColumn): string {
    if c == OptimalEmotions then "optimalEmotions" else TaskColumnName(c)
  }

  /** The column's place in the builder's fixed order. */
  function TaskColumnRank(c: TaskColumn): nat {
    match c
    case Title => 0
    case Description => 1
    case Priority => 2
    case Complexity => 3
    case Completed => 4
    case OptimalEmotions => 5
  }

  /** The columns the builder's loop visits, in order. */
  const PlainTaskColumns: seq<TaskColumn> := [Title, Description, Priority, Complexity, Completed]

  /** The columns of `cs` whose key the payload has, in the order of `cs`. */
  function PresentColumns(cs: seq<TaskColumn>, data: map<string, Json>): (r: seq<TaskColumn>)
    ensures |r| <= |cs|
    ensures forall i :: 0 <= i < |r| ==> r[i] in cs
  {
    if cs == [] then []
    else
      var last := cs[|cs| - 1];
      PresentColumns(cs[..|cs| - 1], data) + (if TaskPayloadKey(last) in data then [last] else [])
  }

  /** The SET list of `update_task`. */
  function TaskSetColumns(data: map<string, Json>): (r: seq<TaskColumn>)
    ensures |r| <= 6
    ensures "optimalEmotions" in data <==> |r| > 0 && r[|r| - 1] == OptimalEmotions
  {
    PresentColumns(PlainTaskColumns, data)
      + (if TaskPayloadKey(OptimalEmotions) in data then [OptimalEmotions] else [])
  }

  /** The parameter value for one column: the payload value as it is, or for
      `optimal_emotions` its JSON text. */
  function TaskParam(c: TaskColumn, data: map<string, Json>): Json {
    if c == OptimalEmotions then JStr(Encode(Get(data, TaskPayloadKey(c))))
    else Get(data, TaskPayloadKey(c))
  }

  function TaskParams(cs: seq<TaskColumn>, data: map<string, Json>): (r: seq<Json>)
    ensures |r| == |cs|
    ensures forall i :: 0 <= i < |cs| ==> r[i] == TaskParam(cs[i], data)
  {
    if cs == [] then [] else TaskParams(cs[..|cs| - 1], data) + [TaskParam(cs[|cs| - 1], data)]
  }

  /** The value list of `update_task` without the trailing id. */
  function TaskSetParams(data: map<string, Json>): seq<Json> {
    TaskParams(TaskSetColumns(data), data)
  }

  /** `update_task`'s query builder: the loop over the five plain columns,
      then `optimalEmotions`, then the id. */
  method BuildTaskUpdate(data: map<string, Json>, id: string) returns (columns: seq<TaskColumn>, values: seq<Json>)
    ensures columns == TaskSetColumns(data)
    ensures values == TaskSetParams(data) + [JStr(id)]
  {
    columns, values := [], [];
    for k := 0 to |PlainTaskColumns|
      invariant columns == PresentColumns(PlainTaskColumns[..k], data)
      invariant values == TaskParams(columns, data)
    {
      var c := PlainTaskColumns[k];
      PlainColumnStep(columns, k, data);
      if TaskPayloadKey(c) in data {
        columns := columns + [c];
        values := values + [data[TaskPayloadKey(c)]];
      }
    }
    assert PlainTaskColumns[..|PlainTaskColumns|] == PlainTaskColumns;
    if "optimalEmotions" in data {
      TaskParamsAppend(columns, OptimalEmotions, data);
      columns := columns + [OptimalEmotions];
      values := values + [JStr(Encode(data["optimalEmotions"]))];
    }
    values := values + [JStr(id)];
  }

  /** One turn of the builder's loop: the visited column joins the SET list,
      with its payload value as the parameter, exactly when its key is present. */
  lemma PlainColumnStep(columns: seq<TaskColumn>, k: nat, data: map<string, Json>)
    requires k < |PlainTaskColumns|
    requires columns == PresentColumns(PlainTaskColumns[..k], data)
    ensures var c := PlainTaskColumns[k];
      && PresentColumns(PlainTaskColumns[..k + 1], data) == columns + (if TaskPayloadKey(c) in data then [c] else [])
      && (TaskPayloadKey(c) in data ==>
            TaskParams(columns + [c], data) == TaskParams(columns, data) + [data[TaskPayloadKey(c)]])
  {
    var c := PlainTaskColumns[k];
    PresentColumnsStep(PlainTaskColumns, k, data);
    TaskParamsAppend(columns, c, data);
    assert c != OptimalEmotions;
  }

  lemma PresentColumnsStep(cs: seq<TaskColumn>, k: nat, data: map<string, Json>)
    requires k < |cs|
    ensures PresentColumns(cs[..k + 1], data) ==
      PresentColumns(cs[..k], data) + (if TaskPayloadKey(cs[k]) in data then [cs[k]] else [])
  {
    assert cs[..k + 1][..k] == cs[..k];
  }

  lemma TaskParamsAppend(cs: seq<TaskColumn>, c: TaskColumn, data: map<string, Json>)
    ensures TaskParams(cs + [c], data) == TaskParams(cs, data) + [TaskParam(c, data)]
  {
    assert (cs + [c])[..|cs|] == cs;
  }

  lemma {:induction false} PresentColumnsIn(cs: seq<TaskColumn>, data: map<string, Json>, c: TaskColumn)
    ensures c in PresentColumns(cs, data) <==> c in cs && TaskPayloadKey(c) in data
    decreases |cs|
  {
    if cs != [] {
      PresentColumnsIn(cs[..|cs| - 1], data, c);
      assert cs == cs[..|cs| - 1] + [cs[|cs| - 1]];
    }
  }

  lemma {:induction false} PresentColumnsOrdered(cs: seq<TaskColumn>, data: map<string, Json>)
    requires forall i, j :: 0 <= i < j < |cs| ==> TaskColumnRank(cs[i]) < TaskColumnRank(cs[j])
    ensures forall i, j :: 0 <= i < j < |PresentColumns(cs, data)| ==>
      TaskColumnRank(PresentColumns(cs, data)[i]) < TaskColumnRank(PresentColumns(cs, data)[j])
    decreases |cs|
  {
    if cs != [] {
      var init := cs[..|cs| - 1];
      var last := cs[|cs| - 1];
      var p := PresentColumns(init, data);
      PresentColumnsOrdered(init, data);
      forall x | x in p ensures TaskColumnRank(x) < TaskColumnRank(last) {
        PresentColumnsIn(init, data, x);
        var i :| 0 <= i < |init| && init[i] == x;
        assert cs[i] == x;
      }
      var q := p + (if TaskPayloadKey(last) in data then [last] else []);
      assert PresentColumns(cs, data) == q;
      forall i, j | 0 <= i < j < |q| ensures TaskColumnRank(q[i]) < TaskColumnRank(q[j]) {
        assert q[i] == p[i];
        if j == |p| { assert q[j] == last; assert p[i] in p; } else { assert q[j] == p[j]; }
      }
    }
  }

  /** A column is in the SET list exactly when its key is in the payload. */
  lemma TaskSetColumnsIff(data: map<string, Json>, c: TaskColumn)
    ensures c in TaskSetColumns(data) <==> TaskPayloadKey(c) in data
  {
    PresentColumnsIn(PlainTaskColumns, data, c);
    PresentColumnsIn(PlainTaskColumns, data, OptimalEmotions);
  }

  /** The SET list follows the order title, description, priority,
      complexity, completed, optimal_emotions (so no column appears twice). */
  lemma TaskSetColumnsOrdered(data: map<string, Json>)
    ensures var cs := TaskSetColumns(data);
      forall i, j :: 0 <= i < j < |cs| ==> TaskColumnRank(cs[i]) < TaskColumnRank(cs[j])
  {
    PresentColumnsOrdered(PlainTaskColumns, data);
    PresentColumnsIn(PlainTaskColumns, data, OptimalEmotions);
  }

  /** The value list pairs up with the SET list, column by column, with the
      id as one extra value at the end. */
  lemma TaskValuesMatch(data: map<string, Json>, id: string)
    ensures var cs := TaskSetColumns(data);
      var vs := TaskSetParams(data) + [JStr(id)];
      |vs| == |cs| + 1 && vs[|cs|] == JStr(id)
      && forall i :: 0 <= i < |cs| ==>
           (TaskPayloadKey(cs[i]) in data &&
            vs[i] == (if cs[i] == OptimalEmotions then JStr(Encode(data["optimalEmotions"])) else data[TaskPayloadKey(cs[i])]))
  {
    var cs := TaskSetColumns(data);
    forall i | 0 <= i < |cs| ensures TaskPayloadKey(cs[i]) in data {
      TaskSetColumnsIff(data, cs[i]);
    }
  }

  /** The SET list is empty exactly when the payload has none of the six keys. */
  lemma TaskSetColumnsEmpty(data: map<string, Json>)
    ensures TaskSetColumns(data) == [] <==>
      forall c: TaskColumn :: TaskPayloadKey(c) !in data
  {
    if TaskSetColumns(data) == [] {
      forall c: TaskColumn ensures TaskPayloadKey(c) !in data { TaskSetColumnsIff(data, c); }
    } else {
      TaskSetColumnsIff(data, TaskSetColumns(data)[0]);
    }
  }

  // ---------------------------------------------------------------- task assignments

  function TaskColumnValue(t: Task, c: TaskColumn): Cell {
    match c
    case Title => t.title
    case Description => t.description
    case Priority => t.priority
    case Complexity => t.complexity
    case Completed => t.completed
    case OptimalEmotions => t.optimalEmotions
  }

  function SetTaskColumn(t: Task, c: TaskColumn, v: Cell): (r: Task)
    ensures TaskColumnValue(r, c) == v
    ensures forall d :: d != c ==> TaskColumnValue(r, d) == TaskColumnValue(t, d)
    ensures r.createdAt == t.createdAt
  {
    match c
    case Title => t.(title := v)
    case Description => t.(description := v)
    case Priority => t.(priority := v)
    case Complexity => t.(complexity := v)
    case Completed => t.(completed := v)
    case OptimalEmotions => t.(optimalEmotions := v)
  }

  /** The assignments of the SET list, left to right. */
  function AssignTask(t: Task, cs: seq<TaskColumn>, vs: seq<Cell>): (r: Task)
    ensures r.createdAt == t.createdAt
    ensures forall c :: c !in cs ==> TaskColumnValue(r, c) == TaskColumnValue(t, c)
    decreases cs
  {
    if cs == [] || vs == [] then t else AssignTask(SetTaskColumn(t, cs[0], vs[0]), cs[1..], vs[1..])
  }

  /** With distinct columns, each assigned column ends up with its value and
      every other column (and the creation time) keeps its old one. */
  lemma {:induction false} AssignTaskEffect(t: Task, cs: seq<TaskColumn>, vs: seq<Cell>, c: TaskColumn)
    requires |cs| == |vs|
    requires forall i, j :: 0 <= i < j < |cs| ==> cs[i] != cs[j]
    ensures AssignTask(t, cs, vs).createdAt == t.createdAt
    ensures c !in cs ==> TaskColumnValue(AssignTask(t, cs, vs), c) == TaskColumnValue(t, c)
    ensures forall k :: 0 <= k < |cs| && cs[k] == c ==> TaskColumnValue(AssignTask(t, cs, vs), c) == vs[k]
    decreases cs
  {
    if cs != [] {
      var t' := SetTaskColumn(t, cs[0], vs[0]);
      AssignTaskEffect(t', cs[1..], vs[1..], c);
      forall k | 0 <= k < |cs| && cs[k] == c
        ensures TaskColumnValue(AssignTask(t, cs, vs), c) == vs[k]
      {
        if k > 0 {
          assert cs[1..][k - 1] == c;
        } else {
          assert c !in cs[1..];
        }
      }
    }
  }

  /** The SET list's assignments as the function the UPDATE applies to the matched row. */
  function TaskAssigner(cs: seq<TaskColumn>): (Task, seq<Cell>) -> Task {
    (x, vs) => AssignTask(x, cs, vs)
  }

  /** The NOT NULL columns of `tasks`. */
  predicate TaskNotNull(t: Task) {
    t.title != Null && t.priority != Null
  }

  // ================================================================ emotion sessions

  datatype SessionColumn = EndTime | Emotions

  function SessionPayloadKey(c: SessionColumn): string {
    match c
    case EndTime => "end_time"
    case Emotions => "emotions"
  }

  /** The SET list of `update_emotion_session`. */
  function SessionSetColumns(data: map<string, Json>): (r: seq<SessionColumn>)
    ensures |r| <= 2
    ensures EndTime in r <==> "end_time" in data
    ensures Emotions in r <==> "emotions" in data
  {
    (if "end_time" in data then [EndTime] else []) + (if "emotions" in data then [Emotions] else [])
  }

  function SessionParam(c: SessionColumn, data: map<string, Json>): Json {
    match c
    case EndTime => Get(data, "end_time")
    case Emotions => JStr(Encode(Get(data, "emotions")))
  }

  function SessionParams(cs: seq<SessionColumn>, data: map<string, Json>): (r: seq<Json>)
    ensures |r| == |cs|
    ensures forall i :: 0 <= i < |cs| ==> r[i] == SessionParam(cs[i], data)
  {
    if cs == [] then [] else [SessionParam(cs[0], data)] + SessionParams(cs[1..], data)
  }

  /** `update_emotion_session`'s query builder. */
  method BuildSessionUpdate(data: map<string, Json>, id: string) returns (columns: seq<SessionColumn>, values: seq<Json>)
    ensures columns == SessionSetColumns(data)
    ensures values == SessionParams(columns, data) + [JStr(id)]
  {
    columns, values := [], [];
    if "end_time" in data {
      columns := columns + [EndTime];
      values := values + [data["end_time"]];
    }
    if "emotions" in data {
      columns := columns + [Emotions];
      values := values + [JStr(Encode(data["emotions"]))];
    }
    values := values + [JStr(id)];
  }

  /** end_time comes before emotions; each is in the SET list exactly when
      its key is in the payload; the values pair up with the id last. */
  lemma SessionSetColumnsSpec(data: map<string, Json>, id: string)
    ensures var cs := SessionSetColumns(data);
      (forall c :: c in cs <==> SessionPayloadKey(c) in data)
      && (|cs| == 2 ==> cs == [EndTime, Emotions])
      && (cs == [] <==> "end_time" !in data && "emotions" !in data)
      && var vs := SessionParams(cs, data) + [JStr(id)];
         |vs| == |cs| + 1 && vs[|cs|] == JStr(id)
  {
  }

  function SetSessionColumn(s: Session, c: SessionColumn, v: Cell): Session {
    match c
    case EndTime => s.(endTime := v)
    case Emotions => s.(emotions := v)
  }

  function AssignSession(s: Session, cs: seq<SessionColumn>, vs: seq<Cell>): Session
    decreases cs
  {
    if cs == [] || vs == [] then s else AssignSession(SetSessionColumn(s, cs[0], vs[0]), cs[1..], vs[1..])
  }

  function SessionAssigner(cs: seq<SessionColumn>): (Session, seq<Cell>) -> Session {
    (x, vs) => AssignSession(x, cs, vs)
  }

  /** Neither `end_time` nor `emotions` is NOT NULL. */
  predicate SessionNotNull(s: Session) {
    true
  }
}
