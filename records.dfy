/** The rows of the six tables, the primitive statements the handlers run on
    them (UPDATE ... WHERE id = ?, DELETE ... WHERE id = ?, INSERT), and the
    read-side decoding of a task row. */
module Records {
  import opened Json
  import opened Sql

  /** A row of one of the five owned tables: its primary key, its owner and
      the table's other columns. Timestamps are seconds on the store's clock. */
  datatype Row<R> = Row(id: string, userId: string, cols: R)

  datatype User = User(id: string, username: string, password: string)

  /** `behavioral_data` */
  datatype Sample = Sample(timestamp: nat, typingSpeed: Cell, mouseActivity: Cell, focusScore: Cell)

  /** `emotion_sessions` */
  datatype Session = Session(startTime: nat, endTime: Cell, emotions: Cell)

  /** `interventions` (the column `type` is called `kind` here) */
  datatype Intervention = Intervention(kind: Cell, emotion: Cell, message: Cell, accepted: Cell, createdAt: nat)

  /** `tasks`; `optimalEmotions` is the text column `optimal_emotions`. */
  datatype Task = Task(title: Cell, description: Cell, priority: Cell, complexity: Cell,
                       optimalEmotions: Cell, completed: Cell, createdAt: nat)

  /** `wellbeing_reports` */
  datatype Report = Report(weekStartDate: Cell, avgMoodScore: Cell, flowSessions: Cell,
                           breaksTaken: Cell, tasksCompleted: Cell, reportData: Cell, createdAt: nat)

  // ---------------------------------------------------------------- keys

  /** The position of the row with primary key `id`, if any. */
  function IndexOf<R>(t: seq<Row<R>>, id: string): (r: Option<nat>)
    ensures r.Some? ==> r.value < |t| && t[r.value].id == id
    ensures r.None? <==> forall i :: 0 <= i < |t| ==> t[i].id != id
  {
    if t == [] then None
    else if t[0].id == id then Some(0)
    else match IndexOf(t[1..], id)
      case None => None
      case Some(i) => Some(i + 1)
  }

  /** The primary-key constraint. */
  ghost predicate UniqueIds<R>(t: seq<Row<R>>) {
    forall i, j :: 0 <= i < j < |t| ==> t[i].id != t[j].id
  }

  lemma IndexOfUnique<R>(t: seq<Row<R>>, id: string, k: nat)
    requires UniqueIds(t) && k < |t| && t[k].id == id
    ensures IndexOf(t, id) == Some(k)
  {
  }

  /** `SELECT * FROM t WHERE user_id = ?`, in table order. */
  function OwnedBy<R>(t: seq<Row<R>>, user: string): (r: seq<Row<R>>)
    ensures |r| <= |t|
    ensures forall i :: 0 <= i < |r| ==> r[i].userId == user && r[i] in t
    ensures forall x :: x in t && x.userId == user ==> x in r
  {
    if t == [] then []
    else (if t[0].userId == user then [t[0]] else []) + OwnedBy(t[1..], user)
  }

  /** A row appended to the table is listed last when it is the user's. */
  lemma {:induction false} OwnedByAppend<R>(t: seq<Row<R>>, x: Row<R>, user: string)
    ensures OwnedBy(t + [x], user) == OwnedBy(t, user) + (if x.userId == user then [x] else [])
    decreases |t|
  {
    if t != [] {
      OwnedByAppend(t[1..], x, user);
      assert (t + [x])[1..] == t[1..] + [x];
    } else {
      assert [x][1..] == [];
    }
  }

  // ---------------------------------------------------------------- statements

  datatype SqlError =
    | SyntaxError      // `SET` with no assignments
    | BindingError     // a parameter sqlite3 cannot bind
    | NotNullFailed    // a NOT NULL column would be NULL
    | UniqueFailed     // the primary key is taken

  /** The outcome of one statement: the number of rows it changed and the
      table after it, or the error that aborted it (the table is then as before). */
  datatype Exec<T> = Done(rowcount: nat, table: T) | Failed(error: SqlError)

  /** `UPDATE t SET <setCount assignments> WHERE id = ?` with positional
      parameters `values` (the assignments' values, then the key). `assign`
      applies the bound assignment values to a row; `notNull` is the table's
      NOT NULL constraint, checked only on a row that is actually updated. */
  function ExecUpdate<R>(t: seq<Row<R>>, setCount: nat, values: seq<Json>,
                         assign: (R, seq<Cell>) -> R, notNull: R -> bool): (r: Exec<seq<Row<R>>>)
    ensures setCount == 0 ==> r == Failed(SyntaxError)
    ensures r.Done? ==> r.rowcount <= 1 && |r.table| == |t|
    ensures r.Done? && r.rowcount == 0 ==> r.table == t
    ensures r.Done? && r.rowcount == 1 ==>
      exists i :: 0 <= i < |t| && r.table == t[i := r.table[i]] && r.table[i].id == t[i].id
                  && r.table[i].userId == t[i].userId && notNull(r.table[i].cols)
  {
    if setCount == 0 then Failed(SyntaxError)
    else if |values| != setCount + 1 then Failed(BindingError)
    else
      match BindAll(values)
      case None => Failed(BindingError)
      case Some(cells) =>
        var key := cells[setCount];
        // the id column is TEXT; the handlers always pass the key as a string
        match (if key.Text? then IndexOf(t, key.s) else None)
        case None => Done(0, t)
        case Some(i) =>
          var row := t[i].(cols := assign(t[i].cols, cells[..setCount]));
          if notNull(row.cols) then Done(1, t[i := row]) else Failed(NotNullFailed)
  }

  /** An UPDATE that leaves the key column alone keeps the keys unique. */
  lemma ExecUpdateKeepsUnique<R>(t: seq<Row<R>>, setCount: nat, values: seq<Json>,
                                 assign: (R, seq<Cell>) -> R, notNull: R -> bool)
    requires UniqueIds(t)
    ensures var r := ExecUpdate(t, setCount, values, assign, notNull);
      r.Done? ==> UniqueIds(r.table)
  {
    var r := ExecUpdate(t, setCount, values, assign, notNull);
    if r.Done? && r.rowcount == 1 {
      var k :| 0 <= k < |t| && r.table == t[k := r.table[k]] && r.table[k].id == t[k].id;
      forall i, j | 0 <= i < j < |r.table| ensures r.table[i].id != r.table[j].id {
        assert r.table[i].id == t[i].id && r.table[j].id == t[j].id;
      }
    }
  }

  /** `DELETE FROM t WHERE id = ?` */
  function ExecDelete<R>(t: seq<Row<R>>, id: string): (r: Exec<seq<Row<R>>>)
    ensures r.Done?
    ensures r.rowcount == 0 <==> IndexOf(t, id).None?
    ensures r.rowcount == 0 ==> r.table == t
  {
    match IndexOf(t, id)
    case None => Done(0, t)
    case Some(i) =>
      WithoutShrinks(t, id);
      Done(|t| - |Without(t, id)|, Without(t, id))
  }

  /** The rows whose key is not `id`, in table order. */
  function Without<R>(t: seq<Row<R>>, id: string): (r: seq<Row<R>>)
    ensures |r| <= |t|
    ensures forall i :: 0 <= i < |r| ==> r[i].id != id
  {
    if t == [] then []
    else (if t[0].id == id then [] else [t[0]]) + Without(t[1..], id)
  }

  lemma {:induction false} WithoutShrinks<R>(t: seq<Row<R>>, id: string)
    ensures |Without(t, id)| <= |t|
    ensures IndexOf(t, id).Some? ==> |Without(t, id)| < |t|
    decreases |t|
  {
    if t != [] { WithoutShrinks(t[1..], id); }
  }

  /** Deleting keeps exactly the rows with another key. */
  lemma {:induction false} WithoutMembers<R>(t: seq<Row<R>>, id: string, x: Row<R>)
    ensures x in Without(t, id) <==> x in t && x.id != id
    decreases |t|
  {
    if t != [] {
      WithoutMembers(t[1..], id, x);
      assert t == [t[0]] + t[1..];
    }
  }

  /** `INSERT INTO t ...` of an already-built row. */
  function ExecInsert<R>(t: seq<Row<R>>, row: Row<R>, notNull: bool): (r: Exec<seq<Row<R>>>)
    ensures r.Done? <==> notNull && IndexOf(t, row.id).None?
    ensures r.Done? ==> r.rowcount == 1 && r.table == t + [row]
  {
    if !notNull then Failed(NotNullFailed)
    else if IndexOf(t, row.id).Some? then Failed(UniqueFailed)
    else Done(1, t + [row])
  }

  lemma ExecDeleteKeepsUnique<R>(t: seq<Row<R>>, id: string)
    requires UniqueIds(t)
    ensures UniqueIds(ExecDelete(t, id).table)
  {
    WithoutKeepsUnique(t, id);
  }

  lemma InsertKeepsUnique<R>(t: seq<Row<R>>, row: Row<R>)
    requires UniqueIds(t) && IndexOf(t, row.id).None?
    ensures UniqueIds(t + [row])
  {
  }

  lemma {:induction false} WithoutKeepsUnique<R>(t: seq<Row<R>>, id: string)
    requires UniqueIds(t)
    ensures UniqueIds(Without(t, id))
    decreases |t|
  {
    if t != [] {
      var tail := t[1..];
      assert UniqueIds(tail) by {
        forall i, j | 0 <= i < j < |tail| ensures tail[i].id != tail[j].id {
          assert tail[i] == t[i + 1] && tail[j] == t[j + 1];
        }
      }
      WithoutKeepsUnique(tail, id);
      var w := Without(tail, id);
      forall x | x in w ensures x.id != t[0].id {
        WithoutMembers(tail, id, x);
        var i :| 0 <= i < |tail| && tail[i] == x;
        assert t[i + 1] == x;
      }
      var r := (if t[0].id == id then [] else [t[0]]) + w;
      assert Without(t, id) == r;
      forall i, j | 0 <= i < j < |r| ensures r[i].id != r[j].id {
        if t[0].id != id && i == 0 {
          assert r[j] == w[j - 1] && r[j] in w;
        }
      }
    }
  }

  /** With unique keys, deleting the row at `k` closes the gap and keeps the
      order of the others. */
  lemma {:induction false} WithoutAt<R>(t: seq<Row<R>>, id: string, k: nat)
    requires UniqueIds(t) && k < |t| && t[k].id == id
    ensures Without(t, id) == t[..k] + t[k + 1..]
    decreases |t|
  {
    var tail := t[1..];
    assert Without(t, id) == (if t[0].id == id then [] else [t[0]]) + Without(tail, id);
    if k == 0 {
      forall i | 0 <= i < |tail| ensures tail[i].id != id {
        assert tail[i] == t[i + 1];
      }
      WithoutAbsent(tail, id);
      assert t[..0] + t[1..] == tail;
    } else {
      assert t[0].id != id;
      assert UniqueIds(tail) by {
        forall i, j | 0 <= i < j < |tail| ensures tail[i].id != tail[j].id {
          assert tail[i] == t[i + 1] && tail[j] == t[j + 1];
        }
      }
      assert tail[k - 1] == t[k];
      WithoutAt(tail, id, k - 1);
      assert tail[..k - 1] == t[1..k];
      assert tail[k..] == t[k + 1..];
      assert [t[0]] + t[1..k] == t[..k];
    }
  }

  lemma {:induction false} WithoutAbsent<R>(t: seq<Row<R>>, id: string)
    requires forall i :: 0 <= i < |t| ==> t[i].id != id
    ensures Without(t, id) == t
    decreases |t|
  {
    if t != [] {
      WithoutAbsent(t[1..], id);
      assert [t[0]] + t[1..] == t;
    }
  }

  // ---------------------------------------------------------------- task read-back

  /** A task as the list and patch handlers return it: `optimal_emotions`
      replaced by the decoded `optimalEmotions`. */
  datatype TaskRecord = TaskRecord(id: string, userId: string, title: Cell, description: Cell,
                                   priority: Cell, complexity: Cell, optimalEmotions: Json,
                                   completed: Cell, createdAt: nat)

  /** The stored text decoded, or `[]` when it is NULL, empty, or does not
      decode (a non-text value makes `json.loads` raise, which is caught too). */
  function DecodeOptimalEmotions(c: Cell): (r: Json)
    ensures !Truthy(c) ==> r == JArr([])
    ensures c.Text? && c.s != "" && Decode(c.s).Some? ==> r == Decode(c.s).value
    ensures c.Text? && Decode(c.s).None? ==> r == JArr([])
    ensures c.Int? ==> r == JArr([])
  {
    if Truthy(c) then
      if c.Text? then
        match Decode(c.s)
        case Some(j) => j
        case None => JArr([])
      else JArr([])
    else JArr([])
  }

  function TaskView(row: Row<Task>): (r: TaskRecord)
    ensures r.id == row.id && r.userId == row.userId && r.completed == row.cols.completed
    ensures !Truthy(row.cols.optimalEmotions) ==> r.optimalEmotions == JArr([])
  {
    var t := row.cols;
    TaskRecord(row.id, row.userId, t.title, t.description, t.priority, t.complexity,
               DecodeOptimalEmotions(t.optimalEmotions), t.completed, t.createdAt)
  }

  /** Storing `json.dumps(j)` and reading it back gives `j`. */
  lemma StoredEmotionsRoundTrip(j: Json)
    ensures DecodeOptimalEmotions(Text(Encode(j))) == j
  {
    DecodeEncode(j);
  }
}
