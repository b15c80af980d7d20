/** The shape of the checkpoint table over all runs, and what export followed by import
    keeps.
    Over crates/cuartel-core/src/checkpoint.rs, lines 55 to 132,
    crates/cuartel-core/src/fork.rs, lines 45 to 84, and
    crates/cuartel-remote/src/sync.rs, lines 137 to 188. */
module CheckpointForest {
  import opened Wrappers
  import opened Checkpoints

  type Rows = map<Id, CheckpointRow>

  // ---------- forests ----------

  /** Every row stands under its id, and what it refers to exists. */
  ghost predicate Sound(db: Db) {
    && (forall id :: id in db.checkpoints ==>
          var row := db.checkpoints[id];
          row.id == id && row.sessionId in db.sessions && (row.parent.Some? ==> row.parent.value in db.checkpoints))
    && (forall id :: id in db.sessions ==>
          db.sessions[id].workspaceId in db.workspaces && db.sessions[id].serverId in db.servers)
  }

  /** Every row ranks above its parent. */
  ghost predicate Ranked(rows: Rows, rank: map<Id, nat>) {
    forall id :: id in rows ==>
      && id in rank
      && (rows[id].parent.Some? && rows[id].parent.value in rows ==>
            rows[id].parent.value in rank && rank[rows[id].parent.value] < rank[id])
  }

  ghost predicate IsForest(rows: Rows) { exists rank :: Ranked(rows, rank) }

  /** The ancestor `n` steps up, if there is one. */
  function Up(rows: Rows, id: Id, n: nat): Option<Id>
    decreases n
  {
    if id !in rows then None
    else if n == 0 then Some(id)
    else if rows[id].parent.None? then None
    else Up(rows, rows[id].parent.value, n - 1)
  }

  lemma {:induction false} ChainBelowRank(rows: Rows, rank: map<Id, nat>, id: Id, n: nat)
    requires Ranked(rows, rank) && Up(rows, id, n).Some?
    ensures id in rank && n <= rank[id]
    decreases n
  {
    if 0 < n {
      ChainBelowRank(rows, rank, rows[id].parent.value, n - 1);
    }
  }

  ghost predicate Ends(rows: Rows, id: Id) { exists n: nat :: Up(rows, id, n) == None }

  /** How many rows a chain of ancestors that ends within `n` steps has. */
  function Height(rows: Rows, id: Id, n: nat): nat
    decreases n
  {
    if n == 0 || id !in rows then 0
    else if rows[id].parent.None? then 1
    else 1 + Height(rows, rows[id].parent.value, n - 1)
  }

  lemma {:induction false} HeightIsFixed(rows: Rows, id: Id, n: nat, m: nat)
    requires Up(rows, id, n) == None && Up(rows, id, m) == None
    ensures Height(rows, id, n) == Height(rows, id, m)
    decreases n
  {
    if id in rows && rows[id].parent.Some? {
      HeightIsFixed(rows, rows[id].parent.value, n - 1, m - 1);
    }
  }

  /** Enough steps to pass the end of a chain. */
  ghost function Steps(rows: Rows, id: Id): (n: nat)
    requires Ends(rows, id)
    ensures Up(rows, id, n) == None
  {
    var n: nat :| Up(rows, id, n) == None;
    n
  }

  ghost function FullHeight(rows: Rows, id: Id): nat
    requires Ends(rows, id)
  {
    Height(rows, id, Steps(rows, id))
  }

  lemma {:induction false} ParentIsLower(rows: Rows, id: Id)
    requires Ends(rows, id) && id in rows && rows[id].parent.Some? && Ends(rows, rows[id].parent.value)
    ensures FullHeight(rows, rows[id].parent.value) < FullHeight(rows, id)
  {
    var parent := rows[id].parent.value;
    HeightIsFixed(rows, parent, Steps(rows, id) - 1, Steps(rows, parent));
  }

  /** The rows are a forest if and only if every chain of ancestors ends. */
  lemma {:induction false} ForestIffChainsEnd(rows: Rows)
    ensures IsForest(rows) <==> forall id :: id in rows ==> Ends(rows, id)
  {
    if IsForest(rows) {
      var rank :| Ranked(rows, rank);
      forall id | id in rows
        ensures Ends(rows, id)
      {
        if Up(rows, id, rank[id] + 1).Some? {
          ChainBelowRank(rows, rank, id, rank[id] + 1);
        }
      }
    }
    if forall id :: id in rows ==> Ends(rows, id) {
      var rank := map id | id in rows :: FullHeight(rows, id);
      forall id | id in rows && rows[id].parent.Some? && rows[id].parent.value in rows
        ensures rank[rows[id].parent.value] < rank[id]
      {
        ParentIsLower(rows, id);
      }
      assert Ranked(rows, rank);
    }
  }

  /** An insert that succeeds keeps the forest if and only if the row is not its own parent. */
  lemma {:induction false} InsertKeepsForest(db: Db, row: CheckpointRow)
    requires Sound(db) && InsertRule(db, row).1.Ok?
    ensures Sound(InsertRule(db, row).0)
    ensures IsForest(InsertRule(db, row).0.checkpoints) <==> IsForest(db.checkpoints) && row.parent != Some(row.id)
  {
    var before, after := db.checkpoints, InsertRule(db, row).0.checkpoints;
    if IsForest(before) && row.parent != Some(row.id) {
      var rank :| Ranked(before, rank);
      var above := if row.parent.Some? then rank[row.parent.value] + 1 else 0;
      assert Ranked(after, rank[row.id := above]);
    }
    if IsForest(after) {
      var rank :| Ranked(after, rank);
      assert after[row.id] == row;
      assert Ranked(before, rank);
    }
  }

  lemma {:induction false} RemoveKeepsForest(db: Db, id: Id)
    requires Sound(db) && IsForest(db.checkpoints)
    ensures Sound(RemoveRule(db, id).0) && IsForest(RemoveRule(db, id).0.checkpoints)
  {
    var rank :| Ranked(db.checkpoints, rank);
    var after := RemoveRule(db, id).0;
    assert Ranked(after.checkpoints, rank);
    forall c | c in after.checkpoints && after.checkpoints[c].parent.Some?
      ensures after.checkpoints[c].parent.value in after.checkpoints
    {
      if after.checkpoints[c].parent == Some(id) {
        assert c in Children(db, id);
      }
    }
  }

  /** `create` and `prepare_fork` never make a row its own parent, whatever id is drawn. */
  lemma {:induction false} CreateKeepsForest(db: Db, id: Id, p: CreateCheckpoint)
    requires Sound(db) && IsForest(db.checkpoints)
    ensures Sound(CreateRule(db, id, p).0) && IsForest(CreateRule(db, id, p).0.checkpoints)
  {
    if CreateRule(db, id, p).1.Ok? {
      InsertKeepsForest(db, RowOf(id, p));
    }
  }

  lemma {:induction false} UpdateKeepsForest(db: Db, id: Id, row: CheckpointRow)
    requires Sound(db) && IsForest(db.checkpoints) && id in db.checkpoints
    requires row.id == id && row.parent == db.checkpoints[id].parent && row.sessionId == db.checkpoints[id].sessionId
    ensures var after := db.(checkpoints := db.checkpoints[id := row]);
      Sound(after) && IsForest(after.checkpoints)
  {
    var rank :| Ranked(db.checkpoints, rank);
    assert Ranked(db.checkpoints[id := row], rank);
  }

  ghost predicate NoSelfParent(rows: seq<CheckpointRow>) {
    forall i :: 0 <= i < |rows| ==> rows[i].parent != Some(rows[i].id)
  }

  lemma {:induction false} InsertRowsKeepForest(db: Db, rows: seq<CheckpointRow>)
    requires Sound(db) && IsForest(db.checkpoints) && NoSelfParent(rows)
    ensures Sound(InsertRows(db, rows).0) && IsForest(InsertRows(db, rows).0.checkpoints)
    decreases |rows|
  {
    if rows != [] && InsertRule(db, rows[0]).1.Ok? {
      InsertKeepsForest(db, rows[0]);
      InsertRowsKeepForest(InsertRule(db, rows[0]).0, rows[1..]);
    }
  }

  lemma {:induction false} ImportKeepsForest(db: Db, snapshot: Snapshot, server: Id)
    requires Sound(db) && IsForest(db.checkpoints) && NoSelfParent(snapshot.checkpoints)
    ensures Sound(ImportRule(db, snapshot, server).0) && IsForest(ImportRule(db, snapshot, server).0.checkpoints)
  {
    var (withSession, r) := InsertSessionRule(db, snapshot.session.(serverId := server));
    if r.Ok? {
      assert Sound(withSession);
      InsertRowsKeepForest(withSession, snapshot.checkpoints);
    }
  }

  lemma {:induction false} InsertedRowsForest(db: Db, rows: seq<CheckpointRow>)
    requires Sound(db) && InsertRows(db, rows).1.Ok?
    ensures IsForest(InsertRows(db, rows).0.checkpoints) <==> IsForest(db.checkpoints) && NoSelfParent(rows)
    decreases |rows|
  {
    if rows != [] {
      InsertKeepsForest(db, rows[0]);
      InsertedRowsForest(InsertRule(db, rows[0]).0, rows[1..]);
      assert NoSelfParent(rows) <==> rows[0].parent != Some(rows[0].id) && NoSelfParent(rows[1..]) by {
        assert forall i :: 1 <= i < |rows| ==> rows[i] == rows[1..][i - 1];
      }
    }
  }

  /** An import that succeeds keeps the forest if and only if no row of the snapshot is its
      own parent; nothing in the import rejects such a row. */
  lemma {:induction false} ImportForestExactly(db: Db, snapshot: Snapshot, server: Id)
    requires Sound(db) && IsForest(db.checkpoints) && ImportRule(db, snapshot, server).1.Ok?
    ensures IsForest(ImportRule(db, snapshot, server).0.checkpoints) <==> NoSelfParent(snapshot.checkpoints)
  {
    var withSession := InsertSessionRule(db, snapshot.session.(serverId := server)).0;
    assert Sound(withSession);
    InsertedRowsForest(withSession, snapshot.checkpoints);
  }

  // ---------- runs ----------

  datatype Event =
    | NewSession(session: SessionRow)
    | Create(id: Id, params: CreateCheckpoint)
    | PrepareFork(request: ForkRequest, newId: Id, metadata: string)
    | Delete(deleted: Id)
    | Link(linked: Id, rivetId: Id)
    | SetLabel(labelled: Id, title: Option<string>)
    | Import(snapshot: Snapshot, server: Id)
    | Repoint(repointed: Id, newServer: Id, rivetSession: Option<Id>)

  function Apply(db: Db, e: Event): Db {
    match e
    case NewSession(row) => InsertSessionRule(db, row).0
    case Create(id, p) => CreateRule(db, id, p).0
    case PrepareFork(req, newId, metadata) => PrepareForkRule(db, req, newId, metadata).0
    case Delete(id) => DeleteRule(db, id).0
    case Link(id, rivetId) => LinkRule(db, id, rivetId).0
    case SetLabel(id, title) => LabelRule(db, id, title).0
    case Import(snapshot, server) => ImportRule(db, snapshot, server).0
    case Repoint(id, server, rivetId) => RepointRule(db, id, server, rivetId).0
  }

  function After(db: Db, events: seq<Event>): Db {
    if events == [] then db else Apply(After(db, events[..|events| - 1]), events[|events| - 1])
  }

  ghost predicate Harmless(e: Event) { e.Import? ==> NoSelfParent(e.snapshot.checkpoints) }

  lemma {:induction false} ApplyKeepsForest(db: Db, e: Event)
    requires Sound(db) && IsForest(db.checkpoints) && Harmless(e)
    ensures Sound(Apply(db, e)) && IsForest(Apply(db, e).checkpoints)
  {
    match e
    case NewSession(row) =>
    case Create(id, p) => CreateKeepsForest(db, id, p);
    case PrepareFork(req, newId, metadata) =>
      if req.checkpointId in db.checkpoints {
        CreateKeepsForest(db, newId, ForkParams(db.checkpoints[req.checkpointId], req, metadata));
      }
    case Delete(id) => RemoveKeepsForest(db, id);
    case Link(id, rivetId) =>
      if id in db.checkpoints {
        UpdateKeepsForest(db, id, db.checkpoints[id].(rivetCheckpointId := Some(rivetId)));
      }
    case SetLabel(id, title) =>
      if id in db.checkpoints {
        UpdateKeepsForest(db, id, db.checkpoints[id].(title := title));
      }
    case Import(snapshot, server) => ImportKeepsForest(db, snapshot, server);
    case Repoint(id, server, rivetId) =>
  }

  /** Over every run whose imports name no row as its own parent, parents always exist and
      the checkpoints form a forest. */
  lemma {:induction false} RunsKeepForest(db: Db, events: seq<Event>)
    requires Sound(db) && IsForest(db.checkpoints) && forall e :: e in events ==> Harmless(e)
    ensures Sound(After(db, events)) && IsForest(After(db, events).checkpoints)
  {
    if events != [] {
      var last := |events| - 1;
      assert forall e :: e in events[..last] ==> e in events;
      assert events[last] in events;
      RunsKeepForest(db, events[..last]);
      ApplyKeepsForest(After(db, events[..last]), events[last]);
    }
  }

  lemma {:induction false} EmptyIsForest(workspaces: set<Id>, servers: set<Id>)
    ensures var db := Db(workspaces, servers, map[], map[]);
      Sound(db) && IsForest(db.checkpoints)
  {
    assert Ranked(map[], map[]);
  }

  // ---------- import ----------

  /** What a row of a snapshot needs of the table and of the rows before it. */
  ghost predicate Insertable(db: Db, rows: seq<CheckpointRow>, i: nat)
    requires i < |rows|
  {
    var row := rows[i];
    && row.id !in db.checkpoints && (forall j :: 0 <= j < i ==> rows[j].id != row.id)
    && row.sessionId in db.sessions
    && (row.parent.Some? ==>
          || row.parent.value == row.id || row.parent.value in db.checkpoints
          || exists j :: 0 <= j < i && rows[j].id == row.parent.value)
  }

  ghost predicate AllInsertable(db: Db, rows: seq<CheckpointRow>) {
    forall i :: 0 <= i < |rows| ==> Insertable(db, rows, i)
  }

  lemma {:induction false} InsertableAfterFirst(db: Db, rows: seq<CheckpointRow>)
    requires rows != [] && InsertRule(db, rows[0]).1.Ok?
    ensures AllInsertable(db, rows) <==> AllInsertable(InsertRule(db, rows[0]).0, rows[1..])
  {
    var after, rest := InsertRule(db, rows[0]).0, rows[1..];
    if AllInsertable(db, rows) {
      forall i | 0 <= i < |rest|
        ensures Insertable(after, rest, i)
      {
        assert Insertable(db, rows, i + 1) && rest[i] == rows[i + 1];
        assert forall j :: 0 <= j < i ==> rest[j] == rows[j + 1];
        if j :| 0 <= j < i + 1 && Some(rows[j].id) == rows[i + 1].parent {
          assert j == 0 || rest[j - 1] == rows[j];
        }
      }
    }
    if AllInsertable(after, rest) {
      forall i | 0 <= i < |rows|
        ensures Insertable(db, rows, i)
      {
        if 0 < i {
          assert Insertable(after, rest, i - 1) && rest[i - 1] == rows[i];
          forall j | 0 <= j < i
            ensures rows[j].id != rows[i].id
          {
            assert j == 0 || rest[j - 1] == rows[j];
          }
          if j :| 0 <= j < i - 1 && Some(rest[j].id) == rows[i].parent {
            assert rest[j] == rows[j + 1];
          }
        }
      }
    }
  }

  /** The table once all rows are in. */
  ghost predicate Added(before: Rows, after: Rows, rows: seq<CheckpointRow>) {
    && (forall id :: id in before ==> id in after && after[id] == before[id])
    && (forall i :: 0 <= i < |rows| ==> rows[i].id in after && after[rows[i].id] == rows[i])
    && (forall id :: id in after ==> id in before || exists i :: 0 <= i < |rows| && rows[i].id == id)
  }

  lemma {:induction false} AddedCons(db: Db, rows: seq<CheckpointRow>)
    requires rows != [] && InsertRule(db, rows[0]).1.Ok?
    requires Added(InsertRule(db, rows[0]).0.checkpoints, InsertRows(db, rows).0.checkpoints, rows[1..])
    ensures Added(db.checkpoints, InsertRows(db, rows).0.checkpoints, rows)
  {
    var middle, after := InsertRule(db, rows[0]).0.checkpoints, InsertRows(db, rows).0.checkpoints;
    forall i | 0 <= i < |rows|
      ensures rows[i].id in after && after[rows[i].id] == rows[i]
    {
      assert i == 0 || rows[1..][i - 1] == rows[i];
    }
    forall id | id in after && id !in db.checkpoints
      ensures exists i :: 0 <= i < |rows| && rows[i].id == id
    {
      if id in middle {
        assert rows[0].id == id;
      } else {
        var i :| 0 <= i < |rows[1..]| && rows[1..][i].id == id;
        assert rows[i + 1].id == id;
      }
    }
  }

  lemma {:induction false} InsertRowsExactly(db: Db, rows: seq<CheckpointRow>)
    ensures InsertRows(db, rows).1.Ok? <==> AllInsertable(db, rows)
    ensures InsertRows(db, rows).0 == db.(checkpoints := InsertRows(db, rows).0.checkpoints)
    ensures InsertRows(db, rows).1.Ok? ==> Added(db.checkpoints, InsertRows(db, rows).0.checkpoints, rows)
    decreases |rows|
  {
    if rows != [] {
      var (after, r) := InsertRule(db, rows[0]);
      if r.Ok? {
        InsertRowsExactly(after, rows[1..]);
        InsertableAfterFirst(db, rows);
        if InsertRows(db, rows).1.Ok? {
          AddedCons(db, rows);
        }
      } else {
        assert !Insertable(db, rows, 0);
      }
    }
  }

  function WithSession(db: Db, snapshot: Snapshot, server: Id): Db {
    db.(sessions := db.sessions[snapshot.session.id := snapshot.session.(serverId := server)])
  }

  /** An import succeeds if and only if the session is new, its workspace and the server are
      known, and every row is new and finds its session and its parent in the table or
      earlier in the snapshot.  Otherwise the rows before the first bad one stay. */
  lemma {:induction false} ImportExactly(db: Db, snapshot: Snapshot, server: Id)
    ensures ImportRule(db, snapshot, server).1.Ok? <==>
      && snapshot.session.id !in db.sessions
      && snapshot.session.workspaceId in db.workspaces && server in db.servers
      && AllInsertable(WithSession(db, snapshot, server), snapshot.checkpoints)
    ensures ImportRule(db, snapshot, server).1.Ok? ==>
      && ImportRule(db, snapshot, server).1.value == snapshot.session.(serverId := server)
      && ImportRule(db, snapshot, server).0.(checkpoints := db.checkpoints) == WithSession(db, snapshot, server)
      && Added(db.checkpoints, ImportRule(db, snapshot, server).0.checkpoints, snapshot.checkpoints)
  {
    InsertRowsExactly(WithSession(db, snapshot, server), snapshot.checkpoints);
  }

  /** Why a row cannot be inserted. */
  function InsertErrorOf(db: Db, row: CheckpointRow): DbError {
    if row.id in db.checkpoints then UniqueViolation(row.id) else ForeignKeyViolation
  }

  lemma {:induction false} RowsStop(db: Db, rows: seq<CheckpointRow>) returns (n: nat)
    ensures n <= |rows| && InsertRows(db, rows[..n]).1.Ok?
    ensures InsertRows(db, rows).0 == InsertRows(db, rows[..n]).0
    ensures InsertRows(db, rows).1.Err? <==> n < |rows|
    ensures n < |rows| ==> InsertRows(db, rows[..n + 1]).1.Err?
    ensures n < |rows| ==>
              InsertRows(db, rows).1 == Err(InsertErrorOf(InsertRows(db, rows).0, rows[n]))
    decreases |rows|
  {
    if rows == [] || InsertRule(db, rows[0]).1.Err? {
      n := 0;
    } else {
      var rest := RowsStop(InsertRule(db, rows[0]).0, rows[1..]);
      n := rest + 1;
      assert rows[..n][1..] == rows[1..][..rest];
      assert n < |rows| ==> rows[..n + 1][1..] == rows[1..][..rest + 1];
    }
  }

  lemma {:induction false} InsertablePrefix(db: Db, rows: seq<CheckpointRow>, n: nat, i: nat)
    requires i < n <= |rows|
    ensures Insertable(db, rows[..n], i) <==> Insertable(db, rows, i)
  {
    assert forall j :: 0 <= j <= i ==> rows[..n][j] == rows[j];
  }

  lemma {:induction false} PrefixInsertable(db: Db, rows: seq<CheckpointRow>, n: nat)
    requires n <= |rows|
    ensures InsertRows(db, rows[..n]).1.Ok? <==> forall i :: 0 <= i < n ==> Insertable(db, rows, i)
  {
    InsertRowsExactly(db, rows[..n]);
    forall i | 0 <= i < n
      ensures Insertable(db, rows[..n], i) <==> Insertable(db, rows, i)
    {
      InsertablePrefix(db, rows, n, i);
    }
  }

  /** Rows that fail leave exactly those before the first that cannot be inserted. */
  lemma {:induction false} FailedRowsKeepPrefix(db: Db, rows: seq<CheckpointRow>) returns (n: nat)
    requires InsertRows(db, rows).1.Err?
    ensures n < |rows| && !Insertable(db, rows, n) && forall i :: 0 <= i < n ==> Insertable(db, rows, i)
    ensures Added(db.checkpoints, InsertRows(db, rows).0.checkpoints, rows[..n])
    ensures InsertRows(db, rows).1.error == InsertErrorOf(InsertRows(db, rows).0, rows[n])
  {
    n := RowsStop(db, rows);
    PrefixInsertable(db, rows, n);
    PrefixInsertable(db, rows, n + 1);
    InsertRowsExactly(db, rows[..n]);
  }

  /** What a failed import leaves once its session row is in: that row, and exactly the
      checkpoints before the first that cannot be inserted, whose error is returned. */
  lemma {:induction false} FailedImportKeepsPrefix(db: Db, snapshot: Snapshot, server: Id) returns (n: nat)
    requires ImportRule(db, snapshot, server).1.Err?
    requires InsertSessionRule(db, snapshot.session.(serverId := server)).1.Ok?
    ensures n < |snapshot.checkpoints| && !Insertable(WithSession(db, snapshot, server), snapshot.checkpoints, n)
    ensures forall i :: 0 <= i < n ==> Insertable(WithSession(db, snapshot, server), snapshot.checkpoints, i)
    ensures ImportRule(db, snapshot, server).0.(checkpoints := db.checkpoints) == WithSession(db, snapshot, server)
    ensures Added(db.checkpoints, ImportRule(db, snapshot, server).0.checkpoints, snapshot.checkpoints[..n])
    ensures ImportRule(db, snapshot, server).1.error
         == InsertErrorOf(ImportRule(db, snapshot, server).0, snapshot.checkpoints[n])
  {
    InsertRowsExactly(WithSession(db, snapshot, server), snapshot.checkpoints);
    n := FailedRowsKeepPrefix(WithSession(db, snapshot, server), snapshot.checkpoints);
  }

  /** An import is not atomic: one that fails leaves the tables as they were if and only if
      it fails at the session row. */
  lemma {:induction false} FailedImportChanges(db: Db, snapshot: Snapshot, server: Id)
    requires ImportRule(db, snapshot, server).1.Err?
    ensures ImportRule(db, snapshot, server).0 == db <==>
      || snapshot.session.id in db.sessions
      || snapshot.session.workspaceId !in db.workspaces
      || server !in db.servers
  {
    InsertRowsExactly(WithSession(db, snapshot, server), snapshot.checkpoints);
  }

  function Bare(id: Id, parent: Option<Id>): CheckpointRow { CheckpointRow(id, "s", None, parent, None, "{}") }

  /** Two checkpoints of a session, the second under a checkpoint that is not there. */
  function BrokenSnapshot(): Snapshot {
    Snapshot(SessionRow("s", "w", "old", "agent", None, "created"), [Bare("a", None), Bare("b", Some("missing"))])
  }

  /** The import of that snapshot into an empty database fails, and leaves the session and
      the first of its checkpoints. */
  lemma {:induction false} ImportIsNotAtomic(db: Db)
    requires db == Db({"w"}, {"new"}, map[], map[])
    ensures var (after, r) := ImportRule(db, BrokenSnapshot(), "new");
      r.Err? && after.sessions.Keys == {"s"} && after.checkpoints == map["a" := Bare("a", None)]
  {
    var rows := BrokenSnapshot().checkpoints;
    var withSession := InsertSessionRule(db, BrokenSnapshot().session.(serverId := "new")).0;
    var first := InsertRule(withSession, rows[0]).0;
    assert rows[1..] == [rows[1]];
    assert InsertRows(first, rows[1..]) == (first, Err(ForeignKeyViolation));
  }

  /** One checkpoint that is its own parent. */
  function SelfParentSnapshot(): Snapshot {
    Snapshot(SessionRow("s", "w", "old", "agent", None, "created"), [Bare("a", Some("a"))])
  }

  /** That snapshot is imported without an error, and then the checkpoints are no forest. */
  lemma {:induction false} SelfParentIsImported(db: Db)
    requires db == Db({"w"}, {"new"}, map[], map[])
    ensures Sound(db) && IsForest(db.checkpoints)
    ensures var (after, r) := ImportRule(db, SelfParentSnapshot(), "new");
      r.Ok? && after.checkpoints == map["a" := Bare("a", Some("a"))] && !IsForest(after.checkpoints)
  {
    var snapshot := SelfParentSnapshot();
    var withSession := InsertSessionRule(db, snapshot.session.(serverId := "new")).0;
    assert InsertRows(InsertRule(withSession, snapshot.checkpoints[0]).0, snapshot.checkpoints[1..]).1.Ok?;
    assert Ranked(db.checkpoints, map[]);
    assert snapshot.checkpoints[0].parent == Some(snapshot.checkpoints[0].id);
    ImportForestExactly(db, snapshot, "new");
  }

  // ---------- export, then import ----------

  predicate OfSession(rows: Rows, id: Id, session: Id) { id in rows && rows[id].sessionId == session }

  ghost predicate Listed(snapshot: Snapshot, id: Id) {
    exists i :: 0 <= i < |snapshot.checkpoints| && snapshot.checkpoints[i].id == id
  }

  /** What an export lists: the session, and its checkpoints, each once, in some order. */
  ghost predicate IsExport(db: Db, session: Id, snapshot: Snapshot) {
    && session in db.sessions && snapshot.session == db.sessions[session]
    && (forall i :: 0 <= i < |snapshot.checkpoints| ==>
          var row := snapshot.checkpoints[i];
          OfSession(db.checkpoints, row.id, session) && row == db.checkpoints[row.id])
    && (forall i, j :: 0 <= i < j < |snapshot.checkpoints| ==> snapshot.checkpoints[i].id != snapshot.checkpoints[j].id)
    && (forall id :: OfSession(db.checkpoints, id, session) ==> Listed(snapshot, id))
  }

  ghost predicate ParentKnown(snapshot: Snapshot, i: nat, present: Rows)
    requires i < |snapshot.checkpoints| && snapshot.checkpoints[i].parent.Some?
  {
    var parent := snapshot.checkpoints[i].parent.value;
    || parent == snapshot.checkpoints[i].id || parent in present
    || exists j :: 0 <= j < i && snapshot.checkpoints[j].id == parent
  }

  /** Every row's parent is itself, already present, or earlier in the list. */
  ghost predicate ParentsFirst(snapshot: Snapshot, present: Rows) {
    forall i :: 0 <= i < |snapshot.checkpoints| && snapshot.checkpoints[i].parent.Some? ==>
      ParentKnown(snapshot, i, present)
  }

  /** Importing an export into a database that knows nothing of the session succeeds if and
      only if the parents come first. */
  lemma {:induction false} ExportImports(db: Db, session: Id, snapshot: Snapshot, target: Db, server: Id)
    requires Sound(db) && IsExport(db, session, snapshot)
    requires session !in target.sessions && server in target.servers
    requires snapshot.session.id == session && snapshot.session.workspaceId in target.workspaces
    requires forall id :: OfSession(db.checkpoints, id, session) ==> id !in target.checkpoints
    ensures ImportRule(target, snapshot, server).1.Ok? <==> ParentsFirst(snapshot, target.checkpoints)
  {
    var rows, withSession := snapshot.checkpoints, WithSession(target, snapshot, server);
    ImportExactly(target, snapshot, server);
    forall i | 0 <= i < |rows|
      ensures Insertable(withSession, rows, i)
        <==> (rows[i].parent.Some? ==> ParentKnown(snapshot, i, target.checkpoints))
    {
    }
  }

  /** The import then holds the same checkpoints of the session, with the same parents, and
      everything that was there before. */
  lemma {:induction false} ImportReproduces(db: Db, session: Id, snapshot: Snapshot, target: Db, server: Id)
    requires IsExport(db, session, snapshot) && Sound(target) && session !in target.sessions
    requires ImportRule(target, snapshot, server).1.Ok?
    ensures var after := ImportRule(target, snapshot, server).0;
      && (forall id :: OfSession(after.checkpoints, id, session) <==> OfSession(db.checkpoints, id, session))
      && (forall id :: OfSession(db.checkpoints, id, session) ==> after.checkpoints[id] == db.checkpoints[id])
      && (forall id :: id in target.checkpoints ==>
            id in after.checkpoints && after.checkpoints[id] == target.checkpoints[id])
  {
    ImportExactly(target, snapshot, server);
    var after := ImportRule(target, snapshot, server).0;
    forall id | OfSession(db.checkpoints, id, session)
      ensures OfSession(after.checkpoints, id, session) && after.checkpoints[id] == db.checkpoints[id]
    {
      assert Listed(snapshot, id);
    }
  }

  /** A forked session cannot be exported to a database without the checkpoint it was
      forked from: the import fails, and leaves the session row behind. */
  lemma {:induction false} ForkNeedsItsSource(
      db: Db, req: ForkRequest, newId: Id, metadata: string, snapshot: Snapshot, target: Db, server: Id)
    requires Sound(db) && PrepareForkRule(db, req, newId, metadata).1.Ok? && req.sessionId != req.newSessionId
    requires IsExport(PrepareForkRule(db, req, newId, metadata).0, req.newSessionId, snapshot)
    requires req.checkpointId !in target.checkpoints
    ensures ImportRule(target, snapshot, server).1.Err?
    ensures snapshot.session.id !in target.sessions && snapshot.session.workspaceId in target.workspaces
            && server in target.servers ==>
              snapshot.session.id in ImportRule(target, snapshot, server).0.sessions
  {
    var after := PrepareForkRule(db, req, newId, metadata).0;
    assert OfSession(after.checkpoints, newId, req.newSessionId) && Listed(snapshot, newId);
    var i :| 0 <= i < |snapshot.checkpoints| && snapshot.checkpoints[i].id == newId;
    ImportExactly(target, snapshot, server);
    InsertRowsExactly(WithSession(target, snapshot, server), snapshot.checkpoints);
    assert !Insertable(WithSession(target, snapshot, server), snapshot.checkpoints, i) by {
      forall j | 0 <= j < i
        ensures snapshot.checkpoints[j].id != req.checkpointId
      {
        assert OfSession(after.checkpoints, snapshot.checkpoints[j].id, req.newSessionId);
      }
    }
  }
}
