/** The checkpoint table: rows that refer to a session and to a parent, as inserted by
    `create` and `prepare_fork`, removed by `delete`, and copied by `import_snapshot`.
    Models crates/cuartel-core/src/checkpoint.rs, lines 55 to 132,
    crates/cuartel-core/src/fork.rs, lines 14 to 84,
    crates/cuartel-remote/src/sync.rs, lines 137 to 188 and 232 to 248, and
    crates/cuartel-db/src/checkpoints.rs, lines 43 to 159. */
module Checkpoints {
  import opened Wrappers

  type Id = string

  /** Rows without their timestamps. */
  datatype SessionRow = SessionRow(
    id: Id, workspaceId: Id, serverId: Id, agentType: string, rivetSessionId: Option<Id>, status: string)

  datatype CheckpointRow = CheckpointRow(
    id: Id, sessionId: Id, rivetCheckpointId: Option<Id>, parent: Option<Id>, title: Option<string>, metadata: string)

  datatype Db = Db(
    workspaces: set<Id>, servers: set<Id>, sessions: map<Id, SessionRow>, checkpoints: map<Id, CheckpointRow>)

  datatype DbError =
    | UniqueViolation(id: Id)
    | ForeignKeyViolation
    | NotFound(id: Id)
    | ParentMissing(id: Id)
    | HasForks(id: Id, count: nat)
    | WrongSession(id: Id, owner: Id)
    | Unlinked(id: Id)

  type Outcome<T> = Result<T, DbError>

  // ---------- the tables ----------

  /** An insert, with the keys of the schema.  A row may name itself as its parent: SQLite
      checks the reference once the row is there. */
  function InsertRule(db: Db, row: CheckpointRow): (Db, Outcome<CheckpointRow>) {
    if row.id in db.checkpoints then (db, Err(UniqueViolation(row.id)))
    else if row.sessionId !in db.sessions then (db, Err(ForeignKeyViolation))
    else if row.parent.Some? && row.parent.value !in db.checkpoints && row.parent.value != row.id then
      (db, Err(ForeignKeyViolation))
    else (db.(checkpoints := db.checkpoints[row.id := row]), Ok(row))
  }

  function InsertSessionRule(db: Db, row: SessionRow): (Db, Outcome<SessionRow>) {
    if row.id in db.sessions then (db, Err(UniqueViolation(row.id)))
    else if row.workspaceId !in db.workspaces || row.serverId !in db.servers then (db, Err(ForeignKeyViolation))
    else (db.(sessions := db.sessions[row.id := row]), Ok(row))
  }

  function Children(db: Db, id: Id): set<Id> {
    set c | c in db.checkpoints && db.checkpoints[c].parent == Some(id)
  }

  /** A delete; a row that another row refers to stays. */
  function RemoveRule(db: Db, id: Id): (Db, Outcome<bool>) {
    if id !in db.checkpoints then (db, Ok(false))
    else if Children(db, id) - {id} != {} then (db, Err(ForeignKeyViolation))
    else (db.(checkpoints := db.checkpoints - {id}), Ok(true))
  }

  // ---------- the services ----------

  datatype CreateCheckpoint = CreateCheckpoint(
    sessionId: Id, rivetCheckpointId: Option<Id>, parent: Option<Id>, title: Option<string>, metadata: Option<string>)

  function RowOf(id: Id, p: CreateCheckpoint): CheckpointRow {
    CheckpointRow(id, p.sessionId, p.rivetCheckpointId, p.parent, p.title,
      if p.metadata.Some? then p.metadata.value else "{}")
  }

  /** `create`, given the id that was drawn. */
  function CreateRule(db: Db, id: Id, p: CreateCheckpoint): (Db, Outcome<CheckpointRow>) {
    if p.parent.Some? && p.parent.value !in db.checkpoints then (db, Err(ParentMissing(p.parent.value)))
    else InsertRule(db, RowOf(id, p))
  }

  function DeleteRule(db: Db, id: Id): (Db, Outcome<bool>) {
    if Children(db, id) != {} then (db, Err(HasForks(id, |Children(db, id)|))) else RemoveRule(db, id)
  }

  datatype ForkRequest = ForkRequest(checkpointId: Id, sessionId: Id, newSessionId: Id)

  datatype ForkResult = ForkResult(checkpoint: CheckpointRow, source: CheckpointRow)

  /** The first eight characters; ids are drawn as ASCII text. */
  function ShortId(id: Id): string { if 8 <= |id| then id[..8] else id }

  /** The row of the fork; `metadata` is the JSON text that names checkpoint and session. */
  function ForkParams(source: CheckpointRow, req: ForkRequest, metadata: string): CreateCheckpoint {
    CreateCheckpoint(req.newSessionId, None, Some(req.checkpointId),
      Some("fork from " + (if source.title.Some? then source.title.value else ShortId(req.checkpointId))),
      Some(metadata))
  }

  function PrepareForkRule(db: Db, req: ForkRequest, newId: Id, metadata: string): (Db, Outcome<ForkResult>) {
    if req.checkpointId !in db.checkpoints then (db, Err(NotFound(req.checkpointId)))
    else
      var source := db.checkpoints[req.checkpointId];
      if source.sessionId != req.sessionId then (db, Err(WrongSession(req.checkpointId, source.sessionId)))
      else if source.rivetCheckpointId.None? then (db, Err(Unlinked(req.checkpointId)))
      else
        var (after, r) := CreateRule(db, newId, ForkParams(source, req, metadata));
        (after, match r case Ok(row) => Ok(ForkResult(row, source)) case Err(e) => Err(e))
  }

  /** `link_rivet_checkpoint` and `update_label`. */
  function LinkRule(db: Db, id: Id, rivetId: Id): (Db, Outcome<CheckpointRow>) {
    if id !in db.checkpoints then (db, Err(NotFound(id)))
    else
      var row := db.checkpoints[id].(rivetCheckpointId := Some(rivetId));
      (db.(checkpoints := db.checkpoints[id := row]), Ok(row))
  }

  function LabelRule(db: Db, id: Id, title: Option<string>): (Db, Outcome<CheckpointRow>) {
    if id !in db.checkpoints then (db, Err(NotFound(id)))
    else
      var row := db.checkpoints[id].(title := title);
      (db.(checkpoints := db.checkpoints[id := row]), Ok(row))
  }

  // ---------- snapshots ----------

  datatype Snapshot = Snapshot(session: SessionRow, checkpoints: seq<CheckpointRow>)

  /** Rows inserted one by one, until one fails; what was inserted stays. */
  function InsertRows(db: Db, rows: seq<CheckpointRow>): (Db, Outcome<Unit>)
    decreases |rows|
  {
    if rows == [] then (db, Ok(Unit))
    else
      var (after, r) := InsertRule(db, rows[0]);
      if r.Err? then (after, Err(r.error)) else InsertRows(after, rows[1..])
  }

  function ImportRule(db: Db, snapshot: Snapshot, server: Id): (Db, Outcome<SessionRow>) {
    var (withSession, r) := InsertSessionRule(db, snapshot.session.(serverId := server));
    if r.Err? then (withSession, r)
    else
      var (after, inserted) := InsertRows(withSession, snapshot.checkpoints);
      (after, if inserted.Err? then Err(inserted.error) else r)
  }

  /** `repoint_session`. */
  function RepointRule(db: Db, id: Id, server: Id, rivetId: Option<Id>): (Db, Outcome<Unit>) {
    if id !in db.sessions then (db, Err(NotFound(id)))
    else if server !in db.servers then (db, Err(ForeignKeyViolation))
    else
      var row := db.sessions[id].(serverId := server);
      (db.(sessions := db.sessions[id := if rivetId.Some? then row.(rivetSessionId := rivetId) else row]), Ok(Unit))
  }

  // ---------- the object ----------

  class Database {
    const workspaces: set<Id>
    const servers: set<Id>
    var sessions: map<Id, SessionRow>
    var checkpoints: map<Id, CheckpointRow>

    function Contents(): Db
      reads this
    {
      Db(workspaces, servers, sessions, checkpoints)
    }

    constructor (workspaces: set<Id>, servers: set<Id>)
      ensures Contents() == Db(workspaces, servers, map[], map[])
    {
      this.workspaces, this.servers := workspaces, servers;
      sessions, checkpoints := map[], map[];
    }

    method Insert(row: CheckpointRow) returns (r: Outcome<CheckpointRow>)
      modifies this
      ensures (Contents(), r) == InsertRule(old(Contents()), row)
    {
      if row.id in checkpoints {
        return Err(UniqueViolation(row.id));
      }
      if row.sessionId !in sessions {
        return Err(ForeignKeyViolation);
      }
      if row.parent.Some? && row.parent.value !in checkpoints && row.parent.value != row.id {
        return Err(ForeignKeyViolation);
      }
      checkpoints := checkpoints[row.id := row];
      return Ok(row);
    }

    method InsertSession(row: SessionRow) returns (r: Outcome<SessionRow>)
      modifies this
      ensures (Contents(), r) == InsertSessionRule(old(Contents()), row)
    {
      if row.id in sessions {
        return Err(UniqueViolation(row.id));
      }
      if row.workspaceId !in workspaces || row.serverId !in servers {
        return Err(ForeignKeyViolation);
      }
      sessions := sessions[row.id := row];
      return Ok(row);
    }

    method Remove(id: Id) returns (r: Outcome<bool>)
      modifies this
      ensures (Contents(), r) == RemoveRule(old(Contents()), id)
    {
      if id !in checkpoints {
        return Ok(false);
      }
      if Children(Contents(), id) - {id} != {} {
        return Err(ForeignKeyViolation);
      }
      checkpoints := checkpoints - {id};
      return Ok(true);
    }

    method Create(id: Id, p: CreateCheckpoint) returns (r: Outcome<CheckpointRow>)
      modifies this
      ensures (Contents(), r) == CreateRule(old(Contents()), id, p)
    {
      var metadata := if p.metadata.Some? then p.metadata.value else "{}";
      if p.parent.Some? && p.parent.value !in checkpoints {
        return Err(ParentMissing(p.parent.value));
      }
      r := Insert(CheckpointRow(id, p.sessionId, p.rivetCheckpointId, p.parent, p.title, metadata));
    }

    method Delete(id: Id) returns (r: Outcome<bool>)
      modifies this
      ensures (Contents(), r) == DeleteRule(old(Contents()), id)
    {
      var children := Children(Contents(), id);
      if children != {} {
        return Err(HasForks(id, |children|));
      }
      r := Remove(id);
    }

    method PrepareFork(req: ForkRequest, newId: Id, metadata: string) returns (r: Outcome<ForkResult>)
      modifies this
      ensures (Contents(), r) == PrepareForkRule(old(Contents()), req, newId, metadata)
    {
      if req.checkpointId !in checkpoints {
        return Err(NotFound(req.checkpointId));
      }
      var source := checkpoints[req.checkpointId];
      if source.sessionId != req.sessionId {
        return Err(WrongSession(req.checkpointId, source.sessionId));
      }
      if source.rivetCheckpointId.None? {
        return Err(Unlinked(req.checkpointId));
      }
      var created := Create(newId, ForkParams(source, req, metadata));
      if created.Err? {
        return Err(created.error);
      }
      return Ok(ForkResult(created.value, source));
    }

    method LinkRivetCheckpoint(id: Id, rivetId: Id) returns (r: Outcome<CheckpointRow>)
      modifies this
      ensures (Contents(), r) == LinkRule(old(Contents()), id, rivetId)
    {
      if id !in checkpoints {
        return Err(NotFound(id));
      }
      checkpoints := checkpoints[id := checkpoints[id].(rivetCheckpointId := Some(rivetId))];
      return Ok(checkpoints[id]);
    }

    method UpdateLabel(id: Id, title: Option<string>) returns (r: Outcome<CheckpointRow>)
      modifies this
      ensures (Contents(), r) == LabelRule(old(Contents()), id, title)
    {
      if id !in checkpoints {
        return Err(NotFound(id));
      }
      checkpoints := checkpoints[id := checkpoints[id].(title := title)];
      return Ok(checkpoints[id]);
    }

    method ImportSnapshot(snapshot: Snapshot, server: Id) returns (r: Outcome<SessionRow>)
      modifies this
      ensures (Contents(), r) == ImportRule(old(Contents()), snapshot, server)
    {
      var row := InsertSession(snapshot.session.(serverId := server));
      if row.Err? {
        return row;
      }
      ghost var withSession := Contents();
      var rows := snapshot.checkpoints;
      for k := 0 to |rows|
        invariant InsertRows(Contents(), rows[k..]) == InsertRows(withSession, rows)
      {
        assert rows[k..][1..] == rows[k + 1..];
        var inserted := Insert(rows[k]);
        if inserted.Err? {
          return Err(inserted.error);
        }
      }
      assert rows[|rows|..] == [];
      return row;
    }

    method RepointSession(id: Id, server: Id, rivetId: Option<Id>) returns (r: Outcome<Unit>)
      modifies this
      ensures (Contents(), r) == RepointRule(old(Contents()), id, server, rivetId)
    {
      if id !in sessions {
        return Err(NotFound(id));
      }
      if server !in servers {
        return Err(ForeignKeyViolation);
      }
      var row := sessions[id].(serverId := server);
      sessions := sessions[id := row];
      if rivetId.Some? {
        row := row.(rivetSessionId := rivetId);
        sessions := sessions[id := row];
      }
      assert sessions == old(sessions)[id := row];
      return Ok(Unit);
    }
  }
}
