/** What each call on the checkpoint database changes, what it returns, and when it refuses.
    Over crates/cuartel-core/src/checkpoint.rs, lines 55 to 132,
    crates/cuartel-core/src/fork.rs, lines 45 to 84, and
    crates/cuartel-remote/src/sync.rs, lines 232 to 248. */
module CheckpointCalls {
  import opened Wrappers
  import opened Checkpoints
  import opened CheckpointForest

  /** Nothing has changed but the checkpoint `id`, which is there. */
  ghost predicate OnlyCheckpoint(db: Db, after: Db, id: Id) {
    && after.workspaces == db.workspaces && after.servers == db.servers && after.sessions == db.sessions
    && after.checkpoints.Keys == db.checkpoints.Keys + {id}
    && forall c :: c in db.checkpoints && c != id ==> after.checkpoints[c] == db.checkpoints[c]
  }

  // ---------- rows ----------

  lemma {:induction false} InsertExactly(db: Db, row: CheckpointRow)
    ensures var (after, r) := InsertRule(db, row);
      && (r.Ok? <==>
            && row.id !in db.checkpoints && row.sessionId in db.sessions
            && (row.parent == None || row.parent == Some(row.id) || row.parent.value in db.checkpoints))
      && (r.Ok? ==> r.value == row && OnlyCheckpoint(db, after, row.id) && after.checkpoints[row.id] == row)
      && (r.Err? ==>
            && after == db
            && r.error == InsertErrorOf(db, row))
  {
  }

  lemma {:induction false} InsertSessionExactly(db: Db, row: SessionRow)
    ensures var (after, r) := InsertSessionRule(db, row);
      && (r.Ok? <==>
            row.id !in db.sessions && row.workspaceId in db.workspaces && row.serverId in db.servers)
      && (r.Ok? ==>
            && r.value == row && after.sessions.Keys == db.sessions.Keys + {row.id} && after.sessions[row.id] == row
            && (forall s :: s in db.sessions ==> after.sessions[s] == db.sessions[s])
            && after.(sessions := db.sessions) == db)
      && (r.Err? ==>
            && after == db
            && r.error == if row.id in db.sessions then UniqueViolation(row.id) else ForeignKeyViolation)
  {
  }

  /** A link sets the remote id of one checkpoint, and leaves the rest of it. */
  lemma {:induction false} LinkExactly(db: Db, id: Id, rivetId: Id)
    ensures var (after, r) := LinkRule(db, id, rivetId);
      && (r.Ok? <==> id in db.checkpoints) && (r.Err? ==> r.error == NotFound(id) && after == db)
      && (r.Ok? ==>
            && OnlyCheckpoint(db, after, id) && r.value == after.checkpoints[id]
            && var old', new' := db.checkpoints[id], after.checkpoints[id];
              && new'.rivetCheckpointId == Some(rivetId)
              && new'.id == old'.id && new'.sessionId == old'.sessionId && new'.parent == old'.parent
              && new'.title == old'.title && new'.metadata == old'.metadata)
  {
  }

  /** A label is set or taken away, and the rest of the checkpoint stays. */
  lemma {:induction false} LabelExactly(db: Db, id: Id, title: Option<string>)
    ensures var (after, r) := LabelRule(db, id, title);
      && (r.Ok? <==> id in db.checkpoints) && (r.Err? ==> r.error == NotFound(id) && after == db)
      && (r.Ok? ==>
            && OnlyCheckpoint(db, after, id) && r.value == after.checkpoints[id]
            && var old', new' := db.checkpoints[id], after.checkpoints[id];
              && new'.title == title
              && new'.id == old'.id && new'.sessionId == old'.sessionId && new'.parent == old'.parent
              && new'.rivetCheckpointId == old'.rivetCheckpointId && new'.metadata == old'.metadata)
  {
  }

  /** Repointing a session changes its server and remote id and nothing else. */
  lemma {:induction false} RepointExactly(db: Db, id: Id, server: Id, rivetId: Option<Id>)
    ensures var (after, r) := RepointRule(db, id, server, rivetId);
      && (r.Ok? <==> id in db.sessions && server in db.servers)
      && after.workspaces == db.workspaces && after.servers == db.servers
      && after.checkpoints == db.checkpoints && after.sessions.Keys == db.sessions.Keys
      && (forall s :: s in db.sessions && (s != id || r.Err?) ==> after.sessions[s] == db.sessions[s])
      && (r.Err? ==> r.error == if id in db.sessions then ForeignKeyViolation else NotFound(id))
      && (r.Ok? ==>
            && after.sessions[id].serverId == server
            && after.sessions[id].rivetSessionId
               == (if rivetId.Some? then rivetId else db.sessions[id].rivetSessionId)
            && after.sessions[id].(serverId := "", rivetSessionId := None)
               == db.sessions[id].(serverId := "", rivetSessionId := None))
  {
  }

  // ---------- create and delete ----------

  /** Creating adds one checkpoint with the given fields, `{}` for metadata that are not
      given; the parent must be there already, so it cannot be the new row itself. */
  lemma {:induction false} CreateExactly(db: Db, id: Id, p: CreateCheckpoint)
    ensures var (after, r) := CreateRule(db, id, p);
      && (r.Ok? <==>
            && id !in db.checkpoints && p.sessionId in db.sessions
            && (p.parent.Some? ==> p.parent.value in db.checkpoints))
      && (r.Ok? ==>
            && OnlyCheckpoint(db, after, id) && r.value == after.checkpoints[id]
            && r.value.id == id && r.value.sessionId == p.sessionId
            && r.value.rivetCheckpointId == p.rivetCheckpointId
            && r.value.parent == p.parent && r.value.title == p.title
            && r.value.metadata == match p.metadata case Some(text) => text case None => "{}")
      && (r.Err? ==>
            && after == db
            && r.error ==
                 if p.parent.Some? && p.parent.value !in db.checkpoints then ParentMissing(p.parent.value)
                 else if id in db.checkpoints then UniqueViolation(id) else ForeignKeyViolation)
  {
  }

  /** Deleting succeeds exactly for a row that exists and is nobody's parent, and takes away
      just that row; the rows that refer to it are counted otherwise. */
  lemma {:induction false} DeleteExactly(db: Db, id: Id)
    ensures var (after, r) := DeleteRule(db, id);
      var children := set c | c in db.checkpoints && db.checkpoints[c].parent == Some(id);
      && (r.Err? <==> children != {}) && (r.Err? ==> r.error == HasForks(id, |children|))
      && (r == Ok(false) <==> children == {} && id !in db.checkpoints)
      && (r != Ok(true) ==> after == db)
      && (r == Ok(true) ==>
            && id in db.checkpoints && after.(checkpoints := db.checkpoints) == db
            && after.checkpoints.Keys == db.checkpoints.Keys - {id}
            && forall c :: c in after.checkpoints ==> after.checkpoints[c] == db.checkpoints[c])
  {
    var children := set c | c in db.checkpoints && db.checkpoints[c].parent == Some(id);
    assert Children(db, id) == children;
  }

  lemma {:induction false} DeleteUndoesCreate(db: Db, id: Id, p: CreateCheckpoint)
    requires Sound(db) && CreateRule(db, id, p).1.Ok?
    ensures DeleteRule(CreateRule(db, id, p).0, id) == (db, Ok(true))
  {
    var after := CreateRule(db, id, p).0;
    assert Children(after, id) == {};
    assert after.checkpoints - {id} == db.checkpoints;
  }

  // ---------- forks ----------

  /** What the title of a fork calls its source: its own title, or else the first eight
      characters of its id, or all of a shorter one. */
  function SourceName(source: CheckpointRow): string {
    match source.title
    case Some(title) => title
    case None => if |source.id| < 8 then source.id else source.id[..8]
  }

  /** Why a fork is refused: the first of the checks that fails. */
  function ForkError(db: Db, req: ForkRequest, newId: Id): DbError
    requires req.checkpointId in db.checkpoints
  {
    var source := db.checkpoints[req.checkpointId];
    if source.sessionId != req.sessionId then WrongSession(req.checkpointId, source.sessionId)
    else if source.rivetCheckpointId == None then Unlinked(req.checkpointId)
    else if newId in db.checkpoints then UniqueViolation(newId)
    else ForeignKeyViolation
  }

  /** A fork is a new child of its source, in the new session, and both are returned. */
  lemma {:induction false} ForkIsChild(db: Db, req: ForkRequest, newId: Id, metadata: string)
    requires Sound(db)
    ensures var (after, r) := PrepareForkRule(db, req, newId, metadata);
      && (r.Ok? <==>
            && req.checkpointId in db.checkpoints
            && db.checkpoints[req.checkpointId].sessionId == req.sessionId
            && db.checkpoints[req.checkpointId].rivetCheckpointId.Some?
            && newId !in db.checkpoints && req.newSessionId in db.sessions)
      && (r.Ok? ==>
            && OnlyCheckpoint(db, after, newId) && after.checkpoints - {newId} == db.checkpoints
            && Children(after, req.checkpointId) == Children(db, req.checkpointId) + {newId}
            && r.value.source == db.checkpoints[req.checkpointId]
            && var fork := r.value.checkpoint;
              && fork == after.checkpoints[newId] && fork.id == newId && fork.parent == Some(req.checkpointId)
              && fork.sessionId == req.newSessionId && fork.rivetCheckpointId == None && fork.metadata == metadata
              && fork.title == Some("fork from " + SourceName(r.value.source)))
      && (r.Err? ==>
            && after == db
            && r.error == if req.checkpointId in db.checkpoints then ForkError(db, req, newId)
                          else NotFound(req.checkpointId))
  {
  }

  /** A checkpoint without a remote id cannot be forked; once it is linked it can be, into
      any known session. */
  lemma {:induction false} LinkEnablesFork(db: Db, req: ForkRequest, rivetId: Id, newId: Id, metadata: string)
    requires req.checkpointId in db.checkpoints && db.checkpoints[req.checkpointId].sessionId == req.sessionId
    requires newId !in db.checkpoints && req.newSessionId in db.sessions
    ensures PrepareForkRule(db, req, newId, metadata).1.Ok?
        <==> db.checkpoints[req.checkpointId].rivetCheckpointId.Some?
    ensures PrepareForkRule(LinkRule(db, req.checkpointId, rivetId).0, req, newId, metadata).1.Ok?
  {
  }
}
