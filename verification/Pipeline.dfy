/** Pipelines: validation and the topological sort.
    Models crates/cuartel-core/src/pipeline.rs, lines 30 to 188. */
module Pipeline {
  import opened Wrappers
  import opened Graph

  datatype PipelineStage = PipelineStage(id: Id, dependsOn: seq<Id>)

  datatype StageState = Pending | Running | Completed | Failed | Skipped

  datatype PipelineError =
    | DuplicateStage(id: Id)
    | UnknownDependency(stage: Id, missing: Id)
    | CycleDetected(remaining: seq<Id>)
    | EmptyPipeline
    | StageNotFound(id: Id)
    | InvalidTransition(stage: Id, from: StageState, event: string)
    | DependenciesNotMet(id: Id)

  function Ids(stages: seq<PipelineStage>): set<Id> { set s | s in stages :: s.id }

  lemma {:induction false} IdsPush(stages: seq<PipelineStage>, s: PipelineStage)
    ensures Ids(stages + [s]) == Ids(stages) + {s.id}
  {
  }

  /** The dependency graph; `Pipeline::stage` finds the first stage with an id, so the
      first one counts. */
  function DepsOf(stages: seq<PipelineStage>): (g: Deps)
    ensures g.Keys == Ids(stages)
  {
    if stages == [] then map[] else
      var init, s := stages[..|stages| - 1], stages[|stages| - 1];
      assert stages == init + [s];
      IdsPush(init, s);
      if s.id in DepsOf(init) then DepsOf(init) else DepsOf(init)[s.id := s.dependsOn]
  }

  predicate UniqueIds(stages: seq<PipelineStage>) {
    forall i, j :: 0 <= i < j < |stages| ==> stages[i].id != stages[j].id
  }

  predicate KnownDeps(stages: seq<PipelineStage>) {
    forall s, d :: s in stages && d in s.dependsOn ==> d in Ids(stages)
  }

  ghost predicate ValidPipeline(stages: seq<PipelineStage>) {
    stages != [] && UniqueIds(stages) && KnownDeps(stages) && Acyclic(DepsOf(stages))
  }

  lemma {:induction false} IdIsNew(stages: seq<PipelineStage>, i: nat)
    requires UniqueIds(stages) && i < |stages|
    ensures stages[i].id !in Ids(stages[..i])
  {
  }

  lemma {:induction false} StageDeps(stages: seq<PipelineStage>, i: nat)
    requires UniqueIds(stages) && i < |stages|
    ensures stages[i].id in DepsOf(stages) && DepsOf(stages)[stages[i].id] == stages[i].dependsOn
  {
    var init := stages[..|stages| - 1];
    IdIsNew(stages, |stages| - 1);
    if i < |stages| - 1 {
      StageDeps(init, i);
      assert init[i] == stages[i];
    }
  }

  lemma {:induction false} KnownDepsClosed(stages: seq<PipelineStage>)
    requires UniqueIds(stages) && KnownDeps(stages)
    ensures Closed(DepsOf(stages))
  {
    forall x, d | x in DepsOf(stages) && d in DepsOf(stages)[x]
      ensures d in DepsOf(stages)
    {
      var i :| 0 <= i < |stages| && stages[i].id == x;
      StageDeps(stages, i);
      assert stages[i] in stages;
    }
  }

  // ---------- counting ----------

  function Occurrences(s: seq<Id>, x: Id): nat {
    if s == [] then 0 else Occurrences(s[..|s| - 1], x) + (if s[|s| - 1] == x then 1 else 0)
  }

  /** How many entries of a dependency list are not done yet. */
  function OpenCount(deps: seq<Id>, done: set<Id>): nat {
    if deps == [] then 0
    else OpenCount(deps[..|deps| - 1], done) + (if deps[|deps| - 1] in done then 0 else 1)
  }

  lemma {:induction false} OccurrencesPush(s: seq<Id>, y: Id, x: Id)
    ensures Occurrences(s + [y], x) == Occurrences(s, x) + (if y == x then 1 else 0)
  {
  }

  lemma {:induction false} OccurrencesPrefix(s: seq<Id>, k: nat, x: Id)
    requires k <= |s|
    ensures Occurrences(s[..k], x) <= Occurrences(s, x)
    decreases |s| - k
  {
    if k < |s| {
      assert s[..k + 1][..k] == s[..k];
      OccurrencesPrefix(s, k + 1, x);
    } else {
      assert s[..k] == s;
    }
  }

  lemma {:induction false} Occurs(s: seq<Id>, x: Id)
    ensures Occurrences(s, x) > 0 <==> x in s
  {
    if s != [] {
      Occurs(s[..|s| - 1], x);
    }
  }

  lemma {:induction false} OpenCountStep(deps: seq<Id>, done: set<Id>, x: Id)
    requires x !in done
    ensures OpenCount(deps, done) == OpenCount(deps, done + {x}) + Occurrences(deps, x)
  {
    if deps != [] {
      OpenCountStep(deps[..|deps| - 1], done, x);
    }
  }

  lemma {:induction false} OpenCountZero(deps: seq<Id>, done: set<Id>)
    ensures OpenCount(deps, done) == 0 <==> forall d :: d in deps ==> d in done
  {
    if deps != [] {
      OpenCountZero(deps[..|deps| - 1], done);
      assert deps == deps[..|deps| - 1] + [deps[|deps| - 1]];
    }
  }

  lemma {:induction false} OpenCountNoneDone(deps: seq<Id>)
    ensures OpenCount(deps, {}) == |deps|
  {
    if deps != [] {
      OpenCountNoneDone(deps[..|deps| - 1]);
    }
  }

  // ---------- id order ----------

  /** The order in which a BTreeMap iterates over its keys. */
  predicate IdLess(a: Id, b: Id) {
    b != [] && (a == [] || a[0] < b[0] || (a[0] == b[0] && IdLess(a[1..], b[1..])))
  }

  lemma {:induction false} IdLessTotal(a: Id, b: Id)
    ensures a == b || IdLess(a, b) || IdLess(b, a)
  {
    if a != [] && b != [] && a[0] == b[0] {
      IdLessTotal(a[1..], b[1..]);
      assert a == [a[0]] + a[1..] && b == [b[0]] + b[1..];
    }
  }

  lemma {:induction false} IdLessTransitive(a: Id, b: Id, c: Id)
    requires IdLess(a, b) && IdLess(b, c)
    ensures IdLess(a, c)
  {
    if a != [] && a[0] == b[0] == c[0] {
      IdLessTransitive(a[1..], b[1..], c[1..]);
    }
  }

  lemma {:induction false} IdLessIrreflexive(a: Id)
    ensures !IdLess(a, a)
  {
    if a != [] {
      IdLessIrreflexive(a[1..]);
    }
  }

  ghost predicate Ascending(keys: seq<Id>) {
    forall i, j :: 0 <= i < j < |keys| ==> IdLess(keys[i], keys[j])
  }

  /** A new key takes its place among the keys of a BTreeMap. */
  function InsertKey(keys: seq<Id>, id: Id): seq<Id> {
    if keys == [] || IdLess(id, keys[0]) then [id] + keys
    else [keys[0]] + InsertKey(keys[1..], id)
  }

  lemma {:induction false} InsertKeyAscending(keys: seq<Id>, id: Id)
    requires Ascending(keys) && id !in keys
    ensures Ascending(InsertKey(keys, id))
    ensures forall x :: x in InsertKey(keys, id) <==> x == id || x in keys
  {
    if keys == [] {
    } else if IdLess(id, keys[0]) {
      forall j | 0 <= j < |keys|
        ensures IdLess(id, keys[j])
      {
        if 0 < j {
          IdLessTransitive(id, keys[0], keys[j]);
        }
      }
    } else {
      IdLessTotal(id, keys[0]);
      InsertKeyAscending(keys[1..], id);
      var rest := InsertKey(keys[1..], id);
      forall j | 0 <= j < |rest|
        ensures IdLess(keys[0], rest[j])
      {
        assert rest[j] in rest;
        if rest[j] != id {
          var k :| 0 <= k < |keys[1..]| && keys[1..][k] == rest[j];
          assert IdLess(keys[0], keys[k + 1]);
        }
      }
    }
  }
}
