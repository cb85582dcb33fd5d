/**
 * The orphan reaper racing uploads. An upload puts its object first and commits the row naming it later;
 * reapers list, check for a row, check the age and delete, each as a separate step that anything may
 * interleave with. Any number of reapers may run.
 */
module Reaper {
  import opened Prelude
  import opened Tree

  /** A key of the service's own shape, or somebody else's. */
  datatype Name = Ours(owner: Id, node: Id, version: Id) | Foreign(text: string)

  /** Where a reaper stands with the object it is looking at. */
  datatype Stage =
    | Idle
    | Listed(key: Name, modified: Option<Time>)
    | Unreferenced(key: Name, modified: Option<Time>)
    | Expired(key: Name, since: Time)

  /** `moment` is read once, when the run starts. */
  datatype Pass = Pass(moment: Time, stage: Stage)

  datatype Upload = Upload(key: Name, at: Time)

  datatype World = World(now: Time, objects: map<Name, Option<Time>>, rows: map<Id, Name>, inFlight: map<Id, Upload>,
                         spent: set<Id>, sweeps: map<nat, Pass>, reaped: set<Name>)

  datatype Step =
    | Tick(elapsed: nat)
    | Put(owner: Id, node: Id, version: Id)
    | PutForeign(text: string, modified: Option<Time>)
    | CommitRow(version: Id)
    | Abandon(version: Id)
    | DropRow(version: Id)
    | Begin(sweep: nat)
    | List(sweep: nat, key: Name)
    | CheckReference(sweep: nat)
    | CheckAge(sweep: nat)
    | DeleteObject(sweep: nat)

  predicate OldEnough(modified: Option<Time>, moment: Time, grace: nat) {
    modified.Some? && moment as int - modified.value as int >= grace
  }

  predicate IsReferenced(rows: map<Id, Name>, key: Name) {
    key.Foreign? || key.version in rows
  }

  function SetStage(w: World, i: nat, stage: Stage): World
    requires i in w.sweeps
  {
    w.(sweeps := w.sweeps[i := w.sweeps[i].(stage := stage)])
  }

  /** A step that is not enabled changes nothing. */
  function Next(w: World, grace: nat, step: Step): World {
    match step
    case Tick(elapsed) => w.(now := w.now + elapsed)
    case Put(o, n, v) =>
      if v in w.spent then w
      else w.(objects := w.objects[Ours(o, n, v) := Some(w.now)], inFlight := w.inFlight[v := Upload(Ours(o, n, v), w.now)], spent := w.spent + {v})
    case PutForeign(text, modified) => w.(objects := w.objects[Foreign(text) := modified])
    case CommitRow(v) =>
      if v !in w.inFlight || w.now - w.inFlight[v].at >= grace then w
      else w.(rows := w.rows[v := w.inFlight[v].key], inFlight := w.inFlight - {v})
    case Abandon(v) => w.(inFlight := w.inFlight - {v})
    case DropRow(v) => if v !in w.rows then w else w.(objects := w.objects - {w.rows[v]}, rows := w.rows - {v})
    case Begin(i) => w.(sweeps := w.sweeps[i := Pass(w.now, Idle)])
    case List(i, key) =>
      if i !in w.sweeps || w.sweeps[i].stage != Idle || key !in w.objects then w else SetStage(w, i, Listed(key, w.objects[key]))
    case CheckReference(i) =>
      if i !in w.sweeps || !w.sweeps[i].stage.Listed? then w
      else
        var stage := w.sweeps[i].stage;
        SetStage(w, i, if IsReferenced(w.rows, stage.key) then Idle else Unreferenced(stage.key, stage.modified))
    case CheckAge(i) =>
      if i !in w.sweeps || !w.sweeps[i].stage.Unreferenced? then w
      else
        var stage := w.sweeps[i].stage;
        SetStage(w, i, if OldEnough(stage.modified, w.sweeps[i].moment, grace) then Expired(stage.key, stage.modified.value) else Idle)
    case DeleteObject(i) =>
      if i !in w.sweeps || !w.sweeps[i].stage.Expired? then w
      else
        var key := w.sweeps[i].stage.key;
        SetStage(w.(objects := w.objects - {key}, reaped := w.reaped + {key}), i, Idle)
  }

  function Run(w: World, grace: nat, steps: seq<Step>): World
    decreases |steps|
  {
    if steps == [] then w else Run(Next(w, grace, steps[0]), grace, steps[1..])
  }

  /**
   * Any running service to start from: committed rows with their objects, and whatever earlier, failed
   * uploads left in the store. Ids once used are never used again.
   */
  predicate Initial(w: World) {
    && w.inFlight == map[] && w.sweeps == map[] && w.reaped == {}
    && (forall v <- w.rows :: w.rows[v].Ours? && w.rows[v].version == v && v in w.spent && w.rows[v] in w.objects)
    && (forall key <- w.objects :: key.Ours? ==> key.version in w.spent)
  }

  // ----- the invariant

  predicate UploadOk(w: World, v: Id)
    requires v in w.inFlight
  {
    var u := w.inFlight[v];
    && u.key.Ours? && u.key.version == v && v in w.spent && v !in w.rows && u.at <= w.now
    && (u.key in w.objects ==> w.objects[u.key] == Some(u.at))
    && (u.key !in w.objects ==> u.key in w.reaped)
  }

  predicate RowOk(w: World, v: Id)
    requires v in w.rows
  {
    w.rows[v].Ours? && w.rows[v].version == v && v in w.spent && w.rows[v] in w.objects && w.rows[v] !in w.reaped
  }

  /** What a reaper has established about the object it holds, whatever has happened since it looked. */
  predicate SweepOk(w: World, grace: nat, i: nat)
    requires i in w.sweeps
  {
    var sweep := w.sweeps[i];
    && sweep.moment <= w.now
    && match sweep.stage
       case Idle => true
       case Listed(key, modified) => SawPut(w, key, modified)
       case Unreferenced(key, modified) =>
         && key.Ours? && SawPut(w, key, modified)
         && (key.version in w.rows ==> !OldEnough(modified, sweep.moment, grace))
       case Expired(key, modified) =>
         && key.Ours? && SawPut(w, key, Some(modified)) && OldEnough(Some(modified), sweep.moment, grace) && key.version !in w.rows
  }

  /** An object listed for an upload still in flight was listed with that upload's time. */
  predicate SawPut(w: World, key: Name, modified: Option<Time>) {
    key.Ours? ==> key.version in w.spent && (key.version in w.inFlight ==> w.inFlight[key.version] == Upload(key, w.inFlight[key.version].at) && modified == Some(w.inFlight[key.version].at))
  }

  /** A reaped object's upload has run out of time: no row will ever name it. */
  predicate ReapedOk(w: World, grace: nat, key: Name) {
    && key.Ours? && key.version in w.spent
    && (key.version in w.inFlight ==> w.now - w.inFlight[key.version].at >= grace)
  }

  predicate ObjectOk(w: World, key: Name)
    requires key in w.objects
  {
    key.Ours? ==> key.version in w.spent && (key.version in w.inFlight ==> w.inFlight[key.version].key == key)
  }

  ghost predicate Safe(w: World, grace: nat) {
    && (forall key {:trigger ObjectOk(w, key)} :: key in w.objects ==> ObjectOk(w, key))
    && (forall v {:trigger UploadOk(w, v)} :: v in w.inFlight ==> UploadOk(w, v))
    && (forall v {:trigger RowOk(w, v)} :: v in w.rows ==> RowOk(w, v))
    && (forall i {:trigger SweepOk(w, grace, i)} :: i in w.sweeps ==> SweepOk(w, grace, i))
    && (forall key {:trigger ReapedOk(w, grace, key)} :: key in w.reaped ==> ReapedOk(w, grace, key))
  }

  lemma StepKeepsObject(w: World, grace: nat, step: Step, key: Name)
    requires Safe(w, grace) && key in Next(w, grace, step).objects
    ensures ObjectOk(Next(w, grace, step), key)
  {
    assert key in w.objects ==> ObjectOk(w, key);
  }

  lemma StepKeepsUpload(w: World, grace: nat, step: Step, v: Id)
    requires Safe(w, grace) && v in Next(w, grace, step).inFlight
    ensures UploadOk(Next(w, grace, step), v)
  {
    hide OldEnough, IsReferenced, SweepOk, ReapedOk;
    assert v in w.inFlight ==> UploadOk(w, v);
    assert v in w.rows ==> RowOk(w, v);
    if step.DropRow? && step.version in w.rows { assert RowOk(w, step.version); }
  }

  lemma StepKeepsRow(w: World, grace: nat, step: Step, v: Id)
    requires Safe(w, grace) && v in Next(w, grace, step).rows
    ensures RowOk(Next(w, grace, step), v)
  {
    hide OldEnough, IsReferenced;
    assert v in w.rows ==> RowOk(w, v);
    match step
    case CommitRow(u) =>
      assert u in w.inFlight ==> UploadOk(w, u);
      if u in w.inFlight && w.inFlight[u].key in w.reaped { assert ReapedOk(w, grace, w.inFlight[u].key); }
    case DeleteObject(i) => assert i in w.sweeps ==> SweepOk(w, grace, i);
    case DropRow(u) => assert u in w.rows ==> RowOk(w, u);
    case _ =>
  }

  lemma StepKeepsSweep(w: World, grace: nat, step: Step, i: nat)
    requires Safe(w, grace) && i in Next(w, grace, step).sweeps
    ensures SweepOk(Next(w, grace, step), grace, i)
  {
    hide RowOk, ReapedOk;
    assert i in w.sweeps ==> SweepOk(w, grace, i);
    match step
    case List(j, key) => assert key in w.objects ==> ObjectOk(w, key); if key in w.objects && key.Ours? && key.version in w.inFlight { assert UploadOk(w, key.version); }
    case CommitRow(u) => assert u in w.inFlight ==> UploadOk(w, u);
    case _ =>
  }

  lemma StepKeepsReaped(w: World, grace: nat, step: Step, key: Name)
    requires Safe(w, grace) && key in Next(w, grace, step).reaped
    ensures ReapedOk(Next(w, grace, step), grace, key)
  {
    assert key in w.reaped ==> ReapedOk(w, grace, key);
    match step
    case DeleteObject(i) => assert i in w.sweeps ==> SweepOk(w, grace, i);
    case _ =>
  }

  lemma StepKeepsSafe(w: World, grace: nat, step: Step)
    requires Safe(w, grace)
    ensures Safe(Next(w, grace, step), grace)
  {
    var w' := Next(w, grace, step);
    forall key | key in w'.objects ensures ObjectOk(w', key) { StepKeepsObject(w, grace, step, key); }
    forall v | v in w'.inFlight ensures UploadOk(w', v) { StepKeepsUpload(w, grace, step, v); }
    forall v | v in w'.rows ensures RowOk(w', v) { StepKeepsRow(w, grace, step, v); }
    forall i | i in w'.sweeps ensures SweepOk(w', grace, i) { StepKeepsSweep(w, grace, step, i); }
    forall key | key in w'.reaped ensures ReapedOk(w', grace, key) { StepKeepsReaped(w, grace, step, key); }
    hide Next, ObjectOk, UploadOk, RowOk, SweepOk, ReapedOk;
  }

  lemma {:induction false} RunKeepsSafe(w: World, grace: nat, steps: seq<Step>)
    requires Safe(w, grace)
    ensures Safe(Run(w, grace, steps), grace)
    decreases |steps|
  {
    hide Safe, Next;
    if steps != [] {
      StepKeepsSafe(w, grace, steps[0]);
      RunKeepsSafe(Next(w, grace, steps[0]), grace, steps[1..]);
    }
  }

  /**
   * In every interleaving, an object named by a committed row is in the store and was never reaped, and
   * nobody else's object ever was; and once reaped, an object is never named by a row however the run goes on.
   */
  lemma NothingCommittedIsReaped(w: World, grace: nat, steps: seq<Step>, more: seq<Step>)
    requires Initial(w)
    ensures var mid, end := Run(w, grace, steps), Run(Run(w, grace, steps), grace, more);
            && (forall v <- mid.rows :: mid.rows[v] in mid.objects && mid.rows[v] !in mid.reaped)
            && (forall key <- mid.reaped :: key.Ours?)
            && (forall key <- mid.reaped :: forall v <- end.rows :: end.rows[v] != key)
  {
    var mid := Run(w, grace, steps);
    var end := Run(mid, grace, more);
    RunKeepsSafe(w, grace, steps);
    RunKeepsSafe(mid, grace, more);
    ReapedGrows(mid, grace, more);
    hide Run;
    forall v | v in mid.rows
      ensures mid.rows[v] in mid.objects && mid.rows[v] !in mid.reaped
    {
      assert RowOk(mid, v);
    }
    forall key | key in mid.reaped
      ensures key.Ours?
    {
      assert ReapedOk(mid, grace, key);
    }
    forall v | v in end.rows
      ensures end.rows[v] !in mid.reaped
    {
      assert RowOk(end, v);
    }
  }

  lemma {:induction false} ReapedGrows(w: World, grace: nat, steps: seq<Step>)
    ensures w.reaped <= Run(w, grace, steps).reaped
    decreases |steps|
  {
    if steps != [] {
      ReapedGrows(Next(w, grace, steps[0]), grace, steps[1..]);
    }
  }

  lemma {:induction false} RunOneMore(w: World, grace: nat, steps: seq<Step>, last: Step)
    ensures Run(w, grace, steps + [last]) == Next(Run(w, grace, steps), grace, last)
    decreases |steps|
  {
    hide Next;
    if steps == [] {
      assert steps + [last] == [last] && [last][1..] == [];
      assert Run(w, grace, [last]) == Run(Next(w, grace, last), grace, []);
    } else {
      assert (steps + [last])[1..] == steps[1..] + [last];
      RunOneMore(Next(w, grace, steps[0]), grace, steps[1..], last);
    }
  }

  const NEW_WORLD := World(0, map[], map[], map[], {}, map[], {})

  /** One upload, put at time 0 and still uncommitted one grace period later, with a reaper at `stage`. */
  function Late(grace: nat, stage: Stage): World {
    World(grace, map[Ours(0, 0, 0) := Some(0)], map[], map[0 := Upload(Ours(0, 0, 0), 0)], {0}, map[0 := Pass(grace, stage)], {})
  }

  lemma LateStart(grace: nat)
    ensures Next(Next(Next(NEW_WORLD, grace, Put(0, 0, 0)), grace, Tick(grace)), grace, Begin(0)) == Late(grace, Idle)
  {
  }

  lemma LateStages(grace: nat)
    ensures Next(Late(grace, Idle), grace, List(0, Ours(0, 0, 0))) == Late(grace, Listed(Ours(0, 0, 0), Some(0)))
    ensures Next(Late(grace, Listed(Ours(0, 0, 0), Some(0))), grace, CheckReference(0)) == Late(grace, Unreferenced(Ours(0, 0, 0), Some(0)))
    ensures Next(Late(grace, Unreferenced(Ours(0, 0, 0), Some(0))), grace, CheckAge(0)) == Late(grace, Expired(Ours(0, 0, 0), 0))
  {
  }

  /**
   * The grace period is what does it, and strictly: a run exists in which an upload of exactly that age,
   * not yet committed, has lost its object.
   */
  lemma CommitAtTheGracePeriodIsTooLate(grace: nat) returns (steps: seq<Step>)
    ensures var w := Run(NEW_WORLD, grace, steps);
            0 in w.inFlight && w.now - w.inFlight[0].at == grace && w.inFlight[0].key !in w.objects
  {
    steps := [];
    assert Run(NEW_WORLD, grace, steps) == NEW_WORLD;
    LateStart(grace);
    LateStages(grace);
    var key := Ours(0, 0, 0);
    var last := Next(Late(grace, Expired(key, 0)), grace, DeleteObject(0));
    assert 0 in last.inFlight && last.now - last.inFlight[0].at == grace && last.inFlight[0].key !in last.objects;
    hide Next;
    steps := Then(grace, steps, Put(0, 0, 0));
    steps := Then(grace, steps, Tick(grace));
    steps := Then(grace, steps, Begin(0));
    steps := Then(grace, steps, List(0, key));
    steps := Then(grace, steps, CheckReference(0));
    steps := Then(grace, steps, CheckAge(0));
    steps := Then(grace, steps, DeleteObject(0));
  }

  lemma Then(grace: nat, steps: seq<Step>, last: Step) returns (more: seq<Step>)
    ensures more == steps + [last] && Run(NEW_WORLD, grace, more) == Next(Run(NEW_WORLD, grace, steps), grace, last)
  {
    more := steps + [last];
    RunOneMore(NEW_WORLD, grace, steps, last);
  }

  // ----- a pass left alone

  predicate IsOrphan(w: World, moment: Time, grace: nat, key: Name) {
    key in w.objects && !IsReferenced(w.rows, key) && OldEnough(w.objects[key], moment, grace)
  }

  /** With nothing interleaved, one pass deletes every orphan older than the grace period, and nothing else. */
  method Sweep(w: World, moment: Time, grace: nat) returns (left: map<Name, Option<Time>>, deleted: nat)
    ensures left == map key | key in w.objects && !IsOrphan(w, moment, grace, key) :: w.objects[key]
    ensures deleted == |w.objects| - |left|
  {
    hide IsReferenced, OldEnough;
    left, deleted := w.objects, 0;
    var todo := w.objects.Keys;
    while todo != {}
      invariant todo <= w.objects.Keys
      invariant left == map key | key in w.objects && (key in todo || !IsOrphan(w, moment, grace, key)) :: w.objects[key]
      invariant deleted == |w.objects| - |left|
      decreases |todo|
    {
      var key :| key in todo;
      ghost var before := left;
      if !IsReferenced(w.rows, key) && OldEnough(w.objects[key], moment, grace) {
        left := left - {key};
        assert before.Keys == left.Keys + {key};
        deleted := deleted + 1;
      }
      todo := todo - {key};
    }
  }
}
