/** Restoring undoes exactly one delete, although a batch is recorded by nothing but its stamp. */
module Trash {
  import opened Prelude
  import opened Tree
  import opened TreeInvariant

  // ----- delete, then restore

  lemma DeletedRow(d: Drive, n: Id, elapsed: nat, m: Id)
    requires d.WellFormed() && Delete(d, n, elapsed).Ok? && m in d.rows
    ensures var d' := Delete(d, n, elapsed).value;
            m in BatchUnder(d'.rows, n) <==> m in LiveUnder(d.rows, n)
  {
    hide Up, Acyclic, ValidName, Drive.WellFormed, NamesDistinct, Under;
    var d' := Delete(d, n, elapsed).value;
    SameParentsSameTree(d.rows, d'.rows);
    UnderSelf(d.rows, n);
    Look(d, m);
  }

  lemma RestoreTarget(d: Drive, n: Id, elapsed: nat)
    requires d.WellFormed() && Delete(d, n, elapsed).Ok?
    ensures var d' := Delete(d, n, elapsed).value;
            Destination(d', n) == d.rows[n].parent && !Taken(d'.rows, d.rows[n].parent.value, d.rows[n].name, Some(n))
  {
    hide Up, Under, ValidName, Drive.WellFormed;
    var d', p := Delete(d, n, elapsed).value, d.rows[n].parent.value;
    Look(d, n);
    AcyclicOf(d);
    if Under(d.rows, p, n) {
      ParentNotBelow(d, n);
    }
    forall m | m in d'.rows && m != n && d'.rows[m].Live() && d'.rows[m].parent == Some(p)
      ensures d'.rows[m].name != d.rows[n].name
    {
      assert Rivals(d.rows, m, n);
    }
  }

  lemma ParentNotBelow(d: Drive, n: Id)
    requires d.WellFormed() && n in d.rows && d.rows[n].parent.Some?
    ensures !Under(d.rows, d.rows[n].parent.value, n)
  {
    hide EdgesOk, Rooted, NamesDistinct, RowOk;
    var p := d.rows[n].parent.value;
    forall k: nat
      ensures Up(d.rows, p, k) != Some(n)
    {
      assert Up(d.rows, n, k + 1) == Up(d.rows, p, k);
    }
  }

  /** A delete followed at once by a restore returns every row, stamp and place to what it was. */
  lemma DeleteThenRestore(d: Drive, n: Id, elapsed: nat)
    requires d.WellFormed() && Delete(d, n, elapsed).Ok?
    ensures Restore(Delete(d, n, elapsed).value, n) == Ok(Delete(d, n, elapsed).value.(rows := d.rows))
  {
    hide Up, Under, Taken, Destination, ValidName, Drive.WellFormed;
    var d' := Delete(d, n, elapsed).value;
    RestoreTarget(d, n, elapsed);
    UnderSelf(d.rows, n);
    DeletedRow(d, n, elapsed, n);
    var d'' := Restore(d', n).value;
    forall m | m in d.rows
      ensures d''.rows[m] == d.rows[m]
    {
      DeletedRow(d, n, elapsed, m);
    }
    assert d''.rows == d.rows;
  }

  // ----- which delete put a row in the trash

  /** A drive with a record, kept beside it and read by no operation, of the delete that trashed each trashed row. */
  datatype Logged = Logged(drive: Drive, occasion: Id -> nat, deletes: nat)

  ghost function LogStep(l: Logged, op: Op): Logged {
    Logged(Step(l.drive, op), (m: Id) => if InTrash(l.drive.rows, m) then l.occasion(m) else l.deletes, l.deletes + 1)
  }

  predicate InTrash(rows: Rows, m: Id) {
    m in rows && rows[m].Trashed()
  }

  ghost function LogRun(l: Logged, ops: seq<Op>): Logged
    decreases |ops|
  {
    if ops == [] then l else LogRun(LogStep(l, ops[0]), ops[1..])
  }

  /** A service with no users and nothing recorded. */
  ghost function Blank(): Logged {
    Logged(EMPTY, (m: Id) => 0, 0)
  }

  /** Two trashed rows carry one stamp exactly when one delete trashed both. */
  ghost predicate SameBatch(l: Logged, m: Id, n: Id)
    requires m in l.drive.rows && n in l.drive.rows
  {
    l.drive.rows[m].deletedAt == l.drive.rows[n].deletedAt <==> l.occasion(m) == l.occasion(n)
  }

  ghost predicate Faithful(l: Logged) {
    && l.drive.WellFormed()
    && (forall m {:trigger l.occasion(m)} :: InTrash(l.drive.rows, m) ==> l.occasion(m) < l.deletes)
    && (forall m, n {:trigger SameBatch(l, m, n)} :: InTrash(l.drive.rows, m) && InTrash(l.drive.rows, n) ==> SameBatch(l, m, n))
  }

  /** Only a delete turns a live row into a trashed one; nothing restamps a trashed row. */
  lemma StampsAreStable(d: Drive, op: Op, m: Id)
    requires d.WellFormed()
    ensures var d' := Step(d, op);
            m in d'.rows && d'.rows[m].Trashed() ==>
              m in d.rows
              && (d.rows[m].Trashed() ==> d'.rows[m].deletedAt == d.rows[m].deletedAt)
              && (d.rows[m].Live() ==> op.OpDelete? && d'.rows[m].deletedAt == Some(d.clock + 1 + op.elapsed))
  {
    hide Up, Under, Acyclic, ValidName, Drive.WellFormed, NamesDistinct, Taken;
    FreshId(d);
  }

  lemma LogStepKeeps(l: Logged, op: Op)
    requires Faithful(l)
    ensures Faithful(LogStep(l, op))
  {
    hide Drive.WellFormed, Step;
    var l' := LogStep(l, op);
    StepKeeps(l.drive, op);
    forall m, n | InTrash(l'.drive.rows, m) && InTrash(l'.drive.rows, n)
      ensures SameBatch(l', m, n)
    {
      StampsAreStable(l.drive, op, m);
      StampsAreStable(l.drive, op, n);
      Look(l.drive, m);
      Look(l.drive, n);
      if InTrash(l.drive.rows, m) && InTrash(l.drive.rows, n) {
        assert SameBatch(l, m, n);
      }
    }
    forall m | InTrash(l'.drive.rows, m)
      ensures l'.occasion(m) < l'.deletes
    {
      StampsAreStable(l.drive, op, m);
    }
  }

  lemma BlankIsFaithful()
    ensures Faithful(Blank())
  {
  }

  lemma {:induction false} LogRunKeeps(l: Logged, ops: seq<Op>)
    requires Faithful(l)
    ensures Faithful(LogRun(l, ops))
    decreases |ops|
  {
    hide Faithful, LogStep;
    if ops != [] {
      LogStepKeeps(l, ops[0]);
      LogRunKeeps(LogStep(l, ops[0]), ops[1..]);
    }
  }

  /**
   * In every run: restoring `n` brings back exactly the rows that the delete which trashed `n` trashed,
   * that are still in the trash since and still beneath `n`. Every other row keeps its state and place.
   */
  lemma RestoreLiftsItsDelete(ops: seq<Op>, n: Id, m: Id)
    requires Restore(LogRun(Blank(), ops).drive, n).Ok? && m in LogRun(Blank(), ops).drive.rows
    ensures var l := LogRun(Blank(), ops);
            var before, after := l.drive.rows, Restore(l.drive, n).value.rows;
            && m in after
            && (before[m].Trashed() && after[m].Live() <==>
                  before[m].Trashed() && l.occasion(m) == l.occasion(n) && Under(before, m, n))
            && (after[m].Trashed() ==> after[m] == before[m])
            && (m != n ==> after[m] == before[m].(deletedAt := after[m].deletedAt))
            && (before[m].Live() ==> after[m] == before[m])
  {
    hide Up, Under, Acyclic, Drive.WellFormed, Taken, LogRun, Blank;
    var l := LogRun(Blank(), ops);
    BlankIsFaithful();
    LogRunKeeps(Blank(), ops);
    UnderSelf(l.drive.rows, n);
    if InTrash(l.drive.rows, m) {
      assert SameBatch(l, m, n);
    }
  }
}
