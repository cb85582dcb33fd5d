/** `WellFormed` survives every tree operation, hence holds in every run. */
module TreeInvariant {
  import opened Prelude
  import opened Tree

  // ----- create, upload, provision

  lemma FreshId(d: Drive)
    requires d.WellFormed()
    ensures d.nextId !in d.rows
  {
    hide Acyclic, NamesDistinct, EdgesOk, Rooted;
    forall n | n in d.rows
      ensures n != d.nextId
    {
      assert RowOk(d, n);
    }
  }

  lemma FreshLeafKeepsUp(d: Drive, row: Row, n: Id, k: nat)
    requires d.WellFormed() && n in d.rows
    ensures Up(d.rows[d.nextId := row], n, k) == Up(d.rows, n, k)
  {
    var rows := d.rows;
    FreshId(d);
    if Under(rows, n, d.nextId) {
      var j: nat :| Up(rows, n, j) == Some(d.nextId);
      ChainStaysInside(rows, n, j);
    }
    OutsideSameUp(rows, rows[d.nextId := row], d.nextId, n, k);
  }

  lemma FreshLeafKeepsAcyclic(d: Drive, row: Row)
    requires d.WellFormed() && (row.parent.Some? ==> row.parent.value in d.rows)
    ensures Acyclic(d.rows[d.nextId := row])
  {
    var rows' := d.rows[d.nextId := row];
    forall n: Id, k: nat | n in rows' && k > 0
      ensures Up(rows', n, k) != Some(n)
    {
      if n in d.rows {
        FreshLeafKeepsUp(d, row, n, k);
      } else if row.parent.Some? {
        FreshLeafKeepsUp(d, row, row.parent.value, k - 1);
        if Up(rows', n, k) == Some(n) {
          ChainStaysInside(d.rows, row.parent.value, k - 1);
        }
      }
    }
  }

  /** The row-by-row part of `WellFormed`, for a drive whose rows all come from a well-formed one. */
  ghost predicate RowsOk(d: Drive) {
    && (forall n {:trigger EdgeOk(d.rows, n)} :: n in d.rows ==> EdgeOk(d.rows, n) && OwnerOk(d.rows, d.roots, n) && RowOk(d, n))
    && (forall u {:trigger RootOk(d.rows, d.roots, u)} :: u in d.roots ==> RootOk(d.rows, d.roots, u))
  }

  lemma Assemble(d: Drive)
    requires RowsOk(d) && Acyclic(d.rows) && NamesDistinct(d.rows)
    ensures d.WellFormed()
  {
    hide Acyclic, NamesDistinct, EdgeOk, OwnerOk, RowOk, RootOk;
    forall n | n in d.rows
      ensures OwnerOk(d.rows, d.roots, n) && RowOk(d, n) && EdgeOk(d.rows, n)
    {
      assert EdgeOk(d.rows, n);
    }
  }

  /** Everything `WellFormed` says about one row. */
  lemma Look(d: Drive, n: Id)
    requires d.WellFormed() && n in d.rows
    ensures EdgeOk(d.rows, n) && OwnerOk(d.rows, d.roots, n) && RowOk(d, n)
  {
    hide Acyclic, NamesDistinct, EdgeOk, OwnerOk, RowOk, RootOk;
  }

  lemma LookRoot(d: Drive, u: UserId)
    requires d.WellFormed() && u in d.roots
    ensures RootOk(d.rows, d.roots, u)
  {
    hide Acyclic, NamesDistinct, EdgeOk, OwnerOk, RowOk, RootOk;
  }

  lemma ProvisionKeeps(d: Drive, u: UserId)
    requires d.WellFormed() && Provision(d, u).Ok?
    ensures Provision(d, u).value.WellFormed()
  {
    hide Up, Acyclic, Drive.WellFormed, NamesDistinct;
    var root := Row(u, Folder, "root", None, None, 0, None, false);
    var d' := Provision(d, u).value;
    FreshLeafKeepsAcyclic(d, root);
    FreshLeafKeepsNames(d, root);
    forall n | n in d'.rows
      ensures EdgeOk(d'.rows, n) && OwnerOk(d'.rows, d'.roots, n) && RowOk(d', n)
    {
      if n in d.rows && n != d.nextId { Look(d, n); if d.rows[n].parent.Some? { ParentRow(d, n); } }
    }
    forall v | v in d'.roots
      ensures RootOk(d'.rows, d'.roots, v)
    {
      if v in d.roots { LookRoot(d, v); Look(d, d.roots[v]); }
    }
    Assemble(d');
  }

  lemma ParentRow(d: Drive, n: Id)
    requires d.WellFormed() && n in d.rows && d.rows[n].parent.Some?
    ensures d.rows[n].parent.value in d.rows && d.rows[n].parent.value < d.nextId
  {
    Look(d, n);
    Look(d, d.rows[n].parent.value);
  }

  lemma TakenBy(rows: Rows, m: Id, parent: Id, name: string, excluding: Option<Id>)
    requires IsLiveChild(rows, m, parent, name) && Some(m) != excluding
    ensures Taken(rows, parent, name, excluding)
  {
  }

  lemma FreshLeafKeepsNames(d: Drive, row: Row)
    requires d.WellFormed() && row.Live() && (row.parent.Some? ==> !Taken(d.rows, row.parent.value, row.name, None))
    ensures NamesDistinct(d.rows[d.nextId := row])
  {
    hide Up, Acyclic, Taken;
    var rows' := d.rows[d.nextId := row];
    forall x, y | x in rows' && y in rows' && Rivals(rows', x, y)
      ensures rows'[x].name != rows'[y].name
    {
      var m := if x == d.nextId then y else x;
      if x == d.nextId || y == d.nextId {
        if rows'[m].name == row.name {
          TakenBy(d.rows, m, row.parent.value, row.name, None);
        }
      } else {
        assert Rivals(d.rows, x, y);
      }
    }
  }

  lemma CreateKeeps(d: Drive, parent: Id, name: string, kind: Kind, encrypted: bool, reserved: bool)
    requires d.WellFormed() && Create(d, parent, name, kind, encrypted, reserved).Ok?
    ensures Create(d, parent, name, kind, encrypted, reserved).value.WellFormed()
  {
    hide Up, Acyclic, ValidName, Drive.WellFormed, NamesDistinct, Taken;
    var row := Row(d.rows[parent].owner, kind, name, Some(parent), None, 0, None, encrypted);
    var d' := Create(d, parent, name, kind, encrypted, reserved).value;
    FreshLeafKeepsAcyclic(d, row);
    FreshLeafKeepsNames(d, row);
    Look(d, parent);
    forall n | n in d'.rows
      ensures EdgeOk(d'.rows, n) && OwnerOk(d'.rows, d'.roots, n) && RowOk(d', n)
    {
      if n in d.rows && n != d.nextId { Look(d, n); if d.rows[n].parent.Some? { ParentRow(d, n); } }
    }
    forall v | v in d'.roots
      ensures RootOk(d'.rows, d'.roots, v)
    {
      LookRoot(d, v);
      Look(d, d.roots[v]);
    }
    Assemble(d');
  }

  // ----- rename and move

  /** Changing the name or the place of one live, non-root row to a free one keeps names distinct. */
  lemma FreePlaceKeepsNames(d: Drive, n: Id, row: Row)
    requires d.WellFormed() && n in d.rows && row.Live() && row.parent.Some?
    requires !Taken(d.rows, row.parent.value, row.name, Some(n))
    ensures NamesDistinct(d.rows[n := row])
  {
    hide Up, Acyclic, Taken;
    var rows' := d.rows[n := row];
    forall x, y | x in rows' && y in rows' && Rivals(rows', x, y)
      ensures rows'[x].name != rows'[y].name
    {
      var m := if x == n then y else x;
      if x == n || y == n {
        if rows'[m].name == row.name {
          TakenBy(d.rows, m, row.parent.value, row.name, Some(n));
        }
      } else {
        assert Rivals(d.rows, x, y);
      }
    }
  }

  lemma RenameKeeps(d: Drive, n: Id, name: string)
    requires d.WellFormed() && Rename(d, n, name).Ok?
    ensures Rename(d, n, name).value.WellFormed()
  {
    hide Up, Under, Acyclic, ValidName, Drive.WellFormed, NamesDistinct, Taken;
    var d' := Rename(d, n, name).value;
    assert Acyclic(d'.rows) by { SameParentsSameTree(d.rows, d'.rows); AcyclicOf(d); }
    FreePlaceKeepsNames(d, n, d'.rows[n]);
    forall m | m in d'.rows
      ensures EdgeOk(d'.rows, m) && OwnerOk(d'.rows, d'.roots, m) && RowOk(d', m)
    {
      Look(d, m);
    }
    forall v | v in d'.roots
      ensures RootOk(d'.rows, d'.roots, v)
    {
      LookRoot(d, v);
    }
    Assemble(d');
  }

  lemma AcyclicOf(d: Drive)
    requires d.WellFormed()
    ensures Acyclic(d.rows) && EdgesOk(d.rows) && NamesDistinct(d.rows)
  {
  }

  lemma MoveKeeps(d: Drive, n: Id, parent: Id)
    requires d.WellFormed() && Move(d, n, parent).Ok?
    ensures Move(d, n, parent).value.WellFormed()
  {
    hide Up, Under, Acyclic, ValidName, Drive.WellFormed, NamesDistinct, Taken;
    var d' := Move(d, n, parent).value;
    AcyclicOf(d);
    ReparentKeepsAcyclic(d.rows, n, parent);
    FreePlaceKeepsNames(d, n, d'.rows[n]);
    forall m | m in d'.rows
      ensures EdgeOk(d'.rows, m) && OwnerOk(d'.rows, d'.roots, m) && RowOk(d', m)
    {
      Look(d, m);
    }
    forall v | v in d'.roots
      ensures RootOk(d'.rows, d'.roots, v)
    {
      LookRoot(d, v);
    }
    Assemble(d');
  }

  // ----- delete

  /** A live row's ancestors are live. */
  lemma LiveUnderLive(d: Drive, m: Id, n: Id)
    requires d.WellFormed() && m in d.rows && n in d.rows && d.rows[m].Live() && Under(d.rows, m, n)
    ensures d.rows[n].Live()
  {
    if d.rows[n].Trashed() {
      UnderTrashed(d.rows, m, n);
    }
  }

  lemma DeleteKeeps(d: Drive, n: Id, elapsed: nat)
    requires d.WellFormed() && Delete(d, n, elapsed).Ok?
    ensures Delete(d, n, elapsed).value.WellFormed()
  {
    hide Up, Under, Acyclic, ValidName, Drive.WellFormed, NamesDistinct;
    var rows, d' := d.rows, Delete(d, n, elapsed).value;
    assert Acyclic(d'.rows) by { SameParentsSameTree(rows, d'.rows); AcyclicOf(d); }
    DeleteKeepsNames(d, n, elapsed);
    forall m | m in rows
      ensures EdgeOk(d'.rows, m) && OwnerOk(d'.rows, d'.roots, m) && RowOk(d', m)
    {
      Look(d, m);
      if rows[m].parent.Some? {
        Look(d, rows[m].parent.value);
        UnderParent(rows, m, n);
      }
    }
    forall u | u in d.roots
      ensures RootOk(d'.rows, d'.roots, u)
    {
      LookRoot(d, u);
      RootIsTop(d, u, n);
    }
    Assemble(d');
  }

  lemma DeleteKeepsNames(d: Drive, n: Id, elapsed: nat)
    requires d.WellFormed() && Delete(d, n, elapsed).Ok?
    ensures NamesDistinct(Delete(d, n, elapsed).value.rows)
  {
    hide Up, Under, Acyclic, ValidName, Drive.WellFormed;
    AcyclicOf(d);
    var rows, rows' := d.rows, Delete(d, n, elapsed).value.rows;
    forall x, y | x in rows' && y in rows' && Rivals(rows', x, y)
      ensures rows'[x].name != rows'[y].name
    {
      Look(d, x);
      Look(d, y);
      assert Rivals(rows, x, y);
    }
  }

  // ----- restore

  lemma DestinationIsSafe(d: Drive, n: Id)
    requires d.WellFormed() && n in d.rows && d.rows[n].Trashed()
    ensures Destination(d, n).Some?
    ensures var p := Destination(d, n).value;
            LiveNode(d, p) && d.rows[p].kind == Folder && d.rows[p].owner == d.rows[n].owner && !Under(d.rows, p, n)
  {
    hide Up, Under, Acyclic, ValidName, Drive.WellFormed, NamesDistinct;
    Look(d, n);
    LookRoot(d, d.rows[n].owner);
    var p := Destination(d, n).value;
    if Under(d.rows, p, n) {
      LiveUnderLive(d, p, n);
    }
  }

  lemma RestoreKeeps(d: Drive, n: Id)
    requires d.WellFormed() && Restore(d, n).Ok?
    ensures Restore(d, n).value.WellFormed()
  {
    hide Up, Under, Acyclic, ValidName, Drive.WellFormed, NamesDistinct, Taken;
    RestoreKeepsAcyclic(d, n);
    RestoreKeepsNames(d, n);
    var rows, d' := d.rows, Restore(d, n).value;
    DestinationIsSafe(d, n);
    forall m | m in rows
      ensures EdgeOk(d'.rows, m) && OwnerOk(d'.rows, d'.roots, m) && RowOk(d', m)
    {
      RestoredRow(d, n, m);
    }
    forall u | u in d.roots
      ensures RootOk(d'.rows, d'.roots, u)
    {
      LookRoot(d, u);
    }
    Assemble(d');
  }

  lemma RestoredRow(d: Drive, n: Id, m: Id)
    requires d.WellFormed() && Restore(d, n).Ok? && m in d.rows
    ensures var d' := Restore(d, n).value; EdgeOk(d'.rows, m) && OwnerOk(d'.rows, d'.roots, m) && RowOk(d', m)
  {
    hide Up, Under, Acyclic, ValidName, Drive.WellFormed, NamesDistinct, Taken;
    DestinationIsSafe(d, n);
    UnderSelf(d.rows, n);
    Look(d, m);
    if m != n && d.rows[m].parent.Some? {
      Look(d, d.rows[m].parent.value);
      LiftedTogether(d, n, m);
    }
  }

  /** A lifted row's parent is lifted too, unless the row is the one being restored. */
  lemma LiftedTogether(d: Drive, n: Id, m: Id)
    requires d.WellFormed() && n in d.rows && d.rows[n].Trashed() && m in d.rows && m != n && d.rows[m].parent.Some?
    ensures m in BatchUnder(d.rows, n) ==> d.rows[m].parent.value in BatchUnder(d.rows, n)
  {
    hide Up, Under, Acyclic, ValidName, Drive.WellFormed, NamesDistinct;
    var p := d.rows[m].parent.value;
    if m in BatchUnder(d.rows, n) {
      Look(d, m);
      UnderParent(d.rows, m, n);
      UnderSelf(d.rows, p);
      UnderParent(d.rows, m, p);
      AcyclicOf(d);
      BatchIsUnbroken(d.rows, m, p, n);
    }
  }

  lemma RestoreKeepsAcyclic(d: Drive, n: Id)
    requires d.WellFormed() && Restore(d, n).Ok?
    ensures Acyclic(Restore(d, n).value.rows)
  {
    hide Up, Under, Acyclic, ValidName, Drive.WellFormed, NamesDistinct, Taken;
    var rows, parent := d.rows, Destination(d, n).value;
    DestinationIsSafe(d, n);
    UnderSelf(rows, n);
    AcyclicOf(d);
    ReparentKeepsAcyclic(rows, n, parent);
    SameParentsSameTree(rows[n := rows[n].(parent := Some(parent))], Restore(d, n).value.rows);
  }

  lemma RestoreKeepsNames(d: Drive, n: Id)
    requires d.WellFormed() && Restore(d, n).Ok?
    ensures NamesDistinct(Restore(d, n).value.rows)
  {
    hide Up, Under, Acyclic, ValidName, Drive.WellFormed;
    var rows, rows' := d.rows, Restore(d, n).value.rows;
    DestinationIsSafe(d, n);
    UnderSelf(rows, n);
    AcyclicOf(d);
    forall x, y | x in rows' && y in rows' && Rivals(rows', x, y)
      ensures rows'[x].name != rows'[y].name
    {
      if x == n || y == n {
        RestoredNameIsFree(d, n, if x == n then y else x);
      } else {
        if x in BatchUnder(rows, n) { LiftedSiblings(d, n, x, y); }
        if y in BatchUnder(rows, n) { LiftedSiblings(d, n, y, x); }
        assert Rivals(rows, x, y);
      }
    }
  }

  /** Nothing else live in the destination carries the restored name. */
  lemma RestoredNameIsFree(d: Drive, n: Id, m: Id)
    requires d.WellFormed() && Restore(d, n).Ok? && m in d.rows && m != n
    requires var rows' := Restore(d, n).value.rows; rows'[m].parent == rows'[n].parent && rows'[m].Live()
    ensures d.rows[m].name != d.rows[n].name
  {
    hide Up, Under, Acyclic, ValidName, Drive.WellFormed, NamesDistinct, Taken;
    var parent := Destination(d, n).value;
    DestinationIsSafe(d, n);
    UnderParent(d.rows, m, n);
    if d.rows[m].name == d.rows[n].name && d.rows[m].Live() {
      TakenBy(d.rows, m, parent, d.rows[n].name, Some(n));
    }
  }

  /** A live sibling of a lifted row would have sat below a trashed one. */
  lemma LiftedSiblings(d: Drive, n: Id, x: Id, y: Id)
    requires d.WellFormed() && n in d.rows && d.rows[n].Trashed()
    requires x in d.rows && y in d.rows && x != n && d.rows[x].parent.Some? && d.rows[x].parent == d.rows[y].parent
    requires x in BatchUnder(d.rows, n)
    ensures d.rows[y].Trashed()
  {
    LiftedTogether(d, n, x);
    Look(d, y);
  }

  // ----- purge

  /** `n` is a strict ancestor of `m`. */
  ghost predicate ClimbsTo(rows: Rows, m: Id, n: Id) {
    exists k: nat :: k > 0 && Up(rows, m, k) == Some(n)
  }

  lemma ClimbOne(rows: Rows, m: Id, n: Id)
    requires n in rows && rows[n].parent.Some? && (m == n || ClimbsTo(rows, m, n))
    ensures ClimbsTo(rows, m, rows[n].parent.value)
  {
    var p := rows[n].parent.value;
    assert Up(rows, n, 1) == Up(rows, p, 0) == Some(p);
    if m != n {
      var k: nat :| k > 0 && Up(rows, m, k) == Some(n);
      UpCompose(rows, m, k, 1);
    }
  }

  /** Following parents from any row ends at its owner's root: the chain cannot repeat, and the rows are finite. */
  lemma {:induction false} ReachesRoot(d: Drive, n: Id, below: set<Id>)
    requires d.WellFormed() && n in d.rows && below <= d.rows.Keys
    requires forall m <- below :: ClimbsTo(d.rows, m, n)
    ensures d.rows[n].owner in d.roots && Under(d.rows, n, d.roots[d.rows[n].owner])
    decreases |d.rows.Keys - below|
  {
    hide Drive.WellFormed, Acyclic, Under, ClimbsTo;
    Look(d, n);
    UnderParent(d.rows, n, d.roots[d.rows[n].owner]);
    if d.rows[n].parent.Some? {
      var p := d.rows[n].parent.value;
      assert n !in below by {
        if n in below { NotItsOwnAncestor(d, n); }
      }
      assert d.rows.Keys - (below + {n}) < d.rows.Keys - below;
      StrictlyFewer(d.rows.Keys - (below + {n}), d.rows.Keys - below);
      forall m | m in below + {n}
        ensures ClimbsTo(d.rows, m, p)
      {
        ClimbOne(d.rows, m, n);
      }
      ReachesRoot(d, p, below + {n});
    }
  }

  lemma StrictlyFewer(a: set<Id>, b: set<Id>)
    requires a < b
    ensures |a| < |b|
  {
    assert b == a + (b - a) && a !! (b - a);
    assert b - a != {};
  }

  lemma NotItsOwnAncestor(d: Drive, n: Id)
    requires d.WellFormed() && n in d.rows
    ensures !ClimbsTo(d.rows, n, n)
  {
    hide Drive.WellFormed;
    forall k: nat | k > 0
      ensures Up(d.rows, n, k) != Some(n)
    {
      NoWayBack(d, n, k);
    }
  }

  lemma NoWayBack(d: Drive, n: Id, k: nat)
    requires d.WellFormed() && n in d.rows && k > 0
    ensures Up(d.rows, n, k) != Some(n)
  {
  }

  lemma PurgeKeeps(d: Drive, n: Id)
    requires d.WellFormed() && Purge(d, n).Ok?
    ensures Purge(d, n).value.WellFormed()
  {
    hide Up, Under, Acyclic, ValidName, Drive.WellFormed;
    AcyclicOf(d);
    RemoveKeepsTree(d.rows, n);
    var d' := Purge(d, n).value;
    assert d'.rows == map m | m in d.rows && !Under(d.rows, m, n) :: d.rows[m];
    forall m, o | m in d'.rows && o in d'.rows && Rivals(d'.rows, m, o)
      ensures d'.rows[m].name != d'.rows[o].name
    {
      assert Rivals(d.rows, m, o);
    }
    forall m | m in d'.rows
      ensures EdgeOk(d'.rows, m) && OwnerOk(d'.rows, d'.roots, m) && RowOk(d', m)
    {
      Look(d, m);
      assert EdgeOk(d'.rows, m);
    }
    forall u | u in d.roots
      ensures RootOk(d'.rows, d'.roots, u)
    {
      LookRoot(d, u);
      RootIsTop(d, u, n);
    }
    Assemble(d');
  }

  // ----- whole runs

  datatype Op =
    | OpProvision(user: UserId)
    | OpCreate(parent: Id, name: string, kind: Kind, encrypted: bool)
    | OpRename(node: Id, name: string)
    | OpMove(node: Id, parent: Id)
    | OpDelete(node: Id, elapsed: nat)
    | OpRestore(node: Id)
    | OpPurge(node: Id)

  ghost function Apply(d: Drive, op: Op): Result<Drive, Error> {
    match op
    case OpProvision(u) => Provision(d, u)
    case OpCreate(p, name, kind, encrypted) => Create(d, p, name, kind, encrypted, kind == Folder)
    case OpRename(n, name) => Rename(d, n, name)
    case OpMove(n, p) => Move(d, n, p)
    case OpDelete(n, elapsed) => Delete(d, n, elapsed)
    case OpRestore(n) => Restore(d, n)
    case OpPurge(n) => Purge(d, n)
  }

  /** A refused operation changes nothing. */
  ghost function Step(d: Drive, op: Op): Drive {
    var r := Apply(d, op);
    if r.Ok? then r.value else d
  }

  ghost function Run(d: Drive, ops: seq<Op>): Drive
    decreases |ops|
  {
    if ops == [] then d else Run(Step(d, ops[0]), ops[1..])
  }

  lemma StepKeeps(d: Drive, op: Op)
    requires d.WellFormed()
    ensures Step(d, op).WellFormed()
  {
    hide Drive.WellFormed, Provision, Create, Rename, Move, Delete, Restore, Purge;
    if Apply(d, op).Ok? {
      match op
      case OpProvision(u) => ProvisionKeeps(d, u);
      case OpCreate(p, name, kind, encrypted) => CreateKeeps(d, p, name, kind, encrypted, kind == Folder);
      case OpRename(n, name) => RenameKeeps(d, n, name);
      case OpMove(n, p) => MoveKeeps(d, n, p);
      case OpDelete(n, elapsed) => DeleteKeeps(d, n, elapsed);
      case OpRestore(n) => RestoreKeeps(d, n);
      case OpPurge(n) => PurgeKeeps(d, n);
    }
  }

  lemma {:induction false} RunFrom(d: Drive, ops: seq<Op>)
    requires d.WellFormed()
    ensures Run(d, ops).WellFormed()
    decreases |ops|
  {
    hide Drive.WellFormed, Step;
    if ops != [] {
      StepKeeps(d, ops[0]);
      RunFrom(Step(d, ops[0]), ops[1..]);
    }
  }

  /** Every state reachable from the empty service is well formed. */
  lemma EveryRunIsWellFormed(ops: seq<Op>)
    ensures Run(EMPTY, ops).WellFormed()
  {
    RunFrom(EMPTY, ops);
  }
}
