/**
 * The filesystem tree as an adjacency list of rows, with soft delete.
 *
 * A delete batch is identified only by its `deletedAt` stamp. What makes that sound is stated here as
 * one invariant, `WellFormed`, and proved to survive every tree operation.
 */
module Tree {
  import opened Prelude

  type Id = nat
  type UserId = nat
  type Time = nat

  datatype Kind = Folder | File

  datatype Row = Row(owner: UserId, kind: Kind, name: string, parent: Option<Id>, deletedAt: Option<Time>,
                     size: nat, current: Option<Id>, encrypted: bool) {
    predicate Live() { deletedAt.None? }
    predicate Trashed() { deletedAt.Some? }
  }

  type Rows = map<Id, Row>

  datatype Error = NotFound | PermissionDenied | Validation | NameTaken | CrossOwner | Cycle | Conflict | QuotaExceeded

  // ----- names

  const MAX_NAME_LENGTH := 255

  predicate ValidName(name: string) {
    && 1 <= |name| <= MAX_NAME_LENGTH
    && '/' !in name && '\\' !in name && '\0' !in name
    && name != "." && name != ".."
  }

  /** Reserved at the root of every tree, for folders created there. */
  const SHARED_PREFIX := "shared"

  predicate IsLiveChild(rows: Rows, m: Id, parent: Id, name: string) {
    m in rows && rows[m].Live() && rows[m].parent == Some(parent) && rows[m].name == name
  }

  /** A live sibling other than `excluding` already uses the name. */
  predicate Taken(rows: Rows, parent: Id, name: string, excluding: Option<Id>) {
    exists m <- rows :: IsLiveChild(rows, m, parent, name) && Some(m) != excluding
  }

  // ----- ancestry

  /** The `k`-th ancestor of `n`; the node itself for `k == 0`. */
  ghost function Up(rows: Rows, n: Id, k: nat): Option<Id>
    decreases k
  {
    if k == 0 then Some(n)
    else if n in rows && rows[n].parent.Some? then Up(rows, rows[n].parent.value, k - 1)
    else None
  }

  /** `n` is `a` or lies somewhere beneath it. */
  ghost predicate Under(rows: Rows, n: Id, a: Id) {
    exists k: nat :: Up(rows, n, k) == Some(a)
  }

  lemma {:induction false} UpCompose(rows: Rows, n: Id, j: nat, k: nat)
    requires Up(rows, n, j).Some?
    ensures Up(rows, n, j + k) == Up(rows, Up(rows, n, j).value, k)
    decreases j
  {
    if j > 0 {
      UpCompose(rows, rows[n].parent.value, j - 1, k);
    }
  }

  lemma UnderSelf(rows: Rows, n: Id)
    ensures Under(rows, n, n)
  {
    assert Up(rows, n, 0) == Some(n);
  }

  lemma UnderTransitive(rows: Rows, n: Id, a: Id, b: Id)
    requires Under(rows, n, a) && Under(rows, a, b)
    ensures Under(rows, n, b)
  {
    var j: nat :| Up(rows, n, j) == Some(a);
    var k: nat :| Up(rows, a, k) == Some(b);
    UpCompose(rows, n, j, k);
  }

  /** One step of ancestry: a node other than `a` is under `a` exactly when its parent is. */
  lemma UnderParent(rows: Rows, n: Id, a: Id)
    ensures Under(rows, n, a) <==> n == a || (n in rows && rows[n].parent.Some? && Under(rows, rows[n].parent.value, a))
  {
    if Under(rows, n, a) && n != a {
      var k: nat :| Up(rows, n, k) == Some(a);
      assert Up(rows, rows[n].parent.value, k - 1) == Some(a);
    }
    if n == a {
      UnderSelf(rows, n);
    }
    if n in rows && rows[n].parent.Some? && Under(rows, rows[n].parent.value, a) {
      var k: nat :| Up(rows, rows[n].parent.value, k) == Some(a);
      assert Up(rows, n, k + 1) == Some(a);
    }
  }

  // ----- the invariant

  /**
   * What holds between a row and its parent: the parent exists, is a folder and has the same owner;
   * nothing live sits below anything trashed; going up a trashed chain, stamps never decrease.
   */
  ghost predicate EdgeOk(rows: Rows, n: Id)
    requires n in rows
  {
    rows[n].parent.Some? ==>
      var p := rows[n].parent.value;
      && p in rows && rows[p].kind == Folder && rows[p].owner == rows[n].owner
      && (rows[n].Live() ==> rows[p].Live())
      && (rows[n].Trashed() && rows[p].Trashed() ==> rows[n].deletedAt.value <= rows[p].deletedAt.value)
  }

  ghost predicate EdgesOk(rows: Rows) {
    forall n {:trigger EdgeOk(rows, n)} :: n in rows ==> EdgeOk(rows, n)
  }

  ghost predicate Acyclic(rows: Rows) {
    forall n: Id, k: nat :: n in rows && k > 0 ==> Up(rows, n, k) != Some(n)
  }

  ghost predicate RootOk(rows: Rows, roots: map<UserId, Id>, u: UserId)
    requires u in roots
  {
    var r := roots[u];
    r in rows && rows[r].owner == u && rows[r].parent.None? && rows[r].Live() && rows[r].kind == Folder
  }

  /** Each user has one root: the only row of theirs without a parent, and never trashed. */
  ghost predicate OwnerOk(rows: Rows, roots: map<UserId, Id>, n: Id)
    requires n in rows
  {
    rows[n].owner in roots && (rows[n].parent.None? ==> n == roots[rows[n].owner])
  }

  ghost predicate Rooted(rows: Rows, roots: map<UserId, Id>) {
    && (forall u {:trigger RootOk(rows, roots, u)} :: u in roots ==> RootOk(rows, roots, u))
    && (forall n {:trigger OwnerOk(rows, roots, n)} :: n in rows ==> OwnerOk(rows, roots, n))
  }

  predicate Rivals(rows: Rows, m: Id, n: Id)
    requires m in rows && n in rows
  {
    m != n && rows[m].parent.Some? && rows[m].parent == rows[n].parent && rows[m].deletedAt == rows[n].deletedAt
  }

  /** Siblings in the same state, live or trashed with one stamp, have distinct names. */
  ghost predicate NamesDistinct(rows: Rows) {
    forall m, n {:trigger Rivals(rows, m, n)} :: m in rows && n in rows && Rivals(rows, m, n) ==> rows[m].name != rows[n].name
  }

  /** Bounds on one row: its stamp is not in the future, its id is spent, its name usable, a folder is empty of content. */
  predicate RowOk(d: Drive, n: Id)
    requires n in d.rows
  {
    var r := d.rows[n];
    && n < d.nextId && ValidName(r.name)
    && (r.Trashed() ==> r.deletedAt.value <= d.clock)
    && (r.kind == Folder ==> r.size == 0 && r.current.None?)
  }

  datatype Drive = Drive(rows: Rows, roots: map<UserId, Id>, nextId: Id, clock: Time) {
    ghost predicate WellFormed() {
      && EdgesOk(rows) && Acyclic(rows) && Rooted(rows, roots) && NamesDistinct(rows)
      && forall n {:trigger RowOk(this, n)} :: n in rows ==> RowOk(this, n)
    }
  }

  const EMPTY := Drive(map[], map[], 0, 0)

  // ----- consequences along whole chains

  lemma {:induction false} ChainStaysInside(rows: Rows, n: Id, k: nat)
    requires EdgesOk(rows) && n in rows && Up(rows, n, k).Some?
    ensures Up(rows, n, k).value in rows && rows[Up(rows, n, k).value].owner == rows[n].owner
    decreases k
  {
    if k > 0 {
      assert EdgeOk(rows, n);
      ChainStaysInside(rows, rows[n].parent.value, k - 1);
    }
  }

  /** Everything beneath a trashed node is trashed, and no later than it. */
  lemma {:induction false} BelowTrashed(rows: Rows, n: Id, a: Id, k: nat)
    requires EdgesOk(rows)
    requires n in rows && a in rows && rows[a].Trashed() && Up(rows, n, k) == Some(a)
    ensures rows[n].Trashed() && rows[n].deletedAt.value <= rows[a].deletedAt.value
    decreases k
  {
    if k > 0 {
      assert EdgeOk(rows, n);
      BelowTrashed(rows, rows[n].parent.value, a, k - 1);
    }
  }

  lemma UnderTrashed(rows: Rows, n: Id, a: Id)
    requires EdgesOk(rows)
    requires n in rows && a in rows && rows[a].Trashed() && Under(rows, n, a)
    ensures rows[n].Trashed() && rows[n].deletedAt.value <= rows[a].deletedAt.value
  {
    var k: nat :| Up(rows, n, k) == Some(a);
    BelowTrashed(rows, n, a, k);
  }

  /** A batch is unbroken: every row between two rows of one stamp carries that stamp. */
  lemma BatchIsUnbroken(rows: Rows, n: Id, m: Id, a: Id)
    requires EdgesOk(rows)
    requires n in rows && m in rows && a in rows
    requires Under(rows, n, m) && Under(rows, m, a)
    requires rows[a].Trashed() && rows[n].deletedAt == rows[a].deletedAt
    ensures rows[m].deletedAt == rows[a].deletedAt
  {
    UnderTrashed(rows, m, a);
    UnderTrashed(rows, n, m);
  }

  lemma RootIsTop(d: Drive, u: UserId, a: Id)
    requires d.WellFormed() && u in d.roots
    ensures Under(d.rows, d.roots[u], a) <==> a == d.roots[u]
  {
    assert RootOk(d.rows, d.roots, u);
    UnderParent(d.rows, d.roots[u], a);
  }

  // ----- how ancestry changes

  lemma {:induction false} SameParentsSameUp(rows: Rows, rows': Rows, n: Id, k: nat)
    requires rows.Keys == rows'.Keys
    requires forall m <- rows :: rows'[m].parent == rows[m].parent
    ensures Up(rows', n, k) == Up(rows, n, k)
    decreases k
  {
    if k > 0 && n in rows && rows[n].parent.Some? {
      SameParentsSameUp(rows, rows', rows[n].parent.value, k - 1);
    }
  }

  lemma SameParentsSameTree(rows: Rows, rows': Rows)
    requires rows.Keys == rows'.Keys
    requires forall m <- rows :: rows'[m].parent == rows[m].parent
    ensures Acyclic(rows) ==> Acyclic(rows')
    ensures forall n, a :: Under(rows', n, a) <==> Under(rows, n, a)
  {
    forall n: Id, k: nat ensures Up(rows', n, k) == Up(rows, n, k) {
      SameParentsSameUp(rows, rows', n, k);
    }
  }

  /** Chains that avoid everything under `a` are the same when only rows under `a` differ. */
  lemma {:induction false} OutsideSameUp(rows: Rows, rows': Rows, a: Id, n: Id, k: nat)
    requires forall m :: m in rows && !Under(rows, m, a) ==> m in rows' && rows'[m].parent == rows[m].parent
    requires n in rows && !Under(rows, n, a) && EdgesOk(rows)
    ensures Up(rows', n, k) == Up(rows, n, k)
    decreases k
  {
    if k > 0 && rows[n].parent.Some? {
      assert EdgeOk(rows, n);
      UnderParent(rows, n, a);
      OutsideSameUp(rows, rows', a, rows[n].parent.value, k - 1);
    }
  }

  /** Removing a subtree leaves every other chain as it was. */
  lemma RemoveKeepsTree(rows: Rows, a: Id)
    requires EdgesOk(rows) && Acyclic(rows)
    ensures var rows' := map m | m in rows && !Under(rows, m, a) :: rows[m];
            && EdgesOk(rows') && Acyclic(rows')
            && forall n, b :: n in rows' ==> (Under(rows', n, b) <==> Under(rows, n, b))
  {
    var rows' := map m | m in rows && !Under(rows, m, a) :: rows[m];
    forall n, k: nat | n in rows'
      ensures Up(rows', n, k) == Up(rows, n, k)
    {
      OutsideSameUp(rows, rows', a, n, k);
    }
    forall n | n in rows'
      ensures EdgeOk(rows', n)
    {
      assert EdgeOk(rows, n);
      UnderParent(rows, n, a);
    }
  }

  /** Hanging `n` under a folder that is not beneath it creates no cycle. */
  lemma ReparentKeepsAcyclic(rows: Rows, n: Id, parent: Id)
    requires EdgesOk(rows) && Acyclic(rows)
    requires n in rows && parent in rows && !Under(rows, parent, n)
    ensures Acyclic(rows[n := rows[n].(parent := Some(parent))])
  {
    var rows' := rows[n := rows[n].(parent := Some(parent))];
    UnderSelf(rows, n);
    forall m: Id, k: nat | m in rows' && k > 0
      ensures Up(rows', m, k) != Some(m)
    {
      if Up(rows', m, k) == Some(m) {
        if Under(rows, m, n) {
          var j: nat :| Up(rows, m, j) == Some(n);
          var j' := FirstMeeting(rows, m, n, j);
          BelowReparented(rows, rows', n, m, j', j');
          if k <= j' {
            BelowReparented(rows, rows', n, m, j', k);
          } else {
            UpCompose(rows', m, j', k - j');
            assert Up(rows', n, k - j') == Up(rows', parent, k - j' - 1);
            OutsideSameUp(rows, rows', n, parent, k - j' - 1);
            UnderTransitive(rows, parent, m, n);
          }
        } else {
          OutsideSameUp(rows, rows', n, m, k);
        }
      }
    }
  }

  lemma {:induction false} FirstMeeting(rows: Rows, m: Id, n: Id, j: nat) returns (first: nat)
    requires Up(rows, m, j) == Some(n)
    ensures Up(rows, m, first) == Some(n)
    ensures forall i: nat :: i < first ==> Up(rows, m, i) != Some(n)
  {
    if i: nat :| i < j && Up(rows, m, i) == Some(n) {
      first := FirstMeeting(rows, m, n, i);
    } else {
      first := j;
    }
  }

  /** Up to the first meeting with `n`, a chain does not notice that `n` moved. */
  lemma {:induction false} BelowReparented(rows: Rows, rows': Rows, n: Id, m: Id, first: nat, k: nat)
    requires forall x :: x in rows && x != n ==> x in rows' && rows'[x].parent == rows[x].parent
    requires rows'.Keys == rows.Keys
    requires Up(rows, m, first) == Some(n) && k <= first
    requires forall i: nat :: i < first ==> Up(rows, m, i) != Some(n)
    ensures Up(rows', m, k) == Up(rows, m, k)
    decreases k
  {
    if k > 0 {
      assert Up(rows, m, 0) == Some(m) && m != n;
      var p := rows[m].parent.value;
      forall i: nat | i < first - 1
        ensures Up(rows, p, i) != Some(n)
      {
        assert Up(rows, m, i + 1) == Up(rows, p, i);
      }
      BelowReparented(rows, rows', n, p, first - 1, k - 1);
    }
  }

  // ----- operations

  function Provision(d: Drive, u: UserId): Result<Drive, Error> {
    if u in d.roots then Err(Conflict)
    else
      var root := Row(u, Folder, "root", None, None, 0, None, false);
      Ok(d.(rows := d.rows[d.nextId := root], roots := d.roots[u := d.nextId], nextId := d.nextId + 1))
  }

  predicate LiveNode(d: Drive, n: Id) {
    n in d.rows && d.rows[n].Live()
  }

  /** A new row under a live folder; `reserved` is the guard `create_folder` alone applies. */
  function Create(d: Drive, parent: Id, name: string, kind: Kind, encrypted: bool, reserved: bool): Result<Drive, Error> {
    if !LiveNode(d, parent) then Err(NotFound)
    else if d.rows[parent].kind != Folder then Err(Validation)
    else if reserved && d.rows[parent].parent.None? && name == SHARED_PREFIX then Err(Validation)
    else if !ValidName(name) then Err(Validation)
    else if Taken(d.rows, parent, name, None) then Err(NameTaken)
    else
      var row := Row(d.rows[parent].owner, kind, name, Some(parent), None, 0, None, encrypted);
      Ok(d.(rows := d.rows[d.nextId := row], nextId := d.nextId + 1))
  }

  function Rename(d: Drive, n: Id, name: string): Result<Drive, Error> {
    if !LiveNode(d, n) then Err(NotFound)
    else if d.rows[n].parent.None? || !ValidName(name) then Err(Validation)
    else if Taken(d.rows, d.rows[n].parent.value, name, Some(n)) then Err(NameTaken)
    else Ok(d.(rows := d.rows[n := d.rows[n].(name := name)]))
  }

  ghost function Move(d: Drive, n: Id, parent: Id): Result<Drive, Error> {
    if !LiveNode(d, n) || !LiveNode(d, parent) then Err(NotFound)
    else if d.rows[parent].kind != Folder || d.rows[n].parent.None? then Err(Validation)
    else if d.rows[parent].owner != d.rows[n].owner then Err(CrossOwner)
    else if Under(d.rows, parent, n) then Err(Cycle)
    else if Taken(d.rows, parent, d.rows[n].name, Some(n)) then Err(NameTaken)
    else Ok(d.(rows := d.rows[n := d.rows[n].(parent := Some(parent))]))
  }

  /** The live rows a delete of `n` moves to the trash. */
  ghost function LiveUnder(rows: Rows, n: Id): set<Id> {
    set m | m in rows && rows[m].Live() && Under(rows, m, n)
  }

  function Stamp(rows: Rows, batch: set<Id>, stamp: Option<Time>): Rows {
    map m | m in rows :: if m in batch then rows[m].(deletedAt := stamp) else rows[m]
  }

  /** Each delete's clock value is strictly newer than every earlier stamp; `elapsed` says by how much more. */
  ghost function Delete(d: Drive, n: Id, elapsed: nat): Result<Drive, Error> {
    if !LiveNode(d, n) then Err(NotFound)
    else if d.rows[n].parent.None? then Err(Validation)
    else
      var now := d.clock + 1 + elapsed;
      Ok(d.(rows := Stamp(d.rows, LiveUnder(d.rows, n), Some(now)), clock := now))
  }

  /** The rows a restore of `n` lifts: those beneath it that carry its stamp. */
  ghost function BatchUnder(rows: Rows, n: Id): set<Id>
    requires n in rows
  {
    set m | m in rows && rows[m].deletedAt == rows[n].deletedAt && Under(rows, m, n)
  }

  /** Back to its parent while that is live, otherwise to the owner's root. */
  function Destination(d: Drive, n: Id): Option<Id>
    requires n in d.rows
  {
    var r := d.rows[n];
    if r.parent.Some? && LiveNode(d, r.parent.value) then r.parent
    else if r.owner in d.roots then Some(d.roots[r.owner])
    else None
  }

  ghost function Restore(d: Drive, n: Id): Result<Drive, Error> {
    if n !in d.rows || d.rows[n].Live() then Err(NotFound)
    else
      var destination := Destination(d, n);
      if destination.None? then Err(NotFound)
      else if Taken(d.rows, destination.value, d.rows[n].name, Some(n)) then Err(NameTaken)
      else
        var lifted := Stamp(d.rows, BatchUnder(d.rows, n), None);
        Ok(d.(rows := lifted[n := d.rows[n].(deletedAt := None, parent := destination)]))
  }

  ghost function Subtree(rows: Rows, n: Id): set<Id> {
    set m | m in rows && Under(rows, m, n)
  }

  ghost function Purge(d: Drive, n: Id): Result<Drive, Error> {
    if n !in d.rows then Err(NotFound)
    else if d.rows[n].Live() then Err(Conflict)
    else Ok(d.(rows := d.rows - Subtree(d.rows, n)))
  }
}
