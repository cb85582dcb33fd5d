/**
 * What each tree operation does, seen from outside: when it is accepted, which rows it changes and how,
 * and what becomes of the paths beneath them.
 */
module TreeEffects {
  import opened Prelude
  import opened Tree
  import opened TreeInvariant
  import opened Walks
  import opened S3Walk

  /** The drive in which row `n` reads `row`. */
  function WithRow(d: Drive, n: Id, row: Row): Drive {
    d.(rows := d.rows[n := row])
  }

  /** The drive with one new empty row in `parent`. */
  function Added(d: Drive, parent: Id, name: string, kind: Kind, encrypted: bool): Drive
    requires parent in d.rows
  {
    var row := Row(d.rows[parent].owner, kind, name, Some(parent), None, 0, None, encrypted);
    d.(rows := d.rows[d.nextId := row], nextId := d.nextId + 1)
  }

  // ----- accepted exactly when the invariant allows it

  /** A live row of a well-formed drive has a live folder of the same owner above it, and no live namesake beside it. */
  lemma PlaceIsFree(d: Drive, n: Id)
    requires d.WellFormed() && LiveNode(d, n) && d.rows[n].parent.Some?
    ensures var p := d.rows[n].parent.value;
            && LiveNode(d, p) && d.rows[p].kind == Folder && d.rows[p].owner == d.rows[n].owner && p != n && !Under(d.rows, p, n)
            && ValidName(d.rows[n].name) && !Taken(d.rows, p, d.rows[n].name, Some(n))
  {
    hide Drive.WellFormed, Under, ValidName;
    Look(d, n);
    NotUnderChild(d, n);
    NamesOf(d);
    var p := d.rows[n].parent.value;
    forall m | m in d.rows && m != n && d.rows[m].Live() && d.rows[m].parent == Some(p)
      ensures d.rows[m].name != d.rows[n].name
    {
      assert Rivals(d.rows, m, n);
    }
  }

  /** A folder is created exactly when the tree with it in place is well formed and the name is not a reserved one. */
  lemma CreateExactly(d: Drive, parent: Id, name: string, kind: Kind, encrypted: bool, reserved: bool)
    requires d.WellFormed()
    ensures Create(d, parent, name, kind, encrypted, reserved).Ok? <==>
              && parent in d.rows && Added(d, parent, name, kind, encrypted).WellFormed()
              && !(reserved && name == "shared" && d.rows[parent].parent.None?)
    ensures Create(d, parent, name, kind, encrypted, reserved).Ok? ==>
              Create(d, parent, name, kind, encrypted, reserved).value == Added(d, parent, name, kind, encrypted)
  {
    hide Drive.WellFormed, ValidName, Taken;
    FreshId(d);
    if Create(d, parent, name, kind, encrypted, reserved).Ok? {
      CreateKeeps(d, parent, name, kind, encrypted, reserved);
    }
    if parent in d.rows && Added(d, parent, name, kind, encrypted).WellFormed() {
      var d' := Added(d, parent, name, kind, encrypted);
      PlaceIsFree(d', d.nextId);
      FreeBefore(d, d', d.nextId, parent, name, None);
    }
  }

  /** A name no other row has in the new drive was free in the old one. */
  lemma FreeBefore(d: Drive, d': Drive, n: Id, parent: Id, name: string, excluding: Option<Id>)
    requires !Taken(d'.rows, parent, name, Some(n))
    requires forall m <- d.rows :: m != n ==> m in d'.rows && d'.rows[m] == d.rows[m]
    requires excluding == Some(n) || n !in d.rows
    ensures !Taken(d.rows, parent, name, excluding)
  {
    forall m | m in d.rows && IsLiveChild(d.rows, m, parent, name)
      ensures Some(m) == excluding
    {
      if m != n { TakenBy(d'.rows, m, parent, name, Some(n)); }
    }
  }

  /** Between one and 255 characters, no slash, backslash or NUL, and neither of the two dot names. */
  ghost predicate GoodName(name: string) {
    1 <= |name| <= 255 && (forall c <- name :: c !in {'/', '\\', '\0'}) && name !in {".", ".."}
  }

  /** In a live folder that nothing else of the name is in, exactly these names are accepted. */
  lemma NameExactly(d: Drive, parent: Id, name: string, kind: Kind, encrypted: bool)
    requires d.WellFormed() && LiveNode(d, parent) && d.rows[parent].kind == Folder
    ensures Create(d, parent, name, kind, encrypted, false).Ok? <==>
              GoodName(name) && forall m <- Siblings(d.rows, parent) :: d.rows[m].name != name
  {
    hide Drive.WellFormed;
    forall m | m in d.rows
      ensures IsLiveChild(d.rows, m, parent, name) <==> m in Siblings(d.rows, parent) && d.rows[m].name == name
    {
    }
  }

  /** So in every run every name is one of these. */
  lemma EveryNameIsGood(ops: seq<TreeInvariant.Op>, n: Id)
    requires n in TreeInvariant.Run(EMPTY, ops).rows
    ensures GoodName(TreeInvariant.Run(EMPTY, ops).rows[n].name)
  {
    hide Drive.WellFormed;
    EveryRunIsWellFormed(ops);
    Look(TreeInvariant.Run(EMPTY, ops), n);
  }

  /** A rename is accepted exactly when the node is live and below a root, and the renamed tree is well formed. */
  lemma RenameExactly(d: Drive, n: Id, name: string)
    requires d.WellFormed()
    ensures Rename(d, n, name).Ok? <==>
              LiveNode(d, n) && d.rows[n].parent.Some? && WithRow(d, n, d.rows[n].(name := name)).WellFormed()
    ensures Rename(d, n, name).Ok? ==> Rename(d, n, name).value == WithRow(d, n, d.rows[n].(name := name))
  {
    hide Drive.WellFormed, ValidName, Taken;
    if Rename(d, n, name).Ok? { RenameKeeps(d, n, name); }
    if LiveNode(d, n) && d.rows[n].parent.Some? && WithRow(d, n, d.rows[n].(name := name)).WellFormed() {
      var d' := WithRow(d, n, d.rows[n].(name := name));
      PlaceIsFree(d', n);
      FreeBefore(d, d', n, d.rows[n].parent.value, name, Some(n));
    }
  }

  /**
   * A move is accepted exactly when the node is live and below a root, and the tree with the node hung there
   * is well formed: a folder, live, of the same owner, not below the node, with the name free. Then that is the tree.
   */
  lemma MoveExactly(d: Drive, n: Id, parent: Id)
    requires d.WellFormed()
    ensures Move(d, n, parent).Ok? <==>
              LiveNode(d, n) && d.rows[n].parent.Some? && WithRow(d, n, d.rows[n].(parent := Some(parent))).WellFormed()
    ensures Move(d, n, parent).Ok? ==> Move(d, n, parent).value == WithRow(d, n, d.rows[n].(parent := Some(parent)))
  {
    hide Drive.WellFormed, ValidName, Taken, Under;
    if Move(d, n, parent).Ok? { MoveKeeps(d, n, parent); }
    if LiveNode(d, n) && d.rows[n].parent.Some? && WithRow(d, n, d.rows[n].(parent := Some(parent))).WellFormed() {
      var d' := WithRow(d, n, d.rows[n].(parent := Some(parent)));
      PlaceIsFree(d', n);
      FreeBefore(d, d', n, parent, d.rows[n].name, Some(n));
      NotBelowBefore(d, d', n, parent);
    }
  }

  lemma NotBelowBefore(d: Drive, d': Drive, n: Id, parent: Id)
    requires d'.WellFormed() && n in d.rows && n in d'.rows && d'.rows == d.rows[n := d'.rows[n]] && parent in d'.rows && !Under(d'.rows, parent, n)
    ensures !Under(d.rows, parent, n)
  {
    AcyclicOf(d');
    hide Drive.WellFormed;
    UnderSelf(d'.rows, n);
    forall k: nat
      ensures Up(d.rows, parent, k) != Some(n)
    {
      OutsideSameUp(d'.rows, d.rows, n, parent, k);
      assert Up(d'.rows, parent, k) != Some(n);
    }
  }

  /** A move that is refused is refused for what is wrong with it. */
  lemma MoveRefusedTruly(d: Drive, n: Id, parent: Id)
    requires d.WellFormed() && Move(d, n, parent).Err?
    ensures match Move(d, n, parent).error
            case NotFound => !LiveNode(d, n) || !LiveNode(d, parent)
            case Validation => d.rows[parent].kind == File || n in d.roots.Values
            case CrossOwner => d.rows[parent].owner != d.rows[n].owner
            case Cycle => parent == n || n in Above(d.rows, parent)
            case NameTaken => exists m <- d.rows :: m != n && m in Siblings(d.rows, parent) && d.rows[m].name == d.rows[n].name
            case _ => false
  {
    hide Drive.WellFormed, Under;
    if n in d.rows { Look(d, n); }
  }

  /** The live rows directly in a folder. */
  function Siblings(rows: Rows, parent: Id): set<Id> {
    set m | m in rows && rows[m].Live() && rows[m].parent == Some(parent)
  }

  // ----- where things are afterwards

  /**
   * When two drives differ in row `n` at most, paths that do not pass through it are the same, and the others
   * start with its new path in place of the old.
   */
  lemma {:induction false} PathsAfter(d: Drive, d': Drive, n: Id, m: Id)
    requires d.WellFormed() && d'.WellFormed() && m in d.rows && d.rows.Keys <= d'.rows.Keys
    requires forall x <- d.rows :: x != n ==> d'.rows[x].parent == d.rows[x].parent && d'.rows[x].name == d.rows[x].name
    ensures !Under(d.rows, m, n) ==> Path(d', m) == Path(d, m)
    ensures Under(d.rows, m, n) ==> n in d.rows && Path(d, n) <= Path(d, m) && Path(d', m) == Path(d', n) + Path(d, m)[|Path(d, n)|..]
    decreases |Above(d.rows, m)|
  {
    hide Drive.WellFormed, Path, Under, Above;
    if Under(d.rows, m, n) { StaysInside(d, m, n); }
    UnderSelf(d.rows, n);
    if m != n {
      UnderParent(d.rows, m, n);
      if d.rows[m].parent.Some? {
        var p := d.rows[m].parent.value;
        StepUp(d, m);
        StepUp(d, p);
        StrictlyFewer(Above(d.rows, p), Above(d.rows, m));
        PathsAfter(d, d', n, p);
        PathStep(d, m);
        PathStep(d', m);
      } else {
        TopPath(d, m);
        TopPath(d', m);
      }
    }
  }

  lemma StaysInside(d: Drive, m: Id, n: Id)
    requires d.WellFormed() && m in d.rows && Under(d.rows, m, n)
    ensures n in d.rows
  {
    var k: nat :| Up(d.rows, m, k) == Some(n);
    ChainStaysInside(d.rows, m, k);
  }

  lemma TopPath(d: Drive, m: Id)
    requires d.WellFormed() && m in d.rows && d.rows[m].parent.None?
    ensures Path(d, m) == []
  {
  }

  /** The new row is found under its name in its folder, and every other path is as it was. */
  lemma CreateAdds(d: Drive, parent: Id, name: string, kind: Kind, encrypted: bool, reserved: bool, m: Id)
    requires d.WellFormed() && Create(d, parent, name, kind, encrypted, reserved).Ok? && m in d.rows
    ensures var d' := Create(d, parent, name, kind, encrypted, reserved).value;
            && d'.WellFormed() && d'.rows.Keys == d.rows.Keys + {d.nextId} && d.nextId !in d.rows
            && d'.rows[m] == d.rows[m] && Path(d', m) == Path(d, m)
            && Child(d'.rows, parent, name) == Some(d.nextId) && Path(d', d.nextId) == Path(d, parent) + [name]
            && d'.rows[d.nextId].kind == kind && d'.rows[d.nextId].encrypted == encrypted && d'.rows[d.nextId].owner == d.rows[parent].owner
            && d'.rows[d.nextId].size == 0 && d'.rows[d.nextId].current.None?
  {
    hide Drive.WellFormed, Path, ValidName, Taken, Child, Under;
    FreshId(d);
    CreateKeeps(d, parent, name, kind, encrypted, reserved);
    var d', n := Create(d, parent, name, kind, encrypted, reserved).value, d.nextId;
    if Under(d.rows, m, n) { StaysInside(d, m, n); }
    if Under(d.rows, parent, n) { StaysInside(d, parent, n); }
    PathsAfter(d, d', n, m);
    PathsAfter(d, d', n, parent);
    PathStep(d', n);
    OnlyChild(d', n, parent, name);
  }

  /** Beneath a renamed node every path has the new name where the old one was; all others are as they were. */
  lemma RenameRenames(d: Drive, n: Id, name: string, m: Id)
    requires d.WellFormed() && Rename(d, n, name).Ok? && m in d.rows
    ensures var d', parent := Rename(d, n, name).value, d.rows[n].parent.value;
            && d'.WellFormed() && d'.rows.Keys == d.rows.Keys && parent in d.rows && Child(d'.rows, parent, name) == Some(n)
            && (m != n ==> d'.rows[m] == d.rows[m])
            && (Under(d.rows, m, n) ==>
                  && Path(d, parent) + [d.rows[n].name] <= Path(d, m)
                  && Path(d', m) == Path(d, parent) + [name] + Path(d, m)[|Path(d, parent)| + 1..])
            && (!Under(d.rows, m, n) ==> Path(d', m) == Path(d, m))
  {
    hide Drive.WellFormed, Path, ValidName, Taken, Child, Under;
    RenameKeeps(d, n, name);
    var d', parent := Rename(d, n, name).value, d.rows[n].parent.value;
    PathStep(d, n);
    PathStep(d', n);
    NotUnderChild(d, n);
    PathsAfter(d, d', n, m);
    PathsAfter(d, d', n, parent);
    OnlyChild(d', n, parent, name);
  }

  /**
   * A move takes the whole subtree along. What was beneath the node still is, and its path now starts at the
   * destination; nothing else has a new place; and a live node is found by following the new names.
   */
  lemma MoveMoves(d: Drive, n: Id, parent: Id, m: Id)
    requires d.WellFormed() && Move(d, n, parent).Ok? && m in d.rows
    ensures var d', name := Move(d, n, parent).value, d.rows[n].name;
            && d'.WellFormed() && d'.rows.Keys == d.rows.Keys && d'.rows[n].parent == Some(parent)
            && Child(d'.rows, parent, name) == Some(n)
            && (m != n ==> d'.rows[m] == d.rows[m]) && d'.rows[n] == d.rows[n].(parent := Some(parent))
            && (Under(d'.rows, m, n) <==> Under(d.rows, m, n))
            && (Under(d.rows, m, n) ==>
                  && Under(d'.rows, m, parent) && Path(d, n) <= Path(d, m)
                  && Path(d', m) == Path(d, parent) + [name] + Path(d, m)[|Path(d, n)|..])
            && (!Under(d.rows, m, n) ==> Path(d', m) == Path(d, m))
            && (d.rows[m].Live() ==> d.rows[m].owner in d.roots && Descend(d'.rows, d.roots[d.rows[m].owner], Path(d', m)) == Some(m))
  {
    hide Drive.WellFormed, Path, ValidName, Taken, Child, Under, Descend;
    MoveKeeps(d, n, parent);
    var d', name := Move(d, n, parent).value, d.rows[n].name;
    PathStep(d', n);
    PathsAfter(d, d', n, m);
    PathsAfter(d, d', n, parent);
    OnlyChild(d', n, parent, name);
    SameBeneath(d, d', n, m);
    UnderParent(d'.rows, n, parent);
    UnderSelf(d'.rows, parent);
    if Under(d'.rows, m, n) { UnderTransitive(d'.rows, m, n, parent); }
    if d.rows[m].Live() { PathResolves(d', m); }
  }

  /** What is beneath a node does not depend on where the node is. */
  lemma SameBeneath(d: Drive, d': Drive, n: Id, m: Id)
    requires d.WellFormed() && d'.WellFormed() && n in d.rows && n in d'.rows && m in d.rows && d'.rows == d.rows[n := d'.rows[n]]
    ensures Under(d'.rows, m, n) <==> Under(d.rows, m, n)
  {
    hide Drive.WellFormed, Under;
    if Under(d.rows, m, n) { BeneathStays(d, d', n, m); }
    assert d.rows == d'.rows[n := d.rows[n]];
    if Under(d'.rows, m, n) { BeneathStays(d', d, n, m); }
  }

  lemma BeneathStays(d: Drive, d': Drive, n: Id, m: Id)
    requires d.WellFormed() && n in d.rows && n in d'.rows && m in d.rows && d'.rows == d.rows[n := d'.rows[n]] && Under(d.rows, m, n)
    ensures Under(d'.rows, m, n)
  {
    hide Drive.WellFormed;
    var j: nat :| Up(d.rows, m, j) == Some(n);
    var first := FirstMeeting(d.rows, m, n, j);
    BelowReparented(d.rows, d'.rows, n, m, first, first);
  }

  // ----- delete, restore, purge, and new users

  /** Anything live but a root can be trashed. Exactly what was live beneath it goes, under one stamp newer than any before. */
  lemma DeleteExactly(d: Drive, n: Id, elapsed: nat)
    requires d.WellFormed()
    ensures Delete(d, n, elapsed).Ok? <==> LiveNode(d, n) && n !in d.roots.Values
    ensures Delete(d, n, elapsed).Ok? ==>
              var d' := Delete(d, n, elapsed).value;
              && d' == d.(rows := d'.rows, clock := d'.clock) && d'.rows.Keys == d.rows.Keys && d'.rows[n].Trashed()
              && forall m <- d.rows ::
                   && d'.rows[m] == d.rows[m].(deletedAt := d'.rows[m].deletedAt)
                   && (d'.rows[m].Live() <==> d.rows[m].Live() && !Under(d.rows, m, n))
                   && (d.rows[m].Live() && d'.rows[m].Trashed() ==> d'.rows[m].deletedAt == d'.rows[n].deletedAt)
                   && (d.rows[m].Trashed() ==> d'.rows[m] == d.rows[m] && d.rows[m].deletedAt.value < d'.rows[n].deletedAt.value)
  {
    hide Drive.WellFormed, Under;
    if n in d.rows { Look(d, n); }
    forall u | u in d.roots ensures RootOk(d.rows, d.roots, u) { LookRoot(d, u); }
    UnderSelf(d.rows, n);
    forall m | m in d.rows && d.rows[m].Trashed() ensures d.rows[m].deletedAt.value <= d.clock { Look(d, m); }
  }

  /** Where a trashed node goes back to: its folder while that is live, and otherwise the top of its owner's tree. */
  ghost predicate IsHome(d: Drive, n: Id, home: Id)
    requires n in d.rows
  {
    if d.rows[n].parent.Some? && LiveNode(d, d.rows[n].parent.value) then d.rows[n].parent == Some(home)
    else d.rows[n].owner in d.roots && home == d.roots[d.rows[n].owner]
  }

  /** A restore is refused for one reason only: something live has the name where the node would go. */
  lemma RestoreExactly(d: Drive, n: Id) returns (home: Id)
    requires d.WellFormed() && n in d.rows && d.rows[n].Trashed()
    ensures IsHome(d, n, home) && LiveNode(d, home) && !Under(d.rows, home, n)
    ensures Restore(d, n).Ok? <==> forall m <- Siblings(d.rows, home) :: d.rows[m].name != d.rows[n].name
    ensures Restore(d, n).Err? ==> Restore(d, n) == Err(NameTaken)
    ensures Restore(d, n).Ok? ==>
              var d' := Restore(d, n).value;
              && d' == d.(rows := d'.rows) && d'.rows.Keys == d.rows.Keys
              && d'.rows[n] == d.rows[n].(deletedAt := None, parent := Some(home))
              && forall m <- d.rows :: m != n ==>
                   d'.rows[m] == if Under(d.rows, m, n) && d.rows[m].deletedAt == d.rows[n].deletedAt then d.rows[m].(deletedAt := None) else d.rows[m]
  {
    hide Drive.WellFormed, Under;
    DestinationIsSafe(d, n);
    home := Destination(d, n).value;
    forall m | m in d.rows
      ensures IsLiveChild(d.rows, m, home, d.rows[n].name) <==> m in Siblings(d.rows, home) && d.rows[m].name == d.rows[n].name
    {
    }
    assert forall m :: IsLiveChild(d.rows, m, home, d.rows[n].name) ==> m != n;
  }

  /** The lifted node is back under its own name, with the names beneath it unchanged. */
  lemma RestoreReturns(d: Drive, n: Id, m: Id) returns (home: Id)
    requires d.WellFormed() && Restore(d, n).Ok? && m in d.rows
    ensures n in d.rows && IsHome(d, n, home)
    ensures var d' := Restore(d, n).value;
            && d'.WellFormed() && home in d.rows && m in d'.rows && Child(d'.rows, home, d.rows[n].name) == Some(n)
            && (Under(d.rows, m, n) ==>
                  Path(d, n) <= Path(d, m) && Path(d', m) == Path(d, home) + [d.rows[n].name] + Path(d, m)[|Path(d, n)|..])
            && (!Under(d.rows, m, n) ==> Path(d', m) == Path(d, m))
  {
    home := RestoreExactly(d, n);
    hide Drive.WellFormed, Path, Taken, Child, Under, Restore, Siblings;
    RestoreKeeps(d, n);
    var d' := Restore(d, n).value;
    PathStep(d', n);
    PathsAfter(d, d', n, m);
    PathsAfter(d, d', n, home);
    OnlyChild(d', n, home, d.rows[n].name);
  }

  /** Only what is in the trash can be destroyed, and then exactly what is beneath it. */
  lemma PurgeExactly(d: Drive, n: Id, m: Id)
    requires d.WellFormed()
    ensures Purge(d, n).Ok? <==> n in d.rows && d.rows[n].Trashed()
    ensures Purge(d, n).Ok? ==>
              var d' := Purge(d, n).value;
              && d' == d.(rows := d'.rows) && n !in d'.rows
              && (m in d'.rows <==> m in d.rows && !Under(d.rows, m, n))
              && (m in d'.rows ==> d.rows[m].owner in d.roots && d'.rows[m] == d.rows[m] && d'.WellFormed() && Path(d', m) == Path(d, m))
              && (m in d.rows && d.rows[m].Live() ==> m in d'.rows)
  {
    hide Drive.WellFormed, Under, Path;
    UnderSelf(d.rows, n);
    if Purge(d, n).Ok? {
      var d' := Purge(d, n).value;
      PurgeKeeps(d, n);
      if m in d.rows {
        Look(d, m);
        if d.rows[m].Live() && Under(d.rows, m, n) { LiveUnderLive(d, m, n); }
      }
      if m in d'.rows { PurgedPath(d, n, m); }
    }
  }

  lemma {:induction false} PurgedPath(d: Drive, n: Id, m: Id)
    requires d.WellFormed() && Purge(d, n).Ok? && m in Purge(d, n).value.rows && Purge(d, n).value.WellFormed()
    ensures Path(Purge(d, n).value, m) == Path(d, m)
    decreases |Above(d.rows, m)|
  {
    hide Drive.WellFormed, Under, Path, Above;
    var d' := Purge(d, n).value;
    if d.rows[m].parent.Some? {
      var p := d.rows[m].parent.value;
      StepUp(d, m);
      StepUp(d, p);
      StrictlyFewer(Above(d.rows, p), Above(d.rows, m));
      UnderParent(d.rows, m, n);
      PathStep(d, m);
      PathStep(d', m);
      PurgedPath(d, n, p);
    } else {
      TopPath(d, m);
      TopPath(d', m);
    }
  }

  /** A user gets a tree of their own, once. */
  lemma ProvisionExactly(d: Drive, u: UserId)
    requires d.WellFormed()
    ensures Provision(d, u).Ok? <==> u !in d.roots
    ensures Provision(d, u).Ok? ==>
              var d' := Provision(d, u).value;
              && d'.WellFormed() && d'.roots.Keys == d.roots.Keys + {u} && (forall w <- d.roots :: d'.roots[w] == d.roots[w])
              && d'.roots[u] !in d.rows && d'.rows.Keys == d.rows.Keys + {d'.roots[u]} && (forall m <- d.rows :: d'.rows[m] == d.rows[m])
              && LiveNode(d', d'.roots[u]) && d'.rows[d'.roots[u]].owner == u && Path(d', d'.roots[u]) == []
  {
    hide Drive.WellFormed, Path;
    FreshId(d);
    if u !in d.roots {
      ProvisionKeeps(d, u);
      LookRoot(Provision(d, u).value, u);
      TopPath(Provision(d, u).value, Provision(d, u).value.roots[u]);
    }
  }

  // ----- depth

  /** How deep a node is: as many ancestors as names on its path. */
  lemma {:induction false} DepthIsPathLength(d: Drive, n: Id)
    requires d.WellFormed() && n in d.rows
    ensures |Above(d.rows, n)| == |Path(d, n)|
    decreases |Above(d.rows, n)|
  {
    hide Drive.WellFormed, Path, Under, Above;
    StepUp(d, n);
    if d.rows[n].parent.Some? {
      var p := d.rows[n].parent.value;
      StepUp(d, p);
      StrictlyFewer(Above(d.rows, p), Above(d.rows, n));
      DepthIsPathLength(d, p);
      PathStep(d, n);
    } else {
      TopPath(d, n);
    }
  }
}
