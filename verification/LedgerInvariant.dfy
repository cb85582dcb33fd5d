/** The buckets always agree with the rows, so no clamp ever takes effect. */
module LedgerInvariant {
  import opened Prelude
  import Framing
  import opened Tree
  import opened TreeInvariant
  import Trash
  import opened Sums
  import opened Ledger

  lemma See(b: Books, u: UserId)
    requires Sound(b) && u in b.drive.roots
    ensures Balanced(b, u)
  {
    hide Drive.WellFormed, Balanced, VersionOk, FileOk;
  }

  lemma SeeVersion(b: Books, x: Id)
    requires Sound(b) && x in b.versions
    ensures VersionOk(b, x)
  {
    hide Drive.WellFormed, Balanced, VersionOk, FileOk;
  }

  lemma SeeFile(b: Books, n: Id)
    requires Sound(b) && n in b.drive.rows
    ensures FileOk(b, n)
  {
    hide Drive.WellFormed, Balanced, VersionOk, FileOk;
  }

  lemma DriveOf(b: Books)
    requires Sound(b)
    ensures b.drive.WellFormed() && b.retention >= 1
  {
  }

  lemma OwnerIsUser(b: Books, n: Id)
    requires Sound(b) && n in b.drive.rows
    ensures b.drive.rows[n].owner in b.drive.roots
  {
    DriveOf(b);
    Look(b.drive, n);
  }

  // ----- steps that touch no content

  /** Nothing about content changed: same files with the same state and size, new rows empty. */
  ghost predicate Quiet(d: Drive, d': Drive) {
    && d.rows.Keys <= d'.rows.Keys && d.nextId <= d'.nextId && d.roots.Keys <= d'.roots.Keys
    && (forall n {:trigger d'.rows[n]} :: n in d.rows ==>
          d'.rows[n].owner == d.rows[n].owner && d'.rows[n].kind == d.rows[n].kind && d'.rows[n].deletedAt == d.rows[n].deletedAt
          && d'.rows[n].size == d.rows[n].size && d'.rows[n].current == d.rows[n].current)
    && (forall n {:trigger d'.rows[n]} :: n in d'.rows && n !in d.rows ==>
          d'.rows[n].size == 0 && d'.rows[n].current.None? && d'.rows[n].Live())
  }

  lemma QuietTotals(d: Drive, d': Drive, u: UserId, live: bool)
    requires Quiet(d, d')
    ensures Sums.Total(Sizes(d'.rows), Files(d'.rows, u, live)) == Sums.Total(Sizes(d.rows), Files(d.rows, u, live))
  {
    var before, after := Files(d.rows, u, live), Files(d'.rows, u, live);
    assert before <= after;
    TotalDifference(Sizes(d'.rows), after, after - before);
    TotalZero(Sizes(d'.rows), after - before);
    assert after - (after - before) == before;
    TotalAgree(Sizes(d.rows), Sizes(d'.rows), before);
  }

  lemma QuietKeeps(b: Books, d': Drive)
    requires Sound(b) && d'.WellFormed() && Quiet(b.drive, d') && d'.roots.Keys == b.drive.roots.Keys
    ensures Sound(b.(drive := d'))
  {
    hide Drive.WellFormed;
    var b' := b.(drive := d');
    forall x | x in b'.versions
      ensures VersionOk(b', x)
    {
      SeeVersion(b, x);
    }
    forall n | n in d'.rows
      ensures FileOk(b', n)
    {
      if n in b.drive.rows { SeeFile(b, n); }
    }
    forall u | u in d'.roots
      ensures Balanced(b', u)
    {
      See(b, u);
      QuietBalance(b, d', u);
    }
  }

  lemma QuietBalance(b: Books, d': Drive, u: UserId)
    requires Sound(b) && Quiet(b.drive, d') && Balanced(b, u)
    ensures Balanced(b.(drive := d'), u)
  {
    hide Drive.WellFormed;
    QuietTotals(b.drive, d', u, true);
    QuietTotals(b.drive, d', u, false);
    forall x | x in b.versions
      ensures IsCurrent(b.(drive := d'), x) == IsCurrent(b, x)
    {
      SeeVersion(b, x);
    }
    assert History(b.(drive := d'), u) == History(b, u);
  }

  lemma JoinKeeps(b: Books, u: UserId, quota: nat)
    requires Sound(b) && Ledger.Apply(b, Join(u, quota)).Ok?
    ensures Sound(Ledger.Apply(b, Join(u, quota)).value)
  {
    hide Drive.WellFormed, Sums.Total;
    var b', d' := Ledger.Apply(b, Join(u, quota)).value, Provision(b.drive, u).value;
    DriveOf(b);
    ProvisionKeeps(b.drive, u);
    FreshId(b.drive);
    assert Quiet(b.drive, d');
    forall x | x in b'.versions
      ensures VersionOk(b', x)
    {
      SeeVersion(b, x);
    }
    forall n | n in d'.rows
      ensures FileOk(b', n)
    {
      if n in b.drive.rows { SeeFile(b, n); }
    }
    forall v | v in d'.roots
      ensures Balanced(b', v)
    {
      if v == u {
        NewUserBalanced(b, u, quota);
      } else {
        See(b, v);
        QuietBalance(b, d', v);
        assert History(b', v) == History(b.(drive := d'), v);
      }
    }
  }

  lemma NewUserBalanced(b: Books, u: UserId, quota: nat)
    requires Sound(b) && Ledger.Apply(b, Join(u, quota)).Ok?
    ensures Balanced(Ledger.Apply(b, Join(u, quota)).value, u)
  {
    hide Drive.WellFormed;
    var b', d' := Ledger.Apply(b, Join(u, quota)).value, Provision(b.drive, u).value;
    forall n | n in b.drive.rows
      ensures b.drive.rows[n].owner != u
    {
      OwnerIsUser(b, n);
    }
    forall x | x in b.versions
      ensures b.versions[x].owner != u
    {
      SeeVersion(b, x);
    }
    assert Files(d'.rows, u, true) == {} && Files(d'.rows, u, false) == {} && History(b', u) == {};
  }

  lemma CreateIsQuiet(b: Books, parent: Id, name: string, kind: Kind, encrypted: bool, reserved: bool)
    requires Sound(b) && Create(b.drive, parent, name, kind, encrypted, reserved).Ok?
    ensures Sound(b.(drive := Create(b.drive, parent, name, kind, encrypted, reserved).value))
  {
    hide Drive.WellFormed, ValidName, Taken, Sums.Total;
    var d' := Create(b.drive, parent, name, kind, encrypted, reserved).value;
    DriveOf(b);
    CreateKeeps(b.drive, parent, name, kind, encrypted, reserved);
    FreshId(b.drive);
    QuietKeeps(b, d');
  }

  lemma RenameIsQuiet(b: Books, n: Id, name: string)
    requires Sound(b) && Rename(b.drive, n, name).Ok?
    ensures Sound(b.(drive := Rename(b.drive, n, name).value))
  {
    hide Drive.WellFormed, ValidName, Taken, Sums.Total;
    DriveOf(b);
    RenameKeeps(b.drive, n, name);
    QuietKeeps(b, Rename(b.drive, n, name).value);
  }

  lemma MoveIsQuiet(b: Books, n: Id, parent: Id)
    requires Sound(b) && Move(b.drive, n, parent).Ok?
    ensures Sound(b.(drive := Move(b.drive, n, parent).value))
  {
    hide Drive.WellFormed, ValidName, Taken, Under, Sums.Total;
    DriveOf(b);
    MoveKeeps(b.drive, n, parent);
    QuietKeeps(b, Move(b.drive, n, parent).value);
  }

  // ----- trash

  /** Everything beneath a node belongs to the node's owner. */
  lemma UnderSameOwner(d: Drive, m: Id, n: Id)
    requires d.WellFormed() && m in d.rows && Under(d.rows, m, n)
    ensures n in d.rows && d.rows[m].owner == d.rows[n].owner
  {
    var k: nat :| Up(d.rows, m, k) == Some(n);
    ChainStaysInside(d.rows, m, k);
  }

  /** Rows may change state and place, and nothing else. */
  ghost predicate OnlyStates(rows: Rows, rows': Rows) {
    && rows.Keys == rows'.Keys
    && forall n {:trigger rows'[n]} :: n in rows ==>
         rows'[n] == rows[n].(deletedAt := rows'[n].deletedAt, parent := rows'[n].parent)
  }

  /** For user `v`, exactly the files `moved`, all of them `owner`'s, changed between live and trashed. */
  ghost predicate Shifted(rows: Rows, rows': Rows, owner: UserId, moved: set<Id>, toTrash: bool, v: UserId) {
    && moved <= Files(rows, owner, toTrash)
    && Files(rows', v, toTrash) == Files(rows, v, toTrash) - moved
    && Files(rows', v, !toTrash) == if v == owner then Files(rows, v, !toTrash) + moved else Files(rows, v, !toTrash)
  }

  lemma ShiftedTotals(rows: Rows, rows': Rows, owner: UserId, moved: set<Id>, toTrash: bool, v: UserId)
    requires OnlyStates(rows, rows') && Shifted(rows, rows', owner, moved, toTrash, v)
    ensures var bytes := if v == owner then Sums.Total(Sizes(rows), moved) else 0;
            && Sums.Total(Sizes(rows'), Files(rows', v, toTrash)) == Sums.Total(Sizes(rows), Files(rows, v, toTrash)) - bytes
            && Sums.Total(Sizes(rows'), Files(rows', v, !toTrash)) == Sums.Total(Sizes(rows), Files(rows, v, !toTrash)) + bytes
  {
    var w := Sizes(rows);
    assert Sizes(rows') == w;
    if v == owner {
      TotalDifference(w, Files(rows, v, toTrash), moved);
      assert Files(rows, v, !toTrash) !! moved;
      TotalUnion(w, Files(rows, v, !toTrash), moved);
    } else {
      assert Files(rows, v, toTrash) - moved == Files(rows, v, toTrash);
    }
  }

  /** Row by row: the files in `moved` changed state, the others did not. */
  lemma StatesOf(rows: Rows, rows': Rows, owner: UserId, moved: set<Id>, toTrash: bool, v: UserId)
    requires OnlyStates(rows, rows') && moved <= Files(rows, owner, toTrash)
    requires forall m {:trigger rows'[m]} :: m in rows && rows[m].kind == File ==>
               rows'[m].Live() == if m in moved then !toTrash else rows[m].Live()
    ensures Shifted(rows, rows', owner, moved, toTrash, v)
  {
  }

  lemma StatesKeepHistory(b: Books, b': Books, u: UserId)
    requires Sound(b) && OnlyStates(b.drive.rows, b'.drive.rows) && b'.versions == b.versions
    ensures History(b', u) == History(b, u)
  {
    hide Drive.WellFormed;
    forall x | x in b.versions
      ensures IsCurrent(b', x) == IsCurrent(b, x)
    {
      SeeVersion(b, x);
    }
  }

  /** Moving files between the live and the trashed state moves their bytes between the owner's buckets only. */
  lemma StatesBalance(b: Books, b': Books, owner: UserId, moved: set<Id>, toTrash: bool, u: UserId)
    requires Sound(b) && OnlyStates(b.drive.rows, b'.drive.rows) && b'.versions == b.versions && b'.quota == b.quota
    requires Shifted(b.drive.rows, b'.drive.rows, owner, moved, toTrash, u)
    requires Balanced(b, u) && owner in b.usage
    requires var bytes := Sums.Total(Sizes(b.drive.rows), moved);
             b'.usage == b.usage[owner := if toTrash then b.usage[owner].MoveToTrash(bytes) else b.usage[owner].RestoreFromTrash(bytes)]
    ensures Balanced(b', u)
    ensures u == owner ==>
              Sums.Total(Sizes(b.drive.rows), moved) <= if toTrash then b.usage[owner].live else b.usage[owner].trashed
  {
    hide Drive.WellFormed, Files, Sums.Total, Sizes, History, VersionSizes;
    ShiftedTotals(b.drive.rows, b'.drive.rows, owner, moved, toTrash, u);
    StatesKeepHistory(b, b', u);
  }

  lemma StatesKeepFiles(b: Books, b': Books)
    requires Sound(b) && OnlyStates(b.drive.rows, b'.drive.rows) && b'.versions == b.versions && b'.drive.nextId == b.drive.nextId
    ensures forall x {:trigger VersionOk(b', x)} :: x in b'.versions ==> VersionOk(b', x)
    ensures forall n {:trigger FileOk(b', n)} :: n in b'.drive.rows ==> FileOk(b', n)
  {
    hide Drive.WellFormed;
    forall x | x in b'.versions
      ensures VersionOk(b', x)
    {
      SeeVersion(b, x);
    }
    forall n | n in b'.drive.rows
      ensures FileOk(b', n)
    {
      SeeFile(b, n);
    }
  }

  lemma DeleteMoves(b: Books, n: Id, elapsed: nat, v: UserId)
    requires Sound(b) && DeleteNode(b, n, elapsed).Ok?
    ensures var rows, rows' := b.drive.rows, DeleteNode(b, n, elapsed).value.drive.rows;
            OnlyStates(rows, rows') && Shifted(rows, rows', rows[n].owner, FilesIn(rows, LiveUnder(rows, n)), true, v)
  {
    hide Drive.WellFormed, Under, Sums.Total;
    DriveOf(b);
    forall m | m in LiveUnder(b.drive.rows, n)
      ensures b.drive.rows[m].owner == b.drive.rows[n].owner
    {
      UnderSameOwner(b.drive, m, n);
    }
    var rows, rows' := b.drive.rows, DeleteNode(b, n, elapsed).value.drive.rows;
    var owner, moved := rows[n].owner, FilesIn(rows, LiveUnder(rows, n));
    StatesOf(rows, rows', owner, moved, true, v);
  }

  lemma DeleteNodeKeeps(b: Books, n: Id, elapsed: nat)
    requires Sound(b) && DeleteNode(b, n, elapsed).Ok?
    ensures Sound(DeleteNode(b, n, elapsed).value)
    ensures FileBytes(b.drive.rows, LiveUnder(b.drive.rows, n)) <= UsageOf(b, b.drive.rows[n].owner).live
  {
    hide Drive.WellFormed, Files, FilesIn, Stamp, Sums.Total, Sizes, LiveUnder, Balanced, Shifted, OnlyStates, VersionOk, FileOk;
    var b', owner := DeleteNode(b, n, elapsed).value, b.drive.rows[n].owner;
    DriveOf(b);
    DeleteKeeps(b.drive, n, elapsed);
    DeleteMoves(b, n, elapsed, owner);
    StatesKeepFiles(b, b');
    OwnerIsUser(b, n);
    See(b, owner);
    HasUsage(b, owner);
    forall u | u in b'.drive.roots
      ensures Balanced(b', u)
    {
      See(b, u);
      DeleteMoves(b, n, elapsed, u);
      StatesBalance(b, b', owner, FilesIn(b.drive.rows, LiveUnder(b.drive.rows, n)), true, u);
    }
    StatesBalance(b, b', owner, FilesIn(b.drive.rows, LiveUnder(b.drive.rows, n)), true, owner);
  }

  lemma HasUsage(b: Books, u: UserId)
    requires Balanced(b, u)
    ensures u in b.usage && u in b.quota
  {
  }

  lemma RestoreMoves(b: Books, n: Id, v: UserId)
    requires Sound(b) && RestoreNode(b, n).Ok?
    ensures var rows, rows' := b.drive.rows, RestoreNode(b, n).value.drive.rows;
            OnlyStates(rows, rows') && Shifted(rows, rows', rows[n].owner, FilesIn(rows, BatchUnder(rows, n)), false, v)
  {
    hide Drive.WellFormed, Under, Sums.Total, Taken, Destination;
    DriveOf(b);
    UnderSelf(b.drive.rows, n);
    forall m | m in BatchUnder(b.drive.rows, n)
      ensures b.drive.rows[m].owner == b.drive.rows[n].owner
    {
      UnderSameOwner(b.drive, m, n);
    }
    var rows, rows' := b.drive.rows, RestoreNode(b, n).value.drive.rows;
    var owner, moved := rows[n].owner, FilesIn(rows, BatchUnder(rows, n));
    StatesOf(rows, rows', owner, moved, false, v);
  }

  lemma RestoreNodeKeeps(b: Books, n: Id)
    requires Sound(b) && RestoreNode(b, n).Ok?
    ensures Sound(RestoreNode(b, n).value)
    ensures FileBytes(b.drive.rows, BatchUnder(b.drive.rows, n)) <= UsageOf(b, b.drive.rows[n].owner).trashed
  {
    hide Drive.WellFormed, Files, FilesIn, Stamp, Sums.Total, Sizes, BatchUnder, Balanced, Taken, Destination, Shifted, OnlyStates, VersionOk, FileOk;
    var b', owner := RestoreNode(b, n).value, b.drive.rows[n].owner;
    DriveOf(b);
    RestoreKeeps(b.drive, n);
    RestoreMoves(b, n, owner);
    StatesKeepFiles(b, b');
    OwnerIsUser(b, n);
    See(b, owner);
    HasUsage(b, owner);
    forall u | u in b'.drive.roots
      ensures Balanced(b', u)
    {
      See(b, u);
      RestoreMoves(b, n, u);
      StatesBalance(b, b', owner, FilesIn(b.drive.rows, BatchUnder(b.drive.rows, n)), false, u);
    }
    StatesBalance(b, b', owner, FilesIn(b.drive.rows, BatchUnder(b.drive.rows, n)), false, owner);
  }

  // ----- purge

  /** A subtree's rows are all trashed and all the owner's, and its folders weigh nothing. */
  lemma SubtreeBytes(b: Books, n: Id)
    requires Sound(b) && n in b.drive.rows && b.drive.rows[n].Trashed()
    ensures var rows := b.drive.rows;
            var gone := Subtree(rows, n);
            && FilesIn(rows, gone) <= Files(rows, rows[n].owner, false)
            && Sums.Total(Sizes(rows), gone) == Sums.Total(Sizes(rows), FilesIn(rows, gone))
  {
    hide Drive.WellFormed, Under;
    DriveOf(b);
    AcyclicOf(b.drive);
    var rows, gone := b.drive.rows, Subtree(b.drive.rows, n);
    forall m | m in gone
      ensures rows[m].owner == rows[n].owner && rows[m].Trashed() && (rows[m].kind == Folder ==> rows[m].size == 0)
    {
      UnderSameOwner(b.drive, m, n);
      UnderTrashed(rows, m, n);
      Look(b.drive, m);
    }
    TotalDifference(Sizes(rows), gone, FilesIn(rows, gone));
    TotalZero(Sizes(rows), gone - FilesIn(rows, gone));
  }

  lemma RemovedTotals(rows: Rows, gone: set<Id>, owner: UserId, u: UserId)
    requires FilesIn(rows, gone) <= Files(rows, owner, false)
    ensures var rows' := rows - gone;
            var bytes := if u == owner then Sums.Total(Sizes(rows), FilesIn(rows, gone)) else 0;
            && Sums.Total(Sizes(rows'), Files(rows', u, true)) == Sums.Total(Sizes(rows), Files(rows, u, true))
            && Sums.Total(Sizes(rows'), Files(rows', u, false)) == Sums.Total(Sizes(rows), Files(rows, u, false)) - bytes
  {
    var rows' := rows - gone;
    var before := Files(rows, u, false);
    forall m | m in gone && m in rows && rows[m].kind == File
      ensures rows[m].owner == owner && rows[m].Trashed()
    {
      assert m in FilesIn(rows, gone);
    }
    assert Files(rows', u, true) == Files(rows, u, true);
    TotalAgree(Sizes(rows), Sizes(rows'), Files(rows, u, true));
    var lost := if u == owner then FilesIn(rows, gone) else {};
    assert Files(rows', u, false) == before - lost;
    TotalDifference(Sizes(rows), before, lost);
    TotalAgree(Sizes(rows), Sizes(rows'), before - lost);
  }

  lemma RemovedHistory(b: Books, n: Id, u: UserId)
    requires Sound(b) && PurgeNode(b, n).Ok?
    ensures var b' := PurgeNode(b, n).value;
            Sums.Total(VersionSizes(b'.versions), History(b', u)) <= Sums.Total(VersionSizes(b.versions), History(b, u))
  {
    hide Drive.WellFormed, Under;
    var b' := PurgeNode(b, n).value;
    forall x | x in b'.versions
      ensures IsCurrent(b', x) == IsCurrent(b, x)
    {
      SeeVersion(b, x);
    }
    assert History(b', u) <= History(b, u);
    TotalDifference(VersionSizes(b.versions), History(b, u), History(b', u));
    TotalAgree(VersionSizes(b.versions), VersionSizes(b'.versions), History(b', u));
  }

  lemma PurgeNodeBalance(b: Books, n: Id, u: UserId)
    requires Sound(b) && PurgeNode(b, n).Ok? && u in b.drive.roots
    ensures Balanced(PurgeNode(b, n).value, u)
    ensures Sums.Total(Sizes(b.drive.rows), Subtree(b.drive.rows, n)) <= UsageOf(b, b.drive.rows[n].owner).trashed
  {
    hide Drive.WellFormed, Under, Files, Sums.Total, Sizes, History, VersionSizes, Subtree, FilesIn;
    var rows, owner := b.drive.rows, b.drive.rows[n].owner;
    SubtreeBytes(b, n);
    OwnerIsUser(b, n);
    See(b, u);
    See(b, owner);
    RemovedTotals(rows, Subtree(rows, n), owner, u);
    RemovedTotals(rows, Subtree(rows, n), owner, owner);
    RemovedHistory(b, n, u);
  }

  lemma PurgeNodeKeeps(b: Books, n: Id)
    requires Sound(b) && PurgeNode(b, n).Ok?
    ensures Sound(PurgeNode(b, n).value)
  {
    hide Drive.WellFormed, Under, Balanced, Sums.Total, Sizes;
    var b' := PurgeNode(b, n).value;
    DriveOf(b);
    PurgeKeeps(b.drive, n);
    forall x | x in b'.versions
      ensures VersionOk(b', x)
    {
      SeeVersion(b, x);
    }
    forall m | m in b'.drive.rows
      ensures FileOk(b', m)
    {
      SeeFile(b, m);
    }
    forall u | u in b'.drive.roots
      ensures Balanced(b', u)
    {
      PurgeNodeBalance(b, n, u);
    }
  }

  // ----- writing a version

  lemma ContentKeepsDrive(d: Drive, n: Id, version: Id, size: nat)
    requires d.WellFormed() && n in d.rows && d.rows[n].kind == File
    ensures d.(rows := d.rows[n := d.rows[n].(current := Some(version), size := size)], nextId := d.nextId + 1).WellFormed()
  {
    hide Up, Under, Acyclic, ValidName, Drive.WellFormed;
    var d' := d.(rows := d.rows[n := d.rows[n].(current := Some(version), size := size)], nextId := d.nextId + 1);
    assert Acyclic(d'.rows) by { AcyclicOf(d); SameParentsSameTree(d.rows, d'.rows); }
    forall m | m in d'.rows
      ensures EdgeOk(d'.rows, m) && OwnerOk(d'.rows, d'.roots, m) && RowOk(d', m)
    {
      Look(d, m);
    }
    forall u | u in d'.roots
      ensures RootOk(d'.rows, d'.roots, u)
    {
      LookRoot(d, u);
    }
    AcyclicOf(d);
    forall x, y | x in d'.rows && y in d'.rows && Rivals(d'.rows, x, y)
      ensures d'.rows[x].name != d'.rows[y].name
    {
      assert Rivals(d.rows, x, y);
    }
    Assemble(d');
  }

  /** One write, spelled out: the version rows before pruning, what is pruned, and the resulting books. */
  datatype Write = Write(before: Books, node: Id, version: Version) {
    function Row(): Row
      requires node in before.drive.rows
    {
      before.drive.rows[node]
    }

    function NewId(): Id { before.drive.nextId }

    function Added(): Versions { before.versions[NewId() := version] }

    function Pruned(): set<Id> { Doomed(Added(), node, before.retention) }

    /** Conditions under which `StoreVersion` writes this version. */
    ghost predicate Fits() {
      && Sound(before) && LiveNode(before.drive, node) && Row().kind == File
      && version.node == node && version.owner == Row().owner && version.sequence == NextSequence(before.versions, node)
    }
  }

  lemma NewVersionSurvives(w: Write)
    requires w.Fits()
    ensures w.NewId() !in w.before.versions && w.NewId() !in w.Pruned()
  {
    hide Drive.WellFormed, Balanced;
    forall x | x in w.before.versions
      ensures x != w.NewId()
    {
      SeeVersion(w.before, x);
    }
    assert Newer(w.Added(), w.NewId()) == {};
  }

  /** After the write, history is the old history and the superseded version, less what was pruned. */
  lemma HistoryAfterWrite(w: Write, after: Books, u: UserId)
    requires w.Fits()
    requires after.versions == w.Added() - w.Pruned()
    requires after.drive.rows == w.before.drive.rows[w.node := w.Row().(current := Some(w.NewId()), size := w.version.size)]
    ensures var past := if u == w.Row().owner && w.Row().current.Some? then History(w.before, u) + {w.Row().current.value} else History(w.before, u);
            && past <= w.before.versions.Keys
            && History(after, u) == past - w.Pruned()
            && (u == w.Row().owner ==> w.Pruned() <= past)
            && (u != w.Row().owner ==> past !! w.Pruned())
  {
    hide Drive.WellFormed, Balanced, Doomed, NextSequence;
    NewVersionSurvives(w);
    SeeFile(w.before, w.node);
    PrunedAreOwn(w);
    forall x | x in w.before.versions
      ensures VersionOk(w.before, x)
    {
      SeeVersion(w.before, x);
    }
  }

  lemma PrunedAreOwn(w: Write)
    requires w.Fits()
    ensures forall x <- w.Pruned() :: x in w.before.versions && w.before.versions[x].node == w.node && w.before.versions[x].owner == w.Row().owner
  {
    hide Drive.WellFormed, Balanced;
    NewVersionSurvives(w);
    forall x | x in w.Pruned()
      ensures x in w.before.versions && w.before.versions[x].node == w.node && w.before.versions[x].owner == w.Row().owner
    {
      assert x in w.Added() && x != w.NewId();
      SeeVersion(w.before, x);
    }
  }

  lemma HistoryBytesAfterWrite(w: Write, after: Books, u: UserId)
    requires w.Fits()
    requires after.versions == w.Added() - w.Pruned()
    requires after.drive.rows == w.before.drive.rows[w.node := w.Row().(current := Some(w.NewId()), size := w.version.size)]
    ensures w.Pruned() <= w.Added().Keys
    ensures var past := Sums.Total(VersionSizes(w.before.versions), History(w.before, u));
            var kept := Sums.Total(VersionSizes(after.versions), History(after, u));
            if u == w.Row().owner then
              kept + Sums.Total(VersionSizes(w.Added()), w.Pruned()) == past + (if w.Row().current.Some? then w.Row().size else 0)
            else kept == past
  {
    hide Drive.WellFormed, Balanced, Doomed, NextSequence;
    HistoryAfterWrite(w, after, u);
    NewVersionSurvives(w);
    PrunedAreOwn(w);
    SeeFile(w.before, w.node);
    var before, all, row := w.before, VersionSizes(w.Added()), w.Row();
    var own := u == row.owner && row.current.Some?;
    var past := if own then History(before, u) + {row.current.value} else History(before, u);
    if own {
      TotalAdd(VersionSizes(before.versions), History(before, u), row.current.value);
    }
    TotalAgree(VersionSizes(before.versions), all, past);
    TotalAgree(all, VersionSizes(after.versions), History(after, u));
    if u == row.owner {
      TotalDifference(all, past, w.Pruned());
    } else {
      assert past - w.Pruned() == past;
    }
  }

  lemma {:induction false} TotalUpdate(w: Weights, s: set<nat>, x: nat, value: nat)
    requires s <= w.Keys && x in s
    ensures Sums.Total(w[x := value], s) == Sums.Total(w, s) - w[x] + value
  {
    TotalRemove(w, s, x);
    TotalRemove(w[x := value], s, x);
    TotalAgree(w, w[x := value], s - {x});
  }

  lemma LiveBytesAfterWrite(rows: Rows, n: Id, version: Id, size: nat, u: UserId)
    requires n in rows && rows[n].kind == File && rows[n].Live()
    ensures var rows' := rows[n := rows[n].(current := Some(version), size := size)];
            && Sums.Total(Sizes(rows'), Files(rows', u, true))
               == Sums.Total(Sizes(rows), Files(rows, u, true)) + (if u == rows[n].owner then size - rows[n].size else 0)
            && Sums.Total(Sizes(rows'), Files(rows', u, false)) == Sums.Total(Sizes(rows), Files(rows, u, false))
            && (u == rows[n].owner ==> rows[n].size <= Sums.Total(Sizes(rows), Files(rows, u, true)))
  {
    var rows' := rows[n := rows[n].(current := Some(version), size := size)];
    assert Files(rows', u, true) == Files(rows, u, true) && Files(rows', u, false) == Files(rows, u, false);
    assert Sizes(rows') == Sizes(rows)[n := size];
    TotalAgree(Sizes(rows), Sizes(rows'), Files(rows, u, false));
    if u == rows[n].owner {
      TotalUpdate(Sizes(rows), Files(rows, u, true), n, size);
      TotalRemove(Sizes(rows), Files(rows, u, true), n);
    } else {
      TotalAgree(Sizes(rows), Sizes(rows'), Files(rows, u, true));
    }
  }

  /** Everything one accepted write does to the books. */
  lemma StoreIsWrite(b: Books, n: Id, size: nat, digest: Digest, encrypted: bool, sealId: Option<Id>)
    requires Sound(b) && StoreVersion(b, n, size, digest, encrypted, sealId).Ok?
    ensures var after, row := StoreVersion(b, n, size, digest, encrypted, sealId).value, b.drive.rows[n];
            var w := Write(b, n, after.versions[b.drive.nextId]);
            && b.drive.nextId in after.versions && w.Fits() && w.version.size == size
            && w.version == Version(n, row.owner, NextSequence(b.versions, n), size, digest, encrypted,
                                    if sealId.Some? then sealId.value else b.drive.nextId)
            && after.versions == w.Added() - w.Pruned()
            && after.drive == b.drive.(rows := b.drive.rows[n := row.(current := Some(w.NewId()), size := size)], nextId := w.NewId() + 1)
            && row.owner in b.usage && row.owner in b.quota && after.quota == b.quota && after.retention == b.retention
            && w.Pruned() <= w.Added().Keys
            && after.usage == b.usage[row.owner :=
                 Superseded(b.usage[row.owner], row).ChargeLive(size).ChargeVersions(0 - Sums.Total(VersionSizes(w.Added()), w.Pruned()))]
            && !Superseded(b.usage[row.owner], row).WouldExceed(b.quota[row.owner], size)
  {
    hide Drive.WellFormed, Balanced, Doomed, NextSequence, VersionOk, FileOk, Usage.ChargeLive, Usage.ChargeVersions, Sums.Total;
    var row, v := b.drive.rows[n], b.drive.nextId;
    var version := Version(n, row.owner, NextSequence(b.versions, n), size, digest, encrypted, if sealId.Some? then sealId.value else v);
    var w := Write(b, n, version);
    KnownOwner(b, n);
    NewVersionSurvives(w);
    PrunedAreOwn(w);
  }

  /** Every owner has a quota record, so every write is charged. */
  lemma KnownOwner(b: Books, n: Id)
    requires Sound(b) && n in b.drive.rows
    ensures Known(b, b.drive.rows[n].owner)
  {
    hide Drive.WellFormed, VersionOk, FileOk;
    OwnerIsUser(b, n);
    See(b, b.drive.rows[n].owner);
  }

  /** The write's arithmetic: the clamps are idle, the buckets stay balanced and the total stays within quota. */
  lemma WriteBalance(b: Books, n: Id, size: nat, digest: Digest, encrypted: bool, sealId: Option<Id>, u: UserId)
    requires Sound(b) && StoreVersion(b, n, size, digest, encrypted, sealId).Ok? && u in b.drive.roots
    ensures Balanced(StoreVersion(b, n, size, digest, encrypted, sealId).value, u)
  {
    hide Drive.WellFormed, Files, Sums.Total, Sizes, History, VersionSizes, Doomed, NextSequence, StoreVersion, VersionOk, Sound;
    var after := StoreVersion(b, n, size, digest, encrypted, sealId).value;
    StoreIsWrite(b, n, size, digest, encrypted, sealId);
    var w := Write(b, n, after.versions[b.drive.nextId]);
    See(b, u);
    SeeFile(b, n);
    LiveBytesAfterWrite(b.drive.rows, n, w.NewId(), size, u);
    HistoryBytesAfterWrite(w, after, u);
  }

  lemma StoreKeeps(b: Books, n: Id, size: nat, digest: Digest, encrypted: bool, sealId: Option<Id>)
    requires Sound(b) && StoreVersion(b, n, size, digest, encrypted, sealId).Ok?
    ensures Sound(StoreVersion(b, n, size, digest, encrypted, sealId).value)
  {
    hide Drive.WellFormed, Balanced, Doomed, StoreVersion, Sums.Total, VersionSizes;
    var after := StoreVersion(b, n, size, digest, encrypted, sealId).value;
    StoreIsWrite(b, n, size, digest, encrypted, sealId);
    var w := Write(b, n, after.versions[b.drive.nextId]);
    DriveOf(b);
    ContentKeepsDrive(b.drive, n, w.NewId(), size);
    NewVersionSurvives(w);
    PrunedAreOwn(w);
    forall x | x in after.versions
      ensures VersionOk(after, x)
    {
      if x != w.NewId() { SeeVersion(b, x); }
    }
    forall m | m in after.drive.rows
      ensures FileOk(after, m)
    {
      SeeFile(b, m);
    }
    forall u | u in after.drive.roots
      ensures Balanced(after, u)
    {
      WriteBalance(b, n, size, digest, encrypted, sealId, u);
    }
  }

  lemma ReplaceKeeps(b: Books, n: Id, content: seq<Framing.byte>)
    requires Sound(b) && Replace(b, n, content).Ok?
    ensures Sound(Replace(b, n, content).value)
  {
    hide StoreVersion, Sound;
    StoreKeeps(b, n, |content|, Sha256(content), b.drive.rows[n].encrypted, None);
  }

  lemma UploadKeeps(b: Books, parent: Id, name: string, encrypted: bool, content: seq<Framing.byte>)
    requires Sound(b) && Upload(b, parent, name, encrypted, content).Ok?
    ensures Sound(Upload(b, parent, name, encrypted, content).value)
  {
    hide Replace, Sound, Create, ChildNamed;
    match ChildNamed(b.drive.rows, parent, name)
    case Some(m) => ReplaceKeeps(b, m, content);
    case None =>
      CreateIsQuiet(b, parent, name, File, encrypted, false);
      ReplaceKeeps(b.(drive := Create(b.drive, parent, name, File, encrypted, false).value), b.drive.nextId, content);
  }

  lemma RestoreVersionKeeps(b: Books, n: Id, x: Id)
    requires Sound(b) && RestoreVersion(b, n, x).Ok?
    ensures Sound(RestoreVersion(b, n, x).value)
  {
    hide StoreVersion, Sound;
    var source := b.versions[x];
    StoreKeeps(b, n, source.size, source.digest, source.encrypted, Some(source.sealId));
  }

  // ----- whole runs

  lemma LedgerStepKeeps(b: Books, op: Ledger.Op)
    requires Sound(b)
    ensures Sound(Ledger.Step(b, op))
  {
    hide Sound, Provision, Create, Rename, Move, Upload, Replace, RestoreVersion, DeleteNode, RestoreNode, PurgeNode;
    if Ledger.Apply(b, op).Ok? {
      match op
      case Join(u, quota) => JoinKeeps(b, u, quota);
      case MakeFolder(p, name) => CreateIsQuiet(b, p, name, Folder, false, true);
      case PutFile(p, name, encrypted, content) => UploadKeeps(b, p, name, encrypted, content);
      case PutContent(n, content) => ReplaceKeeps(b, n, content);
      case BringBack(n, x) => RestoreVersionKeeps(b, n, x);
      case GiveName(n, name) => RenameIsQuiet(b, n, name);
      case Relocate(n, p) => MoveIsQuiet(b, n, p);
      case ToTrash(n, elapsed) => DeleteNodeKeeps(b, n, elapsed);
      case FromTrash(n) => RestoreNodeKeeps(b, n);
      case Destroy(n) => PurgeNodeKeeps(b, n);
    }
  }

  lemma {:induction false} LedgerRunFrom(b: Books, ops: seq<Ledger.Op>)
    requires Sound(b)
    ensures Sound(Ledger.Run(b, ops))
    decreases |ops|
  {
    hide Sound, Ledger.Step;
    if ops != [] {
      LedgerStepKeeps(b, ops[0]);
      LedgerRunFrom(Ledger.Step(b, ops[0]), ops[1..]);
    }
  }

  /**
   * In every run, every user's live and trashed buckets are exactly the summed sizes of their live and
   * trashed files, and the version bucket covers every retained version that is not current.
   */
  lemma EveryRunBalances(retention: nat, ops: seq<Ledger.Op>, u: UserId)
    requires retention >= 1 && u in Ledger.Run(Opening(retention), ops).drive.roots
    ensures Sound(Ledger.Run(Opening(retention), ops))
    ensures var b := Ledger.Run(Opening(retention), ops);
            && u in b.usage
            && b.usage[u].live == Sums.Total(Sizes(b.drive.rows), Files(b.drive.rows, u, true))
            && b.usage[u].trashed == Sums.Total(Sizes(b.drive.rows), Files(b.drive.rows, u, false))
            && b.usage[u].versions >= Sums.Total(VersionSizes(b.versions), History(b, u))
  {
    assert Sound(Opening(retention));
    LedgerRunFrom(Opening(retention), ops);
    See(Ledger.Run(Opening(retention), ops), u);
  }

  // ----- the clamps are idle

  /**
   * An accepted write moves buckets by exact amounts: the superseded bytes from live to versions, the
   * new bytes into live, the pruned bytes out of versions. It leaves the total within quota.
   */
  lemma WriteIsExact(b: Books, n: Id, size: nat, digest: Digest, encrypted: bool, sealId: Option<Id>)
    requires Sound(b) && StoreVersion(b, n, size, digest, encrypted, sealId).Ok?
    ensures var after, row := StoreVersion(b, n, size, digest, encrypted, sealId).value, b.drive.rows[n];
            var added := b.versions[b.drive.nextId := after.versions[b.drive.nextId]];
            var pruned := added.Keys - after.versions.Keys;
            && row.owner in b.usage && row.owner in b.quota
            && after.usage[row.owner] == Usage(
                 b.usage[row.owner].live - row.size + size,
                 b.usage[row.owner].trashed,
                 b.usage[row.owner].versions + row.size - Sums.Total(VersionSizes(added), pruned))
            && after.usage[row.owner].Total() <= b.quota[row.owner]
            && forall u <- b.usage :: u != row.owner ==> after.usage[u] == b.usage[u]
  {
    hide Drive.WellFormed, Files, Sums.Total, Sizes, History, VersionSizes, Doomed, NextSequence, StoreVersion, VersionOk, Sound;
    var after := StoreVersion(b, n, size, digest, encrypted, sealId).value;
    StoreIsWrite(b, n, size, digest, encrypted, sealId);
    var u := b.drive.rows[n].owner;
    var w := Write(b, n, after.versions[b.drive.nextId]);
    assert w.Added().Keys - after.versions.Keys == w.Pruned();
    OwnerIsUser(b, n);
    See(b, u);
    SeeFile(b, n);
    LiveBytesAfterWrite(b.drive.rows, n, w.NewId(), size, u);
    HistoryBytesAfterWrite(w, after, u);
  }

  /** A write is refused for lack of room exactly when the buckets after superseding cannot take it. */
  lemma WriteRefusedExactly(b: Books, n: Id, size: nat, digest: Digest, encrypted: bool, sealId: Option<Id>)
    requires Sound(b) && LiveNode(b.drive, n) && b.drive.rows[n].kind == File
    ensures var u := b.drive.rows[n].owner;
            && u in b.usage && u in b.quota
            && (StoreVersion(b, n, size, digest, encrypted, sealId) == Err(QuotaExceeded) <==> b.usage[u].Total() + size > b.quota[u])
            && (StoreVersion(b, n, size, digest, encrypted, sealId).Ok? <==> b.usage[u].Total() + size <= b.quota[u])
  {
    hide Drive.WellFormed, Files, Sums.Total, Sizes, History, VersionSizes, Doomed, NextSequence, VersionOk, Sound;
    OwnerIsUser(b, n);
    See(b, b.drive.rows[n].owner);
    SeeFile(b, n);
    LiveBytesAfterWrite(b.drive.rows, n, b.drive.nextId, size, b.drive.rows[n].owner);
  }

  /** Delete and restore move exactly the bytes of the rows they moved; purge frees exactly the subtree's. */
  lemma TrashIsExact(b: Books, n: Id, elapsed: nat)
    requires Sound(b) && n in b.drive.rows
    ensures var rows, u := b.drive.rows, b.drive.rows[n].owner;
            && u in b.usage
            && (DeleteNode(b, n, elapsed).Ok? ==>
                  var bytes := FileBytes(rows, LiveUnder(rows, n));
                  DeleteNode(b, n, elapsed).value.usage[u]
                  == Usage(b.usage[u].live - bytes, b.usage[u].trashed + bytes, b.usage[u].versions))
            && (RestoreNode(b, n).Ok? ==>
                  var bytes := FileBytes(rows, BatchUnder(rows, n));
                  RestoreNode(b, n).value.usage[u]
                  == Usage(b.usage[u].live + bytes, b.usage[u].trashed - bytes, b.usage[u].versions))
            && (PurgeNode(b, n).Ok? ==>
                  PurgeNode(b, n).value.usage[u]
                  == b.usage[u].(trashed := b.usage[u].trashed - Sums.Total(Sizes(rows), Subtree(rows, n))))
  {
    hide Drive.WellFormed, Files, Sums.Total, Sizes, History, VersionSizes, FilesIn, VersionOk, FileOk, Sound,
      Delete, Restore, Purge, LiveUnder, BatchUnder, Subtree, FileBytes;
    OwnerIsUser(b, n);
    See(b, b.drive.rows[n].owner);
    if DeleteNode(b, n, elapsed).Ok? { DeleteNodeKeeps(b, n, elapsed); }
    if RestoreNode(b, n).Ok? { RestoreNodeKeeps(b, n); }
    if PurgeNode(b, n).Ok? { PurgeNodeBalance(b, n, b.drive.rows[n].owner); }
  }

  /** A delete followed at once by a restore returns rows, stamps, versions and buckets to what they were. */
  lemma DeleteThenRestoreBooks(b: Books, n: Id, elapsed: nat)
    requires Sound(b) && DeleteNode(b, n, elapsed).Ok?
    ensures var deleted := DeleteNode(b, n, elapsed).value;
            RestoreNode(deleted, n) == Ok(b.(drive := deleted.drive.(rows := b.drive.rows)))
  {
    hide Drive.WellFormed, Files, Sums.Total, Sizes, FilesIn, VersionOk, FileOk, Sound, Delete, Restore, LiveUnder, BatchUnder, FileBytes;
    var deleted, u := DeleteNode(b, n, elapsed).value, DeletedOwner(b, n, elapsed);
    DriveOf(b);
    Trash.DeleteThenRestore(b.drive, n, elapsed);
    SameBytes(b, n, elapsed);
    TrashIsExact(b, n, elapsed);
    DeleteNodeKeeps(b, n, elapsed);
    TrashIsExact(deleted, n, elapsed);
    assert RestoreNode(deleted, n).Ok?;
    assert RestoreNode(deleted, n).value.usage == b.usage;
  }

  ghost function DeletedOwner(b: Books, n: Id, elapsed: nat): (u: UserId)
    requires DeleteNode(b, n, elapsed).Ok?
    ensures n in b.drive.rows && u == b.drive.rows[n].owner
    ensures var rows' := DeleteNode(b, n, elapsed).value.drive.rows; n in rows' && rows'[n].owner == u
  {
    b.drive.rows[n].owner
  }

  lemma SameBytes(b: Books, n: Id, elapsed: nat)
    requires Sound(b) && DeleteNode(b, n, elapsed).Ok?
    ensures var rows, rows' := b.drive.rows, DeleteNode(b, n, elapsed).value.drive.rows;
            n in rows' && FileBytes(rows', BatchUnder(rows', n)) == FileBytes(rows, LiveUnder(rows, n))
  {
    hide Drive.WellFormed, Under, Sums.Total;
    var rows, rows' := b.drive.rows, DeleteNode(b, n, elapsed).value.drive.rows;
    DriveOf(b);
    forall m | m in rows
      ensures m in BatchUnder(rows', n) <==> m in LiveUnder(rows, n)
    {
      Trash.DeletedRow(b.drive, n, elapsed, m);
    }
    assert Sizes(rows') == Sizes(rows);
    assert FilesIn(rows', BatchUnder(rows', n)) == FilesIn(rows, LiveUnder(rows, n));
  }
}
