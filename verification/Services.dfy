/** The services that change rows in place, each method proved against the operation it implements. */
module Services {
  import opened Prelude
  import opened Tree
  import opened TreeInvariant
  import opened Sums
  import opened Ledger
  import opened LedgerInvariant
  import opened Purge
  import opened Walks
  import opened EmptyTrash
  import opened Emptying
  import S3Walk
  import opened TreeEffects

  /** A user's quota record. */
  class QuotaUsage {
    var liveBytes: int
    var trashedBytes: int
    var versionBytes: int

    function Value(): Usage
      reads this
    {
      Usage(liveBytes, trashedBytes, versionBytes)
    }

    /** No bucket is below zero, and no transition takes one there. */
    predicate Valid()
      reads this
    {
      liveBytes >= 0 && trashedBytes >= 0 && versionBytes >= 0
    }

    constructor ()
      ensures Valid() && Value() == Usage(0, 0, 0)
    {
      liveBytes, trashedBytes, versionBytes := 0, 0, 0;
    }

    /** The record as read from its row. */
    constructor Load(from: Usage)
      ensures Value() == from
    {
      liveBytes, trashedBytes, versionBytes := from.live, from.trashed, from.versions;
    }

    method ChargeLive(delta: int)
      modifies this
      ensures Value() == old(Value()).ChargeLive(delta) && (old(Valid()) ==> Valid())
    {
      liveBytes := Max(liveBytes + delta, 0);
    }

    method ChargeVersions(delta: int)
      modifies this
      ensures Value() == old(Value()).ChargeVersions(delta) && (old(Valid()) ==> Valid())
    {
      versionBytes := Max(versionBytes + delta, 0);
    }

    /** The bytes are still stored, so the total is unchanged. */
    method MoveToTrash(size: nat)
      modifies this
      ensures Value() == old(Value()).MoveToTrash(size) && Value().Total() == old(Value()).Total() && (old(Valid()) ==> Valid())
    {
      var moved := Min(size, liveBytes);
      liveBytes := liveBytes - moved;
      trashedBytes := trashedBytes + moved;
    }

    method RestoreFromTrash(size: nat)
      modifies this
      ensures Value() == old(Value()).RestoreFromTrash(size) && Value().Total() == old(Value()).Total() && (old(Valid()) ==> Valid())
    {
      var moved := Min(size, trashedBytes);
      trashedBytes := trashedBytes - moved;
      liveBytes := liveBytes + moved;
    }

    method PurgeFromTrash(size: nat)
      modifies this
      ensures Value() == old(Value()).PurgeFromTrash(size)
      ensures old(Valid()) ==> Valid() && Value().Total() <= old(Value()).Total()
    {
      trashedBytes := Max(trashedBytes - size, 0);
    }

    /** What the database does with the record when the transaction is rolled back. */
    method RollBack(to: Usage)
      modifies this
      ensures Value() == to
    {
      liveBytes, trashedBytes, versionBytes := to.live, to.trashed, to.versions;
    }
  }

  /** What a call answers, against the operation it implements: the new state, or the error and no change. */
  ghost predicate Answers(r: Option<Error>, before: Books, after: Books, spec: Result<Books, Error>) {
    match spec
    case Ok(b) => r.None? && after == b
    case Err(e) => r == Some(e) && after == before
  }

  // ----- who may do what, and how deep

  /** Role ordinals; a caller without access has 0. */
  const EDITOR: nat := 20
  const OWNER: nat := 30

  /** A missing or trashed node reads the same as one the caller has no access to; a lesser role is denied openly. */
  function Refusal(d: Drive, n: Id, ordinal: nat, minimum: nat): Option<Error> {
    if !LiveNode(d, n) || ordinal == 0 then Some(NotFound)
    else if ordinal < minimum then Some(PermissionDenied)
    else None
  }

  /** One level below `n` would reach the depth limit. */
  ghost predicate TooDeep(d: Drive, n: Id, maxDepth: nat) {
    |Above(d.rows, n)| + 1 >= maxDepth
  }

  /** The limit is on how many names the new path would have. */
  lemma TooDeepExactly(d: Drive, parent: Id, name: string, kind: Kind, encrypted: bool, maxDepth: nat)
    requires d.WellFormed() && parent in d.rows && Added(d, parent, name, kind, encrypted).WellFormed()
    ensures TooDeep(d, parent, maxDepth) <==> |S3Walk.Path(Added(d, parent, name, kind, encrypted), d.nextId)| >= maxDepth
  {
    hide Drive.WellFormed, S3Walk.Path, Above;
    CreateExactly(d, parent, name, kind, encrypted, false);
    CreateAdds(d, parent, name, kind, encrypted, false, parent);
    DepthIsPathLength(d, parent);
  }

  /** A refused caller changes nothing; neither does a placement that would be too deep, if nothing else was wrong with it but its name. */
  ghost predicate Responds(r: Option<Error>, refusal: Option<Error>, d: Drive, parent: Id, maxDepth: nat, before: Books, after: Books, spec: Result<Books, Error>) {
    if refusal.Some? then r == refusal && after == before
    else if TooDeep(d, parent, maxDepth) && (spec.Ok? || spec == Err(NameTaken)) then r == Some(Validation) && after == before
    else Answers(r, before, after, spec)
  }

  lemma FileBytesAdd(rows: Rows, s: set<Id>, m: Id)
    requires s <= rows.Keys && m in rows && m !in s
    ensures FileBytes(rows, s + {m}) == FileBytes(rows, s) + if rows[m].kind == File then rows[m].size else 0
  {
    hide Sums.Total;
    if rows[m].kind == File {
      assert FilesIn(rows, s + {m}) == FilesIn(rows, s) + {m};
      TotalAdd(Sizes(rows), FilesIn(rows, s), m);
    } else {
      assert FilesIn(rows, s + {m}) == FilesIn(rows, s);
    }
  }

  lemma NoFileBytes(rows: Rows)
    ensures FileBytes(rows, {}) == 0
  {
    assert FilesIn(rows, {}) == {};
    TotalZero(Sizes(rows), {});
  }

  /** What a delete moves to the trash, and how many bytes that is. */
  method LiveBatch(d: Drive, n: Id) returns (batch: set<Id>, bytes: nat)
    requires d.WellFormed() && LiveNode(d, n)
    ensures batch == LiveUnder(d.rows, n) && bytes == FileBytes(d.rows, batch)
  {
    hide Drive.WellFormed, LiveUnder, FileBytes, Beneath;
    batch := Descendants(d, n, false);
    BeneathIs(d.rows, n);
    SubtreeInRows(d.rows, n);
    bytes := SumFiles(d.rows, batch);
  }

  /** Sums the sizes of the files among `ids`. */
  method SumFiles(rows: Rows, ids: set<Id>) returns (bytes: nat)
    requires ids <= rows.Keys
    ensures bytes == FileBytes(rows, ids)
  {
    hide FileBytes;
    bytes := 0;
    var left := ids;
    NoFileBytes(rows);
    assert ids - left == {};
    while left != {}
      invariant left <= ids && bytes == FileBytes(rows, ids - left)
      decreases |left|
    {
      var m :| m in left;
      FileBytesAdd(rows, ids - left, m);
      assert ids - (left - {m}) == (ids - left) + {m};
      if rows[m].kind == File {
        bytes := bytes + rows[m].size;
      }
      left := left - {m};
    }
    assert ids - left == ids;
  }

  lemma DoomedInside(vs: Versions, n: Id, keep: nat)
    ensures Doomed(vs, n, keep) <= vs.Keys
  {
  }

  method SumVersions(vs: Versions, ids: set<Id>) returns (bytes: nat)
    requires ids <= vs.Keys
    ensures bytes == Sums.Total(VersionSizes(vs), ids)
  {
    hide Sums.Total;
    bytes := 0;
    var left := ids;
    TotalZero(VersionSizes(vs), {});
    assert ids - left == {};
    while left != {}
      invariant left <= ids && bytes == Sums.Total(VersionSizes(vs), ids - left)
      decreases |left|
    {
      var x :| x in left;
      TotalAdd(VersionSizes(vs), ids - left, x);
      assert ids - (left - {x}) == (ids - left) + {x};
      bytes := bytes + vs[x].size;
      left := left - {x};
    }
    assert ids - left == ids;
  }

  lemma {:induction false} HighestAttained(vs: Versions, s: set<Id>)
    requires s <= vs.Keys
    ensures Highest(vs, s) == 0 || exists x <- s :: vs[x].sequence == Highest(vs, s)
    decreases |s|
  {
    if s != {} {
      var x := TakenFirst(vs, s);
      hide Highest;
      HighestAttained(vs, s - {x});
      if Highest(vs, s) == vs[x].sequence {
        assert x in s;
      } else if Highest(vs, s) != 0 {
        var y :| y in s - {x} && vs[y].sequence == Highest(vs, s - {x});
        assert y in s;
      }
    }
  }

  lemma TakenFirst(vs: Versions, s: set<Id>) returns (x: Id)
    requires s <= vs.Keys && s != {}
    ensures x in s && Highest(vs, s) == Max(vs[x].sequence, Highest(vs, s - {x}))
  {
    x :| x in s && Highest(vs, s) == Max(vs[x].sequence, Highest(vs, s - {x}));
  }

  lemma HighestIs(vs: Versions, s: set<Id>, best: nat)
    requires s <= vs.Keys && (forall x <- s :: vs[x].sequence <= best) && (best == 0 || exists x <- s :: vs[x].sequence == best)
    ensures Highest(vs, s) == best
  {
    HighestAttained(vs, s);
  }

  /** One more than the highest sequence number the node holds. */
  method SequenceAfter(vs: Versions, n: Id) returns (next: nat)
    ensures next == NextSequence(vs, n)
  {
    hide Highest;
    var own := VersionsOf(vs, n);
    var left, best := own, 0;
    while left != {}
      invariant left <= own && (forall x <- own - left :: vs[x].sequence <= best)
      invariant best == 0 || exists x <- own - left :: vs[x].sequence == best
      decreases |left|
    {
      var x :| x in left;
      assert own - (left - {x}) == (own - left) + {x};
      best := Max(best, vs[x].sequence);
      left := left - {x};
    }
    assert own - left == own;
    HighestIs(vs, own, best);
    next := best + 1;
  }

  lemma ReleaseNone(u: Usage, all: Versions)
    requires u.versions >= 0
    ensures u.ChargeVersions(0 - Sums.Total(VersionSizes(all), {})) == u
  {
    TotalZero(VersionSizes(all), {});
  }

  /** The clamp at each step comes to the clamp on the sum. */
  lemma ReleaseOne(u: Usage, all: Versions, done: set<Id>, x: Id)
    requires done <= all.Keys && x in all && x !in done
    ensures u.ChargeVersions(0 - Sums.Total(VersionSizes(all), done)).ChargeVersions(0 - all[x].size)
            == u.ChargeVersions(0 - Sums.Total(VersionSizes(all), done + {x}))
  {
    hide Sums.Total;
    TotalAdd(VersionSizes(all), done, x);
  }

  /** Releases the bytes of pruned versions, one by one. */
  method ReleaseEach(all: Versions, doomed: set<Id>, record: QuotaUsage)
    requires doomed <= all.Keys && record.Valid()
    modifies record
    ensures record.Valid() && record.Value() == old(record.Value()).ChargeVersions(0 - Sums.Total(VersionSizes(all), doomed))
  {
    hide Sums.Total, Usage.ChargeVersions;
    var left := doomed;
    assert doomed - left == {};
    ghost var start := record.Value();
    ReleaseNone(start, all);
    while left != {}
      invariant left <= doomed && record.Valid()
      invariant record.Value() == start.ChargeVersions(0 - Sums.Total(VersionSizes(all), doomed - left))
      decreases |left|
    {
      var x :| x in left;
      assert doomed - (left - {x}) == (doomed - left) + {x};
      ReleaseOne(start, all, doomed - left, x);
      record.ChargeVersions(0 - all[x].size);
      left := left - {x};
    }
    assert doomed - left == doomed;
  }

  /** The rows a user's operations change, with one quota record per user. */
  class NodeService {
    var rows: Rows
    var roots: map<UserId, Id>
    var nextId: Id
    var clock: Time
    var versions: Versions
    var usage: map<UserId, QuotaUsage>
    var quota: map<UserId, nat>
    const retention: nat
    const maxDepth: nat

    function Tree(): Drive
      reads this`rows, this`roots, this`nextId, this`clock
    {
      Drive(rows, roots, nextId, clock)
    }

    function Values(): map<UserId, Usage>
      reads this`usage, usage.Values
    {
      map u | u in usage :: usage[u].Value()
    }

    function State(): Books
      reads this, usage.Values
    {
      Books(Tree(), versions, Values(), quota, retention)
    }

    /** Every user has a record of their own, with nothing below zero in it. */
    ghost predicate Separate()
      reads this`usage, usage.Values
    {
      && (forall u <- usage :: usage[u].Valid())
      && (forall u, w :: u in usage && w in usage && u != w ==> usage[u] != usage[w])
    }

    ghost predicate Valid()
      reads this, usage.Values
    {
      Separate() && Sound(State())
    }

    constructor (retention: nat, maxDepth: nat)
      requires retention >= 1
      ensures Valid() && State() == Ledger.Opening(retention) && this.maxDepth == maxDepth
    {
      this.maxDepth := maxDepth;
      rows, roots, nextId, clock := map[], map[], 0, 0;
      versions, usage, quota := map[], map[], map[];
      this.retention := retention;
    }

    /** A new user: a root, a quota, and a record with nothing in it. */
    method Provision(u: UserId, size: nat) returns (r: Option<Error>)
      requires Valid()
      modifies this
      ensures Valid() && Answers(r, old(State()), State(), Ledger.Apply(old(State()), Join(u, size)))
      ensures fresh(usage.Values - old(usage.Values))
      ensures r.None? <==> u !in old(roots)
      ensures r.None? ==> u in roots && u in quota && quota[u] == size && State().usage == old(State()).usage[u := Usage(0, 0, 0)]
    {
      hide Sound, Ledger.Apply, Separate;
      ghost var before := State();
      JoinShape(before, u, size);
      if u in roots { return Some(Conflict); }
      JoinKeeps(before, u, size);
      Enroll(u);
      rows := rows[nextId := Row(u, Folder, "root", None, None, 0, None, false)];
      roots := roots[u := nextId];
      nextId := nextId + 1;
      quota := quota[u := size];
      r := None;
    }

    /** A record of the user's own. */
    method Enroll(u: UserId)
      requires Separate()
      modifies this`usage
      ensures Separate() && Values() == old(Values())[u := Usage(0, 0, 0)]
      ensures fresh(usage.Values - old(usage.Values))
    {
      ghost var values := Values();
      var record := new QuotaUsage();
      usage := usage[u := record];
      assert forall w <- usage :: w != u ==> usage[w] != record;
      assert Values() == values[u := Usage(0, 0, 0)];
    }

    /** Moves bytes between a user's live and trashed buckets, if there are any and the user has a record. */
    method MoveBytes(owner: UserId, bytes: nat, toTrash: bool)
      requires Separate()
      modifies usage.Values
      ensures Separate()
      ensures Values() == if owner !in usage then old(Values())
                          else old(Values())[owner := if toTrash then old(Values())[owner].MoveToTrash(bytes) else old(Values())[owner].RestoreFromTrash(bytes)]
    {
      ghost var values := Values();
      if bytes <= 0 || owner !in usage {
        assert owner in usage ==> usage[owner].Valid() && values[owner := values[owner]] == values;
        return;
      }
      if toTrash { usage[owner].MoveToTrash(bytes); } else { usage[owner].RestoreFromTrash(bytes); }
      assert Values() == values[owner := usage[owner].Value()];
    }

    /** `ordinal` is the caller's effective role on the parent. */
    method CreateFolder(ordinal: nat, parent: Id, name: string) returns (r: Option<Error>)
      requires Valid()
      modifies this
      ensures Valid() && Responds(r, Refusal(old(Tree()), parent, ordinal, EDITOR), old(Tree()), parent, maxDepth,
                                  old(State()), State(), Ledger.Apply(old(State()), MakeFolder(parent, name)))
      ensures r.None? ==> Refusal(old(Tree()), parent, ordinal, EDITOR).None? && !TooDeep(old(Tree()), parent, maxDepth)
      ensures r.None? ==> parent in old(rows) && Tree() == Added(old(Tree()), parent, name, Folder, false)
    {
      hide Sound, ValidName, Taken, Drive.WellFormed, Above, Elements, Separate;
      ghost var before := State();
      r := Refusal(Tree(), parent, ordinal, EDITOR);
      if r.Some? { return; }
      if rows[parent].kind != Folder { return Some(Validation); }
      if rows[parent].parent.None? && name == SHARED_PREFIX { return Some(Validation); }
      DriveOf(before);
      var chain := Ancestors(Tree(), parent);
      if |chain| + 1 >= maxDepth { return Some(Validation); }
      if !ValidName(name) { return Some(Validation); }
      if Taken(rows, parent, name, None) { return Some(NameTaken); }
      AddFolder(parent, name);
      r := None;
    }

    method AddFolder(parent: Id, name: string)
      requires Valid() && Create(Tree(), parent, name, Folder, false, true).Ok?
      modifies this`rows, this`nextId
      ensures Valid() && State() == old(State()).(drive := Create(old(Tree()), parent, name, Folder, false, true).value)
    {
      hide Sound, ValidName, Taken;
      CreateIsQuiet(State(), parent, name, Folder, false, true);
      rows := rows[nextId := Row(rows[parent].owner, Folder, name, Some(parent), None, 0, None, false)];
      nextId := nextId + 1;
    }

    method Rename(ordinal: nat, n: Id, name: string) returns (r: Option<Error>)
      requires Valid()
      modifies this`rows
      ensures Valid() && if Refusal(old(Tree()), n, ordinal, EDITOR).Some? then r == Refusal(old(Tree()), n, ordinal, EDITOR) && State() == old(State())
                         else Answers(r, old(State()), State(), Ledger.Apply(old(State()), GiveName(n, name)))
      ensures r.None? ==> Refusal(old(Tree()), n, ordinal, EDITOR).None?
      ensures r.None? ==> n in old(rows) && Tree() == WithRow(old(Tree()), n, old(rows)[n].(name := name))
    {
      hide Sound, ValidName, Taken;
      ghost var before := State();
      r := Refusal(Tree(), n, ordinal, EDITOR);
      if r.Some? { return; }
      if rows[n].parent.None? || !ValidName(name) { return Some(Validation); }
      if Taken(rows, rows[n].parent.value, name, Some(n)) { return Some(NameTaken); }
      RenameIsQuiet(before, n, name);
      rows := rows[n := rows[n].(name := name)];
      r := None;
    }

    /** The cycle check walks up from the destination, and so does the depth check. */
    method Move(ordinal: nat, destination: nat, n: Id, parent: Id) returns (r: Option<Error>)
      requires Valid()
      modifies this`rows
      ensures var refusal := if Refusal(old(Tree()), n, ordinal, EDITOR).Some? then Refusal(old(Tree()), n, ordinal, EDITOR)
                             else Refusal(old(Tree()), parent, destination, EDITOR);
              Valid() && Responds(r, refusal, old(Tree()), parent, maxDepth, old(State()), State(), Ledger.Apply(old(State()), Relocate(n, parent)))
      ensures r.None? ==> Refusal(old(Tree()), n, ordinal, EDITOR).None? && Refusal(old(Tree()), parent, destination, EDITOR).None?
      ensures r.None? ==> !TooDeep(old(Tree()), parent, maxDepth)
      ensures r.None? ==> n in old(rows) && Tree() == WithRow(old(Tree()), n, old(rows)[n].(parent := Some(parent)))
    {
      hide Sound, Drive.WellFormed, Taken, Under, Above, Elements;
      ghost var before := State();
      r := Refusal(Tree(), n, ordinal, EDITOR);
      if r.Some? { return; }
      r := Refusal(Tree(), parent, destination, EDITOR);
      if r.Some? { return; }
      if rows[parent].kind != Folder || rows[n].parent.None? { return Some(Validation); }
      if rows[parent].owner != rows[n].owner { return Some(CrossOwner); }
      DriveOf(before);
      var chain := Ancestors(Tree(), parent);
      CycleCheck(rows, n, parent);
      if n == parent || n in Elements(chain) { return Some(Cycle); }
      if |chain| + 1 >= maxDepth { return Some(Validation); }
      if Taken(rows, parent, rows[n].name, Some(n)) { return Some(NameTaken); }
      MoveIsQuiet(before, n, parent);
      rows := rows[n := rows[n].(parent := Some(parent))];
      r := None;
    }

    method Delete(ordinal: nat, n: Id, elapsed: nat) returns (r: Option<Error>)
      requires Valid()
      modifies this`rows, this`clock, usage.Values
      ensures Valid() && if Refusal(old(Tree()), n, ordinal, OWNER).Some? then r == Refusal(old(Tree()), n, ordinal, OWNER) && State() == old(State())
                         else Answers(r, old(State()), State(), DeleteNode(old(State()), n, elapsed))
      ensures r.None? ==> Refusal(old(Tree()), n, ordinal, OWNER).None?
      ensures r.None? ==> rows.Keys == old(rows).Keys && forall m <- rows :: rows[m].Live() <==> old(rows)[m].Live() && !Under(old(rows), m, n)
    {
      hide Sound, LiveUnder, FileBytes, Stamp, DeleteNode;
      DeleteEffect(State(), n, elapsed);
      DeleteShape(State(), n, elapsed);
      r := Refusal(Tree(), n, ordinal, OWNER);
      if r.Some? { return; }
      if rows[n].parent.None? { return Some(Validation); }
      Discard(n, elapsed);
      r := None;
    }

    /** Trashes the live subtree in one batch and moves its bytes. */
    method Discard(n: Id, elapsed: nat)
      requires Valid() && LiveNode(Tree(), n) && rows[n].parent.Some?
      modifies this`rows, this`clock, usage.Values
      ensures Valid() && DeleteNode(old(State()), n, elapsed) == Ok(State())
    {
      hide Sound, Drive.WellFormed, LiveUnder, FileBytes, Stamp, DeleteNode, Usage.MoveToTrash;
      ghost var before := State();
      DriveOf(before);
      var moved, bytes := LiveBatch(Tree(), n);
      var owner := rows[n].owner;
      var now: Time := clock + 1 + elapsed;
      rows := Stamp(rows, moved, Some(now));
      clock := now;
      assert Values() == before.usage;
      MoveBytes(owner, bytes, true);
      assert DeleteNode(before, n, elapsed) == Ok(State()) && Sound(State()) by {
        DeleteIs(before, n, elapsed, State());
      }
    }

    /** What was current stops being live and becomes history. */
    method Supersede(record: QuotaUsage, row: Row)
      modifies record
      ensures record.Value() == Superseded(old(record.Value()), row) && (old(record.Valid()) ==> record.Valid())
    {
      if row.current.Some? {
        record.ChargeLive(0 - row.size);
        record.ChargeVersions(row.size);
      }
    }

    /** The superseded content becomes history, and the new content is charged if there is room for it. */
    method ChargeWrite(row: Row, size: nat) returns (ok: bool)
      requires Separate()
      modifies usage.Values
      ensures Separate()
      ensures var before := old(State());
              var moved := Moved(before, row);
              && (ok <==> !(Known(before, row.owner) && moved.WouldExceed(quota[row.owner], size)))
              && Values() == if ok && Known(before, row.owner) then before.usage[row.owner := moved.ChargeLive(size)] else before.usage
    {
      hide Superseded, Usage.ChargeLive, Usage.WouldExceed;
      ghost var values := Values();
      if row.owner !in usage || row.owner !in quota { return true; }
      var record := usage[row.owner];
      var saved := record.Value();
      Supersede(record, row);
      ok := !record.Value().WouldExceed(quota[row.owner], size);
      if ok {
        record.ChargeLive(size);
      } else {
        record.RollBack(saved);
      }
      assert Values() == values[row.owner := record.Value()];
    }

    /** Drops the versions of a node beyond retention, releasing their bytes. */
    method PruneVersions(n: Id, owner: UserId)
      requires Separate()
      modifies this`versions, usage.Values
      ensures Separate()
      ensures var doomed := Doomed(old(versions), n, retention);
              && doomed <= old(versions).Keys && versions == old(versions) - doomed
              && Values() == if owner !in usage then old(Values())
                             else old(Values())[owner := old(Values())[owner].ChargeVersions(0 - Sums.Total(VersionSizes(old(versions)), doomed))]
    {
      hide Sums.Total, Newer, Doomed, VersionSizes, Usage.ChargeVersions;
      var doomed := Doomed(versions, n, retention);
      ghost var values := Values();
      DoomedInside(versions, n, retention);
      if owner in usage {
        ReleaseEach(versions, doomed, usage[owner]);
        assert Values() == values[owner := usage[owner].Value()];
      } else {
        assert Values() == values;
      }
      versions := versions - doomed;
    }

    /** Charges the write, records the version, makes it current, then prunes what retention no longer keeps. */
    method StoreVersion(n: Id, size: nat, digest: Digest, encrypted: bool, sealId: Option<Id>) returns (r: Option<Error>)
      requires Valid()
      modifies this`rows, this`nextId, this`versions, usage.Values
      ensures Valid() && Answers(r, old(State()), State(), Ledger.StoreVersion(old(State()), n, size, digest, encrypted, sealId))
      ensures r.None? ==> n in rows && rows[n].current == Some(old(nextId)) && rows[n].size == size && old(nextId) in versions
                          && versions[old(nextId)].node == n && versions[old(nextId)].digest == digest && versions[old(nextId)].encrypted == encrypted
    {
      hide Sound, NextSequence, Sums.Total, VersionSizes, Doomed, Newer, Moved, Usage.ChargeLive, Usage.ChargeVersions, Usage.WouldExceed, Ledger.StoreVersion, RecordedBooks, Separate;
      ghost var before := State();
      StoreCases(before, n, size, digest, encrypted, sealId);
      if !LiveNode(Tree(), n) { return Some(NotFound); }
      if rows[n].kind != File { return Some(Validation); }
      var row, x := rows[n], nextId;
      var ok := ChargeWrite(row, size);
      if !ok { return Some(QuotaExceeded); }
      StoreKeeps(before, n, size, digest, encrypted, sealId);
      var sequence := SequenceAfter(versions, n);
      StoreInTwo(before, State(), n, size, digest, encrypted, sealId);
      RecordVersion(n, Version(n, row.owner, sequence, size, digest, encrypted, if sealId.Some? then sealId.value else x));
      StoreEffect(before, n, size, digest, encrypted, sealId);
      r := None;
    }

    /** The version row, the node row, and what retention then drops. */
    method RecordVersion(n: Id, version: Version)
      requires Separate() && n in rows
      modifies this`rows, this`nextId, this`versions, usage.Values
      ensures Separate()
      ensures State() == RecordedBooks(old(State()), n, version)
    {
      hide Sums.Total, VersionSizes, Doomed, Newer, Usage.ChargeVersions, Separate;
      ghost var b := State();
      var x := nextId;
      versions := versions[x := version];
      rows := rows[n := rows[n].(current := Some(x), size := version.size)];
      nextId := x + 1;
      PruneVersions(n, version.owner);
    }

    /** Only the owner sees their trash: to anyone else a trashed node is not there. */
    method Restore(user: UserId, n: Id) returns (r: Option<Error>)
      requires Valid()
      modifies this`rows, usage.Values
      ensures Valid() && if n in old(rows) && old(rows)[n].owner != user then r == Some(NotFound) && State() == old(State())
                         else Answers(r, old(State()), State(), RestoreNode(old(State()), n))
      ensures r.None? ==> n in old(rows) && old(rows)[n].owner == user && n in rows && rows[n].Live() && rows[n].parent.Some? && IsHome(old(Tree()), n, rows[n].parent.value)
    {
      RestoreEffect(State(), n);
      hide Sound, Drive.WellFormed, FileBytes, Taken, BatchUnder, Destination, RestoreNode, Stamp;
      RestoreShape(State(), n);
      if n !in rows || rows[n].Live() || rows[n].owner != user { return Some(NotFound); }
      var destination := Destination(Tree(), n);
      if destination.None? { return Some(NotFound); }
      if Taken(rows, destination.value, rows[n].name, Some(n)) { return Some(NameTaken); }
      Lift(n, destination.value);
      r := None;
    }

    /** Lifts the rows beneath `n` that share its stamp, and moves their bytes back. */
    method Lift(n: Id, destination: Id)
      requires Valid() && n in rows && rows[n].Trashed()
      requires Destination(Tree(), n) == Some(destination) && !Taken(rows, destination, rows[n].name, Some(n))
      modifies this`rows, usage.Values
      ensures Valid() && RestoreNode(old(State()), n) == Ok(State())
    {
      hide Sound, Drive.WellFormed, FileBytes, Beneath, Taken, BatchUnder, Destination, RestoreNode, Stamp, WithStamp, Usage.RestoreFromTrash;
      ghost var before := State();
      DriveOf(before);
      var beneath := Descendants(Tree(), n, true);
      var batch := WithStamp(rows, beneath, rows[n].deletedAt);
      BatchIs(rows, n, beneath);
      var bytes := SumFiles(rows, batch);
      RestoreShape(before, n);
      RestoreNodeKeeps(before, n);
      var row := rows[n];
      rows := Stamp(rows, batch, None)[n := row.(deletedAt := None, parent := Some(destination))];
      MoveBytes(row.owner, bytes, false);
    }
  }

  lemma JoinShape(b: Books, u: UserId, size: nat)
    ensures u in b.drive.roots ==> Ledger.Apply(b, Join(u, size)) == Err(Conflict)
    ensures u !in b.drive.roots ==>
              var d := b.drive;
              Ledger.Apply(b, Join(u, size)) ==
              Ok(b.(drive := d.(rows := d.rows[d.nextId := Row(u, Folder, "root", None, None, 0, None, false)], roots := d.roots[u := d.nextId], nextId := d.nextId + 1),
                    usage := b.usage[u := Usage(0, 0, 0)], quota := b.quota[u := size]))
  {
  }

  /** A version recorded for a file already charged: its row, the node's, and what retention then drops and releases. */
  ghost function RecordedBooks(b: Books, n: Id, version: Version): Books
    requires n in b.drive.rows
  {
    var x, row := b.drive.nextId, b.drive.rows[n];
    var added := b.versions[x := version];
    var doomed := Doomed(added, n, b.retention);
    b.(drive := b.drive.(rows := b.drive.rows[n := row.(current := Some(x), size := version.size)], nextId := x + 1),
       versions := added - doomed,
       usage := Charge(b, version.owner, UsageOf(b, version.owner).ChargeVersions(0 - Sums.Total(VersionSizes(added), doomed))))
  }

  /** A write is charging for it and then recording it. */
  lemma StoreInTwo(b: Books, charged: Books, n: Id, size: nat, digest: Digest, encrypted: bool, sealId: Option<Id>)
    requires LiveNode(b.drive, n) && b.drive.rows[n].kind == File
    requires var row := b.drive.rows[n];
             && !(Known(b, row.owner) && Moved(b, row).WouldExceed(b.quota[row.owner], size))
             && charged == b.(usage := if Known(b, row.owner) then b.usage[row.owner := Moved(b, row).ChargeLive(size)] else b.usage)
    ensures StoreVersion(b, n, size, digest, encrypted, sealId) ==
            Ok(RecordedBooks(charged, n, Version(n, b.drive.rows[n].owner, NextSequence(b.versions, n), size, digest, encrypted,
                                                 if sealId.Some? then sealId.value else b.drive.nextId)))
  {
    hide Sums.Total, VersionSizes, Doomed, NextSequence, Usage.ChargeLive, Usage.ChargeVersions, Usage.WouldExceed, StoreVersion;
    StoreCases(b, n, size, digest, encrypted, sealId);
    var owner := b.drive.rows[n].owner;
    forall u: Usage
      ensures Known(b, owner) ==> Charge(charged, owner, u) == Charge(b, owner, u)
    {
      if Known(b, owner) { assert charged.usage[owner := u] == b.usage[owner := u]; }
    }
  }

  lemma StoreCases(b: Books, n: Id, size: nat, digest: Digest, encrypted: bool, sealId: Option<Id>)
    ensures var r, d := StoreVersion(b, n, size, digest, encrypted, sealId), b.drive;
            && (!LiveNode(d, n) ==> r == Err(NotFound))
            && (LiveNode(d, n) && d.rows[n].kind != File ==> r == Err(Validation))
            && (LiveNode(d, n) && d.rows[n].kind == File ==>
                  var row, x, moved := d.rows[n], d.nextId, Moved(b, d.rows[n]);
                  if Known(b, row.owner) && moved.WouldExceed(b.quota[row.owner], size) then r == Err(QuotaExceeded)
                  else
                    var version := Version(n, row.owner, NextSequence(b.versions, n), size, digest, encrypted,
                                           if sealId.Some? then sealId.value else x);
                    var added := b.versions[x := version];
                    var doomed := Doomed(added, n, b.retention);
                    doomed <= added.Keys
                    && var charged := if Known(b, row.owner) then moved.ChargeLive(size) else moved;
                       r == Ok(b.(drive := d.(rows := d.rows[n := row.(current := Some(x), size := size)], nextId := x + 1),
                                  versions := added - doomed,
                                  usage := Charge(b, row.owner, charged.ChargeVersions(0 - Sums.Total(VersionSizes(added), doomed))))))
  {
    hide NextSequence, Sums.Total, VersionSizes, Newer, Superseded, Usage.ChargeLive, Usage.ChargeVersions, Usage.WouldExceed;
  }

  lemma DeleteShape(b: Books, n: Id, elapsed: nat)
    ensures !LiveNode(b.drive, n) ==> DeleteNode(b, n, elapsed) == Err(NotFound)
    ensures LiveNode(b.drive, n) && b.drive.rows[n].parent.None? ==> DeleteNode(b, n, elapsed) == Err(Validation)
    ensures LiveNode(b.drive, n) && b.drive.rows[n].parent.Some? ==>
              var batch, now, owner := LiveUnder(b.drive.rows, n), b.drive.clock + 1 + elapsed, b.drive.rows[n].owner;
              DeleteNode(b, n, elapsed) == Ok(b.(drive := b.drive.(rows := Stamp(b.drive.rows, batch, Some(now)), clock := now),
                                                 usage := Charge(b, owner, UsageOf(b, owner).MoveToTrash(FileBytes(b.drive.rows, batch)))))
  {
    hide LiveUnder, FileBytes, Stamp;
  }

  lemma DeleteIs(b: Books, n: Id, elapsed: nat, after: Books)
    requires Sound(b) && LiveNode(b.drive, n) && b.drive.rows[n].parent.Some?
    requires var batch, now := LiveUnder(b.drive.rows, n), b.drive.clock + 1 + elapsed;
             after.drive == b.drive.(rows := Stamp(b.drive.rows, batch, Some(now)), clock := now)
    requires var owner, bytes := b.drive.rows[n].owner, FileBytes(b.drive.rows, LiveUnder(b.drive.rows, n));
             after.usage == if owner !in b.usage then b.usage else b.usage[owner := b.usage[owner].MoveToTrash(bytes)]
    requires after.versions == b.versions && after.quota == b.quota && after.retention == b.retention
    ensures DeleteNode(b, n, elapsed) == Ok(after) && Sound(after)
  {
    hide Sound, LiveUnder, FileBytes, Stamp, DeleteNode, Usage.MoveToTrash;
    DeleteShape(b, n, elapsed);
    DeleteNodeKeeps(b, n, elapsed);
  }

  lemma RestoreShape(b: Books, n: Id)
    ensures n !in b.drive.rows || b.drive.rows[n].Live() ==> RestoreNode(b, n) == Err(NotFound)
    ensures n in b.drive.rows && b.drive.rows[n].Trashed() ==>
              var row, destination := b.drive.rows[n], Destination(b.drive, n);
              && (destination.None? ==> RestoreNode(b, n) == Err(NotFound))
              && (destination.Some? && Taken(b.drive.rows, destination.value, row.name, Some(n)) ==> RestoreNode(b, n) == Err(NameTaken))
              && (destination.Some? && !Taken(b.drive.rows, destination.value, row.name, Some(n)) ==>
                    var batch := BatchUnder(b.drive.rows, n);
                    var rows := Stamp(b.drive.rows, batch, None)[n := row.(deletedAt := None, parent := destination)];
                    RestoreNode(b, n) == Ok(b.(drive := b.drive.(rows := rows),
                                               usage := Charge(b, row.owner, UsageOf(b, row.owner).RestoreFromTrash(FileBytes(b.drive.rows, batch))))))
  {
    hide Taken, Destination, BatchUnder, FileBytes, Stamp;
  }

  lemma DeleteEffect(b: Books, n: Id, elapsed: nat)
    requires Sound(b)
    ensures DeleteNode(b, n, elapsed).Ok? ==>
              var rows, rows' := b.drive.rows, DeleteNode(b, n, elapsed).value.drive.rows;
              rows'.Keys == rows.Keys && forall m <- rows' :: rows'[m].Live() <==> rows[m].Live() && !Under(rows, m, n)
  {
    hide Sound, Drive.WellFormed, FileBytes, Delete, Under;
    DriveOf(b);
    DeleteExactly(b.drive, n, elapsed);
  }

  lemma RestoreEffect(b: Books, n: Id)
    requires Sound(b)
    ensures RestoreNode(b, n).Ok? ==>
              var rows' := RestoreNode(b, n).value.drive.rows;
              n in b.drive.rows && n in rows' && rows'[n].Live() && rows'[n].parent.Some? && IsHome(b.drive, n, rows'[n].parent.value)
  {
    hide Sound, Drive.WellFormed, FileBytes, Restore, Under;
    DriveOf(b);
    if RestoreNode(b, n).Ok? {
      Restorable(b.drive, n);
      var home := RestoreExactly(b.drive, n);
    }
  }

  lemma Restorable(d: Drive, n: Id)
    requires Restore(d, n).Ok?
    ensures n in d.rows && d.rows[n].Trashed()
  {
  }

  /** The version just written is the current one, and pruning does not take it. */
  lemma StoreEffect(b: Books, n: Id, size: nat, digest: Digest, encrypted: bool, sealId: Option<Id>)
    requires Sound(b)
    ensures StoreVersion(b, n, size, digest, encrypted, sealId).Ok? ==>
              var after, x := StoreVersion(b, n, size, digest, encrypted, sealId).value, b.drive.nextId;
              && n in after.drive.rows && after.drive.rows[n].current == Some(x) && after.drive.rows[n].size == size
              && x in after.versions && after.versions[x].node == n && after.versions[x].digest == digest && after.versions[x].encrypted == encrypted
  {
    hide Sound, StoreVersion, NextSequence, Sums.Total, Doomed;
    if StoreVersion(b, n, size, digest, encrypted, sealId).Ok? {
      StoreIsWrite(b, n, size, digest, encrypted, sealId);
      StoredRow(b, n, size, digest, encrypted, sealId);
    }
  }

  lemma StoredRow(b: Books, n: Id, size: nat, digest: Digest, encrypted: bool, sealId: Option<Id>)
    requires StoreVersion(b, n, size, digest, encrypted, sealId).Ok?
    ensures n in b.drive.rows
  {
  }

  lemma CycleCheck(rows: Rows, n: Id, parent: Id)
    requires n in rows
    ensures Under(rows, parent, n) <==> n == parent || n in Above(rows, parent)
  {
    UnderSelf(rows, n);
  }

  lemma SubtreeInRows(rows: Rows, n: Id)
    ensures LiveUnder(rows, n) <= rows.Keys
  {
    hide Under;
  }

  function WithStamp(rows: Rows, ids: set<Id>, stamp: Option<Time>): set<Id> {
    set m | m in ids && m in rows && rows[m].deletedAt == stamp
  }

  lemma BatchIs(rows: Rows, n: Id, beneath: set<Id>)
    requires n in rows && beneath == Beneath(rows, n, true)
    ensures BatchUnder(rows, n) == WithStamp(rows, beneath, rows[n].deletedAt)
    ensures BatchUnder(rows, n) <= rows.Keys
  {
    hide Under;
  }

  /** Deletes one node's version rows, each after its object. */
  method DropVersions(versions: Versions, objects: set<ObjectKey>, n: Id) returns (kept: Versions, left: set<ObjectKey>, count: nat)
    ensures kept == versions - VersionsOf(versions, n) && count == |VersionsOf(versions, n)|
    ensures left == objects - (set x | x in VersionsOf(versions, n) :: KeyOf(x, versions[x]))
  {
    var own := VersionsOf(versions, n);
    var todo := own;
    kept, left, count := versions, objects, 0;
    while todo != {}
      invariant todo <= own <= versions.Keys && count == |own| - |todo|
      invariant kept == versions - (own - todo)
      invariant left == objects - (set x | x in own - todo :: KeyOf(x, versions[x]))
      decreases |todo|
    {
      var x :| x in todo;
      assert own - (todo - {x}) == (own - todo) + {x};
      left := left - {KeyOf(x, versions[x])};
      kept := kept - {x};
      todo := todo - {x};
      count := count + 1;
    }
    assert own - todo == own;
  }

  /** Destroys nodes for good. Rows cascade to their descendants, and to what refers to them. */
  class PurgeService {
    var held: Holdings

    method Strip(n: Id) returns (purged: Purged)
      modifies this
      ensures (held, purged) == Purge.Strip(old(held), n)
    {
      if n !in held.books.drive.rows { return NOTHING; }
      var row := held.books.drive.rows[n];
      if row.owner in held.books.usage {
        var record := new QuotaUsage.Load(held.books.usage[row.owner]);
        record.PurgeFromTrash(row.size);
        held := held.(books := held.books.(usage := held.books.usage[row.owner := record.Value()]));
      }
      var versions, objects, count := DropVersions(held.books.versions, held.objects, n);
      held := Holdings(held.books.(versions := versions), objects, set g | g in held.grants && g.0 != n, set k | k in held.keys && k.0 != n);
      purged := Purged(row.size, count, 1);
    }

    /** The database takes the descendants along. */
    method DeleteRow(n: Id)
      requires held.books.drive.WellFormed() && InTrash(held, n)
      modifies this
      ensures held == Purge.DeleteRow(old(held), n) && held.books.drive.WellFormed()
      ensures forall m :: InTrash(old(held), m) ==> InTrash(held, m)
    {
      hide Drive.WellFormed, Subtree, Beneath;
      var gone: set<Id> := {};
      if n in held.books.drive.rows {
        PurgeKeeps(held.books.drive, n);
        gone := Descendants(held.books.drive, n, true);
        BeneathIs(held.books.drive.rows, n);
      } else {
        NothingBeneath(held.books.drive, n);
        assert held.books.drive.rows - gone == held.books.drive.rows;
      }
      held := WithoutRows(held, gone);
    }

    /** Every node is stripped before any row goes, since a row takes its descendants' rows with it. */
    method PurgeSubtree(ids: seq<Id>, root: Id) returns (total: Purged)
      requires held.books.drive.WellFormed() && InTrash(held, root) && forall i :: 0 <= i < |ids| ==> InTrash(held, ids[i])
      modifies this
      ensures (held, total) == Purge.PurgeSubtree(old(held), ids, root)
    {
      hide Drive.WellFormed, Purge.Strip, Purge.DeleteRow;
      total := NOTHING;
      for i := 0 to |ids|
        invariant StripAll(held, ids[i..]).0 == StripAll(old(held), ids).0
        invariant total.Plus(StripAll(held, ids[i..]).1) == StripAll(old(held), ids).1
        invariant held.books.drive == old(held.books.drive)
      {
        StripKeepsDrive(held, ids[i]);
        assert ids[i..][1..] == ids[i + 1..];
        var purged := this.Strip(ids[i]);
        total := total.Plus(purged);
      }
      ghost var stripped := held;
      for i := 0 to |ids|
        invariant DeleteRows(held, ids[i..]) == DeleteRows(stripped, ids)
        invariant held.books.drive.WellFormed() && InTrash(held, root) && forall j :: 0 <= j < |ids| ==> InTrash(held, ids[j])
      {
        assert ids[i..][1..] == ids[i + 1..];
        this.DeleteRow(ids[i]);
      }
      this.DeleteRow(root);
    }

    /** A user purges a trashed node: afterwards the subtree is gone with its objects, and the totals are exact. */
    method Destroy(n: Id) returns (r: Option<Error>, total: Purged)
      requires Sound(held.books)
      modifies this
      ensures n !in old(held.books.drive.rows) ==> r == Some(NotFound) && held == old(held)
      ensures n in old(held.books.drive.rows) && old(held.books.drive.rows)[n].Live() ==> r == Some(Conflict) && held == old(held)
      ensures n in old(held.books.drive.rows) && old(held.books.drive.rows)[n].Trashed() ==>
                && r.None? && held == Destroyed(old(held), n)
                && total == Totals(old(held.books), Subtree(old(held.books.drive.rows), n))
    {
      hide Sound, Drive.WellFormed, Subtree, Beneath, Purge.PurgeSubtree, Destroyed, Totals, Elements, Distinct;
      total := NOTHING;
      if n !in held.books.drive.rows { return Some(NotFound), total; }
      if held.books.drive.rows[n].Live() { return Some(Conflict), total; }
      DriveOf(held.books);
      var found := Descendants(held.books.drive, n, true);
      BeneathIs(held.books.drive.rows, n);
      var ids := Listing(found);
      AllInTrash(held, n, ids);
      PurgeSubtreeDestroys(held, n, ids);
      total := this.PurgeSubtree(ids, n);
      r := None;
    }

    /** The number of rows a restore of each entry would lift. */
    method BatchSizes(ids: seq<Id>) returns (costs: seq<nat>)
      requires held.books.drive.WellFormed() && forall n <- ids :: n in held.books.drive.rows
      ensures |costs| == |ids| && costs == Costs(held.books.drive.rows, ids)
    {
      hide Drive.WellFormed, Beneath, BatchUnder, WithStamp;
      var rows := held.books.drive.rows;
      costs := [];
      for i := 0 to |ids|
        invariant |costs| == i && forall j :: 0 <= j < i ==> ids[j] in rows && costs[j] == |BatchUnder(rows, ids[j])|
      {
        assert ids[i] in ids;
        var beneath := Descendants(held.books.drive, ids[i], true);
        BatchIs(rows, ids[i], beneath);
        costs := costs + [|WithStamp(rows, beneath, rows[ids[i]].deletedAt)|];
      }
    }

    /**
     * One bounded call: refused unless the stated count is the one held, and otherwise destroying whole
     * entries, oldest first, while their batches fit the budget.
     */
    method EmptyTrash(owner: UserId, expected: int, list: seq<Id>) returns (r: Option<Error>, purged: nat, remaining: int, total: Purged)
      requires Sound(held.books) && OldestFirst(held.books.drive.rows, owner, list)
      modifies this
      ensures r.Some? <==> expected != |Entries(old(held.books.drive.rows), owner)|
      ensures r.Some? ==> r == Some(Conflict) && held == old(held)
      ensures r.None? ==>
                var spec := EmptyOnce(old(held.books), owner, expected, list);
                && spec.Ok? && purged == spec.value.purged <= |list| && remaining == spec.value.remaining
                && held.books == spec.value.books && (held, total) == DestroyAll(old(held), list[..purged])
    {
      hide Sound, Drive.WellFormed, Entries, Elements, Destroyed, Subtree, Totals, PurgeAll, Distinct, Spend, EmptyOnce, OldestFirst, AreEntries, DestroyAll, Costs;
      purged, total := 0, NOTHING;
      ghost var start := held;
      ListedRows(held.books.drive.rows, owner, list);
      if |Entries(held.books.drive.rows, owner)| != expected { return Some(Conflict), 0, 0, NOTHING; }
      var page := list[..Min(TRASH_PURGE_NODE_BUDGET, |list|)];
      DriveOf(held.books);
      TakenAreEntries(held.books, owner, list, |page|);
      var costs := BatchSizes(page);
      var spent: nat := 0;
      BeginEmptying(start, owner, expected, list, page);
      while purged < |page| && !(purged > 0 && spent + costs[purged] > TRASH_PURGE_NODE_BUDGET)
        invariant purged <= |page| && Spend(costs, purged, spent) == Spend(costs, 0, 0)
        invariant (held, total) == DestroyAll(start, page[..purged])
        invariant AreEntries(held.books, owner, page[purged..])
        decreases |page| - purged
      {
        var n := page[purged];
        SpendStep(costs, purged, spent);
        NextToGo(held, owner, page[purged..]);
        NextEntries(held, owner, page[purged..]);
        assert page[purged..][1..] == page[purged + 1..];
        DestroyOneMore(start, page[..purged], n);
        assert page[..purged + 1] == page[..purged] + [n];
        var refused, one := this.Destroy(n);
        spent := spent + costs[purged];
        total := total.Plus(one);
        purged := purged + 1;
      }
      SpendStep(costs, purged, spent);
      assert page[..purged] == list[..purged];
      EmptyingIs(start, owner, expected, list, page, purged);
      remaining := expected - purged;
      r := None;
    }
  }

  lemma SpendStep(costs: seq<nat>, i: nat, spent: nat)
    requires i <= |costs|
    ensures Spend(costs, i, spent) ==
              if i == |costs| || (i > 0 && spent + costs[i] > TRASH_PURGE_NODE_BUDGET) then i else Spend(costs, i + 1, spent + costs[i])
  {
  }

  lemma BeginEmptying(h: Holdings, owner: UserId, expected: int, list: seq<Id>, page: seq<Id>)
    requires Sound(h.books) && OldestFirst(h.books.drive.rows, owner, list) && page == list[..Min(TRASH_PURGE_NODE_BUDGET, |list|)]
    ensures AreEntries(h.books, owner, page[0..]) && DestroyAll(h, page[..0]) == (h, NOTHING) && forall n <- page :: n in h.books.drive.rows
  {
    hide Sound, Entries;
    ListedRows(h.books.drive.rows, owner, list);
    TakenAreEntries(h.books, owner, list, |page|);
    assert page[0..] == page;
  }

  /** What the loop has done when it stops is the call's whole effect. */
  lemma EmptyingIs(h: Holdings, owner: UserId, expected: int, list: seq<Id>, page: seq<Id>, purged: nat)
    requires Sound(h.books) && OldestFirst(h.books.drive.rows, owner, list) && page == list[..Min(TRASH_PURGE_NODE_BUDGET, |list|)]
    requires expected == |Entries(h.books.drive.rows, owner)| && (forall n <- page :: n in h.books.drive.rows)
    requires purged == Spend(Costs(h.books.drive.rows, page), 0, 0)
    ensures var spec := EmptyOnce(h.books, owner, expected, list);
            && spec.Ok? && purged == spec.value.purged <= |list| && expected - purged == spec.value.remaining
            && DestroyAll(h, list[..purged]).0.books == spec.value.books
  {
    hide Sound, Entries, Spend, PurgeAll, Costs, Subtree, Totals, ObjectsOf, DestroyAll;
    ListedRows(h.books.drive.rows, owner, list);
    EmptyOnceTakesPrefix(h.books, owner, expected, list);
    TakenAreEntries(h.books, owner, list, purged);
    DestroyAllExact(h, owner, list[..purged]);
    EmptiedBooks(h.books, owner, list);
  }

  lemma NextToGo(h: Holdings, owner: UserId, ids: seq<Id>)
    requires AreEntries(h.books, owner, ids) && ids != []
    ensures Sound(h.books) && ids[0] in h.books.drive.rows && h.books.drive.rows[ids[0]].Trashed()
  {
    hide Sound;
    assert ids[0] in ids;
  }

  predicate InTrash(h: Holdings, n: Id) {
    n in h.books.drive.rows ==> h.books.drive.rows[n].Trashed()
  }

  lemma StripKeepsDrive(h: Holdings, n: Id)
    ensures Purge.Strip(h, n).0.books.drive == h.books.drive
  {
  }

  lemma AllInTrash(h: Holdings, n: Id, ids: seq<Id>)
    requires h.books.drive.WellFormed() && n in h.books.drive.rows && h.books.drive.rows[n].Trashed()
    requires Elements(ids) == Subtree(h.books.drive.rows, n)
    ensures forall i :: 0 <= i < |ids| ==> InTrash(h, ids[i])
  {
    hide Drive.WellFormed;
    AcyclicOf(h.books.drive);
    forall i | 0 <= i < |ids|
      ensures InTrash(h, ids[i])
    {
      assert ids[i] in Elements(ids);
      UnderTrashed(h.books.drive.rows, ids[i], n);
    }
  }

  lemma NothingBeneath(d: Drive, n: Id)
    requires d.WellFormed() && n !in d.rows
    ensures Subtree(d.rows, n) == {}
  {
    hide Drive.WellFormed;
    forall m, k: nat | m in d.rows
      ensures Up(d.rows, m, k) != Some(n)
    {
      if Up(d.rows, m, k).Some? {
        AcyclicOf(d);
        ChainStaysInside(d.rows, m, k);
      }
    }
  }
}
