/**
 * Version rows and quota accounting on top of the tree: what an upload, a version restore, a delete,
 * a restore and a purge do to a user's buckets.
 */
module Ledger {
  import opened Prelude
  import Framing
  import opened Tree
  import opened Sums

  /** SHA-256, symbolically: equal exactly for equal content. */
  datatype Digest = Sha256(content: seq<Framing.byte>)

  datatype Version = Version(node: Id, owner: UserId, sequence: nat, size: nat, digest: Digest, encrypted: bool, sealId: Id)

  type Versions = map<Id, Version>

  // ----- quota buckets, with the clamps that keep them from going negative

  datatype Usage = Usage(live: int, trashed: int, versions: int) {
    function Total(): int {
      live + trashed + versions
    }

    predicate WouldExceed(quota: int, additional: int) {
      Total() + additional > quota
    }

    function ChargeLive(delta: int): Usage {
      this.(live := Max(live + delta, 0))
    }

    function ChargeVersions(delta: int): Usage {
      this.(versions := Max(versions + delta, 0))
    }

    function MoveToTrash(size: int): Usage {
      var moved := Min(size, live);
      this.(live := live - moved, trashed := trashed + moved)
    }

    function RestoreFromTrash(size: int): Usage {
      var moved := Min(size, trashed);
      this.(trashed := trashed - moved, live := live + moved)
    }

    function PurgeFromTrash(size: int): Usage {
      this.(trashed := Max(trashed - size, 0))
    }
  }

  datatype Books = Books(drive: Drive, versions: Versions, usage: map<UserId, Usage>, quota: map<UserId, nat>, retention: nat)

  // ----- version rows

  function VersionsOf(vs: Versions, n: Id): set<Id> {
    set x | x in vs && vs[x].node == n
  }

  /** Versions of the same node that came after `x`. */
  function Newer(vs: Versions, x: Id): set<Id>
    requires x in vs
  {
    set y | y in vs && vs[y].node == vs[x].node && vs[y].sequence > vs[x].sequence
  }

  /** What `prune_beyond` drops: versions with `keep` or more newer ones. */
  function Doomed(vs: Versions, n: Id, keep: nat): set<Id> {
    set x | x in vs && vs[x].node == n && |Newer(vs, x)| >= keep
  }

  /** One more than every sequence number the node has used so far and still holds. */
  ghost function NextSequence(vs: Versions, n: Id): (next: nat)
    ensures next >= 1 && forall x <- vs :: vs[x].node == n ==> vs[x].sequence < next
  {
    Highest(vs, VersionsOf(vs, n)) + 1
  }

  ghost function Highest(vs: Versions, s: set<Id>): (h: nat)
    requires s <= vs.Keys
    ensures forall x <- s :: vs[x].sequence <= h
  {
    if s == {} then 0
    else
      var x :| x in s;
      var rest := Highest(vs, s - {x});
      assert s == s - {x} + {x};
      Max(vs[x].sequence, rest)
  }

  ghost function Sizes(rows: Rows): Weights {
    map n | n in rows :: rows[n].size
  }

  ghost function VersionSizes(vs: Versions): Weights {
    map x | x in vs :: vs[x].size
  }

  // ----- writing a version

  /** What `_charge` asks of the buckets before the room check. */
  function Superseded(u: Usage, row: Row): Usage {
    if row.current.Some? then u.ChargeLive(0 - row.size).ChargeVersions(row.size) else u
  }

  /** Both the quota record and the user exist; without them a write is recorded but not charged. */
  predicate Known(b: Books, u: UserId) {
    u in b.usage && u in b.quota
  }

  function Moved(b: Books, row: Row): Usage {
    if Known(b, row.owner) then Superseded(b.usage[row.owner], row) else UsageOf(b, row.owner)
  }

  /**
   * Records a new current version of a live file: charge, version row, node row, prune.
   * A missing `sealId` means the content is sealed here, under the new version's own id.
   */
  ghost function StoreVersion(b: Books, n: Id, size: nat, digest: Digest, encrypted: bool, sealId: Option<Id>): Result<Books, Error> {
    var d := b.drive;
    if !LiveNode(d, n) then Err(NotFound)
    else if d.rows[n].kind != File then Err(Validation)
    else
      var row, v := d.rows[n], d.nextId;
      var moved := Moved(b, row);
      if Known(b, row.owner) && moved.WouldExceed(b.quota[row.owner], size) then Err(QuotaExceeded)
      else
        var version := Version(n, row.owner, NextSequence(b.versions, n), size, digest, encrypted,
                               if sealId.Some? then sealId.value else v);
        var added := b.versions[v := version];
        var doomed := Doomed(added, n, b.retention);
        var charged := if Known(b, row.owner) then moved.ChargeLive(size) else moved;
        Ok(b.(drive := d.(rows := d.rows[n := row.(current := Some(v), size := size)], nextId := v + 1),
              versions := added - doomed,
              usage := Charge(b, row.owner, charged.ChargeVersions(0 - Sums.Total(VersionSizes(added), doomed)))))
  }

  ghost function Replace(b: Books, n: Id, content: seq<Framing.byte>): Result<Books, Error> {
    if !LiveNode(b.drive, n) then Err(NotFound)
    else StoreVersion(b, n, |content|, Sha256(content), b.drive.rows[n].encrypted, None)
  }

  /** The live child `upload` finds under the name, if any. */
  ghost function ChildNamed(rows: Rows, parent: Id, name: string): (r: Option<Id>)
    ensures r.Some? ==> IsLiveChild(rows, r.value, parent, name)
    ensures r.None? ==> !Taken(rows, parent, name, None)
  {
    if m :| m in rows && IsLiveChild(rows, m, parent, name) then Some(m) else None
  }

  /** Adds a version to the file already at the name, or creates the file with its first version. */
  ghost function Upload(b: Books, parent: Id, name: string, encrypted: bool, content: seq<Framing.byte>): Result<Books, Error> {
    var d := b.drive;
    if !LiveNode(d, parent) then Err(NotFound)
    else if d.rows[parent].kind != Folder then Err(Validation)
    else
      match ChildNamed(d.rows, parent, name)
      case Some(m) => if d.rows[m].kind != File then Err(Validation) else Replace(b, m, content)
      case None =>
        match Create(d, parent, name, File, encrypted, false)
        case Err(e) => Err(e)
        case Ok(created) => Replace(b.(drive := created), d.nextId, content)
  }

  /** Brings an old version back as a new one. */
  ghost function RestoreVersion(b: Books, n: Id, x: Id): Result<Books, Error> {
    if !LiveNode(b.drive, n) then Err(NotFound)
    else if x !in b.versions || b.versions[x].node != n then Err(NotFound)
    else
      var source := b.versions[x];
      StoreVersion(b, n, source.size, source.digest, source.encrypted, Some(source.sealId))
  }

  // ----- the tree operations, with their effect on the buckets

  function FilesIn(rows: Rows, s: set<Id>): set<Id> {
    set m | m in s && m in rows && rows[m].kind == File
  }

  /** `sum(n.size_bytes for n in rows if n.is_file)`. */
  ghost function FileBytes(rows: Rows, s: set<Id>): nat {
    Sums.Total(Sizes(rows), FilesIn(rows, s))
  }

  function Charge(b: Books, u: UserId, usage: Usage): map<UserId, Usage> {
    if u in b.usage then b.usage[u := usage] else b.usage
  }

  function UsageOf(b: Books, u: UserId): Usage {
    if u in b.usage then b.usage[u] else Usage(0, 0, 0)
  }

  ghost function DeleteNode(b: Books, n: Id, elapsed: nat): Result<Books, Error> {
    match Delete(b.drive, n, elapsed)
    case Err(e) => Err(e)
    case Ok(d) =>
      var owner := b.drive.rows[n].owner;
      var bytes := FileBytes(b.drive.rows, LiveUnder(b.drive.rows, n));
      Ok(b.(drive := d, usage := Charge(b, owner, UsageOf(b, owner).MoveToTrash(bytes))))
  }

  ghost function RestoreNode(b: Books, n: Id): Result<Books, Error> {
    match Restore(b.drive, n)
    case Err(e) => Err(e)
    case Ok(d) =>
      var owner := b.drive.rows[n].owner;
      var bytes := FileBytes(b.drive.rows, BatchUnder(b.drive.rows, n));
      Ok(b.(drive := d, usage := Charge(b, owner, UsageOf(b, owner).RestoreFromTrash(bytes))))
  }

  /** Destroys a trashed subtree with its version rows; history bytes are not released. */
  ghost function PurgeNode(b: Books, n: Id): Result<Books, Error> {
    match Purge(b.drive, n)
    case Err(e) => Err(e)
    case Ok(d) =>
      var rows := b.drive.rows;
      var gone := Subtree(rows, n);
      var owner := rows[n].owner;
      Ok(b.(drive := d,
            versions := map x | x in b.versions && b.versions[x].node !in gone :: b.versions[x],
            usage := Charge(b, owner, UsageOf(b, owner).PurgeFromTrash(Sums.Total(Sizes(rows), gone)))))
  }

  // ----- runs

  datatype Op =
    | Join(user: UserId, quota: nat)
    | MakeFolder(parent: Id, name: string)
    | PutFile(parent: Id, name: string, encrypted: bool, content: seq<Framing.byte>)
    | PutContent(node: Id, content: seq<Framing.byte>)
    | BringBack(node: Id, version: Id)
    | GiveName(node: Id, name: string)
    | Relocate(node: Id, parent: Id)
    | ToTrash(node: Id, elapsed: nat)
    | FromTrash(node: Id)
    | Destroy(node: Id)

  ghost function OnDrive(b: Books, r: Result<Drive, Error>): Result<Books, Error> {
    match r
    case Err(e) => Err(e)
    case Ok(d) => Ok(b.(drive := d))
  }

  ghost function Apply(b: Books, op: Op): Result<Books, Error> {
    match op
    case Join(u, quota) =>
      OnDrive(b.(usage := b.usage[u := Usage(0, 0, 0)], quota := b.quota[u := quota]), Provision(b.drive, u))
    case MakeFolder(p, name) => OnDrive(b, Create(b.drive, p, name, Folder, false, true))
    case PutFile(p, name, encrypted, content) => Upload(b, p, name, encrypted, content)
    case PutContent(n, content) => Replace(b, n, content)
    case BringBack(n, x) => RestoreVersion(b, n, x)
    case GiveName(n, name) => OnDrive(b, Rename(b.drive, n, name))
    case Relocate(n, p) => OnDrive(b, Move(b.drive, n, p))
    case ToTrash(n, elapsed) => DeleteNode(b, n, elapsed)
    case FromTrash(n) => RestoreNode(b, n)
    case Destroy(n) => PurgeNode(b, n)
  }

  ghost function Step(b: Books, op: Op): Books {
    var r := Apply(b, op);
    if r.Ok? then r.value else b
  }

  ghost function Run(b: Books, ops: seq<Op>): Books
    decreases |ops|
  {
    if ops == [] then b else Run(Step(b, ops[0]), ops[1..])
  }

  /** A service with no users; `retention` is a positive setting. */
  function Opening(retention: nat): Books {
    Books(EMPTY, map[], map[], map[], retention)
  }

  // ----- the invariant

  ghost function Files(rows: Rows, u: UserId, live: bool): set<Id> {
    set n | n in rows && rows[n].owner == u && rows[n].kind == File && rows[n].Live() == live
  }

  predicate IsCurrent(b: Books, x: Id)
    requires x in b.versions
  {
    var n := b.versions[x].node;
    n in b.drive.rows && b.drive.rows[n].current == Some(x)
  }

  /** Versions of a user's files that are retained but not current. */
  ghost function History(b: Books, u: UserId): set<Id> {
    set x | x in b.versions && b.versions[x].owner == u && !IsCurrent(b, x)
  }

  /** The buckets of one user against the rows they summarise. */
  ghost predicate Balanced(b: Books, u: UserId) {
    && u in b.usage && u in b.quota
    && b.usage[u].live == Sums.Total(Sizes(b.drive.rows), Files(b.drive.rows, u, true))
    && b.usage[u].trashed == Sums.Total(Sizes(b.drive.rows), Files(b.drive.rows, u, false))
    && b.usage[u].versions >= Sums.Total(VersionSizes(b.versions), History(b, u))
  }

  /** A version belongs to an existing file of its owner. */
  predicate VersionOk(b: Books, x: Id)
    requires x in b.versions
  {
    var v := b.versions[x];
    && x < b.drive.nextId && v.node in b.drive.rows
    && b.drive.rows[v.node].kind == File && b.drive.rows[v.node].owner == v.owner
    && b.drive.rows[v.node].current.Some?
  }

  /** A file's current version exists, has the recorded size and is the newest one. */
  ghost predicate FileOk(b: Books, n: Id)
    requires n in b.drive.rows
  {
    var row := b.drive.rows[n];
    && (row.current.None? ==> row.size == 0)
    && (row.current.Some? ==>
          && row.current.value in b.versions && b.versions[row.current.value].node == n
          && b.versions[row.current.value].size == row.size
          && (forall x <- b.versions :: b.versions[x].node == n && x != row.current.value ==>
                b.versions[x].sequence < b.versions[row.current.value].sequence))
  }

  ghost predicate Sound(b: Books) {
    && b.drive.WellFormed() && b.retention >= 1
    && (forall x {:trigger VersionOk(b, x)} :: x in b.versions ==> VersionOk(b, x))
    && (forall n {:trigger FileOk(b, n)} :: n in b.drive.rows ==> FileOk(b, n))
    && (forall u {:trigger Balanced(b, u)} :: u in b.drive.roots ==> Balanced(b, u))
  }
}
