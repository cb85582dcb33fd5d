/** Which writes leave an object behind that no version names, and what becomes of it. */
module Orphans {
  import opened Prelude
  import Framing
  import opened Cipher
  import opened Tree
  import opened TreeInvariant
  import opened Ledger
  import opened LedgerInvariant
  import opened Purge
  import opened Content
  import opened ContentInvariant
  import Reaper

  predicate Unnamed(v: Vault, key: ObjectKey) {
    forall y <- v.books.versions :: KeyOf(y, v.books.versions[y]) != key
  }

  /** Between `v` and `v'` an object appeared that no version row names. */
  predicate LeavesOrphan(v: Vault, v': Vault) {
    exists key <- v'.objects :: key !in v.objects && Unnamed(v', key)
  }

  /** Everything a write needs before the object is put: a live file and, if it is encrypted, a key for it and few enough frames. */
  ghost predicate ReachesPut(v: Vault, n: Id, content: seq<Framing.byte>, nonces: nat -> Nonce) {
    var d := v.books.drive;
    && LiveNode(d, n) && d.rows[n].kind == File
    && (d.rows[n].encrypted ==>
          && EnsureDataKey(v, n, d.rows[n].owner).Some?
          && var c := Context(EnsureDataKey(v, n, d.rows[n].owner).value.1, UuidBytes(d.nextId), v.frameBytes, nonces);
             c.Valid() && Framing.FrameCount(|content|, c.frameBytes) <= Framing.INDEX_LIMIT)
  }

  /** The owner's buckets, with the superseded content moved to history, have no room for `size` more. */
  predicate NoRoom(b: Books, n: Id, size: nat)
    requires n in b.drive.rows
  {
    var row := b.drive.rows[n];
    Known(b, row.owner) && Moved(b, row).WouldExceed(b.quota[row.owner], size)
  }

  lemma StoreRefused(b: Books, n: Id, size: nat, digest: Digest, encrypted: bool, sealId: Option<Id>)
    requires LiveNode(b.drive, n) && b.drive.rows[n].kind == File
    ensures StoreVersion(b, n, size, digest, encrypted, sealId).Err? <==> NoRoom(b, n, size)
    ensures StoreVersion(b, n, size, digest, encrypted, sealId).Err? ==> StoreVersion(b, n, size, digest, encrypted, sealId) == Err(QuotaExceeded)
  {
    hide NextSequence, Doomed, Sums.Total, VersionSizes, Moved, Usage.WouldExceed;
  }

  lemma RecordLeaves(v: Vault, prepared: Vault, n: Id, cells: seq<Cell>, size: nat, digest: Digest, encrypted: bool, sealId: Option<Id>)
    requires Held(v) && prepared.books == v.books && prepared.objects == v.objects
    requires LiveNode(v.books.drive, n) && v.books.drive.rows[n].kind == File
    ensures var reply := Record(v, prepared, n, cells, size, digest, encrypted, sealId);
            var key := ObjectKey(v.books.drive.rows[n].owner, n, v.books.drive.nextId);
            && (LeavesOrphan(v, reply.vault) <==> NoRoom(v.books, n, size))
            && (NoRoom(v.books, n, size) ==>
                  && reply.failure == Some(Refused(QuotaExceeded)) && key !in v.objects && Unnamed(reply.vault, key)
                  && reply.vault.objects == v.objects[key := cells] && reply.vault.books.versions == v.books.versions)
            && (reply.failure.Some? <==> NoRoom(v.books, n, size))
  {
    hide StoreVersion, NoRoom, Held, NextSequence;
    StoreRefused(v.books, n, size, digest, encrypted, sealId);
    var key := ObjectKey(v.books.drive.rows[n].owner, n, v.books.drive.nextId);
    HeldParts(v);
    assert key !in v.objects;
    FreshVersion(v);
    var v' := Record(v, prepared, n, cells, size, digest, encrypted, sealId).vault;
    if NoRoom(v.books, n, size) {
      assert key in v'.objects && Unnamed(v', key);
    } else {
      StoreShape(v.books, n, size, digest, encrypted, sealId);
      forall k | k in v'.objects && k !in v.objects
        ensures !Unnamed(v', k)
      {
        assert k == key && key.version in v'.books.versions;
        assert KeyOf(key.version, v'.books.versions[key.version]) == key;
      }
    }
  }

  lemma FreshVersion(v: Vault)
    requires Held(v)
    ensures v.books.drive.nextId !in v.books.versions
  {
    hide Held, Opens;
    forall y | y in v.books.versions
      ensures y != v.books.drive.nextId
    {
      HeldVersion(v, y);
    }
  }

  /** The rows are as before, and `key` is the one object that was not there. */
  predicate IsOrphanOf(v: Vault, v': Vault, key: ObjectKey) {
    && key !in v.objects && Unnamed(v', key) && key.version !in v'.books.versions
    && v'.objects.Keys == v.objects.Keys + {key} && v'.books.versions == v.books.versions
  }

  /**
   * A write leaves an orphan exactly when it gets as far as the put and the owner's quota then has no room.
   * Any other failure leaves the store as it was.
   */
  lemma WriteOrphansExactly(v: Vault, n: Id, content: seq<Framing.byte>, nonces: nat -> Nonce)
    requires Held(v)
    ensures var reply := WriteContent(v, n, content, nonces);
            && (LeavesOrphan(v, reply.vault) <==> ReachesPut(v, n, content, nonces) && NoRoom(v.books, n, |content|))
            && (LeavesOrphan(v, reply.vault) <==> reply.failure == Some(Refused(QuotaExceeded)))
            && (reply.failure.Some? && !LeavesOrphan(v, reply.vault) ==> reply.vault == v)
            && (reply.failure == Some(Refused(QuotaExceeded)) ==>
                  n in v.books.drive.rows && IsOrphanOf(v, reply.vault, ObjectKey(v.books.drive.rows[n].owner, n, v.books.drive.nextId)))
  {
    hide Held, Record, Context.Stored, EnsureDataKey, RawCells, Framing.FrameCount, NoRoom, LeavesOrphan;
    var d := v.books.drive;
    SameLeavesNone(v);
    FreshVersion(v);
    if LiveNode(d, n) && d.rows[n].kind == File {
      if !d.rows[n].encrypted {
        RecordLeaves(v, v, n, RawCells(content), |content|, Sha256(content), false, None);
      } else if ReachesPut(v, n, content, nonces) {
        var (prepared, dek) := EnsureDataKey(v, n, d.rows[n].owner).value;
        EnsureKeeps(v, n);
        SameFrameSize(v, n);
        var c := Context(dek, UuidBytes(d.nextId), v.frameBytes, nonces);
        RecordLeaves(v, prepared, n, c.Stored(content), |content|, Sha256(content), true, None);
      }
    }
  }

  lemma SameLeavesNone(v: Vault)
    ensures !LeavesOrphan(v, v)
  {
  }

  /** Where the books balance, having no room is simply the total and the new size exceeding the quota. */
  lemma NoRoomInBalance(b: Books, n: Id, size: nat)
    requires Sound(b) && LiveNode(b.drive, n) && b.drive.rows[n].kind == File
    ensures var u := b.drive.rows[n].owner;
            Known(b, u) && (NoRoom(b, n, size) <==> b.usage[u].Total() + size > b.quota[u])
  {
    hide Sound, StoreVersion, NoRoom;
    KnownOwner(b, n);
    StoreRefused(b, n, size, Sha256([]), false, None);
    WriteRefusedExactly(b, n, size, Sha256([]), false, None);
  }

  // ----- seen by the reaper

  function NameOf(key: ObjectKey): Reaper.Name {
    Reaper.Ours(key.owner, key.node, key.version)
  }

  /** The vault as the reaper meets it, each object last modified at `put`. */
  ghost function WorldOf(v: Vault, put: ObjectKey -> Time, now: Time): Reaper.World {
    Reaper.World(now, map key | key in v.objects :: NameOf(key) := Some(put(key)), map x | x in v.books.versions :: NameOf(KeyOf(x, v.books.versions[x])),
                 map[], {}, map[], {})
  }

  /** A pass that starts a grace period after the put collects the orphan, and never an object some version names. */
  lemma OrphanIsCollected(v: Vault, n: Id, content: seq<Framing.byte>, nonces: nat -> Nonce, put: ObjectKey -> Time, moment: Time, grace: nat)
    requires Held(v) && WriteContent(v, n, content, nonces).failure == Some(Refused(QuotaExceeded))
    ensures n in v.books.drive.rows
    ensures var v' := WriteContent(v, n, content, nonces).vault;
            var key := ObjectKey(v.books.drive.rows[n].owner, n, v.books.drive.nextId);
            var w := WorldOf(v', put, moment);
            && IsOrphanOf(v, v', key)
            && (Reaper.IsOrphan(w, moment, grace, NameOf(key)) <==> moment as int - put(key) as int >= grace)
            && (forall y <- v'.books.versions :: !Reaper.IsOrphan(w, moment, grace, NameOf(KeyOf(y, v'.books.versions[y]))))
  {
    hide Held, WriteContent, Opens;
    WriteOrphansExactly(v, n, content, nonces);
    var v' := WriteContent(v, n, content, nonces).vault;
    var key := ObjectKey(v.books.drive.rows[n].owner, n, v.books.drive.nextId);
    var w := WorldOf(v', put, moment);
    assert NameOf(key) in w.objects && w.objects[NameOf(key)] == Some(put(key));
  }

  // ----- a first upload into no quota

  const CONTENT: seq<Framing.byte> := [1]

  /** One user with a root and no quota at all. */
  function NoQuota(provider: Provider, frameBytes: nat, retention: nat): Vault {
    var root := Row(0, Folder, "root", None, None, 0, None, false);
    Vault(Books(Drive(map[0 := root], map[0 := 0], 1, 0), map[], map[0 := Usage(0, 0, 0)], map[0 := 0], retention),
          map[], map[], map[0 := UserKey(0, provider.current, provider.current)], provider, 1, frameBytes)
  }

  lemma NoQuotaIsReached(provider: Provider, frameBytes: nat, retention: nat)
    ensures Content.Apply(Content.Opening(provider, frameBytes, retention), AddUser(0, 0)).vault == NoQuota(provider, frameBytes, retention)
  {
  }

  lemma UploadIsRefused(provider: Provider, frameBytes: nat, retention: nat, nonces: nat -> Nonce)
    ensures var v := NoQuota(provider, frameBytes, retention);
            var row := Row(0, File, "a", Some(0), None, 0, None, false);
            var v1 := v.(books := v.books.(drive := v.books.drive.(rows := v.books.drive.rows[1 := row], nextId := 2)));
            && Create(v.books.drive, 0, "a", File, false, false) == Ok(v1.books.drive) && ChildNamed(v.books.drive.rows, 0, "a").None?
            && WriteContent(v1, 1, CONTENT, nonces) == Orphaned(v1, ObjectKey(0, 1, 2), RawCells(CONTENT), Refused(QuotaExceeded))
  {
    hide RawCells, Context.Stored;
    var v := NoQuota(provider, frameBytes, retention);
    var row := Row(0, File, "a", Some(0), None, 0, None, false);
    var v1 := v.(books := v.books.(drive := v.books.drive.(rows := v.books.drive.rows[1 := row], nextId := 2)));
    assert ChildNamed(v.books.drive.rows, 0, "a").None?;
    assert StoreVersion(v1.books, 1, 1, Sha256(CONTENT), false, None) == Err(QuotaExceeded);
  }

  /** In the run that adds such a user and uploads one byte for them, the object stays, and neither file nor version does. */
  lemma FirstUploadLeavesOrphan(provider: Provider, frameBytes: nat, retention: nat, nonces: nat -> Nonce)
    ensures var ops := [AddUser(0, 0), Put(0, "a", false, CONTENT, nonces)];
            var v := Content.Run(Content.Opening(provider, frameBytes, retention), ops);
            v.objects == map[ObjectKey(0, 1, 2) := RawCells(CONTENT)] && v.books.versions == map[] && v.books.drive.rows.Keys == {0}
  {
    hide RawCells, WriteContent, Create, ChildNamed, Content.Opening;
    var ops := [AddUser(0, 0), Put(0, "a", false, CONTENT, nonces)];
    NoQuotaIsReached(provider, frameBytes, retention);
    UploadIsRefused(provider, frameBytes, retention, nonces);
    var v := NoQuota(provider, frameBytes, retention);
    var put := Content.Apply(v, ops[1]).vault;
    assert put.objects == map[ObjectKey(0, 1, 2) := RawCells(CONTENT)];
    TwoSteps(Content.Opening(provider, frameBytes, retention), ops[0], ops[1]);
  }

  lemma TwoSteps(v: Vault, a: Content.Op, b: Content.Op)
    ensures Content.Run(v, [a, b]) == Content.Apply(Content.Apply(v, a).vault, b).vault
  {
    hide Content.Apply;
    assert [a, b][1..] == [b] && [b][1..] == [];
    var v1 := Content.Apply(v, a).vault;
    assert Content.Run(v, [a, b]) == Content.Run(v1, [b]);
    assert Content.Run(v1, [b]) == Content.Run(Content.Apply(v1, b).vault, []);
  }
}
