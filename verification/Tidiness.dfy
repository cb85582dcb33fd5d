/** As long as no operation fails, the store holds exactly the objects that versions name. */
module Tidiness {
  import opened Prelude
  import Framing
  import opened Cipher
  import opened Tree
  import opened TreeInvariant
  import opened Sums
  import opened Ledger
  import opened LedgerInvariant
  import opened Purge
  import opened Content
  import opened ContentInvariant
  import opened Orphans
  import opened ContentEffects

  /** Every stored object is some version's. */
  ghost predicate Tidy(v: Vault) {
    forall key <- v.objects :: !Unnamed(v, key)
  }

  lemma RecordTidy(v: Vault, prepared: Vault, n: Id, cells: seq<Cell>, size: nat, digest: Digest, encrypted: bool, sealId: Option<Id>)
    requires Held(v) && Tidy(v) && n in v.books.drive.rows && prepared.books == v.books && prepared.objects == v.objects && v.books.retention >= 1
    requires Record(v, prepared, n, cells, size, digest, encrypted, sealId).failure.None?
    ensures Tidy(Record(v, prepared, n, cells, size, digest, encrypted, sealId).vault)
  {
    hide Held, StoreVersion, NextSequence;
    FreshVersion(v);
    StoreShape(v.books, n, size, digest, encrypted, sealId);
    ContentInvariant.NewestIsKept(v.books, n, size, digest, encrypted, sealId);
    var v', x := Record(v, prepared, n, cells, size, digest, encrypted, sealId).vault, v.books.drive.nextId;
    var made := ObjectKey(v.books.drive.rows[n].owner, n, x);
    var added := v.books.versions[x := Version(n, v.books.drive.rows[n].owner, NextSequence(v.books.versions, n), size, digest, encrypted,
                                               if sealId.Some? then sealId.value else x)];
    forall key | key in v'.objects
      ensures !Unnamed(v', key)
    {
      if key == made {
        assert KeyOf(x, v'.books.versions[x]) == key;
      } else {
        var y :| y in v.books.versions && KeyOf(y, v.books.versions[y]) == key;
        assert y in added && KeyOf(y, added[y]) == key;
        assert y in v'.books.versions;
      }
    }
  }

  lemma WriteTidy(v: Vault, n: Id, content: seq<Framing.byte>, nonces: nat -> Nonce)
    requires Held(v) && Tidy(v) && v.books.retention >= 1 && WriteContent(v, n, content, nonces).failure.None?
    ensures Tidy(WriteContent(v, n, content, nonces).vault)
  {
    hide Held, Record, Context.Stored, EnsureDataKey, RawCells, Framing.FrameCount, Tidy;
    var d := v.books.drive;
    if !d.rows[n].encrypted {
      RecordTidy(v, v, n, RawCells(content), |content|, Sha256(content), false, None);
    } else {
      var (prepared, dek) := EnsureDataKey(v, n, d.rows[n].owner).value;
      EnsureKeeps(v, n);
      RecordTidy(v, prepared, n, Context(dek, UuidBytes(d.nextId), v.frameBytes, nonces).Stored(content), |content|, Sha256(content), true, None);
    }
  }

  lemma SameTidy(v: Vault, v': Vault)
    requires Tidy(v) && v'.objects == v.objects && v'.books.versions == v.books.versions
    ensures Tidy(v')
  {
    hide Unnamed;
    forall key | key in v.objects ensures Unnamed(v', key) <==> Unnamed(v, key) { SameNames(v, v', key); }
  }

  lemma SameNames(v: Vault, v': Vault, key: ObjectKey)
    requires v'.books.versions == v.books.versions
    ensures Unnamed(v', key) <==> Unnamed(v, key)
  {
  }

  lemma UploadTidy(v: Vault, parent: Id, name: string, encrypted: bool, content: seq<Framing.byte>, nonces: nat -> Nonce)
    requires Held(v) && Tidy(v) && v.books.retention >= 1 && UploadFile(v, parent, name, encrypted, content, nonces).failure.None?
    ensures Tidy(UploadFile(v, parent, name, encrypted, content, nonces).vault)
  {
    hide Held, WriteContent, Create, ChildNamed, Tidy;
    var d := v.books.drive;
    match ChildNamed(d.rows, parent, name)
    case Some(m) => WriteTidy(v, m, content, nonces);
    case None =>
      var v1 := v.(books := v.books.(drive := Create(d, parent, name, File, encrypted, false).value));
      CreatedKeeps(v, parent, name, File, encrypted, false);
      SameTidy(v, v1);
      WriteTidy(v1, d.nextId, content, nonces);
  }

  lemma EncryptTidy(v: Vault, n: Id, subject: UserId, nonces: nat -> Nonce)
    requires Held(v) && Tidy(v) && v.books.retention >= 1 && TurnOnEncryption(v, n, subject, nonces).failure.None?
    ensures Tidy(TurnOnEncryption(v, n, subject, nonces).vault)
  {
    hide Held, WriteContent, Download, Tidy;
    var d := v.books.drive;
    if !d.rows[n].encrypted {
      var flipped := v.(books := v.books.(drive := d.(rows := d.rows[n := d.rows[n].(encrypted := true)])));
      FlipKeeps(v, n);
      SameTidy(v, flipped);
      WriteTidy(flipped, n, Download(v, d.rows[n].current.value, subject).value, nonces);
    }
  }

  lemma CopyTidy(v: Vault, source: Id, folder: Id, name: string)
    requires Held(v) && Tidy(v) && CopyFile(v, source, folder, name).failure.None?
    ensures Tidy(CopyFile(v, source, folder, name).vault)
  {
    hide Held, CopyContent, Create, Unnamed;
    var d := v.books.drive;
    var created, current := Create(d, folder, name, File, d.rows[source].encrypted, false).value, d.rows[source].current;
    if current.Some? && current.value in v.books.versions {
      HeldParts(v);
      CreatedRow(d, folder, name, d.rows[source].encrypted);
      CopiedTidy(v, created, source, current.value);
    } else {
      SameTidy(v, CopyFile(v, source, folder, name).vault);
    }
  }

  lemma CopiedTidy(v: Vault, created: Drive, source: Id, x: Id)
    requires Held(v) && Tidy(v) && x in v.books.versions && v.books.drive.nextId in created.rows && created.nextId == v.books.drive.nextId + 1
    requires CopyContent(v, created, source, x).failure.None?
    ensures Tidy(CopyContent(v, created, source, x).vault)
  {
    hide Held, DataKeyFor, UserKek, Charge, UsageOf;
    CopiedContent(v, created, source, x);
    var v', copy := CopyContent(v, created, source, x).vault, v.books.drive.nextId;
    var made := KeyOf(copy + 1, v'.books.versions[copy + 1]);
    forall key | key in v'.objects
      ensures !Unnamed(v', key)
    {
      if key != made {
        var y :| y in v.books.versions && KeyOf(y, v.books.versions[y]) == key;
        assert y in v'.books.versions && v'.books.versions[y] == v.books.versions[y];
      }
    }
  }

  lemma BringBackTidy(v: Vault, n: Id, x: Id)
    requires Held(v) && Tidy(v) && v.books.retention >= 1 && RestoreOld(v, n, x).failure.None?
    ensures Tidy(RestoreOld(v, n, x).vault)
  {
    hide Held, Record, Tidy;
    var source := v.books.versions[x];
    RecordTidy(v, v, n, v.objects[KeyOf(x, source)], source.size, source.digest, source.encrypted, Some(source.sealId));
  }

  lemma ShredTidy(v: Vault, n: Id)
    requires Held(v) && Tidy(v) && PurgeTree(v, n).failure.None?
    ensures Tidy(PurgeTree(v, n).vault)
  {
    hide Held, Under, Sums.Total, Charge, UsageOf, Subtree;
    var v' := PurgeTree(v, n).vault;
    forall key | key in v'.objects
      ensures !Unnamed(v', key)
    {
      var y :| y in v.books.versions && KeyOf(y, v.books.versions[y]) == key;
      assert y in v'.books.versions && KeyOf(y, v'.books.versions[y]) == key;
    }
  }

  /** Operations on rows and keys alone. */
  lemma OtherTidy(v: Vault, op: Content.Op)
    requires op.AddUser? || op.AddFolder? || op.Retitle? || op.Shift? || op.Bin? || op.Unbin? || op.Share? || op.Unshare? || op.Install? || op.RotateMaster? || op.RotateUser?
    ensures var v' := Content.Apply(v, op).vault; v'.objects == v.objects && v'.books.versions == v.books.versions
  {
    hide Create, Rename, Move, Delete, Restore, Provision, FileBytes, RotateKeys, DataKeyFor, OwnEncrypted, UserKek, Charge, UsageOf;
  }

  lemma OpTidy(v: Vault, op: Content.Op)
    requires Held(v) && Tidy(v) && v.books.retention >= 1 && Content.Apply(v, op).failure.None?
    ensures Tidy(Content.Apply(v, op).vault)
  {
    hide Held, Tidy, UploadFile, WriteContent, TurnOnEncryption, RestoreOld, CopyFile, PurgeTree;
    match op
    case Put(p, name, encrypted, content, nonces) => UploadTidy(v, p, name, encrypted, content, nonces);
    case PutAgain(n, content, nonces) => WriteTidy(v, n, content, nonces);
    case Encrypt(n, s, nonces) => EncryptTidy(v, n, s, nonces);
    case BringBackVersion(n, x) => BringBackTidy(v, n, x);
    case Copy(source, folder, name) => CopyTidy(v, source, folder, name);
    case Shred(n) => ShredTidy(v, n);
    case _ => OtherTidy(v, op); SameTidy(v, Content.Apply(v, op).vault);
  }

  ghost predicate Succeeds(v: Vault, ops: seq<Content.Op>)
    decreases |ops|
  {
    ops != [] ==> Content.Apply(v, ops[0]).failure.None? && Succeeds(Content.Apply(v, ops[0]).vault, ops[1..])
  }

  lemma {:induction false} RunTidy(v: Vault, ops: seq<Content.Op>)
    requires Held(v) && Tidy(v) && v.books.retention >= 1 && Succeeds(v, ops)
    ensures Tidy(Content.Run(v, ops))
    decreases |ops|
  {
    hide Held, Tidy, Content.Apply;
    if ops != [] {
      OpTidy(v, ops[0]);
      VaultStepKeeps(v, ops[0]);
      VaultRetention(v, ops[0]);
      RunTidy(Content.Apply(v, ops[0]).vault, ops[1..]);
    }
  }

  /**
   * In a run in which no operation fails, the store holds exactly the objects that versions name: pruned,
   * superseded and destroyed content is released with its version.
   */
  lemma StoreIsExact(provider: Provider, frameBytes: nat, retention: nat, ops: seq<Content.Op>, key: ObjectKey)
    requires Framing.ValidFrameBytes(frameBytes) && retention >= 1 && Succeeds(Content.Opening(provider, frameBytes, retention), ops)
    ensures var v := Content.Run(Content.Opening(provider, frameBytes, retention), ops);
            key in v.objects <==> key.version in v.books.versions && KeyOf(key.version, v.books.versions[key.version]) == key
  {
    hide Held, Content.Run, Succeeds, AtRest;
    var start := Content.Opening(provider, frameBytes, retention);
    OpeningHeld(provider, frameBytes, retention);
    RunTidy(start, ops);
    VaultRunFrom(start, ops);
    var v := Content.Run(start, ops);
    if key.version in v.books.versions { HeldObject(v, key.version); }
  }

  lemma HeldObject(v: Vault, x: Id)
    requires Held(v) && x in v.books.versions
    ensures KeyOf(x, v.books.versions[x]) in v.objects
  {
    hide Held, Opens;
    HeldVersion(v, x);
  }

  /** Retention is a setting. */
  lemma VaultRetention(v: Vault, op: Content.Op)
    ensures Content.Apply(v, op).vault.books.retention == v.books.retention
  {
    hide Context.Stored, RawCells, Framing.FrameCount, Kept, NextSequence, Doomed, Sums.Total, VersionSizes, Create, Rename, Move, Delete, Restore, Provision,
      FileBytes, RotateKeys, DataKeyFor, OwnEncrypted, UserKek, Charge, UsageOf, Download, ChildNamed, Moved, Subtree, Tree.Purge, EnsureDataKey;
    match op
    case Put(p, name, encrypted, content, nonces) => UploadRetention(v, p, name, encrypted, content, nonces);
    case PutAgain(n, content, nonces) => WriteRetention(v, n, content, nonces);
    case Encrypt(n, s, nonces) => EncryptRetention(v, n, s, nonces);
    case Copy(source, folder, name) => CopyRetention(v, source, folder, name);
    case _ =>
  }

  lemma WriteRetention(v: Vault, n: Id, content: seq<Framing.byte>, nonces: nat -> Nonce)
    ensures WriteContent(v, n, content, nonces).vault.books.retention == v.books.retention
  {
    hide Context.Stored, RawCells, Framing.FrameCount, Kept, NextSequence, Doomed, Sums.Total, VersionSizes, DataKeyFor, UserKek, Charge, Moved;
  }

  lemma UploadRetention(v: Vault, parent: Id, name: string, encrypted: bool, content: seq<Framing.byte>, nonces: nat -> Nonce)
    ensures UploadFile(v, parent, name, encrypted, content, nonces).vault.books.retention == v.books.retention
  {
    hide WriteContent, Create, ChildNamed;
    var d := v.books.drive;
    if LiveNode(d, parent) {
      match ChildNamed(d.rows, parent, name)
      case Some(m) => WriteRetention(v, m, content, nonces);
      case None =>
        if Create(d, parent, name, File, encrypted, false).Ok? {
          WriteRetention(v.(books := v.books.(drive := Create(d, parent, name, File, encrypted, false).value)), d.nextId, content, nonces);
        }
    }
  }

  lemma EncryptRetention(v: Vault, n: Id, s: UserId, nonces: nat -> Nonce)
    ensures TurnOnEncryption(v, n, s, nonces).vault.books.retention == v.books.retention
  {
    hide WriteContent, Download;
    var d := v.books.drive;
    if LiveNode(d, n) && d.rows[n].current.Some? && Download(v, d.rows[n].current.value, s).Ok? {
      WriteRetention(v.(books := v.books.(drive := d.(rows := d.rows[n := d.rows[n].(encrypted := true)]))), n,
                     Download(v, d.rows[n].current.value, s).value, nonces);
    }
  }

  lemma CopyRetention(v: Vault, source: Id, folder: Id, name: string)
    ensures CopyFile(v, source, folder, name).vault.books.retention == v.books.retention
  {
    hide Create, DataKeyFor, UserKek, Charge, UsageOf;
  }
}
