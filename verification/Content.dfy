/**
 * Versions, keys and copies: stored objects, version rows, wrapped data keys, user keys and the master
 * key. Wrapping is symbolic: a wrapped key opens exactly under the key that wrapped it.
 */
module Content {
  import opened Prelude
  import Framing
  import opened Cipher
  import opened Tree
  import opened Ledger
  import opened Purge

  // ----- the envelope: master key, user key, data key

  datatype WrappedDek = WrappedDek(dek: Key, kek: Key)

  /** A user's key-encryption key, sealed under `master`; `masterId` is the label recorded beside it. */
  datatype UserKey = UserKey(kek: Key, master: Key, masterId: Key)

  /** Both master keys are usable while a rotation is in flight. A key's label identifies it. */
  datatype Provider = Provider(current: Key, previous: Option<Key>) {
    function KeyFor(id: Key): Option<Key> {
      if id == current then Some(current) else if previous == Some(id) then previous else None
    }

    function UnwrapKek(uk: UserKey): Option<Key> {
      if KeyFor(uk.masterId) == Some(uk.master) then Some(uk.kek) else None
    }

    function WrapKek(kek: Key): UserKey {
      UserKey(kek, current, current)
    }
  }

  function UnwrapDek(w: WrappedDek, kek: Key): Option<Key> {
    if w.kek == kek then Some(w.dek) else None
  }

  type DataKeys = map<(Id, UserId), WrappedDek>

  datatype Failure = Refused(error: Tree.Error) | KeyUnavailable | Corrupt | TooManyFrames

  datatype Vault = Vault(books: Books, objects: map<ObjectKey, seq<Cell>>, dataKeys: DataKeys,
                         userKeys: map<UserId, UserKey>, provider: Provider, nextKey: Key, frameBytes: nat)

  /** What an operation leaves behind. A failed write rolls the rows back, but not the object store. */
  datatype Reply = Reply(vault: Vault, failure: Option<Failure>)

  /** A version's identifier as the sixteen bytes bound into each frame. */
  function UuidBytes(id: Id): VersionId {
    Framing.BigEndian(id, 16)
  }

  function UserKek(v: Vault, u: UserId): Option<Key> {
    if u in v.userKeys then v.provider.UnwrapKek(v.userKeys[u]) else None
  }

  /** The data key as `subject` can obtain it. */
  function DataKeyFor(v: Vault, n: Id, subject: UserId): Option<Key> {
    if (n, subject) !in v.dataKeys then None
    else
      match UserKek(v, subject)
      case None => None
      case Some(kek) => UnwrapDek(v.dataKeys[(n, subject)], kek)
  }

  /** The node's data key: minted for the owner on first use, reused by every later version. */
  function EnsureDataKey(v: Vault, n: Id, owner: UserId): Option<(Vault, Key)> {
    if (n, owner) in v.dataKeys then
      match DataKeyFor(v, n, owner)
      case None => None
      case Some(dek) => Some((v, dek))
    else
      match UserKek(v, owner)
      case None => None
      case Some(kek) =>
        Some((v.(dataKeys := v.dataKeys[(n, owner) := WrappedDek(v.nextKey, kek)], nextKey := v.nextKey + 1), v.nextKey))
  }

  // ----- writing

  /** After a failure past the put: rows as before, the object orphaned, its version id spent. */
  function Orphaned(v: Vault, key: ObjectKey, cells: seq<Cell>, why: Failure): Reply {
    var d := v.books.drive;
    Reply(v.(objects := v.objects[key := cells], books := v.books.(drive := d.(nextId := Max(d.nextId, key.version + 1)))), Some(why))
  }

  /** Objects left once the pruned version rows have released theirs. */
  function Kept(objects: map<ObjectKey, seq<Cell>>, added: Versions, left: Versions): map<ObjectKey, seq<Cell>> {
    objects - (set y | y in added && y !in left :: KeyOf(y, added[y]))
  }

  /** Puts the object, then records the version and prunes. `prepared` is `v` with the data key in place. */
  ghost function Record(v: Vault, prepared: Vault, n: Id, cells: seq<Cell>, size: nat, digest: Digest, encrypted: bool, sealId: Option<Id>): Reply
    requires n in v.books.drive.rows
  {
    var x := v.books.drive.nextId;
    var key := ObjectKey(v.books.drive.rows[n].owner, n, x);
    match StoreVersion(prepared.books, n, size, digest, encrypted, sealId)
    case Err(e) => Orphaned(v, key, cells, Refused(e))
    case Ok(b) =>
      var version := Version(n, v.books.drive.rows[n].owner, NextSequence(prepared.books.versions, n), size, digest, encrypted,
                             if sealId.Some? then sealId.value else x);
      Reply(prepared.(books := b, objects := Kept(prepared.objects[key := cells], prepared.books.versions[x := version], b.versions)), None)
  }

  ghost function WriteContent(v: Vault, n: Id, content: seq<Framing.byte>, nonces: nat -> Nonce): Reply {
    var d := v.books.drive;
    if !LiveNode(d, n) then Reply(v, Some(Refused(NotFound)))
    else if d.rows[n].kind != File then Reply(v, Some(Refused(Validation)))
    else if !d.rows[n].encrypted then
      Record(v, v, n, RawCells(content), |content|, Sha256(content), false, None)
    else
      match EnsureDataKey(v, n, d.rows[n].owner)
      case None => Reply(v, Some(KeyUnavailable))
      case Some((prepared, dek)) =>
        var c := Context(dek, UuidBytes(d.nextId), v.frameBytes, nonces);
        if !c.Valid() || Framing.FrameCount(|content|, c.frameBytes) > Framing.INDEX_LIMIT then Reply(v, Some(TooManyFrames))
        else Record(v, prepared, n, c.Stored(content), |content|, Sha256(content), true, None)
  }

  ghost function UploadFile(v: Vault, parent: Id, name: string, encrypted: bool, content: seq<Framing.byte>, nonces: nat -> Nonce): Reply {
    var d := v.books.drive;
    if !LiveNode(d, parent) then Reply(v, Some(Refused(NotFound)))
    else if d.rows[parent].kind != Folder then Reply(v, Some(Refused(Validation)))
    else
      match ChildNamed(d.rows, parent, name)
      case Some(m) => WriteContent(v, m, content, nonces)
      case None =>
        match Create(d, parent, name, File, encrypted, false)
        case Err(e) => Reply(v, Some(Refused(e)))
        case Ok(created) =>
          var reply := WriteContent(v.(books := v.books.(drive := created)), d.nextId, content, nonces);
          if reply.failure.None? then reply
          else Reply(v.(objects := reply.vault.objects, books := v.books.(drive := d.(nextId := reply.vault.books.drive.nextId))), reply.failure)
  }

  // ----- reading

  /** A whole-object download of version `x` by `subject`. */
  function Download(v: Vault, x: Id, subject: UserId): Result<seq<Framing.byte>, Failure> {
    if x !in v.books.versions then Err(Refused(NotFound))
    else
      var version := v.books.versions[x];
      var key := KeyOf(x, version);
      if key !in v.objects then Err(Corrupt)
      else if version.encrypted then
        match DataKeyFor(v, version.node, subject)
        case None => Err(KeyUnavailable)
        case Some(dek) =>
          var o := OpenWhole(dek, UuidBytes(version.sealId), v.objects[key]);
          if o.Complete() then Ok(o.emitted) else Err(Corrupt)
      else
        match PlainBytes(v.objects[key])
        case None => Err(Corrupt)
        case Some(bytes) => Ok(bytes)
  }

  /** Rewrites the current content as a new, encrypted version. */
  ghost function TurnOnEncryption(v: Vault, n: Id, subject: UserId, nonces: nat -> Nonce): Reply {
    var d := v.books.drive;
    if !LiveNode(d, n) then Reply(v, Some(Refused(NotFound)))
    else if d.rows[n].kind != File then Reply(v, Some(Refused(Validation)))
    else if d.rows[n].encrypted then Reply(v, None)
    else if d.rows[n].current.None? then Reply(v, Some(Refused(NotFound)))
    else
      match Download(v, d.rows[n].current.value, subject)
      case Err(e) => Reply(v, Some(e))
      case Ok(content) =>
        var flipped := v.(books := v.books.(drive := d.(rows := d.rows[n := d.rows[n].(encrypted := true)])));
        var reply := WriteContent(flipped, n, content, nonces);
        if reply.failure.None? then reply
        else Reply(v.(objects := reply.vault.objects, books := v.books.(drive := d.(nextId := reply.vault.books.drive.nextId))), reply.failure)
  }

  // ----- copying stored bytes

  /** The bytes are copied, not re-sealed, so the new version keeps the id that opens them. */
  ghost function RestoreOld(v: Vault, n: Id, x: Id): Reply {
    if !LiveNode(v.books.drive, n) then Reply(v, Some(Refused(NotFound)))
    else if x !in v.books.versions || v.books.versions[x].node != n then Reply(v, Some(Refused(NotFound)))
    else
      var source := v.books.versions[x];
      if KeyOf(x, source) !in v.objects then Reply(v, Some(Corrupt))
      else Record(v, v, n, v.objects[KeyOf(x, source)], source.size, source.digest, source.encrypted, Some(source.sealId))
  }

  /**
   * Copies one file into a folder of the caller's own tree. The copy's node takes its size from the
   * stored object, and an encrypted copy gets its own wrapping of the source's data key.
   */
  ghost function CopyFile(v: Vault, source: Id, folder: Id, name: string): Reply {
    var d := v.books.drive;
    if !LiveNode(d, source) || !LiveNode(d, folder) then Reply(v, Some(Refused(NotFound)))
    else if d.rows[source].kind != File then Reply(v, Some(Refused(Validation)))
    else
      match Create(d, folder, name, File, d.rows[source].encrypted, false)
      case Err(e) => Reply(v, Some(Refused(e)))
      case Ok(created) =>
        var current := d.rows[source].current;
        if current.None? || current.value !in v.books.versions then Reply(v.(books := v.books.(drive := created)), None)
        else CopyContent(v, created, source, current.value)
  }

  ghost function CopyContent(v: Vault, created: Drive, source: Id, x: Id): Reply
    requires x in v.books.versions && v.books.drive.nextId in created.rows
  {
    var b, copy, copyVersion := v.books, v.books.drive.nextId, created.nextId;
    var original, user := b.versions[x], created.rows[copy].owner;
    var key := ObjectKey(user, copy, copyVersion);
    if KeyOf(x, original) !in v.objects then Reply(v, Some(Corrupt))
    else
      var cells := v.objects[KeyOf(x, original)];
      var size := if |cells| > 0 then |cells| else original.size;
      var dek, kek := DataKeyFor(v, source, user), UserKek(v, user);
      if original.encrypted && (dek.None? || kek.None?) then Orphaned(v, key, cells, KeyUnavailable)
      else if user in b.usage && user in b.quota && b.usage[user].WouldExceed(b.quota[user], size) then
        Orphaned(v, key, cells, Refused(QuotaExceeded))
      else
        var version := Version(copy, user, 1, original.size, original.digest, original.encrypted, original.sealId);
        var row := created.rows[copy].(current := Some(copyVersion), size := size);
        Reply(v.(objects := v.objects[key := cells],
                 dataKeys := if original.encrypted then v.dataKeys[(copy, user) := WrappedDek(dek.value, kek.value)] else v.dataKeys,
                 books := b.(drive := created.(rows := created.rows[copy := row], nextId := copyVersion + 1),
                             versions := b.versions[copyVersion := version],
                             usage := Charge(b, user, UsageOf(b, user).ChargeLive(size)))),
              None)
  }

  // ----- sharing and rotation

  /** Gives `subject` their own wrapped copy of the file's data key. */
  function RewrapFor(v: Vault, n: Id, subject: UserId): Reply {
    if n !in v.books.drive.rows then Reply(v, Some(Refused(NotFound)))
    else
      var row := v.books.drive.rows[n];
      if !row.encrypted || (n, subject) in v.dataKeys then Reply(v, None)
      else
        match (DataKeyFor(v, n, row.owner), UserKek(v, subject))
        case (Some(dek), Some(kek)) => Reply(v.(dataKeys := v.dataKeys[(n, subject) := WrappedDek(dek, kek)]), None)
        case _ => Reply(v, Some(KeyUnavailable))
  }

  function RevokeFor(v: Vault, n: Id, subject: UserId): Reply {
    if n !in v.books.drive.rows then Reply(v, Some(Refused(NotFound)))
    else if v.books.drive.rows[n].owner == subject then Reply(v, Some(Refused(Validation)))
    else Reply(v.(dataKeys := v.dataKeys - {(n, subject)}), None)
  }

  /** Rewraps the listed users' stale keys under the current master; an unopenable key aborts the pass. */
  function RotateKeys(keys: map<UserId, UserKey>, provider: Provider, page: seq<UserId>): Option<map<UserId, UserKey>>
    decreases |page|
  {
    if page == [] then Some(keys)
    else
      var u := page[0];
      if u !in keys || keys[u].masterId == provider.current then RotateKeys(keys, provider, page[1..])
      else
        match provider.UnwrapKek(keys[u])
        case None => None
        case Some(kek) => RotateKeys(keys[u := provider.WrapKek(kek)], provider, page[1..])
  }

  function RotateMasterKey(v: Vault, page: seq<UserId>): Reply {
    match RotateKeys(v.userKeys, v.provider, page)
    case None => Reply(v, Some(KeyUnavailable))
    case Some(keys) => Reply(v.(userKeys := keys), None)
  }

  /** A deployment with another master key, and perhaps the one it replaces; nothing stored changes. */
  function InstallMaster(v: Vault, master: Key, previous: Option<Key>): Vault {
    v.(provider := Provider(master, previous))
  }

  /** The encrypted files of a user's own tree, trashed ones included. */
  ghost function OwnEncrypted(d: Drive, u: UserId): set<Id>
    requires u in d.roots
  {
    set n | n in d.rows && d.rows[n].encrypted && Under(d.rows, n, d.roots[u])
  }

  /** Every data key wrapped for `u` on one of `nodes` must open under the old key, and is wrapped again under the new one. */
  ghost function RotateUserKey(v: Vault, u: UserId): Reply {
    if u !in v.userKeys || u !in v.books.drive.roots then Reply(v, Some(Refused(NotFound)))
    else
      match UserKek(v, u)
      case None => Reply(v, Some(KeyUnavailable))
      case Some(kek) =>
        var nodes := OwnEncrypted(v.books.drive, u);
        if exists n <- nodes :: (n, u) in v.dataKeys && UnwrapDek(v.dataKeys[(n, u)], kek).None? then Reply(v, Some(KeyUnavailable))
        else
          Reply(v.(dataKeys := map k | k in v.dataKeys :: if k.1 == u && k.0 in nodes then v.dataKeys[k].(kek := v.nextKey) else v.dataKeys[k],
                   userKeys := v.userKeys[u := v.provider.WrapKek(v.nextKey)], nextKey := v.nextKey + 1), None)
  }

  // ----- tree operations, seen from the vault

  ghost function Join(v: Vault, u: UserId, quota: nat): Reply {
    match Ledger.Apply(v.books, Ledger.Join(u, quota))
    case Err(e) => Reply(v, Some(Refused(e)))
    case Ok(b) => Reply(v.(books := b, userKeys := v.userKeys[u := v.provider.WrapKek(v.nextKey)], nextKey := v.nextKey + 1), None)
  }

  ghost function OnBooks(v: Vault, r: Result<Books, Tree.Error>): Reply {
    match r
    case Err(e) => Reply(v, Some(Refused(e)))
    case Ok(b) => Reply(v.(books := b), None)
  }

  /** Purging takes the subtree's objects and wrapped keys with it. */
  ghost function PurgeTree(v: Vault, n: Id): Reply {
    match PurgeNode(v.books, n)
    case Err(e) => Reply(v, Some(Refused(e)))
    case Ok(b) =>
      var gone := Subtree(v.books.drive.rows, n);
      Reply(v.(books := b,
               objects := Kept(v.objects, v.books.versions, b.versions),
               dataKeys := map k | k in v.dataKeys && k.0 !in gone :: v.dataKeys[k]), None)
  }

  datatype Op =
    | AddUser(user: UserId, quota: nat)
    | AddFolder(parent: Id, name: string)
    | Put(parent: Id, name: string, encrypted: bool, content: seq<Framing.byte>, nonces: nat -> Nonce)
    | PutAgain(node: Id, content: seq<Framing.byte>, nonces: nat -> Nonce)
    | Encrypt(node: Id, subject: UserId, nonces: nat -> Nonce)
    | BringBackVersion(node: Id, version: Id)
    | Copy(source: Id, folder: Id, name: string)
    | Share(node: Id, subject: UserId)
    | Unshare(node: Id, subject: UserId)
    | Install(master: Key, previous: Option<Key>)
    | RotateMaster(page: seq<UserId>)
    | RotateUser(user: UserId)
    | Retitle(node: Id, name: string)
    | Shift(node: Id, parent: Id)
    | Bin(node: Id, elapsed: nat)
    | Unbin(node: Id)
    | Shred(node: Id)

  ghost function Apply(v: Vault, op: Op): Reply {
    match op
    case AddUser(u, quota) => Join(v, u, quota)
    case AddFolder(p, name) => OnBooks(v, OnDrive(v.books, Create(v.books.drive, p, name, Folder, false, true)))
    case Put(p, name, encrypted, content, nonces) => UploadFile(v, p, name, encrypted, content, nonces)
    case PutAgain(n, content, nonces) => WriteContent(v, n, content, nonces)
    case Encrypt(n, s, nonces) => TurnOnEncryption(v, n, s, nonces)
    case BringBackVersion(n, x) => RestoreOld(v, n, x)
    case Copy(source, folder, name) => CopyFile(v, source, folder, name)
    case Share(n, s) => RewrapFor(v, n, s)
    case Unshare(n, s) => RevokeFor(v, n, s)
    case Install(master, previous) => Reply(InstallMaster(v, master, previous), None)
    case RotateMaster(page) => RotateMasterKey(v, page)
    case RotateUser(u) => RotateUserKey(v, u)
    case Retitle(n, name) => OnBooks(v, OnDrive(v.books, Rename(v.books.drive, n, name)))
    case Shift(n, p) => OnBooks(v, OnDrive(v.books, Move(v.books.drive, n, p)))
    case Bin(n, elapsed) => OnBooks(v, DeleteNode(v.books, n, elapsed))
    case Unbin(n) => OnBooks(v, RestoreNode(v.books, n))
    case Shred(n) => PurgeTree(v, n)
  }

  ghost function Run(v: Vault, ops: seq<Op>): Vault
    decreases |ops|
  {
    if ops == [] then v else Run(Apply(v, ops[0]).vault, ops[1..])
  }

  function Opening(provider: Provider, frameBytes: nat, retention: nat): Vault {
    Vault(Ledger.Opening(retention), map[], map[], map[], provider, 0, frameBytes)
  }
}
