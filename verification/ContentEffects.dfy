/** What writes, copies and key operations leave behind: which file, which flag, and what the stored bytes are. */
module ContentEffects {
  import opened Prelude
  import Framing
  import opened Cipher
  import opened Tree
  import opened TreeInvariant
  import opened S3Walk
  import opened TreeEffects
  import opened Sums
  import opened Ledger
  import opened LedgerInvariant
  import opened Purge
  import opened Content
  import opened ContentInvariant
  import opened Sharing
  import opened SharingTheorems
  import opened Orphans

  // ----- what an encrypted object consists of

  /** The cell belongs to a frame sealed under the key, for the version. */
  ghost predicate SealedCell(c: Cell, dek: Key, version: VersionId) {
    c.Sealed? && c.frame.key == dek && exists index: nat, final: bool :: index < Framing.INDEX_LIMIT && c.frame.aad == Framing.AssociatedData(version, index, final)
  }

  /** A header, which names a frame size and nothing else, and after it nothing in the clear. */
  ghost predicate Ciphertext(cells: seq<Cell>, dek: Key, version: VersionId) {
    && |cells| > Framing.HEADER_BYTES
    && (exists frameBytes: nat :: Framing.ValidFrameBytes(frameBytes) && cells[..Framing.HEADER_BYTES] == HeaderCells(frameBytes))
    && forall i :: Framing.HEADER_BYTES <= i < |cells| ==> SealedCell(cells[i], dek, version)
  }

  lemma DecryptedIsSealed(key: Key, nonce: seq<Cell>, body: seq<Cell>, aad: seq<Framing.byte>)
    requires Decrypt(key, nonce, body, aad).Some?
    ensures forall c <- nonce + body :: c.Sealed? && c.frame.key == key && c.frame.aad == aad
  {
    var whole := nonce + body;
    assert forall i :: 0 <= i < |whole| ==> whole[i] == FrameCells(whole[0].frame)[i];
  }

  lemma OpenedFrameIsSealed(key: Key, version: VersionId, index: nat, sealed: seq<Cell>)
    requires |sealed| >= Framing.NONCE_BYTES && OpenFrame(key, version, index, sealed).Ok?
    ensures forall c <- sealed :: SealedCell(c, key, version)
  {
    hide Decrypt, Framing.AssociatedData;
    var nonce, body := sealed[..Framing.NONCE_BYTES], sealed[Framing.NONCE_BYTES..];
    assert sealed == nonce + body;
    var final := Decrypt(key, nonce, body, Framing.AssociatedData(version, index, false)).None?;
    DecryptedIsSealed(key, nonce, body, Framing.AssociatedData(version, index, final));
  }

  /** A whole-object read that completes met nothing but sealed frames. */
  lemma {:induction false} OpenedIsSealed(r: Reading, cells: seq<Cell>, at: Position)
    requires at.remaining.None? && OpenFrames(r, cells, at).Complete()
    ensures forall c <- cells :: SealedCell(c, r.key, r.versionId)
    ensures !at.sawFinal ==> cells != []
    decreases |cells|
  {
    hide OpenFrame, SealedCell, Piece;
    match NextCut(cells, r.frameBytes)
    case End =>
    case MidFrame =>
    case Frame(sealed) =>
      OpenedFrameIsSealed(r.key, r.versionId, at.index, sealed);
      var got := OpenFrame(r.key, r.versionId, at.index, sealed).value;
      OpenedIsSealed(r, cells[|sealed|..], Position(at.index + 1, 0, None, got.final));
      assert cells == sealed + cells[|sealed|..];
  }

  lemma HeaderIsPlain(cells: seq<Cell>)
    requires |cells| == Framing.HEADER_BYTES && DecodeHeaderCells(cells).Ok?
    ensures Framing.ValidFrameBytes(DecodeHeaderCells(cells).value) && cells == HeaderCells(DecodeHeaderCells(cells).value)
  {
    var bytes := seq<Framing.byte>(|cells|, i requires 0 <= i < |cells| => cells[i].value);
    Framing.HeaderUnique(bytes, DecodeHeaderCells(cells).value);
    assert cells == RawCells(bytes) by {
      forall i | 0 <= i < |cells| ensures cells[i] == Raw(bytes[i]) { assert cells[i] in cells; }
    }
  }

  lemma CompleteIsCiphertext(dek: Key, version: VersionId, cells: seq<Cell>)
    requires OpenWhole(dek, version, cells).Complete()
    ensures Ciphertext(cells, dek, version)
  {
    hide OpenFrames, SealedCell, DecodeHeaderCells, HeaderCells;
    var header, rest := cells[..Framing.HEADER_BYTES], cells[Framing.HEADER_BYTES..];
    HeaderIsPlain(header);
    OpenedIsSealed(Reading(dek, version, DecodeHeaderCells(header).value), rest, WholeStart());
    forall i | Framing.HEADER_BYTES <= i < |cells|
      ensures SealedCell(cells[i], dek, version)
    {
      assert rest[i - Framing.HEADER_BYTES] in rest;
    }
  }

  /** At rest, an encrypted version is ciphertext under the file's data key, and any other is its content. */
  ghost predicate AtRest(v: Vault, x: Id)
    requires x in v.books.versions
  {
    var version := v.books.versions[x];
    var key, k := KeyOf(x, version), (version.node, version.owner);
    && key in v.objects
    && if version.encrypted then k in v.dataKeys && Ciphertext(v.objects[key], v.dataKeys[k].dek, UuidBytes(version.sealId))
       else v.objects[key] == RawCells(version.digest.content)
  }

  lemma HeldAtRest(v: Vault, x: Id)
    requires Held(v) && x in v.books.versions
    ensures AtRest(v, x)
  {
    hide Held, Ciphertext, OpenWhole, RawCells;
    HeldVersion(v, x);
    var version := v.books.versions[x];
    if version.encrypted {
      CompleteIsCiphertext(v.dataKeys[(version.node, version.owner)].dek, UuidBytes(version.sealId), v.objects[KeyOf(x, version)]);
    }
  }

  /** In every run, what is stored for a version marked encrypted is ciphertext under its file's data key. */
  lemma EveryVersionAtRest(provider: Provider, frameBytes: nat, retention: nat, ops: seq<Content.Op>, x: Id)
    requires Framing.ValidFrameBytes(frameBytes)
    requires x in Content.Run(Content.Opening(provider, frameBytes, retention), ops).books.versions
    ensures AtRest(Content.Run(Content.Opening(provider, frameBytes, retention), ops), x)
  {
    hide Held, Content.Run, Content.Opening, AtRest;
    OpeningHeld(provider, frameBytes, retention);
    VaultRunFrom(Content.Opening(provider, frameBytes, retention), ops);
    HeldAtRest(Content.Run(Content.Opening(provider, frameBytes, retention), ops), x);
  }

  // ----- writing

  /** `n` has a new current version holding `content`, sealed exactly if the file is encrypted, and no other row changed. */
  ghost predicate Written(v: Vault, v': Vault, n: Id, content: seq<Framing.byte>) {
    && n in v'.books.drive.rows && v'.books.drive.rows[n].kind == File && v'.books.drive.rows[n].current.Some?
    && v'.books.drive.rows.Keys == v.books.drive.rows.Keys + {n}
    && (forall m <- v.books.drive.rows :: m != n ==> v'.books.drive.rows[m] == v.books.drive.rows[m])
    && var row, x := v'.books.drive.rows[n], v'.books.drive.rows[n].current.value;
       && x !in v.books.versions && x in v'.books.versions && row.size == |content|
       && v'.books.versions[x].node == n && v'.books.versions[x].digest == Sha256(content) && v'.books.versions[x].encrypted == row.encrypted
       && (forall y <- v.books.versions :: v.books.versions[y].node != n ==> y in v'.books.versions && v'.books.versions[y] == v.books.versions[y])
       && AtRest(v', x) && Download(v', x, row.owner) == Ok(content)
  }

  lemma DoomedOwn(vs: Versions, n: Id, keep: nat)
    ensures forall x <- Doomed(vs, n, keep) :: x in vs && vs[x].node == n
  {
  }

  lemma OthersStay(b: Books, n: Id, size: nat, digest: Digest, encrypted: bool, sealId: Option<Id>, y: Id)
    requires StoreVersion(b, n, size, digest, encrypted, sealId).Ok? && y in b.versions && b.versions[y].node != n && y != b.drive.nextId
    ensures var after := StoreVersion(b, n, size, digest, encrypted, sealId).value; y in after.versions && after.versions[y] == b.versions[y]
  {
    hide Sums.Total, NextSequence, Doomed, VersionSizes;
    var x := b.drive.nextId;
    var version := Version(n, b.drive.rows[n].owner, NextSequence(b.versions, n), size, digest, encrypted, if sealId.Some? then sealId.value else x);
    DoomedOwn(b.versions[x := version], n, b.retention);
  }

  /** What recording a version does to rows and version rows. */
  lemma RecordLands(v: Vault, prepared: Vault, n: Id, cells: seq<Cell>, size: nat, digest: Digest, encrypted: bool, sealId: Option<Id>)
    requires Held(v) && n in v.books.drive.rows && prepared.books == v.books && v.books.retention >= 1
    requires Record(v, prepared, n, cells, size, digest, encrypted, sealId).failure.None?
    ensures var v', x, row := Record(v, prepared, n, cells, size, digest, encrypted, sealId).vault, v.books.drive.nextId, v.books.drive.rows[n];
            && v'.books.drive.rows == v.books.drive.rows[n := row.(current := Some(x), size := size)] && row.kind == File
            && x !in v.books.versions && x in v'.books.versions
            && v'.books.versions[x].node == n && v'.books.versions[x].digest == digest && v'.books.versions[x].encrypted == encrypted
            && v'.books.versions[x].sealId == (if sealId.Some? then sealId.value else x)
            && KeyOf(x, v'.books.versions[x]) in v'.objects && v'.objects[KeyOf(x, v'.books.versions[x])] == cells
            && forall y <- v.books.versions :: v.books.versions[y].node != n ==> y in v'.books.versions && v'.books.versions[y] == v.books.versions[y]
  {
    hide Held, StoreVersion, NextSequence;
    FreshVersion(v);
    StoreShape(v.books, n, size, digest, encrypted, sealId);
    ContentInvariant.NewestIsKept(v.books, n, size, digest, encrypted, sealId);
    forall y | y in v.books.versions && v.books.versions[y].node != n
      ensures var after := StoreVersion(v.books, n, size, digest, encrypted, sealId).value; y in after.versions && after.versions[y] == v.books.versions[y]
    {
      OthersStay(v.books, n, size, digest, encrypted, sealId, y);
    }
  }

  /** Which writes succeed, and what one that does leaves: the file keeps its flag, and the new version follows it. */
  lemma WriteLands(v: Vault, n: Id, content: seq<Framing.byte>, nonces: nat -> Nonce)
    requires Held(v) && v.books.retention >= 1
    ensures var reply := WriteContent(v, n, content, nonces);
            && (reply.failure.None? <==> ReachesPut(v, n, content, nonces) && !NoRoom(v.books, n, |content|))
            && (reply.failure.None? ==>
                  && Written(v, reply.vault, n, content) && n in v.books.drive.rows
                  && reply.vault.books.drive.rows[n] == v.books.drive.rows[n].(current := reply.vault.books.drive.rows[n].current, size := |content|))
  {
    hide Held, Record, Context.Stored, EnsureDataKey, RawCells, Framing.FrameCount, NoRoom, LeavesOrphan, Download, AtRest;
    var d, reply := v.books.drive, WriteContent(v, n, content, nonces);
    WriteKeeps(v, n, content, nonces);
    if LiveNode(d, n) && d.rows[n].kind == File {
      if !d.rows[n].encrypted {
        RecordLeaves(v, v, n, RawCells(content), |content|, Sha256(content), false, None);
        if reply.failure.None? { RecordLands(v, v, n, RawCells(content), |content|, Sha256(content), false, None); }
      } else if ReachesPut(v, n, content, nonces) {
        var (prepared, dek) := EnsureDataKey(v, n, d.rows[n].owner).value;
        EnsureKeeps(v, n);
        SameFrameSize(v, n);
        var c := Context(dek, UuidBytes(d.nextId), v.frameBytes, nonces);
        RecordLeaves(v, prepared, n, c.Stored(content), |content|, Sha256(content), true, None);
        if reply.failure.None? { RecordLands(v, prepared, n, c.Stored(content), |content|, Sha256(content), true, None); }
      }
    }
    if reply.failure.None? {
      WriteThenRead(v, n, content, nonces);
      HeldAtRest(reply.vault, reply.vault.books.drive.rows[n].current.value);
    }
  }

  /**
   * A successful upload leaves a live file under the name in the folder, holding the content. A new file is
   * encrypted exactly if that was asked for; one that was there keeps its flag whatever was asked. Then the
   * stored bytes are ciphertext exactly if the file is encrypted.
   */
  lemma UploadLands(v: Vault, parent: Id, name: string, encrypted: bool, content: seq<Framing.byte>, nonces: nat -> Nonce) returns (n: Id)
    requires Held(v) && v.books.retention >= 1 && UploadFile(v, parent, name, encrypted, content, nonces).failure.None?
    ensures var v' := UploadFile(v, parent, name, encrypted, content, nonces).vault;
            && Written(v, v', n, content) && Child(v'.books.drive.rows, parent, name) == Some(n)
            && (n in v.books.drive.rows <==> Child(v.books.drive.rows, parent, name).Some?)
            && (n in v.books.drive.rows ==>
                  Child(v.books.drive.rows, parent, name) == Some(n) && v'.books.drive.rows[n].encrypted == v.books.drive.rows[n].encrypted)
            && (n !in v.books.drive.rows ==> v'.books.drive.rows[n].encrypted == encrypted && v'.books.drive.rows[n].owner == v.books.drive.rows[parent].owner)
            && parent in v.books.drive.rows
  {
    hide Held, WriteContent, Drive.WellFormed, Create, ReachesPut, NoRoom, Download, AtRest, Child, Path;
    var d := v.books.drive;
    HeldParts(v);
    UploadFileKeeps(v, parent, name, encrypted, content, nonces);
    HeldParts(UploadFile(v, parent, name, encrypted, content, nonces).vault);
    var found := ChildNamed(d.rows, parent, name);
    if found.Some? {
      n := found.value;
      WriteLands(v, n, content, nonces);
      OnlyChild(d, n, parent, name);
    } else {
      n := d.nextId;
      CreateExactly(d, parent, name, File, encrypted, false);
      CreateAdds(d, parent, name, File, encrypted, false, parent);
      CreatedKeeps(v, parent, name, File, encrypted, false);
      WriteLands(v.(books := v.books.(drive := Added(d, parent, name, File, encrypted))), n, content, nonces);
      NoneNamed(d.rows, parent, name);
    }
    OnlyChild(UploadFile(v, parent, name, encrypted, content, nonces).vault.books.drive, n, parent, name);
  }

  lemma NoneNamed(rows: Rows, parent: Id, name: string)
    requires !Taken(rows, parent, name, None)
    ensures Child(rows, parent, name).None?
  {
    var found := Child(rows, parent, name);
    assert found.Some? ==> IsLiveChild(rows, found.value, parent, name);
  }

  /** Turning encryption on rewrites the content as a version that is ciphertext, under a flag that is now set. */
  lemma EncryptLands(v: Vault, n: Id, subject: UserId, nonces: nat -> Nonce)
    requires Held(v) && v.books.retention >= 1 && TurnOnEncryption(v, n, subject, nonces).failure.None?
    ensures n in v.books.drive.rows
    ensures var v' := TurnOnEncryption(v, n, subject, nonces).vault;
            if v.books.drive.rows[n].encrypted then v' == v
            else
              && v.books.drive.rows[n].current.Some? && v.books.drive.rows[n].current.value in v.books.versions
              && Written(v, v', n, v.books.versions[v.books.drive.rows[n].current.value].digest.content)
              && v'.books.drive.rows[n].encrypted
  {
    hide Held, WriteContent, Download, Drive.WellFormed, ReachesPut, NoRoom, AtRest;
    var d := v.books.drive;
    if !d.rows[n].encrypted {
      var x := d.rows[n].current.value;
      CurrentIsThere(v, x, subject);
      var content := v.books.versions[x].digest.content;
      HeldReads(v, x);
      FlipKeeps(v, n);
      var flipped := v.(books := v.books.(drive := d.(rows := d.rows[n := d.rows[n].(encrypted := true)])));
      WriteLands(flipped, n, content, nonces);
    }
  }

  lemma CurrentIsThere(v: Vault, x: Id, subject: UserId)
    requires Download(v, x, subject).Ok?
    ensures x in v.books.versions
  {
  }

  /** Bringing a version back copies its bytes and its flag, whatever the file's flag is now. */
  lemma BringBackLands(v: Vault, n: Id, x: Id)
    requires Held(v) && v.books.retention >= 1 && RestoreOld(v, n, x).failure.None?
    ensures n in v.books.drive.rows && x in v.books.versions
    ensures var v', y, source := RestoreOld(v, n, x).vault, v.books.drive.nextId, v.books.versions[x];
            && v'.books.drive.rows == v.books.drive.rows[n := v.books.drive.rows[n].(current := Some(y), size := source.size)]
            && y in v'.books.versions && v'.books.versions[y].digest == source.digest && v'.books.versions[y].encrypted == source.encrypted
            && KeyOf(x, source) in v.objects && KeyOf(y, v'.books.versions[y]) in v'.objects
            && v'.objects[KeyOf(y, v'.books.versions[y])] == v.objects[KeyOf(x, source)]
  {
    hide Held, Record;
    var source := v.books.versions[x];
    RecordLands(v, v, n, v.objects[KeyOf(x, source)], source.size, source.digest, source.encrypted, Some(source.sealId));
  }

  /** A copy is a new file of the folder's owner under the name, with the source's flag and, if it has content, its bytes. */
  lemma CopyLands(v: Vault, source: Id, folder: Id, name: string)
    requires Held(v) && CopyFile(v, source, folder, name).failure.None?
    ensures CopyPlaced(v, source, folder, name, CopyFile(v, source, folder, name).vault) && source in v.books.drive.rows
    ensures var current := v.books.drive.rows[source].current;
            current.Some? && current.value in v.books.versions ==> CopyFilled(v, current.value, CopyFile(v, source, folder, name).vault)
  {
    hide Held, CopyFile, Drive.WellFormed, CopyPlaced, CopyFilled;
    CopyTakesPlace(v, source, folder, name);
    CopyIsFilled(v, source, folder, name);
  }

  /** Where a copy is, and that nothing else changed. */
  ghost predicate CopyPlaced(v: Vault, source: Id, folder: Id, name: string, v': Vault) {
    var d, d', copy := v.books.drive, v'.books.drive, v.books.drive.nextId;
    && source in d.rows && folder in d.rows && copy !in d.rows
    && d'.rows.Keys == d.rows.Keys + {copy} && (forall m <- d.rows :: d'.rows[m] == d.rows[m])
    && Child(d'.rows, folder, name) == Some(copy)
    && d'.rows[copy].kind == File && d'.rows[copy].owner == d.rows[folder].owner && d'.rows[copy].encrypted == d.rows[source].encrypted
    && (forall x <- v.books.versions :: x in v'.books.versions && v'.books.versions[x] == v.books.versions[x])
  }

  /** A copy's content is that of version `x`: the same stored bytes under the same flag. Its size is that of the stored object. */
  ghost predicate CopyFilled(v: Vault, x: Id, v': Vault)
    requires x in v.books.versions
  {
    var copy, original := v.books.drive.nextId, v.books.versions[x];
    && copy in v'.books.drive.rows && v'.books.drive.rows[copy].current == Some(copy + 1) && copy + 1 in v'.books.versions
    && var made := v'.books.versions[copy + 1];
       && made.node == copy && made.digest == original.digest && made.encrypted == original.encrypted
       && KeyOf(x, original) in v.objects && KeyOf(copy + 1, made) in v'.objects
       && v'.objects[KeyOf(copy + 1, made)] == v.objects[KeyOf(x, original)]
       && v'.books.drive.rows[copy].size == (if v.objects[KeyOf(x, original)] == [] then original.size else |v.objects[KeyOf(x, original)]|)
       && Charged(v, v', v'.books.drive.rows[copy].owner, v'.books.drive.rows[copy].size)
  }

  /** The owner's live bytes have grown by `size`, if they have a quota record. */
  predicate Charged(v: Vault, v': Vault, u: UserId, size: nat) {
    if u in v.books.usage then
      v'.books.usage == v.books.usage[u := v.books.usage[u].(live := Max(v.books.usage[u].live + size, 0))]
    else v'.books.usage == v.books.usage
  }

  lemma CopyTakesPlace(v: Vault, source: Id, folder: Id, name: string)
    requires Held(v) && CopyFile(v, source, folder, name).failure.None?
    ensures CopyPlaced(v, source, folder, name, CopyFile(v, source, folder, name).vault)
  {
    hide Held, Drive.WellFormed, CopyFile, Child, Path;
    CopyRows(v, source, folder, name);
    var d, v' := v.books.drive, CopyFile(v, source, folder, name).vault;
    CopyFileKeeps(v, source, folder, name);
    HeldParts(v');
    OnlyChild(v'.books.drive, d.nextId, folder, name);
  }

  /** The row a copy adds, apart from its content. */
  lemma CopyRows(v: Vault, source: Id, folder: Id, name: string)
    requires Held(v) && CopyFile(v, source, folder, name).failure.None?
    ensures source in v.books.drive.rows && folder in v.books.drive.rows && v.books.drive.nextId !in v.books.drive.rows
    ensures var d, v', copy := v.books.drive, CopyFile(v, source, folder, name).vault, v.books.drive.nextId;
            && copy in v'.books.drive.rows && v'.books.drive.rows == d.rows[copy := v'.books.drive.rows[copy]]
            && v'.books.drive.rows[copy] == Row(d.rows[folder].owner, File, name, Some(folder), None, v'.books.drive.rows[copy].size,
                                                v'.books.drive.rows[copy].current, d.rows[source].encrypted)
            && (forall x <- v.books.versions :: x in v'.books.versions && v'.books.versions[x] == v.books.versions[x])
  {
    hide Held, Drive.WellFormed, Create, CopyContent;
    var d := v.books.drive;
    HeldParts(v);
    FreshId(d);
    CreateExactly(d, folder, name, File, d.rows[source].encrypted, false);
    var created, current := Added(d, folder, name, File, d.rows[source].encrypted), d.rows[source].current;
    if current.Some? && current.value in v.books.versions { CopiedContent(v, created, source, current.value); }
  }

  lemma CopyIsFilled(v: Vault, source: Id, folder: Id, name: string)
    requires Held(v) && CopyFile(v, source, folder, name).failure.None?
    ensures source in v.books.drive.rows
    ensures var current := v.books.drive.rows[source].current;
            current.Some? && current.value in v.books.versions ==> CopyFilled(v, current.value, CopyFile(v, source, folder, name).vault)
  {
    hide Held, Drive.WellFormed, Create, CopyContent;
    var d := v.books.drive;
    HeldParts(v);
    CreateExactly(d, folder, name, File, d.rows[source].encrypted, false);
    var created, current := Added(d, folder, name, File, d.rows[source].encrypted), d.rows[source].current;
    if current.Some? && current.value in v.books.versions { CopiedContent(v, created, source, current.value); }
  }

  lemma CopiedContent(v: Vault, created: Drive, source: Id, x: Id)
    requires Held(v) && x in v.books.versions && v.books.drive.nextId in created.rows && created.nextId == v.books.drive.nextId + 1
    requires CopyContent(v, created, source, x).failure.None?
    ensures var v', copy, original := CopyContent(v, created, source, x).vault, v.books.drive.nextId, v.books.versions[x];
            && KeyOf(x, original) in v.objects && copy + 1 in v'.books.versions
            && var made, cells := v'.books.versions[copy + 1], v.objects[KeyOf(x, original)];
               && made.node == copy && made.digest == original.digest && made.encrypted == original.encrypted
               && KeyOf(copy + 1, made) in v'.objects && v'.objects[KeyOf(copy + 1, made)] == cells
               && v'.books.drive.rows == created.rows[copy := created.rows[copy].(current := Some(copy + 1), size := if cells == [] then original.size else |cells|)]
               && (forall y <- v.books.versions :: y in v'.books.versions && v'.books.versions[y] == v.books.versions[y])
               && Charged(v, v', created.rows[copy].owner, if cells == [] then original.size else |cells|)
  {
    hide Held, DataKeyFor, UserKek, Opens;
    forall y | y in v.books.versions
      ensures y < v.books.drive.nextId
    {
      HeldVersion(v, y);
    }
  }

  // ----- which of these succeed

  /** An upload succeeds exactly when the folder is there and the write does, to the file of that name or to a new one that fits there. */
  lemma UploadExactly(v: Vault, parent: Id, name: string, encrypted: bool, content: seq<Framing.byte>, nonces: nat -> Nonce)
    requires Held(v)
    ensures var d := v.books.drive;
            UploadFile(v, parent, name, encrypted, content, nonces).failure.None? <==>
              && LiveNode(d, parent) && d.rows[parent].kind == Folder
              && match Child(d.rows, parent, name)
                 case Some(m) => WriteContent(v, m, content, nonces).failure.None?
                 case None =>
                   && Added(d, parent, name, File, encrypted).WellFormed()
                   && WriteContent(v.(books := v.books.(drive := Added(d, parent, name, File, encrypted))), d.nextId, content, nonces).failure.None?
  {
    hide Held, WriteContent, Drive.WellFormed, Create, Child, Path;
    var d := v.books.drive;
    HeldParts(v);
    CreateExactly(d, parent, name, File, encrypted, false);
    var found := ChildNamed(d.rows, parent, name);
    if found.Some? { OnlyChild(d, found.value, parent, name); } else { NoneNamed(d.rows, parent, name); }
  }

  /** Turning encryption on succeeds exactly when it is on, or the current content can be read and then written. */
  lemma EncryptExactly(v: Vault, n: Id, subject: UserId, nonces: nat -> Nonce)
    requires Held(v)
    ensures TurnOnEncryption(v, n, subject, nonces).failure.None? <==>
              && LiveNode(v.books.drive, n) && v.books.drive.rows[n].kind == File
              && (v.books.drive.rows[n].encrypted ||
                  var row := v.books.drive.rows[n];
                  && row.current.Some? && row.current.value in v.books.versions
                  && var flipped := v.(books := v.books.(drive := WithRow(v.books.drive, n, row.(encrypted := true))));
                     WriteContent(flipped, n, v.books.versions[row.current.value].digest.content, nonces).failure.None?)
  {
    hide Held, WriteContent, Download, Drive.WellFormed;
    var d := v.books.drive;
    if LiveNode(d, n) && d.rows[n].current.Some? {
      var x := d.rows[n].current.value;
      HeldRow(v, n);
      if x in v.books.versions {
        HeldReads(v, x);
        HeldVersion(v, x);
      } else {
        NothingToRead(v, x, subject);
      }
    }
  }

  lemma NothingToRead(v: Vault, x: Id, subject: UserId)
    requires x !in v.books.versions
    ensures Download(v, x, subject).Err?
  {
  }

  /** Bringing a version back succeeds exactly when it is the live file's own and there is room for it. */
  lemma BringBackExactly(v: Vault, n: Id, x: Id)
    requires Held(v)
    ensures RestoreOld(v, n, x).failure.None? <==>
              && LiveNode(v.books.drive, n) && v.books.drive.rows[n].kind == File
              && x in v.books.versions && v.books.versions[x].node == n && !NoRoom(v.books, n, v.books.versions[x].size)
  {
    hide Held, Record, Opens, NoRoom, StoreVersion, LeavesOrphan;
    if LiveNode(v.books.drive, n) && x in v.books.versions && v.books.versions[x].node == n {
      var source := v.books.versions[x];
      HeldVersion(v, x);
      if v.books.drive.rows[n].kind == File {
        RecordLeaves(v, v, n, v.objects[KeyOf(x, source)], source.size, source.digest, source.encrypted, Some(source.sealId));
      } else {
        OnlyFilesRecord(v, n, v.objects[KeyOf(x, source)], source.size, source.digest, source.encrypted, Some(source.sealId));
      }
    }
  }

  lemma OnlyFilesRecord(v: Vault, n: Id, cells: seq<Cell>, size: nat, digest: Digest, encrypted: bool, sealId: Option<Id>)
    requires n in v.books.drive.rows && v.books.drive.rows[n].kind == Folder
    ensures Record(v, v, n, cells, size, digest, encrypted, sealId).failure.Some?
  {
    hide NextSequence, Doomed, Sums.Total;
  }

  /** The stored bytes of a copy's content must fit the owner's quota. */
  predicate CopyFits(b: Books, user: UserId, size: nat) {
    user in b.usage && user in b.quota ==> b.usage[user].Total() + size <= b.quota[user]
  }

  /** A copy succeeds exactly when it fits the folder, its content the quota, and its owner can obtain the key of encrypted content. */
  lemma CopyExactly(v: Vault, source: Id, folder: Id, name: string)
    requires Held(v)
    ensures var d := v.books.drive;
            CopyFile(v, source, folder, name).failure.None? <==>
              && LiveNode(d, source) && folder in d.rows && d.rows[source].kind == File
              && Added(d, folder, name, File, d.rows[source].encrypted).WellFormed()
              && (d.rows[source].current.Some? && d.rows[source].current.value in v.books.versions ==>
                    var x, user := d.rows[source].current.value, d.rows[folder].owner;
                    var original := v.books.versions[x];
                    && KeyOf(x, original) in v.objects
                    && (original.encrypted ==> CanOpen(v, source, user))
                    && CopyFits(v.books, user, if v.objects[KeyOf(x, original)] == [] then original.size else |v.objects[KeyOf(x, original)]|))
  {
    hide Held, Drive.WellFormed, Create, Opens, Charge;
    var d := v.books.drive;
    HeldParts(v);
    if source in d.rows && folder in d.rows {
      CreateExactly(d, folder, name, File, d.rows[source].encrypted, false);
      PlaceIsLive(d, folder, name, d.rows[source].encrypted);
      var current := d.rows[source].current;
      if current.Some? && current.value in v.books.versions {
        HeldVersion(v, current.value);
        ObtainsExactly(v, source, d.rows[folder].owner);
      }
    }
  }

  lemma PlaceIsLive(d: Drive, folder: Id, name: string, encrypted: bool)
    requires d.WellFormed() && folder in d.rows
    ensures Added(d, folder, name, File, encrypted).WellFormed() ==> LiveNode(d, folder)
  {
    hide Drive.WellFormed;
    FreshId(d);
    if Added(d, folder, name, File, encrypted).WellFormed() { Look(Added(d, folder, name, File, encrypted), d.nextId); }
  }

  lemma ObtainsExactly(v: Vault, n: Id, user: UserId)
    requires Held(v)
    ensures DataKeyFor(v, n, user).Some? <==> CanOpen(v, n, user)
    ensures CanOpen(v, n, user) ==> UserKek(v, user).Some?
  {
    hide Held;
    if (n, user) in v.dataKeys { HeldKey(v, (n, user)); HeldUser(v, user); }
  }

  // ----- the flag

  /** No operation ever clears a file's flag while the file exists. */
  lemma {:induction false} EncryptedForever(v: Vault, ops: seq<Content.Op>, n: Id)
    requires Held(v) && n in v.books.drive.rows && v.books.drive.rows[n].encrypted
    requires n in Content.Run(v, ops).books.drive.rows
    ensures Content.Run(v, ops).books.drive.rows[n].encrypted
    decreases |ops|
  {
    hide Held, Content.Apply, Drive.WellFormed;
    if ops != [] {
      var v1 := Content.Apply(v, ops[0]).vault;
      HeldParts(v);
      VaultStepKeeps(v, ops[0]);
      ContentKinds(v, ops[0]);
      if n in v1.books.drive.rows {
        EncryptedForever(v1, ops[1..], n);
      } else {
        SpentStep(v, ops[0]);
        HeldParts(v1);
        Look(v.books.drive, n);
        GoneForGood(v1, ops[1..], n);
      }
    }
  }

  /** An id once spent is not given to a new row. */
  lemma {:induction false} GoneForGood(v: Vault, ops: seq<Content.Op>, n: Id)
    requires Held(v) && n !in v.books.drive.rows && n < v.books.drive.nextId
    ensures n !in Content.Run(v, ops).books.drive.rows
    decreases |ops|
  {
    hide Held, Content.Apply;
    if ops != [] {
      VaultStepKeeps(v, ops[0]);
      SpentStep(v, ops[0]);
      GoneForGood(Content.Apply(v, ops[0]).vault, ops[1..], n);
    }
  }

  /** Ids only go up, and new rows take new ones. */
  ghost predicate Spends(d: Drive, d': Drive) {
    d.nextId <= d'.nextId && forall m <- d'.rows :: m in d.rows || m >= d.nextId
  }

  lemma SpentStep(v: Vault, op: Content.Op)
    ensures Spends(v.books.drive, Content.Apply(v, op).vault.books.drive)
  {
    hide Spends;
    hide WriteContent, UploadFile, CopyFile, TurnOnEncryption, RestoreOld, RewrapFor, RevokeFor, RotateMasterKey, RotateUserKey, OnBooks, PurgeTree, Content.Join;
    match op
    case Put(p, name, encrypted, content, nonces) => UploadSpends(v, p, name, encrypted, content, nonces);
    case PutAgain(n, content, nonces) => WriteSpends(v, n, content, nonces);
    case Encrypt(n, s, nonces) => EncryptSpends(v, n, s, nonces);
    case BringBackVersion(n, x) => BringBackSpends(v, n, x);
    case Copy(source, folder, name) => CopySpends(v, source, folder, name);
    case AddUser(_, _) => TreeSpends(v, op);
    case Shred(_) => TreeSpends(v, op);
    case AddFolder(_, _) => TreeSpends(v, op);
    case Retitle(_, _) => TreeSpends(v, op);
    case Shift(_, _) => TreeSpends(v, op);
    case Bin(_, _) => TreeSpends(v, op);
    case Unbin(_) => TreeSpends(v, op);
    case _ => KeysSpend(v, op);
  }

  lemma KeysSpend(v: Vault, op: Content.Op)
    requires op.Share? || op.Unshare? || op.Install? || op.RotateMaster? || op.RotateUser?
    ensures Spends(v.books.drive, Content.Apply(v, op).vault.books.drive)
  {
    hide RotateKeys, DataKeyFor, OwnEncrypted, UserKek;
  }

  lemma TreeSpends(v: Vault, op: Content.Op)
    requires op.AddUser? || op.Shred? || op.AddFolder? || op.Retitle? || op.Shift? || op.Bin? || op.Unbin?
    ensures Spends(v.books.drive, Content.Apply(v, op).vault.books.drive)
  {
    hide Under, Taken, ValidName, FileBytes, Sums.Total, Kept, Charge, UsageOf;
  }

  lemma RecordSpends(v: Vault, prepared: Vault, n: Id, cells: seq<Cell>, size: nat, digest: Digest, encrypted: bool, sealId: Option<Id>)
    requires n in v.books.drive.rows && prepared.books == v.books
    ensures Spends(v.books.drive, Record(v, prepared, n, cells, size, digest, encrypted, sealId).vault.books.drive)
  {
    hide StoreVersion, NextSequence, Kept;
    if StoreVersion(prepared.books, n, size, digest, encrypted, sealId).Ok? { StoreShape(prepared.books, n, size, digest, encrypted, sealId); }
  }

  lemma WriteSpends(v: Vault, n: Id, content: seq<Framing.byte>, nonces: nat -> Nonce)
    ensures Spends(v.books.drive, WriteContent(v, n, content, nonces).vault.books.drive)
  {
    hide Record, Context.Stored, RawCells, Framing.FrameCount;
    var d := v.books.drive;
    if LiveNode(d, n) && d.rows[n].kind == File {
      if !d.rows[n].encrypted {
        RecordSpends(v, v, n, RawCells(content), |content|, Sha256(content), false, None);
      } else if EnsureDataKey(v, n, d.rows[n].owner).Some? {
        var (prepared, dek) := EnsureDataKey(v, n, d.rows[n].owner).value;
        var c := Context(dek, UuidBytes(d.nextId), v.frameBytes, nonces);
        if c.Valid() && Framing.FrameCount(|content|, c.frameBytes) <= Framing.INDEX_LIMIT {
          RecordSpends(v, prepared, n, c.Stored(content), |content|, Sha256(content), true, None);
        }
      }
    }
  }

  lemma UploadSpends(v: Vault, parent: Id, name: string, encrypted: bool, content: seq<Framing.byte>, nonces: nat -> Nonce)
    ensures Spends(v.books.drive, UploadFile(v, parent, name, encrypted, content, nonces).vault.books.drive)
  {
    hide WriteContent, ChildNamed, ValidName, Taken;
    var d := v.books.drive;
    if LiveNode(d, parent) && d.rows[parent].kind == Folder {
      match ChildNamed(d.rows, parent, name)
      case Some(m) => WriteSpends(v, m, content, nonces);
      case None =>
        if Create(d, parent, name, File, encrypted, false).Ok? {
          WriteSpends(v.(books := v.books.(drive := Create(d, parent, name, File, encrypted, false).value)), d.nextId, content, nonces);
        }
    }
  }

  lemma EncryptSpends(v: Vault, n: Id, s: UserId, nonces: nat -> Nonce)
    ensures Spends(v.books.drive, TurnOnEncryption(v, n, s, nonces).vault.books.drive)
  {
    hide WriteContent, Download;
    var d := v.books.drive;
    if LiveNode(d, n) && d.rows[n].current.Some? && Download(v, d.rows[n].current.value, s).Ok? {
      WriteSpends(v.(books := v.books.(drive := d.(rows := d.rows[n := d.rows[n].(encrypted := true)]))), n,
                  Download(v, d.rows[n].current.value, s).value, nonces);
    }
  }

  lemma BringBackSpends(v: Vault, n: Id, x: Id)
    ensures Spends(v.books.drive, RestoreOld(v, n, x).vault.books.drive)
  {
    hide Record;
    if LiveNode(v.books.drive, n) && x in v.books.versions && v.books.versions[x].node == n && KeyOf(x, v.books.versions[x]) in v.objects {
      var source := v.books.versions[x];
      RecordSpends(v, v, n, v.objects[KeyOf(x, source)], source.size, source.digest, source.encrypted, Some(source.sealId));
    }
  }

  lemma CopySpends(v: Vault, source: Id, folder: Id, name: string)
    ensures Spends(v.books.drive, CopyFile(v, source, folder, name).vault.books.drive)
  {
    hide CopyContent, Create;
    var d := v.books.drive;
    if LiveNode(d, source) && LiveNode(d, folder) && Create(d, folder, name, File, d.rows[source].encrypted, false).Ok? {
      CreatedRows(d, folder, name, d.rows[source].encrypted);
      CreatedIds(d, folder, name, d.rows[source].encrypted);
      var created, current := Create(d, folder, name, File, d.rows[source].encrypted, false).value, d.rows[source].current;
      if current.Some? && current.value in v.books.versions {
        CopyContentRows(v, created, source, current.value);
        CopyContentIds(v, created, source, current.value);
      }
    }
  }

  lemma CreatedIds(d: Drive, folder: Id, name: string, encrypted: bool)
    requires Create(d, folder, name, File, encrypted, false).Ok?
    ensures Create(d, folder, name, File, encrypted, false).value.nextId == d.nextId + 1
  {
    hide ValidName, Taken;
  }

  lemma CopyContentIds(v: Vault, created: Drive, source: Id, x: Id)
    requires x in v.books.versions && v.books.drive.nextId in created.rows
    ensures CopyContent(v, created, source, x).vault.books.drive.nextId >= Min(v.books.drive.nextId, created.nextId)
  {
    hide DataKeyFor, UserKek, Charge, UsageOf;
  }

  // ----- keys and purging

  /** Giving a subject a key works exactly when they have one, need none, or owner and subject both have usable keys. */
  lemma RewrapExactly(v: Vault, n: Id, s: UserId)
    ensures RewrapFor(v, n, s).failure.None? <==>
              n in v.books.drive.rows && (v.books.drive.rows[n].encrypted && (n, s) !in v.dataKeys ==> CanWrap(v, n, s))
    ensures RewrapFor(v, n, s).failure.None? && v.books.drive.rows[n].encrypted ==> KeyGiven(v, RewrapFor(v, n, s).vault, n, s)
    ensures var v' := RewrapFor(v, n, s).vault;
            v' == v.(dataKeys := v'.dataKeys) && forall k: (Id, UserId) :: k != (n, s) ==>
              (k in v'.dataKeys <==> k in v.dataKeys) && (k in v.dataKeys ==> v'.dataKeys[k] == v.dataKeys[k])
  {
  }

  /** A subject's key is taken away, unless they own the file, and no other key goes. */
  lemma UnshareExactly(v: Vault, n: Id, s: UserId)
    ensures RevokeFor(v, n, s).failure.None? <==> n in v.books.drive.rows && v.books.drive.rows[n].owner != s
    ensures RevokeFor(v, n, s).failure.None? ==> RevokeFor(v, n, s).vault == v.(dataKeys := v.dataKeys - {(n, s)}) && DataKeyFor(RevokeFor(v, n, s).vault, n, s).None?
  {
  }

  /** Destroying a trashed subtree takes its rows, versions, objects and keys, and leaves everything else. */
  lemma ShredClears(v: Vault, n: Id, m: Id, x: Id, s: UserId)
    requires Held(v)
    ensures PurgeTree(v, n).failure.None? <==> n in v.books.drive.rows && v.books.drive.rows[n].Trashed()
    ensures PurgeTree(v, n).failure.None? ==>
              var v', rows := PurgeTree(v, n).vault, v.books.drive.rows;
              var gone := set a | a in rows && Under(rows, a, n);
              && (m in v'.books.drive.rows <==> m in rows && m !in gone)
              && ((m, s) in v'.dataKeys <==> (m, s) in v.dataKeys && m !in gone)
              && (x in v'.books.versions <==> x in v.books.versions && v.books.versions[x].node !in gone)
              && (x in v.books.versions ==>
                    (KeyOf(x, v.books.versions[x]) in v'.objects <==> v.books.versions[x].node !in gone))
  {
    hide Held, Drive.WellFormed, Under, Sums.Total, Charge, UsageOf, Opens;
    if x in v.books.versions { HeldVersion(v, x); }
  }

  /** The first key minted for a file is unlike every key in use. */
  lemma MintedIsFresh(v: Vault, n: Id)
    requires Held(v) && n in v.books.drive.rows && (n, v.books.drive.rows[n].owner) !in v.dataKeys
    requires EnsureDataKey(v, n, v.books.drive.rows[n].owner).Some?
    ensures var (v', dek) := EnsureDataKey(v, n, v.books.drive.rows[n].owner).value;
            && v' == v.(dataKeys := v'.dataKeys, nextKey := v'.nextKey) && v'.dataKeys.Keys == v.dataKeys.Keys + {(n, v.books.drive.rows[n].owner)}
            && (forall k <- v.dataKeys :: v.dataKeys[k].dek != dek && v.dataKeys[k].kek != dek && v'.dataKeys[k] == v.dataKeys[k])
            && (forall u <- v.userKeys :: v.userKeys[u].kek != dek)
  {
    hide Held, DataKeyFor;
    forall k | k in v.dataKeys
      ensures v.dataKeys[k].dek < v.nextKey && v.dataKeys[k].kek < v.nextKey
    {
      HeldKey(v, k);
    }
    forall u | u in v.userKeys
      ensures v.userKeys[u].kek < v.nextKey
    {
      HeldUser(v, u);
    }
  }

  /** A file's data key can be had for writing exactly when its owner has a usable key. */
  lemma EnsureExactly(v: Vault, n: Id)
    requires Held(v) && n in v.books.drive.rows
    ensures EnsureDataKey(v, n, v.books.drive.rows[n].owner).Some? <==> Usable(v, v.books.drive.rows[n].owner)
  {
    hide Held;
    var owner := v.books.drive.rows[n].owner;
    HeldUserOf(v, n);
    HeldUser(v, owner);
    if (n, owner) in v.dataKeys { HeldKey(v, (n, owner)); }
  }

  // ----- the books of the vault are the ledger's

  /** A write or upload that succeeds does to rows, versions and buckets what the quota theorems are about; so does bringing a version back. */
  lemma BooksFollow(v: Vault, parent: Id, name: string, encrypted: bool, content: seq<Framing.byte>, nonces: nat -> Nonce, n: Id, x: Id)
    requires Held(v)
    ensures WriteContent(v, n, content, nonces).failure.None? ==> Replace(v.books, n, content) == Ok(WriteContent(v, n, content, nonces).vault.books)
    ensures UploadFile(v, parent, name, encrypted, content, nonces).failure.None? ==>
              Ledger.Upload(v.books, parent, name, encrypted, content) == Ok(UploadFile(v, parent, name, encrypted, content, nonces).vault.books)
    ensures RestoreOld(v, n, x).failure.None? ==> RestoreVersion(v.books, n, x) == Ok(RestoreOld(v, n, x).vault.books)
  {
    hide Held, WriteContent, StoreVersion, Replace, Create, ChildNamed;
    WriteFollows(v, n, content, nonces);
    var d := v.books.drive;
    if UploadFile(v, parent, name, encrypted, content, nonces).failure.None? {
      match ChildNamed(d.rows, parent, name)
      case Some(m) => FileWritten(v, m, content, nonces); WriteFollows(v, m, content, nonces);
      case None => WriteFollows(v.(books := v.books.(drive := Create(d, parent, name, File, encrypted, false).value)), d.nextId, content, nonces);
    }
  }

  lemma FileWritten(v: Vault, n: Id, content: seq<Framing.byte>, nonces: nat -> Nonce)
    requires WriteContent(v, n, content, nonces).failure.None?
    ensures n in v.books.drive.rows && v.books.drive.rows[n].kind == File
  {
  }

  lemma WriteFollows(v: Vault, n: Id, content: seq<Framing.byte>, nonces: nat -> Nonce)
    ensures WriteContent(v, n, content, nonces).failure.None? ==> Replace(v.books, n, content) == Ok(WriteContent(v, n, content, nonces).vault.books)
  {
    hide StoreVersion, Context.Stored, RawCells, Framing.FrameCount, Kept, NextSequence, DataKeyFor, UserKek;
  }
}
