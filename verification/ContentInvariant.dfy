/** Every version row names an object that opens to what the row records, in every run. */
module ContentInvariant {
  import opened Prelude
  import Framing
  import opened Cipher
  import opened CipherTheorems
  import opened Tree
  import opened TreeInvariant
  import opened Sums
  import opened Ledger
  import opened LedgerInvariant
  import opened Purge
  import opened Content

  // ----- the invariant

  /** The cells are what the version says, under the data key wrapped for the owner if it is encrypted. */
  ghost predicate Opens(v: Vault, version: Version, cells: seq<Cell>) {
    && version.size == |version.digest.content|
    && if version.encrypted then
         var k := (version.node, version.owner);
         k in v.dataKeys && OpenWhole(v.dataKeys[k].dek, UuidBytes(version.sealId), cells) == Outcome(version.digest.content, None)
       else cells == RawCells(version.digest.content)
  }

  /** The row's object exists and opens, under the owner's wrapped data key, to the recorded size and digest. */
  ghost predicate VersionHeld(v: Vault, x: Id)
    requires x in v.books.versions
  {
    var version := v.books.versions[x];
    && x < v.books.drive.nextId
    && version.node in v.books.drive.rows && v.books.drive.rows[version.node].owner == version.owner
    && (version.encrypted ==> v.books.drive.rows[version.node].encrypted)
    && KeyOf(x, version) in v.objects
    && Opens(v, version, v.objects[KeyOf(x, version)])
  }

  /** A current version is this row's own, and only files are encrypted. */
  ghost predicate RowHeld(v: Vault, n: Id)
    requires n in v.books.drive.rows
  {
    var row := v.books.drive.rows[n];
    && (row.encrypted ==> row.kind == File)
    && (row.current.Some? ==>
          && row.current.value < v.books.drive.nextId
          && (row.current.value in v.books.versions ==> v.books.versions[row.current.value].node == n))
  }

  /** Beside every wrapped data key the owner has one for the same data key, under the owner's present key. Keys to come are new ones. */
  ghost predicate KeyHeld(v: Vault, k: (Id, UserId))
    requires k in v.dataKeys
  {
    && k.0 in v.books.drive.rows && k.1 in v.userKeys && v.dataKeys[k].kek < v.nextKey && v.dataKeys[k].dek < v.nextKey
    && v.books.drive.rows[k.0].encrypted
    && var owner := (k.0, v.books.drive.rows[k.0].owner);
       && owner in v.dataKeys && v.dataKeys[owner].dek == v.dataKeys[k].dek
       && owner.1 in v.userKeys && v.dataKeys[owner].kek == v.userKeys[owner.1].kek
  }

  /** A user's key is labelled with the master key that sealed it. */
  predicate UserKeyHeld(v: Vault, u: UserId)
    requires u in v.userKeys
  {
    v.userKeys[u].master == v.userKeys[u].masterId && v.userKeys[u].kek < v.nextKey
  }

  /** The label of the user's key is one of the two configured. */
  predicate Usable(v: Vault, u: UserId) {
    u in v.userKeys && (v.userKeys[u].masterId == v.provider.current || v.provider.previous == Some(v.userKeys[u].masterId))
  }

  /** A data key is wrapped for the subject under their present key, and that key is usable. */
  predicate CanOpen(v: Vault, n: Id, subject: UserId) {
    (n, subject) in v.dataKeys && Usable(v, subject) && v.dataKeys[(n, subject)].kek == v.userKeys[subject].kek
  }

  /** Every object carries the id of a version that was begun. */
  ghost predicate ObjectsSpent(v: Vault) {
    forall key <- v.objects :: key.version < v.books.drive.nextId
  }

  ghost predicate Held(v: Vault) {
    && v.books.drive.WellFormed() && Framing.ValidFrameBytes(v.frameBytes)
    && (forall x {:trigger VersionHeld(v, x)} :: x in v.books.versions ==> VersionHeld(v, x))
    && (forall n {:trigger RowHeld(v, n)} :: n in v.books.drive.rows ==> RowHeld(v, n))
    && (forall k {:trigger KeyHeld(v, k)} :: k in v.dataKeys ==> KeyHeld(v, k))
    && (forall u {:trigger UserKeyHeld(v, u)} :: u in v.userKeys ==> UserKeyHeld(v, u))
    && v.books.drive.roots.Keys == v.userKeys.Keys && ObjectsSpent(v)
  }

  lemma HeldVersion(v: Vault, x: Id)
    requires Held(v) && x in v.books.versions
    ensures VersionHeld(v, x)
  {
    hide Drive.WellFormed, VersionHeld, RowHeld, KeyHeld, UserKeyHeld, ObjectsSpent;
  }

  lemma HeldRow(v: Vault, n: Id)
    requires Held(v) && n in v.books.drive.rows
    ensures RowHeld(v, n)
  {
    hide Drive.WellFormed, VersionHeld, RowHeld, KeyHeld, UserKeyHeld, ObjectsSpent;
  }

  /** A subject obtains a file's data key exactly when they can open their wrapping; the owner, when their own key is usable. */
  lemma HeldKey(v: Vault, k: (Id, UserId))
    requires Held(v) && k in v.dataKeys
    ensures KeyHeld(v, k) && UserKeyHeld(v, k.1)
    ensures DataKeyFor(v, k.0, k.1) == if CanOpen(v, k.0, k.1) then Some(v.dataKeys[k].dek) else None
    ensures var owner := v.books.drive.rows[k.0].owner;
            DataKeyFor(v, k.0, owner) == (if Usable(v, owner) then Some(v.dataKeys[k].dek) else None)
            && (CanOpen(v, k.0, owner) <==> Usable(v, owner))
  {
    hide Drive.WellFormed, VersionHeld, RowHeld, ObjectsSpent;
    assert KeyHeld(v, k);
    assert UserKeyHeld(v, k.1);
    assert UserKeyHeld(v, v.books.drive.rows[k.0].owner);
    assert k == (k.0, k.1);
  }

  lemma HeldUser(v: Vault, u: UserId)
    requires Held(v) && u in v.userKeys
    ensures UserKeyHeld(v, u) && UserKek(v, u) == if Usable(v, u) then Some(v.userKeys[u].kek) else None
  {
    hide Drive.WellFormed, VersionHeld, RowHeld, KeyHeld, ObjectsSpent;
    assert UserKeyHeld(v, u);
  }

  lemma HeldParts(v: Vault)
    requires Held(v)
    ensures v.books.drive.WellFormed() && Framing.ValidFrameBytes(v.frameBytes) && v.books.drive.roots.Keys == v.userKeys.Keys && ObjectsSpent(v)
  {
  }

  lemma Gather(v: Vault)
    requires v.books.drive.WellFormed() && Framing.ValidFrameBytes(v.frameBytes)
    requires v.books.drive.roots.Keys == v.userKeys.Keys && ObjectsSpent(v)
    requires forall x {:trigger VersionHeld(v, x)} :: x in v.books.versions ==> VersionHeld(v, x)
    requires forall n {:trigger RowHeld(v, n)} :: n in v.books.drive.rows ==> RowHeld(v, n)
    requires forall k {:trigger KeyHeld(v, k)} :: k in v.dataKeys ==> KeyHeld(v, k)
    requires forall u {:trigger UserKeyHeld(v, u)} :: u in v.userKeys ==> UserKeyHeld(v, u)
    ensures Held(v)
  {
    hide Drive.WellFormed, VersionHeld, RowHeld, KeyHeld, UserKeyHeld, ObjectsSpent;
  }

  // ----- what reading relies on

  /** Nothing a version's readability depends on was lost between `v` and `v'`. */
  ghost predicate Carries(v: Vault, v': Vault, x: Id)
    requires x in v.books.versions
  {
    var version := v.books.versions[x];
    var k := (version.node, version.owner);
    && v.books.drive.nextId <= v'.books.drive.nextId
    && version.node in v'.books.drive.rows && v'.books.drive.rows[version.node].owner == version.owner
    && (version.encrypted ==> v'.books.drive.rows[version.node].encrypted)
    && KeyOf(x, version) in v.objects && KeyOf(x, version) in v'.objects && v'.objects[KeyOf(x, version)] == v.objects[KeyOf(x, version)]
    && (k in v.dataKeys ==> k in v'.dataKeys && v'.dataKeys[k].dek == v.dataKeys[k].dek)
  }

  lemma StillHeld(v: Vault, v': Vault, x: Id)
    requires Held(v) && x in v.books.versions && x in v'.books.versions && v'.books.versions[x] == v.books.versions[x]
    requires Carries(v, v', x)
    ensures VersionHeld(v', x)
  {
    hide Held, OpenWhole, RawCells;
    HeldVersion(v, x);
  }

  // ----- recording a version

  lemma SpendIdsKeeps(d: Drive, nextId: Id)
    requires d.WellFormed() && nextId >= d.nextId
    ensures d.(nextId := nextId).WellFormed()
  {
    hide Up, Acyclic, ValidName, Drive.WellFormed, NamesDistinct;
    var d' := d.(nextId := nextId);
    AcyclicOf(d);
    forall m | m in d'.rows
      ensures EdgeOk(d'.rows, m) && OwnerOk(d'.rows, d'.roots, m) && RowOk(d', m)
    {
      Look(d, m);
    }
    forall u | u in d'.roots
      ensures RootOk(d'.rows, d'.roots, u)
    {
      LookRoot(d, u);
    }
    Assemble(d');
  }

  /** A failed write leaves objects no row names, and spent ids; the rows are as before. */
  ghost predicate RolledBack(v: Vault, v': Vault) {
    && v' == v.(objects := v'.objects, books := v.books.(drive := v.books.drive.(nextId := v'.books.drive.nextId)))
    && v'.books.drive.nextId >= v.books.drive.nextId
    && (forall key :: key in v.objects && key.version < v.books.drive.nextId ==> key in v'.objects && v'.objects[key] == v.objects[key])
    && forall key <- v'.objects :: key in v.objects || key.version < v'.books.drive.nextId
  }

  lemma RollbackKeeps(v: Vault, v': Vault)
    requires Held(v) && RolledBack(v, v')
    ensures Held(v')
  {
    HeldParts(v);
    SpendIdsKeeps(v.books.drive, v'.books.drive.nextId);
    hide Drive.WellFormed, Held, Opens;
    forall x | x in v'.books.versions
      ensures VersionHeld(v', x)
    {
      HeldVersion(v, x);
      SameKeysOpenSame(v, v', v.books.versions[x]);
    }
    forall n | n in v'.books.drive.rows
      ensures RowHeld(v', n)
    {
      HeldRow(v, n);
    }
    forall k | k in v'.dataKeys
      ensures KeyHeld(v', k)
    {
      HeldKey(v, k);
    }
    forall u | u in v'.userKeys
      ensures UserKeyHeld(v', u)
    {
      HeldUser(v, u);
    }
    Gather(v');
  }

  lemma OrphanRollsBack(v: Vault, key: ObjectKey, cells: seq<Cell>, why: Failure)
    requires key.version >= v.books.drive.nextId
    ensures RolledBack(v, Orphaned(v, key, cells, why).vault)
  {
  }

  lemma SameKeysOpenSame(v: Vault, v': Vault, version: Version)
    requires v'.dataKeys == v.dataKeys
    ensures forall cells :: Opens(v', version, cells) == Opens(v, version, cells)
  {
    hide OpenWhole, RawCells;
  }

  /** What a successful `StoreVersion` does to rows and versions, with no assumption on the buckets. */
  lemma StoreShape(b: Books, n: Id, size: nat, digest: Digest, encrypted: bool, sealId: Option<Id>)
    requires StoreVersion(b, n, size, digest, encrypted, sealId).Ok?
    ensures var after := StoreVersion(b, n, size, digest, encrypted, sealId).value;
            var x := b.drive.nextId;
            && n in b.drive.rows && b.drive.rows[n].kind == File
            && var version := Version(n, b.drive.rows[n].owner, NextSequence(b.versions, n), size, digest, encrypted,
                                      if sealId.Some? then sealId.value else x);
               && after.drive == b.drive.(rows := b.drive.rows[n := b.drive.rows[n].(current := Some(x), size := size)], nextId := x + 1)
               && forall y :: y in after.versions ==>
                    y in b.versions[x := version] && after.versions[y] == b.versions[x := version][y]
  {
    hide Sums.Total, NextSequence, Doomed;
  }

  lemma RecordKeeps(v: Vault, prepared: Vault, n: Id, cells: seq<Cell>, size: nat, digest: Digest, encrypted: bool, sealId: Option<Id>)
    requires Held(v) && Held(prepared) && n in v.books.drive.rows && (encrypted ==> v.books.drive.rows[n].encrypted)
    requires prepared.books == v.books && prepared.objects == v.objects
    requires Opens(prepared, Version(n, v.books.drive.rows[n].owner, 0, size, digest, encrypted,
                                     if sealId.Some? then sealId.value else v.books.drive.nextId), cells)
    ensures Held(Record(v, prepared, n, cells, size, digest, encrypted, sealId).vault)
  {
    hide Held, StoreVersion, Opens, NextSequence, Kept;
    var x := v.books.drive.nextId;
    var key := ObjectKey(v.books.drive.rows[n].owner, n, x);
    var r := StoreVersion(prepared.books, n, size, digest, encrypted, sealId);
    if r.Err? {
      OrphanRollsBack(v, key, cells, Refused(r.error));
      RollbackKeeps(v, Orphaned(v, key, cells, Refused(r.error)).vault);
    } else {
      RecordedKeeps(v, prepared, n, cells, size, digest, encrypted, sealId);
    }
  }

  lemma RecordedKeeps(v: Vault, prepared: Vault, n: Id, cells: seq<Cell>, size: nat, digest: Digest, encrypted: bool, sealId: Option<Id>)
    requires Held(v) && Held(prepared) && n in v.books.drive.rows && (encrypted ==> v.books.drive.rows[n].encrypted)
    requires prepared.books == v.books && prepared.objects == v.objects
    requires Opens(prepared, Version(n, v.books.drive.rows[n].owner, 0, size, digest, encrypted,
                                     if sealId.Some? then sealId.value else v.books.drive.nextId), cells)
    requires StoreVersion(prepared.books, n, size, digest, encrypted, sealId).Ok?
    ensures Held(Record(v, prepared, n, cells, size, digest, encrypted, sealId).vault)
  {
    hide StoreVersion, Opens, NextSequence, Drive.WellFormed, Held, OpenWhole;
    var b, x := prepared.books, prepared.books.drive.nextId;
    var v' := Record(v, prepared, n, cells, size, digest, encrypted, sealId).vault;
    HeldParts(prepared);
    StoreShape(b, n, size, digest, encrypted, sealId);
    ContentKeepsDrive(b.drive, n, x, size);
    forall y | y in v'.books.versions
      ensures VersionHeld(v', y)
    {
      RecordedVersion(v, prepared, n, cells, size, digest, encrypted, sealId, y);
    }
    forall m | m in v'.books.drive.rows
      ensures RowHeld(v', m)
    {
      HeldRow(prepared, m);
    }
    forall k | k in v'.dataKeys
      ensures KeyHeld(v', k)
    {
      HeldKey(prepared, k);
    }
    forall u | u in v'.userKeys
      ensures UserKeyHeld(v', u)
    {
      HeldUser(prepared, u);
    }
    Gather(v');
  }

  lemma RecordedVersion(v: Vault, prepared: Vault, n: Id, cells: seq<Cell>, size: nat, digest: Digest, encrypted: bool, sealId: Option<Id>, y: Id)
    requires Held(v) && Held(prepared) && n in v.books.drive.rows && (encrypted ==> v.books.drive.rows[n].encrypted)
    requires prepared.books == v.books && prepared.objects == v.objects
    requires Opens(prepared, Version(n, v.books.drive.rows[n].owner, 0, size, digest, encrypted,
                                     if sealId.Some? then sealId.value else v.books.drive.nextId), cells)
    requires StoreVersion(prepared.books, n, size, digest, encrypted, sealId).Ok?
    requires y in Record(v, prepared, n, cells, size, digest, encrypted, sealId).vault.books.versions
    ensures VersionHeld(Record(v, prepared, n, cells, size, digest, encrypted, sealId).vault, y)
  {
    hide StoreVersion, Opens, NextSequence, Drive.WellFormed, Held, OpenWhole;
    var b, x := prepared.books, prepared.books.drive.nextId;
    var v' := Record(v, prepared, n, cells, size, digest, encrypted, sealId).vault;
    StoreShape(b, n, size, digest, encrypted, sealId);
    if y == x {
      SameKeysOpenSame(prepared, v', v'.books.versions[x]);
      OpensIgnoresSequence(prepared, v'.books.versions[x], 0);
    } else {
      HeldVersion(prepared, y);
      HeldUserOf(prepared, b.versions[y].node);
      StillHeld(prepared, v', y);
    }
  }

  lemma OpensIgnoresSequence(v: Vault, version: Version, sequence: nat)
    ensures forall cells :: Opens(v, version.(sequence := sequence), cells) == Opens(v, version, cells)
  {
    hide OpenWhole, RawCells;
  }

  /** Every row's owner has a key, and it opens. */
  lemma HeldUserOf(v: Vault, n: Id)
    requires Held(v) && n in v.books.drive.rows
    ensures v.books.drive.rows[n].owner in v.userKeys && UserKeyHeld(v, v.books.drive.rows[n].owner)
  {
    hide Drive.WellFormed, VersionHeld, RowHeld, KeyHeld;
    Look(v.books.drive, n);
    HeldUser(v, v.books.drive.rows[n].owner);
  }

  // ----- keys

  /** Adding a wrapped key that agrees with the owner's keeps everything readable. */
  lemma AddKeyKeeps(v: Vault, k: (Id, UserId), w: WrappedDek, nextKey: Key)
    requires Held(v) && k !in v.dataKeys && k.0 in v.books.drive.rows && k.1 in v.userKeys && w.kek == v.userKeys[k.1].kek
    requires v.books.drive.rows[k.0].encrypted && v.nextKey <= nextKey && w.kek < nextKey && w.dek < nextKey
    requires var owner := (k.0, v.books.drive.rows[k.0].owner);
             if k == owner then forall j <- v.dataKeys :: j.0 != k.0 else owner in v.dataKeys && v.dataKeys[owner].dek == w.dek
    ensures Held(v.(dataKeys := v.dataKeys[k := w], nextKey := nextKey))
  {
    hide Drive.WellFormed, Held, Opens, OpenWhole;
    var v' := v.(dataKeys := v.dataKeys[k := w], nextKey := nextKey);
    HeldParts(v);
    forall x | x in v'.books.versions
      ensures VersionHeld(v', x)
    {
      HeldVersion(v, x);
      HeldUserOf(v, v.books.versions[x].node);
      StillHeld(v, v', x);
    }
    forall n | n in v'.books.drive.rows
      ensures RowHeld(v', n)
    {
      HeldRow(v, n);
    }
    forall j | j in v'.dataKeys
      ensures KeyHeld(v', j)
    {
      if j != k {
        HeldKey(v, j);
      } else if k.1 != v.books.drive.rows[k.0].owner {
        HeldKey(v, (k.0, v.books.drive.rows[k.0].owner));
      }
    }
    forall u | u in v'.userKeys
      ensures UserKeyHeld(v', u)
    {
      HeldUser(v, u);
    }
    Gather(v');
  }

  lemma NoKeysWithoutOwner(v: Vault, n: Id)
    requires Held(v) && n in v.books.drive.rows && (n, v.books.drive.rows[n].owner) !in v.dataKeys
    ensures forall j <- v.dataKeys :: j.0 != n
  {
    hide Drive.WellFormed, Held;
    forall j | j in v.dataKeys
      ensures j.0 != n
    {
      HeldKey(v, j);
    }
  }

  lemma EnsureKeeps(v: Vault, n: Id)
    requires Held(v) && n in v.books.drive.rows && v.books.drive.rows[n].encrypted
    requires EnsureDataKey(v, n, v.books.drive.rows[n].owner).Some?
    ensures var (prepared, dek) := EnsureDataKey(v, n, v.books.drive.rows[n].owner).value;
            && Held(prepared) && prepared.books == v.books && prepared.objects == v.objects
            && Usable(prepared, v.books.drive.rows[n].owner)
            && (n, v.books.drive.rows[n].owner) in prepared.dataKeys && prepared.dataKeys[(n, v.books.drive.rows[n].owner)].dek == dek
  {
    hide Drive.WellFormed, Held;
    var owner := v.books.drive.rows[n].owner;
    if (n, owner) in v.dataKeys {
      HeldKey(v, (n, owner));
    } else {
      HeldUserOf(v, n);
      HeldUser(v, owner);
      NoKeysWithoutOwner(v, n);
      AddKeyKeeps(v, (n, owner), WrappedDek(v.nextKey, v.userKeys[owner].kek), v.nextKey + 1);
    }
  }

  lemma RewrapKeeps(v: Vault, n: Id, subject: UserId)
    requires Held(v)
    ensures Held(RewrapFor(v, n, subject).vault)
  {
    hide Drive.WellFormed, Held;
    if RewrapFor(v, n, subject).vault != v {
      var owner := v.books.drive.rows[n].owner;
      HeldKey(v, (n, owner));
      HeldUser(v, subject);
      AddKeyKeeps(v, (n, subject), WrappedDek(v.dataKeys[(n, owner)].dek, v.userKeys[subject].kek), v.nextKey);
    }
  }

  lemma RevokeKeeps(v: Vault, n: Id, subject: UserId)
    requires Held(v)
    ensures Held(RevokeFor(v, n, subject).vault)
  {
    hide Drive.WellFormed, Held, Opens, OpenWhole;
    var v' := RevokeFor(v, n, subject).vault;
    HeldParts(v);
    forall x | x in v'.books.versions
      ensures VersionHeld(v', x)
    {
      HeldVersion(v, x);
      HeldUserOf(v, v.books.versions[x].node);
      StillHeld(v, v', x);
    }
    forall m | m in v'.books.drive.rows
      ensures RowHeld(v', m)
    {
      HeldRow(v, m);
    }
    forall j | j in v'.dataKeys
      ensures KeyHeld(v', j)
    {
      HeldKey(v, j);
    }
    forall u | u in v'.userKeys
      ensures UserKeyHeld(v', u)
    {
      HeldUser(v, u);
    }
    Gather(v');
  }

  // ----- master-key rotation

  /** Every key is labelled with the master key that sealed it. */
  ghost predicate Labelled(keys: map<UserId, UserKey>) {
    forall u <- keys :: keys[u].master == keys[u].masterId
  }

  predicate Opening(keys: map<UserId, UserKey>, provider: Provider, u: UserId)
    requires u in keys
  {
    keys[u].masterId == provider.current || provider.previous == Some(keys[u].masterId)
  }

  /**
   * A pass succeeds exactly when every key it lists opens; then it changes no user's key, finishes every
   * user it lists and touches no other.
   */
  lemma {:induction false} RotationPreserves(keys: map<UserId, UserKey>, provider: Provider, page: seq<UserId>)
    requires Labelled(keys)
    ensures RotateKeys(keys, provider, page).Some? <==> forall u <- page :: u in keys ==> Opening(keys, provider, u)
    ensures RotateKeys(keys, provider, page).Some? ==>
              var after := RotateKeys(keys, provider, page).value;
              && after.Keys == keys.Keys && Labelled(after)
              && (forall u <- keys :: after[u].kek == keys[u].kek)
              && (forall u <- keys :: u in page ==> after[u].masterId == provider.current)
              && (forall u <- keys :: u !in page ==> after[u] == keys[u])
    decreases |page|
  {
    if page != [] {
      var u := page[0];
      assert page == [u] + page[1..];
      if u !in keys || keys[u].masterId == provider.current {
        RotationPreserves(keys, provider, page[1..]);
        if RotateKeys(keys, provider, page).Some? { RotationLeaves(keys, provider, page[1..], u); }
      } else if provider.UnwrapKek(keys[u]).Some? {
        RotationPreserves(keys[u := provider.WrapKek(keys[u].kek)], provider, page[1..]);
        if RotateKeys(keys, provider, page).Some? { RotationLeaves(keys[u := provider.WrapKek(keys[u].kek)], provider, page[1..], u); }
      }
    }
  }

  /** A key that is current already stays as it is. */
  lemma {:induction false} RotationLeaves(keys: map<UserId, UserKey>, provider: Provider, page: seq<UserId>, u: UserId)
    requires RotateKeys(keys, provider, page).Some?
    ensures u in keys && keys[u].masterId == provider.current ==>
              u in RotateKeys(keys, provider, page).value && RotateKeys(keys, provider, page).value[u] == keys[u]
    decreases |page|
  {
    if page != [] {
      var w := page[0];
      if w !in keys || keys[w].masterId == provider.current {
        RotationLeaves(keys, provider, page[1..], u);
      } else {
        RotationLeaves(keys[w := provider.WrapKek(provider.UnwrapKek(keys[w]).value)], provider, page[1..], u);
      }
    }
  }

  /** The rotation loop of the key service, over one page of users. */
  method RotatePage(keys: map<UserId, UserKey>, provider: Provider, page: seq<UserId>)
    returns (after: Option<map<UserId, UserKey>>, scanned: nat, rewrapped: nat)
    ensures after == RotateKeys(keys, provider, page)
    ensures after.Some? ==> rewrapped == scanned
    ensures Labelled(keys) ==> (after.Some? <==> forall u <- page :: u in keys ==> Opening(keys, provider, u))
  {
    scanned, rewrapped := 0, 0;
    var current := keys;
    if Labelled(keys) { RotationPreserves(keys, provider, page); }
    for i := 0 to |page|
      invariant RotateKeys(current, provider, page[i..]) == RotateKeys(keys, provider, page)
      invariant rewrapped == scanned
    {
      var u := page[i];
      assert page[i..][1..] == page[i + 1..];
      if u in current && current[u].masterId != provider.current {
        scanned := scanned + 1;
        var kek := provider.UnwrapKek(current[u]);
        if kek.None? { return None, scanned, rewrapped; }
        current := current[u := provider.WrapKek(kek.value)];
        rewrapped := rewrapped + 1;
      }
    }
    after := Some(current);
  }

  lemma HeldLabels(v: Vault)
    requires Held(v)
    ensures Labelled(v.userKeys) && forall u <- v.userKeys :: Opening(v.userKeys, v.provider, u) <==> Usable(v, u)
  {
    hide Drive.WellFormed, Held;
    forall u | u in v.userKeys
      ensures v.userKeys[u].master == v.userKeys[u].masterId
    {
      HeldUser(v, u);
    }
  }

  /** Which users' keys a pass leaves usable: the ones that were, since a listed key ends under the current master. */
  lemma RotateMasterExact(v: Vault, page: seq<UserId>, u: UserId)
    requires Held(v)
    ensures var reply := RotateMasterKey(v, page);
            && (reply.failure.None? <==> forall w <- page :: w in v.userKeys ==> Usable(v, w))
            && (Usable(reply.vault, u) <==> Usable(v, u))
            && (reply.failure.None? && u in v.userKeys && u in page ==>
                  u in reply.vault.userKeys && reply.vault.userKeys[u].masterId == v.provider.current)
            && (u !in page && u in v.userKeys ==> u in reply.vault.userKeys && reply.vault.userKeys[u] == v.userKeys[u])
  {
    hide Drive.WellFormed, Held, RotateKeys;
    HeldLabels(v);
    RotationPreserves(v.userKeys, v.provider, page);
  }

  lemma RotateMasterKeeps(v: Vault, page: seq<UserId>)
    requires Held(v)
    ensures Held(RotateMasterKey(v, page).vault)
  {
    hide Drive.WellFormed, Held, Opens, OpenWhole, RotateKeys;
    HeldLabels(v);
    RotationPreserves(v.userKeys, v.provider, page);
    if RotateMasterKey(v, page).failure.None? {
      RotatedKeysKeep(v, RotateMasterKey(v, page).vault);
    }
  }

  /** User keys sealed again, and nothing else, leave everything held. */
  lemma RotatedKeysKeep(v: Vault, v': Vault)
    requires Held(v) && v' == v.(userKeys := v'.userKeys, provider := v'.provider) && v'.userKeys.Keys == v.userKeys.Keys
    requires Labelled(v'.userKeys) && forall u <- v.userKeys :: v'.userKeys[u].kek == v.userKeys[u].kek
    ensures Held(v')
  {
    hide Drive.WellFormed, Held, Opens, OpenWhole;
    HeldParts(v);
    forall x | x in v'.books.versions
      ensures VersionHeld(v', x)
    {
      HeldVersion(v, x);
      StillHeld(v, v', x);
    }
    forall m | m in v'.books.drive.rows
      ensures RowHeld(v', m)
    {
      HeldRow(v, m);
    }
    forall j | j in v'.dataKeys
      ensures KeyHeld(v', j)
    {
      HeldKey(v, j);
    }
    forall u | u in v'.userKeys
      ensures UserKeyHeld(v', u)
    {
      HeldUser(v, u);
    }
    Gather(v');
  }

  lemma InstallKeeps(v: Vault, master: Key, previous: Option<Key>)
    requires Held(v)
    ensures Held(InstallMaster(v, master, previous))
  {
    hide Drive.WellFormed, Held;
    HeldLabels(v);
    RotatedKeysKeep(v, InstallMaster(v, master, previous));
  }

  // ----- replacing a user's key

  lemma OwnTree(v: Vault, n: Id)
    requires Held(v) && n in v.books.drive.rows
    ensures var d := v.books.drive; d.rows[n].owner in d.roots && Under(d.rows, n, d.roots[d.rows[n].owner])
  {
    hide Drive.WellFormed, Held, Under;
    HeldParts(v);
    ReachesRoot(v.books.drive, n, {});
  }

  /** The nodes rewrapped are exactly the encrypted ones the user owns. */
  lemma OwnEncryptedIsOwned(v: Vault, u: UserId, n: Id)
    requires Held(v) && u in v.books.drive.roots
    ensures n in OwnEncrypted(v.books.drive, u) <==>
              n in v.books.drive.rows && v.books.drive.rows[n].encrypted && v.books.drive.rows[n].owner == u
  {
    hide Drive.WellFormed, Held, Under;
    HeldParts(v);
    if n in v.books.drive.rows {
      OwnTree(v, n);
      if Under(v.books.drive.rows, n, v.books.drive.roots[u]) {
        UnderSameOwner(v.books.drive, n, v.books.drive.roots[u]);
        LookRoot(v.books.drive, u);
      }
    }
  }

  /**
   * Replacing a user's key succeeds exactly when the old one is usable. It keeps every data key of their own
   * files; a key wrapped for them on anyone else's file opens no more.
   */
  lemma RotateUserExact(v: Vault, u: UserId, n: Id)
    requires Held(v) && u in v.books.drive.roots && (n, u) in v.dataKeys
    ensures var reply := RotateUserKey(v, u);
            && (reply.failure.None? <==> Usable(v, u))
            && (reply.failure.None? ==>
                  DataKeyFor(reply.vault, n, u) ==
                    if n in v.books.drive.rows && v.books.drive.rows[n].owner == u then DataKeyFor(v, n, u) else None)
  {
    hide Drive.WellFormed, Held, OwnEncrypted;
    HeldKey(v, (n, u));
    HeldUser(v, u);
    OwnEncryptedIsOwned(v, u, n);
    RotateUserSucceeds(v, u);
  }

  lemma RotateUserSucceeds(v: Vault, u: UserId)
    requires Held(v) && u in v.books.drive.roots
    ensures u in v.userKeys && (RotateUserKey(v, u).failure.None? <==> Usable(v, u)) && (UserKek(v, u).Some? <==> Usable(v, u))
    ensures RotateUserKey(v, u).failure.Some? ==> RotateUserKey(v, u).vault == v
  {
    hide Drive.WellFormed, Held, OwnEncrypted;
    HeldParts(v);
    HeldUser(v, u);
    forall n | Usable(v, u) && n in OwnEncrypted(v.books.drive, u) && (n, u) in v.dataKeys
      ensures UnwrapDek(v.dataKeys[(n, u)], UserKek(v, u).value).Some?
    {
      OwnEncryptedIsOwned(v, u, n);
      HeldKey(v, (n, u));
    }
  }

  lemma RotateUserKeeps(v: Vault, u: UserId)
    requires Held(v)
    ensures Held(RotateUserKey(v, u).vault)
  {
    hide Drive.WellFormed, Held, Opens, OpenWhole, OwnEncrypted;
    HeldParts(v);
    if u in v.books.drive.roots { RotateUserSucceeds(v, u); }
    if u in v.books.drive.roots && Usable(v, u) {
      var v' := RotateUserKey(v, u).vault;
      forall x | x in v'.books.versions
        ensures VersionHeld(v', x)
      {
        RotatedVersion(v, u, x);
      }
      forall m | m in v'.books.drive.rows
        ensures RowHeld(v', m)
      {
        HeldRow(v, m);
      }
      forall k | k in v'.dataKeys
        ensures KeyHeld(v', k)
      {
        RotatedKey(v, u, k);
      }
      forall w | w in v'.userKeys
        ensures UserKeyHeld(v', w)
      {
        if w != u { HeldUser(v, w); }
      }
      Gather(v');
    }
  }

  lemma RotatedKey(v: Vault, u: UserId, k: (Id, UserId))
    requires Held(v) && u in v.books.drive.roots && k in v.dataKeys && RotateUserKey(v, u).failure.None?
    ensures KeyHeld(RotateUserKey(v, u).vault, k)
  {
    hide Drive.WellFormed, Held, OwnEncrypted;
    RotateUserSucceeds(v, u);
    HeldKey(v, k);
    HeldKey(v, (k.0, v.books.drive.rows[k.0].owner));
    OwnEncryptedIsOwned(v, u, k.0);
  }

  lemma RotatedVersion(v: Vault, u: UserId, x: Id)
    requires Held(v) && u in v.books.drive.roots && x in v.books.versions && RotateUserKey(v, u).failure.None?
    ensures VersionHeld(RotateUserKey(v, u).vault, x)
  {
    hide Drive.WellFormed, Held, OpenWhole, RawCells, OwnEncrypted;
    RotateUserSucceeds(v, u);
    HeldVersion(v, x);
    var version := v.books.versions[x];
    var v' := RotateUserKey(v, u).vault;
    if version.encrypted {
      var k := (version.node, version.owner);
      HeldKey(v, k);
      if version.owner == u {
        OwnEncryptedIsOwned(v, u, version.node);
      } else {
        assert v'.dataKeys[k] == v.dataKeys[k];
      }
      assert v'.dataKeys[k].dek == v.dataKeys[k].dek;
    }
  }

  // ----- writes

  lemma SealedOpens(v: Vault, n: Id, dek: Key, content: seq<Framing.byte>, nonces: nat -> Nonce)
    requires n in v.books.drive.rows && (n, v.books.drive.rows[n].owner) in v.dataKeys && v.dataKeys[(n, v.books.drive.rows[n].owner)].dek == dek
    requires var c := Context(dek, UuidBytes(v.books.drive.nextId), v.frameBytes, nonces);
             c.Valid() && Framing.FrameCount(|content|, c.frameBytes) <= Framing.INDEX_LIMIT
    ensures var c := Context(dek, UuidBytes(v.books.drive.nextId), v.frameBytes, nonces);
            Opens(v, Version(n, v.books.drive.rows[n].owner, 0, |content|, Sha256(content), true, v.books.drive.nextId), c.Stored(content))
  {
    hide OpenWhole, DataKeyFor, Context.Stored;
    RoundTrip(Context(dek, UuidBytes(v.books.drive.nextId), v.frameBytes, nonces), content);
  }

  lemma WriteKeeps(v: Vault, n: Id, content: seq<Framing.byte>, nonces: nat -> Nonce)
    requires Held(v)
    ensures Held(WriteContent(v, n, content, nonces).vault)
  {
    hide Held, Record, Opens, Context.Stored, EnsureDataKey, RawCells, Drive.WellFormed, Framing.FrameCount;
    var d := v.books.drive;
    if LiveNode(d, n) && d.rows[n].kind == File {
      if !d.rows[n].encrypted {
        assert Opens(v, Version(n, d.rows[n].owner, 0, |content|, Sha256(content), false, d.nextId), RawCells(content)) by { RawOpens(v, n, content); }
        RecordKeeps(v, v, n, RawCells(content), |content|, Sha256(content), false, None);
      } else if EnsureDataKey(v, n, d.rows[n].owner).Some? {
        var (prepared, dek) := EnsureDataKey(v, n, d.rows[n].owner).value;
        EnsureKeeps(v, n);
        SameFrameSize(v, n);
        var c := Context(dek, UuidBytes(d.nextId), v.frameBytes, nonces);
        if c.Valid() && Framing.FrameCount(|content|, c.frameBytes) <= Framing.INDEX_LIMIT {
          SealedOpens(prepared, n, dek, content, nonces);
          RecordKeeps(v, prepared, n, c.Stored(content), |content|, Sha256(content), true, None);
        }
      }
    }
  }

  lemma RawOpens(v: Vault, n: Id, content: seq<Framing.byte>)
    requires n in v.books.drive.rows
    ensures Opens(v, Version(n, v.books.drive.rows[n].owner, 0, |content|, Sha256(content), false, v.books.drive.nextId), RawCells(content))
  {
  }

  lemma SameFrameSize(v: Vault, n: Id)
    requires n in v.books.drive.rows && EnsureDataKey(v, n, v.books.drive.rows[n].owner).Some?
    ensures EnsureDataKey(v, n, v.books.drive.rows[n].owner).value.0.frameBytes == v.frameBytes
  {
  }

  lemma RecordRollsBack(v: Vault, prepared: Vault, n: Id, cells: seq<Cell>, size: nat, digest: Digest, encrypted: bool, sealId: Option<Id>)
    requires n in v.books.drive.rows && Record(v, prepared, n, cells, size, digest, encrypted, sealId).failure.Some?
    ensures RolledBack(v, Record(v, prepared, n, cells, size, digest, encrypted, sealId).vault)
  {
    hide StoreVersion, RolledBack, Orphaned, Kept, NextSequence;
    var x := v.books.drive.nextId;
    var key := ObjectKey(v.books.drive.rows[n].owner, n, x);
    var r := StoreVersion(prepared.books, n, size, digest, encrypted, sealId);
    if r.Err? { OrphanRollsBack(v, key, cells, Refused(r.error)); }
  }

  lemma NothingRollsBack(v: Vault)
    ensures RolledBack(v, v)
  {
  }

  /** A write that fails rolls back to where it started. */
  lemma WriteRollsBack(v: Vault, n: Id, content: seq<Framing.byte>, nonces: nat -> Nonce)
    requires WriteContent(v, n, content, nonces).failure.Some?
    ensures RolledBack(v, WriteContent(v, n, content, nonces).vault)
  {
    hide Record, Context.Stored, RawCells, Framing.FrameCount, EnsureDataKey, RolledBack;
    NothingRollsBack(v);
    var d := v.books.drive;
    if LiveNode(d, n) && d.rows[n].kind == File {
      if !d.rows[n].encrypted {
        RecordRollsBack(v, v, n, RawCells(content), |content|, Sha256(content), false, None);
      } else if EnsureDataKey(v, n, d.rows[n].owner).Some? {
        var (prepared, dek) := EnsureDataKey(v, n, d.rows[n].owner).value;
        var c := Context(dek, UuidBytes(d.nextId), v.frameBytes, nonces);
        if c.Valid() && Framing.FrameCount(|content|, c.frameBytes) <= Framing.INDEX_LIMIT {
          RecordRollsBack(v, prepared, n, c.Stored(content), |content|, Sha256(content), true, None);
        }
      }
    }
  }

  ghost predicate SameRow(r: Row, r': Row) {
    && r'.owner == r.owner && r'.kind == r.kind && r'.current == r.current
    && (r.encrypted ==> r'.encrypted) && (r'.encrypted ==> r.encrypted || r.kind == File)
  }

  /** Rows gained, or moved, or renamed, or turned to encrypted, with no effect on content. */
  ghost predicate SameContent(d: Drive, d': Drive) {
    && d.rows.Keys <= d'.rows.Keys && d.nextId <= d'.nextId && d'.roots.Keys == d.roots.Keys
    && (forall n {:trigger d'.rows[n]} :: n in d.rows ==> SameRow(d.rows[n], d'.rows[n]))
    && (forall n {:trigger d'.rows[n]} :: n in d'.rows && n !in d.rows ==>
          d'.rows[n].current.None? && (d'.rows[n].encrypted ==> d'.rows[n].kind == File))
  }

  lemma SameContentKeeps(v: Vault, b': Books)
    requires Held(v) && b'.drive.WellFormed() && SameContent(v.books.drive, b'.drive) && b'.versions == v.books.versions
    ensures Held(v.(books := b'))
  {
    hide Drive.WellFormed, Held, Opens;
    var v' := v.(books := b');
    HeldParts(v);
    forall x | x in v'.books.versions
      ensures VersionHeld(v', x)
    {
      HeldVersion(v, x);
      SameKeysOpenSame(v, v', v.books.versions[x]);
    }
    forall n | n in v'.books.drive.rows
      ensures RowHeld(v', n)
    {
      if n in v.books.drive.rows { HeldRow(v, n); }
    }
    forall k | k in v'.dataKeys
      ensures KeyHeld(v', k)
    {
      HeldKey(v, k);
    }
    forall u | u in v'.userKeys
      ensures UserKeyHeld(v', u)
    {
      HeldUser(v, u);
    }
    Gather(v');
  }

  lemma CreatedKeeps(v: Vault, parent: Id, name: string, kind: Kind, encrypted: bool, reserved: bool)
    requires Held(v) && Create(v.books.drive, parent, name, kind, encrypted, reserved).Ok? && (encrypted ==> kind == File)
    ensures Held(v.(books := v.books.(drive := Create(v.books.drive, parent, name, kind, encrypted, reserved).value)))
  {
    hide Drive.WellFormed, Held, ValidName, Taken;
    HeldParts(v);
    CreateKeeps(v.books.drive, parent, name, kind, encrypted, reserved);
    FreshId(v.books.drive);
    SameContentKeeps(v, v.books.(drive := Create(v.books.drive, parent, name, kind, encrypted, reserved).value));
  }

  lemma UploadFileKeeps(v: Vault, parent: Id, name: string, encrypted: bool, content: seq<Framing.byte>, nonces: nat -> Nonce)
    requires Held(v)
    ensures Held(UploadFile(v, parent, name, encrypted, content, nonces).vault)
  {
    hide Held, WriteContent, ChildNamed;
    var d := v.books.drive;
    if LiveNode(d, parent) && d.rows[parent].kind == Folder {
      match ChildNamed(d.rows, parent, name)
      case Some(m) => WriteKeeps(v, m, content, nonces);
      case None =>
        if Create(d, parent, name, File, encrypted, false).Ok? {
          var v1 := v.(books := v.books.(drive := Create(d, parent, name, File, encrypted, false).value));
          var reply := WriteContent(v1, d.nextId, content, nonces);
          CreatedKeeps(v, parent, name, File, encrypted, false);
          WriteKeeps(v1, d.nextId, content, nonces);
          if reply.failure.Some? {
            WriteRollsBack(v1, d.nextId, content, nonces);
            RollbackKeeps(v, UploadFile(v, parent, name, encrypted, content, nonces).vault);
          }
        }
    }
  }

  lemma RestoreOldKeeps(v: Vault, n: Id, x: Id)
    requires Held(v)
    ensures Held(RestoreOld(v, n, x).vault)
  {
    hide Held, Record, Opens, Drive.WellFormed;
    if LiveNode(v.books.drive, n) && x in v.books.versions && v.books.versions[x].node == n {
      var source := v.books.versions[x];
      HeldVersion(v, x);
      OpensIgnoresSequence(v, source, 0);
      RecordKeeps(v, v, n, v.objects[KeyOf(x, source)], source.size, source.digest, source.encrypted, Some(source.sealId));
    }
  }

  lemma FlipKeepsTree(d: Drive, n: Id)
    requires d.WellFormed() && n in d.rows
    ensures d.(rows := d.rows[n := d.rows[n].(encrypted := true)]).WellFormed()
  {
    hide Up, Under, Acyclic, ValidName, Drive.WellFormed, NamesDistinct;
    var d' := d.(rows := d.rows[n := d.rows[n].(encrypted := true)]);
    AcyclicOf(d);
    SameParentsSameTree(d.rows, d'.rows);
    forall m | m in d'.rows
      ensures EdgeOk(d'.rows, m) && OwnerOk(d'.rows, d'.roots, m) && RowOk(d', m)
    {
      Look(d, m);
    }
    forall u | u in d'.roots
      ensures RootOk(d'.rows, d'.roots, u)
    {
      LookRoot(d, u);
    }
    FlipKeepsNames(d.rows, n);
    Assemble(d');
  }

  lemma FlipKeepsNames(rows: Rows, n: Id)
    requires NamesDistinct(rows) && n in rows
    ensures NamesDistinct(rows[n := rows[n].(encrypted := true)])
  {
    var rows' := rows[n := rows[n].(encrypted := true)];
    forall x, y | x in rows' && y in rows' && Rivals(rows', x, y)
      ensures rows'[x].name != rows'[y].name
    {
      assert Rivals(rows, x, y);
    }
  }

  lemma FlipKeeps(v: Vault, n: Id)
    requires Held(v) && n in v.books.drive.rows && v.books.drive.rows[n].kind == File
    ensures var d := v.books.drive;
            Held(v.(books := v.books.(drive := d.(rows := d.rows[n := d.rows[n].(encrypted := true)]))))
  {
    hide Held, Drive.WellFormed;
    var d := v.books.drive;
    HeldParts(v);
    FlipKeepsTree(d, n);
    SameContentKeeps(v, v.books.(drive := d.(rows := d.rows[n := d.rows[n].(encrypted := true)])));
  }

  lemma TurnOnKeeps(v: Vault, n: Id, subject: UserId, nonces: nat -> Nonce)
    requires Held(v)
    ensures Held(TurnOnEncryption(v, n, subject, nonces).vault)
  {
    hide Held, WriteContent, Download, Drive.WellFormed;
    var d := v.books.drive;
    if LiveNode(d, n) && d.rows[n].kind == File && !d.rows[n].encrypted && d.rows[n].current.Some? {
      var got := Download(v, d.rows[n].current.value, subject);
      if got.Ok? {
        var flipped := v.(books := v.books.(drive := d.(rows := d.rows[n := d.rows[n].(encrypted := true)])));
        FlipKeeps(v, n);
        WriteKeeps(flipped, n, got.value, nonces);
        if WriteContent(flipped, n, got.value, nonces).failure.Some? {
          WriteRollsBack(flipped, n, got.value, nonces);
          RollbackKeeps(v, TurnOnEncryption(v, n, subject, nonces).vault);
        }
      }
    }
  }

  // ----- copies

  /** A version attached to a file of `v`, with an object that opens as it says. */
  ghost function Attached(v: Vault, version: Version, cells: seq<Cell>, size: nat, usage: map<UserId, Usage>): Vault
    requires version.node in v.books.drive.rows
  {
    var d, x := v.books.drive, v.books.drive.nextId;
    v.(objects := v.objects[KeyOf(x, version) := cells],
       books := v.books.(drive := d.(rows := d.rows[version.node := d.rows[version.node].(current := Some(x), size := size)], nextId := x + 1),
                         versions := v.books.versions[x := version], usage := usage))
  }

  lemma AttachKeeps(v: Vault, version: Version, cells: seq<Cell>, size: nat, usage: map<UserId, Usage>)
    requires Held(v) && version.node in v.books.drive.rows && v.books.drive.rows[version.node].kind == File
    requires version.encrypted ==> v.books.drive.rows[version.node].encrypted
    requires v.books.drive.rows[version.node].owner == version.owner && Opens(v, version, cells)
    ensures Held(Attached(v, version, cells, size, usage))
  {
    hide Opens, Drive.WellFormed, Held, OpenWhole;
    var v' := Attached(v, version, cells, size, usage);
    HeldParts(v);
    ContentKeepsDrive(v.books.drive, version.node, v.books.drive.nextId, size);
    forall y | y in v'.books.versions
      ensures VersionHeld(v', y)
    {
      if y == v.books.drive.nextId {
        SameKeysOpenSame(v, v', version);
      } else {
        HeldVersion(v, y);
        HeldUserOf(v, v.books.versions[y].node);
        StillHeld(v, v', y);
      }
    }
    forall m | m in v'.books.drive.rows
      ensures RowHeld(v', m)
    {
      HeldRow(v, m);
    }
    forall k | k in v'.dataKeys
      ensures KeyHeld(v', k)
    {
      HeldKey(v, k);
    }
    forall u | u in v'.userKeys
      ensures UserKeyHeld(v', u)
    {
      HeldUser(v, u);
    }
    Gather(v');
  }

  /** A copy's version opens under the copy's own wrapping of the same data key, and the id it was sealed with. */
  lemma CopyOpens(v: Vault, v': Vault, x: Id, copy: Id, user: UserId)
    requires Held(v) && x in v.books.versions
    requires var original := v.books.versions[x];
             original.encrypted ==>
               && DataKeyFor(v, original.node, user).Some?
               && DataKeyFor(v', copy, user) == DataKeyFor(v, original.node, user)
    ensures var original := v.books.versions[x];
            && KeyOf(x, original) in v.objects
            && Opens(v', Version(copy, user, 1, original.size, original.digest, original.encrypted, original.sealId), v.objects[KeyOf(x, original)])
  {
    hide Held, Drive.WellFormed, OpenWhole, RawCells;
    var original := v.books.versions[x];
    HeldVersion(v, x);
    if original.encrypted {
      HeldKey(v, (original.node, user));
      HeldKey(v, (original.node, original.owner));
    }
  }

  lemma CopyFileKeeps(v: Vault, source: Id, folder: Id, name: string)
    requires Held(v)
    ensures Held(CopyFile(v, source, folder, name).vault)
  {
    hide Held, CopyContent, Create;
    var d := v.books.drive;
    if LiveNode(d, source) && LiveNode(d, folder) && d.rows[source].kind == File && Create(d, folder, name, File, d.rows[source].encrypted, false).Ok? {
      CreatedKeeps(v, folder, name, File, d.rows[source].encrypted, false);
      HeldRow(v, source);
      HeldParts(v);
      CreatedRow(d, folder, name, d.rows[source].encrypted);
      var current := d.rows[source].current;
      if current.Some? && current.value in v.books.versions {
        CopyContentKeeps(v, folder, name, source, current.value);
      }
    }
  }

  /** What `Create` adds, as far as copying needs it. */
  lemma CreatedRow(d: Drive, parent: Id, name: string, encrypted: bool)
    requires d.WellFormed() && Create(d, parent, name, File, encrypted, false).Ok?
    ensures var d' := Create(d, parent, name, File, encrypted, false).value;
            && d.nextId !in d.rows && d'.rows.Keys == d.rows.Keys + {d.nextId} && d'.rows[d.nextId].kind == File && d'.nextId == d.nextId + 1
            && d'.rows[d.nextId].owner in d.roots && d'.rows[d.nextId].encrypted == encrypted
  {
    hide Drive.WellFormed, ValidName, Taken;
    FreshId(d);
    Look(d, parent);
  }

  lemma CopyContentKeeps(v: Vault, folder: Id, name: string, source: Id, x: Id)
    requires Held(v) && source in v.books.drive.rows && x in v.books.versions && v.books.versions[x].node == source
    requires Create(v.books.drive, folder, name, File, v.books.drive.rows[source].encrypted, false).Ok?
    requires v.books.drive.nextId in Create(v.books.drive, folder, name, File, v.books.drive.rows[source].encrypted, false).value.rows
    ensures Held(CopyContent(v, Create(v.books.drive, folder, name, File, v.books.drive.rows[source].encrypted, false).value, source, x).vault)
  {
    hide Held, Create, Opens, Drive.WellFormed, DataKeyFor, Charge, UsageOf, RolledBack;
    var d, copy := v.books.drive, v.books.drive.nextId;
    var created := Create(d, folder, name, File, d.rows[source].encrypted, false).value;
    var original, user := v.books.versions[x], created.rows[copy].owner;
    var reply := CopyContent(v, created, source, x);
    HeldParts(v);
    CreatedRow(d, folder, name, d.rows[source].encrypted);
    HeldVersion(v, x);
    var cells := v.objects[KeyOf(x, original)];
    if reply.failure.Some? {
      var key := ObjectKey(user, copy, created.nextId);
      OrphanRollsBack(v, key, cells, reply.failure.value);
      RollbackKeeps(v, Orphaned(v, key, cells, reply.failure.value).vault);
    } else {
      var v1 := v.(books := v.books.(drive := created));
      CreatedKeeps(v, folder, name, File, d.rows[source].encrypted, false);
      var version := Version(copy, user, 1, original.size, original.digest, original.encrypted, original.sealId);
      var size := if |cells| > 0 then |cells| else original.size;
      var usage := Charge(v.books, user, UsageOf(v.books, user).ChargeLive(size));
      if original.encrypted {
        CopiedKeyKeeps(v, v1, source, copy, user);
        var v2 := v1.(dataKeys := reply.vault.dataKeys);
        CopyOpens(v, v2, x, copy, user);
        AttachKeeps(v2, version, cells, size, usage);
      } else {
        CopyOpens(v, v1, x, copy, user);
        AttachKeeps(v1, version, cells, size, usage);
      }
    }
  }

  lemma CopiedKeyKeeps(v: Vault, v1: Vault, source: Id, copy: Id, user: UserId)
    requires Held(v) && Held(v1) && v1 == v.(books := v1.books)
    requires copy !in v.books.drive.rows && copy in v1.books.drive.rows && v1.books.drive.rows[copy].owner == user
    requires v1.books.drive.rows[copy].encrypted
    requires DataKeyFor(v, source, user).Some? && UserKek(v, user).Some?
    ensures var v2 := v1.(dataKeys := v.dataKeys[(copy, user) := WrappedDek(DataKeyFor(v, source, user).value, UserKek(v, user).value)]);
            Held(v2) && DataKeyFor(v2, copy, user) == DataKeyFor(v, source, user)
  {
    hide Held, Drive.WellFormed;
    HeldUser(v, user);
    HeldKey(v, (source, user));
    forall j | j in v.dataKeys
      ensures j.0 != copy
    {
      HeldKey(v, j);
    }
    AddKeyKeeps(v1, (copy, user), WrappedDek(DataKeyFor(v, source, user).value, UserKek(v, user).value), v1.nextKey);
  }

  // ----- the tree operations

  lemma JoinHeld(v: Vault, u: UserId, quota: nat)
    requires Held(v)
    ensures Held(Content.Join(v, u, quota).vault)
  {
    hide Held, Drive.WellFormed, Opens;
    HeldParts(v);
    if u !in v.books.drive.roots {
      var v' := Content.Join(v, u, quota).vault;
      ProvisionKeeps(v.books.drive, u);
      FreshId(v.books.drive);
      forall x | x in v'.books.versions
        ensures VersionHeld(v', x)
      {
        HeldVersion(v, x);
        HeldUserOf(v, v.books.versions[x].node);
        StillHeld(v, v', x);
      }
      forall n | n in v'.books.drive.rows
        ensures RowHeld(v', n)
      {
        if n in v.books.drive.rows { HeldRow(v, n); }
      }
      forall k | k in v'.dataKeys
        ensures KeyHeld(v', k)
      {
        HeldKey(v, k);
      }
      forall w | w in v'.userKeys
        ensures UserKeyHeld(v', w)
      {
        if w in v.userKeys { HeldUser(v, w); }
      }
      Gather(v');
    }
  }

  lemma RearrangedKeeps(v: Vault, op: Content.Op)
    requires Held(v) && (op.AddFolder? || op.Retitle? || op.Shift? || op.Bin? || op.Unbin?)
    ensures Held(Content.Apply(v, op).vault)
  {
    hide Held, Drive.WellFormed, ValidName, Taken, Under, FileBytes, SameContent, LiveUnder, BatchUnder, Create, Rename, Move, Delete, Restore;
    var d := v.books.drive;
    var v' := Content.Apply(v, op).vault;
    HeldParts(v);
    if v' != v {
      match op
      case AddFolder(p, name) => CreatedKeeps(v, p, name, Folder, false, true);
      case Retitle(n, name) => RenameKeeps(d, n, name); RenameSameContent(d, n, name); SameContentKeeps(v, v'.books);
      case Shift(n, p) => MoveKeeps(d, n, p); MoveSameContent(d, n, p); SameContentKeeps(v, v'.books);
      case Bin(n, elapsed) => DeleteKeeps(d, n, elapsed); DeleteSameContent(d, n, elapsed); SameContentKeeps(v, v'.books);
      case Unbin(n) => RestoreKeeps(d, n); RestoreSameContent(d, n); SameContentKeeps(v, v'.books);
    }
  }

  lemma RenameSameContent(d: Drive, n: Id, name: string)
    requires Rename(d, n, name).Ok?
    ensures SameContent(d, Rename(d, n, name).value)
  {
    hide ValidName, Taken;
  }

  lemma MoveSameContent(d: Drive, n: Id, parent: Id)
    requires Move(d, n, parent).Ok?
    ensures SameContent(d, Move(d, n, parent).value)
  {
    hide Under, Taken;
  }

  lemma DeleteSameContent(d: Drive, n: Id, elapsed: nat)
    requires Delete(d, n, elapsed).Ok?
    ensures SameContent(d, Delete(d, n, elapsed).value)
  {
    hide Under;
  }

  lemma RestoreSameContent(d: Drive, n: Id)
    requires Restore(d, n).Ok?
    ensures SameContent(d, Restore(d, n).value)
  {
    hide Under, Taken;
  }

  lemma PurgeTreeKeeps(v: Vault, n: Id)
    requires Held(v)
    ensures Held(PurgeTree(v, n).vault)
  {
    hide Held, Drive.WellFormed, Opens, Under, Sums.Total;
    HeldParts(v);
    if Tree.Purge(v.books.drive, n).Ok? {
      var v' := PurgeTree(v, n).vault;
      PurgeKeeps(v.books.drive, n);
      forall x | x in v'.books.versions
        ensures VersionHeld(v', x)
      {
        HeldVersion(v, x);
        HeldUserOf(v, v.books.versions[x].node);
        StillHeld(v, v', x);
      }
      forall m | m in v'.books.drive.rows
        ensures RowHeld(v', m)
      {
        HeldRow(v, m);
      }
      forall k | k in v'.dataKeys
        ensures KeyHeld(v', k)
      {
        HeldKey(v, k);
      }
      forall u | u in v'.userKeys
        ensures UserKeyHeld(v', u)
      {
        HeldUser(v, u);
      }
      Gather(v');
    }
  }

  // ----- every run

  lemma VaultStepKeeps(v: Vault, op: Content.Op)
    requires Held(v)
    ensures Held(Content.Apply(v, op).vault)
  {
    hide Held, Content.Join, UploadFile, WriteContent, TurnOnEncryption, RestoreOld, CopyFile, RewrapFor, RevokeFor, InstallMaster, RotateMasterKey, RotateUserKey, PurgeTree;
    hide OnBooks, OnDrive, Create, Rename, Move, DeleteNode, RestoreNode;
    match op
    case AddUser(u, quota) => JoinHeld(v, u, quota);
    case Put(p, name, encrypted, content, nonces) => UploadFileKeeps(v, p, name, encrypted, content, nonces);
    case PutAgain(n, content, nonces) => WriteKeeps(v, n, content, nonces);
    case Encrypt(n, s, nonces) => TurnOnKeeps(v, n, s, nonces);
    case BringBackVersion(n, x) => RestoreOldKeeps(v, n, x);
    case Copy(source, folder, name) => CopyFileKeeps(v, source, folder, name);
    case Share(n, s) => RewrapKeeps(v, n, s);
    case Unshare(n, s) => RevokeKeeps(v, n, s);
    case Install(master, previous) => InstallKeeps(v, master, previous);
    case RotateMaster(page) => RotateMasterKeeps(v, page);
    case RotateUser(u) => RotateUserKeeps(v, u);
    case Shred(n) => PurgeTreeKeeps(v, n);
    case _ => RearrangedKeeps(v, op);
  }

  lemma {:induction false} VaultRunFrom(v: Vault, ops: seq<Content.Op>)
    requires Held(v)
    ensures Held(Content.Run(v, ops))
    decreases |ops|
  {
    hide Held, Content.Apply;
    if ops != [] {
      VaultStepKeeps(v, ops[0]);
      VaultRunFrom(Content.Apply(v, ops[0]).vault, ops[1..]);
    }
  }

  lemma OpeningHeld(provider: Provider, frameBytes: nat, retention: nat)
    requires Framing.ValidFrameBytes(frameBytes)
    ensures Held(Content.Opening(provider, frameBytes, retention))
  {
    hide Up;
  }

  /**
   * In every run, with any master keys installed along the way, every version row names an existing object.
   * Nobody ever downloads anything but the content the row's digest and size describe: a subject gets that or,
   * for an encrypted version they hold no usable key to, a key failure. The owner gets it unless their own
   * key is labelled with a master key no longer configured.
   */
  lemma EveryVersionIsReadable(provider: Provider, frameBytes: nat, retention: nat, ops: seq<Content.Op>, x: Id)
    requires Framing.ValidFrameBytes(frameBytes)
    requires x in Content.Run(Content.Opening(provider, frameBytes, retention), ops).books.versions
    ensures Faithful(Content.Run(Content.Opening(provider, frameBytes, retention), ops), x)
  {
    hide Held, Content.Run, Content.Opening, Faithful;
    OpeningHeld(provider, frameBytes, retention);
    VaultRunFrom(Content.Opening(provider, frameBytes, retention), ops);
    HeldReads(Content.Run(Content.Opening(provider, frameBytes, retention), ops), x);
  }

  /** What reading a version comes to, for every subject. */
  ghost predicate Faithful(v: Vault, x: Id)
    requires x in v.books.versions
  {
    var version := v.books.versions[x];
    && KeyOf(x, version) in v.objects
    && version.size == |version.digest.content|
    && (forall subject: UserId {:trigger Download(v, x, subject)} ::
          Download(v, x, subject) == if version.encrypted && !CanOpen(v, version.node, subject) then Err(KeyUnavailable) else Ok(version.digest.content))
    && (version.encrypted ==> (CanOpen(v, version.node, version.owner) <==> Usable(v, version.owner)))
  }

  lemma HeldReads(v: Vault, x: Id)
    requires Held(v) && x in v.books.versions
    ensures Faithful(v, x)
  {
    hide Held, OpenWhole, RawCells, PlainBytes, Drive.WellFormed;
    var version := v.books.versions[x];
    HeldVersion(v, x);
    PlainOfRaw(version.digest.content);
    if version.encrypted {
      HeldKey(v, (version.node, version.owner));
    }
    forall subject: UserId
      ensures Download(v, x, subject) ==
                if version.encrypted && !CanOpen(v, version.node, subject) then Err(KeyUnavailable) else Ok(version.digest.content)
    {
      if (version.node, subject) in v.dataKeys { HeldKey(v, (version.node, subject)); }
    }
  }

  // ----- changing the master key

  predicate SealedUnder(v: Vault, u: UserId, master: Key, previous: Option<Key>) {
    u in v.userKeys && (v.userKeys[u].masterId == master || previous == Some(v.userKeys[u].masterId))
  }

  /** A master key can be replaced safely exactly when every owner of an encrypted version has a key labelled with one of the two configured then. */
  lemma SwapSafeExactly(v: Vault, master: Key, previous: Option<Key>)
    requires Held(v)
    ensures var v' := InstallMaster(v, master, previous);
            (forall x {:trigger x in v'.books.versions} :: x in v'.books.versions ==>
               Download(v', x, v'.books.versions[x].owner) == Ok(v'.books.versions[x].digest.content)) <==>
            (forall x {:trigger v.books.versions[x]} :: x in v.books.versions && v.books.versions[x].encrypted ==>
               SealedUnder(v, v.books.versions[x].owner, master, previous))
  {
    hide Held, Download, Drive.WellFormed;
    var v' := InstallMaster(v, master, previous);
    InstallKeeps(v, master, previous);
    forall x | x in v.books.versions
      ensures v.books.versions[x].owner in v.userKeys
      ensures Download(v', x, v.books.versions[x].owner) == Ok(v.books.versions[x].digest.content) <==>
                (v.books.versions[x].encrypted ==> Usable(v', v.books.versions[x].owner))
    {
      HeldVersion(v, x);
      HeldUserOf(v, v.books.versions[x].node);
      HeldReads(v', x);
    }
  }

  /**
   * The documented procedure, twice, with one page rotated in between: everyone can read after the first
   * swap, and after the second exactly the users that page listed still can.
   */
  lemma SecondSwapBreaksExactly(v: Vault, second: Key, third: Key, page: seq<UserId>, u: UserId)
    requires Held(v) && u in v.userKeys && (forall w <- v.userKeys :: v.userKeys[w].masterId == v.provider.current)
    requires second != v.provider.current && third != v.provider.current
    ensures var v1 := InstallMaster(v, second, Some(v.provider.current));
            var reply := RotateMasterKey(v1, page);
            var v2 := InstallMaster(reply.vault, third, Some(second));
            && Held(v2) && Usable(v1, u) && reply.failure.None? && (Usable(v2, u) <==> u in page)
  {
    hide Held, RotateKeys, Drive.WellFormed;
    var v1 := InstallMaster(v, second, Some(v.provider.current));
    InstallKeeps(v, second, Some(v.provider.current));
    RotateMasterExact(v1, page, u);
    RotateMasterKeeps(v1, page);
    InstallKeeps(RotateMasterKey(v1, page).vault, third, Some(second));
  }

  // ----- what one call undoes

  /** The file's current version is `content`: its owner downloads that, given a usable key if it is encrypted. */
  ghost predicate Reads(v: Vault, n: Id, content: seq<Framing.byte>) {
    && n in v.books.drive.rows && v.books.drive.rows[n].current.Some?
    && var x, owner := v.books.drive.rows[n].current.value, v.books.drive.rows[n].owner;
       && x in v.books.versions && v.books.versions[x].digest.content == content
       && Download(v, x, owner) == if v.books.versions[x].encrypted && !Usable(v, owner) then Err(KeyUnavailable) else Ok(content)
  }

  lemma NewestIsKept(b: Books, n: Id, size: nat, digest: Digest, encrypted: bool, sealId: Option<Id>)
    requires b.retention >= 1 && StoreVersion(b, n, size, digest, encrypted, sealId).Ok?
    ensures b.drive.nextId in StoreVersion(b, n, size, digest, encrypted, sealId).value.versions
  {
    hide Sums.Total, NextSequence;
    var x := b.drive.nextId;
    var version := Version(n, b.drive.rows[n].owner, NextSequence(b.versions, n), size, digest, encrypted, if sealId.Some? then sealId.value else x);
    assert Newer(b.versions[x := version], x) == {};
  }

  lemma RecordThenRead(v: Vault, prepared: Vault, n: Id, cells: seq<Cell>, size: nat, digest: Digest, encrypted: bool, sealId: Option<Id>)
    requires n in v.books.drive.rows && prepared.books == v.books && v.books.retention >= 1
    requires Record(v, prepared, n, cells, size, digest, encrypted, sealId).failure.None?
    requires Held(Record(v, prepared, n, cells, size, digest, encrypted, sealId).vault)
    ensures Reads(Record(v, prepared, n, cells, size, digest, encrypted, sealId).vault, n, digest.content)
  {
    hide StoreVersion, Held, Kept, NextSequence, Download;
    StoreShape(v.books, n, size, digest, encrypted, sealId);
    NewestIsKept(v.books, n, size, digest, encrypted, sealId);
    HeldReads(Record(v, prepared, n, cells, size, digest, encrypted, sealId).vault, v.books.drive.nextId);
  }

  /** A write that succeeds is what the owner's next download returns. */
  lemma WriteThenRead(v: Vault, n: Id, content: seq<Framing.byte>, nonces: nat -> Nonce)
    requires Held(v) && v.books.retention >= 1 && WriteContent(v, n, content, nonces).failure.None?
    ensures var v' := WriteContent(v, n, content, nonces).vault;
            && Reads(v', n, content)
            && Download(v', v'.books.drive.rows[n].current.value, v'.books.drive.rows[n].owner) == Ok(content)
  {
    hide Held, Record, Context.Stored, EnsureDataKey, RawCells, Framing.FrameCount, Download;
    WriteKeeps(v, n, content, nonces);
    var d := v.books.drive;
    if !d.rows[n].encrypted {
      RecordThenRead(v, v, n, RawCells(content), |content|, Sha256(content), false, None);
      RecordedAs(v, v, n, RawCells(content), |content|, Sha256(content), false, None);
    } else {
      var (prepared, dek) := EnsureDataKey(v, n, d.rows[n].owner).value;
      EnsureKeeps(v, n);
      var c := Context(dek, UuidBytes(d.nextId), v.frameBytes, nonces);
      RecordThenRead(v, prepared, n, c.Stored(content), |content|, Sha256(content), true, None);
      RecordedAs(v, prepared, n, c.Stored(content), |content|, Sha256(content), true, None);
    }
  }

  lemma RecordedAs(v: Vault, prepared: Vault, n: Id, cells: seq<Cell>, size: nat, digest: Digest, encrypted: bool, sealId: Option<Id>)
    requires n in v.books.drive.rows && prepared.books == v.books && v.books.retention >= 1
    requires Record(v, prepared, n, cells, size, digest, encrypted, sealId).failure.None?
    ensures var v', row := Record(v, prepared, n, cells, size, digest, encrypted, sealId).vault, v.books.drive.rows[n];
            && v'.userKeys == prepared.userKeys && v'.provider == prepared.provider
            && n in v'.books.drive.rows && v'.books.drive.rows[n].owner == row.owner && v'.books.drive.rows[n].current == Some(v.books.drive.nextId)
            && v.books.drive.nextId in v'.books.versions && v'.books.versions[v.books.drive.nextId].encrypted == encrypted
  {
    hide StoreVersion, Kept, NextSequence;
    StoreShape(v.books, n, size, digest, encrypted, sealId);
    NewestIsKept(v.books, n, size, digest, encrypted, sealId);
  }

  /** Bringing a version back makes the file read as it did then, though the bytes were sealed for the old version. */
  lemma RestoreThenRead(v: Vault, n: Id, x: Id)
    requires Held(v) && v.books.retention >= 1 && RestoreOld(v, n, x).failure.None?
    ensures x in v.books.versions && Reads(RestoreOld(v, n, x).vault, n, v.books.versions[x].digest.content)
  {
    hide Held, Record, Reads;
    RestoreOldKeeps(v, n, x);
    var source := v.books.versions[x];
    RecordThenRead(v, v, n, v.objects[KeyOf(x, source)], source.size, source.digest, source.encrypted, Some(source.sealId));
  }

  /** Turning encryption on leaves the file reading as before, from a version that is now encrypted. */
  lemma EncryptThenRead(v: Vault, n: Id, subject: UserId, nonces: nat -> Nonce, content: seq<Framing.byte>)
    requires Held(v) && v.books.retention >= 1 && n in v.books.drive.rows && Reads(v, n, content)
    requires !v.books.drive.rows[n].encrypted && TurnOnEncryption(v, n, subject, nonces).failure.None?
    ensures var v' := TurnOnEncryption(v, n, subject, nonces).vault;
            n in v'.books.drive.rows && v'.books.drive.rows[n].encrypted && Reads(v', n, content)
  {
    hide Held, Download, WriteContent, Drive.WellFormed;
    var d := v.books.drive;
    var x := d.rows[n].current.value;
    var got := Download(v, x, subject);
    HeldReads(v, x);
    HeldRow(v, n);
    FlipKeeps(v, n);
    var flipped := v.(books := v.books.(drive := d.(rows := d.rows[n := d.rows[n].(encrypted := true)])));
    WriteThenRead(flipped, n, got.value, nonces);
    WriteKeepsFlag(flipped, n, got.value, nonces);
  }

  lemma WriteKeepsFlag(v: Vault, n: Id, content: seq<Framing.byte>, nonces: nat -> Nonce)
    requires n in v.books.drive.rows && v.books.drive.rows[n].encrypted && WriteContent(v, n, content, nonces).failure.None?
    ensures var d' := WriteContent(v, n, content, nonces).vault.books.drive; n in d'.rows && d'.rows[n].encrypted
  {
    hide Context.Stored, RawCells, Framing.FrameCount, Kept, NextSequence, Doomed, Sums.Total, VersionSizes;
  }

  /** A copy reads as the source reads, for the owner of the copy, and so does a copy of that copy. */
  lemma CopyThenRead(v: Vault, source: Id, folder: Id, name: string, content: seq<Framing.byte>)
    requires Held(v) && CopyFile(v, source, folder, name).failure.None? && source in v.books.drive.rows && Reads(v, source, content)
    ensures var v' := CopyFile(v, source, folder, name).vault;
            Held(v') && Reads(v', v.books.drive.nextId, content) && Reads(v', source, content)
  {
    hide Held, Download, Drive.WellFormed, ValidName, Taken, DataKeyFor, UserKek;
    CopyFileKeeps(v, source, folder, name);
    HeldParts(v);
    FreshId(v.books.drive);
    HeldRow(v, source);
    var v' := CopyFile(v, source, folder, name).vault;
    var x := v.books.drive.rows[source].current.value;
    HeldReads(v, x);
    HeldVersion(v, x);
    HeldReads(v', v.books.drive.nextId + 1);
    HeldReads(v', x);
  }
}
