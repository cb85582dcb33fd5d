/** What shares, revokes and the rewrap job keep over whole runs, and what a crash does to a pass. */
module SharingTheorems {
  import opened Prelude
  import Framing
  import opened Cipher
  import opened Tree
  import opened TreeInvariant
  import opened Ledger
  import opened LedgerInvariant
  import opened Purge
  import opened Content
  import opened ContentInvariant
  import opened Sharing

  predicate Active(grants: Grants, n: Id, s: UserId) {
    exists g <- grants :: g.On(n, s) && !g.pending
  }

  // ----- rewrapping

  /** Between `v` and `v'` the recipient came to hold the data key of `m` that its owner holds, or kept the wrapping they had. */
  ghost predicate KeyGiven(v: Vault, v': Vault, m: Id, s: UserId) {
    && v'.books == v.books && m in v.books.drive.rows && (m, s) in v'.dataKeys
    && var owner := v.books.drive.rows[m].owner;
       && DataKeyFor(v', m, owner) == DataKeyFor(v, m, owner)
       && DataKeyFor(v', m, s) == (if (m, s) in v.dataKeys then DataKeyFor(v, m, s) else DataKeyFor(v, m, owner))
  }

  /** After a rewrap the recipient has a key for every encrypted file there, the owner's data key unless one was there before. */
  lemma RewrapGives(v: Vault, n: Id, s: UserId, m: Id)
    requires RewrapSubtree(v, n, s).Some? && m in EncryptedUnder(v.books.drive.rows, n)
    ensures FullyRewrapped(RewrapSubtree(v, n, s).value, n, s) && KeyGiven(v, RewrapSubtree(v, n, s).value, m, s)
  {
    hide LiveUnder;
    assert m in LiveUnder(v.books.drive.rows, n) && m in v.books.drive.rows by { InsideRows(v.books.drive.rows, n, m); }
  }

  lemma InsideRows(rows: Rows, n: Id, m: Id)
    requires m in EncryptedUnder(rows, n)
    ensures m in LiveUnder(rows, n) && m in rows && rows[m].Live() && rows[m].encrypted
  {
    hide Under;
  }

  lemma {:induction false} SettleActive(grants: Grants, n: Id, s: UserId, rows: Grants, m: Id, t: UserId)
    ensures Active(Settle(grants, n, s, rows), m, t) ==> Active(grants, m, t) || Active(rows, m, t)
    decreases |grants|
  {
    if Active(Settle(grants, n, s, rows), m, t) && grants != [] {
      var head := if grants[0].On(n, s) then rows else [grants[0]];
      var g :| g in Settle(grants, n, s, rows) && g.On(m, t) && !g.pending;
      if g in Settle(grants[1..], n, s, rows) {
        assert Active(Settle(grants[1..], n, s, rows), m, t);
        SettleActive(grants[1..], n, s, rows, m, t);
        if Active(grants[1..], m, t) {
          var h :| h in grants[1..] && h.On(m, t) && !h.pending;
          assert h in grants;
        }
      } else if !grants[0].On(n, s) {
        assert grants[0] in grants;
      }
    }
  }

  lemma {:induction false} FindActive(grants: Grants, n: Id, s: UserId)
    ensures Find(grants, n, s).Some? ==> Find(grants, n, s).value in grants && Find(grants, n, s).value.On(n, s)
    decreases |grants|
  {
    if grants != [] { FindActive(grants[1..], n, s); }
  }

  lemma RewrapSameBooks(v: Vault, n: Id, s: UserId)
    requires RewrapSubtree(v, n, s).Some?
    ensures RewrapSubtree(v, n, s).value.books == v.books
  {
  }

  lemma SurvivingActive(grants: Grants, rows: Rows, n: Id, s: UserId)
    ensures Active(Surviving(grants, rows), n, s) ==> Active(grants, n, s)
  {
    if Active(Surviving(grants, rows), n, s) {
      var g :| g in Surviving(grants, rows) && g.On(n, s) && !g.pending;
      SurvivingMembers(grants, rows, g);
    }
  }

  /** The only steps that activate a grant are those that rewrap its subtree. */
  lemma ActivatingSteps(x: Shares, step: Step, n: Id, s: UserId)
    requires !Active(x.grants, n, s) && Active(After(x, step).grants, n, s)
    ensures RewrapSubtree(x.vault, n, s).Some? && After(x, step).vault == RewrapSubtree(x.vault, n, s).value
    ensures After(x, step).vault.books == x.vault.books
  {
    hide Content.Apply, RewrapSubtree, EffectiveOrdinal, PendingOf, Active, EncryptedUnder;
    match step
    case OnContent(op) => SurvivingActive(x.grants, Content.Apply(x.vault, op).vault.books.drive.rows, n, s);
    case Share(actor, a, t, role, threshold) => ShareActivates(x, actor, a, t, role, threshold, n, s); RewrapSameBooks(x.vault, n, s);
    case Revoke(actor, a, t) => SettleActive(x.grants, a, t, [], n, s); NoneActive(n, s);
    case Job(g) => JobActivates(x, g, n, s); RewrapSameBooks(x.vault, n, s);
  }

  /**
   * A grant becomes active only in a step after which the recipient has a wrapped key for every encrypted
   * file of the live subtree. Each is the data key its owner has, with one exception: a key wrapped for
   * the recipient earlier is left as it was.
   */
  lemma ActiveOnlyWithKeys(x: Shares, step: Step, n: Id, s: UserId, m: Id)
    requires !Active(x.grants, n, s) && Active(After(x, step).grants, n, s)
    requires m in EncryptedUnder(After(x, step).vault.books.drive.rows, n)
    ensures KeyGiven(x.vault, After(x, step).vault, m, s)
  {
    hide After, EncryptedUnder, RewrapSubtree, KeyGiven, Active;
    ActivatingSteps(x, step, n, s);
    RewrapGives(x.vault, n, s, m);
  }

  lemma NoneActive(n: Id, s: UserId)
    ensures !Active([], n, s)
  {
  }

  lemma JobActivates(x: Shares, g: Grant, n: Id, s: UserId)
    requires !Active(x.grants, n, s) && Active(After(x, Job(g)).grants, n, s)
    ensures g.On(n, s) && RewrapSubtree(x.vault, n, s).Some? && After(x, Job(g)).vault == RewrapSubtree(x.vault, n, s).value
  {
    hide RewrapSubtree, PendingOf, FullyRewrapped;
    SettleActive(x.grants, g.node, g.subject, [], n, s);
    SettleActive(x.grants, g.node, g.subject, [g.(pending := false)], n, s);
  }

  lemma ShareActivates(x: Shares, actor: UserId, a: Id, t: UserId, role: Role, threshold: nat, n: Id, s: UserId)
    requires !Active(x.grants, n, s) && Active(GrantAccess(x, actor, a, t, role, threshold).0.grants, n, s)
    ensures a == n && t == s && RewrapSubtree(x.vault, n, s).Some? && GrantAccess(x, actor, a, t, role, threshold).0.vault == RewrapSubtree(x.vault, n, s).value
  {
    hide RewrapSubtree, EncryptedUnder, EffectiveOrdinal;
    FindActive(x.grants, a, t);
    if Find(x.grants, a, t).Some? {
      var before := Find(x.grants, a, t).value;
      SettleActive(x.grants, a, t, [before.(role := role)], n, s);
    }
  }

  /**
   * Activation leaves the recipient able to obtain a file's data key, the one every version of it is sealed
   * under, exactly when the recipient could before or had no wrapping: a wrapping under a key they have
   * since replaced is not repaired.
   */
  lemma ActiveMeansReadable(x: Shares, step: Step, n: Id, s: UserId, m: Id)
    requires Held(x.vault)
    requires !Active(x.grants, n, s) && Active(After(x, step).grants, n, s)
    requires m in EncryptedUnder(After(x, step).vault.books.drive.rows, n)
    ensures var v' := After(x, step).vault;
            && m in v'.books.drive.rows && (m, s) in v'.dataKeys && (m, v'.books.drive.rows[m].owner) in v'.dataKeys
            && (DataKeyFor(v', m, s) == Some(v'.dataKeys[(m, v'.books.drive.rows[m].owner)].dek) <==>
                  ((m, s) in x.vault.dataKeys ==> CanOpen(x.vault, m, s)))
  {
    hide Held, EncryptedUnder, LiveUnder, After, Active, RewrapSubtree;
    ActivatingSteps(x, step, n, s);
    var v, v' := x.vault, After(x, step).vault;
    RewrapGives(v, n, s, m);
    AdditionsKeep(v, n, s);
    HeldKey(v', (m, s));
    if (m, s) in v.dataKeys {
      HeldKey(v, (m, s));
    } else {
      WrappedCould(v, n, s, m);
      HeldUser(v, s);
    }
  }

  /** In every run of shares, revokes, job transactions and content operations, from an empty service. */
  lemma EveryActivationIsReadable(provider: Provider, frameBytes: nat, retention: nat, steps: seq<Step>, step: Step, n: Id, s: UserId, m: Id)
    requires Framing.ValidFrameBytes(frameBytes) && Configured(steps)
    requires var x := AfterAll(Shares(Content.Opening(provider, frameBytes, retention), []), steps);
             && !Active(x.grants, n, s) && Active(After(x, step).grants, n, s)
             && m in EncryptedUnder(After(x, step).vault.books.drive.rows, n)
    ensures var x := AfterAll(Shares(Content.Opening(provider, frameBytes, retention), []), steps);
            var v' := After(x, step).vault;
            && m in v'.books.drive.rows && (m, s) in v'.dataKeys && (m, v'.books.drive.rows[m].owner) in v'.dataKeys
            && (DataKeyFor(v', m, s) == Some(v'.dataKeys[(m, v'.books.drive.rows[m].owner)].dek) <==>
                  ((m, s) in x.vault.dataKeys ==> CanOpen(x.vault, m, s)))
  {
    hide Held, EncryptedUnder, After, AfterAll, Active, Content.Opening, Configured, DataKeyFor;
    EveryRunIsHeld(provider, frameBytes, retention, steps);
    ActiveMeansReadable(AfterAll(Shares(Content.Opening(provider, frameBytes, retention), []), steps), step, n, s, m);
  }

  lemma WrappedCould(v: Vault, n: Id, s: UserId, m: Id)
    requires RewrapSubtree(v, n, s).Some? && m in EncryptedUnder(v.books.drive.rows, n) && (m, s) !in v.dataKeys
    ensures CanWrap(v, m, s)
  {
    hide CanWrap, EncryptedUnder;
    assert m in Needing(v, n, s);
  }

  // ----- what every step keeps

  /** One grant per node and subject, on an existing row, and waiting only on folders. */
  ghost predicate GrantsHeld(x: Shares) {
    Unique(x.grants) && forall g <- x.grants :: GrantHeld(x.vault.books.drive.rows, g)
  }

  predicate GrantHeld(rows: Rows, g: Grant) {
    g.node in rows && (g.pending ==> rows[g.node].kind == Folder)
  }

  /** Keys added that agree with the owner's keep everything held. */
  lemma AdditionsKeep(v: Vault, n: Id, s: UserId)
    requires Held(v) && RewrapSubtree(v, n, s).Some?
    ensures Held(RewrapSubtree(v, n, s).value)
  {
    hide Held, Drive.WellFormed, Opens, LiveUnder, EncryptedUnder;
    var v' := RewrapSubtree(v, n, s).value;
    HeldParts(v);
    forall x | x in v'.books.versions ensures VersionHeld(v', x) { HeldVersion(v, x); StillHeld(v, v', x); }
    forall m | m in v'.books.drive.rows ensures RowHeld(v', m) { HeldRow(v, m); }
    forall k | k in v'.dataKeys ensures KeyHeld(v', k) { AddedKeyHeld(v, n, s, k); }
    forall u | u in v'.userKeys ensures UserKeyHeld(v', u) { HeldUser(v, u); }
    Gather(v');
  }

  lemma AddedKeyHeld(v: Vault, n: Id, s: UserId, k: (Id, UserId))
    requires Held(v) && RewrapSubtree(v, n, s).Some? && k in RewrapSubtree(v, n, s).value.dataKeys
    ensures KeyHeld(RewrapSubtree(v, n, s).value, k)
  {
    hide Held, LiveUnder;
    if k in v.dataKeys {
      HeldKey(v, k);
    } else {
      var m := k.0;
      assert k.1 == s && m in Needing(v, n, s);
      InsideRows(v.books.drive.rows, n, m);
      HeldKey(v, (m, v.books.drive.rows[m].owner));
      HeldUser(v, s);
    }
  }

  /** Keys taken away, none of them an owner's, leave everything held. */
  lemma DropKeysKeep(v: Vault, keys: DataKeys)
    requires Held(v) && (forall k <- keys :: k in v.dataKeys && keys[k] == v.dataKeys[k])
    requires forall k <- v.dataKeys :: k.0 in v.books.drive.rows && k.1 == v.books.drive.rows[k.0].owner ==> k in keys
    ensures Held(v.(dataKeys := keys))
  {
    hide Held, Drive.WellFormed, Opens;
    var v' := v.(dataKeys := keys);
    HeldParts(v);
    forall x | x in v'.books.versions ensures VersionHeld(v', x) { HeldVersion(v, x); StillHeld(v, v', x); }
    forall m | m in v'.books.drive.rows ensures RowHeld(v', m) { HeldRow(v, m); }
    forall k | k in v'.dataKeys ensures KeyHeld(v', k) { HeldKey(v, k); }
    forall u | u in v'.userKeys ensures UserKeyHeld(v', u) { HeldUser(v, u); }
    Gather(v');
  }

  lemma {:induction false} SettleUnique(grants: Grants, n: Id, s: UserId, rows: Grants)
    requires Unique(grants) && (rows == [] || (|rows| == 1 && rows[0].On(n, s)))
    ensures Unique(Settle(grants, n, s, rows))
    decreases |grants|
  {
    if grants != [] {
      var rest := grants[1..];
      UniqueTail(grants);
      if grants[0].On(n, s) {
        SettleAbsent(rest, n, s, rows);
        if rows == [] {
          assert Settle(grants, n, s, rows) == rest;
        } else {
          assert Settle(grants, n, s, rows) == [rows[0]] + rest;
          UniqueCons(rows[0], rest);
        }
      } else {
        SettleUnique(rest, n, s, rows);
        forall h | h in Settle(rest, n, s, rows)
          ensures !h.On(grants[0].node, grants[0].subject)
        {
          SettleMembers(rest, n, s, rows, h);
        }
        UniqueCons(grants[0], Settle(rest, n, s, rows));
      }
    }
  }

  lemma {:induction false} UniqueAppend(grants: Grants, g: Grant)
    requires Unique(grants) && Find(grants, g.node, g.subject).None?
    ensures Unique(grants + [g])
  {
    FindsAll(grants, g.node, g.subject);
    var all := grants + [g];
    forall i, j | 0 <= i < j < |all|
      ensures !all[j].On(all[i].node, all[i].subject)
    {
      assert all[i] == grants[i] && grants[i] in grants;
    }
  }

  lemma {:induction false} FindsAll(grants: Grants, n: Id, s: UserId)
    requires Find(grants, n, s).None?
    ensures forall g <- grants :: !g.On(n, s)
    decreases |grants|
  {
    if grants != [] {
      assert grants == [grants[0]] + grants[1..];
      FindsAll(grants[1..], n, s);
    }
  }

  lemma {:induction false} SurvivingMembers(grants: Grants, rows: Rows, g: Grant)
    ensures g in Surviving(grants, rows) <==> g in grants && g.node in rows
    decreases |grants|
  {
    if grants != [] {
      assert grants == [grants[0]] + grants[1..];
      SurvivingMembers(grants[1..], rows, g);
    }
  }

  lemma {:induction false} SurvivingUnique(grants: Grants, rows: Rows)
    requires Unique(grants)
    ensures Unique(Surviving(grants, rows))
    decreases |grants|
  {
    if grants != [] {
      UniqueTail(grants);
      SurvivingUnique(grants[1..], rows);
      if grants[0].node in rows {
        forall h | h in Surviving(grants[1..], rows) ensures h in grants[1..] { SurvivingMembers(grants[1..], rows, h); }
        UniqueCons(grants[0], Surviving(grants[1..], rows));
      }
    }
  }

  // ----- a row keeps its kind, and no operation turns encryption off

  ghost predicate SameKinds(rows: Rows, rows': Rows) {
    forall n {:trigger rows'[n]} :: n in rows && n in rows' ==> rows'[n].kind == rows[n].kind && (rows[n].encrypted ==> rows'[n].encrypted)
  }

  lemma RecordKinds(v: Vault, prepared: Vault, n: Id, cells: seq<Cell>, size: nat, digest: Digest, encrypted: bool, sealId: Option<Id>)
    requires n in v.books.drive.rows && prepared.books == v.books
    ensures SameKinds(v.books.drive.rows, Record(v, prepared, n, cells, size, digest, encrypted, sealId).vault.books.drive.rows)
    ensures v.books.drive.rows.Keys <= Record(v, prepared, n, cells, size, digest, encrypted, sealId).vault.books.drive.rows.Keys
  {
    hide StoreVersion, NextSequence, Kept;
    if StoreVersion(prepared.books, n, size, digest, encrypted, sealId).Ok? { StoreShape(prepared.books, n, size, digest, encrypted, sealId); }
  }

  lemma WriteKinds(v: Vault, n: Id, content: seq<Framing.byte>, nonces: nat -> Nonce)
    ensures SameKinds(v.books.drive.rows, WriteContent(v, n, content, nonces).vault.books.drive.rows)
    ensures v.books.drive.rows.Keys <= WriteContent(v, n, content, nonces).vault.books.drive.rows.Keys
  {
    hide Record, Context.Stored, RawCells, Framing.FrameCount;
    var d := v.books.drive;
    if LiveNode(d, n) && d.rows[n].kind == File {
      if !d.rows[n].encrypted {
        RecordKinds(v, v, n, RawCells(content), |content|, Sha256(content), false, None);
      } else if EnsureDataKey(v, n, d.rows[n].owner).Some? {
        var (prepared, dek) := EnsureDataKey(v, n, d.rows[n].owner).value;
        var c := Context(dek, UuidBytes(d.nextId), v.frameBytes, nonces);
        if c.Valid() && Framing.FrameCount(|content|, c.frameBytes) <= Framing.INDEX_LIMIT {
          RecordKinds(v, prepared, n, c.Stored(content), |content|, Sha256(content), true, None);
        }
      }
    }
  }

  lemma ContentKinds(v: Vault, op: Content.Op)
    requires v.books.drive.WellFormed()
    ensures SameKinds(v.books.drive.rows, Content.Apply(v, op).vault.books.drive.rows)
  {
    FreshId(v.books.drive);
    hide Drive.WellFormed, SameKinds;
    hide WriteContent, UploadFile, CopyFile, TurnOnEncryption, RestoreOld, RewrapFor, RevokeFor, RotateMasterKey, RotateUserKey, OnBooks, PurgeTree, Content.Join;
    match op
    case Put(p, name, encrypted, content, nonces) => UploadKinds(v, p, name, encrypted, content, nonces);
    case PutAgain(n, content, nonces) => WriteKinds(v, n, content, nonces);
    case Encrypt(n, s, nonces) => EncryptKinds(v, n, s, nonces);
    case BringBackVersion(n, x) => BringBackKinds(v, n, x);
    case Copy(source, folder, name) => CopyKinds(v, source, folder, name);
    case AddUser(u, quota) => JoinKinds(v, u, quota);
    case Shred(n) => PurgeKinds(v, n);
    case AddFolder(_, _) => TreeOpKinds(v, op);
    case Retitle(_, _) => TreeOpKinds(v, op);
    case Shift(_, _) => TreeOpKinds(v, op);
    case Bin(_, _) => TreeOpKinds(v, op);
    case Unbin(_) => TreeOpKinds(v, op);
    case _ => KeyOpKinds(v, op);
  }

  lemma KeyOpKinds(v: Vault, op: Content.Op)
    requires op.Share? || op.Unshare? || op.Install? || op.RotateMaster? || op.RotateUser?
    ensures SameKinds(v.books.drive.rows, Content.Apply(v, op).vault.books.drive.rows)
  {
    hide RotateKeys, DataKeyFor, OwnEncrypted, UserKek;
  }

  lemma EncryptKinds(v: Vault, n: Id, s: UserId, nonces: nat -> Nonce)
    ensures SameKinds(v.books.drive.rows, TurnOnEncryption(v, n, s, nonces).vault.books.drive.rows)
  {
    hide WriteContent, Download;
    var d := v.books.drive;
    if LiveNode(d, n) && d.rows[n].current.Some? && Download(v, d.rows[n].current.value, s).Ok? {
      WriteKinds(v.(books := v.books.(drive := d.(rows := d.rows[n := d.rows[n].(encrypted := true)]))), n,
                 Download(v, d.rows[n].current.value, s).value, nonces);
    }
  }

  lemma BringBackKinds(v: Vault, n: Id, x: Id)
    ensures SameKinds(v.books.drive.rows, RestoreOld(v, n, x).vault.books.drive.rows)
  {
    hide Record;
    if LiveNode(v.books.drive, n) && x in v.books.versions && v.books.versions[x].node == n && KeyOf(x, v.books.versions[x]) in v.objects {
      var source := v.books.versions[x];
      RecordKinds(v, v, n, v.objects[KeyOf(x, source)], source.size, source.digest, source.encrypted, Some(source.sealId));
    }
  }

  lemma JoinKinds(v: Vault, u: UserId, quota: nat)
    requires v.books.drive.nextId !in v.books.drive.rows
    ensures SameKinds(v.books.drive.rows, Content.Join(v, u, quota).vault.books.drive.rows)
  {
  }

  lemma PurgeKinds(v: Vault, n: Id)
    ensures SameKinds(v.books.drive.rows, PurgeTree(v, n).vault.books.drive.rows)
  {
    hide Subtree, Sums.Total, Kept;
  }

  lemma TreeOpKinds(v: Vault, op: Content.Op)
    requires v.books.drive.nextId !in v.books.drive.rows
    requires op.AddFolder? || op.Retitle? || op.Shift? || op.Bin? || op.Unbin?
    ensures SameKinds(v.books.drive.rows, Content.Apply(v, op).vault.books.drive.rows)
  {
    hide Create, Rename, Move, Delete, Restore, FileBytes, SameContent, SameKinds;
    var d := v.books.drive;
    match op
    case AddFolder(p, name) => if Create(d, p, name, Folder, false, true).Ok? { CreateSameContent(d, p, name); SameContentKinds(d, Create(d, p, name, Folder, false, true).value); } else { NoChangeKinds(d); }
    case Retitle(n, name) => if Rename(d, n, name).Ok? { RenameSameContent(d, n, name); SameContentKinds(d, Rename(d, n, name).value); } else { NoChangeKinds(d); }
    case Shift(n, p) => if Move(d, n, p).Ok? { MoveSameContent(d, n, p); SameContentKinds(d, Move(d, n, p).value); } else { NoChangeKinds(d); }
    case Bin(n, elapsed) => if Delete(d, n, elapsed).Ok? { DeleteSameContent(d, n, elapsed); SameContentKinds(d, Delete(d, n, elapsed).value); } else { NoChangeKinds(d); }
    case Unbin(n) => if Restore(d, n).Ok? { RestoreSameContent(d, n); SameContentKinds(d, Restore(d, n).value); } else { NoChangeKinds(d); }
  }

  lemma CreateSameContent(d: Drive, parent: Id, name: string)
    requires d.nextId !in d.rows && Create(d, parent, name, Folder, false, true).Ok?
    ensures SameContent(d, Create(d, parent, name, Folder, false, true).value)
  {
    hide ValidName, Taken;
  }

  lemma SameContentKinds(d: Drive, d': Drive)
    requires SameContent(d, d')
    ensures SameKinds(d.rows, d'.rows)
  {
  }

  lemma NoChangeKinds(d: Drive)
    ensures SameKinds(d.rows, d.rows)
  {
  }

  lemma CopyKinds(v: Vault, source: Id, folder: Id, name: string)
    requires v.books.drive.nextId !in v.books.drive.rows
    ensures SameKinds(v.books.drive.rows, CopyFile(v, source, folder, name).vault.books.drive.rows)
  {
    hide CopyContent, Create;
    var d := v.books.drive;
    if LiveNode(d, source) && LiveNode(d, folder) && Create(d, folder, name, File, d.rows[source].encrypted, false).Ok? {
      CreatedRows(d, folder, name, d.rows[source].encrypted);
      var created, current := Create(d, folder, name, File, d.rows[source].encrypted, false).value, d.rows[source].current;
      if current.Some? && current.value in v.books.versions { CopyContentRows(v, created, source, current.value); }
    }
  }

  lemma CreatedRows(d: Drive, folder: Id, name: string, encrypted: bool)
    requires Create(d, folder, name, File, encrypted, false).Ok?
    ensures var rows' := Create(d, folder, name, File, encrypted, false).value.rows; d.nextId in rows' && rows' == d.rows[d.nextId := rows'[d.nextId]]
  {
    hide ValidName, Taken;
  }

  lemma CopyContentRows(v: Vault, created: Drive, source: Id, x: Id)
    requires x in v.books.versions && v.books.drive.nextId in created.rows
    ensures var rows', copy := CopyContent(v, created, source, x).vault.books.drive.rows, v.books.drive.nextId;
            rows' == v.books.drive.rows || (copy in rows' && rows' == created.rows[copy := rows'[copy]])
  {
    hide DataKeyFor, UserKek, Charge, UsageOf;
  }

  lemma UploadKinds(v: Vault, parent: Id, name: string, encrypted: bool, content: seq<Framing.byte>, nonces: nat -> Nonce)
    requires v.books.drive.nextId !in v.books.drive.rows
    ensures SameKinds(v.books.drive.rows, UploadFile(v, parent, name, encrypted, content, nonces).vault.books.drive.rows)
  {
    hide WriteContent, ChildNamed, ValidName, Taken;
    var d := v.books.drive;
    if LiveNode(d, parent) && d.rows[parent].kind == Folder {
      match ChildNamed(d.rows, parent, name)
      case Some(m) => WriteKinds(v, m, content, nonces);
      case None =>
        if Create(d, parent, name, File, encrypted, false).Ok? {
          WriteKinds(v.(books := v.books.(drive := Create(d, parent, name, File, encrypted, false).value)), d.nextId, content, nonces);
        }
    }
  }

  // ----- each kind of step

  lemma ContentStepKeeps(x: Shares, op: Content.Op)
    requires Held(x.vault) && GrantsHeld(x)
    ensures Held(After(x, OnContent(op)).vault) && GrantsHeld(After(x, OnContent(op)))
  {
    hide Held, Content.Apply, Unique, Drive.WellFormed;
    HeldParts(x.vault);
    VaultStepKeeps(x.vault, op);
    ContentKinds(x.vault, op);
    var rows := Content.Apply(x.vault, op).vault.books.drive.rows;
    SurvivingUnique(x.grants, rows);
    forall g | g in Surviving(x.grants, rows)
      ensures GrantHeld(rows, g)
    {
      SurvivingMembers(x.grants, rows, g);
    }
  }

  /** Only a folder can hold more than one encrypted file. */
  lemma ManyMeansFolder(d: Drive, n: Id)
    requires d.WellFormed() && n in d.rows && d.rows[n].kind == File
    ensures |EncryptedUnder(d.rows, n)| <= 1
  {
    hide Drive.WellFormed, Under;
    forall m | m in EncryptedUnder(d.rows, n)
      ensures m == n
    {
      assert m in d.rows && Under(d.rows, m, n);
      AloneBeneath(d, m, n);
    }
    assert EncryptedUnder(d.rows, n) <= {n};
    AtMostOne(EncryptedUnder(d.rows, n), n);
  }

  lemma AtMostOne(s: set<Id>, n: Id)
    requires s <= {n}
    ensures |s| <= 1
  {
    if s != {} { assert s == {n}; }
  }

  /** Nothing lies beneath a file. */
  lemma AloneBeneath(d: Drive, m: Id, n: Id)
    requires d.WellFormed() && m in d.rows && n in d.rows && d.rows[n].kind == File && Under(d.rows, m, n)
    ensures m == n
  {
    hide Drive.WellFormed;
    var k: nat :| Up(d.rows, m, k) == Some(n);
    ParentsAreFolders(d, m, n, k);
  }

  lemma {:induction false} ParentsAreFolders(d: Drive, m: Id, n: Id, k: nat)
    requires d.WellFormed() && m in d.rows && n in d.rows && Up(d.rows, m, k) == Some(n)
    ensures k == 0 || d.rows[n].kind == Folder
    decreases k
  {
    hide Drive.WellFormed;
    if k > 0 {
      Look(d, m);
      ParentsAreFolders(d, d.rows[m].parent.value, n, k - 1);
    }
  }

  lemma ShareStepKeeps(x: Shares, actor: UserId, n: Id, s: UserId, role: Role, threshold: nat)
    requires Held(x.vault) && GrantsHeld(x) && threshold >= 1
    ensures var x' := After(x, Step.Share(actor, n, s, role, threshold)); Held(x'.vault) && GrantsHeld(x')
  {
    hide Held, Drive.WellFormed, RewrapSubtree, EncryptedUnder, EffectiveOrdinal, Unique;
    var d := x.vault.books.drive;
    HeldParts(x.vault);
    FindActive(x.grants, n, s);
    if LiveNode(d, n) && d.rows[n].kind == File { ManyMeansFolder(d, n); }
    if RewrapSubtree(x.vault, n, s).Some? {
      AdditionsKeep(x.vault, n, s);
      RewrapSameBooks(x.vault, n, s);
    }
    var existing := Find(x.grants, n, s);
    if existing.None? {
      UniqueAppend(x.grants, Grant(n, s, role, true));
      UniqueAppend(x.grants, Grant(n, s, role, false));
    } else {
      var again := [existing.value.(role := role)];
      SettleUnique(x.grants, n, s, again);
      forall g | g in Settle(x.grants, n, s, again)
        ensures GrantHeld(d.rows, g)
      {
        SettleMembers(x.grants, n, s, again, g);
        assert GrantHeld(d.rows, existing.value);
      }
    }
  }

  lemma RevokeStepKeeps(x: Shares, actor: UserId, n: Id, s: UserId)
    requires Held(x.vault) && GrantsHeld(x)
    ensures var x' := After(x, Revoke(actor, n, s)); Held(x'.vault) && GrantsHeld(x')
  {
    hide Held, Drive.WellFormed, Unique, Under;
    var x' := After(x, Revoke(actor, n, s));
    HeldParts(x.vault);
    if x' != x {
      forall k | k in x.vault.dataKeys && k.0 in x.vault.books.drive.rows && k.1 == x.vault.books.drive.rows[k.0].owner
        ensures k in x'.vault.dataKeys
      {
        if k.0 in LiveUnder(x.vault.books.drive.rows, n) { UnderSameOwner(x.vault.books.drive, k.0, n); }
      }
      DropKeysKeep(x.vault, x'.vault.dataKeys);
      SettleUnique(x.grants, n, s, []);
      forall g | g in x'.grants
        ensures GrantHeld(x.vault.books.drive.rows, g)
      {
        SettleMembers(x.grants, n, s, [], g);
      }
    }
  }

  lemma JobStepKeeps(x: Shares, g: Grant)
    requires Held(x.vault) && GrantsHeld(x) && g in PendingOf(x.grants) && JobStep(x, g).Some?
    ensures var x' := JobStep(x, g).value;
            && Held(x'.vault) && GrantsHeld(x') && x'.vault.books == x.vault.books
            && x'.vault.userKeys == x.vault.userKeys && x'.vault.provider == x.vault.provider
            && x.vault.dataKeys.Keys <= x'.vault.dataKeys.Keys
  {
    hide Held, Drive.WellFormed, RewrapSubtree, Unique, EncryptedUnder;
    var x' := JobStep(x, g).value;
    PendingIn(x.grants, g);
    HeldParts(x.vault);
    if !LiveNode(x.vault.books.drive, g.node) {
      if (g.node, g.subject) in x.vault.dataKeys {
        HeldKey(x.vault, (g.node, g.subject));
        HeldRow(x.vault, g.node);
      }
      assert x'.vault.dataKeys == x.vault.dataKeys;
    } else {
      AdditionsKeep(x.vault, g.node, g.subject);
      RewrapKeys(x.vault, g.node, g.subject);
    }
    SettleUnique(x.grants, g.node, g.subject, []);
    SettleUnique(x.grants, g.node, g.subject, [g.(pending := false)]);
    forall h | h in x'.grants
      ensures GrantHeld(x.vault.books.drive.rows, h)
    {
      SettleMembers(x.grants, g.node, g.subject, [], h);
      SettleMembers(x.grants, g.node, g.subject, [g.(pending := false)], h);
    }
  }

  lemma RewrapKeys(v: Vault, n: Id, s: UserId)
    requires RewrapSubtree(v, n, s).Some?
    ensures var v' := RewrapSubtree(v, n, s).value;
            v' == v.(dataKeys := v'.dataKeys) && v.dataKeys.Keys <= v'.dataKeys.Keys
  {
    hide Needing, CanWrap, WrapFor;
  }

  lemma AfterKeeps(x: Shares, step: Step)
    requires Held(x.vault) && GrantsHeld(x) && (step.Share? ==> step.threshold >= 1)
    ensures Held(After(x, step).vault) && GrantsHeld(After(x, step))
  {
    hide Held, GrantsHeld, GrantAccess, RevokeAccess, JobStep, Content.Apply, PendingOf;
    match step
    case OnContent(op) => ContentStepKeeps(x, op);
    case Share(actor, n, s, role, threshold) => ShareStepKeeps(x, actor, n, s, role, threshold);
    case Revoke(actor, n, s) => RevokeStepKeeps(x, actor, n, s);
    case Job(g) => if g in PendingOf(x.grants) && JobStep(x, g).Some? { JobStepKeeps(x, g); }
  }

  lemma {:induction false} AfterAllKeeps(x: Shares, steps: seq<Step>)
    requires Held(x.vault) && GrantsHeld(x) && Configured(steps)
    ensures Held(AfterAll(x, steps).vault) && GrantsHeld(AfterAll(x, steps))
    decreases |steps|
  {
    hide Held, GrantsHeld, After;
    if steps != [] {
      AfterKeeps(x, steps[0]);
      assert Configured(steps[1..]) by { assert forall i :: 0 <= i < |steps| - 1 ==> steps[1..][i] == steps[i + 1]; }
      AfterAllKeeps(After(x, steps[0]), steps[1..]);
    }
  }

  /** In every run the vault is held, and the grants are. */
  lemma EveryRunIsHeld(provider: Provider, frameBytes: nat, retention: nat, steps: seq<Step>)
    requires Framing.ValidFrameBytes(frameBytes) && Configured(steps)
    ensures var x := AfterAll(Shares(Content.Opening(provider, frameBytes, retention), []), steps);
            Held(x.vault) && GrantsHeld(x)
  {
    hide Held, AfterAll, Content.Opening, Configured;
    OpeningHeld(provider, frameBytes, retention);
    AfterAllKeeps(Shares(Content.Opening(provider, frameBytes, retention), []), steps);
  }

  // ----- whose turn it is

  predicate StrictlyUp(idx: seq<nat>) {
    forall i, j :: 0 <= i < j < |idx| ==> idx[i] < idx[j]
  }

  /** `list` is what stands at `idx`, in order. */
  predicate Picks(grants: Grants, idx: seq<nat>, list: Grants) {
    && |idx| == |list| && StrictlyUp(idx)
    && forall i :: 0 <= i < |idx| ==> idx[i] < |grants| && grants[idx[i]] == list[i]
  }

  /** Exactly the waiting grants stand at `idx`. */
  predicate AllPending(grants: Grants, idx: seq<nat>) {
    forall j :: 0 <= j < |grants| ==> (grants[j].pending <==> j in idx)
  }

  function Shifted(idx: seq<nat>): (r: seq<nat>)
    ensures |r| == |idx| && forall i :: 0 <= i < |idx| ==> r[i] == idx[i] + 1
  {
    seq(|idx|, i requires 0 <= i < |idx| => idx[i] + 1)
  }

  lemma ShiftedPicks(grants: Grants, idx: seq<nat>, list: Grants)
    requires grants != [] && Picks(grants[1..], idx, list)
    ensures Picks(grants, Shifted(idx), list) && Picks(grants, [0] + Shifted(idx), [grants[0]] + list)
  {
    forall i | 0 <= i < |idx|
      ensures grants[Shifted(idx)[i]] == list[i]
    {
      assert grants[1..][idx[i]] == grants[idx[i] + 1];
    }
  }

  lemma ShiftedPending(grants: Grants, idx: seq<nat>)
    requires grants != [] && AllPending(grants[1..], idx)
    ensures forall j :: 0 < j < |grants| ==> (grants[j].pending <==> j in Shifted(idx))
  {
    forall j | 0 < j < |grants|
      ensures grants[j].pending <==> j in Shifted(idx)
    {
      assert grants[j] == grants[1..][j - 1];
      if j - 1 in idx {
        var i :| 0 <= i < |idx| && idx[i] == j - 1;
        assert Shifted(idx)[i] == j;
      }
    }
  }

  lemma {:induction false} PendingPicked(grants: Grants) returns (idx: seq<nat>)
    ensures Picks(grants, idx, PendingOf(grants)) && AllPending(grants, idx)
    decreases |grants|
  {
    idx := [];
    if grants != [] {
      var rest := PendingPicked(grants[1..]);
      ShiftedPicks(grants, rest, PendingOf(grants[1..]));
      ShiftedPending(grants, rest);
      hide Picks;
      idx := if grants[0].pending then [0] + Shifted(rest) else Shifted(rest);
    }
  }

  /** A batch is the oldest of the grants that wait: every one in it is older than every waiting one left out, and it is full or all of them. */
  lemma BatchIsOldest(grants: Grants, limit: nat) returns (idx: seq<nat>)
    ensures Picks(grants, idx, ListPending(grants, limit))
    ensures |idx| <= limit && forall i :: 0 <= i < |idx| ==> grants[idx[i]].pending
    ensures forall j :: 0 <= j < |grants| && grants[j].pending && j !in idx ==> |idx| == limit && forall i :: 0 <= i < |idx| ==> idx[i] < j
  {
    var all := PendingPicked(grants);
    idx := all[..Min(limit, |all|)];
    forall j | 0 <= j < |grants| && grants[j].pending && j !in idx
      ensures |idx| == limit && forall i :: 0 <= i < |idx| ==> idx[i] < j
    {
      var k :| 0 <= k < |all| && all[k] == j;
      assert forall i :: 0 <= i < |idx| ==> idx[i] == all[i] && idx[i] in idx;
    }
    forall i | 0 <= i < |idx|
      ensures grants[idx[i]].pending
    {
      assert all[i] in all;
    }
  }

  // ----- crash and resume

  lemma {:induction false} PendingIn(grants: Grants, g: Grant)
    ensures g in PendingOf(grants) <==> g in grants && g.pending
    decreases |grants|
  {
    if grants != [] {
      assert grants == [grants[0]] + grants[1..];
      PendingIn(grants[1..], g);
    }
  }

  lemma {:induction false} SettleMembers(grants: Grants, n: Id, s: UserId, rows: Grants, g: Grant)
    ensures g in Settle(grants, n, s, rows) ==> (g in grants && !g.On(n, s)) || g in rows
    decreases |grants|
  {
    if grants != [] {
      assert grants == [grants[0]] + grants[1..];
      SettleMembers(grants[1..], n, s, rows, g);
    }
  }

  lemma UniqueTail(grants: Grants)
    requires Unique(grants) && grants != []
    ensures Unique(grants[1..]) && forall g <- grants[1..] :: !g.On(grants[0].node, grants[0].subject)
  {
    var rest := grants[1..];
    forall i, j | 0 <= i < j < |rest|
      ensures !rest[j].On(rest[i].node, rest[i].subject)
    {
      assert rest[i] == grants[i + 1] && rest[j] == grants[j + 1];
    }
    forall g | g in rest
      ensures !g.On(grants[0].node, grants[0].subject)
    {
      var j :| 0 <= j < |rest| && rest[j] == g;
      assert grants[j + 1] == g;
    }
  }

  lemma {:induction false} SettleAbsent(grants: Grants, n: Id, s: UserId, rows: Grants)
    requires forall g <- grants :: !g.On(n, s)
    ensures Settle(grants, n, s, rows) == grants
    decreases |grants|
  {
    if grants != [] {
      assert grants == [grants[0]] + grants[1..];
      SettleAbsent(grants[1..], n, s, rows);
    }
  }

  /** Completing or dropping the oldest pending grant leaves the others waiting in the same order. */
  lemma {:induction false} SettleOldest(grants: Grants, rows: Grants)
    requires Unique(grants) && PendingOf(grants) != []
    requires var g := PendingOf(grants)[0]; rows == [] || rows == [g.(pending := false)]
    ensures var g := PendingOf(grants)[0];
            var after := Settle(grants, g.node, g.subject, rows);
            Unique(after) && PendingOf(after) == PendingOf(grants)[1..]
    decreases |grants|
  {
    var g := PendingOf(grants)[0];
    var rest := grants[1..];
    UniqueTail(grants);
    if grants[0].pending {
      SettleAbsent(rest, g.node, g.subject, rows);
      if rows == [] {
        assert Settle(grants, g.node, g.subject, rows) == rest;
      } else {
        assert Settle(grants, g.node, g.subject, rows) == [g.(pending := false)] + rest;
        UniqueCons(g.(pending := false), rest);
      }
    } else {
      SettleOldest(rest, rows);
      PendingIn(rest, g);
      var after := Settle(rest, g.node, g.subject, rows);
      assert Settle(grants, g.node, g.subject, rows) == [grants[0]] + after;
      forall h | h in after
        ensures !h.On(grants[0].node, grants[0].subject)
      {
        SettleMembers(rest, g.node, g.subject, rows, h);
      }
      UniqueCons(grants[0], after);
    }
  }

  lemma UniqueCons(g: Grant, rest: Grants)
    requires Unique(rest) && forall h <- rest :: !h.On(g.node, g.subject)
    ensures Unique([g] + rest) && ([g] + rest)[0] == g && ([g] + rest)[1..] == rest
  {
    var all := [g] + rest;
    forall i, j | 0 <= i < j < |all|
      ensures !all[j].On(all[i].node, all[i].subject)
    {
      assert all[j] == rest[j - 1];
      if i > 0 { assert all[i] == rest[i - 1]; }
    }
  }

  /**
   * A transaction commits exactly when the node is gone, or every encrypted file of its live subtree either
   * has a wrapping for the recipient already or can be wrapped: its owner holds its data key under a usable
   * key of their own, and so does the recipient have a usable key.
   */
  lemma CompletesExactly(x: Shares, g: Grant)
    requires Held(x.vault)
    ensures JobStep(x, g).Some? <==>
              !LiveNode(x.vault.books.drive, g.node) ||
              forall m <- EncryptedUnder(x.vault.books.drive.rows, g.node) :: (m, g.subject) in x.vault.dataKeys || Wrappable(x.vault, m, g.subject)
  {
    hide Held, DataKeyFor, UserKek, LiveUnder;
    var v := x.vault;
    forall m | m in EncryptedUnder(v.books.drive.rows, g.node)
      ensures CanWrap(v, m, g.subject) <==> Wrappable(v, m, g.subject)
    {
      InsideRows(v.books.drive.rows, g.node, m);
      WrappableIs(v, m, g.subject);
    }
  }

  predicate Wrappable(v: Vault, m: Id, s: UserId) {
    && m in v.books.drive.rows
    && var owner := v.books.drive.rows[m].owner;
       (m, owner) in v.dataKeys && Usable(v, owner) && Usable(v, s)
  }

  lemma WrappableIs(v: Vault, m: Id, s: UserId)
    requires Held(v)
    ensures CanWrap(v, m, s) <==> Wrappable(v, m, s)
  {
    hide Held;
    if m in v.books.drive.rows && (m, v.books.drive.rows[m].owner) in v.dataKeys { HeldKey(v, (m, v.books.drive.rows[m].owner)); }
    if s in v.userKeys { HeldUser(v, s); }
  }

  lemma RewrapCompletes(v: Vault, n: Id, s: UserId)
    requires RewrapSubtree(v, n, s).Some?
    ensures FullyRewrapped(RewrapSubtree(v, n, s).value, n, s)
  {
    hide EncryptedUnder, CanWrap, WrapFor;
  }

  /** A transaction that commits settles its grant, and leaves the others waiting in order. */
  lemma OldestAdvances(x: Shares)
    requires Unique(x.grants) && PendingOf(x.grants) != [] && JobStep(x, PendingOf(x.grants)[0]).Some?
    ensures var x' := JobStep(x, PendingOf(x.grants)[0]).value;
            Unique(x'.grants) && PendingOf(x'.grants) == PendingOf(x.grants)[1..]
  {
    hide PendingOf, Settle, EncryptedUnder, Unique, RewrapSubtree, FullyRewrapped;
    var g := PendingOf(x.grants)[0];
    SettleOldest(x.grants, []);
    SettleOldest(x.grants, [g.(pending := false)]);
    if LiveNode(x.vault.books.drive, g.node) { RewrapCompletes(x.vault, g.node, g.subject); }
  }

  /** The first `k` transactions of a pass, all committed, settle the first `k` waiting grants. */
  lemma {:induction false} CommitAdvances(x: Shares, k: nat)
    requires Unique(x.grants) && k <= Committed(x, PendingOf(x.grants))
    ensures var x' := Commit(x, PendingOf(x.grants)[..k]);
            && Unique(x'.grants) && PendingOf(x'.grants) == PendingOf(x.grants)[k..]
            && Committed(x', PendingOf(x'.grants)) == Committed(x, PendingOf(x.grants)) - k
    decreases k
  {
    hide Unique, PendingOf, JobStep;
    var waiting := PendingOf(x.grants);
    if k > 0 {
      OldestAdvances(x);
      CommitAdvances(JobStep(x, waiting[0]).value, k - 1);
      assert waiting[..k][1..] == waiting[1..][..k - 1];
      assert waiting[1..][k - 1..] == waiting[k..];
    }
  }

  /** A pass goes on from where its first, committed transactions left off. */
  lemma {:induction false} CommitAppend(x: Shares, list: Grants, k: nat, more: Grants)
    requires k <= Committed(x, list)
    ensures Commit(x, list[..k] + more) == Commit(Commit(x, list[..k]), more)
    decreases k
  {
    hide JobStep;
    if k == 0 {
      assert list[..k] + more == more;
    } else {
      var next := JobStep(x, list[0]).value;
      CommitAppend(next, list[1..], k - 1, more);
      assert list[..k][1..] == list[1..][..k - 1];
      assert (list[..k] + more)[1..] == list[1..][..k - 1] + more;
    }
  }

  /** A shorter list is committed as far as the longer one is. */
  lemma {:induction false} CommittedPrefix(x: Shares, list: Grants, k: nat)
    requires k <= |list|
    ensures Committed(x, list[..k]) == Min(k, Committed(x, list))
    decreases k
  {
    hide JobStep;
    if k > 0 && JobStep(x, list[0]).Some? {
      assert list[..k][1..] == list[1..][..k - 1];
      CommittedPrefix(JobStep(x, list[0]).value, list[1..], k - 1);
    }
  }

  /** What an exception leaves: the transactions before it. */
  lemma {:induction false} CommitIsCommitted(x: Shares, list: Grants)
    ensures Commit(x, list) == Commit(x, list[..Committed(x, list)])
    decreases |list|
  {
    hide JobStep;
    if list != [] && JobStep(x, list[0]).Some? {
      var next := JobStep(x, list[0]).value;
      CommitIsCommitted(next, list[1..]);
      var k := Committed(next, list[1..]);
      assert list[..k + 1][1..] == list[1..][..k];
    }
  }

  /**
   * A pass interrupted after any of the commits it makes, and then run again, reaches what one uninterrupted
   * pass with room for both would: the same grants and the same keys.
   */
  lemma ResumeAfterCrash(x: Shares, batch: nat, done: nat)
    requires Unique(x.grants) && done <= Committed(x, ListPending(x.grants, batch))
    ensures RunJob(Commit(x, ListPending(x.grants, batch)[..done]), batch) == RunJob(x, done + batch)
  {
    hide Unique, PendingOf, JobStep, Commit;
    var waiting := PendingOf(x.grants);
    assert ListPending(x.grants, batch)[..done] == waiting[..done];
    CommittedPrefix(x, waiting, Min(batch, |waiting|));
    CommitAdvances(x, done);
    var crashed := Commit(x, waiting[..done]);
    var rest := ListPending(crashed.grants, batch);
    CommitAppend(x, waiting, done, rest);
    assert ListPending(x.grants, done + batch) == waiting[..done] + rest;
  }

  /**
   * When everything waiting fits in a batch, crash and rerun is exactly one uninterrupted run. What is left
   * waiting is whatever comes from the first grant that cannot be completed on.
   */
  lemma CrashMakesNoDifference(x: Shares, batch: nat, done: nat)
    requires Unique(x.grants) && |PendingOf(x.grants)| <= batch && done <= Committed(x, PendingOf(x.grants))
    ensures RunJob(Commit(x, ListPending(x.grants, batch)[..done]), batch) == RunJob(x, batch)
    ensures PendingOf(RunJob(x, batch).grants) == PendingOf(x.grants)[Committed(x, PendingOf(x.grants))..]
    ensures Unique(RunJob(x, batch).grants)
  {
    hide PendingOf, JobStep, Commit, Unique;
    var waiting := PendingOf(x.grants);
    assert ListPending(x.grants, batch) == waiting == ListPending(x.grants, done + batch);
    assert waiting[..|waiting|] == waiting;
    ResumeAfterCrash(x, batch, done);
    CommitIsCommitted(x, waiting);
    CommitAdvances(x, Committed(x, waiting));
  }

  /** A grant that cannot be completed stops every pass that reaches it: behind it, nothing is ever activated. */
  lemma Starves(x: Shares, batch: nat)
    requires PendingOf(x.grants) != [] && JobStep(x, PendingOf(x.grants)[0]).None?
    ensures RunJob(x, batch) == x
  {
    hide JobStep, PendingOf;
    if batch > 0 { assert ListPending(x.grants, batch)[0] == PendingOf(x.grants)[0]; }
  }

  lemma UniqueOf(x: Shares)
    requires GrantsHeld(x)
    ensures Unique(x.grants)
  {
  }

  /** With every recipient's key usable and every encrypted file's owner holding its key, a pass commits everything. */
  lemma {:induction false} ReadyCommitsAll(x: Shares)
    requires Held(x.vault) && GrantsHeld(x)
    requires forall g <- PendingOf(x.grants) :: Usable(x.vault, g.subject)
    requires forall m <- x.vault.books.drive.rows :: x.vault.books.drive.rows[m].encrypted && x.vault.books.drive.rows[m].Live() ==>
               (m, x.vault.books.drive.rows[m].owner) in x.vault.dataKeys && Usable(x.vault, x.vault.books.drive.rows[m].owner)
    ensures Committed(x, PendingOf(x.grants)) == |PendingOf(x.grants)|
    decreases |PendingOf(x.grants)|
  {
    hide Held, PendingOf, JobStep, GrantsHeld, EncryptedUnder;
    UniqueOf(x);
    var waiting := PendingOf(x.grants);
    if waiting != [] {
      var g := waiting[0];
      forall m | m in EncryptedUnder(x.vault.books.drive.rows, g.node)
        ensures Wrappable(x.vault, m, g.subject)
      {
        InsideRows(x.vault.books.drive.rows, g.node, m);
      }
      CompletesExactly(x, g);
      OldestAdvances(x);
      var next := JobStep(x, g).value;
      JobStepKeeps(x, g);
      forall h | h in PendingOf(next.grants) ensures h in waiting { }
      ReadyCommitsAll(next);
    }
  }
}
