/** Encrypted files without any key: how they come about, and what they do to the rewrap job. */
module KeylessCopies {
  import opened Prelude
  import Framing
  import opened Cipher
  import opened Tree
  import opened TreeInvariant
  import opened Ledger
  import opened Purge
  import opened Content
  import opened ContentInvariant
  import opened Sharing
  import opened SharingTheorems

  /** A live encrypted file that nobody holds a data key of. */
  predicate Keyless(v: Vault, m: Id) {
    && LiveNode(v.books.drive, m) && v.books.drive.rows[m].encrypted
    && forall k <- v.dataKeys :: k.0 != m
  }

  /** Bringing back a version written before encryption was turned on leaves an encrypted file whose current version is not encrypted. */
  lemma PlainComesBack(v: Vault, n: Id, x: Id)
    requires Held(v) && v.books.retention >= 1 && RestoreOld(v, n, x).failure.None?
    ensures var v' := RestoreOld(v, n, x).vault;
            && n in v.books.drive.rows && n in v'.books.drive.rows && v'.books.drive.rows[n].encrypted == v.books.drive.rows[n].encrypted
            && v'.books.drive.rows[n].current.Some? && v'.books.drive.rows[n].current.value in v'.books.versions
            && x in v.books.versions && v'.books.versions[v'.books.drive.rows[n].current.value].encrypted == v.books.versions[x].encrypted
  {
    hide Held, StoreVersion, Kept, NextSequence;
    var source := v.books.versions[x];
    StoreShape(v.books, n, source.size, source.digest, source.encrypted, Some(source.sealId));
    NewestIsKept(v.books, n, source.size, source.digest, source.encrypted, Some(source.sealId));
  }

  /** A copy takes the file's flag but the version's key: it is keyless exactly when the file is encrypted and its current version is not. */
  lemma CopyKeylessExactly(v: Vault, source: Id, folder: Id, name: string)
    requires Held(v) && CopyFile(v, source, folder, name).failure.None?
    ensures var d, v' := v.books.drive, CopyFile(v, source, folder, name).vault;
            && source in d.rows
            && (Keyless(v', d.nextId) <==>
                  d.rows[source].encrypted &&
                  !(d.rows[source].current.Some? && d.rows[source].current.value in v.books.versions && v.books.versions[d.rows[source].current.value].encrypted))
  {
    hide Held, ValidName, Taken, Drive.WellFormed, DataKeyFor, UserKek, Charge, UsageOf;
    HeldParts(v);
    FreshId(v.books.drive);
    forall k | k in v.dataKeys
      ensures k.0 != v.books.drive.nextId
    {
      HeldKey(v, k);
    }
    var v' := CopyFile(v, source, folder, name).vault;
    var x := v.books.drive.rows[source].current;
    if v.books.drive.rows[source].encrypted && x.Some? && x.value in v.books.versions && v.books.versions[x.value].encrypted {
      var user := v'.books.drive.rows[v.books.drive.nextId].owner;
      assert (v.books.drive.nextId, user) in v'.dataKeys && (v.books.drive.nextId, user).0 == v.books.drive.nextId;
    }
  }

  /** No pending grant over a keyless file ever completes, for any recipient who holds no key of it. */
  lemma KeylessStops(x: Shares, g: Grant, m: Id)
    requires Held(x.vault) && LiveNode(x.vault.books.drive, g.node) && m in EncryptedUnder(x.vault.books.drive.rows, g.node) && Keyless(x.vault, m)
    ensures JobStep(x, g).None?
  {
    hide Held, EncryptedUnder, Usable;
    CompletesExactly(x, g);
    assert (m, g.subject).0 == m;
    assert !Wrappable(x.vault, m, g.subject) by {
      if m in x.vault.books.drive.rows { assert (m, x.vault.books.drive.rows[m].owner).0 == m; }
    }
  }

  /** While it is the oldest one waiting, every pass leaves everything as it is. */
  lemma KeylessStarves(x: Shares, m: Id, batch: nat)
    requires Held(x.vault) && PendingOf(x.grants) != []
    requires var g := PendingOf(x.grants)[0];
             LiveNode(x.vault.books.drive, g.node) && m in EncryptedUnder(x.vault.books.drive.rows, g.node) && Keyless(x.vault, m)
    ensures RunJob(x, batch) == x
  {
    hide Held, EncryptedUnder, Keyless, JobStep, RunJob, PendingOf;
    KeylessStops(x, PendingOf(x.grants)[0], m);
    Starves(x, batch);
  }

  // ----- a run that gets there

  lemma NothingDoomed(vs: Versions, n: Id, keep: nat)
    requires |vs| <= keep
    ensures Doomed(vs, n, keep) == {}
  {
    forall x | x in vs
      ensures |Newer(vs, x)| < keep
    {
      assert Newer(vs, x) <= vs.Keys - {x};
      Fewer(Newer(vs, x), vs.Keys - {x});
      assert |vs.Keys - {x}| == |vs.Keys| - 1;
    }
  }

  lemma Fewer(a: set<Id>, b: set<Id>)
    requires a <= b
    ensures |a| <= |b|
  {
    assert b == a + (b - a) && a !! (b - a);
  }

  /** Storing an empty version of an empty file of a user who has nothing, while little enough history is there. */
  lemma StoreEmpty(b: Books, n: Id, encrypted: bool, sealId: Option<Id>)
    requires LiveNode(b.drive, n) && b.drive.rows[n].kind == File && b.drive.rows[n].size == 0
    requires Known(b, b.drive.rows[n].owner) && b.usage[b.drive.rows[n].owner] == Usage(0, 0, 0)
    requires b.drive.nextId !in b.versions && |b.versions| < b.retention
    ensures var x, row := b.drive.nextId, b.drive.rows[n];
            StoreVersion(b, n, 0, Sha256([]), encrypted, sealId)
            == Ok(b.(drive := b.drive.(rows := b.drive.rows[n := row.(current := Some(x))], nextId := x + 1),
                     versions := b.versions[x := Version(n, row.owner, NextSequence(b.versions, n), 0, Sha256([]), encrypted,
                                                         if sealId.Some? then sealId.value else x)]))
  {
    hide Sums.Total, NextSequence, Newer, Doomed, VersionSizes, Moved, Charge, UsageOf, Usage.WouldExceed, Usage.ChargeLive, Usage.ChargeVersions;
    var x, row := b.drive.nextId, b.drive.rows[n];
    var added := b.versions[x := Version(n, row.owner, NextSequence(b.versions, n), 0, Sha256([]), encrypted, if sealId.Some? then sealId.value else x)];
    NoneDoomed(b, n, x, added);
    NothingCharged(b, row);
    assert row.(current := Some(x), size := 0) == row.(current := Some(x));
  }

  lemma NoneDoomed(b: Books, n: Id, x: Id, added: Versions)
    requires x !in b.versions && added.Keys == b.versions.Keys + {x} && |b.versions| < b.retention
    ensures Doomed(added, n, b.retention) == {} && added - {} == added && Sums.Total(VersionSizes(added), {}) == 0
  {
    OneMoreKey(b.versions, x, added);
    NothingDoomed(added, n, b.retention);
    hide Doomed, Sums.Total, Newer;
    assert added - {} == added;
    Sums.TotalZero(VersionSizes(added), {});
  }

  lemma OneMoreKey(vs: Versions, x: Id, added: Versions)
    requires x !in vs && added.Keys == vs.Keys + {x}
    ensures |added| == |vs| + 1
  {
    assert |added.Keys| == |vs.Keys| + 1;
    assert |added| == |added.Keys| && |vs| == |vs.Keys|;
  }

  lemma NothingCharged(b: Books, row: Row)
    requires row.size == 0 && Known(b, row.owner) && b.usage[row.owner] == Usage(0, 0, 0)
    ensures Moved(b, row) == Usage(0, 0, 0) && !Moved(b, row).WouldExceed(b.quota[row.owner], 0)
    ensures Usage(0, 0, 0).ChargeLive(0).ChargeVersions(0 - 0) == Usage(0, 0, 0) && Charge(b, row.owner, Usage(0, 0, 0)) == b.usage
  {
    assert b.usage[row.owner := Usage(0, 0, 0)] == b.usage;
  }

  datatype Setting = Setting(provider: Provider, frameBytes: nat, nonces: nat -> Nonce) {
    function Root(u: UserId): Row {
      Row(u, Folder, "root", None, None, 0, None, false)
    }

    function FileRow(name: string, current: Id, encrypted: bool): Row {
      Row(0, File, name, Some(0), None, 0, Some(current), encrypted)
    }

    function Users(): map<UserId, UserKey> {
      map[0 := provider.WrapKek(0), 1 := provider.WrapKek(1)]
    }

    ghost function At(rows: Rows, nextId: Id, versions: Versions, objects: map<ObjectKey, seq<Cell>>, keys: DataKeys, nextKey: Key): Vault {
      Vault(Books(Drive(rows, map[0 := 0, 1 := 1], nextId, 0), versions, map[0 := Usage(0, 0, 0), 1 := Usage(0, 0, 0)], map[0 := 10, 1 := 10], 10),
            objects, keys, Users(), provider, nextKey, frameBytes)
    }

    ghost function Joined(): Vault {
      At(map[0 := Root(0), 1 := Root(1)], 2, map[], map[], map[], 2)
    }

    ghost function Plain(): Version {
      Version(2, 0, NextSequence(map[], 2), 0, Sha256([]), false, 3)
    }

    ghost function Uploaded(): Vault {
      At(map[0 := Root(0), 1 := Root(1), 2 := FileRow("a", 3, false)], 4, map[3 := Plain()], map[ObjectKey(0, 2, 3) := RawCells([])], map[], 2)
    }

    function Context(): Context {
      Cipher.Context(2, UuidBytes(4), frameBytes, nonces)
    }

    ghost function TwoVersions(): Versions {
      map[3 := Plain(), 4 := Version(2, 0, NextSequence(map[3 := Plain()], 2), 0, Sha256([]), true, 4)]
    }

    ghost function TwoObjects(): map<ObjectKey, seq<Cell>>
      requires Context().Valid()
    {
      map[ObjectKey(0, 2, 3) := RawCells([]), ObjectKey(0, 2, 4) := Context().Stored([])]
    }

    /** Encryption turned on: file 2 has a data key, number 2, wrapped for its owner. */
    ghost function Secured(): Vault
      requires Context().Valid()
    {
      At(map[0 := Root(0), 1 := Root(1), 2 := FileRow("a", 4, true)], 5, TwoVersions(), TwoObjects(), map[(2, 0) := WrappedDek(2, 0)], 3)
    }

    /** The version of before brought back as version 5. */
    ghost function BroughtBack(): Vault
      requires Context().Valid()
    {
      var versions := TwoVersions();
      At(map[0 := Root(0), 1 := Root(1), 2 := FileRow("a", 5, true)], 6,
         versions[5 := Version(2, 0, NextSequence(versions, 2), 0, Sha256([]), false, 3)],
         TwoObjects()[ObjectKey(0, 2, 5) := RawCells([])], map[(2, 0) := WrappedDek(2, 0)], 3)
    }

    /** And the file copied as file 6: encrypted, and nobody's. */
    ghost function Copied(): Vault
      requires Context().Valid()
    {
      var v := BroughtBack();
      At(v.books.drive.rows[6 := FileRow("b", 7, true)], 8, v.books.versions[7 := Version(6, 0, 1, 0, Sha256([]), false, 3)],
         v.objects[ObjectKey(0, 6, 7) := RawCells([])], v.dataKeys, 3)
    }
  }

  lemma JoinsTwo(s: Setting)
    ensures var v := Content.Apply(Content.Opening(s.provider, s.frameBytes, 10), AddUser(0, 10)).vault;
            Content.Apply(v, AddUser(1, 10)).vault == s.Joined()
  {
  }

  lemma Uploads(s: Setting)
    ensures Content.Apply(s.Joined(), Put(0, "a", false, [], s.nonces)).vault == s.Uploaded()
  {
    hide RawCells, NextSequence, StoreVersion, Kept;
    var v := s.Joined();
    var d := v.books.drive;
    assert ChildNamed(d.rows, 0, "a").None?;
    var row := Row(0, File, "a", Some(0), None, 0, None, false);
    assert Create(d, 0, "a", File, false, false) == Ok(d.(rows := d.rows[2 := row], nextId := 3));
    var v1 := v.(books := v.books.(drive := d.(rows := d.rows[2 := row], nextId := 3)));
    StoreEmpty(v1.books, 2, false, None);
    KeptAll(v1.objects[ObjectKey(0, 2, 3) := RawCells([])], map[3 := s.Plain()]);
    assert WriteContent(v1, 2, [], s.nonces) == Record(v1, v1, 2, RawCells([]), 0, Sha256([]), false, None);
  }

  lemma KeptAll(objects: map<ObjectKey, seq<Cell>>, versions: Versions)
    ensures Kept(objects, versions, versions) == objects
  {
  }

  lemma Encrypts(s: Setting)
    requires s.Context().Valid()
    ensures Content.Apply(s.Uploaded(), Encrypt(2, 0, s.nonces)).vault == s.Secured()
  {
    hide RawCells, PlainBytes, NextSequence, StoreVersion, Kept, Context.Stored;
    var v := s.Uploaded();
    var d := v.books.drive;
    PlainOfRaw([]);
    assert Download(v, 3, 0) == Ok([]);
    var v1 := v.(books := v.books.(drive := d.(rows := d.rows[2 := d.rows[2].(encrypted := true)])));
    var prepared := v1.(dataKeys := map[(2, 0) := WrappedDek(2, 0)], nextKey := 3);
    assert EnsureDataKey(v1, 2, 0) == Some((prepared, 2));
    assert Framing.FrameCount(0, s.frameBytes) <= Framing.INDEX_LIMIT;
    assert WriteContent(v1, 2, [], s.nonces) == Record(v1, prepared, 2, s.Context().Stored([]), 0, Sha256([]), true, None);
    StoreEmpty(v1.books, 2, true, None);
    KeptAll(v1.objects[ObjectKey(0, 2, 4) := s.Context().Stored([])], s.TwoVersions());
  }

  lemma BringsBack(s: Setting)
    requires s.Context().Valid()
    ensures Content.Apply(s.Secured(), BringBackVersion(2, 3)).vault == s.BroughtBack()
  {
    hide RawCells, NextSequence, StoreVersion, Kept, Context.Stored, Record;
    var v := s.Secured();
    assert RestoreOld(v, 2, 3) == Record(v, v, 2, RawCells([]), 0, Sha256([]), false, Some(3));
    RecordsPlain(s);
  }

  lemma RecordsPlain(s: Setting)
    requires s.Context().Valid()
    ensures Record(s.Secured(), s.Secured(), 2, RawCells([]), 0, Sha256([]), false, Some(3)).vault == s.BroughtBack()
  {
    hide RawCells, NextSequence, StoreVersion, Kept, Context.Stored;
    var v := s.Secured();
    StoreEmpty(v.books, 2, false, Some(3));
    KeptAll(v.objects[ObjectKey(0, 2, 5) := RawCells([])], s.BroughtBack().books.versions);
  }

  lemma CopyStarts(s: Setting)
    requires s.Context().Valid()
    ensures var v := s.BroughtBack();
            var row := Row(0, File, "b", Some(0), None, 0, None, true);
            CopyFile(v, 2, 0, "b") == CopyContent(v, v.books.drive.(rows := v.books.drive.rows[6 := row], nextId := 7), 2, 5)
  {
    hide NextSequence, Context.Stored, CopyContent, RawCells;
    var d := s.BroughtBack().books.drive;
    assert !Taken(d.rows, 0, "b", None);
    var row := Row(0, File, "b", Some(0), None, 0, None, true);
    assert Create(d, 0, "b", File, true, false) == Ok(d.(rows := d.rows[6 := row], nextId := 7));
  }

  lemma Copies(s: Setting)
    requires s.Context().Valid()
    ensures Content.Apply(s.BroughtBack(), Copy(2, 0, "b")).vault == s.Copied()
  {
    hide NextSequence, Context.Stored, DataKeyFor, UserKek, CopyFile;
    CopyStarts(s);
    var v := s.BroughtBack();
    assert KeyOf(5, v.books.versions[5]) == ObjectKey(0, 2, 5) && v.objects[ObjectKey(0, 2, 5)] == RawCells([]) == [];
    assert v.books.usage[0 := Usage(0, 0, 0)] == v.books.usage;
  }

  // ----- and a share over it that never completes

  ghost function Ops(s: Setting): seq<Step> {
    [OnContent(AddUser(0, 10)), OnContent(AddUser(1, 10)), OnContent(Put(0, "a", false, [], s.nonces)), OnContent(Encrypt(2, 0, s.nonces)),
     OnContent(BringBackVersion(2, 3)), OnContent(Copy(2, 0, "b")), Step.Share(0, 0, 1, Viewer, 1)]
  }

  lemma {:induction false} AfterOneMore(x: Shares, steps: seq<Step>, last: Step)
    ensures AfterAll(x, steps + [last]) == After(AfterAll(x, steps), last)
    decreases |steps|
  {
    hide After;
    if steps == [] {
      assert steps + [last] == [last] && [last][1..] == [];
      assert AfterAll(x, [last]) == AfterAll(After(x, last), []);
    } else {
      assert (steps + [last])[1..] == steps[1..] + [last];
      AfterOneMore(After(x, steps[0]), steps[1..], last);
    }
  }

  /** One more content operation, from a state reached with no grants yet. */
  lemma Onward(start: Shares, steps: seq<Step>, k: nat, v: Vault, op: Content.Op)
    requires k < |steps| && steps[k] == OnContent(op) && AfterAll(start, steps[..k]) == Shares(v, [])
    ensures AfterAll(start, steps[..k + 1]) == Shares(Content.Apply(v, op).vault, [])
  {
    hide Content.Apply;
    assert steps[..k + 1] == steps[..k] + [steps[k]];
    AfterOneMore(start, steps[..k], steps[k]);
  }

  lemma ReachesUploaded(s: Setting)
    ensures AfterAll(Shares(Content.Opening(s.provider, s.frameBytes, 10), []), Ops(s)[..3]) == Shares(s.Uploaded(), [])
  {
    hide Content.Apply, Content.Opening, AfterAll, Setting.Joined, Setting.Uploaded;
    var blank := Content.Opening(s.provider, s.frameBytes, 10);
    var x, ops := Shares(blank, []), Ops(s);
    StartsAt(x, ops);
    Onward(x, ops, 0, blank, AddUser(0, 10));
    Onward(x, ops, 1, Content.Apply(blank, AddUser(0, 10)).vault, AddUser(1, 10));
    JoinsTwo(s);
    Onward(x, ops, 2, s.Joined(), Put(0, "a", false, [], s.nonces));
    Uploads(s);
  }

  lemma ReachesCopied(s: Setting)
    requires s.Context().Valid()
    ensures AfterAll(Shares(Content.Opening(s.provider, s.frameBytes, 10), []), Ops(s)[..6]) == Shares(s.Copied(), [])
  {
    hide Content.Apply, Content.Opening, AfterAll, Setting.Uploaded, Setting.Secured, Setting.BroughtBack, Setting.Copied;
    var x, ops := Shares(Content.Opening(s.provider, s.frameBytes, 10), []), Ops(s);
    ReachesUploaded(s);
    Onward(x, ops, 3, s.Uploaded(), Encrypt(2, 0, s.nonces));
    Encrypts(s);
    Onward(x, ops, 4, s.Secured(), BringBackVersion(2, 3));
    BringsBack(s);
    Onward(x, ops, 5, s.BroughtBack(), Copy(2, 0, "b"));
    Copies(s);
  }

  lemma StartsAt(x: Shares, steps: seq<Step>)
    ensures AfterAll(x, steps[..0]) == x
  {
  }

  lemma BothEncrypted(s: Setting)
    requires s.Context().Valid()
    ensures {2, 6} <= EncryptedUnder(s.Copied().books.drive.rows, 0) && |EncryptedUnder(s.Copied().books.drive.rows, 0)| >= 2
    ensures Keyless(s.Copied(), 6)
  {
    hide NextSequence, Context.Stored, RawCells;
    var rows := s.Copied().books.drive.rows;
    assert Up(rows, 2, 1) == Up(rows, 0, 0) == Some(0);
    assert Up(rows, 6, 1) == Some(0);
    assert {2, 6} <= EncryptedUnder(rows, 0);
    Fewer({2, 6}, EncryptedUnder(rows, 0));
  }

  /** Both files lie live and encrypted under the root, so the share is deferred. */
  lemma ShareIsDeferred(s: Setting)
    requires s.Context().Valid()
    ensures After(Shares(s.Copied(), []), Step.Share(0, 0, 1, Viewer, 1)) == Shares(s.Copied(), [Grant(0, 1, Viewer, true)])
    ensures 6 in EncryptedUnder(s.Copied().books.drive.rows, 0) && Keyless(s.Copied(), 6)
  {
    hide NextSequence, Context.Stored, RawCells, EncryptedUnder, Keyless;
    BothEncrypted(s);
  }

  /**
   * A whole run: two users, an upload, encryption turned on, the first version brought back, the file
   * copied, the root shared. The grant waits, and every later pass of the job changes nothing.
   */
  lemma ShareNeverCompletes(s: Setting, batch: nat)
    requires s.Context().Valid()
    ensures var x := AfterAll(Shares(Content.Opening(s.provider, s.frameBytes, 10), []), Ops(s));
            && PendingOf(x.grants) == [Grant(0, 1, Viewer, true)] && RunJob(x, batch) == x
            && Held(x.vault) && Keyless(x.vault, 6) && LiveNode(x.vault.books.drive, 6)
  {
    hide Held, AfterAll, After, RunJob, Content.Opening, EncryptedUnder, Configured, Keyless;
    var start := Shares(Content.Opening(s.provider, s.frameBytes, 10), []);
    ReachesCopied(s);
    ShareIsDeferred(s);
    var ops := Ops(s);
    assert ops == ops[..6] + [ops[6]];
    AfterOneMore(start, ops[..6], ops[6]);
    var x := AfterAll(start, ops);
    OpsConfigured(s);
    EveryRunIsHeld(s.provider, s.frameBytes, 10, ops);
    var g := Grant(0, 1, Viewer, true);
    assert PendingOf([g]) == [g] + PendingOf([g][1..]) && [g][1..] == [];
    LiveCopy(s);
    KeylessStarves(x, 6, batch);
  }

  lemma OpsConfigured(s: Setting)
    ensures Configured(Ops(s))
  {
  }

  lemma LiveCopy(s: Setting)
    requires s.Context().Valid()
    ensures LiveNode(s.Copied().books.drive, 6) && LiveNode(s.Copied().books.drive, 0)
  {
    hide NextSequence, Context.Stored, RawCells;
  }
}
