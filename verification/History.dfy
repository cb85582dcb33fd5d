/** Which versions of a file are kept: in every run exactly the last ones, however content came and went. */
module History {
  import opened Prelude
  import Framing
  import opened Tree
  import opened TreeInvariant
  import opened Sums
  import opened Ledger
  import opened LedgerInvariant
  import opened Services

  // ----- what was written, seen from outside

  /** One more entry whenever the file's current version has changed. */
  ghost function Logged(b: Books, b': Books, n: Id, log: seq<Digest>): seq<Digest> {
    if n !in b'.drive.rows || b'.drive.rows[n].current.None? then log
    else
      var x := b'.drive.rows[n].current.value;
      if x !in b'.versions || (n in b.drive.rows && b.drive.rows[n].current == Some(x)) then log else log + [b'.versions[x].digest]
  }

  ghost function LogRun(b: Books, ops: seq<Ledger.Op>, n: Id, log: seq<Digest>): seq<Digest>
    decreases |ops|
  {
    if ops == [] then log else LogRun(Ledger.Step(b, ops[0]), ops[1..], n, Logged(b, Ledger.Step(b, ops[0]), n, log))
  }

  // ----- what is kept of it

  ghost predicate Holds(vs: Versions, n: Id, k: nat) {
    exists x <- vs :: vs[x].node == n && vs[x].sequence == k
  }

  /** The versions held are numbered as the writes were, each with its content, and are exactly the last `keep`. */
  ghost predicate LastKept(vs: Versions, n: Id, log: seq<Digest>, keep: nat) {
    && (forall x <- vs :: vs[x].node == n ==> 1 <= vs[x].sequence <= |log| && vs[x].digest == log[vs[x].sequence - 1])
    && (forall x <- vs, y <- vs :: vs[x].node == n && vs[y].node == n && vs[x].sequence == vs[y].sequence ==> x == y)
    && (forall k: nat :: Holds(vs, n, k) <==> 1 <= k <= |log| && |log| < k + keep)
  }

  ghost predicate Kept(b: Books, n: Id, log: seq<Digest>) {
    if n !in b.drive.rows then n >= b.drive.nextId ==> log == []
    else
      && LastKept(b.versions, n, log, b.retention)
      && (b.drive.rows[n].current.None? <==> log == [])
      && (b.drive.rows[n].current.Some? ==> b.drive.rows[n].current.value in b.versions && b.versions[b.drive.rows[n].current.value].sequence == |log|)
  }

  // ----- pruning

  /** With consecutive numbers up to `top`, as many versions are newer as numbers are greater. */
  lemma {:induction false} NewerCount(vs: Versions, n: Id, top: nat, x: Id)
    requires x in vs && vs[x].node == n && vs[x].sequence <= top
    requires forall y <- vs :: vs[y].node == n ==> vs[y].sequence <= top
    requires forall y <- vs, z <- vs :: vs[y].node == n && vs[z].node == n && vs[y].sequence == vs[z].sequence ==> y == z
    requires forall k: nat :: vs[x].sequence <= k <= top ==> Holds(vs, n, k)
    ensures |Newer(vs, x)| == top - vs[x].sequence
    decreases top - vs[x].sequence
  {
    if vs[x].sequence == top {
      assert Newer(vs, x) == {};
    } else {
      assert Holds(vs, n, vs[x].sequence + 1);
      var z :| z in vs && vs[z].node == n && vs[z].sequence == vs[x].sequence + 1;
      NewerCount(vs, n, top, z);
      assert Newer(vs, x) == Newer(vs, z) + {z};
    }
  }

  /** One more write: what is kept shifts by one. */
  lemma OneMore(vs: Versions, n: Id, log: seq<Digest>, keep: nat, x: Id, version: Version)
    requires keep >= 1 && LastKept(vs, n, log, keep) && x !in vs && version.node == n && version.sequence == |log| + 1
    ensures var added := vs[x := version];
            LastKept(added - Doomed(added, n, keep), n, log + [version.digest], keep)
  {
    hide Holds;
    var added, top := vs[x := version], |log| + 1;
    forall k: nat
      ensures Holds(added, n, k) <==> k == top || Holds(vs, n, k)
    {
      HoldsMore(vs, n, x, version, k);
    }
    forall y | y in added && added[y].node == n
      ensures y in Doomed(added, n, keep) <==> top >= added[y].sequence + keep
    {
      forall k: nat | added[y].sequence <= k <= top
        ensures Holds(added, n, k)
      {
        if y != x { HeldAt(vs, n, y); }
      }
      NewerCount(added, n, top, y);
    }
    var left := added - Doomed(added, n, keep);
    forall k: nat
      ensures Holds(left, n, k) <==> Holds(added, n, k) && top < k + keep
    {
      HoldsLeft(added, Doomed(added, n, keep), n, k, top, keep);
    }
  }

  lemma HeldAt(vs: Versions, n: Id, y: Id)
    requires y in vs && vs[y].node == n
    ensures Holds(vs, n, vs[y].sequence)
  {
  }

  lemma HoldsMore(vs: Versions, n: Id, x: Id, version: Version, k: nat)
    requires x !in vs && version.node == n
    ensures Holds(vs[x := version], n, k) <==> k == version.sequence || Holds(vs, n, k)
  {
    var added := vs[x := version];
    assert added[x] == version;
    if Holds(vs, n, k) {
      var y :| y in vs && vs[y].node == n && vs[y].sequence == k;
      assert y in added && added[y] == vs[y];
    }
  }

  lemma HoldsLeft(vs: Versions, doomed: set<Id>, n: Id, k: nat, top: nat, keep: nat)
    requires forall y <- vs :: vs[y].node == n ==> (y in doomed <==> top >= vs[y].sequence + keep)
    ensures Holds(vs - doomed, n, k) <==> Holds(vs, n, k) && top < k + keep
  {
    if Holds(vs, n, k) && top < k + keep {
      var y :| y in vs && vs[y].node == n && vs[y].sequence == k;
      assert y in vs - doomed;
    }
  }

  /** The next number is one above the last. */
  lemma NextIs(vs: Versions, n: Id, log: seq<Digest>, keep: nat)
    requires keep >= 1 && LastKept(vs, n, log, keep)
    ensures NextSequence(vs, n) == |log| + 1
  {
    if log != [] { assert Holds(vs, n, |log|); }
    HighestIs(vs, VersionsOf(vs, n), |log|);
  }

  // ----- each kind of step

  lemma StoreLogs(b: Books, n: Id, size: nat, digest: Digest, encrypted: bool, sealId: Option<Id>, m: Id, log: seq<Digest>)
    requires Sound(b) && Kept(b, m, log) && StoreVersion(b, n, size, digest, encrypted, sealId).Ok?
    ensures Kept(StoreVersion(b, n, size, digest, encrypted, sealId).value, m, if m == n then log + [digest] else log)
    ensures var after := StoreVersion(b, n, size, digest, encrypted, sealId).value;
            && after.drive.rows.Keys == b.drive.rows.Keys && n in b.drive.rows && b.drive.nextId in after.versions
            && after.drive.rows[n].current == Some(b.drive.nextId) && after.versions[b.drive.nextId].digest == digest
            && (m in b.drive.rows && m != n ==> after.drive.rows[m] == b.drive.rows[m])
  {
    hide Sound, StoreVersion, NextSequence, Sums.Total, LastKept, Doomed;
    StoredRow(b, n, size, digest, encrypted, sealId);
    StoreIsWrite(b, n, size, digest, encrypted, sealId);
    DriveOf(b);
    var after, x := StoreVersion(b, n, size, digest, encrypted, sealId).value, b.drive.nextId;
    FreshVersionId(b);
    if m == n {
      NextIs(b.versions, n, log, b.retention);
      OneMore(b.versions, n, log, b.retention, x, after.versions[x]);
    } else if m in b.drive.rows {
      OthersSame(b, after, n, m, log);
    }
  }

  lemma FreshVersionId(b: Books)
    requires Sound(b)
    ensures b.drive.nextId !in b.versions
  {
    hide Sound;
    forall x | x in b.versions
      ensures x != b.drive.nextId
    {
      SeeVersion(b, x);
    }
  }

  /** Pruning one file's versions leaves another's alone. */
  lemma OthersSame(b: Books, after: Books, n: Id, m: Id, log: seq<Digest>)
    requires m != n && b.drive.nextId !in b.versions && b.drive.nextId in after.versions && after.versions[b.drive.nextId].node == n
    requires var added := b.versions[b.drive.nextId := after.versions[b.drive.nextId]];
             after.versions == added - Doomed(added, n, after.retention) && after.retention == b.retention
    requires m in b.drive.rows && m in after.drive.rows && after.drive.rows[m].current == b.drive.rows[m].current && Kept(b, m, log) && Sound(b)
    ensures Kept(after, m, log)
  {
    hide Sound, Newer;
    SameVersions(b.versions, after.versions, m, log, b.retention);
    SeeFile(b, m);
  }

  lemma SameVersions(vs: Versions, vs': Versions, n: Id, log: seq<Digest>, keep: nat)
    requires forall x <- vs :: vs[x].node == n ==> x in vs' && vs'[x] == vs[x]
    requires forall x <- vs' :: vs'[x].node == n ==> x in vs && vs'[x] == vs[x]
    requires LastKept(vs, n, log, keep)
    ensures LastKept(vs', n, log, keep)
  {
    forall k: nat
      ensures Holds(vs', n, k) <==> Holds(vs, n, k)
    {
      if Holds(vs, n, k) {
        var x :| x in vs && vs[x].node == n && vs[x].sequence == k;
        assert x in vs' && vs'[x] == vs[x];
      }
      if Holds(vs', n, k) {
        var x :| x in vs' && vs'[x].node == n && vs'[x].sequence == k;
        assert x in vs && vs[x] == vs'[x];
      }
    }
  }

  /** Rows may come, go, move and change state; the versions of those that stay do not change. */
  ghost predicate SameHistory(b: Books, b': Books) {
    && b'.retention == b.retention && b.drive.nextId <= b'.drive.nextId
    && (forall n {:trigger b'.drive.rows[n]} :: n in b'.drive.rows && n in b.drive.rows ==> b'.drive.rows[n].current == b.drive.rows[n].current)
    && (forall n {:trigger b'.drive.rows[n]} :: n in b'.drive.rows && n !in b.drive.rows ==> n >= b.drive.nextId && b'.drive.rows[n].current.None?)
    && (forall x <- b.versions :: b.versions[x].node in b'.drive.rows ==> x in b'.versions && b'.versions[x] == b.versions[x])
    && (forall x <- b'.versions :: x in b.versions && b'.versions[x] == b.versions[x])
  }

  lemma SameHistoryKeeps(b: Books, b': Books, n: Id, log: seq<Digest>)
    requires Sound(b) && SameHistory(b, b') && Kept(b, n, log)
    ensures Kept(b', n, log) && Logged(b, b', n, log) == log
  {
    hide Sound, Holds;
    DriveOf(b);
    if n in b.drive.rows { Look(b.drive, n); }
    if n in b'.drive.rows {
      if n in b.drive.rows {
        SeeFile(b, n);
        SameVersions(b.versions, b'.versions, n, log, b.retention);
      } else {
        NoVersions(b, n);
        NothingKept(b'.versions, n, b.retention);
      }
    }
  }

  lemma NoVersions(b: Books, n: Id)
    requires Sound(b) && n !in b.drive.rows
    ensures forall x <- b.versions :: b.versions[x].node != n
  {
    hide Sound;
    forall x | x in b.versions
      ensures b.versions[x].node != n
    {
      SeeVersion(b, x);
    }
  }

  lemma NothingKept(vs: Versions, n: Id, keep: nat)
    requires forall x <- vs :: vs[x].node != n
    ensures LastKept(vs, n, [], keep)
  {
  }

  lemma ReplaceLogs(b: Books, n: Id, content: seq<Framing.byte>, m: Id, log: seq<Digest>)
    requires Sound(b) && Kept(b, m, log) && Replace(b, n, content).Ok?
    ensures Kept(Replace(b, n, content).value, m, Logged(b, Replace(b, n, content).value, m, log))
    ensures n in b.drive.rows && Logged(b, Replace(b, n, content).value, m, log) == if m == n then log + [Sha256(content)] else log
  {
    hide Sound, StoreVersion, LastKept;
    var encrypted := b.drive.rows[n].encrypted;
    StoreLogs(b, n, |content|, Sha256(content), encrypted, None, m, log);
    CurrentSpent(b, m);
  }

  /** A file's current version has been given its id already. */
  lemma CurrentSpent(b: Books, m: Id)
    requires Sound(b)
    ensures m in b.drive.rows ==> b.drive.rows[m].current != Some(b.drive.nextId)
  {
    hide Sound;
    FreshVersionId(b);
    if m in b.drive.rows { SeeFile(b, m); }
  }

  lemma BringBackLogs(b: Books, n: Id, x: Id, m: Id, log: seq<Digest>)
    requires Sound(b) && Kept(b, m, log) && RestoreVersion(b, n, x).Ok?
    ensures Kept(RestoreVersion(b, n, x).value, m, Logged(b, RestoreVersion(b, n, x).value, m, log))
    ensures x in b.versions && Logged(b, RestoreVersion(b, n, x).value, m, log) == if m == n then log + [b.versions[x].digest] else log
  {
    hide Sound, StoreVersion, LastKept;
    var source := b.versions[x];
    StoreLogs(b, n, source.size, source.digest, source.encrypted, Some(source.sealId), m, log);
    CurrentSpent(b, m);
  }

  lemma UploadLogs(b: Books, parent: Id, name: string, encrypted: bool, content: seq<Framing.byte>, m: Id, log: seq<Digest>)
    requires Sound(b) && Kept(b, m, log) && Upload(b, parent, name, encrypted, content).Ok?
    ensures Kept(Upload(b, parent, name, encrypted, content).value, m, Logged(b, Upload(b, parent, name, encrypted, content).value, m, log))
  {
    hide Sound, Replace, Kept, Create, Drive.WellFormed;
    DriveOf(b);
    FreshId(b.drive);
    match ChildNamed(b.drive.rows, parent, name)
    case Some(n) => ReplaceLogs(b, n, content, m, log);
    case None =>
      var b1 := b.(drive := Create(b.drive, parent, name, File, encrypted, false).value);
      CreateIsQuiet(b, parent, name, File, encrypted, false);
      CreateSameHistory(b, parent, name, File, encrypted, false);
      SameHistoryKeeps(b, b1, m, log);
      ReplaceLogs(b1, b.drive.nextId, content, m, log);
      LoggedThrough(b, b1, Replace(b1, b.drive.nextId, content).value, m, log);
  }

  lemma LoggedThrough(b: Books, b1: Books, b2: Books, m: Id, log: seq<Digest>)
    requires SameHistory(b, b1) && b.drive.rows.Keys <= b1.drive.rows.Keys
    ensures Logged(b, b2, m, log) == Logged(b1, b2, m, log)
  {
  }

  lemma CreateSameHistory(b: Books, parent: Id, name: string, kind: Kind, encrypted: bool, reserved: bool)
    requires b.drive.nextId !in b.drive.rows && Create(b.drive, parent, name, kind, encrypted, reserved).Ok?
    ensures var b1 := b.(drive := Create(b.drive, parent, name, kind, encrypted, reserved).value);
            SameHistory(b, b1) && b.drive.rows.Keys <= b1.drive.rows.Keys
  {
    hide ValidName, Taken;
  }

  lemma RearrangedSameHistory(b: Books, op: Ledger.Op)
    requires op.GiveName? || op.Relocate? || op.ToTrash? || op.FromTrash?
    ensures SameHistory(b, Ledger.Step(b, op))
  {
    hide Under, ValidName, Taken, FileBytes, Charge, UsageOf;
  }

  lemma JoinSameHistory(b: Books, op: Ledger.Op)
    requires b.drive.nextId !in b.drive.rows && op.Join?
    ensures SameHistory(b, Ledger.Step(b, op))
  {
  }

  lemma DestroySameHistory(b: Books, op: Ledger.Op)
    requires op.Destroy? && forall x <- b.versions :: b.versions[x].node in b.drive.rows
    ensures SameHistory(b, Ledger.Step(b, op))
  {
    hide Under, Sums.Total, Charge, UsageOf;
  }

  /** Every other operation leaves the histories of files alone. */
  lemma OtherOps(b: Books, op: Ledger.Op)
    requires Sound(b) && !op.PutFile? && !op.PutContent? && !op.BringBack?
    ensures SameHistory(b, Ledger.Step(b, op))
  {
    DriveOf(b);
    FreshId(b.drive);
    hide Sound, SameHistory, Drive.WellFormed, Create;
    if op.Destroy? {
      forall x | x in b.versions ensures b.versions[x].node in b.drive.rows { SeeVersion(b, x); }
      DestroySameHistory(b, op);
    } else if op.Join? {
      JoinSameHistory(b, op);
    } else if op.MakeFolder? {
      if Create(b.drive, op.parent, op.name, Folder, false, true).Ok? { CreateSameHistory(b, op.parent, op.name, Folder, false, true); } else { NothingDone(b); }
    } else {
      RearrangedSameHistory(b, op);
    }
  }

  lemma NothingDone(b: Books)
    ensures SameHistory(b, b)
  {
  }

  lemma StepLogs(b: Books, op: Ledger.Op, n: Id, log: seq<Digest>)
    requires Sound(b) && Kept(b, n, log)
    ensures Kept(Ledger.Step(b, op), n, Logged(b, Ledger.Step(b, op), n, log))
  {
    hide Sound, Kept, Upload, Replace, RestoreVersion;
    if op.PutFile? && Ledger.Apply(b, op).Ok? {
      UploadLogs(b, op.parent, op.name, op.encrypted, op.content, n, log);
    } else if op.PutContent? && Ledger.Apply(b, op).Ok? {
      ReplaceLogs(b, op.node, op.content, n, log);
    } else if op.BringBack? && Ledger.Apply(b, op).Ok? {
      BringBackLogs(b, op.node, op.version, n, log);
    } else if op.PutFile? || op.PutContent? || op.BringBack? {
      SameHistoryKeeps(b, b, n, log);
    } else {
      OtherOps(b, op);
      SameHistoryKeeps(b, Ledger.Step(b, op), n, log);
    }
  }

  lemma {:induction false} RunLogs(b: Books, ops: seq<Ledger.Op>, n: Id, log: seq<Digest>)
    requires Sound(b) && Kept(b, n, log)
    ensures Kept(Ledger.Run(b, ops), n, LogRun(b, ops, n, log))
    decreases |ops|
  {
    hide Sound, Kept, Ledger.Step, Logged;
    if ops != [] {
      LedgerStepKeeps(b, ops[0]);
      StepLogs(b, ops[0], n, log);
      RunLogs(Ledger.Step(b, ops[0]), ops[1..], n, Logged(b, Ledger.Step(b, ops[0]), n, log));
    }
  }

  /**
   * In every run, a file's writes are numbered from one, and the versions held are exactly its last ones, as
   * many as retention allows, each with the content of the write of that number. The current one is the last.
   */
  lemma LastVersionsAreKept(retention: nat, ops: seq<Ledger.Op>, n: Id)
    requires retention >= 1 && n in Ledger.Run(Opening(retention), ops).drive.rows
    ensures var b, log := Ledger.Run(Opening(retention), ops), LogRun(Opening(retention), ops, n, []);
            && b.retention == retention && LastKept(b.versions, n, log, retention)
            && (b.drive.rows[n].current.None? <==> log == [])
            && (log != [] ==> b.drive.rows[n].current.value in b.versions && b.versions[b.drive.rows[n].current.value].sequence == |log|
                              && b.versions[b.drive.rows[n].current.value].digest == log[|log| - 1])
  {
    hide Ledger.Run, LogRun, Holds;
    EveryRunStarts(retention, ops);
    RunLogs(Opening(retention), ops, n, []);
    var b := Ledger.Run(Opening(retention), ops);
    SeeFile(b, n);
  }

  lemma EveryRunStarts(retention: nat, ops: seq<Ledger.Op>)
    requires retention >= 1
    ensures Sound(Opening(retention)) && Sound(Ledger.Run(Opening(retention), ops)) && Ledger.Run(Opening(retention), ops).retention == retention
  {
    hide Ledger.Run, Ledger.Step;
    assert Sound(Opening(retention));
    LedgerRunFrom(Opening(retention), ops);
    SameRetention(Opening(retention), ops);
  }

  lemma {:induction false} SameRetention(b: Books, ops: seq<Ledger.Op>)
    ensures Ledger.Run(b, ops).retention == b.retention
    decreases |ops|
  {
    hide Ledger.Step;
    if ops != [] {
      StepRetention(b, ops[0]);
      SameRetention(Ledger.Step(b, ops[0]), ops[1..]);
    }
  }

  lemma StepRetention(b: Books, op: Ledger.Op)
    ensures Ledger.Step(b, op).retention == b.retention
  {
    hide Create, Rename, Move, Delete, Restore, Tree.Purge, FileBytes, Sums.Total, Doomed, NextSequence, ChildNamed;
  }
}
