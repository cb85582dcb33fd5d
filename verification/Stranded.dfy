/** A run in which a revoke leaves its subject allowed to read a file and unable to. */
module Stranded {
  import opened Prelude
  import Framing
  import opened Cipher
  import opened Tree
  import opened TreeInvariant
  import opened Ledger
  import opened Purge
  import opened Content
  import opened ContentInvariant
  import opened Sharing
  import opened SharingTheorems
  import opened KeylessCopies
  import opened Access

  /** The root and then an encrypted file in it shared with the other user, and the file's share revoked. */
  ghost function Steps(s: Setting): seq<Step> {
    [OnContent(AddUser(0, 10)), OnContent(AddUser(1, 10)), OnContent(Put(0, "a", false, [], s.nonces)), OnContent(Encrypt(2, 0, s.nonces)),
     Step.Share(0, 0, 1, Viewer, 10), Step.Share(0, 2, 1, Viewer, 10), Revoke(0, 2, 1)]
  }

  ghost function Wrapped(s: Setting): Vault
    requires s.Context().Valid()
  {
    s.Secured().(dataKeys := map[(2, 0) := WrappedDek(2, 0), (2, 1) := WrappedDek(2, 1)])
  }

  lemma ReachesSecured(s: Setting)
    requires s.Context().Valid()
    ensures AfterAll(Shares(Content.Opening(s.provider, s.frameBytes, 10), []), Steps(s)[..4]) == Shares(s.Secured(), [])
  {
    hide Content.Apply, Content.Opening, AfterAll, Setting.Uploaded, Setting.Secured;
    var x := Shares(Content.Opening(s.provider, s.frameBytes, 10), []);
    ReachesUploaded(s);
    assert Steps(s)[..3] == Ops(s)[..3];
    Onward(x, Steps(s), 3, s.Uploaded(), Encrypt(2, 0, s.nonces));
    Encrypts(s);
  }

  /** The one encrypted file, in the root's subtree and in its own. */
  lemma OneEncrypted(s: Setting)
    requires s.Context().Valid()
    ensures var rows := s.Secured().books.drive.rows;
            Under(rows, 2, 0) && EncryptedUnder(rows, 0) == {2} && EncryptedUnder(rows, 2) == {2}
  {
    hide NextSequence, Context.Stored, RawCells;
    var rows := s.Secured().books.drive.rows;
    assert Up(rows, 2, 1) == Up(rows, 0, 0) == Some(0);
    UnderSelf(rows, 2);
  }

  lemma SharesRoot(s: Setting)
    requires s.Context().Valid()
    ensures After(Shares(s.Secured(), []), Step.Share(0, 0, 1, Viewer, 10)) == Shares(Wrapped(s), [Grant(0, 1, Viewer, false)])
  {
    hide NextSequence, Context.Stored, RawCells, EncryptedUnder, RewrapSubtree;
    OneEncrypted(s);
    WrapsOne(s);
  }

  lemma WrapsOne(s: Setting)
    requires s.Context().Valid()
    ensures RewrapSubtree(s.Secured(), 0, 1) == Some(Wrapped(s))
  {
    hide NextSequence, Context.Stored, RawCells, EncryptedUnder;
    OneEncrypted(s);
    var v := s.Secured();
    assert Needing(v, 0, 1) == {2} && CanWrap(v, 2, 1) && WrapFor(v, 2, 1) == WrappedDek(2, 1);
    assert v.dataKeys + Additions(v, 1, {2}) == Wrapped(s).dataKeys;
  }

  lemma WrapsNone(s: Setting)
    requires s.Context().Valid()
    ensures RewrapSubtree(Wrapped(s), 2, 1) == Some(Wrapped(s))
  {
    hide NextSequence, Context.Stored, RawCells, EncryptedUnder;
    OneEncrypted(s);
    var v := Wrapped(s);
    assert Needing(v, 2, 1) == {};
    assert v.dataKeys + Additions(v, 1, {}) == v.dataKeys;
  }

  lemma SharesFile(s: Setting)
    requires s.Context().Valid()
    ensures After(Shares(Wrapped(s), [Grant(0, 1, Viewer, false)]), Step.Share(0, 2, 1, Viewer, 10))
            == Shares(Wrapped(s), [Grant(0, 1, Viewer, false), Grant(2, 1, Viewer, false)])
  {
    hide NextSequence, Context.Stored, RawCells, EncryptedUnder, RewrapSubtree;
    OneEncrypted(s);
    WrapsNone(s);
    assert [Grant(0, 1, Viewer, false)][1..] == [];
  }

  /** What the other user is left with: the role, through the root, and no key. */
  lemma RevokeCanStrand(s: Setting)
    requires s.Context().Valid()
    ensures var start := Shares(Content.Opening(s.provider, s.frameBytes, 10), []);
            var before, after := AfterAll(start, Steps(s)[..6]), AfterAll(start, Steps(s));
            && 4 in after.vault.books.versions && after.vault.books.versions[4].node == 2
            && Download(before.vault, 4, 1) == Ok([]) && Download(after.vault, 4, 1) == Err(KeyUnavailable)
            && MayAct(after.vault.books.drive.rows, after.grants, 1, 2, Viewer)
  {
    hide Held, AfterAll, After, Content.Opening, Content.Apply, EncryptedUnder, NextSequence, Context.Stored, RawCells, Download, MayAct, RevokeAccess, Configured;
    var start, steps := Shares(Content.Opening(s.provider, s.frameBytes, 10), []), Steps(s);
    ReachesSecured(s);
    SharesRoot(s);
    SharesFile(s);
    OneMoreStep(start, steps, 4);
    OneMoreStep(start, steps, 5);
    OneMoreStep(start, steps, 6);
    assert steps[..7] == steps;
    var x := AfterAll(start, steps[..6]);
    assert x == Shares(Wrapped(s), [Grant(0, 1, Viewer, false), Grant(2, 1, Viewer, false)]);
    StepsConfigured(s);
    EveryRunIsHeld(s.provider, s.frameBytes, 10, steps[..6]);
    OneEncrypted(s);
    Strands(x, s);
  }

  lemma StepsConfigured(s: Setting)
    ensures Configured(Steps(s)[..6])
  {
  }

  lemma OneMoreStep(start: Shares, steps: seq<Step>, k: nat)
    requires k < |steps|
    ensures AfterAll(start, steps[..k + 1]) == After(AfterAll(start, steps[..k]), steps[k])
  {
    hide After;
    assert steps[..k + 1] == steps[..k] + [steps[k]];
    AfterOneMore(start, steps[..k], steps[k]);
  }

  lemma Strands(x: Shares, s: Setting)
    requires s.Context().Valid() && Held(x.vault) && x == Shares(Wrapped(s), [Grant(0, 1, Viewer, false), Grant(2, 1, Viewer, false)])
    ensures var after := After(x, Revoke(0, 2, 1));
            && 4 in after.vault.books.versions && after.vault.books.versions[4].node == 2
            && Download(x.vault, 4, 1) == Ok([]) && Download(after.vault, 4, 1) == Err(KeyUnavailable)
            && MayAct(after.vault.books.drive.rows, after.grants, 1, 2, Viewer)
  {
    hide Held, EncryptedUnder, NextSequence, Context.Stored, RawCells, Download, MayAct, RevokeAccess, Under, Opens;
    OneEncrypted(s);
    assert x.grants[1] in x.grants && x.grants[1].On(2, 1) && x.grants[0] in x.grants;
    RevokeExactly(x, 0, 2, 1);
    InsideRows(x.vault.books.drive.rows, 2, 2);
    RevokeTakesAway(x, 0, 2, 1, 2, Viewer);
    RevokedCannotRead(x, 0, 2, 1, 4);
    Readable(x.vault);
    assert GrantedElsewhere(x.vault.books.drive.rows, x.grants, 2, 1, 2, Viewer);
  }

  lemma Readable(v: Vault)
    requires Held(v) && 4 in v.books.versions && v.books.versions[4].node == 2 && CanOpen(v, 2, 1)
    ensures Download(v, 4, 1) == Ok(v.books.versions[4].digest.content)
  {
    hide Held, Download, CanOpen;
    HeldReads(v, 4);
  }
}
