/** The background rewrap worker, as the loops it runs. */
module RewrapJob {
  import opened Prelude
  import opened Tree
  import opened Content
  import opened Sharing
  import opened SharingTheorems
  import opened Walks

  /** The key table with the wrappings for `s` of the nodes in `done` added. */
  ghost function Wrapped(v: Vault, n: Id, s: UserId, done: set<Id>): DataKeys {
    v.dataKeys + Additions(v, s, Done(v, n, s, done))
  }

  ghost function Done(v: Vault, n: Id, s: UserId, done: set<Id>): set<Id> {
    set m | m in Needing(v, n, s) && m in done && CanWrap(v, m, s)
  }

  lemma WrappedNothing(v: Vault, n: Id, s: UserId)
    ensures v.(dataKeys := Wrapped(v, n, s, {})) == v
  {
    hide Needing, CanWrap, WrapFor;
    assert Wrapped(v, n, s, {}) == v.dataKeys;
  }

  /** Half way through a subtree, every key already looked up is what it was at the start. */
  lemma WrappedSameOwner(v: Vault, n: Id, s: UserId, done: set<Id>, m: Id)
    requires m in v.books.drive.rows
    ensures var v1 := v.(dataKeys := Wrapped(v, n, s, done));
            CanWrap(v1, m, s) == CanWrap(v, m, s) && (CanWrap(v, m, s) ==> WrapFor(v1, m, s) == WrapFor(v, m, s))
  {
    hide LiveUnder;
    var owner := v.books.drive.rows[m].owner;
    var v1 := v.(dataKeys := Wrapped(v, n, s, done));
    assert UserKek(v1, owner) == UserKek(v, owner) && UserKek(v1, s) == UserKek(v, s);
    if (m, owner) in v.dataKeys {
      assert v1.dataKeys[(m, owner)] == v.dataKeys[(m, owner)];
    } else {
      assert (m, owner) !in v1.dataKeys;
    }
  }

  lemma WrappedMore(v: Vault, n: Id, s: UserId, done: set<Id>, m: Id)
    requires m in EncryptedUnder(v.books.drive.rows, n) && m !in done && (m, s) !in v.dataKeys && CanWrap(v, m, s)
    ensures Wrapped(v, n, s, done + {m}) == Wrapped(v, n, s, done)[(m, s) := WrapFor(v, m, s)]
  {
    hide EncryptedUnder, CanWrap, WrapFor;
    assert m in Needing(v, n, s);
    assert Done(v, n, s, done + {m}) == Done(v, n, s, done) + {m};
  }

  lemma WrappedSame(v: Vault, n: Id, s: UserId, done: set<Id>, m: Id)
    requires m !in Needing(v, n, s) || m in done
    ensures Wrapped(v, n, s, done + {m}) == Wrapped(v, n, s, done)
  {
    hide Needing, CanWrap, WrapFor, Additions;
    assert Done(v, n, s, done + {m}) == Done(v, n, s, done);
  }

  /** One call of `rewrap_for` in the middle of the loop. */
  lemma WrapStep(v: Vault, n: Id, s: UserId, done: set<Id>, m: Id)
    requires m in LiveUnder(v.books.drive.rows, n) && m in v.books.drive.rows && m !in done
    ensures var reply := RewrapFor(v.(dataKeys := Wrapped(v, n, s, done)), m, s);
            && (reply.failure.None? <==> (m in Needing(v, n, s) ==> CanWrap(v, m, s)))
            && (reply.failure.None? ==> reply.vault == v.(dataKeys := Wrapped(v, n, s, done + {m})))
            && (reply.failure.Some? ==> reply.vault == v.(dataKeys := Wrapped(v, n, s, done)))
  {
    hide LiveUnder, Wrapped, DataKeyFor, UserKek;
    var v1 := v.(dataKeys := Wrapped(v, n, s, done));
    WrappedSameOwner(v, n, s, done, m);
    WrappedHas(v, n, s, done, m);
    if m in Needing(v, n, s) {
      if CanWrap(v, m, s) { WrappedMore(v, n, s, done, m); }
    } else {
      WrappedSame(v, n, s, done, m);
    }
  }

  lemma WrappedHas(v: Vault, n: Id, s: UserId, done: set<Id>, m: Id)
    requires m !in done
    ensures (m, s) in Wrapped(v, n, s, done) <==> (m, s) in v.dataKeys
  {
    hide Needing, CanWrap, WrapFor;
  }

  lemma WrappedAll(v: Vault, n: Id, s: UserId, done: set<Id>)
    requires done == LiveUnder(v.books.drive.rows, n) && forall m <- Needing(v, n, s) :: CanWrap(v, m, s)
    ensures RewrapSubtree(v, n, s) == Some(v.(dataKeys := Wrapped(v, n, s, done)))
  {
    NeedingInside(v, n, s);
    hide CanWrap, WrapFor, LiveUnder, Needing, Additions;
    assert Done(v, n, s, done) == Needing(v, n, s);
  }

  lemma CannotWrap(v: Vault, n: Id, s: UserId, m: Id)
    requires m in Needing(v, n, s) && !CanWrap(v, m, s)
    ensures RewrapSubtree(v, n, s) == None
  {
    hide CanWrap, WrapFor, Needing;
  }

  class Worker {
    var vault: Vault
    var grants: Grants

    ghost function State(): Shares
      reads this
    {
      Shares(vault, grants)
    }

    ghost predicate Valid()
      reads this
    {
      vault.books.drive.WellFormed()
    }

    /** The table is unique on (node, subject); inserting a second row would fail the transaction. */
    method AddDataKey(n: Id, s: UserId, w: WrappedDek)
      requires (n, s) !in vault.dataKeys
      modifies this`vault
      ensures vault == old(vault).(dataKeys := old(vault).dataKeys[(n, s) := w])
    {
      vault := vault.(dataKeys := vault.dataKeys[(n, s) := w]);
    }

    method RewrapOne(n: Id, s: UserId) returns (ok: bool)
      requires n in vault.books.drive.rows
      modifies this`vault
      ensures Reply(vault, if ok then None else Some(KeyUnavailable)) == RewrapFor(old(vault), n, s)
    {
      if !vault.books.drive.rows[n].encrypted { return true; }
      if (n, s) in vault.dataKeys { return true; }
      var dek := DataKeyFor(vault, n, vault.books.drive.rows[n].owner);
      if dek.None? { return false; }
      var kek := UserKek(vault, s);
      if kek.None? { return false; }
      AddDataKey(n, s, WrappedDek(dek.value, kek.value));
      ok := true;
    }

    /** The whole live subtree, in whatever order its rows arrive. */
    method RewrapTree(n: Id, s: UserId) returns (ok: bool)
      requires Valid() && LiveNode(vault.books.drive, n)
      modifies this`vault
      ensures ok ==> RewrapSubtree(old(vault), n, s) == Some(vault) && Valid()
      ensures !ok ==> RewrapSubtree(old(vault), n, s) == None
    {
      hide Drive.WellFormed, LiveUnder, Needing, Wrapped, RewrapFor, CanWrap, Beneath, RewrapSubtree, Elements, Distinct;
      ghost var v := vault;
      var found := Descendants(vault.books.drive, n, false);
      BeneathIs(vault.books.drive.rows, n);
      var left := found;
      WrappedNothing(v, n, s);
      assert found - left == {};
      while left != {}
        invariant left <= found && vault == v.(dataKeys := Wrapped(v, n, s, found - left))
        invariant forall m <- found - left :: m in Needing(v, n, s) ==> CanWrap(v, m, s)
        decreases |left|
      {
        var m :| m in left;
        LiveInside(v.books.drive.rows, n, m);
        WrapStep(v, n, s, found - left, m);
        var wrapped := RewrapOne(m, s);
        if !wrapped {
          CannotWrap(v, n, s, m);
          return false;
        }
        assert found - (left - {m}) == (found - left) + {m};
        left := left - {m};
      }
      assert found - left == found;
      NeedingInside(v, n, s);
      WrappedAll(v, n, s, found);
      ok := true;
    }

    /** Rewraps, then activates only if the recipient now has a key everywhere. */
    method ActivateOne(g: Grant) returns (ok: bool)
      requires Valid() && LiveNode(vault.books.drive, g.node)
      modifies this
      ensures ok ==> JobStep(old(State()), g) == Some(State()) && Valid()
      ensures !ok ==> JobStep(old(State()), g) == None
    {
      hide Drive.WellFormed, LiveUnder, RewrapSubtree, Settle, Beneath, FullyRewrapped, AllWrapped;
      ghost var v := vault;
      ok := RewrapTree(g.node, g.subject);
      if ok {
        RewrapSameBooks(v, g.node, g.subject);
        var subtree := Descendants(vault.books.drive, g.node, false);
        BeneathIs(vault.books.drive.rows, g.node);
        FullyIs(vault, g.node, g.subject, subtree);
        if AllWrapped(vault, subtree, g.subject) {
          grants := Settle(grants, g.node, g.subject, [g.(pending := false)]);
        }
      }
    }

    /** One pass. An exception rolls the open transaction back and ends the pass. */
    method Run(batch: nat)
      requires Valid()
      modifies this
      ensures State() == RunJob(old(State()), batch) && Valid()
    {
      hide Drive.WellFormed, JobStep, Settle, PendingOf;
      var pending := ListPending(grants, batch);
      for i := 0 to |pending|
        invariant Valid()
        invariant Commit(State(), pending[i..]) == RunJob(old(State()), batch)
      {
        var g, savedVault, savedGrants := pending[i], vault, grants;
        assert pending[i..][1..] == pending[i + 1..];
        ghost var before := State();
        if !LiveNode(vault.books.drive, g.node) {
          DropIs(before, g);
          vault := vault.(dataKeys := vault.dataKeys - {(g.node, g.subject)});
          grants := Settle(grants, g.node, g.subject, []);
        } else {
          var ok := ActivateOne(g);
          if !ok {
            vault, grants := savedVault, savedGrants;
            return;
          }
        }
      }
    }
  }

  predicate AllWrapped(v: Vault, subtree: set<Id>, s: UserId) {
    forall m <- subtree :: m in v.books.drive.rows && v.books.drive.rows[m].encrypted ==> (m, s) in v.dataKeys
  }

  lemma FullyIs(v: Vault, n: Id, s: UserId, subtree: set<Id>)
    requires subtree == LiveUnder(v.books.drive.rows, n)
    ensures AllWrapped(v, subtree, s) <==> FullyRewrapped(v, n, s)
  {
    hide Under;
  }

  lemma DropIs(x: Shares, g: Grant)
    requires !LiveNode(x.vault.books.drive, g.node)
    ensures JobStep(x, g) ==
            Some(Shares(x.vault.(dataKeys := x.vault.dataKeys - {(g.node, g.subject)}), Settle(x.grants, g.node, g.subject, [])))
  {
    hide Settle, RewrapSubtree;
  }

  lemma LiveInside(rows: Rows, n: Id, m: Id)
    requires m in LiveUnder(rows, n)
    ensures m in rows
  {
    hide Under;
  }

  lemma NeedingInside(v: Vault, n: Id, s: UserId)
    ensures Needing(v, n, s) <= LiveUnder(v.books.drive.rows, n)
  {
    hide LiveUnder;
  }
}
