/** Who may do what: roles from ownership and grants, and what sharing and revoking do to them and to the keys. */
module Access {
  import opened Prelude
  import Framing
  import opened Cipher
  import opened Tree
  import opened TreeInvariant
  import opened Ledger
  import opened Purge
  import opened Content
  import opened ContentInvariant
  import opened Sharing
  import opened SharingTheorems
  import Services
  import PermissionCache

  // ----- roles

  /** Owners may do what editors may, and editors what viewers may. */
  predicate Covers(role: Role, needed: Role) {
    match needed
    case Viewer => true
    case Editor => role != Viewer
    case Owner => role == Owner
  }

  /** An active grant of at least the role to `s`, on the node or on one of its ancestors. */
  ghost predicate Granted(rows: Rows, grants: Grants, s: UserId, n: Id, needed: Role) {
    exists g <- grants :: g.subject == s && !g.pending && Covers(g.role, needed) && Under(rows, n, g.node)
  }

  ghost predicate MayAct(rows: Rows, grants: Grants, s: UserId, n: Id, needed: Role) {
    n in rows && (rows[n].owner == s || Granted(rows, grants, s, n, needed))
  }

  lemma {:induction false} GrantedExactly(rows: Rows, grants: Grants, s: UserId, n: Id, needed: Role)
    ensures GrantedOrdinal(rows, grants, s, n) >= needed.Ordinal() <==> Granted(rows, grants, s, n, needed)
    decreases |grants|
  {
    hide Under;
    if grants != [] {
      assert grants == [grants[0]] + grants[1..];
      GrantedExactly(rows, grants[1..], s, n, needed);
    }
  }

  /** The effective role is at least the one needed exactly for the owner and for holders of an active grant that covers it. */
  lemma RoleExactly(rows: Rows, grants: Grants, s: UserId, n: Id, needed: Role)
    ensures EffectiveOrdinal(rows, grants, s, n) >= needed.Ordinal() <==> MayAct(rows, grants, s, n, needed)
    ensures EffectiveOrdinal(rows, grants, s, n) == 0 <==> !MayAct(rows, grants, s, n, Viewer)
  {
    hide Under, GrantedOrdinal;
    GrantedExactly(rows, grants, s, n, needed);
    GrantedExactly(rows, grants, s, n, Viewer);
    OrdinalsAre(rows, grants, s, n);
  }

  lemma {:induction false} OrdinalsAre(rows: Rows, grants: Grants, s: UserId, n: Id)
    ensures GrantedOrdinal(rows, grants, s, n) in {0, 10, 20, 30}
    decreases |grants|
  {
    hide Under;
    if grants != [] { OrdinalsAre(rows, grants[1..], s, n); }
  }

  /** The guard in front of every tree operation: not there, not allowed, or neither. */
  lemma RefusalExactly(d: Drive, grants: Grants, s: UserId, n: Id, needed: Role)
    ensures Services.EDITOR == Editor.Ordinal() && Services.OWNER == Owner.Ordinal()
    ensures var refusal := Services.Refusal(d, n, EffectiveOrdinal(d.rows, grants, s, n), needed.Ordinal());
            && (refusal.None? <==> LiveNode(d, n) && MayAct(d.rows, grants, s, n, needed))
            && (refusal == Some(PermissionDenied) <==> LiveNode(d, n) && MayAct(d.rows, grants, s, n, Viewer) && !MayAct(d.rows, grants, s, n, needed))
            && (refusal == Some(NotFound) <==> !LiveNode(d, n) || !MayAct(d.rows, grants, s, n, Viewer))
  {
    hide EffectiveOrdinal, MayAct;
    RoleExactly(d.rows, grants, s, n, needed);
  }

  /** Roles granted on a node reach down: whoever may act on it may act on everything beneath it. */
  lemma RolesReachDown(d: Drive, grants: Grants, s: UserId, n: Id, m: Id, needed: Role)
    requires d.WellFormed() && m in d.rows && Under(d.rows, m, n) && MayAct(d.rows, grants, s, n, needed)
    ensures MayAct(d.rows, grants, s, m, needed)
  {
    if d.rows[n].owner == s {
      var k: nat :| Up(d.rows, m, k) == Some(n);
      ChainStaysInside(d.rows, m, k);
    } else {
      var g :| g in grants && g.subject == s && !g.pending && Covers(g.role, needed) && Under(d.rows, n, g.node);
      UnderTransitive(d.rows, m, n, g.node);
    }
  }

  // ----- replacing grant rows

  /** Apart from the rows for `n` and `s`, the two lists hold the same grants. */
  ghost predicate OthersKept(grants: Grants, grants': Grants, n: Id, s: UserId) {
    forall g: Grant :: !g.On(n, s) ==> (g in grants' <==> g in grants)
  }

  predicate HasGrant(grants: Grants, n: Id, s: UserId) {
    exists g <- grants :: g.On(n, s)
  }

  lemma {:induction false} SettleExactly(grants: Grants, n: Id, s: UserId, rows: Grants, g: Grant)
    requires forall h <- rows :: h.On(n, s)
    ensures g in Settle(grants, n, s, rows) <==> if g.On(n, s) then HasGrant(grants, n, s) && g in rows else g in grants
    decreases |grants|
  {
    if grants != [] {
      assert grants == [grants[0]] + grants[1..];
      SettleExactly(grants[1..], n, s, rows, g);
    }
  }

  lemma {:induction false} FindExactly(grants: Grants, n: Id, s: UserId)
    ensures Find(grants, n, s).Some? <==> HasGrant(grants, n, s)
    ensures Find(grants, n, s).Some? ==> Find(grants, n, s).value in grants && Find(grants, n, s).value.On(n, s)
    decreases |grants|
  {
    if grants != [] {
      assert grants == [grants[0]] + grants[1..];
      FindExactly(grants[1..], n, s);
    }
  }

  lemma OnlyGrantOn(grants: Grants, g: Grant, h: Grant)
    requires Unique(grants) && g in grants && h in grants && h.On(g.node, g.subject)
    ensures g == h
  {
    var i :| 0 <= i < |grants| && grants[i] == g;
    var j :| 0 <= j < |grants| && grants[j] == h;
  }

  /** Grants elsewhere decide every other role. */
  lemma OthersDecide(rows: Rows, grants: Grants, grants': Grants, n: Id, s: UserId, t: UserId, m: Id, needed: Role)
    requires OthersKept(grants, grants', n, s) && (t != s || !Under(rows, m, n))
    ensures MayAct(rows, grants', t, m, needed) <==> MayAct(rows, grants, t, m, needed)
  {
    hide Under;
    forall g: Grant | g.subject == t && Under(rows, m, g.node)
      ensures g in grants' <==> g in grants
    {
      assert !g.On(n, s);
    }
  }

  // ----- revoking

  /** Some grant of `s` other than the one on `n` gives the role. */
  ghost predicate GrantedElsewhere(rows: Rows, grants: Grants, n: Id, s: UserId, m: Id, needed: Role) {
    exists g <- grants :: g.node != n && g.subject == s && !g.pending && Covers(g.role, needed) && Under(rows, m, g.node)
  }

  /** A revoke is accepted exactly from the owner or the recipient, for a grant that is there and is not the owner's. */
  lemma RevokeExactly(x: Shares, actor: UserId, n: Id, s: UserId)
    ensures var rows := x.vault.books.drive.rows;
            RevokeAccess(x, actor, n, s).1.None? <==>
              n in rows && rows[n].Live() && actor in {rows[n].owner, s} && s != rows[n].owner && HasGrant(x.grants, n, s)
    ensures RevokeAccess(x, actor, n, s).1.Some? ==> RevokeAccess(x, actor, n, s).0 == x
  {
    hide LiveUnder;
    FindExactly(x.grants, n, s);
  }

  /**
   * A revoke takes the grant away, and only that grant: what the subject may do anywhere is what their other
   * grants give. It takes the subject's key for every live file of the subtree, and no other key.
   */
  lemma RevokeTakesAway(x: Shares, actor: UserId, n: Id, s: UserId, m: Id, needed: Role)
    requires RevokeAccess(x, actor, n, s).1.None?
    ensures var x', rows := RevokeAccess(x, actor, n, s).0, x.vault.books.drive.rows;
            && x'.vault == x.vault.(dataKeys := x'.vault.dataKeys)
            && !HasGrant(x'.grants, n, s) && OthersKept(x.grants, x'.grants, n, s)
            && (m in rows && rows[m].owner != s ==> (MayAct(rows, x'.grants, s, m, needed) <==> GrantedElsewhere(rows, x.grants, n, s, m, needed)))
            && (m in rows && rows[m].Live() && Under(rows, m, n) ==> (m, s) !in x'.vault.dataKeys && DataKeyFor(x'.vault, m, s).None?)
            && (!(m in rows && rows[m].Live() && Under(rows, m, n)) && (m, s) in x.vault.dataKeys ==>
                  (m, s) in x'.vault.dataKeys && x'.vault.dataKeys[(m, s)] == x.vault.dataKeys[(m, s)])
            && (forall k: (Id, UserId) :: k.1 != s ==> (k in x'.vault.dataKeys <==> k in x.vault.dataKeys))
            && (forall k <- x'.vault.dataKeys :: k in x.vault.dataKeys && x'.vault.dataKeys[k] == x.vault.dataKeys[k])
  {
    hide Under;
    var x', rows := RevokeAccess(x, actor, n, s).0, x.vault.books.drive.rows;
    forall g: Grant
      ensures g in x'.grants <==> !g.On(n, s) && g in x.grants
    {
      SettleExactly(x.grants, n, s, [], g);
    }
  }

  /** So no encrypted version of a file there can be downloaded by the subject any more. */
  lemma RevokedCannotRead(x: Shares, actor: UserId, n: Id, s: UserId, y: Id)
    requires Held(x.vault) && RevokeAccess(x, actor, n, s).1.None? && y in x.vault.books.versions
    requires x.vault.books.versions[y].encrypted && x.vault.books.versions[y].node in LiveUnder(x.vault.books.drive.rows, n)
    ensures Download(RevokeAccess(x, actor, n, s).0.vault, y, s) == Err(KeyUnavailable)
  {
    hide Held, Under, Opens, Drive.WellFormed;
    HeldVersion(x.vault, y);
    RevokeTakesAway(x, actor, n, s, x.vault.books.versions[y].node, Viewer);
  }

  /**
   * After a revoke the subject may still read an encrypted file of the subtree, without being able to, exactly
   * when another active grant of theirs reaches it: the keys go whether or not they are still needed.
   */
  lemma RevokeStrandsExactly(x: Shares, actor: UserId, n: Id, s: UserId, m: Id)
    requires RevokeAccess(x, actor, n, s).1.None? && m in EncryptedUnder(x.vault.books.drive.rows, n) && x.vault.books.drive.rows[m].owner != s
    ensures var x', rows := RevokeAccess(x, actor, n, s).0, x.vault.books.drive.rows;
            (EffectiveOrdinal(rows, x'.grants, s, m) > 0 && DataKeyFor(x'.vault, m, s).None?) <==> GrantedElsewhere(rows, x.grants, n, s, m, Viewer)
  {
    hide Under, EffectiveOrdinal, RevokeAccess;
    var x' := RevokeAccess(x, actor, n, s).0;
    InsideRows(x.vault.books.drive.rows, n, m);
    RevokeTakesAway(x, actor, n, s, m, Viewer);
    RoleExactly(x.vault.books.drive.rows, x'.grants, s, m, Viewer);
  }

  /** A grant taken away stays away through every later step that does not give it again. */
  lemma {:induction false} RevokedStaysRevoked(x: Shares, steps: seq<Step>, n: Id, s: UserId)
    requires !HasGrant(x.grants, n, s)
    requires forall i :: 0 <= i < |steps| ==> !(steps[i].Share? && steps[i].node == n && steps[i].subject == s)
    ensures !HasGrant(AfterAll(x, steps).grants, n, s)
    decreases |steps|
  {
    hide After, HasGrant;
    if steps != [] {
      StepGivesNoGrant(x, steps[0], n, s);
      assert forall i :: 0 <= i < |steps[1..]| ==> steps[1..][i] == steps[i + 1];
      RevokedStaysRevoked(After(x, steps[0]), steps[1..], n, s);
    }
  }

  lemma StepGivesNoGrant(x: Shares, step: Step, n: Id, s: UserId)
    requires !HasGrant(x.grants, n, s) && !(step.Share? && step.node == n && step.subject == s)
    ensures !HasGrant(After(x, step).grants, n, s)
  {
    hide Content.Apply, RewrapSubtree, EffectiveOrdinal, PendingOf, EncryptedUnder, FullyRewrapped;
    forall g | g in After(x, step).grants
      ensures !g.On(n, s)
    {
      match step
      case OnContent(op) => SurvivingMembers(x.grants, Content.Apply(x.vault, op).vault.books.drive.rows, g);
      case Share(actor, a, t, role, threshold) => SharedGrants(x, actor, a, t, role, threshold, g);
      case Revoke(actor, a, t) => SettleExactly(x.grants, a, t, [], g);
      case Job(p) =>
        PendingAre(x.grants, p);
        SettleExactly(x.grants, p.node, p.subject, [], g);
        SettleExactly(x.grants, p.node, p.subject, [p.(pending := false)], g);
    }
  }

  lemma SharedGrants(x: Shares, actor: UserId, a: Id, t: UserId, role: Role, threshold: nat, g: Grant)
    requires g in GrantAccess(x, actor, a, t, role, threshold).0.grants
    ensures g in x.grants || g.On(a, t)
  {
    hide RewrapSubtree, EffectiveOrdinal, EncryptedUnder;
    FindExactly(x.grants, a, t);
    if Find(x.grants, a, t).Some? {
      SettleExactly(x.grants, a, t, [Find(x.grants, a, t).value.(role := role)], g);
    }
  }

  lemma {:induction false} PendingAre(grants: Grants, p: Grant)
    ensures p in PendingOf(grants) <==> p in grants && p.pending
    decreases |grants|
  {
    if grants != [] {
      assert grants == [grants[0]] + grants[1..];
      PendingAre(grants[1..], p);
    }
  }

  // ----- sharing

  /** A first share of more encrypted files than the threshold is left to the job. */
  ghost predicate Deferred(x: Shares, n: Id, s: UserId, threshold: nat) {
    !HasGrant(x.grants, n, s) && |EncryptedUnder(x.vault.books.drive.rows, n)| > threshold
  }

  /** A share is accepted exactly from someone acting as owner, for someone else, if every key it needs at once can be wrapped. */
  lemma ShareExactly(x: Shares, actor: UserId, n: Id, s: UserId, role: Role, threshold: nat)
    ensures GrantAccess(x, actor, n, s, role, threshold).1.None? <==>
              && LiveNode(x.vault.books.drive, n) && MayAct(x.vault.books.drive.rows, x.grants, actor, n, Owner) && s != actor
              && (Deferred(x, n, s, threshold) || forall m <- Needing(x.vault, n, s) :: CanWrap(x.vault, m, s))
    ensures GrantAccess(x, actor, n, s, role, threshold).1.Some? ==> GrantAccess(x, actor, n, s, role, threshold).0 == x
  {
    hide EncryptedUnder, EffectiveOrdinal, MayAct, Needing;
    FindExactly(x.grants, n, s);
    RoleExactly(x.vault.books.drive.rows, x.grants, actor, n, Owner);
  }

  /**
   * A share leaves exactly one grant for the node and subject, with the role given, and touches no other. One
   * left to the job waits and gives nothing yet. Any other is active unless it was waiting already, and comes
   * with a key for every encrypted live file of the subtree.
   */
  lemma ShareGives(x: Shares, actor: UserId, n: Id, s: UserId, role: Role, threshold: nat, g: Grant, m: Id)
    requires Unique(x.grants) && GrantAccess(x, actor, n, s, role, threshold).1.None?
    ensures var x', deferred := GrantAccess(x, actor, n, s, role, threshold).0, Deferred(x, n, s, threshold);
            var waiting := deferred || exists h <- x.grants :: h.On(n, s) && h.pending;
            && OthersKept(x.grants, x'.grants, n, s)
            && (g.On(n, s) ==> (g in x'.grants <==> g == Grant(n, s, role, waiting)))
            && (deferred ==> x'.vault == x.vault)
            && x'.vault == x.vault.(dataKeys := x'.vault.dataKeys)
            && (forall k <- x.vault.dataKeys :: k in x'.vault.dataKeys && x'.vault.dataKeys[k] == x.vault.dataKeys[k])
            && (!deferred && m in EncryptedUnder(x.vault.books.drive.rows, n) ==> KeyGiven(x.vault, x'.vault, m, s))
  {
    hide RewrapSubtree, EncryptedUnder, EffectiveOrdinal, KeyGiven;
    FindExactly(x.grants, n, s);
    var deferred := Deferred(x, n, s, threshold);
    forall h: Grant | h in x.grants && h.On(n, s)
      ensures Find(x.grants, n, s) == Some(h)
    {
      OnlyGrantOn(x.grants, Find(x.grants, n, s).value, h);
    }
    forall h: Grant
      ensures h in GrantAccess(x, actor, n, s, role, threshold).0.grants <==>
                if h.On(n, s) then h == Grant(n, s, role, deferred || exists o <- x.grants :: o.On(n, s) && o.pending) else h in x.grants
    {
      ShareSettles(x, actor, n, s, role, threshold, h);
    }
    if !deferred {
      AddedKeys(x.vault, n, s);
      if m in EncryptedUnder(x.vault.books.drive.rows, n) { RewrapGives(x.vault, n, s, m); }
    }
  }

  lemma ShareSettles(x: Shares, actor: UserId, n: Id, s: UserId, role: Role, threshold: nat, h: Grant)
    requires GrantAccess(x, actor, n, s, role, threshold).1.None?
    requires forall o: Grant :: o in x.grants && o.On(n, s) ==> Find(x.grants, n, s) == Some(o)
    ensures h in GrantAccess(x, actor, n, s, role, threshold).0.grants <==>
              if h.On(n, s) then h == Grant(n, s, role, Deferred(x, n, s, threshold) || exists o <- x.grants :: o.On(n, s) && o.pending) else h in x.grants
  {
    hide RewrapSubtree, EncryptedUnder, EffectiveOrdinal;
    FindExactly(x.grants, n, s);
    if Find(x.grants, n, s).Some? {
      var found := Find(x.grants, n, s).value;
      SettleExactly(x.grants, n, s, [found.(role := role)], h);
      assert found.pending <==> exists o <- x.grants :: o.On(n, s) && o.pending;
    }
  }

  lemma AddedKeys(v: Vault, n: Id, s: UserId)
    requires RewrapSubtree(v, n, s).Some?
    ensures var v' := RewrapSubtree(v, n, s).value;
            v' == v.(dataKeys := v'.dataKeys) && forall k <- v.dataKeys :: k in v'.dataKeys && v'.dataKeys[k] == v.dataKeys[k]
  {
    hide EncryptedUnder, CanWrap;
  }

  /** What a share comes to for the recipient: the role on everything beneath, unless it waits; and for nobody else anything. */
  lemma ShareTakesEffect(x: Shares, actor: UserId, n: Id, s: UserId, role: Role, threshold: nat, t: UserId, m: Id, needed: Role)
    requires Unique(x.grants) && GrantAccess(x, actor, n, s, role, threshold).1.None? && m in x.vault.books.drive.rows && x.vault.books.drive.rows[m].owner != t
    ensures var rows, grants := x.vault.books.drive.rows, GrantAccess(x, actor, n, s, role, threshold).0.grants;
            && (t == s && Under(rows, m, n) ==>
                  (MayAct(rows, grants, s, m, needed) <==>
                     || GrantedElsewhere(rows, x.grants, n, s, m, needed)
                     || (Covers(role, needed) && !Deferred(x, n, s, threshold) && !exists h <- x.grants :: h.On(n, s) && h.pending)))
            && (t != s || !Under(rows, m, n) ==> (MayAct(rows, grants, t, m, needed) <==> MayAct(rows, x.grants, t, m, needed)))
  {
    hide Under, GrantAccess, Deferred, Unique;
    var rows, grants := x.vault.books.drive.rows, GrantAccess(x, actor, n, s, role, threshold).0.grants;
    var waiting := Deferred(x, n, s, threshold) || exists h <- x.grants :: h.On(n, s) && h.pending;
    forall g: Grant
      ensures g.On(n, s) ==> (g in grants <==> g == Grant(n, s, role, waiting))
      ensures !g.On(n, s) ==> (g in grants <==> g in x.grants)
    {
      ShareGives(x, actor, n, s, role, threshold, g, m);
    }
    if t != s || !Under(rows, m, n) {
      OthersDecide(rows, x.grants, grants, n, s, t, m, needed);
    } else {
      var mine := Grant(n, s, role, waiting);
      assert mine in grants;
    }
  }

  /**
   * What one transaction of the job does to its grant: activated with the role it was given, or gone with its
   * key when the node is. Other grants are as they were, and keys are only added.
   */
  lemma JobExactly(x: Shares, g: Grant, h: Grant, m: Id)
    requires g in PendingOf(x.grants) && JobStep(x, g).Some?
    ensures var x', live := JobStep(x, g).value, LiveNode(x.vault.books.drive, g.node);
            && OthersKept(x.grants, x'.grants, g.node, g.subject)
            && (h.On(g.node, g.subject) ==> (h in x'.grants <==> live && h == Grant(g.node, g.subject, g.role, false)))
            && (!live ==> x'.vault == x.vault.(dataKeys := x.vault.dataKeys - {(g.node, g.subject)}))
            && (live ==> x'.vault == x.vault.(dataKeys := x'.vault.dataKeys)
                         && forall k <- x.vault.dataKeys :: k in x'.vault.dataKeys && x'.vault.dataKeys[k] == x.vault.dataKeys[k])
            && (live && m in EncryptedUnder(x.vault.books.drive.rows, g.node) ==> KeyGiven(x.vault, x'.vault, m, g.subject))
  {
    hide RewrapSubtree, EncryptedUnder, KeyGiven, PendingOf;
    PendingAre(x.grants, g);
    assert HasGrant(x.grants, g.node, g.subject);
    if LiveNode(x.vault.books.drive, g.node) {
      AddedKeys(x.vault, g.node, g.subject);
      WrapsFully(x.vault, g.node, g.subject);
      if m in EncryptedUnder(x.vault.books.drive.rows, g.node) { RewrapGives(x.vault, g.node, g.subject, m); }
    }
    forall o: Grant
      ensures o in JobStep(x, g).value.grants <==>
                if o.On(g.node, g.subject) then LiveNode(x.vault.books.drive, g.node) && o == g.(pending := false) else o in x.grants
    {
      SettleExactly(x.grants, g.node, g.subject, [], o);
      SettleExactly(x.grants, g.node, g.subject, [g.(pending := false)], o);
    }
  }

  lemma WrapsFully(v: Vault, n: Id, s: UserId)
    requires RewrapSubtree(v, n, s).Some?
    ensures FullyRewrapped(RewrapSubtree(v, n, s).value, n, s)
  {
    hide LiveUnder;
    forall m | m in EncryptedUnder(v.books.drive.rows, n)
      ensures (m, s) in RewrapSubtree(v, n, s).value.dataKeys
    {
      RewrapGives(v, n, s, m);
    }
  }

  // ----- the cache sees the same grants

  /** What the cache model records for a share or a revoke is what the services store. */
  lemma CacheFollowsShares(l: PermissionCache.Labels, x: Shares, entries: PermissionCache.Entries, actor: UserId, n: Id, s: UserId, role: Role, threshold: nat)
    ensures var w := PermissionCache.World(x.vault.books.drive, x.grants, entries);
            && (GrantAccess(x, actor, n, s, role, threshold).1.None? ==>
                  PermissionCache.Next(l, w, PermissionCache.GrantRole(n, s, role, Deferred(x, n, s, threshold))).grants
                  == GrantAccess(x, actor, n, s, role, threshold).0.grants)
            && (RevokeAccess(x, actor, n, s).1.None? ==>
                  PermissionCache.Next(l, w, PermissionCache.RevokeRole(n, s)).grants == RevokeAccess(x, actor, n, s).0.grants)
  {
    hide RewrapSubtree, EncryptedUnder, EffectiveOrdinal, LiveUnder;
    FindExactly(x.grants, n, s);
  }
}
