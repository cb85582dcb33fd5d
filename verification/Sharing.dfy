/**
 * Grants, and the rewrap that makes a share of encrypted content usable. A share of a large encrypted
 * subtree is stored pending; a background job wraps the data keys for the recipient and activates it,
 * one committed transaction per grant.
 */
module Sharing {
  import opened Prelude
  import opened Cipher
  import opened Tree
  import opened Content

  datatype Role = Viewer | Editor | Owner {
    function Ordinal(): nat {
      match this
      case Viewer => 10
      case Editor => 20
      case Owner => 30
    }
  }

  datatype Grant = Grant(node: Id, subject: UserId, role: Role, pending: bool) {
    predicate On(n: Id, s: UserId) { node == n && subject == s }
  }

  /** Grant rows, oldest first. */
  type Grants = seq<Grant>

  predicate Unique(grants: Grants) {
    forall i, j :: 0 <= i < j < |grants| ==> !grants[j].On(grants[i].node, grants[i].subject)
  }

  function Find(grants: Grants, n: Id, s: UserId): Option<Grant> {
    if grants == [] then None else if grants[0].On(n, s) then Some(grants[0]) else Find(grants[1..], n, s)
  }

  /** Every row for the node and subject replaced by `rows`. */
  function Settle(grants: Grants, n: Id, s: UserId, rows: Grants): Grants {
    if grants == [] then []
    else (if grants[0].On(n, s) then rows else [grants[0]]) + Settle(grants[1..], n, s, rows)
  }

  /** Grants on rows that are gone go with the rows. */
  function Surviving(grants: Grants, rows: Rows): Grants {
    if grants == [] then []
    else (if grants[0].node in rows then [grants[0]] else []) + Surviving(grants[1..], rows)
  }

  // ----- effective permission

  /** The best ordinal an active grant confers on `s` at `n` or above it; 0 for none. */
  ghost function GrantedOrdinal(rows: Rows, grants: Grants, s: UserId, n: Id): nat {
    if grants == [] then 0
    else
      var rest := GrantedOrdinal(rows, grants[1..], s, n);
      if grants[0].subject == s && !grants[0].pending && Under(rows, n, grants[0].node) then Max(grants[0].role.Ordinal(), rest) else rest
  }

  /** The effective role's ordinal: ownership, or the best grant along the ancestor chain. */
  ghost function EffectiveOrdinal(rows: Rows, grants: Grants, s: UserId, n: Id): nat {
    if n !in rows then 0
    else if rows[n].owner == s then Owner.Ordinal()
    else GrantedOrdinal(rows, grants, s, n)
  }

  // ----- wrapping a subtree's keys for a recipient

  ghost function EncryptedUnder(rows: Rows, n: Id): set<Id> {
    set m | m in LiveUnder(rows, n) && rows[m].encrypted
  }

  ghost function Needing(v: Vault, n: Id, s: UserId): set<Id> {
    set m | m in EncryptedUnder(v.books.drive.rows, n) && (m, s) !in v.dataKeys
  }

  /** What `rewrap_for` needs in order to wrap the key of `m` for `s`. */
  predicate CanWrap(v: Vault, m: Id, s: UserId) {
    m in v.books.drive.rows && DataKeyFor(v, m, v.books.drive.rows[m].owner).Some? && UserKek(v, s).Some?
  }

  function WrapFor(v: Vault, m: Id, s: UserId): WrappedDek
    requires CanWrap(v, m, s)
  {
    WrappedDek(DataKeyFor(v, m, v.books.drive.rows[m].owner).value, UserKek(v, s).value)
  }

  ghost function Additions(v: Vault, s: UserId, ids: set<Id>): DataKeys
    requires forall m <- ids :: CanWrap(v, m, s)
  {
    map m | m in ids :: (m, s) := WrapFor(v, m, s)
  }

  /** All of the subtree or nothing: one unopenable key aborts the transaction. */
  ghost function RewrapSubtree(v: Vault, n: Id, s: UserId): Option<Vault> {
    if forall m <- Needing(v, n, s) :: CanWrap(v, m, s) then
      Some(v.(dataKeys := v.dataKeys + Additions(v, s, Needing(v, n, s))))
    else None
  }

  // ----- the sharing service and the job

  datatype Shares = Shares(vault: Vault, grants: Grants)

  function PendingOf(grants: Grants): Grants {
    if grants == [] then [] else (if grants[0].pending then [grants[0]] else []) + PendingOf(grants[1..])
  }

  /** The oldest pending grants, at most `limit` of them. */
  function ListPending(grants: Grants, limit: nat): Grants {
    PendingOf(grants)[..Min(limit, |PendingOf(grants)|)]
  }

  ghost predicate FullyRewrapped(v: Vault, n: Id, s: UserId) {
    forall m <- EncryptedUnder(v.books.drive.rows, n) :: (m, s) in v.dataKeys
  }

  /** One transaction of the job. `None` is an exception: nothing of it is committed and the pass ends. */
  ghost function JobStep(x: Shares, g: Grant): Option<Shares> {
    if !LiveNode(x.vault.books.drive, g.node) then
      Some(Shares(x.vault.(dataKeys := x.vault.dataKeys - {(g.node, g.subject)}), Settle(x.grants, g.node, g.subject, [])))
    else
      match RewrapSubtree(x.vault, g.node, g.subject)
      case None => None
      case Some(v) =>
        if FullyRewrapped(v, g.node, g.subject) then Some(Shares(v, Settle(x.grants, g.node, g.subject, [g.(pending := false)])))
        else Some(Shares(v, x.grants))
  }

  /** Transactions in order, up to the first exception. */
  ghost function Commit(x: Shares, list: Grants): Shares
    decreases |list|
  {
    if list == [] then x
    else
      match JobStep(x, list[0])
      case None => x
      case Some(next) => Commit(next, list[1..])
  }

  /** How many transactions of the list are committed before an exception ends the pass. */
  ghost function Committed(x: Shares, list: Grants): (k: nat)
    ensures k <= |list|
    decreases |list|
  {
    if list == [] then 0
    else
      match JobStep(x, list[0])
      case None => 0
      case Some(next) => 1 + Committed(next, list[1..])
  }

  ghost function RunJob(x: Shares, batch: nat): Shares {
    Commit(x, ListPending(x.grants, batch))
  }

  ghost function GrantAccess(x: Shares, actor: UserId, n: Id, s: UserId, role: Role, threshold: nat): (Shares, Option<Failure>) {
    var d := x.vault.books.drive;
    if !LiveNode(d, n) || EffectiveOrdinal(d.rows, x.grants, actor, n) == 0 then (x, Some(Refused(NotFound)))
    else if EffectiveOrdinal(d.rows, x.grants, actor, n) < Owner.Ordinal() || s == actor then (x, Some(Refused(Validation)))
    else
      var existing := Find(x.grants, n, s);
      if existing.None? && |EncryptedUnder(d.rows, n)| > threshold then (x.(grants := x.grants + [Grant(n, s, role, true)]), None)
      else
        var grants := if existing.None? then x.grants + [Grant(n, s, role, false)] else Settle(x.grants, n, s, [existing.value.(role := role)]);
        match RewrapSubtree(x.vault, n, s)
        case None => (x, Some(KeyUnavailable))
        case Some(v) => (Shares(v, grants), None)
  }

  /** Takes the grant and the subject's wrapped keys over the live subtree; the owner's own are out of reach. */
  ghost function RevokeAccess(x: Shares, actor: UserId, n: Id, s: UserId): (Shares, Option<Failure>) {
    var d := x.vault.books.drive;
    if !LiveNode(d, n) then (x, Some(Refused(NotFound)))
    else if (d.rows[n].owner != actor && s != actor) || s == d.rows[n].owner then (x, Some(Refused(Validation)))
    else if Find(x.grants, n, s).None? then (x, Some(Refused(NotFound)))
    else
      (Shares(x.vault.(dataKeys := map k | k in x.vault.dataKeys && !(k.1 == s && k.0 in LiveUnder(d.rows, n)) :: x.vault.dataKeys[k]),
              Settle(x.grants, n, s, [])), None)
  }

  datatype Step =
    | OnContent(op: Content.Op)
    | Share(actor: UserId, node: Id, subject: UserId, role: Role, threshold: nat)
    | Revoke(actor: UserId, node: Id, subject: UserId)
    | Job(grant: Grant)

  ghost function After(x: Shares, step: Step): Shares {
    match step
    case OnContent(op) =>
      var v := Content.Apply(x.vault, op).vault;
      Shares(v, Surviving(x.grants, v.books.drive.rows))
    case Share(actor, n, s, role, threshold) => GrantAccess(x, actor, n, s, role, threshold).0
    case Revoke(actor, n, s) => RevokeAccess(x, actor, n, s).0
    case Job(g) => if g in PendingOf(x.grants) then (match JobStep(x, g) case None => x case Some(next) => next) else x
  }

  ghost function AfterAll(x: Shares, steps: seq<Step>): Shares
    decreases |steps|
  {
    if steps == [] then x else AfterAll(After(x, steps[0]), steps[1..])
  }

  /** The threshold is a positive setting. */
  predicate Configured(steps: seq<Step>) {
    forall i :: 0 <= i < |steps| ==> (steps[i].Share? ==> steps[i].threshold >= 1)
  }
}
