/**
 * Cached permission decisions. The cache is a string-keyed store shared with other datasets; a decision is
 * dropped only by the invalidations the services issue.
 */
module PermissionCache {
  import opened Prelude
  import opened Tree
  import opened TreeInvariant
  import opened Sharing
  import SharingTheorems
  import opened Walks

  // ----- keys

  /** How ids appear in keys; `prefix` is the namespace and schema version. */
  datatype Labels = Labels(prefix: string, subject: UserId -> string, node: Id -> string) {
    /** Distinct subjects and distinct nodes read differently, and a node id has no colon in it. */
    ghost predicate Faithful() {
      && (forall s, t :: subject(s) == subject(t) ==> s == t)
      && (forall n, m :: node(n) == node(m) ==> n == m)
      && (forall n :: ':' !in node(n))
    }

    function DatasetPrefix(dataset: string): string {
      prefix + dataset + ":"
    }

    function SubjectPrefix(s: UserId): string {
      DatasetPrefix(PERMISSION) + subject(s) + ":"
    }

    function Key(s: UserId, n: Id): string {
      SubjectPrefix(s) + node(n)
    }
  }

  const PERMISSION := "perm"

  /** The other datasets kept in the same store. */
  const OTHERS := ["meta", "list", "jwks", "quota", "stats"]

  lemma SplitAtLastColon(a: string, x: string, b: string, y: string)
    requires a + ":" + x == b + ":" + y && ':' !in x && ':' !in y
    ensures a == b && x == y
  {
    if |a| > |b| {
      ColonInside(a, x, b, y);
    } else if |b| > |a| {
      ColonInside(b, y, a, x);
    } else {
      var whole := a + ":" + x;
      assert whole[..|a|] == a && whole[..|b|] == b;
      assert whole[|a| + 1..] == x && whole[|b| + 1..] == y;
    }
  }

  lemma ColonInside(a: string, x: string, b: string, y: string)
    requires a + ":" + x == b + ":" + y && |a| > |b|
    ensures ':' in y
  {
    assert (a + ":" + x)[|a|] == ':';
    assert y[|a| - |b| - 1] == (b + ":" + y)[|a|];
  }

  /** One subject's decision is never read as another's, whatever characters subjects contain. */
  lemma KeyInjective(l: Labels, s: UserId, n: Id, t: UserId, m: Id)
    requires l.Faithful() && l.Key(s, n) == l.Key(t, m)
    ensures s == t && n == m
  {
    var head := l.DatasetPrefix(PERMISSION);
    assert l.Key(s, n) == (head + l.subject(s)) + ":" + l.node(n);
    assert l.Key(t, m) == (head + l.subject(t)) + ":" + l.node(m);
    SplitAtLastColon(head + l.subject(s), l.node(n), head + l.subject(t), l.node(m));
    assert (head + l.subject(s))[|head|..] == l.subject(s) && (head + l.subject(t))[|head|..] == l.subject(t);
  }

  lemma OtherDatasetsElsewhere(l: Labels, i: nat, tail: string, s: UserId, n: Id)
    requires i < |OTHERS|
    ensures l.DatasetPrefix(OTHERS[i]) + tail != l.Key(s, n)
  {
    var a, b := l.DatasetPrefix(OTHERS[i]) + tail, l.Key(s, n);
    assert a[|l.prefix|] == OTHERS[i][0] && b[|l.prefix|] == PERMISSION[0];
  }

  // ----- the store

  type Entries = map<string, nat>

  function DropPrefix(entries: Entries, prefix: string): Entries {
    map k | k in entries && !(prefix <= k) :: entries[k]
  }

  datatype World = World(drive: Drive, grants: Grants, entries: Entries)

  /** What the decision would be if it were computed now. */
  ghost function Fresh(w: World, s: UserId, n: Id): nat {
    EffectiveOrdinal(w.drive.rows, w.grants, s, n)
  }

  /** Every cached decision about an existing node is the present one, and nothing is cached about ids not yet used. */
  ghost predicate Coherent(l: Labels, w: World) {
    && w.drive.WellFormed()
    && (forall s: UserId, n: Id {:trigger l.Key(s, n)} :: n in w.drive.rows && l.Key(s, n) in w.entries ==> w.entries[l.Key(s, n)] == Fresh(w, s, n))
    && (forall s: UserId, n: Id {:trigger l.Key(s, n)} :: n >= w.drive.nextId ==> l.Key(s, n) !in w.entries)
  }

  // ----- operations

  /** What the rewrap job has committed once it has handled the pending grants in `done`. */
  function Handled(rows: Rows, grants: Grants, done: set<(Id, UserId)>): Grants {
    if grants == [] then []
    else
      var g := grants[0];
      (if !g.pending || (g.node, g.subject) !in done then [g]
       else if g.node in rows && rows[g.node].Live() then [g.(pending := false)]
       else [])
      + Handled(rows, grants[1..], done)
  }

  /** The subjects of the grants a pass activates: the only ones it invalidates. */
  function Activatees(rows: Rows, grants: Grants, done: set<(Id, UserId)>): set<UserId> {
    if grants == [] then {}
    else
      var g := grants[0];
      (if g.pending && (g.node, g.subject) in done && LiveIn(rows, g.node) then {g.subject} else {}) + Activatees(rows, grants[1..], done)
  }

  function DropSubjects(l: Labels, entries: Entries, subjects: set<UserId>): Entries {
    map k | k in entries && forall s <- subjects :: !(l.SubjectPrefix(s) <= k) :: entries[k]
  }

  datatype Op =
    | Ask(subject: UserId, node: Id)
    | GrantRole(node: Id, subject: UserId, role: Role, pending: bool)
    | RevokeRole(node: Id, subject: UserId)
    | RewrapPass(done: set<(Id, UserId)>)
    | OnTree(op: TreeInvariant.Op)
    | PurgeExpired(node: Id)
    | Forget(keys: set<string>)
    | StoreOther(dataset: nat, tail: string, value: nat)

  /** Moves, deletes, restores and purges change inherited access; creating and renaming do not. */
  predicate Reparents(op: TreeInvariant.Op) {
    op.OpMove? || op.OpDelete? || op.OpRestore? || op.OpPurge?
  }

  ghost function Answer(l: Labels, w: World, s: UserId, n: Id): nat {
    if l.Key(s, n) in w.entries then w.entries[l.Key(s, n)] else Fresh(w, s, n)
  }

  ghost function Next(l: Labels, w: World, op: Op): World {
    match op
    case Ask(s, n) => if n !in w.drive.rows then w else w.(entries := w.entries[l.Key(s, n) := Answer(l, w, s, n)])
    case GrantRole(n, s, role, pending) =>
      var existing := Find(w.grants, n, s);
      w.(grants := if existing.None? then w.grants + [Grant(n, s, role, pending)] else Settle(w.grants, n, s, [existing.value.(role := role)]),
         entries := DropPrefix(w.entries, l.SubjectPrefix(s)))
    case RevokeRole(n, s) => w.(grants := Settle(w.grants, n, s, []), entries := DropPrefix(w.entries, l.SubjectPrefix(s)))
    case RewrapPass(done) => w.(grants := Handled(w.drive.rows, w.grants, done), entries := DropSubjects(l, w.entries, Activatees(w.drive.rows, w.grants, done)))
    case OnTree(op) =>
      var d := TreeInvariant.Step(w.drive, op);
      w.(drive := d, grants := if op.OpPurge? then Surviving(w.grants, d.rows) else w.grants,
         entries := if Reparents(op) then DropPrefix(w.entries, l.DatasetPrefix(PERMISSION)) else w.entries)
    case PurgeExpired(n) =>
      var d := TreeInvariant.Step(w.drive, OpPurge(n));
      w.(drive := d, grants := Surviving(w.grants, d.rows))
    case Forget(keys) => w.(entries := w.entries - keys)
    case StoreOther(i, tail, value) =>
      if i >= |OTHERS| then w else w.(entries := w.entries[l.DatasetPrefix(OTHERS[i]) + tail := value])
  }

  ghost function Run(l: Labels, w: World, ops: seq<Op>): World
    decreases |ops|
  {
    if ops == [] then w else Run(l, Next(l, w, ops[0]), ops[1..])
  }

  // ----- what a decision depends on

  lemma {:induction false} GrantedSameTree(rows: Rows, rows': Rows, grants: Grants, s: UserId, n: Id)
    requires forall a :: Under(rows', n, a) <==> Under(rows, n, a)
    ensures GrantedOrdinal(rows', grants, s, n) == GrantedOrdinal(rows, grants, s, n)
    decreases |grants|
  {
    hide Under;
    if grants != [] { GrantedSameTree(rows, rows', grants[1..], s, n); }
  }

  lemma {:induction false} GrantedAppend(rows: Rows, grants: Grants, g: Grant, s: UserId, n: Id)
    requires g.subject != s
    ensures GrantedOrdinal(rows, grants + [g], s, n) == GrantedOrdinal(rows, grants, s, n)
    decreases |grants|
  {
    hide Under;
    if grants != [] {
      assert (grants + [g])[1..] == grants[1..] + [g];
      GrantedAppend(rows, grants[1..], g, s, n);
    } else {
      assert grants + [g] == [g] && [g][1..] == [];
    }
  }

  lemma {:induction false} GrantedOthersSettle(rows: Rows, grants: Grants, m: Id, t: UserId, put: Grants, s: UserId, n: Id)
    requires s != t && (put == [] || (|put| == 1 && put[0].subject == t))
    ensures GrantedOrdinal(rows, Settle(grants, m, t, put), s, n) == GrantedOrdinal(rows, grants, s, n)
    decreases |grants|
  {
    hide Under;
    if grants != [] {
      GrantedOthersSettle(rows, grants[1..], m, t, put, s, n);
      var rest := Settle(grants[1..], m, t, put);
      if grants[0].On(m, t) {
        if put == [] { assert put + rest == rest; } else { assert (put + rest)[1..] == rest; }
      } else {
        assert ([grants[0]] + rest)[1..] == rest;
      }
    }
  }

  lemma {:induction false} GrantedSurviving(rows: Rows, rows': Rows, grants: Grants, s: UserId, n: Id)
    requires forall a :: Under(rows', n, a) <==> Under(rows, n, a)
    requires forall a :: Under(rows, n, a) ==> a in rows'
    ensures GrantedOrdinal(rows', Surviving(grants, rows'), s, n) == GrantedOrdinal(rows, grants, s, n)
    decreases |grants|
  {
    hide Under;
    if grants != [] {
      GrantedSurviving(rows, rows', grants[1..], s, n);
      var rest := Surviving(grants[1..], rows');
      if grants[0].node in rows' {
        assert ([grants[0]] + rest)[1..] == rest;
      } else {
        assert [] + rest == rest;
      }
    }
  }

  /** The best ordinal among the grants a pass activates for `s` at `n` or above. */
  ghost function Activated(rows: Rows, grants: Grants, done: set<(Id, UserId)>, s: UserId, n: Id): nat {
    if grants == [] then 0
    else
      var g, rest := grants[0], Activated(rows, grants[1..], done, s, n);
      if g.pending && (g.node, g.subject) in done && g.subject == s && LiveIn(rows, g.node) && Under(rows, n, g.node) then Max(g.role.Ordinal(), rest)
      else rest
  }

  predicate LiveIn(rows: Rows, n: Id) {
    n in rows && rows[n].Live()
  }

  /** A pass can only raise a decision, and by exactly what it activates. */
  lemma {:induction false} GrantedHandled(rows: Rows, grants: Grants, done: set<(Id, UserId)>, s: UserId, n: Id)
    ensures GrantedOrdinal(rows, Handled(rows, grants, done), s, n) == Max(GrantedOrdinal(rows, grants, s, n), Activated(rows, grants, done, s, n))
    decreases |grants|
  {
    hide Under;
    if grants != [] {
      GrantedHandled(rows, grants[1..], done, s, n);
      var rest := Handled(rows, grants[1..], done);
      var g := grants[0];
      assert ([g] + rest)[1..] == rest && ([g.(pending := false)] + rest)[1..] == rest && [] + rest == rest;
    }
  }

  lemma {:induction false} ActivatedForOthers(rows: Rows, grants: Grants, done: set<(Id, UserId)>, s: UserId, n: Id)
    requires s !in Activatees(rows, grants, done)
    ensures Activated(rows, grants, done, s, n) == 0
    decreases |grants|
  {
    hide Under;
    if grants != [] { ActivatedForOthers(rows, grants[1..], done, s, n); }
  }

  lemma PrefixOfKey(l: Labels, s: UserId, n: Id)
    ensures l.SubjectPrefix(s) <= l.Key(s, n) && l.DatasetPrefix(PERMISSION) <= l.Key(s, n)
  {
  }

  // ----- coherence survives every operation

  /** Entries may go; those that stay are unchanged; and decisions about the keys that stay are unchanged. */
  lemma StillCoherent(l: Labels, w: World, w': World)
    requires Coherent(l, w) && w'.drive.WellFormed() && w.drive.nextId <= w'.drive.nextId
    requires forall k <- w'.entries :: k in w.entries && w'.entries[k] == w.entries[k]
    requires forall n <- w'.drive.rows :: n in w.drive.rows || n >= w.drive.nextId
    requires forall s: UserId, n: Id {:trigger l.Key(s, n)} :: n in w'.drive.rows && n in w.drive.rows && l.Key(s, n) in w'.entries ==> Fresh(w', s, n) == Fresh(w, s, n)
    ensures Coherent(l, w')
  {
    hide Drive.WellFormed, Fresh, Labels.Key;
  }

  lemma EmptyIsCoherent(l: Labels, w: World)
    requires w.drive.WellFormed() && forall s: UserId, n: Id {:trigger l.Key(s, n)} :: l.Key(s, n) !in w.entries
    ensures Coherent(l, w)
  {
    hide Drive.WellFormed, Fresh, Labels.Key;
  }

  lemma AskKeeps(l: Labels, w: World, s: UserId, n: Id)
    requires l.Faithful() && Coherent(l, w)
    ensures Coherent(l, Next(l, w, Ask(s, n)))
    ensures n in w.drive.rows ==> Answer(l, w, s, n) == Fresh(w, s, n)
  {
    hide Drive.WellFormed, EffectiveOrdinal, Labels.Key, Labels.Faithful;
    var w' := Next(l, w, Ask(s, n));
    if n in w.drive.rows {
      IdsBelow(w.drive, n);
      forall t: UserId, m: Id | l.Key(t, m) == l.Key(s, n)
        ensures t == s && m == n
      {
        KeyInjective(l, t, m, s, n);
      }
      assert forall t: UserId, m: Id :: l.Key(t, m) in w'.entries ==> l.Key(t, m) == l.Key(s, n) || l.Key(t, m) in w.entries;
    }
  }

  lemma IdsBelow(d: Drive, n: Id)
    requires d.WellFormed() && n in d.rows
    ensures n < d.nextId
  {
    hide Drive.WellFormed;
    Look(d, n);
  }

  lemma GrantKeeps(l: Labels, w: World, n: Id, s: UserId, role: Role, pending: bool)
    requires Coherent(l, w)
    ensures Coherent(l, Next(l, w, GrantRole(n, s, role, pending)))
  {
    hide Drive.WellFormed, GrantedOrdinal, Labels.Key, Labels.SubjectPrefix;
    var w' := Next(l, w, GrantRole(n, s, role, pending));
    var existing := Find(w.grants, n, s);
    FoundOn(w.grants, n, s);
    forall t: UserId, m: Id | m in w'.drive.rows && l.Key(t, m) in w'.entries
      ensures Fresh(w', t, m) == Fresh(w, t, m)
    {
      PrefixOfKey(l, t, m);
      if existing.None? {
        GrantedAppend(w.drive.rows, w.grants, Grant(n, s, role, pending), t, m);
      } else {
        GrantedOthersSettle(w.drive.rows, w.grants, n, s, [existing.value.(role := role)], t, m);
      }
    }
    StillCoherent(l, w, w');
  }

  lemma {:induction false} FoundOn(grants: Grants, n: Id, s: UserId)
    ensures Find(grants, n, s).Some? ==> Find(grants, n, s).value.On(n, s)
    decreases |grants|
  {
    if grants != [] { FoundOn(grants[1..], n, s); }
  }

  lemma RevokeKeepsCache(l: Labels, w: World, n: Id, s: UserId)
    requires Coherent(l, w)
    ensures Coherent(l, Next(l, w, RevokeRole(n, s)))
  {
    hide Drive.WellFormed, GrantedOrdinal, Labels.Key, Labels.SubjectPrefix;
    var w' := Next(l, w, RevokeRole(n, s));
    forall t: UserId, m: Id | m in w'.drive.rows && l.Key(t, m) in w'.entries
      ensures Fresh(w', t, m) == Fresh(w, t, m)
    {
      PrefixOfKey(l, t, m);
      GrantedOthersSettle(w.drive.rows, w.grants, n, s, [], t, m);
    }
    StillCoherent(l, w, w');
  }

  lemma PassKeeps(l: Labels, w: World, done: set<(Id, UserId)>)
    requires Coherent(l, w)
    ensures Coherent(l, Next(l, w, RewrapPass(done)))
  {
    hide Drive.WellFormed, GrantedOrdinal, Labels.Key, Labels.SubjectPrefix, Activatees, Activated;
    var w' := Next(l, w, RewrapPass(done));
    forall t: UserId, m: Id | m in w'.drive.rows && l.Key(t, m) in w'.entries
      ensures Fresh(w', t, m) == Fresh(w, t, m)
    {
      PrefixOfKey(l, t, m);
      GrantedHandled(w.drive.rows, w.grants, done, t, m);
      ActivatedForOthers(w.drive.rows, w.grants, done, t, m);
    }
    StillCoherent(l, w, w');
  }

  lemma FreshLeafSameFresh(d: Drive, row: Row, grants: Grants, s: UserId, n: Id)
    requires d.WellFormed() && n in d.rows
    ensures EffectiveOrdinal(d.rows[d.nextId := row], grants, s, n) == EffectiveOrdinal(d.rows, grants, s, n)
  {
    hide Drive.WellFormed;
    FreshId(d);
    forall k: nat ensures Up(d.rows[d.nextId := row], n, k) == Up(d.rows, n, k) {
      FreshLeafKeepsUp(d, row, n, k);
    }
    SameUpSameUnder(d.rows, d.rows[d.nextId := row], n);
    GrantedSameTree(d.rows, d.rows[d.nextId := row], grants, s, n);
  }

  lemma SameUpSameUnder(rows: Rows, rows': Rows, n: Id)
    requires forall k: nat :: Up(rows', n, k) == Up(rows, n, k)
    ensures forall a :: Under(rows', n, a) <==> Under(rows, n, a)
  {
    forall a: Id
      ensures Under(rows', n, a) <==> Under(rows, n, a)
    {
      if Under(rows, n, a) {
        var k: nat :| Up(rows, n, k) == Some(a);
        assert Up(rows', n, k) == Some(a);
      }
      if Under(rows', n, a) {
        var k: nat :| Up(rows', n, k) == Some(a);
        assert Up(rows, n, k) == Some(a);
      }
    }
  }

  lemma RenameSameFresh(d: Drive, n: Id, name: string, grants: Grants, s: UserId, m: Id)
    requires n in d.rows
    ensures EffectiveOrdinal(d.rows[n := d.rows[n].(name := name)], grants, s, m) == EffectiveOrdinal(d.rows, grants, s, m)
  {
    hide Under;
    SameParentsSameTree(d.rows, d.rows[n := d.rows[n].(name := name)]);
    GrantedSameTree(d.rows, d.rows[n := d.rows[n].(name := name)], grants, s, m);
  }

  /** Steps that add or rename a row leave every existing decision alone. */
  lemma QuietStepSameFresh(d: Drive, op: TreeInvariant.Op, grants: Grants, s: UserId, n: Id)
    requires d.WellFormed() && n in d.rows && !Reparents(op)
    ensures EffectiveOrdinal(TreeInvariant.Step(d, op).rows, grants, s, n) == EffectiveOrdinal(d.rows, grants, s, n)
  {
    hide Drive.WellFormed, EffectiveOrdinal, ValidName, Taken;
    if TreeInvariant.Apply(d, op).Ok? {
      match op
      case OpProvision(u) => FreshLeafSameFresh(d, TreeInvariant.Step(d, op).rows[d.nextId], grants, s, n);
      case OpCreate(p, name, kind, encrypted) => FreshLeafSameFresh(d, TreeInvariant.Step(d, op).rows[d.nextId], grants, s, n);
      case OpRename(m, name) => RenameSameFresh(d, m, name, grants, s, n);
    }
  }

  lemma QuietStepRows(d: Drive, op: TreeInvariant.Op)
    requires d.WellFormed() && !Reparents(op)
    ensures var d' := TreeInvariant.Step(d, op);
            d.nextId <= d'.nextId && forall n <- d'.rows :: n in d.rows || n >= d.nextId
  {
    hide Drive.WellFormed, ValidName, Taken;
  }

  lemma PurgedSameFresh(d: Drive, n: Id, grants: Grants, s: UserId, m: Id)
    requires d.WellFormed() && m in TreeInvariant.Step(d, OpPurge(n)).rows
    ensures var d' := TreeInvariant.Step(d, OpPurge(n));
            m in d.rows && d'.nextId == d.nextId && EffectiveOrdinal(d'.rows, Surviving(grants, d'.rows), s, m) == EffectiveOrdinal(d.rows, grants, s, m)
  {
    hide Drive.WellFormed, Under;
    var d' := TreeInvariant.Step(d, OpPurge(n));
    AcyclicOf(d);
    if Tree.Purge(d, n).Ok? {
      assert d'.rows == map x | x in d.rows && !Under(d.rows, x, n) :: d.rows[x];
      RemoveKeepsTree(d.rows, n);
    }
    forall a | Under(d.rows, m, a)
      ensures a in d'.rows
    {
      AboveInside(d, m, a);
      if Under(d.rows, a, n) { UnderTransitive(d.rows, m, a, n); }
    }
    GrantedSurviving(d.rows, d'.rows, grants, s, m);
  }

  lemma AboveInside(d: Drive, m: Id, a: Id)
    requires d.WellFormed() && m in d.rows && Under(d.rows, m, a)
    ensures a in d.rows
  {
    hide Drive.WellFormed;
    AcyclicOf(d);
    var k: nat :| Up(d.rows, m, k) == Some(a);
    ChainStaysInside(d.rows, m, k);
  }

  lemma TreeOpKeepsCache(l: Labels, w: World, op: TreeInvariant.Op)
    requires Coherent(l, w)
    ensures Coherent(l, Next(l, w, OnTree(op)))
  {
    hide Drive.WellFormed, EffectiveOrdinal, Labels.Key, TreeInvariant.Step, Labels.DatasetPrefix;
    var w' := Next(l, w, OnTree(op));
    StepKeeps(w.drive, op);
    if Reparents(op) {
      forall s: UserId, n: Id
        ensures l.Key(s, n) !in w'.entries
      {
        PrefixOfKey(l, s, n);
      }
      EmptyIsCoherent(l, w');
    } else {
      forall s: UserId, n: Id | n in w.drive.rows
        ensures Fresh(w', s, n) == Fresh(w, s, n)
      {
        QuietStepSameFresh(w.drive, op, w.grants, s, n);
      }
      QuietStepRows(w.drive, op);
      StillCoherent(l, w, w');
    }
  }

  lemma PurgeExpiredKeeps(l: Labels, w: World, n: Id)
    requires Coherent(l, w)
    ensures Coherent(l, Next(l, w, PurgeExpired(n)))
  {
    hide Drive.WellFormed, EffectiveOrdinal, Labels.Key, Surviving, Under;
    var w' := Next(l, w, PurgeExpired(n));
    StepKeeps(w.drive, OpPurge(n));
    forall s: UserId, m: Id | m in w'.drive.rows
      ensures Fresh(w', s, m) == Fresh(w, s, m)
    {
      PurgedSameFresh(w.drive, n, w.grants, s, m);
    }
    StillCoherent(l, w, w');
  }

  lemma OtherKeeps(l: Labels, w: World, i: nat, tail: string, value: nat)
    requires Coherent(l, w)
    ensures Coherent(l, Next(l, w, StoreOther(i, tail, value)))
  {
    hide Drive.WellFormed, EffectiveOrdinal, Labels.Key, Labels.DatasetPrefix;
    if i < |OTHERS| {
      var w' := Next(l, w, StoreOther(i, tail, value));
      forall s: UserId, n: Id
        ensures l.Key(s, n) in w'.entries <==> l.Key(s, n) in w.entries
        ensures l.Key(s, n) in w.entries ==> w'.entries[l.Key(s, n)] == w.entries[l.Key(s, n)]
      {
        OtherDatasetsElsewhere(l, i, tail, s, n);
      }
      assert forall s: UserId, n: Id :: Fresh(w', s, n) == Fresh(w, s, n);
    }
  }

  lemma ForgetKeeps(l: Labels, w: World, keys: set<string>)
    requires Coherent(l, w)
    ensures Coherent(l, Next(l, w, Forget(keys)))
  {
    hide Drive.WellFormed, EffectiveOrdinal, Labels.Key;
    StillCoherent(l, w, Next(l, w, Forget(keys)));
  }

  lemma NextKeeps(l: Labels, w: World, op: Op)
    requires l.Faithful() && Coherent(l, w)
    ensures Coherent(l, Next(l, w, op))
  {
    hide Coherent, Next, Labels.Faithful;
    match op
    case Ask(s, n) => AskKeeps(l, w, s, n);
    case GrantRole(n, s, role, pending) => GrantKeeps(l, w, n, s, role, pending);
    case RevokeRole(n, s) => RevokeKeepsCache(l, w, n, s);
    case RewrapPass(done) => PassKeeps(l, w, done);
    case OnTree(op) => TreeOpKeepsCache(l, w, op);
    case PurgeExpired(n) => PurgeExpiredKeeps(l, w, n);
    case Forget(keys) => ForgetKeeps(l, w, keys);
    case StoreOther(i, tail, value) => OtherKeeps(l, w, i, tail, value);
  }

  lemma {:induction false} RunKeepsCoherent(l: Labels, w: World, ops: seq<Op>)
    requires l.Faithful() && Coherent(l, w)
    ensures Coherent(l, Run(l, w, ops))
    decreases |ops|
  {
    hide Coherent, Next, Labels.Faithful;
    if ops != [] {
      NextKeeps(l, w, ops[0]);
      RunKeepsCoherent(l, Next(l, w, ops[0]), ops[1..]);
    }
  }

  /** In every run from an empty cache, asking about an existing node answers what the rows say now. */
  lemma CacheIsTransparent(l: Labels, d: Drive, grants: Grants, ops: seq<Op>, s: UserId, n: Id)
    requires l.Faithful() && d.WellFormed()
    requires n in Run(l, World(d, grants, map[]), ops).drive.rows
    ensures var w := Run(l, World(d, grants, map[]), ops); Answer(l, w, s, n) == Fresh(w, s, n)
  {
    hide Drive.WellFormed, Run, EffectiveOrdinal, Labels.Key, Labels.Faithful;
    EmptyIsCoherent(l, World(d, grants, map[]));
    RunKeepsCoherent(l, World(d, grants, map[]), ops);
    AskKeeps(l, Run(l, World(d, grants, map[]), ops), s, n);
  }

  // ----- an interrupted pass

  /** A pass that an exception ends after handling `done`: the commits stand, the invalidation is never reached. */
  function Interrupted(w: World, done: set<(Id, UserId)>): World {
    w.(grants := Handled(w.drive.rows, w.grants, done))
  }

  /** Coherence survives an interrupted pass exactly when no cached decision is below a role it activated. */
  lemma InterruptedExactly(l: Labels, w: World, done: set<(Id, UserId)>)
    requires Coherent(l, w)
    ensures Coherent(l, Interrupted(w, done)) <==>
              forall s: UserId, n: Id {:trigger l.Key(s, n)} :: n in w.drive.rows && l.Key(s, n) in w.entries && w.drive.rows[n].owner != s ==>
                w.entries[l.Key(s, n)] >= Activated(w.drive.rows, w.grants, done, s, n)
  {
    hide Drive.WellFormed, GrantedOrdinal, Activated, Labels.Key;
    var w' := Interrupted(w, done);
    forall s: UserId, n: Id | n in w.drive.rows
      ensures Fresh(w', s, n) == if w.drive.rows[n].owner == s then Fresh(w, s, n) else Max(Fresh(w, s, n), Activated(w.drive.rows, w.grants, done, s, n))
    {
      GrantedHandled(w.drive.rows, w.grants, done, s, n);
    }
  }

  /** One user with a root, and a viewer's grant on it still waiting for the job. */
  const SHARED_ROOT := Drive(map[0 := Row(0, Folder, "root", None, None, 0, None, false)], map[0 := 0], 1, 0)
  const WAITING := [Grant(0, 1, Viewer, true)]

  /** So it can fail: a recipient who asked too early keeps being refused after the grant is active. */
  lemma InterruptedCanGoStale(l: Labels)
    requires l.Faithful()
    ensures var w := Next(l, World(SHARED_ROOT, WAITING, map[]), Ask(1, 0));
            && Coherent(l, w)
            && Answer(l, Interrupted(w, {(0, 1)}), 1, 0) == 0
            && Fresh(Interrupted(w, {(0, 1)}), 1, 0) == Viewer.Ordinal()
  {
    hide Labels.Key, Labels.Faithful, Drive.WellFormed;
    EmptyWellFormed();
    StepKeeps(EMPTY, OpProvision(0));
    assert TreeInvariant.Step(EMPTY, OpProvision(0)) == SHARED_ROOT;
    EmptyIsCoherent(l, World(SHARED_ROOT, WAITING, map[]));
    AskKeeps(l, World(SHARED_ROOT, WAITING, map[]), 1, 0);
    assert WAITING[1..] == [];
    UnderSelf(SHARED_ROOT.rows, 0);
    var after := Handled(SHARED_ROOT.rows, WAITING, {(0, 1)});
    assert Handled(SHARED_ROOT.rows, [], {(0, 1)}) == [];
    assert after == [Grant(0, 1, Viewer, false)];
    assert after[1..] == [];
  }

  lemma EmptyWellFormed()
    ensures EMPTY.WellFormed()
  {
  }

  /** A grant handled by the job is exactly what its transaction does to the grant rows. */
  lemma {:induction false} HandledIsSettle(rows: Rows, grants: Grants, g: Grant)
    requires Unique(grants) && g in grants && g.pending
    ensures Handled(rows, grants, {(g.node, g.subject)}) ==
            Settle(grants, g.node, g.subject, if LiveIn(rows, g.node) then [g.(pending := false)] else [])
    decreases |grants|
  {
    var put := if LiveIn(rows, g.node) then [g.(pending := false)] else [];
    SharingTheorems.UniqueTail(grants);
    if grants[0] == g {
      HandledNothing(rows, grants[1..], g.node, g.subject);
      SharingTheorems.SettleAbsent(grants[1..], g.node, g.subject, put);
    } else {
      assert g in grants[1..];
      HandledIsSettle(rows, grants[1..], g);
    }
  }

  lemma {:induction false} HandledNothing(rows: Rows, grants: Grants, n: Id, s: UserId)
    requires forall g <- grants :: !g.On(n, s)
    ensures Handled(rows, grants, {(n, s)}) == grants
    decreases |grants|
  {
    if grants != [] {
      assert grants[0] in grants;
      HandledNothing(rows, grants[1..], n, s);
      assert grants == [grants[0]] + grants[1..];
    }
  }


  lemma {:induction false} HandledTwice(rows: Rows, grants: Grants, a: set<(Id, UserId)>, b: set<(Id, UserId)>)
    ensures Handled(rows, Handled(rows, grants, a), b) == Handled(rows, grants, a + b)
    decreases |grants|
  {
    if grants != [] {
      HandledTwice(rows, grants[1..], a, b);
      var g, rest := grants[0], Handled(rows, grants[1..], a);
      assert ([g] + rest)[1..] == rest && ([g.(pending := false)] + rest)[1..] == rest && [] + rest == rest;
    }
  }

  function Pairs(list: Grants): set<(Id, UserId)> {
    set g | g in list :: (g.node, g.subject)
  }

  /** The grant rows after the first `k` transactions of a pass, all committed, are those with these grants handled. */
  lemma {:induction false} PassIsHandled(x: Shares, k: nat)
    requires Unique(x.grants) && k <= Committed(x, PendingOf(x.grants))
    ensures var list := PendingOf(x.grants)[..k];
            Commit(x, list).grants == Handled(x.vault.books.drive.rows, x.grants, Pairs(list))
    decreases k
  {
    hide Unique, PendingOf, JobStep, Handled;
    var waiting, rows := PendingOf(x.grants), x.vault.books.drive.rows;
    if k == 0 {
      assert Pairs(waiting[..0]) == {};
      NothingHandled(rows, x.grants);
    } else {
      var g := waiting[0];
      SharingTheorems.OldestAdvances(x);
      OneHandled(x, g);
      var next := JobStep(x, g).value;
      PassIsHandled(next, k - 1);
      HandledTwice(rows, x.grants, {(g.node, g.subject)}, Pairs(waiting[1..][..k - 1]));
      assert waiting[..k][1..] == waiting[1..][..k - 1];
      assert waiting[..k] == [g] + waiting[1..][..k - 1];
      assert Pairs(waiting[..k]) == {(g.node, g.subject)} + Pairs(waiting[1..][..k - 1]);
    }
  }

  lemma {:induction false} NothingHandled(rows: Rows, grants: Grants)
    ensures Handled(rows, grants, {}) == grants
    decreases |grants|
  {
    if grants != [] {
      NothingHandled(rows, grants[1..]);
      assert grants == [grants[0]] + grants[1..];
    }
  }

  lemma OneHandled(x: Shares, g: Grant)
    requires Unique(x.grants) && PendingOf(x.grants) != [] && g == PendingOf(x.grants)[0] && JobStep(x, g).Some?
    ensures var x' := JobStep(x, g).value;
            && x'.grants == Handled(x.vault.books.drive.rows, x.grants, {(g.node, g.subject)})
            && x'.vault.books == x.vault.books
  {
    hide Unique, PendingOf, Handled, Settle, RewrapSubtree, FullyRewrapped;
    assert g in PendingOf(x.grants);
    SharingTheorems.PendingIn(x.grants, g);
    HandledIsSettle(x.vault.books.drive.rows, x.grants, g);
    if LiveNode(x.vault.books.drive, g.node) {
      SharingTheorems.RewrapCompletes(x.vault, g.node, g.subject);
      SharingTheorems.RewrapSameBooks(x.vault, g.node, g.subject);
    }
  }

  /** A subject is invalidated exactly when one of the grants handled was theirs and on a live node. */
  lemma {:induction false} ActivateesAre(rows: Rows, grants: Grants, done: set<(Id, UserId)>, s: UserId)
    ensures s in Activatees(rows, grants, done) <==> exists g <- PendingOf(grants) :: g.subject == s && (g.node, g.subject) in done && LiveIn(rows, g.node)
    decreases |grants|
  {
    if grants != [] {
      ActivateesAre(rows, grants[1..], done, s);
      assert PendingOf(grants) == (if grants[0].pending then [grants[0]] else []) + PendingOf(grants[1..]);
    }
  }

  // ----- the services, as they run

  /** The uncached decision: climb to the root, then the best active grant along the way. */
  method ComputeRole(d: Drive, grants: Grants, s: UserId, n: Id) returns (ordinal: nat)
    requires d.WellFormed() && n in d.rows
    ensures ordinal == EffectiveOrdinal(d.rows, grants, s, n)
  {
    hide Drive.WellFormed, Above, Under, Elements;
    var chain := Ancestors(d, n);
    var scope := {n} + Elements(chain);
    ordinal := 0;
    for i := |grants| downto 0
      invariant ordinal == GrantedOrdinal(d.rows, grants[i..], s, n)
    {
      var g := grants[i];
      assert grants[i..][1..] == grants[i + 1..];
      ScopeIs(d, n, g.node);
      if g.subject == s && !g.pending && g.node in scope {
        ordinal := Max(g.role.Ordinal(), ordinal);
      }
    }
    assert grants[0..] == grants;
    if d.rows[n].owner == s {
      ordinal := Owner.Ordinal();
    }
  }

  lemma ScopeIs(d: Drive, n: Id, a: Id)
    requires d.WellFormed() && n in d.rows
    ensures Under(d.rows, n, a) <==> a == n || a in Above(d.rows, n)
  {
    hide Drive.WellFormed, Under;
    UnderSelf(d.rows, n);
    if Under(d.rows, n, a) { AboveInside(d, n, a); }
  }

  class CacheService {
    const labels: Labels
    var entries: Entries

    constructor (labels: Labels)
      ensures this.labels == labels && entries == map[]
    {
      this.labels, entries := labels, map[];
    }

    /** The cached decision, or the computed one, then cached; 0 for no access is cached too. */
    method Permission(d: Drive, grants: Grants, s: UserId, n: Id) returns (ordinal: nat)
      requires d.WellFormed() && n in d.rows
      modifies this`entries
      ensures ordinal == Answer(labels, World(d, grants, old(entries)), s, n)
      ensures World(d, grants, entries) == Next(labels, World(d, grants, old(entries)), Ask(s, n))
    {
      hide Drive.WellFormed, EffectiveOrdinal, Labels.Key;
      var key := labels.Key(s, n);
      if key in entries {
        ordinal := entries[key];
        assert entries == entries[key := ordinal];
      } else {
        ordinal := ComputeRole(d, grants, s, n);
        entries := entries[key := ordinal];
      }
    }

    method InvalidateForSubject(s: UserId)
      modifies this`entries
      ensures entries == DropPrefix(old(entries), labels.SubjectPrefix(s))
      ensures forall n: Id :: labels.Key(s, n) !in entries
    {
      entries := DropPrefix(entries, labels.SubjectPrefix(s));
      forall n: Id ensures labels.Key(s, n) !in entries { PrefixOfKey(labels, s, n); }
    }

    method InvalidateAll()
      modifies this`entries
      ensures entries == DropPrefix(old(entries), labels.DatasetPrefix(PERMISSION))
      ensures forall s: UserId, n: Id :: labels.Key(s, n) !in entries
    {
      entries := DropPrefix(entries, labels.DatasetPrefix(PERMISSION));
      forall s: UserId, n: Id ensures labels.Key(s, n) !in entries { PrefixOfKey(labels, s, n); }
    }
  }
}
