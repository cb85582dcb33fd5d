/** What one call of emptying the trash really destroys, and when that stays within the node budget. */
module Emptying {
  import opened Prelude
  import opened Tree
  import opened TreeInvariant
  import opened Sums
  import opened Ledger
  import opened LedgerInvariant
  import opened Purge
  import opened EmptyTrash

  /** The entries destroyed one after the other, with the totals the call reports. */
  ghost function DestroyAll(h: Holdings, ids: seq<Id>): (Holdings, Purged)
    decreases |ids|
  {
    if ids == [] then (h, NOTHING)
    else if ids[0] !in h.books.drive.rows then DestroyAll(h, ids[1..])
    else
      var (h', rest) := DestroyAll(Destroyed(h, ids[0]), ids[1..]);
      (h', Totals(h.books, Subtree(h.books.drive.rows, ids[0])).Plus(rest))
  }

  /** The entries of an owner, in some order, each once. */
  ghost predicate AreEntries(b: Books, owner: UserId, ids: seq<Id>) {
    Sound(b) && Distinct(ids) && forall n <- ids :: n in Entries(b.drive.rows, owner)
  }

  ghost function Trees(rows: Rows, ids: seq<Id>): seq<nat> {
    seq(|ids|, i requires 0 <= i < |ids| => |Subtree(rows, ids[i])|)
  }

  /** Rows beneath an entry that were trashed on another occasion. */
  ghost function Strays(rows: Rows, n: Id): set<Id>
    requires n in rows
  {
    set m | m in Subtree(rows, n) && m in rows && rows[m].deletedAt != rows[n].deletedAt
  }

  ghost function StrayCounts(rows: Rows, ids: seq<Id>): seq<nat>
    requires forall n <- ids :: n in rows
  {
    seq(|ids|, i requires 0 <= i < |ids| => assert ids[i] in ids; |Strays(rows, ids[i])|)
  }

  // ----- entries do not overlap

  /** Of two nodes a row lies beneath, one lies beneath the other. */
  lemma ChainsMeet(rows: Rows, m: Id, a: Id, b: Id)
    requires Under(rows, m, a) && Under(rows, m, b)
    ensures Under(rows, a, b) || Under(rows, b, a)
  {
    var j: nat :| Up(rows, m, j) == Some(a);
    var k: nat :| Up(rows, m, k) == Some(b);
    if j <= k {
      UpCompose(rows, m, j, k - j);
      assert Up(rows, a, k - j) == Some(b);
    } else {
      UpCompose(rows, m, k, j - k);
      assert Up(rows, b, j - k) == Some(a);
    }
  }

  /** Nothing is beneath an entry and also an entry. */
  lemma NoEntryBeneath(b: Books, owner: UserId, n: Id, e: Id)
    requires Sound(b) && n in Entries(b.drive.rows, owner) && e in Entries(b.drive.rows, owner) && Under(b.drive.rows, e, n)
    ensures e == n
  {
    hide Sound, Under;
    DriveOf(b);
    AcyclicOf(b.drive);
    var rows := b.drive.rows;
    UnderParent(rows, e, n);
    if e != n {
      assert EdgeOk(rows, e);
      UnderTrashed(rows, rows[e].parent.value, n);
    }
  }

  lemma EntriesDisjoint(b: Books, owner: UserId, n: Id, e: Id)
    requires Sound(b) && n in Entries(b.drive.rows, owner) && e in Entries(b.drive.rows, owner) && e != n
    ensures Subtree(b.drive.rows, n) !! Subtree(b.drive.rows, e)
  {
    hide Sound, Under, Entries;
    var rows := b.drive.rows;
    forall m | m in Subtree(rows, n)
      ensures m !in Subtree(rows, e)
    {
      if m in Subtree(rows, e) {
        ChainsMeet(rows, m, n, e);
        if Under(rows, e, n) { NoEntryBeneath(b, owner, n, e); } else { NoEntryBeneath(b, owner, e, n); }
      }
    }
  }

  /** Destroying one entry leaves every other one's subtree as it was. */
  lemma TreesStay(h: Holdings, owner: UserId, n: Id, e: Id)
    requires Sound(h.books) && n in Entries(h.books.drive.rows, owner) && e in Entries(h.books.drive.rows, owner) && e != n
    ensures n in h.books.drive.rows && Subtree(Destroyed(h, n).books.drive.rows, e) == Subtree(h.books.drive.rows, e)
  {
    hide Sound, Under, Subtree, Sums.Total, DownClosed;
    var rows := h.books.drive.rows;
    DriveOf(h.books);
    AcyclicOf(h.books.drive);
    EntriesDisjoint(h.books, owner, n, e);
    SubtreeDownClosed(rows, n);
    SubtreeWithout(rows, Subtree(rows, n), e);
  }

  lemma NextEntries(h: Holdings, owner: UserId, ids: seq<Id>)
    requires AreEntries(h.books, owner, ids) && ids != []
    ensures ids[0] in h.books.drive.rows && AreEntries(Destroyed(h, ids[0]).books, owner, ids[1..])
    ensures PurgeNode(h.books, ids[0]) == Ok(Destroyed(h, ids[0]).books)
  {
    hide Sound, Destroyed, PurgeNode;
    ElementsCons(ids);
    assert ids[0] in ids;
    PurgeOneEntry(h.books, owner, ids[0]);
    DestroyedIsPurgeNode(h, ids[0]);
    forall n | n in ids[1..]
      ensures n in Entries(Destroyed(h, ids[0]).books.drive.rows, owner)
    {
      assert n in Elements(ids[1..]) && n in ids;
    }
  }

  // ----- totals add up

  lemma TotalsUnion(b: Books, s: set<Id>, t: set<Id>)
    requires s + t <= b.drive.rows.Keys && s !! t
    ensures Totals(b, s + t) == Totals(b, s).Plus(Totals(b, t))
  {
    hide Sums.Total, Sizes, VersionsIn;
    SizesKeys(b.drive.rows);
    TotalUnion(Sizes(b.drive.rows), s, t);
    VersionsUnion(b.versions, s, t);
  }

  lemma SizesKeys(rows: Rows)
    ensures Sizes(rows).Keys == rows.Keys
  {
  }

  lemma VersionsUnion(vs: Versions, s: set<Id>, t: set<Id>)
    requires s !! t
    ensures |VersionsIn(vs, s + t)| == |VersionsIn(vs, s)| + |VersionsIn(vs, t)|
  {
    assert VersionsIn(vs, s + t) == VersionsIn(vs, s) + VersionsIn(vs, t);
    assert VersionsIn(vs, s) !! VersionsIn(vs, t);
  }

  lemma TotalsElsewhere(h: Holdings, n: Id, t: set<Id>)
    requires n in h.books.drive.rows && t <= h.books.drive.rows.Keys && t !! Subtree(h.books.drive.rows, n)
    ensures t <= Destroyed(h, n).books.drive.rows.Keys && Totals(Destroyed(h, n).books, t) == Totals(h.books, t)
  {
    hide Sums.Total, Under;
    var b, b' := h.books, Destroyed(h, n).books;
    TotalAgree(Sizes(b.drive.rows), Sizes(b'.drive.rows), t);
    assert VersionsIn(b'.versions, t) == VersionsIn(b.versions, t);
  }

  lemma {:induction false} SameSubtrees(rows: Rows, rows': Rows, ids: seq<Id>)
    requires forall n <- ids :: Subtree(rows', n) == Subtree(rows, n)
    ensures Subtrees(rows', ids) == Subtrees(rows, ids)
    decreases |ids|
  {
    hide Subtree;
    if ids != [] {
      assert ids[0] in ids;
      SameSubtrees(rows, rows', ids[1..]);
    }
  }

  lemma {:induction false} SubtreesDisjoint(rows: Rows, ids: seq<Id>, s: set<Id>)
    requires forall n <- ids :: s !! Subtree(rows, n)
    ensures s !! Subtrees(rows, ids)
    decreases |ids|
  {
    hide Subtree;
    if ids != [] {
      assert ids[0] in ids;
      SubtreesDisjoint(rows, ids[1..], s);
    }
  }

  lemma {:induction false} SubtreesInRows(rows: Rows, ids: seq<Id>)
    ensures Subtrees(rows, ids) <= rows.Keys
    decreases |ids|
  {
    hide Under;
    if ids != [] { SubtreesInRows(rows, ids[1..]); }
  }

  lemma {:induction false} SumCons(a: nat, s: seq<nat>)
    ensures Sum([a] + s) == a + Sum(s)
    decreases |s|
  {
    if s == [] {
      assert [a] + s == [a] && [a][..0] == [];
    } else {
      assert ([a] + s)[..|s|] == [a] + s[..|s| - 1];
      SumCons(a, s[..|s| - 1]);
    }
  }

  /**
   * Destroying entries one by one reports exactly what lay beneath them all, takes exactly those objects, and
   * on the books is the purge the quota theorems are about.
   */
  lemma {:induction false} DestroyAllExact(h: Holdings, owner: UserId, ids: seq<Id>)
    requires AreEntries(h.books, owner, ids)
    ensures var (after, total) := DestroyAll(h, ids);
            var gone := Subtrees(h.books.drive.rows, ids);
            && gone <= h.books.drive.rows.Keys && total == Totals(h.books, gone)
            && total.nodes == Sum(Trees(h.books.drive.rows, ids))
            && after.books == PurgeAll(h.books, ids)
            && after.objects == h.objects - ObjectsOf(h.books.versions, gone)
            && after.books.drive.rows == h.books.drive.rows - gone
    decreases |ids|
  {
    hide Sound, Entries, Subtree, Destroyed, Totals, PurgeNode;
    var rows := h.books.drive.rows;
    SubtreesInRows(rows, ids);
    if ids == [] {
      NothingDestroyed(h);
    } else {
      var n, rest := ids[0], ids[1..];
      NextEntries(h, owner, ids);
      ElementsCons(ids);
      var next := Destroyed(h, n);
      DestroyAllExact(next, owner, rest);
      forall e | e in rest
        ensures Subtree(next.books.drive.rows, e) == Subtree(rows, e) && Subtree(rows, n) !! Subtree(rows, e)
      {
        assert e in Elements(rest) && e in ids && n in ids;
        TreesStay(h, owner, n, e);
        EntriesDisjoint(h.books, owner, n, e);
      }
      SameSubtrees(rows, next.books.drive.rows, rest);
      SubtreesDisjoint(rows, rest, Subtree(rows, n));
      SubtreesInRows(rows, rest);
      DestroyedInRows(h, n);
      TotalsElsewhere(h, n, Subtrees(rows, rest));
      TotalsUnion(h.books, Subtree(rows, n), Subtrees(rows, rest));
      TreesCons(rows, next.books.drive.rows, ids);
      TotalsNodes(h.books, Subtree(rows, n));
      ObjectsAdd(h, n, Subtrees(rows, rest));
      assert rows - Subtree(rows, n) - Subtrees(rows, rest) == rows - Subtrees(rows, ids);
    }
  }

  lemma {:induction false} DestroyOneMore(h: Holdings, ids: seq<Id>, n: Id)
    requires n in DestroyAll(h, ids).0.books.drive.rows
    ensures var (h', total) := DestroyAll(h, ids);
            DestroyAll(h, ids + [n]) == (Destroyed(h', n), total.Plus(Totals(h'.books, Subtree(h'.books.drive.rows, n))))
    decreases |ids|
  {
    hide Destroyed, Totals, Subtree;
    if ids == [] {
      assert ids + [n] == [n] && [n][1..] == [];
      assert DestroyAll(Destroyed(h, n), []) == (Destroyed(h, n), NOTHING);
    } else {
      assert (ids + [n])[1..] == ids[1..] + [n];
      if ids[0] in h.books.drive.rows {
        DestroyOneMore(Destroyed(h, ids[0]), ids[1..], n);
      } else {
        DestroyOneMore(h, ids[1..], n);
      }
    }
  }

  lemma NothingDestroyed(h: Holdings)
    ensures Totals(h.books, {}) == NOTHING && h.objects - ObjectsOf(h.books.versions, {}) == h.objects && h.books.drive.rows - {} == h.books.drive.rows
    ensures Sum(Trees(h.books.drive.rows, [])) == 0
  {
    TotalZero(Sizes(h.books.drive.rows), {});
    assert VersionsIn(h.books.versions, {}) == {};
  }

  lemma TotalsNodes(b: Books, s: set<Id>)
    requires s <= b.drive.rows.Keys
    ensures Totals(b, s).nodes == |s|
  {
    hide Sums.Total;
  }

  lemma DestroyedInRows(h: Holdings, n: Id)
    requires n in h.books.drive.rows
    ensures Destroyed(h, n).books.drive.rows == h.books.drive.rows - Subtree(h.books.drive.rows, n)
    ensures Destroyed(h, n).objects == h.objects - ObjectsOf(h.books.versions, Subtree(h.books.drive.rows, n))
    ensures Destroyed(h, n).books.versions == map x | x in h.books.versions && h.books.versions[x].node !in Subtree(h.books.drive.rows, n) :: h.books.versions[x]
    ensures Subtree(h.books.drive.rows, n) <= h.books.drive.rows.Keys
  {
    hide Sums.Total, Under;
    assert Destroyed(h, n).books.versions == map x | x in h.books.versions && h.books.versions[x].node !in Subtree(h.books.drive.rows, n) :: h.books.versions[x];
  }

  lemma ObjectsAdd(h: Holdings, n: Id, t: set<Id>)
    requires n in h.books.drive.rows && t !! Subtree(h.books.drive.rows, n)
    ensures Destroyed(h, n).objects - ObjectsOf(Destroyed(h, n).books.versions, t) == h.objects - ObjectsOf(h.books.versions, Subtree(h.books.drive.rows, n) + t)
  {
    DestroyedInRows(h, n);
    hide Subtree, Destroyed;
    var vs, gone := h.books.versions, Subtree(h.books.drive.rows, n);
    assert ObjectsOf(vs, gone + t) == ObjectsOf(vs, gone) + ObjectsOf(vs, t);
    ObjectsElsewhere(vs, gone, t);
  }

  lemma ObjectsElsewhere(vs: Versions, gone: set<Id>, t: set<Id>)
    requires t !! gone
    ensures ObjectsOf(map x | x in vs && vs[x].node !in gone :: vs[x], t) == ObjectsOf(vs, t)
  {
    var left := map x | x in vs && vs[x].node !in gone :: vs[x];
    forall key | key in ObjectsOf(vs, t)
      ensures key in ObjectsOf(left, t)
    {
      var x :| x in vs && vs[x].node in t && KeyOf(x, vs[x]) == key;
      assert x in left && left[x] == vs[x];
    }
    forall key | key in ObjectsOf(left, t)
      ensures key in ObjectsOf(vs, t)
    {
      var x :| x in left && left[x].node in t && KeyOf(x, left[x]) == key;
      assert x in vs;
    }
  }

  lemma TreesCons(rows: Rows, rows': Rows, ids: seq<Id>)
    requires ids != [] && forall e <- ids[1..] :: Subtree(rows', e) == Subtree(rows, e)
    ensures Sum(Trees(rows, ids)) == |Subtree(rows, ids[0])| + Sum(Trees(rows', ids[1..]))
  {
    hide Subtree;
    assert Trees(rows, ids) == [|Subtree(rows, ids[0])|] + Trees(rows', ids[1..]);
    SumCons(|Subtree(rows, ids[0])|, Trees(rows', ids[1..]));
  }

  // ----- the budget

  lemma TreeIsBatchAndStrays(rows: Rows, n: Id)
    requires n in rows
    ensures |Subtree(rows, n)| == |BatchUnder(rows, n)| + |Strays(rows, n)|
  {
    hide Under;
    assert Subtree(rows, n) == BatchUnder(rows, n) + Strays(rows, n) && BatchUnder(rows, n) !! Strays(rows, n);
  }

  lemma {:induction false} SumPairwise(a: seq<nat>, b: seq<nat>, c: seq<nat>)
    requires |a| == |b| == |c| && forall i :: 0 <= i < |a| ==> a[i] == b[i] + c[i]
    ensures Sum(a) == Sum(b) + Sum(c)
    decreases |a|
  {
    if a != [] { SumPairwise(a[..|a| - 1], b[..|b| - 1], c[..|c| - 1]); }
  }

  /**
   * An accepted call destroys what it counted against the budget and, besides, every row beneath that was
   * trashed on another occasion. So it stays within the budget exactly when the two together do.
   */
  lemma CallWithinBudgetExactly(h: Holdings, owner: UserId, list: seq<Id>)
    requires Sound(h.books) && OldestFirst(h.books.drive.rows, owner, list)
    ensures (forall n <- list :: n in h.books.drive.rows) && EmptyOnce(h.books, owner, |list|, list).Ok?
    ensures var rows := h.books.drive.rows;
            var r := EmptyOnce(h.books, owner, |list|, list).value;
            var taken := list[..Min(r.purged, |list|)];
            var (after, total) := DestroyAll(h, taken);
            && r.books == after.books
            && Subtrees(rows, taken) <= rows.Keys && total == Totals(h.books, Subtrees(rows, taken))
            && after.objects == h.objects - ObjectsOf(h.books.versions, Subtrees(rows, taken))
            && |rows| - |r.books.drive.rows| == total.nodes == Sum(Costs(rows, taken)) + Sum(StrayCounts(rows, taken))
            && (|rows| - |r.books.drive.rows| <= TRASH_PURGE_NODE_BUDGET <==>
                  Sum(Costs(rows, taken)) + Sum(StrayCounts(rows, taken)) <= TRASH_PURGE_NODE_BUDGET)
  {
    hide Sound, Entries, Subtree, PurgeAll, Spend, Totals, DestroyAll, ObjectsOf, Trees, Costs, StrayCounts, Sum, Subtrees;
    var rows := h.books.drive.rows;
    ListedRows(rows, owner, list);
    EmptyOnceTakesPrefix(h.books, owner, |list|, list);
    var r := EmptyOnce(h.books, owner, |list|, list).value;
    var taken := list[..r.purged];
    TakenAreEntries(h.books, owner, list, r.purged);
    DestroyAllExact(h, owner, taken);
    EmptiedBooks(h.books, owner, list);
    assert forall n <- taken :: n in list;
    CostsAndStrays(rows, taken);
    var gone := Subtrees(rows, taken);
    TotalsNodes(h.books, gone);
    RowsLeft(rows, gone);
  }

  lemma CostsAndStrays(rows: Rows, ids: seq<Id>)
    requires forall n <- ids :: n in rows
    ensures Sum(Trees(rows, ids)) == Sum(Costs(rows, ids)) + Sum(StrayCounts(rows, ids))
  {
    hide Subtree, Strays, BatchUnder, Sum;
    forall i | 0 <= i < |ids|
      ensures Trees(rows, ids)[i] == Costs(rows, ids)[i] + StrayCounts(rows, ids)[i]
    {
      assert ids[i] in ids;
      TreeIsBatchAndStrays(rows, ids[i]);
    }
    SumPairwise(Trees(rows, ids), Costs(rows, ids), StrayCounts(rows, ids));
  }

  lemma RowsLeft(rows: Rows, gone: set<Id>)
    requires gone <= rows.Keys
    ensures |rows| - |rows - gone| == |gone|
  {
    assert rows.Keys == (rows - gone).Keys + gone;
    assert |rows| == |rows.Keys| && |rows - gone| == |(rows - gone).Keys|;
  }

  lemma TakenAreEntries(b: Books, owner: UserId, list: seq<Id>, k: nat)
    requires Sound(b) && OldestFirst(b.drive.rows, owner, list) && k <= |list|
    ensures AreEntries(b, owner, list[..k])
  {
    hide Sound, Entries;
    ListedRows(b.drive.rows, owner, list);
    ElementsSplit(list, k);
    forall n | n in list[..k]
      ensures n in Entries(b.drive.rows, owner)
    {
      assert n in list && n in Elements(list);
    }
  }

  lemma EmptiedBooks(b: Books, owner: UserId, list: seq<Id>)
    requires Sound(b) && OldestFirst(b.drive.rows, owner, list)
    requires EmptyOnce(b, owner, |list|, list).Ok? && EmptyOnce(b, owner, |list|, list).value.purged <= |list|
    ensures EmptyOnce(b, owner, |list|, list).value.books == PurgeAll(b, list[..EmptyOnce(b, owner, |list|, list).value.purged])
  {
    hide Sound, Entries, PurgeAll, Spend;
    ListedRows(b.drive.rows, owner, list);
    var page := list[..Min(TRASH_PURGE_NODE_BUDGET, |list|)];
    var k := Spend(Costs(b.drive.rows, page), 0, 0);
    assert page[..k] == list[..k];
  }

  // ----- a call that destroys more than its budget

  function Gone(parent: Id, stamp: Time): Row {
    Row(0, Folder, "a", Some(parent), Some(stamp), 0, None, false)
  }

  /** The ids 3 to k + 2. */
  function Inner(k: nat): (ids: set<Id>)
    ensures forall n :: n in ids <==> 3 <= n < k + 3
    ensures |ids| == k
  {
    if k == 0 then {} else Inner(k - 1) + {k + 2}
  }

  /** Two entries: folder 1, and folder 2 with `k` folders in it that were each trashed before it. */
  function Wide(k: nat): Rows {
    map n | n in {0, 1, 2} + Inner(k) :: WideRow(k, n)
  }

  function WideRow(k: nat, n: Id): Row {
    if n == 0 then Row(0, Folder, "root", None, None, 0, None, false)
    else if n == 1 then Gone(0, 1)
    else if n == 2 then Gone(0, k + 2)
    else Gone(2, n - 1)
  }

  lemma WideAt(k: nat, n: Id)
    ensures n in Wide(k) <==> n < k + 3
    ensures n in Wide(k) ==> Wide(k)[n] == WideRow(k, n)
  {
  }

  function WideBooks(k: nat): Books {
    Books(Drive(Wide(k), map[0 := 0], k + 3, k + 2), map[], map[0 := Usage(0, 0, 0)], map[0 := 0], 1)
  }

  lemma {:induction false} UpDecreases(rows: Rows, n: Id, j: nat)
    requires forall m <- rows :: rows[m].parent.Some? ==> rows[m].parent.value < m
    ensures Up(rows, n, j).Some? ==> Up(rows, n, j).value <= n && (j > 0 ==> Up(rows, n, j).value < n)
    decreases j
  {
    if j > 0 && n in rows && rows[n].parent.Some? { UpDecreases(rows, rows[n].parent.value, j - 1); }
  }

  lemma WideIsAcyclic(k: nat)
    ensures Acyclic(Wide(k))
  {
    forall n: Id, j: nat | n in Wide(k) && j > 0
      ensures Up(Wide(k), n, j) != Some(n)
    {
      UpDecreases(Wide(k), n, j);
    }
  }

  lemma WideIsWellFormed(k: nat)
    ensures WideBooks(k).drive.WellFormed()
  {
    WideIsAcyclic(k);
    hide Up, Acyclic, Wide, Drive.WellFormed, NamesDistinct;
    var d := WideBooks(k).drive;
    WideAt(k, 0);
    WideAt(k, 2);
    forall n | n in d.rows
      ensures EdgeOk(d.rows, n) && OwnerOk(d.rows, d.roots, n) && RowOk(d, n)
    {
      WideAt(k, n);
    }
    WideNames(k);
    Assemble(d);
  }

  lemma WideNames(k: nat)
    ensures NamesDistinct(Wide(k))
  {
    hide Wide;
    forall m, n | m in Wide(k) && n in Wide(k)
      ensures !Rivals(Wide(k), m, n)
    {
      WideAt(k, m);
      WideAt(k, n);
    }
  }

  lemma WideHasNoFiles(k: nat)
    ensures forall live: bool :: Files(Wide(k), 0, live) == {}
    ensures forall n <- Wide(k) :: Wide(k)[n].current.None? && Wide(k)[n].size == 0
  {
    hide Wide;
    forall n | n in Wide(k)
      ensures Wide(k)[n].kind == Folder && Wide(k)[n].current.None? && Wide(k)[n].size == 0
    {
      WideAt(k, n);
    }
  }

  lemma WideIsSound(k: nat)
    ensures Sound(WideBooks(k))
  {
    hide Drive.WellFormed, Sums.Total, Wide, Files, Sizes;
    WideIsWellFormed(k);
    WideHasNoFiles(k);
    var b := WideBooks(k);
    SizesKeys(b.drive.rows);
    assert History(b, 0) == {};
    TotalZero(Sizes(b.drive.rows), {});
    TotalZero(VersionSizes(b.versions), {});
    assert Balanced(b, 0);
  }

  lemma WideUnder(k: nat, m: Id, e: Id)
    requires m in Wide(k) && (e == 1 || e == 2)
    ensures Under(Wide(k), m, e) <==> m == e || (e == 2 && m >= 3)
  {
    hide Under;
    UnderParent(Wide(k), m, e);
    UnderParent(Wide(k), 0, e);
    UnderParent(Wide(k), 2, e);
  }

  lemma WideTrees(k: nat)
    ensures var rows := Wide(k);
            && 1 in rows && 2 in rows && BatchUnder(rows, 1) == {1} && BatchUnder(rows, 2) == {2} && Strays(rows, 1) == {}
            && Strays(rows, 2) == Inner(k)
  {
    hide Under, Wide;
    WideAt(k, 1);
    WideAt(k, 2);
    forall m | m in Wide(k)
      ensures Wide(k)[m] == WideRow(k, m) && m < k + 3
      ensures Under(Wide(k), m, 1) <==> m == 1
      ensures Under(Wide(k), m, 2) <==> m >= 2
    {
      WideAt(k, m);
      WideUnder(k, m, 1);
      WideUnder(k, m, 2);
    }
    forall m: Id ensures m in Wide(k) <==> m < k + 3 { WideAt(k, m); }
  }

  lemma TwoTaken()
    ensures Spend([1, 1], 0, 0) == 2 && Sum([1, 1]) == 2 && forall k: nat :: Sum([0, k]) == k
  {
    assert Spend([1, 1], 0, 0) == Spend([1, 1], 1, 1) == Spend([1, 1], 2, 2) == 2;
    SumCons(1, [1]);
    SumCons(1, []);
    assert [1, 1] == [1] + [1] && [1] == [1] + [];
    forall k: nat
      ensures Sum([0, k]) == k
    {
      SumCons(0, [k]);
      SumCons(k, []);
      assert [0, k] == [0] + [k] && [k] == [k] + [];
    }
  }

  lemma WideEntries(k: nat)
    ensures OldestFirst(Wide(k), 0, [1, 2])
  {
    assert Entries(Wide(k), 0) == {1, 2} == Elements([1, 2]);
  }

  lemma WideCosts(k: nat)
    ensures 1 in Wide(k) && 2 in Wide(k) && Costs(Wide(k), [1, 2]) == [1, 1] && StrayCounts(Wide(k), [1, 2]) == [0, k]
  {
    hide BatchUnder, Strays, Wide;
    WideTrees(k);
    WideHas(k);
    assert {1} != {} && |{1}| == 1 && |{2}| == 1;
  }

  lemma WideHas(k: nat)
    ensures 1 in Wide(k) && 2 in Wide(k)
  {
  }

  /** Two entries that count as two nodes between them are both taken, and `k` more rows go with them. */
  lemma BudgetIsExceeded(k: nat)
    ensures var b := WideBooks(k);
            && Sound(b) && OldestFirst(b.drive.rows, 0, [1, 2]) && EmptyOnce(b, 0, 2, [1, 2]).Ok?
            && EmptyOnce(b, 0, 2, [1, 2]).value.purged == 2
            && |b.drive.rows| - |EmptyOnce(b, 0, 2, [1, 2]).value.books.drive.rows| == k + 2
  {
    hide Sound, EmptyOnce, OldestFirst, Wide, Spend, Sum, Costs, StrayCounts, Totals, DestroyAll;
    var b := WideBooks(k);
    WideIsSound(k);
    WideEntries(k);
    WideCosts(k);
    TwoTaken();
    CallWithinBudgetExactly(Holdings(b, {}, {}, {}), 0, [1, 2]);
    EmptyOnceTakesPrefix(b, 0, 2, [1, 2]);
    assert [1, 2][..2] == [1, 2];
  }

  /** With a thousand folders in the second, one call destroys 1002 nodes on a budget of 1000, of which it counted two. */
  lemma CallCanExceedBudget()
    ensures var b := WideBooks(1000);
            && Sound(b) && OldestFirst(b.drive.rows, 0, [1, 2]) && EmptyOnce(b, 0, 2, [1, 2]).Ok?
            && |b.drive.rows| - |EmptyOnce(b, 0, 2, [1, 2]).value.books.drive.rows| == 1002 > TRASH_PURGE_NODE_BUDGET
  {
    hide WideBooks, Sound, EmptyOnce, OldestFirst;
    BudgetIsExceeded(1000);
  }
}
