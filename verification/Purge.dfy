/**
 * The destructive half of deletion. Row deletes cascade to descendants and their version rows, so
 * objects must leave the store before any row goes; these proofs say that the two-pass order makes
 * the result independent of the order in which the subtree is listed.
 */
module Purge {
  import opened Prelude
  import opened Tree
  import opened TreeInvariant
  import opened Sums
  import opened Ledger
  import opened LedgerInvariant

  datatype ObjectKey = ObjectKey(owner: UserId, node: Id, version: Id)

  function KeyOf(x: Id, v: Version): ObjectKey {
    ObjectKey(v.owner, v.node, x)
  }

  /** Everything a purge destroys: rows, versions and quota in `books`, objects, grants and wrapped keys. */
  datatype Holdings = Holdings(books: Books, objects: set<ObjectKey>, grants: set<(Id, string)>, keys: set<(Id, string)>)

  datatype Purged = Purged(bytes: int, objects: int, nodes: int) {
    function Plus(other: Purged): Purged {
      Purged(bytes + other.bytes, objects + other.objects, nodes + other.nodes)
    }
  }

  const NOTHING := Purged(0, 0, 0)

  // ----- the two primitive steps

  /** Destroys everything hanging off one node, but leaves its row. */
  function Strip(h: Holdings, n: Id): (Holdings, Purged) {
    var b := h.books;
    if n !in b.drive.rows then (h, NOTHING)
    else
      var row, own := b.drive.rows[n], VersionsOf(b.versions, n);
      (Holdings(b.(usage := Charge(b, row.owner, UsageOf(b, row.owner).PurgeFromTrash(row.size)), versions := b.versions - own),
                h.objects - (set x | x in own :: KeyOf(x, b.versions[x])),
                set g | g in h.grants && g.0 != n,
                set k | k in h.keys && k.0 != n),
       Purged(row.size, |own|, 1))
  }

  /** Deletes a row; the foreign keys cascade to descendants and to everything that refers to them. */
  ghost function DeleteRow(h: Holdings, n: Id): Holdings {
    WithoutRows(h, Subtree(h.books.drive.rows, n))
  }

  function WithoutRows(h: Holdings, gone: set<Id>): Holdings {
    var b := h.books;
    Holdings(b.(drive := b.drive.(rows := b.drive.rows - gone),
                versions := map x | x in b.versions && b.versions[x].node !in gone :: b.versions[x]),
             h.objects,
             set g | g in h.grants && g.0 !in gone,
             set k | k in h.keys && k.0 !in gone)
  }

  // ----- the two ways of purging

  ghost function PurgeOne(h: Holdings, n: Id): (Holdings, Purged) {
    var (stripped, purged) := Strip(h, n);
    (if purged.nodes != 0 then DeleteRow(stripped, n) else stripped, purged)
  }

  ghost function PurgeEach(h: Holdings, ids: seq<Id>): (Holdings, Purged)
    decreases |ids|
  {
    if ids == [] then (h, NOTHING)
    else
      var (h', purged) := PurgeOne(h, ids[0]);
      var (h'', rest) := PurgeEach(h', ids[1..]);
      (h'', purged.Plus(rest))
  }

  function StripAll(h: Holdings, ids: seq<Id>): (Holdings, Purged)
    decreases |ids|
  {
    if ids == [] then (h, NOTHING)
    else
      var (h', purged) := Strip(h, ids[0]);
      var (h'', rest) := StripAll(h', ids[1..]);
      (h'', purged.Plus(rest))
  }

  ghost function DeleteRows(h: Holdings, ids: seq<Id>): Holdings
    decreases |ids|
  {
    if ids == [] then h else DeleteRows(DeleteRow(h, ids[0]), ids[1..])
  }

  ghost function PurgeSubtree(h: Holdings, ids: seq<Id>, root: Id): (Holdings, Purged) {
    var (stripped, purged) := StripAll(h, ids);
    (DeleteRow(DeleteRows(stripped, ids), root), purged)
  }

  // ----- what both must amount to

  /** The state after stripping the nodes of `s`, all of them `owner`'s. */
  ghost function Stripped(h: Holdings, owner: UserId, s: set<Id>): Holdings
    requires s <= h.books.drive.rows.Keys
  {
    var b := h.books;
    Holdings(b.(usage := if s == {} then b.usage else Charge(b, owner, UsageOf(b, owner).PurgeFromTrash(Sums.Total(Sizes(b.drive.rows), s))),
                versions := map x | x in b.versions && b.versions[x].node !in s :: b.versions[x]),
             h.objects - ObjectsOf(b.versions, s),
             set g | g in h.grants && g.0 !in s,
             set k | k in h.keys && k.0 !in s)
  }

  function VersionsIn(vs: Versions, s: set<Id>): set<Id> {
    set x | x in vs && vs[x].node in s
  }

  function ObjectsOf(vs: Versions, s: set<Id>): set<ObjectKey> {
    set x | x in vs && vs[x].node in s :: KeyOf(x, vs[x])
  }

  /** Exact totals for a set of nodes. */
  ghost function Totals(b: Books, s: set<Id>): Purged
    requires s <= b.drive.rows.Keys
  {
    Purged(Sums.Total(Sizes(b.drive.rows), s), |VersionsIn(b.versions, s)|, |s|)
  }

  /** A whole subtree destroyed: its rows, versions, objects, grants, keys and quota, and nothing else. */
  ghost function Destroyed(h: Holdings, n: Id): Holdings
    requires n in h.books.drive.rows
  {
    var rows := h.books.drive.rows;
    WithoutRows(Stripped(h, rows[n].owner, Subtree(rows, n)), Subtree(rows, n))
  }

  // ----- stripping, in any order

  ghost predicate OwnedBy(h: Holdings, owner: UserId, s: set<Id>) {
    owner in h.books.usage && forall n <- s :: n in h.books.drive.rows && h.books.drive.rows[n].owner == owner
  }

  lemma StripMore(h: Holdings, owner: UserId, s: set<Id>, n: Id)
    requires OwnedBy(h, owner, s + {n}) && n !in s
    ensures Strip(Stripped(h, owner, s), n).0 == Stripped(h, owner, s + {n})
    ensures Totals(h.books, s + {n}) == Totals(h.books, s).Plus(Strip(Stripped(h, owner, s), n).1)
  {
    StripUsage(h, owner, s, n);
    StripRefs(h, owner, s, n);
    StripContent(h, owner, s, n);
    StripTotals(h, owner, s, n);
    hide Stripped, Totals, Sums.Total, Charge, VersionsOf;
    StrippedFields(h, owner, s);
    StrippedFields(h, owner, s + {n});
  }

  /** Stripping changes versions and usage in the books, and nothing else there. */
  lemma StrippedFields(h: Holdings, owner: UserId, s: set<Id>)
    requires s <= h.books.drive.rows.Keys
    ensures var b := Stripped(h, owner, s).books; b == h.books.(versions := b.versions, usage := b.usage)
  {
    hide Sums.Total;
  }

  lemma StripRefs(h: Holdings, owner: UserId, s: set<Id>, n: Id)
    requires OwnedBy(h, owner, s + {n}) && n !in s
    ensures var got, after := Strip(Stripped(h, owner, s), n).0, Stripped(h, owner, s + {n});
            got.grants == after.grants && got.keys == after.keys
  {
    hide Sums.Total, Charge, VersionsOf, ObjectsOf;
    var got, after := Strip(Stripped(h, owner, s), n).0, Stripped(h, owner, s + {n});
    assert got.grants == after.grants;
    assert got.keys == after.keys;
  }

  lemma StripContent(h: Holdings, owner: UserId, s: set<Id>, n: Id)
    requires OwnedBy(h, owner, s + {n}) && n !in s
    ensures var got, after := Strip(Stripped(h, owner, s), n).0, Stripped(h, owner, s + {n});
            got.books.versions == after.books.versions && got.objects == after.objects
  {
    hide Sums.Total, Charge, UsageOf, ObjectsOf;
    StripVersions(h.books.versions, s, n);
    StripObjects(h.books.versions, s, n);
    var got, after := Strip(Stripped(h, owner, s), n).0, Stripped(h, owner, s + {n});
    assert got.books.versions == after.books.versions;
    assert got.objects == after.objects;
  }

  lemma StripObjects(vs: Versions, s: set<Id>, n: Id)
    requires n !in s
    ensures var left := map x | x in vs && vs[x].node !in s :: vs[x];
            && VersionsOf(left, n) == VersionsOf(vs, n)
            && ObjectsOf(vs, s + {n}) == ObjectsOf(vs, s) + (set x | x in VersionsOf(left, n) :: KeyOf(x, left[x]))
  {
    var left := map x | x in vs && vs[x].node !in s :: vs[x];
    assert VersionsOf(left, n) == VersionsOf(vs, n);
    var a, c := ObjectsOf(vs, s + {n}), ObjectsOf(vs, s) + (set x | x in VersionsOf(left, n) :: KeyOf(x, left[x]));
    forall k | k in a
      ensures k in c
    {
      var x :| x in vs && vs[x].node in s + {n} && k == KeyOf(x, vs[x]);
      if vs[x].node == n { assert x in VersionsOf(left, n); }
    }
  }

  lemma StripTotals(h: Holdings, owner: UserId, s: set<Id>, n: Id)
    requires OwnedBy(h, owner, s + {n}) && n !in s
    ensures Totals(h.books, s + {n}) == Totals(h.books, s).Plus(Strip(Stripped(h, owner, s), n).1)
  {
    hide Sums.Total, Charge, UsageOf, ObjectsOf;
    TotalAdd(Sizes(h.books.drive.rows), s, n);
    StripVersions(h.books.versions, s, n);
  }

  lemma StripVersions(vs: Versions, s: set<Id>, n: Id)
    requires n !in s
    ensures var left := map x | x in vs && vs[x].node !in s :: vs[x];
            && VersionsOf(left, n) == VersionsOf(vs, n)
            && |VersionsIn(vs, s + {n})| == |VersionsIn(vs, s)| + |VersionsOf(vs, n)|
  {
    var left := map x | x in vs && vs[x].node !in s :: vs[x];
    assert VersionsOf(left, n) == VersionsOf(vs, n);
    assert VersionsIn(vs, s + {n}) == VersionsIn(vs, s) + VersionsOf(vs, n);
    assert VersionsIn(vs, s) !! VersionsOf(vs, n);
  }

  lemma StripUsage(h: Holdings, owner: UserId, s: set<Id>, n: Id)
    requires OwnedBy(h, owner, s + {n}) && n !in s
    ensures Strip(Stripped(h, owner, s), n).0.books.usage == Stripped(h, owner, s + {n}).books.usage
  {
    hide Sums.Total;
    TotalAdd(Sizes(h.books.drive.rows), s, n);
    if s == {} {
      TotalZero(Sizes(h.books.drive.rows), s);
    }
  }

  /** Stripping a list of further nodes reaches the same state whatever the order. */
  lemma {:induction false} StripAllReaches(h: Holdings, owner: UserId, s: set<Id>, ids: seq<Id>)
    requires OwnedBy(h, owner, s + Elements(ids)) && Distinct(ids) && s !! Elements(ids)
    ensures StripAll(Stripped(h, owner, s), ids).0 == Stripped(h, owner, s + Elements(ids))
    ensures Totals(h.books, s).Plus(StripAll(Stripped(h, owner, s), ids).1) == Totals(h.books, s + Elements(ids))
    decreases |ids|
  {
    hide Stripped, Strip, Totals;
    if ids == [] {
      assert s + Elements(ids) == s;
    } else {
      var n, rest := ids[0], ids[1..];
      assert Elements(ids) == {n} + Elements(rest);
      assert n in s + Elements(ids) && n !in s;
      StripMore(h, owner, s, n);
      assert s + {n} + Elements(rest) == s + Elements(ids);
      StripAllReaches(h, owner, s + {n}, rest);
    }
  }

  lemma StrippedNothing(h: Holdings, owner: UserId)
    ensures Stripped(h, owner, {}) == h && Totals(h.books, {}) == NOTHING
  {
    var h' := Stripped(h, owner, {});
    assert h'.books.versions == h.books.versions;
    assert h'.objects == h.objects && h'.grants == h.grants && h'.keys == h.keys;
    assert VersionsIn(h.books.versions, {}) == {};
    TotalZero(Sizes(h.books.drive.rows), {});
  }

  // ----- deleting rows, in any order

  /** A set of rows that contains everything beneath its members. */
  ghost predicate DownClosed(rows: Rows, s: set<Id>) {
    forall m, n {:trigger Under(rows, m, n)} :: n in s && m in rows && Under(rows, m, n) ==> m in s
  }

  lemma SubtreeDownClosed(rows: Rows, n: Id)
    ensures DownClosed(rows, Subtree(rows, n))
  {
    hide Under;
    forall m, a | a in Subtree(rows, n) && m in rows && Under(rows, m, a)
      ensures m in Subtree(rows, n)
    {
      UnderTransitive(rows, m, a, n);
    }
  }

  lemma {:induction false} UpWithout(rows: Rows, gone: set<Id>, m: Id, k: nat)
    requires EdgesOk(rows) && DownClosed(rows, gone) && m in rows && m !in gone
    ensures Up(rows - gone, m, k) == Up(rows, m, k)
    decreases k
  {
    if k > 0 && rows[m].parent.Some? {
      assert EdgeOk(rows, m);
      ParentAbove(rows, m);
      UpWithout(rows, gone, rows[m].parent.value, k - 1);
    }
  }

  lemma ParentAbove(rows: Rows, m: Id)
    requires m in rows && rows[m].parent.Some?
    ensures Under(rows, m, rows[m].parent.value)
  {
    UnderSelf(rows, rows[m].parent.value);
    UnderParent(rows, m, rows[m].parent.value);
  }

  /** Once a down-closed set is gone, what lies beneath a node is what lay beneath it and is still there. */
  lemma SubtreeWithout(rows: Rows, gone: set<Id>, n: Id)
    requires EdgesOk(rows) && DownClosed(rows, gone)
    ensures Subtree(rows - gone, n) == Subtree(rows, n) - gone
  {
    forall m, k: nat | m in rows - gone
      ensures Up(rows - gone, m, k) == Up(rows, m, k)
    {
      UpWithout(rows, gone, m, k);
    }
    forall m | m in rows - gone
      ensures Under(rows - gone, m, n) <==> Under(rows, m, n)
    {
    }
  }

  lemma DownClosedUnion(rows: Rows, a: set<Id>, b: set<Id>)
    requires DownClosed(rows, a) && DownClosed(rows, b)
    ensures DownClosed(rows, a + b)
  {
  }

  lemma WithoutTwice(h: Holdings, a: set<Id>, b: set<Id>)
    ensures WithoutRows(WithoutRows(h, a), b - a) == WithoutRows(h, a + b)
  {
    var x, y := WithoutRows(WithoutRows(h, a), b - a), WithoutRows(h, a + b);
    assert x.books.drive.rows == y.books.drive.rows;
    assert x.books.versions == y.books.versions;
    assert x.grants == y.grants && x.keys == y.keys;
  }

  lemma DeleteMore(h: Holdings, gone: set<Id>, n: Id)
    requires EdgesOk(h.books.drive.rows) && DownClosed(h.books.drive.rows, gone)
    ensures DeleteRow(WithoutRows(h, gone), n) == WithoutRows(h, gone + Subtree(h.books.drive.rows, n))
    ensures DownClosed(h.books.drive.rows, gone + Subtree(h.books.drive.rows, n))
  {
    hide Subtree, DownClosed;
    var rows := h.books.drive.rows;
    SubtreeWithout(rows, gone, n);
    WithoutTwice(h, gone, Subtree(rows, n));
    SubtreeDownClosed(rows, n);
    DownClosedUnion(rows, gone, Subtree(rows, n));
  }

  ghost function Subtrees(rows: Rows, ids: seq<Id>): set<Id> {
    if ids == [] then {} else Subtree(rows, ids[0]) + Subtrees(rows, ids[1..])
  }

  lemma {:induction false} DeleteRowsReaches(h: Holdings, gone: set<Id>, ids: seq<Id>)
    requires EdgesOk(h.books.drive.rows) && DownClosed(h.books.drive.rows, gone)
    ensures DeleteRows(WithoutRows(h, gone), ids) == WithoutRows(h, gone + Subtrees(h.books.drive.rows, ids))
    ensures DownClosed(h.books.drive.rows, gone + Subtrees(h.books.drive.rows, ids))
    decreases |ids|
  {
    hide WithoutRows, DeleteRow, DownClosed, Subtree, EdgesOk;
    var rows := h.books.drive.rows;
    if ids == [] {
      assert gone + Subtrees(rows, ids) == gone;
    } else {
      DeleteMore(h, gone, ids[0]);
      var more := gone + Subtree(rows, ids[0]);
      DeleteRowsReaches(h, more, ids[1..]);
      assert more + Subtrees(rows, ids[1..]) == gone + Subtrees(rows, ids);
    }
  }

  lemma {:induction false} SubtreesOf(rows: Rows, ids: seq<Id>, n: Id)
    requires Elements(ids) <= Subtree(rows, n)
    ensures Elements(ids) <= Subtrees(rows, ids) <= Subtree(rows, n)
    decreases |ids|
  {
    hide Under;
    if ids != [] {
      assert Elements(ids) == {ids[0]} + Elements(ids[1..]);
      SubtreesOf(rows, ids[1..], n);
      UnderSelf(rows, ids[0]);
      forall m | m in Subtree(rows, ids[0])
        ensures m in Subtree(rows, n)
      {
        UnderTransitive(rows, m, ids[0], n);
      }
    }
  }

  // ----- the theorems

  /** What the purge of a trashed node is given: sound books, and the subtree listed once each, in some order. */
  ghost predicate Listed(h: Holdings, n: Id, ids: seq<Id>) {
    && Sound(h.books) && n in h.books.drive.rows && h.books.drive.rows[n].Trashed()
    && Distinct(ids) && Elements(ids) == Subtree(h.books.drive.rows, n)
  }

  lemma ListedIsOwned(h: Holdings, n: Id)
    requires Sound(h.books) && n in h.books.drive.rows
    ensures OwnedBy(h, h.books.drive.rows[n].owner, Subtree(h.books.drive.rows, n)) && EdgesOk(h.books.drive.rows)
  {
    hide Drive.WellFormed, Balanced, Under;
    var rows, owner := h.books.drive.rows, h.books.drive.rows[n].owner;
    DriveOf(h.books);
    AcyclicOf(h.books.drive);
    OwnerIsUser(h.books, n);
    assert owner in h.books.usage by { See(h.books, owner); HasUsage(h.books, owner); }
    forall m | m in Subtree(rows, n)
      ensures rows[m].owner == owner
    {
      UnderSameOwner(h.books.drive, m, n);
    }
  }

  /**
   * For every order of `ids`: the subtree is destroyed completely, its objects included, the totals are
   * exact, and nothing outside is touched.
   */
  lemma PurgeSubtreeDestroys(h: Holdings, n: Id, ids: seq<Id>)
    requires Listed(h, n, ids)
    ensures PurgeSubtree(h, ids, n) == (Destroyed(h, n), Totals(h.books, Subtree(h.books.drive.rows, n)))
  {
    hide Stripped, Totals, StripAll, WithoutRows, DeleteRow, Sound, DownClosed;
    var rows, owner := h.books.drive.rows, h.books.drive.rows[n].owner;
    var tree := Subtree(rows, n);
    ListedIsOwned(h, n);
    StrippedNothing(h, owner);
    assert {} + Elements(ids) == tree;
    StripAllReaches(h, owner, {}, ids);
    var stripped := Stripped(h, owner, tree);
    StrippedFields(h, owner, tree);
    WithoutNothing(stripped);
    NothingDownClosed(rows);
    DeleteRowsReaches(stripped, {}, ids);
    SubtreesOf(rows, ids, n);
    assert {} + Subtrees(rows, ids) == tree;
    DeleteMore(stripped, tree, n);
    assert tree + tree == tree;
  }

  lemma WithoutNothing(h: Holdings)
    ensures WithoutRows(h, {}) == h
  {
    var h' := WithoutRows(h, {});
    assert h'.books.drive.rows == h.books.drive.rows && h'.books.versions == h.books.versions;
    assert h'.grants == h.grants && h'.keys == h.keys;
  }

  lemma NothingDownClosed(rows: Rows)
    ensures DownClosed(rows, {})
  {
  }

  /** `ids` is a deepest-first order: nothing listed later lies beneath something listed earlier. */
  ghost predicate DeepestFirst(rows: Rows, ids: seq<Id>) {
    forall i, j :: 0 <= i < j < |ids| ==> !Under(rows, ids[j], ids[i])
  }

  /** State half way through a deepest-first run of `purge_one`. */
  ghost function HalfPurged(h: Holdings, owner: UserId, s: set<Id>): Holdings
    requires s <= h.books.drive.rows.Keys
  {
    WithoutRows(Stripped(h, owner, s), s)
  }

  lemma StripThenRemove(h: Holdings, s: set<Id>, n: Id)
    requires n in h.books.drive.rows && n !in s
    requires forall x <- h.books.versions :: h.books.versions[x].node !in s
    ensures Strip(WithoutRows(h, s), n) == (WithoutRows(Strip(h, n).0, s), Strip(h, n).1)
  {
    var a, b := Strip(WithoutRows(h, s), n).0, WithoutRows(Strip(h, n).0, s);
    assert WithoutRows(h, s).books.versions == h.books.versions;
    assert a.books.versions == b.books.versions;
    assert a.grants == b.grants;
    assert a.keys == b.keys;
    assert a.books.usage == b.books.usage;
  }

  lemma PurgeOneMore(h: Holdings, owner: UserId, s: set<Id>, n: Id)
    requires OwnedBy(h, owner, s + {n}) && n !in s && EdgesOk(h.books.drive.rows)
    requires DownClosed(h.books.drive.rows, s) && Subtree(h.books.drive.rows, n) <= s + {n}
    ensures PurgeOne(HalfPurged(h, owner, s), n).0 == HalfPurged(h, owner, s + {n})
    ensures Totals(h.books, s + {n}) == Totals(h.books, s).Plus(PurgeOne(HalfPurged(h, owner, s), n).1)
    ensures DownClosed(h.books.drive.rows, s + {n})
  {
    hide Totals, DownClosed, Subtree, EdgesOk;
    var rows := h.books.drive.rows;
    var before := Stripped(h, owner, s);
    StrippedFields(h, owner, s);
    StrippedFields(h, owner, s + {n});
    StripMore(h, owner, s, n);
    StripThenRemove(before, s, n);
    hide Stripped, WithoutRows;
    DeleteMore(Stripped(h, owner, s + {n}), s, n);
    SelfInSubtree(rows, n);
    assert s + Subtree(rows, n) == s + {n};
    assert Strip(HalfPurged(h, owner, s), n).1.nodes == 1 by { HalfHas(h, owner, s, n); }
  }

  lemma SelfInSubtree(rows: Rows, n: Id)
    requires n in rows
    ensures n in Subtree(rows, n)
  {
    UnderSelf(rows, n);
  }

  lemma HalfHas(h: Holdings, owner: UserId, s: set<Id>, n: Id)
    requires s <= h.books.drive.rows.Keys && n in h.books.drive.rows && n !in s
    ensures Strip(HalfPurged(h, owner, s), n).1.nodes == 1
  {
    hide Sums.Total;
  }

  /** `purge_one`, run deepest first, destroys exactly the same and counts exactly the same. */
  lemma {:induction false} PurgeEachReaches(h: Holdings, owner: UserId, s: set<Id>, ids: seq<Id>)
    requires OwnedBy(h, owner, s + Elements(ids)) && Distinct(ids) && s !! Elements(ids) && EdgesOk(h.books.drive.rows)
    requires DownClosed(h.books.drive.rows, s) && DownClosed(h.books.drive.rows, s + Elements(ids))
    requires DeepestFirst(h.books.drive.rows, ids)
    ensures PurgeEach(HalfPurged(h, owner, s), ids).0 == HalfPurged(h, owner, s + Elements(ids))
    ensures Totals(h.books, s).Plus(PurgeEach(HalfPurged(h, owner, s), ids).1) == Totals(h.books, s + Elements(ids))
    decreases |ids|
  {
    hide HalfPurged, PurgeOne, Totals, DownClosed, EdgesOk;
    if ids == [] {
      assert s + Elements(ids) == s;
    } else {
      var n, rest := ids[0], ids[1..];
      assert Elements(ids) == {n} + Elements(rest);
      assert n in s + Elements(ids);
      NextIsLeaf(h.books.drive.rows, s, ids);
      PurgeOneMore(h, owner, s, n);
      assert s + {n} + Elements(rest) == s + Elements(ids);
      PurgeEachReaches(h, owner, s + {n}, rest);
    }
  }

  lemma NextIsLeaf(rows: Rows, s: set<Id>, ids: seq<Id>)
    requires ids != [] && DownClosed(rows, s + Elements(ids)) && DeepestFirst(rows, ids)
    ensures Subtree(rows, ids[0]) <= s + {ids[0]}
  {
    hide Under;
    forall m | m in Subtree(rows, ids[0])
      ensures m in s + {ids[0]}
    {
      assert ids[0] in Elements(ids);
      assert m in s + Elements(ids);
      if m in Elements(ids) {
        var j :| 0 <= j < |ids| && ids[j] == m;
      }
    }
  }

  lemma PurgeOneDeepestFirst(h: Holdings, n: Id, ids: seq<Id>, ids': seq<Id>)
    requires Listed(h, n, ids) && Listed(h, n, ids') && DeepestFirst(h.books.drive.rows, ids')
    ensures PurgeSubtree(h, ids, n) == PurgeEach(h, ids')
  {
    hide Stripped, Totals, WithoutRows, Sound, DownClosed, PurgeEach, PurgeSubtree, EdgesOk;
    var rows, owner := h.books.drive.rows, h.books.drive.rows[n].owner;
    PurgeSubtreeDestroys(h, n, ids);
    ListedIsOwned(h, n);
    StrippedNothing(h, owner);
    WithoutNothing(h);
    NothingDownClosed(rows);
    SubtreeDownClosed(rows, n);
    assert {} + Elements(ids') == Subtree(rows, n);
    PurgeEachReaches(h, owner, {}, ids');
  }

  /** Seen from the books alone, destroying the subtree is `PurgeNode`. */
  lemma DestroyedIsPurgeNode(h: Holdings, n: Id)
    requires n in h.books.drive.rows && h.books.drive.rows[n].Trashed()
    ensures PurgeNode(h.books, n) == Ok(Destroyed(h, n).books)
  {
    hide Sums.Total, Under;
    SelfInSubtree(h.books.drive.rows, n);
    assert PurgeNode(h.books, n).value.versions == Destroyed(h, n).books.versions;
  }

  /** Every object of the subtree's versions is out of the store; every other object is still there. */
  lemma NoObjectLeftBehind(h: Holdings, n: Id, ids: seq<Id>, x: Id)
    requires Listed(h, n, ids) && x in h.books.versions
    ensures var key, after := KeyOf(x, h.books.versions[x]), PurgeSubtree(h, ids, n).0;
            if h.books.versions[x].node in Subtree(h.books.drive.rows, n) then key !in after.objects && x !in after.books.versions
            else (key in after.objects <==> key in h.objects) && x in after.books.versions
  {
    hide Sums.Total, Sound, PurgeSubtree, Subtree;
    PurgeSubtreeDestroys(h, n, ids);
  }
}
