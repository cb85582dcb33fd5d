/** Emptying the trash in bounded calls: whole entries, oldest first, greedily within a node budget. */
module EmptyTrash {
  import opened Prelude
  import opened Tree
  import opened TreeInvariant
  import opened Sums
  import opened Ledger
  import opened LedgerInvariant

  const TRASH_PURGE_NODE_BUDGET := 1000

  // ----- trash entries

  /** A trashed row whose parent is not itself trashed: one per deletion. */
  predicate IsEntry(rows: Rows, owner: UserId, n: Id) {
    && n in rows && rows[n].owner == owner && rows[n].Trashed() && rows[n].parent.Some?
    && !(rows[n].parent.value in rows && rows[rows[n].parent.value].Trashed())
  }

  function Entries(rows: Rows, owner: UserId): set<Id> {
    set n | n in rows && IsEntry(rows, owner, n)
  }

  /** Deletion time, then id. */
  predicate Before(rows: Rows, m: Id, n: Id)
    requires m in rows && n in rows && rows[m].Trashed() && rows[n].Trashed()
  {
    rows[m].deletedAt.value < rows[n].deletedAt.value || (rows[m].deletedAt == rows[n].deletedAt && m < n)
  }

  /** The owner's whole trash in destruction order. */
  ghost predicate OldestFirst(rows: Rows, owner: UserId, list: seq<Id>) {
    && Elements(list) == Entries(rows, owner)
    && (forall i :: 0 <= i < |list| ==> list[i] in rows && rows[list[i]].Trashed())
    && (forall i, j :: 0 <= i < j < |list| ==> Before(rows, list[i], list[j]))
  }

  // ----- greedy selection

  function Sum(costs: seq<nat>): nat {
    if costs == [] then 0 else Sum(costs[..|costs| - 1]) + costs[|costs| - 1]
  }

  /** How many entries the loop destroys, continuing at entry `i` with `spent` already used. */
  function Spend(costs: seq<nat>, i: nat, spent: nat): (k: nat)
    requires i <= |costs|
    ensures i <= k <= |costs|
    decreases |costs| - i
  {
    if i == |costs| || (i > 0 && spent + costs[i] > TRASH_PURGE_NODE_BUDGET) then i
    else Spend(costs, i + 1, spent + costs[i])
  }

  /** The loop of `_spend_purge_budget`, over the costs of the listed entries. */
  method SpendBudget(costs: seq<nat>) returns (destroyed: nat)
    ensures destroyed == Spend(costs, 0, 0)
    ensures costs != [] ==> destroyed >= 1
    ensures destroyed <= 1 || Sum(costs[..destroyed]) <= TRASH_PURGE_NODE_BUDGET
    ensures destroyed < |costs| ==> Sum(costs[..destroyed + 1]) > TRASH_PURGE_NODE_BUDGET
  {
    destroyed := 0;
    var spent := 0;
    while destroyed < |costs|
      invariant destroyed <= |costs| && spent == Sum(costs[..destroyed])
      invariant Spend(costs, destroyed, spent) == Spend(costs, 0, 0)
      invariant destroyed <= 1 || spent <= TRASH_PURGE_NODE_BUDGET
    {
      SumStep(costs, destroyed);
      if destroyed > 0 && spent + costs[destroyed] > TRASH_PURGE_NODE_BUDGET {
        return;
      }
      spent := spent + costs[destroyed];
      destroyed := destroyed + 1;
    }
  }

  lemma SumStep(costs: seq<nat>, k: nat)
    requires k < |costs|
    ensures Sum(costs[..k + 1]) == Sum(costs[..k]) + costs[k]
  {
    assert costs[..k + 1][..k] == costs[..k];
  }

  /** Selection never looks past what it takes, so any page long enough to stop in gives the same answer. */
  lemma {:induction false} SpendOnPage(costs: seq<nat>, page: nat, i: nat, spent: nat)
    requires i <= page <= |costs| && Spend(costs, i, spent) <= page
    ensures Spend(costs[..page], i, spent) == Spend(costs, i, spent)
    decreases |costs| - i
  {
    if i < page && !(i > 0 && spent + costs[i] > TRASH_PURGE_NODE_BUDGET) {
      SpendOnPage(costs, page, i + 1, spent + costs[i]);
    }
  }

  /** With no entry free, the greedy count stays within the budget. */
  lemma {:induction false} SpendBounded(costs: seq<nat>, i: nat, spent: nat)
    requires i <= |costs| && spent >= i && i <= TRASH_PURGE_NODE_BUDGET
    requires forall c <- costs :: c >= 1
    ensures Spend(costs, i, spent) <= TRASH_PURGE_NODE_BUDGET
    decreases |costs| - i
  {
    if i < |costs| && !(i > 0 && spent + costs[i] > TRASH_PURGE_NODE_BUDGET) {
      assert costs[i] in costs;
      SpendBounded(costs, i + 1, spent + costs[i]);
    }
  }

  /** Reading one page of the trash selects exactly what greedy selection over the whole trash would. */
  lemma PageIsEnough(costs: seq<nat>)
    requires forall c <- costs :: c >= 1
    ensures Spend(costs[..Min(TRASH_PURGE_NODE_BUDGET, |costs|)], 0, 0) == Spend(costs, 0, 0)
  {
    SpendBounded(costs, 0, 0);
    SpendOnPage(costs, Min(TRASH_PURGE_NODE_BUDGET, |costs|), 0, 0);
  }

  // ----- one call

  ghost function Costs(rows: Rows, list: seq<Id>): seq<nat>
    requires forall n <- list :: n in rows
  {
    seq(|list|, i requires 0 <= i < |list| => assert list[i] in list; |BatchUnder(rows, list[i])|)
  }

  ghost function PurgeAll(b: Books, ids: seq<Id>): Books
    decreases |ids|
  {
    if ids == [] then b
    else PurgeAll(if PurgeNode(b, ids[0]).Ok? then PurgeNode(b, ids[0]).value else b, ids[1..])
  }

  datatype Emptied = Emptied(books: Books, purged: nat, remaining: nat)

  /** `list` is what the repository lists, oldest first; a stated count other than the held one is refused. */
  ghost function EmptyOnce(b: Books, owner: UserId, expected: int, list: seq<Id>): Result<Emptied, Error>
    requires OldestFirst(b.drive.rows, owner, list)
  {
    var rows := b.drive.rows;
    if |Entries(rows, owner)| != expected then Err(Conflict)
    else
      var page := list[..Min(TRASH_PURGE_NODE_BUDGET, |list|)];
      var k := Spend(Costs(rows, page), 0, 0);
      var after := PurgeAll(b, page[..k]);
      Ok(Emptied(after, k, |Entries(after.drive.rows, owner)|))
  }

  // ----- destroying an entry removes it from the trash and leaves every other entry

  lemma PurgeOneEntry(b: Books, owner: UserId, n: Id)
    requires Sound(b) && n in Entries(b.drive.rows, owner)
    ensures PurgeNode(b, n).Ok? && Sound(PurgeNode(b, n).value)
    ensures Entries(PurgeNode(b, n).value.drive.rows, owner) == Entries(b.drive.rows, owner) - {n}
    ensures forall m :: m in PurgeNode(b, n).value.drive.rows ==> m in b.drive.rows && PurgeNode(b, n).value.drive.rows[m] == b.drive.rows[m]
  {
    hide Sound, Under, Sums.Total, Sizes;
    PurgeNodeKeeps(b, n);
    DriveOf(b);
    var rows, rows' := b.drive.rows, PurgeNode(b, n).value.drive.rows;
    assert n !in rows' by { UnderSelf(rows, n); }
    forall m | m in rows
      ensures m in Entries(rows', owner) <==> m in Entries(rows, owner) && m != n
    {
      if m != n { EntrySurvives(b.drive, owner, n, m); }
    }
  }

  lemma EntrySurvives(d: Drive, owner: UserId, n: Id, m: Id)
    requires d.WellFormed() && n in Entries(d.rows, owner) && m in d.rows && m != n
    ensures var rows' := d.rows - Subtree(d.rows, n);
            IsEntry(rows', owner, m) <==> IsEntry(d.rows, owner, m)
  {
    hide Drive.WellFormed, Under;
    var rows := d.rows;
    Look(d, m);
    UnderParent(rows, m, n);
    if rows[m].parent.Some? {
      var p := rows[m].parent.value;
      if Under(rows, p, n) {
        AcyclicOf(d);
        UnderTrashed(rows, p, n);
      }
    }
  }

  lemma {:induction false} PurgeAllEntries(b: Books, owner: UserId, ids: seq<Id>)
    requires Sound(b) && (forall n <- ids :: n in Entries(b.drive.rows, owner))
    requires Distinct(ids)
    ensures Sound(PurgeAll(b, ids))
    ensures Entries(PurgeAll(b, ids).drive.rows, owner) == Entries(b.drive.rows, owner) - Elements(ids)
    ensures forall m :: m in PurgeAll(b, ids).drive.rows ==> m in b.drive.rows && PurgeAll(b, ids).drive.rows[m] == b.drive.rows[m]
    decreases |ids|
  {
    hide Sound, Entries, PurgeNode;
    if ids != [] {
      ElementsCons(ids);
      PurgeOneEntry(b, owner, ids[0]);
      PurgeAllEntries(PurgeNode(b, ids[0]).value, owner, ids[1..]);
    }
  }

  // ----- the whole call

  lemma CostsPositive(rows: Rows, list: seq<Id>)
    requires forall n <- list :: n in rows
    ensures forall c <- Costs(rows, list) :: c >= 1
  {
    forall i | 0 <= i < |list|
      ensures Costs(rows, list)[i] >= 1
    {
      assert list[i] in list;
      UnderSelf(rows, list[i]);
      assert list[i] in BatchUnder(rows, list[i]);
    }
  }

  lemma ListedRows(rows: Rows, owner: UserId, list: seq<Id>)
    requires OldestFirst(rows, owner, list)
    ensures forall n <- list :: n in rows
    ensures Distinct(list)
    ensures |list| == |Entries(rows, owner)|
  {
    forall i, j | 0 <= i < j < |list|
      ensures list[i] != list[j]
    {
      assert Before(rows, list[i], list[j]);
    }
    DistinctCount(list);
  }

  /**
   * Each accepted call on a non-empty trash destroys a non-empty oldest-first prefix of the entries: one
   * entry, or entries whose batches fit the budget together, and exactly the prefix greedy selection over
   * the whole unpaged trash takes. What remains is the rest of the list, in order, and its count is the
   * confirmed count less what was destroyed.
   */
  lemma EmptyOnceTakesPrefix(b: Books, owner: UserId, expected: int, list: seq<Id>)
    requires Sound(b) && OldestFirst(b.drive.rows, owner, list)
    ensures EmptyOnce(b, owner, expected, list).Ok? <==> expected == |list|
    ensures expected == |list| ==>
              var r := EmptyOnce(b, owner, expected, list).value;
              && (forall n <- list :: n in b.drive.rows)
              && r.purged == Spend(Costs(b.drive.rows, list), 0, 0)
              && (list != [] ==> r.purged >= 1)
              && (r.purged <= 1 || Sum(Costs(b.drive.rows, list)[..r.purged]) <= TRASH_PURGE_NODE_BUDGET)
              && r.purged <= |list| && r.remaining == expected - r.purged
              && Sound(r.books) && OldestFirst(r.books.drive.rows, owner, list[r.purged..])
  {
    hide Sound, Spend, PurgeAll, Entries;
    var rows := b.drive.rows;
    ListedRows(rows, owner, list);
    if expected == |list| {
      var page := list[..Min(TRASH_PURGE_NODE_BUDGET, |list|)];
      var costs := Costs(rows, list);
      CostsPositive(rows, list);
      PageIsEnough(costs);
      assert Costs(rows, page) == costs[..|page|];
      GreedyShape(costs);
      var k := Spend(costs, 0, 0);
      assert page[..k] == list[..k];
      ElementsSplit(list, k);
      PrefixEntries(rows, owner, list, k);
      PurgeAllEntries(b, owner, list[..k]);
      RestOfList(b, owner, list, k);
    }
  }

  lemma GreedyShape(costs: seq<nat>)
    ensures var k := Spend(costs, 0, 0);
            (costs != [] ==> k >= 1) && (k <= 1 || Sum(costs[..k]) <= TRASH_PURGE_NODE_BUDGET)
  {
    GreedyFits(costs, 0);
  }

  lemma {:induction false} GreedyFits(costs: seq<nat>, i: nat)
    requires i <= |costs| && (i <= 1 || Sum(costs[..i]) <= TRASH_PURGE_NODE_BUDGET)
    ensures var k := Spend(costs, i, Sum(costs[..i])); k <= 1 || Sum(costs[..k]) <= TRASH_PURGE_NODE_BUDGET
    decreases |costs| - i
  {
    if i < |costs| && !(i > 0 && Sum(costs[..i]) + costs[i] > TRASH_PURGE_NODE_BUDGET) {
      SumStep(costs, i);
      GreedyFits(costs, i + 1);
    }
  }

  lemma RestOfList(b: Books, owner: UserId, list: seq<Id>, k: nat)
    requires Sound(b) && OldestFirst(b.drive.rows, owner, list) && k <= |list|
    requires Distinct(list)
    ensures OldestFirst(PurgeAll(b, list[..k]).drive.rows, owner, list[k..])
    ensures |Entries(PurgeAll(b, list[..k]).drive.rows, owner)| == |list| - k
  {
    hide Sound, PurgeAll, Entries, Elements, Distinct, OldestFirst;
    var rows, rows' := b.drive.rows, PurgeAll(b, list[..k]).drive.rows;
    ElementsSplit(list, k);
    PrefixEntries(rows, owner, list, k);
    PurgeAllEntries(b, owner, list[..k]);
    RestOrder(rows, rows', owner, list, k);
    DistinctCount(list[k..]);
  }

  lemma PrefixEntries(rows: Rows, owner: UserId, list: seq<Id>, k: nat)
    requires OldestFirst(rows, owner, list) && k <= |list|
    ensures Elements(list) == Entries(rows, owner)
    ensures forall n <- list[..k] :: n in Entries(rows, owner)
  {
    hide Entries;
    forall n | n in list[..k]
      ensures n in list
    {
    }
  }

  lemma RestOrder(rows: Rows, rows': Rows, owner: UserId, list: seq<Id>, k: nat)
    requires OldestFirst(rows, owner, list) && k <= |list|
    requires Entries(rows', owner) == Elements(list[k..])
    requires forall m :: m in rows' ==> m in rows && rows'[m] == rows[m]
    ensures OldestFirst(rows', owner, list[k..])
  {
    var rest := list[k..];
    forall i | 0 <= i < |rest|
      ensures rest[i] in rows' && rows'[rest[i]].Trashed()
    {
      assert rest[i] in Entries(rows', owner);
    }
    forall i, j | 0 <= i < j < |rest|
      ensures Before(rows', rest[i], rest[j])
    {
      assert Before(rows, list[k + i], list[k + j]);
    }
  }

  /** What goes was trashed no later than anything that stays. */
  lemma OldestGoFirst(b: Books, owner: UserId, expected: int, list: seq<Id>, m: Id, n: Id)
    requires Sound(b) && OldestFirst(b.drive.rows, owner, list) && EmptyOnce(b, owner, expected, list).Ok?
    requires var r := EmptyOnce(b, owner, expected, list).value;
             m in list && n in r.books.drive.rows && n in list && m !in r.books.drive.rows
    ensures var rows := b.drive.rows;
            m in rows && n in rows && rows[m].Trashed() && rows[n].Trashed() && rows[m].deletedAt.value <= rows[n].deletedAt.value
  {
    hide Sound, Spend, PurgeAll, Entries;
    EmptyOnceTakesPrefix(b, owner, expected, list);
    var r := EmptyOnce(b, owner, expected, list).value;
    var i :| 0 <= i < |list| && list[i] == m;
    var j :| 0 <= j < |list| && list[j] == n;
    PurgedAreGone(b, owner, list, r.purged);
    var page := list[..Min(TRASH_PURGE_NODE_BUDGET, |list|)];
    ListedRows(b.drive.rows, owner, list);
    assert |Costs(b.drive.rows, page)| == |page|;
    assert page[..r.purged] == list[..r.purged];
    forall k | r.purged <= k < |list|
      ensures list[k] in r.books.drive.rows
    {
      assert list[r.purged..][k - r.purged] == list[k];
    }
    assert i < r.purged <= j;
    assert Before(b.drive.rows, list[i], list[j]);
  }

  lemma PurgedAreGone(b: Books, owner: UserId, list: seq<Id>, k: nat)
    requires Sound(b) && OldestFirst(b.drive.rows, owner, list) && k <= |list|
    ensures forall j :: 0 <= j < k ==> list[j] !in PurgeAll(b, list[..k]).drive.rows
  {
    hide Sound, PurgeAll;
    ListedRows(b.drive.rows, owner, list);
    PrefixEntries(b.drive.rows, owner, list, k);
    PurgeAllEntries(b, owner, list[..k]);
    forall j | 0 <= j < k
      ensures list[j] !in PurgeAll(b, list[..k]).drive.rows
    {
      assert list[..k][j] in Elements(list[..k]) && list[j] in Elements(list);
    }
  }

  // ----- looping on the remaining count

  /** A trash without entries is empty: above every trashed row is one whose parent is not trashed. */
  lemma NoEntriesNoTrash(b: Books, owner: UserId)
    requires Sound(b) && Entries(b.drive.rows, owner) == {}
    ensures forall m <- b.drive.rows :: b.drive.rows[m].owner == owner ==> b.drive.rows[m].Live()
  {
    hide Sound, Drive.WellFormed;
    DriveOf(b);
    forall m | m in b.drive.rows && b.drive.rows[m].owner == owner
      ensures b.drive.rows[m].Live()
    {
      if b.drive.rows[m].Trashed() { var n := EntryAbove(b.drive, m, {}); }
    }
  }

  lemma {:induction false} EntryAbove(d: Drive, m: Id, below: set<Id>) returns (n: Id)
    requires d.WellFormed() && m in d.rows && d.rows[m].Trashed() && below <= d.rows.Keys
    requires forall a <- below :: ClimbsTo(d.rows, a, m)
    ensures n in Entries(d.rows, d.rows[m].owner)
    decreases |d.rows.Keys - below|
  {
    hide Drive.WellFormed, ClimbsTo;
    Look(d, m);
    LookRoot(d, d.rows[m].owner);
    var p := d.rows[m].parent.value;
    if d.rows[p].Trashed() {
      assert m !in below by {
        if m in below { NotItsOwnAncestor(d, m); }
      }
      assert d.rows.Keys - (below + {m}) < d.rows.Keys - below;
      StrictlyFewer(d.rows.Keys - (below + {m}), d.rows.Keys - below);
      forall a | a in below + {m}
        ensures ClimbsTo(d.rows, a, p)
      {
        ClimbOne(d.rows, a, m);
      }
      n := EntryAbove(d, p, below + {m});
    } else {
      n := m;
    }
  }

  /** Calling again with the count the last call reported, at most `calls` times. */
  ghost function EmptyLoop(b: Books, owner: UserId, list: seq<Id>, calls: nat): Books
    requires Sound(b) && OldestFirst(b.drive.rows, owner, list)
    decreases calls
  {
    if calls == 0 then b
    else
      EmptyOnceTakesPrefix(b, owner, |list|, list);
      var r := EmptyOnce(b, owner, |list|, list).value;
      EmptyLoop(r.books, owner, list[r.purged..], calls - 1)
  }

  /** Looping empties the trash in at most as many calls as it first held entries. */
  lemma {:induction false} LoopEmpties(b: Books, owner: UserId, list: seq<Id>, calls: nat)
    requires Sound(b) && OldestFirst(b.drive.rows, owner, list) && calls >= |list|
    ensures Entries(EmptyLoop(b, owner, list, calls).drive.rows, owner) == {}
    ensures var rows := EmptyLoop(b, owner, list, calls).drive.rows; forall m <- rows :: rows[m].owner == owner ==> rows[m].Live()
    decreases calls
  {
    hide Sound, EmptyOnce, OldestFirst, Entries;
    if calls == 0 {
      ListedRows(b.drive.rows, owner, list);
      NoEntriesNoTrash(b, owner);
    } else {
      EmptyOnceTakesPrefix(b, owner, |list|, list);
      var r := EmptyOnce(b, owner, |list|, list).value;
      LoopEmpties(r.books, owner, list[r.purged..], calls - 1);
    }
  }

  /**
   * What a destroyed entry really costs. The budget counts the batch; the purge destroys the whole
   * subtree, which is larger exactly when something beneath was trashed on an earlier occasion.
   */
  lemma BatchUndercounts(b: Books, owner: UserId, n: Id)
    requires Sound(b) && n in Entries(b.drive.rows, owner)
    ensures var rows := b.drive.rows;
            && |BatchUnder(rows, n)| <= |Subtree(rows, n)|
            && (|BatchUnder(rows, n)| == |Subtree(rows, n)| <==>
                  forall m <- Subtree(rows, n) :: rows[m].deletedAt == rows[n].deletedAt)
  {
    hide Sound, Under;
    var rows := b.drive.rows;
    var batch, tree := BatchUnder(rows, n), Subtree(rows, n);
    assert tree == batch + (tree - batch);
    if batch == tree {
    } else {
      assert tree - batch != {};
    }
  }
}
