/** The two walks every service makes over the adjacency list: up to the root, and down through a subtree. */
module Walks {
  import opened Prelude
  import opened Tree
  import opened TreeInvariant

  /** Strict ancestors, as a set. */
  ghost function Above(rows: Rows, n: Id): set<Id> {
    set a | a in rows && a != n && Under(rows, n, a)
  }

  lemma StepUp(d: Drive, n: Id)
    requires d.WellFormed() && n in d.rows
    ensures d.rows[n].parent.None? ==> Above(d.rows, n) == {}
    ensures d.rows[n].parent.Some? ==>
              var p := d.rows[n].parent.value;
              p in d.rows && p !in Above(d.rows, p) && Above(d.rows, n) == {p} + Above(d.rows, p) && n !in Above(d.rows, p)
  {
    hide Drive.WellFormed, Under;
    Look(d, n);
    forall a ensures a in Above(d.rows, n) <==> a in d.rows && a != n && d.rows[n].parent.Some? && Under(d.rows, d.rows[n].parent.value, a) {
      UnderParent(d.rows, n, a);
    }
    if d.rows[n].parent.Some? {
      var p := d.rows[n].parent.value;
      UnderSelf(d.rows, p);
      NotUnderChild(d, n);
    }
  }

  lemma NotUnderChild(d: Drive, n: Id)
    requires d.WellFormed() && n in d.rows && d.rows[n].parent.Some?
    ensures d.rows[n].parent.value != n && !Under(d.rows, d.rows[n].parent.value, n)
  {
    hide Drive.WellFormed;
    var p := d.rows[n].parent.value;
    forall k: nat ensures Up(d.rows, p, k) != Some(n) {
      NoWayBack(d, n, k + 1);
    }
    assert Up(d.rows, n, 1) == Up(d.rows, p, 0);
    NoWayBack(d, n, 1);
  }

  /** `chain` lists the ancestors of `n` passed so far, nearest last, and `at` is where the climb stands. */
  ghost predicate Climbing(d: Drive, n: Id, chain: seq<Id>, at: Id) {
    && at in d.rows && Up(d.rows, n, |chain|) == Some(at)
    && Above(d.rows, n) == Elements(chain) + Above(d.rows, at) && |Above(d.rows, n)| == |chain| + |Above(d.rows, at)|
    && forall i :: 0 <= i < |chain| ==> Up(d.rows, n, |chain| - i) == Some(chain[i])
  }

  lemma Climb(d: Drive, n: Id, chain: seq<Id>, at: Id)
    requires d.WellFormed() && Climbing(d, n, chain, at) && d.rows[at].parent.Some?
    ensures var p := d.rows[at].parent.value; Climbing(d, n, [p] + chain, p) && Above(d.rows, p) < Above(d.rows, at)
  {
    hide Drive.WellFormed, Above, Under, Elements;
    StepUp(d, at);
    var p := d.rows[at].parent.value;
    UpCompose(d.rows, n, |chain|, 1);
    assert Up(d.rows, at, 1) == Up(d.rows, p, 0);
    ElementsFront(p, chain);
    assert |{p} + Above(d.rows, p)| == 1 + |Above(d.rows, p)|;
  }

  lemma ElementsFront(p: Id, chain: seq<Id>)
    ensures Elements([p] + chain) == Elements(chain) + {p}
  {
  }

  /** The ancestor chain, root first. The loop ends because chains do not repeat. */
  method Ancestors(d: Drive, n: Id) returns (chain: seq<Id>)
    requires d.WellFormed() && n in d.rows
    ensures Elements(chain) == Above(d.rows, n) && |chain| == |Above(d.rows, n)|
    ensures forall i :: 0 <= i < |chain| ==> Up(d.rows, n, |chain| - i) == Some(chain[i])
  {
    hide Drive.WellFormed, Above, Under, Climbing;
    chain := [];
    var at := n;
    ClimbStart(d, n);
    while d.rows[at].parent.Some?
      invariant at in d.rows && Climbing(d, n, chain, at)
      decreases |Above(d.rows, at)|
    {
      Climb(d, n, chain, at);
      var p := d.rows[at].parent.value;
      StrictlyFewer(Above(d.rows, p), Above(d.rows, at));
      chain := [p] + chain;
      at := p;
      ClimbInside(d, n, chain, at);
    }
    ClimbEnd(d, n, chain, at);
  }

  lemma ClimbStart(d: Drive, n: Id)
    requires n in d.rows
    ensures Climbing(d, n, [], n)
  {
    hide Above;
    NoElements<Id>();
    assert {} + Above(d.rows, n) == Above(d.rows, n);
  }

  lemma ClimbInside(d: Drive, n: Id, chain: seq<Id>, at: Id)
    requires Climbing(d, n, chain, at)
    ensures at in d.rows
  {
  }

  lemma ClimbEnd(d: Drive, n: Id, chain: seq<Id>, at: Id)
    requires d.WellFormed() && Climbing(d, n, chain, at) && d.rows[at].parent.None?
    ensures Elements(chain) == Above(d.rows, n) && |chain| == |Above(d.rows, n)|
    ensures forall i :: 0 <= i < |chain| ==> Up(d.rows, n, |chain| - i) == Some(chain[i])
  {
    hide Drive.WellFormed, Under, Above;
    StepUp(d, at);
    assert Elements(chain) + {} == Elements(chain);
  }

  // ----- down

  predicate Counts(row: Row, deleted: bool) {
    deleted || row.Live()
  }

  /** The subtree of `n`: its live rows, or all of them when `deleted` ones are asked for. */
  ghost function Beneath(rows: Rows, n: Id, deleted: bool): set<Id> {
    set m | m in rows && Counts(rows[m], deleted) && Under(rows, m, n)
  }

  lemma BeneathIs(rows: Rows, n: Id)
    ensures Beneath(rows, n, false) == LiveUnder(rows, n) && Beneath(rows, n, true) == Subtree(rows, n)
  {
    hide Under;
  }

  /** A row of the subtree other than its top hangs from a row of the subtree, and a child of one belongs to it. */
  lemma BeneathStep(d: Drive, n: Id, deleted: bool, m: Id)
    requires d.WellFormed() && m in d.rows && Counts(d.rows[m], deleted)
    ensures m != n && m in Beneath(d.rows, n, deleted) ==> d.rows[m].parent.Some? && d.rows[m].parent.value in Beneath(d.rows, n, deleted)
    ensures d.rows[m].parent.Some? && d.rows[m].parent.value in Beneath(d.rows, n, deleted) ==> m in Beneath(d.rows, n, deleted)
  {
    hide Drive.WellFormed, Under;
    Look(d, m);
    UnderParent(d.rows, m, n);
  }

  function ChildrenOf(rows: Rows, parents: set<Id>, deleted: bool): set<Id> {
    set m | m in rows && Counts(rows[m], deleted) && rows[m].parent.Some? && rows[m].parent.value in parents
  }

  /** Level by level; every level is new because no row is beneath itself. */
  method Descendants(d: Drive, n: Id, deleted: bool) returns (found: set<Id>)
    requires d.WellFormed() && n in d.rows && Counts(d.rows[n], deleted)
    ensures found == Beneath(d.rows, n, deleted)
  {
    hide Drive.WellFormed, Beneath, Under;
    var level := {n};
    found := {n};
    TopIn(d, n, deleted);
    while level != {}
      invariant n in found && level <= found <= Beneath(d.rows, n, deleted)
      invariant forall m <- found :: m in d.rows && (m != n ==> d.rows[m].parent.Some? && d.rows[m].parent.value in found - level)
      invariant ChildrenOf(d.rows, found - level, deleted) <= found
      decreases |Beneath(d.rows, n, deleted) - found| + (if level == {} then 0 else 1)
    {
      var next := ChildrenOf(d.rows, level, deleted);
      forall m | m in next
        ensures m in Beneath(d.rows, n, deleted) && m !in found
      {
        BeneathStep(d, n, deleted, m);
        if m == n { NotUnderChild(d, n); InBeneath(d.rows, d.rows[n].parent.value, n, deleted); }
      }
      if next != {} {
        StrictlyFewer(Beneath(d.rows, n, deleted) - (found + next), Beneath(d.rows, n, deleted) - found);
      } else {
        assert found + next == found;
      }
      assert (found + next) - next == found;
      level := next;
      found := found + next;
    }
    assert found - level == found;
    ClosedIsAll(d, n, deleted, found);
  }

  lemma TopIn(d: Drive, n: Id, deleted: bool)
    requires n in d.rows && Counts(d.rows[n], deleted)
    ensures n in Beneath(d.rows, n, deleted)
  {
    UnderSelf(d.rows, n);
  }

  lemma InBeneath(rows: Rows, m: Id, n: Id, deleted: bool)
    requires m in Beneath(rows, n, deleted)
    ensures m in rows && Under(rows, m, n)
  {
    hide Under;
  }

  /** A set that holds the top and every child of its members holds the whole subtree. */
  lemma ClosedIsAll(d: Drive, n: Id, deleted: bool, found: set<Id>)
    requires d.WellFormed() && n in found && ChildrenOf(d.rows, found, deleted) <= found
    ensures Beneath(d.rows, n, deleted) <= found
  {
    hide Drive.WellFormed;
    forall m | m in Beneath(d.rows, n, deleted)
      ensures m in found
    {
      var k: nat :| Up(d.rows, m, k) == Some(n);
      ClosedReaches(d, n, deleted, found, m, k);
    }
  }

  lemma {:induction false} ClosedReaches(d: Drive, n: Id, deleted: bool, found: set<Id>, m: Id, k: nat)
    requires d.WellFormed() && n in found && ChildrenOf(d.rows, found, deleted) <= found
    requires m in Beneath(d.rows, n, deleted) && Up(d.rows, m, k) == Some(n)
    ensures m in found
    decreases k
  {
    hide Drive.WellFormed, Beneath;
    if k > 0 && m != n {
      InBeneath(d.rows, m, n, deleted);
      BeneathCounts(d.rows, m, n, deleted);
      BeneathStep(d, n, deleted, m);
      ClosedReaches(d, n, deleted, found, d.rows[m].parent.value, k - 1);
      assert m in ChildrenOf(d.rows, found, deleted);
    }
  }

  lemma BeneathCounts(rows: Rows, m: Id, n: Id, deleted: bool)
    requires m in Beneath(rows, n, deleted)
    ensures m in rows && Counts(rows[m], deleted)
  {
    hide Under;
  }

  /** Some order of a set's members, each once. */
  method Listing(s: set<Id>) returns (ids: seq<Id>)
    ensures Elements(ids) == s && Distinct(ids)
  {
    var left := s;
    ids := [];
    while left != {}
      invariant Elements(ids) == s - left && Distinct(ids) && left <= s
      decreases |left|
    {
      var x :| x in left;
      assert x !in Elements(ids);
      left := left - {x};
      assert Elements(ids + [x]) == Elements(ids) + {x};
      ids := ids + [x];
    }
  }
}
