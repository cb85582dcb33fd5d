/** Grandfather-father-son retention of backups. The calendar is a parameter: any grouping of times into periods will do. */
module Retention {
  import opened Prelude
  import opened Tree

  datatype State = Running | Verified | Failed

  datatype Backup = Backup(id: Id, state: State, started: Time, finished: Option<Time>)

  /** The period a time falls in, for each of the three groupings. */
  datatype Calendar = Calendar(day: Time -> int, week: Time -> int, month: Time -> int)

  datatype Policy = Policy(calendar: Calendar, daily: int, weekly: int, monthly: int, grace: int)

  datatype Decision = Decision(keep: seq<Id>, delete: seq<Id>, protectedLast: bool)

  // ----- newest first

  predicate Counts(b: Backup) {
    b.state == Verified && b.finished.Some?
  }

  predicate AllCount(bs: seq<Backup>) {
    forall i :: 0 <= i < |bs| ==> Counts(bs[i])
  }

  function VerifiedOf(bs: seq<Backup>): (r: seq<Backup>)
    ensures AllCount(r)
  {
    if bs == [] then []
    else
      var rest := VerifiedOf(bs[1..]);
      if Counts(bs[0]) then [bs[0]] + rest else rest
  }

  ghost predicate NewestFirst(bs: seq<Backup>) {
    AllCount(bs) && forall i, j :: 0 <= i < j < |bs| ==> bs[i].finished.value >= bs[j].finished.value
  }

  /** Placed ahead of its equals: the sort is stable. */
  function Insert(b: Backup, bs: seq<Backup>): (r: seq<Backup>)
    requires Counts(b) && AllCount(bs)
    ensures AllCount(r)
  {
    if bs == [] || b.finished.value >= bs[0].finished.value then [b] + bs
    else
      var rest := Insert(b, bs[1..]);
      [bs[0]] + rest
  }

  function Sorted(bs: seq<Backup>): (r: seq<Backup>)
    requires AllCount(bs)
    ensures AllCount(r)
  {
    if bs == [] then [] else Insert(bs[0], Sorted(bs[1..]))
  }

  // ----- buckets

  /** The newest record of each of the first `count` periods met, `seen` of them met before. */
  function Bucket(bs: seq<Backup>, period: Time -> int, seen: set<int>, count: int): set<Id>
    requires AllCount(bs)
    decreases |bs|
  {
    if bs == [] then {}
    else
      var key := period(bs[0].finished.value);
      if key in seen then Bucket(bs[1..], period, seen, count)
      else if |seen| >= count then {}
      else {bs[0].id} + Bucket(bs[1..], period, seen + {key}, count)
  }

  function Selected(bs: seq<Backup>, p: Policy): set<Id>
    requires AllCount(bs)
  {
    Bucket(bs, p.calendar.day, {}, p.daily) + Bucket(bs, p.calendar.week, {}, p.weekly) + Bucket(bs, p.calendar.month, {}, p.monthly)
  }

  function Protects(bs: seq<Backup>, p: Policy): bool
    requires AllCount(bs)
  {
    bs != [] && bs[0].id !in Selected(bs, p)
  }

  /** What is kept of a history, newest first. */
  function Keep(bs: seq<Backup>, p: Policy): set<Id>
    requires AllCount(bs)
  {
    Selected(bs, p) + if Protects(bs, p) then {bs[0].id} else {}
  }

  function IdsIn(bs: seq<Backup>, ids: set<Id>): seq<Id> {
    if bs == [] then [] else (if bs[0].id in ids then [bs[0].id] else []) + IdsIn(bs[1..], ids)
  }

  function IdsOutside(bs: seq<Backup>, ids: set<Id>): seq<Id> {
    if bs == [] then [] else (if bs[0].id in ids then [] else [bs[0].id]) + IdsOutside(bs[1..], ids)
  }

  predicate Expired(b: Backup, now: Time, grace: int) {
    b.state == Failed && now as int - (if b.finished.Some? then b.finished.value else b.started) >= grace
  }

  function ExpiredIds(bs: seq<Backup>, now: Time, grace: int): seq<Id> {
    if bs == [] then [] else (if Expired(bs[0], now, grace) then [bs[0].id] else []) + ExpiredIds(bs[1..], now, grace)
  }

  function Decide(bs: seq<Backup>, p: Policy, now: Time): Decision {
    var verified := Sorted(VerifiedOf(bs));
    var keep := Keep(verified, p);
    Decision(IdsIn(verified, keep), IdsOutside(verified, keep) + ExpiredIds(bs, now, p.grace), Protects(verified, p))
  }

  // ----- as the code runs it

  method BucketIds(bs: seq<Backup>, period: Time -> int, count: int) returns (kept: set<Id>)
    requires AllCount(bs)
    ensures kept == Bucket(bs, period, {}, count)
  {
    kept := {};
    var seen: set<int> := {};
    for i := 0 to |bs|
      invariant kept + Bucket(bs[i..], period, seen, count) == Bucket(bs, period, {}, count)
    {
      assert bs[i..][0] == bs[i] && bs[i..][1..] == bs[i + 1..];
      var key := period(bs[i].finished.value);
      if key !in seen {
        if |seen| >= count { return; }
        seen := seen + {key};
        kept := kept + {bs[i].id};
      }
    }
  }

  method ExpiredFailedIds(bs: seq<Backup>, now: Time, grace: int) returns (expired: seq<Id>)
    ensures expired == ExpiredIds(bs, now, grace)
  {
    expired := [];
    for i := 0 to |bs|
      invariant expired + ExpiredIds(bs[i..], now, grace) == ExpiredIds(bs, now, grace)
    {
      assert bs[i..][0] == bs[i] && bs[i..][1..] == bs[i + 1..];
      if Expired(bs[i], now, grace) {
        expired := expired + [bs[i].id];
      }
    }
  }

  method DecideRetention(bs: seq<Backup>, p: Policy, now: Time) returns (decision: Decision)
    ensures decision == Decide(bs, p, now)
    ensures OneEach(bs) ==> forall b <- bs :: Counts(b) ==> (b.id in decision.keep <==> IsKept(bs, b, p))
  {
    hide IsKept, Bucket, IdsIn, IdsOutside, ExpiredIds, Sorted, VerifiedOf;
    var verified := Sorted(VerifiedOf(bs));
    var keep := BucketIds(verified, p.calendar.day, p.daily);
    var weekly := BucketIds(verified, p.calendar.week, p.weekly);
    keep := keep + weekly;
    var monthly := BucketIds(verified, p.calendar.month, p.monthly);
    keep := keep + monthly;
    var protectedLast := false;
    if verified != [] && verified[0].id !in keep {
      keep := keep + {verified[0].id};
      protectedLast := true;
    }
    assert keep == Keep(verified, p);
    var expired := ExpiredFailedIds(bs, now, p.grace);
    decision := Decision(IdsIn(verified, keep), IdsOutside(verified, keep) + expired, protectedLast);
    forall b | OneEach(bs) && b in bs && Counts(b)
      ensures b.id in decision.keep <==> IsKept(bs, b, p)
    {
      KeptExactly(bs, p, now, b);
    }
  }

  // ----- sorting

  lemma {:induction false} InsertMembers(b: Backup, bs: seq<Backup>)
    requires Counts(b) && AllCount(bs)
    ensures multiset(Insert(b, bs)) == multiset(bs) + multiset{b}
    decreases |bs|
  {
    if bs != [] {
      assert bs == [bs[0]] + bs[1..];
      InsertMembers(b, bs[1..]);
    }
  }

  lemma {:induction false} InsertSorts(b: Backup, bs: seq<Backup>)
    requires Counts(b) && NewestFirst(bs)
    ensures NewestFirst(Insert(b, bs))
    decreases |bs|
  {
    if bs != [] && b.finished.value < bs[0].finished.value {
      var tail := bs[1..];
      assert forall i :: 0 <= i < |tail| ==> tail[i] == bs[i + 1];
      InsertSorts(b, tail);
      InsertMembers(b, tail);
      var rest := Insert(b, tail);
      forall j | 0 <= j < |rest|
        ensures bs[0].finished.value >= rest[j].finished.value
      {
        assert rest[j] in multiset(rest);
        assert rest[j] == b || rest[j] in tail;
      }
    }
  }

  lemma {:induction false} SortSorts(bs: seq<Backup>)
    requires AllCount(bs)
    ensures NewestFirst(Sorted(bs)) && multiset(Sorted(bs)) == multiset(bs)
    decreases |bs|
  {
    if bs != [] {
      assert bs == [bs[0]] + bs[1..];
      SortSorts(bs[1..]);
      InsertSorts(bs[0], Sorted(bs[1..]));
      InsertMembers(bs[0], Sorted(bs[1..]));
    }
  }

  // ----- facts about one bucket

  lemma FullBucketIsEmpty(bs: seq<Backup>, period: Time -> int, seen: set<int>, count: int)
    requires AllCount(bs) && |seen| >= count
    ensures Bucket(bs, period, seen, count) == {}
    decreases |bs|
  {
    if bs != [] { FullBucketIsEmpty(bs[1..], period, seen, count); }
  }

  /** Having met more periods before can only shrink what is kept. */
  lemma {:induction false} SeenShrinks(bs: seq<Backup>, period: Time -> int, few: set<int>, many: set<int>, count: int)
    requires AllCount(bs) && few <= many
    ensures Bucket(bs, period, many, count) <= Bucket(bs, period, few, count)
    decreases |bs|
  {
    SubsetSmaller(few, many);
    if |many| >= count {
      FullBucketIsEmpty(bs, period, many, count);
    } else if bs != [] {
      var key := period(bs[0].finished.value);
      if key in few {
        SeenShrinks(bs[1..], period, few, many, count);
      } else if key in many {
        SeenShrinks(bs[1..], period, few + {key}, many, count);
      } else {
        SeenShrinks(bs[1..], period, few + {key}, many + {key}, count);
      }
    }
  }

  lemma SubsetSmaller(a: set<int>, b: set<int>)
    requires a <= b
    ensures |a| <= |b|
  {
    assert b == a + (b - a) && a !! (b - a);
  }

  /** The records of a history whose ids are in `ids`. */
  function Only(bs: seq<Backup>, ids: set<Id>): (r: seq<Backup>)
    ensures AllCount(bs) ==> AllCount(r)
  {
    if bs == [] then []
    else
      var rest := Only(bs[1..], ids);
      if bs[0].id in ids then [bs[0]] + rest else rest
  }

  /** Dropping records a bucket does not select changes nothing about what it selects. */
  lemma {:induction false} PrunedBucket(bs: seq<Backup>, ids: set<Id>, period: Time -> int, seen: set<int>, count: int)
    requires AllCount(bs) && Bucket(bs, period, seen, count) <= ids
    ensures Bucket(Only(bs, ids), period, seen, count) == Bucket(bs, period, seen, count)
    decreases |bs|
  {
    if bs != [] {
      var key := period(bs[0].finished.value);
      var rest := Only(bs[1..], ids);
      assert ([bs[0]] + rest)[1..] == rest;
      if key in seen {
        PrunedBucket(bs[1..], ids, period, seen, count);
      } else if |seen| >= count {
        FullBucketIsEmpty(Only(bs, ids), period, seen, count);
      } else {
        PrunedBucket(bs[1..], ids, period, seen + {key}, count);
      }
    }
  }

  // ----- facts about a decision

  lemma SelectedNewest(bs: seq<Backup>, p: Policy)
    requires AllCount(bs) && bs != [] && (p.daily > 0 || p.weekly > 0 || p.monthly > 0)
    ensures bs[0].id in Selected(bs, p)
  {
  }

  /** The newest verified backup is always kept, and counts as protected exactly when no count is positive. */
  lemma NewestIsKept(bs: seq<Backup>, p: Policy)
    requires AllCount(bs)
    ensures bs != [] ==> bs[0].id in Keep(bs, p)
    ensures Protects(bs, p) <==> bs != [] && p.daily <= 0 && p.weekly <= 0 && p.monthly <= 0
  {
    if p.daily > 0 || p.weekly > 0 || p.monthly > 0 {
      if bs != [] { SelectedNewest(bs, p); }
    } else {
      FullBucketIsEmpty(bs, p.calendar.day, {}, p.daily);
      FullBucketIsEmpty(bs, p.calendar.week, {}, p.weekly);
      FullBucketIsEmpty(bs, p.calendar.month, {}, p.monthly);
    }
  }

  /** Nothing outside the kept set is kept once a newer backup is there. */
  lemma NewerKeepsNoMore(b: Backup, bs: seq<Backup>, p: Policy)
    requires Counts(b) && AllCount(bs)
    ensures Keep([b] + bs, p) <= Keep(bs, p) + {b.id}
  {
    hide Bucket;
    var all := [b] + bs;
    NewerBucket(b, bs, p.calendar.day, p.daily);
    NewerBucket(b, bs, p.calendar.week, p.weekly);
    NewerBucket(b, bs, p.calendar.month, p.monthly);
    var now := Selected(all, p);
    assert now <= Selected(bs, p) + {b.id};
    assert all[0] == b;
    assert Keep(all, p) <= now + {b.id};
  }

  lemma NewerBucket(b: Backup, bs: seq<Backup>, period: Time -> int, count: int)
    requires Counts(b) && AllCount(bs)
    ensures Bucket([b] + bs, period, {}, count) <= Bucket(bs, period, {}, count) + {b.id}
  {
    assert ([b] + bs)[1..] == bs;
    SeenShrinks(bs, period, {}, {} + {period(b.finished.value)}, count);
  }

  lemma PrunedKeep(bs: seq<Backup>, ids: set<Id>, p: Policy)
    requires AllCount(bs) && Keep(bs, p) <= ids
    ensures Keep(Only(bs, ids), p) == Keep(bs, p)
  {
    PrunedBucket(bs, ids, p.calendar.day, {}, p.daily);
    PrunedBucket(bs, ids, p.calendar.week, {}, p.weekly);
    PrunedBucket(bs, ids, p.calendar.month, {}, p.monthly);
    NewestIsKept(bs, p);
  }

  // ----- what is kept, in terms of the records alone

  predicate OneEach(bs: seq<Backup>) {
    forall i, j :: 0 <= i < j < |bs| ==> bs[i].id != bs[j].id
  }

  ghost predicate ListedBefore(bs: seq<Backup>, c: Backup, b: Backup) {
    exists i, j :: 0 <= i < j < |bs| && bs[i] == c && bs[j] == b
  }

  /** Newest first; of two that finished together, the one listed first. */
  ghost predicate Ahead(bs: seq<Backup>, c: Backup, b: Backup) {
    && Counts(c) && Counts(b)
    && (c.finished.value > b.finished.value || (c.finished == b.finished && ListedBefore(bs, c, b)))
  }

  /** The verified backups newer than `b`. */
  ghost function Later(bs: seq<Backup>, b: Backup): (r: set<Backup>)
    ensures forall c <- r :: Counts(c)
  {
    set c | c in bs && Ahead(bs, c, b)
  }

  ghost function PeriodsOf(later: set<Backup>, period: Time -> int): set<int>
    requires forall c <- later :: Counts(c)
  {
    set c | c in later && Counts(c) :: period(c.finished.value)
  }

  /** The newest of its period, with verified backups in fewer than `count` later periods. */
  ghost predicate Represents(bs: seq<Backup>, b: Backup, period: Time -> int, count: int)
    requires Counts(b)
  {
    period(b.finished.value) !in PeriodsOf(Later(bs, b), period) && |PeriodsOf(Later(bs, b), period)| < count
  }

  ghost predicate IsKept(bs: seq<Backup>, b: Backup, p: Policy)
    requires Counts(b)
  {
    || Represents(bs, b, p.calendar.day, p.daily)
    || Represents(bs, b, p.calendar.week, p.weekly)
    || Represents(bs, b, p.calendar.month, p.monthly)
    || (Later(bs, b) == {} && p.daily <= 0 && p.weekly <= 0 && p.monthly <= 0)
  }

  ghost predicate InAheadOrder(of: seq<Backup>, list: seq<Backup>) {
    forall i, j :: 0 <= i < j < |list| ==> Ahead(of, list[i], list[j])
  }

  lemma AheadMore(b: Backup, bs: seq<Backup>, x: Backup, y: Backup)
    requires Ahead(bs, x, y)
    ensures Ahead([b] + bs, x, y)
  {
    if ListedBefore(bs, x, y) {
      var i, j :| 0 <= i < j < |bs| && bs[i] == x && bs[j] == y;
      assert ([b] + bs)[i + 1] == x && ([b] + bs)[j + 1] == y;
    }
  }

  /** Insertion puts a record right where the order wants it. */
  lemma {:induction false} InsertSplits(b: Backup, bs: seq<Backup>) returns (k: nat)
    requires Counts(b) && NewestFirst(bs)
    ensures k <= |bs| && Insert(b, bs) == bs[..k] + [b] + bs[k..]
    ensures forall i :: 0 <= i < k ==> bs[i].finished.value > b.finished.value
    ensures forall i :: k <= i < |bs| ==> bs[i].finished.value <= b.finished.value
    decreases |bs|
  {
    if bs == [] || b.finished.value >= bs[0].finished.value {
      k := 0;
    } else {
      var tail := bs[1..];
      assert forall i :: 0 <= i < |tail| ==> tail[i] == bs[i + 1];
      var j := InsertSplits(b, tail);
      k := j + 1;
      assert bs[..k] == [bs[0]] + tail[..j] && bs[k..] == tail[j..];
    }
  }

  lemma {:induction false} SortedInOrder(bs: seq<Backup>)
    requires AllCount(bs)
    ensures InAheadOrder(bs, Sorted(bs))
    decreases |bs|
  {
    if bs != [] {
      var b, rest := bs[0], bs[1..];
      assert bs == [b] + rest;
      SortedInOrder(rest);
      SortSorts(rest);
      InsertedInOrder(b, rest, Sorted(rest));
    }
  }

  lemma InsertedInOrder(b: Backup, rest: seq<Backup>, sorted: seq<Backup>)
    requires Counts(b) && NewestFirst(sorted) && InAheadOrder(rest, sorted) && multiset(sorted) == multiset(rest)
    ensures InAheadOrder([b] + rest, Insert(b, sorted))
  {
    hide Ahead;
    var k := InsertSplits(b, sorted);
    var all := Insert(b, sorted);
    forall i, j | 0 <= i < j < |all|
      ensures Ahead([b] + rest, all[i], all[j])
    {
      if i < k && j == k {
        NewerIsAhead([b] + rest, all[i], b);
      } else if i == k {
        assert all[j] == sorted[j - 1] && all[j] in multiset(sorted);
        HeadIsAhead(b, rest, all[j]);
      } else {
        AheadMore(b, rest, all[i], all[j]);
      }
    }
  }

  lemma NewerIsAhead(bs: seq<Backup>, c: Backup, b: Backup)
    requires Counts(c) && Counts(b) && c.finished.value > b.finished.value
    ensures Ahead(bs, c, b)
  {
  }

  lemma HeadIsAhead(b: Backup, rest: seq<Backup>, c: Backup)
    requires Counts(b) && Counts(c) && b.finished.value >= c.finished.value && c in rest
    ensures Ahead([b] + rest, b, c)
  {
    var i :| 0 <= i < |rest| && rest[i] == c;
    assert ([b] + rest)[0] == b && ([b] + rest)[i + 1] == c;
  }

  function PeriodsIn(bs: seq<Backup>, period: Time -> int): set<int>
    requires AllCount(bs)
  {
    set i | 0 <= i < |bs| :: period(bs[i].finished.value)
  }

  lemma PeriodsFront(b: Backup, bs: seq<Backup>, period: Time -> int)
    requires Counts(b) && AllCount(bs)
    ensures PeriodsIn([b] + bs, period) == {period(b.finished.value)} + PeriodsIn(bs, period)
  {
    var all := [b] + bs;
    forall x | x in {period(b.finished.value)} + PeriodsIn(bs, period)
      ensures x in PeriodsIn(all, period)
    {
      if x == period(b.finished.value) {
        assert all[0] == b;
      } else {
        var i :| 0 <= i < |bs| && period(bs[i].finished.value) == x;
        assert all[i + 1] == bs[i];
      }
    }
  }

  /** Which record of a list a bucket keeps. */
  lemma {:induction false} BucketExactly(bs: seq<Backup>, period: Time -> int, seen: set<int>, count: int, k: nat)
    requires AllCount(bs) && OneEach(bs) && k < |bs|
    ensures AllCount(bs[..k])
    ensures var before := seen + PeriodsIn(bs[..k], period);
            bs[k].id in Bucket(bs, period, seen, count) <==> period(bs[k].finished.value) !in before && |before| < count
    decreases |bs|
  {
    hide PeriodsIn;
    var b, rest := bs[0], bs[1..];
    var key := period(b.finished.value);
    if |seen| >= count { FullBucketIsEmpty(bs, period, seen, count); }
    if k == 0 {
      NoPeriods(bs[..0], period);
      assert forall i :: 0 <= i < |rest| ==> rest[i] == bs[i + 1];
      if b.id in Bucket(rest, period, seen, count) { BucketInside(rest, period, seen, count, b.id); }
    } else {
      assert rest[k - 1] == bs[k] && bs[..k] == [b] + rest[..k - 1];
      BucketExactly(rest, period, seen, count, k - 1);
      BucketExactly(rest, period, seen + {key}, count, k - 1);
      PeriodsFront(b, rest[..k - 1], period);
      var before := seen + PeriodsIn(bs[..k], period);
      SubsetSmaller(seen, before);
      assert seen + {key} + PeriodsIn(rest[..k - 1], period) == before;
      assert key in seen ==> seen + PeriodsIn(rest[..k - 1], period) == before;
    }
  }

  lemma NoPeriods(bs: seq<Backup>, period: Time -> int)
    requires bs == []
    ensures AllCount(bs) && PeriodsIn(bs, period) == {}
  {
  }

  lemma {:induction false} BucketInside(bs: seq<Backup>, period: Time -> int, seen: set<int>, count: int, id: Id)
    requires AllCount(bs) && id in Bucket(bs, period, seen, count)
    ensures exists i :: 0 <= i < |bs| && bs[i].id == id
    decreases |bs|
  {
    if bs != [] && bs[0].id != id {
      var key := period(bs[0].finished.value);
      BucketInside(bs[1..], period, if key in seen then seen else seen + {key}, count, id);
      var i :| 0 <= i < |bs[1..]| && bs[1..][i].id == id;
      assert bs[i + 1].id == id;
    }
  }

  lemma AheadOneWay(bs: seq<Backup>, x: Backup, y: Backup)
    requires OneEach(bs) && Ahead(bs, x, y)
    ensures !Ahead(bs, y, x) && x != y
  {
  }

  /** The records ahead of one in sorted order are the ones before it. */
  lemma LaterAreBefore(bs: seq<Backup>, k: nat)
    requires OneEach(bs)
    requires var verified := Sorted(VerifiedOf(bs)); k < |verified|
    ensures var verified := Sorted(VerifiedOf(bs)); Later(bs, verified[k]) == Elements(verified[..k])
  {
    hide Ahead, Sorted, VerifiedOf;
    var verified := Sorted(VerifiedOf(bs));
    VerifiedInOrder(bs);
    forall i, j | 0 <= i < j < |verified|
      ensures !Ahead(bs, verified[j], verified[i])
    {
      AheadOneWay(bs, verified[i], verified[j]);
    }
    forall c | c in Later(bs, verified[k])
      ensures c in verified[..k]
    {
      AheadCounts(bs, c, verified[k]);
      SortedMembers(bs, c);
      var i :| 0 <= i < |verified| && verified[i] == c;
      if i == k { AheadOneWay(bs, c, c); }
      assert verified[..k][i] == c;
    }
    forall c | c in verified[..k]
      ensures c in Later(bs, verified[k])
    {
      SortedMembers(bs, c);
    }
  }

  lemma AheadCounts(bs: seq<Backup>, c: Backup, b: Backup)
    requires Ahead(bs, c, b)
    ensures Counts(c) && Counts(b)
  {
  }

  lemma SortedMembers(bs: seq<Backup>, c: Backup)
    ensures c in Sorted(VerifiedOf(bs)) <==> c in bs && Counts(c)
  {
    hide Sorted, VerifiedOf;
    SortedHas(VerifiedOf(bs), c);
    VerifiedAre(bs, c);
  }

  lemma VerifiedInOrder(bs: seq<Backup>)
    requires OneEach(bs)
    ensures InAheadOrder(bs, Sorted(VerifiedOf(bs))) && OneEach(Sorted(VerifiedOf(bs)))
  {
    hide Ahead, Sorted;
    var verified := VerifiedOf(bs);
    SortedInOrder(verified);
    forall i, j | 0 <= i < j < |Sorted(verified)|
      ensures Ahead(bs, Sorted(verified)[i], Sorted(verified)[j]) && Sorted(verified)[i].id != Sorted(verified)[j].id
    {
      AheadInAll(bs, Sorted(verified)[i], Sorted(verified)[j]);
      SortedMembers(bs, Sorted(verified)[i]);
      SortedMembers(bs, Sorted(verified)[j]);
      AheadOneWay(bs, Sorted(verified)[i], Sorted(verified)[j]);
    }
  }

  lemma {:induction false} AheadInAll(bs: seq<Backup>, x: Backup, y: Backup)
    requires Ahead(VerifiedOf(bs), x, y)
    ensures Ahead(bs, x, y)
    decreases |bs|
  {
    if ListedBefore(VerifiedOf(bs), x, y) {
      BeforeInAll(bs, x, y);
    }
  }

  lemma {:induction false} BeforeInAll(bs: seq<Backup>, x: Backup, y: Backup)
    requires ListedBefore(VerifiedOf(bs), x, y)
    ensures ListedBefore(bs, x, y)
    decreases |bs|
  {
    var verified, rest := VerifiedOf(bs), VerifiedOf(bs[1..]);
    var i, j :| 0 <= i < j < |verified| && verified[i] == x && verified[j] == y;
    if Counts(bs[0]) && i == 0 {
      assert y == rest[j - 1];
      VerifiedAre(bs[1..], y);
      var m :| 0 <= m < |bs[1..]| && bs[1..][m] == y;
      assert bs[m + 1] == y;
    } else {
      if Counts(bs[0]) { assert rest[i - 1] == x && rest[j - 1] == y; }
      BeforeInAll(bs[1..], x, y);
      var m, n :| 0 <= m < n < |bs[1..]| && bs[1..][m] == x && bs[1..][n] == y;
      assert bs[m + 1] == x && bs[n + 1] == y;
    }
  }

  lemma RepresentsExactly(bs: seq<Backup>, period: Time -> int, count: int, k: nat)
    requires OneEach(bs) && k < |Sorted(VerifiedOf(bs))|
    ensures var verified := Sorted(VerifiedOf(bs));
            verified[k].id in Bucket(verified, period, {}, count) <==> Represents(bs, verified[k], period, count)
  {
    hide Sorted, VerifiedOf, Later, Bucket;
    var verified := Sorted(VerifiedOf(bs));
    VerifiedInOrder(bs);
    BucketExactly(verified, period, {}, count, k);
    LaterAreBefore(bs, k);
    assert {} + PeriodsIn(verified[..k], period) == PeriodsOf(Elements(verified[..k]), period) by {
      forall i | 0 <= i < k ensures verified[..k][i] in Elements(verified[..k]) {}
    }
  }

  /**
   * A verified backup is kept exactly when, for days, weeks or months, it is the newest of its period and
   * fewer later periods than that count hold one; or it is the newest of all and no count is positive.
   */
  lemma KeptExactly(bs: seq<Backup>, p: Policy, now: Time, b: Backup)
    requires OneEach(bs) && b in bs && Counts(b)
    ensures b.id in Decide(bs, p, now).keep <==> IsKept(bs, b, p)
  {
    hide Sorted, VerifiedOf, Later, Represents, Bucket;
    var verified := Sorted(VerifiedOf(bs));
    SortedMembers(bs, b);
    var k :| 0 <= k < |verified| && verified[k] == b;
    VerifiedInOrder(bs);
    RepresentsExactly(bs, p.calendar.day, p.daily, k);
    RepresentsExactly(bs, p.calendar.week, p.weekly, k);
    RepresentsExactly(bs, p.calendar.month, p.monthly, k);
    IdsInAre(verified, Keep(verified, p), b.id);
    MemberHasId(verified, b);
    NewestIsKept(verified, p);
    LaterAreBefore(bs, k);
    assert k > 0 ==> verified[..k][0] in Elements(verified[..k]) && verified[0].id != b.id;
    assert k == 0 ==> verified[..k] == [];
    assert Keep(verified, p) == Selected(verified, p) + if Protects(verified, p) then {verified[0].id} else {};
  }

  predicate AreIdsOf(ids: seq<Id>, list: seq<Backup>) {
    |ids| == |list| && forall i :: 0 <= i < |ids| ==> ids[i] == list[i].id
  }

  lemma {:induction false} PickedInOrder(of: seq<Backup>, list: seq<Backup>, ids: set<Id>)
    requires InAheadOrder(of, list)
    ensures InAheadOrder(of, Only(list, ids)) && AreIdsOf(IdsIn(list, ids), Only(list, ids))
    decreases |list|
  {
    hide Ahead;
    if list != [] {
      var rest := list[1..];
      assert forall i :: 0 <= i < |rest| ==> rest[i] == list[i + 1];
      PickedInOrder(of, rest, ids);
      if list[0].id in ids {
        forall c | c in Only(rest, ids)
          ensures Ahead(of, list[0], c)
        {
          OnlyMembers(rest, ids, c);
        }
      }
    }
  }

  /** The kept ids come newest first. */
  lemma KeptInOrder(bs: seq<Backup>, p: Policy, now: Time) returns (list: seq<Backup>)
    requires OneEach(bs)
    ensures InAheadOrder(bs, list) && AreIdsOf(Decide(bs, p, now).keep, list)
  {
    hide Ahead, Sorted, VerifiedOf, Keep;
    var verified := Sorted(VerifiedOf(bs));
    VerifiedInOrder(bs);
    PickedInOrder(bs, verified, Keep(verified, p));
    list := Only(verified, Keep(verified, p));
  }

  // ----- whole histories

  /** A backup finishes, one way or the other; or the job asks for a decision and deletes what it says. */
  datatype Event = Finish(backup: Backup) | Prune(now: Time)

  function Without(bs: seq<Backup>, ids: set<Id>): (r: seq<Backup>)
    ensures AllCount(bs) ==> AllCount(r)
  {
    if bs == [] then []
    else
      var rest := Without(bs[1..], ids);
      if bs[0].id in ids then rest else [bs[0]] + rest
  }

  /** The stored records, with every decision carried out. */
  function Stored(events: seq<Event>, p: Policy): seq<Backup> {
    if events == [] then []
    else
      var before := Stored(events[..|events| - 1], p);
      match events[|events| - 1]
      case Finish(b) => [b] + before
      case Prune(now) => Without(before, Elements(Decide(before, p, now).delete))
  }

  /** The same history with nothing ever deleted. */
  function Full(events: seq<Event>): seq<Backup> {
    if events == [] then []
    else
      var before := Full(events[..|events| - 1]);
      match events[|events| - 1]
      case Finish(b) => [b] + before
      case Prune(_) => before
  }

  predicate HasId(bs: seq<Backup>, id: Id) {
    exists i :: 0 <= i < |bs| && bs[i].id == id
  }

  predicate Newest(b: Backup, bs: seq<Backup>) {
    forall o <- bs :: Counts(b) && Counts(o) ==> b.finished.value > o.finished.value
  }

  /** Every backup has an id of its own, and each verified one finished after the verified ones before it. */
  predicate Timely(events: seq<Event>) {
    events != [] ==>
      && Timely(events[..|events| - 1])
      && var last, before := events[|events| - 1], Full(events[..|events| - 1]);
         last.Finish? ==> !HasId(before, last.backup.id) && Newest(last.backup, before)
  }

  lemma {:induction false} OnlyTwice(bs: seq<Backup>, a: set<Id>, b: set<Id>)
    ensures Only(Only(bs, a), b) == Only(bs, a * b)
    decreases |bs|
  {
    if bs != [] {
      OnlyTwice(bs[1..], a, b);
      assert ([bs[0]] + Only(bs[1..], a))[1..] == Only(bs[1..], a);
    }
  }

  lemma {:induction false} OnlyAbsent(bs: seq<Backup>, ids: set<Id>, id: Id)
    requires !HasId(bs, id)
    ensures Only(bs, ids + {id}) == Only(bs, ids)
    decreases |bs|
  {
    if bs != [] {
      assert bs[0].id != id;
      forall i | 0 <= i < |bs[1..]| ensures bs[1..][i].id != id { assert bs[1..][i] == bs[i + 1]; }
      OnlyAbsent(bs[1..], ids, id);
    }
  }

  lemma {:induction false} OnlyMembers(bs: seq<Backup>, ids: set<Id>, b: Backup)
    ensures b in Only(bs, ids) <==> b in bs && b.id in ids
    ensures b in Without(bs, ids) <==> b in bs && b.id !in ids
    decreases |bs|
  {
    if bs != [] {
      assert bs == [bs[0]] + bs[1..];
      OnlyMembers(bs[1..], ids, b);
    }
  }

  lemma {:induction false} VerifiedWithout(bs: seq<Backup>, ids: set<Id>)
    ensures VerifiedOf(Without(bs, ids)) == Without(VerifiedOf(bs), ids)
    decreases |bs|
  {
    if bs != [] {
      VerifiedWithout(bs[1..], ids);
      assert ([bs[0]] + Without(bs[1..], ids))[1..] == Without(bs[1..], ids);
      assert ([bs[0]] + VerifiedOf(bs[1..]))[1..] == VerifiedOf(bs[1..]);
    }
  }

  lemma {:induction false} WithoutIsOnly(bs: seq<Backup>, gone: set<Id>, kept: set<Id>)
    requires forall b <- bs :: b.id in gone <==> b.id !in kept
    ensures Without(bs, gone) == Only(bs, kept)
    decreases |bs|
  {
    if bs != [] {
      assert bs == [bs[0]] + bs[1..];
      WithoutIsOnly(bs[1..], gone, kept);
    }
  }

  lemma {:induction false} IdsOfOnly(bs: seq<Backup>, ids: set<Id>, kept: set<Id>)
    requires kept <= ids
    ensures IdsIn(Only(bs, ids), kept) == IdsIn(bs, kept)
    decreases |bs|
  {
    if bs != [] {
      IdsOfOnly(bs[1..], ids, kept);
      assert ([bs[0]] + Only(bs[1..], ids))[1..] == Only(bs[1..], ids);
    }
  }

  /** Newest first already, with no two finished together. */
  predicate Strict(bs: seq<Backup>) {
    AllCount(bs) && (bs != [] ==> Strict(bs[1..]) && Newest(bs[0], bs[1..]))
  }

  lemma {:induction false} StrictIsSorted(bs: seq<Backup>)
    requires Strict(bs)
    ensures Sorted(bs) == bs
    decreases |bs|
  {
    if bs != [] {
      StrictIsSorted(bs[1..]);
      assert bs == [bs[0]] + bs[1..] && [bs[0]][1..] == [];
      NewerSortFirst([bs[0]], bs[1..]);
    }
  }

  lemma {:induction false} OnlyIsStrict(bs: seq<Backup>, ids: set<Id>)
    requires Strict(bs)
    ensures Strict(Only(bs, ids))
    decreases |bs|
  {
    if bs != [] {
      OnlyIsStrict(bs[1..], ids);
      var rest := Only(bs[1..], ids);
      assert ([bs[0]] + rest)[1..] == rest;
      forall o | o in rest
        ensures o in bs[1..]
      {
        OnlyMembers(bs[1..], ids, o);
      }
    }
  }

  lemma {:induction false} FullIsStrict(events: seq<Event>)
    requires Timely(events)
    ensures Strict(VerifiedOf(Full(events))) && DistinctIds(Full(events))
    decreases |events|
  {
    if events != [] {
      var before, last := Full(events[..|events| - 1]), events[|events| - 1];
      FullIsStrict(events[..|events| - 1]);
      if last.Finish? {
        assert ([last.backup] + before)[1..] == before;
        assert ([last.backup] + VerifiedOf(before))[1..] == VerifiedOf(before);
        forall o | o in VerifiedOf(before) ensures o in before { VerifiedAre(before, o); }
        forall a | a in before ensures a.id != last.backup.id { var i :| 0 <= i < |before| && before[i] == a; }
      }
    }
  }

  /** What the whole history holds of the stored records: the verified ones still there, `left`, include all that is kept. */
  ghost predicate Mirrors(stored: seq<Backup>, full: seq<Backup>, p: Policy, left: set<Id>) {
    && (forall b <- stored :: b in full)
    && VerifiedOf(stored) == Only(VerifiedOf(full), left)
    && Keep(VerifiedOf(full), p) <= left
  }

  lemma {:induction false} StoredMirrors(events: seq<Event>, p: Policy) returns (left: set<Id>)
    requires Timely(events)
    ensures Mirrors(Stored(events, p), Full(events), p, left)
    decreases |events|
  {
    hide Keep, HasId, Decide, Strict;
    if events == [] {
      left := Keep([], p);
    } else {
      var before, last := events[..|events| - 1], events[|events| - 1];
      left := StoredMirrors(before, p);
      FullIsStrict(before);
      match last
      case Finish(b) => left := FinishMirrors(Stored(before, p), Full(before), p, left, b);
      case Prune(now) => left := PruneMirrors(Stored(before, p), Full(before), p, left, now);
    }
  }

  lemma FinishMirrors(stored: seq<Backup>, full: seq<Backup>, p: Policy, left: set<Id>, b: Backup) returns (more: set<Id>)
    requires Mirrors(stored, full, p, left) && !HasId(full, b.id)
    ensures Mirrors([b] + stored, [b] + full, p, more)
  {
    hide Keep, HasId;
    var verified := VerifiedOf(full);
    assert ([b] + stored)[1..] == stored && ([b] + full)[1..] == full;
    more := left;
    if Counts(b) {
      more := left + {b.id};
      NewerKeepsNoMore(b, verified, p);
      VerifiedHasNot(full, b.id);
      OnlyAbsent(verified, left, b.id);
      assert ([b] + verified)[1..] == verified;
    }
  }

  lemma VerifiedHasNot(bs: seq<Backup>, id: Id)
    requires !HasId(bs, id)
    ensures !HasId(VerifiedOf(bs), id)
  {
    forall i | 0 <= i < |VerifiedOf(bs)|
      ensures VerifiedOf(bs)[i].id != id
    {
      VerifiedAre(bs, VerifiedOf(bs)[i]);
    }
  }

  /** A decision deletes, of the verified backups, exactly those it does not keep. */
  lemma DeletesTheRest(bs: seq<Backup>, p: Policy, now: Time, b: Backup)
    requires DistinctIds(bs) && Strict(VerifiedOf(bs)) && b in VerifiedOf(bs)
    ensures b.id in Decide(bs, p, now).delete <==> b.id !in Keep(VerifiedOf(bs), p)
  {
    hide Keep, HasId, Strict;
    var verified := VerifiedOf(bs);
    StrictIsSorted(verified);
    VerifiedAre(bs, b);
    IdsInAre(verified, Keep(verified, p), b.id);
    ExpiredAre(bs, now, p.grace, b.id);
    MemberHasId(verified, b);
  }

  lemma MemberHasId(bs: seq<Backup>, b: Backup)
    requires b in bs
    ensures HasId(bs, b.id)
  {
    var i :| 0 <= i < |bs| && bs[i] == b;
  }

  lemma PruneMirrors(stored: seq<Backup>, full: seq<Backup>, p: Policy, left: set<Id>, now: Time) returns (kept: set<Id>)
    requires Mirrors(stored, full, p, left) && Strict(VerifiedOf(full)) && DistinctIds(full)
    ensures Mirrors(Without(stored, Elements(Decide(stored, p, now).delete)), full, p, kept)
  {
    hide Keep, HasId, Decide, Strict;
    var verified, gone := VerifiedOf(full), Elements(Decide(stored, p, now).delete);
    OnlyIsStrict(verified, left);
    PrunedKeep(verified, left, p);
    var keep := Keep(verified, p);
    forall b | b in VerifiedOf(stored)
      ensures b.id in gone <==> b.id !in keep
    {
      DeletesTheRest(stored, p, now, b);
    }
    VerifiedWithout(stored, gone);
    WithoutIsOnly(VerifiedOf(stored), gone, keep);
    OnlyTwice(verified, left, keep);
    kept := left * keep;
    forall b | b in Without(stored, gone)
      ensures b in full
    {
      OnlyMembers(stored, gone, b);
    }
  }

  /** However often decisions were carried out along the way, a decision keeps what it would keep of the whole history. */
  lemma PruningNeverMatters(events: seq<Event>, p: Policy, now: Time)
    requires Timely(events)
    ensures Decide(Stored(events, p), p, now).keep == Decide(Full(events), p, now).keep
    ensures Decide(Stored(events, p), p, now).protectedLast == Decide(Full(events), p, now).protectedLast
  {
    hide Keep, HasId, Strict;
    var left := StoredMirrors(events, p);
    var verified := VerifiedOf(Full(events));
    FullIsStrict(events);
    OnlyIsStrict(verified, left);
    StrictIsSorted(verified);
    StrictIsSorted(Only(verified, left));
    PrunedKeep(verified, left, p);
    IdsOfOnly(verified, left, Keep(verified, p));
    NewestIsKept(verified, p);
    NewestIsKept(Only(verified, left), p);
    SomeLeft(verified, left, p);
  }

  lemma SomeLeft(verified: seq<Backup>, left: set<Id>, p: Policy)
    requires AllCount(verified) && Keep(verified, p) <= left
    ensures Only(verified, left) == [] <==> verified == []
  {
    hide Keep;
    NewestIsKept(verified, p);
  }

  /** Once a decision does not keep a verified backup, no later decision does, whatever finishes and is deleted meanwhile. */
  lemma {:induction false} OutIsOut(events: seq<Event>, later: seq<Event>, p: Policy, now: Time, then': Time, id: Id)
    requires Timely(events + later)
    requires HasId(VerifiedOf(Full(events)), id) && id !in Decide(Stored(events, p), p, now).keep
    ensures id !in Decide(Stored(events + later, p), p, then').keep
    ensures HasId(Stored(events + later, p), id) ==> id in Decide(Stored(events + later, p), p, then').delete
  {
    hide Keep, HasId, Decide, Strict;
    TimelyPrefix(events, later);
    PruningNeverMatters(events, p, now);
    PruningNeverMatters(events + later, p, then');
    KeptOf(events, p, now, id);
    OutOfFull(events, later, p, id);
    KeptOf(events + later, p, then', id);
    if HasId(Stored(events + later, p), id) { StoredAndVerified(events + later, p, then', id); }
  }

  /** A verified backup still stored is kept or deleted. */
  lemma StoredAndVerified(events: seq<Event>, p: Policy, now: Time, id: Id)
    requires Timely(events) && HasId(VerifiedOf(Full(events)), id) && HasId(Stored(events, p), id)
    ensures id in Decide(Stored(events, p), p, now).keep || id in Decide(Stored(events, p), p, now).delete
  {
    hide Keep, Decide, Strict;
    var stored, verified := Stored(events, p), VerifiedOf(Full(events));
    var left := StoredMirrors(events, p);
    FullIsStrict(events);
    var i :| 0 <= i < |stored| && stored[i].id == id;
    var j :| 0 <= j < |verified| && verified[j].id == id;
    VerifiedAre(Full(events), verified[j]);
    DecisionIsExact(stored, p, now, stored[i]);
  }

  lemma {:induction false} TimelyPrefix(events: seq<Event>, later: seq<Event>)
    requires Timely(events + later)
    ensures Timely(events)
    decreases |later|
  {
    if later == [] {
      assert events + later == events;
    } else {
      var all := events + later;
      assert all[..|all| - 1] == events + later[..|later| - 1];
      TimelyPrefix(events, later[..|later| - 1]);
    }
  }

  lemma KeptOf(events: seq<Event>, p: Policy, now: Time, id: Id)
    requires Timely(events)
    ensures id in Decide(Full(events), p, now).keep <==> HasId(VerifiedOf(Full(events)), id) && id in Keep(VerifiedOf(Full(events)), p)
  {
    hide Keep, HasId, Strict;
    var verified := VerifiedOf(Full(events));
    FullIsStrict(events);
    StrictIsSorted(verified);
    IdsInAre(verified, Keep(verified, p), id);
  }

  lemma {:induction false} OutOfFull(events: seq<Event>, later: seq<Event>, p: Policy, id: Id)
    requires Timely(events + later)
    requires HasId(VerifiedOf(Full(events)), id) && id !in Keep(VerifiedOf(Full(events)), p)
    ensures HasId(VerifiedOf(Full(events + later)), id) && id !in Keep(VerifiedOf(Full(events + later)), p)
    decreases |later|
  {
    hide Keep, HasId;
    if later == [] {
      assert events + later == events;
    } else {
      var all, last := events + later, later[|later| - 1];
      assert all[..|all| - 1] == events + later[..|later| - 1] && all[|all| - 1] == last;
      OutOfFull(events, later[..|later| - 1], p, id);
      var before := Full(all[..|all| - 1]);
      if last.Finish? {
        VerifiedHasNot(before, last.backup.id);
        HasMore(last.backup, VerifiedOf(before), id);
        assert ([last.backup] + before)[1..] == before;
        if Counts(last.backup) { NewerKeepsNoMore(last.backup, VerifiedOf(before), p); }
      }
    }
  }

  lemma HasMore(b: Backup, bs: seq<Backup>, id: Id)
    ensures HasId(bs, id) ==> HasId([b] + bs, id)
  {
    if HasId(bs, id) {
      var i :| 0 <= i < |bs| && bs[i].id == id;
      assert ([b] + bs)[i + 1].id == id;
    }
  }

  // ----- a decision over the stored records

  lemma {:induction false} IdsInAre(bs: seq<Backup>, ids: set<Id>, id: Id)
    ensures id in IdsIn(bs, ids) <==> HasId(bs, id) && id in ids
    ensures id in IdsOutside(bs, ids) <==> HasId(bs, id) && id !in ids
    decreases |bs|
  {
    if bs != [] {
      IdsInAre(bs[1..], ids, id);
      HasMore(bs[0], bs[1..], id);
      assert bs == [bs[0]] + bs[1..];
      if HasId(bs, id) && bs[0].id != id {
        var i :| 0 <= i < |bs| && bs[i].id == id;
        assert bs[1..][i - 1].id == id;
      }
    }
  }

  lemma {:induction false} ExpiredAre(bs: seq<Backup>, now: Time, grace: int, id: Id)
    ensures id in ExpiredIds(bs, now, grace) <==> exists b <- bs :: b.id == id && Expired(b, now, grace)
    decreases |bs|
  {
    if bs != [] {
      assert bs == [bs[0]] + bs[1..];
      ExpiredAre(bs[1..], now, grace, id);
    }
  }

  lemma {:induction false} VerifiedAre(bs: seq<Backup>, b: Backup)
    ensures b in VerifiedOf(bs) <==> b in bs && Counts(b)
    decreases |bs|
  {
    if bs != [] {
      assert bs == [bs[0]] + bs[1..];
      VerifiedAre(bs[1..], b);
    }
  }

  lemma SortedHas(bs: seq<Backup>, b: Backup)
    requires AllCount(bs)
    ensures b in Sorted(bs) <==> b in bs
  {
    SortSorts(bs);
    assert b in Sorted(bs) <==> b in multiset(Sorted(bs));
    assert b in bs <==> b in multiset(bs);
  }

  ghost predicate DistinctIds(bs: seq<Backup>) {
    forall a, b :: a in bs && b in bs && a.id == b.id ==> a == b
  }

  /**
   * No backup is both kept and deleted; every verified one is one or the other, and nothing else is
   * touched but failed ones past their grace; the newest verified one is kept.
   */
  lemma DecisionIsExact(bs: seq<Backup>, p: Policy, now: Time, b: Backup)
    requires DistinctIds(bs) && b in bs
    ensures var decision := Decide(bs, p, now);
            var verified := b.state == Verified && b.finished.Some?;
            var past := b.state == Failed && now as int - (if b.finished.Some? then b.finished.value else b.started) >= p.grace;
            && !(b.id in decision.keep && b.id in decision.delete)
            && (verified ==> b.id in decision.keep || b.id in decision.delete)
            && (!verified ==> b.id !in decision.keep && (b.id in decision.delete <==> past))
            && (verified && (forall c <- bs :: Counts(c) && c != b ==> c.finished.value < b.finished.value) ==> b.id in decision.keep)
  {
    hide Keep, HasId, Sorted, VerifiedOf;
    var verified := Sorted(VerifiedOf(bs));
    var keep := Keep(verified, p);
    IdsInAre(verified, keep, b.id);
    ExpiredAre(bs, now, p.grace, b.id);
    HasExactly(bs, b);
    SortSorts(VerifiedOf(bs));
    NewestIsKept(verified, p);
    if Counts(b) && forall c <- bs :: Counts(c) && c != b ==> c.finished.value < b.finished.value {
      NewestIsFirst(bs, b);
    }
  }

  lemma HasExactly(bs: seq<Backup>, b: Backup)
    requires DistinctIds(bs) && b in bs
    ensures HasId(Sorted(VerifiedOf(bs)), b.id) <==> Counts(b)
  {
    hide Sorted, VerifiedOf;
    var verified := Sorted(VerifiedOf(bs));
    SortedHas(VerifiedOf(bs), b);
    VerifiedAre(bs, b);
    if HasId(verified, b.id) {
      var i :| 0 <= i < |verified| && verified[i].id == b.id;
      SortedHas(VerifiedOf(bs), verified[i]);
      VerifiedAre(bs, verified[i]);
    }
    if Counts(b) {
      var i :| 0 <= i < |verified| && verified[i] == b;
    }
  }

  lemma NewestIsFirst(bs: seq<Backup>, b: Backup)
    requires b in bs && Counts(b) && forall c <- bs :: Counts(c) && c != b ==> c.finished.value < b.finished.value
    ensures Sorted(VerifiedOf(bs)) != [] && Sorted(VerifiedOf(bs))[0] == b
  {
    hide Sorted, VerifiedOf;
    var verified := Sorted(VerifiedOf(bs));
    SortSorts(VerifiedOf(bs));
    VerifiedAre(bs, b);
    SortedHas(VerifiedOf(bs), b);
    var i :| 0 <= i < |verified| && verified[i] == b;
    SortedHas(VerifiedOf(bs), verified[0]);
    VerifiedAre(bs, verified[0]);
  }

  /** Sorting a list that starts with strictly newer backups puts them, sorted, in front of the rest, sorted. */
  lemma {:induction false} NewerSortFirst(newer: seq<Backup>, bs: seq<Backup>)
    requires AllCount(newer) && AllCount(bs)
    requires forall n, o :: n in newer && o in bs ==> n.finished.value > o.finished.value
    ensures Sorted(newer + bs) == Sorted(newer) + Sorted(bs)
    decreases |newer|
  {
    if newer == [] {
      assert newer + bs == bs;
    } else {
      assert newer == [newer[0]] + newer[1..];
      assert (newer + bs)[1..] == newer[1..] + bs;
      NewerSortFirst(newer[1..], bs);
      forall o | o in Sorted(bs) ensures newer[0].finished.value > o.finished.value { SortedHas(bs, o); }
      InsertInFront(newer[0], Sorted(newer[1..]), Sorted(bs));
    }
  }

  lemma {:induction false} InsertInFront(b: Backup, front: seq<Backup>, back: seq<Backup>)
    requires Counts(b) && AllCount(front) && AllCount(back) && forall o <- back :: b.finished.value > o.finished.value
    ensures Insert(b, front + back) == Insert(b, front) + back
    decreases |front|
  {
    if front == [] {
      assert front + back == back;
    } else {
      assert (front + back)[1..] == front[1..] + back && front == [front[0]] + front[1..];
      InsertInFront(b, front[1..], back);
    }
  }
}
