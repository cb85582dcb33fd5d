/** ListObjectsV2 over a flat list of objects: grouping by delimiter, ordering, paging and resuming. */
module S3Listing {
  import opened Prelude
  import opened Tree

  /** A listable object: its user-facing key and the file it stands for. */
  datatype Entry = Entry(key: string, node: Id, size: nat)

  datatype Request = Request(prefix: string, delimiter: string, maxKeys: int, token: Option<string>, startAfter: Option<string>) {
    /** A token overrides `startAfter`. Encoding is reversible, so a token is taken to be the key inside it. */
    function After(): Option<string> {
      if token.Some? then token else startAfter
    }

    function Limit(): nat {
      Max(0, Min(maxKeys, MAX_KEYS))
    }
  }

  const MAX_KEYS := 1000

  datatype Page = Page(entries: seq<Entry>, commonPrefixes: seq<string>, truncated: bool, next: Option<string>)

  // ----- code-point order on keys

  predicate Less(a: string, b: string) {
    b != [] && (a == [] || a[0] < b[0] || (a[0] == b[0] && Less(a[1..], b[1..])))
  }

  /** What that order is: a proper prefix comes first, and otherwise the smaller code point where two keys first differ. */
  predicate Precedes(a: string, b: string) {
    a < b || exists i :: 0 <= i < |a| && i < |b| && a[..i] == b[..i] && a[i] < b[i]
  }

  lemma {:induction false} LessExactly(a: string, b: string)
    ensures Less(a, b) <==> Precedes(a, b)
  {
    if a != [] && b != [] {
      var x, y := a[1..], b[1..];
      LessExactly(x, y);
      if a[0] < b[0] {
        assert a[..0] == b[..0];
      } else if a[0] == b[0] {
        if Precedes(x, y) && !(x < y) {
          var i :| 0 <= i < |x| && i < |y| && x[..i] == y[..i] && x[i] < y[i];
          assert a[..i + 1] == [a[0]] + x[..i] && b[..i + 1] == [b[0]] + y[..i];
          assert a[i + 1] < b[i + 1];
        }
        if Precedes(a, b) && !(a < b) {
          var i :| 0 <= i < |a| && i < |b| && a[..i] == b[..i] && a[i] < b[i];
          assert x[..i - 1] == a[..i][1..] && y[..i - 1] == b[..i][1..];
          assert x[i - 1] < y[i - 1];
        }
      } else {
        forall i | 0 < i < |a| && i < |b|
          ensures a[..i] != b[..i]
        {
          assert a[..i][0] == a[0] && b[..i][0] == b[0];
        }
      }
    }
  }

  ghost predicate InKeyOrder(keys: seq<string>) {
    forall i, j :: 0 <= i < j < |keys| ==> Precedes(keys[i], keys[j])
  }

  lemma {:induction false} LessTotal(a: string, b: string)
    ensures a == b || Less(a, b) || Less(b, a)
    ensures !(Less(a, b) && Less(b, a)) && !(a == b && Less(a, b))
  {
    if a != [] && b != [] {
      LessTotal(a[1..], b[1..]);
      if a[0] == b[0] && a[1..] == b[1..] {
        assert a == [a[0]] + a[1..] && b == [b[0]] + b[1..];
      }
    }
  }

  lemma {:induction false} LessTransitive(a: string, b: string, c: string)
    requires Less(a, b) && Less(b, c)
    ensures Less(a, c)
  {
    if a != [] && a[0] == b[0] && b[0] == c[0] {
      LessTransitive(a[1..], b[1..], c[1..]);
    }
  }

  ghost predicate Increasing(keys: seq<string>) {
    forall i, j :: 0 <= i < j < |keys| ==> Less(keys[i], keys[j])
  }

  lemma IncreasingIsKeyOrder(keys: seq<string>)
    requires Increasing(keys)
    ensures InKeyOrder(keys)
  {
    hide Less, Precedes;
    forall i, j | 0 <= i < j < |keys|
      ensures Precedes(keys[i], keys[j])
    {
      LessExactly(keys[i], keys[j]);
    }
  }

  // ----- grouping

  predicate OccursAt(s: string, d: string, k: nat) {
    k + |d| <= |s| && s[k..k + |d|] == d
  }

  /** The first occurrence at position `i` or later. */
  function FindFrom(s: string, d: string, i: nat): (r: Option<nat>)
    requires i <= |s|
    ensures r.Some? ==> i <= r.value && OccursAt(s, d, r.value)
    ensures forall k {:trigger OccursAt(s, d, k)} :: i <= k && OccursAt(s, d, k) ==> r.Some? && r.value <= k
    decreases |s| - i
  {
    if OccursAt(s, d, i) then Some(i)
    else if i == |s| then None
    else FindFrom(s, d, i + 1)
  }

  /** The common prefix a matching key rolls up into, if the delimiter occurs after the request's prefix. */
  function RollUp(key: string, prefix: string, delimiter: string): (r: Option<string>)
    requires prefix <= key
    ensures r.Some? ==> prefix <= r.value <= key && |r.value| >= |prefix| + |delimiter|
  {
    var rest := key[|prefix|..];
    if delimiter == "" then None
    else
      match FindFrom(rest, delimiter, 0)
      case None => None
      case Some(cut) =>
        assert prefix + rest == key;
        Some(prefix + rest[..cut + |delimiter|])
  }

  type Contents = map<string, Entry>

  /** What grouping keeps: the last object under each key that is not rolled up, and every rolled-up prefix. */
  function GroupedContents(objects: seq<Entry>, prefix: string, delimiter: string): Contents {
    if objects == [] then map[]
    else
      var e, before := objects[|objects| - 1], GroupedContents(objects[..|objects| - 1], prefix, delimiter);
      if prefix <= e.key && RollUp(e.key, prefix, delimiter).None? then before[e.key := e] else before
  }

  function GroupedPrefixes(objects: seq<Entry>, prefix: string, delimiter: string): set<string> {
    set i | 0 <= i < |objects| && prefix <= objects[i].key && RollUp(objects[i].key, prefix, delimiter).Some? ::
      RollUp(objects[i].key, prefix, delimiter).value
  }

  method Group(objects: seq<Entry>, prefix: string, delimiter: string) returns (contents: Contents, common: set<string>)
    ensures contents == GroupedContents(objects, prefix, delimiter)
    ensures common == GroupedPrefixes(objects, prefix, delimiter)
  {
    hide RollUp;
    contents, common := map[], {};
    for i := 0 to |objects|
      invariant contents == GroupedContents(objects[..i], prefix, delimiter)
      invariant common == GroupedPrefixes(objects[..i], prefix, delimiter)
    {
      var entry := objects[i];
      assert objects[..i + 1][..i] == objects[..i];
      PrefixesMore(objects[..i], entry, prefix, delimiter);
      assert objects[..i + 1] == objects[..i] + [entry];
      if prefix <= entry.key {
        var rolled := RollUp(entry.key, prefix, delimiter);
        if rolled.Some? {
          common := common + {rolled.value};
        } else {
          contents := contents[entry.key := entry];
        }
      }
    }
    assert objects[..|objects|] == objects;
  }

  lemma PrefixesMore(objects: seq<Entry>, e: Entry, prefix: string, delimiter: string)
    ensures GroupedPrefixes(objects + [e], prefix, delimiter) ==
            GroupedPrefixes(objects, prefix, delimiter)
            + if prefix <= e.key && RollUp(e.key, prefix, delimiter).Some? then {RollUp(e.key, prefix, delimiter).value} else {}
  {
    hide RollUp;
    var all := objects + [e];
    var left, right := GroupedPrefixes(all, prefix, delimiter), GroupedPrefixes(objects, prefix, delimiter);
    forall p | p in left
      ensures p in right || (prefix <= e.key && RollUp(e.key, prefix, delimiter) == Some(p))
    {
      var i :| 0 <= i < |all| && prefix <= all[i].key && RollUp(all[i].key, prefix, delimiter) == Some(p);
      if i < |objects| { assert all[i] == objects[i]; }
    }
    forall p | p in right
      ensures p in left
    {
      var i :| 0 <= i < |objects| && prefix <= objects[i].key && RollUp(objects[i].key, prefix, delimiter) == Some(p);
      assert all[i] == objects[i];
    }
    assert all[|objects|] == e;
  }

  // ----- ordering

  /** The strictly increasing listing of a set of keys. */
  ghost function SortedKeys(s: set<string>): (r: seq<string>)
    ensures Increasing(r) && Elements(r) == s
    decreases |s|
  {
    if s == {} then []
    else
      var least := Least(s);
      var rest := SortedKeys(s - {least});
      LeastFirst(s, least, rest);
      [least] + rest
  }

  lemma LeastFirst(s: set<string>, least: string, rest: seq<string>)
    requires IsLeast(s, least) && Increasing(rest) && Elements(rest) == s - {least}
    ensures Increasing([least] + rest) && Elements([least] + rest) == s
  {
    hide Less;
    forall i | 0 <= i < |rest|
      ensures Less(least, rest[i])
    {
      assert rest[i] in Elements(rest);
    }
    var all := [least] + rest;
    forall i, j | 0 <= i < j < |all|
      ensures Less(all[i], all[j])
    {
      assert all[j] == rest[j - 1];
    }
    assert Elements(all) == {least} + Elements(rest);
  }

  ghost predicate IsLeast(s: set<string>, k: string) {
    k in s && forall j <- s :: j != k ==> Less(k, j)
  }

  ghost function Least(s: set<string>): (k: string)
    requires s != {}
    ensures IsLeast(s, k)
  {
    LeastExists(s);
    var k :| IsLeast(s, k);
    k
  }

  lemma {:induction false} LeastExists(s: set<string>)
    requires s != {}
    ensures exists k :: IsLeast(s, k)
    decreases |s|
  {
    hide Less;
    var x :| x in s;
    var rest := s - {x};
    if rest == {} {
      assert s == {x};
      assert IsLeast(s, x);
    } else {
      LeastExists(rest);
      var y :| IsLeast(rest, y);
      LessTotal(x, y);
      if Less(x, y) {
        forall j | j in rest && j != y ensures Less(x, j) { LessTransitive(x, y, j); }
        assert IsLeast(s, x);
      } else {
        assert IsLeast(s, y);
      }
    }
  }

  /** There is only one way to sort: two increasing listings of the same keys are the same. */
  lemma {:induction false} SortingIsUnique(a: seq<string>, b: seq<string>)
    requires Increasing(a) && Increasing(b) && Elements(a) == Elements(b)
    ensures a == b
    decreases |a|
  {
    if a == [] {
      if b != [] { NonEmptyElements(b); }
    } else {
      assert a[0] in Elements(b) && b != [] by { assert a[0] in Elements(a); }
      assert b[0] in Elements(a) by { assert b[0] in Elements(b); }
      FirstIsLeast(a, b[0]);
      FirstIsLeast(b, a[0]);
      LessTotal(a[0], b[0]);
      TailElements(a);
      TailElements(b);
      SortingIsUnique(a[1..], b[1..]);
      assert a == [a[0]] + a[1..] && b == [b[0]] + b[1..];
    }
  }

  lemma NonEmptyElements(b: seq<string>)
    requires b != []
    ensures Elements(b) != {}
  {
    assert b[0] in Elements(b);
  }

  lemma FirstIsLeast(a: seq<string>, k: string)
    requires Increasing(a) && k in Elements(a)
    ensures a != [] && (k == a[0] || Less(a[0], k))
  {
  }

  lemma TailElements(a: seq<string>)
    requires Increasing(a) && a != []
    ensures Increasing(a[1..]) && Elements(a[1..]) == Elements(a) - {a[0]}
  {
    forall k | k in Elements(a[1..])
      ensures k in Elements(a) && k != a[0]
    {
      var i :| 0 <= i < |a[1..]| && a[1..][i] == k;
      assert a[i + 1] == k && Less(a[0], a[i + 1]);
      LessTotal(a[0], k);
    }
    forall k | k in Elements(a) && k != a[0]
      ensures k in Elements(a[1..])
    {
      var i :| 0 <= i < |a| && a[i] == k;
      assert a[1..][i - 1] == k;
    }
  }

  /** Sorting by insertion. */
  method Sort(keys: set<string>) returns (sorted: seq<string>)
    ensures sorted == SortedKeys(keys) && Elements(sorted) == keys && InKeyOrder(sorted)
  {
    sorted := [];
    var left := keys;
    assert keys - left == {};
    while left != {}
      invariant left <= keys && Increasing(sorted) && Elements(sorted) == keys - left
      decreases |left|
    {
      var k :| k in left;
      assert k !in Elements(sorted);
      sorted := Insert(sorted, k);
      assert keys - (left - {k}) == (keys - left) + {k};
      left := left - {k};
    }
    assert keys - left == keys;
    SortingIsUnique(sorted, SortedKeys(keys));
    IncreasingIsKeyOrder(sorted);
  }

  method Insert(sorted: seq<string>, k: string) returns (r: seq<string>)
    requires Increasing(sorted) && k !in Elements(sorted)
    ensures Increasing(r) && Elements(r) == Elements(sorted) + {k}
  {
    var i := 0;
    while i < |sorted| && Less(sorted[i], k)
      invariant i <= |sorted| && forall j :: 0 <= j < i ==> Less(sorted[j], k)
    {
      i := i + 1;
    }
    r := sorted[..i] + [k] + sorted[i..];
    InsertedIsSorted(sorted, k, i);
  }

  lemma InsertedIsSorted(sorted: seq<string>, k: string, i: nat)
    requires Increasing(sorted) && k !in Elements(sorted) && i <= |sorted|
    requires (forall j :: 0 <= j < i ==> Less(sorted[j], k)) && (i < |sorted| ==> !Less(sorted[i], k))
    ensures var r := sorted[..i] + [k] + sorted[i..]; Increasing(r) && Elements(r) == Elements(sorted) + {k}
  {
    hide Less;
    var r := sorted[..i] + [k] + sorted[i..];
    if i < |sorted| {
      assert sorted[i] in Elements(sorted);
      LessTotal(sorted[i], k);
    }
    forall j | i <= j < |sorted|
      ensures Less(k, sorted[j])
    {
      if j > i { LessTransitive(k, sorted[i], sorted[j]); }
    }
    forall a, b | 0 <= a < b < |r|
      ensures Less(r[a], r[b])
    {
      InsertedAt(sorted, k, i, a);
      InsertedAt(sorted, k, i, b);
    }
    InsertedElements(sorted, k, i);
  }

  lemma InsertedAt(sorted: seq<string>, k: string, i: nat, a: nat)
    requires i <= |sorted| && a <= |sorted|
    ensures (sorted[..i] + [k] + sorted[i..])[a] == if a < i then sorted[a] else if a == i then k else sorted[a - 1]
  {
  }

  lemma InsertedElements(sorted: seq<string>, k: string, i: nat)
    requires i <= |sorted|
    ensures Elements(sorted[..i] + [k] + sorted[i..]) == Elements(sorted) + {k}
  {
    assert sorted == sorted[..i] + sorted[i..];
  }

  // ----- a page

  function Remaining(keys: seq<string>, after: Option<string>): seq<string> {
    if after.None? || keys == [] then keys
    else (if Less(after.value, keys[0]) then [keys[0]] else []) + Remaining(keys[1..], after)
  }

  function EntriesOf(keys: seq<string>, contents: Contents): seq<Entry> {
    if keys == [] then []
    else (if keys[0] in contents then [contents[keys[0]]] else []) + EntriesOf(keys[1..], contents)
  }

  function PrefixesOf(keys: seq<string>, contents: Contents): seq<string> {
    if keys == [] then []
    else (if keys[0] in contents then [] else [keys[0]]) + PrefixesOf(keys[1..], contents)
  }

  /** All the items of a listing, in key order. */
  ghost function Items(objects: seq<Entry>, prefix: string, delimiter: string): (keys: seq<string>)
    ensures Increasing(keys)
  {
    SortedKeys(GroupedContents(objects, prefix, delimiter).Keys + GroupedPrefixes(objects, prefix, delimiter))
  }

  function Cut(items: seq<string>, contents: Contents, limit: nat): Page {
    var page := items[..Min(limit, |items|)];
    Page(EntriesOf(page, contents), PrefixesOf(page, contents), |items| > limit,
         if |items| > limit && page != [] then Some(page[|page| - 1]) else None)
  }

  ghost function ListPage(objects: seq<Entry>, req: Request): Page {
    Cut(Remaining(Items(objects, req.prefix, req.delimiter), req.After()), GroupedContents(objects, req.prefix, req.delimiter), req.Limit())
  }

  // ----- what a page is

  /** The delimiter occurs at `cut`, and nowhere between the request's prefix and there. */
  predicate FirstCut(key: string, prefix: string, delimiter: string, cut: nat) {
    && delimiter != "" && |prefix| <= cut && OccursAt(key, delimiter, cut)
    && forall k :: |prefix| <= k < cut ==> !OccursAt(key, delimiter, k)
  }

  /** A matching key rolls up exactly when the delimiter occurs after the prefix, and then up to the end of its first occurrence. */
  lemma RollUpExactly(key: string, prefix: string, delimiter: string)
    requires prefix <= key
    ensures RollUp(key, prefix, delimiter).None? <==> forall cut: nat :: !FirstCut(key, prefix, delimiter, cut)
    ensures forall cut: nat :: FirstCut(key, prefix, delimiter, cut) ==> RollUp(key, prefix, delimiter) == Some(key[..cut + |delimiter|])
  {
    var rest := key[|prefix|..];
    forall k: nat
      ensures OccursAt(rest, delimiter, k) <==> OccursAt(key, delimiter, |prefix| + k)
    {
      if k + |delimiter| <= |rest| { assert rest[k..k + |delimiter|] == key[|prefix| + k..|prefix| + k + |delimiter|]; }
    }
    if delimiter != "" {
      var found := FindFrom(rest, delimiter, 0);
      forall cut: nat | FirstCut(key, prefix, delimiter, cut)
        ensures found == Some(cut - |prefix|) && prefix + rest[..cut - |prefix| + |delimiter|] == key[..cut + |delimiter|]
      {
        assert OccursAt(rest, delimiter, cut - |prefix|);
        assert OccursAt(key, delimiter, |prefix| + found.value);
        assert key == prefix + rest;
      }
      if found.Some? {
        forall k | |prefix| <= k < |prefix| + found.value
          ensures !OccursAt(key, delimiter, k)
        {
          assert !OccursAt(rest, delimiter, k - |prefix|);
        }
        assert FirstCut(key, prefix, delimiter, |prefix| + found.value);
      }
    }
  }

  /** The key of a matching object without the delimiter after the prefix. */
  ghost predicate IsContent(objects: seq<Entry>, prefix: string, delimiter: string, key: string) {
    (exists e <- objects :: e.key == key) && prefix <= key && forall cut: nat :: !FirstCut(key, prefix, delimiter, cut)
  }

  ghost predicate CutsTo(key: string, prefix: string, delimiter: string, head: string) {
    exists cut: nat :: FirstCut(key, prefix, delimiter, cut) && head == key[..cut + |delimiter|]
  }

  /** Some matching object's key, up to the end of the first delimiter after the prefix. */
  ghost predicate IsCommonPrefix(objects: seq<Entry>, prefix: string, delimiter: string, key: string) {
    exists e <- objects :: prefix <= e.key && CutsTo(e.key, prefix, delimiter, key)
  }

  /** What a listing is a listing of, without grouping. */
  lemma ItemExactly(objects: seq<Entry>, prefix: string, delimiter: string, key: string)
    ensures key in GroupedContents(objects, prefix, delimiter) <==> IsContent(objects, prefix, delimiter, key)
    ensures key in GroupedPrefixes(objects, prefix, delimiter) <==> IsCommonPrefix(objects, prefix, delimiter, key)
    ensures key in Items(objects, prefix, delimiter) <==> IsContent(objects, prefix, delimiter, key) || IsCommonPrefix(objects, prefix, delimiter, key)
  {
    hide RollUp, GroupedContents, FirstCut, Increasing;
    ContentsAre(objects, prefix, delimiter, key);
    if prefix <= key { RollUpExactly(key, prefix, delimiter); }
    if key in GroupedPrefixes(objects, prefix, delimiter) {
      var i :| 0 <= i < |objects| && prefix <= objects[i].key && RollUp(objects[i].key, prefix, delimiter) == Some(key);
      RollUpExactly(objects[i].key, prefix, delimiter);
      assert objects[i] in objects;
    }
    if IsCommonPrefix(objects, prefix, delimiter, key) {
      var e :| e in objects && prefix <= e.key && CutsTo(e.key, prefix, delimiter, key);
      RollUpExactly(e.key, prefix, delimiter);
      var i :| 0 <= i < |objects| && objects[i] == e;
    }
    var items := Items(objects, prefix, delimiter);
    assert key in items <==> key in Elements(items);
  }

  /** The items still to be reported: those after the token if there is one, otherwise after `startAfter` if that is given, otherwise all. */
  ghost function Due(objects: seq<Entry>, req: Request): set<string> {
    set k | k in Items(objects, req.prefix, req.delimiter) &&
      (match req.token
       case Some(last) => Precedes(last, k)
       case None => req.startAfter.Some? ==> Precedes(req.startAfter.value, k))
  }

  function Earlier(due: set<string>, key: string): set<string> {
    set k | k in due && Precedes(k, key)
  }

  function ReportedKeys(page: Page): set<string> {
    (set e | e in page.entries :: e.key) + Elements(page.commonPrefixes)
  }

  /** Of several objects under one key the last one counts. */
  ghost predicate LastUnderKey(objects: seq<Entry>, e: Entry) {
    exists i :: 0 <= i < |objects| && objects[i] == e && forall j :: i < j < |objects| ==> objects[j].key != e.key
  }

  ghost predicate PageOk(objects: seq<Entry>, req: Request, page: Page) {
    var due, limit := Due(objects, req), Max(0, Min(req.maxKeys, 1000));
    && (forall key :: key in ReportedKeys(page) <==> key in due && |Earlier(due, key)| < limit)
    && (page.truncated <==> |due| > limit)
    && (page.next.Some? <==> |due| > limit > 0)
    && (page.next.Some? ==> page.next.value in ReportedKeys(page) && Earlier(ReportedKeys(page), page.next.value) == ReportedKeys(page) - {page.next.value})
    && InKeyOrder(KeysOf(page.entries)) && InKeyOrder(page.commonPrefixes)
    && (forall e <- page.entries :: LastUnderKey(objects, e) && IsContent(objects, req.prefix, req.delimiter, e.key))
    && (forall key <- page.commonPrefixes :: IsCommonPrefix(objects, req.prefix, req.delimiter, key))
  }

  function KeysOf(entries: seq<Entry>): seq<string> {
    if entries == [] then [] else [entries[0].key] + KeysOf(entries[1..])
  }

  /** Contents filed under their own keys. */
  ghost predicate Filed(contents: Contents) {
    forall k <- contents :: contents[k].key == k
  }

  lemma {:induction false} SplitMembers(keys: seq<string>, contents: Contents, key: string)
    requires Filed(contents)
    ensures key in KeysOf(EntriesOf(keys, contents)) <==> key in keys && key in contents
    ensures key in PrefixesOf(keys, contents) <==> key in keys && key !in contents
    ensures key in keys && key in contents ==> contents[key] in EntriesOf(keys, contents)
    decreases |keys|
  {
    if keys != [] {
      assert keys == [keys[0]] + keys[1..];
      var entries, prefixes := EntriesOf(keys[1..], contents), PrefixesOf(keys[1..], contents);
      SplitMembers(keys[1..], contents, key);
      if keys[0] in contents {
        assert ([contents[keys[0]]] + entries)[1..] == entries && [] + prefixes == prefixes;
      } else {
        assert [] + entries == entries;
      }
    }
  }

  lemma {:induction false} EntriesAreFiled(keys: seq<string>, contents: Contents, e: Entry)
    requires Filed(contents) && e in EntriesOf(keys, contents)
    ensures e.key in keys && e.key in contents && contents[e.key] == e
    decreases |keys|
  {
    if keys != [] {
      assert keys == [keys[0]] + keys[1..];
      if e in EntriesOf(keys[1..], contents) { EntriesAreFiled(keys[1..], contents, e); }
    }
  }

  lemma {:induction false} SplitInOrder(keys: seq<string>, contents: Contents)
    requires Filed(contents) && InKeyOrder(keys)
    ensures InKeyOrder(KeysOf(EntriesOf(keys, contents))) && InKeyOrder(PrefixesOf(keys, contents))
    decreases |keys|
  {
    hide Precedes;
    if keys != [] {
      var tail := keys[1..];
      var entries, prefixes := EntriesOf(tail, contents), PrefixesOf(tail, contents);
      assert forall i :: 0 <= i < |tail| ==> tail[i] == keys[i + 1];
      SplitInOrder(tail, contents);
      if keys[0] in contents {
        assert ([contents[keys[0]]] + entries)[1..] == entries;
        forall k | k in KeysOf(entries) ensures Precedes(keys[0], k) { SplitMembers(tail, contents, k); }
        InFront(keys[0], KeysOf(entries));
      } else {
        assert [] + entries == entries;
        forall k | k in prefixes ensures Precedes(keys[0], k) { SplitMembers(tail, contents, k); }
        InFront(keys[0], prefixes);
      }
    }
  }

  lemma InFront(key: string, keys: seq<string>)
    requires InKeyOrder(keys) && forall k <- keys :: Precedes(key, k)
    ensures InKeyOrder([key] + keys)
  {
    hide Precedes;
  }

  lemma {:induction false} ContentsAreLast(objects: seq<Entry>, prefix: string, delimiter: string, key: string)
    requires key in GroupedContents(objects, prefix, delimiter)
    ensures GroupedContents(objects, prefix, delimiter)[key].key == key && LastUnderKey(objects, GroupedContents(objects, prefix, delimiter)[key])
    decreases |objects|
  {
    hide RollUp, LastUnderKey;
    var last, before := objects[|objects| - 1], objects[..|objects| - 1];
    assert objects == before + [last];
    if key in GroupedContents(before, prefix, delimiter) {
      ContentsAreLast(before, prefix, delimiter, key);
      if last.key != key { LaterKeyIsOther(before, GroupedContents(before, prefix, delimiter)[key], last); }
    }
    LastIsLast(before, last);
    ContentsAre(objects, prefix, delimiter, key);
    OnlyContents(before, last, prefix, delimiter, key);
  }

  lemma LastIsLast(before: seq<Entry>, last: Entry)
    ensures LastUnderKey(before + [last], last)
  {
    assert (before + [last])[|before|] == last;
  }

  lemma LaterKeyIsOther(before: seq<Entry>, e: Entry, last: Entry)
    requires LastUnderKey(before, e) && last.key != e.key
    ensures LastUnderKey(before + [last], e)
  {
    var i :| 0 <= i < |before| && before[i] == e && forall j :: i < j < |before| ==> before[j].key != e.key;
    assert (before + [last])[i] == e;
  }

  /** An object whose key is a content's is that content, if it comes last. */
  lemma OnlyContents(before: seq<Entry>, last: Entry, prefix: string, delimiter: string, key: string)
    requires key in GroupedContents(before + [last], prefix, delimiter)
    ensures GroupedContents(before + [last], prefix, delimiter)[key] ==
              if last.key == key then last else if key in GroupedContents(before, prefix, delimiter) then GroupedContents(before, prefix, delimiter)[key] else last
  {
    hide RollUp;
    assert (before + [last])[..|before|] == before;
    ContentsAre(before, prefix, delimiter, key);
    ContentsAre(before + [last], prefix, delimiter, key);
  }

  /** In an increasing listing, an item's place is the number of items before it. */
  lemma PlaceOf(keys: seq<string>, i: nat)
    requires Increasing(keys) && i < |keys|
    ensures |Earlier(Elements(keys), keys[i])| == i
  {
    hide Less, Precedes;
    IncreasingIsKeyOrder(keys);
    forall j, k | 0 <= j < k < |keys|
      ensures keys[j] != keys[k] && !Precedes(keys[k], keys[j])
    {
      LessTotal(keys[j], keys[k]);
      LessExactly(keys[k], keys[j]);
    }
    LessTotal(keys[i], keys[i]);
    LessExactly(keys[i], keys[i]);
    assert Earlier(Elements(keys), keys[i]) == Elements(keys[..i]);
    DistinctCount(keys[..i]);
  }

  lemma DueIs(objects: seq<Entry>, req: Request)
    ensures var rest := Remaining(Items(objects, req.prefix, req.delimiter), req.After());
            Increasing(rest) && Elements(rest) == Due(objects, req) && |Due(objects, req)| == |rest|
  {
    hide Less, Remaining, Items, Precedes;
    var items, after := Items(objects, req.prefix, req.delimiter), req.After();
    var k := RemainingIsSuffix(items, after);
    var rest := Remaining(items, after);
    forall i | 0 <= i < |items| && after.Some?
      ensures Precedes(after.value, items[i]) <==> i >= k
    {
      LessExactly(after.value, items[i]);
    }
    if after.None? { AllWithoutCursor(items); }
    forall i, j | 0 <= i < j < |rest| ensures rest[i] != rest[j] { LessTotal(rest[i], rest[j]); }
    DistinctCount(rest);
    forall key | key in Due(objects, req) ensures key in rest {
      var i :| 0 <= i < |items| && items[i] == key;
      if after.Some? { assert rest[i - k] == key; }
    }
  }

  lemma AllWithoutCursor(items: seq<string>)
    ensures Remaining(items, None) == items
  {
  }

  /**
   * A page in terms of the request and the objects alone: exactly the items due with fewer than the limit of
   * due items before them, in key order, with a token for the last of them exactly when something is left.
   */
  lemma PageExactly(objects: seq<Entry>, req: Request)
    ensures PageOk(objects, req, ListPage(objects, req))
  {
    hide Less, Remaining, Items, Precedes, GroupedContents, GroupedPrefixes, IsContent, IsCommonPrefix, LastUnderKey, KeysOf, InKeyOrder, Increasing, EntriesOf, PrefixesOf;
    var contents := GroupedContents(objects, req.prefix, req.delimiter);
    var rest, limit, due := Remaining(Items(objects, req.prefix, req.delimiter), req.After()), req.Limit(), Due(objects, req);
    var page := ListPage(objects, req);
    DueIs(objects, req);
    forall k | k in contents ensures contents[k].key == k { ContentsAreLast(objects, req.prefix, req.delimiter, k); }
    CutReports(rest, contents, limit);
    CutItems(objects, req);
  }

  /** Cutting an increasing list of items. */
  lemma CutReports(rest: seq<string>, contents: Contents, limit: nat)
    requires Increasing(rest) && Filed(contents)
    ensures var page, due := Cut(rest, contents, limit), Elements(rest);
            && (forall key :: key in ReportedKeys(page) <==> key in due && |Earlier(due, key)| < limit)
            && (page.next.Some? <==> |rest| > limit > 0)
            && (page.next.Some? ==> page.next.value in ReportedKeys(page) && Earlier(ReportedKeys(page), page.next.value) == ReportedKeys(page) - {page.next.value})
            && InKeyOrder(KeysOf(page.entries)) && InKeyOrder(page.commonPrefixes)
  {
    hide Less, Precedes, KeysOf, EntriesOf, PrefixesOf, Earlier;
    var page, taken := Cut(rest, contents, limit), rest[..Min(limit, |rest|)];
    IncreasingIsKeyOrder(rest);
    SplitInOrder(taken, contents);
    forall key
      ensures key in ReportedKeys(page) <==> key in taken
    {
      SplitMembers(taken, contents, key);
      forall e | e in page.entries ensures e.key in taken && e.key in contents { EntriesAreFiled(taken, contents, e); }
      if key in taken && key in contents { assert contents[key] in page.entries; }
    }
    forall key
      ensures key in taken <==> key in rest && |Earlier(Elements(rest), key)| < limit
    {
      if key in rest {
        var i :| 0 <= i < |rest| && rest[i] == key;
        PlaceOf(rest, i);
        if i < |taken| { assert taken[i] == key; }
        if key in taken {
          var j :| 0 <= j < |taken| && taken[j] == key;
          PlaceOf(rest, j);
        }
      }
    }
    if page.next.Some? { LastIsGreatest(taken); }
  }

  lemma LastIsGreatest(keys: seq<string>)
    requires Increasing(keys) && keys != []
    ensures var last := keys[|keys| - 1]; last in keys && forall s :: s == Elements(keys) ==> Earlier(s, last) == s - {last}
  {
    hide Less, Precedes;
    var last := keys[|keys| - 1];
    LessTotal(last, last);
    LessExactly(last, last);
    IncreasingIsKeyOrder(keys);
    forall k | k in keys && k != last
      ensures Precedes(k, last)
    {
      var i :| 0 <= i < |keys| && keys[i] == k;
    }
  }

  lemma CutItems(objects: seq<Entry>, req: Request)
    ensures var page := ListPage(objects, req);
            && (forall e <- page.entries :: LastUnderKey(objects, e) && IsContent(objects, req.prefix, req.delimiter, e.key))
            && (forall key <- page.commonPrefixes :: IsCommonPrefix(objects, req.prefix, req.delimiter, key))
  {
    hide Less, Remaining, Precedes, GroupedContents, GroupedPrefixes, IsContent, IsCommonPrefix, LastUnderKey, KeysOf, EntriesOf, PrefixesOf, Increasing;
    var contents := GroupedContents(objects, req.prefix, req.delimiter);
    var items := Items(objects, req.prefix, req.delimiter);
    var rest, page := Remaining(items, req.After()), ListPage(objects, req);
    var k := RemainingIsSuffix(items, req.After());
    var taken := rest[..Min(req.Limit(), |rest|)];
    forall key | key in contents ensures contents[key].key == key { ContentsAreLast(objects, req.prefix, req.delimiter, key); }
    forall e | e in page.entries
      ensures LastUnderKey(objects, e) && IsContent(objects, req.prefix, req.delimiter, e.key)
    {
      EntriesAreFiled(taken, contents, e);
      ContentsAreLast(objects, req.prefix, req.delimiter, e.key);
      ItemExactly(objects, req.prefix, req.delimiter, e.key);
    }
    forall key | key in page.commonPrefixes
      ensures IsCommonPrefix(objects, req.prefix, req.delimiter, key)
    {
      SplitMembers(taken, contents, key);
      assert key in Elements(items);
      ItemExactly(objects, req.prefix, req.delimiter, key);
    }
  }

  method ListObjectsV2(objects: seq<Entry>, req: Request) returns (page: Page)
    ensures page == ListPage(objects, req) && PageOk(objects, req, page)
  {
    hide GroupedContents, GroupedPrefixes, SortedKeys, Remaining, PageOk;
    PageExactly(objects, req);
    var contents, common := Group(objects, req.prefix, req.delimiter);
    var items := Sort(contents.Keys + common);
    var remaining := Remaining(items, req.After());
    page := Cut(remaining, contents, req.Limit());
  }

  // ----- following the tokens

  /** A client's loop: the keys of each page in turn, until a page is not truncated. */
  ghost function Follow(keys: seq<string>, after: Option<string>, limit: nat): seq<seq<string>>
    requires Increasing(keys) && limit >= 1
    decreases |Remaining(keys, after)|
  {
    var rest := Remaining(keys, after);
    if |rest| <= limit then [rest]
    else
      ResumesWhereItStopped(keys, after, limit);
      [rest[..limit]] + Follow(keys, Some(rest[limit - 1]), limit)
  }

  lemma {:induction false} RemainingIsSuffix(keys: seq<string>, after: Option<string>) returns (k: nat)
    requires Increasing(keys)
    ensures k <= |keys| && Remaining(keys, after) == keys[k..]
    ensures after.Some? ==> (forall i :: 0 <= i < k ==> !Less(after.value, keys[i])) && (forall i :: k <= i < |keys| ==> Less(after.value, keys[i]))
    decreases |keys|
  {
    hide Less;
    if after.None? || keys == [] {
      k := 0;
    } else if Less(after.value, keys[0]) {
      forall i | 0 <= i < |keys|
        ensures Less(after.value, keys[i])
      {
        if i > 0 { LessTransitive(after.value, keys[0], keys[i]); }
      }
      AllRemain(keys, after.value);
      k := 0;
    } else {
      TailElements(keys);
      var j := RemainingIsSuffix(keys[1..], after);
      k := j + 1;
      assert keys[1..][j..] == keys[k..];
      assert forall i :: 1 <= i < |keys| ==> keys[i] == keys[1..][i - 1];
    }
  }

  lemma {:induction false} AllRemain(keys: seq<string>, after: string)
    requires forall i :: 0 <= i < |keys| ==> Less(after, keys[i])
    ensures Remaining(keys, Some(after)) == keys
    decreases |keys|
  {
    hide Less;
    if keys != [] {
      assert forall i :: 0 <= i < |keys| - 1 ==> keys[1..][i] == keys[i + 1];
      AllRemain(keys[1..], after);
      assert keys == [keys[0]] + keys[1..];
    }
  }

  /** A page's token resumes at exactly the first item the page left out. */
  lemma ResumesWhereItStopped(keys: seq<string>, after: Option<string>, limit: nat)
    requires Increasing(keys) && 1 <= limit < |Remaining(keys, after)|
    ensures Remaining(keys, Some(Remaining(keys, after)[limit - 1])) == Remaining(keys, after)[limit..]
  {
    hide Less, Remaining;
    var k := RemainingIsSuffix(keys, after);
    var last := keys[k + limit - 1];
    assert Remaining(keys, after)[limit - 1] == last;
    var j := RemainingIsSuffix(keys, Some(last));
    LessTotal(last, last);
    assert Less(last, keys[k + limit]) && !Less(last, keys[k + limit - 1]);
    assert j == k + limit;
    assert keys[k..][limit..] == keys[k + limit..];
  }

  /** Following the tokens reports every item once, in order, in at most one request per item. */
  lemma {:induction false} FollowReportsAll(keys: seq<string>, after: Option<string>, limit: nat)
    requires Increasing(keys) && limit >= 1
    ensures Flatten(Follow(keys, after, limit)) == Remaining(keys, after)
    ensures |Follow(keys, after, limit)| <= Max(1, |Remaining(keys, after)|)
    ensures forall page <- Follow(keys, after, limit) :: |page| <= limit
    decreases |Remaining(keys, after)|
  {
    hide Remaining;
    var rest := Remaining(keys, after);
    if |rest| <= limit {
      assert Follow(keys, after, limit)[1..] == [];
    } else {
      ResumesWhereItStopped(keys, after, limit);
      FollowReportsAll(keys, Some(rest[limit - 1]), limit);
      var more := Follow(keys, Some(rest[limit - 1]), limit);
      assert ([rest[..limit]] + more)[1..] == more;
      assert rest[..limit] + rest[limit..] == rest;
    }
  }

  lemma {:induction false} SplitAppend(a: seq<string>, b: seq<string>, contents: Contents)
    ensures EntriesOf(a + b, contents) == EntriesOf(a, contents) + EntriesOf(b, contents)
    ensures PrefixesOf(a + b, contents) == PrefixesOf(a, contents) + PrefixesOf(b, contents)
    decreases |a|
  {
    if a == [] {
      assert a + b == b;
    } else {
      var entry := if a[0] in contents then [contents[a[0]]] else [];
      var other := if a[0] in contents then [] else [a[0]];
      assert (a + b)[1..] == a[1..] + b;
      SplitAppend(a[1..], b, contents);
      Regroup(entry, EntriesOf(a[1..], contents), EntriesOf(b, contents));
      Regroup(other, PrefixesOf(a[1..], contents), PrefixesOf(b, contents));
    }
  }

  lemma Regroup<T>(a: seq<T>, b: seq<T>, c: seq<T>)
    ensures a + (b + c) == a + b + c
  {
  }

  /** A client following the tokens collects every content and every common prefix, in order, and stops. */
  method FollowTokens(objects: seq<Entry>, first: Request) returns (entries: seq<Entry>, prefixes: seq<string>, requests: nat)
    requires first.maxKeys >= 1
    ensures var contents := GroupedContents(objects, first.prefix, first.delimiter);
            var items := Remaining(Items(objects, first.prefix, first.delimiter), first.After());
            entries == EntriesOf(items, contents) && prefixes == PrefixesOf(items, contents) && requests <= Max(1, |items|)
  {
    hide GroupedContents, Items, Remaining, EntriesOf, PrefixesOf, PageOk;
    ghost var contents := GroupedContents(objects, first.prefix, first.delimiter);
    ghost var keys := Items(objects, first.prefix, first.delimiter);
    ghost var all := Remaining(keys, first.After());
    var req := first;
    var page := ListObjectsV2(objects, req);
    entries, prefixes, requests := page.entries, page.commonPrefixes, 1;
    ghost var done := Min(first.Limit(), |all|);
    while page.next.Some?
      invariant req == first.(token := req.token) && page == ListPage(objects, req)
      invariant done == |all| - |Remaining(keys, req.After())| + Min(first.Limit(), |Remaining(keys, req.After())|) <= |all|
      invariant Remaining(keys, req.After()) == all[|all| - |Remaining(keys, req.After())|..]
      invariant |Remaining(keys, req.After())| <= |all| && requests <= Max(1, done)
      invariant entries == EntriesOf(all[..done], contents) && prefixes == PrefixesOf(all[..done], contents)
      decreases |Remaining(keys, req.After())|
    {
      ghost var rest := Remaining(keys, req.After());
      ResumesWhereItStopped(keys, req.After(), req.Limit());
      req := req.(token := page.next);
      page := ListObjectsV2(objects, req);
      entries, prefixes, requests := entries + page.entries, prefixes + page.commonPrefixes, requests + 1;
      ghost var left := Remaining(keys, req.After());
      assert left == rest[first.Limit()..] == all[done..];
      ghost var more := Min(first.Limit(), |left|);
      assert all[..done] + left[..more] == all[..done + more];
      SplitAppend(all[..done], left[..more], contents);
      done := done + more;
    }
    assert all[..done] == all;
  }

  // ----- what an item stands for

  /** The item at `key` reports the object keyed `of`: as its own content, or as the prefix it rolls up into. */
  predicate Reports(objects: seq<Entry>, prefix: string, delimiter: string, key: string, of: string)
    requires prefix <= of
  {
    if key in GroupedContents(objects, prefix, delimiter) then key == of else key <= of
  }

  lemma {:induction false} ContentsAre(objects: seq<Entry>, prefix: string, delimiter: string, key: string)
    ensures key in GroupedContents(objects, prefix, delimiter) <==>
              exists e <- objects :: e.key == key && prefix <= key && RollUp(key, prefix, delimiter).None?
    ensures key in GroupedContents(objects, prefix, delimiter) ==>
              GroupedContents(objects, prefix, delimiter)[key] in objects && GroupedContents(objects, prefix, delimiter)[key].key == key
    decreases |objects|
  {
    hide RollUp;
    if objects != [] {
      var last := objects[|objects| - 1];
      assert objects == objects[..|objects| - 1] + [last];
      ContentsAre(objects[..|objects| - 1], prefix, delimiter, key);
    }
  }

  /** Two keys, one of which starts with the other's common prefix, roll up alike. */
  lemma RollUpShared(a: string, b: string, prefix: string, delimiter: string)
    requires prefix <= a && prefix <= b && RollUp(a, prefix, delimiter).Some?
    requires RollUp(a, prefix, delimiter).value <= b
    ensures RollUp(b, prefix, delimiter) == RollUp(a, prefix, delimiter)
  {
    hide FindFrom;
    var x, y := a[|prefix|..], b[|prefix|..];
    var cut := FindFrom(x, delimiter, 0).value;
    var shared := cut + |delimiter|;
    SharedHead(a, b, prefix, x[..shared]);
    OccursInBoth(x, y, delimiter, cut, shared);
    var found := FindFrom(y, delimiter, 0).value;
    OccursInBoth(y, x, delimiter, found, shared);
  }

  lemma SharedHead(a: string, b: string, prefix: string, head: string)
    requires prefix <= a && prefix <= b && head <= a[|prefix|..] && prefix + head <= b
    ensures head <= b[|prefix|..]
  {
    assert b[..|prefix + head|] == prefix + head;
    assert b[|prefix|..][..|head|] == b[..|prefix + head|][|prefix|..];
  }

  /** An occurrence inside a stretch two strings share occurs in both. */
  lemma OccursInBoth(x: string, y: string, d: string, k: nat, shared: nat)
    requires OccursAt(x, d, k) && k + |d| <= shared <= |x| && shared <= |y| && x[..shared] == y[..shared]
    ensures OccursAt(y, d, k)
  {
    assert y[..shared][k..k + |d|] == y[k..k + |d|];
    assert x[..shared][k..k + |d|] == x[k..k + |d|];
  }

  lemma PrefixKeyIn(objects: seq<Entry>, prefix: string, delimiter: string, i: nat)
    requires i < |objects| && prefix <= objects[i].key && RollUp(objects[i].key, prefix, delimiter).Some?
    ensures RollUp(objects[i].key, prefix, delimiter).value in GroupedPrefixes(objects, prefix, delimiter)
  {
  }

  /** A common prefix is never also a content key. */
  lemma ContentsAreNotPrefixes(objects: seq<Entry>, prefix: string, delimiter: string)
    ensures GroupedContents(objects, prefix, delimiter).Keys !! GroupedPrefixes(objects, prefix, delimiter)
  {
    hide RollUp;
    forall key | key in GroupedPrefixes(objects, prefix, delimiter)
      ensures key !in GroupedContents(objects, prefix, delimiter)
    {
      ContentsAre(objects, prefix, delimiter, key);
      var i :| 0 <= i < |objects| && prefix <= objects[i].key && RollUp(objects[i].key, prefix, delimiter) == Some(key);
      RollUpShared(objects[i].key, key, prefix, delimiter);
    }
  }

  /** Every matching object is reported by exactly one item. */
  lemma ReportedOnce(objects: seq<Entry>, prefix: string, delimiter: string, e: Entry) returns (key: string)
    requires e in objects && prefix <= e.key
    ensures key in Items(objects, prefix, delimiter) && Reports(objects, prefix, delimiter, key, e.key)
    ensures forall k <- Items(objects, prefix, delimiter) :: Reports(objects, prefix, delimiter, k, e.key) ==> k == key
  {
    hide RollUp, SortedKeys, GroupedContents;
    var rolled := RollUp(e.key, prefix, delimiter);
    key := if rolled.Some? then rolled.value else e.key;
    var items := Items(objects, prefix, delimiter);
    var contents, common := GroupedContents(objects, prefix, delimiter), GroupedPrefixes(objects, prefix, delimiter);
    var i :| 0 <= i < |objects| && objects[i] == e;
    ContentsAre(objects, prefix, delimiter, e.key);
    ContentsAreNotPrefixes(objects, prefix, delimiter);
    if rolled.Some? { PrefixKeyIn(objects, prefix, delimiter, i); }
    assert key in Elements(items);
    forall k | k in items && Reports(objects, prefix, delimiter, k, e.key)
      ensures k == key
    {
      assert k in Elements(items);
      if k in common {
        var j :| 0 <= j < |objects| && prefix <= objects[j].key && RollUp(objects[j].key, prefix, delimiter) == Some(k);
        RollUpShared(objects[j].key, e.key, prefix, delimiter);
      }
    }
  }

  /** And nothing is reported that is not there: every item stands for some matching object. */
  lemma EveryItemIsSomething(objects: seq<Entry>, prefix: string, delimiter: string, key: string)
    requires key in Items(objects, prefix, delimiter)
    ensures exists e <- objects :: prefix <= e.key && Reports(objects, prefix, delimiter, key, e.key)
  {
    hide RollUp, SortedKeys, GroupedContents;
    assert key in Elements(Items(objects, prefix, delimiter));
    ContentsAre(objects, prefix, delimiter, key);
    ContentsAreNotPrefixes(objects, prefix, delimiter);
    if key in GroupedPrefixes(objects, prefix, delimiter) {
      var i :| 0 <= i < |objects| && prefix <= objects[i].key && RollUp(objects[i].key, prefix, delimiter) == Some(key);
      assert objects[i] in objects && key <= objects[i].key;
    }
  }
}
