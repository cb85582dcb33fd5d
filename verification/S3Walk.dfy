/**
 * Object keys over a user's own tree: splitting them into names, walking a folder to list them, and
 * descending the names again to find the node.
 */
module S3Walk {
  import opened Prelude
  import opened Tree
  import opened TreeInvariant
  import opened Walks
  import opened S3Listing

  // ----- keys and segments

  /** Non-empty parts between slashes; `part` is the one being read. */
  function SegmentsFrom(s: string, part: string): seq<string>
    decreases |s|
  {
    var done := if part == "" then [] else [part];
    if s == "" then done
    else if s[0] == '/' then done + SegmentsFrom(s[1..], "")
    else SegmentsFrom(s[1..], part + [s[0]])
  }

  function Segments(key: string): seq<string> {
    SegmentsFrom(key, "")
  }

  /** The folder part of a prefix: all of it when it ends in a slash, otherwise all but the last component. */
  function DirSegments(prefix: string): seq<string> {
    var segments := Segments(prefix);
    if prefix != "" && prefix[|prefix| - 1] == '/' then segments
    else if segments == [] then []
    else segments[..|segments| - 1]
  }

  /** The names as a folder key, each followed by a slash. */
  function Join(names: seq<string>): string {
    if names == [] then "" else names[0] + "/" + Join(names[1..])
  }

  predicate Segment(name: string) {
    name != "" && '/' !in name
  }

  predicate AllSegments(names: seq<string>) {
    forall i :: 0 <= i < |names| ==> Segment(names[i])
  }

  lemma {:induction false} ReadPart(name: string, rest: string, part: string)
    requires '/' !in name
    ensures SegmentsFrom(name + rest, part) == SegmentsFrom(rest, part + name)
    decreases |name|
  {
    if name == "" {
      assert name + rest == rest && part + name == part;
    } else {
      assert (name + rest)[1..] == name[1..] + rest && (name + rest)[0] == name[0];
      ReadPart(name[1..], rest, part + [name[0]]);
      assert part + [name[0]] + name[1..] == part + name;
    }
  }

  /** Splitting undoes joining. */
  lemma {:induction false} SegmentsOfJoin(names: seq<string>, last: string)
    requires AllSegments(names) && '/' !in last
    ensures Segments(Join(names) + last) == names + if last == "" then [] else [last]
    decreases |names|
  {
    if names == [] {
      assert Join(names) + last == last + "";
      ReadPart(last, "", "");
      assert "" + last == last;
      assert SegmentsFrom("", last) == if last == "" then [] else [last];
    } else {
      var rest := "/" + (Join(names[1..]) + last);
      assert Join(names) + last == names[0] + rest;
      ReadPart(names[0], rest, "");
      assert "" + names[0] == names[0] && Segment(names[0]);
      assert rest[1..] == Join(names[1..]) + last;
      assert AllSegments(names[1..]) by { assert forall i :: 0 <= i < |names| - 1 ==> names[1..][i] == names[i + 1]; }
      SegmentsOfJoin(names[1..], last);
      assert names == [names[0]] + names[1..];
    }
  }

  lemma {:induction false} JoinAppend(a: seq<string>, b: seq<string>)
    ensures Join(a + b) == Join(a) + Join(b)
    decreases |a|
  {
    if a == [] {
      assert a + b == b;
    } else {
      assert (a + b)[1..] == a[1..] + b;
      JoinAppend(a[1..], b);
    }
  }

  lemma JoinMore(names: seq<string>, name: string)
    ensures Join(names + [name]) == Join(names) + name + "/"
  {
    JoinAppend(names, [name]);
    assert [name][1..] == [];
    assert Join([name]) == name + "/";
  }

  predicate EndsInSlash(s: string) {
    s != "" && s[|s| - 1] == '/'
  }

  lemma {:induction false} JoinEnds(names: seq<string>)
    ensures names == [] ==> Join(names) == ""
    ensures names != [] ==> EndsInSlash(Join(names))
    decreases |names|
  {
    if names != [] {
      JoinEnds(names[1..]);
      assert names[1..] == [] ==> Join(names) == names[0] + "/";
    }
  }

  /** A leading part of a key that stops at a slash is a leading run of its names. */
  lemma {:induction false} HeadIsNames(names: seq<string>, last: string, head: string) returns (k: nat)
    requires AllSegments(names) && '/' !in last && head <= Join(names) + last && (head == "" || EndsInSlash(head))
    ensures k <= |names| && head == Join(names[..k])
    decreases |names|
  {
    if names == [] {
      NoSlashHead(last, head);
      k := 0;
    } else if head == "" {
      k := 0;
    } else {
      var first := names[0] + "/";
      var rest := Join(names[1..]) + last;
      assert Join(names) + last == first + rest;
      FirstSlash(names[0], rest, head);
      var tail := head[|first|..];
      assert head == first + tail;
      assert AllSegments(names[1..]) by { assert forall i :: 0 <= i < |names| - 1 ==> names[1..][i] == names[i + 1]; }
      var j := HeadIsNames(names[1..], last, tail);
      k := j + 1;
      assert names[..k][1..] == names[1..][..j];
    }
  }

  lemma NoSlashHead(last: string, head: string)
    requires '/' !in last && head <= last && (head == "" || EndsInSlash(head))
    ensures head == ""
  {
    if head != "" { HeadEnds(last, head); }
  }

  lemma HeadEnds(last: string, head: string)
    requires head <= last && EndsInSlash(head)
    ensures '/' in last
  {
    assert last[|head| - 1] == '/';
  }

  lemma FirstSlash(name: string, rest: string, head: string)
    requires Segment(name) && head <= name + "/" + rest && EndsInSlash(head)
    ensures name + "/" <= head && head[|name| + 1..] <= rest
    ensures head[|name| + 1..] == "" || EndsInSlash(head[|name| + 1..])
  {
    var whole := name + "/" + rest;
    assert whole[|head| - 1] == '/';
    assert forall i :: 0 <= i < |name| ==> whole[i] == name[i];
    assert |head| > |name|;
    assert head == whole[..|head|];
    assert whole[..|name| + 1] == name + "/";
    assert head[|name| + 1..] == whole[|name| + 1..|head|];
  }

  /** Any string is a part that stops at a slash followed by a part without one. */
  lemma {:induction false} SplitAtLastSlash(s: string) returns (head: string, partial: string)
    ensures s == head + partial && '/' !in partial && (head == "" || EndsInSlash(head))
    decreases |s|
  {
    if s == "" || s[|s| - 1] == '/' {
      head, partial := s, "";
      assert s + "" == s;
    } else {
      var c := s[|s| - 1];
      assert s == s[..|s| - 1] + [c];
      head, partial := SplitAtLastSlash(s[..|s| - 1]);
      partial := partial + [c];
    }
  }

  /** The folder names of a prefix of some key are leading names of that key. */
  lemma DirOfPrefix(names: seq<string>, last: string, prefix: string) returns (k: nat)
    requires AllSegments(names) && Segment(last) && prefix <= Join(names) + last
    ensures k <= |names| && DirSegments(prefix) == names[..k]
  {
    var head, partial := SplitAtLastSlash(prefix);
    assert head <= Join(names) + last by { assert head == prefix[..|head|]; }
    k := HeadIsNames(names, last, head);
    var leading := names[..k];
    SegmentsOfJoin(leading, partial);
    JoinEnds(leading);
    if partial == "" {
      assert prefix == head;
    } else {
      assert prefix[|prefix| - 1] == partial[|partial| - 1];
      assert (leading + [partial])[..|leading|] == leading;
    }
  }

  // ----- the tree's own keys

  /** The names from the top of the tree down to `n`; none for the top itself. */
  ghost function Path(d: Drive, n: Id): seq<string>
    requires d.WellFormed() && n in d.rows
    decreases |Above(d.rows, n)|
  {
    StepUp(d, n);
    if d.rows[n].parent.None? then []
    else
      StepUp(d, d.rows[n].parent.value);
      StrictlyFewer(Above(d.rows, d.rows[n].parent.value), Above(d.rows, n));
      Path(d, d.rows[n].parent.value) + [d.rows[n].name]
  }

  /** What a folder contributes to the keys beneath it. */
  ghost function FolderKey(d: Drive, n: Id): string
    requires d.WellFormed() && n in d.rows
  {
    Join(Path(d, n))
  }

  /** The key a file is listed under. */
  ghost function FileKey(d: Drive, n: Id): string
    requires d.WellFormed() && n in d.rows && d.rows[n].parent.Some?
  {
    InTree(d, n);
    FolderKey(d, d.rows[n].parent.value) + d.rows[n].name
  }

  lemma InTree(d: Drive, n: Id)
    requires d.WellFormed() && n in d.rows && d.rows[n].parent.Some?
    ensures d.rows[n].parent.value in d.rows && d.rows[d.rows[n].parent.value].kind == Folder
    ensures d.rows[n].Live() ==> d.rows[d.rows[n].parent.value].Live()
    ensures Segment(d.rows[n].name)
  {
    hide Drive.WellFormed;
    Look(d, n);
  }

  lemma PathStep(d: Drive, n: Id)
    requires d.WellFormed() && n in d.rows && d.rows[n].parent.Some?
    ensures d.rows[n].parent.value in d.rows && Path(d, n) == Path(d, d.rows[n].parent.value) + [d.rows[n].name]
    ensures FolderKey(d, n) == FolderKey(d, d.rows[n].parent.value) + d.rows[n].name + "/"
  {
    hide Drive.WellFormed;
    InTree(d, n);
    JoinMore(Path(d, d.rows[n].parent.value), d.rows[n].name);
  }

  lemma {:induction false} PathSegments(d: Drive, n: Id)
    requires d.WellFormed() && n in d.rows
    ensures AllSegments(Path(d, n))
    decreases |Above(d.rows, n)|
  {
    hide Drive.WellFormed;
    if d.rows[n].parent.Some? {
      StepUp(d, n);
      StepUp(d, d.rows[n].parent.value);
      StrictlyFewer(Above(d.rows, d.rows[n].parent.value), Above(d.rows, n));
      InTree(d, n);
      PathStep(d, n);
      PathSegments(d, d.rows[n].parent.value);
    }
  }

  // ----- descending a key

  predicate Named(rows: Rows, c: Id, parent: Id, name: string) {
    IsLiveChild(rows, c, parent, name)
  }

  ghost function Child(rows: Rows, parent: Id, name: string): (r: Option<Id>)
    ensures r.Some? ==> Named(rows, r.value, parent, name)
    ensures r.None? ==> forall c <- rows :: !Named(rows, c, parent, name)
  {
    if c :| c in rows && Named(rows, c, parent, name) then Some(c) else None
  }

  /** Following names down from a node, through live folders only at every step but the last. */
  ghost function Descend(rows: Rows, start: Id, names: seq<string>): Option<Id>
    decreases |names|
  {
    if names == [] then Some(start)
    else if start !in rows || rows[start].kind != Folder then None
    else
      match Child(rows, start, names[0])
      case None => None
      case Some(c) => Descend(rows, c, names[1..])
  }

  lemma {:induction false} DescendAppend(rows: Rows, start: Id, a: seq<string>, b: seq<string>)
    ensures Descend(rows, start, a + b) == if Descend(rows, start, a).None? then None else Descend(rows, Descend(rows, start, a).value, b)
    decreases |a|
  {
    if a == [] {
      assert a + b == b;
    } else {
      assert (a + b)[1..] == a[1..] + b;
      match Child(rows, start, a[0])
      case None =>
      case Some(c) => DescendAppend(rows, c, a[1..], b);
    }
  }

  lemma OnlyChild(d: Drive, c: Id, parent: Id, name: string)
    requires d.WellFormed() && Named(d.rows, c, parent, name)
    ensures Child(d.rows, parent, name) == Some(c)
  {
    NamesOf(d);
    hide Drive.WellFormed;
    var found := Child(d.rows, parent, name);
    assert found.Some? ==> !Rivals(d.rows, found.value, c);
  }

  lemma NamesOf(d: Drive)
    requires d.WellFormed()
    ensures NamesDistinct(d.rows)
  {
  }

  lemma DescendOne(d: Drive, n: Id)
    requires d.WellFormed() && n in d.rows && d.rows[n].Live() && d.rows[n].parent.Some?
    ensures Descend(d.rows, d.rows[n].parent.value, [d.rows[n].name]) == Some(n)
  {
    hide Drive.WellFormed;
    InTree(d, n);
    OnlyChild(d, n, d.rows[n].parent.value, d.rows[n].name);
    assert [d.rows[n].name][1..] == [];
  }

  /** Following a live node's own names from the top of its tree reaches that node. */
  lemma {:induction false} PathResolves(d: Drive, n: Id)
    requires d.WellFormed() && n in d.rows && d.rows[n].Live()
    ensures d.rows[n].owner in d.roots && Descend(d.rows, d.roots[d.rows[n].owner], Path(d, n)) == Some(n)
    decreases |Above(d.rows, n)|
  {
    hide Drive.WellFormed;
    Look(d, n);
    if d.rows[n].parent.Some? {
      var p := d.rows[n].parent.value;
      StepUp(d, n);
      StepUp(d, p);
      StrictlyFewer(Above(d.rows, p), Above(d.rows, n));
      PathStep(d, n);
      PathResolves(d, p);
      DescendAppend(d.rows, d.roots[d.rows[n].owner], Path(d, p), [d.rows[n].name]);
      DescendOne(d, n);
    }
  }

  /** What a descent reaches is live, in the same tree, and its names are the ones followed. */
  lemma {:induction false} DescentIsPath(d: Drive, start: Id, names: seq<string>)
    requires d.WellFormed() && start in d.rows && d.rows[start].Live() && Descend(d.rows, start, names).Some?
    ensures var n := Descend(d.rows, start, names).value;
            n in d.rows && d.rows[n].Live() && Path(d, n) == Path(d, start) + names && Under(d.rows, n, start)
    decreases |names|
  {
    hide Drive.WellFormed, Path, Under;
    if names == [] {
      UnderSelf(d.rows, start);
      assert Path(d, start) + names == Path(d, start);
    } else {
      var c := Child(d.rows, start, names[0]).value;
      PathStep(d, c);
      DescentIsPath(d, c, names[1..]);
      assert Path(d, start) + [names[0]] + names[1..] == Path(d, start) + names;
      UnderParent(d.rows, c, start);
      UnderSelf(d.rows, start);
      UnderTransitive(d.rows, Descend(d.rows, start, names).value, c, start);
    }
  }

  // ----- resolving a listed key

  /** The node a key names in the caller's own tree; keys under the reserved first segment go elsewhere. */
  ghost function ResolveOwn(d: Drive, root: Id, key: string): Option<Id> {
    var segments := Segments(key);
    if segments != [] && segments[0] == SHARED_PREFIX then None else Descend(d.rows, root, segments)
  }

  /** The first name of a key: a file straight under the root names itself. */
  ghost function FirstName(d: Drive, n: Id): string
    requires d.WellFormed() && n in d.rows && d.rows[n].parent.Some?
  {
    PathStep(d, n);
    Path(d, n)[0]
  }

  lemma KeySegments(d: Drive, n: Id)
    requires d.WellFormed() && n in d.rows && d.rows[n].parent.Some?
    ensures Segments(FileKey(d, n)) == Path(d, n)
  {
    hide Drive.WellFormed, Path, Segments;
    InTree(d, n);
    PathStep(d, n);
    PathSegments(d, d.rows[n].parent.value);
    SegmentsOfJoin(Path(d, d.rows[n].parent.value), d.rows[n].name);
  }

  /** A listed key resolves to the very node it was listed for exactly when its first segment is not the reserved one. */
  lemma ListedKeyResolves(d: Drive, n: Id)
    requires d.WellFormed() && n in d.rows && d.rows[n].Live() && d.rows[n].parent.Some?
    ensures d.rows[n].owner in d.roots
    ensures ResolveOwn(d, d.roots[d.rows[n].owner], FileKey(d, n)) == Some(n) <==> FirstName(d, n) != SHARED_PREFIX
  {
    hide Drive.WellFormed, Path, Segments, FileKey, Descend;
    KeySegments(d, n);
    PathStep(d, n);
    PathResolves(d, n);
  }

  /** No two live nodes of one tree share a key. */
  lemma KeysAreUnique(d: Drive, m: Id, n: Id)
    requires d.WellFormed() && m in d.rows && d.rows[m].Live() && d.rows[m].parent.Some? && n in d.rows && d.rows[n].Live() && d.rows[n].parent.Some?
    requires d.rows[m].owner == d.rows[n].owner && FileKey(d, m) == FileKey(d, n)
    ensures m == n
  {
    hide Drive.WellFormed, Path, Segments, FileKey, Descend;
    KeySegments(d, m);
    KeySegments(d, n);
    PathResolves(d, m);
    PathResolves(d, n);
  }

  // ----- walking

  /** The live files beneath a folder. */
  ghost function FilesBeneath(d: Drive, folder: Id): set<Id> {
    set m | m in Beneath(d.rows, folder, false) && m in d.rows && d.rows[m].kind == File
  }

  ghost function EntryOf(d: Drive, m: Id): Entry
    requires d.WellFormed() && m in d.rows && d.rows[m].parent.Some?
  {
    Entry(FileKey(d, m), m, d.rows[m].size)
  }

  /** Each file of `files` listed once, under its key, in some order. */
  ghost predicate Lists(d: Drive, entries: seq<Entry>, files: set<Id>)
    requires d.WellFormed()
  {
    && (forall e <- entries :: e.node in files && e.node in d.rows && d.rows[e.node].parent.Some? && e == EntryOf(d, e.node))
    && (forall m <- files :: exists e <- entries :: e.node == m)
    && Distinct(entries)
  }

  /** A folder waiting on the stack, with the key it contributes. */
  ghost predicate Waiting(d: Drive, top: Id, item: (Id, string))
    requires d.WellFormed()
  {
    && item.0 in d.rows && d.rows[item.0].Live() && d.rows[item.0].kind == Folder
    && item.0 in Beneath(d.rows, top, false) && item.1 == FolderKey(d, item.0)
  }

  function FilesOf(rows: Rows, parents: set<Id>): set<Id> {
    set m | m in ChildrenOf(rows, parents, false) && m in rows && rows[m].kind == File
  }

  function FoldersOf(rows: Rows, parents: set<Id>): set<Id> {
    set m | m in ChildrenOf(rows, parents, false) && m in rows && rows[m].kind == Folder
  }

  ghost function Ids(items: seq<(Id, string)>): set<Id> {
    set i | 0 <= i < |items| :: items[i].0
  }

  ghost predicate IdsDistinct(items: seq<(Id, string)>) {
    forall i, j :: 0 <= i < j < |items| ==> items[i].0 != items[j].0
  }

  lemma ListsUnion(d: Drive, a: seq<Entry>, s: set<Id>, b: seq<Entry>, t: set<Id>)
    requires d.WellFormed() && Lists(d, a, s) && Lists(d, b, t) && s !! t
    ensures Lists(d, a + b, s + t)
  {
    hide Drive.WellFormed, EntryOf;
    var all := a + b;
    forall i, j | 0 <= i < j < |all|
      ensures all[i] != all[j]
    {
      if i < |a| <= j { assert all[i] in a && all[j] in b; }
    }
    forall m | m in s + t
      ensures exists e <- all :: e.node == m
    {
      if m in s {
        var e :| e in a && e.node == m;
        assert e in all;
      } else {
        var e :| e in b && e.node == m;
        assert e in all;
      }
    }
  }

  lemma ListsMore(d: Drive, entries: seq<Entry>, s: set<Id>, m: Id)
    requires d.WellFormed() && Lists(d, entries, s) && m !in s && m in d.rows && d.rows[m].parent.Some?
    ensures Lists(d, entries + [EntryOf(d, m)], s + {m})
  {
    hide Drive.WellFormed, EntryOf;
    EntryNode(d, m);
    var one := [EntryOf(d, m)];
    assert one[0] in one && Lists(d, one, {m});
    ListsUnion(d, entries, s, one, {m});
  }

  lemma EntryNode(d: Drive, m: Id)
    requires d.WellFormed() && m in d.rows && d.rows[m].parent.Some?
    ensures EntryOf(d, m).node == m
  {
    hide Drive.WellFormed, FileKey;
  }

  /** Half way through a folder's children, with those in `left` to come. */
  ghost predicate Visiting(d: Drive, top: Id, current: (Id, string), left: set<Id>, files: seq<Entry>, folders: seq<(Id, string)>) {
    && d.WellFormed() && Waiting(d, top, current) && left <= ChildrenOf(d.rows, {current.0}, false)
    && Lists(d, files, FilesOf(d.rows, {current.0}) - left)
    && Ids(folders) == FoldersOf(d.rows, {current.0}) - left && IdsDistinct(folders)
    && forall i :: 0 <= i < |folders| ==> Waiting(d, top, folders[i])
  }

  lemma VisitFile(d: Drive, top: Id, current: (Id, string), left: set<Id>, files: seq<Entry>, folders: seq<(Id, string)>, child: Id)
    requires Visiting(d, top, current, left, files, folders) && child in left && child in d.rows && d.rows[child].kind == File
    ensures Visiting(d, top, current, left - {child}, files + [Entry(current.1 + d.rows[child].name, child, d.rows[child].size)], folders)
  {
    hide Drive.WellFormed, Waiting, EntryOf, Lists, IdsDistinct, Ids;
    ChildWaits(d, top, current, child);
    assert FilesOf(d.rows, {current.0}) - (left - {child}) == (FilesOf(d.rows, {current.0}) - left) + {child};
    assert FoldersOf(d.rows, {current.0}) - (left - {child}) == FoldersOf(d.rows, {current.0}) - left;
    ListsMore(d, files, FilesOf(d.rows, {current.0}) - left, child);
  }

  lemma VisitFolder(d: Drive, top: Id, current: (Id, string), left: set<Id>, files: seq<Entry>, folders: seq<(Id, string)>, child: Id)
    requires Visiting(d, top, current, left, files, folders) && child in left && child in d.rows && d.rows[child].kind == Folder
    ensures Visiting(d, top, current, left - {child}, files, folders + [(child, current.1 + d.rows[child].name + "/")])
  {
    hide Drive.WellFormed, Waiting, EntryOf, Lists, IdsDistinct, Ids;
    ChildWaits(d, top, current, child);
    assert FilesOf(d.rows, {current.0}) - (left - {child}) == FilesOf(d.rows, {current.0}) - left;
    assert FoldersOf(d.rows, {current.0}) - (left - {child}) == (FoldersOf(d.rows, {current.0}) - left) + {child};
    IdsMore(folders, (child, current.1 + d.rows[child].name + "/"));
  }

  lemma VisitStarts(d: Drive, top: Id, current: (Id, string))
    requires d.WellFormed() && Waiting(d, top, current)
    ensures Visiting(d, top, current, ChildrenOf(d.rows, {current.0}, false), [], [])
  {
    hide Drive.WellFormed, Waiting, Lists;
    NothingListed(d);
    assert FilesOf(d.rows, {current.0}) - ChildrenOf(d.rows, {current.0}, false) == {};
    assert FoldersOf(d.rows, {current.0}) - ChildrenOf(d.rows, {current.0}, false) == {};
  }

  lemma VisitEnds(d: Drive, top: Id, current: (Id, string), files: seq<Entry>, folders: seq<(Id, string)>)
    requires Visiting(d, top, current, {}, files, folders)
    ensures Lists(d, files, FilesOf(d.rows, {current.0}))
    ensures Ids(folders) == FoldersOf(d.rows, {current.0}) && IdsDistinct(folders)
    ensures forall i :: 0 <= i < |folders| ==> Waiting(d, top, folders[i])
  {
    hide Drive.WellFormed, Waiting, Lists, Ids, IdsDistinct;
    assert FilesOf(d.rows, {current.0}) - {} == FilesOf(d.rows, {current.0});
    assert FoldersOf(d.rows, {current.0}) - {} == FoldersOf(d.rows, {current.0});
  }

  /** One folder's children: its files as entries, its folders with the keys they contribute. */
  method Visit(d: Drive, top: Id, current: (Id, string)) returns (files: seq<Entry>, folders: seq<(Id, string)>)
    requires d.WellFormed() && Waiting(d, top, current)
    ensures Lists(d, files, FilesOf(d.rows, {current.0}))
    ensures Ids(folders) == FoldersOf(d.rows, {current.0}) && IdsDistinct(folders)
    ensures forall i :: 0 <= i < |folders| ==> Waiting(d, top, folders[i])
  {
    hide Drive.WellFormed, Waiting, Lists, Visiting, FilesOf, FoldersOf, Ids, IdsDistinct;
    var left := ChildrenOf(d.rows, {current.0}, false);
    files, folders := [], [];
    VisitStarts(d, top, current);
    while left != {}
      invariant left <= d.rows.Keys && Visiting(d, top, current, left, files, folders)
      decreases |left|
    {
      var child :| child in left;
      var key := current.1 + d.rows[child].name;
      if d.rows[child].kind == File {
        VisitFile(d, top, current, left, files, folders, child);
        files := files + [Entry(key, child, d.rows[child].size)];
      } else {
        VisitFolder(d, top, current, left, files, folders, child);
        folders := folders + [(child, key + "/")];
      }
      left := left - {child};
    }
    VisitEnds(d, top, current, files, folders);
  }

  lemma NothingListed(d: Drive)
    requires d.WellFormed()
    ensures Lists(d, [], {})
  {
    hide Drive.WellFormed;
  }

  lemma IdsMore(items: seq<(Id, string)>, item: (Id, string))
    requires IdsDistinct(items) && item.0 !in Ids(items)
    ensures Ids(items + [item]) == Ids(items) + {item.0} && IdsDistinct(items + [item])
  {
    var all := items + [item];
    assert all[|items|] == item;
    assert forall i :: 0 <= i < |items| ==> all[i] == items[i] && items[i].0 in Ids(items);
    forall x | x in Ids(items)
      ensures x in Ids(all)
    {
      var i :| 0 <= i < |items| && items[i].0 == x;
      assert all[i].0 == x;
    }
  }

  lemma ChildWaits(d: Drive, top: Id, current: (Id, string), child: Id)
    requires d.WellFormed() && Waiting(d, top, current) && child in ChildrenOf(d.rows, {current.0}, false)
    ensures child in d.rows && d.rows[child].Live() && d.rows[child].parent == Some(current.0)
    ensures d.rows[child].kind == File ==> EntryOf(d, child) == Entry(current.1 + d.rows[child].name, child, d.rows[child].size)
    ensures d.rows[child].kind == Folder ==> Waiting(d, top, (child, current.1 + d.rows[child].name + "/"))
  {
    hide Drive.WellFormed, Beneath, FolderKey, Path;
    PathStep(d, child);
    BeneathStep(d, top, false, child);
  }

  /** `done` holds the folders visited so far, and the stack the folders found but not yet visited. */
  ghost predicate Walking(d: Drive, top: Id, stack: seq<(Id, string)>, done: set<Id>) {
    && d.WellFormed() && (forall i :: 0 <= i < |stack| ==> Waiting(d, top, stack[i])) && IdsDistinct(stack)
    && done !! Ids(stack) && done <= Beneath(d.rows, top, false) && top in done + Ids(stack)
    && (forall x <- done :: x in d.rows && d.rows[x].kind == Folder)
    && FoldersOf(d.rows, done) <= done + Ids(stack)
    && (forall x <- done + Ids(stack) :: x != top ==> x in d.rows && d.rows[x].parent.Some? && d.rows[x].parent.value in done)
  }

  lemma WalkStep(d: Drive, top: Id, stack: seq<(Id, string)>, done: set<Id>, folders: seq<(Id, string)>)
    requires stack != [] && Walking(d, top, stack, done)
    requires var current := stack[|stack| - 1]; Ids(folders) == FoldersOf(d.rows, {current.0}) && IdsDistinct(folders)
    requires forall i :: 0 <= i < |folders| ==> Waiting(d, top, folders[i])
    ensures var current := stack[|stack| - 1];
            && Walking(d, top, stack[..|stack| - 1] + folders, done + {current.0})
            && current.0 !in done && current.0 in Beneath(d.rows, top, false)
            && FilesOf(d.rows, done + {current.0}) == FilesOf(d.rows, done) + FilesOf(d.rows, {current.0})
            && FilesOf(d.rows, done) !! FilesOf(d.rows, {current.0})
  {
    hide Drive.WellFormed, Waiting, Beneath;
    var current, rest := stack[|stack| - 1], stack[..|stack| - 1];
    IsWaiting(d, top, current);
    assert current.0 in Ids(stack);
    PopIds(stack);
    NewFoldersAreNew(d, top, stack, done);
    ConcatIds(rest, folders);
    assert Ids(rest + folders) == Ids(rest) + FoldersOf(d.rows, {current.0});
    assert FoldersOf(d.rows, done + {current.0}) == FoldersOf(d.rows, done) + FoldersOf(d.rows, {current.0});
  }

  lemma IsWaiting(d: Drive, top: Id, item: (Id, string))
    requires d.WellFormed() && Waiting(d, top, item)
    ensures item.0 in d.rows && d.rows[item.0].kind == Folder && item.0 in Beneath(d.rows, top, false) && item.1 == FolderKey(d, item.0)
  {
    hide Drive.WellFormed, Beneath;
  }

  lemma PopIds(stack: seq<(Id, string)>)
    requires stack != [] && IdsDistinct(stack)
    ensures var rest := stack[..|stack| - 1]; Ids(rest) == Ids(stack) - {stack[|stack| - 1].0} && IdsDistinct(rest)
  {
    var rest := stack[..|stack| - 1];
    forall x | x in Ids(stack) && x != stack[|stack| - 1].0
      ensures x in Ids(rest)
    {
      var i :| 0 <= i < |stack| && stack[i].0 == x;
      assert rest[i].0 == x;
    }
  }

  lemma ConcatIds(a: seq<(Id, string)>, b: seq<(Id, string)>)
    requires IdsDistinct(a) && IdsDistinct(b) && Ids(a) !! Ids(b)
    ensures Ids(a + b) == Ids(a) + Ids(b) && IdsDistinct(a + b)
  {
    var all := a + b;
    forall x | x in Ids(a) + Ids(b)
      ensures x in Ids(all)
    {
      if x in Ids(a) {
        var i :| 0 <= i < |a| && a[i].0 == x;
        assert all[i].0 == x;
      } else {
        var i :| 0 <= i < |b| && b[i].0 == x;
        assert all[|a| + i].0 == x;
      }
    }
    forall i, j | 0 <= i < j < |all|
      ensures all[i].0 != all[j].0
    {
      if i < |a| <= j { assert a[i].0 in Ids(a) && b[j - |a|].0 in Ids(b); }
    }
  }

  /** No folder is found twice: its one parent is visited once. */
  lemma NewFoldersAreNew(d: Drive, top: Id, stack: seq<(Id, string)>, done: set<Id>)
    requires stack != [] && Walking(d, top, stack, done)
    ensures var current := stack[|stack| - 1]; FoldersOf(d.rows, {current.0}) !! done + Ids(stack)
  {
    hide Drive.WellFormed, Waiting, Under;
    var current := stack[|stack| - 1];
    IsWaiting(d, top, current);
    assert current.0 in Ids(stack);
    forall c | c in FoldersOf(d.rows, {current.0})
      ensures c !in done + Ids(stack)
    {
      NotUnderChild(d, c);
    }
  }

  /** A user's files beneath a folder, by an explicit stack. */
  method Walk(d: Drive, folder: Id, prefix: string) returns (entries: seq<Entry>)
    requires d.WellFormed() && folder in d.rows && d.rows[folder].Live() && d.rows[folder].kind == Folder
    requires prefix == FolderKey(d, folder)
    ensures Lists(d, entries, FilesBeneath(d, folder))
    ensures forall e <- entries :: e.node in d.rows && d.rows[e.node].parent.Some? && e.key == FileKey(d, e.node) && e.size == d.rows[e.node].size
  {
    hide Drive.WellFormed, Walking, Lists, Waiting, FolderKey, Beneath, FilesOf, FoldersOf, Ids, FilesBeneath;
    entries := [];
    var stack := [(folder, prefix)];
    ghost var done: set<Id> := {};
    WalkStart(d, folder, prefix);
    NothingListed(d);
    while stack != []
      invariant Walking(d, folder, stack, done) && Lists(d, entries, FilesOf(d.rows, done))
      decreases |Beneath(d.rows, folder, false) - done|
    {
      var current := stack[|stack| - 1];
      StackWaits(d, folder, stack, done);
      var files, folders := Visit(d, folder, current);
      WalkStep(d, folder, stack, done, folders);
      ListsUnion(d, entries, FilesOf(d.rows, done), files, FilesOf(d.rows, {current.0}));
      StrictlyFewer(Beneath(d.rows, folder, false) - (done + {current.0}), Beneath(d.rows, folder, false) - done);
      entries := entries + files;
      stack := stack[..|stack| - 1] + folders;
      done := done + {current.0};
    }
    WalkEnds(d, folder, done);
    ListsFiles(d, entries, FilesBeneath(d, folder));
  }

  lemma ListsFiles(d: Drive, entries: seq<Entry>, files: set<Id>)
    requires d.WellFormed() && Lists(d, entries, files)
    ensures forall e <- entries :: e.node in d.rows && d.rows[e.node].parent.Some? && e.key == FileKey(d, e.node) && e.size == d.rows[e.node].size
  {
    hide Drive.WellFormed, FileKey;
  }

  lemma StackWaits(d: Drive, top: Id, stack: seq<(Id, string)>, done: set<Id>)
    requires stack != [] && Walking(d, top, stack, done)
    ensures Waiting(d, top, stack[|stack| - 1])
  {
    hide Drive.WellFormed, Waiting;
  }

  lemma WalkStart(d: Drive, folder: Id, prefix: string)
    requires d.WellFormed() && folder in d.rows && d.rows[folder].Live() && d.rows[folder].kind == Folder && prefix == FolderKey(d, folder)
    ensures Walking(d, folder, [(folder, prefix)], {}) && FilesOf(d.rows, {}) == {}
  {
    hide Drive.WellFormed, FolderKey, Under;
    UnderSelf(d.rows, folder);
    var stack := [(folder, prefix)];
    assert stack[0].0 in Ids(stack);
    assert FoldersOf(d.rows, {}) == {};
  }

  /** With nothing left to visit, every file beneath has been listed. */
  lemma WalkEnds(d: Drive, folder: Id, done: set<Id>)
    requires Walking(d, folder, [], done)
    ensures FilesOf(d.rows, done) == FilesBeneath(d, folder)
  {
    hide Drive.WellFormed, Beneath;
    var found := done + FilesOf(d.rows, done);
    assert Ids([]) == {};
    forall m | m in ChildrenOf(d.rows, found, false)
      ensures m in found
    {
      InTree(d, m);
      assert d.rows[m].parent.value in done;
      assert m in ChildrenOf(d.rows, done, false);
      assert d.rows[m].kind == Folder ==> m in FoldersOf(d.rows, done);
    }
    ClosedIsAll(d, folder, false, found);
    forall m | m in FilesOf(d.rows, done)
      ensures m in FilesBeneath(d, folder)
    {
      BeneathStep(d, folder, false, m);
    }
  }

  // ----- listing from the folder a prefix names

  method DescendPath(d: Drive, start: Id, names: seq<string>) returns (r: Option<Id>)
    requires d.WellFormed()
    ensures r == Descend(d.rows, start, names)
  {
    hide Drive.WellFormed;
    var current := start;
    for i := 0 to |names|
      invariant Descend(d.rows, current, names[i..]) == Descend(d.rows, start, names)
    {
      assert names[i..][0] == names[i] && names[i..][1..] == names[i + 1..];
      if current !in d.rows || d.rows[current].kind != Folder { return None; }
      if c :| c in d.rows && Named(d.rows, c, current, names[i]) {
        OnlyChild(d, c, current, names[i]);
        current := c;
      } else {
        return None;
      }
    }
    r := Some(current);
  }

  /** The files listed for a prefix before it is applied: those beneath the folder it names, if there is one. */
  ghost function Gathered(d: Drive, root: Id, prefix: string): set<Id> {
    var base := Descend(d.rows, root, DirSegments(prefix));
    if base.None? || base.value !in d.rows || d.rows[base.value].kind == File then {} else FilesBeneath(d, base.value)
  }

  method GatherOwn(d: Drive, user: UserId, prefix: string) returns (entries: seq<Entry>)
    requires d.WellFormed() && user in d.roots
    ensures Lists(d, entries, Gathered(d, d.roots[user], prefix))
  {
    hide Drive.WellFormed, Descend, Lists, DirSegments, FilesBeneath, Path;
    var names := DirSegments(prefix);
    var base := DescendPath(d, d.roots[user], names);
    RootPath(d, user);
    NothingListed(d);
    if base.None? || base.value !in d.rows || d.rows[base.value].kind == File { return []; }
    DescentIsPath(d, d.roots[user], names);
    assert [] + names == names;
    entries := Walk(d, base.value, Join(names));
  }

  lemma RootPath(d: Drive, user: UserId)
    requires d.WellFormed() && user in d.roots
    ensures var r := d.roots[user]; r in d.rows && d.rows[r].owner == user && d.rows[r].parent.None? && d.rows[r].Live() && d.rows[r].kind == Folder && Path(d, r) == []
  {
    LookRoot(d, user);
    hide Drive.WellFormed;
  }

  lemma IsFileBeneath(d: Drive, folder: Id, m: Id)
    requires d.WellFormed() && folder in d.rows && d.rows[folder].kind == Folder && m in FilesBeneath(d, folder)
    ensures m in d.rows && d.rows[m].kind == File && d.rows[m].Live() && Under(d.rows, m, folder) && d.rows[m].parent.Some?
    ensures d.rows[m].owner == d.rows[folder].owner
  {
    hide Drive.WellFormed, Under;
    AcyclicOf(d);
    BeneathStep(d, folder, false, m);
    OwnedAlike(d, m, folder);
  }

  lemma OwnedAlike(d: Drive, m: Id, a: Id)
    requires d.WellFormed() && m in d.rows && Under(d.rows, m, a)
    ensures a in d.rows && d.rows[a].owner == d.rows[m].owner
  {
    hide Drive.WellFormed;
    AcyclicOf(d);
    var k: nat :| Up(d.rows, m, k) == Some(a);
    ChainStaysInside(d.rows, m, k);
  }

  /** A file whose key matches the prefix lies beneath the folder the prefix names. */
  lemma MatchIsBeneath(d: Drive, user: UserId, prefix: string, m: Id)
    requires d.WellFormed() && user in d.roots && m in FilesBeneath(d, d.roots[user]) && m in d.rows && d.rows[m].parent.Some? && prefix <= FileKey(d, m)
    ensures m in Gathered(d, d.roots[user], prefix)
  {
    hide Drive.WellFormed, Path, Under, DirSegments, Descend;
    var root := d.roots[user];
    RootPath(d, user);
    IsFileBeneath(d, root, m);
    InTree(d, m);
    var p := d.rows[m].parent.value;
    PathSegments(d, p);
    Look(d, m);
    var k := DirOfPrefix(Path(d, p), d.rows[m].name, prefix);
    PathResolves(d, p);
    var names := Path(d, p);
    assert names == names[..k] + names[k..];
    DescendAppend(d.rows, root, names[..k], names[k..]);
    DescentIsPath(d, root, names[..k]);
    var base := Descend(d.rows, root, names[..k]).value;
    DescentIsPath(d, base, names[k..]);
    UnderParent(d.rows, m, base);
    BaseIsFolder(d, base, m);
  }

  /** Only folders have anything beneath them. */
  lemma BaseIsFolder(d: Drive, base: Id, m: Id)
    requires d.WellFormed() && base in d.rows && m in d.rows && d.rows[m].kind == File && d.rows[m].parent.Some? && Under(d.rows, d.rows[m].parent.value, base)
    ensures d.rows[base].kind == Folder
  {
    hide Drive.WellFormed;
    var k: nat :| Up(d.rows, d.rows[m].parent.value, k) == Some(base);
    FolderAbove(d, m, base, k);
  }

  lemma {:induction false} FolderAbove(d: Drive, m: Id, base: Id, k: nat)
    requires d.WellFormed() && base in d.rows && m in d.rows && d.rows[m].parent.Some? && Up(d.rows, d.rows[m].parent.value, k) == Some(base)
    ensures d.rows[base].kind == Folder
    decreases k
  {
    hide Drive.WellFormed;
    InTree(d, m);
    if k > 0 { FolderAbove(d, d.rows[m].parent.value, base, k - 1); }
  }

  /** Gathering from the folder a prefix names finds exactly the matching files of the whole tree. */
  lemma GatherIsFilter(d: Drive, user: UserId, prefix: string, m: Id)
    requires d.WellFormed() && user in d.roots && m in d.rows && d.rows[m].parent.Some? && prefix <= FileKey(d, m)
    ensures m in Gathered(d, d.roots[user], prefix) <==> m in FilesBeneath(d, d.roots[user])
  {
    hide Drive.WellFormed, Path, Under, DirSegments, Descend, FileKey;
    var root := d.roots[user];
    RootPath(d, user);
    if m in FilesBeneath(d, root) {
      MatchIsBeneath(d, user, prefix, m);
    }
    if m in Gathered(d, root, prefix) {
      var base := Descend(d.rows, root, DirSegments(prefix)).value;
      DescentIsPath(d, root, DirSegments(prefix));
      IsFileBeneath(d, base, m);
      UnderTransitive(d.rows, m, base, root);
    }
  }

  /** Every key of a listing of own files belongs to one of them only. */
  lemma SameKeySameEntry(d: Drive, folder: Id, a: Entry, b: Entry)
    requires d.WellFormed() && folder in d.rows && d.rows[folder].kind == Folder
    requires a.node in FilesBeneath(d, folder) && b.node in FilesBeneath(d, folder) && a.key == b.key
    requires a.node in d.rows && d.rows[a.node].parent.Some? && a == EntryOf(d, a.node)
    requires b.node in d.rows && d.rows[b.node].parent.Some? && b == EntryOf(d, b.node)
    ensures a == b
  {
    hide Drive.WellFormed, FilesBeneath, FileKey, Under;
    IsFileBeneath(d, folder, a.node);
    IsFileBeneath(d, folder, b.node);
    KeysAreUnique(d, a.node, b.node);
  }

  /** The two listings hold the same matching entries. */
  lemma SameMatches(d: Drive, user: UserId, prefix: string, gathered: seq<Entry>, whole: seq<Entry>, e: Entry)
    requires d.WellFormed() && user in d.roots && prefix <= e.key
    requires Lists(d, gathered, Gathered(d, d.roots[user], prefix)) && Lists(d, whole, FilesBeneath(d, d.roots[user]))
    ensures e in gathered <==> e in whole
    ensures e in whole ==> e.node in FilesBeneath(d, d.roots[user]) && e.node in d.rows && d.rows[e.node].parent.Some? && e == EntryOf(d, e.node)
  {
    hide Drive.WellFormed, FilesBeneath, FileKey, Gathered;
    if e in gathered {
      GatherIsFilter(d, user, prefix, e.node);
      var f :| f in whole && f.node == e.node;
    }
    if e in whole {
      GatherIsFilter(d, user, prefix, e.node);
      var f :| f in gathered && f.node == e.node;
    }
  }

  /**
   * For every request, listing what was gathered from the folder its prefix names gives the page that
   * filtering the whole tree would give, whatever order either walk produced.
   */
  lemma GatherIsEnough(d: Drive, user: UserId, req: Request, gathered: seq<Entry>, whole: seq<Entry>)
    requires d.WellFormed() && user in d.roots
    requires Lists(d, gathered, Gathered(d, d.roots[user], req.prefix)) && Lists(d, whole, FilesBeneath(d, d.roots[user]))
    ensures ListPage(gathered, req) == ListPage(whole, req)
  {
    hide Drive.WellFormed, FilesBeneath, FileKey, Gathered, Lists, GroupedContents, GroupedPrefixes, EntryOf, Cut, Remaining;
    RootPath(d, user);
    SameContents(d, user, req.prefix, req.delimiter, gathered, whole);
    SamePrefixes(d, user, req.prefix, req.delimiter, gathered, whole);
  }

  lemma SameContents(d: Drive, user: UserId, prefix: string, delimiter: string, gathered: seq<Entry>, whole: seq<Entry>)
    requires d.WellFormed() && user in d.roots
    requires Lists(d, gathered, Gathered(d, d.roots[user], prefix)) && Lists(d, whole, FilesBeneath(d, d.roots[user]))
    ensures GroupedContents(gathered, prefix, delimiter) == GroupedContents(whole, prefix, delimiter)
  {
    hide Drive.WellFormed, FilesBeneath, FileKey, Gathered, Lists, GroupedContents, EntryOf, RollUp;
    RootPath(d, user);
    var a, b := GroupedContents(gathered, prefix, delimiter), GroupedContents(whole, prefix, delimiter);
    forall key
      ensures key in a <==> key in b
      ensures key in a && key in b ==> a[key] == b[key]
    {
      ContentsAre(gathered, prefix, delimiter, key);
      ContentsAre(whole, prefix, delimiter, key);
      if key in a {
        var e := a[key];
        SameMatches(d, user, prefix, gathered, whole, e);
        assert e in whole && key in b;
      }
      if key in b {
        var e := b[key];
        SameMatches(d, user, prefix, gathered, whole, e);
        assert e in gathered && key in a;
        SameMatches(d, user, prefix, gathered, whole, a[key]);
        SameKeySameEntry(d, d.roots[user], a[key], b[key]);
      }
    }
  }

  lemma SamePrefixes(d: Drive, user: UserId, prefix: string, delimiter: string, gathered: seq<Entry>, whole: seq<Entry>)
    requires d.WellFormed() && user in d.roots
    requires Lists(d, gathered, Gathered(d, d.roots[user], prefix)) && Lists(d, whole, FilesBeneath(d, d.roots[user]))
    ensures GroupedPrefixes(gathered, prefix, delimiter) == GroupedPrefixes(whole, prefix, delimiter)
  {
    hide Drive.WellFormed, FilesBeneath, FileKey, Gathered, Lists, EntryOf, RollUp;
    forall p | p in GroupedPrefixes(gathered, prefix, delimiter)
      ensures p in GroupedPrefixes(whole, prefix, delimiter)
    {
      var i :| 0 <= i < |gathered| && prefix <= gathered[i].key && RollUp(gathered[i].key, prefix, delimiter) == Some(p);
      assert gathered[i] in gathered;
      SameMatches(d, user, prefix, gathered, whole, gathered[i]);
      var j :| 0 <= j < |whole| && whole[j] == gathered[i];
      PrefixKeyIn(whole, prefix, delimiter, j);
    }
    forall p | p in GroupedPrefixes(whole, prefix, delimiter)
      ensures p in GroupedPrefixes(gathered, prefix, delimiter)
    {
      var i :| 0 <= i < |whole| && prefix <= whole[i].key && RollUp(whole[i].key, prefix, delimiter) == Some(p);
      assert whole[i] in whole;
      SameMatches(d, user, prefix, gathered, whole, whole[i]);
      var j :| 0 <= j < |gathered| && gathered[j] == whole[i];
      PrefixKeyIn(gathered, prefix, delimiter, j);
    }
  }
}
