/** What the folder forest says: the listing, each folder in its one place. */
module FolderForest {
  import opened Prelude
  import opened Text
  import opened FolderTree

  /** The listing's visible directories, no more and no less. */
  lemma {:induction false} VisibleExact(entries: seq<Dirent>, path: string)
    ensures path in VisibleDirs(entries) <==> Dirent(true, path) in entries && Visible(path)
  {
    if entries != [] {
      hide Visible;
      VisibleExact(entries[1..], path);
      assert entries == [entries[0]] + entries[1..];
    }
  }

  /** A dot that starts a component. */
  predicate DotAt(path: string, i: nat) {
    i < |path| && path[i] == '.' && (i == 0 || path[i - 1] == '/')
  }

  lemma NoneHiddenFirst(first: string, more: seq<string>)
    ensures NoneHidden([first] + more) <==> !IsHiddenName(first) && NoneHidden(more)
  {
    var names := [first] + more;
    assert forall i :: 0 <= i < |more| ==> more[i] == names[i + 1];
    assert forall i :: 1 <= i < |names| ==> names[i] == more[i - 1];
    assert names[0] == first;
  }

  lemma VisibleStep(path: string, e: nat)
    requires e == IndexOf(path, '/')
    ensures Visible(path) <==> !IsHiddenName(path[..e]) && (e < |path| ==> Visible(path[e + 1..]))
  {
    hide NoneHidden, IsHiddenName, IndexOf;
    if e == |path| {
      NoneHiddenFirst(path, []);
      assert [path] + [] == [path] && path[..e] == path;
      NothingHidden();
    } else {
      NoneHiddenFirst(path[..e], Split(path[e + 1..], '/'));
    }
  }

  lemma NothingHidden()
    ensures NoneHidden([])
  {
  }

  /** A path is hidden exactly when a dot starts it or follows a slash, at any depth. */
  lemma {:induction false} HiddenExact(path: string)
    ensures !Visible(path) <==> exists i :: DotAt(path, i)
    decreases |path|
  {
    var e := IndexOf(path, '/');
    VisibleStep(path, e);
    hide Visible, IndexOf;
    if IsHiddenName(path[..e]) {
      assert DotAt(path, 0);
    }
    if e < |path| {
      var rest := path[e + 1..];
      HiddenExact(rest);
      if i: nat :| DotAt(rest, i) {
        assert DotAt(path, e + 1 + i);
      }
    }
    forall i: nat | DotAt(path, i)
      ensures !Visible(path)
    {
      if i > 0 {
        assert i > e;
        assert DotAt(path[e + 1..], i - e - 1);
      } else {
        assert path[..e] != [] ==> path[..e][0] == path[0];
      }
    }
  }

  ghost predicate Distinct(paths: seq<string>) {
    forall i, j :: 0 <= i < j < |paths| ==> paths[i] != paths[j]
  }

  ghost predicate DistinctEntries(entries: seq<Dirent>) {
    forall i, j :: 0 <= i < j < |entries| ==> entries[i].path != entries[j].path
  }

  lemma {:induction false} VisibleOnce(entries: seq<Dirent>, path: string)
    requires DistinctEntries(entries)
    ensures multiset(VisibleDirs(entries))[path] <= 1
  {
    if entries != [] {
      hide Visible;
      VisibleOnce(entries[1..], path);
      VisibleExact(entries[1..], path);
      var first := if entries[0].isDir && Visible(entries[0].path) then [entries[0].path] else [];
      assert VisibleDirs(entries) == first + VisibleDirs(entries[1..]);
      if entries[0].path == path {
        assert Dirent(true, path) !in entries[1..];
      }
    }
  }

  lemma OnceDistinct(paths: seq<string>)
    requires forall p :: multiset(paths)[p] <= 1
    ensures Distinct(paths)
  {
    forall i, j | 0 <= i < j < |paths|
      ensures paths[i] != paths[j]
    {
      assert paths == paths[..j] + paths[j..];
      assert multiset(paths) == multiset(paths[..j]) + multiset(paths[j..]);
      assert paths[..j][i] in multiset(paths[..j]) && paths[j..][0] in multiset(paths[j..]);
      assert paths[i] == paths[j] ==> multiset(paths)[paths[i]] >= 2;
    }
  }

  /** The forest holds each visible directory of the listing exactly once. */
  lemma EachOnce(entries: seq<Dirent>, le: Order, path: string)
    requires Total(le) && DistinctEntries(entries)
    ensures
      var dirs := SortBy(le, VisibleDirs(entries));
      && Distinct(dirs) && Ordered(le, dirs)
      && (path in dirs <==> Dirent(true, path) in entries && Visible(path))
  {
    var dirs := SortBy(le, VisibleDirs(entries));
    SortCorrect(le, VisibleDirs(entries));
    VisibleExact(entries, path);
    assert path in dirs <==> path in multiset(dirs);
    assert path in VisibleDirs(entries) <==> path in multiset(VisibleDirs(entries));
    forall p
      ensures multiset(dirs)[p] <= 1
    {
      VisibleOnce(entries, p);
    }
    OnceDistinct(dirs);
  }

  // ------------------------------------------------------- one place for each

  ghost predicate Rising(s: seq<nat>) {
    forall j, k :: 0 <= j < k < |s| ==> s[j] < s[k]
  }

  lemma {:induction false} HangingRising(dirs: seq<string>, n: nat, at: Option<nat>)
    requires n <= |dirs|
    ensures Rising(HangingAt(dirs, n, at))
  {
    hide *;
    if n == 0 {
      HangingNone(dirs, at);
    } else {
      HangingRising(dirs, n - 1, at);
      HangingStep(dirs, n - 1, at);
      RisingGrows(HangingAt(dirs, n - 1, at), n - 1);
    }
  }

  lemma HangingNone(dirs: seq<string>, at: Option<nat>)
    ensures Rising(HangingAt(dirs, 0, at))
  {
  }

  lemma RisingGrows(s: seq<nat>, n: nat)
    requires Rising(s) && forall k :: 0 <= k < |s| ==> s[k] < n
    ensures Rising(s + [n]) && s + [] == s
  {
  }

  /** A directory hangs at its parent and nowhere else. */
  lemma {:induction false} HangingExact(dirs: seq<string>, n: nat, at: Option<nat>, i: nat)
    requires i < n <= |dirs|
    ensures i in HangingAt(dirs, n, at) <==> ParentOf(dirs, i) == at
  {
    hide *;
    HangingStep(dirs, n - 1, at);
    if i < n - 1 {
      HangingExact(dirs, n - 1, at, i);
    } else {
      assert i !in HangingAt(dirs, n - 1, at);
    }
  }

  // ---------------------------------------------------------- parents by path

  predicate Normalised(path: string) {
    var pieces := Split(path, '/');
    forall i :: 0 <= i < |pieces| ==> pieces[i] != []
  }

  /** A path without empty components is its parent's path, a slash and its name. */
  lemma NormalPath(path: string)
    requires Normalised(path)
    ensures |Segments(path)| >= 1
    ensures |Segments(path)| == 1 ==> NameOf(path) == path
    ensures |Segments(path)| > 1 ==> path == ParentPath(path) + ['/'] + NameOf(path)
  {
    var pieces := Split(path, '/');
    assert Segments(path) == pieces;
    hide Split, Join, Segments, NonEmpty, Normalised;
    JoinSplit(path, '/');
    if |pieces| == 1 {
      JoinOne(pieces, '/');
    } else {
      JoinLast(pieces, '/');
    }
  }

  lemma JoinOne(pieces: seq<string>, c: char)
    requires |pieces| == 1
    ensures Join(pieces, c) == pieces[0]
  {
  }

  lemma {:induction false} JoinLast(pieces: seq<string>, c: char)
    requires |pieces| >= 1
    ensures
      |pieces| > 1 ==> Join(pieces, c) == Join(pieces[..|pieces| - 1], c) + [c] + pieces[|pieces| - 1]
  {
    if |pieces| > 1 {
      var rest := pieces[1..];
      var last := pieces[|pieces| - 1];
      JoinLast(rest, c);
      assert pieces == [pieces[0]] + rest;
      JoinFirst(pieces[0], rest, c);
      if |rest| == 1 {
        assert pieces[..1] == [pieces[0]];
        assert rest[0] == last;
      } else {
        var init := rest[..|rest| - 1];
        assert pieces[..|pieces| - 1] == [pieces[0]] + init && rest[|rest| - 1] == last;
        hide Join;
        JoinFirst(pieces[0], init, c);
        assert pieces[0] + [c] + (Join(init, c) + [c] + last) == pieces[0] + [c] + Join(init, c) + [c] + last;
      }
    }
  }

  /** A path below another. */
  predicate Below(path: string, top: string) {
    top + ['/'] <= path
  }

  /** The comparison puts a path before everything below it. */
  ghost predicate ParentFirst(le: Order) {
    forall p, q :: Below(q, p) ==> !le(q, p)
  }

  /** A folder lies under its parent exactly when the parent is listed, and at the top
      otherwise. */
  lemma ParentWhenListed(dirs: seq<string>, le: Order, i: nat)
    requires Distinct(dirs) && Ordered(le, dirs) && ParentFirst(le) && i < |dirs| && Normalised(dirs[i])
    ensures
      var up := ParentPath(dirs[i]);
      if |Segments(dirs[i])| > 1 && up in dirs then
        && ParentOf(dirs, i).Some? && ParentOf(dirs, i).value < i
        && dirs[ParentOf(dirs, i).value] == up && dirs[i] == up + ['/'] + NameOf(dirs[i])
      else ParentOf(dirs, i).None?
  {
    NormalPath(dirs[i]);
    var up := ParentPath(dirs[i]);
    hide Segments, Normalised, ParentPath, NameOf;
    if |Segments(dirs[i])| > 1 && up in dirs {
      var k :| 0 <= k < |dirs| && dirs[k] == up;
      assert Below(dirs[i], up);
      assert k < i;
    }
  }

  /** A way through the forest: from the top, each folder a child of the one before. */
  ghost predicate Way(dirs: seq<string>, way: seq<nat>) {
    && |way| >= 1 && way[0] in HangingAt(dirs, |dirs|, None)
    && forall k :: 0 < k < |way| ==> way[k] in HangingAt(dirs, |dirs|, Some(way[k - 1]))
  }

  lemma WayGrows(dirs: seq<string>, way: seq<nat>, i: nat)
    requires Way(dirs, way) && i in HangingAt(dirs, |dirs|, Some(way[|way| - 1]))
    ensures Way(dirs, way + [i])
  {
  }

  lemma WayStarts(dirs: seq<string>, i: nat)
    requires i in HangingAt(dirs, |dirs|, None)
    ensures Way(dirs, [i])
  {
  }

  /** Not the empty path, nor a path of slashes alone that hangs below it. */
  ghost predicate Rooted(dirs: seq<string>, i: nat)
    requires i < |dirs|
  {
    Segments(dirs[i]) != [] || forall k :: 0 <= k <= i ==> dirs[k] != []
  }

  lemma {:induction false} NonEmptyKeeps(pieces: seq<string>, c: char)
    requires Free(pieces, c)
    ensures Free(NonEmpty(pieces), c) && forall k :: 0 <= k < |NonEmpty(pieces)| ==> NonEmpty(pieces)[k] != []
    ensures NonEmpty(pieces) != [] ==> |Join(NonEmpty(pieces), c)| <= |Join(pieces, c)|
  {
    if pieces != [] {
      var kept := NonEmpty(pieces[1..]);
      NonEmptyKeeps(pieces[1..], c);
      assert pieces == [pieces[0]] + pieces[1..];
      if pieces[0] == [] {
        assert NonEmpty(pieces) == kept;
      } else {
        assert NonEmpty(pieces) == [pieces[0]] + kept;
        if kept != [] {
          JoinFirst(pieces[0], kept, c);
        }
      }
    }
  }

  /** The parent of a path of two components or more is a shorter path that still has
      components. */
  lemma ParentShorter(path: string)
    requires |Segments(path)| > 1
    ensures |ParentPath(path)| < |path| && Segments(ParentPath(path)) != []
  {
    var pieces := Split(path, '/');
    var segments := Segments(path);
    var init := segments[..|segments| - 1];
    SplitFree(path, '/');
    JoinSplit(path, '/');
    NonEmptyKeeps(pieces, '/');
    hide Split, Join, NonEmpty;
    JoinLast(segments, '/');
    assert forall k :: 0 <= k < |init| ==> init[k] == segments[k];
    SplitJoin(init, '/');
    NonEmptyAll(init);
  }

  lemma NonEmptyAll(pieces: seq<string>)
    requires forall k :: 0 <= k < |pieces| ==> pieces[k] != []
    ensures NonEmpty(pieces) == pieces
  {
  }

  /** What a directory hangs at: itself exactly when it is the empty path. */
  lemma ParentKinds(dirs: seq<string>, i: nat)
    requires i < |dirs|
    ensures ParentOf(dirs, i) == Some(i) <==> dirs[i] == []
    ensures Rooted(dirs, i) && ParentOf(dirs, i).Some? ==>
              ParentOf(dirs, i).value < i && Rooted(dirs, ParentOf(dirs, i).value)
    ensures !Rooted(dirs, i) ==> ParentOf(dirs, i).Some? && dirs[ParentOf(dirs, i).value] == []
  {
    if |Segments(dirs[i])| > 1 {
      ParentShorter(dirs[i]);
    } else if |Segments(dirs[i])| == 0 {
      assert ParentPath(dirs[i]) == [];
    } else {
      EmptyHasNoSegments();
    }
  }

  lemma EmptyHasNoSegments()
    ensures Segments([]) == []
  {
    IndexOfIs([], '/', 0);
    assert Split([], '/') == [[]];
  }

  /** A rooted folder is reached from the top. */
  lemma {:induction false} WayFromTop(dirs: seq<string>, i: nat) returns (way: seq<nat>)
    requires i < |dirs| && Rooted(dirs, i)
    ensures Way(dirs, way) && way != [] && way[|way| - 1] == i
    decreases i
  {
    ParentKinds(dirs, i);
    var up := ParentOf(dirs, i);
    HangingExact(dirs, |dirs|, up, i);
    hide *;
    if up.None? {
      WayStarts(dirs, i);
      way := [i];
    } else {
      way := WayFromTop(dirs, up.value);
      WayGrows(dirs, way, i);
      way := way + [i];
    }
  }

  /** Nothing leads to the empty path, which is its own child. */
  lemma {:induction false} NoWayToEmpty(dirs: seq<string>, way: seq<nat>)
    requires Way(dirs, way)
    ensures way != [] && way[|way| - 1] < |dirs| && dirs[way[|way| - 1]] != []
    decreases |way|
  {
    hide *;
    WayParent(dirs, way);
    ParentKinds(dirs, way[|way| - 1]);
    if |way| > 1 {
      WayInit(dirs, way);
      NoWayToEmpty(dirs, way[..|way| - 1]);
    }
  }

  /** A folder is reached from the top exactly when it is rooted: only the empty path and
      what hangs below it are lost. */
  lemma WayExact(dirs: seq<string>, i: nat)
    requires i < |dirs|
    ensures Rooted(dirs, i) <==> exists way :: Way(dirs, way) && way != [] && way[|way| - 1] == i
  {
    if Rooted(dirs, i) {
      var way := WayFromTop(dirs, i);
    } else {
      forall way | Way(dirs, way) && way != []
        ensures way[|way| - 1] != i
      {
        NoWayToUnrooted(dirs, way, i);
      }
    }
  }

  lemma NoWayToUnrooted(dirs: seq<string>, way: seq<nat>, i: nat)
    requires Way(dirs, way) && i < |dirs| && !Rooted(dirs, i)
    ensures way != [] && way[|way| - 1] != i
  {
    WayParent(dirs, way);
    ParentKinds(dirs, i);
    if |way| > 1 {
      WayInit(dirs, way);
      NoWayToEmpty(dirs, way[..|way| - 1]);
    }
    hide Way, Rooted, ParentOf;
  }

  /** By one way only. */
  lemma {:induction false} WayUnique(dirs: seq<string>, a: seq<nat>, b: seq<nat>)
    requires Way(dirs, a) && Way(dirs, b) && a != [] && b != [] && a[|a| - 1] == b[|b| - 1]
    ensures a == b
    decreases |a|
  {
    hide *;
    WayParent(dirs, a);
    WayParent(dirs, b);
    if |a| > 1 {
      WayInit(dirs, a);
      WayInit(dirs, b);
      WayUnique(dirs, a[..|a| - 1], b[..|b| - 1]);
    } else {
      assert |b| == 1;
      assert a == [a[0]] && b == [b[0]];
    }
  }

  lemma WayInit(dirs: seq<string>, way: seq<nat>)
    requires Way(dirs, way) && |way| > 1
    ensures Way(dirs, way[..|way| - 1]) && way == way[..|way| - 1] + [way[|way| - 1]]
  {
  }

  lemma WayParent(dirs: seq<string>, way: seq<nat>)
    requires Way(dirs, way)
    ensures way != [] && way[|way| - 1] < |dirs|
    ensures ParentOf(dirs, way[|way| - 1]) == if |way| == 1 then None else Some(way[|way| - 2])
  {
    var k := |way| - 1;
    var at := if k == 0 then None else Some(way[k - 1]);
    assert way[k] in HangingAt(dirs, |dirs|, at);
    HangingExact(dirs, |dirs|, at, way[k]);
  }
}
