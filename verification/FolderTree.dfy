/** The sidebar's folder forest, built from a flat listing. */
module FolderTree {
  import opened Prelude
  import opened Text

  datatype Dirent = Dirent(isDir: bool, path: string)

  // ------------------------------------------------------------------- paths

  predicate IsHiddenName(name: string) {
    name != [] && name[0] == '.'
  }

  predicate NoneHidden(names: seq<string>) {
    forall i :: 0 <= i < |names| ==> !IsHiddenName(names[i])
  }

  predicate Visible(path: string) {
    NoneHidden(Split(path, '/'))
  }

  function NonEmpty(pieces: seq<string>): (kept: seq<string>)
    ensures |kept| <= |pieces|
    ensures kept == pieces <==> forall i :: 0 <= i < |pieces| ==> pieces[i] != []
  {
    if pieces == [] then []
    else (if pieces[0] == [] then [] else [pieces[0]]) + NonEmpty(pieces[1..])
  }

  function Segments(path: string): seq<string> {
    NonEmpty(Split(path, '/'))
  }

  function NameOf(path: string): string {
    var segments := Segments(path);
    if segments == [] then path else segments[|segments| - 1]
  }

  function ParentPath(path: string): string {
    var segments := Segments(path);
    if segments == [] then [] else Join(segments[..|segments| - 1], '/')
  }

  /** The visible directories of a listing, in its order. */
  function VisibleDirs(entries: seq<Dirent>): seq<string> {
    if entries == [] then []
    else (if entries[0].isDir && Visible(entries[0].path) then [entries[0].path] else []) + VisibleDirs(entries[1..])
  }

  // ----------------------------------------------------------------- sorting

  /** The comparison the paths are sorted by. */
  type Order = (string, string) -> bool

  ghost predicate Total(le: Order) {
    (forall a, b :: le(a, b) || le(b, a)) && forall a, b, c :: le(a, b) && le(b, c) ==> le(a, c)
  }

  function InsertBy(le: Order, p: string, sorted: seq<string>): seq<string> {
    if sorted == [] || !le(sorted[0], p) then [p] + sorted
    else [sorted[0]] + InsertBy(le, p, sorted[1..])
  }

  function SortBy(le: Order, paths: seq<string>): seq<string> {
    if paths == [] then [] else InsertBy(le, paths[|paths| - 1], SortBy(le, paths[..|paths| - 1]))
  }

  ghost predicate Ordered(le: Order, paths: seq<string>) {
    forall i, j :: 0 <= i < j < |paths| ==> le(paths[i], paths[j])
  }

  ghost predicate AllAfter(le: Order, p: string, paths: seq<string>) {
    forall i :: 0 <= i < |paths| ==> le(p, paths[i])
  }

  lemma {:induction false} InsertSorts(le: Order, p: string, sorted: seq<string>)
    requires Total(le) && Ordered(le, sorted)
    ensures Ordered(le, InsertBy(le, p, sorted))
    ensures forall q :: AllAfter(le, q, sorted) && le(q, p) ==> AllAfter(le, q, InsertBy(le, p, sorted))
  {
    if sorted != [] && le(sorted[0], p) {
      InsertSorts(le, p, sorted[1..]);
      assert AllAfter(le, sorted[0], sorted[1..]);
      assert forall q :: AllAfter(le, q, sorted) ==> AllAfter(le, q, sorted[1..]) && le(q, sorted[0]);
    } else if sorted != [] {
      assert forall i :: 0 <= i < |sorted| ==> le(p, sorted[i]);
    }
  }

  lemma {:induction false} InsertHolds(le: Order, p: string, sorted: seq<string>)
    ensures multiset(InsertBy(le, p, sorted)) == multiset(sorted) + multiset{p}
  {
    if sorted != [] && le(sorted[0], p) {
      InsertHolds(le, p, sorted[1..]);
      assert sorted == [sorted[0]] + sorted[1..];
    }
  }

  lemma {:induction false} SortCorrect(le: Order, paths: seq<string>)
    requires Total(le)
    ensures Ordered(le, SortBy(le, paths)) && multiset(SortBy(le, paths)) == multiset(paths)
    decreases |paths|
  {
    if paths != [] {
      var init, last := paths[..|paths| - 1], paths[|paths| - 1];
      SortCorrect(le, init);
      InsertSorts(le, last, SortBy(le, init));
      InsertHolds(le, last, SortBy(le, init));
      assert paths == init + [last];
    }
  }

  // ------------------------------------------------------- parents, by index

  /** The last of the first `n` directories with this path. */
  function LastIndex(dirs: seq<string>, n: nat, path: string): (j: Option<nat>)
    requires n <= |dirs|
    ensures j.Some? ==> j.value < n && dirs[j.value] == path && forall k :: j.value < k < n ==> dirs[k] != path
    ensures j.None? ==> forall k :: 0 <= k < n ==> dirs[k] != path
  {
    if n == 0 then None
    else if dirs[n - 1] == path then Some(n - 1)
    else LastIndex(dirs, n - 1, path)
  }

  /** Where directory `i` hangs: none for the top of the forest. The directory itself is
      among the candidates; only the empty path has itself for a parent. */
  function ParentOf(dirs: seq<string>, i: nat): (p: Option<nat>)
    requires i < |dirs|
    ensures p.Some? ==> p.value <= i && dirs[p.value] == ParentPath(dirs[i])
  {
    if |Segments(dirs[i])| == 1 then None else LastIndex(dirs, i + 1, ParentPath(dirs[i]))
  }

  /** The directories among the first `n` that hang at `at`, in listing order. */
  function HangingAt(dirs: seq<string>, n: nat, at: Option<nat>): (hanging: seq<nat>)
    requires n <= |dirs|
    ensures forall k :: 0 <= k < |hanging| ==> hanging[k] < n
  {
    if n == 0 then []
    else HangingAt(dirs, n - 1, at) + if ParentOf(dirs, n - 1) == at then [n - 1] else []
  }

  lemma HangingStep(dirs: seq<string>, n: nat, at: Option<nat>)
    requires n < |dirs|
    ensures HangingAt(dirs, n + 1, at) == HangingAt(dirs, n, at) + if ParentOf(dirs, n) == at then [n] else []
  {
  }

  /** Nothing hangs at a directory that is yet to come. */
  lemma {:induction false} NothingEarly(dirs: seq<string>, n: nat, j: nat)
    requires n <= |dirs| && n <= j
    ensures HangingAt(dirs, n, Some(j)) == []
  {
    if n > 0 {
      hide *;
      NothingEarly(dirs, n - 1, j);
      HangingStep(dirs, n - 1, Some(j));
    }
  }

  // ------------------------------------------------------------------- nodes

  class FolderNode {
    const name: string
    const path: string
    const segments: seq<string>
    var children: seq<FolderNode>

    constructor (name: string, path: string, segments: seq<string>)
      ensures this.name == name && this.path == path && this.segments == segments && children == []
    {
      this.name := name;
      this.path := path;
      this.segments := segments;
      this.children := [];
    }
  }

  /** The nodes with these numbers. */
  ghost function Pick(nodes: seq<FolderNode>, indices: seq<nat>): (picked: seq<FolderNode>)
    requires forall k :: 0 <= k < |indices| ==> indices[k] < |nodes|
  {
    seq(|indices|, (k: nat) requires k < |indices| && indices[k] < |nodes| => nodes[indices[k]])
  }

  lemma PickGrows(nodes: seq<FolderNode>, node: FolderNode, indices: seq<nat>)
    requires forall k :: 0 <= k < |indices| ==> indices[k] < |nodes|
    ensures Pick(nodes + [node], indices) == Pick(nodes, indices)
    ensures Pick(nodes + [node], indices + [|nodes|]) == Pick(nodes, indices) + [node]
  {
  }

  /** Node `i` stands for directory `i`, and holds the directories that hang at it. */
  ghost predicate NodeOk(dirs: seq<string>, nodes: seq<FolderNode>, i: nat)
    requires i < |nodes| <= |dirs|
    reads nodes[i]
  {
    && nodes[i].path == dirs[i] && nodes[i].name == NameOf(dirs[i]) && nodes[i].segments == Segments(dirs[i])
    && nodes[i].children == Pick(nodes, HangingAt(dirs, |nodes|, Some(i)))
  }

  /** What hangs at `at`, before and after one more directory. */
  lemma HangingGrows(dirs: seq<string>, nodes: seq<FolderNode>, node: FolderNode, at: Option<nat>)
    requires |nodes| < |dirs|
    ensures
      Pick(nodes + [node], HangingAt(dirs, |nodes| + 1, at)) ==
      Pick(nodes, HangingAt(dirs, |nodes|, at)) + if ParentOf(dirs, |nodes|) == at then [node] else []
  {
    HangingStep(dirs, |nodes|, at);
    PickGrows(nodes, node, HangingAt(dirs, |nodes|, at));
    hide HangingAt, Pick, ParentOf;
    var before := HangingAt(dirs, |nodes|, at);
    assert before + [] == before;
    assert Pick(nodes, before) + [] == Pick(nodes, before);
  }

  /** The map from paths to nodes: the last node with each path. */
  ghost predicate Indexed(dirs: seq<string>, nodes: seq<FolderNode>, byPath: map<string, FolderNode>)
    requires |nodes| <= |dirs|
  {
    && (forall p :: p in byPath <==> LastIndex(dirs, |nodes|, p).Some?)
    && forall p <- byPath :: LastIndex(dirs, |nodes|, p).Some? && byPath[p] == nodes[LastIndex(dirs, |nodes|, p).value]
  }

  lemma IndexGrows(dirs: seq<string>, nodes: seq<FolderNode>, byPath: map<string, FolderNode>, node: FolderNode)
    requires |nodes| < |dirs| && Indexed(dirs, nodes, byPath)
    ensures Indexed(dirs, nodes + [node], byPath[dirs[|nodes|] := node])
  {
  }

  /** Looking the parent up finds it, or finds that there is none. */
  lemma ParentFound(dirs: seq<string>, nodes: seq<FolderNode>, byPath: map<string, FolderNode>)
    requires 0 < |nodes| <= |dirs| && Indexed(dirs, nodes, byPath)
    ensures
      var i := |nodes| - 1;
      var up := ParentPath(dirs[i]);
      if |Segments(dirs[i])| == 1 then ParentOf(dirs, i).None?
      else if up in byPath then ParentOf(dirs, i).Some? && byPath[up] == nodes[ParentOf(dirs, i).value]
      else ParentOf(dirs, i).None?
  {
  }

  lemma NothingYet(dirs: seq<string>, nodes: seq<FolderNode>)
    requires |nodes| < |dirs|
    ensures Pick(nodes, HangingAt(dirs, |nodes|, Some(|nodes|))) == []
  {
    NothingEarly(dirs, |nodes|, |nodes|);
  }

  /** The forest of the first directories of a list: distinct nodes, each with its
      children, the map to find them by, and the top. */
  ghost predicate Forest(
    dirs: seq<string>, nodes: seq<FolderNode>, byPath: map<string, FolderNode>, root: seq<FolderNode>)
    reads nodes
  {
    && |nodes| <= |dirs|
    && (forall i :: 0 <= i < |nodes| ==> NodeOk(dirs, nodes, i))
    && (forall i, j :: 0 <= i < j < |nodes| ==> nodes[i] != nodes[j])
    && Indexed(dirs, nodes, byPath)
    && root == Pick(nodes, HangingAt(dirs, |nodes|, None))
  }

  /** One turn of the loop: the next directory's node goes to the end of its parent's
      children, or of the top. */
  method AddFolder(ghost dirs: seq<string>, ghost nodes: seq<FolderNode>, path: string,
                   byPath: map<string, FolderNode>, root: seq<FolderNode>)
    returns (node: FolderNode, byPath': map<string, FolderNode>, root': seq<FolderNode>)
    requires Forest(dirs, nodes, byPath, root) && |nodes| < |dirs| && path == dirs[|nodes|]
    modifies set n | n in nodes
    ensures fresh(node) && Forest(dirs, nodes + [node], byPath', root')
  {
    hide SortBy, VisibleDirs, Join, HangingAt, Pick, LastIndex, Indexed, ParentOf, NonEmpty, Split;
    var segments := Segments(path);
    var name := if segments == [] then path else segments[|segments| - 1];
    node := new FolderNode(name, path, segments);
    IndexGrows(dirs, nodes, byPath, node);
    NothingYet(dirs, nodes);
    HangingGrows(dirs, nodes, node, None);
    byPath' := byPath[path := node];
    ghost var now := nodes + [node];
    ParentFound(dirs, now, byPath');
    ghost var at := ParentOf(dirs, |nodes|);
    root' := root;
    label Linked:
    if |segments| == 1 {
      root' := root + [node];
    } else {
      var parentPath := if segments == [] then [] else Join(segments[..|segments| - 1], '/');
      if parentPath in byPath' {
        byPath'[parentPath].children := byPath'[parentPath].children + [node];
      } else {
        root' := root + [node];
      }
    }
    forall i | 0 <= i < |now|
      ensures NodeOk(dirs, now, i)
    {
      HangingGrows(dirs, nodes, node, Some(i));
      assert now[i].children == old@Linked(now[i].children) + if at == Some(i) then [node] else [];
      assert i < |nodes| ==> old@Linked(NodeOk(dirs, nodes, i));
    }
  }

  method BuildFolderTree(entries: seq<Dirent>, le: Order) returns (root: seq<FolderNode>, ghost nodes: seq<FolderNode>)
    ensures
      var dirs := SortBy(le, VisibleDirs(entries));
      && |nodes| == |dirs|
      && (forall i :: 0 <= i < |nodes| ==> fresh(nodes[i]) && NodeOk(dirs, nodes, i))
      && (forall i, j :: 0 <= i < j < |nodes| ==> nodes[i] != nodes[j])
      && root == Pick(nodes, HangingAt(dirs, |dirs|, None))
  {
    var dirs := SortBy(le, VisibleDirs(entries));
    root, nodes := [], [];
    var byPath: map<string, FolderNode> := map[];
    for n := 0 to |dirs|
      invariant |nodes| == n
      invariant forall i :: 0 <= i < n ==> fresh(nodes[i])
      invariant Forest(dirs, nodes, byPath, root)
    {
      var node;
      node, byPath, root := AddFolder(dirs, nodes, dirs[n], byPath, root);
      nodes := nodes + [node];
    }
  }
}
