/** Routing of workspace paths to mounts. */
module Mounts {
  import opened Prelude

  datatype Mount = Mount(prefix: string, resource: nat)
  datatype Result<+T> = Ok(value: T) | Err

  // ------------------------------------------------------------------ paths

  function TrimSlashes(s: string): (t: string)
    ensures t <= s && (t != [] ==> t[|t| - 1] != '/') && forall i :: |t| <= i < |s| ==> s[i] == '/'
  {
    if s != [] && s[|s| - 1] == '/' then TrimSlashes(s[..|s| - 1]) else s
  }

  /** A path inside a mount: absolute, without trailing slashes but for the root. */
  function MountPath(s: string): string {
    var t := TrimSlashes(s);
    if t == [] then "/" else if t[0] == '/' then t else ['/'] + t
  }

  /** The workspace path, made absolute, without trailing slashes. */
  function Normal(path: string): (r: string)
    ensures r != [] ==> r[0] == '/' && r[|r| - 1] != '/'
    ensures
      var whole := if path != [] && path[0] == '/' then path else "/" + path;
      r <= whole && forall i :: |r| <= i < |whole| ==> whole[i] == '/'
  {
    TrimSlashes(if path != [] && path[0] == '/' then path else ['/'] + path)
  }

  /** The prefix covers whole components of the path. */
  predicate Owns(prefix: string, abs: string) {
    abs == prefix || (prefix <= abs && |abs| > |prefix| && abs[|prefix|] == '/')
  }

  // ----------------------------------------------------------------- routing

  datatype Route = Route(mount: Mount, path: string)

  /** The first mount of the list that owns the path. */
  function RouteIn(mounts: seq<Mount>, abs: string): Option<Route> {
    if mounts == [] then None
    else if Owns(mounts[0].prefix, abs) then
      Some(Route(mounts[0], if abs == mounts[0].prefix then "/" else MountPath(abs[|mounts[0].prefix|..])))
    else RouteIn(mounts[1..], abs)
  }

  /** Longest prefixes first. */
  ghost predicate Descending(mounts: seq<Mount>) {
    forall i, j :: 0 <= i < j < |mounts| ==> |mounts[i].prefix| >= |mounts[j].prefix|
  }

  ghost predicate Distinct(mounts: seq<Mount>) {
    forall i, j :: 0 <= i < j < |mounts| ==> mounts[i].prefix != mounts[j].prefix
  }

  predicate Absolute(prefix: string) {
    prefix != [] && prefix[0] == '/'
  }

  ghost predicate Accepted(mounts: seq<Mount>) {
    (forall m <- mounts :: Absolute(m.prefix)) && Distinct(mounts)
  }

  // --------------------------------------------------------------- building

  /** Position in a list sorted by descending length, after its equals. */
  function InsertByLength(m: Mount, sorted: seq<Mount>): seq<Mount> {
    if sorted == [] || |sorted[0].prefix| < |m.prefix| then [m] + sorted
    else [sorted[0]] + InsertByLength(m, sorted[1..])
  }

  lemma {:induction false} InsertHolds(m: Mount, sorted: seq<Mount>)
    ensures multiset(InsertByLength(m, sorted)) == multiset(sorted) + multiset{m}
  {
    if sorted != [] && |sorted[0].prefix| >= |m.prefix| {
      InsertHolds(m, sorted[1..]);
      assert sorted == [sorted[0]] + sorted[1..];
    }
  }

  /** No prefix of the list is longer than `n`. */
  ghost predicate AtMost(mounts: seq<Mount>, n: nat) {
    forall i :: 0 <= i < |mounts| ==> |mounts[i].prefix| <= n
  }

  lemma {:induction false} InsertSorts(m: Mount, sorted: seq<Mount>, n: nat)
    requires Descending(sorted) && AtMost(sorted, n) && |m.prefix| <= n
    ensures Descending(InsertByLength(m, sorted)) && AtMost(InsertByLength(m, sorted), n)
  {
    if sorted != [] && |sorted[0].prefix| >= |m.prefix| {
      InsertSorts(m, sorted[1..], |sorted[0].prefix|);
    }
  }

  lemma InsertKeeps(m: Mount, sorted: seq<Mount>)
    requires Descending(sorted)
    ensures Descending(InsertByLength(m, sorted))
    ensures multiset(InsertByLength(m, sorted)) == multiset(sorted) + multiset{m}
  {
    var n := |m.prefix| + if sorted == [] then 0 else |sorted[0].prefix|;
    InsertSorts(m, sorted, n);
    InsertHolds(m, sorted);
  }

  class WorkspaceFs {
    var mounts: seq<Mount>

    ghost predicate Valid()
      reads this
    {
      Accepted(mounts) && Descending(mounts)
    }

    constructor (mounts: seq<Mount>)
      ensures this.mounts == mounts
    {
      this.mounts := mounts;
    }

    /** The mount that owns a path, and the path inside it. */
    method RoutePath(path: string) returns (route: Option<Route>)
      ensures route == RouteIn(mounts, Normal(path))
    {
      var abs := Normal(path);
      assert mounts[0..] == mounts;
      for i := 0 to |mounts|
        invariant RouteIn(mounts, abs) == RouteIn(mounts[i..], abs)
      {
        var m := mounts[i];
        assert mounts[i..][1..] == mounts[i + 1..];
        if abs == m.prefix {
          return Some(Route(m, "/"));
        }
        if m.prefix <= abs && abs[|m.prefix|] == '/' {
          return Some(Route(m, MountPath(abs[|m.prefix|..])));
        }
      }
      return None;
    }
  }

  /** Refuses empty, relative and duplicate prefixes; sorts the rest. */
  method FromMounts(mounts: seq<Mount>) returns (fs: Result<WorkspaceFs>)
    ensures fs.Ok? <==> Accepted(mounts)
    ensures fs.Ok? ==> fresh(fs.value) && fs.value.Valid() && multiset(fs.value.mounts) == multiset(mounts)
  {
    for i := 0 to |mounts|
      invariant forall k :: 0 <= k < i ==> Absolute(mounts[k].prefix)
    {
      if mounts[i].prefix == [] || mounts[i].prefix[0] != '/' {
        assert mounts[i] in mounts;
        return Err;
      }
    }
    for i := 0 to |mounts|
      invariant forall k, j :: 0 <= k < i && k < j < |mounts| ==> mounts[k].prefix != mounts[j].prefix
    {
      for j := i + 1 to |mounts|
        invariant forall k :: i < k < j ==> mounts[i].prefix != mounts[k].prefix
      {
        if mounts[i].prefix == mounts[j].prefix {
          return Err;
        }
      }
    }
    var sorted: seq<Mount> := [];
    for i := 0 to |mounts|
      invariant Descending(sorted) && multiset(sorted) == multiset(mounts[..i])
    {
      InsertKeeps(mounts[i], sorted);
      PrefixGrows(mounts, i);
      sorted := InsertByLength(mounts[i], sorted);
    }
    assert mounts[..|mounts|] == mounts;
    SameMounts(mounts, sorted);
    var made := new WorkspaceFs(sorted);
    return Ok(made);
  }

  // ---------------------------------------------------------------- results

  /** Reordering an accepted list keeps it accepted. */
  lemma SameMounts(a: seq<Mount>, b: seq<Mount>)
    requires Accepted(a) && multiset(a) == multiset(b)
    ensures Accepted(b)
  {
    forall m | m in b
      ensures Absolute(m.prefix)
    {
      assert m in multiset(b);
      assert m in a;
    }
    forall i, j | 0 <= i < j < |b|
      ensures b[i].prefix != b[j].prefix
    {
      if b[i].prefix == b[j].prefix {
        SameIndex(a, b, i, j);
      }
    }
  }

  lemma SameIndex(a: seq<Mount>, b: seq<Mount>, i: nat, j: nat)
    requires Distinct(a) && multiset(a) == multiset(b) && i < j < |b|
    ensures b[i].prefix != b[j].prefix
  {
    assert b[i] in multiset(b) && b[j] in multiset(b);
    assert b[i] in a && b[j] in a;
    if b[i] == b[j] {
      MultisetTwice(b, i, j);
      MultisetOnce(a, b[i]);
    }
  }

  lemma MultisetTwice(s: seq<Mount>, i: nat, j: nat)
    requires i < j < |s| && s[i] == s[j]
    ensures multiset(s)[s[i]] >= 2
  {
    assert s == s[..j] + [s[j]] + s[j + 1..];
    assert s[..j][i] == s[i];
    assert s[i] in multiset(s[..j]);
  }

  lemma {:induction false} MultisetOnce(s: seq<Mount>, m: Mount)
    requires Distinct(s)
    ensures multiset(s)[m] <= 1
  {
    if s != [] {
      MultisetOnce(s[1..], m);
      assert s == [s[0]] + s[1..];
      if s[0] == m {
        assert m !in s[1..];
      }
    }
  }

  /** Of two prefixes that own one path, the longer is decided by length alone. */
  lemma OwnersDiffer(p: string, q: string, abs: string)
    requires Owns(p, abs) && Owns(q, abs) && |p| == |q|
    ensures p == q
  {
    assert p == abs[..|p|] && q == abs[..|q|];
  }

  /** The route is the longest owner: no mount that owns the path has a longer prefix,
      and there is none only when no mount owns it. */
  lemma {:induction false} RouteLongest(mounts: seq<Mount>, abs: string)
    requires Descending(mounts)
    ensures RouteIn(mounts, abs).None? ==> forall i :: 0 <= i < |mounts| ==> !Owns(mounts[i].prefix, abs)
    ensures RouteIn(mounts, abs).Some? ==>
              var m := RouteIn(mounts, abs).value.mount;
              && m in mounts && Owns(m.prefix, abs)
              && forall i :: 0 <= i < |mounts| && Owns(mounts[i].prefix, abs) ==> |mounts[i].prefix| <= |m.prefix|
  {
    if mounts != [] {
      hide Owns, MountPath;
      var rest := mounts[1..];
      RouteLongest(rest, abs);
      assert forall i :: 1 <= i < |mounts| ==> mounts[i] == rest[i - 1];
      assert forall m :: m in rest ==> m in mounts;
    }
  }

  lemma {:induction false} RoutePathOf(mounts: seq<Mount>, abs: string)
    requires RouteIn(mounts, abs).Some?
    ensures
      var r := RouteIn(mounts, abs).value;
      Owns(r.mount.prefix, abs)
      && r.path == if abs == r.mount.prefix then "/" else MountPath(abs[|r.mount.prefix|..])
  {
    if !Owns(mounts[0].prefix, abs) {
      RoutePathOf(mounts[1..], abs);
    }
  }

  /** Nothing of the path is lost: prefix and remainder rebuild it, and the remainder is
      the root or starts with a slash and ends without one. */
  lemma RouteRebuilds(mounts: seq<Mount>, path: string)
    requires RouteIn(mounts, Normal(path)).Some?
    ensures
      var r := RouteIn(mounts, Normal(path)).value;
      && Normal(path) == r.mount.prefix + (if r.path == "/" then [] else r.path)
      && r.path != [] && r.path[0] == '/' && (r.path == "/" || r.path[|r.path| - 1] != '/')
  {
    var abs := Normal(path);
    RoutePathOf(mounts, abs);
    var p := RouteIn(mounts, abs).value.mount.prefix;
    assert abs != [] ==> abs[|abs| - 1] != '/';
    hide Normal, RouteIn;
    if abs != p {
      RestRebuilds(p, abs);
    }
  }

  lemma RestRebuilds(p: string, abs: string)
    requires Owns(p, abs) && abs != p && abs[|abs| - 1] != '/'
    ensures
      var rest := MountPath(abs[|p|..]);
      abs == p + rest && rest != "/" && rest != [] && rest[0] == '/' && rest[|rest| - 1] != '/'
  {
    var rest := abs[|p|..];
    assert abs == p + rest && rest[|rest| - 1] == abs[|abs| - 1];
    TrimNothing(rest);
  }

  lemma TrimNothing(s: string)
    requires s != [] && s[|s| - 1] != '/'
    ensures TrimSlashes(s) == s
  {
  }

  /** The order in which mounts are listed never matters. */
  lemma OrderFree(a: seq<Mount>, b: seq<Mount>, abs: string)
    requires Accepted(a) && Accepted(b) && multiset(a) == multiset(b) && Descending(a) && Descending(b)
    ensures RouteIn(a, abs) == RouteIn(b, abs)
  {
    RouteLongest(a, abs);
    RouteLongest(b, abs);
    SameMembers(a, b);
    var ra, rb := RouteIn(a, abs), RouteIn(b, abs);
    hide Owns, RouteIn, Accepted, Descending;
    if ra.Some? && rb.Some? {
      var m, n := ra.value.mount, rb.value.mount;
      OwnersDiffer(m.prefix, n.prefix, abs);
      SameMount(a, m, n);
      RoutePathOf(a, abs);
      RoutePathOf(b, abs);
    }
  }

  lemma SameMembers(a: seq<Mount>, b: seq<Mount>)
    requires multiset(a) == multiset(b)
    ensures forall m :: m in a <==> m in b
  {
    assert forall m :: m in a <==> m in multiset(a);
    assert forall m :: m in b <==> m in multiset(b);
  }

  lemma SameMount(mounts: seq<Mount>, m: Mount, n: Mount)
    requires Accepted(mounts) && m in mounts && n in mounts && m.prefix == n.prefix
    ensures m == n
  {
  }

  /** A relative path stands for the absolute one. */
  lemma RelativeNormal(path: string)
    requires |path| >= 2 && path[0] == '/' && path[1] != '/' && path[|path| - 1] != '/'
    ensures Normal(path[1..]) == path == Normal(path)
  {
    assert path == "/" + path[1..];
    TrimNothing(path);
  }

  /** A path below a mount is routed, with or without its first slash, and both ways
      alike: to that mount or to one with a longer prefix. */
  lemma BelowRouted(mounts: seq<Mount>, m: Mount, rest: string)
    requires Accepted(mounts) && Descending(mounts) && m in mounts
    requires rest != [] && rest[|rest| - 1] != '/' && (m.prefix + "/" + rest)[1] != '/'
    ensures
      var path := m.prefix + "/" + rest;
      var route := RouteIn(mounts, Normal(path[1..]));
      && route == RouteIn(mounts, Normal(path))
      && route.Some? && |route.value.mount.prefix| >= |m.prefix| && Owns(route.value.mount.prefix, path)
  {
    var path := m.prefix + "/" + rest;
    BelowOwned(m.prefix, rest);
    assert m.prefix[0] == '/';
    hide *;
    RelativeNormal(path);
    RouteLongest(mounts, path);
    var i :| 0 <= i < |mounts| && mounts[i] == m;
    assert Owns(mounts[i].prefix, path);
  }

  lemma BelowOwned(prefix: string, rest: string)
    requires prefix != [] && rest != []
    ensures
      var path := prefix + "/" + rest;
      Owns(prefix, path) && |path| >= 2 && path[0] == prefix[0] && path[|path| - 1] == rest[|rest| - 1]
  {
    var path := prefix + "/" + rest;
    assert prefix == path[..|prefix|] && path[|prefix|] == '/';
  }

  /** A mount is reached by its own prefix exactly when the prefix has no trailing slash,
      which an accepted one may have. */
  lemma OwnPrefixReaches(mounts: seq<Mount>, m: Mount)
    requires Accepted(mounts) && Descending(mounts) && m in mounts
    ensures
      var r := RouteIn(mounts, Normal(m.prefix));
      r.Some? && r.value.mount == m <==> m.prefix[|m.prefix| - 1] != '/'
  {
    var abs := Normal(m.prefix);
    RouteLongest(mounts, abs);
    if m.prefix[|m.prefix| - 1] != '/' {
      TrimNothing(m.prefix);
      var i :| 0 <= i < |mounts| && mounts[i] == m;
      assert Owns(mounts[i].prefix, abs);
      var n := RouteIn(mounts, abs).value.mount;
      OwnersDiffer(n.prefix, m.prefix, abs);
      SameMount(mounts, m, n);
    } else {
      TrimShortens(m.prefix);
    }
  }

  lemma TrimShortens(s: string)
    requires s != [] && s[|s| - 1] == '/'
    ensures |TrimSlashes(s)| < |s|
  {
  }

  /** And all it reaches below then are paths with an empty component in its place. */
  lemma TrailingSlashOwns(prefix: string, path: string)
    requires Absolute(prefix) && prefix[|prefix| - 1] == '/'
    ensures Owns(prefix, Normal(path)) <==>
            |Normal(path)| > |prefix| && prefix <= Normal(path) && Normal(path)[|prefix|] == '/'
  {
  }
}
