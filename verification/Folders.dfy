/** Project folders: the descendants of one, and the tree of all. */
module Folders {
  import opened Options
  import opened Closure

  datatype Folder = Folder(id: string, name: string, parent: Option<string>, sortOrder: int)

  /** A node of the tree picker; one without children has no `children` field at all. */
  datatype FolderNode =
    | Leaf(value: string, title: string)
    | Branch(value: string, title: string, children: seq<FolderNode>)

  /** The parent's id; an empty one counts as none. */
  function ParentId(f: Folder): Option<string> {
    if f.parent == Some("") then None else f.parent
  }

  function ParentEdges(folders: seq<Folder>): Edges {
    set f | f in folders && ParentId(f).Some? :: (ParentId(f).value, f.id)
  }

  function Ids(folders: seq<Folder>): set<string> {
    set f | f in folders :: f.id
  }

  /** `folderAndDescendants`: sweeps over the folders until nothing is added. */
  method FolderAndDescendants(folders: seq<Folder>, id: string) returns (out: set<string>)
    ensures IsLeastClosed(ParentEdges(folders), {id}, out)
    ensures forall x :: x in out <==> Descends(folders, id, x)
  {
    ghost var edges := ParentEdges(folders);
    out := {id};
    var grew := true;
    while grew
      invariant id in out
      invariant forall t: set<string> | {id} <= t && Closed(edges, t) :: out <= t
      invariant !grew ==> Closed(edges, out)
      decreases Ids(folders) - out, grew
    {
      grew := false;
      ghost var before := out;
      for k := 0 to |folders|
        invariant before <= out && (grew ==> Ids(folders) - out < Ids(folders) - before)
        invariant !grew ==> out == before
        invariant forall t: set<string> | {id} <= t && Closed(edges, t) :: out <= t
        invariant !grew ==>
                    forall j | 0 <= j < k && ParentId(folders[j]).Some? && ParentId(folders[j]).value in out ::
                      folders[j].id in out
      {
        var f := folders[k];
        if ParentId(f).Some? && ParentId(f).value in out && f.id !in out {
          assert (ParentId(f).value, f.id) in edges;
          assert f.id in Ids(folders);
          out := out + {f.id};
          grew := true;
        }
      }
    }
    DescendantsByParent(folders, id, out);
  }

  function Foot(id: string, chain: seq<Folder>): string {
    if chain == [] then id else chain[|chain| - 1].id
  }

  /** A chain down from the id: each folder names the one before it, which is not the empty id, as its parent. */
  predicate DownFrom(folders: seq<Folder>, id: string, chain: seq<Folder>)
    decreases |chain|
  {
    chain == []
    || (var front, f := chain[..|chain| - 1], chain[|chain| - 1];
        DownFrom(folders, id, front) && f in folders && f.parent == Some(Foot(id, front)) && f.parent != Some(""))
  }

  /** x is the id, or that of a folder somewhere below it. */
  ghost predicate Descends(folders: seq<Folder>, id: string, x: string) {
    exists chain :: DownFrom(folders, id, chain) && Foot(id, chain) == x
  }

  lemma ShorterChain(folders: seq<Folder>, id: string, chain: seq<Folder>)
    requires DownFrom(folders, id, chain) && chain != []
    ensures var front, f := chain[..|chain| - 1], chain[|chain| - 1];
            DownFrom(folders, id, front) && (Foot(id, front), f.id) in ParentEdges(folders)
  {
    assert ParentId(chain[|chain| - 1]) == Some(Foot(id, chain[..|chain| - 1]));
  }

  lemma {:induction false} ChainIsWalk(folders: seq<Folder>, id: string, chain: seq<Folder>)
    requires DownFrom(folders, id, chain)
    ensures WalkTo(ParentEdges(folders), {id}, Foot(id, chain))
    decreases |chain|
  {
    hide DownFrom, ParentEdges;
    var edges := ParentEdges(folders);
    if chain == [] {
      StartIsWalkable(edges, {id}, id);
    } else {
      ShorterChain(folders, id, chain);
      ChainIsWalk(folders, id, chain[..|chain| - 1]);
      WalkOn(edges, {id}, Foot(id, chain[..|chain| - 1]), Foot(id, chain));
    }
  }

  lemma LongerChain(folders: seq<Folder>, id: string, chain: seq<Folder>, f: Folder)
    requires DownFrom(folders, id, chain) && f in folders && ParentId(f) == Some(Foot(id, chain))
    ensures DownFrom(folders, id, chain + [f]) && Foot(id, chain + [f]) == f.id
  {
    assert (chain + [f])[..|chain + [f]| - 1] == chain;
  }

  lemma {:induction false} WalkIsChain(folders: seq<Folder>, id: string, p: seq<string>)
    requires IsWalk(ParentEdges(folders), p) && p[0] == id
    ensures Descends(folders, id, p[|p| - 1])
    decreases |p|
  {
    hide DownFrom, Foot, ParentId;
    if |p| == 1 {
      NoChain(folders, id);
    } else {
      var n := |p| - 1;
      WalkIsChain(folders, id, p[..n]);
      var chain :| DownFrom(folders, id, chain) && Foot(id, chain) == p[n - 1];
      assert (p[n - 1], p[n - 1 + 1]) in ParentEdges(folders);
      var f :| f in folders && ParentId(f) == Some(p[n - 1]) && f.id == p[n];
      LongerChain(folders, id, chain, f);
    }
  }

  lemma NoChain(folders: seq<Folder>, id: string)
    ensures DownFrom(folders, id, []) && Foot(id, []) == id
  {
  }

  lemma DescendantsByParent(folders: seq<Folder>, id: string, out: set<string>)
    requires IsLeastClosed(ParentEdges(folders), {id}, out)
    ensures forall x :: x in out <==> Descends(folders, id, x)
  {
    LeastClosedIsWalkable(ParentEdges(folders), {id}, out);
    forall x
      ensures WalkTo(ParentEdges(folders), {id}, x) <==> Descends(folders, id, x)
    {
      if WalkTo(ParentEdges(folders), {id}, x) {
        var p :| IsWalk(ParentEdges(folders), p) && p[0] in {id} && p[|p| - 1] == x;
        WalkIsChain(folders, id, p);
      }
      if Descends(folders, id, x) {
        var chain :| DownFrom(folders, id, chain) && Foot(id, chain) == x;
        ChainIsWalk(folders, id, chain);
      }
    }
  }

  // ---- The tree ----

  predicate Listed(folders: seq<Folder>, id: string) {
    exists f | f in folders :: f.id == id
  }

  /** Where a folder hangs: under its parent when that is listed, at the top otherwise. */
  function KeyOf(folders: seq<Folder>, f: Folder): Option<string> {
    if ParentId(f).Some? && Listed(folders, ParentId(f).value) then ParentId(f) else None
  }

  /** The folders among `fs` that hang under key, in order. */
  function Under(all: seq<Folder>, fs: seq<Folder>, key: Option<string>): seq<Folder> {
    if fs == [] then []
    else
      var last := fs[|fs| - 1];
      Under(all, fs[..|fs| - 1], key) + if KeyOf(all, last) == key then [last] else []
  }

  function Kids(folders: seq<Folder>, key: Option<string>): seq<Folder> {
    Under(folders, folders, key)
  }

  /** The node shows the folder, and below it, in order, everything that hangs under it. */
  predicate Shows(folders: seq<Folder>, n: FolderNode, f: Folder)
    decreases n, 1
  {
    n.value == f.id && n.title == f.name
    && match n
       case Leaf(_, _) => Kids(folders, Some(f.id)) == []
       case Branch(_, _, ns) => ns != [] && ShowsAll(folders, ns, Kids(folders, Some(f.id)))
  }

  predicate ShowsAll(folders: seq<Folder>, ns: seq<FolderNode>, fs: seq<Folder>)
    decreases ns, 0
  {
    |ns| == |fs| && forall i | 0 <= i < |ns| :: Shows(folders, ns[i], fs[i])
  }

  ghost predicate UniqueIds(folders: seq<Folder>) {
    forall i, j | 0 <= i < j < |folders| :: folders[i].id != folders[j].id
  }

  /** The folder with that id hangs under key. */
  ghost predicate Hangs(folders: seq<Folder>, id: string, key: Option<string>) {
    exists f | f in folders :: f.id == id && KeyOf(folders, f) == key
  }

  function EndOf(path: seq<string>): Option<string> {
    if path == [] then None else Some(path[|path| - 1])
  }

  function Up(path: seq<string>): seq<string>
    requires path != []
  {
    path[..|path| - 1]
  }

  /** A parent chain read from the top: each id hangs under the one before, the first at the top. */
  ghost predicate RootPath(folders: seq<Folder>, path: seq<string>)
    decreases |path|
  {
    path == [] || (RootPath(folders, Up(path)) && Hangs(folders, path[|path| - 1], EndOf(Up(path))))
  }

  lemma {:induction false} RootPathPrefix(folders: seq<Folder>, path: seq<string>, k: nat)
    requires RootPath(folders, path) && k <= |path|
    ensures RootPath(folders, path[..k])
    decreases |path|
  {
    if k < |path| {
      assert path[..k] == Up(path)[..k];
      RootPathPrefix(folders, Up(path), k);
    } else {
      assert path[..k] == path;
    }
  }

  lemma {:induction false} UnderIs(all: seq<Folder>, fs: seq<Folder>, key: Option<string>)
    ensures forall f :: f in Under(all, fs, key) <==> f in fs && KeyOf(all, f) == key
  {
    if fs == [] {
    } else {
      UnderIs(all, fs[..|fs| - 1], key);
      assert fs == fs[..|fs| - 1] + [fs[|fs| - 1]];
    }
  }

  /** With unique ids an id hangs in one place only. */
  lemma HangsOnce(folders: seq<Folder>, id: string, k1: Option<string>, k2: Option<string>)
    requires UniqueIds(folders) && Hangs(folders, id, k1) && Hangs(folders, id, k2)
    ensures k1 == k2
  {
  }

  /** Going up from the same id gives the same chain. */
  lemma {:induction false} RootPathUnique(folders: seq<Folder>, p: seq<string>, q: seq<string>)
    requires UniqueIds(folders) && RootPath(folders, p) && RootPath(folders, q) && EndOf(p) == EndOf(q)
    ensures p == q
    decreases |p|
  {
    if p == [] {
    } else {
      HangsOnce(folders, p[|p| - 1], EndOf(Up(p)), EndOf(Up(q)));
      RootPathUnique(folders, Up(p), Up(q));
      assert p == Up(p) + [p[|p| - 1]] && q == Up(q) + [q[|q| - 1]];
    }
  }

  /** So a chain from the top never comes back to an id it holds. */
  lemma RootPathGrows(folders: seq<Folder>, path: seq<string>, f: Folder)
    requires UniqueIds(folders) && RootPath(folders, path) && f in folders && KeyOf(folders, f) == EndOf(path)
    ensures RootPath(folders, path + [f.id]) && f.id !in path
  {
    var longer := path + [f.id];
    assert Up(longer) == path;
    if f.id in path {
      var i :| 0 <= i < |path| && path[i] == f.id;
      RootPathPrefix(folders, path, i + 1);
      RootPathUnique(folders, longer, path[..i + 1]);
    }
  }

  lemma {:induction false} UnderHasUniqueIds(all: seq<Folder>, fs: seq<Folder>, key: Option<string>)
    requires UniqueIds(fs)
    ensures UniqueIds(Under(all, fs, key))
  {
    if fs == [] {
    } else {
      var rest := fs[..|fs| - 1];
      UnderHasUniqueIds(all, rest, key);
      UnderIs(all, rest, key);
      var u := Under(all, rest, key);
      forall i | 0 <= i < |u|
        ensures u[i].id != fs[|fs| - 1].id
      {
        assert u[i] in rest;
      }
    }
  }

  lemma KidsHang(folders: seq<Folder>, key: Option<string>)
    requires UniqueIds(folders)
    ensures forall i | 0 <= i < |Kids(folders, key)| ::
            Kids(folders, key)[i] in folders && KeyOf(folders, Kids(folders, key)[i]) == key
    ensures UniqueIds(Kids(folders, key))
  {
    UnderIs(folders, folders, key);
    UnderHasUniqueIds(folders, folders, key);
    assert forall i | 0 <= i < |Kids(folders, key)| :: Kids(folders, key)[i] in Kids(folders, key);
  }

  lemma GoingDownLeavesFewer(folders: seq<Folder>, path: seq<string>, f: Folder)
    requires f in folders && f.id !in path
    ensures Ids(folders) - (set x | x in path + [f.id]) < Ids(folders) - (set x | x in path)
  {
    assert f.id in Ids(folders) - (set x | x in path);
    assert f.id in path + [f.id];
  }

  /** The map's entry for each key lists the folders hanging there, in order. */
  ghost predicate Grouped(folders: seq<Folder>, byParent: map<Option<string>, seq<Folder>>) {
    forall key :: Entry(byParent, key) == Kids(folders, key)
  }

  function Entry(byParent: map<Option<string>, seq<Folder>>, key: Option<string>): seq<Folder> {
    if key in byParent then byParent[key] else []
  }

  /** `byParent`: one pass over the folders fills the map. */
  method GroupByParent(folders: seq<Folder>) returns (byParent: map<Option<string>, seq<Folder>>)
    ensures Grouped(folders, byParent)
  {
    byParent := map[];
    for i := 0 to |folders|
      invariant forall key :: Entry(byParent, key) == Under(folders, folders[..i], key)
    {
      var f := folders[i];
      var key := KeyOf(folders, f);
      assert folders[..i + 1][..i] == folders[..i];
      byParent := byParent[key := Entry(byParent, key) + [f]];
    }
    assert folders[..|folders|] == folders;
  }

  function NodeFor(f: Folder, children: seq<FolderNode>): FolderNode {
    if children == [] then Leaf(f.id, f.name) else Branch(f.id, f.name, children)
  }

  lemma NodeForShows(folders: seq<Folder>, f: Folder, children: seq<FolderNode>)
    requires ShowsAll(folders, children, Kids(folders, Some(f.id)))
    ensures Shows(folders, NodeFor(f, children), f)
  {
  }

  /** `build`, which goes down from the folders at the top; the path it came by bounds the depth. */
  method Build(byParent: map<Option<string>, seq<Folder>>, parent: Option<string>, ghost folders: seq<Folder>,
               ghost path: seq<string>)
    returns (nodes: seq<FolderNode>)
    requires Grouped(folders, byParent)
    requires UniqueIds(folders) && RootPath(folders, path) && parent == EndOf(path)
    ensures ShowsAll(folders, nodes, Kids(folders, parent))
    decreases Ids(folders) - (set x | x in path)
  {
    var fs := Entry(byParent, parent);
    assert fs == Kids(folders, parent);
    nodes := [];
    KidsHang(folders, parent);
    for i := 0 to |fs|
      invariant |nodes| == i
      invariant forall j | 0 <= j < i :: Shows(folders, nodes[j], fs[j])
    {
      var f := fs[i];
      RootPathGrows(folders, path, f);
      GoingDownLeavesFewer(folders, path, f);
      var children := Build(byParent, Some(f.id), folders, path + [f.id]);
      NodeForShows(folders, f, children);
      nodes := nodes + [NodeFor(f, children)];
    }
  }

  /** `folderTree`: terminates on every list with unique ids, cycles included. */
  method FolderTree(folders: seq<Folder>) returns (nodes: seq<FolderNode>)
    requires UniqueIds(folders)
    ensures ShowsAll(folders, nodes, Kids(folders, None))
    ensures forall id :: CountAll(nodes, id) == if ReachesTop(folders, id) then 1 else 0
    ensures forall f | f in folders :: CountAll(nodes, f.id) == if ClimbsToTop(folders, f) then 1 else 0
    ensures WellPlaced(folders, nodes, None)
  {
    var byParent := GroupByParent(folders);
    nodes := Build(byParent, None, folders, []);
    forall id
      ensures CountAll(nodes, id) == if ReachesTop(folders, id) then 1 else 0
    {
      TreeShowsEachOnce(folders, nodes, id);
    }
    forall f | f in folders
      ensures ReachesTop(folders, f.id) <==> ClimbsToTop(folders, f)
    {
      TopByParent(folders, f);
    }
    AllWellPlaced(folders, nodes, None);
  }

  // ---- What the tree shows ----

  /** How often an id appears in a subtree. */
  function Count(n: FolderNode, id: string): nat
    decreases n, 1
  {
    (if n.value == id then 1 else 0) + if n.Leaf? then 0 else CountAll(n.children, id)
  }

  function CountAll(ns: seq<FolderNode>, id: string): nat
    decreases ns, 0
  {
    if ns == [] then 0 else Count(ns[0], id) + CountAll(ns[1..], id)
  }

  /** The parent chain of the id, read from the top, begins with path. */
  ghost predicate Below(folders: seq<Folder>, path: seq<string>, id: string) {
    exists q :: RootPath(folders, q) && path <= q && EndOf(q) == Some(id)
  }

  lemma BelowOneKid(folders: seq<Folder>, path: seq<string>, a: string, b: string, id: string)
    requires UniqueIds(folders) && Below(folders, path + [a], id) && Below(folders, path + [b], id)
    ensures a == b
  {
    var p :| RootPath(folders, p) && path + [a] <= p && EndOf(p) == Some(id);
    var q :| RootPath(folders, q) && path + [b] <= q && EndOf(q) == Some(id);
    RootPathUnique(folders, p, q);
    assert p[|path|] == a && q[|path|] == b;
  }

  /** A chain that goes on beyond path goes on through one of the folders hanging there. */
  lemma BelowThroughKid(folders: seq<Folder>, path: seq<string>, id: string) returns (i: nat)
    requires UniqueIds(folders) && RootPath(folders, path) && Below(folders, path, id) && EndOf(path) != Some(id)
    ensures i < |Kids(folders, EndOf(path))| && Below(folders, path + [Kids(folders, EndOf(path))[i].id], id)
  {
    hide KeyOf, Listed, Under, UniqueIds;
    var q :| RootPath(folders, q) && path <= q && EndOf(q) == Some(id);
    RootPathPrefix(folders, q, |path| + 1);
    var step := q[..|path| + 1];
    assert Up(step) == path;
    var f :| f in folders && f.id == q[|path|] && KeyOf(folders, f) == EndOf(path);
    UnderIs(folders, folders, EndOf(path));
    i :| 0 <= i < |Kids(folders, EndOf(path))| && Kids(folders, EndOf(path))[i] == f;
    assert path + [f.id] <= q;
  }

  /** Some folder of fs hanging at the end of path leads to the id. */
  ghost predicate BelowOneOf(folders: seq<Folder>, path: seq<string>, fs: seq<Folder>, id: string) {
    exists i: nat :: i < |fs| && Below(folders, path + [fs[i].id], id)
  }

  /** An id is at the end of path, or below exactly one of the folders hanging there. */
  lemma BelowSplits(folders: seq<Folder>, path: seq<string>, id: string)
    requires UniqueIds(folders) && RootPath(folders, path)
    ensures EndOf(path) == Some(id)
            ==> Below(folders, path, id) && !BelowOneOf(folders, path, Kids(folders, EndOf(path)), id)
    ensures EndOf(path) != Some(id)
            ==> (Below(folders, path, id) <==> BelowOneOf(folders, path, Kids(folders, EndOf(path)), id))
  {
    var fs := Kids(folders, EndOf(path));
    if EndOf(path) != Some(id) && Below(folders, path, id) {
      var i := BelowThroughKid(folders, path, id);
    }
    if BelowOneOf(folders, path, fs, id) {
      var i: nat :| i < |fs| && Below(folders, path + [fs[i].id], id);
      var q :| RootPath(folders, q) && path + [fs[i].id] <= q && EndOf(q) == Some(id);
      assert path <= q;
      if EndOf(path) == Some(id) {
        RootPathUnique(folders, q, path);
      }
    }
  }

  lemma {:induction false} CountIsBelow(folders: seq<Folder>, n: FolderNode, f: Folder, path: seq<string>, id: string)
    requires UniqueIds(folders) && Shows(folders, n, f) && RootPath(folders, path) && EndOf(path) == Some(f.id)
    ensures Count(n, id) == if Below(folders, path, id) then 1 else 0
    decreases n, 1
  {
    BelowSplits(folders, path, id);
    if n.Branch? {
      KidsHang(folders, Some(f.id));
      CountAllIsBelow(folders, n.children, Kids(folders, Some(f.id)), path, id);
    }
  }

  /** The nodes of folders hanging at the end of path show an id at most once between them. */
  lemma {:induction false} CountAllIsBelow(folders: seq<Folder>, ns: seq<FolderNode>, fs: seq<Folder>,
                                           path: seq<string>, id: string)
    requires UniqueIds(folders) && ShowsAll(folders, ns, fs) && RootPath(folders, path)
    requires forall i | 0 <= i < |fs| :: fs[i] in folders && KeyOf(folders, fs[i]) == EndOf(path)
    requires UniqueIds(fs)
    ensures CountAll(ns, id) == if BelowOneOf(folders, path, fs, id) then 1 else 0
    decreases ns, 0
  {
    if ns == [] {
    } else {
      RootPathGrows(folders, path, fs[0]);
      CountIsBelow(folders, ns[0], fs[0], path + [fs[0].id], id);
      CountAllIsBelow(folders, ns[1..], fs[1..], path, id);
      BelowFirstOrRest(folders, path, fs, id);
    }
  }

  lemma BelowFirstOrRest(folders: seq<Folder>, path: seq<string>, fs: seq<Folder>, id: string)
    requires UniqueIds(folders) && UniqueIds(fs) && fs != []
    ensures BelowOneOf(folders, path, fs, id)
            <==> Below(folders, path + [fs[0].id], id) || BelowOneOf(folders, path, fs[1..], id)
    ensures !(Below(folders, path + [fs[0].id], id) && BelowOneOf(folders, path, fs[1..], id))
  {
    if BelowOneOf(folders, path, fs[1..], id) {
      var i: nat :| i < |fs[1..]| && Below(folders, path + [fs[1..][i].id], id);
      assert fs[1..][i] == fs[i + 1];
      if Below(folders, path + [fs[0].id], id) {
        BelowOneKid(folders, path, fs[0].id, fs[i + 1].id, id);
      }
    }
    if i: nat :| i < |fs| && Below(folders, path + [fs[i].id], id) {
      if i > 0 {
        assert fs[1..][i - 1] == fs[i];
      }
    }
  }

  /** The folder's parent chain reaches a folder with no listed parent. */
  ghost predicate ReachesTop(folders: seq<Folder>, id: string) {
    exists q :: RootPath(folders, q) && EndOf(q) == Some(id)
  }

  /** Each folder is in the tree at most once, and exactly when its parent chain reaches the top. */
  lemma TreeShowsEachOnce(folders: seq<Folder>, nodes: seq<FolderNode>, id: string)
    requires UniqueIds(folders) && ShowsAll(folders, nodes, Kids(folders, None))
    ensures CountAll(nodes, id) == if ReachesTop(folders, id) then 1 else 0
  {
    KidsHang(folders, None);
    CountAllIsBelow(folders, nodes, Kids(folders, None), [], id);
    BelowSplits(folders, [], id);
    assert Below(folders, [], id) <==> ReachesTop(folders, id);
  }

  /** A folder's subtree in the picker holds exactly the folder and its descendants. */
  lemma SubtreeIsDescendants(folders: seq<Folder>, n: FolderNode, f: Folder, out: set<string>)
    requires f in folders && Shows(folders, n, f)
    requires IsLeastClosed(ParentEdges(folders), {f.id}, out)
    ensures forall id :: id in out <==> Count(n, id) > 0
  {
    var edges := ParentEdges(folders);
    var shown := set id | id in Ids(folders) && Count(n, id) > 0;
    forall id | Count(n, id) > 0
      ensures id in out && id in Ids(folders)
    {
      CountedIsInside(folders, n, f, out, id);
    }
    forall e | e in edges && e.0 in shown
      ensures e.1 in shown
    {
      var g :| g in folders && ParentId(g) == Some(e.0) && g.id == e.1;
      ChildOfShownIsShown(folders, n, f, e.0, g);
    }
    assert f.id in shown;
    assert out <= shown;
  }

  lemma {:induction false} CountedIsInside(folders: seq<Folder>, n: FolderNode, f: Folder, out: set<string>, id: string)
    requires f in folders && Shows(folders, n, f) && Closed(ParentEdges(folders), out) && f.id in out
    requires Count(n, id) > 0
    ensures id in out && id in Ids(folders)
    decreases n, 1
  {
    if n.value != id {
      UnderIs(folders, folders, Some(f.id));
      var fs := Kids(folders, Some(f.id));
      forall i | 0 <= i < |fs|
        ensures fs[i] in folders && fs[i].id in out
      {
        assert fs[i] in fs;
        assert (f.id, fs[i].id) in ParentEdges(folders);
      }
      CountedAmongInside(folders, n.children, fs, out, id);
    }
  }

  lemma {:induction false} CountedAmongInside(folders: seq<Folder>, ns: seq<FolderNode>, fs: seq<Folder>,
                                              out: set<string>, id: string)
    requires ShowsAll(folders, ns, fs) && Closed(ParentEdges(folders), out)
    requires forall i | 0 <= i < |fs| :: fs[i] in folders && fs[i].id in out
    requires CountAll(ns, id) > 0
    ensures id in out && id in Ids(folders)
    decreases ns, 0
  {
    if Count(ns[0], id) > 0 {
      CountedIsInside(folders, ns[0], fs[0], out, id);
    } else {
      CountedAmongInside(folders, ns[1..], fs[1..], out, id);
    }
  }

  lemma {:induction false} ChildOfShownIsShown(folders: seq<Folder>, n: FolderNode, f: Folder, id: string, g: Folder)
    requires f in folders && Shows(folders, n, f) && Count(n, id) > 0 && id in Ids(folders)
    requires g in folders && ParentId(g) == Some(id)
    ensures Count(n, g.id) > 0
    decreases n, 1
  {
    UnderIs(folders, folders, Some(f.id));
    var fs := Kids(folders, Some(f.id));
    if n.value == id {
      assert KeyOf(folders, g) == Some(id);
      var i :| 0 <= i < |fs| && fs[i] == g;
      assert Shows(folders, n.children[i], g);
      CountAllPositive(n.children, i, g.id);
    } else {
      assert forall i | 0 <= i < |fs| :: fs[i] in fs;
      ChildAmongShown(folders, n.children, fs, id, g);
    }
  }

  lemma {:induction false} ChildAmongShown(folders: seq<Folder>, ns: seq<FolderNode>, fs: seq<Folder>, id: string,
                                           g: Folder)
    requires ShowsAll(folders, ns, fs) && (forall i | 0 <= i < |fs| :: fs[i] in folders)
    requires CountAll(ns, id) > 0 && id in Ids(folders) && g in folders && ParentId(g) == Some(id)
    ensures CountAll(ns, g.id) > 0
    decreases ns, 0
  {
    if Count(ns[0], id) > 0 {
      ChildOfShownIsShown(folders, ns[0], fs[0], id, g);
    } else {
      ChildAmongShown(folders, ns[1..], fs[1..], id, g);
    }
  }

  lemma {:induction false} CountAllPositive(ns: seq<FolderNode>, i: nat, id: string)
    requires i < |ns| && Count(ns[i], id) > 0
    ensures CountAll(ns, id) > 0
  {
    if i == 0 {
    } else {
      CountAllPositive(ns[1..], i - 1, id);
    }
  }

  // ---- The tree by the parents alone ----

  /** No parent is given, or none that is listed. */
  ghost predicate AtTop(folders: seq<Folder>, f: Folder) {
    f.parent in {None, Some("")} || forall g | g in folders :: f.parent != Some(g.id)
  }

  /** A chain of listed folders, each the parent of the one before it, that ends at the top. */
  ghost predicate Climb(folders: seq<Folder>, chain: seq<Folder>) {
    && chain != [] && (forall i | 0 <= i < |chain| :: chain[i] in folders)
    && (forall i | 0 < i < |chain| :: chain[i].id != "" && chain[i - 1].parent == Some(chain[i].id))
    && AtTop(folders, chain[|chain| - 1])
  }

  ghost predicate ClimbsToTop(folders: seq<Folder>, f: Folder) {
    exists chain :: Climb(folders, chain) && chain[0] == f
  }

  lemma KeyByParent(folders: seq<Folder>, f: Folder)
    ensures KeyOf(folders, f) == None <==> AtTop(folders, f)
    ensures forall g | g in folders ::
              KeyOf(folders, f) == Some(g.id) <==> g.id != "" && f.parent == Some(g.id)
    ensures KeyOf(folders, f).Some? ==> exists g | g in folders :: g.id == KeyOf(folders, f).value
  {
  }

  lemma {:induction false} PathClimbs(folders: seq<Folder>, path: seq<string>, f: Folder)
    requires UniqueIds(folders) && f in folders && RootPath(folders, path) && EndOf(path) == Some(f.id)
    ensures ClimbsToTop(folders, f)
    decreases |path|
  {
    hide KeyOf, AtTop;
    var key := EndOf(Up(path));
    assert KeyOf(folders, f) == key;
    KeyByParent(folders, f);
    if key == None {
      assert Climb(folders, [f]);
    } else {
      var g :| g in folders && g.id == key.value;
      PathClimbs(folders, Up(path), g);
      var chain :| Climb(folders, chain) && chain[0] == g;
      assert Climb(folders, [f] + chain);
    }
  }

  lemma {:induction false} ClimbHasPath(folders: seq<Folder>, chain: seq<Folder>)
    requires UniqueIds(folders) && Climb(folders, chain)
    ensures ReachesTop(folders, chain[0].id)
    decreases |chain|
  {
    hide KeyOf, AtTop;
    var f := chain[0];
    KeyByParent(folders, f);
    if |chain| == 1 {
      RootPathGrows(folders, [], f);
      assert EndOf([] + [f.id]) == Some(f.id);
    } else {
      ClimbHasPath(folders, chain[1..]);
      var q :| RootPath(folders, q) && EndOf(q) == Some(chain[1].id);
      RootPathGrows(folders, q, f);
      assert EndOf(q + [f.id]) == Some(f.id);
    }
  }

  lemma TopByParent(folders: seq<Folder>, f: Folder)
    requires UniqueIds(folders) && f in folders
    ensures ReachesTop(folders, f.id) <==> ClimbsToTop(folders, f)
  {
    if ReachesTop(folders, f.id) {
      var q :| RootPath(folders, q) && EndOf(q) == Some(f.id);
      PathClimbs(folders, q, f);
    }
    if ClimbsToTop(folders, f) {
      var chain :| Climb(folders, chain) && chain[0] == f;
      ClimbHasPath(folders, chain);
    }
  }

  /** The node shows a folder of that parent, or of the top, under its name. */
  ghost predicate PlacedUnder(folders: seq<Folder>, n: FolderNode, parent: Option<string>) {
    exists f | f in folders ::
      n.value == f.id && n.title == f.name && if parent.Some? then f.parent == parent else AtTop(folders, f)
  }

  /** The nodes come in the order of the list. */
  ghost predicate InListOrder(folders: seq<Folder>, ns: seq<FolderNode>) {
    forall i, j, a, b | 0 <= i < j < |ns| && 0 <= a < |folders| && 0 <= b < |folders|
                        && folders[a].id == ns[i].value && folders[b].id == ns[j].value :: a < b
  }

  /** At every level each node is under its folder's parent, and siblings come in the order of the list. */
  ghost predicate WellPlaced(folders: seq<Folder>, ns: seq<FolderNode>, parent: Option<string>)
    decreases ns
  {
    && InListOrder(folders, ns) && (forall i | 0 <= i < |ns| :: PlacedUnder(folders, ns[i], parent))
    && forall i | 0 <= i < |ns| && ns[i].Branch? :: WellPlaced(folders, ns[i].children, Some(ns[i].value))
  }

  lemma {:induction false} UnderInOrder(all: seq<Folder>, fs: seq<Folder>, key: Option<string>, i: nat, j: nat)
    requires UniqueIds(fs) && i < j < |Under(all, fs, key)|
    ensures forall a, b | 0 <= a < |fs| && 0 <= b < |fs| && fs[a].id == Under(all, fs, key)[i].id
                          && fs[b].id == Under(all, fs, key)[j].id :: a < b
  {
    hide KeyOf;
    var front, u := fs[..|fs| - 1], Under(all, fs[..|fs| - 1], key);
    UnderIs(all, front, key);
    assert forall k | 0 <= k < |u| :: u[k] in u && u[k] in front;
    if j < |u| {
      UnderInOrder(all, front, key, i, j);
      assert forall a | 0 <= a < |front| :: front[a] == fs[a];
    }
  }

  lemma {:induction false} AllWellPlaced(folders: seq<Folder>, ns: seq<FolderNode>, parent: Option<string>)
    requires UniqueIds(folders) && ShowsAll(folders, ns, Kids(folders, parent))
    ensures WellPlaced(folders, ns, parent)
    decreases ns
  {
    hide KeyOf, AtTop;
    var fs := Kids(folders, parent);
    KidsHang(folders, parent);
    forall i | 0 <= i < |ns|
      ensures PlacedUnder(folders, ns[i], parent)
      ensures ns[i].Branch? ==> WellPlaced(folders, ns[i].children, Some(ns[i].value))
    {
      KeyByParent(folders, fs[i]);
      if ns[i].Branch? {
        AllWellPlaced(folders, ns[i].children, Some(ns[i].value));
      }
    }
    forall i, j | 0 <= i < j < |ns|
      ensures forall a, b | 0 <= a < |folders| && 0 <= b < |folders|
                            && folders[a].id == ns[i].value && folders[b].id == ns[j].value :: a < b
    {
      UnderInOrder(folders, folders, parent, i, j);
    }
  }
}
