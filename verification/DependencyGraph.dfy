/** The dependency graph over an abstract file system: what a recorded name stands for, and the graph
    that grows while it is walked by index. */
module DependencyGraph {
  import opened Bytes
  import opened DependencySearch

  /** What a parsed file records. */
  datatype Parsed = Parsed(refs: seq<Text>, ignoreCase: bool)

  /** As much of a file system as the listing sees: the canonical form of the paths that have one, the
      names recorded by each readable file, and the search folders. */
  datatype FileSystem = FileSystem(canonical: map<Text, Text>, files: map<Text, Parsed>, search: Search)

  datatype Target = File(key: Text) | Missing(name: Text)

  function KeyOf(fs: FileSystem, path: Text): Text {
    if path in fs.canonical then fs.canonical[path] else path
  }

  /** What a recorded name stands for. */
  function Resolve(fs: FileSystem, name: Text, ignoreCase: bool): Target {
    match Found(fs.search, name, ignoreCase)
    case Some(path) => File(KeyOf(fs, path))
    case None => Missing(name)
  }

  predicate Readable(fs: FileSystem, t: Target) {
    t.File? && t.key in fs.files
  }

  function Edges(fs: FileSystem, t: Target): (e: seq<Target>)
    ensures !Readable(fs, t) ==> e == []
    ensures Readable(fs, t) ==> |e| == |fs.files[t.key].refs|
                                && forall j :: 0 <= j < |e| ==> e[j] == Resolve(fs, fs.files[t.key].refs[j], fs.files[t.key].ignoreCase)
  {
    if Readable(fs, t) then
      var p := fs.files[t.key];
      seq(|p.refs|, j requires 0 <= j < |p.refs| => Resolve(fs, p.refs[j], p.ignoreCase))
    else []
  }

  datatype Node = Node(target: Target, successors: seq<nat>, expanded: bool)

  // ── Finitely many targets ──────────────────────────────────

  /** What the names recorded in any file stand for. */
  function RecordedTargets(fs: FileSystem): set<Target> {
    set k, j | k in fs.files && 0 <= j < |fs.files[k].refs| :: Resolve(fs, fs.files[k].refs[j], fs.files[k].ignoreCase)
  }

  /** Everything a listing can ever reach from some starting targets. */
  function Universe(fs: FileSystem, start: set<Target>): set<Target> {
    start + RecordedTargets(fs)
  }

  lemma {:induction false} EdgesInside(fs: FileSystem, start: set<Target>, t: Target, j: nat)
    requires j < |Edges(fs, t)|
    ensures Edges(fs, t)[j] in Universe(fs, start)
  {
    hide Resolve;
    assert Edges(fs, t)[j] in RecordedTargets(fs);
  }

  // ── The growing graph ──────────────────────────────────────

  ghost predicate DistinctTargets(nodes: seq<Node>) {
    forall i, j :: 0 <= i < j < |nodes| ==> nodes[i].target != nodes[j].target
  }

  /** The successors of an expanded node stand for its edges, one by one. */
  ghost predicate LinkedTo(fs: FileSystem, nodes: seq<Node>, t: Target, successors: seq<nat>, n: nat) {
    n == |successors| <= |Edges(fs, t)| && forall j :: 0 <= j < n ==> successors[j] < |nodes| && nodes[successors[j]].target == Edges(fs, t)[j]
  }

  ghost predicate NodeOk(fs: FileSystem, nodes: seq<Node>, i: nat)
    requires i < |nodes|
  {
    if nodes[i].expanded then LinkedTo(fs, nodes, nodes[i].target, nodes[i].successors, |Edges(fs, nodes[i].target)|)
    else nodes[i].successors == []
  }

  ghost predicate CacheOk(fs: FileSystem, nodes: seq<Node>, cache: map<Text, nat>, ignoreCase: bool) {
    forall n :: n in cache ==> cache[n] < |nodes| && nodes[cache[n]].target == Resolve(fs, n, ignoreCase)
  }

  ghost predicate Targets(nodes: seq<Node>, known: set<Target>) {
    forall i :: 0 <= i < |nodes| ==> nodes[i].target in known
  }

  ghost function TargetSet(nodes: seq<Node>): set<Target> {
    set i | 0 <= i < |nodes| :: nodes[i].target
  }

  ghost predicate Indexed(nodes: seq<Node>, byKey: map<Text, nat>, byName: map<Text, nat>) {
    && (forall k :: k in byKey ==> byKey[k] < |nodes| && nodes[byKey[k]].target == File(k))
    && (forall n :: n in byName ==> byName[n] < |nodes| && nodes[byName[n]].target == Missing(n))
    && (forall i :: 0 <= i < |nodes| ==> if nodes[i].target.File? then nodes[i].target.key in byKey else nodes[i].target.name in byName)
  }

  /** The lookups depend on the targets only. */
  lemma {:induction false} SameLookups(fs: FileSystem, before: seq<Node>, after: seq<Node>, byKey: map<Text, nat>, byName: map<Text, nat>, exact: map<Text, nat>, folded: map<Text, nat>)
    requires |before| == |after| && forall i :: 0 <= i < |before| ==> after[i].target == before[i].target
    requires Indexed(before, byKey, byName) && DistinctTargets(before) && CacheOk(fs, before, exact, false) && CacheOk(fs, before, folded, true)
    ensures Indexed(after, byKey, byName) && DistinctTargets(after) && CacheOk(fs, after, exact, false) && CacheOk(fs, after, folded, true)
  {
  }

  /** What a cached name leads to. */
  lemma {:induction false} CachedIs(fs: FileSystem, nodes: seq<Node>, cache: map<Text, nat>, ignoreCase: bool, name: Text)
    requires CacheOk(fs, nodes, cache, ignoreCase) && name in cache
    ensures cache[name] < |nodes| && nodes[cache[name]].target == Resolve(fs, name, ignoreCase)
  {
  }

  lemma {:induction false} Remembered(fs: FileSystem, nodes: seq<Node>, cache: map<Text, nat>, ignoreCase: bool, name: Text, id: nat)
    requires CacheOk(fs, nodes, cache, ignoreCase) && id < |nodes| && nodes[id].target == Resolve(fs, name, ignoreCase)
    ensures CacheOk(fs, nodes, cache[name := id], ignoreCase)
  {
  }

  /** Folders that were listed, with their names grouped. */
  ghost predicate ListingsOk(s: Search, listings: map<Text, map<Text, seq<Text>>>) {
    forall f :: f in listings ==> f in s.folders && Grouped(listings[f], s.folders[f].listing)
  }

  lemma {:induction false} ListedOnce(s: Search, listings: map<Text, map<Text, seq<Text>>>, folder: Text, groups: map<Text, seq<Text>>)
    requires ListingsOk(s, listings) && folder in s.folders && Grouped(groups, s.folders[folder].listing)
    ensures ListingsOk(s, listings[folder := groups])
  {
  }

  class Graph {
    const fs: FileSystem
    var nodes: seq<Node>
    var byKey: map<Text, nat>
    var byName: map<Text, nat>
    var exact: map<Text, nat>
    var folded: map<Text, nat>
    var listings: map<Text, map<Text, seq<Text>>>

    ghost predicate Valid()
      reads this
    {
      && ListingsOk(fs.search, listings)
      && Indexed(nodes, byKey, byName) && DistinctTargets(nodes)
      && CacheOk(fs, nodes, exact, false) && CacheOk(fs, nodes, folded, true)
      && forall i :: 0 <= i < |nodes| ==> NodeOk(fs, nodes, i)
    }

    constructor (fs: FileSystem)
      ensures Valid() && nodes == [] && this.fs == fs
    {
      this.fs := fs;
      nodes, byKey, byName, exact, folded, listings := [], map[], map[], map[], map[], map[];
    }

    /** Appends a node for a target that has none. */
    method NewNode(t: Target) returns (id: nat)
      requires Valid() && forall i :: 0 <= i < |nodes| ==> nodes[i].target != t
      modifies this
      ensures Valid() && id == |old(nodes)| && nodes == old(nodes) + [Node(t, [], false)]
    {
      id := |nodes|;
      nodes := nodes + [Node(t, [], false)];
      match t {
        case File(key) => byKey := byKey[key := id];
        case Missing(name) => byName := byName[name := id];
      }
      Appended(fs, old(nodes), nodes);
      assert CacheOk(fs, nodes, exact, false) && CacheOk(fs, nodes, folded, true);
    }

    method UnresolvedNode(name: Text) returns (id: nat)
      requires Valid()
      modifies this
      ensures Valid() && id < |nodes| && nodes[id].target == Missing(name)
      ensures nodes == old(nodes) || nodes == old(nodes) + [Node(Missing(name), [], false)]
    {
      if name in byName {
        return byName[name];
      }
      id := NewNode(Missing(name));
    }

    /** One node per file, however many paths lead to it. */
    method FileNode(path: Text) returns (id: nat)
      requires Valid()
      modifies this
      ensures Valid() && id < |nodes| && nodes[id].target == File(KeyOf(fs, path))
      ensures nodes == old(nodes) || nodes == old(nodes) + [Node(File(KeyOf(fs, path)), [], false)]
    {
      var key := KeyOf(fs, path);
      if key in byKey {
        return byKey[key];
      }
      id := NewNode(File(key));
    }

    /** The names of a folder that equal this one but for case, sorted; a folder is listed at most once. */
    method FolderMatches(folder: Text, name: Text) returns (matches: seq<Text>)
      requires Valid() && folder in fs.search.folders
      modifies this`listings
      ensures Valid() && matches == Matches(fs.search.folders[folder].listing, LowerAscii(name))
    {
      hide Indexed, NodeOk, DistinctTargets, CacheOk, Grouped, Matches, LowerAscii;
      if folder !in listings {
        var groups := Group(fs.search.folders[folder].listing);
        ListedOnce(fs.search, listings, folder, groups);
        listings := listings[folder := groups];
      }
      var lower := LowerAscii(name);
      GroupIs(listings[folder], fs.search.folders[folder].listing, lower);
      matches := if lower in listings[folder] then listings[folder][lower] else [];
    }

    /** The entry for a name in one folder. */
    method FindSpelling(folder: Text, name: Text, ignoreCase: bool) returns (r: Option<Text>)
      requires Valid() && folder in fs.search.folders
      modifies this`listings
      ensures Valid() && r == Spelling(fs.search.folders[folder], name, ignoreCase)
    {
      hide Indexed, NodeOk, DistinctTargets, CacheOk, ListingsOk, Matches, LowerAscii;
      if ignoreCase {
        var matches := FolderMatches(folder, name);
        if matches != [] { return Some(if name in matches then name else matches[0]); }
      }
      r := if name in fs.search.folders[folder].present then Some(name) else None;
    }

    /** The search folders in order, up to the first that has an entry. */
    method FindPath(name: Text, ignoreCase: bool) returns (r: Option<Text>)
      requires Valid()
      modifies this`listings
      ensures Valid() && r == Found(fs.search, name, ignoreCase)
    {
      hide Indexed, NodeOk, DistinctTargets, CacheOk, ListingsOk, Spelling, Joined, Escapes;
      if Escapes(name) { return None; }
      for i := 0 to |fs.search.paths|
        invariant Valid() && FoundFrom(fs.search, name, ignoreCase, i) == FoundFrom(fs.search, name, ignoreCase, 0)
      {
        var folder := fs.search.paths[i];
        if folder != [] && folder in fs.search.folders {
          var entry := FindSpelling(folder, name, ignoreCase);
          if entry.Some? { return Some(Joined(folder, entry.value)); }
        }
      }
      r := None;
    }

    method ResolveName(name: Text, ignoreCase: bool) returns (id: nat)
      requires Valid()
      modifies this
      ensures Valid() && id < |nodes| && nodes[id].target == Resolve(fs, name, ignoreCase)
      ensures nodes == old(nodes) || nodes == old(nodes) + [Node(Resolve(fs, name, ignoreCase), [], false)]
    {
      hide Indexed, NodeOk, DistinctTargets, CacheOk;
      if ignoreCase && name in folded {
        CachedIs(fs, nodes, folded, true, name);
        return folded[name];
      }
      if !ignoreCase && name in exact {
        CachedIs(fs, nodes, exact, false, name);
        return exact[name];
      }
      var found := FindPath(name, ignoreCase);
      if found.Some? {
        id := FileNode(found.value);
      } else {
        id := UnresolvedNode(name);
      }
      if ignoreCase {
        Remembered(fs, nodes, folded, true, name, id);
        folded := folded[name := id];
      } else {
        Remembered(fs, nodes, exact, false, name, id);
        exact := exact[name := id];
      }
    }

    method AddSuccessor(t: Target, name: Text, ignoreCase: bool, successors: seq<nat>, ghost j: nat, ghost known: set<Target>) returns (more: seq<nat>)
      requires Valid() && Targets(nodes, known) && LinkedTo(fs, nodes, t, successors, j) && j < |Edges(fs, t)|
      requires Edges(fs, t)[j] == Resolve(fs, name, ignoreCase) && Resolve(fs, name, ignoreCase) in known
      modifies this
      ensures Valid() && Targets(nodes, known) && Extends(old(nodes), nodes) && LinkedTo(fs, nodes, t, more, j + 1)
    {
      hide Edges, Resolve, Indexed, CacheOk, NodeOk, DistinctTargets;
      var next := ResolveName(name, ignoreCase);
      StillLinked(fs, old(nodes), nodes, t, successors, j);
      more := successors + [next];
    }

    /** The successors of one parsed node; nodes may be added while they are found. */
    method Successors(t: Target, ghost known: set<Target>) returns (successors: seq<nat>)
      requires Valid() && Readable(fs, t) && Targets(nodes, known) && EdgesKnown(fs, t, known)
      modifies this
      ensures Valid() && Targets(nodes, known) && Extends(old(nodes), nodes)
      ensures LinkedTo(fs, nodes, t, successors, |Edges(fs, t)|)
    {
      var parsed := fs.files[t.key];
      successors := [];
      for j := 0 to |parsed.refs|
        invariant Valid() && Targets(nodes, known) && Extends(old(nodes), nodes) && LinkedTo(fs, nodes, t, successors, j)
      {
        ghost var before := nodes;
        successors := AddSuccessor(t, parsed.refs[j], parsed.ignoreCase, successors, j, known);
        ExtendsOn(old(nodes), before, nodes);
      }
    }

    method Expand(id: nat, ghost known: set<Target>)
      requires Valid() && id < |nodes| && Readable(fs, nodes[id].target) && !nodes[id].expanded
      requires Targets(nodes, known) && EdgesKnown(fs, nodes[id].target, known)
      modifies this
      ensures Valid() && Targets(nodes, known) && SameBut(old(nodes), nodes, id) && nodes[id].expanded
    {
      var successors := Successors(nodes[id].target, known);
      ghost var before := nodes;
      assert before[id] == before[..|old(nodes)|][id];
      nodes := nodes[id := nodes[id].(successors := successors, expanded := true)];
      Relinked(fs, before, nodes, id);
      SameLookups(fs, before, nodes, byKey, byName, exact, folded);
      ExtendsSame(old(nodes), before, nodes, id);
    }

    /** Expands every parsed node that is reached, each once; ends on every file system. */
    method Grow(ghost start: set<Target>)
      requires Valid() && Targets(nodes, Universe(fs, start))
      modifies this
      ensures Valid() && SameTargets(old(nodes), nodes)
      ensures forall i :: 0 <= i < |nodes| ==> (Readable(fs, nodes[i].target) ==> nodes[i].expanded)
    {
      hide Universe, TargetSet;
      ghost var known := Universe(fs, start);
      var id: nat := 0;
      while id < |nodes|
        invariant Valid() && Targets(nodes, known) && id <= |nodes| && SameTargets(old(nodes), nodes)
        invariant forall i :: 0 <= i < id ==> (Readable(fs, nodes[i].target) ==> nodes[i].expanded)
        decreases known - TargetSet(nodes), |nodes| - id
      {
        if Readable(fs, nodes[id].target) && !nodes[id].expanded {
          ghost var before := nodes;
          AllEdgesKnown(fs, start, nodes[id].target);
          Expand(id, known);
          MoreTargets(before, nodes, known);
        }
        id := id + 1;
      }
    }
  }

  ghost predicate EdgesKnown(fs: FileSystem, t: Target, known: set<Target>) {
    forall j :: 0 <= j < |Edges(fs, t)| ==> Edges(fs, t)[j] in known
  }

  lemma {:induction false} AllEdgesKnown(fs: FileSystem, start: set<Target>, t: Target)
    ensures EdgesKnown(fs, t, Universe(fs, start))
  {
    forall j | 0 <= j < |Edges(fs, t)| ensures Edges(fs, t)[j] in Universe(fs, start) {
      EdgesInside(fs, start, t, j);
    }
  }

  /** Nodes were only added. */
  ghost predicate Extends(before: seq<Node>, after: seq<Node>) {
    |before| <= |after| && after[..|before|] == before
  }

  lemma {:induction false} ExtendsOn(a: seq<Node>, b: seq<Node>, c: seq<Node>)
    requires Extends(a, b) && Extends(b, c)
    ensures Extends(a, c)
  {
    assert c[..|a|] == c[..|b|][..|a|];
  }

  ghost predicate SameTargets(before: seq<Node>, after: seq<Node>) {
    |before| <= |after| && forall i :: 0 <= i < |before| ==> after[i].target == before[i].target
  }

  /** Nodes were only added, and one was expanded. */
  ghost predicate SameBut(before: seq<Node>, after: seq<Node>, id: nat) {
    && SameTargets(before, after)
    && forall i :: 0 <= i < |before| && i != id ==> after[i] == before[i]
  }

  lemma {:induction false} ExtendsSame(a: seq<Node>, b: seq<Node>, c: seq<Node>, id: nat)
    requires Extends(a, b) && id < |a| && |c| == |b| && c == b[id := c[id]] && c[id].target == b[id].target
    ensures SameBut(a, c, id)
  {
    forall i | 0 <= i < |a| ensures c[i].target == a[i].target && (i != id ==> c[i] == a[i]) {
      assert a[i] == b[..|a|][i];
    }
  }

  lemma {:induction false} StillLinked(fs: FileSystem, before: seq<Node>, after: seq<Node>, t: Target, successors: seq<nat>, n: nat)
    requires LinkedTo(fs, before, t, successors, n) && |before| <= |after| && after[..|before|] == before
    ensures LinkedTo(fs, after, t, successors, n)
  {
    forall j | 0 <= j < n ensures successors[j] < |after| && after[successors[j]].target == Edges(fs, t)[j] {
      assert after[successors[j]] == after[..|before|][successors[j]];
    }
  }

  /** Setting one node's successors changes no target. */
  lemma {:induction false} Relinked(fs: FileSystem, before: seq<Node>, after: seq<Node>, id: nat)
    requires id < |before| == |after| && forall i :: 0 <= i < |before| ==> NodeOk(fs, before, i)
    requires after == before[id := after[id]] && after[id].target == before[id].target && after[id].expanded
    requires LinkedTo(fs, before, before[id].target, after[id].successors, |Edges(fs, before[id].target)|)
    ensures forall i :: 0 <= i < |after| ==> NodeOk(fs, after, i)
  {
    forall i | 0 <= i < |after| ensures NodeOk(fs, after, i) {
      assert NodeOk(fs, before, i);
    }
  }

  lemma {:induction false} NewTarget(before: seq<Node>, after: seq<Node>)
    requires SameTargets(before, after) && DistinctTargets(after) && |before| < |after|
    ensures after[|before|].target !in TargetSet(before)
  {
    assert forall i :: 0 <= i < |before| ==> before[i].target != after[|before|].target;
  }

  lemma {:induction false} MoreTargets(before: seq<Node>, after: seq<Node>, known: set<Target>)
    requires SameTargets(before, after) && DistinctTargets(after) && Targets(after, known)
    ensures |before| < |after| ==> known - TargetSet(after) < known - TargetSet(before)
    ensures |before| == |after| ==> TargetSet(before) == TargetSet(after)
  {
    forall t | t in TargetSet(before) ensures t in TargetSet(after) {
      var i :| 0 <= i < |before| && before[i].target == t;
      assert after[i].target == t;
    }
    if |before| < |after| {
      NewTarget(before, after);
      var t := after[|before|].target;
      assert t in known - TargetSet(before) && t !in known - TargetSet(after);
    } else {
      forall t | t in TargetSet(after) ensures t in TargetSet(before) {
        var i :| 0 <= i < |after| && after[i].target == t;
        assert before[i].target == t;
      }
    }
  }

  lemma {:induction false} Appended(fs: FileSystem, before: seq<Node>, after: seq<Node>)
    requires (forall i :: 0 <= i < |before| ==> NodeOk(fs, before, i)) && |after| == |before| + 1 && after[..|before|] == before
    requires !after[|before|].expanded && after[|before|].successors == []
    ensures forall i :: 0 <= i < |after| ==> NodeOk(fs, after, i)
  {
    forall i | 0 <= i < |after| ensures NodeOk(fs, after, i) {
      if i < |before| {
        assert after[i] == before[i] && NodeOk(fs, before, i);
        if after[i].expanded {
          forall j | 0 <= j < |after[i].successors|
            ensures after[i].successors[j] < |after| && after[after[i].successors[j]].target == Edges(fs, after[i].target)[j]
          {
            assert after[after[i].successors[j]] == before[before[i].successors[j]];
          }
        }
      }
    }
  }
}
