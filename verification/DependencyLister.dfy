/** Listing dependencies: inputs put into a form that order and repetition do not change, the graph grown
    from them, and each key credited to exactly the inputs that reach it. */
module DependencyLister {
  import opened Ordering
  import opened DependencySearch
  import opened DependencyGraph
  import C = DependencyCredits

  // ── Inputs ─────────────────────────────────────────────────

  datatype Identity = Raw(path: Text) | Known(canonical: Text)

  function IdentityOf(fs: FileSystem, path: Text): Identity {
    if path in fs.canonical then Known(fs.canonical[path]) else Raw(path)
  }

  function Spelling(path: Text): seq<int> {
    path
  }

  /** The smallest spelling among the paths to one file. */
  ghost predicate Chosen(fs: FileSystem, paths: seq<Text>, p: Text) {
    p in paths && forall q :: q in paths && IdentityOf(fs, q) == IdentityOf(fs, p) ==> Lex(p, q) <= 0
  }

  /** One spelling for each identity seen. */
  ghost predicate SlotsOk(fs: FileSystem, paths: seq<Text>, slots: map<Identity, Text>) {
    && (forall id :: id in slots ==> IdentityOf(fs, slots[id]) == id && Chosen(fs, paths, slots[id]))
    && (forall q :: q in paths ==> IdentityOf(fs, q) in slots)
  }

  lemma {:induction false} LexOrder(a: seq<int>, b: seq<int>, c: seq<int>)
    requires Lex(a, b) <= 0 && Lex(b, c) <= 0
    ensures Lex(a, c) <= 0
  {
    if Lex(a, b) < 0 && Lex(b, c) < 0 { LexTrans(a, b, c); }
  }

  lemma {:induction false} SlotAdded(fs: FileSystem, paths: seq<Text>, p: Text, slots: map<Identity, Text>)
    requires SlotsOk(fs, paths, slots)
    ensures var id := IdentityOf(fs, p);
      SlotsOk(fs, paths + [p], if id !in slots || Lex(p, slots[id]) < 0 then slots[id := p] else slots)
  {
    var id := IdentityOf(fs, p);
    var next := if id !in slots || Lex(p, slots[id]) < 0 then slots[id := p] else slots;
    forall k | k in next ensures IdentityOf(fs, next[k]) == k && Chosen(fs, paths + [p], next[k]) {
      forall q | q in paths + [p] && IdentityOf(fs, q) == k ensures Lex(next[k], q) <= 0 {
        if q in paths && k == id && next[k] == p && id in slots {
          LexOrder(p, slots[id], q);
        } else if q == p && k == id && id in slots {
          LexFlip(p, slots[id]);
        }
      }
    }
  }

  ghost predicate AreChosen(fs: FileSystem, paths: seq<Text>, inputs: seq<Text>) {
    Increasing(inputs, Spelling) && forall p :: p in inputs <==> Chosen(fs, paths, p)
  }

  method NormaliseInputs(fs: FileSystem, paths: seq<Text>) returns (inputs: seq<Text>)
    ensures AreChosen(fs, paths, inputs)
  {
    var slots: map<Identity, Text> := map[];
    for i := 0 to |paths|
      invariant SlotsOk(fs, paths[..i], slots)
    {
      var id := IdentityOf(fs, paths[i]);
      SlotAdded(fs, paths[..i], paths[i], slots);
      assert paths[..i + 1] == paths[..i] + [paths[i]];
      if id !in slots || Lex(paths[i], slots[id]) < 0 {
        slots := slots[id := paths[i]];
      }
    }
    assert paths[..|paths|] == paths;
    var list := SlotValues(fs, slots);
    SortIncreasing(list, Spelling);
    inputs := Sort(list, Spelling);
    SortedChosen(fs, paths, slots, list, inputs);
  }

  /** The values in some order. */
  method SlotValues(fs: FileSystem, slots: map<Identity, Text>) returns (list: seq<Text>)
    requires forall id :: id in slots ==> IdentityOf(fs, slots[id]) == id
    ensures DistinctKeys(list, Spelling) && forall p :: p in list <==> IdentityOf(fs, p) in slots && slots[IdentityOf(fs, p)] == p
  {
    list := [];
    var rest := slots.Keys;
    while rest != {}
      invariant rest <= slots.Keys && DistinctKeys(list, Spelling)
      invariant forall p :: p in list <==> IdentityOf(fs, p) in slots.Keys - rest && slots[IdentityOf(fs, p)] == p
      decreases rest
    {
      var id :| id in rest;
      list := list + [slots[id]];
      rest := rest - {id};
    }
  }

  lemma {:induction false} SortedChosen(fs: FileSystem, paths: seq<Text>, slots: map<Identity, Text>, list: seq<Text>, inputs: seq<Text>)
    requires SlotsOk(fs, paths, slots) && Increasing(inputs, Spelling) && multiset(inputs) == multiset(list)
    requires forall p :: p in list <==> IdentityOf(fs, p) in slots && slots[IdentityOf(fs, p)] == p
    ensures AreChosen(fs, paths, inputs)
  {
    forall p ensures p in inputs <==> Chosen(fs, paths, p) {
      if p in inputs { InSeqInMultiset(inputs, list, p); }
      if Chosen(fs, paths, p) {
        var s := slots[IdentityOf(fs, p)];
        LexFlip(p, s);
        assert s == p;
        InSeqInMultiset(list, inputs, p);
      }
    }
  }

  lemma {:induction false} IncreasingOnce(s: seq<Text>, x: Text)
    requires Increasing(s, Spelling)
    ensures multiset(s)[x] == if x in s then 1 else 0
  {
    if multiset(s)[x] >= 2 {
      var i, j := TwoPlaces(s, x);
      assert false;
    }
  }

  /** A strictly increasing list is determined by what it holds. */
  lemma {:induction false} SameList(a: seq<Text>, b: seq<Text>)
    requires Increasing(a, Spelling) && Increasing(b, Spelling) && forall x :: x in a <==> x in b
    ensures a == b
  {
    forall x ensures multiset(a)[x] == multiset(b)[x] {
      IncreasingOnce(a, x);
      IncreasingOnce(b, x);
    }
    IncreasingUnique(a, b, Spelling);
  }

  /** Neither the order of the request nor repetition in it changes the inputs. */
  lemma {:induction false} RequestOrderIgnored(fs: FileSystem, paths: seq<Text>, others: seq<Text>, a: seq<Text>, b: seq<Text>)
    requires (forall p :: p in paths <==> p in others) && AreChosen(fs, paths, a) && AreChosen(fs, others, b)
    ensures a == b
  {
    forall p ensures p in a <==> p in b {
      assert Chosen(fs, paths, p) <==> Chosen(fs, others, p);
    }
    SameList(a, b);
  }

  // ── Reaching in the file system and in the graph ───────────

  ghost predicate TargetPath(fs: FileSystem, q: seq<Target>) {
    |q| >= 2 && forall i :: 0 <= i < |q| - 1 ==> q[i + 1] in Edges(fs, q[i])
  }

  /** By at least one dependency. */
  ghost predicate DependsOn(fs: FileSystem, a: Target, b: Target) {
    exists q :: TargetPath(fs, q) && q[0] == a && q[|q| - 1] == b
  }

  function SuccessorsOf(nodes: seq<Node>): (s: C.Successors)
    ensures |s| == |nodes| && forall i :: 0 <= i < |s| ==> s[i] == nodes[i].successors
  {
    seq(|nodes|, i requires 0 <= i < |nodes| => nodes[i].successors)
  }

  /** Every node that has edges has been expanded. */
  ghost predicate Grown(fs: FileSystem, nodes: seq<Node>) {
    && DistinctTargets(nodes)
    && (forall i :: 0 <= i < |nodes| ==> NodeOk(fs, nodes, i))
    && (forall i :: 0 <= i < |nodes| ==> (Readable(fs, nodes[i].target) ==> nodes[i].expanded))
  }

  lemma {:induction false} GrownLinked(fs: FileSystem, nodes: seq<Node>, i: nat)
    requires Grown(fs, nodes) && i < |nodes|
    ensures LinkedTo(fs, nodes, nodes[i].target, nodes[i].successors, |Edges(fs, nodes[i].target)|)
  {
    assert NodeOk(fs, nodes, i);
  }

  lemma {:induction false} GrownClosed(fs: FileSystem, nodes: seq<Node>)
    requires Grown(fs, nodes)
    ensures C.Closed(SuccessorsOf(nodes))
  {
    var succ := SuccessorsOf(nodes);
    forall v, j | 0 <= v < |succ| && 0 <= j < |succ[v]| ensures succ[v][j] < |succ| {
      GrownLinked(fs, nodes, v);
    }
  }

  lemma {:induction false} PathOfTargets(fs: FileSystem, nodes: seq<Node>, p: seq<nat>)
    requires Grown(fs, nodes) && C.IsPath(SuccessorsOf(nodes), p)
    ensures DependsOn(fs, nodes[p[0]].target, nodes[p[|p| - 1]].target)
  {
    var q := seq(|p|, i requires 0 <= i < |p| => nodes[p[i]].target);
    forall i | 0 <= i < |q| - 1 ensures q[i + 1] in Edges(fs, q[i]) {
      assert p[i + 1] in SuccessorsOf(nodes)[p[i]];
      GrownLinked(fs, nodes, p[i]);
      var j :| 0 <= j < |nodes[p[i]].successors| && nodes[p[i]].successors[j] == p[i + 1];
      assert q[i + 1] == Edges(fs, q[i])[j];
    }
    assert TargetPath(fs, q) && q[0] == nodes[p[0]].target && q[|q| - 1] == nodes[p[|p| - 1]].target;
  }

  /** A path of targets from a node's target is followed by a path of nodes. */
  lemma {:induction false} PathOfNodes(fs: FileSystem, nodes: seq<Node>, u: nat, q: seq<Target>, n: nat) returns (p: seq<nat>)
    requires Grown(fs, nodes) && u < |nodes| && TargetPath(fs, q) && q[0] == nodes[u].target && 1 <= n < |q|
    ensures C.IsPath(SuccessorsOf(nodes), p) && |p| == n + 1 && p[0] == u && nodes[p[n]].target == q[n]
    decreases n
  {
    GrownClosed(fs, nodes);
    if n == 1 { p := [u]; } else { p := PathOfNodes(fs, nodes, u, q, n - 1); }
    var last := p[n - 1];
    assert q[n - 1 + 1] in Edges(fs, q[n - 1]);
    GrownLinked(fs, nodes, last);
    var j :| 0 <= j < |Edges(fs, q[n - 1])| && Edges(fs, q[n - 1])[j] == q[n];
    var succ := SuccessorsOf(nodes);
    assert succ[last][j] in succ[last];
    var init := p;
    p := p + [nodes[last].successors[j]];
    forall i | 0 <= i < |p| - 1 ensures p[i + 1] in succ[p[i]] {
      if i < |init| - 1 { assert p[i + 1] == init[i + 1] && p[i] == init[i]; }
    }
  }

  /** Reaching a node is depending on its target. */
  lemma {:induction false} ReachIsDepend(fs: FileSystem, nodes: seq<Node>, u: nat, v: nat)
    requires Grown(fs, nodes) && u < |nodes| && v < |nodes|
    ensures C.Reaches(SuccessorsOf(nodes), u, v) <==> DependsOn(fs, nodes[u].target, nodes[v].target)
  {
    var succ := SuccessorsOf(nodes);
    if C.Reaches(succ, u, v) {
      var p :| C.IsPath(succ, p) && p[0] == u && p[|p| - 1] == v;
      PathOfTargets(fs, nodes, p);
    }
    if DependsOn(fs, nodes[u].target, nodes[v].target) {
      var q :| TargetPath(fs, q) && q[0] == nodes[u].target && q[|q| - 1] == nodes[v].target;
      var p := PathOfNodes(fs, nodes, u, q, |q| - 1);
      SameNode(nodes, p[|p| - 1], v);
    }
  }

  lemma {:induction false} SameNode(nodes: seq<Node>, a: nat, b: nat)
    requires DistinctTargets(nodes) && a < |nodes| && b < |nodes| && nodes[a].target == nodes[b].target
    ensures a == b
  {
    if a != b { assert false; }
  }

  /** Everything a node's target depends on has a node. */
  lemma {:induction false} DependencyHasNode(fs: FileSystem, nodes: seq<Node>, u: nat, t: Target) returns (v: nat)
    requires Grown(fs, nodes) && u < |nodes| && DependsOn(fs, nodes[u].target, t)
    ensures v < |nodes| && nodes[v].target == t
  {
    var q :| TargetPath(fs, q) && q[0] == nodes[u].target && q[|q| - 1] == t;
    var p := PathOfNodes(fs, nodes, u, q, |q| - 1);
    v := p[|p| - 1];
  }

  // ── The result ─────────────────────────────────────────────

  /** A node's key in the result: the file's key or the name that was not found. */
  function TextOf(t: Target): Text {
    if t.File? then t.key else t.name
  }

  function SpellingsOf(inputs: seq<Text>, list: seq<nat>): (s: seq<Text>)
    requires forall j :: 0 <= j < |list| ==> list[j] < |inputs|
    ensures |s| == |list| && forall j :: 0 <= j < |s| ==> s[j] == inputs[list[j]]
  {
    seq(|list|, j requires 0 <= j < |list| => inputs[list[j]])
  }

  lemma {:induction false} SpellingsIncrease(inputs: seq<Text>, list: seq<nat>)
    requires Increasing(inputs, Spelling) && C.Rising(list) && forall j :: 0 <= j < |list| ==> list[j] < |inputs|
    ensures Increasing(SpellingsOf(inputs, list), Spelling)
    ensures forall p :: p in SpellingsOf(inputs, list) <==> exists i :: i in list && i < |inputs| && inputs[i] == p
  {
    var s := SpellingsOf(inputs, list);
    forall i, j | 0 <= i < j < |s| ensures Lex(Spelling(s[i]), Spelling(s[j])) < 0 {
    }
    forall p | exists i :: i in list && i < |inputs| && inputs[i] == p ensures p in s {
      var i :| i in list && i < |inputs| && inputs[i] == p;
      var j :| 0 <= j < |list| && list[j] == i;
      assert s[j] == p;
    }
    forall p | p in s ensures exists i :: i in list && i < |inputs| && inputs[i] == p {
      var j :| 0 <= j < |s| && s[j] == p;
      assert list[j] in list && inputs[list[j]] == p;
    }
  }

  /** Sorted, each element once. */
  method SortUnique(s: seq<Text>) returns (r: seq<Text>)
    ensures Increasing(r, Spelling) && forall x :: x in r <==> x in s
  {
    r := [];
    for i := 0 to |s|
      invariant Increasing(r, Spelling) && forall x :: x in r <==> x in s[..i]
    {
      assert s[..i + 1] == s[..i] + [s[i]];
      if s[i] !in r {
        InsertIncreasing(s[i], r, Spelling);
        var t := Insert(s[i], r, Spelling);
        forall x ensures x in t <==> x in s[..i + 1] {
          assert x in t <==> x in multiset(t);
        }
        r := t;
      }
    }
    assert s[..|s|] == s;
  }

  /** Among the first n nodes, one with the key is credited to the input. */
  ghost predicate Owed(keys: seq<Text>, credits: seq<seq<nat>>, inputs: seq<Text>, n: nat, key: Text, p: Text)
    requires n <= |keys| == |credits| && forall v, i :: 0 <= v < |credits| && i in credits[v] ==> i < |inputs|
  {
    exists v, i :: 0 <= v < n && keys[v] == key && i in credits[v] && inputs[i] == p
  }

  predicate Listed(deps: map<Text, seq<Text>>, k: Text, p: Text) {
    k in deps && p in deps[k]
  }

  /** The lists after the first n nodes. */
  ghost predicate Collected(keys: seq<Text>, credits: seq<seq<nat>>, inputs: seq<Text>, n: nat, deps: map<Text, seq<Text>>)
    requires n <= |keys| == |credits| && forall v, i :: 0 <= v < |credits| && i in credits[v] ==> i < |inputs|
  {
    && (forall k :: k in deps ==> Increasing(deps[k], Spelling) && deps[k] != [])
    && (forall k, p :: Owed(keys, credits, inputs, n, k, p) <==> Listed(deps, k, p))
  }

  lemma {:induction false} OwedNext(keys: seq<Text>, credits: seq<seq<nat>>, inputs: seq<Text>, n: nat, key: Text, p: Text)
    requires n < |keys| == |credits| && forall v, i :: 0 <= v < |credits| && i in credits[v] ==> i < |inputs|
    ensures Owed(keys, credits, inputs, n + 1, key, p)
        <==> Owed(keys, credits, inputs, n, key, p) || (keys[n] == key && exists i :: i in credits[n] && inputs[i] == p)
  {
    if Owed(keys, credits, inputs, n + 1, key, p) {
      var v, i :| 0 <= v < n + 1 && keys[v] == key && i in credits[v] && inputs[i] == p;
      if v < n { assert Owed(keys, credits, inputs, n, key, p); }
    }
    if keys[n] == key && exists i :: i in credits[n] && inputs[i] == p {
      var i :| i in credits[n] && inputs[i] == p;
      assert 0 <= n < n + 1 && keys[n] == key && i in credits[n] && inputs[i] == p;
    }
  }

  /** One node added to the lists; a key two nodes share is sorted again and kept once each. */
  method AddNode(keys: seq<Text>, ghost credits: seq<seq<nat>>, inputs: seq<Text>, n: nat, own: seq<nat>, deps: map<Text, seq<Text>>)
    returns (more: map<Text, seq<Text>>)
    requires n < |keys| == |credits| && own == credits[n] && Increasing(inputs, Spelling) && C.Rising(own)
    requires forall v, i :: 0 <= v < |credits| && i in credits[v] ==> i < |inputs|
    requires Collected(keys, credits, inputs, n, deps)
    ensures Collected(keys, credits, inputs, n + 1, more)
  {
    forall k, p ensures Owed(keys, credits, inputs, n + 1, k, p)
        <==> Owed(keys, credits, inputs, n, k, p) || (keys[n] == k && exists i :: i in credits[n] && inputs[i] == p)
    {
      OwedNext(keys, credits, inputs, n, k, p);
    }
    if own == [] {
      forall k, p ensures Owed(keys, credits, inputs, n + 1, k, p) <==> Listed(deps, k, p) {
        assert Owed(keys, credits, inputs, n, k, p) <==> Listed(deps, k, p);
      }
      return deps;
    }
    assert forall j :: 0 <= j < |own| ==> own[j] in credits[n];
    SpellingsIncrease(inputs, own);
    var listed := SpellingsOf(inputs, own);
    if keys[n] in deps {
      ghost var mine, before := listed, deps[keys[n]];
      listed := SortUnique(deps[keys[n]] + listed);
      assert forall x :: x in before + mine <==> x in before || x in mine;
      assert before[0] in listed;
    }
    more := deps[keys[n] := listed];
    forall k, p ensures Owed(keys, credits, inputs, n + 1, k, p) <==> Listed(more, k, p) {
      assert Owed(keys, credits, inputs, n, k, p) <==> Listed(deps, k, p);
    }
  }

  method Collect(keys: seq<Text>, credits: seq<seq<nat>>, inputs: seq<Text>) returns (deps: map<Text, seq<Text>>)
    requires |keys| == |credits| && Increasing(inputs, Spelling) && forall v :: 0 <= v < |credits| ==> C.Rising(credits[v])
    requires forall v, i :: 0 <= v < |credits| && i in credits[v] ==> i < |inputs|
    ensures Collected(keys, credits, inputs, |keys|, deps)
  {
    deps := map[];
    for n := 0 to |keys|
      invariant Collected(keys, credits, inputs, n, deps)
    {
      deps := AddNode(keys, credits, inputs, n, credits[n], deps);
    }
  }

  /** Some target with this key is a dependency of the input's file. */
  ghost predicate Needs(fs: FileSystem, input: Text, key: Text) {
    exists t :: TextOf(t) == key && DependsOn(fs, File(KeyOf(fs, input)), t)
  }

  ghost predicate RootsOk(fs: FileSystem, nodes: seq<Node>, inputs: seq<Text>, roots: seq<nat>) {
    |roots| <= |inputs| && forall i :: 0 <= i < |roots| ==> roots[i] < |nodes| && nodes[roots[i]].target == File(KeyOf(fs, inputs[i]))
  }

  lemma {:induction false} RootsStay(fs: FileSystem, before: seq<Node>, after: seq<Node>, inputs: seq<Text>, roots: seq<nat>)
    requires RootsOk(fs, before, inputs, roots) && Extends(before, after)
    ensures RootsOk(fs, after, inputs, roots)
  {
    forall i | 0 <= i < |roots| ensures roots[i] < |after| && after[roots[i]].target == File(KeyOf(fs, inputs[i])) {
      assert after[roots[i]] == after[..|before|][roots[i]];
    }
  }

  function InputTargets(fs: FileSystem, inputs: seq<Text>): set<Target> {
    set i | 0 <= i < |inputs| :: File(KeyOf(fs, inputs[i]))
  }

  method AddInputs(graph: Graph, inputs: seq<Text>) returns (roots: seq<nat>)
    requires graph.Valid() && graph.nodes == []
    modifies graph
    ensures graph.Valid() && RootsOk(graph.fs, graph.nodes, inputs, roots) && |roots| == |inputs|
    ensures Targets(graph.nodes, Universe(graph.fs, InputTargets(graph.fs, inputs)))
  {
    roots := [];
    ghost var known := Universe(graph.fs, InputTargets(graph.fs, inputs));
    for i := 0 to |inputs|
      invariant graph.Valid() && RootsOk(graph.fs, graph.nodes, inputs, roots) && |roots| == i && Targets(graph.nodes, known)
    {
      assert File(KeyOf(graph.fs, inputs[i])) in known;
      ghost var before := graph.nodes;
      var id := graph.FileNode(inputs[i]);
      RootsStay(graph.fs, before, graph.nodes, inputs, roots);
      roots := roots + [id];
    }
  }

  lemma {:induction false} OwedIsNeeded(fs: FileSystem, nodes: seq<Node>, keys: seq<Text>, credits: seq<seq<nat>>, inputs: seq<Text>, roots: seq<nat>, k: Text, p: Text)
    requires Grown(fs, nodes) && |keys| == |nodes| == |credits| && forall v :: 0 <= v < |nodes| ==> keys[v] == TextOf(nodes[v].target)
    requires RootsOk(fs, nodes, inputs, roots) && |roots| == |inputs|
    requires forall v :: 0 <= v < |nodes| ==> C.ListOk(SuccessorsOf(nodes), roots, |roots|, v, credits[v])
    requires forall v, i :: 0 <= v < |credits| && i in credits[v] ==> i < |inputs|
    ensures Owed(keys, credits, inputs, |keys|, k, p) <==> p in inputs && Needs(fs, p, k)
  {
    if Owed(keys, credits, inputs, |keys|, k, p) {
      var v, i :| 0 <= v < |keys| && keys[v] == k && i in credits[v] && inputs[i] == p;
      ReachIsDepend(fs, nodes, roots[i], v);
      assert TextOf(nodes[v].target) == k;
    }
    if p in inputs && Needs(fs, p, k) {
      var i :| 0 <= i < |inputs| && inputs[i] == p;
      var t :| TextOf(t) == k && DependsOn(fs, File(KeyOf(fs, p)), t);
      var v := DependencyHasNode(fs, nodes, roots[i], t);
      ReachIsDepend(fs, nodes, roots[i], v);
      assert i in credits[v];
      assert 0 <= v < |keys| && keys[v] == k && i in credits[v] && inputs[i] == p;
    }
  }

  /** What the listing promises for a request. */
  ghost predicate Listing(fs: FileSystem, paths: seq<Text>, deps: map<Text, seq<Text>>) {
    && (forall k :: k in deps ==> Increasing(deps[k], Spelling) && deps[k] != [])
    && (forall k, p :: Listed(deps, k, p) <==> Chosen(fs, paths, p) && Needs(fs, p, k))
  }

  /** Every key is listed with exactly the inputs that reach it by at least one dependency, sorted and once
      each, whatever loops and shared keys there are. */
  method ListDependencies(fs: FileSystem, paths: seq<Text>) returns (deps: map<Text, seq<Text>>)
    ensures Listing(fs, paths, deps)
  {
    var inputs := NormaliseInputs(fs, paths);
    var graph := new Graph(fs);
    var roots := AddInputs(graph, inputs);
    ghost var before := graph.nodes;
    graph.Grow(InputTargets(fs, inputs));
    var nodes := graph.nodes;
    assert Grown(fs, nodes) && RootsOk(fs, nodes, inputs, roots);
    GrownClosed(fs, nodes);
    var credits := C.CreditAll(SuccessorsOf(nodes), roots);
    var keys := seq(|nodes|, v requires 0 <= v < |nodes| => TextOf(nodes[v].target));
    deps := Collect(keys, credits[..], inputs);
    forall k, p ensures Owed(keys, credits[..], inputs, |keys|, k, p) <==> p in inputs && Needs(fs, p, k) {
      OwedIsNeeded(fs, nodes, keys, credits[..], inputs, roots, k, p);
    }
  }

  /** So the listing does not depend on the order of the request or on repetition in it. */
  lemma {:induction false} ListingOrderIgnored(fs: FileSystem, paths: seq<Text>, others: seq<Text>, a: map<Text, seq<Text>>, b: map<Text, seq<Text>>)
    requires (forall p :: p in paths <==> p in others) && Listing(fs, paths, a) && Listing(fs, others, b)
    ensures a == b
  {
    forall p ensures Chosen(fs, paths, p) <==> Chosen(fs, others, p) { }
    forall k ensures k in a <==> k in b {
      if k in a { assert Listed(a, k, a[k][0]); assert Listed(b, k, a[k][0]); }
      if k in b { assert Listed(b, k, b[k][0]); assert Listed(a, k, b[k][0]); }
    }
    forall k | k in a ensures a[k] == b[k] {
      forall p ensures p in a[k] <==> p in b[k] {
        assert Listed(a, k, p) <==> Listed(b, k, p);
      }
      SameList(a[k], b[k]);
    }
  }
}
