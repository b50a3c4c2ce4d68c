/** Directory search trees: the reader's in-order walk with an explicit stack, the balanced tree
    the writer builds, and the search by name. */
module CfbTree {
  import opened Bytes
  import opened CfbModel
  import opened Ordering

  /** A directory entry as stored. Kind 0 is unused, 1 a storage, 2 a stream, 5 the root. */
  datatype DirEntry = DirEntry(meta: Meta, kind: nat, left: nat, right: nat, child: nat, start: nat, size: nat)

  // ── The format's order of names ────────────────────────────

  function UpperCase(u: CodeUnit): CodeUnit {
    if 'a' as int <= u <= 'z' as int then u - 32 else u
  }

  /** Shorter names first, then the units with ASCII letters upper-cased. */
  function NameKey(name: Name): (k: seq<int>)
    ensures |k| == |name| + 1
  {
    [|name|] + UpperKey(name, 0)
  }

  function UpperKey(name: Name, from: nat): (k: seq<int>)
    requires from <= |name|
    ensures |k| == |name| - from
    decreases |name| - from
  {
    if from == |name| then [] else [UpperCase(name[from])] + UpperKey(name, from + 1)
  }

  /** The three-way comparison of two names, as a loop over their units. */
  method CompareNames(a: Name, b: Name) returns (r: int)
    ensures r == Lex(NameKey(a), NameKey(b))
  {
    LexHead(|a|, UpperKey(a, 0), |b|, UpperKey(b, 0));
    if |a| != |b| {
      return if |a| < |b| then -1 else 1;
    }
    for i := 0 to |a|
      invariant Lex(NameKey(a), NameKey(b)) == Lex(UpperKey(a, i), UpperKey(b, i))
    {
      var x, y := UpperCase(a[i]), UpperCase(b[i]);
      LexHead(x, UpperKey(a, i + 1), y, UpperKey(b, i + 1));
      if x != y {
        return if x < y then -1 else 1;
      }
    }
    return 0;
  }

  lemma {:induction false} LexHead(x: int, a: seq<int>, y: int, b: seq<int>)
    ensures Lex([x] + a, [y] + b) == if x != y then (if x < y then -1 else 1) else Lex(a, b)
  {
    assert ([x] + a)[1..] == a && ([y] + b)[1..] == b;
  }

  /** Sorting and comparing neighbours finds every name that stands twice. */
  method NamesDiffer(names: seq<Name>) returns (ok: bool)
    ensures ok <==> DistinctKeys(names, NameKey)
  {
    hide NameKey;
    var sorted := Sort(names, NameKey);
    SortRises(names, NameKey);
    var i := 1;
    while i < |sorted|
      invariant 1 <= i && forall j :: 1 <= j < i && j < |sorted| ==> NameKey(sorted[j - 1]) != NameKey(sorted[j])
    {
      var c := CompareNames(sorted[i - 1], sorted[i]);
      if c == 0 {
        assert NameKey(sorted[i - 1]) == NameKey(sorted[i]);
        if DistinctKeys(names, NameKey) { DistinctOfPermutation(names, sorted, NameKey); }
        return false;
      }
      i := i + 1;
    }
    NeighboursDiffer(sorted, NameKey);
    DistinctOfPermutation(sorted, names, NameKey);
    ok := true;
  }

  // ── The in-order walk ──────────────────────────────────────

  /** What a walk delivers: the entries in order, and the entries not yet reached. */
  datatype Visit = Visit(order: seq<nat>, free: set<nat>)

  /** In-order walk of the tree at `id`. A link past the directory, an entry reached before
      (from anywhere) and an unused entry are rejections. */
  ghost function InOrder(dir: seq<DirEntry>, id: nat, free: set<nat>): (r: Option<Visit>)
    ensures r.Some? ==> r.value.free <= free
    decreases free
  {
    if id == NO_STREAM then Some(Visit([], free))
    else if id >= |dir| || id !in free || dir[id].kind == 0 then None
    else
      var l :- InOrder(dir, dir[id].left, free - {id});
      var r :- InOrder(dir, dir[id].right, l.free);
      Some(Visit(l.order + [id] + r.order, r.free))
  }

  ghost predicate NoRepeats(s: seq<nat>) {
    forall i, j :: 0 <= i < j < |s| ==> s[i] != s[j]
  }

  /** On any directory graph the walk reaches each entry at most once, and marks what it reached. */
  lemma {:induction false} InOrderOnce(dir: seq<DirEntry>, id: nat, free: set<nat>)
    requires InOrder(dir, id, free).Some?
    ensures var v := InOrder(dir, id, free).value;
      NoRepeats(v.order) && (forall x :: x in free && x !in v.free <==> x in v.order)
    decreases free
  {
    if id != NO_STREAM {
      var l := InOrder(dir, dir[id].left, free - {id}).value;
      InOrderOnce(dir, dir[id].left, free - {id});
      InOrderOnce(dir, dir[id].right, l.free);
      var r := InOrder(dir, dir[id].right, l.free).value;
      var all := l.order + [id] + r.order;
      forall i, j | 0 <= i < j < |all| ensures all[i] != all[j] {
        if i < |l.order| { assert all[i] in l.order; }
        if j > |l.order| { assert all[j] in r.order; }
      }
    }
  }

  datatype Frame = Frame(id: nat, stage: nat)

  /** What is left to do for a stack of frames, the last being the top. */
  ghost function Finish(dir: seq<DirEntry>, stack: seq<Frame>, free: set<nat>): (r: Option<Visit>)
    requires forall i :: 0 <= i < |stack| ==> stack[i].id < |dir|
    decreases |stack|
  {
    if stack == [] then Some(Visit([], free))
    else
      var n := |stack| - 1;
      var top := stack[n];
      var l :- if top.stage == 0 then InOrder(dir, dir[top.id].left, free) else Some(Visit([], free));
      var r :- InOrder(dir, dir[top.id].right, l.free);
      var rest :- Finish(dir, stack[..n], r.free);
      Some(Visit(l.order + (if top.stage <= 1 then [top.id] else []) + r.order + rest.order, rest.free))
  }

  ghost function Prefixed(order: seq<nat>, r: Option<Visit>): Option<Visit> {
    match r
    case None => None
    case Some(v) => Some(Visit(order + v.order, v.free))
  }

  ghost function Work(stack: seq<Frame>): nat {
    if stack == [] then 0 else Work(stack[..|stack| - 1]) + (if stack[|stack| - 1].stage < 2 then 3 - stack[|stack| - 1].stage else 1)
  }

  ghost function Free(visited: seq<bool>): set<nat> {
    set i | 0 <= i < |visited| && !visited[i]
  }

  lemma {:induction false} FinishTop(dir: seq<DirEntry>, rest: seq<Frame>, top: Frame, free: set<nat>)
    requires top.id < |dir| && forall i :: 0 <= i < |rest| ==> rest[i].id < |dir|
    ensures Finish(dir, rest + [top], free) ==
      (var l :- if top.stage == 0 then InOrder(dir, dir[top.id].left, free) else Some(Visit([], free));
       var r :- InOrder(dir, dir[top.id].right, l.free);
       var done :- Finish(dir, rest, r.free);
       Some(Visit(l.order + (if top.stage <= 1 then [top.id] else []) + r.order + done.order, done.free)))
  {
    assert (rest + [top])[..|rest|] == rest;
  }

  /** Pushing an entry is the start of its recursive walk. */
  lemma {:induction false} PushMeaning(dir: seq<DirEntry>, rest: seq<Frame>, id: nat, free: set<nat>)
    requires id != NO_STREAM && id < |dir| && id in free && dir[id].kind != 0
    requires forall i :: 0 <= i < |rest| ==> rest[i].id < |dir|
    ensures Finish(dir, rest + [Frame(id, 0)], free - {id}) ==
      (var v :- InOrder(dir, id, free); Prefixed(v.order, Finish(dir, rest, v.free)))
  {
    FinishTop(dir, rest, Frame(id, 0), free - {id});
  }

  /** The first step of a frame: the entry's own turn and its right subtree remain. */
  lemma {:induction false} LeftMeaning(dir: seq<DirEntry>, rest: seq<Frame>, id: nat, free: set<nat>)
    requires id < |dir| && forall i :: 0 <= i < |rest| ==> rest[i].id < |dir|
    ensures Finish(dir, rest + [Frame(id, 0)], free) ==
      (var v :- InOrder(dir, dir[id].left, free); Prefixed(v.order, Finish(dir, rest + [Frame(id, 1)], v.free)))
  {
    FinishTop(dir, rest, Frame(id, 0), free);
    var l := InOrder(dir, dir[id].left, free);
    if l.Some? {
      FinishTop(dir, rest, Frame(id, 1), l.value.free);
      var r := InOrder(dir, dir[id].right, l.value.free);
      if r.Some? && Finish(dir, rest, r.value.free).Some? {
        var done := Finish(dir, rest, r.value.free).value.order;
        assert l.value.order + ([] + [id] + r.value.order + done) == l.value.order + [id] + r.value.order + done;
      }
    }
  }

  lemma {:induction false} OwnTurn(dir: seq<DirEntry>, rest: seq<Frame>, id: nat, free: set<nat>)
    requires id < |dir| && forall i :: 0 <= i < |rest| ==> rest[i].id < |dir|
    ensures Finish(dir, rest + [Frame(id, 1)], free) == Prefixed([id], Finish(dir, rest + [Frame(id, 2)], free))
  {
    FinishTop(dir, rest, Frame(id, 1), free);
    FinishTop(dir, rest, Frame(id, 2), free);
    var r := InOrder(dir, dir[id].right, free);
    if r.Some? && Finish(dir, rest, r.value.free).Some? {
      var done := Finish(dir, rest, r.value.free).value.order;
      assert [id] + ([] + [] + r.value.order + done) == [] + [id] + r.value.order + done;
    }
  }

  lemma {:induction false} RightMeaning(dir: seq<DirEntry>, rest: seq<Frame>, id: nat, free: set<nat>)
    requires id < |dir| && forall i :: 0 <= i < |rest| ==> rest[i].id < |dir|
    ensures Finish(dir, rest + [Frame(id, 2)], free) ==
      (var v :- InOrder(dir, dir[id].right, free); Prefixed(v.order, Finish(dir, rest, v.free)))
  {
    FinishTop(dir, rest, Frame(id, 2), free);
    var r := InOrder(dir, dir[id].right, free);
    if r.Some? && Finish(dir, rest, r.value.free).Some? {
      var done := Finish(dir, rest, r.value.free).value.order;
      assert [] + [] + r.value.order + done == r.value.order + done;
    }
  }

  lemma {:induction false} PrefixedTwice(a: seq<nat>, b: seq<nat>, r: Option<Visit>)
    ensures Prefixed(a, Prefixed(b, r)) == Prefixed(a + b, r)
  {
    if r.Some? {
      assert a + (b + r.value.order) == (a + b) + r.value.order;
    }
  }

  lemma {:induction false} PrefixedNone(r: Option<Visit>)
    ensures Prefixed([], r) == r
  {
    if r.Some? {
      assert [] + r.value.order == r.value.order;
    }
  }

  lemma {:induction false} WorkSnoc(rest: seq<Frame>, top: Frame)
    ensures Work(rest + [top]) == Work(rest) + if top.stage < 2 then 3 - top.stage else 1
  {
    assert (rest + [top])[..|rest|] == rest;
  }

  /** One push of the walk. */
  method Push(dir: seq<DirEntry>, id: nat, visited: array<bool>, stack: seq<Frame>)
    returns (ok: bool, pushed: seq<Frame>)
    requires visited.Length == |dir|
    requires forall i :: 0 <= i < |stack| ==> stack[i].id < |dir|
    modifies visited
    ensures ok ==> forall i :: 0 <= i < |pushed| ==> pushed[i].id < |dir|
    ensures var v := InOrder(dir, id, Free(old(visited[..])));
      if ok
      then Finish(dir, pushed, Free(visited[..])) == (var w :- v; Prefixed(w.order, Finish(dir, stack, w.free)))
      else v.None?
    ensures ok ==> if id == NO_STREAM then pushed == stack && visited[..] == old(visited[..])
                   else pushed == stack + [Frame(id, 0)] && Free(visited[..]) < Free(old(visited[..]))
  {
    if id == NO_STREAM {
      PrefixedNone(Finish(dir, stack, Free(visited[..])));
      return true, stack;
    }
    if id >= |dir| || visited[id] {
      return false, stack;
    }
    ghost var before := Free(visited[..]);
    visited[id] := true;
    assert Free(visited[..]) == before - {id};
    if dir[id].kind == 0 {
      return false, stack;
    }
    PushMeaning(dir, stack, id, before);
    return true, stack + [Frame(id, 0)];
  }

  ghost predicate Inside(dir: seq<DirEntry>, stack: seq<Frame>) {
    forall i :: 0 <= i < |stack| ==> stack[i].id < |dir|
  }

  lemma {:induction false} LaterStage(dir: seq<DirEntry>, rest: seq<Frame>, top: Frame, free: set<nat>)
    requires Inside(dir, rest + [top]) && Inside(dir, rest) && top.id < |dir| && top.stage >= 2
    ensures Finish(dir, rest + [top], free) == Finish(dir, rest + [Frame(top.id, 2)], free)
  {
    FinishTop(dir, rest, top, free);
    FinishTop(dir, rest, Frame(top.id, 2), free);
  }

  /** The part of a step after the frame's own state has changed: descend into a child. */
  method Descend(dir: seq<DirEntry>, id: nat, visited: array<bool>, stack: seq<Frame>, ghost order: seq<nat>, ghost goal: Option<Visit>)
    returns (ok: bool, pushed: seq<Frame>)
    requires visited.Length == |dir| && Inside(dir, stack)
    requires goal == Prefixed(order, var v :- InOrder(dir, id, Free(visited[..])); Prefixed(v.order, Finish(dir, stack, v.free)))
    modifies visited
    ensures ok ==> Inside(dir, pushed) && goal == Prefixed(order, Finish(dir, pushed, Free(visited[..])))
    ensures !ok ==> goal.None?
    ensures ok ==> if id == NO_STREAM then pushed == stack && visited[..] == old(visited[..])
                   else Free(visited[..]) < Free(old(visited[..]))
  {
    ok, pushed := Push(dir, id, visited, stack);
  }

  /** With an empty stack nothing remains. */
  lemma {:induction false} StackEmpty(dir: seq<DirEntry>, order: seq<nat>, free: set<nat>)
    ensures Prefixed(order, Finish(dir, [], free)) == Some(Visit(order, free))
  {
    assert order + [] == order;
  }

  lemma {:induction false} StackStart(dir: seq<DirEntry>, root: nat, free: set<nat>)
    ensures InOrder(dir, root, free) == Prefixed([], var v :- InOrder(dir, root, free); Prefixed(v.order, Finish(dir, [], v.free)))
  {
    hide InOrder, Finish, Prefixed;
    var goal := InOrder(dir, root, free);
    if goal.Some? { StackEmpty(dir, goal.value.order, goal.value.free); }
    PrefixedNone(goal);
  }

  /** The explicit-stack walk of one storage's tree. It terminates on every directory graph and
      delivers exactly the recursive in-order walk, rejections included. */
  method WalkTree(dir: seq<DirEntry>, root: nat, visited: array<bool>) returns (ok: bool, order: seq<nat>)
    requires visited.Length == |dir|
    modifies visited
    ensures ok <==> InOrder(dir, root, Free(old(visited[..]))).Some?
    ensures ok ==> InOrder(dir, root, Free(old(visited[..]))) == Some(Visit(order, Free(visited[..])))
  {
    hide InOrder, Prefixed, Finish, Free;
    order := [];
    ghost var goal := InOrder(dir, root, Free(visited[..]));
    StackStart(dir, root, Free(visited[..]));
    var stack: seq<Frame>;
    ok, stack := Descend(dir, root, visited, [], order, goal);
    if !ok { return; }
    while stack != []
      invariant ok && Inside(dir, stack)
      invariant goal == Prefixed(order, Finish(dir, stack, Free(visited[..])))
      decreases Free(visited[..]), Work(stack)
    {
      var n := |stack| - 1;
      var rest, top := stack[..n], stack[n];
      assert stack == rest + [top];
      ghost var free := Free(visited[..]);
      WorkSnoc(rest, top);
      if top.stage == 0 {
        LeftMeaning(dir, rest, top.id, free);
        WorkSnoc(rest, Frame(top.id, 1));
        ok, stack := Descend(dir, dir[top.id].left, visited, rest + [Frame(top.id, 1)], order, goal);
        if !ok { return; }
      } else if top.stage == 1 {
        OwnTurn(dir, rest, top.id, free);
        WorkSnoc(rest, Frame(top.id, 2));
        stack := rest + [Frame(top.id, 2)];
        PrefixedTwice(order, [top.id], Finish(dir, stack, free));
        order := order + [top.id];
      } else {
        LaterStage(dir, rest, top, free);
        RightMeaning(dir, rest, top.id, free);
        ok, stack := Descend(dir, dir[top.id].right, visited, rest, order, goal);
        if !ok { return; }
      }
    }
    StackEmpty(dir, order, Free(visited[..]));
  }
}
