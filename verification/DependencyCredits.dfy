/** Which inputs reach which nodes: one breadth-first walk per input over one reused stamp array. */
module DependencyCredits {

  type Successors = seq<seq<nat>>

  ghost predicate Closed(succ: Successors) {
    forall v, j :: 0 <= v < |succ| && 0 <= j < |succ[v]| ==> succ[v][j] < |succ|
  }

  /** At least one edge long. */
  ghost predicate IsPath(succ: Successors, p: seq<nat>) {
    && |p| >= 2 && (forall i :: 0 <= i < |p| ==> p[i] < |succ|)
    && forall i :: 0 <= i < |p| - 1 ==> p[i + 1] in succ[p[i]]
  }

  ghost predicate Reaches(succ: Successors, u: nat, v: nat) {
    exists p :: IsPath(succ, p) && p[0] == u && p[|p| - 1] == v
  }

  lemma {:induction false} OneEdge(succ: Successors, u: nat, v: nat)
    requires Closed(succ) && u < |succ| && v in succ[u]
    ensures Reaches(succ, u, v)
  {
    var p := [u, v];
    assert IsPath(succ, p) && p[0] == u && p[|p| - 1] == v;
  }

  lemma {:induction false} OneMore(succ: Successors, u: nat, v: nat, w: nat)
    requires Closed(succ) && Reaches(succ, u, v) && v < |succ| && w in succ[v]
    ensures Reaches(succ, u, w)
  {
    var p :| IsPath(succ, p) && p[0] == u && p[|p| - 1] == v;
    var q := p + [w];
    forall i | 0 <= i < |q| - 1 ensures q[i + 1] in succ[q[i]] {
      if i < |p| - 1 { assert q[i + 1] == p[i + 1]; }
    }
    assert IsPath(succ, q) && q[0] == u && q[|q| - 1] == w;
  }

  /** A set that holds the successors of the start and of all its members holds everything reached. */
  lemma {:induction false} ReachedInside(succ: Successors, u: nat, inside: seq<nat>, p: seq<nat>, i: nat)
    requires IsPath(succ, p) && p[0] == u && 1 <= i < |p|
    requires (forall w :: w in succ[u] ==> w in inside)
    requires forall v, w :: v in inside && v < |succ| && w in succ[v] ==> w in inside
    ensures p[i] in inside
    decreases i
  {
    assert p[i] in succ[p[i - 1]];
    if i > 1 { ReachedInside(succ, u, inside, p, i - 1); }
  }

  ghost function Unseen(seen: seq<nat>, stamp: nat): set<nat> {
    set v | 0 <= v < |seen| && seen[v] != stamp
  }

  /** The stamp marks exactly the queue, which holds nothing twice. */
  ghost predicate Stamped(before: seq<nat>, seen: seq<nat>, stamp: nat, queue: seq<nat>) {
    && |before| == |seen|
    && (forall v :: 0 <= v < |seen| ==> seen[v] == if v in queue then stamp else before[v])
    && (forall i :: 0 <= i < |queue| ==> queue[i] < |seen|)
    && (forall i, j :: 0 <= i < j < |queue| ==> queue[i] != queue[j])
  }

  lemma {:induction false} StampOne(before: seq<nat>, seen: seq<nat>, stamp: nat, queue: seq<nat>, v: nat)
    requires Stamped(before, seen, stamp, queue) && v < |seen| && seen[v] != stamp
    ensures Stamped(before, seen[v := stamp], stamp, queue + [v])
    ensures Unseen(seen[v := stamp], stamp) < Unseen(seen, stamp)
  {
    assert v !in queue;
    assert v in Unseen(seen, stamp) && v !in Unseen(seen[v := stamp], stamp);
  }

  /** Queues those of a node's successors that are not stamped yet. */
  method Enqueue(next: seq<nat>, seen: array<nat>, stamp: nat, queue: seq<nat>, ghost before: seq<nat>) returns (more: seq<nat>)
    requires Stamped(before, seen[..], stamp, queue) && (forall v :: 0 <= v < |before| ==> before[v] != stamp)
    requires forall j :: 0 <= j < |next| ==> next[j] < seen.Length
    modifies seen
    ensures Stamped(before, seen[..], stamp, more) && |queue| <= |more| && more[..|queue|] == queue
    ensures forall w :: w in more <==> w in queue || w in next
    ensures |more| > |queue| ==> Unseen(seen[..], stamp) < Unseen(old(seen[..]), stamp)
    ensures |more| == |queue| ==> seen[..] == old(seen[..])
  {
    more := queue;
    for j := 0 to |next|
      invariant Stamped(before, seen[..], stamp, more) && |queue| <= |more| && more[..|queue|] == queue
      invariant forall w :: w in more <==> w in queue || w in next[..j]
      invariant |more| > |queue| ==> Unseen(seen[..], stamp) < Unseen(old(seen[..]), stamp)
      invariant |more| == |queue| ==> seen[..] == old(seen[..])
    {
      assert next[..j + 1] == next[..j] + [next[j]];
      if seen[next[j]] != stamp {
        StampOne(before, seen[..], stamp, more, next[j]);
        seen[next[j]] := stamp;
        more := more + [next[j]];
      }
    }
    assert next[..|next|] == next;
  }

  /** Everything in the queue is reached, and the successors of what was taken from it are in it. */
  ghost predicate Walking(succ: Successors, root: nat, queue: seq<nat>, head: nat)
    requires Closed(succ) && root < |succ|
  {
    && head <= |queue| && (forall i :: 0 <= i < |queue| ==> queue[i] < |succ| && Reaches(succ, root, queue[i]))
    && (forall w :: w in succ[root] ==> w in queue)
    && (forall i, w :: 0 <= i < head && queue[i] < |succ| && w in succ[queue[i]] ==> w in queue)
  }

  lemma {:induction false} WalkOn(succ: Successors, root: nat, queue: seq<nat>, head: nat, more: seq<nat>)
    requires Closed(succ) && root < |succ| && Walking(succ, root, queue, head) && head < |queue|
    requires |queue| <= |more| && more[..|queue|] == queue && forall w :: w in more <==> w in queue || w in succ[queue[head]]
    ensures Walking(succ, root, more, head + 1)
  {
    forall i | 0 <= i < |more| ensures more[i] < |succ| && Reaches(succ, root, more[i]) {
      assert more[i] in more;
      if more[i] in queue {
        var k :| 0 <= k < |queue| && queue[k] == more[i];
      } else {
        OneMore(succ, root, queue[head], more[i]);
      }
    }
    forall i, w | 0 <= i < head + 1 && more[i] < |succ| && w in succ[more[i]] ensures w in more {
      assert more[i] == more[..|queue|][i] == queue[i];
    }
  }

  lemma {:induction false} WalkDone(succ: Successors, root: nat, queue: seq<nat>)
    requires Closed(succ) && root < |succ| && Walking(succ, root, queue, |queue|)
    ensures forall v :: v in queue <==> Reaches(succ, root, v)
  {
    forall v | Reaches(succ, root, v) ensures v in queue {
      var p :| IsPath(succ, p) && p[0] == root && p[|p| - 1] == v;
      forall x, w | x in queue && x < |succ| && w in succ[x] ensures w in queue {
        var k :| 0 <= k < |queue| && queue[k] == x;
      }
      ReachedInside(succ, root, queue, p, |p| - 1);
    }
  }

  /** The credit lists after the first `head` nodes of the queue got the credit. */
  ghost predicate Credited(before: seq<seq<nat>>, credits: seq<seq<nat>>, index: nat, done: seq<nat>) {
    && |before| == |credits|
    && forall v :: 0 <= v < |credits| ==> credits[v] == if v in done then before[v] + [index] else before[v]
  }

  lemma {:induction false} CreditOne(before: seq<seq<nat>>, credits: seq<seq<nat>>, index: nat, done: seq<nat>, v: nat)
    requires Credited(before, credits, index, done) && v < |credits| && v !in done
    ensures Credited(before, credits[v := credits[v] + [index]], index, done + [v])
  {
  }

  /** One input's walk: credits exactly the nodes it reaches. */
  method Walk(succ: Successors, root: nat, index: nat, seen: array<nat>, credits: array<seq<nat>>)
    requires Closed(succ) && root < |succ| == seen.Length && credits.Length == |succ|
    requires forall v :: 0 <= v < seen.Length ==> seen[v] <= index
    modifies seen, credits
    ensures forall v :: 0 <= v < seen.Length ==> seen[v] <= index + 1
    ensures forall v :: 0 <= v < |succ| ==> credits[v] == if Reaches(succ, root, v) then old(credits[v]) + [index] else old(credits[v])
  {
    var stamp := index + 1;
    ghost var before, was := seen[..], credits[..];
    var queue: seq<nat> := [];
    queue := Enqueue(succ[root], seen, stamp, queue, before);
    forall i | 0 <= i < |queue| ensures queue[i] < |succ| && Reaches(succ, root, queue[i]) {
      assert queue[i] in queue;
      OneEdge(succ, root, queue[i]);
    }
    var head: nat := 0;
    assert queue[..0] == [];
    while head < |queue|
      invariant Stamped(before, seen[..], stamp, queue) && Walking(succ, root, queue, head)
      invariant Credited(was, credits[..], index, queue[..head])
      decreases Unseen(seen[..], stamp), |queue| - head
    {
      head, queue := Visit(succ, root, index, stamp, seen, credits, queue, head, before, was);
    }
    assert queue[..head] == queue;
    WalkDone(succ, root, queue);
  }

  /** Takes one node from the queue. */
  method Visit(succ: Successors, ghost root: nat, index: nat, stamp: nat, seen: array<nat>, credits: array<seq<nat>>,
               queue: seq<nat>, head: nat, ghost before: seq<nat>, ghost was: seq<seq<nat>>) returns (next: nat, more: seq<nat>)
    requires Closed(succ) && root < |succ| == seen.Length && credits.Length == |succ| && head < |queue|
    requires forall v :: 0 <= v < |before| ==> before[v] != stamp
    requires Stamped(before, seen[..], stamp, queue) && Walking(succ, root, queue, head)
    requires Credited(was, credits[..], index, queue[..head])
    modifies seen, credits
    ensures next == head + 1 <= |queue| <= |more| && Stamped(before, seen[..], stamp, more) && Walking(succ, root, more, next)
    ensures Credited(was, credits[..], index, more[..next])
    ensures |more| > |queue| ==> Unseen(seen[..], stamp) < Unseen(old(seen[..]), stamp)
    ensures |more| == |queue| ==> seen[..] == old(seen[..])
  {
    var current := queue[head];
    assert current !in queue[..head];
    CreditOne(was, credits[..], index, queue[..head], current);
    credits[current] := credits[current] + [index];
    more := Enqueue(succ[current], seen, stamp, queue, before);
    WalkOn(succ, root, queue, head, more);
    next := head + 1;
    assert more[..next] == more[..|queue|][..next] == queue[..head] + [current];
  }

  ghost predicate Rising(s: seq<nat>) {
    forall i, j :: 0 <= i < j < |s| ==> s[i] < s[j]
  }

  /** A node's list holds, in order and once each, the first n inputs that reach it. */
  ghost predicate ListOk(succ: Successors, roots: seq<nat>, n: nat, v: nat, list: seq<nat>)
    requires n <= |roots|
  {
    Rising(list) && forall i :: i in list <==> 0 <= i < n && Reaches(succ, roots[i], v)
  }

  lemma {:induction false} ListGrows(succ: Successors, roots: seq<nat>, n: nat, v: nat, before: seq<nat>, after: seq<nat>)
    requires n < |roots| && ListOk(succ, roots, n, v, before)
    requires after == if Reaches(succ, roots[n], v) then before + [n] else before
    ensures ListOk(succ, roots, n + 1, v, after)
  {
    forall i, j | 0 <= i < j < |after| ensures after[i] < after[j] {
      assert after[i] in before;
    }
  }

  /** One walk for each input: every node gets the list of the inputs that reach it. */
  method CreditAll(succ: Successors, roots: seq<nat>) returns (credits: array<seq<nat>>)
    requires Closed(succ) && forall i :: 0 <= i < |roots| ==> roots[i] < |succ|
    ensures fresh(credits) && credits.Length == |succ|
    ensures forall v :: 0 <= v < |succ| ==> ListOk(succ, roots, |roots|, v, credits[v])
  {
    credits := new seq<nat>[|succ|](_ => []);
    var seen := new nat[|succ|](_ => 0);
    for index := 0 to |roots|
      invariant forall v :: 0 <= v < |succ| ==> seen[v] <= index
      invariant forall v :: 0 <= v < |succ| ==> ListOk(succ, roots, index, v, credits[v])
    {
      ghost var before := credits[..];
      Walk(succ, roots[index], index, seen, credits);
      forall v | 0 <= v < |succ| ensures ListOk(succ, roots, index + 1, v, credits[v]) {
        ListGrows(succ, roots, index, v, before[v], credits[v]);
      }
    }
  }
}
