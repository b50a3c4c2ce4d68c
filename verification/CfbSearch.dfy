/** The balanced search tree of a storage: built by the writer, walked and searched by readers. */
module CfbSearch {
  import opened Bytes
  import opened CfbModel
  import opened CfbTree
  import opened Ordering

  // ── Shape ──────────────────────────────────────────────────

  /** The middle of a stretch of the sequence is its root; an empty stretch has none. */
  function Middle(lo: nat, hi: nat): (m: nat)
    ensures lo < hi ==> lo <= m < hi
  {
    if lo >= hi then NO_STREAM else (lo + hi) / 2
  }

  /** Left and right subtree of the i-th entry in the tree over [lo, hi). */
  function Links(lo: nat, hi: nat, i: nat): (nat, nat)
    requires lo <= i < hi
    decreases hi - lo
  {
    var m := Middle(lo, hi);
    if i == m then (Middle(lo, m), Middle(m + 1, hi))
    else if i < m then Links(lo, m, i) else Links(m + 1, hi, i)
  }

  function PositionOf(pos: seq<nat>, i: nat): nat {
    if i < |pos| then pos[i] else NO_STREAM
  }

  /** `root` is the balanced tree over the entries pos[lo..hi] of a directory. */
  ghost predicate IsTree(dir: seq<DirEntry>, pos: seq<nat>, root: nat, lo: nat, hi: nat)
    requires hi <= |pos|
    decreases hi - lo
  {
    if lo >= hi then root == NO_STREAM
    else
      var m := Middle(lo, hi);
      && root == pos[m] && root < |dir|
      && IsTree(dir, pos, dir[root].left, lo, m) && IsTree(dir, pos, dir[root].right, m + 1, hi)
  }

  ghost predicate LinkedAt(dir: seq<DirEntry>, pos: seq<nat>, i: nat, links: (nat, nat))
    requires i < |pos|
  {
    pos[i] < |dir| && dir[pos[i]].left == PositionOf(pos, links.0) && dir[pos[i]].right == PositionOf(pos, links.1)
  }

  ghost predicate Linked(dir: seq<DirEntry>, pos: seq<nat>, lo: nat, hi: nat)
    requires hi <= |pos|
  {
    forall i :: lo <= i < hi ==> LinkedAt(dir, pos, i, Links(lo, hi, i))
  }

  lemma {:induction false} LinksParts(lo: nat, hi: nat, i: nat)
    requires lo <= i < hi
    ensures var m := (lo + hi) / 2;
      && (i == m ==> Links(lo, hi, i) == (Middle(lo, m), Middle(m + 1, hi)))
      && (i < m ==> Links(lo, hi, i) == Links(lo, m, i))
      && (i > m ==> Links(lo, hi, i) == Links(m + 1, hi, i))
  {
  }

  lemma {:induction false} LinkedParts(dir: seq<DirEntry>, pos: seq<nat>, lo: nat, m: nat, hi: nat)
    requires lo <= m < hi <= |pos| && m == (lo + hi) / 2 && Linked(dir, pos, lo, hi)
    ensures Linked(dir, pos, lo, m) && Linked(dir, pos, m + 1, hi)
    ensures LinkedAt(dir, pos, m, (Middle(lo, m), Middle(m + 1, hi)))
  {
    forall i | lo <= i < m ensures LinkedAt(dir, pos, i, Links(lo, m, i)) {
      assert LinkedAt(dir, pos, i, Links(lo, hi, i));
      LinksParts(lo, hi, i);
    }
    var k := m + 1;
    forall i | k <= i < hi ensures LinkedAt(dir, pos, i, Links(k, hi, i)) {
      assert LinkedAt(dir, pos, i, Links(lo, hi, i));
      LinksParts(lo, hi, i);
    }
    assert LinkedAt(dir, pos, m, Links(lo, hi, m));
    LinksParts(lo, hi, m);
  }

  lemma {:induction false} LinkedIsTree(dir: seq<DirEntry>, pos: seq<nat>, lo: nat, hi: nat)
    requires hi <= |pos| <= NO_STREAM && Linked(dir, pos, lo, hi)
    ensures IsTree(dir, pos, PositionOf(pos, Middle(lo, hi)), lo, hi)
    decreases hi - lo
  {
    if lo < hi {
      var m := Middle(lo, hi);
      LinkedParts(dir, pos, lo, m, hi);
      LinkedIsTree(dir, pos, lo, m);
      LinkedIsTree(dir, pos, m + 1, hi);
    }
  }

  ghost predicate Among(pos: seq<nat>, lo: nat, hi: nat, k: nat)
    requires hi <= |pos|
  {
    exists i :: lo <= i < hi && pos[i] == k
  }

  function WithLinks(e: Entry, pos: seq<nat>, links: (nat, nat)): Entry {
    e.(left := PositionOf(pos, links.0), right := PositionOf(pos, links.1))
  }

  ghost predicate PlacedAt(before: seq<Entry>, after: seq<Entry>, pos: seq<nat>, i: nat, links: (nat, nat))
    requires i < |pos| && |before| == |after|
  {
    pos[i] < |before| && after[pos[i]] == WithLinks(before[pos[i]], pos, links)
  }

  /** The entries `after` is `before` with the links of the tree over pos[lo..hi] set. */
  ghost predicate Placed(before: seq<Entry>, after: seq<Entry>, pos: seq<nat>, lo: nat, hi: nat)
    requires hi <= |pos|
  {
    && |before| == |after|
    && (forall i :: lo <= i < hi ==> PlacedAt(before, after, pos, i, Links(lo, hi, i)))
    && (forall k :: 0 <= k < |before| && !Among(pos, lo, hi, k) ==> after[k] == before[k])
  }

  lemma {:induction false} PlacedCompose(s0: seq<Entry>, s1: seq<Entry>, s2: seq<Entry>, s3: seq<Entry>, s4: seq<Entry>,
                      pos: seq<nat>, lo: nat, m: nat, hi: nat)
    requires lo <= m < hi <= |pos| && NoRepeats(pos) && m == (lo + hi) / 2 && pos[m] < |s0|
    requires Placed(s0, s1, pos, lo, m)
    requires s2 == s1[pos[m] := s1[pos[m]].(left := PositionOf(pos, Middle(lo, m)))]
    requires Placed(s2, s3, pos, m + 1, hi)
    requires s4 == s3[pos[m] := s3[pos[m]].(right := PositionOf(pos, Middle(m + 1, hi)))]
    ensures Placed(s0, s4, pos, lo, hi)
  {
    forall i | lo <= i < hi ensures PlacedAt(s0, s4, pos, i, Links(lo, hi, i)) {
      LinksParts(lo, hi, i);
      ComposeAt(s0, s1, s2, s3, s4, pos, lo, m, hi, i, Links(lo, hi, i));
    }
    forall k | 0 <= k < |s0| && !Among(pos, lo, hi, k) ensures s4[k] == s0[k] {
      NotAmong(pos, lo, m, hi, k);
    }
  }

  lemma {:induction false} NotAmong(pos: seq<nat>, lo: nat, m: nat, hi: nat, k: nat)
    requires lo <= m < hi <= |pos| && !Among(pos, lo, hi, k)
    ensures !Among(pos, lo, m, k) && !Among(pos, m + 1, hi, k) && pos[m] != k
  {
    assert pos[m] != k;
  }

  lemma {:induction false} ComposeAt(s0: seq<Entry>, s1: seq<Entry>, s2: seq<Entry>, s3: seq<Entry>, s4: seq<Entry>,
                  pos: seq<nat>, lo: nat, m: nat, hi: nat, i: nat, links: (nat, nat))
    requires lo <= m < hi <= |pos| && NoRepeats(pos) && lo <= i < hi && pos[m] < |s0|
    requires Placed(s0, s1, pos, lo, m)
    requires s2 == s1[pos[m] := s1[pos[m]].(left := PositionOf(pos, Middle(lo, m)))]
    requires Placed(s2, s3, pos, m + 1, hi)
    requires s4 == s3[pos[m] := s3[pos[m]].(right := PositionOf(pos, Middle(m + 1, hi)))]
    requires links == if i == m then (Middle(lo, m), Middle(m + 1, hi)) else if i < m then Links(lo, m, i) else Links(m + 1, hi, i)
    ensures PlacedAt(s0, s4, pos, i, links)
  {
    if i < m { assert PlacedAt(s0, s1, pos, i, Links(lo, m, i)); }
    if i > m { assert PlacedAt(s2, s3, pos, i, Links(m + 1, hi, i)); }
    if i != m { assert pos[i] != pos[m]; }
    if i <= m { assert !Among(pos, m + 1, hi, pos[i]); }
    if i >= m { assert !Among(pos, lo, m, pos[i]); }
  }

  /** Building the tree in place: the entries of the sequence get their links, nothing else moves. */
  method BuildTree(entries: array<Entry>, pos: seq<nat>, lo: nat, hi: nat) returns (root: nat)
    requires lo <= hi <= |pos| <= NO_STREAM && NoRepeats(pos)
    requires forall i :: 0 <= i < |pos| ==> pos[i] < entries.Length
    modifies entries
    ensures root == PositionOf(pos, Middle(lo, hi))
    ensures Placed(old(entries[..]), entries[..], pos, lo, hi)
    decreases hi - lo
  {
    if lo >= hi {
      return NO_STREAM;
    }
    ghost var s0 := entries[..];
    var m := (lo + hi) / 2;
    root := pos[m];
    var left := BuildTree(entries, pos, lo, m);
    ghost var s1 := entries[..];
    entries[root] := entries[root].(left := left);
    ghost var s2 := entries[..];
    var right := BuildTree(entries, pos, m + 1, hi);
    ghost var s3 := entries[..];
    entries[root] := entries[root].(right := right);
    PlacedCompose(s0, s1, s2, s3, entries[..], pos, lo, m, hi);
  }

  // ── Its in-order walk ──────────────────────────────────────

  ghost function SetOf(s: seq<nat>): set<nat> {
    set x | x in s
  }

  lemma {:induction false} Outside(pos: seq<nat>, lo: nat, hi: nat, i: nat)
    requires NoRepeats(pos) && lo <= hi <= |pos| && i < |pos| && !(lo <= i < hi)
    ensures pos[i] !in pos[lo..hi]
  {
    forall j | 0 <= j < hi - lo ensures pos[lo..hi][j] != pos[i] {
      assert pos[lo..hi][j] == pos[lo + j];
    }
  }

  lemma {:induction false} Split(pos: seq<nat>, lo: nat, m: nat, hi: nat)
    requires lo <= m < hi <= |pos|
    ensures pos[lo..hi] == pos[lo..m] + [pos[m]] + pos[m + 1..hi]
    ensures SetOf(pos[lo..hi]) == SetOf(pos[lo..m]) + {pos[m]} + SetOf(pos[m + 1..hi])
  {
  }

  ghost predicate Reachable(dir: seq<DirEntry>, pos: seq<nat>, lo: nat, hi: nat, free: set<nat>)
    requires hi <= |pos|
  {
    forall i :: lo <= i < hi ==> pos[i] < |dir| && dir[pos[i]].kind != 0 && pos[i] in free
  }

  lemma {:induction false} StillReachable(dir: seq<DirEntry>, pos: seq<nat>, lo: nat, m: nat, hi: nat, free: set<nat>)
    requires lo <= m < hi <= |pos| && NoRepeats(pos) && Reachable(dir, pos, lo, hi, free)
    ensures Reachable(dir, pos, lo, m, free - {pos[m]})
    ensures Reachable(dir, pos, m + 1, hi, free - {pos[m]} - SetOf(pos[lo..m]))
  {
    forall i | m + 1 <= i < hi ensures pos[i] !in SetOf(pos[lo..m]) {
      Outside(pos, lo, m, i);
    }
  }

  lemma {:induction false} InOrderNode(dir: seq<DirEntry>, id: nat, free: set<nat>, l: Visit, r: Visit)
    requires id != NO_STREAM && id < |dir| && id in free && dir[id].kind != 0
    requires InOrder(dir, dir[id].left, free - {id}) == Some(l) && InOrder(dir, dir[id].right, l.free) == Some(r)
    ensures InOrder(dir, id, free) == Some(Visit(l.order + [id] + r.order, r.free))
  {
  }

  lemma {:induction false} LeftFree(pos: seq<nat>, lo: nat, m: nat, hi: nat, free: set<nat>)
    requires lo <= m < hi <= |pos|
    ensures free - {pos[m]} - SetOf(pos[lo..m]) - SetOf(pos[m + 1..hi]) == free - SetOf(pos[lo..hi])
  {
    Split(pos, lo, m, hi);
  }

  /** The tree over a sequence has that sequence as its in-order walk. */
  lemma {:induction false} TreeInOrder(dir: seq<DirEntry>, pos: seq<nat>, root: nat, lo: nat, hi: nat, free: set<nat>)
    requires lo <= hi <= |pos| && |dir| <= NO_STREAM && NoRepeats(pos)
    requires IsTree(dir, pos, root, lo, hi) && Reachable(dir, pos, lo, hi, free)
    ensures InOrder(dir, root, free) == Some(Visit(pos[lo..hi], free - SetOf(pos[lo..hi])))
    decreases hi - lo
  {
    hide Middle, NoRepeats;
    if lo >= hi {
      assert pos[lo..hi] == [];
      assert free - SetOf([]) == free;
    } else {
      hide InOrder, SetOf;
      var m := Middle(lo, hi);
      StillReachable(dir, pos, lo, m, hi, free);
      TreeInOrder(dir, pos, dir[root].left, lo, m, free - {root});
      var after := free - {root} - SetOf(pos[lo..m]);
      TreeInOrder(dir, pos, dir[root].right, m + 1, hi, after);
      InOrderNode(dir, root, free, Visit(pos[lo..m], after), Visit(pos[m + 1..hi], after - SetOf(pos[m + 1..hi])));
      Split(pos, lo, m, hi);
      LeftFree(pos, lo, m, hi, free);
    }
  }

  /** In particular of the whole sequence. */
  lemma {:induction false} WholeTreeInOrder(dir: seq<DirEntry>, pos: seq<nat>, free: set<nat>)
    requires |pos| <= |dir| <= NO_STREAM && NoRepeats(pos)
    requires Linked(dir, pos, 0, |pos|) && Reachable(dir, pos, 0, |pos|, free)
    ensures InOrder(dir, PositionOf(pos, Middle(0, |pos|)), free) == Some(Visit(pos, free - SetOf(pos)))
  {
    LinkedIsTree(dir, pos, 0, |pos|);
    TreeInOrder(dir, pos, PositionOf(pos, Middle(0, |pos|)), 0, |pos|, free);
    assert pos[0..|pos|] == pos;
  }

  /** What BuildTree makes has the sequence as its in-order walk: in a directory with the links of its entries the
      walk from the root it returns delivers exactly these entries, in this order. */
  lemma {:induction false} BuiltTreeInOrder(before: seq<Entry>, after: seq<Entry>, pos: seq<nat>, dir: seq<DirEntry>, free: set<nat>)
    requires |pos| <= |before| <= |dir| <= NO_STREAM && NoRepeats(pos) && Placed(before, after, pos, 0, |pos|)
    requires forall k :: 0 <= k < |after| ==> dir[k].left == after[k].left && dir[k].right == after[k].right
    requires Reachable(dir, pos, 0, |pos|, free)
    ensures InOrder(dir, PositionOf(pos, Middle(0, |pos|)), free) == Some(Visit(pos, free - SetOf(pos)))
  {
    hide InOrder, Middle;
    forall i | 0 <= i < |pos| ensures LinkedAt(dir, pos, i, Links(0, |pos|, i)) {
      assert PlacedAt(before, after, pos, i, Links(0, |pos|, i));
    }
    WholeTreeInOrder(dir, pos, free);
  }

  // ── Search by name ─────────────────────────────────────────

  function ChildKey(n: Node): seq<int> {
    NameKey(n.meta.name)
  }

  /** Every link stays inside the sequence, as in everything the reader delivers. */
  predicate LinksInside(kids: seq<Node>, root: nat) {
    && (root < |kids| || root == NO_STREAM)
    && (forall i :: 0 <= i < |kids| ==> kids[i].left < |kids| || kids[i].left == NO_STREAM)
    && (forall i :: 0 <= i < |kids| ==> kids[i].right < |kids| || kids[i].right == NO_STREAM)
  }

  ghost predicate Balanced(kids: seq<Node>, root: nat, lo: nat, hi: nat)
    requires hi <= |kids|
    decreases hi - lo
  {
    && root == Middle(lo, hi)
    && (lo < hi ==> Balanced(kids, kids[root].left, lo, root) && Balanced(kids, kids[root].right, root + 1, hi))
  }

  ghost predicate SameName(a: Name, b: Name) {
    NameKey(a) == NameKey(b)
  }

  /** The search from a position with a number of steps left. */
  function Search(kids: seq<Node>, position: nat, name: Name, left: nat): (r: nat)
    ensures r < |kids| || r == NO_STREAM
    decreases left
  {
    if position >= |kids| || left == 0 then NO_STREAM
    else
      var order := Lex(NameKey(name), NameKey(kids[position].meta.name));
      if order == 0 then position
      else Search(kids, if order < 0 then kids[position].left else kids[position].right, name, left - 1)
  }

  /** The search a reader makes that does not enumerate, as a loop. */
  method FindBySearch(kids: seq<Node>, root: nat, name: Name) returns (found: nat)
    requires LinksInside(kids, root) && |kids| <= NO_STREAM
    ensures found == Search(kids, root, name, |kids| + 1)
  {
    var position: nat := root;
    var steps: nat := 0;
    while position != NO_STREAM && steps <= |kids|
      invariant position < |kids| || position == NO_STREAM
      invariant steps <= |kids| + 1
      invariant Search(kids, root, name, |kids| + 1) == Search(kids, position, name, |kids| + 1 - steps)
      decreases |kids| + 1 - steps
    {
      var order := CompareNames(name, kids[position].meta.name);
      if order == 0 {
        return position;
      }
      position := if order < 0 then kids[position].left else kids[position].right;
      steps := steps + 1;
    }
    return NO_STREAM;
  }

  lemma {:induction false} SearchSound(kids: seq<Node>, position: nat, name: Name, left: nat)
    requires |kids| <= NO_STREAM
    ensures var r := Search(kids, position, name, left); r < |kids| ==> SameName(name, kids[r].meta.name)
    decreases left
  {
    if position < |kids| && left > 0 {
      var order := Lex(NameKey(name), NameKey(kids[position].meta.name));
      if order != 0 {
        SearchSound(kids, if order < 0 then kids[position].left else kids[position].right, name, left - 1);
      }
    }
  }

  lemma {:induction false} SearchDown(kids: seq<Node>, position: nat, lo: nat, hi: nat, name: Name, left: nat, i: nat)
    requires hi <= |kids| <= NO_STREAM && Balanced(kids, position, lo, hi) && Increasing(kids, ChildKey)
    requires lo <= i < hi <= lo + left && SameName(name, kids[i].meta.name)
    ensures Search(kids, position, name, left) == i
    decreases left
  {
    var m := position;
    var order := Lex(NameKey(name), NameKey(kids[m].meta.name));
    if order == 0 {
      OneOfAName(kids, i, m);
    } else {
      Halve(kids, name, lo, hi, m, order);
      if order < 0 { SearchDown(kids, kids[m].left, lo, m, name, left - 1, i); }
      else { SearchDown(kids, kids[m].right, m + 1, hi, name, left - 1, i); }
    }
  }

  lemma {:induction false} OneOfAName(kids: seq<Node>, i: nat, j: nat)
    requires Increasing(kids, ChildKey) && i < |kids| && j < |kids| && SameName(kids[i].meta.name, kids[j].meta.name)
    ensures i == j
  {
    if i != j { assert false; }
  }

  /** On a balanced tree over names in strict order a search finds the entry of a name if there is
      one, and nothing if there is none, always within its step limit. */
  lemma {:induction false} SearchExact(kids: seq<Node>, root: nat, name: Name)
    requires |kids| <= NO_STREAM && Balanced(kids, root, 0, |kids|) && Increasing(kids, ChildKey)
    ensures forall i :: 0 <= i < |kids| && SameName(name, kids[i].meta.name) ==> Search(kids, root, name, |kids| + 1) == i
    ensures (forall i :: 0 <= i < |kids| ==> !SameName(name, kids[i].meta.name)) ==> Search(kids, root, name, |kids| + 1) == NO_STREAM
  {
    SearchSound(kids, root, name, |kids| + 1);
    forall i | 0 <= i < |kids| && SameName(name, kids[i].meta.name) ensures Search(kids, root, name, |kids| + 1) == i {
      SearchDown(kids, root, 0, |kids|, name, |kids| + 1, i);
    }
  }

  /** One comparison rules out the entry and everything on the other side. */
  lemma {:induction false} Halve(kids: seq<Node>, name: Name, lo: nat, hi: nat, m: nat, order: int)
    requires Increasing(kids, ChildKey) && lo <= m < hi <= |kids|
    requires order == Lex(NameKey(name), NameKey(kids[m].meta.name)) && order != 0
    ensures forall i :: 0 <= i < |kids| && (if order < 0 then m <= i else i <= m) ==> !SameName(name, kids[i].meta.name)
  {
    forall i | 0 <= i < |kids| && (if order < 0 then m <= i else i <= m) ensures !SameName(name, kids[i].meta.name) {
      if order < 0 && m < i {
        LexTrans(NameKey(name), ChildKey(kids[m]), ChildKey(kids[i]));
      }
      if order > 0 && i < m {
        LexFlip(NameKey(name), ChildKey(kids[m]));
        LexTrans(ChildKey(kids[i]), ChildKey(kids[m]), NameKey(name));
      }
    }
  }

  ghost predicate LinksSet(kids: seq<Node>, lo: nat, hi: nat)
    requires hi <= |kids|
  {
    forall i :: lo <= i < hi ==> (kids[i].left, kids[i].right) == Links(lo, hi, i)
  }

  /** Links set entry by entry make the balanced tree. */
  lemma {:induction false} LinksBalanced(kids: seq<Node>, lo: nat, hi: nat)
    requires hi <= |kids| && LinksSet(kids, lo, hi)
    ensures Balanced(kids, Middle(lo, hi), lo, hi)
    decreases hi - lo
  {
    if lo < hi {
      var m := (lo + hi) / 2;
      LinksParts(lo, hi, m);
      forall i | lo <= i < m ensures (kids[i].left, kids[i].right) == Links(lo, m, i) { LinksParts(lo, hi, i); }
      forall i | m + 1 <= i < hi ensures (kids[i].left, kids[i].right) == Links(m + 1, hi, i) { LinksParts(lo, hi, i); }
      LinksBalanced(kids, lo, m);
      LinksBalanced(kids, m + 1, hi);
    }
  }
}
