/** Walks of the FAT and the mini-FAT with ownership marks. */
module CfbChains {
  import opened Bytes
  import opened CfbModel

  /** Outcome of a walk. The marks made before a rejection stay. */
  datatype Walked = Walked(ok: bool, chain: seq<nat>, owner: seq<nat>)

  ghost function Unowned(owner: seq<nat>): set<nat> {
    set s | 0 <= s < |owner| && owner[s] == 0
  }

  /** Follows a chain, marking each sector with `id`. A sector past either table, or already
      marked (by this walk: a loop; by another: two streams), is a rejection. */
  ghost function Walk(table: seq<nat>, start: nat, owner: seq<nat>, id: nat): (w: Walked)
    requires id != 0
    ensures |w.owner| == |owner|
    decreases Unowned(owner)
  {
    if start == END_OF_CHAIN then Walked(true, [], owner)
    else if start >= |table| || start >= |owner| || owner[start] != 0 then Walked(false, [], owner)
    else
      assert start in Unowned(owner) && start !in Unowned(owner[start := id]);
      var rest := Walk(table, table[start], owner[start := id], id);
      Walked(rest.ok, [start] + rest.chain, rest.owner)
  }

  /** `chain` is the complete list of sectors from `start` to the end mark, none twice,
      all inside a table of `n` owners. Nothing here mentions marks. */
  ghost predicate IsChain(table: seq<nat>, n: nat, start: nat, chain: seq<nat>)
    decreases |chain|
  {
    if chain == [] then start == END_OF_CHAIN
    else
      && start == chain[0] != END_OF_CHAIN
      && start < |table| && start < n
      && start !in chain[1..]
      && IsChain(table, n, table[start], chain[1..])
  }

  ghost predicate AllZero(owner: seq<nat>, chain: seq<nat>) {
    forall s :: s in chain ==> s < |owner| && owner[s] == 0
  }

  ghost predicate Marked(before: seq<nat>, after: seq<nat>, chain: seq<nat>, id: nat) {
    && |before| == |after|
    && forall s :: 0 <= s < |before| ==> after[s] == if s in chain then id else before[s]
  }

  /** A mark, once made, is never changed by any walk. */
  ghost predicate Kept(before: seq<nat>, after: seq<nat>) {
    && |before| == |after|
    && forall s :: 0 <= s < |before| && before[s] != 0 ==> after[s] == before[s]
  }

  /** A successful walk returns the chain, found it unmarked and marked exactly it. */
  lemma {:induction false} WalkSound(table: seq<nat>, start: nat, owner: seq<nat>, id: nat)
    requires id != 0
    ensures var w := Walk(table, start, owner, id);
      && Kept(owner, w.owner)
      && (w.ok ==> IsChain(table, |owner|, start, w.chain) && AllZero(owner, w.chain)
                   && Marked(owner, w.owner, w.chain, id))
    decreases Unowned(owner)
  {
    if start != END_OF_CHAIN && start < |table| && start < |owner| && owner[start] == 0 {
      var next := owner[start := id];
      assert start in Unowned(owner) && start !in Unowned(next);
      WalkSound(table, table[start], next, id);
    }
  }

  /** A chain that is there and unmarked is walked, whatever else is marked. */
  lemma {:induction false} WalkComplete(table: seq<nat>, start: nat, owner: seq<nat>, id: nat, chain: seq<nat>)
    requires id != 0
    requires IsChain(table, |owner|, start, chain) && AllZero(owner, chain)
    ensures Walk(table, start, owner, id).ok && Walk(table, start, owner, id).chain == chain
    decreases |chain|
  {
    if chain != [] {
      assert forall s :: s in chain[1..] ==> s in chain;
      WalkComplete(table, table[start], owner[start := id], id, chain[1..]);
    }
  }

  /** The table alone decides the chain from a start. */
  lemma {:induction false} ChainUnique(table: seq<nat>, n: nat, start: nat, a: seq<nat>, b: seq<nat>)
    requires IsChain(table, n, start, a) && IsChain(table, n, start, b)
    ensures a == b
    decreases |a|
  {
    if a != [] && b != [] {
      ChainUnique(table, n, table[start], a[1..], b[1..]);
    }
  }

  /** Chains keep inside both tables and never repeat a sector. */
  lemma {:induction false} ChainInside(table: seq<nat>, n: nat, start: nat, chain: seq<nat>)
    requires IsChain(table, n, start, chain)
    ensures forall i :: 0 <= i < |chain| ==> chain[i] < n && chain[i] < |table|
    ensures forall i, j :: 0 <= i < j < |chain| ==> chain[i] != chain[j]
    decreases |chain|
  {
    if chain != [] {
      ChainInside(table, n, table[start], chain[1..]);
      forall i, j | 0 <= i < j < |chain| ensures chain[i] != chain[j] {
        if i > 0 {
          assert chain[i] == chain[1..][i - 1] && chain[j] == chain[1..][j - 1];
        } else {
          assert chain[j] == chain[1..][j - 1];
        }
      }
      forall i | 0 <= i < |chain| ensures chain[i] < n && chain[i] < |table| {
        if i > 0 { assert chain[i] == chain[1..][i - 1]; }
      }
    }
  }

  /** The chain from `start` if the table holds one: a walk over unmarked owners. */
  ghost function Solo(table: seq<nat>, n: nat, start: nat): (r: Option<seq<nat>>)
    ensures r.Some? ==> IsChain(table, n, start, r.value)
  {
    var none := seq(n, _ => 0);
    WalkSound(table, start, none, 1);
    var w := Walk(table, start, none, 1);
    if w.ok then Some(w.chain) else None
  }

  lemma {:induction false} SoloComplete(table: seq<nat>, n: nat, start: nat, chain: seq<nat>)
    requires IsChain(table, n, start, chain)
    ensures Solo(table, n, start) == Some(chain)
  {
    ChainInside(table, n, start, chain);
    WalkComplete(table, start, seq(n, _ => 0), 1, chain);
  }

  /** A walk succeeds exactly when the chain exists and no other walk has marked any of it. */
  lemma {:induction false} WalkExact(table: seq<nat>, start: nat, owner: seq<nat>, id: nat)
    requires id != 0
    ensures var w := Walk(table, start, owner, id); var solo := Solo(table, |owner|, start);
      && (w.ok <==> solo.Some? && AllZero(owner, solo.value))
      && (w.ok ==> w.chain == solo.value && Marked(owner, w.owner, w.chain, id))
      && Kept(owner, w.owner)
  {
    WalkSound(table, start, owner, id);
    var w := Walk(table, start, owner, id);
    var solo := Solo(table, |owner|, start);
    if w.ok {
      SoloComplete(table, |owner|, start, w.chain);
    }
    if solo.Some? && AllZero(owner, solo.value) {
      WalkComplete(table, start, owner, id, solo.value);
    }
  }

  // ── The imperative walk over the sparse owner table ────────

  const BLOCK_SIZE := 4096

  /** Owners of sectors, 0 for none, stored sparsely: a block of the table is allocated by the
      first mark in it. */
  class SectorOwners {
    const count: nat
    var blocks: seq<seq<nat>>

    ghost predicate Valid()
      reads this
    {
      && |blocks| == (count + BLOCK_SIZE - 1) / BLOCK_SIZE
      && forall b :: 0 <= b < |blocks| ==> blocks[b] == [] || |blocks[b]| == BLOCK_SIZE
    }

    constructor (count: nat)
      ensures Valid() && this.count == count
      ensures View() == seq(count, _ => 0)
    {
      this.count := count;
      this.blocks := seq((count + BLOCK_SIZE - 1) / BLOCK_SIZE, _ => []);
    }

    function Get(sector: nat): nat
      requires Valid() && sector < count
      reads this
    {
      var block := blocks[sector / BLOCK_SIZE];
      if block == [] then 0 else block[sector % BLOCK_SIZE]
    }

    /** The table as one owner per sector. */
    ghost function View(): (v: seq<nat>)
      requires Valid()
      reads this
      ensures |v| == count
    {
      seq(count, s requires 0 <= s < count && Valid() reads this => Get(s))
    }

    method Set(sector: nat, id: nat)
      requires Valid() && sector < count
      modifies this
      ensures Valid() && View() == old(View())[sector := id]
    {
      var b := sector / BLOCK_SIZE;
      var block := if blocks[b] == [] then seq(BLOCK_SIZE, _ => 0) else blocks[b];
      blocks := blocks[b := block[sector % BLOCK_SIZE := id]];
      forall s | 0 <= s < count ensures View()[s] == old(View())[sector := id][s] {
        if s / BLOCK_SIZE == b && s % BLOCK_SIZE == sector % BLOCK_SIZE {
          assert s == sector;
        }
      }
    }
  }

  /** The loop of the walk; it terminates on every table, cyclic or crossing. */
  method WalkChain(table: seq<nat>, start: nat, owner: SectorOwners, id: nat)
    returns (ok: bool, chain: seq<nat>)
    requires id != 0 && owner.Valid()
    modifies owner
    ensures owner.Valid()
    ensures Walked(ok, chain, owner.View()) == Walk(table, start, old(owner.View()), id)
  {
    var current: nat := start;
    chain := [];
    ok := true;
    ghost var goal := Walk(table, start, owner.View(), id);
    while current != END_OF_CHAIN
      invariant owner.Valid() && ok
      invariant var w := Walk(table, current, owner.View(), id);
        goal == Walked(w.ok, chain + w.chain, w.owner)
      decreases Unowned(owner.View())
    {
      if current >= |table| || current >= owner.count || owner.Get(current) != 0 {
        ok := false;
        return;
      }
      ghost var before := owner.View();
      assert current in Unowned(before) && current !in Unowned(before[current := id]);
      owner.Set(current, id);
      ghost var w := Walk(table, table[current], owner.View(), id);
      assert chain + ([current] + w.chain) == (chain + [current]) + w.chain;
      chain := chain + [current];
      current := table[current];
    }
  }
}
