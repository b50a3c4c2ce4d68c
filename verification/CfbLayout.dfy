/** The writer's layout: the regions of the file, and the size of an allocation index that has
    entries for its own sectors and for those of the extended index that lists it. */
module CfbLayout {
  import opened Bytes

  const HEADER_DIFAT_ENTRIES := 109
  const DIR_ENTRY_SIZE := 128

  /** Extended index sectors needed to list `fat` allocation index sectors. */
  function DifatFor(fat: nat, per: nat): nat
    requires per > 1
  {
    UnitsFor(if fat > HEADER_DIFAT_ENTRIES then fat - HEADER_DIFAT_ENTRIES else 0, per - 1)
  }

  /** Allocation index sectors needed when it has `fat` of them already. */
  function NextFat(others: nat, fat: nat, per: nat): nat
    requires per > 1
  {
    UnitsFor(others + DifatFor(fat, per) + fat, per)
  }

  predicate EntriesPerSector(per: nat) {
    per == 128 || per == 1024
  }

  lemma {:induction false} UnitsGrow(a: nat, d: nat, unit: nat)
    requires unit == 127 || unit == 1023 || unit == 128 || unit == 1024
    ensures UnitsFor(a + d, unit) <= UnitsFor(a, unit) + d / unit + 1
  {
    UnitsBounds(a, unit);
    UnitsBounds(a + d, unit);
  }

  lemma {:induction false} NextMonotone(others: nat, x: nat, y: nat, per: nat)
    requires EntriesPerSector(per) && x <= y
    ensures NextFat(others, x, per) <= NextFat(others, y, per)
  {
    UnitsMonotone(if x > 109 then x - 109 else 0, if y > 109 then y - 109 else 0, per - 1);
    UnitsMonotone(others + DifatFor(x, per) + x, others + DifatFor(y, per) + y, per);
  }

  lemma {:induction false} DifatContracts(x: nat, y: nat, per: nat)
    requires EntriesPerSector(per) && x < y
    ensures DifatFor(y, per) <= DifatFor(x, per) + (y - x)
  {
    var a := if x > 109 then x - 109 else 0;
    var b := if y > 109 then y - 109 else 0;
    UnitsMonotone(b, a + (y - x), per - 1);
    UnitsGrow(a, y - x, per - 1);
  }

  /** One step of the loop brings the size within a 64th of the distance it was off by. */
  lemma {:induction false} NextContracts(others: nat, x: nat, y: nat, per: nat)
    requires EntriesPerSector(per) && x < y
    ensures NextFat(others, y, per) - NextFat(others, x, per) <= (y - x) / 64 + 1
  {
    DifatContracts(x, y, per);
    var t := others + DifatFor(x, per) + x;
    UnitsMonotone(others + DifatFor(y, per) + y, t + 2 * (y - x), per);
    UnitsGrow(t, 2 * (y - x), per);
  }

  function Bound(others: nat): nat {
    others / 64 + 1
  }

  lemma {:induction false} BoundHolds(others: nat, per: nat)
    requires EntriesPerSector(per)
    ensures NextFat(others, Bound(others), per) <= Bound(others)
  {
    var b := Bound(others);
    UnitsBounds(if b > 109 then b - 109 else 0, per - 1);
    assert DifatFor(b, per) <= b;
    assert others + DifatFor(b, per) + b <= per * b;
    UnitsMonotone(others + DifatFor(b, per) + b, per * b, per);
    UnitsAre(per * b, per, b);
  }

  /** The least size, from x up, that is enough. */
  ghost function LeastFrom(others: nat, per: nat, x: nat): (l: nat)
    requires EntriesPerSector(per) && x <= Bound(others)
    requires forall y :: 0 <= y < x ==> NextFat(others, y, per) > y
    ensures NextFat(others, l, per) <= l <= Bound(others)
    ensures forall y :: 0 <= y < l ==> NextFat(others, y, per) > y
    decreases Bound(others) - x
  {
    BoundHolds(others, per);
    if NextFat(others, x, per) <= x then x else LeastFrom(others, per, x + 1)
  }

  ghost function Least(others: nat, per: nat): nat
    requires EntriesPerSector(per)
  {
    LeastFrom(others, per, 0)
  }

  /** It is the least solution of the mutual equations. */
  lemma {:induction false} LeastSolves(others: nat, per: nat)
    requires EntriesPerSector(per)
    ensures var l := Least(others, per);
      && NextFat(others, l, per) == l
      && (forall y :: 0 <= y < l ==> NextFat(others, y, per) > y)
  {
    var l := Least(others, per);
    var y := NextFat(others, l, per);
    if y < l {
      NextMonotone(others, y, l, per);
      assert false;
    }
  }

  /** How far off the loop can still be after a number of steps. */
  function Allowance(step: nat): nat {
    if step == 0 then 0x400_0000_0000_0001 else Allowance(step - 1) / 64 + 1
  }

  lemma {:induction false} AllowanceShrinks()
    ensures Allowance(10) <= 1
  {
    assert Allowance(1) == 0x10_0000_0000_0001;
    assert Allowance(2) == 0x4000_0000_0001;
    assert Allowance(3) == 0x100_0000_0001;
    assert Allowance(4) == 0x4_0000_0001;
    assert Allowance(5) == 0x1000_0001;
    assert Allowance(6) == 0x40_0001;
    assert Allowance(7) == 0x1_0001;
    assert Allowance(8) == 0x401;
    assert Allowance(9) == 0x11;
  }

  ghost predicate OnTrack(fat: nat, goal: nat, steps: nat) {
    && fat <= goal && steps <= 11
    && (steps <= 10 ==> goal - fat <= Allowance(steps))
    && (steps == 11 ==> fat == goal)
  }

  lemma {:induction false} StepOnTrack(others: nat, per: nat, fat: nat, steps: nat)
    requires EntriesPerSector(per) && OnTrack(fat, Least(others, per), steps)
    requires NextFat(others, fat, per) != fat
    ensures OnTrack(NextFat(others, fat, per), Least(others, per), steps + 1)
  {
    var goal := Least(others, per);
    LeastSolves(others, per);
    AllowanceShrinks();
    NextMonotone(others, fat, goal, per);
    NextContracts(others, fat, goal, per);
    assert NextFat(others, fat, per) > fat;
    if steps < 10 {
      assert (goal - fat) / 64 <= Allowance(steps) / 64;
    }
  }

  /** The loop that sizes the allocation index. Started from zero it reaches the least solution
      for every package the 64-bit arithmetic can describe, in at most twelve of its 64 steps. */
  method SolveIndex(others: nat, per: nat) returns (fat: nat, difat: nat, steps: nat)
    requires EntriesPerSector(per) && others < LIMIT64
    ensures fat == NextFat(others, fat, per) && difat == DifatFor(fat, per)
    ensures forall y :: 0 <= y < fat ==> NextFat(others, y, per) != y
    ensures steps <= 12
  {
    hide UnitsFor;
    LeastSolves(others, per);
    fat, difat, steps := 0, 0, 0;
    while steps < 64
      invariant OnTrack(fat, Least(others, per), steps)
      decreases 64 - steps
    {
      var listed := if fat > HEADER_DIFAT_ENTRIES then fat - HEADER_DIFAT_ENTRIES else 0;
      difat := CountUnits(listed, per - 1);
      var next := CountUnits(others + difat + fat, per);
      if next == fat {
        steps := steps + 1;
        return;
      }
      StepOnTrack(others, per, fat, steps);
      fat := next;
      steps := steps + 1;
    }
  }
}
