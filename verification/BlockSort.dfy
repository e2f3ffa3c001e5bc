/** Choosing between the two block sorters, and finding the unrotated block. */
module BlockSort {
  import opened Bits
  import opened Rotations
  import opened Permutations
  import opened MainCompare
  import FallbackSort
  import MainSort

  /** How many comparisons the main sorter may spend. */
  function InitialBudget(nblock: nat, wfact: int): (r: nat)
    ensures nblock > 0 && wfact <= 3 ==> r == 0
    ensures r <= 33 * nblock
  {
    var w := if wfact < 1 then 1 else if wfact > 100 then 100 else wfact;
    nblock * ((w - 1) / 3)
  }

  method FindOrigin(ptr: array<int>, nblock: int, ghost b: Block) returns (origPtr: int)
    requires nblock == |b| == ptr.Length && SortedRotations(b, ptr[..])
    ensures 0 <= origPtr < nblock && ptr[origPtr] == 0
  {
    origPtr := -1;
    for i := 0 to nblock
      invariant origPtr == -1 && forall p :: 0 <= p < i ==> ptr[p] != 0
    {
      if ptr[i] == 0 {
        origPtr := i;
        break;
      }
    }
    ghost var p := PermSurjective(ptr[..], nblock, 0);
    assert origPtr != -1;  // error 1003 cannot happen
  }

  /** Whatever sorter does the work, and however the budget runs out, ptr ends up
      listing all rotations in order, the block is intact, and origPtr is where
      the block itself stands in the list. */
  method BlockSort(ptr: array<int>, eclass: array<int>, block: array<Byte>, quadrant: array<int>, ftab: array<int>,
      bhtab: array<Word>, nblock: int, wfact: int)
    returns (origPtr: int)
    requires 0 < nblock <= MAX_BLOCK && nblock == ptr.Length == eclass.Length
    requires nblock + N_OVERSHOOT <= block.Length && nblock + N_OVERSHOOT <= quadrant.Length
    requires ftab.Length == 65537 && bhtab.Length == 65537
    requires ptr != eclass && ptr != quadrant && ptr != ftab && eclass != quadrant && eclass != ftab && quadrant != ftab
    requires block as object !in {ptr, eclass, quadrant, ftab} && bhtab as object !in {ptr, eclass, quadrant, ftab}
             && block as object != bhtab
    modifies ptr, eclass, block, quadrant, ftab, bhtab
    ensures block[..nblock] == old(block[..nblock])
    ensures SortedRotations(block[..nblock], ptr[..])
    ensures 0 <= origPtr < nblock && ptr[origPtr] == 0
  {
    hide SortedRotations;
    ghost var b: Block := block[..nblock];
    if nblock < 10000 {
      FallbackSort.FallbackSort(ptr, eclass, block, bhtab, nblock);
    } else {
      var budget := MainSort.MainSort(ptr, block, quadrant, ftab, nblock, InitialBudget(nblock, wfact), b);
      if budget < 0 {
        FallbackSort.FallbackSort(ptr, eclass, block, bhtab, nblock);
      }
    }
    origPtr := FindOrigin(ptr, nblock, b);
  }
}
