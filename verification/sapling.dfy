/**
 * The sapling diversifier search of `new_address`.
 *
 * Sapling addresses are indexed by an 88-bit diversifier index, and not every index yields
 * an address (ZIP 32, "Sapling diversifier derivation"). `find_address(j)` returns the least
 * valid index at or above `j`; `new_address` starts at index 0 and runs find-then-increment
 * `n + 1` times for ledger index `n`. The address it keeps is therefore the one at the
 * `n`-th valid diversifier (counting from 0), whatever the invalid indices below it.
 */
module Sapling {
  import opened Wrappers
  import opened Keys

  /** Diversifier indices are 11-byte integers. */
  const DiversifierLimit: nat := 0x100_0000_0000_0000_0000_0000

  predicate Valid(p: Primitives, fvk: SaplingFvk, d: nat)
  {
    d < DiversifierLimit && p.diversifierValid(fvk, d)
  }

  /** The number of valid diversifier indices in `[lo, hi)`. */
  function CountValid(p: Primitives, fvk: SaplingFvk, lo: nat, hi: nat): nat
    decreases hi - lo
  {
    if lo >= hi then 0 else (if Valid(p, fvk, lo) then 1 else 0) + CountValid(p, fvk, lo + 1, hi)
  }

  /** `j` is the `n`-th valid diversifier index, counting from 0. */
  predicate IsNthValid(p: Primitives, fvk: SaplingFvk, j: nat, n: nat)
  {
    Valid(p, fvk, j) && CountValid(p, fvk, 0, j) == n
  }

  /** `find_address`: the least valid index at or above `d`; `None` when the index space runs out. */
  function FindAddress(p: Primitives, fvk: SaplingFvk, d: nat): (r: Option<nat>)
    decreases DiversifierLimit - d
    ensures r.Some? ==> d <= r.value && Valid(p, fvk, r.value) && CountValid(p, fvk, d, r.value) == 0
    ensures r.None? ==> CountValid(p, fvk, d, DiversifierLimit) == 0
  {
    if d >= DiversifierLimit then None
    else if p.diversifierValid(fvk, d) then Some(d)
    else FindAddress(p, fvk, d + 1)
  }

  /** `DiversifierIndex::increment`: fails instead of wrapping past the largest index. */
  function Increment(d: nat): (r: Option<nat>)
    ensures r.Some? <==> d + 1 < DiversifierLimit
    ensures r.Some? ==> r.value == d + 1
  {
    if d + 1 < DiversifierLimit then Some(d + 1) else None
  }

  /**
   * The search loop from index `d` with `rounds` rounds still to go after this one:
   * the index found by the last round, or `None` where the loop's `expect`s would panic.
   */
  function SearchRounds(p: Primitives, fvk: SaplingFvk, d: nat, rounds: nat): (r: Option<nat>)
    decreases rounds
    ensures r.Some? ==> d <= r.value && r.value + 1 < DiversifierLimit && Valid(p, fvk, r.value)
  {
    match FindAddress(p, fvk, d)
    case None => None
    case Some(j) =>
      match Increment(j)
      case None => None
      case Some(next) => if rounds == 0 then Some(j) else SearchRounds(p, fvk, next, rounds - 1)
  }

  /** The diversifier index `new_address` uses for ledger index `n`. */
  function DiversifierFor(p: Primitives, fvk: SaplingFvk, n: nat): Option<nat>
  {
    SearchRounds(p, fvk, 0, n)
  }

  lemma {:induction false} CountValidSplit(p: Primitives, fvk: SaplingFvk, a: nat, b: nat, c: nat)
    requires a <= b <= c
    ensures CountValid(p, fvk, a, c) == CountValid(p, fvk, a, b) + CountValid(p, fvk, b, c)
    decreases b - a
  {
    if a < b {
      CountValidSplit(p, fvk, a + 1, b, c);
    }
  }

  /** A valid index in `[a, b)` makes the count of that range positive. */
  lemma CountValidPositive(p: Primitives, fvk: SaplingFvk, a: nat, e: nat, b: nat)
    requires a <= e < b && Valid(p, fvk, e)
    ensures CountValid(p, fvk, a, b) >= 1
  {
    CountValidSplit(p, fvk, a, e, b);
  }

  /** The last round of the search lands on the `rounds`-th valid index at or above `d`. */
  lemma {:induction false} SearchRoundsCounts(p: Primitives, fvk: SaplingFvk, d: nat, rounds: nat)
    ensures SearchRounds(p, fvk, d, rounds).Some? ==>
              CountValid(p, fvk, d, SearchRounds(p, fvk, d, rounds).value) == rounds
    decreases rounds
  {
    var r := SearchRounds(p, fvk, d, rounds);
    if r.Some? {
      var j := FindAddress(p, fvk, d).value;
      if rounds > 0 {
        SearchRoundsCounts(p, fvk, j + 1, rounds - 1);
        CountValidSplit(p, fvk, d, j, r.value);
      }
    }
  }

  /** Conversely, the search reaches every such index that leaves room to increment. */
  lemma {:induction false} SearchRoundsComplete(p: Primitives, fvk: SaplingFvk, d: nat, rounds: nat, e: nat)
    requires d <= e && e + 1 < DiversifierLimit && Valid(p, fvk, e)
    requires CountValid(p, fvk, d, e) == rounds
    ensures SearchRounds(p, fvk, d, rounds) == Some(e)
    decreases rounds
  {
    var found := FindAddress(p, fvk, d);
    if found.None? {
      CountValidPositive(p, fvk, d, e, DiversifierLimit);
      assert false;
    }
    var j := found.value;
    if e < j {
      CountValidPositive(p, fvk, d, e, j);
      assert false;
    }
    CountValidSplit(p, fvk, d, j, e);
    if rounds > 0 {
      SearchRoundsComplete(p, fvk, j + 1, rounds - 1, e);
    }
  }

  /** There is at most one `n`-th valid index. */
  lemma NthValidUnique(p: Primitives, fvk: SaplingFvk, j: nat, k: nat, n: nat)
    requires IsNthValid(p, fvk, j, n) && IsNthValid(p, fvk, k, n)
    ensures j == k
  {
    if j < k {
      CountValidSplit(p, fvk, 0, j, k);
      CountValidPositive(p, fvk, j, j, k);
    } else if k < j {
      CountValidSplit(p, fvk, 0, k, j);
      CountValidPositive(p, fvk, k, k, j);
    }
  }

  /**
   * The search for ledger index `n` ends on diversifier `j` exactly when `j` is the
   * `n`-th valid index and is not the last index of the space.
   */
  lemma DiversifierForIsNthValid(p: Primitives, fvk: SaplingFvk, n: nat, j: nat)
    ensures DiversifierFor(p, fvk, n) == Some(j) <==> IsNthValid(p, fvk, j, n) && j + 1 < DiversifierLimit
  {
    if DiversifierFor(p, fvk, n) == Some(j) {
      SearchRoundsCounts(p, fvk, 0, n);
    }
    if IsNthValid(p, fvk, j, n) && j + 1 < DiversifierLimit {
      SearchRoundsComplete(p, fvk, 0, n, j);
    }
  }

  /** The diversifier of ledger index `n`, where the search does not panic. */
  function NthDiversifier(p: Primitives, fvk: SaplingFvk, n: nat): (j: nat)
    requires DiversifierFor(p, fvk, n).Some?
    ensures IsNthValid(p, fvk, j, n)
  {
    var j := DiversifierFor(p, fvk, n).value;
    DiversifierForIsNthValid(p, fvk, n, j);
    j
  }

  /** The sapling receiver `new_address` produces for ledger index `n`. */
  function AddressFor(p: Primitives, fvk: SaplingFvk, n: nat): SaplingAddress
    requires DiversifierFor(p, fvk, n).Some?
  {
    p.saplingAddressAt(fvk, NthDiversifier(p, fvk, n))
  }
}
