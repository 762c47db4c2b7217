/**
 The doubling rule by which both containers grow: keep doubling the capacity until
 the wanted length fits.
 */
module Growth {

  /** The capacity reached from `cap` when `need` elements have to fit. */
  ghost function Grown(cap: nat, need: nat): nat
    requires cap > 0
    decreases need - cap
  {
    if need <= cap then cap else Grown(2 * cap, need)
  }

  ghost function Pow2(k: nat): nat
  {
    if k == 0 then 1 else 2 * Pow2(k - 1)
  }

  /** The result fits, is the start times a power of two, and never overshoots twofold. */
  lemma {:induction false} GrownFits(cap: nat, need: nat) returns (k: nat)
    requires cap > 0
    ensures need <= Grown(cap, need)
    ensures Grown(cap, need) == cap * Pow2(k)
    ensures Grown(cap, need) == cap <==> need <= cap
    ensures need > cap ==> 2 * cap <= Grown(cap, need) < 2 * need
    decreases need - cap
  {
    if need <= cap {
      k := 0;
    } else {
      var j := GrownFits(2 * cap, need);
      k := j + 1;
      assert 2 * cap * Pow2(j) == cap * Pow2(k);
    }
  }

  lemma {:induction false} Pow2Adds(a: nat, b: nat)
    ensures Pow2(a) * Pow2(b) == Pow2(a + b)
  {
    if a > 0 {
      Pow2Adds(a - 1, b);
      assert Pow2(a) * Pow2(b) == 2 * (Pow2(a - 1) * Pow2(b));
    }
  }

  /** Doubling `k` times on top of `d` doublings. */
  lemma DoublingsAdd(first: nat, d: nat, k: nat)
    ensures first * Pow2(d) * Pow2(k) == first * Pow2(d + k)
  {
    Pow2Adds(d, k);
    assert first * Pow2(d) * Pow2(k) == first * (Pow2(d) * Pow2(k));
  }

  /** The doubling loop shared by `resize_if_needed` and `ulist_append_arr`. */
  method DoubleUntil(cap: nat, need: nat) returns (newCap: nat)
    requires cap > 0
    ensures newCap == Grown(cap, need)
  {
    newCap := cap;
    while need > newCap
      invariant newCap >= cap
      invariant Grown(newCap, need) == Grown(cap, need)
      decreases need - newCap
    {
      newCap := 2 * newCap;
    }
  }
}
