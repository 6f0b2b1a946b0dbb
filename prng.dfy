/** The seeded pseudorandom generator, treated abstractly.

    A generator state is the seed it was last seeded with and the bounds of
    all draws made since, in order. The library generator itself is a
    parameter `src`: its raw output for a draw may depend on the seed, on the
    bounds of every earlier draw and on the bound asked for. A deterministic
    generator that is only ever asked for bounded draws (as here: `randint`
    and `shuffle` both reduce to `_randbelow`) gives outputs that are a
    function of exactly these, so each such generator is an instance of this
    model. Re-seeding gives the same state, hence the same draws. */
module Prng {
  import opened Permutations

  type Source = (nat, seq<nat>, nat) -> nat

  datatype Rng = Rng(seed: nat, bounds: seq<nat>)

  datatype Draw = Draw(value: int, next: Rng)

  /** `random.seed(seed)`. */
  function Seeded(seed: nat): Rng {
    Rng(seed, [])
  }

  /** `random._randbelow(n)`: a value in [0, n); the state records this draw's bound. */
  function RandBelow(src: Source, rng: Rng, n: nat): (d: Draw)
    requires n > 0
    ensures 0 <= d.value < n
    ensures d.next == Rng(rng.seed, rng.bounds + [n])
  {
    Draw(src(rng.seed, rng.bounds, n) % n, Rng(rng.seed, rng.bounds + [n]))
  }

  /** `random.randint(lo, hi)`, which is `lo + _randbelow(hi - lo + 1)`. */
  function RandInt(src: Source, rng: Rng, lo: int, hi: int): (d: Draw)
    requires lo <= hi
    ensures lo <= d.value <= hi
    ensures d.next == Rng(rng.seed, rng.bounds + [hi - lo + 1])
  {
    var b := RandBelow(src, rng, hi - lo + 1);
    Draw(lo + b.value, b.next)
  }

  /** `random.shuffle` on a list whose first k positions are still to be
      processed: for i from k - 1 down to 1, swap position i with position
      `_randbelow(i + 1)`. */
  function FisherYates<T>(src: Source, rng: Rng, a: seq<T>, k: nat): (r: seq<T>)
    requires k <= |a|
    ensures |r| == |a|
    ensures multiset(r) == multiset(a)
    decreases k
  {
    if k <= 1 then a
    else
      var d := RandBelow(src, rng, k);
      FisherYates(src, d.next, Swap(a, k - 1, d.value), k - 1)
  }

  /** Shuffling a permutation yields a permutation. */
  lemma {:induction false} FisherYatesIsPermutation(src: Source, rng: Rng, p: seq<nat>, k: nat)
    requires IsPermutation(p, |p|) && k <= |p|
    ensures IsPermutation(FisherYates(src, rng, p, k), |p|)
    decreases k
  {
    if k > 1 {
      var d := RandBelow(src, rng, k);
      SwapIsPermutation(p, |p|, k - 1, d.value);
      FisherYatesIsPermutation(src, d.next, Swap(p, k - 1, d.value), k - 1);
    }
  }

  /** One step of the shuffle: draw below k, swap position k - 1 with the drawn one. */
  lemma FisherYatesStep<T>(src: Source, rng: Rng, a: seq<T>, k: nat)
    requires 1 < k <= |a|
    ensures FisherYates(src, rng, a, k)
         == FisherYates(src, RandBelow(src, rng, k).next, Swap(a, k - 1, RandBelow(src, rng, k).value), k - 1)
  {
  }

  /** `x[i], x[j] = x[j], x[i]`. */
  method Exchange<T>(x: array<T>, i: nat, j: nat)
    requires i < x.Length && j < x.Length
    modifies x
    ensures x[..] == Swap(old(x[..]), i, j)
  {
    var t := x[i];
    x[i] := x[j];
    x[j] := t;
  }

  /** `random.shuffle(x)` after `random.seed`, in place, as CPython runs it. */
  method Shuffle<T>(src: Source, rng: Rng, x: array<T>)
    modifies x
    ensures x[..] == FisherYates(src, rng, old(x[..]), x.Length)
  {
    var i := x.Length;
    var state := rng;
    while i > 1
      invariant 0 <= i <= x.Length
      invariant FisherYates(src, state, x[..], i) == FisherYates(src, rng, old(x[..]), x.Length)
      decreases i
    {
      var d := RandBelow(src, state, i);
      var j := d.value;
      FisherYatesStep(src, state, x[..], i);
      Exchange(x, i - 1, j);
      state := d.next;
      i := i - 1;
    }
  }
}
