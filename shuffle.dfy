/** `shuffle_pixels`: reorder the pixels of an image by a permutation drawn
    from the seeded generator, or put them back by its inverse. */
module PixelShuffle {
  import opened Permutations
  import opened Prng
  import opened Images

  /** The list `indices` after `random.seed(seed)` and
      `random.shuffle(list(range(n)))`: a permutation of [0, n). */
  function ShuffledIndices(src: Source, seed: nat, n: nat): (p: seq<nat>)
    ensures IsPermutation(p, n)
  {
    RangeIsPermutation(n);
    FisherYatesIsPermutation(src, Seeded(seed), Range(n), n);
    FisherYates(src, Seeded(seed), Range(n), n)
  }

  /** What `shuffle_pixels(image, seed, reverse)` returns, with p the drawn
      permutation: forward, position i receives the pixel at p[i]; in reverse,
      the pixel at i goes back to p[i]. Size and dimensions are kept. */
  function Shuffled(src: Source, seed: nat, image: Image, reverse: bool): (out: Image)
    ensures out.width == image.width && out.height == image.height
    ensures |out.pixels| == |image.pixels|
    ensures !reverse ==> forall i :: 0 <= i < |image.pixels| ==>
      out.pixels[i] == image.pixels[ShuffledIndices(src, seed, |image.pixels|)[i]]
    ensures reverse ==> forall i :: 0 <= i < |image.pixels| ==>
      out.pixels[ShuffledIndices(src, seed, |image.pixels|)[i]] == image.pixels[i]
  {
    var p := ShuffledIndices(src, seed, |image.pixels|);
    InverseOfPermutation(p, |image.pixels|);
    var order := if reverse then Inverse(p) else p;
    Image(image.width, image.height, Gather(image.pixels, order))
  }

  /** The loop that builds `reverse_indices`: a list of zeros in which entry
      `indices[i]` is set to i for every i. The result is the inverse permutation. */
  method ReverseIndices(indices: seq<nat>) returns (reverseIndices: seq<nat>)
    requires IsPermutation(indices, |indices|)
    ensures reverseIndices == Inverse(indices)
    ensures IsPermutation(reverseIndices, |indices|)
  {
    var n := |indices|;
    var inv := new nat[n](_ => 0);
    for i := 0 to n
      invariant forall k :: 0 <= k < i ==> inv[indices[k]] == k
    {
      inv[indices[i]] := i;
    }
    reverseIndices := inv[..];
    InverseOfPermutation(indices, n);
    forall j | 0 <= j < n ensures reverseIndices[j] == Inverse(indices)[j] {
      var k := Inverse(indices)[j];
      assert indices[k] == j;
    }
  }

  /** `shuffle_pixels`: seed, shuffle `list(range(total_pixels))` in place,
      invert it when reversing, and gather the pixels in that order into an
      image of the same size. */
  method ShufflePixels(src: Source, image: Image, seed: nat, reverse: bool) returns (shuffled: Image)
    ensures shuffled == Shuffled(src, seed, image, reverse)
  {
    var pixels := image.pixels;
    var totalPixels := |pixels|;
    var rng := Seeded(seed);
    var indices := new nat[totalPixels](i => i);
    assert indices[..] == Range(totalPixels);
    Shuffle(src, rng, indices);
    var order := indices[..];
    assert order == ShuffledIndices(src, seed, totalPixels);
    if reverse {
      order := ReverseIndices(order);
    }
    shuffled := Image(image.width, image.height, Gather(pixels, order));
  }

  /** Gathering through a Fisher-Yates shuffle of an index list rearranges the
      gathered list without changing its multiset of values. */
  lemma {:induction false} GatherFisherYates<T>(src: Source, rng: Rng, s: seq<T>, idx: seq<nat>, k: nat)
    requires Indexes(idx, s) && k <= |idx|
    ensures Indexes(FisherYates(src, rng, idx, k), s)
    ensures multiset(Gather(s, FisherYates(src, rng, idx, k))) == multiset(Gather(s, idx))
    decreases k
  {
    if k > 1 {
      var d := RandBelow(src, rng, k);
      var swapped := Swap(idx, k - 1, d.value);
      GatherSwap(s, idx, k - 1, d.value);
      GatherFisherYates(src, d.next, s, swapped, k - 1);
    }
  }

  /** Un-shuffling a shuffled image with the same seed restores it, and so does
      shuffling an un-shuffled one. */
  lemma UnshuffleShuffle(src: Source, seed: nat, image: Image)
    ensures Shuffled(src, seed, Shuffled(src, seed, image, false), true) == image
    ensures Shuffled(src, seed, Shuffled(src, seed, image, true), false) == image
  {
    var p := ShuffledIndices(src, seed, |image.pixels|);
    GatherInverse(image.pixels, p);
  }

  /** Shuffling in either direction only moves pixels: the multiset of pixel
      values is unchanged. */
  lemma ShuffledSameMultiset(src: Source, seed: nat, image: Image, reverse: bool)
    ensures multiset(Shuffled(src, seed, image, reverse).pixels) == multiset(image.pixels)
  {
    var n := |image.pixels|;
    var p := ShuffledIndices(src, seed, n);
    RangeIsPermutation(n);
    GatherRange(image.pixels);
    GatherFisherYates(src, Seeded(seed), image.pixels, Range(n), n);
    assert multiset(Gather(image.pixels, p)) == multiset(image.pixels);
    if reverse {
      InverseOfPermutation(p, n);
      var back := Gather(image.pixels, Inverse(p));
      GatherRange(back);
      GatherFisherYates(src, Seeded(seed), back, Range(n), n);
      GatherInverse(image.pixels, p);
      assert Gather(back, p) == image.pixels;
    }
  }

  /** An image of zero or one pixels comes out of either direction unchanged. */
  lemma ShuffleTrivial(src: Source, seed: nat, image: Image, reverse: bool)
    requires |image.pixels| <= 1
    ensures Shuffled(src, seed, image, reverse) == image
  {
    var p := ShuffledIndices(src, seed, |image.pixels|);
    assert p == Range(|image.pixels|);
    if |image.pixels| == 1 {
      assert Inverse(p) == [0];
    }
  }
}
