/** `shift_colors`: add (or, in reverse, subtract) a pseudorandom amount in
    [0, 255] to each channel of each pixel, modulo 256. Python's `%` by a
    positive modulus and Dafny's `%` agree: both give a value in [0, 256). */
module ColorShift {
  import opened Prng
  import opened Images

  /** The three amounts drawn for one pixel, red first. */
  datatype Shift = Shift(dr: int, dg: int, db: int)

  /** One channel: `(c + s) % 256`, or `(c - s) % 256` in reverse. The result is
      the one value in [0, 256) congruent to c + s (respectively c - s). */
  function ShiftChannel(c: int, s: int, reverse: bool): (r: int)
    ensures 0 <= r < 256
    ensures reverse ==> (r - (c - s)) % 256 == 0
    ensures !reverse ==> (r - (c + s)) % 256 == 0
  {
    if reverse then (c - s) % 256 else (c + s) % 256
  }

  /** Subtracting the amount a channel was shifted by restores it, and the other
      way round, for channels in [0, 255]. */
  lemma ChannelRoundTrip(c: int, s: int)
    requires 0 <= c < 256
    ensures ShiftChannel(ShiftChannel(c, s, false), s, true) == c
    ensures ShiftChannel(ShiftChannel(c, s, true), s, false) == c
  {
    var up := (c + s) % 256;
    ModOf(c + s, (c + s) / 256, up);
    ModOf(up - s, -((c + s) / 256), c);
    var down := (c - s) % 256;
    ModOf(c - s, (c - s) / 256, down);
    ModOf(down + s, -((c - s) / 256), c);
  }

  /** r is a % 256 when a is r plus a multiple of 256 and r is in [0, 256). */
  lemma ModOf(a: int, q: int, r: int)
    requires a == 256 * q + r && 0 <= r < 256
    ensures a % 256 == r
  {
  }

  function ShiftPixel(p: Pixel, s: Shift, reverse: bool): (q: Pixel)
    ensures InRange(q)
  {
    Pixel(ShiftChannel(p.r, s.dr, reverse), ShiftChannel(p.g, s.dg, reverse), ShiftChannel(p.b, s.db, reverse))
  }

  /** The bounds of the draws made for the first k pixels: three draws of
      `randint(0, 255)`, that is `_randbelow(256)`, per pixel. */
  function ShiftBounds(k: nat): (b: seq<nat>)
    ensures |b| == 3 * k
    ensures forall i :: 0 <= i < |b| ==> b[i] == 256
  {
    seq(3 * k, _ => 256)
  }

  /** The amounts for pixel k: the generator seeded with `seed` has made the
      draws for the pixels before it; then come red, green and blue. */
  function PixelShift(src: Source, seed: nat, k: nat): (s: Shift)
    ensures 0 <= s.dr < 256 && 0 <= s.dg < 256 && 0 <= s.db < 256
  {
    var r := RandInt(src, Rng(seed, ShiftBounds(k)), 0, 255);
    var g := RandInt(src, r.next, 0, 255);
    var b := RandInt(src, g.next, 0, 255);
    Shift(r.value, g.value, b.value)
  }

  /** What `shift_colors(pixels, seed, reverse)` returns: each pixel shifted
      by the amounts drawn for its position. */
  function Shifted(src: Source, seed: nat, pixels: seq<Pixel>, reverse: bool): (r: seq<Pixel>)
    ensures |r| == |pixels|
    ensures AllInRange(r)
  {
    seq(|pixels|, k requires 0 <= k < |pixels| => ShiftPixel(pixels[k], PixelShift(src, seed, k), reverse))
  }

  /** `shift_colors`: seed the generator, then walk the pixels in order, drawing
      three amounts per pixel and appending the shifted pixel. */
  method ShiftColors(src: Source, pixels: seq<Pixel>, seed: nat, reverse: bool) returns (shifted: seq<Pixel>)
    ensures shifted == Shifted(src, seed, pixels, reverse)
  {
    var rng := Seeded(seed);
    shifted := [];
    var i := 0;
    while i < |pixels|
      invariant 0 <= i <= |pixels|
      invariant rng == Rng(seed, ShiftBounds(i))
      invariant |shifted| == i
      invariant forall k :: 0 <= k < i ==> shifted[k] == ShiftPixel(pixels[k], PixelShift(src, seed, k), reverse)
    {
      var p := pixels[i];
      var shiftR := RandInt(src, rng, 0, 255);
      var shiftG := RandInt(src, shiftR.next, 0, 255);
      var shiftB := RandInt(src, shiftG.next, 0, 255);
      rng := shiftB.next;
      assert ShiftBounds(i) + [256] + [256] + [256] == ShiftBounds(i + 1);
      var r, g, b;
      if reverse {
        r := (p.r - shiftR.value) % 256;
        g := (p.g - shiftG.value) % 256;
        b := (p.b - shiftB.value) % 256;
      } else {
        r := (p.r + shiftR.value) % 256;
        g := (p.g + shiftG.value) % 256;
        b := (p.b + shiftB.value) % 256;
      }
      shifted := shifted + [Pixel(r, g, b)];
      i := i + 1;
    }
  }

  /** Unshifting with the same seed undoes shifting, and the other way round,
      for pixels whose channels are in [0, 255]. */
  lemma ShiftedRoundTrip(src: Source, seed: nat, pixels: seq<Pixel>)
    requires AllInRange(pixels)
    ensures Shifted(src, seed, Shifted(src, seed, pixels, false), true) == pixels
    ensures Shifted(src, seed, Shifted(src, seed, pixels, true), false) == pixels
  {
    var there := Shifted(src, seed, pixels, false);
    var back := Shifted(src, seed, there, true);
    forall k | 0 <= k < |pixels| ensures back[k] == pixels[k] {
      var s := PixelShift(src, seed, k);
      ChannelRoundTrip(pixels[k].r, s.dr);
      ChannelRoundTrip(pixels[k].g, s.dg);
      ChannelRoundTrip(pixels[k].b, s.db);
    }
    var there' := Shifted(src, seed, pixels, true);
    var back' := Shifted(src, seed, there', false);
    forall k | 0 <= k < |pixels| ensures back'[k] == pixels[k] {
      var s := PixelShift(src, seed, k);
      ChannelRoundTrip(pixels[k].r, s.dr);
      ChannelRoundTrip(pixels[k].g, s.dg);
      ChannelRoundTrip(pixels[k].b, s.db);
    }
  }

  /** A draw depends on the bounds of the draws before it: the green amount of
      the first pixel (after one `_randbelow(256)`) need not equal the second
      draw of a shuffle of 257 pixels (after one `_randbelow(257)`). */
  lemma DrawsFollowEarlierBounds()
    ensures exists src: Source, seed: nat ::
      PixelShift(src, seed, 0).dg != RandBelow(src, RandBelow(src, Seeded(seed), 257).next, 256).value
  {
    var src: Source := (seed, bounds: seq<nat>, n) => if bounds == [256] then 0 else 1;
    assert ShiftBounds(0) == [];
    assert PixelShift(src, 0, 0).dg == 0;
    var first := RandBelow(src, Seeded(0), 257);
    assert first.next.bounds == [257] != [256];
    assert RandBelow(src, first.next, 256).value == 1;
  }
}
