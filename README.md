# Image scrambler: password-seeded reversible pixel transform

This project models the core of a small image "encryption" tool. A password is
hashed into a seed. With the seed, the tool optionally shifts every colour
channel of every pixel by a pseudorandom amount modulo 256. It then permutes
the positions of all pixels with a seeded shuffle. Decryption runs the mirror
stages: un-shuffle, then optionally un-shift. Each stage re-seeds the
generator, so the reverse stage sees the same draws as the forward one.

Modules (one per component of `main.py`):

- `Images`: a pixel is an RGB triple and an image is width, height and its pixels in row-major order. `Decoded` says the image has `width * height` pixels and every channel is in [0, 255].
- `Prng`: the seeded generator, treated abstractly. A state is the seed plus the bounds of every draw made since seeding, in order. The library generator is a parameter `src: (seed, earlier bounds, bound) -> nat`, and a draw below `n` is `src(...) % n`. Both `randint` and `shuffle` reduce to `_randbelow`, so each deterministic generator's outputs here are a function of exactly these three things. `randint(lo, hi)` is `lo + _randbelow(hi - lo + 1)`, as in CPython. `random.shuffle` is CPython's Fisher–Yates loop: for `i` from `n - 1` down to `1`, swap `x[i]` with `x[_randbelow(i + 1)]`. It appears as the function `FisherYates` and as the in-place method `Shuffle` on an array.
- `Permutations`: index lists, `Swap`, `Gather` (the comprehension `[s[i] for i in idx]`), permutations of [0, n), and `Inverse`. `Inverse` is defined by search (`IndexOf`), independently of the source's scatter loop.
- `Seed`: `generate_seed`. The 32-byte SHA-256 digest of the password's encoding is a parameter. The seed is the big-endian value of the digest bytes, which is what `int(hexdigest(), 16)` computes.
- `ColorShift`: `shift_colors`. It is a method with the source's loop, proved equal to the closed form `Shifted`.
- `PixelShuffle`: `shuffle_pixels`. It is a method that shuffles an index array in place, inverts it with the source's loop when reversing, and gathers. It is proved equal to the closed form `Shuffled`.
- `Scrambler`: `encrypt_image` and `decrypt_image`. These cover the two guards (no image loaded, empty password), the seed derivation and the stage order, as methods and as the functions that specify them.

Facts about the code that the model follows:

- Nothing checks the image's shape before un-shuffling; there is no shape-mismatch error (main.py:37-57).
- CPython's `random.shuffle` loops over `reversed(range(1, len(x)))`: it never visits index 0, so it makes `n - 1` draws for `n > 0` elements.
- An empty password produces a warning and no result (main.py:135-137, main.py:156-158). This is modelled as `Err(PasswordRequired)`.

## Model

| member | source | states |
|---|---|---|
| Prng.RandBelow | main.py:20-22 | a bounded draw lies in [0, n), and the next state records exactly this draw's bound after the earlier ones |
| Prng.Seeded | main.py:17 | definition, no contract: `random.seed(seed)` gives the state with no draws made |
| Prng.RandInt | main.py:20-22 | `randint(lo, hi)` lies in [lo, hi], and the next state records one draw of bound `hi - lo + 1` |
| Prng.FisherYates | main.py:45 | shuffling keeps the list's length and its multiset of elements |
| Prng.FisherYatesIsPermutation | main.py:44-45 | shuffling a permutation of [0, n) (such as `range(n)`) yields a permutation of [0, n) |
| Permutations.Range | main.py:44 | `list(range(n))` has length n and holds i at position i |
| Permutations.Swap | main.py:45 | the swap exchanges positions i and j, leaves every other position alone, and keeps the multiset |
| Prng.Exchange | main.py:45 | the swap leaves the array equal to `Swap` of its old contents |
| Prng.Shuffle | main.py:45 | the in-place loop leaves the array equal to the Fisher–Yates shuffle of its old contents |
| Permutations.SwapIsPermutation | main.py:45 | exchanging two entries keeps a permutation a permutation |
| Permutations.InverseOfPermutation | main.py:48-52 | the inverse of a permutation is a permutation, with `inv[p[i]] == i` and `p[inv[j]] == j` for all i, j |
| Permutations.Gather | main.py:54 | the gathered list has one entry per index, and entry i is the pixel at `indices[i]` |
| Permutations.GatherInverse | main.py:47-54 | gathering through p and then through its inverse restores the sequence, and so does the opposite order |
| Seed.GenerateSeed | main.py:10-12 | the seed of a 32-byte digest is below 256^32 = 2^256 |
| Seed.BigEndian | main.py:12 | the big-endian value of k bytes is below `Pow256(k)` |
| Seed.Pow256 | main.py:12 | helper: the power of 256 is positive |
| Seed.BigEndianInjective | main.py:12 | two digests of one length give the same integer only if they are equal |
| Seed.DistinctDigestsDistinctSeeds | main.py:12 | passwords with different digests get different seeds |
| ColorShift.ShiftChannel | main.py:23-32 | a shifted channel is in [0, 255] and congruent to `c + s` (forward) or `c - s` (reverse) modulo 256, for any integers |
| ColorShift.ChannelRoundTrip | main.py:25-32 | for c in [0, 255] and any s, un-shifting a shifted channel gives c, and shifting an un-shifted channel gives c |
| ColorShift.ShiftPixel | main.py:23-33 | every channel of a shifted pixel is in [0, 255] |
| ColorShift.ShiftBounds | main.py:19-22 | the draws before pixel k are 3k draws, each of bound 256 (`randint(0, 255)`) |
| ColorShift.PixelShift | main.py:17-22 | each of the three amounts drawn for a pixel is in [0, 255] |
| ColorShift.DrawsFollowEarlierBounds | main.py:17-45 | a witness about the generator model, not the program: some generator gives the shift stage's second draw (after a bound of 256) a different value from a 257-pixel shuffle's second draw (after a bound of 257) |
| ColorShift.Shifted | main.py:15-34 | the shifted list has as many pixels as the input, and every channel is in [0, 255] |
| ColorShift.ShiftColors | main.py:15-34 | the loop returns exactly `Shifted`: pixel k shifted by the amounts drawn after the 3k draws of bound 256 for the earlier pixels |
| ColorShift.ShiftedRoundTrip | main.py:17-32 | with the same seed, un-shifting a shifted list restores it, and vice versa, when all channels are in [0, 255] |
| PixelShuffle.ShuffledIndices | main.py:43-45 | the shuffled `indices` list is a permutation of [0, n) |
| PixelShuffle.Shuffled | main.py:37-57 | width, height and pixel count are kept; forward `out[i] == in[p[i]]`; reverse `out[p[i]] == in[i]` |
| PixelShuffle.ReverseIndices | main.py:49-52 | the scatter loop builds exactly the inverse permutation |
| PixelShuffle.ShufflePixels | main.py:37-57 | the method returns exactly `Shuffled` for the seed and direction |
| PixelShuffle.GatherFisherYates | main.py:54 | gathering through a shuffled index list keeps the multiset of gathered values |
| PixelShuffle.UnshuffleShuffle | main.py:43-54 | with the same seed, un-shuffling a shuffled image restores it, and shuffling an un-shuffled one does too |
| PixelShuffle.ShuffledSameMultiset | main.py:54 | shuffling in either direction only moves pixels: the pixel multiset is unchanged |
| PixelShuffle.ShuffleTrivial | main.py:44-54 | images of zero or one pixel come out unchanged |
| Scrambler.ShuffledInRange | main.py:54-56 | shuffling keeps every channel in [0, 255] |
| Scrambler.Encrypted | main.py:139-146 | shift (when enabled) then shuffle keeps width, height and pixel count, and with shifting every channel is in [0, 255] |
| Scrambler.Decrypted | main.py:160-167 | un-shuffle then un-shift (when enabled) keeps width, height and pixel count, and with shifting every channel is in [0, 255] |
| Scrambler.DecryptEncrypt | main.py:139-167 | for a given seed and flag, decrypt undoes encrypt, and encrypt undoes decrypt, when channels are in [0, 255] |
| Scrambler.StagesKeepDecoded | main.py:139-167 | both pipelines keep width, height, pixel count and channel range, for any seed and flag |
| Scrambler.EncryptImage | main.py:128-146 | the method produces exactly `EncryptResult`: its guards, then the optional shift, then the shuffle |
| Scrambler.DecryptImage | main.py:149-167 | the method produces exactly `DecryptResult`: its guards, then the un-shuffle, then the optional un-shift |
| Scrambler.Rejection | main.py:130-158 | a warning is due exactly when no image is loaded or the password is empty, and it is the missing-image warning when there is no image |
| Scrambler.EncryptResult | main.py:128-147 | encrypt fails exactly on a missing image or empty password; on success the image keeps its width, height and pixel count |
| Scrambler.DecryptResult | main.py:149-169 | decrypt fails exactly on a missing image or empty password; on success the image keeps its width, height and pixel count |
| Scrambler.Guards | main.py:130-158 | encrypt and decrypt each fail exactly when no image is loaded or the password is empty; each reports the missing image first and otherwise the empty password |
| Scrambler.RoundTrip | main.py:128-167 | decrypting the encrypt output of a decoded image, with the same password and flag, gives back the image |
| Scrambler.AnyPasswordDecrypts | main.py:149-167 | decrypting with any non-empty password, right or wrong, succeeds with a decoded image of the same dimensions |

## Left out

- SHA-256 and UTF-8 encoding (main.py:12) are foreign library calls. They are the parameter `Seed.Digest`.
- CPython's Mersenne Twister and its `_randbelow` rejection sampling are not reproduced. `Prng.Source` stands for them. The model reduces the raw output below the bound by `%`, so any source gives in-range draws. Which permutation and which shift amounts come out depends on the real generator, so nothing about concrete outputs is claimed.
- Probabilistic claims are not modelled: that a shuffle of more than one pixel is rarely the identity, and that a wrong password yields a different image. They depend on the real generator.
- The Tkinter UI is not modelled: canvas, buttons, dialogs, message boxes (main.py:60-126, main.py:171-189). The two guards are modelled as the `Error` values.
- Loading from file or URL (main.py:99-119) and saving (main.py:171-183) are I/O and are not modelled.
- PIL image objects are not modelled. `getdata`/`putdata` are the `pixels` field of `Images.Image`. The image mode is always RGB after `convert("RGB")` and is not carried.
- `display_image` shrinks its argument in place with `thumbnail((500, 500))` (main.py:124). Loading passes `self.image` itself to `display_image` (main.py:103-104, main.py:116-117), so a loaded image larger than 500×500 is shrunk, lossily, before anything encrypts it. The model starts from the image as the transform receives it and does not model this resize.
- The application's session state is not modelled. Encrypt writes the shifted pixels back into `self.image` (main.py:144). Decrypt reads `self.image`, not the last encrypted image (main.py:162). The model passes the image to decrypt explicitly.
