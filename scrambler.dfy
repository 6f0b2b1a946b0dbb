/** The encrypt and decrypt operations of the application: their guards, the
    seed derivation and the order of the stages. Encrypt is "shift (when
    colour shifting is enabled), then shuffle"; decrypt is the mirror,
    "un-shuffle, then un-shift". */
module Scrambler {
  import opened Images
  import opened Prng
  import opened Seed
  import opened ColorShift
  import opened PixelShuffle

  datatype Option<T> = None | Some(value: T)

  /** The two warnings the application shows instead of transforming. */
  datatype Error = NoImageLoaded | PasswordRequired

  datatype Result<T> = Ok(value: T) | Err(error: Error)

  /** The encrypt stages for a given seed. The result has the image's width,
      height and pixel count; with colour shifting every channel is in [0, 255]. */
  function Encrypted(src: Source, seed: nat, image: Image, colorShift: bool): (out: Image)
    ensures out.width == image.width && out.height == image.height
    ensures |out.pixels| == |image.pixels|
    ensures colorShift ==> AllInRange(out.pixels)
  {
    var shifted := if colorShift then Image(image.width, image.height, Shifted(src, seed, image.pixels, false))
                   else image;
    assert colorShift ==> AllInRange(Shuffled(src, seed, shifted, false).pixels) by {
      if colorShift {
        ShuffledInRange(src, seed, shifted, false);
      }
    }
    Shuffled(src, seed, shifted, false)
  }

  /** The decrypt stages for a given seed, in mirror order. The result has the
      image's width, height and pixel count; with colour shifting every channel
      is in [0, 255]. */
  function Decrypted(src: Source, seed: nat, image: Image, colorShift: bool): (out: Image)
    ensures out.width == image.width && out.height == image.height
    ensures |out.pixels| == |image.pixels|
    ensures colorShift ==> AllInRange(out.pixels)
  {
    var unshuffled := Shuffled(src, seed, image, true);
    if colorShift then Image(unshuffled.width, unshuffled.height, Shifted(src, seed, unshuffled.pixels, true))
    else unshuffled
  }

  /** Shuffling in either direction keeps every channel of every pixel in [0, 255]. */
  lemma ShuffledInRange(src: Source, seed: nat, image: Image, reverse: bool)
    requires AllInRange(image.pixels)
    ensures AllInRange(Shuffled(src, seed, image, reverse).pixels)
  {
    ShuffledSameMultiset(src, seed, image, reverse);
    var out := Shuffled(src, seed, image, reverse).pixels;
    forall k | 0 <= k < |out| ensures InRange(out[k]) {
      assert out[k] in multiset(out);
      assert out[k] in image.pixels;
    }
  }

  /** Decrypting an encryption with the same seed and flag gives back the image,
      and encrypting a decryption gives back the ciphertext, whenever the
      channels are in [0, 255] (they always are for a decoded RGB image). */
  lemma DecryptEncrypt(src: Source, seed: nat, image: Image, colorShift: bool)
    requires colorShift ==> AllInRange(image.pixels)
    ensures Decrypted(src, seed, Encrypted(src, seed, image, colorShift), colorShift) == image
    ensures Encrypted(src, seed, Decrypted(src, seed, image, colorShift), colorShift) == image
  {
    var shifted := if colorShift then Image(image.width, image.height, Shifted(src, seed, image.pixels, false))
                   else image;
    UnshuffleShuffle(src, seed, shifted);
    var unshuffled := Shuffled(src, seed, image, true);
    UnshuffleShuffle(src, seed, image);
    if colorShift {
      ShiftedRoundTrip(src, seed, image.pixels);
      ShuffledInRange(src, seed, image, true);
      ShiftedRoundTrip(src, seed, unshuffled.pixels);
    }
  }

  /** Both stages keep the image decoded: same width, height and pixel count,
      every channel in [0, 255], whichever seed and flag are used. */
  lemma StagesKeepDecoded(src: Source, seed: nat, image: Image, colorShift: bool)
    requires Decoded(image)
    ensures Decoded(Encrypted(src, seed, image, colorShift))
    ensures Decoded(Decrypted(src, seed, image, colorShift))
    ensures Encrypted(src, seed, image, colorShift).width == image.width
    ensures Encrypted(src, seed, image, colorShift).height == image.height
    ensures Decrypted(src, seed, image, colorShift).width == image.width
    ensures Decrypted(src, seed, image, colorShift).height == image.height
  {
    var shifted := if colorShift then Image(image.width, image.height, Shifted(src, seed, image.pixels, false))
                   else image;
    ShuffledInRange(src, seed, shifted, false);
    ShuffledInRange(src, seed, image, true);
  }

  /** The warning shown instead of transforming, if any: the missing image is
      checked first, then the empty password. */
  function Rejection(image: Option<Image>, password: string): (e: Option<Error>)
    ensures e.Some? <==> image.None? || password == ""
    ensures image.None? ==> e == Some(NoImageLoaded)
  {
    if image.None? then Some(NoImageLoaded)
    else if password == "" then Some(PasswordRequired)
    else None
  }

  /** What `encrypt_image` shows: a warning, or else the encrypted image. */
  function EncryptResult(src: Source, digest: Digest, image: Option<Image>, password: string, colorShift: bool): (r: Result<Image>)
    ensures r.Err? <==> image.None? || password == ""
    ensures r.Ok? ==> r.value.width == image.value.width && r.value.height == image.value.height
    ensures r.Ok? ==> |r.value.pixels| == |image.value.pixels|
  {
    match Rejection(image, password)
    case Some(e) => Err(e)
    case None => Ok(Encrypted(src, GenerateSeed(digest, password), image.value, colorShift))
  }

  /** What `decrypt_image` shows: a warning, or else the decrypted image. */
  function DecryptResult(src: Source, digest: Digest, image: Option<Image>, password: string, colorShift: bool): (r: Result<Image>)
    ensures r.Err? <==> image.None? || password == ""
    ensures r.Ok? ==> r.value.width == image.value.width && r.value.height == image.value.height
    ensures r.Ok? ==> |r.value.pixels| == |image.value.pixels|
  {
    match Rejection(image, password)
    case Some(e) => Err(e)
    case None => Ok(Decrypted(src, GenerateSeed(digest, password), image.value, colorShift))
  }

  /** `encrypt_image`: check the guards, derive the seed, optionally shift the
      colours and put them back into the image, then shuffle. */
  method EncryptImage(src: Source, digest: Digest, image: Option<Image>, password: string, colorShift: bool)
    returns (r: Result<Image>)
    ensures r == EncryptResult(src, digest, image, password, colorShift)
  {
    if image.None? {
      return Err(NoImageLoaded);
    }
    if password == "" {
      return Err(PasswordRequired);
    }
    var seed := GenerateSeed(digest, password);
    var current := image.value;
    if colorShift {
      var shiftedPixels := ShiftColors(src, current.pixels, seed, false);
      current := Image(current.width, current.height, shiftedPixels);
    }
    var encrypted := ShufflePixels(src, current, seed, false);
    r := Ok(encrypted);
  }

  /** `decrypt_image`: check the guards, derive the seed, un-shuffle, then
      optionally un-shift the colours of the un-shuffled image. */
  method DecryptImage(src: Source, digest: Digest, image: Option<Image>, password: string, colorShift: bool)
    returns (r: Result<Image>)
    ensures r == DecryptResult(src, digest, image, password, colorShift)
  {
    if image.None? {
      return Err(NoImageLoaded);
    }
    if password == "" {
      return Err(PasswordRequired);
    }
    var seed := GenerateSeed(digest, password);
    var unshuffled := ShufflePixels(src, image.value, seed, true);
    if colorShift {
      var unshiftedPixels := ShiftColors(src, unshuffled.pixels, seed, true);
      unshuffled := Image(unshuffled.width, unshuffled.height, unshiftedPixels);
    }
    r := Ok(unshuffled);
  }

  /** The guards: both operations refuse exactly when no image is loaded or the
      password is empty, and the missing image is reported first. */
  lemma Guards(src: Source, digest: Digest, image: Option<Image>, password: string, colorShift: bool)
    ensures EncryptResult(src, digest, image, password, colorShift).Err? <==> image.None? || password == ""
    ensures DecryptResult(src, digest, image, password, colorShift).Err? <==> image.None? || password == ""
    ensures image.None? ==> EncryptResult(src, digest, image, password, colorShift) == Err(NoImageLoaded)
    ensures image.None? ==> DecryptResult(src, digest, image, password, colorShift) == Err(NoImageLoaded)
    ensures image.Some? && password == "" ==> EncryptResult(src, digest, image, password, colorShift) == Err(PasswordRequired)
    ensures image.Some? && password == "" ==> DecryptResult(src, digest, image, password, colorShift) == Err(PasswordRequired)
  {
  }

  /** The application-level round trip: decrypting what encrypt produced, with
      the same password and the same colour-shift flag, gives back the decoded
      image exactly. */
  lemma RoundTrip(src: Source, digest: Digest, image: Image, password: string, colorShift: bool)
    requires Decoded(image) && password != ""
    ensures DecryptResult(src, digest, Some(EncryptResult(src, digest, Some(image), password, colorShift).value), password, colorShift)
            == Ok(image)
  {
    var seed := GenerateSeed(digest, password);
    var encrypted := Encrypted(src, seed, image, colorShift);
    assert EncryptResult(src, digest, Some(image), password, colorShift) == Ok(encrypted);
    DecryptEncrypt(src, seed, image, colorShift);
    assert DecryptResult(src, digest, Some(encrypted), password, colorShift) == Ok(Decrypted(src, seed, encrypted, colorShift));
  }

  /** Decrypting a decoded image with any non-empty password, right or wrong,
      succeeds and yields a decoded image of the same dimensions: a wrong
      password or flag is not detected. */
  lemma AnyPasswordDecrypts(src: Source, digest: Digest, image: Image, password: string, colorShift: bool)
    requires Decoded(image) && password != ""
    ensures DecryptResult(src, digest, Some(image), password, colorShift).Ok?
    ensures Decoded(DecryptResult(src, digest, Some(image), password, colorShift).value)
    ensures DecryptResult(src, digest, Some(image), password, colorShift).value.width == image.width
    ensures DecryptResult(src, digest, Some(image), password, colorShift).value.height == image.height
  {
    StagesKeepDecoded(src, GenerateSeed(digest, password), image, colorShift);
  }
}
