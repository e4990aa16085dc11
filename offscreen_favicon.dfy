/** The offscreen document's image processor: the pixel loops that classify an
    icon as dark or light, stretch and halve its alpha channel, and binarise it
    into a 16x16 fingerprint; the load/timeout state machine around one image;
    and the reply envelope sent back to the service worker.

    Pixel buffers are RGBA byte buffers (a `Uint8ClampedArray` in the source):
    pixel p occupies indices 4p .. 4p+3 and index 4p+3 is its alpha byte.
    Decoding an image into such a buffer and encoding a buffer as a PNG data
    URL are left to the caller: buffers are inputs and `encode` is a parameter. */
module OffscreenFavicon {
  import opened Wrappers

  /** What `buildFaviconMetaData` resolves with. */
  datatype FaviconMeta = FaviconMeta(
    favIconUrl: string,
    isDark: bool,
    normalisedDataUrl: string,
    transparentDataUrl: string)

  /** A channel value below this counts as dark, and so does an alpha below it. */
  const DarkLimit: int := 128
  /** The fingerprint canvas is FingerprintSide x FingerprintSide pixels. */
  const FingerprintSide: nat := 16
  /** A fingerprint pixel turns white when its luma exceeds this. */
  const LumaThreshold: int := 80
  /** `buildFaviconMetaData`'s timeout when the request names none, in ms. */
  const DefaultTimeout: int := 5000

  function Max(x: int, y: int): int { if x < y then y else x }

  predicate IsByte(v: int) { 0 <= v <= 255 }

  predicate IsByteBuffer(s: seq<int>) {
    forall i :: 0 <= i < |s| ==> IsByte(s[i])
  }

  /** An RGBA buffer: whole pixels of bytes. */
  predicate IsRgbaBuffer(s: seq<int>) {
    |s| % 4 == 0 && IsByteBuffer(s)
  }

  predicate IsAlphaIndex(i: int) { i % 4 == 3 }

  function Alpha(s: seq<int>, p: nat): int
    requires 4 * p + 3 < |s|
  {
    s[4 * p + 3]
  }

  /** The vote of one pixel: dark when its brightest channel or its alpha is below 128. */
  predicate IsDarkPixel(s: seq<int>, p: nat)
    requires 4 * p + 3 < |s|
  {
    Max(Max(s[4 * p], s[4 * p + 1]), s[4 * p + 2]) < DarkLimit || s[4 * p + 3] < DarkLimit
  }

  /** Number of dark pixels among the first n. */
  function DarkCount(s: seq<int>, n: nat): nat
    requires 4 * n <= |s|
  {
    if n == 0 then 0 else DarkCount(s, n - 1) + (if IsDarkPixel(s, n - 1) then 1 else 0)
  }

  /** Number of light pixels among the first n. */
  function LightCount(s: seq<int>, n: nat): nat
    requires 4 * n <= |s|
  {
    if n == 0 then 0 else LightCount(s, n - 1) + (if IsDarkPixel(s, n - 1) then 0 else 1)
  }

  /** The running maximum of the alpha bytes of the first n pixels, starting from 0. */
  function MaxAlphaOf(s: seq<int>, n: nat): (m: int)
    requires 4 * n <= |s|
    ensures m >= 0
  {
    if n == 0 then 0 else Max(Alpha(s, n - 1), MaxAlphaOf(s, n - 1))
  }

  /** Every pixel gets exactly one vote. */
  lemma {:induction false} VotesPartitionPixels(s: seq<int>, n: nat)
    requires 4 * n <= |s|
    ensures DarkCount(s, n) + LightCount(s, n) == n
  {
    if n > 0 {
      VotesPartitionPixels(s, n - 1);
    }
  }

  /** maxAlpha is the largest alpha byte, and is the alpha of some pixel when there is one. */
  lemma {:induction false} MaxAlphaIsMaximum(s: seq<int>, n: nat)
    requires 4 * n <= |s| && IsByteBuffer(s)
    ensures IsByte(MaxAlphaOf(s, n))
    ensures forall p :: 0 <= p < n ==> Alpha(s, p) <= MaxAlphaOf(s, n)
    ensures n == 0 ==> MaxAlphaOf(s, n) == 0
    ensures n > 0 ==> exists p :: 0 <= p < n && Alpha(s, p) == MaxAlphaOf(s, n)
  {
    if n > 0 {
      MaxAlphaIsMaximum(s, n - 1);
      assert IsByte(Alpha(s, n - 1));
      if MaxAlphaOf(s, n) != Alpha(s, n - 1) {
        var p :| 0 <= p < n - 1 && Alpha(s, p) == MaxAlphaOf(s, n - 1);
        assert Alpha(s, p) == MaxAlphaOf(s, n);
      }
    }
  }

  /** maxAlpha is 0 exactly when every pixel is fully transparent. */
  lemma TransparentIffMaxAlphaZero(s: seq<int>, n: nat)
    requires 4 * n <= |s| && IsByteBuffer(s)
    ensures MaxAlphaOf(s, n) == 0 <==> forall p :: 0 <= p < n ==> Alpha(s, p) == 0
  {
    MaxAlphaIsMaximum(s, n);
    if MaxAlphaOf(s, n) != 0 {
      var p :| 0 <= p < n && Alpha(s, p) == MaxAlphaOf(s, n);
    }
  }

  /** The classification in exact arithmetic. With w*h > 0 pixels the source's
      `(light - dark) / (w * h) + 0.1 < 0` is `10 * (light - dark) + w * h < 0`
      (see IsDarkMatchesFuzzyFormula). */
  predicate IsDarkImage(light: int, dark: int, width: nat, height: nat) {
    10 * (light - dark) + width * height < 0
  }

  /** The source's formula, over the reals, and its integer form agree. */
  lemma IsDarkMatchesFuzzyFormula(light: int, dark: int, width: nat, height: nat)
    requires width * height > 0
    ensures IsDarkImage(light, dark, width, height)
        <==> (light - dark) as real / (width * height) as real + 0.1 < 0.0
  {
    var n := (width * height) as real;
    var d := (light - dark) as real;
    var q := d / n;
    assert q * n == d;
    assert (q + 0.1) * n == d + 0.1 * n;
    SignOfProduct(q + 0.1, n);
  }

  /** The fuzz biases towards "light": an image with no more dark than light
      votes is never dark, and a dark image has strictly more dark votes. */
  lemma IsDarkNeedsDarkMajority(light: nat, dark: nat, width: nat, height: nat)
    requires light + dark == width * height
    ensures IsDarkImage(light, dark, width, height) ==> dark > light
    ensures light >= dark ==> !IsDarkImage(light, dark, width, height)
  {
  }

  /** One alpha byte after stretching: `parseInt(a * (1 / (maxAlpha / 255)))`, read exactly. */
  function NormalisedAlpha(a: int, maxAlpha: int): int
    requires maxAlpha > 0
  {
    a * 255 / maxAlpha
  }

  /** Stretching never lowers an alpha, never leaves the byte range, and sends
      the most opaque pixel to 255. */
  lemma NormalisedAlphaBounds(a: int, maxAlpha: int)
    requires 0 <= a <= maxAlpha <= 255 && maxAlpha > 0
    ensures a <= NormalisedAlpha(a, maxAlpha) <= 255
    ensures a == maxAlpha ==> NormalisedAlpha(a, maxAlpha) == 255
  {
    MulMonotone(255, maxAlpha, a);
    DivLower(a * 255, maxAlpha, a);
    MulMonotone(maxAlpha, a, 255);
    DivUpper(a * 255, maxAlpha, 255);
    if a == maxAlpha {
      DivLower(a * 255, maxAlpha, 255);
    }
  }

  /** The normalised buffer: same colour bytes, each alpha stretched. */
  function Normalised(s: seq<int>, maxAlpha: int): seq<int>
    requires maxAlpha > 0
  {
    seq(|s|, i requires 0 <= i < |s| =>
      if IsAlphaIndex(i) then NormalisedAlpha(s[i], maxAlpha) else s[i])
  }

  /** Alpha halved, rounding down (`parseInt(a * 0.5)` for a byte a). */
  function HalvedAlpha(s: seq<int>): seq<int> {
    seq(|s|, i requires 0 <= i < |s| => if IsAlphaIndex(i) then s[i] / 2 else s[i])
  }

  /** The semi-transparent buffer: the normalised buffer with every alpha halved. */
  function Transparent(s: seq<int>, maxAlpha: int): seq<int>
    requires maxAlpha > 0
  {
    HalvedAlpha(Normalised(s, maxAlpha))
  }

  lemma TransparentAt(s: seq<int>, maxAlpha: int, i: nat)
    requires maxAlpha > 0 && i < |s|
    ensures |Normalised(s, maxAlpha)| == |Transparent(s, maxAlpha)| == |s|
    ensures Transparent(s, maxAlpha)[i]
      == if IsAlphaIndex(i) then Normalised(s, maxAlpha)[i] / 2 else s[i]
  {
  }

  lemma TransparentFromNormalised(s: seq<int>, norm: seq<int>, maxAlpha: int)
    requires maxAlpha > 0 && norm == Normalised(s, maxAlpha)
    ensures |Transparent(s, maxAlpha)| == |norm| == |s|
    ensures forall i :: 0 <= i < |s| ==>
      Transparent(s, maxAlpha)[i] == if IsAlphaIndex(i) then norm[i] / 2 else s[i]
  {
    forall i | 0 <= i < |s|
      ensures Transparent(s, maxAlpha)[i] == if IsAlphaIndex(i) then norm[i] / 2 else s[i]
    {
      TransparentAt(s, maxAlpha, i);
    }
  }

  /** What the two derived buffers are, byte by byte, for the buffer's own maxAlpha. */
  lemma DerivedBuffers(s: seq<int>)
    requires IsRgbaBuffer(s) && MaxAlphaOf(s, |s| / 4) > 0
    ensures var m := MaxAlphaOf(s, |s| / 4);
      && |Normalised(s, m)| == |s| && |Transparent(s, m)| == |s|
      && IsByteBuffer(Normalised(s, m)) && IsByteBuffer(Transparent(s, m))
      && (forall i :: 0 <= i < |s| && !IsAlphaIndex(i) ==>
            Normalised(s, m)[i] == s[i] && Transparent(s, m)[i] == s[i])
      && (forall i :: 0 <= i < |s| && IsAlphaIndex(i) ==>
            s[i] <= Normalised(s, m)[i] <= 255
            && (s[i] == m ==> Normalised(s, m)[i] == 255)
            && Transparent(s, m)[i] == Normalised(s, m)[i] / 2 <= 127)
  {
    var n := |s| / 4;
    var m := MaxAlphaOf(s, n);
    MaxAlphaIsMaximum(s, n);
    forall i | 0 <= i < |s| && IsAlphaIndex(i)
      ensures s[i] <= Normalised(s, m)[i] <= 255
      ensures s[i] == m ==> Normalised(s, m)[i] == 255
    {
      var p := i / 4;
      assert i == 4 * p + 3;
      assert Alpha(s, p) == s[i];
      NormalisedAlphaBounds(s[i], m);
    }
  }

  /** Some pixel of the normalised buffer is fully opaque. */
  lemma NormalisedReachesOpaque(s: seq<int>)
    requires IsRgbaBuffer(s) && MaxAlphaOf(s, |s| / 4) > 0
    ensures exists p :: 0 <= p < |s| / 4 && Alpha(Normalised(s, MaxAlphaOf(s, |s| / 4)), p) == 255
  {
    var n := |s| / 4;
    var m := MaxAlphaOf(s, n);
    MaxAlphaIsMaximum(s, n);
    var p :| 0 <= p < n && Alpha(s, p) == m;
    NormalisedAlphaBounds(s[4 * p + 3], m);
    assert IsAlphaIndex(4 * p + 3);
    assert Alpha(Normalised(s, m), p) == NormalisedAlpha(m, m) == 255;
  }

  /** The first loop of the onload handler: one pass counting dark and light
      votes and finding the maximum alpha. */
  method ScanPixels(data: array<int>) returns (dark: nat, light: nat, maxAlpha: int)
    requires data.Length % 4 == 0
    ensures dark == DarkCount(data[..], data.Length / 4)
    ensures light == LightCount(data[..], data.Length / 4)
    ensures maxAlpha == MaxAlphaOf(data[..], data.Length / 4)
    ensures dark + light == data.Length / 4
    ensures IsByteBuffer(data[..]) ==>
      forall p :: 0 <= p < data.Length / 4 ==> Alpha(data[..], p) <= maxAlpha
  {
    dark, light, maxAlpha := 0, 0, 0;
    var x := 0;
    while x < data.Length
      invariant 0 <= x <= data.Length && x % 4 == 0
      invariant dark == DarkCount(data[..], x / 4)
      invariant light == LightCount(data[..], x / 4)
      invariant maxAlpha == MaxAlphaOf(data[..], x / 4)
    {
      var r, g, b, a := data[x], data[x + 1], data[x + 2], data[x + 3];
      var localMaxRgb := Max(Max(r, g), b);
      assert IsDarkPixel(data[..], x / 4) <==> localMaxRgb < DarkLimit || a < DarkLimit;
      if localMaxRgb < DarkLimit || a < DarkLimit {
        dark := dark + 1;
      } else {
        light := light + 1;
      }
      maxAlpha := Max(a, maxAlpha);
      x := x + 4;
    }
    VotesPartitionPixels(data[..], data.Length / 4);
    if IsByteBuffer(data[..]) {
      MaxAlphaIsMaximum(data[..], data.Length / 4);
    }
  }

  /** A buffer part way through a pixel loop: `target` below byte x, `o` from x on. */
  function Blend(target: seq<int>, o: seq<int>, x: nat): (b: seq<int>)
    requires |target| == |o|
    ensures |b| == |o|
  {
    seq(|o|, i requires 0 <= i < |o| => if i < x then target[i] else o[i])
  }

  /** A copy of `colour` whose alpha bytes are `f` of the alpha bytes of `alpha`. */
  function Rewritten(colour: seq<int>, alpha: seq<int>, f: int -> int): (r: seq<int>)
    requires |alpha| == |colour|
    ensures |r| == |colour|
  {
    seq(|colour|, i requires 0 <= i < |colour| => if IsAlphaIndex(i) then f(alpha[i]) else colour[i])
  }

  /** Writing one pixel's alpha advances an alpha loop by a pixel. */
  lemma RewriteStep(colour: seq<int>, alpha: seq<int>, f: int -> int, p: nat)
    requires |alpha| == |colour| && 4 * p + 4 <= |colour|
    ensures var target := Rewritten(colour, alpha, f); var x := 4 * p;
      Blend(target, colour, x)[x + 3 := f(alpha[x + 3])] == Blend(target, colour, x + 4)
  {
    var x := 4 * p;
    assert IsAlphaIndex(x + 3);
    forall i | x <= i < x + 3
      ensures !IsAlphaIndex(i)
    {
    }
  }

  /** `new Uint8ClampedArray(source)`. */
  method CopyOf(source: array<int>) returns (copy: array<int>)
    ensures fresh(copy) && copy[..] == source[..]
  {
    copy := new int[source.Length];
    forall i | 0 <= i < source.Length {
      copy[i] := source[i];
    }
  }

  /** The shape of both alpha loops: copy `colour`, then overwrite every alpha
      byte with `f` of the same byte of `alpha`. */
  method RewriteAlpha(colour: array<int>, alpha: array<int>, f: int -> int) returns (out: array<int>)
    requires alpha.Length == colour.Length && colour.Length % 4 == 0
    ensures fresh(out)
    ensures out[..] == Rewritten(colour[..], alpha[..], f)
  {
    ghost var c := colour[..];
    ghost var target := Rewritten(c, alpha[..], f);
    out := CopyOf(colour);
    assert out[..] == Blend(target, c, 0);
    var x := 0;
    ghost var p := 0;
    while x < out.Length
      invariant 0 <= x <= out.Length == |c| && x == 4 * p
      invariant out[..] == Blend(target, c, x)
    {
      RewriteStep(c, alpha[..], f, p);
      out[x + 3] := f(alpha[x + 3]);
      x, p := x + 4, p + 1;
    }
    assert out[..] == target;
  }

  /** The second loop: a copy of the source buffer whose alpha bytes are stretched. */
  method NormaliseAlpha(orig: array<int>, maxAlpha: int) returns (normalised: array<int>)
    requires maxAlpha > 0 && orig.Length % 4 == 0
    ensures fresh(normalised)
    ensures normalised[..] == Normalised(orig[..], maxAlpha)
  {
    normalised := RewriteAlpha(orig, orig, a => NormalisedAlpha(a, maxAlpha));
    assert normalised[..] == Normalised(orig[..], maxAlpha);
  }

  /** The third loop: another copy of the source buffer, whose alpha bytes are
      half of the normalised buffer's. */
  method HalveAlpha(orig: array<int>, normalised: array<int>, ghost maxAlpha: int)
      returns (transparent: array<int>)
    requires maxAlpha > 0 && orig.Length % 4 == 0
    requires normalised[..] == Normalised(orig[..], maxAlpha)
    ensures fresh(transparent)
    ensures transparent[..] == Transparent(orig[..], maxAlpha)
  {
    transparent := RewriteAlpha(orig, normalised, a => a / 2);
    TransparentFromNormalised(orig[..], normalised[..], maxAlpha);
    assert transparent[..] == Transparent(orig[..], maxAlpha);
  }

  function TransparentImageError(url: string): string {
    "Aborting favicon generation as image is completely transparent. url: " + url
  }

  function ImageDataError(url: string, cause: string): string {
    "Failed to getImageData for " + url + ". Error: " + cause
  }

  /** The meta the onload handler resolves with for a readable, not fully
      transparent image whose pixels are s. */
  function MetaFor(url: string, s: seq<int>, width: nat, height: nat, encode: seq<int> -> string): FaviconMeta
    requires 4 * (|s| / 4) <= |s| && MaxAlphaOf(s, |s| / 4) > 0
  {
    var n := |s| / 4;
    var m := MaxAlphaOf(s, n);
    FaviconMeta(url, IsDarkImage(LightCount(s, n), DarkCount(s, n), width, height),
                encode(Normalised(s, m)), encode(Transparent(s, m)))
  }

  /** The onload handler of `buildFaviconMetaData` once the image has been drawn:
      `imageData` is what `getImageData` gave (or the error it threw),
      `width` x `height` the canvas size, `encode` the PNG encoder. */
  method ProcessLoadedImage(url: string, imageData: Result<array<int>, string>,
                            width: nat, height: nat, encode: seq<int> -> string)
      returns (r: Result<FaviconMeta, string>)
    requires imageData.Success? ==> imageData.value.Length == 4 * (width * height)
    ensures imageData.Failure? ==> r == Failure(ImageDataError(url, imageData.error))
    ensures imageData.Success? && MaxAlphaOf(imageData.value[..], imageData.value.Length / 4) == 0 ==>
      r == Failure(TransparentImageError(url))
    ensures imageData.Success? && MaxAlphaOf(imageData.value[..], imageData.value.Length / 4) != 0 ==>
      r == Success(MetaFor(url, imageData.value[..], width, height, encode))
  {
    if imageData.Failure? {
      return Failure(ImageDataError(url, imageData.error));
    }
    var data := imageData.value;
    assert data.Length / 4 == width * height;
    var dark, light, maxAlpha := ScanPixels(data);
    if maxAlpha == 0 {
      return Failure(TransparentImageError(url));
    }
    var isDark := 10 * (light - dark) + width * height < 0;
    var normalised := NormaliseAlpha(data, maxAlpha);
    var transparent := HalveAlpha(data, normalised, maxAlpha);
    var normalisedDataUrl := encode(normalised[..]);
    var transparentDataUrl := encode(transparent[..]);
    r := Success(FaviconMeta(url, isDark, normalisedDataUrl, transparentDataUrl));
  }

  /** A processed icon is dark only if most of its pixels voted dark; a fully
      transparent icon never yields a meta. */
  lemma ProcessedMetaClassification(url: string, s: seq<int>, width: nat, height: nat, encode: seq<int> -> string)
    requires |s| == 4 * (width * height) && MaxAlphaOf(s, |s| / 4) > 0
    ensures MetaFor(url, s, width, height, encode).isDark ==> DarkCount(s, |s| / 4) > LightCount(s, |s| / 4)
    ensures width * height > 0
  {
    var n := |s| / 4;
    assert n == width * height;
    VotesPartitionPixels(s, n);
    IsDarkNeedsDarkMajority(LightCount(s, n), DarkCount(s, n), width, height);
  }

  // ---------------------------------------------------------------------
  // Fingerprints

  /** Luma with the weights 0.3, 0.59, 0.11 (rounded ITU-R BT.601), floored. */
  function Luma(r: int, g: int, b: int): int {
    (30 * r + 59 * g + 11 * b) / 100
  }

  /** The integer luma is the floor of the source's weighted sum, read over the reals. */
  lemma LumaIsFlooredWeightedSum(r: int, g: int, b: int)
    requires IsByte(r) && IsByte(g) && IsByte(b)
    ensures Luma(r, g, b) == (0.3 * r as real + 0.59 * g as real + 0.11 * b as real).Floor
  {
    var t := 30 * r + 59 * g + 11 * b;
    var q := t / 100;
    var x := 0.3 * r as real + 0.59 * g as real + 0.11 * b as real;
    assert x == t as real / 100.0;
    assert q as real <= x < q as real + 1.0;
  }

  /** The byte a pixel's colour channels become: 255 (white) when its luma is above 80, else 0. */
  function PixelColour(r: int, g: int, b: int): int {
    if Luma(r, g, b) > LumaThreshold then 255 else 0
  }

  /** One fingerprint pixel: black or white by its luma, fully opaque. */
  function BinaryPixel(r: int, g: int, b: int): seq<int> {
    var v := PixelColour(r, g, b);
    [v, v, v, 255]
  }

  /** The buffer the fingerprint loop leaves behind: each pixel white
      (255,255,255,255) or black (0,0,0,255) by its luma. */
  function Binarised(s: seq<int>): (t: seq<int>)
    requires |s| % 4 == 0
    ensures |t| == |s|
    decreases |s|
  {
    if |s| == 0 then [] else BinaryPixel(s[0], s[1], s[2]) + Binarised(s[4..])
  }

  /** Each fingerprint pixel has its three colour bytes equal to the source
      pixel's colour and is fully opaque. */
  lemma {:induction false} BinarisedPixel(s: seq<int>, p: nat)
    requires |s| % 4 == 0 && 4 * p + 3 < |s|
    ensures var k := 4 * p; var t := Binarised(s); var v := PixelColour(s[k], s[k + 1], s[k + 2]);
      t[k] == v && t[k + 1] == v && t[k + 2] == v && t[k + 3] == 255
    decreases p
  {
    var t := Binarised(s);
    assert t == BinaryPixel(s[0], s[1], s[2]) + Binarised(s[4..]);
    if p > 0 {
      var k := 4 * p;
      var rest := s[4..];
      BinarisedPixel(rest, p - 1);
      assert rest[k - 4] == s[k] && rest[k - 3] == s[k + 1] && rest[k - 2] == s[k + 2];
      assert t[k] == Binarised(rest)[k - 4] && t[k + 1] == Binarised(rest)[k - 3];
      assert t[k + 2] == Binarised(rest)[k - 2] && t[k + 3] == Binarised(rest)[k - 1];
    }
  }

  /** A pixel turns white exactly when its luma exceeds the threshold, and black otherwise. */
  lemma PixelColourIsBlackOrWhite(r: int, g: int, b: int)
    ensures PixelColour(r, g, b) == 0 || PixelColour(r, g, b) == 255
    ensures PixelColour(r, g, b) == 255 <==> Luma(r, g, b) > LumaThreshold
  {
  }

  lemma BinaryColourFixed(v: int)
    requires v == 0 || v == 255
    ensures PixelColour(v, v, v) == v
  {
  }

  /** Fingerprinting an already binarised buffer leaves it unchanged. */
  lemma {:induction false} BinarisedIdempotent(s: seq<int>)
    requires |s| % 4 == 0
    ensures Binarised(Binarised(s)) == Binarised(s)
    decreases |s|
  {
    if |s| > 0 {
      var t := Binarised(s);
      var v := PixelColour(s[0], s[1], s[2]);
      assert t == BinaryPixel(s[0], s[1], s[2]) + Binarised(s[4..]);
      assert t[4..] == Binarised(s[4..]);
      assert t[0] == v && t[1] == v && t[2] == v;
      BinaryColourFixed(v);
      BinarisedIdempotent(s[4..]);
    }
  }

  /** Writing a whole pixel of `target` advances a pixel loop by a pixel. */
  lemma PixelStep(target: seq<int>, o: seq<int>, p: nat)
    requires |target| == |o| && 4 * p + 4 <= |o|
    ensures var x := 4 * p;
      Blend(target, o, x)[x := target[x]][x + 1 := target[x + 1]][x + 2 := target[x + 2]][x + 3 := target[x + 3]]
        == Blend(target, o, x + 4)
  {
  }

  /** The fingerprint loop: rewrites the 16x16 canvas buffer in place. */
  method Binarise(data: array<int>)
    requires data.Length == 4 * FingerprintSide * FingerprintSide
    modifies data
    ensures data[..] == Binarised(old(data[..]))
  {
    ghost var orig := data[..];
    assert data[..] == Blend(Binarised(orig), orig, 0);
    var i := 0;
    ghost var p := 0;
    while i < data.Length
      invariant 0 <= i <= data.Length && i == 4 * p
      invariant data[..] == Blend(Binarised(orig), orig, i)
    {
      var v := PixelColour(data[i], data[i + 1], data[i + 2]);
      BinarisedPixel(orig, p);
      PixelStep(Binarised(orig), orig, p);
      data[i], data[i + 1], data[i + 2] := v, v, v;
      data[i + 3] := 255;
      i, p := i + 4, p + 1;
    }
    assert data[..] == Binarised(orig);
  }

  function FingerprintLoadError(dataUrl: string): string {
    "Failed to load image for fingerprinting from: "
      + (if |dataUrl| <= 100 then dataUrl else dataUrl[..100]) + "..."
  }

  /** `createImageFingerprint`: `canvas` is the 16x16 buffer the loaded image
      was drawn into, or None when the image failed to load. */
  method CreateImageFingerprint(dataUrl: string, canvas: Option<array<int>>, encode: seq<int> -> string)
      returns (r: Result<string, string>)
    requires canvas.Some? ==> canvas.value.Length == 4 * FingerprintSide * FingerprintSide
    modifies if canvas.Some? then {canvas.value} else {}
    ensures canvas.None? ==> r == Failure(FingerprintLoadError(dataUrl))
    ensures canvas.Some? ==>
      canvas.value[..] == Binarised(old(canvas.value[..])) && r == Success(encode(canvas.value[..]))
  {
    if canvas.None? {
      return Failure(FingerprintLoadError(dataUrl));
    }
    Binarise(canvas.value);
    r := Success(encode(canvas.value[..]));
  }

  // ---------------------------------------------------------------------
  // Loading one image: imageLoaded flag, timer, and a promise settled once

  datatype Settlement = Pending | Resolved(meta: FaviconMeta) | Rejected(error: string)

  function SettlementOf(r: Result<FaviconMeta, string>): Settlement {
    if r.Success? then Resolved(r.value) else Rejected(r.error)
  }

  /** One call of `buildFaviconMetaData`: the image's handlers and the timeout
      timer all settle the same promise, and only the first settlement counts. */
  class ImageLoad {
    const url: string
    const timeout: int
    var imageLoaded: bool
    var timerArmed: bool
    var state: Settlement

    /** After `img.src = url` and `setTimeout`: nothing has fired yet. */
    constructor (url: string, requestedTimeout: Option<int>)
      ensures this.url == url && timeout == requestedTimeout.GetOr(DefaultTimeout)
      ensures !imageLoaded && timerArmed && state == Pending
    {
      this.url := url;
      timeout := requestedTimeout.GetOr(DefaultTimeout);
      imageLoaded := false;
      timerArmed := true;
      state := Pending;
    }

    method Settle(r: Result<FaviconMeta, string>)
      modifies this`state
      ensures state == if old(state) == Pending then SettlementOf(r) else old(state)
    {
      if state == Pending {
        state := SettlementOf(r);
      }
    }

    /** `img.onload`: clears the timer, marks the image loaded and settles with
      the result of processing it (see ProcessLoadedImage). */
    method OnLoad(processed: Result<FaviconMeta, string>)
      modifies this
      ensures !timerArmed && imageLoaded
      ensures state == if old(state) == Pending then SettlementOf(processed) else old(state)
    {
      timerArmed := false;
      imageLoaded := true;
      Settle(processed);
    }

    /** `img.onerror`: marks the image loaded (the timer stays armed) and rejects. */
    method OnError()
      modifies this
      ensures imageLoaded && timerArmed == old(timerArmed)
      ensures state == if old(state) == Pending
                       then Rejected("Failed to load image (onerror) from: " + url)
                       else old(state)
    {
      imageLoaded := true;
      Settle(Failure("Failed to load image (onerror) from: " + url));
    }

    /** The timer callback; a cleared timer never fires, and it fires once. It
      rejects only when neither onload nor onerror has run. */
    method OnTimer()
      modifies this
      ensures !timerArmed && imageLoaded == old(imageLoaded)
      ensures state == if old(timerArmed) && !old(imageLoaded) && old(state) == Pending
                       then Rejected("Image load timed out for: " + url)
                       else old(state)
    {
      if timerArmed {
        timerArmed := false;
        if !imageLoaded {
          Settle(Failure("Image load timed out for: " + url));
        }
      }
    }
  }

  /** A load followed by the timer: the timer has no effect. */
  method LoadThenTimer(url: string, processed: Result<FaviconMeta, string>) returns (outcome: Settlement)
    ensures outcome == SettlementOf(processed)
  {
    var load := new ImageLoad(url, None);
    load.OnLoad(processed);
    load.OnTimer();
    outcome := load.state;
  }

  /** An error followed by the timer: the error's rejection stands. */
  method ErrorThenTimer(url: string) returns (outcome: Settlement)
    ensures outcome == Rejected("Failed to load image (onerror) from: " + url)
  {
    var load := new ImageLoad(url, None);
    load.OnError();
    load.OnTimer();
    outcome := load.state;
  }

  // ---------------------------------------------------------------------
  // The message listener and its reply envelope

  /** `{success: true, data}` or `{success: false, error}`. */
  datatype Reply<T> = SuccessReply(data: T) | ErrorReply(error: string)

  /** `String(new Error(message))`. */
  function ErrorString(message: string): string { "Error: " + message }

  function ReplyFor<T>(r: Result<T, string>): (reply: Reply<T>)
    ensures reply.SuccessReply? <==> r.Success?
    ensures r.Success? ==> reply.data == r.value
    ensures r.Failure? ==> reply.error == ErrorString(r.error)
  {
    match r
    case Success(v) => SuccessReply(v)
    case Failure(e) => ErrorReply(ErrorString(e))
  }

  datatype Request =
    | BuildFaviconMetaDataRequest(url: string, timeout: Option<int>)
    | CreateImageFingerprintRequest(dataUrl: string)
    | OtherRequest(action: string)

  /** What the listener sends back: nothing for an unknown action. */
  datatype ListenerReply =
    | NoReply
    | MetaReply(meta: Reply<FaviconMeta>)
    | FingerprintReply(fingerprint: Reply<string>)

  /** The listener, given the settled promise of whichever operation the
      request starts. keepOpen is the listener's return value (true: the reply
      is sent asynchronously). */
  function HandleRequest(request: Request, built: Result<FaviconMeta, string>,
                         fingerprinted: Result<string, string>): (out: (ListenerReply, bool))
    ensures out.1 <==> !request.OtherRequest?
    ensures request.OtherRequest? ==> out.0 == NoReply
    ensures request.BuildFaviconMetaDataRequest? ==>
      out.0.MetaReply? && (out.0.meta.SuccessReply? <==> built.Success?)
    ensures request.BuildFaviconMetaDataRequest? ==> out.0 == MetaReply(ReplyFor(built))
    ensures request.CreateImageFingerprintRequest? ==>
      out.0.FingerprintReply? && (out.0.fingerprint.SuccessReply? <==> fingerprinted.Success?)
    ensures request.CreateImageFingerprintRequest? ==> out.0 == FingerprintReply(ReplyFor(fingerprinted))
  {
    match request
    case BuildFaviconMetaDataRequest(_, _) => (MetaReply(ReplyFor(built)), true)
    case CreateImageFingerprintRequest(_) => (FingerprintReply(ReplyFor(fingerprinted)), true)
    case OtherRequest(_) => (NoReply, false)
  }

  // ---------------------------------------------------------------------
  // Arithmetic helpers

  lemma MulMonotone(a: int, b: int, m: int)
    requires m >= 0
    ensures a >= b ==> a * m >= b * m
  {
    if a >= b {
      assert a * m - b * m == (a - b) * m;
    }
  }

  lemma DivLower(t: int, m: int, k: int)
    requires m > 0 && k * m <= t
    ensures k <= t / m
  {
    var q := t / m;
    assert q * m + t % m == t;
    MulMonotone(q + 1, k, m);
    assert (q + 1) * m == q * m + m;
  }

  lemma DivUpper(t: int, m: int, k: int)
    requires m > 0 && t < (k + 1) * m
    ensures t / m <= k
  {
    var q := t / m;
    assert q * m + t % m == t;
    MulMonotone(q, k + 1, m);
  }

  lemma SignOfProduct(x: real, n: real)
    requires n > 0.0
    ensures x < 0.0 ==> x * n < 0.0
    ensures x >= 0.0 ==> x * n >= 0.0
  {
  }
}
