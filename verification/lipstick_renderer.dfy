/** `LipstickRenderer.apply_lipstick` and its helpers, pixel by pixel.

    Every OpenCV neighbourhood operator is an input: the erosions, blurs and
    smoothings of the mask arrive per pixel in a `Neighbourhood`, and the 3×3
    blur of the lips-only plane (the one blur applied to values computed
    here) is the parameter `blur3`.  Colour-space conversion is the pair of
    parameters `toHsv`/`toRgb`.  Images are in OpenCV's BGR channel order. */
module LipstickRenderer {
  import opened Basics
  import opened Bits

  datatype Rgb = Rgb(r: int, g: int, b: int)

  /** OpenCV's 8-bit HSV: hue on a 0–180 scale, saturation and value 0–255. */
  datatype Hsv = Hsv(h: int, s: int, v: int)

  /** An image pixel, blue first. */
  datatype Bgr = Bgr(b: int, g: int, r: int)

  datatype Texture = Matte | Gloss | Velvet

  type Image = seq<seq<Bgr>>

  /** A single-channel 8-bit mask. */
  type Mask = seq<seq<int>>

  /** A value per colour channel, in BGR order. */
  datatype Triple = Triple(c0: real, c1: real, c2: real)

  predicate IsRgb(c: Rgb) {
    IsByte(c.r) && IsByte(c.g) && IsByte(c.b)
  }

  predicate IsHsv(c: Hsv) {
    IsByte(c.h) && IsByte(c.s) && IsByte(c.v)
  }

  predicate IsBgr(p: Bgr) {
    IsByte(p.b) && IsByte(p.g) && IsByte(p.r)
  }

  function Channel(p: Bgr, k: nat): int
    requires k < 3
  {
    if k == 0 then p.b else if k == 1 then p.g else p.r
  }

  function TripleAt(t: Triple, k: nat): real
    requires k < 3
  {
    if k == 0 then t.c0 else if k == 1 then t.c1 else t.c2
  }

  /** A rectangular 8-bit image. */
  predicate IsImage(img: Image) {
    (forall r :: 0 <= r < |img| ==> |img[r]| == |img[0]|) &&
    (forall r, c :: 0 <= r < |img| && 0 <= c < |img[r]| ==> IsBgr(img[r][c]))
  }

  /** A rectangular 8-bit mask. */
  predicate IsMask(mask: Mask) {
    (forall r :: 0 <= r < |mask| ==> |mask[r]| == |mask[0]|) &&
    (forall r, c :: 0 <= r < |mask| && 0 <= c < |mask[r]| ==> IsByte(mask[r][c]))
  }

  /** `mask.size == 0`. */
  predicate MaskEmpty(mask: Mask) {
    |mask| == 0 || |mask[0]| == 0
  }

  predicate SameShape(img: Image, mask: Mask) {
    |img| == |mask| && forall r :: 0 <= r < |img| ==> |img[r]| == |mask[r]|
  }

  // ---------------------------------------------------------------------------
  // Colour enhancement

  /** The red band of OpenCV's hue scale. */
  predicate InRedBand(h: int) {
    (0 <= h <= 20) || (160 <= h <= 180)
  }

  /** The saturation/value boost of `apply_lipstick`: saturation ×1.3 in the
      red band and ×1.2 elsewhere, value ×1.1, each truncated and capped at 255. */
  function BoostHsv(c: Hsv): (d: Hsv)
    requires IsHsv(c)
    ensures IsHsv(d)
    ensures d.h == c.h
    ensures InRedBand(c.h) ==> d.s == MinInt(255, 13 * c.s / 10)
    ensures !InRedBand(c.h) ==> d.s == MinInt(255, 12 * c.s / 10)
    ensures d.v == MinInt(255, 11 * c.v / 10)
    ensures c.s <= d.s && c.v <= d.v
  {
    var s := if InRedBand(c.h) then MinInt(255, Trunc(c.s as real * 1.3)) else MinInt(255, Trunc(c.s as real * 1.2));
    var v := MinInt(255, Trunc(c.v as real * 1.1));
    Hsv(c.h, s, v)
  }

  /** The colour plane actually painted: boosted in HSV, converted back, and
      reordered to BGR. */
  function EnhancedColour(colour: Rgb, toHsv: Rgb -> Hsv, toRgb: Hsv -> Rgb): (layer: Bgr)
    requires IsHsv(toHsv(colour))
    ensures var e := toRgb(BoostHsv(toHsv(colour))); layer.b == e.b && layer.g == e.g && layer.r == e.r
  {
    var e := toRgb(BoostHsv(toHsv(colour)));
    Bgr(e.b, e.g, e.r)
  }

  /** `min(1.0, opacity * 1.2)`. */
  function EnhancedOpacity(opacity: real): (o: real)
    ensures o <= 1.0
    ensures 0.0 <= opacity ==> 0.0 <= o
    ensures opacity <= 1.0 ==> opacity <= o || opacity < 0.0
    ensures o == 1.0 || o == opacity * 1.2
    ensures opacity * 1.2 >= 1.0 ==> o == 1.0
    ensures opacity * 1.2 < 1.0 ==> o == opacity * 1.2
  {
    MinReal(1.0, opacity * 1.2)
  }

  /** The texture branch taken for a texture name: anything other than
      "gloss" or "velvet" is matte. */
  function TextureOf(name: string): (t: Texture)
    ensures t == Gloss <==> name == "gloss"
    ensures t == Velvet <==> name == "velvet"
    ensures t == Matte <==> name != "gloss" && name != "velvet"
  {
    if name == "matte" then Matte
    else if name == "gloss" then Gloss
    else if name == "velvet" then Velvet
    else Matte
  }

  // ---------------------------------------------------------------------------
  // Mask refinement

  /** `cv2.threshold(mask, 127, 255, THRESH_BINARY)`: strictly above 127 becomes 255. */
  function Binary(v: int): int {
    if v > 127 then 255 else 0
  }

  /** OpenCV's `cvRound`: to the nearest integer, halves to the even one. */
  function RoundHalfEven(x: real): (n: int)
    ensures x - 0.5 <= n as real <= x + 0.5
  {
    var f := x.Floor;
    var frac := x - f as real;
    if frac < 0.5 then f
    else if frac > 0.5 then f + 1
    else if f % 2 == 0 then f else f + 1
  }

  /** `cv2.addWeighted(a, 0.7, b, 0.3, 0)` on 8-bit values, saturating. */
  function AddWeighted(a: int, b: int): (w: int)
    requires IsByte(a) && IsByte(b)
    ensures IsByte(w)
    ensures MinInt(a, b) <= w <= MaxInt(a, b)
    ensures a as real * 0.7 + b as real * 0.3 - 0.5 <= w as real <= a as real * 0.7 + b as real * 0.3 + 0.5
  {
    var x := a as real * 0.7 + b as real * 0.3;
    ConvexBetween(a as real, b as real, 0.3);
    assert a as real * (1.0 - 0.3) == a as real * 0.7;
    var n := RoundHalfEven(x);
    if n < 0 then 0 else if n > 255 then 255 else n
  }

  /** What the OpenCV operators of `_refine_mask` produce at one pixel:
      `eroded` is the binary mask eroded twice, `blurred` the 7×7 Gaussian
      blur of the mask and `smoothed` the box blur of that. */
  datatype Neighbourhood = Neighbourhood(
    eroded: int, smoothed: int, blurred: int,
    /** The 15×15 Gaussian blur of the refined mask (the skin-blend weight). */
    skinBlur: int,
    /** The matte noise sample, per channel. */
    noise: Triple,
    /** Gloss: distance of the pixel from the highlight centre, and the highlight radius. */
    centreDistance: real, highlightRadius: real,
    /** Velvet: the normalised texture value at the pixel. */
    velvetTexture: real)

  /** Erosion of a binary image yields a binary image inside it. */
  predicate ErosionWithin(maskValue: int, eroded: int) {
    eroded == 0 || (eroded == 255 && Binary(maskValue) == 255)
  }

  predicate WellFormed(nb: Neighbourhood, maskValue: int) {
    && IsByte(nb.eroded) && IsByte(nb.smoothed) && IsByte(nb.blurred) && IsByte(nb.skinBlur)
    && ErosionWithin(maskValue, nb.eroded)
    && nb.highlightRadius > 0.0 && nb.centreDistance >= 0.0
  }

  /** `_refine_mask` at one pixel: the eroded core, OR-ed with a weighted mix
      of the two blurs restricted (by AND) to the edge ring `binary XOR eroded`. */
  function RefinedMaskValue(maskValue: int, eroded: int, smoothed: int, blurred: int): (v: int)
    requires IsByte(maskValue) && IsByte(eroded) && IsByte(smoothed) && IsByte(blurred)
    ensures IsByte(v)
    ensures ErosionWithin(maskValue, eroded) && maskValue <= 127 ==> v == 0
    ensures eroded == 255 ==> v == 255
    ensures ErosionWithin(maskValue, eroded) && maskValue > 127 && eroded == 0 ==>
              v == AddWeighted(smoothed, blurred)
  {
    var binary := Binary(maskValue);
    var edge := BitXor(binary, eroded);
    BytesClosed(binary, eroded);
    BytesClosed(edge, smoothed);
    BytesClosed(edge, blurred);
    var gradientEdge := AddWeighted(BitAnd(edge, smoothed), BitAnd(edge, blurred));
    BytesClosed(eroded, gradientEdge);
    ByteIdentities(smoothed);
    ByteIdentities(blurred);
    ByteIdentities(gradientEdge);
    BinaryXor();
    BitOr(eroded, gradientEdge)
  }

  /** The box-blur kernel size of `_refine_mask`: `max(3, min(h, w) // 50)`, made odd. */
  function SmoothingKernelSize(height: nat, width: nat): (k: nat)
    ensures k % 2 == 1 && k >= 3
    ensures k == MaxInt(3, MinInt(height, width) / 50) || k == MaxInt(3, MinInt(height, width) / 50) + 1
  {
    var size := MaxInt(3, MinInt(height, width) / 50);
    if size % 2 == 1 then size else size + 1
  }

  // ---------------------------------------------------------------------------
  // Per-channel blend formulas

  /** `image * (1 - mask*opacity) + color * (mask*opacity)`. */
  function BaseBlend(i: real, c: real, m: real, o: real): real {
    i * (1.0 - m * o) + c * (m * o)
  }

  /** For mask and opacity in [0,1] the base blend lies between the image
      value and the colour value. */
  lemma BaseBlendBetween(i: real, c: real, m: real, o: real)
    requires InUnit(m) && InUnit(o)
    ensures Between(BaseBlend(i, c, m, o), i, c)
  {
    NonNegativeProduct(m, o);
    assert m * o <= 1.0 by {
      NonNegativeProduct(1.0 - m, o);
      NonNegativeProduct(1.0 - o, 1.0);
    }
    ConvexBetween(i, c, m * o);
  }

  /** `apply_matte_effect`: the base blend plus noise scaled by `mask * 0.05`, clipped. */
  function MatteChannel(i: real, c: real, m: real, o: real, noise: real): (v: real)
    ensures 0.0 <= v <= 255.0
    ensures m == 0.0 && 0.0 <= i <= 255.0 ==> v == i
  {
    Clip(BaseBlend(i, c, m, o) + noise * m * 0.05, 0.0, 255.0)
  }

  /** The matte noise is gated by the mask alone: at zero opacity no colour
      is laid down, yet a covered pixel still moves by the noise term. */
  lemma MatteNoiseIgnoresOpacity(i: real, c: real, m: real, noise: real)
    requires m > 0.0 && 0.0 <= i + noise * m * 0.05 <= 255.0
    ensures MatteChannel(i, c, m, 0.0, noise) == i + noise * m * 0.05
    ensures noise != 0.0 ==> MatteChannel(i, c, m, 0.0, noise) != i
  {
    assert BaseBlend(i, c, m, 0.0) == i;
  }

  /** `0.35 - (brightness / 255) * 0.15`. */
  function HighlightStrength(brightness: real): (s: real)
    ensures 0.0 <= brightness <= 255.0 ==> 0.20 <= s <= 0.35
  {
    0.35 - (brightness / 255.0) * 0.15
  }

  /** A brighter colour never receives a stronger highlight. */
  lemma HighlightWeakensWithBrightness(b1: real, b2: real)
    requires b1 <= b2
    ensures HighlightStrength(b2) <= HighlightStrength(b1)
  {
  }

  /** The mean of the colour plane. */
  function Brightness(c: Bgr): real {
    (c.b + c.g + c.r) as real / 3.0
  }

  /** `clip(1 - dist / max_dist, 0, 1)`. */
  function HighlightGradient(distance: real, radius: real): (g: real)
    requires radius > 0.0
    ensures InUnit(g)
    ensures distance <= 0.0 ==> g == 1.0
    ensures distance >= radius ==> g == 0.0
  {
    Clip(1.0 - distance / radius, 0.0, 1.0)
  }

  /** The gloss value before the blur: the base blend mixed toward white by
      `gradient * mask * strength`. */
  function GlossLit(i: real, c: real, m: real, o: real, gradient: real, strength: real): real {
    var weight := gradient * m * strength;
    BaseBlend(i, c, m, o) * (1.0 - weight) + 255.0 * weight
  }

  /** The highlight only brightens, and never beyond white. */
  lemma GlossLitBrightens(i: real, c: real, m: real, o: real, gradient: real, strength: real)
    requires InUnit(m) && InUnit(o) && InUnit(gradient) && InUnit(strength)
    requires 0.0 <= i <= 255.0 && 0.0 <= c <= 255.0
    ensures BaseBlend(i, c, m, o) <= GlossLit(i, c, m, o, gradient, strength) <= 255.0
  {
    BaseBlendBetween(i, c, m, o);
    var w := gradient * m * strength;
    NonNegativeProduct(gradient, m);
    NonNegativeProduct(gradient * m, strength);
    assert gradient * m <= 1.0 by {
      NonNegativeProduct(1.0 - gradient, m);
      NonNegativeProduct(1.0 - m, 1.0);
    }
    assert w <= 1.0 by {
      NonNegativeProduct(1.0 - gradient * m, strength);
      NonNegativeProduct(1.0 - strength, 1.0);
    }
    ConvexBetween(BaseBlend(i, c, m, o), 255.0, w);
  }

  /** `np.where(mask > 0.1, value, 0)`. */
  function LipsOnly(value: real, m: real): real {
    if m > 0.1 then value else 0.0
  }

  /** `np.where(mask > 0.1, 1.0, 0.0)`. */
  function LipWeight(m: real): real {
    if m > 0.1 then 1.0 else 0.0
  }

  /** `apply_gloss_effect`'s final composite of the image with the blurred lips. */
  function GlossChannel(i: real, m: real, blurredLips: real): (v: real)
    ensures m <= 0.1 ==> v == i
    ensures m > 0.1 ==> v == blurredLips
  {
    i * (1.0 - LipWeight(m)) + blurredLips * LipWeight(m)
  }

  /** The velvet base: the colour darkened to 85% and blended at the opacity
      boosted a second time. */
  function VelvetBlend(i: real, c: real, m: real, o: real): real {
    BaseBlend(i, c * 0.85, m, EnhancedOpacity(o))
  }

  /** Velvet applies the 1.2 boost to an opacity already boosted once. */
  lemma VelvetOpacityBoostedTwice(opacity: real)
    requires opacity >= 0.0
    ensures EnhancedOpacity(EnhancedOpacity(opacity)) == MinReal(1.0, opacity * 1.44)
  {
  }

  /** `blended * (1.0 - texture_mask) + blended * (1.06 + texture_mask)`. */
  function VelvetLit(blended: real, texture: real, m: real): real {
    var textureMask := texture * m * 0.15;
    blended * (1.0 - textureMask) + blended * (1.06 + textureMask)
  }

  /** The texture term cancels: velvet scales the blend by 2.06 whatever the
      texture field holds. */
  lemma VelvetTextureCancels(blended: real, texture: real, m: real)
    ensures VelvetLit(blended, texture, m) == blended * 2.06
  {
  }

  /** `apply_velvet_effect`'s softening (60% sharp, 40% blurred), composite
      with the image and clip. */
  function VelvetChannel(i: real, m: real, lips: real, blurredLips: real): (v: real)
    ensures 0.0 <= v <= 255.0
    ensures m <= 0.1 && 0.0 <= i <= 255.0 ==> v == i
  {
    var soft := lips * 0.6 + blurredLips * 0.4;
    Clip(i * (1.0 - LipWeight(m)) + soft * LipWeight(m), 0.0, 255.0)
  }

  /** `_blend_lips_with_skin` at one channel: the blurred refined mask is the
      weight, and the result is truncated to 8 bits. */
  function SkinBlend(original: int, lipstick: int, blurredMask: int): (v: int)
    requires IsByte(original) && IsByte(lipstick) && IsByte(blurredMask)
    ensures MinInt(original, lipstick) <= v <= MaxInt(original, lipstick)
    ensures blurredMask == 0 ==> v == original
    ensures blurredMask == 255 ==> v == lipstick
  {
    var w := blurredMask as real / 255.0;
    ConvexBetween(original as real, lipstick as real, w);
    (original as real * (1.0 - w) + lipstick as real * w).Floor
  }

  // ---------------------------------------------------------------------------
  // apply_lipstick

  /** The refined mask at a pixel, normalised to [0,1]. */
  function Coverage(maskValue: int, nb: Neighbourhood): (m: real)
    requires IsByte(maskValue) && WellFormed(nb, maskValue)
    ensures InUnit(m)
  {
    RefinedMaskValue(maskValue, nb.eroded, nb.smoothed, nb.blurred) as real / 255.0
  }

  /** The value a texture writes into the lips-only plane before the 3×3 blur. */
  function LitValue(t: Texture, i: real, c: real, m: real, o: real, brightness: real, nb: Neighbourhood): real
    requires nb.highlightRadius > 0.0
  {
    match t
    case Matte => 0.0
    case Gloss =>
      GlossLit(i, c, m, o, HighlightGradient(nb.centreDistance, nb.highlightRadius), HighlightStrength(brightness))
    case Velvet => VelvetLit(VelvetBlend(i, c, m, o), nb.velvetTexture, m)
  }

  /** The texture compositor's float output at one channel, before the 8-bit cast. */
  function TextureValue(t: Texture, i: real, c: real, m: real, o: real, brightness: real,
                        nb: Neighbourhood, noise: real, blurredLips: real): real
    requires nb.highlightRadius > 0.0
  {
    match t
    case Matte => MatteChannel(i, c, m, o, noise)
    case Gloss => GlossChannel(i, m, blurredLips)
    case Velvet => VelvetChannel(i, m, LipsOnly(LitValue(t, i, c, m, o, brightness, nb), m), blurredLips)
  }

  /** The inputs every pixel of one render shares. */
  datatype Paint = Paint(colour: Bgr, texture: Texture, opacity: real)

  predicate RenderReady(img: Image, mask: Mask, env: (nat, nat) -> Neighbourhood) {
    && IsImage(img) && IsMask(mask) && SameShape(img, mask)
    && forall r, c :: 0 <= r < |img| && 0 <= c < |img[r]| ==> WellFormed(env(r, c), mask[r][c])
  }

  /** The lips-only plane of channel `k`, the input of the 3×3 blur. */
  function LipsPlane(img: Image, mask: Mask, paint: Paint, env: (nat, nat) -> Neighbourhood, k: nat)
    : (plane: seq<seq<real>>)
    requires RenderReady(img, mask, env) && k < 3
    ensures |plane| == |img|
    ensures forall r :: 0 <= r < |img| ==> |plane[r]| == |img[r]|
  {
    seq(|img|, r requires 0 <= r < |img| =>
      seq(|img[r]|, c requires 0 <= c < |img[r]| =>
        var m := Coverage(mask[r][c], env(r, c));
        LipsOnly(LitValue(paint.texture, Channel(img[r][c], k) as real, Channel(paint.colour, k) as real,
                          m, paint.opacity, Brightness(paint.colour), env(r, c)), m)))
  }

  /** The texture compositor's value at one channel, cast to 8 bits. */
  function Composite(original: int, maskValue: int, paint: Paint, nb: Neighbourhood, k: nat, blurredLips: real): int
    requires IsByte(maskValue) && WellFormed(nb, maskValue) && k < 3
  {
    ToByte(TextureValue(paint.texture, original as real, Channel(paint.colour, k) as real, Coverage(maskValue, nb),
                        paint.opacity, Brightness(paint.colour), nb, TripleAt(nb.noise, k), blurredLips))
  }

  /** One output channel: the compositor's value skin-blended with the
      original.  A zero skin weight keeps the original and a full one shows
      the compositor's value. */
  function RenderChannel(original: int, maskValue: int, paint: Paint, nb: Neighbourhood, k: nat, blurredLips: real)
    : (v: int)
    requires IsByte(original) && IsByte(maskValue) && WellFormed(nb, maskValue) && k < 3
    ensures IsByte(v)
    ensures nb.skinBlur == 0 ==> v == original
    ensures nb.skinBlur == 255 ==> v == Composite(original, maskValue, paint, nb, k, blurredLips)
  {
    SkinBlend(original, Composite(original, maskValue, paint, nb, k, blurredLips), nb.skinBlur)
  }

  /** Where the skin weight is full, every channel of the output pixel `q` is
      the compositor's value for the input pixel `p`. */
  predicate ShowsComposite(q: Bgr, p: Bgr, maskValue: int, paint: Paint, nb: Neighbourhood, blurred: Triple) {
    IsByte(maskValue) && WellFormed(nb, maskValue) && nb.skinBlur == 255 ==>
      forall k :: 0 <= k < 3 ==> Channel(q, k) == Composite(Channel(p, k), maskValue, paint, nb, k, TripleAt(blurred, k))
  }

  /** One output pixel, given the three blurred lips-only values at it. */
  function RenderPixel(p: Bgr, maskValue: int, paint: Paint, nb: Neighbourhood, blurred: Triple): (q: Bgr)
    requires IsBgr(p) && IsByte(maskValue) && WellFormed(nb, maskValue)
    ensures IsBgr(q)
    ensures nb.skinBlur == 0 ==> q == p
    ensures ShowsComposite(q, p, maskValue, paint, nb, blurred)
  {
    Bgr(RenderChannel(p.b, maskValue, paint, nb, 0, blurred.c0),
        RenderChannel(p.g, maskValue, paint, nb, 1, blurred.c1),
        RenderChannel(p.r, maskValue, paint, nb, 2, blurred.c2))
  }

  /** Row `r` of the rendered image. */
  function RenderRow(img: Image, mask: Mask, paint: Paint, env: (nat, nat) -> Neighbourhood,
                     blur3: (seq<seq<real>>, nat, nat) -> real, lips: seq<seq<seq<real>>>, r: nat): (row: seq<Bgr>)
    requires RenderReady(img, mask, env) && r < |img| && |lips| == 3
    ensures |row| == |img[r]|
    ensures forall c :: 0 <= c < |row| ==> IsBgr(row[c])
    ensures forall c :: 0 <= c < |row| && env(r, c).skinBlur == 0 ==> row[c] == img[r][c]
    ensures forall c :: 0 <= c < |row| ==>
              ShowsComposite(row[c], img[r][c], mask[r][c], paint, env(r, c), BlurredAt(blur3, lips, r, c))
  {
    seq(|img[r]|, c requires 0 <= c < |img[r]| =>
      RenderPixel(img[r][c], mask[r][c], paint, env(r, c), BlurredAt(blur3, lips, r, c)))
  }

  /** The three blurred lips-only values at pixel (r, c). */
  function BlurredAt(blur3: (seq<seq<real>>, nat, nat) -> real, lips: seq<seq<seq<real>>>, r: nat, c: nat)
    : (t: Triple)
    requires |lips| == 3
    ensures forall k :: 0 <= k < 3 ==> TripleAt(t, k) == blur3(lips[k], r, c)
  {
    Triple(blur3(lips[0], r, c), blur3(lips[1], r, c), blur3(lips[2], r, c))
  }

  /** The lips-only planes of the three channels. */
  function LipsPlanes(img: Image, mask: Mask, paint: Paint, env: (nat, nat) -> Neighbourhood)
    : (lips: seq<seq<seq<real>>>)
    requires RenderReady(img, mask, env)
    ensures |lips| == 3
  {
    [LipsPlane(img, mask, paint, env, 0), LipsPlane(img, mask, paint, env, 1), LipsPlane(img, mask, paint, env, 2)]
  }

  /** Every pixel of `out` shows the compositor's value for the same pixel of
      `img` wherever the skin weight is full. */
  predicate ShowsCompositeEverywhere(out: Image, img: Image, mask: Mask, paint: Paint, env: (nat, nat) -> Neighbourhood,
                                     blur3: (seq<seq<real>>, nat, nat) -> real) {
    && RenderReady(img, mask, env) && |out| == |img|
    && forall r, c :: 0 <= r < |img| && 0 <= c < |img[r]| && c < |out[r]| ==>
         ShowsComposite(out[r][c], img[r][c], mask[r][c], paint, env(r, c),
                        BlurredAt(blur3, LipsPlanes(img, mask, paint, env), r, c))
  }

  /** Renders every pixel of a validated image and mask. */
  function Render(img: Image, mask: Mask, paint: Paint, env: (nat, nat) -> Neighbourhood,
                  blur3: (seq<seq<real>>, nat, nat) -> real): (out: Image)
    requires RenderReady(img, mask, env)
    ensures |out| == |img|
    ensures forall r :: 0 <= r < |img| ==> |out[r]| == |img[r]|
    ensures forall r, c :: 0 <= r < |img| && 0 <= c < |img[r]| ==> IsBgr(out[r][c])
    ensures forall r, c :: 0 <= r < |img| && 0 <= c < |img[r]| && env(r, c).skinBlur == 0 ==>
              out[r][c] == img[r][c]
    ensures ShowsCompositeEverywhere(out, img, mask, paint, env, blur3)
  {
    var lips := LipsPlanes(img, mask, paint, env);
    var out := seq(|img|, r requires 0 <= r < |img| => RenderRow(img, mask, paint, env, blur3, lips, r));
    assert forall r :: 0 <= r < |img| ==> out[r] == RenderRow(img, mask, paint, env, blur3, lips, r);
    out
  }

  /** `apply_lipstick`.  A missing image is returned as is; a missing or empty
      mask, or a missing colour (whose conversion raises inside the `try`),
      returns the image unchanged. */
  function ApplyLipstick(image: Option<Image>, mask: Option<Mask>, colour: Option<Rgb>, texture: string,
                         opacity: real, toHsv: Rgb -> Hsv, toRgb: Hsv -> Rgb, env: (nat, nat) -> Neighbourhood,
                         blur3: (seq<seq<real>>, nat, nat) -> real): (out: Option<Image>)
    requires image.Some? ==> IsImage(image.value)
    requires image.Some? && mask.Some? && !MaskEmpty(mask.value) ==> RenderReady(image.value, mask.value, env)
    requires colour.Some? ==> IsRgb(colour.value) && IsHsv(toHsv(colour.value))
    ensures image.None? ==> out.None?
    ensures mask.None? || colour.None? ==> out == image
    ensures mask.Some? && MaskEmpty(mask.value) ==> out == image
    ensures image.Some? ==> out.Some? && |out.value| == |image.value|
    ensures image.Some? ==> forall r :: 0 <= r < |image.value| ==> |out.value[r]| == |image.value[r]|
    ensures image.Some? ==> IsImage(out.value)
    ensures image.Some? ==> forall r, c :: 0 <= r < |image.value| && 0 <= c < |image.value[r]| ==>
              (env(r, c).skinBlur == 0 ==> out.value[r][c] == image.value[r][c])
    ensures image.Some? && mask.Some? && !MaskEmpty(mask.value) && colour.Some? ==>
              ShowsCompositeEverywhere(out.value, image.value, mask.value,
                                       PaintFor(colour.value, texture, opacity, toHsv, toRgb), env, blur3)
  {
    if image.None? || mask.None? then image
    else if MaskEmpty(mask.value) then image
    else if colour.None? then image
    else Some(Render(image.value, mask.value, PaintFor(colour.value, texture, opacity, toHsv, toRgb), env, blur3))
  }

  /** The paint `apply_lipstick` derives from its arguments: the boosted
      colour, the texture the name selects and the boosted opacity. */
  function PaintFor(colour: Rgb, texture: string, opacity: real, toHsv: Rgb -> Hsv, toRgb: Hsv -> Rgb): Paint
    requires IsHsv(toHsv(colour))
  {
    Paint(EnhancedColour(colour, toHsv, toRgb), TextureOf(texture), EnhancedOpacity(opacity))
  }

  /** Matte at high opacity: where the eroded mask core and the skin weight
      are both full, a channel shows the boosted colour plus the noise term,
      whatever the original pixel was. */
  lemma MatteCoreShowsBoostedColour(image: Image, mask: Mask, colour: Rgb, texture: string, opacity: real,
                                    toHsv: Rgb -> Hsv, toRgb: Hsv -> Rgb, env: (nat, nat) -> Neighbourhood,
                                    blur3: (seq<seq<real>>, nat, nat) -> real, r: nat, c: nat, k: nat)
    requires IsImage(image) && RenderReady(image, mask, env)
    requires IsRgb(colour) && IsHsv(toHsv(colour))
    requires texture != "gloss" && texture != "velvet" && opacity * 6.0 >= 5.0
    requires r < |image| && c < |image[r]| && k < 3
    requires env(r, c).eroded == 255 && env(r, c).skinBlur == 255
    ensures var out := ApplyLipstick(Some(image), Some(mask), Some(colour), texture, opacity, toHsv, toRgb, env, blur3);
            && out.Some? && |out.value| == |image| && |out.value[r]| == |image[r]|
            && Channel(out.value[r][c], k)
               == ToByte(Channel(EnhancedColour(colour, toHsv, toRgb), k) as real + TripleAt(env(r, c).noise, k) * 0.05)
  {
    assert !MaskEmpty(mask);
    var paint := PaintFor(colour, texture, opacity, toHsv, toRgb);
    assert ApplyLipstick(Some(image), Some(mask), Some(colour), texture, opacity, toHsv, toRgb, env, blur3)
           == Some(Render(image, mask, paint, env, blur3));
    MatteCoreRender(image, mask, paint, env, blur3, r, c, k);
  }

  /** The same at the level of `Render`, for a matte paint at full opacity. */
  lemma MatteCoreRender(image: Image, mask: Mask, paint: Paint, env: (nat, nat) -> Neighbourhood,
                        blur3: (seq<seq<real>>, nat, nat) -> real, r: nat, c: nat, k: nat)
    requires RenderReady(image, mask, env) && paint.texture == Matte && paint.opacity == 1.0
    requires r < |image| && c < |image[r]| && k < 3
    requires env(r, c).eroded == 255 && env(r, c).skinBlur == 255
    ensures Channel(Render(image, mask, paint, env, blur3)[r][c], k)
            == ToByte(Channel(paint.colour, k) as real + TripleAt(env(r, c).noise, k) * 0.05)
  {
    var out := Render(image, mask, paint, env, blur3);
    var blurred := BlurredAt(blur3, LipsPlanes(image, mask, paint, env), r, c);
    assert ShowsComposite(out[r][c], image[r][c], mask[r][c], paint, env(r, c), blurred);
    MatteCoreComposite(Channel(image[r][c], k), mask[r][c], paint, env(r, c), k, TripleAt(blurred, k));
  }

  /** On the eroded core at full opacity, the matte compositor lays down the
      colour plus the noise term. */
  lemma MatteCoreComposite(original: int, maskValue: int, paint: Paint, nb: Neighbourhood, k: nat, blurredLips: real)
    requires IsByte(maskValue) && WellFormed(nb, maskValue) && k < 3
    requires paint.texture == Matte && paint.opacity == 1.0 && nb.eroded == 255
    ensures Composite(original, maskValue, paint, nb, k, blurredLips)
            == ToByte(Channel(paint.colour, k) as real + TripleAt(nb.noise, k) * 0.05)
  {
    assert Coverage(maskValue, nb) == 1.0;
  }

  /** Every output channel lies between the original value and the
      compositor's 8-bit value, the skin blend's weight selecting where. */
  lemma RenderedChannelBetween(original: int, maskValue: int, paint: Paint, nb: Neighbourhood, k: nat,
                               blurredLips: real)
    requires IsByte(original) && IsByte(maskValue) && WellFormed(nb, maskValue) && k < 3
    ensures var composite := Composite(original, maskValue, paint, nb, k, blurredLips);
            MinInt(original, composite) <= RenderChannel(original, maskValue, paint, nb, k, blurredLips)
              <= MaxInt(original, composite)
  {
  }

  /** Outside the lips (mask at most 127) every texture path leaves the
      compositor's value equal to the original channel. */
  lemma UncoveredPixelKeepsImage(original: int, maskValue: int, paint: Paint, nb: Neighbourhood, k: nat,
                                 blurredLips: real)
    requires IsByte(original) && IsByte(maskValue) && WellFormed(nb, maskValue) && k < 3
    requires maskValue <= 127
    ensures Composite(original, maskValue, paint, nb, k, blurredLips) == original
  {
    assert Coverage(maskValue, nb) == 0.0;
  }
}
