/** The pure helpers of the try-on front end: the default colour strength of
    a texture, the nearest catalogue shade, the skin-range test, the history
    and favourites lists, and the merge of per-face renders into one image. */
module TryOnUi {
  import opened Basics
  import opened LipstickLibrary
  import opened LipstickRenderer

  // ---------------------------------------------------------------------------
  // Strength per texture

  /** `get_default_strength_by_texture`. */
  function DefaultStrength(texture: string): (s: real)
    ensures 0.3 <= s <= 0.7
    ensures s == 0.4 <==> !KnownTexture(texture)
  {
    if texture == "matte" then 0.3
    else if texture == "gloss" then 0.6
    else if texture == "velvet" then 0.7
    else 0.4
  }

  /** The shade the user is trying on: the session's `current_lipstick`. */
  datatype Current = Current(brand: string, colour: string, texture: string, strength: real)

  /** A texture button press: a new, non-empty texture replaces the current
      one and, for the three known textures, resets the strength. */
  function SelectTexture(current: Current, selected: string): (next: Current)
    ensures next.brand == current.brand && next.colour == current.colour
    ensures selected == "" || selected == current.texture ==> next == current
    ensures selected != "" && selected != current.texture ==> next.texture == selected
    ensures !KnownTexture(selected) ==> next.strength == current.strength
  {
    if selected == "" || selected == current.texture then current
    else
      var strength :=
        if selected == "matte" then 0.3
        else if selected == "gloss" then 0.6
        else if selected == "velvet" then 0.7
        else current.strength;
      current.(texture := selected, strength := strength)
  }

  /** The buttons and the default table agree: choosing a new known texture
      sets exactly the strength `get_default_strength_by_texture` gives it. */
  lemma ButtonsAgreeWithDefaults(current: Current, selected: string)
    requires KnownTexture(selected) && selected != current.texture
    ensures SelectTexture(current, selected).strength == DefaultStrength(selected)
  {
  }

  // ---------------------------------------------------------------------------
  // Nearest catalogue shade

  /** A position in the catalogue: brand index, then shade index. */
  datatype Pos = Pos(brand: nat, shade: nat)

  predicate ValidPos(cat: Table<Table<Colour>>, p: Pos) {
    p.brand < |cat| && p.shade < |cat[p.brand].1|
  }

  function ColourAt(cat: Table<Table<Colour>>, p: Pos): Colour
    requires ValidPos(cat, p)
  {
    cat[p.brand].1[p.shade].1
  }

  /** The squared RGB distance; the source takes its square root, which
      orders distances the same way. */
  function SquaredDistance(a: Colour, b: Colour): nat {
    (a.r - b.r) * (a.r - b.r) + (a.g - b.g) * (a.g - b.g) + (a.b - b.b) * (a.b - b.b)
  }

  /** `p` is visited before the loops reach brand `i`, shade `j`. */
  predicate VisitedBefore(p: Pos, i: nat, j: nat) {
    p.brand < i || (p.brand == i && p.shade < j)
  }

  /** `p` comes strictly before `q` in brand-then-shade order. */
  predicate Earlier(p: Pos, q: Pos) {
    VisitedBefore(p, q.brand, q.shade)
  }

  /** `best` is the answer of a search over the positions visited before
      (i, j): the least distance, and the first position attaining it. */
  ghost predicate BestSoFar(cat: Table<Table<Colour>>, dist: Colour -> nat, best: Option<Pos>, i: nat, j: nat) {
    && (best.None? <==> forall p :: ValidPos(cat, p) ==> !VisitedBefore(p, i, j))
    && (best.Some? ==>
          && ValidPos(cat, best.value) && VisitedBefore(best.value, i, j)
          && (forall p :: ValidPos(cat, p) && VisitedBefore(p, i, j) ==>
                dist(ColourAt(cat, best.value)) <= dist(ColourAt(cat, p)))
          && (forall p :: ValidPos(cat, p) && Earlier(p, best.value) ==>
                dist(ColourAt(cat, best.value)) < dist(ColourAt(cat, p))))
  }

  /** The nearest-shade search of the recommendation panel: every shade of
      every brand is compared with the recommended colour by `dist`, its
      distance to that colour, and a shade replaces the best so far only
      when strictly closer. */
  method ClosestShade(cat: Table<Table<Colour>>, dist: Colour -> nat) returns (best: Option<Pos>)
    ensures best.None? <==> forall p :: !ValidPos(cat, p)
    ensures best.Some? ==> ValidPos(cat, best.value)
    ensures best.Some? ==> forall p :: ValidPos(cat, p) ==>
              dist(ColourAt(cat, best.value)) <= dist(ColourAt(cat, p))
    ensures best.Some? ==> forall p :: ValidPos(cat, p) && Earlier(p, best.value) ==>
              dist(ColourAt(cat, best.value)) < dist(ColourAt(cat, p))
  {
    best := None;
    var i := 0;
    while i < |cat|
      invariant i <= |cat|
      invariant BestSoFar(cat, dist, best, i, 0)
    {
      var shades := cat[i].1;
      var j := 0;
      while j < |shades|
        invariant j <= |shades|
        invariant BestSoFar(cat, dist, best, i, j)
      {
        var here := Pos(i, j);
        assert ValidPos(cat, here) && ColourAt(cat, here) == shades[j].1;
        assert forall p :: VisitedBefore(p, i, j + 1) <==> VisitedBefore(p, i, j) || p == here;
        if best.None? || dist(shades[j].1) < dist(ColourAt(cat, best.value)) {
          best := Some(here);
        }
        j := j + 1;
      }
      assert forall p :: VisitedBefore(p, i, |shades|) && ValidPos(cat, p) ==> VisitedBefore(p, i + 1, 0);
      assert forall p :: VisitedBefore(p, i + 1, 0) && ValidPos(cat, p) ==> VisitedBefore(p, i, |shades|);
      i := i + 1;
    }
    assert forall p :: ValidPos(cat, p) ==> VisitedBefore(p, i, 0);
  }

  /** The search over the brand catalogue, as the recommendation panel runs
      it: a shade listed by `get_colors_for_brand` whose `get_color_rgb` is
      at least as close to the target as any listed shade's. */
  method ClosestCatalogueShade(target: Colour) returns (brand: string, name: string, p: Pos)
    ensures ColorRgb(brand, name).Some?
    ensures forall b, n :: ColorRgb(b, n).Some? ==>
              SquaredDistance(target, ColorRgb(brand, name).value) <= SquaredDistance(target, ColorRgb(b, n).value)
    ensures ValidPos(Colours(), p) && brand == Colours()[p.brand].0 && name == Colours()[p.brand].1[p.shade].0
    ensures ColorRgb(brand, name) == Some(ColourAt(Colours(), p))
    ensures forall q :: ValidPos(Colours(), q) && Earlier(q, p) ==>
              SquaredDistance(target, ColourAt(Colours(), p)) < SquaredDistance(target, ColourAt(Colours(), q))
  {
    var cat := Colours();
    var dist := c => SquaredDistance(target, c);
    CatalogueNonEmpty();
    CatalogueHasNoRepeats();
    var best := ClosestShade(cat, dist);
    p := best.value;
    brand, name := cat[p.brand].0, cat[p.brand].1[p.shade].0;
    NearestPositionIsNearestName(cat, dist, p);
  }

  lemma CatalogueNonEmpty()
    ensures ValidPos(Colours(), Pos(0, 0))
  {
    assert |MacColours()| == 7;
  }

  /** In a catalogue without repeated names, a position at least as close as
      every position names a value at least as close as every value `Find`
      returns. */
  lemma NearestPositionIsNearestName(cat: Table<Table<Colour>>, dist: Colour -> nat, p: Pos)
    requires NoRepeats(cat) && ValidPos(cat, p)
    requires forall q :: ValidPos(cat, q) ==>
               dist(ColourAt(cat, p)) <= dist(ColourAt(cat, q))
    ensures Find(cat, cat[p.brand].0, cat[p.brand].1[p.shade].0) == Some(ColourAt(cat, p))
    ensures forall b, n :: Find(cat, b, n).Some? ==>
              dist(ColourAt(cat, p)) <= dist(Find(cat, b, n).value)
  {
    FindAt(cat, p.brand, p.shade);
    forall b, n | Find(cat, b, n).Some?
      ensures dist(ColourAt(cat, p)) <= dist(Find(cat, b, n).value)
    {
      NoCloserName(cat, dist, p, b, n);
    }
  }

  lemma NoCloserName(cat: Table<Table<Colour>>, dist: Colour -> nat, p: Pos, b: string, n: string)
    requires ValidPos(cat, p)
    requires forall q :: ValidPos(cat, q) ==>
               dist(ColourAt(cat, p)) <= dist(ColourAt(cat, q))
    requires Find(cat, b, n).Some?
    ensures dist(ColourAt(cat, p)) <= dist(Find(cat, b, n).value)
  {
    FindIsAnEntry(cat, b, n);
    var i, j :| 0 <= i < |cat| && 0 <= j < |cat[i].1| && cat[i].0 == b && cat[i].1[j] == (n, Find(cat, b, n).value);
    assert ValidPos(cat, Pos(i, j));
  }

  // ---------------------------------------------------------------------------
  // Skin-tone ranges

  /** Range `i` accepts the colour: the colour has an `i`-th component and it
      lies within the inclusive bounds. */
  predicate InRangeAt(colour: seq<real>, ranges: seq<(real, real)>, i: nat)
    requires i < |ranges|
  {
    i < |colour| && ranges[i].0 <= colour[i] && colour[i] <= ranges[i].1
  }

  /** `is_in_range`: walks the ranges and fails at the first index the colour
      lacks or whose value falls outside the inclusive bounds. */
  method IsInRange(colour: seq<real>, ranges: seq<(real, real)>) returns (ok: bool)
    ensures ok <==> forall i :: 0 <= i < |ranges| ==> InRangeAt(colour, ranges, i)
  {
    var i := 0;
    while i < |ranges|
      invariant i <= |ranges|
      invariant forall k :: 0 <= k < i ==> InRangeAt(colour, ranges, k)
    {
      if i >= |colour| || colour[i] < ranges[i].0 || colour[i] > ranges[i].1 {
        assert !InRangeAt(colour, ranges, i);
        return false;
      }
      i := i + 1;
    }
    return true;
  }

  // ---------------------------------------------------------------------------
  // History and favourites

  /** The history cap. */
  const HistoryLimit := 10

  predicate NoDuplicates<T(==)>(s: seq<T>) {
    forall i, j :: 0 <= i < j < |s| ==> s[i] != s[j]
  }

  /** Recording a result: a new item is appended and, past ten entries, the
      oldest one is dropped; an item already present changes nothing. */
  function UpdateHistory<T(==)>(history: seq<T>, item: T): (h: seq<T>)
    ensures |history| <= HistoryLimit ==> |h| <= HistoryLimit
    ensures item in h
    ensures forall x :: x in h ==> x in history || x == item
    ensures item in history ==> h == history
    ensures item !in history ==> |h| == if |history| + 1 > HistoryLimit then |history| else |history| + 1
    ensures item !in history ==> h[|h| - 1] == item && h[..|h| - 1] == history[|history| + 1 - |h|..]
  {
    if item in history then history
    else
      var appended := history + [item];
      if |appended| > HistoryLimit then
        assert appended[1..][..|history| - 1] == history[1..];
        assert forall x :: x in appended[1..] ==> x in appended;
        assert appended[1..][|history| - 1] == item;
        appended[1..]
      else
        assert appended[..|history|] == history;
        appended
  }

  /** A history without repeats keeps none after an update. */
  lemma HistoryStaysDistinct<T>(history: seq<T>, item: T)
    requires NoDuplicates(history)
    ensures NoDuplicates(UpdateHistory(history, item))
  {
    var h := UpdateHistory(history, item);
    if item !in history {
      forall i, j | 0 <= i < j < |h|
        ensures h[i] != h[j]
      {
        if j == |h| - 1 {
          assert h[i] in history by {
            assert h[i] == h[..|h| - 1][i];
          }
        } else {
          assert h[i] == h[..|h| - 1][i] && h[j] == h[..|h| - 1][j];
        }
      }
    }
  }

  /** "Add to favourites": appended only when not already there. */
  function AddFavourite<T(==)>(favourites: seq<T>, current: T): (f: seq<T>)
    ensures current in f
    ensures current in favourites ==> f == favourites
    ensures current !in favourites ==> f == favourites + [current]
    ensures NoDuplicates(favourites) ==> NoDuplicates(f)
  {
    if current in favourites then favourites else favourites + [current]
  }

  /** "Remove": drops the favourite at position `i`. */
  function RemoveFavourite<T(==)>(favourites: seq<T>, i: nat): (f: seq<T>)
    requires i < |favourites|
    ensures |f| == |favourites| - 1
    ensures forall k :: 0 <= k < i ==> f[k] == favourites[k]
    ensures forall k :: i <= k < |f| ==> f[k] == favourites[k + 1]
    ensures NoDuplicates(favourites) ==> NoDuplicates(f) && favourites[i] !in f
  {
    favourites[..i] + favourites[i + 1..]
  }

  // ---------------------------------------------------------------------------
  // Merging per-face renders

  predicate SameDims(a: Image, b: Image) {
    |a| == |b| && forall r :: 0 <= r < |a| ==> |a[r]| == |b[r]|
  }

  /** `final * (1 - mask/255) + face * (mask/255)` cast to 8 bits, each channel
      weighted by the single-channel mask. */
  function MergeImages(final: Image, face: Image, mask: Mask): (out: Image)
    requires IsImage(final) && IsImage(face) && SameDims(final, face)
    requires IsMask(mask) && SameShape(final, mask)
    ensures SameDims(out, final) && IsImage(out)
    ensures forall r, c :: 0 <= r < |final| && 0 <= c < |final[r]| && mask[r][c] == 0 ==> out[r][c] == final[r][c]
    ensures forall r, c :: 0 <= r < |final| && 0 <= c < |final[r]| && mask[r][c] == 255 ==> out[r][c] == face[r][c]
  {
    seq(|final|, r requires 0 <= r < |final| =>
      seq(|final[r]|, c requires 0 <= c < |final[r]| =>
        var p := final[r][c];
        var q := face[r][c];
        var m := mask[r][c];
        Bgr(SkinBlend(p.b, q.b, m), SkinBlend(p.g, q.g, m), SkinBlend(p.r, q.r, m))))
  }

  /** Every merged channel lies between the two inputs' channels. */
  lemma MergedChannelsBetween(final: Image, face: Image, mask: Mask, r: nat, c: nat)
    requires IsImage(final) && IsImage(face) && SameDims(final, face)
    requires IsMask(mask) && SameShape(final, mask)
    requires r < |final| && c < |final[r]|
    ensures var o := MergeImages(final, face, mask)[r][c];
            && MinInt(final[r][c].b, face[r][c].b) <= o.b <= MaxInt(final[r][c].b, face[r][c].b)
            && MinInt(final[r][c].g, face[r][c].g) <= o.g <= MaxInt(final[r][c].g, face[r][c].g)
            && MinInt(final[r][c].r, face[r][c].r) <= o.r <= MaxInt(final[r][c].r, face[r][c].r)
  {
  }

  /** What the per-face loop produced for one detected face: nothing when its
      lip mask is `None`, else the mask and the rendered image. */
  datatype FaceOutcome = Skipped | Painted(mask: Mask, render: Image)

  /** A render and an optional mask of the original image's shape. */
  predicate FitsImage(original: Image, render: Image, mask: Option<Mask>) {
    && IsImage(render) && SameDims(render, original)
    && (mask.Some? ==> IsMask(mask.value) && SameShape(original, mask.value))
  }

  /** Every render and mask has the original image's shape. */
  predicate Fits(original: Image, faces: seq<FaceOutcome>) {
    && IsImage(original)
    && forall k :: 0 <= k < |faces| && faces[k].Painted? ==>
         FitsImage(original, faces[k].render, Some(faces[k].mask))
  }

  /** The mask `get_lip_mask` gives again for each detected face. */
  function MaskOf(face: FaceOutcome): Option<Mask> {
    match face
    case Skipped => None
    case Painted(mask, _) => Some(mask)
  }

  /** One step of either merge loop: skipped when the mask is `None`. */
  function MergeStep(final: Image, render: Image, mask: Option<Mask>, original: Image): (out: Image)
    requires IsImage(final) && SameDims(final, original) && FitsImage(original, render, mask)
    ensures IsImage(out) && SameDims(out, original)
    ensures forall r, c :: 0 <= r < |original| && 0 <= c < |original[r]| && (mask.None? || mask.value[r][c] == 0) ==>
              out[r][c] == final[r][c]
    ensures forall r, c :: 0 <= r < |original| && 0 <= c < |original[r]| && mask.Some? && mask.value[r][c] == 255 ==>
              out[r][c] == render[r][c]
  {
    match mask
    case None => final
    case Some(m) =>
      assert SameShape(final, m) && SameDims(final, render);
      MergeImages(final, render, m)
  }

  /** `processed_faces`: the renders, in face order, of the faces that had a mask. */
  /** How many of the faces were painted. */
  function PaintedCount(faces: seq<FaceOutcome>): (n: nat)
    ensures n <= |faces|
  {
    if |faces| == 0 then 0
    else (if faces[0].Painted? then 1 else 0) + PaintedCount(faces[1..])
  }

  /** Counting the painted faces of a prefix: the first face, then the
      matching prefix of the rest. */
  lemma PaintedCountOfPrefixes(faces: seq<FaceOutcome>)
    requires |faces| > 0
    ensures forall f :: 1 <= f <= |faces| ==>
              PaintedCount(faces[..f]) == (if faces[0].Painted? then 1 else 0) + PaintedCount(faces[1..][..f - 1])
  {
    forall f | 1 <= f <= |faces|
      ensures PaintedCount(faces[..f]) == (if faces[0].Painted? then 1 else 0) + PaintedCount(faces[1..][..f - 1])
    {
      assert faces[..f][1..] == faces[1..][..f - 1];
    }
  }

  function Processed(faces: seq<FaceOutcome>): (renders: seq<Image>)
    ensures |renders| <= |faces|
    ensures |renders| == PaintedCount(faces)
    ensures |renders| == 0 <==> forall f :: 0 <= f < |faces| ==> faces[f].Skipped?
    ensures forall f :: 0 <= f < |faces| && faces[f].Painted? ==> faces[f].render in renders
    ensures (forall f :: 0 <= f < |faces| ==> faces[f].Painted?) ==>
              |renders| == |faces| && forall k :: 0 <= k < |faces| ==> renders[k] == faces[k].render
  {
    if |faces| == 0 then []
    else
      assert forall f :: 1 <= f < |faces| ==> faces[f] == faces[1..][f - 1];
      var rest := Processed(faces[1..]);
      match faces[0]
      case Skipped => rest
      case Painted(_, render) => [render] + rest
  }

  /** The renders keep face order: a painted face's render sits at the
      position that counts the painted faces before it. */
  lemma {:induction false} ProcessedInFaceOrder(faces: seq<FaceOutcome>)
    ensures forall f :: 0 <= f < |faces| && faces[f].Painted? ==>
              PaintedCount(faces[..f]) < |Processed(faces)| && Processed(faces)[PaintedCount(faces[..f])] == faces[f].render
  {
    if |faces| > 0 {
      var rest := faces[1..];
      ProcessedInFaceOrder(rest);
      PaintedCountOfPrefixes(faces);
      assert Processed(faces) == (if faces[0].Painted? then [faces[0].render] else []) + Processed(rest);
      forall f | 1 <= f < |faces| && faces[f].Painted?
        ensures PaintedCount(faces[..f]) < |Processed(faces)| && Processed(faces)[PaintedCount(faces[..f])] == faces[f].render
      {
        assert rest[f - 1] == faces[f];
      }
    }
  }

  lemma FitsTail(original: Image, faces: seq<FaceOutcome>)
    requires Fits(original, faces) && |faces| > 0
    ensures Fits(original, faces[1..])
    ensures faces[0].Painted? ==> IsMask(faces[0].mask) && SameShape(original, faces[0].mask)
    ensures faces[0].Painted? ==> IsImage(faces[0].render) && SameDims(faces[0].render, original)
  {
    assert forall k :: 0 <= k < |faces| - 1 ==> faces[1..][k] == faces[k + 1];
  }

  /** Every processed render has the original image's shape. */
  lemma {:induction false} ProcessedFit(original: Image, faces: seq<FaceOutcome>)
    requires Fits(original, faces)
    ensures forall k :: 0 <= k < |Processed(faces)| ==> FitsImage(original, Processed(faces)[k], None)
  {
    if |faces| > 0 {
      FitsTail(original, faces);
      ProcessedFit(original, faces[1..]);
    }
  }

  /** The merge loop as the source writes it: the `i`-th processed render is
      merged with the mask of the `i`-th detected face. */
  function MergeLoop(final: Image, renders: seq<Image>, faces: seq<FaceOutcome>, original: Image): (out: Image)
    requires Fits(original, faces) && IsImage(final) && SameDims(final, original)
    requires forall k :: 0 <= k < |renders| ==> FitsImage(original, renders[k], None)
    requires |renders| <= |faces|
    ensures IsImage(out) && SameDims(out, original)
    decreases |renders|
  {
    if |renders| == 0 then final
    else
      FitsTail(original, faces);
      assert FitsImage(original, renders[0], None);
      assert FitsImage(original, renders[0], MaskOf(faces[0])) by {
        if faces[0].Painted? {
          assert MaskOf(faces[0]) == Some(faces[0].mask);
        }
      }
      assert forall k :: 0 <= k < |renders| - 1 ==> renders[1..][k] == renders[k + 1];
      var next := MergeStep(final, renders[0], MaskOf(faces[0]), original);
      MergeLoop(next, renders[1..], faces[1..], original)
  }

  /** The multi-face result as written: nothing without a processed face,
      the single render when there is one, else the misaligned merge loop. */
  function MergeProcessedFacesAsWritten(original: Image, faces: seq<FaceOutcome>): (out: Option<Image>)
    requires Fits(original, faces)
    ensures out.None? <==> forall f :: 0 <= f < |faces| ==> faces[f].Skipped?
  {
    var renders := Processed(faces);
    ProcessedFit(original, faces);
    if |renders| == 0 then None
    else if |renders| == 1 then Some(renders[0])
    else Some(MergeLoop(original, renders, faces, original))
  }

  /** The merge with every render paired with its own face's mask. */
  function MergeFaces(final: Image, faces: seq<FaceOutcome>, original: Image): (out: Image)
    requires Fits(original, faces) && IsImage(final) && SameDims(final, original)
    ensures IsImage(out) && SameDims(out, original)
    decreases |faces|
  {
    if |faces| == 0 then final
    else
      FitsTail(original, faces);
      var next := if faces[0].Painted? then MergeStep(final, faces[0].render, MaskOf(faces[0]), original) else final;
      MergeFaces(next, faces[1..], original)
  }

  /** The multi-face result with the pairing corrected. */
  function MergeProcessedFaces(original: Image, faces: seq<FaceOutcome>): (out: Option<Image>)
    requires Fits(original, faces)
    ensures out.None? <==> forall f :: 0 <= f < |faces| ==> faces[f].Skipped?
    ensures out.Some? ==> IsImage(out.value) && SameDims(out.value, original)
  {
    var renders := Processed(faces);
    ProcessedFit(original, faces);
    if |renders| == 0 then None
    else if |renders| == 1 then Some(renders[0])
    else Some(MergeFaces(original, faces, original))
  }

  /** No painted face's mask covers pixel (r, c). */
  predicate MasksZeroAt(faces: seq<FaceOutcome>, r: nat, c: nat) {
    forall k :: 0 <= k < |faces| && faces[k].Painted? && r < |faces[k].mask| && c < |faces[k].mask[r]| ==>
      faces[k].mask[r][c] == 0
  }

  /** Face `f`'s mask fully covers pixel (r, c) and no other face's mask touches it. */
  predicate OnlyFaceAt(faces: seq<FaceOutcome>, f: nat, r: nat, c: nat) {
    && f < |faces| && faces[f].Painted?
    && r < |faces[f].mask| && c < |faces[f].mask[r]| && faces[f].mask[r][c] == 255
    && forall k :: 0 <= k < |faces| && k != f && faces[k].Painted? && r < |faces[k].mask| && c < |faces[k].mask[r]| ==>
         faces[k].mask[r][c] == 0
  }

  /** A pixel no mask touches keeps its value through the merge. */
  lemma {:induction false} MergeFacesKeepsUnmasked(final: Image, faces: seq<FaceOutcome>, original: Image, r: nat, c: nat)
    requires Fits(original, faces) && IsImage(final) && SameDims(final, original)
    requires r < |original| && c < |original[r]| && MasksZeroAt(faces, r, c)
    ensures MergeFaces(final, faces, original)[r][c] == final[r][c]
    decreases |faces|
  {
    if |faces| > 0 {
      FitsTail(original, faces);
      var next := if faces[0].Painted? then MergeStep(final, faces[0].render, MaskOf(faces[0]), original) else final;
      assert next[r][c] == final[r][c];
      assert MasksZeroAt(faces[1..], r, c) by {
        assert forall k :: 0 <= k < |faces| - 1 ==> faces[1..][k] == faces[k + 1];
      }
      MergeFacesKeepsUnmasked(next, faces[1..], original, r, c);
    }
  }

  /** A pixel only face `f`'s mask covers ends up with face `f`'s render. */
  lemma {:induction false} MergeFacesShowsOwnLips(final: Image, faces: seq<FaceOutcome>, original: Image,
                                                  f: nat, r: nat, c: nat)
    requires Fits(original, faces) && IsImage(final) && SameDims(final, original)
    requires r < |original| && c < |original[r]| && OnlyFaceAt(faces, f, r, c)
    ensures MergeFaces(final, faces, original)[r][c] == faces[f].render[r][c]
    decreases |faces|
  {
    FitsTail(original, faces);
    var next := if faces[0].Painted? then MergeStep(final, faces[0].render, MaskOf(faces[0]), original) else final;
    assert forall k :: 0 <= k < |faces| - 1 ==> faces[1..][k] == faces[k + 1];
    if f == 0 {
      assert next[r][c] == faces[0].render[r][c];
      assert MasksZeroAt(faces[1..], r, c);
      MergeFacesKeepsUnmasked(next, faces[1..], original, r, c);
    } else {
      assert OnlyFaceAt(faces[1..], f - 1, r, c);
      MergeFacesShowsOwnLips(next, faces[1..], original, f - 1, r, c);
    }
  }

  /** With the pairing corrected, every face's lips show that face's render. */
  lemma EachFaceKeepsItsOwnLips(original: Image, faces: seq<FaceOutcome>, f: nat, r: nat, c: nat)
    requires Fits(original, faces)
    requires r < |original| && c < |original[r]| && OnlyFaceAt(faces, f, r, c)
    ensures MergeProcessedFaces(original, faces).Some?
    ensures MergeProcessedFaces(original, faces).value[r][c] == faces[f].render[r][c]
  {
    var renders := Processed(faces);
    assert faces[f].render in renders;
    if |renders| >= 2 {
      MergeFacesShowsOwnLips(original, faces, original, f, r, c);
    }
  }

  /** When no face was skipped the source's pairing is right: both merges agree. */
  lemma AsWrittenAgreesWhenNoneSkipped(original: Image, faces: seq<FaceOutcome>)
    requires Fits(original, faces)
    requires forall k :: 0 <= k < |faces| ==> faces[k].Painted?
    ensures MergeProcessedFacesAsWritten(original, faces) == MergeProcessedFaces(original, faces)
  {
    ProcessedFit(original, faces);
    if |faces| >= 2 {
      MergeLoopMatches(original, faces, original);
    }
  }

  lemma {:induction false} MergeLoopMatches(final: Image, faces: seq<FaceOutcome>, original: Image)
    requires Fits(original, faces) && IsImage(final) && SameDims(final, original)
    requires forall k :: 0 <= k < |faces| ==> faces[k].Painted?
    ensures forall k :: 0 <= k < |Processed(faces)| ==> FitsImage(original, Processed(faces)[k], None)
    ensures MergeLoop(final, Processed(faces), faces, original) == MergeFaces(final, faces, original)
    decreases |faces|
  {
    ProcessedFit(original, faces);
    if |faces| > 0 {
      FitsTail(original, faces);
      var renders := Processed(faces);
      var tail := faces[1..];
      assert forall k :: 0 <= k < |tail| ==> tail[k] == faces[k + 1];
      assert renders == [faces[0].render] + Processed(tail);
      assert renders[1..] == Processed(tail);
      var next := MergeStep(final, faces[0].render, MaskOf(faces[0]), original);
      assert MergeFaces(final, faces, original) == MergeFaces(next, tail, original);
      ProcessedFit(original, tail);
      assert MergeLoop(final, renders, faces, original) == MergeLoop(next, Processed(tail), tail, original);
      MergeLoopMatches(next, tail, original);
    }
  }

  /** The source's misalignment: when the first detected face is skipped, the
      second face's render is merged with nothing of its own and the third
      face's render lands on the second face's lips. */
  lemma AsWrittenLosesAFace()
    ensures var original := [[Bgr(0, 0, 0)]];
            var faces := [Skipped, Painted([[255]], [[Bgr(9, 9, 9)]]), Painted([[0]], [[Bgr(0, 0, 0)]])];
            && Fits(original, faces) && OnlyFaceAt(faces, 1, 0, 0)
            && MergeProcessedFacesAsWritten(original, faces) == Some([[Bgr(0, 0, 0)]])
            && MergeProcessedFaces(original, faces).value[0][0] == Bgr(9, 9, 9)
  {
    var original := [[Bgr(0, 0, 0)]];
    var r1 := [[Bgr(9, 9, 9)]];
    var r2 := [[Bgr(0, 0, 0)]];
    var faces := [Skipped, Painted([[255]], r1), Painted([[0]], r2)];
    ExampleRenders(original, r1, r2, faces);
    ExampleAsWritten(original, r1, r2, faces);
    EachFaceKeepsItsOwnLips(original, faces, 1, 0, 0);
  }

  /** The as-written merge of the example pairs the black render with the
      first face's mask and returns the black image. */
  lemma ExampleAsWritten(original: Image, r1: Image, r2: Image, faces: seq<FaceOutcome>)
    requires original == [[Bgr(0, 0, 0)]] && r1 == [[Bgr(9, 9, 9)]] && r2 == [[Bgr(0, 0, 0)]]
    requires faces == [Skipped, Painted([[255]], r1), Painted([[0]], r2)]
    requires Fits(original, faces) && Processed(faces) == [r1, r2]
    ensures MergeProcessedFacesAsWritten(original, faces) == Some(original)
  {
    ExampleFirstRender(original, r1, r2, faces);
    ExampleSecondRender(original, r1, r2, faces);
  }

  /** The first render meets the skipped face's missing mask and is dropped. */
  lemma ExampleFirstRender(original: Image, r1: Image, r2: Image, faces: seq<FaceOutcome>)
    requires original == [[Bgr(0, 0, 0)]] && r1 == [[Bgr(9, 9, 9)]] && r2 == [[Bgr(0, 0, 0)]]
    requires faces == [Skipped, Painted([[255]], r1), Painted([[0]], r2)]
    requires Fits(original, faces) && Processed(faces) == [r1, r2]
    ensures Fits(original, faces[1..])
    ensures MergeLoop(original, [r1, r2], faces, original) == MergeLoop(original, [r2], faces[1..], original)
  {
    FitsTail(original, faces);
    assert [r1, r2][1..] == [r2];
  }

  /** The second render is pasted through the first face's mask, which
      leaves the black image black. */
  lemma ExampleSecondRender(original: Image, r1: Image, r2: Image, faces: seq<FaceOutcome>)
    requires original == [[Bgr(0, 0, 0)]] && r1 == [[Bgr(9, 9, 9)]] && r2 == [[Bgr(0, 0, 0)]]
    requires faces == [Skipped, Painted([[255]], r1), Painted([[0]], r2)]
    requires Fits(original, faces[1..])
    ensures MergeLoop(original, [r2], faces[1..], original) == original
  {
    ExampleSecondStep(original, r2);
    assert faces[1..][0] == Painted([[255]], r1);
    assert MergeLoop(original, [r2], faces[1..], original) == MergeLoop(original, [], faces[1..][1..], original);
  }

  /** The example's two painted faces give two renders, in face order. */
  lemma ExampleRenders(original: Image, r1: Image, r2: Image, faces: seq<FaceOutcome>)
    requires original == [[Bgr(0, 0, 0)]] && r1 == [[Bgr(9, 9, 9)]] && r2 == [[Bgr(0, 0, 0)]]
    requires faces == [Skipped, Painted([[255]], r1), Painted([[0]], r2)]
    ensures Fits(original, faces) && Processed(faces) == [r1, r2]
  {
    assert faces[1..] == [Painted([[255]], r1), Painted([[0]], r2)];
    assert faces[1..][1..] == [Painted([[0]], r2)];
    assert faces[1..][1..][1..] == [];
  }

  /** Pasting the black second render through the first face's mask leaves
      the black image black. */
  lemma ExampleSecondStep(original: Image, r2: Image)
    requires original == [[Bgr(0, 0, 0)]] && r2 == original
    ensures FitsImage(original, r2, Some([[255]]))
    ensures MergeStep(original, r2, Some([[255]]), original) == original
  {
    var step := MergeStep(original, r2, Some([[255]]), original);
    assert step[0][0] == Bgr(0, 0, 0);
    assert |step| == 1 && |step[0]| == 1;
    assert step[0] == [Bgr(0, 0, 0)];
  }
}
