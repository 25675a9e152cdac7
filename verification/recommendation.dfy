/** `LipstickRecommender`: a fixed library of fifteen house shades, three per
    tone family picked by the brightness of the skin sample. */
module Recommendation {
  import opened Basics

  datatype Tone = Warm | Cool | Neutral

  /** A library entry: the RGB colour, the texture name and the tone family. */
  datatype Shade = Shade(r: int, g: int, b: int, texture: string, tone: Tone)

  /** The skin sample `[H, S, V]`. */
  datatype SkinHsv = SkinHsv(h: real, s: real, v: real)

  /** The three lists of the result dictionary. */
  datatype Recommendations = Recommendations(warm: seq<int>, cool: seq<int>, neutral: seq<int>)

  /** What `get_lipstick_details` returns for a known shade. */
  datatype Details = Details(id: int, rgb: seq<int>, texture: string, tone: Tone)

  /** `color_library`, keyed by shade number. */
  function Library(): map<int, Shade> {
    map[
      101 := Shade(255, 69, 0, "matte", Warm),
      102 := Shade(255, 99, 71, "matte", Warm),
      103 := Shade(255, 127, 80, "velvet", Warm),
      104 := Shade(240, 128, 128, "gloss", Warm),
      105 := Shade(205, 92, 92, "matte", Warm),
      201 := Shade(199, 21, 133, "matte", Cool),
      202 := Shade(219, 112, 147, "gloss", Cool),
      203 := Shade(176, 48, 96, "velvet", Cool),
      204 := Shade(220, 20, 60, "matte", Cool),
      205 := Shade(139, 0, 139, "velvet", Cool),
      301 := Shade(188, 143, 143, "velvet", Neutral),
      302 := Shade(222, 184, 135, "matte", Neutral),
      303 := Shade(210, 180, 140, "gloss", Neutral),
      304 := Shade(245, 222, 179, "velvet", Neutral),
      305 := Shade(160, 82, 45, "matte", Neutral)
    ]
  }

  /** The recommendations given when no skin sample is available. */
  const DefaultRecommendations := Recommendations([101, 102, 103], [201, 202, 203], [301, 302, 303])

  /** `(h < 30) or (h > 330)`.  The result does not depend on it: both
      branches of the source assign the same three lists. */
  predicate IsWarm(h: real) {
    h < 30.0 || h > 330.0
  }

  /** Every id of `ids` is a library shade of tone `tone`. */
  predicate AllOfTone(ids: seq<int>, tone: Tone) {
    forall i :: 0 <= i < |ids| ==> ids[i] in Library() && Library()[ids[i]].tone == tone
  }

  predicate Distinct(ids: seq<int>) {
    forall i, j :: 0 <= i < j < |ids| ==> ids[i] != ids[j]
  }

  /** A well-formed answer: three distinct shades in each list, each of the
      list's tone. */
  predicate WellFormed(r: Recommendations) {
    && |r.warm| == 3 && |r.cool| == 3 && |r.neutral| == 3
    && Distinct(r.warm) && Distinct(r.cool) && Distinct(r.neutral)
    && AllOfTone(r.warm, Warm) && AllOfTone(r.cool, Cool) && AllOfTone(r.neutral, Neutral)
  }

  /** `get_recommendations`: darker skin (V below 100) gets the most vivid
      shades, medium skin (V below 170) the middle ones, lighter skin the
      deeper ones. */
  function GetRecommendations(hsv: Option<SkinHsv>): (r: Recommendations)
    ensures hsv.None? ==> r == DefaultRecommendations
    ensures |r.warm| == 3 && |r.cool| == 3 && |r.neutral| == 3
    ensures hsv.Some? && 100.0 <= hsv.value.v < 170.0 ==>
              r.cool == DefaultRecommendations.cool && r.neutral == DefaultRecommendations.neutral &&
              r.warm != DefaultRecommendations.warm
  {
    match hsv
    case None => DefaultRecommendations
    case Some(sample) =>
      if sample.v < 100.0 then
        Recommendations([101, 102, 105], [201, 204, 205], [301, 302, 305])
      else if sample.v < 170.0 then
        Recommendations([102, 103, 104], [201, 202, 203], [301, 302, 303])
      else
        Recommendations([103, 104, 105], [202, 203, 204], [302, 303, 305])
  }

  /** Whatever the sample, each list holds three distinct library shades of
      its own tone. */
  lemma RecommendationsWellFormed(hsv: Option<SkinHsv>)
    ensures WellFormed(GetRecommendations(hsv))
  {
    var r := GetRecommendations(hsv);
    ListWellFormed(r.warm, Warm);
    ListWellFormed(r.cool, Cool);
    ListWellFormed(r.neutral, Neutral);
  }

  /** Three increasing shades of one tone form a well-formed list. */
  lemma ListWellFormed(ids: seq<int>, tone: Tone)
    requires |ids| == 3 && ids[0] < ids[1] < ids[2]
    requires forall i :: 0 <= i < |ids| ==> ids[i] in ShadesOfTone(tone)
    ensures Distinct(ids) && AllOfTone(ids, tone)
  {
    ToneListsAgree(ids, tone);
  }

  /** The library's members of one tone, in shade-number order. */
  function ShadesOfTone(tone: Tone): seq<int> {
    match tone
    case Warm => [101, 102, 103, 104, 105]
    case Cool => [201, 202, 203, 204, 205]
    case Neutral => [301, 302, 303, 304, 305]
  }

  /** `ShadesOfTone` lists exactly the library's shades of that tone. */
  lemma ShadesOfToneIsCandidates(id: int, tone: Tone)
    ensures id in ShadesOfTone(tone) <==> id in Library() && Library()[id].tone == tone
  {
  }

  /** Any list drawn from `ShadesOfTone(tone)` is of that tone. */
  lemma ToneListsAgree(ids: seq<int>, tone: Tone)
    requires forall i :: 0 <= i < |ids| ==> ids[i] in ShadesOfTone(tone)
    ensures AllOfTone(ids, tone)
  {
    forall i | 0 <= i < |ids|
      ensures ids[i] in Library() && Library()[ids[i]].tone == tone
    {
      ShadesOfToneIsCandidates(ids[i], tone);
    }
  }

  /** The three brightness bands of the skin sample, with the thresholds of
      the source: below 100, below 170, and the rest. */
  predicate SameBand(x: real, y: real) {
    (x < 100.0 <==> y < 100.0) && (x < 170.0 <==> y < 170.0)
  }

  /** The recommendation table, band by band: dark skin gets 101, 102, 105 /
      201, 204, 205 / 301, 302, 305; medium skin 102, 103, 104 / 201, 202,
      203 / 301, 302, 303; light skin 103, 104, 105 / 202, 203, 204 / 302,
      303, 305. */
  lemma BrightnessBands(sample: SkinHsv)
    ensures sample.v < 100.0 ==>
              GetRecommendations(Some(sample)) == Recommendations([101, 102, 105], [201, 204, 205], [301, 302, 305])
    ensures 100.0 <= sample.v < 170.0 ==>
              GetRecommendations(Some(sample)) == Recommendations([102, 103, 104], [201, 202, 203], [301, 302, 303])
    ensures 170.0 <= sample.v ==>
              GetRecommendations(Some(sample)) == Recommendations([103, 104, 105], [202, 203, 204], [302, 303, 305])
  {
  }

  /** Two samples get the same recommendations exactly when their
      brightness falls in the same band, so both thresholds matter. */
  lemma SameAnswerIffSameBand(a: SkinHsv, b: SkinHsv)
    ensures GetRecommendations(Some(a)) == GetRecommendations(Some(b)) <==> SameBand(a.v, b.v)
  {
    BrightnessBands(a);
    BrightnessBands(b);
  }

  /** Hue and saturation play no part: two samples of equal brightness get
      the same recommendations, so the warm/cool test the source computes
      changes nothing. */
  lemma OnlyBrightnessMatters(a: SkinHsv, b: SkinHsv)
    requires a.v == b.v
    ensures GetRecommendations(Some(a)) == GetRecommendations(Some(b))
  {
  }

  /** Shade 304 is never recommended, whatever the sample. */
  lemma WheatNeverRecommended(hsv: Option<SkinHsv>)
    ensures 304 !in GetRecommendations(hsv).neutral
  {
  }

  /** The darker the skin, the earlier in the warm family the first pick:
      101 for dark skin, 102 for medium, 103 for light. */
  lemma LeadingWarmShadeFollowsBrightness(a: SkinHsv, b: SkinHsv)
    requires a.v <= b.v
    ensures GetRecommendations(Some(a)).warm[0] <= GetRecommendations(Some(b)).warm[0]
  {
  }

  /** `get_lipstick_details`: `None` for an unknown id, otherwise the id, its
      first three fields as the colour, the texture and the tone. */
  function GetLipstickDetails(id: int): (d: Option<Details>)
    ensures d.None? <==> id !in Library()
    ensures d.Some? ==> d.value.id == id && |d.value.rgb| == 3
    ensures d.Some? ==> var s := Library()[id];
              d.value.rgb == [s.r, s.g, s.b] && d.value.texture == s.texture && d.value.tone == s.tone
  {
    if id !in Library() then None
    else
      var s := Library()[id];
      Some(Details(id, [s.r, s.g, s.b], s.texture, s.tone))
  }

  /** Every library colour is an 8-bit RGB triple and every texture is one
      the renderer knows. */
  lemma LibraryWellFormed(id: int)
    requires id in Library()
    ensures var s := Library()[id];
            IsByte(s.r) && IsByte(s.g) && IsByte(s.b) && s.texture in {"matte", "gloss", "velvet"}
  {
  }

  /** Every recommended id can be looked up, and reports the tone of the list
      it was recommended in. */
  lemma RecommendedShadesHaveDetails(hsv: Option<SkinHsv>, i: nat)
    requires i < 3
    ensures var r := GetRecommendations(hsv);
            && GetLipstickDetails(r.warm[i]).Some? && GetLipstickDetails(r.warm[i]).value.tone == Warm
            && GetLipstickDetails(r.cool[i]).Some? && GetLipstickDetails(r.cool[i]).value.tone == Cool
            && GetLipstickDetails(r.neutral[i]).Some? && GetLipstickDetails(r.neutral[i]).value.tone == Neutral
  {
    RecommendationsWellFormed(hsv);
  }
}
