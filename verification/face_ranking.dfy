/** The ranking block of `detect_multiple_faces`: every detected face is
    scored by the area of its landmark bounding box minus half the distance
    of the box centre from the image centre, the faces are sorted by score
    with a stable descending sort, and the first K are kept.  The square
    root is a parameter. */
module FaceRanking {
  import opened Basics
  import opened FaceDetection

  /** A pixel bounding box, corners included. */
  datatype Box = Box(xMin: int, yMin: int, xMax: int, yMax: int)

  /** A face with its score and its position in detection order. */
  datatype Scored = Scored(face: seq<Landmark>, score: real, index: nat)

  /** The pixel the ranking uses for a landmark: plain truncation, no scale factor. */
  function RankingPixel(lm: Landmark, width: nat, height: nat): Point {
    Point(Trunc(lm.x * width as real), Trunc(lm.y * height as real))
  }

  /** The running min/max over the landmark pixels, seeded with
      `x_min = w, y_min = h, x_max = 0, y_max = 0`. */
  function BoundingBox(face: seq<Landmark>, width: nat, height: nat): (b: Box)
    ensures forall i :: 0 <= i < |face| ==>
              var p := RankingPixel(face[i], width, height);
              b.xMin <= p.x <= b.xMax && b.yMin <= p.y <= b.yMax
    ensures b.xMin <= width && b.yMin <= height && 0 <= b.xMax && 0 <= b.yMax
    ensures b.xMin == width || exists i :: 0 <= i < |face| && RankingPixel(face[i], width, height).x == b.xMin
    ensures b.xMax == 0 || exists i :: 0 <= i < |face| && RankingPixel(face[i], width, height).x == b.xMax
    ensures b.yMin == height || exists i :: 0 <= i < |face| && RankingPixel(face[i], width, height).y == b.yMin
    ensures b.yMax == 0 || exists i :: 0 <= i < |face| && RankingPixel(face[i], width, height).y == b.yMax
  {
    BoxOfFirst(face, |face|, width, height)
  }

  /** The box after the loop has visited the first `n` landmarks. */
  function BoxOfFirst(face: seq<Landmark>, n: nat, width: nat, height: nat): (b: Box)
    requires n <= |face|
    ensures forall i :: 0 <= i < n ==>
              var p := RankingPixel(face[i], width, height);
              b.xMin <= p.x <= b.xMax && b.yMin <= p.y <= b.yMax
    ensures b.xMin <= width && b.yMin <= height && 0 <= b.xMax && 0 <= b.yMax
    ensures b.xMin == width || exists i :: 0 <= i < n && RankingPixel(face[i], width, height).x == b.xMin
    ensures b.xMax == 0 || exists i :: 0 <= i < n && RankingPixel(face[i], width, height).x == b.xMax
    ensures b.yMin == height || exists i :: 0 <= i < n && RankingPixel(face[i], width, height).y == b.yMin
    ensures b.yMax == 0 || exists i :: 0 <= i < n && RankingPixel(face[i], width, height).y == b.yMax
  {
    if n == 0 then Box(width, height, 0, 0)
    else
      var b := BoxOfFirst(face, n - 1, width, height);
      var p := RankingPixel(face[n - 1], width, height);
      Box(MinInt(b.xMin, p.x), MinInt(b.yMin, p.y), MaxInt(b.xMax, p.x), MaxInt(b.yMax, p.y))
  }

  function Area(b: Box): int {
    (b.xMax - b.xMin) * (b.yMax - b.yMin)
  }

  /** Python's `//` by 2 floors, as Dafny's `/` does for a positive divisor. */
  function BoxCentre(b: Box): Point {
    Point((b.xMin + b.xMax) / 2, (b.yMin + b.yMax) / 2)
  }

  function ImageCentre(width: nat, height: nat): Point {
    Point(width / 2, height / 2)
  }

  function SquaredDistance(p: Point, q: Point): int {
    (p.x - q.x) * (p.x - q.x) + (p.y - q.y) * (p.y - q.y)
  }

  /** `area - distance_to_center * 0.5` for a face's box, with `sqrt` standing for `** 0.5`. */
  function BoxScore(box: Box, width: nat, height: nat, sqrt: int -> real): real {
    var distance := sqrt(SquaredDistance(BoxCentre(box), ImageCentre(width, height)));
    Area(box) as real - distance * 0.5
  }

  function Score(face: seq<Landmark>, width: nat, height: nat, sqrt: int -> real): real {
    BoxScore(BoundingBox(face, width, height), width, height, sqrt)
  }

  /** A larger box no farther from the image centre never scores lower, and
      scores strictly higher when its area is strictly larger. */
  lemma ScoreFavoursLargeCentredFaces(boxA: Box, boxB: Box, width: nat, height: nat, sqrt: int -> real)
    requires forall x, y :: 0 <= x <= y ==> sqrt(x) <= sqrt(y)
    ensures var centre := ImageCentre(width, height);
            Area(boxA) >= Area(boxB) &&
            SquaredDistance(BoxCentre(boxA), centre) <= SquaredDistance(BoxCentre(boxB), centre) ==>
              BoxScore(boxA, width, height, sqrt) >= BoxScore(boxB, width, height, sqrt) &&
              (Area(boxA) > Area(boxB) ==> BoxScore(boxA, width, height, sqrt) > BoxScore(boxB, width, height, sqrt))
  {
    var centre := ImageCentre(width, height);
    var dA, dB := SquaredDistance(BoxCentre(boxA), centre), SquaredDistance(BoxCentre(boxB), centre);
    SquaredDistanceNonNegative(BoxCentre(boxA), centre);
    if Area(boxA) >= Area(boxB) && dA <= dB {
      assert sqrt(dA) <= sqrt(dB);
    }
  }

  lemma SquaredDistanceNonNegative(p: Point, q: Point)
    ensures SquaredDistance(p, q) >= 0
  {
    var dx, dy := p.x - q.x, p.y - q.y;
    assert dx * dx >= 0 && dy * dy >= 0;
  }

  /** The `face_info` list: each face with its score and detection index. */
  function ScoreFaces(faces: seq<seq<Landmark>>, width: nat, height: nat, sqrt: int -> real): (s: seq<Scored>)
    ensures |s| == |faces|
    ensures forall i :: 0 <= i < |s| ==> s[i] == Scored(faces[i], Score(faces[i], width, height, sqrt), i)
  {
    seq(|faces|, i requires 0 <= i < |faces| => Scored(faces[i], Score(faces[i], width, height, sqrt), i))
  }

  // ---------------------------------------------------------------------------
  // Stable descending sort

  /** `a` comes before `b` in a stable descending sort: a higher score, or an
      equal score and an earlier detection. */
  predicate Precedes(a: Scored, b: Scored) {
    a.score > b.score || (a.score == b.score && a.index < b.index)
  }

  predicate Ordered(s: seq<Scored>) {
    forall p, q :: 0 <= p < q < |s| ==> Precedes(s[p], s[q])
  }

  predicate IndicesIncreasing(s: seq<Scored>) {
    forall p, q :: 0 <= p < q < |s| ==> s[p].index < s[q].index
  }

  /** Inserts `x` after every entry whose score is at least its own. */
  function InsertByScore(x: Scored, s: seq<Scored>): (r: seq<Scored>)
    ensures |r| == |s| + 1
    ensures multiset(r) == multiset(s) + multiset{x}
  {
    if |s| == 0 then [x]
    else if s[0].score >= x.score then
      assert s == [s[0]] + s[1..];
      [s[0]] + InsertByScore(x, s[1..])
    else
      [x] + s
  }

  /** Inserting an entry detected after every entry of an ordered list keeps it ordered. */
  lemma {:induction false} InsertKeepsOrder(x: Scored, s: seq<Scored>)
    requires Ordered(s)
    requires forall e :: e in s ==> e.index < x.index
    ensures Ordered(InsertByScore(x, s))
  {
    if |s| > 0 && s[0].score >= x.score {
      var tail := InsertByScore(x, s[1..]);
      InsertKeepsOrder(x, s[1..]);
      forall q | 0 <= q < |tail|
        ensures Precedes(s[0], tail[q])
      {
        assert tail[q] in multiset(tail);
        if tail[q] != x {
          assert tail[q] in multiset(s[1..]);
          var p :| 0 <= p < |s[1..]| && s[1..][p] == tail[q];
          assert s[p + 1] == tail[q];
        }
      }
      ConsOrdered(s[0], tail);
    } else if |s| > 0 {
      forall q | 0 <= q < |s|
        ensures Precedes(x, s[q])
      {
        assert s[0].score >= s[q].score;
      }
      ConsOrdered(x, s);
    }
  }

  /** An entry that precedes every entry of an ordered list can go in front. */
  lemma ConsOrdered(h: Scored, s: seq<Scored>)
    requires Ordered(s)
    requires forall q :: 0 <= q < |s| ==> Precedes(h, s[q])
    ensures Ordered([h] + s)
  {
    var r := [h] + s;
    forall p, q | 0 <= p < q < |r|
      ensures Precedes(r[p], r[q])
    {
      assert r[q] == s[q - 1];
      if p > 0 {
        assert r[p] == s[p - 1];
      }
    }
  }

  /** `face_info.sort(key=score, reverse=True)`: insertion sort that keeps
      equal scores in their input order. */
  function SortByScore(s: seq<Scored>): (r: seq<Scored>)
    ensures |r| == |s|
    ensures multiset(r) == multiset(s)
  {
    if |s| == 0 then []
    else
      var front := s[..|s| - 1];
      assert s == front + [s[|s| - 1]];
      InsertByScore(s[|s| - 1], SortByScore(front))
  }

  /** Sorting entries listed in detection order yields a stable descending order. */
  lemma {:induction false} SortIsOrdered(s: seq<Scored>)
    requires IndicesIncreasing(s)
    ensures Ordered(SortByScore(s))
  {
    if |s| > 0 {
      var front := s[..|s| - 1];
      var last := s[|s| - 1];
      var sorted := SortByScore(front);
      SortIsOrdered(front);
      forall e | e in sorted
        ensures e.index < last.index
      {
        assert e in multiset(front);
        var p :| 0 <= p < |front| && front[p] == e;
      }
      InsertKeepsOrder(last, sorted);
    }
  }

  lemma ScoredFacesIncreasing(faces: seq<seq<Landmark>>, width: nat, height: nat, sqrt: int -> real)
    ensures IndicesIncreasing(ScoreFaces(faces, width, height, sqrt))
  {
  }

  /** The ranked `face_info[:max_num_faces]`. */
  function RankFaces(faces: seq<seq<Landmark>>, width: nat, height: nat, maxFaces: nat, sqrt: int -> real)
    : (r: seq<Scored>)
    ensures |r| == MinInt(maxFaces, |faces|)
    ensures Ordered(r)
    ensures forall j :: 0 <= j < |r| ==>
              r[j].index < |faces| && r[j] == ScoreFaces(faces, width, height, sqrt)[r[j].index]
  {
    var sorted := SortByScore(ScoreFaces(faces, width, height, sqrt));
    SortedFacesAreScored(faces, width, height, sqrt);
    ScoredPrefix(sorted, ScoreFaces(faces, width, height, sqrt), MinInt(maxFaces, |faces|));
    sorted[..MinInt(maxFaces, |faces|)]
  }

  /** The sorted `face_info` is ordered and holds only scored detections. */
  lemma SortedFacesAreScored(faces: seq<seq<Landmark>>, width: nat, height: nat, sqrt: int -> real)
    ensures var scored := ScoreFaces(faces, width, height, sqrt);
            var sorted := SortByScore(scored);
            && |sorted| == |faces|
            && Ordered(sorted)
            && forall j :: 0 <= j < |sorted| ==> sorted[j].index < |faces| && sorted[j] == scored[sorted[j].index]
  {
    var scored := ScoreFaces(faces, width, height, sqrt);
    ScoredFacesIncreasing(faces, width, height, sqrt);
    var sorted := SortByScore(scored);
    SortIsOrdered(scored);
    forall j | 0 <= j < |sorted|
      ensures sorted[j].index < |faces| && sorted[j] == scored[sorted[j].index]
    {
      assert sorted[j] in multiset(scored);
      var p :| 0 <= p < |scored| && scored[p] == sorted[j];
    }
  }

  /** A prefix of an ordered list of entries drawn from `scored` is again one. */
  lemma ScoredPrefix(sorted: seq<Scored>, scored: seq<Scored>, k: nat)
    requires Ordered(sorted) && k <= |sorted|
    requires forall j :: 0 <= j < |sorted| ==> sorted[j].index < |scored| && sorted[j] == scored[sorted[j].index]
    ensures Ordered(sorted[..k])
    ensures forall j :: 0 <= j < k ==> sorted[..k][j].index < |scored| && sorted[..k][j] == scored[sorted[..k][j].index]
  {
  }

  /** The landmark lists `detect_multiple_faces` returns, best first. */
  function DetectMultipleFaces(faces: seq<seq<Landmark>>, width: nat, height: nat, maxFaces: nat,
                               sqrt: int -> real): (r: seq<seq<Landmark>>)
    ensures |r| == MinInt(maxFaces, |faces|)
    ensures |faces| == 0 ==> r == []
  {
    var ranked := RankFaces(faces, width, height, maxFaces, sqrt);
    seq(|ranked|, j requires 0 <= j < |ranked| => ranked[j].face)
  }

  /** Along the ranking scores never increase, equal scores keep detection
      order, and no face appears twice. */
  lemma RankingIsStableDescending(faces: seq<seq<Landmark>>, width: nat, height: nat, maxFaces: nat,
                                  sqrt: int -> real, p: nat, q: nat)
    requires p < q < |RankFaces(faces, width, height, maxFaces, sqrt)|
    ensures var r := RankFaces(faces, width, height, maxFaces, sqrt);
            r[p].score >= r[q].score &&
            (r[p].score == r[q].score ==> r[p].index < r[q].index) &&
            r[p].index != r[q].index
  {
  }

  /** Every face left out ranks after every face kept: the result is the first
      K entries of a permutation of the detections. */
  lemma {:induction false} DroppedFacesRankLower(faces: seq<seq<Landmark>>, width: nat, height: nat,
                                               maxFaces: nat, sqrt: int -> real, i: nat)
    requires i < |faces|
    requires forall j :: 0 <= j < |RankFaces(faces, width, height, maxFaces, sqrt)| ==>
               RankFaces(faces, width, height, maxFaces, sqrt)[j].index != i
    ensures forall j :: 0 <= j < |RankFaces(faces, width, height, maxFaces, sqrt)| ==>
              Precedes(RankFaces(faces, width, height, maxFaces, sqrt)[j], ScoreFaces(faces, width, height, sqrt)[i])
  {
    var scored := ScoreFaces(faces, width, height, sqrt);
    var sorted := SortByScore(scored);
    var ranked := RankFaces(faces, width, height, maxFaces, sqrt);
    SortedFacesAreScored(faces, width, height, sqrt);
    assert ranked == sorted[..|ranked|];
    assert scored[i] in multiset(sorted);
    forall j | 0 <= j < |ranked|
      ensures sorted[j] != scored[i]
    {
      assert sorted[j] == ranked[j];
    }
    OmittedEntryFollowsPrefix(sorted, |ranked|, scored[i]);
  }

  /** An entry of an ordered list that is not among its first `k` entries
      comes after each of them. */
  lemma OmittedEntryFollowsPrefix(sorted: seq<Scored>, k: nat, e: Scored)
    requires Ordered(sorted) && k <= |sorted| && e in sorted
    requires forall j :: 0 <= j < k ==> sorted[j] != e
    ensures forall j :: 0 <= j < k ==> Precedes(sorted[j], e)
  {
    var pos :| 0 <= pos < |sorted| && sorted[pos] == e;
    forall j | 0 <= j < k
      ensures Precedes(sorted[j], e)
    {
      assert j < pos;
    }
  }
}
