/**
 * The feature extractor: the rules that turn detector output and pixel
 * statistics into a feature summary. The cascade detectors and the pixel
 * mean are not modelled; what they produce (face boxes, an eye count, the
 * mean RGB of the sample) is the input here.
 */
module ImageAnalyzer {
  import opened Wrappers

  /** A bounding box reported by the face detector. */
  datatype Box = Box(x: int, y: int, w: int, h: int)

  datatype FaceSize = Small | Medium | Large

  datatype FaceFeature = FaceFeature(width: int, height: int, ratio: real, size: FaceSize)

  datatype FaceReport = FaceReport(count: nat, features: seq<FaceFeature>)

  datatype ObjectHints = ObjectHints(glasses: bool, multiplePeople: bool)

  datatype Theme = Bright | Dark | Red | Green | Blue | Mixed

  datatype ColorReport = ColorReport(theme: Theme, brightness: real)

  datatype Resolution = Low | High

  datatype Orientation = Landscape | Portrait

  datatype Composition = Composition(aspectRatio: real, resolution: Resolution, orientation: Orientation)

  datatype FeatureSummary = FeatureSummary(
    faces: FaceReport,
    objects: ObjectHints,
    colors: ColorReport,
    composition: Composition)

  /** Mean red, green and blue of the sampled pixels. */
  datatype Rgb = Rgb(r: real, g: real, b: real)

  /**
   * An image file as the analyzer finds it: absent, present but not an
   * image, or decoded, with what the detectors and the pixel mean report.
   * `eyeCount` is `None` when the eye cascade could not be loaded.
   */
  datatype ImageFile =
    | Missing
    | Undecodable
    | Decoded(width: nat, height: nat, faceBoxes: seq<Box>, eyeCount: Option<nat>, mean: Rgb)

  datatype AnalysisError = NotFound | DecodeFailed

  // ---------------------------------------------------------------------------
  // Faces

  /** Size bucket of a face, by its width alone. */
  function SizeBucket(w: int): (s: FaceSize)
    ensures s == Large <==> w > 200
    ensures s == Small <==> w < 100
    ensures s == Medium <==> 100 <= w <= 200
  {
    if w > 200 then Large else if w < 100 then Small else Medium
  }

  /** Width over height, or 1 for a box without positive height. */
  function Ratio(w: int, h: int): (r: real)
    ensures h > 0 ==> r * (h as real) == w as real
    ensures h <= 0 ==> r == 1.0
  {
    if h > 0 then (w as real) / (h as real) else 1.0
  }

  /** The descriptor recorded for one detected face. */
  function Describe(b: Box): (f: FaceFeature)
    ensures f.width == b.w && f.height == b.h
    ensures f.ratio == Ratio(b.w, b.h) && f.size == SizeBucket(b.w)
  {
    FaceFeature(b.w, b.h, Ratio(b.w, b.h), SizeBucket(b.w))
  }

  /** One descriptor per detected box, in the detector's order. */
  method DetectFaces(boxes: seq<Box>) returns (report: FaceReport)
    ensures report.count == |boxes|
    ensures |report.features| == |boxes|
    ensures forall i :: 0 <= i < |boxes| ==> report.features[i] == Describe(boxes[i])
  {
    var features: seq<FaceFeature> := [];
    for i := 0 to |boxes|
      invariant |features| == i
      invariant forall j :: 0 <= j < i ==> features[j] == Describe(boxes[j])
    {
      features := features + [Describe(boxes[i])];
    }
    report := FaceReport(|boxes|, features);
  }

  /** The bucket boundaries: widths 100 and 200 are both medium. */
  lemma SizeBoundaries()
    ensures SizeBucket(99) == Small && SizeBucket(100) == Medium
    ensures SizeBucket(200) == Medium && SizeBucket(201) == Large
    ensures SizeBucket(250) == Large && SizeBucket(80) == Small && SizeBucket(150) == Medium
  {
  }

  // ---------------------------------------------------------------------------
  // Objects

  /**
   * Glasses are guessed when more than two eyes per face are found; several
   * people when more than one face is found. A missing eye cascade counts as
   * zero eyes.
   */
  function DetectObjects(eyeCount: Option<nat>, faceCount: nat): (o: ObjectHints)
    ensures o.glasses <==> eyeCount.GetOr(0) > 2 * faceCount
    ensures o.multiplePeople <==> faceCount > 1
  {
    var eyes := eyeCount.GetOr(0);
    ObjectHints(eyes > faceCount * 2, faceCount > 1)
  }

  /** With nothing detected, or without the eye cascade and at most one face, no flag is set. */
  lemma QuietWithoutDetections(faceCount: nat)
    ensures DetectObjects(Some(0), 0) == ObjectHints(false, false)
    ensures faceCount <= 1 ==> DetectObjects(None, faceCount) == ObjectHints(false, false)
  {
  }

  /** A single eye with no face at all already reads as glasses. */
  lemma EyesWithoutFaceReadAsGlasses(eyes: nat)
    requires eyes > 0
    ensures DetectObjects(Some(eyes), 0).glasses
  {
  }

  // ---------------------------------------------------------------------------
  // Colours

  /** Step between sampled rows (or columns) of an image `n` pixels tall (or wide). */
  function SampleStride(n: nat): (s: nat)
    ensures s >= 1
    ensures s <= 1 + n / 100
    ensures n >= 100 ==> 100 * s <= n < 100 * (s + 1)
  {
    if n / 100 > 1 then n / 100 else 1
  }

  /**
   * Number of rows (or columns) the slice `[::stride]` keeps out of `n`:
   * the indices 0, s, 2s, ... below `n`, so the last kept index lies below
   * `n` and the next one would not.
   */
  function SampleCount(n: nat): (c: nat)
    ensures c * SampleStride(n) >= n
    ensures (c - 1) * SampleStride(n) < n
  {
    var s := SampleStride(n);
    CeilingDivision(n, s);
    (n + s - 1) / s
  }

  lemma CeilingDivision(n: nat, s: nat)
    requires s >= 1
    ensures ((n + s - 1) / s) * s >= n
    ensures ((n + s - 1) / s - 1) * s < n
  {
    var c := (n + s - 1) / s;
    assert n + s - 1 == c * s + (n + s - 1) % s;
    assert (c - 1) * s == c * s - s;
  }

  /** A non-empty axis gives between 1 and `n` samples, and at least 100 of at most 199 once `n` reaches 100. */
  lemma SampleCountBounds(n: nat)
    requires n > 0
    ensures 1 <= SampleCount(n) <= n
    ensures n < 200 ==> SampleCount(n) == n
    ensures n >= 100 ==> 100 <= SampleCount(n) <= 199
  {
    var s := SampleStride(n);
    var c := (n + s - 1) / s;
    if n < 200 {
      assert s == 1;
    } else {
      assert n + s - 1 == c * s + (n + s - 1) % s;
      assert n <= c * s <= n + s - 1;
      if c >= 200 {
        MulMono(c, 200, s);
      }
      if c < 100 {
        MulMono(99, c, s);
      }
    }
  }

  lemma MulMono(a: int, b: int, s: nat)
    requires a >= b
    ensures a * s >= b * s
  {
    assert a * s - b * s == (a - b) * s;
  }

  /** A decoded image always yields a non-empty sample. */
  lemma SampleNonEmpty(height: nat, width: nat)
    requires height > 0 && width > 0
    ensures SampleCount(height) * SampleCount(width) >= 1
  {
    SampleCountBounds(height);
    SampleCountBounds(width);
    PositiveProduct(SampleCount(height), SampleCount(width));
  }

  lemma PositiveProduct(a: nat, b: nat)
    requires a >= 1 && b >= 1
    ensures a * b >= 1
  {
    assert a * b == (a - 1) * b + b;
  }

  /** Brightness is the mean of the three channel means. */
  function Brightness(c: Rgb): (v: real)
    ensures 3.0 * v == c.r + c.g + c.b
  {
    (c.r + c.g + c.b) / 3.0
  }

  /** One channel exceeds each of the other two by more than 30. */
  predicate Dominates(x: real, y: real, z: real) {
    x > y + 30.0 && x > z + 30.0
  }

  /**
   * The colour theme: bright above 200, dark below 50, then the dominant
   * channel in the order red, green, blue, and mixed otherwise.
   */
  function ClassifyTheme(c: Rgb): (t: Theme)
    ensures t == Bright <==> Brightness(c) > 200.0
    ensures t == Dark <==> Brightness(c) <= 200.0 && Brightness(c) < 50.0
    ensures t == Red <==> 50.0 <= Brightness(c) <= 200.0 && Dominates(c.r, c.g, c.b)
    ensures t == Green <==> 50.0 <= Brightness(c) <= 200.0 && Dominates(c.g, c.r, c.b)
    ensures t == Blue <==> 50.0 <= Brightness(c) <= 200.0 && Dominates(c.b, c.r, c.g)
    ensures t == Mixed <==>
              && 50.0 <= Brightness(c) <= 200.0
              && !Dominates(c.r, c.g, c.b) && !Dominates(c.g, c.r, c.b) && !Dominates(c.b, c.r, c.g)
  {
    var brightness := Brightness(c);
    if brightness > 200.0 then Bright
    else if brightness < 50.0 then Dark
    else if c.r > c.g + 30.0 && c.r > c.b + 30.0 then Red
    else if c.g > c.r + 30.0 && c.g > c.b + 30.0 then Green
    else if c.b > c.r + 30.0 && c.b > c.g + 30.0 then Blue
    else Mixed
  }

  /** At most one channel can dominate, so the order of the red, green and blue tests is immaterial. */
  lemma DominanceExclusive(c: Rgb)
    ensures !(Dominates(c.r, c.g, c.b) && Dominates(c.g, c.r, c.b))
    ensures !(Dominates(c.r, c.g, c.b) && Dominates(c.b, c.r, c.g))
    ensures !(Dominates(c.g, c.r, c.b) && Dominates(c.b, c.r, c.g))
  {
  }

  function AnalyzeColors(mean: Rgb): (report: ColorReport)
    ensures report.brightness * 3.0 == mean.r + mean.g + mean.b
    ensures report.theme == ClassifyTheme(mean)
  {
    ColorReport(ClassifyTheme(mean), Brightness(mean))
  }

  lemma ThemeExamples()
    ensures ClassifyTheme(Rgb(230.0, 230.0, 230.0)) == Bright
    ensures ClassifyTheme(Rgb(10.0, 10.0, 10.0)) == Dark
    ensures ClassifyTheme(Rgb(200.0, 50.0, 50.0)) == Red
    ensures ClassifyTheme(Rgb(100.0, 100.0, 100.0)) == Mixed
  {
  }

  // ---------------------------------------------------------------------------
  // Composition

  function AnalyzeComposition(width: nat, height: nat): (c: Composition)
    requires height > 0
    ensures c.aspectRatio * (height as real) == width as real
    ensures c.resolution == Low <==> width < 500
    ensures c.orientation == Landscape <==> width > height
  {
    Composition(
      (width as real) / (height as real),
      if width < 500 then Low else High,
      if width > height then Landscape else Portrait)
  }

  /** A square image counts as portrait. */
  lemma SquareIsPortrait(n: nat)
    requires n > 0
    ensures AnalyzeComposition(n, n).orientation == Portrait
  {
  }

  // ---------------------------------------------------------------------------
  // The whole analysis

  /**
   * The summary of a decoded image: one face per detected box, described in
   * order, the object hints from the eye count and the number of faces, the
   * colour report of the sampled mean and the composition of the image.
   */
  function Summarize(file: ImageFile): (s: FeatureSummary)
    requires file.Decoded? && file.width > 0 && file.height > 0
    ensures s.faces.count == |file.faceBoxes|
    ensures |s.faces.features| == |file.faceBoxes|
    ensures forall i :: 0 <= i < |file.faceBoxes| ==> s.faces.features[i] == Describe(file.faceBoxes[i])
    ensures s.objects.multiplePeople <==> |file.faceBoxes| > 1
    ensures s.objects.glasses <==> file.eyeCount.GetOr(0) > 2 * |file.faceBoxes|
    ensures 3.0 * s.colors.brightness == file.mean.r + file.mean.g + file.mean.b
    ensures s.colors.theme == ClassifyTheme(file.mean)
    ensures s.composition.aspectRatio * (file.height as real) == file.width as real
    ensures s.composition.resolution == Low <==> file.width < 500
    ensures s.composition.orientation == Landscape <==> file.width > file.height
  {
    var boxes := file.faceBoxes;
    FeatureSummary(
      FaceReport(|boxes|, seq(|boxes|, i requires 0 <= i < |boxes| => Describe(boxes[i]))),
      DetectObjects(file.eyeCount, |boxes|),
      AnalyzeColors(file.mean),
      AnalyzeComposition(file.width, file.height))
  }

  /**
   * Analysis of one image file: a missing file and an undecodable one are
   * errors, in that order; a decoded image (at least one pixel in each
   * direction) gets all four parts of the summary.
   */
  method AnalyzePhoto(file: ImageFile) returns (result: Result<FeatureSummary, AnalysisError>)
    requires file.Decoded? ==> file.width > 0 && file.height > 0
    ensures file.Missing? <==> result == Failure(NotFound)
    ensures file.Undecodable? <==> result == Failure(DecodeFailed)
    ensures file.Decoded? ==> result == Success(Summarize(file))
    ensures file.Decoded? ==>
              var s := result.value;
              && s.faces.count == |file.faceBoxes|
              && |s.faces.features| == |file.faceBoxes|
              && (forall i :: 0 <= i < |file.faceBoxes| ==> s.faces.features[i] == Describe(file.faceBoxes[i]))
              && s.objects == DetectObjects(file.eyeCount, |file.faceBoxes|)
              && s.colors == AnalyzeColors(file.mean)
              && s.composition == AnalyzeComposition(file.width, file.height)
  {
    match file {
      case Missing =>
        result := Failure(NotFound);
      case Undecodable =>
        result := Failure(DecodeFailed);
      case Decoded(width, height, boxes, eyes, mean) =>
        var faces := DetectFaces(boxes);
        assert faces.features == Summarize(file).faces.features;
        var objects := DetectObjects(eyes, |boxes|);
        result := Success(FeatureSummary(faces, objects, AnalyzeColors(mean), AnalyzeComposition(width, height)));
    }
  }
}
