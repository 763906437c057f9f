/**
 * The roast composer: the humour-style table, prompt assembly with its
 * defaults for missing features, the content filter, the fallback lines used
 * when the completion endpoint is unavailable, and the stand-up routine.
 *
 * The hosted completion endpoint is a parameter `endpoint: Request ->
 * Completion`; `random.choice` is a parameter `pick`, the index it chose.
 */
module RoastGenerator {
  import opened Wrappers
  import opened Text
  import ImageAnalyzer

  // ---------------------------------------------------------------------------
  // Client and style table

  /** The composer holds a completion client or none. */
  datatype Generator = Generator(hasClient: bool)

  /** A client is created only for a non-empty key that is not the placeholder key. */
  function NewGenerator(apiKey: Option<string>): (g: Generator)
    ensures g.hasClient <==> apiKey.Some? && apiKey.value != "" && apiKey.value != "your_api_key_here"
  {
    match apiKey
    case None => Generator(false)
    case Some(key) => Generator(key != "" && key != "your_api_key_here")
  }

  datatype StyleInfo = StyleInfo(intensity: string, tone: string, examples: string)

  const HumorStyles: map<string, StyleInfo> := map[
    "savage" := StyleInfo("brutal and merciless", "sharp and cutting", "like a professional roast comedian"),
    "playful" := StyleInfo("light and teasing", "friendly but witty", "like joking with a good friend"),
    "sarcastic" := StyleInfo("dry and clever", "deadpan and ironic", "like a sarcastic movie character"),
    "absurd" := StyleInfo("weird and unexpected", "surreal but funny", "like a comedy sketch")
  ]

  // ---------------------------------------------------------------------------
  // Photo features as the composer reads them

  /**
   * The features dictionary handed to the composer. Each field is `None` when
   * its key (or the enclosing sub-dictionary) is absent; the stand-up
   * request passes a dictionary supplied by the browser, so any of them may be.
   */
  datatype PhotoFeatures = PhotoFeatures(
    faceCount: Option<int>,
    faceFeatures: Option<seq<ImageAnalyzer.FaceFeature>>,
    objects: Option<map<string, bool>>,
    theme: Option<string>,
    resolution: Option<string>)

  const NoFeatures := PhotoFeatures(None, None, None, None, None)

  function ThemeName(t: ImageAnalyzer.Theme): string {
    match t
    case Bright => "bright"
    case Dark => "dark"
    case Red => "red"
    case Green => "green"
    case Blue => "blue"
    case Mixed => "mixed"
  }

  function ResolutionName(r: ImageAnalyzer.Resolution): string {
    match r
    case Low => "low"
    case High => "high"
  }

  /** The dictionary the analyzer produces for a summary: every key is present. */
  function FromSummary(s: ImageAnalyzer.FeatureSummary): (f: PhotoFeatures)
    ensures f.faceCount == Some(s.faces.count) && f.faceFeatures == Some(s.faces.features)
    ensures f.objects == Some(map["glasses" := s.objects.glasses, "multiple_people" := s.objects.multiplePeople])
    ensures f.objects.value.Keys == {"glasses", "multiple_people"}
    ensures f.theme == Some(ThemeName(s.colors.theme))
    ensures f.resolution == Some(ResolutionName(s.composition.resolution))
  {
    PhotoFeatures(
      Some(s.faces.count),
      Some(s.faces.features),
      Some(map["glasses" := s.objects.glasses, "multiple_people" := s.objects.multiplePeople]),
      Some(ThemeName(s.colors.theme)),
      Some(ResolutionName(s.composition.resolution)))
  }

  /** `features.get('faces', {}).get('count', 0)`: the face count, or 0 when it is absent. */
  function FaceCountOf(f: PhotoFeatures): (n: int)
    ensures f.faceCount.None? ==> n == 0
    ensures f.faceCount.Some? ==> n == f.faceCount.value
  {
    f.faceCount.GetOr(0)
  }

  /** Truthiness of `features.get('objects', {}).get('glasses')`: false when the key or the objects are absent. */
  predicate GlassesOf(f: PhotoFeatures): (b: bool)
    ensures f.objects.None? ==> !b
    ensures f.objects.Some? && "glasses" !in f.objects.value ==> !b
    ensures b <==> f.objects.Some? && "glasses" in f.objects.value && f.objects.value["glasses"]
  {
    f.objects.Some? && "glasses" in f.objects.value && f.objects.value["glasses"]
  }

  // ---------------------------------------------------------------------------
  // Prompts and the completion endpoint

  /** What the roast prompt is built from; its prose is not modelled. */
  datatype RoastPrompt = RoastPrompt(
    style: StyleInfo,
    faceCount: int,
    faceFeatures: seq<ImageAnalyzer.FaceFeature>,
    objects: map<string, bool>,
    theme: string,
    resolution: string)

  datatype Prompt =
    | RoastText(roast: RoastPrompt)
    | ComebackText(userMessage: string, context: string)

  datatype Request = Request(prompt: Prompt, maxTokens: nat, temperature: real)

  /** The endpoint's answer: the reply's content, or any failure (transport, error status, no content). */
  datatype Completion = Completed(content: string) | Failed

  /**
   * The style descriptors fall back to the playful ones for an unknown
   * style; each missing feature falls back to its default.
   */
  function BuildRoastPrompt(features: PhotoFeatures, style: string): (p: RoastPrompt)
    ensures style in HumorStyles ==> p.style == HumorStyles[style]
    ensures style !in HumorStyles ==> p.style == HumorStyles["playful"]
    ensures p.faceCount == (if features.faceCount.Some? then features.faceCount.value else 0)
    ensures p.faceFeatures == (if features.faceFeatures.Some? then features.faceFeatures.value else [])
    ensures p.objects == (if features.objects.Some? then features.objects.value else map[])
    ensures p.theme == (if features.theme.Some? then features.theme.value else "unknown")
    ensures p.resolution == (if features.resolution.Some? then features.resolution.value else "unknown")
  {
    var info := if style in HumorStyles then HumorStyles[style] else HumorStyles["playful"];
    RoastPrompt(
      info,
      features.faceCount.GetOr(0),
      features.faceFeatures.GetOr([]),
      features.objects.GetOr(map[]),
      features.theme.GetOr("unknown"),
      features.resolution.GetOr("unknown"))
  }

  /** Any style outside the four named ones gets the playful descriptors. */
  lemma UnknownStyleIsPlayful(features: PhotoFeatures, style: string)
    requires style != "savage" && style != "playful" && style != "sarcastic" && style != "absurd"
    ensures BuildRoastPrompt(features, style).style
         == StyleInfo("light and teasing", "friendly but witty", "like joking with a good friend")
  {
  }

  /** An empty features dictionary gives the documented defaults. */
  lemma EmptyFeaturesDefaults(style: string)
    ensures var p := BuildRoastPrompt(NoFeatures, style);
            p.faceCount == 0 && p.faceFeatures == [] && p.objects == map[]
            && p.theme == "unknown" && p.resolution == "unknown"
  {
  }

  function RoastRequest(features: PhotoFeatures, style: string): (q: Request)
    ensures q.maxTokens == 150 && q.temperature == 0.8
    ensures q.prompt == RoastText(BuildRoastPrompt(features, style))
  {
    Request(RoastText(BuildRoastPrompt(features, style)), 150, 0.8)
  }

  function ComebackRequest(message: string, context: string): (q: Request)
    ensures q.maxTokens == 80 && q.temperature == 0.9
    ensures q.prompt == ComebackText(message, context)
  {
    Request(ComebackText(message, context), 80, 0.9)
  }

  // ---------------------------------------------------------------------------
  // Content filter

  const DenyWords: seq<string> := ["ugly", "stupid", "fat", "dumb"]

  const Placeholder: string := "interesting"

  predicate NonEmptyWords(ws: seq<string>) {
    forall i :: 0 <= i < |ws| ==> |ws[i]| > 0
  }

  /**
   * One round of the filter: the guard looks for the lower-cased `w` in the
   * lower-cased text, but the replacement is applied to the text itself and
   * is case sensitive. A text without `w` is unchanged, and a lower-case word
   * that cannot overlap the placeholder is gone afterwards.
   */
  function FilterStep(s: string, w: string): (r: string)
    requires |w| > 0
    ensures !Contains(s, w) ==> r == s
    ensures IsLowerWord(w) && NoOverlap(w, Placeholder) ==> !Contains(r, w)
  {
    ReplacementOfWord(s, w);
    GuardFindsLowerWord(s, w);
    if Contains(Lower(s), Lower(w)) then ReplaceAll(s, w, Placeholder) else s
  }

  /** What one replacement by the placeholder does to a word: nothing when it is absent, and removes it when it cannot overlap the placeholder. */
  lemma ReplacementOfWord(s: string, w: string)
    requires |w| > 0
    ensures !Contains(s, w) ==> ReplaceAll(s, w, Placeholder) == s
    ensures NoOverlap(w, Placeholder) ==> !Contains(ReplaceAll(s, w, Placeholder), w)
  {
    if !Contains(s, w) {
      ReplaceAbsent(s, w, Placeholder);
    }
    if NoOverlap(w, Placeholder) {
      ReplaceLeavesNoOccurrence(s, w, Placeholder, w);
    }
  }

  /** The case-insensitive guard fires whenever a lower-case word occurs in the text as it is. */
  lemma GuardFindsLowerWord(s: string, w: string)
    ensures IsLowerWord(w) && Contains(s, w) ==> Contains(Lower(s), Lower(w))
  {
    if IsLowerWord(w) {
      LowerOfLowerWord(w);
      LowerKeepsLowerWord(s, w);
    }
  }

  /** The filter's rounds, one per word of `ws`, in order; rounds over words absent from the text change nothing. */
  function FilterWith(s: string, ws: seq<string>): (r: string)
    requires NonEmptyWords(ws)
    ensures (forall i :: 0 <= i < |ws| ==> !Contains(s, ws[i])) ==> r == s
    decreases |ws|
  {
    if ws == [] then s else FilterWith(FilterStep(s, ws[0]), ws[1..])
  }

  /**
   * The text that `_filter_content` returns. The replacement is case
   * sensitive: a text without a lower-case occurrence of any deny-list word
   * comes back unchanged, even when the case-insensitive guard fires.
   */
  function Filtered(s: string): (r: string)
    ensures (forall w :: w in DenyWords ==> !Contains(s, w)) ==> r == s
  {
    FilterWith(s, DenyWords)
  }

  /** The filter as the source runs it: one loop pass per deny-list word, reassigning the text. */
  method FilterContent(roast: string) returns (filtered: string)
    ensures filtered == Filtered(roast)
  {
    filtered := roast;
    for i := 0 to |DenyWords|
      invariant FilterWith(filtered, DenyWords[i..]) == Filtered(roast)
    {
      var word := DenyWords[i];
      assert DenyWords[i..][1..] == DenyWords[i + 1..];
      if Contains(Lower(filtered), Lower(word)) {
        filtered := ReplaceAll(filtered, word, Placeholder);
      }
    }
  }

  /** Every deny-list word is lower case and cannot overlap the placeholder. */
  lemma DenyWordIsSafe(w: string)
    requires w in DenyWords
    ensures IsLowerWord(w) && NoOverlap(w, Placeholder)
  {
    if w == "ugly" || w == "fat" || w == "dumb" {
      NoOverlapByHeads(w, Placeholder);
    } else {
      assert w == "stupid";
      forall k | 0 <= k < |Placeholder| ensures !Agree(Placeholder[k..], w) {
        if Agree(Placeholder[k..], w) {
          AgreeAt(Placeholder[k..], w, 0);
          assert k == 6;
          AgreeAt(Placeholder[k..], w, 2);
        }
      }
      forall j | 0 < j < |w| ensures !IsPrefix(w[j..], Placeholder) {
        if IsPrefix(w[j..], Placeholder) {
          AgreeAt(w[j..], Placeholder, 0);
          assert j == 4;
          AgreeAt(w[j..], Placeholder, 1);
        }
      }
    }
  }

  /**
   * After the rounds over `ws`, no word of `ws` occurs in the text, and no
   * other safe word that was absent has appeared.
   */
  lemma {:induction false} FilterWithRemoves(s: string, ws: seq<string>, q: string)
    requires NonEmptyWords(ws)
    requires forall i :: 0 <= i < |ws| ==> IsLowerWord(ws[i])
    requires NoOverlap(q, Placeholder)
    requires q in ws || !Contains(s, q)
    ensures !Contains(FilterWith(s, ws), q)
    decreases |ws|
  {
    if ws != [] {
      var w := ws[0];
      var next := FilterStep(s, w);
      if q == w || !Contains(s, q) {
        if Contains(Lower(s), Lower(w)) {
          ReplaceLeavesNoOccurrence(s, w, Placeholder, q);
        } else {
          LowerOfLowerWord(w);
          LowerKeepsLowerWord(s, w);
        }
      }
      assert q in ws[1..] || !Contains(next, q);
      FilterWithRemoves(next, ws[1..], q);
    }
  }

  /** The filtered text holds no (lower-case) occurrence of any deny-list word. */
  lemma FilterRemovesDenyWords(s: string)
    ensures forall w :: w in DenyWords ==> !Contains(Filtered(s), w)
  {
    forall w | w in DenyWords ensures !Contains(Filtered(s), w) {
      forall v | v in DenyWords ensures IsLowerWord(v) {
        DenyWordIsSafe(v);
      }
      DenyWordIsSafe(w);
      FilterWithRemoves(s, DenyWords, w);
    }
  }

  /**
   * A deny-list word that occurs in the text is replaced by the placeholder:
   * the text is copied up to its first occurrence, the occurrence becomes
   * "interesting", and replacement resumes after it.
   */
  lemma FilterStepReplacesFirst(s: string, w: string)
    requires w in DenyWords && Contains(s, w)
    ensures var i := FirstMatch(s, w);
            && i + |w| <= |s| && s[i..i + |w|] == w
            && FilterStep(s, w) == s[..i] + Placeholder + ReplaceAll(s[i + |w|..], w, Placeholder)
  {
    DenyWordIsSafe(w);
    LowerOfLowerWord(w);
    LowerKeepsLowerWord(s, w);
    ReplaceAtFirstMatch(s, w, Placeholder);
  }

  /** A text in which not even the lower-cased form holds a deny-list word is returned unchanged. */
  lemma FilterKeepsCleanText(s: string)
    requires forall w :: w in DenyWords ==> !Contains(Lower(s), w)
    ensures Filtered(s) == s
  {
    forall w | w in DenyWords ensures !Contains(s, w) {
      DenyWordIsSafe(w);
      LowerKeepsLowerWord(s, w);
    }
  }

  /** Filtering twice is filtering once. */
  lemma FilterIdempotent(s: string)
    ensures Filtered(Filtered(s)) == Filtered(s)
  {
    FilterRemovesDenyWords(s);
  }

  /** "You are UGLY" passes the guard for "ugly" but is returned unchanged. */
  lemma UpperCaseSurvives()
    ensures Contains(Lower("You are UGLY"), "ugly")
    ensures Filtered("You are UGLY") == "You are UGLY"
  {
    var s := "You are UGLY";
    var l := Lower(s);
    assert l[8..12] == "ugly";
    assert Occurs(l, "ugly", 8);
    MissingCharNotContained(s, "ugly", 2);
    MissingCharNotContained(s, "stupid", 0);
    MissingCharNotContained(s, "fat", 0);
    MissingCharNotContained(s, "dumb", 0);
  }

  /** There is no word boundary: "fathom" becomes "interestinghom". */
  lemma ReplacementIgnoresWordBoundaries()
    ensures Filtered("fathom") == "interestinghom"
  {
    FathomSkipsUglyAndStupid();
    FathomLosesFat();
    assert FilterWith("fathom", ["fat", "dumb"]) == FilterWith("interestinghom", ["dumb"]);
    InterestinghomSkipsDumb();
  }

  lemma FathomSkipsUglyAndStupid()
    ensures Filtered("fathom") == FilterWith("fathom", ["fat", "dumb"])
  {
    var s := "fathom";
    MissingCharNotContained(s, "ugly", 0);
    FilterWithSkips(s, DenyWords);
    MissingCharNotContained(s, "stupid", 0);
    FilterWithSkips(s, ["stupid", "fat", "dumb"]);
  }

  lemma InterestinghomSkipsDumb()
    ensures FilterWith("interestinghom", ["dumb"]) == "interestinghom"
  {
    MissingCharNotContained("interestinghom", "dumb", 0);
    FilterWithSkips("interestinghom", ["dumb"]);
  }

  /** A round over a word absent from the text is skipped. */
  lemma FilterWithSkips(s: string, ws: seq<string>)
    requires NonEmptyWords(ws) && ws != [] && !Contains(s, ws[0])
    ensures FilterWith(s, ws) == FilterWith(s, ws[1..])
  {
  }

  /** The round for "fat" replaces the start of "fathom". */
  lemma FathomLosesFat()
    ensures FilterStep("fathom", "fat") == "interestinghom"
  {
    var s := "fathom";
    assert Occurs(s, "fat", 0);
    FilterStepReplacesFirst(s, "fat");
    assert s[..0] == [] && s[3..] == "hom";
    MissingCharNotContained("hom", "fat", 0);
    ReplaceAbsent("hom", "fat", Placeholder);
  }

  // ---------------------------------------------------------------------------
  // Generation with fallbacks

  const RoastFallbacks: seq<string> := [
    "I'd roast you, but I'm afraid you'd melt from all that heat!",
    "This photo has more filters than a coffee shop!",
    "I've seen better composition in a toddler's finger painting!",
    "Is this a selfie or a witness protection photo?",
    "This photo screams 'I have a great personality'!"
  ]

  const ComebackFallbacks: seq<string> := [
    "That's what they all say!",
    "I've heard better comebacks from a broken boomerang!",
    "Nice try, but I've seen sharper wit on a butter knife!",
    "Is that your final answer or are you still loading?"
  ]

  /**
   * A roast: without a client, or when the call fails, a fallback line;
   * otherwise the stripped reply, filtered.
   */
  function GenerateRoast(gen: Generator, features: PhotoFeatures, style: string,
                         endpoint: Request -> Completion, pick: nat): (r: string)
    requires pick < |RoastFallbacks|
    ensures !gen.hasClient ==> r in RoastFallbacks
    ensures endpoint(RoastRequest(features, style)).Failed? ==> r in RoastFallbacks
    ensures gen.hasClient && endpoint(RoastRequest(features, style)).Completed? ==>
              r == Filtered(Strip(endpoint(RoastRequest(features, style)).content))
  {
    if !gen.hasClient then RoastFallbacks[pick]
    else match endpoint(RoastRequest(features, style))
      case Completed(content) => Filtered(Strip(content))
      case Failed => RoastFallbacks[pick]
  }

  /** Without a client the endpoint is never consulted. */
  lemma NoClientNoCall(features: PhotoFeatures, style: string,
                       e1: Request -> Completion, e2: Request -> Completion, pick: nat)
    requires pick < |RoastFallbacks|
    ensures GenerateRoast(Generator(false), features, style, e1, pick)
         == GenerateRoast(Generator(false), features, style, e2, pick)
  {
  }

  /** A roast is a fallback line or holds no lower-case deny-list word. */
  lemma RoastIsFallbackOrClean(gen: Generator, features: PhotoFeatures, style: string,
                               endpoint: Request -> Completion, pick: nat)
    requires pick < |RoastFallbacks|
    ensures var r := GenerateRoast(gen, features, style, endpoint, pick);
            r in RoastFallbacks || forall w :: w in DenyWords ==> !Contains(r, w)
  {
    var q := RoastRequest(features, style);
    if gen.hasClient && endpoint(q).Completed? {
      FilterRemovesDenyWords(Strip(endpoint(q).content));
    }
  }

  /**
   * A comeback: without a client, or when the call fails, a fallback line;
   * otherwise the stripped reply, which is not filtered.
   */
  function GenerateComeback(gen: Generator, message: string, context: string,
                            endpoint: Request -> Completion, pick: nat): (r: string)
    requires pick < |ComebackFallbacks|
    ensures !gen.hasClient ==> r in ComebackFallbacks
    ensures endpoint(ComebackRequest(message, context)).Failed? ==> r in ComebackFallbacks
    ensures gen.hasClient && endpoint(ComebackRequest(message, context)).Completed? ==>
              r == Strip(endpoint(ComebackRequest(message, context)).content)
  {
    if !gen.hasClient then ComebackFallbacks[pick]
    else match endpoint(ComebackRequest(message, context))
      case Completed(content) => Strip(content)
      case Failed => ComebackFallbacks[pick]
  }

  /** A deny-list word in a comeback reply reaches the caller. */
  lemma ComebackIsNotFiltered(message: string, context: string, pick: nat)
    requires pick < |ComebackFallbacks|
    ensures var r := GenerateComeback(Generator(true), message, context, _ => Completed("you are ugly"), pick);
            r == "you are ugly" && Contains(r, "ugly")
  {
    var s := "you are ugly";
    assert !IsSpace(s[0]) && !IsSpace(s[|s| - 1]);
    assert s[8..12] == "ugly";
    assert Occurs(s, "ugly", 8);
  }

  // ---------------------------------------------------------------------------
  // Stand-up routine

  const Opener: string := "So I was looking at this photo and... "
  const MultiplePeopleJoke: string := "I see multiple people in this photo. Safety in numbers, smart choice!"
  const GlassesJoke: string := "Those glasses are so thick, I bet you can see into next week!"
  const ClosingJoke: string :=
    "But hey, at least you're brave enough to share photos online. That takes confidence... or poor judgment!"

  /**
   * The routine before truncation: the opening line comes first and the
   * closing line last; the optional jokes sit in between, the
   * multiple-people joke before the glasses joke.
   */
  function FullRoutine(opening: string, multiple: bool, glasses: bool): (r: seq<string>)
    ensures |r| == 2 + (if multiple then 1 else 0) + (if glasses then 1 else 0)
    ensures r[0] == Opener + opening
    ensures r[|r| - 1] == ClosingJoke
    ensures multiple ==> r[1] == MultiplePeopleJoke
    ensures glasses ==> r[|r| - 2] == GlassesJoke
  {
    [Opener + opening]
      + (if multiple then [MultiplePeopleJoke] else [])
      + (if glasses then [GlassesJoke] else [])
      + [ClosingJoke]
  }

  /** `jokes[:3] if duration == "short" else jokes` */
  function Truncated(jokes: seq<string>, duration: string): (r: seq<string>)
    ensures duration == "short" ==> |r| == (if |jokes| < 3 then |jokes| else 3)
    ensures duration != "short" ==> r == jokes
    ensures r <= jokes
  {
    if duration == "short" && |jokes| > 3 then jokes[..3] else jokes
  }

  /** The routine as the source builds it: the opening roast, then one append per joke, then truncation. */
  method CreateStandupRoutine(gen: Generator, features: PhotoFeatures, duration: string,
                              endpoint: Request -> Completion, pick: nat) returns (jokes: seq<string>)
    requires pick < |RoastFallbacks|
    ensures jokes == Truncated(
              FullRoutine(GenerateRoast(gen, features, "playful", endpoint, pick),
                          FaceCountOf(features) > 1, GlassesOf(features)),
              duration)
  {
    jokes := [];
    var opening := GenerateRoast(gen, features, "playful", endpoint, pick);
    jokes := jokes + [Opener + opening];
    if FaceCountOf(features) > 1 {
      jokes := jokes + [MultiplePeopleJoke];
    }
    if GlassesOf(features) {
      jokes := jokes + [GlassesJoke];
    }
    jokes := jokes + [ClosingJoke];
    assert jokes == FullRoutine(opening, FaceCountOf(features) > 1, GlassesOf(features));
    if duration == "short" {
      jokes := if |jokes| > 3 then jokes[..3] else jokes;
    }
  }

  /**
   * A short routine has three entries when one of the two flags is set and
   * two otherwise: with both flags the closing line is cut, with neither only
   * the opening and the closing remain.
   */
  lemma ShortRoutineCases(opening: string, multiple: bool, glasses: bool)
    ensures var r := Truncated(FullRoutine(opening, multiple, glasses), "short");
            && |r| == (if multiple || glasses then 3 else 2)
            && r[0] == Opener + opening
            && (multiple && glasses ==> r == [Opener + opening, MultiplePeopleJoke, GlassesJoke])
            && (!multiple && !glasses ==> r == [Opener + opening, ClosingJoke])
            && (multiple != glasses ==> r[2] == ClosingJoke)
  {
  }

  /** For an analyzed photo the routine's optional jokes follow the analyzer's two flags. */
  lemma RoutineFollowsAnalysis(s: ImageAnalyzer.FeatureSummary)
    requires s.objects.multiplePeople == (s.faces.count > 1)
    ensures (FaceCountOf(FromSummary(s)) > 1) == s.objects.multiplePeople
    ensures GlassesOf(FromSummary(s)) == s.objects.glasses
  {
  }
}
