/**
 * The web service's own logic: the request checks of the three POST
 * endpoints, the keyword dispatch of the chat endpoint, the stand-in
 * composer the service uses when the real one cannot be imported, and the
 * browser page's bounded chat history.
 */
module Api {
  import opened Wrappers
  import opened Text
  import ImageAnalyzer
  import opened RoastGenerator

  /**
   * The composer the service holds: the real one, or the stand-in class the
   * service defines when importing the real one fails.
   */
  datatype Backend = Full(gen: Generator) | Stub

  /** An endpoint's answer: an HTTP error with its detail, or a JSON body. */
  datatype Response<T> = Rejected(status: nat, detail: string) | Ok(body: T)

  // ---------------------------------------------------------------------------
  // The stand-in composer

  const StubRoast: string :=
    "I'd roast you, but I'm having technical difficulties. At least that's more functional than this photo!"
  const StubComeback: string := "That's what they all say!"
  const StubRoutine: seq<string> :=
    ["I'd tell you a joke, but my comedy module is broken!", "Just like this photo!"]

  const StubChatReplies: seq<string> := [
    "Oh, you want to chat? How adorable! \U{1F60F}",
    "I'm here to roast, not to be your therapist! \U{1F525}",
    "That's... actually not terrible. Are you feeling okay? \U{1F914}",
    "I've heard funnier things from a broken calculator! \U{1F602}"
  ]

  /** The stand-in's chat reply, chosen by the message's length modulo the number of replies. */
  function StubChatResponse(message: string): (r: string)
    ensures r in StubChatReplies
  {
    StubChatReplies[|message| % |StubChatReplies|]
  }

  /** The stand-in's reply depends on the message's length alone, and repeats every four characters. */
  lemma StubReplyByLength(m1: string, m2: string)
    requires |m1| % 4 == |m2| % 4
    ensures StubChatResponse(m1) == StubChatResponse(m2)
    ensures StubChatResponse(m1 + "abcd") == StubChatResponse(m1)
  {
  }

  /** Two examples: the empty-length class and a one-character message. */
  lemma StubReplyExamples()
    ensures StubChatResponse("hm?!") == StubChatReplies[0]
    ensures StubChatResponse("k") == StubChatReplies[1]
  {
  }

  // ---------------------------------------------------------------------------
  // Chat dispatch

  const GreetingWords: seq<string> := ["hello", "hi", "hey"]
  const HumorWords: seq<string> := ["funny", "joke", "laugh"]
  const PraiseWords: seq<string> := ["smart", "clever", "intelligent"]
  const RudenessWords: seq<string> := ["mean", "rude", "harsh"]
  const AffectionWords: seq<string> := ["love", "like", "awesome"]
  const InsultWords: seq<string> := ["boring", "stupid", "dumb"]

  const GreetingLine: string := "Well well, look who's trying to be friendly! \U{1F604} What's up, human?"
  const HumorLine: string := "You want funny? I AM the comedy here! \U{1F3AD} But I appreciate the recognition."
  const PraiseLine: string := "Finally, someone who recognizes my genius! \U{1F9E0} I knew you had good taste."
  const RudenessLine: string := "Mean? I prefer 'brutally honest'! \U{1F608} It's called tough love, sweetie."
  const QuestionLine: string :=
    "Questions, questions! \U{1F914} I'm an AI roast master, not Google! But I'll humor you..."
  const AffectionLine: string :=
    "Aww, you're making me blush! \U{1F60A} Well, if I could blush... which I can't... because I'm an AI... \U{1F916}"
  const InsultLine: string :=
    "Excuse me?! I'm the most entertaining AI you'll ever meet! \U{1F624} Your taste in conversation is questionable!"

  /** What the chat endpoint answers when the real composer, which has no chat reply, is asked for one. */
  const CircuitsLine: string := "My circuits are having a moment... unlike your fashion sense! \U{1F916}"

  /** Some word of the group occurs in the text. */
  predicate AnyIn(words: seq<string>, text: string) {
    exists i :: 0 <= i < |words| && Contains(text, words[i])
  }

  /**
   * The canned line of the first group that matches, in the order greeting,
   * humour, praise, rudeness, question mark, affection, insult. Keyword
   * groups are looked for in the lower-cased message, the question mark in
   * the message as it is.
   */
  function ChatDispatch(message: string): (r: Option<string>)
    ensures r.Some? ==>
              r.value in [GreetingLine, HumorLine, PraiseLine, RudenessLine, QuestionLine, AffectionLine, InsultLine]
    ensures AnyIn(GreetingWords, Lower(message)) ==> r == Some(GreetingLine)
    ensures Contains(message, "?") ==> r.Some?
    ensures r.None? <==>
              && !AnyIn(GreetingWords, Lower(message)) && !AnyIn(HumorWords, Lower(message))
              && !AnyIn(PraiseWords, Lower(message)) && !AnyIn(RudenessWords, Lower(message))
              && !Contains(message, "?")
              && !AnyIn(AffectionWords, Lower(message)) && !AnyIn(InsultWords, Lower(message))
  {
    var lowered := Lower(message);
    if AnyIn(GreetingWords, lowered) then Some(GreetingLine)
    else if AnyIn(HumorWords, lowered) then Some(HumorLine)
    else if AnyIn(PraiseWords, lowered) then Some(PraiseLine)
    else if AnyIn(RudenessWords, lowered) then Some(RudenessLine)
    else if Contains(message, "?") then Some(QuestionLine)
    else if AnyIn(AffectionWords, lowered) then Some(AffectionLine)
    else if AnyIn(InsultWords, lowered) then Some(InsultLine)
    else None
  }

  /** The dispatch as data: one entry per branch, each with the line it answers. */
  datatype KeywordGroup = Words(words: seq<string>, line: string) | QuestionMark(line: string)

  predicate Matches(g: KeywordGroup, message: string) {
    match g
    case Words(ws, _) => AnyIn(ws, Lower(message))
    case QuestionMark(_) => Contains(message, "?")
  }

  const ChatGroups: seq<KeywordGroup> := [
    Words(GreetingWords, GreetingLine),
    Words(HumorWords, HumorLine),
    Words(PraiseWords, PraiseLine),
    Words(RudenessWords, RudenessLine),
    QuestionMark(QuestionLine),
    Words(AffectionWords, AffectionLine),
    Words(InsultWords, InsultLine)
  ]

  /** Reference reading of an ordered dispatch: the line of the first group that matches. */
  function FirstMatchingLine(groups: seq<KeywordGroup>, message: string): Option<string> {
    if groups == [] then None
    else if Matches(groups[0], message) then Some(groups[0].line)
    else FirstMatchingLine(groups[1..], message)
  }

  /** When group `i` matches and none before it does, its line is the answer. */
  lemma {:induction false} FirstMatchWins(groups: seq<KeywordGroup>, message: string, i: nat)
    requires i < |groups| && Matches(groups[i], message)
    requires forall j :: 0 <= j < i ==> !Matches(groups[j], message)
    ensures FirstMatchingLine(groups, message) == Some(groups[i].line)
  {
    if i > 0 {
      assert !Matches(groups[0], message);
      forall j | 0 <= j < i - 1
        ensures !Matches(groups[1..][j], message)
      {
        assert groups[1..][j] == groups[j + 1];
      }
      FirstMatchWins(groups[1..], message, i - 1);
    }
  }

  /** There is no answer exactly when no group matches. */
  lemma {:induction false} NoMatchNoLine(groups: seq<KeywordGroup>, message: string)
    ensures FirstMatchingLine(groups, message) == None
        <==> forall j :: 0 <= j < |groups| ==> !Matches(groups[j], message)
  {
    if groups != [] {
      NoMatchNoLine(groups[1..], message);
      if !Matches(groups[0], message) {
        forall j | 0 <= j < |groups| && j > 0
          ensures Matches(groups[j], message) == Matches(groups[1..][j - 1], message)
        {
          assert groups[1..][j - 1] == groups[j];
        }
      }
    }
  }

  /** The if/elif chain answers as the first-match reading of the group table. */
  lemma DispatchIsFirstMatch(message: string)
    ensures ChatDispatch(message) == FirstMatchingLine(ChatGroups, message)
  {
    var g := ChatGroups;
    if Matches(g[0], message) {
      FirstMatchWins(g, message, 0);
    } else if Matches(g[1], message) {
      FirstMatchWins(g, message, 1);
    } else if Matches(g[2], message) {
      FirstMatchWins(g, message, 2);
    } else if Matches(g[3], message) {
      FirstMatchWins(g, message, 3);
    } else if Matches(g[4], message) {
      FirstMatchWins(g, message, 4);
    } else if Matches(g[5], message) {
      FirstMatchWins(g, message, 5);
    } else if Matches(g[6], message) {
      FirstMatchWins(g, message, 6);
    } else {
      NoMatchNoLine(g, message);
    }
  }

  /**
   * Keywords are substrings, not words: "this is boring" holds "hi", so it
   * gets the greeting line although it also holds the insult "boring".
   */
  lemma BoringIsAGreeting()
    ensures AnyIn(InsultWords, Lower("this is boring"))
    ensures ChatDispatch("this is boring") == Some(GreetingLine)
  {
    var l := Lower("this is boring");
    assert l[1..3] == GreetingWords[1];
    assert Occurs(l, GreetingWords[1], 1);
    assert l[8..14] == InsultWords[0];
    assert Occurs(l, InsultWords[0], 8);
  }

  /** Case does not matter for keywords: "HELLO" is a greeting. */
  lemma ShoutedGreeting()
    ensures ChatDispatch("HELLO") == Some(GreetingLine)
  {
    var l := Lower("HELLO");
    assert l[0] == 'h' && l[1] == 'e' && l[2] == 'l' && l[3] == 'l' && l[4] == 'o';
    assert l[0..5] == GreetingWords[0];
    assert Occurs(l, GreetingWords[0], 0);
  }

  // ---------------------------------------------------------------------------
  // The chat endpoint

  /** One exchange of the chat, as the page records it. */
  datatype Turn = Turn(user: string, ai: string)

  datatype ChatBody = ChatBody(response: string, personality: string)

  /** A message is present when the key is there and the string is not empty. */
  predicate Present(message: Option<string>): (b: bool)
    ensures message.None? || message == Some("") ==> !b
    ensures b ==> |message.value| > 0
    ensures message.Some? && |message.value| > 0 ==> b
  {
    message.Some? && message.value != ""
  }

  /**
   * The chat endpoint: an empty or missing message is rejected with 400;
   * otherwise the dispatch answers, and only when no group matches is the
   * composer asked: the stand-in replies by length, while the real composer,
   * lacking a chat reply, fails into the circuits line.
   */
  function Chat(backend: Backend, message: Option<string>, context: seq<Turn>): (r: Response<ChatBody>)
    ensures !Present(message) <==> r == Rejected(400, "Message is required")
    ensures Present(message) ==> r.Ok? && r.body.personality == "sassy"
    ensures Present(message) && ChatDispatch(message.value).Some? ==>
              r.body.response == ChatDispatch(message.value).value
    ensures Present(message) && ChatDispatch(message.value).None? ==>
              r.body.response == (if backend.Stub? then StubChatResponse(message.value) else CircuitsLine)
  {
    if !Present(message) then Rejected(400, "Message is required")
    else
      var m := message.value;
      match ChatDispatch(m)
      case Some(line) => Ok(ChatBody(line, "sassy"))
      case None =>
        if backend.Stub? then Ok(ChatBody(StubChatResponse(m), "sassy"))
        else Ok(ChatBody(CircuitsLine, "sassy"))
  }

  /** The composer is consulted only when no group matches: otherwise the backend and the context are immaterial. */
  lemma ComposerOnlyWithoutMatch(b1: Backend, b2: Backend, message: string, c1: seq<Turn>, c2: seq<Turn>)
    requires message != ""
    requires exists j :: 0 <= j < |ChatGroups| && Matches(ChatGroups[j], message)
    ensures Chat(b1, Some(message), c1) == Chat(b2, Some(message), c2)
    ensures Chat(b1, Some(message), c1).body.response in
              [GreetingLine, HumorLine, PraiseLine, RudenessLine, QuestionLine, AffectionLine, InsultLine]
  {
    DispatchIsFirstMatch(message);
    NoMatchNoLine(ChatGroups, message);
  }

  /** A greeting gets its line whichever composer is loaded. */
  lemma HelloExample(backend: Backend)
    ensures Chat(backend, Some("hello"), []) == Ok(ChatBody(GreetingLine, "sassy"))
    ensures Chat(backend, Some("this is boring"), []) == Ok(ChatBody(GreetingLine, "sassy"))
    ensures Chat(backend, None, []).Rejected?
  {
    LowerOfLowerWord("hello");
    assert Occurs("hello", GreetingWords[0], 0);
    BoringIsAGreeting();
  }

  // ---------------------------------------------------------------------------
  // The comeback endpoint

  /**
   * The comeback endpoint: an empty or missing message is rejected with 400;
   * otherwise the composer answers with an empty context.
   */
  function ComebackEndpoint(backend: Backend, message: Option<string>,
                            endpoint: Request -> Completion, pick: nat): (r: Response<string>)
    requires pick < |ComebackFallbacks|
    ensures !Present(message) <==> r == Rejected(400, "Message is required")
    ensures Present(message) && backend.Stub? ==> r == Ok(StubComeback)
    ensures Present(message) && backend.Full? ==>
              r == Ok(GenerateComeback(backend.gen, message.value, "", endpoint, pick))
  {
    if !Present(message) then Rejected(400, "Message is required")
    else if backend.Stub? then Ok(StubComeback)
    else Ok(GenerateComeback(backend.gen, message.value, "", endpoint, pick))
  }

  /** A present message always gets a comeback, and without a client it is a fallback line. */
  lemma ComebackAnswersEveryMessage(gen: Generator, message: string,
                                    endpoint: Request -> Completion, pick: nat)
    requires pick < |ComebackFallbacks|
    requires message != ""
    ensures ComebackEndpoint(Full(gen), Some(message), endpoint, pick).Ok?
    ensures !gen.hasClient ==>
              ComebackEndpoint(Full(gen), Some(message), endpoint, pick).body in ComebackFallbacks
  {
  }

  // ---------------------------------------------------------------------------
  // The roast endpoint

  /** An uploaded file: its declared content type, if any, and what the analyzer finds. */
  datatype Upload = Upload(contentType: Option<string>, file: ImageAnalyzer.ImageFile)

  /**
   * The roast body; `features` is the analyzer's whole summary, or `None`
   * where the service answers with its backup marker.
   */
  datatype RoastBody = RoastBody(roast: string, features: Option<ImageAnalyzer.FeatureSummary>, style: string)

  /** The declared type is present and starts with "image/"; a missing or shorter type is no image. */
  predicate IsImageType(contentType: Option<string>): (b: bool)
    ensures contentType.None? ==> !b
    ensures contentType.Some? && |contentType.value| < 6 ==> !b
    ensures b ==> contentType.value[..6] == "image/"
    ensures b <==> contentType.Some? && |contentType.value| >= 6 && contentType.value[..6] == "image/"
  {
    contentType.Some? && IsPrefix("image/", contentType.value)
  }

  /**
   * The roast endpoint: a non-image upload is rejected with 400; a file the
   * analyzer cannot read gets the technical-difficulties roast with the
   * backup marker; otherwise the photo is analyzed and roasted in the given
   * style.
   */
  method RoastPhoto(backend: Backend, upload: Upload, style: string,
                    endpoint: Request -> Completion, pick: nat) returns (r: Response<RoastBody>)
    requires pick < |RoastFallbacks|
    requires upload.file.Decoded? ==> upload.file.width > 0 && upload.file.height > 0
    ensures !IsImageType(upload.contentType) <==> r == Rejected(400, "File must be an image")
    ensures IsImageType(upload.contentType) && !upload.file.Decoded? ==>
              r == Ok(RoastBody(StubRoast, None, style))
    ensures IsImageType(upload.contentType) && upload.file.Decoded? ==>
              var summary := ImageAnalyzer.Summarize(upload.file);
              && r.Ok? && r.body.style == style
              && r.body.features == Some(summary)
              && FromSummary(summary).faceCount == Some(|upload.file.faceBoxes|)
              && r.body.roast == (match backend
                                  case Stub => StubRoast
                                  case Full(gen) => GenerateRoast(gen, FromSummary(summary), style, endpoint, pick))
  {
    if !IsImageType(upload.contentType) {
      return Rejected(400, "File must be an image");
    }
    var analysis := ImageAnalyzer.AnalyzePhoto(upload.file);
    if analysis.Failure? {
      return Ok(RoastBody(StubRoast, None, style));
    }
    var features := FromSummary(analysis.value);
    var roast := match backend
      case Stub => StubRoast
      case Full(gen) => GenerateRoast(gen, features, style, endpoint, pick);
    r := Ok(RoastBody(roast, Some(analysis.value), style));
  }

  /** Upload types the check turns away, and one it lets through. */
  lemma ContentTypeExamples()
    ensures !IsImageType(None) && !IsImageType(Some("")) && !IsImageType(Some("text/plain"))
    ensures IsImageType(Some("image/png"))
  {
    assert "image/png"[..6] == "image/";
    assert "text/plain"[..6] != "image/" by { assert "text/plain"[0] != "image/"[0]; }
  }

  // ---------------------------------------------------------------------------
  // The stand-up endpoint

  /** The stand-up endpoint: the composer's short routine, or the stand-in's two lines. */
  method Standup(backend: Backend, features: PhotoFeatures,
                 endpoint: Request -> Completion, pick: nat) returns (routine: seq<string>)
    requires pick < |RoastFallbacks|
    ensures backend.Stub? ==> routine == StubRoutine
    ensures backend.Full? ==>
              var opening := GenerateRoast(backend.gen, features, "playful", endpoint, pick);
              && |routine| == (if FaceCountOf(features) > 1 || GlassesOf(features) then 3 else 2)
              && routine[0] == Opener + opening
              && routine == Truncated(FullRoutine(opening, FaceCountOf(features) > 1, GlassesOf(features)), "short")
  {
    match backend {
      case Stub =>
        routine := StubRoutine;
      case Full(gen) =>
        routine := CreateStandupRoutine(gen, features, "short", endpoint, pick);
        ShortRoutineCases(GenerateRoast(gen, features, "playful", endpoint, pick),
                          FaceCountOf(features) > 1, GlassesOf(features));
    }
  }

  // ---------------------------------------------------------------------------
  // The page's chat history

  const MaxHistory: nat := 5

  /** The history after one exchange: the turn appended, then the oldest dropped when more than five are held. */
  function PushBounded(history: seq<Turn>, t: Turn): (h: seq<Turn>)
    ensures |h| > 0 && h[|h| - 1] == t
  {
    var pushed := history + [t];
    if |pushed| > MaxHistory then pushed[1..] else pushed
  }

  /** A history of at most five turns stays so, growing by one until it is full and then sliding. */
  lemma PushBoundedKeepsBound(history: seq<Turn>, t: Turn)
    requires |history| <= MaxHistory
    ensures |PushBounded(history, t)| <= MaxHistory
    ensures |history| < MaxHistory ==> PushBounded(history, t) == history + [t]
    ensures |history| == MaxHistory ==> PushBounded(history, t) == history[1..] + [t]
  {
  }

  /** The history after recording the given turns one by one, from empty. */
  function Replay(turns: seq<Turn>): seq<Turn> {
    if turns == [] then [] else PushBounded(Replay(turns[..|turns| - 1]), turns[|turns| - 1])
  }

  function Min(a: nat, b: nat): nat {
    if a < b then a else b
  }

  /** The history always holds the last five turns, or all of them while fewer have been recorded. */
  lemma {:induction false} ReplayKeepsLatest(turns: seq<Turn>)
    ensures Replay(turns) == turns[|turns| - Min(|turns|, MaxHistory)..]
  {
    if turns != [] {
      var n := |turns|;
      var prefix := turns[..n - 1];
      ReplayKeepsLatest(prefix);
      var start := (n - 1) - Min(n - 1, MaxHistory);
      AppendLast(turns, start);
    }
  }

  lemma AppendLast(turns: seq<Turn>, start: nat)
    requires start < |turns|
    ensures turns[..|turns| - 1][start..] + [turns[|turns| - 1]] == turns[start..]
  {
  }

  /**
   * The chat history of the page. `log` is every turn recorded so far; the
   * history holds its last five.
   */
  class ChatHistory {
    var turns: seq<Turn>
    ghost var log: seq<Turn>

    ghost predicate Valid()
      reads this
    {
      turns == Replay(log) && |turns| <= MaxHistory
    }

    constructor()
      ensures Valid() && turns == [] && log == []
    {
      turns := [];
      log := [];
    }

    /** Record one exchange: append it, then drop the oldest when more than five are held. */
    method Record(user: string, ai: string)
      requires Valid()
      modifies this
      ensures Valid()
      ensures turns == PushBounded(old(turns), Turn(user, ai))
      ensures log == old(log) + [Turn(user, ai)]
      ensures turns == log[|log| - Min(|log|, MaxHistory)..]
    {
      PushBoundedKeepsBound(turns, Turn(user, ai));
      turns := turns + [Turn(user, ai)];
      if |turns| > MaxHistory {
        turns := turns[1..];
      }
      log := log + [Turn(user, ai)];
      assert log[..|log| - 1] == old(log);
      ReplayKeepsLatest(log);
    }
  }
}
