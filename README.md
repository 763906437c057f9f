# AI Roast Master — a Dafny model of its core

AI Roast Master is a small web service. A user uploads a photo. A feature
extractor describes the photo: faces, eyes, colours and shape. A composer
turns that description into a joke, using a hosted text-completion
endpoint. When that endpoint is unavailable, the composer falls back to fixed
lines. The service also answers chat messages and comebacks, and builds a
short stand-up routine. The browser page keeps a chat history bounded to five
turns.

This project models the service's decision logic and proves its properties:

- `ImageAnalyzer` (`image_analyzer.dfy`) covers the feature extractor's rules:
  - the face size bucket and width/height ratio;
  - the glasses and several-people flags;
  - the pixel sampling stride;
  - the colour theme chosen in priority order;
  - the resolution and orientation buckets;
  - the two error outcomes of a photo analysis.
- `RoastGenerator` (`roast_generator.dfy`) covers the composer:
  - the client-or-none rule;
  - the humour-style table and the prompt's defaults for missing features;
  - the content filter;
  - the fallback paths of roasts and comebacks;
  - the stand-up routine.
- `Api` (`api.dfy`) covers the web service:
  - the empty-message and content-type checks;
  - the ordered keyword dispatch of the chat endpoint;
  - the stand-in composer the service defines when the real one cannot be imported;
  - the page's bounded chat history, as a class.
- `Text` (`text.dfy`) models the Python string operations the composer relies on: `in`, `lower()`, `replace()` and `strip()`.
- `Wrappers` (`wrappers.dfy`) defines `Option` and `Result`.

Some inputs are parameters of the model:

- The completion endpoint is a function `endpoint: Request -> Completion`. Any call that raises is `Failed`.
- `random.choice` is the index `pick` that it chose.
- The face boxes, the eye count and the mean RGB of the sample are fields of a decoded `ImageFile`. They are the output of the OpenCV detectors and of `np.mean`.

Three behaviours of the code are easy to misread:

- The filter checks for a word case-insensitively but replaces it case-sensitively. "You are UGLY" therefore comes back unchanged (`RoastGenerator.UpperCaseSurvives`, `RoastGenerator.Filtered`).
- A short routine with no flag set has two entries, not three (`RoastGenerator.ShortRoutineCases`).
- The real composer has no `chat_response` method. With the real composer loaded, a chat message that no keyword group matches raises `AttributeError`. The endpoint's exception handler then answers with the "My circuits are having a moment..." line (`Api.Chat`).

## Model

| member | source | states |
|---|---|---|
| Text.Lower | roast_generator.py:140 | `lower()` keeps the length and maps every character through the ASCII case mapping |
| Text.LowerKeepsLowerWord | roast_generator.py:140 | a lower-case word found in a text is still found once the text is lower-cased |
| Text.LowerOfLowerWord | roast_generator.py:140 | lower-casing a lower-case word, such as each deny-list word, returns it unchanged |
| Text.Contains | roast_generator.py:140 | a text holds only patterns no longer than itself |
| Text.ReplaceAll | roast_generator.py:141 | `replace` with a replacement as long as the pattern keeps the length, and a text that starts with the pattern starts with the replacement afterwards |
| Text.ReplaceAbsent | roast_generator.py:141 | `replace` of a word the text does not contain returns the text |
| Text.FirstMatch | roast_generator.py:141 | the index of the first occurrence of a pattern: no occurrence starts before it, and one starts there unless it is the end |
| Text.ReplaceUpTo | roast_generator.py:141 | `replace` copies its input unchanged up to the first occurrence |
| Text.ReplaceAtFirstMatch | roast_generator.py:141 | `replace` copies the text up to the first occurrence, puts the replacement in its place, and goes on after the occurrence |
| Text.ReplaceLeavesNoOccurrence | roast_generator.py:141 | after `replace(pat, rep)`, `pat` no longer occurs, and no word that cannot overlap `rep` and was absent has appeared |
| Text.IsSpace | roast_generator.py:57 | the blank, tab, newline and carriage return are whitespace; ASCII letters and digits are not |
| Text.TrimStart | roast_generator.py:57 | the result is a suffix with no leading whitespace, and everything dropped is whitespace |
| Text.TrimEnd | roast_generator.py:57 | the result is a prefix with no trailing whitespace, and everything dropped is whitespace |
| Text.Strip | roast_generator.py:87 | `strip()` returns a slice of its input that has no whitespace at its ends and only whitespace around it, and returns an already stripped text unchanged |
| ImageAnalyzer.SizeBucket | image_analyzer.py:44 | large iff width > 200, small iff width < 100, medium iff 100 <= width <= 200 |
| ImageAnalyzer.Ratio | image_analyzer.py:43 | the ratio times the height is the width when the height is positive, and the ratio is 1 otherwise |
| ImageAnalyzer.Describe | image_analyzer.py:40-45 | a face's descriptor carries its width and height, their ratio and its size bucket |
| ImageAnalyzer.DetectFaces | image_analyzer.py:33-48 | the count is the number of boxes, with one descriptor per box in box order |
| ImageAnalyzer.SizeBoundaries | image_analyzer.py:44 | widths 100 and 200 are medium, 99 is small and 201 is large |
| ImageAnalyzer.DetectObjects | image_analyzer.py:50-68 | glasses iff eyes > 2 * faces, with a missing eye cascade counting as no eyes; several people iff faces > 1 |
| ImageAnalyzer.QuietWithoutDetections | image_analyzer.py:57-65 | no eyes and no faces set neither flag, and neither does a missing eye cascade with at most one face |
| ImageAnalyzer.EyesWithoutFaceReadAsGlasses | image_analyzer.py:64 | a single eye and no face already reads as glasses |
| ImageAnalyzer.SampleStride | image_analyzer.py:74 | the stride `max(1, n // 100)` is at least 1, and for n >= 100 it is the integer part of n / 100 |
| ImageAnalyzer.SampleCount | image_analyzer.py:74 | the slice `[::s]` over n rows keeps the rows 0, s, 2s, ... below n: the count times s reaches n, and one fewer times s stays below it |
| ImageAnalyzer.SampleCountBounds | image_analyzer.py:73-74 | a non-empty axis keeps between 1 and n samples: all of them below 200, and between 100 and 199 from 100 on |
| ImageAnalyzer.SampleNonEmpty | image_analyzer.py:73-75 | an image with at least one pixel gives a non-empty sample |
| ImageAnalyzer.Brightness | image_analyzer.py:79 | the brightness is the mean of the three channel means |
| ImageAnalyzer.ClassifyTheme | image_analyzer.py:79-92 | each of the six themes holds exactly under its condition: bright above 200, dark below 50, then red, green, blue when that channel exceeds each other one by more than 30, mixed otherwise |
| ImageAnalyzer.DominanceExclusive | image_analyzer.py:85-90 | no two channels can both dominate, so the order of the red, green and blue tests is immaterial |
| ImageAnalyzer.AnalyzeColors | image_analyzer.py:70-94 | the brightness is the mean of the channel means, and the theme is the one classified |
| ImageAnalyzer.ThemeExamples | image_analyzer.py:81-92 | concrete means classified as bright, dark, red and mixed |
| ImageAnalyzer.AnalyzeComposition | image_analyzer.py:96-104 | the aspect ratio times the height is the width; low iff width < 500; landscape iff width > height |
| ImageAnalyzer.SquareIsPortrait | image_analyzer.py:103 | a square image is portrait |
| ImageAnalyzer.Summarize | image_analyzer.py:24-29 | the summary of a decoded image: one descriptor per face box in order, several people iff more than one face, glasses iff more than two eyes per face, the brightness and theme of the mean colour, and the aspect ratio, resolution and orientation of the image |
| ImageAnalyzer.AnalyzePhoto | image_analyzer.py:13-31 | a missing file and an undecodable one fail, each with its own error; a decoded image succeeds with exactly its summary |
| RoastGenerator.NewGenerator | roast_generator.py:11-15 | a client exists iff the key is present, non-empty and not the placeholder key |
| RoastGenerator.FromSummary | image_analyzer.py:24-29 | the features dictionary of an analysis holds the face count, the face descriptors, exactly the two object flags with their values, and the names of the theme and of the resolution |
| RoastGenerator.BuildRoastPrompt | roast_generator.py:113-125 | the style's descriptors, or the playful ones for an unknown style; each missing feature takes its default (0, [], {}, "unknown", "unknown") |
| RoastGenerator.UnknownStyleIsPlayful | roast_generator.py:115 | any style other than the four named ones gets the playful descriptors |
| RoastGenerator.EmptyFeaturesDefaults | roast_generator.py:121-125 | an empty features dictionary gives every default |
| RoastGenerator.FaceCountOf | roast_generator.py:101 | the face count, or 0 when the features have none |
| RoastGenerator.GlassesOf | roast_generator.py:104 | the glasses flag holds exactly when the objects and their glasses entry are present and the entry is true, and is false whenever either is absent |
| RoastGenerator.RoastRequest | roast_generator.py:47-55 | a roast request carries the roast prompt with at most 150 tokens at temperature 0.8 |
| RoastGenerator.ComebackRequest | roast_generator.py:65-85 | a comeback request carries the message and the context, with at most 80 tokens at temperature 0.9 |
| RoastGenerator.FilterContent | roast_generator.py:133-143 | the loop over the deny list computes the filtered text |
| RoastGenerator.DenyWordIsSafe | roast_generator.py:136-141 | every deny-list word is lower case and cannot overlap "interesting" |
| RoastGenerator.FilterStep | roast_generator.py:139-141 | one round leaves a text without the word unchanged, and removes a lower-case word that cannot overlap "interesting" |
| RoastGenerator.FilterWith | roast_generator.py:139-141 | rounds over words absent from the text leave the text unchanged |
| RoastGenerator.FilterWithRemoves | roast_generator.py:139-141 | after the rounds, no filtered word occurs, and no safe word that was absent has appeared |
| RoastGenerator.FilterRemovesDenyWords | roast_generator.py:139-141 | the filtered text holds no occurrence of any deny-list word |
| RoastGenerator.Filtered | roast_generator.py:133-143 | a text with no lower-case deny-list word comes back unchanged, even when the case-insensitive guard fires |
| RoastGenerator.FilterStepReplacesFirst | roast_generator.py:139-141 | a deny-list word in the text is replaced at its first occurrence by "interesting", the text before it copied and the rest replaced in turn |
| RoastGenerator.FilterKeepsCleanText | roast_generator.py:136-143 | a text whose lower-cased form holds no deny-list word comes back unchanged |
| RoastGenerator.FilterIdempotent | roast_generator.py:139-141 | filtering twice is filtering once |
| RoastGenerator.UpperCaseSurvives | roast_generator.py:140-141 | "You are UGLY" passes the guard for "ugly" and comes back unchanged |
| RoastGenerator.ReplacementIgnoresWordBoundaries | roast_generator.py:141 | "fathom" becomes "interestinghom" |
| RoastGenerator.GenerateRoast | roast_generator.py:39-61 | without a client, or when the call fails, a member of the five roast fallbacks; otherwise the stripped reply, filtered |
| RoastGenerator.NoClientNoCall | roast_generator.py:43-44 | without a client the endpoint is never consulted |
| RoastGenerator.RoastIsFallbackOrClean | roast_generator.py:57-61 | every roast is a fallback line or holds no deny-list word |
| RoastGenerator.GenerateComeback | roast_generator.py:63-90 | without a client, or when the call fails, a member of the four comeback fallbacks; otherwise the stripped reply, unfiltered |
| RoastGenerator.ComebackIsNotFiltered | roast_generator.py:87 | a reply holding "ugly" reaches the caller as it is |
| RoastGenerator.FullRoutine | roast_generator.py:94-109 | 2 entries plus one per set flag: the opener plus the roast first, the closing line last, the several-people joke before the glasses joke |
| RoastGenerator.Truncated | roast_generator.py:111 | a short routine keeps the first min(3, n) entries; any other duration keeps all of them |
| RoastGenerator.CreateStandupRoutine | roast_generator.py:92-111 | the appends compute the full routine from the playful roast and the two flags, then truncate it |
| RoastGenerator.ShortRoutineCases | roast_generator.py:101-111 | a short routine has 3 entries when a flag is set and 2 otherwise; with both flags the closing line is cut; with neither, only the opener and the closing line remain |
| RoastGenerator.RoutineFollowsAnalysis | roast_generator.py:101-105 | for an analyzed photo, the routine's optional jokes follow the analyzer's two flags |
| Api.StubChatResponse | api.py:26-33 | the stand-in's chat reply is always one of its four lines |
| Api.StubReplyByLength | api.py:33 | the stand-in's reply depends only on the message length modulo 4 |
| Api.StubReplyExamples | api.py:27-33 | a four-character message gets the first line and a one-character message the second |
| Api.ChatDispatch | api.py:396-412 | the answer is one of the seven canned lines; a greeting word always gets the greeting line, a question mark always gets some line, and there is no answer iff no group matches |
| Api.FirstMatchWins | api.py:396-409 | in an ordered dispatch, the first group that matches gives the answer |
| Api.NoMatchNoLine | api.py:410-412 | an ordered dispatch has no answer iff no group matches |
| Api.DispatchIsFirstMatch | api.py:396-412 | the if/elif chain equals the first-match reading of the seven groups, in their order |
| Api.BoringIsAGreeting | api.py:396-409 | "this is boring" holds "hi", so it gets the greeting line although it also holds the insult "boring" |
| Api.ShoutedGreeting | api.py:396 | case does not matter for keywords: "HELLO" gets the greeting line |
| Api.Present | api.py:392 | a missing or empty message is absent and any non-empty one present |
| Api.Chat | api.py:387-418 | a missing or empty message is rejected with 400; otherwise the matching group answers; with no match, the stand-in answers by length and the real composer ends in the circuits line |
| Api.ComposerOnlyWithoutMatch | api.py:410-412 | when some group matches, the answer is a canned line whichever composer and context are given |
| Api.HelloExample | api.py:389-397 | "hello" and "this is boring" are answered by the greeting line with either composer; a missing message is rejected |
| Api.ComebackEndpoint | api.py:373-384 | a missing or empty message is rejected with 400; otherwise the composer's comeback with an empty context, or the stand-in's line |
| Api.ComebackAnswersEveryMessage | api.py:375-380 | every present message gets a comeback, a fallback line when there is no client |
| Api.IsImageType | api.py:344 | a type is an image type exactly when it is present and starts with "image/"; a missing type, or one shorter than "image/", is none |
| Api.RoastPhoto | api.py:341-363 | a missing or non-image content type is rejected with 400; an unreadable file gets the technical-difficulties roast with the backup marker; otherwise the body carries the analyzer's whole summary and the roast of its features in the requested style |
| Api.ContentTypeExamples | api.py:344-345 | no type, "" and "text/plain" are refused; "image/png" is accepted |
| Api.Standup | api.py:420-425 | the real composer's short routine, with its 2 or 3 entries led by the opener, or the stand-in's two lines |
| Api.PushBounded | api.py:268-269 | after an exchange, the new turn is the last entry |
| Api.PushBoundedKeepsBound | api.py:268-269 | a history of at most five stays so: it grows by one until full, then slides |
| Api.ReplayKeepsLatest | api.py:268-269 | after any sequence of exchanges, the history holds the last five turns, or all of them while fewer were recorded |
| Api.ChatHistory.constructor | api.py:195 | the page starts with an empty history |
| Api.ChatHistory.Record | api.py:268-269 | one push and conditional shift, which keeps the history the last five recorded turns |

## Left out

- The browser page's HTML, CSS and DOM handling, apart from the two lines that bound the chat history. They are presentation only.
- FastAPI routing, CORS, the health endpoint and the server entry point. This is plumbing with no logic of its own.
- The temporary file write and its removal in `finally` are file-system I/O. The model's upload carries what the analyzer finds instead.
- The OpenCV cascade loading and detection, and the colour-space conversions. Boxes and the eye count are inputs.
- The analyzer's constructor error when the face cascade cannot be loaded. It only stops server start-up.
- `_detect_objects` runs the face detector a second time. The model assumes both runs find the same faces.
- `np.mean` and float arithmetic are modelled by exact reals.
- The hosted completion calls are modelled by the `endpoint` parameter.
- `random.choice` is modelled by an index parameter, not as a distribution.
- The prompt prose and the system messages. Only the style lookup, the feature defaults, the token limits and the temperatures are modelled.
- Text.Lower: `lower()` maps only ASCII letters. Python's Unicode case mapping is not modelled. This matters only for the chat dispatch (api.py:396-408): "JO\u212AE", with a Kelvin sign, lowers to "joke" in Python but not in the model. The filter's output does not depend on it: a lower-case ASCII word that occurs in the text is found under any case mapping, and replacing a word that does not occur changes nothing.
- Text.ReplaceAll: requires a non-empty pattern. Every pattern the service passes is a deny-list word.
- ImageAnalyzer.AnalyzeComposition: requires a positive height. A decoded image always has one.
- ImageAnalyzer.AnalyzePhoto and Api.RoastPhoto: require a decoded image to have at least one pixel in each direction, as a decoded image always does.
- The stand-in feature extractor that the service defines when `image_analyzer` cannot be imported (api.py:9-14). The model pairs the real extractor with either composer.
- Api.ComebackEndpoint: takes only string messages. A non-empty value of another type passes the check at api.py:376 and is formatted into the prompt (roast_generator.py:65-71), which cannot fail for a JSON value, and the call sits inside `try` (roast_generator.py:76-90), so it too gets an ordinary comeback or a fallback line. The "speechless" answer at api.py:384 is therefore not modelled.
- Api.Chat: takes only string messages. A non-empty value of another type has no `lower()`, so the exception handler answers with the circuits line (api.py:396, 417-418) whichever composer is loaded.
- Api.Standup: takes only a features dictionary. With the real composer, a value of another type fails on `get` while the opening roast's prompt is built (roast_generator.py:121, reached through lines 97 and 41), and the endpoint answers with its error routine (api.py:426-427), which is not modelled.
- The page does not record a turn whose request fails. The model covers only the successful exchanges, which are the ones recorded.
