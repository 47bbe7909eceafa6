# Knowledge cards for children: a verified model of the backend and the page

The system answers a child's question with a "knowledge card": a title, an
introduction, three points (each a title and a content) and a summary, written by
a language model and normalised so that it fits the card layout. This project
models its core in Dafny and proves what the code promises about it:

- the card endpoint (`api/generate-card.js`): the per-address rate limit (ten
  requests a minute), the question checks, the GLM client with the template card as
  fallback, and the reply the handler sends;
- the image endpoint (`api/generate-image.js`): its own rate limit, the card
  check, the Gemini image request and the classification of its errors;
- the GLM client (`api/lib/glm-client.js`): the request outcome checks, the JSON
  and plain-text readings of the reply, and the normaliser that caps, cleans and
  emoji-marks every field;
- the Gemini client (`api/lib/gemini-client.js`): the API key repair, the text
  and image requests, the fence-stripping JSON reader, the normaliser and the image
  prompt;
- the quality checker (`scripts/content-quality-test.js`): the standards a card is
  measured against, the issues found, the scores and the batch count;
- the page (`scripts/main.js`): question submission, the generating state, the
  mapping of errors to messages, the card's HTML and the keyword highlighting.

Everything the code receives from outside is a parameter: the client address, the
two clock readings of the rate limiter, the API keys from the environment, how each
`fetch` ended (`Js.FetchResult`: aborted by the timer, rejected with a message, or a
reply with a status, texts and a JSON body) and `JSON.parse` (a function that
yields a value or nothing, nothing meaning it threw). A JavaScript value is a
`Js.Json`; `undefined` is `Js.Option.None`; an exception is `Js.Outcome.Throw`.
Dafny strings are sequences of code points, while JavaScript counts UTF-16 code
units: every length cap proved here holds in both counts whenever the text has no
character outside the Basic Multilingual Plane; `Gemini.Utf16` models the code
units where the difference matters.

The modules follow the files: `Js` and `JsText` (the language's values and string
methods), `Cards` (the card), `RateLimit` (the store shared in shape by both
handlers), `CardApi`, `ImageApi`, `Glm`, `Gemini`, `Quality` and `Frontend`.
Objects that the code updates in place are classes: the rate limiter and its
store, the two handler services, the lazily created GLM client, the Gemini client
whose constructor repairs the key, and the page's state.

## Model

| member | source | states |
|---|---|---|
| Js.Collect | api/lib/gemini-client.js:296-301 | mapping a list with a callback that may throw: throws exactly when one element throws; otherwise one result per element, in order |
| Js.CollectAllOk | api/lib/gemini-client.js:296-301 | when every element succeeds, the mapped list is exactly their results |
| Js.Or | api/lib/glm-client.js:212 | `a \|\| b` is `a` when `a` is truthy and `b` otherwise |
| Js.OrText | api/lib/gemini-client.js:288 | `v \|\| 'default'` is `v` when truthy and the default text otherwise |
| Js.Member | api/lib/glm-client.js:103-107 | reading a property throws exactly when the object is `undefined` or `null` |
| JsText.TrimStart | api/generate-card.js:65 | the result is a suffix, everything cut is whitespace, and it does not start with whitespace |
| JsText.TrimEnd | api/generate-card.js:65 | the result is a prefix, everything cut is whitespace, and it does not end with whitespace |
| JsText.Trim | api/generate-card.js:65 | `trim()` keeps a contiguous slice that neither starts nor ends with whitespace |
| JsText.TrimCutsSpace | api/generate-card.js:65 | what `trim()` removes on both sides is whitespace only |
| JsText.TrimUntouched | api/generate-card.js:65 | a text with no whitespace at either end is its own trim |
| JsText.TrimPadded | api/generate-card.js:65 | surrounding whitespace is removed exactly, leaving the text inside |
| JsText.TrimEmptyIffBlank | api/generate-card.js:66-71 | `trim()` is empty exactly when the text is all whitespace |
| JsText.ContainsAt | api/generate-card.js:76-81 | `includes(w)` holds exactly when `w` occurs at some position |
| JsText.ContainsChar | scripts/main.js:124-130 | a one-character text is included exactly when that character occurs |
| JsText.ReplaceAllAbsent | scripts/main.js:233-237 | replacing a pattern that does not occur leaves the text unchanged |
| JsText.ReplaceCharRemoves | api/lib/glm-client.js:392-401 | replacing every occurrence of a character by a text without it removes it |
| JsText.ReplaceAllKeepsAbsent | api/lib/glm-client.js:392-401 | a global replace never introduces a character absent from the text and the replacement |
| JsText.Take | api/lib/gemini-client.js:273-277 | `_ensureLength` / `slice(0, n)`: a prefix of at most `n` characters, the whole text when it fits, exactly `n` otherwise |
| JsText.IndexOfChar | api/lib/glm-client.js:183 | the first position of a character, or -1 exactly when it is absent |
| JsText.LastIndexOfChar | api/lib/glm-client.js:183 | the last position of a character, or -1 exactly when it is absent |
| JsText.Split | api/lib/glm-client.js:316 | `split('\n')` gives at least one piece and no piece holds the separator |
| JsText.JoinSplit | api/lib/glm-client.js:316 | joining the pieces of a split with the separator gives the text back |
| JsText.SplitJoin | api/lib/gemini-client.js:196-198 | splitting pieces free of the separator after joining them gives the pieces back |
| JsText.NonBlank | api/lib/glm-client.js:316 | `filter(line => line.trim())` keeps exactly the non-blank lines: each kept line is non-blank and from the input, and every non-blank input line is kept |
| JsText.NonBlankConcat | api/lib/glm-client.js:316 | the filter keeps order: filtering a concatenation filters each part in turn |
| JsText.NoneKept | api/lib/glm-client.js:316 | a list of blank lines filters to nothing |
| JsText.BlankPrefixDropped | api/lib/glm-client.js:316-319 | blank lines before the first non-blank line are dropped, and that line comes first |
| JsText.FirstNonBlankAt | api/lib/glm-client.js:316-319 | the first non-blank line is the first line the filter keeps |
| JsText.Slice | api/lib/glm-client.js:324-332 | `slice(a, b)` is the stretch from `a` to `b`, clipped to the list |
| JsText.LastTwo | api/lib/glm-client.js:332 | `slice(-2)` is the last two elements, or all when there are fewer |
| JsText.NatToString | scripts/main.js:105 | the decimal text of a number is non-empty and all digits |
| JsText.NatToStringValue | scripts/main.js:105 | the decimal text of a number reads back, digit by digit, as that number |
| JsText.ThreeDigits | scripts/main.js:105 | a three-digit status prints as its three decimal digits |
| Cards.CardJsonFields | api/generate-card.js:161-169 | the JSON form of a card carries its title, introduction, points and summary as they are |
| RateLimit.SweepExact | api/generate-card.js:8-15 | cleanup keeps exactly the entries whose window began at most a minute ago, unchanged |
| RateLimit.Sweep | api/generate-card.js:8-15 | cleanup keeps an entry exactly when its window began at most a minute before, with its value unchanged |
| RateLimit.Check | api/generate-card.js:18-48 | a request is allowed exactly when its address has no live entry, the window has expired by the second reading, or it has had fewer than 10; an allowed one is told 10 minus its new count; a refusal gets 0 and leaves the swept store; no other address changes |
| RateLimit.FirstInWindow | api/generate-card.js:25-40 | an address with no entry, or an expired one, is allowed with 9 remaining and starts a fresh window at `now` |
| RateLimit.WithinWindow | api/generate-card.js:42-47 | inside its window an address at 10 is refused with 0 remaining and nothing changes; below 10 it is allowed, counted, and told what remains |
| RateLimit.CheckKeepsCounts | api/generate-card.js:18-48 | every check keeps all counts within 1..10, reports 0..9 remaining, and touches no other address |
| RateLimit.OneClockNeverResets | api/generate-card.js:8-40 | with one clock reading the reset branch could never fire: cleanup already removed every expired window |
| RateLimit.SecondClockResets | api/generate-card.js:20-40 | with the two readings the code takes, an expired full window kept by cleanup is reset and the request allowed |
| RateLimit.BurstWithinWindow | api/generate-card.js:18-48 | a burst inside one window is allowed until the count reaches 10 with remaining counting down, then refused |
| RateLimit.EleventhRequestRefused | api/generate-card.js:18-48 | a new address gets ten requests a minute (9, 8, …, 0 remaining) and the eleventh is refused |
| RateLimit.Limiter.constructor | api/generate-card.js:5 | a limiter starts with an empty store under its key prefix |
| RateLimit.Limiter.Cleanup | api/generate-card.js:8-15 | the loop deletes exactly the expired entries: the new store is the swept old store |
| RateLimit.Limiter.CheckRequest | api/generate-card.js:18-48 | the decision and the new store are those of the sweep at the first clock reading and the check at the second, under key prefix + address |
| CardApi.ValidateTrimmed | api/generate-card.js:66-84 | a trimmed question is valid exactly when it is non-empty, at most 200 long and free of the unsuitable words; otherwise the empty, too-long and unsuitable errors are given in that order of precedence |
| CardApi.ValidateQuestion | api/generate-card.js:60-84 | a missing, non-string or blank question gets the empty error, a trimmed text over 200 the length error, an unsuitable one the content error; a valid one is the trimmed text, 1..200 long, suitable |
| CardApi.BlankQuestionRejected | api/generate-card.js:66-71 | a question of whitespace only is rejected as empty |
| CardApi.AcceptedQuestionTrimmed | api/generate-card.js:65-84 | an accepted question has no whitespace at either end |
| CardApi.ValidationIgnoresSurroundingSpace | api/generate-card.js:65 | padding a question with whitespace does not change its validation |
| CardApi.MockCard | api/generate-card.js:181-274 | the template card always has three points and the source `mock-data` |
| CardApi.GenericCard | api/generate-card.js:254-273 | the generic card has three points and the source `mock-data` |
| CardApi.MockCardChoice | api/generate-card.js:245-251 | the first template whose keyword the question contains is used; with none, the generic card |
| CardApi.GenericTitleQuotes | api/generate-card.js:254-273 | the generic card's title contains the question |
| CardApi.SourceOf | api/generate-card.js:161-169 | the reported source is the card's own when it is non-empty, and `glm-api` otherwise |
| CardApi.Respond | api/generate-card.js:107-169 | replies are 200, 400 or 429, always carry the remaining count, 429 exactly when refused and 200 exactly with a card; a missing body gets 400 with the body error and an invalid question 400 with its validation error; a card reply carries the trimmed question, the GLM card or else the template card, and its source |
| CardApi.GeneratedReply | api/generate-card.js:124-169 | a card is sent exactly for an admitted question; it is the GLM card (source `glm-api`) or, when GLM failed, the template card (`mock-data`) |
| CardApi.ReportedSource | api/generate-card.js:145-169 | a successful GLM call is reported as `glm-api`, a failed one as `mock-data` |
| CardApi.CardService.constructor | api/generate-card.js:5 | a new handler state has an empty rate-limit store and no GLM client yet |
| CardApi.CardService.Handle | api/generate-card.js:86-178 | OPTIONS gets 200 and other non-POST methods 405, both leaving the state alone; POST checks the rate limit, then the body, then answers as `Respond` says, creating the client only for admitted questions |
| CardApi.CardService.Answer | api/generate-card.js:107-169 | after the rate-limit decision: refusal, missing body, invalid question, or the GLM card with fallback to the template |
| Glm.EmojiPrefix | api/lib/glm-client.js:305-308 | a text that starts with an emoji has one |
| Glm.EmojiConcat | api/lib/glm-client.js:305-308 | a joined text has an emoji exactly when one of its parts has |
| Glm.DropHashes | api/lib/glm-client.js:399 | dropping leading `#` keeps a suffix and removes at least one when there is one |
| Glm.StripHeadings | api/lib/glm-client.js:399 | after removing heading marks no `#` remains |
| Glm.StripHeadingsNoHash | api/lib/glm-client.js:399 | a text without `#` is unchanged by heading removal |
| Glm.CleanText | api/lib/glm-client.js:392-401 | a non-string cleans to `''`; a cleaned text is at most 500 long and holds no `*` and no `#` |
| Glm.CleanString | api/lib/glm-client.js:395-400 | the string case: at most 500 long, no `*`, no `#` |
| Glm.StripHeadingsKeepsAbsent | api/lib/glm-client.js:399 | heading removal introduces no character |
| Glm.CleanTextKeepsCleanText | api/lib/glm-client.js:392-401 | trimmed text without `*`, `#` or line breaks, within the cap, is returned unchanged |
| Glm.StarsAbsentKept | api/lib/glm-client.js:397-398 | bold and italic removal change nothing in a text without `*` |
| Glm.AbsentCharNoOccurrence | api/lib/glm-client.js:397-398 | a word with a character the text lacks does not occur in it |
| Glm.EnsureLength | api/lib/glm-client.js:266-272 | text within the cap is kept; longer text becomes its first `maxLength - 3` characters and `...`, exactly `maxLength` long |
| Glm.MarkerKept | api/lib/glm-client.js:212-216 | a short marker put in front of a text survives the cap |
| Glm.EmojiMarked | api/lib/glm-client.js:212-216 | a text that starts with an emoji marker has an emoji |
| Glm.GreetingAddresses | api/lib/glm-client.js:219-223 | an introduction opened with `小朋友，` addresses the child |
| Glm.ValidateContentDepth | api/lib/glm-client.js:280-298 | content under 60 gets the supplement chosen by the index, 60..120 is kept, over 120 is cut to 117 and `...`; never over 120 |
| Glm.ExpandContent | api/lib/glm-client.js:345-358 | text under 80 keeps its opening; 80..120 is kept; over 120 is cut to 117 and `...`; never over 120 |
| Glm.FallbackCard | api/lib/glm-client.js:365-385 | the fallback card has three points within the caps and no source |
| Glm.JoinOrIsJoin | api/lib/glm-client.js:324-332 | the point material is the lines joined with a space, or the fallback text when that is empty |
| Glm.CappedCons | api/lib/glm-client.js:226-242 | capped points stay capped with one more capped point in front |
| Glm.TextMaterial | api/lib/glm-client.js:324-332 | the material of a text-path point is at most 120 long |
| Glm.TextPointsCapped | api/lib/glm-client.js:322-333 | the three fixed-title points with contents of at most 120 fit the point caps |
| Glm.TextPoints | api/lib/glm-client.js:322-333 | the text path gives three points titled `📚 基础认知`, `🔍 深入探索`, `🎯 实际应用`; each content is the expansion of its lines (2-3, 4-5, the last two) joined by a space, or of its fallback text when they are empty |
| Glm.ParseTextContent | api/lib/glm-client.js:315-337 | the title is `🌟 ` and the first non-blank line (or `有趣的知识`), the introduction and summary are the fixed texts, the points are built from the non-blank lines, and there is no source |
| Glm.TextTitleIsFirstLine | api/lib/glm-client.js:316-319 | however many blank lines come first, the title of a text-path card is `🌟 ` followed by the first non-blank line |
| Glm.BlankReplyTitle | api/lib/glm-client.js:316-319 | a reply with no non-blank line is titled `🌟 有趣的知识` |
| Glm.BraceSpan | api/lib/glm-client.js:183 | the greedy brace match runs from the first `{` to a `}` after it, and is absent exactly when no `}` follows the first `{` |
| Glm.RequiredFieldsOfCard | api/lib/glm-client.js:189 | a card's JSON has the four required truthy fields exactly when its title, introduction and summary are non-empty (an empty points array is truthy) |
| Glm.PointEmojisAreEmoji | api/lib/glm-client.js:226-242 | the three point markers are single emoji |
| Glm.NormalisePointTitle | api/lib/glm-client.js:228-232 | the cleaned title (default `📚 知识点` and the number) passed through `ensureLength` at 12, with the emoji of its position in front when it has none; at most 12; a short one with an emoji is kept |
| Glm.NormalisePointContent | api/lib/glm-client.js:234-240 | the cleaned content (default text) brought to depth; at most 120, kept when 60..120 long |
| Glm.CleanPoint | api/lib/glm-client.js:226-242 | cleaning a point throws exactly for `null`; otherwise the point fits 12 and 120 |
| Glm.CleanPoints | api/lib/glm-client.js:226-242 | the points map throws exactly when a `null` point is present; otherwise one capped point per item, point `k` being item `k` cleaned at position `k` |
| Glm.PointOutcomes | api/lib/glm-client.js:226-242 | one outcome per item: item `k` cleaned at position `k` |
| Glm.CollectedPoints | api/lib/glm-client.js:226-242 | the collected outcomes throw exactly at a `null` item and otherwise keep the caps |
| Glm.NormaliseTitle | api/lib/glm-client.js:212-216 | the cleaned title (default `🌟 有趣的知识`) passed through `ensureLength` at 15, with `🌟 ` in front when it has no emoji, after which it has one; at most 15 |
| Glm.NormaliseIntro | api/lib/glm-client.js:219-223 | the cleaned introduction passed through `ensureLength` at 40, with `小朋友，` in front when it does not address the child, after which it does; at most 40 |
| Glm.NormaliseSummary | api/lib/glm-client.js:245-249 | the cleaned summary passed through `ensureLength` at 30, with `💡 ` in front when it has no emoji, after which it has one; at most 30 |
| Glm.NormalisePoints | api/lib/glm-client.js:226-242 | missing points give none; a non-list throws; a list gives its first min(3, n) items, point `k` being item `k` cleaned at position `k`, throwing exactly on a `null` among them |
| Glm.ValidateAndCleanCard | api/lib/glm-client.js:210-257 | the normaliser throws exactly when the points do; otherwise the title, introduction, points and summary are those of their normalisers, within 15/40/12/120/30, with no source |
| Glm.TidyTitleKept | api/lib/glm-client.js:228-232 | a tidy point title with an emoji is kept |
| Glm.TidyContentKept | api/lib/glm-client.js:234-240 | tidy point content of 60..120 characters is kept |
| Glm.TidyPointKept | api/lib/glm-client.js:226-242 | a tidy point survives its normalisation unchanged |
| Glm.TidyPointListKept | api/lib/glm-client.js:226-242 | up to three tidy points as a JSON list normalise to themselves |
| Glm.TidyCardTitleKept | api/lib/glm-client.js:212-216 | a tidy title with an emoji, at most 15 long, is kept |
| Glm.TidyIntroKept | api/lib/glm-client.js:219-223 | a tidy introduction that addresses the child, at most 40 long, is kept |
| Glm.TidySummaryKept | api/lib/glm-client.js:245-249 | a tidy summary with an emoji, at most 30 long, is kept |
| Glm.NormaliserKeepsTidyCard | api/lib/glm-client.js:210-257 | the normaliser is the identity on a card that already meets all its rules |
| Glm.ParseCardContent | api/lib/glm-client.js:180-203 | a string without braces takes the text path; braces that do not parse give the fallback card; a parse lacking a required field takes the text path; with all four the normalised card, or the fallback card when the normaliser throws; a non-string gives the fallback; always at most three capped points and no source |
| Glm.TidyReplyParsed | api/lib/glm-client.js:180-192 | a reply whose braced part parses to a tidy card gives back that card |
| Glm.StrictPathTaken | api/lib/glm-client.js:183-191 | braces, a parse with all four fields and a normaliser that succeeds: the card is the normalised object |
| Glm.StatusMessage | api/lib/glm-client.js:146-158 | 401, 429 and 5xx each have their own message, and only they do; any other status gives `API请求失败: ` followed by its decimal number |
| Glm.MakeRequest | api/lib/glm-client.js:129-173 | an ok reply yields its JSON, and only an ok reply yields anything; an abort becomes the timeout message, a network error keeps its message, a bad status gets its status message |
| Glm.GenerateKnowledgeCard | api/lib/glm-client.js:80-122 | every failure is rethrown behind `知识卡片生成失败: `; a request error keeps its message; a `null` reply or a missing first choice rethrows the TypeError; missing, falsy or empty `choices` gives the choices error; a falsy `message?.content` the content error; otherwise the card parsed from the content; a card has at most three capped points |
| Glm.ReplyContentParsed | api/lib/glm-client.js:100-113 | an ok reply with non-empty content gives the card its text parses to |
| Glm.GlmClient.constructor | api/lib/glm-client.js:68-73 | a client keeps the key it was created with |
| Glm.GlmRegistry.constructor | api/lib/glm-client.js:405 | no client exists before the first request |
| Glm.GlmRegistry.GetClient | api/lib/glm-client.js:407-412 | the first call with a key creates the single client and later calls return it; without a key and no client it throws |
| Gemini.PieceBefore | api/lib/gemini-client.js:103-106 | the text before the first separator: a prefix of the text holding no separator, followed by the end or by a separator; non-empty when the text does not start with the separator |
| Gemini.FirstPiece | api/lib/gemini-client.js:103-106 | `split('AIza').filter(p => p.length > 0)[0]` is absent exactly when the key is `AIza` repeated; otherwise it follows a run of `AIza`s, holds no `AIza` and runs up to the next one or the end |
| Gemini.PieceShifts | api/lib/gemini-client.js:103 | skipping a leading `AIza` keeps the first piece, shifted by four |
| Gemini.GeminiClient.constructor | api/lib/gemini-client.js:61-112 | the client keeps the repaired key: trimmed, and for a key over 50 de-duplicated, cut to 39 and un-repeated |
| Gemini.GetGeminiClient | api/lib/gemini-client.js:339-341 | a missing or empty key throws the configuration error; otherwise a new client with the repaired key |
| Gemini.RepairKey | api/lib/gemini-client.js:68-108 | a trimmed key of at most 50 characters is kept as it is; when step 3 fires the key becomes `AIza` followed by the first non-empty piece between `AIza`s; the repair never makes a key longer |
| Gemini.UnrepeatShortens | api/lib/gemini-client.js:102-107 | the `AIzaAIza` step shortens a key whenever it finds a piece |
| Gemini.ShortKeyOnlyTrimmed | api/lib/gemini-client.js:68-80 | a key of at most 50 characters is only trimmed |
| Gemini.DoubledKeyRepaired | api/lib/gemini-client.js:86-94 | a normal key pasted twice comes back as the key |
| Gemini.LongKeyCut | api/lib/gemini-client.js:96-100 | a long key starting with `AIza` is cut to its first 39 characters |
| Gemini.RepairNeverUndefined | api/lib/gemini-client.js:102-107 | the `undefined` branch of the repair can never be taken |
| Gemini.RepairedKeyShape | api/lib/gemini-client.js:80-108 | a long key starting with `AIza` is repaired to at most 39 characters, still starting with `AIza` |
| Gemini.UnrepeatKeepsPrefix | api/lib/gemini-client.js:102-105 | step 3 keeps a key that starts with `AIza` starting with it |
| Gemini.CollapseSpace | api/lib/gemini-client.js:284 | every whitespace run becomes one space, never longer |
| Gemini.SingleSpacedSlice | api/lib/gemini-client.js:284 | a slice of single-spaced text is single-spaced |
| Gemini.TrimKeepsSingleSpaced | api/lib/gemini-client.js:284 | trimming keeps text single-spaced |
| Gemini.CleanString | api/lib/gemini-client.js:283-285 | cleaned text is single-spaced, trimmed and never longer |
| Gemini.CleanText | api/lib/gemini-client.js:283-285 | any value cleans to single-spaced trimmed text; a falsy one to `''` |
| Gemini.CollapseKeepsSingleSpaced | api/lib/gemini-client.js:284 | collapsing whitespace changes nothing in single-spaced text |
| Gemini.CleanStringKeepsClean | api/lib/gemini-client.js:283-285 | clean text is its own cleaning |
| Gemini.CleanStringIdempotent | api/lib/gemini-client.js:283-285 | cleaning twice is cleaning once |
| Gemini.TakeSingleSpaced | api/lib/gemini-client.js:273-277 | capping keeps text single-spaced |
| Gemini.PrefixSingleSpaced | api/lib/gemini-client.js:289 | a marker in front of clean text keeps it single-spaced |
| Gemini.MarkersSingleSpaced | api/lib/gemini-client.js:289-304 | the markers `🌟 `, `💡 ` and `小朋友，` are single-spaced |
| Gemini.MarkedTake | api/lib/gemini-client.js:288-290 | a marker put in front survives the cap |
| Gemini.EmojiOpens | api/lib/gemini-client.js:279-281 | text that opens with an emoji has one |
| Gemini.NormaliseTitle | api/lib/gemini-client.js:288-290 | the cleaned title, with `🌟 ` in front when it has no emoji, cut by `slice` to 15; single-spaced; a short one with an emoji is kept |
| Gemini.NormaliseIntro | api/lib/gemini-client.js:292-294 | the cleaned introduction, with `小朋友，` in front when it does not address the child, cut by `slice` to 60 |
| Gemini.IntroSingleSpaced | api/lib/gemini-client.js:292-294 | the introduction is single-spaced |
| Gemini.NormaliseSummary | api/lib/gemini-client.js:303-305 | the cleaned summary, with `💡 ` in front when it has no emoji, cut by `slice` to 40; single-spaced |
| Gemini.PointTitle | api/lib/gemini-client.js:298 | a point title is the cleaned title (default `📚 知识要点`) cut to 12, with no emoji rule; single-spaced |
| Gemini.PointContent | api/lib/gemini-client.js:299 | point content is the cleaned content (default empty) cut to 140; single-spaced |
| Gemini.CleanPoint | api/lib/gemini-client.js:297-300 | a point throws exactly when it is `null`; otherwise it fits the caps and both texts are single-spaced |
| Gemini.PointsSingleSpaced | api/lib/gemini-client.js:296-301 | every normalised point has single-spaced title and content |
| Gemini.PointOutcomes | api/lib/gemini-client.js:296-301 | the map gives one outcome per point, in order |
| Gemini.PointOutcomeAt | api/lib/gemini-client.js:296-301 | each outcome is that point's cleaning |
| Gemini.NullPointThrows | api/lib/gemini-client.js:296-301 | some point throws exactly when a `null` point is present |
| Gemini.CleanPoints | api/lib/gemini-client.js:296-301 | the map throws exactly on a `null` point; otherwise one capped point per item, point `k` being item `k` cleaned |
| Gemini.CollectedPointsCapped | api/lib/gemini-client.js:296-301 | the collected points are all within the caps, each the cleaning of its item |
| Gemini.NormalisePoints | api/lib/gemini-client.js:296-301 | a non-list gives no points; a list gives its first min(3, n) items, point `k` being item `k` cleaned, throwing exactly on a `null` among them |
| Gemini.ValidateAndCleanCard | api/lib/gemini-client.js:287-308 | the normaliser throws a TypeError exactly for a `null` card or a `null` point; otherwise title, introduction, points and summary are those of their normalisers, within 15/60/12/140/40, every text single-spaced, source `gemini-api` |
| Gemini.NeatTextKept | api/lib/gemini-client.js:283-285 | clean text given for a field is read back as it is |
| Gemini.NeatPointTitleKept | api/lib/gemini-client.js:298 | a clean point title within 12 is kept |
| Gemini.NeatPointContentKept | api/lib/gemini-client.js:299 | clean content within 140 is kept |
| Gemini.NeatPointKept | api/lib/gemini-client.js:297-300 | a clean point is kept |
| Gemini.NeatPointsKept | api/lib/gemini-client.js:296-301 | clean points are all kept, in order |
| Gemini.NeatTitleKept | api/lib/gemini-client.js:288-290 | a clean title with an emoji within 15 is kept |
| Gemini.NeatIntroKept | api/lib/gemini-client.js:292-294 | a clean introduction that addresses the child within 60 is kept |
| Gemini.NeatSummaryKept | api/lib/gemini-client.js:303-305 | a clean summary with an emoji within 40 is kept |
| Gemini.NeatPointListKept | api/lib/gemini-client.js:296-301 | up to three clean points normalise to themselves |
| Gemini.NormaliserKeepsNeatCard | api/lib/gemini-client.js:287-308 | the normaliser is the identity on a card that meets all its rules |
| Gemini.PostJson | api/lib/gemini-client.js:310-336 | an ok reply's JSON is returned as it is, and nothing else is returned; an abort rethrows the abort error and a network error its own; a bad status throws `Gemini API错误: <status> <statusText> - <body>` |
| Gemini.PartTexts | api/lib/gemini-client.js:245 | one text per part, `''` for a part without text |
| Gemini.ExtractText | api/lib/gemini-client.js:242-250 | the result is exactly the trimmed newline join of the parts' texts; parts that are not a list, or a `null` part, throw the text error |
| Gemini.TextReplyRead | api/lib/gemini-client.js:242-250 | a reply carrying text parts reads as their trimmed newline join |
| Gemini.SafeParseJson | api/lib/gemini-client.js:261-271 | succeeds exactly when the unfenced text parses, with that value; otherwise the invalid-JSON error |
| Gemini.Unfence | api/lib/gemini-client.js:263-266 | the text handed to `JSON.parse` is trimmed and never longer than the reply |
| Gemini.FencedJsonUnwrapped | api/lib/gemini-client.js:263-266 | a ` ```json ` fenced block is reduced to its trimmed body |
| Gemini.BareFenceUnwrapped | api/lib/gemini-client.js:263-266 | a bare ` ``` ` fenced block is reduced to its trimmed body |
| Gemini.UnfencedTextTrimmed | api/lib/gemini-client.js:263-266 | unfenced text is only trimmed |
| Gemini.GenerateKnowledgeCard | api/lib/gemini-client.js:128-149 | request errors pass through unchanged; a card fits every cap |
| Gemini.FencedCardReplyRead | api/lib/gemini-client.js:128-149 | a reply holding a clean card in a JSON fence is read back as that card |
| Gemini.FencedReplyText | api/lib/gemini-client.js:242-271 | the text of a fenced reply unfences to its trimmed body |
| Gemini.OneTextReplyRead | api/lib/gemini-client.js:242-250 | a reply of one trimmed text reads as that text |
| Gemini.FindImage | api/lib/gemini-client.js:255 | finds a part exactly when one with image data comes before any `null`; the part found is the first with image data |
| Gemini.FirstImageShifts | api/lib/gemini-client.js:255 | past a part without image data, the first image of the rest is the first image of all |
| Gemini.ExtractFirstImagePart | api/lib/gemini-client.js:252-259 | for a list of parts the result is the `find` over them, a part with data; parts that are not a list give none |
| Gemini.InlineMime | api/lib/gemini-client.js:183 | the MIME type is never falsy and defaults to `image/png` |
| Gemini.RemoveIcons | api/lib/gemini-client.js:201 | removing the topic icons leaves none and keeps icon-free text |
| Gemini.NoIconSlice | api/lib/gemini-client.js:201 | a slice of icon-free text is icon-free |
| Gemini.Topic | api/lib/gemini-client.js:201 | the topic (read by whole characters) holds no icon and is trimmed |
| Gemini.TopicOfMarkedTitle | api/lib/gemini-client.js:201 | a title made of an icon, a space and an icon-free topic gives that topic |
| Gemini.CodeUnits | api/lib/gemini-client.js:201 | a character's UTF-16 encoding is non-empty and never starts with a low surrogate |
| Gemini.EncodingStartsWell | api/lib/gemini-client.js:201 | no UTF-16 string of real characters starts with a low surrogate |
| Gemini.IconUnitsEncodeIcons | api/lib/gemini-client.js:201 | the code units the regex class lists are those of the ten icons |
| Gemini.Utf16Concat | api/lib/gemini-client.js:201 | the encoding of a concatenation is the concatenation of encodings |
| Gemini.RemoveIconUnits | api/lib/gemini-client.js:201 | the as-written regex removes every code unit in the class |
| Gemini.TopicAsWrittenSplitsEmoji | api/lib/gemini-client.js:201 | on `🌍 地球` the as-written topic starts with a lone low surrogate that no text encodes, while the corrected topic keeps the title |
| Gemini.EarthTopicAsWritten | api/lib/gemini-client.js:201 | the as-written topic of `🌍 地球` loses the globe's high surrogate |
| Gemini.EarthTopicKept | api/lib/gemini-client.js:201 | the corrected topic of `🌍 地球` is the whole title |
| Gemini.LoneLowSurrogateEncodesNothing | api/lib/gemini-client.js:201 | no text has an encoding that starts with a lone low surrogate |
| Gemini.PointLines | api/lib/gemini-client.js:196-198 | one numbered `n. title: content` line per point |
| Gemini.PointsText | api/lib/gemini-client.js:196-198 | the points text throws a TypeError exactly when points are present but not a list free of `null` |
| Gemini.BuildImagePrompt | api/lib/gemini-client.js:195-240 | the prompt fails exactly for a `null` card, bad points or a non-text title; its topic is the title's topic |
| Gemini.CardPointLines | api/lib/gemini-client.js:196-198 | one numbered line per card point |
| Gemini.CardPointLinesRendered | api/lib/gemini-client.js:196-198 | the lines of a card's JSON points are the lines of its points |
| Gemini.CardPrompt | api/lib/gemini-client.js:195-240 | a card's prompt carries its title, introduction, summary and numbered points verbatim |
| Gemini.CardPointsText | api/lib/gemini-client.js:196-198 | a card's points give the newline join of their numbered lines |
| Gemini.CardPromptLines | api/lib/gemini-client.js:196-198 | the points text splits back into one line per point |
| Gemini.PointLinesSplit | api/lib/gemini-client.js:196-198 | numbered lines without newlines survive join and split |
| Gemini.GenerateImageFromCard | api/lib/gemini-client.js:155-193 | prompt errors, request errors and a missing image part end the call as stated; the image is the found part's MIME type (default `image/png`) and data; the empty-data error never fires once the request succeeded |
| ImageApi.ValidateCard | api/generate-image.js:40-43 | a card is accepted exactly when it is an object |
| ImageApi.ClassifyErrorAsWritten | api/generate-image.js:102-109 | key errors are configuration errors, `timeout` texts timeouts, `Gemini` texts service errors, everything else internal, in that order |
| ImageApi.AbortReportedAsInternal | api/generate-image.js:102-109 | the abort the request timer causes is reported as internal, not as a timeout |
| ImageApi.ClassifyError | api/generate-image.js:102-109 | the corrected classification: the abort is a timeout, everything else as written |
| ImageApi.ErrorCategories | api/generate-image.js:102-109 | a missing key is a configuration error; a bad status from Gemini is a service error |
| ImageApi.Respond | api/generate-image.js:60-112 | replies are 200, 400, 429 or 500 with the remaining count; a missing card gets 400 with the missing-card error and a card that is neither object nor array 400 with the empty-card error; 500 comes only for an accepted card and carries the classified error with the generation's own message (the missing-key error without a key) as details; an image reply carries exactly the image generated |
| ImageApi.RespondAsWritten | api/generate-image.js:60-112 | the reply with the `catch` block's own classification: the same status, count and body except the 500 category |
| ImageApi.AsWrittenDiffersOnlyOnAbort | api/generate-image.js:102-111 | the replies as written and corrected differ exactly for an aborted request |
| ImageApi.CardRequestOutcome | api/generate-image.js:72-111 | an admitted card, object or array, gets exactly its generated image, a missing key a configuration error, and any failure its exact message as details |
| ImageApi.TimeoutReported | api/generate-image.js:83-111 | an aborted image request is reported as a timeout |
| ImageApi.ImageService.constructor | api/generate-image.js:6-29 | a new image handler has an empty store under `rate_limit_img_` |
| ImageApi.ImageService.Handle | api/generate-image.js:45-113 | OPTIONS gets 200, other non-POST 405 with the store untouched; POST replies as `Respond` after the rate-limit check |
| Quality.CommonEmojisAddNothing | scripts/content-quality-test.js:34-42 | the list of common emoji adds nothing to the range test |
| Quality.GlmEmojiCounts | scripts/content-quality-test.js:34-42 | anything the GLM client counts as an emoji the checker counts too |
| Quality.NoBlockingConcat | scripts/content-quality-test.js:47-148 | a list of issues blocks exactly when one of its parts does |
| Quality.PointIssuesBlock | scripts/content-quality-test.js:84-125 | a point's issues block exactly when the point fails |
| Quality.PointIssuesUpToBlock | scripts/content-quality-test.js:84-125 | the issues of the first `n` points block exactly when one of them fails |
| Quality.PassesIffNoBlockingIssue | scripts/content-quality-test.js:47-148 | a card passes exactly when none of its issues blocks |
| Quality.TitleScore | scripts/content-quality-test.js:56-64 | the title scores 100 exactly when it has no issue, else 0 |
| Quality.IntroScore | scripts/content-quality-test.js:67-74 | 100 exactly at the target length, at least 50 within the tolerance |
| Quality.PointScore | scripts/content-quality-test.js:84-125 | 100 exactly for a passing point with depth |
| Quality.CheckPoint | scripts/content-quality-test.js:84-125 | a point's issues, failure and score |
| Quality.CheckTitle | scripts/content-quality-test.js:56-64 | the title's issues and failure |
| Quality.CheckPoints | scripts/content-quality-test.js:84-125 | the loop gathers every point's issues in order, fails exactly when some point fails, and scores each point |
| Quality.CheckSummary | scripts/content-quality-test.js:129-139 | the summary fails exactly when its length is off target or it has no emoji |
| Quality.ValidateCardQuality | scripts/content-quality-test.js:47-148 | the report lists the card's issues and passes exactly when the card meets every blocking standard |
| Quality.PassingCount | scripts/content-quality-test.js:179-205 | the number of passing cards is at most the number of cards |
| Quality.AllPassIffFullCount | scripts/content-quality-test.js:179-205 | every card passes exactly when the count equals the number of cards |
| Quality.TestMockDataQuality | scripts/content-quality-test.js:153-218 | the loop counts all templates and exactly those that pass |
| Quality.CardsOf | scripts/content-quality-test.js:179-205 | the cards of the templates, in order |
| Quality.LeadingEmoji | scripts/content-quality-test.js:34-42 | text opening with an emoji has one |
| Quality.SampleCardPasses | scripts/content-quality-test.js:157-177 | the sample card meets every standard |
| Quality.TemplatesTooShort | api/generate-card.js:182-243 | every template card has three points and a first point shorter than the minimum |
| Quality.MockCardsFail | api/generate-card.js:181-274 | no template card, generic or keyed, passes the quality standards |
| Quality.FallbackCardFails | api/lib/glm-client.js:365-385 | the GLM fallback card does not pass the quality standards |
| Frontend.HighlightKeywords | scripts/main.js:188-252 | the two loops apply the icon pass and then the plain pass over the keyword tables, in order; empty text stays empty |
| Frontend.Highlighted | scripts/main.js:188-189 | empty text highlights to empty text |
| Frontend.IconPassAbsent | scripts/main.js:233-237 | text without icon keywords is unchanged by the icon pass |
| Frontend.PlainPassAbsent | scripts/main.js:240-249 | text without plain keywords is unchanged by the plain pass |
| Frontend.NoKeywordUnchanged | scripts/main.js:188-252 | text with no keyword is returned unchanged |
| Frontend.Spaces | scripts/main.js:147-185 | indentation of `n` spaces |
| Frontend.TitleHtml | scripts/main.js:151-153 | the title block exists exactly for a non-empty title and opens with the title markup |
| Frontend.IntroHtml | scripts/main.js:156-158 | the introduction block exists exactly for a non-empty introduction |
| Frontend.PointMarkup | scripts/main.js:164-169 | a point block starts a new line |
| Frontend.PointsHtml | scripts/main.js:161-172 | the points section exists exactly when there are points |
| Frontend.SummaryMarkup | scripts/main.js:176-181 | the summary block starts a new line |
| Frontend.SummaryHtml | scripts/main.js:175-182 | the summary block exists exactly for a non-empty summary |
| Frontend.FormatCardContent | scripts/main.js:147-185 | the built HTML is the card's sections in order |
| Frontend.AppendPoints | scripts/main.js:161-172 | appending the points section |
| Frontend.AppendPointBlocks | scripts/main.js:163-170 | the loop appends every point's block in order |
| Frontend.SectionsOpenWithTitle | scripts/main.js:147-185 | the HTML opens with the title markup exactly when there is a title |
| Frontend.CardHtml | scripts/main.js:147-185 | the HTML is empty exactly when every field is empty, and opens with the title heading exactly when there is a title |
| Frontend.ErrorMessage | scripts/main.js:121-131 | the message tests `429`, `400`, `500`, `网络` in that order, each with its own message; anything else gets the busy message |
| Frontend.DigitWordAfterPrefix | scripts/main.js:105 | a number word occurs after a digit-free prefix exactly when it is the number |
| Frontend.ThreeDigitTexts | scripts/main.js:105 | distinct three-digit statuses print differently |
| Frontend.HttpErrorContains | scripts/main.js:105 | the HTTP error text holds a three-digit number exactly when it is the status, and never `网络` |
| Frontend.HttpErrorShown | scripts/main.js:104-131 | a 429, 400 or 500 status gets its own message; any other three-digit status the busy one |
| Frontend.KnowledgeCardApp.constructor | scripts/main.js:3-10 | the page starts with no question, no card, not generating, on the welcome panel |
| Frontend.KnowledgeCardApp.Begin | scripts/main.js:90-93 | starting a generation sets the generating state and shows the loading panel |
| Frontend.KnowledgeCardApp.HandleQuestionSubmit | scripts/main.js:73-87 | blank input raises the warning; a busy page ignores the submission; otherwise the trimmed question is stored and sent |
| Frontend.KnowledgeCardApp.RegenerateCard | scripts/main.js:267-271 | asks again for the current question if there is one, even while generating |
| Frontend.KnowledgeCardApp.Complete | scripts/main.js:107-137 | a successful card is stored and shown; every failure shows its message and the welcome panel; generating ends either way |
| Frontend.TypeErrorShownAsBusy | scripts/main.js:110-131 | a success reply without a card is shown as the busy message |
| Frontend.RateLimitedShownAsTooFrequent | scripts/main.js:104-131 | a 429 reply is shown as too frequent |

## Left out

- Logging, `console` output, headers, CORS and the timestamp fields of replies: no behaviour depends on them.
- The client address lookup (`getClientIP`): the address is a parameter.
- The prompt texts sent to the models, and the request bodies: their wording is data, not behaviour.
- UTF-16 lengths: caps are stated over code points; they coincide for text without astral characters.
- `toLowerCase()` and the `i` flag on the question and keyword checks: every keyword is Chinese, which has no case.
- Floating-point quality scores: the averages, the `× 0.8` weights, the total and `Math.round` are not modelled; only the integer per-field scores are.
- Non-integer JSON numbers: `Js.Json` numbers are integers.
- The DOM, `html2canvas`, downloading and sharing, the decorative icons placed with `Math.random`, and the timers of `showMessage`.
- The `catch` with status 500 in the card handler: every step it guards is modelled as total, so it is unreachable here.
- The text of the engine's `TypeError`: a fixed stand-in that holds none of the substrings the error handlers test for.
- The diagnosis and deployment scripts.
- Glm.ExpandContent: for text under 80 characters the contract states only that the result keeps the opening of the text, not the exact expansion.
- Glm.JoinOr: stated only for slices of at most two lines, the only slices the text path takes.
- Quality.ValidateCardQuality: takes a complete card; the script is only given complete cards.
- Frontend.KnowledgeCardApp.Complete: the reply body is a card already read into `Cards.Card`.
- ImageApi.Respond: categorises a failure with the corrected `ImageApi.ClassifyError` (an abort is a timeout); the reply as written is `ImageApi.RespondAsWritten`, and the two differ only for the abort (`ImageApi.AsWrittenDiffersOnlyOnAbort`).
- ImageApi.ImageService.Handle: replies as `ImageApi.Respond`, so with the corrected classification; as written, see `ImageApi.RespondAsWritten`.
- Gemini.BuildImagePrompt: takes the topic by whole characters (`Gemini.Topic`), the corrected reading; the as-written removal by UTF-16 code units is `Gemini.TopicAsWritten`.

## Findings

| source | as written | input that shows it | evidently intended | confidence | as-written member | corrected member |
|---|---|---|---|---|---|---|
| api/lib/gemini-client.js:201 | the icon class is matched by UTF-16 code units (no `u` flag), so high surrogates shared with other emoji are removed | the title `🌍 地球` gives a topic starting with a lone low surrogate | remove only the listed icons, as whole characters | not executed | Gemini.TopicAsWrittenSplitsEmoji | Gemini.EarthTopicKept |
| api/generate-image.js:102-109 | an error is a timeout only when its message contains `timeout`, but the timer's abort says `This operation was aborted` | an image request aborted after the timeout | an aborted request reported as a timeout | not executed | ImageApi.AbortReportedAsInternal | ImageApi.TimeoutReported |
