# Prat.AI chat core, modelled in Dafny

Prat.AI is a browser chat client with a small Python server behind it. This
project models the parts of it that make decisions and proves what they
guarantee:

- **The conversation context** (`LiveContext`, `BackupContext`). The React
  provider holds the page state: the input box, the recent prompt, the prompt
  history, and the loading, result and error cells. It exposes `onSent`,
  `loadPrompt` and `newChat`. Each copy is a `class` whose methods update the
  state cells. `onSent` awaits the backend once, so it is split into two
  atomic steps. `OnSentBegin` covers validation, appending to the history and
  raising `loading`. `OnSentComplete` covers the `try`/`catch`/`finally` that
  runs when the call settles. A ghost counter `pending` tracks begun calls
  that have not yet settled.
- **The reply formatter** (`ReplyFormat`). Both contexts turn a reply into
  HTML in three steps. First the lazy global regex `/\*\*(.*?)\*\*/g` makes
  bold spans. Then `split("\n\n")` cuts the text into paragraphs. Each
  non-blank paragraph becomes `<p>…</p>`, with its newlines turned into
  `<br/>`. JavaScript's `.` does not match line terminators, and `trim()`
  uses ECMAScript's full list of space characters; both are modelled exactly.
- **Provider dispatch** (`ProviderDispatch`). This is `sendMessageToModel` of
  the older client. It selects the vendor by model key ("gpt-4", "claude",
  "gemini"), builds that vendor's POST request, reads the reply through the
  vendor's property path, and maps every failure to one fixed text. JSON
  values are a datatype, and a property read on `undefined`/`null` is a
  `TypeError`. The network is an oracle.
- **The server's routing rule** (`ChatRoute`). The `/chat` handler gives
  confident small talk (confidence ≥ 0.85 and intent "greeting", "goodbye"
  or "thanks") a canned answer. Everything else goes to Gemini, with
  fallbacks when Gemini is missing or raises. The old brand spellings are
  then scrubbed from every reply. The classifier, the sentiment analyser,
  the knowledge-base search and the model are oracles. The random draw of
  `random.choice` is a `pick` number, and each of them may raise instead.
- **The Gemini wrapper** (`GeminiClient`). Identity questions get the
  persona text, and questions about the creator get the biography, with
  identity taking precedence. All other questions are answered by the model
  from a persona prompt, and three replacements are applied to its answer.
  Constructing the client without an API key raises.

`StringOps` holds the string machinery shared by both sides:
- literal substring search;
- `replace` with every occurrence replaced, leftmost first and without
  overlap (this is what Python's `str.replace` and JavaScript's
  `replace(/x/g, …)` do on literal patterns);
- chains of replacements, with a general theorem. If no replacement text
  can overlap any pattern, no pattern survives the chain and running the
  chain again changes nothing.

The older context imports a default export `runChat` from
`config/api.js`, but that file only exports `sendMessageToModel` by name.
As written, the import therefore yields no function. Depending on the
bundler, either the module fails to load, or every `runChat` call throws
and the context ends in its failure branch. So `BackupContext` receives its
backend outcome as an oracle, like the live context does, and is not wired
to `ProviderDispatch`. The `Reply` case of
`BackupContext.ContextProvider.OnSentComplete` can only arise if the import
names a function that resolves.

Some behaviours of the code are easy to miss:
- `onSent` has no busy guard. A new prompt may begin while an earlier one is
  loading, and both settle into the same `resultData`. There is no
  "already pending" rejection.
- The live `newChat` keeps the prompt history. Only the older copy clears it.
- `sendMessageToModel` never checks the HTTP status. A non-2xx answer with a
  readable path is returned as a reply.
- An unsupported model key is not a distinct error. It produces the same
  "⚠️ Error fetching response!" text as every other failure, and no request
  is sent.
- The Gemini wrapper rewrites "pratchat" in a model answer to "prat.ai"
  before the `/chat` route applies its own rewrite. So the route's
  "pratchat" → "Prat.AI" rule never sees that spelling from Gemini, and
  the answer keeps the lower-case "prat.ai".

## Model

| member | source | states |
|---|---|---|
| StringOps.ReplaceAbsent | server/routes/chat.py:108-110 | a `replace` whose pattern does not occur returns the text unchanged |
| StringOps.ReplaceClears | server/utils/gemini_client.py:64 | after replacing a pattern by a text that cannot overlap it, the pattern no longer occurs, and no earlier-cleared pattern is reintroduced |
| StringOps.ReplaceAllClears | server/utils/gemini_client.py:63-66 | after a chain of replacements whose replacement texts cannot overlap any pattern, none of the patterns occurs |
| StringOps.ReplaceAllAbsent | server/routes/chat.py:108-110 | a chain leaves a text containing none of its patterns unchanged |
| StringOps.ReplaceAllIdempotent | server/routes/chat.py:108-110 | applying the chain a second time changes nothing |
| StringOps.Replace | server/routes/chat.py:108-110 | definition: `str.replace` on a literal pattern, replacing leftmost first without overlap |
| StringOps.ReplaceAll | server/routes/chat.py:108-110 | definition: the `replace` calls applied in order |
| StringOps.ReplaceAtFirst | server/utils/gemini_client.py:64-66 | what stands in place of a match: when the first occurrence follows `a`, the result is `a`, then the replacement text, then the rest replaced in turn |
| StringOps.ReplaceSingleChar | client/src/context/Context.jsx:38 | replacing a one-character pattern rewrites exactly the occurrences of that character, keeping every other character in order |
| StringOps.MapCharJoin | client/src/context/Context.jsx:38 | one occurrence of the character between two texts free of it becomes the replacement text, and the two texts are kept |
| StringOps.ReplaceWhole | server/utils/gemini_client.py:64-66 | a text that is exactly the pattern becomes the replacement text |
| StringOps.ReplaceSameLength | server/utils/gemini_client.py:64-66 | a text as long as the pattern but different from it is kept, so the three spellings do not rewrite one another |
| StringOps.ContainsChar | client/src/context/Context.jsx:38 | a one-character pattern occurs exactly when the character is in the text |
| ReplyFormat.IsBlank | client/src/context/Context.jsx:37 | definition: `trim() === ""` (also the prompt test at line 19), every character an ECMAScript white space or line terminator |
| ReplyFormat.CloseFrom | client/src/context/Context.jsx:35 | the position the lazy `(.*?)\*\*` closes at is a `**` at or after the start of the search |
| ReplyFormat.CloseFromFirst | client/src/context/Context.jsx:35 | that position is the first `**` after the opening one and no line terminator comes before it; the search fails exactly when every later `**` is preceded by a line terminator |
| ReplyFormat.CloseFromFinds | client/src/context/Context.jsx:35 | the lazy match closes at the first `**` when nothing before it blocks the match |
| ReplyFormat.Bold | client/src/context/Context.jsx:35 | definition: the global lazy bold replacement, trying a match at each position from left to right |
| ReplyFormat.BoldNoStar | client/src/context/Context.jsx:35 | text without `*` passes the bold step unchanged |
| ReplyFormat.BoldKeepsOtherChars | client/src/context/Context.jsx:35 | a character outside `*<b/>` is in the bolded text exactly when it is in the input |
| ReplyFormat.BoldKeepsCount | client/src/context/Context.jsx:35 | a character outside `*<b/>` occurs as many times in the bolded text as in the input |
| ReplyFormat.BoldNewlines | client/src/context/Context.jsx:35 | the bold step neither adds nor removes newlines: the output has exactly as many as the input |
| ReplyFormat.BoldSpan | client/src/context/Context.jsx:35 | `**x**` with `x` on one line, free of `**` and not ending in `*`, becomes `<b>x</b>`, and the rest is processed after it |
| ReplyFormat.Split | client/src/context/Context.jsx:36 | `split("\n\n")` yields at least one piece, and the first piece is a prefix of the text |
| ReplyFormat.SplitJoin | client/src/context/Context.jsx:36 | joining the pieces with "\n\n" gives back the text |
| ReplyFormat.SplitSegmentsClean | client/src/context/Context.jsx:36 | no piece contains "\n\n" |
| ReplyFormat.SplitCons | client/src/context/Context.jsx:36 | a leading paragraph followed by the separator is split off first, and the split scans left to right |
| ReplyFormat.SplitNoSeparator | client/src/context/Context.jsx:36 | text without "\n\n" is one piece |
| ReplyFormat.Render | client/src/context/Context.jsx:37-38 | definition: a blank paragraph gives "", any other is wrapped in `<p>…</p>` with `\n` replaced by `<br/>` |
| ReplyFormat.RenderAll | client/src/context/Context.jsx:36-39 | definition: the rendered paragraphs joined with "" |
| ReplyFormat.FormatReply | client/src/context/Context.jsx:35-39 | definition: bold step, split, then render and join |
| ReplyFormat.RenderLineBreaks | client/src/context/Context.jsx:38 | in a non-blank paragraph every `\n` becomes `<br/>` and every other character is kept, inside `<p>…</p>` |
| ReplyFormat.RenderTwoLines | client/src/context/Context.jsx:38 | two lines of one paragraph become `<p>a<br/>b</p>` |
| ReplyFormat.RenderParagraphs | client/src/context/Context.jsx:36-39 | the paragraph step alone: a leading paragraph followed by "\n\n" is rendered first, then the rest |
| ReplyFormat.CloseFromBeforeBreak | client/src/context/Context.jsx:35 | a lazy match started inside `a` cannot close beyond a line terminator that follows `a` |
| ReplyFormat.BoldBeforeBreak | client/src/context/Context.jsx:35 | the bold step works line by line: `Bold(a + t) == Bold(a) + Bold(t)` when `t` starts with a line terminator |
| ReplyFormat.BoldAcrossBlank | client/src/context/Context.jsx:35 | the bold step works paragraph by paragraph: `Bold(a + "\n\n" + b)` is `Bold(a) + "\n\n" + Bold(b)` |
| ReplyFormat.ParagraphIff | client/src/context/Context.jsx:36 | a text is a paragraph (each newline followed by a non-newline) exactly when it has no "\n\n" and no trailing newline |
| ReplyFormat.BoldHead | client/src/context/Context.jsx:35 | the bold step starts its output with the text's first character or with `<b>` |
| ReplyFormat.BoldParagraph | client/src/context/Context.jsx:35-36 | the bold step adds no blank line and no trailing newline, so a paragraph stays one paragraph |
| ReplyFormat.RenderEmptyIffBlank | client/src/context/Context.jsx:37-38 | a paragraph renders to "" exactly when it is blank after `trim()` |
| ReplyFormat.RenderNoNewline | client/src/context/Context.jsx:38 | a rendered paragraph holds no newline, since every `\n` became `<br/>` |
| ReplyFormat.RenderAllNoNewline | client/src/context/Context.jsx:36-39 | the joined paragraphs hold no newline |
| ReplyFormat.FormatNoNewline | client/src/context/Context.jsx:35-39 | a formatted reply holds no newline |
| ReplyFormat.FormatPlain | client/src/context/Context.jsx:35-39 | non-blank text with no `*` and no newline becomes exactly `<p>text</p>` |
| ReplyFormat.FormatParagraphs | client/src/context/Context.jsx:35-39 | paragraphs come out in input order, bold spans included: a leading paragraph `a` followed by "\n\n" formats as `Render(Bold(a))` followed by the rest's formatting |
| ReplyFormat.TwoPlainParagraphs | client/src/context/Context.jsx:36-39 | two plain paragraphs separated by a blank line become `<p>a</p><p>b</p>` |
| ReplyFormat.BoldThenTwoParagraphs | client/src/context/Context.jsx:35-39 | a reply of the form "**Hi** there\n\nHow can I help?" becomes `<p><b>Hi</b> there</p><p>How can I help?</p>` |
| LiveContext.ContextProvider.constructor | client/src/context/Context.jsx:7-14 | every state cell starts at its initial value, and nothing is pending |
| LiveContext.ContextProvider.SetInput | client/src/context/Context.jsx:7 | the setter changes the input box and nothing else |
| LiveContext.ContextProvider.SetShowAbout | client/src/context/Context.jsx:14 | the setter changes `showAbout` and nothing else |
| LiveContext.ContextProvider.OnSentBegin | client/src/context/Context.jsx:16-29 | a call is sent exactly when the prompt is not blank. A blank prompt sets only the error message. A sent prompt is appended unchanged to the history and becomes the recent prompt. It clears the error and the result, raises `loading` and `showResult`, and leaves the input untouched |
| LiveContext.ContextProvider.OnSentComplete | client/src/context/Context.jsx:31-48 | a reply becomes the formatted reply and a failure the connection message. Either way `loading` drops, the input clears, and the history, recent prompt, error and panel flags are kept |
| LiveContext.ContextProvider.LoadPromptBegin | client/src/context/Context.jsx:51-54 | the prompt always becomes the recent one, then the call behaves as `onSent`, appending a non-blank prompt to the history again |
| LiveContext.ContextProvider.NewChat | client/src/context/Context.jsx:56-63 | the six display cells return to their initial values, and the history and `showAbout` are kept |
| LiveContext.LateReplyAfterNewChat | client/src/context/Context.jsx:16-63 | a reply that settles after `newChat` still lands in `resultData` and drops `loading`, while the panel stays hidden and the history keeps the prompt |
| BackupContext.ContextProvider.constructor | client/original_frontend_backup/src/context/Context.jsx:9-15 | every state cell starts at its initial value |
| BackupContext.ContextProvider.SetInput | client/original_frontend_backup/src/context/Context.jsx:9 | the setter changes the input box and nothing else |
| BackupContext.ContextProvider.OnSentBegin | client/original_frontend_backup/src/context/Context.jsx:17-31 | as in the live copy: blank prompts only set the error, and others are appended and start loading |
| BackupContext.ContextProvider.OnSentComplete | client/original_frontend_backup/src/context/Context.jsx:33-51 | a reply becomes the formatted reply and a failure "Something went wrong…". `loading` drops, the input clears, and nothing else changes |
| BackupContext.ContextProvider.LoadPromptBegin | client/original_frontend_backup/src/context/Context.jsx:55-58 | the prompt becomes the recent one, then `onSent` runs |
| BackupContext.ContextProvider.NewChat | client/original_frontend_backup/src/context/Context.jsx:61-70 | every state cell, the history included, returns to its initial value |
| BackupContext.NewChatTwice | client/original_frontend_backup/src/context/Context.jsx:61-70 | `newChat` is idempotent |
| ProviderDispatch.Get | client/original_frontend_backup/src/config/api.js:48-52 | a property read throws exactly on `undefined` or `null` |
| ProviderDispatch.ParseModel | client/original_frontend_backup/src/config/api.js:8-37 | the switch selects a vendor exactly for that vendor's key |
| ProviderDispatch.ModelKeyRoundTrip | client/original_frontend_backup/src/config/api.js:8-33 | each vendor's key selects that vendor, and every accepted key is a vendor's key |
| ProviderDispatch.BuildRequest | client/original_frontend_backup/src/config/api.js:5-43 | every request is a POST with JSON content type. Each vendor gets its own URL and exactly its own header set, and the Gemini URL carries the key |
| ProviderDispatch.CredentialPlacement | client/original_frontend_backup/src/config/api.js:11-29 | the key goes in `Authorization: Bearer …` for gpt-4, in `x-api-key` for claude, and only in the URL query for gemini. An unset key reads "undefined" |
| ProviderDispatch.OnlyCurrentMessage | client/original_frontend_backup/src/config/api.js:12-32 | decoding any request body gives back exactly one user turn, the current message, and no history |
| ProviderDispatch.Walk | client/original_frontend_backup/src/config/api.js:47-53 | definition: the chained property reads along a path, throwing on `undefined` or `null` |
| ProviderDispatch.EnvText | client/original_frontend_backup/src/config/api.js:11-29 | definition: an environment key as it reads inside a header or URL, "undefined" when the variable is unset |
| ProviderDispatch.ReplyPath | client/original_frontend_backup/src/config/api.js:47-53 | every extraction path starts with a named array read at index 0 |
| ProviderDispatch.SendMessageToModel | client/original_frontend_backup/src/config/api.js:2-58 | a request is sent exactly when the key is supported, and it is that vendor's request for the message |
| ProviderDispatch.UnsupportedModel | client/original_frontend_backup/src/config/api.js:35-36 | an unknown key sends nothing and returns the error text |
| ProviderDispatch.EnvelopeWalk | client/original_frontend_backup/src/config/api.js:47-53 | each vendor's path leads to the reply inside that vendor's documented answer shape |
| ProviderDispatch.ReplyRoundTrip | client/original_frontend_backup/src/config/api.js:39-53 | an answer shaped as the vendor documents gives back its reply text, whatever the HTTP status |
| ProviderDispatch.WalkThrowsIff | client/original_frontend_backup/src/config/api.js:47-57 | the extraction throws exactly when some proper prefix of the path reads `undefined` or `null` |
| ProviderDispatch.ReplyCases | client/original_frontend_backup/src/config/api.js:39-57 | the status is never consulted, and the call never throws. Transport failures, bodies that are not JSON and extraction that throws all give the error text, and otherwise the value read is returned |
| ProviderDispatch.MissingOrEmptyArray | client/original_frontend_backup/src/config/api.js:47-57 | a missing or empty first array gives the error text |
| ProviderDispatch.ClaudeMissingTextIsUndefined | client/original_frontend_backup/src/config/api.js:50 | a claude block without `text` yields `undefined`, not the error text |
| GeminiClient.NewClient | server/utils/gemini_client.py:36-41 | construction raises "GEMINI_API_KEY not found in environment" exactly when the key is unset or empty, and otherwise uses gemini-2.5-flash |
| GeminiClient.AsciiLower | server/utils/gemini_client.py:47 | definition: `lower()` on ASCII letters |
| GeminiClient.MatchesAny | server/utils/gemini_client.py:47-51 | definition: some keyword is a substring of the lowered message |
| GeminiClient.ContextBlock | server/utils/gemini_client.py:55-56 | definition: the labelled knowledge-base block, empty for an empty context |
| GeminiClient.BuildPrompt | server/utils/gemini_client.py:53-58 | definition: persona, blank line, context block, then "User: " + message + "\nPrat.AI:" |
| GeminiClient.LowerFixpoints | server/utils/gemini_client.py:47 | lowering is idempotent, and it fixes exactly the strings without capitals |
| GeminiClient.KeywordsAreLowercase | server/utils/gemini_client.py:44-45 | every keyword is lower case, so each can match a lowered message |
| GeminiClient.KeywordMatchesItself | server/utils/gemini_client.py:47-51 | a message that lowers to a keyword matches that list |
| GeminiClient.RoutingIgnoresCase | server/utils/gemini_client.py:47-51 | messages equal up to letter case get the same fixed answer or both reach the model |
| GeminiClient.GenerateResponse | server/utils/gemini_client.py:43-68 | the model is asked exactly when neither keyword list matches, and then with the prompt built from the message and the context |
| GeminiClient.IdentityOutranksCreator | server/utils/gemini_client.py:44-51 | a message matching any identity keyword gets the persona verbatim, whatever creator keywords it also matches, and no prompt is sent |
| GeminiClient.CreatorQuestionGetsBio | server/utils/gemini_client.py:45-51 | a message matching a creator keyword and no identity keyword gets the biography verbatim, and no prompt is sent |
| GeminiClient.BrandCompatible | server/utils/gemini_client.py:63-66 | no old brand spelling can overlap an inserted "Prat.AI" or "prat.ai" |
| GeminiClient.GeminiRulesCompatible | server/utils/gemini_client.py:63-66 | the three replacements meet the no-overlap condition |
| GeminiClient.ModelReplyScrubbed | server/utils/gemini_client.py:60-66 | a model answer comes back with no "PratChat", "pratchat" or "Pratchat", and rewriting it again changes nothing. A model exception propagates |
| GeminiClient.BrandScrubbed | server/utils/gemini_client.py:63-66 | after the three rewrites no old spelling is left, and a second pass changes nothing |
| GeminiClient.CleanReplyUntouched | server/utils/gemini_client.py:63-66 | an answer without the old spellings is returned as the model gave it |
| GeminiClient.GeminiRewrites | server/utils/gemini_client.py:63-66 | "PratChat" and "Pratchat" become "Prat.AI", and "pratchat" becomes "prat.ai" |
| GeminiClient.ContextBlockInverse | server/utils/gemini_client.py:55-56 | the knowledge-base block is empty exactly for an empty context, and the context can be read back from it |
| GeminiClient.PromptShape | server/utils/gemini_client.py:53-58 | the prompt starts with the persona and a blank line. It ends with the message as typed followed by "\nPrat.AI:". It has the block "Context from knowledge base:\n" plus the context exactly when the context is non-empty |
| GeminiClient.PromptDeterminesContext | server/utils/gemini_client.py:53-58 | for one message, different contexts give different prompts |
| GeminiClient.PromptDeterminesMessage | server/utils/gemini_client.py:53-58 | for one context, different messages give different prompts |
| GeminiClient.ContextCanForgeUserTurn | server/utils/gemini_client.py:53-58 | a retrieved context containing "\n\nUser: " produces the same prompt as a different context and message pair |
| ChatRoute.ClientAtStartup | server/routes/chat.py:47-51 | the module-level client exists exactly when its construction did not raise |
| ChatRoute.ClientIffKey | server/routes/chat.py:47-51 | the client exists exactly when a non-empty key is configured |
| ChatRoute.Choice | server/routes/chat.py:79 | `random.choice` returns an element of the list, and raises "Cannot choose from an empty sequence" exactly on an empty list |
| ChatRoute.ChoiceReaches | server/routes/chat.py:79 | every element can be the one drawn |
| ChatRoute.ContextIsJoin | server/routes/chat.py:85-86 | the context is the documents joined by "\n\n", and "" when there are none |
| ChatRoute.LabelsDistinct | server/routes/chat.py:78-105 | the five `response_type` labels are distinct |
| ChatRoute.Label | server/routes/chat.py:80-105 | definition: the `response_type` string of each kind of answer |
| ChatRoute.IsConfidentSmallTalk | server/routes/chat.py:78 | definition: confidence at least the threshold and the intent is greeting, goodbye or thanks |
| ChatRoute.ContextOf | server/routes/chat.py:86 | definition: the retrieved documents joined with "\n\n", or "" when none were found |
| ChatRoute.Route | server/routes/chat.py:78-105 | definition: the branch order of the handler (confident small talk, Gemini with its fallbacks, no client) before scrubbing |
| ChatRoute.Scrub | server/routes/chat.py:108-110 | definition: the route's three `replace` calls in order |
| ChatRoute.Chat | server/routes/chat.py:66-126 | every failure is status 500, and an answer needs the classifier and the sentiment analyser to have succeeded |
| ChatRoute.ConfidentSmallTalkIsLocal | server/routes/chat.py:63-80 | confidence ≥ 0.85 with a small-talk intent gives "ml_local" with one of that intent's responses. With no responses the request fails with status 500 |
| ChatRoute.GeminiAnswerIff | server/routes/chat.py:83-88 | "llm_gemini" is used exactly when the request is not confident small talk, a client exists, and search and generation succeed. The reply is then the generated text for the message and the joined documents |
| ChatRoute.GeminiFailureFallsBack | server/routes/chat.py:89-97 | when search or generation raises, a canned response gives "ml_fallback", and none gives the trouble message with "error" |
| ChatRoute.NoClientFallsBack | server/routes/chat.py:98-105 | without a client, a canned response gives "ml_local", and none gives the configure-key message with "fallback" |
| ChatRoute.LocalAnswerSources | server/routes/chat.py:78-105 | "ml_local" is used exactly when there are canned responses and the request is confident small talk or no client exists |
| ChatRoute.FailureCauses | server/routes/chat.py:66-126 | the request fails exactly when the classifier or sentiment analyser raises, or confident small talk has no responses. The detail is that exception's text |
| ChatRoute.EchoesClassification | server/routes/chat.py:112-123 | intent, confidence and sentiment are echoed unchanged, and a logging failure changes nothing |
| ChatRoute.ChatRulesCompatible | server/routes/chat.py:108-110 | the three replacements meet the no-overlap condition |
| ChatRoute.ScrubClears | server/routes/chat.py:108-110 | after scrubbing no old spelling remains, and scrubbing again changes nothing |
| ChatRoute.AnswerScrubbed | server/routes/chat.py:107-123 | every answer, from any branch, is free of the old spellings and a fixed point of the scrub |
| ChatRoute.ScrubRewrites | server/routes/chat.py:108-110 | each of the three old spellings becomes "Prat.AI" |
| ChatRoute.GeminiLowerCaseBrandKept | server/routes/chat.py:83-110 | a model answer "pratchat" reaches the user as "prat.ai": the Gemini wrapper's rewrite runs first and the route's rewrite leaves the result alone |
| ChatRoute.IdentityQuestionGetsPersona | server/routes/chat.py:83-88 | a message matching any identity keyword that reaches Gemini is answered with the scrubbed persona text as "llm_gemini", whatever the model would have said |
| ChatRoute.CreatorQuestionGetsBio | server/routes/chat.py:83-88 | a message matching a creator keyword and no identity keyword that reaches Gemini is answered with the scrubbed biography as "llm_gemini", whatever the model would have said |

## Left out

- The interleaving of overlapping `onSent` calls is not modelled. Each call is two atomic steps, and any order of them can be written as a sequence of method calls. React's batching of state updates is not modelled either.
- `LiveContext.ContextProvider.OnSentComplete`: the backend call (`sendMessage` in client/src/config/api.js, which throws on a non-ok status) is an oracle giving either reply text or failure. A reply whose `response` field is not a string makes `.replace` throw, which the context treats as failure, and that is folded into `Failure`.
- `LiveContext.ContextProvider.OnSentBegin`: prompts are strings. The `!prompt` test for `undefined`/`null`/non-string prompts is not modelled.
- The formatter works on Unicode scalar values, while JavaScript strings are UTF-16. Every character the regex, `trim` and `split` treat specially is in the Basic Multilingual Plane, so the results are the same.
- `ProviderDispatch.Get`: reads of inherited prototype properties (`constructor`, `toString`, …) are not modelled. No name on the extraction paths is one.
- `ProviderDispatch.BuildRequest`: the body is the value passed to `JSON.stringify`. The serialisation itself is not modelled.
- `console.error` and the `print` diagnostics are output only and are not modelled.
- `GeminiClient.AsciiLower`: `str.lower()` is modelled on ASCII letters only. Non-ASCII capitals are not lowered, so keyword matching is modelled only where both sides are ASCII, and every keyword is.
- `ChatRoute.IsConfidentSmallTalk`: the confidence is a real number compared with 0.85. Floating-point rounding is not modelled.
- The classifier (server/utils/ml_model.py), the sentiment analyser (server/utils/sentiment.py), the embedding search (server/utils/embeddings.py) and the Gemini SDK call are not part of this model. They are oracle parameters, each of which may raise.
- Conversation logging (server/utils/database.py) is not part of this model. Its exception is swallowed, so it appears only as the ignored `logFailed` flag.
- Training and loading of the classifier and embedding index at import time, the FastAPI wiring, and the request model validation are left out. So is the random selection of greetings in the page components.
- The persona and biography texts are carried verbatim as constants. No property is proved about their contents; for example, that the scrub leaves them unchanged is not proved.
