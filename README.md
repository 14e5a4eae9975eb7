# Lesson gating and practice-sentence generation

This project models the two pieces of decision logic in Progter, a
language-learning app for Indonesian speakers. It verifies the models in Dafny.

- **Lesson gating** (the dashboard page). The learner's progress records are
  projected onto their topic ids. Each topic of the track then gets a node.
  The node is *completed* when the topic's id is among those ids. It is
  *unlocked* when it is the first topic or when the previous topic is
  completed. Each node sits in one of six layout slots, cycling with its index.
  Only an unlocked node links to `/lesson/<id>`.
- **Practice-sentence generation** (the Gemini service). The API key comes from
  the environment, and a client exists only when the key is non-empty. With no
  client, the service returns two fixed mock sentences. With a client, it builds
  a vocabulary string and a prompt, calls the model, trims the response text and
  parses it as JSON. An empty trimmed text, a thrown call or a failed parse all
  give one fixed error sentence. Otherwise the parsed value is returned unchanged.

Files:

- `dashboard.dfy`: module `Dashboard`.
- `gemini_service.dfy`: module `GeminiService`.
- `js_strings.dfy`: module `JsStrings`. It holds the JavaScript built-ins the
  code relies on: `trim`, `join`, and the decimal rendering of a number inside a
  template string.
- `wrappers.dfy`: module `Wrappers`. It holds `Option`, which stands for
  `null`/`undefined`.

Everything is pure functions and lemmas, because both source files are pure.
There are two abstract inputs:

- The Gemini call is a parameter `model: (AIClient, string) -> ModelResponse`,
  where `ModelResponse = Threw | Responded(text: Option<string>)`.
- `JSON.parse` is a parameter `parse: string -> Option<seq<Sentence>>`. `None`
  stands for a throw.

"No call is made" is stated as "the result is the same for every model and
parser". Console output is modelled as `LogEvent` tags.

The model follows the code on these points:

- The code takes no requested count. The prompt always asks for 3 sentences.
- The code does not reject an empty vocabulary (`EmptyVocabularyString`).
- The code does not reject duplicate topic ids.
- The parsed answer is returned without a check on its length or its fields.
  `AnswerNotLengthChecked` shows an empty result being returned.
- A topic can be completed and still locked (`CompletedTopicMayBeLocked`),
  because progress need not follow the path.

## Model

| member | source | states |
|---|---|---|
| Dashboard.CompletedLessonIds | pages/DashboardPage.tsx:87 | one id per progress record, in order: the k-th id is the k-th record's `topik_id` |
| Dashboard.CompletedIdsMembership | pages/DashboardPage.tsx:87 | an id is in the completed list iff some progress record names it |
| Dashboard.CompletedIdsAppend | pages/DashboardPage.tsx:87 | the projection of `p + q` is the projection of `p` followed by that of `q` |
| Dashboard.StatesFrom | pages/DashboardPage.tsx:100-104 | the walk from position `start` yields one node per remaining topic, the k-th being the node for position `start + k` |
| Dashboard.StateAt | pages/DashboardPage.tsx:101-103 | the node for one position; specified by Gate and TopicStatesMeaning |
| Dashboard.Gate | pages/DashboardPage.tsx:100-104 | one node per topic, in order, carrying its topic and index; completed iff the id is listed; node 0 unlocked; node i > 0 unlocked iff node i-1 completed |
| Dashboard.TopicStates | pages/DashboardPage.tsx:87-104 | the page's gating from topics and progress records; specified by Gate, TopicStatesMeaning, ForeignProgressIgnored and MoreProgressMonotone |
| Dashboard.TopicStatesMeaning | pages/DashboardPage.tsx:87-104 | the same in terms of progress records: completed iff a record names the topic; unlocked iff first or a record names the predecessor |
| Dashboard.FirstTopicUnlocked | pages/DashboardPage.tsx:102 | the first topic of a non-empty track is unlocked whatever the progress |
| Dashboard.GateDependsOnMembership | pages/DashboardPage.tsx:101-102 | two completed-id lists that agree on which topic ids they contain give the same nodes (order and repetition do not matter) |
| Dashboard.ForeignProgressIgnored | pages/DashboardPage.tsx:101-102 | adding progress records whose ids match no topic leaves every node unchanged |
| Dashboard.MoreProgressMonotone | pages/DashboardPage.tsx:87-102 | adding progress records never turns `isCompleted` or `isUnlocked` from true to false |
| Dashboard.CompletingPredecessorUnlocks | pages/DashboardPage.tsx:102 | recording completion of topic i-1 unlocks topic i |
| Dashboard.ThreeTopicExample | pages/DashboardPage.tsx:100-104 | topics 1, 2, 3 with topic 1 done: (completed, unlocked), (not completed, unlocked), (not completed, locked) |
| Dashboard.CompletedTopicMayBeLocked | pages/DashboardPage.tsx:101-102 | a topic with a record whose predecessor has none is completed and locked |
| Dashboard.PositionSlot | pages/DashboardPage.tsx:19 | the slot is below 6, the length of `positionClasses`, and equals the index for the first six nodes |
| Dashboard.PositionSlotPeriodic | pages/DashboardPage.tsx:19 | the slot repeats every six nodes |
| Dashboard.PositionSlotUnique | pages/DashboardPage.tsx:10-19 | any function that is the identity below 6 and repeats every 6 is the slot function |
| Dashboard.LessonHref | pages/DashboardPage.tsx:48 | `/lesson/${id}`: "/lesson/" then the decimal rendering of the id (canonical for safe-integer ids); specified by NumberToString and LessonHrefIdentifiesLesson |
| Dashboard.LessonHrefIdentifiesLesson | pages/DashboardPage.tsx:48 | different topic ids give different `/lesson/<id>` links |
| Dashboard.LessonNode | pages/DashboardPage.tsx:43-51 | a node has a link iff it is unlocked, and the link is `/lesson/<id>` of its topic; its slot is `PositionSlot` of its index, below 6 |
| Dashboard.DashboardNodes | pages/DashboardPage.tsx:100-104 | the page renders one node per topic |
| Dashboard.DashboardNodeLinks | pages/DashboardPage.tsx:43-51 | end to end: node i sits in slot `i % 6` and links to its topic's lesson iff i is 0 or a progress record names topic i-1 |
| JsStrings.TrimStart | services/geminiService.ts:78 | the result is a suffix of the input, every dropped character is whitespace, and it does not start with whitespace |
| JsStrings.TrimEnd | services/geminiService.ts:78 | the result is a prefix of the input, every dropped character is whitespace, and it does not end with whitespace |
| JsStrings.Trim | services/geminiService.ts:78 | `s.trim()`; specified by TrimStart, TrimEnd, TrimIsSlice, TrimCutsWhitespace, TrimmedEnds, TrimEmptyIff, TrimUnchanged and TrimIdempotent |
| JsStrings.TrimIsSlice | services/geminiService.ts:78 | `trim` keeps the contiguous piece of the input that starts after the leading whitespace |
| JsStrings.TrimCutsWhitespace | services/geminiService.ts:78 | every character `trim` cuts off, on either side, is whitespace |
| JsStrings.TrimmedEnds | services/geminiService.ts:78 | a non-empty trimmed string neither starts nor ends with whitespace |
| JsStrings.TrimEmptyIff | services/geminiService.ts:78-79 | the trimmed text is empty iff every character of the text is whitespace |
| JsStrings.TrimUnchanged | services/geminiService.ts:78 | a string that neither starts nor ends with whitespace trims to itself |
| JsStrings.TrimIdempotent | services/geminiService.ts:78 | trimming twice is trimming once |
| JsStrings.Join | services/geminiService.ts:57 | `parts.join(sep)`; specified by JoinAt and JoinShort |
| JsStrings.JoinAt | services/geminiService.ts:57 | in `parts.join(sep)`, part i stands at its offset, a separator follows every part but the last, and the last part ends the string |
| JsStrings.JoinShort | services/geminiService.ts:57 | joining no parts gives "", joining one part gives that part |
| JsStrings.NatToDecimal | pages/DashboardPage.tsx:48 | the rendering of a non-negative integer is a non-empty string of digits; its first digit is `0` only when it is the single digit of 0 |
| JsStrings.DecimalRoundTrip | pages/DashboardPage.tsx:48 | reading back the rendered digits gives the integer |
| JsStrings.NatToDecimalInjective | pages/DashboardPage.tsx:48 | different non-negative integers render differently |
| JsStrings.NumberToString | pages/DashboardPage.tsx:48 | a negative number renders as "-" then decimal digits that read back as its magnitude; a non-negative one as a non-empty string of decimal digits that reads back as the number; no leading zero in either case, so for safe integers (\|n\| ≤ 2^53) the string is JavaScript's canonical one |
| JsStrings.NumberToStringInjective | pages/DashboardPage.tsx:48 | different integers render differently |
| GeminiService.ApiKey | services/geminiService.ts:6 | the key is empty iff the variable is unset or empty; otherwise it is the variable's value |
| GeminiService.LoadLog | services/geminiService.ts:8-10 | at most one warning is printed at load, and one is printed iff no client can be built |
| GeminiService.GetAIClient | services/geminiService.ts:13-18 | a client exists iff the key is non-empty, and it carries that key |
| GeminiService.SentenceSchema | services/geminiService.ts:20-32 | the response schema; specified by SchemaRequiresEveryProperty |
| GeminiService.SchemaRequiresEveryProperty | services/geminiService.ts:20-32 | the schema is an array of objects whose `required` list equals its declared property names, indonesian, english, mandarin and pinyin, all strings |
| GeminiService.LanguageName | services/geminiService.ts:60 | the `${language}` interpolation; specified by PromptNamesLanguage and PromptInjective |
| GeminiService.VocabEntry | services/geminiService.ts:57 | one item's `indonesian (target)` entry; specified by VocabEntryTarget |
| GeminiService.VocabString | services/geminiService.ts:57 | the vocabulary string; specified by VocabStringLayout and EmptyVocabularyString |
| GeminiService.VocabEntries | services/geminiService.ts:57 | one entry per vocabulary item, in input order |
| GeminiService.VocabEntryTarget | services/geminiService.ts:57 | an entry is `indonesian (english)` for English and `indonesian (mandarin)` for Mandarin |
| GeminiService.VocabStringLayout | services/geminiService.ts:57 | in the vocabulary string, entry i stands at its offset, followed by ", " unless it is the last, and the last entry ends the string |
| GeminiService.EmptyVocabularyString | services/geminiService.ts:57 | an empty vocabulary is accepted and gives "" |
| GeminiService.RequestLineCount | services/geminiService.ts:62 | the request line asks for exactly 3 sentences |
| GeminiService.Prompt | services/geminiService.ts:59-66 | the prompt template; specified by PromptNamesLanguage, PromptCarriesVocabulary, PromptRequestsSentences and PromptInjective |
| GeminiService.PromptFor | services/geminiService.ts:57-66 | the prompt for a vocabulary and a language; specified by the Prompt lemmas with VocabStringLayout |
| GeminiService.PromptNamesLanguage | services/geminiService.ts:59-60 | the prompt contains the language name right after its opening words |
| GeminiService.PromptCarriesVocabulary | services/geminiService.ts:61 | the prompt contains the vocabulary string right after the lead-in |
| GeminiService.PromptRequestsSentences | services/geminiService.ts:62 | the prompt contains the request line for 3 sentences after the vocabulary |
| GeminiService.PromptInjective | services/geminiService.ts:59-66 | the prompt determines both the language and the vocabulary string |
| GeminiService.MockSentences | services/geminiService.ts:51-54 | the two sentences returned without a key; specified by FallbacksWellFormed and NoKeyGivesMock |
| GeminiService.ErrorSentences | services/geminiService.ts:86-88 | the one sentence returned on failure; specified by FallbacksWellFormed and ErrorFallbackIff |
| GeminiService.FallbacksWellFormed | services/geminiService.ts:51-88 | the mock list has 2 sentences and the error list has 1, and every field of each of them is non-empty |
| GeminiService.Result | services/geminiService.ts:51-88 | the sentences each branch returns (lines 51-54, 82, 86-88); specified by NoKeyGivesMock, ErrorFallbackIff, ParsedIff and NeverMixed |
| GeminiService.Logged | services/geminiService.ts:49-84 | the per-call console output (the warning at line 49, the error at line 84); specified by NoKeyGivesMock, ErrorFallbackIff and ParsedIff |
| GeminiService.GeneratePracticeSentences | services/geminiService.ts:42-90 | `generatePracticeSentences` itself; specified by NoKeyGivesMock, ErrorFallbackIff, ParsedIff, NeverMixed, WhitespaceResponseFails and AnswerNotLengthChecked |
| GeminiService.Decide | services/geminiService.ts:46-89 | the branch the call takes; specified by NoKeyGivesMock, OnlyThePromptIsSent, ErrorFallbackIff and ParsedIff |
| GeminiService.HandleResponse | services/geminiService.ts:68-89 | the `try`/`catch` around the call; specified by HandleResponseCases |
| GeminiService.JsonString | services/geminiService.ts:78 | the trimmed response text, or "" when there is none; specified by HandleResponseCases and WhitespaceResponseFails with the Trim lemmas |
| GeminiService.NoKeyGivesMock | services/geminiService.ts:46-55 | with an empty key the result is the two mock sentences, with one warning, and it is the same for every model and parser |
| GeminiService.OnlyThePromptIsSent | services/geminiService.ts:69-76 | with a key, only the model's answer to the built prompt, sent through that key's client, affects the outcome |
| GeminiService.HandleResponseCases | services/geminiService.ts:68-89 | the catch branch is taken iff the call threw, the trimmed text is empty or the parse failed; otherwise the parsed value comes out; never the mock data |
| GeminiService.ErrorFallbackIff | services/geminiService.ts:78-89 | with a key, the error sentence is returned, with one error logged, exactly when the call failed |
| GeminiService.WhitespaceResponseFails | services/geminiService.ts:78-79 | a whitespace-only response text gives the error sentence |
| GeminiService.ParsedIff | services/geminiService.ts:78-82 | the parsed answer comes out iff there is a key, the call did not fail and the trimmed text parsed to it; it is returned unchanged, with nothing logged |
| GeminiService.NeverMixed | services/geminiService.ts:46-89 | the result is the mock list (no key), the error list, or exactly what the trimmed text parsed to |
| GeminiService.AnswerNotLengthChecked | services/geminiService.ts:81-82 | for any vocabulary and any parser that reads "[]" as the empty array, as `JSON.parse` does, an answer "[]" yields the empty list, not 3 sentences |

## Left out

- The React rendering is not modelled. This covers the JSX/CSS class strings, icons, the XP label and the SVG path. It is presentation only. The model keeps only the layout slot and the link.
- `useUser`, the redirects to `/auth` and `/select-language` and the loading messages are not modelled. They are session and routing plumbing.
- Fetching topics and progress through `databaseService` with `Promise.all`, and the React state setters, are not modelled. This is asynchronous I/O. Topics and progress records are inputs instead.
- The Gemini SDK call is the parameter `model`. It runs synchronously in the model. The model name and the request config (MIME type, passing the schema) are not modelled.
- `JSON.parse` and the `as AIGeneratedSentence[]` cast are the parameter `parse`. The source would pass any parsed JSON value through the cast. The parameter's type can only return sentence lists, so values of other shapes are not represented.
- The texts of the console messages and the logged error object are not modelled. Only the event tags are.
- Strings are sequences of code points. JavaScript uses UTF-16 code units, and the model does not capture that difference.
- JsStrings.NumberToString: ids are modelled as integers rendered in decimal. Ids are assumed to be safe integers (|id| ≤ 2^53). Above that, JavaScript renders the shortest digit string that reads back as the same Number, padded with zeros, and it switches to exponent notation from 10^21; the model does not capture either. `types.ts` is not part of this model, so the id type is assumed to be a number.
- Requested counts, `InvalidRequest`/`InvalidSequence` errors, duplicate-id rejection, timeouts and per-field validation are not modelled. The code has none of them.
- Calling the gating twice on the same inputs gives the same result. No lemma states this, because every member is a pure function.
