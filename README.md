# AI-Tone-Changer core, modelled in Dafny

AI-Tone-Changer is three small Python front ends to an OpenRouter chat model:
a command-line chatbot (`openrouter_chatbot.py`), a Gradio web chatbot
(`openrouter_web_chatbot.py`) and a Gradio tone rewriter
(`openrouter_web_tonegenerator.py`). Around the remote call they share a
little local logic. This project models that logic and proves what it
promises:

- **Sliding-window rate limiting.** `is_rate_limited` keeps admission
  timestamps in a deque. Each call first evicts from the front every entry
  strictly older than the window. It then denies the call if the queue is at
  its quota, and otherwise records `now` and admits.
  - The chatbots run one window: 10 per 60 s.
  - The tone generator runs two: 10 per 60 s and 100 per day. The minute
    queue is evicted and checked before the day queue is touched.
  - The modules are `Window` (shared eviction theory), `ChatLimiter` and
    `ToneLimiter`. Each deque is a `seq<int>` field of a class. The
    `while`/`popleft` loops are methods whose results are proved equal to
    the pure functions `Gate` and `ToneGate`.
- **Response cleaning.** `clean_response` runs three steps:
  - it strips an echoed prompt;
  - it cuts hallucinated dialogue at four markers, in list order, stripping
    after each cut;
  - it makes the text end on `.`, `!`, `?` or `;`.

  This is modelled in `Sanitizer`, with the Python string operations it
  needs in `PyStr` and worked inputs in `SanitizerExamples`.
- **Tone lookup.** `get_tone_description` is a case-insensitive lookup in ten
  fixed descriptions, with a default phrase for other tones (`ToneStyle`).
- **Message list.** The web chatbot flattens the chat history into
  role-tagged messages (`ChatHistory`).

Two behaviours of the code are worth knowing before reading the contracts:

- **`last_punct > 0`.** Sentence completion cuts after the last terminal
  character only when its index is above 0. Text whose only terminal
  character is at index 0 gets `"."` appended, so `".abc"` becomes
  `".abc."`.
- **Minute check first.** The tone limiter evicts and checks the minute
  queue before it touches the day queue, so a minute denial leaves the day
  queue exactly as it was, stale entries included.

## Model

| member | source | states |
|---|---|---|
| PyStr.LStrip | openrouter_chatbot.py:44 | the result is a suffix of the input; what was dropped is all whitespace; the result does not start with whitespace |
| PyStr.RStrip | openrouter_chatbot.py:44 | the result is a prefix of the input; what was dropped is all whitespace; the result does not end with whitespace |
| PyStr.Strip | openrouter_chatbot.py:44 | `strip()` is a slice of the text with only whitespace before and after it; it is empty exactly when the text is all whitespace, and otherwise neither starts nor ends with whitespace |
| PyStr.Find | openrouter_chatbot.py:48-49 | `find` is -1 exactly when the marker does not occur; otherwise the marker occurs at the result and at no earlier index |
| PyStr.RFind | openrouter_chatbot.py:53 | `rfind(c)` is -1 or an index holding `c`, and no later index holds `c` |
| PyStr.NoOccurrenceStrip | openrouter_chatbot.py:49 | stripping text never creates an occurrence of a pattern |
| PyStr.LowerChar | openrouter_web_tonegenerator.py:141 | an upper-case ASCII letter becomes the lower-case letter at the same place in the alphabet; every other character is kept; the result is never an upper-case ASCII letter |
| PyStr.Lower | openrouter_web_tonegenerator.py:141 | `lower()` keeps the length, maps each character by `LowerChar` and leaves no upper-case ASCII letter |
| Sanitizer.EndsInTerminalIffRStrip | openrouter_chatbot.py:52 | `[.!?;]\s*$` matches exactly when the text, right-stripped, is non-empty and ends in `.`, `!`, `?` or `;` |
| Sanitizer.StripEcho | openrouter_chatbot.py:43-44 | a response not starting with the prompt is kept; otherwise the result is a slice of the text after the prompt with only whitespace around it within that text, and neither starts nor ends with whitespace |
| Sanitizer.StripEchoOfEchoed | openrouter_chatbot.py:43-44 | a response that is the prompt followed by `rest` becomes `rest.strip()` |
| Sanitizer.EmptyPromptStrips | openrouter_web_chatbot.py:59-60 | the empty prompt matches every response, so the response is always stripped |
| Sanitizer.CutAt | openrouter_chatbot.py:48-49 | text holding the marker becomes the stripped part before its first occurrence; text without it is unchanged; either way the result holds no occurrence of that marker and no pattern it did not hold before |
| Sanitizer.CutMarkers | openrouter_chatbot.py:47-49 | after the marker loop the text holds none of the markers; text holding none of them passes through unchanged |
| Sanitizer.NoNewlineNoMarker | openrouter_chatbot.py:47-49 | text without a newline holds none of the four markers |
| Sanitizer.LastTerminalIndex | openrouter_chatbot.py:53 | the result is -1 or the index of a terminal character, and nothing after it is terminal |
| Sanitizer.LastPunct | openrouter_chatbot.py:53 | the maximum of the four `rfind` calls is the last index holding any terminal character |
| Sanitizer.CompleteSentence | openrouter_chatbot.py:52-57 | the result is non-empty and ends in terminal punctuation; text that already does is unchanged; otherwise the text is cut after its last terminal character when that index is above 0, else `"."` is appended |
| Sanitizer.CompleteUnfinished | openrouter_chatbot.py:52-57 | for text ending in neither whitespace nor punctuation, with its last terminal character at `i`, the result is the prefix through `i` when `i > 0` and the text plus `"."` otherwise |
| Sanitizer.CompleteSentenceAddsNoMarker | openrouter_chatbot.py:52-57 | sentence completion creates no occurrence of a pattern that does not end in `.` |
| Sanitizer.CompleteSentenceAddsNoMarkers | openrouter_chatbot.py:52-57 | sentence completion reintroduces none of the four markers |
| Sanitizer.CleanResponse | openrouter_chatbot.py:41-59 | the result is never empty, ends in terminal punctuation once trailing whitespace is removed, and holds none of the markers |
| Sanitizer.CleanResponseKeepsCleanText | openrouter_chatbot.py:43-59 | a response that does not start with the prompt, holds no marker and already ends in terminal punctuation is returned unchanged |
| Sanitizer.CleanResponseOfPlainText | openrouter_chatbot.py:43-57 | for a response that does not start with the prompt and holds no newline, only sentence completion has an effect |
| Sanitizer.StripTrimmed | openrouter_chatbot.py:44 | text with no whitespace at either end is its own strip |
| SanitizerExamples.EndsInTerminalAtEnd | openrouter_chatbot.py:52 | text whose last character is terminal punctuation matches the regular expression |
| SanitizerExamples.StripSpaceThen | openrouter_chatbot.py:44 | one whitespace character in front of trimmed text is removed by `strip()` |
| SanitizerExamples.CleanResponseOfEchoedAnswer | openrouter_chatbot.py:43-59 | the prompt, one whitespace character and a finished newline-free sentence clean to that sentence |
| SanitizerExamples.NewlineFreeIsUncut | openrouter_chatbot.py:47-49 | text without a newline passes the marker loop unchanged |
| SanitizerExamples.EchoedPromptIsRemoved | openrouter_chatbot.py:43-44 | "What is the capital of France? Paris is the capital of France." with that question as prompt gives "Paris is the capital of France." |
| SanitizerExamples.CleanResponseAfterQuestionCut | openrouter_chatbot.py:47-57 | when the "\nQ:" cut leaves text without a newline, the later markers change nothing and only sentence completion remains |
| SanitizerExamples.DialogueIsCut | openrouter_chatbot.py:47-49 | "Yes.\nQ: What about Spain?\nA: Madrid." gives "Yes." |
| SanitizerExamples.DialogueCutAtQuestion | openrouter_chatbot.py:48-49 | cutting that response at "\nQ:" leaves "Yes." |
| SanitizerExamples.FoundAfterNewlineFreeText | openrouter_chatbot.py:48-49 | a marker that starts with a newline, occurring at `i` after newline-free text, is first found at `i` |
| SanitizerExamples.CleanPlainUnfinished | openrouter_chatbot.py:52-57 | plain unfinished text cleans to the prefix through its last terminal character when that index is above 0, else to the text plus "." |
| SanitizerExamples.DanglingClauseIsDropped | openrouter_chatbot.py:52-55 | "Hello! How are you? I am fine" gives "Hello! How are you?" |
| SanitizerExamples.PeriodIsAppended | openrouter_chatbot.py:52-57 | "The sky is blue" gives "The sky is blue." |
| SanitizerExamples.EmptyBecomesPeriod | openrouter_web_chatbot.py:57-75 | the empty response with the empty prompt gives "." |
| SanitizerExamples.LeadingPunctuationIsIgnored | openrouter_web_chatbot.py:69-73 | ".abc" gives ".abc.", because the punctuation at index 0 fails `last_punct > 0` |
| SanitizerExamples.MarkerOrderMatters | openrouter_web_chatbot.py:63-65 | "\nA: foo\nQ: bar" holds "\nA:" at index 0, yet it cleans to "A: foo.", not to the text before the earliest marker |
| SanitizerExamples.FirstCutExposesBody | openrouter_web_chatbot.py:63-65 | the "\nQ:" cut of that text, once stripped, is "A: foo", which no longer holds "\nA:" |
| SanitizerExamples.QuestionFoundAfterAnswerLine | openrouter_web_chatbot.py:64-65 | in that text "\nQ:" is first found at index 7 |
| SanitizerExamples.BodyIsCompleted | openrouter_web_chatbot.py:68-73 | "A: foo" is completed to "A: foo." |
| Window.Evicted | openrouter_web_tonegenerator.py:114-115 | eviction removes a front prefix of the queue, every removed entry is strictly older than the window, and the new front, if any, is within the window |
| Window.BoundaryEntryStays | openrouter_chatbot.py:30-31 | an entry exactly one window old is not evicted, and neither is anything behind it |
| Window.AllExpiredEvictsAll | openrouter_chatbot.py:30-31 | when every entry is older than the window, the whole queue is evicted |
| Window.NoneExpiredEvictsNone | openrouter_chatbot.py:30-31 | when no entry is older than the window, nothing is evicted |
| Window.EvictedSortedWithin | openrouter_web_tonegenerator.py:114-115 | eviction keeps a sorted queue sorted and leaves only entries within the window |
| Window.EvictedOrdered | openrouter_web_tonegenerator.py:114-125 | with a clock that does not go back, what eviction keeps, with or without `now` appended, is sorted and within the window |
| Window.EvictedSizeIsCountWithin | openrouter_chatbot.py:30-34 | on a sorted queue, the evicted queue's length is the number of entries within the window, wherever they are |
| Window.AppendNowSorted | openrouter_chatbot.py:38 | appending the current time to a queue of earlier times keeps it sorted |
| Window.TracksAfterEviction | openrouter_chatbot.py:30-31 | if the queue is the newest part of the admission history, it still is after a later eviction, and all older admissions have left the window |
| Window.AdmissionKeepsSpacing | openrouter_chatbot.py:34-38 | admitting `now` into a queue below quota keeps every `max + 1` consecutive admissions more than a window apart |
| ChatLimiter.RequestLimiter.constructor | openrouter_chatbot.py:23 | the deque starts empty |
| ChatLimiter.RequestLimiter.IsRateLimited | openrouter_chatbot.py:25-39 | the call returns True exactly when the evicted queue holds 10 entries; a denial leaves the evicted queue, an admission appends `now`; the quota bound is kept (this also covers openrouter_web_chatbot.py:40-55) |
| ChatLimiter.GateKeepsQuota | openrouter_chatbot.py:34-38 | no call lets the queue exceed 10 entries |
| ChatLimiter.GateDeniesIffWindowFull | openrouter_chatbot.py:30-35 | on a sorted queue, a call is denied exactly when 10 entries lie within the last 60 s |
| ChatLimiter.WindowSlides | openrouter_chatbot.py:30-39 | on a queue within the quota whose oldest entry is more than 60 s old, the call is admitted |
| ChatLimiter.AllExpiredAdmits | openrouter_chatbot.py:30-39 | once every entry is more than 60 s old, the queue empties and the call is admitted with queue `[now]` |
| ChatLimiter.GateKeepsOrder | openrouter_web_chatbot.py:46-54 | with a clock that does not go back, the queue stays sorted and holds only entries from the last 60 s |
| ChatLimiter.BurstFrom | openrouter_web_chatbot.py:46-55 | calls within one window of `lo`, on a queue of entries no older than `lo`, are denied exactly from the point where the queue would exceed 10 |
| ChatLimiter.BurstAdmitsFirstTen | openrouter_web_chatbot.py:46-55 | starting empty, a burst within 60 s of its first call admits exactly the first 10 calls |
| ChatLimiter.AdmittedOfRun | openrouter_chatbot.py:25-39 | the admissions of a run are those of its first call followed by those of the rest |
| ChatLimiter.GateKeepsSpacing | openrouter_chatbot.py:30-38 | one call keeps the queue the newest part of the admission history, and keeps any 11 consecutive admissions more than 60 s apart |
| ChatLimiter.RunKeepsSpacing | openrouter_chatbot.py:25-39 | the same holds along every run of calls with a clock that does not go back |
| ChatLimiter.NoElevenAdmissionsInAMinute | openrouter_web_chatbot.py:46-55 | starting empty, with a clock that does not go back, no 11 admissions fall within any 60-second span |
| ToneLimiter.RateLimiter.constructor | openrouter_web_tonegenerator.py:27-28 | both deques start empty |
| ToneLimiter.RateLimiter.EvictMinute | openrouter_web_tonegenerator.py:114-115 | the minute loop leaves the evicted minute queue and the day queue untouched |
| ToneLimiter.RateLimiter.EvictDay | openrouter_web_tonegenerator.py:119-120 | the day loop leaves the evicted day queue and the minute queue untouched |
| ToneLimiter.RateLimiter.IsRateLimited | openrouter_web_tonegenerator.py:110-126 | the call's status and both new queues are those of `ToneGate`, and both quota bounds are kept |
| ToneLimiter.ToneGateAdmitsIffRoom | openrouter_web_tonegenerator.py:116-126 | a call is admitted exactly when the evicted minute queue has fewer than 10 entries and the evicted day queue fewer than 100; an admission appends `now` to both |
| ToneLimiter.ToneGateDenialAppendsNothing | openrouter_web_tonegenerator.py:116-122 | a denial returns a non-empty message and appends to neither queue |
| ToneLimiter.MinuteDenialTakesPrecedence | openrouter_web_tonegenerator.py:114-117 | a full minute queue yields the minute message, and the day queue is neither evicted nor checked |
| ToneLimiter.DayDenialOnlyWhenDayFull | openrouter_web_tonegenerator.py:116-122 | the day message is given exactly when the minute queue had room and the evicted day queue is full |
| ToneLimiter.ToneGateKeepsQuotas | openrouter_web_tonegenerator.py:116-125 | no call lets the minute queue exceed 10 or the day queue exceed 100 entries |
| ToneLimiter.ToneGateKeepsMinuteOrder | openrouter_web_tonegenerator.py:114-124 | with a clock that does not go back, the minute queue stays sorted and holds only entries from the last minute |
| ToneLimiter.ToneGateKeepsDayOrder | openrouter_web_tonegenerator.py:119-125 | the day queue stays sorted and, unless the minute denial left it alone, holds only entries from the last day |
| ToneLimiter.EvictionKeepsHistory | openrouter_web_tonegenerator.py:114-120 | evicting both queues later keeps each the newest part of the admission history |
| ToneLimiter.MinuteDenialKeepsHistory | openrouter_web_tonegenerator.py:114-117 | a minute denial keeps both queues explained by the history and the history spaced for both quotas |
| ToneLimiter.DayDenialKeepsHistory | openrouter_web_tonegenerator.py:119-122 | the same for a day denial |
| ToneLimiter.AdmissionKeepsHistory | openrouter_web_tonegenerator.py:124-126 | the same for an admission, which extends the history by `now` |
| ToneLimiter.ToneGateKeepsHistory | openrouter_web_tonegenerator.py:110-126 | every call keeps both queues explained by the admission history and the history spaced for both quotas |
| ToneLimiter.AdmittedOfRun | openrouter_web_tonegenerator.py:110-126 | the admissions of a run are those of its first call followed by those of the rest |
| ToneLimiter.RunKeepsHistory | openrouter_web_tonegenerator.py:110-126 | along every run with a clock that does not go back, any 11 admissions span more than a minute and any 101 more than a day |
| ToneLimiter.NoBurstBeyondEitherQuota | openrouter_web_tonegenerator.py:110-126 | starting empty, no 11 admissions fall within a minute and no 101 within a day |
| ToneStyle.ToneDescription | openrouter_web_tonegenerator.py:128-141 | a tone whose lower-case form is predefined gets that description; any other tone gets its own spelling followed by " emotional style" |
| ToneStyle.PredefinedValuesNonEmpty | openrouter_web_tonegenerator.py:129-140 | every fixed description is non-empty |
| ToneStyle.KnownToneAnyCase | openrouter_web_tonegenerator.py:129-141 | any capitalisation of a predefined tone gets its fixed description |
| ToneStyle.CaseInsensitive | openrouter_web_tonegenerator.py:141 | two spellings that lower-case to the same predefined tone get the same description |
| ToneStyle.NoValueEndsInSuffix | openrouter_web_tonegenerator.py:129-141 | no fixed description ends in " emotional style" |
| ToneStyle.DescriptionIsFixedIffPredefined | openrouter_web_tonegenerator.py:129-141 | a description is one of the fixed ones exactly when the tone is predefined |
| ToneStyle.MixedCaseExample | openrouter_web_tonegenerator.py:141 | "PlayFul" gives "fun and lighthearted" |
| ToneStyle.UnknownToneExample | openrouter_web_tonegenerator.py:141 | "Happy" gives "Happy emotional style", keeping its capital |
| ChatHistory.FlattenFrom | openrouter_web_chatbot.py:92-94 | each history pair gives two messages, user turn then reply, and both carry the role of the pair's index |
| ChatHistory.BuildMessages | openrouter_web_chatbot.py:92-96 | the list has 2·len(history)+1 entries; the last is the new message as "user"; both messages of pair `i` carry the role for `i` |
| ChatHistory.RepliesMislabelled | openrouter_web_chatbot.py:92-94 | as written, the first reply goes out as "user" and the second user turn as "assistant" |
| ChatHistory.FlattenBySpeaker | openrouter_web_chatbot.py:92-94 | each pair gives a "user" message and then an "assistant" message |
| ChatHistory.BuildAlternatingMessages | openrouter_web_chatbot.py:92-96 | the intended list has the same length and last entry, with user turns as "user" and replies as "assistant" |
| ChatHistory.AlternatingRoles | openrouter_web_chatbot.py:92-96 | in the intended list the roles alternate by message position, starting and ending with "user" |
| ChatHistory.SameContents | openrouter_web_chatbot.py:92-96 | both lists carry the same contents in the same order |
| ChatHistory.AgreeOnlyWithoutHistory | openrouter_web_chatbot.py:92-96 | the list as written equals the intended one exactly when the history is empty |

## Left out

- The HTTP request to OpenRouter, the JSON response indexing and the "API Error"/"Error:" strings. These are network I/O against a remote service.
- `load_dotenv`, `os.environ` and the header dictionaries. This is configuration plumbing.
- The Gradio interfaces, CSS and examples, and the command-line `input`/`print`/`time.sleep` loop in `main`. These are user interface.
- The message `generate_response` shows when limited (openrouter_web_chatbot.py:82). It is a constant outside the limiter.
- `threading.Lock`. Each `is_rate_limited` call is one atomic method, which is all the lock guarantees. Interleavings of concurrent callers are not modelled.
- `time.time()`. It is a float wall clock; the model takes the reading as an integer parameter `now`. Sortedness and spacing are proved only under a clock that does not go back.
- Both chatbot copies of `is_rate_limited` are modelled by the one `ChatLimiter.RequestLimiter`. They differ only in the lock.
- `deque` is modelled by a `seq<int>` field. `popleft` drops the first element and `append` adds one at the end. Aliasing of the module-level deques is not modelled.
- `re.search(r'[.!?;]\s*$', ...)` is modelled by the predicate `Sanitizer.EndsInTerminal`, not by a regular-expression engine.
- `str.split(marker, 1)[0]` is modelled as the text before `Find`'s index.
- PyStr.IsSpace: uses the fixed set of characters Python's `str.isspace` accepts, which `\s` also matches in a `str` pattern. The Unicode database is not consulted.
- PyStr.Lower: lower-cases the ASCII letters A-Z only. Python's `str.lower` also maps non-ASCII letters; since every predefined tone is ASCII, the lookup differs only for tones whose non-ASCII letters lower-case to ASCII ones.
- ChatLimiter.Run and ToneLimiter.Run model sequences of calls so that quota properties across calls can be stated. They are not code of the repository.

## Findings

| source | as written | input that shows it | evidently intended | confidence | as-written member | corrected member |
|---|---|---|---|---|---|---|
| openrouter_web_chatbot.py:92-94 | both messages of history pair `i` get role "user" when `i` is even and "assistant" when `i` is odd | a history of two pairs: the first reply is sent as "user" and the second user turn as "assistant" | each user turn sent as "user" and each reply as "assistant" | not executed | ChatHistory.RepliesMislabelled | ChatHistory.AlternatingRoles |
