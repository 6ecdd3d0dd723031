# Mental-Health-Well-being: chat, community and reply-server core in Dafny

This project models the behaviour of the Mental-Health-Well-being application:

- **Wellness Bot** (`BotChat`): the rule-based classifier `getBotReply` and the bot chat's transcript controller. The controller pushes the user's message at once. It pushes the bot's reply from a timer callback later.
- **Maya chat** (`MayaChat`): the message log, `pushMessage` and `removeMessageById`. `handleSend` pushes the user's message and a "thinking" placeholder. It posts the text to the reply server. On every way the request can end, it swaps the placeholder for exactly one reply or error message.
- **Anonymous chat** (`AnonymousChat`): the session's random "UserNNNN" handle, the online-user set and `handleSendMessage`.
- **Community board** (`Community`): the initial posts, `handleCreatePost` (validate, trim, prepend) and `handleVote` (add a delta to the post with a given id).
- **Maya reply server** (`MayaServer`): the `/api/maya` handler's input guard, the request defaults and the prompt. It also covers the post-processing of the decoded model output: removing the echoed prompt, then cutting at the next `"\nUser:"` turn.

Shared string primitives live in `Text`:

- ASCII case folding.
- Substring search, as Python's `in` and `str.find`.
- The whitespace sets of JavaScript's `trim()` and Python's `str.strip()`, written out character by character.
- Decimal numerals, as `Date.now().toString()` prints them.
- The random-handle template `User${n}`.

Each stateful React component is a `class`. Its fields are the component's state variables, plus `timers` (the pending `setTimeout` callbacks) in the bot chat and `inFlight` (the request being awaited) in the Maya chat. Each handler is a `method` that says how it changes them. Each class's `Valid()` states an invariant the handlers keep:

- The bot chat keeps one reply, delivered or still scheduled, for every user message.
- The Maya chat keeps at most one placeholder, and that one is last.
- Anonymous chat messages carry the session's handle and a trimmed, non-empty text.
- Community posts have a non-empty title and content.

The pure parts are functions, with lemmas stating their properties:

- the classifier;
- the vote updater;
- removal by id;
- the server's post-processing.

`BotChat.ChooseReply` keeps the source's early-return loop over `RULES` and is proved to make the decision the function `Classify` defines. `BotChat.GetBotReply` returns the text of that answer.

Things outside the program are parameters:

- the clock reading behind each `Date.now()`;
- the random integers behind `Math.random()`;
- how a `fetch` ends (an `Outcome`);
- what tokenizing, generating and decoding end in, as a function `generate` from the prompt and the sampling settings to a `Generation`.

Some remarks on the source:

- The classifier chooses among eight answers: five rule replies, the crisis reply, the thanks reply and the fallback. The model names them by the `Reply` datatype, and `ReplyText` holds their exact strings. The five rule replies are distinct from each other and from the other three (`BotChat.RuleRepliesDistinct`).
- The crisis pattern is tested on `text.toLowerCase()`, while the rules are tested on `text`. Every pattern carries `/i`, so for ASCII text the extra lowering changes nothing. `BotChat.TestIgnoresCase` proves this for the model, whose case folding is ASCII only; outside ASCII the two can differ (see `Text.Lower` under "## Left out").
- Matching is by substring, not by whole word, so "this" fires the greeting rule. The model keeps this behaviour as written.
- The chat component sends `max_new_tokens` 256 and `temperature` 0.8 explicitly, and these equal the server's defaults. `MayaServer.ClientSendsDefaults` states this, and that the handler therefore answers the component's request as it answers a body leaving both fields out.
- The classifier's properties are stated about the chosen answer (`Classify`) and carried over to the returned string by `BotChat.ReplyTextInjective`: the eight texts differ, since their lengths do.

## Model

| member | source | states |
|---|---|---|
| Text.Lower | frontend/src/components/chat/BotChat.tsx:28 | ASCII lower-casing keeps the length, leaves no upper-case letter, and maps every character on its own |
| Text.IndexOf | backend/server/app.py:57 | `str.find`: -1 exactly when the pattern occurs nowhere, otherwise an index where it occurs with no occurrence before it |
| Text.Contains | backend/server/app.py:55 | Python's `p in s` holds exactly when `p` occurs at some index of `s` |
| Text.TrimStartSuffix | frontend/src/components/chat/BotChat.tsx:62 | trimming the start keeps a suffix, everything it drops is whitespace, and what is left does not start with whitespace |
| Text.TrimEndPrefix | frontend/src/components/chat/BotChat.tsx:62 | trimming the end keeps a prefix, everything it drops is whitespace, and what is left does not end with whitespace |
| Text.JsTrim | frontend/src/components/chat/BotChat.tsx:62 | defines JavaScript's `trim()` over its whitespace set; `TrimBySlice`, `TrimByEmpty`, `TrimmedIff` and `TrimByIdempotent` state its properties |
| Text.PyStrip | backend/server/app.py:52 | defines Python's `str.strip()` over its whitespace set; `TrimBySlice`, `TrimByEmpty`, `TrimmedIff` and `TrimByIdempotent` state its properties |
| Text.TrimBySlice | backend/server/app.py:52 | stripping keeps one contiguous slice, everything cut off at either end is whitespace, and the result neither starts nor ends with whitespace |
| Text.TrimByEmpty | frontend/src/components/chat/BotChat.tsx:62 | the trimmed text is empty exactly when every character is whitespace, so the `!input.trim()` guard rejects exactly the blank drafts |
| Text.TrimmedIff | frontend/src/components/chat/AnonymousChat.tsx:32 | trimming leaves a text unchanged exactly when it neither starts nor ends with whitespace |
| Text.TrimByIdempotent | frontend/src/components/chat/Mayachat.tsx:48 | trimming an already trimmed text changes nothing |
| Text.DecimalString | frontend/src/components/chat/AnonymousChat.tsx:30 | `Date.now().toString()` of a non-negative integer is a non-empty digit string with no leading zero that reads back as the number |
| Text.DecimalStringLength | frontend/src/components/chat/AnonymousChat.tsx:10 | a number below 10^k has at most k digits |
| Text.RandomUsername | frontend/src/components/chat/AnonymousChat.tsx:10 | the handle is "User" followed by one to four digits that read back as the random integer in [0, 9999] |
| BotChat.FirstMatch | frontend/src/components/chat/BotChat.tsx:38-40 | the index found is a rule that fires, and no rule before it (or no rule at all, when none is found) fires |
| BotChat.FirstMatchIs | frontend/src/components/chat/BotChat.tsx:38-40 | the search stops at rule k if and only if rule k fires and no rule before it does |
| BotChat.NoFirstMatch | frontend/src/components/chat/BotChat.tsx:38-40 | the search finds nothing if and only if no rule fires |
| BotChat.RuleRepliesDistinct | frontend/src/components/chat/BotChat.tsx:19-25 | the five rules give five different replies, none of them the crisis, thanks or fallback reply |
| BotChat.ReplyText | frontend/src/components/chat/BotChat.tsx:20-43 | defines the eight reply strings, character for character; `ReplyTextInjective` states that they differ and `RuleRepliesDistinct` that the rules' answers differ |
| BotChat.ReplyTextInjective | frontend/src/components/chat/BotChat.tsx:20-43 | the eight reply strings are pairwise different (their lengths are 31, 82, 93, 60, 85, 220, 27 and 69), so two answers give the same string only when they are the same answer |
| BotChat.Classify | frontend/src/components/chat/BotChat.tsx:27-44 | defines which of the eight answers `getBotReply` gives; `CrisisIff`, `FirstMatchWins`, `ThanksIff` and `FallbackIff` characterise each answer, and `ChooseReply` is proved to compute it |
| BotChat.IsCrisis | frontend/src/components/chat/BotChat.tsx:28-31 | defines the crisis test on `text.toLowerCase()`; `TestIgnoresCase`, `CrisisIff` and `CrisisPrecedence` state its properties |
| BotChat.Test | frontend/src/components/chat/BotChat.tsx:31 | defines `/a\|b\|c/i.test(text)` as: some word of the pattern occurs in the lower-cased text; `TestIgnoresCase` and `FiresOnOccurrence` state its properties |
| BotChat.Fires | frontend/src/components/chat/BotChat.tsx:39 | defines `r.patterns.some((p) => p.test(text))`; `FirstMatch` and `FirstMatchIs` state how the search uses it |
| BotChat.ChooseReply | frontend/src/components/chat/BotChat.tsx:27-44 | the early-return search (crisis words, then `RULES` in order, then thanks, then the fallback) makes exactly the decision the priority order defines |
| BotChat.BotReply | frontend/src/components/chat/BotChat.tsx:27-44 | defines the string `getBotReply` returns, the text of the chosen answer; `BotReplyIs`, `CrisisTextIfCrisis`, `CrisisTextOnlyIfCrisis`, `RuleTextIff`, `ThanksTextIff` and `FallbackTextIff` state its properties, and `GetBotReply` is proved to compute it |
| BotChat.GetBotReply | frontend/src/components/chat/BotChat.tsx:27-44 | the returned string is the text of the answer the priority order defines, and by `ReplyTextInjective` it tells which answer that is |
| BotChat.TestIgnoresCase | frontend/src/components/chat/BotChat.tsx:28-31 | testing a case-insensitive pattern on the lower-cased text is the same as testing it on the text |
| BotChat.CrisisPrecedence | frontend/src/components/chat/BotChat.tsx:30-36 | a text holding any crisis word, in any case, gets the crisis answer whatever rule words it also holds |
| BotChat.CrisisIff | frontend/src/components/chat/BotChat.tsx:31-35 | the crisis answer is chosen if and only if the lower-cased text holds crisis vocabulary |
| BotChat.FirstMatchWins | frontend/src/components/chat/BotChat.tsx:19-25 | rule k's reply is chosen if and only if there is no crisis word, rule k fires, and no earlier rule fires |
| BotChat.ThanksIff | frontend/src/components/chat/BotChat.tsx:42 | the thanks reply is given if and only if no crisis word and no rule matches and a thanks word does |
| BotChat.FallbackIff | frontend/src/components/chat/BotChat.tsx:43 | the fallback is given if and only if nothing above matches |
| BotChat.BotReplyIs | frontend/src/components/chat/BotChat.tsx:27-44 | `getBotReply` returns the text of an answer exactly when that answer is the one chosen |
| BotChat.CrisisTextIfCrisis | frontend/src/components/chat/BotChat.tsx:31-35 | a text holding crisis vocabulary gets the crisis string |
| BotChat.CrisisTextOnlyIfCrisis | frontend/src/components/chat/BotChat.tsx:31-35 | the crisis string is returned only for a text holding crisis vocabulary |
| BotChat.RuleTextIff | frontend/src/components/chat/BotChat.tsx:38-40 | rule k's reply string is returned if and only if there is no crisis word, rule k fires and no earlier rule fires |
| BotChat.ThanksTextIff | frontend/src/components/chat/BotChat.tsx:42 | "You're welcome — take care!" is returned if and only if no crisis word and no rule matches and a thanks word does |
| BotChat.FallbackTextIff | frontend/src/components/chat/BotChat.tsx:43 | the fallback string is returned if and only if nothing above matches |
| BotChat.FirstMatchIgnoresCase | frontend/src/components/chat/BotChat.tsx:38-40 | texts equal up to ASCII case have the same first firing rule |
| BotChat.SameLowerSameReply | frontend/src/components/chat/BotChat.tsx:27-44 | texts equal up to ASCII case get the same answer |
| BotChat.ReplyOfLowerCase | frontend/src/components/chat/BotChat.tsx:28-42 | the lower-cased text gets the same answer as the text itself |
| BotChat.NoCrisisWithout | frontend/src/components/chat/BotChat.tsx:31 | a text whose lower-cased form lacks 'u', 'k', 'w' and '-' holds no crisis word |
| BotChat.FiresOnOccurrence | frontend/src/components/chat/BotChat.tsx:39 | a rule fires as soon as one of its words occurs anywhere in the lower-cased text, even inside a longer word |
| BotChat.GreetingBeforeStress | frontend/src/components/chat/BotChat.tsx:19-40 | "hi, I'm stressed" fires the stress rule too, yet gets the greeting, which is listed first |
| BotChat.WantToDieIsCrisis | frontend/src/components/chat/BotChat.tsx:31-35 | "I want to die" gets the crisis reply |
| BotChat.Chat.constructor | frontend/src/components/chat/BotChat.tsx:47-50 | the log starts with the welcome message, the draft is empty and no reply is scheduled |
| BotChat.Chat.SetInput | frontend/src/components/chat/BotChat.tsx:77-80 | setting the draft changes nothing else |
| BotChat.Chat.PushMessage | frontend/src/components/chat/BotChat.tsx:58 | the message is appended after the unchanged log |
| BotChat.Chat.HandleSend | frontend/src/components/chat/BotChat.tsx:60-75 | a blank draft changes nothing; otherwise exactly one "You" message with the trimmed draft is appended, the draft is cleared, a reply to the trimmed text is scheduled 500 to 999 ms later, and every user message keeps exactly one reply, delivered or pending |
| BotChat.Chat.FireTimer | frontend/src/components/chat/BotChat.tsx:70-74 | the scheduled callback appends one bot message whose text is `getBotReply` of the submitted trimmed text, and that timer is gone |
| MayaChat.UserMessage | frontend/src/components/chat/Mayachat.tsx:52-57 | the user's message is never a loading message and its id never has the placeholder prefix |
| MayaChat.Placeholder | frontend/src/components/chat/Mayachat.tsx:63-70 | the placeholder is flagged loading and its id has the placeholder prefix |
| MayaChat.ReplyMessage | frontend/src/components/chat/Mayachat.tsx:82-111 | the message replacing the placeholder is Maya's, not loading, and flagged `error` exactly on a non-ok response or an exception; it is the reply when that is non-empty and the apology otherwise, for a non-ok response "Error from bot: " followed by the status, the reason phrase and, when the server sent a body, "- " and the body text, and "Network error: " and the message for an exception |
| MayaChat.SplicedDiagnostics | frontend/src/components/chat/Mayachat.tsx:87 | a message built as lead, space, reason phrase, space, detail starts with the lead and contains both the reason phrase and the detail verbatim |
| MayaChat.ErrorShowsDiagnostics | frontend/src/components/chat/Mayachat.tsx:82-91 | the error message for a non-ok response starts with "Error from bot: " and the status, contains the reason phrase, and contains "- " and the body text whenever the body is non-empty |
| MayaChat.RemoveById | frontend/src/components/chat/Mayachat.tsx:43 | defines `prev.filter((m) => m.id !== id)`; `RemoveByIdKeeps`, `RemoveByIdAppend`, `RemoveByIdAbsent`, `RemoveByIdIdempotent` and `RemoveLast` state its properties |
| MayaChat.RequestFor | frontend/src/components/chat/Mayachat.tsx:76 | defines the posted body: the trimmed text, 256 new tokens and temperature 0.8; `MayaServer.ClientSendsDefaults` relates it to the server's defaults |
| MayaChat.RemoveByIdKeeps | frontend/src/components/chat/Mayachat.tsx:42-43 | the result holds exactly the entries of the log whose id differs, and never grows |
| MayaChat.RemoveByIdAppend | frontend/src/components/chat/Mayachat.tsx:42-43 | removal distributes over concatenation, so the kept entries stay in their original order |
| MayaChat.RemoveByIdAbsent | frontend/src/components/chat/Mayachat.tsx:42-43 | removing an id that no entry carries leaves the log unchanged |
| MayaChat.RemoveByIdIdempotent | frontend/src/components/chat/Mayachat.tsx:103-104 | removing twice is removing once, so the catch path's second removal is harmless |
| MayaChat.RemoveLast | frontend/src/components/chat/Mayachat.tsx:79-80 | removing the id only the last entry carries drops exactly that entry, and removing it again changes nothing |
| MayaChat.Chat.constructor | frontend/src/components/chat/Mayachat.tsx:22-30 | the log starts with Maya's welcome, the draft is empty and no request is pending |
| MayaChat.Chat.SetInput | frontend/src/components/chat/Mayachat.tsx:116-119 | setting the draft changes nothing else |
| MayaChat.Chat.PushMessage | frontend/src/components/chat/Mayachat.tsx:39 | the message is appended after the unchanged log |
| MayaChat.Chat.RemoveMessageById | frontend/src/components/chat/Mayachat.tsx:42-43 | the log becomes the removal of that id from the old log; nothing else changes |
| MayaChat.Chat.Submit | frontend/src/components/chat/Mayachat.tsx:46-77 | a blank draft sends nothing and changes nothing; otherwise the user's message and then one placeholder are appended, the draft is cleared, and the request carries the trimmed text with 256 tokens and temperature 0.8 |
| MayaChat.Chat.Settle | frontend/src/components/chat/Mayachat.tsx:79-112 | on every outcome the placeholder is removed and exactly one reply or error message takes its place; the rest of the log and the draft are untouched |
| MayaChat.Chat.HandleSend | frontend/src/components/chat/Mayachat.tsx:46-113 | a whole non-blank send appends the user's message followed by exactly one reply or error message, and leaves no placeholder anywhere in the log |
| AnonymousChat.Chat.constructor | frontend/src/components/chat/AnonymousChat.tsx:19-23 | the session handle is "User" and the random integer, the online-user set holds exactly that handle, and the log and draft are empty |
| AnonymousChat.Chat.SetNewMessage | frontend/src/components/chat/AnonymousChat.tsx:21 | setting the draft leaves the log unchanged |
| AnonymousChat.Chat.HandleSendMessage | frontend/src/components/chat/AnonymousChat.tsx:25-38 | a blank draft changes nothing; otherwise exactly one message with the trimmed draft and the session handle is appended after the unchanged log, and the draft is cleared |
| Community.Voted | frontend/src/components/community/Community.tsx:88-94 | the vote keeps the length and order, adds the delta to the votes of every post with that id, and changes no other field of any post |
| Community.VoteUnknownId | frontend/src/components/community/Community.tsx:89-93 | a vote for an id that no post has changes nothing |
| Community.VotesAdd | frontend/src/components/community/Community.tsx:88-94 | two votes on the same id add up |
| Community.UpThenDownRestores | frontend/src/components/community/Community.tsx:88-94 | an up-vote followed by a down-vote on the same post restores every count |
| Community.Board.constructor | frontend/src/components/community/Community.tsx:42-67 | the board starts with the mock post, empty drafts and the dialog closed |
| Community.Board.SetNewPostTitle | frontend/src/components/community/Community.tsx:65 | setting the title draft changes nothing else |
| Community.Board.SetNewPostContent | frontend/src/components/community/Community.tsx:66 | setting the content draft changes nothing else |
| Community.Board.SetShowNewPost | frontend/src/components/community/Community.tsx:67 | opening or closing the dialog changes nothing else |
| Community.Board.HandleCreatePost | frontend/src/components/community/Community.tsx:69-86 | when the trimmed title or content is blank nothing changes; otherwise the new post has the trimmed title and content, a "User" author, 0 votes and no comments, and goes first before the unchanged old list; both drafts are cleared and the dialog is closed |
| Community.Board.HandleVote | frontend/src/components/community/Community.tsx:88-94 | the posts become the vote applied to the old posts, and the drafts and dialog are untouched |
| MayaServer.SettingsFor | backend/server/app.py:40-48 | defines the settings `model.generate` runs with: the body's `max_new_tokens` and `temperature` (or their defaults), top-p 0.9 and sampling on; `OmittedFieldsDefault` and `GivenFieldsUsed` state its values, and `MayaReply` generates with it |
| MayaServer.OmittedFieldsDefault | backend/server/app.py:9-12 | a body that leaves both fields out is generated with 256 new tokens, temperature 0.8, top-p 0.9 and sampling |
| MayaServer.GivenFieldsUsed | backend/server/app.py:40-44 | the client's `max_new_tokens` and `temperature`, when given, are passed to the model as given, with top-p 0.9 |
| MayaServer.FromClient | frontend/src/components/chat/Mayachat.tsx:76 | defines how the server parses the body the chat component posts (app.py:9-12): both fields present; `ClientSendsDefaults` states its consequence |
| MayaServer.ClientSendsDefaults | backend/server/app.py:11-12 | the settings the chat component sends equal the server's defaults, so the handler's answer to the component's request is its answer to a body without those fields |
| MayaServer.Prompt | backend/server/app.py:34 | the prompt is "User: ", then exactly the input, then "\nMaya:" |
| MayaServer.StripEcho | backend/server/app.py:51-52 | defines the first step: an output starting with the prompt loses it and is stripped; `StripEchoSlice` and `EchoRemoved` state its properties |
| MayaServer.CutAtUserTurn | backend/server/app.py:55-59 | defines the second step: a text with a line break is cut before its first "\nUser:" and stripped; `CutSlice`, `CutRemovesUserTurn` and `CutAtFirstUserTurn` state its properties |
| MayaServer.PostProcess | backend/server/app.py:49-59 | defines the reply made of the decoded output: the first step, then the second; `PostProcessSlice`, `PostProcessContained` and `PlainOutputKept` state its properties |
| MayaServer.StripEchoSlice | backend/server/app.py:51-52 | the first step keeps a slice of the decoded text, and one starting after the prompt when the text echoed it |
| MayaServer.CutSlice | backend/server/app.py:55-59 | the second step keeps a slice of its argument |
| MayaServer.PostProcessSlice | backend/server/app.py:50-59 | the reply is one contiguous piece of the decoded text, lying after the echoed prompt when there is one |
| MayaServer.PostProcessContained | backend/server/app.py:49-60 | the reply is a substring of the decoded text |
| MayaServer.StripKeepsAbsence | backend/server/app.py:59 | stripping a text that lacks a pattern leaves a text that lacks it |
| MayaServer.NoBreakNoUserTurn | backend/server/app.py:55 | a text without a line break holds no "\nUser:", so skipping the cut for it loses nothing |
| MayaServer.BeforeFirstOccurrence | backend/server/app.py:57-59 | the text before the first occurrence of a non-empty pattern does not contain it |
| MayaServer.CutRemovesUserTurn | backend/server/app.py:55-59 | after the cut no "\nUser:" is left in the text |
| MayaServer.CutAtFirstUserTurn | backend/server/app.py:55-59 | a text whose first "\nUser:" starts at index i becomes its part before i, stripped |
| MayaServer.EchoRemoved | backend/server/app.py:51-52 | when the model output is the prompt followed by more text, only that text, stripped, goes on to the cut |
| MayaServer.PlainOutputKept | backend/server/app.py:51-59 | an output that neither echoes the prompt nor holds a line break is the reply unchanged |
| MayaServer.MayaReply | backend/server/app.py:28-63 | an empty input is refused with 400 and its detail; otherwise the model is run on the framed prompt with the request's settings, a generation error is answered with 500 and "Generation error: " and its message, and a decoded output gives a reply that is a substring of it holding no "\nUser:" |

## Left out

- Rendering, scroll-into-view effects, focus refs, avatars and cards are presentation only and not modelled. The quick-fill buttons are modelled only through the `SetInput` they call.
- The `fetch` transport, `resp.text()` and `resp.json()` are not modelled. Their result is the `MayaChat.Outcome` value.
- `MayaChat.ReplyMessage`: a truthy `data.reply` that is not a string (a number, an object) is not modelled. `Outcome.Ok` carries a string or nothing, so an empty string is the only falsy reply.
- `MayaChat.Chat.Submit`: it requires that no request is pending. Overlapping submissions, a double submit while awaiting, and updates after unmount are concurrency and are not modelled.
- `BotChat.Chat.FireTimer`: the callback that fires is chosen by the caller, so the model allows any firing order. The order the event loop actually uses is not modelled.
- The clock and the random number generator are parameters: `now`, `stamp`, `roll` and `jitter`. The model does not claim that ids are unique or that timestamps increase. The `timestamp` fields are display-only and left out.
- Tokenizer and model loading, `torch`, the device choice and `model.generate` are not modelled. They are the `generate` parameter of `MayaServer.MayaReply`, whose result is a `MayaServer.Generation` value; `model.generate` samples, so each use of `MayaReply` is given its own `generate`; `ClientSendsDefaults` compares two bodies under the same one. The floating-point values of the sampling settings are kept as reals.
- `MayaServer.MayaReply`: a body without an `input` string is refused by the framework's request validation before the handler runs. That refusal is not modelled, and neither is a field sent explicitly as `null`.
- `Text.Lower`: only ASCII letters are lower-cased. Unicode case mapping in `toLowerCase` and in the regex `/i` flag is not modelled. The two differ outside ASCII: `toLowerCase` maps U+212A KELVIN SIGN to "k", so U+212A followed by "ill myself" trips the crisis test on the lowered text, while the model answers with the fallback.
- Each whitespace set is written out as an explicit table. Unicode general categories are not computed.
- The votes of a post are unbounded integers. JavaScript's floating-point `number` is not modelled.
- backend/auth.py is not part of this model. It wraps password hashing, token and database libraries.
- The page components are composition shells and are not part of this model.
