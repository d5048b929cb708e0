# Reply service and admission queue, modelled in Dafny

The service answers a social-media thread with one short reply generated by a
chat-completion API. Two parts of it are modelled here:

- **The reply pipeline** (`app/services/reply.py`):
  - `redact_api_key` and `sanitize_log_message` remove the API key from log output.
  - `clean_reply` runs an ordered battery of 37 `re.sub` passes over the generated text. It then collapses whitespace, trims, drops a leading bare "I", removes "ai" as a last resort, and refuses results shorter than 5 characters.
  - `make_reply` builds the user prompt and falls back to a canned comment on every failure. Otherwise it post-processes the cleaned reply: it shortens long replies, adds an emoji when there is none, marks duplicates, records the reply in the session table `POSTED_COMMENTS` and cuts it to 80 characters.
- **The admission queue** `RequestQueue` (`main.py`). Requests wait in a FIFO queue, and at most `max_concurrent` ids are in flight. A popped id that is already in flight is dropped. API keys are handed out round-robin. `get_status` reads the in-flight set.

Modules, one file each:

| module | file | what it holds |
|---|---|---|
| `Strings` | strings.dfy | the Python `str` operations the code uses (`isspace`, `lower`, `replace`, `strip`, `split`, `" ".join`, `re.sub(r'\s+', ' ', s)`, `split(',')`) |
| `Redaction` | redaction.dfy | `redact_api_key` and `sanitize_log_message` over a JSON-like `LogValue` |
| `Patterns` | patterns.dfy | the regular-expression battery: a small pattern language with Python's leftmost-first, backtracking match order, and the 37 passes |
| `Cleaning` | cleaning.dfy | `clean_reply`: the specification `Cleaned` and the method `CleanReply`, which runs the battery in a `for` loop |
| `Prompt` | prompt.dfy | the request, the user prompt (`UserPrompt`), and `BuildUserPrompt`, which builds it step by step |
| `Reply` | reply.dfy | `make_reply`: the specification `Respond`, and the class `ReplyService`, which owns `POSTED_COMMENTS` |
| `Admission` | admission.dfy | the class `RequestQueue`, the drain specification `Drain` and the key rotation `Visits` |

The upstream call is a parameter: `Upstream` is what the call yields. Each `random.choice` is an index in `Picks`. The API key `DEEPSEEK_API_KEY` is a parameter. A spawned `process_request` task is recorded in the ghost log `started`, and the end of that task (the `finally` block) is the explicit call `Complete(id)`.

## Model

| member | source | states |
|---|---|---|
| Strings.ReplaceAbsent | app/services/reply.py:22 | `str.replace` returns a text without the pattern unchanged |
| Strings.ReplaceAtFirst | app/services/reply.py:22 | `str.replace` keeps the text before the leftmost occurrence, puts the replacement in its place and carries on after it |
| Strings.Replace | app/services/reply.py:132 | `str.replace`, leftmost occurrences first, without overlap; it has no contract of its own, and `Strings.ReplaceAbsent`, `Strings.ReplaceAtFirst`, `Strings.ReplaceLength` and `Strings.ReplaceUnchangedIff` state what it does |
| Strings.ReplaceLength | app/services/reply.py:132 | a replacement no shorter than the pattern never shortens the text, and one no longer never lengthens it |
| Strings.ReplaceUnchangedIff | app/services/reply.py:22 | with a replacement different from the pattern, `str.replace` leaves the text unchanged exactly when the pattern does not occur in it |
| Strings.StripStart | app/services/reply.py:123 | `lstrip` removes a whitespace-only prefix and leaves a text that does not start with whitespace |
| Strings.StripEnd | app/services/reply.py:123 | `rstrip` removes a whitespace-only suffix and leaves a text that does not end with whitespace |
| Strings.Strip | app/services/reply.py:123 | `strip` leaves a slice of the input with only whitespace around it, and neither end of that slice is whitespace |
| Strings.CollapseSpaces | app/services/reply.py:122 | after `re.sub(r'\s+', ' ', s)` the only whitespace is single spaces; the result is empty exactly when the input is, and it starts with whitespace exactly when the input does |
| Strings.CollapseKeepsVisible | app/services/reply.py:122 | collapsing whitespace keeps every other character, in order |
| Strings.CollapseFixesCollapsed | app/services/reply.py:122 | an already collapsed text is a fixed point of the collapse |
| Strings.Words | app/services/reply.py:235 | `s.split()` yields non-empty words without whitespace |
| Strings.WordsKeepVisible | app/services/reply.py:235 | the words of `s.split()`, run together, are exactly the non-whitespace characters of s in order |
| Strings.WordsAtSpace | app/services/reply.py:235 | a whitespace character separates words: `(x + c + y).split()` is `x.split() + y.split()` |
| Strings.WordsOfJoin | app/services/reply.py:235-237 | splitting words joined by single spaces gives back those words |
| Strings.JoinOfWords | app/services/reply.py:252 | a trimmed text whose only whitespace is single spaces is its words joined by single spaces |
| Strings.WordsOfCollapse | app/services/reply.py:122 | collapsing runs of whitespace keeps the words of a text |
| Strings.WordsOfStrip | app/services/reply.py:123 | stripping a text keeps its words |
| Strings.NormalizeIsCollapseStrip | app/services/reply.py:252 | `" ".join(s.split())` equals `re.sub(r'\s+', ' ', s).strip()` |
| Strings.JoinWordsShape | app/services/reply.py:237 | words joined by single spaces form a trimmed, collapsed text whose first character is that of the first word |
| Strings.Normalize | app/services/reply.py:252 | `" ".join(s.split())` is `re.sub(r'\s+', ' ', s).strip()`: trimmed and collapsed, with the words and the non-whitespace characters of s |
| Strings.Take | app/services/reply.py:252 | `s[:n]` is a prefix of s holding exactly min(n, len(s)) characters: all of s when s is short enough, exactly n otherwise |
| Strings.Split | main.py:29 | `s.split(',')` never yields an empty list, and no piece holds the separator |
| Strings.SplitThenJoin | main.py:29 | joining the pieces of a split with the separator gives back the text |
| Strings.JoinThenSplit | main.py:29 | splitting a join of separator-free pieces gives back the pieces |
| Redaction.RedactApiKey | app/services/reply.py:17-22 | the text comes back unchanged when the key is unset or empty, or the text is empty; with a key set that differs from the marker, it comes back unchanged exactly when the key does not occur in it |
| Redaction.RedactFirstOccurrence | app/services/reply.py:17-22 | redaction keeps the text before the first occurrence of the key, replaces that occurrence by `SK-***REDACTED***` and redacts the rest in turn |
| Redaction.Sanitize | app/services/reply.py:24-43 | a string is redacted; a list keeps its length and each item is sanitized in place; a dict keeps its keys in order, and every key whose lower case is `authorization` maps to `Bearer SK-***REDACTED***`, and every other key's value is sanitized in turn, recursively; any other value (number, boolean, None) passes through |
| Redaction.SanitizeBlanksHeaders | app/services/reply.py:28-40 | after sanitizing, every `Authorization` entry at any depth holds the bearer marker |
| Redaction.IsAuthorization | app/services/reply.py:33 | the test `k.lower() == "authorization"`; no contract of its own, `Redaction.Sanitize` and `Redaction.SanitizeBlanksHeaders` state what follows from it |
| Redaction.SanitizeFixesClean | app/services/reply.py:24-43 | a value that holds no key and whose headers are already blanked is returned unchanged |
| Patterns.SpaceRunEnd | app/services/reply.py:57 | `\s*` spans the maximal run of whitespace from a position |
| Patterns.SubFrom | app/services/reply.py:117-119 | one `re.sub` pass from position i: a match is replaced and the scan resumes after it, any other character is kept; no contract of its own, `Patterns.LiteralSubIsReplace` and `Patterns.SubWithoutMatch` state what it does |
| Patterns.BatteryPass | app/services/reply.py:56-110 | the 37 passes in the order of the list; no contract of its own |
| Patterns.Scrub | app/services/reply.py:113-119 | the first n passes applied in order; no contract of its own, `Cleaning.RunBattery` is proved against it |
| Patterns.FixWord | app/services/reply.py:110 | the callable returns a suffix of the matched word, and returns the word unchanged exactly when it is not "ai" or "ais" in some case |
| Patterns.FixWordWithoutAi | app/services/reply.py:110 | the callable keeps a word of a text in which "ai" occurs in no case |
| Patterns.DropStandaloneAIFrom | app/services/reply.py:110 | the callable pass, word by word from position i; no contract of its own, `Patterns.DropStandaloneAIKeepsWords` and `Patterns.DropStandaloneAIWithoutAi` state what it does |
| Patterns.MatchAt | app/services/reply.py:117 | a match that starts at i is non-empty and ends inside the text |
| Patterns.MatchAtoms | app/services/reply.py:56-110 | the rest of a pattern tried from position j in Python's backtracking order (an optional character taken before it is skipped); a match ends between j and the end of the text |
| Patterns.BacktrackSpaces | app/services/reply.py:56-110 | `\s*` takes the longest run of whitespace first and gives back one character at a time until the rest matches; a match ends between the run's start and the end of the text |
| Patterns.WordRunEnd | app/services/reply.py:110 | `\w*` spans the maximal run of word characters from a position |
| Patterns.MatchWord | app/services/reply.py:56 | a literal stretch of a pattern matches exactly where it occurs in the text, in either case when the pass ignores case |
| Patterns.MatchAtLiteral | app/services/reply.py:56 | a pattern of literal characters matches at i exactly where the case-folded word occurs at i |
| Patterns.LiteralSubIsReplace | app/services/reply.py:115-119 | a pass with a literal pattern rewrites the text as `str.replace` does on the case-folded text |
| Patterns.SubWithoutMatch | app/services/reply.py:115-119 | a pass that matches nowhere leaves the text unchanged |
| Patterns.LiteralMatchOccurs | app/services/reply.py:56 | where a case-insensitive literal pattern matches, the word occurs there in the lower-cased text |
| Patterns.LiteralPassWithoutWord | app/services/reply.py:56 | a case-insensitive literal removal leaves alone a text in which the word occurs in no case |
| Patterns.DropStandaloneAIWithoutAi | app/services/reply.py:110 | the callable pass leaves alone a text in which "ai" occurs in no case |
| Patterns.DropStandaloneAIKeepsWords | app/services/reply.py:110 | the callable pass never lengthens the text, and leaves it unchanged exactly when none of its whole words is "ai" or "ais" in some case, so words such as "said", "rain" or "again" come through |
| Patterns.SaidIsKept | app/services/reply.py:110 | the word "said" comes through the callable pass unchanged |
| Cleaning.DropLeadingI | app/services/reply.py:127-128 | when the guard holds, the leading "I" and its whole run of whitespace go (at least two characters), leaving a suffix that does not start with whitespace; otherwise the text is kept |
| Cleaning.Finish | app/services/reply.py:121-139 | the tail of `clean_reply` yields None exactly when the text left after the cleanup, the leading-"I" rule and the "ai" removal is shorter than 5 characters; otherwise the result has at least 5 characters, no whitespace at either end and no whitespace other than `' '`, and when the "ai" removal did not run it is exactly the tidy text (`Cleaning.Tidy`) and collapsed; when that removal ran (the tidy text holds "ai" in some case and is longer than 5), the result is the tidy text lowercased, with every non-overlapping "ai" removed left to right, then stripped, and it has no capital letter |
| Cleaning.Cleaned | app/services/reply.py:45-139 | an empty text comes back as it is; any other result has at least 5 characters and no whitespace at either end |
| Cleaning.CleanReply | app/services/reply.py:45-139 | the method computes `Cleaned` |
| Cleaning.RunBattery | app/services/reply.py:113-119 | the loop applies the passes of lines 54-111 in order (`Scrub`) |
| Cleaning.FinishCleaning | app/services/reply.py:121-139 | the step-by-step tail computes `Finish` |
| Strings.StripCollapsed | app/services/reply.py:122-123 | stripping a collapsed text leaves it collapsed and trimmed |
| Cleaning.Tidy | app/services/reply.py:122-128 | the text after the cleanup and the leading-"I" rule is the normalized text (`Strings.Normalize`, whose words and visible characters are those of the input) with the rule applied; it is collapsed and trimmed, and keeps the input's words when the rule does not fire |
| Cleaning.DropAI | app/services/reply.py:131-133 | the "ai" removal leaves a trimmed text with no capital letter, whose only whitespace is `' '` when that held before, and which is at least two characters shorter when "ai" occurred in some case |
| Cleaning.DropAIMayLeaveAi | app/services/reply.py:131-133 | the removal is one left-to-right scan: "aaii" becomes "ai" |
| Cleaning.StartsWithBareI | app/services/reply.py:127 | the guard `re.match(r'^I\s+(?!\')', s, re.IGNORECASE)`; no contract of its own, `Cleaning.LeadingIRule` states when it holds |
| Cleaning.LeadingIRule | app/services/reply.py:127-128 | on a collapsed, trimmed text the rule fires exactly on "I " or "i " not followed by an apostrophe, and then drops those two characters |
| Cleaning.FinishKeepsClean | app/services/reply.py:121-139 | a battery output that is already collapsed, trimmed, without a bare leading "I", without "ai" and long enough comes out unchanged |
| Cleaning.FinishAfterBareI | app/services/reply.py:121-139 | on a collapsed, trimmed text that starts with a bare "I", when what is left after dropping it has at least 5 characters and no "ai" in any case, the tail returns exactly what is left |
| Cleaning.FinishDropsBareI | app/services/reply.py:127-128 | the instance of `Cleaning.FinishAfterBareI` behind `Cleaning.FinishNotIdempotent`: a text of lower-case letters other than a, the letter I and single spaces, of at least 7 characters, that starts with "I " and ends in a letter loses exactly that "I " |
| Cleaning.FinishNotIdempotent | app/services/reply.py:127-128 | the tail maps "I I hello" to "I hello" and "I hello" to "hello", so applying it twice differs from applying it once |
| Cleaning.CleanReplyNotIdempotent | app/services/reply.py:45-139 | the whole of `clean_reply` maps "I I hello" to "I hello" and "I hello" to "hello", so cleaning a cleaned reply can change it again |
| Patterns.BatteryKeepsHelloLetters | app/services/reply.py:54-119 | no pass of the battery changes a text made only of "I", spaces and the letters h, e, l, o |
| Patterns.HeadlessPassKeeps | app/services/reply.py:113-119 | a pass whose pattern starts with a character class that matches no character of the text leaves the text as it is |
| Patterns.WordlessPassKeeps | app/services/reply.py:113-119 | a pass one of whose literal words holds a character that matches no character of the text leaves the text as it is, since every match spells that word out |
| Patterns.BatteryKeepsVendorLetters | app/services/reply.py:54-119 | once the first two passes have produced a text made only of the letters d, e, p, s and k, the other 35 passes leave it as it is |
| Patterns.BatteryRebuildsVendorName | app/services/reply.py:56-58 | on "deedeep seekpseek" the first pass finds no "deepseek", the second removes "deep seek" and so joins the outer halves into "deepseek", and no later pass changes that |
| Cleaning.CleanReplyRebuildsVendorName | app/services/reply.py:45-139 | `clean_reply("deedeep seekpseek")` returns "deepseek", the name the first three passes are there to remove |
| Cleaning.AIRemains | app/services/reply.py:131 | the guard `"ai" in cleaned.lower() and len(cleaned) > 5`; no contract of its own, `Cleaning.Finish` states the result on each side of it |
| Prompt.Recent | app/services/reply.py:166 | `history[:3]` is the first min(3, n) entries |
| Prompt.HistoryLines | app/services/reply.py:169-170 | the quoted lines exist exactly when every entry has both keys |
| Prompt.HistoryBlockFails | app/services/reply.py:166-171 | the "OTHER REPLIES" block cannot be built exactly when some entry lacks a key |
| Prompt.Header | app/services/reply.py:159-163 | the `THREAD by @...` and `TARGET by @...` lines with their defaults; no contract of its own, `Prompt.PromptLayout` places it |
| Prompt.Instructions | app/services/reply.py:173-179 | the closing instructions naming `@<target username>`; no contract of its own, `Prompt.PromptLayout` places it |
| Prompt.HistoryBlock | app/services/reply.py:166-171 | the "OTHER REPLIES" block; no contract of its own, `Prompt.HistoryBlockFails` and `Prompt.BuildHistoryBlock` state what it does |
| Prompt.PromptRaises | app/services/reply.py:159-176 | the cases in which building the prompt raises `KeyError`; no contract of its own, `Prompt.UserPrompt` states that the prompt is missing exactly then |
| Prompt.UserPrompt | app/services/reply.py:159-179 | the prompt is missing (building it raises `KeyError`) exactly when the original, the target, the target's username or a key of one of the first three history entries is missing |
| Prompt.BuildUserPrompt | app/services/reply.py:159-179 | the step-by-step construction yields `UserPrompt` |
| Prompt.BuildHistoryBlock | app/services/reply.py:166-171 | the loop over the history yields the block |
| Prompt.PromptLayout | app/services/reply.py:159-179 | the prompt opens with the `THREAD by @...` header and closes with the instructions naming `@<target username>`; what lies between them is exactly the history block of the first three entries (`Prompt.HistoryBlock`), which is empty exactly when there is no history and otherwise opens with the "OTHER REPLIES:" heading |
| Prompt.PromptIgnoresOlderHistory | app/services/reply.py:166 | entries after the third never change the prompt |
| Prompt.HistoryLinesOrder | app/services/reply.py:169-170 | each entry is quoted as `  @user: "text"` between the lines of the entries before it and those after it |
| Prompt.HistoryLine | app/services/reply.py:170 | one quoted line `  @<username>: "<text>"`; no contract of its own, `Prompt.HistoryLinesOrder` places it among the others |
| Prompt.TextOf | app/services/reply.py:149-150 | `p.get("original", {}).get("text", "")`: the post's text, or "" when the post or its text is missing; no contract of its own, `Reply.EarlyFallback` and `Reply.WhenUpstreamIsAsked` state what an empty one leads to |
| Reply.Fallback | app/config.py:16-19 | the fallback reply is one of `FALLBACK_COMMENTS` |
| Reply.RawReply | app/services/reply.py:223 | the raw reply is a slice of the content, empty without one, that neither starts nor ends with a quotation mark |
| Reply.StripQuotesStart | app/services/reply.py:223 | `lstrip('"\'')` removes a prefix of quotation marks only |
| Reply.StripQuotesEnd | app/services/reply.py:223 | `rstrip('"\'')` removes a suffix of quotation marks only |
| Reply.StripQuotes | app/services/reply.py:223 | `strip('"\'')` leaves a slice with only quotation marks around it, and neither end is a quotation mark |
| Reply.FirstNonAscii | app/services/reply.py:237 | the first character above code point 127, None exactly when there is none |
| Reply.FirstEmojiOr | app/services/reply.py:237 | the first character above code point 127 of the reply, or ✨ when there is none |
| Reply.Shorten | app/services/reply.py:234-238 | a reply of at most 15 words is kept; a longer one holds a character above code point 127, and its words are the first 12 words of the reply followed by the words of its first such character (or ✨), which is exactly one more word when the reply's only whitespace is `' '` |
| Reply.EmojiIsWord | app/services/reply.py:237 | the emoji appended by the shortening is one word unless it is whitespace, which a reply whose only whitespace is `' '` rules out |
| Reply.AddEmoji | app/services/reply.py:240-244 | a reply with a character above 127 is kept; otherwise it gains " " and the picked emoji; either way it then holds one |
| Reply.Dedup | app/services/reply.py:246-249 | a reply equal to some stored reply gains one of the three suffixes, and is kept otherwise |
| Reply.Finalize | app/services/reply.py:252 | the final cut is a prefix of `" ".join(reply.split())` of at most 80 characters, collapsed, not starting with whitespace, all of it when it fits and exactly its first 80 characters when it does not |
| Reply.Polish | app/services/reply.py:233-249 | the reply stored holds a character above code point 127 |
| Reply.Consult | app/services/reply.py:190-265 | the call always returns; it stores exactly when the request has a `postId`, there is a first choice and cleaning it leaves a non-empty text; a stored reply is recorded under that post and the returned text is its final cut; without a store the reply is the fallback |
| Reply.Conclude | app/services/reply.py:227-254 | given the cleaned reply: it stores exactly when there is a `postId` and a non-empty cleaned reply, stores the polished reply and returns its final cut; otherwise it returns the fallback |
| Reply.ReplyService.constructor | app/config.py:26 | the session starts with an empty `POSTED_COMMENTS` |
| Reply.ReplyService.MakeReply | app/services/reply.py:142-265 | the method returns `Respond`'s outcome and prompt and leaves the table as `Respond`'s write makes it |
| Reply.ReplyService.Deliver | app/services/reply.py:190-265 | the method returns `Consult`'s outcome and performs its write |
| Reply.ReplyService.Store | app/services/reply.py:227-254 | the method returns `Conclude`'s outcome and performs its write |
| Reply.ReplyService.PolishReply | app/services/reply.py:233-249 | the step-by-step post-processing computes `Polish` against the current table |
| Reply.EarlyFallback | app/services/reply.py:154-188 | without both texts, or with a buildable prompt and no key, the call returns a fallback comment, sends nothing and stores nothing |
| Reply.WhenUpstreamIsAsked | app/services/reply.py:154-190 | the call raises exactly when both texts are there and the prompt cannot be built; it asks upstream exactly when the prompt is built and a key is set, and it sends that prompt |
| Reply.Respond | app/services/reply.py:142-265 | one call of `make_reply` on a request, a key, the upstream answer, the random picks and the table; no contract of its own, `Reply.RespondCases`, `Reply.EarlyFallback`, `Reply.WhenUpstreamIsAsked` and `Reply.ReplyIsFallbackOrStored` state what it does |
| Reply.RespondCases | app/services/reply.py:148-265 | a call falls back early, raises, or answers as `Consult` does |
| Reply.ReplyIsFallbackOrStored | app/services/reply.py:190-265 | every returned reply is a fallback comment without a store, or the final cut of the reply stored under the request's post |
| Reply.StoredReplyShape | app/services/reply.py:227-250 | a stored reply comes from a first choice that cleaned to at least 5 characters; it holds a character above code point 127, and it differs from the shortened, emoji-decorated reply exactly when that reply was already stored for some post |
| Reply.ConsultStoresPolished | app/services/reply.py:233-250 | the reply stored is the polished cleaned reply |
| Reply.FallbacksAreFinal | app/config.py:16-19 | every fallback comment is at most 80 characters, collapsed, and starts with a visible character |
| Reply.ReplyBounded | app/services/reply.py:252-254 | every returned reply is at most 80 characters, collapsed, and starts with a visible character |
| Reply.OnlyThePostChanges | app/services/reply.py:250 | a call changes `POSTED_COMMENTS` at most under the request's post, where it stores the reply before the final cut |
| Reply.AfterChangesOnlyThePost | app/services/reply.py:250 | a write under one post leaves every other entry as it was |
| Reply.After | app/services/reply.py:250 | `POSTED_COMMENTS` after the call: the stored reply under its post, or the table as it was; no contract of its own, `Reply.AfterChangesOnlyThePost` and `Reply.StoresUnderThePost` state what it changes |
| Reply.StoresUnderThePost | app/services/reply.py:250 | the table is written only under the request's own `postId` |
| Admission.Admit | main.py:48-51 | the items of a popped prefix that start are no more than were popped, and each is one of them; `Admission.AdmitComplete` and `Admission.AdmitFresh` state which ones |
| Admission.Drain | main.py:46-51 | with a full in-flight set the drain changes nothing |
| Admission.Next | main.py:39 | the next cursor is `(c + 1) % n` and stays below n |
| Admission.Visits | main.py:35-40 | m consecutive key reads visit m positions, each below n |
| Admission.DrainQueue | main.py:47-51 | the loop of `process_queue` ends in the state `Drain` describes, with the queue empty or the in-flight set full, and never above the cap |
| Admission.RequestQueue.constructor | main.py:25-33 | the queue and in-flight set start empty, the cursor at 0, and the keys are the comma-separated pieces of the variable (never an empty list) |
| Admission.RequestQueue.GetNextApiKey | main.py:35-40 | with no keys it fails and changes nothing; otherwise it returns the key at the cursor and moves the cursor to `(cursor + 1) % len`, keeping it in range |
| Admission.RequestQueue.AddRequest | main.py:42-44 | the request joins the tail of the queue, then the queue drains |
| Admission.RequestQueue.ProcessQueue | main.py:46-51 | the new queue, in-flight set and started log are those of `Drain`, and the cap invariant holds |
| Admission.RequestQueue.Complete | main.py:104-106 | the finished id leaves the in-flight set, then the queue drains |
| Admission.RequestQueue.GetStatus | main.py:121-125 | "processing" exactly when the id is in flight, "completed" exactly when it is not |
| Admission.DrainIsFifo | main.py:46-51 | a drain pops a prefix of the queue in order, starts the items of that prefix whose id was not in flight, and adds exactly their ids: the ids of the prefix minus those in flight |
| Admission.DrainPopsPrefix | main.py:47-48 | the rest of the queue after a drain is the queue without the popped prefix |
| Admission.AdmitComplete | main.py:48-51 | the started ids are exactly the prefix's ids minus the in-flight ones; with `Admission.AdmitFresh`, exactly one item per such id starts |
| Admission.DrainTakesIds | main.py:49-50 | the in-flight set after a drain is the old one plus the ids of the started items |
| Admission.AdmitFresh | main.py:49-51 | a started request's id was not in flight, and no two started requests share an id |
| Admission.DrainStops | main.py:47 | a drain stops with the queue empty or the in-flight set full, never pushes it above the cap, and only adds to it |
| Admission.DrainStep | main.py:47-51 | one turn of the loop pops the head and starts it unless its id is in flight |
| Admission.StartsTheHead | main.py:47-51 | with a free slot and a head whose id is not in flight, the drain starts that head first |
| Admission.CompletionFreesASlot | main.py:104-106 | removing a finished id from an in-flight set within the cap leaves it below the cap, so the drain that follows can start a request |
| Admission.VisitsAt | main.py:38-39 | the key read i calls after cursor c is at position c + i, wrapped around once |
| Admission.RoundRobin | main.py:38-39 | `len(api_keys)` consecutive reads visit every key position exactly once |

## Left out

- Network I/O: the aiohttp POSTs and JSON decoding (`app/services/reply.py` 192-215, `main.py` 65-101) are the `Upstream` parameter. A body that is not JSON, a network error, a timeout, and a `content` that is not a string are all the `Failed` case.
- Retries: the tenacity `@retry` with exponential backoff is left out. Every exception inside lines 190-261 is caught, so the decorator only sees the `KeyError` raised while the prompt is built. Three identical attempts raise that `KeyError` each time. Since the decorator has no `reraise=True`, the caller then sees a `tenacity.RetryError` that wraps it. The `Raises` outcome stands for that exception and does not model its type.
- Randomness: each `random.choice` is an index parameter (`Picks`).
- Logging: the log calls are left out, and so is the request-data message of `process_request`.
- Rate limiting (`main.py` 57-62) is left out: it uses wall-clock time and `asyncio.sleep`.
- Concurrency: the `asyncio.Semaphore` (`main.py` 31, 55) and `create_task` are left out. The ghost log `started` records what `create_task` would start.
- The chat-completion call of `process_request` and the `chat_logs.jsonl` file are left out.
- Strings.LowerChar: `str.lower()` and case-insensitive matching fold ASCII letters only; Unicode case folding is not modelled.
- Strings.IsWordChar: `\w` is `[A-Za-z0-9_]`; Unicode letters and digits are not word characters in this model.
- Patterns.MatchAt: the pattern language covers only the constructs the 37 passes use; it is not a general Python regular-expression engine.
- Prompt.Request: every field is optional, but a present field is assumed to have the expected type (a dict with string values, a list of dicts); other JSON types are not modelled.
- Redaction.RedactApiKey: the contract does not claim that no copy of the key remains, because the marker itself can combine with the text around it to form the key again.
- Reply.ReplyBounded: it does not claim that the returned reply keeps its emoji, because the 80-character cut at line 252 can remove it.
- Admission.RequestQueue.GetNextApiKey: the `ValueError` for an empty key list is the result `None`. That list is never empty after the constructor anyway.
- Admission.RequestQueue.Complete: it requires the id to be in flight. In the source only the task that put the id there removes it.
- Admission.RequestQueue.constructor: the default `max_concurrent=10` of line 25 is not modelled; the cap is always an explicit argument.
- Redaction.LogValue: dictionary keys are always strings. `k.lower()` at line 33 would raise on a key of another type; the request bodies the service logs never have one.
- Admission.RequestQueue: `max_concurrent` is an unbounded `int`. The invariant reads `|processing| <= maxConcurrent || processing == {}`, so a cap of zero or below admits nothing.

## Behaviour of the code worth knowing

- `clean_reply` is not idempotent: the leading-"I" rule removes one "I" per call, so "I I hello" becomes "I hello" and then "hello". No pass of the battery touches either text (`Patterns.BatteryKeepsHelloLetters`), so this holds of the whole function (`Cleaning.CleanReplyNotIdempotent`), not only of its tail (`Cleaning.FinishNotIdempotent`).
- The vendor-name passes at lines 56-58 run one after the other, and the second can create what the first removes: in "deedeep seekpseek" the first pass finds no "deepseek", the second deletes "deep seek" and joins "dee" to "pseek". No later pass touches the result, so `clean_reply` returns "deepseek" (`Cleaning.CleanReplyRebuildsVendorName`). Other removals with `\s*` in the middle allow the same, for instance "language language modelmodel"; that instance is not proved here.
- The last-resort removal of "ai" at line 132 can leave an "ai" behind, because removing one occurrence can join two halves into a new one: "aaii" becomes "ai" (`Cleaning.DropAIMayLeaveAi`).
- A returned reply need not hold a character above code point 127. The emoji is added before the 80-character cut at line 252, and the cut can remove it. Only the stored reply is proved to hold one (`Reply.Polish`, `Reply.StoredReplyShape`).
- An emoji is added only when the reply has no character above code point 127, so a reply that already has several keeps them all (`Reply.AddEmoji`).
- Upstream errors are not retried: they are caught inside the `try` and answered with the fallback at once (`Reply.Consult`).
