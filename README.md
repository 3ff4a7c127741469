# WAYNE Chat Assistant: the answer-matching engine in Dafny

This project models the core of the WAYNE browser chat widget. That core is the engine that picks a reply to a free-text question from a knowledge base of question/answer/keyword records, together with the session state around it.

- `strings.dfy` (module `Strings`) holds the three JavaScript string operations the engine uses: `toLowerCase` (as `Lower`), `includes` (as `Contains`, a left-to-right search proved equal to "occurs at some index") and `trim`, with the ECMAScript white-space set.
- `seqs.dfy` (module `Seqs`) holds the array operations `filter`, `find` and `some`, plus the de-duplication `[...new Set(xs)]`.
- `knowledge.dfy` (module `KnowledgeBase`) models the loaded data. The questions file is a sequence of groups `{category, questions}`. `Flatten` turns it into the flat entry list `qaPairs`, and every entry carries its group's category. `Categories` is the category list shown as buttons.
- `matching.dfy` (module `Matching`) is `getBotResponse`. `Respond` checks the two commands, "clear chat" first and then "help", by case-insensitive substring. If neither is present, `Lookup` searches the pool. The pool is the active category's entries, or all entries when no category is active. The first exact case-insensitive question match wins. Otherwise the engine collects the partial matches: entries whose question, or any of whose keywords, the query includes. One partial match gives its answer. Two or more give a "Did you mean" list of at most three questions. None gives a no-match reply that quotes the query. The outcome is the tagged `Response`, and `Render` produces the literal reply texts.
- `chat.dfy` (module `Chat`) is the class `Session`. Its fields are the globals `qaPairs`, `currentCategory` and `sessionHistory`. Its methods are `loadQuestions` (given the fetch result), `addMessage`'s transcript append, `displayWelcomeMessage`'s greeting and category buttons, `selectCategory`, `getBotResponse`'s clearing of the transcript, `sendMessage` with its empty-input guard, and `updateDocumentation`'s thank-you message.
- `api.dfy` (module `Api`) is the simulated back end: the endpoint switch `handleAPIRequest` and the first-match lookup `simulateDatabaseQuery`. The lookup shares the knowledge base but has no category filter, no question-substring rule and no disambiguation.
- `scenarios.dfy` (module `Scenarios`) holds worked cases on a two-entry knowledge base.

Notes on behaviour, following the code:

- A failed load leaves `qaPairs` as it was; it is not reset to an empty list (script.js:31-34).
- The options of a "Did you mean" list have no click handler, so nothing resubmits a chosen question. `Matching.ReaskQuestion` states what asking it again would give.
- Asking an entry's question does not always get that entry's answer:
  - A question that contains "help" or "clear chat" runs the command instead (`Matching.QuestionWithHelpIsShadowed`, `Scenarios.HelpQuestionUnreachable`).
  - When two pool entries have the same question up to case, the earlier one answers.
- `currentCategory` is tested for JavaScript truthiness (script.js:127). So an active category whose label is the empty string filters nothing (`Matching.Filtering`).
- In `simulateDatabaseQuery`, a missing `question` throws a `TypeError` only once `find` calls its test. With an empty `qaPairs` the call returns `not_found` instead. A missing `data` on `/get-answer` always throws. Both cases are modelled as `Threw`.

## Model

| member | source | states |
|---|---|---|
| Strings.LowerSpec | script.js:133 | `toLowerCase` maps every capital ASCII letter to its small letter and keeps every other character; no capital remains |
| Strings.ContainsIff | script.js:139-141 | `includes` holds exactly when the needle occurs at some index of the string |
| Strings.Trim | script.js:76-77 | `trim` yields the slice between leading and trailing ECMAScript white space; it starts and ends with a non-space and is empty exactly when the input is all white space |
| Seqs.Filter | script.js:138-143 | `filter` keeps exactly the elements that pass the test and never lengthens the sequence |
| Seqs.FilterConcat | script.js:127-129 | `filter` keeps order: filtering `a + b` is filtering `a` followed by filtering `b` |
| Seqs.FindFirst | script.js:132-134 | `find` returns the first element passing the test, or nothing when none passes |
| Seqs.Any | script.js:140-142 | `some` holds exactly when some element passes the test |
| Seqs.Distinct | script.js:43 | `[...new Set(xs)]` holds each element of `xs` exactly once and nothing else |
| Seqs.DistinctOrder | script.js:43 | the de-duplicated elements come in the order of their first appearance |
| KnowledgeBase.FlattenLength | script.js:25-30 | flattening gives one entry per record: the length is the sum of the group sizes |
| KnowledgeBase.FlattenConcat | script.js:25-30 | flattening keeps group order: the entries of earlier groups come first |
| KnowledgeBase.FlattenAt | script.js:25-30 | record `j` of group `i` lands at the offset of the earlier groups plus `j`, with its own question, answer and keywords and its group's category |
| KnowledgeBase.FlattenOrigin | script.js:25-30 | every flattened entry is some group's record tagged with that group's category |
| KnowledgeBase.Categories | script.js:43 | the category list names every entry's category, only those, and none twice |
| KnowledgeBase.CategoriesInFirstAppearanceOrder | script.js:43 | categories are listed in order of their first appearance among the entries |
| Matching.PoolSpec | script.js:127-129 | with a (non-empty) category set, the pool is exactly the entries with that label; with none, it is the whole knowledge base |
| Matching.PoolConcat | script.js:127-129 | the category filter keeps the original order of the entries |
| Matching.FirstExact | script.js:132-134 | the exact-match search finds the first pool entry whose lower-cased question equals the lower-cased query, or reports that none does |
| Matching.Partials | script.js:138-143 | the partial matches are exactly the pool entries whose question or some keyword the lower-cased query includes |
| Matching.PartialsConcat | script.js:138-143 | the partial matches keep pool order |
| Matching.CommandsFirst | script.js:114-124 | a query including "clear chat" in any case gets the cleared reply; one including "help" but not "clear chat" gets the help text; both replies are independent of entries and category; otherwise the reply is the pool lookup |
| Matching.ExactIsPartial | script.js:132-143 | an entry whose question equals the query also matches it partially |
| Matching.LookupDrawsFromPool | script.js:131-156 | every answer given and every question offered belongs to a pool entry |
| Matching.CategoryConfinesReplies | script.js:126-156 | with a category set, no entry of another category gives an answer or appears among the offered questions |
| Matching.ExactWins | script.js:131-135 | the first exact match in pool order gives the answer, whatever else matches partially |
| Matching.PartialOutcome | script.js:145-160 | without an exact match: one partial match gives its answer; two or more give the first min(3, n) of their questions in pool order; none gives the no-match reply with the query |
| Matching.NoMatchIff | script.js:131-160 | the no-match reply comes exactly when no pool entry matches exactly or partially |
| Matching.ReaskQuestion | script.js:131-135 | asking an entry's question again, in any case, and free of commands, is answered by the first pool entry with that question |
| Matching.QuestionWithHelpIsShadowed | script.js:121-124 | a query including "help" never gets a knowledge-base answer |
| Matching.NoMatchEchoesQuery | script.js:160 | the no-match reply quotes the query as typed |
| Matching.OptionsIndexed | script.js:152-154 | option `k` of the list carries `data-index` equal to `k` (counted from the start index) and sits after the first `k` options, in the order given |
| Matching.OptionsListQuestion | script.js:152-154 | the option list shows every question it is given |
| Matching.DisambiguationShowsQuestions | script.js:152-156 | the "Did you mean" reply contains every offered question |
| Chat.Session.constructor | script.js:9-11 | the session starts with no entries, no category and an empty transcript |
| Chat.Session.LoadQuestions | script.js:21-35 | a successful load replaces `qaPairs` by the flattened groups; a failed one leaves it unchanged |
| Chat.Session.CategoryList | script.js:43 | the category buttons name every loaded category once |
| Chat.ButtonsListCategory | script.js:45-47 | the button list holds a button for each category it is given |
| Chat.PromptOffersEveryCategory | script.js:43-51 | the category prompt holds a button for the category of every loaded entry |
| Chat.Session.DisplayWelcome | script.js:38-55 | the greeting is appended, then the category prompt exactly when at least one category is loaded |
| Chat.Session.UpdateDocumentation | script.js:171-177 | a note that is empty after trimming changes nothing; otherwise exactly the thank-you message is appended |
| Chat.Session.AddMessage | script.js:105-109 | exactly one record with sender, text and timestamp is appended at the end of the transcript |
| Chat.Session.SelectCategory | script.js:164-167 | the chosen category becomes active and one confirmation is appended |
| Chat.Session.GetBotResponse | script.js:113-161 | the reply is the rendered decision; the transcript is emptied exactly on "clear chat" and otherwise unchanged |
| Chat.Session.Answer | script.js:83-86 | the delayed reply is computed and appended as a bot message |
| Chat.Session.SendMessage | script.js:75-87 | input that is empty after trimming changes nothing; otherwise the trimmed text and then the reply are appended, and after "clear chat" only the reply remains |
| Chat.ClearChatScenario | script.js:115-119 | whatever the earlier transcript, sending "clear chat" leaves exactly the confirmation message |
| Api.SimulateDatabaseQuery | api/api.js:15-27 | the lookup throws only for a missing question over a non-empty knowledge base; a success carries some entry's answer |
| Api.FirstMatchAnswers | api/api.js:19-26 | the answer is that of the first entry whose question equals the query or one of whose keywords it includes; `not_found` with the fixed text exactly when no entry does |
| Api.EmptyKnowledgeBaseNotFound | api/api.js:19-26 | an empty knowledge base always gives `not_found` |
| Api.EndpointDispatch | api/api.js:4-13 | `/get-answer` delegates to the lookup and throws without data; `/update-docs` succeeds whatever the data; any other endpoint gets the error "Invalid endpoint"; only `/get-answer` can throw |
| Api.FirstMatchWins | api/api.js:19-22 | the first matching entry answers, whatever matches after it |
| Api.ApiNeverFindsMore | api/api.js:19-22 | when the widget finds nothing (no category, no command), the back end finds nothing either |
| Api.EarlierKeywordBeatsExact | api/api.js:19-22 | a keyword hit earlier in the list beats a later exact match in the back end, while the widget answers with the exact match |
| Scenarios.SinglePartial | script.js:145-148 | a single entry matched partially but not exactly gives its answer |
| Scenarios.TwoPartials | script.js:151-156 | two entries matched partially, neither exactly, give a choice between both questions in order |
| Scenarios.KeywordGivesAnswer | script.js:138-148 | "Tell me about wayne" against the entry with keyword "wayne" gives its answer |
| Scenarios.SharedKeywordDisambiguates | script.js:151-156 | "wayne" against two entries sharing that keyword offers both questions in order |
| Scenarios.HelpQuestionUnreachable | script.js:121-124 | an entry whose question is "Help?" cannot be reached by asking it |
| Scenarios.CategoryHidesOtherEntries | script.js:127-129 | with a category set, an entry of another category is not found even by its exact question |

## Left out

- Page work is not modelled. This covers element lookup, `innerHTML`, `appendChild`, scrolling, class lists and event listeners (script.js:1-6, 14-18, 58-72, 91-102, 185-191). It includes emptying `chatBox` on "clear chat" and the notice `addSystemMessage` shows after a failed load.
- The `fetch` of the questions file and the JSON parsing are not modelled (script.js:23-24). `Chat.Session.LoadQuestions` receives their outcome as a parameter.
- Timing is not modelled. This covers the 500 ms welcome delay, the 300 ms reply delay, and the race between the load and the welcome message. The reply is computed right after the user's message is posted, so nothing can happen in between.
- The link rewriting in `addMessage` is not modelled (script.js:95-98). It changes only what is displayed; the transcript stores the original text.
- Timestamps (`new Date().toISOString()`) are opaque parameters.
- `updateDocumentation` is modelled only for its transcript effect (`Chat.Session.UpdateDocumentation`). Left out: reading and clearing the text area, the `console.log` of the note, and the `catch` branch with its error message, since nothing in the modelled `try` block can throw.
- Strings.Lower: lower-cases only the ASCII letters A-Z. JavaScript's `toLowerCase` also lower-cases other scripts, with length changes in a few cases. Every property is stated relative to `Lower`, and Burmese text is unchanged by both.
- JavaScript's dynamic typing is not modelled. The model does not cover records lacking `keywords`, non-string questions, or a `question` property in the API payload that is not a string. Entries always have the fields of `KnowledgeBase.Entry`. The API payload's `question` is either a string or missing.
