# Subsidy LINE bot: a Dafny model of its request pipeline

The system answers questions about public subsidies on LINE, the messaging service.
It is made of four small services:

- **line-mastra-client** receives the LINE webhook.
  - It has an LLM score a message's relevance to subsidies from 1 to 5 and drops messages scoring below 3.
  - It asks an inquiry agent for an answer, waiting while the agent's task is `working`.
  - It forwards the answer unless the answer contains one of the not-found phrases. Delivery uses a reply, falling back to a push.
  - Beside that flow it has these pieces:
    - extracting subsidy ids from an agent's text;
    - a Flex selection message whose buttons carry `action=select&subsidyId=…` postbacks;
    - a postback handler that commits a selection;
    - a Firestore store of user sessions, with a time limit measured from the session's start;
    - a cosine-similarity vector search over stored embeddings.
- **check-subsidy-agent** holds the subsidy repositories (CSV-backed and a mock JSON one), the search use case and the two-step inquiry workflow.
- **subsidy-details-confirmation-agent** looks subsidy details up by id and writes detail, eligibility and application messages.
- **line-bot-app-enable-ai-talking** is a keyword bot that keeps a per-user `waiting`/`chatting` status.

The model has one Dafny module per core source file, plus three shared modules:

- `Wrappers` holds `Option` and `Result`.
- `JsString` holds the JavaScript string operations the sources rely on: `trim`, `toLowerCase`, `includes`, `parseInt`, `split(/\s+/)`, `join` and decimal rendering.
- `FormUrlEncoded` models `URLSearchParams` parsing and serialisation.

How state is modelled:

- Code that changes state in place is imperative Dafny. This covers the Firestore session store, the keyword bot's user table, loops that build strings or lists, polling and vector search.
- Each such method is proved equal to a specification function, and the properties are proved as lemmas about that function.
- Every external call is an input of the model. This covers Firestore, the LINE client, the agents, the LLM and the repositories. Each input is either the value the call resolved with or the failure it threw, so every error path of the source is modelled.

## Model

| member | source | states |
|---|---|---|
| FirestoreService.InactiveNeverWithin | line-mastra-client/src/utils/firestoreService.ts:94-96 | a missing session, or one whose `isActive` is false, is never within the time limit |
| FirestoreService.WindowIgnoresLastActivity | line-mastra-client/src/utils/firestoreService.ts:98-102 | the window is measured from `startedAt`; changing `lastActivityAt` never changes the answer |
| FirestoreService.WithinTimeLimitInMilliseconds | line-mastra-client/src/utils/firestoreService.ts:98-102 | a session is within a limit of n seconds exactly when it is active and `now - startedAt <= 1000 * n` milliseconds |
| FirestoreService.DefaultWindowBoundary | line-mastra-client/src/utils/firestoreService.ts:91-102 | with the default limit of 30 seconds, an active session is inside at 30 000 ms after `startedAt` and outside at 30 001 ms |
| FirestoreService.UserSessionStore.SaveUserSession | line-mastra-client/src/utils/firestoreService.ts:31-62 | on success the user's document becomes a fresh active session: `startedAt = lastActivityAt = now`, the dummy subsidy, an empty offered list; on a write failure the store is unchanged and the error is rethrown |
| FirestoreService.UserSessionStore.GetUserSession | line-mastra-client/src/utils/firestoreService.ts:64-89 | returns the stored session exactly when the document exists and the read succeeds; a missing document or a failed read gives null |
| FirestoreService.UserSessionStore.IsActiveSessionWithinTimeLimit | line-mastra-client/src/utils/firestoreService.ts:91-107 | true exactly when the read succeeds, the session exists and is active, and `(now - startedAt) / 1000 <= limit` |
| FirestoreService.UserSessionStore.Update | line-mastra-client/src/utils/firestoreService.ts:109-119 | a field update fails on a store fault or on a missing document (Firestore `update` needs one) and then changes nothing; otherwise it replaces that user's session only |
| FirestoreService.UserSessionStore.UpdateLastActivityAt | line-mastra-client/src/utils/firestoreService.ts:109-119 | an existing document gets `lastActivityAt = now` and nothing else changes; a missing document or a failed write leaves the store unchanged and reports the error |
| FirestoreService.UserSessionStore.SaveSubsidyList | line-mastra-client/src/utils/firestoreService.ts:121-132 | an existing document gets the offered list and `lastActivityAt = now`; every other field and every other user is unchanged; failures change nothing |
| FirestoreService.UserSessionStore.UpdateSubsidyMode | line-mastra-client/src/utils/firestoreService.ts:134-145 | an existing document gets the new `isActive` and `lastActivityAt = now`; everything else is unchanged; failures change nothing |
| FirestoreService.UserSessionStore.SaveSelectedSubsidy | line-mastra-client/src/utils/firestoreService.ts:147-158 | an existing document gets the selected id and name and `lastActivityAt = now`; everything else is unchanged; failures change nothing |
| FormUrlEncoded.IndexOf | line-mastra-client/src/utils/postbackHandler.ts:55 | the position found is the first occurrence of the character at or after the start, or the end of the text |
| FormUrlEncoded.DecodePlain | line-mastra-client/src/utils/postbackHandler.ts:55 | decoding text without `%` or `+` returns it unchanged |
| FormUrlEncoded.ParsePlainField | line-mastra-client/src/utils/postbackHandler.ts:55 | one plain `name=value` field parses back to that pair |
| FormUrlEncoded.ParseSerializedParts | line-mastra-client/src/utils/postbackHandler.ts:55 | splitting the `&`-joined serialisation of plain pairs and parsing each part gives back exactly those pairs, in order |
| FormUrlEncoded.ParseSerialized | line-mastra-client/src/utils/postbackHandler.ts:55 | `URLSearchParams` parsing inverts the serialisation of plain pairs |
| FormUrlEncoded.Get | line-mastra-client/src/utils/postbackHandler.ts:57-58 | `get` returns the value of the first pair with that name, and null exactly when no pair has it |
| PostbackHandler.ParseSelectData | line-mastra-client/src/utils/postbackHandler.ts:54-60 | the button data `action=select&subsidyId=<id>` parses to the action `select` and the same id, for every id without `&`, `+` or `%` |
| PostbackHandler.SelectDataSerializes | line-mastra-client/src/utils/lineMessageBuilder.ts:95 | the select data string is the form-urlencoded serialisation of its two plain pairs |
| PostbackHandler.ParseCancelData | line-mastra-client/src/utils/postbackHandler.ts:54-60 | `action=cancel` parses to the action `cancel` and no subsidy id |
| PostbackHandler.HandlerFor | line-mastra-client/src/utils/postbackHandler.ts:67-75 | a handler runs exactly for the actions `cancel` and `select` (the corrected guard, see Findings) |
| PostbackHandler.InheritedNamePassesGuard | line-mastra-client/src/utils/postbackHandler.ts:67 | `action=toString` passes the guard as written although `actionHandlers` has no such handler; the corrected guard rejects it |
| PostbackHandler.CorrectedGuardOwnKeysOnly | line-mastra-client/src/utils/postbackHandler.ts:67-75 | the corrected guard admits exactly the two own keys, and everything it admits the guard as written admits too |
| PostbackHandler.FindById | line-mastra-client/src/utils/postbackHandler.ts:50 | `find`: none exactly when no offered entry has the id; otherwise the first entry with that id |
| PostbackHandler.FindSelectedSubsidy | line-mastra-client/src/utils/postbackHandler.ts:47-51 | the result is an entry of the session's offered list with the requested id, and one is found whenever the list holds that id; no session finds nothing |
| PostbackHandler.Decide | line-mastra-client/src/utils/postbackHandler.ts:62-76 | an unknown or missing action is invalid; `cancel` deactivates; `select` without an id is rejected; a commit is always a `select` of an entry from the session's offered list with the requested id |
| PostbackHandler.SelectionScopedToOffered | line-mastra-client/src/utils/postbackHandler.ts:19-34 | a select whose id is not in the offered list, or that finds no session, is rejected: with the missing-id message for an empty id and the not-found message otherwise |
| PostbackHandler.RepeatedSelectIsIdempotent | line-mastra-client/src/utils/postbackHandler.ts:36-42 | on the store a commit produced, the same select commits the same entry again, and saving it twice leaves the store as one save at the later time would: only `lastActivityAt` differs from the first save |
| PostbackHandler.HandlePostback | line-mastra-client/src/utils/postbackHandler.ts:62-84 | a rejection writes nothing; a cancel or a commit makes exactly the write of its handler and reports success; a failed write or a missing document gives the error result of the `catch` and leaves the store unchanged |
| LineMessageBuilder.BuildSubsidySelectionMessage | line-mastra-client/src/utils/lineMessageBuilder.ts:43-123 | returns the selection message whose layout the lemmas below state |
| LineMessageBuilder.SelectionMessageLayout | line-mastra-client/src/utils/lineMessageBuilder.ts:45-110 | one subsidy gives a confirm template whose two actions are its select data and the cancel data; otherwise a Flex bubble with the 3 header items, then a button numbered k+1 carrying the k-th subsidy's select data, then the cancel button |
| LineMessageBuilder.EmittedDataOfSelection | line-mastra-client/src/utils/lineMessageBuilder.ts:43-110 | the postback data the message can emit is exactly the cancel data plus the select data of each listed subsidy |
| LineMessageBuilder.FlexDataWithin | line-mastra-client/src/utils/lineMessageBuilder.ts:89-110 | every button of the Flex bubble selects a listed subsidy or cancels |
| LineMessageBuilder.FlexDataCovers | line-mastra-client/src/utils/lineMessageBuilder.ts:89-110 | the Flex bubble has a cancel button and a button for every listed subsidy |
| LineMessageBuilder.ButtonLabelsDistinct | line-mastra-client/src/utils/lineMessageBuilder.ts:94 | the labels of two different subsidy buttons differ, because their numbers differ |
| LineMessageBuilder.OfferedSelectionCommits | line-mastra-client/src/utils/lineMessageBuilder.ts:89-99 | when the session stores the listed subsidies as its offered list, tapping the button of any of them commits an offered entry with that id, and exactly that subsidy when the ids are distinct |
| LineMessageBuilder.SelectOfferedRef | line-mastra-client/src/utils/postbackHandler.ts:27-42 | the select data of the k-th offered entry commits an offered entry with that id, and the k-th entry itself when the offered ids are distinct |
| LineMessageBuilder.CancelChoiceDeactivates | line-mastra-client/src/utils/lineMessageBuilder.ts:101-110 | the cancel button's data deactivates the subsidy mode whatever the session |
| SubsidyIdExtractor.WellFormedIdIsPlain | line-mastra-client/dist/utils/subsidyIdExtractor.js:7 | an id of the shape `subsidy_` plus digits contains no `&`, `=`, `+` or `%`, so it survives the postback round trip |
| SubsidyIdExtractor.IdLength | line-mastra-client/dist/utils/subsidyIdExtractor.js:28 | the `subsidy_\d+` run at a position is non-empty exactly when `subsidy_<digit>` starts there; it then has more than 8 characters, lies within the text and is followed by a non-digit or the end |
| SubsidyIdExtractor.IdLengthGreedy | line-mastra-client/dist/utils/subsidyIdExtractor.js:28 | `subsidy_\d+` matches at a position with exactly one length, that of the whole digit run (the greedy `\d+`), and with none exactly when `IdLength` is 0 |
| SubsidyIdExtractor.IdLengthWellFormed | line-mastra-client/dist/utils/subsidyIdExtractor.js:28 | the text `IdLength` measures is a well-formed id |
| SubsidyIdExtractor.IdsDoNotOverlap | line-mastra-client/dist/utils/subsidyIdExtractor.js:28-29 | no id starts strictly inside a matched id |
| SubsidyIdExtractor.BracketedIdUnique | line-mastra-client/dist/utils/subsidyIdExtractor.js:7 | `（id）` or `【id】` is found at a position exactly when it is there, and the length found is the only one at which it matches |
| SubsidyIdExtractor.LazyName1Shortest | line-mastra-client/dist/utils/subsidyIdExtractor.js:7 | the lazy `(.+?)` of the first pattern, grown one character at a time, stops at the first end followed by `（id）` and fails only when no later end is |
| SubsidyIdExtractor.NameEnd1Shortest | line-mastra-client/dist/utils/subsidyIdExtractor.js:7 | the first pattern's name is the shortest single-line name followed by `（id）`, and there is none exactly when no name is |
| SubsidyIdExtractor.Match1Captures | line-mastra-client/dist/utils/subsidyIdExtractor.js:7-12 | the match captures the name `s[q..e]`, non-empty and single-line, and the well-formed id right after the `（` at `e`, spelled at `e + 1`; it ends after the `）` |
| SubsidyIdExtractor.Match1 | line-mastra-client/dist/utils/subsidyIdExtractor.js:7 | the match built from a name ending at `e` starts at the digit position and ends within the text |
| SubsidyIdExtractor.Gap1Range | line-mastra-client/dist/utils/subsidyIdExtractor.js:7 | the `\s*` after `\d+\.` can take exactly the prefixes of the white-space run there |
| SubsidyIdExtractor.LastNameStart1Last | line-mastra-client/dist/utils/subsidyIdExtractor.js:7 | backtracking the `\s*` settles on the last gap end that admits a name, and fails only when none does |
| SubsidyIdExtractor.Pattern1At | line-mastra-client/dist/utils/subsidyIdExtractor.js:7 | a match of the first pattern tried at a position starts there and ends within the text |
| SubsidyIdExtractor.Pattern1AtSpec | line-mastra-client/dist/utils/subsidyIdExtractor.js:7 | the first pattern matches at a position exactly when some gap after `\d+\.` admits a name; the match then takes the longest such gap, the shortest name after it and the id that follows that name |
| SubsidyIdExtractor.Pattern1AtValid | line-mastra-client/dist/utils/subsidyIdExtractor.js:7 | a match of the first pattern carries a well-formed id spelled in the text |
| SubsidyIdExtractor.Pattern1AtFormat | line-mastra-client/dist/utils/subsidyIdExtractor.js:6-12 | for text `number. name（id）` whose name does not start with white space and has no line terminator and no `（`, the first pattern matches at the number with exactly that id and that name, and the entry pushed is the id with the trimmed name |
| SubsidyIdExtractor.Exec1 | line-mastra-client/dist/utils/subsidyIdExtractor.js:9 | `exec` from `lastIndex` returns a match that starts at or after it and ends within the text |
| SubsidyIdExtractor.Exec1Valid | line-mastra-client/dist/utils/subsidyIdExtractor.js:9 | every `exec` result of the first pattern carries a well-formed id spelled in the text |
| SubsidyIdExtractor.Exec1Leftmost | line-mastra-client/dist/utils/subsidyIdExtractor.js:9 | `exec` returns the match at the leftmost matching position at or after `lastIndex`, and none only when no position matches |
| SubsidyIdExtractor.AllMatches1Successive | line-mastra-client/dist/utils/subsidyIdExtractor.js:9-14 | the `while (exec)` loop visits exactly the successive `exec` results: the first from 0, each next one from where the previous match ended, stopping at the first failure; every one is a valid match |
| SubsidyIdExtractor.LazyName2Shortest | line-mastra-client/dist/utils/subsidyIdExtractor.js:16 | the lazy `(.+?)` of the second pattern, grown one character at a time, stops at the first end followed by `\n` or the end of the text, and fails only when no later end is |
| SubsidyIdExtractor.NameEnd2Shortest | line-mastra-client/dist/utils/subsidyIdExtractor.js:16 | the second pattern's name is the shortest single-line name followed by `\n` or the end of the text, as `(?=\n|$)` demands, and there is none exactly when no name is |
| SubsidyIdExtractor.Match2Captures | line-mastra-client/dist/utils/subsidyIdExtractor.js:16-22 | the match captures the well-formed id between the `【】` at the start, spelled right after the `【`, and the name `s[q..e]`, non-empty and single-line; it ends where the name ends |
| SubsidyIdExtractor.Match2 | line-mastra-client/dist/utils/subsidyIdExtractor.js:16 | the match built from `【id】` at `p` and a name ending at `e` starts at `p` and ends where the name ends |
| SubsidyIdExtractor.Gap2Range | line-mastra-client/dist/utils/subsidyIdExtractor.js:16 | the `\s*` after `【id】` can take exactly the prefixes of the white-space run there |
| SubsidyIdExtractor.LastNameStart2Last | line-mastra-client/dist/utils/subsidyIdExtractor.js:16 | backtracking the `\s*` settles on the last gap end that admits a name, and fails only when none does |
| SubsidyIdExtractor.Pattern2At | line-mastra-client/dist/utils/subsidyIdExtractor.js:16 | a match of the second pattern tried at a position starts there and ends within the text |
| SubsidyIdExtractor.Pattern2AtSpec | line-mastra-client/dist/utils/subsidyIdExtractor.js:16 | the second pattern matches at a position exactly when `【id】` is there and some gap after it admits a name running to the end of its line; the match then takes the longest such gap and the shortest such name |
| SubsidyIdExtractor.Pattern2AtValid | line-mastra-client/dist/utils/subsidyIdExtractor.js:16 | a match of the second pattern carries a well-formed id spelled in the text |
| SubsidyIdExtractor.Pattern2AtFormat | line-mastra-client/dist/utils/subsidyIdExtractor.js:15-23 | for text `【id】name` whose name does not start with white space, has no line terminator and is followed by `\n` or the end of the text, the second pattern matches at the `【` with exactly that id and that name, and the entry pushed is the id with the trimmed name |
| SubsidyIdExtractor.Exec2 | line-mastra-client/dist/utils/subsidyIdExtractor.js:17 | `exec` of the second pattern returns a match at or after `lastIndex` that ends within the text |
| SubsidyIdExtractor.Exec2Valid | line-mastra-client/dist/utils/subsidyIdExtractor.js:17 | every `exec` result of the second pattern carries a well-formed id spelled in the text |
| SubsidyIdExtractor.Exec2Leftmost | line-mastra-client/dist/utils/subsidyIdExtractor.js:17 | that match is at the leftmost matching position, and none is returned only when no position matches |
| SubsidyIdExtractor.AllMatches2Successive | line-mastra-client/dist/utils/subsidyIdExtractor.js:17-25 | the second loop visits exactly the successive `exec` results from 0, each from where the previous match ended, stopping at the first failure; every one is a valid match |
| SubsidyIdExtractor.Exec3 | line-mastra-client/dist/utils/subsidyIdExtractor.js:28-29 | a position the id pattern reports lies at or after `lastIndex` and starts an id |
| SubsidyIdExtractor.Exec3First | line-mastra-client/dist/utils/subsidyIdExtractor.js:28-29 | the id pattern stops at the first position where an id matches, and finds nothing only when there is no such position |
| SubsidyIdExtractor.AllIds3 | line-mastra-client/dist/utils/subsidyIdExtractor.js:28-29 | `match` returns something only when the id pattern finds an id |
| SubsidyIdExtractor.AllIds3WellFormed | line-mastra-client/dist/utils/subsidyIdExtractor.js:28-29 | every string `match` returns is a well-formed id |
| SubsidyIdExtractor.AllIds3Occurrences | line-mastra-client/dist/utils/subsidyIdExtractor.js:28-29 | `match` returns, in text order, the id matched at every position where `subsidy_<digit>` starts, one per position |
| SubsidyIdExtractor.EntriesOf | line-mastra-client/dist/utils/subsidyIdExtractor.js:9-24 | one entry is pushed per match |
| SubsidyIdExtractor.EntriesOfAt | line-mastra-client/dist/utils/subsidyIdExtractor.js:9-24 | the k-th entry pushed is the id and the trimmed name of the k-th match |
| SubsidyIdExtractor.AddNew | line-mastra-client/dist/utils/subsidyIdExtractor.js:17-25 | the list built so far stays unchanged as a prefix |
| SubsidyIdExtractor.AddNewDistinct | line-mastra-client/dist/utils/subsidyIdExtractor.js:19-24 | each appended entry has an id not listed before it, and every found id is listed afterwards |
| SubsidyIdExtractor.AddNewFirstEntries | line-mastra-client/dist/utils/subsidyIdExtractor.js:17-25 | each appended entry is the first found entry with its id, that id was not in the list, and the appended entries come in the order of those first entries |
| SubsidyIdExtractor.AddNewFromFound | line-mastra-client/dist/utils/subsidyIdExtractor.js:17-25 | everything the second loop appends comes from the second-pattern matches |
| SubsidyIdExtractor.Dedup | line-mastra-client/dist/utils/subsidyIdExtractor.js:31 | `new Set` keeps exactly the ids found, each once, ordered by where each first occurs in the matches |
| SubsidyIdExtractor.Fallback | line-mastra-client/dist/utils/subsidyIdExtractor.js:32-37 | one entry per unique id, in order, named `補助金 <id>` |
| SubsidyIdExtractor.CollectPattern1 | line-mastra-client/dist/utils/subsidyIdExtractor.js:7-14 | the first loop produces the first-pattern entries |
| SubsidyIdExtractor.AddPattern2 | line-mastra-client/dist/utils/subsidyIdExtractor.js:16-25 | the second loop adds the second-pattern entries as the de-duplicating append specifies |
| SubsidyIdExtractor.UniqueIds | line-mastra-client/dist/utils/subsidyIdExtractor.js:31 | the loop computes the de-duplicated id list |
| SubsidyIdExtractor.FallbackList | line-mastra-client/dist/utils/subsidyIdExtractor.js:32-37 | the `forEach` loop builds the fallback entries |
| SubsidyIdExtractor.ExtractSubsidyInfo | line-mastra-client/dist/utils/subsidyIdExtractor.js:4-41 | the extraction runs the two patterns, and the id-only fallback only when they found nothing |
| SubsidyIdExtractor.MatchIdsWellFormed | line-mastra-client/dist/utils/subsidyIdExtractor.js:7-25 | every id a pattern captures is well formed |
| SubsidyIdExtractor.ExtractedIdsWellFormed | line-mastra-client/dist/utils/subsidyIdExtractor.js:4-41 | every extracted id has the shape `subsidy_` plus digits |
| SubsidyIdExtractor.Tiers12NeedIdStart | line-mastra-client/dist/utils/subsidyIdExtractor.js:7-25 | the two patterns produce entries only when the text contains an id |
| SubsidyIdExtractor.NoIdNoInfo | line-mastra-client/dist/utils/subsidyIdExtractor.js:4-41 | a text containing no `subsidy_\d` yields an empty list |
| SubsidyIdExtractor.Tier1Prefix | line-mastra-client/dist/utils/subsidyIdExtractor.js:7-25 | the first-pattern entries open the final list, unchanged and in order |
| SubsidyIdExtractor.Tier2OnlyNewIds | line-mastra-client/dist/utils/subsidyIdExtractor.js:17-25 | no entry after the first-pattern ones repeats an earlier id; every second-pattern id is in the result; and each entry after the first-pattern ones is the first second-pattern entry with its id, whose id no first-pattern entry has, in the order of those first entries |
| SubsidyIdExtractor.FallbackOfDistinctIds | line-mastra-client/dist/utils/subsidyIdExtractor.js:27-39 | the fallback entries have pairwise distinct ids, cover exactly the ids found, come in first-occurrence order, and are named after their ids |
| SubsidyIdExtractor.FallbackDistinct | line-mastra-client/dist/utils/subsidyIdExtractor.js:27-39 | when the two patterns find nothing, the result has pairwise distinct ids, covers exactly the ids in the text, lists them in the order they first occur, and names each after its id |
| SubsidyIdExtractor.ExtractSubsidyIds | line-mastra-client/dist/utils/subsidyIdExtractor.js:45-48 | the ids of the extracted entries, in the same order, each well formed |
| SubsidyIdExtractor.GetFirstSubsidyId | line-mastra-client/dist/utils/subsidyIdExtractor.js:52-55 | null exactly when nothing was extracted, otherwise the first extracted id |
| SubsidyIdExtractor.ParseSubsidyListResponse | line-mastra-client/dist/utils/subsidyIdExtractor.js:56-62 | the entries are the extracted ones and `hasMultiple` holds exactly when there are more than one |
| JsString.IncludesTransitive | line-mastra-client/src/utils/subsidyResultChecker.ts:20-22 | what occurs in a substring occurs in the whole text |
| JsString.TrimIsSlice | line-mastra-client/dist/utils/subsidyIdExtractor.js:12 | `trim` returns the slice of the text between a white-space prefix and a white-space suffix; that slice occurs in the text and neither starts nor ends with white space |
| JsString.TrimStartRemovesWhiteSpace | line-mastra-client/dist/utils/subsidyIdExtractor.js:12 | the start of `trim` removes a prefix made of white space only and keeps the rest |
| JsString.TrimEndRemovesWhiteSpace | line-mastra-client/dist/utils/subsidyIdExtractor.js:12 | the end of `trim` removes a suffix made of white space only and keeps the rest |
| JsString.Trim | line-mastra-client/dist/utils/subsidyIdExtractor.js:12 | the trimmed text is never longer than the text |
| JsString.ToLower | line-mastra-client/src/utils/subsidyResultChecker.ts:17 | lower-casing keeps the length and maps each character on its own |
| JsString.IncludesLowerUncased | line-mastra-client/src/utils/subsidyResultChecker.ts:20-22 | for a needle with no cased characters, `includes` on the lower-cased text finds it exactly when the original text contains it |
| JsString.NatToString | line-mastra-client/src/utils/lineMessageBuilder.ts:94 | the decimal rendering of a number is a non-empty digit string without a leading zero |
| JsString.NatToStringRoundTrip | check-subsidy-agent/src/mastra/usecase/create-subsidy-search-usecase.ts:13 | reading the decimal rendering back gives the number |
| JsString.NatToStringInjective | line-mastra-client/src/utils/lineMessageBuilder.ts:94 | different numbers render differently |
| JsString.ConcatEmpty | line-mastra-client/src/workflows/lineWebhookWorkflow.ts:59-64 | a concatenation of pieces is empty exactly when every piece is |
| JsString.JoinIncludesParts | check-subsidy-agent/src/mastra/usecase/create-subsidy-search-usecase.ts:13-16 | every joined part occurs in the joined string |
| JsString.SplitOnWhiteSpace | check-subsidy-agent/src/mastra/infrastructure/csv/subsidyRepositoryImplOnCsv.ts:81 | `split(/\s+/)` returns at least one piece |
| JsString.SplitOnWhiteSpaceSplits | check-subsidy-agent/src/mastra/infrastructure/csv/subsidyRepositoryImplOnCsv.ts:81 | no piece contains white space, non-empty white-space runs put back between the pieces rebuild the text, the first piece is the text before the first white space, and every inner piece is non-empty |
| JsString.SplitLeadingWhiteSpace | check-subsidy-agent/src/mastra/infrastructure/csv/subsidyRepositoryImplOnCsv.ts:81 | leading white space gives an empty piece |
| JsString.SplitTrailingWhiteSpace | check-subsidy-agent/src/mastra/infrastructure/csv/subsidyRepositoryImplOnCsv.ts:81 | trailing white space gives an empty piece |
| JsString.ParseIntNumeral | line-mastra-client/dist/utils/messageRelevanceChecker.js:41 | `parseInt` of white space, an optional sign and a decimal numeral followed by a non-digit is the signed value of the numeral |
| JsString.ParseIntWithoutDigits | line-mastra-client/dist/utils/messageRelevanceChecker.js:41 | `parseInt` of text whose first non-space character after an optional sign is not a digit is NaN |
| MessageRelevanceChecker.ScoreText | line-mastra-client/dist/utils/messageRelevanceChecker.js:40 | the trimmed reply, or `"1"` when the reply is missing or blank; never empty |
| MessageRelevanceChecker.ClampScore | line-mastra-client/dist/utils/messageRelevanceChecker.js:43 | a parsed number in 1..5 is kept; NaN and anything outside 1..5 become 1 |
| MessageRelevanceChecker.CheckMessageRelevance | line-mastra-client/dist/utils/messageRelevanceChecker.js:6-57 | the score is in 1..5, relevance holds exactly when it is at least 3, and a failed LLM call gives score 3, relevant |
| MessageRelevanceChecker.ScoreOfNumber | line-mastra-client/dist/utils/messageRelevanceChecker.js:41-47 | a parsed number v scores v when it is in 1..5 and 1 otherwise, and is relevant exactly when it is in 3..5 |
| MessageRelevanceChecker.BlankReplyIsIrrelevant | line-mastra-client/dist/utils/messageRelevanceChecker.js:40-47 | a missing or blank reply scores 1 and is irrelevant |
| MessageRelevanceChecker.NumericReplyParses | line-mastra-client/dist/utils/messageRelevanceChecker.js:40-41 | a reply that is a signed decimal numeral, padded with white space and followed by a non-digit, parses to its value |
| MessageRelevanceChecker.NumericReplyScore | line-mastra-client/dist/utils/messageRelevanceChecker.js:40-47 | such a reply is relevant exactly when it is unsigned or `+` and its number is 3, 4 or 5 |
| MessageRelevanceChecker.NonNumericReplyScore | line-mastra-client/dist/utils/messageRelevanceChecker.js:40-47 | a reply that does not start with a number scores 1 and is irrelevant |
| SubsidyResultChecker.SomeIncluded | line-mastra-client/src/utils/subsidyResultChecker.ts:20-22 | true exactly when the lower-cased form of some pattern occurs in the text |
| SubsidyResultChecker.CheckSubsidyFound | line-mastra-client/src/utils/subsidyResultChecker.ts:16-25 | found exactly when no lower-cased not-found phrase occurs in the lower-cased text |
| SubsidyResultChecker.PatternsUncased | line-mastra-client/src/utils/subsidyResultChecker.ts:3-14 | none of the ten phrases has a cased character |
| SubsidyResultChecker.ToLowerUncased | line-mastra-client/src/utils/subsidyResultChecker.ts:21 | lower-casing a text without cased characters leaves it unchanged |
| SubsidyResultChecker.FoundIsPlainSubstringTest | line-mastra-client/src/utils/subsidyResultChecker.ts:16-25 | the check equals a plain substring test of the phrases on the original text: lower-casing changes nothing |
| SubsidyResultChecker.EmptyTextIsFound | line-mastra-client/src/utils/subsidyResultChecker.ts:20-25 | the empty text counts as found |
| SubsidyResultChecker.NotFoundIsMonotone | line-mastra-client/src/utils/subsidyResultChecker.ts:20-25 | a text containing a not-found text is itself not found |
| SubsidyResultChecker.GaitouNashiAnywhere | line-mastra-client/src/utils/subsidyResultChecker.ts:8-22 | any text containing `該当なし` is not found |
| LineWebhookWorkflow.PollFrom | line-mastra-client/src/workflows/lineWebhookWorkflow.ts:50-56 | polling ends on a task that is not `working` unless a `getTask` fails; it makes one `getTask` per answer read and none when the agent task was already settled |
| LineWebhookWorkflow.PollStep | line-mastra-client/src/workflows/lineWebhookWorkflow.ts:50-56 | polling a `working` task reads one answer: a failed `getTask` ends it, a successful one continues from the new task |
| LineWebhookWorkflow.PollUntilSettled | line-mastra-client/src/workflows/lineWebhookWorkflow.ts:50-56 | the `while` loop returns the final task and the calls that polling specifies |
| LineWebhookWorkflow.TextOfAppend | line-mastra-client/src/workflows/lineWebhookWorkflow.ts:59-64 | the text of two part lists is the text of the first followed by that of the second |
| LineWebhookWorkflow.TextOfWithoutText | line-mastra-client/src/workflows/lineWebhookWorkflow.ts:59-64 | parts that are not text contribute nothing |
| LineWebhookWorkflow.CollectText | line-mastra-client/src/workflows/lineWebhookWorkflow.ts:59-64 | the loop computes the concatenated text of the parts |
| LineWebhookWorkflow.ResponseText | line-mastra-client/src/workflows/lineWebhookWorkflow.ts:59-68 | the response is never empty, and it is the collected text whenever that is not empty |
| LineWebhookWorkflow.Deliver | line-mastra-client/src/workflows/lineWebhookWorkflow.ts:78-100 | every LINE call carries the response text; with a client there are one or two calls, without one there are none |
| LineWebhookWorkflow.Notice | line-mastra-client/src/workflows/lineWebhookWorkflow.ts:108-121 | the error notice is a LINE call carrying the fixed error text |
| LineWebhookWorkflow.Failed | line-mastra-client/src/workflows/lineWebhookWorkflow.ts:104-131 | a failure reports the error and adds, after the calls already made, exactly one notice when there is a client and nothing otherwise |
| LineWebhookWorkflow.Answer | line-mastra-client/src/workflows/lineWebhookWorkflow.ts:66-102 | after polling, only LINE calls follow; in a success they all carry the returned message; in a failure with a client the last call is the notice; without a client nothing is sent |
| LineWebhookWorkflow.AfterSend | line-mastra-client/src/workflows/lineWebhookWorkflow.ts:46-102 | after the agent accepted the message, only `getTask` and LINE calls follow, with the same guarantees on success and failure |
| LineWebhookWorkflow.AfterCheck | line-mastra-client/src/workflows/lineWebhookWorkflow.ts:31-102 | for a relevant message the first two calls are the relevance check and the send to the agent; the same guarantees hold for the rest |
| LineWebhookWorkflow.Respond | line-mastra-client/src/workflows/lineWebhookWorkflow.ts:66-102 | the method makes the LINE calls and returns the result that the answer specification gives |
| LineWebhookWorkflow.HandleLineWebhook | line-mastra-client/src/workflows/lineWebhookWorkflow.ts:14-131 | the method's calls and result are those of the webhook specification |
| LineWebhookWorkflow.IrrelevantMessageSkipsEverything | line-mastra-client/src/workflows/lineWebhookWorkflow.ts:23-30 | an irrelevant message succeeds with the skip message after the relevance check alone |
| LineWebhookWorkflow.RelevanceCheckedFirst | line-mastra-client/src/workflows/lineWebhookWorkflow.ts:23-36 | the relevance check is always the first call, and the agent is asked exactly when the message is relevant |
| LineWebhookWorkflow.PollingEndsSettled | line-mastra-client/src/workflows/lineWebhookWorkflow.ts:50-56 | successful polling ends on a task that is not `working`; a settled task is not polled and a `working` one at least once |
| LineWebhookWorkflow.EmptyAnswerBecomesApology | line-mastra-client/src/workflows/lineWebhookWorkflow.ts:66-68 | a task without text is answered with the apology |
| LineWebhookWorkflow.NotFoundEndsAfterPolling | line-mastra-client/src/workflows/lineWebhookWorkflow.ts:70-75 | a not-found answer succeeds with the skip message, and the calls end with polling |
| LineWebhookWorkflow.NotFoundSendsNothing | line-mastra-client/src/workflows/lineWebhookWorkflow.ts:70-75 | a relevant message whose answer is not-found makes no LINE call |
| LineWebhookWorkflow.DeliveryOrder | line-mastra-client/src/workflows/lineWebhookWorkflow.ts:78-100 | with a token the reply comes first and a push follows exactly when the reply failed; without a token there is one push; without a client nothing; an error is reported only when the last call failed |
| LineWebhookWorkflow.DeliveredRunCarriesText | line-mastra-client/src/workflows/lineWebhookWorkflow.ts:78-102 | in every successful run, every LINE message sent carries the returned message |
| LineWebhookWorkflow.FailedRunSendsOneNotice | line-mastra-client/src/workflows/lineWebhookWorkflow.ts:104-125 | a failed run sends nothing without a client and otherwise ends with the notice, as a reply with a token and a push without one |
| VectorSearchService.CosineSums | line-mastra-client/src/utils/vectorSearchService.ts:22-38 | vectors of different lengths throw; otherwise the loop returns the dot product and the two squared norms |
| VectorSearchService.DotSymmetric | line-mastra-client/src/utils/vectorSearchService.ts:31-35 | the dot product does not depend on the order of its arguments |
| VectorSearchService.NormNonNegative | line-mastra-client/src/utils/vectorSearchService.ts:33-34 | a squared norm is never negative |
| VectorSearchService.Loaded | line-mastra-client/src/utils/vectorSearchService.ts:49-61 | loading never yields more entries than rows |
| VectorSearchService.LoadSubsidyData | line-mastra-client/src/utils/vectorSearchService.ts:41-71 | the `data` handler keeps, in order, exactly the rows whose embedding parses, each with its parsed vector |
| VectorSearchService.LoadedAppend | line-mastra-client/src/utils/vectorSearchService.ts:49-61 | loading a concatenation of rows is the concatenation of the loads |
| VectorSearchService.LoadedDropsUnparsed | line-mastra-client/src/utils/vectorSearchService.ts:59-61 | a row whose embedding fails to parse is skipped |
| VectorSearchService.LoadedKeepsParsed | line-mastra-client/src/utils/vectorSearchService.ts:52-58 | a row whose embedding parses is kept in place, with its id, name, summary and parsed vector |
| VectorSearchService.LoadedFromRows | line-mastra-client/src/utils/vectorSearchService.ts:52-58 | every loaded entry comes from some row, with that row's fields and parsed embedding |
| VectorSearchService.QueryEmbedding | line-mastra-client/src/utils/vectorSearchService.ts:87-94 | the query vector is the first embedding's values; no embeddings or missing values is an error |
| VectorSearchService.PerformVectorSearch | line-mastra-client/src/utils/vectorSearchService.ts:74-131 | each failure (the embedding call, the embedding values, reading the data) is passed on; otherwise the result is the best entry of the loaded data |
| VectorSearchService.BestIsMaximal | line-mastra-client/src/utils/vectorSearchService.ts:104-123 | the result's similarity is at least -1 and at least that of every entry of matching length |
| VectorSearchService.BestIsFirstMaximum | line-mastra-client/src/utils/vectorSearchService.ts:118-122 | the result is the empty sentinel, or the first entry of matching length whose similarity is the highest and above -1 |
| VectorSearchService.NothingBeatsSentinel | line-mastra-client/src/utils/vectorSearchService.ts:104-106 | when no similarity exceeds -1 the result is the empty sentinel |
| VectorSearchService.SkippedEntryIrrelevant | line-mastra-client/src/utils/vectorSearchService.ts:110-113 | an entry with a mismatched vector length never changes the result |
| KeywordBot.FirstMatch | line-bot-app-enable-ai-talking/index.js:109-119 | the first keyword, in database order, that occurs in the message, and null exactly when none does |
| KeywordBot.DetectSubsidyKeyOrder | line-bot-app-enable-ai-talking/index.js:22-47 | a message naming both `太陽光` and `医療費` (and not `生ゴミ処理機`) detects the solar entry, because it is listed first |
| KeywordBot.DetectedTextMentionsEntry | line-bot-app-enable-ai-talking/index.js:126-129 | the reply to a detected keyword names the subsidy, its amount, its condition and its note |
| KeywordBot.GenericTextQuotesMessage | line-bot-app-enable-ai-talking/index.js:131-132 | the generic reply quotes the user's message in `「」` |
| KeywordBot.EndKeywordIgnoresCase | line-bot-app-enable-ai-talking/index.js:219-222 | the end keywords have no cased characters, so lower-casing the text first changes nothing |
| KeywordBot.GetUserStateOf | line-bot-app-enable-ai-talking/index.js:71-93 | a known user is read unchanged; an unknown user is stored as a new `waiting` user first; a store failure changes nothing |
| KeywordBot.UpdateUserStateOf | line-bot-app-enable-ai-talking/index.js:95-106 | an existing user gets the new status and `lastActiveAt` and no one else changes; a store fault or a missing document fails and changes nothing |
| KeywordBot.UnhandledChangesNothing | line-bot-app-enable-ai-talking/index.js:164-176 | an event that is neither a postback nor a text message resolves to null and changes no user |
| KeywordBot.EndKeywordResets | line-bot-app-enable-ai-talking/index.js:222-229 | a text with an end keyword leaves the sender `waiting` and replies with the conversation-ended message, when the store and reply succeed |
| KeywordBot.TextKeepsStatus | line-bot-app-enable-ai-talking/index.js:231-258 | other texts change no known user; `waiting` is answered with the start menu and `chatting` with the keyword answer |
| KeywordBot.PostbackSetsStatus | line-bot-app-enable-ai-talking/index.js:191-211 | `action=start_chat` sets `chatting`, `action=end_chat` sets `waiting`, and any other data changes nothing |
| KeywordBot.PostbackNeverCreates | line-bot-app-enable-ai-talking/index.js:191-211 | a postback from an unknown user creates no user, and a start or end postback rejects, since the update of a missing document fails |
| KeywordBot.OtherUsersUntouched | line-bot-app-enable-ai-talking/index.js:164-259 | an event changes no user other than its sender |
| KeywordBot.UserStore.GetUserState | line-bot-app-enable-ai-talking/index.js:71-93 | the store and result after the call are those of the state-reading specification |
| KeywordBot.UserStore.UpdateUserState | line-bot-app-enable-ai-talking/index.js:95-106 | the store and outcome after the call are those of the update specification |
| KeywordBot.UserStore.HandlePostbackEvent | line-bot-app-enable-ai-talking/index.js:191-212 | the store and reply are those of the postback specification |
| KeywordBot.UserStore.HandleTextEvent | line-bot-app-enable-ai-talking/index.js:215-259 | the store and reply are those of the text specification |
| KeywordBot.UserStore.HandleEvent | line-bot-app-enable-ai-talking/index.js:164-188 | the store and result are those of the event specification |
| SubsidyRepository.Filter | check-subsidy-agent/src/mastra/infrastructure/json/subsidyRepositoryImplOnJson.ts:38 | `filter` keeps exactly the elements that pass, each as many times as it occurs, and drops every occurrence of the others |
| SubsidyRepository.FilterIsSubsequence | check-subsidy-agent/src/mastra/infrastructure/json/subsidyRepositoryImplOnJson.ts:38 | a filtered list is an ordered selection of the original |
| SubsidyRepository.FilterAll | check-subsidy-agent/src/mastra/infrastructure/csv/subsidyRepositoryImplOnCsv.ts:69 | filtering with a test every element passes keeps the whole list |
| SubsidyCsvRepository.MapCsvToSubsidyData | check-subsidy-agent/src/mastra/infrastructure/csv/subsidyRepositoryImplOnCsv.ts:45-60 | `subsidyName` is the `name` column, `subsidyDescription` the `summary` column, and every other field the `id` column, a missing column giving the empty string |
| SubsidyCsvRepository.FilterSubsidies | check-subsidy-agent/src/mastra/infrastructure/csv/subsidyRepositoryImplOnCsv.ts:63-95 | keeps exactly the rows, with all their occurrences, where the lower-cased query, or some piece of it split on white space, occurs in the name, description, target or business name |
| SubsidyCsvRepository.FilterKeepsOrder | check-subsidy-agent/src/mastra/infrastructure/csv/subsidyRepositoryImplOnCsv.ts:63-95 | the kept rows are an ordered selection of the input |
| SubsidyCsvRepository.SearchRefinesFindAll | check-subsidy-agent/src/mastra/infrastructure/csv/subsidyRepositoryImplOnCsv.ts:105-114 | `search` fails exactly when reading the data fails, and otherwise returns an ordered selection of `findAll` |
| SubsidyCsvRepository.EmptyPieceKeepsAll | check-subsidy-agent/src/mastra/infrastructure/csv/subsidyRepositoryImplOnCsv.ts:81-89 | when the split query has an empty piece, every row is kept |
| SubsidyCsvRepository.EmptyQueryKeepsAll | check-subsidy-agent/src/mastra/infrastructure/csv/subsidyRepositoryImplOnCsv.ts:67-93 | the empty query keeps every row |
| SubsidyCsvRepository.PaddedQueryKeepsAll | check-subsidy-agent/src/mastra/infrastructure/csv/subsidyRepositoryImplOnCsv.ts:81-89 | a query that starts or ends with white space keeps every row, because the split yields an empty piece |
| SubsidyCsvRepository.QueryInIdKeepsRow | check-subsidy-agent/src/mastra/infrastructure/csv/subsidyRepositoryImplOnCsv.ts:45-77 | a query that occurs in the `id` column keeps the row, because the target is that column |
| SubsidyJsonRepository.Search | check-subsidy-agent/src/mastra/infrastructure/json/subsidyRepositoryImplOnJson.ts:36-43 | returns the mock entry exactly when the lower-cased query occurs in its lower-cased name or description, and nothing otherwise |
| SubsidyJsonRepository.SearchWithinFindAll | check-subsidy-agent/src/mastra/infrastructure/json/subsidyRepositoryImplOnJson.ts:31-43 | `search` returns an ordered selection of `findAll` |
| SubsidyJsonRepository.EmptyQueryFindsEntry | check-subsidy-agent/src/mastra/infrastructure/json/subsidyRepositoryImplOnJson.ts:36-43 | the empty query finds the mock entry |
| SubsidyJsonRepository.PathIgnored | check-subsidy-agent/src/mastra/infrastructure/json/subsidyRepositoryImplOnJson.ts:7-9 | neither operation depends on the file path |
| SubsidySearchUsecase.LeadingTargets | check-subsidy-agent/src/mastra/usecase/create-subsidy-search-usecase.ts:13-16 | the targets of the first three entries, or of all entries when there are fewer |
| SubsidySearchUsecase.SearchSubsidies | check-subsidy-agent/src/mastra/usecase/create-subsidy-search-usecase.ts:8-40 | never rejects; `found` holds exactly when `count` is positive; `count` is the number of entries, or 0 on an error |
| SubsidySearchUsecase.FoundSummaryNamesTargets | check-subsidy-agent/src/mastra/usecase/create-subsidy-search-usecase.ts:12-23 | a non-empty result's summary contains its size and the target of each of the first three entries |
| SubsidySearchUsecase.NothingFoundTexts | check-subsidy-agent/src/mastra/usecase/create-subsidy-search-usecase.ts:24-38 | an empty result and an error both report nothing found, each with its own texts; an error's message carries the error's message |
| SubsidyInquiryWorkflow.SearchStep | check-subsidy-agent/src/mastra/workflows/subsidy-inquiry-workflow.ts:23-56 | succeeds exactly when there is input, the agent exists and the stream completes; then `found` is true, `results` empty and the message the streamed text |
| SubsidyInquiryWorkflow.SearchSubsidiesWithAgent | check-subsidy-agent/src/mastra/workflows/subsidy-inquiry-workflow.ts:23-56 | the streaming loop computes the search step |
| SubsidyInquiryWorkflow.FormatResponse | check-subsidy-agent/src/mastra/workflows/subsidy-inquiry-workflow.ts:68-94 | fails without input; otherwise passes `found` through, counts the results, and keeps the agent's message only when something was found and listed |
| SubsidyInquiryWorkflow.FormatKeepsListedMessage | check-subsidy-agent/src/mastra/workflows/subsidy-inquiry-workflow.ts:75-76 | a found result with listed entries keeps the agent's message |
| SubsidyInquiryWorkflow.WorkflowAlwaysNotFound | check-subsidy-agent/src/mastra/workflows/subsidy-inquiry-workflow.ts:97-109 | because the search step never lists results, every successful run answers with the not-found text, `found = true` and `count = 0` |
| SubsidyDetailsUsecase.GetSubsidyDetails | subsidy-details-confirmation-agent/src/mastra/usecase/getSubsidyDetailsUsecase.ts:14-37 | never rejects; found exactly when the repository returned details; it reports either the details or an error, never both |
| SubsidyDetailsUsecase.NotFoundNamesId | subsidy-details-confirmation-agent/src/mastra/usecase/getSubsidyDetailsUsecase.ts:19-24 | an unknown id is named, in quotes, in the error |
| SubsidyDetailsUsecase.FailureKeepsMessage | subsidy-details-confirmation-agent/src/mastra/usecase/getSubsidyDetailsUsecase.ts:31-36 | a failed lookup reports the fixed prefix followed by the thrown error's text |
| SubsidyDetailsUsecase.ErrorsDistinguishable | subsidy-details-confirmation-agent/src/mastra/usecase/getSubsidyDetailsUsecase.ts:19-36 | the not-found error never starts with the failure prefix |
| GenerateMessageUsecase.CheckEligibility | subsidy-details-confirmation-agent/src/mastra/usecase/generateMessageUsecase.ts:59-80 | ineligible exactly when a given company size is not among the target sizes, or a given industry matches no target industry by substring in either direction |
| GenerateMessageUsecase.AbsentDataNeverRejects | subsidy-details-confirmation-agent/src/mastra/usecase/generateMessageUsecase.ts:63-79 | without company size and industry, or without size and industry requirements, the user is eligible |
| GenerateMessageUsecase.ListedIndustryMatches | subsidy-details-confirmation-agent/src/mastra/usecase/generateMessageUsecase.ts:70-77 | an industry listed among the target industries never rejects |
| GenerateMessageUsecase.GenerateRecommendations | subsidy-details-confirmation-agent/src/mastra/usecase/generateMessageUsecase.ts:83-109 | the method returns the recommendations of the specification |
| GenerateMessageUsecase.RecommendationsShape | subsidy-details-confirmation-agent/src/mastra/usecase/generateMessageUsecase.ts:90-106 | eligible: 2 to 4 lines, opening and closing with the fixed lines, the IT line exactly when an expense mentions IT or デジタル, the training line exactly when one mentions 人材 or 研修, in that order; ineligible: the two fixed advice lines |
| GenerateMessageUsecase.AppendNumbered | subsidy-details-confirmation-agent/src/mastra/usecase/generateMessageUsecase.ts:127-129 | the `forEach` appends the numbered list of the items |
| GenerateMessageUsecase.AppendBullets | subsidy-details-confirmation-agent/src/mastra/usecase/generateMessageUsecase.ts:133-135 | the `forEach` appends one bullet line per item |
| GenerateMessageUsecase.NumberedListLine | subsidy-details-confirmation-agent/src/mastra/usecase/generateMessageUsecase.ts:127-129 | item k is listed on the line `k+1. item`, appended after the lines of the items before it |
| GenerateMessageUsecase.NumberedListPrefix | subsidy-details-confirmation-agent/src/mastra/usecase/generateMessageUsecase.ts:127-129 | the list of the first items is a prefix of the list of all items |
| GenerateMessageUsecase.NumberedListEndsWithNewline | subsidy-details-confirmation-agent/src/mastra/usecase/generateMessageUsecase.ts:127-129 | a non-empty numbered list ends with a newline |
| GenerateMessageUsecase.AppendRecommendations | subsidy-details-confirmation-agent/src/mastra/usecase/generateMessageUsecase.ts:131-136 | appends the bullet section only when there are recommendations |
| GenerateMessageUsecase.GenerateDetailMessage | subsidy-details-confirmation-agent/src/mastra/usecase/generateMessageUsecase.ts:112-145 | builds the detail text of the specification: head, numbered expenses, recommendations, tail |
| GenerateMessageUsecase.GenerateEligibilityMessage | subsidy-details-confirmation-agent/src/mastra/usecase/generateMessageUsecase.ts:148-182 | builds the eligibility text of the specification |
| GenerateMessageUsecase.EligibilityMessageConsultsIffIneligible | subsidy-details-confirmation-agent/src/mastra/usecase/generateMessageUsecase.ts:177-179 | the eligibility text ends with the consultation advice exactly when the user is ineligible |
| GenerateMessageUsecase.GenerateApplicationMessage | subsidy-details-confirmation-agent/src/mastra/usecase/generateMessageUsecase.ts:185-201 | builds the application text of the specification |
| GenerateMessageUsecase.MessagesNumberTheirLists | subsidy-details-confirmation-agent/src/mastra/usecase/generateMessageUsecase.ts:127-193 | the detail message lists expense k as `k+1. expense` and the application message lists document k as `k+1. document` |
| GenerateMessageUsecase.GenerateMessageUsecase | subsidy-details-confirmation-agent/src/mastra/usecase/generateMessageUsecase.ts:8-56 | the method returns the message of the request type (the detail message by default) with the eligibility and recommendations, or the fixed error answer |
| GenerateMessageUsecase.RequestTypeOnlyChangesMessage | subsidy-details-confirmation-agent/src/mastra/usecase/generateMessageUsecase.ts:16-45 | the request type changes only the message text, never the eligibility or the recommendations |
| GenerateMessageUsecase.ErrorAnswerShape | subsidy-details-confirmation-agent/src/mastra/usecase/generateMessageUsecase.ts:47-54 | the error answer is the fixed message, ineligible, with no recommendations; a normal answer always has at least two recommendations |

## Left out

- `JsString.ToLower`: maps only ASCII `A`-`Z` and fullwidth `Ａ`-`Ｚ`; other Unicode case mappings of `toLowerCase` are not modelled. The not-found phrases and the end keywords contain no cased characters, so the checks against them are unaffected. The CSV filter and the JSON search lower-case both the query and the record fields, which are arbitrary text, so there the model differs from the source for non-ASCII cased letters (a query `é` does not match a name `É` in the model) and for mappings that change the length, such as `İ`.
- `FormUrlEncoded.Decode`: percent-escapes are decoded only below `0x80`. Higher escapes are kept verbatim, because UTF-8 multi-byte decoding is not modelled. Ids that reach a postback have the shape `subsidy_` plus digits and never contain `%`.
- Firestore, the LINE client, the inquiry agent, the embedding service and the LLM are inputs: each is the value a call resolved with or the failure it threw. Network behaviour, retries and authentication are not modelled.
- `VectorSearchService.CosineSums`: computes the dot product and the squared norms over reals. The square root and the division that make the cosine are floating point and are left out. The similarity of two vectors is an uninterpreted function, and the lemmas about the search hold for any such function.
- `VectorSearchService.Loaded`: `JSON.parse` of a stored embedding is a parameter that either yields a vector or fails.
- `LineWebhookWorkflow.PollUntilSettled`: requires the sequence of `getTask` answers to settle. The source loops forever when the agent task stays `working`, and the one-second `setTimeout` between polls is not modelled.
- `crypto.randomUUID()` for the message id is not modelled; the id is never read back.
- The agent's stream in the inquiry workflow is a list of chunks or one error; partial streams that fail midway collapse to that error.
- `handleEvent` in the keyword bot returns the handlers' promises without awaiting them, so a store or reply failure rejects the returned promise and its `catch` never runs. The model follows that: a failure is a `Rejected` result, and the error reply of the `catch` is not modelled.
- `new Date()` and `serverTimestamp()` are one explicit `now` parameter per operation; Firestore `Timestamp.toDate` conversion is not modelled.
- Concurrency: `Promise.all` and concurrent webhook deliveries are not modelled; each request runs alone.
- File I/O: `readCSVData`, `resolveCSVPath` and the CSV stream parser are not modelled; the repository works on rows already read into column maps.
- The `catch` of the message-generation use case is reached when the details are absent; which exception was thrown is not kept.
- The repositories that the use cases call are inputs, the outcome of `search` or `findById`.
- Firestore `set` with merge is modelled for the fields the source writes; other merge semantics are not modelled.
- Console logging is not modelled.
- `GenerateMessageUsecase.ContactText`: the contact message is a fixed template and has no lemma of its own; it is reached through `GenerateMessageUsecase.GenerateMessageUsecase`.
- The compiled copies `line-mastra-client/dist/utils/firestoreService.js` and `lineMessageBuilder.js` are not modelled separately; the model follows their TypeScript sources.
- The session record keeps only `isActive`, `startedAt`, `lastActivityAt`, the selected subsidy's id and name, and the offered list `selectedFrom`. The `conversation` and `hearingProgress` fields are not modelled, because no modelled code reads them.
- The LLM prompts, the agents' instructions and the Flex message styling (colours, sizes, margins) are not modelled.

## Findings

| source | as written | input that shows it | evidently intended | confidence | as-written member | corrected member |
|---|---|---|---|---|---|---|
| line-mastra-client/src/utils/postbackHandler.ts:67 | the guard `action in actionHandlers` is also true for names inherited from `Object.prototype`, so the handler then calls a built-in method instead of a handler | `action=toString` | only the table's own keys `cancel` and `select` reach a handler; every other action gets the invalid-action result | not executed | PostbackHandler.InheritedNamePassesGuard | PostbackHandler.CorrectedGuardOwnKeysOnly |
