# Verified models of the Affinity, Anthropic, Airtable and Attio modules

A Dafny project that models the parts of four integration modules where a
mistake would be silent, and proves what they are meant to keep. `dafny verify
dfyconfig.toml` checks it whole.

Code that changes state is modelled as classes, methods and loops proved against
specification functions; the laws are lemmas about those functions. Whatever is
on the far side of a wire (Affinity, the Messages API, Airtable, Attio) is an
arbitrary function or an arbitrary sequence of answers, or a state that answers
by its own rules where the law is about agreeing with it.

| files | what they model |
|---|---|
| `affinity_memo.dfy`, `affinity_client.dfy`, `affinity_writes.dfy` | the Affinity client's per-run read memo and the index of which answers carry which record; a workspace that answers every read; the memo's coherence over every run; what each write leaves to be read |
| `paged_search.dfy`, `match_shortcut.dfy`, `match_decisions.dfy`, `pushdown.dfy` | the page-of-50 shortcut, the page walk, the identity rules that read through them and what each decision means, and the one WHERE conjunct pushed down as a search term |
| `schema_cache.dfy` | the TTL cache of flights in the air, over every interleaving |
| `worker_pool.dfy`, `client_tools.dfy` | the three workers that share a cursor, and the page reads and searches budgeted through them |
| `conversation.dfy`, `web_chat.dfy`, `web_chat_laws.dfy`, `web_chat_answers.dfy`, `tool_loop.dfy`, `tool_loop_laws.dfy`, `tool_loop_answers.dfy`, `chat_loop.dfy` | the three model loops: budgets, pairing of calls and results, what each call is told, why a run ends, the cache marker, truncation recovery, compaction, continuation and the one step down |
| `constraint_formula.dfy`, `formula_text.dfy` | uniqueness constraints expanded to branches, compiled to an Airtable formula, spelled and read back |
| `stable_json.dfy`, `stable_json_form.dfy`, `keyed_parts.dfy`, `cell_reading.dfy`, `cell_kinds.dfy`, `js_objects.dfy`, `row_naming.dfy`, `change_feed.dfy`, `arrivals.dfy`, `arrival_laws.dfy`, `feed_drain.dfy` | Airtable's change feed: the canonical JSON printer, reading a cell, a JavaScript object filled by assignment, rebuilding a row before and after an edit, a payload's arrivals, and draining the feed over deliveries that may fail |
| `quote_repair.dfy` | the scanner that escapes quotes a model left bare in its JSON |
| `upload_names.dfy`, `decimals.dfy` | the free-name search and the upload retries |
| `links.dfy`, `parent_links.dfy` | reference and employer links, made and unmade, and how a write accounts for its parents |
| `field_names.dfy` | the names a list's own fields are published under |
| `options.dfy`, `sequences.dfy`, `js_text.dfy` | an optional value; laws of sequences; JavaScript's white space |

## Where the code and what is said of it differ

The model follows the code. Each difference is proved, with its exact condition
where one is stated.

- The read memo is exact over runs that delete no whole record. A whole-record
  delete keeps it exact if and only if nothing remembered lists the record from
  the other side and none of its list entries is remembered
  (`DeleteStaysExactIff`, `DeleteLeavesACompanyStale`).
- The web chat leaves a declared call unanswered when a paused turn holds one, or
  when a tool turn repeats an id or leaves one blank, and only then
  (`WebChatLaws.RequestsArePairedIff`, `PausedCallGoesUnanswered`); the tool loop
  only when one turn gives two calls one id (`ToolLoopLaws.RequestsArePairedIff`).
- A formula reads back as sent if and only if no field name holds a closing brace
  (`ReadsBackIffBraceFree`, `BracedNameSpellsAsAnother`).
- Equal cells read equal, but for a lookup that does not say its records' order:
  that one is read in the order of its keys (`EqualCellsReadEqual`). However those
  are ordered it reads the same if and only if its records' values commute two by
  two (`KeyOrderedLookupReadsAlikeIff`).
- The rows of a change are filled as plain objects, which inherit names. A field
  that differs is listed in `Changed Fields` if and only if no unchanged field goes
  by its name and its name is not inherited (`DifferenceIsListedIff`); a row is
  rebuilt if and only if no cell of it goes by `__proto__` and no cell left out of
  it that stands for a value by an inherited name (`UpdateRebuildsBothRowsIff`,
  `InheritedNamesAreMissed`).
- Repairing quotes left bare gives the text meant if and only if none stands before
  what may follow a string (`BareQuotesAreEscapedIff`).
- Of an upload's names only the first retry is looked up: the later ones are free if
  and only if the numbers right after the lowest free one are (`RetriesAreFreeIff`,
  `ARetryMayBeListed`).
- Deleting a reference row drops every record it names, so another target survives
  an unlink if and only if a row that does not name the unlinked one holds it
  (`OtherTargetSurvivesIff`).
- A standalone link splits the two relationships as a linked write does only along
  the edges the employer association is published under; along any other edge a
  write joins and a link is refused (`LinkAndWriteSplitAlike`).
- A published field name identifies one field if and only if no field of the list
  that keeps its prefix has another's own name (`NamesOneFieldIff`).

## Model

| member | source | states |
|---|---|---|
| AffinityMemo.RememberedAnswersAreCurrent | modules/affinity/api_client.ts:466-583 | after every run of reads, creates, updates, membership and value writes, each remembered answer is what the workspace answers now, and the index is complete |
| AffinityMemo.StaleAnswersAreAboutTheDeleted | modules/affinity/api_client.ts:892-906 | with whole-record deletes in the run, an answer that mentions no deleted record is still current |
| AffinityMemo.DeleteStaysExactIff | modules/affinity/api_client.ts:892-906 | a whole-record delete keeps every answer current if and only if nothing remembered lists the record from the other side or is one of its entries |
| AffinityMemo.DeleteLeavesACompanyStale | modules/affinity/api_client.ts:900-906 | in any workspace with nothing deleted, whoever is employed where: a company read and one of its people deleted leave the remembered company listing them |
| AffinityMemo.StepKeepsGood | modules/affinity/api_client.ts:481-583 | every call, accepted or refused, keeps the index complete and the memo coherent |
| AffinityMemo.UpdatePersonSurvives | modules/affinity/api_client.ts:1029-1050 | what an update of a person leaves remembered is unchanged by it: answers on both sides of every company joined or left are forgotten |
| AffinityMemo.SameUnlessCarried | modules/affinity/api_client.ts:511-529 | an answer carrying neither the person moved nor a company joined does not show the move |
| AffinityMemo.CreatePersonSurvives | modules/affinity/api_client.ts:992-1027 | creating a person into a company makes wrong only people searches and answers that carry the company |
| AffinityMemo.OrganizationWriteSurvives | modules/affinity/api_client.ts:866-943 | an organization create or update makes wrong only its kind's searches and its own record |
| AffinityMemo.CreateEntrySurvives | modules/affinity/api_client.ts:1102-1134 | a new membership shows on the record it is for and nowhere else |
| AffinityMemo.DeleteEntrySurvives | modules/affinity/api_client.ts:908-919 | a deleted membership makes wrong only records, entries and values |
| AffinityMemo.ValueWriteSurvives | modules/affinity/api_client.ts:552-579 | a value row's write makes wrong only the value answers the row is part of |
| AffinityMemo.DeleteSurvives | modules/affinity/api_client.ts:892-906 | what a whole-record delete leaves remembered is unchanged, or mentions what was deleted |
| AffinityMemo.InlineEntriesAreCurrent | modules/affinity/api_client.ts:542-550 | each membership filed from a record read is the answer a read of that entry would get |
| AffinityMemo.UnnamedCarriesNone | modules/affinity/api_client.ts:499-529 | under a complete index, an answer the index does not name carries none of the records asked about |
| AffinityMemo.NotedKeepsIndexed | modules/affinity/api_client.ts:511-523 | filing an answer and noting what it carries keeps the index complete |
| AffinityWrites.NewPersonReads | modules/affinity/api_client.ts:992-1027 | a person created reads, by id, as what was sent: both names, the one address unless empty, the one company unless none or 0 |
| AffinityWrites.UpdatedPersonReads | modules/affinity/api_client.ts:1029-1050 | a person updated reads as before but for the names, addresses and companies sent |
| AffinityWrites.NewOrganizationReads | modules/affinity/api_client.ts:866-890 | a company created reads as its name and domain, in the workspace and not global, with nobody in it |
| AffinityWrites.UpdatedOrganizationReads | modules/affinity/api_client.ts:925-943 | a company updated reads as before but for its domain |
| AffinityWrites.NewEntryReads | modules/affinity/api_client.ts:1102-1134 | a membership created reads as what was sent, by its own key and on its record beside the others |
| AffinityWrites.WrittenRowReads | modules/affinity/api_client.ts:1365-1421 | a read of any scope's values after a value's write is as before but for that row |
| AffinityClients.AffinityClient.NoteAnswer | modules/affinity/api_client.ts:511-523 | the key is put under each record carried, the rest of the index unchanged |
| AffinityClients.AffinityClient.ForgetAnswersCarrying | modules/affinity/api_client.ts:525-529 | exactly the keys indexed under those records go |
| AffinityClients.AffinityClient.WithMembershipsFiled | modules/affinity/api_client.ts:542-550 | each inline membership is filed as its own answer |
| AffinityClients.AffinityClient.FileRecord | modules/affinity/api_client.ts:531-540 | the write's own response is filed and noted |
| AffinityClients.AffinityClient.ForgetSearches | modules/affinity/api_client.ts:581-583 | every search of one kind goes, and nothing else |
| AffinityClients.AffinityClient.ForgetFieldValuesOf | modules/affinity/api_client.ts:566-579 | the answers the row is part of go, or every value answer where its owner is unknown |
| AffinityClients.AffinityClient.MemoisedRead | packages/module-runtime/run_scope.ts:132-164 | serves the memo or asks and remembers; a coherent memo serves what would be answered now |
| AffinityClients.AffinityClient.GetRecord | modules/affinity/api_client.ts:851-864 | one read step; current where the memo is |
| AffinityClients.AffinityClient.SearchPage | modules/affinity/api_client.ts:778-794 | one read step; current where the memo is |
| AffinityClients.AffinityClient.GetListEntry | modules/affinity/api_client.ts:1136-1150 | one read step; current where the memo is |
| AffinityClients.AffinityClient.GetFieldValues | modules/affinity/api_client.ts:1321-1363 | one read step; current where the memo is |
| AffinityClients.AffinityClient.CreateOrganization | modules/affinity/api_client.ts:866-890 | forgets and files as the specification's step does, and answers the record created |
| AffinityClients.AffinityClient.UpdateOrganization | modules/affinity/api_client.ts:925-943 | the same of an update |
| AffinityClients.AffinityClient.CreatePerson | modules/affinity/api_client.ts:992-1027 | the same of a new person, with the company joined |
| AffinityClients.AffinityClient.UpdatePerson | modules/affinity/api_client.ts:1029-1050 | the same of an update of a person |
| AffinityClients.AffinityClient.CreateListEntry | modules/affinity/api_client.ts:1102-1134 | the same of a new list entry, confirmed from the memo |
| AffinityClients.AffinityClient.DeleteListEntry | modules/affinity/api_client.ts:908-919 | the same of a deleted entry |
| AffinityClients.AffinityClient.CreateFieldValue | modules/affinity/api_client.ts:1392-1421 | the same of a new value |
| AffinityClients.AffinityClient.UpdateFieldValue | modules/affinity/api_client.ts:1365-1380 | the same of a changed value |
| AffinityClients.AffinityClient.DeleteFieldValue | modules/affinity/api_client.ts:1382-1390 | the same of a deleted value |
| AffinityClients.AffinityClient.DeleteRecord | modules/affinity/api_client.ts:892-906 | the same of a whole record |
| PagedSearch.ShortcutIsInvisible | modules/affinity/api_client.ts:79-86 | the first rule picks what it would pick among the first 500, and where it picks none the caller holds those 500 |
| PagedSearch.Find | modules/affinity/common.ts:151-176 | the first record a rule picks, or none exactly when it picks none |
| PagedSearch.EveryPage | modules/affinity/api_client.ts:97-106 | following the token ends and loses nothing |
| PagedSearch.EveryMatch | modules/affinity/api_client.ts:88-95 | every record a term names, through the page of 50 or every page of 500 |
| MatchShortcut.OrganizationDecisionUnchanged | modules/affinity/common.ts:105-208 | with the shortcut the same company is chosen by the same rule, and the judge is shown the same candidates |
| MatchShortcut.PersonDecisionUnchanged | modules/affinity/operations.ts:131-226 | the same of people |
| MatchShortcut.FiftyAloneWouldDecideOtherwise | modules/affinity/api_client.ts:79-86 | by the page of 50 alone the matcher decides otherwise: the one company of a name past the first 50, adopted with the fall back, is not, nor is the judge shown it |
| MatchShortcut.NormalizeEmail | modules/affinity/common.ts:32-39 | an address is none exactly when absent or blank, else itself less case and padding; so two match exactly when both are there and spelled alike (`AddressesMatchIff`) |
| MatchDecisions.OrganizationDecisionMeans | modules/affinity/common.ts:105-208 | among the first 500 of each search: the first company whose domain has the wanted host or registered domain, or another of whose domains has the host; else the first workspace company of the name less case, the domain's hits first; else the judge's, asked exactly when the name has hits and shown them all |
| MatchDecisions.GlobalIsNeverAdoptedByName | modules/affinity/common.ts:164-175 | a global company is adopted by its domain or by the judge that was shown it, never by its name |
| MatchDecisions.PersonDecisionMeans | modules/affinity/operations.ts:131-226 | the first person whose first address is the one wanted, else any of whose addresses is; else the first of the full name less its affixes; else the judge's; without a name no judge is asked |
| Pushdown.PushdownIsSound | modules/affinity/adapter.ts:1180-1270 | for every WHERE, filtering the narrowed read by all of it gives the records that filtering the workspace gives |
| Pushdown.MatchesItsTerm | modules/affinity/adapter.ts:1180-1203 | a record that meets the WHERE holds the pushed text in a field the search reads |
| Pushdown.ConjunctsAllHold | packages/movement-lang/expression/filter.ts:75-90 | flattening nested ANDs keeps only conjuncts the WHERE implies |
| Pushdown.PushedIsAConjunct | modules/affinity/adapter.ts:1185-1201 | what is pushed is one of the conjuncts, on a field the search reads |
| Pushdown.TermFromWhere | modules/affinity/adapter.ts:1180-1203 | the walk finds the first pushable equality, or none |
| Pushdown.TermIsTheFirstPushable | modules/affinity/adapter.ts:1180-1203 | a text is pushed if and only if some conjunct is a text equality on a field the search reads, and it is the first such conjunct's |
| Pushdown.ListRoot | modules/affinity/api_client.ts:833-836 | every page of the narrowed search, the global dataset dropped |
| SchemaCache.StepKeepsSound | modules/affinity/api_client.ts:585-605 | what is held is a flight of its key that has not failed, dated when it left |
| SchemaCache.RunKeepsSound | modules/affinity/api_client.ts:585-605 | the same over every interleaving of asks, settlements, failures, time and invalidations |
| SchemaCache.AnswersAreRecentAndNotFailures | modules/affinity/api_client.ts:585-605 | an ask is handed a flight of its own key, not failed, requested less than five minutes ago |
| SchemaCache.FailureEvictsOnlyItself | modules/affinity/api_client.ts:597-602 | a failing flight takes out only its own slot, never a newer one |
| SchemaCache.AsksInsideTheWindowShare | modules/affinity/api_client.ts:585-605 | asks of a key inside the window share one flight and send nothing more |
| SchemaCache.FailedIsAskedAnew | modules/affinity/api_client.ts:585-605 | after its flight failed, the next ask of a key loads anew |
| SchemaCache.SchemaClient.CachedSchema | modules/affinity/api_client.ts:585-605 | the ask, on the fields in place |
| SchemaCache.SchemaClient.LoadFailed | modules/affinity/api_client.ts:597-602 | the failure handler, on the fields in place |
| WorkerPool.EveryInterleavingRunsEveryItemOnce | modules/anthropic/client.ts:1323-1345 | every interleaving ends, with one call an item in index order, at most three workers, and `results[i]` what item i's call came back with |
| WorkerPool.StepKeepsSound | modules/anthropic/client.ts:1323-1345 | a taken item is in one worker's hands or has its result, never both |
| WorkerPool.StepUsesOneMove | modules/anthropic/client.ts:1323-1345 | each move takes an item or ends a worker, so no interleaving runs on |
| WorkerPool.MapFewAtATime | modules/anthropic/client.ts:1323-1345 | `results[i]` is `fn(items[i])` for every i, each called once |
| ClientTools.PlanRequests | modules/anthropic/client.ts:1355-1366 | the first `remaining` requests that name something run, the rest are refused, settled by the order asked |
| ClientTools.AnswerRequests | modules/anthropic/client.ts:1347-1427 | each request gets one same-id result, what its handler said or why it did not run, whichever came back first; at most `remaining` run |
| ClientTools.Ran | modules/anthropic/client.ts:1347-1386 | as many run as are named, up to the budget |
| WebChat.AnthropicWebChat | modules/anthropic/client.ts:1482-1611 | the loop, turn by turn, is the specification's run, and it ends |
| WebChat.TakeTurn | modules/anthropic/client.ts:1482-1611 | one pass: finish, ceiling, resume or answer, in that order |
| WebChat.RunCalls | modules/anthropic/client.ts:1587-1611 | a turn's searches and page reads are answered in one user turn and charged to both budgets |
| WebChatAnswers.EachCallIsToldItsAnswer | modules/anthropic/client.ts:1587-1611 | in every chat, the message after a turn of our calls tells each search what the searcher says of its own query and each page read what the page reader says of its own address, each cut or worded as its kind, while its ceiling less all charged before lasts; after that the budget's code; and nothing else |
| WebChatAnswers.EachEndHasItsCause | modules/anthropic/client.ts:1482-1611 | every turn but the last goes on, and a chat ends by a whole answer, at its turn ceiling, at its resume ceiling or by a pause with no content; it reports all the provider billed and all our handlers ran |
| WebChatLaws.EveryChatKeepsItsBudgets | modules/anthropic/client.ts:1482-1611 | for every vendor: at most max(1, maxTurns) requests, maxResumes resumes, maxFetches own reads and maxSearches own searches |
| WebChatLaws.EveryChatIsToldInOrder | modules/anthropic/client.ts:1482-1611 | the text is every turn's in order, and each request is the one before with the response and its results added |
| WebChatLaws.RequestsArePairedIff | modules/anthropic/client.ts:1307-1320 | every request pairs each declared call with exactly one same-id result in the next message, if and only if each response followed up is one the loop can answer whole |
| WebChatLaws.PausedCallGoesUnanswered | modules/anthropic/client.ts:1307-1320 | a paused turn that calls the page reader is resumed with the call unanswered |
| WebChatLaws.ResultsMatchCalls | modules/anthropic/web_tools.ts:392-401 | a turn's results hold each call's id as often as it was called, less calls with a blank id |
| WebChatLaws.EachViewCarriesOneMarkerAtMost | modules/anthropic/client.ts:291-324 | the stored conversation holds no marker and each request's view at most one |
| Conversation.ViewMarksOnlyTheEnd | modules/anthropic/client.ts:291-324 | the view of an unmarked conversation says the same and carries one marker, on its last block, where that block can hold it, and otherwise none |
| Conversation.PairedGrows | modules/anthropic/client.ts:1609-1610 | a conversation grown by whole turns is paired exactly when both parts are |
| Conversation.AnswerTextIsEachText | modules/anthropic/web_tools.ts:345-352 | wherever it stands, a text block adds its text to the answer and no other block adds any |
| ToolLoop.AnthropicToolLoop | modules/anthropic/client.ts:485-720 | the loop, turn by turn, is the specification's run |
| ToolLoop.TakeTurn | modules/anthropic/client.ts:485-720 | one pass: budget, tools, continuation, recovery or return |
| ToolLoop.RunTools | modules/anthropic/client.ts:600-672 | the calls' results in order in one user turn, compacted where the run is large |
| ToolLoopAnswers.EachCallIsToldItsResult | modules/anthropic/client.ts:600-628 | after a tool turn that goes on, the next request ends with the turn and one message of exactly one result a call: the k-th call's id with what its own tool came to |
| ToolLoopAnswers.CutOffIsContinued | modules/anthropic/client.ts:674-716 | after an answer cut off, the next request adds its texts, a line each, and an ask to go on; or, where it has none, that nothing came and an ask for less |
| ToolLoopAnswers.LargeTurnsAreCompacted | modules/anthropic/client.ts:630-672 | a tool turn past 500 000 input tokens leaves no long result before the first place where four characters a token past 200 000 are recovered, and all after it as it was; a smaller one leaves everything |
| ToolLoopAnswers.FirstRequestSays | modules/anthropic/client.ts:467-474 | the first request is the history under its roles and the user's message unless empty |
| ToolLoopAnswers.EachEndHasItsCause | modules/anthropic/client.ts:485-720 | every turn but the last goes on, and a run ends by a call that hands off, an answer cut off before any text (the third in a row, by `RecoversTwiceInARow`), a whole answer (with exactly its texts, in order) or `maxTurns` |
| ToolLoop.Compact | modules/anthropic/client.ts:643-672 | old results replaced oldest first, until enough is recovered, the last message spared |
| ToolLoop.CompactionStop | modules/anthropic/client.ts:643-672 | the first boundary where enough is recovered, or the last message |
| ToolLoopLaws.ReturnsOnlyWholeTurns | modules/anthropic/client.ts:674-720 | what is returned is the text of a last turn that was not cut off |
| ToolLoopLaws.RecoversTwiceInARow | modules/anthropic/client.ts:681-716 | text-free truncations in a row are recovered from twice at most, and the third raises; requests keep to `maxTurns` |
| ToolLoopLaws.CompactionTrimsOldResults | modules/anthropic/client.ts:643-672 | compaction replaces only result text of user messages before the last |
| ToolLoopLaws.TrimmedOnce | modules/anthropic/client.ts:643-672 | no block is replaced twice |
| ToolLoopLaws.HistoryIsKeptButForResultText | modules/anthropic/client.ts:643-672 | between any two requests nothing is dropped or reordered and only result text changes |
| ToolLoopLaws.TrimmingKeepsPairing | modules/anthropic/client.ts:643-672 | trimming a conversation keeps its pairing |
| ToolLoopLaws.RequestsArePairedIff | modules/anthropic/client.ts:600-630 | a request pairs every call with one same-id result in the next message if and only if no turn before gave two calls one id |
| ToolLoopLaws.EachViewCarriesOneMarkerAtMost | modules/anthropic/client.ts:291-324 | stored messages never hold a marker, every request can be viewed, and its view carries at most one |
| ChatLoop.AnthropicChatDetailed | modules/anthropic/client.ts:917-1077 | for every vendor: 1 + continuations + (1 if stepped down) requests, each going on from the one before; all turns' text and summed usage; `truncated` exactly when the last turn hit the ceiling |
| ChatLoop.EffortBelow | modules/anthropic/client.ts:856-868 | one rung down, none at the bottom or where no depth was named |
| ChatLoop.NoEmptyAssistantTurn | modules/anthropic/client.ts:1015-1077 | no request of such a chain carries an empty assistant turn |
| ChatLoop.DepthFallsOnceByOneRung | modules/anthropic/client.ts:1015-1077 | depth falls once at most, by one rung, and stays fallen |
| FormulaText.TwoPassesAreOne | modules/airtable/record.ts:120-122 | escaping backslashes, then quotes, is the one-pass escape |
| FormulaText.ReadsBack | modules/airtable/record.ts:484-499 | a formula's text reads back as the formula, whatever follows it |
| FormulaText.ReadsBackIffBraceFree | modules/airtable/record.ts:484-499 | it reads back if and only if no field name holds a closing brace |
| FormulaText.BracedNameSpellsAsAnother | modules/airtable/record.ts:484-499 | a braced name spells as a different formula |
| ConstraintFormula.ExpansionKeepsMeaning | modules/airtable/record.ts:446-482 | some expanded branch is met exactly when every entry is met by one of its values |
| ConstraintFormula.ValuesAreAsserted | modules/airtable/record.ts:456-466 | a field is matched on each text it is asserted to be, alone or in a list, and on nothing empty or missing |
| ConstraintFormula.FormulaSelectsExactly | modules/airtable/record.ts:386-413 | the formula selects exactly the rows for which some branch has every field known and equal to a text the record asserts of it, alone or in a list |
| ConstraintFormula.SentTextSelectsExactly | modules/airtable/record.ts:386-413 | the text sent reads back as the formula built if and only if no field that formula names has a closing brace in its name, and then selects exactly the same rows |
| ConstraintFormula.BuildBranches | modules/airtable/record.ts:446-482 | the nested loops build the specification's branches |
| ConstraintFormula.Cross | modules/airtable/record.ts:468-475 | each partial branch followed by each value, in order |
| ConstraintFormula.BuildBranchFormula | modules/airtable/record.ts:484-499 | one branch's text, or none where it names an unknown field |
| ConstraintFormula.FilterByFormula | modules/airtable/record.ts:403-413 | the text sent, or none where nothing is asked |
| StableJsonText.SpellsAlikeIffEqual | modules/airtable/webhook.ts:182-191 | two JSON values spell the same if and only if they are equal up to key order at every depth |
| StableJsonForm.SpellsTheSortedValue | modules/airtable/webhook.ts:182-191 | the spelling is a JSON text (sections 2, 4, 5 and 7 of RFC 8259) without white space: that of the same value with the keys of every object in it in increasing order |
| StableJsonText.EqualSpellsAlike | modules/airtable/webhook.ts:182-191 | the sort makes the text the same whatever order keys were put in |
| StableJsonText.ValuesRead | modules/airtable/webhook.ts:182-191 | a text is read one way wherever it stands |
| StableJsonText.IncreasingIsUnique | modules/airtable/webhook.ts:185-187 | a set of entries has one order by key |
| StableJsonText.EscapeReadsBack | modules/airtable/webhook.ts:187-190 | a character's spelling in a string is one section 7 of RFC 8259 reads as that character |
| CellReading.EqualCellsReadEqual | modules/airtable/webhook.ts:103-133 | cells equal up to key order read equal, but for files and lookups in key order |
| CellReading.EqualScalars | modules/airtable/webhook.ts:157-179 | values equal up to key order read as one scalar |
| CellReading.ReadsAsPlainValues | modules/airtable/webhook.ts:103-133 | every cell but one that stays as sent reads as plain values or a list of them |
| CellKinds.NamedCellsRead | modules/airtable/webhook.ts:163-169 | a collaborator reads as its email, a select as its name, a barcode as its text, in that order |
| CellKinds.UnnamedCellsRead | modules/airtable/webhook.ts:170-178 | an AI text reads as its value or null, a button as its label, another object by its id or else as its JSON |
| CellKinds.ListsRead | modules/airtable/webhook.ts:120-142 | files as sent; each link as its id; any other list item by item |
| CellKinds.LookupsReadInLinkOrder | modules/airtable/webhook.ts:144-156 | a lookup that lists its records reads as their values, read one by one, in that order |
| CellReading.KeyOrderedLookupReadsAlikeIff | modules/airtable/webhook.ts:145-155 | of any number of records, each with a value or a list: a lookup that states no order reads alike under every reordering of keys, at any depth, if and only if every two records' values read the same in either order |
| CellReading.OneKeyOrderReadsEqual | modules/airtable/webhook.ts:145-155 | two such equal lookups with their records in one order read equal |
| KeyedParts.CommutingReadAlike | modules/airtable/webhook.ts:150-155 | lists that commute two by two flatten to one list in any order |
| RowNaming.NameCells | modules/airtable/webhook.ts:221-228 | the loop of assignments fills the specification's object: its members, its keys in order, its prototype |
| RowNaming.KeysAreTheOwnNames | modules/airtable/webhook.ts:221-228 | the object's keys are its members' names, each once |
| RowNaming.NamedHolds | modules/airtable/webhook.ts:221-228 | under an injective naming no cell is lost but one named `__proto__`, and none is made |
| ChangeFeed.WithEmptyCells | modules/airtable/types.ts:95-102 | the loop fills what the specification fills, passing over inherited names |
| ChangeFeed.FilledIsReadIff | modules/airtable/types.ts:80-102 | filling restores exactly the left-out cells that stand for a value, if and only if none of those goes by an inherited name and no cell by `__proto__` |
| ChangeFeed.LeftOutCellsRead | modules/airtable/types.ts:80-102 | in a row's reading a checkbox left out is false, each list kind `[]`, and a field of any other kind is not there |
| ChangeFeed.CellsReadByTheirFields | modules/airtable/webhook.ts:221-228 | in a row's reading each cell goes by its field's name and is read as of its kind, and an unknown field's by its id |
| ChangeFeed.UpdateRebuildsBothRowsIff | modules/airtable/webhook.ts:259-271 | `Previous` and `Current` are the rows before and after the edit, read by name with empty cells restored, each if and only if that row's names come through; `Changed Fields` repeats no name, and names exactly the fields that differ if and only if no difference goes by an inherited name |
| ChangeFeed.UpdateRebuildsBothRows | modules/airtable/webhook.ts:259-271 | so all three hold of every edit of a table where no field goes by an inherited name |
| ChangeFeed.DifferenceIsListedIff | modules/airtable/webhook.ts:268-270 | whatever the names, a field that differs, not named `__proto__`, is listed if and only if its name is not inherited and no kept field goes by it |
| ChangeFeed.ChangedIsExactIff | modules/airtable/webhook.ts:268-270 | under an injective naming the names listed are those of the differences if and only if no difference goes by an inherited name |
| ChangeFeed.ProtoIsNeverListed | modules/airtable/webhook.ts:221-228 | a field named `__proto__` is lost and never listed |
| ChangeFeed.InheritedNamesAreMissed | modules/airtable/webhook.ts:268-270 | the failing inputs: an edit of a field named `constructor` lists nothing, and an unchecked box named `valueOf` is not put back |
| ChangeFeed.CreationReadsTheRowIff | modules/airtable/webhook.ts:255-258 | a created row's `Current` is the row if and only if its names come through, and its changed fields are those it was given but for `__proto__` |
| ChangeFeed.ReadingIsUnique | modules/airtable/webhook.ts:231-231 | a row has one reading |
| Arrivals.ArrivalsFromPayload | modules/airtable/webhook.ts:213-287 | the pushes make the specification's arrivals, table by table |
| Arrivals.UpdateRows | modules/airtable/webhook.ts:259-271 | an update's rows as the code computes them |
| ArrivalLaws.EachArrivalTellsItsEvent | modules/airtable/webhook.ts:213-287 | at each place of a payload's arrivals: the kind, the table by id and by name or else id, the record and the rows of what the payload tells there, or a table's key and name |
| ArrivalLaws.EditedRowArrives | modules/airtable/webhook.ts:259-271 | an edited row's arrival has the row after as `Current` and the row before as `Previous`, each if and only if its names come through, and the differences as its changed fields, if and only if all show |
| ArrivalLaws.MadeRowArrives | modules/airtable/webhook.ts:255-258 | a created row's arrival has the row as `Current`, if and only if its names come through, no `Previous`, and the names it was given |
| ArrivalLaws.TransactionsTell | modules/airtable/webhook.ts:332-337 | payloads with transaction numbers are named alike exactly when the numbers are equal, and one without by its time |
| ArrivalLaws.OneArrivalPerTouch | modules/airtable/webhook.ts:205-212 | one arrival for each row and table a payload touched, in order, named alike each time it is pulled |
| ArrivalLaws.ChangesTablesIffOneArrives | modules/airtable/webhook.ts:306-312 | a payload changed the tables exactly when it makes an arrival on `Tables` |
| ArrivalLaws.IdentityTells | modules/airtable/webhook.ts:233-235 | identities are equal only for one transaction and one id, for ids without a colon |
| FeedDrain.Drain | modules/airtable/adapter.ts:713-729 | the payloads are exactly the feed's from checkpoint to cursor, in at most 1000 requests, stopped early only where Airtable said so |
| FeedDrain.EveryChangeIsKeptOnce | modules/airtable/adapter.ts:713-742 | over every run of deliveries that may fail, every arrival before the checkpoint is kept exactly once and nothing else is kept |
| FeedDrain.EachChangeHasItsOwnArrival | modules/airtable/webhook.ts:205-287 | with Airtable's ids disjoint, a feed drained to its end has each row and table change kept by its own arrival, once |
| FeedDrain.CheckpointOnlyGoesForward | modules/airtable/adapter.ts:719-729 | the cursor never goes back, and does not move where a delivery failed |
| FeedDrain.ChangesAreToldApart | modules/airtable/webhook.ts:332-337 | different changes have different marks |
| QuoteRepair.EscapeInteriorQuotes | modules/anthropic/parse_json.ts:12-45 | the scan computes the specification's text |
| QuoteRepair.ValidTextIsUnchanged | modules/anthropic/parse_json.ts:5-11 | every valid JSON text (sections 2 and 7 of RFC 8259) is left as it is |
| QuoteRepair.BareQuotesAreEscapedIff | modules/anthropic/parse_json.ts:5-11 | a text with quotes left bare in its strings is repaired to the text meant if and only if none of them stands before what may follow a string |
| QuoteRepair.RepairIsIdempotent | modules/anthropic/parse_json.ts:12-45 | a repaired text needs no repair, whatever it was |
| QuoteRepair.OnlyEscapesAreInserted | modules/anthropic/parse_json.ts:12-45 | only backslashes before quotes are inserted; without them the text is the one given |
| UploadNames.SuffixedNamesDiffer | modules/attio/api_client.ts:504-511 | different numbers give different names, none the original |
| UploadNames.SuffixKeepsExtension | modules/attio/api_client.ts:504-511 | the suffix goes before the last dot and keeps what follows it |
| UploadNames.ListAllFileNames | modules/attio/api_client.ts:1727-1745 | the non-empty names on every page up to the last |
| UploadNames.ListedIff | modules/attio/api_client.ts:1727-1745 | a name is listed exactly when it is not empty and on a page every page before which says another follows |
| UploadNames.FirstFree | modules/attio/api_client.ts:1817-1820 | the search ends within one more than the names listed, at the lowest free number |
| UploadNames.UploadFile | modules/attio/api_client.ts:1798-1827 | at most five names, no two alike: the file's own, the lowest free, and those right after; the outcome is the last reply's |
| UploadNames.RetriesAreFreeIff | modules/attio/api_client.ts:1798-1827 | for every listing and sequence of replies, the first retry is free of the names listed, and all are if and only if the numbers right after the lowest free one are |
| UploadNames.ARetryMayBeListed | modules/attio/api_client.ts:1815-1816 | each later retry is a listed name for some listing and replies |
| Decimals.SpellingReadsBack | modules/attio/api_client.ts:504-511 | a number's spelling reads back as the number |
| Links.EmployerLinkLaws | modules/affinity/employer_association.ts:36-66 | joining and leaving are idempotent, keep the others, send what then stands, and leaving a company just joined restores the list |
| Links.Workspace.AssertCustomReference | modules/affinity/shared.ts:858-889 | appends, replaces in place or does nothing, and says whether it wrote |
| Links.Workspace.SeverCustomReference | modules/affinity/shared.ts:899-915 | deletes exactly the rows naming the target, every other row as it was |
| Links.AssertAddsTheTarget | modules/affinity/shared.ts:858-889 | the target is pointed at, every row but a replaced one survives, and asserting again writes nothing |
| Links.ReplacesOnlyItsOwnRow | modules/affinity/shared.ts:874-880 | only a single-valued field's own row is ever replaced |
| Links.SeverDropsTheTarget | modules/affinity/shared.ts:899-915 | only rows naming the target go, and severing again drops nothing |
| Links.OtherTargetSurvivesIff | modules/affinity/shared.ts:899-915 | another target survives if and only if a row that does not name the unlinked one holds it; always with one id a row |
| Links.UnlinkUndoesLinkIff | modules/affinity/shared.ts:845-915 | unlinking what was just linked restores the rows if and only if the link replaced none |
| Links.LinkUndoesUnlink | modules/affinity/shared.ts:845-915 | linking again restores the targets |
| Links.NothingElseMoves | modules/affinity/shared.ts:845-915 | neither a link nor an unlink moves a target of any other field, record or entry |
| ParentLinks.ApplyCustomReferenceParentLinks | modules/affinity/shared.ts:917-943 | the loop is the specification's pass, rows and counts |
| ParentLinks.Directory.LinkParentPeople | modules/affinity/organization.ts:45-63 | the loop joins each person parent along no reference field, or fails where one cannot be read |
| ParentLinks.OrganizationUnsupportedIff | modules/affinity/shared.ts:953-969 | an organization's write is `unsupported` exactly when some parent is covered by neither pass |
| ParentLinks.OrganizationMadeIff | modules/affinity/shared.ts:953-969 | a covered write is `made` exactly when some parent's link was not there before it, and otherwise `already`; `none` exactly without parents |
| ParentLinks.OrganizationAgainMakesNothing | modules/affinity/organization.ts:108-132 | repeating its parent passes changes and sends nothing and makes no link |
| ParentLinks.PersonUnsupportedIff | modules/affinity/person.ts:121-138 | a person's write is `unsupported` exactly when a parent is covered by no reference and is not the first company along none |
| ParentLinks.PersonMadeIff | modules/affinity/shared.ts:953-969 | the same of a person's write, whose employer link is new for a new person or a company not theirs yet |
| ParentLinks.PersonWorksThere | modules/affinity/operations.ts:448-498 | a person written keeps its employers and has the one company it is to work for, unless its id is 0, and no other |
| ParentLinks.PersonAgainMakesNothing | modules/affinity/operations.ts:448-498 | repeating a person's write makes no link and sends none |
| ParentLinks.EmployerAt | modules/affinity/person.ts:41-55 | the first company parent along no reference field |
| ParentLinks.LinkAndWriteSplitAlike | modules/affinity/adapter.ts:1675-1741 | link and write take the reference in the same cases, and the association in the same cases along its published edges |
| ParentLinks.LinkRecords | modules/affinity/adapter.ts:1618-1630 | the relationship is there afterwards, `created` exactly when it was not, and nothing is sent where it was |
| ParentLinks.UnlinkRecords | modules/affinity/adapter.ts:1641-1653 | the relationship is gone afterwards, `removed` exactly when it was there, and nothing is sent where it was not |
| FieldNames.ListScopedFieldDisplayNames | modules/affinity/types.ts:270-296 | the two loops fill the specification's names |
| FieldNames.DisplayNameIsPublished | modules/affinity/types.ts:278-295 | a field is published by its bare name unless that is empty, claimed twice, or another field's own |
| FieldNames.PublishedByItsName | modules/affinity/types.ts:270-296 | a list's field named `[list] bare` is published as `bare`, or as it is where another of the list has its name or any field the bare one; one named otherwise as it is |
| FieldNames.NamesOneFieldIff | modules/affinity/types.ts:261-264 | a published name identifies one field if and only if no field that keeps its prefix has another's own name |
| FieldNames.DistinctNamesAreEnough | modules/affinity/types.ts:261-264 | so it does wherever the catalog's own names are distinct |

## Left out

- HTTP, retries, rate limits, abort signals, metering, logging and response validation.
- The spelling of memo keys as strings: a key is a value that names its question, and forgetting by prefix is forgetting by kind of key. Two credentials in one run, and use outside a run, where there is no memo.
- A read in flight across a write: steps are taken one at a time.
- Calls that name two records, an id of 0, or no scope at all in a field-value read.
- The order and repeats of `organization_ids` and `person_ids` in a remembered answer: they are sets there (`Links` keeps them as lists).
- Attributes of records other than names, addresses, domains and the global mark; notes, files, interactions, opportunities and reminders.
- What a merged or refused record makes the client throw, beyond that a refused call leaves the memo untouched.
- AffinityClients.AffinityClient.FileRecord: takes a write's response to be what a read of the record by its id answers, inline list entries included; the client's validator lets a response omit them, and then the answer filed is short of them until it is forgotten.
- The order of microtasks between a load's failure and its handler: failing and evicting are one event in `SchemaCache`.
- The matching judge, the name splitter and URL parsing: arbitrary functions.
- Conjuncts' comparisons other than a field with a text: an arbitrary meaning of each.
- `PushdownIsSound` takes Affinity's search to match by substring on the pushed fields; it may bring more, never less.
- The wording of what the loops tell the model; only the length of the text a trimmed result is replaced with is read by a law.
- Tool definitions, thinking configuration, streaming, progress events and token usage of the web chat and the tool loop; in the chat loop usage is summed.
- `ClientTools.AnswerRequests` gives one handler's answers as a function of what was asked; a handler that throws is a failure it returns.
- `ToolLoop.AnthropicToolLoop` runs over a finite list of responses of any length, since without `maxTurns` nothing bounds the source's loop.
- Text of truncated turns of the tool loop, which returns its last turn's only.
- `ToolLoopLaws.RequestsArePairedIff` takes the declared tools to name every tool the vendor calls, which the loop answers whatever they are named.
- Lists within a constraint's list of values, and values JavaScript spells as empty text.
- `resolveByConstraints` past the formula: the read, its failure, and candidates as they are handed on.
- Surrogate halves and the order of keys by UTF-16 code unit: text is a sequence of Unicode scalar values in their own order. A number is the spelling JavaScript gives it.
- A lookup whose values by record are themselves a list; Airtable sends an object.
- The order in which `Changed Fields` names a field whose name is a whole number, which JavaScript puts first; which names are listed is proved.
- Two fields of one table both named `__proto__`, and a lookup or a constraint keyed by an id every object inherits or by a whole number (Airtable's start with `rec` and `fld`).
- Cells sent as null for emptied ones: an edit's diff leaves empty cells out.
- The base and table a change's arrival carries with it, its time, and the refresh of held tables a table change asks for.
- `FeedDrain.EachChangeHasItsOwnArrival` takes Airtable's word that a transaction is a base's own, that a payload touches a row or table once, and that ids hold no colon.
- `jsonrepair`, code fences, prose trimming and the rest of `parseJson`.
- The bytes of an upload, and a listing that never ends.
- Which list an entry's edge resolves through: `ParentLinks.Catalog` is any function from holders and edges to fields.
- A person's address added in the same write as a link, and custom field values written beside it.
- `FieldNames.DisplayNameIsPublished` and the laws after it take a catalog's field ids to be distinct, as Affinity's are.
- Manifests, descriptors, handbook text, OAuth, record-type switches and display strings.
