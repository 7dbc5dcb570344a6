# Verified models of the patch, compaction, ACP and relay logic

Dafny models of the hand-written algorithms and state machines of this repository, with proofs of the laws they are
meant to obey.  `dafny verify dfyconfig.toml` checks everything.

Each algorithm has two forms.  A function (or a step of a state machine) says what is computed; the loop, or the object
that is updated in place, is a method proved to compute exactly that.  The laws are then lemmas about the function, so
they hold of the loop as well.  A law whose name ends in `Exactly` is an equivalence, or says the whole outcome.

| file | what it models |
|---|---|
| `JsText.dfy` | the JavaScript string operations used everywhere: trim, split, join, decimal numbers |
| `PatchParser.dfy`, `PatchGrammar.dfy`, `PatchRoundTrip.dfy`, `PatchLaws.dfy` | the patch parser, the grammar it accepts, a printer for hunks, and the laws that connect them |
| `PatchUpdate.dfy`, `PatchPlacement.dfy`, `PatchUpdateLaws.dfy` | locating an update's chunks, what is found where and what lines match, sorting and splicing the replacements |
| `TokenChunks.dfy`, `TranscriptRepair.dfy`, `RepairAccounts.dfy`, `RepairReference.dfy`, `HistoryPruning.dfy`, `TidyHistory.dfy`, `RepairTwice.dfy` | cutting a history by tokens, repairing tool results, accounting for them and a reference form of the repair, pruning to a budget, the reported count, repairing twice |
| `RoutingIds.dfy`, `AcpBindings.dfy`, `AcpBindingMatches.dfy`, `AcpBindingLaws.dfy` | id normalisation, the two binding searches, which binding they pick, and their agreement through the session key |
| `ProcessOutput.dfy` | the capped output buffers of processes and their registry |
| `AcpSession.dfy`, `AcpSessionStore.dfy` | the session store: its states, and the objects that hold them |
| `AcpAgent.dfy`, `AcpAgentEvents.dfy`, `AcpAgentLog.dfy`, `AcpAgentStream.dfy`, `AcpGatewayAgent.dfy` | the gateway agent's prompt, cancel, disconnect and event steps: its states, what each step leaves, the fate of every prompt, the text each client receives, and the object |
| `StreamRelay.dfy`, `StreamRelayLaws.dfy` | the relay of a child run's output to its parent, and what it says of it |
| `TabRelay.dfy` | the browser extension's tab and session maps |
| `BootstrapWarnings.dfy` | the history of shown truncation warnings |
| `ToolLocations.dfy`, `ToolLocationSearch.dfy`, `ToolLocationReach.dfy`, `PromptText.dfy` | collecting tool locations, what the search reaches, and a prompt's text with its size guard |

## What the proofs found

Where a desirable property does not hold of the code, the code is modelled as it is; a lemma names an input on which the
property fails, and another says exactly when it holds.

- A patch does not survive printing and parsing when a content line ends in a carriage return (`RoundTripExact`,
  `CarriageReturnLost`).
- The line number reported for an unexpected line is one too high when the chunk has no context marker
  (`UnexpectedLineNumber`, `WrongLineReported`).
- An end-of-file chunk is searched from the end whatever came before it, and can swallow an earlier replacement
  (`EofChunkOverlaps`); in a file that ends in a blank line an insertion can be swallowed (`BlankEndInsertionLost`).
  `DisjointExactly` has the exact condition.
- An update drops a blank last line and adds a missing final line feed (`UnchangedLinesExactly`, `BlankLastLineLost`).
- A repaired history changes when it is repaired again, if a synthetic result took over a tool name that is blank or has
  white space around it (`RepairTwiceExactly`, `PaddedNameChangesTwice`).
- The number of dropped messages that pruning reports leaves out the synthetic results that repairs add, the duplicates
  they report and the repeated results they drop without a report (`PruneCount`).  When no two calls share an id, `CountExactly` says by how much
  it is off; without repeated results it is right exactly when the loop does not run or every call after the first cut
  has its result (`CountExactlyWithoutRepeats`, `UnansweredCallMiscounted`).
- A session with the empty id can never be evicted, so creation can fail although an idle session exists
  (`CreateFailsExactly`, `EmptyIdBlocks`).
- A new prompt accepted while a cancel of the same session waits for the gateway loses its registration when the cancel
  ends (`CancelEndKeepsExactly`, `CancelRaceBreaksCoupling`).
- A prompt accepted while another of its session is registered takes that registration over, and the first prompt is
  neither registered nor settled at that point (`StepAccountsExactly`, `SupersededPromptIsLost`).
- Some account ids change when they are normalised a second time (`NormalizeTwice`, `UnstableAccountExists`), and then a
  binding cannot be found by its own session key (`KeyRoundTrip`, `UnstableAccountBreaks`).
- A tab that is replaced while its old id is being validated loses its way back from its session
  (`DropKeepsExactly`, `ReplacedDuringValidation`).
- A browser session is given out twice when the worker is restarted before it stored how far it had counted
  (`CounterKeptExactly`, `CounterNeverFallsExactly`, `SessionReusedAfterRestart`, `SessionReusedAfterStaleStore`).
- A previous warning signature with white space around it is stored untrimmed and comes back trimmed
  (`ReadBackExactly`, `UntrimmedReadBack`).
- A bracket that a link title already escapes comes out bare (`TitleEscapedExactly`, `BareBracketSurvives`).

## Model

| member | source | states |
|---|---|---|
| PatchParser.ParseUpdateFileChunk | src/agents/apply-patch.ts:497-582 | the loop over a chunk's lines computes the recursive scan: same branches, same consumed count, same error line |
| PatchParser.ParsedChunk | src/agents/apply-patch.ts:497-582 | a chunk that parses consumes at least one line and at most what remains |
| PatchParser.ParseAddedLines | src/agents/apply-patch.ts:418-432 | the added file's text is the leading `+` lines, each ended by a line feed |
| PatchParser.ParseOneHunk | src/agents/apply-patch.ts:411-495 | the hunk method computes the hunk function on every input, errors included |
| PatchParser.ParsedHunk | src/agents/apply-patch.ts:411-495 | a hunk that parses consumes at least one line and at most what remains, so parsing terminates |
| PatchParser.CheckPatchBoundariesLenient | src/agents/apply-patch.ts:375-396 | what is accepted is the lines themselves or the lines inside a heredoc, and has both markers on different lines |
| PatchParser.ParseBody | src/agents/apply-patch.ts:362-370 | the consuming loop over the body yields the hunks of the recursive parse, or its first error |
| PatchParser.ParsePatchText | src/agents/apply-patch.ts:351-373 | the whole parser computes its functional form on every text |
| PatchGrammar.ChunkExactly | src/agents/apply-patch.ts:497-582 | a chunk is parsed if and only if the grammar reads it so, with one meaning: an opening line, which only a hunk's first chunk may leave out, as many body lines as follow, and an end-of-file marker if that is next; the old lines are the payloads of the blank, kept and removed body lines in order, the new ones those of the blank, kept and added lines |
| PatchGrammar.ChunkRefusedExactly | src/agents/apply-patch.ts:502-576 | a chunk is refused if and only if its opening is missing or no body line comes first; which error it is, and its line |
| PatchGrammar.HunkExactly | src/agents/apply-patch.ts:411-495 | a hunk of each kind is parsed if and only if the grammar reads it so: trimmed headers, a move line, blank lines between chunks, and an end at a line of stars |
| PatchGrammar.BoundariesExactly | src/agents/apply-patch.ts:375-409 | the lines are accepted if and only if both markers frame them, or the lines inside a heredoc; else the error is about the first marker, or the last |
| PatchGrammar.ParserExactly | src/agents/apply-patch.ts:351-373 | the parser accepts exactly the texts of the grammar and returns exactly the hunks and the text that the grammar gives them |
| PatchGrammar.UpdateRefused | src/agents/apply-patch.ts:448-468 | an update hunk fails where its chunks read well up to a line from which none can be read, with that chunk's error, numbered from that line |
| PatchGrammar.HunkRefused | src/agents/apply-patch.ts:411-495 | a hunk is refused for an empty input, its header, having no chunks, or one of its chunks, with that error |
| PatchGrammar.BodyRefused | src/agents/apply-patch.ts:362-370 | a body fails where its hunks read well up to a line from which none can be read, with that hunk's error, numbered from that line |
| PatchRoundTrip.ChunkRoundTrip | src/agents/apply-patch.ts:497-582 | printing a well-formed chunk and parsing it in front of any following hunk gives it back and consumes exactly its lines |
| PatchRoundTrip.HunkRoundTrip | src/agents/apply-patch.ts:411-495 | the same for a hunk of each kind, with moves and several chunks |
| PatchRoundTrip.BodyRoundTrip | src/agents/apply-patch.ts:365-370 | a printed list of well-formed hunks parses back to exactly that list |
| PatchRoundTrip.PrintedPatchParses | src/agents/apply-patch.ts:351-373 | a printed patch text always parses, to the hunks with one trailing carriage return taken off each content line |
| PatchLaws.RoundTripExact | src/agents/apply-patch.ts:351-373 | print then parse is the identity if and only if no content or context line ends in a carriage return |
| PatchLaws.CarriageReturnLost | src/agents/apply-patch.ts:357-357 | a removed line that ends in a carriage return comes back without it |
| PatchLaws.ParsedPatchIsWf | src/agents/apply-patch.ts:351-373 | every accepted text, in any layout, yields well-formed hunks: paths that are not empty and end in no white space, updates and chunks that are not empty, no line with a line feed |
| PatchLaws.ReparseIsStable | src/agents/apply-patch.ts:351-373 | printing what any accepted text parsed to and parsing again gives the same hunks up to carriage returns |
| PatchLaws.BodyIsConsumed | src/agents/apply-patch.ts:365-370 | the consumed counts of an accepted patch are positive and add up to the number of body lines |
| PatchLaws.UnexpectedLineNumber | src/agents/apply-patch.ts:571-576 | the reported number of an unexpected line is right if and only if the chunk opened with a context marker |
| PatchLaws.WrongLineReported | src/agents/apply-patch.ts:571-576 | the second line of a hunk, on line 3, that is reported as line 4 |
| PatchLaws.BodyErrorLine | src/agents/apply-patch.ts:365-370 | every body error carries a line number inside the body or of the closing marker |
| PatchUpdate.LinesMatch | src/agents/apply-patch-update.ts:150-162 | the comparison loop decides equality of every line at one level |
| PatchUpdate.LooserMatches | src/agents/apply-patch-update.ts:120-142 | lines equal at one normalisation level are equal at every looser one |
| PatchUpdate.SeekSequence | src/agents/apply-patch-update.ts:107-148 | the four search loops compute the search function, with its early exits |
| PatchUpdate.SeekIsStrictestFirst | src/agents/apply-patch-update.ts:107-148 | the search returns the first position of the strictest level that matches anywhere in the window, and nothing exactly when no position matches at the loosest |
| PatchUpdate.SeekGoesBack | src/agents/apply-patch-update.ts:120-122 | a search lands before its start if and only if it is an end-of-file search whose one position lies there and matches |
| PatchPlacement.SeekExactly | src/agents/apply-patch-update.ts:107-148 | the search returns a position if and only if it is the first match of the strictest matching level in the window, and nothing if and only if the loosest level matches nowhere |
| PatchPlacement.LevelsExactly | src/agents/apply-patch-update.ts:120-148 | two lines are equal at the second level if and only if they differ in white space at their ends, at the third in white space around them, at the fourth also in alike characters |
| PatchPlacement.PunctuationExactly | src/agents/apply-patch-update.ts:164-205 | characters become equal if and only if they are the same or both dashes, single quotes, double quotes or blanks; ASCII is left alone |
| PatchUpdateLaws.SeekAtEnd | src/agents/apply-patch-update.ts:120-122 | an end-of-file search finds the end of the file or nothing, wherever it should start |
| PatchUpdate.ComputeReplacements | src/agents/apply-patch-update.ts:37-87 | the loop with its advancing line index yields the placements, sorted; or the first placement error |
| PatchPlacement.PlaceExactly | src/agents/apply-patch-update.ts:43-82 | a chunk is placed if and only if so: the search starts one past its context, which is searched from the line reached; new lines alone go to the end, in front of a blank last line; else the old lines are replaced where they are found, or those without a blank last one |
| PatchPlacement.RefusedExactly | src/agents/apply-patch-update.ts:43-76 | a chunk is refused if and only if its context is missing from the line reached on, or else its lines are, also without a blank last one; and with which error |
| PatchPlacement.PlacementsExactly | src/agents/apply-patch-update.ts:37-87 | the chunks are placed if and only if each is, from the line that the one before it led to |
| PatchUpdate.ApplyReplacements | src/agents/apply-patch-update.ts:89-105 | the right-to-left line-by-line deletions and insertions equal one splice per replacement, also out of bounds |
| PatchUpdate.SpliceIsStitch | src/agents/apply-patch-update.ts:89-105 | for disjoint replacements in bounds, splicing right to left equals stitching kept stretches and new lines left to right |
| PatchUpdate.ApplyUpdateHunk | src/agents/apply-patch-update.ts:14-35 | the whole update computes its functional form, final line feed included |
| PatchPlacement.FileLinesExactly | src/agents/apply-patch-update.ts:23-26 | a text of lines that each end in a line feed has those lines, and one more if something follows the last |
| PatchPlacement.FileTextIsUnLines | src/agents/apply-patch-update.ts:28-34 | the new text is its lines, each ended by a line feed, but none behind a blank last line |
| PatchUpdateLaws.SortIsStable | src/agents/apply-patch-update.ts:85-85 | the sort orders by start, keeps every replacement, and keeps the order of those that start together |
| PatchUpdateLaws.SortDisjoint | src/agents/apply-patch-update.ts:85-85 | the sorted replacements are disjoint if and only if every two are compatible in chunk order |
| PatchUpdateLaws.AnchorMatches | src/agents/apply-patch-update.ts:61-81 | the lines replaced are the chunk's old lines up to the loosest comparison, or those without one blank last line, in bounds |
| PatchUpdateLaws.PlacementsChained | src/agents/apply-patch-update.ts:37-87 | every run places chunks in bounds and in order, apart from end-of-file chunks that reach the end of the file |
| PatchUpdateLaws.StepsBackExactly | src/agents/apply-patch-update.ts:120-122 | all anchored chunks land in chunk order if and only if at no end-of-file chunk the lines it takes at the end of the file begin before the end of the last anchored chunk before it |
| PatchUpdateLaws.LeavesEndExactly | src/agents/apply-patch-update.ts:54-59 | one pass over the chunks decides whether insertions and chunks that take the last line get in each other's way |
| PatchUpdateLaws.DisjointExactly | src/agents/apply-patch-update.ts:37-87 | the replacements of an update are disjoint if and only if no end-of-file chunk steps back in this way and, in a file that ends in a blank line, that line is left to the insertions |
| PatchUpdateLaws.UpdateIsStitch | src/agents/apply-patch-update.ts:14-105 | whenever no end-of-file chunk steps back and a blank last line is left to the insertions, the new file is the stitched one |
| PatchUpdateLaws.PlainUpdateIsStitch | src/agents/apply-patch-update.ts:14-105 | without end-of-file chunks and blank file end, every update is a stitch or a placement error |
| PatchUpdateLaws.EofChunkOverlaps | src/agents/apply-patch-update.ts:120-122 | an end-of-file chunk that swallows an earlier replacement |
| PatchUpdateLaws.BlankEndInsertionLost | src/agents/apply-patch-update.ts:54-59 | an insertion lost in a file that ends in a blank line |
| PatchUpdateLaws.UnchangedLinesExactly | src/agents/apply-patch-update.ts:14-35 | an update whose chunks leave every line as it was gives the file back if and only if it is empty or ends in exactly one line feed after some other character |
| PatchUpdateLaws.BlankLastLineLost | src/agents/apply-patch-update.ts:14-35 | a file and a chunk that replaces a line by itself and thereby drops the blank last line |
| TokenChunks.EstimateMessagesTokens | src/agents/compaction.ts:72-76 | the sum over the messages |
| TokenChunks.ChunkMessagesByMaxTokens | src/agents/compaction.ts:135-175 | the chunks concatenate to the input, none is empty, each fits the limit or is one message, and none could have taken the next message |
| TokenChunks.MarginKept | src/agents/compaction.ts:143-172 | in terms of the maximum itself: a chunk of several messages times 1.2 is within it, or is a single token, and with the next message it would be over it |
| TokenChunks.GreedyIsOptimal | src/agents/compaction.ts:135-175 | no other contiguous partition under the same limit has fewer chunks |
| TokenChunks.GreedyIsUnique | src/agents/compaction.ts:135-175 | that contract determines the chunks |
| TokenChunks.SplitMessagesByTokenShare | src/agents/compaction.ts:89-128 | the splitting loop computes the recursive split |
| TokenChunks.SplitLaw | src/agents/compaction.ts:89-128 | the split keeps all messages in order in at most the requested number of non-empty parts, closed only when the share is exceeded |
| TokenChunks.SplitIsUnique | src/agents/compaction.ts:89-128 | these rules leave no choice: they determine the split |
| TokenChunks.SplitMakesProgress | src/agents/compaction.ts:82-128 | two or more messages of positive total split into two or more parts always give at least two chunks |
| TranscriptRepair.RepairToolUseResultPairing | src/agents/session-transcript-repair.ts:342-502 | the repair loop over turns and spans computes its functional form, with its counts |
| TranscriptRepair.RepairKeepsOthers | src/agents/session-transcript-repair.ts:342-502 | repair never loses, adds or reorders anything but tool results |
| TranscriptRepair.RepairPairs | src/agents/session-transcript-repair.ts:342-502 | afterwards every tool result follows an assistant turn that made its call, whether or not the input had to change |
| RepairReference.RepairIsReference | src/agents/session-transcript-repair.ts:342-502 | on every input the repair, with its spans, result map and moved messages, emits exactly this: tool results are dropped where they stand, and every turn is followed by the answers to its calls in order, each the first result for its id in the run or one made up, but none for an id answered before |
| RepairReference.RepairedExactly | src/agents/session-transcript-repair.ts:478-502 | a history is handed back as it is if and only if every run holds results for its turn's calls only, under their right names and one at least for each, and no id is called twice; else it is that form |
| RepairReference.ExpectedCalls | src/agents/session-transcript-repair.ts:400-410 | a turn expects results for its calls with an id, in order; a failed turn expects none |
| RepairReference.LastCallNames | src/agents/session-transcript-repair.ts:412-413 | the name for an id is that of the last call with it |
| RepairReference.NamedExactly | src/agents/session-transcript-repair.ts:154-183 | a result keeps its trimmed name, else takes that of the call, else "unknown"; one without any name stays without |
| RepairReference.OrphansExactly | src/agents/session-transcript-repair.ts:379-473 | the reported orphans are the tool results outside all runs and those of a run for other ids |
| RepairAccounts.RepairedLength | src/agents/session-transcript-repair.ts:342-502 | on every input, what a repair keeps, reports as orphans and reports as duplicates adds up to the input and the results it added, less the balance of usable results and calls that take one, if anything changed |
| RepairAccounts.AddedPerUnanswered | src/agents/session-transcript-repair.ts:342-502 | with distinct call ids it adds exactly one result per call that no result of its turn's run answers, and reports no duplicate |
| RepairAccounts.KeptResultsAreSourced | src/agents/session-transcript-repair.ts:342-502 | every tool result it keeps is one of the input, perhaps under a normalised name, or one it reports as added |
| RepairAccounts.RepairOriginates | src/agents/session-transcript-repair.ts:342-502 | every message it keeps is one of the input, but for renamed tool results and results made up for a call of an input turn |
| RepairTwice.RepairTwiceExactly | src/agents/session-transcript-repair.ts:135-196 | with distinct call ids, repairing a repaired history leaves its messages alone if and only if every call without a result has no name, or one that is neither blank nor surrounded by white space |
| RepairTwice.PaddedNameChangesTwice | src/agents/session-transcript-repair.ts:135-196 | a call with a padded name whose made-up result the second repair renames |
| HistoryPruning.RoundDecreases | src/agents/compaction.ts:398-460 | the termination measure of the prune loop: a round loses a message that is no tool result, or clears leading tool results for good |
| HistoryPruning.PruneHistoryForContextShare | src/agents/compaction.ts:398-460 | the loop computes the recursive pruning with all seven fields of its result |
| HistoryPruning.PruneStopsWhen | src/agents/compaction.ts:420-426 | the loop ends only when the kept tokens fit, at most one message is left, or one part was asked for |
| HistoryPruning.PruneRounds | src/agents/compaction.ts:418-450 | the loop is a run of rounds, each on a history over the budget that is cut in two or more, each repairing all but the first part; it drops exactly those first parts and counts one chunk for each |
| HistoryPruning.PruneConserves | src/agents/compaction.ts:398-460 | dropped followed by kept is the input, tool results aside, with the real repair |
| HistoryPruning.PruneOriginates | src/agents/compaction.ts:398-460 | every message kept or dropped by a whole prune is one of the input, but for renamed tool results and results made up for a call of the input |
| HistoryPruning.PruneCountsTokens | src/agents/compaction.ts:440-447 | the dropped token count is that of the dropped list, which grows only at its end |
| HistoryPruning.PruneLeavesPaired | src/agents/compaction.ts:430-448 | once anything was dropped no kept tool result lacks its call |
| HistoryPruning.PruneCount | src/agents/compaction.ts:437-441 | for every history, the reported count and the kept messages add up to the input and the synthetic results of all repairs, less the duplicates they reported and the balance of the runs they cut down |
| HistoryPruning.PruneOfToolFree | src/agents/compaction.ts:398-460 | where repair has nothing to do, dropped followed by kept is the input and the count is exact |
| HistoryPruning.PruneResultLaw | src/agents/compaction.ts:398-460 | all of these on the returned record, for every input |
| HistoryPruning.PrunedByRounds | src/agents/compaction.ts:398-460 | the returned record is that of such rounds, with the normalised number of parts and the floor of the share of the context, or one token, as its budget |
| TidyHistory.RepairTidies | src/agents/session-transcript-repair.ts:342-502 | a repaired history with distinct calls answers every call once, unless repeated results were left because nothing had to change |
| TidyHistory.CountExactly | src/agents/compaction.ts:437-441 | with distinct call ids, and whatever the rounds do, the count is off by exactly the unanswered calls after the first cut less the repeated results there, if the first repair changes anything; else by the repeated results behind the first cut inside a run |
| TidyHistory.CountExactlyWithoutRepeats | src/agents/compaction.ts:437-441 | without repeated results the count is exact if and only if the loop does not run or every call after the first cut has its result |
| TidyHistory.UnchangedSuffix | src/agents/session-transcript-repair.ts:342-502 | a history that needs no repair needs none from any later message on that is not a tool result |
| TidyHistory.UnansweredCallMiscounted | src/agents/compaction.ts:434-441 | a history with an unanswered call where the reported count is one too high |
| RoutingIds.NormalizeTwice | src/routing/account-id.ts:14-46 | normalising an account id a second time changes it if and only if the first result starts with `_` and ends with `-` |
| RoutingIds.UnstableAccountExists | src/routing/account-id.ts:14-46 | there is such an account id |
| RoutingIds.AgentKeyExactly | src/sessions/session-key-utils.ts:12-32 | a session key is `agent`, an agent and a rest of at least one part, in lower case and without the empty parts between its colons |
| RoutingIds.CanonicalExactly | src/routing/account-id.ts:14-24 | a valid id is only lower-cased; any other text is collapsed, loses the dashes at its ends and is cut to 64 characters |
| RoutingIds.CollapseRun | src/routing/account-id.ts:18-22 | a run of characters outside ids becomes one dash, and what is around it is kept |
| RoutingIds.NormalizedExactly | src/routing/account-id.ts:26-46 | blank ids, those without a canonical form and the names of object internals stand for the default account |
| AcpBindings.CanonicalDetermines | src/acp/conversation-id.ts:29-39 | a canonical topic id determines chat and topic |
| AcpBindings.TopicRoundTrip | src/acp/conversation-id.ts:29-80 | a printed topic id parses back to its chat and topic, whatever parent is passed along |
| AcpBindings.ResolveConfiguredBindingRecord | src/acp/persistent-bindings.resolve.ts:120-182 | the loop with early return and wildcard memory finds the first exact offer, else the first wildcard |
| AcpBindings.ResolveConfiguredAcpBindingSpecBySessionKey | src/acp/persistent-bindings.resolve.ts:184-255 | the loop by session key computes the same kind of search over offers with that key |
| AcpBindings.ResolveConfiguredAcpBindingRecord | src/acp/persistent-bindings.resolve.ts:257-338 | the resolver by conversation: discord with parent inheritance, telegram topics of groups, nothing else |
| AcpBindingMatches.DiscordExactly | src/acp/persistent-bindings.resolve.ts:31-182 | among the bindings of the conversation: the spec of the first whose account is neither blank nor `*` and normalises to the account, or is blank while the account is the default; else of the first for `*`; else nothing |
| AcpBindingMatches.ConversationExactly | src/acp/persistent-bindings.resolve.ts:257-338 | a discord conversation resolves so by its own bindings, else by its parent's, a telegram topic of a group by its topic's, and nothing else resolves |
| AcpBindingMatches.KeyExactly | src/acp/persistent-bindings.resolve.ts:184-255 | a session key resolves by the same choice among the bindings whose own conversation gives that key |
| AcpBindingMatches.BindingKeyExactly | src/acp/persistent-bindings.resolve.ts:46-67 | a session key is read as a binding's exactly when the rest of the agent session is `acp`, `binding`, a channel, an account and one part more between its colons |
| AcpBindingMatches.FoundHasKey | src/acp/persistent-bindings.resolve.ts:184-255 | what a session key resolves to has that key |
| AcpBindingMatches.SelectsExactly | src/acp/persistent-bindings.resolve.ts:41-44 | a discord binding is selected for its trimmed peer, a telegram binding for the topic that its peer names, if the chat is a group |
| AcpBindingMatches.PrintedExactly | src/acp/conversation-id.ts:29-39 | a topic id is printed from a chat and a topic of digits, white space around them aside, and from nothing else |
| AcpBindingMatches.TopicExactly | src/acp/conversation-id.ts:43-80 | a topic is read from its canonical text, or from digits with the chat as their parent, and from nothing else |
| AcpBindingMatches.SpecExactly | src/acp/persistent-bindings.resolve.ts:88-118 | a spec takes the binding's own settings before its agent's defaults, with blank ones missing, and is persistent unless the mode is `oneshot` |
| AcpBindingMatches.IdentityDetermines | src/acp/persistent-bindings.types.ts:62-71 | the hashed text determines channel, account and conversation |
| AcpBindingMatches.RecordExactly | src/acp/persistent-bindings.types.ts:73-105 | the session key and the binding id, as texts |
| AcpBindingLaws.BestIsFirstExact | src/acp/persistent-bindings.resolve.ts:120-182 | the search result is the first exact match, or the first wildcard when there is no exact match at all |
| AcpBindingLaws.KeyParses | src/acp/persistent-bindings.resolve.ts:46-67 | parsing a printed key gives back its channel and account |
| AcpBindingLaws.KeyDetermines | src/acp/persistent-bindings.types.ts:62-80 | equal keys have equal conversation digests |
| AcpBindingLaws.KeyedBest | src/acp/persistent-bindings.resolve.ts:184-255 | restricting the search to the winner's key keeps the winner, for any mix of exact and wildcard bindings |
| AcpBindingLaws.SearchRoundTrip | src/acp/persistent-bindings.resolve.ts:120-255 | what one search returns the other returns for its key |
| AcpBindingLaws.KeyRoundTrip | src/acp/persistent-bindings.resolve.ts:184-338 | for every configuration and conversation, a found record's session key resolves to the same spec, if the account's normalised id is stable and the digest does not clash |
| AcpBindingLaws.UnstableAccountBreaks | src/acp/persistent-bindings.resolve.ts:184-255 | for every account id that is not stable there is a configuration whose binding is found by conversation and not by its key |
| ProcessOutputModel.CapPendingBuffer | src/agents/bash-process-registry.ts:230-250 | the in-place capping loop computes the capped buffer and count |
| ProcessOutputModel.CappedLaw | src/agents/bash-process-registry.ts:230-250 | a capped buffer concatenates to exactly the last `cap` characters and its count is right |
| ProcessOutputModel.PendingCapExactly | src/agents/bash-process-registry.ts:111-114 | a buffer may hold what was asked for, or 30000 units, and never more than the aggregate |
| ProcessOutputModel.ProcessSession.AppendOutput | src/agents/bash-process-registry.ts:104-132 | the whole new output state; the stored counts stay right |
| ProcessOutputModel.ProcessSession.DrainSession | src/agents/bash-process-registry.ts:134-142 | returns the joined pending text of both streams and empties both |
| ProcessOutputModel.AppendFaithful | src/agents/bash-process-registry.ts:104-132 | an append keeps pending, counters, aggregate, tail, total and the sticky flag equal to what the history says |
| ProcessOutputModel.NothingLost | src/agents/bash-process-registry.ts:104-142 | while not truncated, all drains plus what is pending are the full streams and the aggregate is everything |
| ProcessOutputModel.OutputIsConserved | src/agents/bash-process-registry.ts:104-142 | after any writes and drains every buffer is the promised suffix, and the flag is set if and only if some output can no longer be read |
| ProcessOutputModel.ChunkString | src/agents/bash-tools.shared.ts:206-212 | the slicing loop computes the pieces |
| ProcessOutputModel.ChunksConcat | src/agents/bash-tools.shared.ts:206-212 | the pieces concatenate to the text and none is empty or over the limit |
| ProcessOutputModel.ChunkingIsInvisible | src/agents/bash-process-registry.ts:104-132 | appending a text in pieces of any size shows the same output as appending it at once |
| ProcessOutputModel.ProcessRegistry.AddSession | src/agents/bash-process-registry.ts:86-89 | the session is filed under its id and exactly that id becomes taken |
| ProcessOutputModel.ProcessRegistry.DeleteSession | src/agents/bash-process-registry.ts:99-102 | the id is free afterwards and nothing else changed |
| ProcessOutputModel.ProcessRegistry.MarkExited | src/agents/bash-process-registry.ts:144-213 | an exited session has its exit code and signal, stops running, and is remembered with them and its last output if and only if it was backgrounded |
| ProcessOutputModel.ProcessRegistry.PruneFinishedSessions | src/agents/bash-process-registry.ts:286-293 | exactly the finished sessions that ended within the time to live remain |
| AcpSessionModel.ReapOrdered | src/acp/session.ts:48-59 | reaping removes exactly the idle sessions past their time and leaves the run index and every other session alone |
| AcpSessionModel.OldestOfAll | src/acp/session.ts:61-78 | eviction picks an idle session of least last touch, the first of those in iteration order, whenever there is an idle one |
| AcpSessionModel.CreateLaw | src/acp/session.ts:80-107 | creation keeps the capacity and the run index, never disturbs a busy session, and stores exactly the requested fields |
| AcpSessionModel.CreateFailsExactly | src/acp/session.ts:80-107 | creation fails if and only if the session is new, the store is full without stale sessions, and all are busy or the first least recently touched idle one has the empty id |
| AcpAgentEvents.CreateExactly | src/acp/session.ts:48-107 | a new session goes behind those that are not stale, in their order; if these are as many as there may be, without the first least recently touched idle one; and nothing is added if none is idle or that one has the empty id |
| AcpSessionModel.EmptyIdBlocks | src/acp/session.ts:61-78 | a store with one idle session of the empty id that has no room for another |
| AcpSessionModel.CreateInv | src/acp/session.ts:80-107 | creation keeps the store invariant: capacity, run and controller together, run index the inverse of the active runs |
| AcpSessionModel.ClearInv | src/acp/session.ts:142-168 | clearing and cancelling a run keep it |
| AcpSessionModel.SetActiveInverse | src/acp/session.ts:131-140 | starting a run keeps the index exact if and only if the session had no other run and the run id is no other session's |
| AcpSessionModel.SetActiveInv | src/acp/session.ts:131-140 | starting a fresh run in an idle session keeps the whole invariant |
| AcpAgentEvents.RunsExactly | src/acp/session.ts:111-168 | what starting, clearing and cancelling a run and a touch leave in the session, the run index and the aborted controllers, with every other session untouched |
| AcpAgentEvents.RemoveExactly | src/acp/session.ts:35-46 | a removed session is gone with its index entry, and its controller is aborted |
| AcpSessionStoreModel.AcpSessionStore.RemoveSession | src/acp/session.ts:35-46 | the object removes the session, its index entry and aborts its controller |
| AcpSessionStoreModel.AcpSessionStore.ReapIdleSessions | src/acp/session.ts:48-59 | the scan over a changing map computes the reaping |
| AcpSessionStoreModel.AcpSessionStore.EvictOldestIdleSession | src/acp/session.ts:61-78 | the scan finds and removes the pick, or changes nothing |
| AcpSessionStoreModel.AcpSessionStore.CreateSession | src/acp/session.ts:80-107 | the object's creation in full, and the returned object is the stored one |
| AcpSessionStoreModel.AcpSessionStore.GetSession | src/acp/session.ts:111-117 | returns the stored object and touches only it |
| AcpSessionStoreModel.AcpSessionStore.GetSessionByRunId | src/acp/session.ts:119-129 | goes through the run index, with its missing cases |
| AcpSessionStoreModel.AcpSessionStore.SetActiveRun | src/acp/session.ts:131-140 | the three fields and the index entry |
| AcpSessionStoreModel.AcpSessionStore.ClearActiveRun | src/acp/session.ts:142-153 | both fields cleared and the index entry removed |
| AcpSessionStoreModel.AcpSessionStore.CancelActiveRun | src/acp/session.ts:155-168 | aborts the controller as well, and reports whether there was one |
| AcpAgentModel.EmittedLength | src/acp/translator.ts:833-860 | the emitted chunks are together as long as the longest snapshot |
| AcpAgentModel.EmittedPrefixes | src/acp/translator.ts:833-860 | snapshots that are prefixes of one text, in any order and with repeats, are emitted as the longest of them |
| AcpAgentModel.SnapshotFaithful | src/acp/translator.ts:833-860 | after a longer snapshot the client has it if and only if it extends what the client had |
| AcpAgentStream.StepStreams | src/acp/translator.ts:568-878 | every step but a prompt of the session sends its client exactly the new text of the snapshot that the step brings for it, and nothing else |
| AcpAgentStream.RunStreams | src/acp/translator.ts:784-860 | in every interleaved run the chunks in the log for a pending prompt are those of the snapshots brought for it |
| AcpAgentStream.RunSendsLongest | src/acp/translator.ts:833-860 | so the client receives as much as the longest snapshot adds, and exactly that text when all are prefixes of one |
| AcpAgentModel.CancelEndKeepsExactly | src/acp/translator.ts:655-668 | the end of a cancel keeps sessions and prompts coupled if and only if no new run became active while it waited |
| AcpAgentModel.CancelRaceBreaksCoupling | src/acp/translator.ts:640-668 | the run of prompt, cancel, prompt, end of cancel that breaks the coupling, after which a disconnect leaves an active run |
| AcpAgentModel.DisconnectClears | src/acp/translator.ts:378-385 | a disconnect leaves no pending prompt, no active run and no run-index entry, and rejects every pending prompt |
| AcpAgentModel.FoundIsPending | src/acp/translator.ts:880-891 | the search by key and run finds a registered prompt that matches, and fails only if none does |
| AcpAgentModel.FinalEventOrder | src/acp/translator.ts:784-831 | a final event's snapshot is emitted before its prompt is resolved, and the prompt is gone afterwards |
| AcpAgentEvents.ChatEventExactly | src/acp/translator.ts:784-878 | what an event tells the client: the unsent end of a delta's or final snapshot, then `max_tokens` for a final state of that reason, `end_turn` for any other final state and for an error, `cancelled` for an aborted one, and no answer otherwise; and whether the prompt stays registered |
| AcpAgentEvents.FoundFirst | src/acp/translator.ts:880-891 | the prompt found is the first registered one with the session key and, if the event names one, the run |
| AcpAgentEvents.PromptExactly | src/acp/translator.ts:568-609 | a prompt first aborts what its session runs; one that fits becomes the run, is registered and sent, one that does not leaves only that abort |
| AcpAgentEvents.CancelExactly | src/acp/translator.ts:640-668 | a cancel aborts what the session runs, tells the gateway to abort that run or the registered prompt's, and will resolve the prompt registered then |
| AcpAgentEvents.EndsExactly | src/acp/translator.ts:633-668 | a failed request, a finished prompt and the end of a cancel each take one registration away and give one answer; only the first two end the session's run |
| AcpAgentEvents.DisconnectExactly | src/acp/translator.ts:378-385 | a disconnect rejects every registered prompt once, in the order of registration, and sends nothing else |
| AcpAgentModel.StepKeeps | src/acp/translator.ts:568-668 | every step keeps: store invariant, prompts filed once under their session, every active run has its registered prompt |
| AcpAgentModel.RunKeeps | src/acp/translator.ts:378-891 | hence every state of every run of allowed steps does |
| AcpAgentLog.StepAccountsExactly | src/acp/translator.ts:568-668 | a step keeps every sent prompt registered or settled, and every registered one unsettled, if and only if a prompt is accepted where nothing is registered and an ending step ends the run registered for its session |
| AcpAgentLog.RunAccounts | src/acp/translator.ts:568-878 | in every run of such steps every prompt that was sent is registered, resolved or rejected |
| AcpAgentLog.SupersededPromptIsLost | src/acp/translator.ts:601-609 | a second prompt leaves the first neither registered nor settled |
| AcpGatewayAgentModel.AcpGatewayAgent.Prompt | src/acp/translator.ts:568-605 | cancels the old run first, even when the prompt is then refused as too large; otherwise activates and registers |
| AcpGatewayAgentModel.AcpGatewayAgent.PromptFailed | src/acp/translator.ts:618-638 | a refused request unregisters, clears the run and rejects |
| AcpGatewayAgentModel.AcpGatewayAgent.CancelStart | src/acp/translator.ts:640-663 | a cancel up to its wait, and which prompt it will resolve |
| AcpGatewayAgentModel.AcpGatewayAgent.CancelFinish | src/acp/translator.ts:664-668 | the unguarded deletion after the wait |
| AcpGatewayAgentModel.AcpGatewayAgent.HandleGatewayDisconnect | src/acp/translator.ts:378-385 | the loop over pending prompts rejects each and clears its run |
| AcpGatewayAgentModel.AcpGatewayAgent.HandleChatEvent | src/acp/translator.ts:784-831 | dispatch on state and snapshot, on the objects |
| AcpGatewayAgentModel.AcpGatewayAgent.HandleDeltaEvent | src/acp/translator.ts:833-860 | emits the unsent end and records the snapshot, touching no other prompt |
| AcpGatewayAgentModel.AcpGatewayAgent.FinishPrompt | src/acp/translator.ts:862-878 | unregisters, clears and resolves |
| AcpGatewayAgentModel.AcpGatewayAgent.FindPendingBySessionKey | src/acp/translator.ts:880-891 | the scan returns the first match in iteration order |
| StreamRelayModel.StreamRelay.FlushPending | src/agents/acp-spawn-parent-stream.ts:226-237 | disarms the timer, empties the buffer and emits its snippet if any |
| StreamRelayModel.StreamRelay.OnAssistantDelta | src/agents/acp-spawn-parent-stream.ts:283-320 | resumed notice, buffering, capping, flush or timer |
| StreamRelayModel.StreamRelay.OnWatcherTick | src/agents/acp-spawn-parent-stream.ts:249-265 | a stall notice only after silence, once |
| StreamRelayModel.StreamRelay.OnLifetimeTimer | src/agents/acp-spawn-parent-stream.ts:267-277 | the timeout notice, then disposal |
| StreamRelayModel.StreamRelay.OnLifecycleEnd | src/agents/acp-spawn-parent-stream.ts:320-355 | flush, then the done or error notice, then disposal |
| StreamRelayModel.StepKeeps | src/agents/acp-spawn-parent-stream.ts:204-367 | every event and timer firing keeps the relay's invariant |
| StreamRelayModel.EveryTrace | src/agents/acp-spawn-parent-stream.ts:204-367 | in every interleaving: one terminal notice at most, only start notices after it, stall and resumed alternate, a short buffer with a timer |
| StreamRelayModel.DisposedIsQuiet | src/agents/acp-spawn-parent-stream.ts:283-367 | a disposed relay emits only start notices, for good |
| StreamRelayModel.EndFlushesFirst | src/agents/acp-spawn-parent-stream.ts:326-355 | the end of a run reports buffered text, then the end, and nothing else |
| StreamRelayLaws.CompactExactly | src/agents/acp-spawn-parent-stream.ts:17-19 | a compacted text is its words with single blanks between them |
| StreamRelayLaws.SnippetExactly | src/agents/acp-spawn-parent-stream.ts:17-29 | a snippet is that text, cut to 220 characters with an ellipsis for the last; blank text gives none |
| StreamRelayLaws.StepExactly | src/agents/acp-spawn-parent-stream.ts:226-367 | for every event, what the relay says, what stays buffered, when it ends, and when its clock and its stall are reset |
| StreamRelayLaws.TextIsConserved | src/agents/acp-spawn-parent-stream.ts:204-367 | as long as nothing has to be cut, the notices of any run and the buffer hold the text of all deltas, white space aside, in order and exactly once |
| TabRelayModel.AttachKeeps | assets/chrome-extension/background.js:510-551 | attaching keeps the map invariant and gives a session that the reverse map does not hold |
| TabRelayModel.CounterKeptExactly | assets/chrome-extension/background.js:114-140 | the session counter never falls below where it stood if and only if no restart on the way finds an older one stored |
| TabRelayModel.CounterNeverFallsExactly | assets/chrome-extension/background.js:114-140 | it never falls in a whole run if and only if every restart finds it up to date |
| TabRelayModel.SessionsNeverReused | assets/chrome-extension/background.js:523-527 | as long as no restart finds an older counter stored, the next session is one that no tab had in the earlier state |
| TabRelayModel.SessionReusedAfterRestart | assets/chrome-extension/background.js:133-164 | a worker restarted before it stored anything gives the same session out again |
| TabRelayModel.SessionReusedAfterStaleStore | assets/chrome-extension/background.js:114-164 | so does one that stored its state, attached another tab and is restarted before it stores that |
| TabRelayModel.ForgetKeeps | assets/chrome-extension/background.js:553-605 | detaching keeps it, and so does a failed attach, which may leave a dangling reverse entry |
| TabRelayModel.ReplaceKeeps | assets/chrome-extension/background.js:903-918 | replacing a tab keeps it |
| TabRelayModel.ReplaceExactly | assets/chrome-extension/background.js:903-918 | a replaced tab goes on under its new id and its session leads there; an unknown one changes nothing |
| TabRelayModel.DetachExactly | assets/chrome-extension/background.js:553-605 | detaching takes out the tab and the way back from its session, a failed connect only the tab, and neither any other |
| TabRelayModel.PersistExactly | assets/chrome-extension/background.js:114-131 | what is stored is the counter and exactly the connected tabs whose session and target are known |
| TabRelayModel.DropKeepsExactly | assets/chrome-extension/background.js:294-310 | dropping a tab after its validation keeps it if and only if no other tab holds that session by then |
| TabRelayModel.ReplacedDuringValidation | assets/chrome-extension/background.js:294-310 | the replacement during a validation that breaks it |
| TabRelayModel.RestartKeeps | assets/chrome-extension/background.js:133-164 | a worker restarted from stored state satisfies it, and its next session is in no reverse entry |
| TabRelayModel.RunKeeps | assets/chrome-extension/background.js:114-164 | after every event of every run, restarts included, each connected tab's session leads to it and session numbers are distinct and below the next |
| TabRelayModel.TabRelay.AttachTab | assets/chrome-extension/background.js:510-551 | the object's maps and counter after attaching |
| TabRelayModel.TabRelay.DetachTab | assets/chrome-extension/background.js:553-605 | tab and reverse entry are removed |
| TabRelayModel.TabRelay.ConnectOrToggle | assets/chrome-extension/background.js:607-660 | nothing while the tab is locked or waits for a re-attach; else detach if connected, else connecting and then attached, forgotten, or forgotten with its session left behind when the relay cannot be told |
| TabRelayModel.TabRelay.OnReplaced | assets/chrome-extension/background.js:903-918 | the tab's entry and its reverse entry move to the new id |
| TabRelayModel.TabRelay.ReannounceAttachedTabs | assets/chrome-extension/background.js:294-362 | run without interruption, exactly the connected tabs that do not answer are dropped and the invariant kept |
| TabRelayModel.TabRelay.RehydrateState | assets/chrome-extension/background.js:133-164 | restores exactly the stored tabs that answer and the exact reverse map |
| BootstrapWarnings.NormalizeSeenSignatures | src/agents/bootstrap-budget.ts:70-85 | the loop with its set computes the normalised list |
| BootstrapWarnings.NormalExactly | src/agents/bootstrap-budget.ts:70-85 | normalising keeps a list if and only if its entries are distinct, trimmed and not empty |
| BootstrapWarnings.NextLaw | src/agents/bootstrap-budget.ts:301-331 | in `once` mode a signature is shown if and only if it is not in the history, and then it is appended and at most the oldest leaves |
| BootstrapWarnings.WarningExactly | src/agents/bootstrap-budget.ts:301-331 | in every mode: when a signature is shown, and what is added to the history |
| BootstrapWarnings.AppendExactly | src/agents/bootstrap-budget.ts:87-99 | a blank or known signature changes nothing; a new one goes to the end, of which the last 32 are kept |
| BootstrapWarnings.ResolvedExactly | src/agents/bootstrap-budget.ts:101-122 | a report stands for its list, if any is left of it, else for its one signature unless warnings were off |
| BootstrapWarnings.ReadBackExactly | src/agents/bootstrap-budget.ts:101-122 | reading the report back gives the stored history in every mode, if and only if the previous signature was blank or trimmed |
| BootstrapWarnings.UntrimmedReadBack | src/agents/bootstrap-budget.ts:101-122 | a previous signature with a blank before it that comes back without the blank |
| BootstrapWarnings.PreviousIsKnown | src/agents/bootstrap-budget.ts:309-313 | handing in the last signature of a stored history beside the history makes no difference |
| BootstrapWarnings.RepeatsAreFarApart | src/agents/bootstrap-budget.ts:87-99 | from an empty history, at least 32 different others are shown between two showings of a warning |
| BootstrapWarnings.ShownAgainExactly | src/agents/bootstrap-budget.ts:87-99 | a warning just shown is shown again if and only if 32 different others were shown since |
| ToolLocationsModel.KeyDetermines | src/acp/event-mapper.ts:167-167 | two locations have the same key if and only if they are the same, whatever colons and digits their paths hold |
| ToolLocationsModel.PathExactly | src/acp/event-mapper.ts:105-130 | which raw paths are none: blank, over 4096 characters, with a line break or null, or a web address in any case; a file address is decoded, anything else trimmed |
| ToolLocationsModel.AddedLaw | src/acp/event-mapper.ts:147-172 | one add puts its location in, removes the line-less entry of its path when it has a line, and adds nothing when the path is known and it has none |
| ToolLocationsModel.CollectedExactly | src/acp/event-mapper.ts:147-172 | after any adds the entries are exactly all pairs added with a line and a line-less entry for each path never added with one, each once |
| ToolLocationsModel.OrderDoesNotMatter | src/acp/event-mapper.ts:147-172 | neither order nor repeats of the adds matter |
| ToolLocationSearch.ToolLocations.AddToolLocation | src/acp/event-mapper.ts:147-172 | the pass that deletes from the map it iterates over computes one add |
| ToolLocationSearch.ToolLocations.CollectToolLocations | src/acp/event-mapper.ts:186-242 | the budgeted recursive search leaves exactly what the first nodes of the unbudgeted pre-order, as many as the budget has left, add |
| ToolLocationSearch.SearchedConcat | src/acp/event-mapper.ts:186-242 | searching some nodes and then others is one search with one budget |
| ToolLocationSearch.ExtractToolCallLocations | src/acp/event-mapper.ts:404-410 | the returned locations are exactly the expected ones of all reached nodes, without repeats, and nothing when there are none |
| ToolLocationReach.ValueAddsExactly | src/acp/event-mapper.ts:186-242 | what is named is what the nodes within each value's own budget name |
| ToolLocationReach.PreorderExactly | src/acp/event-mapper.ts:186-242 | the search visits exactly the values at most four steps down, not through a record's content |
| ToolLocationReach.ParentsBefore | src/acp/event-mapper.ts:186-242 | every value is visited after one that it is a child of |
| ToolLocationReach.NodeAddsExactly | src/acp/event-mapper.ts:192-230 | a text names the files its lines mark; a record the texts under its path keys, with its line, and the files marked in the text blocks of its content |
| ToolLocationReach.LineOfExactly | src/acp/event-mapper.ts:132-147 | the line of a record is under the first of the line keys that holds a positive number |
| ToolLocationReach.LinesExactly | src/acp/event-mapper.ts:174-184 | lines are what stands between line feeds, carriage returns, line and paragraph separators |
| PromptText.LinkOnOneLine | src/acp/event-mapper.ts:59-96 | a link's text holds no control character or line break |
| PromptText.LinkExactly | src/acp/event-mapper.ts:255-260 | a link's text, with its escaped title and address where there are any |
| PromptText.EscapeExactly | src/acp/event-mapper.ts:49-91 | each control character has its letter, its four digits or its two hexadecimal digits |
| PromptText.ControlsExactly | src/acp/event-mapper.ts:59-91 | exactly the control characters are escaped, wherever they stand |
| PromptText.BracketsExactly | src/acp/event-mapper.ts:93-96 | exactly round and square brackets get a backslash |
| PromptText.TitleEscapedExactly | src/acp/event-mapper.ts:93-96 | an escaped title has no bare bracket, one after an even number of backslashes, if and only if all brackets of the title were bare |
| PromptText.BareBracketSurvives | src/acp/event-mapper.ts:93-96 | the title of a backslash and a bracket, which comes out with a bare bracket |
| PromptText.JoinedBytes | src/acp/event-mapper.ts:262-271 | one more part costs its bytes and one for the line break, unless it is the first |
| PromptText.ExtractTextFromPrompt | src/acp/event-mapper.ts:244-275 | the guard that counts block by block refuses exactly the prompts whose whole joined text is over the limit |

## Left out

- Patch application: reading, writing, moving and deleting files, sandbox path checks and the summary are I/O.
- Strings: outside `ProcessOutput.dfy`, which counts UTF-16 code units, a `string` is a sequence of Unicode characters, so lengths and slices differ from JavaScript on characters beyond the basic plane, and lone surrogates do not occur.
- Lower-casing: ASCII letters and the two other characters whose lower case is ASCII or starts with it; other case pairs are not modelled.
- The digest in session keys is a parameter `hash`; `HexHash` says its prefix is 16 hexadecimal digits and `NoClash` that no configured conversation collides with the found one.
- Which agent a binding picks, and that agent's runtime defaults, are parameters of `Config`; the normalisation caches of account ids are not modelled.
- Token estimates are a parameter `est`; message contents are abstract apart from roles, tool calls and tool result ids, and `stripToolResultDetails` is left to `est`.
- `maxContextTokens` is an integer and `maxHistoryShare` a real number; rounding of floating-point products is not modelled.
- Summarising by a language model, oversized-message fallbacks and adaptive chunk ratios: an opaque call, or one expression.
- Session store: wall-clock time is a parameter, ids are given by the caller, abort controllers are numbers and aborting is recorded in a set.
- Map iteration is modelled by a sequence of keys in insertion order where the order matters.
- Gateway agent: what a handler does between two waits is one step; session presentation, configuration, transcript replay, tool call updates and rate limits are plain record building.
- AcpAgentModel.RunKeeps: runs are restricted to fresh run ids and to cancels that end before a new run of their session starts; what happens otherwise is CancelEndKeepsExactly and CancelRaceBreaksCoupling.
- AcpGatewayAgentModel.AcpGatewayAgent.HandleChatEvent: the wait between emitting a final snapshot and finishing the prompt is folded into one step; the runs of RunKeeps and RunAccounts also hold the two halves as separate steps, with anything in between.
- AcpGatewayAgentModel.AcpGatewayAgent.FinishPrompt: resolves in the step that unregisters, while the code first waits for a session snapshot, which is not modelled.
- Stream relay: the log file, the wake-up call and the exact texts of notices other than snippets.
- Tab relay: Chrome calls, badges, titles, the WebSocket, child sessions and re-attaching after a navigation, which detaches and then attaches again as two steps.
- TabRelayModel.RunKeeps: a drop after a validation must still be about a session no other tab has; what happens otherwise is DropKeepsExactly and ReplacedDuringValidation.
- TabRelayModel.TabRelay.ConnectOrToggle: the waits between connecting and attaching are folded into one step; the runs of TabRelayModel.RunKeeps hold the halves as separate events, with anything in between.
- TabRelayModel.TabRelay.ReannounceAttachedTabs: proved for a pass that nothing interrupts; interruptions are the separate steps of the runs.
- Process registry: child processes, their streams and listeners, the sweeper timer and slugs; the pending arrays are sequences that are replaced, not arrays cut in place.
- Bootstrap budget: how a truncation signature is computed; it is taken to be trimmed and not empty, as the code prints it.
- Tool locations: decoding the path of a `file:` URL is a parameter; a line number above 2^53 prints differently in JavaScript.
- Attachments of prompts, tool titles and tool kinds: finite case tables.
