# A model of Meridian's offline-first editing core

This project models, in Dafny, the parts of Meridian that decide what a writer's offline work means
and prove that it is kept: the matcher and word diff behind agent edits, the observation frontiers
they are compared by, the namespace journal of documents, folders and Copies, the catalog replica
and its displayed order, the placement of folders under unresolved moves, and the spelling of
addresses, links and MDX prose. `dafny verify dfyconfig.toml` checks everything.

Code that loops over arrays, maps and cursors is written as methods with loops; each is proved
against a specification (a function, or a property stated outright), and what the source promises is
proved about that specification. Code made of expressions is functions and lemmas.

| module | what it covers |
|---|---|
| `OrderedMatching`, `EqualMatching` | the 32-bit dynamic-programming matcher with its traceback; the equality matcher, its key filter and its patience-sorting fallback |
| `Rewriting`, `FolderPlacement`, `FolderRepair`, `FolderGraph` | cycle repair as a rewriting system with one normal form; the walks that carry it out; the final edges, places and hidden flags |
| `Ranges`, `Frontier` | half-open clock ranges; snapshot containment and what changed between two cuts |
| `EscapeSyntax`, `Escaping`, `Escape`, `EscapeGrammar` | the code spans and tags the prose escaper leaves alone; escaping by any reader of such constructs; the escaper; the grammar that prints exactly what it copies |
| `Records`, `Journal`, `JournalHistory`, `JournalChange` | intents, attempts and answers; the update rule and its validator; what every run of updates keeps; when a change is allowed |
| `ServerHold`, `Answers`, `Settlement`, `Collation`, `Remint`, `FolderFollow` | the hold; settling answers and refusal chains; replacing a spent id and everything that follows it |
| `FolderJournal`, `FolderRequests`, `FolderSteps`, `FolderPlans`, `FolderProtocol`, `FolderRuns` | a folder's record, its planners and steps, what its requests ask and its answers do, which of their writes the store takes, the run of device, network and server together, and the runs that end in a refused write |
| `CopyJournal`, `CopyStore` | multi-root Copy from planning to dismissal, and the store's rule for it |
| `Paths`, `ContextUri`, `DocumentHref` | addresses and the links spelled from them; percent-encoding follows section 2.1 of RFC 3986 and section 3 of RFC 3629 |
| `Sorting`, `Siblings`, `SiblingLists`, `Catalog`, `OptimisticOrder`, `OptimisticDisplay` | display order, the replayed catalog and its index, the fold of pending moves over it, and what readers then see |
| `WordHunks` | token codes and the hunks read from a diff |

## What the proofs found

Where the code does not do what its documentation, or a reader, would expect, the model keeps the
code: a lemma gives a concrete input on which the expectation fails, and a theorem says exactly when
it holds.

- **Matcher totals.** Cells are 32 bits wide. The answer is a heaviest matching while every matching
  totals less than 2^32, the table's corner is exact only then (`OrderedMatching.CornerIsExact`), and
  a pair of weight 2^32 is lost (`OrderedMatching.OverweightPairIsLost`).
- **Snapshots and empty deletions.** A snapshot contains itself only when no merged deletion of it is
  empty (`Frontier.ContainsItselfExactly`, `Frontier.EmptyDeletionIsNotContained`). `Y.snapshot` and
  `decodeSnapshotV2` give positive lengths only, so no producer in this program makes such a snapshot.
- **A delete queued behind a refused create.** Preparing it settles it on the device, but the written
  record has no undo window, so the update rule always refuses that write
  (`FolderSteps.PreparedIsStoredExactly`; the run is `FolderRuns.QueuedDeleteIsRefused`).
- **Deleting while an answer waits.** A deletion that settles on the device is refused while, for
  example, the create's refusal is recorded but not settled (`FolderPlans.DeletionIsStoredExactly`;
  the run is `FolderRuns.WaitingRefusalBlocksDeletion`).
- **Reminting with a delete queued.** A queued delete would be cancelled, which the rule refuses
  (`Remint.RemintIsAllowedExactly`, `FolderPlans.RemintIsStoredExactly`; the run is
  `FolderRuns.QueuedDeleteBlocksRemint`).
- **The rule is not reflexive.** A superseded intent with an accepted answer is stored once and can
  never be stored again (`JournalHistory.SameAgainExactly`; the run is
  `JournalHistory.RepairedMoveIsNotStoredAgain`); from then on every write to that journal is refused
  (`JournalHistory.BlockedTakesNoUpdate`).
  `Unblocked` names the journals without one. In the runs of `FolderProtocol` no folder's journal
  comes to hold one: `Unblocked` is part of the invariant (`FolderProtocol.RunIsSafe`), so the three
  refusals above are the only ones such a folder meets (`FolderProtocol.WritesAreTaken`,
  `PreparationsAreTakenExactly`, `DeletionsAreTakenExactly`, `RemintedIsSound`). A Copy's journal can
  (`CopyStore.DismissedIsBlocked`), but only at its end, with nothing left to write
  (`CopyStore.BlockedIsLast`).
- **Links to names with a line separator.** The rule for entry names lets U+2028 and U+2029 through,
  and the address parser reads up to a line terminator. The canonical address of such a name does not
  parse, so no link to it can be spelled, from any holder (`DocumentHref.NamesSpellExactly`,
  `DocumentHref.LineSeparatorIsRefused`).
- **First arrivals in a manual folder.** A manual parent with no listed child is not marked as ordered
  by rank when the fold starts, so rows that arrive without a position keep the ranks they had under
  their old parents, and readers still sort by rank: they show in neither their order of arrival nor
  that of their names (`OptimisticDisplay.DisplayIsFoldExactly`,
  `OptimisticDisplay.FirstArrivalsShowByOldRanks`).

## Assumptions

Stated as parameters and `requires` clauses, never as axioms.

- The collator is a total order on strings (`Orders`); the tokenizer's pattern covers every text
  (`Cuts`); the diff's equal and deleted chunks spell one coded text and its equal and inserted chunks
  the other (`Diffs`); one client's Yjs structs tile its clocks (`Stored`).
- The server answers an id it holds before it refuses anything, no copy of a create outlives the
  answer the device hears, an id answered as out of reach stays so, and new ids are unused.
- A clock reads no time before its epoch (`Clocked`).
- An answer is refused when it is a refusal, a failed operation or a conflicting create, and accepted
  otherwise; a terminal identity absorbs it.
- Each root of a Copy has its own record and its own copy id.

## Model

| member | source | states |
|---|---|---|
| OrderedMatching.WeightedOrderedMatches | packages/agent-edit/src/ordered-matching.ts:9-51 | Nothing exactly when the table is over the limit; otherwise ordered, in-range pairs of positive weight with the traceback's ties, and a heaviest such matching whenever every total stays below 2^32 |
| OrderedMatching.OptimumBounds | packages/agent-edit/src/ordered-matching.ts:21-37 | No ordered matching of the two ranges outweighs the recurrence's optimum |
| OrderedMatching.SomeMatchingAttains | packages/agent-edit/src/ordered-matching.ts:21-50 | Some matching weighs exactly the optimum, so the bound is reached |
| OrderedMatching.CellIsOptimum | packages/agent-edit/src/ordered-matching.ts:23-37 | While the optimum fits a 32-bit cell no store wraps and the cell holds it |
| OrderedMatching.WalkIsMatching | packages/agent-edit/src/ordered-matching.ts:39-50 | Whatever the table holds, even after a wrap, the walk yields only ordered pairs of positive weight |
| OrderedMatching.WalkAttains | packages/agent-edit/src/ordered-matching.ts:39-50 | Over exact cells the walk collects the whole optimum |
| OrderedMatching.TracedIsHeaviest | packages/agent-edit/src/ordered-matching.ts:9-51 | The traceback is a heaviest matching whenever every total fits a cell |
| OrderedMatching.CornerIsExact | packages/agent-edit/src/ordered-matching.ts:23-37 | The table's corner holds the heaviest total if and only if every matching's total fits a cell |
| OrderedMatching.OverweightPairIsLost | packages/agent-edit/src/ordered-matching.ts:23-37 | One pair of weight 2^32 is stored as 0 and never matched: the bound is needed |
| OrderedMatching.FillTable | packages/agent-edit/src/ordered-matching.ts:21-37 | The nested loops fill both flat arrays with the recurrence's cells and the stored weights |
| OrderedMatching.WalkTable | packages/agent-edit/src/ordered-matching.ts:39-50 | The two-cursor walk over the flat arrays yields the pairs of the walk over the cells |
| EqualMatching.EqualOrderedMatches | packages/agent-edit/src/ordered-matching.ts:66-118 | In-order pairs of equal keys; a longest common subsequence of the whole inputs while the table of shared keys is small enough, otherwise a longest chain of keys that occur once on each side |
| EqualMatching.Filtered | packages/agent-edit/src/ordered-matching.ts:70-75 | Dropping the keys absent from the other side shortens no common subsequence and keeps its order |
| EqualMatching.ExactIsLongest | packages/agent-edit/src/ordered-matching.ts:76-84 | A heaviest matching of the shared keys, mapped back, is a longest common subsequence of the unfiltered inputs |
| EqualMatching.UnitWeightsFit | packages/agent-edit/src/ordered-matching.ts:76-83 | With weights 0 and 1 and few enough rows, totals are lengths and never wrap |
| EqualMatching.SmallTable | packages/agent-edit/src/ordered-matching.ts:76-84 | A table within the limit has few enough rows for its totals to fit |
| EqualMatching.LongestIncreasingRun | packages/agent-edit/src/ordered-matching.ts:100-117 | Tails, binary search and backward links give an increasing run of the candidates, and no chain of them is longer |
| EqualMatching.ChainIsBounded | packages/agent-edit/src/ordered-matching.ts:100-113 | No chain of candidates is longer than the number of tails |
| EqualMatching.FollowLinks | packages/agent-edit/src/ordered-matching.ts:114-117 | The backward links from the last tail spell an ordered run as long as the tails |
| EqualMatching.CountedOnce | packages/agent-edit/src/ordered-matching.ts:86-93 | Counting only the shared indices finds exactly the keys that occur once in the whole input |
| EqualMatching.UniquePositions | packages/agent-edit/src/ordered-matching.ts:93-94 | The position map holds exactly the keys unique in `b` and present in `a`, each at its place |
| EqualMatching.Candidates | packages/agent-edit/src/ordered-matching.ts:95-99 | The candidates are exactly the pairs of keys unique on both sides, in `a`'s order |
| EqualMatching.UniqueChainsAreCandidates | packages/agent-edit/src/ordered-matching.ts:62-65 | The chains of unique keys are exactly the ordered chains of candidates |
| FolderPlacement.CyclesAreDisjoint | packages/resource-replica/src/folder-placement.ts:85-111 | With one parent each, two cycles are the same or share no folder |
| FolderPlacement.CycleSurvives | packages/resource-replica/src/folder-placement.ts:93-101 | Repairing one cycle leaves another a cycle, and canonical or not as it was |
| FolderPlacement.RepairsCommute | packages/resource-replica/src/folder-placement.ts:93-101 | Two repairs of disjoint cycles give the same edges in either order |
| FolderPlacement.StepsHaveDiamond | packages/resource-replica/src/folder-placement.ts:93-101 | Any two different repairs of one graph can each be followed by the other, to one result |
| FolderPlacement.RepairIsUnique | packages/resource-replica/src/folder-placement.ts:85-111 | Repair has one result, whatever order the folders are listed and the cycles found in |
| FolderPlacement.AcyclicIsUntouched | packages/resource-replica/src/folder-placement.ts:85-111 | Chosen edges that are already acyclic are all left as chosen |
| FolderPlacement.AcyclicIsForest | packages/resource-replica/src/folder-placement.ts:85-111 | No cycle is left if and only if every folder reaches a root |
| FolderPlacement.RepairSparesRooted | packages/resource-replica/src/folder-placement.ts:85-111 | A folder whose chosen chain already reaches a root keeps its chosen edge |
| FolderPlacement.RepairAccountsForEdges | packages/resource-replica/src/folder-placement.ts:98-101 | Each final edge is the chosen, the canonical or the absolute one |
| FolderPlacement.ForestKeepsCanonical | packages/resource-replica/src/folder-placement.ts:94-101 | While the canonical edges form a forest no repair roots a canonical member |
| FolderPlacement.CycleFallsBack | packages/resource-replica/src/folder-placement.ts:93-101 | No folder of a cycle keeps its pending edge, whatever is repaired first |
| FolderPlacement.CycleFallsBackToSeen | packages/resource-replica/src/folder-placement.ts:93-101 | While the canonical edges form a forest each folder of a cycle ends on its own canonical edge |
| FolderRepair.ReturnIsCycle | packages/resource-replica/src/folder-placement.ts:90-93 | When the walk meets its own chain, the part from there is exactly a cycle |
| FolderRepair.RepairUsesUpEdges | packages/resource-replica/src/folder-placement.ts:97-101 | Every repair leaves fewer pending edges, or as many and fewer canonical folder edges: the reason the loop ends |
| FolderRepair.WalkSurvives | packages/resource-replica/src/folder-placement.ts:102-103 | After a repair the rest of the chain is still a walk to where the cycle began |
| FolderRepair.WalkSettles | packages/resource-replica/src/folder-placement.ts:110-111 | A walk that meets a root or a settled folder settles its whole chain |
| FolderRepair.ApplyRepair | packages/resource-replica/src/folder-placement.ts:94-101 | The member-by-member rewriting of the two maps is the repair of the whole cycle at once |
| FolderRepair.RepairReturn | packages/resource-replica/src/folder-placement.ts:91-104 | One repair inside the walk: measure down, settled edges untouched, chain and index cut back to the cycle's start |
| FolderRepair.SettleFrom | packages/resource-replica/src/folder-placement.ts:86-111 | The walk from one folder ends, settles it and all it passed, and never changes an edge already settled |
| FolderRepair.RepairCycles | packages/resource-replica/src/folder-placement.ts:85-111 | All the walks together end in a result of repair: a run of repairs to a graph with no cycle |
| FolderGraph.BuildGraph | packages/resource-replica/src/folder-placement.ts:29-133 | The whole construction: final edges acyclic, every folder reaching a root, each placed by its final edge; whatever the repair, a folder whose start leads to a root ends where its usable move puts it, else where it was seen, and one in a circle of moves where it was seen or at its own path |
| FolderGraph.FinalShowsMoves | packages/resource-replica/src/folder-placement.ts:55-111 | In node and record fields: a wanted parent that is listed, not ancestry-only and not terminal, or a root in an installed area, is exactly the final destination of a folder whose wanted-else-observed parents reach a root; with no such wish the observed parent and name are |
| FolderGraph.FinalBreaksCircles | packages/resource-replica/src/folder-placement.ts:85-111 | A folder in a smallest circle of such parents falls back to its observed place or to its own path in its area, never to its wish |
| FolderGraph.CircleStandsAsSeen | packages/resource-replica/src/folder-placement.ts:85-111 | Where the observed parents form a forest, a folder in a circle of moves stands exactly where it was seen |
| FolderGraph.NodesByIdExactly | packages/resource-replica/src/folder-placement.ts:40 | The node read for an id is the last one listed under it |
| FolderGraph.RecordsByIdExactly | packages/resource-replica/src/folder-placement.ts:35-39 | The record read for a folder is the last one of it among the account's own and this project's |
| FolderGraph.TopStands | packages/resource-replica/src/folder-placement.ts:112-133 | A folder at a root stands where it was seen, or where its move names it under the bare root |
| FolderGraph.MovedFolderShowsInside | packages/resource-replica/src/folder-placement.ts:55-133 | `B`, seen at `/B` and wanted under `A`, shows at `/A/B` |
| FolderGraph.GraphIsUnique | packages/resource-replica/src/folder-placement.ts:29-133 | Edges and places do not depend on the order in which nodes and records are listed |
| FolderGraph.ShownMovesAreUsable | packages/resource-replica/src/folder-placement.ts:55-84 | A pending move shows in the final graph only while its destination is known, installed and not terminal |
| FolderGraph.ResolvePlaces | packages/resource-replica/src/folder-placement.ts:112-133 | The top-down loops place every folder by its final edge and its parent's place |
| FolderGraph.HiddenExactly | packages/resource-replica/src/folder-placement.ts:121-132 | A folder is hidden if and only if it or some folder on its final chain owns a deletion |
| FolderGraph.AreaComesFromTop | packages/resource-replica/src/folder-placement.ts:125-129 | A folder shows in the area and under the owner of the folder at the top of its chain |
| FolderGraph.PathSpellsChain | packages/resource-replica/src/folder-placement.ts:121-132 | A folder's path is the path of the top of its final chain followed by every name on the way down |
| FolderGraph.PlaceIsUnique | packages/resource-replica/src/folder-placement.ts:112-133 | On a forest only one placement of all folders fits the final edges |
| Ranges.MergedMeans | packages/agent-edit/src/frontier.ts:335-346 | Sorting and merging keep exactly the deleted clocks, in ranges with gaps between them, none empty when every length is positive |
| Ranges.DeleteRanges | packages/agent-edit/src/frontier.ts:335-346 | The loop computes that merge |
| Ranges.InsideIsCovered | packages/agent-edit/src/frontier.ts:349-357 | With gaps in the outer list, lying in one outer range is having every clock covered; an empty range counts as its start |
| Ranges.Covered | packages/agent-edit/src/frontier.ts:349-357 | The two-cursor loop holds exactly when each inner range lies in an outer one |
| Ranges.SubtractOne | packages/agent-edit/src/frontier.ts:363-372 | The pieces of one range are ascending, not empty, and hold exactly its clocks that are not removed |
| Ranges.Subtract | packages/agent-edit/src/frontier.ts:360-375 | The result is set difference, as ascending non-empty ranges, though the cursor never goes back |
| Ranges.Below | packages/agent-edit/src/frontier.ts:378-382 | The result is the clocks under the limit, as ascending non-empty ranges |
| Frontier.ContainsSnapshot | packages/agent-edit/src/frontier.ts:216-225 | The per-client loops decide containment |
| Frontier.ContainedMeans | packages/agent-edit/src/frontier.ts:216-225 | While recorded deletions have a length, containment is having every clock and every deleted clock of the earlier cut |
| Frontier.ContainedIsTransitive | packages/agent-edit/src/frontier.ts:216-225 | Containment is transitive, whatever the lengths |
| Frontier.ContainsItselfExactly | packages/agent-edit/src/frontier.ts:216-225 | A snapshot contains itself if and only if none of its merged deletions is empty |
| Frontier.EmptyDeletionIsNotContained | packages/agent-edit/src/frontier.ts:216-225 | A snapshot with one deletion of length zero does not contain itself, though nothing is deleted |
| Frontier.FlippedRanges | packages/agent-edit/src/frontier.ts:249-256 | Per client, the ranges hold exactly the clocks visible at one of two contained cuts and not at the other |
| Frontier.WalkRange | packages/agent-edit/src/frontier.ts:258-273 | Over structs that tile the clocks, the walk visits exactly each block's clocks inside the range |
| Frontier.WalkClient | packages/agent-edit/src/frontier.ts:242-275 | One client's walk visits a block's clock exactly when its visibility differs between the cuts |
| Frontier.ChangedBlocks | packages/agent-edit/src/frontier.ts:233-239 | The blocks found are exactly those with an item visible at one cut only |
| Frontier.FrontierDelta | packages/agent-edit/src/frontier.ts:166-185 | Present blocks that differ, in document order, and exactly the differing blocks now gone; nothing without a contained earlier cut |
| EscapeSyntax.SkipBalanced | packages/markup/src/escape.ts:206-221 | The cursor loop ends where the reading of balanced braces does, which is where the printed group ends (`EscapeGrammar.BracesArePrinted`) |
| EscapeSyntax.TryConsumeInlineCodeSpan | packages/markup/src/escape.ts:279-297 | The cursor loops end where the first backtick run of the same length ends, or nowhere (`EscapeGrammar.SpanIsPrinted`) |
| EscapeSyntax.TryConsumeJsxTag | packages/markup/src/escape.ts:223-277 | The cursor loops end where the reading of a preserved tag does, which is where the printed tag ends (`EscapeGrammar.TagIsPrinted`) |
| Escape.EscapeProseSegment | packages/markup/src/escape.ts:299-350 | The in-place loop computes the escaping that the following lemmas are about, enclosed destinations included; what it copies is what the grammar prints, and every other `<` and `{` is escaped (`EscapeGrammar.ConstructIsCopied`, `EscapeGrammar.OtherIsEscaped`) |
| Escape.EscapedIsPadded | packages/markup/src/escape.ts:299-350 | Erasing the inserted backslashes, each in front of a `<` or `{`, gives the input back |
| Escape.EscapedIsSafe | packages/markup/src/escape.ts:299-350 | In the output every `<` and `{` is escaped or starts or lies in a code span, break or preserved tag, as a second reading sees it |
| Escape.SafeIsUnchanged | packages/markup/src/escape.ts:299-350 | The escaper leaves a text as it is if and only if it is already safe |
| Escape.EscapedIsIdempotent | packages/markup/src/escape.ts:299-350 | Escaping twice is escaping once |
| Escape.VerbatimSwapped | packages/markup/src/escape.ts:306-333 | A copied construct is recognized again from its own characters, whatever is put after it that starts no longer backtick run |
| Escape.TagSwapped | packages/markup/src/escape.ts:223-277 | A tag is read from its own characters only |
| Escape.PaddedCodeSpan | packages/markup/src/escape.ts:279-297 | Inserted backslashes never open or close a code span |
| Escape.BreakIsNoTag | packages/markup/src/escape.ts:306-333 | The two protected spellings never compete for the same text |
| EscapeGrammar.BracesArePrinted | packages/markup/src/escape.ts:206-221 | Braces are skipped if and only if a balanced group is printed there: nested groups, pairs behind a backslash, other characters; what is left is what follows it |
| EscapeGrammar.SpanIsPrinted | packages/markup/src/escape.ts:279-297 | A code span is read if and only if one is printed: n backticks, text in which no run is of n, n backticks, and no backtick next |
| EscapeGrammar.TagIsPrinted | packages/markup/src/escape.ts:223-277 | A tag is read if and only if one is printed: opening, self-closing or closing, a preserved name, white space, and attributes that are spread, bare, quoted, braced or unquoted |
| EscapeGrammar.ItemsRead | packages/markup/src/escape.ts:238-275 | Printed attributes and the end of their tag are read to their end, whatever follows |
| EscapeGrammar.ItemsPrinted | packages/markup/src/escape.ts:238-275 | Whatever is read as attributes and an end of tag is the print of some |
| EscapeGrammar.VerbatimIsPrinted | packages/markup/src/escape.ts:306-333 | What is copied whole is exactly what the grammar prints: an escaped pair, a code span, `<br/>` or a tag |
| EscapeGrammar.ConstructIsCopied | packages/markup/src/escape.ts:299-350 | A printed construct comes out as it is, and escaping goes on right after it |
| EscapeGrammar.OtherIsEscaped | packages/markup/src/escape.ts:306-346 | Where none is printed one character comes out, behind a backslash when it is a `<` not enclosed or a `{` |
| EscapeGrammar.ComponentIsKept | packages/markup/src/escape.ts:299-350 | A line of one component between plain words is left as it is |
| EscapeGrammar.FigureIsKept | packages/markup/src/escape.ts:299-350 | A self-closing figure with a quoted source, in a line of prose, is left as it is |
| Journal.ValidateNamespaceJournal | packages/resource-replica/src/namespace-journal-policy.ts:224-435 | The two loops accept exactly the updates that uphold all twelve rules, and otherwise name one that is broken |
| Journal.CheckIntent | packages/resource-replica/src/namespace-journal-policy.ts:236-386 | The checks of one new intent, in the source's order, with its id and sequence sets |
| Journal.CheckPrevious | packages/resource-replica/src/namespace-journal-policy.ts:387-434 | The checks of every recorded intent against its successor |
| JournalHistory.AllowedExactly | packages/resource-replica/src/namespace-journal-policy.ts:224-435 | An update is allowed if and only if each new and each recorded intent passes its own checks |
| JournalHistory.RunExtends | packages/resource-replica/src/namespace-journal-policy.ts:224-435 | Over any run no intent vanishes or changes what it asked, sent requests and answers are frozen, completed work never restarts, new work outranks all history, and only the last attempt may be open |
| JournalHistory.SettledForGood | packages/resource-replica/src/namespace-journal-policy.ts:387-434 | A settled intent keeps its state and its accepted answer through every later update |
| JournalHistory.SameAgainExactly | packages/resource-replica/src/namespace-journal-policy.ts:371-381 | Storing a journal again unchanged is allowed if and only if no superseded intent holds an accepted answer |
| JournalHistory.BlockedTakesNoUpdate | packages/resource-replica/src/namespace-journal-policy.ts:371-381 | A journal that holds a superseded intent with an accepted answer takes no update at all |
| JournalHistory.RepairedMoveIsNotStoredAgain | packages/resource-replica/src/namespace-journal-policy.ts:371-381 | A move sent, accepted, failed to apply and superseded: five allowed updates, after which the journal cannot be stored again |
| JournalChange.ChangeIsAllowedExactly | packages/resource-replica/src/namespace-journal-policy.ts:224-435 | A change that only moves states and queues new work is allowed if and only if every resulting intent stands |
| JournalChange.UntouchedStands | packages/resource-replica/src/namespace-journal-policy.ts:309-381 | When an intent left alone still stands after such a change |
| JournalChange.ReasonStays | packages/resource-replica/src/namespace-journal-policy.ts:313-339 | A cancelled intent keeps its reason while the identity revision stays |
| Settlement.SettlingStandsExactly | packages/resource-replica/src/namespace-journal-policy.ts:22-46 | Settling is allowed if and only if each placement it retires has a reason the rule accepts |
| Settlement.SettlingIsAllowed | packages/resource-replica/src/namespace-journal-policy.ts:22-46 | Settling an answer, a conflict with its spent hold, is allowed if and only if the journal could be stored unchanged |
| Settlement.UnspentConflictExactly | packages/resource-replica/src/namespace-journal-policy.ts:22-46 | Why a conflict needs its spent hold: without it settling is allowed if and only if the newest retired placement has a reason of its own |
| Settlement.SettledAtIndex | packages/resource-replica/src/namespace-journal-policy.ts:22-46 | What settling does to each intent: the settled one, its unsent followers, the rest |
| Settlement.RepairSource | packages/resource-replica/src/namespace-journal-policy.ts:200-216 | The repair starts from the newest cancelled follower, else the failed placement |
| Settlement.RepairStartsFromNewest | packages/resource-replica/src/namespace-journal-policy.ts:200-216 | After a refusal the repair offers the parent, folders to make and position of the last placement the writer queued behind the refused one; a document under its typed name, a folder under the destination's |
| Settlement.RepairStartsFromFailed | packages/resource-replica/src/namespace-journal-policy.ts:200-216 | With none queued behind it the repair offers the refused placement's own place in the same way |
| Remint.ScopeFollows | packages/resource-replica/src/namespace-journal-policy.ts:98-114 | The renamed scope waits on the new id exactly where the old one named either id, never on the old, and on every other key as before |
| Remint.CopiesCarryWork | packages/resource-replica/src/namespace-journal-policy.ts:126-197 | The failed placement and each unsent follower are retired once and queued once more, with the same desired state, in order, above every sequence |
| Remint.RemintIsAllowedExactly | packages/resource-replica/src/namespace-journal-policy.ts:126-197 | A remint may be stored if and only if no delete is queued behind the failed placement, that placement is answered, and no superseded intent holds an accepted answer |
| Remint.RemintConserves | packages/resource-replica/src/namespace-journal-policy.ts:126-197 | The list of work to send is the same before and after: each piece once, in the same order |
| Remint.WaitsOnCopy | packages/resource-replica/src/namespace-journal-policy.ts:155-196 | What waited on reminted work now finds its copy, queued again with the same destination |
| Remint.RetiringSplits | packages/resource-replica/src/namespace-journal-policy.ts:126-197 | The work to send is what stays, then the failed placement, then its followers |
| Remint.Failed | packages/resource-replica/src/namespace-journal-policy.ts:136-143 | The placement reminted is the newest failed one |
| Remint.DependentPlaces | packages/resource-replica/src/namespace-journal-policy.ts:144-150 | The followers are exactly the unsent placements of the old identity, in journal order |
| Collation.SortStrings | packages/resource-replica/src/namespace-journal-policy.ts:102-114 | The scope's keys come out sorted, none lost |
| FolderFollow.FollowingLeavesNone | packages/resource-replica/src/folder-remint.ts:118-162 | A journal is rewritten exactly when some unsent placement names the old id, and then none does |
| FolderFollow.PlanHandlesAll | packages/resource-replica/src/folder-remint.ts:118-162 | Once the plan's writes land, no unsent placement outside the folder's own journal names its old id |
| FolderFollow.FollowingIsAllowedExactly | packages/resource-replica/src/folder-remint.ts:118-162 | A journal that follows may be stored if and only if it could be stored unchanged |
| FolderFollow.FollowingConserves | packages/resource-replica/src/folder-remint.ts:118-162 | The journal keeps the same unsent placements, each once, under the new id |
| Journal.ActiveIntent | packages/resource-replica/src/resource-namespace.ts:54-56 | The active intent is the live one with the lowest sequence |
| FolderJournal.NothingLeftToRepair | packages/resource-replica/src/resource-intent-policy.ts:73-89 | Once something in scope has failed, nothing in scope is left to repair or to send; otherwise nothing changes, what does change is in scope and retired, and doing it again changes nothing |
| FolderJournal.FailureClearsTheWay | packages/resource-replica/src/resource-intent-policy.ts:73-89 | Behind a failure the writer's next command waits only for a request under way or its answer |
| FolderJournal.HeldForGood | packages/resource-replica/src/folder-namespace.ts:378-489 | Through any run of stored updates the handle stays, a held id stays held, a placed folder stays placed, and an id is left only once spent |
| FolderPlans.CreatedIsStored | packages/resource-replica/src/folder-namespace.ts:302-324 | A new folder's record is accepted and coherent |
| FolderPlans.MoveIsStoredExactly | packages/resource-replica/src/folder-namespace.ts:326-372 | A planned move is stored if and only if the journal could be stored at all |
| FolderPlans.DeletionIsStoredExactly | packages/resource-replica/src/folder-namespace.ts:203-258 | A planned deletion is stored if and only if, besides, it needs the server or everything in the journal can be retired |
| FolderPlans.RemintIsStoredExactly | packages/resource-replica/src/folder-remint.ts:18-49 | A folder's remint is stored if and only if, besides, no delete is queued behind the failed placement |
| FolderPlans.QueueingIsStoredExactly | packages/resource-replica/src/folder-namespace.ts:378-489 | A command queued on a stored record is taken exactly when the journal takes that command |
| FolderSteps.PreparedIsStoredExactly | packages/resource-replica/src/folder-namespace.ts:510-590 | A prepared write is stored if and only if the journal could be, unless the record is live, its oldest work is a delete and the hold needs no server: that delete is always refused |
| FolderSteps.PreparedIsCoherent | packages/resource-replica/src/folder-namespace.ts:510-590 | A stored preparation sends a create only from `local` and a move only from a held place; what it sends is stated by `FolderRequests` |
| FolderRequests.MoveIsSent | packages/resource-replica/src/folder-namespace.ts:550-590 | A held folder is sent one move that, applied to its observed parent and name, gives the parent asked for with its folders to make, the typed name unless the destination keeps the current one, and the position; an equal parent or name is left out |
| FolderRequests.CreateIsSent | packages/resource-replica/src/folder-namespace.ts:550-573 | A folder the server was never asked for is sent one create whose home is the destination and whose owner is the parent's, and its hold becomes uncertain |
| FolderRequests.DeleteIsSent | packages/resource-replica/src/folder-namespace.ts:531-549 | A delete is sent for the folder under the operation id it was queued with |
| FolderRequests.NothingElseIsSent | packages/resource-replica/src/folder-namespace.ts:510-590 | Where none of those three applies preparing sends nothing |
| FolderRequests.PlannedMoveIsSent | packages/resource-replica/src/folder-namespace.ts:326-372 | From command to request: a planned move with nothing else open is sent as exactly the move the writer asked for |
| FolderRequests.MoveIntoFolder | packages/resource-replica/src/namespace-requests.ts:32-62 | A held folder seen at its root and asked under folder `a`, its name kept, is sent a move that names `a` and nothing more |
| FolderRequests.RefusedMovesNothing | packages/resource-replica/src/folder-namespace.ts:620-672 | A refusal, or any answer once the folder is gone, changes neither the place nor what is awaited |
| FolderRequests.CreatedStandsThere | packages/resource-replica/src/folder-namespace.ts:655-671 | An accepted create gives the folder its first place: the displayed path and name answered, under the owner it was asked for |
| FolderRequests.MovedIsAwaited | packages/resource-replica/src/folder-namespace.ts:649-654 | An accepted move leaves the place as it was seen and waits for the catalog to be at least as new as the answer |
| FolderRequests.ObservationShowsExactly | packages/resource-replica/src/folder-namespace.ts:733-772 | An awaited observation is taken if and only if it is newer or ends the wait; a newer one is the place kept, and the wait ends at a version no older than the answer's and the last seen |
| FolderRequests.MoveIsQueued | packages/resource-replica/src/folder-namespace.ts:326-372 | A planned move queues, after everything else, the destination asked for with the typed name where there is one |
| FolderRequests.CreateIsQueued | packages/resource-replica/src/folder-namespace.ts:302-324 | A new folder with a valid name has one queued intent, to stand at its destination under its name |
| FolderRequests.HomelessIsRepaired | packages/resource-replica/src/folder-namespace.ts:550-556 | Where the destination's folder is not known any more the work waits to be repaired |
| FolderSteps.RecordedIsStored | packages/resource-replica/src/folder-namespace.ts:592-618 | Recording an answer to the request in flight writes a record the rule stores if and only if the journal could be stored at all |
| FolderSteps.SettledIsStored | packages/resource-replica/src/folder-namespace.ts:620-671 | Settling the answer in hand writes a record the rule stores if and only if the journal could be stored at all |
| FolderSteps.RefreshIsStored | packages/resource-replica/src/folder-namespace.ts:733-772 | A catalog observation a move waits for is stored if and only if the journal could be, and leaves a coherent record |
| FolderSteps.SettledIsCoherent | packages/resource-replica/src/folder-namespace.ts:620-671 | A settled record is coherent and has nothing in flight |
| FolderSteps.SettledPlaceFits | packages/resource-replica/src/folder-namespace.ts:620-671 | An accepted answer gives a first place only under a held id, otherwise a refresh to wait for |
| FolderSteps.AnsweredHoldFits | packages/resource-replica/src/server-hold.ts:27-34 | Only the answer to the create in flight changes the hold, and it lands where the record says it may |
| FolderSteps.ReplacingIsAllowedExactly | packages/resource-replica/src/folder-namespace.ts:491-508 | Replacing one live intent is allowed if and only if the replacement stands |
| FolderSteps.OthersAtRest | packages/resource-replica/src/folder-namespace.ts:510-618 | Only the first live intent is ever in flight |
| FolderProtocol.ActKeepsSafe | packages/resource-replica/src/server-hold.ts:11-39 | The commands, steps, remints and awaited observations of the device, the server and the network keep the invariant: the record is stored, coherent and storable again, the hold tells the truth, copies fly only while it is `uncertain`, left ids are out of reach |
| FolderProtocol.RunIsSafe | packages/resource-replica/src/server-hold.ts:11-39 | The invariant holds in every state of every run of those acts from a folder created here |
| FolderProtocol.WritesAreTaken | packages/resource-replica/src/folder-namespace.ts:592-772 | In every reachable state the store takes every recorded answer, settled answer, planned move and awaited observation |
| FolderProtocol.PreparationsAreTakenExactly | packages/resource-replica/src/folder-namespace.ts:510-590 | In every reachable state the store takes a preparation if and only if it is not a delete the hold keeps from the server |
| FolderProtocol.DeletionsAreTakenExactly | packages/resource-replica/src/folder-namespace.ts:203-258 | In every reachable state a deletion is taken if and only if it needs the server or everything in the journal can be retired |
| FolderProtocol.RemintedIsSound | packages/resource-replica/src/folder-remint.ts:18-49 | From a record of such a state with nothing in flight, a remint is taken if and only if no delete is queued behind the failed placement |
| FolderRuns.QueuedDeleteIsRefused | packages/resource-replica/src/folder-namespace.ts:510-590 | A run: create sent, delete queued, create refused and settled; the delete then prepared is refused |
| FolderRuns.WaitingRefusalBlocksDeletion | packages/resource-replica/src/folder-namespace.ts:203-258 | A run: create sent and refused; before the refusal is settled the writer's deletion is refused |
| FolderRuns.QueuedDeleteBlocksRemint | packages/resource-replica/src/folder-remint.ts:18-49 | A run: create sent, delete queued, the created row put out of reach and answered so; the remint is refused |
| FolderProtocol.LocalMeansNothingThere | packages/resource-replica/src/server-hold.ts:12-13 | `local` implies the server has nothing under the id and nothing on its way can put it there |
| FolderProtocol.CreatesLeaveFromLocal | packages/resource-replica/src/folder-namespace.ts:510-590 | In every run a create goes in flight only from `local` |
| FolderProtocol.HeldStays | packages/resource-replica/src/server-hold.ts:15-16 | `held` is never lost, under the same id, and the server's row is there |
| FolderProtocol.StoredDeletionIsLocal | packages/resource-replica/src/server-hold.ts:36-39 | The rule takes a deletion settled here only while the server does not hold the folder |
| FolderProtocol.DeletedHereForGood | packages/resource-replica/src/folder-namespace.ts:203-258 | After a deletion settled here no row of the folder is in reach of the writer, ever again |
| FolderProtocol.NothingAfterDeletion | packages/resource-replica/src/folder-namespace.ts:510-671 | After it nothing can be prepared, answered, settled or reminted |
| FolderProtocol.AtMostOneRow | packages/resource-replica/src/folder-remint.ts:18-49 | The server never shows the folder under two ids, however often it was reminted |
| CopyJournal.OutermostIsApart | packages/resource-replica/src/operation-journal.ts:196-214 | No kept root lies in another kept folder or shares its place |
| CopyJournal.CarriedByKept | packages/resource-replica/src/operation-journal.ts:196-214 | Every dropped root lies at or under the place of a kept one, however long the chain between |
| CopyJournal.SomethingIsSent | packages/resource-replica/src/operation-journal.ts:196-214 | A selection never collapses to nothing |
| CopyJournal.FindReceiptPlaces | packages/resource-replica/src/operation-journal.ts:335-360 | The loop gives the places of the answer, or nothing when a sent root is missing or of another kind |
| CopyJournal.PlacedExactly | packages/resource-replica/src/operation-journal.ts:335-360 | The roots given a place are exactly those sent and named in the answer |
| CopyJournal.SentOrCollapsed | packages/resource-replica/src/operation-journal.ts:253-290 | Each root is sent or dropped, never both |
| CopyJournal.CopyIsSent | packages/resource-replica/src/operation-journal.ts:222-285 | A waiting Copy whose destination and sources are known is sent to the area asked for, naming each outermost root, its new id and its kind, and no other |
| CopyJournal.ActKeepsSound | packages/resource-replica/src/operation-journal.ts:110-394 | Preparing, recording, settling and resolving keep every root's record in step with the operation |
| CopyJournal.RunIsSound | packages/resource-replica/src/operation-journal.ts:110-394 | That holds in every state of every run |
| CopyJournal.NoRootIsOrphaned | packages/resource-replica/src/operation-journal.ts:368-394 | Once settled each root stands where the answer put it (`CopyJournal.SettledRootStandsThere`) or is gone; once refused all are gone |
| CopyJournal.SettledRootStandsThere | packages/resource-replica/src/operation-journal.ts:335-360 | A settled root stands at the displayed path and name the answer gives its copy, in the scheme and under the owner asked for |
| CopyJournal.ResolvedIsSound | packages/resource-replica/src/operation-journal.ts:478-491 | Dismissing a refused Copy leaves no root behind |
| CopyStore.WritesAreTaken | packages/resource-replica/src/operation-journal.ts:64-394 | The store's rule takes the new Copy and, in every state it comes to, whatever is written next: the request, its answer, the settlement, a refusal, the dismissal |
| CopyStore.RunIsRecorded | packages/resource-replica/src/operation-journal.ts:64-394 | In every state of every run the operation holds one Copy intent, sent at most once and under its own id, with an answer exactly where its state needs one |
| CopyStore.BlockedIsLast | packages/resource-replica/src/operation-journal.ts:478-491 | A Copy whose journal takes no update any more is at its end: no act writes it again |
| CopyStore.DismissedIsBlocked | packages/resource-replica/src/operation-journal.ts:368-491 | A run: a Copy of one root is accepted without naming its copy, so refused and dismissed; its journal is then blocked |
| Paths.SplitOfJoin | packages/contracts/src/context-uri.ts:223-227 | Splitting undoes joining for segments without a slash |
| ContextUri.ParsedIsNormalized | packages/contracts/src/context-uri.ts:187-253 | Whatever parses has a proper path and an authority its scheme takes, and `normalized` is its formatting |
| ContextUri.ParseUndoesFormat | packages/contracts/src/context-uri.ts:187-253 | Parsing undoes formatting if and only if the path has no line terminator and no white space at its end |
| ContextUri.HandleAuthority | packages/contracts/src/context-uri.ts:275-309 | A formatted owner qualifier reads back as the same authority |
| ContextUri.ParsedIsShorter | packages/contracts/src/context-uri.ts:187-253 | What is read is never longer than what was written |
| DocumentHref.DecodeUndoesEncode | packages/contracts/src/document-href.ts:148-167 | Decoding undoes encoding, for every text |
| DocumentHref.EscapesAreUtf8 | packages/contracts/src/document-href.ts:148-156 | An escape is decoded if and only if the text starts with the escaped UTF-8 bytes of a character, one to four of them, in either case of letter, and as that character |
| DocumentHref.DecodePathUndoes | packages/contracts/src/document-href.ts:148-167 | Decoding a path undoes encoding it, segment by segment |
| DocumentHref.EncodePathIsEncode | packages/contracts/src/document-href.ts:162-167 | Encoding by segment is encoding the whole |
| DocumentHref.WalkPath | packages/contracts/src/document-href.ts:39-48 | The segment loop is the walk through `..`, or fails above the top |
| DocumentHref.ShiftShared | packages/contracts/src/document-href.ts:68-75 | The shift loop drops exactly the shared front |
| DocumentHref.RelativeLeadsThere | packages/contracts/src/document-href.ts:68-79 | The relative spelling's segments lead from the holder's folder to the target |
| DocumentHref.SpelledResolvesExactly | packages/contracts/src/document-href.ts:18-88 | A spelled target resolves from its holder to the same kind and address if and only if its relative spelling reads as no scheme, or its full address can be stored |
| DocumentHref.FullResolvesExactly | packages/contracts/src/document-href.ts:18-54 | A full spelling resolves from anywhere to the same kind, address and suffix if and only if the address can be stored |
| DocumentHref.StoredHrefResolvesExactly | packages/contracts/src/document-link.ts:190-194 | A stored href names its target and suffix wherever it is read, if and only if the address can be stored |
| DocumentHref.NamesSpellExactly | packages/contracts/src/document-href.ts:18-88 | The canonical address of accepted names is spelled, from any holder, if and only if no name holds a line terminator, and then leads back; otherwise it is refused as no target |
| DocumentHref.LineSeparatorIsRefused | packages/contracts/src/document-href.ts:56-59 | `a`, U+2028, `b` is an accepted name, and the link to it is refused from every holder |
| DocumentHref.UnstorableChanges | packages/contracts/src/context-uri.ts:187-253 | An address that cannot be stored reads back as another |
| Catalog.Descendants | packages/resource-replica/src/catalog.ts:36-53 | The fixpoint ends on any parents, cycles included, with exactly the root and the rows whose parent chain reaches it |
| Catalog.ApplyCommit | packages/resource-replica/src/catalog.ts:55-74 | One commit, its changes from the least ordinal up and those of one ordinal as listed: an entry is there after it if and only if it was upserted and no later change wrote, deleted or invalidated it, or it was there and none touched it |
| Catalog.CommitLeaves | packages/resource-replica/src/catalog.ts:55-74 | That account of a commit fits exactly what its sorted changes make of any entries |
| Catalog.UpsertOutlives | packages/resource-replica/src/catalog.ts:55-74 | An upsert outlives every change of a lower ordinal, the invalidation of its own subtree included |
| Catalog.ReplacedSubtreeIsThere | packages/resource-replica/src/catalog.ts:55-74 | A folder invalidated and written again with a document in it, listed in any order of ordinals, is there with the document |
| Catalog.ListingDecidesNothing | packages/resource-replica/src/catalog.ts:55-74 | The order in which a commit lists its changes decides nothing while their ordinals differ |
| Catalog.ApplyCatalogChanges | packages/resource-replica/src/catalog.ts:133-175 | A page applies whole or not at all, and the installed view never changes |
| Catalog.LogBrings | packages/resource-replica/src/catalog.ts:133-175 | Each commit of the log brings what `Catalog.CommitLeaves` says to what the ones before it left |
| Catalog.PageAgrees | packages/resource-replica/src/catalog.ts:133-175 | However the log is cut into pages, repeated or overlapped, what applies leaves the fold of whole commits up to the applied revision |
| Catalog.ReplayIsNothing | packages/resource-replica/src/catalog.ts:133-175 | Applying a page again changes nothing |
| Catalog.PagesAreOne | packages/resource-replica/src/catalog.ts:133-175 | Two pages in a row are one page of both |
| Catalog.IndexCatalogView | packages/resource-replica/src/catalog.ts:85-119 | Each row is listed once, under its own parent and nowhere else, in display order; each source under its scheme |
| Catalog.IndexIsUnique | packages/resource-replica/src/catalog.ts:85-119 | The index does not depend on the order the entries are read in |
| Siblings.SiblingsAreOrdered | packages/resource-replica/src/sibling-order.ts:13-46 | Both display orders are total and transitive when the collator is |
| SiblingLists.SortingFits | packages/resource-replica/src/catalog.ts:97-117 | Sorting a parent's list keeps what it holds and puts it in display order |
| SiblingLists.ListIsUnique | packages/resource-replica/src/sibling-order.ts:31-46 | One list holds a parent's rows in display order |
| SiblingLists.ShownBefore | packages/resource-replica/src/sibling-order.ts:13-46 | Of two rows shown one before the other, ranks rise under a manual parent; under another, folders come first and names go as the collator has them |
| Sorting.SortedIsUnique | packages/resource-replica/src/sibling-order.ts:31-46 | One order of the same elements is sorted when no two tie |
| OptimisticOrder.Baseline | packages/resource-replica/src/optimistic-sibling-order.ts:85-106 | The lists partition the rows by parent, in display order; marked parents are the manual ones with a listed child |
| OptimisticOrder.PlacedKeepsPartition | packages/resource-replica/src/optimistic-sibling-order.ts:119-149 | Each placement keeps every row in exactly one list, the one its parent names |
| OptimisticOrder.PlacedKeepsOrder | packages/resource-replica/src/optimistic-sibling-order.ts:119-149 | Lists not shown by rank stay in name order through every placement |
| OptimisticOrder.LandedHolds | packages/resource-replica/src/optimistic-sibling-order.ts:138-146 | The list a row lands in holds what it held and the row |
| OptimisticOrder.PlacedWhereAsked | packages/resource-replica/src/optimistic-sibling-order.ts:19-44 | A positioned row lands first, last, right before or right after its anchor as asked, among others that keep their order |
| OptimisticOrder.AnchorGoneKeepsPlace | packages/resource-replica/src/optimistic-sibling-order.ts:34-41 | With its anchor gone a row of the list leaves the list exactly as it was, and a newcomer goes last |
| OptimisticOrder.FoldPlacements | packages/resource-replica/src/optimistic-sibling-order.ts:118-149 | The loop computes the fold of the placements, oldest first |
| OptimisticOrder.FoldedKeeps | packages/resource-replica/src/optimistic-sibling-order.ts:118-149 | Over the whole fold rows never placed stay where they were, and nothing appears from nowhere |
| OptimisticOrder.AllArrive | packages/resource-replica/src/optimistic-sibling-order.ts:125-149 | After the fold each row stands under the parent the projection shows |
| OptimisticOrder.RanksRise | packages/resource-replica/src/optimistic-sibling-order.ts:156-160 | Zero-padded ranks sort as their numbers do, below 10^12 |
| OptimisticOrder.AssignRanks | packages/resource-replica/src/optimistic-sibling-order.ts:151-161 | The loop over marked parents computes all ranks and policies, in any order |
| OptimisticDisplay.DisplayIsFoldExactly | packages/resource-replica/src/optimistic-sibling-order.ts:85-162 | Rows show in the fold's order if and only if readers rank the parent exactly when it listed a child as a manual parent or got a positioned placement, or the ranks or names the rows had agree with that order; below 10^12 siblings |
| OptimisticDisplay.FoldedManual | packages/resource-replica/src/optimistic-sibling-order.ts:138-141 | A parent is ordered by rank after a prefix of the placements if and only if it was before them or one of them positioned a row under it |
| OptimisticDisplay.ProjectOptimisticSiblingOrder | packages/resource-replica/src/optimistic-sibling-order.ts:54-163 | The whole projection: unchanged without placements, otherwise the fold's lists, displayed under each parent if and only if that condition holds |
| OptimisticDisplay.BaselineIsUnique | packages/resource-replica/src/optimistic-sibling-order.ts:85-117 | There is one baseline, so one projection of the placements |
| OptimisticDisplay.ArrivalsShowInOrder | packages/resource-replica/src/optimistic-sibling-order.ts:143-146 | The order in which the last two placements bring rows under a parent decides its list if and only if the fold orders that parent by rank; the later row is then shown last |
| OptimisticDisplay.FirstArrivalsShowByOldRanks | packages/resource-replica/src/optimistic-sibling-order.ts:98-162 | Two rows named a and b, ranked 2 and 1, dragged one after the other into an empty manual folder: b is shown first |
| WordHunks.EncodeToken | packages/agent-edit/src/word-hunks.ts:17-31 | A token gets its one code, a new one only where it has none |
| WordHunks.EncodeTokens | packages/agent-edit/src/word-hunks.ts:17-31 | A text is coded token by token; refused exactly when the tokens outnumber the codes, and earlier codes keep their meaning |
| WordHunks.TokensSpell | packages/agent-edit/src/word-hunks.ts:11-16 | The tokens of a text spell it |
| WordHunks.TokensAreCut | packages/agent-edit/src/word-hunks.ts:11-16 | Each token is what the tokenizer cuts off the rest of the text |
| WordHunks.PartsSpellSides | packages/agent-edit/src/word-hunks.ts:27-34 | The chunks' decoded texts spell what the two sides of the diff decode to |
| WordHunks.ReadKeeps | packages/agent-edit/src/word-hunks.ts:36-56 | Each chunk adds its part of the new text to what the hunks make of the old one |
| WordHunks.ReadChunks | packages/agent-edit/src/word-hunks.ts:36-58 | The loop's hunks are ordered and apart, turn the old side into the new, and are one for each maximal run of deleted and inserted chunks, standing where the run does, as long as its deletes and with its inserts as text |
| WordHunks.HunkReplacesDeletes | packages/agent-edit/src/word-hunks.ts:36-58 | The piece of `before` a hunk replaces is exactly the text its run deletes |
| WordHunks.KeptLiesOutside | packages/agent-edit/src/word-hunks.ts:36-58 | No hunk touches the text of a kept chunk |
| WordHunks.NoEditNoHunk | packages/agent-edit/src/word-hunks.ts:36-58 | There are no hunks if and only if nothing was deleted or inserted |
| WordHunks.OneWordReplaced | packages/agent-edit/src/word-hunks.ts:36-58 | `the cat sat` to `the dog sat`, read chunk by chunk, is the one hunk 4 to 7, `dog` |
| WordHunks.FindWordHunks | packages/agent-edit/src/word-hunks.ts:10-59 | Applying the hunks to `before` gives exactly `after`, for any tokenizer that cuts and any diff whose chunks spell both texts, and the hunks are the runs of edits of that diff |

## Left out

- Reconcile loops, transports, locks, promise joining and clocks: asynchronous wiring. Times, lookups and answers are parameters.
- The document (resource) planners and steps of `resource-namespace.ts` and `resource-remint`: they go through the same journal policy, settling and remint modelled here; the folder's are modelled whole.
- `owningLocationIntent`, `placementOps` and the operations already placed: the owning placement of a folder and the ordered list of pending placements are parameters.
- `resourceContextAuthority` and the admission of placements: the planners' checks of work authority are not part of this model.
- `place()` of the placement graph, which places one document by the finished graph.
- `retiredOperations` and the resend of a source that is behind (`behindSince`): a Copy is modelled from planning to dismissal. Of a root's record the model keeps only whether it waits or where it stands; that the store may fail to place one is an act (`PlacingFails`).
- `folderDeletionSettlement`, `planFolderDeletionResources`, `installFolderNamespaceAvailability` and the catalog installers that set a hold: of the observations, only the one an accepted move waits for (`installFolderCanonicalRefresh`) is an act of the protocol, and `canonicalRank`, `canonicalOrderPolicy` and `canonicalLocationVersion` are not part of the record.
- `writtenOnlyBy`, `createReplyMutations`, `projectSeedFrontier` and `planningSnapshot`: bookkeeping around the frontier algebra.
- Raw HTML protection, fenced blocks and the search for enclosed destinations in `escape.ts`: they depend on a Markdown parser. The enclosed destinations found are a parameter; safety and idempotence are stated without any.
- The diff and the tokenizer's Unicode classes: taken by contract (`Diffs`, `Cuts`).
- Parse options (allowed schemes, default of bare paths), error texts and slips of `context-uri.ts`: errors are constructors; branch and chat-alias helpers are not part of this model.
- Link matching by path key and omitted extensions in `document-href.ts` and `document-link.ts`.
- Strings are sequences of characters, compared character by character; a JavaScript string's surrogate pairs are not told apart. White space and line terminators are the ones JavaScript's `trim` and `.` use.
- Numbers are integers: journal sequences are held below the largest safe integer, times are whole milliseconds or not finite, revisions are natural numbers or unreadable.
- Values the source compares as JSON text are compared as values: the order of keys in an object does not exist in the model.
- The empty string as a folder id: the placement cursor takes it for "no folder", so `FolderGraph.BuildGraph` requires ids that are not empty.
- An absent previous journal is an empty one: the rule treats both alike.
- In-place updates of maps and arrays in the catalog, sibling and journal code are assignments of whole values to local variables; aliasing of the arrays is not modelled. The matcher's two tables are real arrays.
- EscapeSyntax.TryConsumeJsxTag: the grammar of `EscapeGrammar` is the one the escaper recognizes, wider than the MDX grammar: an attribute may follow another without white space, for example.
- OptimisticDisplay.DisplayIsFoldExactly: is stated for at most 10^12 siblings, since longer ranks are not padded to one width.
