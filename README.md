# AVA-2 PageRank teaching tool: a verified model of its core

AVA-2 is a web application that teaches PageRank. It has three parts:

- a demo page that steps through a prepared PageRank run;
- a chat assistant whose replies carry new graph snapshots;
- a "structure view" that turns the links of an HTML page into a page tree, walks that tree breadth-first or depth-first, and lets visitors' votes flow along its links.

This project models, in Dafny, the logic behind those screens and proves what it promises:

- **PageRank.** The calculator class is modelled with its initialisation, one iteration, the run to convergence with normalisation, and the step-by-step driver. The proofs cover how rank mass moves in one step and what the run returns.
- **Vote flow.** This is the single step in which every page hands its votes evenly to its link targets. The model keeps the in-place arrays and maps of the source. The proofs show that the new ranks sum to 1, that every flow is its source's share, and that no votes are lost when every target is known.
- **Link parsing.** The node ids derived from link paths, the nodes collected from the anchors, and the parent link inferred for each node. The inferred links always form a tree rooted at `home`.
- **Walks.** The breadth-first and depth-first orders list exactly the nodes reachable from the start, each once. The cycle check answers exactly whether the adjacency has a directed cycle.
- **Structure view.** The tag-nesting check of the HTML editor, the child map of the navigation bar, the graph snapshot built from the parse, and the step buttons of the walk.
- **Protocol.** The request validator of the chat protocol, with its defaults and its exact error lists.
- **Clients and stores.** The request headers (`Authorization` from the token or the access code, non-ASCII values dropped), the access store with its checked setters and one-time settings fetch, and the student-id validation and storage.
- **Demo page.** The forward and backward step cycle, the reset, the chat-input guard and the acceptance of a reply's graph.
- **Ranking panel and bar chart.** The ranking panel's stable sort by rank, and the bar chart's first-difference search.

Modules follow the source files, one per file, plus these helper modules:

| Module | Holds |
|---|---|
| `Wrappers` | `Option` |
| `Seqs` | distinctness and first occurrences |
| `JsText` | JavaScript's `trim`, ASCII tests, digits |
| `Json` | JavaScript values with truthiness, `||`, `??` and object spread |
| `PageRankProperties` | the mass-balance lemmas about one PageRank step |

Ranks, votes and flows are `real`. Clocks, `localStorage`, `JSON.parse` and the build mode become parameters or fields.

Where the prose description of vote flow and the code disagree, the model follows the code:

- The new ranks are normalised to sum to 1, not to a total of 100 votes.
- Every link counts in its source's out-degree, duplicates included.
- A link to an id that is not a node keeps its share of the out-degree, but that share is delivered nowhere, so those votes leave the total before normalisation.

Behaviour the model keeps as written:

- **Mode change.** `handleModeChange` in app/components/tree-visualization.tsx builds the new snapshot with the traversal mode of the render before the change. `HandleModeChange` states that the mode is stale.
- **Fetched settings.** `fetch` in app/store/access.ts merges the server's reply into the store unchecked. The reply can therefore set `cozeApiKey` to text the checked setter would refuse. `FinishFetch` states this.
- **Array difference.** The bar chart starts its animation for an old array shorter than five that differs. `findArrayDifference` then finds no position, because the lengths differ. `ShorterOldArray` shows such an input.

## Model

| member | source | states |
|---|---|---|
| VoteFlow.RunVotingStep | app/utils/vote-flow.ts:10-91 | every node's rank becomes its share of the new votes, every link's flow its scaled share, the iteration count goes up by one, other parameters copied |
| VoteFlow.BuildIndexMap | app/utils/vote-flow.ts:29-32 | the map holds exactly the node ids, each at the index of its last node |
| VoteFlow.BuildDegreeMap | app/utils/vote-flow.ts:35-38 | the map holds exactly the ids that are sources of links, each with its number of outgoing links |
| VoteFlow.Distribute | app/utils/vote-flow.ts:41-70 | new votes of every node are what it receives plus what it keeps when it has no out-link; each link's raw flow is its source's share when its target is known |
| VoteFlow.SendAlongLinks | app/utils/vote-flow.ts:56-65 | one node's share is added to each known target of its links and recorded as the flow of those links, nothing else changes |
| VoteFlow.SumVotes | app/utils/vote-flow.ts:73 | the reduction is the total of the new votes |
| VoteFlow.NormalizeRanks | app/utils/vote-flow.ts:76-80 | every rank becomes the node's share of the total, 0 when the total is not positive |
| VoteFlow.ScaleFlows | app/utils/vote-flow.ts:83-88 | every flow is scaled to a total of 100 votes when the total is positive and kept otherwise |
| VoteFlow.IndexOfIsLast | app/utils/vote-flow.ts:29-32 | the index found holds the id and no later node does; none is found exactly when no node has the id |
| VoteFlow.OutDegreeZero | app/utils/vote-flow.ts:35-38 | the out-degree is 0 exactly when no link leaves the id |
| VoteFlow.DeliveredAnywhereAllKnown | app/utils/vote-flow.ts:56-65 | when every target is known, a node delivers its share once per outgoing link |
| VoteFlow.RanksSumToOne | app/utils/vote-flow.ts:73-80 | when the total of new votes is positive, the new ranks sum to 1 |
| VoteFlow.StepNonNegative | app/utils/vote-flow.ts:44-88 | non-negative ranks give non-negative votes, ranks and flows |
| VoteFlow.RawFlowIsSourceShare | app/utils/vote-flow.ts:56-65 | a link's recorded flow is the share of its source when both ends are nodes, 0 otherwise |
| VoteFlow.StepFlowIsShare | app/utils/vote-flow.ts:83-88 | the final flow of a link is its source's share scaled by 100 over the total |
| VoteFlow.KeeperKeepsVotes | app/utils/vote-flow.ts:66-69 | a node without out-links keeps at least its own votes |
| VoteFlow.VotesConserved | app/utils/vote-flow.ts:44-73 | when every link target is a node, the new votes total 100 times the old rank total |
| VoteFlow.SampleStep | app/utils/vote-flow.ts:10-91 | a four-node sample, whose node D has no in-links, moves the ranks to 0.25, 0.125, 0.625 and 0 |
| PageRank.PageRankCalculator.constructor | app/utils/pagerank.ts:36-40 | an empty graph with the given damping factor, threshold and iteration bound |
| PageRank.PageRankCalculator.InitializeGraph | app/utils/pagerank.ts:45-69 | one node per distinct id with rank 1 over the number of ids given, and in/out lists from the links whose ends are both nodes; links copied |
| PageRank.PageRankCalculator.AddNodes | app/utils/pagerank.ts:50-57 | the table holds exactly the given ids in first-occurrence order, each with the uniform rank and no links |
| PageRank.PageRankCalculator.AddLinks | app/utils/pagerank.ts:60-68 | every link between two nodes is added to its source's out-list and its target's in-list, in link order |
| PageRank.PageRankCalculator.Iterate | app/utils/pagerank.ts:74-106 | every rank becomes teleport plus damped in-flow, and the answer is whether the largest change is below the threshold |
| PageRank.PageRankCalculator.ComputeNewRanks | app/utils/pagerank.ts:75-94 | the new rank of every node is the damped sum over its in-links of each source's rank per out-link, plus the teleport share |
| PageRank.PageRankCalculator.ApplyNewRanks | app/utils/pagerank.ts:97-103 | writes the new ranks and returns the largest absolute change |
| PageRank.PageRankCalculator.Calculate | app/utils/pagerank.ts:111-138 | iterates until converged or out of iterations, then normalises; the result reports the iterations, convergence and the normalised ranks |
| PageRank.PageRankCalculator.Normalize | app/utils/pagerank.ts:121-124 | every rank is divided by the rank total |
| PageRank.PageRankCalculator.DivideRanks | app/utils/pagerank.ts:122-124 | every node's rank is divided by the given total, nothing else changes |
| PageRank.PageRankCalculator.Snapshot | app/utils/pagerank.ts:126-137 | a result lists the nodes with their ranks in insertion order, the links and the parameters |
| PageRank.PageRankCalculator.GetCurrentState | app/utils/pagerank.ts:143-156 | the current ranks at iteration 0, not converged |
| PageRank.CalculatePageRankStepByStep | app/utils/pagerank.ts:162-194 | one result for the initial state and one per iteration run, each with the ranks after that many steps and its convergence flag |
| PageRank.Ranked | app/utils/pagerank.ts:127-130 | the nodes as id and rank pairs, in order |
| PageRank.IterateNext | app/utils/pagerank.ts:115-118 | k+1 iterations are one more step after k |
| PageRank.RunWithinBudget | app/utils/pagerank.ts:115-118 | the loop runs at most the bound, the whole bound unless it converged, and at least once when it converged |
| PageRank.RunTable | app/utils/pagerank.ts:115-118 | the ranks the loop leaves are the start iterated as many times as the loop counts |
| PageRank.RunConvergedAtLast | app/utils/pagerank.ts:115-118 | the run reports convergence exactly when its last step changed every rank by less than the threshold |
| PageRank.RunEarlierUnconverged | app/utils/pagerank.ts:115-118 | every step before the last changed some rank by at least the threshold |
| PageRankProperties.TableSize | app/utils/pagerank.ts:76 | the map's size, the divisor of the teleport share, is the number of distinct ids |
| PageRankProperties.NewRankFloor | app/utils/pagerank.ts:77-92 | with non-negative ranks every new rank is at least the teleport share |
| PageRankProperties.NoUsableLinksGiveTeleport | app/utils/pagerank.ts:60-92 | without a link between two nodes every new rank is exactly the teleport share |
| PageRankProperties.MaxDiffBelow | app/utils/pagerank.ts:97-105 | convergence holds exactly when every node moved by less than a positive threshold |
| PageRankProperties.FlowSumsAreLinkFlow | app/utils/pagerank.ts:60-92 | summed over all nodes, the rank received along in-links equals the rank sent along out-links |
| PageRankProperties.SteppedRankSum | app/utils/pagerank.ts:74-94 | after a step the ranks sum to 1 minus the damping factor plus the damped rank that nodes with out-links pass on |
| PageRankProperties.SumStaysOne | app/utils/pagerank.ts:74-94 | when every node has an out-link, a step keeps a rank total of 1 |
| PageRankProperties.SumShrinks | app/utils/pagerank.ts:74-94 | a dangling node with positive rank makes the total fall below 1, which is why the run normalises |
| PageRankProperties.InitialRanks | app/utils/pagerank.ts:45-57 | for distinct ids the initial ranks sum to 1 |
| PageRankProperties.NormalizedSumsToOne | app/utils/pagerank.ts:121-124 | after normalisation by a non-zero total the ranks sum to 1 |
| PageRankProtocol.ValidateRequest | app/api/protocols/pagerank-protocol.ts:120-179 | throws exactly when an additional message is null or undefined; otherwise the errors are the basic, custom-variable and message errors in order, and the request is valid exactly when there are none |
| PageRankProtocol.CheckBasicFields | app/api/protocols/pagerank-protocol.ts:124-127 | the errors of the four basic fields, in order |
| PageRankProtocol.CheckCustomVariables | app/api/protocols/pagerank-protocol.ts:130-152 | the custom-variable errors, including the parse failure |
| PageRankProtocol.CheckMessages | app/api/protocols/pagerank-protocol.ts:159-171 | throws exactly when a message is nullish; otherwise the three checks of every message, in message order |
| PageRankProtocol.PushMessageErrors | app/api/protocols/pagerank-protocol.ts:160-170 | appends the role, content and content-type errors of one message |
| PageRankProtocol.CheckAdditionalMessages | app/api/protocols/pagerank-protocol.ts:155-173 | no errors without messages, a format error for a non-array, the per-message errors otherwise |
| PageRankProtocol.BasicErrorsExact | app/api/protocols/pagerank-protocol.ts:124-127 | each basic error is reported exactly when its field is missing or falsy |
| PageRankProtocol.CustomVariableErrorsCases | app/api/protocols/pagerank-protocol.ts:130-152 | missing custom variables give that one error, and there are never more than three |
| PageRankProtocol.MessagesErrorsTagged | app/api/protocols/pagerank-protocol.ts:159-171 | at most three errors per message, each naming a message index below the count |
| PageRankProtocol.WellFormedMessageHasNoErrors | app/api/protocols/pagerank-protocol.ts:160-170 | a user or assistant message with text content yields no error |
| TreeParser.NodeIdShape | app/utils/tree-parser.ts:49-79 | every node id is non-empty, not `index`, and made of lower-case letters, digits and hyphens |
| TreeParser.JoinIdParts | app/utils/tree-parser.ts:67-74 | a parent path is put before the file's slug as its own slug and a hyphen |
| TreeParser.ParentSlugIsSlug | app/utils/tree-parser.ts:60-72 | the parent path's chain of replacements gives the same slug as the file name's chain |
| TreeParser.SlugShape | app/utils/tree-parser.ts:60-64 | a slug is lower-case letters, digits and single hyphens, empty only for empty text |
| TreeParser.ExtensionIgnored | app/utils/tree-parser.ts:60-61 | a file name and the same name with an extension give the same id |
| TreeParser.DriveIgnored | app/utils/tree-parser.ts:49-52 | a drive prefix does not change the id |
| TreeParser.LeadingSeparatorIgnored | app/utils/tree-parser.ts:49-52 | a leading slash or backslash does not change the id |
| TreeParser.BackslashesAsSlashes | app/utils/tree-parser.ts:49-50 | a path written with backslashes gives the same id as with slashes |
| TreeBuild.ParseLinks | app/utils/tree-parser.ts:25-217 | counts the accepted anchors, keeps one node per id plus `home`, links every other node from its parent, and the result is a tree rooted at `home` |
| TreeBuild.CollectNodes | app/utils/tree-parser.ts:39-94 | the nodes merged by id from the accepted anchors, and their count |
| TreeBuild.LinkParents | app/utils/tree-parser.ts:151-194 | one link per node other than `home`, from the longest hyphen prefix that is a node, or from `home` |
| TreeBuild.LinkOrphans | app/utils/tree-parser.ts:196-210 | every node other than `home` ends up with a parent link, and the links are kept when they already had one |
| TreeBuild.FindParent | app/utils/tree-parser.ts:159-178 | finds a parent exactly when some prefix before a hyphen is a node id, and then the longest one |
| TreeBuild.HyphenParentLongest | app/utils/tree-parser.ts:159-178 | the parent found is the longest node-id prefix before a hyphen |
| TreeBuild.NodesFromAnchors | app/utils/tree-parser.ts:39-94 | distinct ids, exactly those of the accepted anchors, each with its first href and last label |
| TreeBuild.NodesAtMostParsed | app/utils/tree-parser.ts:44-46 | never more nodes than accepted anchors |
| TreeBuild.WithHomeIds | app/utils/tree-parser.ts:137-144 | adding `home` keeps ids distinct and makes `home` one of them |
| TreeBuild.InferredLinksShape | app/utils/tree-parser.ts:151-194 | every link goes from a node's parent to it, and every node other than `home` gets one |
| TreeBuild.InferredTargetsDistinct | app/utils/tree-parser.ts:151-194 | no node has two parent links |
| TreeBuild.InferredAcyclic | app/utils/tree-parser.ts:151-194 | the inferred links contain no cycle |
| TreeBuild.ReachableFromHome | app/utils/tree-parser.ts:151-194 | every node is reachable from `home` |
| TreeBuild.InferredTree | app/utils/tree-parser.ts:137-210 | the nodes and inferred links form a tree rooted at `home` |
| TreeBuild.TreeReachesExactlyNodes | app/utils/tree-parser.ts:137-210 | in such a tree the ids reached from `home` are exactly the node ids |
| TreeGraph.BuildAdjacency | app/utils/tree-parser.ts:232-241 | an empty list per node, then each link's target under its source when the source is a node |
| TreeGraph.AdjacencyOf | app/utils/tree-parser.ts:232-241 | the adjacency has exactly the node ids as keys and lists exactly the targets of their links |
| TreeGraph.EnqueueUnvisited | app/utils/tree-parser.ts:252-258 | the queue grows by the unvisited neighbours in list order |
| TreeGraph.GenerateBfsOrder | app/utils/tree-parser.ts:226-263 | starts at the start node, lists each node reachable from it exactly once, and every later node is reached by an edge from an earlier one |
| TreeGraph.BfsEnd | app/utils/tree-parser.ts:244-262 | at an empty queue the order holds exactly the reachable ids |
| TreeGraph.Dfs | app/utils/tree-parser.ts:288-298 | visits the node if new, then everything reachable from it through unvisited nodes, extending the order |
| TreeGraph.GenerateDfsOrder | app/utils/tree-parser.ts:272-306 | starts at the start node, lists each reachable node exactly once, each later one reached from an earlier one |
| TreeGraph.HasCycleFrom | app/utils/tree-parser.ts:330-347 | a cycle reported is a real cycle; otherwise everything reachable is finished and the stack restored |
| TreeGraph.IsTreeAcyclic | app/utils/tree-parser.ts:314-356 | acyclic exactly when the adjacency has no directed cycle |
| TreeGraph.NoCycleWhenFinished | app/utils/tree-parser.ts:349-355 | once every node finished with no back edge, there is no cycle |
| TreeVisualization.CheckHtmlSyntax | app/components/tree-visualization.tsx:227-274 | accepts exactly the tag sequences in which every opening non-void tag is closed by the same name, properly nested |
| TreeVisualization.RunIffNested | app/components/tree-visualization.tsx:229-273 | the stack check succeeds exactly on properly nested token sequences |
| TreeVisualization.NeutralIgnored | app/components/tree-visualization.tsx:237-240 | a self-closing or void tag never changes the verdict |
| TreeVisualization.UnbalancedRejected | app/components/tree-visualization.tsx:243-273 | more openings than closings, or the reverse, is rejected |
| TreeVisualization.ClosingFirstRejected | app/components/tree-visualization.tsx:243-248 | a closing tag with nothing open is rejected |
| TreeVisualization.CaseExamples | app/components/tree-visualization.tsx:246-266 | tag names match case-sensitively, while the void list ignores case |
| TreeVisualization.BuildChildMap | app/components/tree-visualization.tsx:152-166 | `home` keeps its three children; every other parent lists its children among the keys, each once, in first-seen order |
| TreeVisualization.ChildListedOnce | app/components/tree-visualization.tsx:158-164 | a child with a parent appears exactly once in its parent's list |
| TreeVisualization.ChildMapShape | app/components/tree-visualization.tsx:158-164 | only parents with children get an entry, and every listed child has that parent |
| TreeVisualization.GenerateGraphData | app/components/tree-visualization.tsx:176-202 | every node gets the same rank, every link a flow of 0, iteration 0 and the fixed parameters |
| TreeVisualization.InitialRanksSumToOne | app/components/tree-visualization.tsx:180-188 | the initial ranks sum to 1 |
| TreeVisualization.Step | app/components/tree-visualization.tsx:318-330 | `next` advances along the order until its end, `prev` goes back but not below step 1, `reset` returns home |
| TreeVisualization.StepKeepsInStep | app/components/tree-visualization.tsx:318-330 | the step index stays within the order |
| TreeVisualization.PrevUndoesNext | app/components/tree-visualization.tsx:318-326 | `prev` after `next` from step 1 or later returns to the same state |
| TreeVisualization.NextWalksOrder | app/components/tree-visualization.tsx:318-322 | k presses of `next` from the start show the k-th node of the order, stopping at its end |
| TreeVisualization.HandleStep | app/components/tree-visualization.tsx:310-331 | recomputes the walk from the parsed anchors for the current mode: it starts at `home`, lists every parsed node (plus `home`) exactly once and nothing else, reaches each later node by a link from an earlier one, and steps along it |
| TreeVisualization.HandleModeChange | app/components/tree-visualization.tsx:298-307 | resets to step 0 at `home` in the new mode, and builds the snapshot of exactly the nodes and inferred parent links parsed from the anchors, a tree, with the previous mode |
| StudentId.ValidateStudentId | app/utils/student-id.ts:54-79 | valid exactly for `root` or eight digits whose year lies from 2010 to five years after the current one, after trimming |
| StudentId.ValidityDependsOnTrim | app/utils/student-id.ts:59 | surrounding whitespace never changes the verdict |
| StudentId.TrimmedStaysValid | app/utils/student-id.ts:59 | the trimmed text of a valid id is valid |
| StudentId.ValidLater | app/utils/student-id.ts:72-76 | an id valid this year stays valid in later years |
| StudentId.EightDigitVerdict | app/utils/student-id.ts:67-76 | an eight-digit id is valid exactly when its first four digits are a year in range |
| StudentId.MalformedExamples | app/utils/student-id.ts:55-69 | seven digits, empty text and a number are rejected |
| StudentId.IdStore.GetStudentId | app/utils/student-id.ts:12-30 | no window or no entry gives nothing; an invalid non-empty entry is removed and nothing returned; otherwise the entry |
| StudentId.IdStore.SetStudentId | app/utils/student-id.ts:36-47 | stores the trimmed id when there is a window |
| StudentId.IdStore.HasStudentId | app/utils/student-id.ts:85-88 | true exactly when a valid id is stored; a non-empty stored id that fails the check is removed, and the store is otherwise unchanged |
| StudentId.IdStore.ClearStudentId | app/utils/student-id.ts:93-104 | removes the entry when there is a window |
| StudentId.SaveThenAsk | app/utils/student-id.ts:36-88 | a valid id saved is then reported as present |
| ClientApi.GetHeaders | app/client/api.ts:205-276 | the two fixed headers, then `Authorization` exactly when a credential qualifies; every value non-empty ASCII |
| ClientApi.ScanAscii | app/client/api.ts:216-227 | true exactly for non-empty text with no code above 127 |
| ClientApi.ChooseAuthorization | app/client/api.ts:239-262 | the token first, else the prefixed access code under access control, dropped when not ASCII |
| ClientApi.Authorization | app/client/api.ts:239-262 | a chosen `Authorization` value is always ASCII |
| ClientApi.TokenFirst | app/client/api.ts:240-243 | an ASCII token always gives the bearer of the token |
| ClientApi.CodeSecond | app/client/api.ts:249-256 | without a usable token, an ASCII code under access control gives the bearer of prefix and code |
| ClientApi.NoCredential | app/client/api.ts:239-262 | with neither a usable token nor a usable code there is no `Authorization` |
| ClientApi.BlankNonAscii | app/client/api.ts:229-237 | every non-ASCII value blanked, names and order kept |
| ClientApi.DropNonAscii | app/client/api.ts:264-272 | exactly the headers with non-empty ASCII values remain, in order |
| ClientApi.AsciiHeadersKeepsClean | app/client/api.ts:264-272 | the final pass leaves an already clean record unchanged |
| AccessStore.SecretUpdate | app/store/access.ts:50-57 | the trimmed input is stored when empty or ASCII, and the old value kept otherwise |
| AccessStore.SecretUpdateKeepsClean | app/store/access.ts:50-57 | a checked setter never stores a non-ASCII secret |
| AccessStore.SecretUpdateIdempotent | app/store/access.ts:50-57 | setting the same input twice equals setting it once |
| AccessStore.Store.constructor | app/store/access.ts:6-24 | the default state and a request not yet sent |
| AccessStore.Store.UpdateCode | app/store/access.ts:35-58 | only the access code changes, to the checked value, and clean secrets stay clean |
| AccessStore.Store.UpdateToken | app/store/access.ts:59-82 | only the token changes, to the checked value, and clean secrets stay clean |
| AccessStore.Store.UpdateCozeApiKey | app/store/access.ts:86-109 | only the bot key changes, to the checked value, and clean secrets stay clean |
| AccessStore.Store.UpdateOpenAiUrl | app/store/access.ts:83-85 | only the URL changes, to the trimmed input |
| AccessStore.Store.UpdateCozeUrl | app/store/access.ts:110-112 | only the bot URL changes, to the trimmed input |
| AccessStore.Store.UpdateCozeBotId | app/store/access.ts:113-115 | only the bot id changes, to the trimmed input |
| AccessStore.Store.Fetch | app/store/access.ts:124-133 | sends the settings request exactly when none was sent and the build is not a static export |
| AccessStore.Store.FinishFetch | app/store/access.ts:134-150 | a reply is merged unchecked, a failure changes nothing, and the request is done either way |
| AccessStore.Store.EnabledAccessControl | app/store/access.ts:30-34 | starts the fetch if due and answers whether a code is needed |
| AccessStore.Store.IsAuthorized | app/store/access.ts:116-123 | authorised exactly with a token, an access code, or access control off |
| AccessStore.FetchOnce | app/store/access.ts:124-126 | a second fetch never sends the request again |
| Home.NextIndex | app/components/home.tsx:103 | the next step, wrapping from the last to the first |
| Home.PrevIndex | app/components/home.tsx:112 | the previous step, wrapping from the first to the last |
| Home.NextStep | app/components/home.tsx:101-108 | the page shows the next step's message and graph, chat untouched |
| Home.PrevStep | app/components/home.tsx:110-117 | the page shows the previous step's message and graph, chat untouched |
| Home.PrevUndoesNext | app/components/home.tsx:101-117 | `prev` after `next` returns to the same page |
| Home.NextUndoesPrev | app/components/home.tsx:101-117 | `next` after `prev` returns to the same page |
| Home.FullCycle | app/components/home.tsx:101-108 | pressing `next` once per step comes back to the start |
| Home.NextTimesNoWrap | app/components/home.tsx:101-108 | before the end, k presses move exactly k steps |
| Home.WithDefaults | app/components/home.tsx:122-128 | the snapshot with the protocol's algorithm and default parameters over it |
| Home.Reset | app/components/home.tsx:119-133 | back to step 0 with default parameters and one notice appended to the chat |
| Home.SendMessage | app/components/home.tsx:227-233 | nothing is sent for blank input or while loading; otherwise the trimmed message is appended |
| Home.GraphAfterReply | app/components/home.tsx:292-332 | the graph changes only for a reply with truthy nodes and links and a present iteration, and then to that snapshot with falsy parameters defaulted |
| Home.Defaulted | app/components/home.tsx:312-326 | each falsy parameter replaced by its default, other fields kept |
| Home.AcceptedHasParameters | app/components/home.tsx:306-326 | an accepted snapshot always has truthy parameters |
| Home.ZeroDampingReplaced | app/components/home.tsx:320-322 | a damping factor of 0 is replaced by 0.85 |
| Home.CarriedEitherFormat | app/components/home.tsx:303 | a reply is read through `graph_data` when present, as itself otherwise |
| RankingPanel.SortedNodes | app/components/ranking-panel.tsx:23-26 | no node list gives an empty list; otherwise a permutation of the nodes in non-increasing rank |
| RankingPanel.SortByRankSorted | app/components/ranking-panel.tsx:25 | the sorted list is in non-increasing rank |
| RankingPanel.SortByRankStable | app/components/ranking-panel.tsx:25 | the sort is stable: the nodes of any one rank keep their relative order |
| RankingPanel.SortExample | app/components/ranking-panel.tsx:25 | ranks 0.1, 0.5, 0.4 sort to 0.5, 0.4, 0.1 |
| RankingPanel.Rows | app/components/ranking-panel.tsx:32-41 | row i shows place i + 1, the label or else the id, and the rank as rounded votes out of 100 |
| RankingPanel.RowsVotesNonIncreasing | app/components/ranking-panel.tsx:32-41 | a higher place never shows fewer votes |
| RankingPanel.RowsExample | app/components/ranking-panel.tsx:32-41 | an empty label falls back to the id, and 0.5 shows as 50 votes |
| ArrayDifference.FindArrayDifference | app/visual/array-changing-all-number.tsx:141-154 | null for a missing array or different lengths; otherwise the first differing position and the next, or null when equal |
| ArrayDifference.FirstDifference | app/visual/array-changing-all-number.tsx:148-152 | none exactly for equal arrays; otherwise a differing position with equal elements before it |
| ArrayDifference.AnimationHasDifference | app/visual/array-changing-all-number.tsx:131-138 | with five numbers on each side, the animation starts exactly when there is a difference to show |
| ArrayDifference.ShorterOldArray | app/visual/array-changing-all-number.tsx:131-138 | a shorter old array that differs still starts the animation, and an empty one does not |

## Left out

- The `DOMParser` extraction of anchors and the regular-expression fallback of `parseLinks` (app/utils/tree-parser.ts:95-135): the model starts from the anchors, each with its `href` attribute and text.
- The tag regular expression of `checkHtmlSyntax`: the model starts from the sequence of tags it matches, each with its name and whether it closes or ends in `/>`.
- IEEE floating point: ranks, votes and flows are exact real numbers, with no rounding, NaN or Infinity.
- PageRank.PageRankCalculator.Calculate: a rank total of 0 gives NaN ranks in the source; the model leaves the ranks as they are in that case.
- RankingPanel.Rows: `Math.round` is modelled on real numbers, not on the floating-point value of `rank * 100`.
- app/constant.ts is not part of this model. `ACCESS_CODE_PREFIX` is a parameter of `GetHeaders`, and `DEFAULT_MODELS` is not modelled.
- The change that a settings reply with `disableGPT4` makes to `DEFAULT_MODELS`: that list lives outside the store.
- The asynchronous settings request itself: `Fetch` sends it and `FinishFetch` settles it. The network and the JSON decoding of the reply are left out.
- AccessStore.Store.FinishFetch: keeps only the reply fields the store declares; extra fields that the source spreads into the store are dropped.
- `JSON.parse` is a parameter of the protocol validator. The `extractJSONContent` search of a reply is left out, and so is the text shown in the chat; `GraphAfterReply` starts from what `JSON.parse` produced.
- `serializeGraphData` and `deserializeGraphData` of app/api/protocols/pagerank-protocol.ts: they are `JSON.stringify` and `JSON.parse`.
- Object prototype keys (`constructor`, `toString`, `__proto__`, ...) are not modelled. This covers the parent map, the child map, and the `adjacencyList` objects that `generateBFSOrder`, `generateDFSOrder` and `isTreeAcyclic` build in app/utils/tree-parser.ts. In the source, a link source, a start node or a reached target that is such a name and not a node id finds the prototype member: a link source that is such a name makes `.push` throw a TypeError, and a visited node that is such a name makes `adjacencyList[current] || []` yield a function, on which `.forEach` (in the two orders) or `for ... of` (in the cycle check) throws. For example, nodes `[home]` with a link `home` to `constructor` make `generateBFSOrder` throw, and so does the start node `constructor` with no nodes. The model treats such names as ordinary ids: `TreeGraph.GenerateBfsOrder` would return `["home", "constructor"]` and `["constructor"]` there. This cannot happen on the output of `parseLinks`, where every link end is a node id and the start is `home`.
- TreeVisualization.BuildChildMap: iterates the keys in the order given. JavaScript's own key order puts integer-like keys first; that order is not modelled.
- JsText.LowerAll: lowers ASCII letters only; `toLowerCase` on other letters is not modelled, and node ids are ASCII by construction.
- TreeGraph.GenerateDfsOrder: states the set of listed nodes and that each is reached from an earlier one, not the exact depth-first order; pinning the order down needs a reference walk over the recursion stack, and the page only steps through the order, which these two facts describe.
- TreeGraph.GenerateBfsOrder: states the set of listed nodes and that each is reached from an earlier one, not the exact level order; a level-order statement needs shortest distances over the graph, which nothing else in the model defines, and the page only steps through the order. So no contract tells the two walks apart.
- The `try`/`catch` around `localStorage` in app/utils/student-id.ts: storage is a map field that never throws.
- `typeof window === "undefined"` is the `hasWindow` field, and the current year is a parameter.
- Rendering, D3 animation, scrolling, the splitter and copying messages are left out.
- The `if (converged) break` of `calculatePageRankStepByStep` (app/utils/pagerank.ts:190) is not a separate step. The loop condition already stops there, so the results are the same.
