# Verified model of the workflow twin's core algorithms

This project models, in Dafny, the parts of the repository where a mistake
would be hard to see: the event graph and its drawing, the folds and forests
built from the event log, the chat protocol between panel, server and agent
loop, the generic command runtime, and the bounded caches around the model.
Each module follows one component of the source and keeps its form: objects
that are updated in place are classes, loops are loops with invariants, pure
helpers are functions. `dafny verify dfyconfig.toml` checks everything.

The modules build on each other:

- `Common` holds facts about sequences and sorting; `Graph` the shared theory of
  the `follows` graph: paths, ancestry, acyclicity, longest paths, reversal.
- `Topology`, `Inheritance`, `InheritanceDistance`, `Ontology`, `Registry` and
  `CreateEvents` cover the model loader: Kahn's algorithm, in-place root
  inheritance and how far it reaches, acceptance of a model, the event list with
  its refs, and the search for create-shaped events.
- `LongestPaths`, `Spine`, `Branches`, `Lanes`, `Routes`, `FlowLayout` and
  `FlowGeometry` cover the drawing: memoised columns and heights, the main
  spine, branches off it, greedy lanes, routed long edges, pixel rectangles.
- `BranchForest`, `BranchTrees` and `BranchRows` cover the branch split of a
  case, `AsOf` the reconstruction of an instance as of a step.
- `ChatPanel`, `Sse`, `ChatStream`, `AgentTurn` and `ReadCapped` cover the chat:
  threads and turns in the panel, the event stream, the agent loop, and the
  capped body reader.
- `Commands`, `RowHistory`, `CommandCalls`, `CommandEffects`, `CommandAdmission`
  and `CommandRuntime` cover generic create and update commands over a versioned
  row store: what one call makes of its arguments, how rows grow, what calls wait
  for, which call wrote what, what a command asks for under its model, and all
  calls together; `ModelCache` the per-workflow model caches.

What the table below says of "any run" of the command runtime or the panel is said
of every state that satisfies the invariant its methods keep (`CommandRuntime.Sound`,
`ChatPanel.Panel.Valid`), or of `ChatPanel.Panel.Run`, which takes any list of
operations.

Values the code treats as opaque are parameters: JSON conversion, number and
string conversion, the marker pattern, the model's answers, the tools' results,
the parse of a model's content. The model's event keys are assumed distinct,
because the map at `src/ontology/model.ts:365` keeps only the last of two equal
ones. Keys that the code builds by joining strings are tuples, except where the
join itself is the point (`AsOf.Key`, `Registry.RefOf`).

Where the code and its own text disagree, the code is modelled:

- `web/detail.js:236` says the spine is the longest path. It is exactly when no
  event on the spine has a shortcut to take (`Spine.SpineIsLongestIff`); three
  events are enough to miss it (`Spine.SpineNeedNotBeLongest`).
- `src/ontology/model.ts:372` says a root is inherited from the closest
  predecessor that has one. It is the first predecessor, in order, that resolves,
  which may lead further away (`InheritanceDistance.ClosestRootLoses`). All events
  inherit from the closest one exactly if that first predecessor is always the one
  whose root is closest (`InheritanceDistance.NearestIff`).
- `web/chat.js:293` says hydration never replaces a conversation in progress. It
  does when that conversation is live and was never stashed
  (`ChatPanel.HydrationReplacesFreshConversation`).
- `src/chat/agent.ts:45` says taking a marker off never leaves a message without
  visible content. It does in one family of messages (`AgentTurn.StripShowsIff`).
- `src/chat/fetch-docs.ts:56` presents the reader as exact up to the cap. An empty
  chunk ends the copy early (`ReadCapped.ExactIff`).
- `web/detail.js:1390-1393` keys rows by aggregate and id so that no row shadows
  another's. Two aggregates still share keys exactly if one's name starts with the
  other's and a hash (`AsOf.KeysCollideIff`, `AsOf.StaysOutIff`).
- `web/detail.js:541-543` hands out rows to every node of the split view. Within a
  column every execution has rows of its own exactly if no aggregate fires twice
  in one column of the branch (`BranchRows.SplitViewApartIff`). An only child in
  its parent's column is drawn on top of it (`BranchRows.OnlyChildSharesRow`).

## Model

| member | source | states |
|---|---|---|
| Graph.NoSourceMeansCycle | src/ontology/model.ts:465-467 | a set of events that all wait for each other contains a cycle; why a short order proves one |
| Graph.LongestPathStartsAtSource | web/detail.js:285-287 | some longest path into an event starts at a source, so the deepest source starts a longest path |
| Graph.HeightIsReversedDepth | web/detail.js:266-273 | longest path to a sink is longest path from a source in the reversed graph |
| Topology.Successors | src/ontology/model.ts:419-422 | the successor lists are the exact reversal of the predecessor lists, with multiplicity |
| Topology.TopologicalOrder | src/ontology/model.ts:452-469 | Kahn's loop returns an order exactly if the graph is acyclic; it lists every event once, predecessors first |
| Topology.AncestorsComeFirst | src/ontology/model.ts:452-469 | in such an order every transitive predecessor comes earlier |
| Topology.LinearOrderSorted | src/ontology/model.ts:486-499 | the linear order lists every event once, by overlay order; events the overlay does not tell apart stand by topological position, never against the graph |
| Topology.LinearOrderIsTopological | src/ontology/model.ts:486-499 | without overlay orders it is the topological order itself |
| Inheritance.InheritsIffReachable | src/ontology/model.ts:378-391 | on any graph, cyclic too, a search finds a root exactly if a declared one is reachable through predecessors |
| Inheritance.SearchResolves | src/ontology/model.ts:378-391 | on an acyclic graph the search with its shared seen set equals the pure definition, first predecessor that resolves |
| Inheritance.WriteBackKeepsReachability | src/ontology/model.ts:392-401 | writing a root back during the loop changes no other event's chance to find one |
| Inheritance.WriteBackKeepsResolution | src/ontology/model.ts:392-401 | writing a root back leaves every event's resolution as it was, so the loop's order does not matter |
| Inheritance.InheritedUnique | src/ontology/model.ts:378-401 | on an acyclic graph only one assignment of roots meets the finished pass's local conditions |
| InheritanceDistance.ResolvesIffReachable | src/ontology/model.ts:372-391 | an event resolves exactly if a path leads to it from an event with a root of its own |
| InheritanceDistance.TakenPath | src/ontology/model.ts:378-391 | the inherited root is owned by an event exactly as many steps away as the search goes |
| InheritanceDistance.NearestIff | src/ontology/model.ts:372-391 | every event inherits from the closest rooted event exactly if at each rootless one the first resolving predecessor is also the one closest to a root |
| InheritanceDistance.ClosestRootLoses | src/ontology/model.ts:372-391 | an event takes a root from two steps away although another predecessor has one itself, in every model of that shape |
| InheritanceDistance.DetourExists | src/ontology/model.ts:372-391 | four events and two roots are such a model |
| Ontology.OntologyEvent.constructor | src/ontology/model.ts:328-363 | an event record starts with its own root, its command and read models, and uncoupled |
| Ontology.EventByKey | src/ontology/model.ts:365 | the lookup map holds every event under its key |
| Ontology.InheritedRoot | src/ontology/model.ts:378-391 | the recursion over the records, reading what the loop wrote, ends and answers as the search on plain maps |
| Ontology.InheritOne | src/ontology/model.ts:392-401 | one iteration keeps an own root, writes an inherited one with its coupling, or reports |
| Ontology.InheritRoots | src/ontology/model.ts:392-401 | after the loop events have a root exactly if one was reachable, coupled ones point to a direct predecessor, and on an acyclic graph all carry their resolution |
| Ontology.UnknownNames | src/ontology/model.ts:339-345 | problems are reported exactly if some event names a command or read model that does not exist; an event without a command is no problem |
| Ontology.MissingPredecessors | src/ontology/model.ts:366-370 | a problem is reported exactly if some predecessor is no event |
| Ontology.UnknownEntities | src/ontology/model.ts:402-407 | a problem is reported exactly if some root is no known entity |
| Ontology.BuildOntology | src/ontology/model.ts:339-472 | a model is accepted exactly if named commands and read models exist, predecessors exist, all events resolve to known entities and `follows` is acyclic; only a cyclic one is refused as a cycle; an accepted one has the inherited roots |
| CreateEvents.IsCreateEvent | src/commands/base.ts:78-91 | the stack search ends on any graph and is true exactly if no transitive predecessor has the same root |
| CreateEvents.EveryAggregateHasACreateEvent | src/commands/base.ts:75-91 | on an accepted model the topologically first event of each aggregate is create-shaped |
| Registry.RefRoundTrip | src/ontology/model.ts:237-240 | a ref minted from a key resolves to that key exactly if the key has no slash |
| Registry.BuiltAt | src/events/registry.ts:31-48 | the list is the linear order, each entry with its own ref, the aggregate root of its event and its predecessors as refs |
| Registry.AcceptedModelLaysOut | src/events/registry.ts:31-48 | refs are distinct, and the graph the drawing reads off them is acyclic with the same edges as the model |
| LongestPaths.LongestPath.constructor | web/detail.js:258 | the memo starts empty and valid |
| LongestPaths.LongestPath.Rank | web/detail.js:258-273 | the memoised recursion terminates on an acyclic graph and returns the longest path's length; the memo only ever holds such lengths |
| LongestPaths.Ranks | web/detail.js:274 | running it for every event gives every event its longest path |
| Spine.FirstBest | web/detail.js:287-296 | the reduction picks the first element of the highest score |
| Spine.NextOnSpine | web/detail.js:290-296 | at a fork the next step is the successor in the furthest column if any skips a column, else one of greatest remaining depth |
| Spine.WalkSpine | web/detail.js:284-298 | the walk ends at a sink, starts at the first deepest source, and takes the preferred successor at each step |
| Spine.ColumnsRise | web/detail.js:284-298 | columns rise along the walk by at least one per step |
| Spine.SourceExists | web/detail.js:285-287 | an acyclic nonempty graph has a source to start from |
| Spine.SpineIsLongestIff | web/detail.js:276-298 | the spine is a longest path of the graph exactly if no event on it has a shortcut |
| Spine.ForkSpineIsShorter | web/detail.js:276-298 | with a before b before c and a before c the spine takes the shortcut and is not longest |
| Spine.SpineNeedNotBeLongest | web/detail.js:276-298 | the same for three concrete events |
| Branches.Adjacent | web/detail.js:316-320 | off-spine predecessor edges are entered at both ends, and nothing else |
| Branches.Explore | web/detail.js:325-332 | one search lists exactly the connected component of its start, each event once |
| Branches.Split | web/detail.js:321-335 | the groups are disjoint whole components that cover all off-spine events |
| Branches.SameBranchIffConnected | web/detail.js:321-335 | two off-spine events share a branch exactly if a walk over off-spine edges joins them |
| Lanes.FreeLane | web/detail.js:346-347 | the lane search stops at the lowest lane that is free in all the columns |
| Lanes.BranchOrderIsSorted | web/detail.js:336-341 | the branches are all there, narrowest first, then the later fork, then declared order |
| FlowLayout.BranchesRecordSpans | web/detail.js:333-334 | a branch records the leftmost and the rightmost column of its members |
| Lanes.PlaceBranch | web/detail.js:342-357 | a branch is placed greedily from the lowest base free in all its columns, left to right |
| Lanes.DeclaredFirstSitsAbove | web/detail.js:348-356 | of two members of a branch in one column, the one declared first sits above |
| Lanes.PackBranches | web/detail.js:312-357 | after all branches the spine is on lane 0 and every branch was placed greedily after its predecessors; `occupied` is exactly the set of cards |
| Lanes.PackedDistinct | web/detail.js:342-357 | no two placed cards share a cell |
| Lanes.LaneZeroIsSpine | web/detail.js:312-357 | lane 0 holds the spine and nothing else |
| Lanes.ChainStaysOnOneLane | web/detail.js:343-357 | a branch with distinct columns stays on its base lane |
| Routes.LongEdgesWidestFirst | web/detail.js:375-378 | the edges that get a route are exactly those whose ends lie more than one column apart, each once, and the wider before the narrower |
| Routes.RouteEdges | web/detail.js:373-399 | each long edge runs straight if its lane is clear, else claims the lowest lane free in all columns between, also of earlier claims; the top lane follows |
| Routes.RoutesAreClear | web/detail.js:379-398 | claimed cells meet neither a card nor another edge's claim |
| FlowLayout.EveryEventHasItsCell | web/detail.js:312-359 | every event is placed once and no two share a cell |
| FlowLayout.TopRow | web/detail.js:284-314 | lane 0 is exactly the spine, a directed path from a source to a sink with rising columns |
| FlowLayout.GroupIsRow | web/detail.js:343-359 | a branch without two cards in one column is one row of the drawing |
| FlowLayout.RoutedEdgesAvoidCards | web/detail.js:361-399 | read off the layout record alone: every edge over more than one column keeps to one row over exactly the columns between its ends, its recorded one or else that of both its cards; no card and no other such edge is in its way; it leaves its own row, and skips a row below the top, only for a card or an edge at least as wide |
| FlowLayout.ComputeFlowLayout | web/detail.js:242-401 | with edges: all of the above for one layout record, each card in its planned column and lane, columns are longest paths; every edge over more than one column avoids the cards and the other such edges, read off the record alone; without edges: one lane in declared order |
| FlowGeometry.CardHeight | web/detail.js:593-594 | a card is never lower than a plain one and taller only if opened and fired more than once |
| FlowGeometry.OpenCardsGrow | web/detail.js:149-152 | an open card has a row for each firing |
| FlowGeometry.LaneGeometry | web/detail.js:596-605 | each lane is as high as its tallest card or a route row, and starts where the lanes above it end |
| FlowGeometry.CardsDoNotOverlap | web/detail.js:582-608 | for any set of expanded cards no two rectangles overlap and all lie inside the computed width and height |
| FlowGeometry.DrawingIsTight | web/detail.js:607-608 | the width ends with a card of the last column, the height with the tallest card of the last lane where it has any |
| BranchForest.FirstByAgg | web/detail.js:507-508 | the first firing of every aggregate id |
| BranchForest.ByAgg | web/detail.js:509-511 | the chain of every aggregate in the branch, in (column, log) order |
| BranchForest.NearestIsBest | web/detail.js:522-533 | the reference that wins is the first listed candidate of the highest column |
| BranchForest.FindParent | web/detail.js:517-534 | the parent by chain position, else by nearest reference |
| BranchForest.ChainParentIsPrevious | web/detail.js:518-520 | a chain parent is the step of the same aggregate right before this one; without one this is the first |
| BranchForest.ParentBelow | web/detail.js:517-535 | every parent lies in the branch and strictly below its child in (column, log position) |
| BranchForest.ColumnsRiseIff | web/detail.js:517-535 | columns rise along every edge exactly if no aggregate fires twice in one column of the branch |
| BranchForest.BuildBranchForest | web/detail.js:501-539 | children lists and roots hold exactly the firings whose parent they are, in log order |
| BranchTrees.LinksClimb | web/detail.js:517-536 | a parent is itself in the branch and strictly earlier, so the links are acyclic |
| BranchTrees.EveryFiringOnce | web/detail.js:501-539 | every firing at or right of the split occurs in the forest exactly once, reachable from a root, and nothing else does |
| BranchRows.SortForestFirings | web/detail.js:545-548 | sorting children by whatever comparator keeps the forest's firings |
| BranchRows.Assign | web/detail.js:550-554 | one subtree: leaves take the next rows, the root centres on its first and last child, other rows stay |
| BranchRows.WrittenMidway | web/detail.js:551-553 | whatever is written for a forest puts every parent midway between its first and its last child |
| BranchRows.LayoutForestRows | web/detail.js:544-557 | all rows are written as the sorted forest says, each firing with children midway between its first and its last child, and the leaf count is returned |
| BranchRows.RowInside | web/detail.js:551-553 | a node sits within the rows of its own leaves |
| BranchRows.TreeInside | web/detail.js:550-554 | a subtree owns as many successive rows as it has leaves, and every subtree of it some of these |
| BranchRows.TreeWithin | web/detail.js:550-554 | all firings of a subtree lie in the successive rows it owns |
| BranchRows.SiblingsApart | web/detail.js:550-554 | sibling subtrees own disjoint rows, in sibling order, at least one row apart |
| BranchRows.LeavesTakeRows | web/detail.js:549-551 | the leaves take rows 0 to n-1 once each, top to bottom |
| BranchRows.RisingIsApart | web/detail.js:544-557 | when columns rise along edges, two firings of one column own no row in common |
| BranchRows.SplitViewIsWhole | web/detail.js:501-557 | build, sort and layout together have every firing of the branch once and nothing else |
| BranchRows.SplitViewApartIff | web/detail.js:501-557 | for every log, split and sort, the firings of each column own disjoint rows exactly if no aggregate fires twice in one column |
| BranchRows.SplitViewIsClear | web/detail.js:501-557 | cards of one column are at least one row apart if no aggregate fires twice in a column |
| BranchRows.ChildInside | web/detail.js:550-554 | a firing that hangs under another is laid out within the rows of that one |
| BranchRows.OnlyChildSharesRow | web/detail.js:550-554 | an only child gets its parent's row, so in its parent's column the two cards coincide |
| BranchRows.TwiceInAColumnOverlaps | web/detail.js:518-520 | in the log of two firings of one aggregate in one column both cards get the same cell |
| AsOf.KeyTellsApart | web/detail.js:1391-1398 | row keys are injective unless one aggregate's name starts with the other's and a hash |
| AsOf.KeysCollideIff | web/detail.js:1394-1396 | two aggregates can share a key exactly if one's name starts with the other's and a hash |
| AsOf.OwnerOfFitting | web/detail.js:1407-1420 | under a name that runs into no other of the log every key belongs to its own row |
| AsOf.FoldHoldsLast | web/detail.js:1407-1420 | the fold holds, for every field, the value of the chronologically last taken entry that carries it |
| AsOf.FoldLog | web/detail.js:1407-1420 | on any log the fold loop's map has exactly the keys some taken entry touches, each with its folded fields and the name of the first entry |
| AsOf.RowIsTold | web/detail.js:1425-1433 | every field of a row as of a step, from the log alone: what the last entry before the limit says; blank if only later ones say it; what the live row has if none ever does. The row is there exactly if an entry before the limit touched it |
| AsOf.ReconstructInstance | web/detail.js:1407-1438 | on any log a row is there exactly if the first entry of its key names it, and each of its fields is what was said last before the limit, blank if only said later, the live value if never said; under a name that runs into no other that is every row of the log |
| AsOf.ActiveDetailInstance | web/detail.js:1445-1475 | the pair of reconstructions as of the selected step and just before it, field by field from the log |
| AsOf.AsOfChangedFields | web/detail.js:1552-1565 | the changed fields are the visible ones whose blank-tolerant text differs |
| AsOf.DiffIsSound | web/detail.js:1466-1475 | on a row present before the step, every reported field was carried by some firing of the selected event under that row's key |
| AsOf.HighlightIsSound | web/detail.js:1445-1475 | under a name that runs into no other of the log, every reported field is due to a firing of the selected event with that very aggregate and id: one that carried it, or on a new row one that touched the row |
| AsOf.HighlightIff | web/detail.js:1445-1565 | a visible field is reported exactly if what was said last as of the step has another text than what was said last before it, blank if nothing was; a field nothing ever says only on a row the step made, if it is not blank |
| AsOf.Highlight | web/detail.js:1445-1565 | the changed fields of a row, from the log: exactly the visible ones that the selected event gave a new text, each due to a firing of it |
| AsOf.LastCutIsFinal | web/detail.js:1407-1438 | at a cut past every event each carried field holds its chronologically last value, whatever the declared order |
| AsOf.RowsNeverMix | web/detail.js:1387-1398 | a row under a name that runs into no other of the log depends on its own entries only, even when aggregates share an id |
| AsOf.StaysOutIff | web/detail.js:1387-1398 | entries of another aggregate leave all rows of this one alone exactly if neither name runs into the other |
| ChatPanel.Panel.constructor | web/chat.js:34-37 | the panel at its first scope, every thread empty, no turn in flight |
| ChatPanel.Panel.StashActiveChat | web/chat.js:271-274 | saving the live array changes no thread |
| ChatPanel.Panel.ActivateConnectorChat | web/chat.js:279-289 | the table's thread becomes live and no thread changes; its server copy is asked for exactly if it was not live before, has a name and does not count as fetched |
| ChatPanel.Panel.DeactivateConnectorChat | web/chat.js:328-336 | the scope's advisor thread becomes live and no thread changes |
| ChatPanel.Panel.SyncChatScope | web/chat.js:237-255 | a scope switch shows the same table or the advisor thread of the new scope and changes no thread; the table's server copy is asked for exactly if it does not count as fetched |
| ChatPanel.Panel.HydrateStart | web/chat.js:295-298 | a key is asked for once until it fails |
| ChatPanel.Panel.HydrateLands | web/chat.js:300-306 | the server copy replaces the thread exactly if it is nonempty and the stash empty, and touches no other thread |
| ChatPanel.Panel.HydrateFails | web/chat.js:308-310 | a failed request may be repeated |
| ChatPanel.HydrationReplacesFreshConversation | web/chat.js:291-311 | a conversation begun while the request runs is replaced by the server copy |
| ChatPanel.Panel.PushMessage | web/chat.js:122 | pushing in place appends to the live thread and to no other |
| ChatPanel.Panel.SendChat | web/chat.js:92-151 | nothing on empty text or a busy panel, else the message joins the live thread and one owned turn starts with that thread's identity |
| ChatPanel.Panel.StopChat | web/chat.js:41-44 | stop aborts the request and leaves the turn owned |
| ChatPanel.Panel.DisownChatTurn | web/chat.js:51-56 | every turn in flight becomes stale and the panel is free |
| ChatPanel.Panel.ClearChat | web/chat.js:194-208 | only the live thread becomes empty, the shown table counts as fetched, and the turn in flight is disowned |
| ChatPanel.Panel.ResetChatState | web/chat.js:258-269 | every thread and the scope are dropped and the turn in flight is disowned |
| ChatPanel.Panel.ResponseLands | web/chat.js:155-170 | an owned turn writes exactly the thread it was sent from, a disowned one writes nothing and leaves its successor's slots alone |
| ChatPanel.Panel.RequestFails | web/chat.js:171-191 | only an owned turn reports an error, and "Stopped" only for the user's own abort |
| ChatPanel.Panel.ReloadEnds | web/chat.js:168-191 | the end of a turn that refreshed the view frees the panel only if still owned; persisting marks the live table as fetched |
| ChatPanel.Panel.FinishTurn | web/chat.js:181-191 | a turn tears down its own ticker and controller only |
| ChatPanel.AtMostOneOwned | web/chat.js:34-56 | the panel is busy exactly if a turn of the current generation is in flight; it is the only one and holds both slots |
| ChatPanel.Panel.Step | web/chat.js:34-336 | any operation of the panel, applicable or not, makes exactly the edit that the live thread and the turns in flight decide, and moves these and the requests for server copies as told; only whether a server copy is adopted is left open |
| ChatPanel.Panel.Run | web/chat.js:34-336 | over any run of operations, in whatever interleaving, the operations alone decide which thread each one edits and which server copies are asked for, and every thread ends as the edits addressed to it made it |
| ChatPanel.HomeIsWhereItWasSent | web/chat.js:92-151 | a turn begun during a run stands for the thread that was live when it was sent |
| ChatPanel.StaysDisowned | web/chat.js:51-56 | a clear or logout disowns every turn sent before it for the rest of the run |
| ChatPanel.DisownedResponseIsKept | web/chat.js:155-170 | the response of such a turn changes no thread, whenever it lands |
| ChatPanel.ShownIsFetched | web/chat.js:237-311 | after any run a named table whose thread is live counts as fetched, unless a request for it has failed while it was live |
| ChatPanel.FetchedWasAsked | web/chat.js:237-326 | on a panel that begins with nothing fetched, every named table that is live or counts as fetched was asked for during the run, and no logout has come since |
| ChatPanel.AskedAgainOnlyAfter | web/chat.js:258-311 | between two requests for one table lies a logout or the failure of a request in flight for it |
| ChatPanel.ThreadsAreIndependent | web/chat.js:210-229 | of any list of edits only those addressed to a thread matter to it |
| Sse.SplitAppend | web/app.js:200-204 | splitting in two steps with the rest kept equals splitting at once, also when a blank line straddles the cut |
| Sse.SplitPrinted | src/http/routes.ts:435-438 | splitting printed frames gives exactly those frames and no rest |
| Sse.SplitPrefix | web/app.js:200-204 | the complete frames of any arrived prefix are the first printed ones |
| Sse.ParsedPrinted | web/app.js:205-222 | reading a printed frame gives back its event and data; a heartbeat gives none |
| Sse.SeveralLinesParsed | web/app.js:205-214 | a frame whose data runs over several lines, one field for each, is read as that text with its line breaks |
| ChatStream.ReadEvent | web/app.js:205-214 | the line loop reads name and data of one frame |
| ChatStream.Drain | web/app.js:202-223 | the inner loop digests every complete frame, leaves at once on an error and keeps the rest |
| ChatStream.ApiStream | web/app.js:193-226 | for any chunking the call ends, and reports, as the text read so far means as a whole; it reads no further than the chunk that decides |
| ChatStream.Delivered | web/app.js:193-226 | whatever part of a transcript arrives, the panel sees the events of exactly the complete frames |
| ChatStream.RoundTrip | src/http/routes.ts:434-488 | a whole transcript delivers its progress events in order and its result or error, for every chunking |
| ChatStream.CutIsNoticed | web/app.js:225 | a stream cut before the terminal frame is complete never looks like an answer |
| ChatStream.ChatReply.constructor | src/http/routes.ts:434-458 | a reply starts closed and aborted if the socket is already gone |
| ChatStream.ChatReply.Send | src/http/routes.ts:435-437 | a frame is printed unless the reply is closed |
| ChatStream.ChatReply.Beat | src/http/routes.ts:438 | heartbeats are printed between frames while the timer runs |
| ChatStream.ChatReply.OnClose | src/http/routes.ts:442-446 | a disconnect closes, stops the timer and aborts the turn |
| ChatStream.ChatReply.OnError | src/http/routes.ts:449 | a socket error closes the reply |
| ChatStream.ChatReply.OnProgress | src/http/routes.ts:461-464 | each progress event is one frame while the turn runs and the reply is open |
| ChatStream.ChatReply.TurnReturns | src/http/routes.ts:460-467 | exactly one result frame, last, unless the client is gone |
| ChatStream.ChatReply.TurnThrows | src/http/routes.ts:468-471 | a failed turn is only logged when the client is gone |
| ChatStream.ChatReply.ErrorIsClear | src/http/routes.ts:471-488 | exactly one error frame, last, unless the client left meanwhile |
| ChatStream.ReplyIsRead | src/http/routes.ts:434-492 | a reply that is over and whose client stayed ends in its one terminal frame and is read, under any chunking, as its progress events and its result or error |
| AgentTurn.PiecesRejoin | src/chat/agent.ts:60 | splitting the listed suggestions at the bars loses nothing |
| AgentTurn.NonEmptyPiecewise | src/chat/agent.ts:60-62 | each piece stands or falls alone, in order: trimmed, unless it is nothing but white space |
| AgentTurn.Replies | src/chat/agent.ts:59-64 | the first four suggestions in order, trimmed, none empty, each whole or its first 80 characters |
| AgentTurn.StripKeepsUses | src/chat/agent.ts:49-69 | taking a marker off keeps role and tool calls and leaves user messages alone |
| AgentTurn.MarkedIff | src/chat/agent.ts:43-58 | the marker is taken off exactly an assistant message whose last text ends in one, unless it is all there is to show |
| AgentTurn.StripRebuilds | src/chat/agent.ts:59-69 | such a message keeps its blocks in order, with the marker gone and every empty text dropped |
| AgentTurn.StripShowsIff | src/chat/agent.ts:43-69 | a message with something to show keeps it exactly unless its last text is only a marker beside empty texts |
| AgentTurn.StripNeverEmpties | src/chat/agent.ts:43-69 | without empty texts on input no message is left with nothing to show |
| AgentTurn.StripCanEmpty | src/chat/agent.ts:57-58 | an empty text before a marker-only text leaves no block at all |
| AgentTurn.AnswerTools | src/chat/agent.ts:187-202 | for every tool call in order one result with its id, the tool's content and error flag, and one report with name, input, error flag and the first 200 characters; unless a call aborts |
| AgentTurn.RunAgentTurn | src/chat/agent.ts:143-207 | at most 14 rounds, each asked with all messages so far; the finished messages are transcribed as told below; it throws exactly after a round whose model or tools do |
| AgentTurn.TurnIsTranscribed | src/chat/agent.ts:143-207 | of every finished turn, from what the model said and the tools returned: round i stands at its place with the model's own content, and the message after it answers its k-th call with that call's id and that tool's content and error flag, in what is sent on and in what is handed back; calls are reported in order, the four token counts are sums over the rounds, and markers and suggestions are those of the swept messages |
| AgentTurn.ContinuesIff | src/chat/agent.ts:177-185 | a round goes on exactly after a tool stop with a tool call in it |
| AgentTurn.ConversationShape | src/chat/agent.ts:147-203 | the conversation starts with the input and every round that continued is answered in full |
| AgentTurn.SweepKeepsPairing | src/chat/agent.ts:76-89 | the sweep keeps tool calls and their answers paired |
| AgentTurn.TurnIsWellFormed | src/chat/agent.ts:143-207 | the result starts with the swept input, pairs all tool calls with the next message, and leaves open only those of a last message that stopped for another reason |
| ReadCapped.CopyOut | src/chat/fetch-docs.ts:76-83 | every write lies inside the buffer, which ends as the chunks before the first empty one, cut or zero-filled |
| ReadCapped.Receive | src/chat/fetch-docs.ts:60-75 | reading stops at the first read that reaches the cap, and `capped` says so |
| ReadCapped.Read | src/chat/fetch-docs.ts:57-85 | at most the cap's bytes, nothing without a body |
| ReadCapped.ExactIff | src/chat/fetch-docs.ts:76-83 | the result is the first bytes received exactly if all bytes from the first empty chunk on are zero |
| ReadCapped.ExactWithoutEmptyChunks | src/chat/fetch-docs.ts:57-85 | with no empty chunk it is exact for chunks of any size |
| ReadCapped.EmptyChunkLosesTheRest | src/chat/fetch-docs.ts:78-80 | an empty chunk in the middle loses what follows |
| Commands.Coerce | src/commands/base.ts:101-124 | a coerced value has the column's type and is the whole part of the number, the number, whether it is one of the three spellings of true, or the text; only numbers can fail |
| Commands.PinnedEventIsBound | src/commands/base.ts:48-59 | a ref of one of the command's events binds exactly that event |
| Commands.BoundEventIs | src/commands/base.ts:48-60 | the event bound is the one of the command's that the ref names, and if it names none of them the command's first; none is bound only if the command has none |
| Commands.BuildData | src/commands/base.ts:165-208 | the create loop's row and its list of unfillable fields |
| Commands.UnfillableIff | src/commands/base.ts:168-214 | a create is refused for exactly the required fields no value can be found for: the argument does not fit, or there is none and no example that fits |
| Commands.RequiredAreFilled | src/commands/base.ts:165-214 | with nothing unfillable every required field outside the platform's own has a value of its type |
| Commands.StoredValue | src/commands/base.ts:168-208 | an argument that fits is stored, the example only in its absence for the status and required fields, nothing else |
| Commands.DataIsDeclared | src/commands/base.ts:165-208 | the row has declared fields only, and the chosen id if an id is declared |
| Commands.BuildChanges | src/commands/base.ts:236-245 | the update loop's changes |
| Commands.ChangesAre | src/commands/base.ts:234-245 | exactly the supplied command fields that are columns and fit; never id or status |
| CommandAdmission.AdmittedCalls | src/commands/base.ts:130-159 | an update goes on only for an id that has a row, a create only for a create-shaped event and no such row; either stands for the bound event, the entity and the command fields the model has for it, and the arguments |
| CommandAdmission.RefusedWithoutEvent | src/commands/base.ts:56-60 | a command is refused for want of an event exactly if no event of the model has it |
| CommandAdmission.RefusedWithoutEntity | src/commands/base.ts:60-61 | and for want of an entity exactly if the bound event's root is none |
| CommandAdmission.AdmissionIs | src/commands/base.ts:130-214 | otherwise it updates exactly if its id has a row, creates exactly if not, its event may and no required field lacks a value, and each way to fail has its own refusal |
| CommandAdmission.UnfillableNamesThem | src/commands/base.ts:210-214 | the refusal names exactly the fields that lack a value |
| CommandAdmission.PatchIsAsked | src/commands/base.ts:234-245 | an update writes exactly the columns the command lists, the entity declares and the arguments fit, never id, status or version, each with the value supplied |
| CommandAdmission.RowIsBornAsAsked | src/commands/base.ts:168-208 | of a field declared once, a created row holds the argument where there is one, the example in its absence for the status and required fields, and nothing else |
| CommandAdmission.EventIsTold | src/commands/base.ts:260-269 | the event carries the bound ref, the row's id, the caller's role, and for a payload the arguments under the row's own id and status |
| RowHistory.CellIsLastPatch | src/twin/projection-store.ts:482-506 | in a row's history a cell holds what the last patch that sets it says, else the inserted value |
| RowHistory.IdAndStatusStay | src/commands/base.ts:234-245 | id and status never change by updates, and the version counts them |
| RowHistory.SameVersionSameRow | src/commands/base.ts:247-254 | equal versions mean the row read is the row that stands |
| CommandRuntime.Runtime.constructor | src/commands/base.ts:151-159 | no rows, no events, no calls |
| CommandRuntime.Runtime.Classify | src/commands/base.ts:130-145 | update exactly if the given id has a row, else create if the event is create-shaped, else the two refusals |
| CommandRuntime.Runtime.Begin | src/commands/base.ts:130-214 | a call is refused with the error its classification or its unfillable fields give, or waits as the classified create or update; what it was asked, and by which command under which model, is recorded |
| CommandRuntime.Runtime.Insert | src/commands/base.ts:216-222 | an id is inserted once and its history begins there, all other rows and histories stay; a second insert is refused and changes nothing |
| CommandRuntime.Runtime.Locate | src/commands/base.ts:227-247 | an update reads its row, and without changes skips the write |
| CommandRuntime.Runtime.Write | src/commands/base.ts:247-254 | the compare-and-set succeeds only on the very row that was read, moves the version by one and signs the patch with the call, else nothing changes |
| CommandRuntime.Runtime.ReadBack | src/twin/projection-store.ts:474-505 | the row handed to the event is the one that stands, and this call's own insert or patch is in its history |
| CommandRuntime.Runtime.EmitEvent | src/commands/base.ts:256-268 | success appends exactly one event, the bound one of what the call was asked, with the row's id and status |
| CommandRuntime.Runtime.Break | src/commands/base.ts:216-257 | a failure at any point ends the call; what it wrote stays, without an event |
| CommandRuntime.InsertedIs | src/commands/base.ts:216-222 | an insert is refused exactly if the id is taken, and then stores nothing; else the row is what was built and no other row is touched |
| CommandRuntime.LocatedIs | src/commands/base.ts:227-257 | an update that finds its row goes on with it as it stands, to its event or to a write that remembers the version read |
| CommandRuntime.WrittenIs | src/twin/projection-store.ts:482-506 | a write is refused exactly if the version read no longer stands, and then stores nothing; else the row is one version on with exactly the changes in it and no other row is touched |
| CommandRuntime.NoUpdateIsLost | src/commands/base.ts:247-257 | after any run every successful update with changes stands in its row's history exactly once, as the patch it was asked for, the row it returned shows it, and the standing row is that history replayed |
| CommandRuntime.UpdateIsWritten | src/commands/base.ts:225-257 | after any run, told from the command and its model alone: every successful update that asks for any column stands in its row's history exactly once, with exactly the columns it asks for and the values supplied |
| CommandRuntime.EveryPatchWasAsked | src/commands/base.ts:234-254 | after any run every patch of every row is what some command asks for that row |
| CommandRuntime.EveryRowWasAsked | src/commands/base.ts:161-222 | after any run every row was born as its creator's command asks |
| CommandRuntime.EveryEventWasAsked | src/commands/base.ts:260-269 | after any run every entry of the log tells of the command whose success it stands for |
| CommandRuntime.CellIsLastWrite | src/twin/projection-store.ts:474-506 | after any run a cell holds what the last call that wrote it was asked for, else what the call that created the row was asked for |
| CommandRuntime.RefusedWroteNothing | src/commands/base.ts:216-254 | a refused call, stale ones included, has made no row and patched none |
| RowHistory.SeenHasId | src/commands/base.ts:256-264 | whatever a call has read under a key carries that key's id |
| CommandRuntime.OneEventPerSuccess | src/commands/base.ts:223-268 | after any run the log has exactly one entry per successful call, the bound event of its request about the row it returned |
| RowHistory.OneInsertPerId | src/commands/base.ts:216-222 | after any run every row was inserted exactly once, and nothing else was |
| CommandRuntime.CreatedRowsAreComplete | src/commands/base.ts:165-218 | every row about to be inserted has its required fields filled and typed |
| CommandRuntime.StoredRowsAreComplete | src/commands/base.ts:165-218 | after any run every stored row has a value for each field its creator's model requires and was born with one of its type |
| CommandRuntime.PinnedEventIsLogged | src/commands/base.ts:48-60 | a successful call that pinned one of the command's events by its ref has logged that very ref |
| ModelCache.JustBoundStays | src/ontology/model.ts:570-578 | a just-bound workflow is never the one evicted and at most 64 stay |
| ModelCache.Caches.constructor | src/ontology/model.ts:559-565 | the caches start empty |
| ModelCache.Caches.SetWorkflowModel | src/ontology/model.ts:570-578 | the binding becomes the newest and the oldest beyond 64 go |
| ModelCache.Caches.ForgetWorkflowModel | src/ontology/model.ts:583-588 | binding and parsed models of that workflow go, all others stay |
| ModelCache.Caches.GetOntology | src/ontology/model.ts:600-625 | the result is the parse of the content bound now; failures are not cached and at most 32 models are kept |
| ModelCache.Caches.Events | src/events/registry.ts:81-97 | the result is that model's event list, empty for a missing or bad one, which is never cached |
| ModelCache.OntologyIs | src/ontology/model.ts:600-625 | the model of a workflow is the parse of whatever content is bound to it, and each of the two ways to have none is its own failure |
| ModelCache.EventsAre | src/events/registry.ts:81-97 | its event list is the one built of that model, empty where there is none or it cannot be built |
| ModelCache.BoundUntilCrowdedOut | src/ontology/model.ts:570-588 | once bound, a workflow stays bound until forgotten or until 64 others were bound after it |

## Left out

- Topology.TopologicalOrder: which of several topological orders the queue yields is not pinned; only that it is one.
- Ontology.BuildOntology: how an event's refs become names and the overlay's reach are not modelled; problems are a list whose texts are left out.
- FlowLayout.ComputeFlowLayout: waypoints are stated for distinct edges only, because the map is keyed by the edge's two ends.
- ChatPanel.Panel.SendChat: starts from a known scope; the thread before any sign-in is left out, and so is the trimming of the input and the context block's text.
- ChatPanel.Panel.ReloadEnds: the server copy written after a turn is left out, only the in-memory effect is stated.
- ChatStream.ApiStream: text arrives as characters, not bytes through a decoder; the stall timer is one way a read fails.
- AgentTurn.RunAgentTurn: progress events, the tool timeout and the race with an abort are inside the tool parameter.
- BranchRows.SortForestFirings: the sort is any permutation, because the comparator may subtract strings; the in-place sort of the node objects is modelled on trees.
- CommandAdmission.RowIsBornAsAsked: covers a field declared once; of a name declared twice the last declaration that yields a value counts, as in `Commands.DataOf`.
- CommandRuntime.Runtime.Write: time stamps are left out; other writers of the store, such as ingest, are not modelled.
- CommandRuntime.Runtime.EmitEvent: correlation, business time and provenance of the event row are left out.
- ModelCache.Caches.Events: the empty system event list is the build of the system model.
- How a firing's payload yields its candidate parents (`web/detail.js:466-496`) is a parameter; it matches text and has no invariant.
- The map of live rows (`web/detail.js:1394-1401`) is a parameter of the reconstruction.
- The `detect` half of the generic command, authored command logic, and everything behind the database and language-model clients.
- Display code: views, event binding, menus, formatting of dates and numbers, and the SVG paths of the connectors.
- Server persistence of connector threads, authentication, packs, configuration and the scheduler.
- HTML to text conversion and the URL check beside the capped reader.
