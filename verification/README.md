# Verified model of keenetic-xray's list generators, control channel and adaptive routing

This project models the parts of the repository in which a subtle mistake would be hardest to see and
proves what they promise, for every input and every run. It has four parts.

**IPv4 block algebra.** `cmd/georanges-gen` turns address ranges into CIDR blocks, `cmd/geo-gen` collapses a
provider's CIDR dump by sorting, pruning and merging siblings to a fixpoint and then caps it, and the
never-route list tests addresses and networks against such blocks. `Bits` and `Blocks` hold the common
algebra: aligned blocks are nested or disjoint, and an ordered list of disjoint blocks that absorbs every
block it covers is unique and as short as possible. `Ranges`, `Aggregate` and `Normalisers` prove both
generators against it and compare them, `AggregateText` carries the second one over to the text it reads and
prints, and `ExclusionList` does the same for the membership tests. Addresses are numbers below 2^32; the wrap of
32- and 64-bit sums, the masks and `start & -start` are written out.

**Command delivery.** `QueueStore` is the store with its two copies, memory and file: a save either replaces the
file or leaves it alone, and a restart copies the file back. The methods of its class `Store` do the updates
and the roll-backs in place, and each is tied to a step function. `Server` has the two handlers, `AgentLoop`
the loop body of the agent, and `Delivery` the distributed system of all of them, with a network that may
lose, delay, repeat and reorder every message, failing saves, restarts of the server and of the agents.
A message once sent stays deliverable for ever, and need never be delivered.

**The ACME gate.** `AcmeGate` takes each lock-protected operation as one atomic step; a timer callback may come at
any later moment, also after a Stop that was too late.

**Adaptive routing.** Sliding-window counters against the log of all events (`EventStats`), the text that
carries the list from the router to the bot (`AdaptiveCodec`, `CodecRoundTrip`), edits of the never-route file
(`ExclusionFile`, `ExclusionEdits`, `DottedQuad`), rewriting a shell configuration file (`ShellConf`),
convergence of the iptables rules (`RedirectRules`), and the host matcher (`HostMatch`). `Text`, `Decimal`,
`Substring`, `Folds`, `Subsequence` and `Sets` are shared tools.

Inputs and outputs of the world are parameters: whether a save works (`saves`), whether a listener binds
(`binds`), whether stopping a timer comes in time (`stops`), which requests are answered, and in `RedirectRules`
the answer of each iptables command (`Clearing`, `Trial`).

Where the code does not keep a promise of its comments on every input, the model follows the code, and the
theorem says exactly when the promise holds:

- `aggregateCIDRs` never merges into a block wider than /8 but keeps wider input blocks, so its result depends
  on more than the covered addresses once such blocks occur (`AggregateDeterminedByCover`,
  `WideInputsKeepTheirShape`), and the two generators agree exactly when no narrower input blocks add up to a
  block wider than /8 (`AgreeIffNoWideMerge`).
- `RemoveExclusion` is said to keep comments and unreadable lines verbatim
  (internal/adaptiveroute/exclude.go:236-238). When it removes a line it strips a carriage return at the end of
  every line it keeps, and a single blank line that is all that is left disappears; a file in which no line names
  the entry is not touched (`RemoveKeepsOtherLines`, with inputs in `RemoveDropsReturn` and `EmptyLineIsLost`).
  A file with more than 512 different entries lets the 513th in when one of the first 512 is removed
  (`RemovedListExactly`, `RemovalLetsAnotherIn`).
- An entry whose address starts with '#' would be read by the bot as a header line (`RoundTrip`,
  `HeaderLikeEntryIsLost`). This is a limit of the format only: the members `ipset` lists are addresses and
  networks and never look like that.
- After a successful `EnsureRedirect` the drift check is content unless the set name or an interface name
  itself holds "-p udp" (`Router.EnsureRedirect`).

## Model

| member | source | states |
|---|---|---|
| Blocks.Laminar | cmd/geo-gen/main.go:478-487 | Two aligned blocks that share an address are nested, the longer prefix inside the shorter: the fact both generators and the overlap test rest on. |
| Blocks.AbsorbingUnique | cmd/geo-gen/main.go:489-522 | Ordered lists of disjoint blocks that absorb every block they cover (down from /w) are equal if and only if they cover the same addresses and agree on the blocks wider than /w. |
| Blocks.FewestBlocks | cmd/georanges-gen/main.go:390-395 | No list of blocks none wider than /w with the same addresses is shorter than an ordered absorbing one. |
| Blocks.TotalCountsCover | cmd/georanges-gen/main.go:436-448 | On blocks that do not overlap the sum of sizes is the number of covered addresses. |
| Blocks.MaskClears | cmd/geo-gen/main.go:464-469 | Masking an address with the mask of /p clears exactly its 32 - p host bits. |
| Blocks.BlockOf | cmd/geo-gen/main.go:464-469 | The block of an "address/p" line has length p and contains the address. |
| Bits.AndNegIsLowBit | cmd/georanges-gen/main.go:367-372 | In wrapping arithmetic `start & -start` is the greatest power of two dividing start. |
| Bits.TrailingZerosDivide | cmd/georanges-gen/main.go:376 | A number is a multiple of 2^k if and only if it has at least k low zero bits. |
| Bits.LenBounds | cmd/georanges-gen/main.go:373-375 | `1 << (Len(count) - 1)` is the greatest power of two not above count. |
| Ranges.NextBlock | cmd/georanges-gen/main.go:365-379 | The block one iteration emits starts at `start`, is aligned, no wider than /1 and fits the remaining count. |
| Ranges.NextBlockMaximal | cmd/georanges-gen/main.go:365-375 | No aligned block inside the range straddles or exceeds the block emitted next. |
| Ranges.PhaseStep | cmd/georanges-gen/main.go:364-386 | Block sizes first grow with the alignment of the start and then shrink with what is left, so fewer than 62 blocks have been emitted whenever another follows. |
| Ranges.EmitBlock | cmd/georanges-gen/main.go:364-386 | One iteration makes progress, never passes the end of the address space and extends the exact decomposition. |
| Ranges.CidrsForRange | cmd/georanges-gen/main.go:362-388 | For every start and every 64-bit count the result covers exactly [start, min(start + count, 2^32)) with ascending, disjoint, aligned blocks, each maximal in the range, at most 62 of them. |
| Ranges.SplitFewest | cmd/georanges-gen/main.go:351-352 | The blocks of a range are the minimal set: no list of blocks none wider than /1 covers exactly the range with fewer. |
| Ranges.SortSpans | cmd/georanges-gen/main.go:410-415 | The spans in order, none lost and none invented. |
| Ranges.MergeSpans | cmd/georanges-gen/main.go:417-433 | Merging sorted spans and flushing them gives exactly their addresses in ordered disjoint blocks that absorb every covered block of /1 or narrower. |
| Ranges.Coalesce | cmd/georanges-gen/main.go:395-434 | The same for any list of networks, and an address is covered if and only if some IPv4 network of the input holds it: the 2^(32 - ones) addresses from its own on. Networks that are not IPv4 add and remove nothing. |
| Ranges.CoalesceOfBlocks | cmd/georanges-gen/main.go:395-405 | On aligned blocks the result covers exactly the blocks' own addresses. |
| Ranges.CoalesceFewest | cmd/georanges-gen/main.go:390-395 | No other list of blocks none wider than /1 with those addresses is shorter. |
| Ranges.CoalesceTotal | cmd/georanges-gen/main.go:436-448 | The sizes of the result add up to the number of addresses in the union of the inputs. |
| Ranges.CountAddresses | cmd/georanges-gen/main.go:438-448 | The 64-bit sum is the number of covered addresses when the blocks do not overlap, and the wrapped sum of sizes always. |
| Ranges.CoalesceDependsOnlyOnAddresses | cmd/georanges-gen/main.go:395-434 | Two inputs give the same list if and only if they cover the same addresses. |
| Aggregate.ContainsIsInside | cmd/geo-gen/main.go:478-487 | The masking test decides containment of address sets. |
| Aggregate.MergeableAreHalves | cmd/geo-gen/main.go:505-515 | Blocks in address order that pass the merge test are the lower and the upper half of the merged block. |
| Aggregate.SortBlocks | cmd/geo-gen/main.go:490 | The blocks in the given order, none lost and none invented. |
| Aggregate.SortedUnique | cmd/geo-gen/main.go:290-296 | Sorted lists without repeats and with the same members are equal, so the unstable sort has one possible result. |
| Aggregate.PruneInPlace | cmd/geo-gen/main.go:493-500 | The filter over the shared backing array leaves exactly the kept blocks in front. |
| Aggregate.PruneEquivalent | cmd/geo-gen/main.go:492-500 | Pruning a sorted list leaves disjoint ascending blocks with the same addresses and the same outermost wide blocks. |
| Aggregate.MergePass | cmd/geo-gen/main.go:502-517 | One pass computes the left-to-right merge and reports a change if and only if the list became shorter. |
| Aggregate.MergeEquivalent | cmd/geo-gen/main.go:502-518 | A merge pass keeps the list ascending and disjoint and keeps the addresses. |
| Aggregate.Round | cmd/geo-gen/main.go:489-522 | A round keeps the addresses; a changing round shortens the list, which is why the loop ends; an unchanging one leaves nothing to merge. |
| Aggregate.NothingMergesAbsorbs | cmd/geo-gen/main.go:489-522 | Once nothing merges, every covered block of /8 or narrower lies inside one block of the list. |
| Aggregate.ParseLines | cmd/geo-gen/main.go:450-470 | A block is in the list if and only if some usable line ("address/length" with a length of 1 to 32) gives it, host bits cleared; an address is covered if and only if some usable line's block holds it. |
| Aggregate.AggregateCIDRs | cmd/geo-gen/main.go:445-530 | An address is covered if and only if some usable line's block holds it, whatever other lines stand around it; the list is ascending and disjoint, absorbs every covered block of /8 or narrower, and its wider blocks are the outermost wide inputs. |
| Aggregate.AggregateDeterminedByCover | cmd/geo-gen/main.go:445-530 | Two inputs give the same list if and only if they cover the same addresses and have the same outermost blocks wider than /8. |
| Aggregate.AggregateDependsOnlyOnAddresses | cmd/geo-gen/main.go:439-444 | For inputs no wider than /8: the same list if and only if the same addresses. |
| Aggregate.WideInputsKeepTheirShape | cmd/geo-gen/main.go:433-437 | Any block wider than /8, a /7 for one, and its two halves cover the same addresses and give different lists. |
| Aggregate.AggregateIdempotent | cmd/geo-gen/main.go:439-444 | Aggregating a result gives it back. |
| Aggregate.AggregateBlocksMaximal | cmd/geo-gen/main.go:439-444 | No block of /8 or narrower that the inputs cover is larger than the result's block it contains. |
| Aggregate.AggregateFewest | cmd/geo-gen/main.go:439-444 | No list of blocks none wider than /8 covers the same addresses with fewer. |
| Aggregate.CappedCoversMost | cmd/geo-gen/main.go:282-300 | Over the cap, the kept blocks are exactly as many as the cap allows, all from the list, and cover at least as many addresses as any other choice of at most that many. |
| Aggregate.CappedKeepsLargest | cmd/geo-gen/main.go:282-300 | The file is in address order without repeats, as long as the cap allows, and every kept block is larger than every dropped one, or as large with a lower address. |
| Aggregate.UncappedUnchanged | cmd/geo-gen/main.go:284-300 | Up to the cap the aggregated list is kept as it is. |
| AggregateText.PrefixLen | cmd/geo-gen/main.go:547-559 | The value of the digits after the slash in 64-bit arithmetic, whatever follows them. |
| AggregateText.LineHasText | cmd/geo-gen/main.go:450-470 | A line is read as a block that holds x if and only if it is "a.b.c.d/n", with anything but a digit after n, n in 64-bit arithmetic is 1 to 32, and the block of that address and length holds x. |
| AggregateText.AggregateTexts | cmd/geo-gen/main.go:445-530 | Text in, text out: the printed blocks hold an address if and only if some input line does; lines that are no routes change nothing. |
| AggregateText.WrittenRead | cmd/geo-gen/main.go:524-529 | The printed blocks are read back as themselves, in order. |
| AggregateText.TextIdempotent | cmd/geo-gen/main.go:439-444 | Aggregating the printed text prints the same text. |
| Normalisers.AgreeIffNoWideMerge | cmd/geo-gen/main.go:489-522 | On blocks no wider than /1 both generators give the same list, in the same order, if and only if every block wider than /8 that the input covers lies inside one input block. |
| Normalisers.NormalisersAgree | cmd/georanges-gen/main.go:395-434 | They agree whenever the coalesced list has no block wider than /8. |
| QueueStore.Store.Save | internal/botcontrol/queue.go:278-313 | The file becomes the memory's state or stays as it was. |
| QueueStore.LoadStore | internal/botcontrol/queue.go:69-96 | A missing file gives an empty store, a readable one a store whose memory and file agree with it; one that cannot be read or parsed gives no store and the matching error. |
| QueueStore.Store.Enqueue | internal/botcontrol/queue.go:107-118 | The command joins the queue in memory whether or not the save succeeds, nothing else changes, and it is accepted if and only if the save succeeds, which makes the file the memory. |
| QueueStore.Store.Dequeue | internal/botcontrol/queue.go:122-144 | The first command leaves both copies, or, when the save fails, neither: the pop is undone and nothing is handed out. |
| QueueStore.Store.RecordResult | internal/botcontrol/queue.go:160-172 | The result becomes the last one and joins the window, of which at most the last eight stay; nothing else changes. |
| QueueStore.Store.ResultFor | internal/botcontrol/queue.go:190-204 | The latest result of the command in the window, and none if and only if there is none. |
| QueueStore.WindowIsLastEight | internal/botcontrol/queue.go:160-172 | Whatever is recorded, the window is the last eight results, in order. |
| QueueStore.FoundAfterSevenMore | internal/botcontrol/queue.go:160-204 | A result is still in the window after up to seven later ones. |
| QueueStore.Store.SetStatus | internal/botcontrol/queue.go:148-155 | Only the router's status changes. |
| QueueStore.Store.AddRouter | internal/botcontrol/registry.go:72-92 | A new acceptable router gets its record, token and name, in both copies; nothing changes when the id is bad or taken or the save fails. |
| QueueStore.Store.RenameRouter | internal/botcontrol/registry.go:157-171 | The name changes in both copies, or in neither. |
| QueueStore.Store.RemoveRouter | internal/botcontrol/registry.go:175-193 | On success record, queue and results are gone from memory and file, every other router keeps its own, and the import mark stays; otherwise both copies are as before: a failed save restores both. |
| QueueStore.Store.SeedRouter | internal/botcontrol/registry.go:96-125 | An acceptable router is added if it is not there; success means acceptable and saved, or already there. |
| QueueStore.Store.SeedRoutersFromConfig | internal/botcontrol/registry.go:136-152 | Once only: routers that are known keep their records, the acceptable ones up to the first that is not are added with a configured token and no name, nothing else is added, and the import is marked and saved only if all were acceptable. |
| QueueStore.Store.Restart | internal/botcontrol/queue.go:74-96 | A restart brings memory back to the file. |
| Server.HandlePoll | internal/botcontrol/server.go:121-130 | A command is handed out if and only if the request is authenticated, the queue is not empty and the save works; it is the first one and has left the queue in memory and file. Any other answer leaves the queue alone; 500 exactly for a failed save; the handler is the server's step of the distributed system. |
| Server.HandleResult | internal/botcontrol/server.go:132-145 | 200 if and only if the result was well formed and is now in the file; the handler is the server's step of the distributed system. |
| AgentLoop.PollOnce | internal/botcontrol/agent.go:238-275 | A command is executed if and only if nothing was owed and one was fetched; what stays owed is the old result, or the new one that could not be posted; the moves made are the listed trace. |
| AgentLoop.MoveIsStep | internal/botcontrol/agent.go:238-275 | Every move of the loop body, where it is enabled, is the corresponding step of the distributed system, and executes what that step records as executed. |
| AgentLoop.PlaysMoves | internal/botcontrol/agent.go:123-136 | In any run, whatever others do in between, the agent's phase and the commands it executed are those its own moves lead to. |
| AgentLoop.OnceInRun | internal/botcontrol/agent.go:238-275 | A whole pollOnce inside any run leaves the slot as the method says, and the agent has executed exactly the command the method executed. |
| AgentLoop.OnceHappens | internal/botcontrol/agent.go:238-275 | From every state with the agent idle there is a run of the distributed system for each outcome of pollOnce, fetching the first queued command. |
| Delivery.StepKeepsQueues | internal/botcontrol/queue.go:107-144 | Every event keeps: both copies continue what was handed out, in Enqueue order, and accepted commands are kept. |
| Delivery.StepKeepsNet | internal/botcontrol/server.go:121-145 | Every event keeps: each command travels in one answer only, and a 200 to a result means it was recorded. |
| Delivery.StepKeepsAgents | internal/botcontrol/agent.go:238-275 | Every event keeps: each agent handled each command once and accounts for its outcome. |
| Delivery.StepKeepsOrder | internal/botcontrol/agent.go:238-275 | Every event keeps: an agent executed in the order it was handed commands, and whatever its open poll may still bring was handed out later than all of that. |
| Delivery.StepKeepsRemoved | internal/botcontrol/registry.go:175-193 | Every event keeps: a removed command is in neither copy of the queue, was not handed out, and its id is used up. |
| Delivery.RunInv | internal/botcontrol/queue.go:107-144 | All five invariants hold after every run. |
| Delivery.HandedOutOnceInOrder | internal/botcontrol/queue.go:107-144 | In every run no command is handed out twice, and what a router is handed is a subsequence of its Enqueue calls in order. |
| Delivery.ExecutedOnceInOrder | internal/botcontrol/agent.go:238-275 | In every run the agent executes a command at most once, only one it was handed, and in order: what it executes is a subsequence of what it was handed and of the Enqueue calls. |
| Delivery.AcceptedNotLost | internal/botcontrol/queue.go:107-144 | In every run an accepted command is in the file's queue, or was handed out, or its router was removed. |
| Delivery.RemovedIsGone | internal/botcontrol/registry.go:175-193 | In every run a command that was queued when its router was removed is in neither copy of the router's queue and was never handed out, even if a router is added under the same id later. |
| Delivery.QueueHistory | internal/botcontrol/queue.go:107-118 | What the history counts as enqueued, accepted and removed: an Enqueue call with a new id, one whose save works, and the commands queued when a removal works; nothing else. |
| Delivery.HandedHistory | internal/botcontrol/queue.go:122-144 | A command is handed out exactly when a received poll finds it first in the queue and the save works. |
| Delivery.AgentHistory | internal/botcontrol/agent.go:238-275 | A command is executed exactly when the open poll is answered with it, and a result is produced, with the command's id and the given output, exactly when its execution ends. |
| Delivery.RecordHistory | internal/botcontrol/server.go:132-145 | A result is recorded exactly when it was posted and the save works. |
| Delivery.ResultsConserved | internal/botcontrol/agent.go:123-136 | While the agent process lives, every executed command has a result, and every result is recorded at the server or held in the one retry slot. |
| Delivery.NothingOwedWhileWorking | internal/botcontrol/agent.go:123-136 | When an agent polls or executes, all its earlier results are recorded. |
| Delivery.SlotDroppedOnlyAfterRecord | internal/botcontrol/agent.go:238-275 | The slot is emptied only by a 200, and that result is recorded. |
| Delivery.FullSlotBlocksWork | internal/botcontrol/agent.go:238-275 | With a full slot no event makes the agent poll or execute. |
| Delivery.RecordedIsOnDisk | internal/botcontrol/server.go:132-145 | A result that becomes recorded is in the file's window and is the file's last result. |
| Delivery.LostOnlyByRestart | internal/botcontrol/agent.go:123-136 | Only a restart of the agent process loses a result or cuts a command short. |
| AcmeGate.Gate.Acquire | cmd/keenetic-xray-control-server/acmegate.go:114-135 | A request is let in if and only if the gate is not closed and the port is open or can be bound; then one more is in flight and the port is open. A refused one changes neither; every call on a gate that is not closed makes the armed timer stale. |
| AcmeGate.Gate.Release | cmd/keenetic-xray-control-server/acmegate.go:137-147 | One request less is in flight; the last one leaves the port open and arms one new timer, the others change nothing else. |
| AcmeGate.Gate.CloseIdle | cmd/keenetic-xray-control-server/acmegate.go:153-161 | A callback shuts the port if and only if it is the current timer's, and changes nothing else but that timer. |
| AcmeGate.Gate.Close | cmd/keenetic-xray-control-server/acmegate.go:165-173 | The gate is closed for good, the port shut, no timer pending. |
| AcmeGate.Gate.CancelIdleLocked | cmd/keenetic-xray-control-server/acmegate.go:175-181 | Every armed timer becomes stale; the stopped one does not fire if the stop came in time. |
| AcmeGate.RunKeepsInv | cmd/keenetic-xray-control-server/acmegate.go:114-193 | The invariant holds after every interleaving of operations and callbacks. |
| AcmeGate.LetInExactly | cmd/keenetic-xray-control-server/acmegate.go:114-147 | In every run a request is let in if and only if the gate is not closed and the port is open or can be bound, however many others are in flight, and is counted until it is released. |
| AcmeGate.OpenExactlyWhenNeeded | cmd/keenetic-xray-control-server/acmegate.go:114-161 | Until it is closed for good, the port is open if and only if a request is in flight or the current timer is pending, and never both. |
| AcmeGate.OnlyCurrentTimerCloses | cmd/keenetic-xray-control-server/acmegate.go:149-161 | A stale callback changes nothing; the current one finds the port open and idle and shuts it. |
| AcmeGate.RequestHoldsPort | cmd/keenetic-xray-control-server/acmegate.go:114-173 | While a request is in flight only Close shuts the port. |
| AcmeGate.ClosedForGood | cmd/keenetic-xray-control-server/acmegate.go:163-173 | Once closed, the port never opens again, whatever follows. |
| EventStats.Stats.RecordEvent | internal/adaptiveroute/stats.go:88-114 | An event of the six known kinds joins the log, the counts and, if it is the first, the start time; unknown kinds are ignored; with a clock that never goes back at most 158 buckets are kept. |
| EventStats.Stats.Query | internal/adaptiveroute/stats.go:125-143 | The start time is the log's, and the totals count its events of each kind. A window never counts too much, and it counts exactly the events of a kind in the last 6 or 144 ten-minute buckets, pruned or not, unless the clock went back far behind the latest event. |
| EventStats.SinceIsFirst | internal/adaptiveroute/stats.go:92-97 | The start time is that of the first event, whatever follows. |
| EventStats.CountsAre | internal/adaptiveroute/stats.go:88-143 | The counts a query is compared with are numbers of events in the log: all of a kind, or those in the window's buckets. |
| EventStats.WindowCounts | internal/adaptiveroute/stats.go:88-143 | The buckets still kept hold the whole count of a window: pruning changes no answer. |
| EventStats.KeepIs150Buckets | internal/adaptiveroute/stats.go:88-114 | 25 hours back is 149 or 150 buckets back, also across the epoch, where division truncates the other way. |
| EventStats.OrderedClockIsExact | internal/adaptiveroute/stats.go:125-143 | A clock that never goes back always meets the query's condition. |
| ExclusionList.Contains | internal/adaptiveroute/exclude.go:101-115 | True if and only if the text is a bare address that some network of the list covers. |
| ExclusionList.Overlaps | internal/adaptiveroute/exclude.go:121-145 | True if and only if the candidate is a network or address that shares an address with the list. |
| ExclusionList.SweepExcluded | internal/adaptiveroute/exclude.go:315-341 | Exactly the members that overlap the list and whose removal works are taken out, each in its place, whichever removals fail; a failure is reported if and only if the removal of an overlapping member failed. |
| ExclusionList.TakenExactly | internal/adaptiveroute/exclude.go:315-341 | When all removals work, a member is taken if and only if it overlaps the list. |
| ExclusionList.SweepLeavesNothingExcluded | internal/adaptiveroute/exclude.go:315-341 | A member goes if and only if one of its addresses is excluded, so no address of a remaining member is. |
| DottedQuad.QuadRoundTrip | internal/adaptiveroute/exclude.go:51-57 | Reading a written address gives it back. |
| DottedQuad.QuadExactly | internal/adaptiveroute/exclude.go:51-57 | A text is read as an address if and only if it is the text written for that address. |
| DottedQuad.QuadIs | internal/adaptiveroute/exclude.go:51-57 | An address is written as its four octets in decimal, the highest first. |
| DottedQuad.CidrRoundTrip | internal/adaptiveroute/exclude.go:181-186 | Reading a written network gives it back. |
| DottedQuad.CidrExactly | internal/adaptiveroute/exclude.go:58-66 | A text is read as a network if and only if it is an address of that network, a slash and a decimal equal to its length, at most 32: host bits may be set and leading zeros given in the length. |
| DottedQuad.EntryExactly | internal/adaptiveroute/exclude.go:46-73 | Without a slash exactly the written addresses are entries, with one exactly the network texts. |
| DottedQuad.CanonicalRoundTrip | internal/adaptiveroute/exclude.go:46-73 | Reading a canonical entry gives its network back. |
| DottedQuad.CanonicalInjective | internal/adaptiveroute/exclude.go:46-73 | Two networks have the same canonical text if and only if they are the same, so comparing texts compares networks. |
| ExclusionFile.MaskedTextParses | internal/adaptiveroute/exclude.go:181-186 | A canonical entry, given a mask if it has none, parses to the entry's own network. |
| ExclusionFile.ClassifyIs | internal/adaptiveroute/exclude.go:151-179 | A line made of blanks, a text, blanks and a comment is blank if the text is empty, that entry if the text reads as a network of /8 or narrower, and unreadable otherwise. |
| ExclusionFile.ParseExclusions | internal/adaptiveroute/exclude.go:151-179 | The networks are the first 512 different entries in file order, spelled canonically, and the unreadable lines are counted. |
| ExclusionFile.NamesEntry | internal/adaptiveroute/exclude.go:238-275 | The remover's test agrees with the parser on which lines are the entry. |
| ExclusionFile.AddExclusion | internal/adaptiveroute/exclude.go:207-234 | A bad entry is refused, a listed one changes nothing, one beyond 512 is refused, and otherwise the file is the old text, ended by a newline if it was not, and the canonical line. |
| ExclusionFile.RemoveExclusion | internal/adaptiveroute/exclude.go:238-275 | A bad entry is refused; the file is rewritten with exactly the lines that are not the entry, each in its place, or left alone if no line is the entry. |
| ExclusionEdits.ClassifyIgnoresCR | internal/adaptiveroute/exclude.go:151-179 | A carriage return at the end of a line changes no entry. |
| ExclusionEdits.LinesRead | internal/adaptiveroute/exclude.go:151-179 | Lines are read without their ends, "\r\n" or "\n", and the last one needs none. |
| ExclusionEdits.ListedIs | internal/adaptiveroute/exclude.go:151-179 | The list of a file is its different entries where they stand first, up to the 512th. |
| ExclusionEdits.AddedList | internal/adaptiveroute/exclude.go:207-234 | After adding, the parsed list is the old one plus the entry, the same lines are unreadable, and every old line is there verbatim, followed by the new one. |
| ExclusionEdits.RemovedListExactly | internal/adaptiveroute/exclude.go:238-275 | After removing, the parsed list is the old one minus the entry if and only if the entry was not listed or the file held at most 512 different entries. |
| ExclusionEdits.RemovalLetsAnotherIn | internal/adaptiveroute/exclude.go:151-179 | In every file that lists the first n addresses for some n above 512, removing the first lets another one in. |
| ExclusionEdits.RemoveKeepsOtherLines | internal/adaptiveroute/exclude.go:236-275 | After a removal the other lines are there verbatim and in order if and only if no line named the entry, or none of the others ends in a carriage return and they are not one blank line. |
| ExclusionEdits.SameIffUnnamed | internal/adaptiveroute/exclude.go:238-275 | The file is left alone if and only if no line names the entry. |
| ExclusionEdits.RemoveDropsReturn | internal/adaptiveroute/exclude.go:236-275 | A comment line that ends in a carriage return, beside a listed entry, does not survive the removal verbatim. |
| ExclusionEdits.AddThenRemove | internal/adaptiveroute/exclude.go:207-275 | Adding an absent entry and removing it restores the text up to its final newline if and only if no line ends in a carriage return and the text is not a single newline. |
| ExclusionEdits.EmptyLineIsLost | internal/adaptiveroute/exclude.go:207-275 | A file of one empty line is empty after adding and removing an entry. |
| ShellConf.UnquoteInvertsEscape | internal/addons/nfqws2.go:234-249 | Reading a double-quoted value as a shell does (POSIX.1 Shell Command Language, section 2.2.3) inverts the escaping, and the value cannot end its quotes early, whatever follows. |
| ShellConf.EscapeInjective | internal/addons/nfqws2.go:243-249 | Different values are written differently. |
| ShellConf.LineAssigns | internal/addons/nfqws2.go:254-291 | A written line assigns its key exactly the value it was given. |
| ShellConf.RewriteLines | internal/addons/nfqws2.go:267-278 | The loop replaces exactly the lines of the requested keys and collects exactly the keys it rewrote. |
| ShellConf.SeenKeysAre | internal/addons/nfqws2.go:267-283 | A key is among those collected if and only if some line was rewritten for it, so exactly the other keys are appended. |
| ShellConf.NewLinesAre | internal/addons/nfqws2.go:267-285 | The new lines are the old ones in place, those of requested keys replaced, and an assignment for each missing setting. |
| ShellConf.ShellConfSet | internal/addons/nfqws2.go:254-291 | For every map: no output if and only if some value holds a line break; otherwise each line of a requested key becomes KEY="value", escaped, every other line stays in its place, and one such line is appended for each key no line had, in key order. |
| ShellConf.SourcedAfterSet | internal/addons/nfqws2.go:234-291 | For keys that are shell names: sourcing the new file gives every requested key its exact value and every other key what it had before, last assignment winning. |
| ShellConf.OtherLinesVerbatim | internal/addons/nfqws2.go:254-291 | Lines of other keys, comments and blank lines stay as they are, in place. |
| AdaptiveCodec.TsvField | internal/botcontrol/adaptivelist.go:30-32 | Tabs and line breaks become blanks, all else stays. |
| AdaptiveCodec.TallyEntries | internal/adaptiveroute/list.go:99-117 | The total is the number of entries; each of the four counts is the number of entries with a note of that tier; unknown is the number of all others. |
| AdaptiveCodec.FormatAdaptiveList | internal/botcontrol/adaptivelist.go:41-77 | The text is the header lines and the rows of the first 200 entries, with the tally that counts the entries of each tier. |
| AdaptiveCodec.ParseAdaptiveList | internal/botcontrol/telegram_adaptive.go:66-109 | The data is the fold of the line reader over all lines. |
| Decimal.AtoiOfFormat | internal/botcontrol/adaptivelist.go:220-226 | A printed number reads back as itself if an int can hold it, and as the default otherwise. |
| CodecRoundTrip.ParseJoined | internal/botcontrol/telegram_adaptive.go:66-75 | A line joined from fields without separators is read as those fields. |
| CodecRoundTrip.ParsePrinted | internal/botcontrol/telegram_adaptive.go:66-109 | Reading the printed lines is reading the printed fields one line after the other. |
| CodecRoundTrip.PrintedLines | internal/botcontrol/adaptivelist.go:34-77 | The text, line by line and field by field: "#n" and the six tallies, "#hour", "#day" and "#total" with six counts each, "#since", "#excl", then for each of the first 200 entries its eight fields, blanks for separators, whole seconds left or -1. |
| CodecRoundTrip.HeaderParses | internal/botcontrol/telegram_adaptive.go:76-99 | The six header lines give back the tallies, all eighteen counters, the start time in seconds and the exclusion count. |
| CodecRoundTrip.RowParses | internal/botcontrol/telegram_adaptive.go:100-107 | A row gives back its entry, separators blanked; it looks like a header if and only if the address starts with '#'. |
| CodecRoundTrip.RowsRead | internal/botcontrol/telegram_adaptive.go:100-107 | The rows give back, in order, exactly the entries that do not look like headers. |
| CodecRoundTrip.KeptPicks | internal/botcontrol/telegram_adaptive.go:100-107 | The entries that are read are exactly those whose address does not start with '#', each in its place. |
| CodecRoundTrip.NewerRouter | internal/botcontrol/telegram_adaptive.go:62-109 | A blank line, a header line of another name or a row cut short changes nothing, wherever it stands and however many carriage returns end it: a newer router does not break an older bot. |
| CodecRoundTrip.ExtraFields | internal/botcontrol/telegram_adaptive.go:100-107 | A row is read by its first eight fields, whatever follows them. |
| CodecRoundTrip.RoundTrip | internal/botcontrol/adaptivelist.go:34-77 | Parsing the printed list recovers all tallies, counters, the start time, the exclusion count and the first 200 entries in order, if and only if none of those has an address starting with '#'; in any case the entries are those without such an address. |
| CodecRoundTrip.HeaderLikeEntryIsLost | internal/botcontrol/telegram_adaptive.go:76-82 | An entry with the address "#n" is not among the entries the bot reads. |
| CodecRoundTrip.RouterToBot | internal/botcontrol/telegram_adaptive.go:62-109 | If none of the first 200 addresses starts with '#', the bot shows for every list: the number of entries, those of each tier and the rest, all counters, the start time, the exclusion count, and each of these entries with its own fields. Otherwise such entries are missing, and only then. |
| Substring.JoinContains | internal/adaptiveroute/adaptiveroute.go:541-558 | Neighbouring words of a listed rule occur in the line as a phrase, with the blank after them unless they are the last. |
| Substring.PhraseInJoin | internal/adaptiveroute/adaptiveroute.go:541-558 | A phrase of two words that occurs in a line occurs inside one of its words or across two neighbours. |
| Substring.WordInJoin | internal/adaptiveroute/adaptiveroute.go:541-558 | A text without a blank that occurs in a line occurs in one of its words. |
| RedirectRules.RedirectListed | internal/adaptiveroute/adaptiveroute.go:487-498 | A redirect rule, with or without the comment match, is recognised as ours and holds every phrase the drift check wants. |
| RedirectRules.RejectListed | internal/adaptiveroute/adaptiveroute.go:520-537 | The same for a reject rule. |
| RedirectRules.OldRedirectsAreOurs | internal/adaptiveroute/adaptiveroute.go:560-573 | A PREROUTING rule is recognised as ours if one of its words is our comment, or if it matches a set and redirects to ports, whatever protocol, ports, set or interface an older version wrote. |
| RedirectRules.OldRejectsAreOurs | internal/adaptiveroute/adaptiveroute.go:575-585 | A FORWARD rule is recognised as ours if one of its words is our comment, or if it matches a set and rejects UDP port 443. |
| RedirectRules.OthersAreForeign | internal/adaptiveroute/adaptiveroute.go:566-585 | A rule with no word that holds our comment, and none about a set or none with such a target, is not taken for ours. |
| RedirectRules.RedirectIsTCP | internal/adaptiveroute/adaptiveroute.go:502-509 | A redirect rule reads as a UDP one if and only if its interface name or the set name holds "-p udp". |
| RedirectRules.ForeignAfterDelete | internal/adaptiveroute/adaptiveroute.go:602-614 | Deleting one of our rules leaves all others in their order. |
| RedirectRules.ForeignPicks | internal/adaptiveroute/adaptiveroute.go:599-641 | The rules that are not ours are all there, each in its place among the others. |
| RedirectRules.ClearOurs | internal/adaptiveroute/adaptiveroute.go:599-641 | Rules that are not ours stay in their order whatever fails, and they are all that is left if the listing and the deletions work; a chain that cannot be listed is not touched; of our rules exactly the copies whose deletion failed are left. |
| RedirectRules.RedirectRulesFor | internal/adaptiveroute/adaptiveroute.go:328-345 | Two redirect rules for each interface, ports 80 and 443, in interface order. |
| RedirectRules.RejectRulesFor | internal/adaptiveroute/adaptiveroute.go:364-379 | One reject rule for each interface. |
| RedirectRules.RedirectedIsClean | internal/adaptiveroute/adaptiveroute.go:470-514 | Other rules followed by ours hold every redirect the drift check wants, and no UDP redirect of ours if and only if no name holds "-p udp". |
| RedirectRules.LastRedirectsWin | internal/adaptiveroute/adaptiveroute.go:409-442 | Whatever redirects an earlier call installed, for whatever options, a later call leaves the table as if it had been the only one; repeating a call changes nothing. |
| RedirectRules.LastRejectsWin | internal/adaptiveroute/adaptiveroute.go:447-468 | The same for the rejects. |
| RedirectRules.Router.EnsureQUICReject | internal/adaptiveroute/adaptiveroute.go:447-468 | The problem is remembered if and only if a rule was refused in both attempts, with the comment match and without it; then none of ours is left. Otherwise, if what a refused first attempt left was cleared, the reject rules are the first rules of the chain, the last interface's first, followed by exactly the other rules in their order. |
| RedirectRules.Router.EnsureRedirect | internal/adaptiveroute/adaptiveroute.go:409-514 | No error if and only if the options are valid and one of the two attempts was accepted whole. Other rules stay in their order whatever fails. If the clearings worked, the reject rules stand in front of all others and the redirects, two for each interface, behind them, word for word. After a nil error the drift check is content if and only if no UDP redirect of ours is left, and after clearings that worked if and only if no name holds "-p udp", with or without comment or REJECT support. |
| HostMatch.Matches | cmd/keenetic-xray/l7sni_match.go:59-81 | True if and only if some domain of the set equals the host or is its suffix after a dot, with at most one lookup per label. |

## Left out

- IPv6, and IPv4 addresses written inside IPv6 ones: addresses are read as dotted quads only, so a route or never-route line such as `::ffff:10.0.0.1`, which Go accepts, counts as unreadable here; a network that is not IPv4 is one constructor of the input of `Ranges.Coalesce`.
- `parseDelegated`, `parseDelegatedASNs`, `parseIPToASN`, `render` and the rest of `buildFile` (fetching, the drift gate, ranking of domains, manifests).
- Sorting is by a function with the standard library's contract; the sorting algorithm itself is not modelled.
- JSON, file permissions, `fsync` and a store without a file; the store file holds what was last saved. Locks are not modelled: each method of the store and of the gate is one atomic step.
- Times on commands, results and heartbeats, `AwaitResult`, `/agent/event` and `/agent/heartbeat`, timeouts of commands.
- Command ids are taken to be different (`newCommandID` joins the time in nanoseconds and a counter of the process): an Enqueue with a used id is no step of the distributed system.
- A first start has no queued commands; later states, with full queues, are reached by runs, which include restarts.
- Tokens, certificates and fingerprints: a request is authenticated or not, and a handler may always refuse.
- Wrap-around of the gate's 64-bit generation counter, and the listener and HTTP server behind `open`.
- EventStats.Stats.Query: once the clock has gone back far enough for pruned buckets to matter, only that a window never counts too much is stated, not how much it misses; the source promises windows for a running clock.
- The entry cache of `EventStats` (`NoteAdded`, its eviction) and the mutexes of the package-level counters.
- `ExclusionsWatcher`, sorting the entries for display, lines over 64 KiB, and `ipset` itself: the members a sweep reads and whether each removal works are parameters.
- `export KEY=...`, line continuations, command substitutions and quotes that span lines in a sourced file: such a value counts as unknown, and the file is taken as one assignment per line. File permissions and the order of a Go map, which the code sorts away, are not modelled.
- `int` is taken to have 64 bits (`Decimal.IsInt64`): on a router built for a 32-bit processor numbers beyond 32 bits would read as 0 or be cut.
- Durations in the adaptive list are in nanoseconds, as Go holds them; the time of the first event is its Unix time.
- How iptables parses and prints rules: a rule is the line `iptables -S` lists for the words given, with the protocol's own match spelled out, and deleting a listed line removes the first rule that prints so. Names hold no line break. Splitting a listed line into words and taking quotes off a comment are part of whether a deletion works.
- The converse of the drift check for rules of others: it matches phrases, so a rule for port 800 also counts as one for port 80.
- `l7sniDomainsFrom` and the shared-address tracker beside the host matcher, the Telegram screens, paging, setup and diagnosis: single branches and presentation.
