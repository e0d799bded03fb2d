# Verified models of the server's protocols and tables

This project models the hard parts of the ircd in Dafny and proves what they promise. Every `.dfy` file is one module; `dafny verify dfyconfig.toml` checks all of them together. Nothing here executes the server: the statements are about the model, which follows the C code branch by branch.

Where the C code updates state in place, the model does: a class (`ModuleSyncServer.State`, `CidrStore.Tree`, `ModHostStream.Reader`, `HooksTable.Table`, `HooksChain.Point`, `BatchServer.Server`, `MsgQ.Queue`, `Multiline.InBatch`, `Netconf.Config`, `FlagSet.Flags`, `CapabServer.Register`, `DbTable.Table`, `HttpRoutes.Router`, `HttpCalls.Calls`, `Gline.Record`) or a method with its loops, proved equal to a specification on values. The theorems are then about the specification: over every reachable state, every run, or every input.

- **Network-wide module transactions** (`ModuleSync*`): two-phase commit of LOAD, UNLOAD and RELOAD over all servers, and the rule that linked servers run equal module sets. A network is a map of servers, the stream of lines each has sent, and how far every other has read it; a run is any interleaving of operator commands, deliveries, timeouts, rehashes, links and losses.
- **CIDR tree** (`Cidr*`): the two-family prefix tree with virtual nodes refines a map with longest-prefix match; the iteration macro is complete and safe under removal.
- **Module-host frames** (`ModHost`, `ModHostStream`): the length-prefixed wire format, its encoder and three-way decoder, and the read loop over arbitrary chunks.
- **Placeholder expansion** (`Env*`): a parser and a meaning for the `${...}` language, and the single-pass scanner of the server proved equal to them.
- **Suspended hooks** (`Hooks*`): holds that end exactly once by answer, deadline, unload or exit, with callbacks that re-enter; and the ordered chains.
- **Batches and labels** (`Batch*`), **send queues** (`SendQueue`, `MsgQ`), **multiline** (`Multiline`): the lines queued for every client, the order they are received in, and the cut-and-rejoin round trip.
- **Requests in flight** (`Db*`, `Http*`): conservation of calls, results, routes and requests.
- **Registers and replicated records** (`Capab*`, `FlagSet`, `Migration*`, `Netconf`, `Gline`, `I18nFormat`, `IrcCase`). `Options` and `Lists` are shared by the others.

## Where the code differs from what it promises

The model follows the code. In each case a concrete input is proved, and an exact condition for when the promise does hold.

- `ircd/module_sync.c:682-709` and `806-831`: a participant that reaches its own deadline, or loses the coordinator, undoes a transaction others commit, so one failure does not always abort everywhere (`ModuleSyncExamples.DeadlineSplits`, `CutOffSplits`). `ModuleSyncAborts.AppliedIffTold` is the condition: once it is applied somewhere, exactly those who are told the outcome apply it.
- `ircd/module_sync.c:776-783`, `824-830` and `921-926`: a failed reload and a lost coordinator can change the module set without an announcement, so linked servers can stay different (`ModuleSyncExamples.ReloadSplits`). `ModuleSyncLinks.UnannouncedIffSilent` and `ModuleSyncTheorems.SilentBreaks` give the exact condition.
- `ircd/module_sync.c:325-362`: the end of a burst read while a transaction is under way is let pass and never looked at again, so a peer that never announced stays linked and uncompared (`ModuleSyncExamples.UncomparedStays`; `ModuleSyncBursts.BurstSurvivesIff`, `LinksAccounted`).
- `ircd/module_sync.c:867-931`: an aborted RELOAD leaves the module gone only on servers that got as far as unloading it (`ModuleSyncExamples.ReloadStays`, `ModuleSyncAborts.ReloadGoneIff`).
- `ircd/cidr_lookups.c:217-257`: the family is chosen by the address alone, so a mask such as `::/96` lives in the IPv6 tree and is not found for an IPv4-compatible address it covers (`CidrFamilies.CompatibleIsMissed`, `OneTreeIsEnough`). A search starts comparing at the root's own length, so in the IPv4 tree the top 96 bits are never compared, and `::1.2.3.4` finds what is stored for `::ffff:1.2.3.4` (`CidrFamilies.CompatibleIsMistaken`, `SearchIsRightIff`).
- `ircd/cidr_lookups.c:146-207`: a mask that its family's root does not cover has no parent to be hung from, and the code then writes through a null one (`CidrFamilies.CompatibleHasNoPlace`, `HasPlaceIff`).
- `ircd/modhost_frame.c:104-168`: the decoder's limit is on the length field and the encoder's on the whole frame, so frames of up to four bytes more are read than are ever written (`ModHost.UnwrittenExists`, `WrittenIffSmall`). The encoder cuts the serial to 32 bits (`ModHost.SerialIsCut`, `RoundTrip`). Without arguments it writes a header without looking at the size of the buffer (`ModHost.HeaderOverruns`, `TakenFitsIff`).
- `ircd/hooks.c:195-213`: the timer is armed once and not moved for an earlier deadline (`HooksTheorems.DeadlineOvertaken`, `WatchedIff`). `ircd/http.c:525-541` does the same (`HttpPasses.DeadlineOvertaken`, `WatchedIff`).
- `ircd/hooks.c:245-259`: the token counter skips only tokens of holds already recorded, so once it has gone round a token can be given again to an operation, even while the chain it was given to first still runs, and an answer then reaches the wrong one (`HooksTokens.TokenComesRound`, `TwoWithOneToken`; `StaleTokenDoesNothingIff`, `ResumeReachesItsOwnIff`).
- `ircd/hooks.c:723-801`: a client that exits inside the chain run for it can still be called back, because the hold is recorded after the exit has looked for it (`HooksExits.CalledAfterExit`, `CalledAfterIff`).
- `ircd/batch.c:147-173`: a handler that leaves its own batch open makes the label's close line nest wrongly (`BatchExamples.LeftOpen`, `BatchNesting.CommandNestsIff`). Labels longer than 64 characters are truncated (`BatchLabels.LongLabelIsCut`, `KeptIff`).
- `ircd/send.c:1161` and `ircd/msgq.c:224-234`: a line with priority goes ahead of those queued, so a labeled WALLOPS is received before the line that opens its batch (`BatchExamples.WallopsComesFirst`; `BatchReceipt.LabeledShapeIff`, `AlwaysLabeledIff`, `ReceivedNestsIff`, `ToldIff`).
- `ircd/multiline.c:106-118`: every client that takes such batches is said to be in the batch of a long message while it is relayed, to whomever it was opened, and the batch of a label is asked first, so an error to the sender of a labeled long message, or the echo of it (`ircd/ircd_relay.c:321`), names the label's batch inside the message's (`BatchExamples.SenderIsTold`, `StrangerIsTold`; `BatchNesting.FanIsFineIff`, `OwnFanIff`). `ircd/send.c:400-415`: tags are made out once for recipients that look the same, and two in different batches do: the JOIN that makes a hidden member known (`ircd/channel.c:3829-3857`) goes to it and to the others (`BatchExamples.NextMemberIsMistaken`, `BatchNesting.SharedTagsIff`).
- `ircd/ircd_netconf.c:125-196`: a deletion leaves nothing behind, so an older setting delivered later brings the key back (`Netconf.DeletedComesBack`, `ConvergesIff`). Of different values with one timestamp the one heard first stays (`Netconf.TieStays`, `FirstStands`). A callback is also made when only the timestamp changed, and values are compared without case (`Netconf.SameValueCalls`, `IdleCallbackIff`).
- `ircd/migration_run.c:435-594`: a module reloaded with fewer versions than are applied has gaps after a revert (`MigrationRun.ShrunkLeavesGap`, `ShrunkIff`, `AlwaysPrefixIff`).
- `ircd/db.c:610-639`: a result is not given back, or goes to another driver, when its callback withdrew the one it came from (`DbResults.LeakHappens`, `BackToItsOwnIff`). `ircd/db.c:380-399`: the loop that fails a withdrawn driver's calls also fails those a callback submits to a new one (`DbTheorems.NewDriverFails`, `WithdrawalFailsAll`).
- `ircd/gline.c:792-982`: a local action on an expired line, or one that asks for the local state the line already has, carrying other updates and an older version, sets that older version; the commands never make one (`Gline.VersionFalls`, `VersionGrows`).
- `ircd/capab.c:92-116`: names are documented as letters, digits, dashes, dots and underscores after an optional vendor prefix; the character class used for letters and digits also takes `{|}~[\]^` (`Capab.BraceAccepted`, `DocumentedIff`).

## Model

| member | source | states |
|---|---|---|
| ModuleSyncTheorems.CommitIsUnanimous | include/module_sync.h:39-48 | in every reachable network, a COMMIT that was ever sent comes from the transaction's own coordinator, which began and prepared it and never sends ABORT for it, and every server it asked had prepared successfully and said READY |
| ModuleSyncTheorems.Agreement | include/module_sync.h:39-54 | in every reachable network, if one server applied a transaction and another undid the same one, the second gave up by itself: its own deadline passed, or it was cut off from the coordinator at a point before the COMMIT that the first one read; AppliedIffTold has both directions |
| ModuleSyncTheorems.SettledOnce | ircd/module_sync.c:659-675 | on one server a transaction is prepared at most once and settled at most once: a settled one was prepared before, with nothing opened or closed between, and (no rehash between) leaves what the operation promises: a committed change made, an aborted LOAD undone, an aborted UNLOAD never done, an aborted RELOAD gone |
| ModuleSyncOnce.RunOnce | ircd/module_sync.c:867-980 | over every run each server asks for a transaction once, reads and enters each one at most once, and every answer stands for the entry made with it |
| ModuleSyncAborts.FailureNeverCommits | include/module_sync.h:39-54 | once an asked server has said FAILED, left before answering, or let the deadline pass, no continuation of the run ever has the coordinator send COMMIT; it is still waiting for the others or has sent ABORT |
| ModuleSyncAborts.RefusedNeverCommits | ircd/module_sync.c:933-959 | in every reachable network, a transaction that one of the servers asked has refused is not committed, whether the refusal has been read or not |
| ModuleSyncAborts.AbortUndoes | ircd/module_sync.c:961-980 | whoever prepared a transaction and has read the coordinator's ABORT has settled it, uncommitted: an UNLOAD never happened, a LOAD is undone and a RELOAD is gone where the module could be taken out |
| ModuleSyncAborts.AppliedIffTold | ircd/module_sync.c:682-709 | when a transaction was applied anywhere, any server that is done with it applied it if and only if it was told the outcome rather than giving up by itself |
| ModuleSyncAborts.ReloadGoneIff | ircd/module_sync.c:563-636 | an abandoned RELOAD leaves the module gone on every server concerned if and only if each of them was free to take part and could let the module go, or never had it |
| ModuleSyncAborts.GoneIffLetGo | ircd/module_sync.c:563-636 | the same for one server, in every reachable network |
| ModuleSyncTheorems.SameOutcome | ircd/module_sync.c:961-980 | two servers that prepared alike and were told the outcome end with the same outcome and the same module set |
| ModuleSyncTheorems.OthersAreRefused | ircd/module_sync.c:867-931 | while a transaction is under way, a second one and every line about any other is refused or ignored, and the server and its modules stay exactly as they were |
| ModuleSyncTheorems.DeadlineEnds | ircd/module_sync.c:682-709 | on every reachable server a transaction under way has the timer running, and the timer ends it |
| ModuleSyncTheorems.ReachableInv | ircd/module_sync.c:846-983 | every network reached from freshly started servers by any messages, timeouts, losses, links and operator commands satisfies the transaction invariant and has truthful records |
| ModuleSyncBursts.QuietLinks | include/module_sync.h:27-37 | after any run with no silent loss, a server that keeps the rule and any peer linked to it, with nothing in flight between them, run equal module sets, or the peer never announces and was excused at the end of its burst |
| ModuleSyncBursts.LinksAccounted | ircd/module_sync.c:325-362 | in every reachable network a server that keeps the rule has compared each link, or has not read the end of its burst, or excused it then; for a peer that never announces exactly one of the last two holds |
| ModuleSyncBursts.BurstSurvivesIff | ircd/module_sync.c:325-362 | a peer not compared when its burst ends stays linked if and only if it is a service or a transaction is under way at that moment |
| ModuleSyncBursts.RunBursts | ircd/module_sync.c:274-362 | that every link is compared, still bursting or excused holds along every run, as does that only who keeps the rule announces or is compared |
| ModuleSyncTheorems.RunLinks | include/module_sync.h:27-37 | over any such run every link between servers that keep the rule joins equal sets, or a differing announcement or a transaction is still on its way; links to other peers are the subject of QuietLinks |
| ModuleSyncTheorems.SilentBreaks | ircd/module_sync.c:806-831 | a silent change of the module set on an otherwise quiet link always breaks the link invariant there |
| ModuleSyncProgress.AllReadyCommits | include/module_sync.h:40-48 | in every run, for every operation: once every server that was asked has said READY and the coordinator has read it, and nobody's refusal, COMMIT has been sent, if the coordinator's deadline did not pass and it lost none of those it asked |
| ModuleSyncProgress.ReadyIff | ircd/module_sync.c:867-931 | a server answers PREPARE with READY if and only if it keeps the rule, has nothing else under way, and the module is absent and loads (LOAD), is present (UNLOAD), or is present, is let go and loads again (RELOAD); with FAILED otherwise; and what it then runs |
| ModuleSyncProgress.BeginsIff | ircd/module_sync.c:721-804 | everyone is asked, and the transaction recorded, if and only if the beginning server could itself take part; a network of one commits at once |
| ModuleSyncProgress.CommitApplies | ircd/module_sync.c:634-680 | every server that prepared a transaction and has read COMMIT is done with it, and has applied it, unless it had given up by itself before; what is then left of its set |
| ModuleSyncProgress.AnnouncedIff | ircd/module_sync.c:270-304 | an announcement drops the link if and only if the rule is kept, no transaction is under way and the sets differ, and counts as compared if and only if they do not; during a transaction it changes nothing |
| ModuleSyncProgress.BurstEndIff | ircd/module_sync.c:325-362 | the end of a burst drops the link if and only if the rule is kept, no transaction is under way, the peer was not compared and is no service |
| ModuleSyncProgress.OnlyOverTheLink | ircd/module_sync.c:855-865 | an announcement or the end of a burst means something only to the server it is for, over the link the two have |
| ModuleSyncProgress.LinkIs | include/module_sync.h:70-75 | a new link is there at both ends, uncompared, and both announce what they run and then end their burst; a lost one is forgotten |
| ModuleSyncLinks.UnannouncedIffSilent | ircd/module_sync.c:306-323 | an event leaves a neighbour with a stale set and no announcement if and only if it is one of the silent ones, recognisable from the state and the event before it happens |
| ModuleSyncSteps.ReactFacts | ircd/module_sync.c:846-983 | what every single event may do: which lines it sends, how it may change each transaction role, and what it records |
| ModuleSyncEffects.ReactIsRight | ircd/module_sync.c:539-675 | after any event the module set is what the record of prepared and settled transactions says it should be |
| ModuleSyncCommit.RunKeeps | ircd/module_sync.c:720-983 | the transaction invariant holds along every run of the network |
| ModuleSyncCommit.ActionKeeps | ircd/module_sync.c:720-983 | every event, link and loss keeps the transaction invariant: order of the streams, who began and prepared what, who is still awaited |
| ModuleSyncExamples.DeadlineSplits | ircd/module_sync.c:682-709 | a reachable network in which the coordinator applied a LOAD and a participant undid it at its deadline |
| ModuleSyncExamples.ReloadSplits | ircd/module_sync.c:776-783 | a reachable network of two linked servers, nothing in flight, whose module sets differ after a reload failed on the coordinator |
| ModuleSyncExamples.CutOffSplits | ircd/module_sync.c:806-831 | a reachable network in which the coordinator applied a LOAD and a participant, cut off after its READY, undid it |
| ModuleSyncExamples.ReloadStays | ircd/module_sync.c:867-931 | a reachable network in which a RELOAD was abandoned and read to be so by both, the module is gone from the coordinator and still runs on the server that refused |
| ModuleSyncExamples.UncomparedStays | ircd/module_sync.c:325-362 | a reachable network with a quiet link to a peer that never announced, excused because its burst ended during a transaction, with different module sets |
| ModuleSyncServer.State.constructor | ircd/module_sync.c:985-994 | a server starts with nothing under way, nobody checked and nothing sent |
| ModuleSyncServer.State.Busy | ircd/module_sync.c:715-718 | busy exactly when it coordinates or participates |
| ModuleSyncServer.State.LocalChange | ircd/module_sync.c:306-323 | announces the new set to every direct link, and does nothing else |
| ModuleSyncServer.State.RecvSet | ircd/module_sync.c:274-304 | a link whose set differs is dropped unless a transaction is under way; an equal one is marked as compared |
| ModuleSyncServer.State.BurstDone | ircd/module_sync.c:325-362 | a peer that never announced is refused at the end of its burst |
| ModuleSyncServer.State.DropPeer | ircd/module_sync.c:384-398 | takes one peer off the waiting list and says whether it was there |
| ModuleSyncServer.State.CollectPeers | ircd/module_sync.c:403-424 | waits for every server but this one, each once |
| ModuleSyncServer.State.Finish | ircd/module_sync.c:438-477 | sends the outcome, settles the local part, and ends the transaction |
| ModuleSyncServer.State.Rollback | ircd/module_sync.c:539-556 | undoes a LOAD this transaction did, takes a failed RELOAD's module away, leaves an UNLOAD alone |
| ModuleSyncServer.State.PartPrepare | ircd/module_sync.c:563-636 | the phase-one action of each operation and whether it worked |
| ModuleSyncServer.State.PartCommit | ircd/module_sync.c:639-654 | the phase-two action of each operation |
| ModuleSyncServer.State.PartSettle | ircd/module_sync.c:659-675 | applies or undoes what was prepared, once, and forgets it |
| ModuleSyncServer.State.Timeout | ircd/module_sync.c:682-709 | the coordinator aborts, the participant rolls back |
| ModuleSyncServer.State.Begin | ircd/module_sync.c:720-804 | refuses when busy; otherwise prepares here and asks every other server, or gives up |
| ModuleSyncServer.State.ServerGone | ircd/module_sync.c:806-831 | a missing answer aborts; a missing coordinator rolls back |
| ModuleSyncServer.State.RecvPrepare | ircd/module_sync.c:867-931 | refuses a second transaction without touching the first, else prepares and answers |
| ModuleSyncServer.State.RecvAnswer | ircd/module_sync.c:933-959 | counts an awaited answer; the last READY commits, a FAILED aborts |
| ModuleSyncServer.State.RecvOutcome | ircd/module_sync.c:961-980 | settles only the transaction it is about |
| ModuleSyncServer.State.Recv | ircd/module_sync.c:846-983 | every line is handled as the specification function says, lines sent and records included |
| CidrTree.BestIsLongest | include/cidr_lookups.h:154-160 | for the address sought, the best match holds data, covers the query, is at least as long as every other covering data node, and all of those lie on its chain of parents |
| CidrTree.ExactIsExact | include/cidr_lookups.h:138-153 | for the address sought, the exact searches find a node if and only if it is the node of that address and length (and holds data, for the data form) |
| CidrTree.NearestIs | ircd/cidr_lookups.c:444-453 | the nearest data ancestor is one, and every other data ancestor lies above it |
| CidrTree.AboveCovers | include/cidr_lookups.h:36-43 | prefix lengths strictly grow on every path, and whatever a node covers its ancestors cover |
| CidrTree.SoughtIs | ircd/cidr_lookups.c:217-257 | the address a search is really for has the query's low 32 bits below the mapped prefix in the IPv4 tree, and is the query itself if and only if that is not an IPv4 address written unmapped |
| CidrTree.BitDiffIs | ircd/cidr_lookups.c:66-87 | comparing from a start bit, word by word, gives the first difference from bit 0 when the two addresses agree up to there |
| CidrTree.PutLeafOk | ircd/cidr_lookups.c:146-207 | hanging a new leaf keeps the tree's shape |
| CidrTree.PutAboveOk | ircd/cidr_lookups.c:146-207 | putting a shorter prefix in a node's place keeps the tree's shape |
| CidrTree.PutForkOk | ircd/cidr_lookups.c:146-207 | joining two diverging prefixes under a virtual node keeps the tree's shape |
| CidrTree.SpliceOk | ircd/cidr_lookups.c:279-327 | replacing a one-child virtual node by its child keeps the tree's shape |
| CidrTree.UnlinkOk | ircd/cidr_lookups.c:279-327 | cutting off a childless node keeps the tree's shape |
| CidrStore.FindMeans | include/cidr_lookups.h:138-171 | against the plain map of stored prefixes, for the address sought: the best search is longest-prefix match with its data, never a virtual node, and the exact search succeeds if and only if the map has the prefix |
| CidrStore.ShortDiff | ircd/cidr_lookups.c:217-257 | for a mask shorter than the IPv4 root, the comparison at the root stays within the mask if and only if the search's own assertion holds |
| CidrStore.Tree.constructor | ircd/cidr_lookups.c:92-107 | a new tree stores nothing and has its two family roots |
| CidrStore.Tree.Add | ircd/cidr_lookups.c:146-207 | the map gains or replaces exactly that prefix and the returned node is it, if and only if the family's root covers the mask; otherwise there is no parent to hang it from |
| CidrStore.Tree.InsertLeaf | ircd/cidr_lookups.c:146-207 | the branch with a free side: same map update |
| CidrStore.Tree.InsertAbove | ircd/cidr_lookups.c:146-207 | the branch with a shorter prefix: same map update |
| CidrStore.Tree.InsertFork | ircd/cidr_lookups.c:146-207 | the branch with diverging prefixes: same map update |
| CidrStore.Tree.FindNode | ircd/cidr_lookups.c:217-257 | all three search modes agree with the map for the address sought |
| CidrStore.Tree.Search | ircd/cidr_lookups.c:217-257 | the walk that starts comparing at the root's own length and goes on from there finds what the specified search finds for the address sought |
| CidrStore.Tree.AllMatches | include/cidr_lookups.h:99-114 | visits every stored prefix covering the address sought and nothing else, longest first |
| CidrStore.Tree.ClosestDataParent | ircd/cidr_lookups.c:444-453 | the nearest proper ancestor with data, or none |
| CidrStore.Tree.GetData | ircd/cidr_lookups.c:260-264 | the map's value for the address sought, or nothing |
| CidrStore.Tree.CollapseNode | ircd/cidr_lookups.c:279-327 | frees a needless virtual node and perhaps its parent; no data is lost and no needless virtual node is left |
| CidrStore.Tree.RemNode | ircd/cidr_lookups.c:333-345 | the map loses exactly that prefix; only the node and possibly its virtual parent are freed |
| CidrStore.Tree.RemByCidr | ircd/cidr_lookups.c:267-270 | removes the prefix sought from the map and says whether it was there |
| CidrStore.Tree.RemEmptyNode | ircd/cidr_lookups.c:353-358 | frees a cleared node when nothing hangs from it, leaving the tree tidy |
| CidrIter.ForEach | include/cidr_lookups.h:50-97 | visits every stored prefix of both families exactly once, also when the body removes any of the current nodes; with the 129-slot stack, and it ends |
| CidrIter.PickNext | include/cidr_lookups.h:69-92 | the next node is chosen before the body, by the macro's five cases, within the stack |
| CidrIter.StackFits | include/cidr_lookups.h:71-72 | the stack never holds more than 128 entries |
| CidrWords.FirstDiff | ircd/cidr_lookups.c:66-87 | the search over eight 16-bit words computes the first differing bit at or after the start bit's word, for any addresses and any bounds |
| CidrFamilies.OneTreeIsEnough | ircd/gline.c:193-203 | looking only in the query's own family tree is enough, for every mask the server stores, if and only if the query is not an IPv4-compatible address written without the mapped prefix |
| CidrFamilies.CompatibleIsMissed | ircd/cidr_lookups.c:217-257 | for each such query a mask that covers it is stored in the other family's tree |
| CidrFamilies.SearchIsRightIff | ircd/cidr_lookups.c:217-257 | every search for an address, on every tree, agrees with the map of stored prefixes if and only if the address is not an IPv4 address written unmapped |
| CidrFamilies.WrongMatch | ircd/cidr_lookups.c:217-257 | for each such address there is a tree in which the exact search finds a prefix that is not there |
| CidrFamilies.CompatibleIsMistaken | ircd/cidr_lookups.c:217-257 | the exact search for ::1.2.3.4/128 finds the node of ::ffff:1.2.3.4/128 |
| CidrFamilies.HasPlaceIff | ircd/cidr_lookups.c:146-207 | a mask is covered by its family's root, so that it can be added, if and only if it is not of an IPv4 address that is written unmapped or cut above the root |
| CidrFamilies.CompatibleHasNoPlace | ircd/cidr_lookups.c:146-207 | ::1.2.3.4/128 is covered by no root in any tree |
| ModHost.DecodeIff | ircd/modhost_frame.c:104-168 | the decoder returns a frame and its length if and only if the bytes begin with that legal frame |
| ModHost.DecodesWire | ircd/modhost_frame.c:104-168 | a legal frame followed by anything decodes to itself |
| ModHost.DecodedIsWire | ircd/modhost_frame.c:104-168 | whatever decodes is a legal frame that the buffer begins with |
| ModHost.PrefixNeedsMore | include/modhost.h:231-246 | every strict prefix of a legal frame asks for more |
| ModHost.PrefixFree | include/modhost.h:58-72 | no frame begins another |
| ModHost.VerdictStands | include/modhost.h:231-246 | more bytes never change a verdict already given |
| ModHost.VerdictsMean | include/modhost.h:231-246 | broken is final, need-more is honest, and one frame's worth of bytes settles it |
| ModHost.WordKept | ircd/modhost_frame.c:41-54 | a 32-bit field reads back what was written |
| ModHost.WordForth | ircd/modhost_frame.c:41-54 | four bytes read are the four bytes that would be written |
| ModHost.WordCut | ircd/modhost_frame.c:48-54 | a wider value is cut to 32 bits |
| ModHostLayout.BigEndian | ircd/modhost_frame.c:48-54 | a number is written most significant byte first, each byte given by division |
| ModHostLayout.WordIs | ircd/modhost_frame.c:40-45 | four bytes are read as the sum of each times its power of 256, the first the highest |
| ModHostLayout.LayoutIs | ircd/modhost_frame.c:56-102 | where every field of a frame is on the wire: the length of what follows, verb, serial and number of arguments at fixed places, each argument with its length before it and a zero after |
| ModHostLayout.LegalIff | include/modhost.h:115-121 | a frame can be decoded if and only if it has at most 32 arguments, a 32-bit serial and at most 65536 bytes after its length |
| ModHost.Measure | ircd/modhost_frame.c:56-86 | the size is non-zero exactly when the arguments can be encoded in the room given |
| ModHost.PutArgs | ircd/modhost_frame.c:87-102 | writes every argument with its length and terminator, and nothing else |
| ModHost.Encode | ircd/modhost_frame.c:56-102 | succeeds exactly when there are not too many arguments and they fit; writes exactly the frame; touches nothing on failure; says it wrote more than the buffer holds exactly when there are no arguments and no room for a header |
| ModHost.TakenFitsIff | ircd/modhost_frame.c:56-102 | what is accepted for a buffer fits it if and only if there are arguments or the buffer has room for a header |
| ModHost.HeaderOverruns | ircd/modhost_frame.c:56-102 | a frame without arguments is accepted for nine bytes and is ten long |
| ModHost.RoundTrip | include/modhost.h:215-246 | an encoded frame decodes to itself if and only if its serial fits 32 bits, and otherwise with the serial cut |
| ModHost.SerialIsCut | ircd/modhost_frame.c:48-54 | a frame with serial 2^32 is read back with serial 0 |
| ModHost.WrittenIffSmall | include/modhost.h:108-115 | a legal frame can be written if and only if it is at most the frame limit in all; a legal one may be four bytes more |
| ModHost.UnwrittenExists | ircd/modhost_frame.c:104-130 | a frame the decoder accepts and the encoder never writes |
| ModHostStream.DecodeView | ircd/modhost_frame.c:104-168 | the offsets found lie inside the buffer, are terminated, and show exactly the decoded frame; -1, 0 and length mean broken, need more and a frame |
| ModHostStream.Reader.constructor | ircd/modhost.c:727-784 | the reader starts empty |
| ModHostStream.Reader.Readable | ircd/modhost.c:727-784 | takes what fits, acts on every whole frame until one of them kills the host, keeps the rest, dies on broken bytes or an end of file |
| ModHostStream.Reader.Scan | ircd/modhost.c:752-775 | every whole frame from the front, in order, up to the one that kills the host, and where it stopped |
| ModHostStream.Reader.MoveDown | ircd/modhost.c:777-780 | what was not used is moved to the front unchanged |
| ModHostStream.LeftOver | ircd/modhost.c:752-783 | what is left is never a whole frame, so there is always room to read more |
| ModHostStream.DrainMore | ircd/modhost.c:752-783 | bytes arriving later change nothing made of earlier ones |
| ModHostStream.CutAnyWay | ircd/modhost.c:727-784 | however a stream is cut into reads, the same frames come out, up to the same failure |
| ModHostStream.DrainStream | ircd/modhost.c:727-784 | a stream of legal frames and an unfinished tail drains to those frames and that tail |
| ModHostStream.StreamArrives | include/modhost.h:196-246 | any list of legal frames delivered in any chunks, cut anywhere inside a further one, is read as exactly that list |
| ModHostStream.StreamIsUnique | include/modhost.h:58-72 | two lists of frames with the same bytes are the same list |
| Env.FillIsMeaning | ircd/ircd_env.c:150-295 | writing into the bounded buffer while scanning gives the meaning of the parsed text when it fits, and the same error otherwise |
| Env.FillRefIsMeaning | ircd/ircd_env.c:150-252 | the same for one reference and its word |
| Env.ExpandIff | include/ircd_env.h:37-66 | a string expands to a text if and only if that is its meaning and it is within the length limit; a longer meaning is an error |
| EnvForms.ReferenceIsValue | ircd/ircd_env.c:154-227 | a reference to a variable that is set, its name a letter or underscore and then those and digits, at most 128, stands for the value, unless that is longer than 8192 |
| EnvForms.FormValue | include/ircd_env.h:37-66 | what ${NAME} stands for, with the variable set or unset, and whatever follows it |
| EnvForms.FormDefault | include/ircd_env.h:37-66 | what ${NAME-word} and ${NAME:-word} stand for, with the variable set, empty and unset |
| EnvForms.FormAlternate | include/ircd_env.h:37-66 | what ${NAME+word} and ${NAME:+word} stand for, with the variable set, empty and unset |
| EnvForms.FormRequired | include/ircd_env.h:37-66 | what ${NAME?word} and ${NAME:?word} stand for, with the variable set, empty and unset: an error of the word's own, or that the variable is unset |
| EnvForms.FormDollar | include/ircd_env.h:63-66 | two dollars are one, and a dollar before anything but a dollar or a brace is itself |
| EnvForms.FormText | ircd/ircd_env.c:263-304 | text up to the next dollar is itself |
| EnvForms.NoName | ircd/ircd_env.c:165-171 | a reference that ends at once is a syntax error, one that begins with no letter a bad name |
| EnvForms.LongName | ircd/ircd_env.c:172-177 | a name of more than 128 characters is a bad name |
| EnvForms.NoSign | ircd/ircd_env.c:181-196 | anything but a closing brace, a sign or a colon and a sign after the name is a syntax error |
| EnvForms.NotClosed | ircd/ircd_env.c:198-209 | a word whose braces never close the reference is a syntax error |
| EnvLaws.ValuesAreNotRead | include/ircd_env.h:37-66 | the result is a plan made without sight of any value, with the values plugged in verbatim |
| EnvLaws.SameShapeSameFate | include/ircd_env.h:37-66 | with the same names set and empty, a string that expands in one environment has a meaning in the other and expands there if and only if that is within the length limit, and one that fails for any reason but length fails in both |
| EnvLaws.DoubledComesBack | include/ircd_env.h:37-66 | doubling every dollar of any string expands back to that string if and only if it is within the limit |
| EnvLaws.EightIsAllowed | ircd/ircd_env.c:257-262 | nesting of up to eight is never refused for depth |
| EnvLaws.ChainLimit | ircd/ircd_env.c:257-262 | a chain of defaults with nothing set is refused for depth exactly from nine on |
| EnvLaws.ReadingErrors | ircd/ircd_env.c:150-252 | the parser itself can only report a syntax error or a bad name, at any depth of nesting |
| EnvLaws.ClosingIff | ircd/ircd_env.c:198-209 | the closing brace found is the first place where as many are closed as were open |
| EnvLaws.BalancedCloses | ircd/ircd_env.c:198-209 | a balanced word is closed at its own brace |
| EnvLaws.ReadBack | ircd/ircd_env.c:150-295 | every document in canonical form is read back from its written form as itself |
| EnvExpand.ScanName | ircd/ircd_env.c:150-252 | stops at the end of the name |
| EnvExpand.ScanRun | ircd/ircd_env.c:257-295 | stops at the next dollar or the end |
| EnvExpand.ScanWord | ircd/ircd_env.c:198-209 | finds the brace that closes the reference, or that there is none |
| EnvExpand.ScanHead | ircd/ircd_env.c:150-252 | name, colon, modifier and word of a reference, or the right error |
| EnvExpand.ScanRest | ircd/ircd_env.c:150-252 | modifier and word after the name, or the right error |
| EnvExpand.Substitute | ircd/ircd_env.c:150-252 | the seven forms, with the word expanded only when used, give what the reference means after what is already written |
| EnvExpand.Scan | ircd/ircd_env.c:257-295 | one piece: plain run, doubled dollar, lone dollar or reference |
| EnvExpand.ExpandInto | ircd/ircd_env.c:257-295 | the scanner equals parse-then-evaluate at every depth and buffer |
| EnvExpand.ExpandString | ircd/ircd_env.c:401-420 | the entry point equals parse-then-evaluate from an empty buffer |
| EnvExpand.ExpandBuf | ircd/ircd_env.c:430-458 | the expansion and its terminator are in the caller's buffer if it fits, else an empty string and the error; nothing past that is written |
| HooksTheorems.EndsExactlyOnce | include/hooks.h:435-538 | over every run each operation is held at most once, and each hold has ended exactly once or is still listed |
| HooksTheorems.CalledForAReason | include/hooks.h:480-500 | a callback runs only after the suspending call returned, with the answer given for that token, or DENY because that hold's deadline passed or its module left |
| HooksTheorems.DroppedWithItsClient | include/hooks.h:520-526 | a hold ends without a callback only because its own client left |
| HooksTheorems.SettledForGood | include/hooks.h:504-518 | once decided or ended, no later event touches an operation |
| HooksPasses.PassEndsAll | ircd/hooks.c:320-383 | over every run from the beginning of a pass over late holds or over a module's holds to its end, with any callbacks in between, every hold it was about has ended |
| HooksPasses.PassCanEnd | ircd/hooks.c:320-383 | from every state a pass under way can come to its end |
| HooksExits.CalledAfterIff | include/hooks.h:520-526 | an operation of a client can still be called back after the client's exit if and only if its chain is being run at the moment of the exit |
| HooksExits.CalledAfterExit | ircd/hooks.c:723-801 | a run in which a client exits inside the chain run for it, the chain is then suspended, and the answer is delivered |
| HooksTheorems.ExitClears | ircd/hooks.c:345-358 | after a client's exit no hold of it is left and every other hold is; what a chain running at that moment can still do is CalledAfterIff |
| HooksTheorems.DeadlineIsLeast | include/hooks.h:534-535 | the reported deadline is zero if and only if nothing is held, and else the least of all |
| HooksTheorems.WatchedIff | ircd/hooks.c:195-213 | the timer stays no later than every deadline across a step if and only if the step does not record a hold with a deadline before the armed time |
| HooksTheorems.RunWatched | ircd/hooks.c:195-231 | it stays so over every run without such a step |
| HooksTheorems.DeadlineOvertaken | ircd/hooks.c:195-213 | a run in which the timer waits for 100 while a hold is due at 50 |
| HooksTheorems.StaleTokensDoNothing | include/hooks.h:504-518 | until the counter has gone round, answering with the token of an operation not held changes nothing |
| HooksTokens.StaleTokenDoesNothingIff | include/hooks.h:504-518 | in every reachable state, answering with the token of an operation not held changes nothing if and only if no operation that is held was given that token again; if one was, it is settled |
| HooksTheorems.ResumeReachesItsOwn | ircd/hooks.c:810-839 | until the counter has gone round, answering with a held operation's token settles that operation with that answer |
| HooksTokens.ResumeReachesItsOwnIff | ircd/hooks.c:810-839 | in every reachable state, answering with a held operation's token settles that operation if and only if none suspended later and still held has the same token |
| HooksTokens.TokenComesRound | ircd/hooks.c:245-259 | a run in which the counter goes round and a second operation is held with the token of one long decided: answering the first settles the second |
| HooksTokens.TwoWithOneToken | ircd/hooks.c:723-801 | a run in which the counter goes round while a chain still runs, and two holds have one token: an answer to the one reaches the other |
| HooksEvents.EndsAsAsked | include/hooks.h:479-503 | whatever ends a hold is an answer with the token its chain was asked with, passed on; or a denial in a pass begun at or past the deadline it was asked with, or begun to unload the module that put it off; or the exit of the client it was asked for |
| HooksEvents.ReturnsAsAsked | ircd/hooks.c:723-801 | a chain's return decides as it says, or is held for the module that put it off with the token, client and deadline of the call, or denied when 16384 are held |
| HooksEvents.PassEnds | include/hooks.h:458-463 | a pass begun at or past that deadline, or to unload that module, has ended the hold when it is over |
| HooksEvents.ExitDropsIff | include/hooks.h:520-526 | a client's exit drops the hold if and only if it was asked for that client |
| HooksEvents.TimerIs | ircd/hooks.c:195-231 | the timer is spent when it fires and otherwise stays as set; it is set for the earliest deadline there is, when an operation is held or its own pass is over and anything is held |
| HooksRuns.StepKeeps | ircd/hooks.c:723-839 | every event keeps the invariant tying holds, running calls and history together |
| HooksRuns.RunKeeps | ircd/hooks.c:723-839 | and so does every run, with callbacks that suspend, answer, unload and exit from inside one another |
| HooksRuns.EndOne | ircd/hooks.c:262-291 | ending one hold ends its operation and no other |
| HooksTable.Table.constructor | ircd/hooks.c:1031-1060 | nothing held, no timer |
| HooksTable.Table.Find | ircd/hooks.c:234-243 | the first hold with that token, if any |
| HooksTable.Table.NewToken | ircd/hooks.c:252-259 | the next count whose low 32 bits are neither zero nor outstanding; the loop ends |
| HooksTable.Table.Deadline | ircd/hooks.c:300-310 | the least deadline |
| HooksTable.Table.ArmTimer | ircd/hooks.c:195-213 | arms for the earliest deadline, only when not armed already |
| HooksTable.Table.Begin | ircd/hooks.c:723-760 | makes out a fresh token for the run |
| HooksTable.Table.Finished | ircd/hooks.c:760-801 | records the hold, or refuses it when the table is full, or reports the decision |
| HooksTable.Table.Answer | ircd/hooks.c:810-839 | true exactly when the token was outstanding; then the callback runs with that result |
| HooksTable.Table.RefuseLate | ircd/hooks.c:320-342 | refuses the first late hold, or says there is none |
| HooksTable.Table.RefuseOwed | ircd/hooks.c:365-383 | refuses the first hold of the module, or says there is none |
| HooksTable.Table.CancelClient | ircd/hooks.c:345-358 | drops every hold of the client without a callback |
| HooksChain.Point.constructor | ircd/hooks.c:1031-1060 | an empty chain |
| HooksChain.Point.Add | ircd/hooks.c:419-460 | the hook is in the chain, which stays in order of priority and then of registration |
| HooksChain.Point.Del | ircd/hooks.c:576-605 | one live matching hook goes, at once or by mark when a run is under way; found exactly when there was one |
| HooksChain.Point.DelModule | ircd/hooks.c:610-641 | exactly the module's hooks stop being live; during a run every node stays where it is and only those are marked |
| HooksChain.Point.RunChanging | ircd/hooks.c:663-703 | with hooks that add and delete any hooks of the chain while it is run: those called were in it and alive at that moment, are in order and called once; the result is the last one's, all before continued; and every hook there from before to after, whose turn came, was called |
| HooksChain.Point.Run | ircd/hooks.c:663-703 | with hooks that change nothing the result is that of the first live hook in order that does not continue; with none it is continue; marked hooks do not run |
| HooksChain.Point.Reap | ircd/hooks.c:393-413 | removes exactly the marked hooks |
| HooksChain.OneDecider | ircd/hooks.c:663-703 | at most one hook can be the deciding one, whatever the list looks like otherwise |
| HooksChain.ReapedIs | ircd/hooks.c:393-413 | reaping keeps order and the number of live hooks |
| BatchReceipt.LabeledShapeIff | include/batch.h:23-50 | between commands, whatever became of the nesting before, what the client of a labeled command receives for it is one labeled ACK and nothing else, or a labeled batch opening, unlabeled lines, and the matching close last, if and only if no line with priority is queued for it while that first line still waits |
| BatchReceipt.AlwaysLabeledIff | include/batch.h:23-50 | the same of every labeled command after any run of commands that close the batches they open |
| BatchReceipt.ServeReceivedIff | include/batch.h:107-144 | over any commands that close the batches they open and any moments of writing, what a client receives is properly nested if and only if nothing was told it elsewhere than in the innermost batch it knows of, and every line with priority is in the batch that is open at the front of its queue |
| BatchReceipt.CommandReceivedIff | include/batch.h:107-144 | the same for one command, where also what was received before must be nested and no batch of the command's own may be left open to the client |
| BatchReceipt.ReceivedNestsIff | ircd/msgq.c:177-245 | for any lines queued: received nested if and only if the lines without priority are nested and each with it is in the batch that is open where it comes out |
| BatchReceipt.CalmIff | ircd/msgq.c:224-234 | while no line that opens or closes a batch waits, a line with priority only has to be in the innermost batch |
| BatchReceipt.ToldIff | include/batch.h:23-50 | no client receives a line naming a batch before the line that opens it, if and only if no line with priority is queued while the opening line of its own batch waits |
| BatchExamples.WallopsComesFirst | ircd/send.c:1110-1181 | an operator that sees wallops sends a labeled WALLOPS and receives it before the line that opens the batch it is in |
| BatchNesting.CommandNestsIff | include/batch.h:107-144 | after any command what is queued in order for a client is properly nested if and only if it was before, everything it was told was in the innermost batch it had been told of, and the handler left no batch of its own open to it |
| BatchNesting.ServeNestsIff | include/batch.h:107-144 | over any commands that close the batches they open, what is queued in order for a client is properly nested if and only if no command told it anything elsewhere |
| BatchNesting.FanIsFineIff | ircd/multiline.c:331-404 | a long message, whatever is said meanwhile, to whom and with whatever tags, keeps a client's lines nested if and only if every line without priority said to it names the innermost batch it knows of, its label is not first opened inside the message's batch, and that batch is closed to it exactly if it was opened |
| BatchNesting.OwnFanIff | ircd/multiline.c:331-404 | when the lines said meanwhile are made out for each recipient and have no priority: if and only if the client is told nothing meanwhile, or gets its batch and is in no other, or does not take such batches or is in one of its own; and the batch is closed to it exactly if it was opened |
| BatchNesting.SharedTagsIff | ircd/send.c:391-420 | a line to any recipients, its tags made out once for those that look the same unless each has its own, names the right batch to a client if and only if it has priority or its tags were made out for one that is in the batch the client is in, and the client's label, if it is opened with the line, is opened where the client knows it is |
| BatchNesting.QuietIsFine | ircd/send.c:391-420 | while no long message is relayed and one client at most is in a batch of its own, every line names the right batch, with shared tags too |
| BatchExamples.SenderIsTold | ircd/ircd_relay.c:300-325 | the sender of a labeled long message, in its batch, is told off, or has its own message echoed: the line names the label's batch, not the message's |
| BatchExamples.StrangerIsTold | ircd/multiline.c:106-118 | one who is not on the channel is told so while it is relayed: the line names a batch that was never opened to them |
| BatchExamples.NextMemberIsMistaken | ircd/channel.c:3829-3857 | a hidden member's first words are a labeled long message: the JOIN that makes it known goes to it and to the next member, whose copy names the sender's batch |
| BatchExamples.LeftOpen | ircd/batch.c:213-246 | a handler that leaves its batch open makes the label's close come out inside it |
| BatchLabels.LabelOnlyFrames | include/batch.h:23-50 | erasing batch lines, ACKs and tags, a labeled command queues for every client exactly what it would with any other label or none, with the same priorities |
| BatchErasure.LabelOnlyFramesReceived | include/batch.h:23-50 | and what a client receives of it, erased, whenever lines are written, it can receive in that order of the command with any other label or none |
| BatchContents.ContentsAre | ircd/send.c:391-420 | what a command queues for a client, but for batch lines, ACKs and tags, is what its handler said to that client: each line once for each time, in order, with its text and priority |
| BatchContents.KindsAre | ircd/batch.c:213-246 | the batches a command opens to a client, but for its label's, are those its handler asked for while none was open, each with its kind, and one for each long message that is for it |
| BatchContents.LabelsAre | ircd/batch.c:100-146 | a label comes back once, cut to 64 characters, to the client that sent it, if it takes batches and labels; nobody else is sent one |
| BatchErasure.SameReceived | ircd/msgq.c:177-245 | of two lists of queued lines that are equal once erased, every order in which the one is received, erased, is one in which the other can be |
| BatchNesting.EndFollows | ircd/batch.c:147-173 | ending a label keeps nesting exactly when no inner batch is open to that client |
| BatchNesting.ActsFollow | ircd/batch.c:95-261 | after any actions of a handler the batches open to a client are those the records say, exactly when each action told it things where it knew it was |
| BatchLabels.ActsMark | ircd/batch.c:123-144 | the label is spent on one line only, whatever the handler sends and to whom |
| BatchLabels.ResponseIs | include/batch.h:23-50 | what a labeled command queues for its client, whatever became of the nesting before, is one labeled ACK and nothing else, or a labeled batch opening, unlabeled lines and the matching close last; the first of them is in no batch if the client was told nothing out of place |
| BatchLabels.KeptIff | ircd/batch.c:95-117 | a label comes back unchanged if and only if it is at most 64 characters; a longer one is truncated |
| BatchLabels.LongLabelIsCut | ircd/batch.c:95-117 | a label of 65 characters does not come back as it was |
| BatchServer.Server.SendBuffer | ircd/send.c:346-479 | the first line to the labeled client is preceded by the opening line, which is itself not in the batch; every line is queued with the batch in force, or with the tags made out for the recipient before if this one looks the same, and with its priority |
| BatchServer.Server.LabelBeforeSend | ircd/batch.c:123-144 | opens the labeled batch once, lazily, and only for its client |
| BatchServer.Server.LabelBegin | ircd/batch.c:95-117 | starts a label only for a client with both capabilities |
| BatchServer.Server.LabelEnd | ircd/batch.c:147-173 | closes the batch, or sends the ACK when nothing was said |
| BatchServer.Server.Say | ircd/send.c:855-895 | one line to any number of recipients, each with its tags, as the specification says |
| BatchServer.Server.SayOne | ircd/send.c:346-479 | one of those lines |
| BatchServer.Server.OutOpen | ircd/batch.c:213-246 | opens one batch to a client with the capability, nested in what is in force, or refuses |
| BatchServer.Server.OutClose | ircd/batch.c:251-261 | closes it only for its own client |
| BatchServer.Server.FanOpen | ircd/multiline.c:331-365 | the line that opens the batch of a long message, to each of those it is for that asked for it |
| BatchServer.Server.FanClose | ircd/multiline.c:367-404 | and the one that closes it |
| BatchServer.Server.FanTo | ircd/send.c:855-895 | to each of them once, inside what it is in otherwise |
| BatchServer.Server.ClientExiting | ircd/batch.c:266-275 | forgets the leaving client's label and batch, and nobody else's |
| SendQueue.OvertakesIff | ircd/msgq.c:177-245 | of two lines queued the later is received first if and only if it has priority, the earlier has not, and no byte of the earlier has been written |
| SendQueue.EachOnce | ircd/msgq.c:177-245 | every line queued is received exactly once |
| MsgQ.WholeLines | ircd/msgq.c:155-245 | whatever was queued and however many bytes each write took, the bytes written are the beginning of whole lines, one after the other, in the queue's order, and the rest of them is what is left |
| MsgQ.Queue.constructor | ircd/msgq.c:137-152 | an empty queue |
| MsgQ.Queue.Add | ircd/msgq.c:530-603 | the line goes to the end of its list; the counts are right |
| MsgQ.Queue.DelMsg | ircd/msgq.c:94-132 | bytes of one message, removed when all of it is written |
| MsgQ.Queue.Delete | ircd/msgq.c:155-175 | any number of bytes written: exactly that many of what was to be written next, or all there was; the stream received stays the same |
| MsgQ.Queue.MapIov | ircd/msgq.c:177-245 | the pieces offered to a write are what is to be written next, all of it unless there are too few places |
| MsgQ.MapList | ircd/msgq.c:224-242 | one list, after what is mapped already |
| Multiline.NothingIsLost | include/batch.h:263-279 | any lines, cut to any positive budget and rejoined by the concat marks, are exactly those lines |
| Multiline.RejoinPieces | include/batch.h:263-279 | the pieces of a line added after anything do what the whole line would have done |
| Multiline.PiecesFit | ircd/multiline.c:486-561 | no piece is over the budget, only an empty line gives an empty piece, and exactly the later pieces are marked |
| Multiline.PiecesAreText | ircd/multiline.c:454-480 | with a budget of at least four, every piece of a valid text is whole characters |
| Multiline.CutFits | ircd/multiline.c:454-480 | a cut is within the budget and never empty unless the text is |
| Multiline.CutBetweenIff | ircd/multiline.c:454-480 | the cut falls between characters if and only if some character starts within the budget |
| Multiline.CutBetween | ircd/multiline.c:454-480 | with room for the longest character it always does |
| Multiline.CutAfterSpace | ircd/multiline.c:454-480 | the cut is just after the last space among the 32 bytes before the last character that starts within the budget, or where that character starts |
| Multiline.BackOffIs | ircd/multiline.c:454-480 | backing off stops at the nearest start of a character |
| Multiline.AfterSpaceIs | ircd/multiline.c:454-480 | the cut moves after the last space in reach, or stays |
| Multiline.BudgetFits | ircd/multiline.c:420-440 | there is room for a character whatever the names are, all the room there is where that is more than the least, and the line fits the wire if and only if the names' lengths leave room for the least budget |
| Multiline.Cut | ircd/multiline.c:454-480 | the loop computes the specified cut |
| Multiline.Deliver | ircd/multiline.c:486-561 | the nested loops send the pieces of every line in order, up to the piece at which the sender is found dead |
| Multiline.DeliverLine | ircd/multiline.c:486-561 | one line's pieces, the first unmarked, as long as the sender lives |
| Multiline.InBatch.Add | ircd/multiline.c:253-318 | refused for a wrong batch, target (both up to case) or kind, or too long, exactly then; otherwise appended or joined; a refusal leaves the message as it was, except that one for length on an empty message still sets its kind |
| Multiline.InBatch.Append | ircd/multiline.c:284-318 | a concat piece continues the last line, any other starts one |
| Netconf.ConvergesIff | doc/readme.netconf:7-18 | for any set of updates, every delivery order and repetition ends alike for a key if and only if nothing ever sets it, or its newest settings carry one value and no deletion is newer; one with their timestamp loses |
| Netconf.NewestStands | doc/readme.netconf:7-18 | delivered among any others, the newest setting of a key is what is stored, when those with its timestamp agree and no deletion is newer |
| Netconf.FirstStands | ircd/ircd_netconf.c:125-196 | of different settings with the newest timestamp the one delivered first stands |
| Netconf.SettledConverges | doc/readme.netconf:7-18 | two servers that saw all updates in any orders agree on the key and hold its newest value |
| Netconf.DeletionDiverges | ircd/ircd_netconf.c:125-196 | a key whose newest update is a deletion is back after any older setting is delivered again |
| Netconf.DeletedComesBack | ircd/ircd_netconf.c:125-196 | set, deleted, and the setting delivered once more: the key is back |
| Netconf.UnsettledDiverges | ircd/ircd_netconf.c:125-196 | two delivery orders that end differently, for every set that fails the condition |
| Netconf.TieStays | ircd/ircd_netconf.c:125-196 | two settings of one key with one timestamp, heard in two orders: two servers keep different values |
| Netconf.CallbacksTellAll | ircd/ircd_netconf.c:109-117 | replaying the callbacks of a key, each starting from the value the one before left, ends with the stored value |
| Netconf.IdleCallbackIff | ircd/ircd_netconf.c:125-196 | the code is 'timestamp only' exactly when a callback is made whose two values are the same up to case; a rejected update changes nothing and calls nobody |
| Netconf.SameValueCalls | ircd/ircd_netconf.c:125-196 | a newer update with the same value makes a callback from that value to itself |
| Netconf.BurstsAgreeIff | ircd/ircd_netconf.c:282-293 | after exchanging bursts two servers are equal if and only if they did not hold different values under one timestamp |
| Netconf.Config.Find | ircd/ircd_netconf.c:91-102 | finds the entry by name regardless of case, if and only if there is one |
| Netconf.Config.Set | ircd/ircd_netconf.c:125-196 | the list, the code and the callbacks are what the update means for the store |
| IrcCase.Same | ircd/ircd_string.c:180-191 | the comparison loop decides equality under the server's case folding |
| IrcCase.SameIff | ircd/table_gen.c:134-137 | two strings are the same to the server if and only if they are letter by letter: equal, or a capital and its small letter, spelled out by their codes |
| Migration.NameIff | include/migration.h:40-50 | a file name is read as a version, name and direction if and only if it is spelled that one way with a version of one to nine digits and no leading zero |
| MigrationNames.FileIff | ircd/migration.c:57-118 | the same with every character spelled out: v, 1 to 999999999, an underscore, 1 to 64 letters, digits or underscores, and .up.sql or .down.sql |
| MigrationNames.FirstCountsMost | ircd/migration.c:76-92 | the number in a name is read with its first digit counting most |
| Migration.NineDigits | ircd/migration.c:65-119 | a version has at most nine digits exactly below a billion |
| Migration.ParseFile | ircd/migration.c:65-119 | the hand-written scanner reads exactly those names |
| Migration.ParseName | ircd/migration.c:65-119 | name and direction after the version |
| Migration.ScanDigits | ircd/migration.c:65-119 | the run of digits |
| Migration.Number | ircd/migration.c:65-119 | the value of the digits |
| MigrationBuild.Build | include/migration.h:136-154 | accepts if and only if there are files, the owner's name fits and the files are a gap-free, fully paired set of at most 256 versions; version i+1 is at index i with its own two texts |
| MigrationBuild.OrderDoesNotMatter | include/migration.h:136-154 | acceptance is the same for every order of the files |
| MigrationBuild.GoodIff | ircd/migration.c:156-273 | the table fills and is complete exactly when the files are such a set |
| MigrationBuild.GaplessIff | ircd/migration.c:238-270 | numbers have no gap exactly when none exceeds how many there are |
| MigrationBuild.InOrderIff | ircd/migration.c:238-270 | sorted versions are 1 to n exactly when none exceeds n |
| MigrationBuild.Place | ircd/migration.c:127-140 | a file takes its slot, or is refused as a repeat or for a different name |
| MigrationBuild.Sort | ircd/migration.c:143-154 | rising by version, the same entries |
| MigrationBuild.Collect | ircd/migration.c:156-240 | every file placed, or the first bad one refuses the set |
| MigrationBuild.Check | ircd/migration.c:238-270 | true exactly when every version is there in both directions |
| MigrationRun.AlwaysPrefixIff | doc/readme.migrations:41-55 | over any non-overlapping commands, with any steps failing and any number of versions declared each time, what is applied is 1 to k after each of them if and only if no REVERT that takes a step finds more applied than declared |
| MigrationRun.GrowingNeverShort | doc/readme.migrations:41-55 | so it always is while a module never comes back with fewer versions |
| MigrationRun.ApplyReaches | include/migration.h:206-218 | applying from 1..k ends at the target or just before the first failing step |
| MigrationRun.RevertReaches | include/migration.h:219-228 | reverting takes the newest first, down to the bound or one step, and stops at the first failure |
| MigrationRun.RerunReaches | include/migration.h:206-218 | after a failure, running again reaches the intended version |
| MigrationRun.StaysPrefix | ircd/migration_run.c:435-594 | each other command takes 1..k to the computed 1..k', within what is declared if it was before |
| MigrationRun.ShrunkIff | ircd/migration_run.c:435-594 | one command leaves a prefix if and only if it is not a REVERT of something that finds fewer declared than applied, with a step that works |
| MigrationRun.ShrunkLeavesGap | ircd/migration_run.c:435-594 | three applied, two declared, one reverted: 1 and 3 are left |
| MigrationRun.PlanApply | ircd/migration_run.c:435-594 | the steps are the versions not applied, ascending, up to the bound |
| MigrationRun.PlanRevert | ircd/migration_run.c:435-594 | the steps are the applied versions, descending, down to the bound or just one |
| MigrationRun.RunJob | ircd/migration_run.c:292-355 | steps run one at a time, each recorded, until one fails |
| FlagSet.Flags.SetFlag | include/client.h:113-124 | the word array's set gains exactly that flag |
| FlagSet.Flags.ClearFlag | include/client.h:113-124 | the set loses exactly that flag |
| FlagSet.Flags.HasFlag | include/client.h:113-124 | true exactly for members |
| FlagSet.Flags.Empty | ircd/capab.c:73-83 | true exactly when no word has a bit |
| FlagSet.BitOr | include/client.h:121-122 | or-ing words or-s their bits |
| FlagSet.BitAndNot | include/client.h:123-124 | and-not clears exactly the mask's bits |
| FlagSet.AndMask | include/client.h:119-120 | testing with a one-bit mask tests that bit |
| Capab.AlwaysInv | include/capab.h:174-199 | from the seeded core and over any registers, unregisters, module drops, client requests and arrivals: names sorted and unique, positions unique and below the limit, every client's set within the registered positions |
| Capab.RunInv | include/capab.h:174-199 | any run keeps that |
| Capab.StartInv | ircd/capab.c:416-442 | the register as seeded, with nobody connected, satisfies it |
| Capab.DoInv | include/capab.h:174-199 | each operation keeps that |
| Capab.SlotStartsUnset | include/capab.h:125-134 | after any run from the seeded core, a position handed out again is set for no client |
| Capab.DroppedInv | ircd/capab.c:329-343 | dropping a module leaves none of its capabilities and keeps the invariant |
| Capab.DroppedSpares | ircd/capab.c:329-343 | and takes nobody else's, from the register or from what any client asked for or has in force |
| Capab.CoreGetsItsPlaces | ircd/capab.c:416-442 | seeded in order into an empty register, the core's capabilities get the positions of their list |
| Capab.ReqHolds | ircd/m_cap.c:215-268 | a request grants only registered positions, all or nothing |
| CapabBook.RequestIs | ircd/m_cap.c:215-268 | a request is granted if and only if no item of it names nobody's capability, one switched off, one withheld or one that is kept; and then the client holds of each capability what the request says last, and what it held of others |
| CapabBook.RegistersIff | ircd/capab.c:257-308 | a name is registered if and only if it is a good one, nobody has it and a position is left |
| CapabBook.RegisterIs | ircd/capab.c:257-308 | what is registered is that name, with its flags, for that module, at the lowest free position, and nothing else changes |
| CapabBook.UnregisterIs | ircd/capab.c:310-327 | a module takes back a name if and only if it registered it, and every client loses it |
| CapabBook.DroppedIs | ircd/capab.c:329-345 | a module that leaves takes exactly what it registered, from every client too |
| CapabBook.StaysIff | ircd/capab.c:257-415 | whatever happens a capability stays as registered, but for being withheld or allowed, if and only if it is not its own module that takes it back or leaves |
| CapabBook.WithholdIs | ircd/capab.c:392-414 | withholding a capability takes it from every client, and nothing else |
| CapabBook.ClientsAre | ircd/m_cap.c:195-213 | a client comes with nothing and goes for good; asking for the list as version 302 marks it so, with the notices of changes in force; and none of this, nor a request, concerns another client |
| Capab.FreeIs | ircd/capab.c:179-188 | the lowest free position, or none exactly when all are taken |
| Capab.NameValid | ircd/capab.c:92-116 | the loop accepts exactly the well-formed names: characters of the class, at most one slash, neither first nor last |
| Capab.ValidNameIff | ircd/capab.c:92-116 | the scan says the same as that description |
| Capab.DocumentedIff | include/capab.h:206-210 | every documented name is accepted, and an accepted name is a documented one if and only if it has none of the eight bracket-like characters |
| Capab.BraceAccepted | ircd/capab.c:92-116 | a{b is accepted and is not documented |
| CapabServer.Register.FindName | ircd/capab.c:130-142 | finds a name regardless of case |
| CapabServer.Register.AllocIndex | ircd/capab.c:179-188 | the lowest free position by the index table |
| CapabServer.Register.Link | ircd/capab.c:193-206 | inserted at its sorted place, nothing else moved |
| CapabServer.Register.Unlink | ircd/capab.c:226-240 | taken out, nothing else moved |
| CapabServer.Register.Add | ircd/capab.c:257-298 | refused for a bad or taken name or a full table, else registered |
| CapabServer.Register.Remove | ircd/capab.c:310-324 | only by its owner; gone from the register and every client |
| CapabServer.Register.DropModule | ircd/capab.c:329-343 | every capability of the module is gone from the register and every client |
| CapabServer.Register.ClearAll | ircd/m_cap.c:349-371 | every client loses the position from what it asked for and what is in force, and keeps every other |
| DbTheorems.CallsAreConserved | include/db.h:565-587 | over every run each accepted call is in the table or has left it exactly once, and its callback ran at most once and never before |
| DbTheorems.LeavesForAReason | include/db.h:510-517 | a call that leaves was placed before; answered or failed its callback runs if and only if it has one; dropped, its module left |
| DbTheorems.PendingIsExact | ircd/db.c:651-654 | the reported number waiting is the number in the table |
| DbTheorems.WithdrawalFailsAll | ircd/db.c:380-411 | over every run from a driver's withdrawal to the end of the loop it starts, with any callbacks in between, every call placed until then has left the table and the table is empty |
| DbTheorems.WithdrawalCanEnd | ircd/db.c:380-399 | from every state that loop can come to its end, failing one call a turn |
| DbTheorems.NewDriverFails | ircd/db.c:380-399 | a run in which a callback registers a new driver and submits to it, and that call is failed by the loop of the old one |
| DbEvents.LeavesAsAsked | ircd/db.c:478-521 | whatever takes away the call one submission placed is an answer naming it or the failing of what is left, and its callback runs if and only if that submission gave one; or the driver's refusal of that call, or the unloading of the module that submitted it, and it does not |
| DbEvents.NoneAfterUnload | ircd/db.c:413-434 | after a module is unloaded no callback runs for anything it submitted before |
| DbEvents.UnloadTakesIff | ircd/db.c:413-434 | unloading a module takes away a call if and only if that module submitted it |
| DbEvents.AnswerCalls | ircd/db.c:610-639 | an answer naming a call takes it away, and runs its callback then and there if the submission gave one, if and only if it was still there |
| DbEvents.DriverIff | ircd/db.c:319-345 | there is a driver of a module if and only if one registered while there was none and was not withdrawn since |
| DbEvents.ConfiguredIs | ircd/db.c:172-237 | the configuration is as the last event that set it left it |
| DbEvents.PlacesItsOwn | ircd/db.c:478-521 | every submission that is taken places a call of its own |
| DbTheorems.DropsClear | ircd/db.c:413-434 | a module leaves no call behind and takes nobody else's |
| DbResults.ResultsEndOnce | include/db.h:267-274 | over every run each delivered result is out with its running callback, or done with exactly once |
| DbResults.DroppedResultEndsAtOnce | include/db.h:267-274 | a result no callback is left for - the call was dropped, failed before, or wants none - is given back on the spot, to the driver there is |
| DbResults.BackToItsOwnIff | ircd/db.c:610-639 | over every run from a delivery to the return of its callback, the result goes back to the driver that delivered it if and only if that is the registered one and stays so all along; otherwise to whichever is registered at the end, or to none |
| DbResults.LeakHappens | ircd/db.c:610-639 | a callback that withdraws the driver keeps its result from being given back |
| DbResults.StaysIff | ircd/db.c:319-411 | a driver that is there at the end of a run was there throughout: a withdrawn one does not return |
| Db.StepKeeps | ircd/db.c:358-639 | every event keeps the table, the counter and the history consistent |
| Db.RunKeeps | ircd/db.c:358-639 | and so does every run, with drivers and callbacks that act from inside |
| DbTable.Table.TakeCall | ircd/db.c:358-372 | takes exactly the call with that identifier off the list |
| DbTable.Table.Register | ircd/db.c:319-342 | refused exactly when there is a driver; a new one is a different driver |
| DbTable.Table.Submit | ircd/db.c:483-526 | refused without a driver or configuration, else placed before the driver is asked |
| DbTable.Table.Answered | ircd/db.c:515-526 | a refusing driver's call is withdrawn unless already answered |
| DbTable.Table.Complete | ircd/db.c:610-639 | the callback runs exactly when the call is there and wants one; without one the result goes back at once if there is a driver |
| DbTable.Table.Released | ircd/db.c:630-639 | when the callback returns the result goes back exactly when there is one and a driver |
| DbTable.Table.FailNext | ircd/db.c:380-399 | takes the first call and fails it |
| DbTable.Table.DropModule | ircd/db.c:413-434 | every call of the module goes, and its driver |
| DbTable.Table.Withdrawn | ircd/db.c:401-411 | the driver goes only if it is the named module's |
| HttpRoutes.OneBest | include/http.h:47-59 | in whatever order the same routes were registered there is one best match at most: exact if there is one, else the longest prefix |
| HttpRoutes.Router.FindRoute | ircd/http.c:461-492 | the loop returns the best match, or none exactly when nothing matches |
| HttpRoutes.Router.Taken | ircd/http.c:376-386 | true exactly when that method and path are registered |
| HttpRoutes.Router.Count | ircd/http.c:443-453 | how many routes a module has |
| HttpRoutes.Router.AddRoute | ircd/http.c:388-420 | refused exactly for a malformed, overlong or taken route or a module at its limit; else at the front |
| HttpRoutes.Router.DelRoute | ircd/http.c:422-441 | only the module's own route goes |
| HttpRoutes.Router.DropModule | ircd/http.c:690-719 | exactly the module's routes go |
| HttpCalls.EndsExactlyOnce | include/http.h:394-424 | over every run each request given to a handler is open or has ended exactly once, and the count is right |
| HttpCalls.EndsForAReason | include/http.h:394-424 | each end goes to its own connection: an answer, a 504 past the deadline, a cancel with its module, or the listener's end |
| HttpEvents.EndsAsAsked | ircd/http.c:607-690 | whatever is said of the request one dispatch opened goes to the connection that dispatch named: an answer by its number or its own handler's; a 504, in a pass begun at or past the deadline it gave; a cancel, as the module of its route is unloaded; or the listener stops |
| HttpEvents.AnswerIsSent | ircd/http.c:673-690 | an answer by its number, or its own handler's, is sent at once, to that connection, if and only if the request is still open, and ends it |
| HttpEvents.UnloadEndsIff | ircd/http.c:690-719 | unloading a module ends an open request if and only if its route was that module's |
| HttpEvents.PassEnds | ircd/http.c:562-591 | a pass begun at or past its deadline has ended a request when it is over |
| HttpEvents.StopEnds | ircd/http.c:239-256 | a listener that stops ends every request |
| HttpEvents.OverForGood | include/http.h:336-342 | once a request has ended nothing more is said of it, to anyone |
| HttpEvents.OpensItsOwn | ircd/http.c:630-645 | every dispatch that finds a listener opens a request of its own |
| HttpEvents.ListensIff | ircd/http.c:614-618 | there is a listener if and only if one came and none stopped since |
| HttpEvents.TimerIs | ircd/http.c:524-605 | the timer is spent when it fires and otherwise stays as set; it is set for the earliest deadline there is, when a handler returns unanswered or its own pass is over and anything is open |
| HttpPasses.LateAnswerIsIgnored | include/http.h:394-424 | a request that has ended stays so over every continuation, and an answer to it at any later time changes nothing |
| HttpCalls.AlwaysSomewhereToAnswer | ircd/http.c:239-256 | while a request is open there is a listener |
| HttpPasses.PassEndsAll | ircd/http.c:562-591 | over every run from the beginning of a pass over late requests to its end, every request that was late has ended |
| HttpPasses.WatchedIff | ircd/http.c:512-545 | the timer stays no later than every deadline across a step if and only if the step does not leave a handler's request open with a deadline before the armed time |
| HttpPasses.RunWatched | ircd/http.c:512-606 | it stays so over every run without such a step |
| HttpPasses.DeadlineOvertaken | ircd/http.c:525-545 | a run in which the timer waits for 100 while a request is due at 50 |
| HttpCalls.DropsClear | ircd/http.c:690-719 | a module's requests all go and nobody else's do |
| HttpCalls.StepKeeps | ircd/http.c:545-719 | every event keeps table, counters and history consistent |
| HttpCalls.RunKeeps | ircd/http.c:545-719 | and so does every run, with handlers that answer, unload and stop from inside |
| HttpCalls.Calls.TakeCall | ircd/http.c:545-560 | takes exactly that request off the list |
| HttpCalls.Calls.Begin | ircd/http.c:608-640 | a fresh number while listening, else none |
| HttpCalls.Calls.Deadline | ircd/http.c:512-523 | the least deadline, or zero |
| HttpCalls.Calls.ArmTimer | ircd/http.c:525-545 | arms for the earliest deadline, only when not armed already |
| HttpCalls.Calls.Returned | ircd/http.c:640-666 | a finished handler's request is answered unless it was already |
| HttpCalls.Calls.RespondTo | ircd/http.c:668-684 | an open request is answered to its own connection |
| HttpCalls.Calls.ExpireOne | ircd/http.c:562-591 | the next late request gets 504, or there is none |
| HttpCalls.Calls.Drop | ircd/http.c:690-719 | the module's requests are cancelled |
| HttpCalls.Calls.Stop | ircd/http.c:239-256 | every open request is dropped with the listener |
| Gline.InForceByHistory | include/gline.h:98-103 | after any changes a line is in force as its last local override since the last global change of state says, else as that state says |
| Gline.EventIs | ircd/gline.c:792-982 | what each change does to state and override: a real global change clears the override, a local one sets it, anything else leaves both |
| Gline.VersionGrows | ircd/gline.c:792-982 | the lifetime never falls, a global change is applied only with a greater version, and the version falls if and only if a local action that reduces to an update carries an older one |
| Gline.VersionFalls | ircd/gline.c:792-982 | a local activation with a new reason and version 3 takes a line of version 5 back to 3 |
| Gline.PlainKeepsVersion | ircd/gline.c:792-982 | with the changes the commands make, the version never falls and a local one touches only the override |
| Gline.NeverBack | doc/readme.gline:112-124 | over any sequence of those, version and lifetime never fall |
| GlineFields.ExpiryIsTheLastNamed | ircd/gline.c:824-841 | after any changes the expiry is that of the last change taken that named one, or the line's own |
| GlineFields.RefusedIff | ircd/gline.c:824-834 | without force a change that names another expiry is refused whole if and only if that is not in the future or over seven days ahead |
| GlineFields.ReasonIsTheLastOther | ircd/gline.c:857-860 | after any changes the reason is that of the last change taken that gave a different one, case aside, or the line's own |
| GlineFields.LifetimeIsTheLongest | ircd/gline.c:842-855 | after any changes the lifetime is the longest any change taken wanted, or the line's own |
| GlineFields.VersionIs | ircd/gline.c:882-887 | a change that shows sets the version it carries, unless all it did was to set the local state |
| Gline.Record.Weigh | ircd/gline.c:792-881 | which of the asked fields really change, or that the change is refused |
| Gline.Record.Change | ircd/gline.c:792-982 | field by field in place, the record becomes the specified one |
| I18nFormat.AcceptedIsSafe | include/ircd_i18n.h:53-68 | an accepted translation makes the formatter fetch the same kinds of arguments in the same order as the original, stars included, is understood throughout, and has no line break |
| I18nFormat.FetchesAre | ircd/ircd_snprintf.c:1523-2118 | what the formatter fetches for a string is what the format check's directives say, in order |
| I18nTable.DirectiveIs | ircd/ircd_snprintf.c:1523-2118 | a directive of flags, a width, a precision, a size and a conversion makes the formatter fetch a number for each star and then what the conversion's table says, and goes on with the rest |
| I18nTable.TextIs | ircd/ircd_snprintf.c:1535-1550 | text and doubled percent signs fetch nothing |
| I18nFormat.RejectedIsNotUnderstood | ircd/ircd_i18n.c:493-524 | a string the format check calls malformed is one the formatter does not understand |
| I18nFormat.PlainTextIsFree | include/ircd_i18n.h:259-267 | text between directives does not matter |
| I18nFormat.CheckFormat | ircd/ircd_i18n.c:526-581 | the side-by-side walk accepts exactly when the directive lists agree and there is no break |
| I18nFormat.FindNext | ircd/ircd_i18n.c:493-524 | the next directive, past any doubled percent |
| I18nFormat.ReadDirective | ircd/ircd_i18n.c:493-524 | flags, width, precision, length and conversion of one directive, or that it is none |
| I18nFormat.HasBreak | ircd/ircd_i18n.c:526-581 | true exactly when there is a carriage return or line feed |

## Left out

- Sockets, TLS, the embedded HTTP library, processes, dynamic loading and real clocks: only their events appear, as steps and parameters (bytes that arrived, whether a load worked, the time).
- The module digest's hash: a module set stands for its own digest, so digests are injective.
- Routing of transaction lines over several hops: each server's stream is read in order by every other, with gaps only where a path broke.
- Operator notices, log lines and the texts of error messages everywhere; only the outcome is modelled.
- Module names that differ between file and declaration, module isolation, and wrap-around of the transaction counter.
- ModuleSyncTheorems.RunLinks: speaks of links between two servers that keep the rule; links to others are in ModuleSyncBursts.QuietLinks and LinksAccounted. Whether a server keeps the rule (`MODULE_SYNC`) is fixed for the run.
- ModuleSyncBursts.QuietLinks: whether a server keeps the rule is fixed for the run. The feature can be set by an operator (`ircd/ircd_features.c:420`) and nothing is announced or compared then: switched off, other modules rehashed in and switched on again, it leaves a quiet link with different sets.
- CidrStore.Tree.FindNode: requires what the code asserts about masks shorter than the IPv4 root; what a build without assertions does there is not modelled. The same holds of Search, GetData and RemByCidr.
- CidrStore.Tree.Add: reports a mask without a parent as no node and no change; what follows the write through a null pointer is not modelled.
- ModHost.Encode: says nothing about what lies past a buffer that has no room for a header.
- ModHostStream.Reader.Readable: does not model the host side's deferred consumption of its buffer.
- EnvExpand.ExpandString: does not model growth of the buffer's capacity, embedded zero bytes or memory exhaustion; numbers (`env_expand_number`) are left out.
- HooksChain.Point.Run: the hooks called do not change the chain while the loop runs; RunChanging has those that do.
- HooksChain.Point.RunChanging: a run nested inside a hook counts only by the changes made in it; its own result is a call of its own.
- HooksTheorems.StaleTokensDoNothing: holds until the counter, 32 bits wide or more, has gone round once; HooksTokens.StaleTokenDoesNothingIff has the exact condition after that.
- HooksTheorems.ResumeReachesItsOwn: the same, with HooksTokens.ResumeReachesItsOwnIff.
- Freed memory: `db_submit`, `http_dispatch` and `hook_run_suspendable` read a field of a call or hook that a callback may have freed meanwhile (`ircd/db.c:518`, `ircd/http.c:648`, `ircd/hooks.c:787`); the frames of the model keep the value, so what such a read yields is not modelled.
- Command hooks (`hook_run_command`) and notification-only hooks: the same chain, without holds.
- Batch parameters, the websocket framing path, which carries no tags, connections that die and limits on a queue's length.
- BatchServer.Server.FanTo: the tags of a long message's own BATCH lines are made out for each member; sharing them could only matter with a label and another client's batch open at once, which no command does.
- MsgQ.Queue.Delete: does not model the TLS path's removal of one message by identity (`msgq_excise`), nor shared message buffers and their pools.
- Multiline.Deliver: the pieces alone; the BATCH lines around them, and what else is said meanwhile, are in Batch, BatchNesting and BatchReceipt.
- MigrationRun.AlwaysPrefixIff: commands do not overlap; the check for a running job precedes a database query, and two jobs started in between are not modelled.
- The core's own migration set, STATUS and LIST: reports only.
- Capability values, announcements of new capabilities and which features switch one off: the set switched off is a parameter of a request.
- Database configuration, incomplete drivers, query checking, failure counters and wrap-around of call numbers.
- HTTP response bodies, headers and uploads.
- G-line masks, their checks, propagation, storage and lookup; `gline_activate` and `gline_deactivate`, which nothing calls.
- Catalog files, plural forms, language preferences and what the formatter writes; only what it fetches is modelled.
- The P10 parser, channel modes, relaying, command handlers, cryptography, caches, features and statistics: no part of this model.
