# Proofs about the CARLA/SUMO co-simulation tools

A Dafny model of the five places in `Carla/` where a mistake is expensive, and proofs of what each
promises:

- **Ego route** (`LaneNet`, `EgoRoute`): is a polyline drivable on a lane network? A bounded search over
  lane connections, and a walk that carries every lane the ego could be on.
- **Control channel and service** (`Framing`, `PeerProtocol`, `PeerRuns`, `ServeLoop`): newline-framed
  messages over a byte stream, the handshake between the traffic machine and the render host, every
  interleaving of the two ends, and the loop that serves run after run.
- **Map import** (`Reimport`, `ImportTree`, `ImportIsolation`, `ImportRecovery`, `ImportRun`, `ImportLaws`,
  `ImportCollisions`, `Selection`): moving a working map aside for a cook, setting every other package aside,
  coming back from a kill between any two file operations, what a stash that is not empty does to the next
  cook, and reading the answer of a picker.
- **Scenario staging** (`StageRecord`, `Staging`, `StagingRuns`, `Migrate`): copies of the repository's
  yamls that users edit, refreshed from many checkouts with a bounded record, and the move from older
  folders.
- **Yaml scalars** (`YamlLine`, `YamlScalar`, `YamlLaws`): reading and rewriting one `section.key` in place.

Code that works step by step is modelled by methods and classes with loops, each proved against a
specification function or a step relation; the promises are then proved about those. Dialogues, file
systems and answers are arbitrary inputs. `dafny verify dfyconfig.toml` checks everything.

## Where the code differs from its description

- `_restore_stash` says the stash disappears once everything has gone home. It does exactly when nothing
  was set aside from three or more components deep: `os.walk` lists a folder's subfolders before the
  empty ones among them are removed (`ImportLaws.StashGoneUnlessDeep`,
  `ImportLaws.DeepDuplicateLeavesTheStash`).
- `_isolate_import` says the asset folder of the map being cooked stays put. It does unless it directly
  holds a second descriptor of that map (`ImportLaws.OwnFolderStaysUnlessDuplicate`, and one such tree in
  `ImportLaws.OwnFolderGoes`).
- `_isolate_import` says the next import puts back what a killed one set aside. It goes by the stash's
  top-level names: a duplicate from below the top level, whose top folder is still in Import/, stays in the
  stash (`ImportLaws.KilledThenRecovered`).
- What stays there can misplace a package. `shutil.move` onto a folder that exists moves into it, so when the
  next cook sets aside a package of which the stash still has a folder, restoring leaves the package one
  folder too deep. Isolating and restoring give everything back exactly when the stash had nothing in any
  item's place (`ImportCollisions.ComesBackExactlyWhenFree`); a killed cook of one map followed by a cook of
  another is enough (`ImportCollisions.KilledThenOtherMapMisplaces`).
- Or it stops the next cook. If the duplicate left there is called like its package, the package would land in
  a folder that has one of that name, and `shutil.move` raises with part of Import/ set aside already. A move is
  refused exactly when it would have been refused before the first one (`ImportRun.ImportArea.IsolateImport`,
  `ImportIsolation.AcceptedExactly`, `ImportCollisions.StrandedTwinIsRefused`,
  `ImportCollisions.KilledThenOtherMapIsRefused`).
- `serve_forever` says Ctrl+C is the one thing that stops serving. In `await_peer` it becomes an exit with a
  message and counts as a failed run; in `hold_carla` it ends the run as a success, and the service listens
  again. Only anywhere else, or as the fifth failure in a row, does it stop the service
  (`ServeLoop.WhatCtrlCStops`, `ServeLoop.CtrlCWhileListeningIsAFailure`, `ServeLoop.HoldingPressesNeverStop`).
- `set_yaml_scalar` ignores its comment when it inserts a line, so setting twice is not setting once then
  (`YamlLaws.SetTwice`, and for a text that is one header `YamlLaws.SecondSetAddsTheComment`). A header
  without a newline swallows the line inserted below it, and a repeated section may be written where a read
  does not look (`YamlLaws.SetThenGet`,
  `YamlLaws.RepeatedSectionIsNotRead`, `YamlLaws.RepeatedIsNotRead`, `YamlLaws.UnterminatedHeaderSwallows`).
- A comment that comes first after the colon is read as the value, and is not kept by a rewrite that says it
  keeps comments; exactly then. A comment given to a rewrite becomes the line's exactly when the value does not
  start with '#' (`YamlLaws.RewriteWritesComment`, `YamlLine.CommentIsReadExactlyWhenFirst`, `YamlLaws.GetReadsACommentExactly`,
  `YamlLaws.RewriteKeepsCommentUnlessFirst`, `YamlLine.EmptyValueReadsItsComment`).
- `ask_peer_to_serve` gives up with "no word for" the preparation timeout. The silences are summed over
  the whole wait, a line that is not JSON counted as one of five seconds; a progress report does not start the
  count anew. Giving up, the last silence has lasted that long exactly when it was the first
  (`PeerProtocol.GivesUpEarlyUnlessFirstSilence`; one conversation given up before SERVING comes, in
  `PeerProtocol.GivesUpOnProgress`).
- `read` says None means that the peer has closed. A line that says `null` gives None too, so None means a close
  exactly when no complete line says that (`Framing.NoneMeansClosedExactly`, `Framing.NullLooksLikeAClose`);
  between the two programs, which send objects, it does (`Framing.NoneMeansClosedBetweenPeers`).
- `await_peer` is to refuse whoever does not speak the protocol, and keep listening. A line that is JSON but
  neither an object nor null, such as `5`, has no `get`: unless it counts as false, it ends `await_peer` by an
  exception, exactly when it comes before a connection is chosen (`PeerProtocol.AwaitPeer`,
  `PeerProtocol.AStrangerEndsTheListening`). That is a failed run, and five in a row end the service
  (`ServeLoop.FiveStrangersEndTheService`). The same ends `ask_peer_to_serve` and `hold_carla`, which do not
  look at whether it counts as false (`PeerProtocol.AskPeerToServe`, `PeerProtocol.HoldCarla`).
- `_backup` says that saying yes is always reversible, and `stage_configs` never to overwrite without a
  backup. The answer `o` overwrites whether or not the backup went through
  (`StagingRuns.TakingBacksUpUnlessItFails`), so an edited copy can be lost (`StagingRuns.TakingCanLoseYours`).
- A digest of the older staging record that has not been redeemed is written under a name it is not read
  by, and so is lost by the first save (`Staging.LoadAfterSave`).

## Model

| member | source | states |
|---|---|---|
| Text.LexLeqIs | Carla/check_ego_route.py:176 | sort order: the first difference decides, and a prefix comes first |
| Text.WhiteSpaceIs | Carla/run_cosim.py:424 | the 29 characters that are white space |
| Text.StripIs | Carla/run_cosim.py:426 | what is stripped is white space at either end |
| Text.LowerLetters | Carla/app_catalog.py:676 | capital letters become small ones, and nothing else changes |
| LaneNet.CollectSuccessors | Carla/check_ego_route.py:76-92 | the lanes one step away are the destinations and the non-empty junction interiors of a lane's connections, no others |
| LaneNet.ReachableWithin | Carla/check_ego_route.py:102-122 | true exactly when a route of 1 to `max_hops` connections through resolvable lanes leads to the target, a loop back to the start included; pruning and the early stop never change the answer |
| LaneNet.ExpandedBallIsWithinHops | Carla/check_ego_route.py:102-122 | the sets built layer by layer hold exactly the lanes some route of that length reaches |
| LaneNet.OneConnectionIsWithinHops | Carla/check_ego_route.py:164-170 | the separate one-connection test of the walk is already covered by the hop search |
| EgoRoute.CheckEgoRoute | Carla/check_ego_route.py:125-186 | as many violations as the best possible explanation of the polyline has illegal steps; empty exactly when one assignment is legal throughout; each names its sample's nearest lane, lists exactly the lanes one connection behind that, and exactly those one connection ahead of the lane it came from |
| EgoRoute.WalkCountsMinimumBreaks | Carla/check_ego_route.py:158-186 | over every assignment of a candidate lane per sample the least number of illegal steps is the number of violations, and `possible` is exactly the set of lanes a cheapest assignment ends on |
| EgoRoute.NoViolationsMeansExplainable | Carla/check_ego_route.py:125-128 | no violation exactly when one fully legal assignment exists |
| EgoRoute.ViolationsCutMaximalRuns | Carla/check_ego_route.py:171-186 | between resynchronisations some assignment is legal, and none still is once the reported sample is added; the last run is explainable to the end |
| EgoRoute.ReportNamesFirstAndNearest | Carla/check_ego_route.py:175-177 | the lane a report comes from is the first, in sort order, on which a cheapest explanation of the samples before it can end; the other is the sample's nearest |
| EgoRoute.SixConnectionsNotSeven | Carla/check_ego_route.py:95-99 | in a row of lanes, six connections may lie between two samples and seven may not |
| EgoRoute.ReportedStepIsIllegal | Carla/check_ego_route.py:175-185 | a report names a possible lane and a candidate that it does not lead to, and both printed lists confirm it |
| Framing.Reader.Read | Carla/peer.py:64-79 | one read takes the first complete line of buffer and stream, or reports silence or the close, and never loses or doubles a byte; its caller sees None for a close and for a line that says null |
| Framing.SomeCodecIsFaithful | Carla/peer.py:53-54 | the assumption on the JSON codec can be met |
| Framing.ReadsTakeLinesInOrder | Carla/peer.py:57-79 | for every cut of the stream into chunks and every timeout, reads take the stream's lines in order, and delivered, buffered and unreceived bytes add up to the stream |
| Framing.EnoughReadsDeliverEverything | Carla/peer.py:67-75 | with one read per line and per silence every complete line is delivered |
| Framing.QuietIsReported | Carla/peer.py:66-71 | a read raises for silence exactly when it has a timeout and a silence comes before the next newline |
| Framing.RaisedExactly | Carla/peer.py:70-79 | the caller sees a PeerError exactly for silence and for a line that is not JSON |
| Framing.ClosedIsFinal | Carla/peer.py:72-73 | a close is reported only when the peer has closed and no complete line is left, and then for good |
| Framing.NoneOfOneRead | Carla/peer.py:64-79 | a read that does not time out returns None exactly when no complete line is left or the next one says null |
| Framing.NoneMeansClosedExactly | Carla/peer.py:65 | for all timeouts every None is a close, exactly when no complete line of the stream says null |
| Framing.NoneMeansClosedBetweenPeers | Carla/peer.py:53-79 | of what `send` sends, every None is a close exactly when no message is null |
| Framing.NullLooksLikeAClose | Carla/peer.py:76-77 | the line `null` and then the line `{}`: the first read returns None, the second the object |
| Framing.MessagesArriveInOrder | Carla/peer.py:53-79 | what `send` sent is what `read` reads, in order, once each; an unfinished last line is never delivered |
| PeerProtocol.AskPeerToServe | Carla/run_cosim.py:2645-2734 | a socket is returned exactly when the peer answered WELCOME with the own protocol number and then SERVING with nothing final and silences of less than the timeout in all before it; it raises exactly at a value that has no `get`, in place of WELCOME or while waiting; every other ending says nothing more, closes and exits, and a manual CARLA is assumed only when nobody answered |
| PeerProtocol.GivesUpEarlyUnlessFirstSilence | Carla/run_cosim.py:2695-2709 | when the wait is given up for silence, the silence it ends in has lasted the timeout exactly when there was none before it |
| PeerProtocol.GivesUpOnProgress | Carla/run_cosim.py:2704-2709 | a timeout of ten seconds gives up on two silences of five with a progress report in between, and SERVING, which comes next, is not heard |
| PeerProtocol.AwaitPeer | Carla/run_cosim.py:2576-2642 | the peer settled on is the first to say HELLO and ask for a known map, and the map served is the one it names, this host's own only if it names none; every earlier one is closed, told what is wrong when it opened with something else or asked for no known map, and without a reason when it fell silent or did not ask; later ones are untouched; it raises exactly when one before that says a true value that is no object |
| PeerProtocol.WhatTheRefusedAreTold | Carla/run_cosim.py:2594-2624 | what a refused connection is told, for each way it can open |
| PeerProtocol.AStrangerEndsTheListening | Carla/run_cosim.py:2593-2605 | the line `5`, in place of HELLO or after it, ends the listening by an exception; `0` and `null` do not |
| PeerProtocol.HoldCarla | Carla/run_cosim.py:2991-3044 | holds through silences and other messages, ends at the first hang-up, BYE, death of CARLA or Ctrl+C, and says BYE and closes exactly when the end came from this side; it raises exactly at a value that has no `get` |
| PeerProtocol.WhatTheHostAnswers | Carla/run_cosim.py:2594-2625 | what is said to each thing heard in the handshake, and where the connection goes |
| PeerRuns.NothingIsRuledOut | Carla/run_cosim.py:2576-3044 | the steps the runs are made of: a cut, an exit, a restart or a timeout at any moment, and a stranger that says anything |
| PeerRuns.WhatIsSentCanBeHeard | Carla/peer.py:64-79 | what was sent is heard next, and the close after it |
| PeerRuns.WhatTheHostMaySay | Carla/run_cosim.py:2991-3044 | progress, SERVING and failure while preparing, failure and BYE while holding, BYE from a side that runs |
| PeerRuns.WhatEndsHolding | Carla/run_cosim.py:3016-3033 | the host is done at a hang-up, null, BYE or a bare value, and holds on at anything else |
| PeerRuns.ConnectionsComeAndGo | Carla/run_cosim.py:2590-2593 | a dial at any time, the next accepted whenever the host listens, the backlog dropped, the host restarted |
| PeerRuns.ARunThatServes | Carla/run_cosim.py:2576-3044 | for every map a host can serve, asked for or its own, a run from the dial to the returned socket |
| PeerRuns.RunKeepsInv | Carla/run_cosim.py:2576-3044 | in every interleaving, with either side free to hang up or restart and a read free to time out at any moment, each end's stage matches the messages on record and in flight |
| PeerRuns.ReturnedSocketWasServed | Carla/run_cosim.py:2645-2734 | a socket is returned only on a connection whose record is HELLO, WELCOME with equal protocol number, SERVE, progress, and SERVING from `hold_carla` for the map asked for, the host's own if none was |
| PeerRuns.EveryOtherEndingExits | Carla/run_cosim.py:2675-2734 | in any run, a side that is asking goes on asking, or has heard SERVING while waiting and returned the socket at that step, or has exited; and an exit is for good |
| PeerRuns.MismatchedBuildsNeverRun | Carla/peer.py:126-128 | with unequal protocol numbers no run ever gets past the handshake |
| PeerRuns.ServesOneAtATime | Carla/run_cosim.py:2800-2807 | one CARLA never serves two co-simulations at once |
| PeerRuns.FreshReaderLosesNothing | Carla/run_cosim.py:3016 | the reader `hold_carla` makes anew drops nothing: between SERVE and SERVING the traffic side has sent nothing else |
| ServeLoop.Service.ServeForever | Carla/run_cosim.py:4981-5054 | returns exactly at the first run that an interrupt escapes or that is the fifth failure in a row, with that run's status; the slot is empty between runs; the ERRORs sent and the sockets dropped are exactly those of the runs |
| ServeLoop.EverySocketIsDisposedOfOnce | Carla/run_cosim.py:5040-5044 | the loop disposes of every socket a run was handed once, with an ERROR or without a word |
| ServeLoop.WhatThePeerIsTold | Carla/run_cosim.py:5003-5038 | for each way a run ends, the ERROR its peer gets, with reason and advice, or none |
| ServeLoop.OneErrorWhenFailed | Carla/run_cosim.py:5003-5044 | a run sends one ERROR exactly when it holds a peer and failed or was interrupted |
| ServeLoop.FailingSuffixIsMaximal | Carla/run_cosim.py:5046 | the counter is the length of the current failing suffix |
| ServeLoop.CapMeansFiveFailures | Carla/run_cosim.py:5046-5052 | the cap is met exactly when the last five runs all failed |
| ServeLoop.CtrlCWhileListeningIsAFailure | Carla/run_cosim.py:2640-2642 | any number of presses before a peer is connected stop the service exactly when they complete five failures in a row |
| ServeLoop.FiveStrangersEndTheService | Carla/run_cosim.py:5029-5052 | any number of strangers that end `await_peer` by an exception stop the service exactly when they complete five failures in a row |
| ServeLoop.WhatCtrlCStops | Carla/run_cosim.py:5003-5014 | for each place of a press, whether it stops the service: in `await_peer` only as the fifth failure, in `hold_carla` never and the failures are forgotten, anywhere else always |
| ServeLoop.HoldingPressesNeverStop | Carla/run_cosim.py:3040-3044 | no number of presses while CARLA is held for a peer stops the service |
| Reimport.Folders.EnsureMap | Carla/import_map.py:1298-1381 | exactly when a run ends as kept, imported, failed with the old map back, or stopped by a file that cannot be removed, and both folders after each; the second cook counts exactly when the first failed and left no map; the digest noted; every file operation on the way is a step of the history |
| Reimport.NothingIsRuledOut | Carla/import_map.py:1298-1381 | a kill at any moment, a cook that leaves anything, a removal that stops early are steps of a history |
| Reimport.WhatFollowsACook | Carla/import_map.py:1349-1369 | one retry, exactly after a first cook that failed without a map; then what becomes of the backup |
| Reimport.TheUmapDecides | Carla/import_map.py:1306-1307 | a folder counts as imported exactly by the one `.umap` |
| Reimport.RemainingHolds | Carla/import_map.py:1334 | what a removal leaves is what could not be removed, unchanged |
| Reimport.HistoryStaysSafe | Carla/import_map.py:1326-1369 | the invariant every step keeps, kills between any two file operations included |
| Reimport.AWorkingMapIsNeverLost | Carla/import_map.py:1326-1330 | at every moment the content folder or its backup holds a `.umap`; when the content folder does not, the backup is the working folder that was moved aside |
| Reimport.RestoreIsExact | Carla/import_map.py:1366-1369 | a restore that finishes leaves the content folder exactly as the run found it, or as it was before the run that was killed |
| ImportIsolation.NestedDuplicateRoots | Carla/import_map.py:768-790 | every folder below the top with a second descriptor that is not inside another such folder, once each, deepest first |
| ImportIsolation.OuterRootsAreApart | Carla/import_map.py:785-790 | no root kept is inside another one |
| ImportIsolation.NoDuplicateIsLeft | Carla/import_map.py:1226-1236 | with those roots moved, no second descriptor is left below the top |
| ImportIsolation.BlockedExactly | Carla/import_map.py:1173-1180 | a restore raises exactly where going on would put a folder in place of a file of Import/ |
| ImportTree.RefusedExactly | Carla/import_map.py:1220-1235 | when a move into the stash is refused: a file on its way, something of its name in the folder it would land in, a folder onto a file |
| ImportTree.MoveMeans | Carla/import_map.py:1220-1235 | where a move takes each path: into the folder of its name if the stash has one, in its place otherwise |
| ImportRun.ImportArea.RestoreStash | Carla/import_map.py:1168-1190 | moves each name home unless something is there, sweeps the emptied folders, and raises exactly at a name with a file on its way; from any disk on which some items are out, every disk on the way is recoverable |
| ImportRun.ImportArea.Recover | Carla/import_map.py:1207-1211 | what the stash holds below a top-level name that Import/ lacks goes home, and the emptied folders go; killed at any moment of it, from any disk an earlier run was killed on, every disk is recoverable again |
| ImportRun.ImportArea.IsolateImport | Carla/import_map.py:1193-1257 | from any well-formed disk: recovers, then moves exactly the other packages and the duplicates of `keep`, whatever the stash still holds, and nothing else; a move is refused exactly when some item's would be on the recovered disk; none is, and every disk holds each item in exactly one place if the stash is free of them; the disks of the recovery are recoverable too |
| ImportIsolation.AcceptedExactly | Carla/import_map.py:1220-1235 | in any order of the items, every move goes through exactly when none of them is refused at the start |
| ImportIsolation.CookSeesOnlyKeep | Carla/import_map.py:1193-1197 | what is left at the top are the descriptors of `keep` and the shared decals, and no second `<keep>.json` at any depth when the canonical one exists |
| ImportIsolation.TheRestIsKept | Carla/import_map.py:1193-1236 | for every path of Import/: it stays exactly unless it goes with another map's descriptor or is in a folder with a second descriptor for `keep` |
| ImportIsolation.TopFileStays | Carla/import_map.py:1214-1219 | a file at the top stays exactly when it is the decals, no `.json`, or `keep`'s own descriptor |
| ImportLaws.OwnFolderStaysUnlessDuplicate | Carla/import_map.py:1193-1236 | the asset folder of `keep` is left in Import/ exactly unless it directly holds a second descriptor beside the canonical one |
| ImportLaws.OwnFolderGoes | Carla/import_map.py:1226-1236 | one tree whose map loses its own folder to its own cook |
| ImportTree.NothingIsLostInTransit | Carla/import_map.py:1199-1204 | on every recoverable disk each item is in exactly one of Import/ and the stash, and no file of either is lost, changed or doubled |
| ImportLaws.IsolateThenRestore | Carla/import_map.py:1193-1257 | isolating with a stash that is free of the items, and restoring, gives back Import/ exactly and keeps every file the stash held |
| ImportLaws.RestoreAfterCook | Carla/import_map.py:1193-1257 | whatever the cook did to the rest, everything set aside comes back as and where it was, and nothing raises unless a folder on the way has become a file |
| ImportLaws.StashGoneUnlessDeep | Carla/import_map.py:1183-1189 | the stash is gone after a restore exactly when it held only empty top-level folders before and nothing came from three or more components deep; no file set aside is left in it |
| ImportLaws.DeepDuplicateLeavesTheStash | Carla/import_map.py:1183-1189 | a tree whose isolation and restore leave the stash behind |
| ImportLaws.KilledThenRecovered | Carla/import_map.py:1199-1211 | after a kill at any step recovering brings every top-level item home, whole; the stash keeps the files of nested duplicates that were out and of what it held before, and no others |
| ImportLaws.KilledRestagedThenRecovered | Carla/import_map.py:1199-1211 | the same whatever has been restaged or cooked since: each top-level item that is out and not replaced comes home whole, and nothing in Import/ is touched |
| ImportCollisions.ComesBackExactlyWhenFree | Carla/import_map.py:1220-1235 | when every move has gone through, restoring gives back Import/ and keeps the stash's files exactly when the stash had nothing in any item's place |
| ImportCollisions.StrandedDuplicateIsInTheWay | Carla/import_map.py:1222-1224 | a duplicate a killed cook left in the stash is in the way of every later cook that sets its package aside |
| ImportCollisions.KilledThenOtherMapMisplaces | Carla/import_map.py:1222-1224 | a tree, killed while cooking "A" and then told to cook "m": every move goes through and the restore misplaces the package, unless the duplicate is called "A" |
| ImportCollisions.StrandedTwinIsRefused | Carla/import_map.py:1222-1224 | a duplicate called like its package, left in the stash by a kill, makes every later cook that sets the package aside raise |
| ImportCollisions.KilledThenOtherMapIsRefused | Carla/import_map.py:1222-1224 | the same tree with the duplicate called "A": the cook of "m" raises |
| Selection.ParseSelection | Carla/import_map.py:3106-3133 | None, or the strictly increasing list of exactly the indices the numbers and ranges denote, all below the count |
| Selection.NumberIsRead | Carla/import_map.py:3129-3130 | a part without a dash is a number from 1 to the count, or does not parse |
| Selection.RangeIsRead | Carla/import_map.py:3121-3128 | a part with a dash is two numbers in order within the count, or does not parse |
| Selection.ValueOfConcat | Carla/import_map.py:3125 | what a row of digits is worth |
| Selection.SpacesDoNotMatter | Carla/import_map.py:3118 | a space anywhere in the answer makes no difference |
| Selection.OneAndARange | Carla/import_map.py:3106-3108 | the first item and a range, as they are typed |
| Selection.RenderingIsRead | Carla/import_map.py:3106-3108 | every comma-and-range rendering of indices is read as exactly those indices |
| StageRecord.NormIgnoresBlankAndTrailing | Carla/app_catalog.py:522-535 | trailing white space and blank lines are not an edit |
| StageRecord.NormOfOneLine | Carla/app_catalog.py:522-535 | a line counts as its text before the white space at its end, a comment too, and as nothing when it is blank |
| StageRecord.RecordIsLastTen | Carla/app_catalog.py:609-618 | `seen` is the last ten distinct versions recorded, in the order they were last seen, without duplicates |
| StageRecord.ForgottenAfterTenOthers | Carla/app_catalog.py:601-618 | a recorded version is forgotten exactly when ten others have been recorded since |
| Staging.LoadAfterSave | Carla/app_catalog.py:561-598 | saving and loading gives the record back exactly when no older digest waits in it |
| Staging.RecordsAreRead | Carla/app_catalog.py:579-589 | what is read of a record of the newer and of the older scheme |
| Staging.StringsAreKept | Carla/app_catalog.py:585-586 | elements of `seen` that are no strings are dropped, the others kept in order |
| Staging.IndexIsRead | Carla/app_catalog.py:577-580 | entries that are no objects are dropped |
| Staging.FirstDecidingLine | Carla/app_catalog.py:670-708 | the answer is that of the first line that is blank, `o` or `k`, in either case and with white space around it; none exactly when there is no such line |
| Staging.ReadAnswerDecides | Carla/app_catalog.py:670-708 | a question takes the next line that decides, and leaves the rest |
| Staging.AppHome.Ask | Carla/app_catalog.py:645-709 | the questions asked, the answers' effects and backups, one file after another, up to the end of the input |
| Staging.AppHome.StageConfigs | Carla/app_catalog.py:712-814 | one launch: the copies, the backups, the record in memory and the record saved |
| StagingRuns.NothingOfYoursIsLost | Carla/app_catalog.py:721-733 | over any launches, checkouts, edits and failures, a copy is overwritten without a question only when its normalised content is an earlier upstream version; every other overwrite follows `o`, with the old content backed up unless the backup failed |
| StagingRuns.TakingBacksUpUnlessItFails | Carla/app_catalog.py:684-693 | after `o` the copy is the repo's version, and the old one is among the backups exactly when the backup did not fail, or one was there already |
| StagingRuns.TakingCanLoseYours | Carla/app_catalog.py:684-686 | a reachable copy, edited by its user, that `o` overwrites and that is in no backup |
| StagingRuns.MissingCopyIsStaged | Carla/app_catalog.py:752-759 | a missing copy is staged without a question, and counts as untouched from then on |
| StagingRuns.AsksExactlyWhenEdited | Carla/app_catalog.py:774-797 | a question is asked exactly for an edited copy against an upstream version that differs and is not settled |
| StagingRuns.UntouchedCopyFollowsTheRepo | Carla/app_catalog.py:774-788 | a copy not touched since it was written is never asked about and ends every launch equal, up to normalisation, to that launch's version |
| StagingRuns.SettledVersionsStaySettled | Carla/app_catalog.py:561-567 | a version settled is not asked about until ten others have been recorded |
| StagingRuns.LaunchOfOne | Carla/app_catalog.py:740-814 | a launch over many files is, for each of them, one launch of that file alone, with its copy, record and backups; its answer is the decision in the input that its question comes to, and one that takes or keeps is a line that reads `o` or `k` |
| StagingRuns.CopyIsReplacedExactly | Carla/app_catalog.py:750-797 | a launch puts the repo's version in place of the copy exactly when there is none, when the tool wrote it and it is out of date, or after `o`; otherwise the copy is as it was |
| StagingRuns.VersionIsRecordedExactly | Carla/app_catalog.py:750-797 | when a launch records the repo's version, and the entry after it |
| StagingRuns.BackupsOfOne | Carla/app_catalog.py:682-684 | a launch adds a backup of a copy exactly when its question is answered with `o` and the backup does not fail |
| StagingRuns.MissingConfigsAreSkipped | Carla/app_catalog.py:741-744 | declared configs that are not there change nothing |
| StagingRuns.WithoutAnOYoursStays | Carla/app_catalog.py:645-709 | whatever else is typed, an edited copy that is asked about stays as it was unless a line reads `o` |
| StagingRuns.EnterLeavesYours | Carla/app_catalog.py:677-678 | Enter leaves an edited copy as it was |
| StagingRuns.EnterLeavesTheOnlyOne | Carla/app_catalog.py:677-678 | the same for an app with one config |
| Migrate.TargetsAre | Carla/app_catalog.py:286-292 | `config.yaml` and `x.yaml` of map `m` become `m.yaml` and `m_x.yaml` |
| Migrate.SplitAt | Carla/app_catalog.py:286 | the stem of a name is what comes before its last dot |
| Migrate.YamlsAre | Carla/app_catalog.py:281-282 | which names are yamls, in either case |
| Migrate.TargetsAreDistinct | Carla/app_catalog.py:286-292 | distinct yamls of one folder never claim the same target |
| Migrate.MigrateFrom | Carla/app_catalog.py:280-299 | a file stays exactly when it is no yaml, cannot be moved, or its target is taken; the rest is moved, and the destination's own files stay |
| Migrate.MigrateScenarios | Carla/app_catalog.py:263-312 | no file of the destination changes, and every yaml is at its source or at its target, for exactly the reasons above; a second run moves nothing |
| YamlLine.AfterNameExactly | Carla/run_cosim.py:418 | a header is the section's name, white space, a colon and anything |
| YamlLine.MatchesExactly | Carla/run_cosim.py:424 | a line sets a key exactly when it is white space, the key, white space, a colon and anything |
| YamlLine.LeavesExactly | Carla/run_cosim.py:427 | a section is left at any line that does not start with white space |
| YamlLine.KeyTextRoundTrip | Carla/run_cosim.py:2227-2234 | printing a key line and matching it gives back indent, value and comment |
| YamlLine.EmptyValueReadsItsComment | Carla/run_cosim.py:424 | lines with an empty value and a comment behind it, and the comment they are read as |
| YamlLine.CommentIsReadExactlyWhenFirst | Carla/run_cosim.py:424-426 | for every line that sets the key, the value read starts with '#' exactly when the text after the colon and its white space does |
| YamlLine.TrailIsCommentUnlessFirst | Carla/run_cosim.py:2227-2229 | what the pattern takes for the trailing comment is the line's comment exactly when that does not come first |
| YamlLine.ReadValuesAreClean | Carla/run_cosim.py:424-426 | whatever is read is non-empty, trimmed, on one line and free of a comment |
| YamlScalar.GetYamlScalar | Carla/run_cosim.py:400-429 | the value of the first line that sets the key in the section, unless the section was left before |
| YamlScalar.SetYamlScalar | Carla/run_cosim.py:2200-2254 | the text after the edit; None exactly when there is nothing to edit |
| YamlLaws.EditTouchesOneLine | Carla/run_cosim.py:2221-2251 | an edit rewrites exactly one line or inserts exactly one below the last header; it fails exactly when the section has no header |
| YamlLaws.EditWrites | Carla/run_cosim.py:2229-2247 | the line an edit writes, character by character |
| YamlLaws.IndentIsCopied | Carla/run_cosim.py:2241-2246 | an inserted line is indented like the first indented line below the header, or by two spaces |
| YamlLaws.SetThenGet | Carla/run_cosim.py:2200-2254 | the value set is read back exactly when it is one a line can carry, the line is written before the section is first left, and an insertion finds its header ended |
| YamlLaws.SetThenGetOneHeader | Carla/run_cosim.py:2200-2254 | with one newline-terminated header every clean value is read back, rewritten or inserted |
| YamlLaws.RepeatedSectionIsNotRead | Carla/run_cosim.py:2221-2251 | every file with a section, another, the first again and the key: the value set there is not read back |
| YamlLaws.RepeatedIsNotRead | Carla/run_cosim.py:2221-2251 | the same for one file written out |
| YamlLaws.GetReadsACommentExactly | Carla/run_cosim.py:418-428 | a read of any file gives a comment for a value exactly when, on the line it finds, the comment comes first after the colon |
| YamlLaws.UnterminatedHeaderSwallows | Carla/run_cosim.py:2236-2251 | a file whose last line is the header, without a newline: the value inserted is not read back |
| YamlLaws.OthersAreUndisturbed | Carla/run_cosim.py:2221-2251 | every other section and key reads the same after an edit |
| YamlLaws.RewriteKeepsComment | Carla/run_cosim.py:2227-2234 | a rewrite keeps the indentation, and the matched trailing comment unless a new one is given |
| YamlLaws.RewriteKeepsCommentUnlessFirst | Carla/run_cosim.py:2227-2230 | a rewrite given no comment keeps the comment of the line exactly when that does not come first after the colon |
| YamlLaws.RewriteWritesComment | Carla/run_cosim.py:2229 | a comment given to a rewrite is the line's comment afterwards exactly when the value does not start with '#' |
| YamlLaws.SetTwice | Carla/run_cosim.py:2221-2251 | setting twice is setting once exactly when the key was there, or no comment was given and the header ended |
| YamlLaws.SecondSetAddsTheComment | Carla/run_cosim.py:2236-2247 | a text that is one header: the second set of a new key adds the comment that the first left out |

## Left out

- LaneNet.ReachableWithin: lanes are ids in a finite map; a lane id that does not resolve is skipped as in the source, and no other error of the network library is modelled.
- EgoRoute.CheckEgoRoute: the candidates of a sample are given, nearest first; geometry, distances and the snapping tolerance are not modelled, and the two lists of a report are sets, without their sorted order.
- Framing.Reader.Read: errors of `recv` other than a timeout, and a line nested too deep for the decoder, are not modelled; the JSON codec is any injective encoding without a newline (section 7 of RFC 8259).
- PeerProtocol.AskPeerToServe: dialling, version warnings, the fields of SERVE other than the map, a field of an object that is of another type than the programs send, and a `sendall` that fails are not modelled.
- PeerProtocol.AwaitPeer: the rest of SERVE, what becomes of a socket when an exception ends the listening, and an interrupt while listening (see `ServeLoop`) are not part of this method.
- PeerProtocol.HoldCarla: holding without a peer (`--carla-only`) only waits, and is not modelled.
- `gone`: peeking at a socket adds nothing to the protocol proved here.
- ServeLoop.Service.ServeForever: what happens inside one run is given by how it ends and whether it took a peer.
- Reimport.Folders.EnsureMap: the cook is an arbitrary new content folder and exit status and does not touch the backup; staging the package and finding CARLA are not modelled. The map is called "name", and a note that is cut short is taken for one that is not written.
- ImportRun.ImportArea.RestoreStash: modes, times and links are not modelled, and a rename that the operating system refuses for another reason than what stands in its place.
- ImportRun.ImportArea.IsolateImport: when a move is refused, by a file or folder that stands in the stash in an item's place, what was moved before it is not said to be recoverable; a move across file systems, which copies and deletes, is taken as one operation.
- Selection.ParseSelection: digits and letters outside ASCII are not modelled.
- Staging.AppHome.StageConfigs: printing, the label for comment-only changes and the list returned for the menu are not modelled; `sha256` is injective.
- StagingRuns.LaunchOfOne: needs declared configs with distinct base names; with equal names the later one stages over the earlier.
- StagingRuns.UntouchedCopyFollowsTheRepo: needs copies and saves of the record to succeed, as the record is otherwise not what was written.
- Migrate.MigrateScenarios: removing the emptied folders, upper-case extensions outside ASCII and the creation of the destination are not modelled, nor are folders that are named like a yaml.
- YamlScalar.GetYamlScalar: an unreadable file, a byte-order mark and newline translation are not modelled.
- YamlScalar.SetYamlScalar: as above, and for the file that cannot be written.
- Starting and supervising SUMO, CARLA and Unreal, downloads, menus, installers and the C++ engine.
