# BitBurner automation scripts — a Dafny model

This project models the decision logic of a set of BitBurner scripts. BitBurner is a programming game: the player's scripts run inside a simulated network of servers. The scripts covered here do the following:

- **Discovery.** Walk the network from `home` (`ServerNode`, `allServers`, `getServerInfo`).
- **Lists.** Build the rooted-server list and the hackable-target list (`rootedServers`, `hackableServers`). Pick the best target (`bestTarget`).
- **Deployment.** Copy the three batch scripts to every server and open ports, then nuke what the owned programs allow (`deployer`).
- **Hacking.** Run the HWGW batch loop: weaken to the security floor, grow to the maximum money, then hack/weaken/grow/weaken batches timed to land 100 ms apart (`hackLoop`, `hackLoopUtils`).
- **Hacknet.** Buy or upgrade the cheapest hacknet node (`hackNodeManager`).
- **Crawler.** Answer the crawler command's queries (`crawler`).
- **Output.** Colour terminal output (`printUtils`).

The host game is outside the model. Everything the game supplies becomes a parameter:

- the network topology, as a `scan` function;
- the per-server record that `getServer` returns;
- the hack, grow and weaken estimators;
- the files on disk and the contents of the JSON data files.

Where the host guarantees something, it is a subset type:

- positive RAM per thread;
- a hack fraction in `[0, 1]`;
- at least one CPU core.

What the scripts do to the game becomes data:

- the `exec` calls of the hacking loop;
- the `scp`/port-opener/`nuke` calls of the deployer;
- the hacknet action of one round;
- the crawler's outcome.

Numbers are exact reals and integers. JavaScript's truncating `%`, `Math.floor` and `Math.ceil` are written out. Where JavaScript would produce `Infinity`, the model uses an explicit datatype constructor: the `PosInf` score of `bestTarget` and the `Unbounded` growth multiplier.

Modules:

- **`Common`**: `Option`, floor and ceiling, the `filter`/`findIndex`/`split`/`join`/`toLowerCase` builtins, and a stable descending sort.
- **`Servers` and `Graph`**: the server record, and reachability over `scan`.
- **`ServerNodes`**: the server tree node, with its path, depth, children and serialised record.
- **`AllServers` and `ServerInfo`**: the two network walks, and the target report.
- **`HackLoopUtils` and `HackLoop`**: the batch planner and the worker loop.
- **`Deployer`, `RootedServers`, `HackableServers` and `BestTarget`**: the deployment and list-building scripts.
- **`Hacknet`, `Crawler` and `PrintUtils`**: the hacknet manager, the crawler command and the colour helpers.

Points of the code worth stating plainly:

- **Batch completion order.** A batch completes hack first, at `D + W - 100` (`D` is the batch delay, `W` the weaken time). Then the first weaken at `D + W`, grow at `D + W + 100`, and the second weaken at `D + W + 200` (`HackLoop.BatchCompletionOrder`). Hack therefore lands before the first weaken, not between the two weakens.
- **The `optimalHackThreads` cap.** It returns `min(h, ⌈1/y⌉)` (`HackLoopUtils.OptimalIsMin`), so it does not keep `y × threads ≤ 1`. With `y = 0.3` and `h = 4` it returns 4, and `0.3 × 4 > 1` (`HackLoopUtils.CapCanOverhack`).
- **Grow-to-weaken ratio.** The hack loop divides the grow-to-weaken ratio by the worker's CPU cores.
- **Batch spacing.** Within one run of a target over the workers, every batch is launched four thread delays (400 ms) after the one before, and so completes entirely after it (`HackLoop.BatchesOnTargetInOrder`). The offset is per run: every run starts again from 0 (`HackLoop.FreshRunLaunchOffsets`). In the early game the best target is run once for every hackable target in the list, so from the second run on its batches are launched at the same offsets as the first run's, and their completion windows overlap. Batches of consecutive passes can overlap too, once a run's offsets outgrow the 3 s pause between passes.

## Model

| member | source | states |
|---|---|---|
| ServerNodes.PathOfNode | src/data/ServerNode.ts:68-78 | a root's path is its own name; any other node's path is its parent's path, `" => "`, then its name |
| ServerNodes.PathIsJoinedAncestry | src/data/ServerNode.ts:68-78 | the path is the names from the root down to the node joined with `" => "` |
| ServerNodes.PathEndsWithName | src/data/ServerNode.ts:68-78 | the path ends with the node's own name |
| ServerNodes.PathStartsWithRoot | src/data/ServerNode.ts:68-78 | the path begins with the root's name, which heads the ancestry |
| ServerNodes.ChildDepth | src/data/ServerNode.ts:22-27 | a child whose name has no `=>` sits exactly one level below its parent |
| ServerNodes.DepthCountsAncestors | src/data/ServerNode.ts:22-27 | depth, counted from the arrows in the path, equals the number of ancestors when no name on the chain holds `=>` |
| ServerNodes.Children | src/data/ServerNode.ts:37-46 | one child per scanned name, in scan order, each with this node as parent |
| ServerNodes.ToRecord | src/data/ServerNode.ts:58-66 | the serialised record keeps the name and live server info, and names the parent exactly when there is one |
| ServerNodes.ChildRecord | src/data/ServerNode.ts:37-66 | a child's record names its parent, extends the parent's path by one step and is one level deeper |
| ServerNodes.ToRecords | dist/scripts/v2/info/hackableServers.ts:23 | one record per node, in the same order |
| AllServers.IsDuplicated | dist/scripts/v2/info/allServers.ts:30-32 | true exactly when some already-collected node has the same name |
| AllServers.GetAllServers | dist/scripts/v2/info/allServers.ts:15-28 | the walk starts with the root node and no parent; each later node's parent appears earlier and scans to it; every emitted name is reachable and every reachable name is emitted |
| ServerInfo.GetAllServers | dist/scripts/v2/info/getServerInfo.ts:71-85 | the name list starts with `home`, has no duplicates, and holds exactly the servers reachable from `home` |
| ServerInfo.FormatTime | dist/scripts/v2/info/getServerInfo.ts:88-93 | for a non-negative duration, seconds and minutes lie in 0..59, hours are the whole hours, and the three add back up to the whole seconds |
| ServerInfo.IsValidTarget | dist/scripts/v2/info/getServerInfo.ts:96-99 | a valid target is never `home` and has more than 1 of maximum money |
| ServerInfo.ValidAsLevelRises | dist/scripts/v2/info/getServerInfo.ts:96-99 | a valid target stays valid as the player's hacking level rises |
| ServerInfo.ValidByMoney | dist/scripts/v2/info/getServerInfo.ts:31-40 | the listing holds exactly the valid targets, each as often as in the input, richest first |
| ServerInfo.SelectServers | dist/scripts/v2/info/getServerInfo.ts:26-40 | a string argument selects that server alone; a number keeps as many of the richest valid targets as its whole part (a negative one drops that many from the end, and one above -1 keeps none); no argument keeps them all; anything but a name yields valid targets in falling money order |
| ServerInfo.Reported | dist/scripts/v2/info/getServerInfo.ts:42-43 | the report covers every selected server except `home` |
| HackLoopUtils.GetAvailableRam | dist/scripts/v2/hack/hackLoopUtils.ts:3-12 | free RAM is the maximum less the RAM in use, less the reserve on `home` only |
| HackLoopUtils.ReserveOnlyOnHome | dist/scripts/v2/hack/hackLoopUtils.ts:3-12 | the reserve is subtracted on `home` and nowhere else: the same server named otherwise has exactly the reserve more available |
| HackLoopUtils.OptimalHackThreads | dist/scripts/v2/hack/hackLoopUtils.ts:14-21 | the request is kept when it takes at most all the money; the result never exceeds the request or `⌈1/y⌉`, one thread fewer takes less than everything, and a positive request stays positive |
| HackLoopUtils.OptimalIsMin | dist/scripts/v2/hack/hackLoopUtils.ts:14-21 | for a positive hack fraction the cap equals `min(h, ⌈1/y⌉)` |
| HackLoopUtils.CapCanOverhack | dist/scripts/v2/hack/hackLoopUtils.ts:18-20 | a capped request can still plan more than all the money (0.3 × 4 > 1) |
| HackLoopUtils.OptimalHackThreadsIdempotent | dist/scripts/v2/hack/hackLoopUtils.ts:14-21 | capping an already capped count changes nothing |
| HackLoopUtils.GrowthFactor | dist/scripts/v2/hack/hackLoopUtils.ts:38-45 | the growth multiplier restoring the money lies between 1 and 100 |
| HackLoopUtils.GrowthFactorMonotone | dist/scripts/v2/hack/hackLoopUtils.ts:38-45 | a larger planned hack never needs a smaller multiplier |
| HackLoopUtils.CalculateGrowthThreads | dist/scripts/v2/hack/hackLoopUtils.ts:31-49 | the grow threads are the host's estimate rounded up, never negative |
| HackLoopUtils.GrowthThreadsMonotone | dist/scripts/v2/hack/hackLoopUtils.ts:31-49 | with a monotone estimator, a larger hack never plans fewer grow threads |
| HackLoop.TargetOf | dist/scripts/v2/hack/hackLoop.ts:69-79 | a target is skipped exactly when its minimum security, security or maximum money is missing or zero; missing current money counts as 1 |
| HackLoop.AvailableThreads | dist/scripts/v2/hack/hackLoop.ts:88-92 | the thread count is the largest whose RAM fits in the worker's available RAM |
| HackLoop.WeakenPlan | dist/scripts/v2/hack/hackLoop.ts:104-124 | weaken uses between 1 and all available threads, never drives the security below the floor, and uses all threads or just enough to reach the floor |
| HackLoop.ClippedWeaken | dist/scripts/v2/hack/hackLoop.ts:108-116 | when all threads would overshoot, the clipped count fits, reaches the floor, and one thread fewer would not |
| HackLoop.GrowPlan | dist/scripts/v2/hack/hackLoop.ts:125-151 | the worker takes the lesser of the outstanding grow requirement and its threads; what it takes plus what remains is the requirement; security never falls |
| HackLoop.Counts | dist/scripts/v2/hack/hackLoop.ts:173-185 | a batch plan keeps the hack count, has at least one second weaken, uses the computed grow threads and needs more threads than the hack alone |
| HackLoop.Refine | dist/scripts/v2/hack/hackLoop.ts:165-217 | the refined plan hacks at least one thread and less than all the money minus one thread, fits in the worker or is down to one hack thread, and is the counts of some hack size |
| HackLoop.Iteration | dist/scripts/v2/hack/hackLoop.ts:165-217 | one pass of the refinement loop either stops with at least one hack and one second-weaken thread, a hack count within `⌈1/y⌉`, a plan that fits unless down to one hack thread, and grow and weaken counts the estimators give for some hack count no larger than its own; or goes round again with a positive count, never clearing the over-allocated flag and strictly closer to stopping |
| HackLoop.IterationCases | dist/scripts/v2/hack/hackLoop.ts:188-214 | each of the loop's exits: shrink when over-used, grow by half the spare share when it stays within the money, stop otherwise |
| HackLoop.IncreaseFits | dist/scripts/v2/hack/hackLoop.ts:199-210 | the increase by half the scaled spare share adds at least one thread and still fits |
| HackLoop.RefineLoop | dist/scripts/v2/hack/hackLoop.ts:159-217 | the loop, starting from `⌈available / 8⌉` hack threads, returns the refined plan: it fits in the worker unless only one hack thread is left |
| HackLoop.RefineRound | dist/scripts/v2/hack/hackLoop.ts:167-214 | one pass of the loop body takes the same exit and the same next state as the reference iteration |
| HackLoop.InitialHackThreads | dist/scripts/v2/hack/hackLoop.ts:159 | the starting hack count is the available threads divided by 8, rounded up |
| HackLoop.FirstWeakenCoversHack | dist/scripts/v2/hack/hackLoop.ts:95-101 | the first weaken of a batch removes at least the security its hack adds |
| HackLoop.BatchExecs | dist/scripts/v2/hack/hackLoop.ts:219-256 | a batch is four execs on the same worker, target and batch number, carrying the plan's weaken, second weaken, grow and hack threads |
| HackLoop.BatchCompletionOrder | dist/scripts/v2/hack/hackLoop.ts:219-256 | hack ends 100 ms before the first weaken, grow 100 ms after it and the second weaken 200 ms after it, whatever the grow and hack times |
| HackLoop.ConsecutiveBatchesDisjoint | dist/scripts/v2/hack/hackLoop.ts:219-259 | a batch launched at least four thread delays (400 ms) after another, on the same target, finishes entirely after it |
| HackLoop.WorkerStep | dist/scripts/v2/hack/hackLoop.ts:85-259 | a worker dispatches nothing, one exec or a four-exec batch, under the current batch number, which advances exactly when something was dispatched; security never falls below the floor; a grow exec plus the grow threads still owed make up the requirement, sized with this worker's cores unless already known, and no other step touches that bookkeeping; a batch needs at least 4 threads and a non-zero hack fraction, is the four execs of the refined plan at the target's current batch delay, and moves that delay on by 400 ms, which nothing else does |
| HackLoop.WorkerBranches | dist/scripts/v2/hack/hackLoop.ts:92-159 | the branch taken: nothing without threads; weaken above the floor; grow while money is short and growth remains; a batch exactly when at least 4 threads are free and a hack takes some money |
| HackLoop.RunTarget | dist/scripts/v2/hack/hackLoop.ts:85-262 | per worker in order, every exec names that worker and the target; batch numbers count the dispatching workers; once the grow requirement is known it stays known, and the grow threads issued equal the drop in what is still owed |
| HackLoop.GrowStepDrains | dist/scripts/v2/hack/hackLoop.ts:130-151 | once the requirement is computed, a grow exec reduces it by exactly its thread count |
| HackLoop.RunTargetGrowFromFresh | dist/scripts/v2/hack/hackLoop.ts:81-151 | from fresh bookkeeping, the requirement becomes known exactly when some worker grows; the first worker to grow sizes it with its own cores, and the grow threads issued plus what is still owed equal that requirement; with no grow nothing is issued |
| HackLoop.RunTargetBatchDelays | dist/scripts/v2/hack/hackLoop.ts:83-259 | each batch is launched at the starting delay plus 400 ms for every batch before it on the target, and the delay left over counts every batch |
| HackLoop.DelayedAt | dist/scripts/v2/hack/hackLoop.ts:224-259 | in a run of dispatches launched from an offset, the batch at any position is that worker's batch launched at the offset plus 400 ms per earlier batch |
| HackLoop.BatchesOnTargetInOrder | dist/scripts/v2/hack/hackLoop.ts:219-259 | on one target, every exec of an earlier batch completes before every exec of a later one, whichever workers run them |
| HackLoop.FreshRunLaunchOffsets | dist/scripts/v2/hack/hackLoop.ts:81-83 | a run of a target from fresh bookkeeping launches its batches at 0, 400, 800, … ms, whatever ran before it |
| HackLoop.BatchNumbersIncrease | dist/scripts/v2/hack/hackLoop.ts:123-255 | of two dispatching workers, the later carries the larger batch number |
| HackLoop.RunTargets | dist/scripts/v2/hack/hackLoop.ts:66-262 | every exec aims at one of the targets; the batch number advances once per dispatch, and each exec carries the starting number plus the dispatches before its own |
| HackLoop.CycleBatchNumbersIncrease | dist/scripts/v2/hack/hackLoop.ts:66-262 | across all targets of a pass, a later dispatch carries a larger batch number |
| HackLoop.Cycle | dist/scripts/v2/hack/hackLoop.ts:52-61 | a pass halts exactly when one of the three data files could not be read |
| HackLoop.EarlyGameFocus | dist/scripts/v2/hack/hackLoop.ts:64-67 | below the early-game level every exec of a pass aims at the best target |
| Deployer.Rank | dist/scripts/v2/hack/deployer.ts:21-27 | each program has a position among the five |
| Deployer.ProgramsListed | dist/scripts/v2/hack/deployer.ts:21-27 | the program list holds every program once, in order |
| Deployer.OwnedPrograms | dist/scripts/v2/hack/deployer.ts:29-31 | a program is owned exactly when its file exists, and owned programs keep the list's order |
| Deployer.RequiredPorts | dist/scripts/v2/hack/deployer.ts:49-51 | the ports a server needs are its recorded count, 0 when unknown |
| Deployer.Root | dist/scripts/v2/hack/deployer.ts:53-70 | nothing happens to a rooted server or one needing more ports than programs owned; otherwise every owned program is run in order, then one nuke; every call is made on that server |
| Deployer.DeployAll | dist/scripts/v2/hack/deployer.ts:34-37 | nothing is called exactly when no server was found, and every call is made on a server the walk found |
| Deployer.Deploy | dist/scripts/v2/hack/deployer.ts:19-47 | every server found gets the batch scripts, only found servers are touched, and the run nukes exactly the servers the owned programs can root: every rootable server found is nuked, every nuke is of a rootable server found, and the nukes number the rootable servers |
| Deployer.DeployCopiesEverywhere | dist/scripts/v2/hack/deployer.ts:34-47 | every server receives the three batch scripts, rooted or not |
| Deployer.DeployNukesExactlyRootable | dist/scripts/v2/hack/deployer.ts:34-37 | a found server is nuked if it is unrooted and needs no more ports than programs owned, and only such servers are nuked |
| Deployer.DeployNukesRootable | dist/scripts/v2/hack/deployer.ts:34-37 | the run nukes exactly as many servers as are unrooted and need no more ports than programs owned |
| RootedServers.RootedServers | dist/scripts/v2/info/rootedServers.ts:17-19 | the list holds exactly the servers with admin rights, each as often as found, largest RAM first |
| RootedServers.RootedIsPermutationOfFilter | dist/scripts/v2/info/rootedServers.ts:17-19 | sorting neither adds, drops nor duplicates servers |
| RootedServers.WrittenListSorted | dist/scripts/v2/info/rootedServers.ts:19-21 | the written records follow the sorted list one for one, with non-increasing maximum RAM |
| HackableServers.HackableServers | dist/scripts/v2/info/hackableServers.ts:18-20 | the list holds exactly the hackable servers, each as often as found, richest first |
| HackableServers.IsHackable | dist/scripts/v2/info/hackableServers.ts:26-33 | a hackable server is rooted, not bought by the player, and has a non-zero maximum money; with no skill requirement recorded the player's level must be non-negative |
| HackableServers.HackableAsLevelRises | dist/scripts/v2/info/hackableServers.ts:26-33 | a hackable server stays hackable as the player's hacking level rises |
| HackableServers.HackableMembership | dist/scripts/v2/info/hackableServers.ts:26-33 | a server is listed exactly when it was found, is not purchased, is rooted, holds money and needs no more skill than the player has |
| HackableServers.WrittenListSorted | dist/scripts/v2/info/hackableServers.ts:20-23 | the written records follow the sorted list one for one, with non-increasing maximum money |
| BestTarget.Candidates | src/scripts/v2/info/bestTarget.ts:26-31 | a target survives exactly when its weaken time is at most 30 minutes |
| BestTarget.ScanUpTo | src/scripts/v2/info/bestTarget.ts:44-58 | the loop keeps no pick exactly when nothing scores above 0; otherwise it keeps the first maximum |
| BestTarget.ChooseBest | src/scripts/v2/info/bestTarget.ts:24-64 | a failed read is reported; an invalid candidate, or no current best and no candidate, crashes; the result is the current best or a surviving candidate, written exactly when its name is new |
| BestTarget.ChosenIsFirstBest | src/scripts/v2/info/bestTarget.ts:44-58 | when something scores above 0, the chosen target is the first with the highest score |
| BestTarget.NoPositiveScoreKeepsStart | src/scripts/v2/info/bestTarget.ts:40-64 | when nothing scores above 0, the current best is kept unwritten, or the first candidate is written when there was none |
| BestTarget.PositiveScore | src/scripts/v2/info/bestTarget.ts:47-57 | a valid target with non-negative minimum security scores above 0 |
| Hacknet.NodeMin | dist/scripts/hackNodeManager.ts:38-44 | a node's minimum is one of its three quotes and at most each of them |
| Hacknet.FirstCheapestKind | dist/scripts/hackNodeManager.ts:44-48 | the upgrade type is the first whose quote equals the minimum |
| Hacknet.CheapestUpTo | dist/scripts/hackNodeManager.ts:31-50 | the choice costs at most the purchase and every node's minimum; it is the purchase, or the first node strictly cheaper than the purchase with the least minimum, with that node's first cheapest type |
| Hacknet.SelectUpgrade | dist/scripts/hackNodeManager.ts:31-50 | the loop yields the cheapest choice, with upgrade type -1 exactly for a purchase |
| Hacknet.PurchaseWinsTies | dist/scripts/hackNodeManager.ts:45 | when no node is strictly cheaper than a purchase, the purchase is chosen |
| Hacknet.LowestIndexWinsTies | dist/scripts/hackNodeManager.ts:37-50 | among equally cheap nodes the lowest index is chosen |
| Hacknet.Decide | dist/scripts/hackNodeManager.ts:52-90 | exit exactly above the cost ceiling; wait exactly while money is under cost × threshold; otherwise act on the chosen type and node |
| Hacknet.DefaultDecide | dist/scripts/hackNodeManager.ts:17-62 | with the default flags a round exits exactly when the cheapest option costs more than 1e12, and waits exactly while money is under 1000 times that cost |
| Hacknet.RoundActsOnChoice | dist/scripts/hackNodeManager.ts:62-90 | a funded round buys exactly when the purchase was chosen, and otherwise upgrades an owned node with the quote that was the minimum |
| Crawler.FindTarget | src/scripts/v2/info/crawler.ts:106-112 | nothing is found exactly when no name matches ignoring case; otherwise the first match is returned |
| Crawler.FindRemoteTargets | src/scripts/v2/info/crawler.ts:119-123 | the listing holds exactly the servers at depth `d` or more, each as often as given, deepest first |
| Crawler.RemoteTargetsMembership | src/scripts/v2/info/crawler.ts:119-123 | a server is listed exactly when it is deep enough |
| Crawler.ParseCustom | src/scripts/v2/info/crawler.ts:74-78 | the key is the text before the first `=`; the value is present exactly when there is an `=`, and is the text up to the next one |
| Crawler.ParseCustomOfPair | src/scripts/v2/info/crawler.ts:74-78 | parsing `key=value` gives back the key and value |
| Crawler.ProbeField | src/scripts/v2/info/crawler.ts:80-87 | a missing value throws exactly on a string field; a given value matches a string field ignoring case; a missing value matches a missing field |
| Crawler.CustomLookup | src/scripts/v2/info/crawler.ts:80-91 | no result exactly when every server misses; otherwise the first non-missing server decides between found and a type error |
| Crawler.WellFormedQueryNeverThrows | src/scripts/v2/info/crawler.ts:76-87 | a query with a key and a value never throws |
| Crawler.AllPaths | src/scripts/v2/info/crawler.ts:97-103 | the dump is an empty line followed by every path, joined by newlines |
| Crawler.AllPathsSplit | src/scripts/v2/info/crawler.ts:97-103 | when no path holds a newline, splitting the dump on newlines gives back the paths |
| Crawler.Crawl | src/scripts/v2/info/crawler.ts:28-103 | help wins, then `-s` (invalid or found), then a non-negative `-d`, then `--custom`, else the path dump; each outcome carries what its branch computes |
| Crawler.DefaultDumpsPaths | src/scripts/v2/info/crawler.ts:20-26 | with the default flags the command dumps every path |
| PrintUtils.Code | src/scripts/utils/printUtils.ts:10-15 | exactly the four colour names have an escape code, each of the form ESC `[` two digits `m` |
| PrintUtils.CodesDistinct | src/scripts/utils/printUtils.ts:10-15 | the four colour codes and the reset are pairwise different |
| PrintUtils.Colorize | src/scripts/utils/printUtils.ts:17-31 | an unknown colour leaves the text unchanged; a known one wraps it in its code and the reset |
| PrintUtils.ColorizeRoundTrip | src/scripts/utils/printUtils.ts:17-31 | the colour and the text can both be read back from the coloured string |
| PrintUtils.ColorizeMeetRequirement | src/scripts/utils/printUtils.ts:33-39 | the text comes back green when the requirement is met and red otherwise, unchanged inside |

## Left out

- Host calls: `ns.exec`, `scp`, `nuke`, the port openers and the hacknet purchases are modelled as returned actions. Their effect on the game, and sleeps, polling and the waiting loops, are not modelled.
- Concurrency: races between the running scripts and the game are not modelled. Each pass works on one fixed snapshot of every server's info.
- Floating point: arithmetic is on exact reals, and NaN and rounding are not modelled. Infinity appears only as the `PosInf` score and the unbounded growth multiplier.
- Case folding: `toLowerCase` is modelled for ASCII letters only.
- Memoisation: the cached path and depth of a server node are recomputed, which gives the same value.
- Files: JSON encoding and decoding, and reading and writing files, are left out. The read results are parameters: a failed read is `None`.
- Terminal output: `printInfo` and the `tprintf` formatting are left out. The colour helpers are modelled.
- Crawler.ProbeField: `--custom` looks up keys on a server record. Prototype keys such as `constructor`, and server fields beyond the model's record, are not modelled.
- BestTarget.ChooseBest: the `assert` helper of the scripts' utility module is not part of this model. It is taken to throw exactly when its condition is false.
- HackLoop.Refine: the refinement can end with more threads than the worker has, when it is down to one hack thread. The contract says so rather than promising a fit.
- HackLoop.RefineLoop: the RAM per thread of the weaken script and the weaken estimator's per-thread effect are taken as positive, as the host guarantees.
- HackLoopUtils.CalculateGrowthThreads: the host's `growthAnalyze` is an uninterpreted estimator. Its monotonicity is assumed only where `GrowthThreadsMonotone` requires it.
- ServerNodes.ToRecord: the model treats `toJSON` as returning a structured record. The code returns `JSON.stringify` of that record, the list writers store the array of those strings, and `FileSystem.write` encodes the array again. Read back, the files hold strings, and the hack loop's `{ info }` destructuring would find no server record. The model assumes structured records throughout, which is the evident intent.
- ServerInfo.SelectServers: a count argument is an exact real, made whole by truncation toward zero as `slice` does. NaN and `Infinity` counts are not modelled.
- `serverManager`, `homeManager`, `init` and the shared batch scripts are outside the modelled core. Only their file paths appear, as constants.
