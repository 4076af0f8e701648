# gravinet: configuration and reconciliation

A model of the part of gravinet that decides what a node runs: the configuration with its
migrations and edits, and the reconcilers that carry it into the running daemon. Everything is
proved for all inputs, runs or reachable states unless the statement names a condition. Where the
code meets a property only under a condition, rows that say "if and only if" give the exact one, and
a lemma shows a failing input or run.

| file | models |
|---|---|
| Text, Sets | trimming, case folding, decimal numbers; sizes of sets |
| Firewall, Rulebase, RulebaseEdits, RuleIDs, RuleHistory | the ordered rulebase, its edits through the control surface, stable ids |
| FirewallHoist, QosHoist, QosCaps, NatHoist, Shaping | hoisting per-network sections to node level |
| Validation, ValidateRun, ValidationFixed | Config.Validate as a function, as the in-place procedure, and as a normaliser |
| Loading, Accepting, Directions | which configurations Validate accepts, and what they mean once it has loaded them |
| Reload, ReloadBroken, NatWorker | the two concurrent protocols of a reload |
| Keys, KeyEdits, JoinToken, Joining | key slots and join tokens |
| NatCompile, NatAccept, QosCompile | NAT entries accepted and compiled, QoS rules to the classifier's list |
| Snapshots, Sizes, Subnets, PeerCache | the snapshot store and small algorithms |

Code that works in place is a class or a method with loops, proved against a specification
function; the promises are then lemmas about those functions. Concurrent code is a state with
atomic actions, and a run is any interleaving.

What is taken for granted:

- Library calls (trimming, EqualFold, address parsing and printing, key decoding, key ids, RFC 3339
  times, hex ids) are functions passed in. What is relied on is written in a predicate named
  `Sound`, `Lawful`, `Trims`, `NamesNoAddress` or `Fits`; `TrimSpaceLawful`, `SuchALibrary`,
  `SuchLibraries` and `SomeLibraryIsSound` give functions that meet them.
- Reload: reloads run one at a time (assumed in cmd/gravinet/main.go:1159-1161, while the key-expiry
  sweep at line 1762 calls the same function directly). Two more conditions are the predicate `Assumed`:
  no two enabled networks of a configuration have one numeric id, although Validate compares ids as
  text and so accepts "7" beside "07"; and a removal has unlisted its network before a later reload
  that omits it reads the ids. They are exact: `BrokenAssumptionBuildsTwice` goes on from any
  violation to two devices for one network.
- A reload's overlay-address change, and whether a device can be built, are open: either may happen.
- NAT worker: `Apply` takes effect as a whole or fails without changing the kernel.
- Snapshots: the clock is a parameter. Tokens: "now" is part of the environment.

Where the code and its comments disagree, the model follows the code:

- internal/config/config.go:4575-4589 says hoisting keeps what each network enforced. It does when
  names are separate (`HoistPreservesVerdicts`, `OnlySeparateNamesHoist`), not for a name with an
  outer blank.
- internal/config/config.go:4271-4284 says that hoisting NAT keeps both what the kernel and what each network's
  overlay table translated. The kernel half holds (`NatHoistKeepsKernel`). No scope is written
  (internal/config/config.go:4292-4295), and the overlay half holds exactly when every rule in force is about
  its own network's device only (`NatHoistKeepsOverlaysExactly`): a port-forward spreads to every overlay
  (`PortForwardSpreads`), and a masquerade out of eth0 leaves its own (`MasqueradeIsLost`).
- internal/config/config.go:4612-4616 says ids are never reused. The uint64 counter can wrap
  (`ExhaustedCounterReusesID`, `LargestIDUnsettles`), and rules hoisted from several networks keep
  the ids they had there, so they can collide (`LoadIsGoodExactly`).
- internal/config/ops.go:1265-1267 accepts "+80" as a port; the compiler does not read it and emits a
  rule for every port (`AcceptedPorts`).
- internal/config/config.go:1965-1968 promises an error for sizes that make no sense; a product past
  2^64 is accepted (`OverflowMisread`).
- internal/config/config.go:4324-4328 says a node classifies after the QoS hoist exactly what it classified
  before. It does under the exact condition of `QosHoistKeepsClassesExactly`; a network whose QoS was off
  always changes (`OffNetworkIsClassified`), and a name with an outer blank is a scope that the check which
  follows refuses, unless another network has the trimmed name (`RulesLoadExactly`).
- internal/config/history.go:96-103 says the state before the first tracked change is kept. With a limit of
  one it is pruned in the same call (`BaselineKeptExactly`).
- cmd/gravinet/main.go:3384-3386 says a connected endpoint always wins a slot; past the cap it may not
  (`LiveFitExactly`).

## Model

| member | source | states |
|---|---|---|
| FirewallHoist.FirewallConfig.MigrateFirewall | internal/config/config.go:4590-4610 | The in-place migration leaves exactly the hoisted, scoped, numbered rulebase, the node switch, and networks with no rulebase of their own. |
| FirewallHoist.FirewallConfig.FirewallRulesFor | internal/config/config.go:4645-4654 | A network gets the rules whose trimmed scope is empty or equals its name or id ignoring case, in rulebase order. |
| FirewallHoist.HoistPreservesVerdicts | internal/config/config.go:4575-4610 | From no node-global rules: when each scope written reaches its own network and no other, every packet on every network gets the verdict it got before. |
| FirewallHoist.OnlySeparateNamesHoist | internal/config/config.go:4636-4654 | Conversely, if verdicts are preserved for rulebases on networks of these names, every scope reaches exactly its own network. |
| FirewallHoist.HoistedDecides | internal/mesh/firewall.go:685-697 | First match over the hoisted list, seen from one network, is first match over the one rulebase whose scope reaches it. |
| FirewallHoist.GlobalRulesStay | internal/config/config.go:4590-4610 | A rulebase that is already node-global keeps its verdicts and its switch. |
| FirewallHoist.TidyNamesAreSeparate | internal/config/config.go:4634-4654 | Trimmed names (ids for unnamed networks) that differ ignoring case from every other network's name and id are enough. |
| FirewallHoist.PaddedNameLosesItsRules | internal/config/config.go:4645-4651 | A network name with a blank beside it loses its rules: the scope is trimmed, the name it is compared with is not. |
| Firewall.Config.AssignFirewallIDs | internal/config/config.go:4617-4632 | The two loops leave the counter and ids that Assigned says, with uint64 wrap-around. |
| RuleIDs.LoadIsGoodExactly | internal/config/config.go:4612-4632 | Loading yields distinct non-zero ids below the counter if and only if the ids present are distinct, none is 2^64-1, and the counter can number the rest. |
| RuleIDs.LoadSettlesExactly | internal/config/config.go:4617-4632 | A second load changes nothing if and only if the counter did not wrap during numbering and no rule with id 2^64-1 stands behind every rule that lacked an id. |
| RuleIDs.LargestIDUnsettles | internal/config/config.go:4617-4632 | Ids 0 and 2^64-1: the counter is 2 after one load and 1 after the next. |
| Firewall.Config.CheckFirewallScope | internal/config/config.go:4658-4669 | Accepts the blank scope and those naming a network, nothing else. |
| Firewall.Config.FirewallIndexOf | internal/config/ops.go:927-934 | The first rule with the id, or -1. |
| Firewall.Config.FirewallRuleAdd | internal/config/ops.go:939-953 | Adds with a fresh id at the position asked for, or at the end; refuses an unknown scope and then changes nothing. |
| Firewall.Config.FirewallRuleUpdate | internal/config/ops.go:956-968 | Replaces the rule, keeping its id and place, or changes nothing. |
| Firewall.Config.FirewallRuleDelete | internal/config/ops.go:974-996 | Removes exactly the rules with the ids; refuses when none has one. |
| Firewall.Config.FirewallRuleMove | internal/config/ops.go:1120-1132 | Takes the rule out and puts it back at `to`, or refuses. |
| Firewall.Config.FirewallRuleSetEnabled | internal/config/ops.go:917-924 | Changes one rule's switch, or refuses. |
| RulebaseEdits.UpdateExactly | internal/config/ops.go:956-968 | An update is accepted if and only if some rule has the id and the scope is blank or names a network; that rule then has exactly the body and switch given, the trimmed scope and its old id, and nothing else changes. |
| RulebaseEdits.SwitchExactly | internal/config/ops.go:917-924 | Switching is accepted if and only if some rule has the id, and changes that rule's switch alone. |
| RulebaseEdits.MoveAccepted | internal/config/ops.go:1120-1132 | A move is accepted if and only if some rule has the id and the place is in the rulebase. |
| RulebaseEdits.DeleteAccepted | internal/config/ops.go:974-996 | A deletion is accepted if and only if some rule has one of the ids. |
| RulebaseEdits.PasteAccepted | cmd/gravinet/controlfw.go:120-146 | A paste is accepted if and only if every scope of the clip is blank or names a network. |
| RulebaseEdits.RefusedSavesNothing | cmd/gravinet/controlfw.go:67-146 | An edit that is not accepted leaves the saved rulebase alone, and only copying and cutting replace the clip, by the rules picked. |
| RulebaseEdits.AssignedKeeps | internal/config/config.go:4617-4632 | Assigning ids touches nothing but the ids of rules that have none. |
| RulebaseRuns.Control.FirewallAdd | cmd/gravinet/controlfw.go:67-88 | The rule reported back is the one stored, at the place asked for, for any position in range or not. |
| RulebaseRuns.Control.FirewallDelete | cmd/gravinet/controlfw.go:90-92 | Saves the deletion, or nothing when it is refused. |
| RulebaseRuns.Control.FirewallMove | cmd/gravinet/controlfw.go:94-96 | Saves the move, or nothing when it is refused. |
| RulebaseRuns.Control.FirewallCopy | cmd/gravinet/controlfw.go:98-111 | Replaces the clip by the picked rules; an empty pick leaves it alone. |
| RulebaseRuns.Control.FirewallCut | cmd/gravinet/controlfw.go:113-118 | Copies and then deletes the same ids. |
| RulebaseRuns.Control.FirewallPaste | cmd/gravinet/controlfw.go:120-146 | Saves the whole paste or nothing of it. |
| RulebaseRuns.PickFirewallRules | cmd/gravinet/controlfw.go:151-163 | The rules with these ids, in rulebase order. |
| RulebaseRuns.GoodAssigned | internal/config/config.go:4612-4632 | Reassigning ids, as every reload does, changes nothing where ids are in order. |
| RulebaseRuns.AddKeepsGood | internal/config/ops.go:939-953 | An added rule gets the counter's value as id; all other rules stay as they were around it, and ids stay distinct. |
| RulebaseRuns.DeleteKeepsGood | internal/config/ops.go:974-996 | Exactly the other rules remain; ids stay distinct and the counter does not go back. |
| RulebaseRuns.MoveIsExact | internal/config/ops.go:1120-1132 | The rule is at `to`, and the list without it is the same before and after. |
| RulebaseRuns.MoveKeepsGood | internal/config/ops.go:1120-1132 | A move is a permutation and keeps ids in order. |
| RulebaseRuns.SplitInOrder | cmd/gravinet/controlfw.go:151-163 | Copying and deleting by the same ids split the rulebase in two, each part in rulebase order. |
| RulebaseRuns.PasteIsOneBlock | cmd/gravinet/controlfw.go:120-146 | Wherever it is asked for, a paste inserts the clip as one contiguous block, in order, under consecutive fresh ids; nothing else moves. |
| RulebaseRuns.CutThenPaste | cmd/gravinet/controlfw.go:98-146 | Cut then paste moves the chosen rules as one block in rulebase order and leaves the others in order with their ids. |
| RulebaseRuns.IDsAreNeverReused | internal/config/config.go:1544-1548 | Over every run of add, update, delete, move, switch, copy, cut, paste and reload within the counter's range, ids stay distinct and below the counter, and the counter values issued strictly increase. |
| RuleHistory.EditBringsInWhatItIssues | internal/config/ops.go:939-996 | The ids an edit issues are exactly those of the rules it brings in: every id afterwards was there before or is issued, and every issued one is new and there. |
| RuleHistory.NoIDReturns | internal/config/config.go:1544-1548 | An id below the counter that no rule has at some point of a run is carried by no rule at any later point. |
| RuleHistory.DeletedIDNeverReturns | internal/config/config.go:1544-1548 | In particular the id of a deleted or cut rule never comes back, by paste or otherwise. |
| RuleHistory.RoomIsExact | internal/config/config.go:4617-4632 | From ids in order, they are in order at every point of a run if and only if the uint64 counter has room for every id the run issues. |
| RulebaseRuns.ExhaustedCounterReusesID | internal/config/ops.go:939-947 | At the top of the uint64 range the counter wraps and hands out an id that is in use. |
| Shaping.ShapingConfig.ShapingFor | internal/config/config.go:4416-4427 | The first entry for the trimmed interface name, none for a blank one. |
| Shaping.IfaceIsClean | internal/config/config.go:4403-4411 | Every network has an interface name that is trimmed and not blank, so it can be looked up as it stands. |
| Shaping.LookedUp | internal/config/config.go:4388-4400 | A network is looked up by its id, then by its name, and by neither has its own interface name. |
| Shaping.ShapingConfig.MigrateShaping | internal/config/config.go:4540-4573 | The in-place migration leaves the gathered list and clears the legacy rates. |
| Shaping.RateAfter | internal/config/config.go:4432-4450 | After the hoist a network's rate is the last non-empty rate among the networks on the interface it is looked up under. |
| Shaping.HoistPreservesRates | internal/config/config.go:4510-4573 | When each network is looked up under its own interface and no other's, every network keeps its rate, zero rates included. |
| Shaping.OnlyApartHoists | internal/config/config.go:4388-4411 | Conversely, if a rate on any one network survives unshared, the interfaces are apart. |
| Shaping.DistinctIsApart | internal/config/config.go:4388-4411 | Distinct non-empty ids and distinct interfaces are enough. |
| Shaping.DefaultWaitsOnFirst | internal/config/config.go:4522-4528 | With no network the node default goes to mesh0. |
| NatHoist.NatHoistKeepsKernel | internal/config/config.go:4269-4311 | The kernel half: the node puts into force exactly the enabled rules of the networks whose NAT was on, in order. |
| NatHoist.FillOverlay | cmd/gravinet/main.go:3233-3253 | The loop fills a network's overlay table with the rules in force that are about its device, in order. |
| NatHoist.OverlayExactly | cmd/gravinet/main.go:4212-4218 | A rule is in a device's table exactly when NAT and the rule are on and the rule names no interface or, blanks and case aside, that device. |
| NatHoist.NatHoistKeepsOverlaysExactly | internal/config/config.go:4269-4311 | The overlay half: every network's overlay table holds exactly the rules that were in force under it, if and only if each such rule applies to that network's device and to no other's. |
| NatHoist.PortForwardSpreads | cmd/gravinet/main.go:4212-4218 | A rule without an interface, as every port-forward and static SNAT is, reaches the overlay table of every network after the hoist. |
| NatHoist.OtherInterfaceIsLost | cmd/gravinet/main.go:4212-4218 | A rule about an interface other than its network's device leaves that network's overlay table, while the kernel keeps it. |
| NatHoist.MasqueradeIsLost | cmd/gravinet/main.go:4212-4218 | So does a masquerade out of eth0 under a network on mesh0. |
| QosHoist.QosHoistKeepsClassesExactly | internal/config/config.go:4313-4361 | Every packet keeps class and mark on every network with QoS on, whatever the rulebases, if and only if scopes reach their own network only and every network the geometry may be taken from has the normalised geometry (classes, default, marks) of those that are on. |
| QosHoist.HoistedMatches | internal/config/config.go:4330-4361 | First match over the hoisted rules, seen from one network, is first match over the one section that is on and whose scope reaches it. |
| QosHoist.GeometryChangesClass | internal/config/config.go:4352-4356 | Five classes on the first network and eight on the second: class 6 on the second becomes the default class 3. |
| QosHoist.OffNetworkIsClassified | internal/config/config.go:3250-3282 | A network whose QoS was off on a node where it comes on gets the default class, its mark, and a cap that is switched on with a rate. |
| QosCaps.CapsMeshOnly | internal/config/config.go:3244-3262 | QoS caps exactly the interfaces of this node's networks, setting a rate only where there was none. |
| Accepting.LoadsExactly | internal/config/config.go:3011-3322 | Validate accepts a configuration if and only if the fields it came with meet the checks, stated before any migration: ports, log size, BGP, DHCP mode and links, the NAT timeout that results, networks, and the QoS scopes that will be in use. |
| Accepting.LoadedFields | internal/config/config.go:3046-3077 | Afterwards networks have their MTU and reject list or the defaults and none of the moved sections; SNMP, DHCP and the NAT timeout hold what the retired fields said. |
| Accepting.LinksAre | internal/config/config.go:4245-4267 | A relay without links gets one per legacy interface that is not blank, with the legacy servers, trimmed, and hop limit. |
| Accepting.LoadedQos | internal/config/config.go:3264-3273 | QoS comes up exactly when the node's or, without node rules, a network's was on; its geometry is that of the section it is taken from, with at least five classes and a default among them. |
| Accepting.LoadedCaps | internal/config/config.go:3244-3262 | Where QoS comes up, the entries of the node's interfaces are on and have an upstream limit; their other fields and all other entries are as they were. |
| ValidateRun.TrimStrings | internal/config/config.go:4259-4267 | Trims every text and drops the empty ones, in order. |
| ValidationFixed.RetiredServerLoads | internal/config/config.go:4209-4231 | The retired server mode is not refused and comes up as off, never as relay; any other unknown mode is refused. |
| ValidateRun.ConfigFile.MigrateRelay | internal/config/config.go:4245-4256 | One link per legacy interface when there is none yet; the legacy fields are cleared. |
| ValidateRun.ConfigFile.MigrateTimeout | internal/config/config.go:3062-3077 | The largest legacy timeout becomes the node's when it has none; the legacy ones are cleared. |
| ValidateRun.ConfigFile.MigrateNAT | internal/config/config.go:4289-4311 | The in-place NAT hoist equals its specification. |
| ValidateRun.ConfigFile.MigrateQoS | internal/config/config.go:4330-4361 | The in-place QoS hoist equals its specification, geometry included. |
| ValidateRun.ConfigFile.DirectRules | internal/config/config.go:3097-3121 | The loop over the rules, in place, equals its specification, whose meaning is LoadedDirections. |
| Directions.LoadedDirections | internal/config/config.go:3097-3121 | On every configuration accepted, a rule becomes a port-forward to its trimmed target if and only if its direction is the retired one and the target is not blank, masquerade or already marked; every other translate text stays, match and switch always, and no direction or scope is left. |
| Directions.DirectionsDecide | cmd/gravinet/main.go:3282-3345 | The kernel forwards for a loaded rule exactly when it is such a rule or marked and names a target, and to that target; every other rule compiles as it did before. |
| Directions.RetiredAddressForwards | internal/config/config.go:3100-3103 | A literal address with the retired direction, by itself a static SNAT, is loaded as the port-forward to it. |
| ValidateRun.ConfigFile.CheckNetworks | internal/config/config.go:3125-3243 | Refuses exactly the bad network lists and fills in MTU and reject defaults. |
| ValidateRun.ConfigFile.CapInterfaces | internal/config/config.go:3250-3262 | Switches one entry per mesh interface on, with a rate. |
| ValidateRun.ConfigFile.CheckQoSScope | internal/config/ops.go:2034-2045 | Accepts exactly the scopes that are blank or, trimmed, name a network ignoring case. |
| ValidateRun.ConfigFile.CheckScopes | internal/config/config.go:3275-3279 | Accepts exactly the lists in which every scope is blank or names a network. |
| ValidateRun.ConfigFile.Validate | internal/config/config.go:3011-3322 | The whole procedure, step after step in place, refuses and computes exactly what Validated says. |
| ValidationFixed.MigratedAgain | internal/config/config.go:4269-4632 | With no legacy field left, all migrations together only assign rule ids. |
| ValidationFixed.SecondCallOnlyRenumbers | internal/config/config.go:3011-3322 | On every configuration Validate accepts, a second call accepts the result and touches nothing but rule ids and their counter. |
| ValidationFixed.ValidateSettlesExactly | internal/config/config.go:3011-3322 | Validate is a fixed point on its own output if and only if the id counter does not wrap in the way LoadSettlesExactly describes. |
| Loading.LoadKeepsVerdictsExactly | internal/config/config.go:3011-3322 | Validate as a whole, from no node-global rules: the configuration loads and keeps the verdict of every packet on every network, whatever the rulebases, if and only if each scope reaches its own network and no other. |
| Loading.LoadKeepsRatesExactly | internal/config/config.go:3011-3322 | From no shaping list: it loads and every network keeps its rate (switched on and limited where QoS needs a cap), whatever the rates, if and only if no two networks share an interface. |
| Loading.RulesLoadExactly | internal/config/config.go:3263-3282 | From no node-global QoS rules: it loads whatever the QoS rules under its networks, if and only if QoS stays off or every scope the hoist writes names a network. |
| Loading.LoadKeepsClassesExactly | internal/config/config.go:3011-3322 | It loads and keeps the class and mark of every packet on every network with QoS on, whatever the rules, if and only if those scopes are known and scopes and geometries are as in QosHoistKeepsClassesExactly. |
| Loading.LoadKeepsTablesExactly | internal/config/config.go:3011-3322 | From no node-global NAT rules: the kernel gets the rules that were in force, their retired directions rewritten; every overlay table keeps its own, if and only if each rule is about its own network's device only. |
| Loading.LoadKeepsMeaning | internal/config/config.go:3011-3322 | A configuration with nothing node-global, separate names and devices, one QoS geometry and such NAT rules: every verdict, class, mark, rate and overlay table is after loading what it was before. |
| Reload.StepKeepsInv | cmd/gravinet/main.go:1226-1377 | Every atomic action that meets the two assumptions keeps the protocol invariant. |
| Reload.RunKeepsInv | cmd/gravinet/main.go:1226-1377 | The invariant holds after every interleaving of serialised reloads and removals that meets them. |
| Reload.AtMostOneDevice | cmd/gravinet/main.go:1171-1182 | In every state reached under the two assumptions no network has two live devices. |
| Reload.BuildIsExclusive | cmd/gravinet/main.go:1226-1318 | Whenever a reload may open a device, nothing of that network is being torn down, listed or open. |
| Reload.Converges | cmd/gravinet/main.go:1226-1377 | Once all is drained after a reload whose steps worked, exactly the networks it wanted run, each on one device. |
| Reload.NoDeadlock | cmd/gravinet/main.go:1343-1377 | Short of a quiet state some action other than a new reload is possible. |
| Reload.EveryActionDrains | cmd/gravinet/main.go:1343-1377 | Every action but a new reload lowers a well-founded measure (phase, position, removals left, in this order), so only finitely many can follow. |
| Reload.ComesToRest | cmd/gravinet/main.go:1226-1377 | Every execution can be continued, without a new reload, to a quiet state; if the last reload's builds worked so far, exactly the networks it wanted then run, each on one device. |
| ReloadBroken.BrokenAssumptionBuildsTwice | cmd/gravinet/main.go:1226-1377 | The assumptions are exact: as soon as an action breaks one of them, some way of going on gives a network two devices. |
| ReloadBroken.TwinsBuildTwice | cmd/gravinet/main.go:1256-1318 | Two enabled entries with one numeric id ("7" and "07") can both be built in one reload, whether the network ran before or not. |
| ReloadBroken.OverlapBuildsTwice | cmd/gravinet/main.go:1343-1357 | A reload that reads the ids while the removal of an unwanted network has not unlisted it launches a second removal, whose deferred delete drops the only map entry. |
| ReloadBroken.OverlappingRemovalsBuildTwice | cmd/gravinet/main.go:1343-1357 | From a daemon that runs one network, such a run exists. |
| NatWorker.RunKeepsInv | cmd/gravinet/main.go:1157-1199 | The channel, history and kernel invariants hold after every interleaving of sender and worker. |
| NatWorker.SecondSendNeverBlocks | cmd/gravinet/main.go:1183-1199 | The send that follows emptying the channel never waits. |
| NatWorker.TakenIsASubsequence | cmd/gravinet/main.go:1157-1170 | The worker takes a subsequence of what was sent, in order, without repeats. |
| NatWorker.NewestIsNeverDropped | cmd/gravinet/main.go:1183-1199 | The newest ruleset is with the sender, in the channel, or the last one taken. |
| NatWorker.SkipsOnlyWhatTheKernelHas | cmd/gravinet/main.go:1039-1056 | The worker skips an apply without a failure exactly when the kernel already has the ruleset. |
| NatWorker.QuietMeansCurrent | cmd/gravinet/main.go:1032-1071 | At rest kernel and record agree, and they are the last ruleset sent if and only if its apply did not fail. |
| NatWorker.FailureIsRetried | cmd/gravinet/main.go:1060-1063 | A ruleset whose apply failed is attempted again when it is sent unchanged. |
| NatWorker.ComesToRest | cmd/gravinet/main.go:1157-1199 | Both ends come to rest without a further send, with the last ruleset in the kernel if applies work from then on. |
| NatWorker.EveryActionSettles | cmd/gravinet/main.go:1157-1199 | Every action but a new send uses up part of the work left. |
| Keys.FoldPropagatedKeys | cmd/gravinet/main.go:3412-3448 | The loop folds the learned keys, counts those without a slot and reports a change. |
| Keys.FoldKeeps | cmd/gravinet/main.go:3398-3448 | Folding never changes key material, Enabled, Distributed or notes of an occupied slot and keeps distinct keys distinct. |
| Keys.FoldConverges | cmd/gravinet/main.go:3412-3448 | The count is exactly the keys in no slot; a second fold changes nothing and reports the same count. |
| Keys.FoldHonoursHints | cmd/gravinet/main.go:3398-3448 | For every part of the list from its start: all its new keys end in the slots they hint at, if and only if those slots are free before the fold and no two of the new keys hint at one. |
| KeyEdits.FoldHolds | cmd/gravinet/main.go:3398-3448 | Every slot after a fold: one with a key keeps it, its switch, mark and notes, and takes the mesh's label and expiry if that key was learned; a free one is as before or holds one new learned key with its label and expiry, enabled, marked and without notes; a learned key is in no slot only when none is free. |
| KeyEdits.FoldPlaces | cmd/gravinet/main.go:3433-3444 | A new key goes to its hinted slot when that is free at its turn, and to the lowest free one otherwise. |
| Keys.ChangedMeansChanged | cmd/gravinet/main.go:3408-3411 | The change flag is set if and only if the slots differ from before. |
| Keys.ApplyKeyRetractions | cmd/gravinet/main.go:3458-3484 | The loop clears or refuses each retracted id in turn. |
| Keys.RetractionIsExact | cmd/gravinet/main.go:3458-3484 | For all retraction lists, a slot is cleared exactly when its id was retracted and it is not the sole enabled key, all others untouched, if and only if no key is in two slots, except one pair that holds every enabled key and whose later slot is enabled. |
| Keys.RetractionIsSafe | cmd/gravinet/main.go:3458-3484 | A network with an enabled key still has one. |
| Keys.RetractedOrRefused | cmd/gravinet/main.go:3458-3484 | For all retraction lists, each retracted id ends in no slot or is refused and still the sole enabled key, if and only if a key in two slots has the sole enabled key as its first. |
| Keys.TwinOutlivesRetraction | cmd/gravinet/main.go:3462-3479 | A key stored in two slots outlives a retraction, unrefused, in the second. |
| Keys.RefusedIsSoleKey | cmd/gravinet/main.go:3471-3475 | Every refused id is still the sole enabled key at the end. |
| Keys.Network.KeyGenerate | internal/config/ops.go:2499-2523 | Fills the first free slot with an enabled key, or refuses when there is none. |
| Keys.Network.KeyGenerateInto | internal/config/ops.go:2527-2547 | Fills the named slot only when it is free. |
| Keys.Network.KeySet | internal/config/ops.go:2551-2571 | Stores a key that decodes, enabled and without expiry, keeping the old title unless one is given. |
| Keys.Network.KeySetTitle | internal/config/ops.go:2577-2594 | Relabels an occupied slot, falling back to the default title. |
| Keys.Network.KeySetNotes | internal/config/ops.go:2600-2613 | Sets the trimmed notes of an occupied slot. |
| Keys.Network.KeySetExpiry | internal/config/ops.go:2617-2636 | Sets an RFC 3339 expiry or clears it. |
| Keys.Network.KeySetEnabled | internal/config/ops.go:2638-2654 | Switches a slot, except the last enabled key off. |
| Keys.Network.KeySetDistributed | internal/config/ops.go:2661-2674 | Marks an occupied slot. |
| Keys.Network.KeyDelete | internal/config/ops.go:2677-2693 | Empties a slot, except the last enabled key. |
| KeyEdits.GenerateExactly | internal/config/ops.go:2499-2523 | A generated key is refused only when no slot is free; it goes to the lowest free slot, labelled, enabled, without expiry, mark or notes. |
| KeyEdits.LastKeyExactly | internal/config/ops.go:2638-2693 | Switching off and deleting are refused on a filled slot exactly when it is enabled and no other slot is; otherwise they change that slot alone. |
| Keys.EditKeepsAlive | internal/config/ops.go:2470-2495 | No edit, import, fold or retraction takes the last enabled key away. |
| Keys.NeverLockedOut | internal/config/ops.go:2470-2495 | Over every run of all these, a network that has an enabled key never ends without one. |
| JoinToken.NetworkToken | internal/config/jointoken.go:58-130 | A token holds the active keys, the extras then enabled seeds, and the remaining cached peers; refused without an active key. |
| JoinToken.TokenCarriesWhatIsCounted | internal/config/jointoken.go:134-152 | Seeds and cache repeat nothing, share nothing, hold exactly the addresses known, and are as many as TokenSeedCount says. |
| JoinToken.Node.FindNetwork | internal/config/ops.go:32-46 | The first network named by name, id, or the same hex number. |
| JoinToken.ImportKeys | internal/config/jointoken.go:236-263 | New keys go to free slots in order; refused when they do not fit. |
| JoinToken.Node.NetworkJoinToken | internal/config/jointoken.go:182-285 | Joins exactly the acceptable tokens, with the merge stated by Joins. |
| KeyEdits.ImportExactly | internal/config/jointoken.go:236-263 | The keys of a token are imported if and only if those missing fit the free slots; occupied slots stay, and the missing keys fill the lowest free ones, each once, enabled, under their label or a default one. |
| Joining.JoinsExactly | internal/config/jointoken.go:182-263 | A node joins with a token if and only if its id is canonical, its expiry is blank or a time still to come, it has keys and all decode, the subnets given parse, and the keys the network lacks fit its free slots. |
| Joining.ExpiredNeverJoins | internal/config/jointoken.go:191-198 | Once the expiry has passed there is no join, whatever else the token says. |
| Joining.JoinChanges | internal/config/jointoken.go:216-285 | A join changes one network: it comes on, keeps its id, name, keys, seeds and cache, takes the token's subnets where given and the fallback port where it had none, and gains exactly the keys, seeds and endpoints it lacked. |
| Joining.MintsExactly | internal/config/jointoken.go:58-76 | A token is minted if and only if some key is present, enabled and not expired, and carries exactly those, in slot order, with label and expiry. |
| Joining.TokenAddresses | internal/config/jointoken.go:77-121 | Its seeds are first the extras, then the seeds that are on; its cache is the recent peers that are no seeds; all trimmed, none blank. |
| JoinToken.JoinTwice | internal/config/jointoken.go:182-285 | Joining again with the same token is accepted and changes nothing, whatever the configuration was before. |
| JoinToken.MintThenJoin | internal/config/jointoken.go:58-130 | A node none of whose networks answers to the token's id gains exactly one network by joining with a minted token; it holds exactly the issuer's distinct active keys with title and expiry, its seeds and its cache. |
| NatCompile.TargetRoundTrip | internal/config/ops.go:1407-1462 | Splitting a printed target gives back its address and port, for every address and port. |
| NatCompile.AcceptedMeans | internal/config/ops.go:1320-1405 | Every accepted rule compiles to a kernel rule with the kind, prefixes, negations, target, remap port and interface typed, and one address family throughout. |
| NatCompile.AcceptedPorts | internal/config/ops.go:1265-1288 | Its ports are the validated ones if and only if no plus sign was typed; with one the rule matches every port. |
| NatCompile.PortsReadBack | cmd/gravinet/main.go:2588-2626 | The compiler reads a validated port text back exactly when it has no plus sign. |
| NatAccept.AcceptedExactly | internal/config/ops.go:1320-1405 | The editor accepts an entry if and only if its match fields, ports and protocol can be read, no negated field is blank, and it is a port-forward, masquerade or static SNAT that its fields allow, all addresses of one family. |
| NatAccept.PrintedForwardAccepted | internal/config/ops.go:1344-1377 | For every unmapped target, port or range, protocol, match of the target's family, and remap port when one port is matched, the printed port-forward is accepted and compiles to that DNAT with those ports. |
| NatAccept.MasqueradeCompiles | internal/config/ops.go:1381-1393 | A masquerade out of any interface, for a source prefix and destinations of one family, is accepted and compiles to that. |
| NatAccept.PrintedSnatAccepted | internal/config/ops.go:1394-1404 | So is a static SNAT to every unmapped address, for matches of its family. |
| NatAccept.RuleCompilesExactly | cmd/gravinet/main.go:3282-3345 | Whatever a stored rule says, which of the three kinds it compiles to, when it is skipped, and which fields the kernel rule takes from it. |
| NatCompile.OneKernelRuleEach | cmd/gravinet/main.go:3282-3345 | Exactly one kernel rule per enabled stored rule, in order, each of one family. |
| NatCompile.NatConfig.KernelNATRules | cmd/gravinet/main.go:3282-3345 | The loop gives the compiled rules when NAT is on and none when it is off. |
| NatCompile.NatConfig.NATAdd | internal/config/ops.go:1140-1161 | Appends a bare masquerade, refusing a second rule on an interface. |
| NatCompile.NatConfig.NATRuleAdd | internal/config/ops.go:1487-1500 | Appends an enabled validated rule, or changes nothing; every rule stays a stored one. Which entries validate is AcceptedExactly. |
| NatCompile.NatConfig.NATRuleUpdateAt | internal/config/ops.go:1510-1524 | Replaces a rule in place, keeping its switch, or changes nothing. |
| NatCompile.NatConfig.NATRuleDeleteAt | internal/config/ops.go:1527-1533 | Removes one rule by position. |
| NatCompile.NatConfig.NATRuleSetEnabled | internal/config/ops.go:1539-1545 | Changes one rule's switch; every rule stays a stored one. |
| QosCompile.ServiceCatalog | cmd/gravinet/main.go:4043-4062 | For each key the legs of the last service with that key. |
| QosCompile.ClassRules | cmd/gravinet/main.go:4064-4126 | First match over the flat list gives the class of the first enabled source rule that matches by its literal leg or any known service leg. |
| QosCompile.NewClassifier | internal/mesh/qos.go:21-37 | Classes and default are put in range without changing which rule matches first. |
| QosCompile.Classify | internal/mesh/qos.go:82-96 | The class of the first flat rule that matches, else the default. |
| QosCompile.ClassOnNetwork | cmd/gravinet/main.go:3082-3099 | A packet on a network gets the class of the first enabled rule in scope that matches it, always one of the node's classes. |
| QosCompile.PlainRuleExactly | cmd/gravinet/main.go:4064-4126 | A rule without services matches exactly by protocol (tcp 6, udp 17, icmp 1, a number, else any), by source or destination port, and by codepoint. |
| QosCompile.ServiceRuleExactly | cmd/gravinet/main.go:4043-4062 | A rule that names a service matches by the entries of the last service so named. |
| QosCompile.MarksExactly | internal/mesh/qos.go:101-172 | An override is the mark of its class; else it is 46 for the first, 0 for the default, 8 for the last, the four assured-forwarding steps before the default and a ramp behind it. |
| QosCompile.UnknownIsNotEmpty | cmd/gravinet/main.go:4064-4126 | Naming only unknown services matches nothing; naming nothing at all matches everything. |
| QosCompile.WideRangeExactly | cmd/gravinet/main.go:4094-4098 | A port range past 65535 keeps its meaning exactly when its cut end is 65535, or it is cut to "any port" and meant all. |
| Snapshots.SortInt64s | internal/config/history.go:243-249 | The in-place insertion sort sorts and permutes. |
| Snapshots.Store.ListIDs | internal/config/history.go:218-241 | All ids on disk, increasing. |
| Snapshots.Store.WriteOne | internal/config/history.go:166-189 | Writes under the first free id at or after the clock. |
| Snapshots.Store.Prune | internal/config/history.go:252-264 | Keeps exactly the last max(limit, 1) ids. |
| Snapshots.Store.SnapshotNow | internal/config/history.go:83-94 | One write under the first free id and one pruning. |
| Snapshots.Store.OnCommit | internal/config/history.go:104-126 | Nothing without a change; otherwise one write and one pruning, after a write of the state before when nothing is tracked yet. |
| Snapshots.BaselineKeptExactly | internal/config/history.go:96-103 | The baseline outlives the first tracked commit if and only if two snapshots may be kept, or the clock went back in between. |
| Snapshots.NewIDIsLargest | internal/config/history.go:166-189 | A new id exceeds every id on disk if and only if the ids ahead of the clock are contiguous. |
| Snapshots.KeptExactly | internal/config/history.go:252-264 | An id survives a pruning if and only if no more than max(limit, 1) ids are at or ahead of it. |
| Snapshots.PruneKeepsRun | internal/config/history.go:252-264 | A pruning leaves the ids ahead of the clock contiguous if and only if they fit the limit. |
| Snapshots.CrowdedMillisecondLosesSnapshot | internal/config/history.go:252-264 | A further write in the same millisecond survives its own pruning if and only if the ids ahead of the clock fitted the limit at the pruning before. |
| Snapshots.IDsOnlyGrow | internal/config/history.go:150-165 | Over a whole run of writes and prunings each id exceeds all before it, deleted ones included, if and only if the ids ahead of the clock were contiguous at every write. |
| Snapshots.KeepsTheNewestExactly | internal/config/history.go:251-264 | With one limit, the newest on disk are at every point the newest of everything written, if and only if no new id came below a stored one. |
| Snapshots.DiskIsTheNewest | internal/config/history.go:251-264 | Right after a pruning in such a run the disk holds exactly the last max(limit, 1) ids ever written. |
| Snapshots.SteadyIsOrdered | internal/config/history.go:166-189 | A clock that never goes back, with room for the ids at or ahead of it at every pruning, is enough for both. |
| Sizes.ParseSize | internal/config/config.go:1969-2023 | The scan finds the number part and reads number and unit. |
| Sizes.ReadsProduct | internal/config/config.go:2003-2022 | A whole number with a unit reads as exactly that many bytes if and only if the product is positive and below 2^63. |
| Sizes.FormatThenParse | internal/config/config.go:2025-2043 | Every positive int64 survives formatting and parsing. |
| Sizes.LargestUnit | internal/config/config.go:2029-2043 | The unit chosen divides the size and no larger one does. |
| Sizes.ReadsSign | internal/config/config.go:2010-2022 | A plus sign changes nothing; a minus makes the product negative, refused unless it wraps. |
| Sizes.UnitsAre | internal/config/config.go:1988-2002 | Each unit is 1024 times the one before, starting at the byte. |
| Sizes.UnitSpellings | internal/config/config.go:1980-2002 | K, M, G and T are read in either case, alone or followed by B or iB in either case. |
| Sizes.OverflowMisread | internal/config/config.go:2014-2018 | A product past 2^64 is accepted and misread. |
| Subnets.Node.NextFreeSubnet | internal/config/ops.go:89-103 | The scan picks the first unused second octet from 42, at most 255. |
| Subnets.Node.AddAuto | internal/config/ops.go:109-131 | An automatic addition appends that subnet. |
| Subnets.BlockHolds | internal/config/ops.go:89-103 | The block for octet n holds exactly the addresses 10.n.x.y. |
| Subnets.OverlapIsSameOctet | internal/config/ops.go:86-103 | For a prefix of /16 or longer, overlapping the picked block is having its second octet. |
| Subnets.PickIsDisjointExactly | internal/config/ops.go:86-103 | Whatever subnets exist, the one picked overlaps none if and only if an octet is free and no prefix shorter than /16 contains the pick. |
| Subnets.PickIsDisjoint | internal/config/ops.go:86-103 | With no prefix shorter than /16, if and only if an octet is free. |
| Subnets.ShortPrefixOverlaps | internal/config/ops.go:89-103 | 8.0.0.0/6 uses no octet and overlaps every block that can be picked. |
| Subnets.RunOfAdditionsIsDisjoint | internal/config/ops.go:109-131 | Over any run of automatic additions within the octets available, each subnet is disjoint from all before it. |
| PeerCache.MergePeerCache | cmd/gravinet/main.go:3486-3506 | The two loops compute the merge and the count of pruned entries. |
| PeerCache.MergeHolds | cmd/gravinet/main.go:3384-3403 | Live endpoints first, then the deserving old ones; nothing twice, nothing else, within the cap, nothing deserving missing below it. |
| PeerCache.MergeCounts | cmd/gravinet/main.go:3486-3506 | The live endpoints kept are in the order they first appear, and the count of pruned entries is that of cached ones neither kept as live nor ever reached, none while the run is young. |
| PeerCache.MergeSettles | cmd/gravinet/main.go:3486-3506 | Merging the result again with the same live endpoints returns it and prunes nothing. |
| PeerCache.LiveFitExactly | cmd/gravinet/main.go:3384-3386 | Every live endpoint is remembered if and only if there are no more of them than the cap. |
| PeerCache.LiveEndpointPruned | cmd/gravinet/main.go:3498-3503 | Past the cap a cached live endpoint can be counted as pruned. |

## Left out

- Sockets, TUN devices, DNS, service managers, tc and nft, FRR: foreign effects. The engine is reduced to
  the networks it lists and the devices that are open, the kernel to the ruleset in force.
- JSON, base64, SHA-256 and key generation: standard-library code; a generated key is a parameter.
- Command-line handlers, the admin pages and printing: thin wrappers over the operations modelled.
- ParseRate, RateString and the decimal-point branch of ParseSize: floating point. `ParseSize` sets such
  texts apart as `Fractional`.
- FormatSize has no row of its own: `FormatThenParse` and `LargestUnit` say what it prints.
- Text lower-casing in Sizes, NatCompile's protocol field and key titles is ASCII.
- IPv6 zones in NAT fields, and netip's own parser and printer.
- NATDelete by interface, and the deprecated NAT scope and direction outside Validate.
- `Subnets.Node.NextFreeSubnet`: the IPv6 range it also returns is fixed by the same octet and is not modelled.
- Networks whose id does not parse as hex are skipped by every reload loop and are absent from Reload.
- RemoveNetwork's lookup and unlisting are one step here, an abstraction: it looks the network up before
  it takes the lock that unlists it (internal/mesh/engine.go:1916-1922), so two overlapping removals could
  both pass the lookup. Under `Assumed` removals of one network do not overlap.
- `ValidateRun.ConfigFile.Validate`: checks on fields it only reads (routes, hosts, DNS, key expiry, VLANs,
  dynamic DNS, the firewall catalog) are one library predicate each; on a refusal the partly migrated
  configuration is not described, as the caller discards it.
- `JoinToken.Node.NetworkJoinToken`: likewise, a refused token's half-edited configuration is not described.
- Legacy port fields (migratePortConfig) are folded before Validate by Load and are not part of this model.
- Firewall address matching, connection tracking and hit counters: a packet is the set of rule bodies it
  matches. QoS header parsing: a packet is its protocol, ports and DSCP value.
- The firewall's exemption list, settings clamps, prefix helpers, history diff and restore, seed notes: correct
  but easy, or (restore) outside the identity claims because it rewinds the id counter.
- The upgrade guard's state machine is not part of this model.
