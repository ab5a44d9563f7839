# tailmix: a verified model of its decision logic

tailmix joins several tailnets and raw WireGuard profiles on one host. This project models the parts of
it that decide something - what a WireGuard device is told, which packets a filter admits, which address
a peer gets, where a packet or a name goes, who owns a buffer, in which order routes change - and proves
what each of them is for. `dafny verify dfyconfig.toml` checks everything.

The modules follow the program:

- **WireGuard reconciliation.** `WireGuardDevice` is the device as its configuration protocol changes it:
  a key, a port, a peer map and one exclusive table from prefix to peer. `WireGuardScript` and
  `WireGuardDiff` prove that the incremental script reaches the device of the full script in every map
  iteration order, exactly when it leaves no stale exit peer, and that it can be stopped and retried
  anywhere. `WireGuardRepair` says exactly when a script of another change repairs a device on which
  scripts have failed. `WireGuardWriters` holds the loops that emit the scripts, `WireGuardValidate` and
  `AcceptedConfigs` the configurations all this holds for.
- **Packet filter.** `Permissions`, `PacketFilter` and `PacketFilterMeaning` are the grant language:
  normalization keeps the meaning and is idempotent. `Ownership` proves that prefix subtraction agrees
  with the longest match of the device (Cryptokey Routing, section 2 of the WireGuard whitepaper; longest
  match, section 5.1 of RFC 4632), `FilterCompile` that the match list admits exactly what the grants say.
- **Engine and supervisor.** `WireGuardEngine` is the engine as an object with its fields.
  `WireGuardEngineRuns` proves fail-closed behaviour over every run of staged applies, with the device
  failing a script after any operation; `WireGuardEngineDriver` ties calls on the object to these runs.
  `WireGuardPolicies` says what the installed filter admits after each call that installs one.
  `WireGuardShields` proves over every run of supervisor operations that at every step a saved shields-up
  flag is honoured and no filter admits more than the running configuration grants.
- **Effective addresses.** `EffectiveIP` is the allocator, `AddressPlan` the plan with its run invariant,
  `LeaseActivity` the retention tracker against a reference that looks only at the history of calls.
- **Packets.** `PacketMap` maps addresses in both directions, `TunConfig` fills its tables, `RoutePolicy`
  and `AcceptAll` decide what accept-all imports carry, `DnsPolicy` compares resolving a name with the
  suffix routes that are published.
- **Protocols.** `ChanTun` is the channel TUN as interleaved steps, `DarwinRoutes` the Darwin route
  reconciler over a kernel whose commands may fail, `SocksLookup` the alias follower against any resolver.

`Net` has addresses, prefixes and longest-prefix lookup, `Text` the string functions of the grant language.

Where the code does less than it promises, the model keeps the code:

- An unchanged exit peer is not rewritten when the address families of the profile change
  (profile/wireguardengine.go:656-664). `DiffReachesFull` has the exact condition,
  `FamilyChangeLeavesStaleExit` an input.
- After a failed apply the comments promise repair by "a later apply or restart"
  (profile/wireguardengine.go:213-216). A later apply repairs the device exactly when it writes or drops
  every peer that the failed ones wrote or dropped, sets the key and the port if they did, and does not
  rely on clearing an endpoint that only they set (`RepairsExactly`; a peer without prefixes that stays
  as it was is the one exception, see `Idle`). Applying the same change again always does. Re-applying the
  previous configuration does not: it clears the degraded mark and can leave a peer of the failed change
  on the device (`RevertAfterFailureKeepsPeer`).
- The policy that a restricted start keeps back is compiled without an exit (profile/wireguardengine.go:91-98),
  while the reconciliation before its commit may select one (cmd/tailmixd/wireguardapi.go:161-183). The
  filter then misses the flows that the exit adds. `StartPolicyMissesExit` has the exact condition,
  `StartPolicyRefusesGranted` an input.
- A source prefix of a family that no exit peer has an address in is refused
  (wireguardcfg/filter.go:234-236), although an exit peer carries every family of the profile.
  `PossibleOwnerExactly` has the exact condition.
- The root suffix "." is as long as a one-character suffix (routingpolicy/policy.go:430), so resolving and
  the published routes can differ. `PublishedAgreesExactly` has the exact condition.
- A subnet or exit destination that is also a canonical peer address of its profile comes back rewritten
  (packetmap/packetmap.go:99-107). `PreservedDestinationRoundTrip` has the exact condition,
  `CanonicalPeerComesBackRewritten` an input.
- The shields-up results go from the saved flag to the engine only. Removing a profile lowers the saved
  flag before it stops the engine (cmd/tailmixd/supervisor.go:1194-1207), so for an engine whose flag is
  up while the saved one is down only its own filter is described.

## Model

| member | source | states |
|---|---|---|
| `WireGuardScript.ScriptReaches` | profile/wireguardengine.go:627-670 | from any device the change can still reach, a script in any order leaves exactly the wanted peers, keys, allowed IPs and globals |
| `WireGuardScript.ScriptIssued` | profile/wireguardengine.go:627-670 | on whatever device it runs, a script issues only the operations of its change |
| `WireGuardScript.PrefixRecoverable` | profile/wireguardengine.go:627-670 | a script stopped after any operation leaves a device from which the whole change is still reachable |
| `WireGuardScript.RestartReaches` | profile/wireguardengine.go:644-669 | stop after any operation, run a whole script of the same change in any order: the device ends as if nothing had failed |
| `WireGuardScript.HoldsIsUnique` | profile/wireguardengine.go:611-625 | what a plan wants determines the device's peers and its exclusive allowed-IP table |
| `WireGuardScript.NeverUnowned` | profile/wireguardengine.go:644-669 | a prefix that moves from a peer removed last to a written one has an owner after every single operation |
| `WireGuardDiff.FullReaches` | profile/wireguardengine.go:611-625 | the full script leaves exactly the configured device whatever was on it before, in every listing of the allowed IPs |
| `WireGuardDiff.DiffTarget` | profile/wireguardengine.go:644-664 | the incremental script writes what the new configuration wants if and only if it leaves no stale exit peer |
| `WireGuardDiff.DiffReachesFull` | profile/wireguardengine.go:611-699 | incremental and full script give the same device, in every iteration order, if and only if no unchanged exit peer meets changed address families |
| `WireGuardDiff.DiffCanBeRetried` | profile/wireguardengine.go:627-670 | a diff that stops anywhere and is run again in any order leaves the device an undisturbed diff leaves |
| `WireGuardDiff.MovingPrefixNeverUnowned` | profile/wireguardengine.go:644-669 | a prefix that passes from a dropped key to another peer is owned after every operation of the diff |
| `WireGuardDiff.DiffHolds` | profile/wireguardengine.go:627-670 | the incremental script takes a device that holds the old state to one that holds the new, if and only if no stale exit is left |
| `WireGuardDiff.HeldPeer` | profile/wireguardengine.go:611-699 | on a device that holds what the engine runs every peer has the pre-shared key of its name or none, its endpoint, its keepalive in seconds, and exactly its addresses, its routes and, if selected, one default per family of the profile |
| `WireGuardDiff.HeldOnly` | profile/wireguardengine.go:611-625 | and there are no other peers |
| `WireGuardDiff.FullWritesPeer` | profile/wireguardengine.go:611-625 | the full script writes every peer so, with its pre-shared key, and the key, port and mark of the profile |
| `WireGuardDiff.DiffWritesPeer` | profile/wireguardengine.go:627-670 | the incremental script leaves every peer so, with its new pre-shared key |
| `WireGuardDiff.RotatedKeyIsWritten` | profile/wireguardengine.go:656-665 | a change of nothing but one peer's pre-shared key gives a script, and the device the new key |
| `WireGuardRepair.ForeignPrefix` | profile/wireguardengine.go:644-669 | operations of one change, stopped anywhere, spoil nothing another relies on if they are harmless to it |
| `WireGuardRepair.AttemptsRecoverable` | profile/wireguardengine.go:307-312 | any number of harmless failed attempts leave a device from which the other change is still reachable |
| `WireGuardRepair.HarmlessAttemptsRepair` | profile/wireguardengine.go:213-216 | after any number of failed attempts a whole script reaches the target they are harmless to |
| `WireGuardRepair.HarmShows` | profile/wireguardengine.go:307-312 | a change that is not harmless has an attempt, stopped somewhere, after which the other script does not reach its target |
| `WireGuardRepair.RepairsExactly` | profile/wireguardengine.go:213-216 | a later script repairs the device wherever the failed ones stopped and in whatever order, if and only if it leaves no stale exit and writes or drops, sets and clears whatever they touched |
| `WireGuardRepair.SameChangeRepairs` | profile/wireguardengine.go:213-216 | applying the change that failed, after any number of failures, always repairs the device |
| `WireGuardWriters.WgAllowedIPs` | profile/wireguardengine.go:684-699 | lists exactly the declared prefixes and, for the selected peer, one default per address family of the profile |
| `WireGuardWriters.WriteWGPeer` | profile/wireguardengine.go:672-682 | writes one peer block whose allowed IPs are that list |
| `WireGuardWriters.FullWGConfig` | profile/wireguardengine.go:611-625 | emits a full script of the running configuration |
| `WireGuardWriters.DiffWGConfig` | profile/wireguardengine.go:627-670 | emits a script of the change in some order: keys whose endpoint is cleared first, rewrites next, departures last |
| `WireGuardWriters.Departures` | profile/wireguardengine.go:644-654 | splits the removals into those before and those after the writes |
| `AcceptedConfigs.AcceptedDiffReachesFull` | profile/wireguardengine.go:611-699 | for any two configurations validation accepts, with equal address families or no exit selected, the diff reaches exactly the device of the full script |
| `AcceptedConfigs.FamilyChangeLeavesStaleExit` | profile/wireguardengine.go:656-664 | the hypothesis is needed: two accepted configurations whose diff leaves, in every order, another device than the full script |
| `AcceptedConfigs.CompileAccepted` | wireguardfilter/filter.go:106-128 | for every accepted configuration compilation succeeds and admits exactly the flows that the texts of the grants as written permit |
| `AcceptedConfigs.RevertConfigsAccepted` | wireguardcfg/config.go:153-256 | the configurations of the failed revert are accepted ones |
| `AcceptedConfigs.StartPolicyRefusesGranted` | profile/wireguardengine.go:157-176 | an accepted configuration, an exit selected before a restricted start is committed, and a flow that is granted and not admitted |
| `AcceptedConfigs.ResolvedIsWellFormed` | profile/wireguardengine.go:873-909 | resolving endpoints keeps everything reconciliation relies on |
| `AcceptedConfigs.ValidNamesAreClean` | wireguardcfg/config.go:188-191 | accepted peer names cannot contain the separators of grant keys |
| `WireGuardValidate.Validate` | wireguardcfg/config.go:153-256 | accepts exactly the configurations ValidConfig describes, peer by peer against the peers before it |
| `WireGuardValidate.ValidateAddresses` | wireguardcfg/config.go:167-179 | accepts exactly non-empty lists of native unicast addresses with at most one per family |
| `WireGuardValidate.ValidatePeer` | wireguardcfg/config.go:188-247 | accepts a peer exactly when name, key, keepalive, addresses and routes fit after the earlier peers |
| `WireGuardValidate.ValidatePeerAddresses` | wireguardcfg/config.go:211-227 | accepts exactly valid, fresh addresses of a profile family whose host prefix no earlier peer declared |
| `WireGuardValidate.ValidatePeerRoutes` | wireguardcfg/config.go:228-246 | accepts exactly masked, non-default, fresh routes that no earlier peer declared |
| `WireGuardValidate.ValidIsWellFormed` | wireguardcfg/config.go:180-247 | acceptance gives distinct names and keys, exclusive prefixes and proper routes |
| `WireGuardValidate.AddressSpelled` | wireguardcfg/config.go:516-527 | a valid address is any but zero, IPv4-mapped and multicast ones, by their numbers |
| `WireGuardValidate.LabelSpelled` | wireguardcfg/config.go:509-514 | a label has 1 to 63 lower-case letters, digits and hyphens and no hyphen at an end |
| `WireGuardValidate.SuffixSpelled` | wireguardcfg/config.go:544-555 | a suffix is labels joined by dots, at most 253 characters long |
| `Permissions.ProtocolRoundTrip` | wireguardcfg/filter.go:345-357 | a protocol text normalizes exactly when it is readable, and its normal form is stable and has the same number |
| `Permissions.PortRangeRoundTrip` | wireguardcfg/filter.go:359-382 | a port range normalizes exactly when it is readable, and its normal form is stable and means the same range |
| `Permissions.PermissionRoundTrip` | wireguardcfg/filter.go:264-303 | a permission normalizes exactly when it is readable, and its normal texts re-parse to what the raw text means |
| `Permissions.ComposedPermission` | wireguardcfg/filter.go:285-303 | a printed protocol and range are their own normal form and read back to that protocol and range |
| `Permissions.BarePortPermission` | wireguardcfg/filter.go:277-284 | a permission without a protocol normalizes exactly when it is readable, and its expansion re-parses to what it means |
| `Permissions.StarPermits` | wireguardcfg/filter.go:458-461 | `*` permits exactly the protocols 1 to 254 without 99, on every port |
| `Permissions.ProtocolPermits` | wireguardcfg/filter.go:305-357 | `name:*` permits exactly the protocol of the assigned number, `n:*` exactly n, and 0, 99 and numbers above 254 nothing |
| `Permissions.PortsPermit` | wireguardcfg/filter.go:264-303 | `name:first-last` permits exactly that range for TCP, UDP and SCTP and nothing for another protocol; without a name it is for TCP and UDP |
| `PacketFilter.ParsesAsDenoted` | wireguardcfg/filter.go:410-456 | a text parses to a selector if and only if it is the text of that selector, where a source names neither the profile nor the internet |
| `PacketFilter.SelectorRoundTrip` | wireguardcfg/filter.go:168-226 | a normalized selector is a fixed point of normalization and parses to what the raw text parses to |
| `PacketFilter.WordRoundTrip` | wireguardcfg/filter.go:168-226 | an accepted word is its own normal form, parses, and cannot be taken for an address |
| `PacketFilter.GrantStable` | wireguardcfg/filter.go:119-166 | normalizing a normalized grant changes nothing |
| `PacketFilter.FilterStable` | wireguardcfg/filter.go:107-117 | normalizing a normalized packet filter changes nothing |
| `PacketFilter.NormalizePermissionList` | wireguardcfg/filter.go:251-262 | the loop computes the sorted, duplicate-free expansion or fails exactly when a permission is unreadable |
| `PacketFilter.NormalizeSelectorList` | wireguardcfg/filter.go:119-166 | the loop computes the sorted, duplicate-free selectors or fails exactly when one is invalid |
| `PacketFilter.NormalizeOneGrant` | wireguardcfg/filter.go:119-166 | the grant loop computes the normalized grant |
| `PacketFilter.NormalizeGrantList` | wireguardcfg/filter.go:107-117 | the filter loop computes the normalized filter |
| `PacketFilterMeaning.GrantMeaningKept` | wireguardcfg/filter.go:119-166 | a normalized grant parses to exactly the selectors its raw texts stand for and the permissions they mean |
| `PacketFilterMeaning.AcceptedExactly` | wireguardcfg/filter.go:168-226 | normalization accepts exactly the fixed words, words that name a declared peer, native addresses and native prefixes that are no default route, and leaves or canonizes them |
| `PacketFilterMeaning.SourceAcceptedExactly` | wireguardcfg/filter.go:119-166 | as a source, an address or a prefix is accepted exactly when also some peer may own part of it |
| `PacketFilterMeaning.GrantKeyInjective` | wireguardcfg/filter.go:393-395 | grants with equal keys are equal, so compaction drops only duplicates |
| `PacketFilterMeaning.PrintedApart` | wireguardcfg/filter.go:168-226 | canonical selectors that print alike are the same selector |
| `PacketFilterMeaning.FaithfulRenderExists` | wireguardcfg/filter.go:168-226 | a printer that meets what the results ask of printing |
| `PacketFilterMeaning.FilterMeaningKept` | wireguardcfg/filter.go:107-117 | normalization keeps the set of grant meanings of the whole filter |
| `PacketFilterMeaning.GrantOrderIrrelevant` | wireguardcfg/filter.go:119-166 | a grant normalizes to the same form however its texts are ordered or repeated |
| `PacketFilterMeaning.FilterOrderIrrelevant` | wireguardcfg/filter.go:107-117 | a filter normalizes to the same form however its grants and their texts are ordered or repeated |
| `PacketFilterMeaning.NormalizedFilterValidates` | wireguardcfg/config.go:140-150 | after the configuration is sorted the normalized filter is still normal, so the filter check of validation cannot fail |
| `Text.SortCompactSorted` | wireguardcfg/filter.go:384-391 | sorting and compacting gives a strictly increasing list |
| `Text.SortCompactMembers` | wireguardcfg/filter.go:384-391 | when keys tell members apart, sorting and compacting keeps exactly the members |
| `Text.StrictlySortedUnique` | wireguardcfg/filter.go:384-391 | a strictly sorted list is determined by its members |
| `Ownership.EffectiveSet` | wireguardfilter/filter.go:230-321 | subtracts exactly the longer prefixes of other peers, and from routes every direct address |
| `Ownership.Declarations` | wireguardfilter/filter.go:230-321 | lists exactly the direct, routed and selected default prefixes |
| `Ownership.PeerSets` | wireguardfilter/filter.go:230-321 | unions the effective sets of one peer by kind |
| `Ownership.BuildOwnership` | wireguardfilter/filter.go:230-321 | an address is owned by a peer exactly when longest match says so, all owned space is all declared space, route sets exclude every direct address |
| `Ownership.OwnersDisjoint` | wireguardfilter/filter.go:230-321 | no address has two owners |
| `Ownership.OwnerIsCryptokeyRoute` | wireguardfilter/filter.go:230-321 | the filter's owner is the peer the device's longest match over its allowed IPs gives |
| `FilterCompile.ResolveSources` | wireguardfilter/filter.go:357-392 | admits exactly the owned addresses some selector names |
| `FilterCompile.ResolveDestinations` | wireguardfilter/filter.go:394-420 | admits exactly the profile's own addresses some selector names |
| `FilterCompile.PermissionProtocols` | wireguardfilter/filter.go:422-433 | any protocol is every number but 0, 255 and TSMP |
| `FilterCompile.SelfSet` | wireguardfilter/filter.go:435-441 | contains exactly the profile's addresses |
| `FilterCompile.GrantMatches` | wireguardfilter/filter.go:323-355 | the matches of a grant admit exactly source, destination and permission together |
| `FilterCompile.Compile` | wireguardfilter/filter.go:106-128 | the match list admits a flow exactly when the texts of some grant permit it, and a restrictive list admits none |
| `FilterCompile.CompiledMeansWritten` | wireguardfilter/filter.go:323-433 | the texts of the normalized filter permit exactly the flows that the texts as written permit |
| `FilterCompile.SourceTextMeans` | wireguardfilter/filter.go:357-392 | what a source text admits: `*` the declared space, `peer:*` the peers' addresses, `routes:*` the routed space, `peer:n` and `routes:n` those of peer n, an address or prefix the declared space inside it, any other text nothing |
| `FilterCompile.DestinationTextMeans` | wireguardfilter/filter.go:394-420 | what a destination text admits: of the profile's addresses `self` and `*` all, an address or prefix those inside it, any other text none |
| `FilterCompile.PossibleOwnerExactly` | wireguardcfg/filter.go:228-245 | with peers of the profile's families, a peer may own part of a source prefix if and only if it has an address declared without an exit or an exit peer has an address of its family; some exit declares part of it if and only if that holds, or there is an exit peer and the profile has the family |
| `FilterCompile.NormalizedIsReadable` | wireguardcfg/filter.go:107-166 | every text of a normalized filter parses, so compilation cannot fail on it |
| `FilteredDevice.Compact` | wireguardfilter/filter.go:174-195 | compacts a batch in place to the accepted packets in their order |
| `FilteredDevice.AcceptedMembers` | wireguardfilter/filter.go:174-214 | a packet passes exactly when the policy accepts it |
| `WireGuardEngine.CompileFilter` | wireguardfilter/filter.go:106-128 | the filter compiled for a policy admits exactly what the policy means |
| `WireGuardEngine.ConfigureDevice` | profile/wireguardengine.go:124-127 | a full write leaves a device that holds what the engine runs |
| `WireGuardEngine.WriteExit` | profile/wireguardengine.go:498-509 | selecting an exit leaves the device holding the new selection, or after a failure and a rollback the old one |
| `WireGuardEngine.Engine.constructor` | profile/wireguardengine.go:69-81 | a new engine has no policy and is not started |
| `WireGuardEngine.Engine.Start` | profile/wireguardengine.go:83-155 | a started engine runs a device that holds its configuration, under the restrictive or the configured policy |
| `WireGuardEngine.Engine.CommitStartPolicy` | profile/wireguardengine.go:159-176 | publishes the pending start policy and ends degradation |
| `WireGuardEngine.Engine.Close` | profile/wireguardengine.go:186-207 | a closed engine has no policy and cannot be started again |
| `WireGuardEngine.Engine.PrepareApply` | profile/wireguardengine.go:235-287 | stages a change against the current policy without touching it; its policies are new and its script is the diff |
| `WireGuardEngine.Engine.Apply` | profile/wireguardengine.go:290-320 | installs the transition before the device is touched; a failed script keeps the old configuration and the transition |
| `WireGuardEngine.Engine.Commit` | profile/wireguardengine.go:323-344 | publishes the final policy only if the transition of the same apply is still installed |
| `WireGuardEngine.Engine.SetExitNodeIP` | profile/wireguardengine.go:457-517 | installs a restrictive policy first, then the new selection and its policy, or rolls back |
| `WireGuardEngine.Engine.PrepareShieldsUp` | profile/wireguardengine.go:370-389 | stages a replacement of the current policy under a new identity without publishing it; WireGuardPolicies.ShieldsAdmit says what it admits |
| `WireGuardEngine.Engine.ApplyBeforeSave` | profile/wireguardengine.go:393-409 | publishes a raising policy before the flag is saved, only over the policy it was staged on |
| `WireGuardEngine.Engine.CommitShields` | profile/wireguardengine.go:413-436 | records the flag after the save and publishes a lowering policy, only over the policy it was staged on |
| `WireGuardEngine.Engine.RollbackShields` | profile/wireguardengine.go:439-455 | restores the old policy of an update that was published before a failed save |
| `WireGuardPolicies.StartAdmits` | profile/wireguardengine.go:83-176 | a start admits exactly what the configuration grants without an exit; a restricted one admits nothing until it is committed |
| `WireGuardPolicies.ShieldsAdmit` | profile/wireguardengine.go:370-455 | once committed, lowered shields admit exactly what the configuration grants under the running exit and raised shields nothing; a rollback leaves the old filter |
| `WireGuardPolicies.ExitAdmits` | profile/wireguardengine.go:457-517 | a selection admits nothing meanwhile, then exactly what is granted under the new exit; a failure leaves the old filter, or nothing if the old selection cannot be written back |
| `WireGuardPolicies.CommitAdmits` | profile/wireguardengine.go:323-344 | a committed transition admits exactly what the applied configuration grants, ends degradation and drops a start policy kept back |
| `WireGuardPolicies.ClosedForGood` | profile/wireguardengine.go:186-207 | a closed engine has no filter, and no other call gives it one |
| `WireGuardPolicies.StagedExactly` | profile/wireguardengine.go:235-287 | the exit is kept exactly when an exit peer of the new configuration has it, and there is no transition exactly when nothing that device or filter looks at changes and no apply has failed |
| `WireGuardPolicies.FailedApplyLeaves` | profile/wireguardengine.go:290-313 | a script that fails has had exactly its first operations carried out, and the engine keeps its configuration and admits nothing |
| `WireGuardPolicies.SelectableExactly` | profile/wireguardengine.go:803-812 | an address can be selected exactly when an exit peer has it |
| `WireGuardPolicies.ExitAdds` | wireguardfilter/filter.go:230-392 | an exit adds to the granted flows exactly those of the profile's families that a grant names by `*`, address or prefix |
| `WireGuardPolicies.StartPolicyMissesExit` | profile/wireguardengine.go:157-176 | a start that is committed after an exit was selected admits what is granted under it exactly for the flows the exit does not add |
| `WireGuardEngineRuns.StepKeepsInv` | profile/wireguardengine.go:235-344 | every prepare, apply, failed apply, commit and close keeps the invariant of all runs |
| `WireGuardEngineRuns.AtMostOneApplies` | profile/wireguardengine.go:290-320 | of the transition-carrying applies staged on one policy at most one ever applies |
| `WireGuardEngineRuns.DegradedAdmitsNothing` | profile/wireguardengine.go:300-306 | in every reachable state a degraded engine admits no inbound flow |
| `WireGuardEngineRuns.CommitPublishesCurrent` | profile/wireguardengine.go:323-344 | a transition-carrying commit that succeeds leaves the policy of the running configuration and exit |
| `WireGuardEngineRuns.SameFilterMeans` | profile/wireguardengine.go:776-787 | configurations with the same filter identity and grants admit the same flows |
| `WireGuardEngineRuns.SettledAdmitsConfigured` | profile/wireguardengine.go:267-285 | in every reachable state an engine that is not degraded admits exactly what its running configuration grants |
| `WireGuardEngineRuns.DeviceInStep` | profile/wireguardengine.go:290-320 | unless scripts failed and nothing has put them right, or a stale exit was left, the device holds exactly what the engine runs |
| `WireGuardEngineRuns.LaterApplyRepairs` | profile/wireguardengine.go:213-216 | in every reachable state, after any number of failed applies, an apply that puts right what they touched leaves the device holding what the engine runs, and can be committed |
| `WireGuardEngineRuns.SameChangePutsRight` | profile/wireguardengine.go:213-216 | staging the change that failed again is such an apply |
| `WireGuardEngineRuns.RevertAfterFailureKeepsPeer` | profile/wireguardengine.go:307-312 | re-applying the old configuration instead does not: the engine reports no degradation and the device keeps a peer of the failed change |
| `WireGuardEngineDriver.Perform` | profile/wireguardengine.go:235-344 | every call on an engine object is an event of the engine machine, or refused outright |
| `WireGuardEngineDriver.DriveEngine` | profile/wireguardengine.go:83-344 | any sequence of calls on a started engine object reaches only states of runs, so a degraded engine admits nothing and a settled one what its configuration grants |
| `WireGuardShields.ShieldsAreGood` | profile/wireguardengine.go:370-455 | raising installs a policy without grants before the flag can be saved; rollback restores the old one; the commit cannot fail and leaves a filter that admits exactly what is granted, or nothing with shields up |
| `WireGuardShields.ApplyIsGood` | profile/wireguardengine.go:290-320 | applying keeps a shielded engine shielded, and its filter within what it runs |
| `WireGuardShields.CommitIsGood` | profile/wireguardengine.go:323-344 | committing keeps a shielded engine shielded, and after a transition admits exactly what is granted |
| `WireGuardShields.ExitIsGood` | profile/wireguardengine.go:457-517 | every policy of an exit selection is within what the engine runs, and a successful one admits exactly what is granted under the new exit |
| `WireGuardShields.StartPolicyIsGood` | profile/wireguardengine.go:157-176 | the start policy kept back grants no more than the configuration does under any exit selected since |
| `WireGuardShields.ShieldedAdmitsNothing` | cmd/tailmixd/wireguardapi.go:201-265 | a saved flag on a running profile means that no inbound flow is admitted |
| `WireGuardShields.Supervisor.SetShieldsUp` | cmd/tailmixd/wireguardapi.go:201-265 | on success flag, memory and engine agree and the filter of a changed engine admits exactly what is granted, or nothing with shields up; on failure nothing saved or installed has changed |
| `WireGuardShields.Supervisor.SetShieldsRunning` | cmd/tailmixd/wireguardapi.go:237-263 | on a running engine the flag is never saved without a policy that honours it, and afterwards the filter admits exactly what is granted, or nothing with shields up |
| `WireGuardShields.Supervisor.ApplyWireGuard` | cmd/tailmixd/wireguardapi.go:25-186 | save, apply, start, reconcile and commit keep every step shielded |
| `WireGuardShields.Supervisor.ApplyRunning` | cmd/tailmixd/wireguardapi.go:141-177 | transition, device, reconcile, commit: every step shielded, and after a transition the filter admits exactly what the new configuration grants under its exit |
| `WireGuardShields.Supervisor.ApplyStart` | cmd/tailmixd/wireguardapi.go:148-183 | a restricted start keeps the start policy back until the state is durable, and then admits exactly what is granted without an exit |
| `WireGuardShields.Supervisor.Start` | cmd/tailmixd/supervisor.go:328-416 | a started engine takes over the flag in memory, and admits exactly what is granted, or nothing if the start is restricted |
| `WireGuardShields.Supervisor.SetExitNodeIP` | profile/wireguardengine.go:457-517 | exit selection keeps flags and shielding at its intermediate policies, and a successful one admits exactly what is granted under the new exit |
| `WireGuardShields.Supervisor.ReconcileAll` | cmd/tailmixd/supervisor.go:448-572 | reconciliation changes no flag and keeps every step shielded |
| `WireGuardShields.Supervisor.SetProfileEnabled` | cmd/tailmixd/supervisor.go:1112-1150 | enabling and disabling keep every step shielded |
| `WireGuardShields.Supervisor.RestartProfile` | cmd/tailmixd/supervisor.go:1152-1176 | a restart keeps every step shielded |
| `WireGuardShields.Supervisor.RemoveProfile` | cmd/tailmixd/supervisor.go:1178-1227 | removal lowers the saved flag first, so a failure before the stop cannot break the property |
| `WireGuardShields.Supervisor.RestoreProfile` | cmd/tailmixd/supervisor.go:976-1003 | restoring a removed profile keeps every step shielded |
| `WireGuardShields.Supervisor.PatchProfile` | cmd/tailmixd/supervisor.go:1050-1110 | renaming changes no flag and keeps every step shielded, also when it is refused half-way |
| `WireGuardShields.Supervisor.SetDaemonUp` | cmd/tailmixd/supervisor.go:201-259 | down stops every engine, up starts the enabled ones, and every step is shielded |
| `WireGuardShields.Supervisor.BootFromSaved` | cmd/tailmixd/supervisor.go:120-140 | a new process starts its engines with the saved flags |
| `WireGuardShields.Drive` | cmd/tailmixd/wireguardapi.go:201-265 | over every run of operations with saves and device writes failing anywhere, at every recorded step a saved flag on a running profile means a filter that admits nothing, and no filter admits what the configuration its engine runs does not grant |
| `EffectiveIP.PoolIsInterval` | effectiveip/effectiveip.go:108-121 | the addresses of a pool are consecutive from its network address |
| `EffectiveIP.FullPoolCount` | effectiveip/effectiveip.go:108-121 | a pool whose addresses are all taken is no larger than what takes them |
| `EffectiveIP.AdoptedAll` | effectiveip/effectiveip.go:55-70 | every in-pool, unreserved lease of a one-to-one list is adopted as it is |
| `EffectiveIP.AdoptedExactly` | effectiveip/effectiveip.go:55-70 | of a one-to-one list exactly the leases are adopted whose address is of the target's family, in the pool and not reserved |
| `EffectiveIP.Allocator.constructor` | effectiveip/effectiveip.go:42-72 | adopts exactly the in-pool, unreserved leases, later ones of a key replacing earlier, and reserves the in-pool host addresses |
| `EffectiveIP.Allocator.NextSynthetic` | effectiveip/effectiveip.go:108-121 | the lowest pool address that is neither reserved nor held by another key, and none if and only if there is none |
| `EffectiveIP.Allocator.Assign` | effectiveip/effectiveip.go:74-106 | keeps every lease, serves every node one-to-one, and reports exhaustion only if used, reserved and distinct new keys do not fit |
| `AddressPlan.FirstFreePoolIP` | cmd/tailmixd/main.go:352-362 | the lowest free address above the network address, and none only if there is none |
| `AddressPlan.PoolIPAtOffset` | cmd/tailmixd/main.go:364-376 | the address at the offset exactly when the pool has it |
| `AddressPlan.ChooseNat` | cmd/tailmixd/main.go:316-323 | keeps a usable address, else takes the lowest free one |
| `AddressPlan.ChooseDns` | cmd/tailmixd/main.go:332-344 | keeps a usable address, else takes the preferred offset if free, else the lowest free one |
| `AddressPlan.HostsSpelled` | cmd/tailmixd/main.go:295-376 | each host address is kept if it is in its pool, above the network address and free; else the DNS address is the one 53 above the network address if free, and any other the lowest free one but 100.100.100.100 |
| `AddressPlan.AssignFamily` | cmd/tailmixd/main.go:622-660 | active leases for exactly the family's nodes, in-pool leases kept, new addresses new to the pool, exhaustion only when it does not fit |
| `AddressPlan.MergeLeases` | cmd/tailmixd/main.go:665-688 | active leases and the other old ones, one per key |
| `AddressPlan.Plans.EnsureHostIPs` | cmd/tailmixd/main.go:295-346 | chooses the three host addresses in order against leases and each other, failing only when a pool has none |
| `AddressPlan.Plans.AssignEffectiveIPs` | cmd/tailmixd/main.go:619-663 | both families assigned against the host addresses and merged |
| `AddressPlan.Plans.BuildPlan` | cmd/tailmixd/main.go:703-715 | a reconciliation performs one planning step or leaves the state as it was |
| `AddressPlan.HostStays` | cmd/tailmixd/main.go:316-333 | planning from a good state moves no host address that is set |
| `AddressPlan.PlanKeeps` | cmd/tailmixd/main.go:703-715 | a planning step keeps the invariant, every lease and every host address and serves exactly the nodes |
| `AddressPlan.StepKeeps` | cmd/tailmixd/main.go:222-346 | expiry, planning, host choice and pool changes all keep the invariant |
| `AddressPlan.LeasesStayOneToOne` | cmd/tailmixd/main.go:619-688 | over every run from the empty state keys and addresses are one-to-one and no lease has a NAT or DNS address |
| `AddressPlan.HostsNeverMove` | cmd/tailmixd/main.go:295-346 | over every run host addresses never move once set, while the pools stay |
| `AddressPlan.LeaseKeepsItsAddress` | cmd/tailmixd/main.go:619-737 | over every run a lease that is retained and whose pool stays keeps its address |
| `LeaseActivity.ActivityTracker.SetLeases` | effectiveip/activity.go:32-52 | keeps the record of a lease whose address already tracks the same target and starts any other as present |
| `LeaseActivity.ActivityTracker.ObserveOutbound` | effectiveip/activity.go:57-69 | moves only dormant records, and only forward in time |
| `LeaseActivity.ActivityTracker.Retain` | effectiveip/activity.go:78-106 | computes the surviving leases in order and the new records |
| `LeaseActivity.RetainRecords` | effectiveip/activity.go:78-106 | on distinct addresses a lease survives exactly when it is listed and does not expire, with its new record |
| `LeaseActivity.SetLeasesRecords` | effectiveip/activity.go:32-52 | on distinct addresses exactly the listed leases have records, known ones unchanged |
| `LeaseActivity.RecordsFaithful` | effectiveip/activity.go:32-106 | after every history a dormant record stands for an unbroken absence and its time for the last sign of life |
| `LeaseActivity.DroppedExactly` | effectiveip/activity.go:78-106 | a retention call drops a lease exactly when every call since the begin of an unbroken absence missed the target and begin and outbound packets are at least the retention time old |
| `LeaseActivity.SightingKeepsLease` | effectiveip/activity.go:86-97 | a call that sees the target or does not observe its profile keeps the lease and breaks the absence, so a later drop takes a whole hour of absence after it |
| `LeaseActivity.ReusedAddressStartsAnew` | effectiveip/activity.go:45-48 | an address that another target held starts with a full window |
| `PacketMap.Outbound` | packetmap/packetmap.go:55-86 | rewrites the packet in place to what the outbound mapping says, or leaves it alone |
| `PacketMap.Inbound` | packetmap/packetmap.go:88-120 | rewrites the packet in place to what the inbound mapping says, or leaves it alone |
| `PacketMap.HostLookup` | packetmap/packetmap.go:122-127 | longest match in a table of single addresses is membership |
| `PacketMap.OutboundByRoute` | packetmap/packetmap.go:122-147 | over the table's entries: an address without an effective target leaves unchanged by exactly the profile whose longest bound route, else longest import, else exit is active for it, given a source of the family |
| `PacketMap.OutboundToTarget` | packetmap/packetmap.go:122-127 | an address with an effective target goes to that target and nowhere else |
| `PacketMap.InboundExactly` | packetmap/packetmap.go:88-120 | what comes in from a profile: from a canonical peer, under its effective address, or from an address a route of the profile carries, unchanged, and nothing else |
| `PacketMap.EffectiveRoundTrip` | packetmap/packetmap.go:55-107 | out to an effective address, reversed, and in again gives the original addresses reversed |
| `PacketMap.PeerRoundTrip` | packetmap/packetmap.go:88-107 | an answer to what came in from a canonical peer goes back to that peer |
| `PacketMap.PreservedRoundTrip` | packetmap/packetmap.go:99-120 | a preserved destination comes back unchanged if and only if it is not a canonical peer address of the carrying profile |
| `PacketMap.InactiveRefused` | packetmap/packetmap.go:128-131 | an address pinned to nothing is refused |
| `PacketMap.OverrideMarkIsInert` | packetmap/packetmap.go:122-169 | marking imports inside exact routes inactive changes no packet in either direction |
| `TunConfig.LeasesByKey` | cmd/tailmixd/main.go:922-928 | fails exactly on two addresses for one key |
| `TunConfig.AddSelf` | cmd/tailmixd/main.go:939-949 | one self address per family and profile, tied to the host address; it fails only for a missing host address or a second address of the family |
| `TunConfig.AddTarget` | cmd/tailmixd/main.go:950-980 | ties an effective and a canonical address one to one; it fails exactly on a second target, a second effective address or a missing self address |
| `TunConfig.AddStatus` | cmd/tailmixd/main.go:938-982 | every address of every target is reachable from its leased address; it fails only for a stated problem of the status |
| `TunConfig.AddRetained` | cmd/tailmixd/main.go:987-1009 | every pooled lease without an active target is pinned to nothing |
| `TunConfig.AddExact` | cmd/tailmixd/main.go:1010-1024 | bound routes never overwrite a retained lease; fails on reserved ranges or missing sources |
| `TunConfig.AddImported` | cmd/tailmixd/main.go:1025-1037 | imports are active exactly when the policy says so and nothing reserves them; it fails exactly when an active one has no self address of its family |
| `TunConfig.AddExit` | cmd/tailmixd/main.go:1038-1056 | default routes exactly for the families the exit profile has a source in |
| `TunConfig.TunConfigWithPolicy` | cmd/tailmixd/main.go:921-1103 | a finished table is consistent and says exactly what statuses, leases and policy say; it fails only for a stated problem of these inputs |
| `TunConfig.ServedTargetRoundTrip` | cmd/tailmixd/main.go:950-980 | for every finished table each lease of a reachable target carries traffic to it and the answer back |
| `TunConfig.PreservedDestinationRoundTrip` | cmd/tailmixd/main.go:1010-1056 | for every finished table a preserved destination comes back unchanged if and only if it is no canonical address of a target of the carrying profile |
| `TunConfig.CanonicalPeerComesBackRewritten` | packetmap/packetmap.go:99-107 | a finished table and a packet to a canonical address that leaves by the exit and comes back from the effective address |
| `TunConfig.RetainedLeaseRefused` | cmd/tailmixd/main.go:987-1009 | for every finished table a packet to a retained but inactive lease is refused |
| `TunConfig.PacketLeaves` | packetmap/packetmap.go:122-147 | for every finished table a packet without an effective target leaves preserved by exactly the profile that its longest bound route, else longest import, else exit of the family names, and is refused where there is none |
| `TunConfig.PacketArrives` | packetmap/packetmap.go:149-169 | for every finished table a packet from no canonical peer arrives unchanged exactly from the profile that carries its source |
| `RoutePolicy.CoveringIPRoute` | routingpolicy/policy.go:439-456 | the longest usable route that covers the prefix, if any |
| `RoutePolicy.BindEntry` | routingpolicy/policy.go:81-109 | a bound route is active exactly when its profile is available and advertises a cover and nothing reserves it |
| `RoutePolicy.BindingExactly` | routingpolicy/policy.go:81-109 | over the lists: active exactly when the last profile of the identifier is enabled, its last status runs and lists a non-default route that contains the prefix, and nothing reserves it |
| `RoutePolicy.AdvertisesExactly` | routingpolicy/policy.go:111-135 | over the lists: advertised exactly by enabled accept-all profiles whose last status runs and lists the non-default prefix |
| `RoutePolicy.AddIPCandidate` | routingpolicy/policy.go:533-545 | one candidate per profile, the one with the first named router |
| `RoutePolicy.ImportRoutes` | routingpolicy/policy.go:127-145 | collects exactly the usable routes of one profile, each with the least named router that advertises it |
| `RoutePolicy.CollectImports` | routingpolicy/policy.go:111-148 | candidates are exactly the prefixes available accept-all profiles advertise, per profile |
| `RoutePolicy.IPOverride` | routingpolicy/policy.go:513-531 | the longest exact prefix around an import and the shortest strictly inside it |
| `RoutePolicy.ImportEntry` | routingpolicy/policy.go:149-175 | an import is active exactly when one profile alone advertises it, nothing reserves it and no exact entry contains it |
| `RoutePolicy.BuildIP` | routingpolicy/policy.go:54-178 | the plan: bound entries and one import per advertised prefix, each active exactly as above |
| `AcceptAll.CarriedExactly` | routingpolicy/policy.go:111-178 | an address goes to a profile through accept-all, and leaves by it, exactly when it has no effective target, no exact entry contains it and its longest advertised prefix is that profile's alone and not reserved |
| `AcceptAll.MarkingNeverMatters` | routingpolicy/policy.go:160-175 | the explicit-override mark changes no packet's route |
| `AcceptAll.ReservationsAgree` | cmd/tailmixd/main.go:1137-1155 | the table builder's wider reservation test never differs from the policy's while the DNS address lies in its pool |
| `AcceptAll.ReservedExactly` | cmd/tailmixd/main.go:1138-1156 | a prefix is reserved for the table if and only if it shares an address with 100.64.0.0/10, fd7a:115c:a1e0::/48, a pool, or has a host, DNS or service address |
| `AcceptAll.ReservedNeverRouted` | cmd/tailmixd/main.go:1010-1037 | no active bound or imported prefix of a finished table has such an address |
| `DnsPolicy.LongestDNSMatch` | routingpolicy/policy.go:500-511 | the first of the longest matches of a tier |
| `DnsPolicy.Resolve` | routingpolicy/policy.go:424-437 | the first of the longest matches over the tiers in order |
| `DnsPolicy.ResolvesUnique` | routingpolicy/policy.go:424-437 | a name resolves to at most one entry |
| `DnsPolicy.AddTier` | cmd/tailmixd/main.go:839-853 | adds the entries of a tier that no stronger tier has |
| `DnsPolicy.Publish` | cmd/tailmixd/main.go:823-868 | one route per domain, for its strongest entry, and one per shared name |
| `DnsPolicy.SharedNames` | cmd/tailmixd/main.go:803-822 | shared names are exactly unmatched names that one owner alone claims |
| `DnsPolicy.LongestRouteMeans` | cmd/tailmixd/main.go:823-868 | longest-suffix match gives the route with the most labels |
| `DnsPolicy.PublishedAgreesExactly` | routingpolicy/policy.go:424-437 | every policy match is what longest-suffix match over the published routes gives, if and only if the root stands before no one-character domain in tier order |
| `DnsPolicy.LongSuffixesAgree` | routingpolicy/policy.go:424-437 | they agree when no suffix is one character long |
| `DnsPolicy.RootTakesOneCharacterSuffix` | routingpolicy/policy.go:430-435 | a plan and a name where they disagree |
| `ChanTun.StepKeeps` | tunmux/chantun.go:50-201 | every step of every sender, writer, reader and of the closer keeps the invariant |
| `ChanTun.NothingPanics` | tunmux/chantun.go:105-191 | in no interleaving is there a send on a closed channel, a use of an unowned buffer or a second release |
| `ChanTun.ExactlyOnePlace` | tunmux/packet.go:45-109 | every acquired buffer is in exactly one queue, thread or closer, once, under its current generation |
| `ChanTun.BlockedSenderFinishes` | tunmux/chantun.go:165-176 | after close every registered sender can finish by at most four steps of its own |
| `ChanTun.CloseCanFinish` | tunmux/chantun.go:50-67 | from every reachable state of a closed device the close can run to its end, leaving both queues empty |
| `ChanTun.ReleasedHandleRejected` | tunmux/packet.go:84-109 | after a release by anyone every copy of the handle is rejected forever, also when the buffer is reused |
| `ChanTun.MoveKeeps` | tunmux/chantun.go:161-191 | handing a packet on keeps ownership linear and complete |
| `ChanTun.AcquireKeeps` | tunmux/packet.go:45-68 | acquiring keeps ownership linear and complete |
| `ChanTun.ReleaseKeeps` | tunmux/packet.go:84-97 | releasing keeps ownership linear and complete |
| `ChanTun.InnerFailure` | tunmux/chantun.go:105-191 | a packet that `Write` or `TryInjectOutbound` could not send is released before the thread leaves, and only `Write` goes on, after a full queue |
| `ChanTun.OuterFailure` | tunmux/chantun.go:130-176 | a packet that `InjectOutbound` or the inbound injector could not send is released after the sender has left |
| `ChanTun.RolesUseTheirQueue` | tunmux/chantun.go:69-191 | a writer and the inbound injector fill the inbound queue, outbound injectors the outbound one, and a reader takes the first packet of its queue |
| `ChanTun.FirstInFirstOut` | tunmux/chantun.go:105-201 | over every run what is taken out of a queue, by readers and by the closer, is what was put in, in that order, with nothing lost and nothing twice |
| `ChanTun.SendersWaitOnlyWhenFull` | tunmux/chantun.go:161-191 | no queue has more than 1024 packets; a sender that must not block always has a step and gives up only on a closed device or a queue of 1024, and a blocking one waits only for an open device with such a queue |
| `ChanTun.PoolIsExact` | tunmux/packet.go:45-109 | the pool has exactly the pooled buffers that are not in use |
| `DarwinRoutes.NormalizeConfig` | hosttun/hosttun.go:37-82 | gives one definition per destination with an installed source, or fails for a stated reason |
| `DarwinRoutes.DesiredScopedDefaults` | hosttun/hosttun_darwin.go:262-305 | one scoped default per family with a physical one if an exit route is wanted, failing exactly when none exists |
| `DarwinRoutes.Host.RemoveRoutes` | hosttun/hosttun_darwin.go:138-153 | after it only right routes that need no new scoped defaults, or optional ones, remain |
| `DarwinRoutes.Host.RemoveScoped` | hosttun/hosttun_darwin.go:154-167 | removes unwanted scoped defaults with no exit route on them |
| `DarwinRoutes.Host.RemoveAddrs` | hosttun/hosttun_darwin.go:168-178 | removes unwanted addresses no route needs |
| `DarwinRoutes.Host.AddAddrs` | hosttun/hosttun_darwin.go:179-187 | adds the missing addresses |
| `DarwinRoutes.Host.AddScoped` | hosttun/hosttun_darwin.go:188-203 | adds the missing scoped defaults before any exit route |
| `DarwinRoutes.Host.AddRoutes` | hosttun/hosttun_darwin.go:204-223 | adds the missing routes when their sources and scoped defaults are complete |
| `DarwinRoutes.Host.Configure` | hosttun/hosttun_darwin.go:89-242 | at every step, failed commands included, routes have their sources and exit routes their scoped defaults; without failures it converges and a further call issues no command |
| `SocksLookup.Scan` | profile/socksdial.go:168-187 | collects exactly the addresses of the asked type and the last alias of the name |
| `SocksLookup.AddressesAreOwned` | profile/socksdial.go:170-187 | an address is collected exactly when a record of the asked type for the name has it |
| `SocksLookup.FollowReply` | profile/socksdial.go:161-201 | follows aliases inside a reply without repeating a name, asks on only after progress, and fails only at a dead end |
| `SocksLookup.Lookup` | profile/socksdial.go:143-204 | for every resolver at most eight queries, no name followed twice, and an answer is exactly the addresses of the asked type at the end of an alias chain from the question; there is none only after a missing or unacceptable reply, eight names, a repeated name, or a reply with nothing for the end of the chain |

## Left out

- The text of the device protocol and the sort order of allowed IPs: a script is a sequence of assignments, and the results hold for every listing.
- Endpoint syntax, resolution and roaming: an endpoint is a text that resolution may replace.
- WireGuardWriters.WgAllowedIPs: the sort order of the list is left out; the results hold for every order.
- WireGuardEngine.Engine.PrepareApply: completing the supplied secrets and resolving endpoints are parameters.
- WireGuardValidate.Validate: endpoint syntax is not checked, and keepalive intervals are not negative.
- WireGuardValidate.ValidatePeer: endpoint syntax is not checked.
- Printing and parsing of addresses and prefixes: the printer is a parameter, a selector text is what it parses to and the number of its spelling; address zones are not modelled.
- Invalid (zero) addresses in leases and statuses, and IPv4-mapped IPv6 addresses outside the packet filter and the SOCKS lookup.
- Secret files, key generation and `effectiveWGSecrets`: the secrets that an apply uses are given, with a private key.
- Flow state shared between policies: a policy is what it admits inbound.
- WireGuardShields.Supervisor.ReconcileAll: models the exit preferences and the saves of a reconciliation; leases, host routes and DNS are in their own modules and touch no flag.
- WireGuardShields.Supervisor.ApplyWireGuard: normalization, secret files and endpoint-name checks, which come before the first save, are left out.
- WireGuardEngineRuns.AtMostOneApplies: runs start with an ordinary start and hold prepare, apply, commit and close; shields-up updates, exit selection and restricted starts install policies of their own and are in WireGuardShields.
- AddressPlan.MergeLeases: the listing order of leases, nodes and plan entries is not modelled.
- LeaseActivity.DroppedExactly: holds for lists with distinct addresses, which the address plan guarantees.
- TunConfig.TunConfigWithPolicy: the host routes and addresses that go with the table are left out.
- DnsPolicy.Publish: names are lists of labels; resolvers, record lists and search domains are left out, and domains are distinct within a tier as state normalization and the candidate maps make them.
- ChanTun.StepKeeps: the device, pool and workers are modelled as values and steps instead of objects, so the mutex and the atomics appear as atomic steps; packet contents and batch sizes are left out.
- DarwinRoutes.Host.Configure: a failed command changes nothing, the lists the host keeps are the kernel itself, exit routes are not optional, and the teardown on close is left out.
- SocksLookup.Lookup: message packing is left out, a reply is given with whether its header is acceptable; names fold case in ASCII.
- The Linux host router, route-table parsing, tsnet, netns, the control API, the command line, DNS services and forwarders, updates: system calls and plumbing.
