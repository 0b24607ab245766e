# openmanetd protocols, proved

A Dafny model of the parts of openmanetd that are protocols, allocators, caches
and controllers, with proofs of what they keep.

| module | what it models |
|---|---|
| `MeshReservation`, `MeshConvergence`, `MeshGrid`, `ReservationWorker` | nodes that claim addresses and DHCP windows from gossip: the protocol of N nodes under any schedule, how it ends and up to which size it ends well, and one node's tick |
| `DhcpAllocator` | the search for a DHCP window no peer row claims |
| `TalkGroups`, `TalkGroupService`, `TalkGroupRuns` | talk-group selection: interleaved atomic steps, the service object as the big step they add up to, and what selections alone guarantee |
| `HopDerivation` | hop counts along best-next-hop chains, with a depth limit and a cache shared by calls in any order |
| `FecController`, `FecAdapter` | the forward-error-correction controller and the object that drives the encoder |
| `FirewallWizard`, `FirewallNat`, `FirewallLists`, `FirewallStore`, `FirewallZones` | the setup wizard's firewall passes over an ordered section store |
| `FirewallScenarios`, `FirewallOutcome`, `FirewallRepeats`, `FirewallSwitch` | its whole scenarios: what they leave, when they can be run again, and what a changed uplink does to the second |
| `DhcpPools` | the wizard's DHCP pools on the same store |
| `Sessions` | the bounded session store |
| `RateRing` | the status worker's sixteen-slot ring and connected-since mark |
| `PcmRing` | the playback ring between decoder and audio callback, one step a shared access |
| `Outcomes`, `Text`, `FiniteSets`, `Counters`, `ModularSlots`, `MeshRows` | results, strings, counting, positions in a ring and the peer row the others share |

Where the source updates an object, the model is a class whose methods are proved
to compute a specification function or relation; the properties are lemmas about
those over all inputs, runs or interleavings.

## What turned out conditional

Some promises hold only under a condition. Each of these is an if-and-only-if:

- A quiet mesh is free of conflicts exactly if hostnames differ and MACs are
  present and differ by more than case (`QuietIsSafeIffIdentitiesGood`).
- A mesh of n nodes that can go no further is done, every node configured and no two
  on one address, for all meshes of that size exactly if n is at most 2114: each
  claimed window blocks 31 of the 65519 starts (`StuckIsDoneIffSmall`, `Converges`).
  Runs that start with nobody configured only ever use 4095 places, and there the
  size is exactly 4095 (`ReachedStuckIsDoneIffServed`).
- First-time windows are disjoint exactly if nodes claim one at a time
  (`WindowsStayDisjointIffLone`), and nothing repairs a shared window
  (`SharedWindowIsFinal`).
- Hop counts are exact, and independent of map order, exactly if no resolvable
  originator is more than 16 hops away (`AnswersExactIffShallow`,
  `OrderIrrelevantIffShallow`). The values that are not 99 are right always. In any
  other table an originator is answered exactly in every pass exactly if no
  originator past 16 hops routes through it (`AlwaysTrueIffServesNoFar`).
- The reported FEC level is the encoder's exactly if the first write succeeded or
  the encoder already held the floor (`LevelIsEncoderIffFirstWriteTook`). Forty
  quiet ticks reach the floor from everywhere and thirty-nine do not.
- Selections are exclusive at every step exactly if the flags at boot were clean
  (`SelectionsKeepPromiseIffCleanBoot`), and after the first completed selection
  whatever they were (`PromiseHoldsAfterFirstSelection`).
- Playback follows the receive flags in every run exactly if there is one caller or no
  stream, because the flag is loaded and acted on without a common lock
  (`PlaybackAlwaysInStepIffLoneCaller`). Under selections alone it also does in
  setups where no port with a stream is selectable beside another port
  (`SelectionsKeepPlaybackIffNoFlicker`).
- A setup with one forwarding can be repeated, and enables the forwarding, exactly
  if its section name was not taken (`OneRequestRepeatsIffFresh`). With several
  forwardings from different sources it enables all of them exactly if in the reset
  store each finds its forwarding or an unused name of its own
  (`SetupFlowsIffFreshAtStart`), and if the names differ too it can be repeated
  exactly then (`SetupRepeatsIffFreshAtStart`); requests that share a name can repeat
  while none of them flows (`SharedNamesMayRepeat`).
- A wizard scenario can be run again to the same firewall exactly if in the reset store
  no zone it ensures is hidden behind an unnamed one and its forwarding stands or its
  section name is unused (`WizardScenarioRepeatsIffClean`). Running the router
  scenario for one uplink and then for the other breaks that: both name their
  forwarding alike, so the mesh loses its uplink (`SwitchingUplinksLosesThem`).
- The FEC level leaves its configured floor in some run exactly if the clamped floor is
  20 or 30 (`SomeRunLeavesFloorIffLevelBelowTop`). A floor between the levels has no
  case in the switch; `RunKeepsInvariant`, `LevelIsEncoderIffFirstWriteTook` and
  `LevelChangesExactlyAtDwell` cover it like the others.
- Asking for a network's zone again changes nothing exactly if no unnamed zone
  lists that network first (`RepeatChangesNothingIffNamed`).
- A pool call can be repeated on every store, whatever is drawn, exactly if its extra
  options spare the pool's interface and do not switch it off
  (`RepeatsIffExtrasSpareKeys`); after a reset only the interface matters
  (`PoolSetupTwiceIsOnceIffInterfaceKept`).
- The session limit is never exceeded exactly if it is at least one
  (`LimitHoldsIffPositive`), and a validation accepts a stored token exactly if it was
  issued no more than maxAge ago (`ValidatesIffInTime`).
- A zone is masqueraded after a setup exactly if a request to it that had work to do
  asked for NAT (`SetupZones`).

Two comments in the source say more than its code does, and the model follows the
code. A port whose receive counter went back is said to be skipped for the tick
(internal/comms/fec_adapter.go:221-225), but only its pushed frames are: its
gap-run buckets still count. Disabling a source's forwardings is said to spare the
wanted one (internal/network/uci_firewall.go:536-538), but it disables that one
too and clears the option afterwards.

## Model

| member | source | states |
|---|---|---|
| `Text.LessAtFirstDifference` | internal/mgmt/address_reservation.go:182-193 | one string comes before another exactly if it ends, or has the smaller character, where the two first differ |
| `Text.LessOfLowered` | internal/mgmt/address_reservation.go:182-193 | the same of lower-cased strings, with the capitals A to Z read as small letters |
| `Text.DecimalReadsBack` | internal/network/uci_firewall.go:206-206 | a number is printed in digits that read back as it, without a leading zero |
| `DhcpAllocator.OverlapIsSharedOffset` | internal/network/uci_dhcp.go:702-704 | two windows overlap by their end points exactly if some offset lies in both |
| `DhcpAllocator.AvailableIsFree` | internal/network/uci_dhcp.go:628-641 | the candidate check on collected ranges accepts a start exactly if the window lies inside the subnet and shares no offset with any valid row |
| `DhcpAllocator.CollectRanges` | internal/network/uci_dhcp.go:600-616 | the collected ranges are those of the rows with both columns present and positive, no others, and no more than there are such rows |
| `DhcpAllocator.SortByStart` | internal/network/uci_dhcp.go:619-621 | the sorted slice holds the same ranges, in order of their starts |
| `DhcpAllocator.CheckCandidate` | internal/network/uci_dhcp.go:628-641 | the check loop computes exactly that test |
| `DhcpAllocator.JumpLeavesBehind` | internal/network/uci_dhcp.go:658-666 | jumping to one past a blocking range's end leaves that range behind every later candidate |
| `DhcpAllocator.AheadAtMostAll` | internal/network/uci_dhcp.go:650-671 | the ranges still ahead of a candidate are never more than all ranges, which bounds the number of jumps |
| `DhcpAllocator.SkippedAreBlocked` | internal/network/uci_dhcp.go:658-666 | no start jumped over was free |
| `DhcpAllocator.NothingFreeBetween` | internal/network/uci_dhcp.go:650-671 | a stretch of starts that are unavailable on the ranges holds no free start of the rows |
| `DhcpAllocator.Scan` | internal/network/uci_dhcp.go:649-696 | one scan returns the least available start of its stretch or none if there is none, looks at no more candidates than ranges plus one, and never steps by one |
| `DhcpAllocator.FindWindow` | internal/network/uci_dhcp.go:643-698 | the result is the least free start from 100 up, else the least free start below 100, else none exists; at most two candidates per claim plus two are looked at and the single step is never taken |
| `DhcpAllocator.BestIsUnique` | internal/network/uci_dhcp.go:623-625 | at most one start satisfies the preference, so the rows alone decide the answer |
| `DhcpAllocator.FreeIfApartFromClaims` | internal/network/uci_dhcp.go:600-641 | a window is free exactly if it lies on host offsets and ends before or starts behind every window that a row with both columns present and positive claims |
| `DhcpAllocator.BestComesFirst` | internal/network/uci_dhcp.go:643-698 | the answer comes before every other free start, those from 100 up before those below, and lower before higher |
| `DhcpAllocator.HostCounts` | internal/network/uci_dhcp.go:586-596 | a /16 has 65534 host offsets, a /24 254, a /30 two and longer prefixes none |
| `DhcpAllocator.BestExistsIffFree` | internal/network/uci_dhcp.go:643-698 | the preferred start exists exactly if any window of that size fits |
| `DhcpAllocator.CalculateAvailableDhcpStart` | internal/network/uci_dhcp.go:558-699 | each error comes back exactly on its own condition, and otherwise the start is the preferred one or no window fits |
| `MeshReservation.FindIpConflicts` | internal/mgmt/address_reservation.go:197-211 | a row is a conflict exactly if it is in the table and carries one of the interface's addresses |
| `MeshReservation.ConflictsInTableOrder` | internal/mgmt/address_reservation.go:195-211 | the conflicts stand in table order, one for each clashing row |
| `MeshReservation.YieldsByCharacters` | internal/mgmt/address_reservation.go:182-193 | a node yields exactly if some peer's MAC is present and ends, or has the smaller letter, where the two first differ, capitals read as small letters |
| `MeshReservation.Upsert` | internal/database/models/query.sql.go:14-30 | recording stores the new row and keeps the rows of every other MAC, inventing none |
| `MeshReservation.UpsertKeepsOneRowEach` | internal/database/models/query.sql.go:14-30 | the MAC stays a key: no two rows share one, and the recorded MAC's only row is the new one |
| `MeshReservation.ViewHoldsPeers` | internal/mgmt/node.go:206-225 | every stored row came from a configured node with another hostname |
| `MeshReservation.ViewIsComplete` | internal/mgmt/node.go:195-232 | with distinct identities a node's rows hold every configured peer's current row |
| `MeshReservation.YieldsOnlyToLower` | internal/mgmt/address_reservation.go:182-193 | a configured node that moves has a configured peer on its address with a strictly lower MAC |
| `MeshReservation.YieldsExactlyToLower` | internal/mgmt/address_reservation.go:151-193 | with distinct identities it moves if and only if there is one |
| `MeshReservation.QuietIsConflictFree` | internal/mgmt/address_reservation.go:155-172 | with distinct identities, when no node has a reason to move no two configured nodes share an address |
| `MeshReservation.IndistinguishableStayInConflict` | internal/mgmt/address_reservation.go:177-193 | two nodes with one hostname, or MACs equal up to case or empty, can sit on one address with nobody moving |
| `MeshReservation.QuietIsSafeIffIdentitiesGood` | internal/mgmt/address_reservation.go:177-193 | silence means no conflict for every assignment of addresses if and only if all hostnames differ and all MACs are present and differ by more than case |
| `MeshReservation.StepKeepsIdentities` | internal/mgmt/address_reservation.go:217-265 | a step changes no hostname, MAC or number of nodes |
| `MeshReservation.ClaimedAddressIsFresh` | internal/mgmt/address_reservation.go:224-245 | a claimed address is carried by no node that did not claim in the same step |
| `MeshReservation.KeeperStaysKeeper` | internal/mgmt/address_reservation.go:155-172 | a node without a reason to move gets none from any step of others |
| `MeshReservation.LowestClaimerSettles` | internal/mgmt/address_reservation.go:177-193 | among those who claim together the one with the lowest MAC has no reason to move afterwards |
| `MeshReservation.StepShrinksMovers` | internal/mgmt/address_reservation.go:151-193 | every step leaves a strict subset of the nodes that had a reason to move |
| `MeshReservation.RunSpendsMovers` | internal/mgmt/address_reservation.go:151-193 | in any run the movers left plus the steps taken are at most the movers at the start |
| `MeshReservation.SomeNodeKeeps` | internal/mgmt/address_reservation.go:177-193 | in a configured mesh some node has no reason to move |
| `MeshReservation.KeeperNeverMoves` | internal/mgmt/address_reservation.go:177-193 | a configured node with no lower MAC on its address keeps address and window in every run |
| `MeshReservation.ClaimedWindowIsClear` | internal/mgmt/address_reservation.go:248-265 | a claimed window lies in the subnet and overlaps no window that was not claimed in the same step |
| `MeshReservation.LoneClaimKeepsAllocated` | internal/mgmt/address_reservation.go:217-265 | a claim made alone keeps addresses distinct and windows disjoint and inside the subnet |
| `MeshReservation.LoneRunStaysAllocated` | internal/mgmt/address_reservation.go:217-265 | from nobody configured, runs of single claims keep pairwise distinct addresses and disjoint windows inside the subnet in every reachable state |
| `MeshReservation.SimultaneousClaimersShareWindow` | internal/mgmt/address_reservation.go:248-251 | two first-time claimers of one step take the same window |
| `MeshReservation.WindowsStayDisjointIffLone` | internal/mgmt/address_reservation.go:248-265 | when unconfigured nodes claim in one step the windows stay disjoint if and only if one node claimed alone |
| `MeshReservation.ConfiguredWithoutConflictIsFinal` | internal/mgmt/address_reservation.go:151-160 | in any configured mesh with distinct identities and addresses nobody has a reason to claim and no step is possible |
| `MeshReservation.SharedWindowIsFinal` | internal/mgmt/address_reservation.go:151-160 | so two of its nodes that share a window share it for good: every run from there is that one state |
| `MeshReservation.JointClaimsEndShared` | internal/mgmt/address_reservation.go:248-265 | joint first-time claims that complete the mesh with distinct addresses end in such a state with windows shared |
| `MeshConvergence.FewRowsLeaveAWindow` | internal/network/uci_dhcp.go:628-641 | rows that each claim one window and are too few to block all 65519 starts at 31 starts each leave a window free |
| `MeshConvergence.ViewLeavesOutOneself` | internal/mgmt/node.go:215-218 | a node of n sees at most n - 1 rows |
| `MeshConvergence.MoverCanClaim` | internal/mgmt/address_reservation.go:155-174 | a node with a reason to move has a step it can take alone if and only if its rows leave a window free |
| `MeshConvergence.MoverOfSmallMeshCanClaim` | internal/mgmt/address_reservation.go:155-174 | in a mesh of up to 2114 nodes every node with a reason to move has one |
| `MeshConvergence.StuckIffNoWindowForMovers` | internal/mgmt/address_reservation.go:155-174 | no step is possible if and only if no node with a reason to move sees a free window |
| `MeshConvergence.CrowdedIsStuck` | internal/network/uci_dhcp.go:628-698 | for every larger size there is a mesh with distinct identities in which somebody has a reason to move and nobody can |
| `MeshConvergence.StuckIsDoneIffSmall` | internal/mgmt/address_reservation.go:151-193 | for every mesh of n nodes being stuck means nobody has a reason to move, if and only if n is at most 2114 |
| `MeshConvergence.DoneIffNoMovers` | internal/mgmt/address_reservation.go:151-172 | nobody has a reason to move exactly if every node is configured and no two share an address |
| `MeshConvergence.RunsAreShort` | internal/mgmt/address_reservation.go:151-193 | under any schedule of non-empty groups, at any size, a run of n nodes has at most n steps, n - 1 if all start configured |
| `MeshConvergence.Converges` | internal/mgmt/address_reservation.go:151-193 | a run of up to 2114 nodes is that short, and it can go no further exactly when every node is configured and no two share an address |
| `MeshGrid.BestIsOnGrid` | internal/network/uci_dhcp.go:643-698 | among windows at offset 100 and whole windows beyond it, or at offset 1 and whole windows beyond that and below 100, the search answers such a place again |
| `MeshGrid.RunKeepsGrid` | internal/mgmt/address_reservation.go:217-265 | so from nobody configured no run ever leaves these 4095 places, however its claims are grouped |
| `MeshGrid.FewGridRowsLeaveAWindow` | internal/network/uci_dhcp.go:643-698 | rows at such places that are fewer than the places leave a window free |
| `MeshGrid.GridRunConverges` | internal/mgmt/address_reservation.go:151-193 | a run of up to 4095 nodes from there can go no further exactly when every node is configured and no two share an address |
| `MeshGrid.LoneClaimsToTheEnd` | internal/mgmt/address_reservation.go:155-174 | from any mesh lone claims can be made until nobody can claim any more |
| `MeshGrid.AllocatedMeshIsSmall` | internal/network/uci_dhcp.go:643-698 | no more than 4095 nodes at such places have windows of their own |
| `MeshGrid.CrowdIsNotServed` | internal/mgmt/address_reservation.go:155-174 | any larger mesh with nobody configured, claiming one at a time, ends with a node that has a reason to claim and finds no window |
| `MeshGrid.ReachedStuckIsDoneIffServed` | internal/mgmt/address_reservation.go:151-193 | in every run of n nodes from nobody configured being stuck means being done, if and only if n is at most 4095 |
| `ReservationWorker.RefreshedExactly` | internal/mgmt/node.go:195-258 | after a refresh a row is stored exactly if the answer carries it last for its MAC, or leaves its MAC out and the row was stored and is not stale; without an answer nothing changes, so an outage sweeps nobody |
| `ReservationWorker.RefreshIsView` | internal/mgmt/node.go:195-232 | recording all gossip into an empty table gives exactly the view the protocol decides by, sweep included |
| `ReservationWorker.Worker.ExpireStaleNodes` | internal/mgmt/node.go:246-258 | the sweep keeps exactly the rows heard at or after the cutoff, in order |
| `ReservationWorker.Worker.ReceiveNodeData` | internal/mgmt/node.go:195-232 | a failed request keeps the table; otherwise each record under another name that parses and can be written replaces its MAC's row, in order, and then stale rows are swept unless expiry is off; an own name that could not be read is the empty one |
| `ReservationWorker.Worker.FindConflicts` | internal/mgmt/address_reservation.go:197-211 | the nested loop returns exactly the rows that clash |
| `ReservationWorker.Worker.Yields` | internal/mgmt/address_reservation.go:182-193 | the loop answers exactly whether a conflicting peer has a present MAC that ends or has the smaller letter where it first differs from the own one, capitals read as small letters |
| `ReservationWorker.Worker.ApplyReservation` | internal/mgmt/address_reservation.go:217-286 | each error comes back exactly when its call fails and none before it did, and what was written before it stands: the configured flag is set only once address and window are stored, and the reboot comes last |
| `ReservationWorker.Worker.ReserveOnce` | internal/mgmt/address_reservation.go:133-175 | a tick returns the protocol's decision on the refreshed rows unless reading the flag, reading the table or the claim fails, and then exactly that error; a configured node idles exactly without a clashing row, keeps its address exactly if no clashing row has a present lower MAC, and then writes nothing |
| `HopDerivation.DistanceIsUnique` | internal/batman-adv/originator_topology.go:203-210 | an originator has at most one distance along its best-next-hop chain |
| `HopDerivation.DistanceFollowsNextHop` | internal/batman-adv/originator_topology.go:220-244 | an originator whose next hop is itself or missing is one hop away, every other one hop more than its next hop |
| `HopDerivation.Limits` | internal/batman-adv/originator_topology.go:198-200 | the walk looks at sixteen entries and calls what it cannot tell 99 |
| `HopDerivation.ChainEnds` | internal/batman-adv/originator_topology.go:220-254 | every chain reaches a direct neighbour, leaves the table or circles |
| `HopDerivation.UnresolvableIffDanglesOrCircles` | internal/batman-adv/originator_topology.go:220-254 | an originator has no distance exactly if its chain leaves the table or circles |
| `HopDerivation.WalkedIsSound` | internal/batman-adv/originator_topology.go:211-259 | a walk from any sound cache leaves a sound cache: every value but 99 is a distance |
| `HopDerivation.EveryCachedHopIsTrue` | internal/batman-adv/originator_topology.go:211-259 | after any calls in any order every cached value other than 99 is the true distance, with no bound on chain length |
| `HopDerivation.QueryIsSound` | internal/batman-adv/originator_topology.go:211-259 | the answer of such a call is the distance or 99 |
| `HopDerivation.WalkedIsExact` | internal/batman-adv/originator_topology.go:211-259 | when resolvable originators are within the limit, a walk from an exact cache leaves an exact cache |
| `HopDerivation.ShallowAnswersAreExact` | internal/batman-adv/originator_topology.go:112-127 | when no resolvable originator is past 16 hops, every answer of every pass is the distance, or 99 for chains that leave or circle |
| `HopDerivation.NearWalkResolves` | internal/batman-adv/originator_topology.go:220-258 | from an empty cache an originator within the limit is answered its distance and nothing further is cached |
| `HopDerivation.FarAnswerDependsOnOrder` | internal/batman-adv/originator_topology.go:116-127 | an originator 17 hops away is answered 99 when asked first and 17 right after its next hop |
| `HopDerivation.AnswersExactIffShallow` | internal/batman-adv/originator_topology.go:112-127 | the answers of every pass are the distances if and only if no resolvable originator is more than 16 hops away |
| `HopDerivation.OrderIrrelevantIffShallow` | internal/batman-adv/originator_topology.go:112-127 | the answers do not depend on the map order if and only if the same holds |
| `HopDerivation.BestByMac` | internal/batman-adv/originator_topology.go:103-110 | every row of the index is stored under its originator's lower-case address |
| `HopDerivation.BestIsLastBest` | internal/batman-adv/originator_topology.go:103-110 | an originator is in the index exactly if one of its rows is best, and the row kept is the last of those |
| `HopDerivation.BestRows` | internal/batman-adv/originator_topology.go:103-110 | the loop builds that index |
| `HopDerivation.FarWalkGivesUp` | internal/batman-adv/originator_topology.go:220-258 | from an empty cache a walk from an originator past the limit answers 99 for it and for every originator it has come by |
| `HopDerivation.GivenUpOnTheWay` | internal/batman-adv/originator_topology.go:220-258 | a walk gives up on a resolvable originator only on its way from one past 16 hops |
| `HopDerivation.NearIsPoisoned` | internal/batman-adv/originator_topology.go:256-277 | an originator asked right after a far one that routes through it is answered 99, however near it is |
| `HopDerivation.AlwaysTrueIffServesNoFar` | internal/batman-adv/originator_topology.go:112-127 | in any table an originator is answered exactly in every pass if and only if no resolvable originator past 16 hops, itself included, routes through it, or the exact answer is 99 anyway |
| `HopDerivation.HopsCache.BackfillChain` | internal/batman-adv/originator_topology.go:265-271 | the loop gives every host of the chain its place counted from the tail |
| `HopDerivation.HopsCache.MarkUnknown` | internal/batman-adv/originator_topology.go:273-277 | the loop marks exactly the hosts of the chain unknown |
| `HopDerivation.HopsCache.HopsFor` | internal/batman-adv/originator_topology.go:211-259 | the walk on the shared map computes the specified walk, cache and answer |
| `HopDerivation.QueryKeepsTrust` | internal/batman-adv/originator_topology.go:211-259 | a call keeps whatever trust the cache deserved, sound or exact |
| `HopDerivation.PassIsTrusted` | internal/batman-adv/originator_topology.go:112-127 | at every point of a pass the cache is sound, and exact when no resolvable originator is past 16 hops |
| `HopDerivation.OriginatorEntries` | internal/batman-adv/originator_topology.go:103-139 | one entry for each best originator, with its own address and next hop and the answers of one pass in some order; every hop count is 99 or the distance, and with no resolvable originator past 16 hops it is the distance, or 99 where there is none |
| `FecController.Sized` | internal/comms/fec_adapter.go:194-200 | the remembered counters cover every port: old ones are kept and new ones are zero |
| `FecController.LossRatio` | internal/comms/fec_adapter.go:263-268 | the raw loss times the expected frames is the missing frames, and it is 0 when nothing was expected; it is between 0 and 1 |
| `FecController.GapsAreWeighted` | internal/comms/fec_adapter.go:227-236 | the six buckets weigh 1, 3, 8, 15, 35 and 75 |
| `FecController.TotalsByPort` | internal/comms/fec_adapter.go:202-247 | a port that is missing or not received counts nothing and stays remembered as it was; another counts what its counters grew by, no jitter buffer counting as empty buckets, and is remembered as it is |
| `FecController.TickKeepsInvariant` | internal/comms/fec_adapter.go:184-385 | any tick keeps the level among the three levels and at or above the floor, the estimate in [0,1] and the counters short of their dwells |
| `FecController.RunKeepsInvariant` | internal/comms/fec_adapter.go:184-385 | so does any run, whatever the encoder refuses and whichever counters roll back |
| `FecController.SomeRunLeavesFloorIffLevelBelowTop` | internal/comms/fec_adapter.go:290-335 | some run leaves the clamped floor if and only if it is 20 or 30; from 40, and from a floor between the levels, none does |
| `FecController.LevelIsEncoderIffFirstWriteTook` | internal/comms/fec_adapter.go:123-152 | in every run the reported level is what the encoder holds, whatever later writes fail, if and only if the first write succeeded or the encoder already held the floor |
| `FecController.UpRunIsLongest` | internal/comms/fec_adapter.go:292-311 | the upward run of a log is its longest unbroken end at that level above the threshold |
| `FecController.DownRunIsLongest` | internal/comms/fec_adapter.go:312-333 | the downward run likewise, below the threshold |
| `FecController.CountersAreStreaks` | internal/comms/fec_adapter.go:290-335 | in every run each dwell counter is the length of that run of active ticks, counted modulo the dwell, since reaching the dwell starts it over |
| `FecController.MachineCounts` | internal/comms/fec_adapter.go:290-385 | one pass of the switch raises, lowers or keeps the level and sets both counters exactly as the two runs and the write say |
| `FecController.LevelChangesExactlyAtDwell` | internal/comms/fec_adapter.go:290-385 | in every run a tick raises the level by one step if and only if it is active, its write is accepted and it ends a run of two, four and so on ticks above the threshold; it lowers it if and only if the same holds of fifteens below the threshold, above the floor; otherwise the level stays |
| `FecController.QuietEstimateFalls` | internal/comms/fec_adapter.go:270-271 | after loss-free active ticks the estimate is below the thresholds it must have decayed past |
| `FecController.SilentTickForgets` | internal/comms/fec_adapter.go:249-258 | a silent tick changes nothing but the count of silent ticks, and on every thirtieth the estimate, to 0 |
| `FecController.ActiveTickSmooths` | internal/comms/fec_adapter.go:260-271 | an active tick ends the silence and makes the estimate a fifth of the loss it saw and four fifths of the old estimate |
| `FecController.SilenceForgets` | internal/comms/fec_adapter.go:249-271 | in every run, after an active tick or from the start, any number of silent ticks leave level, dwell counters and encoder as they were; the estimate is as it was up to the twenty-ninth and 0 from the thirtieth on, until the next active tick |
| `FecController.QuietTickRecovers` | internal/comms/fec_adapter.go:290-335 | a loss-free active tick brings the controller one tick closer to its floor |
| `FecController.FortyQuietTicksReachFloor` | internal/comms/fec_adapter.go:249-335 | from every reachable state forty or more loss-free active ticks whose writes succeed, with any silent ticks among them, end at the floor and so stay there |
| `FecController.HighStateLingers` | internal/comms/fec_adapter.go:249-335 | a saturated state is still above its floor after each of its first thirty-nine loss-free ticks |
| `FecController.ThirtyNineAreNotEnough` | internal/comms/fec_adapter.go:249-335 | some reachable state is above its floor after thirty-nine loss-free active ticks, so forty is exact |
| `FecAdapter.Adapter.constructor` | internal/comms/fec_adapter.go:123-152 | the adapter starts at the clamped floor, having tried one encoder write, with the state of the model |
| `FecAdapter.Adapter.MissingFrames` | internal/comms/fec_adapter.go:227-236 | the loop computes the weighted growth of the buckets, a bucket that shrank counting as none |
| `FecAdapter.Adapter.Collect` | internal/comms/fec_adapter.go:202-247 | the loop returns the total of pushed and missing frames over the readable ports and remembers their counters; other ports keep what was remembered |
| `FecAdapter.Adapter.Tick` | internal/comms/fec_adapter.go:184-286 | a tick on the object is the controller's tick, and the encoder ends with the controller's value; one without frames keeps level, dwell counters and encoder, and sets the estimate to 0 exactly if it is the thirtieth in a row |
| `FecAdapter.Adapter.ApplyStateMachine` | internal/comms/fec_adapter.go:290-335 | the switch computes the specified machine, encoder included |
| `FecAdapter.Adapter.TransitionTo` | internal/comms/fec_adapter.go:341-385 | a refused write keeps the level, and the counters restart either way |
| `TalkGroups.PortAndChannelAreInverse` | internal/config/multicast.go:107-130 | each map undoes the other and neither accepts what the other cannot produce |
| `TalkGroups.TargetIsFirstPort` | internal/comms/service.go:253-272 | a channel is selectable exactly if it is valid and some port carries its number, and the first such port is taken |
| `TalkGroups.ApplyKeepsShape` | internal/comms/service.go:96-185 | no action changes the number of ports, streams or threads |
| `TalkGroups.TogglesSetFlags` | internal/comms/service.go:96-124 | a toggle of an idle caller sets that port's flag; a receive flag that really changes is owed a look at its stream |
| `TalkGroups.SelectingIsExclusive` | internal/comms/service.go:286-336 | at every step readers see at most one port enabled, for sending and receiving together |
| `TalkGroups.HolderStepKeepsSelecting` | internal/comms/service.go:290-360 | each step of the lock holder keeps the phase invariant, the event chain included |
| `TalkGroups.OtherStepKeepsSelecting` | internal/comms/service.go:279-367 | no step of another thread disturbs it |
| `TalkGroups.CleanBootIsSettled` | internal/comms/lifecycle.go:320-340 | seeding from flags with at most one port on, both directions alike, gives a settled state, and only from such flags |
| `TalkGroups.RunKeepsSelecting` | internal/comms/service.go:279-360 | every interleaving of selections keeps the invariant |
| `TalkGroups.SelectionsKeepPromiseIffCleanBoot` | internal/comms/service.go:279-360 | in every interleaving of selections the flags stay exclusive, the active channel's port has both on whenever the lock is free, and events chain with each Prev the previous Channel, if and only if the boot flags were clean |
| `TalkGroups.PromiseMeans` | internal/comms/service.go:279-360 | flag by flag and event by event: no two ports on, with the lock free the active channel's port alone on both ways, each event naming its predecessor's channel as the previous one |
| `TalkGroups.OwnStepPaysOrKeepsOwing` | internal/comms/service.go:132-161 | a thread that owes a port a start or stop still owes it after its step or has just brought the stream in step |
| `TalkGroups.FlipperOwes` | internal/comms/service.go:112-124 | whoever flips a receive flag owes that port |
| `TalkGroups.UnowedStreamIsLeftAlone` | internal/comms/port_channel.go:184-218 | a step that neither flips a port's flag nor owes it leaves its stream running as it was or in step |
| `TalkGroups.StepKeepsReconciled` | internal/comms/service.go:126-185 | a step without a flip between a load and its act keeps every unowed stream in step |
| `TalkGroups.UninterruptedPlaybackInStep` | internal/comms/service.go:126-185 | in any mix of selections and toggles without such a flip, each installed stream at every quiet moment runs exactly if its port receives |
| `TalkGroups.LateActBreaksPlayback` | internal/comms/service.go:132-161 | from any quiet state with a stream and a second caller some run comes to rest with the stream wrong |
| `TalkGroups.PlaybackAlwaysInStepIffLoneCaller` | internal/comms/service.go:126-185 | streams are in step at every quiet moment of every run if and only if there is one caller or no stream |
| `TalkGroupRuns.PromiseHoldsAfterFirstSelection` | internal/comms/service.go:279-360 | from any flags at boot and in any interleaving, once the first selection has completed the flags stay exclusive, the active channel's port has both on whenever the lock is free, and events chain, each later one naming a new channel |
| `TalkGroupRuns.FlipsToFinal` | internal/comms/service.go:286-328 | when a port with a stream cannot be both selected and left, selections flip its receive flag one way only |
| `TalkGroupRuns.RunWithoutFlickerIsUninterrupted` | internal/comms/service.go:126-185 | in such a setup no selection flips a stream's flag between a load and its act |
| `TalkGroupRuns.FlickerBreaksPlayback` | internal/comms/service.go:360-367 | with two callers and a port that can be selected and left, three selections can interleave so that its stream runs while it does not receive |
| `TalkGroupRuns.SelectionsKeepPlaybackIffNoFlicker` | internal/comms/service.go:248-370 | in runs of selections alone streams are in step at every quiet moment if and only if there is one caller, or no port with a stream is selectable beside another selectable port |
| `TalkGroupService.SelectedIsExclusive` | internal/comms/service.go:290-367 | after a selection both directions are on at the target alone and streams in step stay in step |
| `TalkGroupService.SelectedFlagByFlag` | internal/comms/service.go:248-370 | a selection takes the first port numbered 38801 plus twice the channel less one, turns both directions on there and off elsewhere, changes exactly the streams whose receive flag changed, and reports an event exactly if a flag or the channel changed |
| `TalkGroupService.LoneSelectionIsDecided` | internal/comms/service.go:279-360 | an undisturbed selection leaves the lock owing exactly the ports whose receive flag it flipped, in order |
| `TalkGroupService.LastSelectionStands` | internal/comms/lifecycle.go:413-429 | after a list of selections the last provisioned channel is active and alone; if none is provisioned nothing changed |
| `TalkGroupService.LoneSelectionIsSelected` | internal/comms/service.go:248-370 | the small steps of an undisturbed selection add up to the whole selection |
| `TalkGroupService.Service.constructor` | internal/comms/lifecycle.go:320-340 | boot seeds the active channel and runs the streams of receiving ports |
| `TalkGroupService.Service.MarkAndSyncPlayback` | internal/comms/lifecycle.go:115-134 | afterwards exactly the installed streams of receiving ports run |
| `TalkGroupService.Service.SeedActiveChannel` | internal/comms/lifecycle.go:320-340 | the seed is the channel of the first port that has both directions on and belongs to a talk group, and none if there is no such port |
| `TalkGroupService.Service.FindTarget` | internal/comms/service.go:260-272 | the loop finds the first port with that number |
| `TalkGroupService.Service.DisableOthers` | internal/comms/service.go:290-314 | the loop turns every other port off and reports the ports whose receive flag changed, in order |
| `TalkGroupService.Service.ApplyReceivePlayback` | internal/comms/service.go:132-161 | afterwards that port's stream is in line with its flag and nothing else changed |
| `TalkGroupService.Service.Reconcile` | internal/comms/service.go:365-367 | each listed port's stream is brought in line, the others untouched |
| `TalkGroupService.Service.SelectTalkGroup` | internal/comms/service.go:248-370 | it fails, changing nothing, exactly if the channel is none of 1 to 32 or no port has its number; otherwise flags, streams, channel and events are as said flag by flag, the state the small steps reach |
| `TalkGroupService.Service.EnableTalkGroupReceive` | internal/comms/service.go:172-217 | only a real change of the flag touches the stream; an index out of range fails and changes nothing |
| `TalkGroupService.Service.ForwardSelections` | internal/comms/lifecycle.go:413-429 | the channels are selected one after another in order, those not provisioned skipped |
| `FirewallWizard.PreparedIsAlike` | internal/network/uci_firewall.go:615-652 | setting NAT flags and disabling a source's forwardings changes only what the reset would undo |
| `FirewallWizard.MatchSurvivesPreparing` | internal/network/uci_firewall.go:556-590 | the search after preparing finds what the search before it would have found |
| `FirewallWizard.RequestKeepsOldSections` | internal/network/uci_firewall.go:543-608 | a request under an unused name changes only what the reset undoes in old sections and adds at most the new one at the end |
| `FirewallWizard.WellNamedIsFreshAll` | internal/network/uci_firewall.go:592-597 | requests that each find their forwarding or carry an unused name, no name standing for two pairs of zones, never take a used name while they run |
| `FirewallWizard.SearchesIgnoreTail` | internal/network/uci_firewall.go:549-590 | sections that are switched off at the end do not change which section an earlier match returns |
| `FirewallWizard.RequestWithTail` | internal/network/uci_firewall.go:543-608 | a request meets the same sections whether or not its own result stands switched off behind them |
| `FirewallWizard.ReplayMeets` | internal/network/uci_firewall.go:543-608 | replaying requests over the switched-off result of the same requests gives that result |
| `FirewallWizard.DefaultRulesProtectLocalZone` | internal/network/uci_firewall.go:139-169 | eleven rules accept, the first nine of them from the WAN, and the last two drop DHCP requests out of and responses into the local zone |
| `FirewallWizard.DefaultRuleNamesDiffer` | internal/network/uci_firewall.go:139-169 | no two rules have one display name, whatever the local zone is called |
| `FirewallWizard.DefaultRuleProtocols` | internal/network/uci_firewall.go:151-168 | protocol and address family of each of the thirteen rules |
| `FirewallWizard.DefaultRuleZones` | internal/network/uci_firewall.go:151-168 | their source and destination zones |
| `FirewallWizard.DefaultRulePorts` | internal/network/uci_firewall.go:151-168 | their destination ports and targets |
| `FirewallWizard.DefaultRuleRest` | internal/network/uci_firewall.go:139-168 | their addresses, limits and ICMP types |
| `FirewallWizard.RuleOptionByOption` | internal/network/uci_firewall.go:256-315 | a new rule's section has each non-empty field under its option, the ICMP types as given, and nothing else |
| `FirewallWizard.SanitizedReads` | internal/network/uci_firewall.go:176-206 | a sanitised name keeps the letters and digits of the display name in order, capitals as small letters, with single underscores between them and nothing else |
| `FirewallWizard.RuleSectionReads` | internal/network/uci_firewall.go:176-251 | the i-th rule's section is a rule named wizard_rule_, its sanitised display name and i |
| `FirewallWizard.RemoveRulesKeepsOthers` | internal/network/uci_firewall.go:335-350 | the reset keeps exactly the sections that are no rules, in order |
| `FirewallWizard.QuietedOptionByOption` | internal/network/uci_firewall.go:356-391 | it sets enabled 0 on forwardings, takes the two NAT flags from zones, and touches no other option |
| `FirewallWizard.NumbersKeepNamesApart` | internal/network/uci_firewall.go:176-209 | section names with different numbers differ, however their display names sanitise |
| `FirewallWizard.NextRuleNameIsNew` | internal/network/uci_firewall.go:241-251 | the next rule's number is used by no earlier rule |
| `FirewallWizard.AddedRulesAppend` | internal/network/uci_firewall.go:219-231 | on a store without rules every rule becomes one new section, in order and numbered from zero |
| `FirewallWizard.ResetOfRun` | internal/openmanet/server/handlers/setup_phases.go:176-188 | resetting a finished setup gives the first run's starting point followed by the added forwardings, off |
| `FirewallWizard.SetupTwiceIsOnce` | internal/network/uci_firewall.go:335-391 | reset, any list of forwardings under unused names and the rules, done twice, give the configuration of doing them once |
| `FirewallWizard.TakenNameIsRepointed` | internal/network/uci_firewall.go:592-607 | a request whose name an existing forwarding has changes that section's source and destination and no other section |
| `FirewallWizard.RequestFlowsIffFresh` | internal/network/uci_firewall.go:529-608 | with every forwarding off, as after a reset, the requested one ends enabled if and only if it existed or its section name was unused |
| `FirewallWizard.OneRequestRepeatsIffFresh` | internal/network/uci_firewall.go:543-608 | a setup with one forwarding gives the same configuration again if and only if the forwarding existed or its section name was unused |
| `FirewallWizard.SwitchedUplinkIsLost` | internal/openmanet/server/handlers/setup_phases.go:1208-1208 | a second setup that sends the same source to another zone under the same section name leaves the new forwarding off |
| `FirewallWizard.RequestSilencesSource` | internal/network/uci_firewall.go:641-652 | after a request with work to do, everything enabled but one section is untouched and starts at another source |
| `FirewallWizard.RunKeepsSourcesApart` | internal/network/uci_firewall.go:539-541 | whatever names collide, any list of requests leaves at most one enabled forwarding for each source |
| `FirewallWizard.FlowSurvives` | internal/network/uci_firewall.go:641-652 | a request under an unused name leaves the forwardings of other sources enabled |
| `FirewallWizard.SetupLeavesLastRequest` | internal/network/uci_firewall.go:539-608 | after any setup under unused names each source zone has exactly one enabled forwarding, to the last destination requested for it, and none if none was requested |
| `FirewallNat.NatZones` | internal/network/uci_firewall.go:615-636 | only the first zone of that name changes: mtu_fix becomes 1, and masq 1 if and only if asked for, otherwise it stays as it was |
| `FirewallNat.RequestZones` | internal/network/uci_firewall.go:543-636 | a request met by an enabled forwarding changes no zone; any other changes the destination's zone just so and no other zone |
| `FirewallNat.WorkFlagsZones` | internal/network/uci_firewall.go:543-636 | it does so too when it fails afterwards |
| `FirewallNat.AllWork` | internal/network/uci_firewall.go:549-559 | after a reset, requests from different sources all have work to do |
| `FirewallNat.RunZones` | internal/network/uci_firewall.go:543-636 | after any list of requests a zone is clamped or masqueraded exactly if it was or a request with work to do that goes there asked for it, and has no other option changed |
| `FirewallNat.SetupZones` | internal/network/uci_firewall.go:529-636 | after a whole setup a zone is masqueraded exactly if a request to it with work to do asked for NAT, and clamped exactly if there was such a request at all |
| `FirewallNat.SetupMasksIffAsked` | internal/network/uci_firewall.go:529-636 | when the sources differ every request to the zone counts |
| `FirewallLists.FreshAllIffAtStart` | internal/network/uci_firewall.go:543-608 | every request of a list from different sources has its forwarding or an unused name when its turn comes exactly if it has in the store at the start and no two need one name |
| `FirewallLists.TakenNameKills` | internal/network/uci_firewall.go:592-652 | a request that takes a used name leaves a source without an enabled forwarding: that of the section taken, if it was enabled, and its own otherwise |
| `FirewallLists.RunFlowsIffFreshAll` | internal/network/uci_firewall.go:539-608 | with every forwarding off at first and sources pairwise different, all that was requested is enabled in the end if and only if no request took a used name |
| `FirewallLists.SetupFlowsIffFreshAtStart` | internal/network/uci_firewall.go:529-608 | a setup of requests from different sources enables all of them if and only if in the reset store each finds its forwarding or an unused name and no two need one name |
| `FirewallLists.SamePlanIsFreshAll` | internal/network/uci_firewall.go:543-608 | a run of requests with different sources and names that ends with the links it began with found every forwarding |
| `FirewallLists.SetupRepeatsIffFreshAtStart` | internal/network/uci_firewall.go:529-608 | with sources and names pairwise different a setup gives the same configuration again if and only if in the reset store each request finds its forwarding or an unused name |
| `FirewallLists.SharedNamesMayRepeat` | internal/network/uci_firewall.go:592-607 | without different names that fails: two requests for different pairs of zones under the name of the only section, off, repeat although the first name is taken |
| `FirewallLists.TakenNamesMayRepeat` | internal/network/uci_firewall.go:592-607 | and two requests from one source under one name repeat what they leave on an empty store |
| `FirewallStore.UciStore.RemoveAllRules` | internal/network/uci_firewall.go:335-350 | deleting the listed sections from last to first removes exactly the rules and keeps the order of the rest |
| `FirewallStore.UciStore.WhitelistAndDisableForwardings` | internal/network/uci_firewall.go:356-369 | every forwarding ends with enabled 0 and nothing else changes |
| `FirewallStore.UciStore.UnsetMtuFixAndMasq` | internal/network/uci_firewall.go:374-391 | every zone loses both flags and nothing else changes |
| `FirewallStore.UciStore.ResetFirewall` | internal/openmanet/server/handlers/setup_phases.go:176-188 | the three passes compute the reset |
| `FirewallStore.UciStore.ZoneSectionByName` | internal/network/uci_firewall.go:422-436 | the first zone with that name option, or none |
| `FirewallStore.UciStore.SetDestZoneNatOptions` | internal/network/uci_firewall.go:615-636 | only the first zone of that name changes: mtu_fix becomes 1, and masq 1 exactly if asked for, otherwise it stays |
| `FirewallStore.UciStore.DisableOtherForwardingsFromSrc` | internal/network/uci_firewall.go:641-652 | exactly the forwardings of the source are disabled |
| `FirewallStore.UciStore.FindEnabled` | internal/network/uci_firewall.go:554-559 | the first enabled forwarding between the zones, or none |
| `FirewallStore.UciStore.FindForwarding` | internal/network/uci_firewall.go:569-590 | the first forwarding between the zones, or none |
| `FirewallStore.UciStore.GetOrCreateForwarding` | internal/network/uci_firewall.go:543-608 | the call leaves the configuration of the model's request and returns the section it chose; with work to do the destination's zone has mtu_fix 1, masq 1 exactly if asked for and else as it was, and no other zone changes; each failure leaves what was written before it |
| `FirewallStore.UciStore.WriteRule` | internal/network/uci_firewall.go:256-315 | exactly the non-empty fields are written, into that section only |
| `FirewallStore.UciStore.AddAnonymousRule` | internal/network/uci_firewall.go:241-318 | the rule goes to the section named after its number; a section of that name and another type stops it |
| `FirewallStore.UciStore.AddDefaultWanFirewallRules` | internal/network/uci_firewall.go:219-231 | all rules are added in order, or a prefix of them when one fails; an empty zone name changes nothing |
| `FirewallStore.UciStore.RunSetup` | internal/network/uci_firewall.go:529-608 | reset, forwardings in order and rules compute the model's setup of forwardings, so what is proved of it holds of them |
| `FirewallScenarios.SetZoneOption` | internal/network/uci_firewall.go:682-697 | the option is written to the first zone of that name and nothing else; it fails exactly on an empty name or a missing zone and changes nothing |
| `FirewallScenarios.AppendZoneNetwork` | internal/network/uci_firewall.go:708-734 | the network is added behind the zone's others if it is not among them; it fails exactly on an empty argument or a missing zone and changes nothing |
| `FirewallScenarios.PerformStep` | internal/openmanet/server/handlers/setup_phases.go:1184-1225 | a step succeeds exactly if the model's step has an outcome, and leaves it |
| `FirewallScenarios.RunScenario` | internal/openmanet/server/handlers/setup_phases.go:1184-1225 | reset, zones, options, networks, forwardings and rules in order: it succeeds exactly if the model's scenario has an outcome, and leaves it |
| `FirewallScenarios.RunIsFunctional` | internal/openmanet/server/handlers/setup_phases.go:1184-1225 | a scenario has one course from a given configuration |
| `FirewallScenarios.RunGrows` | internal/network/uci_firewall.go:615-734 | over a clean run a section only changes in what the reset undoes and in networks that are added |
| `FirewallScenarios.EnsureBeside` | internal/network/uci_firewall.go:445-500 | where the first run found or made the zone of a network, the second finds it and changes nothing |
| `FirewallScenarios.AppendBeside` | internal/network/uci_firewall.go:708-734 | where the first run added a network, the second finds it there |
| `FirewallScenarios.RequestIgnoresNetworks` | internal/network/uci_firewall.go:543-608 | a request that finds its forwarding changes the same sections in the same way, whatever networks zones list |
| `FirewallScenarios.ForwardBeside` | internal/network/uci_firewall.go:543-608 | where the first run found or made a forwarding, the second run arrives at the same one |
| `FirewallScenarios.RunBeside` | internal/openmanet/server/handlers/setup_phases.go:1184-1225 | step by step the second run stays beside the first, ahead only by what the first has yet to add |
| `FirewallScenarios.ScenarioTwiceIsOnce` | internal/openmanet/server/handlers/setup_phases.go:1184-1275 | a clean scenario with any number of forwardings can be run again, reset first, and every second run ends in the very configuration of the first |
| `FirewallRepeats.HiddenStaysHidden` | internal/network/uci_firewall.go:396-417 | a network hidden behind an unnamed zone is hidden in the second run too |
| `FirewallRepeats.TakenNameEndsOff` | internal/network/uci_firewall.go:592-607 | after a run whose one forwarding took a used name nothing flows between its zones, though the forwarding stands, off |
| `FirewallRepeats.ScenarioRepeatsIffRunClean` | internal/openmanet/server/handlers/setup_phases.go:1184-1275 | a scenario with at most one forwarding can be repeated to the same end if and only if its own run was clean: no ensured zone hidden behind an unnamed one when its turn came, and the forwarding's section name not taken |
| `FirewallRepeats.HiddenIffAtStart` | internal/network/uci_firewall.go:396-417 | steps that only add zones for the networks asked for and append other networks neither hide nor reveal a network |
| `FirewallRepeats.FreshIffAtStart` | internal/network/uci_firewall.go:592-597 | and do not take a section name that extends none of these networks' names |
| `FirewallRepeats.CleanIffAtStart` | internal/openmanet/server/handlers/setup_phases.go:1184-1275 | so whether a step will be clean can be read off the reset store before the run |
| `FirewallRepeats.ScenarioRepeatsIffClean` | internal/openmanet/server/handlers/setup_phases.go:1184-1275 | a scenario with at most one forwarding, under such a name, can be repeated to the same end if and only if on the reset store no ensured network is hidden behind an unnamed zone and the forwarding stands or its section name is unused |
| `FirewallRepeats.WizardStepsAreRepeatable` | internal/openmanet/server/handlers/setup_phases.go:1184-1310 | the router, extender and headless scenarios ensure zones before they forward, set only NAT flags, add no network they ensure and request at most one forwarding, under a name that extends no network's |
| `FirewallRepeats.WizardScenarioRepeatsIffClean` | internal/openmanet/server/handlers/setup_phases.go:1184-1325 | so each of the wizard's scenarios can be run again to the same firewall exactly if the reset store is clean for it, which can be checked before the run |
| `FirewallOutcome.RunFlagsZone` | internal/openmanet/server/handlers/setup_phases.go:1184-1310 | over a whole scenario a zone has a flag in the end exactly if some step set it there |
| `FirewallOutcome.ScenarioFlows` | internal/openmanet/server/handlers/setup_phases.go:1184-1310 | after a scenario with one forwarding traffic flows between no other zones, and between those exactly if it stood or its name was unused at the start |
| `FirewallOutcome.RouterLeaves` | internal/openmanet/server/handlers/setup_phases.go:1184-1225 | a gate's uplink zone and no other is masqueraded, it and the mesh and LAN zones and no others are clamped, a WAN uplink carries wan6 too, and traffic is forwarded from the mesh to the uplink and nowhere else, exactly from a start where the forwarding stood or its name was free |
| `FirewallOutcome.ExtenderLeaves` | internal/openmanet/server/handlers/setup_phases.go:1248-1275 | an extender masquerades no zone, clamps the mesh and LAN zones and no others, and forwards from the mesh to the LAN only |
| `FirewallOutcome.HeadlessLeaves` | internal/openmanet/server/handlers/setup_phases.go:1301-1325 | a headless node does the same to the zones and forwards nothing |
| `FirewallSwitch.SwitchedForwardIsLost` | internal/openmanet/server/handlers/setup_phases.go:1184-1225 | two scenarios that forward from one zone to different ones under one unused name: the first one's forwarding flows, the second one's does not though it stands, and the second cannot be repeated |
| `FirewallSwitch.SwitchedUplinkIsLostInScenario` | internal/openmanet/server/handlers/setup_phases.go:1184-1225 | so, where nothing is forwarded from the mesh yet and the wizard's section name is unused, the router scenario for one uplink followed by the one for the other leaves the mesh without an uplink, and the second does not repeat |
| `FirewallSwitch.RouterHasOutcome` | internal/openmanet/server/handlers/setup_phases.go:1184-1225 | on a store that has the three zones and uses the wizard's names for the wizard's sections only, every router scenario succeeds |
| `FirewallSwitch.SwitchingUplinksLosesThem` | internal/openmanet/server/handlers/setup_phases.go:1184-1225 | so on every such store that forwards nothing from the mesh yet both runs exist and end so |
| `FirewallZones.CandidatesDiffer` | internal/network/uci_firewall.go:470-481 | no two proposed names are the same |
| `FirewallZones.TakenMeans` | internal/network/uci_firewall.go:505-527 | a name is taken exactly by a zone, forwarding or rule section of that name or by a zone whose name option begins with it |
| `FirewallZones.TakenCandidatesAreFew` | internal/network/uci_firewall.go:470-481 | at most two proposals for each section can be taken before a free one, so the search ends |
| `FirewallZones.RepeatChangesNothingIffNamed` | internal/network/uci_firewall.go:445-500 | repeating the call changes nothing if and only if the first zone listing the network, where there is one, has a name |
| `FirewallZones.RepeatReturnsSameName` | internal/network/uci_firewall.go:445-500 | in that case the second call returns the same name |
| `FirewallZones.NewZoneIsFoundByName` | internal/network/uci_firewall.go:467-499 | looking up the name of a created zone finds the created section |
| `FirewallZones.ZoneNameOf` | internal/network/uci_firewall.go:396-417 | the loop returns the name of the first zone listing the network, empty if it has none or there is none |
| `FirewallZones.ZoneNameOrSectionExists` | internal/network/uci_firewall.go:505-527 | the loops answer exactly whether a zone, forwarding or rule section or a zone name is that name |
| `FirewallZones.GetOrCreateZone` | internal/network/uci_firewall.go:445-500 | it ends on every store and returns the known name or adds one zone under the first free proposal, listing the network and accepting input, output and forward; it fails exactly on an empty network or when a section of another type has that name |
| `DhcpPools.FilledOptionByOption` | internal/network/uci_dhcp.go:1088-1132 | a filled pool points at its network and is forced, the extras are as given, any other option it had it keeps, and only where it had none it gets the drawn start, limit 16 and lease time 12h |
| `DhcpPools.ShelvedOptionByOption` | internal/network/uci_dhcp.go:990-1018 | a reset pool keeps start, lease time, limit, interface and options the wizard does not know, and is ignored |
| `DhcpPools.DrawnStarts` | internal/network/random.go:60-62 | the drawn start offsets are 255 and steps of sixteen above it |
| `DhcpPools.FilledTwice` | internal/network/uci_dhcp.go:1088-1132 | filling a filled pool changes nothing, whatever is drawn the second time |
| `DhcpPools.StartIsKept` | internal/network/uci_dhcp.go:1076-1089 | a start offset that is there survives the reset and the next fill; only a missing one is drawn |
| `DhcpPools.RefilledIsFilled` | internal/network/uci_dhcp.go:990-1018 | resetting a filled pool and filling it again gives the same pool |
| `DhcpPools.CallWritesOne` | internal/network/uci_dhcp.go:1147-1199 | a call fills exactly one section, the first that serves the network if any, and leaves the others |
| `DhcpPools.RepeatChangesNothing` | internal/network/uci_dhcp.go:1134-1199 | repeating a call whose extras spare interface and ignore returns the same section and changes nothing, whatever is drawn |
| `DhcpPools.MovedPoolIsNotFound` | internal/network/uci_dhcp.go:1120-1129 | extras that point the pool at another network make the next call on some store add another pool |
| `DhcpPools.SwitchedOffPoolIsPassedOver` | internal/network/uci_dhcp.go:1163-1170 | extras that set ignore make the next call on some store fill another pool |
| `DhcpPools.RepeatsIffExtrasSpareKeys` | internal/network/uci_dhcp.go:1134-1199 | calls can be repeated on every store if and only if the extras spare the interface and do not set ignore |
| `DhcpPools.PoolSetupTwiceIsOnceIffInterfaceKept` | internal/network/uci_dhcp.go:990-1199 | reset and call done twice give the pool and store of doing them once, whatever is drawn, if and only if the extras leave the interface at its network |
| `DhcpPools.TakenPoolNamesAreFew` | internal/network/uci_dhcp.go:1048-1063 | at most one proposal for each section is taken before a free one |
| `DhcpPools.WhitelistAndIgnoreAllPools` | internal/network/uci_dhcp.go:990-1018 | every pool keeps the whitelisted options and those the wizard does not know, is ignored, and no other section changes |
| `DhcpPools.BackfillPoolOptions` | internal/network/uci_dhcp.go:1088-1132 | the writes fill exactly that section; without a random source a pool that lacks a start offset is refused and untouched |
| `DhcpPools.FirstFreePoolIsUnique` | internal/network/uci_dhcp.go:1046-1063 | there is one first free proposal |
| `DhcpPools.NextPoolName` | internal/network/uci_dhcp.go:1046-1063 | the loop ends on every store, at the first proposal that is free |
| `DhcpPools.CreateDhcpPool` | internal/network/uci_dhcp.go:1034-1074 | it adds one filled pool under the first free name; each of the three errors comes back exactly on its condition and changes nothing |
| `DhcpPools.GetOrCreateDhcpPool` | internal/network/uci_dhcp.go:1147-1199 | a successful call is the model's call; each failure comes back exactly on its condition, and without a random source a switched-off pool is left on but unfilled |
| `Sessions.RunStaysBounded` | internal/auth/session.go:41-60 | in every reachable state the store holds at most maxSize sessions, or one if maxSize is below one |
| `Sessions.LimitHoldsIffPositive` | internal/auth/session.go:49-51 | no run exceeds maxSize if and only if maxSize is at least one |
| `Sessions.EvictionNeedsOthers` | internal/auth/session.go:126-142 | a session is evicted only when all others stored were accessed since |
| `Sessions.RecentSessionIsKept` | internal/auth/session.go:41-82 | an unexpired session nobody deleted stays stored while fewer than maxSize other sessions have been created or validated since its access |
| `Sessions.RecentSessionValidates` | internal/auth/session.go:64-82 | so its next validation in time succeeds |
| `Sessions.CreationTimeStays` | internal/auth/session.go:64-82 | in every run what is stored under an issued token was created when it was issued, however often it was validated since |
| `Sessions.ValidatesIffInTime` | internal/auth/session.go:64-82 | in every run a validation accepts a token exactly if it is still stored and no more than maxAge has passed since it was issued; a later one touches nothing and leaves it unstored |
| `Sessions.CleanupKeepsIffInTime` | internal/auth/session.go:94-104 | in every run a cleanup leaves exactly what was stored and was issued no more than maxAge before |
| `Sessions.StoreIsMostRecent` | internal/auth/session.go:126-142 | while nothing is deleted or expires, a session is stored if and only if fewer than maxSize sessions were accessed after it |
| `Sessions.SessionStore.EvictOldest` | internal/auth/session.go:126-142 | scanning in any order removes a session of oldest access, and nothing from an empty store |
| `Sessions.SessionStore.Create` | internal/auth/session.go:41-60 | the new session is stored; a full store first loses one session, of least last access, and no other |
| `Sessions.SessionStore.Validate` | internal/auth/session.go:64-82 | it returns the session with its access moved to now exactly if it is stored and was created no more than maxAge ago; otherwise the token is not stored afterwards |
| `Sessions.SessionStore.Delete` | internal/auth/session.go:85-90 | exactly that session is removed |
| `Sessions.SessionStore.Cleanup` | internal/auth/session.go:94-104 | exactly the sessions created no more than maxAge ago are left, unchanged |
| `RateRing.AnchorIsUnique` | internal/blos/status_worker.go:297-313 | a look-back has one anchor |
| `RateRing.AnchorIsOldestInWindow` | internal/blos/status_worker.go:297-313 | while the clock does not step back the anchor is the oldest remembered sample inside the window |
| `RateRing.RatesTimesElapsed` | internal/blos/status_worker.go:315-334 | a rate times the time that passed is what its own counter grew by, 0 if it fell; without time both rates are 0, and the totals are the newest |
| `RateRing.PushHolds` | internal/blos/status_worker.go:265-270 | writing the next slot keeps the last sixteen samples in theirs |
| `RateRing.StreakIsUnbroken` | internal/blos/status_worker.go:220-226 | connected-since is the time of the first poll of the current unbroken run of polls with the backend running, absent when the last was not |
| `RateRing.StatusWorker.FetchAndStoreStatus` | internal/blos/status_worker.go:206-249 | a fetched status extends the history with ring and mark kept in line; a failed fetch changes nothing |
| `RateRing.StatusWorker.Stop` | internal/blos/status_worker.go:162-181 | stopping a running worker forgets the history, ring and mark included; a stopped one keeps it |
| `RateRing.StatusWorker.RateWindow` | internal/blos/status_worker.go:277-334 | rx and tx rate are what those counters grew by from the history's anchor to its newest sample over the time between, a counter that went back or no time giving 0; totals are the newest |
| `RateRing.StatusWorker.FindAnchor` | internal/blos/status_worker.go:297-313 | the backward walk through the ring finds the history's anchor |
| `PcmRing.AvailIsHeld` | frontend/src/services/ringBuffer.js:86-90 | the index difference modulo the size is the number of samples held |
| `PcmRing.StoreKeepsSafe` | frontend/src/services/ringBuffer.js:124-127 | writing a slot ahead of the published index disturbs no slot the reader may read |
| `PcmRing.PublishKeepsSafe` | frontend/src/services/ringBuffer.js:128-128 | publishing makes exactly the written frame readable |
| `PcmRing.CopyKeepsSafe` | frontend/public/pcm-worklet.js:36-36 | each copied slot holds the next accepted sample |
| `PcmRing.ReleaseKeepsSafe` | frontend/public/pcm-worklet.js:37-37 | advancing the read index releases exactly what was copied |
| `PcmRing.StepKeepsSafe` | frontend/src/services/ringBuffer.js:113-136 | every step of either thread keeps all of this |
| `PcmRing.RunIsSafe` | frontend/public/pcm-worklet.js:22-49 | so does every interleaving |
| `PcmRing.PlaybackIsFifo` | frontend/public/pcm-worklet.js:22-49 | in every interleaving what was played is a prefix of what was accepted, with fewer than the ring's size outstanding |
| `PcmRing.PlayedAndPaddedIsAsked` | frontend/public/pcm-worklet.js:33-43 | between callbacks played plus underrun is what was asked for since the gate opened, and accepted plus dropped frames are the frames offered |
| `PcmRing.GateStaysOpen` | frontend/public/pcm-worklet.js:44-47 | the prefill gate never closes again |
| `PcmRing.GateOpensAtPrefill` | frontend/src/services/ringBuffer.js:130-135 | in every interleaving, between frames, the gate is open exactly if 11520 samples have been accepted, and before it opens nothing is played or counted as underrun |
| `PcmRing.OfferTakesIffRoom` | frontend/src/services/ringBuffer.js:113-121 | a frame is taken up exactly if it fits beside the slot that stays free, and counted as dropped otherwise |
| `PcmRing.LoneWriterFinishes` | frontend/src/services/ringBuffer.js:113-136 | a frame that fits is accepted by the writer's own next steps, the gate is open then if it was or 11520 samples are held, and nothing of the reader's changes |
| `PcmRing.LoneReaderFinishes` | frontend/public/pcm-worklet.js:22-49 | a callback after the gate opened is answered by the reader's own next steps: it plays what is held as far as asked, counts the rest as underrun, and changes nothing of the writer's |
| `PcmRing.IndicesCountIffSlotFree` | frontend/src/services/ringBuffer.js:92-99 | the indices count the held samples if and only if one slot is left free |
| `PcmRing.SharedRing.RingWrite` | frontend/src/services/ringBuffer.js:113-136 | a frame is accepted whole if it fits beside the reserved slot and dropped whole otherwise; the gate opens once enough is held |
| `PcmRing.SharedRing.Process` | frontend/public/pcm-worklet.js:22-49 | the output is the next held samples in order followed by silence, counted as underrun; before the gate opens it is silence and nothing moves |

## Left out

- UCI parsing, commit and reload: configuration is an ordered store of sections with unique names; positional references to anonymous sections, and whether an option is stored as a list, are not modelled.
- Adding a section that exists with the same type does nothing: the UCI library is not part of this model, so this follows the comment and the test double in the repository. Read and write errors of the store are not modelled in the firewall passes.
- Stale gossip rows at mesh level: there a node sees the current row of every configured peer. A tick on one node starts from any stored table and sweeps it.
- SelectAvailableStaticIPFromNodeData: its address is any address carried by no row, and running out of addresses is a failed claim. The mesh never runs out in this model; gateways pick among 254 addresses, so 2114 and 4095 are about windows alone.
- A claim that fails after its address was written counts as no move at mesh level; `ApplyReservation` says what one node is left with.
- Address ownership by several interface addresses at mesh level: one mesh address for each node. `FindConflicts` takes any number.
- Unicode case folding: lower-casing is ASCII, which is all MAC addresses and network names use.
- Integer widths: gossiped DHCP values, counters and byte totals are unbounded. Loss ratios and rates are reals, without rounding.
- Failing device starts and stops, beep timers and playback buffers: starting or stopping a stream always succeeds and is idempotent.
- Direction events of per-port toggles, and the sender's side of them, do not enter the event chain; `SelectionsKeepPromiseIffCleanBoot` is about runs of selections only.
- SetupTwiceIsOnce: for lists that name a source twice unused names are sufficient and, by `TakenNamesMayRepeat`, not necessary; the exact condition for those is not worked out. `SetupRepeatsIffFreshAtStart` has it for different sources and names, `ScenarioRepeatsIffClean` for the wizard's scenarios.
- SetupRepeatsIffFreshAtStart: names must be given and differ; where requests of different sources share one, or leave it to the wizard, only `SetupFlowsIffFreshAtStart` (for given names) and `SetupTwiceIsOnce` speak. The wizard requests at most one forwarding in a run.
- SetupLeavesLastRequest: assumes unused names; `SetupFlowsIffFreshAtStart` has the exact condition for different sources.
- ScenarioTwiceIsOnce: the steps of a scenario outside the firewall (interfaces, bookkeeping) are not part of it; pools are in `DhcpPools`.
- The random source of the pools is an input: one draw a call, or none when there is no source.
- RecentSessionIsKept: assumes a strictly increasing clock and tokens that are never issued twice. Validate reads the clock twice in the source and once here.
- RateWindow: two reads of the clock in one poll are one. Totals of a status are an input.
- Status events, keepalives and listeners of the status worker; the callback it runs.
- RunIsSafe: one writer and one reader; atomics are sequentially consistent. Resetting the ring between playbacks is not modelled, and one read of the other thread's index stands for each use the two programs make of it.
- The mesh-neighbor index, VXLAN peer sync, PTT transmit state machine and RemoteRxActive cache: easier members, or without a clean invariant under fine interleaving.
- HTTP handlers, authentication beyond the session store, TLS, web sockets, camera and position I/O, the user interface, configuration files and logging.
