# Almanaut: a verified model

Almanaut keeps the inventory of a home lab: hosts, networks, ports, services.
This project models the parts of it that decide something difficult, and proves
what they are relied on for.

- **Addresses and occupancy** (`Bytes`, `Masks`, `Address`, `Ipam`, `Attribution`, `Usage`,
  `Discovery`, `IpamConflicts`). Addresses are byte strings that a walk increments
  in place. The walks are proved against sets and ranges of 128-bit numbers: the
  lowest free address, the reserved set, longest-prefix attribution, the counts of
  the occupancy report, and the agreement of two independent expansions.
- **Uptime Kuma synchronisation** (`KumaPlan`, `KumaSync`). A plan over three maps,
  executed against a remote server with any outcome at each action, death in the
  middle and users' own changes in between included. No monitor that its own table
  does not name is ever touched, and from whatever is left behind a pass that succeeds converges.
- **Cabling and snapshots** (`Ports`, `PortLinks`, `Cabling`, `Tables`, `Tags`,
  `Portability`). Port links as a symmetric matching kept by updates of several
  rows, and an import that must re-establish it, and every other reference, from
  an arbitrary file.
- **Queues and triggers** (`Webhook`, `Job`). Goroutines as interleaved atomic
  steps over bounded channels, a wait group and timers. The queue drains under
  every schedule, no trigger is lost (`TriggerIsServed`), and a burst of triggers
  gives one pass (`BurstGivesOnePass`).
- **Agents** (`AgentApi`, `AgentBinding`). The fingerprint and its parser, the
  decision which host a report belongs to, and the transactions around it.
- **Graph and window** (`Impact`, `Throttle`). Breadth-first impact analysis, and
  the login throttle's promise over every window of every run.

`Sorting`, `Listing`, `Text` and `Wrappers` hold what several modules share. Methods
follow the program's loops and in-place updates; each is proved equal to a specification
function, and the lemmas say what that function means: what it gives for which input,
in the input's own terms, and what it leaves as it was. Runs are sequences of
operations, events or steps, and a theorem about runs covers every such sequence.

Where the code does less than one might expect, the exact boundary is proved:

- An IPv6 CIDR inside the IPv4-mapped block is treated differently by the scanner
  and the occupancy report (`ExpandAgreesExactly`), wins attribution over smaller
  IPv4 blocks (`WinnerInnermostExactly`), and is not recognised as the same block as
  its IPv4 form (`SameBlockExactly`).
- Reservations in a network of 17 to 30 host bits are not counted: its numbers
  account for used and reserved addresses only when hosts use every reserved one
  (`AccountingExactly`, `LargeBlockUnseen`).
- The throttle's clean-up forgets failures that an idle entry was counting, so a
  later lock can come later (`CleanupUnnoticedExactly`, `CleanupDelaysLock`).
- A port with id 0, which only an imported file can bring, cannot be named back, so
  cabling it breaks the symmetry of links (`RewiredMatchesExactly`,
  `PairedMatchesExactly`), though an export and import leave it as it is; a cabled
  port with a negative id makes the next import of an export fail validation
  (`ReimportExactly`, `NegativeIdSpoils`).
- Whether a file with a dangling cable is accepted depends on the order of its port
  rows (`PairableMeaning`, `OrderMatters`).
- `NormalizeTag` strips one hash at a time, so a stored name that begins with a hash
  does not survive an export and import (`RoundTripExactly`, `TwoHashes`). A tag `##`
  is stored as `#`, and tags `##x` and `x` of one entity as `#x` and `x`; in both cases
  the import refuses every later export (`ReimportExactly`, `AddedHashSpoils`,
  `TwoHashesSpoil`, `HashedTwinSpoils`).
- With more retries than 63 bits allow, the webhook backoff wraps
  (`BackoffsExactly`, `LongRetriesWrap`).

`dafny verify dfyconfig.toml` checks everything.

## Model

| member | source | states |
|---|---|---|
| `Bytes.IncIP` | internal/domain/ipam.go:289-296 | the bytes are bumped in place from the right until one does not wrap; the new contents are the carry of the old ones |
| `Bytes.IncrementedValue` | internal/domain/ipam.go:289-296 | the byte-wise carry is +1 modulo 256^n of the numeric value, all-ones going to zero |
| `Address.StepInBlock` | internal/domain/ipam.go:232-241 | one increment inside a block of fewer than 32 host bits gives the next address or leaves the block, and never re-enters it by wrapping |
| `Address.BlockEnd` | internal/domain/ipam.go:232-241 | such a block fits the byte strings of its family and does not fill them, so the walk has somewhere to leave to |
| `Bytes.CompareIsNumeric` | internal/domain/ipam.go:252-286 | comparing byte strings of one length is comparing their numbers |
| `Address.KeyInjective` | internal/domain/ipam.go:96-125 | the 128-bit number that stands for an address string determines the address |
| `Masks.MaskedValue` | internal/domain/ipam.go:215-244 | masking with a prefix rounds the address down to a multiple of the block size |
| `Masks.LastValue` | internal/domain/ipam.go:215-244 | the complement of the mask or-ed onto the base is the last address of the block |
| `Address.ContainsIsRange` | internal/domain/ipam.go:101-111 | membership by masked bytes, with Go's conversions between 4 and 16 bytes, is membership in a range of one family |
| `Address.BlockAligned` | internal/domain/ipam.go:87-129 | a block starts at a multiple of its size, also as a range of 128-bit numbers |
| `Address.NestedOrDisjoint` | internal/domain/ipam.go:87-129 | two blocks that share an address are nested (section 3.1 of RFC 4632) |
| `Address.SmallBlockOneFamily` | internal/domain/ipam.go:162-175 | in a block of at most 32 host bits the range alone decides membership |
| `Ipam.NextFree` | internal/domain/ipam.go:215-244 | the in-place walk ends on every block, also at the top of the address space, and returns the lowest free address |
| `Ipam.LowestFreeMeaning` | internal/domain/ipam.go:215-244 | that address is usable, not taken and numerically least; there is none exactly when every usable address is taken |
| `Ipam.ReservedAddrs` | internal/domain/ipam.go:252-286 | in a block of at most 16 host bits, exactly its addresses inside some reservation's inclusive range in 128-bit order: clamping, reversed ranges, unparseable ends and the address cap neither lose nor add one; in a larger block, nothing |
| `Ipam.ReserveOne` | internal/domain/ipam.go:262-284 | one reservation adds its part of the block to the set, whatever its ends |
| `Attribution.Attribute` | internal/domain/ipam.go:87-129 | the tables of the whole run, or of one network and the unassigned list, are the claims of the hosts that each block wins; which claims these are `ClaimsMeaning` says, and who wins them `WinnerMeaning` |
| `Attribution.ClaimsMeaning` | internal/domain/ipam.go:105-126 | the claims are the parseable IPs of every host, all of them, each once and under its own host, in the order of hosts and of their IPs |
| `Attribution.ClaimedExactly` | internal/domain/ipam.go:105-126 | an entry is among them exactly when some parseable IP of some host makes it |
| `Attribution.FindBest` | internal/domain/ipam.go:105-116 | the inner loop finds the longest containing prefix, first listed on ties |
| `Attribution.WinnerMeaning` | internal/domain/ipam.go:105-116 | the winner contains the address, no containing network has a longer prefix, none with the same is listed earlier; no winner exactly when none contains it |
| `Attribution.WinnerInnermostExactly` | internal/domain/ipam.go:105-116 | the winner is the innermost containing block exactly when no IPv4-mapped IPv6 CIDR holds the address or one that does is innermost |
| `Attribution.MappedWinsOverSmaller` | internal/domain/ipam.go:105-116 | a mapped /96 that wins an address over the IPv4 /24 inside it |
| `Attribution.InnermostIsInside` | internal/domain/ipam.go:105-116 | the innermost block lies inside every other block that contains the address |
| `Attribution.AttributionPartitions` | internal/domain/ipam.go:87-129 | each of the given claims occurs in the unassigned list and the networks' lists together as often as among the claims |
| `Attribution.EveryHostIPOnce` | internal/domain/ipam.go:87-129 | over hosts and networks: an entry occurs in the list of the network that wins its address (or among the unassigned) exactly as often as IPs of hosts make it, in no other list, and so in all lists together: none lost, none doubled, none misplaced |
| `Attribution.ListedExactly` | internal/domain/ipam.go:87-129 | an entry is in a network's list exactly when the network wins its address and some host has it |
| `Attribution.AttributedInBlock` | internal/domain/ipam.go:87-129 | a network's list holds exactly the claims it won, all inside its block |
| `Usage.BuildUsage` | internal/domain/ipam.go:144-199 | the entry has the sorted allocations, the conflicts, the reservations and the capacity of the specification; what each of them is the rows below say |
| `Usage.Measure` | internal/domain/ipam.go:161-197 | the capacity half equals the specification, whose numbers and suggestion `NumbersMeaning`, `UnboundedExactly` and `NextFreeMeaning` tell |
| `Usage.SortAllocsCorrect` | internal/domain/ipam.go:300-312 | the sort keeps every allocation and orders them by address, and by host name where addresses collide |
| `Usage.SortAllocsStable` | internal/domain/ipam.go:300-312 | entries with one address and one host name keep their order |
| `Usage.ConflictsComplete` | internal/domain/ipam.go:144-160 | an address is listed as a conflict exactly when two or more allocations share it |
| `Usage.ConflictsSound` | internal/domain/ipam.go:144-160 | every conflict is all the allocations of one address, at least two |
| `Usage.ConflictsInOrder` | internal/domain/ipam.go:144-160 | the conflicts are the addresses with two entries or more in the order of their first entries, each with all its entries in order |
| `Usage.AccountingExactly` | internal/domain/ipam.go:161-197 | used plus reserved is the size of the union of all used and all reserved addresses, and the free count is the usable addresses in neither, less those of the union on the two ends (so at most two short and exact when the ends are clear), exactly when the block has at most 16 host bits or hosts use every reserved address |
| `Usage.LargeBlockUnseen` | internal/domain/ipam.go:161-197 | a wholly reserved /8 without hosts: nothing is counted as reserved and everything as free |
| `Usage.NextFreeMeaning` | internal/domain/ipam.go:176-197 | up to 16 host bits nothing is suggested exactly when no address is open, and a suggestion is the least open one; in a larger block nothing is suggested. Open is an address of the block, not first or last of an IPv4 block above a /31, that no host has, that no reservation covers and that is not the gateway |
| `Usage.NeverSuggested` | internal/domain/ipam.go:176-197 | neither the gateway nor an address in use or set aside is ever suggested |
| `Usage.NumbersMeaning` | internal/domain/ipam.go:161-197 | the used, usable and reserved counts are the sizes of the sets of addresses of the block that hosts have, that hosts may have, and (up to 16 host bits) that are set aside and unused; the free count is the rest, at least 0 |
| `Usage.UnboundedExactly` | internal/domain/ipam.go:161-175 | a network is unbounded exactly from 31 host bits on; then, and without a CIDR, nothing is counted or suggested |
| `Usage.ReservationsMeaning` | internal/domain/ipam.go:132-140 | exactly the network's own reservations, in order |
| `Usage.BuildIPAM` | internal/domain/ipam.go:44-51 | the report is one entry for each network, in order, and the sorted unassigned claims |
| `Usage.EntriesInOrder` | internal/domain/ipam.go:44-51 | entry i is network i's own usage |
| `Usage.EntryMeaning` | internal/domain/ipam.go:44-51 | entry i is the usage of network i by exactly what hosts make of the addresses it wins, as often as they make it, in the report's order, and by its own reservations |
| `Usage.UnassignedMeaning` | internal/domain/ipam.go:44-51 | the unassigned list is what hosts make of addresses in no network, as often as they make it, in the report's order |
| `Usage.BuildNetworkUsage` | internal/domain/ipam.go:59-75 | for the first network with the id, exactly that network's entry of the full report; nothing exactly when no network has it |
| `Usage.ReportAccountingExactly` | internal/domain/ipam.go:44-51 | in every report a bounded network's numbers account for its own attributed and reserved addresses exactly then |
| `Discovery.ExpandCIDR` | internal/discovery/network.go:124-152 | the walk ends and lists the block, less its ends when those are dropped; the three errors in the order checked |
| `Discovery.ExpandedIncreasing` | internal/discovery/network.go:124-152 | the list is strictly increasing and inside the block |
| `Discovery.ExpandAgreesExactly` | internal/discovery/network.go:124-152 | scanner and occupancy report agree on the usable addresses, and on their number, exactly when the CIDR is not an IPv6 one inside the IPv4-mapped block with two host bits or more |
| `Discovery.ExpandDisagrees` | internal/discovery/network.go:124-152 | the IPv4-mapped block itself, where the two differ by both ends |
| `Discovery.NextFreeIsFirstExpanded` | internal/discovery/network.go:124-152 | where they agree, the suggested address is the first expanded one that is not taken |
| `IpamConflicts.SameBlockExactly` | internal/domain/ipam_conflicts.go:141-145 | two networks reported as one block have one address set; two with one address set are reported exactly when their CIDRs are comparable |
| `IpamConflicts.IntersectingIsNested` | internal/domain/ipam_conflicts.go:92-116 | blocks that intersect without being equal are strictly nested |
| `IpamConflicts.TwoFormsMissed` | internal/domain/ipam_conflicts.go:141-145 | two CIDRs of one address set, in 4-byte and mapped form, that are not reported |
| `IpamConflicts.TwinsMissed` | internal/domain/ipam_conflicts.go:141-145 | two 16-byte CIDRs of one address set that are not reported |
| `IpamConflicts.OverlappingNetworks` | internal/domain/ipam_conflicts.go:96-116 | the nested loops give the pairs of the specification, in listing order |
| `IpamConflicts.WithCIDRMeaning` | internal/domain/ipam_conflicts.go:96-106 | the networks compared are exactly those with a valid CIDR, in order |
| `IpamConflicts.PairsInOrder` | internal/domain/ipam_conflicts.go:106-116 | the pairs stand in listing order by their first and then their second network, each once |
| `IpamConflicts.OverlapPairsSound` | internal/domain/ipam_conflicts.go:96-116 | every reported pair is two listed networks with one address set |
| `IpamConflicts.PlainBlocksExact` | internal/domain/ipam_conflicts.go:141-145 | between CIDRs written in one form, being reported is having one address set |
| `IpamConflicts.OverlapPairsComplete` | internal/domain/ipam_conflicts.go:96-116 | a pair with comparable CIDRs is reported exactly when it has one address set |
| `IpamConflicts.NetworkOverlaps` | internal/domain/ipam_conflicts.go:121-136 | the loop over the other networks gives the specification's list |
| `IpamConflicts.OverlapsInOrder` | internal/domain/ipam_conflicts.go:121-136 | exactly the networks with another id that share the target's block, in order |
| `IpamConflicts.OverlapViewsAgree` | internal/domain/ipam_conflicts.go:121-136 | it is precisely the other half of the reported pairs that contain the target |
| `IpamConflicts.DuplicateIPs` | internal/domain/ipam_conflicts.go:54-82 | the report holds each duplicated address once, in address order, with the first claim of each host |
| `IpamConflicts.DuplicateMeaning` | internal/domain/ipam_conflicts.go:54-82 | an address is duplicated exactly when two different hosts claim it |
| `IpamConflicts.ConflictOfMeaning` | internal/domain/ipam_conflicts.go:54-82 | a duplicate's entry lists, for each host that claims the address, its first claim and only that, ordered by name |
| `IpamConflicts.DuplicateReportMeaning` | internal/domain/ipam_conflicts.go:54-82 | an address has an entry exactly when two different hosts claim it, and the entries ascend by address |
| `IpamConflicts.OutsideNetworks` | internal/domain/ipam_conflicts.go:87-90 | exactly the claims that no network contains, in address order |
| `KumaPlan.MakePlan` | internal/kuma/reconcile.go:29-81 | the loops over sorted ids give the plan and the skipped count of the specification; `PlanExactly`, `PlanInOrder` and `SkippedMeaning` tell what these are |
| `KumaPlan.PlanMeaning` | internal/kuma/reconcile.go:29-81 | one action for each service id that needs one, the one it needs, and no other action |
| `KumaPlan.PlanExactly` | internal/kuma/reconcile.go:29-81 | which creates, edits, deletes and forgets are planned, each told by the mapping, the live monitors and what is wanted; an edit has the wanted name and URL and the live monitor's own other settings |
| `KumaPlan.PlanInOrder` | internal/kuma/reconcile.go:43-81 | services with a row come first, then those without, each in ascending order of ids |
| `KumaPlan.PlanEmptyExactly` | internal/kuma/reconcile.go:29-81 | there is nothing to do exactly when the mapped services are the monitorable ones, each with a live monitor of the wanted name and URL |
| `KumaPlan.DesiredMeaning` | internal/kuma/reconcile.go:31-39 | a service is wanted exactly when an entry with its id has a monitor URL |
| `KumaPlan.DesiredIsLast` | internal/kuma/reconcile.go:31-39 | of several entries with one id and a URL the last is wanted, with its name and URL |
| `KumaPlan.SkippedMeaning` | internal/kuma/reconcile.go:31-39 | the skipped count is the number of entries without a URL |
| `KumaSync.Syncer.Reconcile` | internal/kuma/syncer.go:134-216 | a pass that cannot list services, read the mapping or connect records only its error; any other leaves the world its outcomes lead to (`MonitorsAfter`, `RowsAfter`, `PassKeepsRaw`), tallies them (`TallyMeaning`) and records the summary |
| `KumaSync.TallyMeaning` | internal/kuma/syncer.go:164-214 | the summary counts the adds, edits and deletes that succeeded, and is an error exactly when something failed |
| `KumaSync.Syncer.Execute` | internal/kuma/syncer.go:164-214 | one action with any outcome, cancellation and every partial failure included, has the specified effect on monitors and mapping |
| `KumaSync.Syncer.DoCreate` | internal/kuma/syncer.go:170-192 | add, record, and delete again when recording fails |
| `KumaSync.Syncer.DoDelete` | internal/kuma/syncer.go:199-207 | the monitor goes before its row, and the row stays when either fails |
| `KumaSync.StepKeepsInv` | internal/kuma/syncer.go:164-214 | whatever a step's outcome, the mapping stays injective and names only monitors the syncer created |
| `KumaSync.MonitorsAfter` | internal/kuma/syncer.go:164-214 | what becomes of each monitor in a step under each outcome, acknowledged or not |
| `KumaSync.RowsAfter` | internal/kuma/syncer.go:164-214 | a row is written once its monitor is there and removed once it is gone or known to be; nothing else touches a row |
| `KumaSync.HistoryVariables` | internal/kuma/syncer.go:164-192 | the loss count and the created ids of a pass are exactly its outcomes' lost acknowledgements and failed cleanups, and its adds |
| `KumaSync.StepTouchesManaged` | internal/kuma/syncer.go:164-214 | no monitor outside the mapping is edited or deleted, except one created in that very step |
| `KumaSync.StepLeftovers` | internal/kuma/syncer.go:164-192 | a step leaves an unmanaged monitor behind only with a lost acknowledgement or a failed cleanup, and at most one |
| `KumaSync.RunKeepsInv` | internal/kuma/syncer.go:142-216 | the invariant and the bound on leftovers hold wherever a pass stops |
| `KumaSync.PassTouchesOnlyManaged` | internal/kuma/syncer.go:142-216 | over any prefix of a pass and any failures, a monitor that no row named before it is left exactly as it was |
| `KumaSync.PassKeepsRaw` | internal/kuma/reconcile.go:54-60 | over any prefix of a pass and any failures, a monitor that is live before and after has every setting it had but name and URL |
| `KumaSync.HistoryKeepsRaw` | internal/kuma/reconcile.go:54-60 | so over any number of passes, dying anywhere, from the moment one plans, for as long as users leave that monitor alone |
| `KumaSync.PassConverges` | internal/kuma/syncer.go:142-216 | from any state an aborted pass can leave, a pass whose operations all succeed ends with exactly the monitorable services mapped, injectively, to live monitors as wanted, and planning again finds nothing |
| `KumaSync.HistoryKeepsSound` | internal/kuma/syncer.go:142-216 | over every history, passes dying anywhere and users changing monitors between and during them, the mapping stays injective over monitors the syncer created, what a pass has still to do stays within its own rows, and leftovers are at most the lost acknowledgements and failed cleanups |
| `KumaSync.NeverTouchesUnnamed` | internal/kuma/syncer.go:142-216 | over every such history, once no row names a monitor no row ever names it again, and only its users change it; the syncer's own leftovers included |
| `KumaSync.NeverTouchesOthers` | internal/kuma/syncer.go:142-216 | so a monitor that the syncer did not create is never edited or deleted by it |
| `KumaSync.EveryHistoryConverges` | internal/kuma/syncer.go:134-216 | after every such history, the next undisturbed, fully successful pass converges as above, with the bound on leftovers |
| `Impact.Impact` | internal/store/impact.go:13-51 | on any graph the search ends with exactly the entities that depend on the start through one or more edges, never the start, each once, in order of distance, which is exact |
| `Impact.RefKeyInjective` | internal/store/impact.go:14 | distinct entities have distinct "type:id" keys, whatever their types and ids |
| `Impact.IndexDependents` | internal/store/impact.go:24-31 | the index lists each key's direct dependents over dependency kinds, in listing order |
| `Impact.DependentsMeaning` | internal/store/impact.go:24-31 | listed under an entity's key are exactly its direct dependents |
| `Impact.DependentsInOrder` | internal/store/impact.go:24-31 | the list of a key is the origins of the dependency edges to it, one for each edge, in listing order |
| `Impact.DependencyKindsMeaning` | internal/domain/relationship.go:9-19 | of the eight relationship kinds all are dependencies but "backed up by", "administered by" and "owned by", and nothing else is |
| `Impact.EdgeDirection` | internal/domain/relationship.go:11-19 | what runs on a host depends on the host, and not the host on it |
| `Impact.Visit` | internal/store/impact.go:37-49 | processing one entity enqueues its unvisited dependents, each one step further, and keeps the frontier in order |
| `Throttle.LoginThrottle.Allowed` | internal/web/throttle.go:61-72 | an attempt is refused exactly while the key is locked, with the time until the lock ends |
| `Throttle.LoginThrottle.RecordFailure` | internal/web/throttle.go:77-92 | the key's entry counts one more failure, or locks and starts over at the threshold; no other entry changes |
| `Throttle.LoginThrottle.RecordSuccess` | internal/web/throttle.go:96-100 | the key's entry, and only that, is gone |
| `Throttle.LoginThrottle.Cleanup` | internal/web/throttle.go:105-116 | exactly the unlocked entries idle for a cooldown are dropped, in any order of visiting |
| `Throttle.KeyExactly` | internal/web/throttle.go:51-55 | two usernames share an entry exactly when, trimmed, they differ in the case of letters at most |
| `Throttle.KeyOfVariant` | internal/web/throttle.go:51-55 | white space around a username and the case of its letters make no difference |
| `Throttle.FailedExactly` | internal/web/throttle.go:77-92 | a failure locks its entry for one cooldown from now exactly when it completes the threshold, counts otherwise, and touches no other entry |
| `Throttle.CleanedExactly` | internal/web/throttle.go:105-116 | an entry outlives a clean-up exactly while it is locked or was seen within one cooldown |
| `Throttle.WindowBound` | internal/web/throttle.go:61-116 | in every sequential run with a non-decreasing clock, any stretch without a success for a key has at most threshold failures of it in any half-open window of one cooldown |
| `Throttle.RunTracks` | internal/web/throttle.go:77-116 | what the table keeps of a key's failures: all but the latest few lie a cooldown before the clock or the lock's end |
| `Throttle.BurstLegalExactly` | internal/web/throttle.go:77-92 | the bound is reached: n failures at one instant are possible exactly when n is at most the threshold |
| `Throttle.LockEnds` | internal/web/throttle.go:61-92 | no lock outlasts one cooldown from the latest instant |
| `Throttle.CleanupUnnoticedExactly` | internal/web/throttle.go:105-116 | a clean-up inserted into a run changes no later answer, over any continuation, exactly when no entry it drops was counting failures (or the cooldown is not positive); with a threshold of at most one it never does |
| `Throttle.CleanupDelaysLock` | internal/web/throttle.go:105-116 | two failures that lock the user, and do not with a clean-up between them |
| `Job.Job.Request` | internal/job/job.go:107-120 | a trigger fills the one slot, and a full slot swallows it |
| `Job.Job.Select` | internal/job/job.go:151-160 | the select takes one ready case and otherwise stays |
| `Job.Job.BeginPass` | internal/job/job.go:179-183 | a pass begins: the running flag is set |
| `Job.Job.EndPass` | internal/job/job.go:167-207 | a pass ends: counted once, its error recorded, a panic being one |
| `Job.TriggerByName` | internal/job/job.go:107-120 | the first job with the name is asked for a pass and no other changes; false exactly when there is none |
| `Job.Dispatch` | internal/kuma/syncer.go:80-87 | a batch of events with a service event asks for one pass, any other for none |
| `Job.TriggerIsServed` | internal/job/job.go:107-160 | after a trigger, until a pass begins, the request is buffered or about to run, the goroutine has taken at most two steps and, unless cancelled, has another: no trigger is lost |
| `Job.BurstGivesOnePass` | internal/job/job.go:104-120 | any number of triggers during a pass gives exactly one further pass |
| `Job.PassesNeverOverlap` | internal/job/job.go:141-207 | the counters keep step: passes begun are those finished and counted, plus the running one |
| `Job.PassesConserved` | internal/job/job.go:107-160 | passes begun plus passes owed is what was owed at first plus the triggers and ticks that found their slot empty |
| `Job.FirstPassAtOnce` | internal/job/job.go:141-142 | until the first pass begins it may begin, and the goroutine does nothing else |
| `Job.LastErrMeaning` | internal/job/job.go:196-200 | the error shown is that of the latest pass to end, none before any has |
| `Job.CancelMeaning` | internal/job/job.go:151-155 | a cancelled job stays cancelled and may return from every select, and one that has returned begins no pass |
| `Job.PassesBounded` | internal/job/job.go:107-160 | no more passes than the first and one for each trigger and tick |
| `Webhook.Queue.OfferEvent` | internal/webhook/dispatcher.go:120-124 | the wait-group slot is taken before the event is sent |
| `Webhook.Queue.SendEvent` | internal/webhook/dispatcher.go:123-128 | the event is queued, or lost with its slot when the queue is full |
| `Webhook.Queue.ReceiveEvent` | internal/webhook/dispatcher.go:138-162 | the expander takes the oldest event; when listing fails there is nothing to expand |
| `Webhook.Queue.BuildJob` | internal/webhook/dispatcher.go:163-176 | the next endpoint is skipped, fails, or gets a job with a slot of its own |
| `Webhook.Queue.EnqueueJob` | internal/webhook/dispatcher.go:187-194 | the job is queued, or dropped with its slot when the queue is full |
| `Webhook.Queue.EndEvent` | internal/webhook/dispatcher.go:138-143 | the event's slot is released once its expansion is over, panic or not |
| `Webhook.Queue.ReceiveJob` | internal/webhook/dispatcher.go:199-202 | a worker takes the oldest job and posts it once |
| `Webhook.Queue.EndPost` | internal/webhook/dispatcher.go:201-217 | delivered, given up at the last attempt, or put on a timer with the next attempt number and its backoff; a panic is a failure |
| `Webhook.Queue.FireTimer` | internal/webhook/dispatcher.go:216 | a timer enqueues its job again, or drops it |
| `Webhook.StepKeepsInv` | internal/webhook/dispatcher.go:118-218 | every step of every goroutine, in any order, keeps: wait group = live events and jobs, every job in one place with a post count to match, every event accounted for |
| `Webhook.WaitGroupCounts` | internal/webhook/dispatcher.go:118-218 | in every reachable state the wait group is the sum of what is queued, being expanded, posted or on a timer, the channels are within bounds and no job was posted more than max times |
| `Webhook.WaitMeaning` | internal/webhook/dispatcher.go:132-134 | Wait returns only when, and the counter is zero exactly when, every event was lost or expanded and every job delivered, dropped, or given up after exactly max posts |
| `Webhook.FinalStays` | internal/webhook/dispatcher.go:199-218 | what has become of a job never changes: a delivered job is not posted again |
| `Webhook.CleanExpansion` | internal/webhook/dispatcher.go:157-183 | an expansion in which nothing failed made one job for each matching endpoint, in listing order |
| `Webhook.WantedMeaning` | internal/webhook/dispatcher.go:157-166 | an event is for exactly the endpoints whose filters let it through, in listing order |
| `Webhook.FiltersMeaning` | internal/domain/webhook.go:15-20 | an endpoint without filters receives every event, one with filters exactly the types and actions they name |
| `Webhook.CleanExactly` | internal/webhook/dispatcher.go:138-184 | an expansion fails exactly when the listing fails, when an id or body for an endpoint that wants the event fails, or in a panic |
| `Webhook.EventsInOrder` | internal/webhook/dispatcher.go:120-145 | over every run, events are expanded in the order in which they were sent; the channel holds the rest |
| `Webhook.LostExactly` | internal/webhook/dispatcher.go:120-130 | an event is lost exactly when its send meets a full channel |
| `Webhook.JobsInOrder` | internal/webhook/dispatcher.go:187-206 | workers post jobs in the order in which they entered the channel |
| `Webhook.JobEnds` | internal/webhook/dispatcher.go:187-218 | a job is delivered exactly by a post that succeeds, given up exactly by one that fails at the last attempt, dropped exactly when it meets a full channel |
| `Webhook.JobKeeps` | internal/webhook/dispatcher.go:199-218 | a job keeps its event and URL; only a failed post before the last attempt moves it to a timer and the next attempt, and only a worker that receives it posts it |
| `Webhook.Defaults` | internal/webhook/dispatcher.go:73-87 | positive options are kept, the others become 4 workers, 256 places, 5 attempts and 2 seconds |
| `Webhook.StepDrains` | internal/webhook/dispatcher.go:138-218 | every step but a new dispatch decreases a lexicographic measure |
| `Webhook.NeverStuck` | internal/webhook/dispatcher.go:138-218 | while something is live, some such step is possible |
| `Webhook.EverySchedulerDrains` | internal/webhook/dispatcher.go:132-218 | with no new dispatches, every schedule with any outcomes brings the wait group to zero |
| `Webhook.BackoffsExactly` | internal/webhook/dispatcher.go:213 | all retry delays double as intended exactly when max < 2 or base times 2^(max-2) fits in 63 bits; otherwise the 64-bit product wraps |
| `Webhook.LongRetriesWrap` | internal/webhook/dispatcher.go:213 | a queue whose last delay is negative |
| `Ports.Store.CheckNIC` | internal/store/port_repo.go:124-141 | accepted exactly when the NIC is none, or exists on the host that owns the port; each refusal has its own error |
| `Ports.NICRuleMeaning` | internal/store/port_repo.go:124-143 | a port may name no NIC or one of the host that owns it; a missing NIC and another host's are told apart |
| `Ports.Store.Connect` | internal/store/port_repo.go:148-181 | from a matching it succeeds exactly when the peer is another existing port that is free or already connected here, never meets the unique index, and rewires exactly that cable |
| `Ports.CanConnectExactly` | internal/store/port_repo.go:148-183 | from a matching, a connection is accepted exactly when it names no peer, or another existing port to which no third port is cabled |
| `Ports.ConnectErrorMeaning` | internal/store/port_repo.go:148-183 | the refusals: a port itself, a missing port, a port cabled elsewhere |
| `Ports.Store.WritePeer` | internal/store/migrations/0038_nics_ports.sql:34 | a row may not name a peer another row names |
| `Ports.Store.CreatePort` | internal/store/port_repo.go:42-61 | when it succeeds and with which error it does not; the new row, connected; a failure leaves the tables as they were |
| `Ports.CreatedFrame` | internal/store/port_repo.go:42-61 | a created port is stored as given; only the port at the other end of its cable changes, and only its link |
| `Ports.Store.UpdatePort` | internal/store/port_repo.go:105-120 | likewise for an existing row |
| `Ports.UpdatedFrame` | internal/store/port_repo.go:105-120 | an updated port is stored as given; of the others only the ends of its old and new cable change, and only their links |
| `Ports.Store.DeletePort` | internal/store/port_repo.go:185-193 | the row is removed and its cable cleared; `PortGoneFrame` says what stays |
| `Ports.PortGoneFrame` | internal/store/port_repo.go:185-193 | exactly one row goes: a row that named it loses its link and nothing else, no other row and no NIC changes |
| `Ports.DeleteUnplugsOne` | internal/store/port_repo.go:185-193 | from a matching, deletion changes no other row than the port at the other end of the cable |
| `Ports.Store.UpdateNIC` | internal/store/nic_repo.go:83-101 | ports that no longer fit the NIC lose their attribution, no other port changes |
| `Ports.NICChangedFrame` | internal/store/nic_repo.go:83-101 | the attributions that fit the changed NIC are kept, the others cleared; links, other columns and other NICs stay |
| `Ports.Store.DeleteNIC` | internal/store/nic_repo.go:105-113 | the NIC is gone and no port is attributed to it |
| `Ports.NICGoneFrame` | internal/store/nic_repo.go:105-113 | the attributions to the deleted NIC are cleared; links, other columns and other NICs stay |
| `Ports.RewiredMatchesExactly` | internal/store/port_repo.go:143-181 | an accepted connection leaves a symmetric matching exactly when the port is not port 0 or is being disconnected |
| `Ports.CablingZeroBreaks` | internal/store/port_repo.go:143-181 | port 0 cabled to a free port: accepted, and not a matching |
| `Ports.RewiredFrame` | internal/store/port_repo.go:143-181 | only the links of the port, its old peer and its new peer change |
| `Ports.ReconnectSame` | internal/store/port_repo.go:143-147 | writing a port back as it was read keeps every link |
| `Ports.MatchingIsUnique` | internal/store/migrations/0038_nics_ports.sql:32-34 | a symmetric matching satisfies the unique index |
| `Ports.MatchingMeaning` | internal/store/port_repo.go:143-181 | a table is a matching exactly when every port named names back, 0 standing for no peer, and port 0 is uncabled |
| `Ports.RewireInSteps` | internal/store/port_repo.go:166-180 | the two statements of a connection amount to one rewiring, and between them no row names either end |
| `Cabling.StepKeepsExactly` | internal/store/port_repo.go:42-193 | from tables that are right, an operation or import leaves them right exactly when it does not give port 0 a cable |
| `Cabling.RunKeepsInv` | internal/store/port_repo.go:42-193 | in every run of port and NIC operations and imports that leave port 0 uncabled, links are a symmetric matching, attributions fit, and no peer is named twice |
| `Cabling.UpdatePortKeepsExactly` | internal/store/port_repo.go:105-120 | an accepted update keeps the tables right exactly when the port is not port 0 |
| `Cabling.UpdateNICKeeps` | internal/store/nic_repo.go:83-101 | moving a NIC keeps links and attributions right |
| `Cabling.ImportKeepsExactly` | internal/store/portability.go:536-592 | the port rows an import writes are attributed, and a matching exactly when no port with id 0 was cabled |
| `PortLinks.PairPortLinks` | internal/store/portability.go:536-564 | on distinct ids it succeeds exactly on pairable files, with both ends of every link stored and the dangling links cleared and counted; it changes no id |
| `PortLinks.DanglingCountMeaning` | internal/store/portability.go:536-564 | the links cleared and counted are those of the rows that name a port the file lacks |
| `PortLinks.PairableMeaning` | internal/store/portability.go:550-561 | which files are accepted, in the file's own terms: the port named names back, or is free when reached and named by no earlier port |
| `PortLinks.PairedAnsweredExactly` | internal/store/portability.go:536-564 | after pairing every port named names back, 0 standing for no peer, exactly when no two rows name one peer, as the unique index then asks |
| `PortLinks.PairedMatchesExactly` | internal/store/portability.go:536-564 | after pairing the links are a symmetric matching exactly when no port with id 0 is cabled to a port of the file |
| `PortLinks.ZeroCabled` | internal/store/portability.go:536-564 | a file that cables port 0: accepted, and not a matching |
| `PortLinks.LinksSurvive` | internal/store/portability.go:536-564 | a link whose target is in the file is kept, and a row gains one only from a row that names it |
| `PortLinks.AnsweredIsPaired` | internal/store/portability.go:536-564 | rows whose links are answered, port 0 cabled or not, come back unchanged with nothing cleared, in any order |
| `PortLinks.MatchingIsPaired` | internal/store/portability.go:536-564 | so do the rows of a matching, and none of them cables port 0 |
| `PortLinks.OrderMatters` | internal/store/portability.go:545-561 | one file that is refused in one order of its rows and accepted in the other |
| `PortLinks.CheckPortNICs` | internal/store/portability.go:570-592 | in place: fails exactly when a port names another host's NIC, else clears and counts the attributions to NICs the file lacks |
| `PortLinks.MissingCountMeaning` | internal/store/portability.go:570-592 | the attributions cleared and counted are those to a NIC the file lacks |
| `PortLinks.CheckedKeeps` | internal/store/portability.go:570-592 | a row loses its attribution exactly when the file lacks the NIC, and nothing else |
| `PortLinks.CheckedIsAttributed` | internal/store/portability.go:566-592 | what is left names NICs of the owning host, and no link changes |
| `Tables.Keep` | internal/store/portability.go:596-606 | the accepted rows in order, and the count raised by the number rejected |
| `Tables.KeptMeaning` | internal/store/portability.go:596-606 | exactly the accepted rows are kept; none is dropped exactly when all are accepted |
| `Tables.Insert` | internal/store/portability.go:206-212 | inserting row by row succeeds exactly when no id and no unique key repeats, and gives the table of the rows |
| `Portability.DropDanglingRefs` | internal/store/portability.go:451-529 | relationships, tags, notes and values that refer to something absent are dropped and counted |
| `Portability.InsertRows` | internal/store/portability.go:199-394 | the inserts succeed exactly when no id or unique key repeats, tag names being normalized first |
| `Portability.Database.Import` | internal/store/portability.go:119-188 | succeeds exactly on importable snapshots and then replaces the inventory, clears derived state, keeps the attachments that still have an entity and logs the record count and, when positive, the skipped count; a failure changes nothing |
| `Portability.Database.ReconcileSideTables` | internal/store/portability.go:427-441 | derived state is cleared and exactly the attachments of absent entities are deleted, in any order of types |
| `Portability.ImportedIsSound` | internal/store/portability.go:119-188 | whatever the file, after success every relationship, tag, note and value refers to present rows, attributions fit, and links are a symmetric matching exactly when no port with id 0 was cabled |
| `Portability.ImportKeepsRows` | internal/store/portability.go:443-529 | in the inventory are all plain rows, NICs and definitions, every row whose references are in the file, and every port row with its own columns, its link when the far end is in the file, and its attribution exactly when the NIC is |
| `Portability.SkippedNoneExactly` | internal/store/portability.go:151-162 | the skipped count is zero exactly when every row refers only to what the file has, port rows to its ports and NICs included |
| `Portability.SkippedMeaning` | internal/store/portability.go:151-162 | the skipped count is the number of relationships, tags, notes, values, links and attributions that refer to something the file lacks |
| `Portability.RecordsMeaning` | internal/store/portability.go:171-177 | the number of records logged is the number of rows the inventory then has |
| `Portability.ImportEntryMeaning` | internal/store/portability.go:178-185 | the log entry names the inventory and the import, the records and, where any, the skipped references |
| `Portability.AttachmentKeptExactly` | internal/store/portability.go:427-441 | an attachment outlives an import, unchanged, exactly when the file has the entity it belongs to or its type is unknown |
| `Portability.NewerRefused` | internal/store/portability.go:120-122 | a file of a newer version is refused; otherwise the version makes no difference |
| `Portability.BadRowRefused` | internal/store/portability.go:123-150 | a relationship, tag, note, value, definition or NIC that validation refuses, the conditions written out, refuses the file |
| `Portability.TwinTagsRefused` | internal/store/migrations/0008_tags.sql:1-7 | two kept tags of one entity that normalize alike refuse the file |
| `Portability.TwinDefsRefused` | internal/store/migrations/0023_custom_fields.sql:1-11 | two definitions of one name for one type refuse the file |
| `Portability.TwinValuesRefused` | internal/store/migrations/0023_custom_fields.sql:12-20 | two kept values of one field of one entity refuse the file |
| `Portability.Export` | internal/store/portability.go:57-94 | every table is listed whole |
| `Portability.ExportAcceptedExactly` | internal/store/portability.go:57-188 | the import accepts an export of a kempt inventory, in any listing order and with any checks of the plain columns, exactly when no port names a negative peer, no tag name is white space and at most one hash, and no two tags of one entity normalize to one name |
| `Portability.RoundTripExactly` | internal/store/portability.go:57-188 | it then skips nothing, and gives the same inventory exactly when no port names a negative peer and no tag name has an upper-case letter, white space at an end, or a leading hash |
| `Portability.AddTagKeepsKempt` | internal/store/tag_repo.go:28-38 | adding a tag that validation accepts keeps an inventory kempt, its normal form stored once |
| `Portability.HashRefused` | internal/store/portability.go:57-188 | a stored tag # makes every export refused |
| `Portability.AddedHashSpoils` | internal/store/tag_repo.go:28-38 | the tag ## may be added, and then no export is accepted |
| `Portability.ImportedIsKempt` | internal/store/portability.go:119-188 | whatever the file, what a successful import wrote is a kempt inventory |
| `Portability.ReimportExactly` | internal/store/portability.go:57-188 | every export of what an import wrote is itself accepted exactly when the file cabled no port with a negative id, no kept tag name was white space and at most two hashes, and no two kept tags of one entity have names that normalizing twice makes equal |
| `Portability.RestoreExactly` | internal/store/portability.go:57-188 | and it gives the same inventory once more exactly when no negative id was cabled and the kept tags' normal forms are normal names |
| `Portability.NegativeIdSpoils` | internal/store/portability.go:119-188 | an accepted file with a cabled port -1: no export of its result is accepted |
| `Portability.TwoHashesSpoil` | internal/store/portability.go:119-188 | an accepted file with a tag ##: no export of its result is accepted |
| `Portability.HashedTwinSpoils` | internal/store/portability.go:119-188 | an accepted file with one normal tag name on an entity, with and without two hashes before it: no export of its result is accepted |
| `Tags.NormalNameExactly` | internal/domain/tag.go:17-21 | normalizing leaves a name alone exactly when it has no upper-case letter, no white space at its ends and no leading hash |
| `Tags.EmptyExactly` | internal/domain/tag.go:17-35 | a name is refused exactly when it is white space and at most one hash |
| `Tags.EmptyTwiceExactly` | internal/domain/tag.go:17-35 | its normal form is refused exactly when it is white space and at most two hashes |
| `Tags.TwoHashes` | internal/domain/tag.go:17-21 | normalizing is not idempotent on names that begin with two hashes |
| `AgentApi.MakeFingerprint` | internal/agentapi/report.go:77-86 | the loop and the sort give the fingerprint of the specification |
| `AgentApi.FingerprintPermutation` | internal/agentapi/report.go:74-86 | the order of the interfaces does not matter |
| `AgentApi.MACsMeaning` | internal/agentapi/report.go:77-84 | every interface with a MAC gives its normalized form, in order, and the others nothing |
| `AgentApi.FingerprintIgnoresCase` | internal/agentapi/report.go:74-86 | the case of hostname and MACs, and white space around them, make no difference |
| `AgentApi.SplitInvertsExactly` | internal/agentapi/resolve.go:80-89 | splitting a fingerprint gives the normalized name and the sorted MACs exactly when the name has no bar and no MAC a comma |
| `AgentApi.CheckClone` | internal/agentapi/resolve.go:64-78 | the nested scan decides whether name and MACs are all different |
| `AgentApi.CloneMeaning` | internal/agentapi/resolve.go:64-78 | two such fingerprints are clones exactly when the names differ and the MAC sets are disjoint, empty ones included |
| `AgentApi.CloneSymmetric` | internal/agentapi/resolve.go:64-78 | being a clone is mutual, and no fingerprint is a clone of itself |
| `AgentApi.CollectIPs` | internal/agentapi/report.go:98-108 | every usable address, in interface order |
| `AgentApi.ReportedIPsMeaning` | internal/agentapi/report.go:98-108 | the addresses of interfaces and of each interface are taken one after the other, each giving what sanitizing leaves of it |
| `AgentApi.ReportedExactly` | internal/agentapi/report.go:98-108 | an address is reported exactly when some address of some interface sanitizes to it |
| `AgentApi.SanitizeStrips` | internal/agentapi/report.go:112-131 | a prefix length and a zone do not change the address reported |
| `AgentApi.SanitizeExactly` | internal/agentapi/report.go:112-131 | what is parsed is the trimmed text up to its first slash or percent sign; a blank text is none |
| `AgentApi.FindHost` | internal/agentapi/resolve.go:93-112 | first by name, then by shared address |
| `AgentApi.NameMatchesExactly` | internal/agentapi/resolve.go:93-115 | names are compared without surrounding white space and case |
| `AgentApi.Decide` | internal/agentapi/resolve.go:49-60 | a bound agent is updated or contested, an unbound one adopts or creates |
| `AgentApi.BoundDecision` | internal/agentapi/resolve.go:49-60 | a bound agent's report is an update of its own host, or a conflict over it exactly when the machine is a clone |
| `AgentApi.AdoptMeaning` | internal/agentapi/resolve.go:93-112 | the host adopted is the first listed with the name, or with none such the first sharing an address; one is created exactly when none matches |
| `AgentBinding.Store.AgentReport` | internal/web/agent.go:130-217 | the report transaction: what it decides (`CreatedExactly`, `AdoptedFirst`, `ContestedExactly`), writes (`ReportKeepsHuman`, `ReportMakesHost`, `HistoryKept`) and answers (`AnswerExactly`); it keeps the invariant |
| `AgentBinding.CreatedExactly` | internal/web/agent.go:144-170 | an unbound agent's report makes a new host exactly when no unbound host has its name or one of its addresses, and else adopts one |
| `AgentBinding.AdoptedFirst` | internal/web/agent.go:144-170 | the host adopted is the first listed unbound one with the reported name, or with none such the first with a reported address |
| `AgentBinding.ReportKeepsHuman` | internal/web/agent_merge.go:29-54 | on a host that exists the name, the type and what else people wrote stay; an empty reported field keeps the old value and any other replaces it |
| `AgentBinding.ReportMakesHost` | internal/web/agent_merge.go:11-46 | a host made for a report has the hostname, the type for the reported kind of machine and the reported fields |
| `AgentBinding.HistoryKept` | internal/store/agent_repo.go:146-164 | the newest report is last, before it the latest earlier ones, thirty in all at most |
| `AgentBinding.AnswerExactly` | internal/web/agent.go:105-217 | which reports are rejected, contested, invalid and accepted, and for which host |
| `AgentBinding.Store.Carry` | internal/web/agent.go:172-216 | the decision carried out: host, binding and history written together or not at all, and the upsert never refused |
| `AgentBinding.Store.ByAgentID` | internal/store/agent_repo.go:42-52 | the agent's binding, none exactly when it is not bound |
| `AgentBinding.Store.Adoptables` | internal/web/agent.go:144-166 | the hosts of the specification; `CandidatesComplete` says which these are |
| `AgentBinding.CandidatesComplete` | internal/web/agent.go:144-166 | exactly the listed hosts that no agent is bound to, each under its own name and addresses, in listing order |
| `AgentBinding.Store.Upsert` | internal/store/agent_repo.go:55-74 | refused exactly when another host has the agent id; otherwise the binding is replaced and its conflict stamp cleared |
| `AgentBinding.Store.RecordReport` | internal/store/agent_repo.go:146-164 | the report is added and the history cut to the latest thirty |
| `AgentBinding.Store.RecordConflict` | internal/store/agent_repo.go:134-142 | the stamp of that agent's binding, if there is one |
| `AgentBinding.Store.UnbindHost` | internal/store/agent_repo.go:119-125 | the binding is removed, and whether there was one |
| `AgentBinding.StepKeepsInv` | internal/web/agent.go:130-217 | reports, stamps, unbinds, deletions, edits and imports keep agents and bound hosts paired one to one, and bound hosts existing |
| `AgentBinding.RunKeepsInv` | internal/web/agent.go:130-217 | so in every reachable state |
| `AgentBinding.UniqueNeverMet` | internal/store/agent_repo.go:66-72 | where a report is accepted no other host has its agent id: run serially, the UNIQUE branch is unreachable |
| `AgentBinding.NeverAdopted` | internal/store/agent_repo.go:76-99 | another agent's report is never accepted for a bound host and leaves the host, its binding and its history unchanged |
| `AgentBinding.RunKeepsHost` | internal/store/agent_repo.go:76-125 | over any run an agent and its host stay together until the host is unbound, deleted or replaced by an import |
| `AgentBinding.ContestedExactly` | internal/agentapi/resolve.go:49-60 | a report is contested exactly when its agent is bound and the machine is a clone of the one known; it then changes nothing |
| `AgentBinding.StampOnly` | internal/store/agent_repo.go:134-142 | recording a conflict changes only the stamp of the contested binding |
| `AgentBinding.AcceptedIsKnown` | internal/agentapi/resolve.go:49-60 | the report just accepted is next decided an update of the same host |
| `AgentBinding.SubmitFrame` | internal/web/agent.go:130-217 | an accepted report touches one host, its binding and its history; any other report nothing |

## Left out

- Strings are ASCII: white space, lower case and order of non-ASCII letters are not modelled.
- Parsing of addresses, CIDRs, URLs and MACs by Go's library: models start from parsed values; an address string is represented by its 128-bit number, which determines it.
- SQL text and the driver: tables are maps, a failed transaction restores them, and transactions are serial. `WithTxRetry` is not modelled beyond that.
- Ids handed out by AUTOINCREMENT are any positive id not in the table; its running out of ids is not modelled. Uptime Kuma ids are natural numbers that Kuma never reuses.
- KumaSync: services and monitors are identified by natural numbers; the connection, timeouts and log lines of a pass are its outcomes. A pass reads the mapping and the monitor list at one moment.
- KumaSync.Syncer.Reconcile: one pass undisturbed by users; their changes during a pass are covered by the histories (`HistoryKeepsSound`, `NeverTouchesOthers`), and convergence is promised of an undisturbed pass.
- Portability: the fifteen plain entity tables are one table keyed by type and id, with columns no rule here reads as one payload (names, dates, kinds, MACs); the checks of those columns are any predicates, the parameter `p`.
- Portability.Database.Import: `agents` stands for the two tables that cascade with the hosts rows.
- Portability: relationships created by the Docker import, which does not check that the host exists, are outside the invariants.
- Webhook: the time a timer waits is recorded but does not order the steps, so any order of retries is covered; signing, HTTP and log lines are outcomes. Between a failed send on a full channel and the release of its slot nothing is observed.
- Job: tick times, durations and next-run stamps; the select is any ready case, so fairness between triggers, ticks and cancellation is not claimed.
- Throttle.CleanupUnnoticedExactly: instants are counted from Go's zero time and none lies before it.
- Throttle.WindowBound: runs are sequential, as failures recorded between another request's check and its own record are not atomic in the code.
- AgentBinding: the JSON payload, the change log, webhooks and the response's list of changed fields; races between transactions.
- AgentBinding.Store.AgentReport: the host write's own failures are the parameter `ok`.
- Impact.Impact: the queue and the result are one growing list, of which the queue is the part not yet processed and the result everything after the start.
- HTTP handlers, templates, discovery and Docker, Proxmox, certificate and liveness probing, TOTP, expiry notices, racks: presentation, foreign I/O, or single-step logic that would only add easy members.
