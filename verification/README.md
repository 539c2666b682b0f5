# DANM address, VNI and view bookkeeping: a verified model

DANM reserves Pod addresses and virtual network identifiers (VNIs) in bitmaps that are stored, base64
encoded, inside Kubernetes objects. Many uncoordinated writers change those bitmaps through optimistic
locking: an update succeeds only if it carries the current version, otherwise the writer reads again and
repeats. This project models that bookkeeping from the bytes up to whole runs of any number of
interleaved writers, together with the admission checks that set it up, the clean-up paths that undo it,
and the two views that controllers maintain step by step (Endpoints objects and host interfaces).
`dafny verify dfyconfig.toml` checks everything.

## How the modules fit together

| layer | modules |
|---|---|
| bytes and text | `Base64`, `BitArrays`, `Decimal` |
| addresses and indices | `Addressing` |
| one allocation on one copy | `Ipam`, `Confman` |
| the simple form: a book of owners changed by whole operations | `AtomicAllocator` |
| the retry protocols, any number of processes | `IpamProtocol`, `VniProtocol` |
| what holds in every run, whatever goes wrong, and what needs clean books | `IpamAlways`, `IpamGuarantees`, `VniProtocol` |
| concrete runs in which the books go wrong | `IpamStaleTrace`, `IpamLostTrace`, `IpamHalfTrace`, `VniLostTrace` |
| what one process does in a run, seen from the process | `LocalRuns`, `IpamLocal`, `VniLocal` |
| the same calls as loops over persisted text and a compare-and-swap cell | `ApiServer`, `IpamCalls`, `ConfmanCalls` |
| giving addresses back after failures, in the step machine and as calls | `NicRollback`, `NicProgress`, `NicCalls` |
| admission | `Admission`, `NetworkAdmission`, `ConfAdmission` |
| maintained views and names | `Endpoints`, `EndpointsController`, `HostLinks`, `IfaceNames` |

Three forms of one operation are connected throughout. A loop over a byte bitmap (`Ipam.AllocateText`,
`Confman.ReserveVniText`) is proved equal to a function on sets of positions; the functions are the steps
of a machine in which any process may move at any time (`IpamProtocol.Do`, `VniProtocol.Do`); and the
history of that machine is proved to be a sequence of legal operations of `AtomicAllocator`. The retry loops
(`IpamCalls`, `ConfmanCalls`) are proved to take, on the versions that the object goes through, the actions of
one process of the machine, whatever others write in between. An address is a
family and a number, a CIDR an aligned base and a prefix length (section 3.1 of RFC 4632, section 2.3 of
RFC 4291); persisted bitmaps are base64 (section 4 of RFC 4648).

In the step machines `SendReplyLost` is an accepted update whose reply never reaches the caller, and
`SendError` one that fails without effect; a caller cannot tell them apart, and neither can a client of
`ApiServer.Cell`. The cell counts the errors it gives, and against that count the calls are proved to fail
for nothing but an error or a proper refusal. A TenantNetwork that is refused after its VNI was reserved is
the first of these for a CREATE: the VNI stays set and belongs to nobody. Results about versions, indices, retries and reserved
addresses hold for all runs; only results about who owns a bit exclude the slips named next. A process holds
what its DanmEp lists; while the deletion of the DanmEp runs, it holds what is still to be freed.

## What turned out not to hold

Each of these is a lemma with the exact condition, not an assumption.

- `Reserve` captures its first copy of the spec once (pkg/ipam/ipam.go:30) and compares every later
  attempt with it (:38). After somebody else's Free, a retried Reserve can reproduce that first spec and
  return an address it never committed. It needs a Free committed between the first and the latest copy
  (`IpamGuarantees.StaleReturnNeedsFree`); `IpamStaleTrace` runs three processes into holding one address.
  `Free` has the same shape and is safe there (`IpamProtocol.FreeNeverMatchesFirstCopy`).
- A Free whose update is accepted but whose reply is lost reports an error, so its DanmEp stays
  (pkg/danmep/danmep.go:384-387) and lists an address whose bit is clear. `IpamLostTrace` lets a second
  process have that address, and lets the first one free it again, as pkg/metacni/metacni.go:501-506 does,
  under the second one's feet.
- A deletion that fails after it has cleared a bit leaves the same: the Free of the second address gets an
  error (pkg/ipam/ipam.go:259-266), the process is killed, or the DanmEp cannot be removed. `IpamHalfTrace`
  is a run with an error on the second Free. A step keeps the books balanced if and only if it is no stale
  return, no lost Free and no such failure (`IpamProtocol.StepKeepsInvExactly`).
- A DELETE admission whose update is accepted but whose reply is lost is refused, and its network goes on
  using a VNI that is free again. A step keeps the books balanced if and only if it is not such a loss
  (`VniProtocol.StepKeepsInvExactly`); `VniLostTrace` runs two live networks into one VNI.
- createNic ignores the errors of its own roll-back (pkg/metacni/metacni.go:347, :359, :365). In any
  interleaving in which nobody else slips, all addresses are given back and the DanmEp is gone if and only if
  the DanmEp was created, the network was read again (the re-read explained at pkg/danmep/danmep.go:291-292)
  and no error, lost replies included, reached the roll-back. Otherwise the DanmEp lists the whole lease, of
  which exactly the addresses freed before the error are given back, while the others stay set
  (`NicRollback.RollbackExactly`). If the re-read fails, the caller also dereferences the missing network
  (pkg/metacni/metacni.go:349).
- The comment at pkg/ipam/ipam.go:147 promises a search from the beginning, but the loop increments past
  it: from a cursor strictly inside the pool the first position is never examined
  (`Ipam.SearchFailsExactly`). The cursor is always written with a prefix that net.ParseIP refuses, so
  after the first allocation every search starts at the beginning and no address is missed
  (`Ipam.DrainTakesAllFree`, and in any interleaving `IpamGuarantees.FirstFitInEveryRun`).
- No validator looks at lastIp. A bare address below the pool makes the first search start there and leave the
  pool, exactly if an index before the pool is clear (`Ipam.DynamicInPoolExactly`);
  `NetworkAdmission.LastIpBelowPool` has an admitted network.
- IPv6 addresses below 2^120 lose their leading zero bytes (`Addressing.V6IndexFaithfulExactly`).
- An IPv6 gateway only has to lie in Net6. One exactly a block past the pool passes validation and makes
  the admission panic (`Admission.GatewayOnePastPoolPanics`, exact in `Admission.CreateAllocationArray`).
- Endpoints objects miss three kinds of events and no others (`EndpointsController.Misses`): a dual-stack
  DanmEp is not added to an object that has addresses (pkg/svccontrol/controller.go:173-176); deleting one
  that is listed takes a wrong entry or panics, because the second deletion uses its index in the longer
  list (:459-464); a Service that stops selecting keeps its old object (:590).
  `EndpointsController.AddToService`, `DeleteFromService` and `UpdateSvcObject` state each as an if and
  only if; `EndpointsController.MissedEvents` has the inputs.
- Numbered interface names can meet when a prefix ends in a digit (`IfaceNames.NumberedNamesMeetExactly`,
  with `IfaceNames.DigitPrefixCollides` as the input).
- Host link names of two networks meet if they have one NetworkID and both a VxLAN or one VLAN, or if the one
  NetworkID begins with "vx_" and the other is its rest with the VLAN behind a dot
  (`HostLinks.LinkNamesCollideExactly`, with `HostLinks.DottedIdsCollide` as an input). All TenantNetworks of one
  type are given one NetworkID (pkg/admit/netadmit.go:149-155), so of two with a VxLAN the second never gets an
  interface (`HostLinks.SecondVxlanIsMissing`). Adding keeps the host reconciled if and only if links shared by
  name are equal, deleting if and only if no name is shared (`HostLinks.AddedExactly`, `DeletedExactly`).

## Model

| member | source | states |
|---|---|---|
| Base64.DecodeEncode | pkg/bitarray/bitarray.go:34-41 | a persisted bitmap is read back byte for byte, for every length |
| Base64.CharIsOfAlphabet | pkg/bitarray/bitarray.go:75-78 | the 64 characters are those of table 1 of RFC 4648, in that order |
| Base64.EncodeBits | pkg/bitarray/bitarray.go:75-78 | every three bytes are, bit by bit from the most significant, four characters, and what is missing at the end is padded |
| Base64.EncodeInjective | pkg/ipam/ipam.go:37-38 | comparing two persisted bitmaps as text compares their bytes; only an empty one is "" |
| BitArrays.MaskIsShift | pkg/bitarray/bitarray.go:61-63 | the mask table is the shift 1 << (7 - pos%8) of the code |
| BitArrays.MaskBits | pkg/bitarray/bitarray.go:61-73 | setting or clearing one mask changes exactly that one of the eight bits |
| BitArrays.SetBitPositions | pkg/bitarray/bitarray.go:60-63 | on the set of positions the byte operation of Set adds exactly one element |
| BitArrays.ClearBitPositions | pkg/bitarray/bitarray.go:65-68 | on the set of positions the byte operation of Reset removes exactly one element |
| BitArrays.PersistedEquality | pkg/ipam/ipam.go:37-38 | bitmaps of one length have equal text if and only if they have the same positions set |
| BitArrays.BitArray.Set | pkg/bitarray/bitarray.go:60-63 | adds the position and changes no other |
| BitArrays.BitArray.Reset | pkg/bitarray/bitarray.go:65-68 | removes the position and changes no other |
| BitArrays.BitArray.Get | pkg/bitarray/bitarray.go:70-73 | true exactly for the positions set |
| BitArrays.BitArray.Encode | pkg/bitarray/bitarray.go:75-78 | the text reads back as exactly the bytes of the bitmap, and encoding those again gives the same text |
| BitArrays.NewBitArray | pkg/bitarray/bitarray.go:22-31 | refuses length 0; otherwise exactly position 0 is set in the rounded-up bytes |
| BitArrays.NewBitArrayFromBase64 | pkg/bitarray/bitarray.go:33-41 | the bytes decoded; their length in bits, computed in 32 bits, covers them all below 2^29 bytes |
| BitArrays.RoundTrip | pkg/bitarray/bitarray.go:33-41 | encoding and reading back keeps every bit and rounds the length up to a multiple of 8 |
| Addressing.ContainsIsInterval | pkg/ipam/ipam.go:166-173 | masking with the prefix decides membership in the interval of the block |
| Addressing.EndsInsideIsContainment | pkg/ipam/ipam.go:313-320 | the test on first and last address holds if and only if every address of the pool lies in the network |
| Addressing.NarrowedCidr | pkg/ipam/ipam.go:340-355 | a longer prefix over the same base is aligned and lies inside the original CIDR |
| Addressing.OffsetExactly | pkg/ipam/ipam.go:201-216 | an IPv4 offset leads back to the address, wrapping; an IPv6 offset does so exactly for the 2^32 addresses from the base on, and forgets on which side of the base an address lies |
| Addressing.IndexExactly | pkg/ipam/ipam.go:201-216 | for any address and subnet the family of the address decides how the index is computed; a text that does not parse has index 0 |
| Addressing.IndexInSubnet | pkg/ipam/ipam.go:201-216 | inside the subnet the index is the distance from the base, below the block size, in spite of the truncations |
| Addressing.IndexRoundTrip | pkg/ipam/ipam.go:201-230 | every address of the subnet comes back from its index |
| Addressing.AddressRoundTrip | pkg/ipam/ipam.go:218-230 | every index of the block is an address of the subnet and comes back from it |
| Addressing.IndexOrder | pkg/ipam/ipam.go:201-216 | indices order addresses and are equal only for equal addresses |
| Addressing.V6IndexFaithfulExactly | pkg/ipam/ipam.go:291-296 | an IPv6 index prints as its address if and only if the address is at least 2^120 |
| Ipam.FirstClear | pkg/ipam/ipam.go:140-146 | the least clear position of a range, or none if all are set |
| Ipam.SearchFailsExactly | pkg/ipam/ipam.go:140-155 | the search fails if and only if the whole pool is set, leaving out its first position when the cursor is inside, and adding those from a cursor below it |
| Ipam.SearchFindsClear | pkg/ipam/ipam.go:140-152 | the position found is clear and the first in the cyclic order from the cursor, and it lies in the pool if and only if no clear one lies between a cursor below the pool and its beginning |
| Ipam.SearchLoop | pkg/ipam/ipam.go:138-157 | the loop that moves its own counter and bound ends, finds what the cyclic search finds, and sets that bit alone, or no bit |
| Ipam.PrintedLast | pkg/ipam/ipam.go:156-157 | what is written to LastIp is never readable as an address again |
| Ipam.TouchedInBounds | pkg/ipam/ipam.go:128-179 | every index an allocation or release may touch lies inside the bitmap |
| Ipam.AllocateThenReset | pkg/ipam/ipam.go:117-183 | an allocation sets exactly the bit of the address it returns, which was clear; releasing that address restores the bitmap |
| Ipam.BitOfExactly | pkg/ipam/ipam.go:247-257 | the bit of an address is its distance from the base, if that is below the block size, and no address outside has one |
| Ipam.GrantedExactly | pkg/ipam/ipam.go:117-183 | a static request is granted if and only if its address is in the network and its bit, if it has one, is clear, and gets that address; a dynamic one if and only if an examined position is clear, and gets the first on the way from LastIp; only a dynamic one moves LastIp, to the address it gets |
| Ipam.DynamicInPoolExactly | pkg/ipam/ipam.go:128-157 | a dynamic allocation stays in the pool if and only if no clear index lies between a hand-made cursor below the pool and its beginning |
| Ipam.EncodePersists | pkg/ipam/ipam.go:182-182 | what a bitmap writes stands for the same size and positions |
| Ipam.AllocateText | pkg/ipam/ipam.go:117-183 | allocation on text: every error case and every bit access, with the outcome that Ipam.GrantedExactly characterises |
| Ipam.ResetText | pkg/ipam/ipam.go:247-257 | release on text clears the address's bit; unusable addresses change nothing |
| Ipam.DrainTakesAllFree | pkg/ipam/ipam.go:128-157 | a pool with N clear bits serves exactly N dynamic reservations, in increasing order, each the lowest free index, and refuses the next |
| IpamProtocol.AllocateIpsBits | pkg/ipam/ipam.go:86-109 | a granted request adds exactly the bits of its lease, none of them set before, and keeps the spec good |
| IpamProtocol.AllocateIpsExactly | pkg/ipam/ipam.go:86-109 | two requests are granted if and only if both can be, and the lease has the two addresses asked for |
| IpamProtocol.FreeIpBits | pkg/ipam/ipam.go:64-69 | a release removes exactly the bits of its address and leaves the rest of the lease |
| IpamProtocol.PutIsOperation | pkg/ipam/ipam.go:41-49 | every accepted update, after however many conflicts, is one legal atomic operation on the latest version |
| IpamProtocol.CommitKeepsInv | pkg/ipam/ipam.go:41-49 | an accepted update, a lost reply to a Reserve included but not one to a Free, keeps every process's books and copies right |
| IpamProtocol.FreeNeverMatchesFirstCopy | pkg/ipam/ipam.go:62-73 | a Free of a set bit never takes the unchanged-spec return, however stale its first copy |
| IpamProtocol.FreeWithoutPut | pkg/ipam/ipam.go:70-73 | a Free that does return there had no bit to clear |
| IpamProtocol.PassKeepsProc | pkg/ipam/ipam.go:33-40 | a pass that is not a stale return leaves what its process holds unchanged |
| IpamProtocol.StepKeepsInv | pkg/ipam/ipam.go:29-84 | every step of every process, errors and lost replies included, keeps the invariant unless it is a stale return, a lost Free or the failure of a half-done deletion |
| IpamProtocol.StaleReturnBreaksInv | pkg/ipam/ipam.go:38-40 | after a stale return the process holds bits while it owns none |
| IpamProtocol.LostFreeBreaksInv | pkg/ipam/ipam.go:71-77 | after a lost Free the process goes on holding the bit it has cleared and no longer owns |
| IpamProtocol.HalfDeletedBreaksInv | pkg/danmep/danmep.go:383-389 | after a deletion that failed halfway the process holds again a bit it has given back |
| IpamProtocol.StepKeepsInvExactly | pkg/danmep/danmep.go:377-390 | a step of any Reserve, Free or deletion keeps the invariant if and only if it is no stale return, no lost Free and no failure of a deletion that has cleared a bit |
| IpamProtocol.RunKeepsInv | pkg/ipam/ipam.go:29-84 | the same for runs of any length |
| IpamAlways.PassFromVersion | pkg/ipam/ipam.go:33-69 | a pass from any real version is one set or clear of its bits, leaves those set from the start alone, and never writes a readable cursor |
| IpamAlways.StepKeepsAlways | pkg/ipam/ipam.go:29-84 | every step of every process, slips included, keeps what holds of versions, copies and leases in all runs |
| IpamAlways.RunKeepsAlways | pkg/ipam/ipam.go:29-84 | the same for runs of any length |
| IpamGuarantees.ExclusiveAddresses | pkg/ipam/ipam.go:29-84 | in runs without slips two DanmEps never list one in-pool address, and a listed one is set on the server, except for addresses that a still running deletion has freed |
| IpamGuarantees.NoLostUpdates | pkg/ipam/ipam.go:41-49 | in every run each version is its predecessor with exactly one call's bits set, all clear before, or one address's bits cleared |
| IpamGuarantees.OnlyHoldersClear | pkg/ipam/ipam.go:56-84 | without slips what is cleared was set and is held by the process that clears it |
| IpamGuarantees.ReservedStayReserved | pkg/bitarray/bitarray.go:24-58 | in every run bits set from the start stay set in every version and nobody ever holds one |
| IpamGuarantees.RetriesBoundedByCommits | pkg/ipam/ipam.go:41-48 | in every run retries are at most the commits since the first copy; a conflict means a commit since the latest |
| IpamGuarantees.FirstFitInEveryRun | pkg/ipam/ipam.go:129-157 | in every interleaving a dynamic request gets the lowest free index of its copy, and is refused if and only if there is none |
| IpamGuarantees.StaleReturnNeedsFree | pkg/ipam/ipam.go:30-40 | in every reachable state a stale return needs a Free committed between the first and the latest copy |
| IpamGuarantees.CalmRunsDoNotSlip | pkg/ipam/ipam.go:30-40 | runs in which no Free commits under a retrying Reserve, no Free loses its reply and no deletion fails halfway have no slips |
| IpamGuarantees.StaleReturnUncommitted | pkg/ipam/ipam.go:38-40 | a stale return hands out bits that its caller never committed |
| IpamGuarantees.RefusalCommitsNothing | pkg/ipam/ipam.go:33-36 | in any interleaving a process whose Reserves are all refused or fail has no part in any version, unless a reply is lost |
| IpamGuarantees.IndicesSafeForever | pkg/ipam/ipam.go:117-183 | in every state of every run each index a pass may use lies inside its bitmap |
| IpamStaleTrace.ExclusivityNeedsTheHypothesis | pkg/ipam/ipam.go:29-51 | in a concrete run on 10.0.0.0/29 a stale return leaves two processes holding 10.0.0.1 |
| IpamLostTrace.LostFreeBreaksExclusivity | pkg/metacni/metacni.go:501-506 | in a concrete run a lost Free leaves two processes holding 10.0.0.1, and freeing it again clears the other's bit |
| IpamHalfTrace.HalfDeletedBreaksExclusivity | pkg/ipam/ipam.go:259-266 | in a concrete dual-stack run an error on the second Free leaves two DanmEps listing 10.0.0.1, and freeing it again clears the other's bit |
| IpamLocal.RunIsLocal | pkg/ipam/ipam.go:29-84 | in every run each process takes the actions of a trace on the versions of that run, alone with them |
| VniLocal.RunIsLocal | pkg/confman/confman.go:32-126 | the same for the VNI protocol |
| ApiServer.Cell.Get | pkg/netcontrol/netcontrol.go:623-629 | a read gives the current version after any foreign updates, which leave alone what this client holds |
| ApiServer.Cell.Refresh | pkg/netcontrol/netcontrol.go:623-629 | a read after a conflict gives the current version, or is counted as an error |
| ApiServer.Cell.Update | pkg/netcontrol/netcontrol.go:543-565 | an update lands only on the current version; a conflict means a newer one; an error is counted and may or may not have landed; otherwise nothing of ours is written |
| IpamCalls.TextEquality | pkg/ipam/ipam.go:37-38 | comparing specs as text is comparing the sets of positions they mean |
| IpamCalls.AllocateIpsText | pkg/ipam/ipam.go:86-109 | the dual-stack allocation on text is the specified one, refusals included |
| IpamCalls.FreeIpText | pkg/ipam/ipam.go:64-69 | the release on text is the specified one |
| IpamCalls.UpdateIpAllocation | pkg/ipam/ipam.go:232-245 | one PUT that lands on the current version only; after a conflict a newer copy, and given up if and only if the PUT or that read ended in an error; in the machine these are the process's Send, its errors, its lost reply and its Reread |
| IpamCalls.Reserve | pkg/ipam/ipam.go:29-51 | the loop ends under finitely many foreign updates; it fails only for an error or on a version that does not grant the requests; on success the lease is what was requested, and it has written the predecessor after one allocation, or nothing in the unchanged-spec return; on failure nothing, unless a lost reply hides such a write; all of it is what one process of the machine does on those versions |
| IpamCalls.Free | pkg/ipam/ipam.go:56-84 | the loop ends, and fails if and only if an error reaches it; it writes at most once, and then the predecessor with the address released; only an error can hide a write; all of it is what one process of the machine does |
| NicRollback.EveryBitHasItsCommit | pkg/ipam/ipam.go:56-84 | between two states of any clean run a bit is no longer held if and only if a commit of its holder in between cleared it while it was set |
| NicRollback.RunGives | pkg/ipam/ipam.go:56-84 | in any interleaving a holder keeps exactly what it has not given back |
| NicRollback.ReleaseClears | pkg/ipam/ipam.go:56-84 | a Free that has returned, however stale its copies and whoever else wrote, has cleared exactly its address's bit |
| NicRollback.CollectClears | pkg/ipam/ipam.go:259-266 | a finished collection of both families has cleared exactly the bits of the lease, in any interleaving |
| NicProgress.ReleaseCompletes | pkg/ipam/ipam.go:56-84 | an undisturbed Free from a copy as old as the lease returns after at most one conflict |
| NicProgress.CollectCompletes | pkg/danmep/danmep.go:377-390 | an undisturbed deletion of a dual-stack DanmEp runs through from one copy, although the first Free makes the second's copy stale |
| NicRollback.SkippedLeaseHasNoBits | pkg/danmep/danmep.go:382-383 | deletion skips the collection if and only if there is nothing to clear |
| NicRollback.DeleteClears | pkg/danmep/danmep.go:377-390 | in any interleaving a deletion removes the DanmEp, all its bits given back, if and only if no error reaches it; otherwise the DanmEp lists all, of which exactly the addresses freed before the error are given back and the rest is set |
| NicRollback.ProgramRuns | pkg/danmep/danmep.go:377-390 | as a program of one process in an interleaved run the deletion frees its two addresses in order and then the DanmEp, has given back exactly the addresses of accepted Frees, and stops early if and only if an error hits it |
| NicRollback.RollbackExactly | pkg/metacni/metacni.go:342-370 | in any interleaving without slips of others a failing createNic gives back everything and its DanmEp if and only if the DanmEp existed, the network was re-read and no error reached the roll-back; otherwise exactly the addresses freed before are given back, the rest is set, and the DanmEp lists both |
| NicRollback.LostReplyClearsOne | pkg/metacni/metacni.go:359-367 | after a lost reply, whatever others do, the DanmEp lists all, the one address was cleared, and what else is owed is set |
| NicRollback.RollbackUndoesReserve | pkg/metacni/metacni.go:342-370 | whatever the interleaving, a process that ends up holding nothing leaves the bits as the other processes' operations alone would |
| NicCalls.FreeHeld | pkg/ipam/ipam.go:56-84 | a Free fails if and only if an error reaches it; if it succeeds, or loses its reply, it has written its predecessor without exactly that bit, or found the bit clear in its first copy; a held bit was set until then, and otherwise stays held and set |
| NicCalls.GarbageCollectIps | pkg/ipam/ipam.go:259-266 | fails if and only if an error reaches it; each address freed was released by a version this call wrote, held ones others than those stay held and set; success means both |
| NicCalls.Cluster.CreateDanmEp | pkg/danmep/danmep.go:260-298 | nothing is reserved only for an error or for a version `at` that does not grant the requests; otherwise the lease is what was requested and what an allocation on `at` granted; a DanmEp exists exactly if its creation succeeded; a committed lease is held, and the copy handed on is newer than `at` and shows it |
| NicCalls.Cluster.DeleteDanmEp | pkg/danmep/danmep.go:377-390 | the DanmEp goes if and only if no error reaches the release of its addresses and its own deletion succeeds; without errors both addresses are released, whoever held them; otherwise the DanmEp stays and lists all, of which the freed ones were cleared by this call and the others are still set |
| NicCalls.Cluster.CreateNic | pkg/metacni/metacni.go:342-370 | which failure leads to which outcome; after a backend failure everything is rolled back if and only if no error reaches the roll-back and the DanmEp can be deleted; what DanmEps are left, that a successful roll-back of a committed lease clears every bit of it by later versions of its own, and which bits a failed one has cleared |
| Confman.IfaceIndex | pkg/confman/confman.go:80-89 | the first profile of that name and type, or none |
| Confman.FirstFreeVniIsFirst | pkg/confman/confman.go:64-76 | the VNI chosen is clear and all members of the range before it are taken |
| Confman.ReserveVniExactly | pkg/confman/confman.go:55-78 | a reservation is refused if and only if there is no bitmap or no clear VNI in the range, and otherwise gets the first clear one |
| Confman.RequestedExactly | pkg/admit/netadmit.go:159-186 | a profile is the one asked for if and only if it has the name of the device pool, or that of the device and is a real NIC |
| Confman.ChooseProfile | pkg/admit/netadmit.go:159-186 | the loop chooses the first profile asked for, or a real NIC if none was asked for; it refuses if and only if there is none |
| Confman.FreeKeyFindsReservation | pkg/admit/netadmit.go:188-205 | the VNI reserved goes into the field of its type, the network is on the interface asked for or chosen, and deletion computes from it the interface, type and VNI that admission used |
| Confman.GetIfaceIndex | pkg/confman/confman.go:80-89 | the loop finds the first matching profile |
| Confman.ReserveVniText | pkg/confman/confman.go:55-78 | the loop on text reserves the first free VNI of the range and sets its bit alone, or refuses |
| Confman.FreeVniText | pkg/confman/confman.go:128-139 | release on text clears the one bit, or refuses an empty bitmap |
| ConfmanCalls.ReservePass | pkg/confman/confman.go:34-42 | one pass of the reservation loop on its copy sets the first clear VNI of the profile, and is refused if and only if there is none |
| ConfmanCalls.FreePass | pkg/confman/confman.go:104-115 | one pass of the release loop on its copy clears that VNI's bit; it is corrupt if and only if the profile's bitmap is empty |
| ConfmanCalls.UpdateTenantConf | pkg/confman/confman.go:141-155 | one PUT that lands on the current version only; after a conflict a newer copy, and given up if and only if the PUT or that read ended in an error; as steps of one process of the machine |
| ConfmanCalls.Reserve | pkg/confman/confman.go:32-53 | its one write is the predecessor with the first free VNI of the profile set; it fails only for an error or on a version without a VNI left, and then has written nothing, unless a lost reply hides it; all of it is what the CREATE of one process of the machine does |
| ConfmanCalls.Free | pkg/confman/confman.go:91-126 | without VNI or profile nothing is written; otherwise the one write clears the network's VNI; it fails only for an error or for a profile without bitmap, and only an error can hide a write; all of it is what the DELETE of one process of the machine does |
| ConfmanCalls.AttachNetworkToIfaceProfile | pkg/admit/netadmit.go:188-205 | a network is refused only for an error or for lack of a VNI; otherwise it is on the interface it asked for or on that of the profile, with the VNI that its one write reserved in the field of its type, so that deletion finds any but VNI 0 again |
| VniProtocol.CreatePass | pkg/confman/confman.go:34-42 | a granted CREATE adds exactly one VNI bit, clear before and nonzero |
| VniProtocol.DeletePass | pkg/confman/confman.go:103-115 | a DELETE removes exactly the bit its CREATE set, or has nothing to remove |
| VniProtocol.PutIsOperation | pkg/confman/confman.go:43-51 | every accepted update is one legal atomic operation on the latest version |
| VniProtocol.StepKeepsInv | pkg/confman/confman.go:32-126 | every step of every admission keeps the invariant unless a DELETE reply is lost |
| VniProtocol.LostDeleteBreaksInv | pkg/admit/netdel.go:43-48 | after a lost DELETE reply the network is live but its VNI belongs to nobody |
| VniProtocol.StepKeepsInvExactly | pkg/admit/netdel.go:36-49 | a step keeps the invariant if and only if it is not a lost DELETE reply |
| VniProtocol.RunKeepsInv | pkg/confman/confman.go:32-126 | the same for runs of any length |
| VniProtocol.ExclusiveVnis | pkg/confman/confman.go:32-139 | two live networks on one interface and type never share a VNI; each VNI is nonzero, in its profile's range and set on the server |
| VniLostTrace.ExclusivityNeedsTheHypothesis | pkg/admit/netdel.go:43-48 | in a concrete run with one VNI and a lost DELETE reply two live networks end up with it |
| VniProtocol.StepKeepsAlways | pkg/confman/confman.go:32-126 | every step, lost replies included, keeps what holds of versions and copies in all runs |
| VniProtocol.NoLostUpdates | pkg/confman/confman.go:141-155 | in every run each version is its predecessor with one clear VNI set, or one cleared |
| VniProtocol.OnlyHoldersClear | pkg/confman/confman.go:91-126 | unless a DELETE reply was lost, what is cleared is set and held by the network that is deleted |
| VniProtocol.VnisInRange | pkg/confman/confman.go:64-76 | in every run the VNI of a live network is nonzero and in its profile's range |
| VniProtocol.RetriesAndIndices | pkg/confman/confman.go:32-126 | in every run retries are bounded by commits and every VNI a pass may touch lies inside its bitmap |
| Admission.ValidateIpFields | pkg/admit/validators.go:42-59 | accepts exactly a blank CIDR without routes, or a CIDR with every gateway inside |
| Admission.IsTypeDynamic | pkg/admit/utils.go:97-103 | true if and only if the type is empty or spells sriov, macvlan or ipvlan in any case |
| Admission.ReserveGatewayIps | pkg/ipam/ipam.go:304-311 | sets the gateways up to the length, and panics if and only if one is the position past a bitmap without spare bits |
| Admission.CreateBitArrayFromIpnet | pkg/bitarray/bitarray.go:43-58 | first and last position set; refused above 2^23 addresses |
| Admission.CreateAllocationArray | pkg/ipam/ipam.go:298-302 | the initial bitmap has exactly first, last and gateway positions set; it panics if and only if too large or a gateway is one past the end |
| Admission.InitAllocPool | pkg/ipam/ipam.go:357-372 | without a CIDR nothing changes; otherwise blank ends default to the second and last but one address, a blank bitmap to the initial one, and it panics exactly where that panics |
| Admission.PoolIndices | pkg/ipam/ipam.go:185-199 | pool ends inside the subnet and in order become their distances from the base, in order inside the block |
| Admission.DefaultsInside | pkg/ipam/ipam.go:362-367 | default ends are the second and the last but one address, and lie in the subnet unless it has one address |
| Admission.GatewaysInsideFit | pkg/ipam/ipam.go:304-311 | gateways inside the allocation subnet never run past the bitmap |
| Admission.GatewayOnePastPoolPanics | pkg/ipam/ipam.go:304-311 | an IPv6 gateway in Net6 exactly one block past the pool passes validation and panics |
| Admission.GetMaxUsableV6Prefix | pkg/ipam/ipam.go:322-338 | the smallest prefix from 105 whose block is strictly below the remainder, 128 if none, 105 without IPv4 |
| Admission.UsablePrefixExactly | pkg/ipam/ipam.go:322-338 | that prefix is 105 without IPv4, 128 beside a /9, 107 beside a /10 and 106 beside any other |
| Admission.DefaultPoolFits | pkg/ipam/ipam.go:340-355 | a pool left to the default is refused for capacity if and only if Net6 is a /128 or the IPv4 network a /9 |
| Admission.CapacityCheckIsExact | pkg/admit/validators.go:121-134 | the prefix check admits exactly the pools of more than one address that fit the shared 2^23, strictly beside IPv4 |
| Admission.SlashNineExcludesV6 | pkg/admit/validators.go:89-92 | a /9 IPv4 network admits no IPv6 pool |
| NetworkAdmission.AdmittedIsGood | pkg/admit/validators.go:77-146 | an admitted network meets the allocator's precondition in both families |
| NetworkAdmission.SetAsideForever | pkg/ipam/ipam.go:298-311 | from an accepted CREATE on, first, last and in-subnet gateway addresses are never cleared and never handed out |
| NetworkAdmission.AdmittedIndicesSafe | pkg/ipam/ipam.go:117-257 | from an accepted CREATE on, every bit access of every run is in bounds |
| NetworkAdmission.Manifest.ValidateAllocV4 | pkg/admit/validators.go:77-102 | decides exactly the stated refusals and fills in pool and bitmap |
| NetworkAdmission.Manifest.InitV6PoolCidr | pkg/ipam/ipam.go:340-355 | a given pool stays; a default one starts at the base of Net6, has the longer of its prefix and the usable one, and lies inside it |
| NetworkAdmission.Manifest.FillV6Pool | pkg/admit/validators.go:135-145 | ends, containment, defaults and bitmap of the IPv6 pool, with its panic |
| NetworkAdmission.Manifest.ValidateAllocV6 | pkg/admit/validators.go:104-146 | decides exactly the stated refusals, the shared capacity among them, by the pool as it was given or defaults |
| NetworkAdmission.Manifest.ValidateFields | pkg/admit/validators.go:148-250 | the checks on VNIs, NetworkID, tenants and device pass exactly what each kind allows |
| NetworkAdmission.LastIpBelowPool | pkg/ipam/ipam.go:131-137 | an admitted network whose first dynamic address lies outside its pool |
| NetworkAdmission.Manifest.ValidateCreate | pkg/admit/netadmit.go:102-114 | a CREATE of any of the three kinds is accepted exactly without a reason in the manifest as sent to refuse it and without a gateway one past the pool, given or default, and panics with such a gateway and no other reason; acceptance leaves an admitted network within the shared capacity, with that pool, its ends and the fields the VNI protocol needs |
| ConfAdmission.ValidateIfaceConfig | pkg/admit/validators.go:213-239 | accepts exactly the well-formed profiles with VNIs up to 5000 |
| ConfAdmission.TenantConfig.ValidateTenantConfig | pkg/admit/validators.go:191-211 | accepts exactly if there is a profile or a mapping, and every profile and every mapping is well formed |
| ConfAdmission.TenantConfig.MutateConfigManifest | pkg/admit/confadmit.go:104-114 | every profile with VNIs and no bitmap gets one of 5008 bits with only position 0 set; others stay |
| ConfAdmission.TenantConfig.AdmitCreate | pkg/admit/confadmit.go:73-114 | a CREATE is accepted exactly if valid, and then gives a configuration from which the VNI protocol may start: VNIs in bounds, 0 taken |
| Endpoints.IsContain | pkg/svccontrol/utils.go:21-35 | true if and only if every selector label is there with its value |
| Endpoints.IsDepSelectedBySvc | pkg/svccontrol/utils.go:155-176 | true if and only if the networks selected have the DanmEp's network under its kind, which is DanmNet if it names none |
| Endpoints.SelectedByKind | pkg/svccontrol/utils.go:155-176 | a Service with a network of one kind takes exactly the labelled DanmEps of that network of that kind |
| Endpoints.KindsApart | pkg/svccontrol/utils.go:155-176 | one case for each of the three kinds, taken by the selector of its own kind and by no other |
| Endpoints.IsMatching | pkg/svccontrol/utils.go:133-153 | a DanmEp is taken if and only if there is a selector, its network is selected under its kind, and its labels match |
| Endpoints.UpdateEndpoints | pkg/svccontrol/controller.go:192-200 | the subsets go exactly when both lists are empty |
| Endpoints.IsIpInEp | pkg/svccontrol/controller.go:630-639 | true if and only if a listed address has that IP |
| Endpoints.CreateChangedEpAddressList | pkg/svccontrol/controller.go:641-651 | appends exactly the real addresses that are not listed |
| Endpoints.BuiltExactly | pkg/svccontrol/controller.go:304-355 | the object built lists exactly the addresses other than "", "none" and "dynamic" of DanmEps whose Pods exist, as ready if the Pod is or the Service publishes early |
| Endpoints.MakeNewEps | pkg/svccontrol/controller.go:304-355 | the object built has exactly the real addresses of the given DanmEps on the side of their Pods' readiness, and no subsets for none; none is listed twice if all differ |
| Endpoints.EpCheckUpdate | pkg/svccontrol/controller.go:170-190 | a DanmEp with two real addresses changes nothing; otherwise its address is added on the right side unless listed as ready |
| Endpoints.AddToEndpoints | pkg/svccontrol/controller.go:377-413 | the same where the object has subsets; without, it is built from the DanmEp with all its addresses |
| Endpoints.DeleteFromList | pkg/svccontrol/controller.go:459-464 | deleting at original indices from the shrinking list removes exactly the listed address, or, if both are listed, panics or gives a wrong list |
| Endpoints.DeleteFromEndpoints | pkg/svccontrol/controller.go:441-466 | exactly the addresses go, and the subsets with the last one, if and only if no list has both |
| Endpoints.MovePod | pkg/svccontrol/controller.go:274-289 | exactly the Pod's entries go from one map to the other |
| Endpoints.UpdatePodStatusInEps | pkg/svccontrol/controller.go:252-302 | the Pod's addresses change sides, except that early publication keeps them ready |
| EndpointsController.AddKeepsRebuilt | pkg/svccontrol/controller.go:362-416 | adding to the rebuilt object gives the object rebuilt with the DanmEp if and only if the event is not missed |
| EndpointsController.DeleteKeepsRebuilt | pkg/svccontrol/controller.go:429-480 | deleting from the rebuilt object gives the object rebuilt without it |
| EndpointsController.FlipKeepsRebuilt | pkg/svccontrol/controller.go:252-302 | a readiness flip on the rebuilt object gives the object rebuilt with the new readiness |
| EndpointsController.StepKeepsRebuilt | pkg/svccontrol/controller.go:362-628 | any event that is not missed, Service events included, moves the rebuilt object of any Service to the one rebuilt after it |
| EndpointsController.MissedEvents | pkg/svccontrol/controller.go:173-176 | concrete worlds in which an addition, a deletion and the two kinds of Service update that stop selecting are missed |
| EndpointsController.IncrementalIsRebuilt | pkg/svccontrol/controller.go:304-355 | for every run that misses no event the incremental object equals the one built from scratch, and is gone if and only if no DanmEp matches |
| EndpointsController.AddToService | pkg/svccontrol/controller.go:375-414 | the handler's step for one Service leaves its object equal to the rebuilt one if and only if the addition is not missed |
| EndpointsController.DeleteFromService | pkg/svccontrol/controller.go:441-466 | likewise for deletion, which may also panic |
| EndpointsController.FlipInService | pkg/svccontrol/controller.go:254-300 | a readiness flip leaves the object equal to the rebuilt one |
| EndpointsController.SelectDesMatchLabels | pkg/svccontrol/utils.go:77-95 | the list has exactly the DanmEps that match, each once |
| EndpointsController.AddSvcObject | pkg/svccontrol/controller.go:576-618 | a Service that selects gets the object built from scratch; one that does not keeps what it had |
| EndpointsController.UpdateSvcObject | pkg/svccontrol/controller.go:620-628 | after an update of a Service its object is the rebuilt one if and only if the update is not missed |
| EndpointsController.Controller.AddDanmep | pkg/svccontrol/controller.go:362-416 | every Service's object equals the rebuilt one again |
| EndpointsController.Controller.DelDanmep | pkg/svccontrol/controller.go:429-480 | every Service's object equals the rebuilt one again |
| EndpointsController.Controller.UpdateDanmep | pkg/svccontrol/controller.go:418-427 | every Service's object equals the rebuilt one again |
| EndpointsController.Controller.UpdatePod | pkg/svccontrol/controller.go:522-545 | every Service's object equals the rebuilt one again |
| EndpointsController.Controller.AddSvc | pkg/svccontrol/controller.go:576-618 | a new Service's object is the one built from scratch, and no other changes |
| EndpointsController.Controller.UpdateSvc | pkg/svccontrol/controller.go:620-628 | the changed Service's object is built again, and no other changes |
| EndpointsController.Controller.Watch | pkg/svccontrol/controller.go:72-89 | over any run of DanmEp, Pod and Service events, none of them missed, every object ends as the rebuilt one |
| HostLinks.OwnNamesDiffer | pkg/netcontrol/net.go:138-146 | the VLAN and the VxLAN name of one NetworkID never coincide |
| HostLinks.ImageExactly | pkg/netcontrol/net.go:64-186 | which links a network is meant to have: names, VNIs and parents |
| HostLinks.Host.AddIfMissing | pkg/netcontrol/net.go:105-133 | adds the link unless the VNI is 0 or it exists; fails only without the host device |
| HostLinks.Host.SetupHost | pkg/netcontrol/net.go:64-81 | adds exactly the missing links of the network, keeps existing ones, and does nothing without its device |
| HostLinks.Host.DeleteHostInterface | pkg/netcontrol/net.go:49-62 | removes the named link and nothing else |
| HostLinks.Host.DeleteNetworks | pkg/netcontrol/net.go:27-47 | removes exactly the links of the network |
| HostLinks.Host.UpdateNetwork | pkg/netcontrol/netcontrol.go:274-296 | the new links, with or without the device, and which netlink calls were made: only on names of changed VNIs |
| HostLinks.UpdateTouchesChangedExactly | pkg/netcontrol/netcontrol.go:654-665 | an update touches an interface if and only if its VNI or device changes |
| HostLinks.ChangeIsMinimal | pkg/netcontrol/netcontrol.go:654-665 | no link outside the old and new image is touched, and none of the new image goes missing |
| HostLinks.EventKeepsReconciled | pkg/netcontrol/netcontrol.go:261-377 | an add, update or delete event keeps the host equal to its physical links and the image of the live networks |
| HostLinks.Handle | pkg/netcontrol/netcontrol.go:261-377 | the handlers do exactly that to the host |
| HostLinks.Watch | pkg/netcontrol/netcontrol.go:261-377 | over any run of events the host ends reconciled with the networks left |
| HostLinks.RunKeepsReconciled | pkg/netcontrol/netcontrol.go:261-377 | the run-level statement as a lemma on link maps, free of the heap |
| HostLinks.ReconciledIsUnique | pkg/netcontrol/netcontrol.go:261-377 | the links are determined by the live networks, not by the events that led there |
| HostLinks.AddedExactly | pkg/netcontrol/net.go:64-121 | adding a network keeps the host reconciled if and only if every link it shares by name is the same link |
| HostLinks.DeletedExactly | pkg/netcontrol/net.go:27-62 | deleting one keeps it reconciled if and only if it shares no link name |
| HostLinks.SecondVxlanIsMissing | pkg/admit/netadmit.go:149-155 | of two networks with one NetworkID and a VxLAN each, as TenantNetworks of one type have, the second never gets its interface |
| HostLinks.CrossNamesMeetExactly | pkg/netcontrol/net.go:138-147 | a VLAN name is another network's VxLAN name if and only if the one id is "vx_" and a rest, and the other that rest, a dot and the VLAN |
| HostLinks.LinkNamesCollideExactly | pkg/netcontrol/net.go:138-147 | two networks share a link name if and only if they have one id and both a VxLAN or one VLAN, or their ids are related as above |
| HostLinks.DotlessIdsNeverCollide | pkg/netcontrol/net.go:138-147 | networks with different NetworkIDs without dots never share a link name |
| HostLinks.DottedIdsCollide | pkg/netcontrol/net.go:138-147 | NetworkIDs "vx_n" and "n.5" do share one |
| Decimal.ItoaInjective | pkg/danmep/danmep.go:311-315 | decimal printing is injective |
| IfaceNames.NameIsNumbered | pkg/danmep/danmep.go:304-316 | every name is eth0 or the chosen or default prefix with the sequence id, but a chosen one alone under the legacy scheme |
| IfaceNames.NumberedNamesDistinct | pkg/danmep/danmep.go:304-316 | with prefixes not ending in a digit, interfaces of one Pod share a name only if they share a sequence id |
| IfaceNames.NumberedNamesMeetExactly | pkg/danmep/danmep.go:304-316 | two names of the numbered scheme meet if and only if the longer prefix is the shorter one with leading digits of its number, and the other digits are the longer one's number |
| IfaceNames.DigitPrefixCollides | pkg/danmep/danmep.go:304-316 | "eth" with id 11 and "eth1" with id 1 are both "eth11" |
| IfaceNames.LegacyNamesMeetExactly | pkg/danmep/danmep.go:304-316 | under the legacy scheme two names meet exactly when a chosen name is repeated or spells a generated one |

## Left out

- IpamProtocol.AllocateIpsBits: networks are created through admission; the IPv6 pool that pkg/ipam/ipam.go:97-99 initialises later for networks without one is not represented.
- UPDATE admissions of networks, which the webhook does not register (integration/manifests/webhook/webhook.yaml:47-48).
- NicCalls.Cluster.CreateNic: requests for ipvlan, where an address is always reserved. Other writers are arbitrary functions that never clear a bit this client holds; that real writers are such is `IpamGuarantees.OnlyHoldersClear`.
- NicRollback.RollbackExactly: nobody else slips during the roll-back.
- NicCalls.Cluster.DeleteDanmEp: a client that holds what is left after a failed deletion; a later deletion by another client, which holds nothing, is included, and its effect on others is in `IpamHalfTrace`.
- A network counts as live until the admission of its DELETE commits the release of its VNI; the check for connected Pods (pkg/admit/netdel.go:25-35) only delays that step.
- Administrators' own updates of a TenantConfig while networks exist are not modelled; the profiles stay, only bitmaps change.
- The random draw among real NICs (pkg/admit/netadmit.go:182-183) is a parameter; the network is not re-read between that choice and the reservation, as in the code.
- VNI ranges are ascending lists, addresses, CIDRs and gateways are parsed values: text parsing belongs to libraries. IPv4 networks written as IPv4-mapped IPv6 text are therefore not represented. Base64 decoding does not skip line breaks, which no encoder here writes. Lower-casing of network types folds ASCII letters only.
- IPv6 results are stated for allocation subnets from 2^120 up; below, `Addressing.V6IndexFaithfulExactly` states what happens.
- BitArrays.NewBitArray: lengths of 2^32 - 7 and above, where the 32-bit byte count wraps and setting position 0 crashes.
- NetworkAdmission.Manifest.ValidateCreate: the validation of a CREATE; the NetworkID that a TenantNetwork is given afterwards (pkg/admit/netadmit.go:149-155) is not part of it.
- Admission.ReserveGatewayIps: routes are a list of gateways; the order in which Go ranges over the map makes no difference to the result.
- EndpointsController.IncrementalIsRebuilt: every DanmEp has a real address and no two share one.
- EndpointsController.Controller.DelDanmep: updates do not conflict; on a conflict the code sends entries of its earlier attempt again (pkg/svccontrol/controller.go:433-470).
- EndpointsController.Controller.UpdatePod: the branch for a change of readiness. A label change only updates DanmEps through the API server and comes back as their update events; a bare resource version changes no address; Pods being deleted are ignored by the code.
- Endpoints cover one namespace, Pods and Endpoints objects exist, Services are not deleted, and ports, host names and resource versions of target references are not compared.
- HostLinks.Watch: netlink calls succeed, host devices exist and have an address, NetworkIDs of an object stay the same, and link names of different networks differ.
- The DanmNet update handler, which changes the informer's own objects, and the NetworkAttachmentDefinition handlers.
- HTTP, admission review decoding, JSON patches, TLS, informers, leader election and generated client code; device popping, result merging and CNI process execution.
