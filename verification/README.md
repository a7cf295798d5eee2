# Condenser in Dafny

Condenser is a container control plane: it hands out addresses, compiles network policies to
iptables chains, starts groups of containers in dependency order, keeps services and pods in the
state asked for, unpacks images, caches DNS answers and writes rotating logs. This project models
the parts of it that hold state machines and arithmetic and proves what they keep.

`dafny verify dfyconfig.toml` verifies the whole project.

## Layout

| files | part of Condenser |
|---|---|
| `packet_filter`, `policy_store`, `policy_compiler`, `policy_service`, `policy_meaning`, `policy_settling`, `policy_logging`, `policy_files` | network policies: iptables chains, the policy store, the commit, what the chains decide, and the store's files under concurrent sections, backups and reverts |
| `ipv4`, `ipam`, `ipam_manager` | the address store: first-fit allocation and carving of /24 subnets |
| `locked_store`, `stored_ipam` | the locked JSON file as interleaved steps of many processes, with crashes and power losses; the address store on top of it |
| `start_order`, `bottle` | bottles: the start order and the runs that follow it |
| `load_balancing`, `nat_table`, `sorting`, `text`, `service_state`, `service_controller` | services: shares, nat chains, the change-detecting reconcile loop |
| `pod_store`, `pod_service`, `pod_controller`, `pod_states`, `pod_reconcile`, `pod_pass` | pods, templates and replica sets, and the pod controller's pass |
| `container_lifecycle` | creating a container with rollback, and deleting it |
| `dns_question`, `dns_cache` | cache keys, TTLs, and the cache as interleaved requests |
| `log_rotation` | rotating log files |
| `image_layers`, `image_lookup` | unpacking image layers |

Objects that the program changes in place are classes, and each of their methods is proved against
a specification function or predicate on values; what the program promises is then proved about
those. Protocols with many processes are state machines over their steps. The outside world is a
parameter: `accepts` says which rules iptables takes, `env` which addresses and networks there are,
`limits` after how many commands iptables fails, `works`, `starts`, `stops`, `deletes`, `makes` and
`infraUp` what the runtime does, `fault` which step of a creation fails. A non-deterministic choice of the program, such as
the order in which Go ranges over a map, is a list in any order or an arbitrary pick.

## Main results

- **Policies.** After a commit, walking RAIND-ROOT gives every packet the intended verdict, for all
  policy and network lists (`RootVerdict`); the three situations a user asks about follow
  (`ContainerToOutside`, `ContainerToContainer`, `ForwardVerdict`), and so does what the mark
  `applied` is worth (`AppliedIsInForce`). Log entries of policies tell the truth, it is stated
  exactly when the predefined ones do (`PolicyEntryIsTrue`, `PredefinedEntryIsTrue`), and new
  connections leave their entries (`EntryIsLeft`, `EastWestEntryIsLeft`). A commit filters
  the lists and settles each status, committing twice is committing once, a revert restores what the
  last commit saved, and it is stated what is left when sections run beside it (`AfterSwap`).
- **Addresses.** First fit finds the least free address and refuses only when there is none; over
  every run bridges, subnets and addresses stay apart; a pool holds exactly 253 containers; and all
  of it survives any interleaving of processes on the locked file (`StoredPoolsAreValid`).
- **Locked file.** In every interleaving with crashes and power losses the file is whole and is the
  replay of the logged updates (`FileIsReplayOfLog`).
- **Bottles.** The start order exists exactly when all dependencies exist and there is no cycle, and
  no step of starting, stopping or deleting leaves a service running without its dependencies; each
  of these operations succeeds under an exact condition on the containers and the runtime.
- **Services.** One pass of the cached controller leaves what an uncached rebuild gives for every
  service whose own application was not cut short, whatever failed before and also after a restart
  (`ServiceController.Controller.ReconcileOnce`): every port hooked for its own protocol and balanced
  over the selected pods' addresses (`Served`, `EndpointsExactly`); shares sum to one and the last endpoint never gets
  less than a quarter.
- **Pods.** A pass over any valid store keeps names unique and the sets' templates stored; a set that
  nobody disturbs gets the number of pods computed from the list that the pass works from, with the
  exact condition under which it is the wanted one (`PodPass.ReconcileOnce`, `CountIsRight`), and a
  turn leaves the pods of other templates alone under an exact condition (`LeavesOthersAlone`). Which
  pods of a set are left, and which pods run after the pass, is stated exactly (`LeftExactly`,
  `PassStates`).
- **Containers, DNS, logs, images.** A failed creation leaves both stores as they were, and the rules
  too exactly if no port had been published (`Create`); a cache hit is the last answer to the very
  same question and within all its TTLs, and without a limit there is a hit whenever there is such
  an answer (`HitExactly`); the files of a log are the last pieces of the log;
  layers can be unpacked under an exact condition (`UnpacksExactly`), and unpacking them equals looking a path up from the topmost layer down exactly if the path is not
  lost to a temporary name and the deciding layer is in order there (`UnpackedIsLayeredView`).

## Where the code falls short of the obvious claim

Each of these is a lemma or an exact condition, not a remark.

- A policy marked `applied` gets what it asks for only if RAIND-ROOT brings the packet to its chain
  and the mark is not left over from an earlier commit whose rule iptables now refuses; in all other
  cases the verdict is the one without the policy (`AppliedIsInForce`). The policies of the mode that
  is not in force are marked applied and decide nothing (`OtherModeDecidesNothing`).
- A commit whose predefined chains cannot be built takes every policy out of force
  (`FailedBuildVerdict`).
- An inbound ALLOW entry of RAIND-NS-OBS is left by packets that the chain does not decide
  (`PredefinedEntryIsTrue`).
- Reverting without a saved copy moves the policy file away and leaves none (`NpmStore.Revert`). A
  commit that dies while it writes its copy, and a revert after it, leave files that nothing can load
  (`CutBackupThenRevert`, `DeadStays`). A section that has loaded before a revert and saves after it
  undoes the revert (`AfterSwap`).
- On a /32 subnet the allocator returns the address after the subnet (`FindFreeIpv4`). A /0 runtime subnet with
  every /24 taken makes the bridge loop endless (`EndlessLoop`). With the default
  runtime subnet the 255th bridge gets the DNS proxy's address as its gateway (`GatewayMeetsDnsProxy`).
- The rename of a state file is not followed by a sync of its directory, so an acknowledged update
  can be gone after a power loss (`AckedUpdateCanBeLost`, `PowerLossAndAcks`).
- Starting a bottle fails if one of its services runs already (`Bottle.Start`). Deleting a bottle that was cut short
  after its first container can never be completed (`Bottle.Delete`), and creating it again succeeds
  without the containers that are gone (`Bottle.Create`).
- Service shares are uniform only for one or two endpoints (`UniformUpToTwo`). Two ports with one
  number share a chain and the last one wins (`PortServedExactly`). Cleanup knows tcp and udp only
  (`CleanExactly`). The key of a service is remembered before its rules are applied, so a failed
  application is not taken up again until the endpoints change (`CutAfter` in `ServiceController.Controller.ReconcileOnce`).
- All recreated pods of a replica set take the template's own name, each evicting the one before,
  and pods that were deleted as surplus may be recreated; a turn reaches the wanted number
  exactly under the condition of `CountIsRight`. Nothing keeps names of templates apart: a recreated
  pod evicts a pod of another template that bears its name, and with it that pod's template unless a
  replica set uses it (`TakesExactly`, `LeavesOthersAlone`).
- A request for a pod leaves a template without a pod behind exactly if name or namespace is missing,
  the name's holder has the very uid asked for, or its containers resist (`RequestLeavesOrphan`).
  Asking twice for a pod with one uid hands it out twice, and the controller then replaces it
  (`AskingTwiceLosesThePod`).
- The rollback of a container creation releases the address before it reads the forwards, so the
  rules of the ports published so far stay (`Create`), and the next container on the bridge gets that
  address and the rules with it (`NextInheritsForwards`). A container is deleted exactly if the rules
  its ports are recorded as are all there, which for a port by service name is a rule for port zero
  (`CreateThenDelete`).
- An answer that carries a record with TTL zero, which an EDNS record without flags is to the cache,
  is never cached (`ZeroTtlIsNotCached`).
- A file of an image is lost exactly if a later entry writes a file by way of its name, and no entry
  after that speaks of it (`UnpackedIsLastVerdict`; `TmpIsLost` is the plainest case). A layer whose
  entries are out of order at a path shows something else there than the layer read as a whole
  (`OrderAt`; a late opaque marker empties its own layer's directory, `LateMarkerEmpties`).

## Model

| member | source | states |
|---|---|---|
| PacketFilter.WalkConcat | internal/core/policy/service.go:348-401 | what all rules of a first part let pass goes on to the second part |
| PacketFilter.WalkSplit | internal/core/policy/service.go:348-401 | any first part of a chain: what it decides or sends back by RETURN is settled, and only the rest meets the second part |
| PacketFilter.WalkDuplicate | internal/core/policy/iptables_handler.go:104-118 | a rule that the chain already holds further up can be skipped without changing any verdict: what `-C` before `-A` relies on |
| PacketFilter.WalkUniform | internal/core/policy/service.go:640-834 | if all deciding rules of a part share a target, the packet takes it iff one of them matches |
| PacketFilter.AppendAllMeaning | internal/core/policy/iptables_handler.go:104-118 | appending with duplicates skipped gives every packet the verdict of the full list |
| PacketFilter.AppendAllMembers | internal/core/policy/iptables_handler.go:104-118 | after appending, exactly the old and the new rules are in the chain |
| PacketFilter.AppendUntilConcat | internal/core/policy/iptables_handler.go:104-118 | appending stops at the first refused rule, in whichever part that is |
| PacketFilter.InsertAllShape | internal/core/policy/iptables_handler.go:166-183 | inserting keeps the old chain as the tail, and every inserted rule is in front or was there |
| PacketFilter.InsertAllMeaning | internal/core/policy/iptables_handler.go:166-183 | inserted rules of one terminating target decide a packet iff one of them matches; otherwise the old chain decides |
| PacketFilter.AddFlagsMeaning | internal/core/policy/iptables_handler.go:58-102 | an appended rule matches exactly the packets of its description, addresses ignored |
| PacketFilter.InsertFlagsMeaning | internal/core/policy/iptables_handler.go:120-164 | an inserted rule matches exactly the packets of its description between its two addresses |
| PacketFilter.LoggingFlagsMeaning | internal/core/policy/iptables_handler.go:58-102 | the log variant of a rule matches what the rule matches |
| PacketFilter.Iptables.CreateChain | internal/core/policy/iptables_handler.go:20-39 | the chain is there and empty afterwards, whether or not it was before, and no other chain changes |
| PacketFilter.Iptables.InsertForwardRule | internal/core/policy/iptables_handler.go:41-56 | FORWARD has the jump, in front if it was not there; other chains unchanged |
| PacketFilter.Iptables.AddRuleToChain | internal/core/policy/iptables_handler.go:58-118 | the rule is appended unless it is there or iptables refuses it; the outcome says which |
| PacketFilter.Iptables.InsertRuleToChain | internal/core/policy/iptables_handler.go:120-183 | the rule is put in front unless it is there or iptables refuses it; the outcome says which |
| PolicyStore.WithoutAt | internal/store/npm/npm.go:139-164 | taking an id out keeps every other policy in place and order |
| PolicyStore.RestatedAt | internal/store/npm/npm.go:166-202 | writing a status touches the policy of that id in that chain and nothing else |
| PolicyStore.RemovedAt | internal/store/npm/npm.go:139-164 | removing an id takes it out of whichever list holds it |
| PolicyStore.NpmStore.AddPolicy | internal/store/npm/npm.go:123-137 | the policy becomes the last of its chain; the other chains stay |
| PolicyStore.NpmStore.GetPolicyChain | internal/store/npm/npm.go:94-121 | the chain of a policy, or not found |
| PolicyStore.NpmStore.RemovePolicy | internal/store/npm/npm.go:139-164 | the policy leaves its list; an unknown id is an error that changes nothing |
| PolicyStore.NpmStore.UpdateStatus | internal/store/npm/npm.go:166-202 | status and reason of one policy; an unknown id is an error that changes nothing |
| PolicyStore.NpmStore.ChangeNSMode | internal/store/npm/npm.go:204-209 | only the mode changes |
| PolicyStore.NpmStore.Backup | internal/store/npm/store.go:151-170 | the copy equals the file; without a file it fails and changes nothing |
| PolicyStore.NpmStore.Revert | internal/store/npm/store.go:172-200 | the file is the copy again, which stays; without a copy the file is moved away and none is left |
| PolicyCompiler.SettledListUnique | internal/store/npm/npm.go:139-202 | settling all policies keeps ids unique |
| PolicyCompiler.HalfwayNext | internal/core/policy/service.go:640-834 | after one more policy the lists are settled one policy further, and the rest as before |
| PolicyCompiler.RemoveStep | internal/core/policy/service.go:645-653 | removing a flagged policy is settling it |
| PolicyCompiler.RestateStep | internal/core/policy/service.go:661-731 | writing its new status is settling any other policy |
| PolicyCompiler.KeepStep | internal/core/policy/service.go:685-731 | a policy whose rules were refused keeps its status |
| PolicyService.ServicePolicy.AddUserPolicy | internal/core/policy/service.go:32-76 | the new policy is the last of the list for its type and mode, pending its apply, with the given ends in place, a container recorded by its name if it is known |
| PolicyService.ServicePolicy.RemoveUserPolicy | internal/core/policy/service.go:78-96 | the policy is flagged for removal and stays in its list until the commit |
| PolicyService.ServicePolicy.ChangeNSMode | internal/core/policy/service.go:211-226 | a mode other than the one in force becomes the pending mode; anything else is refused and changes nothing |
| PolicyService.ServicePolicy.FixNSMode | internal/core/policy/service.go:252-264 | a pending mode becomes the mode in force |
| PolicyService.ServicePolicy.BuildRootChain | internal/core/policy/service.go:348-401 | RAIND-ROOT holds the root rules of the mode, up to the first that iptables refuses; fails iff one is refused |
| PolicyService.ServicePolicy.BuildEWChain | internal/core/policy/service.go:403-480 | RAIND-EW holds the compiled base rules for all networks, up to the first that is refused; fails iff one is |
| PolicyService.ServicePolicy.BuildNSObserveChain | internal/core/policy/service.go:482-565 | RAIND-NS-OBS holds its compiled base rules up to the first that is refused; fails iff one is, or without a host interface, which leaves the chain empty |
| PolicyService.ServicePolicy.BuildNSEnforceChain | internal/core/policy/service.go:567-618 | RAIND-NS-ENF holds its compiled base rules up to the first that is refused; fails iff one is, or without a host interface, which leaves the chain empty |
| PolicyService.ServicePolicy.InsertEWPolicy | internal/core/policy/service.go:640-734 | one round settles one east-west policy: its rules in front, its status written, or it is removed |
| PolicyService.ServicePolicy.InsertNSPolicy | internal/core/policy/service.go:736-834 | one round settles one north-south policy of either chain |
| PolicyService.ServicePolicy.InsertEachPolicy | internal/core/policy/service.go:640-834 | the loop over one chain, on the list read before it starts, settles all its policies |
| PolicyService.ServicePolicy.BuildUserPolicy | internal/core/policy/service.go:620-638 | all three lists are settled, and their rules inserted in front of the base rules |
| PolicyService.ServicePolicy.BuildPredefinedPolicy | internal/core/policy/service.go:266-324 | the predefined chains of all networks, in order and as far as iptables takes their rules; succeeds iff it takes all |
| PolicyService.ServicePolicy.CommitPolicy | internal/core/policy/service.go:98-117 | store and chains are the settled store and the compiled table, and the copy equals the new store; a failed commit keeps the old copy, and if the chains could not be built they stay as far as they came, without user policies |
| PolicyService.ServicePolicy.RevertPolicy | internal/core/policy/service.go:119-124 | the store is the last committed one; the chains are not touched |
| PolicyMeaning.UserRuleMeaning | internal/core/policy/service.go:640-834 | the rule of a policy matches exactly the packets that the policy speaks for |
| PolicyMeaning.AllUserRulesMeaning | internal/core/policy/service.go:640-834 | the rules of all policies match a packet iff some resolvable, accepted policy speaks for it |
| PolicyMeaning.LeaseIsHeld | internal/core/policy/service.go:228-250 | a text that is a container name has the lease of that container, another the lease of the container of that id, anything else that of the empty id |
| PolicyMeaning.RecordedIsFound | internal/core/policy/service.go:32-76 | a policy added under a container's name or id applies to that container |
| PolicyMeaning.DevicesByName | internal/core/policy/service.go:403-480 | a device argument is a name, raind+ every name that begins with raind |
| PolicyMeaning.EwRulesWalk | internal/core/policy/service.go:403-480 | the east-west base rules drop bridged and routed traffic between containers and leave the rest |
| PolicyMeaning.ObserveRulesWalk | internal/core/policy/service.go:482-565 | the observe base rules accept what leaves a container network |
| PolicyMeaning.EnforceRulesWalk | internal/core/policy/service.go:567-618 | the enforce base rules drop what leaves a container network |
| PolicyMeaning.ChainWalk | internal/core/policy/service.go:266-834 | in every policy chain the user policies decide first and the base rules last |
| PolicyMeaning.RootVerdict | internal/core/policy/service.go:348-834 | after a commit RAIND-ROOT gives every packet the intended verdict, for all policy and network lists, duplicates skipped |
| PolicyMeaning.ContainerToOutside | internal/core/policy/service.go:482-618 | container to host interface: in observe mode dropped iff some resolvable policy matches, in enforce mode accepted iff one does |
| PolicyMeaning.ContainerToContainer | internal/core/policy/service.go:403-480 | between containers: accepted iff some resolvable east-west policy matches, whatever the mode |
| PolicyMeaning.DefaultVerdict | internal/store/npm/store.go:83-108 | without any setting containers reach the outside and not one another |
| PolicyMeaning.HostInterfaceIsOutside | internal/core/policy/service.go:482-618 | with bridges named raind* and a host interface that is not, leaving by the host interface is leaving the container networks |
| PolicyMeaning.ForwardVerdict | internal/core/policy/service.go:341-346 | what RAIND-ROOT decides is decided before any other rule of FORWARD |
| PolicyMeaning.UntilWalk | internal/core/policy/service.go:348-618 | rules up to the first refused one decide nothing that all of them would not |
| PolicyMeaning.FailedBuildVerdict | internal/core/policy/service.go:98-117 | after a commit whose chains could not be built no policy counts: each packet is undecided or gets what the predefined rules alone say; without networks nothing is touched |
| PolicySettling.CommitFiltersTheList | internal/core/policy/service.go:640-834 | a commit keeps exactly the policies not flagged for removal, in order, and changes at most status and reason |
| PolicySettling.StatusAfterCommit | internal/core/policy/service.go:640-834 | applied iff the containers have leases and iptables took the rules or the policy was applied before; unresolved, with the first missing container as the reason, iff one has none, or it was unresolved before and a rule was refused; a refused policy stays as it was |
| PolicySettling.ModeAfterCommit | internal/core/policy/service.go:252-264 | after a commit the mode that waited is in force, logging as before |
| PolicySettling.AppliedIsInForce | internal/core/policy/service.go:348-834 | a packet named by a policy marked applied meets with what it asks for iff RAIND-ROOT brings it to the chain (mode, return traffic, east-west first) and the rule was not refused, or it would without the policy; otherwise the verdict is the one without the policy |
| PolicySettling.ShareInVerdict | internal/core/policy/service.go:348-834 | for every policy: its action if it speaks for the packet and the packet comes to its chain, else the verdict without it |
| PolicySettling.OtherModeDecidesNothing | internal/core/policy/service.go:372-392 | the list of the mode not in force changes no verdict, while its policies are settled as in the other mode |
| PolicySettling.SettleAllTwice | internal/core/policy/service.go:640-834 | settling a settled list changes nothing and compiles to the same rules |
| PolicySettling.ChainTwice | internal/core/policy/service.go:266-834 | the chains compiled from the settled store are the same chains |
| PolicySettling.CommitTwice | internal/core/policy/service.go:98-117 | committing again with nothing changed gives the same store and table |
| PolicySettling.CommitAgain | internal/core/policy/service.go:98-117 | two calls of the service leave what one leaves |
| PolicySettling.EditThenRevert | internal/store/npm/store.go:151-200 | after any edits since a commit a revert, once or repeatedly, restores exactly the committed store |
| PolicyLogging.PolicyEntryIsTrue | internal/core/policy/service.go:640-834 | who left an ALLOW entry of a policy is accepted, who left a DENY entry of one is dropped |
| PolicyLogging.LogRuleMeaning | internal/core/policy/service.go:705-731 | a policy's log rule matches the new connections it names, with its group and the prefix of its chain and id |
| PolicyLogging.EntryIsLeft | internal/core/policy/service.go:640-834 | a new connection that policies speak for leaves the entry of the last of them, if the list is logged and the log rule was taken |
| PolicyLogging.SpokenForEntries | internal/core/policy/service.go:640-834 | a packet that a policy of a chain speaks for leaves only entries of that chain's policies |
| PolicyLogging.PredefinedEntryIsTrue | internal/core/policy/service.go:403-618 | who left a predefined DENY entry, per network or between bridges, is dropped; who left an outbound ALLOW entry is accepted; who left an inbound ALLOW entry is accepted iff it also leaves a network by the host interface, else undecided |
| PolicyLogging.PredefinedAreAll | internal/core/policy/service.go:403-618 | these are all log rules among the predefined ones |
| PolicyLogging.UnspokenEntries | internal/core/policy/service.go:403-618 | a packet no policy speaks for leaves what the predefined rules make it leave |
| PolicyLogging.EastWestEntryIsLeft | internal/core/policy/service.go:403-480 | it leaves the DENY entry iff it is new and bridged inside a network, or goes between bridges without staying in one network |
| PolicyLogging.EnforceEntryIsLeft | internal/core/policy/service.go:567-618 | in enforce mode it leaves the DENY entry iff it is new and goes to the outside |
| PolicyLogging.ObserveEntryIsLeft | internal/core/policy/service.go:482-565 | in observe mode it leaves the ALLOW entry if it is new and goes to the outside, or else iff it comes in by TCP with SYN or by UDP |
| PolicyFiles.SoundNext | internal/store/npm/store.go:83-200 | of all steps of sections, backups and reverts only a backup that ends inside its copy can leave a torn file |
| PolicyFiles.NeverTorn | internal/store/npm/store.go:83-200 | if no backup ends inside its copy, the policy file is whole in every state of every run |
| PolicyFiles.CutBackupThenRevert | internal/store/npm/store.go:151-200 | from any store, a backup cut inside its copy and a successful revert lead to files that are all torn |
| PolicyFiles.DeadStays | internal/store/npm/store.go:16-200 | from there no section can load anything in any run, until one finds no file and starts from the defaults |
| PolicyFiles.CopyIsOneVersion | internal/store/npm/store.go:151-170 | a backup copies the one version it opened, whatever sections save meanwhile |
| PolicyFiles.RevertAlone | internal/store/npm/store.go:172-200 | without others beside it a revert leaves path and copy as the old copy |
| PolicyFiles.AfterSwap | internal/store/npm/store.go:172-200 | in every run after the swap the file is the copy with the changes saved since, unless a section that had loaded before saves after it, which undoes the revert |
| IPv4.IncIP | internal/store/ipam/ipam.go:425-438 | the byte-carry loop adds one modulo 2^32 |
| IPv4.Ipv4Add | internal/store/ipam/ipam.go:440-446 | addition modulo 2^32 on the big-endian number |
| IPv4.AndMask | internal/store/ipam/ipam.go:397-423 | masking is rounding down to a multiple of the block size |
| IPv4.OrOnes | internal/store/ipam/ipam.go:448-456 | filling the low bits adds the block size less one |
| IPv4.ContainsMeaning | internal/store/ipam/ipam.go:397-423 | the byte-wise mask test is membership in the 2^(32-prefix) addresses of the block |
| IPv4.Broadcast | internal/store/ipam/ipam.go:448-456 | the greatest address of the block |
| Ipam.FindFreeIpv4 | internal/store/ipam/ipam.go:397-423 | the least address that is neither network, gateway, broadcast nor used; for /8 to /31 it fails iff there is none; for /32 the address after the subnet |
| Ipam.StepKeepsValid | internal/store/ipam/ipam.go:21-215 | every operation keeps bridge names unique, subnets disjoint /24 blocks, addresses hosts of their pool, and one address per container |
| IpamManager.Manager.constructor | internal/store/ipam/store.go:90-140 | the default state is valid |
| IpamManager.Manager.Allocate | internal/store/ipam/ipam.go:21-52 | the least free host of the bridge; refused exactly for an unknown bridge or at 253 containers |
| IpamManager.Manager.Release | internal/store/ipam/ipam.go:54-66 | the container has no address afterwards and all others keep theirs; an unknown one is no error |
| IpamManager.Manager.SetForwardInfo | internal/store/ipam/ipam.go:275-304 | the forward is added to the container, or it is not found and nothing changes |
| IpamManager.Manager.GetForwardInfo | internal/store/ipam/ipam.go:306-325 | the forwards of all addresses of the container; with one address in their order; none for an unknown container |
| IpamManager.Manager.GetContainerAddress | internal/store/ipam/ipam.go:233-254 | an address and the bridge of the pool that holds it, iff the container is known |
| IpamManager.Manager.GetVethById | internal/store/ipam/ipam.go:359-374 | the interface name of a known container |
| IpamManager.Manager.GetInfoByIp | internal/store/ipam/ipam.go:376-395 | exactly the holder of the address |
| IpamManager.Manager.StoreBridge | internal/store/ipam/ipam.go:126-194 | the least aligned /24 that no pool has, the gateway at .254; no space iff every aligned /24 is taken; refused iff the runtime subnet is longer than /24 |
| IpamManager.Manager.FirstFreeSubnet | internal/store/ipam/ipam.go:158-191 | the loop ends and finds the least unused block, or there is none |
| IpamManager.Manager.RemoveBridge | internal/store/ipam/ipam.go:196-215 | the pool of that bridge goes, the others stay in order; an unknown bridge is an error |
| IpamManager.PoolCapacity | internal/store/ipam/ipam.go:397-423 | a pool has a free host iff it holds fewer than 253 containers |
| IpamManager.AddressIsUnique | internal/store/ipam/ipam.go:21-52 | no address is held in two pools |
| IpamManager.RunKeepsValid | internal/store/ipam/ipam.go:21-304 | every state of every run is valid, and no container ever has two addresses if addresses go to containers without one |
| IpamManager.LookupsInvert | internal/store/ipam/ipam.go:338-395 | lookup by container and lookup by address invert each other |
| IpamManager.SubnetsAreDisjoint | internal/store/ipam/ipam.go:142-191 | no address lies in two subnets |
| IpamManager.GatewayMeetsDnsProxy | internal/store/ipam/ipam.go:142-191 | a new bridge gets the DNS proxy address as its gateway exactly when the 254 blocks below are taken |
| IpamManager.LoopSteps | internal/store/ipam/ipam.go:158-191 | inside the runtime subnet the loop stands on aligned /24 blocks, one after the other |
| IpamManager.EndlessLoop | internal/store/ipam/ipam.go:158-191 | with every /24 of a /0 runtime subnet taken the loop stands inside on a taken block after any number of steps |
| LockedStore.StepKeepsInv | internal/store/ipam/store.go:26-167 | every step of every process, crash or power loss keeps the protocol invariant |
| LockedStore.RunKeepsInv | internal/store/ipam/store.go:26-167 | so does every run |
| LockedStore.FileIsReplayOfLog | internal/store/ipam/store.go:26-167 | at all times the file is whole and holds the logged updates applied one after another; one process at most holds the lock |
| LockedStore.FileChanges | internal/store/ipam/store.go:26-56 | only a rename or a power loss changes the file, a rename exactly as the closure says; refusals, failures and crashes leave it |
| LockedStore.LoadedIsCurrent | internal/store/ipam/store.go:26-88 | what a section loaded is still the file at its last step |
| LockedStore.AcksKept | internal/store/ipam/store.go:26-56 | while the power holds, the log only grows and every acknowledged update is in it |
| LockedStore.PowerLossAndAcks | internal/store/ipam/store.go:142-167 | a power loss keeps all acknowledged updates iff the last of them had reached the disk |
| LockedStore.AckedUpdateCanBeLost | internal/store/ipam/store.go:142-167 | a run in which an acknowledged update is gone after a power loss |
| LockedStore.FileKeeps | internal/store/ipam/store.go:26-167 | what every closure keeps on its own, the file keeps in every interleaving |
| StoredIpam.OperationKeeps | internal/store/ipam/ipam.go:21-304 | an operation of the address store keeps the pools valid |
| StoredIpam.StoredPoolsAreValid | internal/store/ipam/store.go:26-167 | the stored pools are valid in every interleaving of any number of processes |
| StartOrder.BuildGraph | internal/core/bottle/service.go:51-68 | the graph turned round and the counters, repeated entries counted, or the first unknown dependency |
| StartOrder.BuildStartOrder | internal/core/bottle/service.go:51-94 | an order exists iff all dependencies exist and there is no cycle; then each service once, after its dependencies; each error iff its cause |
| StartOrder.OrderIsAcyclic | internal/core/bottle/service.go:70-94 | with every dependency first there is no cycle |
| StartOrder.StuckIsCyclic | internal/core/bottle/service.go:84-90 | services that all wait for one another lie on a cycle |
| StartOrder.LeftOverIsCyclic | internal/core/bottle/service.go:84-90 | what is left when the queue runs dry waits for itself |
| Bottles.Bottle.Start | internal/core/bottle/service.go:182-219 | succeeds iff every service has a container that is created or stopped and can be started, and then all run; no service ever runs without its dependencies, also when cut short |
| Bottles.Bottle.Stop | internal/core/bottle/service.go:221-260 | dependents first; succeeds iff every service has a container and the running ones can be stopped; closed at every step, and no container is lost |
| Bottles.Bottle.DeleteService | internal/core/bottle/service.go:262-305 | one container is stopped if needed and deleted, or it fails iff one of these cannot be done; the running set stays closed |
| Bottles.Bottle.Delete | internal/core/bottle/service.go:262-321 | succeeds iff all containers can be stopped and deleted; cut short, the last service has none, and then no later attempt gets past its first step |
| Bottles.Bottle.CreateMember | internal/core/bottle/service.go:132-176 | a service is created only when all its dependencies have container ids, under the id that the runtime gives |
| Bottles.Bottle.Create | internal/core/bottle/service.go:96-180 | the missing containers in order, iff all can be made and recorded, or the bottle as it was; a recorded service is passed over even if its container is gone; containers of others never touched |
| Bottles.Bottle.RollbackCreated | internal/core/bottle/service.go:351-370 | the map is the old one; what could not be deleted is known to nobody |
| Bottles.StartedIsClosed | internal/core/bottle/service.go:182-219 | starting the next service of the order keeps the running set closed |
| Bottles.StoppedIsClosed | internal/core/bottle/service.go:221-260 | stopping a service after all later ones keeps it closed |
| LoadBalancing.ShareFormula | internal/core/service/controller.go:193-203 | the share of endpoint i in closed form |
| LoadBalancing.SharesSumToOne | internal/core/service/controller.go:193-203 | the shares sum to exactly 1 |
| LoadBalancing.SharesDecrease | internal/core/service/controller.go:193-203 | strictly smaller from one endpoint to the next before the last |
| LoadBalancing.UniformUpToTwo | internal/core/service/controller.go:193-203 | uniform iff there are at most two endpoints |
| LoadBalancing.LastGetsAQuarter | internal/core/service/controller.go:193-203 | the last endpoint gets at least a quarter, for any number of endpoints |
| LoadBalancing.LastGetsMost | internal/core/service/controller.go:193-203 | with three or more endpoints the last gets strictly the most |
| LoadBalancing.ThreeEndpoints | internal/core/service/controller.go:193-203 | three endpoints get 1/3, 2/9 and 4/9 |
| NatTable.RulesFollowScheme | internal/core/service/controller.go:193-203 | the rules of a chain carry the probabilities of the scheme, the last none |
| NatTable.ApplyPort | internal/core/service/controller.go:170-208 | applying a port puts its one jump per hook and its chain in place and keeps the rest of the service |
| NatTable.BetweenElsewhere | internal/core/service/controller.go:170-208 | finished or cut short, nothing of any other service is touched |
| NatTable.BetweenIsSound | internal/core/service/controller.go:170-208 | cut short anywhere, nothing is there twice and nothing unasked |
| NatTable.AppliedIsAgreed | internal/core/service/controller.go:170-208 | with all ports applied the share is what a rebuild from scratch gives |
| NatTable.AgreementIsUnique | internal/core/service/controller.go:170-208 | that share is determined: two tables that agree hold the same jumps and chains |
| NatTable.PortServedExactly | internal/core/service/controller.go:179-185 | a port is served by its own rules iff the last port of its number asks for the same rules, or there is no endpoint |
| NatTable.PortsAreServed | internal/core/service/controller.go:170-208 | every port with number and target has one jump at each hook for its protocol, tcp unless it names one, in lower case; the last port of a number has its chain: a rule for each address in order, for that protocol and target; no jump belongs to no port |
| NatTable.CleanPort | internal/core/service/controller.go:227-242 | one more port swept: its tcp and udp jumps are gone, and its chain unless another protocol refers to it |
| NatTable.CleaningEnd | internal/core/service/controller.go:227-242 | a removed tcp/udp service leaves no jump and no chain |
| NatTable.CleanExactly | internal/core/service/controller.go:227-242 | cleanup is complete iff all serving ports use tcp or udp |
| Sorting.SortedIsUnique | internal/core/service/controller.go:122-124 | two sorted lists with the same contents are equal |
| Sorting.StrLeMeaning | internal/core/service/controller.go:122-124 | byte order: a beginning comes first, otherwise the smaller byte at the first difference |
| Sorting.SortedForgetsOrder | internal/core/service/controller.go:166-167 | sorting gives the same list iff the contents are the same |
| Sorting.PiecesOfJoin | internal/core/service/controller.go:166-167 | cutting at the commas undoes joining |
| Sorting.AllPiecesContents | internal/core/service/controller.go:166-167 | the pieces depend on the contents, not on the order |
| ServiceState.CheckLabels | internal/core/service/controller.go:141-151 | the loop decides the selector; a missing label reads as empty, an empty selector selects nothing |
| ServiceState.BuildEndpoints | internal/core/service/controller.go:99-126 | the sorted addresses of the selected pods that have one |
| ServiceState.FoundExactly | internal/core/service/controller.go:99-126 | an address is among them iff a selected pod has it |
| ServiceState.EndpointsExactly | internal/core/service/controller.go:93-151 | the endpoints are sorted, and each address is there once for every pod of the namespace that carries all selected labels and has it |
| ServiceState.BuildStateKey | internal/core/service/controller.go:157-168 | the sorted parts joined with commas |
| ServiceState.KeyDeterminesAddresses | internal/core/service/controller.go:157-168 | with the same ports, keys are equal iff the addresses are, counted |
| ServiceState.EmptyKey | internal/core/service/controller.go:157-168 | the key is empty iff there are no ports and no endpoints |
| ServiceState.SameKeySameEndpoints | internal/core/service/controller.go:69-77 | an unchanged key is an unchanged list of endpoints |
| ServiceController.ApplyingKeeps | internal/core/service/controller.go:69-77 | recording and applying a service keeps what the controller relies on, whether or not the application goes through |
| ServiceController.ForgettingKeeps | internal/core/service/controller.go:81-88 | so does forgetting a removed service |
| ServiceController.UpToDateAgrees | internal/core/service/controller.go:52-91 | an up-to-date service that was not cut short has exactly its rebuilt share |
| ServiceController.NewIsAcceptable | internal/core/service/controller.go:57-79 | a new service with an unused short id can be handed over at any time |
| ServiceController.RestartAccepts | internal/core/service/controller.go:17-28 | a restarted controller can take over every service |
| ServiceController.Controller.ApplyOnePort | internal/core/service/controller.go:170-208 | one port, command by command; fails iff a command fails, and then stops in between |
| ServiceController.Controller.ApplyRules | internal/core/service/controller.go:170-208 | rebuilt iff enough commands work; sound and confined to the service in any case |
| ServiceController.Controller.ReconcileService | internal/core/service/controller.go:63-78 | up to date afterwards; unchanged key, unchanged table; cut iff a command of this application failed |
| ServiceController.Controller.CleanupService | internal/core/service/controller.go:227-242 | all ports swept, nothing else touched, other protocols kept |
| ServiceController.Controller.VisitServices | internal/core/service/controller.go:57-79 | the loop over the services |
| ServiceController.Controller.ForgetRemoved | internal/core/service/controller.go:81-88 | only live services are remembered; the others are cleaned up |
| ServiceController.Controller.ReconcileOnce | internal/core/service/controller.go:52-91 | each live service whose application was not cut short has the share of an uncached rebuild, its ports hooked and balanced as PortsAreServed says, every other short id is clean unless it leaked, and a pass without changes does nothing |
| PodStore.RemovingKeeps | internal/core/pod/service_delete.go:42-50 | removing a pod keeps names unique and the templates of replica sets stored |
| PodStore.CreatingKeeps | internal/core/pod/service_create.go:62-108 | so does creating one, whether it succeeds, finds the pod, or fails |
| PodStore.CreatedOver | internal/core/pod/service_create.go:62-108 | under a borne name: the bearer itself if its uid was asked for, nothing if its containers resist, otherwise a new pod as asked, created and not stopped, in its place, and its template gone unless a set uses it |
| PodStore.CreatedFree | internal/core/pod/service_create.go:62-108 | under a free name: a new pod as asked, created and not stopped, and nothing else changes |
| PodStore.ApplyingKeeps | internal/api/http/pod/handler.go:171-190 | so does applying a replica set |
| PodPass.AskingTwiceLosesThePod | internal/core/pod/controller.go:130-145 | asking twice with one uid hands out one pod twice, and the turn of the second template takes that pod away |
| PodOperations.PodService.FindByName | internal/store/psm/psm.go:315-327 | the one holder of a name in a namespace, if there is one |
| PodOperations.PodService.IsTemplateReferenced | internal/store/psm/psm.go:165-177 | whether a replica set uses the template |
| PodOperations.PodService.Remove | internal/core/pod/service_delete.go:9-53 | the pod goes, and its template unless a replica set uses it, nothing else; a failing container stops it before the store changes |
| PodOperations.PodService.TakeName | internal/core/pod/service_create.go:73-108 | the new pod takes the name from its holder, or the holder is the same pod by uid, or nothing changes |
| PodOperations.PodService.CreateWithTemplate | internal/core/pod/service_create.go:62-108 | the pod as specified, under a new uid unless one was asked for |
| PodOperations.PodService.Create | internal/core/pod/service_create.go:11-29 | a new template and its pod |
| PodOperations.RequestLeavesOrphan | internal/core/pod/service_create.go:11-108 | a request leaves its template without a pod iff name or namespace is missing, the holder of the name has the uid asked for, or its containers resist |
| PodOperations.PodService.CreateFromTemplate | internal/core/pod/service_create.go:31-60 | a pod of the stored template under its or the given name |
| PodOperations.PodService.Start | internal/core/pod/service_start.go:10-56 | the pod runs and is not stopped by the user, its other fields and all other pods as before; or nothing changes |
| PodOperations.PodService.ApplyReplicaSet | internal/api/http/pod/handler.go:171-190 | a new template and the set that uses it |
| PodOperations.PodService.ScaleReplicaSet | internal/store/psm/psm.go:150-163 | the wanted number, which must not be negative |
| PodOperations.PodService.RemoveReplicaSet | internal/api/http/pod/handler.go:405-427 | the set and its template are gone, its pods too unless their containers resist, and no pod outside the set and the selection is touched |
| PodController.TakesExactly | internal/core/pod/controller.go:222-248 | making a pod from its template evicts whoever bears the name, with its template unless a set uses that, and nothing else |
| PodController.SuffixedCreates | internal/core/pod/controller.go:71-81 | a pod with a new suffix evicts nobody |
| PodController.RecoverNext | internal/core/pod/controller.go:90-113 | each recreation drops the lost pod and the last bearer of the name and adds one |
| PodController.FilteredExactly | internal/core/pod/controller.go:60-66 | the list of a template holds exactly its pods of the snapshot |
| PodController.CountIsRight | internal/core/pod/controller.go:67-119 | the count is the wanted one iff no listed pod counts as lost (and the missing ones can be made), or exactly one kept pod is lost or bears the template name |
| PodController.CountAtMost | internal/core/pod/controller.go:67-119 | never more than one pod too many, also from an outdated list |
| PodController.LeavesOthersAlone | internal/core/pod/controller.go:90-113 | a turn leaves all pods of other templates as they were iff it takes no name, or no such pod bears it |
| PodReconcile.Controller.ScaleUp | internal/core/pod/controller.go:70-81 | exactly the missing number of new pods, all others unchanged |
| PodReconcile.Controller.DeletePods | internal/core/pod/controller.go:82-89 | exactly the surplus at the head of the list goes |
| PodReconcile.Controller.RecreatePod | internal/core/pod/controller.go:222-248 | the pod is replaced by one made from its template |
| PodReconcile.Controller.RecoverOne | internal/core/pod/controller.go:90-119 | one entry of the stale list, also if the pod was deleted or evicted meanwhile |
| PodReconcile.Controller.ReconcileSet | internal/core/pod/controller.go:67-120 | in any valid state the set has the number of pods computed from the list; of the listed ones those are left that are retained, not lost and not evicted; those the controller starts run if that worked, the others are as listed, new ones run or are created; a name is taken iff a listed pod counts as lost, and other templates' pods are all left alone iff none is taken or none of them bears it |
| PodReconcile.TouchedExactly | internal/core/pod/controller.go:90-119 | which pods of the scaled set the recovery takes away |
| PodPass.ReconcileSets | internal/core/pod/controller.go:59-121 | all sets in any order from one stale list, names shared or not; each that nobody disturbs ends with the number computed from that list |
| PodPass.ReconcileTemplate | internal/core/pod/controller.go:130-189 | a template without a set has a pod afterwards if one can be made from it; it takes its name iff it has no pod or a listed one lost its infra container; the one listed pod it is to start runs if that worked, all others are as listed |
| PodPass.ReconcileOnce | internal/core/pod/controller.go:39-192 | the whole pass over any valid store: sets that nobody disturbs have the computed number and no set more than one too many, a template without a set that is still stored or undisturbed has a pod, names unique and templates stored; every pod that the pass started runs and is not stopped by the user, every other is as listed, or created if new |
| PodPass.NoClashUndisturbed | internal/core/pod/controller.go:39-192 | with template names apart nobody is disturbed |
| PodPass.QuietUndisturbed | internal/core/pod/controller.go:39-192 | with no degraded pod in a set and every other template with its pods up nobody is disturbed, whatever names are shared |
| PodPass.TurnPasses | internal/core/pod/controller.go:39-192 | the turn of another template leaves an undisturbed one as it is |
| PodPass.OrphanTakesName | internal/core/pod/controller.go:130-145 | a template without pods gets one in its turn, and whoever bore the name is gone |
| ContainerLifecycle.AddedHolds | internal/core/container/service_create.go:83-98 | between allocation and release the container has exactly its one address |
| ContainerLifecycle.ReleasedIsBefore | internal/core/container/service_create.go:207-212 | releasing it gives back exactly the pools of before, forwards included |
| ContainerLifecycle.ComesBack | internal/core/container/service_delete.go:73-98 | deletion finds the rules iff those the ports are recorded as are all there; all of them and no others are taken back iff all ports are numbers |
| ContainerLifecycle.ContainerService.SetupForwardRule | internal/core/container/service_create.go:792-837 | the ports are published and recorded one by one up to the first that is malformed or whose rules fail |
| ContainerLifecycle.ContainerService.CleanupForwardRules | internal/core/container/service_delete.go:73-98 | takes back the recorded forwards in order and stops at a rule that is not there; without a record nothing |
| ContainerLifecycle.ContainerService.Rollback | internal/core/container/service_create.go:207-238 | both stores as before; the rules stay |
| ContainerLifecycle.ContainerService.FinishCreate | internal/core/container/service_create.go:100-175 | the steps after the address, each undone on failure but for the rules of the ports published before the first bad one |
| ContainerLifecycle.ContainerService.Create | internal/core/container/service_create.go:23-197 | succeeds iff name, address, ports and steps allow it; a failed creation leaves the pools and the container store exactly as found, and the rules iff no port had been published |
| ContainerLifecycle.ContainerService.Delete | internal/core/container/service_delete.go:13-59 | record gone, rules taken back, address released, in that order |
| ContainerLifecycle.ContainerService.CreateThenDelete | internal/core/container/service_delete.go:28-59 | deleting succeeds iff the rules the ports are recorded as are all there; then pools and store are those before the creation, and the rules iff all ports were numbers |
| ContainerLifecycle.ContainerService.NextInheritsForwards | internal/core/container/service_create.go:207-236 | after a creation refused by the runtime the next container gets the address and the forwards left behind |
| DnsQuestion.KeyIsExact | internal/dns/cache.go:70-73 | two questions share a key iff their names agree letter by letter up to case and one final dot, and type, class and DO bit agree |
| DnsQuestion.MinTtl | internal/dns/cache.go:75-92 | the least TTL of all three sections |
| DnsQuestion.CacheableExactly | internal/dns/proxy.go:224-228 | the least TTL is positive iff there are records and none has TTL zero |
| DnsCache.Cache.Get | internal/dns/cache.go:30-47 | a hit iff present and not expired; an expired entry is dropped |
| DnsCache.Cache.Put | internal/dns/cache.go:49-68 | stores with a positive TTL, dropping one entry when full |
| DnsCache.LatestIsLast | internal/dns/cache.go:30-68 | the latest write under a key is the last one in lock order |
| DnsCache.StepKeepsInv | internal/dns/cache.go:30-68 | every step of every request keeps each entry equal to the last write of its key |
| DnsCache.HitIsCurrent | internal/dns/proxy.go:195-229 | in every interleaving a hit is the last answer written for the very same question, with every record within its TTL |
| DnsCache.HitExactly | internal/dns/proxy.go:195-229 | without a limit and with a clock that does not run backwards there is a hit iff the question was answered before and all records of the last such answer are within their TTLs |
| DnsCache.StoredKeeps | internal/dns/cache.go:49-68 | a put leaves all other entries alone but for one when the cache is full |
| DnsCache.DropIsInvisible | internal/dns/cache.go:37-45 | the expiry path changes no lookup at or after its time; a refreshed entry stays |
| DnsCache.NeverOverfull | internal/dns/cache.go:58-63 | with a limit the cache never exceeds it |
| DnsCache.ZeroTtlIsNotCached | internal/dns/proxy.go:224-228 | an answer is written iff it has records and none has TTL zero |
| LogRotation.PackKeepsAll | internal/dns/logger.go:61-93 | cutting a log into files loses nothing and keeps the order |
| LogRotation.PackIsTight | internal/dns/logger.go:85-93 | each file is within the limit or one oversized record, and no file was closed while the next record fitted |
| LogRotation.RotatedHolds | internal/dns/logger.go:95-126 | after a rotation and a write the files are again the last pieces of the log |
| LogRotation.DiskIsSuffix | internal/monitor/metrics_writer.go:64-132 | the files in order are a contiguous end of the log, numbered without gaps; only the oldest pieces are gone |
| LogRotation.Writer.Rotate | internal/dns/logger.go:95-126 | the descending renames move every backup up by one and drop the last |
| LogRotation.Writer.Write | internal/dns/logger.go:61-79 | the record is the last of the current file, after a rotation iff it would not fit; the files are the last pieces of the log |
| LogRotation.Writer.Reopen | internal/dns/logger.go:24-46 | a new writer on the files goes on where the old one stopped |
| ImageLayers.MkdirAllAt | internal/registry/dockerhub/handler.go:577-582 | after MkdirAll the path and all above it are directories, the rest as before |
| ImageLayers.MkdirAllExactly | internal/registry/dockerhub/handler.go:577-583 | MkdirAll fails iff the path or something above it is a file |
| ImageLayers.WriteFileAt | internal/registry/dockerhub/handler.go:647-666 | the file replaces whatever was at or below its path and clears its temporary name, nothing else |
| ImageLayers.ApplyAt | internal/registry/dockerhub/handler.go:510-630 | after any entry that applies each path is what the entry says of it, cleared if it was its temporary name, or what it was |
| ImageLayers.ApplyCloses | internal/registry/dockerhub/handler.go:510-630 | everything always lies in directories |
| ImageLayers.UnpackedIsLastEffect | internal/registry/dockerhub/handler.go:501-630 | for all entries that apply: a path holds what the last entry with an effect on it did |
| ImageLayers.FitsExactly | internal/registry/dockerhub/handler.go:510-630 | an entry can be unpacked iff: a directory or opaque marker, no file in its way; a file, none in the way of its directory and no directory at its temporary name; a whiteout always; a special file below dev; never one that leaves the root |
| ImageLayers.UnpacksExactly | internal/registry/dockerhub/handler.go:501-630 | entries can be unpacked iff each fits after those before it |
| ImageLayers.UnpackedIsLastVerdict | internal/registry/dockerhub/handler.go:501-630 | for all entries that apply: a path holds what the last entry to speak of it says iff it is not lost to a temporary name; a lost path holds nothing |
| ImageLayers.TmpIsLost | internal/registry/dockerhub/handler.go:647-666 | an instance: a file named like the temporary file of a later one is lost, in the other order it is not |
| ImageLookup.OrderDoesNotMatter | internal/registry/dockerhub/handler.go:510-630 | a layer that keeps to the rules is in order at every path, and its last word is the word of the layer read without order |
| ImageLookup.OrderAt | internal/registry/dockerhub/handler.go:510-630 | the last entry to speak of a path says what the layer as a whole says iff the entries are in order at that path |
| ImageLookup.UnpackedIsLayeredView | internal/registry/dockerhub/handler.go:501-630 | for all layers that apply: a path holds what the lookup from the topmost layer down shows iff it is not lost to a temporary name and the deciding layer is in order there |
| ImageLookup.LateMarkerEmpties | internal/registry/dockerhub/handler.go:554-563 | an instance: a marker after a file of its own layer removes that file; a whiteout before it does no harm |
| ImageLookup.RootFs.RemoveAllChildren | internal/registry/dockerhub/handler.go:680-702 | child by child, the directory ends up empty, made if missing, an error if a file |
| ImageLookup.RootFs.ApplyOne | internal/registry/dockerhub/handler.go:520-629 | one archive entry |
| ImageLookup.RootFs.ApplyLayer | internal/registry/dockerhub/handler.go:510-630 | one layer; fails iff one of its entries does |
| ImageLookup.RootFs.ApplyLayers | internal/registry/dockerhub/handler.go:501-508 | all layers; into an empty root it succeeds iff each entry fits after those before it |

## Left out

- HTTP handlers, routers, websockets, audit logs, certificates, AppArmor and the monitor's statistics: request plumbing, library calls and floating-point sums.
- Command-line texts of iptables, ip, nsenter and the runtime: a chain is a sequence of rules, the runtime an outcome.
- JSON and YAML: decoding what was encoded is the identity; a CIDR or address text is its number.
- Clocks, ULIDs and random names: times are parameters, ULIDs are numbers that only grow, and a pod name with a new suffix is taken to be new. In the program the suffix is the first eight characters of a ULID, which hold its time only.
- PolicyMeaning.RootVerdict: iptables is taken to accept or refuse a rule the same way throughout one commit, and how a packet meets an address or protocol text is left to the packet (`srcIn`, `dstIn`, `protoIs`).
- PolicyService.ServicePolicy.AddUserPolicy: the texts and comments of a policy are kept as they are; the east-west mode, which nothing changes, is not modelled.
- Timestamps of policies, pods and containers.
- IpamManager.Manager.StoreBridge: a /0 runtime subnet with every /24 taken is excluded, because the loop then never ends (`EndlessLoop`).
- IpamManager.Manager.FirstFreeSubnet: the same.
- LockedStore.FileIsReplayOfLog: the lock file is taken to be honoured by the kernel, and a torn write can hit the temporary file only.
- The stores of containers, images, bottles and services use the same lock and save code as the modelled one and are not repeated.
- Bottles.Bottle.Create: substituting dependency addresses into the environment is reduced to the ids being there when they are looked up; networks and policies of a bottle are an outcome.
- LoadBalancing.ShareFormula: exact fractions; the four decimals printed to iptables are not modelled.
- ServiceController.Controller.ReconcileOnce: the deletions whose errors the program ignores are taken to fail only when there is nothing to delete; the FORWARD rules of endpoints, which the program never takes back, and the order of jumps between services of one port are not modelled. Services are taken to differ in the first eight characters of their ids, which ULIDs of nearby times do not always do, and a service keeps its ports, as no operation changes them.
- PodPass.ReconcileOnce: the controller's own container operations are taken to succeed, and wanted numbers not to be negative (a manifest can ask for one, and the program then indexes past the list); starting a pod may fail. Templates that others disturb are promised unique names and an upper bound only.
- PolicyFiles.AfterSwap: backups and reverts are one at a time; nothing in the program keeps two requests from overlapping, and a power loss between a copy and its reaching the disk is not modelled.
- PodController.SuffixedCreates: a new suffix is new by its type, see the clocks above.
- PodOperations.PodService.Start: the checks against the template and the containers it creates are one outcome.
- Pods stored by older versions, without template or uid, and pod namespaces.
- The pod store's operations are sequential: between storing a template and its replica set a concurrent pass of the controller could come in.
- ContainerLifecycle.ContainerService.Create: containers outside pods with a given name; directories and cgroups are not part of the state, the rules of one port come and go together, and the stores themselves do not fail.
- ContainerLifecycle.ContainerService.Delete: a container that does not run; the runtime's deletion succeeds and its last hook takes the record out.
- DnsQuestion.KeyIsExact: an escaped final dot, and letters beyond ASCII.
- DnsCache.HitIsCurrent: queries that the proxy takes for uncacheable, upstream servers, message ids and the network are left out; a message is its TTLs and a body.
- LogRotation.Writer.Write: failing renames and what a crash loses of a buffer; the JSON text of a record is its bytes.
- ImageLookup.UnpackedIsLayeredView: symbolic and hard links, owners, modes and times; archives that fail to read; whiteouts of an empty name.
- Image references, Dripfiles, overlay copy-back, registry requests, file tailers and watchers.
