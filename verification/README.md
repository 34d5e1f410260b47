# eproxy in Dafny

eproxy replaces kube-proxy. Its control plane, `ServiceManager`, writes two kernel maps: the service
map takes a frontend (address, port, protocol) to an id and an endpoint count, the backend map takes
`id << 16 | slot` to an address and a port. Its data plane, the socket hook `connect4`, reads the two
maps with two unlocked lookups and rewrites the destination of a connect.

## What is proved

**Control plane against data plane.** `Machine` is a state machine whose steps are updates and
deletes, broken into single-key writes. Its state records every intermediate state of the tables, so a
connect is a pair of states of that record, the second not older than the first. A write the kernel
refuses (deleting an absent key, adding to a full map) makes the iteration over the ports panic and
ends the run. Iteration orders over port sets are free parameters. `Manager` is the Go class in
imperative form, each method proved to take exactly one step of the machine. The machine has two
codes:

- `Written` is the repository's code.
- `Repaired` differs in three places: the allocator marks the id it hands out (the code marks the id the
  service had before, always 0); a delete drops the slots an append wrote, 1 to n (the code drops 0 to
  n - 1); a delete drops that block once, after all entries (the code drops it at every port). `Repaired`
  is not in the repository; it is there to say what the code was meant to do.

The properties one expects are false of `Written`, so they are given with their exact conditions, for
both codes:

| question | `Written` | `Repaired` |
|---|---|---|
| Does a run go through? | iff no update or delete meets a live service that has a port and an endpoint, and the service map does not overflow | iff neither map overflows |
| Is a connect right at any two points of a run that goes through? | iff all services ever asked for store equal values in every slot they share | iff every service asked for has one target port (or no endpoint) |
| And of a run that ends in a panic? | the same of what the run carried out: nothing of an update whose delete is refused, and a service cut short by a full map counts with the ports reached | the same |
| Between operations, is connect the lookup in the table of last updates and deletes? | iff all live services store equal values in the slots they share | iff every live service has one target port (or no endpoint) |
| Which ids are handed out? | always 1 | 1, 2, 3, ... in order, never twice |

Safety at any two points (the second and third answers) needs no assumption about frontends; the first
and fourth answers assume that live services have disjoint ones. `Witnesses` has concrete runs on which
the two codes differ, and one on which both fail.

**Sets.** Iteration with removal and early stop, equality by size and one-way membership, and the three
strategies of `IterUnion`, all shown to traverse one union.

**Mount table.** The parser and its inverse: a record survives printing and parsing iff it is
`Printable`, an accepted line survives parsing and printing iff its numbers are canonical, and a file of
records survives iff each is `Printable` and `LineSafe`.

**Informer and controller.** Replaying the emitted events always rebuilds the indexer; the retry counter
is the failure streak, capped; no key on the queue gets lost; keys round-trip exactly when the parts are
slash-free.

## Modules

`Words`, `Services`, `Tables`, `DataPlane`, `Writes`, `Machine` and `Manager` are the model of the first
part; `Safety`, `Ids`, `Live`, `Runs`, `Theorems`, `Interrupted`, `OneAppend` and `Witnesses` prove things
about it. `Clients` says the main results once more from outside, without any of the manager's own keys.
`Endpoints` builds services from API objects and drives the manager. `Sets` and `Union`; `Text`,
`MountInfo` and `MountFile`; `Informer` and `Controller` stand on their own.

## Where code and comments disagree

The model follows the code. A comment in `pkg/mountinfo/mountinfo.go:46-48` says there is at least one
optional field; the code accepts none. Comments in `ebpf/src/kernel/common.h:9` say the protocol is not
used and set to 0; both planes use it in the key. The name `LittleEndianPort` notwithstanding, the value
it computes is the port in network byte order, as a little-endian host reads it.

## Model

| member | source | states |
|---|---|---|
| Words.BackendKeyIsShiftOr | ebpf/src/service.c:56 | The arithmetic key is what both planes compute bitwise: the id shifted left by 16, or-ed with the slot |
| Words.BackendKeyBijective | pkg/bpf/types.go:33-35 | Packing is a bijection between pairs of 16-bit words and 32-bit keys |
| Words.ByteSwapIsShiftOr | pkg/utils/utils.go:21-25 | The arithmetic swap is the source's masks and shifts |
| Words.ByteSwapIsNetworkOrder | pkg/utils/utils.go:21-25 | The swapped port is what a little-endian host reads from a field in network order |
| Words.ByteSwapInvolution | pkg/utils/utils.go:21-25 | Swapping twice gives the port back, so ports never collide |
| Words.RemainderIsMod | ebpf/src/service.c:55 | Repeated subtraction is the modulo of the slot draw |
| Words.CountDraws | ebpf/src/service.c:55 | For every bound and divisor, how many draws below the bound fall on each residue |
| Services.FrontendIsSeen | pkg/manager/manager.go:82-86 | The entry's key is what clients of the port have in their contexts: the service's address, the port in network byte order and 6, 17, 132 or 0 for TCP, UDP, SCTP or anything else |
| Services.KeysEqualIff | pkg/manager/service.go:56-58 | Services of slash-free namespaces share a key iff they share namespace and name |
| Services.SlashedNamespacesCollide | pkg/manager/service.go:56-58 | Slash-freeness is needed: namespace x/y, name z and namespace x, name y/z share a key |
| DataPlane.SockAddr.Connect4 | ebpf/src/service.c:35-66 | The hook always lets the connect proceed. If the socket is a stream or datagram one, the entry under address, port and protocol cut to their widths has a positive count, and slot draw mod count + 1 of its id is there, address and port become those of that backend; otherwise both stay |
| DataPlane.PickSlotInRange | ebpf/src/service.c:51-55 | The 16-bit slot never wraps and lies between 1 and the count |
| DataPlane.SlotsBalanced | ebpf/src/service.c:51-55 | Each slot is picked by floor or ceiling of 2^32 / count draws, and which of the two; no draw leaves the range |
| Tables.PutsDoneIff | ebpf/src/service.c:18-32 | A batch of puts goes through iff its result fits both maps, and never leaves a map over capacity |
| Writes.AppendWritesOwn | pkg/manager/manager.go:81-117 | Every single write of an append is an entry of the service or one of its own slots |
| Writes.AppendEffect | pkg/manager/manager.go:81-117 | The write sequence of an append amounts to the visits of its ports, whatever the order |
| Writes.VisitPoints | pkg/manager/manager.go:81-117 | Every point of one visited port: the entry clients look up goes in with the first write, then slot i with endpoint i and the target port in network order, one per write; nothing else changes |
| Writes.AppendedEntries | pkg/manager/manager.go:82-98 | An append points exactly its own frontends at itself and no other |
| Writes.AppendedBackends | pkg/manager/manager.go:99-115 | The service's block ends up as the port visited last wrote it; every other key is as before |
| Writes.WrittenDeleteEffect | pkg/manager/manager.go:32-52 | When slot 0 is absent a delete goes through iff there are no ports, or no endpoints and the entries are there, and then removes exactly the entries |
| Writes.RefusedDeleteLeaves | pkg/manager/manager.go:32-52 | A delete refused at slot 0 has made exactly one write: the first visited port's entry is gone |
| Writes.RepairedDeleteEffect | pkg/manager/manager.go:32-52 | The repaired delete goes through iff its entries and block are there, and removes exactly those |
| Machine.FirstFree | pkg/manager/manager.go:73-79 | The allocator's id is the least one not marked, or none is left |
| Manager.ServiceManager.constructor | pkg/manager/manager.go:169-176 | A new manager lists nothing and takes the two maps as it finds them; on empty maps it is the machine's initial state |
| Manager.ServiceManager.AllocateId | pkg/manager/manager.go:72-79 | The loop gives the least unmarked id from 1 to 65534 and marks the id the service had before; if there is none it does nothing |
| Manager.ServiceManager.AppendVisit | pkg/manager/manager.go:81-117 | One visited port: the entry first, then all slots, up to the first refused write; when none is, exactly the entry that clients of the port look up is set, and slot i + 1 holds endpoint i with the target port in network order |
| Manager.ServiceManager.AppendService | pkg/manager/manager.go:72-121 | An append is one machine step for some iteration order over the ports, with every intermediate table state recorded |
| Manager.ServiceManager.DeleteVisit | pkg/manager/manager.go:32-52 | One visited port of a delete, up to the first refused write; when none is, exactly the entry clients of the port look up is gone, and slots 0 to n - 1 are |
| Manager.ServiceManager.DeleteService | pkg/manager/manager.go:26-57 | A delete is one machine step for some iteration order; an unknown key changes nothing; a refused write panics and keeps the service listed |
| Manager.ServiceManager.UpdateService | pkg/manager/manager.go:59-70 | An update is one machine step: delete what is listed under the key, then append; without a panic the service is listed under namespace/name and every other listed service is as before |
| Safety.RunHistory | pkg/manager/manager.go:26-121 | In every intermediate state of every run, crashed or not, each entry is one its owner wrote and each slot holds what some appended service stores there |
| Safety.CoherentSafe | pkg/manager/manager.go:26-121 | If services with equal ids agree slot by slot, every connect at any two points of any run, even a crashed one, is right or leaves the destination alone |
| Safety.SafeMakesAgree | ebpf/src/service.c:46-63 | Conversely, when one point holds one service completely and a later point another of the same id, safe reads between the two points force them to agree |
| Ids.RepairedAppendIds | pkg/manager/manager.go:72-79 | Repaired, the next append gets the least id never used, which no earlier service has |
| Ids.RepairedRunIds | pkg/manager/manager.go:72-79 | Repaired, n updates have used exactly ids 1 to n, one each, in every run of at most 65534 updates |
| Ids.WrittenAppendIds | pkg/manager/manager.go:72-79 | As written, a service fresh from `NewService` gets id 1 |
| Ids.WrittenRunIds | pkg/manager/service.go:32 | As written, every run marks at most id 0 and every service has id 1 |
| Live.RunRepresents | pkg/manager/manager.go:26-121 | After every run that goes through, the listed services are those the last update or delete of each key left |
| Live.AppendLive | pkg/manager/manager.go:72-121 | An append keeps: the tables hold every live service completely, and nothing else |
| Live.DropLive | pkg/manager/manager.go:26-57 | So does a delete that removes the service's own block only |
| Runs.EntryKeys | pkg/manager/manager.go:81-98 | Between operations the service map's keys are exactly the live frontends |
| Runs.SlotCount | pkg/manager/manager.go:99-115 | With unique ids the backend map has exactly one entry per live endpoint |
| Runs.OneIdFits | pkg/manager/manager.go:99-115 | With one id for all, the backend map never fills up |
| Runs.WrittenDelete | pkg/manager/manager.go:26-57 | As written, deleting a live service panics iff it has a port and an endpoint |
| Runs.WrittenRefusedLeaves | pkg/manager/manager.go:32-52 | What the panicking delete of a live service leaves: it stays listed, the backends stay, and exactly the entry of the first visited port is gone |
| Runs.RepairedDelete | pkg/manager/manager.go:26-57 | Repaired, deleting a live service always goes through and leaves exactly the others |
| Runs.RunGoesThrough | pkg/manager/manager.go:26-121 | A run goes through iff each operation is accepted by a condition on the table of last updates and deletes alone; the tables then hold exactly the live services |
| Theorems.RunAgreesIff | ebpf/src/service.c:35-65 | Between operations, every connect equals lookup in the abstract table iff live services with equal ids agree, for either code |
| Theorems.RepairedAgreesIff | pkg/manager/manager.go:26-121 | Repaired: iff every live service has one target port |
| Theorems.WrittenAgreesIff | pkg/manager/manager.go:26-121 | As written: iff all live services agree slot by slot |
| Theorems.PoolIsAskedFor | pkg/manager/manager.go:72-121 | Whatever was ever appended is what some update asked for, with an id |
| Theorems.UpdatesArePooled | pkg/manager/manager.go:59-70 | Conversely, every update of a run that goes through was appended |
| Theorems.PoolIsCarried | pkg/manager/manager.go:72-121 | Whatever a run that goes through ever appended was, at some point, completely in the tables |
| Theorems.RunSafeIff | ebpf/src/service.c:46-63 | Either code, any run that goes through, frontends shared or not: connects are safe at any two points iff all services ever appended under one id agree slot by slot |
| Theorems.RepairedSafe | pkg/manager/manager.go:26-121 | Repaired and with one target port per service, connects are safe at any two points of every run, even one a full map cuts short |
| Theorems.RepairedSafeIff | ebpf/src/service.c:46-63 | Repaired: safe at any two points iff every service asked for has one target port |
| Theorems.WrittenSafe | pkg/manager/manager.go:26-121 | As written, agreeing services are safe in every run, crashed or not |
| Theorems.WrittenSafeIff | ebpf/src/service.c:46-63 | As written, any run that goes through: safe at any two points iff all services asked for agree slot by slot |
| Interrupted.StopsThere | pkg/manager/manager.go:81-117 | An append writes exactly what the append of the ports it reaches writes; how many it reaches follows from the free room in the two maps |
| Interrupted.CutUpdate | pkg/manager/manager.go:59-70 | An update leaves the same history as the update to the service cut to the ports reached, but for who owns its entries |
| Interrupted.EveryRunSafeIff | pkg/manager/manager.go:26-121 | Either code, every run, crashed or not: safe at any two points iff the services it carried out agree under one id |
| Interrupted.WrittenEveryRunSafeIff | pkg/manager/manager.go:26-121 | As written, every run, crashed or not: safe iff all services it carried out agree slot by slot |
| Interrupted.WrittenRefusedSafeIff | pkg/manager/manager.go:26-70 | An update or delete that panics over the live service: safe iff the services before it agree, whatever the update asked for |
| Interrupted.RepairedEveryRunSafeIff | pkg/manager/manager.go:26-121 | Repaired, every run, also one a full map cuts short: safe iff each service it carried out has one target port |
| Interrupted.EffectiveIsAll | pkg/manager/manager.go:26-121 | A run that goes through carries out all it was asked |
| OneAppend.AppendFrame | pkg/manager/manager.go:81-115 | Whatever the tables held, at every cut of an append the keys outside the service's frontends and block are untouched |
| OneAppend.AppendOwn | pkg/manager/manager.go:81-115 | Into free keys, at every cut the keys inside hold only what this service wrote |
| OneAppend.AppendSafe | pkg/manager/manager.go:81-117 | Into free keys and with one target port, connects to the service are safe at any two cuts, also of an append that is refused part of the way |
| OneAppend.AppendSafeIff | pkg/manager/manager.go:81-117 | Into free keys, connects to the service at any two cuts of an append that goes through are safe iff it has one target port |
| OneAppend.AnyAppendSafeIff | pkg/manager/manager.go:81-117 | Into free keys, of any append, refused or not: safe iff the ports it reaches have one target port |
| OneAppend.AppendedServes | pkg/manager/manager.go:87-115 | After an append with one target port, every draw gives the endpoint at draw mod n with the swapped target port, and every endpoint is drawn |
| Clients.AppendedAnswers | pkg/manager/manager.go:81-115 | After an append of a service with one target port, a stream or datagram connect to its address, the port in network order and the protocol number gets endpoint draw mod n with the target port in network order |
| Clients.ListedByName | pkg/manager/manager.go:26-121 | After a run that goes through, the listed services are exactly those the last update or delete of each namespace and name left, one for each |
| Clients.GoesThroughIff | pkg/manager/manager.go:26-121 | A run goes through iff each operation is accepted, given what namespaces and names hold by then: as written nothing replaced or deleted has both ports and endpoints, and live ports (and, repaired, live endpoints) number at most 65536 |
| Clients.AnswersRightIff | ebpf/src/service.c:35-65 | Either code, after any run that goes through: every connect whatever gets the selected endpoint of the service it dials, and is left alone when it dials none or one without endpoints, iff live services have one target port (repaired) or agree slot by slot (as written) |
| Clients.Dial | ebpf/src/service.c:35-66 | The same of the hook itself: it leaves the selected endpoint and target port in the context, or what was there |
| Clients.SafeAnswer | ebpf/src/service.c:46-63 | In a safe run, a connect at any two points that is rewritten goes to the selected endpoint of a service some update asked for and the connect dials |
| Witnesses.WrittenMixesServices | pkg/manager/manager.go:75 | Two one-port services: as written one's connects reach the other's endpoint, repaired they do not |
| Witnesses.WrittenUpdatePanics | pkg/manager/manager.go:44 | Updating a service with a port and an endpoint panics as written and goes through when repaired |
| Witnesses.TwoTargetsUnsafe | pkg/manager/manager.go:99-115 | A service with two target ports is unsafe even when repaired |
| Endpoints.NewService | pkg/manager/service.go:28-54 | Panics iff some endpoint has no readiness or is ready and has a non-IPv4 address; otherwise the result has the API object's namespace, name and address, id 0, a port iff some API port has its protocol, its port and its target port cut to 16 bits, and one endpoint for each usable address, in order |
| Endpoints.ReadyAddressesInOrder | pkg/manager/service.go:44-52 | The addresses come from all places where a ready endpoint has a non-zero address, each place once, in the order of the places |
| Endpoints.ReadyAddressListed | pkg/manager/service.go:44-52 | An address is used iff it is not zero and a ready endpoint lists it |
| Endpoints.EndpointHandler | pkg/kubernetes/controller/controller.go:85-107 | Fails iff the slice, or the service its label names in its namespace, is unknown; panics iff the slice is faulty or the manager panics; a failure or a faulty slice leaves the manager alone; otherwise the manager takes one machine step, panic or not: a delete of namespace/name for a slice being deleted, else an update to a service with the fields the API objects say |
| Sets.Typed.AddAll | pkg/utils/set/set.go:72-76 | Adds exactly the listed items |
| Sets.Typed.AddSet | pkg/utils/set/set.go:79-84 | Union, also when a set is added to itself |
| Sets.Typed.Iter | pkg/utils/set/set.go:99-114 | Visits distinct members; stops at the first stop or error; ends with the old set minus exactly the members answered with remove; panics iff the last answer was an error |
| Sets.IterVisitsAllOnce | pkg/utils/set/set.go:99-114 | Without a stop, each member is visited exactly once |
| Sets.Typed.Copy | pkg/utils/set/set.go:116-122 | A new set with the same members |
| Sets.Typed.Slice | pkg/utils/set/set.go:124-129 | Every member once, nothing else |
| Sets.Typed.Equals | pkg/utils/set/set.go:131-141 | Equal sizes and one-way membership hold iff the sets are equal |
| Sets.Typed.ContainsAll | pkg/utils/set/set.go:143-153 | The early-stopping loop answers iff the other set is a subset |
| Union.IterOne | pkg/utils/set/union.go:29-37 | One set: distinct members, up to the first the callback rejects, or all |
| Union.SortBySize | pkg/utils/set/union.go:42-46 | Permutes the slice in place, biggest set first |
| Union.UnionOfPermutation | pkg/utils/set/union.go:42-46 | Sorting the slice does not change the union |
| Union.IterFew | pkg/utils/set/union.go:39-68 | Two to four sets: membership in an earlier set replaces a record of what was seen, and the union is traversed all the same |
| Union.IterMany | pkg/utils/set/union.go:70-90 | Five or more sets: same, with a record that leaves out the last set |
| Union.IterUnion | pkg/utils/set/union.go:24-91 | Whichever strategy: calls are distinct members of the union, the first rejected call is the last one, and if none is rejected all members are called |
| Union.ExactlyOnce | pkg/utils/set/union.go:24-91 | A complete traversal calls each member of the union exactly once and nothing else |
| Union.NeverStops | pkg/utils/set/union.go:24-91 | A callback that never says stop gets a complete traversal, however the sets are ordered |
| Text.JoinSplit | pkg/mountinfo/mountinfo.go:49-56 | Joining what was split gives the string back, for any separator |
| Text.SplitJoin | pkg/mountinfo/mountinfo.go:55-56 | Splitting what was joined gives the parts back if none holds the separator |
| Text.ParseFormat | pkg/mountinfo/mountinfo.go:68-76 | Every 64-bit integer is read back from its decimal form |
| Text.ParsePlaces | pkg/mountinfo/mountinfo.go:68-76 | A digit is its value, a further digit counts ones and moves the others up one place, a sign counts for all, and a number is refused iff it does not fit 64 bits |
| MountInfo.ParseOne | pkg/mountinfo/mountinfo.go:49-95 | The loop body computes the functional parse, with the same error for the same reason |
| MountFile.ParseFile | pkg/mountinfo/mountinfo.go:43-102 | One record per line in order if all lines parse; otherwise the first bad line's error and no record |
| MountInfo.SplitAtDash | pkg/mountinfo/mountinfo.go:49-52 | Splitting the text at " - " is splitting the fields at the first lone dash with a field on either side |
| MountInfo.ParseLineIsParseFields | pkg/mountinfo/mountinfo.go:49-95 | The two-level text splitter is a parser of the list of space-separated fields |
| MountInfo.AcceptedIff | pkg/mountinfo/mountinfo.go:49-76 | A line is accepted iff its fields are at least six, of which two numbers, a lone dash and three more, with no other dash that could separate |
| MountInfo.LineSpelled | pkg/mountinfo/mountinfo.go:84-95 | The printed form has the ids, device, root, mount point and options, the optional fields, the dash, the file system type, source and super options in this order |
| MountInfo.RoundTripIff | pkg/mountinfo/mountinfo.go:49-95 | Printing then parsing gives the record back iff its numbers fit 64 bits, its fields have no space, and neither the mount source nor any field before the separator is a lone dash |
| MountInfo.ParsedIsPrintable | pkg/mountinfo/mountinfo.go:49-95 | Every record the parser returns is printable |
| MountInfo.ReprintIff | pkg/mountinfo/mountinfo.go:49-95 | Reprinting an accepted line gives the line back iff its two numbers are in canonical decimal form |
| MountFile.ScanTextIff | pkg/mountinfo/mountinfo.go:40-44 | The scanner finds as many lines as were put together iff none had a newline in it |
| MountFile.ScanCuts | pkg/mountinfo/mountinfo.go:40-44 | The scanner cuts at the first newline, drops one carriage return before it, and makes no line of an empty rest |
| MountFile.FileRoundTripIff | pkg/mountinfo/mountinfo.go:37-103 | Printing a list of records, scanning the text into lines and parsing the file gives the list back iff each record is printable, has no newline and does not end in a carriage return |
| Informer.SharedInformer.ProcessDeltas | pkg/kubernetes/informers/EndpointSlice.go:142-167 | The loop over objects it blanks in place is the loop on values, where an object seen twice in a batch is blank the second time; indexer and events stay in step; all objects end up blank. For distinct objects the last delta of each key decides: gone if a delete, else stored with the namespace, name and kept fields its object had before the batch |
| Informer.SharedInformer.Act | pkg/kubernetes/informers/service.go:143-161 | One delta updates the indexer and fires the one event for it, or reports an error and does neither |
| Informer.Convert | pkg/kubernetes/informers/EndpointSlice.go:59-107 | The copy has the object's namespace, name and kept fields and nothing else, and the object is blank afterwards; a tombstone keeps its key besides; anything else passes through |
| Informer.ProcessKeepsInStep | pkg/kubernetes/informers/EndpointSlice.go:142-167 | For any deltas, also cut short by an error: replaying the events rebuilds the indexer, adds are of absent keys, updates carry the value they replace |
| Informer.ProcessLastWord | pkg/kubernetes/informers/service.go:139-164 | A batch succeeds iff every delta acted on has a key; then the last delta of each key decides what is stored |
| Informer.ProcessEvents | pkg/kubernetes/informers/service.go:143-161 | A batch that succeeds fires one event per delta acted on, in order, with that delta's object, a delete for deletes only |
| Informer.SameIndexKeyIff | pkg/kubernetes/informers/EndpointSlice.go:148 | Objects with slash-free namespace and name share an indexer key iff they share both |
| Controller.KeyRoundTripIff | pkg/kubernetes/controller/controller.go:64-78 | A key built from an object is routed to its kind's handler with its namespace and name, or ignored if the kind has none, iff the kind has none, or the namespace is not empty and neither part has a slash |
| Controller.RoutedIff | pkg/kubernetes/controller/controller.go:64-78 | The strings that reach each handler with a given namespace and name: exactly Service/namespace/name and EndpointSlice/namespace/name with slash-free parts |
| Controller.SameKeyIff | pkg/kubernetes/controller/basecontroller.go:68-86 | Any two objects share a queue key iff they share kind and object key |
| Controller.KeysDistinct | pkg/kubernetes/controller/basecontroller.go:68-86 | Different objects with slash-free namespace and name never share a key, of whatever kind, with or without a namespace |
| Controller.SlashesCollide | pkg/kubernetes/controller/basecontroller.go:81-85 | Slash-freeness is needed: name a/b without a namespace and name b in namespace a share a key |
| Controller.IgnoredIff | pkg/kubernetes/controller/controller.go:65-77 | Any string at all is acted on iff it has exactly two slashes and starts with the name of a handled kind |
| Controller.BaseController.Enqueue | pkg/kubernetes/controller/basecontroller.go:68-86 | Puts the object's key on the queue, once |
| Controller.BaseController.ProcessNextWorkItem | pkg/kubernetes/controller/basecontroller.go:98-135 | Handles one pending key: success forgets its count, failure requeues it and counts, or drops it at the limit |
| Controller.CountIsStreak | pkg/kubernetes/controller/basecontroller.go:114-125 | In every run the requeue count is the failures since the last success, capped at the limit |
| Controller.RequeuedAreEarly | pkg/kubernetes/controller/basecontroller.go:114-124 | The failures that leave the key on the queue are exactly those with fewer than M failures before them since the last success; all others take it off |
| Controller.NothingGetsLost | pkg/kubernetes/controller/basecontroller.go:98-135 | Conservation: each time a key gets onto the queue ends in a success or a drop, or the key is still there |
| Controller.NoLimitNoDrop | pkg/kubernetes/controller/basecontroller.go:117 | With limit 0 the key is on the queue after every failure |
| Controller.RetryBudget | pkg/kubernetes/controller/basecontroller.go:117-125 | With limit M > 0 a key is requeued at most M times per success and M times more |
| Controller.AlwaysFails | pkg/kubernetes/controller/basecontroller.go:114-124 | A key that came in once and always fails stays pending through M failures and is gone after M + 1 |
| Controller.OneAttemptAfterDrop | pkg/kubernetes/controller/basecontroller.go:117-123 | Dropping does not reset the count: a dropped key that comes in again gets a single attempt |

## Left out

- OnUpdateEndpointSlice and OnDeleteEndpointSlice (pkg/manager/manager.go:123-165): nothing calls them.
- Nil kernel maps (pkg/manager/manager.go:91-94, 107-110): the program exits when loading them fails.
- Headless services: without an IPv4 cluster address the code dereferences a nil slice.
- Services with 65536 endpoints or more: the count and the slot would wrap.
- Services two of whose ports have the same frontend: Kubernetes rejects them.
- Live services that share a frontend, in the results about going through and about agreement between operations (`DisjointRun`); the results about safety at any two points allow them.
- Manager.ServiceManager.constructor: the maps are pinned and outlive the process; the methods are covered from any tables, but the results about whole runs start from empty ones, so a manager restarted after a panic is not covered by them.
- Informer.SharedInformer.ProcessDeltas: what the indexer stores is a value, so a tombstone made by a relist, which holds the indexer's own object and gets it blanked before the delete, is not covered.
- Namespaces with a slash, in the results by namespace and name (`ProperNames`): Kubernetes rejects them, and `SlashedNamespacesCollide` shows what they would do.
- More than 65534 appends under the repair: ids are never released, so the allocator runs dry.
- More than one worker: the program starts one, and the manager reads its table without the lock.
- Torn reads of one map value: an entry is read whole.
- Kernel errors other than an absent key or a full map.
- Removing a deleted slice: once it has left the lister the handler fails, as the model says; nothing is proved about what comes later.
- Merging several slices of one service: each update replaces the whole endpoint list, in the code and in the model.
- ServiceHandler, which does nothing; enqueuing tombstones, which have no object key.
- Queue items that are not strings, delays and the in-flight bookkeeping of the queue: pending keys are a set.
- Indexes of the informer's store beyond its key, and the queue that makes the deltas.
- The scanner's limit on line length, and input errors.
- sort.Slice's own algorithm: `SortBySize` is a selection sort with the same result up to the order of equally big sets.
- Union.IterUnion: the sets are values, so a callback that changes one of them is not covered; a callback's answer is a function of the item and the items before it.
- Sets.Typed.Iter: a visitor's answer is a function of the item and the items before it; a visitor that changes the set other than by answering remove is not covered.
- Big-endian hosts.
- Loading and attaching the hook, the pinned-map wrappers, cgroup and file-system mounting, signals, flags and client construction.
