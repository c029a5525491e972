# Storm on Mesos: scheduler utilities

This project models the core of the Mesos scheduler for Storm: the static routines of
`SchedulerUtils`. They turn resource offers from Mesos into worker slots for a topology.

- `getPorts` walks a resource pool's port ranges in order and hands out up to `requiredCount`
  entries.
- `createMesosWorkerSlot` reserves a worker's CPU, then memory, then one port from a pool. When
  no supervisor runs on the host yet, the executor's overhead is added. It then builds the
  `MesosWorkerSlot`.
- `supervisorExists` checks whether the topology already has a supervisor on the offering host.
- `getOfferResourcesListPerNode` groups the held offers into one pool per offer, listed per host.

Layout:

- `resources.dfy` (`Resources`):
  - resource entries and the `Offer` record;
  - the mutable pool class `OfferResources`;
  - the pure `Reserved` that gives its `Reserve` method a contract.
- `port_walk.dfy` (`PortWalk`): the port walk as values.
  - `AllDrawn` is the unbounded walk, and `TakePorts` is the prefix that `getPorts` returns.
  - Its lemmas cover length, order, range membership and malformed ranges.
  - It also holds the single-port walk of the finding below.
- `worker_slots.dfy` (`WorkerSlots`): `SlotAttempt` is the pool and outcome of one slot attempt,
  with one lemma per way the attempt can end.
- `offer_grouping.dfy` (`OfferGrouping`): `Grouped` is the reference per-host grouping, with its
  shape and a count lemma.
- `scheduler_utils.dfy` (`SchedulerUtils`): the four routines as imperative methods, each proved
  against the value-level definitions above.

In the code, `getPorts` draws `[begin, begin+i]` from a range. The design description of the
allocator says it draws the single port `[begin+i, begin+i]`. The model follows the code, and
the difference is logged under "## Findings".

## Model

| member | source | states |
|---|---|---|
| SchedulerUtils.GetPorts | storm/src/main/storm/mesos/schedulers/SchedulerUtils.java:45-59 | The nested loops return exactly `TakePorts(ports, requiredCount)`: the first `min(requiredCount, available)` entries of the in-order walk over the ranges. The result is empty when `requiredCount <= 0`. |
| PortWalk.Wanted | storm/src/main/storm/mesos/schedulers/SchedulerUtils.java:52-54 | The number of entries drawn never exceeds what is available. For a positive request it is the whole supply or the exact request. It never exceeds a positive request. |
| PortWalk.TakePortsLength | storm/src/main/storm/mesos/schedulers/SchedulerUtils.java:49-56 | `getPorts` returns `min(requiredCount, total ports)` entries, and nothing for `requiredCount <= 0`. |
| PortWalk.TakePortsSplit | storm/src/main/storm/mesos/schedulers/SchedulerUtils.java:49-56 | Walking `a + b` walks `a` first, then `b` with the count that is left. A later range is drawn from only once every earlier range is used up. |
| PortWalk.TakePortsStep | storm/src/main/storm/mesos/schedulers/SchedulerUtils.java:49-55 | One outer iteration appends `Wanted(remaining, width)` entries `[b, b+i]` from the next range. |
| PortWalk.AllDrawnLength | storm/src/main/storm/mesos/schedulers/SchedulerUtils.java:49-55 | The unbounded walk draws one entry per available port. |
| PortWalk.AllDrawnAppend | storm/src/main/storm/mesos/schedulers/SchedulerUtils.java:49 | The walk over concatenated range lists is the concatenation of the two walks. |
| PortWalk.OriginOf | storm/src/main/storm/mesos/schedulers/SchedulerUtils.java:49-52 | Each position of the walk comes from a valid range index, at an offset below that range's width. |
| PortWalk.AllDrawnAt | storm/src/main/storm/mesos/schedulers/SchedulerUtils.java:53 | Entry `p` of the walk is `[b, b+k]`, where `[b, e]` is its origin range and `k` is its offset. |
| PortWalk.TakePortsEntry | storm/src/main/storm/mesos/schedulers/SchedulerUtils.java:50-53 | Every returned entry starts at its range's begin and ends inside that range. |
| PortWalk.OriginOrdered | storm/src/main/storm/mesos/schedulers/SchedulerUtils.java:49-52 | Origins strictly increase along the walk: by range index, then by offset. |
| PortWalk.TakePortsOrdered | storm/src/main/storm/mesos/schedulers/SchedulerUtils.java:49-55 | Returned entries follow range order, then offset order within a range. |
| PortWalk.AllDrawnSkipsMalformed | storm/src/main/storm/mesos/schedulers/SchedulerUtils.java:52 | A range with `end < begin` contributes nothing to the walk. |
| PortWalk.TakePortsSkipsMalformed | storm/src/main/storm/mesos/schedulers/SchedulerUtils.java:52 | `getPorts` on any ranges equals `getPorts` on their well-formed ranges alone. Malformed ranges never cause an error or a negative-length draw. |
| PortWalk.TakeOnePort | storm/src/main/storm/mesos/schedulers/SchedulerUtils.java:77 | A request for one port returns `[b, b]` from the first well-formed range `[b, e]`, or nothing when no range holds a port. |
| PortWalk.CodeDrawsOverlappingRanges | storm/src/main/storm/mesos/schedulers/SchedulerUtils.java:53 | As written, two ports from `[5000, 5002]` come back as the overlapping entries `[5000, 5000]` and `[5000, 5001]`. The single-port walk gives `[5000, 5000]` and `[5001, 5001]`. |
| PortWalk.AllSingleLength | storm/src/main/storm/mesos/schedulers/SchedulerUtils.java:49-55 | The single-port walk draws one entry per available port. |
| PortWalk.AllSingleAt | storm/src/main/storm/mesos/schedulers/SchedulerUtils.java:53 | Entry `p` of the single-port walk is `[b+k, b+k]`, for its origin range and offset `k`. |
| PortWalk.TakeSinglePortsDisjoint | storm/src/main/storm/mesos/schedulers/SchedulerUtils.java:49-56 | The corrected walk returns as many entries as the code's walk. Each entry is one port inside its range. Over disjoint ranges no port is handed out twice. |
| PortWalk.SingleAgreesOnOnePort | storm/src/main/storm/mesos/schedulers/SchedulerUtils.java:77 | For a request of at most one port, which is the only request the slot builder makes, the code's walk and the corrected walk coincide. |
| PortWalk.OriginOfFirst | storm/src/main/storm/mesos/schedulers/SchedulerUtils.java:52-53 | The first entry of the walk is drawn at offset 0 of its range. |
| SchedulerUtils.CreateMesosWorkerSlot | storm/src/main/storm/mesos/schedulers/SchedulerUtils.java:63-84 | The pool after the call and the outcome together equal `SlotAttempt` on the pool before the call. |
| WorkerSlots.SlotCpuShortage | storm/src/main/storm/mesos/schedulers/SchedulerUtils.java:71-74 | Too little CPU (overhead included) fails the attempt with the pool unchanged. |
| WorkerSlots.SlotMemShortage | storm/src/main/storm/mesos/schedulers/SchedulerUtils.java:72-75 | CPU fits but memory does not: the attempt fails, and the CPU stays reserved. |
| WorkerSlots.SlotNoPort | storm/src/main/storm/mesos/schedulers/SchedulerUtils.java:77-80 | CPU and memory fit but no range holds a port: the attempt fails with "No ports available to create MesosWorkerSlot.", and CPU and memory stay consumed. |
| WorkerSlots.SlotSuccess | storm/src/main/storm/mesos/schedulers/SchedulerUtils.java:68-83 | The slot is on the offer's host, at the begin `b` of the first well-formed range, for the topology's id. The pool loses the worker's CPU and memory, plus the executor's when no supervisor exists. It loses exactly the port range `[b, b]`, one port. |
| WorkerSlots.FirstPortReservable | storm/src/main/storm/mesos/schedulers/SchedulerUtils.java:77-81 | The port `getPorts(…, 1)` picks can always be reserved, so the port reservation never fails after a port was found. |
| Resources.OfferResources.Reserve | storm/src/main/storm/mesos/schedulers/SchedulerUtils.java:74-81 | The pool afterwards is `Reserved` of the pool before. A failure reports its error and leaves the pool unchanged. |
| Resources.OfferResources.constructor | storm/src/main/storm/mesos/schedulers/SchedulerUtils.java:114 | A new pool holds exactly its offer's host, CPU, memory and port ranges. |
| Resources.ReservedOnlySubtracts | storm/src/main/storm/mesos/schedulers/SchedulerUtils.java:74-81 | A reservation keeps the host and never increases a resource. Exactly the requested amount or port count is removed, and other resource types are untouched. |
| Resources.RemoveRangeFailsIff | storm/src/main/storm/mesos/schedulers/SchedulerUtils.java:81 | A port reservation fails exactly when no available range contains the requested range. |
| Resources.RemoveRangeCount | storm/src/main/storm/mesos/schedulers/SchedulerUtils.java:81 | A successful port reservation removes exactly the requested range's ports. |
| Resources.TotalPortsAppend | storm/src/main/storm/mesos/schedulers/SchedulerUtils.java:49 | Port counts add up over concatenated range lists. |
| SchedulerUtils.SupervisorExists | storm/src/main/storm/mesos/schedulers/SchedulerUtils.java:96-105 | The result is true exactly when some existing supervisor's id equals `supervisorId(offerHost, topologyId)`. It is false for no supervisors. |
| SchedulerUtils.GetOfferResourcesListPerNode | storm/src/main/storm/mesos/schedulers/SchedulerUtils.java:107-122 | The result has the keys of `Grouped(offers)`. Each host's list has one fresh, distinct pool per offer from that host, whose contents are that offer, in the order the offers are held. |
| OfferGrouping.OffersOnBelongs | storm/src/main/storm/mesos/schedulers/SchedulerUtils.java:110-118 | A host's list is empty exactly when the host made no offer, and it holds only that host's offers. |
| OfferGrouping.OffersOnCount | storm/src/main/storm/mesos/schedulers/SchedulerUtils.java:110-118 | A host's list holds one entry per offer from that host, so offers from one host are never merged. |
| OfferGrouping.GroupedAppend | storm/src/main/storm/mesos/schedulers/SchedulerUtils.java:113-118 | One more offer is appended to its host's list, and the list is created if the host is new. |
| OfferGrouping.GroupOffersIsGrouped | storm/src/main/storm/mesos/schedulers/SchedulerUtils.java:108-121 | Building the map offer by offer, as the loop does, yields the reference grouping. |
| OfferGrouping.GroupedShape | storm/src/main/storm/mesos/schedulers/SchedulerUtils.java:107-122 | The keys are exactly the offering hosts. No list is empty. Each list holds only that host's offers, one per offer. |
| OfferGrouping.PoolCountRemove | storm/src/main/storm/mesos/schedulers/SchedulerUtils.java:108 | Pools over a map can be counted starting from any host. |
| OfferGrouping.GroupedTotal | storm/src/main/storm/mesos/schedulers/SchedulerUtils.java:110-120 | The lists hold as many pools in total as there are offers: every offer becomes exactly one pool. |

## Left out

- OfferResources.java is not part of this model. The pool's `reserve` is given an assumed
  contract (`Reserved`):
  - a scalar reservation succeeds when the amount is available, and decrements it;
  - a port reservation removes the range from the first available range that contains it;
  - anything else fails with `ResourceNotAvailabeException`;
  - the exception messages are placeholders.
- The pool is built from a Mesos protobuf `Offer` (SchedulerUtils.java:114). Decoding the
  protobuf is not modelled: an offer is a record of host name, CPU, memory and port ranges.
  Other resource types and roles are not represented.
- `RotatingMap` and offer expiry are left out. The held offers are a sequence in the order
  `offers.values()` yields them.
- `HashMap`'s own iteration order is left out.
- Lookups in `MesosCommon` are inputs of the model:
  - `topologyWorkerCpu` and `topologyWorkerMem` are fields of `TopologyDetails`;
  - `executorCpu` and `executorMem` are fields of `MesosConf`;
  - `supervisorId` is a function parameter of `SupervisorExists`.
- Logging (`log.info`, SchedulerUtils.java:119) has no effect on the result and is left out.
- `double` quantities are modelled as exact `real`s, so floating-point rounding is not captured.
- SchedulerUtils.GetPorts: port bounds are unbounded integers. Java's `Long` arithmetic in
  `end - begin` and `begin + i` cannot overflow for valid port numbers. The `int` loop counter
  would overflow only for a range wider than 2^31 ports, which is not modelled.
- SupervisorDetails carries only an id and a host.
- The promise of one supervisor per topology per host (SchedulerUtils.java:89) is kept by the
  caller and is not modelled. `SupervisorExists` only reports whether a matching id exists.
- Java exceptions are modelled as `Result.Failure` values that the methods return early.

## Findings

| source | as written | input that shows it | evidently intended | confidence | as-written member | corrected member |
|---|---|---|---|---|---|---|
| storm/src/main/storm/mesos/schedulers/SchedulerUtils.java:53 | `getPorts` adds `new RangeEntry(begin, begin + i)`, the range of ports `begin`…`begin+i`. Entries from one range overlap. | One range `[5000, 5002]` with `requiredCount = 2` gives `[5000, 5000]` and `[5000, 5001]`. | Single ports `[begin+i, begin+i]`: two requested ports come back as `[5000, 5000]` and `[5001, 5001]`, and no port is handed out twice. The slot builder asks for one port, where both walks agree (`PortWalk.SingleAgreesOnOnePort`), so slot building is unaffected. | medium; not executed | PortWalk.CodeDrawsOverlappingRanges | PortWalk.TakeSinglePortsDisjoint |
