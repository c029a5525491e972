/**
 * What `SchedulerUtils.createMesosWorkerSlot` does to a pool, as a value: the overhead
 * accounting, the three reservations in their order (CPU, then memory, then one port) and
 * the slot it builds. The imperative method in `SchedulerUtils` is proved to agree with
 * `SlotAttempt`; the lemmas here say what `SlotAttempt` means case by case.
 */
module WorkerSlots {
  import opened Resources
  import opened PortWalk

  /** The executor overhead the scheduler configuration prescribes for a first worker on a host. */
  datatype MesosConf = MesosConf(executorCpu: real, executorMem: real)

  /** A topology: its id and the CPU and memory each of its workers requests. */
  datatype TopologyDetails = TopologyDetails(id: string, workerCpu: real, workerMem: real)

  /** Where one worker of a topology runs: the host and the port it listens on. */
  datatype MesosWorkerSlot = MesosWorkerSlot(nodeId: string, port: int, topologyId: string)

  const NoPortsMessage: string := "No ports available to create MesosWorkerSlot."

  /** Worker CPU, plus the executor's when the worker also brings up the host's supervisor. */
  function RequestedCpu(conf: MesosConf, topology: TopologyDetails, supervisorExists: bool): real
  {
    topology.workerCpu + (if supervisorExists then 0.0 else conf.executorCpu)
  }

  /** Worker memory, plus the executor's when the worker also brings up the host's supervisor. */
  function RequestedMem(conf: MesosConf, topology: TopologyDetails, supervisorExists: bool): real
  {
    topology.workerMem + (if supervisorExists then 0.0 else conf.executorMem)
  }

  /**
   * The pool after one slot-building attempt on `o`, and the attempt's outcome. Each
   * reservation works on the pool the previous one left; a failure ends the attempt and
   * keeps whatever was already reserved.
   */
  function SlotAttempt(o: Offer, conf: MesosConf, topology: TopologyDetails, supervisorExists: bool)
    : (Offer, Result<MesosWorkerSlot>)
  {
    match Reserved(o, CPU, Scalar(RequestedCpu(conf, topology, supervisorExists)))
    case Failure(e) => (o, Failure(e))
    case Success(afterCpu) =>
      match Reserved(afterCpu, MEM, Scalar(RequestedMem(conf, topology, supervisorExists)))
      case Failure(e) => (afterCpu, Failure(e))
      case Success(afterMem) =>
        var ports := TakePorts(afterMem.ports, 1);
        if ports == [] then (afterMem, Failure(ResourceNotAvailable(NoPortsMessage)))
        else
          match Reserved(afterMem, PORTS, Ranged(ports[0]))
          case Failure(e) => (afterMem, Failure(e))
          case Success(afterPort) =>
            (afterPort, Success(MesosWorkerSlot(afterPort.hostname, ports[0].begin, topology.id)))
  }

  /** The single port `[b, b]` of the first well-formed range `[b, e]` can always be reserved. */
  lemma {:induction false} FirstPortReservable(rs: seq<RangeEntry>)
    requires FirstWellFormed(rs).Some?
    ensures var b := FirstWellFormed(rs).value.begin;
      RemoveRange(rs, RangeEntry(b, b)).Some?
  {
    var b := FirstWellFormed(rs).value.begin;
    if Width(rs[0]) == 0 {
      assert !Contains(rs[0], RangeEntry(b, b));
      FirstPortReservable(rs[1..]);
    }
  }

  /** Not enough CPU: the attempt fails before memory or ports are touched; the pool is as it was. */
  lemma SlotCpuShortage(o: Offer, conf: MesosConf, topology: TopologyDetails, supervisorExists: bool)
    requires o.cpu < RequestedCpu(conf, topology, supervisorExists)
    ensures SlotAttempt(o, conf, topology, supervisorExists).0 == o
    ensures SlotAttempt(o, conf, topology, supervisorExists).1.Failure?
  {
  }

  /** Enough CPU but not enough memory: the CPU stays reserved, memory and ports are untouched. */
  lemma SlotMemShortage(o: Offer, conf: MesosConf, topology: TopologyDetails, supervisorExists: bool)
    requires RequestedCpu(conf, topology, supervisorExists) <= o.cpu
    requires o.mem < RequestedMem(conf, topology, supervisorExists)
    ensures SlotAttempt(o, conf, topology, supervisorExists).0
         == o.(cpu := o.cpu - RequestedCpu(conf, topology, supervisorExists))
    ensures SlotAttempt(o, conf, topology, supervisorExists).1.Failure?
  {
  }

  /**
   * CPU and memory fit but no range holds a port: the attempt fails with "no ports", and the
   * CPU and memory reservations stay consumed (nothing is rolled back).
   */
  lemma SlotNoPort(o: Offer, conf: MesosConf, topology: TopologyDetails, supervisorExists: bool)
    requires RequestedCpu(conf, topology, supervisorExists) <= o.cpu
    requires RequestedMem(conf, topology, supervisorExists) <= o.mem
    requires FirstWellFormed(o.ports).None?
    ensures SlotAttempt(o, conf, topology, supervisorExists)
         == (o.(cpu := o.cpu - RequestedCpu(conf, topology, supervisorExists),
                mem := o.mem - RequestedMem(conf, topology, supervisorExists)),
             Failure(ResourceNotAvailable(NoPortsMessage)))
  {
    TakeOnePort(o.ports);
  }

  /**
   * CPU, memory and a port fit: the slot is on the offer's host, on the begin `b` of the first
   * well-formed port range, for the topology; the pool loses the worker's CPU and memory, plus
   * the executor's when no supervisor exists yet, and exactly the port range `[b, b]`.
   */
  lemma SlotSuccess(o: Offer, conf: MesosConf, topology: TopologyDetails, supervisorExists: bool)
    requires RequestedCpu(conf, topology, supervisorExists) <= o.cpu
    requires RequestedMem(conf, topology, supervisorExists) <= o.mem
    requires FirstWellFormed(o.ports).Some?
    ensures var b := FirstWellFormed(o.ports).value.begin;
      var (after, slot) := SlotAttempt(o, conf, topology, supervisorExists);
      && slot == Success(MesosWorkerSlot(o.hostname, b, topology.id))
      && after.hostname == o.hostname
      && after.cpu == o.cpu - topology.workerCpu - (if supervisorExists then 0.0 else conf.executorCpu)
      && after.mem == o.mem - topology.workerMem - (if supervisorExists then 0.0 else conf.executorMem)
      && RemoveRange(o.ports, RangeEntry(b, b)) == Some(after.ports)
      && TotalPorts(after.ports) + 1 == TotalPorts(o.ports)
  {
    var b := FirstWellFormed(o.ports).value.begin;
    TakeOnePort(o.ports);
    FirstPortReservable(o.ports);
    RemoveRangeCount(o.ports, RangeEntry(b, b));
  }
}
