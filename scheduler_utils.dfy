/**
 * The four static routines of `SchedulerUtils`, written the way the source runs them: loops
 * that accumulate, a pool mutated by successive reservations, and a map of lists filled in
 * place. Each is proved against the value-level description in `PortWalk`, `WorkerSlots`
 * or `OfferGrouping`.
 */
module SchedulerUtils {
  import opened Resources
  import opened PortWalk
  import opened WorkerSlots
  import opened OfferGrouping

  /** A supervisor already running: its id and its host. */
  datatype SupervisorDetails = SupervisorDetails(id: string, host: string)

  /**
   * Up to `requiredCount` port entries from the pool's port ranges, walked in order; from a
   * range `[b, e]` the walk draws `[b, b]`, `[b, b+1]`, … It only reads the pool.
   */
  method GetPorts(offerResources: OfferResources, requiredCount: int) returns (retVal: seq<RangeEntry>)
    ensures retVal == TakePorts(offerResources.ports, requiredCount)
    ensures requiredCount <= 0 ==> retVal == []
  {
    retVal := [];
    var resourceEntryList := offerResources.ports;
    // the source counts its parameter down; `remaining` plays that part
    var remaining := requiredCount;
    var j := 0;
    while j < |resourceEntryList|
      invariant 0 <= j <= |resourceEntryList|
      invariant retVal == TakePorts(resourceEntryList[..j], requiredCount)
      invariant remaining == requiredCount - |retVal|
    {
      var begin := resourceEntryList[j].begin;
      var end := resourceEntryList[j].end;
      ghost var before, remainingBefore := retVal, remaining;
      var i := 0;
      while i <= end - begin && remaining > 0
        invariant 0 <= i <= Wanted(remainingBefore, Width(resourceEntryList[j]))
        invariant remaining == remainingBefore - i
        invariant retVal == before + Drawn(resourceEntryList[j], i)
      {
        retVal := retVal + [RangeEntry(begin, begin + i)];
        remaining := remaining - 1;
        i := i + 1;
      }
      TakePortsStep(resourceEntryList, j, requiredCount);
      j := j + 1;
    }
    assert resourceEntryList[..j] == resourceEntryList;
    TakePortsLength(resourceEntryList, requiredCount);
  }

  /**
   * Reserves a worker's CPU, then memory (each with the executor's overhead added when no
   * supervisor runs on the host yet), then one port, and builds the slot. A failing
   * reservation ends the attempt with its error; earlier reservations stay consumed.
   */
  method CreateMesosWorkerSlot(mesosStormConf: MesosConf, offerResources: OfferResources,
                               topologyDetails: TopologyDetails, supervisorExists: bool)
    returns (r: Result<MesosWorkerSlot>)
    modifies offerResources
    ensures (offerResources.Snapshot(), r)
         == SlotAttempt(old(offerResources.Snapshot()), mesosStormConf, topologyDetails, supervisorExists)
  {
    var requestedWorkerCpu := topologyDetails.workerCpu;
    var requestedWorkerMem := topologyDetails.workerMem;

    requestedWorkerCpu := requestedWorkerCpu + if supervisorExists then 0.0 else mesosStormConf.executorCpu;
    requestedWorkerMem := requestedWorkerMem + if supervisorExists then 0.0 else mesosStormConf.executorMem;

    var reserved := offerResources.Reserve(CPU, Scalar(requestedWorkerCpu));
    if reserved.Failure? {
      return Failure(reserved.error);
    }
    reserved := offerResources.Reserve(MEM, Scalar(requestedWorkerMem));
    if reserved.Failure? {
      return Failure(reserved.error);
    }

    var ports := GetPorts(offerResources, 1);
    if |ports| == 0 {
      return Failure(ResourceNotAvailable(NoPortsMessage));
    }
    reserved := offerResources.Reserve(PORTS, Ranged(ports[0]));
    if reserved.Failure? {
      return Failure(reserved.error);
    }

    return Success(MesosWorkerSlot(offerResources.hostName, ports[0].begin, topologyDetails.id));
  }

  /**
   * Whether a supervisor for `topologyId` already runs on `offerHost`: some existing
   * supervisor's id is the id `supervisorId` gives that host and topology.
   */
  method SupervisorExists(offerHost: string, existingSupervisors: seq<SupervisorDetails>,
                          topologyId: string, supervisorId: (string, string) -> string)
    returns (found: bool)
    ensures found <==> exists k :: 0 <= k < |existingSupervisors|
                              && existingSupervisors[k].id == supervisorId(offerHost, topologyId)
    ensures existingSupervisors == [] ==> !found
  {
    var expectedSupervisorId := supervisorId(offerHost, topologyId);
    for i := 0 to |existingSupervisors|
      invariant forall k :: 0 <= k < i ==> existingSupervisors[k].id != expectedSupervisorId
    {
      if existingSupervisors[i].id == expectedSupervisorId {
        return true;
      }
    }
    return false;
  }

  /**
   * Groups the held offers by host name: each offer becomes a pool of its own, appended to
   * its host's list.
   */
  method GetOfferResourcesListPerNode(offers: seq<Offer>)
    returns (offerResourcesListPerNode: map<string, seq<OfferResources>>)
    ensures offerResourcesListPerNode.Keys == Grouped(offers).Keys
    ensures forall h :: h in offerResourcesListPerNode ==>
      |offerResourcesListPerNode[h]| == |Grouped(offers)[h]|
    ensures forall h, k :: h in offerResourcesListPerNode && 0 <= k < |offerResourcesListPerNode[h]| ==>
      offerResourcesListPerNode[h][k].Snapshot() == Grouped(offers)[h][k]
    ensures forall h, k :: h in offerResourcesListPerNode && 0 <= k < |offerResourcesListPerNode[h]| ==>
      fresh(offerResourcesListPerNode[h][k])
    ensures forall h, a, b :: h in offerResourcesListPerNode && 0 <= a < b < |offerResourcesListPerNode[h]| ==>
      offerResourcesListPerNode[h][a] != offerResourcesListPerNode[h][b]
  {
    offerResourcesListPerNode := map[];
    ghost var groups: map<string, seq<Offer>> := map[];
    for i := 0 to |offers|
      invariant groups == GroupOffers(offers[..i])
      invariant offerResourcesListPerNode.Keys == groups.Keys
      invariant forall h :: h in offerResourcesListPerNode ==> |offerResourcesListPerNode[h]| == |groups[h]|
      invariant forall h, k :: h in offerResourcesListPerNode && 0 <= k < |offerResourcesListPerNode[h]| ==>
        offerResourcesListPerNode[h][k].Snapshot() == groups[h][k]
      invariant forall h, k :: h in offerResourcesListPerNode && 0 <= k < |offerResourcesListPerNode[h]| ==>
        fresh(offerResourcesListPerNode[h][k])
      invariant forall h, a, b :: h in offerResourcesListPerNode && 0 <= a < b < |offerResourcesListPerNode[h]| ==>
        offerResourcesListPerNode[h][a] != offerResourcesListPerNode[h][b]
    {
      var offer := offers[i];
      var hostName := offer.hostname;
      assert offers[..i + 1][..i] == offers[..i];
      groups := groups[hostName := (if hostName in groups then groups[hostName] else []) + [offer]];

      // a host seen for the first time starts with an empty list
      var offerResourcesListForCurrentHost := if hostName in offerResourcesListPerNode
        then offerResourcesListPerNode[hostName] else [];
      var offerResources := new OfferResources(offer);
      offerResourcesListPerNode := offerResourcesListPerNode[hostName := offerResourcesListForCurrentHost + [offerResources]];
    }
    assert offers[..|offers|] == offers;
    GroupOffersIsGrouped(offers);
  }
}
