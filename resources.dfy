/**
 * Resource entries and the per-offer resource pool that the scheduler reserves from.
 *
 * The pool class (`OfferResources`) is a collaborator of the scheduler utilities whose own
 * source is not part of this model: its `Reserve` method carries an assumed contract, written
 * out as the pure function `Reserved` (a scalar reservation decrements or fails; a range
 * reservation carves the requested range out of the first available range containing it, or
 * fails). Failed reservations leave the pool unchanged; nothing is rolled back across calls.
 */
module Resources {

  /** An inclusive range of port numbers `[begin, end]`; malformed when `end < begin`. */
  datatype RangeEntry = RangeEntry(begin: int, end: int)

  datatype ResourceType = CPU | MEM | PORTS

  /** What a reservation asks for: an amount of a scalar resource, or a range of ports. */
  datatype ResourceEntry = Scalar(amount: real) | Ranged(range: RangeEntry)

  /** The scheduler's single error kind (`ResourceNotAvailabeException`). */
  datatype ResourceError = ResourceNotAvailable(message: string)

  datatype Result<T> = Success(value: T) | Failure(error: ResourceError)

  datatype Option<T> = None | Some(value: T)

  /**
   * One offer as the pool sees it: the offering host and the unreserved CPU, memory and
   * port ranges, the ranges in the order the offer lists them.
   */
  datatype Offer = Offer(hostname: string, cpu: real, mem: real, ports: seq<RangeEntry>)

  /** Number of ports in a range; zero for a malformed one. */
  function Width(r: RangeEntry): nat
  {
    if r.end < r.begin then 0 else r.end - r.begin + 1
  }

  /** Number of ports over a list of ranges. */
  function TotalPorts(rs: seq<RangeEntry>): nat
  {
    if rs == [] then 0 else Width(rs[0]) + TotalPorts(rs[1..])
  }

  lemma {:induction false} TotalPortsAppend(a: seq<RangeEntry>, b: seq<RangeEntry>)
    ensures TotalPorts(a + b) == TotalPorts(a) + TotalPorts(b)
    decreases |a|
  {
    if a == [] {
      assert a + b == b;
    } else {
      assert (a + b)[1..] == a[1..] + b;
      TotalPortsAppend(a[1..], b);
    }
  }

  /** `outer` covers every port of the well-formed range `r`. */
  predicate Contains(outer: RangeEntry, r: RangeEntry)
  {
    outer.begin <= r.begin <= r.end <= outer.end
  }

  /** What is left of `outer` once the contained range `r` is taken out of it. */
  function Remainder(outer: RangeEntry, r: RangeEntry): seq<RangeEntry>
  {
    (if outer.begin < r.begin then [RangeEntry(outer.begin, r.begin - 1)] else [])
    + (if r.end < outer.end then [RangeEntry(r.end + 1, outer.end)] else [])
  }

  /**
   * Assumed range reservation: the first available range that contains `r` is replaced by
   * what remains of it on either side; `None` when no available range contains `r`.
   */
  function RemoveRange(rs: seq<RangeEntry>, r: RangeEntry): Option<seq<RangeEntry>>
  {
    if rs == [] then None
    else if Contains(rs[0], r) then Some(Remainder(rs[0], r) + rs[1..])
    else match RemoveRange(rs[1..], r)
      case None => None
      case Some(rest) => Some([rs[0]] + rest)
  }

  /** A range reservation fails exactly when no available range contains the requested one. */
  lemma {:induction false} RemoveRangeFailsIff(rs: seq<RangeEntry>, r: RangeEntry)
    ensures RemoveRange(rs, r).None? <==> forall k :: 0 <= k < |rs| ==> !Contains(rs[k], r)
  {
    if rs != [] && !Contains(rs[0], r) {
      RemoveRangeFailsIff(rs[1..], r);
      assert forall k :: 1 <= k < |rs| ==> rs[k] == rs[1..][k - 1];
    }
  }

  /** A successful range reservation removes exactly the ports of the requested range. */
  lemma {:induction false} RemoveRangeCount(rs: seq<RangeEntry>, r: RangeEntry)
    requires RemoveRange(rs, r).Some?
    ensures TotalPorts(RemoveRange(rs, r).value) + Width(r) == TotalPorts(rs)
  {
    if Contains(rs[0], r) {
      var rem := Remainder(rs[0], r);
      TotalPortsAppend(rem, rs[1..]);
      var left: seq<RangeEntry> := if rs[0].begin < r.begin then [RangeEntry(rs[0].begin, r.begin - 1)] else [];
      var right: seq<RangeEntry> := if r.end < rs[0].end then [RangeEntry(r.end + 1, rs[0].end)] else [];
      TotalPortsAppend(left, right);
      assert TotalPorts(left) == r.begin - rs[0].begin;
      assert TotalPorts(right) == rs[0].end - r.end;
    } else {
      RemoveRangeCount(rs[1..], r);
      TotalPortsAppend([rs[0]], RemoveRange(rs[1..], r).value);
    }
  }

  /**
   * Assumed contract of `OfferResources.reserve`: the pool after reserving `e` of type `t`
   * from `o`, or the error it raises. Scalars must be wholly available; a range must lie inside
   * one available range; an entry of the wrong kind for `t` is not available either.
   */
  function Reserved(o: Offer, t: ResourceType, e: ResourceEntry): Result<Offer>
  {
    match (t, e)
    case (CPU, Scalar(a)) =>
      if a <= o.cpu then Success(o.(cpu := o.cpu - a))
      else Failure(ResourceNotAvailable("Not enough CPU available"))
    case (MEM, Scalar(a)) =>
      if a <= o.mem then Success(o.(mem := o.mem - a))
      else Failure(ResourceNotAvailable("Not enough memory available"))
    case (PORTS, Ranged(r)) =>
      (match RemoveRange(o.ports, r)
       case Some(rest) => Success(o.(ports := rest))
       case None => Failure(ResourceNotAvailable("Requested port range not available")))
    case _ => Failure(ResourceNotAvailable("Resource entry does not match its type"))
  }

  /**
   * A reservation of a non-negative amount only ever subtracts: the host never changes, and
   * CPU, memory and the port count never grow; exactly the requested quantity of the
   * reserved type goes, and the other types are untouched.
   */
  lemma ReservedOnlySubtracts(o: Offer, t: ResourceType, e: ResourceEntry)
    requires e.Scalar? ==> e.amount >= 0.0
    requires Reserved(o, t, e).Success?
    ensures var after := Reserved(o, t, e).value;
      && after.hostname == o.hostname
      && after.cpu <= o.cpu && after.mem <= o.mem
      && TotalPorts(after.ports) <= TotalPorts(o.ports)
      && (t == CPU ==> e.Scalar? && after == o.(cpu := o.cpu - e.amount))
      && (t == MEM ==> e.Scalar? && after == o.(mem := o.mem - e.amount))
      && (t == PORTS ==> e.Ranged? && after.cpu == o.cpu && after.mem == o.mem
                         && TotalPorts(after.ports) + Width(e.range) == TotalPorts(o.ports))
  {
    if t == PORTS && e.Ranged? {
      RemoveRangeCount(o.ports, e.range);
    }
  }

  /** The mutable pool built from one offer (`OfferResources`). */
  class OfferResources {
    const hostName: string
    var cpu: real
    var mem: real
    var ports: seq<RangeEntry>

    constructor (offer: Offer)
      ensures Snapshot() == offer
    {
      hostName := offer.hostname;
      cpu := offer.cpu;
      mem := offer.mem;
      ports := offer.ports;
    }

    /** The pool's current contents as a value. */
    function Snapshot(): Offer
      reads this
    {
      Offer(hostName, cpu, mem, ports)
    }

    /** Reserves `e` of type `t`, or reports why it cannot and leaves the pool as it was. */
    method Reserve(t: ResourceType, e: ResourceEntry) returns (r: Result<()>)
      modifies this
      ensures match Reserved(old(Snapshot()), t, e)
        case Success(after) => r == Success(()) && Snapshot() == after
        case Failure(err) => r == Failure(err) && Snapshot() == old(Snapshot())
    {
      match Reserved(Snapshot(), t, e) {
        case Success(after) =>
          cpu, mem, ports := after.cpu, after.mem, after.ports;
          r := Success(());
        case Failure(err) =>
          r := Failure(err);
      }
    }
  }
}
