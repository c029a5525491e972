/**
 * What `SchedulerUtils.getOfferResourcesListPerNode` builds, as values: the held offers
 * grouped by host name, each host's offers kept separate and in the order they are held.
 */
module OfferGrouping {
  import opened Resources

  /** The host names of the held offers. */
  function HostsOf(offers: seq<Offer>): set<string>
  {
    set o | o in offers :: o.hostname
  }

  /** The host name of every held offer, in order. */
  function HostNames(offers: seq<Offer>): seq<string>
  {
    seq(|offers|, i requires 0 <= i < |offers| => offers[i].hostname)
  }

  /** The offers from host `h`, in the order they are held. */
  function OffersOn(offers: seq<Offer>, h: string): seq<Offer>
  {
    if offers == [] then []
    else
      var last := offers[|offers| - 1];
      OffersOn(offers[..|offers| - 1], h) + (if last.hostname == h then [last] else [])
  }

  /** The reference grouping: every host that offers, mapped to its own offers in order. */
  function Grouped(offers: seq<Offer>): map<string, seq<Offer>>
  {
    map h | h in HostsOf(offers) :: OffersOn(offers, h)
  }

  /** A host's list is empty exactly when the host made no offer; all its entries are its own offers. */
  lemma {:induction false} OffersOnBelongs(offers: seq<Offer>, h: string)
    ensures OffersOn(offers, h) == [] <==> h !in HostsOf(offers)
    ensures forall o :: o in OffersOn(offers, h) ==> o in offers && o.hostname == h
  {
    if offers != [] {
      var init := offers[..|offers| - 1];
      var last := offers[|offers| - 1];
      assert offers == init + [last];
      OffersOnBelongs(init, h);
      assert HostsOf(offers) == HostsOf(init) + {last.hostname};
    }
  }

  /** Offers from the same host stay separate: host `h`'s list has one entry per offer from `h`. */
  lemma {:induction false} OffersOnCount(offers: seq<Offer>, h: string)
    ensures |OffersOn(offers, h)| == multiset(HostNames(offers))[h]
  {
    if offers != [] {
      var init := offers[..|offers| - 1];
      var last := offers[|offers| - 1];
      OffersOnCount(init, h);
      assert HostNames(offers) == HostNames(init) + [last.hostname];
    }
  }

  /** Holding one more offer appends it to its host's list, creating the list if needed. */
  lemma GroupedAppend(offers: seq<Offer>, o: Offer)
    ensures var g := Grouped(offers);
      Grouped(offers + [o]) == g[o.hostname := (if o.hostname in g then g[o.hostname] else []) + [o]]
  {
    var g := Grouped(offers);
    var g' := Grouped(offers + [o]);
    assert (offers + [o])[..|offers|] == offers;
    assert HostsOf(offers + [o]) == HostsOf(offers) + {o.hostname};
    OffersOnBelongs(offers, o.hostname);
    var expected := g[o.hostname := (if o.hostname in g then g[o.hostname] else []) + [o]];
    assert g'.Keys == expected.Keys;
    forall h | h in g'
      ensures g'[h] == expected[h]
    {
      OffersOnBelongs(offers, h);
    }
  }

  /** The grouping built one held offer at a time, each appended to its host's list. */
  function GroupOffers(offers: seq<Offer>): map<string, seq<Offer>>
  {
    if offers == [] then map[]
    else
      var g := GroupOffers(offers[..|offers| - 1]);
      var o := offers[|offers| - 1];
      g[o.hostname := (if o.hostname in g then g[o.hostname] else []) + [o]]
  }

  /** Building the grouping offer by offer yields the reference grouping. */
  lemma {:induction false} GroupOffersIsGrouped(offers: seq<Offer>)
    ensures GroupOffers(offers) == Grouped(offers)
  {
    if offers == [] {
      assert Grouped(offers) == map[];
    } else {
      var init := offers[..|offers| - 1];
      assert offers == init + [offers[|offers| - 1]];
      GroupOffersIsGrouped(init);
      GroupedAppend(init, offers[|offers| - 1]);
    }
  }

  /**
   * The grouping's keys are exactly the offering hosts; no host's list is empty; each list holds
   * that host's offers, in order, one per offer.
   */
  lemma GroupedShape(offers: seq<Offer>, h: string)
    ensures h in Grouped(offers) <==> exists o :: o in offers && o.hostname == h
    ensures h in Grouped(offers) ==>
      && Grouped(offers)[h] != []
      && |Grouped(offers)[h]| == multiset(HostNames(offers))[h]
      && forall o :: o in Grouped(offers)[h] ==> o in offers && o.hostname == h
  {
    OffersOnBelongs(offers, h);
    OffersOnCount(offers, h);
  }

  /** Picks some key of a non-empty map. */
  ghost function PickHost(hosts: set<string>): (h: string)
    requires hosts != {}
    ensures h in hosts
  {
    var h :| h in hosts; h
  }

  /** The number of pools over all lists of a grouping. */
  ghost function PoolCount(m: map<string, seq<Offer>>): nat
    decreases |m|
  {
    if m == map[] then 0
    else
      var h := PickHost(m.Keys);
      assert (m - {h}).Keys == m.Keys - {h};
      |m[h]| + PoolCount(m - {h})
  }

  /** Counting the pools may start from any host's list. */
  lemma {:induction false} PoolCountRemove(m: map<string, seq<Offer>>, k: string)
    requires k in m
    ensures PoolCount(m) == |m[k]| + PoolCount(m - {k})
    decreases |m|
  {
    var h := PickHost(m.Keys);
    assert (m - {h}).Keys == m.Keys - {h};
    if h != k {
      assert (m - {k}).Keys == m.Keys - {k};
      PoolCountRemove(m - {h}, k);
      PoolCountRemove(m - {k}, h);
      assert (m - {h}) - {k} == (m - {k}) - {h};
    }
  }

  /** Every held offer yields exactly one pool: the lists hold as many pools as there are offers. */
  lemma {:induction false} GroupedTotal(offers: seq<Offer>)
    ensures PoolCount(Grouped(offers)) == |offers|
  {
    if offers == [] {
      assert Grouped(offers) == map[];
    } else {
      var init := offers[..|offers| - 1];
      var last := offers[|offers| - 1];
      assert offers == init + [last];
      GroupedTotal(init);
      GroupedAppend(init, last);
      var g := Grouped(init);
      var h := last.hostname;
      var g' := g[h := (if h in g then g[h] else []) + [last]];
      PoolCountRemove(g', h);
      assert g' - {h} == g - {h};
      if h in g {
        PoolCountRemove(g, h);
      } else {
        assert g - {h} == g;
      }
    }
  }
}
