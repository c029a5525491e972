/**
 * The port walk of `SchedulerUtils.getPorts`, as values.
 *
 * The walk visits the pool's port ranges in order and, from a range `[b, e]`, draws the entries
 * `[b, b]`, `[b, b+1]`, …, `[b, e]` until the requested count is reached. `AllDrawn` is the
 * walk when nothing stops it; `TakePorts` (what `getPorts` returns) is its prefix of the
 * requested length. Everything about order and counts is proved from that one definition.
 */
module PortWalk {
  import opened Resources

  /** The first `k` entries the walk draws from `r`: `[b, b]`, `[b, b+1]`, …, `[b, b+k-1]`. */
  function Drawn(r: RangeEntry, k: nat): seq<RangeEntry>
  {
    seq(k, i => RangeEntry(r.begin, r.begin + i))
  }

  /** Everything the walk draws when the requested count never runs out. */
  function AllDrawn(rs: seq<RangeEntry>): seq<RangeEntry>
  {
    if rs == [] then [] else Drawn(rs[0], Width(rs[0])) + AllDrawn(rs[1..])
  }

  /** How many entries a request for `requiredCount` gets when `available` can be drawn. */
  function Wanted(requiredCount: int, available: nat): (w: nat)
    ensures w <= available
    ensures requiredCount > 0 ==> w == available || w == requiredCount
    ensures w <= requiredCount || w == 0
  {
    if requiredCount <= 0 then 0 else if requiredCount < available then requiredCount else available
  }

  /** The result of `getPorts` on a pool whose port ranges are `rs`. */
  function TakePorts(rs: seq<RangeEntry>, requiredCount: int): seq<RangeEntry>
  {
    var all := AllDrawn(rs);
    all[..Wanted(requiredCount, |all|)]
  }

  /** Position `p` of the full walk comes from range `rs[j]`, offset `k`: `(j, k)`. */
  function OriginOf(rs: seq<RangeEntry>, p: nat): (jk: (nat, nat))
    requires p < TotalPorts(rs)
    ensures jk.0 < |rs| && jk.1 < Width(rs[jk.0])
    decreases |rs|
  {
    if p < Width(rs[0]) then (0, p)
    else
      var jk := OriginOf(rs[1..], p - Width(rs[0]));
      (jk.0 + 1, jk.1)
  }

  /** The first range that holds at least one port. */
  function FirstWellFormed(rs: seq<RangeEntry>): (r: Option<RangeEntry>)
  {
    if rs == [] then None
    else if Width(rs[0]) > 0 then Some(rs[0])
    else FirstWellFormed(rs[1..])
  }

  /** The ranges that hold at least one port, in order. */
  function WellFormed(rs: seq<RangeEntry>): seq<RangeEntry>
  {
    if rs == [] then []
    else (if Width(rs[0]) > 0 then [rs[0]] else []) + WellFormed(rs[1..])
  }

  lemma DrawnPrefix(r: RangeEntry, k: nat, n: nat)
    requires k <= n
    ensures Drawn(r, n)[..k] == Drawn(r, k)
  {
  }

  /** The full walk draws one entry per available port. */
  lemma {:induction false} AllDrawnLength(rs: seq<RangeEntry>)
    ensures |AllDrawn(rs)| == TotalPorts(rs)
  {
    if rs != [] {
      AllDrawnLength(rs[1..]);
    }
  }

  /** Walking two lists of ranges one after the other is walking their concatenation. */
  lemma {:induction false} AllDrawnAppend(a: seq<RangeEntry>, b: seq<RangeEntry>)
    ensures AllDrawn(a + b) == AllDrawn(a) + AllDrawn(b)
    decreases |a|
  {
    if a == [] {
      assert a + b == b;
    } else {
      assert (a + b)[1..] == a[1..] + b;
      AllDrawnAppend(a[1..], b);
    }
  }

  /**
   * `getPorts` returns exactly min(requiredCount, number of available ports) entries,
   * and nothing at all when `requiredCount <= 0`.
   */
  lemma TakePortsLength(rs: seq<RangeEntry>, requiredCount: int)
    ensures requiredCount <= 0 ==> TakePorts(rs, requiredCount) == []
    ensures requiredCount > 0 ==>
      |TakePorts(rs, requiredCount)| == if requiredCount < TotalPorts(rs) then requiredCount else TotalPorts(rs)
  {
    AllDrawnLength(rs);
  }

  /**
   * Splitting the ranges at any point: the walk over the first part with the requested count,
   * then the walk over the rest with whatever count is left. In particular a later range is
   * drawn from only once every earlier range has been walked to its end.
   */
  lemma TakePortsSplit(a: seq<RangeEntry>, b: seq<RangeEntry>, requiredCount: int)
    ensures TakePorts(a + b, requiredCount)
         == TakePorts(a, requiredCount) + TakePorts(b, requiredCount - |TakePorts(a, requiredCount)|)
    ensures |TakePorts(a + b, requiredCount)| > TotalPorts(a) ==> TakePorts(a, requiredCount) == AllDrawn(a)
  {
    AllDrawnAppend(a, b);
    AllDrawnLength(a);
    PrefixOfConcat(AllDrawn(a), AllDrawn(b), requiredCount);
  }

  /** Taking a counted prefix of `A + B` takes from `A` first, then from `B` with what is left. */
  lemma PrefixOfConcat<T>(A: seq<T>, B: seq<T>, requiredCount: int)
    ensures (A + B)[..Wanted(requiredCount, |A| + |B|)]
         == A[..Wanted(requiredCount, |A|)] + B[..Wanted(requiredCount - Wanted(requiredCount, |A|), |B|)]
  {
    var w := Wanted(requiredCount, |A| + |B|);
    var wa := Wanted(requiredCount, |A|);
    if w <= |A| {
      assert wa == w;
      assert Wanted(requiredCount - wa, |B|) == 0;
      assert (A + B)[..w] == A[..w];
    } else {
      assert wa == |A|;
      assert Wanted(requiredCount - wa, |B|) == w - |A|;
      assert (A + B)[..w] == A + B[..w - |A|];
    }
  }

  /** One more range: the walk continues into it with the count that is left. */
  lemma TakePortsStep(rs: seq<RangeEntry>, j: nat, requiredCount: int)
    requires j < |rs|
    ensures TakePorts(rs[..j + 1], requiredCount)
         == TakePorts(rs[..j], requiredCount)
            + Drawn(rs[j], Wanted(requiredCount - |TakePorts(rs[..j], requiredCount)|, Width(rs[j])))
  {
    assert rs[..j + 1] == rs[..j] + [rs[j]];
    TakePortsSplit(rs[..j], [rs[j]], requiredCount);
    assert [rs[j]][1..] == [];
    assert AllDrawn([rs[j]]) == Drawn(rs[j], Width(rs[j]));
    var m := requiredCount - |TakePorts(rs[..j], requiredCount)|;
    DrawnPrefix(rs[j], Wanted(m, Width(rs[j])), Width(rs[j]));
  }

  /** Entry `p` of the full walk is `[b, b+k]` for its origin range `rs[j]` = `[b, e]`, offset `k`. */
  lemma {:induction false} AllDrawnAt(rs: seq<RangeEntry>, p: nat)
    requires p < TotalPorts(rs)
    ensures |AllDrawn(rs)| == TotalPorts(rs)
    ensures var (j, k) := OriginOf(rs, p);
      AllDrawn(rs)[p] == RangeEntry(rs[j].begin, rs[j].begin + k)
    decreases |rs|
  {
    AllDrawnLength(rs);
    if p >= Width(rs[0]) {
      AllDrawnAt(rs[1..], p - Width(rs[0]));
    }
  }

  /** Origins strictly increase along the walk: by range index, then by offset within a range. */
  lemma {:induction false} OriginOrdered(rs: seq<RangeEntry>, p: nat, q: nat)
    requires p < q < TotalPorts(rs)
    ensures OriginOf(rs, p).0 < OriginOf(rs, q).0
         || (OriginOf(rs, p).0 == OriginOf(rs, q).0 && OriginOf(rs, p).1 < OriginOf(rs, q).1)
    decreases |rs|
  {
    if p >= Width(rs[0]) {
      OriginOrdered(rs[1..], p - Width(rs[0]), q - Width(rs[0]));
    }
  }

  /**
   * Entry `p` of `getPorts`'s result is the `k`-th entry `[b, b+k]` drawn from some range
   * `rs[j]` = `[b, e]` with `0 <= k <= e - b`: it starts at its range's begin and ends inside it.
   */
  lemma TakePortsEntry(rs: seq<RangeEntry>, requiredCount: int, p: nat)
    requires p < |TakePorts(rs, requiredCount)|
    ensures p < TotalPorts(rs)
    ensures var (j, k) := OriginOf(rs, p);
      && TakePorts(rs, requiredCount)[p] == RangeEntry(rs[j].begin, rs[j].begin + k)
      && rs[j].begin <= TakePorts(rs, requiredCount)[p].end <= rs[j].end
  {
    AllDrawnLength(rs);
    AllDrawnAt(rs, p);
  }

  /** Entries follow the order of the ranges, and within a range the order of the offsets. */
  lemma TakePortsOrdered(rs: seq<RangeEntry>, requiredCount: int, p: nat, q: nat)
    requires p < q < |TakePorts(rs, requiredCount)|
    ensures q < TotalPorts(rs)
    ensures OriginOf(rs, p).0 < OriginOf(rs, q).0
         || (OriginOf(rs, p).0 == OriginOf(rs, q).0 && OriginOf(rs, p).1 < OriginOf(rs, q).1)
  {
    AllDrawnLength(rs);
    OriginOrdered(rs, p, q);
  }

  /** Malformed ranges (`end < begin`) contribute nothing: the walk is that over the well-formed ones. */
  lemma {:induction false} AllDrawnSkipsMalformed(rs: seq<RangeEntry>)
    ensures AllDrawn(rs) == AllDrawn(WellFormed(rs))
  {
    if rs != [] {
      AllDrawnSkipsMalformed(rs[1..]);
      var head: seq<RangeEntry> := if Width(rs[0]) > 0 then [rs[0]] else [];
      AllDrawnAppend(head, WellFormed(rs[1..]));
      assert head == [] ==> AllDrawn(head) == [] == Drawn(rs[0], Width(rs[0]));
      assert head != [] ==> head[1..] == [] && AllDrawn(head) == Drawn(rs[0], Width(rs[0]));
    }
  }

  /** `getPorts` on any ranges is `getPorts` on their well-formed ones. */
  lemma TakePortsSkipsMalformed(rs: seq<RangeEntry>, requiredCount: int)
    ensures TakePorts(rs, requiredCount) == TakePorts(WellFormed(rs), requiredCount)
  {
    AllDrawnSkipsMalformed(rs);
  }

  /** A request for one port yields `[b, b]` for the first well-formed range `[b, e]`, or nothing. */
  lemma {:induction false} TakeOnePort(rs: seq<RangeEntry>)
    ensures TakePorts(rs, 1) == match FirstWellFormed(rs)
      case None => []
      case Some(r) => [RangeEntry(r.begin, r.begin)]
  {
    if rs != [] {
      AllDrawnLength(rs);
      AllDrawnLength(rs[1..]);
      if Width(rs[0]) == 0 {
        TakeOnePort(rs[1..]);
        assert AllDrawn(rs) == AllDrawn(rs[1..]);
      } else {
        assert AllDrawn(rs)[0] == RangeEntry(rs[0].begin, rs[0].begin);
      }
    }
  }

  // ---------------------------------------------------------------------------------------
  // The single-port walk the design describes. `getPorts` draws `[b, b+i]`, which for i > 0 is
  // a range of i + 1 ports overlapping every earlier entry from the same range; the intended
  // walk draws the single ports `[b+i, b+i]`. The two agree whenever at most one port is asked
  // for, which is the only request the slot builder makes.
  // ---------------------------------------------------------------------------------------

  /** As written: two ports from `[5000, 5002]` come back as `[5000, 5000]` and `[5000, 5001]`. */
  lemma CodeDrawsOverlappingRanges()
    ensures TakePorts([RangeEntry(5000, 5002)], 2) == [RangeEntry(5000, 5000), RangeEntry(5000, 5001)]
    ensures TakeSinglePorts([RangeEntry(5000, 5002)], 2) == [RangeEntry(5000, 5000), RangeEntry(5001, 5001)]
  {
    var rs := [RangeEntry(5000, 5002)];
    assert rs[1..] == [];
    assert AllDrawn(rs) == Drawn(rs[0], 3);
    assert AllSingle(rs) == SingleDrawn(rs[0], 3);
  }

  /** The first `k` single ports of `r`: `[b, b]`, `[b+1, b+1]`, …, `[b+k-1, b+k-1]`. */
  function SingleDrawn(r: RangeEntry, k: nat): seq<RangeEntry>
  {
    seq(k, i => RangeEntry(r.begin + i, r.begin + i))
  }

  function AllSingle(rs: seq<RangeEntry>): seq<RangeEntry>
  {
    if rs == [] then [] else SingleDrawn(rs[0], Width(rs[0])) + AllSingle(rs[1..])
  }

  /** The corrected port walk: up to `requiredCount` single ports, in range order. */
  function TakeSinglePorts(rs: seq<RangeEntry>, requiredCount: int): seq<RangeEntry>
  {
    var all := AllSingle(rs);
    all[..Wanted(requiredCount, |all|)]
  }

  /** No port lies in two of the ranges. */
  predicate PairwiseDisjoint(rs: seq<RangeEntry>)
  {
    forall a, b :: 0 <= a < b < |rs| ==> rs[a].end < rs[b].begin || rs[b].end < rs[a].begin
  }

  lemma {:induction false} AllSingleAt(rs: seq<RangeEntry>, p: nat)
    requires p < TotalPorts(rs)
    ensures |AllSingle(rs)| == TotalPorts(rs)
    ensures var (j, k) := OriginOf(rs, p);
      AllSingle(rs)[p] == RangeEntry(rs[j].begin + k, rs[j].begin + k)
    decreases |rs|
  {
    if p >= Width(rs[0]) {
      AllSingleAt(rs[1..], p - Width(rs[0]));
    } else if rs[1..] != [] && TotalPorts(rs[1..]) > 0 {
      AllSingleAt(rs[1..], 0);
    } else {
      AllSingleLength(rs[1..]);
    }
  }

  lemma {:induction false} AllSingleLength(rs: seq<RangeEntry>)
    ensures |AllSingle(rs)| == TotalPorts(rs)
  {
    if rs != [] {
      AllSingleLength(rs[1..]);
    }
  }

  /**
   * Corrected walk: as many entries as the code's walk, each a single port inside one of the
   * ranges, and over disjoint ranges no port is handed out twice.
   */
  lemma TakeSinglePortsDisjoint(rs: seq<RangeEntry>, requiredCount: int, p: nat, q: nat)
    requires PairwiseDisjoint(rs)
    requires p < q < |TakeSinglePorts(rs, requiredCount)|
    ensures q < TotalPorts(rs)
    ensures |TakeSinglePorts(rs, requiredCount)| == |TakePorts(rs, requiredCount)|
    ensures var e := TakeSinglePorts(rs, requiredCount)[p];
      e.begin == e.end && rs[OriginOf(rs, p).0].begin <= e.begin <= rs[OriginOf(rs, p).0].end
    ensures TakeSinglePorts(rs, requiredCount)[p].begin != TakeSinglePorts(rs, requiredCount)[q].begin
  {
    AllSingleLength(rs);
    AllDrawnLength(rs);
    AllSingleAt(rs, p);
    AllSingleAt(rs, q);
    OriginOrdered(rs, p, q);
    var (j, k) := OriginOf(rs, p);
    var (j', k') := OriginOf(rs, q);
    if j != j' {
      assert rs[j].end < rs[j'].begin || rs[j'].end < rs[j].begin;
    }
  }

  /** For a request of at most one port the code's walk and the corrected walk coincide. */
  lemma SingleAgreesOnOnePort(rs: seq<RangeEntry>, requiredCount: int)
    requires requiredCount <= 1
    ensures TakeSinglePorts(rs, requiredCount) == TakePorts(rs, requiredCount)
  {
    AllSingleLength(rs);
    AllDrawnLength(rs);
    if requiredCount == 1 && TotalPorts(rs) > 0 {
      AllSingleAt(rs, 0);
      AllDrawnAt(rs, 0);
      OriginOfFirst(rs);
    }
  }

  /** The walk's first entry is drawn at offset 0 of its range. */
  lemma {:induction false} OriginOfFirst(rs: seq<RangeEntry>)
    requires 0 < TotalPorts(rs)
    ensures OriginOf(rs, 0).1 == 0
    decreases |rs|
  {
    if Width(rs[0]) == 0 {
      OriginOfFirst(rs[1..]);
    }
  }
}
