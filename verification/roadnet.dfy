/** The parsed road-network description (roadnet.json) the environments read
    once at construction: intersections with their virtuality flag and light
    phases, and roads with their ordered lanes. */
module Roadnet {

  /** One lane record of a road; only its position in the road matters here. */
  datatype Lane = Lane(width: real, maxSpeed: real)

  datatype Road = Road(id: string, lanes: seq<Lane>)

  /** One entry of an intersection's `trafficLight.lightphases` list. */
  datatype LightPhase = LightPhase(time: nat, availableRoadLinks: seq<nat>)

  /** `virtual` intersections are boundary points and are never controlled. */
  datatype Intersection = Intersection(id: string, isVirtual: bool, lightphases: seq<LightPhase>)

  datatype RoadnetData = RoadnetData(intersections: seq<Intersection>, roads: seq<Road>)

  /** The controllable intersections: the non-virtual ones, in roadnet order. */
  function NonVirtual(xs: seq<Intersection>): (r: seq<Intersection>)
    ensures |r| <= |xs|
  {
    if xs == [] then []
    else if xs[0].isVirtual then NonVirtual(xs[1..])
    else [xs[0]] + NonVirtual(xs[1..])
  }

  /** The number of light phases of each intersection, position by position. */
  function PhaseCounts(xs: seq<Intersection>): (r: seq<nat>)
    ensures |r| == |xs|
    ensures forall i :: 0 <= i < |xs| ==> r[i] == |xs[i].lightphases|
  {
    seq(|xs|, i requires 0 <= i < |xs| => |xs[i].lightphases|)
  }

  lemma PhaseCountsSnoc(xs: seq<Intersection>, x: Intersection)
    ensures PhaseCounts(xs + [x]) == PhaseCounts(xs) + [|x.lightphases|]
  {
  }

  function Ids(xs: seq<Intersection>): (r: seq<string>)
    ensures |r| == |xs|
    ensures forall i :: 0 <= i < |xs| ==> r[i] == xs[i].id
  {
    seq(|xs|, i requires 0 <= i < |xs| => xs[i].id)
  }

  /** No id occurs twice. */
  predicate Distinct(ids: seq<string>)
  {
    forall i, j :: 0 <= i < j < |ids| ==> ids[i] != ids[j]
  }

  /** Filtering distributes over concatenation: the relative order of the
      kept intersections is the roadnet order. */
  lemma {:induction false} NonVirtualAppend(xs: seq<Intersection>, ys: seq<Intersection>)
    ensures NonVirtual(xs + ys) == NonVirtual(xs) + NonVirtual(ys)
  {
    if xs == [] {
      assert xs + ys == ys;
    } else {
      assert (xs + ys)[1..] == xs[1..] + ys;
      NonVirtualAppend(xs[1..], ys);
    }
  }

  /** One more roadnet entry adds itself to the filtered prefix unless it is virtual. */
  lemma NonVirtualPrefixStep(xs: seq<Intersection>, i: nat)
    requires i < |xs|
    ensures NonVirtual(xs[..i + 1]) == NonVirtual(xs[..i]) + (if xs[i].isVirtual then [] else [xs[i]])
  {
    assert xs[..i + 1] == xs[..i] + [xs[i]];
    NonVirtualAppend(xs[..i], [xs[i]]);
  }

  /** An intersection is kept exactly when it occurs in the roadnet and is not virtual. */
  lemma {:induction false} NonVirtualMembership(xs: seq<Intersection>, x: Intersection)
    ensures x in NonVirtual(xs) <==> x in xs && !x.isVirtual
  {
    if xs != [] {
      NonVirtualMembership(xs[1..], x);
      assert x in xs <==> x == xs[0] || x in xs[1..];
    }
  }

  /** The positions of the first `k` roadnet entries that are not virtual. */
  ghost function NonVirtualPositions(xs: seq<Intersection>, k: nat): set<nat>
    requires k <= |xs|
  {
    set i: nat | i < k && !xs[i].isVirtual
  }

  lemma {:induction false} NonVirtualCountPrefix(xs: seq<Intersection>, k: nat)
    requires k <= |xs|
    ensures |NonVirtual(xs[..k])| == |NonVirtualPositions(xs, k)|
  {
    if k == 0 {
      assert NonVirtualPositions(xs, 0) == {};
    } else {
      NonVirtualCountPrefix(xs, k - 1);
      NonVirtualPrefixStep(xs, k - 1);
      if xs[k - 1].isVirtual {
        assert NonVirtualPositions(xs, k) == NonVirtualPositions(xs, k - 1);
      } else {
        assert NonVirtualPositions(xs, k) == NonVirtualPositions(xs, k - 1) + {k - 1};
        assert k - 1 !in NonVirtualPositions(xs, k - 1);
      }
    }
  }

  /** One controllable intersection per non-virtual roadnet entry. */
  lemma NonVirtualCount(xs: seq<Intersection>)
    ensures |NonVirtual(xs)| == |NonVirtualPositions(xs, |xs|)|
  {
    NonVirtualCountPrefix(xs, |xs|);
    assert xs[..|xs|] == xs;
  }

  /** Filtering a roadnet without virtual intersections keeps all of it. */
  lemma {:induction false} NonVirtualKeepsAll(xs: seq<Intersection>)
    requires forall i :: 0 <= i < |xs| ==> !xs[i].isVirtual
    ensures NonVirtual(xs) == xs
  {
    if xs != [] {
      NonVirtualKeepsAll(xs[1..]);
      assert [xs[0]] + xs[1..] == xs;
    }
  }

  /** The road table `_roads_data`: road id to its lanes; a later road with
      the same id overwrites an earlier one. */
  function RoadsMap(roads: seq<Road>): (m: map<string, seq<Lane>>)
    ensures forall k :: k in m <==> exists i :: 0 <= i < |roads| && roads[i].id == k
  {
    if roads == [] then map[]
    else
      var prev := RoadsMap(roads[..|roads| - 1]);
      var last := roads[|roads| - 1];
      assert forall i :: 0 <= i < |roads| - 1 ==> roads[..|roads| - 1][i] == roads[i];
      prev[last.id := last.lanes]
  }

  /** With distinct road ids every road's lanes are recorded under its id. */
  lemma {:induction false} RoadsMapLookup(roads: seq<Road>, i: nat)
    requires i < |roads|
    requires forall a, b :: 0 <= a < b < |roads| ==> roads[a].id != roads[b].id
    ensures roads[i].id in RoadsMap(roads) && RoadsMap(roads)[roads[i].id] == roads[i].lanes
  {
    if i < |roads| - 1 {
      var init := roads[..|roads| - 1];
      RoadsMapLookup(init, i);
    }
  }

  /** The number of lanes over all roads: every road contributes all of its lanes. */
  function TotalLanes(roads: seq<Road>): (r: nat)
    ensures roads == [] ==> r == 0
    ensures forall i :: 0 <= i < |roads| ==> |roads[i].lanes| <= r
  {
    if roads == [] then 0
    else
      assert forall i :: 1 <= i < |roads| ==> roads[i] == roads[1..][i - 1];
      |roads[0].lanes| + TotalLanes(roads[1..])
  }

  /** Lane counting distributes over concatenating road lists. */
  lemma {:induction false} TotalLanesAppend(a: seq<Road>, b: seq<Road>)
    ensures TotalLanes(a + b) == TotalLanes(a) + TotalLanes(b)
  {
    if a != [] {
      assert (a + b)[1..] == a[1..] + b;
      TotalLanesAppend(a[1..], b);
    } else {
      assert a + b == b;
    }
  }
}
