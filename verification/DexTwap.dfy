/** The off-chain time-weighted average price: a loop over observations, and what it averages. */
module DexTwap {
  import opened Wrappers

  // Times are in milliseconds
  datatype Observation = Observation(time: int, price: real)

  datatype Twap = Twap(spotPrice: real, twapPrice: real, sampleCount: nat)

  predicate Sorted(obs: seq<Observation>) {
    forall i, j | 0 <= i < j < |obs| :: obs[i].time <= obs[j].time
  }

  /** Insertion after all observations that are not later: the order of a stable sort. */
  function Insert(obs: seq<Observation>, o: Observation): (r: seq<Observation>)
    requires Sorted(obs)
    ensures Sorted(r) && |r| == |obs| + 1
    ensures forall p | p in r :: p in obs || p == o
  {
    if obs == [] then [o] else
      var n := |obs| - 1;
      if obs[n].time <= o.time then obs + [o] else
        var front := Insert(obs[..n], o);
        assert forall p | p in front :: p.time <= obs[n].time;
        front + [obs[n]]
  }

  function SortByTime(obs: seq<Observation>): (r: seq<Observation>)
    ensures Sorted(r) && |r| == |obs|
  {
    if obs == [] then [] else
      var n := |obs| - 1;
      Insert(SortByTime(obs[..n]), obs[n])
  }

  /** The observations made at one time, in order. */
  function At(obs: seq<Observation>, t: int): seq<Observation> {
    if obs == [] then [] else
      var n := |obs| - 1;
      At(obs[..n], t) + if obs[n].time == t then [obs[n]] else []
  }

  lemma AtAppend(obs: seq<Observation>, o: Observation, t: int)
    ensures At(obs + [o], t) == At(obs, t) + if o.time == t then [o] else []
  {
    assert (obs + [o])[..|obs|] == obs;
  }

  lemma Regroup(a: seq<Observation>, b: seq<Observation>, c: seq<Observation>)
    requires b == [] || c == []
    ensures (a + b) + c == (a + c) + b
  {
  }

  /** What an observation contributes at a time. */
  function Own(o: Observation, t: int): seq<Observation> {
    if o.time == t then [o] else []
  }

  lemma AtLast(front: seq<Observation>, last: Observation, o: Observation, t: int)
    requires last.time > o.time
    ensures At(front + [last], t) == At(front, t) + Own(last, t)
    ensures (At(front, t) + Own(o, t)) + Own(last, t) == (At(front, t) + Own(last, t)) + Own(o, t)
  {
    AtAppend(front, last, t);
    hide At;
    Regroup(At(front, t), Own(o, t), Own(last, t));
  }

  lemma {:induction false} InsertIsStable(obs: seq<Observation>, o: Observation, t: int)
    requires Sorted(obs)
    ensures At(Insert(obs, o), t) == At(obs, t) + Own(o, t)
  {
    if obs == [] || obs[|obs| - 1].time <= o.time {
      AtAppend(obs, o, t);
      assert Insert(obs, o) == obs + [o];
    } else {
      var front, last := obs[..|obs| - 1], obs[|obs| - 1];
      InsertIsStable(front, o, t);
      var inserted := Insert(front, o);
      assert Insert(obs, o) == inserted + [last];
      AtAppend(inserted, last, t);
      AtLast(front, last, o, t);
      assert obs == front + [last];
      hide Insert, Sorted, At, Own;
    }
  }

  /** Sorting keeps exactly the observations of each time, in their order, so the latest listed one wins. */
  lemma {:induction false} SortIsStable(obs: seq<Observation>, t: int)
    ensures At(SortByTime(obs), t) == At(obs, t)
  {
    if obs != [] {
      var n := |obs| - 1;
      SortIsStable(obs[..n], t);
      InsertIsStable(SortByTime(obs[..n]), obs[n], t);
    }
  }

  // ---------- The step function ----------

  /** The price in force at a time: the last one observed by then; before that, the first one. */
  function InForce(obs: seq<Observation>, t: int): real
    requires obs != []
  {
    var n := |obs| - 1;
    if n == 0 || obs[n].time <= t then obs[n].price else InForce(obs[..n], t)
  }

  /** The sum of the prices in force over the milliseconds from, ..., from + n - 1. */
  function PriceArea(obs: seq<Observation>, from: int, n: nat): real
    requires obs != []
  {
    if n == 0 then 0.0 else PriceArea(obs, from, n - 1) + InForce(obs, from + n - 1)
  }

  lemma {:induction false} InForceAt(obs: seq<Observation>, k: nat, t: int)
    requires Sorted(obs) && k < |obs|
    requires obs[k].time <= t && (k + 1 < |obs| ==> t < obs[k + 1].time)
    ensures InForce(obs, t) == obs[k].price
    decreases |obs|
  {
    var n := |obs| - 1;
    if k < n {
      InForceAt(obs[..n], k, t);
    }
  }

  lemma {:induction false} InForceBefore(obs: seq<Observation>, t: int)
    requires Sorted(obs) && obs != [] && t < obs[0].time
    ensures InForce(obs, t) == obs[0].price
    decreases |obs|
  {
    var n := |obs| - 1;
    if n > 0 {
      InForceBefore(obs[..n], t);
    }
  }

  lemma OneMore(price: real, n: nat)
    ensures price * ((n + 1) as real) == price * (n as real) + price
  {
    var x := n as real;
    assert (n + 1) as real == x + 1.0;
    assert price * (x + 1.0) == price * x + price;
  }

  /** A stretch at one price adds price times duration to the area. */
  lemma {:induction false} AreaStretch(obs: seq<Observation>, from: int, n: nat, more: nat, price: real)
    requires obs != []
    requires forall t | from + n <= t < from + n + more :: InForce(obs, t) == price
    ensures PriceArea(obs, from, n + more) == PriceArea(obs, from, n) + price * (more as real)
  {
    if more > 0 {
      AreaStretch(obs, from, n, more - 1, price);
      assert n + more - 1 == n + (more - 1);
      assert InForce(obs, from + (n + more) - 1) == price;
      OneMore(price, more - 1);
    } else {
      assert n + more == n && price * 0.0 == 0.0;
    }
  }

  // ---------- The loop ----------

  /** The position of the first observation in the window, or -1. */
  method FindFirst(obs: seq<Observation>, start: int) returns (k: int)
    ensures -1 <= k < |obs|
    ensures k == -1 ==> forall i | 0 <= i < |obs| :: obs[i].time < start
    ensures k >= 0 ==> obs[k].time >= start && forall i | 0 <= i < k :: obs[i].time < start
  {
    for i := 0 to |obs|
      invariant forall j | 0 <= j < i :: obs[j].time < start
    {
      if obs[i].time >= start {
        return i;
      }
    }
    k := -1;
  }

  /**
   The loop before observation i: the area up to the start of the open segment is accounted for.
   */
  predicate Accounted(obs: seq<Observation>, start: int, now: int, anchor: nat, i: nat,
                      segmentStart: int, weighted: real)
    requires obs != [] && anchor <= i <= |obs|
  {
    && start <= segmentStart <= now
    && (segmentStart == start || (anchor < i && segmentStart <= obs[i - 1].time))
    && weighted == PriceArea(obs, start, segmentStart - start)
  }

  /** The active price is in force from the start of the open segment to the next observation. */
  ghost predicate Active(obs: seq<Observation>, now: int, i: nat, segmentStart: int, activePrice: real)
    requires obs != [] && i <= |obs|
  {
    forall t | segmentStart <= t < now && (i < |obs| ==> t < obs[i].time) :: InForce(obs, t) == activePrice
  }

  function Weighted(price: real, duration: int): real {
    price * (duration as real)
  }

  lemma NothingWeighsNothing(price: real)
    ensures Weighted(price, 0) == 0.0
  {
  }

  function Average(area: real, window: nat): real
    requires window > 0
  {
    area / (window as real)
  }

  lemma AverageTimesWindow(area: real, window: nat)
    requires window > 0
    ensures Average(area, window) * (window as real) == area
  {
  }

  /** After an observation its price is in force, up to the next one. */
  lemma NextActive(obs: seq<Observation>, i: nat, segmentStart: int, now: int)
    requires Sorted(obs) && i < |obs|
    requires segmentStart >= obs[i].time || segmentStart == now
    ensures Active(obs, now, i + 1, segmentStart, obs[i].price)
  {
    forall t | segmentStart <= t < now && (i + 1 < |obs| ==> t < obs[i + 1].time)
      ensures InForce(obs, t) == obs[i].price
    {
      InForceAt(obs, i, t);
    }
  }

  lemma FirstActive(obs: seq<Observation>, anchor: nat, start: int, now: int)
    requires Sorted(obs) && anchor < |obs|
    requires anchor == 0 || obs[anchor].time < start
    ensures Active(obs, now, anchor, start, obs[anchor].price)
  {
    forall t | start <= t < now && t < obs[anchor].time
      ensures InForce(obs, t) == obs[anchor].price
    {
      InForceBefore(obs, t);
    }
  }

  /** Closing a segment adds exactly its area. */
  lemma CloseSegment(obs: seq<Observation>, start: int, now: int, i: nat, segmentStart: int, segmentEnd: int, activePrice: real)
    requires obs != [] && i <= |obs| && start <= segmentStart <= segmentEnd <= now
    requires i < |obs| ==> segmentEnd <= obs[i].time
    requires Active(obs, now, i, segmentStart, activePrice)
    ensures PriceArea(obs, start, segmentEnd - start)
            == PriceArea(obs, start, segmentStart - start) + Weighted(activePrice, segmentEnd - segmentStart)
  {
    var n: nat, more: nat := segmentStart - start, segmentEnd - segmentStart;
    assert forall t | start + n <= t < start + n + more :: InForce(obs, t) == activePrice;
    hide InForce, PriceArea, Active, Sorted;
    AreaStretch(obs, start, n, more, activePrice);
    assert n + more == segmentEnd - start;
    assert PriceArea(obs, start, n + more) == PriceArea(obs, start, n) + Weighted(activePrice, more);
  }

  /** One observation keeps the accounting: skipped before the window, a closed segment in it. */
  lemma Advance(obs: seq<Observation>, start: int, now: int, anchor: nat, i: nat,
                segmentStart: int, activePrice: real, weighted: real)
    requires Sorted(obs) && anchor <= i < |obs|
    requires Accounted(obs, start, now, anchor, i, segmentStart, weighted)
    requires Active(obs, now, i, segmentStart, activePrice)
    ensures var next := if obs[i].time <= start then segmentStart else if obs[i].time < now then obs[i].time else now;
            && segmentStart <= next
            && Accounted(obs, start, now, anchor, i + 1, next,
                         weighted + Weighted(activePrice, next - segmentStart))
            && Active(obs, now, i + 1, next, obs[i].price)
  {
    var next := if obs[i].time <= start then segmentStart else if obs[i].time < now then obs[i].time else now;
    NothingWeighsNothing(activePrice);
    if obs[i].time > start {
      CloseSegment(obs, start, now, i, segmentStart, next, activePrice);
    }
    NextActive(obs, i, next, now);
  }

  lemma Finish(obs: seq<Observation>, start: int, now: int, anchor: nat,
               segmentStart: int, activePrice: real, weighted: real)
    requires obs != [] && anchor <= |obs|
    requires Accounted(obs, start, now, anchor, |obs|, segmentStart, weighted)
    requires Active(obs, now, |obs|, segmentStart, activePrice)
    ensures segmentStart <= now && start <= now
    ensures weighted + Weighted(activePrice, now - segmentStart) == PriceArea(obs, start, now - start)
  {
    CloseSegment(obs, start, now, |obs|, segmentStart, now, activePrice);
  }

  /** One term of the weighted sum: a price and the milliseconds it is weighted with. */
  datatype Segment = Segment(price: real, weight: nat)

  function Weights(segments: seq<Segment>): nat {
    if segments == [] then 0 else Weights(segments[..|segments| - 1]) + segments[|segments| - 1].weight
  }

  function WeightedSum(segments: seq<Segment>): real {
    if segments == [] then 0.0 else
      var n := |segments| - 1;
      WeightedSum(segments[..n]) + Weighted(segments[n].price, segments[n].weight)
  }

  lemma SegmentAppended(segments: seq<Segment>, s: Segment)
    ensures Weights(segments + [s]) == Weights(segments) + s.weight
    ensures WeightedSum(segments + [s]) == WeightedSum(segments) + Weighted(s.price, s.weight)
  {
    assert (segments + [s])[..|segments|] == segments;
  }

  /**
   The weighted sum over the segments between the start and now. Whatever the observations, the
   weights of the terms it adds up are positive and fill exactly the time from the start to now.
   */
  method WeighSegments(obs: seq<Observation>, start: int, now: int)
    returns (weighted: real, ghost segments: seq<Segment>)
    requires obs != [] && Sorted(obs) && start <= now
    ensures weighted == PriceArea(obs, start, now - start)
    ensures weighted == WeightedSum(segments)
    ensures Weights(segments) == now - start && forall s | s in segments :: s.weight > 0
  {
    var first := FindFirst(obs, start);
    var anchor := if first <= 0 then 0 else first - 1;
    var segmentStart, activePrice := start, obs[anchor].price;
    weighted, segments := 0.0, [];
    FirstActive(obs, anchor, start, now);
    assert Accounted(obs, start, now, anchor, anchor, start, 0.0);
    assert WeightedSum([]) == 0.0 && Weights([]) == 0;
    hide Sorted, InForce, PriceArea, Accounted, Active, Weighted, WeightedSum, Weights;
    for i := anchor to |obs|
      invariant Accounted(obs, start, now, anchor, i, segmentStart, weighted)
      invariant Active(obs, now, i, segmentStart, activePrice)
      invariant weighted == WeightedSum(segments)
      invariant start <= segmentStart <= now && Weights(segments) == segmentStart - start
      invariant forall s | s in segments :: s.weight > 0
    {
      NothingWeighsNothing(activePrice);
      Advance(obs, start, now, anchor, i, segmentStart, activePrice, weighted);
      var time := obs[i].time;
      if time <= start {
        activePrice := obs[i].price;
        continue;
      }
      var segmentEnd := if time < now then time else now;
      if segmentEnd > segmentStart {
        SegmentAppended(segments, Segment(activePrice, segmentEnd - segmentStart));
        segments := segments + [Segment(activePrice, segmentEnd - segmentStart)];
        weighted := weighted + Weighted(activePrice, segmentEnd - segmentStart);
      }
      activePrice := obs[i].price;
      segmentStart := segmentEnd;
    }
    NothingWeighsNothing(activePrice);
    Finish(obs, start, now, anchor, segmentStart, activePrice, weighted);
    if now > segmentStart {
      SegmentAppended(segments, Segment(activePrice, now - segmentStart));
      segments := segments + [Segment(activePrice, now - segmentStart)];
      weighted := weighted + Weighted(activePrice, now - segmentStart);
    }
  }

  /**
   The average of the step function over the window that ends now: a weighted mean whose weights
   add up to exactly the window.
   */
  method ComputeTwap(observations: seq<Observation>, windowSeconds: int, now: int)
    returns (r: Option<Twap>, ghost segments: seq<Segment>)
    ensures r.Some? <==> windowSeconds > 0 && observations != []
    ensures r.Some? ==>
              var sorted := SortByTime(observations);
              var window: nat := windowSeconds * 1000;
              && r.value.twapPrice == Average(PriceArea(sorted, now - window, window), window)
              && r.value.twapPrice == Average(WeightedSum(segments), window)
              && Weights(segments) == window && (forall s | s in segments :: s.weight > 0)
              && r.value.spotPrice == sorted[|sorted| - 1].price
              && r.value.sampleCount == |observations|
  {
    if windowSeconds <= 0 || observations == [] {
      return None, [];
    }
    var sorted := SortByTime(observations);
    var window: nat := windowSeconds * 1000;
    hide SortByTime, PriceArea, Average, WeightedSum, Weights;
    var weighted;
    weighted, segments := WeighSegments(sorted, now - window, now);
    r := Some(Twap(sorted[|sorted| - 1].price, Average(weighted, window), |sorted|));
  }

  // ---------- What the average lies between ----------

  lemma {:induction false} AreaBounds(obs: seq<Observation>, from: int, n: nat, low: real, high: real)
    requires obs != []
    requires forall t | from <= t < from + n :: low <= InForce(obs, t) <= high
    ensures low * (n as real) <= PriceArea(obs, from, n) <= high * (n as real)
  {
    if n > 0 {
      AreaBounds(obs, from, n - 1, low, high);
      assert low <= InForce(obs, from + n - 1) <= high;
      hide InForce;
      OneMore(low, n - 1);
      OneMore(high, n - 1);
    }
  }

  /** The average lies between the least and the greatest price in force during the window. */
  lemma AverageBetween(obs: seq<Observation>, from: int, window: nat, low: real, high: real)
    requires obs != [] && window > 0
    requires forall t | from <= t < from + window :: low <= InForce(obs, t) <= high
    ensures low <= Average(PriceArea(obs, from, window), window) <= high
  {
    AreaBounds(obs, from, window, low, high);
    AverageTimesWindow(PriceArea(obs, from, window), window);
    var twap := Average(PriceArea(obs, from, window), window);
    hide PriceArea, Average;
    var w := window as real;
    if twap < low {
      RealMulLess(twap, low, w);
    } else if high < twap {
      RealMulLess(high, twap, w);
    }
  }

  lemma RealMulLess(a: real, b: real, c: real)
    requires a < b && c > 0.0
    ensures a * c < b * c
  {
  }

  /** A price in force is always an observed one. */
  lemma {:induction false} InForceObserved(obs: seq<Observation>, t: int)
    requires obs != []
    ensures exists o :: o in obs && o.price == InForce(obs, t)
    decreases |obs|
  {
    var n := |obs| - 1;
    if n > 0 && obs[n].time > t {
      InForceObserved(obs[..n], t);
      var o :| o in obs[..n] && o.price == InForce(obs[..n], t);
      assert o in obs;
    } else {
      assert obs[n] in obs;
    }
  }

  /** The average lies between the least and the greatest observed price. */
  lemma AverageWithinObserved(obs: seq<Observation>, from: int, window: nat, low: real, high: real)
    requires obs != [] && window > 0
    requires forall o | o in obs :: low <= o.price <= high
    ensures low <= Average(PriceArea(obs, from, window), window) <= high
  {
    forall t
      ensures low <= InForce(obs, t) <= high
    {
      InForceObserved(obs, t);
    }
    AverageBetween(obs, from, window, low, high);
  }
}
