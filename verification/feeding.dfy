/** The feeding-event detector of the feeding analysis service
    (`_detect_and_calculate_feeding`): one scan over a hopper's weight
    series that finds rising edges from a valley to a peak and reports
    each rise above the threshold, compensated for the consumption that
    went on while the hopper was being filled. */
module FeedingDetector {
  import opened Results

  /** One point of the weight series: its timestamp and its weight. */
  datatype Sample = Sample(time: int, value: real)

  /** One detected feeding, stamped at its valley. `valley` and `peak` are
      the indices of the rising edge; the remaining fields are the stored
      record's fields. */
  datatype Event = Event(time: int, valley: nat, peak: nat, addedWeight: real,
                         rawIncrease: real, durationIntervals: int, compensation: real)

  /** `THRESHOLD`: a rise must exceed it to be a feeding. */
  const Threshold: real := 10.0

  /** A step must exceed this to start tracking, and a drop must exceed it
      to end a rise. */
  const StepLimit: real := 5.0

  /** How many points past a drop are searched for a rebound. */
  const LookaheadSteps: nat := 3

  /** Point `p + 1 + j`, when it exists, is below `v[p]`: no rebound at
      lookahead step `j`. */
  predicate NoRebound(v: seq<Sample>, p: nat, j: nat)
    requires p < |v|
  {
    p + 1 + j < |v| ==> v[p + 1 + j].value < v[p].value
  }

  /** The lookahead loop from step `k` on: the first step `k' <= 3` whose
      point `p + 1 + k'` exists and is back at or above `v[p]`; the loop
      stops at the first step past the end of the series. */
  function Rebound(v: seq<Sample>, p: nat, k: nat): (r: Option<nat>)
    requires p + 1 < |v| && 1 <= k
    ensures r.Some? ==>
      k <= r.value <= LookaheadSteps && p + 1 + r.value < |v| && v[p + 1 + r.value].value >= v[p].value &&
      forall j :: k <= j < r.value ==> NoRebound(v, p, j)
    ensures r.None? ==> forall j :: k <= j <= LookaheadSteps ==> NoRebound(v, p, j)
    decreases LookaheadSteps + 1 - k
  {
    if k > LookaheadSteps || p + 1 + k >= |v| then None
    else if v[p + 1 + k].value >= v[p].value then Some(k)
    else Rebound(v, p, k + 1)
  }

  /** One pass of the peak-tracking loop at `p`: the next peak index, or
      None when the rise ends here. A non-decreasing step moves on by one;
      a drop moves to the rebound point when there is one; otherwise a drop
      of more than 5.0 ends the rise and a smaller one moves on by one. */
  function Step(v: seq<Sample>, p: nat): (r: Option<nat>)
    requires p + 1 < |v|
    ensures r.Some? ==> p < r.value < |v|
    ensures r.None? <==>
      v[p + 1].value < v[p].value && v[p].value - v[p + 1].value > StepLimit &&
      forall j :: 1 <= j <= LookaheadSteps ==> NoRebound(v, p, j)
  {
    if v[p + 1].value >= v[p].value then Some(p + 1)
    else
      var rebound := Rebound(v, p, 1);
      if rebound.Some? then
        assert !NoRebound(v, p, rebound.value);
        Some(p + rebound.value + 1)
      else if v[p].value - v[p + 1].value > StepLimit then None
      else Some(p + 1)
  }

  /** The peak-tracking loop from `p`: the index where it stops, either at
      the last point of the series or where a step ends the rise. */
  function Track(v: seq<Sample>, p: nat): (peak: nat)
    requires p < |v|
    ensures p <= peak < |v|
    decreases |v| - p
  {
    if p == |v| - 1 then p
    else
      match Step(v, p)
      case None => p
      case Some(q) => Track(v, q)
  }

  /** The consumption rate before a valley: the fall from the point before
      it, when that is positive; 0 at the start of the series. */
  function ConsumptionRate(v: seq<Sample>, valley: nat): (r: real)
    requires valley < |v|
    ensures r >= 0.0
    ensures r > 0.0 <==> valley >= 1 && v[valley - 1].value > v[valley].value
    ensures r > 0.0 ==> r == v[valley - 1].value - v[valley].value
  {
    if valley >= 1 && v[valley - 1].value - v[valley].value > 0.0 then v[valley - 1].value - v[valley].value
    else 0.0
  }

  /** The record for the rise from `valley` to `peak`. */
  function MakeEvent(v: seq<Sample>, valley: nat, peak: nat): (e: Event)
    requires valley < peak < |v|
    ensures e.valley == valley && e.peak == peak && e.time == v[valley].time
    ensures e.durationIntervals == peak - valley >= 1
    ensures e.rawIncrease == v[peak].value - v[valley].value
    ensures e.compensation == ConsumptionRate(v, valley) * (peak - valley) as real >= 0.0
    ensures e.addedWeight == e.rawIncrease + e.compensation >= e.rawIncrease
  {
    var raw := v[peak].value - v[valley].value;
    var x := peak - valley;
    var compensation := ConsumptionRate(v, valley) * x as real;
    Event(v[valley].time, valley, peak, raw + compensation, raw, x, compensation)
  }

  /** What every stored event satisfies: it starts with a step of more
      than 5.0 out of its valley, its peak is before the last point and
      more than 10.0 above the valley, and its fields are computed from the
      two points. */
  predicate Valid(v: seq<Sample>, e: Event) {
    e.valley < e.peak < |v| - 1 &&
    v[e.valley + 1].value > v[e.valley].value + StepLimit &&
    e.peak == Track(v, e.valley + 1) &&
    e.rawIncrease > Threshold &&
    e == MakeEvent(v, e.valley, e.peak)
  }

  /** Events come in series order and their rises do not overlap: each
      valley is at or after the previous peak. */
  predicate Ordered(es: seq<Event>) {
    forall i, j :: 0 <= i < j < |es| ==> es[i].peak <= es[j].valley
  }

  /** The outer loop from index `i` with the cooldown mark `lastPeak`. */
  function Scan(v: seq<Sample>, i: nat, lastPeak: int): (es: seq<Event>)
    requires 1 <= i
    ensures i >= |v| ==> es == []
    decreases |v| - i
  {
    if i >= |v| then []
    else if i <= lastPeak then Scan(v, i + 1, lastPeak)
    else if v[i].value > v[i - 1].value + StepLimit then
      var peak := Track(v, i);
      if peak >= |v| - 1 then []
      else if v[peak].value - v[i - 1].value > Threshold then
        [MakeEvent(v, i - 1, peak)] + Scan(v, peak + 1, peak)
      else Scan(v, i + 1, lastPeak)
    else Scan(v, i + 1, lastPeak)
  }

  /** One step of the scan past the cooldown mark. */
  lemma ScanStep(v: seq<Sample>, i: nat, lastPeak: int)
    requires lastPeak < i && 1 <= i < |v|
    ensures v[i].value <= v[i - 1].value + StepLimit ==> Scan(v, i, lastPeak) == Scan(v, i + 1, lastPeak)
    ensures v[i].value > v[i - 1].value + StepLimit && Track(v, i) >= |v| - 1 ==> Scan(v, i, lastPeak) == []
    ensures (v[i].value > v[i - 1].value + StepLimit && Track(v, i) < |v| - 1 &&
             v[Track(v, i)].value - v[i - 1].value > Threshold) ==>
      Scan(v, i, lastPeak) == [MakeEvent(v, i - 1, Track(v, i))] + Scan(v, Track(v, i) + 1, Track(v, i))
    ensures (v[i].value > v[i - 1].value + StepLimit && Track(v, i) < |v| - 1 &&
             v[Track(v, i)].value - v[i - 1].value <= Threshold) ==>
      Scan(v, i, lastPeak) == Scan(v, i + 1, lastPeak)
  {
  }

  /** The event the scan records at a qualifying rise is valid. */
  lemma RiseValid(v: seq<Sample>, i: nat)
    requires 1 <= i < |v| && v[i].value > v[i - 1].value + StepLimit
    requires Track(v, i) < |v| - 1 && v[Track(v, i)].value - v[i - 1].value > Threshold
    ensures Valid(v, MakeEvent(v, i - 1, Track(v, i)))
  {
  }

  /** Every event of a scan is valid. */
  lemma {:induction false} ScanValid(v: seq<Sample>, i: nat, lastPeak: int)
    requires 1 <= i
    ensures forall k :: 0 <= k < |Scan(v, i, lastPeak)| ==> Valid(v, Scan(v, i, lastPeak)[k])
    decreases |v| - i
  {
    if i < |v| {
      if i <= lastPeak {
        ScanValid(v, i + 1, lastPeak);
      } else if v[i].value > v[i - 1].value + StepLimit {
        var peak := Track(v, i);
        if peak < |v| - 1 {
          if v[peak].value - v[i - 1].value > Threshold {
            ScanValid(v, peak + 1, peak);
            RiseValid(v, i);
          } else {
            ScanValid(v, i + 1, lastPeak);
          }
        }
      } else {
        ScanValid(v, i + 1, lastPeak);
      }
    }
  }

  /** Every event of a scan starts at or after the point before the
      scan's start. */
  lemma {:induction false} ScanStarts(v: seq<Sample>, i: nat, lastPeak: int)
    requires 1 <= i
    ensures forall k :: 0 <= k < |Scan(v, i, lastPeak)| ==> Scan(v, i, lastPeak)[k].valley >= i - 1
    decreases |v| - i
  {
    if i < |v| {
      if i <= lastPeak {
        ScanStarts(v, i + 1, lastPeak);
      } else if v[i].value > v[i - 1].value + StepLimit {
        var peak := Track(v, i);
        if peak < |v| - 1 {
          if v[peak].value - v[i - 1].value > Threshold {
            ScanStarts(v, peak + 1, peak);
          } else {
            ScanStarts(v, i + 1, lastPeak);
          }
        }
      } else {
        ScanStarts(v, i + 1, lastPeak);
      }
    }
  }

  /** An event put in front of ordered events that all start at or after
      its peak keeps them ordered. */
  lemma ConsOrdered(e: Event, rest: seq<Event>)
    requires Ordered(rest) && e.valley < e.peak
    requires forall k :: 0 <= k < |rest| ==> rest[k].valley >= e.peak
    ensures Ordered([e] + rest)
  {
    var es := [e] + rest;
    forall a, b | 0 <= a < b < |es|
      ensures es[a].peak <= es[b].valley
    {
      assert es[b] == rest[b - 1];
      if a > 0 {
        assert es[a] == rest[a - 1];
      }
    }
  }

  /** The events of a scan do not overlap. */
  lemma {:induction false} ScanOrdered(v: seq<Sample>, i: nat, lastPeak: int)
    requires 1 <= i
    ensures Ordered(Scan(v, i, lastPeak))
    decreases |v| - i
  {
    if i < |v| {
      if i <= lastPeak {
        ScanOrdered(v, i + 1, lastPeak);
      } else {
        ScanStep(v, i, lastPeak);
        if v[i].value > v[i - 1].value + StepLimit && Track(v, i) < |v| - 1 &&
           v[Track(v, i)].value - v[i - 1].value > Threshold {
          var peak := Track(v, i);
          ScanOrdered(v, peak + 1, peak);
          ScanStarts(v, peak + 1, peak);
          ConsOrdered(MakeEvent(v, i - 1, peak), Scan(v, peak + 1, peak));
        } else if !(v[i].value > v[i - 1].value + StepLimit && Track(v, i) >= |v| - 1) {
          ScanOrdered(v, i + 1, lastPeak);
        }
      }
    }
  }

  /** `_detect_and_calculate_feeding(records)`: no events for fewer than
      two points; otherwise the scan from index 1 with no cooldown. */
  function Detect(v: seq<Sample>): (es: seq<Event>)
    ensures |v| < 2 ==> es == []
  {
    if |v| < 2 then [] else Scan(v, 1, -1)
  }

  /** Every detected event is valid and the events are in series order. */
  lemma DetectValid(v: seq<Sample>)
    ensures forall k :: 0 <= k < |Detect(v)| ==> Valid(v, Detect(v)[k])
    ensures Ordered(Detect(v))
  {
    if |v| >= 2 {
      ScanValid(v, 1, -1);
      ScanOrdered(v, 1, -1);
    }
  }

  /** Rises never overlap, so valleys strictly increase along the events. */
  lemma ValleysIncrease(v: seq<Sample>, i: nat, j: nat)
    requires i < j < |Detect(v)|
    ensures Detect(v)[i].valley < Detect(v)[i].peak <= Detect(v)[j].valley
  {
    DetectValid(v);
  }

  /** Every event adds at least its raw rise, which exceeds the threshold,
      over at least one interval. */
  lemma EventBounds(v: seq<Sample>, k: nat)
    requires k < |Detect(v)|
    ensures var e := Detect(v)[k];
      e.addedWeight >= e.rawIncrease > Threshold && e.durationIntervals >= 1 && e.compensation >= 0.0
  {
    DetectValid(v);
  }

  /** The cooldown never skips a point: the scan resumes after a peak, so
      the mark is always behind the index and the scan is the same as one
      without it. */
  lemma {:induction false} CooldownInert(v: seq<Sample>, i: nat, lastPeak: int)
    requires 1 <= i && lastPeak < i
    ensures Scan(v, i, lastPeak) == Scan(v, i, -1)
    decreases |v| - i
  {
    if i < |v| {
      CooldownInert(v, i + 1, lastPeak);
    }
  }

  /** A rise still going at the last point ends the whole scan, dropping
      any later rise: the data may be incomplete. */
  lemma EdgeEndsScan(v: seq<Sample>, i: nat, lastPeak: int)
    requires 1 <= i < |v| && lastPeak < i
    requires v[i].value > v[i - 1].value + StepLimit && Track(v, i) == |v| - 1
    ensures Scan(v, i, lastPeak) == []
  {
  }

  /** Tracking stops at a peak that either is the last point or is
      followed by a drop of more than 5.0 with no rebound in the next three
      points. */
  lemma {:induction false} TrackStops(v: seq<Sample>, p: nat)
    requires p < |v|
    ensures var peak := Track(v, p);
      peak == |v| - 1 ||
      (v[peak].value - v[peak + 1].value > StepLimit &&
       forall j :: 1 <= j <= LookaheadSteps ==> NoRebound(v, peak, j))
    decreases |v| - p
  {
    if p < |v| - 1 {
      match Step(v, p)
      case None =>
      case Some(q) => TrackStops(v, q);
    }
  }

  /** A series that rises from 100 to 140 in two steps and then drops by 15
      holds one feeding of 40 over two intervals, stamped at the valley. */
  lemma Example(v: seq<Sample>)
    requires |v| == 6
    requires v[0].value == 100.0 && v[1].value == 100.0 && v[2].value == 120.0
    requires v[3].value == 140.0 && v[4].value == 125.0 && v[5].value == 125.0
    ensures Detect(v) == [Event(v[1].time, 1, 3, 40.0, 40.0, 2, 0.0)]
  {
    assert Step(v, 2) == Some(3);
    assert Rebound(v, 3, 1) == None;
    assert Step(v, 3) == None;
    assert Track(v, 2) == 3;
    assert Scan(v, 5, 3) == [];
    assert Scan(v, 4, 3) == [];
    assert Scan(v, 1, -1) == Scan(v, 2, -1);
  }

  /** The lookahead loop `for k in range(1, 4)` after a drop at `peak`:
      whether a later point rebounds to `v[peak]`, and at which step. */
  method Lookahead(v: seq<Sample>, peak: nat) returns (fluctuation: bool, jump: nat)
    requires peak + 1 < |v|
    ensures fluctuation <==> Rebound(v, peak, 1).Some?
    ensures fluctuation ==> jump == Rebound(v, peak, 1).value
  {
    fluctuation := false;
    jump := 0;
    var currVal := v[peak].value;
    var k := 1;
    while k <= LookaheadSteps
      invariant 1 <= k <= LookaheadSteps + 1
      invariant Rebound(v, peak, 1) == Rebound(v, peak, k)
      decreases LookaheadSteps + 1 - k
    {
      if peak + 1 + k >= |v| {
        break;
      }
      if v[peak + 1 + k].value >= currVal {
        fluctuation := true;
        jump := k;
        break;
      }
      k := k + 1;
    }
  }

  /** The peak-tracking loop started at the first rising point `i`. */
  method TrackPeak(v: seq<Sample>, i: nat) returns (peak: nat)
    requires i < |v|
    ensures peak == Track(v, i)
  {
    var n := |v|;
    peak := i;
    while peak < n - 1
      invariant i <= peak < n
      invariant Track(v, peak) == Track(v, i)
      decreases n - peak
    {
      var nextVal := v[peak + 1].value;
      var currVal := v[peak].value;
      if nextVal >= currVal {
        peak := peak + 1;
        continue;
      }
      var fluctuation, jump := Lookahead(v, peak);
      if fluctuation {
        peak := peak + jump + 1;
        continue;
      }
      if currVal - nextVal > StepLimit {
        return;
      }
      peak := peak + 1;
    }
  }

  /** The detector as a loop over the series, with the cooldown mark, as
      the service runs it. */
  method DetectFeeding(v: seq<Sample>) returns (events: seq<Event>)
    ensures events == Detect(v)
  {
    var n := |v|;
    if n < 2 {
      return [];
    }
    events := [];
    var lastPeak := -1;
    var i := 1;
    while i < n
      invariant 1 <= i <= n
      invariant events + Scan(v, i, lastPeak) == Scan(v, 1, -1)
      decreases n - i
    {
      if i <= lastPeak {
        i := i + 1;
        continue;
      }
      ScanStep(v, i, lastPeak);
      var curr := v[i].value;
      var prev := v[i - 1].value;
      if curr > prev + StepLimit {
        var valley := i - 1;
        var peak := TrackPeak(v, i);
        if peak >= n - 1 {
          break;
        }
        var rawIncrease := v[peak].value - prev;
        if rawIncrease > Threshold {
          events := events + [MakeEvent(v, valley, peak)];
          lastPeak := peak;
          i := peak + 1;
        } else {
          i := i + 1;
        }
      } else {
        i := i + 1;
      }
    }
  }
}
