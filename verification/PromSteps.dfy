/** How many points a Prometheus query asks for: the step chosen for a time range. */
module PromSteps {
  import opened Prelude

  const TIME_IN_SECONDS := [30, 60, 300, 600, 900, 1800, 3600, 10800, 21600, 43200, 86400, 259200, 604800, 1209600]

  const ALLOWED_MIN_STEPS := [1, 2, 10, 20, 30, 60, 120, 360, 720, 1440, 2880, 8640, 20160, 40320]

  const LAST_RANGE := 1209600

  ghost predicate Increasing(table: seq<int>) {
    forall i, j :: 0 <= i < j < |table| ==> table[i] < table[j]
  }

  /** a / b rounded up. */
  function CeilDiv(a: int, b: int): int
    requires b > 0
  {
    -(-a / b)
  }

  /** k is the least index whose entry is not below the range. */
  ghost predicate LeastNotBelow(table: seq<int>, range: int, k: nat) {
    k < |table| && table[k] >= range && forall i :: 0 <= i < k ==> table[i] < range
  }

  /** The step tabulated for the least range not below the given one, and none (undefined) beyond the table. */
  ghost predicate Normalized(table: seq<int>, steps: seq<int>, range: int, minStep: Option<int>)
    requires |steps| == |table|
  {
    if minStep.None? then forall i :: 0 <= i < |table| ==> table[i] < range
    else exists k: nat :: LeastNotBelow(table, range, k) && minStep.value == steps[k]
  }

  method IndexOf(table: seq<int>, range: int) returns (index: int)
    ensures index == -1 <==> range !in table
    ensures index != -1 ==> 0 <= index < |table| && table[index] == range
  {
    index := 0;
    while index < |table|
      invariant 0 <= index <= |table| && range !in table[..index]
    {
      if table[index] == range {
        return;
      }
      index := index + 1;
    }
    assert table[..index] == table;
    index := -1;
  }

  /** Looks the range up, and searches for the next one if it is not tabulated. */
  method NormalizedMinStep(table: seq<int>, steps: seq<int>, range: int) returns (minStep: Option<int>)
    requires Increasing(table) && |steps| == |table|
    ensures Normalized(table, steps, range, minStep)
  {
    var timeIndex := IndexOf(table, range);
    if timeIndex != -1 {
      assert LeastNotBelow(table, range, timeIndex);
      minStep := Some(steps[timeIndex]);
    } else {
      var start, end := 0, |table| - 1;
      var ans := -1;
      while start <= end
        invariant 0 <= start <= end + 1 <= |table|
        invariant forall i :: 0 <= i < start ==> table[i] < range
        invariant forall i :: end < i < |table| ==> table[i] > range
        invariant ans == if end + 1 < |table| then end + 1 else -1
      {
        var mid := (start + end) / 2;
        assert table[mid] != range;
        if table[mid] <= range {
          start := mid + 1;
        } else {
          ans := mid;
          end := mid - 1;
        }
      }
      if ans == -1 {
        minStep := None;
      } else {
        assert LeastNotBelow(table, range, ans);
        minStep := Some(steps[ans]);
      }
    }
  }

  const MINUTE := 60
  const HOUR := 3600
  const DAY := 86400

  /** The ranges that are offered: from half a minute to two weeks. */
  lemma RangesOffered()
    ensures TIME_IN_SECONDS
            == [30, MINUTE, 5 * MINUTE, 10 * MINUTE, 15 * MINUTE, 30 * MINUTE, HOUR, 3 * HOUR, 6 * HOUR, 12 * HOUR,
                DAY, 3 * DAY, 7 * DAY, 14 * DAY]
  {
  }

  /** On the fallback no range within the table gets more than 30 points, and the last range gets all of them. */
  lemma AtMostThirtyPoints(range: int, k: nat)
    requires LeastNotBelow(TIME_IN_SECONDS, range, k)
    ensures ALLOWED_MIN_STEPS[k] > 0 && CeilDiv(range, ALLOWED_MIN_STEPS[k]) <= 30
    ensures TIME_IN_SECONDS[k] == 30 * ALLOWED_MIN_STEPS[k]
  {
    CeilDivAtMost(range, ALLOWED_MIN_STEPS[k], 30);
  }

  lemma CeilDivAtMost(a: int, b: int, q: int)
    requires b > 0 && a <= q * b
    ensures CeilDiv(a, b) <= q
  {
    var c := -a / b;
    if c < -q {
      assert (c + 1) * b <= -q * b;
    }
  }

  /** Rounding up is exact: the quotient times b covers a, and one less does not. */
  lemma CeilDivExact(a: int, b: int)
    requires b > 0
    ensures (CeilDiv(a, b) - 1) * b < a <= CeilDiv(a, b) * b
  {
  }

  lemma TableIsIncreasing()
    ensures Increasing(TIME_IN_SECONDS) && |ALLOWED_MIN_STEPS| == |TIME_IN_SECONDS|
  {
  }

  // ----- queries ------------------------------------------------------------------------------

  /** The parsed minimum step of a panel query; None is what parsing gives for text that is no number. */
  datatype Panel = Panel(queryID: string, minStep: Option<int>)

  datatype QueryInput = QueryInput(queryID: string, minStep: Option<int>)

  /** The step is no number, or positive, or zero with a range that is not negative. */
  predicate Usable(p: Panel, range: int) {
    p.minStep.Some? ==> p.minStep.value > 0 || (p.minStep.value == 0 && range >= 0)
  }

  /** The query's points per range are within the limit. */
  ghost predicate WithinLimit(q: QueryInput, range: int, most: int) {
    q.minStep.Some? && q.minStep.value > 0 && CeilDiv(range, q.minStep.value) <= most
  }

  const SCRAPE_INTERVAL := 5

  const EVENT_QUERY := "chaos-event"
  const VERDICT_QUERY := "chaos-verdict"

  /** The step of the annotation queries. */
  function EventStep(range: int, limit: int, threshold: int): int
    requires limit + threshold > 0
  {
    if range < limit - threshold then SCRAPE_INTERVAL else CeilDiv(range, limit + threshold)
  }

  /**
   Builds the query inputs, one per panel and two for the annotations if those are wanted. If the panels'
   steps are usable, every query over a tabulated range stays within limit + threshold points.
   */
  method GetPromQueryInput(panels: seq<Panel>, range: int, withEvents: bool, limit: int, threshold: int)
    returns (queries: seq<QueryInput>)
    requires limit > threshold >= 0 && limit + threshold >= 30
    ensures |queries| == |panels| + if withEvents then 2 else 0
    ensures forall i :: 0 <= i < |panels| ==> queries[i].queryID == panels[i].queryID
    ensures forall i :: 0 <= i < |panels| ==>
              if KeepsStep(panels[i], range, limit - threshold) then queries[i].minStep == panels[i].minStep
              else Normalized(TIME_IN_SECONDS, ALLOWED_MIN_STEPS, range, queries[i].minStep)
    ensures withEvents ==>
              && queries[|panels|] == QueryInput("chaos-event", Some(EventStep(range, limit, threshold)))
              && queries[|panels| + 1] == QueryInput("chaos-verdict", Some(EventStep(range, limit, threshold)))
    ensures range <= LAST_RANGE && (forall p :: p in panels ==> Usable(p, range)) ==>
              forall q :: q in queries ==> WithinLimit(q, range, limit + threshold)
  {
    TableIsIncreasing();
    queries := [];
    var i := 0;
    while i < |panels|
      invariant 0 <= i <= |panels| && |queries| == i
      invariant forall j :: 0 <= j < i ==> queries[j].queryID == panels[j].queryID
      invariant forall j :: 0 <= j < i ==>
                  if KeepsStep(panels[j], range, limit - threshold) then queries[j].minStep == panels[j].minStep
                  else Normalized(TIME_IN_SECONDS, ALLOWED_MIN_STEPS, range, queries[j].minStep)
      invariant range <= LAST_RANGE ==>
                  forall j :: 0 <= j < i && Usable(panels[j], range) ==>
                    WithinLimit(queries[j], range, limit + threshold)
    {
      var step := panels[i].minStep;
      var minStep: Option<int>;
      if KeepsStep(panels[i], range, limit - threshold) {
        minStep := step;
      } else {
        minStep := NormalizedMinStep(TIME_IN_SECONDS, ALLOWED_MIN_STEPS, range);
        if range <= LAST_RANGE {
          assert TIME_IN_SECONDS[13] == LAST_RANGE;
          ghost var k: nat :| LeastNotBelow(TIME_IN_SECONDS, range, k) && minStep.value == ALLOWED_MIN_STEPS[k];
          AtMostThirtyPoints(range, k);
        }
      }
      queries := queries + [QueryInput(panels[i].queryID, minStep)];
      i := i + 1;
    }
    if withEvents {
      EventStepWithinLimit(range, limit, threshold);
      var minStep := Some(EventStep(range, limit, threshold));
      queries := queries + [QueryInput(EVENT_QUERY, minStep), QueryInput(VERDICT_QUERY, minStep)];
    }
  }

  /**
   ceil(range / step) < bound as JavaScript evaluates it: dividing by zero gives plus or minus infinity, or
   not-a-number for 0 / 0.
   */
  predicate BelowLimit(range: int, step: int, bound: int) {
    if step > 0 then CeilDiv(range, step) < bound
    else if step < 0 then CeilDiv(-range, -step) < bound
    else range < 0
  }

  /** A panel's own step is kept if it is a number and asks for few enough points. */
  predicate KeepsStep(p: Panel, range: int, bound: int) {
    p.minStep.Some? && BelowLimit(range, p.minStep.value, bound)
  }

  /** When a panel's own step is kept: it is positive with at most bound - 1 points, or the signs make it so. */
  lemma KeepsStepExactly(p: Panel, range: int, bound: int)
    ensures KeepsStep(p, range, bound) <==>
            p.minStep.Some?
            && var step := p.minStep.value;
               if step > 0 then range <= step * (bound - 1)
               else if step < 0 then -range <= -step * (bound - 1)
               else range < 0
  {
    if p.minStep.Some? {
      if p.minStep.value > 0 {
        CeilDivBelow(range, p.minStep.value, bound);
      } else if p.minStep.value < 0 {
        CeilDivBelow(-range, -p.minStep.value, bound);
      }
    }
  }

  lemma CeilDivBelow(a: int, b: int, q: int)
    requires b > 0
    ensures CeilDiv(a, b) < q <==> a <= b * (q - 1)
  {
    CeilDivExact(a, b);
    if CeilDiv(a, b) < q {
      MoreTimes(CeilDiv(a, b), q - 1, b);
    } else {
      MoreTimes(q, CeilDiv(a, b), b);
    }
  }

  lemma MoreTimes(m: int, n: int, b: int)
    requires b > 0 && m <= n
    ensures m * b <= n * b && (m - 1) * b <= (n - 1) * b && n * b == b * n && (m - 1) * b == b * (m - 1)
  {
  }

  /** Short ranges get the scrape interval, and longer ones the least step that stays within the limit. */
  lemma EventStepExactly(range: int, limit: int, threshold: int)
    requires limit > threshold >= 0
    ensures range < limit - threshold ==> EventStep(range, limit, threshold) == 5
    ensures range >= limit - threshold ==>
              var step := EventStep(range, limit, threshold);
              step > 0 && CeilDiv(range, step) <= limit + threshold
              && forall s :: 0 < s < step ==> CeilDiv(range, s) > limit + threshold
  {
    var most, step := limit + threshold, EventStep(range, limit, threshold);
    if range >= limit - threshold {
      CeilDivExact(range, most);
      CeilDivBelow(range, most, 1);
      CeilDivAtMost(range, step, most);
      forall s | 0 < s < step
        ensures CeilDiv(range, s) > most
      {
        CeilDivBelow(range, s, most + 1);
        CeilDivBelow(range, most, s + 1);
      }
    }
  }

  lemma EventStepWithinLimit(range: int, limit: int, threshold: int)
    requires limit > threshold >= 0 && limit + threshold >= 30
    ensures EventStep(range, limit, threshold) > 0
    ensures CeilDiv(range, EventStep(range, limit, threshold)) <= limit + threshold
  {
    var most := limit + threshold;
    var step := EventStep(range, limit, threshold);
    CeilDivExact(range, most);
    CeilDivAtMost(range, step, most);
  }
}
