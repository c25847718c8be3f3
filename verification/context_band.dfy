/** The upper edge of the context-window band drawn under an agent row
    (frontend/src/gantt/contextOverlay.ts). */
module ContextBand {
  import opened Common

  /** Tokens in the context window, and its limit, from a moment on. */
  datatype Sample = Sample(tMs: int, tokens: int, limit: int)
  datatype Point = Point(x: real, y: real)
  datatype Geom = Geom(top: seq<Point>, baselineY: real, maxRatio: real, lastRatio: real)

  function Min(a: real, b: real): real {
    if a < b then a else b
  }

  function Max(a: real, b: real): real {
    if a < b then b else a
  }

  /** An unknown limit and a negative count read as empty; the ratio never exceeds one. */
  function ContextRatio(tokens: int, limit: int): (r: real)
    ensures 0.0 <= r <= 1.0
    ensures r == 1.0 <==> 0 < limit <= tokens
    ensures r == 0.0 <==> limit <= 0 || tokens <= 0
    ensures 0 < limit && 0 <= tokens <= limit ==> r * (limit as real) == tokens as real
  {
    if !(limit > 0) then 0.0
    else if tokens < 0 then 0.0
    else RatioFacts(tokens, limit); Min(1.0, (tokens as real) / (limit as real))
  }

  lemma RatioFacts(tokens: int, limit: int)
    requires 0 < limit && 0 <= tokens
    ensures var q := (tokens as real) / (limit as real);
      && q * (limit as real) == tokens as real && 0.0 <= q
      && (q >= 1.0 <==> tokens >= limit) && (q == 0.0 <==> tokens == 0)
  {
    QuotientFacts((tokens as real) / (limit as real), limit as real, tokens as real);
  }

  lemma QuotientFacts(q: real, l: real, t: real)
    requires 0.0 < l && 0.0 <= t && q * l == t
    ensures 0.0 <= q && (q >= 1.0 <==> t >= l) && (q == 0.0 <==> t == 0.0)
  {
    if q < 0.0 {
      MulPositive(-q, l);
    } else if 0.0 < q {
      MulPositive(q, l);
      MulBelow(q, l);
      MulAbove(q, l);
    } else {
      MulZero(q, l);
    }
  }

  lemma MulZero(q: real, l: real)
    requires q == 0.0
    ensures q * l == 0.0
  {
  }

  lemma MulPositive(a: real, b: real)
    requires 0.0 < a && 0.0 < b
    ensures 0.0 < a * b && (-a) * b < 0.0
  {
  }

  lemma MulBelow(q: real, l: real)
    requires 0.0 < l
    ensures q < 1.0 ==> q * l < l
  {
    if q < 1.0 {
      MulPositive(1.0 - q, l);
      assert (1.0 - q) * l == l - q * l;
    }
  }

  lemma MulAbove(q: real, l: real)
    requires 0.0 < l
    ensures 1.0 <= q ==> l <= q * l
  {
    if 1.0 < q {
      MulPositive(q - 1.0, l);
      assert (q - 1.0) * l == q * l - l;
    }
  }

  lemma MulMono(a: real, b: real, l: real)
    requires a <= b && 0.0 < l
    ensures a * l <= b * l
  {
    if a < b {
      MulStrict(a, b, l);
    }
  }

  lemma MulStrict(a: real, b: real, l: real)
    requires a < b && 0.0 < l
    ensures a * l < b * l
  {
    MulPositive(b - a, l);
    assert (b - a) * l == b * l - a * l;
  }

  datatype View = View(startMs: int, endMs: int, left: real, right: real,
                       rowTop: real, rowHeight: real, bandHeight: real) {
    function BaselineY(): real {
      rowTop + rowHeight - 2.0
    }

    function Band(): (b: real)
      ensures 2.0 <= b
    {
      Max(2.0, Min(bandHeight, rowHeight - 4.0))
    }

    function Y(ratio: real): real {
      BaselineY() - Band() * ratio
    }
  }

  /** Empty stands on the baseline, two pixels above the row's bottom, and heights are linear
      in the ratio. */
  lemma HeightIsLinear(v: View, r: real)
    ensures v.Y(0.0) == v.rowTop + v.rowHeight - 2.0
    ensures v.Y(r) == v.Y(0.0) + (v.Y(1.0) - v.Y(0.0)) * r
  {
  }

  /** Full stands a band above it, at least two pixels up. It is the height asked for if and
      only if that is at least two pixels and leaves four pixels of the row, or is just two. */
  lemma FullHeightIff(v: View)
    ensures v.Y(1.0) <= v.Y(0.0) - 2.0
    ensures v.Y(1.0) == v.Y(0.0) - v.bandHeight <==>
              v.bandHeight == 2.0 || 2.0 <= v.bandHeight <= v.rowHeight - 4.0
    ensures v.bandHeight < 2.0 || v.rowHeight < 6.0 ==> v.Y(1.0) == v.Y(0.0) - 2.0
    ensures 6.0 <= v.rowHeight < v.bandHeight + 4.0 && 2.0 <= v.bandHeight ==> v.Y(1.0) == v.rowTop + 2.0
  {
  }

  function Ratio(s: Sample): (r: real)
    ensures 0.0 <= r <= 1.0
    ensures r == 1.0 <==> 0 < s.limit <= s.tokens
    ensures 0 < s.limit && 0 <= s.tokens <= s.limit ==> r * (s.limit as real) == s.tokens as real
  {
    ContextRatio(s.tokens, s.limit)
  }

  /** Samples in time order on a time axis that does not run backwards. */
  ghost predicate InOrder(samples: seq<Sample>, px: int -> real) {
    && (forall i, j | 0 <= i < j < |samples| :: samples[i].tMs <= samples[j].tMs)
    && (forall i, j | 0 <= i < j < |samples| :: px(samples[i].tMs) <= px(samples[j].tMs))
  }

  lemma InOrderAt(samples: seq<Sample>, px: int -> real, i: nat, j: nat)
    requires InOrder(samples, px) && i < |samples| && j < |samples|
    ensures i <= j ==> px(samples[i].tMs) <= px(samples[j].tMs)
  {
  }

  /** The sample that carries over the left edge: the end of the first stretch of samples no
      later than the start of the view, or the first of all. */
  ghost predicate CarriesOver(samples: seq<Sample>, startMs: int, lo: nat) {
    && lo < |samples|
    && if startMs < samples[0].tMs then lo == 0
       else (forall i | 0 <= i <= lo :: samples[i].tMs <= startMs)
            && (lo + 1 < |samples| ==> startMs < samples[lo + 1].tMs)
  }

  /** In time order that is the last sample no later than the start of the view. */
  lemma CarryIsLatest(samples: seq<Sample>, px: int -> real, startMs: int, lo: nat)
    requires InOrder(samples, px) && CarriesOver(samples, startMs, lo)
    ensures lo == 0 || samples[lo].tMs <= startMs
    ensures forall i | lo < i < |samples| :: startMs < samples[i].tMs
  {
    forall i | lo < i < |samples| ensures startMs < samples[i].tMs {
      assert samples[0].tMs <= samples[i].tMs && (lo + 1 < i ==> samples[lo + 1].tMs <= samples[i].tMs);
    }
  }

  /** The samples of the view: those before the first one after its end, the carry-over included. */
  ghost predicate InView(samples: seq<Sample>, endMs: int, lo: nat, n: nat) {
    && lo < n <= |samples|
    && (forall i | lo < i < n :: samples[i].tMs <= endMs)
    && (n < |samples| ==> endMs < samples[n].tMs)
  }

  /** The sample in force at pixel `x`: the last of the view at or left of it, or the carry-over. */
  ghost function InForce(samples: seq<Sample>, px: int -> real, lo: nat, n: nat, x: real): (i: nat)
    requires lo < n <= |samples|
    ensures lo <= i < n
    ensures i == lo || px(samples[i].tMs) <= x
    ensures forall j | i < j < n :: x < px(samples[j].tMs)
  {
    if n == lo + 1 || px(samples[n - 1].tMs) <= x then n - 1 else InForce(samples, px, lo, n - 1, x)
  }

  /** The sample only sets the height at the left edge. */
  ghost predicate IsCarry(samples: seq<Sample>, px: int -> real, v: View, lo: nat, i: nat)
    requires i < |samples|
  {
    i == lo || px(samples[i].tMs) <= v.left
  }

  /** The polyline: it starts at the height of `drawn[0]`; each further sample of `drawn` ends
      the run before it at its own place and rises to its height, and a last run reaches the
      right edge unless the last rise is already there. The first rise leaves the height
      that was in force just before it. */
  ghost predicate Traces(top: seq<Point>, drawn: seq<nat>, samples: seq<Sample>, px: int -> real, v: View) {
    && 1 <= |drawn| && 2 * |drawn| - 1 <= |top| <= 2 * |drawn|
    && (forall m | 0 <= m < |drawn| :: drawn[m] < |samples| && top[2 * m].y == v.Y(Ratio(samples[drawn[m]])))
    && top[0].x == v.left
    && (|drawn| > 1 ==> 0 < drawn[1] && top[1].y == v.Y(Ratio(samples[drawn[1] - 1])))
    && (forall m | 1 <= m < |drawn| :: Rise(top, m, Min(v.right, px(samples[drawn[m]].tMs))))
    && (|top| == 2 * |drawn| ==> top[|top| - 1] == Point(v.right, top[|top| - 2].y))
  }

  ghost predicate Rise(top: seq<Point>, m: nat, x: real)
    requires 1 <= m && 2 * m < |top|
  {
    top[2 * m - 1].x == top[2 * m].x == x && (m > 1 ==> top[2 * m - 1].y == top[2 * m - 2].y)
  }

  /** Of the samples before `i`, the last carry and every sample inside the clip get a run; any
      other is a carry that a later one replaced. */
  ghost predicate Selects(drawn: seq<nat>, samples: seq<Sample>, px: int -> real, v: View, lo: nat, i: nat)
    requires i <= |samples|
  {
    && 1 <= |drawn|
    && (forall m | 0 <= m < |drawn| :: lo <= drawn[m] < i)
    && IsCarry(samples, px, v, lo, drawn[0])
    && (forall m | 1 <= m < |drawn| :: !IsCarry(samples, px, v, lo, drawn[m]))
    && (forall m, k | 1 <= m < k < |drawn| :: drawn[m] < drawn[k])
    && (forall j | lo <= j < i && j !in drawn :: IsCarry(samples, px, v, lo, j) && j < drawn[0])
  }

  /** The walk stops behind the first sample at or beyond the right edge, else at the end of
      the view. */
  ghost predicate Stops(drawn: seq<nat>, samples: seq<Sample>, px: int -> real, v: View, stop: nat, n: nat)
    requires forall m | 0 <= m < |drawn| :: drawn[m] < |samples|
  {
    && stop <= n
    && (forall m | 1 <= m < |drawn| ::
          px(samples[drawn[m]].tMs) < v.right || (m == |drawn| - 1 && drawn[m] == stop - 1))
    && (stop < n ==> |drawn| > 1 && drawn[|drawn| - 1] == stop - 1 && v.right <= px(samples[stop - 1].tMs))
  }

  ghost predicate Complete(top: seq<Point>, drawn: seq<nat>, v: View) {
    && |drawn| >= 1 && 2 * |drawn| - 2 < |top|
    && (|top| == 2 * |drawn| - 1 <==> top[2 * |drawn| - 2].x >= v.right)
  }

  ghost predicate Final(top: seq<Point>, drawn: seq<nat>, samples: seq<Sample>, px: int -> real, v: View, lo: nat,
                        stop: nat, n: nat)
  {
    && stop <= |samples| && Traces(top, drawn, samples, px, v) && Selects(drawn, samples, px, v, lo, stop)
    && Stops(drawn, samples, px, v, stop, n) && Complete(top, drawn, v)
  }

  /** `r` is the largest ratio of the samples looked at. */
  ghost predicate Peak(samples: seq<Sample>, lo: nat, stop: nat, r: real)
    requires stop <= |samples|
  {
    && (forall i | lo <= i < stop :: Ratio(samples[i]) <= r)
    && (exists i :: lo <= i < stop && r == Ratio(samples[i]))
  }

  method ComputeContextBandGeom(samples: seq<Sample>, px: int -> real, v: View)
    returns (geom: Option<Geom>, ghost drawn: seq<nat>, ghost lo: nat, ghost stop: nat, ghost n: nat)
    ensures geom.None? <==> samples == [] || v.right <= v.left
    ensures geom.Some? ==>
      && CarriesOver(samples, v.startMs, lo) && InView(samples, v.endMs, lo, n) && lo < stop
      && Final(geom.value.top, drawn, samples, px, v, lo, stop, n)
      && geom.value.baselineY == v.rowTop + v.rowHeight - 2.0
      && geom.value.lastRatio == Ratio(samples[stop - 1])
      && Peak(samples, lo, stop, geom.value.maxRatio)
  {
    hide Tracking, Final, ContextRatio, View.Y;
    drawn, lo, stop, n := [], 0, 0, 0;
    if |samples| == 0 {
      return None, drawn, lo, stop, n;
    }
    if v.right <= v.left {
      return None, drawn, lo, stop, n;
    }
    var startIdx := FindCarryOver(samples, v.startMs);
    lo := startIdx;
    ghost var reach := ViewEnd(samples, v.endMs, lo);
    n := reach;
    var pts := [Point(v.left, v.Y(Ratio(samples[startIdx])))];
    var maxRatio, lastRatio := Ratio(samples[startIdx]), Ratio(samples[startIdx]);
    drawn := [lo];
    TrackStart(samples, px, v, lo);
    var i := startIdx + 1;
    while i < |samples| && samples[i].tMs <= v.endMs
      invariant lo < i <= n && Tracking(pts, drawn, samples, px, v, lo, i)
      invariant lastRatio == Ratio(samples[i - 1])
      invariant Peak(samples, lo, i, maxRatio)
    {
      var r := Ratio(samples[i]);
      var rawX := px(samples[i].tMs);
      TrackHas(pts, drawn, samples, px, v, lo, i);
      PeakNext(samples, lo, i, maxRatio);
      if r > maxRatio {
        maxRatio := r;
      }
      lastRatio := r;
      if rawX <= v.left {
        TrackCarry(pts, drawn, samples, px, v, lo, i);
        pts := pts[0 := Point(pts[0].x, v.Y(r))];
        drawn := drawn[0 := i];
      } else {
        var x := Min(v.right, rawX);
        var prev := pts[|pts| - 1];
        if x >= v.right {
          TrackEdge(pts, drawn, samples, px, v, lo, i, n);
          return Some(Geom(pts + [Point(x, prev.y)] + [Point(x, v.Y(r))], v.BaselineY(), maxRatio, lastRatio)),
                 drawn + [i], lo, i + 1, n;
        }
        TrackDraw(pts, drawn, samples, px, v, lo, i);
        pts := pts + [Point(x, prev.y)] + [Point(x, v.Y(r))];
        drawn := drawn + [i];
      }
      i := i + 1;
    }
    assert i == n;
    stop := n;
    TrackHas(pts, drawn, samples, px, v, lo, i);
    TrackFinish(pts, drawn, samples, px, v, lo, n);
    pts := pts + [Point(v.right, pts[|pts| - 1].y)];
    return Some(Geom(pts, v.BaselineY(), maxRatio, lastRatio)), drawn, lo, stop, n;
  }

  lemma PeakNext(samples: seq<Sample>, lo: nat, i: nat, r: real)
    requires lo < i < |samples| && Peak(samples, lo, i, r)
    ensures Peak(samples, lo, i + 1, if Ratio(samples[i]) > r then Ratio(samples[i]) else r)
  {
    hide Ratio;
    var k :| lo <= k < i && r == Ratio(samples[k]);
  }

  /** The state of the walk after the samples before `i`. */
  ghost predicate Tracking(pts: seq<Point>, drawn: seq<nat>, samples: seq<Sample>, px: int -> real, v: View, lo: nat,
                           i: nat) {
    && lo < i <= |samples| && Traces(pts, drawn, samples, px, v) && Selects(drawn, samples, px, v, lo, i)
    && |pts| == 2 * |drawn| - 1 && v.left < v.right
    && (forall m | 1 <= m < |drawn| :: px(samples[drawn[m]].tMs) < v.right)
  }

  lemma TrackHas(pts: seq<Point>, drawn: seq<nat>, samples: seq<Sample>, px: int -> real, v: View, lo: nat, i: nat)
    requires Tracking(pts, drawn, samples, px, v, lo, i)
    ensures pts != [] && drawn != []
  {
  }

  lemma TrackStart(samples: seq<Sample>, px: int -> real, v: View, lo: nat)
    requires lo < |samples| && v.left < v.right
    ensures Tracking([Point(v.left, v.Y(Ratio(samples[lo])))], [lo], samples, px, v, lo, lo + 1)
  {
    hide View.Y, Ratio;
  }

  /** A sample at or left of the clip moves the start of the edge. */
  lemma TrackCarry(pts: seq<Point>, drawn: seq<nat>, samples: seq<Sample>, px: int -> real, v: View, lo: nat, i: nat)
    requires Tracking(pts, drawn, samples, px, v, lo, i) && lo < i < |samples|
    requires px(samples[i].tMs) <= v.left
    ensures pts != [] && drawn != []
    ensures Tracking(pts[0 := Point(pts[0].x, v.Y(Ratio(samples[i])))], drawn[0 := i], samples, px, v, lo, i + 1)
  {
    hide View.Y, Ratio;
    var more, d := pts[0 := Point(pts[0].x, v.Y(Ratio(samples[i])))], drawn[0 := i];
    forall m | 1 <= m < |d| ensures Rise(more, m, Min(v.right, px(samples[d[m]].tMs))) {
      assert Rise(pts, m, Min(v.right, px(samples[drawn[m]].tMs)));
    }
    SelectCarry(drawn, samples, px, v, lo, i);
  }

  lemma SelectCarry(drawn: seq<nat>, samples: seq<Sample>, px: int -> real, v: View, lo: nat, i: nat)
    requires lo < i < |samples| && Selects(drawn, samples, px, v, lo, i) && IsCarry(samples, px, v, lo, i)
    ensures Selects(drawn[0 := i], samples, px, v, lo, i + 1)
  {
    var d := drawn[0 := i];
    forall j | lo <= j < i + 1 && j !in d ensures IsCarry(samples, px, v, lo, j) && j < d[0] {
      assert d[0] == i;
      assert forall m | 1 <= m < |drawn| :: d[m] == drawn[m];
      assert j in drawn ==> j == drawn[0];
    }
  }

  lemma TrackDraw(pts: seq<Point>, drawn: seq<nat>, samples: seq<Sample>, px: int -> real, v: View, lo: nat, i: nat)
    requires Tracking(pts, drawn, samples, px, v, lo, i) && lo < i < |samples|
    requires v.left < px(samples[i].tMs) < v.right
    ensures var x := px(samples[i].tMs);
      && pts != []
      && Tracking(pts + [Point(x, pts[|pts| - 1].y)] + [Point(x, v.Y(Ratio(samples[i])))], drawn + [i],
                  samples, px, v, lo, i + 1)
  {
    hide View.Y, Ratio, Traces, Selects;
    TraceSizes(pts, drawn, samples, px, v);
    RunAndRise(pts, drawn, samples, px, v, lo, i);
    SelectNext(drawn, samples, px, v, lo, i);
  }

  /** A sample at or beyond the right edge ends the walk. */
  lemma TrackEdge(pts: seq<Point>, drawn: seq<nat>, samples: seq<Sample>, px: int -> real, v: View, lo: nat, i: nat,
                  n: nat)
    requires Tracking(pts, drawn, samples, px, v, lo, i) && lo < i < n <= |samples|
    requires v.right <= px(samples[i].tMs)
    ensures pts != []
    ensures Final(pts + [Point(v.right, pts[|pts| - 1].y)] + [Point(v.right, v.Y(Ratio(samples[i])))], drawn + [i],
                  samples, px, v, lo, i + 1, n)
  {
    hide View.Y, Ratio, Traces, Selects;
    TraceSizes(pts, drawn, samples, px, v);
    RunAndRise(pts, drawn, samples, px, v, lo, i);
    SelectNext(drawn, samples, px, v, lo, i);
  }

  lemma TrackFinish(pts: seq<Point>, drawn: seq<nat>, samples: seq<Sample>, px: int -> real, v: View, lo: nat, n: nat)
    requires Tracking(pts, drawn, samples, px, v, lo, n)
    ensures pts != [] && Final(pts + [Point(v.right, pts[|pts| - 1].y)], drawn, samples, px, v, lo, n, n)
  {
    hide View.Y, Ratio, Selects;
    var more := pts + [Point(v.right, pts[|pts| - 1].y)];
    forall m | 1 <= m < |drawn| ensures Rise(more, m, Min(v.right, px(samples[drawn[m]].tMs))) {
      assert Rise(pts, m, Min(v.right, px(samples[drawn[m]].tMs)));
    }
    assert |drawn| > 1 ==> Rise(pts, |drawn| - 1, Min(v.right, px(samples[drawn[|drawn| - 1]].tMs)));
  }

  lemma TraceSizes(pts: seq<Point>, drawn: seq<nat>, samples: seq<Sample>, px: int -> real, v: View)
    requires Traces(pts, drawn, samples, px, v)
    ensures 1 <= |drawn| && 2 * |drawn| - 1 <= |pts| <= 2 * |drawn|
    ensures forall m | 0 <= m < |drawn| :: drawn[m] < |samples|
  {
  }

  method FindCarryOver(samples: seq<Sample>, startMs: int) returns (startIdx: nat)
    requires samples != []
    ensures CarriesOver(samples, startMs, startIdx)
  {
    var found := -1;
    var i := 0;
    while i < |samples| && samples[i].tMs <= startMs
      invariant 0 <= i <= |samples| && found == i - 1
      invariant forall k | 0 <= k < i :: samples[k].tMs <= startMs
    {
      found := i;
      i := i + 1;
    }
    return if found < 0 then 0 else found;
  }

  ghost function ViewEnd(samples: seq<Sample>, endMs: int, lo: nat): (n: nat)
    requires lo < |samples|
    ensures InView(samples, endMs, lo, n)
    decreases |samples| - lo
  {
    FirstBeyond(samples, endMs, lo + 1)
  }

  ghost function FirstBeyond(samples: seq<Sample>, endMs: int, i: nat): (n: nat)
    requires i <= |samples|
    ensures i <= n <= |samples| && (forall j | i <= j < n :: samples[j].tMs <= endMs)
    ensures n < |samples| ==> endMs < samples[n].tMs
    decreases |samples| - i
  {
    if i == |samples| || endMs < samples[i].tMs then i else FirstBeyond(samples, endMs, i + 1)
  }

  lemma RunAndRise(pts: seq<Point>, drawn: seq<nat>, samples: seq<Sample>, px: int -> real, v: View, lo: nat, i: nat)
    requires Traces(pts, drawn, samples, px, v) && |pts| == 2 * |drawn| - 1 && lo < i < |samples|
    requires Selects(drawn, samples, px, v, lo, i)
    ensures var x := Min(v.right, px(samples[i].tMs));
      Traces(pts + [Point(x, pts[|pts| - 1].y)] + [Point(x, v.Y(Ratio(samples[i])))], drawn + [i], samples, px, v)
  {
    hide View.Y, Ratio, Selects;
    var x := Min(v.right, px(samples[i].tMs));
    var more, d := pts + [Point(x, pts[|pts| - 1].y)] + [Point(x, v.Y(Ratio(samples[i])))], drawn + [i];
    LoneCarry(drawn, samples, px, v, lo, i);
    forall m | 1 <= m < |d| ensures Rise(more, m, Min(v.right, px(samples[d[m]].tMs))) {
      assert m < |drawn| ==> Rise(pts, m, Min(v.right, px(samples[drawn[m]].tMs)));
    }
  }

  /** Before the first sample inside the clip, the carry is the sample just before. */
  lemma LoneCarry(drawn: seq<nat>, samples: seq<Sample>, px: int -> real, v: View, lo: nat, i: nat)
    requires lo < i <= |samples| && Selects(drawn, samples, px, v, lo, i)
    ensures |drawn| == 1 ==> drawn[0] == i - 1
  {
    assert i - 1 in drawn;
  }

  lemma SelectNext(drawn: seq<nat>, samples: seq<Sample>, px: int -> real, v: View, lo: nat, i: nat)
    requires lo < i < |samples| && Selects(drawn, samples, px, v, lo, i)
    requires v.left < px(samples[i].tMs)
    ensures Selects(drawn + [i], samples, px, v, lo, i + 1)
  {
    var d := drawn + [i];
    assert d[|drawn|] == i;
    assert forall j | j in drawn :: j in d;
  }

  // ---- What the polyline draws ------------------------------------------------------

  /** In order, the last carry comes right before the first sample inside the clip. */
  lemma CarryBeforeInside(drawn: seq<nat>, samples: seq<Sample>, px: int -> real, v: View, lo: nat, stop: nat)
    requires InOrder(samples, px) && stop <= |samples| && Selects(drawn, samples, px, v, lo, stop)
    ensures |drawn| > 1 ==> drawn[0] == drawn[1] - 1
    ensures forall m, k | 0 <= m < k < |drawn| :: drawn[m] < drawn[k]
  {
    if |drawn| > 1 {
      var c, d := drawn[0], drawn[1];
      assert !IsCarry(samples, px, v, lo, d);
      InOrderAt(samples, px, d, c);
      assert forall m | 2 <= m < |drawn| :: d < drawn[m];
      assert d - 1 in drawn ==> d - 1 == c;
    }
  }

  /** The run of the sample in force covers the pixel. */
  lemma InForceIsDrawn(drawn: seq<nat>, samples: seq<Sample>, px: int -> real, v: View, lo: nat, stop: nat, n: nat,
                       x: real)
    returns (m: nat)
    requires InOrder(samples, px) && lo < stop <= n <= |samples| && Selects(drawn, samples, px, v, lo, stop)
    requires Stops(drawn, samples, px, v, stop, n)
    requires v.left <= x < v.right
    ensures m < |drawn| && drawn[m] == InForce(samples, px, lo, n, x)
  {
    var j := InForce(samples, px, lo, n, x);
    InOrderAt(samples, px, stop - 1, j);
    assert j < stop;
    assert IsCarry(samples, px, v, lo, drawn[0]);
    assert j in drawn;
    m :| m < |drawn| && drawn[m] == j;
  }

  /** The edge is the step function of the samples: at every pixel of the clip there is a run
      at the height of the sample in force there. */
  lemma BandIsStepFunction(top: seq<Point>, drawn: seq<nat>, samples: seq<Sample>, px: int -> real, v: View,
                           lo: nat, stop: nat, n: nat, x: real)
    requires InOrder(samples, px) && lo < stop && n <= |samples| && Final(top, drawn, samples, px, v, lo, stop, n)
    requires v.left <= x < v.right
    ensures exists m: nat :: RunAt(top, m, x, v.Y(Ratio(samples[InForce(samples, px, lo, n, x)])))
  {
    hide View.Y, Ratio, Traces, Complete;
    var m := InForceIsDrawn(drawn, samples, px, v, lo, stop, n, x);
    CarryBeforeInside(drawn, samples, px, v, lo, stop);
    RunCovers(top, drawn, samples, px, v, m, x);
  }

  lemma RunCovers(top: seq<Point>, drawn: seq<nat>, samples: seq<Sample>, px: int -> real, v: View, m: nat, x: real)
    requires Traces(top, drawn, samples, px, v) && Complete(top, drawn, v)
    requires m < |drawn| && (|drawn| > 1 ==> drawn[0] == drawn[1] - 1)
    requires v.left <= x < v.right && (m >= 1 ==> px(samples[drawn[m]].tMs) <= x)
    requires m + 1 < |drawn| ==> x < px(samples[drawn[m + 1]].tMs)
    ensures RunAt(top, m, x, v.Y(Ratio(samples[drawn[m]])))
  {
    hide View.Y, Ratio;
    assert m >= 1 ==> Rise(top, m, Min(v.right, px(samples[drawn[m]].tMs)));
    assert m + 1 < |drawn| ==> Rise(top, m + 1, Min(v.right, px(samples[drawn[m + 1]].tMs)));
  }

  ghost predicate RunAt(top: seq<Point>, m: nat, x: real, y: real) {
    2 * m + 1 < |top| && top[2 * m].x <= x < top[2 * m + 1].x && top[2 * m].y == top[2 * m + 1].y == y
  }

  /** The edge runs from clip to clip inside the band, and in order it never turns back. */
  lemma EdgeStaysInBand(top: seq<Point>, drawn: seq<nat>, samples: seq<Sample>, px: int -> real, v: View, lo: nat,
                        stop: nat, n: nat)
    requires v.left < v.right && Final(top, drawn, samples, px, v, lo, stop, n)
    ensures top != [] && top[0].x == v.left && top[|top| - 1].x == v.right
    ensures forall k | 0 <= k < |top| :: v.left <= top[k].x <= v.right
    ensures forall k | 0 <= k < |top| :: v.BaselineY() - v.Band() <= top[k].y <= v.BaselineY()
    ensures InOrder(samples, px) ==> forall k | 0 <= k < |top| - 1 :: top[k].x <= top[k + 1].x
  {
    hide View.Y, View.Band, View.BaselineY, Ratio, Final, XAt, InOrder;
    TopSize(top, drawn, samples, px, v, lo, stop, n);
    forall k | 0 <= k < |top|
      ensures v.BaselineY() - v.Band() <= top[k].y <= v.BaselineY() && v.left <= top[k].x <= v.right
    {
      PointAt(top, drawn, samples, px, v, lo, stop, n, k);
      XInClip(top, drawn, samples, px, v, lo, stop, n, k);
    }
    if InOrder(samples, px) {
      forall k | 0 <= k < |top| - 1 ensures top[k].x <= top[k + 1].x {
        PointAt(top, drawn, samples, px, v, lo, stop, n, k);
        PointAt(top, drawn, samples, px, v, lo, stop, n, k + 1);
        NextX(top, drawn, samples, px, v, lo, stop, n, k);
      }
    }
    PointAt(top, drawn, samples, px, v, lo, stop, n, |top| - 1);
    LastX(top, drawn, samples, px, v, lo, stop, n);
  }

  lemma TopSize(top: seq<Point>, drawn: seq<nat>, samples: seq<Sample>, px: int -> real, v: View, lo: nat, stop: nat,
                n: nat)
    requires Final(top, drawn, samples, px, v, lo, stop, n)
    ensures 1 <= |drawn| && 2 * |drawn| - 1 <= |top| <= 2 * |drawn| && top[0].x == v.left
    ensures forall m | 0 <= m < |drawn| :: drawn[m] < |samples|
  {
  }

  lemma PointAt(top: seq<Point>, drawn: seq<nat>, samples: seq<Sample>, px: int -> real, v: View, lo: nat, stop: nat,
                n: nat, k: nat)
    requires Final(top, drawn, samples, px, v, lo, stop, n) && k < |top|
    ensures forall m | 0 <= m < |drawn| :: drawn[m] < |samples|
    ensures XAt(top, drawn, samples, px, v, k) && v.BaselineY() - v.Band() <= top[k].y <= v.BaselineY()
  {
    hide View.Y, View.Band, View.BaselineY, Ratio, Selects, Complete, Stops;
    var i := HeightOf(top, drawn, samples, px, v, k);
    HeightInBand(v, samples[i]);
    var m := (k + 1) / 2;
    assert 1 <= m < |drawn| ==> Rise(top, m, Min(v.right, px(samples[drawn[m]].tMs)));
  }

  /** The sample whose height point `k` has: a drawn one, or the one in force before the first
      rise. */
  lemma HeightOf(top: seq<Point>, drawn: seq<nat>, samples: seq<Sample>, px: int -> real, v: View, k: nat)
    returns (i: nat)
    requires Traces(top, drawn, samples, px, v) && k < |top|
    ensures i < |samples| && top[k].y == v.Y(Ratio(samples[i])) && Shown(drawn, i)
  {
    hide View.Y, Ratio;
    var m := k / 2;
    if k == 2 * m || m + 1 == |drawn| {
      i := drawn[m];
    } else if m == 0 {
      i := drawn[1] - 1;
    } else {
      assert Rise(top, m + 1, Min(v.right, px(samples[drawn[m + 1]].tMs)));
      i := drawn[m];
    }
  }

  lemma NextX(top: seq<Point>, drawn: seq<nat>, samples: seq<Sample>, px: int -> real, v: View, lo: nat, stop: nat,
              n: nat, k: nat)
    requires InOrder(samples, px) && v.left < v.right && Final(top, drawn, samples, px, v, lo, stop, n)
    requires k + 1 < |top| && (forall m | 0 <= m < |drawn| :: drawn[m] < |samples|)
    requires XAt(top, drawn, samples, px, v, k) && XAt(top, drawn, samples, px, v, k + 1)
    ensures top[k].x <= top[k + 1].x
  {
    hide View.Y, Ratio, Traces, Complete, Stops;
    var m := (k + 1) / 2;
    CarryBeforeInside(drawn, samples, px, v, lo, stop);
    assert m + 1 < |drawn| ==> drawn[m] < drawn[m + 1];
    assert 1 < |drawn| ==> v.left < px(samples[drawn[1]].tMs);
  }

  lemma XInClip(top: seq<Point>, drawn: seq<nat>, samples: seq<Sample>, px: int -> real, v: View, lo: nat, stop: nat,
                n: nat, k: nat)
    requires v.left < v.right && Final(top, drawn, samples, px, v, lo, stop, n) && k < |top|
    requires (forall m | 0 <= m < |drawn| :: drawn[m] < |samples|) && XAt(top, drawn, samples, px, v, k)
    ensures v.left <= top[k].x <= v.right
  {
    hide View.Y, Ratio, Traces, Complete, Stops;
    var m := (k + 1) / 2;
    assert 1 <= m < |drawn| ==> !IsCarry(samples, px, v, lo, drawn[m]);
  }

  lemma LastX(top: seq<Point>, drawn: seq<nat>, samples: seq<Sample>, px: int -> real, v: View, lo: nat, stop: nat,
              n: nat)
    requires v.left < v.right && Final(top, drawn, samples, px, v, lo, stop, n) && top != []
    requires (forall m | 0 <= m < |drawn| :: drawn[m] < |samples|) && XAt(top, drawn, samples, px, v, |top| - 1)
    ensures top[|top| - 1].x == v.right
  {
    hide View.Y, Ratio, Selects, Stops;
  }

  /** Where point `k` stands: at the left clip, at its sample, or at the right clip. */
  ghost predicate XAt(top: seq<Point>, drawn: seq<nat>, samples: seq<Sample>, px: int -> real, v: View, k: nat)
    requires k < |top| && (forall m | 0 <= m < |drawn| :: drawn[m] < |samples|)
  {
    var m := (k + 1) / 2;
    if m == 0 then top[k].x == v.left
    else if m < |drawn| then top[k].x == Min(v.right, px(samples[drawn[m]].tMs))
    else top[k].x == v.right
  }

  lemma HeightInBand(v: View, s: Sample)
    ensures v.BaselineY() - v.Band() <= v.Y(Ratio(s)) <= v.BaselineY()
  {
    hide View.Band, View.BaselineY, Ratio, ContextRatio;
    BandScales(v.Band(), Ratio(s));
  }

  lemma BandScales(b: real, r: real)
    requires 0.0 <= b && 0.0 <= r <= 1.0
    ensures 0.0 <= b * r <= b
  {
    if b > 0.0 {
      MulMono(0.0, r, b);
      MulMono(r, 1.0, b);
    }
  }

  /** Two points per drawn sample, except that a last sample at or beyond the right edge
      leaves no room for its run. */
  lemma PointCount(top: seq<Point>, drawn: seq<nat>, samples: seq<Sample>, px: int -> real, v: View, lo: nat, stop: nat,
                   n: nat)
    requires v.left < v.right && Final(top, drawn, samples, px, v, lo, stop, n)
    ensures |top| == 2 * |drawn| <==> |drawn| == 1 || px(samples[drawn[|drawn| - 1]].tMs) < v.right
    ensures |top| == 2 * |drawn| || |top| == 2 * |drawn| - 1
  {
    hide View.Y, Ratio;
    var m := |drawn| - 1;
    assert m >= 1 ==> Rise(top, m, Min(v.right, px(samples[drawn[m]].tMs)));
  }

  /** Two samples, the second at the right edge: three points. */
  method OddNumberOfPoints() returns (geom: Option<Geom>)
    ensures geom.Some? && |geom.value.top| == 3
  {
    var samples := [Sample(0, 1, 10), Sample(10, 2, 10)];
    var px := (t: int) => t as real;
    var v := View(0, 10, 0.0, 10.0, 0.0, 40.0, 10.0);
    ghost var drawn, lo, stop, n;
    geom, drawn, lo, stop, n := ComputeContextBandGeom(samples, px, v);
    assert samples[1].tMs == 10 && lo == 0 && n == 2;
    TwoDrawn(geom.value.top, drawn, samples, px, v, stop);
  }

  lemma TwoDrawn(top: seq<Point>, drawn: seq<nat>, samples: seq<Sample>, px: int -> real, v: View, stop: nat)
    requires |samples| == 2 && v.left < v.right <= px(samples[1].tMs) && 0 < stop
    requires Final(top, drawn, samples, px, v, 0, stop, 2)
    ensures |top| == 3
  {
    hide View.Y, Ratio, Traces, Complete;
    LoneCarry(drawn, samples, px, v, 0, stop);
    assert stop == 2;
    assert 1 in drawn;
    TwoOfTwo(drawn);
    PointCount(top, drawn, samples, px, v, 0, stop, 2);
  }

  lemma TwoOfTwo(drawn: seq<nat>)
    requires drawn != [] && 1 in drawn && drawn[0] != 1
    requires forall m | 0 <= m < |drawn| :: drawn[m] < 2
    requires forall m | 1 <= m < |drawn| :: drawn[m] != 0
    requires forall m, k | 1 <= m < k < |drawn| :: drawn[m] < drawn[k]
    ensures |drawn| == 2 && drawn[1] == 1
  {
    Rising(drawn, 1, 2);
  }

  lemma Rising(drawn: seq<nat>, m: nat, k: nat)
    requires forall m, k | 1 <= m < k < |drawn| :: drawn[m] < drawn[k]
    ensures 1 <= m < k < |drawn| ==> drawn[m] < drawn[k]
  {
  }

  // ---- The reported peak ------------------------------------------------------------

  /** Some point of the edge stands at the height of sample `i`. */
  ghost predicate Shown(drawn: seq<nat>, i: int) {
    i in drawn || (|drawn| > 1 && i + 1 == drawn[1])
  }

  /** A sample at or left of the clip that a later such sample replaced, with a ratio above
      that of every sample shown. */
  ghost predicate HidesPeak(drawn: seq<nat>, samples: seq<Sample>, px: int -> real, v: View, lo: nat, i: nat)
    requires drawn != [] && i < |samples|
  {
    && lo <= i < drawn[0] && IsCarry(samples, px, v, lo, i)
    && forall d | Shown(drawn, d) && 0 <= d < |samples| :: Ratio(samples[d]) < Ratio(samples[i])
  }

  /** The edge reaches the height of the reported peak exactly when no replaced sample left of
      the clip exceeds everything shown. */
  lemma PeakIsDrawnIff(top: seq<Point>, drawn: seq<nat>, samples: seq<Sample>, px: int -> real, v: View, lo: nat,
                       stop: nat, n: nat, peak: real)
    requires lo < stop && Final(top, drawn, samples, px, v, lo, stop, n) && Peak(samples, lo, stop, peak)
    ensures (exists k :: 0 <= k < |top| && top[k].y == v.Y(peak))
       <==> forall i | 0 <= i < |samples| :: !HidesPeak(drawn, samples, px, v, lo, i)
  {
    hide View.Y, Ratio, Stops, Complete;
    if k :| 0 <= k < |top| && top[k].y == v.Y(peak) {
      var d := HeightOf(top, drawn, samples, px, v, k);
      SameHeight(v, peak, Ratio(samples[d]));
      assert forall i | 0 <= i < |samples| && HidesPeak(drawn, samples, px, v, lo, i) :: i < stop;
    }
    if forall i | 0 <= i < |samples| :: !HidesPeak(drawn, samples, px, v, lo, i) {
      var i :| lo <= i < stop && peak == Ratio(samples[i]);
      var d := PeakShown(drawn, samples, px, v, lo, stop, i);
      var k := ShownAt(top, drawn, samples, px, v, d);
    }
  }

  /** Where the walk stops: behind the first sample at or beyond the right edge, else at the end
      of the view. */
  ghost function WalkEnd(samples: seq<Sample>, px: int -> real, v: View, i: nat, n: nat): (e: nat)
    requires i <= n <= |samples|
    ensures i <= e <= n
    decreases n - i
  {
    if i == n then n else if v.right <= px(samples[i].tMs) then i + 1 else WalkEnd(samples, px, v, i + 1, n)
  }

  lemma {:induction false} WalkEndIs(samples: seq<Sample>, px: int -> real, v: View, i: nat, stop: nat, n: nat)
    requires i <= stop <= n <= |samples|
    requires forall j | i <= j < stop - 1 :: px(samples[j].tMs) < v.right
    requires if stop < n then i < stop && v.right <= px(samples[stop - 1].tMs) else true
    ensures WalkEnd(samples, px, v, i, n) == stop
    decreases n - i
  {
    if i < stop && !(v.right <= px(samples[i].tMs)) {
      WalkEndIs(samples, px, v, i + 1, stop, n);
    }
  }

  lemma StopIsWalkEnd(drawn: seq<nat>, samples: seq<Sample>, px: int -> real, v: View, lo: nat, stop: nat, n: nat)
    requires v.left < v.right && lo < stop <= n <= |samples|
    requires Selects(drawn, samples, px, v, lo, stop) && Stops(drawn, samples, px, v, stop, n)
    ensures stop == WalkEnd(samples, px, v, lo + 1, n)
  {
    forall j | lo + 1 <= j < stop - 1 ensures px(samples[j].tMs) < v.right {
      assert j !in drawn ==> IsCarry(samples, px, v, lo, j);
      assert drawn[0] == j ==> IsCarry(samples, px, v, lo, j);
    }
    WalkEndIs(samples, px, v, lo + 1, stop, n);
  }

  /** Some sample from `c` up to `stop` has at least the ratio of sample `i`. */
  ghost predicate Matched(samples: seq<Sample>, c: nat, stop: nat, i: nat)
    requires c <= stop <= |samples| && i < |samples|
  {
    exists d :: c <= d < stop && Ratio(samples[i]) <= Ratio(samples[d])
  }

  /** In time order the condition is one on the samples: with `c` the sample in force at the left
      clip, the edge reaches the reported peak exactly when no sample before `c` has a ratio
      above all samples from `c` to the end of the walk. */
  lemma PeakIsDrawnInOrder(top: seq<Point>, drawn: seq<nat>, samples: seq<Sample>, px: int -> real, v: View, lo: nat,
                           stop: nat, n: nat, peak: real)
    requires InOrder(samples, px) && v.left < v.right && lo < stop && n <= |samples|
    requires Final(top, drawn, samples, px, v, lo, stop, n) && Peak(samples, lo, stop, peak)
    ensures lo < n && stop == WalkEnd(samples, px, v, lo + 1, n)
    ensures var c := InForce(samples, px, lo, n, v.left);
      && c < stop
      && ((exists k :: 0 <= k < |top| && top[k].y == v.Y(peak))
          <==> forall i | lo <= i < c :: Matched(samples, c, stop, i))
  {
    hide View.Y, Ratio, Traces, Complete, InForce, Peak;
    StopIsWalkEnd(drawn, samples, px, v, lo, stop, n);
    PeakIsDrawnIff(top, drawn, samples, px, v, lo, stop, n, peak);
    var c := drawn[0];
    CarryInForce(drawn, samples, px, v, lo, stop, n);
    ShownFromCarry(drawn, samples, px, v, lo, stop);
    forall i | 0 <= i < |samples|
      ensures HidesPeak(drawn, samples, px, v, lo, i) <==> lo <= i < c && !Matched(samples, c, stop, i)
    {
      InOrderAt(samples, px, i, c);
      assert forall d | c <= d < stop :: Shown(drawn, d);
    }
  }

  lemma CarryInForce(drawn: seq<nat>, samples: seq<Sample>, px: int -> real, v: View, lo: nat, stop: nat, n: nat)
    requires InOrder(samples, px) && v.left < v.right && lo < stop <= n <= |samples|
    requires Selects(drawn, samples, px, v, lo, stop) && Stops(drawn, samples, px, v, stop, n)
    ensures drawn[0] == InForce(samples, px, lo, n, v.left)
  {
    var m := InForceIsDrawn(drawn, samples, px, v, lo, stop, n, v.left);
    InsideIsNoCarry(drawn, samples, px, v, lo, stop, m);
  }

  lemma InsideIsNoCarry(drawn: seq<nat>, samples: seq<Sample>, px: int -> real, v: View, lo: nat, stop: nat, m: nat)
    requires stop <= |samples| && Selects(drawn, samples, px, v, lo, stop)
    ensures 1 <= m < |drawn| ==> drawn[m] < |samples| && !IsCarry(samples, px, v, lo, drawn[m])
  {
  }

  lemma ShownFromCarry(drawn: seq<nat>, samples: seq<Sample>, px: int -> real, v: View, lo: nat, stop: nat)
    requires InOrder(samples, px) && stop <= |samples| && Selects(drawn, samples, px, v, lo, stop)
    ensures drawn[0] < stop && forall d :: Shown(drawn, d) <==> drawn[0] <= d < stop
  {
    CarryBeforeInside(drawn, samples, px, v, lo, stop);
    forall d ensures Shown(drawn, d) <==> drawn[0] <= d < stop {
      if d in drawn {
        var m :| 0 <= m < |drawn| && drawn[m] == d;
        assert m > 0 ==> drawn[0] < drawn[m];
      }
    }
  }

  lemma PeakShown(drawn: seq<nat>, samples: seq<Sample>, px: int -> real, v: View, lo: nat, stop: nat, i: nat)
    returns (d: nat)
    requires lo <= i < stop <= |samples| && Selects(drawn, samples, px, v, lo, stop)
    requires Peak(samples, lo, stop, Ratio(samples[i]))
    requires !HidesPeak(drawn, samples, px, v, lo, i)
    ensures d < |samples| && Shown(drawn, d) && Ratio(samples[d]) == Ratio(samples[i])
  {
    hide Ratio;
    if i in drawn {
      d := i;
    } else {
      d :| Shown(drawn, d) && d < |samples| && !(Ratio(samples[d]) < Ratio(samples[i]));
      assert |drawn| > 1 ==> lo < drawn[1];
      assert lo <= d < stop;
    }
  }

  lemma ShownAt(top: seq<Point>, drawn: seq<nat>, samples: seq<Sample>, px: int -> real, v: View, d: nat)
    returns (k: nat)
    requires Traces(top, drawn, samples, px, v) && Shown(drawn, d) && d < |samples|
    ensures k < |top| && top[k].y == v.Y(Ratio(samples[d]))
  {
    hide View.Y, Ratio;
    if d in drawn {
      var m :| 0 <= m < |drawn| && drawn[m] == d;
      k := 2 * m;
    } else {
      k := 1;
    }
  }

  lemma SameHeight(v: View, a: real, b: real)
    ensures v.Y(a) == v.Y(b) <==> a == b
  {
    hide View.Band, View.BaselineY;
    if a < b {
      MulStrict(a, b, v.Band());
    } else if b < a {
      MulStrict(b, a, v.Band());
    }
  }

  /** A full window left of the clip, then an empty one also left of it: the peak is one, the
      edge lies on the baseline. */
  method PeakNeedNotBeDrawn() returns (geom: Option<Geom>)
    ensures geom.Some? && geom.value.maxRatio == 1.0
    ensures forall p | p in geom.value.top :: p.y == geom.value.baselineY
  {
    var samples := [Sample(0, 10, 10), Sample(1, 0, 10)];
    var px := (t: int) => t as real;
    var v := View(0, 10, 5.0, 10.0, 0.0, 40.0, 10.0);
    ghost var drawn, lo, stop, n;
    geom, drawn, lo, stop, n := ComputeContextBandGeom(samples, px, v);
    assert samples[1].tMs > v.startMs && lo == 0 && n == 2;
    assert Ratio(samples[0]) == 1.0 && Ratio(samples[1]) == 0.0;
    BothCarry(geom.value.top, drawn, samples, px, v, stop);
  }

  lemma BothCarry(top: seq<Point>, drawn: seq<nat>, samples: seq<Sample>, px: int -> real, v: View, stop: nat)
    requires |samples| == 2 && px(samples[1].tMs) <= v.left < v.right && 0 < stop
    requires Final(top, drawn, samples, px, v, 0, stop, 2) && Ratio(samples[1]) == 0.0
    ensures stop == 2 && forall p | p in top :: p.y == v.BaselineY()
  {
    hide Ratio, View.BaselineY, View.Band;
    AllCarry(drawn, samples, px, v, stop);
    LoneCarry(drawn, samples, px, v, 0, stop);
    PointCount(top, drawn, samples, px, v, 0, stop, 2);
    assert v.Y(0.0) == v.BaselineY();
  }

  lemma AllCarry(drawn: seq<nat>, samples: seq<Sample>, px: int -> real, v: View, stop: nat)
    requires stop <= |samples| && Selects(drawn, samples, px, v, 0, stop)
    requires forall i | 0 <= i < stop :: IsCarry(samples, px, v, 0, i)
    ensures |drawn| == 1
  {
    SecondIsInside(drawn, samples, px, v, stop);
  }

  lemma SecondIsInside(drawn: seq<nat>, samples: seq<Sample>, px: int -> real, v: View, stop: nat)
    requires stop <= |samples| && Selects(drawn, samples, px, v, 0, stop)
    ensures |drawn| > 1 ==> drawn[1] < stop && !IsCarry(samples, px, v, 0, drawn[1])
  {
  }
}
