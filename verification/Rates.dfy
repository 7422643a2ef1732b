/**
 Rates and averages over windows of samples (pkg/daemon/server/rater/helper.go), over real numbers.
 */
module Rates {
  import opened Prelude
  import opened Sums
  import opened Samples

  /** The synthetic transport that stands for the sum of all. */
  const TOTAL := "__total__"

  /** Which per-transport map of a sample is read. */
  datatype Series = Requests | StreamMessages | Inflight

  function Of(s: PodSample, series: Series): map<string, real> {
    match series
    case Requests => s.requests
    case StreamMessages => s.streamMessages
    case Inflight => s.inflight
  }

  /** A Go map lookup: absent keys read as zero. */
  function At(m: map<string, real>, transport: string): real {
    if transport in m then m[transport] else 0.0
  }

  ghost function ValueOf(s: PodSample, series: Series, transport: string): real {
    var m := Of(s, series);
    if transport == TOTAL then Sum(m.Keys, k => At(m, k)) else At(m, transport)
  }

  /** Which map of a sample a series reads, entry by entry. */
  lemma SeriesReads(s: PodSample, t: string)
    requires t != "__total__"
    ensures ValueOf(s, Requests, t) == if t in s.requests then s.requests[t] else 0.0
    ensures ValueOf(s, StreamMessages, t) == if t in s.streamMessages then s.streamMessages[t] else 0.0
    ensures ValueOf(s, Inflight, t) == if t in s.inflight then s.inflight[t] else 0.0
  {
  }

  /** The total of a sample adds up the whole map of the series. */
  lemma {:induction false} TotalReads(s: PodSample)
    ensures ValueOf(s, Requests, "__total__")
            == Sum(s.requests.Keys, k => if k in s.requests then s.requests[k] else 0.0)
    ensures ValueOf(s, StreamMessages, "__total__")
            == Sum(s.streamMessages.Keys, k => if k in s.streamMessages then s.streamMessages[k] else 0.0)
    ensures ValueOf(s, Inflight, "__total__")
            == Sum(s.inflight.Keys, k => if k in s.inflight then s.inflight[k] else 0.0)
  {
    hide Sum;
    SumSame(s.requests.Keys, k => At(s.requests, k), k => if k in s.requests then s.requests[k] else 0.0);
    SumSame(s.streamMessages.Keys, k => At(s.streamMessages, k),
            k => if k in s.streamMessages then s.streamMessages[k] else 0.0);
    SumSame(s.inflight.Keys, k => At(s.inflight, k), k => if k in s.inflight then s.inflight[k] else 0.0);
  }

  ghost function Values(w: seq<PodSample>, series: Series, transport: string): (vs: seq<real>)
    ensures |vs| == |w|
    ensures forall i :: 0 <= i < |w| ==> vs[i] == ValueOf(w[i], series, transport)
  {
    seq(|w|, i requires 0 <= i < |w| => ValueOf(w[i], series, transport))
  }

  /** The values of a map added up in some order. */
  method AddUp(m: map<string, real>) returns (v: real)
    ensures v == Sum(m.Keys, k => At(m, k))
  {
    hide Sum;
    ghost var f := k => At(m, k);
    v := 0.0;
    var rest := m.Keys;
    while rest != {}
      invariant rest <= m.Keys
      invariant v + Sum(rest, f) == Sum(m.Keys, f)
      decreases rest
    {
      var k :| k in rest;
      SumRemove(rest, f, k);
      v, rest := v + m[k], rest - {k};
    }
    SumZero({}, f);
  }

  /** counterValue and inflightValue: a map entry, or the sum over the map. */
  method ComputeValue(s: PodSample, series: Series, transport: string) returns (v: real)
    ensures v == ValueOf(s, series, transport)
  {
    hide Sum;
    if transport == TOTAL {
      v := AddUp(Of(s, series));
    } else {
      v := At(Of(s, series), transport);
    }
  }

  // ---------------------------------------------------------------- rates

  /** Reset-aware growth, step by step: the difference, or after a drop the whole new value. */
  function Increase(vs: seq<real>): real {
    if |vs| < 2 then 0.0
    else
      var last, prev := vs[|vs| - 1], vs[|vs| - 2];
      Increase(vs[..|vs| - 1]) + (if last < prev then last else last - prev)
  }

  /** One more value adds its difference to the last, or after a drop the whole of it. */
  lemma {:induction false} IncreaseAppend(vs: seq<real>, v: real)
    ensures Increase([]) == 0.0 == Increase([v])
    ensures vs != [] ==>
              Increase(vs + [v]) == Increase(vs) + if v < vs[|vs| - 1] then v else v - vs[|vs| - 1]
  {
    assert (vs + [v])[..|vs|] == vs;
  }

  /** The rate of a window: undefined without two samples at increasing times. */
  ghost function RateOf(w: seq<PodSample>, series: Series, transport: string): Option<real> {
    if |w| < 2 || w[|w| - 1].timestamp <= w[0].timestamp then None
    else Some(Increase(Values(w, series, transport)) / (w[|w| - 1].timestamp - w[0].timestamp) as real)
  }

  /** A rate times the length of its window is the growth over it. */
  lemma {:induction false} RateMeans(w: seq<PodSample>, series: Series, t: string)
    ensures RateOf(w, series, t).None? <==> |w| < 2 || w[|w| - 1].timestamp <= w[0].timestamp
    ensures RateOf(w, series, t).Some? ==>
              RateOf(w, series, t).value * (w[|w| - 1].timestamp - w[0].timestamp) as real
              == Increase(Values(w, series, t))
  {
    hide Increase, Values;
    if RateOf(w, series, t).Some? {
      TimesQuotient(Increase(Values(w, series, t)), (w[|w| - 1].timestamp - w[0].timestamp) as real);
    }
  }

  lemma TimesQuotient(a: real, d: real)
    requires d != 0.0
    ensures a / d * d == a
  {
  }

  /** podRate: committing the growth of each run between two resets gives the step-by-step growth. */
  method PodRate(samples: seq<PodSample>, now: int, lookback: int, series: Series, transport: string)
    returns (rate: Option<real>)
    ensures rate == RateOf(Window(samples, now, lookback), series, transport)
  {
    hide Window, ValueOf;
    var w := SamplesInWindow(samples, now, lookback);
    if |w| < 2 {
      return None;
    }
    var timeDiff := w[|w| - 1].timestamp - w[0].timestamp;
    if timeDiff <= 0 {
      return None;
    }
    ghost var vs := Values(w, series, transport);
    var delta := 0.0;
    var runStart := ComputeValue(w[0], series, transport);
    var prev := runStart;
    for i := 1 to |w|
      invariant prev == vs[i - 1]
      invariant delta + prev - runStart == Increase(vs[..i])
    {
      var curr := ComputeValue(w[i], series, transport);
      assert vs[..i + 1][..i] == vs[..i];
      if curr < prev {
        delta := delta + (prev - runStart);
        runStart := 0.0;
      }
      prev := curr;
    }
    delta := delta + (prev - runStart);
    assert vs[..|w|] == vs;
    rate := Some(delta / timeDiff as real);
  }

  /** Counters that are never negative never shrink the rate. */
  lemma {:induction false} IncreaseNonNegative(vs: seq<real>)
    requires forall i :: 0 <= i < |vs| ==> vs[i] >= 0.0
    ensures Increase(vs) >= 0.0
  {
    if |vs| >= 2 {
      IncreaseNonNegative(vs[..|vs| - 1]);
    }
  }

  ghost predicate NeverDrops(vs: seq<real>) {
    forall i :: 0 < i < |vs| ==> vs[i - 1] <= vs[i]
  }

  /** Without a reset the growth is last minus first. */
  lemma {:induction false} IncreaseTelescopes(vs: seq<real>)
    requires |vs| >= 1 && NeverDrops(vs)
    ensures Increase(vs) == vs[|vs| - 1] - vs[0]
  {
    if |vs| >= 2 {
      IncreaseTelescopes(vs[..|vs| - 1]);
    }
  }

  /** Every transport in a window is among `transports`, and none is called like the total. */
  ghost predicate Covered(w: seq<PodSample>, series: Series, transports: set<string>) {
    TOTAL !in transports && forall i :: 0 <= i < |w| ==> Of(w[i], series).Keys <= transports
  }

  /** The total of a sample is the sum over any set of transports that covers it. */
  lemma {:induction false} TotalOfSample(w: seq<PodSample>, series: Series, transports: set<string>, i: nat)
    requires Covered(w, series, transports) && i < |w|
    ensures ValueOf(w[i], series, TOTAL) == Sum(transports, t => ValueOf(w[i], series, t))
  {
    var m := Of(w[i], series);
    var f := k => At(m, k);
    SumExtend(m.Keys, transports, f);
    SumSame(transports, f, t => ValueOf(w[i], series, t));
  }

  lemma {:induction false} SumGrows(keys: set<string>, f: string -> real, g: string -> real)
    requires forall k :: k in keys ==> f(k) <= g(k)
    ensures Sum(keys, f) <= Sum(keys, g)
    decreases |keys|
  {
    if keys != {} {
      var k :| k in keys;
      SumRemove(keys, f, k);
      SumRemove(keys, g, k);
      SumGrows(keys - {k}, f, g);
    }
  }

  /** When no transport drops in the window, the growth of the total is the sum of the growths. */
  lemma {:induction false} TotalIncrease(w: seq<PodSample>, series: Series, transports: set<string>)
    requires Covered(w, series, transports) && |w| >= 1
    requires forall t :: t in transports ==> NeverDrops(Values(w, series, t))
    ensures Increase(Values(w, series, TOTAL)) == Sum(transports, t => Increase(Values(w, series, t)))
  {
    hide Sum, Increase;
    var total, last := Values(w, series, TOTAL), |w| - 1;
    forall i | 0 < i < |w|
      ensures total[i - 1] <= total[i]
    {
      TotalOfSample(w, series, transports, i - 1);
      TotalOfSample(w, series, transports, i);
      forall t | t in transports
        ensures ValueOf(w[i - 1], series, t) <= ValueOf(w[i], series, t)
      {
        assert Values(w, series, t)[i - 1] <= Values(w, series, t)[i];
      }
      SumGrows(transports, t => ValueOf(w[i - 1], series, t), t => ValueOf(w[i], series, t));
    }
    IncreaseTelescopes(total);
    TotalOfSample(w, series, transports, 0);
    TotalOfSample(w, series, transports, last);
    forall t | t in transports
      ensures ValueOf(w[last], series, t) == ValueOf(w[0], series, t) + Increase(Values(w, series, t))
    {
      IncreaseTelescopes(Values(w, series, t));
    }
    SumPlus(transports, t => ValueOf(w[0], series, t), t => Increase(Values(w, series, t)),
            t => ValueOf(w[last], series, t));
  }

  /** Growth is never below last minus first, and equals it exactly when the counter never drops. */
  lemma {:induction false} IncreaseAtLeastNet(vs: seq<real>)
    requires |vs| >= 1 && forall i :: 0 <= i < |vs| ==> vs[i] >= 0.0
    ensures Increase(vs) >= vs[|vs| - 1] - vs[0]
    ensures Increase(vs) == vs[|vs| - 1] - vs[0] <==> NeverDrops(vs)
  {
    if |vs| > 1 {
      var before := vs[..|vs| - 1];
      IncreaseAtLeastNet(before);
      assert NeverDrops(vs) <==> NeverDrops(before) && vs[|vs| - 2] <= vs[|vs| - 1];
    }
  }

  lemma {:induction false} SumEqualIff(keys: set<string>, f: string -> real, g: string -> real)
    requires forall k :: k in keys ==> f(k) <= g(k)
    ensures Sum(keys, f) == Sum(keys, g) <==> forall k :: k in keys ==> f(k) == g(k)
    decreases |keys|
  {
    if keys != {} {
      var k :| k in keys;
      SumRemove(keys, f, k);
      SumRemove(keys, g, k);
      SumGrows(keys - {k}, f, g);
      SumEqualIff(keys - {k}, f, g);
      assert forall j :: j in keys ==> j == k || j in keys - {k};
    }
  }

  /** Last minus first. */
  ghost function Net(w: seq<PodSample>, series: Series, t: string): real
    requires |w| >= 1
  {
    ValueOf(w[|w| - 1], series, t) - ValueOf(w[0], series, t)
  }

  lemma {:induction false} TotalNet(w: seq<PodSample>, series: Series, transports: set<string>)
    requires Covered(w, series, transports) && |w| >= 1
    ensures Net(w, series, TOTAL) == Sum(transports, t => Net(w, series, t))
  {
    hide Sum, ValueOf;
    TotalOfSample(w, series, transports, 0);
    TotalOfSample(w, series, transports, |w| - 1);
    SumPlus(transports, t => ValueOf(w[0], series, t), t => Net(w, series, t), t => ValueOf(w[|w| - 1], series, t));
  }

  /**
   Among the windows in which the total itself never drops, for counters that are not negative: the growth of the
   total is at most the sum of the growths, and equal to it exactly when no transport drops.
   */
  lemma {:induction false} SteadyTotalIff(w: seq<PodSample>, series: Series, transports: set<string>)
    requires Covered(w, series, transports) && |w| >= 1 && NeverDrops(Values(w, series, TOTAL))
    requires forall t, i :: t in transports && 0 <= i < |w| ==> ValueOf(w[i], series, t) >= 0.0
    ensures Increase(Values(w, series, TOTAL)) <= Sum(transports, t => Increase(Values(w, series, t)))
    ensures Increase(Values(w, series, TOTAL)) == Sum(transports, t => Increase(Values(w, series, t)))
            <==> forall t :: t in transports ==> NeverDrops(Values(w, series, t))
  {
    hide Sum, Increase, NeverDrops, ValueOf;
    IncreaseTelescopes(Values(w, series, TOTAL));
    TotalNet(w, series, transports);
    forall t | t in transports
      ensures Net(w, series, t) <= Increase(Values(w, series, t))
      ensures Net(w, series, t) == Increase(Values(w, series, t)) <==> NeverDrops(Values(w, series, t))
    {
      IncreaseAtLeastNet(Values(w, series, t));
    }
    SumGrows(transports, t => Net(w, series, t), t => Increase(Values(w, series, t)));
    SumEqualIff(transports, t => Net(w, series, t), t => Increase(Values(w, series, t)));
  }

  // ---------------------------------------------------------------- resets and the total

  ghost predicate DropsAt(w: seq<PodSample>, series: Series, t: string, i: nat)
    requires 0 < i < |w|
  {
    ValueOf(w[i], series, t) < ValueOf(w[i - 1], series, t)
  }

  /** The growth of a counter in the step to sample i. */
  ghost function Gain(w: seq<PodSample>, series: Series, t: string, i: nat): real
    requires 0 < i < |w|
  {
    if DropsAt(w, series, t, i) then ValueOf(w[i], series, t)
    else ValueOf(w[i], series, t) - ValueOf(w[i - 1], series, t)
  }

  /** The value before the step to sample i, if the transport drops there exactly when `dropping`. */
  ghost function Before(w: seq<PodSample>, series: Series, i: nat, dropping: bool): string -> real
    requires 0 < i < |w|
  {
    t => if DropsAt(w, series, t, i) == dropping then ValueOf(w[i - 1], series, t) else 0.0
  }

  /** In a step in which the total drops, what the transports that do not drop had before is counted again. */
  ghost function OverAt(w: seq<PodSample>, series: Series, transports: set<string>, i: nat): real
    requires 0 < i < |w|
  {
    if DropsAt(w, series, TOTAL, i) then Sum(transports, Before(w, series, i, false)) else 0.0
  }

  /** In any other step, what the transports that drop had before is missing. */
  ghost function UnderAt(w: seq<PodSample>, series: Series, transports: set<string>, i: nat): real
    requires 0 < i < |w|
  {
    if DropsAt(w, series, TOTAL, i) then 0.0 else Sum(transports, Before(w, series, i, true))
  }

  lemma {:induction false} StepGap(w: seq<PodSample>, series: Series, transports: set<string>, i: nat)
    requires Covered(w, series, transports) && 0 < i < |w|
    ensures Gain(w, series, TOTAL, i)
            == Sum(transports, t => Gain(w, series, t, i))
               + OverAt(w, series, transports, i) - UnderAt(w, series, transports, i)
  {
    hide Sum, ValueOf, Covered;
    var gain := t => Gain(w, series, t, i);
    TotalOfSample(w, series, transports, i - 1);
    TotalOfSample(w, series, transports, i);
    SumPlus(transports, gain, Before(w, series, i, false), t => ValueOf(w[i], series, t));
    SumPlus(transports, Before(w, series, i, false), Before(w, series, i, true), t => ValueOf(w[i - 1], series, t));
  }

  ghost function OverCount(w: seq<PodSample>, series: Series, transports: set<string>, n: nat): real
    requires n <= |w|
  {
    if n < 2 then 0.0 else OverCount(w, series, transports, n - 1) + OverAt(w, series, transports, n - 1)
  }

  ghost function UnderCount(w: seq<PodSample>, series: Series, transports: set<string>, n: nat): real
    requires n <= |w|
  {
    if n < 2 then 0.0 else UnderCount(w, series, transports, n - 1) + UnderAt(w, series, transports, n - 1)
  }

  /** How much the growth of the total exceeds the sum of the growths over a window. */
  ghost function Miscount(w: seq<PodSample>, series: Series, transports: set<string>): real {
    OverCount(w, series, transports, |w|) - UnderCount(w, series, transports, |w|)
  }

  /** The growth over the first n samples. */
  ghost function Growth(w: seq<PodSample>, series: Series, n: nat): string -> real
    requires n <= |w|
  {
    t => Increase(Values(w, series, t)[..n])
  }

  lemma {:induction false} GrowthStep(w: seq<PodSample>, series: Series, t: string, n: nat)
    requires 2 <= n <= |w|
    ensures Growth(w, series, n)(t) == Growth(w, series, n - 1)(t) + Gain(w, series, t, n - 1)
  {
    hide ValueOf;
    assert Values(w, series, t)[..n][..n - 1] == Values(w, series, t)[..n - 1];
  }

  lemma {:induction false} GrowthSumStep(w: seq<PodSample>, series: Series, transports: set<string>, n: nat)
    requires 2 <= n <= |w|
    ensures Sum(transports, Growth(w, series, n))
            == Sum(transports, Growth(w, series, n - 1)) + Sum(transports, t => Gain(w, series, t, n - 1))
  {
    hide Sum, Gain, Growth;
    var gain := t => Gain(w, series, t, n - 1);
    forall t | t in transports
      ensures Growth(w, series, n)(t) == Growth(w, series, n - 1)(t) + gain(t)
    {
      GrowthStep(w, series, t, n);
    }
    SumPlus(transports, Growth(w, series, n - 1), gain, Growth(w, series, n));
  }

  lemma {:induction false} NoGrowth(w: seq<PodSample>, series: Series, transports: set<string>, n: nat)
    requires n <= |w| && n < 2
    ensures Growth(w, series, n)(TOTAL) == 0.0 == Sum(transports, Growth(w, series, n))
  {
    hide Sum;
    SumZero(transports, Growth(w, series, n));
  }

  lemma {:induction false} GrowthGap(w: seq<PodSample>, series: Series, transports: set<string>, n: nat)
    requires Covered(w, series, transports) && n <= |w|
    ensures Growth(w, series, n)(TOTAL)
            == Sum(transports, Growth(w, series, n))
               + OverCount(w, series, transports, n) - UnderCount(w, series, transports, n)
  {
    hide Sum, Covered, OverAt, UnderAt, Gain, Growth;
    if n < 2 {
      NoGrowth(w, series, transports, n);
    } else {
      GrowthGap(w, series, transports, n - 1);
      StepGap(w, series, transports, n - 1);
      GrowthStep(w, series, TOTAL, n);
      GrowthSumStep(w, series, transports, n);
    }
  }

  /**
   For every window, whatever resets it contains: the growth of the total is the sum of the growths, plus what is
   counted again where the total drops, minus what is missing where only transports drop. So the two agree
   exactly when these cancel out.
   */
  lemma {:induction false} TotalIncreaseIff(w: seq<PodSample>, series: Series, transports: set<string>)
    requires Covered(w, series, transports)
    ensures Increase(Values(w, series, TOTAL))
            == Sum(transports, t => Increase(Values(w, series, t))) + Miscount(w, series, transports)
    ensures Increase(Values(w, series, TOTAL)) == Sum(transports, t => Increase(Values(w, series, t)))
            <==> OverCount(w, series, transports, |w|) == UnderCount(w, series, transports, |w|)
  {
    hide Sum, Increase, OverCount, UnderCount, ValueOf, Covered;
    GrowthGap(w, series, transports, |w|);
    forall t
      ensures Growth(w, series, |w|)(t) == Increase(Values(w, series, t))
    {
      assert Values(w, series, t)[..|w|] == Values(w, series, t);
    }
    SumSame(transports, Growth(w, series, |w|), t => Increase(Values(w, series, t)));
  }

  ghost predicate NonNegative(w: seq<PodSample>, series: Series, transports: set<string>) {
    forall t, i :: t in transports && 0 <= i < |w| ==> ValueOf(w[i], series, t) >= 0.0
  }

  /**
   A step that the total shows as it is: all counters that held anything restart together and the total drops with
   them, or nothing drops at all.
   */
  ghost predicate FineAt(w: seq<PodSample>, series: Series, transports: set<string>, i: nat)
    requires 0 < i < |w|
  {
    if DropsAt(w, series, TOTAL, i)
    then forall t :: t in transports && !DropsAt(w, series, t, i) ==> ValueOf(w[i - 1], series, t) == 0.0
    else forall t :: t in transports ==> !DropsAt(w, series, t, i)
  }

  /** For counters that are not negative, one step of the total is the sum of the steps exactly when it is fine. */
  lemma {:induction false} StepIff(w: seq<PodSample>, series: Series, transports: set<string>, i: nat)
    requires Covered(w, series, transports) && NonNegative(w, series, transports) && 0 < i < |w|
    ensures OverAt(w, series, transports, i) >= 0.0 && UnderAt(w, series, transports, i) >= 0.0
    ensures Gain(w, series, TOTAL, i) == Sum(transports, t => Gain(w, series, t, i))
            <==> FineAt(w, series, transports, i)
  {
    hide Sum, ValueOf, Covered;
    StepGap(w, series, transports, i);
    var zero := (t: string) => 0.0;
    SumZero(transports, zero);
    var before := Before(w, series, i, !DropsAt(w, series, TOTAL, i));
    forall t | t in transports
      ensures zero(t) <= before(t)
    {
      assert ValueOf(w[i - 1], series, t) >= 0.0 && ValueOf(w[i], series, t) >= 0.0;
    }
    SumGrows(transports, zero, before);
    SumEqualIff(transports, zero, before);
    FineBefore(w, series, transports, i);
  }

  lemma {:induction false} FineBefore(w: seq<PodSample>, series: Series, transports: set<string>, i: nat)
    requires NonNegative(w, series, transports) && 0 < i < |w|
    ensures var before := Before(w, series, i, !DropsAt(w, series, TOTAL, i));
            FineAt(w, series, transports, i) <==> forall t :: t in transports ==> before(t) == 0.0
  {
    hide ValueOf;
    var before := Before(w, series, i, !DropsAt(w, series, TOTAL, i));
    forall t | t in transports
      ensures before(t) == 0.0 <==>
                if DropsAt(w, series, TOTAL, i) then DropsAt(w, series, t, i) || ValueOf(w[i - 1], series, t) == 0.0
                else !DropsAt(w, series, t, i)
    {
      assert ValueOf(w[i - 1], series, t) >= 0.0 && ValueOf(w[i], series, t) >= 0.0;
    }
  }

  /** A window all of whose steps are fine, restarts of the whole broker included, has no miscount. */
  lemma {:induction false} FineWindow(w: seq<PodSample>, series: Series, transports: set<string>, n: nat)
    requires Covered(w, series, transports) && NonNegative(w, series, transports) && n <= |w|
    requires forall i :: 0 < i < n ==> FineAt(w, series, transports, i)
    ensures OverCount(w, series, transports, n) == UnderCount(w, series, transports, n)
  {
    if n >= 2 {
      hide Sum, Covered, NonNegative, FineAt, OverAt, UnderAt, Gain;
      FineWindow(w, series, transports, n - 1);
      assert FineAt(w, series, transports, n - 1);
      StepIff(w, series, transports, n - 1);
      StepGap(w, series, transports, n - 1);
    }
  }

  /** A window of two samples over two transports. */
  ghost predicate TwoByTwo(w: seq<PodSample>, grpc0: real, rest0: real, grpc1: real, rest1: real) {
    && |w| == 2
    && w[0].requests == map["grpc" := grpc0, "rest" := rest0]
    && w[1].requests == map["grpc" := grpc1, "rest" := rest1]
  }

  lemma {:induction false} AddTwo(m: map<string, real>, a: real, b: real)
    requires m == map["grpc" := a, "rest" := b]
    ensures Sum(m.Keys, k => At(m, k)) == a + b
  {
    var f := k => At(m, k);
    assert m.Keys == {"grpc", "rest"};
    SumRemove(m.Keys, f, "grpc");
    assert m.Keys - {"grpc"} == {"rest"};
    SumRemove({"rest"}, f, "rest");
    assert {"rest"} - {"rest"} == {};
  }

  lemma {:induction false} IncreaseOfTwo(vs: seq<real>)
    requires |vs| == 2
    ensures Increase(vs) == if vs[1] < vs[0] then vs[1] else vs[1] - vs[0]
  {
    assert |vs[..1]| == 1;
  }

  /** The growth of the total and of the two transports of such a window. */
  lemma {:induction false} GrowthOfTwo(w: seq<PodSample>, grpc0: real, rest0: real, grpc1: real, rest1: real)
    requires TwoByTwo(w, grpc0, rest0, grpc1, rest1)
    ensures var before, after := grpc0 + rest0, grpc1 + rest1;
            Increase(Values(w, Requests, TOTAL)) == if after < before then after else after - before
    ensures Increase(Values(w, Requests, "grpc")) == if grpc1 < grpc0 then grpc1 else grpc1 - grpc0
    ensures Increase(Values(w, Requests, "rest")) == if rest1 < rest0 then rest1 else rest1 - rest0
  {
    hide Sum, Increase;
    AddTwo(w[0].requests, grpc0, rest0);
    AddTwo(w[1].requests, grpc1, rest1);
    IncreaseOfTwo(Values(w, Requests, TOTAL));
    IncreaseOfTwo(Values(w, Requests, "grpc"));
    IncreaseOfTwo(Values(w, Requests, "rest"));
  }

  /** A reset hides in the total: the total rate can be lower than the sum of the rates. */
  lemma {:induction false} ResetHidesInTotal(w: seq<PodSample>)
    requires TwoByTwo(w, 10.0, 0.0, 0.0, 10.0)
    ensures Increase(Values(w, Requests, TOTAL)) == 0.0
    ensures Increase(Values(w, Requests, "grpc")) + Increase(Values(w, Requests, "rest")) == 10.0
  {
    GrowthOfTwo(w, 10.0, 0.0, 0.0, 10.0);
  }

  /** One transport drops far enough to take the total with it: the other one is then counted again. */
  lemma {:induction false} ResetInflatesTotal(w: seq<PodSample>)
    requires TwoByTwo(w, 10.0, 5.0, 1.0, 6.0)
    ensures Increase(Values(w, Requests, TOTAL)) == 7.0
    ensures Increase(Values(w, Requests, "grpc")) + Increase(Values(w, Requests, "rest")) == 2.0
  {
    GrowthOfTwo(w, 10.0, 5.0, 1.0, 6.0);
  }

  /** A restart of the whole broker, which drops every transport, is counted right. */
  lemma {:induction false} RestartAddsUp(w: seq<PodSample>)
    requires TwoByTwo(w, 10.0, 5.0, 1.0, 2.0)
    ensures Increase(Values(w, Requests, TOTAL)) == 3.0
    ensures Increase(Values(w, Requests, "grpc")) + Increase(Values(w, Requests, "rest")) == 3.0
  {
    GrowthOfTwo(w, 10.0, 5.0, 1.0, 2.0);
  }

  // ---------------------------------------------------------------- in-flight averages

  /** Each value weighted by the time until the next sample. */
  ghost function Weighted(w: seq<PodSample>, vs: seq<real>): real
    requires |w| == |vs|
  {
    if |w| < 2 then 0.0
    else
      var n := |w| - 1;
      Weighted(w[..n], vs[..n]) + vs[n - 1] * (w[n].timestamp - w[n - 1].timestamp) as real
  }

  /** The time-weighted average of a window; the weights add up to its length. */
  ghost function AverageOf(w: seq<PodSample>, vs: seq<real>): real
    requires |w| == |vs| >= 1
  {
    var length := w[|w| - 1].timestamp - w[0].timestamp;
    if length == 0 then vs[|w| - 1] else Weighted(w, vs) / length as real
  }

  /** The two accumulators of podInflightAvg. */
  method Weigh(w: seq<PodSample>, transport: string) returns (weightedSum: real, totalWeight: real)
    requires |w| >= 1
    ensures weightedSum == Weighted(w, Values(w, Inflight, transport))
    ensures totalWeight == (w[|w| - 1].timestamp - w[0].timestamp) as real
  {
    hide Weighted, ValueOf;
    ghost var vs := Values(w, Inflight, transport);
    weightedSum, totalWeight := 0.0, 0.0;
    WeightedShort(w[..1], vs[..1]);
    for i := 0 to |w| - 1
      invariant weightedSum == Weighted(w[..i + 1], vs[..i + 1])
      invariant totalWeight == (w[i].timestamp - w[0].timestamp) as real
    {
      var width := (w[i + 1].timestamp - w[i].timestamp) as real;
      var v := ComputeValue(w[i], Inflight, transport);
      WeightedStep(w, vs, i + 2);
      weightedSum := weightedSum + v * width;
      totalWeight := totalWeight + width;
    }
    assert w[..|w|] == w && vs[..|w|] == vs;
  }

  /** An average times the length of its window is the weighted sum; a window of length zero gives its last value. */
  lemma AverageMeans(w: seq<PodSample>, vs: seq<real>)
    requires |w| == |vs| >= 1
    ensures var length := w[|w| - 1].timestamp - w[0].timestamp;
            if length == 0 then AverageOf(w, vs) == vs[|vs| - 1]
            else AverageOf(w, vs) * length as real == Weighted(w, vs)
    ensures |w| == 1 ==> AverageOf(w, vs) == vs[0]
    ensures |w| == 2 && w[0].timestamp != w[1].timestamp ==> AverageOf(w, vs) == vs[0]
  {
    if |w| == 2 {
      assert Weighted(w[..1], vs[..1]) == 0.0;
    }
  }

  /** podInflightAvg */
  method PodInflightAvg(samples: seq<PodSample>, now: int, lookback: int, transport: string) returns (avg: Option<real>)
    ensures var w := Window(samples, now, lookback);
            avg == if w == [] then None else Some(AverageOf(w, Values(w, Inflight, transport)))
  {
    hide Weighted, ValueOf, Window;
    var w := SamplesInWindow(samples, now, lookback);
    if |w| == 0 {
      return None;
    }
    if |w| == 1 {
      var v := ComputeValue(w[0], Inflight, transport);
      return Some(v);
    }
    var weightedSum, totalWeight := Weigh(w, transport);
    if totalWeight == 0.0 {
      var v := ComputeValue(w[|w| - 1], Inflight, transport);
      return Some(v);
    }
    avg := Some(weightedSum / totalWeight);
  }

  ghost predicate InOrder(w: seq<PodSample>) {
    forall i :: 0 < i < |w| ==> w[i - 1].timestamp <= w[i].timestamp
  }

  lemma {:induction false} WeightedBetween(w: seq<PodSample>, vs: seq<real>, lo: real, hi: real)
    requires |w| == |vs| >= 1 && InOrder(w) && forall i :: 0 <= i < |vs| ==> lo <= vs[i] <= hi
    ensures var length := (w[|w| - 1].timestamp - w[0].timestamp) as real;
            length >= 0.0 && lo * length <= Weighted(w, vs) <= hi * length
  {
    hide Weighted;
    if |w| < 2 {
      WeightedShort(w, vs);
    } else {
      var n := |w| - 1;
      WeightedBetween(w[..n], vs[..n], lo, hi);
      WeightedStep(w, vs, n + 1);
      assert w[..n + 1] == w && vs[..n + 1] == vs;
      var before, width := (w[n - 1].timestamp - w[0].timestamp) as real, (w[n].timestamp - w[n - 1].timestamp) as real;
      TimesMonotone(lo, vs[n - 1], hi, width);
      Distribute(before, width, lo);
      Distribute(before, width, hi);
    }
  }

  lemma TimesMonotone(lo: real, v: real, hi: real, width: real)
    requires lo <= v <= hi && width >= 0.0
    ensures lo * width <= v * width <= hi * width
  {
  }

  lemma Quotient(a: real, lo: real, hi: real, d: real)
    requires d > 0.0 && lo * d <= a <= hi * d
    ensures lo <= a / d <= hi
  {
  }

  /** With samples in order, an average lies between any bounds of the values in its window. */
  lemma {:induction false} AverageBetween(w: seq<PodSample>, vs: seq<real>, lo: real, hi: real)
    requires |w| == |vs| >= 1 && InOrder(w) && forall i :: 0 <= i < |vs| ==> lo <= vs[i] <= hi
    ensures lo <= AverageOf(w, vs) <= hi
  {
    hide Weighted;
    WeightedBetween(w, vs, lo, hi);
    var length := w[|w| - 1].timestamp - w[0].timestamp;
    if length != 0 {
      Quotient(Weighted(w, vs), lo, hi, length as real);
    }
  }

  /** The weighted sum of the first `n` samples, transport by transport. */
  ghost function WeightedBy(w: seq<PodSample>, n: nat): string -> real
    requires n <= |w|
  {
    t => Weighted(w[..n], Values(w, Inflight, t)[..n])
  }

  lemma {:induction false} TotalWeighted(w: seq<PodSample>, n: nat, transports: set<string>)
    requires Covered(w, Inflight, transports) && n <= |w|
    ensures WeightedBy(w, n)(TOTAL) == Sum(transports, WeightedBy(w, n))
  {
    hide Sum, Weighted, ValueOf, Of;
    var at := WeightedBy(w, n);
    if n < 2 {
      forall vs: seq<real> | |vs| == n
        ensures Weighted(w[..n], vs) == 0.0
      {
        WeightedShort(w[..n], vs);
      }
      SumZero(transports, at);
    } else {
      TotalWeighted(w, n - 1, transports);
      TotalOfSample(w, Inflight, transports, n - 2);
      var width := (w[n - 1].timestamp - w[n - 2].timestamp) as real;
      var before := WeightedBy(w, n - 1);
      var value := t => ValueOf(w[n - 2], Inflight, t);
      var added := t => value(t) * width;
      forall t
        ensures at(t) == before(t) + added(t)
      {
        WeightedStep(w, Values(w, Inflight, t), n);
      }
      WeightedStep(w, Values(w, Inflight, TOTAL), n);
      SumTimes(transports, value, width, added);
      SumPlus(transports, before, added, at);
    }
  }

  lemma WeightedShort(w: seq<PodSample>, vs: seq<real>)
    requires |w| == |vs| < 2
    ensures Weighted(w, vs) == 0.0
  {
  }

  lemma WeightedStep(w: seq<PodSample>, vs: seq<real>, n: nat)
    requires |w| == |vs| && 2 <= n <= |w|
    ensures Weighted(w[..n], vs[..n])
            == Weighted(w[..n - 1], vs[..n - 1]) + vs[n - 2] * (w[n - 1].timestamp - w[n - 2].timestamp) as real
  {
    assert w[..n][..n - 1] == w[..n - 1] && vs[..n][..n - 1] == vs[..n - 1];
  }

  /** The average of the totals is the sum of the averages. */
  lemma {:induction false} TotalAverage(w: seq<PodSample>, transports: set<string>)
    requires Covered(w, Inflight, transports) && |w| >= 1
    ensures AverageOf(w, Values(w, Inflight, TOTAL)) == Sum(transports, t => AverageOf(w, Values(w, Inflight, t)))
  {
    hide Sum, Weighted;
    var length, n := w[|w| - 1].timestamp - w[0].timestamp, |w|;
    var average := t => AverageOf(w, Values(w, Inflight, t));
    if length == 0 {
      TotalOfSample(w, Inflight, transports, n - 1);
      SumSame(transports, average, t => ValueOf(w[n - 1], Inflight, t));
    } else {
      TotalWeighted(w, n, transports);
      var weighted := WeightedBy(w, n);
      var c := 1.0 / length as real;
      assert w[..n] == w;
      forall t: string
        ensures Values(w, Inflight, t)[..n] == Values(w, Inflight, t)
        ensures average(t) == weighted(t) * c
      {
        DivideIsTimes(weighted(t), length as real);
      }
      SumTimes(transports, weighted, c, average);
      DivideIsTimes(Sum(transports, weighted), length as real);
    }
  }

  lemma DivideIsTimes(a: real, d: real)
    requires d != 0.0
    ensures a / d == a * (1.0 / d)
  {
  }
}
