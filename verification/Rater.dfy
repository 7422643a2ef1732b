/**
 The metrics query of the daemon (pkg/daemon/server/rater/rater.go GetMetrics and the sums of
 pkg/daemon/server/rater/helper.go).
 */
module Rater {
  import opened Prelude
  import opened Sums
  import opened Samples
  import opened Rates

  /** The samples of each pod. */
  type Pods = map<string, seq<PodSample>>

  ghost function WindowOf(pods: Pods, p: string, now: int, lookback: int): seq<PodSample> {
    if p in pods then Window(pods[p], now, lookback) else []
  }

  ghost function PodRateOf(pods: Pods, p: string, now: int, lookback: int, series: Series, t: string): real {
    var rate := RateOf(WindowOf(pods, p, now, lookback), series, t);
    if rate.Some? then rate.value else 0.0
  }

  ghost function PodAverage(pods: Pods, p: string, now: int, lookback: int, t: string): real {
    var w := WindowOf(pods, p, now, lookback);
    if w == [] then 0.0 else AverageOf(w, Values(w, Inflight, t))
  }

  /** The rate of an AgentDeploy: the sum over its pods. */
  ghost function RateOver(pods: Pods, now: int, lookback: int, series: Series, t: string): real {
    Sum(pods.Keys, p => PodRateOf(pods, p, now, lookback, series, t))
  }

  ghost function InflightOver(pods: Pods, now: int, lookback: int, t: string): real {
    Sum(pods.Keys, p => PodAverage(pods, p, now, lookback, t))
  }

  lemma {:induction false} NoPods(now: int, lookback: int, series: Series, t: string)
    ensures RateOver(map[], now, lookback, series, t) == 0.0 == InflightOver(map[], now, lookback, t)
  {
  }

  /** One more pod adds its own rate, if it has one, and its own average, if its window is not empty. */
  lemma {:induction false} OnePodMore(
      pods: Pods, p: string, samples: seq<PodSample>, now: int, lookback: int, series: Series, t: string)
    requires p !in pods
    ensures var w := Window(samples, now, lookback);
            && RateOver(pods[p := samples], now, lookback, series, t)
               == RateOver(pods, now, lookback, series, t)
                  + (if RateOf(w, series, t).Some? then RateOf(w, series, t).value else 0.0)
            && InflightOver(pods[p := samples], now, lookback, t)
               == InflightOver(pods, now, lookback, t)
                  + (if w == [] then 0.0 else AverageOf(w, Values(w, Inflight, t)))
  {
    hide Sum, Window, RateOf, AverageOf, Values;
    var more := pods[p := samples];
    assert more.Keys - {p} == pods.Keys;
    SumRemove(more.Keys, q => PodRateOf(more, q, now, lookback, series, t), p);
    SumSame(pods.Keys, q => PodRateOf(more, q, now, lookback, series, t),
            q => PodRateOf(pods, q, now, lookback, series, t));
    SumRemove(more.Keys, q => PodAverage(more, q, now, lookback, t), p);
    SumSame(pods.Keys, q => PodAverage(more, q, now, lookback, t), q => PodAverage(pods, q, now, lookback, t));
  }

  // ---------------------------------------------------------------- totals

  /** `transports` covers every sample of every pod. */
  ghost predicate AllCovered(pods: Pods, series: Series, transports: set<string>) {
    TOTAL !in transports && forall p :: p in pods ==> Covered(pods[p], series, transports)
  }

  lemma {:induction false} CoveredWindow(
      samples: seq<PodSample>, now: int, lookback: int, series: Series, transports: set<string>)
    requires Covered(samples, series, transports)
    ensures Covered(Window(samples, now, lookback), series, transports)
  {
    if samples != [] && samples[0].timestamp < now - lookback {
      CoveredWindow(samples[1..], now, lookback, series, transports);
    }
  }

  /** The in-flight total of every window is the sum of the per-transport values. */
  lemma {:induction false} InflightTotals(pods: Pods, now: int, lookback: int, transports: set<string>)
    requires AllCovered(pods, Inflight, transports)
    ensures InflightOver(pods, now, lookback, TOTAL) == Sum(transports, t => InflightOver(pods, now, lookback, t))
  {
    hide Sum, AverageOf, Values, Window;
    var one := (p: string, t: string) => PodAverage(pods, p, now, lookback, t);
    forall p | p in pods
      ensures PodAverage(pods, p, now, lookback, TOTAL) == Sum(transports, t => one(p, t))
    {
      var w := Window(pods[p], now, lookback);
      CoveredWindow(pods[p], now, lookback, Inflight, transports);
      if w == [] {
        SumZero(transports, t => one(p, t));
      } else {
        TotalAverage(w, transports);
        SumSame(transports, t => one(p, t), t => AverageOf(w, Values(w, Inflight, t)));
      }
    }
    SumSame(pods.Keys, p => PodAverage(pods, p, now, lookback, TOTAL), p => Sum(transports, t => one(p, t)));
    SumSwap(pods.Keys, transports, one);
    SumSame(transports, t => Sum(pods.Keys, p => one(p, t)), t => InflightOver(pods, now, lookback, t)) by {
      forall t
        ensures Sum(pods.Keys, p => one(p, t)) == InflightOver(pods, now, lookback, t)
      {
        SumSame(pods.Keys, p => one(p, t), p => PodAverage(pods, p, now, lookback, t));
      }
    }
  }

  /** No transport drops within the window of any pod. */
  ghost predicate NoResets(pods: Pods, now: int, lookback: int, series: Series, transports: set<string>) {
    forall p, t :: p in pods && t in transports ==> NeverDrops(Values(WindowOf(pods, p, now, lookback), series, t))
  }

  /** What resets add to the total rate of a pod, beyond the sum of its per-transport rates. */
  ghost function PodMiscount(
      pods: Pods, p: string, now: int, lookback: int, series: Series, transports: set<string>): real
  {
    var w := WindowOf(pods, p, now, lookback);
    if RateOf(w, series, TOTAL).None? then 0.0
    else Miscount(w, series, transports) / (w[|w| - 1].timestamp - w[0].timestamp) as real
  }

  ghost function MiscountOver(pods: Pods, now: int, lookback: int, series: Series, transports: set<string>): real {
    Sum(pods.Keys, p => PodMiscount(pods, p, now, lookback, series, transports))
  }

  ghost function RateOrZero(w: seq<PodSample>, series: Series, t: string): real {
    if RateOf(w, series, t).Some? then RateOf(w, series, t).value else 0.0
  }

  lemma DivideSum(a: real, b: real, c: real, d: real)
    requires d != 0.0 && a == b + c
    ensures a / d == b / d + c / d
  {
  }

  lemma {:induction false} RateAsTimes(w: seq<PodSample>, series: Series, t: string)
    requires |w| >= 2 && w[|w| - 1].timestamp > w[0].timestamp
    ensures var d := (w[|w| - 1].timestamp - w[0].timestamp) as real;
            RateOrZero(w, series, t) == Increase(Values(w, series, t)) * (1.0 / d)
  {
    hide Increase, Values;
    DivideIsTimes(Increase(Values(w, series, t)), (w[|w| - 1].timestamp - w[0].timestamp) as real);
  }

  lemma {:induction false} SumOfRates(w: seq<PodSample>, series: Series, transports: set<string>)
    requires |w| >= 2 && w[|w| - 1].timestamp > w[0].timestamp
    ensures var d := (w[|w| - 1].timestamp - w[0].timestamp) as real;
            Sum(transports, t => RateOrZero(w, series, t)) == Sum(transports, t => Increase(Values(w, series, t))) / d
  {
    hide Sum, Increase, Values, RateOrZero;
    var d := (w[|w| - 1].timestamp - w[0].timestamp) as real;
    var growth := t => Increase(Values(w, series, t));
    var rate := t => RateOrZero(w, series, t);
    forall t | t in transports
      ensures rate(t) == growth(t) * (1.0 / d)
    {
      RateAsTimes(w, series, t);
    }
    SumTimes(transports, growth, 1.0 / d, rate);
    DivideIsTimes(Sum(transports, growth), d);
  }

  lemma {:induction false} TotalRate(w: seq<PodSample>, series: Series, transports: set<string>)
    requires Covered(w, series, transports) && RateOf(w, series, TOTAL).Some?
    ensures RateOf(w, series, TOTAL).value
            == Sum(transports, t => RateOrZero(w, series, t))
               + Miscount(w, series, transports) / (w[|w| - 1].timestamp - w[0].timestamp) as real
  {
    hide Sum, Increase, Values, Miscount, Covered, RateOrZero;
    var d := (w[|w| - 1].timestamp - w[0].timestamp) as real;
    TotalIncreaseIff(w, series, transports);
    SumOfRates(w, series, transports);
    DivideSum(Increase(Values(w, series, TOTAL)), Sum(transports, t => Increase(Values(w, series, t))),
              Miscount(w, series, transports), d);
  }

  lemma {:induction false} PodRateTotals(
      pods: Pods, p: string, now: int, lookback: int, series: Series, transports: set<string>)
    requires AllCovered(pods, series, transports) && p in pods
    ensures PodRateOf(pods, p, now, lookback, series, TOTAL)
            == Sum(transports, t => PodRateOf(pods, p, now, lookback, series, t))
               + PodMiscount(pods, p, now, lookback, series, transports)
  {
    hide Sum, Window, Increase, Miscount;
    var w := WindowOf(pods, p, now, lookback);
    CoveredWindow(pods[p], now, lookback, series, transports);
    if RateOf(w, series, TOTAL).Some? {
      TotalRate(w, series, transports);
      SumSame(transports, t => RateOrZero(w, series, t), t => PodRateOf(pods, p, now, lookback, series, t));
    } else {
      SumZero(transports, t => PodRateOf(pods, p, now, lookback, series, t));
    }
  }

  /**
   Whatever resets the windows contain, the total rate is the sum of the per-transport rates plus the miscount of
   the pods, so the two agree exactly when the miscounts cancel out.
   */
  lemma {:induction false} RateTotals(pods: Pods, now: int, lookback: int, series: Series, transports: set<string>)
    requires AllCovered(pods, series, transports)
    ensures RateOver(pods, now, lookback, series, TOTAL)
            == Sum(transports, t => RateOver(pods, now, lookback, series, t))
               + MiscountOver(pods, now, lookback, series, transports)
  {
    hide Sum, RateOf, Values, Window, Miscount;
    var one := (p: string, t: string) => PodRateOf(pods, p, now, lookback, series, t);
    var miss := p => PodMiscount(pods, p, now, lookback, series, transports);
    forall p | p in pods
      ensures PodRateOf(pods, p, now, lookback, series, TOTAL) == Sum(transports, t => one(p, t)) + miss(p)
    {
      PodRateTotals(pods, p, now, lookback, series, transports);
      SumSame(transports, t => one(p, t), t => PodRateOf(pods, p, now, lookback, series, t));
    }
    SumPlus(pods.Keys, p => Sum(transports, t => one(p, t)), miss,
            p => PodRateOf(pods, p, now, lookback, series, TOTAL));
    SumSwap(pods.Keys, transports, one);
    SumSame(transports, t => Sum(pods.Keys, p => one(p, t)), t => RateOver(pods, now, lookback, series, t)) by {
      forall t
        ensures Sum(pods.Keys, p => one(p, t)) == RateOver(pods, now, lookback, series, t)
      {
        SumSame(pods.Keys, p => one(p, t), p => PodRateOf(pods, p, now, lookback, series, t));
      }
    }
  }

  /** Without resets nothing is miscounted. */
  lemma {:induction false} NoMiscount(pods: Pods, now: int, lookback: int, series: Series, transports: set<string>)
    requires AllCovered(pods, series, transports) && NoResets(pods, now, lookback, series, transports)
    ensures MiscountOver(pods, now, lookback, series, transports) == 0.0
  {
    hide Sum, Window, NeverDrops, Increase, Miscount;
    forall p | p in pods
      ensures PodMiscount(pods, p, now, lookback, series, transports) == 0.0
    {
      var w := WindowOf(pods, p, now, lookback);
      CoveredWindow(pods[p], now, lookback, series, transports);
      if w != [] {
        TotalIncrease(w, series, transports);
        TotalIncreaseIff(w, series, transports);
      }
    }
    SumZero(pods.Keys, p => PodMiscount(pods, p, now, lookback, series, transports));
  }

  // ---------------------------------------------------------------- bounded buffers

  /** What the buffers still hold of a history. */
  ghost function Kept(history: Pods): Pods {
    map p | p in history :: LastOf(history[p], MAX_SAMPLES)
  }

  /** Queries on the bounded buffers give what the full history would give. */
  lemma {:induction false} PacedQueries(history: Pods, now: int, lookback: int, series: Series, t: string)
    requires lookback <= RETENTION && forall p :: p in history ==> Paced(history[p], now)
    ensures RateOver(Kept(history), now, lookback, series, t) == RateOver(history, now, lookback, series, t)
    ensures InflightOver(Kept(history), now, lookback, t) == InflightOver(history, now, lookback, t)
  {
    hide Sum, Window, RateOf, AverageOf, Values, LastOf, Paced;
    var kept := Kept(history);
    assert kept.Keys == history.Keys;
    forall p
      ensures WindowOf(kept, p, now, lookback) == WindowOf(history, p, now, lookback)
    {
      if p in history {
        PacedWindow(history[p], now, lookback);
      }
    }
    SumSame(history.Keys, p => PodRateOf(kept, p, now, lookback, series, t),
            p => PodRateOf(history, p, now, lookback, series, t));
    SumSame(history.Keys, p => PodAverage(kept, p, now, lookback, t), p => PodAverage(history, p, now, lookback, t));
  }

  // ---------------------------------------------------------------- GetMetrics

  lemma {:induction false} TakeOne(pods: seq<string>, n: nat, f: string -> real)
    requires Distinct(pods) && n < |pods|
    ensures Sum(Elements(pods[n..]), f) == f(pods[n]) + Sum(Elements(pods[n + 1..]), f)
  {
    hide Sum;
    assert pods[n..] == [pods[n]] + pods[n + 1..];
    assert Elements(pods[n..]) - {pods[n]} == Elements(pods[n + 1..]);
    SumRemove(Elements(pods[n..]), f, pods[n]);
  }

  lemma AllPods(pods: seq<string>, keys: set<string>)
    requires forall p :: p in pods <==> p in keys
    ensures Elements(pods[0..]) == keys && Elements(pods[|pods|..]) == {}
  {
    assert pods[0..] == pods;
  }

  /** calculateCounterRate: pods without a rate contribute nothing. */
  method CalculateCounterRate(held: Pods, now: int, lookback: int, series: Series, t: string) returns (total: real)
    ensures total == RateOver(held, now, lookback, series, t)
  {
    hide Sum, Window, RateOf;
    var pods := InSomeOrder(held.Keys);
    ghost var f := p => PodRateOf(held, p, now, lookback, series, t);
    total := 0.0;
    AllPods(pods, held.Keys);
    for n := 0 to |pods|
      invariant total + Sum(Elements(pods[n..]), f) == Sum(held.Keys, f)
    {
      TakeOne(pods, n, f);
      assert pods[n] in pods;
      var rate := PodRate(held[pods[n]], now, lookback, series, t);
      if rate.Some? {
        total := total + rate.value;
      }
    }
    SumZero({}, f);
  }

  /** CalculateInflightAvg */
  method CalculateInflightAvg(held: Pods, now: int, lookback: int, t: string) returns (total: real)
    ensures total == InflightOver(held, now, lookback, t)
  {
    hide Sum, Window, AverageOf;
    var pods := InSomeOrder(held.Keys);
    ghost var f := p => PodAverage(held, p, now, lookback, t);
    total := 0.0;
    AllPods(pods, held.Keys);
    for n := 0 to |pods|
      invariant total + Sum(Elements(pods[n..]), f) == Sum(held.Keys, f)
    {
      TakeOne(pods, n, f);
      assert pods[n] in pods;
      var avg := PodInflightAvg(held[pods[n]], now, lookback, t);
      if avg.Some? {
        total := total + avg.value;
      }
    }
    SumZero({}, f);
  }

  /** HasUsableHistory */
  method HasUsableHistory(held: Pods) returns (usable: bool)
    ensures usable <==> exists p :: p in held && |held[p]| >= 2
  {
    var pods := InSomeOrder(held.Keys);
    for n := 0 to |pods|
      invariant forall i :: 0 <= i < n ==> pods[i] in held && |held[pods[i]]| < 2
    {
      assert pods[n] in pods;
      if |held[pods[n]]| >= 2 {
        return true;
      }
    }
    usable := false;
  }

  function TransportsOf(s: PodSample): set<string> {
    s.requests.Keys + s.streamMessages.Keys + s.inflight.Keys
  }

  /** A sample has a value for the transport in one of its maps. */
  ghost predicate Carries(s: PodSample, t: string) {
    t in s.requests || t in s.streamMessages || t in s.inflight
  }

  ghost function TransportsIn(samples: seq<PodSample>): (ts: set<string>)
    ensures forall i :: 0 <= i < |samples| ==> TransportsOf(samples[i]) <= ts
  {
    if samples == [] then {} else TransportsIn(samples[..|samples| - 1]) + TransportsOf(samples[|samples| - 1])
  }

  lemma {:induction false} TransportsMean(samples: seq<PodSample>, t: string)
    ensures t in TransportsIn(samples) <==> exists i :: 0 <= i < |samples| && Carries(samples[i], t)
  {
    if samples != [] {
      var before, last := samples[..|samples| - 1], samples[|samples| - 1];
      TransportsMean(before, t);
      assert t in TransportsOf(last) <==> Carries(last, t);
      if i :| 0 <= i < |samples| && Carries(samples[i], t) {
        assert i < |before| ==> Carries(before[i], t);
      }
    }
  }

  /** Observed means that some sample of some pod has a value for it. */
  lemma {:induction false} ObservedMeans(held: Pods, t: string)
    ensures IsObserved(held, t) <==> exists p, i :: p in held && 0 <= i < |held[p]| && Carries(held[p][i], t)
  {
    hide TransportsIn, Carries;
    if IsObserved(held, t) {
      var p :| p in held && t in TransportsIn(held[p]);
      TransportsMean(held[p], t);
    }
    if p, i :| p in held && 0 <= i < |held[p]| && Carries(held[p][i], t) {
      TransportsMean(held[p], t);
    }
  }

  ghost predicate IsObserved(held: Pods, t: string) {
    exists p :: p in held && t in TransportsIn(held[p])
  }

  /** ObservedTransports: every transport of every sample held, each once. */
  method ObservedTransports(held: Pods) returns (out: seq<string>)
    ensures Distinct(out) && forall t :: t in out <==> IsObserved(held, t)
    ensures forall t :: t in out <==> exists p, i :: p in held && 0 <= i < |held[p]| && Carries(held[p][i], t)
  {
    hide TransportsIn;
    var pods := InSomeOrder(held.Keys);
    var seen: set<string> := {};
    for n := 0 to |pods|
      invariant forall t :: t in seen ==> IsObserved(held, t)
      invariant forall i :: 0 <= i < n ==> pods[i] in held && TransportsIn(held[pods[i]]) <= seen
    {
      assert pods[n] in pods;
      var here := CollectTransports(held[pods[n]]);
      seen := seen + here;
    }
    out := InSomeOrder(seen);
    forall t | IsObserved(held, t)
      ensures t in out
    {
      var p :| p in held && t in TransportsIn(held[p]);
      assert p in pods;
    }
    forall t
      ensures t in out <==> exists p, i :: p in held && 0 <= i < |held[p]| && Carries(held[p][i], t)
    {
      ObservedMeans(held, t);
    }
  }

  method CollectTransports(samples: seq<PodSample>) returns (seen: set<string>)
    ensures seen == TransportsIn(samples)
  {
    seen := {};
    for i := 0 to |samples|
      invariant seen == TransportsIn(samples[..i])
    {
      assert samples[..i + 1][..i] == samples[..i];
      seen := seen + TransportsOf(samples[i]);
    }
    assert samples[..|samples|] == samples;
  }

  /** A custom window never reaches back further than the retention. */
  function CustomSeconds(lookbackSeconds: int): int {
    if lookbackSeconds > 0 then Min(lookbackSeconds, RETENTION) else 0
  }

  /** The windows of a query: three fixed ones, and a custom one clamped to the retention. */
  function Windows(lookbackSeconds: int): (ws: seq<(string, int)>)
    ensures forall i :: 0 <= i < |ws| ==> 0 < ws[i].1 <= RETENTION
    ensures forall i, j :: 0 <= i < j < |ws| ==> ws[i].0 != ws[j].0
  {
    [("1m", 60), ("5m", 300), ("15m", 900)]
    + if lookbackSeconds > 0 then [("custom", CustomSeconds(lookbackSeconds))] else []
  }

  datatype PerWindow = PerWindow(rates: map<string, real>, streamRates: map<string, real>, inflights: map<string, real>)

  /** `customSeconds` is the effective length of the custom window, 0 without one. */
  datatype WindowedResult = WindowedResult(total: PerWindow, perTransport: map<string, PerWindow>, customSeconds: int)

  datatype Answered = UnknownAgentDeploy | NoData | Ok(result: WindowedResult)

  /** The first `n` windows of a transport are filled in from `pods`. */
  ghost predicate Filled(v: PerWindow, pods: Pods, now: int, ws: seq<(string, int)>, n: nat, t: string)
    requires n <= |ws|
  {
    forall i :: 0 <= i < n ==>
      var (key, lookback) := ws[i];
      && key in v.rates && v.rates[key] == RateOver(pods, now, lookback, Requests, t)
      && key in v.streamRates && v.streamRates[key] == RateOver(pods, now, lookback, StreamMessages, t)
      && key in v.inflights && v.inflights[key] == InflightOver(pods, now, lookback, t)
  }

  /** `key` is one of the first n windows. */
  ghost predicate HasKey(ws: seq<(string, int)>, n: nat, key: string)
    requires n <= |ws|
  {
    exists i :: 0 <= i < n && ws[i].0 == key
  }

  /** The maps have exactly the first n windows as keys. */
  ghost predicate Keyed(v: PerWindow, ws: seq<(string, int)>, n: nat)
    requires n <= |ws|
  {
    forall key ::
      && (key in v.rates <==> HasKey(ws, n, key))
      && (key in v.streamRates <==> HasKey(ws, n, key))
      && (key in v.inflights <==> HasKey(ws, n, key))
  }

  lemma {:induction false} KeyedStep(v: PerWindow, v': PerWindow, ws: seq<(string, int)>, n: nat)
    requires n < |ws| && Keyed(v, ws, n)
    requires v'.rates.Keys == v.rates.Keys + {ws[n].0} && v'.streamRates.Keys == v.streamRates.Keys + {ws[n].0}
    requires v'.inflights.Keys == v.inflights.Keys + {ws[n].0}
    ensures Keyed(v', ws, n + 1)
  {
    hide HasKey;
    OneMoreKey(ws, n);
  }

  method FillWindows(held: Pods, now: int, ws: seq<(string, int)>, t: string) returns (v: PerWindow)
    requires forall i, j :: 0 <= i < j < |ws| ==> ws[i].0 != ws[j].0
    ensures Filled(v, held, now, ws, |ws|, t) && Keyed(v, ws, |ws|)
  {
    hide RateOver, InflightOver, Keyed;
    v := PerWindow(map[], map[], map[]);
    NoKeys(v, ws);
    for n := 0 to |ws|
      invariant Filled(v, held, now, ws, n, t)
      invariant Keyed(v, ws, n)
    {
      ghost var before := v;
      var (key, lookback) := ws[n];
      var rate := CalculateCounterRate(held, now, lookback, Requests, t);
      var streamRate := CalculateCounterRate(held, now, lookback, StreamMessages, t);
      var inflight := CalculateInflightAvg(held, now, lookback, t);
      v := PerWindow(v.rates[key := rate], v.streamRates[key := streamRate], v.inflights[key := inflight]);
      KeyedStep(before, v, ws, n);
    }
  }

  lemma NoKeys(v: PerWindow, ws: seq<(string, int)>)
    requires v == PerWindow(map[], map[], map[])
    ensures Keyed(v, ws, 0)
  {
  }

  lemma OneMoreKey(ws: seq<(string, int)>, n: nat)
    requires n < |ws|
    ensures forall key :: HasKey(ws, n + 1, key) <==> HasKey(ws, n, key) || key == ws[n].0
  {
    forall key
      ensures HasKey(ws, n + 1, key) <==> HasKey(ws, n, key) || key == ws[n].0
    {
      if HasKey(ws, n, key) {
        var i :| 0 <= i < n && ws[i].0 == key;
        assert 0 <= i < n + 1;
      }
    }
  }

  /** The buffers as a query sees them: the last MAX_SAMPLES samples of every pod. */
  method ReadBuffers(b: AgentDeployBuffers) returns (held: Pods)
    requires b.Valid()
    ensures held == Kept(b.History())
  {
    hide LastOf;
    held := map p | p in b.byPod :: b.byPod[p].elements;
  }

  /** What GetMetrics answers for these samples. */
  ghost predicate IsAnswer(r: WindowedResult, held: Pods, now: int, ws: seq<(string, int)>) {
    && Filled(r.total, held, now, ws, |ws|, TOTAL) && Keyed(r.total, ws, |ws|)
    && (forall t :: t in r.perTransport <==> IsObserved(held, t))
    && forall t :: t in r.perTransport ==>
         Filled(r.perTransport[t], held, now, ws, |ws|, t) && Keyed(r.perTransport[t], ws, |ws|)
  }

  /** What the three maps say under a key: two rates and an average over the last `lookback` seconds. */
  ghost predicate Says(v: PerWindow, key: string, held: Pods, now: int, lookback: int, t: string) {
    && key in v.rates && v.rates[key] == RateOver(held, now, lookback, Requests, t)
    && key in v.streamRates && v.streamRates[key] == RateOver(held, now, lookback, StreamMessages, t)
    && key in v.inflights && v.inflights[key] == InflightOver(held, now, lookback, t)
  }

  /** One minute, five minutes, a quarter of an hour, and the custom window, at most half an hour, if asked for. */
  ghost predicate SpelledOut(v: PerWindow, held: Pods, now: int, lookbackSeconds: int, t: string) {
    && Says(v, "1m", held, now, 60, t) && Says(v, "5m", held, now, 300, t) && Says(v, "15m", held, now, 900, t)
    && (lookbackSeconds > 0 ==>
          Says(v, "custom", held, now, if lookbackSeconds < 1800 then lookbackSeconds else 1800, t))
    && (lookbackSeconds <= 0 ==> "custom" !in v.rates && "custom" !in v.streamRates && "custom" !in v.inflights)
    && (forall key :: key in v.rates ==> key in {"1m", "5m", "15m", "custom"})
  }

  lemma {:induction false} SpellOut(v: PerWindow, held: Pods, now: int, lookbackSeconds: int, t: string)
    requires var ws := Windows(lookbackSeconds); Filled(v, held, now, ws, |ws|, t) && Keyed(v, ws, |ws|)
    ensures SpelledOut(v, held, now, lookbackSeconds, t)
  {
    hide RateOver, InflightOver;
    var ws := Windows(lookbackSeconds);
    assert ws[0] == ("1m", 60) && ws[1] == ("5m", 300) && ws[2] == ("15m", 900);
    assert lookbackSeconds > 0 ==> ws[3].0 == "custom";
  }

  /**
   GetMetrics: an error for an AgentDeploy without buffers or without a pod that has two samples; otherwise every
   window of the total and of every observed transport.
   */
  method GetMetrics(buffers: map<string, AgentDeployBuffers>, name: string, now: int, lookbackSeconds: int)
    returns (r: Answered)
    requires name in buffers ==> buffers[name].Valid()
    ensures r.UnknownAgentDeploy? <==> name !in buffers
    ensures name in buffers ==>
              var held := Kept(buffers[name].History());
              && (r.Ok? <==> exists p :: p in held && |held[p]| >= 2)
              && (r.Ok? ==>
                    && IsAnswer(r.result, held, now, Windows(lookbackSeconds))
                    && SpelledOut(r.result.total, held, now, lookbackSeconds, "__total__")
                    && forall t :: t in r.result.perTransport ==>
                         SpelledOut(r.result.perTransport[t], held, now, lookbackSeconds, t))
    ensures r.Ok? && lookbackSeconds > 0 ==>
              r.result.customSeconds == if lookbackSeconds < 1800 then lookbackSeconds else 1800
    ensures r.Ok? && lookbackSeconds <= 0 ==> r.result.customSeconds == 0
  {
    hide Kept, IsAnswer, Windows, SpelledOut;
    if name !in buffers {
      return UnknownAgentDeploy;
    }
    var held := ReadBuffers(buffers[name]);
    var usable := HasUsableHistory(held);
    if !usable {
      return NoData;
    }
    var answer := Answer(held, now, Windows(lookbackSeconds), CustomSeconds(lookbackSeconds));
    SpellOutAll(answer, held, now, lookbackSeconds);
    r := Ok(answer);
  }

  lemma {:induction false} SpellOutAll(r: WindowedResult, held: Pods, now: int, lookbackSeconds: int)
    requires IsAnswer(r, held, now, Windows(lookbackSeconds))
    ensures SpelledOut(r.total, held, now, lookbackSeconds, "__total__")
    ensures forall t :: t in r.perTransport ==> SpelledOut(r.perTransport[t], held, now, lookbackSeconds, t)
  {
    hide Filled, Keyed, SpelledOut, Windows, IsObserved;
    SpellOut(r.total, held, now, lookbackSeconds, TOTAL);
    forall t | t in r.perTransport
      ensures SpelledOut(r.perTransport[t], held, now, lookbackSeconds, t)
    {
      SpellOut(r.perTransport[t], held, now, lookbackSeconds, t);
    }
  }

  method Answer(held: Pods, now: int, ws: seq<(string, int)>, custom: int) returns (r: WindowedResult)
    requires forall i, j :: 0 <= i < j < |ws| ==> ws[i].0 != ws[j].0
    ensures IsAnswer(r, held, now, ws) && r.customSeconds == custom
  {
    hide Filled, Keyed, IsObserved;
    var transports := ObservedTransports(held);
    var total := FillWindows(held, now, ws, TOTAL);
    var perTransport: map<string, PerWindow> := map[];
    for n := 0 to |transports|
      invariant forall t :: t in perTransport <==> t in transports[..n]
      invariant forall t :: t in perTransport ==>
                  Filled(perTransport[t], held, now, ws, |ws|, t) && Keyed(perTransport[t], ws, |ws|)
    {
      var v := FillWindows(held, now, ws, transports[n]);
      assert transports[..n + 1] == transports[..n] + [transports[n]];
      perTransport := perTransport[transports[n] := v];
    }
    assert transports[..|transports|] == transports;
    r := WindowedResult(total, perTransport, custom);
  }

  /** The map of an answer that reports a series. */
  function Column(v: PerWindow, series: Series): map<string, real> {
    match series
    case Requests => v.rates
    case StreamMessages => v.streamRates
    case Inflight => v.inflights
  }

  /** What an answer says about a transport for the window `key`. */
  ghost function Cell(r: WindowedResult, series: Series, key: string, t: string): real {
    if t in r.perTransport then At(Column(r.perTransport[t], series), key) else 0.0
  }

  ghost function Over(pods: Pods, now: int, lookback: int, series: Series, t: string): real {
    if series.Inflight? then InflightOver(pods, now, lookback, t) else RateOver(pods, now, lookback, series, t)
  }

  lemma {:induction false} FilledCell(
      v: PerWindow, pods: Pods, now: int, ws: seq<(string, int)>, i: nat, series: Series, t: string)
    requires i < |ws| && Filled(v, pods, now, ws, |ws|, t)
    ensures ws[i].0 in Column(v, series) && At(Column(v, series), ws[i].0) == Over(pods, now, ws[i].1, series, t)
  {
    hide RateOver, InflightOver;
  }

  /**
   In every answer of GetMetrics over samples without a transport called like the total, the total of each window
   is the sum of the per-transport values: always for in-flight requests, and for a rate up to what the resets
   within the windows of the pods miscount, which is nothing when no transport drops.
   */
  lemma {:induction false} AnswerAddsUp(
      held: Pods, now: int, lookbackSeconds: int, r: WindowedResult, i: nat, series: Series)
    requires i < |Windows(lookbackSeconds)| && IsAnswer(r, held, now, Windows(lookbackSeconds))
    requires TOTAL !in r.perTransport
    ensures var (key, lookback) := Windows(lookbackSeconds)[i];
            && key in Column(r.total, series)
            && Column(r.total, series)[key]
               == Sum(r.perTransport.Keys, t => Cell(r, series, key, t))
                  + if series.Inflight? then 0.0 else MiscountOver(held, now, lookback, series, r.perTransport.Keys)
    ensures NoResets(held, now, Windows(lookbackSeconds)[i].1, series, r.perTransport.Keys) ==>
              MiscountOver(held, now, Windows(lookbackSeconds)[i].1, series, r.perTransport.Keys) == 0.0
  {
    hide RateOver, InflightOver, MiscountOver, Sum, IsObserved, Filled, NoResets, Windows;
    var ws, transports := Windows(lookbackSeconds), r.perTransport.Keys;
    var (key, lookback) := ws[i];
    FilledCell(r.total, held, now, ws, i, series, TOTAL);
    forall t | t in transports
      ensures Over(held, now, lookback, series, t) == Cell(r, series, key, t)
    {
      FilledCell(r.perTransport[t], held, now, ws, i, series, t);
    }
    HeldCovered(held, series, transports);
    if series.Inflight? {
      InflightTotals(held, now, lookback, transports);
      SumSame(transports, t => InflightOver(held, now, lookback, t), t => Cell(r, series, key, t));
    } else {
      RateTotals(held, now, lookback, series, transports);
      SumSame(transports, t => RateOver(held, now, lookback, series, t), t => Cell(r, series, key, t));
    }
    if NoResets(held, now, lookback, series, transports) {
      NoMiscount(held, now, lookback, series, transports);
    }
  }

  lemma {:induction false} PacedFilled(v: PerWindow, history: Pods, now: int, ws: seq<(string, int)>, t: string)
    requires forall p :: p in history ==> Paced(history[p], now)
    requires forall i :: 0 <= i < |ws| ==> ws[i].1 <= RETENTION
    requires Filled(v, Kept(history), now, ws, |ws|, t)
    ensures Filled(v, history, now, ws, |ws|, t)
  {
    hide RateOver, InflightOver, Paced, Kept;
    forall i | 0 <= i < |ws|
      ensures RateOver(Kept(history), now, ws[i].1, Requests, t) == RateOver(history, now, ws[i].1, Requests, t)
      ensures RateOver(Kept(history), now, ws[i].1, StreamMessages, t)
              == RateOver(history, now, ws[i].1, StreamMessages, t)
      ensures InflightOver(Kept(history), now, ws[i].1, t) == InflightOver(history, now, ws[i].1, t)
    {
      PacedQueries(history, now, ws[i].1, Requests, t);
      PacedQueries(history, now, ws[i].1, StreamMessages, t);
    }
  }

  /** Over paced histories every value of an answer is the one the full append history would give. */
  lemma {:induction false} AnswerMatchesHistory(history: Pods, now: int, lookbackSeconds: int, r: WindowedResult)
    requires IsAnswer(r, Kept(history), now, Windows(lookbackSeconds))
    requires forall p :: p in history ==> Paced(history[p], now)
    ensures var ws := Windows(lookbackSeconds);
            && Filled(r.total, history, now, ws, |ws|, TOTAL)
            && forall t :: t in r.perTransport ==> Filled(r.perTransport[t], history, now, ws, |ws|, t)
  {
    hide Filled, Windows, Kept, Paced, IsObserved;
    var ws := Windows(lookbackSeconds);
    PacedFilled(r.total, history, now, ws, TOTAL);
    forall t | t in r.perTransport
      ensures Filled(r.perTransport[t], history, now, ws, |ws|, t)
    {
      PacedFilled(r.perTransport[t], history, now, ws, t);
    }
  }

  lemma {:induction false} HeldCovered(held: Pods, series: Series, transports: set<string>)
    requires TOTAL !in transports && forall t :: IsObserved(held, t) ==> t in transports
    ensures AllCovered(held, series, transports)
  {
    forall p, i | p in held && 0 <= i < |held[p]|
      ensures Of(held[p][i], series).Keys <= transports
    {
      forall t | t in TransportsOf(held[p][i])
        ensures t in transports
      {
        assert t in TransportsIn(held[p]);
        assert IsObserved(held, t);
      }
    }
  }
}
