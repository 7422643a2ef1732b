/**
 Admission control of the broker: the semaphore and its fleet-wide slicing
 (pkg/broker/ratelimit/semaphore.go, pkg/broker/ratelimit/dns_count.go) and the order in which requests take a
 slot, move the gauge and the counters, and give the slot back (pkg/broker/metrics.go, pkg/broker/proxy_grpc.go).
 */
module Admission {
  import opened Prelude

  // ---------------------------------------------------------------- the semaphore

  class Semaphore {
    var held: int
    var limit: int

    constructor (limit: int)
      ensures held == 0 && this.limit == limit
    {
      held, this.limit := 0, limit;
    }

    /** Never blocks: a slot if one is free under the current limit. */
    method Acquire() returns (ok: bool)
      modifies this`held
      ensures ok <==> old(held) < limit
      ensures held == old(held) + if ok then 1 else 0
    {
      if held >= limit {
        return false;
      }
      held := held + 1;
      ok := true;
    }

    method Release()
      modifies this`held
      ensures held == if old(held) > 0 then old(held) - 1 else old(held)
    {
      if held > 0 {
        held := held - 1;
      }
    }

    /** Slots already held are untouched. */
    method SetLimit(limit: int)
      modifies this`limit
      ensures this.limit == limit
    {
      this.limit := limit;
    }
  }

  // ---------------------------------------------------------------- the fleet

  /** sliceFor: the cap over the replicas, rounded up. */
  function SliceFor(maxInFlight: nat, replicas: nat): (slice: nat)
    ensures maxInFlight >= 1 ==> 1 <= slice <= maxInFlight
  {
    if replicas <= 1 then maxInFlight
    else
      CeilBounds(maxInFlight, replicas);
      (maxInFlight + replicas - 1) / replicas
  }

  lemma Scale(a: nat, b: nat, r: nat)
    requires a <= b
    ensures a * r <= b * r
  {
  }

  lemma {:induction false} CeilBounds(m: nat, r: nat)
    requires r >= 1
    ensures var q := (m + r - 1) / r; m <= q * r <= m + r - 1
    ensures m >= 1 ==> 1 <= (m + r - 1) / r <= m
  {
    var q, rem := (m + r - 1) / r, (m + r - 1) % r;
    assert q * r + rem == m + r - 1;
    assert (m + 1) * r == r * m + r;
    Scale(1, r, m);
    if q > m {
      Scale(m + 1, q, r);
    }
  }

  /** A slice is the least share that covers the cap. */
  lemma {:induction false} SliceBounds(m: nat, r: nat)
    requires r >= 1
    ensures m <= SliceFor(m, r) * r <= m + r - 1
  {
    CeilBounds(m, r);
  }

  function Total(counts: seq<nat>): nat {
    if counts == [] then 0 else counts[0] + Total(counts[1..])
  }

  lemma {:induction false} TotalBound(counts: seq<nat>, each: nat)
    requires forall i :: 0 <= i < |counts| ==> counts[i] <= each
    ensures Total(counts) <= each * |counts|
  {
    if counts != [] {
      TotalBound(counts[1..], each);
      assert each * |counts| == each + each * (|counts| - 1);
    }
  }

  /** r brokers within their slices hold at most m + r - 1 requests, and their slices together cover the cap. */
  lemma {:induction false} FleetBound(maxInFlight: nat, held: seq<nat>)
    requires |held| >= 1 && forall i :: 0 <= i < |held| ==> held[i] <= SliceFor(maxInFlight, |held|)
    ensures Total(held) <= maxInFlight + |held| - 1
    ensures SliceFor(maxInFlight, |held|) * |held| >= maxInFlight
  {
    var r := |held|;
    TotalBound(held, SliceFor(maxInFlight, r));
    CeilBounds(maxInFlight, r);
  }

  // ---------------------------------------------------------------- requests

  /** The transports that share the limiter. */
  datatype Transport = JsonRpc | Rest | Grpc

  /** Where a request is; deferred calls run last to first, so the gauge falls before the slot is given back. */
  datatype Phase =
    | Refused     // no slot; the rejected counter is still to be raised
    | Rejected
    | Admitted    // holds a slot
    | InFlight    // and is counted by the gauge
    | Closing     // no longer counted by the gauge
    | Counted     // and counted as handled
    | Finished    // the slot is given back

  datatype Request = Request(transport: Transport, phase: Phase)

  datatype State = State(
    held: int,
    limit: int,
    requests: map<nat, Request>,
    gauge: map<Transport, int>,
    rejected: map<Transport, int>,
    handled: map<Transport, int>)

  datatype Step =
    | Arrive(id: nat, transport: Transport)
    | CountRejected(id: nat)
    | RaiseGauge(id: nat)
    | LowerGauge(id: nat)
    | CountHandled(id: nat)
    | Release(id: nat)
    | Recount(replicas: Option<nat>)

  ghost predicate At(s: State, id: nat, phase: Phase) {
    id in s.requests && s.requests[id].phase == phase
  }

  ghost predicate Enabled(s: State, step: Step) {
    match step
    case Arrive(id, _) => id !in s.requests
    case CountRejected(id) => At(s, id, Refused)
    case RaiseGauge(id) => At(s, id, Admitted)
    case LowerGauge(id) => At(s, id, InFlight)
    case CountHandled(id) => At(s, id, Closing)
    case Release(id) => At(s, id, Counted)
    case Recount(_) => true
  }

  ghost predicate Wired(s: State) {
    forall t: Transport :: t in s.gauge && t in s.rejected && t in s.handled
  }

  ghost function Move(s: State, id: nat, phase: Phase): State
    requires id in s.requests
  {
    s.(requests := s.requests[id := s.requests[id].(phase := phase)])
  }

  ghost function Next(s: State, step: Step, maxInFlight: nat): State
    requires Enabled(s, step) && Wired(s)
  {
    match step
    case Arrive(id, t) =>
      if s.held < s.limit then s.(held := s.held + 1, requests := s.requests[id := Request(t, Admitted)])
      else s.(requests := s.requests[id := Request(t, Refused)])
    case CountRejected(id) =>
      var t := s.requests[id].transport;
      Move(s, id, Rejected).(rejected := s.rejected[t := s.rejected[t] + 1])
    case RaiseGauge(id) =>
      var t := s.requests[id].transport;
      Move(s, id, InFlight).(gauge := s.gauge[t := s.gauge[t] + 1])
    case LowerGauge(id) =>
      var t := s.requests[id].transport;
      Move(s, id, Closing).(gauge := s.gauge[t := s.gauge[t] - 1])
    case CountHandled(id) =>
      var t := s.requests[id].transport;
      Move(s, id, Counted).(handled := s.handled[t := s.handled[t] + 1])
    case Release(id) => Move(s, id, Finished).(held := if s.held > 0 then s.held - 1 else s.held)
    case Recount(None) => s
    case Recount(Some(replicas)) => s.(limit := SliceFor(maxInFlight, replicas))
  }

  predicate Belongs(r: Request, phases: set<Phase>, t: Option<Transport>) {
    r.phase in phases && (t.Some? ==> r.transport == t.value)
  }

  /** The requests in one of the given phases, of one transport if there is one. */
  ghost function In(requests: map<nat, Request>, phases: set<Phase>, t: Option<Transport>): set<nat> {
    set id | id in requests && Belongs(requests[id], phases, t)
  }

  const HOLDING: set<Phase> := {Admitted, InFlight, Closing, Counted}
  const DONE: set<Phase> := {Counted, Finished}
  const PENDING: set<Phase> := {Refused, Admitted, InFlight, Closing}

  /** The metrics of one transport agree with where its requests are. */
  ghost predicate Metered(s: State, t: Transport) {
    && t in s.gauge && s.gauge[t] == |In(s.requests, {InFlight}, Some(t))|
    && t in s.rejected && s.rejected[t] == |In(s.requests, {Rejected}, Some(t))|
    && t in s.handled && s.handled[t] == |In(s.requests, DONE, Some(t))|
  }

  ghost predicate Inv(s: State, maxInFlight: nat) {
    && Wired(s)
    && s.limit <= maxInFlight
    && s.held == |In(s.requests, HOLDING, None)| <= maxInFlight
    && (forall t: Transport :: Metered(s, t))
  }

  ghost predicate Initial(s: State, maxInFlight: nat) {
    && s.held == 0 && s.limit == maxInFlight && s.requests == map[]
    && Wired(s) && forall t: Transport :: s.gauge[t] == s.rejected[t] == s.handled[t] == 0
  }

  lemma {:induction false} InBut(requests: map<nat, Request>, id: nat, phases: set<Phase>, t: Option<Transport>)
    ensures |In(requests, phases, t)|
            == |In(requests, phases, t) - {id}| + if id in requests && Belongs(requests[id], phases, t) then 1 else 0
  {
    hide Belongs;
    var all := In(requests, phases, t);
    if id in all {
      assert all == (all - {id}) + {id};
    } else {
      assert all == all - {id};
    }
  }

  /** A request that changes phase enters and leaves exactly the groups it should. */
  lemma {:induction false} Moved(
      before: map<nat, Request>, id: nat, r: Request, phases: set<Phase>, t: Option<Transport>)
    ensures |In(before[id := r], phases, t)|
            == |In(before, phases, t)| + (if Belongs(r, phases, t) then 1 else 0)
               - (if id in before && Belongs(before[id], phases, t) then 1 else 0)
  {
    hide Belongs;
    assert In(before[id := r], phases, t) - {id} == In(before, phases, t) - {id};
    InBut(before, id, phases, t);
    InBut(before[id := r], id, phases, t);
  }

  lemma {:induction false} HeldNext(s: State, step: Step, maxInFlight: nat)
    requires Inv(s, maxInFlight) && Enabled(s, step) && maxInFlight >= 1
    ensures var s' := Next(s, step, maxInFlight);
            && Wired(s') && s'.limit <= maxInFlight && s'.held == |In(s'.requests, HOLDING, None)| <= maxInFlight
  {
    hide In;
    if !step.Recount? {
      var s' := Next(s, step, maxInFlight);
      var r := s'.requests[step.id];
      assert s'.requests == s.requests[step.id := r];
      Moved(s.requests, step.id, r, HOLDING, None);
    }
  }

  lemma {:induction false} CountersNext(s: State, step: Step, maxInFlight: nat, t: Transport)
    requires Wired(s) && Metered(s, t) && Enabled(s, step)
    ensures Metered(Next(s, step, maxInFlight), t)
  {
    hide In, SliceFor;
    if !step.Recount? {
      var s' := Next(s, step, maxInFlight);
      var r := s'.requests[step.id];
      assert s'.requests == s.requests[step.id := r];
      Moved(s.requests, step.id, r, {InFlight}, Some(t));
      Moved(s.requests, step.id, r, {Rejected}, Some(t));
      Moved(s.requests, step.id, r, DONE, Some(t));
    }
  }

  lemma {:induction false} InvNext(s: State, step: Step, maxInFlight: nat)
    requires Inv(s, maxInFlight) && Enabled(s, step) && maxInFlight >= 1
    ensures Inv(Next(s, step, maxInFlight), maxInFlight)
  {
    hide In, Next;
    HeldNext(s, step, maxInFlight);
    forall t: Transport {
      CountersNext(s, step, maxInFlight, t);
    }
  }

  ghost predicate IsRun(states: seq<State>, steps: seq<Step>, maxInFlight: nat) {
    && |states| == |steps| + 1 && Initial(states[0], maxInFlight)
    && forall k :: 0 <= k < |steps| ==>
         Wired(states[k]) && Enabled(states[k], steps[k]) && states[k + 1] == Next(states[k], steps[k], maxInFlight)
  }

  lemma {:induction false} InvAlways(states: seq<State>, steps: seq<Step>, maxInFlight: nat, k: nat)
    requires IsRun(states, steps, maxInFlight) && maxInFlight >= 1 && k <= |steps|
    ensures Inv(states[k], maxInFlight)
  {
    if k == 0 {
      assert forall phases, t :: In(states[0].requests, phases, t) == {};
    } else {
      InvAlways(states, steps, maxInFlight, k - 1);
      InvNext(states[k - 1], steps[k - 1], maxInFlight);
    }
  }

  ghost function Arrivals(s: State, t: Transport): nat {
    |set id | id in s.requests && s.requests[id].transport == t|
  }

  /**
   Over all interleavings of requests and recounts: held slots are the admitted requests not yet released and
   stay within the cap, the gauges never exceed the held slots, and every arrival of a transport is rejected,
   pending or handled.
   */
  lemma {:induction false} AdmissionSafety(states: seq<State>, steps: seq<Step>, maxInFlight: nat, k: nat)
    requires IsRun(states, steps, maxInFlight) && maxInFlight >= 1 && k <= |steps|
    ensures var s := states[k];
            && Wired(s)
            && s.held == |In(s.requests, HOLDING, None)| <= maxInFlight
            && s.gauge[JsonRpc] + s.gauge[Rest] + s.gauge[Grpc] <= s.held
            && forall t :: Arrivals(s, t) == s.rejected[t] + |In(s.requests, PENDING, Some(t))| + s.handled[t]
  {
    InvAlways(states, steps, maxInFlight, k);
    var s := states[k];
    GaugesWithinHeld(s.requests);
    assert Metered(s, JsonRpc) && Metered(s, Rest) && Metered(s, Grpc);
    forall t
      ensures Arrivals(s, t) == s.rejected[t] + |In(s.requests, PENDING, Some(t))| + s.handled[t]
    {
      Partition(s, t);
      assert Metered(s, t);
    }
  }

  lemma {:induction false} GaugesWithinHeld(requests: map<nat, Request>)
    ensures |In(requests, {InFlight}, Some(JsonRpc))| + |In(requests, {InFlight}, Some(Rest))|
            + |In(requests, {InFlight}, Some(Grpc))| <= |In(requests, HOLDING, None)|
  {
    var a, b := In(requests, {InFlight}, Some(JsonRpc)), In(requests, {InFlight}, Some(Rest));
    var c := In(requests, {InFlight}, Some(Grpc));
    assert a !! b && (a + b) !! c;
    assert |a + b + c| == |a| + |b| + |c|;
    SubsetSize(a + b + c, In(requests, HOLDING, None));
  }

  lemma {:induction false} Partition(s: State, t: Transport)
    ensures Arrivals(s, t) == |In(s.requests, {Rejected}, Some(t))| + |In(s.requests, PENDING, Some(t))|
                              + |In(s.requests, DONE, Some(t))|
  {
    var a, b := In(s.requests, {Rejected}, Some(t)), In(s.requests, PENDING, Some(t));
    var c := In(s.requests, DONE, Some(t));
    assert a !! b && (a + b) !! c;
    forall id | id in s.requests && s.requests[id].transport == t
      ensures id in a + b + c
    {
      match s.requests[id].phase
      case Rejected => assert id in a;
      case Counted => assert id in c;
      case Finished => assert id in c;
      case _ => assert id in b;
    }
    assert (set id | id in s.requests && s.requests[id].transport == t) == a + b + c;
  }

  // ---------------------------------------------------------------- the fleet over runs

  ghost predicate NoRecount(steps: seq<Step>, j: nat, k: nat)
    requires j <= k <= |steps|
  {
    forall n :: j <= n < k ==> !steps[n].Recount?
  }

  ghost function Holding(s: State): set<nat> {
    In(s.requests, HOLDING, None)
  }

  /** Between recounts a slot is taken only below the limit; every other step leaves the holders or takes one away. */
  lemma {:induction false} HoldingStep(s: State, step: Step, maxInFlight: nat)
    requires Wired(s) && Enabled(s, step) && !step.Recount?
    ensures var s' := Next(s, step, maxInFlight);
            && s'.limit == s.limit
            && (s'.held <= s.limit || (s'.held <= s.held && Holding(s') <= Holding(s)))
            && (s.held > s.limit ==> s'.held <= s.held && Holding(s') <= Holding(s))
            && (s.held <= s.limit ==> s'.held <= s.limit)
  {
    var s' := Next(s, step, maxInFlight);
    if !(step.Arrive? && s.held < s.limit) {
      forall id | id in Holding(s')
        ensures id in Holding(s)
      {
        assert id != step.id ==> s'.requests[id] == s.requests[id];
      }
    }
  }

  /**
   Since a recount, a broker either is within its limit or serves only requests that it already held at the
   recount. So it never holds more than the larger of the limit and what it held then.
   */
  lemma {:induction false} SinceRecount(states: seq<State>, steps: seq<Step>, maxInFlight: nat, j: nat, k: nat)
    requires IsRun(states, steps, maxInFlight) && maxInFlight >= 1 && j <= k <= |steps| && NoRecount(steps, j, k)
    ensures states[k].limit == states[j].limit
    ensures states[k].held <= states[j].limit || Holding(states[k]) <= Holding(states[j])
    ensures states[k].held <= states[j].limit || states[k].held <= states[j].held
  {
    hide In, Next, Enabled, Initial;
    if j < k {
      SinceRecount(states, steps, maxInFlight, j, k - 1);
      HoldingStep(states[k - 1], steps[k - 1], maxInFlight);
    }
  }

  /** A broker at `now` that has recounted r replicas, and has finished what it held at that recount. */
  datatype BrokerRun = BrokerRun(states: seq<State>, steps: seq<Step>, recount: nat, now: nat)

  ghost predicate Settled(b: BrokerRun, maxInFlight: nat, replicas: nat) {
    && IsRun(b.states, b.steps, maxInFlight) && b.recount < b.now <= |b.steps|
    && b.steps[b.recount] == Recount(Some(replicas)) && NoRecount(b.steps, b.recount + 1, b.now)
    && Holding(b.states[b.recount]) !! Holding(b.states[b.now])
  }

  lemma {:induction false} SettledIsWithinSlice(b: BrokerRun, maxInFlight: nat, replicas: nat)
    requires Settled(b, maxInFlight, replicas) && maxInFlight >= 1
    ensures HeldNow(b, maxInFlight, replicas) == b.states[b.now].held <= SliceFor(maxInFlight, replicas)
  {
    hide In, Inv, SliceFor;
    var s, s' := b.states[b.recount], b.states[b.recount + 1];
    assert s' == Next(s, Recount(Some(replicas)), maxInFlight);
    assert Holding(s') == Holding(s) && s'.limit == SliceFor(maxInFlight, replicas);
    SinceRecount(b.states, b.steps, maxInFlight, b.recount + 1, b.now);
    AdmissionSafety(b.states, b.steps, maxInFlight, b.now);
    if Holding(b.states[b.now]) <= Holding(s') {
      assert Holding(b.states[b.now]) == {};
    }
  }

  ghost function HeldNow(b: BrokerRun, maxInFlight: nat, replicas: nat): nat
    requires Settled(b, maxInFlight, replicas)
  {
    |Holding(b.states[b.now])|
  }

  /** What each broker of a fleet holds. */
  ghost function HeldBy(fleet: seq<BrokerRun>, maxInFlight: nat): (held: seq<nat>)
    requires forall i :: 0 <= i < |fleet| ==> Settled(fleet[i], maxInFlight, |fleet|)
    ensures |held| == |fleet|
    ensures forall i :: 0 <= i < |fleet| ==> held[i] == HeldNow(fleet[i], maxInFlight, |fleet|)
  {
    seq(|fleet|, i requires 0 <= i < |fleet| => HeldNow(fleet[i], maxInFlight, |fleet|))
  }

  /**
   r brokers, each in a run of its own, that have all counted r replicas and finished what they held before, serve
   at most maxInFlight + r - 1 requests together.
   */
  lemma {:induction false} FleetBoundOverRuns(maxInFlight: nat, fleet: seq<BrokerRun>)
    requires maxInFlight >= 1 && |fleet| >= 1
    requires forall i :: 0 <= i < |fleet| ==> Settled(fleet[i], maxInFlight, |fleet|)
    ensures Total(HeldBy(fleet, maxInFlight)) <= maxInFlight + |fleet| - 1
  {
    hide Settled, SliceFor, Total;
    forall i | 0 <= i < |fleet|
      ensures HeldBy(fleet, maxInFlight)[i] <= SliceFor(maxInFlight, |fleet|)
    {
      SettledIsWithinSlice(fleet[i], maxInFlight, |fleet|);
    }
    FleetBound(maxInFlight, HeldBy(fleet, maxInFlight));
  }

  // ---------------------------------------------------------------- the handlers

  lemma EveryTransport(m: map<Transport, int>)
    requires m == map[JsonRpc := 0, Rest := 0, Grpc := 0]
    ensures forall t: Transport :: t in m && m[t] == 0
  {
    forall t: Transport
      ensures t in m && m[t] == 0
    {
      match t
      case JsonRpc =>
      case Rest =>
      case Grpc =>
    }
  }

  /** Raising and lowering the gauge cancel out. */
  lemma {:induction false} GaugeUpAndDown(s: State, id: nat, maxInFlight: nat)
    requires Wired(s) && At(s, id, Admitted)
    ensures var up := Next(s, RaiseGauge(id), maxInFlight);
            && Wired(up) && At(up, id, InFlight) && up.requests[id].transport == s.requests[id].transport
            && Next(up, LowerGauge(id), maxInFlight) == Move(s, id, Closing)
  {
    var up := Next(s, RaiseGauge(id), maxInFlight);
    assert Next(up, LowerGauge(id), maxInFlight).gauge == s.gauge;
    assert Next(up, LowerGauge(id), maxInFlight).requests == Move(s, id, Closing).requests;
  }

  lemma {:induction false} CountAndRelease(s: State, id: nat, maxInFlight: nat)
    requires Wired(s) && At(s, id, Closing) && s.held > 0
    ensures var t := s.requests[id].transport;
            var counted := Next(s, CountHandled(id), maxInFlight);
            && Wired(counted) && At(counted, id, Counted)
            && Next(counted, Step.Release(id), maxInFlight)
               == Move(s, id, Finished).(held := s.held - 1, handled := s.handled[t := s.handled[t] + 1])
  {
    var counted := Next(s, CountHandled(id), maxInFlight);
    assert Next(counted, Step.Release(id), maxInFlight).requests == Move(s, id, Finished).requests;
  }

  /** Where a request that is alone ends up, and what it leaves behind. */
  ghost function Alone(s: State, id: nat, t: Transport): State
    requires t in s.rejected && t in s.handled
  {
    if s.held < s.limit then
      s.(requests := s.requests[id := Request(t, Finished)], handled := s.handled[t := s.handled[t] + 1])
    else
      s.(requests := s.requests[id := Request(t, Rejected)], rejected := s.rejected[t := s.rejected[t] + 1])
  }

  lemma {:induction false} RefusedAlone(s: State, id: nat, t: Transport, maxInFlight: nat)
    requires Wired(s) && id !in s.requests && s.held >= s.limit
    ensures var a := Next(s, Arrive(id, t), maxInFlight);
            && Wired(a) && At(a, id, Refused) && a.requests[id].transport == t
            && Next(a, CountRejected(id), maxInFlight) == Alone(s, id, t)
  {
    var a := Next(s, Arrive(id, t), maxInFlight);
    assert Next(a, CountRejected(id), maxInFlight).requests == Alone(s, id, t).requests;
  }

  lemma {:induction false} AdmittedAlone(s: State, id: nat, t: Transport, maxInFlight: nat)
    requires Wired(s) && id !in s.requests && s.held < s.limit
    ensures var a := Next(s, Arrive(id, t), maxInFlight);
            && Wired(a) && At(a, id, Admitted) && a.requests[id].transport == t && a.held == s.held + 1
            && Move(a, id, Finished).(held := a.held - 1, handled := a.handled[t := a.handled[t] + 1])
               == Alone(s, id, t)
  {
    var a := Next(s, Arrive(id, t), maxInFlight);
    assert Move(a, id, Finished).requests == Alone(s, id, t).requests;
  }

  /** The limiter and the metrics that the HTTP and gRPC handlers share. Each method is one atomic step. */
  class Broker {
    const maxInFlight: nat
    const sem: Semaphore
    var gauge: map<Transport, int>
    var rejected: map<Transport, int>
    var handled: map<Transport, int>

    /** Where every request that ever arrived is. */
    ghost var requests: map<nat, Request>

    ghost function View(): State
      reads this, sem
    {
      State(sem.held, sem.limit, requests, gauge, rejected, handled)
    }

    /** Before the first lookup the slice is the whole cap. */
    constructor (maxInFlight: nat)
      ensures this.maxInFlight == maxInFlight && fresh(sem) && Initial(View(), maxInFlight)
    {
      this.maxInFlight := maxInFlight;
      sem := new Semaphore(maxInFlight);
      var zero := map[JsonRpc := 0, Rest := 0, Grpc := 0];
      EveryTransport(zero);
      gauge, rejected, handled, requests := zero, zero, zero, map[];
    }

    method Arrive(ghost id: nat, ghost transport: Transport) returns (ok: bool)
      requires Wired(View()) && Enabled(View(), Step.Arrive(id, transport))
      modifies this`requests, sem
      ensures View() == Next(old(View()), Step.Arrive(id, transport), maxInFlight)
      ensures ok <==> old(sem.held < sem.limit)
    {
      ok := sem.Acquire();
      requests := requests[id := Request(transport, if ok then Admitted else Refused)];
    }

    ghost method MoveTo(id: nat, phase: Phase)
      requires id in requests
      modifies this`requests
      ensures requests == old(requests)[id := old(requests)[id].(phase := phase)]
    {
      requests := requests[id := requests[id].(phase := phase)];
    }

    method CountRejected(ghost id: nat, t: Transport)
      requires Wired(View()) && Enabled(View(), Step.CountRejected(id)) && requests[id].transport == t
      modifies this`rejected, this`requests
      ensures View() == Next(old(View()), Step.CountRejected(id), maxInFlight)
    {
      rejected := rejected[t := rejected[t] + 1];
      MoveTo(id, Rejected);
    }

    method RaiseGauge(ghost id: nat, t: Transport)
      requires Wired(View()) && Enabled(View(), Step.RaiseGauge(id)) && requests[id].transport == t
      modifies this`gauge, this`requests
      ensures View() == Next(old(View()), Step.RaiseGauge(id), maxInFlight)
    {
      gauge := gauge[t := gauge[t] + 1];
      MoveTo(id, InFlight);
    }

    method LowerGauge(ghost id: nat, t: Transport)
      requires Wired(View()) && Enabled(View(), Step.LowerGauge(id)) && requests[id].transport == t
      modifies this`gauge, this`requests
      ensures View() == Next(old(View()), Step.LowerGauge(id), maxInFlight)
    {
      gauge := gauge[t := gauge[t] - 1];
      MoveTo(id, Closing);
    }

    method CountHandled(ghost id: nat, t: Transport)
      requires Wired(View()) && Enabled(View(), Step.CountHandled(id)) && requests[id].transport == t
      modifies this`handled, this`requests
      ensures View() == Next(old(View()), Step.CountHandled(id), maxInFlight)
    {
      handled := handled[t := handled[t] + 1];
      MoveTo(id, Counted);
    }

    method Release(ghost id: nat)
      requires Wired(View()) && Enabled(View(), Step.Release(id))
      modifies this`requests, sem
      ensures View() == Next(old(View()), Step.Release(id), maxInFlight)
    {
      sem.Release();
      MoveTo(id, Finished);
    }

    /** recount: a failed lookup keeps the current slice. */
    method Recount(replicas: Option<nat>)
      requires Wired(View())
      modifies sem`limit
      ensures View() == Next(old(View()), Step.Recount(replicas), maxInFlight)
      ensures replicas.None? ==> sem.limit == old(sem.limit)
      ensures replicas.Some? && replicas.value <= 1 ==> sem.limit == maxInFlight
      ensures replicas.Some? && replicas.value >= 1 ==>
                maxInFlight <= sem.limit * replicas.value <= maxInFlight + replicas.value - 1
    {
      if replicas.Some? {
        if replicas.value >= 1 {
          SliceBounds(maxInFlight, replicas.value);
        }
        sem.SetLimit(SliceFor(maxInFlight, replicas.value));
      }
    }

    /** One request on its own, in the order of the handlers. */
    method ServeSteps(ghost id: nat, t: Transport) returns (ok: bool)
      requires Wired(View()) && id !in requests && sem.held >= 0
      modifies this, sem
      ensures ok <==> old(sem.held < sem.limit)
      ensures View() == Alone(old(View()), id, t)
    {
      hide Next, Alone, Move;
      if sem.held < sem.limit {
        AdmittedAlone(View(), id, t, maxInFlight);
      } else {
        RefusedAlone(View(), id, t, maxInFlight);
      }
      ok := Arrive(id, t);
      if ok {
        Handle(id, t);
      } else {
        CountRejected(id, t);
      }
    }

    /**
     A request on its own is admitted exactly when a slot is free, is then counted once as handled or once as
     rejected, and leaves no slot and no gauge behind.
     */
    method Serve(ghost id: nat, t: Transport) returns (ok: bool)
      requires Wired(View()) && id !in requests && sem.held >= 0
      modifies this, sem
      ensures ok <==> old(sem.held) < sem.limit
      ensures sem.held == old(sem.held) && sem.limit == old(sem.limit)
      ensures gauge == old(gauge)
      ensures rejected == if ok then old(rejected) else old(rejected)[t := old(rejected)[t] + 1]
      ensures handled == if ok then old(handled)[t := old(handled)[t] + 1] else old(handled)
      ensures requests == old(requests)[id := Request(t, if ok then Finished else Rejected)]
    {
      ghost var before := View();
      ok := ServeSteps(id, t);
      assert View() == Alone(before, id, t);
    }

    /** What the handler's deferred calls undo and count. */
    method Handle(ghost id: nat, t: Transport)
      requires Wired(View()) && At(View(), id, Admitted) && requests[id].transport == t && sem.held > 0
      modifies this, sem
      ensures View() == Move(old(View()), id, Finished).(
                held := old(sem.held) - 1, handled := old(handled)[t := old(handled)[t] + 1])
    {
      PassThrough(id, t);
      CountThenRelease(id, t);
    }

    method PassThrough(ghost id: nat, t: Transport)
      requires Wired(View()) && At(View(), id, Admitted) && requests[id].transport == t
      modifies this`gauge, this`requests
      ensures View() == Move(old(View()), id, Closing)
    {
      hide Next, Move;
      GaugeUpAndDown(View(), id, maxInFlight);
      RaiseGauge(id, t);
      LowerGauge(id, t);
    }

    method CountThenRelease(ghost id: nat, t: Transport)
      requires Wired(View()) && At(View(), id, Closing) && requests[id].transport == t && sem.held > 0
      modifies this`handled, this`requests, sem
      ensures View() == Move(old(View()), id, Finished).(
                held := old(sem.held) - 1, handled := old(handled)[t := old(handled)[t] + 1])
    {
      hide Next, Move;
      CountAndRelease(View(), id, maxInFlight);
      CountHandled(id, t);
      Release(id);
    }
  }
}
