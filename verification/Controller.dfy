/**
 The AgentDeploy reconciler (pkg/reconciler/agentdeploy/pods.go and controller.go): the pass over the pods,
 the status counters and the phase. The API server is a field: `credit` calls succeed and the next one fails,
 so every pass can be cut off at every call.
 */
module Controller {
  import opened Prelude
  import opened ApiTypes
  import opened Pods
  import opened Rollout

  // ---------------------------------------------------------------- spec values

  const DEFAULT_MIN_REPLICAS := 1
  const DEFAULT_MAX_REPLICAS := 50

  /** intstr.IntOrString: a string that is not a percentage is malformed. */
  datatype IntOrPercent = Absolute(n: int32) | Percent(p: int) | Malformed

  /** The parts of an AgentDeploy spec a pass reads; `podHash` is the hash of the rendered pod spec. */
  datatype Spec = Spec(
    replicas: Option<int32>,
    scale: Scale,
    maxUnavailable: Option<IntOrPercent>,
    podHash: string)

  function ScaleBounds(s: Scale): (int, int) {
    var lo := if s.min.Some? && s.min.value > DEFAULT_MIN_REPLICAS then s.min.value else DEFAULT_MIN_REPLICAS;
    var hi := if s.max.Some? then s.max.value else DEFAULT_MAX_REPLICAS;
    (lo, if hi < lo then lo else hi)
  }

  function Clamp(v: int, lo: int, hi: int): int {
    if v < lo then lo else if v > hi then hi else v
  }

  /**
   Without autoscaling the request, or 1 when there is none or it is below 1. With autoscaling the request brought
   into [lo, hi], or lo without one, where lo is at least 1 and hi, 50 by default, is at least lo.
   */
  function DesiredReplicas(spec: Spec): (d: nat)
    ensures 1 <= d < 0x8000_0000
    ensures spec.scale.disabled ==>
              d == if spec.replicas.Some? && spec.replicas.value >= 1 then spec.replicas.value else 1
    ensures !spec.scale.disabled ==>
              var lo := if spec.scale.min.Some? && spec.scale.min.value > 1 then spec.scale.min.value else 1;
              var max := if spec.scale.max.Some? then spec.scale.max.value else 50;
              var hi := if max < lo then lo else max;
              && lo <= d <= hi
              && (spec.replicas.None? || spec.replicas.value < lo ==> d == lo)
              && (spec.replicas.Some? && spec.replicas.value > hi ==> d == hi)
              && (spec.replicas.Some? && lo <= spec.replicas.value <= hi ==> d == spec.replicas.value)
  {
    if spec.scale.disabled then
      if spec.replicas.None? || spec.replicas.value < 1 then 1 else spec.replicas.value
    else
      var (lo, hi) := ScaleBounds(spec.scale);
      if spec.replicas.None? then lo else Clamp(spec.replicas.value, lo, hi)
  }

  /** ceil(a / 100) for every integer a. */
  function CeilPercent(a: int): (c: int)
    ensures 100 * (c - 1) < a <= 100 * c
  {
    -((-a) / 100)
  }

  /** p percent of a positive count, rounded up. */
  function PercentOf(p: int, desired: nat): (c: int)
    requires desired >= 1
    ensures 100 * (c - 1) < p * desired <= 100 * c
    ensures p < 1 ==> c < 1
  {
    ProductSign(p, desired);
    CeilPercent(p * desired)
  }

  lemma ProductSign(p: int, desired: nat)
    requires desired >= 1
    ensures p < 1 ==> p * desired <= 0
    ensures p >= 1 ==> p * desired >= 1
  {
  }

  /** A value that is malformed or allows nothing. */
  predicate NoBudget(mu: IntOrPercent) {
    mu.Malformed? || (mu.Absolute? && mu.n < 1) || (mu.Percent? && mu.p < 1)
  }

  /** At least 1; a percentage is rounded up, and one up to 100% never exceeds the replica count. */
  function ResolveMaxUnavailable(spec: Spec, desired: nat): (n: nat)
    requires desired >= 1
    ensures n >= 1
    ensures spec.maxUnavailable.Some? && spec.maxUnavailable.value.Percent? && 1 <= spec.maxUnavailable.value.p ==>
              100 * (n - 1) < spec.maxUnavailable.value.p * desired <= 100 * n
    ensures spec.maxUnavailable.None? ==> 100 * (n - 1) < 25 * desired <= 100 * n
    ensures spec.maxUnavailable.Some? && spec.maxUnavailable.value.Absolute? && spec.maxUnavailable.value.n >= 1 ==>
              n == spec.maxUnavailable.value.n
    ensures spec.maxUnavailable.Some? && NoBudget(spec.maxUnavailable.value) ==> n == 1
  {
    var mu := if spec.maxUnavailable.None? then Percent(25) else spec.maxUnavailable.value;
    var n := match mu
      case Absolute(k) => k
      case Percent(p) => PercentOf(p, desired)
      case Malformed => 0;
    if n < 1 then 1 else n
  }

  function TargetOf(spec: Spec): Target {
    var desired := DesiredReplicas(spec);
    Target(desired, spec.podHash, ResolveMaxUnavailable(spec, desired))
  }

  // ---------------------------------------------------------------- grouping

  lemma SlotGrows(pods: seq<Pod>, r: int, n: nat)
    requires n < |pods|
    ensures Slot(pods, r, n + 1) == Slot(pods, r, n) + (if Bucket(pods[n]) == r then [n] else [])
  {
  }

  lemma SlotStarts(pods: seq<Pod>, r: int)
    ensures Slot(pods, r, 0) == [] == Lookup(map[], r)
  {
  }

  lemma LookupUpdated(m: map<int, seq<nat>>, r: int, s: seq<nat>, r': int)
    ensures Lookup(m[r := s], r') == if r' == r then s else Lookup(m, r')
  {
  }

  method GroupPodsByReplica(pods: seq<Pod>) returns (byReplica: map<int, seq<nat>>)
    ensures forall r :: Lookup(byReplica, r) == Slot(pods, r, |pods|)
    ensures forall r :: r in byReplica ==> byReplica[r] != []
  {
    hide Slot, Lookup;
    byReplica := map[];
    forall r
      ensures Lookup(byReplica, r) == Slot(pods, r, 0)
    {
      SlotStarts(pods, r);
    }
    for n := 0 to |pods|
      invariant forall r :: Lookup(byReplica, r) == Slot(pods, r, n)
      invariant forall r :: r in byReplica ==> byReplica[r] != []
    {
      var r := Bucket(pods[n]);
      var grown := byReplica[r := Lookup(byReplica, r) + [n]];
      forall r'
        ensures Lookup(grown, r') == Slot(pods, r', n + 1)
      {
        SlotGrows(pods, r', n);
        LookupUpdated(byReplica, r, Lookup(byReplica, r) + [n], r');
      }
      byReplica := grown;
    }
  }

  /** A Go map lookup: the zero value for an absent key. */
  function Lookup(m: map<int, seq<nat>>, r: int): seq<nat> {
    if r in m then m[r] else []
  }

  ghost function LiveIn(pods: seq<Pod>, slot: seq<nat>, n: nat): (live: seq<nat>)
    requires n <= |slot| && Within(slot, |pods|)
    ensures forall i :: i in live <==> exists a :: n <= a < |slot| && slot[a] == i && !pods[i].terminating
    decreases |slot| - n
  {
    if n == |slot| then []
    else (if pods[slot[n]].terminating then [] else [slot[n]]) + LiveIn(pods, slot, n + 1)
  }

  /** The live pods outside the window, bucket by bucket in the order of `keys`. */
  ghost function OutsideFrom(pods: seq<Pod>, keys: seq<int>, desired: nat, n: nat): (outside: seq<nat>)
    requires n <= |keys|
    decreases |keys| - n
  {
    if n == |keys| then []
    else
      (if InWindow(keys[n], desired) then [] else LiveIn(pods, Slot(pods, keys[n], |pods|), 0))
      + OutsideFrom(pods, keys, desired, n + 1)
  }

  lemma {:induction false} LiveInDistinct(pods: seq<Pod>, slot: seq<nat>, n: nat)
    requires n <= |slot| && Within(slot, |pods|) && Ascending(slot)
    ensures Distinct(LiveIn(pods, slot, n))
    decreases |slot| - n
  {
    if n < |slot| {
      LiveInDistinct(pods, slot, n + 1);
      assert slot[n] !in LiveIn(pods, slot, n + 1);
    }
  }

  lemma {:induction false} LiveInMembers(pods: seq<Pod>, r: int)
    ensures forall i: nat :: i in LiveIn(pods, Slot(pods, r, |pods|), 0) <==>
                             i < |pods| && Bucket(pods[i]) == r && !pods[i].terminating
  {
    var slot := Slot(pods, r, |pods|);
    forall i: nat
      ensures i in LiveIn(pods, slot, 0) <==> i < |pods| && Bucket(pods[i]) == r && !pods[i].terminating
    {
      assert i in slot <==> i < |pods| && Bucket(pods[i]) == r;
    }
  }

  lemma {:induction false} OutsideMembers(pods: seq<Pod>, keys: seq<int>, desired: nat, n: nat)
    requires n <= |keys| && Distinct(keys)
    ensures var outside := OutsideFrom(pods, keys, desired, n);
            && Distinct(outside)
            && forall i: nat :: i in outside <==>
                 && i < |pods| && !pods[i].terminating
                 && !InWindow(Bucket(pods[i]), desired) && Bucket(pods[i]) in keys[n..]
    decreases |keys| - n
  {
    hide LiveIn, Slot;
    if n < |keys| {
      OutsideMembers(pods, keys, desired, n + 1);
      var slot := Slot(pods, keys[n], |pods|);
      LiveInMembers(pods, keys[n]);
      SlotAscends(pods, keys[n], |pods|);
      LiveInDistinct(pods, slot, 0);
      assert keys[n..] == [keys[n]] + keys[n + 1..];
      if !InWindow(keys[n], desired) {
        DistinctConcat(LiveIn(pods, slot, 0), OutsideFrom(pods, keys, desired, n + 1));
      }
    }
  }

  lemma DistinctConcat<T>(a: seq<T>, b: seq<T>)
    requires Distinct(a) && Distinct(b)
    requires forall x :: x in a ==> x !in b
    ensures Distinct(a + b)
  {
    forall i, j | 0 <= i < j < |a + b|
      ensures (a + b)[i] != (a + b)[j]
    {
      if i < |a| <= j {
        assert a[i] in a && b[j - |a|] in b;
      }
    }
  }

  lemma {:induction false} OutsideComplete(pods: seq<Pod>, keys: seq<int>, desired: nat)
    requires Distinct(keys) && forall r :: Slot(pods, r, |pods|) != [] ==> r in keys
    ensures IsOutside(pods, desired, OutsideFrom(pods, keys, desired, 0))
  {
    OutsideMembers(pods, keys, desired, 0);
    assert keys[0..] == keys;
    forall i: nat | i < |pods|
      ensures Bucket(pods[i]) in keys
    {
      assert i in Slot(pods, Bucket(pods[i]), |pods|);
    }
  }

  /** What is left of a bucket after its first `a` pods. */
  ghost function BucketFrom(pods: seq<Pod>, slot: seq<nat>, a: nat): seq<Op>
    requires a <= |slot| && Within(slot, |pods|)
  {
    Deletes(LiveIn(pods, slot, a))
  }

  lemma BucketStep(pods: seq<Pod>, slot: seq<nat>, a: nat)
    requires a < |slot| && Within(slot, |pods|)
    ensures BucketFrom(pods, slot, a)
            == (if pods[slot[a]].terminating then [] else [Delete(slot[a])]) + BucketFrom(pods, slot, a + 1)
  {
  }

  lemma BucketEnd(pods: seq<Pod>, slot: seq<nat>)
    requires Within(slot, |pods|)
    ensures BucketFrom(pods, slot, |slot|) == []
  {
  }

  lemma DeletesConcat(head: seq<Op>, a: seq<nat>, b: seq<nat>)
    ensures head + Deletes(a + b) == head + Deletes(a) + Deletes(b)
  {
  }

  /** Some live pod of a slot, among its first `n`, is not on `hash`. */
  ghost predicate SlotOld(pods: seq<Pod>, slot: seq<nat>, hash: string, n: nat)
    requires n <= |slot| && Within(slot, |pods|)
  {
    exists a :: 0 <= a < n && LiveOld(pods[slot[a]], hash)
  }

  lemma DuplicatesStep(pods: seq<Pod>, slot: seq<nat>, hash: string, a: nat)
    requires a < |slot| && Within(slot, |pods|)
    ensures Duplicates(pods, slot, hash, a)
            == (if Kept(pods, slot, hash, a).Some? && LiveOn(pods[slot[a]], hash) then [Delete(slot[a])] else [])
               + Duplicates(pods, slot, hash, a + 1)
    ensures Kept(pods, slot, hash, a + 1)
            == if Kept(pods, slot, hash, a).None? && LiveOn(pods[slot[a]], hash) then Some(slot[a])
               else Kept(pods, slot, hash, a)
  {
  }

  lemma DuplicatesEnd(pods: seq<Pod>, slot: seq<nat>, hash: string)
    requires Within(slot, |pods|)
    ensures Duplicates(pods, slot, hash, |slot|) == [] && Kept(pods, slot, hash, 0) == None
  {
  }

  lemma ClassifyEnds(pods: seq<Pod>, hash: string, desired: nat)
    ensures Missing(pods, 0) == [] && Stale(pods, hash, 0) == []
    ensures Updated(pods, hash, 0, false) == 0 == Updated(pods, hash, 0, true)
    ensures DuplicatesFrom(pods, hash, desired, desired) == []
  {
  }

  /** How the slot lists and counters of a pass grow by one slot. */
  lemma ClassifyStep(pods: seq<Pod>, r: nat, hash: string, desired: nat)
    requires r < desired
    ensures DuplicatesFrom(pods, hash, r, desired)
            == Duplicates(pods, Slot(pods, r, |pods|), hash, 0) + DuplicatesFrom(pods, hash, r + 1, desired)
    ensures var slot := Slot(pods, r, |pods|);
            var kept, old' := KeptAt(pods, r, hash), SlotOld(pods, slot, hash, |slot|);
            && kept == Kept(pods, slot, hash, |slot|)
            && Missing(pods, r + 1) == Missing(pods, r) + (if kept.None? && !old' then [r] else [])
            && Stale(pods, hash, r + 1) == Stale(pods, hash, r) + (if kept.None? && old' then [r] else [])
            && Updated(pods, hash, r + 1, false) == Updated(pods, hash, r, false) + (if kept.Some? then 1 else 0)
            && Updated(pods, hash, r + 1, true)
               == Updated(pods, hash, r, true) + (if kept.Some? && pods[kept.value].ready then 1 else 0)
  {
    var slot := Slot(pods, r, |pods|);
    OnHashIsLive(pods, r, hash);
    SlotLive(pods, r, hash);
  }

  lemma {:induction false} SlotLive(pods: seq<Pod>, r: int, hash: string)
    ensures HasLive(pods, r) <==>
              OnHash(pods, r, hash) || SlotOld(pods, Slot(pods, r, |pods|), hash, |Slot(pods, r, |pods|)|)
  {
    hide Slot;
    var slot := Slot(pods, r, |pods|);
    if i :| 0 <= i < |pods| && !pods[i].terminating && Bucket(pods[i]) == r {
      assert i in slot;
    }
    if a :| 0 <= a < |slot| && LiveOld(pods[slot[a]], hash) {
      assert slot[a] in slot;
    }
  }

  lemma CreatesStep(rs: seq<int>, a: nat)
    requires a < |rs|
    ensures Creates(rs[a..]) == [Create(rs[a])] + Creates(rs[a + 1..])
  {
  }

  lemma OutdatedStep(pods: seq<Pod>, slot: seq<nat>, hash: string, a: nat)
    requires a < |slot| && Within(slot, |pods|)
    ensures Outdated(pods, slot, hash, a)
            == (if LiveOld(pods[slot[a]], hash) then [Delete(slot[a])] else []) + Outdated(pods, slot, hash, a + 1)
  {
  }

  lemma OutdatedEnd(pods: seq<Pod>, slot: seq<nat>, hash: string)
    requires Within(slot, |pods|)
    ensures Outdated(pods, slot, hash, |slot|) == []
  {
  }

  lemma ReplacesStep(pods: seq<Pod>, hash: string, rs: seq<int>, a: nat)
    requires a < |rs|
    ensures Replaces(pods, hash, rs[a..])
            == Outdated(pods, Slot(pods, rs[a], |pods|), hash, 0) + [Create(rs[a])] + Replaces(pods, hash, rs[a + 1..])
  {
    assert rs[a..][1..] == rs[a + 1..];
  }

  lemma KeysCover(pods: seq<Pod>, byReplica: map<int, seq<nat>>, keys: seq<int>)
    requires forall r :: Lookup(byReplica, r) == Slot(pods, r, |pods|)
    requires forall r :: r in keys <==> r in byReplica
    ensures forall r :: Slot(pods, r, |pods|) != [] ==> r in keys
  {
    hide Slot;
    forall r | Slot(pods, r, |pods|) != []
      ensures r in keys
    {
      assert Lookup(byReplica, r) != [];
    }
  }

  lemma {:induction false} SomeOutside(pods: seq<Pod>, desired: nat, n: nat) returns (outside: seq<nat>)
    requires n <= |pods|
    ensures IsOutside(pods[..n], desired, outside)
    ensures n == |pods| ==> IsOutside(pods, desired, outside)
  {
    if n == 0 {
      outside := [];
    } else {
      outside := SomeOutside(pods, desired, n - 1);
      assert n - 1 !in outside;
      if !pods[n - 1].terminating && !InWindow(Bucket(pods[n - 1]), desired) {
        outside := outside + [n - 1];
      }
    }
    assert n == |pods| ==> pods[..n] == pods;
  }

  /** The plan from its four phases, with the replacement phase cut as the reconciler cuts it. */
  lemma PlanPhases(pods: seq<Pod>, t: Target, outside: seq<nat>)
    ensures var stale := Stale(pods, t.hash, t.desired);
            var before :=
              Deletes(outside) + DuplicatesFrom(pods, t.hash, 0, t.desired) + Creates(Missing(pods, t.desired));
            PlanOf(pods, t, outside)
            == if stale == [] || Held(pods, t.hash, t.desired) then before
               else before + Replaces(pods, t.hash, stale[..Min(t.maxUnavailable, |stale|)])
  {
    hide Stale, Missing, DuplicatesFrom, Updated;
    assert Replaces(pods, t.hash, []) == [];
  }

  lemma DoAllGrows(pods: seq<Pod>, ops: seq<Op>, hash: string)
    ensures |DoAll(pods, ops, hash)| >= |pods|
  {
  }

  const UINT32: nat := 0x1_0000_0000

  /** An increment of a uint32. */
  function Inc32(x: nat): (y: nat)
    requires x < UINT32
    ensures forall n: nat {:trigger n % UINT32} :: n % UINT32 == x ==> (n + 1) % UINT32 == y
  {
    if x == UINT32 - 1 then 0 else x + 1
  }

  lemma {:induction false} PrefixKeepsOneLive(pods: seq<Pod>, t: Target, outside: seq<nat>, p: seq<Op>)
    requires OneLive(pods) && IsOutside(pods, t.desired, outside) && p <= PlanOf(pods, t, outside)
    ensures OneLive(DoAll(pods, p, t.hash))
  {
    PlanOrderly(pods, t.desired, t.hash, t.maxUnavailable, outside);
    OrderlyPrefix(pods, PlanOf(pods, t, outside), p);
    OrderlyOneLive(pods, p, t.hash);
  }

  /** The Ready counter of an error-free pass reaches the window size only when every slot is Ready. */
  lemma {:induction false} RunningIffReady(pods: seq<Pod>, t: Target, outside: seq<nat>)
    requires OneLive(pods) && IsOutside(pods, t.desired, outside) && t.desired < 0x8000_0000
    ensures var s := DoAll(pods, PlanOf(pods, t, outside), t.hash);
            CountLive(s, |s|, true, None) % UINT32 == t.desired
            <==> forall r :: InWindow(r, t.desired) ==> OneReady(s, r)
  {
    hide DoAll, Plan, IsOutside, OneLive, HasLive, OnHash, ReadyAt, OneReady, CountLive;
    var s := DoAll(pods, PlanOf(pods, t, outside), t.hash);
    PassEffect(pods, t, outside);
    ReadyPodsFillWindow(s, t.desired);
    forall r | InWindow(r, t.desired)
      ensures ReadyAt(s, r) <==> OneReady(s, r)
    {
      ReadyIsOneReady(s, r);
    }
  }

  /** Every slot of the window has a live Ready pod. */
  ghost predicate AllReady(pods: seq<Pod>, desired: nat) {
    forall r :: InWindow(r, desired) ==> ReadyAt(pods, r)
  }

  /** A pass that starts from an all-Ready window keeps the bound, wherever it is cut off. */
  lemma {:induction false} CutOffPass(pods: seq<Pod>, t: Target, outside: seq<nat>, p: seq<Op>)
    requires OneLive(pods) && IsOutside(pods, t.desired, outside) && p <= PlanOf(pods, t, outside)
    requires AllReady(pods, t.desired)
    ensures |Unready(DoAll(pods, p, t.hash), t.desired)| <= t.maxUnavailable
  {
    hide DoAll, Plan, IsOutside, OneLive, OnHash;
    assert Unready(pods, t.desired) == {};
    AvailableInPass(pods, t, outside, p);
  }

  /**
   What a whole pass does to each slot of the window: it is populated afterwards, and an old-hash slot is on the
   hash afterwards exactly when no updated slot was waiting to become Ready and fewer old-hash slots than the
   budget come before it.
   */
  ghost predicate Advanced(before: seq<Pod>, after: seq<Pod>, hash: string, desired: nat, budget: nat) {
    forall r :: InWindow(r, desired) ==>
      && HasLive(after, r)
      && (OnHash(after, r, hash) <==>
            r !in Stale(before, hash, desired)
            || (!GateClosed(before, hash, desired) && |Stale(before, hash, r)| < budget))
  }

  lemma {:induction false} NothingDone(pods: seq<Pod>, spec: Spec)
    ensures var desired := DesiredReplicas(spec);
            AllReady(pods, desired) ==> |Unready(pods, desired)| <= ResolveMaxUnavailable(spec, desired)
  {
    if AllReady(pods, DesiredReplicas(spec)) {
      assert Unready(pods, DesiredReplicas(spec)) == {};
    }
  }

  /** Every live pod has a readable index inside the window. */
  ghost predicate Contained(pods: seq<Pod>, desired: nat) {
    forall i :: 0 <= i < |pods| ==>
      pods[i].terminating || (pods[i].replica.Some? && 0 <= pods[i].replica.value < desired)
  }

  lemma {:induction false} WholePass(pods: seq<Pod>, t: Target, outside: seq<nat>)
    requires OneLive(pods) && IsOutside(pods, t.desired, outside)
    ensures var s := DoAll(pods, PlanOf(pods, t, outside), t.hash);
            && Advanced(pods, s, t.hash, t.desired, t.maxUnavailable)
            && |Stale(s, t.hash, t.desired)|
               == |Stale(pods, t.hash, t.desired)|
                  - if GateClosed(pods, t.hash, t.desired) then 0
                    else Min(t.maxUnavailable, |Stale(pods, t.hash, t.desired)|)
  {
    hide DoAll, Plan, IsOutside, OneLive, HasLive, OnHash, GateClosed, Stale, Batch, Updated;
    PassEffect(pods, t, outside);
    PassLowersStale(pods, t, outside);
    GateIff(pods, t.hash, t.desired);
    forall r | InWindow(r, t.desired) && r in Stale(pods, t.hash, t.desired)
      ensures r in BatchOf(pods, t) <==>
                !GateClosed(pods, t.hash, t.desired) && |Stale(pods, t.hash, r)| < t.maxUnavailable
    {
      BatchIff(pods, t, r);
    }
    forall r
      ensures r in BatchOf(pods, t) ==> r in Stale(pods, t.hash, t.desired)
    {
      BatchStale(pods, t.hash, t.desired, t.maxUnavailable);
    }
  }

  lemma {:induction false} WholePassContains(pods: seq<Pod>, t: Target, outside: seq<nat>)
    requires IsOutside(pods, t.desired, outside)
    ensures Contained(DoAll(pods, PlanOf(pods, t, outside), t.hash), t.desired)
  {
    hide DoAll, Plan, IsOutside;
    var s := DoAll(pods, PlanOf(pods, t, outside), t.hash);
    forall i | 0 <= i < |s|
      ensures s[i].terminating || (s[i].replica.Some? && 0 <= s[i].replica.value < t.desired)
    {
      LiveInWindow(pods, t, outside, i);
    }
  }

  /** The live pods at the first n positions that are Ready (if asked for) and on a hash (if there is one). */
  ghost function LivePods(pods: seq<Pod>, n: nat, readyOnly: bool, on: Option<string>): set<int>
    requires n <= |pods|
  {
    set i | i in Range(n) && !pods[i].terminating && (readyOnly ==> pods[i].ready)
            && (on.Some? ==> pods[i].hash == on.value)
  }

  lemma {:induction false} NoLivePods(pods: seq<Pod>, readyOnly: bool, on: Option<string>)
    ensures |LivePods(pods, 0, readyOnly, on)| == 0
  {
    assert LivePods(pods, 0, readyOnly, on) == {};
  }

  lemma LiveIffCounted(pods: seq<Pod>, n: nat, readyOnly: bool, on: Option<string>, i: int)
    requires n <= |pods|
    ensures i in LivePods(pods, n, readyOnly, on) <==> 0 <= i < n && Counted(pods[i], readyOnly, on)
  {
  }

  lemma {:induction false} LivePodsStep(pods: seq<Pod>, n: nat, readyOnly: bool, on: Option<string>)
    requires 0 < n <= |pods|
    ensures |LivePods(pods, n, readyOnly, on)|
            == |LivePods(pods, n - 1, readyOnly, on)| + if Counted(pods[n - 1], readyOnly, on) then 1 else 0
  {
    hide LivePods, Counted;
    var before, after := LivePods(pods, n - 1, readyOnly, on), LivePods(pods, n, readyOnly, on);
    forall i
      ensures i in after <==> i in before || (i == n - 1 && Counted(pods[n - 1], readyOnly, on))
    {
      LiveIffCounted(pods, n - 1, readyOnly, on, i);
      LiveIffCounted(pods, n, readyOnly, on, i);
    }
    LiveIffCounted(pods, n - 1, readyOnly, on, n - 1);
    if Counted(pods[n - 1], readyOnly, on) {
      assert after == before + {n - 1};
    } else {
      assert after == before;
    }
  }

  /** The counters count those pods. */
  lemma {:induction false} CountIsSize(pods: seq<Pod>, n: nat, readyOnly: bool, on: Option<string>)
    requires n <= |pods|
    ensures CountLive(pods, n, readyOnly, on) == |LivePods(pods, n, readyOnly, on)|
  {
    hide LivePods, Counted;
    if n == 0 {
      NoLivePods(pods, readyOnly, on);
    } else {
      CountIsSize(pods, n - 1, readyOnly, on);
      LivePodsStep(pods, n, readyOnly, on);
    }
  }

  // ---------------------------------------------------------------- the reconciler

  datatype Phase = Unknown | Running | Failed

  /** Where a reconcile failed. */
  datatype Stage = Services | PodWrites | Counting

  /** AgentDeployStatus; the counters are uint32 and wrap. */
  datatype Status = Status(
    phase: Phase,
    reason: string,
    desiredReplicas: nat,
    updateHash: string,
    currentHash: string,
    replicas: nat,
    readyReplicas: nat,
    updatedReplicas: nat,
    updatedReadyReplicas: nat)

  class Reconciler {
    var pods: seq<Pod>
    var status: Status
    /** API calls that still succeed; the call after them fails. */
    var credit: nat
    /** The pods as listed by the current pass, and the writes that landed since. */
    ghost var found: seq<Pod>
    ghost var writes: seq<Op>

    ghost predicate Logged(hash: string)
      reads this
    {
      pods == DoAll(found, writes, hash)
    }

    /** Every call that succeeded is a write, and a failure means that the next call would not have. */
    ghost predicate Accounted(ok: bool, credit0: nat, writes0: nat)
      reads this
    {
      credit + |writes| == credit0 + writes0 && (!ok ==> credit == 0)
    }

    method Call() returns (ok: bool)
      modifies this`credit
      ensures ok <==> old(credit) > 0
      ensures credit == if ok then old(credit) - 1 else 0
    {
      ok := credit > 0;
      if ok {
        credit := credit - 1;
      }
    }

    /** deletePod: no call for a pod that was already terminating when listed. */
    method DeletePod(existing: seq<Pod>, i: nat, ghost hash: string) returns (ok: bool)
      requires existing == found && i < |found| && Logged(hash)
      modifies this`pods, this`credit, this`writes
      ensures Logged(hash)
      ensures existing[i].terminating ==> ok
      ensures writes == old(writes) + if ok && !existing[i].terminating then [Delete(i)] else []
      ensures Accounted(ok, old(credit), |old(writes)|)
    {
      ok := true;
      if !existing[i].terminating {
        ok := Call();
        if ok {
          DoAllGrows(found, writes, hash);
          pods := pods[i := pods[i].(terminating := true)];
          DoAllAppend(found, writes, Delete(i), hash);
          writes := writes + [Delete(i)];
        }
      }
    }

    method CreatePod(r: int, hash: string) returns (ok: bool)
      requires Logged(hash)
      modifies this`pods, this`credit, this`writes
      ensures Logged(hash)
      ensures writes == old(writes) + if ok then [Create(r)] else []
      ensures Accounted(ok, old(credit), |old(writes)|)
    {
      hide DoAll;
      ok := Call();
      if ok {
        pods := pods + [Fresh(r, hash)];
        DoAllAppend(found, writes, Create(r), hash);
        writes := writes + [Create(r)];
      }
    }

    /** Delete every pod of one bucket. */
    method DeleteBucket(existing: seq<Pod>, slot: seq<nat>, ghost hash: string) returns (ok: bool)
      requires existing == found && Within(slot, |existing|) && Logged(hash)
      modifies this`pods, this`credit, this`writes
      ensures Logged(hash)
      ensures writes <= old(writes) + BucketFrom(existing, slot, 0)
      ensures ok <==> writes == old(writes) + BucketFrom(existing, slot, 0)
      ensures Accounted(ok, old(credit), |old(writes)|)
    {
      hide DoAll, BucketFrom;
      ok := true;
      ghost var all := writes + BucketFrom(existing, slot, 0);
      for a := 0 to |slot|
        invariant existing == found && Logged(hash) && ok
        invariant Accounted(ok, old(credit), |old(writes)|)
        invariant writes + BucketFrom(existing, slot, a) == all
      {
        BucketStep(existing, slot, a);
        ok := DeletePod(existing, slot[a], hash);
        if !ok {
          return;
        }
      }
      BucketEnd(existing, slot);
    }

    /** Scale-down: delete the pods outside the window, bucket by bucket. */
    method DeleteOutside(
        existing: seq<Pod>, byReplica: map<int, seq<nat>>, keys: seq<int>, desired: nat, ghost hash: string)
      returns (ok: bool)
      requires existing == found && Logged(hash)
      requires forall r :: Lookup(byReplica, r) == Slot(existing, r, |existing|)
      modifies this`pods, this`credit, this`writes
      ensures Logged(hash)
      ensures writes <= old(writes) + Deletes(OutsideFrom(existing, keys, desired, 0))
      ensures ok <==> writes == old(writes) + Deletes(OutsideFrom(existing, keys, desired, 0))
      ensures Accounted(ok, old(credit), |old(writes)|)
    {
      hide DoAll, Slot, LiveIn, Lookup, Deletes;
      ok := true;
      ghost var all := writes + Deletes(OutsideFrom(existing, keys, desired, 0));
      for n := 0 to |keys|
        invariant existing == found && Logged(hash) && ok
        invariant Accounted(ok, old(credit), |old(writes)|)
        invariant writes + Deletes(OutsideFrom(existing, keys, desired, n)) == all
      {
        ghost var rest := OutsideFrom(existing, keys, desired, n + 1);
        if InWindow(keys[n], desired) {
          assert [] + rest == rest;
          continue;
        }
        var slot := Lookup(byReplica, keys[n]);
        DeletesConcat(writes, LiveIn(existing, slot, 0), rest);
        ok := DeleteBucket(existing, slot, hash);
        if !ok {
          return;
        }
      }
    }
  
    /** Find the pod a slot keeps; delete its duplicates on the desired hash. */
    method ScanSlot(existing: seq<Pod>, slot: seq<nat>, hash: string)
      returns (ok: bool, kept: Option<nat>, hasLiveOld: bool)
      requires existing == found && Within(slot, |existing|) && Logged(hash)
      modifies this`pods, this`credit, this`writes
      ensures Logged(hash)
      ensures writes <= old(writes) + Duplicates(existing, slot, hash, 0)
      ensures ok <==> writes == old(writes) + Duplicates(existing, slot, hash, 0)
      ensures Accounted(ok, old(credit), |old(writes)|)
      ensures ok ==> kept == Kept(existing, slot, hash, |slot|)
      ensures ok ==> (hasLiveOld <==> SlotOld(existing, slot, hash, |slot|))
    {
      hide DoAll, Duplicates, Kept;
      ok, kept, hasLiveOld := true, None, false;
      ghost var all := writes + Duplicates(existing, slot, hash, 0);
      DuplicatesEnd(existing, slot, hash);
      for a := 0 to |slot|
        invariant existing == found && Logged(hash) && ok
        invariant Accounted(ok, old(credit), |old(writes)|)
        invariant writes + Duplicates(existing, slot, hash, a) == all
        invariant kept == Kept(existing, slot, hash, a)
        invariant hasLiveOld <==> SlotOld(existing, slot, hash, a)
      {
        DuplicatesStep(existing, slot, hash, a);
        var p := existing[slot[a]];
        if p.terminating {
          continue;
        }
        if p.hash == hash {
          if kept.None? {
            kept := Some(slot[a]);
            continue;
          }
          ok := DeletePod(existing, slot[a], hash);
          if !ok {
            return;
          }
          continue;
        }
        hasLiveOld := true;
      }
    }

    /** Sort the window into slots to create, slots to replace and slots on the desired hash. */
    method Classify(existing: seq<Pod>, byReplica: map<int, seq<nat>>, desired: nat, hash: string)
      returns (ok: bool, needsCreate: seq<int>, needsReplace: seq<int>, updated: nat, updatedReady: nat)
      requires existing == found && Logged(hash)
      requires forall r :: Lookup(byReplica, r) == Slot(existing, r, |existing|)
      modifies this`pods, this`credit, this`writes
      ensures Logged(hash)
      ensures writes <= old(writes) + DuplicatesFrom(existing, hash, 0, desired)
      ensures ok <==> writes == old(writes) + DuplicatesFrom(existing, hash, 0, desired)
      ensures Accounted(ok, old(credit), |old(writes)|)
      ensures ok ==> needsCreate == Missing(existing, desired) && needsReplace == Stale(existing, hash, desired)
      ensures ok ==> updated == Updated(existing, hash, desired, false)
      ensures ok ==> updatedReady == Updated(existing, hash, desired, true)
    {
      hide DoAll, Slot, Kept, KeptAt, Lookup, Duplicates, DuplicatesFrom, Missing, Stale, Updated, SlotOld;
      ClassifyEnds(existing, hash, desired);
      ok, needsCreate, needsReplace, updated, updatedReady := true, [], [], 0, 0;
      ghost var all := writes + DuplicatesFrom(existing, hash, 0, desired);
      for r := 0 to desired
        invariant existing == found && Logged(hash) && ok
        invariant Accounted(ok, old(credit), |old(writes)|)
        invariant writes + DuplicatesFrom(existing, hash, r, desired) == all
        invariant needsCreate == Missing(existing, r) && needsReplace == Stale(existing, hash, r)
        invariant updated == Updated(existing, hash, r, false)
        invariant updatedReady == Updated(existing, hash, r, true)
      {
        var slot := Lookup(byReplica, r);
        var kept, hasLiveOld;
        ClassifyStep(existing, r, hash, desired);
        ok, kept, hasLiveOld := ScanSlot(existing, slot, hash);
        if !ok {
          return;
        }
        if kept.Some? {
          updated := updated + 1;
          if existing[kept.value].ready {
            updatedReady := updatedReady + 1;
          }
        } else if hasLiveOld {
          needsReplace := needsReplace + [r];
        } else {
          needsCreate := needsCreate + [r];
        }
      }
    }
  
    /** Empty slots are filled at once, whatever the gate says. */
    method CreateMissing(rs: seq<int>, hash: string) returns (ok: bool)
      requires Logged(hash)
      modifies this`pods, this`credit, this`writes
      ensures Logged(hash)
      ensures writes <= old(writes) + Creates(rs)
      ensures ok <==> writes == old(writes) + Creates(rs)
      ensures Accounted(ok, old(credit), |old(writes)|)
    {
      hide DoAll, Creates;
      ok := true;
      ghost var all := writes + Creates(rs);
      assert rs[0..] == rs;
      for a := 0 to |rs|
        invariant Logged(hash) && found == old(found) && ok
        invariant Accounted(ok, old(credit), |old(writes)|)
        invariant writes + Creates(rs[a..]) == all
      {
        CreatesStep(rs, a);
        ok := CreatePod(rs[a], hash);
        if !ok {
          return;
        }
      }
    }

    method DeleteOld(existing: seq<Pod>, slot: seq<nat>, hash: string) returns (ok: bool)
      requires existing == found && Within(slot, |existing|) && Logged(hash)
      modifies this`pods, this`credit, this`writes
      ensures Logged(hash)
      ensures writes <= old(writes) + Outdated(existing, slot, hash, 0)
      ensures ok <==> writes == old(writes) + Outdated(existing, slot, hash, 0)
      ensures Accounted(ok, old(credit), |old(writes)|)
    {
      hide DoAll, Outdated;
      ok := true;
      ghost var all := writes + Outdated(existing, slot, hash, 0);
      for a := 0 to |slot|
        invariant existing == found && Logged(hash) && ok
        invariant Accounted(ok, old(credit), |old(writes)|)
        invariant writes + Outdated(existing, slot, hash, a) == all
      {
        OutdatedStep(existing, slot, hash, a);
        if existing[slot[a]].terminating || existing[slot[a]].hash == hash {
          continue;
        }
        ok := DeletePod(existing, slot[a], hash);
        if !ok {
          return;
        }
      }
      OutdatedEnd(existing, slot, hash);
    }

    /** Delete-then-create for each slot of the batch. */
    method ReplaceBatch(existing: seq<Pod>, byReplica: map<int, seq<nat>>, batch: seq<int>, hash: string)
      returns (ok: bool)
      requires existing == found && Logged(hash)
      requires forall r :: Lookup(byReplica, r) == Slot(existing, r, |existing|)
      modifies this`pods, this`credit, this`writes
      ensures Logged(hash)
      ensures writes <= old(writes) + Replaces(existing, hash, batch)
      ensures ok <==> writes == old(writes) + Replaces(existing, hash, batch)
      ensures Accounted(ok, old(credit), |old(writes)|)
    {
      hide DoAll, Slot, Lookup, Outdated;
      ok := true;
      ghost var all := writes + Replaces(existing, hash, batch);
      assert batch[0..] == batch;
      for a := 0 to |batch|
        invariant existing == found && Logged(hash) && ok
        invariant Accounted(ok, old(credit), |old(writes)|)
        invariant writes + Replaces(existing, hash, batch[a..]) == all
      {
        var slot := Lookup(byReplica, batch[a]);
        ReplacesStep(existing, hash, batch, a);
        ghost var outdated, later := Outdated(existing, slot, hash, 0), Replaces(existing, hash, batch[a + 1..]);
        assert writes + (outdated + [Create(batch[a])] + later) == writes + outdated + [Create(batch[a])] + later;
        ok := DeleteOld(existing, slot, hash);
        if !ok {
          return;
        }
        ok := CreatePod(batch[a], hash);
        if !ok {
          return;
        }
      }
    }

    /** The phases of a pass, over the pods it listed. */
    method RunPass(existing: seq<Pod>, t: Target) returns (ok: bool, ghost outside: seq<nat>)
      requires existing == found && writes == [] && Logged(t.hash)
      modifies this`pods, this`credit, this`writes, this`status
      ensures Logged(t.hash)
      ensures IsOutside(existing, t.desired, outside)
      ensures writes <= PlanOf(existing, t, outside)
      ensures ok <==> writes == PlanOf(existing, t, outside)
      ensures Accounted(ok, old(credit), 0)
      ensures var promoted := ok && Stale(existing, t.hash, t.desired) == [];
              status == if promoted then old(status).(currentHash := t.hash) else old(status)
    {
      hide DoAll, Slot, Deletes, DuplicatesFrom, Creates, Missing, Stale, Replaces, Plan;
      hide IsOutside, Updated, OutsideFrom, Lookup;
      var byReplica := GroupPodsByReplica(existing);
      var keys := InSomeOrder(byReplica.Keys);
      KeysCover(existing, byReplica, keys);
      OutsideComplete(existing, keys, t.desired);
      outside := OutsideFrom(existing, keys, t.desired, 0);
      PlanPhases(existing, t, outside);
      ghost var a, b := Deletes(outside), DuplicatesFrom(existing, t.hash, 0, t.desired);
      ghost var c, plan := Creates(Missing(existing, t.desired)), PlanOf(existing, t, outside);
      assert a <= a + b <= a + b + c <= plan;
      ok := DeleteOutside(existing, byReplica, keys, t.desired, t.hash);
      if !ok {
        return;
      }
      assert writes == a;
      var needsCreate, needsReplace, updated, updatedReady;
      ok, needsCreate, needsReplace, updated, updatedReady := Classify(existing, byReplica, t.desired, t.hash);
      if !ok {
        return;
      }
      assert writes == a + b;
      ok := CreateMissing(needsCreate, t.hash);
      if !ok {
        return;
      }
      assert writes == a + b + c;
      if |needsReplace| == 0 {
        SlotsPartition(existing, t.hash, t.desired);
        if updated + |needsCreate| == t.desired {
          status := status.(currentHash := t.hash);
        }
        return;
      }
      if updated > 0 && updatedReady < updated {
        return;
      }
      var batch := needsReplace[..Min(t.maxUnavailable, |needsReplace|)];
      ok := ReplaceBatch(existing, byReplica, batch, t.hash);
    }

    /**
     reconcilePods: the writes are the plan of a pass over the listed pods for the replica count, the pod hash and
     the budget of the spec, or the part of it that the API server lets through, and CurrentHash changes only when
     an error-free pass finds no old-hash slot.
     */
    method ReconcilePods(spec: Spec) returns (ok: bool, ghost outside: seq<nat>)
      modifies this
      ensures found == old(pods) && Logged(spec.podHash)
      ensures IsOutside(found, DesiredReplicas(spec), outside)
      ensures var desired := DesiredReplicas(spec);
              var plan := Plan(found, desired, spec.podHash, ResolveMaxUnavailable(spec, desired), outside);
              && writes <= plan
              && (ok <==> old(credit) >= 1 + |plan|)
              && (ok ==> writes == plan && credit == old(credit) - 1 - |plan|)
              && (!ok ==> credit == 0 && |writes| == if old(credit) == 0 then 0 else old(credit) - 1)
      ensures var s := old(status);
              var same := s.updateHash == spec.podHash;
              var promoted := ok && Stale(found, spec.podHash, DesiredReplicas(spec)) == [];
              status == s.(
                desiredReplicas := DesiredReplicas(spec),
                updateHash := spec.podHash,
                currentHash := if promoted then spec.podHash else s.currentHash,
                updatedReplicas := if same then s.updatedReplicas else 0,
                updatedReadyReplicas := if same then s.updatedReadyReplicas else 0)
    {
      hide Plan, IsOutside, Stale;
      var t := TargetOf(spec);
      status := status.(desiredReplicas := t.desired);
      if status.updateHash != t.hash {
        status := status.(updateHash := t.hash, updatedReplicas := 0, updatedReadyReplicas := 0);
      }
      found, writes := pods, [];
      ok := Call();
      if !ok {
        outside := SomeOutside(pods, t.desired, |pods|);
        return;
      }
      var existing := pods;
      ok, outside := RunPass(existing, t);
    }

    /** updatePodStatus: over a fresh listing, how many pods are live, Ready, updated, and both, modulo 2^32. */
    method UpdatePodStatus() returns (ok: bool)
      modifies this`credit, this`status
      ensures ok <==> old(credit) > 0
      ensures credit == if ok then old(credit) - 1 else 0
      ensures status == if !ok then old(status) else old(status).(
        replicas := |LivePods(pods, |pods|, false, None)| % UINT32,
        readyReplicas := |LivePods(pods, |pods|, true, None)| % UINT32,
        updatedReplicas := |LivePods(pods, |pods|, false, Some(status.updateHash))| % UINT32,
        updatedReadyReplicas := |LivePods(pods, |pods|, true, Some(status.updateHash))| % UINT32)
    {
      ok := Call();
      if !ok {
        return;
      }
      var replicas, ready, updated, updatedReady := 0, 0, 0, 0;
      for n := 0 to |pods|
        invariant replicas == CountLive(pods, n, false, None) % UINT32
        invariant ready == CountLive(pods, n, true, None) % UINT32
        invariant updated == CountLive(pods, n, false, Some(status.updateHash)) % UINT32
        invariant updatedReady == CountLive(pods, n, true, Some(status.updateHash)) % UINT32
        invariant status == old(status) && credit == old(credit) - 1
      {
        var p := pods[n];
        if p.terminating {
          continue;
        }
        replicas := Inc32(replicas);
        if p.ready {
          ready := Inc32(ready);
        }
        if p.hash == status.updateHash {
          updated := Inc32(updated);
          if p.ready {
            updatedReady := Inc32(updatedReady);
          }
        }
      }
      hide LivePods, CountLive;
      CountIsSize(pods, |pods|, false, None);
      CountIsSize(pods, |pods|, true, None);
      CountIsSize(pods, |pods|, false, Some(status.updateHash));
      CountIsSize(pods, |pods|, true, Some(status.updateHash));
      status := status.(
        replicas := replicas, readyReplicas := ready,
        updatedReplicas := updated, updatedReadyReplicas := updatedReady);
    }

    /**
     What reconcile promises about the pods, from at most one live pod per index: still at most one per index,
     wherever it fails; never more than the budget not Ready, if all were; and after a whole pass each slot advanced.
     */
    ghost predicate PodsKept(before: seq<Pod>, spec: Spec, whole: bool)
      reads this
    {
      var hash, desired := spec.podHash, DesiredReplicas(spec);
      var budget, stale := ResolveMaxUnavailable(spec, desired), |Stale(before, hash, desired)|;
      && OneLive(pods)
      && (AllReady(before, desired) ==> |Unready(pods, desired)| <= budget)
      && (whole ==>
            && Advanced(before, pods, hash, desired, budget)
            && |Stale(pods, hash, desired)|
               == stale - if GateClosed(before, hash, desired) then 0 else Min(budget, stale))
    }

    /** The pods after reconcilePods, from what the pass wrote. */
    ghost method KeepPods(spec: Spec, outside: seq<nat>, ok: bool)
      requires Logged(spec.podHash) && IsOutside(found, DesiredReplicas(spec), outside)
      requires writes <= PlanOf(found, TargetOf(spec), outside)
      requires ok ==> writes == PlanOf(found, TargetOf(spec), outside)
      ensures OneLive(found) ==> PodsKept(found, spec, ok)
      ensures ok ==> Contained(pods, DesiredReplicas(spec))
      ensures ok && Stale(found, spec.podHash, DesiredReplicas(spec)) == [] ==>
                forall r :: InWindow(r, DesiredReplicas(spec)) ==> OnHash(pods, r, spec.podHash)
      ensures ok && OneLive(found) ==>
                (|LivePods(pods, |pods|, true, None)| % UINT32 == DesiredReplicas(spec)
                 <==> forall r :: InWindow(r, DesiredReplicas(spec)) ==> OneReady(pods, r))
    {
      hide DoAll, Plan, Stale, IsOutside, OneLive, HasLive, OnHash, OneReady, CountLive, ReadyAt, GateClosed;
      hide Advanced, Contained, AllReady, Unready, LivePods;
      var t := TargetOf(spec);
      if OneLive(found) {
        PrefixKeepsOneLive(found, t, outside, writes);
        if AllReady(found, t.desired) {
          CutOffPass(found, t, outside, writes);
        }
        if ok {
          WholePass(found, t, outside);
          RunningIffReady(found, t, outside);
          CountIsSize(pods, |pods|, true, None);
        }
      }
      if ok {
        WholePassContains(found, t, outside);
      }
      if ok && Stale(found, t.hash, t.desired) == [] {
        forall r | InWindow(r, t.desired)
          ensures OnHash(pods, r, t.hash)
        {
          PromotedWindow(found, t, outside, r);
        }
      }
    }

    /**
     reconcile. It fails only where the services or the API server do, and says so in the phase and the reason. After
     a whole run the phase is Running exactly when every slot holds one live pod and it is Ready, and CurrentHash
     becomes the pod hash exactly when no old-hash slot was found, in which case every slot is on it.
     */
    method Reconcile(spec: Spec, servicesOk: bool) returns (failed: Option<Stage>)
      modifies this
      ensures failed == Some(Services) <==> !servicesOk
      ensures failed.Some? && servicesOk ==> credit == 0
      ensures failed == Some(Services) ==>
                pods == old(pods) && status == old(status).(phase := Failed, reason := "ServiceFailed")
      ensures failed == Some(PodWrites) ==> status.phase == Failed && status.reason == "PodsFailed"
      ensures failed == Some(Counting) ==> status.phase == old(status.phase) && status.reason == ""
      ensures failed.None? ==> status.phase != Failed && status.reason == ""
      ensures OneLive(old(pods)) ==> PodsKept(old(pods), spec, failed.None? || failed == Some(Counting))
      ensures failed.None? ==> Contained(pods, DesiredReplicas(spec))
      ensures failed.None? && OneLive(old(pods)) ==>
                (status.phase == Running <==> forall r :: InWindow(r, DesiredReplicas(spec)) ==> OneReady(pods, r))
      ensures failed.None? && Stale(old(pods), spec.podHash, DesiredReplicas(spec)) == [] ==>
                && status.currentHash == spec.podHash
                && forall r :: InWindow(r, DesiredReplicas(spec)) ==> OnHash(pods, r, spec.podHash)
      ensures Stale(old(pods), spec.podHash, DesiredReplicas(spec)) != [] || failed == Some(PodWrites) ==>
                status.currentHash == old(status.currentHash)
    {
      hide DoAll, Plan, Stale, IsOutside, OneLive, HasLive, OnHash, OneReady, CountLive, ReadyAt, GateClosed;
      hide Advanced, Contained, AllReady, Unready, LivePods;
      if !servicesOk {
        status := status.(phase := Failed, reason := "ServiceFailed");
        NothingDone(pods, spec);
        return Some(Services);
      }
      ghost var outside;
      var ok;
      ok, outside := ReconcilePods(spec);
      KeepPods(spec, outside, ok);
      if !ok {
        status := status.(phase := Failed, reason := "PodsFailed");
        return Some(PodWrites);
      }
      status := status.(reason := "");
      ok := UpdatePodStatus();
      if !ok {
        return Some(Counting);
      }
      if status.desiredReplicas > 0 && status.readyReplicas == status.desiredReplicas {
        status := status.(phase := Running);
      } else {
        status := status.(phase := Unknown);
      }
      failed := None;
    }
  }
}
