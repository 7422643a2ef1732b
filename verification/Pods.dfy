/**
 The pods of one AgentDeploy and the API calls of one reconcile pass over them
 (pkg/reconciler/agentdeploy/pods.go).

 A pod list is a sequence: its order is whatever the API server returns, and a position
 names a pod for the length of a pass, because creating appends and deleting only marks.
 */
module Pods {
  import opened Prelude

  /** `replica` is the replica annotation, None when it does not parse as an integer. */
  datatype Pod = Pod(replica: Option<int>, hash: string, terminating: bool, ready: bool)

  /** One write to the API server. */
  datatype Op = Delete(index: nat) | Create(replica: int)

  /** groupPodsByReplica: an annotation that does not parse lands in bucket -1. */
  function Bucket(p: Pod): int {
    if p.replica.Some? then p.replica.value else -1
  }

  predicate InWindow(r: int, desired: nat) {
    0 <= r < desired
  }

  function Fresh(r: int, hash: string): Pod {
    Pod(Some(r), hash, false, false)
  }

  predicate LiveOn(p: Pod, hash: string) {
    !p.terminating && p.hash == hash
  }

  predicate LiveOld(p: Pod, hash: string) {
    !p.terminating && p.hash != hash
  }

  // ---------------------------------------------------------------- effects

  function Do(pods: seq<Pod>, op: Op, hash: string): seq<Pod> {
    match op
    case Delete(i) => if i < |pods| then pods[i := pods[i].(terminating := true)] else pods
    case Create(r) => pods + [Fresh(r, hash)]
  }

  function DoAll(pods: seq<Pod>, ops: seq<Op>, hash: string): seq<Pod> {
    if ops == [] then pods
    else Do(DoAll(pods, ops[..|ops| - 1], hash), ops[|ops| - 1], hash)
  }

  lemma DoAllAppend(pods: seq<Pod>, ops: seq<Op>, op: Op, hash: string)
    ensures DoAll(pods, ops + [op], hash) == Do(DoAll(pods, ops, hash), op, hash)
  {
    assert (ops + [op])[..|ops|] == ops;
  }

  // ---------------------------------------------------------------- the plan of a pass

  /** Every position of `slot` is below `n`. */
  ghost predicate Within(slot: seq<nat>, n: nat) {
    forall a :: 0 <= a < |slot| ==> slot[a] < n
  }

  ghost predicate Ascending(s: seq<nat>) {
    forall a, b :: 0 <= a < b < |s| ==> s[a] < s[b]
  }

  /** Positions of the pods in bucket `r`, in list order. */
  function Slot(pods: seq<Pod>, r: int, n: nat): (s: seq<nat>)
    requires n <= |pods|
    ensures forall i :: i in s <==> 0 <= i < n && Bucket(pods[i]) == r
    ensures Within(s, n)
  {
    if n == 0 then []
    else Slot(pods, r, n - 1) + (if Bucket(pods[n - 1]) == r then [n - 1] else [])
  }

  lemma {:induction false} SlotAscends(pods: seq<Pod>, r: int, n: nat)
    requires n <= |pods|
    ensures Ascending(Slot(pods, r, n))
  {
    if n > 0 {
      SlotAscends(pods, r, n - 1);
      assert Within(Slot(pods, r, n - 1), n - 1);
    }
  }

  /** Some live pod in bucket `r`. */
  ghost predicate HasLive(pods: seq<Pod>, r: int) {
    exists i :: 0 <= i < |pods| && !pods[i].terminating && Bucket(pods[i]) == r
  }

  /** Some live pod in bucket `r` on `hash`. */
  ghost predicate OnHash(pods: seq<Pod>, r: int, hash: string) {
    exists i :: 0 <= i < |pods| && LiveOn(pods[i], hash) && Bucket(pods[i]) == r
  }

  /** Some live and Ready pod in bucket `r`. */
  ghost predicate ReadyAt(pods: seq<Pod>, r: int) {
    exists i :: 0 <= i < |pods| && !pods[i].terminating && pods[i].ready && Bucket(pods[i]) == r
  }

  /** Some live pod on `hash` among the first `n` positions of a slot. */
  ghost predicate SlotOn(pods: seq<Pod>, slot: seq<nat>, hash: string, n: nat)
    requires n <= |slot|
    requires Within(slot, |pods|)
  {
    exists a :: 0 <= a < n && LiveOn(pods[slot[a]], hash)
  }

  /** The first live pod on `hash` among the first `n` positions of a slot. */
  function Kept(pods: seq<Pod>, slot: seq<nat>, hash: string, n: nat): (k: Option<nat>)
    requires n <= |slot|
    requires Within(slot, |pods|)
    ensures k.Some? ==> k.value < |pods| && k.value in slot && LiveOn(pods[k.value], hash)
    ensures k.Some? <==> SlotOn(pods, slot, hash, n)
  {
    if n == 0 then None
    else
      var before := Kept(pods, slot, hash, n - 1);
      if before.None? && LiveOn(pods[slot[n - 1]], hash) then Some(slot[n - 1]) else before
  }

  /** The pod a slot keeps: its first live pod on `hash`. */
  function KeptAt(pods: seq<Pod>, r: int, hash: string): (k: Option<nat>)
    ensures k.Some? ==> k.value < |pods| && LiveOn(pods[k.value], hash) && Bucket(pods[k.value]) == r
    ensures k.None? ==> forall i :: 0 <= i < |pods| && Bucket(pods[i]) == r ==> !LiveOn(pods[i], hash)
  {
    var slot := Slot(pods, r, |pods|);
    var k := Kept(pods, slot, hash, |slot|);
    assert k.Some? ==> k.value in slot;
    assert forall i :: 0 <= i < |pods| && Bucket(pods[i]) == r ==> i in slot;
    k
  }

  /** `op` deletes a live pod of `slot`, which is on `hash` exactly when `on`. */
  ghost predicate DeletesOne(op: Op, slot: seq<nat>, pods: seq<Pod>, hash: string, on: bool) {
    && op.Delete? && op.index < |pods| && op.index in slot
    && !pods[op.index].terminating && (pods[op.index].hash == hash <==> on)
  }

  /** `op` deletes a live pod of a slot below `n`. */
  ghost predicate DeletesIn(op: Op, pods: seq<Pod>, n: nat) {
    && op.Delete? && op.index < |pods| && !pods[op.index].terminating
    && InWindow(Bucket(pods[op.index]), n)
  }

  /** Deletions of the extra live pods on `hash` in a slot, from position `n` of the slot on. */
  ghost function Duplicates(pods: seq<Pod>, slot: seq<nat>, hash: string, n: nat): (ops: seq<Op>)
    requires n <= |slot|
    requires Within(slot, |pods|)
    ensures forall q :: 0 <= q < |ops| ==> DeletesOne(ops[q], slot, pods, hash, true)
    decreases |slot| - n
  {
    if n == |slot| then []
    else
      (if SlotOn(pods, slot, hash, n) && LiveOn(pods[slot[n]], hash) then [Delete(slot[n])] else [])
      + Duplicates(pods, slot, hash, n + 1)
  }

  /** Deletions of the live pods in a slot that are not on `hash`, from position `n` of the slot on. */
  ghost function Outdated(pods: seq<Pod>, slot: seq<nat>, hash: string, n: nat): (ops: seq<Op>)
    requires n <= |slot|
    requires Within(slot, |pods|)
    ensures forall q :: 0 <= q < |ops| ==> DeletesOne(ops[q], slot, pods, hash, false)
    ensures forall a :: n <= a < |slot| && LiveOld(pods[slot[a]], hash) ==> Delete(slot[a]) in ops
    decreases |slot| - n
  {
    if n == |slot| then []
    else
      (if LiveOld(pods[slot[n]], hash) then [Delete(slot[n])] else [])
      + Outdated(pods, slot, hash, n + 1)
  }

  ghost function DuplicatesAt(pods: seq<Pod>, r: nat, hash: string): (ops: seq<Op>)
    ensures forall q :: 0 <= q < |ops| ==> DeletesIn(ops[q], pods, r + 1)
  {
    Duplicates(pods, Slot(pods, r, |pods|), hash, 0)
  }

  ghost function DuplicatesFrom(pods: seq<Pod>, hash: string, r: nat, desired: nat): (ops: seq<Op>)
    requires r <= desired
    ensures forall q :: 0 <= q < |ops| ==> DeletesIn(ops[q], pods, desired)
    decreases desired - r
  {
    if r == desired then []
    else DuplicatesAt(pods, r, hash) + DuplicatesFrom(pods, hash, r + 1, desired)
  }

  /** The slots below `n` without any live pod, ascending. */
  ghost function Missing(pods: seq<Pod>, n: nat): (rs: seq<int>)
    ensures forall r :: r in rs <==> 0 <= r < n && !HasLive(pods, r)
    ensures Distinct(rs)
  {
    if n == 0 then []
    else Missing(pods, n - 1) + (if !HasLive(pods, n - 1) then [n - 1] else [])
  }

  /** The slots below `n` with live pods but none on `hash`, ascending. */
  ghost function Stale(pods: seq<Pod>, hash: string, n: nat): (rs: seq<int>)
    ensures forall r :: r in rs <==> 0 <= r < n && HasLive(pods, r) && !OnHash(pods, r, hash)
    ensures Distinct(rs)
    ensures |rs| <= n
  {
    if n == 0 then []
    else
      Stale(pods, hash, n - 1)
      + (if HasLive(pods, n - 1) && !OnHash(pods, n - 1, hash) then [n - 1] else [])
  }

  /** The slots below `n` whose kept pod exists (and is Ready, when `readyOnly`). */
  ghost function Updated(pods: seq<Pod>, hash: string, n: nat, readyOnly: bool): (c: nat)
    ensures c <= n
  {
    if n == 0 then 0
    else
      var kept := KeptAt(pods, n - 1, hash);
      Updated(pods, hash, n - 1, readyOnly)
      + (if kept.Some? && (readyOnly ==> pods[kept.value].ready) then 1 else 0)
  }

  /** The wait gate: some pod on the desired hash is not Ready yet. */
  ghost predicate Held(pods: seq<Pod>, hash: string, desired: nat) {
    && Stale(pods, hash, desired) != []
    && Updated(pods, hash, desired, true) < Updated(pods, hash, desired, false)
  }

  /** The slots a pass replaces. */
  ghost function Batch(pods: seq<Pod>, hash: string, desired: nat, maxUnavailable: nat): seq<int> {
    var stale := Stale(pods, hash, desired);
    if Held(pods, hash, desired) then [] else stale[..Min(maxUnavailable, |stale|)]
  }

  ghost function Creates(rs: seq<int>): (ops: seq<Op>)
    ensures |ops| == |rs|
    ensures forall q :: 0 <= q < |rs| ==> ops[q] == Create(rs[q])
  {
    seq(|rs|, q requires 0 <= q < |rs| => Create(rs[q]))
  }

  ghost function Deletes(indices: seq<nat>): (ops: seq<Op>)
    ensures |ops| == |indices|
    ensures forall q :: 0 <= q < |indices| ==> ops[q] == Delete(indices[q])
  {
    seq(|indices|, q requires 0 <= q < |indices| => Delete(indices[q]))
  }

  /** Delete-then-create of one slot. */
  ghost function Replace(pods: seq<Pod>, hash: string, r: int): seq<Op> {
    Outdated(pods, Slot(pods, r, |pods|), hash, 0) + [Create(r)]
  }

  ghost function Replaces(pods: seq<Pod>, hash: string, rs: seq<int>): seq<Op> {
    if rs == [] then []
    else Replace(pods, hash, rs[0]) + Replaces(pods, hash, rs[1..])
  }

  /** `outside` lists the live pods outside the window, in some order: buckets come out of a Go map. */
  ghost predicate IsOutside(pods: seq<Pod>, desired: nat, outside: seq<nat>) {
    && Distinct(outside)
    && forall i: nat :: i in outside <==>
         i < |pods| && !pods[i].terminating && !InWindow(Bucket(pods[i]), desired)
  }

  /** Every API write of an error-free pass, in order. */
  ghost function Plan(pods: seq<Pod>, desired: nat, hash: string, maxUnavailable: nat, outside: seq<nat>): seq<Op> {
    Deletes(outside)
    + DuplicatesFrom(pods, hash, 0, desired)
    + Creates(Missing(pods, desired))
    + Replaces(pods, hash, Batch(pods, hash, desired, maxUnavailable))
  }
}
