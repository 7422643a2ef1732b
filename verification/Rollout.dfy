/**
 What reconcile passes do to the pods of one AgentDeploy over whole runs
 (pkg/reconciler/agentdeploy/pods.go): safety under arbitrary edits and aborted passes,
 and availability and convergence of one rolling update.
 */
module Rollout {
  import opened Prelude
  import opened Pods

  /** A live pod with a readable replica index. */
  predicate LiveAt(p: Pod) {
    !p.terminating && p.replica.Some?
  }

  /** At most one live pod per replica index. */
  ghost predicate OneLive(pods: seq<Pod>) {
    forall i, j :: 0 <= i < j < |pods| && LiveAt(pods[i]) && LiveAt(pods[j]) ==>
      pods[i].replica != pods[j].replica
  }

  // ---------------------------------------------------------------- states inside a pass

  /** The replica indices created by `ops`, in order. */
  ghost function Created(ops: seq<Op>): seq<int> {
    if ops == [] then []
    else
      var op := ops[|ops| - 1];
      Created(ops[..|ops| - 1]) + (if op.Create? then [op.replica] else [])
  }

  lemma {:induction false} CreatedConcat(a: seq<Op>, b: seq<Op>)
    ensures Created(a + b) == Created(a) + Created(b)
  {
    if b == [] {
      assert a + b == a;
    } else {
      var b' := b[..|b| - 1];
      CreatedConcat(a, b');
      assert (a + b)[..|a + b| - 1] == a + b';
    }
  }

  lemma {:induction false} CreatedThree(a: seq<Op>, b: seq<Op>, c: seq<Op>, rs: seq<int>, ts: seq<int>)
    requires Created(a) == [] && Created(b) == rs && Created(c) == ts
    ensures Created(a + b + c) == rs + ts
  {
    CreatedConcat(a, b);
    CreatedConcat(a + b, c);
  }

  lemma {:induction false} CreatedIff(ops: seq<Op>, r: int)
    ensures r in Created(ops) <==> Create(r) in ops
  {
    if ops != [] {
      CreatedIff(ops[..|ops| - 1], r);
      assert ops == ops[..|ops| - 1] + [ops[|ops| - 1]];
    }
  }

  ghost function Marked(pods: seq<Pod>, ops: seq<Op>): (s: seq<Pod>)
    ensures |s| == |pods|
    ensures forall i :: 0 <= i < |pods| ==>
              s[i] == pods[i].(terminating := pods[i].terminating || Delete(i) in ops)
  {
    seq(|pods|, i requires 0 <= i < |pods| =>
        pods[i].(terminating := pods[i].terminating || Delete(i) in ops))
  }

  ghost function FreshAll(rs: seq<int>, hash: string): (s: seq<Pod>)
    ensures |s| == |rs|
    ensures forall j :: 0 <= j < |rs| ==> s[j] == Fresh(rs[j], hash)
  {
    seq(|rs|, j requires 0 <= j < |rs| => Fresh(rs[j], hash))
  }

  ghost predicate Addressed(ops: seq<Op>, n: nat) {
    forall q :: 0 <= q < |ops| && ops[q].Delete? ==> ops[q].index < n
  }

  lemma {:induction false} ShapeDelete(pods: seq<Pod>, ops: seq<Op>, i: nat, tail: seq<Pod>)
    requires i < |pods|
    ensures var s := Marked(pods, ops) + tail;
            s[i := s[i].(terminating := true)] == Marked(pods, ops + [Delete(i)]) + tail
  {
    hide Marked;
    var ops' := ops + [Delete(i)];
    assert forall j: nat :: Delete(j) in ops' <==> Delete(j) in ops || j == i;
    var s, s' := Marked(pods, ops) + tail, Marked(pods, ops') + tail;
    assert s[i := s[i].(terminating := true)] == s';
  }

  lemma {:induction false} ShapeCreate(pods: seq<Pod>, ops: seq<Op>, rs: seq<int>, r: int, hash: string)
    ensures Marked(pods, ops) + FreshAll(rs, hash) + [Fresh(r, hash)]
            == Marked(pods, ops + [Create(r)]) + FreshAll(rs + [r], hash)
  {
    hide Marked, FreshAll;
    assert forall j: nat :: Delete(j) in ops + [Create(r)] <==> Delete(j) in ops;
    assert Marked(pods, ops) == Marked(pods, ops + [Create(r)]);
    assert FreshAll(rs, hash) + [Fresh(r, hash)] == FreshAll(rs + [r], hash);
  }

  /** Writes in closed form: old pods keep their place and may be marked, new pods follow. */
  lemma {:induction false} Shape(pods: seq<Pod>, ops: seq<Op>, hash: string)
    requires Addressed(ops, |pods|)
    ensures DoAll(pods, ops, hash) == Marked(pods, ops) + FreshAll(Created(ops), hash)
  {
    hide Marked, FreshAll;
    if ops == [] {
      assert DoAll(pods, ops, hash) == pods;
    } else {
      var ops', op := ops[..|ops| - 1], ops[|ops| - 1];
      Shape(pods, ops', hash);
      assert ops == ops' + [op];
      match op
      case Delete(i) => ShapeDelete(pods, ops', i, FreshAll(Created(ops'), hash));
      case Create(r) => ShapeCreate(pods, ops', Created(ops'), r, hash);
    }
  }

  /** Before a slot is created, every live pod the pass found there has been deleted. */
  ghost predicate Clears(pods: seq<Pod>, ops: seq<Op>) {
    forall q, i: nat :: 0 <= q < |ops| && ops[q].Create? && i < |pods|
                        && !pods[i].terminating && Bucket(pods[i]) == ops[q].replica
                        ==> Delete(i) in ops[..q]
  }

  ghost predicate Orderly(pods: seq<Pod>, ops: seq<Op>) {
    Addressed(ops, |pods|) && Clears(pods, ops) && Distinct(Created(ops))
    && forall q :: 0 <= q < |ops| && ops[q].Create? ==> 0 <= ops[q].replica
  }

  lemma {:induction false} OrderlyPrefix(pods: seq<Pod>, ops: seq<Op>, p: seq<Op>)
    requires Orderly(pods, ops) && p <= ops
    ensures Orderly(pods, p)
  {
    assert forall q :: 0 <= q < |p| ==> p[..q] == ops[..q];
    assert ops == p + ops[|p|..];
    CreatedConcat(p, ops[|p|..]);
    assert forall a :: 0 <= a < |Created(p)| ==> Created(p)[a] == Created(ops)[a];
  }

  /** A slot in Created(ops) holds only its fresh pod. */
  lemma {:induction false} CreatedSlot(pods: seq<Pod>, ops: seq<Op>, hash: string, r: int)
    requires Orderly(pods, ops) && r in Created(ops)
    ensures var s := DoAll(pods, ops, hash);
            HasLive(s, r) && OnHash(s, r, hash) && !ReadyAt(s, r)
    ensures |pods| <= |DoAll(pods, ops, hash)|
    ensures forall i :: 0 <= i < |pods| && Bucket(pods[i]) == r ==> DoAll(pods, ops, hash)[i].terminating
  {
    Shape(pods, ops, hash);
    CreatedIff(ops, r);
    var q :| 0 <= q < |ops| && ops[q] == Create(r);
    var s := DoAll(pods, ops, hash);
    forall i | 0 <= i < |pods| && Bucket(pods[i]) == r
      ensures s[i].terminating
    {
      assert !pods[i].terminating ==> Delete(i) in ops[..q];
    }
    var j :| 0 <= j < |Created(ops)| && Created(ops)[j] == r;
    assert s[|pods| + j] == Fresh(r, hash);
  }

  /** A slot that is neither created nor deleted from keeps what it had. */
  lemma {:induction false} UntouchedSlot(pods: seq<Pod>, ops: seq<Op>, hash: string, r: int)
    requires Addressed(ops, |pods|) && r !in Created(ops)
    requires forall i: nat :: i < |pods| && Bucket(pods[i]) == r ==> Delete(i) !in ops
    ensures var s := DoAll(pods, ops, hash);
            && (HasLive(s, r) <==> HasLive(pods, r))
            && (ReadyAt(s, r) <==> ReadyAt(pods, r))
            && forall h :: OnHash(s, r, h) <==> OnHash(pods, r, h)
  {
    Shape(pods, ops, hash);
    var s := DoAll(pods, ops, hash);
    assert forall i :: |pods| <= i < |s| ==> s[i] == Fresh(Created(ops)[i - |pods|], hash);
    assert forall i :: 0 <= i < |pods| && Bucket(pods[i]) == r ==> s[i] == pods[i];
  }

  lemma {:induction false} OrderlyOneLive(pods: seq<Pod>, ops: seq<Op>, hash: string)
    requires OneLive(pods) && Orderly(pods, ops)
    ensures OneLive(DoAll(pods, ops, hash))
  {
    Shape(pods, ops, hash);
    var s, n := DoAll(pods, ops, hash), |pods|;
    forall i, j | 0 <= i < j < |s| && LiveAt(s[i]) && LiveAt(s[j])
      ensures s[i].replica != s[j].replica
    {
      if j >= n {
        var r := Created(ops)[j - n];
        assert s[j] == Fresh(r, hash);
        if i < n {
          CreatedSlot(pods, ops, hash, r);
        } else {
          assert s[i] == Fresh(Created(ops)[i - n], hash);
        }
      }
    }
  }

  // ---------------------------------------------------------------- the plan is orderly

  lemma {:induction false} ClearsConcat(pods: seq<Pod>, a: seq<Op>, b: seq<Op>)
    requires Clears(pods, a) && Clears(pods, b)
    ensures Clears(pods, a + b)
  {
    var ops := a + b;
    forall q, i: nat | 0 <= q < |ops| && ops[q].Create? && i < |pods|
                       && !pods[i].terminating && Bucket(pods[i]) == ops[q].replica
      ensures Delete(i) in ops[..q]
    {
      if q < |a| {
        assert ops[..q] == a[..q];
      } else {
        assert Delete(i) in b[..q - |a|];
        assert ops[..q] == a + b[..q - |a|];
      }
    }
  }

  lemma {:induction false} ReplaceCreated(pods: seq<Pod>, hash: string, r: int)
    ensures Created(Replace(pods, hash, r)) == [r]
  {
    var slot := Slot(pods, r, |pods|);
    var outdated := Outdated(pods, slot, hash, 0);
    DeletesOnly(outdated);
    CreatedConcat(outdated, [Create(r)]);
    assert Created([Create(r)]) == [r];
  }

  lemma {:induction false} ReplaceClears(pods: seq<Pod>, hash: string, r: int)
    requires !OnHash(pods, r, hash)
    ensures Clears(pods, Replace(pods, hash, r))
  {
    var slot := Slot(pods, r, |pods|);
    var outdated := Outdated(pods, slot, hash, 0);
    forall i: nat | i < |pods| && !pods[i].terminating && Bucket(pods[i]) == r
      ensures Delete(i) in outdated
    {
      assert i in slot;
    }
    assert Replace(pods, hash, r)[..|outdated|] == outdated;
  }

  /** `op` deletes a live old pod in one of the slots `rs`. */
  ghost predicate DeletesOld(op: Op, pods: seq<Pod>, hash: string, rs: seq<int>) {
    op.Delete? && op.index < |pods| && LiveOld(pods[op.index], hash) && Bucket(pods[op.index]) in rs
  }

  lemma {:induction false} ReplacesCreated(pods: seq<Pod>, hash: string, rs: seq<int>)
    ensures Created(Replaces(pods, hash, rs)) == rs
  {
    hide Replace;
    if rs != [] {
      ReplacesCreated(pods, hash, rs[1..]);
      ReplaceCreated(pods, hash, rs[0]);
      CreatedConcat(Replace(pods, hash, rs[0]), Replaces(pods, hash, rs[1..]));
    }
  }

  lemma {:induction false} ReplacesClears(pods: seq<Pod>, hash: string, rs: seq<int>)
    requires forall a :: 0 <= a < |rs| ==> !OnHash(pods, rs[a], hash)
    ensures Clears(pods, Replaces(pods, hash, rs))
  {
    if rs != [] {
      ReplacesClears(pods, hash, rs[1..]);
      ReplaceClears(pods, hash, rs[0]);
      ClearsConcat(pods, Replace(pods, hash, rs[0]), Replaces(pods, hash, rs[1..]));
    }
  }

  lemma {:induction false} ReplacesDeletes(pods: seq<Pod>, hash: string, rs: seq<int>, op: Op)
    requires op in Replaces(pods, hash, rs) && op.Delete?
    ensures DeletesOld(op, pods, hash, rs)
  {
    if op in Replaces(pods, hash, rs[1..]) {
      ReplacesDeletes(pods, hash, rs[1..], op);
    } else {
      assert op in Replace(pods, hash, rs[0]);
    }
  }

  lemma {:induction false} DeletesOnly(ops: seq<Op>)
    requires forall q :: 0 <= q < |ops| ==> ops[q].Delete?
    ensures Created(ops) == []
  {
    if ops != [] {
      DeletesOnly(ops[..|ops| - 1]);
    }
  }

  lemma {:induction false} CreatedCreates(rs: seq<int>)
    ensures Created(Creates(rs)) == rs
  {
    if rs != [] {
      var rs' := rs[..|rs| - 1];
      CreatedCreates(rs');
      assert Creates(rs)[..|rs| - 1] == Creates(rs');
    }
  }

  lemma {:induction false} BatchStale(pods: seq<Pod>, hash: string, desired: nat, mu: nat)
    ensures var batch := Batch(pods, hash, desired, mu);
            && |batch| <= mu
            && Distinct(batch)
            && (batch != [] ==> Updated(pods, hash, desired, false) <= Updated(pods, hash, desired, true))
            && forall r :: r in batch ==> 0 <= r < desired && HasLive(pods, r) && !OnHash(pods, r, hash)
  {
    var stale, batch := Stale(pods, hash, desired), Batch(pods, hash, desired, mu);
    assert batch <= stale;
    forall r | r in batch
      ensures r in stale
    {
    }
  }

  lemma {:induction false} CreateMissingClears(pods: seq<Pod>, desired: nat)
    ensures Clears(pods, Creates(Missing(pods, desired)))
  {
    var missing := Missing(pods, desired);
    forall q | 0 <= q < |missing|
      ensures !HasLive(pods, missing[q])
    {
      assert missing[q] in missing;
    }
  }

  /** Which pods a pass deletes. */
  ghost predicate Doomed(op: Op, pods: seq<Pod>, desired: nat, hash: string, mu: nat) {
    && op.Delete? && op.index < |pods| && !pods[op.index].terminating
    && (|| !InWindow(Bucket(pods[op.index]), desired)
        || op in DuplicatesFrom(pods, hash, 0, desired)
        || DeletesOld(op, pods, hash, Batch(pods, hash, desired, mu)))
  }

  lemma {:induction false} PlanDeletes(pods: seq<Pod>, desired: nat, hash: string, mu: nat, outside: seq<nat>, op: Op)
    requires IsOutside(pods, desired, outside)
    requires op in Plan(pods, desired, hash, mu, outside) && op.Delete?
    ensures Doomed(op, pods, desired, hash, mu)
  {
    hide DuplicatesFrom, Missing, Batch, Replaces;
    if op in Deletes(outside) {
      assert op.index in outside;
    } else if op in Replaces(pods, hash, Batch(pods, hash, desired, mu)) {
      ReplacesDeletes(pods, hash, Batch(pods, hash, desired, mu), op);
    }
  }

  lemma {:induction false} PlanCreated(pods: seq<Pod>, desired: nat, hash: string, mu: nat, outside: seq<nat>)
    ensures Created(Plan(pods, desired, hash, mu, outside))
            == Missing(pods, desired) + Batch(pods, hash, desired, mu)
  {
    hide Created, DuplicatesFrom, Missing, Batch, Replaces;
    var missing, batch := Missing(pods, desired), Batch(pods, hash, desired, mu);
    var ab := Deletes(outside) + DuplicatesFrom(pods, hash, 0, desired);
    DeletesOnly(ab);
    CreatedCreates(missing);
    ReplacesCreated(pods, hash, batch);
    CreatedThree(ab, Creates(missing), Replaces(pods, hash, batch), missing, batch);
  }

  lemma {:induction false} PlanClears(pods: seq<Pod>, desired: nat, hash: string, mu: nat, outside: seq<nat>)
    ensures Clears(pods, Plan(pods, desired, hash, mu, outside))
  {
    var missing, batch := Missing(pods, desired), Batch(pods, hash, desired, mu);
    var ab := Deletes(outside) + DuplicatesFrom(pods, hash, 0, desired);
    CreateMissingClears(pods, desired);
    ClearsConcat(pods, ab, Creates(missing));
    BatchStale(pods, hash, desired, mu);
    ReplacesClears(pods, hash, batch);
    ClearsConcat(pods, ab + Creates(missing), Replaces(pods, hash, batch));
  }

  lemma {:induction false} MissingApartFromBatch(pods: seq<Pod>, desired: nat, hash: string, mu: nat)
    ensures Distinct(Missing(pods, desired) + Batch(pods, hash, desired, mu))
  {
    var missing, batch := Missing(pods, desired), Batch(pods, hash, desired, mu);
    BatchStale(pods, hash, desired, mu);
    forall i, j | 0 <= i < |missing| && 0 <= j < |batch|
      ensures missing[i] != batch[j]
    {
      assert missing[i] in missing && batch[j] in batch;
    }
  }

  /** Every plan, whatever the pods it starts from, clears a slot before creating it. */
  lemma {:induction false} PlanOrderly(pods: seq<Pod>, desired: nat, hash: string, mu: nat, outside: seq<nat>)
    requires IsOutside(pods, desired, outside)
    ensures Orderly(pods, Plan(pods, desired, hash, mu, outside))
  {
    var plan := Plan(pods, desired, hash, mu, outside);
    PlanCreated(pods, desired, hash, mu, outside);
    PlanClears(pods, desired, hash, mu, outside);
    MissingApartFromBatch(pods, desired, hash, mu);
    BatchStale(pods, hash, desired, mu);
    forall q | 0 <= q < |plan|
      ensures plan[q].Delete? ==> plan[q].index < |pods|
      ensures plan[q].Create? ==> 0 <= plan[q].replica
    {
      if plan[q].Delete? {
        PlanDeletes(pods, desired, hash, mu, outside, plan[q]);
      } else {
        CreatedIff(plan, plan[q].replica);
      }
    }
  }

  // ---------------------------------------------------------------- what one error-free pass achieves

  /** What a pass aims for: AgentDeploy spec values and the hash of the rendered pod spec. */
  datatype Target = Target(desired: nat, hash: string, maxUnavailable: nat)

  ghost function PlanOf(pods: seq<Pod>, t: Target, outside: seq<nat>): seq<Op> {
    Plan(pods, t.desired, t.hash, t.maxUnavailable, outside)
  }

  ghost function BatchOf(pods: seq<Pod>, t: Target): seq<int> {
    Batch(pods, t.hash, t.desired, t.maxUnavailable)
  }

  lemma {:induction false} Apart(pods: seq<Pod>, i: nat, j: nat)
    requires OneLive(pods) && i < j < |pods|
    requires pods[i].replica.Some? && pods[i].replica == pods[j].replica
    ensures pods[i].terminating || pods[j].terminating
  {
    assert LiveAt(pods[i]) <==> !pods[i].terminating;
  }

  lemma {:induction false} NoDuplicatesInSlot(pods: seq<Pod>, r: nat, hash: string, n: nat)
    requires OneLive(pods) && n <= |Slot(pods, r, |pods|)|
    ensures Duplicates(pods, Slot(pods, r, |pods|), hash, n) == []
    decreases |Slot(pods, r, |pods|)| - n
  {
    hide Slot, OneLive;
    var slot := Slot(pods, r, |pods|);
    if n < |slot| {
      NoDuplicatesInSlot(pods, r, hash, n + 1);
      if SlotOn(pods, slot, hash, n) {
        var a :| 0 <= a < n && LiveOn(pods[slot[a]], hash);
        assert slot[a] in slot && slot[n] in slot;
        SlotAscends(pods, r, |pods|);
        Apart(pods, slot[a], slot[n]);
      }
    }
  }

  lemma {:induction false} NoDuplicatesAt(pods: seq<Pod>, r: nat, hash: string)
    requires OneLive(pods)
    ensures DuplicatesAt(pods, r, hash) == []
  {
    NoDuplicatesInSlot(pods, r, hash, 0);
  }

  lemma {:induction false} NoDuplicates(pods: seq<Pod>, hash: string, r: nat, desired: nat)
    requires OneLive(pods) && r <= desired
    ensures DuplicatesFrom(pods, hash, r, desired) == []
    decreases desired - r
  {
    hide DuplicatesAt;
    if r < desired {
      NoDuplicates(pods, hash, r + 1, desired);
      NoDuplicatesAt(pods, r, hash);
    }
  }

  /** At every instant of a pass, a slot that needs neither creation nor replacement is as it was. */
  lemma {:induction false} PassKeepsSlot(pods: seq<Pod>, t: Target, outside: seq<nat>, p: seq<Op>, r: int)
    requires OneLive(pods) && IsOutside(pods, t.desired, outside) && p <= PlanOf(pods, t, outside)
    requires InWindow(r, t.desired) && HasLive(pods, r) && r !in BatchOf(pods, t)
    ensures var s := DoAll(pods, p, t.hash);
            && HasLive(s, r)
            && (ReadyAt(s, r) <==> ReadyAt(pods, r))
            && (OnHash(s, r, t.hash) <==> OnHash(pods, r, t.hash))
  {
    var plan := PlanOf(pods, t, outside);
    PlanOrderly(pods, t.desired, t.hash, t.maxUnavailable, outside);
    PlanCreated(pods, t.desired, t.hash, t.maxUnavailable, outside);
    OrderlyPrefix(pods, plan, p);
    assert r !in Created(plan);
    CreatedIff(plan, r);
    CreatedIff(p, r);
    forall i: nat | i < |pods| && Bucket(pods[i]) == r
      ensures Delete(i) !in p
    {
      if Delete(i) in p {
        assert Delete(i) in plan;
        PlanDeletes(pods, t.desired, t.hash, t.maxUnavailable, outside, Delete(i));
        NoDuplicates(pods, t.hash, 0, t.desired);
      }
    }
    UntouchedSlot(pods, p, t.hash, r);
  }

  lemma {:induction false} PassFillsSlot(pods: seq<Pod>, t: Target, outside: seq<nat>, r: int)
    requires IsOutside(pods, t.desired, outside)
    requires r in Missing(pods, t.desired) || r in BatchOf(pods, t)
    ensures var s := DoAll(pods, PlanOf(pods, t, outside), t.hash);
            HasLive(s, r) && OnHash(s, r, t.hash) && !ReadyAt(s, r)
  {
    PlanOrderly(pods, t.desired, t.hash, t.maxUnavailable, outside);
    PlanCreated(pods, t.desired, t.hash, t.maxUnavailable, outside);
    CreatedSlot(pods, PlanOf(pods, t, outside), t.hash, r);
  }

  lemma {:induction false} PassEmptiesOutside(pods: seq<Pod>, t: Target, outside: seq<nat>, r: int)
    requires IsOutside(pods, t.desired, outside) && !InWindow(r, t.desired)
    ensures !HasLive(DoAll(pods, PlanOf(pods, t, outside), t.hash), r)
  {
    hide Batch, Missing, DuplicatesFrom, Replaces;
    var plan := PlanOf(pods, t, outside);
    PlanOrderly(pods, t.desired, t.hash, t.maxUnavailable, outside);
    PlanCreated(pods, t.desired, t.hash, t.maxUnavailable, outside);
    BatchStale(pods, t.hash, t.desired, t.maxUnavailable);
    Shape(pods, plan, t.hash);
    forall i: nat | i < |pods| && Bucket(pods[i]) == r && !pods[i].terminating
      ensures Delete(i) in plan
    {
      assert i in outside;
      var q :| 0 <= q < |outside| && outside[q] == i;
      assert plan[q] == Delete(i);
    }
    forall j | 0 <= j < |Created(plan)|
      ensures Created(plan)[j] != r
    {
      assert Created(plan)[j] in Created(plan);
    }
  }

  /** An error-free pass: who is live, on the desired hash and Ready afterwards, slot by slot. */
  lemma {:induction false} PassEffect(pods: seq<Pod>, t: Target, outside: seq<nat>)
    requires OneLive(pods) && IsOutside(pods, t.desired, outside)
    ensures var s := DoAll(pods, PlanOf(pods, t, outside), t.hash);
            && OneLive(s)
            && (forall r :: HasLive(s, r) <==> InWindow(r, t.desired))
            && (forall r :: InWindow(r, t.desired) ==>
                  (OnHash(s, r, t.hash) <==> r !in Stale(pods, t.hash, t.desired) || r in BatchOf(pods, t)))
            && (forall r :: InWindow(r, t.desired) ==>
                  (ReadyAt(s, r) <==> ReadyAt(pods, r) && r !in BatchOf(pods, t)))
  {
    var plan := PlanOf(pods, t, outside);
    var s := DoAll(pods, plan, t.hash);
    PlanOrderly(pods, t.desired, t.hash, t.maxUnavailable, outside);
    OrderlyOneLive(pods, plan, t.hash);
    forall r
      ensures HasLive(s, r) <==> InWindow(r, t.desired)
      ensures InWindow(r, t.desired) ==>
                (OnHash(s, r, t.hash) <==> r !in Stale(pods, t.hash, t.desired) || r in BatchOf(pods, t))
      ensures InWindow(r, t.desired) ==>
                (ReadyAt(s, r) <==> ReadyAt(pods, r) && r !in BatchOf(pods, t))
    {
      if !InWindow(r, t.desired) {
        PassEmptiesOutside(pods, t, outside, r);
      } else if HasLive(pods, r) && r !in BatchOf(pods, t) {
        PassKeepsSlot(pods, t, outside, plan, r);
      } else {
        PassFillsSlot(pods, t, outside, r);
      }
    }
  }

  // ---------------------------------------------------------------- a pass and what happens meanwhile

  /** The environment changes a pod's readiness, terminates a pod, or removes a terminating pod. */
  datatype Env =
    | Readiness(pod: nat, ready: bool)
    | Evict(pod: nat)
    | Vanish(pod: nat)

  /** A moment of a pass: its next API call, or a step of the environment. */
  datatype Moment = Call | Meanwhile(env: Env)

  /**
   A pass under way: positions stay as listed, `gone` has vanished, and `done` calls of the plan have been made.
   A call that deletes a pod which is already terminating or gone changes nothing.
   */
  datatype Mid = Mid(pods: seq<Pod>, gone: set<nat>, done: nat)

  ghost function MidNext(m: Mid, plan: seq<Op>, hash: string, moment: Moment): Mid {
    match moment
    case Call => if m.done < |plan| then m.(pods := Do(m.pods, plan[m.done], hash), done := m.done + 1) else m
    case Meanwhile(env) => if env.pod < |m.pods| && env.pod !in m.gone then MidEnv(m, env) else m
  }

  ghost function MidEnv(m: Mid, env: Env): Mid
    requires env.pod < |m.pods|
  {
    match env
    case Readiness(i, ready) => m.(pods := m.pods[i := m.pods[i].(ready := ready)])
    case Evict(i) => m.(pods := m.pods[i := m.pods[i].(terminating := true)])
    case Vanish(i) => if m.pods[i].terminating then m.(gone := m.gone + {i}) else m
  }

  /** After some moments of a pass over `pods`. */
  ghost function MidRun(pods: seq<Pod>, plan: seq<Op>, hash: string, moments: seq<Moment>): Mid {
    if moments == [] then Mid(pods, {}, 0)
    else MidNext(MidRun(pods, plan, hash, moments[..|moments| - 1]), plan, hash, moments[|moments| - 1])
  }

  /** The pods at the first n positions that have not vanished. */
  ghost function Without(pods: seq<Pod>, gone: set<nat>, n: nat): seq<Pod>
    requires n <= |pods|
  {
    if n == 0 then []
    else Without(pods, gone, n - 1) + if n - 1 in gone then [] else [pods[n - 1]]
  }

  ghost function Visible(m: Mid): seq<Pod> {
    Without(m.pods, m.gone, |m.pods|)
  }

  /** Pods only turn Ready and only terminating pods go. */
  ghost predicate CalmEnv(env: Env) {
    match env
    case Readiness(_, ready) => ready
    case Evict(_) => false
    case Vanish(_) => true
  }

  ghost predicate Calm(moments: seq<Moment>) {
    forall q :: 0 <= q < |moments| && moments[q].Meanwhile? ==> CalmEnv(moments[q].env)
  }

  /** p is what the environment has made of q; if it was calm, p is as live as q and at least as Ready. */
  ghost predicate Follows(p: Pod, q: Pod, calm: bool) {
    && p.replica == q.replica && p.hash == q.hash && (q.terminating ==> p.terminating)
    && (calm ==> p.terminating == q.terminating && (q.ready ==> p.ready))
  }

  ghost predicate Tracks(a: seq<Pod>, d: seq<Pod>, calm: bool) {
    |a| == |d| && forall i :: 0 <= i < |a| ==> Follows(a[i], d[i], calm)
  }

  ghost predicate MidOk(m: Mid, pods: seq<Pod>, plan: seq<Op>, hash: string, calm: bool) {
    && m.done <= |plan| && Tracks(m.pods, DoAll(pods, plan[..m.done], hash), calm)
    && forall i :: i in m.gone ==> i < |m.pods| && m.pods[i].terminating
  }

  lemma {:induction false} CallTracks(a: seq<Pod>, d: seq<Pod>, op: Op, hash: string, calm: bool)
    requires Tracks(a, d, calm)
    ensures Tracks(Do(a, op, hash), Do(d, op, hash), calm)
    ensures |a| <= |Do(a, op, hash)|
    ensures forall i :: 0 <= i < |a| && a[i].terminating ==> Do(a, op, hash)[i].terminating
  {
  }

  lemma {:induction false} MidNextOk(
      m: Mid, pods: seq<Pod>, plan: seq<Op>, hash: string, moment: Moment, calm: bool)
    requires MidOk(m, pods, plan, hash, calm)
    requires calm && moment.Meanwhile? ==> CalmEnv(moment.env)
    ensures MidOk(MidNext(m, plan, hash, moment), pods, plan, hash, calm)
  {
    hide Do, DoAll;
    if moment.Call? && m.done < |plan| {
      assert plan[..m.done + 1] == plan[..m.done] + [plan[m.done]];
      DoAllAppend(pods, plan[..m.done], plan[m.done], hash);
      CallTracks(m.pods, DoAll(pods, plan[..m.done], hash), plan[m.done], hash, calm);
    }
  }

  /** Whatever happens meanwhile, a pass under way follows the calls it has made. */
  lemma {:induction false} MidRunOk(pods: seq<Pod>, plan: seq<Op>, hash: string, moments: seq<Moment>, calm: bool)
    requires calm ==> Calm(moments)
    ensures MidOk(MidRun(pods, plan, hash, moments), pods, plan, hash, calm)
  {
    if moments == [] {
      assert plan[..0] == [] && DoAll(pods, [], hash) == pods;
    } else {
      hide MidOk, MidNext;
      var before := moments[..|moments| - 1];
      MidRunOk(pods, plan, hash, before, calm);
      MidNextOk(MidRun(pods, plan, hash, before), pods, plan, hash, moments[|moments| - 1], calm);
    }
  }

  lemma {:induction false} WithoutHas(pods: seq<Pod>, gone: set<nat>, n: nat, good: Pod -> bool)
    requires n <= |pods|
    ensures (exists k :: 0 <= k < |Without(pods, gone, n)| && good(Without(pods, gone, n)[k]))
            <==> exists i :: 0 <= i < n && i !in gone && good(pods[i])
  {
    if n > 0 {
      WithoutHas(pods, gone, n - 1, good);
      var before, after := Without(pods, gone, n - 1), Without(pods, gone, n);
      if k :| 0 <= k < |after| && good(after[k]) {
        if k < |before| {
          assert good(before[k]);
        } else {
          assert good(pods[n - 1]) && n - 1 !in gone;
        }
      }
      if i :| 0 <= i < n && i !in gone && good(pods[i]) {
        if i == n - 1 {
          assert after[|before|] == pods[i];
        } else {
          var k :| 0 <= k < |before| && good(before[k]);
          assert after[k] == before[k];
        }
      }
    }
  }

  /** Only terminating pods vanish, so nothing that is about live pods can tell. */
  lemma {:induction false} VisibleSlot(m: Mid, r: int, hash: string)
    requires forall i :: i in m.gone ==> i < |m.pods| && m.pods[i].terminating
    ensures HasLive(Visible(m), r) <==> HasLive(m.pods, r)
    ensures OnHash(Visible(m), r, hash) <==> OnHash(m.pods, r, hash)
    ensures ReadyAt(Visible(m), r) <==> ReadyAt(m.pods, r)
  {
    hide Without;
    WithoutHas(m.pods, m.gone, |m.pods|, (p: Pod) => !p.terminating && Bucket(p) == r);
    WithoutHas(m.pods, m.gone, |m.pods|, (p: Pod) => LiveOn(p, hash) && Bucket(p) == r);
    WithoutHas(m.pods, m.gone, |m.pods|, (p: Pod) => !p.terminating && p.ready && Bucket(p) == r);
  }

  lemma {:induction false} WithoutOneLive(pods: seq<Pod>, gone: set<nat>, n: nat)
    requires n <= |pods| && OneLive(pods)
    ensures OneLive(Without(pods, gone, n))
  {
    if n > 0 {
      WithoutOneLive(pods, gone, n - 1);
      var before := Without(pods, gone, n - 1);
      forall k | 0 <= k < |before| && LiveAt(before[k]) && LiveAt(pods[n - 1])
        ensures before[k].replica != pods[n - 1].replica
      {
        WithoutHas(pods, gone, n - 1, (p: Pod) => p == before[k]);
      }
    }
  }

  lemma {:induction false} TracksOneLive(a: seq<Pod>, d: seq<Pod>, calm: bool)
    requires Tracks(a, d, calm) && OneLive(d)
    ensures OneLive(a)
  {
    forall i, j | 0 <= i < j < |a| && LiveAt(a[i]) && LiveAt(a[j])
      ensures a[i].replica != a[j].replica
    {
      assert Follows(a[i], d[i], calm) && Follows(a[j], d[j], calm);
    }
  }

  lemma {:induction false} TracksSlot(a: seq<Pod>, d: seq<Pod>, r: int, hash: string)
    requires Tracks(a, d, true)
    ensures HasLive(a, r) <==> HasLive(d, r)
    ensures OnHash(a, r, hash) <==> OnHash(d, r, hash)
    ensures ReadyAt(d, r) ==> ReadyAt(a, r)
  {
    assert forall i :: 0 <= i < |a| ==> Follows(a[i], d[i], true);
  }

  /** Any moment of any pass, whatever the environment does: no index gets a second live pod. */
  lemma {:induction false} OneLiveInPass(pods: seq<Pod>, t: Target, outside: seq<nat>, moments: seq<Moment>)
    requires OneLive(pods) && IsOutside(pods, t.desired, outside)
    ensures OneLive(Visible(MidRun(pods, PlanOf(pods, t, outside), t.hash, moments)))
  {
    hide Plan, OneLive, DoAll, MidRun, Without, Tracks;
    var plan := PlanOf(pods, t, outside);
    var m := MidRun(pods, plan, t.hash, moments);
    MidRunOk(pods, plan, t.hash, moments, false);
    PlanOrderly(pods, t.desired, t.hash, t.maxUnavailable, outside);
    OrderlyPrefix(pods, plan, plan[..m.done]);
    OrderlyOneLive(pods, plan[..m.done], t.hash);
    TracksOneLive(m.pods, DoAll(pods, plan[..m.done], t.hash), false);
    WithoutOneLive(m.pods, m.gone, |m.pods|);
  }

  /** In calm times a moment of a pass looks, slot by slot, like the calls made so far, or more Ready. */
  lemma {:induction false} CalmSlot(pods: seq<Pod>, plan: seq<Op>, hash: string, moments: seq<Moment>, r: int)
    requires Calm(moments)
    ensures var m := MidRun(pods, plan, hash, moments);
            m.done <= |plan| &&
            var s, d := Visible(m), DoAll(pods, plan[..m.done], hash);
            && (HasLive(s, r) <==> HasLive(d, r))
            && (OnHash(s, r, hash) <==> OnHash(d, r, hash))
            && (ReadyAt(d, r) ==> ReadyAt(s, r))
  {
    hide DoAll, MidRun, Without, Tracks, HasLive, OnHash, ReadyAt;
    var m := MidRun(pods, plan, hash, moments);
    MidRunOk(pods, plan, hash, moments, true);
    TracksSlot(m.pods, DoAll(pods, plan[..m.done], hash), r, hash);
    VisibleSlot(m, r, hash);
  }

  // ---------------------------------------------------------------- runs

  /** One step of a run: the environment acts, or a pass for a target happens, cut off or not, with what it races. */
  datatype Event =
    | Outside(env: Env)
    | Pass(target: Target, outside: seq<nat>, moments: seq<Moment>)

  ghost predicate Enabled(pods: seq<Pod>, e: Event) {
    match e
    case Outside(env) => env.pod < |pods| && (env.Vanish? ==> pods[env.pod].terminating)
    case Pass(t, outside, _) => IsOutside(pods, t.desired, outside)
  }

  ghost function Apply(pods: seq<Pod>, e: Event): seq<Pod>
    requires Enabled(pods, e)
  {
    match e
    case Outside(Readiness(i, ready)) => pods[i := pods[i].(ready := ready)]
    case Outside(Evict(i)) => pods[i := pods[i].(terminating := true)]
    case Outside(Vanish(i)) => pods[..i] + pods[i + 1..]
    case Pass(t, outside, moments) => Visible(MidRun(pods, PlanOf(pods, t, outside), t.hash, moments))
  }

  /** The states of a run, one more than its events. */
  ghost predicate IsRun(states: seq<seq<Pod>>, events: seq<Event>) {
    && |states| == |events| + 1
    && forall k :: 0 <= k < |events| ==> Enabled(states[k], events[k]) && states[k + 1] == Apply(states[k], events[k])
  }

  /**
   Hash edits, rescales, evictions, readiness changes and passes cut off at any call, with the environment acting
   between any two calls, keep at most one live pod per index.
   */
  lemma {:induction false} OneLiveAlways(states: seq<seq<Pod>>, events: seq<Event>, k: nat)
    requires IsRun(states, events) && OneLive(states[0]) && k <= |events|
    ensures OneLive(states[k])
  {
    hide Apply, Enabled, OneLive;
    if k > 0 {
      OneLiveAlways(states, events, k - 1);
      OneLiveStep(states[k - 1], events[k - 1]);
    }
  }

  lemma {:induction false} OneLiveStep(pods: seq<Pod>, e: Event)
    requires OneLive(pods) && Enabled(pods, e)
    ensures OneLive(Apply(pods, e))
  {
    hide MidRun, Visible, Plan;
    match e
    case Outside(env) => OneLiveOutside(pods, env);
    case Pass(t, outside, moments) => OneLiveInPass(pods, t, outside, moments);
  }

  lemma {:induction false} OneLiveOutside(pods: seq<Pod>, env: Env)
    requires OneLive(pods) && Enabled(pods, Outside(env))
    ensures OneLive(Apply(pods, Outside(env)))
  {
  }

  // ---------------------------------------------------------------- one rollout

  /** The call-by-call outcome of a pass is its whole plan. */
  ghost predicate ErrorFree(pods: seq<Pod>, t: Target, outside: seq<nat>, moments: seq<Moment>) {
    var plan := PlanOf(pods, t, outside);
    MidRun(pods, plan, t.hash, moments).done == |plan|
  }

  /** Error-free passes for one target, while pods turn Ready and terminating pods vanish, also between two calls. */
  ghost predicate InRollout(pods: seq<Pod>, e: Event, t: Target) {
    match e
    case Outside(env) => CalmEnv(env)
    case Pass(t', outside, moments) => t' == t && Calm(moments) && ErrorFree(pods, t, outside, moments)
  }

  ghost predicate IsRollout(states: seq<seq<Pod>>, events: seq<Event>, t: Target) {
    IsRun(states, events) && forall k :: 0 <= k < |events| ==> InRollout(states[k], events[k], t)
  }

  /** The in-window slots without a live Ready pod. */
  ghost function Unready(pods: seq<Pod>, desired: nat): set<int> {
    set r | r in Range(desired) && !ReadyAt(pods, r)
  }

  lemma {:induction false} RemovedHas(pods: seq<Pod>, i: nat, good: Pod -> bool)
    requires i < |pods| && !good(pods[i])
    ensures var s := pods[..i] + pods[i + 1..];
            (exists k :: 0 <= k < |s| && good(s[k])) <==> exists j :: 0 <= j < |pods| && good(pods[j])
  {
    var s := pods[..i] + pods[i + 1..];
    if k :| 0 <= k < |s| && good(s[k]) {
      assert good(pods[if k < i then k else k + 1]);
    }
    if j :| 0 <= j < |pods| && good(pods[j]) {
      assert good(s[if j < i then j else j - 1]);
    }
  }

  lemma {:induction false} RemovedSlot(pods: seq<Pod>, i: nat, r: int, hash: string)
    requires i < |pods| && pods[i].terminating
    ensures var s := pods[..i] + pods[i + 1..];
            && (HasLive(s, r) <==> HasLive(pods, r))
            && (OnHash(s, r, hash) <==> OnHash(pods, r, hash))
            && (ReadyAt(s, r) <==> ReadyAt(pods, r))
  {
    RemovedHas(pods, i, (p: Pod) => !p.terminating && Bucket(p) == r);
    RemovedHas(pods, i, (p: Pod) => LiveOn(p, hash) && Bucket(p) == r);
    RemovedHas(pods, i, (p: Pod) => !p.terminating && p.ready && Bucket(p) == r);
  }

  /** The environment steps of a rollout keep what is live and never take readiness away. */
  lemma {:induction false} EnvironmentKeeps(pods: seq<Pod>, e: Event, t: Target, r: int)
    requires Enabled(pods, e) && InRollout(pods, e, t) && !e.Pass?
    ensures var s := Apply(pods, e);
            && (HasLive(s, r) <==> HasLive(pods, r))
            && (OnHash(s, r, t.hash) <==> OnHash(pods, r, t.hash))
            && (ReadyAt(pods, r) ==> ReadyAt(s, r))
  {
    hide HasLive, OnHash, ReadyAt;
    if e.env.Vanish? {
      RemovedSlot(pods, e.env.pod, r, t.hash);
    } else {
      TracksSlot(Apply(pods, e), pods, r, t.hash);
    }
  }

  /** What a pass of a rollout leaves behind is, slot by slot, what its plan does, or more Ready. */
  lemma {:induction false} PassInRollout(pods: seq<Pod>, e: Event, t: Target, r: int)
    requires Enabled(pods, e) && InRollout(pods, e, t) && e.Pass?
    ensures var s, d := Apply(pods, e), DoAll(pods, PlanOf(pods, t, e.outside), t.hash);
            && (HasLive(s, r) <==> HasLive(d, r))
            && (OnHash(s, r, t.hash) <==> OnHash(d, r, t.hash))
            && (ReadyAt(d, r) ==> ReadyAt(s, r))
  {
    hide DoAll, MidRun, Visible, Plan, HasLive, OnHash, ReadyAt;
    var plan := PlanOf(pods, t, e.outside);
    CalmSlot(pods, plan, t.hash, e.moments, r);
    assert plan[..|plan|] == plan;
  }

  /** Between passes: no slot is empty, and the slots that are not Ready are few and already updated. */
  ghost predicate Available(pods: seq<Pod>, t: Target) {
    && OneLive(pods)
    && (forall r :: InWindow(r, t.desired) ==> HasLive(pods, r))
    && (forall r :: InWindow(r, t.desired) && !ReadyAt(pods, r) ==> OnHash(pods, r, t.hash))
    && |Unready(pods, t.desired)| <= t.maxUnavailable
  }

  /** An open gate means every kept pod is Ready. */
  lemma {:induction false} OpenGate(pods: seq<Pod>, hash: string, n: nat)
    ensures Updated(pods, hash, n, true) <= Updated(pods, hash, n, false)
    ensures Updated(pods, hash, n, true) == Updated(pods, hash, n, false) ==>
              forall r :: 0 <= r < n && OnHash(pods, r, hash) ==> ReadyAt(pods, r)
  {
    hide KeptAt;
    if n > 0 {
      OpenGate(pods, hash, n - 1);
    }
  }

  /** At every instant of a pass at most maxUnavailable slots are without a live Ready pod. */
  lemma {:induction false} AvailableInPass(pods: seq<Pod>, t: Target, outside: seq<nat>, p: seq<Op>)
    requires Available(pods, t) && IsOutside(pods, t.desired, outside) && p <= PlanOf(pods, t, outside)
    ensures |Unready(DoAll(pods, p, t.hash), t.desired)| <= t.maxUnavailable
  {
    hide Batch, Plan, HasLive, OnHash;
    var s, batch := DoAll(pods, p, t.hash), BatchOf(pods, t);
    BatchStale(pods, t.hash, t.desired, t.maxUnavailable);
    forall r | InWindow(r, t.desired) && r !in batch
      ensures ReadyAt(s, r) <==> ReadyAt(pods, r)
    {
      PassKeepsSlot(pods, t, outside, p, r);
    }
    if batch == [] {
      assert Unready(s, t.desired) == Unready(pods, t.desired);
    } else {
      OpenGate(pods, t.hash, t.desired);
      assert Unready(s, t.desired) <= Elements(batch);
      DistinctSize(batch);
      SubsetSize(Unready(s, t.desired), Elements(batch));
    }
  }

  /** The same with the environment acting between the calls. */
  lemma {:induction false} AvailableMeanwhile(pods: seq<Pod>, t: Target, outside: seq<nat>, moments: seq<Moment>)
    requires Available(pods, t) && IsOutside(pods, t.desired, outside) && Calm(moments)
    ensures |Unready(Visible(MidRun(pods, PlanOf(pods, t, outside), t.hash, moments)), t.desired)| <= t.maxUnavailable
  {
    hide Available, DoAll, MidRun, Visible, Plan, HasLive, OnHash, ReadyAt;
    var plan := PlanOf(pods, t, outside);
    var m := MidRun(pods, plan, t.hash, moments);
    CalmSlot(pods, plan, t.hash, moments, 0);
    var d := DoAll(pods, plan[..m.done], t.hash);
    AvailableInPass(pods, t, outside, plan[..m.done]);
    forall r
      ensures ReadyAt(d, r) ==> ReadyAt(Visible(m), r)
    {
      CalmSlot(pods, plan, t.hash, moments, r);
    }
    SubsetSize(Unready(Visible(m), t.desired), Unready(d, t.desired));
  }

  lemma {:induction false} AvailableAfterPass(pods: seq<Pod>, e: Event, t: Target)
    requires Available(pods, t) && Enabled(pods, e) && InRollout(pods, e, t) && e.Pass?
    ensures Available(Apply(pods, e), t)
  {
    hide DoAll, MidRun, Visible, Plan, Batch, HasLive, OnHash, ReadyAt, OneLive;
    var s, d := Apply(pods, e), DoAll(pods, PlanOf(pods, t, e.outside), t.hash);
    OneLiveStep(pods, e);
    PassEffect(pods, t, e.outside);
    AvailableMeanwhile(pods, t, e.outside, e.moments);
    forall r | InWindow(r, t.desired)
      ensures HasLive(s, r) && (!ReadyAt(s, r) ==> OnHash(s, r, t.hash))
    {
      PassInRollout(pods, e, t, r);
    }
  }

  lemma {:induction false} AvailableStep(pods: seq<Pod>, e: Event, t: Target)
    requires Available(pods, t) && Enabled(pods, e) && InRollout(pods, e, t)
    ensures Available(Apply(pods, e), t)
  {
    hide Apply, HasLive, OnHash, ReadyAt, OneLive;
    if e.Pass? {
      AvailableAfterPass(pods, e, t);
    } else {
      var s := Apply(pods, e);
      OneLiveStep(pods, e);
      forall r
        ensures (HasLive(s, r) <==> HasLive(pods, r)) && (OnHash(s, r, t.hash) <==> OnHash(pods, r, t.hash))
        ensures ReadyAt(pods, r) ==> ReadyAt(s, r)
      {
        EnvironmentKeeps(pods, e, t, r);
      }
      SubsetSize(Unready(s, t.desired), Unready(pods, t.desired));
    }
  }

  /**
   In a rollout that starts with one live Ready pod in every slot, the slots without a live Ready pod never exceed
   maxUnavailable: not between passes, and not at any moment of a pass, while pods turn Ready and vanish meanwhile.
   */
  lemma {:induction false} AvailabilityBound(
      states: seq<seq<Pod>>, events: seq<Event>, t: Target, k: nat, outside: seq<nat>, moments: seq<Moment>)
    requires IsRollout(states, events, t) && k <= |events|
    requires OneLive(states[0]) && forall r :: InWindow(r, t.desired) ==> ReadyAt(states[0], r)
    requires IsOutside(states[k], t.desired, outside) && Calm(moments)
    ensures |Unready(states[k], t.desired)| <= t.maxUnavailable
    ensures |Unready(Visible(MidRun(states[k], PlanOf(states[k], t, outside), t.hash, moments)), t.desired)|
            <= t.maxUnavailable
  {
    hide InRollout, Apply, Enabled, ReadyAt, OneLive, MidRun, Visible, Plan;
    AvailableAlways(states, events, t, k);
    AvailableMeanwhile(states[k], t, outside, moments);
  }

  lemma {:induction false} AvailableAlways(states: seq<seq<Pod>>, events: seq<Event>, t: Target, k: nat)
    requires IsRollout(states, events, t) && k <= |events|
    requires OneLive(states[0]) && forall r :: InWindow(r, t.desired) ==> ReadyAt(states[0], r)
    ensures Available(states[k], t)
  {
    hide Apply, Enabled, InRollout, OneLive, OnHash;
    if k == 0 {
      assert Unready(states[0], t.desired) == {};
    } else {
      hide Available;
      AvailableAlways(states, events, t, k - 1);
      AvailableStep(states[k - 1], events[k - 1], t);
    }
  }

  /** An error-free pass leaves not Ready exactly the slots that were not Ready and the slots it replaced. */
  lemma {:induction false} PassUnready(pods: seq<Pod>, t: Target, outside: seq<nat>)
    requires OneLive(pods) && IsOutside(pods, t.desired, outside)
    ensures Unready(DoAll(pods, PlanOf(pods, t, outside), t.hash), t.desired)
            == Unready(pods, t.desired) + Elements(BatchOf(pods, t))
  {
    hide DoAll, Plan, Batch, HasLive, OnHash, ReadyAt;
    PassEffect(pods, t, outside);
    BatchStale(pods, t.hash, t.desired, t.maxUnavailable);
  }

  /** So the bound holds after an error-free pass exactly when it holds for those slots. */
  lemma {:induction false} BoundIff(pods: seq<Pod>, t: Target, outside: seq<nat>)
    requires OneLive(pods) && IsOutside(pods, t.desired, outside)
    ensures |Unready(DoAll(pods, PlanOf(pods, t, outside), t.hash), t.desired)| <= t.maxUnavailable
            <==> |Unready(pods, t.desired) + Elements(BatchOf(pods, t))| <= t.maxUnavailable
  {
    hide DoAll, Plan, Batch, Unready;
    PassUnready(pods, t, outside);
  }

  /**
   When the gate is open and there are at least maxUnavailable old-hash slots, the bound holds after the pass
   exactly when no slot was empty and every old-hash slot that was not Ready is in the batch.
   */
  lemma {:induction false} FullBatchBoundIff(pods: seq<Pod>, t: Target, outside: seq<nat>)
    requires OneLive(pods) && IsOutside(pods, t.desired, outside)
    requires !Held(pods, t.hash, t.desired) && StaleCount(pods, t) >= t.maxUnavailable >= 1
    ensures |Unready(DoAll(pods, PlanOf(pods, t, outside), t.hash), t.desired)| <= t.maxUnavailable
            <==> && (forall r :: InWindow(r, t.desired) ==> HasLive(pods, r))
                 && forall r :: r in Stale(pods, t.hash, t.desired) && !ReadyAt(pods, r) ==> r in BatchOf(pods, t)
  {
    hide DoAll, Plan, Stale, HasLive, OnHash, ReadyAt, OneLive, IsOutside;
    var unready, batch := Unready(pods, t.desired), BatchOf(pods, t);
    BoundIff(pods, t, outside);
    BatchStale(pods, t.hash, t.desired, t.maxUnavailable);
    DistinctSize(batch);
    assert |Elements(batch)| == t.maxUnavailable;
    SubsetSize(Elements(batch), unready + Elements(batch));
    if unready <= Elements(batch) {
      assert unready + Elements(batch) == Elements(batch);
    }
    UnreadyOrStale(pods, t);
  }

  /** Behind an open gate, a slot that is not Ready is empty or on an old hash. */
  lemma {:induction false} UnreadyOrStale(pods: seq<Pod>, t: Target)
    requires !Held(pods, t.hash, t.desired) && Stale(pods, t.hash, t.desired) != []
    ensures forall r :: r in Unready(pods, t.desired) <==>
              InWindow(r, t.desired) && !ReadyAt(pods, r) && (!HasLive(pods, r) || r in Stale(pods, t.hash, t.desired))
    ensures forall r :: ReadyAt(pods, r) ==> HasLive(pods, r)
  {
    hide Updated;
    OpenGate(pods, t.hash, t.desired);
  }

  /**
   The bound needs error-free passes. A pass for two Ready pods with maxUnavailable 1 that stops after its
   deletion leaves slot 0 empty; the next pass creates slot 0 and, seeing no updated pod, also replaces slot 1.
   */
  lemma {:induction false} AbortedPassOvershoots(t: Target, pods: seq<Pod>)
    requires t == Target(2, "new", 1)
    requires pods == [Pod(Some(0), "old", false, true), Pod(Some(1), "old", false, true)]
    ensures OneLive(pods) && Unready(pods, 2) == {} && IsOutside(pods, 2, [])
    ensures [Delete(0)] <= PlanOf(pods, t, [])
    ensures var cut := DoAll(pods, [Delete(0)], "new");
            && IsOutside(cut, 2, [])
            && |Unready(DoAll(cut, PlanOf(cut, t, []), "new"), 2)| == 2
  {
    hide DuplicatesFrom, Missing, Stale, Updated, OneLive, HasLive, OnHash, ReadyAt, IsOutside, DoAll, Plan, Unready;
    WindowOfTwo(pods);
    FirstWrite(pods, t);
    var cut := DoAll(pods, [Delete(0)], "new");
    CutState(pods);
    WindowOfTwo(cut);
    assert BatchOf(cut, t) == [1];
    PassUnready(cut, t, []);
    assert {0} + Elements([1]) == {0, 1};
  }

  lemma CutState(pods: seq<Pod>)
    requires pods == [Pod(Some(0), "old", false, true), Pod(Some(1), "old", false, true)]
    ensures DoAll(pods, [Delete(0)], "new") == [Pod(Some(0), "old", true, true), Pod(Some(1), "old", false, true)]
  {
    DoAllAppend(pods, [], Delete(0), "new");
    assert [] + [Delete(0)] == [Delete(0)];
  }

  lemma {:induction false} FirstWrite(pods: seq<Pod>, t: Target)
    requires t == Target(2, "new", 1)
    requires pods == [Pod(Some(0), "old", false, true), Pod(Some(1), "old", false, true)]
    ensures [Delete(0)] <= PlanOf(pods, t, [])
  {
    hide DuplicatesFrom, Missing, Stale, Updated, OneLive, HasLive, OnHash, ReadyAt, IsOutside, DoAll, Replaces;
    WindowOfTwo(pods);
    assert BatchOf(pods, t) == [0];
    FirstReplace(pods);
    assert PlanOf(pods, t, []) == Replaces(pods, "new", [0]);
  }

  lemma {:induction false} FirstReplace(pods: seq<Pod>)
    requires pods == [Pod(Some(0), "old", false, true), Pod(Some(1), "old", false, true)]
    ensures [Delete(0)] <= Replaces(pods, "new", [0])
  {
    assert Replaces(pods, "new", [0]) == Replace(pods, "new", 0) + Replaces(pods, "new", []);
    assert Slot(pods, 0, 1) == [0] && Slot(pods, 0, 2) == [0];
    assert Outdated(pods, [0], "new", 0) == [Delete(0)] + Outdated(pods, [0], "new", 1);
  }

  /** Facts about two old Ready pods in slots 0 and 1, the first possibly terminating. */
  lemma {:induction false} WindowOfTwo(pods: seq<Pod>)
    requires |pods| == 2
    requires pods[0] == Pod(Some(0), "old", pods[0].terminating, true) && pods[1] == Pod(Some(1), "old", false, true)
    ensures OneLive(pods) && IsOutside(pods, 2, [])
    ensures Unready(pods, 2) == if pods[0].terminating then {0} else {}
    ensures Missing(pods, 2) == if pods[0].terminating then [0] else []
    ensures Stale(pods, "new", 2) == if pods[0].terminating then [1] else [0, 1]
    ensures Updated(pods, "new", 2, false) == 0
    ensures DuplicatesFrom(pods, "new", 0, 2) == []
  {
    hide DuplicatesFrom, KeptAt, HasLive, OnHash, ReadyAt;
    SlotsOfTwo(pods);
    NoDuplicates(pods, "new", 0, 2);
    assert Missing(pods, 0) == [] && Stale(pods, "new", 0) == [];
    assert Missing(pods, 1) == if pods[0].terminating then [0] else [];
    assert Stale(pods, "new", 1) == if pods[0].terminating then [] else [0];
    assert Updated(pods, "new", 1, false) == 0;
  }

  lemma {:induction false} SlotsOfTwo(pods: seq<Pod>)
    requires |pods| == 2
    requires pods[0] == Pod(Some(0), "old", pods[0].terminating, true) && pods[1] == Pod(Some(1), "old", false, true)
    ensures HasLive(pods, 1) && ReadyAt(pods, 1) && !OnHash(pods, 1, "new")
    ensures (HasLive(pods, 0) <==> !pods[0].terminating) && (ReadyAt(pods, 0) <==> !pods[0].terminating)
    ensures !OnHash(pods, 0, "new")
  {
    assert Bucket(pods[0]) == 0 && Bucket(pods[1]) == 1;
  }

  // ---------------------------------------------------------------- convergence

  /** Every slot of the window holds one live pod, on the target hash, and nothing else is live. */
  ghost predicate Converged(pods: seq<Pod>, t: Target) {
    && OneLive(pods)
    && (forall r :: HasLive(pods, r) <==> InWindow(r, t.desired))
    && forall r :: InWindow(r, t.desired) ==> OnHash(pods, r, t.hash)
  }

  ghost function StaleCount(pods: seq<Pod>, t: Target): nat {
    |Stale(pods, t.hash, t.desired)|
  }

  /** The passes among the first `k` events that the ready gate did not hold back. */
  ghost function Ungated(states: seq<seq<Pod>>, events: seq<Event>, t: Target, k: nat): nat
    requires k <= |events| && |states| == |events| + 1
  {
    if k == 0 then 0
    else
      Ungated(states, events, t, k - 1)
      + if events[k - 1].Pass? && !Held(states[k - 1], t.hash, t.desired) then 1 else 0
  }

  lemma {:induction false} SameStale(a: seq<Pod>, b: seq<Pod>, t: Target)
    requires Elements(Stale(a, t.hash, t.desired)) == Elements(Stale(b, t.hash, t.desired))
    ensures StaleCount(a, t) == StaleCount(b, t)
  {
    DistinctSize(Stale(a, t.hash, t.desired));
    DistinctSize(Stale(b, t.hash, t.desired));
  }

  /** An error-free pass that the gate does not hold lowers the old-hash slots by min(maxUnavailable, count). */
  lemma {:induction false} PassLowersStale(pods: seq<Pod>, t: Target, outside: seq<nat>)
    requires OneLive(pods) && IsOutside(pods, t.desired, outside)
    ensures StaleCount(DoAll(pods, PlanOf(pods, t, outside), t.hash), t)
            == StaleCount(pods, t)
               - if Held(pods, t.hash, t.desired) then 0 else Min(t.maxUnavailable, StaleCount(pods, t))
  {
    hide DoAll, Plan, HasLive, OnHash, ReadyAt, OneLive, IsOutside;
    var s := DoAll(pods, PlanOf(pods, t, outside), t.hash);
    var before, after, batch := Stale(pods, t.hash, t.desired), Stale(s, t.hash, t.desired), BatchOf(pods, t);
    PassEffect(pods, t, outside);
    forall r
      ensures r in after <==> r in before && r !in batch
    {
      assert InWindow(r, t.desired) <==> 0 <= r < t.desired;
    }
    assert Elements(after) == Elements(before) - Elements(batch);
    assert batch <= before;
    assert Elements(batch) <= Elements(before);
    BatchStale(pods, t.hash, t.desired, t.maxUnavailable);
    DistinctSize(before);
    DistinctSize(after);
    DistinctSize(batch);
  }

  lemma {:induction false} StaleStep(pods: seq<Pod>, e: Event, t: Target)
    requires OneLive(pods) && Enabled(pods, e) && InRollout(pods, e, t)
    ensures StaleCount(Apply(pods, e), t)
            == StaleCount(pods, t)
               - if e.Pass? && !Held(pods, t.hash, t.desired) then Min(t.maxUnavailable, StaleCount(pods, t)) else 0
  {
    hide DoAll, MidRun, Visible, Plan, Batch, HasLive, OnHash, ReadyAt, OneLive, Held, IsOutside;
    var s := Apply(pods, e);
    if e.Pass? {
      PassLowersStale(pods, t, e.outside);
      var d := DoAll(pods, PlanOf(pods, t, e.outside), t.hash);
      forall r
        ensures r in Stale(s, t.hash, t.desired) <==> r in Stale(d, t.hash, t.desired)
      {
        PassInRollout(pods, e, t, r);
      }
      SameStale(s, d, t);
    } else {
      forall r
        ensures r in Stale(s, t.hash, t.desired) <==> r in Stale(pods, t.hash, t.desired)
      {
        EnvironmentKeeps(pods, e, t, r);
      }
      SameStale(s, pods, t);
    }
  }

  /** Old-hash slots after any number of steps of a rollout, exactly. */
  lemma {:induction false} StaleCountdown(states: seq<seq<Pod>>, events: seq<Event>, t: Target, k: nat)
    requires IsRollout(states, events, t) && OneLive(states[0]) && k <= |events|
    ensures var left := StaleCount(states[0], t) - t.maxUnavailable * Ungated(states, events, t, k);
            StaleCount(states[k], t) == if left < 0 then 0 else left
  {
    hide Held, OneLive, StaleCount, Apply, InRollout, Enabled;
    if k > 0 {
      StaleCountdown(states, events, t, k - 1);
      OneLiveAlways(states, events, k - 1);
      StaleStep(states[k - 1], events[k - 1], t);
      var m, u := t.maxUnavailable, Ungated(states, events, t, k - 1);
      assert m * (u + 1) == m * u + m;
    }
  }

  /** Once a pass has run, exactly the window is populated, and stays so. */
  lemma {:induction false} WindowFilled(states: seq<seq<Pod>>, events: seq<Event>, t: Target, j: nat, k: nat)
    requires IsRollout(states, events, t) && OneLive(states[0]) && j < k <= |events| && events[j].Pass?
    ensures forall r :: HasLive(states[k], r) <==> InWindow(r, t.desired)
  {
    hide DoAll, MidRun, Visible, Plan, Batch, HasLive, OnHash, ReadyAt, OneLive, Held, IsOutside;
    var pods, e := states[k - 1], events[k - 1];
    assert Enabled(pods, e) && InRollout(pods, e, t);
    OneLiveAlways(states, events, k - 1);
    if e.Pass? {
      PassEffect(pods, t, e.outside);
      forall r
        ensures HasLive(states[k], r) <==> InWindow(r, t.desired)
      {
        PassInRollout(pods, e, t, r);
      }
    } else {
      WindowFilled(states, events, t, j, k - 1);
      forall r
        ensures HasLive(states[k], r) <==> HasLive(pods, r)
      {
        EnvironmentKeeps(pods, e, t, r);
      }
    }
  }

  lemma {:induction false} NoneStale(states: seq<seq<Pod>>, events: seq<Event>, t: Target, k: nat)
    requires IsRollout(states, events, t) && OneLive(states[0]) && t.maxUnavailable >= 1 && k <= |events|
    requires Ungated(states, events, t, k) >= (StaleCount(states[0], t) + t.maxUnavailable - 1) / t.maxUnavailable
    ensures StaleCount(states[k], t) == 0
  {
    hide OneLive, InRollout, Enabled, Apply, StaleCount, Ungated;
    StaleCountdown(states, events, t, k);
    EnoughBatches(StaleCount(states[0], t), t.maxUnavailable, Ungated(states, events, t, k));
  }

  /**
   From any state with at most one live pod per index, ceil(n / maxUnavailable) ungated passes (and at least
   one pass) finish a rollout that starts with n old-hash slots.
   */
  lemma {:induction false} RolloutConverges(states: seq<seq<Pod>>, events: seq<Event>, t: Target, j: nat, k: nat)
    requires IsRollout(states, events, t) && OneLive(states[0]) && t.maxUnavailable >= 1
    requires j < k <= |events| && events[j].Pass?
    requires Ungated(states, events, t, k) >= (StaleCount(states[0], t) + t.maxUnavailable - 1) / t.maxUnavailable
    ensures Converged(states[k], t)
  {
    hide DoAll, Plan, Batch, HasLive, OnHash, ReadyAt, OneLive, Held, IsOutside, Ungated, InRollout;
    NoneStale(states, events, t, k);
    assert IsRun(states, events);
    OneLiveAlways(states, events, k);
    WindowFilled(states, events, t, j, k);
    forall r | InWindow(r, t.desired)
      ensures OnHash(states[k], r, t.hash)
    {
      assert r !in Stale(states[k], t.hash, t.desired);
    }
  }

  lemma {:induction false} EnoughBatches(n: nat, m: nat, u: nat)
    requires m >= 1 && u >= (n + m - 1) / m
    ensures m * u >= n
  {
    var c := (n + m - 1) / m;
    assert m * c + (n + m - 1) % m == n + m - 1;
    assert m * u == m * c + m * (u - c);
  }

  lemma {:induction false} ConvergedIsIdle(pods: seq<Pod>, t: Target, outside: seq<nat>)
    requires Converged(pods, t) && IsOutside(pods, t.desired, outside)
    ensures Stale(pods, t.hash, t.desired) == [] && PlanOf(pods, t, outside) == []
  {
    hide OnHash, ReadyAt, OneLive, DuplicatesFrom, Plan, Batch;
    var stale, missing := Stale(pods, t.hash, t.desired), Missing(pods, t.desired);
    NoDuplicates(pods, t.hash, 0, t.desired);
    forall r
      ensures r !in stale && r !in missing
    {
      assert InWindow(r, t.desired) <==> 0 <= r < t.desired;
    }
    forall i: nat
      ensures i !in outside
    {
      assert i < |pods| && !pods[i].terminating ==> HasLive(pods, Bucket(pods[i]));
    }
    EmptyOrMember(stale);
    EmptyOrMember(missing);
    EmptyOrMember(outside);
    NothingToWrite(pods, t, outside);
  }

  lemma {:induction false} NothingToWrite(pods: seq<Pod>, t: Target, outside: seq<nat>)
    requires outside == [] && DuplicatesFrom(pods, t.hash, 0, t.desired) == []
    requires Missing(pods, t.desired) == [] && Stale(pods, t.hash, t.desired) == []
    ensures PlanOf(pods, t, outside) == []
  {
    hide DuplicatesFrom, Missing, Stale, Held;
    assert BatchOf(pods, t) == [];
    assert Replaces(pods, t.hash, []) == [];
  }

  /** A finished rollout is exactly a state in which a pass that is not held has nothing to write. */
  lemma {:induction false} ConvergedIffIdle(pods: seq<Pod>, t: Target, outside: seq<nat>)
    requires OneLive(pods) && IsOutside(pods, t.desired, outside) && t.maxUnavailable >= 1
    ensures Converged(pods, t) <==> PlanOf(pods, t, outside) == [] && !Held(pods, t.hash, t.desired)
  {
    hide OnHash, ReadyAt, OneLive, DuplicatesFrom, Replaces;
    if Converged(pods, t) {
      ConvergedIsIdle(pods, t, outside);
    }
    if PlanOf(pods, t, outside) == [] && !Held(pods, t.hash, t.desired) {
      PlanCreated(pods, t.desired, t.hash, t.maxUnavailable, outside);
      assert |Deletes(outside)| == 0;
      assert Missing(pods, t.desired) == [] && Stale(pods, t.hash, t.desired) == [] && outside == [];
      forall r
        ensures HasLive(pods, r) <==> InWindow(r, t.desired)
        ensures InWindow(r, t.desired) ==> OnHash(pods, r, t.hash)
      {
        assert r !in Missing(pods, t.desired) && r !in Stale(pods, t.hash, t.desired);
        assert forall i: nat :: i !in outside;
      }
    }
  }

  // ---------------------------------------------------------------- which slots a pass replaces

  /** Some slot of the window is on the hash and not Ready yet. */
  ghost predicate GateClosed(pods: seq<Pod>, hash: string, desired: nat) {
    exists r :: InWindow(r, desired) && OnHash(pods, r, hash) && !ReadyAt(pods, r)
  }

  /** With one live pod per index, the kept pod of a slot is its only live pod. */
  lemma {:induction false} KeptReady(pods: seq<Pod>, r: nat, hash: string)
    requires OneLive(pods) && OnHash(pods, r, hash)
    ensures KeptAt(pods, r, hash).Some? && (pods[KeptAt(pods, r, hash).value].ready <==> ReadyAt(pods, r))
  {
    hide KeptAt, OneLive;
    var k := KeptAt(pods, r, hash).value;
    if i :| 0 <= i < |pods| && !pods[i].terminating && pods[i].ready && Bucket(pods[i]) == r {
      if i < k {
        Apart(pods, i, k);
      } else if k < i {
        Apart(pods, k, i);
      }
    }
  }

  lemma {:induction false} UpdatedStep(pods: seq<Pod>, hash: string, n: nat, readyOnly: bool)
    requires OneLive(pods) && n > 0
    ensures Updated(pods, hash, n, readyOnly)
            == Updated(pods, hash, n - 1, readyOnly)
               + if OnHash(pods, n - 1, hash) && (readyOnly ==> ReadyAt(pods, n - 1)) then 1 else 0
  {
    hide KeptAt, OneLive, OnHash, ReadyAt, HasLive;
    OnHashIsLive(pods, n - 1, hash);
    if OnHash(pods, n - 1, hash) {
      KeptReady(pods, n - 1, hash);
    }
  }

  /** The counters of the gate differ exactly when an updated slot is not Ready. */
  lemma {:induction false} GateIff(pods: seq<Pod>, hash: string, n: nat)
    requires OneLive(pods)
    ensures Updated(pods, hash, n, true) < Updated(pods, hash, n, false) <==> GateClosed(pods, hash, n)
    ensures Updated(pods, hash, n, true) <= Updated(pods, hash, n, false)
  {
    hide KeptAt, OneLive, OnHash, ReadyAt;
    if n > 0 {
      GateIff(pods, hash, n - 1);
      UpdatedStep(pods, hash, n, true);
      UpdatedStep(pods, hash, n, false);
      assert GateClosed(pods, hash, n) <==>
               GateClosed(pods, hash, n - 1) || (OnHash(pods, n - 1, hash) && !ReadyAt(pods, n - 1)) by {
        assert InWindow(n - 1, n);
      }
    }
  }

  /** The stale slots below r come first, and r right behind them. */
  lemma {:induction false} StaleOrder(pods: seq<Pod>, hash: string, r: nat, n: nat)
    requires r < n
    ensures Stale(pods, hash, r) <= Stale(pods, hash, n)
    ensures r in Stale(pods, hash, n) ==>
              |Stale(pods, hash, r)| < |Stale(pods, hash, n)| && Stale(pods, hash, n)[|Stale(pods, hash, r)|] == r
  {
    hide HasLive, OnHash;
    if r < n - 1 {
      StaleOrder(pods, hash, r, n - 1);
    }
  }

  /** A pass replaces the lowest old-hash slots, as many as the budget allows, unless the gate is closed. */
  lemma {:induction false} BatchIff(pods: seq<Pod>, t: Target, r: nat)
    requires OneLive(pods) && r in Stale(pods, t.hash, t.desired)
    ensures r in BatchOf(pods, t) <==>
              !GateClosed(pods, t.hash, t.desired) && |Stale(pods, t.hash, r)| < t.maxUnavailable
  {
    hide Stale, Updated, GateClosed, OneLive;
    GateIff(pods, t.hash, t.desired);
    StaleOrder(pods, t.hash, r, t.desired);
    var stale, k := Stale(pods, t.hash, t.desired), |Stale(pods, t.hash, r)|;
    var m := Min(t.maxUnavailable, |stale|);
    assert k < m ==> stale[..m][k] == r;
    if r in stale[..m] {
      var j :| 0 <= j < m && stale[j] == r;
      assert j == k;
    }
  }

  /** After an error-free pass every live pod has a readable index inside the window. */
  lemma {:induction false} LiveInWindow(pods: seq<Pod>, t: Target, outside: seq<nat>, i: nat)
    requires IsOutside(pods, t.desired, outside)
    requires i < |DoAll(pods, PlanOf(pods, t, outside), t.hash)|
    ensures var p := DoAll(pods, PlanOf(pods, t, outside), t.hash)[i];
            p.terminating || (p.replica.Some? && 0 <= p.replica.value < t.desired)
  {
    hide DoAll, Plan, IsOutside;
    var s := DoAll(pods, PlanOf(pods, t, outside), t.hash);
    if !s[i].terminating {
      assert HasLive(s, Bucket(s[i]));
      if !InWindow(Bucket(s[i]), t.desired) {
        PassEmptiesOutside(pods, t, outside, Bucket(s[i]));
      }
    }
  }

  lemma {:induction false} DuplicateHere(pods: seq<Pod>, slot: seq<nat>, hash: string, n: nat, b: nat)
    requires n <= b < |slot| && Within(slot, |pods|) && SlotOn(pods, slot, hash, b) && LiveOn(pods[slot[b]], hash)
    ensures Delete(slot[b]) in Duplicates(pods, slot, hash, n)
    decreases |slot| - n
  {
    hide SlotOn;
    if n < b {
      DuplicateHere(pods, slot, hash, n + 1, b);
    }
  }

  lemma {:induction false} DuplicateInPlan(pods: seq<Pod>, hash: string, r: nat, q: nat, desired: nat, op: Op)
    requires q <= r < desired && op in DuplicatesAt(pods, r, hash)
    ensures op in DuplicatesFrom(pods, hash, q, desired)
    decreases desired - q
  {
    hide DuplicatesAt;
    if q < r {
      DuplicateInPlan(pods, hash, r, q + 1, desired, op);
    }
  }

  /** Of several live pods of a slot on the hash, every one but the first listed is deleted. */
  lemma {:induction false} LaterDuplicateDeleted(pods: seq<Pod>, t: Target, outside: seq<nat>, i: nat, j: nat)
    requires i < j < |pods| && LiveOn(pods[i], t.hash) && LiveOn(pods[j], t.hash)
    requires Bucket(pods[i]) == Bucket(pods[j]) && InWindow(Bucket(pods[j]), t.desired)
    ensures Delete(j) in PlanOf(pods, t, outside)
  {
    hide Duplicates, DuplicatesFrom, Slot, Creates, Missing, Replaces, Batch;
    var r: nat := Bucket(pods[j]);
    var slot := Slot(pods, r, |pods|);
    SlotAscends(pods, r, |pods|);
    assert i in slot && j in slot;
    var a :| 0 <= a < |slot| && slot[a] == i;
    var b :| 0 <= b < |slot| && slot[b] == j;
    assert a < b;
    assert SlotOn(pods, slot, t.hash, b);
    DuplicateHere(pods, slot, t.hash, 0, b);
    DuplicateInPlan(pods, t.hash, r, 0, t.desired, Delete(j));
  }

  /** And the first listed one stays, with what else is there on another hash. */
  lemma {:induction false} FirstOnHashStays(pods: seq<Pod>, t: Target, outside: seq<nat>, i: nat)
    requires IsOutside(pods, t.desired, outside)
    requires i < |pods| && LiveOn(pods[i], t.hash) && InWindow(Bucket(pods[i]), t.desired)
    requires forall j :: 0 <= j < i && Bucket(pods[j]) == Bucket(pods[i]) ==> !LiveOn(pods[j], t.hash)
    ensures Delete(i) !in PlanOf(pods, t, outside)
  {
    hide DuplicatesFrom, Plan, Batch;
    var r: nat := Bucket(pods[i]);
    FirstIsNoDuplicate(pods, r, t.hash, i);
    DuplicatesAreLocal(pods, t.hash, 0, t.desired, i);
    if Delete(i) in PlanOf(pods, t, outside) {
      PlanDeletes(pods, t.desired, t.hash, t.maxUnavailable, outside, Delete(i));
    }
  }

  lemma {:induction false} FirstIsNoDuplicate(pods: seq<Pod>, r: nat, hash: string, i: nat)
    requires i < |pods| && LiveOn(pods[i], hash) && Bucket(pods[i]) == r
    requires forall j :: 0 <= j < i && Bucket(pods[j]) == r ==> !LiveOn(pods[j], hash)
    ensures Delete(i) !in DuplicatesAt(pods, r, hash)
  {
    hide Duplicates, Slot;
    var slot := Slot(pods, r, |pods|);
    SlotAscends(pods, r, |pods|);
    assert i in slot;
    var k :| 0 <= k < |slot| && slot[k] == i;
    forall a | 0 <= a < k
      ensures !LiveOn(pods[slot[a]], hash)
    {
      assert slot[a] in slot && slot[a] < slot[k];
    }
    KeptIsNoDuplicate(pods, slot, hash, 0, k);
  }

  /** In a slot that has a pod on the hash, live pods on another hash are left alone. */
  lemma {:induction false} OldBesideNewStays(pods: seq<Pod>, t: Target, outside: seq<nat>, i: nat)
    requires IsOutside(pods, t.desired, outside)
    requires i < |pods| && LiveOld(pods[i], t.hash) && InWindow(Bucket(pods[i]), t.desired)
    requires OnHash(pods, Bucket(pods[i]), t.hash)
    ensures Delete(i) !in PlanOf(pods, t, outside)
  {
    hide DuplicatesFrom, Plan, Batch, OnHash, HasLive;
    if Delete(i) in PlanOf(pods, t, outside) {
      PlanDeletes(pods, t.desired, t.hash, t.maxUnavailable, outside, Delete(i));
      BatchStale(pods, t.hash, t.desired, t.maxUnavailable);
      DuplicatesAreOnHash(pods, t.hash, 0, t.desired, Delete(i));
    }
  }

  lemma {:induction false} DuplicatesAreOnHash(pods: seq<Pod>, hash: string, r: nat, desired: nat, op: Op)
    requires r <= desired && op in DuplicatesFrom(pods, hash, r, desired)
    ensures op.Delete? && op.index < |pods| && LiveOn(pods[op.index], hash)
    decreases desired - r
  {
    hide Duplicates, Slot;
    if r < desired && op !in DuplicatesAt(pods, r, hash) {
      DuplicatesAreOnHash(pods, hash, r + 1, desired, op);
    }
  }

  // ---------------------------------------------------------------- hash promotion

  /** The pod a slot keeps is not among the duplicates. */
  lemma {:induction false} KeptIsNoDuplicate(pods: seq<Pod>, slot: seq<nat>, hash: string, n: nat, k: nat)
    requires n <= |slot| && Within(slot, |pods|)
    requires Ascending(slot)
    requires k < |slot| && LiveOn(pods[slot[k]], hash) && forall a :: 0 <= a < k ==> !LiveOn(pods[slot[a]], hash)
    ensures Delete(slot[k]) !in Duplicates(pods, slot, hash, n)
    decreases |slot| - n
  {
    if n < |slot| {
      KeptIsNoDuplicate(pods, slot, hash, n + 1, k);
    }
  }

  lemma {:induction false} SlotKeepsOne(pods: seq<Pod>, r: nat, hash: string) returns (i: nat)
    requires OnHash(pods, r, hash)
    ensures i < |pods| && LiveOn(pods[i], hash) && Bucket(pods[i]) == r
    ensures Delete(i) !in DuplicatesAt(pods, r, hash)
  {
    hide Slot;
    var slot := Slot(pods, r, |pods|);
    assert KeptAt(pods, r, hash).Some?;
    var k := 0;
    while !LiveOn(pods[slot[k]], hash)
      invariant 0 <= k < |slot|
      invariant forall a :: 0 <= a < k ==> !LiveOn(pods[slot[a]], hash)
      decreases |slot| - k
    {
      assert SlotOn(pods, slot, hash, |slot|);
      k := k + 1;
    }
    i := slot[k];
    assert i in slot;
    SlotAscends(pods, r, |pods|);
    KeptIsNoDuplicate(pods, slot, hash, 0, k);
  }

  lemma {:induction false} DuplicatesInBucket(pods: seq<Pod>, r: nat, hash: string, i: nat)
    requires i < |pods| && Bucket(pods[i]) != r
    ensures Delete(i) !in DuplicatesAt(pods, r, hash)
  {
    assert i !in Slot(pods, r, |pods|);
  }

  lemma {:induction false} DuplicatesAreLocal(pods: seq<Pod>, hash: string, r: nat, desired: nat, i: nat)
    requires r <= desired && i < |pods| && 0 <= Bucket(pods[i])
    requires Delete(i) !in DuplicatesAt(pods, Bucket(pods[i]), hash)
    ensures Delete(i) !in DuplicatesFrom(pods, hash, r, desired)
    decreases desired - r
  {
    hide DuplicatesAt;
    if r < desired {
      DuplicatesAreLocal(pods, hash, r + 1, desired, i);
      if r != Bucket(pods[i]) {
        DuplicatesInBucket(pods, r, hash, i);
      }
    }
  }

  lemma {:induction false} KeptSurvives(pods: seq<Pod>, t: Target, outside: seq<nat>, r: nat) returns (i: nat)
    requires IsOutside(pods, t.desired, outside) && r < t.desired && OnHash(pods, r, t.hash)
    ensures i < |pods| && LiveOn(pods[i], t.hash) && Bucket(pods[i]) == r
    ensures Delete(i) !in PlanOf(pods, t, outside)
  {
    hide DuplicatesAt, DuplicatesFrom, Batch, Plan, IsOutside, OnHash;
    i := SlotKeepsOne(pods, r, t.hash);
    DuplicatesAreLocal(pods, t.hash, 0, t.desired, i);
    if Delete(i) in PlanOf(pods, t, outside) {
      PlanDeletes(pods, t.desired, t.hash, t.maxUnavailable, outside, Delete(i));
    }
  }

  /** With no old-hash slot left, every slot is on the hash after the pass, whatever the pods were before. */
  lemma {:induction false} PromotedWindow(pods: seq<Pod>, t: Target, outside: seq<nat>, r: nat)
    requires IsOutside(pods, t.desired, outside) && Stale(pods, t.hash, t.desired) == [] && r < t.desired
    ensures OnHash(DoAll(pods, PlanOf(pods, t, outside), t.hash), r, t.hash)
  {
    hide Plan, IsOutside, HasLive, Missing, Stale;
    if !HasLive(pods, r) {
      PassFillsSlot(pods, t, outside, r);
    } else {
      assert r !in Stale(pods, t.hash, t.desired);
      var plan := PlanOf(pods, t, outside);
      var i := KeptSurvives(pods, t, outside, r);
      PlanOrderly(pods, t.desired, t.hash, t.maxUnavailable, outside);
      Shape(pods, plan, t.hash);
      assert DoAll(pods, plan, t.hash)[i] == pods[i];
    }
  }

  lemma MissingGrows(pods: seq<Pod>, n: nat)
    requires n > 0
    ensures |Missing(pods, n)| == |Missing(pods, n - 1)| + if HasLive(pods, n - 1) then 0 else 1
  {
    hide HasLive;
  }

  lemma StaleGrows(pods: seq<Pod>, hash: string, n: nat)
    requires n > 0
    ensures |Stale(pods, hash, n)|
            == |Stale(pods, hash, n - 1)| + if HasLive(pods, n - 1) && !OnHash(pods, n - 1, hash) then 1 else 0
  {
    hide HasLive, OnHash;
  }

  lemma UpdatedGrows(pods: seq<Pod>, hash: string, n: nat)
    requires n > 0
    ensures Updated(pods, hash, n, false)
            == Updated(pods, hash, n - 1, false) + if OnHash(pods, n - 1, hash) then 1 else 0
  {
    hide HasLive, OnHash, KeptAt;
    OnHashIsLive(pods, n - 1, hash);
  }

  lemma NoSlots(pods: seq<Pod>, hash: string)
    ensures Updated(pods, hash, 0, false) == 0 && |Missing(pods, 0)| == 0 && |Stale(pods, hash, 0)| == 0
  {
  }

  /** Each slot is exactly one of: kept, to create, to replace. */
  lemma {:induction false} SlotsPartition(pods: seq<Pod>, hash: string, n: nat)
    ensures Updated(pods, hash, n, false) + |Missing(pods, n)| + |Stale(pods, hash, n)| == n
  {
    hide Missing, Stale, Updated, HasLive, OnHash, KeptAt;
    if n == 0 {
      NoSlots(pods, hash);
    } else {
      SlotsPartition(pods, hash, n - 1);
      MissingGrows(pods, n);
      StaleGrows(pods, hash, n);
      UpdatedGrows(pods, hash, n);
      OnHashIsLive(pods, n - 1, hash);
    }
  }

  lemma {:induction false} OnHashIsLive(pods: seq<Pod>, r: int, hash: string)
    ensures KeptAt(pods, r, hash).Some? <==> OnHash(pods, r, hash)
    ensures OnHash(pods, r, hash) ==> HasLive(pods, r)
  {
    hide KeptAt;
  }

  // ---------------------------------------------------------------- status counters

  /** A live pod, Ready when `readyOnly`, on the given hash if there is one. */
  predicate Counted(p: Pod, readyOnly: bool, on: Option<string>) {
    !p.terminating && (readyOnly ==> p.ready) && (on.Some? ==> p.hash == on.value)
  }

  function CountLive(pods: seq<Pod>, n: nat, readyOnly: bool, on: Option<string>): nat
    requires n <= |pods|
  {
    if n == 0 then 0
    else CountLive(pods, n - 1, readyOnly, on) + if Counted(pods[n - 1], readyOnly, on) then 1 else 0
  }

  ghost function ReadyPods(pods: seq<Pod>, n: nat): set<int>
    requires n <= |pods|
  {
    set i | i in Range(n) && !pods[i].terminating && pods[i].ready
  }

  lemma {:induction false} CountReady(pods: seq<Pod>, n: nat)
    requires n <= |pods|
    ensures CountLive(pods, n, true, None) == |ReadyPods(pods, n)|
  {
    hide ReadyPods, Counted;
    if n == 0 {
      NoReadyPods(pods);
    } else {
      CountReady(pods, n - 1);
      ReadyPodsStep(pods, n);
    }
  }

  lemma NoReadyPods(pods: seq<Pod>)
    ensures |ReadyPods(pods, 0)| == 0
  {
    assert ReadyPods(pods, 0) == {};
  }

  lemma {:induction false} ReadyPodsStep(pods: seq<Pod>, n: nat)
    requires 0 < n <= |pods|
    ensures |ReadyPods(pods, n)| == |ReadyPods(pods, n - 1)| + if Counted(pods[n - 1], true, None) then 1 else 0
  {
    var before, after := ReadyPods(pods, n - 1), ReadyPods(pods, n);
    assert n - 1 !in before;
    if Counted(pods[n - 1], true, None) {
      assert after == before + {n - 1};
    } else {
      assert after == before;
    }
  }

  lemma {:induction false} ReadyPodsToSlots(pods: seq<Pod>, desired: nat)
    requires OneLive(pods) && forall r :: HasLive(pods, r) ==> InWindow(r, desired)
    ensures |ReadyPods(pods, |pods|)| == |Range(desired) - Unready(pods, desired)|
  {
    hide OneLive;
    var ready, slots := ReadyPods(pods, |pods|), Range(desired) - Unready(pods, desired);
    var bucket := (i: int) => if 0 <= i < |pods| then Bucket(pods[i]) else 0;
    forall i | i in ready
      ensures bucket(i) in slots && pods[i].replica.Some?
    {
      assert HasLive(pods, Bucket(pods[i])) && ReadyAt(pods, Bucket(pods[i]));
    }
    forall i, j | i in ready && j in ready && bucket(i) == bucket(j)
      ensures i == j
    {
      if i < j {
        Apart(pods, i, j);
      } else if j < i {
        Apart(pods, j, i);
      }
    }
    forall r | r in slots
      ensures exists i :: i in ready && bucket(i) == r
    {
      var i :| 0 <= i < |pods| && !pods[i].terminating && pods[i].ready && Bucket(pods[i]) == r;
      assert i in ready && bucket(i) == r;
    }
    ImageSize(ready, slots, bucket);
  }

  /**
   Pigeonhole: when nothing outside the window is live and no index has two live pods, the number of
   Ready pods is the number of Ready slots, so it reaches `desired` only when every slot is Ready.
   */
  lemma {:induction false} ReadyPodsFillWindow(pods: seq<Pod>, desired: nat)
    requires OneLive(pods) && forall r :: HasLive(pods, r) ==> InWindow(r, desired)
    ensures CountLive(pods, |pods|, true, None) <= desired
    ensures CountLive(pods, |pods|, true, None) == desired <==> forall r :: InWindow(r, desired) ==> ReadyAt(pods, r)
  {
    hide OneLive, ReadyPods, ReadyAt, CountLive;
    var slots := Range(desired) - Unready(pods, desired);
    CountReady(pods, |pods|);
    ReadyPodsToSlots(pods, desired);
    SubsetSize(slots, Range(desired));
    if slots == Range(desired) {
      forall r | InWindow(r, desired)
        ensures ReadyAt(pods, r)
      {
        assert r in slots;
      }
    }
    assert (forall r :: InWindow(r, desired) ==> ReadyAt(pods, r)) ==> Unready(pods, desired) == {};
  }

  /** Exactly one live pod in bucket `r`, and it is Ready. */
  ghost predicate OneReady(pods: seq<Pod>, r: int) {
    exists i :: 0 <= i < |pods| && IsOnly(pods, r, i) && pods[i].ready
  }

  ghost predicate IsOnly(pods: seq<Pod>, r: int, i: nat)
    requires i < |pods|
  {
    forall j :: 0 <= j < |pods| ==> (!pods[j].terminating && Bucket(pods[j]) == r <==> j == i)
  }

  lemma {:induction false} ReadyIsOneReady(pods: seq<Pod>, r: nat)
    requires OneLive(pods)
    ensures ReadyAt(pods, r) <==> OneReady(pods, r)
  {
    hide OneLive;
    if i :| 0 <= i < |pods| && !pods[i].terminating && pods[i].ready && Bucket(pods[i]) == r {
      forall j | 0 <= j < |pods| && j != i && Bucket(pods[j]) == r
        ensures pods[j].terminating
      {
        Apart(pods, if i < j then i else j, if i < j then j else i);
      }
      assert IsOnly(pods, r, i);
    }
    if i :| 0 <= i < |pods| && IsOnly(pods, r, i) && pods[i].ready {
      assert !pods[i].terminating && Bucket(pods[i]) == r;
    }
  }
}
