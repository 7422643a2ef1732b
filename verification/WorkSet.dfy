/**
 The round-robin WorkSet (pkg/shared/workset/workset.go): a tracked set of keys, and the assigner that hands a
 snapshot of them to the workers one key at a time while others track and forget.
 */
module WorkSet {
  import opened Prelude

  type Key = string

  // ---------------------------------------------------------------- runs

  /** The assigner between its atomic steps; `picked` waits for a worker, `sent` is everything handed over. */
  datatype State = State(keys: set<Key>, batch: seq<Key>, idx: nat, picked: Option<Key>, sent: seq<Key>)

  datatype Step =
    | Track(key: Key)
    | Forget(key: Key)
    | Refresh(snapshot: seq<Key>)
    | Pick
    | Send

  ghost predicate Enabled(s: State, step: Step) {
    match step
    case Track(_) => true
    case Forget(_) => true
    case Refresh(snapshot) =>
      s.picked.None? && s.idx >= |s.batch| && Distinct(snapshot) && forall k :: k in snapshot <==> k in s.keys
    case Pick => s.picked.None? && s.idx < |s.batch|
    case Send => s.picked.Some?
  }

  ghost function Next(s: State, step: Step): State
    requires Enabled(s, step)
  {
    match step
    case Track(k) => s.(keys := s.keys + {k})
    case Forget(k) => s.(keys := s.keys - {k})
    case Refresh(snapshot) => s.(batch := snapshot, idx := 0)
    case Pick => s.(picked := Some(s.batch[s.idx]), idx := s.idx + 1)
    case Send => s.(sent := s.sent + [s.picked.value], picked := None)
  }

  ghost predicate Initial(s: State) {
    s.batch == [] && s.idx == 0 && s.picked == None && s.sent == []
  }

  ghost predicate IsRun(states: seq<State>, steps: seq<Step>) {
    && |states| == |steps| + 1 && Initial(states[0])
    && forall i :: 0 <= i < |steps| ==> Enabled(states[i], steps[i]) && states[i + 1] == Next(states[i], steps[i])
  }

  /** What is still to be sent of the current batch: the picked key and the keys behind it. */
  ghost function Waiting(s: State): seq<Key>
    requires s.idx <= |s.batch|
  {
    (if s.picked.Some? then [s.picked.value] else []) + s.batch[s.idx..]
  }

  ghost predicate Inv(s: State) {
    && s.idx <= |s.batch| && Distinct(s.batch)
    && (s.picked.Some? ==> s.idx >= 1 && s.picked.value == s.batch[s.idx - 1])
  }

  lemma {:induction false} InvAlways(states: seq<State>, steps: seq<Step>, i: nat)
    requires IsRun(states, steps) && i <= |steps|
    ensures Inv(states[i])
  {
    if i > 0 {
      InvAlways(states, steps, i - 1);
      assert Enabled(states[i - 1], steps[i - 1]);
    }
  }

  /** What was sent between two states. */
  ghost function SentIn(states: seq<State>, i: nat, j: nat): seq<Key>
    requires i <= j < |states| && |states[i].sent| <= |states[j].sent|
  {
    states[j].sent[|states[i].sent|..]
  }

  lemma {:induction false} SentGrows(states: seq<State>, steps: seq<Step>, i: nat, j: nat)
    requires IsRun(states, steps) && i <= j <= |steps|
    ensures states[i].sent <= states[j].sent
  {
    if i < j {
      SentGrows(states, steps, i, j - 1);
      assert Enabled(states[j - 1], steps[j - 1]);
    }
  }

  /** What a step does to the keys still waiting: only a refresh adds any, and only when none are left. */
  lemma {:induction false} WaitingStep(s: State, step: Step)
    requires Inv(s) && Enabled(s, step)
    ensures var s' := Next(s, step);
            && Inv(s')
            && (step.Send? ==> Waiting(s) == [s.picked.value] + Waiting(s') && s'.sent == s.sent + [s.picked.value])
            && (step.Refresh? ==> Waiting(s) == [] && Waiting(s') == s'.batch && s'.sent == s.sent)
            && (!step.Send? && !step.Refresh? ==> Waiting(s') == Waiting(s) && s'.sent == s.sent)
            && (!step.Refresh? ==> s'.batch == s.batch)
  {
    var s' := Next(s, step);
    if step.Refresh? {
      assert s.batch[s.idx..] == [];
      assert s'.batch[0..] == s'.batch;
    }
  }

  ghost predicate NoRefresh(steps: seq<Step>, i: nat, j: nat)
    requires i <= j <= |steps|
  {
    forall n :: i <= n < j ==> !steps[n].Refresh?
  }

  /** What was sent up to a step, and in it. */
  lemma {:induction false} SentStep(states: seq<State>, i: nat, j: nat)
    requires i < j < |states| && states[i].sent <= states[j - 1].sent <= states[j].sent
    ensures SentIn(states, i, j) == SentIn(states, i, j - 1) + states[j].sent[|states[j - 1].sent|..]
  {
  }

  lemma NothingSent(states: seq<State>, i: nat)
    requires i < |states|
    ensures SentIn(states, i, i) == []
  {
  }

  /** Within a batch, what a step sends comes off the front of what is waiting. */
  lemma {:induction false} WaitingShrinks(s: State, step: Step)
    requires Inv(s) && Enabled(s, step) && !step.Refresh?
    ensures var s' := Next(s, step);
            && Inv(s') && s.sent <= s'.sent && s'.batch == s.batch
            && s'.sent[|s.sent|..] + Waiting(s') == Waiting(s)
  {
    hide Waiting;
    var s' := Next(s, step);
    WaitingStep(s, step);
    assert s'.sent[|s.sent|..] == if step.Send? then [s.picked.value] else [];
  }

  lemma Regroup<T>(a: seq<T>, b: seq<T>, c: seq<T>)
    ensures a + b + c == a + (b + c)
  {
  }

  /** Within a batch, what was waiting is sent in order. */
  lemma {:induction false} WithinBatch(states: seq<State>, steps: seq<Step>, i: nat, j: nat)
    requires IsRun(states, steps) && i <= j <= |steps| && NoRefresh(steps, i, j)
    ensures Inv(states[i]) && Inv(states[j]) && states[i].sent <= states[j].sent
    ensures SentIn(states, i, j) + Waiting(states[j]) == Waiting(states[i])
    ensures states[j].batch == states[i].batch
  {
    hide Inv, Waiting, Next, Enabled, SentIn, Initial;
    InvAlways(states, steps, i);
    InvAlways(states, steps, j);
    SentGrows(states, steps, i, j);
    if i == j {
      NothingSent(states, i);
      assert [] + Waiting(states[j]) == Waiting(states[i]);
    } else {
      SentGrows(states, steps, i, j - 1);
      WithinBatch(states, steps, i, j - 1);
      WaitingShrinks(states[j - 1], steps[j - 1]);
      SentStep(states, i, j);
      Regroup(SentIn(states, i, j - 1), states[j].sent[|states[j - 1].sent|..], Waiting(states[j]));
    }
  }

  /** A completed cycle, from one refresh to the next, sends every key of its snapshot exactly once. */
  lemma {:induction false} CycleSendsSnapshot(states: seq<State>, steps: seq<Step>, i: nat, j: nat)
    requires IsRun(states, steps) && i < j < |steps|
    requires steps[i].Refresh? && steps[j].Refresh? && NoRefresh(steps, i + 1, j)
    ensures states[i + 1].sent <= states[j].sent
    ensures SentIn(states, i + 1, j) == steps[i].snapshot
    ensures Distinct(SentIn(states, i + 1, j)) && forall k :: k in SentIn(states, i + 1, j) <==> k in states[i].keys
  {
    InvAlways(states, steps, i);
    assert Enabled(states[i], steps[i]);
    WaitingStep(states[i], steps[i]);
    WithinBatch(states, steps, i + 1, j);
    assert Enabled(states[j], steps[j]);
    WaitingStep(states[j], steps[j]);
    assert SentIn(states, i + 1, j) + [] == SentIn(states, i + 1, j);
  }

  ghost predicate TrackedThroughout(states: seq<State>, k: Key, i: nat, j: nat)
    requires i <= j < |states|
  {
    forall n :: i <= n <= j ==> k in states[n].keys
  }

  /** A tracked key not sent since a refresh is still waiting, so at most one refresh can have happened. */
  lemma {:induction false} UnsentWaits(states: seq<State>, steps: seq<Step>, k: Key, i: nat, j: nat)
    requires IsRun(states, steps) && i <= j <= |steps| && TrackedThroughout(states, k, i, j)
    requires states[i].sent <= states[j].sent && k !in SentIn(states, i, j) && !NoRefresh(steps, i, j)
    ensures Inv(states[i]) && Inv(states[j]) && k in Waiting(states[j])
    ensures |SentIn(states, i, j)| + |Waiting(states[j])| == |Waiting(states[i])| + |states[j].batch|
  {
    InvAlways(states, steps, i);
    InvAlways(states, steps, j);
    SentGrows(states, steps, i, j - 1);
    InvAlways(states, steps, j - 1);
    var s, step := states[j - 1], steps[j - 1];
    assert Enabled(s, step);
    WaitingStep(s, step);
    assert SentIn(states, i, j) == SentIn(states, i, j - 1) + (if step.Send? then [s.picked.value] else []);
    if NoRefresh(steps, i, j - 1) {
      WithinBatch(states, steps, i, j - 1);
      assert step.Refresh?;
      assert k in s.keys;
    } else {
      UnsentWaits(states, steps, k, i, j - 1);
    }
  }

  /**
   Fairness: a key that stays in the set is sent within the rest of the current batch plus one next batch, that is,
   once that many keys (and at least one) have been sent.
   */
  lemma {:induction false} PresentKeyIsSent(states: seq<State>, steps: seq<Step>, k: Key, i: nat, j: nat)
    requires IsRun(states, steps) && i <= j <= |steps| && TrackedThroughout(states, k, i, j)
    requires Inv(states[i]) && states[i].sent <= states[j].sent && SentIn(states, i, j) != []
    requires |SentIn(states, i, j)| >= |Waiting(states[i])| + |states[j].batch|
    ensures k in SentIn(states, i, j)
  {
    if NoRefresh(steps, i, j) {
      WithinBatch(states, steps, i, j);
    }
    if k !in SentIn(states, i, j) {
      UnsentWaits(states, steps, k, i, j);
    }
  }

  /** A key stays forgotten: none of its keys come back through a refresh. */
  lemma {:induction false} ForgottenRunsOut(states: seq<State>, steps: seq<Step>, k: Key, i: nat, j: nat)
    requires IsRun(states, steps) && i <= j <= |steps| && forall n :: i <= n <= j ==> k !in states[n].keys
    ensures Inv(states[i]) && Inv(states[j]) && states[i].sent <= states[j].sent
    ensures multiset(SentIn(states, i, j))[k] + multiset(Waiting(states[j]))[k] <= multiset(Waiting(states[i]))[k]
  {
    hide Inv, Waiting, Next, Enabled, SentIn, Initial;
    InvAlways(states, steps, i);
    InvAlways(states, steps, j);
    SentGrows(states, steps, i, j);
    if i == j {
      NothingSent(states, i);
    } else {
      SentGrows(states, steps, i, j - 1);
      ForgottenRunsOut(states, steps, k, i, j - 1);
      var s := states[j - 1];
      ForgottenStep(s, steps[j - 1], k);
      SentStep(states, i, j);
      CountConcat(SentIn(states, i, j - 1), states[j].sent[|s.sent|..], k);
    }
  }

  lemma CountConcat(a: seq<Key>, b: seq<Key>, k: Key)
    ensures multiset(a + b)[k] == multiset(a)[k] + multiset(b)[k]
  {
  }

  lemma {:induction false} ForgottenStep(s: State, step: Step, k: Key)
    requires Inv(s) && Enabled(s, step) && k !in s.keys
    ensures var s' := Next(s, step);
            && Inv(s') && s.sent <= s'.sent
            && multiset(s'.sent[|s.sent|..])[k] + multiset(Waiting(s'))[k] <= multiset(Waiting(s))[k]
  {
    var s' := Next(s, step);
    WaitingStep(s, step);
    if step.Send? {
      assert s'.sent[|s.sent|..] == [s.picked.value];
      CountConcat([s.picked.value], Waiting(s'), k);
    } else {
      assert s'.sent[|s.sent|..] == [];
      assert step.Refresh? ==> k !in s'.batch;
    }
  }

  lemma {:induction false} DistinctCount(s: seq<Key>, k: Key)
    requires Distinct(s)
    ensures multiset(s)[k] <= 1
  {
    if s != [] {
      DistinctCount(s[..|s| - 1], k);
      assert s == s[..|s| - 1] + [s[|s| - 1]];
      if k == s[|s| - 1] {
        assert k !in s[..|s| - 1];
      }
    }
  }

  /** A key that stays out of the set is sent at most once more. */
  lemma {:induction false} AbsentKeySentOnce(states: seq<State>, steps: seq<Step>, k: Key, i: nat, j: nat)
    requires IsRun(states, steps) && i <= j <= |steps| && forall n :: i <= n <= j ==> k !in states[n].keys
    ensures states[i].sent <= states[j].sent && multiset(SentIn(states, i, j))[k] <= 1
  {
    hide Waiting, Next;
    ForgottenRunsOut(states, steps, k, i, j);
    WaitingDistinct(states[i]);
    DistinctCount(Waiting(states[i]), k);
  }

  lemma WaitingDistinct(s: State)
    requires Inv(s)
    ensures Distinct(Waiting(s))
  {
    var from := if s.picked.Some? then s.idx - 1 else s.idx;
    assert Waiting(s) == s.batch[from..];
  }

  // ---------------------------------------------------------------- tracking and forgetting

  /** Tracking puts a key into the set, and only forgetting takes it out. */
  lemma {:induction false} StaysTracked(states: seq<State>, steps: seq<Step>, k: Key, i: nat, j: nat)
    requires IsRun(states, steps) && i < j <= |steps| && steps[i] == Track(k)
    requires forall n :: i < n < j ==> steps[n] != Forget(k)
    ensures k in states[j].keys
  {
    assert Enabled(states[j - 1], steps[j - 1]);
    if i + 1 < j {
      StaysTracked(states, steps, k, i, j - 1);
    }
  }

  /** Forgetting takes a key out of the set, and only tracking puts it back. */
  lemma {:induction false} StaysForgotten(states: seq<State>, steps: seq<Step>, k: Key, i: nat, j: nat)
    requires IsRun(states, steps) && i < j <= |steps| && steps[i] == Forget(k)
    requires forall n :: i < n < j ==> steps[n] != Track(k)
    ensures k !in states[j].keys
  {
    assert Enabled(states[j - 1], steps[j - 1]);
    if i + 1 < j {
      StaysForgotten(states, steps, k, i, j - 1);
    }
  }

  /**
   A key that was tracked and not forgotten since is sent within the rest of the batch that was current then plus
   one next batch, whatever else is tracked and forgotten.
   */
  lemma {:induction false} TrackedKeyIsSent(states: seq<State>, steps: seq<Step>, k: Key, i: nat, j: nat)
    requires IsRun(states, steps) && i < j <= |steps| && steps[i] == Track(k)
    requires forall n :: i < n < j ==> steps[n] != Forget(k)
    requires Inv(states[i + 1]) && states[i + 1].sent <= states[j].sent && SentIn(states, i + 1, j) != []
    requires |SentIn(states, i + 1, j)| >= |Waiting(states[i + 1])| + |states[j].batch|
    ensures k in SentIn(states, i + 1, j)
  {
    hide Inv, Waiting, Next, Enabled, SentIn;
    forall n | i + 1 <= n <= j
      ensures k in states[n].keys
    {
      StaysTracked(states, steps, k, i, n);
    }
    PresentKeyIsSent(states, steps, k, i + 1, j);
  }

  /** A key that was forgotten and not tracked since is sent at most once more. */
  lemma {:induction false} ForgottenKeySentOnce(states: seq<State>, steps: seq<Step>, k: Key, i: nat, j: nat)
    requires IsRun(states, steps) && i < j <= |steps| && steps[i] == Forget(k)
    requires forall n :: i < n < j ==> steps[n] != Track(k)
    ensures states[i + 1].sent <= states[j].sent && multiset(SentIn(states, i + 1, j))[k] <= 1
  {
    hide Inv, Waiting, Next, Enabled, SentIn;
    forall n | i + 1 <= n <= j
      ensures k !in states[n].keys
    {
      StaysForgotten(states, steps, k, i, n);
    }
    AbsentKeySentOnce(states, steps, k, i + 1, j);
  }

  /** Once the batch that was current when a key was forgotten is over, the key is not sent at all. */
  lemma {:induction false} ForgottenKeyNotInNextCycle(
      states: seq<State>, steps: seq<Step>, k: Key, i: nat, m: nat, j: nat)
    requires IsRun(states, steps) && i < m < j <= |steps| && steps[i] == Forget(k) && steps[m].Refresh?
    requires forall n :: i < n < j ==> steps[n] != Track(k)
    ensures states[m + 1].sent <= states[j].sent && k !in SentIn(states, m + 1, j)
  {
    hide Inv, Waiting, Next, Enabled, SentIn, Initial;
    forall n | m <= n <= j
      ensures k !in states[n].keys
    {
      StaysForgotten(states, steps, k, i, n);
    }
    InvAlways(states, steps, m);
    NotInSnapshot(states[m], steps[m], k);
    ForgottenRunsOut(states, steps, k, m + 1, j);
  }

  lemma {:induction false} NotInSnapshot(s: State, step: Step, k: Key)
    requires Inv(s) && Enabled(s, step) && step.Refresh? && k !in s.keys
    ensures Inv(Next(s, step)) && multiset(Waiting(Next(s, step)))[k] == 0
  {
    hide Waiting;
    WaitingStep(s, step);
    assert k !in step.snapshot;
  }

  // ---------------------------------------------------------------- the set and the assigner's loop body

  class WorkSet {
    var keys: set<Key>
    var batch: seq<Key>
    var idx: nat
    var picked: Option<Key>

    /** Every key handed to a worker so far. */
    ghost var sent: seq<Key>

    ghost function View(): State
      reads this
    {
      State(keys, batch, idx, picked, sent)
    }

    constructor ()
      ensures keys == {} && Initial(View())
    {
      keys, batch, idx, picked, sent := {}, [], 0, None, [];
    }

    method Track(key: Key)
      modifies this`keys
      ensures keys == old(keys) + {key}
      ensures View() == Next(old(View()), Step.Track(key))
    {
      keys := keys + {key};
    }

    method Forget(key: Key)
      modifies this`keys
      ensures keys == old(keys) - {key}
      ensures View() == Next(old(View()), Step.Forget(key))
    {
      keys := keys - {key};
    }

    method Snapshot() returns (out: seq<Key>)
      ensures Distinct(out) && forall k :: k in out <==> k in keys
    {
      out := InSomeOrder(keys);
    }

    /** Start's loop at the end of a batch. */
    method Refresh()
      requires picked.None? && idx >= |batch|
      modifies this`batch, this`idx
      ensures Distinct(batch) && (forall k :: k in batch <==> k in keys) && idx == 0
      ensures Enabled(old(View()), Step.Refresh(batch)) && View() == Next(old(View()), Step.Refresh(batch))
    {
      batch := Snapshot();
      idx := 0;
    }

    /** Start's loop takes the next key of the batch. */
    method PickNext()
      requires Enabled(View(), Pick)
      modifies this`idx, this`picked
      ensures picked == Some(batch[old(idx)]) && idx == old(idx) + 1
      ensures View() == Next(old(View()), Pick)
    {
      picked := Some(batch[idx]);
      idx := idx + 1;
    }

    /** A worker receives it. */
    method HandOver()
      requires Enabled(View(), Send)
      modifies this`picked, this`sent
      ensures sent == old(sent) + [old(picked).value] && picked == None
      ensures View() == Next(old(View()), Send)
    {
      sent, picked := sent + [picked.value], None;
    }

    /**
     One turn of Start's loop, without others tracking or forgetting in between: a refresh at the end of a batch,
     then the next key, if there is one, goes to a worker.
     */
    method Turn()
      requires Inv(View()) && picked.None?
      modifies this`batch, this`idx, this`picked, this`sent
      ensures var start := if old(idx) < |old(batch)| then old(View()) else old(View()).(batch := batch, idx := 0);
              && (start != old(View()) ==> Enabled(old(View()), Step.Refresh(batch)))
              && (start.batch == [] ==> View() == start)
              && (start.batch != [] ==> Enabled(start, Pick) && View() == Next(Next(start, Pick), Send))
      ensures Inv(View()) && picked.None?
    {
      if idx >= |batch| {
        Refresh();
      }
      if |batch| == 0 {
        return;
      }
      PickNext();
      HandOver();
    }
  }
}
