/**
 The mtime-keyed cache behind /introspect (pkg/broker/introspection.go): any number of readPeerHashes calls
 race a writer of the peer-hashes file. A call stats the file before it takes the lock and reads the file
 under the lock, so the version it stores may be newer than the mtime it stores it under.
 */
module PeerHashes {
  import opened Prelude

  datatype Entry = Entry(hash: string, observedAt: string)

  /** A decoded file; None is the nil map that a JSON null decodes to. */
  type Hashes = Option<map<string, Entry>>

  /** What a JSON decoder makes of the bytes of the file. */
  datatype Body = Parsed(hashes: Hashes) | Garbage

  /** The file between two writes. Writes are atomic: a reader never sees half a version. */
  datatype Version = Absent | Present(mtime: int, body: Body)

  /** What serving a version means: a missing file is an empty map. */
  function Meaning(v: Version): Option<Hashes> {
    match v
    case Absent => Some(Some(map[]))
    case Present(_, Parsed(h)) => Some(h)
    case Present(_, Garbage) => None
  }

  // ---------------------------------------------------------------- one call

  datatype StatResult = NoFile | StatError | Mtime(time: int)

  datatype ReadResult = Gone | ReadError | Bytes(body: Body)

  predicate Hit(modTime: int, hashes: Hashes, mtime: int) {
    mtime == modTime && hashes.Some?
  }

  /** What a call returns (None for an error) and the cache it leaves behind. */
  datatype Outcome = Outcome(result: Option<Hashes>, modTime: int, hashes: Hashes)

  /** Only a decoded file is stored, under the mtime of the stat; every other outcome leaves the cache alone. */
  ghost function OutcomeOf(modTime: int, hashes: Hashes, stat: StatResult, read: ReadResult): Outcome {
    var hit := stat.Mtime? && Hit(modTime, hashes, stat.time);
    var gone := stat.NoFile? || (stat.Mtime? && !hit && read.Gone?);
    if stat.Mtime? && !hit && read.Bytes? && read.body.Parsed? then
      Outcome(Some(read.body.hashes), stat.time, read.body.hashes)
    else
      Outcome(if hit then Some(hashes) else if gone then Some(Some(map[])) else None, modTime, hashes)
  }

  class Cache {
    var modTime: int
    var hashes: Hashes

    /** readPeerHashes, given what the file system answers. */
    method ReadPeerHashes(stat: StatResult, read: ReadResult) returns (result: Option<Hashes>)
      modifies this
      ensures Outcome(result, modTime, hashes) == OutcomeOf(old(modTime), old(hashes), stat, read)
      ensures stat == NoFile ==> result == Some(Some(map[]))
      ensures stat == StatError ==> result == None
      ensures stat.Mtime? && stat.time == old(modTime) && old(hashes).Some? ==> result == Some(old(hashes))
      ensures stat.Mtime? && !(stat.time == old(modTime) && old(hashes).Some?) ==>
                result == match read
                  case Gone => Some(Some(map[]))
                  case ReadError => None
                  case Bytes(Garbage) => None
                  case Bytes(Parsed(h)) => Some(h)
      ensures if stat.Mtime? && !(stat.time == old(modTime) && old(hashes).Some?) && read.Bytes? && read.body.Parsed?
              then modTime == stat.time && hashes == read.body.hashes
              else modTime == old(modTime) && hashes == old(hashes)
    {
      match stat
      case NoFile => return Some(Some(map[]));
      case StatError => return None;
      case Mtime(time) =>
        if time == modTime && hashes.Some? {
          return Some(hashes);
        }
        match read
        case Gone => return Some(Some(map[]));
        case ReadError => return None;
        case Bytes(Garbage) => return None;
        case Bytes(Parsed(h)) =>
          modTime, hashes := time, h;
          return Some(h);
    }
  }

  // ---------------------------------------------------------------- racing calls

  /**
   Where a call is. `statAt`, `readAt` and `doneAt` number the version that was current at that instant;
   `served` numbers the version whose contents it returned.
   */
  datatype Call =
    | Waiting(statAt: nat, mtime: int)
    | Locked(statAt: nat, mtime: int)
    | Loaded(statAt: nat, mtime: int, readAt: nat, body: Body)
    | Failed
    | Served(statAt: nat, doneAt: nat, result: Hashes, served: nat)

  datatype State = State(
    history: seq<Version>,      // the versions of the file; the last one is current
    calls: map<nat, Call>,
    lock: Option<nat>,
    modTime: int,
    hashes: Hashes,
    stored: nat)                // the version whose contents the cache holds

  datatype Step =
    | Write(version: Version)
    | Stat(call: nat)
    | Acquire(call: nat)
    | Read(call: nat)
    | Finish(call: nat)
    | Fail(call: nat)

  ghost predicate Enabled(s: State, step: Step) {
    s.history != [] &&
    match step
    case Write(_) => true
    case Stat(c) => c !in s.calls
    case Acquire(c) => c in s.calls && s.calls[c].Waiting? && s.lock.None?
    case Read(c) => c in s.calls && s.calls[c].Locked?
    case Finish(c) => c in s.calls && s.calls[c].Loaded?
    case Fail(c) => c !in s.calls || s.calls[c].Locked?
  }

  ghost function Next(s: State, step: Step): State
    requires Enabled(s, step)
  {
    var now := |s.history| - 1;
    match step
    case Write(v) => s.(history := s.history + [v])
    case Stat(c) =>
      var call := if s.history[now].Absent? then Served(now, now, Some(map[]), now)
                  else Waiting(now, s.history[now].mtime);
      s.(calls := s.calls[c := call])
    case Acquire(c) =>
      var w := s.calls[c];
      if Hit(s.modTime, s.hashes, w.mtime) then
        s.(calls := s.calls[c := Served(w.statAt, now, s.hashes, s.stored)])
      else
        s.(calls := s.calls[c := Locked(w.statAt, w.mtime)], lock := Some(c))
    case Read(c) =>
      var l := s.calls[c];
      if s.history[now].Absent? then
        s.(calls := s.calls[c := Served(l.statAt, now, Some(map[]), now)], lock := None)
      else
        s.(calls := s.calls[c := Loaded(l.statAt, l.mtime, now, s.history[now].body)])
    case Finish(c) =>
      var l := s.calls[c];
      if l.body.Garbage? then s.(calls := s.calls[c := Failed], lock := None)
      else
        s.(calls := s.calls[c := Served(l.statAt, now, l.body.hashes, l.readAt)], lock := None,
           modTime := l.mtime, hashes := l.body.hashes, stored := l.readAt)
    case Fail(c) =>
      s.(calls := s.calls[c := Failed], lock := if c in s.calls then None else s.lock)
  }

  ghost predicate Initial(s: State) {
    |s.history| == 1 && s.calls == map[] && s.lock == None && s.hashes == None
  }

  ghost predicate IsRun(states: seq<State>, steps: seq<Step>) {
    && |states| == |steps| + 1
    && Initial(states[0])
    && forall k :: 0 <= k < |steps| ==> Enabled(states[k], steps[k]) && states[k + 1] == Next(states[k], steps[k])
  }

  // ---------------------------------------------------------------- the invariant

  /** Version `i` carries `mtime`. */
  ghost predicate HasMtime(history: seq<Version>, i: nat, mtime: int) {
    i < |history| && history[i].Present? && history[i].mtime == mtime
  }

  /** Version `i` decodes to a map that is not nil, the only kind of contents a later call can hit. */
  ghost predicate Cacheable(history: seq<Version>, i: nat) {
    && i < |history| && history[i].Present?
    && history[i].body.Parsed? && history[i].body.hashes.Some?
  }

  /** Versions u and j carry one mtime, and in between the file held something that can be cached under it. */
  ghost predicate Clash(history: seq<Version>, u: nat, r: nat, j: nat) {
    && u <= r < j < |history| && history[u].Present?
    && HasMtime(history, j, history[u].mtime)
    && Cacheable(history, r)
  }

  /** Version r can be served to a call that stats version j, although it is older. */
  ghost predicate Stale(history: seq<Version>, r: nat, j: nat) {
    exists u :: Clash(history, u, r, j)
  }

  ghost predicate CallOk(history: seq<Version>, call: Call) {
    match call
    case Waiting(statAt, mtime) => HasMtime(history, statAt, mtime)
    case Locked(statAt, mtime) => HasMtime(history, statAt, mtime)
    case Loaded(statAt, mtime, readAt, body) =>
      && HasMtime(history, statAt, mtime)
      && statAt <= readAt < |history| && history[readAt].Present? && history[readAt].body == body
    case Failed => true
    case Served(statAt, doneAt, result, served) =>
      && statAt <= doneAt < |history| && served <= doneAt && Meaning(history[served]) == Some(result)
      && (statAt <= served || Stale(history, served, statAt))
  }

  /** A filled cache holds a version no older than the one its mtime belongs to. */
  ghost predicate CacheOk(s: State) {
    s.hashes.Some? ==>
      && Cacheable(s.history, s.stored) && s.history[s.stored].body.hashes == s.hashes
      && exists u: nat :: u <= s.stored && HasMtime(s.history, u, s.modTime)
  }

  ghost predicate LockOk(s: State) {
    && (s.lock.Some? ==> s.lock.value in s.calls)
    && forall c :: c in s.calls ==> (s.calls[c].Locked? || s.calls[c].Loaded? <==> s.lock == Some(c))
  }

  /** While a call holds the lock nobody else stores, so what it missed stays a miss. */
  ghost predicate MissOk(s: State) {
    forall c :: c in s.calls && (s.calls[c].Locked? || s.calls[c].Loaded?) ==>
      !Hit(s.modTime, s.hashes, s.calls[c].mtime)
  }

  ghost predicate Inv(s: State) {
    && s.history != [] && CacheOk(s) && LockOk(s) && MissOk(s)
    && forall c :: c in s.calls ==> CallOk(s.history, s.calls[c])
  }

  lemma {:induction false} StaleGrows(history: seq<Version>, v: Version, r: nat, j: nat)
    requires Stale(history, r, j)
    ensures Stale(history + [v], r, j)
  {
    var u :| Clash(history, u, r, j);
    assert Clash(history + [v], u, r, j);
  }

  /** What the file system has answered stays true of a longer history. */
  lemma {:induction false} CallOkGrows(history: seq<Version>, v: Version, call: Call)
    requires CallOk(history, call)
    ensures CallOk(history + [v], call)
  {
    hide Stale;
    if call.Served? && call.served < call.statAt {
      StaleGrows(history, v, call.served, call.statAt);
    }
  }

  lemma {:induction false} InvWrite(s: State, v: Version)
    requires Inv(s) && Enabled(s, Write(v))
    ensures Inv(Next(s, Write(v)))
  {
    hide CallOk;
    var s' := Next(s, Write(v));
    if s.hashes.Some? {
      var u: nat :| u <= s.stored && HasMtime(s.history, u, s.modTime);
      assert HasMtime(s'.history, u, s.modTime);
    }
    forall c | c in s.calls
      ensures CallOk(s'.history, s.calls[c])
    {
      CallOkGrows(s.history, v, s.calls[c]);
    }
  }

  /** The step of a call leaves the other calls alone and its own in order. */
  lemma {:induction false} InvCalls(s: State, step: Step)
    requires Inv(s) && Enabled(s, step) && !step.Write?
    ensures var s' := Next(s, step); forall c :: c in s'.calls ==> CallOk(s'.history, s'.calls[c])
  {
    hide LockOk, Stale, Cacheable;
    var s', c := Next(s, step), step.call;
    assert c in s.calls ==> CallOk(s.history, s.calls[c]);
    if step.Acquire? && Hit(s.modTime, s.hashes, s.calls[c].mtime) {
      HitIsNotOlder(s, s.calls[c]);
    }
    assert CallOk(s'.history, s'.calls[c]);
  }

  lemma {:induction false} InvCache(s: State, step: Step)
    requires Inv(s) && Enabled(s, step) && !step.Write?
    ensures CacheOk(Next(s, step)) && LockOk(Next(s, step)) && MissOk(Next(s, step))
  {
    if step.Finish? {
      var l := s.calls[step.call];
      assert CallOk(s.history, l);
      assert HasMtime(s.history, l.statAt, l.mtime);
    }
  }

  lemma {:induction false} InvNext(s: State, step: Step)
    requires Inv(s) && Enabled(s, step)
    ensures Inv(Next(s, step))
  {
    if step.Write? {
      InvWrite(s, step.version);
    } else {
      InvCalls(s, step);
      InvCache(s, step);
      hide CacheOk, LockOk, MissOk, CallOk;
    }
  }

  /** A hit returns a version that is not older than the one stat'ed, unless the two clash. */
  lemma {:induction false} HitIsNotOlder(s: State, call: Call)
    requires Inv(s) && call.Waiting? && CallOk(s.history, call) && Hit(s.modTime, s.hashes, call.mtime)
    ensures s.stored < |s.history| && Meaning(s.history[s.stored]) == Some(s.hashes)
    ensures call.statAt <= s.stored || Stale(s.history, s.stored, call.statAt)
  {
    var u: nat :| u <= s.stored && HasMtime(s.history, u, s.modTime);
    if s.stored < call.statAt {
      assert Clash(s.history, u, s.stored, call.statAt);
    }
  }

  lemma {:induction false} InvAlways(states: seq<State>, steps: seq<Step>, k: nat)
    requires IsRun(states, steps) && k <= |steps|
    ensures Inv(states[k])
  {
    if k > 0 {
      InvAlways(states, steps, k - 1);
      InvNext(states[k - 1], steps[k - 1]);
    }
  }

  // ---------------------------------------------------------------- what callers see

  /** No version can be served to a call that stats a later one. */
  ghost predicate Clean(history: seq<Version>) {
    forall u, r, j :: !Clash(history, u, r, j)
  }

  /**
   Over a clean history every successful call, whatever it raced with, returns the meaning of a version that was
   current at some instant between its stat and its return, and never a version that could not be decoded.
   */
  lemma {:induction false} ServedIsCurrent(states: seq<State>, steps: seq<Step>, k: nat, c: nat)
    requires IsRun(states, steps) && k <= |steps| && c in states[k].calls && states[k].calls[c].Served?
    requires Clean(states[k].history)
    ensures var call := states[k].calls[c];
            && call.statAt <= call.served <= call.doneAt < |states[k].history|
            && Meaning(states[k].history[call.served]) == Some(call.result)
  {
    hide Clash;
    InvAlways(states, steps, k);
    assert CallOk(states[k].history, states[k].calls[c]);
  }

  lemma {:induction false} CleanPrefix(a: seq<Version>, b: seq<Version>)
    requires a <= b && Clean(b)
    ensures Clean(a)
  {
    forall u, r, j
      ensures !Clash(a, u, r, j)
    {
      assert !Clash(b, u, r, j);
    }
  }

  /** Versions that all carry different mtimes are clean, in whatever order the mtimes come. */
  lemma {:induction false} DistinctMtimesAreClean(history: seq<Version>)
    requires forall i, j :: 0 <= i < j < |history| && history[i].Present? && history[j].Present? ==>
               history[i].mtime != history[j].mtime
    ensures Clean(history)
  {
  }

  /** History only grows, and a finished call stays as it is. */
  lemma {:induction false} Persists(states: seq<State>, steps: seq<Step>, j: nat, k: nat)
    requires IsRun(states, steps) && j <= k <= |steps|
    ensures states[j].history <= states[k].history
    ensures forall c :: c in states[j].calls && states[j].calls[c].Served? ==>
                        c in states[k].calls && states[k].calls[c] == states[j].calls[c]
  {
    if j < k {
      Persists(states, steps, j, k - 1);
      assert Enabled(states[k - 1], steps[k - 1]);
    }
  }

  /** A call that starts at state j stats a version at least as new as the one then current. */
  lemma {:induction false} StatsLater(states: seq<State>, steps: seq<Step>, j: nat, k: nat, c: nat)
    requires IsRun(states, steps) && j <= k <= |steps| && c !in states[j].calls && c in states[k].calls
    ensures !states[k].calls[c].Failed? ==> states[k].calls[c].statAt >= |states[j].history| - 1
  {
    Persists(states, steps, j, k - 1);
    assert Enabled(states[k - 1], steps[k - 1]);
    if c in states[k - 1].calls {
      StatsLater(states, steps, j, k - 1, c);
    }
  }

  /** Over a clean history a call that begins after another has returned never goes back to an older version. */
  lemma {:induction false} NeverGoesBack(states: seq<State>, steps: seq<Step>, j: nat, k: nat, a: nat, b: nat)
    requires IsRun(states, steps) && j <= k <= |steps| && Clean(states[k].history)
    requires a in states[j].calls && states[j].calls[a].Served? && b !in states[j].calls
    requires b in states[k].calls && states[k].calls[b].Served?
    ensures states[j].calls[a].served <= states[k].calls[b].served
  {
    hide Clean, Next;
    Persists(states, steps, j, k);
    CleanPrefix(states[j].history, states[k].history);
    ServedIsCurrent(states, steps, j, a);
    ServedIsCurrent(states, steps, k, b);
    StatsLater(states, steps, j, k, b);
  }

  // ---------------------------------------------------------------- the racing calls are the code

  /** What the file system answered to the call that takes this step. */
  ghost function Answers(s: State, step: Step): (StatResult, ReadResult)
    requires Enabled(s, step) && !step.Write?
  {
    var current := s.history[|s.history| - 1];
    match step
    case Stat(_) => (if current.Absent? then NoFile else Mtime(current.mtime), ReadError)
    case Acquire(c) => (Mtime(s.calls[c].mtime), ReadError)
    case Read(c) => (Mtime(s.calls[c].mtime), Gone)
    case Finish(c) => (Mtime(s.calls[c].mtime), Bytes(s.calls[c].body))
    case Fail(c) => (if c in s.calls then Mtime(s.calls[c].mtime) else StatError, ReadError)
  }

  /**
   The racing calls are the code: the step that completes a call gives the result, and leaves the cache, that
   readPeerHashes gives on the same answers, however many versions were written between the stat and the read.
   */
  lemma {:induction false} CompletesLikeTheCode(s: State, step: Step)
    requires Inv(s) && Enabled(s, step) && !step.Write?
    requires var call := Next(s, step).calls[step.call]; call.Served? || call.Failed?
    ensures var s' := Next(s, step);
            var (stat, read) := Answers(s, step);
            var call := s'.calls[step.call];
            OutcomeOf(s.modTime, s.hashes, stat, read)
            == Outcome(if call.Served? then Some(call.result) else None, s'.modTime, s'.hashes)
  {
    hide CacheOk, LockOk, CallOk;
  }

  // ---------------------------------------------------------------- exactly which histories are safe

  ghost predicate Reachable(s: State) {
    exists states, steps :: IsRun(states, steps) && states[|steps|] == s
  }

  lemma {:induction false} ReachInv(s: State)
    requires Reachable(s)
    ensures Inv(s)
  {
    var states, steps :| IsRun(states, steps) && states[|steps|] == s;
    InvAlways(states, steps, |steps|);
  }

  lemma {:induction false} ReachNext(s: State, step: Step)
    requires Reachable(s) && Enabled(s, step)
    ensures Reachable(Next(s, step))
  {
    var states, steps :| IsRun(states, steps) && states[|steps|] == s;
    var states', steps' := states + [Next(s, step)], steps + [step];
    assert IsRun(states', steps') && states'[|steps'|] == Next(s, step);
  }

  lemma {:induction false} ReachInitial(s: State)
    requires Initial(s)
    ensures Reachable(s)
  {
    var steps: seq<Step> := [];
    assert IsRun([s], steps) && [s][|steps|] == s;
  }

  /** The writer goes on to version n - 1 of h. */
  lemma {:induction false} WriteOn(s: State, h: seq<Version>, n: nat)
    requires Reachable(s) && 1 <= |s.history| <= n <= |h| && s.history == h[..|s.history|]
    ensures Reachable(s.(history := h[..n]))
    decreases n - |s.history|
  {
    hide Reachable;
    var m := |s.history|;
    if m < n {
      ReachNext(s, Write(h[m]));
      assert h[..m + 1] == h[..m] + [h[m]];
      WriteOn(s.(history := h[..m + 1]), h, n);
    }
  }

  /** A call that stat'ed version u has read version r and stored it under the mtime of version u. */
  ghost function Cached(h: seq<Version>, u: nat, r: nat): State
    requires u <= r < |h| && h[u].Present? && Cacheable(h, r)
  {
    State(h[..r + 1], map[0 := Served(u, r, h[r].body.hashes, r)], None, h[u].mtime, h[r].body.hashes, r)
  }

  lemma {:induction false} ReachCached(h: seq<Version>, u: nat, r: nat)
    requires u <= r < |h| && h[u].Present? && Cacheable(h, r)
    ensures Reachable(Cached(h, u, r))
  {
    hide Reachable;
    var s0 := State(h[..1], map[], None, 0, None, 0);
    ReachInitial(s0);
    WriteOn(s0, h, u + 1);
    var s1 := s0.(history := h[..u + 1]);
    ReachNext(s1, Stat(0));
    var s2 := s1.(calls := map[0 := Waiting(u, h[u].mtime)]);
    assert Next(s1, Stat(0)) == s2;
    ReachNext(s2, Acquire(0));
    var s3 := s2.(calls := map[0 := Locked(u, h[u].mtime)], lock := Some(0));
    assert Next(s2, Acquire(0)) == s3;
    WriteOn(s3, h, r + 1);
    var s4 := s3.(history := h[..r + 1]);
    ReachNext(s4, Read(0));
    var s5 := s4.(calls := map[0 := Loaded(u, h[u].mtime, r, h[r].body)]);
    assert Next(s4, Read(0)) == s5;
    ReachNext(s5, Finish(0));
    assert Next(s5, Finish(0)) == Cached(h, u, r);
  }

  /** From the start of a clashing history to a call that begins and ends at version j and is served version r. */
  lemma {:induction false} ReachStale(h: seq<Version>, u: nat, r: nat, j: nat) returns (s: State)
    requires Clash(h, u, r, j)
    ensures Reachable(s) && s.history == h && 1 in s.calls
    ensures s.calls[1] == Served(j, j, h[r].body.hashes, r)
  {
    hide Reachable;
    var s0 := Cached(h, u, r);
    ReachCached(h, u, r);
    assert h[..r + 1] == h[..|s0.history|];
    WriteOn(s0, h, j + 1);
    var s1 := s0.(history := h[..j + 1]);
    ReachNext(s1, Stat(1));
    var s2 := Next(s1, Stat(1));
    assert s2.calls[1] == Waiting(j, h[j].mtime);
    ReachNext(s2, Acquire(1));
    var s3 := Next(s2, Acquire(1));
    WriteOn(s3, h, |h|);
    s := s3.(history := h[..|h|]);
    assert h[..|h|] == h;
  }

  /** No call has been served a version older than the one it stat'ed. */
  ghost predicate NoneOlder(s: State) {
    forall c :: c in s.calls && s.calls[c].Served? ==> s.calls[c].statAt <= s.calls[c].served
  }

  /**
   For every file history: whatever calls race over it, none is served a version older than the one it stat'ed,
   if and only if the history is clean.
   */
  lemma {:induction false} SafeIffClean(h: seq<Version>)
    ensures (forall s :: Reachable(s) && s.history == h ==> NoneOlder(s)) <==> Clean(h)
  {
    hide Clash, Reachable;
    if Clean(h) {
      forall s | Reachable(s) && s.history == h
        ensures NoneOlder(s)
      {
        ReachInv(s);
        assert forall c :: c in s.calls ==> CallOk(h, s.calls[c]);
      }
    } else {
      var u, r, j :| Clash(h, u, r, j);
      var s := ReachStale(h, u, r, j);
      ClashOrder(h, u, r, j);
      assert !NoneOlder(s);
    }
  }

  lemma ClashOrder(h: seq<Version>, u: nat, r: nat, j: nat)
    requires Clash(h, u, r, j)
    ensures u <= r < j < |h| && Meaning(h[r]) == Some(h[r].body.hashes)
  {
  }

  /** Some version that was current during a finished call means what the call returned. */
  ghost predicate WasCurrent(history: seq<Version>, call: Call)
    requires call.Served?
  {
    exists v :: call.statAt <= v <= call.doneAt && v < |history| && Meaning(history[v]) == Some(call.result)
  }

  ghost predicate AllCurrent(s: State) {
    forall c :: c in s.calls && s.calls[c].Served? ==> WasCurrent(s.history, s.calls[c])
  }

  /** Versions that clash mean the same. */
  ghost predicate CleanContents(history: seq<Version>) {
    forall u: nat, r: nat, j: nat :: Clash(history, u, r, j) ==> Meaning(history[r]) == Meaning(history[j])
  }

  /** A call that was served an older version still returned current contents, if clashing versions mean the same. */
  lemma {:induction false} CurrentContents(history: seq<Version>, call: Call)
    requires call.Served? && CallOk(history, call) && CleanContents(history)
    ensures WasCurrent(history, call)
  {
    if call.statAt <= call.served {
      assert Meaning(history[call.served]) == Some(call.result);
    } else {
      var u :| Clash(history, u, call.served, call.statAt);
      assert Meaning(history[call.statAt]) == Some(call.result);
    }
  }

  /**
   The same for contents: whatever calls race over a history, each returns contents that were current during the
   call, if and only if the versions of the history that clash mean the same.
   */
  lemma {:induction false} CurrentIffCleanContents(h: seq<Version>)
    ensures (forall s :: Reachable(s) && s.history == h ==> AllCurrent(s)) <==> CleanContents(h)
  {
    hide Reachable, CallOk;
    if CleanContents(h) {
      forall s | Reachable(s) && s.history == h
        ensures AllCurrent(s)
      {
        ReachInv(s);
        forall c | c in s.calls && s.calls[c].Served?
          ensures WasCurrent(h, s.calls[c])
        {
          CurrentContents(h, s.calls[c]);
        }
      }
    } else {
      var u: nat, r: nat, j: nat :| Clash(h, u, r, j) && Meaning(h[r]) != Meaning(h[j]);
      var s := ReachStale(h, u, r, j);
      ClashOrder(h, u, r, j);
      assert !WasCurrent(h, s.calls[1]);
    }
  }
}
