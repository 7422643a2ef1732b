/**
 The cache of peer hashes that pods report (pkg/daemon/server/rater/peer_card_drift.go): three maps kept in
 step by `set` and `prune`, and the scrape tick that prunes first and then sets concurrently.
 */
module HashCache {
  import opened Prelude

  datatype ReportedHash = ReportedHash(hash: string, observedAt: int)

  type PeerHashes = map<string, ReportedHash>

  datatype Maps = Maps(
    byPod: map<string, PeerHashes>,
    updated: map<string, int>,
    hostToPod: map<string, string>)

  const EMPTY := Maps(map[], map[], map[])

  /** A successful scrape of a host. */
  datatype Report = Report(host: string, pod: string, hashes: PeerHashes, at: int)

  /** The pod a host pointed at before, unless it reports the same one again. */
  function Replaced(c: Maps, host: string, pod: string): set<string> {
    if host in c.hostToPod && c.hostToPod[host] != pod then {c.hostToPod[host]} else {}
  }

  function Set(c: Maps, r: Report): Maps {
    var stale := Replaced(c, r.host, r.pod);
    Maps((c.byPod - stale)[r.pod := r.hashes], (c.updated - stale)[r.pod := r.at], c.hostToPod[r.host := r.pod])
  }

  ghost function DeadHosts(c: Maps, live: set<string>): set<string> {
    set h | h in c.hostToPod && h !in live
  }

  ghost function Prune(c: Maps, live: set<string>): Maps {
    var dead := DeadHosts(c, live);
    var pods := set h | h in dead && h in c.hostToPod :: c.hostToPod[h];
    Maps(c.byPod - pods, c.updated - pods, c.hostToPod - dead)
  }

  /** Giving up one more host removes its pod. */
  lemma {:induction false} PruneOneMore(c: Maps, keep: set<string>, h: string)
    requires h in c.hostToPod && h !in keep
    ensures var a := Prune(c, keep + {h});
            && h in a.hostToPod && a.hostToPod[h] == c.hostToPod[h]
            && Prune(c, keep) == Maps(a.byPod - {a.hostToPod[h]}, a.updated - {a.hostToPod[h]}, a.hostToPod - {h})
  {
    var a, b := Prune(c, keep + {h}), Prune(c, keep);
    assert DeadHosts(c, keep) == DeadHosts(c, keep + {h}) + {h};
    assert b.byPod == a.byPod - {c.hostToPod[h]};
    assert b.updated == a.updated - {c.hostToPod[h]};
    assert b.hostToPod == a.hostToPod - {h};
  }

  lemma PruneNothing(c: Maps, live: set<string>)
    requires forall h :: h in c.hostToPod ==> h in live
    ensures Prune(c, live) == c
  {
    assert DeadHosts(c, live) == {};
  }

  class PeerHashCache {
    var byPod: map<string, PeerHashes>
    var updated: map<string, int>
    var hostToPod: map<string, string>

    function State(): Maps
      reads this
    {
      Maps(byPod, updated, hostToPod)
    }

    constructor ()
      ensures State() == EMPTY
    {
      byPod, updated, hostToPod := map[], map[], map[];
    }

    method DropReplaced(host: string, pod: string)
      modifies this`byPod, this`updated
      ensures byPod == old(byPod) - Replaced(old(State()), host, pod)
      ensures updated == old(updated) - Replaced(old(State()), host, pod)
    {
      if host in hostToPod && hostToPod[host] != pod {
        var prev := hostToPod[host];
        byPod := byPod - {prev};
        updated := updated - {prev};
      }
    }

    method SetReport(host: string, pod: string, peerHashes: PeerHashes, now: int)
      modifies this
      ensures State() == Set(old(State()), Report(host, pod, peerHashes, now))
    {
      hide Replaced;
      DropReplaced(host, pod);
      byPod := byPod[pod := peerHashes];
      updated := updated[pod := now];
      hostToPod := hostToPod[host := pod];
    }

    method PruneHosts(liveHosts: seq<string>)
      modifies this
      ensures State() == Prune(old(State()), Elements(liveHosts))
    {
      hide Prune, DeadHosts;
      ghost var before := State();
      ghost var live := Elements(liveHosts);
      var hosts := InSomeOrder(hostToPod.Keys);
      assert hosts[0..] == hosts;
      PruneNothing(before, live + Elements(hosts));
      for n := 0 to |hosts|
        invariant State() == Prune(before, live + Elements(hosts[n..]))
      {
        ghost var keep := live + Elements(hosts[n + 1..]);
        assert hosts[n..] == [hosts[n]] + hosts[n + 1..];
        assert live + Elements(hosts[n..]) == keep + {hosts[n]};
        if hosts[n] in liveHosts {
          assert keep + {hosts[n]} == keep;
        } else {
          assert hosts[n] in hosts && hosts[n] !in keep;
          PruneOneMore(before, keep, hosts[n]);
          var pod := hostToPod[hosts[n]];
          byPod := byPod - {pod};
          updated := updated - {pod};
          hostToPod := hostToPod - {hosts[n]};
        }
      }
      assert live + Elements(hosts[|hosts|..]) == live;
    }

    /** reportedByPeer: what each cached pod says about a peer; pods that say nothing are absent. */
    method ReportedByPeer(peer: string) returns (out: map<string, ReportedHash>)
      ensures forall p :: p in out <==> p in byPod && peer in byPod[p]
      ensures forall p :: p in out ==> out[p] == byPod[p][peer]
    {
      var pods := InSomeOrder(byPod.Keys);
      out := map[];
      for n := 0 to |pods|
        invariant forall p :: p in out <==> p in pods[..n] && p in byPod && peer in byPod[p]
        invariant forall p :: p in out ==> out[p] == byPod[p][peer]
      {
        assert pods[..n + 1] == pods[..n] + [pods[n]];
        if peer in byPod[pods[n]] {
          out := out[pods[n] := byPod[pods[n]][peer]];
        }
      }
      assert pods[..|pods|] == pods;
    }
  }

  // ---------------------------------------------------------------- what set and prune keep

  ghost predicate Points(c: Maps, host: string, pod: string) {
    host in c.hostToPod && c.hostToPod[host] == pod
  }

  /** No two hosts point at one pod. */
  ghost predicate Injective(c: Maps) {
    forall g, h, p :: Points(c, g, p) && Points(c, h, p) ==> g == h
  }

  /** The cached pods are exactly those that hosts point at, each by one host. */
  ghost predicate InStep(c: Maps) {
    && Injective(c)
    && (forall h, p :: Points(c, h, p) ==> p in c.byPod)
    && (forall p :: p in c.byPod ==> exists h :: Points(c, h, p))
    && (forall p :: p in c.byPod <==> p in c.updated)
  }

  /** Host-to-pod is injective and its range is the set of cached pods. */
  lemma {:induction false} InStepMeans(c: Maps)
    requires InStep(c)
    ensures forall g, h :: g in c.hostToPod && h in c.hostToPod && c.hostToPod[g] == c.hostToPod[h] ==> g == h
    ensures c.hostToPod.Values == c.byPod.Keys == c.updated.Keys
  {
    forall g, h | g in c.hostToPod && h in c.hostToPod && c.hostToPod[g] == c.hostToPod[h]
      ensures g == h
    {
      assert Points(c, g, c.hostToPod[g]) && Points(c, h, c.hostToPod[g]);
    }
    forall p | p in c.byPod
      ensures p in c.hostToPod.Values
    {
      var h :| Points(c, h, p);
    }
    forall p | p in c.hostToPod.Values
      ensures p in c.byPod
    {
      var h :| h in c.hostToPod && c.hostToPod[h] == p;
      assert Points(c, h, p);
    }
  }

  /** The pod of the report is not one that another host points at. */
  ghost predicate Guard(c: Maps, r: Report) {
    forall h :: Points(c, h, r.pod) ==> h == r.host
  }

  /** Who points at what, and what is cached, after a set. */
  lemma {:induction false} SetEffect(c: Maps, r: Report, h: string, p: string)
    ensures Points(Set(c, r), h, p) <==> if h == r.host then p == r.pod else Points(c, h, p)
    ensures p in Set(c, r).byPod <==> p == r.pod || (p in c.byPod && !Points(c, r.host, p))
    ensures p in Set(c, r).updated <==> p == r.pod || (p in c.updated && !Points(c, r.host, p))
    ensures p in c.byPod && p in c.updated && p != r.pod && !Points(c, r.host, p) ==>
              Set(c, r).byPod[p] == c.byPod[p] && Set(c, r).updated[p] == c.updated[p]
  {
  }

  lemma {:induction false} SetInStep(c: Maps, r: Report)
    requires InStep(c) && Guard(c, r)
    ensures InStep(Set(c, r))
  {
    hide Set, Points;
    var c' := Set(c, r);
    forall g, h, p | Points(c', g, p) && Points(c', h, p)
      ensures g == h
    {
      SetEffect(c, r, g, p);
      SetEffect(c, r, h, p);
    }
    forall h, p | Points(c', h, p)
      ensures p in c'.byPod
    {
      SetEffect(c, r, h, p);
    }
    forall p
      ensures p in c'.byPod ==> exists h :: Points(c', h, p)
      ensures p in c'.byPod <==> p in c'.updated
    {
      SetPod(c, r, p);
    }
  }

  lemma {:induction false} SetPod(c: Maps, r: Report, p: string)
    requires InStep(c)
    ensures p in Set(c, r).byPod ==> exists h :: Points(Set(c, r), h, p)
    ensures p in Set(c, r).byPod <==> p in Set(c, r).updated
  {
    hide Set, Points, Injective;
    SetEffect(c, r, r.host, p);
    if p in Set(c, r).byPod && p != r.pod {
      var h :| Points(c, h, p);
      SetEffect(c, r, h, p);
    }
  }

  /** A set keeps the maps in step exactly when no other host points at the pod it reports. */
  lemma {:induction false} SetKeepsIff(c: Maps, r: Report)
    requires InStep(c)
    ensures InStep(Set(c, r)) <==> Guard(c, r)
  {
    hide Set, Points;
    if Guard(c, r) {
      SetInStep(c, r);
    } else {
      var h :| Points(c, h, r.pod) && h != r.host;
      SetEffect(c, r, h, r.pod);
      SetEffect(c, r, r.host, r.pod);
    }
  }

  lemma {:induction false} PruneEffect(c: Maps, live: set<string>, h: string, p: string)
    ensures Points(Prune(c, live), h, p) <==> Points(c, h, p) && h in live
    ensures p in Prune(c, live).byPod <==> p in c.byPod && !exists g :: Points(c, g, p) && g !in live
    ensures p in Prune(c, live).updated <==> p in c.updated && !exists g :: Points(c, g, p) && g !in live
    ensures p in Prune(c, live).byPod ==> Prune(c, live).byPod[p] == c.byPod[p]
    ensures p in Prune(c, live).updated ==> Prune(c, live).updated[p] == c.updated[p]
  {
    var dead := DeadHosts(c, live);
    var pods := set g | g in dead && g in c.hostToPod :: c.hostToPod[g];
    assert p in pods <==> exists g :: Points(c, g, p) && g !in live by {
      if g :| Points(c, g, p) && g !in live {
        assert g in dead;
      }
    }
  }

  /** A prune always keeps the maps in step. */
  lemma {:induction false} PruneInStep(c: Maps, live: set<string>)
    requires InStep(c)
    ensures InStep(Prune(c, live))
  {
    hide Prune, Points;
    var c' := Prune(c, live);
    forall g, h, p | Points(c', g, p) && Points(c', h, p)
      ensures g == h
    {
      PruneEffect(c, live, g, p);
      PruneEffect(c, live, h, p);
    }
    forall h, p | Points(c', h, p)
      ensures p in c'.byPod
    {
      PruneEffect(c, live, h, p);
    }
    forall p
      ensures p in c'.byPod ==> exists h :: Points(c', h, p)
      ensures p in c'.byPod <==> p in c'.updated
    {
      PrunePod(c, live, p);
    }
  }

  lemma {:induction false} PrunePod(c: Maps, live: set<string>, p: string)
    requires InStep(c)
    ensures p in Prune(c, live).byPod ==> exists h :: Points(Prune(c, live), h, p)
    ensures p in Prune(c, live).byPod <==> p in Prune(c, live).updated
  {
    hide Prune, Points, Injective;
    PruneEffect(c, live, "", p);
    if p in Prune(c, live).byPod {
      var h :| Points(c, h, p);
      PruneEffect(c, live, h, p);
    }
  }

  // ---------------------------------------------------------------- runs

  datatype CacheOp = SetOp(report: Report) | PruneOp(live: set<string>)

  ghost function DoOp(c: Maps, op: CacheOp): Maps {
    match op
    case SetOp(r) => Set(c, r)
    case PruneOp(live) => Prune(c, live)
  }

  ghost function RunOps(ops: seq<CacheOp>): Maps {
    if ops == [] then EMPTY else DoOp(RunOps(ops[..|ops| - 1]), ops[|ops| - 1])
  }

  lemma RunOpsStep(ops: seq<CacheOp>, k: nat)
    requires k < |ops|
    ensures RunOps(ops[..k + 1]) == DoOp(RunOps(ops[..k]), ops[k])
  {
    assert ops[..k + 1][..k] == ops[..k];
  }

  /** Whether the k-th operation is a prune, or a set whose report no other host stands in the way of. */
  ghost predicate GuardAt(ops: seq<CacheOp>, k: nat)
    requires k < |ops|
  {
    ops[k].SetOp? ==> Guard(RunOps(ops[..k]), ops[k].report)
  }

  lemma {:induction false} GuardedStep(ops: seq<CacheOp>, k: nat)
    requires k < |ops| && InStep(RunOps(ops[..k]))
    ensures InStep(RunOps(ops[..k + 1])) <==> GuardAt(ops, k)
  {
    hide InStep, Set, Prune, RunOps, Guard;
    RunOpsStep(ops, k);
    match ops[k]
    case SetOp(r) => SetKeepsIff(RunOps(ops[..k]), r);
    case PruneOp(live) => PruneInStep(RunOps(ops[..k]), live);
  }

  lemma {:induction false} GuardedPrefix(ops: seq<CacheOp>, n: nat)
    requires n <= |ops| && forall k :: 0 <= k < n ==> GuardAt(ops, k)
    ensures InStep(RunOps(ops[..n]))
  {
    if n > 0 {
      hide InStep, GuardAt, RunOps;
      GuardedPrefix(ops, n - 1);
      assert GuardAt(ops, n - 1);
      GuardedStep(ops, n - 1);
    }
  }

  /** The maps are in step throughout a run of set and prune exactly when every set passes the guard on its turn. */
  lemma {:induction false} InStepIffGuarded(ops: seq<CacheOp>)
    ensures (forall n :: 0 <= n <= |ops| ==> InStep(RunOps(ops[..n])))
            <==> forall k :: 0 <= k < |ops| ==> GuardAt(ops, k)
  {
    hide InStep, GuardAt, RunOps;
    if forall k :: 0 <= k < |ops| ==> GuardAt(ops, k) {
      forall n | 0 <= n <= |ops|
        ensures InStep(RunOps(ops[..n]))
      {
        GuardedPrefix(ops, n);
      }
    }
    if forall n :: 0 <= n <= |ops| ==> InStep(RunOps(ops[..n])) {
      forall k | 0 <= k < |ops|
        ensures GuardAt(ops, k)
      {
        assert InStep(RunOps(ops[..k])) && InStep(RunOps(ops[..k + 1]));
        GuardedStep(ops, k);
      }
    }
  }

  /** Which host a pod name belongs to. */
  type Owner = string -> string

  ghost predicate Owned(c: Maps, owner: Owner) {
    forall h, p :: Points(c, h, p) ==> owner(p) == h
  }

  lemma {:induction false} OwnedStep(c: Maps, op: CacheOp, owner: Owner)
    requires Owned(c, owner) && (op.SetOp? ==> owner(op.report.pod) == op.report.host)
    ensures Owned(DoOp(c, op), owner)
    ensures op.SetOp? ==> Guard(c, op.report)
  {
    hide Set, Prune, Points;
    forall h, p | Points(DoOp(c, op), h, p)
      ensures owner(p) == h
    {
      match op
      case SetOp(r) => SetEffect(c, r, h, p);
      case PruneOp(live) => PruneEffect(c, live, h, p);
    }
  }

  /** If each pod name belongs to one host, every run of set and prune, in any order, keeps the maps in step. */
  lemma {:induction false} InStepAlways(ops: seq<CacheOp>, owner: Owner)
    requires forall i :: 0 <= i < |ops| && ops[i].SetOp? ==> owner(ops[i].report.pod) == ops[i].report.host
    ensures InStep(RunOps(ops)) && Owned(RunOps(ops), owner)
  {
    if ops != [] {
      hide InStep, Owned, Set, Prune;
      var before, op := ops[..|ops| - 1], ops[|ops| - 1];
      InStepAlways(before, owner);
      OwnedStep(RunOps(before), op, owner);
      match op
      case SetOp(r) => SetInStep(RunOps(before), r);
      case PruneOp(live) => PruneInStep(RunOps(before), live);
    }
  }

  /** Two hosts that report one pod name: a later change at one of them drops the pod the other still points at. */
  lemma {:induction false} SharedPodNameFallsOut(h: PeerHashes)
    ensures var c := Set(Set(Set(EMPTY, Report("a", "p", h, 1)), Report("b", "p", h, 2)), Report("a", "q", h, 3));
            Points(c, "b", "p") && "p" !in c.byPod
  {
  }

  /** A pod name that moves to another host once its old host has been pruned does no harm. */
  lemma {:induction false} MovedPodNameStaysInStep(h: PeerHashes)
    ensures var pruned := Prune(Set(EMPTY, Report("a", "p", h, 1)), {"b"});
            InStep(pruned) && Guard(pruned, Report("b", "p", h, 2))
  {
    hide Prune, Set;
    var c := Set(EMPTY, Report("a", "p", h, 1));
    SetInStep(EMPTY, Report("a", "p", h, 1));
    PruneInStep(c, {"b"});
    forall g | Points(Prune(c, {"b"}), g, "p")
      ensures g == "b"
    {
      PruneEffect(c, {"b"}, g, "p");
    }
  }

  // ---------------------------------------------------------------- the cache by host

  datatype Entry = Entry(pod: string, hashes: PeerHashes, at: int)

  ghost function EntryOf(c: Maps, h: string): Option<Entry>
    requires InStep(c)
  {
    if h !in c.hostToPod then None
    else
      assert Points(c, h, c.hostToPod[h]);
      Some(Entry(c.hostToPod[h], c.byPod[c.hostToPod[h]], c.updated[c.hostToPod[h]]))
  }

  /** Two caches in step that agree host by host are the same. */
  lemma {:induction false} EntriesDetermine(a: Maps, b: Maps)
    requires InStep(a) && InStep(b) && forall h :: EntryOf(a, h) == EntryOf(b, h)
    ensures a == b
  {
    forall h
      ensures h in a.hostToPod <==> h in b.hostToPod
      ensures h in a.hostToPod ==> a.hostToPod[h] == b.hostToPod[h]
    {
      assert EntryOf(a, h) == EntryOf(b, h);
    }
    assert a.hostToPod == b.hostToPod;
    forall p
      ensures p in a.byPod <==> p in b.byPod
      ensures p in a.byPod ==> a.byPod[p] == b.byPod[p] && a.updated[p] == b.updated[p]
    {
      EntryOfPod(a, b, p);
    }
    assert a.byPod == b.byPod && a.updated == b.updated;
  }

  lemma {:induction false} EntryOfPod(a: Maps, b: Maps, p: string)
    requires InStep(a) && InStep(b) && a.hostToPod == b.hostToPod && forall h :: EntryOf(a, h) == EntryOf(b, h)
    ensures p in a.byPod <==> p in b.byPod
    ensures p in a.byPod ==> a.byPod[p] == b.byPod[p] && a.updated[p] == b.updated[p]
  {
    hide Injective;
    if p in a.byPod {
      var h :| Points(a, h, p);
      assert Points(b, h, p) && EntryOf(a, h) == EntryOf(b, h);
    }
    if p in b.byPod {
      var h :| Points(b, h, p);
      assert Points(a, h, p);
    }
  }

  /** set replaces the entry of its host and no other. */
  lemma {:induction false} SetEntry(c: Maps, r: Report, h: string)
    requires InStep(c) && Guard(c, r)
    ensures InStep(Set(c, r))
    ensures EntryOf(Set(c, r), h) == if h == r.host then Some(Entry(r.pod, r.hashes, r.at)) else EntryOf(c, h)
  {
    SetInStep(c, r);
    if h != r.host && h in c.hostToPod {
      SetOther(c, r, h);
    }
  }

  lemma {:induction false} SetOther(c: Maps, r: Report, h: string)
    requires InStep(c) && Guard(c, r) && h != r.host && h in c.hostToPod
    ensures var p := c.hostToPod[h];
            && p in c.byPod && p in c.updated && p in Set(c, r).byPod && p in Set(c, r).updated
            && Set(c, r).byPod[p] == c.byPod[p] && Set(c, r).updated[p] == c.updated[p]
  {
    hide Set;
    var p := c.hostToPod[h];
    assert Points(c, h, p);
    SetEffect(c, r, h, p);
  }

  /** prune keeps the entries of the live hosts and no others. */
  lemma {:induction false} PruneEntry(c: Maps, live: set<string>, h: string)
    requires InStep(c)
    ensures InStep(Prune(c, live))
    ensures EntryOf(Prune(c, live), h) == if h in live then EntryOf(c, h) else None
  {
    hide Prune;
    PruneInStep(c, live);
    if h in c.hostToPod {
      PruneEffect(c, live, h, c.hostToPod[h]);
    }
    if h in Prune(c, live).hostToPod {
      PruneEffect(c, live, h, Prune(c, live).hostToPod[h]);
    }
  }

  // ---------------------------------------------------------------- ticks

  ghost function SetAll(c: Maps, rs: seq<Report>): Maps {
    if rs == [] then c else Set(SetAll(c, rs[..|rs| - 1]), rs[|rs| - 1])
  }

  /** The reports of one tick: one per host and pod, and none of a pod that another host points at. */
  ghost predicate TickReports(c: Maps, rs: seq<Report>) {
    && (forall i :: 0 <= i < |rs| ==> Guard(c, rs[i]))
    && forall i, j :: 0 <= i < j < |rs| ==> rs[i].host != rs[j].host && rs[i].pod != rs[j].pod
  }

  /** If each pod name belongs to one host, one report per host is enough. */
  lemma {:induction false} OwnedTickReports(c: Maps, rs: seq<Report>, owner: Owner)
    requires Owned(c, owner)
    requires forall i :: 0 <= i < |rs| ==> owner(rs[i].pod) == rs[i].host
    requires forall i, j :: 0 <= i < j < |rs| ==> rs[i].host != rs[j].host
    ensures TickReports(c, rs)
  {
    hide Points;
    forall i | 0 <= i < |rs|
      ensures Guard(c, rs[i])
    {
      forall h | Points(c, h, rs[i].pod)
        ensures h == rs[i].host
      {
        assert owner(rs[i].pod) == h;
      }
    }
  }

  /** After all reports, a host shows its report, or what it showed before. */
  lemma {:induction false} SetAllEntry(c: Maps, rs: seq<Report>, h: string)
    requires InStep(c) && TickReports(c, rs)
    ensures InStep(SetAll(c, rs))
    ensures forall i :: 0 <= i < |rs| && rs[i].host == h ==>
              EntryOf(SetAll(c, rs), h) == Some(Entry(rs[i].pod, rs[i].hashes, rs[i].at))
    ensures (forall i :: 0 <= i < |rs| ==> rs[i].host != h) ==> EntryOf(SetAll(c, rs), h) == EntryOf(c, h)
    decreases |rs|, 0
  {
    hide InStep, Set, EntryOf, Guard;
    if rs != [] {
      var rs', r := rs[..|rs| - 1], rs[|rs| - 1];
      SetAllEntry(c, rs', h);
      GuardAfter(c, rs', r);
      SetEntry(SetAll(c, rs'), r, h);
    }
  }

  lemma {:induction false} GuardAfter(c: Maps, rs: seq<Report>, r: Report)
    requires InStep(c) && TickReports(c, rs) && Guard(c, r)
    requires forall i :: 0 <= i < |rs| ==> rs[i].pod != r.pod
    ensures Guard(SetAll(c, rs), r)
    decreases |rs|, 1
  {
    hide InStep, Set, SetAll;
    forall h | Points(SetAll(c, rs), h, r.pod)
      ensures h == r.host
    {
      SetAllEntry(c, rs, h);
      PointsEntry(SetAll(c, rs), h, r.pod);
      if forall i :: 0 <= i < |rs| ==> rs[i].host != h {
        PointsEntry(c, h, r.pod);
      }
    }
  }

  lemma {:induction false} PointsEntry(c: Maps, h: string, p: string)
    requires InStep(c)
    ensures Points(c, h, p) <==> EntryOf(c, h).Some? && EntryOf(c, h).value.pod == p
  {
  }

  /** The order in which the concurrent set calls of a tick happen makes no difference. */
  lemma {:induction false} TickOrder(c: Maps, a: seq<Report>, b: seq<Report>)
    requires InStep(c) && TickReports(c, a) && TickReports(c, b)
    requires forall r :: r in a <==> r in b
    ensures SetAll(c, a) == SetAll(c, b)
  {
    hide InStep, TickReports, Set, SetAll, EntryOf;
    SetAllEntry(c, a, "");
    SetAllEntry(c, b, "");
    forall h
      ensures EntryOf(SetAll(c, a), h) == EntryOf(SetAll(c, b), h)
    {
      SetAllEntry(c, a, h);
      SetAllEntry(c, b, h);
      SameHost(a, b, h);
      if i :| 0 <= i < |a| && a[i].host == h {
        assert a[i] in b;
      }
    }
    EntriesDetermine(SetAll(c, a), SetAll(c, b));
  }

  lemma SameHost(a: seq<Report>, b: seq<Report>, h: string)
    requires forall r :: r in a <==> r in b
    ensures (exists i :: 0 <= i < |a| && a[i].host == h) <==> (exists i :: 0 <= i < |b| && b[i].host == h)
  {
    if i :| 0 <= i < |a| && a[i].host == h {
      assert a[i] in b;
    }
    if i :| 0 <= i < |b| && b[i].host == h {
      assert b[i] in a;
    }
  }

  /** A tick: nothing at all when discovery finds no host, else prune, then the reports in some order. */
  ghost function Tick(c: Maps, hosts: seq<string>, rs: seq<Report>): Maps {
    if hosts == [] then c else SetAll(Prune(c, Elements(hosts)), rs)
  }

  lemma {:induction false} TickInStep(c: Maps, hosts: seq<string>, rs: seq<Report>)
    requires InStep(c) && TickReports(Prune(c, Elements(hosts)), rs)
    ensures InStep(Tick(c, hosts, rs))
  {
    hide InStep, Prune, SetAll;
    if hosts != [] {
      PruneInStep(c, Elements(hosts));
      SetAllEntry(Prune(c, Elements(hosts)), rs, "");
    }
  }

  /**
   scrapeIntrospectOnce behind the check for discovered hosts: prune, then a set for every host that answered, in
   whatever order they do.
   */
  method ScrapeOnce(cache: PeerHashCache, hosts: seq<string>, reports: seq<Report>)
    modifies cache
    ensures cache.State() == Tick(old(cache.State()), hosts, reports)
    ensures hosts == [] ==> cache.State() == old(cache.State())
  {
    hide Prune, Set;
    if |hosts| == 0 {
      return;
    }
    cache.PruneHosts(hosts);
    ghost var pruned := cache.State();
    for n := 0 to |reports|
      invariant cache.State() == SetAll(pruned, reports[..n])
    {
      assert reports[..n + 1][..n] == reports[..n];
      cache.SetReport(reports[n].host, reports[n].pod, reports[n].hashes, reports[n].at);
    }
    assert reports[..|reports|] == reports;
  }

  /** Every cached pod is one that a discovered host points at. */
  ghost predicate PodsLive(c: Maps, hosts: seq<string>) {
    forall p :: p in c.byPod ==> exists h :: h in hosts && Points(c, h, p)
  }

  /**
   After a tick every cached pod belongs to a discovered host, except that a tick that discovers no host at all
   keeps everything: the guarantee holds exactly when a host was found or nothing was cached.
   */
  lemma {:induction false} TickLeavesLivePods(c: Maps, hosts: seq<string>, rs: seq<Report>)
    requires InStep(c) && TickReports(Prune(c, Elements(hosts)), rs)
    requires forall i :: 0 <= i < |rs| ==> rs[i].host in hosts
    ensures PodsLive(Tick(c, hosts, rs), hosts) <==> hosts != [] || c.byPod == map[]
  {
    hide SetAll, Prune;
    if hosts == [] {
      if c.byPod != map[] {
        assert exists p :: p in c.byPod;
      }
    } else {
      TickInStep(c, hosts, rs);
      TickHostsLive(c, hosts, rs);
    }
  }

  lemma {:induction false} TickHostsLive(c: Maps, hosts: seq<string>, rs: seq<Report>)
    requires InStep(c) && TickReports(Prune(c, Elements(hosts)), rs) && hosts != []
    requires forall i :: 0 <= i < |rs| ==> rs[i].host in hosts
    ensures forall h, p :: Points(Tick(c, hosts, rs), h, p) ==> h in hosts
  {
    hide SetAll, Prune, InStep, EntryOf, TickReports, Points;
    var pruned := Prune(c, Elements(hosts));
    forall h, p | Points(SetAll(pruned, rs), h, p)
      ensures h in hosts
    {
      PruneEntry(c, Elements(hosts), h);
      SetAllEntry(pruned, rs, h);
      PointsEntry(SetAll(pruned, rs), h, p);
    }
  }
}
