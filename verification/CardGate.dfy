/**
 The stability gate over polled AgentCard hashes (pkg/daemon/server/rater/peer_agentcard_poll.go): a hash is
 accepted once it has been seen on `window` consecutive polls.
 */
module CardGate {
  import opened Prelude

  datatype Poll = Poll(hash: string, at: int)

  /** The number of equal polls at the end of a history. */
  ghost function Run(polls: seq<Poll>): (n: nat)
    ensures n <= |polls| && (polls != [] ==> n >= 1)
  {
    if polls == [] then 0
    else
      var before := polls[..|polls| - 1];
      if before != [] && before[|before| - 1].hash == polls[|polls| - 1].hash then Run(before) + 1 else 1
  }

  /** `window` equal consecutive polls end at index i; a window below 1 counts as 1. */
  ghost predicate BlockEnds(polls: seq<Poll>, window: int, i: nat)
    requires i < |polls|
  {
    i + 1 >= window && forall j :: 0 <= j <= i && i - window < j ==> polls[j].hash == polls[i].hash
  }

  /** The hash of the most recent block, or "" when there has been none. */
  ghost function Latest(polls: seq<Poll>, window: int): string {
    if polls == [] then ""
    else
      var n := |polls| - 1;
      if BlockEnds(polls, window, n) then polls[n].hash else Latest(polls[..n], window)
  }

  /** When the most recent block last changed its hash: the time of that poll, or 0. */
  ghost function ChangedAt(polls: seq<Poll>, window: int): int {
    if polls == [] then 0
    else
      var n := |polls| - 1;
      if Latest(polls, window) != Latest(polls[..n], window) then polls[n].at else ChangedAt(polls[..n], window)
  }

  lemma BlockInPrefix(polls: seq<Poll>, window: int, n: nat, i: nat)
    requires i < n <= |polls|
    ensures BlockEnds(polls[..n], window, i) <==> BlockEnds(polls, window, i)
  {
  }

  /** Latest in terms of positions: if a block ends at i and none ends later, it is the hash at i. */
  lemma {:induction false} LatestIsMostRecent(polls: seq<Poll>, window: int, i: nat)
    requires i < |polls| && BlockEnds(polls, window, i)
    requires forall k :: i < k < |polls| ==> !BlockEnds(polls, window, k)
    ensures Latest(polls, window) == polls[i].hash
  {
    hide BlockEnds;
    var n := |polls| - 1;
    if i < n {
      forall k | i <= k < n
        ensures BlockEnds(polls[..n], window, k) <==> BlockEnds(polls, window, k)
      {
        BlockInPrefix(polls, window, n, k);
      }
      LatestIsMostRecent(polls[..n], window, i);
    }
  }

  lemma {:induction false} NoBlockYet(polls: seq<Poll>, window: int)
    requires forall i :: 0 <= i < |polls| ==> !BlockEnds(polls, window, i)
    ensures Latest(polls, window) == ""
  {
    hide BlockEnds;
    if polls != [] {
      var n := |polls| - 1;
      forall k | 0 <= k < n
        ensures !BlockEnds(polls[..n], window, k)
      {
        BlockInPrefix(polls, window, n, k);
      }
      NoBlockYet(polls[..n], window);
    }
  }

  /** A block ends with the history exactly when its last run is long enough. */
  lemma {:induction false} RunMakesBlock(polls: seq<Poll>, window: int)
    requires polls != []
    ensures BlockEnds(polls, window, |polls| - 1) <==> Run(polls) >= window
  {
    RunIsEqual(polls);
  }

  lemma {:induction false} RunIsEqual(polls: seq<Poll>)
    requires polls != []
    ensures var n, r := |polls|, Run(polls);
            && (forall j :: n - r <= j < n ==> polls[j].hash == polls[n - 1].hash)
            && (r < n ==> polls[n - r - 1].hash != polls[n - 1].hash)
  {
    var before := polls[..|polls| - 1];
    if before != [] {
      RunIsEqual(before);
    }
  }

  /**
   Poll i promoted its hash for good: a block ends at i, another hash (or none) was the latest before it, and its
   hash has been the latest ever since.
   */
  ghost predicate Promotes(polls: seq<Poll>, window: int, i: nat)
    requires i < |polls|
  {
    && BlockEnds(polls, window, i) && Latest(polls[..i], window) != polls[i].hash
    && forall n :: i < n <= |polls| ==> Latest(polls[..n], window) == polls[i].hash
  }

  /** The time is that of the promoting poll, however often the hash has been polled since. */
  lemma {:induction false} ChangedAtPromotion(polls: seq<Poll>, window: int, i: nat)
    requires i < |polls| && Promotes(polls, window, i)
    ensures ChangedAt(polls, window) == polls[i].at && Latest(polls, window) == polls[i].hash
  {
    hide BlockEnds, Latest;
    var n := |polls| - 1;
    assert polls[..n + 1] == polls;
    if i < n {
      PromotesBefore(polls, window, i);
      ChangedAtPromotion(polls[..n], window, i);
    }
  }

  lemma {:induction false} PromotesBefore(polls: seq<Poll>, window: int, i: nat)
    requires i < |polls| - 1 && Promotes(polls, window, i)
    ensures Promotes(polls[..|polls| - 1], window, i)
  {
    hide BlockEnds, Latest;
    var before := polls[..|polls| - 1];
    BlockInPrefix(polls, window, |before|, i);
    assert before[..i] == polls[..i];
    forall n | i < n <= |before|
      ensures Latest(before[..n], window) == before[i].hash
    {
      assert before[..n] == polls[..n];
    }
  }

  /** Whenever there is an accepted hash, some poll promoted it. */
  lemma {:induction false} SomePollPromotes(polls: seq<Poll>, window: int) returns (i: nat)
    requires Latest(polls, window) != ""
    ensures i < |polls| && Promotes(polls, window, i)
  {
    var n := |polls| - 1;
    var before := polls[..n];
    assert polls[..n + 1] == polls;
    if Latest(before, window) == Latest(polls, window) {
      i := SomePollPromotes(before, window);
      StillPromotes(polls, window, i);
    } else {
      i := n;
    }
  }

  lemma {:induction false} StillPromotes(polls: seq<Poll>, window: int, i: nat)
    requires polls != [] && i < |polls| - 1 && Promotes(polls[..|polls| - 1], window, i)
    requires Latest(polls, window) == Latest(polls[..|polls| - 1], window)
    ensures Promotes(polls, window, i)
  {
    hide BlockEnds, Latest;
    var before := polls[..|polls| - 1];
    BlockInPrefix(polls, window, |before|, i);
    assert before[..i] == polls[..i] && before[..|before|] == before;
    forall n | i < n <= |polls|
      ensures Latest(polls[..n], window) == polls[i].hash
    {
      if n < |polls| {
        assert before[..n] == polls[..n];
      } else {
        assert polls[..n] == polls;
      }
    }
  }

  class GatedHash {
    var accepted: string
    var acceptedAt: int
    var pending: string
    var pendingCount: nat
    /** Every poll so far, and the window they were observed with. */
    ghost var polls: seq<Poll>
    ghost const window: int

    /** The accepted hash is that of the most recent block, stamped with the poll that made it so. */
    ghost predicate Valid()
      reads this
    {
      && accepted == Latest(polls, window) && acceptedAt == ChangedAt(polls, window)
      && (if polls == [] || polls[|polls| - 1].hash == accepted then pending == "" && pendingCount == 0
          else pending == polls[|polls| - 1].hash && pendingCount == Run(polls) < window)
    }

    constructor (ghost w: int)
      ensures Valid() && polls == [] && window == w
    {
      accepted, acceptedAt, pending, pendingCount := "", 0, "", 0;
      polls, window := [], w;
    }

    method Observe(hash: string, now: int, stabilityWindow: int)
      requires Valid() && stabilityWindow == window
      modifies this
      ensures Valid() && polls == old(polls) + [Poll(hash, now)]
      ensures acceptedAt == if accepted == old(accepted) then old(acceptedAt) else now
      ensures accepted == old(accepted) || accepted == hash
    {
      ghost var seen := polls + [Poll(hash, now)];
      assert seen[..|polls|] == polls;
      RunMakesBlock(seen, window);
      polls := seen;
      if hash == accepted {
        pending, pendingCount := "", 0;
        return;
      }
      if hash == pending {
        pendingCount := pendingCount + 1;
      } else {
        pending, pendingCount := hash, 1;
      }
      if pendingCount >= stabilityWindow {
        accepted, acceptedAt := pending, now;
        pending, pendingCount := "", 0;
      }
    }
  }

  /** The gates of an AgentDeploy's peers. */
  class PeerCardState {
    var byPeer: map<string, GatedHash>
    ghost const window: int

    ghost predicate Valid()
      reads this, byPeer.Values
    {
      && (forall p :: p in byPeer ==> byPeer[p].Valid() && byPeer[p].window == window)
      && forall p, q :: p in byPeer && q in byPeer && p != q ==> byPeer[p] != byPeer[q]
    }

    /** The polls of a peer so far. */
    ghost function Polls(peer: string): seq<Poll>
      reads this, byPeer.Values
    {
      if peer in byPeer then byPeer[peer].polls else []
    }

    constructor (ghost w: int)
      ensures Valid() && window == w && byPeer == map[]
    {
      byPeer, window := map[], w;
    }

    method GateOf(peer: string) returns (g: GatedHash)
      requires Valid()
      modifies this
      ensures Valid() && fresh(byPeer.Values - old(byPeer.Values))
      ensures byPeer.Keys == old(byPeer.Keys) + {peer} && g == byPeer[peer]
      ensures forall p :: p in old(byPeer) ==> byPeer[p] == old(byPeer[p])
      ensures peer !in old(byPeer) ==> fresh(g) && g.polls == []
    {
      if peer !in byPeer {
        g := new GatedHash(window);
        byPeer := byPeer[peer := g];
      }
      g := byPeer[peer];
    }

    /** A poll of one peer leaves the others as they were. */
    method Observe(peer: string, hash: string, now: int, stabilityWindow: int)
      requires Valid() && stabilityWindow == window
      modifies this, byPeer.Values
      ensures Valid() && fresh(byPeer.Values - old(byPeer.Values))
      ensures byPeer.Keys == old(byPeer.Keys) + {peer}
      ensures Polls(peer) == old(Polls(peer)) + [Poll(hash, now)]
      ensures forall p :: p in old(byPeer) && p != peer ==>
                byPeer[p] == old(byPeer[p]) && byPeer[p].polls == old(byPeer[p].polls)
    {
      hide Latest, ChangedAt, Run;
      var g := GateOf(peer);
      g.Observe(hash, now, stabilityWindow);
    }

    /** snapshot: nothing until a block has been seen, then the hash and the time of the poll that promoted it. */
    method Snapshot(peer: string) returns (r: Option<(string, int)>)
      requires Valid()
      ensures r.None? <==> Latest(Polls(peer), window) == ""
      ensures r.Some? ==>
                exists i :: 0 <= i < |Polls(peer)| && Promotes(Polls(peer), window, i)
                            && r.value == (Polls(peer)[i].hash, Polls(peer)[i].at)
    {
      if peer !in byPeer || byPeer[peer].accepted == "" {
        return None;
      }
      hide Latest, ChangedAt, Run;
      ghost var i := SomePollPromotes(Polls(peer), window);
      ChangedAtPromotion(Polls(peer), window, i);
      r := Some((byPeer[peer].accepted, byPeer[peer].acceptedAt));
    }
  }
}
