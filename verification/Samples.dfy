/**
 Samples of a pod and the bounded buffers that keep them (pkg/shared/queue/overflow_queue.go,
 pkg/daemon/server/rater/pod_samples.go, pkg/daemon/server/rater/helper.go).
 */
module Samples {
  import opened Prelude

  /** 30 minutes, in seconds. */
  const RETENTION := 1800

  /** int(Retention / 5s) * 2 */
  const MAX_SAMPLES := 720

  datatype PodSample = PodSample(
    timestamp: int,
    requests: map<string, real>,
    streamMessages: map<string, real>,
    inflight: map<string, real>)

  // ---------------------------------------------------------------- the queue

  function LastOf<T>(s: seq<T>, n: nat): seq<T> {
    if |s| <= n then s else s[|s| - n..]
  }

  /** A queue of at most maxSize elements that drops its oldest. */
  class OverflowQueue<T> {
    var elements: seq<T>
    const maxSize: nat
    /** Everything ever appended. */
    ghost var history: seq<T>

    ghost predicate Valid()
      reads this
    {
      maxSize >= 1 && elements == LastOf(history, maxSize)
    }

    constructor (size: nat)
      requires size >= 1
      ensures Valid() && maxSize == size && history == []
    {
      elements, maxSize, history := [], size, [];
    }

    /** After any appends the queue holds exactly the last maxSize of them, in order. */
    method Append(value: T)
      requires Valid()
      modifies this
      ensures Valid() && history == old(history) + [value]
    {
      if |elements| >= maxSize {
        elements := elements[1..];
      }
      elements := elements + [value];
      history := history + [value];
    }

    method Items() returns (r: seq<T>)
      requires Valid()
      ensures r == LastOf(history, maxSize)
      ensures |r| == (if |history| < maxSize then |history| else maxSize) && r == history[|history| - |r|..]
    {
      r := elements;
    }
  }

  // ---------------------------------------------------------------- per-pod buffers

  /** One queue per pod, made when the pod is first seen. */
  class AgentDeployBuffers {
    var byPod: map<string, OverflowQueue<PodSample>>

    ghost predicate Valid()
      reads this, byPod.Values
    {
      && (forall p :: p in byPod ==> byPod[p].Valid() && byPod[p].maxSize == MAX_SAMPLES)
      && forall p, q :: p in byPod && q in byPod && p != q ==> byPod[p] != byPod[q]
    }

    /** Every sample ever appended, pod by pod. */
    ghost function History(): map<string, seq<PodSample>>
      reads this, byPod.Values
    {
      map p | p in byPod :: byPod[p].history
    }

    constructor ()
      ensures Valid() && History() == map[]
    {
      byPod := map[];
    }

    /** The queue of a pod, made on first use. */
    method QueueOf(pod: string) returns (q: OverflowQueue<PodSample>)
      requires Valid()
      modifies this
      ensures Valid() && fresh(byPod.Values - old(byPod.Values))
      ensures byPod.Keys == old(byPod.Keys) + {pod} && q == byPod[pod]
      ensures forall p :: p in old(byPod) ==> byPod[p] == old(byPod[p])
      ensures pod !in old(byPod) ==> fresh(q) && q.history == []
    {
      if pod !in byPod {
        q := new OverflowQueue<PodSample>(MAX_SAMPLES);
        byPod := byPod[pod := q];
      }
      q := byPod[pod];
    }

    /** A failed scrape (None) leaves the buffers alone; a sample goes to the end of its own pod's history. */
    method Append(pod: string, s: Option<PodSample>)
      requires Valid()
      modifies this, byPod.Values
      ensures Valid() && fresh(byPod.Values - old(byPod.Values))
      ensures s.None? ==> History() == old(History())
      ensures s.Some? ==> pod in History() && History().Keys == old(History()).Keys + {pod}
      ensures s.Some? ==> History()[pod] == (if pod in old(History()) then old(History())[pod] else []) + [s.value]
      ensures forall p :: p in old(History()) && p != pod ==> p in History() && History()[p] == old(History())[p]
    {
      if s.None? {
        return;
      }
      var q := QueueOf(pod);
      q.Append(s.value);
    }

    /** The samples still held for a pod: the last 720 of its history. */
    method Samples(pod: string) returns (r: seq<PodSample>)
      requires Valid()
      ensures r == if pod in History() then LastOf(History()[pod], MAX_SAMPLES) else []
      ensures pod in History() ==>
                var h := History()[pod];
                |r| == (if |h| < 720 then |h| else 720) && r == h[|h| - |r|..]
    {
      if pod in byPod {
        r := byPod[pod].Items();
      } else {
        r := [];
      }
    }

    method Pods() returns (pods: seq<string>)
      ensures Distinct(pods) && forall p :: p in pods <==> p in byPod
    {
      pods := InSomeOrder(byPod.Keys);
    }
  }

  // ---------------------------------------------------------------- windows

  /** From the first sample at or after the cutoff on. */
  function Window(samples: seq<PodSample>, now: int, lookback: int): seq<PodSample> {
    if samples == [] then []
    else if samples[0].timestamp >= now - lookback then samples
    else Window(samples[1..], now, lookback)
  }

  method SamplesInWindow(samples: seq<PodSample>, now: int, lookback: int) returns (w: seq<PodSample>)
    ensures w == Window(samples, now, lookback)
    ensures |w| <= |samples| && w == samples[|samples| - |w|..]
    ensures forall i :: 0 <= i < |samples| - |w| ==> samples[i].timestamp < now - lookback
    ensures w != [] ==> w[0].timestamp >= now - lookback
  {
    var cutoff := now - lookback;
    assert samples[0..] == samples;
    for i := 0 to |samples|
      invariant Window(samples[i..], now, lookback) == Window(samples, now, lookback)
      invariant forall j :: 0 <= j < i ==> samples[j].timestamp < cutoff
    {
      if samples[i].timestamp >= cutoff {
        return samples[i..];
      }
      assert samples[i..][1..] == samples[i + 1..];
    }
    w := [];
  }

  /** Samples in front of the window may be dropped. */
  lemma {:induction false} WindowSkips(h: seq<PodSample>, k: nat, now: int, lookback: int)
    requires k <= |h| && forall i :: 0 <= i < k ==> h[i].timestamp < now - lookback
    ensures Window(h[k..], now, lookback) == Window(h, now, lookback)
  {
    if k == 0 {
      assert h[0..] == h;
    } else {
      WindowSkips(h[1..], k - 1, now, lookback);
      assert h[1..][k - 1..] == h[k..];
    }
  }

  lemma {:induction false} WindowReaches(h: seq<PodSample>, i: nat, now: int, lookback: int)
    requires i < |h| && h[i].timestamp >= now - lookback
    ensures |Window(h, now, lookback)| >= |h| - i
  {
    if i > 0 && h[0].timestamp < now - lookback {
      WindowReaches(h[1..], i - 1, now, lookback);
    }
  }

  lemma {:induction false} WindowShrinks(h: seq<PodSample>, now: int, lookback: int)
    ensures |Window(h, now, lookback)| <= |h|
  {
    if h != [] {
      WindowShrinks(h[1..], now, lookback);
    }
  }

  /** A bounded queue answers a window query like the full history exactly when no dropped sample is in the window. */
  lemma {:induction false} BoundedWindowIff(h: seq<PodSample>, n: nat, now: int, lookback: int)
    ensures Window(LastOf(h, n), now, lookback) == Window(h, now, lookback)
            <==> forall i :: 0 <= i < |h| - n ==> h[i].timestamp < now - lookback
  {
    if |h| > n {
      if i :| 0 <= i < |h| - n && h[i].timestamp >= now - lookback {
        WindowReaches(h, i, now, lookback);
        WindowShrinks(LastOf(h, n), now, lookback);
      } else {
        WindowSkips(h, |h| - n, now, lookback);
      }
    }
  }

  /** Samples MAX_SAMPLES apart are more than the retention apart, and none is from the future. */
  ghost predicate Paced(h: seq<PodSample>, now: int) {
    && (forall i :: 0 <= i < |h| ==> h[i].timestamp <= now)
    && forall i, j :: 0 <= i < j < |h| && j == i + MAX_SAMPLES ==> h[j].timestamp - h[i].timestamp > RETENTION
  }

  /** For every lookback up to the retention, the bounded queue then loses nothing. */
  lemma {:induction false} PacedWindow(h: seq<PodSample>, now: int, lookback: int)
    requires Paced(h, now) && lookback <= RETENTION
    ensures Window(LastOf(h, MAX_SAMPLES), now, lookback) == Window(h, now, lookback)
  {
    forall i | 0 <= i < |h| - MAX_SAMPLES
      ensures h[i].timestamp < now - lookback
    {
      assert h[i + MAX_SAMPLES].timestamp - h[i].timestamp > RETENTION;
    }
    BoundedWindowIff(h, MAX_SAMPLES, now, lookback);
  }
}
