# Kynomesh verification

Kynomesh is a Kubernetes operator for sets of AI agents, with a broker sidecar in front of every agent and a metrics
daemon per agent set. This project models the parts of it whose correctness is about whole runs, all inputs or all
interleavings, and proves what they promise. Code that changes state step by step is modelled as classes and
methods with loops, each proved against a specification function or a state machine; the properties are lemmas about
those.

| files | what they model |
|---|---|
| `Pods.dfy`, `Rollout.dfy`, `Controller.dfy` | the rolling-update controller of an AgentDeploy: what a pass writes, safety and convergence over runs, the status and the phase |
| `Wire.dfy`, `Grammar.dfy`, `Messages.dfy`, `Codec.dfy` | the generated Protocol Buffers codec of `Peer`, `Topology` and `Scale`, the skipping of unknown fields, and exactly which inputs are accepted |
| `PeerHashes.dfy` | the mtime-keyed cache behind `/introspect`, with racing calls and a file writer |
| `Sse.dfy` | the counter of server-sent events that carries bytes from one write to the next |
| `Sums.dfy`, `Samples.dfy`, `Rates.dfy`, `Rater.dfy` | bounded sample buffers, windows, reset-aware rates, time-weighted averages and the metrics query |
| `CardGate.dfy`, `HashCache.dfy` | the AgentCard stability gate and the cache of hashes reported by pods |
| `Admission.dfy` | the admission limiter, its fleet-wide slicing, and the order in which handlers take slots and move gauges and counters |
| `AgentGraph.dfy` | peer topologies, the AgentSet validator and the slim copy |
| `WorkSet.dfy` | the round-robin work set and its assigner |
| `Prelude.dfy`, `ApiTypes.dfy` | shared types and small facts about sequences and sets |

`dafny verify dfyconfig.toml` checks everything.

How the models are set up:

- **Controller.** A pod list is a sequence in the order of the API server. A pass lists the pods and issues writes; the
  field `credit` of the reconciler says how many API calls succeed before one fails, so every pass can be cut off at
  every call. `ReconcilePods` is proved to write exactly a plan, or as much of it as the API server lets through, and
  `Reconcile` states the rollout budget, the gate and the phase over the spec itself; the lemmas of `Rollout` are about
  plans and their prefixes. A pass decides from its listing, so the runs of `Rollout` let the environment act between
  any two calls of a pass as well as between passes.
- **Codec.** Bytes are integers below 256. Or-ing a shifted group of bits into an accumulator is addition, and a 64-bit
  accumulator keeps its value modulo 2^64; an int32 or uint32 one keeps the low 32 bits. The messages round-trip for
  every size below 2^63, the range of a Go `int`.
- **Concurrency** is a state machine over the atomic steps of the code; a run is any sequence of enabled steps. The
  methods of the classes are proved to take those steps (`WorkSet`, `Admission`) or to agree with them
  (`PeerHashes`).
- **Floating point** is `real`, and a Go `range` over a map visits the keys in some order that nothing depends on.
- Clocks, DNS answers, file-system answers, JSON decoding, hashes, label and URL checks are parameters.

Where code and documentation disagree, the model follows the code:

- A percentage in `maxUnavailable` is rounded up (pkg/reconciler/agentdeploy/pods.go:187); the API documentation says
  it is rounded down (pkg/apis/kynomesh/v1alpha1/update_strategy.go:64).
- The comments of pkg/broker/sse.go:108-122 speak of normalising CRLF to LF. The code does not: only LF-LF and
  CRLF-CRLF end an event, and a mixture such as LF-CRLF does not.

Where a property holds only under a condition, the condition is part of the result:

- The availability bound holds for error-free passes; `Rollout.AbortedPassOvershoots` shows a pass that was cut off
  between its deletion and its creation followed by one that exceeds the bound. `Rollout.PassUnready`, `BoundIff` and
  `FullBatchBoundIff` say exactly which slots a pass leaves not Ready, and when the bound survives it.
- The mtime cache is safe exactly for histories without a clash (`PeerHashes.SafeIffClean`, and for contents
  `PeerHashes.CurrentIffCleanContents`): two versions with one mtime, and something that can be cached from the first
  of them up to just before the second. Mtimes need not rise; different mtimes are enough.
- A rate of the total exceeds the sum of the per-transport rates by a miscount that `Rates.TotalIncreaseIff` gives
  exactly for every window, and `Rater.AnswerAddsUp` carries it to the answers of the daemon. It is zero when nothing
  drops and when every transport that held anything drops at once; one that drops alone makes the total too small
  (`Rates.ResetHidesInTotal`) or too large (`Rates.ResetInflatesTotal`).
- The maps of the hash cache stay in step exactly when no set reports a pod that another host still points at
  (`HashCache.SetKeepsIff`, and over runs `HashCache.InStepIffGuarded`).
- After a scrape tick all cached pods belong to live hosts exactly when a host was discovered or nothing was cached
  (`HashCache.TickLeavesLivePods`), because a tick that discovers no host returns before it prunes.
- The bounded sample queue answers like the full history exactly when no dropped sample is in the window
  (`Samples.BoundedWindowIff`).
- The gate of `CardGate` is proved for every window and for empty hashes too; a window below 1 acts like 1.

## Model

| member | source | states |
|---|---|---|
| `Rollout.AvailabilityBound` | pkg/reconciler/agentdeploy/pods.go:96-192 | In every run of one rollout (one hash and count, error-free passes, pods turning Ready and terminating pods vanishing, also between two calls of a pass) that starts with one live Ready pod per slot, the slots without a live Ready pod never exceed maxUnavailable, after every step and at every moment of every pass |
| `Rollout.AvailableMeanwhile` | pkg/reconciler/agentdeploy/pods.go:134-179 | The same bound at any moment of one pass, after any of its calls and any readiness and vanish steps among them |
| `Rollout.AvailableInPass` | pkg/reconciler/agentdeploy/pods.go:134-179 | The same bound after any number of calls of a single pass, from any state the rollout can be in |
| `Rollout.PassUnready` | pkg/reconciler/agentdeploy/pods.go:76-181 | After an error-free pass the slots without a live Ready pod are exactly those that were so before plus those the pass replaced |
| `Rollout.BoundIff` | pkg/reconciler/agentdeploy/pods.go:76-181 | After an error-free pass the bound holds if and only if it holds for the slots not Ready before together with the batch |
| `Rollout.FullBatchBoundIff` | pkg/reconciler/agentdeploy/pods.go:150-179 | Behind an open gate with at least maxUnavailable old-hash slots, the bound holds after the pass if and only if no slot was empty and every old-hash slot that was not Ready is in the batch |
| `Rollout.AbortedPassOvershoots` | pkg/reconciler/agentdeploy/pods.go:165-179 | The bound needs error-free passes: two Ready pods, maxUnavailable 1, a pass cut off after its first deletion, and the next full pass leaves both slots not Ready |
| `Rollout.OneLiveAlways` | pkg/reconciler/agentdeploy/pods.go:51-181 | Over every run of hash edits, rescales, evictions, readiness changes and passes cut off at any API call, with the environment also acting between two calls, no replica index ever has two live pods if none had at the start |
| `Rollout.OneLiveInPass` | pkg/reconciler/agentdeploy/pods.go:51-181 | The same at any moment of any one pass, whatever the environment does among its calls |
| `Rollout.MidRunOk` | pkg/reconciler/agentdeploy/pods.go:69-181 | Whatever the environment does during a pass, pod by pod the cluster is what the calls made so far do to the listed pods, only more terminating; and exactly as live and at least as Ready when pods only turn Ready and vanish |
| `Rollout.PassInRollout` | pkg/reconciler/agentdeploy/pods.go:76-181 | With the environment acting among its calls, a pass of a rollout leaves, slot by slot, what its plan does, or more Ready |
| `Rollout.PlanOrderly` | pkg/reconciler/agentdeploy/pods.go:76-181 | Whatever pods a pass finds, even several live ones per index, it deletes every live pod of a slot before it creates that slot, and creates each slot at most once |
| `Rollout.Shape` | pkg/reconciler/agentdeploy/pods.go:194-218 | Closed form of any sequence of creates and deletes: listed pods keep their place and may be marked terminating, new pods follow in creation order |
| `Rollout.PassKeepsSlot` | pkg/reconciler/agentdeploy/pods.go:107-132 | At every instant of a pass, a populated slot outside the batch keeps its liveness, readiness and hash |
| `Rollout.PassFillsSlot` | pkg/reconciler/agentdeploy/pods.go:134-179 | An empty slot or a slot of the batch ends up with a live pod on the desired hash that is not Ready yet |
| `Rollout.PassEmptiesOutside` | pkg/reconciler/agentdeploy/pods.go:76-87 | Nothing outside the window is live after an error-free pass |
| `Rollout.PassEffect` | pkg/reconciler/agentdeploy/pods.go:76-181 | Slot by slot, who is live, on the desired hash and Ready after an error-free pass, in terms of the state before it (if and only if, for each) |
| `Rollout.PassLowersStale` | pkg/reconciler/agentdeploy/pods.go:150-179 | An error-free pass lowers the number of old-hash slots by exactly min(maxUnavailable, count) if the ready gate does not hold it, and leaves the number alone if it does |
| `Rollout.StaleCountdown` | pkg/reconciler/agentdeploy/pods.go:150-179 | After any number of steps of a rollout the number of old-hash slots is exactly max(0, n - maxUnavailable * ungated passes) |
| `Rollout.WindowFilled` | pkg/reconciler/agentdeploy/pods.go:76-140 | Once one pass of a rollout has run, the populated slots are exactly the window, and stay so |
| `Rollout.RolloutConverges` | pkg/reconciler/agentdeploy/pods.go:76-181 | From any state with at most one live pod per index, ceil(n / maxUnavailable) ungated passes leave one live desired-hash pod in every slot and nothing live outside |
| `Rollout.ConvergedIsIdle` | pkg/reconciler/agentdeploy/pods.go:76-149 | In a finished rollout a pass has nothing to write and no old-hash slot, so it promotes CurrentHash |
| `Rollout.ConvergedIffIdle` | pkg/reconciler/agentdeploy/pods.go:76-181 | A state is a finished rollout if and only if a pass has nothing to write and is not held by the ready gate |
| `Rollout.OpenGate` | pkg/reconciler/agentdeploy/pods.go:156-163 | The counters of the ready gate agree only when every slot on the desired hash has a live Ready pod |
| `Rollout.GateIff` | pkg/reconciler/agentdeploy/pods.go:156-163 | From at most one live pod per index, the two counters of the gate differ if and only if some slot is on the desired hash and not Ready |
| `Rollout.BatchIff` | pkg/reconciler/agentdeploy/pods.go:165-167 | A pass replaces an old-hash slot if and only if the gate is open and fewer old-hash slots than the budget come before it |
| `Rollout.LiveInWindow` | pkg/reconciler/agentdeploy/pods.go:76-87 | After an error-free pass every live pod has a readable index inside the window, whatever was there before |
| `Rollout.LaterDuplicateDeleted` | pkg/reconciler/agentdeploy/pods.go:96-115 | Of several live pods of a slot on the desired hash every one but the first listed is deleted |
| `Rollout.FirstOnHashStays` | pkg/reconciler/agentdeploy/pods.go:96-115 | The first listed one is not deleted |
| `Rollout.OldBesideNewStays` | pkg/reconciler/agentdeploy/pods.go:119-126 | In a slot that has a pod on the desired hash, live pods on another hash are left alone |
| `Rollout.PromotedWindow` | pkg/reconciler/agentdeploy/pods.go:142-149 | If a pass finds no old-hash slot, then after it every slot is on the desired hash, whatever duplicates it started from |
| `Rollout.SlotsPartition` | pkg/reconciler/agentdeploy/pods.go:96-132 | Kept, to-create and to-replace slots partition the window, so the promotion test of the code is equivalent to there being no slot to replace |
| `Rollout.ReadyPodsFillWindow` | pkg/reconciler/agentdeploy/pods.go:248-279 | Pigeonhole: with at most one live pod per index and none outside the window, the Ready counter is at most desired, and equals it if and only if every slot is Ready |
| `Rollout.ReadyIsOneReady` | pkg/reconciler/agentdeploy/pods.go:248-279 | With at most one live pod per index, a Ready slot is a slot with exactly one live pod, which is Ready |
| `Pods.Slot` | pkg/reconciler/agentdeploy/pods.go:376-386 | The positions in a bucket are exactly the listed pods whose annotation reads as that index (-1 when it does not parse) |
| `Pods.KeptAt` | pkg/reconciler/agentdeploy/pods.go:96-113 | The kept pod of a slot is a live pod on the desired hash, and there is none exactly when the slot has no such pod |
| `Pods.Missing` | pkg/reconciler/agentdeploy/pods.go:116-132 | The slots to create are the window slots without a live pod, each once |
| `Pods.Stale` | pkg/reconciler/agentdeploy/pods.go:116-132 | The slots to replace are the window slots with live pods but none on the desired hash, each once |
| `Controller.DesiredReplicas` | pkg/reconciler/agentdeploy/pods.go:283-313 | Without autoscaling the request, or 1 without one; with it the request brought into the bounds, or the lower one without a request; the lower bound is at least 1, the upper one 50 by default and at least the lower; all in terms of the spec fields |
| `Controller.ResolveMaxUnavailable` | pkg/reconciler/agentdeploy/pods.go:185-192 | At least 1; a positive absolute value as it is; a percentage is the least integer not below it; 1 for a malformed value or one that allows nothing; the default is 25% |
| `Controller.GroupPodsByReplica` | pkg/reconciler/agentdeploy/pods.go:376-386 | Each bucket lists exactly the positions of its pods in list order; absent buckets are empty |
| `Controller.Reconciler.DeletePod` | pkg/reconciler/agentdeploy/pods.go:206-218 | One delete per pod that was live when listed, none for a terminating one; a failed call writes nothing |
| `Controller.Reconciler.CreatePod` | pkg/reconciler/agentdeploy/pods.go:194-204 | One fresh pod for the replica, or nothing when the call fails |
| `Controller.Reconciler.DeleteOutside` | pkg/reconciler/agentdeploy/pods.go:76-87 | The writes are the deletions of the live pods outside the window, or a prefix of them when a call fails |
| `Controller.Reconciler.ScanSlot` | pkg/reconciler/agentdeploy/pods.go:96-115 | Finds the pod the slot keeps and whether it holds old live pods, and deletes exactly the duplicates on the desired hash |
| `Controller.Reconciler.Classify` | pkg/reconciler/agentdeploy/pods.go:89-132 | Sorts the window into slots to create, slots to replace and updated (and updated Ready) counts as defined slot by slot |
| `Controller.Reconciler.CreateMissing` | pkg/reconciler/agentdeploy/pods.go:134-140 | Creates every empty slot in order, or a prefix of them when a call fails |
| `Controller.Reconciler.ReplaceBatch` | pkg/reconciler/agentdeploy/pods.go:165-179 | Deletes the old pods of each slot of the batch and then creates it, slot by slot, or a prefix of that |
| `Controller.Reconciler.RunPass` | pkg/reconciler/agentdeploy/pods.go:69-181 | The writes are the plan of the pass, or a prefix when a call fails; CurrentHash is set only by an error-free pass that finds no old-hash slot |
| `Controller.CutOffPass` | pkg/reconciler/agentdeploy/pods.go:76-181 | From an all-Ready window a pass leaves at most its budget of slots not Ready, wherever it is cut off |
| `Controller.WholePass` | pkg/reconciler/agentdeploy/pods.go:76-181 | A whole pass populates every slot, updates exactly the slots that BatchIff names, and lowers the old-hash slots by min(budget, count) or by none |
| `Controller.WholePassContains` | pkg/reconciler/agentdeploy/pods.go:76-87 | A whole pass leaves no live pod without a readable index inside the window |
| `Controller.Reconciler.ReconcilePods` | pkg/reconciler/agentdeploy/pods.go:51-181 | The writes are the plan for the replica count, the pod hash and ResolveMaxUnavailable of the spec; it succeeds if and only if the API server grants one call more than the plan is long, and otherwise every granted call but the listing is a write; the status fields, the counter reset on a new hash and the promotion are exact |
| `Controller.CountIsSize` | pkg/reconciler/agentdeploy/pods.go:248-279 | A counter is the number of listed pods that are live, Ready if asked for, and on the hash if there is one |
| `Controller.Reconciler.UpdatePodStatus` | pkg/reconciler/agentdeploy/pods.go:248-279 | The four counters are the sizes of those sets modulo 2^32, or the status is unchanged when the listing fails |
| `Controller.RunningIffReady` | pkg/reconciler/agentdeploy/pods.go:248-279 | After an error-free pass from at most one live pod per index, the wrapped Ready counter equals desired if and only if every slot has exactly one live pod and it is Ready |
| `Controller.PrefixKeepsOneLive` | pkg/reconciler/agentdeploy/pods.go:51-181 | Every prefix of a plan, that is a pass cut off at any call, keeps at most one live pod per index |
| `Controller.Reconciler.Reconcile` | pkg/reconciler/agentdeploy/controller.go:146-187 | It fails only where the services or the API server do, with the phase and reason of that stage. From at most one live pod per index: never a second one, never more than ResolveMaxUnavailable of the spec not Ready if all were Ready, at every point of failure; after a whole pass each slot advanced exactly as the gate and the budget allow. Phase is Running if and only if every slot holds exactly one live pod and it is Ready; CurrentHash becomes the pod hash exactly when no old-hash slot was found, and then every slot is on it |
| `Wire.SovIsLength` | pkg/apis/kynomesh/v1alpha1/generated.pb.go:2452-2454 | The bit-length formula gives exactly the number of bytes of the varint |
| `Wire.ReadUint64` | pkg/apis/kynomesh/v1alpha1/generated.pb.go:7145-7159 | Every uint64 written as a varint is read back, whatever follows |
| `Wire.SkipField` | pkg/apis/kynomesh/v1alpha1/generated.pb.go:8262-8339 | For every well-formed field, groups nested to any depth included, followed by any suffix, the skipper moves over exactly that field |
| `Wire.SkipPrefix` | pkg/apis/kynomesh/v1alpha1/generated.pb.go:8262-8339 | A skip that stays inside its input does not depend on what follows |
| `Wire.DecodeConcat` | pkg/apis/kynomesh/v1alpha1/generated.pb.go:7140-7285 | Decoding a concatenation is decoding the parts one after the other into the same message |
| `Wire.UnknownFieldIgnored` | pkg/apis/kynomesh/v1alpha1/generated.pb.go:7265-7278 | An unknown field can be put after any decodable prefix and before anything without changing what is decoded, for every schema and merge |
| `Wire.DecodeUnknowns` | pkg/apis/kynomesh/v1alpha1/generated.pb.go:7265-7278 | Any number of unknown fields in front of a message are ignored |
| `Grammar.VarintBytes` | pkg/apis/kynomesh/v1alpha1/generated.pb.go:1802-1812 | Byte i of a varint is the i-th group of seven bits, least significant first, plus 128 unless it is the last |
| `Grammar.ReadGroups` | pkg/apis/kynomesh/v1alpha1/generated.pb.go:7145-7159 | Bytes of which only the last of at most ten is below 128 are read as the number their groups make |
| `Grammar.NoVarint` | pkg/apis/kynomesh/v1alpha1/generated.pb.go:7145-7159 | Without such a byte among the first ten, or in the input, the varint is rejected |
| `Grammar.TagMeans` | pkg/apis/kynomesh/v1alpha1/generated.pb.go:7160-7167 | A tag is eight times the field number plus the wire type |
| `Grammar.SkippedIsField` | pkg/apis/kynomesh/v1alpha1/generated.pb.go:8262-8339 | What the skipper skips inside its input is a well-formed field, its groups properly nested and closed |
| `Grammar.SkipIff` | pkg/apis/kynomesh/v1alpha1/generated.pb.go:8262-8339 | The skipper returns n if and only if the first n bytes are a well-formed field |
| `Grammar.DecodeFields` | pkg/apis/kynomesh/v1alpha1/generated.pb.go:7140-7285 | A sequence of well-formed fields with positive numbers, the known ones with their own wire type, is decoded by taking them in one after the other |
| `Grammar.DecodedIsFields` | pkg/apis/kynomesh/v1alpha1/generated.pb.go:7140-7285 | Whatever is decoded is such a sequence |
| `Grammar.DecodeIff` | pkg/apis/kynomesh/v1alpha1/generated.pb.go:7140-7285 | So an input is accepted with a given result if and only if it is such a sequence and taking its fields in gives that result, for every schema and merge |
| `Messages.SizePeer` | pkg/apis/kynomesh/v1alpha1/generated.pb.go:2292-2305 | Peer.Size is the length of the encoding |
| `Messages.SizePeers` | pkg/apis/kynomesh/v1alpha1/generated.pb.go:2428-2433 | The peers part of Topology.Size is the length of their encoding |
| `Messages.SizeTopology` | pkg/apis/kynomesh/v1alpha1/generated.pb.go:2419-2435 | Topology.Size is the length of the encoding |
| `Messages.ScaleSize` | pkg/apis/kynomesh/v1alpha1/generated.pb.go:2356-2385 | Scale.Size is the length of the encoding, sign-extended negative fields included |
| `Messages.PeerRoundTrip` | pkg/apis/kynomesh/v1alpha1/generated.pb.go:7140-7285 | Decoding the encoding of any Peer gives it back |
| `Messages.PeerAmidUnknownFields` | pkg/apis/kynomesh/v1alpha1/generated.pb.go:7265-7278 | The same with any unknown fields before, between and after the three known ones |
| `Messages.TopologyRoundTrip` | pkg/apis/kynomesh/v1alpha1/generated.pb.go:8008-8143 | Decoding the encoding of any Topology gives it back: any number of peers, any bytes in the strings |
| `Messages.ScaleRoundTrip` | pkg/apis/kynomesh/v1alpha1/generated.pb.go:7592-7801 | Decoding the encoding of any Scale gives it back: unset, zero and negative fields included |
| `Messages.PeerBytes` | pkg/apis/kynomesh/v1alpha1/generated.pb.go:1428-1449 | The bytes of a Peer, tags written out |
| `Messages.TopologyBytes` | pkg/apis/kynomesh/v1alpha1/generated.pb.go:1727-1760 | The bytes of a Topology, tags and the 0 or 1 of the flag written out |
| `Messages.ScaleBytes` | pkg/apis/kynomesh/v1alpha1/generated.pb.go:1577-1626 | The bytes of a Scale, tags, the 0 or 1 of the flag and the two's complement of negative numbers written out |
| `Messages.ScaleFields` | pkg/apis/kynomesh/v1alpha1/generated.pb.go:7592-7801 | Each tag of a Scale sets its own field and no other |
| `Messages.FlagFields` | pkg/apis/kynomesh/v1alpha1/generated.pb.go:8008-8143 | A flag is set by every number but 0 |
| `Messages.TextFields` | pkg/apis/kynomesh/v1alpha1/generated.pb.go:7140-7285 | Each tag of a Peer and of a Topology sets its own string, and a later one replaces an earlier one |
| `Messages.UnknownNumbers` | pkg/apis/kynomesh/v1alpha1/generated.pb.go:7265-7278 | A Peer and a Topology know the numbers 1 to 3, a Scale 1 to 8, and every other positive number is unknown |
| `Codec.EncodeVarint` | pkg/apis/kynomesh/v1alpha1/generated.pb.go:1802-1812 | Fills exactly the sov(v) bytes that end at the offset with the varint, and touches no other byte |
| `Codec.MarshalPeer` | pkg/apis/kynomesh/v1alpha1/generated.pb.go:1428-1449 | Writing backwards fills exactly Size bytes with the encoding, and touches no other byte |
| `Codec.MarshalPeers` | pkg/apis/kynomesh/v1alpha1/generated.pb.go:1732-1743 | The nested peers, written from the last to the first, come out in order |
| `Codec.MarshalTopology` | pkg/apis/kynomesh/v1alpha1/generated.pb.go:1727-1760 | Writing backwards fills exactly Size bytes with the encoding, and touches no other byte |
| `Codec.MarshalOption` | pkg/apis/kynomesh/v1alpha1/generated.pb.go:1582-1587 | A set optional field goes in front of what is written; an unset one writes nothing |
| `Codec.MarshalOptions` | pkg/apis/kynomesh/v1alpha1/generated.pb.go:1582-1616 | The seven optional fields, written from the last to the first, come out in the order of their numbers |
| `Codec.MarshalScale` | pkg/apis/kynomesh/v1alpha1/generated.pb.go:1577-1626 | Writing backwards fills exactly Size bytes with the encoding, and touches no other byte |
| `Codec.TopologyMarshal` | pkg/apis/kynomesh/v1alpha1/generated.pb.go:1712-1720 | A buffer of exactly Size bytes, filled completely with the encoding |
| `Codec.ScaleMarshal` | pkg/apis/kynomesh/v1alpha1/generated.pb.go:1562-1570 | A buffer of exactly Size bytes, filled completely with the encoding |
| `Codec.DecodeVarint` | pkg/apis/kynomesh/v1alpha1/generated.pb.go:7145-7159 | Accepts exactly the varints of at most ten bytes inside the input, and accumulates their value modulo 2^64 |
| `Codec.SkipTurnOnce` | pkg/apis/kynomesh/v1alpha1/generated.pb.go:8265-8335 | One turn of the skip loop moves over one tag and what its wire type says follows, and changes the depth accordingly; it fails exactly when the format does |
| `Codec.SkipGenerated` | pkg/apis/kynomesh/v1alpha1/generated.pb.go:8262-8339 | Succeeds if and only if the input starts with one field, all its groups closed, that ends below 2^63, and then returns the length of that field |
| `Codec.DecodeBytes` | pkg/apis/kynomesh/v1alpha1/generated.pb.go:7173-7200 | Accepts exactly a length and that many bytes inside the input, with the int range checks of the code |
| `Codec.DecodeField` | pkg/apis/kynomesh/v1alpha1/generated.pb.go:7144-7278 | One turn of an Unmarshal loop: a known field with its payload, or an unknown field skipped; it fails exactly when the format does |
| `Codec.UnmarshalPeer` | pkg/apis/kynomesh/v1alpha1/generated.pb.go:7140-7285 | Accepts exactly the inputs the field-by-field decoding accepts, with the same message |
| `Codec.UnmarshalTopology` | pkg/apis/kynomesh/v1alpha1/generated.pb.go:8008-8143 | Accepts exactly the inputs the field-by-field decoding accepts, with the same message |
| `Codec.UnmarshalScale` | pkg/apis/kynomesh/v1alpha1/generated.pb.go:7592-7801 | Accepts exactly the inputs the field-by-field decoding accepts, with the same message |
| `Codec.TopologyThereAndBack` | pkg/apis/kynomesh/v1alpha1/generated.pb.go:1712-1760 | Marshal and then Unmarshal into a zero value succeeds and gives the Topology back |
| `Codec.ScaleThereAndBack` | pkg/apis/kynomesh/v1alpha1/generated.pb.go:1562-1626 | Marshal and then Unmarshal into a zero value succeeds and gives the Scale back |
| `PeerHashes.Cache.ReadPeerHashes` | pkg/broker/introspection.go:124-163 | What a call returns and stores, given what stat and read answer: only a decoded file is stored, under the mtime of the stat, and a missing file is an empty map |
| `PeerHashes.CompletesLikeTheCode` | pkg/broker/introspection.go:124-163 | In every reachable state of the race, the step that completes a call gives the result and the cache that the code gives on the same answers, whatever was written between stat and read |
| `PeerHashes.InvNext` | pkg/broker/introspection.go:124-163 | Every step of a call or the writer, with mtimes in any order, keeps the invariant: the cached version is no older than the one its mtime belongs to, at most one call holds the lock, a miss stays a miss while it does, and a call is served an older version than it stat'ed only if the two clash |
| `PeerHashes.SafeIffClean` | pkg/broker/introspection.go:124-163 | For every file history: in every reachable state over it, with any number of racing calls, no call is served a version older than the one it stat'ed, if and only if the history is clean, that is no two versions carry one mtime with something cacheable from the first of them up to just before the second |
| `PeerHashes.CurrentIffCleanContents` | pkg/broker/introspection.go:124-163 | The same for contents: every call returns contents that were current at some instant between its stat and its return, if and only if the versions that clash mean the same |
| `PeerHashes.ReachStale` | pkg/broker/introspection.go:124-163 | For every clash there is a run from the empty cache in which a call that begins and ends at the later version is served the older one |
| `PeerHashes.DistinctMtimesAreClean` | pkg/broker/introspection.go:137-139 | Versions that all carry different mtimes are clean, in whatever order the mtimes come |
| `PeerHashes.ServedIsCurrent` | pkg/broker/introspection.go:124-163 | Over a clean history every successful result of any number of racing calls is a version that was current at some instant between that call's stat and its return |
| `PeerHashes.NeverGoesBack` | pkg/broker/introspection.go:124-163 | Over a clean history a call that begins after another has returned never returns an older version |
| `Sse.SplitConsists` | pkg/broker/sse.go:140-159 | The stream is the counted events one after the other, each ending at its first delimiter, and then the remainder; no byte is lost or moved |
| `Sse.SplitRemainder` | pkg/broker/sse.go:140-159 | The remainder contains no complete delimiter |
| `Sse.DelimiterMeans` | pkg/broker/sse.go:134-157 | LF-LF and CRLF-CRLF are delimiters and nothing else is, in terms of the bytes |
| `Sse.EventMeans` | pkg/broker/sse.go:134-157 | An event is a string that ends with one of the two and has neither starting earlier |
| `Sse.ConsistsOf` | pkg/broker/sse.go:140-159 | The events and the remainder are all the bytes of the stream, in order |
| `Sse.ConsistsOnce` | pkg/broker/sse.go:140-159 | A stream has only one such decomposition, so its bytes determine count and carry |
| `Sse.SplitConcat` | pkg/broker/sse.go:111-159 | Splitting a + b is splitting a and then the remainder of a followed by b |
| `Sse.SplitSSEEvents` | pkg/broker/sse.go:140-159 | The one-pass scan counts the leftmost-first cuts and returns what is left |
| `Sse.StreamRecorder.CountEvents` | pkg/broker/sse.go:111-132 | After every write the stream so far is as many events as were counted followed by the carry, which contains no delimiter |
| `Sse.StreamRecorder.WriteAll` | pkg/broker/sse.go:111-132 | Any stream in any chunks is as many events as were counted followed by the carry |
| `Sse.AnyTwoCuts` | pkg/broker/sse.go:111-159 | Two ways of cutting the same bytes into writes leave the same count and the same carry |
| `Samples.OverflowQueue.Append` | pkg/shared/queue/overflow_queue.go:40-47 | The queue holds exactly the last maxSize of all elements ever appended, in order |
| `Samples.OverflowQueue.Items` | pkg/shared/queue/overflow_queue.go:50-56 | Returns those elements |
| `Samples.AgentDeployBuffers.Append` | pkg/daemon/server/rater/pod_samples.go:79-91 | A sample goes to the end of its own pod's history; other pods, and a nil sample, change nothing |
| `Samples.AgentDeployBuffers.Samples` | pkg/daemon/server/rater/pod_samples.go:108-116 | The last 720 samples of the pod's history, or none for an unknown pod |
| `Samples.AgentDeployBuffers.Pods` | pkg/daemon/server/rater/pod_samples.go:96-104 | Every pod seen, once |
| `Samples.SamplesInWindow` | pkg/daemon/server/rater/helper.go:29-43 | The suffix from the first sample at or after now - lookback; everything before it is earlier |
| `Samples.BoundedWindowIff` | pkg/daemon/server/rater/pod_samples.go:29-35 | A bounded queue answers a window query like the full history if and only if no dropped sample is at or after the cutoff |
| `Samples.PacedWindow` | pkg/daemon/server/rater/pod_samples.go:29-35 | With samples 720 appends apart more than the retention apart and none from the future, nothing is lost for any lookback up to the retention |
| `Rates.ComputeValue` | pkg/daemon/server/rater/helper.go:57-80 | The entry of a transport (zero when absent), or for the total the sum over the map in whatever order it is visited |
| `Rates.SeriesReads` | pkg/daemon/server/rater/helper.go:52-80 | Requests, stream messages and in-flight each read their own map of a sample, and an absent transport is 0 |
| `Rates.TotalReads` | pkg/daemon/server/rater/helper.go:57-80 | The total of a sample is the sum over the whole of that map |
| `Rates.PodRate` | pkg/daemon/server/rater/helper.go:101-130 | Committing the growth of each run between two resets gives the step-by-step reset-aware growth over the window, divided by its length; no rate without two samples at increasing times |
| `Rates.RateMeans` | pkg/daemon/server/rater/helper.go:101-130 | A rate exists if and only if the window has two samples at increasing times, and times the length of the window it is the growth |
| `Rates.IncreaseAppend` | pkg/daemon/server/rater/helper.go:101-130 | One more value adds its difference to the last, or after a drop the whole of it |
| `Rates.IncreaseNonNegative` | pkg/daemon/server/rater/helper.go:101-130 | Counters that are not negative never give a negative growth |
| `Rates.IncreaseTelescopes` | pkg/daemon/server/rater/helper.go:101-130 | Without a drop the growth is last minus first |
| `Rates.IncreaseAtLeastNet` | pkg/daemon/server/rater/helper.go:101-130 | For counters that are not negative the growth is at least last minus first, and equal to it if and only if the counter never drops |
| `Rates.TotalIncrease` | pkg/daemon/server/rater/helper.go:57-130 | When no transport drops in the window, the growth of the total is the sum of the growths |
| `Rates.StepGap` | pkg/daemon/server/rater/helper.go:57-130 | In every step of every window the growth of the total is the sum of the growths, plus the previous values of the transports that do not drop if the total drops, minus those of the transports that drop if it does not |
| `Rates.TotalIncreaseIff` | pkg/daemon/server/rater/helper.go:57-130 | For every window, whatever resets it contains, the growth of the total is the sum of the growths plus what is counted again minus what is missing over all steps; the two agree if and only if these cancel out |
| `Rates.StepIff` | pkg/daemon/server/rater/helper.go:57-130 | For counters that are not negative, a step of the total is the sum of the steps if and only if the total drops and every transport that does not drop was at zero, or nothing drops at all |
| `Rates.FineWindow` | pkg/daemon/server/rater/helper.go:57-130 | A window all of whose steps are of that kind, restarts of the whole broker included, miscounts nothing |
| `Rates.SteadyTotalIff` | pkg/daemon/server/rater/helper.go:57-130 | Among the windows in which the total never drops, the growth of the total is at most the sum, and equal to it if and only if no transport drops |
| `Rates.ResetHidesInTotal` | pkg/daemon/server/rater/helper.go:57-130 | A concrete window in which a reset of one transport is hidden by the growth of another, so the total is 0 and the sum is 10 |
| `Rates.ResetInflatesTotal` | pkg/daemon/server/rater/helper.go:57-130 | A concrete window in which one transport takes the total down with it, so the total is 7 and the sum is 2 |
| `Rates.RestartAddsUp` | pkg/daemon/server/rater/helper.go:57-130 | A concrete restart of the whole broker, in which both the total and the sum are 3 although every transport drops |
| `Rates.Weigh` | pkg/daemon/server/rater/helper.go:180-190 | The two accumulators: each value weighted by the time to the next sample, and the length of the window |
| `Rates.PodInflightAvg` | pkg/daemon/server/rater/helper.go:175-194 | The time-weighted average of the window, the last value for a window of length zero, nothing for an empty one |
| `Rates.AverageMeans` | pkg/daemon/server/rater/helper.go:175-194 | An average times the length of its window is the weighted sum; of two samples it is the first value; of a window of length zero the last |
| `Rates.AverageBetween` | pkg/daemon/server/rater/helper.go:175-194 | With timestamps in order, an average lies between any bounds of the values in its window |
| `Rates.TotalAverage` | pkg/daemon/server/rater/helper.go:71-80 | The average of the totals of a pod is the sum of its per-transport averages |
| `Rater.CalculateCounterRate` | pkg/daemon/server/rater/helper.go:147-156 | The sum of the pods' rates; pods without a rate contribute nothing |
| `Rater.CalculateInflightAvg` | pkg/daemon/server/rater/helper.go:199-208 | The sum of the pods' averages; pods without samples contribute nothing |
| `Rater.OnePodMore` | pkg/daemon/server/rater/helper.go:147-208 | One more pod adds its own rate, if it has one, and its own average, if its window is not empty |
| `Rater.HasUsableHistory` | pkg/daemon/server/rater/helper.go:217-224 | True exactly when some pod holds two samples |
| `Rater.ObservedTransports` | pkg/daemon/server/rater/helper.go:228-248 | Exactly the transports that some held sample has in one of its three maps, each once |
| `Rater.SpellOutAll` | pkg/daemon/server/rater/rater.go:343-379 | Every answer has under 1m, 5m and 15m the values over 60, 300 and 900 seconds, under custom the values over the requested seconds up to 1800 if they were requested, and no other key |
| `Rater.Windows` | pkg/daemon/server/rater/rater.go:343-362 | Every lookback is positive and at most the retention, and the window keys are distinct |
| `Rater.InflightTotals` | pkg/daemon/server/rater/helper.go:199-208 | For every pod set the in-flight total of a window is the sum over any set of transports that covers the samples |
| `Rater.RateTotals` | pkg/daemon/server/rater/helper.go:147-156 | Whatever resets the windows of the pods contain, the total rate is the sum of the per-transport rates plus the miscount of the pods, each over its own window length |
| `Rater.NoMiscount` | pkg/daemon/server/rater/helper.go:147-156 | When no transport of any pod drops within its window the miscount is zero |
| `Rater.PacedQueries` | pkg/daemon/server/rater/rater.go:343-379 | Rate and in-flight queries on the bounded buffers equal the same queries on the full append history, for every lookback up to the retention |
| `Rater.GetMetrics` | pkg/daemon/server/rater/rater.go:331-386 | Unknown exactly when the AgentDeploy has no buffers; an answer exactly when some pod of it holds two samples; then the two rates and the average over 60, 300, 900 and up to 1800 requested seconds under their own keys, for the total and for exactly the observed transports, and the effective length of the custom window |
| `Rater.AnswerAddsUp` | pkg/daemon/server/rater/rater.go:364-379 | In every answer the total of a window is the sum of the per-transport values, exactly for in-flight and up to the miscount of the resets for rates, which is zero when no transport drops |
| `Rater.AnswerMatchesHistory` | pkg/daemon/server/rater/rater.go:331-386 | Over paced histories every value of an answer, total and per transport, is the one the full append history would give |
| `CardGate.LatestIsMostRecent` | pkg/daemon/server/rater/peer_agentcard_poll.go:58-78 | If W equal consecutive polls end at some point and none end later, the specified hash is the one of that block |
| `CardGate.NoBlockYet` | pkg/daemon/server/rater/peer_agentcard_poll.go:58-78 | Without any such block the specified hash is empty |
| `CardGate.RunMakesBlock` | pkg/daemon/server/rater/peer_agentcard_poll.go:66-77 | A block ends with the last poll if and only if the run of equal polls at the end is at least W long |
| `CardGate.SomePollPromotes` | pkg/daemon/server/rater/peer_agentcard_poll.go:58-78 | Whenever a hash is accepted, some poll promoted it: a block ends there, another hash or none was the latest before, and it has been the latest ever since |
| `CardGate.ChangedAtPromotion` | pkg/daemon/server/rater/peer_agentcard_poll.go:58-78 | The accepted time is that of the promoting poll, however often the hash has been polled since |
| `CardGate.GatedHash.Observe` | pkg/daemon/server/rater/peer_agentcard_poll.go:58-78 | After any history of polls the accepted hash is that of the most recent block of W equal polls and the pending fields count the current run; the accepted time changes to now exactly when the accepted hash changes |
| `CardGate.PeerCardState.Observe` | pkg/daemon/server/rater/peer_agentcard_poll.go:93-102 | A poll extends the history of its own peer and leaves every other peer alone |
| `CardGate.PeerCardState.Snapshot` | pkg/daemon/server/rater/peer_agentcard_poll.go:107-115 | Nothing until a block has been seen, then the hash and the time of the poll that promoted it |
| `HashCache.PeerHashCache.SetReport` | pkg/daemon/server/rater/peer_card_drift.go:109-119 | The three maps after a report: the pod the host pointed at before is dropped when it differs |
| `HashCache.PeerHashCache.PruneHosts` | pkg/daemon/server/rater/peer_card_drift.go:125-139 | The three maps after a prune: every host not live and the pod it points at are dropped, in whatever order the map is visited |
| `HashCache.PeerHashCache.ReportedByPeer` | pkg/daemon/server/rater/peer_card_drift.go:144-154 | Exactly the pods with an entry for the peer, with that entry |
| `HashCache.SetKeepsIff` | pkg/daemon/server/rater/peer_card_drift.go:109-119 | A set keeps host-to-pod injective and its range equal to the cached pods if and only if no other host points at the pod it reports |
| `HashCache.PruneInStep` | pkg/daemon/server/rater/peer_card_drift.go:125-139 | A prune always keeps them so |
| `HashCache.InStepIffGuarded` | pkg/daemon/server/rater/peer_card_drift.go:109-139 | Over every run of set and prune the maps are in step throughout if and only if every set passes that guard when its turn comes |
| `HashCache.InStepAlways` | pkg/daemon/server/rater/peer_card_drift.go:109-139 | If each pod name belongs to one host, every run of set and prune keeps the three maps in step |
| `HashCache.MovedPodNameStaysInStep` | pkg/daemon/server/rater/peer_card_drift.go:109-139 | A pod name that moves to another host after a prune passes the guard, although it has had two owners |
| `HashCache.SetEntry` | pkg/daemon/server/rater/peer_card_drift.go:109-119 | Seen host by host, a guarded set replaces the entry of its host and no other |
| `HashCache.PruneEntry` | pkg/daemon/server/rater/peer_card_drift.go:125-139 | Seen host by host, prune keeps the entries of the live hosts and no others |
| `HashCache.EntriesDetermine` | pkg/daemon/server/rater/peer_card_drift.go:109-154 | Two caches in step that agree host by host are equal |
| `HashCache.OwnedTickReports` | pkg/daemon/server/rater/peer_card_drift.go:159-199 | One report per host is enough for that when each pod name belongs to one host |
| `HashCache.InStepMeans` | pkg/daemon/server/rater/peer_card_drift.go:109-154 | In step means that host-to-pod is injective and its range is the set of cached pods |
| `HashCache.TickOrder` | pkg/daemon/server/rater/peer_card_drift.go:159-199 | If the reports of a tick have distinct hosts and pods and pass the guard, the order in which the concurrent set calls happen makes no difference |
| `HashCache.TickInStep` | pkg/daemon/server/rater/peer_card_drift.go:159-199 | A whole tick keeps the maps in step |
| `HashCache.ScrapeOnce` | pkg/daemon/server/rater/peer_card_drift.go:159-199 | Prune and then the sets, one after another, are the tick that the lemmas are about; without hosts nothing changes |
| `HashCache.TickLeavesLivePods` | pkg/daemon/server/rater/rater.go:236-261 | After a tick every cached pod is one that a discovered host points at, if and only if a host was discovered or nothing was cached: a tick that discovers none returns before it prunes |
| `HashCache.SharedPodNameFallsOut` | pkg/daemon/server/rater/peer_card_drift.go:109-119 | A run that fails the guard: a host is left pointing at a pod that is no longer cached |
| `Admission.Semaphore.Acquire` | pkg/broker/ratelimit/semaphore.go:35-43 | A slot exactly when fewer than the current limit are held; a refusal changes nothing |
| `Admission.Semaphore.Release` | pkg/broker/ratelimit/semaphore.go:48-54 | Gives one slot back and never goes below zero |
| `Admission.Semaphore.SetLimit` | pkg/broker/ratelimit/semaphore.go:58-62 | Changes the limit and no held slot |
| `Admission.SliceFor` | pkg/broker/ratelimit/dns_count.go:110-115 | For a positive cap every slice is between 1 and the cap |
| `Admission.SliceBounds` | pkg/broker/ratelimit/dns_count.go:110-115 | The slice for r replicas is the least share of which r cover the cap |
| `Admission.FleetBound` | pkg/broker/ratelimit/dns_count.go:106-115 | r brokers within their slices hold at most m + r - 1 requests, and r slices together are at least m |
| `Admission.SinceRecount` | pkg/broker/ratelimit/dns_count.go:91-104 | In every run, since a recount a broker either is within its limit or serves only requests it already held then, so it never holds more than the larger of the limit and what it held then |
| `Admission.SettledIsWithinSlice` | pkg/broker/ratelimit/dns_count.go:91-115 | A broker that has finished what it held at a recount of r replicas is within the slice for r |
| `Admission.FleetBoundOverRuns` | pkg/broker/ratelimit/dns_count.go:91-115 | r brokers, each in a run of its own, that have counted r replicas and finished what they held before, serve at most m + r - 1 requests together |
| `Admission.Broker.Recount` | pkg/broker/ratelimit/dns_count.go:93-104 | A step of the machine: the limit stays after a failed lookup, is the cap for at most one replica, and otherwise the least share of which the replicas cover the cap |
| `Admission.Broker.Arrive` | pkg/broker/metrics.go:172-180 | A step of the machine: the request holds a slot, or is refused |
| `Admission.Broker.PassThrough` | pkg/broker/metrics.go:182-194 | Raising and lowering the gauge around the handler cancel out |
| `Admission.Broker.CountThenRelease` | pkg/broker/metrics.go:180-193 | After the gauge is lowered the request is counted and then its slot is given back |
| `Admission.Broker.Serve` | pkg/broker/metrics.go:170-196 | A request on its own is admitted exactly when a slot is free, is counted once as handled or once as rejected, and leaves no slot and no gauge behind |
| `Admission.InvNext` | pkg/broker/proxy_grpc.go:68-89 | Every step of every interleaving of HTTP and gRPC requests and recounts keeps the slots, gauges and counters equal to the numbers of requests in the matching phases |
| `Admission.AdmissionSafety` | pkg/broker/metrics.go:170-196 | For every run with maxInFlight >= 1: held is the number of admitted requests not released and at most maxInFlight, the gauges add up to at most held, and per transport arrivals = rejected + pending + handled |
| `AgentGraph.PeersExcluding` | pkg/apis/kynomesh/v1alpha1/topology.go:46-61 | The other managed agents in order, then all external agents |
| `AgentGraph.NextAgent` | pkg/apis/kynomesh/v1alpha1/topology.go:68-83 | The agent behind the first one of that name, behind the last one the first external agent, and nothing for an unknown name; kind and URL of each |
| `AgentGraph.ComputeTopology` | pkg/apis/kynomesh/v1alpha1/topology.go:20-42 | The topology the lemmas are about: the pattern, the flag for the entry alone, and no peers for a nil AgentSet or an unknown pattern |
| `AgentGraph.PeersExactly` | pkg/apis/kynomesh/v1alpha1/topology.go:20-83 | In an accepted AgentSet, which peers, in which order, of which kind and URL: under Handoff everybody else, under Supervisor everybody else for the entry and nobody for the others, under Sequential the next one |
| `AgentGraph.EdgeIff` | pkg/apis/kynomesh/v1alpha1/topology.go:20-61 | Under Handoff a may call b if and only if a is managed, b is an agent and a is not b; under Supervisor if and only if a is the entry besides |
| `AgentGraph.SimpleCopy` | pkg/apis/kynomesh/v1alpha1/agentset_types.go:193-210 | Keeps names, pattern, entry and external agents, and drops the rest of each agent |
| `AgentGraph.SlimCopyKeepsTopology` | pkg/apis/kynomesh/v1alpha1/agentset_types.go:193-210 | Every agent has the same topology in the slim copy, for every AgentSet |
| `AgentGraph.ValidateAgents` | pkg/reconciler/validator/agentset.go:58-86 | Accepts exactly when every managed agent is fine and their names are distinct |
| `AgentGraph.ValidateExternals` | pkg/reconciler/validator/agentset.go:88-110 | Accepts exactly when every external agent is fine and all names are distinct |
| `AgentGraph.ValidateAgentSet` | pkg/reconciler/validator/agentset.go:48-152 | Accepts an AgentSet if and only if it meets the declarative validity predicate |
| `AgentGraph.AcceptedIff` | pkg/reconciler/validator/agentset.go:48-152 | What is accepted, written out: the reserved names, the 50 characters, the saturation of at most 100, unique names over both kinds of agents, the managed entry and the demands of each pattern |
| `AgentGraph.EntryManaged` | pkg/reconciler/validator/agentset.go:112-125 | With unique names, the flag and the seen map decide exactly whether the entry is a managed agent |
| `AgentGraph.PeersAreSimple` | pkg/apis/kynomesh/v1alpha1/topology.go:20-83 | In an accepted AgentSet no agent is its own peer or a peer twice, and Sequential gives at most one peer |
| `AgentGraph.AllReachable` | pkg/apis/kynomesh/v1alpha1/topology.go:20-83 | In an accepted AgentSet every managed and external agent is reachable from the entry, for all three patterns |
| `AgentGraph.SequentialIsAcyclic` | pkg/apis/kynomesh/v1alpha1/topology.go:68-83 | In an accepted Sequential AgentSet no path visits a name twice |
| `WorkSet.WorkSet.Track` | pkg/shared/workset/workset.go:56-60 | The key is added to the set and nothing else changes: the Track step of the machine |
| `WorkSet.WorkSet.Forget` | pkg/shared/workset/workset.go:63-67 | The key is taken out of the set and nothing else changes: the Forget step of the machine |
| `WorkSet.WorkSet.Snapshot` | pkg/shared/workset/workset.go:86-94 | Every tracked key once |
| `WorkSet.WorkSet.Refresh` | pkg/shared/workset/workset.go:114-117 | The Refresh step of the machine, with a snapshot of the tracked keys |
| `WorkSet.WorkSet.PickNext` | pkg/shared/workset/workset.go:124-125 | The Pick step of the machine |
| `WorkSet.WorkSet.HandOver` | pkg/shared/workset/workset.go:126-130 | The Send step of the machine |
| `WorkSet.WorkSet.Turn` | pkg/shared/workset/workset.go:111-135 | A turn of the assigner on its own is a refresh at the end of a batch followed by a pick and a send, and keeps the invariant |
| `WorkSet.CycleSendsSnapshot` | pkg/shared/workset/workset.go:97-136 | Between two refreshes the keys sent are the snapshot in order: each tracked key exactly once |
| `WorkSet.StaysTracked` | pkg/shared/workset/workset.go:56-67 | Tracking puts a key into the set and only forgetting it takes it out |
| `WorkSet.StaysForgotten` | pkg/shared/workset/workset.go:56-67 | Forgetting takes a key out of the set and only tracking it puts it back |
| `WorkSet.PresentKeyIsSent` | pkg/shared/workset/workset.go:97-136 | A key that stays in the set is sent within the rest of the current batch plus one next batch |
| `WorkSet.TrackedKeyIsSent` | pkg/shared/workset/workset.go:56-136 | A key that was tracked and not forgotten since is sent within the rest of the batch that was current then plus one next batch, whatever happens to other keys |
| `WorkSet.AbsentKeySentOnce` | pkg/shared/workset/workset.go:97-136 | A key that stays out of the set is sent at most once more |
| `WorkSet.ForgottenKeySentOnce` | pkg/shared/workset/workset.go:63-136 | A key that was forgotten and not tracked since is sent at most once more |
| `WorkSet.ForgottenKeyNotInNextCycle` | pkg/shared/workset/workset.go:63-136 | And not at all once the batch that was current when it was forgotten is over |

## Left out

- Codec.SkipGenerated: which error value is returned is not specified, because no caller tells them apart.
- Codec.UnmarshalPeer: says which inputs are rejected, not with which error value or with which half-filled message.
- Codec.UnmarshalTopology: the same.
- Codec.UnmarshalScale: the same.
- Controller.Reconciler.ReconcilePods: `LastScaledAt`, stale informer caches and API calls that take effect although an error comes back are not modelled; the method makes its calls one after another, and what the environment does among them is in `Rollout`.
- Controller.Reconciler.DeletePod: a pod that is already gone, which counts as deleted, cannot occur here because only the pass acts; `Rollout.MidNext` has that case.
- Controller.Reconciler.CreatePod: a name collision, which counts as created, is not modelled; pod names carry a random suffix.
- Controller.Reconciler.Reconcile: conditions, messages, `LastScaledAt`, `Selector`, `ObservedGeneration` and persisting the status are left out; reconciling the services is a parameter that succeeds or fails.
- PeerHashes.SafeIffClean: writes of the file are atomic; a reader never sees half a version.
- Rater.GetMetrics: reads the buffers once, so samples that arrive in the middle of a query are not modelled.
- AgentGraph.PeersExcluding: requires at least one managed or external agent, because the capacity computed by the code is negative otherwise; ComputeTopology requires it in the branches that call it.
- AgentGraph.ValidateAgentSet: which of several problems is reported, and its text, are not specified.
- Admission.AdmissionSafety: the unlimited limiter, which admits everything, the duration histogram, the error counters and the stream counters are left out.
- WorkSet.TrackedKeyIsSent: the pacing between sends, what the workers do with a key, and cancellation are left out; keys are strings.
- WorkSet.WorkSet.Turn: others do not track or forget during the turn; the machine and its lemmas let them.
- HTTP and gRPC servers, reverse proxies, frame pumping, TLS, DNS lookup, scrapers, clients and command-line tools are input and output around libraries.
- Informers, leader election, event recording and the rest of the Kubernetes client are left out.
- The other messages of the generated codec repeat the encodings of the three that are modelled.
- Template and environment merging, pod-spec rendering, service upserts and the sync of child AgentDeploys are field-by-field defaulting.
- Termination budgets and draining are one clamp and a polling loop.
- The autoscaler and the drift watcher are left out, and so is the report that compares the accepted hash of a peer with the reported ones.
- `ReversedItems` of the queue and the detection of the event-stream content type would only add easy members.
