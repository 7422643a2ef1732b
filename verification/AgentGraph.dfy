/**
 Who may call whom in an AgentSet (pkg/apis/kynomesh/v1alpha1/topology.go), the validator that admits an AgentSet
 (pkg/reconciler/validator/agentset.go) and the slim copy the daemon works from
 (pkg/apis/kynomesh/v1alpha1/agentset_types.go).
 */
module AgentGraph {
  import opened Prelude
  import opened ApiTypes

  const SUPERVISOR := "Supervisor"
  const HANDOFF := "Handoff"
  const SEQUENTIAL := "Sequential"
  const MANAGED := "Managed"
  const EXTERNAL := "External"

  /** The fields of a managed agent that topology and validation read. */
  datatype Agent = Agent(name: string, targetSaturationPercentage: Option<nat>)

  datatype ExternalAgent = ExternalAgent(name: string, url: string)

  datatype AgentSet = AgentSet(
    namespace: string,
    name: string,
    pattern: string,
    entry: string,
    agents: seq<Agent>,
    externals: seq<ExternalAgent>)

  // ---------------------------------------------------------------- topology

  function ManagedPeer(a: Agent): Peer<string> {
    Peer(a.name, MANAGED, "")
  }

  function ExternalPeer(e: ExternalAgent): Peer<string> {
    Peer(e.name, EXTERNAL, e.url)
  }

  /** Every managed agent but `self`, in order. */
  function Others(agents: seq<Agent>, self: string): seq<Peer<string>> {
    if agents == [] then []
    else
      var last := agents[|agents| - 1];
      Others(agents[..|agents| - 1], self) + if last.name == self then [] else [ManagedPeer(last)]
  }

  function Externals(externals: seq<ExternalAgent>): (ps: seq<Peer<string>>)
    ensures |ps| == |externals| && forall i :: 0 <= i < |ps| ==> ps[i] == ExternalPeer(externals[i])
  {
    seq(|externals|, i requires 0 <= i < |externals| => ExternalPeer(externals[i]))
  }

  /** The capacity of the result is computed as len(agents) - 1 + len(externals), which must not be negative. */
  method PeersExcluding(agents: seq<Agent>, externals: seq<ExternalAgent>, self: string)
    returns (out: seq<Peer<string>>)
    requires |agents| + |externals| >= 1
    ensures out == Others(agents, self) + Externals(externals)
  {
    out := [];
    for i := 0 to |agents|
      invariant out == Others(agents[..i], self)
    {
      assert agents[..i + 1][..i] == agents[..i];
      if agents[i].name == self {
        continue;
      }
      out := out + [ManagedPeer(agents[i])];
    }
    assert agents[..|agents|] == agents;
    for i := 0 to |externals|
      invariant out == Others(agents, self) + Externals(externals)[..i]
    {
      out := out + [ExternalPeer(externals[i])];
    }
  }

  /** The first agent called `self`, or the number of agents. */
  function IndexOf(agents: seq<Agent>, self: string): (i: nat)
    ensures i <= |agents| && (i < |agents| ==> agents[i].name == self)
    ensures forall j :: 0 <= j < i ==> agents[j].name != self
  {
    if agents == [] || agents[0].name == self then 0 else 1 + IndexOf(agents[1..], self)
  }

  /** The agent behind `self` in the chain; behind the last one, the first external agent. */
  function Successor(agents: seq<Agent>, externals: seq<ExternalAgent>, self: string): seq<Peer<string>> {
    var i := IndexOf(agents, self);
    if i == |agents| then []
    else if i + 1 < |agents| then [ManagedPeer(agents[i + 1])]
    else if |externals| > 0 then [ExternalPeer(externals[0])]
    else []
  }

  method NextAgent(agents: seq<Agent>, externals: seq<ExternalAgent>, self: string) returns (next: Option<Peer<string>>)
    ensures Successor(agents, externals, self) == if next.Some? then [next.value] else []
    ensures (forall i :: 0 <= i < |agents| ==> agents[i].name != self) ==> next == None
    ensures forall i :: 0 <= i < |agents| && agents[i].name == self
                        && (forall j :: 0 <= j < i ==> agents[j].name != self) ==>
              next == if i + 1 < |agents| then Some(Peer(agents[i + 1].name, "Managed", ""))
                      else if |externals| > 0 then Some(Peer(externals[0].name, "External", externals[0].url))
                      else None
  {
    for i := 0 to |agents|
      invariant forall j :: 0 <= j < i ==> agents[j].name != self
    {
      if agents[i].name != self {
        continue;
      }
      assert IndexOf(agents, self) == i;
      if i + 1 < |agents| {
        return Some(ManagedPeer(agents[i + 1]));
      }
      if |externals| > 0 {
        return Some(ExternalPeer(externals[0]));
      }
      return None;
    }
    next := None;
  }

  /** ComputeTopology, as a function of the AgentSet; nil gives the zero value. */
  function TopologyOf(s: Option<AgentSet>, agent: string): Topology<string> {
    if s.None? then Topology("", false, [])
    else
      var AgentSet(_, _, pattern, entry, agents, externals) := s.value;
      var everyone := Others(agents, agent) + Externals(externals);
      var peers :=
        if pattern == HANDOFF then everyone
        else if pattern == SUPERVISOR then if agent == entry then everyone else []
        else if pattern == SEQUENTIAL then Successor(agents, externals, agent)
        else [];
      Topology(pattern, agent == entry, peers)
  }

  /** Whether the pattern makes everybody else a peer of `agent`. */
  predicate SeesAll(s: AgentSet, agent: string) {
    s.pattern == HANDOFF || (s.pattern == SUPERVISOR && agent == s.entry)
  }

  /** Only the branches that collect everybody else need somebody to be there. */
  method ComputeTopology(s: Option<AgentSet>, agent: string) returns (t: Topology<string>)
    requires s.Some? && SeesAll(s.value, agent) ==> |s.value.agents| + |s.value.externals| >= 1
    ensures t == TopologyOf(s, agent)
    ensures s.None? ==> t == Topology("", false, [])
    ensures s.Some? ==> t.pattern == s.value.pattern && (t.isEntry <==> agent == s.value.entry)
    ensures s.Some? && s.value.pattern !in {"Supervisor", "Handoff", "Sequential"} ==> t.peers == []
  {
    if s.None? {
      return Topology("", false, []);
    }
    var AgentSet(_, _, pattern, entry, agents, externals) := s.value;
    t := Topology(pattern, agent == entry, []);
    if pattern == HANDOFF || (pattern == SUPERVISOR && t.isEntry) {
      var peers := PeersExcluding(agents, externals, agent);
      t := t.(peers := peers);
    } else if pattern == SEQUENTIAL {
      var next := NextAgent(agents, externals, agent);
      if next.Some? {
        t := t.(peers := [next.value]);
      }
    }
  }

  // ---------------------------------------------------------------- the slim copy

  function Slim(agents: seq<Agent>): (out: seq<Agent>)
    ensures |out| == |agents| && forall i :: 0 <= i < |out| ==> out[i] == Agent(agents[i].name, None)
  {
    seq(|agents|, i requires 0 <= i < |agents| => Agent(agents[i].name, None))
  }

  /** SimpleCopy keeps the names, the pattern, the entry and the external agents. */
  method SimpleCopy(s: AgentSet) returns (copy: AgentSet)
    ensures copy == s.(agents := Slim(s.agents))
  {
    var agents := [];
    for i := 0 to |s.agents|
      invariant agents == Slim(s.agents)[..i]
    {
      agents := agents + [Agent(s.agents[i].name, None)];
    }
    copy := AgentSet(s.namespace, s.name, s.pattern, s.entry, agents, s.externals);
  }

  lemma {:induction false} SlimOthers(agents: seq<Agent>, self: string)
    ensures Others(Slim(agents), self) == Others(agents, self)
  {
    if agents != [] {
      SlimOthers(agents[..|agents| - 1], self);
      assert Slim(agents)[..|agents| - 1] == Slim(agents[..|agents| - 1]);
    }
  }

  lemma {:induction false} SlimIndexOf(agents: seq<Agent>, self: string)
    ensures IndexOf(Slim(agents), self) == IndexOf(agents, self)
  {
    var i, j := IndexOf(Slim(agents), self), IndexOf(agents, self);
    assert i < |agents| ==> Slim(agents)[i].name == agents[i].name;
    assert j < |agents| ==> Slim(agents)[j].name == agents[j].name;
  }

  /** Every agent has the same topology in the slim copy, whatever the AgentSet. */
  lemma {:induction false} SlimCopyKeepsTopology(s: AgentSet, agent: string)
    ensures TopologyOf(Some(s.(agents := Slim(s.agents))), agent) == TopologyOf(Some(s), agent)
  {
    SlimOthers(s.agents, agent);
    SlimIndexOf(s.agents, agent);
  }

  // ---------------------------------------------------------------- validation

  const RESERVED: set<string> := {"ingress", "daemon"}
  const MAX_CHILD_NAME := 50

  /** The checks of libraries outside this repository: DNS-1035 labels, and URLs with a scheme and a host. */
  datatype Checks = Checks(isLabel: string -> bool, isAbsoluteUrl: string -> bool)

  predicate NameOk(name: string, checks: Checks) {
    name != "" && checks.isLabel(name) && name !in RESERVED
  }

  /** AgentSet and agent name joined by a dash. */
  function ChildName(s: AgentSet, agent: string): string {
    s.name + "-" + agent
  }

  predicate AgentOk(s: AgentSet, a: Agent, checks: Checks) {
    && NameOk(a.name, checks) && |ChildName(s, a.name)| <= MAX_CHILD_NAME
    && (a.targetSaturationPercentage.Some? ==> a.targetSaturationPercentage.value <= 100)
  }

  predicate ExternalOk(e: ExternalAgent, checks: Checks) {
    NameOk(e.name, checks) && e.url != "" && checks.isAbsoluteUrl(e.url)
  }

  /** All names, managed agents first. */
  function Names(s: AgentSet): (ns: seq<string>)
    ensures |ns| == |s.agents| + |s.externals|
    ensures forall i :: 0 <= i < |s.agents| ==> ns[i] == s.agents[i].name
    ensures forall i :: 0 <= i < |s.externals| ==> ns[|s.agents| + i] == s.externals[i].name
  {
    seq(|s.agents|, i requires 0 <= i < |s.agents| => s.agents[i].name)
    + seq(|s.externals|, i requires 0 <= i < |s.externals| => s.externals[i].name)
  }

  predicate PatternOk(s: AgentSet) {
    || s.pattern == SUPERVISOR
    || (s.pattern == HANDOFF && |s.agents| >= 2)
    || (s.pattern == SEQUENTIAL && |s.agents| >= 2 && s.entry == s.agents[0].name && |s.externals| <= 1)
  }

  /** What the validator demands. */
  ghost predicate Valid(s: AgentSet, checks: Checks) {
    && checks.isLabel(s.name) && s.agents != []
    && (forall i :: 0 <= i < |s.agents| ==> AgentOk(s, s.agents[i], checks))
    && (forall i :: 0 <= i < |s.externals| ==> ExternalOk(s.externals[i], checks))
    && Distinct(Names(s))
    && (exists i :: 0 <= i < |s.agents| && s.agents[i].name == s.entry)
    && PatternOk(s)
  }

  datatype Problem =
    | BadSetName | NoAgents | BadAgentName | ReservedName | DuplicateName | NameTooLong | BadSaturation
    | BadUrl | EntryIsExternal | EntryUnknown | TooFewAgents | EntryNotFirst | TooManyExternals | BadPattern

  /** The loop over the managed agents, with the map of names seen. */
  method ValidateAgents(s: AgentSet, checks: Checks) returns (problem: Option<Problem>, seen: set<string>)
    ensures problem.None? <==>
              && (forall i :: 0 <= i < |s.agents| ==> AgentOk(s, s.agents[i], checks))
              && Distinct(Names(s)[..|s.agents|])
    ensures problem.None? ==> forall n :: n in seen <==> n in Names(s)[..|s.agents|]
  {
    var names := Names(s);
    seen := {};
    for i := 0 to |s.agents|
      invariant forall n :: n in seen <==> n in names[..i]
      invariant Distinct(names[..i])
      invariant forall j :: 0 <= j < i ==> AgentOk(s, s.agents[j], checks)
    {
      var a := s.agents[i];
      assert a.name == names[i] && names[..i + 1] == names[..i] + [a.name];
      if a.name == "" || !checks.isLabel(a.name) {
        return Some(BadAgentName), seen;
      }
      if a.name in RESERVED {
        return Some(ReservedName), seen;
      }
      if a.name in seen {
        NotDistinct(names[..|s.agents|], i, a.name);
        return Some(DuplicateName), seen;
      }
      DistinctAppend(names[..i], a.name);
      seen := seen + {a.name};
      if |ChildName(s, a.name)| > MAX_CHILD_NAME {
        return Some(NameTooLong), seen;
      }
      if a.targetSaturationPercentage.Some? && a.targetSaturationPercentage.value > 100 {
        return Some(BadSaturation), seen;
      }
    }
    problem := None;
  }

  lemma NotDistinct(names: seq<string>, i: nat, name: string)
    requires i < |names| && names[i] == name && name in names[..i]
    ensures !Distinct(names)
  {
    var j :| 0 <= j < i && names[..i][j] == name;
    assert names[j] == names[i];
  }

  /** The loop over the external agents, which share the names seen. */
  method ValidateExternals(s: AgentSet, checks: Checks, managed: set<string>)
    returns (problem: Option<Problem>, seen: set<string>)
    requires Distinct(Names(s)[..|s.agents|]) && forall n :: n in managed <==> n in Names(s)[..|s.agents|]
    ensures problem.None? <==>
              (forall i :: 0 <= i < |s.externals| ==> ExternalOk(s.externals[i], checks)) && Distinct(Names(s))
    ensures problem.None? ==> forall n :: n in seen <==> n in Names(s)
  {
    hide Names;
    var names, m := Names(s), |s.agents|;
    seen := managed;
    for k := m to |names|
      invariant forall n :: n in seen <==> n in names[..k]
      invariant Distinct(names[..k])
      invariant forall j :: 0 <= j < k - m ==> ExternalOk(s.externals[j], checks)
    {
      var e := s.externals[k - m];
      assert names[m + (k - m)] == e.name;
      assert names[..k + 1] == names[..k] + [e.name];
      if e.name == "" || !checks.isLabel(e.name) {
        return Some(BadAgentName), seen;
      }
      if e.name in RESERVED {
        return Some(ReservedName), seen;
      }
      if e.name in seen {
        NotDistinct(names, k, e.name);
        return Some(DuplicateName), seen;
      }
      DistinctAppend(names[..k], e.name);
      seen := seen + {e.name};
      if e.url == "" || !checks.isAbsoluteUrl(e.url) {
        return Some(BadUrl), seen;
      }
    }
    assert names[..|names|] == names;
    problem := None;
  }

  lemma DistinctAppend(names: seq<string>, name: string)
    requires Distinct(names) && name !in names
    ensures Distinct(names + [name])
  {
  }

  /** ValidateAgentSet accepts exactly the valid AgentSets. */
  method ValidateAgentSet(s: AgentSet, checks: Checks) returns (problem: Option<Problem>)
    ensures problem.None? <==> Valid(s, checks)
  {
    hide AgentOk, ExternalOk, Names;
    if !checks.isLabel(s.name) {
      return Some(BadSetName);
    }
    if |s.agents| == 0 {
      return Some(NoAgents);
    }
    DistinctPrefix(Names(s), |s.agents|);
    var seen;
    problem, seen := ValidateAgents(s, checks);
    if problem.Some? {
      return;
    }
    problem, seen := ValidateExternals(s, checks, seen);
    if problem.Some? {
      return;
    }
    var entryIsExternal := false;
    for i := 0 to |s.externals|
      invariant !entryIsExternal && forall j :: 0 <= j < i ==> s.externals[j].name != s.entry
    {
      if s.externals[i].name == s.entry {
        entryIsExternal := true;
        break;
      }
    }
    EntryManaged(s);
    if entryIsExternal {
      return Some(EntryIsExternal);
    }
    if s.entry !in seen {
      return Some(EntryUnknown);
    }
    if s.pattern == SUPERVISOR {
    } else if s.pattern == HANDOFF {
      if |s.agents| < 2 {
        return Some(TooFewAgents);
      }
    } else if s.pattern == SEQUENTIAL {
      if |s.agents| < 2 {
        return Some(TooFewAgents);
      }
      if s.entry != s.agents[0].name {
        return Some(EntryNotFirst);
      }
      if |s.externals| > 1 {
        return Some(TooManyExternals);
      }
    } else {
      return Some(BadPattern);
    }
    problem := None;
  }

  lemma DistinctPrefix(names: seq<string>, n: nat)
    requires n <= |names|
    ensures Distinct(names) ==> Distinct(names[..n])
  {
  }

  /** Names are unique, so the entry is a managed agent exactly when it is a name and not an external one. */
  lemma {:induction false} EntryManaged(s: AgentSet)
    requires Distinct(Names(s))
    ensures (exists i :: 0 <= i < |s.agents| && s.agents[i].name == s.entry)
            <==> s.entry in Names(s) && forall j :: 0 <= j < |s.externals| ==> s.externals[j].name != s.entry
  {
    var names, m := Names(s), |s.agents|;
    if i :| 0 <= i < m && s.agents[i].name == s.entry {
      assert names[i] == s.entry;
      forall j | 0 <= j < |s.externals|
        ensures s.externals[j].name != s.entry
      {
        assert names[m + j] != names[i];
      }
    }
    if s.entry in names && forall j :: 0 <= j < |s.externals| ==> s.externals[j].name != s.entry {
      var k :| 0 <= k < |names| && names[k] == s.entry;
      assert k < m;
    }
  }

  // ---------------------------------------------------------------- the peer graph

  /** A name that agents and external agents may have. */
  ghost predicate GoodName(name: string, checks: Checks) {
    name != "" && checks.isLabel(name) && name != "ingress" && name != "daemon"
  }

  /**
   What an accepted AgentSet looks like, written out: at least one agent; good, unique names; an AgentSet name and an
   agent name joined by a dash of at most 50 characters; a saturation target of at most 100; absolute URLs; a managed
   entry; and a pattern whose own demands are met.
   */
  lemma {:induction false} AcceptedIff(s: AgentSet, checks: Checks)
    ensures Valid(s, checks) <==>
              && checks.isLabel(s.name) && |s.agents| >= 1
              && (forall i :: 0 <= i < |s.agents| ==>
                    && GoodName(s.agents[i].name, checks) && |s.name| + 1 + |s.agents[i].name| <= 50
                    && (s.agents[i].targetSaturationPercentage.Some? ==>
                          s.agents[i].targetSaturationPercentage.value <= 100))
              && (forall i :: 0 <= i < |s.externals| ==>
                    && GoodName(s.externals[i].name, checks)
                    && s.externals[i].url != "" && checks.isAbsoluteUrl(s.externals[i].url))
              && (forall i, j :: 0 <= i < j < |s.agents| ==> s.agents[i].name != s.agents[j].name)
              && (forall i, j :: 0 <= i < j < |s.externals| ==> s.externals[i].name != s.externals[j].name)
              && (forall i, j :: 0 <= i < |s.agents| && 0 <= j < |s.externals| ==>
                    s.agents[i].name != s.externals[j].name)
              && (exists i :: 0 <= i < |s.agents| && s.agents[i].name == s.entry)
              && (|| s.pattern == "Supervisor"
                  || (s.pattern == "Handoff" && |s.agents| >= 2)
                  || (s.pattern == "Sequential" && |s.agents| >= 2 && s.entry == s.agents[0].name
                      && |s.externals| <= 1))
  {
    hide Names;
    DistinctNamesIff(s);
  }

  lemma {:induction false} DistinctNamesIff(s: AgentSet)
    ensures Distinct(Names(s)) <==>
              && (forall i, j :: 0 <= i < j < |s.agents| ==> s.agents[i].name != s.agents[j].name)
              && (forall i, j :: 0 <= i < j < |s.externals| ==> s.externals[i].name != s.externals[j].name)
              && (forall i, j :: 0 <= i < |s.agents| && 0 <= j < |s.externals| ==>
                    s.agents[i].name != s.externals[j].name)
  {
    hide Names;
    if Distinct(Names(s)) {
      UniqueNames(s);
    } else {
      var i, j :| 0 <= i < j < |Names(s)| && Names(s)[i] == Names(s)[j];
      NameAt(s, i);
      NameAt(s, j);
    }
  }

  lemma NameAt(s: AgentSet, i: nat)
    requires i < |Names(s)|
    ensures Names(s)[i] == if i < |s.agents| then s.agents[i].name else s.externals[i - |s.agents|].name
  {
    if i >= |s.agents| {
      assert Names(s)[|s.agents| + (i - |s.agents|)] == s.externals[i - |s.agents|].name;
    }
  }

  ghost function PeersOf(s: AgentSet, agent: string): seq<Peer<string>> {
    TopologyOf(Some(s), agent).peers
  }

  ghost predicate IsManaged(s: AgentSet, name: string) {
    exists i :: 0 <= i < |s.agents| && s.agents[i].name == name
  }

  /** A managed agent may call another agent. External agents only receive calls. */
  ghost predicate Edge(s: AgentSet, a: string, b: string) {
    IsManaged(s, a) && exists k :: 0 <= k < |PeersOf(s, a)| && PeersOf(s, a)[k].name == b
  }

  ghost predicate IsPath(s: AgentSet, path: seq<string>) {
    path != [] && forall i :: 0 < i < |path| ==> Edge(s, path[i - 1], path[i])
  }

  ghost predicate Reachable(s: AgentSet, a: string, b: string) {
    exists path :: IsPath(s, path) && path[0] == a && path[|path| - 1] == b
  }

  /** The peers from Others are the managed agents other than self, each once. */
  lemma {:induction false} OthersMembers(agents: seq<Agent>, self: string)
    ensures forall k :: 0 <= k < |Others(agents, self)| ==>
              Others(agents, self)[k].name != self
              && exists i :: 0 <= i < |agents| && Others(agents, self)[k] == ManagedPeer(agents[i])
    ensures forall i :: 0 <= i < |agents| && agents[i].name != self ==> ManagedPeer(agents[i]) in Others(agents, self)
  {
    if agents != [] {
      var n := |agents| - 1;
      OthersMembers(agents[..n], self);
      forall k | 0 <= k < |Others(agents, self)|
        ensures Others(agents, self)[k].name != self
        ensures exists i :: 0 <= i < |agents| && Others(agents, self)[k] == ManagedPeer(agents[i])
      {
        if k < |Others(agents[..n], self)| {
          var i :| 0 <= i < n && Others(agents[..n], self)[k] == ManagedPeer(agents[..n][i]);
          assert Others(agents, self)[k] == ManagedPeer(agents[i]);
        } else {
          assert Others(agents, self)[k] == ManagedPeer(agents[n]);
        }
      }
    }
  }

  ghost predicate DistinctNames(ps: seq<Peer<string>>) {
    forall j, k :: 0 <= j < k < |ps| ==> ps[j].name != ps[k].name
  }

  lemma {:induction false} OthersDistinct(agents: seq<Agent>, self: string)
    requires forall i, j :: 0 <= i < j < |agents| ==> agents[i].name != agents[j].name
    ensures DistinctNames(Others(agents, self))
  {
    if agents != [] {
      var n := |agents| - 1;
      OthersDistinct(agents[..n], self);
      OthersMembers(agents[..n], self);
    }
  }

  // ---------------------------------------------------------------- exactly who sees whom

  /** All agents as peers, managed ones first. */
  ghost function Everyone(s: AgentSet): (ps: seq<Peer<string>>)
    ensures |ps| == |s.agents| + |s.externals|
    ensures forall i :: 0 <= i < |s.agents| ==> ps[i] == Peer(s.agents[i].name, "Managed", "")
    ensures forall i :: 0 <= i < |s.externals| ==>
              ps[|s.agents| + i] == Peer(s.externals[i].name, "External", s.externals[i].url)
  {
    seq(|s.agents|, i requires 0 <= i < |s.agents| => ManagedPeer(s.agents[i])) + Externals(s.externals)
  }

  lemma {:induction false} OthersConcat(a: seq<Agent>, b: seq<Agent>, self: string)
    ensures Others(a + b, self) == Others(a, self) + Others(b, self)
  {
    if b == [] {
      assert a + b == a;
    } else {
      var b' := b[..|b| - 1];
      OthersConcat(a, b', self);
      assert (a + b)[..|a + b| - 1] == a + b';
    }
  }

  lemma {:induction false} OthersAll(agents: seq<Agent>, self: string)
    requires forall i :: 0 <= i < |agents| ==> agents[i].name != self
    ensures |Others(agents, self)| == |agents|
    ensures forall i :: 0 <= i < |agents| ==> Others(agents, self)[i] == ManagedPeer(agents[i])
  {
    if agents != [] {
      OthersAll(agents[..|agents| - 1], self);
    }
  }

  /** Everybody but the agent at position i, in order. */
  ghost function AllBut(s: AgentSet, i: nat): seq<Peer<string>>
    requires i < |s.agents|
  {
    Everyone(s)[..i] + Everyone(s)[i + 1..]
  }

  lemma {:induction false} OthersBut(agents: seq<Agent>, i: nat)
    requires i < |agents| && forall j :: 0 <= j < |agents| && j != i ==> agents[j].name != agents[i].name
    ensures var ps := Others(agents, agents[i].name);
            && |ps| == |agents| - 1
            && (forall k :: 0 <= k < i ==> ps[k] == ManagedPeer(agents[k]))
            && forall k :: i < k < |agents| ==> ps[k - 1] == ManagedPeer(agents[k])
  {
    hide Others;
    var self, before, after := agents[i].name, agents[..i], agents[i + 1..];
    assert agents == before + [agents[i]] + after;
    OthersConcat(before + [agents[i]], after, self);
    OthersConcat(before, [agents[i]], self);
    OthersNone(agents[i]);
    OthersAll(before, self);
    OthersAll(after, self);
    var ps := Others(before, self) + Others(after, self);
    assert Others(agents, self) == ps;
    forall k | i < k < |agents|
      ensures ps[k - 1] == ManagedPeer(agents[k])
    {
      assert agents[k] == after[k - i - 1];
    }
  }

  lemma {:induction false} EveryoneElse(s: AgentSet, i: nat)
    requires Distinct(Names(s)) && i < |s.agents|
    ensures Others(s.agents, s.agents[i].name) + Externals(s.externals) == AllBut(s, i)
  {
    hide Names, Others, Everyone, Externals, Distinct;
    UniqueNames(s);
    OthersBut(s.agents, i);
    var ps, all, n := Others(s.agents, s.agents[i].name) + Externals(s.externals), Everyone(s), |s.agents|;
    forall k | 0 <= k < |ps|
      ensures ps[k] == AllBut(s, i)[k]
    {
      if i <= k < n - 1 {
        assert ps[k] == ManagedPeer(s.agents[k + 1]);
      } else if n - 1 <= k {
        assert all[n + (k - n + 1)] == ExternalPeer(s.externals[k - n + 1]);
      }
    }
  }

  lemma OthersNone(a: Agent)
    ensures Others([a], a.name) == []
  {
    assert [a][..0] == [];
  }

  /**
   In an accepted AgentSet, exactly these peers, in this order and with these kinds and URLs: under Handoff every
   agent sees everybody else; under Supervisor the entry does and nobody else sees anybody; under Sequential each
   agent sees the next one.
   */
  lemma {:induction false} PeersExactly(s: AgentSet, checks: Checks, i: nat)
    requires Valid(s, checks) && i < |s.agents|
    ensures s.pattern == "Handoff" ==> PeersOf(s, s.agents[i].name) == AllBut(s, i)
    ensures s.pattern == "Supervisor" ==>
              PeersOf(s, s.agents[i].name) == if s.agents[i].name == s.entry then AllBut(s, i) else []
    ensures s.pattern == "Sequential" ==>
              PeersOf(s, s.agents[i].name) == if i + 1 < |Everyone(s)| then [Everyone(s)[i + 1]] else []
  {
    hide Valid, Others, Distinct, IsManaged;
    ValidNames(s, checks);
    EveryoneElse(s, i);
    IndexOfUnique(s, i);
  }

  lemma {:induction false} IndexOfUnique(s: AgentSet, i: nat)
    requires Distinct(Names(s)) && i < |s.agents|
    ensures IndexOf(s.agents, s.agents[i].name) == i
  {
    UniqueNames(s);
  }

  /** Under Handoff every managed agent may call everybody else; under Supervisor only the entry may. */
  lemma {:induction false} EdgeIff(s: AgentSet, checks: Checks, a: string, b: string)
    requires Valid(s, checks)
    ensures s.pattern == "Handoff" ==> (Edge(s, a, b) <==> IsManaged(s, a) && b in Names(s) && a != b)
    ensures s.pattern == "Supervisor" ==>
              (Edge(s, a, b) <==> IsManaged(s, a) && b in Names(s) && a != b && a == s.entry)
  {
    hide Valid, PeersOf, Names;
    ValidNames(s, checks);
    if i :| 0 <= i < |s.agents| && s.agents[i].name == a {
      PeersExactly(s, checks, i);
      AllButNames(s, i, b);
    }
  }

  lemma {:induction false} AllButNames(s: AgentSet, i: nat, b: string)
    requires Distinct(Names(s)) && i < |s.agents|
    ensures (exists k :: 0 <= k < |AllBut(s, i)| && AllBut(s, i)[k].name == b)
            <==> b in Names(s) && b != s.agents[i].name
  {
    hide Names, Everyone, Distinct;
    EveryoneNames(s);
    NameAt(s, i);
    if k :| 0 <= k < |AllBut(s, i)| && AllBut(s, i)[k].name == b {
      var j := if k < i then k else k + 1;
      assert Names(s)[j] == b;
      DistinctAt(Names(s), i, j);
    }
    if b in Names(s) && b != s.agents[i].name {
      var j :| 0 <= j < |Names(s)| && Names(s)[j] == b;
      assert AllBut(s, i)[if j < i then j else j - 1].name == b;
    }
  }

  lemma DistinctAt(names: seq<string>, i: nat, j: nat)
    requires Distinct(names) && i < |names| && j < |names| && i != j
    ensures names[i] != names[j]
  {
  }

  lemma {:induction false} EveryoneNames(s: AgentSet)
    ensures |Everyone(s)| == |Names(s)|
    ensures forall j :: 0 <= j < |Names(s)| ==> Everyone(s)[j].name == Names(s)[j]
  {
    forall j | 0 <= j < |Names(s)|
      ensures Everyone(s)[j].name == Names(s)[j]
    {
      if j >= |s.agents| {
        var k := j - |s.agents|;
        assert Everyone(s)[|s.agents| + k].name == s.externals[k].name == Names(s)[|s.agents| + k];
      }
    }
  }

  /** Names are unique across managed and external agents. */
  lemma {:induction false} UniqueNames(s: AgentSet)
    requires Distinct(Names(s))
    ensures forall i, j :: 0 <= i < j < |s.agents| ==> s.agents[i].name != s.agents[j].name
    ensures forall i, j :: 0 <= i < j < |s.externals| ==> s.externals[i].name != s.externals[j].name
    ensures forall i, j :: 0 <= i < |s.agents| && 0 <= j < |s.externals| ==> s.agents[i].name != s.externals[j].name
  {
    var names, m := Names(s), |s.agents|;
    forall i, j | 0 <= i < j < m
      ensures s.agents[i].name != s.agents[j].name
    {
      assert names[i] != names[j];
    }
    forall i, j | 0 <= i < j < |s.externals|
      ensures s.externals[i].name != s.externals[j].name
    {
      assert names[m + i] != names[m + j];
    }
    forall i, j | 0 <= i < m && 0 <= j < |s.externals|
      ensures s.agents[i].name != s.externals[j].name
    {
      assert names[i] != names[m + j];
    }
  }

  /** With everyone as peers: no agent sees itself or the same agent twice. */
  lemma {:induction false} EveryoneIsSimple(s: AgentSet, a: string)
    requires Distinct(Names(s)) && IsManaged(s, a)
    ensures var ps := Others(s.agents, a) + Externals(s.externals);
            DistinctNames(ps) && forall k :: 0 <= k < |ps| ==> ps[k].name != a
  {
    var others, externals := Others(s.agents, a), Externals(s.externals);
    UniqueNames(s);
    OthersDistinct(s.agents, a);
    OthersMembers(s.agents, a);
    forall j, k | 0 <= j < |others| && 0 <= k < |externals|
      ensures others[j].name != externals[k].name
    {
      var i :| 0 <= i < |s.agents| && others[j] == ManagedPeer(s.agents[i]);
    }
  }

  lemma {:induction false} SuccessorIsOther(s: AgentSet, a: string)
    requires Distinct(Names(s)) && IsManaged(s, a)
    ensures forall k :: 0 <= k < |Successor(s.agents, s.externals, a)| ==>
              Successor(s.agents, s.externals, a)[k].name != a
  {
    UniqueNames(s);
    var i := IndexOf(s.agents, a);
    assert i < |s.agents|;
  }

  /** In an accepted AgentSet no agent is its own peer, and none is a peer twice. */
  lemma {:induction false} PeersAreSimple(s: AgentSet, checks: Checks, a: string)
    requires Valid(s, checks) && IsManaged(s, a)
    ensures DistinctNames(PeersOf(s, a)) && !Edge(s, a, a)
    ensures s.pattern == SEQUENTIAL ==> |PeersOf(s, a)| <= 1
  {
    hide Valid, Others, Externals, IsManaged;
    assert Distinct(Names(s)) by { ValidNames(s, checks); }
    EveryoneIsSimple(s, a);
    SuccessorIsOther(s, a);
  }

  lemma ValidNames(s: AgentSet, checks: Checks)
    requires Valid(s, checks)
    ensures Distinct(Names(s)) && IsManaged(s, s.entry) && PatternOk(s) && s.agents != []
  {
  }

  /** One step from an agent that sees everyone. */
  lemma {:induction false} SeesEveryone(s: AgentSet, a: string, k: nat)
    requires IsManaged(s, a) && PeersOf(s, a) == Others(s.agents, a) + Externals(s.externals)
    requires k < |Names(s)| && Names(s)[k] != a
    ensures Edge(s, a, Names(s)[k])
  {
    var others, externals, ps := Others(s.agents, a), Externals(s.externals), PeersOf(s, a);
    if k < |s.agents| {
      OthersMembers(s.agents, a);
      var j :| 0 <= j < |others| && others[j] == ManagedPeer(s.agents[k]);
      assert ps[j].name == Names(s)[k];
    } else {
      var j := k - |s.agents|;
      assert Names(s)[|s.agents| + j] == s.externals[j].name;
      assert ps[|others| + j] == ExternalPeer(s.externals[j]);
    }
  }

  /** In a chain each name is followed by the next. */
  lemma {:induction false} ChainEdge(s: AgentSet, k: nat)
    requires Distinct(Names(s)) && s.pattern == SEQUENTIAL && |s.externals| <= 1 && k + 1 < |Names(s)|
    ensures Edge(s, Names(s)[k], Names(s)[k + 1])
  {
    UniqueNames(s);
    var a := Names(s)[k];
    assert a == s.agents[k].name;
    assert IndexOf(s.agents, a) == k;
    var ps := PeersOf(s, a);
    assert |ps| == 1;
    if k + 1 == |s.agents| {
      assert Names(s)[|s.agents| + 0] == s.externals[0].name;
    }
    assert ps[0].name == Names(s)[k + 1];
  }

  lemma {:induction false} ChainPath(s: AgentSet, k: nat)
    requires Distinct(Names(s)) && s.pattern == SEQUENTIAL && |s.externals| <= 1 && k < |Names(s)|
    ensures IsPath(s, Names(s)[..k + 1])
  {
    hide Edge, Names;
    var path := Names(s)[..k + 1];
    forall i | 0 < i < |path|
      ensures Edge(s, path[i - 1], path[i])
    {
      ChainEdge(s, i - 1);
    }
  }

  lemma {:induction false} OneStep(s: AgentSet, a: string, b: string)
    requires a == b || Edge(s, a, b)
    ensures Reachable(s, a, b)
  {
    hide Edge;
    var path := if a == b then [a] else [a, b];
    assert IsPath(s, path) && path[0] == a && path[|path| - 1] == b;
  }

  lemma {:induction false} ChainReaches(s: AgentSet, k: nat)
    requires Distinct(Names(s)) && s.pattern == SEQUENTIAL && |s.externals| <= 1 && k < |Names(s)|
    ensures Reachable(s, Names(s)[0], Names(s)[k])
  {
    hide IsPath, Names;
    ChainPath(s, k);
    var path := Names(s)[..k + 1];
    assert IsPath(s, path) && path[0] == Names(s)[0] && path[|path| - 1] == Names(s)[k];
  }

  lemma EntryPeers(s: AgentSet)
    requires s.pattern == SUPERVISOR || s.pattern == HANDOFF
    ensures PeersOf(s, s.entry) == Others(s.agents, s.entry) + Externals(s.externals)
  {
  }

  /** In an accepted AgentSet every managed and external agent can be reached from the entry. */
  lemma {:induction false} AllReachable(s: AgentSet, checks: Checks, k: nat)
    requires Valid(s, checks) && k < |Names(s)|
    ensures Reachable(s, s.entry, Names(s)[k])
  {
    hide Valid, Edge, IsManaged, PeersOf, Reachable, Distinct;
    ValidNames(s, checks);
    if s.pattern == SEQUENTIAL {
      ChainReaches(s, k);
    } else {
      EntryPeers(s);
      if Names(s)[k] != s.entry {
        SeesEveryone(s, s.entry, k);
      }
      OneStep(s, s.entry, Names(s)[k]);
    }
  }

  /** The place of a name in the chain; an edge of a chain leads one place further. */
  lemma {:induction false} ChainOnlyForward(s: AgentSet, a: string, b: string) returns (i: nat)
    requires Distinct(Names(s)) && s.pattern == SEQUENTIAL && |s.externals| <= 1 && Edge(s, a, b)
    ensures i + 1 < |Names(s)| && Names(s)[i] == a && Names(s)[i + 1] == b
  {
    UniqueNames(s);
    i := IndexOf(s.agents, a);
    assert i < |s.agents|;
    if i + 1 == |s.agents| {
      assert Names(s)[|s.agents| + 0] == s.externals[0].name;
    }
  }

  lemma {:induction false} ChainPositions(s: AgentSet, path: seq<string>) returns (i: nat)
    requires Distinct(Names(s)) && s.pattern == SEQUENTIAL && |s.externals| <= 1 && IsPath(s, path) && |path| >= 2
    ensures i + |path| <= |Names(s)| && path == Names(s)[i..i + |path|]
  {
    hide Edge, Names;
    var n := |path| - 1;
    var j := ChainOnlyForward(s, path[n - 1], path[n]);
    if n == 1 {
      i := j;
      assert path == [path[0], path[1]];
    } else {
      i := ChainPositions(s, path[..n]);
      assert path[..n][n - 1] == Names(s)[i + n - 1];
      assert j == i + n - 1;
      assert path == path[..n] + [path[n]];
    }
  }

  /** An accepted Sequential AgentSet is acyclic: no path comes back to a name it has visited. */
  lemma {:induction false} SequentialIsAcyclic(s: AgentSet, checks: Checks, path: seq<string>)
    requires Valid(s, checks) && s.pattern == SEQUENTIAL && IsPath(s, path)
    ensures Distinct(path)
  {
    hide Valid, Edge, Names;
    ValidNames(s, checks);
    if |path| >= 2 {
      var i := ChainPositions(s, path);
    }
  }
}
