/** Compiling a flow's policy: two nested depth-first searches that share what they visited. */
module PolicyCompile {
  import opened Wrappers
  import opened Order
  import opened Listing
  import opened Policy

  /** What the searches gather. */
  class Collector {
    const reg: Registry
    var phaseTools: map<Id, set<Id>>
    var toolIds: set<Id>
    var visitedFlows: set<Id>
    var visitedPhases: set<Id>

    constructor (registry: Registry)
      ensures reg == registry && visitedFlows == {} && visitedPhases == {} && Valid()
    {
      reg := registry;
      phaseTools, toolIds, visitedFlows, visitedPhases := map[], {}, {}, {};
    }

    /** Between two calls every visited phase is recorded with all its tools. */
    ghost predicate Valid()
      reads this
    {
      && visitedPhases <= reg.phases.Keys && visitedFlows <= reg.flows.Keys
      && phaseTools.Keys == visitedPhases
      && (forall p | p in visitedPhases :: phaseTools[p] == PhaseTools(reg, p))
      && toolIds == ToolsOf(reg, visitedPhases)
    }

    /** Visits a phase, and its descendants that were not visited yet: what is new is reachable
        from the phase, and all children of what is new were visited. */
    method CollectPhase(phase: Id)
      requires Valid() && Resolved(reg) && phase in reg.phases
      modifies this
      ensures Valid() && visitedFlows == old(visitedFlows)
      ensures old(visitedPhases) <= visitedPhases && phase in visitedPhases
      ensures forall p | p in visitedPhases - old(visitedPhases) ::
                Reaches(PhaseGraph(reg), phase, p) && PhaseGraph(reg)[p] <= visitedPhases
      decreases reg.phases.Keys - visitedPhases
    {
      ReachesSelf(PhaseGraph(reg), phase);
      if phase in visitedPhases { return; }
      visitedPhases := visitedPhases + {phase};
      CollectTools(phase);
      var children := reg.phases[phase].phaseRefs;
      for i := 0 to |children|
        invariant Valid() && visitedFlows == old(visitedFlows)
        invariant old(visitedPhases) + {phase} <= visitedPhases
        invariant forall p | p in visitedPhases - old(visitedPhases) :: Reaches(PhaseGraph(reg), phase, p)
        invariant forall p | p in visitedPhases - old(visitedPhases) && p != phase :: PhaseGraph(reg)[p] <= visitedPhases
        invariant Targets(reg.phases, reg.phaseNames, children[..i]) <= visitedPhases
      {
        var child := Resolve(reg.phases, reg.phaseNames, children[i]).value;
        ghost var before := visitedPhases;
        CollectPhase(child);
        TargetsStep(reg.phases, reg.phaseNames, children, i);
        forall p | p in visitedPhases - before ensures Reaches(PhaseGraph(reg), phase, p) {
          ReachesThrough(PhaseGraph(reg), phase, child, p);
        }
      }
      assert children[..|children|] == children;
    }

    /** Records a phase just marked as visited with its tools. */
    method CollectTools(phase: Id)
      requires Resolved(reg) && phase in visitedPhases && phase in reg.phases
      requires visitedPhases <= reg.phases.Keys && visitedFlows <= reg.flows.Keys
      requires phaseTools.Keys == visitedPhases - {phase}
      requires forall p | p in phaseTools :: phaseTools[p] == PhaseTools(reg, p)
      requires toolIds == ToolsOf(reg, visitedPhases - {phase})
      modifies this
      ensures Valid() && visitedPhases == old(visitedPhases) && visitedFlows == old(visitedFlows)
    {
      var scoped: set<Id> := {};
      var references := reg.phases[phase].toolRefs;
      for i := 0 to |references|
        invariant visitedPhases == old(visitedPhases) && visitedFlows == old(visitedFlows) && phaseTools == old(phaseTools)
        invariant scoped == Targets(reg.tools, reg.toolNames, references[..i])
        invariant toolIds == old(toolIds) + scoped
      {
        var tool := Resolve(reg.tools, reg.toolNames, references[i]).value;
        TargetsStep(reg.tools, reg.toolNames, references, i);
        scoped := scoped + {tool};
        toolIds := toolIds + {tool};
      }
      assert references[..|references|] == references;
      ToolsOfStep(reg, visitedPhases, phase);
      phaseTools := phaseTools[phase := scoped];
    }

    /** The recorded phases in order, each with its tools in order. */
    method Scopes() returns (scopes: seq<PhaseScope>)
      requires Valid()
      ensures forall i | 0 <= i < |InOrder(visitedPhases)| :: InOrder(visitedPhases)[i] in reg.phases
      ensures scopes == ScopeEntries(reg, InOrder(visitedPhases))
    {
      var phases := InOrder(phaseTools.Keys);
      InOrderHolds(visitedPhases);
      scopes := [];
      for i := 0 to |phases|
        invariant forall k | 0 <= k < i :: phases[k] in reg.phases
        invariant scopes == ScopeEntries(reg, phases[..i])
      {
        assert phases[i] in phases;
        assert phases[..i + 1] == phases[..i] + [phases[i]];
        scopes := scopes + [PhaseScope(phases[i], InOrder(phaseTools[phases[i]]))];
      }
      assert phases[..|phases|] == phases;
    }

    /** Visits the phases of a flow. */
    method CollectFlowPhases(flow: Id)
      requires Valid() && Resolved(reg) && flow in reg.flows
      modifies this
      ensures Valid() && visitedFlows == old(visitedFlows) && old(visitedPhases) <= visitedPhases
      ensures FlowPhases(reg, flow) <= visitedPhases
      ensures forall p | p in visitedPhases - old(visitedPhases) ::
                InScope(reg, flow, p) && PhaseGraph(reg)[p] <= visitedPhases
    {
      var phases := reg.flows[flow].phaseRefs;
      for i := 0 to |phases|
        invariant Valid() && visitedFlows == old(visitedFlows) && old(visitedPhases) <= visitedPhases
        invariant forall p | p in visitedPhases - old(visitedPhases) ::
                    InScope(reg, flow, p) && PhaseGraph(reg)[p] <= visitedPhases
        invariant Targets(reg.phases, reg.phaseNames, phases[..i]) <= visitedPhases
      {
        var phase := Resolve(reg.phases, reg.phaseNames, phases[i]).value;
        ghost var before := visitedPhases;
        CollectPhase(phase);
        TargetsStep(reg.phases, reg.phaseNames, phases, i);
        forall p | p in visitedPhases - before ensures InScope(reg, flow, p) {
          OwnPhaseInScope(reg, flow, phase, p);
        }
      }
      assert phases[..|phases|] == phases;
    }

    /** Visits a flow's phases and subflows that were not visited yet. */
    method CollectFlow(flow: Id)
      requires Valid() && Resolved(reg) && flow in reg.flows
      modifies this
      ensures Valid()
      ensures old(visitedFlows) <= visitedFlows && flow in visitedFlows && old(visitedPhases) <= visitedPhases
      ensures forall f | f in visitedFlows - old(visitedFlows) ::
                FlowGraph(reg)[f] <= visitedFlows && FlowPhases(reg, f) <= visitedPhases
      ensures forall p | p in visitedPhases - old(visitedPhases) ::
                InScope(reg, flow, p) && PhaseGraph(reg)[p] <= visitedPhases
      decreases reg.flows.Keys - visitedFlows
    {
      if flow in visitedFlows { return; }
      visitedFlows := visitedFlows + {flow};
      CollectFlowPhases(flow);
      var subflows := reg.flows[flow].subflowRefs;
      for i := 0 to |subflows|
        invariant Valid() && old(visitedFlows) + {flow} <= visitedFlows && old(visitedPhases) <= visitedPhases
        invariant FlowPhases(reg, flow) <= visitedPhases
        invariant forall f | f in visitedFlows - old(visitedFlows) && f != flow ::
                    FlowGraph(reg)[f] <= visitedFlows && FlowPhases(reg, f) <= visitedPhases
        invariant forall p | p in visitedPhases - old(visitedPhases) ::
                    InScope(reg, flow, p) && PhaseGraph(reg)[p] <= visitedPhases
        invariant Targets(reg.flows, reg.flowNames, subflows[..i]) <= visitedFlows
      {
        var subflow := Resolve(reg.flows, reg.flowNames, subflows[i]).value;
        ghost var before := visitedPhases;
        CollectFlow(subflow);
        TargetsStep(reg.flows, reg.flowNames, subflows, i);
        forall p | p in visitedPhases - before ensures InScope(reg, flow, p) {
          SubflowPhaseInScope(reg, flow, subflow, p);
        }
      }
      assert subflows[..|subflows|] == subflows;
    }
  }

  lemma TargetsStep<T>(blocks: map<Id, T>, names: map<string, Id>, references: seq<string>, i: nat)
    requires i < |references| && AllResolve(blocks, names, references)
    ensures Resolve(blocks, names, references[i]).Some?
    ensures Targets(blocks, names, references[..i + 1]) ==
            Targets(blocks, names, references[..i]) + {Resolve(blocks, names, references[i]).value}
    ensures Resolve(blocks, names, references[i]).value in Targets(blocks, names, references)
  {
    assert references[..i + 1] == references[..i] + [references[i]];
  }

  lemma ToolsOfStep(reg: Registry, phases: set<Id>, phase: Id)
    requires phase in phases && phase in reg.phases
    ensures ToolsOf(reg, phases) == ToolsOf(reg, phases - {phase}) + PhaseTools(reg, phase)
  {
  }

  lemma OwnPhaseInScope(reg: Registry, flow: Id, phase: Id, p: Id)
    requires flow in reg.flows && phase in FlowPhases(reg, flow) && Reaches(PhaseGraph(reg), phase, p)
    ensures InScope(reg, flow, p)
  {
    ReachesSelf(FlowGraph(reg), flow);
  }

  lemma SubflowPhaseInScope(reg: Registry, flow: Id, subflow: Id, p: Id)
    requires flow in reg.flows && subflow in FlowGraph(reg)[flow] && InScope(reg, subflow, p)
    ensures InScope(reg, flow, p)
  {
    var f, q :| Reaches(FlowGraph(reg), subflow, f) && f in reg.flows && q in FlowPhases(reg, f) &&
                Reaches(PhaseGraph(reg), q, p);
    ReachesThrough(FlowGraph(reg), flow, subflow, f);
  }

  /** A search from nothing that leaves nothing undone visited exactly the scope. */
  lemma VisitedIsScope(reg: Registry, flow: Id, flows: set<Id>, phases: set<Id>)
    requires flow in flows && flows <= reg.flows.Keys && phases <= reg.phases.Keys
    requires forall f | f in flows :: FlowGraph(reg)[f] <= flows && FlowPhases(reg, f) <= phases
    requires forall p | p in phases :: InScope(reg, flow, p) && PhaseGraph(reg)[p] <= phases
    ensures phases == Scope(reg, flow)
  {
    forall p | p in Scope(reg, flow) ensures p in phases {
      var f, q :| Reaches(FlowGraph(reg), flow, f) && f in reg.flows && q in FlowPhases(reg, f) &&
                  Reaches(PhaseGraph(reg), q, p);
      var m: nat :| InSteps(FlowGraph(reg), flow, f, m);
      ClosedHoldsReached(FlowGraph(reg), flows, flow, f, m);
      var n: nat :| InSteps(PhaseGraph(reg), q, p, n);
      ClosedHoldsReached(PhaseGraph(reg), phases, q, p, n);
    }
  }

  // ----- the artifact -----

  datatype Error = MissingFlow(reference: string) | InvalidArtifact

  /** The command of a tool, none if its command does not suit its kind or is not trusted. */
  function CommandOf(id: Id, tool: Tool): Option<Command> {
    match (tool.kind, tool.command)
    case (PredefinedCommand, Predefined(commandId, argv)) =>
      if IsTrusted(commandId)
      then Some(Command(tool.parameters, argv, commandId, [], "registry:" + commandId, false, id, tool.kind))
      else None
    case (OwnScript, Script(commandId)) =>
      Some(Command(tool.parameters, [], commandId, [], OWN_SCRIPT_RUNNER_POSIX_SH, true, id, tool.kind))
    case _ => None
  }

  predicate AllCommands(reg: Registry, ids: seq<Id>) {
    forall i | 0 <= i < |ids| :: ids[i] in reg.tools && CommandOf(ids[i], reg.tools[ids[i]]).Some?
  }

  function Commands(reg: Registry, ids: seq<Id>): seq<Command>
    requires AllCommands(reg, ids)
  {
    seq(|ids|, i requires 0 <= i < |ids| => CommandOf(ids[i], reg.tools[ids[i]]).value)
  }

  function ScopeEntries(reg: Registry, ids: seq<Id>): seq<PhaseScope>
    requires forall i | 0 <= i < |ids| :: ids[i] in reg.phases
  {
    seq(|ids|, i requires 0 <= i < |ids| => PhaseScope(ids[i], InOrder(PhaseTools(reg, ids[i]))))
  }

  function Timeout(flow: Flow): nat {
    if |flow.phaseRefs| > 1 || flow.subflowRefs != [] then 60_000 else 30_000
  }

  lemma ScopeExists(reg: Registry, flow: Id)
    ensures forall i | 0 <= i < |InOrder(Scope(reg, flow))| :: InOrder(Scope(reg, flow))[i] in reg.phases
  {
    InOrderHolds(Scope(reg, flow));
    forall i | 0 <= i < |InOrder(Scope(reg, flow))| ensures InOrder(Scope(reg, flow))[i] in reg.phases {
      assert InOrder(Scope(reg, flow))[i] in InOrder(Scope(reg, flow));
    }
  }

  /** The artifact of a flow, from reachability alone. */
  ghost function Compiled(reg: Registry, flow: Id): Artifact
    requires flow in reg.flows && AllCommands(reg, InOrder(ToolsOf(reg, Scope(reg, flow))))
  {
    ScopeExists(reg, flow);
    Artifact(Commands(reg, InOrder(ToolsOf(reg, Scope(reg, flow)))),
             ScopeEntries(reg, InOrder(Scope(reg, flow))), POLICY_VERSION_V0, true,
             Timeout(reg.flows[flow]), flow)
  }

  /** Whether every tool in scope can be turned into a command that `accepts` passes. */
  ghost predicate Compilable(reg: Registry, flow: Id, accepts: Command -> bool) {
    forall t | t in ToolsOf(reg, Scope(reg, flow)) ::
      t in reg.tools && CommandOf(t, reg.tools[t]).Some? && accepts(CommandOf(t, reg.tools[t]).value)
  }

  // ----- what a command carries of its tool -----

  /** The tool names one of the three trusted commands, or is a script of its own. */
  predicate Runnable(tool: Tool) {
    || (tool.kind.PredefinedCommand? && tool.command.Predefined?
        && tool.command.commandId in {"agent-echo", "agent-negative", "agent-read"})
    || (tool.kind.OwnScript? && tool.command.Script?)
  }

  /** The command is what the registry says of its tool, with no environment to see. */
  predicate Carries(c: Command, id: Id, tool: Tool) {
    && c.toolId == id && c.kind == tool.kind && c.parameters == tool.parameters && c.environment == []
    && match tool.command
       case Predefined(commandId, argv) =>
         c.commandId == commandId && c.argv == argv && c.executable == "registry:" + commandId && !c.script
       case Script(scriptId) =>
         c.commandId == scriptId && c.argv == [] && c.executable == "runner:posix-sh" && c.script
  }

  /** Every tool in scope can be run, and what it would run with is accepted. */
  ghost predicate Permitted(reg: Registry, flow: Id, accepts: Command -> bool) {
    forall t | t in ToolsOf(reg, Scope(reg, flow)) ::
      t in reg.tools && Runnable(reg.tools[t]) && forall c | Carries(c, t, reg.tools[t]) :: accepts(c)
  }

  ghost predicate CarriesAll(reg: Registry, ids: seq<Id>, commands: seq<Command>) {
    |commands| == |ids| && forall i | 0 <= i < |ids| :: ids[i] in reg.tools && Carries(commands[i], ids[i], reg.tools[ids[i]])
  }

  /** A tool has a command exactly if it can be run; there is one that carries what the tool says. */
  lemma CommandCarries(id: Id, tool: Tool)
    ensures CommandOf(id, tool).Some? <==> Runnable(tool)
    ensures Runnable(tool) ==> forall c :: Carries(c, id, tool) <==> c == CommandOf(id, tool).value
  {
  }

  lemma CompilableIsPermitted(reg: Registry, flow: Id, accepts: Command -> bool)
    ensures Compilable(reg, flow, accepts) <==> Permitted(reg, flow, accepts)
  {
    forall t | t in ToolsOf(reg, Scope(reg, flow)) && t in reg.tools
      ensures CommandOf(t, reg.tools[t]).Some? && accepts(CommandOf(t, reg.tools[t]).value) <==>
              Runnable(reg.tools[t]) && forall c | Carries(c, t, reg.tools[t]) :: accepts(c)
    {
      CommandCarries(t, reg.tools[t]);
      if Runnable(reg.tools[t]) {
        assert Carries(CommandOf(t, reg.tools[t]).value, t, reg.tools[t]);
      }
    }
  }

  lemma CommandsCarry(reg: Registry, ids: seq<Id>)
    requires AllCommands(reg, ids)
    ensures CarriesAll(reg, ids, Commands(reg, ids))
  {
    forall i | 0 <= i < |ids|
      ensures Carries(Commands(reg, ids)[i], ids[i], reg.tools[ids[i]])
    {
      CommandCarries(ids[i], reg.tools[ids[i]]);
    }
  }

  /** The phases in scope, each once and in order, and each with exactly its tools in order. */
  ghost predicate ScopesExactly(reg: Registry, flow: Id, scopes: seq<PhaseScope>) {
    && (forall i, j | 0 <= i < j < |scopes| :: Less(scopes[i].phaseId, scopes[j].phaseId))
    && (forall p :: InScope(reg, flow, p) && p in reg.phases <==> exists i | 0 <= i < |scopes| :: scopes[i].phaseId == p)
    && (forall i | 0 <= i < |scopes| :: ToolsExactly(reg, scopes[i]))
  }

  ghost predicate ToolsExactly(reg: Registry, s: PhaseScope) {
    s.phaseId in reg.phases && Increasing(s.toolIds) && forall t :: t in s.toolIds <==> t in PhaseTools(reg, s.phaseId)
  }

  lemma EntriesAreScope(reg: Registry, flow: Id)
    ensures forall i | 0 <= i < |InOrder(Scope(reg, flow))| :: InOrder(Scope(reg, flow))[i] in reg.phases
    ensures ScopesExactly(reg, flow, ScopeEntries(reg, InOrder(Scope(reg, flow))))
  {
    ScopeExists(reg, flow);
    var order := InOrder(Scope(reg, flow));
    var scopes := ScopeEntries(reg, order);
    InOrderHolds(Scope(reg, flow));
    assert forall i | 0 <= i < |scopes| :: scopes[i].phaseId == order[i];
    forall p
      ensures InScope(reg, flow, p) && p in reg.phases <==> exists i | 0 <= i < |scopes| :: scopes[i].phaseId == p
    {
      assert p in order <==> p in Scope(reg, flow);
    }
    forall i | 0 <= i < |scopes|
      ensures ToolsExactly(reg, scopes[i])
    {
      InOrderHolds(PhaseTools(reg, order[i]));
    }
  }

  /** Compiles the policy of a flow. It succeeds exactly if the flow exists and every tool in its
      scope makes an acceptable command; the artifact is then what reachability says. */
  method Compile(reg: Registry, reference: string, accepts: Command -> bool) returns (r: Result<Artifact, Error>)
    requires Resolved(reg)
    ensures Resolve(reg.flows, reg.flowNames, reference).None? ==> r == Err(MissingFlow(reference))
    ensures Resolve(reg.flows, reg.flowNames, reference).Some? ==>
              var flow := Resolve(reg.flows, reg.flowNames, reference).value;
              if Compilable(reg, flow, accepts)
              then AllCommands(reg, InOrder(ToolsOf(reg, Scope(reg, flow)))) && r == Ok(Compiled(reg, flow))
              else r == Err(InvalidArtifact)
    ensures r.Ok? <==>
              && Resolve(reg.flows, reg.flowNames, reference).Some?
              && Permitted(reg, Resolve(reg.flows, reg.flowNames, reference).value, accepts)
    ensures r.Ok? ==>
              var flow := Resolve(reg.flows, reg.flowNames, reference).value;
              && r.value.sourceFlow == flow && r.value.policyVersion == "0" && r.value.headless
              && r.value.timeoutMs == (if |reg.flows[flow].phaseRefs| <= 1 && reg.flows[flow].subflowRefs == []
                                       then 30_000 else 60_000)
              && CarriesAll(reg, InOrder(ToolsOf(reg, Scope(reg, flow))), r.value.commands)
              && ScopesExactly(reg, flow, r.value.phaseScope)
  {
    var found := Resolve(reg.flows, reg.flowNames, reference);
    if found.None? { return Err(MissingFlow(reference)); }
    var flow := found.value;
    CompilableIsPermitted(reg, flow, accepts);
    var collector := new Collector(reg);
    collector.CollectFlow(flow);
    VisitedIsScope(reg, flow, collector.visitedFlows, collector.visitedPhases);
    var ids := InOrder(collector.toolIds);
    InOrderHolds(collector.toolIds);
    var commands := BuildCommands(reg, ids, collector.visitedPhases);
    if commands.None? { return Err(InvalidArtifact); }
    var scopes := collector.Scopes();
    var accepted := AcceptAll(commands.value, accepts);
    if !accepted {
      ghost var i :| 0 <= i < |ids| && !accepts(commands.value[i]);
      assert ids[i] in ids;
      return Err(InvalidArtifact);
    }
    AllAccepted(reg, flow, ids, accepts);
    CommandsCarry(reg, ids);
    EntriesAreScope(reg, flow);
    r := Ok(Artifact(commands.value, scopes, POLICY_VERSION_V0, true, Timeout(reg.flows[flow]), flow));
  }

  /** The commands of the collected tools, none as soon as a tool has none. */
  method BuildCommands(reg: Registry, ids: seq<Id>, ghost phases: set<Id>) returns (r: Option<seq<Command>>)
    requires forall id | id in ids :: id in ToolsOf(reg, phases)
    ensures r.Some? ==> AllCommands(reg, ids) && r.value == Commands(reg, ids)
    ensures r.None? ==> exists id :: id in ids && id in reg.tools && CommandOf(id, reg.tools[id]).None?
  {
    var commands: seq<Command> := [];
    for i := 0 to |ids|
      invariant AllCommands(reg, ids[..i]) && commands == Commands(reg, ids[..i])
    {
      ToolsExist(reg, phases, ids[i]);
      var command := CommandOf(ids[i], reg.tools[ids[i]]);
      if command.None? { return None; }
      assert ids[..i + 1] == ids[..i] + [ids[i]];
      commands := commands + [command.value];
    }
    assert ids[..|ids|] == ids;
    r := Some(commands);
  }

  method AcceptAll(commands: seq<Command>, accepts: Command -> bool) returns (ok: bool)
    ensures ok <==> forall k | 0 <= k < |commands| :: accepts(commands[k])
  {
    for i := 0 to |commands|
      invariant forall k | 0 <= k < i :: accepts(commands[k])
    {
      if !accepts(commands[i]) { return false; }
    }
    ok := true;
  }

  lemma ToolsExist(reg: Registry, phases: set<Id>, tool: Id)
    requires tool in ToolsOf(reg, phases)
    ensures tool in reg.tools
  {
  }

  lemma AllAccepted(reg: Registry, flow: Id, ids: seq<Id>, accepts: Command -> bool)
    requires ids == InOrder(ToolsOf(reg, Scope(reg, flow))) && AllCommands(reg, ids)
    requires forall k | 0 <= k < |ids| :: accepts(Commands(reg, ids)[k])
    ensures Compilable(reg, flow, accepts)
  {
    InOrderHolds(ToolsOf(reg, Scope(reg, flow)));
    forall t | t in ToolsOf(reg, Scope(reg, flow))
      ensures t in reg.tools && CommandOf(t, reg.tools[t]).Some? && accepts(CommandOf(t, reg.tools[t]).value)
    {
      var k :| 0 <= k < |ids| && ids[k] == t;
      assert accepts(Commands(reg, ids)[k]);
    }
  }
}
