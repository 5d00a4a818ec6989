/** The registry a policy is compiled from and the artifact it is compiled to. */
module Policy {
  import opened Wrappers
  import opened Order
  import opened Listing

  datatype ToolKind = PredefinedCommand | OwnScript

  datatype ToolCommand = Predefined(commandId: string, argv: seq<string>) | Script(scriptId: string)

  /** An allowed parameter; `shape` stands for its type, requirement, pattern and bounds. */
  datatype Parameter = Parameter(name: string, allowedValues: seq<string>, shape: string)

  datatype Tool = Tool(kind: ToolKind, command: ToolCommand, parameters: seq<Parameter>)

  datatype Phase = Phase(toolRefs: seq<string>, phaseRefs: seq<string>)

  datatype Flow = Flow(phaseRefs: seq<string>, subflowRefs: seq<string>)

  /** Blocks by id, and ids by the other names that refer to them. */
  datatype Registry = Registry(
    flows: map<Id, Flow>, phases: map<Id, Phase>, tools: map<Id, Tool>,
    flowNames: map<string, Id>, phaseNames: map<string, Id>, toolNames: map<string, Id>)

  datatype Command = Command(
    parameters: seq<Parameter>, argv: seq<string>, commandId: string, environment: seq<string>,
    executable: string, script: bool, toolId: Id, kind: ToolKind)

  datatype PhaseScope = PhaseScope(phaseId: Id, toolIds: seq<Id>)

  datatype Artifact = Artifact(
    commands: seq<Command>, phaseScope: seq<PhaseScope>, policyVersion: string, headless: bool,
    timeoutMs: nat, sourceFlow: Id)

  const POLICY_VERSION_V0: string := "0"
  const OWN_SCRIPT_RUNNER_POSIX_SH: string := "runner:posix-sh"

  predicate IsTrusted(commandId: string) {
    commandId == "agent-echo" || commandId == "agent-negative" || commandId == "agent-read"
  }

  // ----- references -----

  function Resolve<T>(blocks: map<Id, T>, names: map<string, Id>, reference: string): (r: Option<Id>)
    ensures r.Some? ==> r.value in blocks
    ensures reference in blocks ==> r == Some(reference)
  {
    if reference in blocks then Some(reference)
    else if reference in names && names[reference] in blocks then Some(names[reference])
    else None
  }

  predicate AllResolve<T>(blocks: map<Id, T>, names: map<string, Id>, references: seq<string>) {
    forall r | r in references :: Resolve(blocks, names, r).Some?
  }

  /** Every reference leads to a block, as a loaded registry ensures. */
  ghost predicate Resolved(reg: Registry) {
    && (forall p | p in reg.phases ::
          AllResolve(reg.tools, reg.toolNames, reg.phases[p].toolRefs) &&
          AllResolve(reg.phases, reg.phaseNames, reg.phases[p].phaseRefs))
    && (forall f | f in reg.flows ::
          AllResolve(reg.phases, reg.phaseNames, reg.flows[f].phaseRefs) &&
          AllResolve(reg.flows, reg.flowNames, reg.flows[f].subflowRefs))
  }

  function Targets<T>(blocks: map<Id, T>, names: map<string, Id>, references: seq<string>): set<Id> {
    set r | r in references && Resolve(blocks, names, r).Some? :: Resolve(blocks, names, r).value
  }

  function PhaseTools(reg: Registry, phase: Id): set<Id>
    requires phase in reg.phases
  {
    Targets(reg.tools, reg.toolNames, reg.phases[phase].toolRefs)
  }

  function FlowPhases(reg: Registry, flow: Id): set<Id>
    requires flow in reg.flows
  {
    Targets(reg.phases, reg.phaseNames, reg.flows[flow].phaseRefs)
  }

  type Graph = map<Id, set<Id>>

  function PhaseGraph(reg: Registry): Graph {
    map p | p in reg.phases :: Targets(reg.phases, reg.phaseNames, reg.phases[p].phaseRefs)
  }

  function FlowGraph(reg: Registry): Graph {
    map f | f in reg.flows :: Targets(reg.flows, reg.flowNames, reg.flows[f].subflowRefs)
  }

  // ----- reachability -----

  ghost predicate InSteps(g: Graph, a: Id, b: Id, steps: nat)
    decreases steps
  {
    if steps == 0 then a == b else a in g && exists c :: c in g[a] && InSteps(g, c, b, steps - 1)
  }

  ghost predicate Reaches(g: Graph, a: Id, b: Id) {
    exists steps: nat :: InSteps(g, a, b, steps)
  }

  lemma ReachesSelf(g: Graph, a: Id)
    ensures Reaches(g, a, a)
  {
    assert InSteps(g, a, a, 0);
  }

  lemma ReachesThrough(g: Graph, a: Id, c: Id, b: Id)
    requires a in g && c in g[a] && Reaches(g, c, b)
    ensures Reaches(g, a, b)
  {
    var steps: nat :| InSteps(g, c, b, steps);
    assert InSteps(g, a, b, steps + 1);
  }

  ghost predicate ClosedUnder(g: Graph, s: set<Id>) {
    forall a | a in s && a in g :: g[a] <= s
  }

  lemma {:induction false} ClosedHoldsReached(g: Graph, s: set<Id>, a: Id, b: Id, steps: nat)
    requires ClosedUnder(g, s) && a in s && InSteps(g, a, b, steps)
    ensures b in s
    decreases steps
  {
    if steps > 0 {
      var c :| c in g[a] && InSteps(g, c, b, steps - 1);
      ClosedHoldsReached(g, s, c, b, steps - 1);
    }
  }

  /** A phase that `flow` runs: itself or a descendant of a phase of a flow under it. */
  ghost predicate InScope(reg: Registry, flow: Id, phase: Id) {
    exists f, p :: Reaches(FlowGraph(reg), flow, f) && f in reg.flows && p in FlowPhases(reg, f) &&
                   Reaches(PhaseGraph(reg), p, phase)
  }

  ghost function Scope(reg: Registry, flow: Id): set<Id> {
    set phase | phase in reg.phases && InScope(reg, flow, phase)
  }

  /** The tools of all phases in a scope. */
  function ToolsOf(reg: Registry, phases: set<Id>): set<Id> {
    set p, t | p in phases && p in reg.phases && t in PhaseTools(reg, p) :: t
  }

  // ----- sets in order -----

  function Bare(s: set<string>): set<Keyed> {
    set x | x in s :: Keyed(x, "")
  }

  function Sorts(l: seq<Keyed>): seq<string> {
    seq(|l|, i requires 0 <= i < |l| => l[i].sort)
  }

  /** The elements of an ordered set. */
  function InOrder(s: set<string>): seq<string> {
    Sorts(Listed(Bare(s)))
  }

  predicate Increasing(s: seq<string>) {
    forall i, j | 0 <= i < j < |s| :: Less(s[i], s[j])
  }

  lemma InOrderHolds(s: set<string>)
    ensures Increasing(InOrder(s)) && forall x :: x in InOrder(s) <==> x in s
  {
    var l := Listed(Bare(s));
    ListedHolds(Bare(s));
    forall i | 0 <= i < |l| ensures l[i] in Bare(s) { assert l[i] in Elements(l); }
    forall x | x in s ensures x in InOrder(s) {
      assert Keyed(x, "") in Elements(l);
      var i :| 0 <= i < |l| && l[i] == Keyed(x, "");
      assert InOrder(s)[i] == x;
    }
    forall i, j | 0 <= i < j < |l| ensures Less(InOrder(s)[i], InOrder(s)[j]) {
      assert Precedes(l[i], l[j]) && l[i] in Bare(s) && l[j] in Bare(s);
      LessTotal(l[i].id, l[j].id);
    }
  }

  lemma IncreasingDistinct(s: seq<string>)
    requires Increasing(s)
    ensures forall i, j | 0 <= i < j < |s| :: s[i] != s[j]
  {
    forall i, j | 0 <= i < j < |s| ensures s[i] != s[j] { LessTotal(s[i], s[j]); }
  }
}
