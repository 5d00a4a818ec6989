/** Validating an artifact's scope. */
module PolicyArtifact {
  import opened Wrappers
  import opened Listing
  import opened Policy
  import opened PolicyCompile

  // ----- scope validation -----

  function Map<T, U>(f: T -> U, s: seq<T>): (r: seq<U>)
    ensures |r| == |s| && forall i | 0 <= i < |s| :: r[i] == f(s[i])
  {
    seq(|s|, i requires 0 <= i < |s| => f(s[i]))
  }

  function ToolId(c: Command): Id { c.toolId }

  function PhaseId(s: PhaseScope): Id { s.phaseId }

  predicate Distinct(s: seq<string>) {
    forall i, j | 0 <= i < j < |s| :: s[i] != s[j]
  }

  function CommandIds(a: Artifact): seq<Id> {
    Map(ToolId, a.commands)
  }

  function PhaseIds(a: Artifact): seq<Id> {
    Map(PhaseId, a.phaseScope)
  }

  /** The tool is one of some phase. */
  predicate ScopedIn(scopes: seq<PhaseScope>, tool: Id) {
    exists s :: s in scopes && tool in s.toolIds
  }

  predicate Scoped(a: Artifact, tool: Id) {
    ScopedIn(a.phaseScope, tool)
  }

  ghost predicate ValidScope(a: Artifact) {
    && Distinct(CommandIds(a)) && Distinct(PhaseIds(a))
    && (forall s | s in a.phaseScope :: Distinct(s.toolIds))
    && (forall tool :: tool in CommandIds(a) <==> Scoped(a, tool))
  }

  datatype Violation =
    | DuplicateCommand(tool: Id)
    | DuplicatePhase(phase: Id)
    | UnknownTool(inPhase: Id, unknown: Id)
    | DuplicateTool(ofPhase: Id, twice: Id)
    | Unscoped(command: Id)

  /** What an error message names is wrong with the artifact. */
  ghost predicate Violates(a: Artifact, v: Violation) {
    match v
    case DuplicateCommand(tool) => exists i, j | 0 <= i < j < |a.commands| :: CommandIds(a)[i] == CommandIds(a)[j] == tool
    case DuplicatePhase(phase) => exists i, j | 0 <= i < j < |a.phaseScope| :: PhaseIds(a)[i] == PhaseIds(a)[j] == phase
    case UnknownTool(phase, tool) =>
      tool !in CommandIds(a) && exists s :: s in a.phaseScope && s.phaseId == phase && tool in s.toolIds
    case DuplicateTool(phase, tool) =>
      exists s, i, j :: s in a.phaseScope && s.phaseId == phase && 0 <= i < j < |s.toolIds| && s.toolIds[i] == s.toolIds[j] == tool
    case Unscoped(tool) => tool in CommandIds(a) && !Scoped(a, tool)
  }

  function Members(s: seq<string>): set<string> {
    set x | x in s
  }

  lemma MembersStep(s: seq<string>, i: nat)
    requires i < |s|
    ensures s[..i + 1] == s[..i] + [s[i]] && Members(s[..i + 1]) == Members(s[..i]) + {s[i]}
    ensures Distinct(s[..i]) && s[i] !in Members(s[..i]) ==> Distinct(s[..i + 1])
  {
    assert s[..i + 1] == s[..i] + [s[i]];
  }

  /** Inserts identities one by one and stops at the first that is there already. */
  method FindDuplicate(s: seq<string>) returns (ids: set<string>, twice: Option<string>)
    ensures twice.None? ==> Distinct(s) && ids == Members(s)
    ensures twice.Some? ==> exists i, j | 0 <= i < j < |s| :: s[i] == s[j] == twice.value
  {
    ids := {};
    for i := 0 to |s|
      invariant ids == Members(s[..i]) && Distinct(s[..i])
    {
      MembersStep(s, i);
      if s[i] in ids {
        ghost var k :| 0 <= k < i && s[..i][k] == s[i];
        assert s[k] == s[i];
        return ids, Some(s[i]);
      }
      ids := ids + {s[i]};
    }
    assert s[..|s|] == s;
    twice := None;
  }

  /** Checks one phase's tools against the commands and each other. */
  method CheckPhase(known: set<Id>, s: PhaseScope) returns (v: Option<Violation>)
    ensures v.None? <==> Members(s.toolIds) <= known && Distinct(s.toolIds)
    ensures v.Some? ==>
              match v.value
              case UnknownTool(phase, tool) => phase == s.phaseId && tool in s.toolIds && tool !in known
              case DuplicateTool(phase, tool) =>
                phase == s.phaseId && exists i, j | 0 <= i < j < |s.toolIds| :: s.toolIds[i] == s.toolIds[j] == tool
              case _ => false
  {
    var seen: set<Id> := {};
    for i := 0 to |s.toolIds|
      invariant seen == Members(s.toolIds[..i]) && seen <= known && Distinct(s.toolIds[..i])
    {
      var tool := s.toolIds[i];
      MembersStep(s.toolIds, i);
      if tool !in known {
        assert tool in Members(s.toolIds);
        return Some(UnknownTool(s.phaseId, tool));
      }
      if tool in seen {
        ghost var k :| 0 <= k < i && s.toolIds[..i][k] == tool;
        assert s.toolIds[k] == s.toolIds[i];
        return Some(DuplicateTool(s.phaseId, tool));
      }
      seen := seen + {tool};
    }
    assert s.toolIds[..|s.toolIds|] == s.toolIds;
    v := None;
  }

  lemma ScopedStep(scopes: seq<PhaseScope>, i: nat)
    requires i < |scopes|
    ensures scopes[..i + 1] == scopes[..i] + [scopes[i]]
    ensures forall tool :: ScopedIn(scopes[..i + 1], tool) <==> ScopedIn(scopes[..i], tool) || tool in scopes[i].toolIds
  {
    assert scopes[..i + 1] == scopes[..i] + [scopes[i]];
    forall tool | tool in scopes[i].toolIds ensures ScopedIn(scopes[..i + 1], tool) {
      assert scopes[i] in scopes[..i + 1];
    }
    forall tool | ScopedIn(scopes[..i], tool) ensures ScopedIn(scopes[..i + 1], tool) {
      var s :| s in scopes[..i] && tool in s.toolIds;
      assert s in scopes[..i + 1];
    }
  }

  /** Validation succeeds exactly on valid scopes, and an error names a real violation. */
  method ValidatePhaseScope(a: Artifact) returns (v: Option<Violation>)
    ensures v.None? <==> ValidScope(a)
    ensures v.Some? ==> Violates(a, v.value)
  {
    var commandIds, twice := FindDuplicate(CommandIds(a));
    if twice.Some? { return Some(DuplicateCommand(twice.value)); }
    var phaseIds: set<Id> := {};
    var scoped: set<Id> := {};
    for i := 0 to |a.phaseScope|
      invariant phaseIds == Members(PhaseIds(a)[..i]) && Distinct(PhaseIds(a)[..i])
      invariant forall s | s in a.phaseScope[..i] :: Distinct(s.toolIds)
      invariant forall tool :: tool in scoped <==> ScopedIn(a.phaseScope[..i], tool)
      invariant scoped <= commandIds
    {
      var s := a.phaseScope[i];
      MembersStep(PhaseIds(a), i);
      if s.phaseId in phaseIds {
        ghost var k :| 0 <= k < i && PhaseIds(a)[..i][k] == s.phaseId;
        assert PhaseIds(a)[k] == PhaseIds(a)[i] == s.phaseId;
        return Some(DuplicatePhase(s.phaseId));
      }
      phaseIds := phaseIds + {s.phaseId};
      v := CheckPhase(commandIds, s);
      if v.Some? {
        assert s in a.phaseScope;
        return;
      }
      ScopedStep(a.phaseScope, i);
      scoped := scoped + Members(s.toolIds);
    }
    assert a.phaseScope[..|a.phaseScope|] == a.phaseScope && PhaseIds(a)[..|a.phaseScope|] == PhaseIds(a);
    assert forall tool :: tool in scoped <==> Scoped(a, tool);
    var ids := InOrder(commandIds);
    InOrderHolds(commandIds);
    for i := 0 to |ids|
      invariant forall k | 0 <= k < i :: ids[k] in scoped
    {
      if ids[i] !in scoped {
        assert ids[i] in ids;
        return Some(Unscoped(ids[i]));
      }
    }
    forall tool | tool in commandIds ensures tool in scoped {
      assert tool in ids;
    }
    v := None;
  }

  /** What the compiler makes always has a valid scope. */
  lemma CompiledScopeIsValid(reg: Registry, flow: Id)
    requires flow in reg.flows && AllCommands(reg, InOrder(ToolsOf(reg, Scope(reg, flow))))
    ensures ValidScope(Compiled(reg, flow))
  {
    var a, scope := Compiled(reg, flow), Scope(reg, flow);
    InOrderHolds(scope);
    InOrderHolds(ToolsOf(reg, scope));
    IncreasingDistinct(InOrder(scope));
    IncreasingDistinct(InOrder(ToolsOf(reg, scope)));
    assert CommandIds(a) == InOrder(ToolsOf(reg, scope));
    assert PhaseIds(a) == InOrder(scope);
    forall s | s in a.phaseScope
      ensures Distinct(s.toolIds) && forall tool | tool in s.toolIds :: tool in ToolsOf(reg, scope)
    {
      EntryHolds(reg, flow, s);
    }
    forall tool | tool in ToolsOf(reg, scope) ensures Scoped(a, tool) {
      ToolScoped(reg, flow, tool);
    }
  }

  lemma EntryHolds(reg: Registry, flow: Id, s: PhaseScope)
    requires flow in reg.flows && AllCommands(reg, InOrder(ToolsOf(reg, Scope(reg, flow))))
    requires s in Compiled(reg, flow).phaseScope
    ensures Distinct(s.toolIds) && forall tool | tool in s.toolIds :: tool in ToolsOf(reg, Scope(reg, flow))
  {
    var entries, order := Compiled(reg, flow).phaseScope, InOrder(Scope(reg, flow));
    var i :| 0 <= i < |entries| && entries[i] == s;
    InOrderHolds(Scope(reg, flow));
    assert s.phaseId == order[i] && order[i] in order;
    InOrderHolds(PhaseTools(reg, s.phaseId));
    IncreasingDistinct(s.toolIds);
  }

  lemma ToolScoped(reg: Registry, flow: Id, tool: Id)
    requires flow in reg.flows && AllCommands(reg, InOrder(ToolsOf(reg, Scope(reg, flow))))
    requires tool in ToolsOf(reg, Scope(reg, flow))
    ensures Scoped(Compiled(reg, flow), tool)
  {
    var entries, order := Compiled(reg, flow).phaseScope, InOrder(Scope(reg, flow));
    var p :| p in Scope(reg, flow) && p in reg.phases && tool in PhaseTools(reg, p);
    InOrderHolds(Scope(reg, flow));
    InOrderHolds(PhaseTools(reg, p));
    var i :| 0 <= i < |order| && order[i] == p;
    assert entries[i].phaseId == p && entries[i] in entries;
  }

  /** Two registries whose references differ in order and repetition only. */
  ghost predicate SameReferences(reg: Registry, reg': Registry) {
    && reg.tools == reg'.tools && reg.phases.Keys == reg'.phases.Keys && reg.flows.Keys == reg'.flows.Keys
    && reg.toolNames == reg'.toolNames && reg.phaseNames == reg'.phaseNames && reg.flowNames == reg'.flowNames
    && (forall p | p in reg.phases ::
          Members(reg.phases[p].toolRefs) == Members(reg'.phases[p].toolRefs) &&
          Members(reg.phases[p].phaseRefs) == Members(reg'.phases[p].phaseRefs))
    && (forall f | f in reg.flows ::
          Members(reg.flows[f].phaseRefs) == Members(reg'.flows[f].phaseRefs) &&
          Members(reg.flows[f].subflowRefs) == Members(reg'.flows[f].subflowRefs))
  }

  lemma SameTargets<T, U>(blocks: map<Id, T>, blocks': map<Id, U>, names: map<string, Id>, s: seq<string>, t: seq<string>)
    requires Members(s) == Members(t) && blocks.Keys == blocks'.Keys
    ensures Targets(blocks, names, s) == Targets(blocks', names, t)
  {
    assert forall x :: x in s <==> x in Members(s);
    assert forall x :: x in t <==> x in Members(t);
    assert forall r :: Resolve(blocks, names, r) == Resolve(blocks', names, r);
  }

  lemma SameGraphs(reg: Registry, reg': Registry)
    requires SameReferences(reg, reg')
    ensures PhaseGraph(reg) == PhaseGraph(reg') && FlowGraph(reg) == FlowGraph(reg')
    ensures forall p | p in reg.phases :: PhaseTools(reg, p) == PhaseTools(reg', p)
    ensures forall f | f in reg.flows :: FlowPhases(reg, f) == FlowPhases(reg', f)
  {
    forall p | p in reg.phases
      ensures PhaseTools(reg, p) == PhaseTools(reg', p) && PhaseGraph(reg)[p] == PhaseGraph(reg')[p]
    {
      SameTargets(reg.tools, reg'.tools, reg.toolNames, reg.phases[p].toolRefs, reg'.phases[p].toolRefs);
      SameTargets(reg.phases, reg'.phases, reg.phaseNames, reg.phases[p].phaseRefs, reg'.phases[p].phaseRefs);
    }
    forall f | f in reg.flows
      ensures FlowPhases(reg, f) == FlowPhases(reg', f) && FlowGraph(reg)[f] == FlowGraph(reg')[f]
    {
      SameTargets(reg.phases, reg'.phases, reg.phaseNames, reg.flows[f].phaseRefs, reg'.flows[f].phaseRefs);
      SameTargets(reg.flows, reg'.flows, reg.flowNames, reg.flows[f].subflowRefs, reg'.flows[f].subflowRefs);
    }
  }

  lemma SameScope(reg: Registry, reg': Registry, flow: Id)
    requires SameReferences(reg, reg')
    ensures Scope(reg, flow) == Scope(reg', flow)
    ensures ToolsOf(reg, Scope(reg, flow)) == ToolsOf(reg', Scope(reg', flow))
  {
    SameGraphs(reg, reg');
    forall phase ensures InScope(reg, flow, phase) <==> InScope(reg', flow, phase) {
      if InScope(reg, flow, phase) {
        var f, p :| Reaches(FlowGraph(reg), flow, f) && f in reg.flows && p in FlowPhases(reg, f) && Reaches(PhaseGraph(reg), p, phase);
        assert p in FlowPhases(reg', f);
      }
      if InScope(reg', flow, phase) {
        var f, p :| Reaches(FlowGraph(reg'), flow, f) && f in reg'.flows && p in FlowPhases(reg', f) && Reaches(PhaseGraph(reg'), p, phase);
        assert p in FlowPhases(reg, f);
      }
    }
  }

  /** The order and repetition of references decide nothing but the timeout. */
  lemma ReferenceOrderIrrelevant(reg: Registry, reg': Registry, flow: Id)
    requires SameReferences(reg, reg') && flow in reg.flows
    requires AllCommands(reg, InOrder(ToolsOf(reg, Scope(reg, flow))))
    ensures AllCommands(reg', InOrder(ToolsOf(reg', Scope(reg', flow))))
    ensures Compiled(reg', flow) == Compiled(reg, flow).(timeoutMs := Timeout(reg'.flows[flow]))
  {
    SameScope(reg, reg', flow);
    SameGraphs(reg, reg');
    ScopeExists(reg, flow);
  }
}
