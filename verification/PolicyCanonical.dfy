/** The canonical order of an artifact: one value for all artifacts that differ in list order only. */
module PolicyCanonical {
  import opened Order
  import opened Policy
  import opened PolicyArtifact

  predicate ByTool(a: Command, b: Command) { Leq(a.toolId, b.toolId) }

  predicate ByName(a: Parameter, b: Parameter) { Leq(a.name, b.name) }

  predicate ByPhase(a: PhaseScope, b: PhaseScope) { Leq(a.phaseId, b.phaseId) }

  function CanonicalParameter(p: Parameter): Parameter {
    p.(allowedValues := Sort(p.allowedValues, Leq))
  }

  function CanonicalCommand(c: Command): Command {
    c.(parameters := Map(CanonicalParameter, Sort(c.parameters, ByName)), environment := Sort(c.environment, Leq))
  }

  function CanonicalScope(s: PhaseScope): PhaseScope {
    s.(toolIds := Sort(s.toolIds, Leq))
  }

  function Canonical(a: Artifact): Artifact {
    a.(commands := Map(CanonicalCommand, Sort(a.commands, ByTool)),
       phaseScope := Map(CanonicalScope, Sort(a.phaseScope, ByPhase)))
  }

  /** The sorting as it is done in place on a copy. */
  method CanonicalOrder(artifact: Artifact) returns (r: Artifact)
    ensures r == Canonical(artifact)
  {
    r := artifact.(commands := Sort(artifact.commands, ByTool));
    for i := 0 to |r.commands|
      invariant r == artifact.(commands := r.commands) && |r.commands| == |Sort(artifact.commands, ByTool)|
      invariant forall k | 0 <= k < i :: r.commands[k] == CanonicalCommand(Sort(artifact.commands, ByTool)[k])
      invariant forall k | i <= k < |r.commands| :: r.commands[k] == Sort(artifact.commands, ByTool)[k]
    {
      var command := r.commands[i];
      var parameters := Sort(command.parameters, ByName);
      for j := 0 to |parameters|
        invariant |parameters| == |Sort(command.parameters, ByName)|
        invariant forall k | 0 <= k < j :: parameters[k] == CanonicalParameter(Sort(command.parameters, ByName)[k])
        invariant forall k | j <= k < |parameters| :: parameters[k] == Sort(command.parameters, ByName)[k]
      {
        parameters := parameters[j := parameters[j].(allowedValues := Sort(parameters[j].allowedValues, Leq))];
      }
      assert parameters == Map(CanonicalParameter, Sort(command.parameters, ByName));
      r := r.(commands := r.commands[i := command.(parameters := parameters, environment := Sort(command.environment, Leq))]);
    }
    assert r.commands == Map(CanonicalCommand, Sort(artifact.commands, ByTool));
    ghost var commands := r.commands;
    r := r.(phaseScope := Sort(artifact.phaseScope, ByPhase));
    for i := 0 to |r.phaseScope|
      invariant r == artifact.(commands := commands, phaseScope := r.phaseScope)
      invariant |r.phaseScope| == |Sort(artifact.phaseScope, ByPhase)|
      invariant forall k | 0 <= k < i :: r.phaseScope[k] == CanonicalScope(Sort(artifact.phaseScope, ByPhase)[k])
      invariant forall k | i <= k < |r.phaseScope| :: r.phaseScope[k] == Sort(artifact.phaseScope, ByPhase)[k]
    {
      r := r.(phaseScope := r.phaseScope[i := r.phaseScope[i].(toolIds := Sort(r.phaseScope[i].toolIds, Leq))]);
    }
    assert r.phaseScope == Map(CanonicalScope, Sort(artifact.phaseScope, ByPhase));
  }

  // ----- differing in order only -----

  ghost predicate SameParameter(p: Parameter, q: Parameter) {
    p.name == q.name && p.shape == q.shape && multiset(p.allowedValues) == multiset(q.allowedValues)
  }

  /** Some rearrangement of `s` matches `t` place by place. */
  ghost predicate SameParameters(s: seq<Parameter>, t: seq<Parameter>) {
    exists u: seq<Parameter> ::
      multiset(u) == multiset(s) && |u| == |t| && forall i | 0 <= i < |t| :: SameParameter(u[i], t[i])
  }

  ghost predicate SameCommand(c: Command, d: Command) {
    && c.(parameters := [], environment := []) == d.(parameters := [], environment := [])
    && multiset(c.environment) == multiset(d.environment)
    && SameParameters(c.parameters, d.parameters)
  }

  ghost predicate SameCommands(s: seq<Command>, t: seq<Command>) {
    exists u: seq<Command> ::
      multiset(u) == multiset(s) && |u| == |t| && forall i | 0 <= i < |t| :: SameCommand(u[i], t[i])
  }

  ghost predicate SameScopeEntry(s: PhaseScope, t: PhaseScope) {
    s.phaseId == t.phaseId && multiset(s.toolIds) == multiset(t.toolIds)
  }

  ghost predicate SameScopes(s: seq<PhaseScope>, t: seq<PhaseScope>) {
    exists u: seq<PhaseScope> ::
      multiset(u) == multiset(s) && |u| == |t| && forall i | 0 <= i < |t| :: SameScopeEntry(u[i], t[i])
  }

  /** Two artifacts that differ in the order of their lists, at every level, and in nothing else. */
  ghost predicate SameButOrder(a: Artifact, b: Artifact) {
    && a.(commands := [], phaseScope := []) == b.(commands := [], phaseScope := [])
    && SameCommands(a.commands, b.commands)
    && SameScopes(a.phaseScope, b.phaseScope)
  }

  function Name(p: Parameter): string { p.name }

  predicate UniqueNames(c: Command) {
    Distinct(Map(Name, c.parameters))
  }

  // ----- sorting by a text key -----

  lemma LeqIsOrder(a: string, b: string, c: string)
    ensures Leq(a, b) || Leq(b, a)
    ensures Leq(a, b) && Leq(b, a) ==> a == b
    ensures Leq(a, b) && Leq(b, c) ==> Leq(a, c)
  {
    LessTotal(a, b);
    LessTotal(b, c);
    LessTotal(a, c);
    if Less(a, b) && Less(b, c) { LessTransitive(a, b, c); }
  }

  /** `leq` compares a text key. */
  ghost predicate ByKey<T(!new)>(leq: (T, T) -> bool, key: T -> string) {
    forall x, y :: leq(x, y) <==> Leq(key(x), key(y))
  }

  lemma ByKeyIsPreorder<T(!new)>(s: seq<T>, leq: (T, T) -> bool, key: T -> string)
    requires ByKey(leq, key)
    ensures PreorderOn(s, leq)
  {
    forall x, y | x in s && y in s ensures leq(x, y) || leq(y, x) { LeqIsOrder(key(x), key(y), key(y)); }
    forall x, y, z | x in s && y in s && z in s && leq(x, y) && leq(y, z) ensures leq(x, z) {
      LeqIsOrder(key(x), key(y), key(z));
    }
  }

  lemma SortByKey<T(!new)>(s: seq<T>, leq: (T, T) -> bool, key: T -> string)
    requires ByKey(leq, key)
    ensures Sorted(Sort(s, leq), leq) && multiset(Sort(s, leq)) == multiset(s) && |Sort(s, leq)| == |s|
  {
    ByKeyIsPreorder(s, leq, key);
    SortIsStable(s, leq);
    SameElements(Sort(s, leq), s);
  }

  /** Elements with one key are one element. */
  ghost predicate KeyDecides<T>(s: seq<T>, key: T -> string) {
    forall x, y | x in s && y in s && key(x) == key(y) :: x == y
  }

  lemma KeyDecidesTail<T>(s: seq<T>, key: T -> string)
    requires s != [] && KeyDecides(s, key)
    ensures KeyDecides(s[1..], key)
  {
    assert forall x | x in s[1..] :: x in s;
  }

  lemma SameTail<T>(r: seq<T>, r': seq<T>)
    requires r != [] && r' != [] && r[0] == r'[0] && multiset(r) == multiset(r')
    ensures multiset(r[1..]) == multiset(r'[1..])
  {
    TailElements(r);
    TailElements(r');
    assert multiset(r[1..]) == multiset(r) - multiset{r[0]};
  }

  lemma {:induction false} SortedUnique<T(!new)>(r: seq<T>, r': seq<T>, leq: (T, T) -> bool, key: T -> string)
    requires ByKey(leq, key) && Sorted(r, leq) && Sorted(r', leq) && multiset(r) == multiset(r') && KeyDecides(r, key)
    ensures r == r'
  {
    SameElements(r, r');
    if r != [] {
      LeastUnique(r, r', leq, key);
      SameTail(r, r');
      KeyDecidesTail(r, key);
      SortedUnique(r[1..], r'[1..], leq, key);
      assert r == [r[0]] + r[1..] && r' == [r'[0]] + r'[1..];
    }
  }

  lemma LeastUnique<T(!new)>(r: seq<T>, r': seq<T>, leq: (T, T) -> bool, key: T -> string)
    requires ByKey(leq, key) && Sorted(r, leq) && Sorted(r', leq) && r != [] && r' != []
    requires r[0] in r' && r'[0] in r && KeyDecides(r, key)
    ensures r[0] == r'[0]
  {
    var i :| 0 <= i < |r'| && r'[i] == r[0];
    var j :| 0 <= j < |r| && r[j] == r'[0];
    assert i == 0 || leq(r'[0], r'[i]);
    assert j == 0 || leq(r[0], r[j]);
    LeqIsOrder(key(r[0]), key(r'[0]), key(r[0]));
  }

  lemma SortStrings(s: seq<string>, t: seq<string>)
    requires multiset(s) == multiset(t)
    ensures Sort(s, Leq) == Sort(t, Leq)
  {
    var key := (x: string) => x;
    SortByKey(s, Leq, key);
    SortByKey(t, Leq, key);
    SortedUnique(Sort(s, Leq), Sort(t, Leq), Leq, key);
  }

  lemma {:induction false} SortOfSorted<T>(s: seq<T>, leq: (T, T) -> bool)
    requires Sorted(s, leq)
    ensures Sort(s, leq) == s
  {
    if s != [] {
      SortOfSorted(s[1..], leq);
      assert s == [s[0]] + s[1..];
    }
  }

  function Without<T>(s: seq<T>, k: nat): seq<T>
    requires k < |s|
  {
    s[..k] + s[k + 1..]
  }

  lemma WithoutElements<T>(s: seq<T>, k: nat)
    requires k < |s|
    ensures multiset(s) == multiset{s[k]} + multiset(Without(s, k))
  {
    assert s == s[..k] + [s[k]] + s[k + 1..];
  }

  lemma {:induction false} MapElements<T, U>(f: T -> U, s: seq<T>, t: seq<T>)
    requires multiset(s) == multiset(t)
    ensures multiset(Map(f, s)) == multiset(Map(f, t))
  {
    SameElements(s, t);
    if s != [] {
      assert s[0] in t;
      var k :| 0 <= k < |t| && t[k] == s[0];
      WithoutElements(s, 0);
      WithoutElements(t, k);
      assert multiset(Without(s, 0)) == multiset(s) - multiset{s[0]} == multiset(Without(t, k));
      MapElements(f, Without(s, 0), Without(t, k));
      MapWithout(f, s, 0);
      MapWithout(f, t, k);
    }
  }

  lemma MapWithout<T, U>(f: T -> U, s: seq<T>, k: nat)
    requires k < |s|
    ensures multiset(Map(f, s)) == multiset{f(s[k])} + multiset(Map(f, Without(s, k)))
  {
    WithoutElements(Map(f, s), k);
    assert Without(Map(f, s), k) == Map(f, Without(s, k));
  }

  /** Sorting by a key that `f` keeps, then mapping, gives one list for all rearrangements. */
  lemma MappedSortUnique<T(!new)>(s: seq<T>, u: seq<T>, t: seq<T>, f: T -> T, leq: (T, T) -> bool, key: T -> string)
    requires ByKey(leq, key) && (forall x :: key(f(x)) == key(x))
    requires multiset(u) == multiset(s) && Map(f, u) == Map(f, t) && Distinct(Map(key, s))
    ensures Map(f, Sort(s, leq)) == Map(f, Sort(t, leq))
  {
    SortByKey(s, leq, key);
    SortByKey(t, leq, key);
    var r, r' := Map(f, Sort(s, leq)), Map(f, Sort(t, leq));
    MapElements(f, Sort(s, leq), u);
    MapElements(f, t, Sort(t, leq));
    forall i, j | 0 <= i < j < |r| ensures leq(r[i], r[j]) { assert leq(Sort(s, leq)[i], Sort(s, leq)[j]); }
    forall i, j | 0 <= i < j < |r'| ensures leq(r'[i], r'[j]) { assert leq(Sort(t, leq)[i], Sort(t, leq)[j]); }
    MapKeyDecides(s, Sort(s, leq), f, key);
    SortedUnique(r, r', leq, key);
  }

  lemma MapKeyDecides<T>(s: seq<T>, r: seq<T>, f: T -> T, key: T -> string)
    requires (forall x | x in r :: key(f(x)) == key(x)) && Distinct(Map(key, s)) && multiset(r) == multiset(s)
    ensures KeyDecides(Map(f, r), key)
  {
    SameElements(r, s);
    forall x, y | x in Map(f, r) && y in Map(f, r) && key(x) == key(y) ensures x == y {
      var i :| 0 <= i < |r| && x == f(r[i]);
      var j :| 0 <= j < |r| && y == f(r[j]);
      assert r[i] in r && r[j] in r;
      var k :| 0 <= k < |s| && s[k] == r[i];
      var l :| 0 <= l < |s| && s[l] == r[j];
      assert Map(key, s)[k] == Map(key, s)[l];
    }
  }

  // ----- canonical order -----

  lemma SameParameterCanonical(p: Parameter, q: Parameter)
    requires SameParameter(p, q)
    ensures CanonicalParameter(p) == CanonicalParameter(q)
  {
    SortStrings(p.allowedValues, q.allowedValues);
  }

  lemma SameParametersCanonical(s: seq<Parameter>, u: seq<Parameter>, t: seq<Parameter>)
    requires multiset(u) == multiset(s) && |u| == |t| && forall i | 0 <= i < |u| :: SameParameter(u[i], t[i])
    requires Distinct(Map(Name, s))
    ensures Map(CanonicalParameter, Sort(s, ByName)) == Map(CanonicalParameter, Sort(t, ByName))
  {
    forall i | 0 <= i < |u| ensures CanonicalParameter(u[i]) == CanonicalParameter(t[i]) {
      SameParameterCanonical(u[i], t[i]);
    }
    assert Map(CanonicalParameter, u) == Map(CanonicalParameter, t);
    MappedSortUnique(s, u, t, CanonicalParameter, ByName, Name);
  }

  lemma SameCommandCanonical(c: Command, d: Command)
    requires SameCommand(c, d) && UniqueNames(c)
    ensures CanonicalCommand(c) == CanonicalCommand(d)
  {
    SortStrings(c.environment, d.environment);
    var u: seq<Parameter> :| multiset(u) == multiset(c.parameters) && |u| == |d.parameters| &&
                             forall i | 0 <= i < |u| :: SameParameter(u[i], d.parameters[i]);
    SameParametersCanonical(c.parameters, u, d.parameters);
  }

  lemma SameEach(u: seq<Command>, t: seq<Command>)
    requires |u| == |t| && (forall i | 0 <= i < |u| :: SameCommand(u[i], t[i])) && forall c | c in u :: UniqueNames(c)
    ensures Map(CanonicalCommand, u) == Map(CanonicalCommand, t)
  {
    forall i | 0 <= i < |u| ensures CanonicalCommand(u[i]) == CanonicalCommand(t[i]) {
      assert u[i] in u;
      SameCommandCanonical(u[i], t[i]);
    }
  }

  lemma SameCommandsCanonical(s: seq<Command>, t: seq<Command>)
    requires SameCommands(s, t) && Distinct(Map(ToolId, s)) && forall c | c in s :: UniqueNames(c)
    ensures Map(CanonicalCommand, Sort(s, ByTool)) == Map(CanonicalCommand, Sort(t, ByTool))
  {
    var u: seq<Command> :| multiset(u) == multiset(s) && |u| == |t| && forall i | 0 <= i < |u| :: SameCommand(u[i], t[i]);
    assert Map(CanonicalCommand, u) == Map(CanonicalCommand, t) by {
      SameElements(u, s);
      SameEach(u, t);
    }
    MappedSortUnique(s, u, t, CanonicalCommand, ByTool, ToolId);
  }

  lemma SameScopesCanonical(s: seq<PhaseScope>, t: seq<PhaseScope>)
    requires SameScopes(s, t) && Distinct(Map(PhaseId, s))
    ensures Map(CanonicalScope, Sort(s, ByPhase)) == Map(CanonicalScope, Sort(t, ByPhase))
  {
    var u: seq<PhaseScope> :| multiset(u) == multiset(s) && |u| == |t| && forall i | 0 <= i < |u| :: SameScopeEntry(u[i], t[i]);
    forall i | 0 <= i < |u| ensures CanonicalScope(u[i]) == CanonicalScope(t[i]) {
      SortStrings(u[i].toolIds, t[i].toolIds);
    }
    assert Map(CanonicalScope, u) == Map(CanonicalScope, t);
    MappedSortUnique(s, u, t, CanonicalScope, ByPhase, PhaseId);
  }

  /** Artifacts with valid scopes and unique parameter names that differ in order only are one
      artifact in canonical order. */
  lemma CanonicalIsUnique(a: Artifact, b: Artifact)
    requires SameButOrder(a, b) && ValidScope(a) && forall c | c in a.commands :: UniqueNames(c)
    ensures Canonical(a) == Canonical(b)
  {
    SameCommandsCanonical(a.commands, b.commands);
    SameScopesCanonical(a.phaseScope, b.phaseScope);
    assert Canonical(a) == a.(commands := [], phaseScope := []).(commands := Canonical(a).commands, phaseScope := Canonical(a).phaseScope);
    assert Canonical(b) == b.(commands := [], phaseScope := []).(commands := Canonical(b).commands, phaseScope := Canonical(b).phaseScope);
  }

  lemma CanonicalCommandSame(c: Command)
    ensures SameCommand(c, CanonicalCommand(c))
  {
    var sorted := Sort(c.parameters, ByName);
    SortByKey(c.parameters, ByName, Name);
    SortByKey(c.environment, Leq, (x: string) => x);
    forall i | 0 <= i < |sorted| ensures SameParameter(sorted[i], CanonicalCommand(c).parameters[i]) {
      SortByKey(sorted[i].allowedValues, Leq, (x: string) => x);
    }
  }

  /** Canonical order changes nothing but order. */
  lemma CanonicalSameButOrder(a: Artifact)
    ensures SameButOrder(a, Canonical(a))
  {
    var commands, scopes := Sort(a.commands, ByTool), Sort(a.phaseScope, ByPhase);
    SortByKey(a.commands, ByTool, ToolId);
    SortByKey(a.phaseScope, ByPhase, PhaseId);
    forall i | 0 <= i < |commands| ensures SameCommand(commands[i], Canonical(a).commands[i]) {
      CanonicalCommandSame(commands[i]);
    }
    forall i | 0 <= i < |scopes| ensures SameScopeEntry(scopes[i], Canonical(a).phaseScope[i]) {
      SortByKey(scopes[i].toolIds, Leq, (x: string) => x);
    }
  }

  lemma CanonicalCommandIdempotent(c: Command)
    ensures CanonicalCommand(CanonicalCommand(c)) == CanonicalCommand(c)
  {
    var p := CanonicalCommand(c).parameters;
    SortByKey(c.parameters, ByName, Name);
    SortByKey(c.environment, Leq, (x: string) => x);
    SortOfSorted(Sort(c.environment, Leq), Leq);
    forall i, j | 0 <= i < j < |p| ensures ByName(p[i], p[j]) {
      assert ByName(Sort(c.parameters, ByName)[i], Sort(c.parameters, ByName)[j]);
    }
    SortOfSorted(p, ByName);
    forall i | 0 <= i < |p| ensures CanonicalParameter(p[i]) == p[i] {
      var values := Sort(c.parameters, ByName)[i].allowedValues;
      SortByKey(values, Leq, (x: string) => x);
      SortOfSorted(Sort(values, Leq), Leq);
    }
    assert Map(CanonicalParameter, p) == p;
  }

  /** Canonical order is final. */
  lemma CanonicalIdempotent(a: Artifact)
    ensures Canonical(Canonical(a)) == Canonical(a)
  {
    var commands, scopes := Canonical(a).commands, Canonical(a).phaseScope;
    SortByKey(a.commands, ByTool, ToolId);
    SortByKey(a.phaseScope, ByPhase, PhaseId);
    forall i, j | 0 <= i < j < |commands| ensures ByTool(commands[i], commands[j]) {
      assert ByTool(Sort(a.commands, ByTool)[i], Sort(a.commands, ByTool)[j]);
    }
    forall i, j | 0 <= i < j < |scopes| ensures ByPhase(scopes[i], scopes[j]) {
      assert ByPhase(Sort(a.phaseScope, ByPhase)[i], Sort(a.phaseScope, ByPhase)[j]);
    }
    SortOfSorted(commands, ByTool);
    SortOfSorted(scopes, ByPhase);
    forall i | 0 <= i < |commands| ensures CanonicalCommand(commands[i]) == commands[i] {
      CanonicalCommandIdempotent(Sort(a.commands, ByTool)[i]);
    }
    forall i | 0 <= i < |scopes| ensures CanonicalScope(scopes[i]) == scopes[i] {
      var tools := Sort(a.phaseScope, ByPhase)[i].toolIds;
      SortByKey(tools, Leq, (x: string) => x);
      SortOfSorted(Sort(tools, Leq), Leq);
    }
    assert Map(CanonicalCommand, commands) == commands && Map(CanonicalScope, scopes) == scopes;
  }

  // ----- order does not matter to validity -----

  lemma {:induction false} DistinctCounts(s: seq<string>)
    ensures Distinct(s) <==> forall x :: multiset(s)[x] <= 1
  {
    if s != [] {
      DistinctCounts(s[1..]);
      TailElements(s);
      assert s == [s[0]] + s[1..];
      if Distinct(s) {
        assert s[0] !in s[1..];
        assert multiset(s[1..])[s[0]] == 0;
      } else {
        var i, j :| 0 <= i < j < |s| && s[i] == s[j];
        if i > 0 {
          assert s[1..][i - 1] == s[1..][j - 1];
          var x :| multiset(s[1..])[x] > 1;
          assert multiset(s)[x] > 1;
        } else {
          assert s[1..][j - 1] == s[0];
          assert s[0] in multiset(s[1..]);
          assert multiset(s)[s[0]] > 1;
        }
      }
    }
  }

  lemma SameDistinct(s: seq<string>, t: seq<string>)
    requires multiset(s) == multiset(t)
    ensures Distinct(s) <==> Distinct(t)
  {
    DistinctCounts(s);
    DistinctCounts(t);
  }

  lemma ValidityTransfers(a: Artifact, b: Artifact, u: seq<Command>, v: seq<PhaseScope>)
    requires multiset(u) == multiset(a.commands) && |u| == |b.commands| && forall i | 0 <= i < |u| :: u[i].toolId == b.commands[i].toolId
    requires multiset(v) == multiset(a.phaseScope) && |v| == |b.phaseScope| && forall i | 0 <= i < |v| :: SameScopeEntry(v[i], b.phaseScope[i])
    ensures ValidScope(a) ==> ValidScope(b)
    ensures ValidScope(b) ==> ValidScope(a)
  {
    MapElements(ToolId, u, a.commands);
    MapElements(PhaseId, v, a.phaseScope);
    assert Map(ToolId, u) == CommandIds(b) && Map(PhaseId, v) == PhaseIds(b);
    SameDistinct(CommandIds(a), CommandIds(b));
    SameDistinct(PhaseIds(a), PhaseIds(b));
    SameElements(CommandIds(a), CommandIds(b));
    ToolsTransfer(a.phaseScope, b.phaseScope, v);
  }

  lemma ToolsTransfer(s: seq<PhaseScope>, t: seq<PhaseScope>, v: seq<PhaseScope>)
    requires multiset(v) == multiset(s) && |v| == |t| && forall i | 0 <= i < |v| :: SameScopeEntry(v[i], t[i])
    ensures (forall x | x in s :: Distinct(x.toolIds)) <==> (forall y | y in t :: Distinct(y.toolIds))
    ensures forall tool :: ScopedIn(s, tool) <==> ScopedIn(t, tool)
  {
    TransferForward(s, t, v);
    TransferBackward(s, t, v);
  }

  lemma TransferForward(s: seq<PhaseScope>, t: seq<PhaseScope>, v: seq<PhaseScope>)
    requires multiset(v) == multiset(s) && |v| == |t| && forall i | 0 <= i < |v| :: SameScopeEntry(v[i], t[i])
    ensures forall tool | ScopedIn(s, tool) :: ScopedIn(t, tool)
    ensures (forall y | y in t :: Distinct(y.toolIds)) ==> (forall x | x in s :: Distinct(x.toolIds))
  {
    SameElements(v, s);
    forall x | x in s ensures exists y :: y in t && SameScopeEntry(x, y) {
      var i :| 0 <= i < |v| && v[i] == x;
      assert t[i] in t;
    }
    ToolsForward(s, t);
  }

  lemma TransferBackward(s: seq<PhaseScope>, t: seq<PhaseScope>, v: seq<PhaseScope>)
    requires multiset(v) == multiset(s) && |v| == |t| && forall i | 0 <= i < |v| :: SameScopeEntry(v[i], t[i])
    ensures forall tool | ScopedIn(t, tool) :: ScopedIn(s, tool)
    ensures (forall x | x in s :: Distinct(x.toolIds)) ==> (forall y | y in t :: Distinct(y.toolIds))
  {
    SameElements(v, s);
    forall y | y in t ensures exists x :: x in s && SameScopeEntry(y, x) {
      var i :| 0 <= i < |t| && t[i] == y;
      assert v[i] in v && SameScopeEntry(y, v[i]);
    }
    ToolsForward(t, s);
  }

  lemma ToolsForward(s: seq<PhaseScope>, t: seq<PhaseScope>)
    requires forall x | x in s :: exists y :: y in t && SameScopeEntry(x, y)
    ensures forall tool | ScopedIn(s, tool) :: ScopedIn(t, tool)
    ensures (forall y | y in t :: Distinct(y.toolIds)) ==> (forall x | x in s :: Distinct(x.toolIds))
  {
    forall tool | ScopedIn(s, tool) ensures ScopedIn(t, tool) {
      var x :| x in s && tool in x.toolIds;
      var y :| y in t && SameScopeEntry(x, y);
      SameElements(x.toolIds, y.toolIds);
    }
    forall x | x in s && forall y | y in t :: Distinct(y.toolIds) ensures Distinct(x.toolIds) {
      var y :| y in t && SameScopeEntry(x, y);
      SameDistinct(x.toolIds, y.toolIds);
    }
  }

  /** A scope is valid in any order, so canonical order keeps it so. */
  lemma CanonicalKeepsValidity(a: Artifact)
    ensures ValidScope(Canonical(a)) <==> ValidScope(a)
  {
    var commands, scopes := Sort(a.commands, ByTool), Sort(a.phaseScope, ByPhase);
    SortByKey(a.commands, ByTool, ToolId);
    SortByKey(a.phaseScope, ByPhase, PhaseId);
    forall i | 0 <= i < |scopes| ensures SameScopeEntry(scopes[i], Canonical(a).phaseScope[i]) {
      SortByKey(scopes[i].toolIds, Leq, (x: string) => x);
    }
    ValidityTransfers(a, Canonical(a), commands, scopes);
  }

  // ----- what the order is -----

  ghost predicate TextsAscend(s: seq<string>) {
    forall i, j | 0 <= i < j < |s| :: Leq(s[i], s[j])
  }

  ghost predicate ParametersAscend(s: seq<Parameter>) {
    TextsAscend(Map(Name, s)) && forall i | 0 <= i < |s| :: TextsAscend(s[i].allowedValues)
  }

  /** Commands ascend by tool, parameters by name, phases by identity, and all lists of texts as texts. */
  ghost predicate Ascends(a: Artifact) {
    && TextsAscend(CommandIds(a)) && TextsAscend(PhaseIds(a))
    && (forall i | 0 <= i < |a.commands| :: TextsAscend(a.commands[i].environment) && ParametersAscend(a.commands[i].parameters))
    && (forall i | 0 <= i < |a.phaseScope| :: TextsAscend(a.phaseScope[i].toolIds))
  }

  lemma SortedTexts(s: seq<string>)
    ensures TextsAscend(Sort(s, Leq))
  {
    SortByKey(s, Leq, (x: string) => x);
  }

  lemma SortedParameters(s: seq<Parameter>)
    ensures ParametersAscend(Map(CanonicalParameter, Sort(s, ByName)))
  {
    var r := Map(CanonicalParameter, Sort(s, ByName));
    SortByKey(s, ByName, Name);
    forall i, j | 0 <= i < j < |r| ensures Leq(Map(Name, r)[i], Map(Name, r)[j]) {
      assert ByName(Sort(s, ByName)[i], Sort(s, ByName)[j]);
    }
    forall i | 0 <= i < |r| ensures TextsAscend(r[i].allowedValues) {
      SortedTexts(Sort(s, ByName)[i].allowedValues);
    }
  }

  lemma SortedCommands(s: seq<Command>)
    ensures var r := Map(CanonicalCommand, Sort(s, ByTool));
            && TextsAscend(Map(ToolId, r))
            && forall i | 0 <= i < |r| :: TextsAscend(r[i].environment) && ParametersAscend(r[i].parameters)
  {
    var sorted := Sort(s, ByTool);
    var r := Map(CanonicalCommand, sorted);
    SortByKey(s, ByTool, ToolId);
    forall i, j | 0 <= i < j < |r| ensures Leq(Map(ToolId, r)[i], Map(ToolId, r)[j]) {
      assert ByTool(sorted[i], sorted[j]);
    }
    forall i | 0 <= i < |r| ensures TextsAscend(r[i].environment) && ParametersAscend(r[i].parameters) {
      SortedTexts(sorted[i].environment);
      SortedParameters(sorted[i].parameters);
    }
  }

  lemma SortedScopes(s: seq<PhaseScope>)
    ensures var r := Map(CanonicalScope, Sort(s, ByPhase));
            TextsAscend(Map(PhaseId, r)) && forall i | 0 <= i < |r| :: TextsAscend(r[i].toolIds)
  {
    var sorted := Sort(s, ByPhase);
    var r := Map(CanonicalScope, sorted);
    SortByKey(s, ByPhase, PhaseId);
    forall i, j | 0 <= i < j < |r| ensures Leq(Map(PhaseId, r)[i], Map(PhaseId, r)[j]) {
      assert ByPhase(sorted[i], sorted[j]);
    }
    forall i | 0 <= i < |r| ensures TextsAscend(r[i].toolIds) {
      SortedTexts(sorted[i].toolIds);
    }
  }

  /** The canonical form ascends at every level. */
  lemma CanonicalAscends(a: Artifact)
    ensures Ascends(Canonical(a))
  {
    SortedCommands(a.commands);
    SortedScopes(a.phaseScope);
  }
}
