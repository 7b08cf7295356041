/** Validation of a Workflow spec and construction of its graph (internal/workflow/dag.go). */
module Dag {
  import opened Names
  import opened DagTheory

  datatype Option<+T> = None | Some(value: T)

  datatype WorkflowTask = WorkflowTask(
    name: Name, dependsOn: seq<Name>, template: Name, hasTaskSpec: bool, runOnFailure: bool)

  datatype WorkflowSpec = WorkflowSpec(maxParallel: int, tasks: seq<WorkflowTask>, taskTemplates: set<Name>)

  datatype Reason =
    | NoTasks | DuplicateTaskName | InvalidTask | EmptyDependency | SelfDependency
    | UnknownDependency | DuplicateDependency | MissingTemplate | CyclicDependency

  /** The stable reason and the names its message lists. */
  datatype ValidationError = ValidationError(reason: Reason, subjects: seq<Name>)

  datatype Result<+T> = Ok(value: T) | Err(error: ValidationError)

  const MAX_TASK_NAME_LENGTH := 46

  // ---- what a spec means ------------------------------------------------------

  function NameSet(spec: WorkflowSpec): set<Name> {
    set t | t in spec.tasks :: t.name
  }

  /** The dependency relation of a spec; it knows nothing of any listing order. */
  ghost function RelOf(spec: WorkflowSpec): Rel {
    map n | n in NameSet(spec) :: set t, d | t in spec.tasks && t.name == n && d in t.dependsOn :: d
  }

  ghost predicate GoodTask(spec: WorkflowSpec, t: WorkflowTask) {
    && t.name.text != ""
    && (t.template.text != "" <==> !t.hasTaskSpec)
    && (t.template.text != "" ==> t.template in spec.taskTemplates)
  }

  ghost predicate GoodDependencies(spec: WorkflowSpec, t: WorkflowTask) {
    && NoRepeats(t.dependsOn)
    && forall d :: d in t.dependsOn ==> d.text != "" && d != t.name && d in NameSet(spec)
  }

  ghost predicate DistinctNames(spec: WorkflowSpec) {
    forall i, j :: 0 <= i < j < |spec.tasks| ==> spec.tasks[i].name != spec.tasks[j].name
  }

  /** Everything Build demands of a spec besides acyclicity. */
  ghost predicate WellFormed(spec: WorkflowSpec) {
    && spec.tasks != []
    && DistinctNames(spec)
    && forall t :: t in spec.tasks ==> GoodTask(spec, t) && GoodDependencies(spec, t)
  }

  // ---- which fault is reported ---------------------------------------------------

  predicate NameTakenBefore(spec: WorkflowSpec, i: nat)
    requires i < |spec.tasks|
  {
    exists j :: 0 <= j < i && spec.tasks[j].name == spec.tasks[i].name
  }

  function TaskFault(spec: WorkflowSpec, i: nat): Option<Reason>
    requires i < |spec.tasks|
  {
    var t := spec.tasks[i];
    if t.name.text == "" then Some(InvalidTask)
    else if NameTakenBefore(spec, i) then Some(DuplicateTaskName)
    else if (t.template.text != "") == t.hasTaskSpec then Some(InvalidTask)
    else if t.template.text != "" && t.template !in spec.taskTemplates then Some(MissingTemplate)
    else None
  }

  function DependencyFault(spec: WorkflowSpec, t: WorkflowTask, j: nat): Option<Reason>
    requires j < |t.dependsOn|
  {
    var dep := t.dependsOn[j];
    if dep.text == "" then Some(EmptyDependency)
    else if dep == t.name then Some(SelfDependency)
    else if dep !in NameSet(spec) then Some(UnknownDependency)
    else if dep in t.dependsOn[..j] then Some(DuplicateDependency)
    else None
  }

  ghost predicate TasksClean(spec: WorkflowSpec, n: nat) {
    forall i :: 0 <= i < n && i < |spec.tasks| ==> TaskFault(spec, i).None?
  }

  ghost predicate DependenciesClean(spec: WorkflowSpec, t: WorkflowTask, n: nat) {
    forall j :: 0 <= j < n && j < |t.dependsOn| ==> DependencyFault(spec, t, j).None?
  }

  ghost predicate AllDependenciesClean(spec: WorkflowSpec, n: nat) {
    forall i :: 0 <= i < n && i < |spec.tasks| ==> DependenciesClean(spec, spec.tasks[i], |spec.tasks[i].dependsOn|)
  }

  ghost predicate FirstTaskFault(spec: WorkflowSpec, i: nat, reason: Reason) {
    i < |spec.tasks| && TasksClean(spec, i) && TaskFault(spec, i) == Some(reason)
  }

  ghost predicate FirstDependencyFault(spec: WorkflowSpec, i: nat, j: nat, reason: Reason) {
    && TasksClean(spec, |spec.tasks|)
    && i < |spec.tasks| && AllDependenciesClean(spec, i)
    && j < |spec.tasks[i].dependsOn| && DependenciesClean(spec, spec.tasks[i], j)
    && DependencyFault(spec, spec.tasks[i], j) == Some(reason)
  }

  /** The reported error is the first fault in the documented checking order. */
  ghost predicate Explains(spec: WorkflowSpec, e: ValidationError) {
    if spec.tasks == [] then e == ValidationError(NoTasks, [])
    else if WellFormed(spec) then
      && !Acyclic(RelOf(spec))
      && e == ValidationError(CyclicDependency, Listing(StuckNodes(RelOf(spec))))
    else
      && e.subjects == []
      && ((exists i :: FirstTaskFault(spec, i, e.reason)) || (exists i, j :: FirstDependencyFault(spec, i, j, e.reason)))
  }

  /** The nodes the cycle report names. */
  ghost function StuckNodes(r: Rel): set<Name> {
    set n | n in r && HasCyclicAncestry(r, n)
  }

  lemma StuckNodesNeverDone(r: Rel)
    requires Closed(r)
    ensures StuckNodes(r) == r.Keys - Done(r, |r|)
  {
    forall n | n in r
      ensures n !in Done(r, |r|) <==> HasCyclicAncestry(r, n)
    {
      StuckIffCyclicAncestry(r, n);
    }
  }

  /** A spec is well formed exactly when the step-by-step checks find nothing. */
  lemma WellFormedIffClean(spec: WorkflowSpec)
    ensures WellFormed(spec) <==>
            spec.tasks != [] && TasksClean(spec, |spec.tasks|) && AllDependenciesClean(spec, |spec.tasks|)
  {
    if spec.tasks != [] && TasksClean(spec, |spec.tasks|) && AllDependenciesClean(spec, |spec.tasks|) {
      forall i, j | 0 <= i < j < |spec.tasks|
        ensures spec.tasks[i].name != spec.tasks[j].name
      {
        assert TaskFault(spec, j).None?;
      }
      forall t | t in spec.tasks
        ensures GoodTask(spec, t) && GoodDependencies(spec, t)
      {
        var i :| 0 <= i < |spec.tasks| && spec.tasks[i] == t;
        assert TaskFault(spec, i).None?;
        CleanDependenciesAreGood(spec, t);
      }
    }
    if WellFormed(spec) {
      forall i | 0 <= i < |spec.tasks|
        ensures TaskFault(spec, i).None?
        ensures DependenciesClean(spec, spec.tasks[i], |spec.tasks[i].dependsOn|)
      {
        assert GoodTask(spec, spec.tasks[i]);
        CleanDependenciesAreGood(spec, spec.tasks[i]);
      }
    }
  }

  lemma CleanDependenciesAreGood(spec: WorkflowSpec, t: WorkflowTask)
    ensures DependenciesClean(spec, t, |t.dependsOn|) <==> GoodDependencies(spec, t)
  {
    if DependenciesClean(spec, t, |t.dependsOn|) {
      forall d | d in t.dependsOn
        ensures d.text != "" && d != t.name && d in NameSet(spec)
      {
        var j :| 0 <= j < |t.dependsOn| && t.dependsOn[j] == d;
        assert DependencyFault(spec, t, j).None?;
      }
      forall i, j | 0 <= i < j < |t.dependsOn|
        ensures t.dependsOn[i] != t.dependsOn[j]
      {
        assert DependencyFault(spec, t, j).None?;
        assert t.dependsOn[i] in t.dependsOn[..j];
      }
    }
    if GoodDependencies(spec, t) {
      forall j | 0 <= j < |t.dependsOn|
        ensures DependencyFault(spec, t, j).None?
      {
        assert t.dependsOn[j] !in t.dependsOn[..j];
      }
    }
  }

  // ---- what a reason means ----------------------------------------------------------

  /** What is wrong with the spec, wherever it is. */
  ghost predicate Describes(spec: WorkflowSpec, reason: Reason) {
    match reason
    case NoTasks => spec.tasks == []
    case DuplicateTaskName => exists i, j :: 0 <= i < j < |spec.tasks| && spec.tasks[i].name == spec.tasks[j].name
    case InvalidTask =>
      exists i :: 0 <= i < |spec.tasks| &&
        (spec.tasks[i].name == Name("") || (spec.tasks[i].template != Name("") <==> spec.tasks[i].hasTaskSpec))
    case MissingTemplate =>
      exists i :: 0 <= i < |spec.tasks| &&
        spec.tasks[i].template != Name("") && spec.tasks[i].template !in spec.taskTemplates
    case EmptyDependency => exists i :: 0 <= i < |spec.tasks| && Name("") in spec.tasks[i].dependsOn
    case SelfDependency => exists i :: 0 <= i < |spec.tasks| && spec.tasks[i].name in spec.tasks[i].dependsOn
    case UnknownDependency =>
      exists i, d :: 0 <= i < |spec.tasks| && d in spec.tasks[i].dependsOn && forall t :: t in spec.tasks ==> t.name != d
    case DuplicateDependency => exists i :: 0 <= i < |spec.tasks| && !NoRepeats(spec.tasks[i].dependsOn)
    case CyclicDependency => exists p :: Cycle(RelOf(spec), p)
  }

  ghost predicate RepeatsName(spec: WorkflowSpec, i: nat)
    requires i < |spec.tasks|
  {
    exists j :: 0 <= j < i && spec.tasks[j].name == spec.tasks[i].name
  }

  ghost predicate BadTask(spec: WorkflowSpec, i: nat)
    requires i < |spec.tasks|
  {
    var t := spec.tasks[i];
    || t.name == Name("") || RepeatsName(spec, i)
    || (t.template != Name("") <==> t.hasTaskSpec)
    || (t.template != Name("") && t.template !in spec.taskTemplates)
  }

  /** The reason for a bad task: an empty name first, then a repeated one, then not exactly one of template and
      taskSpec, then an unknown template. */
  ghost predicate TaskReason(spec: WorkflowSpec, i: nat, reason: Reason)
    requires i < |spec.tasks|
  {
    var t := spec.tasks[i];
    && (t.name == Name("") ==> reason == InvalidTask)
    && (t.name != Name("") && RepeatsName(spec, i) ==> reason == DuplicateTaskName)
    && (t.name != Name("") && !RepeatsName(spec, i) && (t.template != Name("") <==> t.hasTaskSpec) ==>
          reason == InvalidTask)
    && (t.name != Name("") && !RepeatsName(spec, i) && !(t.template != Name("") <==> t.hasTaskSpec) ==>
          reason == MissingTemplate)
  }

  ghost predicate IsDeclared(spec: WorkflowSpec, n: Name) {
    exists i :: 0 <= i < |spec.tasks| && spec.tasks[i].name == n
  }

  ghost predicate BadDependency(spec: WorkflowSpec, t: WorkflowTask, j: nat)
    requires j < |t.dependsOn|
  {
    var d := t.dependsOn[j];
    d == Name("") || d == t.name || !IsDeclared(spec, d) || d in t.dependsOn[..j]
  }

  /** The reason for a bad dependency: an empty one first, then the task itself, then an unknown name, then one that
      is listed before. */
  ghost predicate DependencyReason(spec: WorkflowSpec, t: WorkflowTask, j: nat, reason: Reason)
    requires j < |t.dependsOn|
  {
    var d := t.dependsOn[j];
    && (d == Name("") ==> reason == EmptyDependency)
    && (d != Name("") && d == t.name ==> reason == SelfDependency)
    && (d != Name("") && d != t.name && !IsDeclared(spec, d) ==> reason == UnknownDependency)
    && (d != Name("") && d != t.name && IsDeclared(spec, d) ==> reason == DuplicateDependency)
  }

  ghost predicate FirstBadTask(spec: WorkflowSpec, i: nat) {
    i < |spec.tasks| && BadTask(spec, i) && forall k :: 0 <= k < i ==> !BadTask(spec, k)
  }

  ghost predicate NoBadTask(spec: WorkflowSpec) {
    forall i :: 0 <= i < |spec.tasks| ==> !BadTask(spec, i)
  }

  ghost predicate NoBadDependency(spec: WorkflowSpec, t: WorkflowTask, n: nat) {
    forall j :: 0 <= j < n && j < |t.dependsOn| ==> !BadDependency(spec, t, j)
  }

  /** All tasks are good, and this is the first bad dependency of the first task that has one. */
  ghost predicate FirstBadDependency(spec: WorkflowSpec, i: nat, j: nat) {
    && NoBadTask(spec) && i < |spec.tasks| && j < |spec.tasks[i].dependsOn|
    && BadDependency(spec, spec.tasks[i], j) && NoBadDependency(spec, spec.tasks[i], j)
    && forall k :: 0 <= k < i ==> NoBadDependency(spec, spec.tasks[k], |spec.tasks[k].dependsOn|)
  }

  /** Tasks are checked before dependencies and those before cycles, each list from the front. */
  ghost predicate ReasonLaw(spec: WorkflowSpec, reason: Reason) {
    && (spec.tasks == [] ==> reason == NoTasks)
    && (forall i: nat :: FirstBadTask(spec, i) ==> TaskReason(spec, i, reason))
    && (forall i: nat, j: nat :: FirstBadDependency(spec, i, j) ==> DependencyReason(spec, spec.tasks[i], j, reason))
    && (WellFormed(spec) ==> reason == CyclicDependency)
  }

  lemma TaskFaultMeans(spec: WorkflowSpec, i: nat)
    requires i < |spec.tasks|
    ensures TaskFault(spec, i).Some? <==> BadTask(spec, i)
    ensures TaskFault(spec, i).Some? ==>
              TaskReason(spec, i, TaskFault(spec, i).value) && Describes(spec, TaskFault(spec, i).value)
  {
  }

  lemma DependencyFaultMeans(spec: WorkflowSpec, i: nat, j: nat)
    requires i < |spec.tasks| && j < |spec.tasks[i].dependsOn|
    ensures var t := spec.tasks[i];
            var fault := DependencyFault(spec, t, j);
            && (fault.Some? <==> BadDependency(spec, t, j))
            && (fault.Some? ==> DependencyReason(spec, t, j, fault.value) && Describes(spec, fault.value))
  {
    var t := spec.tasks[i];
    var d := t.dependsOn[j];
    assert d in t.dependsOn;
    assert IsDeclared(spec, d) <==> d in NameSet(spec) by {
      if IsDeclared(spec, d) {
        var k :| 0 <= k < |spec.tasks| && spec.tasks[k].name == d;
        assert spec.tasks[k] in spec.tasks;
      }
    }
    if d in t.dependsOn[..j] {
      var k :| 0 <= k < j && t.dependsOn[..j][k] == d;
      assert t.dependsOn[k] == t.dependsOn[j];
    }
  }

  lemma CleanTasksAreGood(spec: WorkflowSpec, n: nat)
    requires TasksClean(spec, n)
    ensures forall k: nat :: k < n && k < |spec.tasks| ==> !BadTask(spec, k)
  {
    forall k: nat | k < n && k < |spec.tasks|
      ensures !BadTask(spec, k)
    {
      assert TaskFault(spec, k).None?;
      TaskFaultMeans(spec, k);
    }
  }

  lemma CleanDependenciesAreNotBad(spec: WorkflowSpec, i: nat, n: nat)
    requires i < |spec.tasks| && DependenciesClean(spec, spec.tasks[i], n)
    ensures NoBadDependency(spec, spec.tasks[i], n)
  {
    forall j: nat | j < n && j < |spec.tasks[i].dependsOn|
      ensures !BadDependency(spec, spec.tasks[i], j)
    {
      assert DependencyFault(spec, spec.tasks[i], j).None?;
      DependencyFaultMeans(spec, i, j);
    }
  }

  lemma FirstTaskReason(spec: WorkflowSpec, i: nat, reason: Reason)
    requires FirstTaskFault(spec, i, reason)
    ensures Describes(spec, reason) && ReasonLaw(spec, reason)
  {
    TaskFaultMeans(spec, i);
    CleanTasksAreGood(spec, i);
    assert !WellFormed(spec) by {
      WellFormedIffClean(spec);
    }
    assert forall k: nat :: FirstBadTask(spec, k) ==> k == i;
    assert !NoBadTask(spec);
  }

  lemma FirstDependencyReason(spec: WorkflowSpec, i: nat, j: nat, reason: Reason)
    requires FirstDependencyFault(spec, i, j, reason)
    ensures Describes(spec, reason) && ReasonLaw(spec, reason)
  {
    DependencyFaultMeans(spec, i, j);
    CleanTasksAreGood(spec, |spec.tasks|);
    CleanDependenciesAreNotBad(spec, i, j);
    forall k: nat | k < i
      ensures NoBadDependency(spec, spec.tasks[k], |spec.tasks[k].dependsOn|)
    {
      CleanDependenciesAreNotBad(spec, k, |spec.tasks[k].dependsOn|);
    }
    assert !WellFormed(spec) by {
      WellFormedIffClean(spec);
      assert !DependenciesClean(spec, spec.tasks[i], |spec.tasks[i].dependsOn|);
    }
    assert forall k: nat, l: nat :: FirstBadDependency(spec, k, l) ==> k == i && l == j;
  }

  lemma CyclicReason(spec: WorkflowSpec)
    requires WellFormed(spec)
    ensures ReasonLaw(spec, CyclicDependency)
    ensures !Acyclic(RelOf(spec)) ==> Describes(spec, CyclicDependency)
  {
    WellFormedIffClean(spec);
    CleanTasksAreGood(spec, |spec.tasks|);
    forall k: nat | k < |spec.tasks|
      ensures NoBadDependency(spec, spec.tasks[k], |spec.tasks[k].dependsOn|)
    {
      CleanDependenciesAreNotBad(spec, k, |spec.tasks[k].dependsOn|);
    }
    assert forall k: nat :: !FirstBadTask(spec, k);
    assert forall k: nat, l: nat :: !FirstBadDependency(spec, k, l);
  }

  /** Every reported reason says what is wrong, and follows the documented order of the checks. */
  lemma ReasonsMean(spec: WorkflowSpec)
    ensures forall e :: Explains(spec, e) ==> Describes(spec, e.reason) && ReasonLaw(spec, e.reason)
  {
    forall e | Explains(spec, e)
      ensures Describes(spec, e.reason) && ReasonLaw(spec, e.reason)
    {
      if spec.tasks != [] && WellFormed(spec) {
        CyclicReason(spec);
      } else if spec.tasks != [] {
        if i :| FirstTaskFault(spec, i, e.reason) {
          FirstTaskReason(spec, i, e.reason);
        } else {
          var i, j :| FirstDependencyFault(spec, i, j, e.reason);
          FirstDependencyReason(spec, i, j, e.reason);
        }
      }
    }
  }

  /** The declared nodes with their dependency sets, whatever the order of the listings. */
  ghost function Declared(spec: WorkflowSpec): set<(Name, set<Name>)> {
    set t | t in spec.tasks :: (t.name, Elements(t.dependsOn))
  }

  lemma RelIncludes(a: WorkflowSpec, b: WorkflowSpec)
    requires Declared(a) == Declared(b)
    ensures NameSet(a) <= NameSet(b)
    ensures forall n :: n in RelOf(a) ==> n in RelOf(b) && RelOf(a)[n] <= RelOf(b)[n]
  {
    forall n | n in NameSet(a)
      ensures n in NameSet(b)
    {
      var t :| t in a.tasks && t.name == n;
      assert (t.name, Elements(t.dependsOn)) in Declared(b);
    }
    forall n, d | n in RelOf(a) && d in RelOf(a)[n]
      ensures d in RelOf(b)[n]
    {
      var t :| t in a.tasks && t.name == n && d in t.dependsOn;
      assert (t.name, Elements(t.dependsOn)) in Declared(b);
      var u :| u in b.tasks && u.name == n && Elements(u.dependsOn) == Elements(t.dependsOn);
      assert d in Elements(u.dependsOn);
    }
  }

  lemma RelIgnoresListing(a: WorkflowSpec, b: WorkflowSpec)
    requires Declared(a) == Declared(b)
    ensures RelOf(a) == RelOf(b)
  {
    RelIncludes(a, b);
    RelIncludes(b, a);
    var p, q := RelOf(a), RelOf(b);
    assert p.Keys == q.Keys;
    assert forall n :: n in p ==> p[n] == q[n];
  }

  /** Neither the order nor the levels depend on declaration order or dependsOn order. */
  lemma BuildIgnoresListing(a: WorkflowSpec, b: WorkflowSpec, inA: seq<seq<Name>>, inB: seq<seq<Name>>)
    requires Declared(a) == Declared(b)
    requires CanonicalLevels(RelOf(a), inA) && CanonicalLevels(RelOf(b), inB)
    ensures CanonicalOrder(RelOf(a)) == CanonicalOrder(RelOf(b))
    ensures inA == inB
  {
    RelIgnoresListing(a, b);
    LevelsUnique(RelOf(a), inA, inB);
  }

  lemma RelOfWellFormed(spec: WorkflowSpec, t: WorkflowTask)
    requires WellFormed(spec) && t in spec.tasks
    ensures t.name in RelOf(spec) && RelOf(spec)[t.name] == Elements(t.dependsOn)
  {
    forall u | u in spec.tasks && u.name == t.name
      ensures u == t
    {
      var i :| 0 <= i < |spec.tasks| && spec.tasks[i] == t;
      var j :| 0 <= j < |spec.tasks| && spec.tasks[j] == u;
    }
  }

  // ---- names of child Tasks ------------------------------------------------------

  function ChildTaskName(workflowName: Name, nodeName: Name): Name {
    Name(workflowName.text + "-" + nodeName.text)
  }

  /** Distinct nodes of one Workflow never share a child Task. */
  lemma ChildTaskNameInjective(workflowName: Name, a: Name, b: Name)
    requires ChildTaskName(workflowName, a) == ChildTaskName(workflowName, b)
    ensures a == b
  {
    var prefix := workflowName.text + "-";
    assert a.text == (prefix + a.text)[|prefix|..] && b.text == (prefix + b.text)[|prefix|..];
  }

  /** The child Task names that are too long, in the order of their nodes. */
  function TooLong(workflowName: Name, order: seq<Name>): seq<Name> {
    if order == [] then []
    else
      var n := |order| - 1;
      var child := ChildTaskName(workflowName, order[n]);
      TooLong(workflowName, order[..n]) + if IsTooLong(workflowName, order[n]) then [child] else []
  }

  predicate IsTooLong(workflowName: Name, node: Name) {
    |ChildTaskName(workflowName, node).text| > MAX_TASK_NAME_LENGTH
  }

  /** A child Task name fits exactly when the Pod name derived from it, with a ten-digit time and a five-character
      suffix, has at most 63 characters. */
  lemma FittingNamesDerive(workflowName: Name, node: Name, seconds: string, suffix: string)
    requires |seconds| == 10 && |suffix| == 5
    ensures !IsTooLong(workflowName, node) <==>
              |ChildTaskName(workflowName, node).text + "-" + seconds + "-" + suffix| <= 63
  {
    assert |ChildTaskName(workflowName, node).text + "-" + seconds + "-" + suffix|
        == |ChildTaskName(workflowName, node).text| + 17;
  }

  /** Exactly the over-long names are reported, each with its own node. */
  lemma {:induction false} TooLongFinds(workflowName: Name, order: seq<Name>)
    ensures forall n :: n in order && IsTooLong(workflowName, n) ==>
              ChildTaskName(workflowName, n) in TooLong(workflowName, order)
    ensures forall c :: c in TooLong(workflowName, order) ==>
              exists n :: n in order && IsTooLong(workflowName, n) && c == ChildTaskName(workflowName, n)
  {
    if order != [] {
      var n := |order| - 1;
      TooLongFinds(workflowName, order[..n]);
      assert order == order[..n] + [order[n]];
    }
  }

  method ValidateChildTaskNames(workflowName: Name, order: seq<Name>) returns (offending: seq<Name>)
    ensures offending == TooLong(workflowName, order)
    ensures offending == [] <==> forall n :: n in order ==> !IsTooLong(workflowName, n)
  {
    offending := [];
    for i := 0 to |order|
      invariant offending == TooLong(workflowName, order[..i])
    {
      assert order[..i + 1][..i] == order[..i];
      var childName := ChildTaskName(workflowName, order[i]);
      if |childName.text| > MAX_TASK_NAME_LENGTH {
        offending := offending + [childName];
      }
    }
    assert order[..|order|] == order;
    TooLongFinds(workflowName, order);
    assert offending != [] ==> offending[0] in TooLong(workflowName, order);
  }

  // ---- the graph object -------------------------------------------------------------

  class Graph {
    var tasks: map<Name, WorkflowTask>
    var deps: map<Name, seq<Name>>
    var order: seq<Name>
    var levels: seq<seq<Name>>

    constructor ()
      ensures tasks == map[] && deps == map[] && order == [] && levels == []
    {
      tasks, deps, order, levels := map[], map[], [], [];
    }

    /** Direct dependencies; a node without an entry has none. */
    function Deps(name: Name): seq<Name>
      reads this`deps
    {
      Lookup(deps, name)
    }

    method ComputeOrder(ghost r: Rel) returns (error: Option<ValidationError>)
      requires Wires(r, tasks.Keys, deps) && order == []
      modifies this`order
      ensures error.None? <==> Acyclic(r)
      ensures error.None? ==> order == CanonicalOrder(r)
      ensures error.Some? ==> error.value == ValidationError(CyclicDependency, Listing(StuckNodes(r)))
    {
      order, error := Kahn(tasks.Keys, deps, r);
    }

    method ComputeLevels(ghost r: Rel)
      requires Wires(r, tasks.Keys, deps) && Acyclic(r) && order == CanonicalOrder(r)
      modifies this`levels
      ensures CanonicalLevels(r, levels)
    {
      levels := LongestPathLevels(order, deps, r, tasks.Keys);
    }
  }

  // ---- computeOrder and computeLevels -------------------------------------------------

  /** The adjacency list deps over the given nodes describes relation r. */
  ghost predicate Wires(r: Rel, names: set<Name>, deps: map<Name, seq<Name>>) {
    && r.Keys == names
    && deps.Keys <= names
    && forall n :: n in r ==> WiredNode(r, names, deps, n)
  }

  ghost predicate WiredNode(r: Rel, names: set<Name>, deps: map<Name, seq<Name>>, n: Name)
    requires n in r
  {
    NoRepeats(Lookup(deps, n)) && r[n] == Elements(Lookup(deps, n)) && r[n] <= names
  }

  /** Kahn's algorithm: the canonical order, or the nodes stuck behind a cycle. */
  method Kahn(names: set<Name>, deps: map<Name, seq<Name>>, ghost r: Rel)
    returns (order: seq<Name>, error: Option<ValidationError>)
    requires Wires(r, names, deps)
    ensures error.None? <==> Acyclic(r)
    ensures error.None? ==> order == CanonicalOrder(r)
    ensures error.Some? ==> error.value == ValidationError(CyclicDependency, Listing(StuckNodes(r)))
  {
    var indegree := CountDependencies(names, deps, r);
    var dependents := ReverseEdges(names, deps, r);
    ghost var k: nat;
    order, indegree, k := ReleaseAll(indegree, dependents, r);
    FinishOrder(r, k, order);
    if |order| != |names| {
      var stuck := PositiveDegrees(indegree);
      StuckAfterLastBatch(r, k, indegree, stuck);
      return order, Some(ValidationError(CyclicDependency, SortStrings(stuck)));
    }
    return order, None;
  }

  lemma FinishOrder(r: Rel, k: nat, o: seq<Name>)
    requires Closed(r)
    requires Batch(r, k) == {} && o == OrderUpTo(r, k)
    ensures o == CanonicalOrder(r)
    ensures |o| == |r.Keys| <==> Acyclic(r)
    ensures StuckNodes(r) == r.Keys - Done(r, k)
  {
    assert Done(r, k) == Done(r, |r|) && OrderUpTo(r, k) == OrderUpTo(r, |r|) by {
      DoneConverges(r, |r|);
      if k <= |r| {
        DoneStable(r, k, |r|);
        OrderStable(r, k, |r|);
      } else {
        DoneStable(r, |r|, k);
        OrderStable(r, |r|, k);
      }
    }
    OrderListsDone(r, k);
    NoRepeatsSize(o);
    DoneGrows(r, k, k);
    SubsetSize(Done(r, k), r.Keys);
    AcyclicIffAllDone(r);
    StuckNodesNeverDone(r);
  }

  lemma DegreeOf(names: set<Name>, deps: map<Name, seq<Name>>, r: Rel, n: Name)
    requires Wires(r, names, deps) && n in r
    ensures |Lookup(deps, n)| == |r[n]| == |r[n] - {}|
  {
    NoRepeatsSize(Lookup(deps, n));
    assert r[n] - {} == r[n];
  }

  method CountDependencies(names: set<Name>, deps: map<Name, seq<Name>>, ghost r: Rel)
    returns (indegree: map<Name, int>)
    requires Wires(r, names, deps)
    ensures Remaining(r, Done(r, 0), indegree)
  {
    indegree := map[];
    var rest := names;
    while rest != {}
      invariant rest <= names && indegree.Keys == names - rest
      invariant forall n :: n in indegree ==> indegree[n] == |Lookup(deps, n)|
      decreases |rest|
    {
      var name :| name in rest;
      indegree := indegree[name := |Lookup(deps, name)|];
      rest := rest - {name};
    }
    CountsRemain(names, deps, r, indegree);
  }

  lemma CountsRemain(names: set<Name>, deps: map<Name, seq<Name>>, r: Rel, indegree: map<Name, int>)
    requires Wires(r, names, deps) && indegree.Keys == names
    requires forall n :: n in indegree ==> indegree[n] == |Lookup(deps, n)|
    ensures Remaining(r, Done(r, 0), indegree)
  {
    forall n | n in r
      ensures indegree[n] == |r[n] - {}|
    {
      DegreeOf(names, deps, r, n);
    }
  }

  /** Who depends on each node, sorted by name. */
  method ReverseEdges(names: set<Name>, deps: map<Name, seq<Name>>, ghost r: Rel)
    returns (dependents: map<Name, seq<Name>>)
    requires Wires(r, names, deps)
    ensures Reversed(r, dependents)
  {
    dependents := CollectDependents(deps);
    CollectedUsers(r, names, deps, dependents);
    ghost var raw := dependents;
    var rest := dependents.Keys;
    while rest != {}
      invariant rest <= dependents.Keys == raw.Keys
      invariant forall x :: x in rest ==> dependents[x] == raw[x]
      invariant forall x :: x in dependents.Keys - rest ==> dependents[x] == Listing(Users(r, x))
      decreases |rest|
    {
      var name :| name in rest;
      assert Lookup(raw, name) == raw[name];
      SortIsListing(dependents[name]);
      dependents := dependents[name := SortStrings(dependents[name])];
      rest := rest - {name};
    }
    forall x
      ensures Lookup(dependents, x) == Listing(Users(r, x))
    {
      if x !in dependents {
        assert Elements(Lookup(raw, x)) == {};
      }
    }
  }

  method CollectDependents(deps: map<Name, seq<Name>>) returns (dependents: map<Name, seq<Name>>)
    requires forall n :: n in deps ==> NoRepeats(deps[n])
    ensures Collected(deps, deps.Keys, dependents)
  {
    dependents := map[];
    var rest := deps.Keys;
    while rest != {}
      invariant rest <= deps.Keys
      invariant Collected(deps, deps.Keys - rest, dependents)
      decreases |rest|
    {
      var name :| name in rest;
      dependents := AddDependent(name, deps[name], dependents, deps, deps.Keys - rest);
      assert deps.Keys - (rest - {name}) == deps.Keys - rest + {name};
      rest := rest - {name};
    }
    assert deps.Keys - rest == deps.Keys;
  }

  lemma CollectedUsers(r: Rel, names: set<Name>, deps: map<Name, seq<Name>>, dependents: map<Name, seq<Name>>)
    requires Wires(r, names, deps) && Collected(deps, deps.Keys, dependents)
    ensures forall x :: NoRepeats(Lookup(dependents, x)) && Elements(Lookup(dependents, x)) == Users(r, x)
  {
    forall x
      ensures Elements(Lookup(dependents, x)) == Users(r, x)
    {
      forall m
        ensures m in Users(r, x) <==> m in Lookup(dependents, x)
      {
        assert m in r ==> (x in r[m] <==> x in Lookup(deps, m));
      }
    }
  }

  /** The longest-path programme of computeLevels agrees with Kahn's batches. */
  method LongestPathLevels(order: seq<Name>, deps: map<Name, seq<Name>>, ghost r: Rel, ghost names: set<Name>)
    returns (levels: seq<seq<Name>>)
    requires Wires(r, names, deps) && Acyclic(r) && order == CanonicalOrder(r)
    ensures CanonicalLevels(r, levels)
  {
    CanonicalOrderIsTopological(r);
    var levelOf, maxLevel := AssignLevels(order, deps, r);
    assert forall i :: 0 <= i < |order| ==> order[i] in Elements(order);
    levels := PackLevels(order, levelOf, maxLevel);
    LevelsComplete(r, levelOf, maxLevel, levels);
  }

  method PackLevels(order: seq<Name>, levelOf: map<Name, nat>, maxLevel: int) returns (packed: seq<seq<Name>>)
    requires maxLevel >= -1
    requires forall i :: 0 <= i < |order| ==> order[i] in levelOf && levelOf[order[i]] <= maxLevel
    ensures |packed| == maxLevel + 1
    ensures forall k :: 0 <= k < |packed| ==> packed[k] == AtLevel(order, levelOf, k)
  {
    packed := seq(maxLevel + 1, _ => []);
    for i := 0 to |order|
      invariant |packed| == maxLevel + 1
      invariant forall k :: 0 <= k < |packed| ==> packed[k] == AtLevel(order[..i], levelOf, k)
    {
      var name := order[i];
      var level := levelOf[name];
      assert order[..i + 1][..i] == order[..i];
      packed := packed[level := packed[level] + [name]];
    }
    assert order[..|order|] == order;
  }

  // ---- reversing the edges --------------------------------------------------------------

  /** The reverse adjacency of the nodes in seen. */
  ghost predicate Collected(deps: map<Name, seq<Name>>, seen: set<Name>, dependents: map<Name, seq<Name>>) {
    && (forall x :: NoRepeats(Lookup(dependents, x)))
    && (forall x, m :: m in Lookup(dependents, x) <==> m in deps && m in seen && x in deps[m])
  }

  ghost function Extended(found: map<Name, seq<Name>>, targets: seq<Name>, name: Name, x: Name): seq<Name> {
    if x in targets then Lookup(found, x) + [name] else Lookup(found, x)
  }

  method AddDependent(name: Name, targets: seq<Name>, found: map<Name, seq<Name>>,
                      ghost deps: map<Name, seq<Name>>, ghost seen: set<Name>)
    returns (dependents: map<Name, seq<Name>>)
    requires name in deps && targets == deps[name] && name !in seen && NoRepeats(targets)
    requires Collected(deps, seen, found)
    ensures Collected(deps, seen + {name}, dependents)
  {
    dependents := found;
    for j := 0 to |targets|
      invariant forall x :: Lookup(dependents, x) == Extended(found, targets[..j], name, x)
    {
      var dep := targets[j];
      assert targets[..j + 1] == targets[..j] + [dep];
      assert dep !in targets[..j];
      ghost var before := dependents;
      dependents := dependents[dep := Lookup(dependents, dep) + [name]];
      forall x
        ensures Lookup(dependents, x) == Extended(found, targets[..j + 1], name, x)
      {
        assert Lookup(before, x) == Extended(found, targets[..j], name, x);
        assert x in targets[..j + 1] <==> x in targets[..j] || x == dep;
      }
    }
    assert targets[..|targets|] == targets;
    CollectedOneMore(name, targets, found, deps, seen, dependents);
  }

  lemma CollectedOneMore(name: Name, targets: seq<Name>, found: map<Name, seq<Name>>,
                         deps: map<Name, seq<Name>>, seen: set<Name>, dependents: map<Name, seq<Name>>)
    requires name in deps && targets == deps[name] && name !in seen
    requires Collected(deps, seen, found)
    requires forall x :: Lookup(dependents, x) == Extended(found, targets, name, x)
    ensures Collected(deps, seen + {name}, dependents)
  {
    forall x
      ensures NoRepeats(Lookup(dependents, x))
    {
      assert name !in Lookup(found, x);
    }
    forall x, m
      ensures m in Lookup(dependents, x) <==> m in deps && m in seen + {name} && x in deps[m]
    {
      assert m in Lookup(found, x) <==> m in deps && m in seen && x in deps[m];
    }
  }

  // ---- steps of Kahn's algorithm -----------------------------------------------------

  lemma NoneRemain(r: Rel, gone: set<Name>, indegree: map<Name, int>, m: Name)
    requires Remaining(r, gone, indegree) && m in r
    ensures indegree[m] >= 0
    ensures indegree[m] == 0 <==> r[m] <= gone
  {
    var left := r[m] - gone;
    assert left == {} <==> |left| == 0;
    assert left == {} ==> r[m] <= gone by {
      if left == {} {
        forall x | x in r[m]
          ensures x in gone
        {
          assert x !in left;
        }
      }
    }
  }

  lemma ZeroMeansDone(r: Rel, k: nat, indegree: map<Name, int>, m: Name)
    requires Remaining(r, Done(r, k), indegree) && m in r
    ensures indegree[m] >= 0
    ensures indegree[m] == 0 <==> m in Done(r, k + 1)
  {
    NoneRemain(r, Done(r, k), indegree, m);
  }

  /** Released by now but not before: the nodes to put into the next batch. */
  ghost predicate Released(r: Rel, before: set<Name>, indegree: map<Name, int>, next: seq<Name>) {
    && NoRepeats(next)
    && forall m :: m in next <==> Freed(r, before, indegree, m)
  }

  ghost predicate Freed(r: Rel, before: set<Name>, indegree: map<Name, int>, m: Name) {
    m in r && m in indegree && indegree[m] == 0 && !(r[m] <= before)
  }

  /** One round of Kahn's algorithm: release the users of the current batch. */
  method ReleaseBatch(current: seq<Name>, dependents: map<Name, seq<Name>>, degrees: map<Name, int>,
                      ghost r: Rel, ghost k: nat) returns (next: seq<Name>, indegree: map<Name, int>)
    requires current == Listing(Batch(r, k))
    requires Reversed(r, dependents)
    requires Remaining(r, Done(r, k), degrees)
    ensures next == Listing(Batch(r, k + 1))
    ensures Remaining(r, Done(r, k + 1), indegree)
  {
    ghost var before := Done(r, k);
    next, indegree := [], degrees;
    NothingReleased(r, before, indegree);
    for i := 0 to |current|
      invariant Remaining(r, before + Elements(current[..i]), indegree)
      invariant Released(r, before, indegree, next)
    {
      var name := current[i];
      ghost var gone := before + Elements(current[..i]);
      NextOfBatch(r, k, current, i);
      next, indegree := ReleaseUsers(name, Lookup(dependents, name), next, indegree, r, gone, before);
    }
    assert current[..|current|] == current;
    DonePartition(r, k);
    NextBatch(r, k, indegree, next);
    next := SortStrings(next);
  }

  lemma NothingReleased(r: Rel, before: set<Name>, indegree: map<Name, int>)
    requires Remaining(r, before, indegree)
    ensures Remaining(r, before + Elements([]), indegree)
    ensures Released(r, before, indegree, [])
  {
    assert before + Elements([]) == before;
    forall m | m in r
      ensures indegree[m] == 0 <==> r[m] <= before
    {
      NoneRemain(r, before, indegree, m);
    }
  }

  lemma NextOfBatch(r: Rel, k: nat, current: seq<Name>, i: nat)
    requires current == Listing(Batch(r, k)) && i < |current|
    ensures current[i] !in Done(r, k) + Elements(current[..i])
    ensures Done(r, k) + Elements(current[..i + 1]) == Done(r, k) + Elements(current[..i]) + {current[i]}
  {
    assert current[i] in Elements(current);
    assert current[i] !in current[..i];
    assert current[..i + 1] == current[..i] + [current[i]];
    ElementsConcat(current[..i], [current[i]]);
  }

  lemma FreedIsBatch(r: Rel, k: nat, indegree: map<Name, int>, m: Name)
    requires Remaining(r, Done(r, k + 1), indegree)
    ensures Freed(r, Done(r, k), indegree, m) <==> m in Batch(r, k + 1)
  {
    if m in r {
      ZeroMeansDone(r, k + 1, indegree, m);
      assert m in Done(r, k + 1) <==> r[m] <= Done(r, k);
    }
  }

  lemma NextBatch(r: Rel, k: nat, indegree: map<Name, int>, next: seq<Name>)
    requires Remaining(r, Done(r, k + 1), indegree)
    requires Released(r, Done(r, k), indegree, next)
    ensures SortStrings(next) == Listing(Batch(r, k + 1))
  {
    forall m
      ensures m in next <==> m in Batch(r, k + 1)
    {
      FreedIsBatch(r, k, indegree, m);
    }
    assert Elements(next) == Batch(r, k + 1);
    SortIsListing(next);
  }

  /** The rounds of Kahn's algorithm, until a batch comes out empty. */
  method ReleaseAll(degrees: map<Name, int>, dependents: map<Name, seq<Name>>, ghost r: Rel)
    returns (order: seq<Name>, indegree: map<Name, int>, ghost k: nat)
    requires Reversed(r, dependents)
    requires Remaining(r, Done(r, 0), degrees)
    ensures Batch(r, k) == {} && order == OrderUpTo(r, k)
    ensures Remaining(r, Done(r, k), indegree)
  {
    order, indegree, k := [], degrees, 0;
    var current := ZeroDegrees(indegree);
    FirstBatch(r, indegree, current);
    current := SortStrings(current);
    while current != []
      invariant current == Listing(Batch(r, k))
      invariant order == OrderUpTo(r, k)
      invariant Remaining(r, Done(r, k), indegree)
      decreases |r.Keys| - |Done(r, k)|
    {
      Progress(r, k);
      order := order + current;
      current, indegree := ReleaseBatch(current, dependents, indegree, r, k);
      k := k + 1;
    }
  }

  lemma Progress(r: Rel, k: nat)
    requires Batch(r, k) != {}
    ensures |Done(r, k)| < |Done(r, k + 1)| <= |r.Keys|
  {
    DonePartition(r, k);
    DoneGrows(r, k + 1, k + 1);
    SubsetSize(Done(r, k + 1), r.Keys);
    assert |Batch(r, k)| > 0;
  }

  /** In-degrees while the users of one node are being visited. */
  ghost predicate PartlyReleased(r: Rel, gone: set<Name>, name: Name, visited: seq<Name>,
                                 indegree: map<Name, int>)
  {
    && indegree.Keys == r.Keys
    && forall m :: m in r ==> indegree[m] == |r[m] - if m in visited then gone + {name} else gone|
  }

  method ReleaseUsers(name: Name, users: seq<Name>, ready: seq<Name>, degrees: map<Name, int>,
                      ghost r: Rel, ghost gone: set<Name>, ghost before: set<Name>)
    returns (next: seq<Name>, indegree: map<Name, int>)
    requires name !in gone && before <= gone
    requires users == Listing(Users(r, name))
    requires Remaining(r, gone, degrees)
    requires Released(r, before, degrees, ready)
    ensures Remaining(r, gone + {name}, indegree)
    ensures Released(r, before, indegree, next)
  {
    next, indegree := ready, degrees;
    for j := 0 to |users|
      invariant PartlyReleased(r, gone, name, users[..j], indegree)
      invariant Released(r, before, indegree, next)
    {
      var user := users[j];
      assert user in Elements(users);
      OneFewer(r[user], gone, name);
      ghost var degrees' := indegree;
      indegree := indegree[user := indegree[user] - 1];
      VisitUser(r, gone, name, users, j, degrees', indegree);
      ReleaseUser(r, before, user, degrees', indegree, next);
      if indegree[user] == 0 {
        next := next + [user];
      }
    }
    AllUsersVisited(r, gone, name, users, indegree);
  }

  lemma VisitUser(r: Rel, gone: set<Name>, name: Name, users: seq<Name>, j: nat,
                  degrees: map<Name, int>, indegree: map<Name, int>)
    requires name !in gone
    requires NoRepeats(users) && j < |users| && users[j] in r && name in r[users[j]]
    requires PartlyReleased(r, gone, name, users[..j], degrees)
    requires indegree == degrees[users[j] := degrees[users[j]] - 1]
    ensures PartlyReleased(r, gone, name, users[..j + 1], indegree)
    ensures degrees[users[j]] > 0
  {
    OneFewer(r[users[j]], gone, name);
    assert users[..j + 1] == users[..j] + [users[j]];
    assert users[j] !in users[..j];
  }

  lemma ReleaseUser(r: Rel, before: set<Name>, user: Name, degrees: map<Name, int>,
                    indegree: map<Name, int>, next: seq<Name>)
    requires Released(r, before, degrees, next)
    requires user in r && !(r[user] <= before)
    requires user in degrees && degrees[user] > 0 && indegree == degrees[user := degrees[user] - 1]
    ensures Released(r, before, indegree, if indegree[user] == 0 then next + [user] else next)
  {
    assert !Freed(r, before, degrees, user);
    forall m
      ensures Freed(r, before, indegree, m) <==> Freed(r, before, degrees, m) || (m == user && indegree[user] == 0)
    {
    }
  }

  lemma AllUsersVisited(r: Rel, gone: set<Name>, name: Name, users: seq<Name>, indegree: map<Name, int>)
    requires users == Listing(Users(r, name))
    requires PartlyReleased(r, gone, name, users[..|users|], indegree)
    ensures Remaining(r, gone + {name}, indegree)
  {
    assert users[..|users|] == users;
    forall m | m in r
      ensures indegree[m] == |r[m] - (gone + {name})|
    {
      if m !in Elements(users) {
        assert r[m] - (gone + {name}) == r[m] - gone;
      }
    }
  }

  lemma OneFewer<T>(s: set<T>, gone: set<T>, x: T)
    requires x in s && x !in gone
    ensures |s - gone| == |s - (gone + {x})| + 1
  {
    assert s - gone == (s - (gone + {x})) + {x};
  }

  /** The nodes with no dependency left, in the arbitrary order of a map iteration. */
  method ZeroDegrees(indegree: map<Name, int>) returns (current: seq<Name>)
    ensures NoRepeats(current)
    ensures forall n :: n in current <==> n in indegree && indegree[n] == 0
  {
    current := [];
    var rest := indegree.Keys;
    while rest != {}
      invariant rest <= indegree.Keys
      invariant NoRepeats(current)
      invariant forall n :: n in current <==> n in indegree && n !in rest && indegree[n] == 0
      decreases |rest|
    {
      var name :| name in rest;
      if indegree[name] == 0 {
        current := current + [name];
      }
      rest := rest - {name};
    }
  }

  lemma InFirstBatch(r: Rel, indegree: map<Name, int>, n: Name)
    requires Remaining(r, Done(r, 0), indegree)
    ensures n in Batch(r, 0) <==> n in indegree && indegree[n] == 0
  {
    DoneGrows(r, 1, 1);
    if n in r {
      ZeroMeansDone(r, 0, indegree, n);
    }
  }

  lemma FirstBatch(r: Rel, indegree: map<Name, int>, current: seq<Name>)
    requires Remaining(r, Done(r, 0), indegree) && NoRepeats(current)
    requires forall n :: n in current <==> n in indegree && indegree[n] == 0
    ensures SortStrings(current) == Listing(Batch(r, 0))
  {
    forall n
      ensures n in current <==> n in Batch(r, 0)
    {
      InFirstBatch(r, indegree, n);
    }
    assert Elements(current) == Batch(r, 0);
    SortIsListing(current);
  }

  /** The nodes whose in-degree never reached zero. */
  method PositiveDegrees(indegree: map<Name, int>) returns (stuck: seq<Name>)
    ensures NoRepeats(stuck)
    ensures forall n :: n in stuck <==> n in indegree && indegree[n] > 0
  {
    stuck := [];
    var rest := indegree.Keys;
    while rest != {}
      invariant rest <= indegree.Keys
      invariant NoRepeats(stuck)
      invariant forall n :: n in stuck <==> n in indegree && n !in rest && indegree[n] > 0
      decreases |rest|
    {
      var name :| name in rest;
      if indegree[name] > 0 {
        stuck := stuck + [name];
      }
      rest := rest - {name};
    }
  }

  lemma StuckAfterLastBatch(r: Rel, k: nat, indegree: map<Name, int>, stuck: seq<Name>)
    requires Remaining(r, Done(r, k), indegree) && Batch(r, k) == {} && NoRepeats(stuck)
    requires forall n :: n in stuck <==> n in indegree && indegree[n] > 0
    ensures SortStrings(stuck) == Listing(r.Keys - Done(r, k))
  {
    DonePartition(r, k);
    forall m
      ensures m in stuck <==> m in r.Keys - Done(r, k)
    {
      if m in r {
        ZeroMeansDone(r, k, indegree, m);
      }
    }
    assert Elements(stuck) == r.Keys - Done(r, k);
    SortIsListing(stuck);
  }

  /** Every level given is the node's batch. */
  ghost predicate Batched(r: Rel, levelOf: map<Name, nat>) {
    forall n {:trigger InBatch(r, levelOf, n)} :: n in levelOf ==> InBatch(r, levelOf, n)
  }

  ghost predicate InBatch(r: Rel, levelOf: map<Name, nat>, n: Name)
    requires n in levelOf
  {
    n in Batch(r, levelOf[n])
  }

  /** Levels given so far: each node's level is its batch, and maxLevel is attained. */
  ghost predicate Levelled(r: Rel, levelOf: map<Name, nat>, maxLevel: int) {
    && maxLevel >= -1
    && Batched(r, levelOf)
    && (forall n :: n in levelOf ==> levelOf[n] <= maxLevel)
    && (maxLevel >= 0 ==> exists n :: n in levelOf && levelOf[n] == maxLevel)
  }

  lemma NextInOrder(r: Rel, order: seq<Name>, i: nat)
    requires Elements(order) <= r.Keys && NoRepeats(order) && DepsFirst(r, order) && i < |order|
    ensures order[i] in r && r[order[i]] <= Elements(order[..i])
    ensures order[i] !in Elements(order[..i])
    ensures Elements(order[..i + 1]) == Elements(order[..i]) + {order[i]}
  {
    assert order[i] in Elements(order);
    assert order[..i + 1] == order[..i] + [order[i]];
    ElementsConcat(order[..i], [order[i]]);
  }

  method AssignLevels(order: seq<Name>, deps: map<Name, seq<Name>>, ghost r: Rel)
    returns (levelOf: map<Name, nat>, maxLevel: int)
    requires Elements(order) <= r.Keys && NoRepeats(order) && DepsFirst(r, order)
    requires forall n :: n in r ==> r[n] == Elements(Lookup(deps, n))
    ensures levelOf.Keys == Elements(order)
    ensures Levelled(r, levelOf, maxLevel)
  {
    levelOf, maxLevel := map[], -1;
    for i := 0 to |order|
      invariant levelOf.Keys == Elements(order[..i])
      invariant Levelled(r, levelOf, maxLevel)
    {
      var name := order[i];
      NextInOrder(r, order, i);
      var level := LevelAfter(Lookup(deps, name), levelOf, r, name);
      LevelOneMore(r, levelOf, maxLevel, name, level);
      levelOf := levelOf[name := level];
      if level > maxLevel {
        maxLevel := level;
      }
    }
    assert order[..|order|] == order;
  }

  lemma LevelOneMore(r: Rel, levelOf: map<Name, nat>, maxLevel: int, name: Name, level: nat)
    requires Levelled(r, levelOf, maxLevel) && name in Batch(r, level) && name !in levelOf
    ensures Levelled(r, levelOf[name := level], if level > maxLevel then level else maxLevel)
  {
    var levelOf' := levelOf[name := level];
    forall n | n in levelOf'
      ensures InBatch(r, levelOf', n)
    {
      assert n in levelOf ==> InBatch(r, levelOf, n);
    }
    if level <= maxLevel {
      var n :| n in levelOf && levelOf[n] == maxLevel;
      assert levelOf'[n] == maxLevel;
    } else {
      assert levelOf'[name] == level;
    }
  }

  /** One step of the longest-path programme. */
  method LevelAfter(deps: seq<Name>, levelOf: map<Name, nat>, ghost r: Rel, ghost name: Name)
    returns (level: nat)
    requires name in r && r[name] == Elements(deps) <= levelOf.Keys
    requires Batched(r, levelOf)
    ensures name in Batch(r, level)
  {
    level := 0;
    assert forall i :: 0 <= i < |deps| ==> deps[i] in Elements(deps);
    for j := 0 to |deps|
      invariant forall i :: 0 <= i < j ==> levelOf[deps[i]] < level
      invariant level > 0 ==> exists i :: 0 <= i < j && levelOf[deps[i]] == level - 1
    {
      var candidate := levelOf[deps[j]] + 1;
      if candidate > level {
        level := candidate;
      }
    }
    LevelIsBatch(deps, levelOf, r, name, level);
  }

  lemma LevelIsBatch(deps: seq<Name>, levelOf: map<Name, nat>, r: Rel, name: Name, level: nat)
    requires name in r && r[name] == Elements(deps) <= levelOf.Keys
    requires Batched(r, levelOf)
    requires forall i :: 0 <= i < |deps| ==> deps[i] in levelOf
    requires forall i :: 0 <= i < |deps| ==> levelOf[deps[i]] < level
    requires level > 0 ==> exists i :: 0 <= i < |deps| && levelOf[deps[i]] == level - 1
    ensures name in Batch(r, level)
  {
    forall d | d in r[name]
      ensures d in Done(r, level)
    {
      var i :| 0 <= i < |deps| && deps[i] == d;
      assert InBatch(r, levelOf, d);
      DoneGrows(r, levelOf[d] + 1, level);
    }
    if level > 0 {
      var i :| 0 <= i < |deps| && levelOf[deps[i]] == level - 1;
      assert deps[i] in r[name] && InBatch(r, levelOf, deps[i]);
    }
  }

  /** The entries of an order that were given level k. */
  ghost function AtLevel(order: seq<Name>, levelOf: map<Name, nat>, k: nat): seq<Name> {
    if order == [] then []
    else
      var n := |order| - 1;
      AtLevel(order[..n], levelOf, k) +
      (if order[n] in levelOf && levelOf[order[n]] == k then [order[n]] else [])
  }

  lemma {:induction false} AtLevelConcat(a: seq<Name>, b: seq<Name>, levelOf: map<Name, nat>, k: nat)
    ensures AtLevel(a + b, levelOf, k) == AtLevel(a, levelOf, k) + AtLevel(b, levelOf, k)
  {
    if b == [] {
      assert a + b == a;
    } else {
      var n := |b| - 1;
      AtLevelConcat(a, b[..n], levelOf, k);
      assert (a + b)[..|a + b| - 1] == a + b[..n];
      assert (a + b)[|a + b| - 1] == b[n];
    }
  }

  lemma {:induction false} AtLevelUniform(s: seq<Name>, levelOf: map<Name, nat>, j: nat, k: nat)
    requires forall x :: x in s ==> x in levelOf && levelOf[x] == j
    ensures AtLevel(s, levelOf, k) == if j == k then s else []
  {
    if s != [] {
      AtLevelUniform(s[..|s| - 1], levelOf, j, k);
      assert s == s[..|s| - 1] + [s[|s| - 1]];
    }
  }

  lemma AtLevelAppend(front: seq<Name>, last: seq<Name>, levelOf: map<Name, nat>, j: nat, k: nat)
    requires forall x :: x in last ==> x in levelOf && levelOf[x] == j
    ensures j != k ==> AtLevel(front + last, levelOf, k) == AtLevel(front, levelOf, k)
    ensures j == k && AtLevel(front, levelOf, k) == [] ==> AtLevel(front + last, levelOf, k) == last
  {
    AtLevelConcat(front, last, levelOf, k);
    AtLevelUniform(last, levelOf, j, k);
  }

  lemma {:induction false} AtLevelOfFlatten(layers: seq<seq<Name>>, levelOf: map<Name, nat>, k: nat)
    requires forall j, x :: 0 <= j < |layers| && x in layers[j] ==> x in levelOf && levelOf[x] == j
    ensures AtLevel(Flatten(layers), levelOf, k) == if k < |layers| then layers[k] else []
  {
    if layers != [] {
      var h := |layers| - 1;
      AtLevelOfFlatten(layers[..h], levelOf, k);
      AtLevelAppend(Flatten(layers[..h]), layers[h], levelOf, h, k);
    }
  }

  lemma AtLevelOfOrder(r: Rel, levelOf: map<Name, nat>, k: nat, h: nat)
    requires levelOf.Keys == r.Keys && Batched(r, levelOf) && k < h
    ensures AtLevel(OrderUpTo(r, h), levelOf, k) == Listing(Batch(r, k))
  {
    var layers := seq(h, (j: int) requires 0 <= j => Listing(Batch(r, j)));
    FlattenPrefix(r, layers, h);
    assert layers[..h] == layers;
    forall j, x | 0 <= j < h && x in layers[j]
      ensures x in levelOf && levelOf[x] == j
    {
      BatchHasOneLevel(r, levelOf, j);
    }
    AtLevelOfFlatten(layers, levelOf, k);
  }

  lemma BatchHasOneLevel(r: Rel, levelOf: map<Name, nat>, h: nat)
    requires levelOf.Keys == r.Keys && Batched(r, levelOf)
    ensures forall x :: x in Listing(Batch(r, h)) ==> x in levelOf && levelOf[x] == h
  {
    DoneGrows(r, h + 1, h + 1);
    forall x | x in Listing(Batch(r, h))
      ensures x in levelOf && levelOf[x] == h
    {
      assert x in Elements(Listing(Batch(r, h)));
      assert InBatch(r, levelOf, x);
      BatchesDisjoint(r, x, h, levelOf[x]);
    }
  }

  lemma BatchesDisjoint(r: Rel, n: Name, j: nat, k: nat)
    requires n in Batch(r, j) && n in Batch(r, k)
    ensures j == k
  {
    if j < k {
      DoneGrows(r, j + 1, k);
    } else if k < j {
      DoneGrows(r, k + 1, j);
    }
  }

  lemma LevelsComplete(r: Rel, levelOf: map<Name, nat>, maxLevel: int, levels: seq<seq<Name>>)
    requires Closed(r) && Acyclic(r) && levelOf.Keys == r.Keys
    requires Levelled(r, levelOf, maxLevel)
    requires |levels| == maxLevel + 1
    requires forall k :: 0 <= k < |levels| ==> levels[k] == AtLevel(CanonicalOrder(r), levelOf, k)
    ensures CanonicalLevels(r, levels)
  {
    var h := |levels|;
    AllPlaced(r, levelOf, maxLevel);
    forall k | 0 <= k < h
      ensures levels[k] == Listing(Batch(r, k)) && levels[k] != []
    {
      OneLevel(r, levelOf, maxLevel, k);
    }
  }

  lemma AllPlaced(r: Rel, levelOf: map<Name, nat>, maxLevel: int)
    requires levelOf.Keys == r.Keys && Levelled(r, levelOf, maxLevel)
    ensures Done(r, maxLevel + 1) == r.Keys
  {
    DoneGrows(r, maxLevel + 1, maxLevel + 1);
    forall n | n in r
      ensures n in Done(r, maxLevel + 1)
    {
      assert InBatch(r, levelOf, n);
      DoneGrows(r, levelOf[n] + 1, maxLevel + 1);
    }
  }

  lemma OneLevel(r: Rel, levelOf: map<Name, nat>, maxLevel: int, k: nat)
    requires Closed(r) && Acyclic(r) && levelOf.Keys == r.Keys
    requires Levelled(r, levelOf, maxLevel) && k <= maxLevel
    ensures AtLevel(CanonicalOrder(r), levelOf, k) == Listing(Batch(r, k)) != []
  {
    var n :| n in levelOf && levelOf[n] == maxLevel;
    assert InBatch(r, levelOf, n);
    LaterBatchImpliesEarlier(r, k, maxLevel);
    if k >= |r| {
      DoneConverges(r, k);
      assert false;
    }
    AtLevelOfOrder(r, levelOf, k, |r|);
  }

  lemma LaterBatchImpliesEarlier(r: Rel, j: nat, k: nat)
    requires j <= k && Batch(r, k) != {}
    ensures Batch(r, j) != {}
  {
    if Batch(r, j) == {} {
      DoneStable(r, j, k);
      BatchesEndTogether(r, k);
    }
  }

  /** Reading an adjacency map: a missing entry is an empty list. */
  function Lookup(m: map<Name, seq<Name>>, x: Name): seq<Name> {
    if x in m then m[x] else []
  }

  /** The nodes that depend directly on x. */
  ghost function Users(r: Rel, x: Name): set<Name> {
    set n | n in r && x in r[n]
  }

  /** The adjacency map lists the users of every node, sorted. */
  ghost predicate Reversed(r: Rel, dependents: map<Name, seq<Name>>) {
    forall x :: Lookup(dependents, x) == Listing(Users(r, x))
  }

  /** Each in-degree counts the dependencies not yet gone. */
  ghost predicate Remaining(r: Rel, gone: set<Name>, indegree: map<Name, int>) {
    && indegree.Keys == r.Keys
    && forall n :: n in r ==> indegree[n] == |r[n] - gone|
  }

  // ---- Build ----------------------------------------------------------------------

  ghost predicate LoadedAll(g: Graph, spec: WorkflowSpec)
    reads g`tasks, g`deps
  {
    && g.tasks.Keys == NameSet(spec)
    && (forall t :: t in spec.tasks ==> g.tasks[t.name] == t && g.Deps(t.name) == t.dependsOn)
  }

  /** What a successfully built graph is, in terms of its spec alone. */
  ghost predicate Represents(g: Graph, spec: WorkflowSpec)
    reads g
  {
    && LoadedAll(g, spec)
    && g.order == CanonicalOrder(RelOf(spec))
    && CanonicalLevels(RelOf(spec), g.levels)
  }

  /** Build succeeds exactly on well-formed acyclic specs, and otherwise names the first fault. */
  method Build(spec: WorkflowSpec) returns (result: Result<Graph>)
    ensures result.Ok? <==> WellFormed(spec) && Acyclic(RelOf(spec))
    ensures result.Ok? ==> fresh(result.value) && Represents(result.value, spec)
    ensures result.Err? ==> Explains(spec, result.error)
    ensures result.Err? ==> Describes(spec, result.error.reason) && ReasonLaw(spec, result.error.reason)
  {
    WellFormedIffClean(spec);
    ReasonsMean(spec);
    if |spec.tasks| == 0 {
      return Err(ValidationError(NoTasks, []));
    }
    var g := new Graph();
    var fault := LoadTasks(g, spec);
    if fault.Some? {
      return Err(ValidationError(fault.value, []));
    }
    fault := LoadDependencies(g, spec);
    if fault.Some? {
      return Err(ValidationError(fault.value, []));
    }
    ghost var r := RelOf(spec);
    LoadedWiring(g, spec);
    result := Finish(g, r);
  }

  method Finish(g: Graph, ghost r: Rel) returns (result: Result<Graph>)
    requires g.order == [] && Wires(r, g.tasks.Keys, g.deps)
    modifies g`order, g`levels
    ensures result.Ok? <==> Acyclic(r)
    ensures result.Ok? ==> result.value == g && g.order == CanonicalOrder(r) && CanonicalLevels(r, g.levels)
    ensures result.Err? ==> result.error == ValidationError(CyclicDependency, Listing(StuckNodes(r)))
  {
    var cyclic := g.ComputeOrder(r);
    if cyclic.Some? {
      return Err(cyclic.value);
    }
    g.ComputeLevels(r);
    return Ok(g);
  }

  ghost predicate TasksLoaded(g: Graph, spec: WorkflowSpec, n: nat)
    requires n <= |spec.tasks|
    reads g`tasks
  {
    && g.tasks.Keys == NamesUpTo(spec, n)
    && forall i :: 0 <= i < n ==> g.tasks[spec.tasks[i].name] == spec.tasks[i]
  }

  method LoadTasks(g: Graph, spec: WorkflowSpec) returns (fault: Option<Reason>)
    requires g.tasks == map[]
    modifies g`tasks
    ensures fault.None? ==> TasksClean(spec, |spec.tasks|) && TasksLoaded(g, spec, |spec.tasks|)
    ensures fault.Some? ==> exists i :: FirstTaskFault(spec, i, fault.value)
  {
    for i := 0 to |spec.tasks|
      invariant TasksClean(spec, i) && TasksLoaded(g, spec, i)
    {
      var task := spec.tasks[i];
      assert task.name in g.tasks <==> NameTakenBefore(spec, i);
      fault := None;
      if task.name.text == "" {
        fault := Some(InvalidTask);
      } else if task.name in g.tasks {
        fault := Some(DuplicateTaskName);
      } else if (task.template.text != "") == task.hasTaskSpec {
        fault := Some(InvalidTask);
      } else if task.template.text != "" && task.template !in spec.taskTemplates {
        fault := Some(MissingTemplate);
      }
      assert fault == TaskFault(spec, i);
      if fault.Some? {
        assert FirstTaskFault(spec, i, fault.value);
        return;
      }
      g.tasks := g.tasks[task.name := task];
    }
    return None;
  }

  ghost function NamesUpTo(spec: WorkflowSpec, n: nat): set<Name>
    requires n <= |spec.tasks|
  {
    set i | 0 <= i < n :: spec.tasks[i].name
  }

  ghost predicate DependenciesLoaded(deps: map<Name, seq<Name>>, spec: WorkflowSpec, n: nat)
    requires n <= |spec.tasks|
  {
    && (forall i :: 0 <= i < n ==> Lookup(deps, spec.tasks[i].name) == spec.tasks[i].dependsOn)
    && deps.Keys <= NamesUpTo(spec, n)
  }

  lemma LoadedOneMore(spec: WorkflowSpec, i: nat, loaded: map<Name, seq<Name>>, deps: map<Name, seq<Name>>)
    requires i < |spec.tasks| && DependenciesLoaded(loaded, spec, i)
    requires spec.tasks[i].name !in NamesUpTo(spec, i)
    requires deps.Keys <= loaded.Keys + {spec.tasks[i].name}
    requires Lookup(deps, spec.tasks[i].name) == spec.tasks[i].dependsOn
    requires forall n :: n != spec.tasks[i].name ==> Lookup(deps, n) == Lookup(loaded, n)
    ensures DependenciesLoaded(deps, spec, i + 1)
  {
    forall j | 0 <= j < i
      ensures Lookup(deps, spec.tasks[j].name) == spec.tasks[j].dependsOn
    {
      assert spec.tasks[j].name in NamesUpTo(spec, i);
    }
    assert NamesUpTo(spec, i + 1) == NamesUpTo(spec, i) + {spec.tasks[i].name};
  }

  method LoadDependencies(g: Graph, spec: WorkflowSpec) returns (fault: Option<Reason>)
    requires TasksClean(spec, |spec.tasks|) && TasksLoaded(g, spec, |spec.tasks|)
    requires g.deps == map[]
    modifies g`deps
    ensures fault.None? ==>
      AllDependenciesClean(spec, |spec.tasks|) && DependenciesLoaded(g.deps, spec, |spec.tasks|)
    ensures fault.Some? ==> exists i, j :: FirstDependencyFault(spec, i, j, fault.value)
  {
    for i := 0 to |spec.tasks|
      invariant AllDependenciesClean(spec, i) && DependenciesLoaded(g.deps, spec, i)
    {
      var task := spec.tasks[i];
      assert TaskFault(spec, i).None?;
      assert task.name !in NamesUpTo(spec, i);
      ghost var j;
      ghost var loaded := g.deps;
      fault, j := LoadTaskDependencies(g, spec, task);
      if fault.Some? {
        assert FirstDependencyFault(spec, i, j, fault.value);
        return;
      }
      LoadedOneMore(spec, i, loaded, g.deps);
    }
    return None;
  }

  method LoadTaskDependencies(g: Graph, spec: WorkflowSpec, task: WorkflowTask)
    returns (fault: Option<Reason>, ghost at: nat)
    requires TasksLoaded(g, spec, |spec.tasks|) && task.name !in g.deps
    modifies g`deps
    ensures fault.None? ==> DependenciesClean(spec, task, |task.dependsOn|)
    ensures fault.None? ==> Lookup(g.deps, task.name) == task.dependsOn
    ensures fault.Some? ==>
      at < |task.dependsOn| && DependenciesClean(spec, task, at) && DependencyFault(spec, task, at) == fault
    ensures g.deps.Keys <= old(g.deps.Keys) + {task.name}
    ensures forall n :: n != task.name ==> Lookup(g.deps, n) == Lookup(old(g.deps), n)
  {
    var seen: set<Name> := {};
    for j := 0 to |task.dependsOn|
      invariant DependenciesClean(spec, task, j)
      invariant seen == Elements(task.dependsOn[..j])
      invariant Lookup(g.deps, task.name) == task.dependsOn[..j]
      invariant g.deps.Keys <= old(g.deps.Keys) + {task.name}
      invariant forall n :: n != task.name ==> Lookup(g.deps, n) == Lookup(old(g.deps), n)
    {
      var dep := task.dependsOn[j];
      at := j;
      fault := CheckDependency(g, spec, task, dep, seen);
      assert fault == DependencyFault(spec, task, j);
      if fault.Some? {
        return;
      }
      assert task.dependsOn[..j + 1] == task.dependsOn[..j] + [dep];
      ElementsConcat(task.dependsOn[..j], [dep]);
      seen := seen + {dep};
      g.deps := g.deps[task.name := Lookup(g.deps, task.name) + [dep]];
    }
    assert task.dependsOn[..|task.dependsOn|] == task.dependsOn;
    fault, at := None, 0;
  }

  method CheckDependency(g: Graph, spec: WorkflowSpec, task: WorkflowTask, dep: Name, seen: set<Name>)
    returns (fault: Option<Reason>)
    requires TasksLoaded(g, spec, |spec.tasks|)
    ensures fault ==
      if dep.text == "" then Some(EmptyDependency)
      else if dep == task.name then Some(SelfDependency)
      else if dep !in NameSet(spec) then Some(UnknownDependency)
      else if dep in seen then Some(DuplicateDependency)
      else None
  {
    assert g.tasks.Keys == NameSet(spec);
    if dep.text == "" {
      return Some(EmptyDependency);
    }
    if dep == task.name {
      return Some(SelfDependency);
    }
    if dep !in g.tasks {
      return Some(UnknownDependency);
    }
    if dep in seen {
      return Some(DuplicateDependency);
    }
    return None;
  }

  lemma LoadedWiring(g: Graph, spec: WorkflowSpec)
    requires WellFormed(spec)
    requires TasksLoaded(g, spec, |spec.tasks|) && DependenciesLoaded(g.deps, spec, |spec.tasks|)
    ensures Wires(RelOf(spec), g.tasks.Keys, g.deps)
    ensures LoadedAll(g, spec)
  {
    assert g.tasks.Keys == NameSet(spec);
    assert g.deps.Keys <= NameSet(spec);
    forall t | t in spec.tasks
      ensures g.tasks[t.name] == t && g.Deps(t.name) == t.dependsOn
    {
      var i :| 0 <= i < |spec.tasks| && spec.tasks[i] == t;
    }
    forall n | n in NameSet(spec)
      ensures WiredNode(RelOf(spec), NameSet(spec), g.deps, n)
    {
      WiredAt(g, spec, n);
    }
  }

  lemma WiredAt(g: Graph, spec: WorkflowSpec, n: Name)
    requires WellFormed(spec) && n in NameSet(spec) && LoadedAll(g, spec)
    ensures WiredNode(RelOf(spec), NameSet(spec), g.deps, n)
  {
    var t :| t in spec.tasks && t.name == n;
    RelOfWellFormed(spec, t);
    assert GoodDependencies(spec, t);
    assert g.Deps(n) == t.dependsOn;
  }
}
