/** The admission queue as the program runs it: one object whose methods update its fields. */
module RuntimeAdmissionQueue {
  import opened Sequences
  import opened AdmissionModel

  /** The pairs that the program collects into its map `queued`. */
  function QueuedPairs(projects: map<ProjectId, seq<WorkflowId>>): set<(WorkflowId, ProjectId)> {
    set p, w | p in projects && w in projects[p] :: (w, p)
  }

  function QueuedWorkflows(pairs: set<(WorkflowId, ProjectId)>): set<WorkflowId> {
    set e | e in pairs :: e.0
  }

  lemma QueuedIsKept(s: State)
    ensures forall w :: w in QueuedWorkflows(QueuedPairs(KeptQueues(s))) <==> Queued(s, w)
    ensures forall w :: w in s.workflowProjects ==>
              ((w, s.workflowProjects[w]) in QueuedPairs(KeptQueues(s)) <==> Queued(s, w))
  {
    var pairs := QueuedPairs(KeptQueues(s));
    forall w, p | (w, p) in pairs ensures Queued(s, w) && s.workflowProjects[w] == p {
      assert w in Live(s, p);
    }
    forall w | Queued(s, w) ensures w in QueuedWorkflows(pairs) {
      assert (w, s.workflowProjects[w]) in pairs;
    }
  }

  lemma NextInOrder(order: seq<nat>, i: nat, missing: set<nat>, before: set<nat>)
    requires Increasing(order) && i < |order|
    requires missing == Elems(order) - before
    ensures Retain(order[..i + 1], missing)
         == Retain(order[..i], missing) + (if order[i] in before + Elems(order[..i]) then [] else [order[i]])
    ensures Elems(order[..i + 1]) == Elems(order[..i]) + {order[i]}
  {
    assert order[..i + 1] == order[..i] + [order[i]];
    assert order[i] !in order[..i] && order[i] in order;
    RetainSnoc(order[..i], order[i], missing);
  }

  lemma OneMoreKept(kept: seq<ProjectId>, p: ProjectId, rest: seq<ProjectId>)
    ensures kept + [p] + rest == kept + ([p] + rest) && Elems(kept + [p]) == Elems(kept) + {p}
  {}

  /** What the rotation's `retain` keeps while its closure fills `seen`. */
  method FirstInOrder(rotation: seq<ProjectId>, keys: set<ProjectId>)
    returns (kept: seq<ProjectId>, seen: set<ProjectId>)
    ensures kept == FirstOccurrences(rotation, keys)
    ensures seen == Elems(kept)
  {
    hide FirstOccurrences;
    kept, seen := [], {};
    NoneLeft(rotation, keys);
    assert rotation[0..] == rotation && keys - seen == keys;
    for i := 0 to |rotation|
      invariant seen == Elems(kept)
      invariant kept + FirstOccurrences(rotation[i..], keys - seen) == FirstOccurrences(rotation, keys)
    {
      var p := rotation[i];
      NextFirst(rotation, i, keys, seen);
      if p in keys && p !in seen {
        OneMoreKept(kept, p, FirstOccurrences(rotation[i + 1..], keys - (seen + {p})));
        seen := seen + {p};
        kept := kept + [p];
      }
    }
  }

  lemma NoneLeft(rotation: seq<ProjectId>, keys: set<ProjectId>)
    ensures forall seen :: FirstOccurrences(rotation[|rotation|..], keys - seen) == []
  {}

  lemma {:induction false} NextFirst(rotation: seq<ProjectId>, i: nat, keys: set<ProjectId>, seen: set<ProjectId>)
    requires i < |rotation|
    ensures rotation[i] in keys && rotation[i] !in seen ==>
              FirstOccurrences(rotation[i..], keys - seen) ==
              [rotation[i]] + FirstOccurrences(rotation[i + 1..], keys - (seen + {rotation[i]}))
    ensures !(rotation[i] in keys && rotation[i] !in seen) ==>
              FirstOccurrences(rotation[i..], keys - seen) == FirstOccurrences(rotation[i + 1..], keys - seen)
  {
    assert rotation[i..][1..] == rotation[i + 1..];
    assert keys - seen - {rotation[i]} == keys - (seen + {rotation[i]});
  }

  /** The keys that `seen` accepts while the ordered keys are visited. */
  method MissingInOrder(order: seq<nat>, before: set<nat>) returns (added: seq<nat>)
    requires Increasing(order)
    ensures added == Ascending(Elems(order) - before)
  {
    hide Elems, Retain;
    ghost var missing := Elems(order) - before;
    var seen := before;
    added := [];
    NothingRetained(order, missing);
    for i := 0 to |order|
      invariant seen == before + Elems(order[..i])
      invariant added == Retain(order[..i], missing)
    {
      NextInOrder(order, i, missing, before);
      if order[i] !in seen {
        seen := seen + {order[i]};
        added := added + [order[i]];
      }
    }
    assert order[..|order|] == order;
    RetainIncreasing(order, missing);
    RetainedMissing(order, missing);
  }

  lemma NothingRetained(order: seq<nat>, missing: set<nat>)
    ensures Retain(order[..0], missing) == [] && Elems(order[..0]) == {}
  {}

  lemma {:induction false} RetainedMissing(order: seq<nat>, missing: set<nat>)
    requires Increasing(order) && missing <= Elems(order)
    ensures Retain(order, missing) == Ascending(missing)
  {
    RetainIncreasing(order, missing);
    IncreasingUnique(Retain(order, missing), Ascending(missing));
  }

  class RuntimeAdmission {
    var active: map<WorkflowId, u64>
    var lastTick: u64
    const maximumActive: nat
    var projects: map<ProjectId, seq<WorkflowId>>
    var rotation: seq<ProjectId>
    var waiting: map<WorkflowId, u64>
    var workflowProjects: map<WorkflowId, ProjectId>
    const build: Build

    ghost function Snapshot(): State
      reads this
    {
      State(active, lastTick, maximumActive, projects, rotation, waiting, workflowProjects)
    }

    constructor (maximumActive: nat, build: Build)
      ensures Snapshot() == New(maximumActive) && this.build == build
    {
      this.active := map[];
      this.lastTick := 0;
      this.maximumActive := if maximumActive < 1 then 1 else maximumActive;
      this.projects := map[];
      this.rotation := [];
      this.waiting := map[];
      this.workflowProjects := map[];
      this.build := build;
    }

    method Execute(operation: Operation, project: ProjectId, workflow: WorkflowId, decision: Decision, now: u64)
      returns (r: AdmissionResult)
      modifies this
      ensures Step(old(Snapshot()), Call.Execute(operation, project, workflow, decision, now), build)
           == (Snapshot(), Some(r))
    {
      Reap(now);
      r := ExecuteReaped(operation, project, workflow, decision, now);
    }

    /** `execute` after its opening reap. */
    method ExecuteReaped(operation: Operation, project: ProjectId, workflow: WorkflowId, decision: Decision, now: u64)
      returns (r: AdmissionResult)
      modifies this
      ensures AfterReap(old(Snapshot()), Call.Execute(operation, project, workflow, decision, now), build)
           == (Snapshot(), r)
    {
      if operation == Operation.Release {
        Remove(workflow);
        return Result(false, None, Some(Released));
      }
      if workflow in active {
        active := active[workflow := Expiry(now)];
        return Result(true, Some(Expiry(now)), None);
      }
      Enqueue(project, workflow, now);
      if |active| >= maximumActive {
        return Result(false, None, Some(ConcurrencyLimit));
      }
      if rotation == [] || rotation[0] != project
         || project !in projects || projects[project] == [] || projects[project][0] != workflow {
        return Result(false, None, Some(FairQueue));
      }
      if now >= lastTick && now - lastTick >= 1_000 {
        lastTick := now;
      }
      if decision != Admit {
        return Result(false, None, Some(Deferred(decision)));
      }
      DequeueFront(project, workflow);
      active := active[workflow := Expiry(now)];
      return Result(true, Some(Expiry(now)), None);
    }

    method Enqueue(project: ProjectId, workflow: WorkflowId, now: u64)
      modifies this
      ensures Snapshot() == AdmissionModel.Enqueue(old(Snapshot()), project, workflow, now)
    {
      if workflow in waiting {
        waiting := waiting[workflow := Expiry(now)];
        return;
      }
      waiting := waiting[workflow := Expiry(now)];
      var newProject := project !in projects;
      projects := projects[project := (if project in projects then projects[project] else []) + [workflow]];
      workflowProjects := workflowProjects[workflow := project];
      if newProject {
        rotation := rotation + [project];
      }
    }

    method DequeueFront(project: ProjectId, workflow: WorkflowId)
      requires AtFront(Snapshot(), project, workflow)
      modifies this
      ensures Snapshot() == AdmissionModel.DequeueFront(old(Snapshot()), project, workflow, build)
    {
      var queue := projects[project];
      if build == DebugBuild {
        // the operand of debug_assert_eq!, and what it asserts
        assert queue[0] == workflow;
        queue := queue[1..];
        projects := projects[project := queue];
      }
      waiting := waiting - {workflow};
      workflowProjects := workflowProjects - {workflow};
      rotation := rotation[1..];
      if queue == [] {
        projects := projects - {project};
      } else {
        rotation := rotation + [project];
      }
    }

    method Reap(now: u64)
      modifies this
      ensures Snapshot() == AdmissionModel.Reap(old(Snapshot()), now)
    {
      active := map w | w in active && active[w] > now :: active[w];
      var abandoned := Ascending(set w | w in waiting && waiting[w] <= now);
      ghost var start := Snapshot();
      for i := 0 to |abandoned|
        invariant RemoveAll(Snapshot(), abandoned[i..]) == RemoveAll(start, abandoned)
      {
        assert abandoned[i..][0] == abandoned[i] && abandoned[i..][1..] == abandoned[i + 1..];
        Remove(abandoned[i]);
      }
      RepairQueueInvariants();
    }

    method RepairQueueInvariants()
      modifies this
      ensures Snapshot() == Repair(old(Snapshot()))
    {
      RepairQueues();
      RepairOwners(old(Snapshot()));
      RepairRotation();
    }

    method RepairQueues()
      modifies this`projects
      ensures projects == KeptQueues(old(Snapshot()))
    {
      ghost var s := Snapshot();
      projects := map p | p in projects ::
        Retain(projects[p], set w | w in waiting && w in workflowProjects && workflowProjects[w] == p);
      forall p | p in projects ensures projects[p] == KeptQueue(s, p) {
        assert Live(s, p) == set w | w in waiting && w in workflowProjects && workflowProjects[w] == p;
      }
      projects := map p | p in projects && projects[p] != [] :: projects[p];
    }

    method RepairOwners(ghost s: State)
      requires projects == KeptQueues(s) && waiting == s.waiting && workflowProjects == s.workflowProjects
      modifies this`waiting, this`workflowProjects
      ensures waiting == KeptWaiting(s) && workflowProjects == KeptOwners(s)
    {
      var queued := QueuedPairs(projects);
      QueuedIsKept(s);
      waiting := map w | w in waiting && w in QueuedWorkflows(queued) :: waiting[w];
      workflowProjects := map w | w in workflowProjects && (w, workflowProjects[w]) in queued :: workflowProjects[w];
    }

    method RepairRotation()
      modifies this`rotation
      ensures rotation == Rotate(old(rotation), projects.Keys)
    {
      var seen := KeepFirst();
      AddMissing(seen);
    }

    method KeepFirst() returns (seen: set<ProjectId>)
      modifies this`rotation
      ensures rotation == FirstOccurrences(old(rotation), projects.Keys)
      ensures seen == Elems(rotation)
    {
      rotation, seen := FirstInOrder(rotation, projects.Keys);
    }

    method AddMissing(before: set<ProjectId>)
      modifies this`rotation
      ensures rotation == old(rotation) + Ascending(projects.Keys - before)
    {
      var missing := MissingInOrder(Ascending(projects.Keys), before);
      rotation := rotation + missing;
      assert Elems(Ascending(projects.Keys)) == projects.Keys;
    }

    method Remove(workflow: WorkflowId)
      modifies this
      ensures Snapshot() == AdmissionModel.Remove(old(Snapshot()), workflow)
    {
      active := active - {workflow};
      if workflow !in workflowProjects {
        assert workflowProjects == workflowProjects - {workflow};
        return;
      }
      var project := workflowProjects[workflow];
      workflowProjects := workflowProjects - {workflow};
      waiting := waiting - {workflow};
      if project in projects {
        projects := projects[project := Without(projects[project], workflow)];
        if projects[project] == [] {
          projects := projects - {project};
          rotation := Without(rotation, project);
        }
      }
    }

    method Release(workflow: WorkflowId)
      modifies this
      ensures Step(old(Snapshot()), ReleaseWorkflow(workflow), build) == (Snapshot(), None)
    {
      Remove(workflow);
    }

    function Result(admitted: bool, lease: Option<u64>, reason: Option<Reason>): (r: AdmissionResult)
      reads this
      ensures r == Outcome(Snapshot(), admitted, lease, reason)
    {
      AdmissionResult(|active|, admitted, lease, maximumActive, reason, if admitted then 0 else RETRY_MILLIS)
    }
  }
}
