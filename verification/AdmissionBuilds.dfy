/** Reaping, and why no sequence of calls can tell a debug build from a release build. */
module AdmissionBuilds {
  import opened Sequences
  import opened AdmissionModel
  import opened AdmissionRepair

  lemma {:induction false} RepairRemoveAllCommute(s: State, ws: seq<WorkflowId>)
    ensures Repair(RemoveAll(s, ws)) == RemoveAll(Repair(s), ws)
    decreases |ws|
  {
    if ws != [] {
      RepairRemoveCommute(s, ws[0]);
      RepairRemoveAllCommute(Remove(s, ws[0]), ws[1..]);
    }
  }

  /** Reaping a state is reaping its repaired form. */
  lemma ReapOfRepaired(s: State, now: u64)
    ensures Reap(s, now) == RemoveAll(Repair(DropExpired(s, now)), Ascending(Abandoned(s, now)))
    ensures Repair(DropExpired(s, now)) == DropExpired(Repair(s), now)
  {
    RepairRemoveAllCommute(DropExpired(s, now), Ascending(Abandoned(s, now)));
    RepairIgnoresActive(s, DropExpired(s, now).active);
  }

  lemma {:induction false} RemoveAllOwners(s: State, ws: seq<WorkflowId>)
    ensures RemoveAll(s, ws).workflowProjects.Keys == s.workflowProjects.Keys - Elems(ws)
    ensures RemoveAll(s, ws).active.Keys <= s.active.Keys
    ensures forall w :: w in RemoveAll(s, ws).active ==> RemoveAll(s, ws).active[w] == s.active[w]
    ensures RemoveAll(s, ws).waiting.Keys <= s.waiting.Keys
    ensures forall w :: w in RemoveAll(s, ws).waiting ==> RemoveAll(s, ws).waiting[w] == s.waiting[w]
    ensures RemoveAll(s, ws).maximumActive == s.maximumActive && RemoveAll(s, ws).lastTick == s.lastTick
    decreases |ws|
  {
    if ws != [] {
      RemoveAllOwners(Remove(s, ws[0]), ws[1..]);
      assert ws == [ws[0]] + ws[1..];
      assert Elems(ws) == {ws[0]} + Elems(ws[1..]);
    }
  }

  /** Whatever the state, after a reap the structures agree and no expired entry is left. */
  lemma ReapCleans(s: State, now: u64)
    ensures Coherent(Reap(s, now))
    ensures forall w :: w in Reap(s, now).active ==> Reap(s, now).active[w] > now
    ensures forall w :: w in Reap(s, now).waiting ==> Reap(s, now).waiting[w] > now
  {
    var gone := Ascending(Abandoned(s, now));
    var t := RemoveAll(DropExpired(s, now), gone);
    RepairCoherent(t);
    RemoveAllOwners(DropExpired(s, now), gone);
    forall w | w in KeptWaiting(t) ensures w in t.waiting && t.waiting[w] > now {
      assert w in t.workflowProjects;
      assert w !in Elems(gone);
      assert w !in Abandoned(s, now);
    }
  }

  lemma ReapIdempotent(s: State, now: u64)
    ensures Reap(Reap(s, now), now) == Reap(s, now)
  {
    var r := Reap(s, now);
    ReapCleans(s, now);
    assert DropExpired(r, now).active == r.active;
    assert Abandoned(r, now) == {};
    CoherentUnchanged(r);
  }

  /** Projects that survive a reap keep their order; the projects it has to add follow, ascending. */
  lemma ReapKeepsRotationOrder(s: State, now: u64)
    ensures Reap(s, now).rotation == Rotate(s.rotation, Reap(s, now).projects.Keys)
  {
    var repaired := Repair(DropExpired(s, now));
    ReapOfRepaired(s, now);
    RepairCoherent(DropExpired(s, now));
    RemoveAllKeepsOrder(repaired, Ascending(Abandoned(s, now)), s.rotation);
  }

  lemma {:induction false} RemoveAllKeepsOrder(s: State, ws: seq<WorkflowId>, origin: seq<ProjectId>)
    requires s.rotation == Rotate(origin, s.projects.Keys)
    ensures RemoveAll(s, ws).rotation == Rotate(origin, RemoveAll(s, ws).projects.Keys)
    decreases |ws|
  {
    if ws != [] {
      var w := ws[0];
      if OwnedAndQueued(s, w) && RemainingQueue(s, w) == [] {
        RotateWithout(origin, s.projects.Keys, s.workflowProjects[w]);
        assert Remove(s, w).projects.Keys == s.projects.Keys - {s.workflowProjects[w]};
      } else {
        assert Remove(s, w).projects.Keys == s.projects.Keys;
      }
      RemoveAllKeepsOrder(Remove(s, w), ws[1..], origin);
    }
  }

  // ----- debug and release builds

  /** Two states that any call answers alike: they differ at most in what repair throws away. */
  ghost predicate Alike(d: State, r: State) {
    && d.waiting == r.waiting
    && d.workflowProjects == r.workflowProjects
    && Repair(d) == Repair(r)
  }

  lemma AlikeReap(d: State, r: State, now: u64)
    requires Alike(d, r)
    ensures Reap(d, now) == Reap(r, now)
  {
    ReapOfRepaired(d, now);
    ReapOfRepaired(r, now);
  }

  lemma AlikeRemove(d: State, r: State, w: WorkflowId)
    requires Alike(d, r)
    ensures Alike(Remove(d, w), Remove(r, w))
  {
    RepairRemoveCommute(d, w);
    RepairRemoveCommute(r, w);
  }

  lemma KeptAfterDequeue(s: State, p: ProjectId, w: WorkflowId, x: ProjectId)
    requires AtFront(s, p, w)
    ensures KeptQueue(DequeueFront(s, p, w, DebugBuild), x) == KeptQueue(DequeueFront(s, p, w, ReleaseBuild), x)
  {
    var d, r := DequeueFront(s, p, w, DebugBuild), DequeueFront(s, p, w, ReleaseBuild);
    assert Live(d, x) == Live(r, x);
    if x == p {
      assert w !in Live(r, p);
      assert Retain(s.projects[p], Live(r, p)) == Retain(s.projects[p][1..], Live(r, p));
    }
  }

  lemma {:induction false} QueuesAfterDequeue(s: State, p: ProjectId, w: WorkflowId)
    requires AtFront(s, p, w)
    ensures KeptQueues(DequeueFront(s, p, w, DebugBuild)) == KeptQueues(DequeueFront(s, p, w, ReleaseBuild))
    ensures KeptWaiting(DequeueFront(s, p, w, DebugBuild)) == KeptWaiting(DequeueFront(s, p, w, ReleaseBuild))
    ensures KeptOwners(DequeueFront(s, p, w, DebugBuild)) == KeptOwners(DequeueFront(s, p, w, ReleaseBuild))
  {
    var d, r := DequeueFront(s, p, w, DebugBuild), DequeueFront(s, p, w, ReleaseBuild);
    forall x ensures KeptQueue(d, x) == KeptQueue(r, x) {
      KeptAfterDequeue(s, p, w, x);
    }
    SameQueues(d, r);
  }

  lemma SameQueues(d: State, r: State)
    requires d.waiting == r.waiting && d.workflowProjects == r.workflowProjects
    requires forall x :: KeptQueue(d, x) == KeptQueue(r, x)
    ensures KeptQueues(d) == KeptQueues(r) && KeptWaiting(d) == KeptWaiting(r) && KeptOwners(d) == KeptOwners(r)
  {
    hide Live, Retain;
    assert forall x :: x in KeptQueues(d) <==> KeptQueue(d, x) != [];
    assert forall x :: x in KeptQueues(r) <==> KeptQueue(r, x) != [];
    assert forall x :: Queued(d, x) <==> Queued(r, x);
  }

  lemma RotationAfterDequeue(rest: seq<ProjectId>, p: ProjectId, keys: set<ProjectId>)
    requires p !in keys
    ensures Rotate(rest + [p], keys) == Rotate(rest, keys)
  {
    assert keys - {p} == keys;
    WithoutConcat(rest, [p], p);
    assert Without([p], p) == [];
    assert Without(rest, p) + [] == Without(rest, p);
    RotateWithout(rest, keys, p);
    RotateWithout(rest + [p], keys, p);
  }

  lemma GhostProject(s: State, p: ProjectId, w: WorkflowId)
    requires AtFront(s, p, w) && s.projects[p][1..] == []
    ensures p !in KeptQueues(DequeueFront(s, p, w, DebugBuild))
  {}

  /** The skipped pop leaves a ghost entry, and repair removes exactly that ghost. */
  lemma {:induction false} DequeueAlike(s: State, p: ProjectId, w: WorkflowId)
    requires AtFront(s, p, w)
    ensures Alike(DequeueFront(s, p, w, DebugBuild), DequeueFront(s, p, w, ReleaseBuild))
  {
    hide KeptQueues, KeptWaiting, KeptOwners, Rotate;
    QueuesAfterDequeue(s, p, w);
    if s.projects[p][1..] == [] {
      GhostProject(s, p, w);
      RotationAfterDequeue(s.rotation[1..], p, KeptQueues(DequeueFront(s, p, w, DebugBuild)).Keys);
    }
  }

  lemma ActivateAlike(s: State, p: ProjectId, w: WorkflowId, now: u64)
    requires AtFront(s, p, w)
    ensures Alike(Activate(s, p, w, now, DebugBuild), Activate(s, p, w, now, ReleaseBuild))
  {
    DequeueAlike(s, p, w);
    RepairIgnoresActive(DequeueFront(s, p, w, DebugBuild), s.active[w := Expiry(now)]);
    RepairIgnoresActive(DequeueFront(s, p, w, ReleaseBuild), s.active[w := Expiry(now)]);
  }

  lemma DequeuingCall(s: State, call: Call, build: Build)
    requires call.Execute? && Dequeues(s, call)
    ensures var t := Tick(Enqueue(s, call.project, call.workflow, call.now), call.now);
            AtFront(t, call.project, call.workflow) &&
            AfterReap(s, call, build).0 == Activate(t, call.project, call.workflow, call.now, build)
    ensures AfterReap(s, call, build).1
         == AdmissionResult(|s.active| + 1, true, Some(Expiry(call.now)), s.maximumActive, None, 0)
  {
    var t := Tick(Enqueue(s, call.project, call.workflow, call.now), call.now);
    assert t.active == s.active;
  }

  lemma OtherCall(s: State, call: Call)
    requires call.Execute? && !Dequeues(s, call)
    ensures AfterReap(s, call, DebugBuild) == AfterReap(s, call, ReleaseBuild)
  {}

  lemma {:induction false} AfterReapAlike(s: State, call: Call)
    requires call.Execute?
    ensures Alike(AfterReap(s, call, DebugBuild).0, AfterReap(s, call, ReleaseBuild).0)
    ensures AfterReap(s, call, DebugBuild).1 == AfterReap(s, call, ReleaseBuild).1
  {
    if Dequeues(s, call) {
      DequeuingCall(s, call, DebugBuild);
      DequeuingCall(s, call, ReleaseBuild);
      ActivateAlike(
        Tick(Enqueue(s, call.project, call.workflow, call.now), call.now), call.project, call.workflow, call.now);
    } else {
      OtherCall(s, call);
    }
  }

  lemma {:induction false} StepAlike(d: State, r: State, call: Call)
    requires Alike(d, r)
    ensures Alike(Step(d, call, DebugBuild).0, Step(r, call, ReleaseBuild).0)
    ensures Step(d, call, DebugBuild).1 == Step(r, call, ReleaseBuild).1
  {
    match call
    case ReleaseWorkflow(w) => AlikeRemove(d, r, w);
    case Execute(_, _, _, _, now) =>
      AlikeReap(d, r, now);
      AfterReapAlike(Reap(d, now), call);
  }

  lemma {:induction false} RunsAlike(d: State, r: State, calls: seq<Call>)
    requires Alike(d, r)
    ensures Run(d, calls, DebugBuild).1 == Run(r, calls, ReleaseBuild).1
    ensures Alike(Run(d, calls, DebugBuild).0, Run(r, calls, ReleaseBuild).0)
    decreases |calls|
  {
    if calls != [] {
      StepAlike(d, r, calls[0]);
      RunsAlike(Step(d, calls[0], DebugBuild).0, Step(r, calls[0], ReleaseBuild).0, calls[1..]);
    }
  }

  /** From any state, every sequence of calls gets the same answers from both builds, and whatever
      the time of the next reap, it makes the two states equal. */
  lemma {:induction false} BuildsIndistinguishable(s: State, calls: seq<Call>, now: u64)
    ensures Run(s, calls, DebugBuild).1 == Run(s, calls, ReleaseBuild).1
    ensures Reap(Run(s, calls, DebugBuild).0, now) == Reap(Run(s, calls, ReleaseBuild).0, now)
  {
    RunsAlike(s, s, calls);
    AlikeReap(Run(s, calls, DebugBuild).0, Run(s, calls, ReleaseBuild).0, now);
  }

  lemma ReapOfNew(maximumActive: nat, now: u64)
    ensures Reap(New(maximumActive), now) == New(maximumActive)
  {
    var s := New(maximumActive);
    CoherentUnchanged(s);
    assert DropExpired(s, now) == s;
    assert Abandoned(s, now) == {};
  }

  /** The difference is real: after its only admission a project stands in one queue map, not the other. */
  lemma BuildsDifferBetweenReaps(p: ProjectId, w: WorkflowId, now: u64)
    ensures var call := Execute(Acquire, p, w, Admit, now);
            p !in Step(New(1), call, DebugBuild).0.projects && p in Step(New(1), call, ReleaseBuild).0.projects
  {
    ReapOfNew(1, now);
    FirstAdmission(New(1), p, w, now);
  }

  lemma FirstAdmission(s: State, p: ProjectId, w: WorkflowId, now: u64)
    requires s == New(1)
    ensures p !in AfterReap(s, Execute(Acquire, p, w, Admit, now), DebugBuild).0.projects
    ensures p in AfterReap(s, Execute(Acquire, p, w, Admit, now), ReleaseBuild).0.projects
  {
    var t := Tick(Enqueue(s, p, w, now), now);
    assert t.projects[p] == [w] && t.rotation == [p];
    DequeuingCall(s, Execute(Acquire, p, w, Admit, now), DebugBuild);
    DequeuingCall(s, Execute(Acquire, p, w, Admit, now), ReleaseBuild);
  }
}
