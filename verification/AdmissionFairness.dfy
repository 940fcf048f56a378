/** What every run of the admission queue keeps, and how long a waiting project can be passed over. */
module AdmissionFairness {
  import opened Sequences
  import opened AdmissionModel
  import opened AdmissionRepair
  import opened AdmissionBuilds

  // ----- invariants of every reachable state, in both builds

  ghost predicate Sound(s: State) {
    && |s.active| <= s.maximumActive
    && s.active.Keys !! s.waiting.Keys
    && forall p :: p in s.projects ==> NoDup(s.projects[p])
  }

  lemma RemoveSound(s: State, w: WorkflowId)
    requires Sound(s)
    ensures Sound(Remove(s, w))
  {
    SubsetSize((s.active - {w}).Keys, s.active.Keys);
    forall p | p in RemainingProjects(s, w) ensures NoDup(RemainingProjects(s, w)[p]) {
      WithoutNoDup(s.projects[p], w);
    }
  }

  lemma {:induction false} RemoveAllSound(s: State, ws: seq<WorkflowId>)
    requires Sound(s)
    ensures Sound(RemoveAll(s, ws))
    decreases |ws|
  {
    if ws != [] {
      RemoveSound(s, ws[0]);
      RemoveAllSound(Remove(s, ws[0]), ws[1..]);
    }
  }

  lemma RepairSound(s: State)
    requires Sound(s)
    ensures Sound(Repair(s))
  {
    forall p | p in KeptQueues(s) ensures NoDup(KeptQueues(s)[p]) {
      RetainNoDup(s.projects[p], Live(s, p));
    }
  }

  lemma ReapSound(s: State, now: u64)
    requires Sound(s)
    ensures Sound(Reap(s, now))
  {
    SubsetSize(DropExpired(s, now).active.Keys, s.active.Keys);
    RemoveAllSound(DropExpired(s, now), Ascending(Abandoned(s, now)));
    RepairSound(RemoveAll(DropExpired(s, now), Ascending(Abandoned(s, now))));
  }

  lemma EnqueueSound(s: State, p: ProjectId, w: WorkflowId, now: u64)
    requires Sound(s) && Coherent(s) && w !in s.active
    ensures Sound(Enqueue(s, p, w, now))
  {
    if p in s.projects {
      forall x | x in s.projects[p] ensures x in s.waiting {
        assert x in Elems(s.projects[p]);
      }
    }
  }

  lemma DequeueSound(s: State, p: ProjectId, w: WorkflowId, build: Build)
    requires Sound(s) && AtFront(s, p, w)
    ensures Sound(DequeueFront(s, p, w, build))
  {
    var t := DequeueFront(s, p, w, build);
    forall x | x in t.projects ensures NoDup(t.projects[x]) {
      assert x in s.projects && (t.projects[x] == s.projects[x] || t.projects[x] == s.projects[x][1..]);
    }
  }

  lemma ActivateSound(s: State, p: ProjectId, w: WorkflowId, now: u64, build: Build)
    requires Sound(s) && AtFront(s, p, w) && |s.active| < s.maximumActive
    ensures Sound(Activate(s, p, w, now, build))
  {
    DequeueSound(s, p, w, build);
    assert s.active[w := Expiry(now)].Keys == s.active.Keys + {w};
    assert |s.active.Keys + {w}| <= |s.active.Keys| + 1;
  }

  lemma {:induction false} AfterReapSound(s: State, call: Call, build: Build)
    requires Sound(s) && Coherent(s) && call.Execute?
    ensures Sound(AfterReap(s, call, build).0)
  {
    var Execute(operation, p, w, _, now) := call;
    if operation == Release {
      RemoveSound(s, w);
    } else if w in s.active {
      assert s.active[w := Expiry(now)].Keys == s.active.Keys;
    } else {
      EnqueueSound(s, p, w, now);
      if Dequeues(s, call) {
        ActivateSound(Tick(Enqueue(s, p, w, now), now), p, w, now, build);
        DequeuingCall(s, call, build);
      }
    }
  }

  /** Over every run of either build: queues repeat nobody, nobody both waits and works, and the
      concurrency limit holds. */
  lemma {:induction false} RunSound(s: State, calls: seq<Call>, build: Build)
    requires Sound(s)
    ensures Sound(Run(s, calls, build).0)
    decreases |calls|
  {
    if calls != [] {
      var next := Step(s, calls[0], build).0;
      match calls[0] {
        case ReleaseWorkflow(w) => RemoveSound(s, w);
        case Execute(_, _, _, _, now) =>
          ReapSound(s, now);
          ReapCleans(s, now);
          AfterReapSound(Reap(s, now), calls[0], build);
      }
      RunSound(next, calls[1..], build);
    }
  }

  lemma NewSound(maximumActive: nat)
    ensures Sound(New(maximumActive))
  {}

  /** The same from an empty queue: these hold of every state the program can reach. */
  lemma ReachableIsSound(maximumActive: nat, calls: seq<Call>, build: Build)
    ensures Sound(Run(New(maximumActive), calls, build).0)
  {
    hide Run;
    NewSound(maximumActive);
    RunSound(New(maximumActive), calls, build);
  }

  // ----- bounded bypass

  /** How many projects are served before `p`. */
  function Position(s: State, p: ProjectId): nat {
    IndexOf(Repair(s).rotation, p)
  }

  predicate Waits(s: State, p: ProjectId) {
    p in KeptQueues(s)
  }

  predicate Admits(s: State, call: Call) {
    call.Execute? && Dequeues(Reap(s, call.now), call)
  }

  /** Through this call `p` keeps a live waiting request, and is not itself admitted. */
  predicate PassedOver(s: State, call: Call, p: ProjectId, build: Build) {
    && Waits(s, p)
    && (call.Execute? ==> p in Reap(s, call.now).projects)
    && Waits(Step(s, call, build).0, p)
    && !(Admits(s, call) && call.project == p)
  }

  lemma {:induction false} RotatePosition(rotation: seq<ProjectId>, keys: set<ProjectId>, p: ProjectId)
    requires p in rotation && p in keys
    ensures IndexOf(Rotate(rotation, keys), p) <= IndexOf(rotation, p)
  {
    var kept := FirstOccurrences(rotation, keys);
    IndexInFirstOccurrences(rotation, keys, p);
    IndexInConcat(kept, Ascending(keys - Elems(kept)), p);
  }

  lemma RemovePosition(s: State, w: WorkflowId, p: ProjectId)
    requires p in Remove(s, w).rotation
    ensures p in s.rotation && IndexOf(Remove(s, w).rotation, p) <= IndexOf(s.rotation, p)
  {
    if RemainingRotation(s, w) != s.rotation {
      IndexAfterWithout(s.rotation, s.workflowProjects[w], p);
    }
  }

  lemma {:induction false} RemoveAllPosition(s: State, ws: seq<WorkflowId>, p: ProjectId)
    requires p in RemoveAll(s, ws).rotation
    ensures p in s.rotation && IndexOf(RemoveAll(s, ws).rotation, p) <= IndexOf(s.rotation, p)
    decreases |ws|
  {
    if ws != [] {
      RemoveAllPosition(Remove(s, ws[0]), ws[1..], p);
      RemovePosition(s, ws[0], p);
    }
  }

  lemma {:induction false} ReapPosition(s: State, now: u64, p: ProjectId)
    requires p in Reap(s, now).projects
    ensures p in Reap(s, now).rotation
    ensures IndexOf(Reap(s, now).rotation, p) <= Position(s, p)
  {
    ReapCleans(s, now);
    assert p in Elems(Reap(s, now).rotation);
    ReapOfRepaired(s, now);
    RemoveAllPosition(DropExpired(Repair(s), now), Ascending(Abandoned(s, now)), p);
  }

  lemma EnqueuePosition(s: State, q: ProjectId, w: WorkflowId, now: u64, p: ProjectId)
    requires p in s.rotation
    ensures p in Enqueue(s, q, w, now).rotation
    ensures IndexOf(Enqueue(s, q, w, now).rotation, p) == IndexOf(s.rotation, p)
  {
    IndexInConcat(s.rotation, [q], p);
  }

  lemma ActivatePosition(s: State, q: ProjectId, w: WorkflowId, now: u64, build: Build, p: ProjectId)
    requires AtFront(s, q, w) && p in s.rotation && p != q
    ensures p in Activate(s, q, w, now, build).rotation
    ensures IndexOf(Activate(s, q, w, now, build).rotation, p) + 1 == IndexOf(s.rotation, p)
  {
    assert p in s.rotation[1..];
    IndexInConcat(s.rotation[1..], [q], p);
  }

  lemma AcquirePosition(s: State, call: Call, build: Build, p: ProjectId)
    requires call.Execute? && call.operation != Release && call.workflow !in s.active
    requires p in s.rotation && (Dequeues(s, call) ==> call.project != p)
    ensures p in AfterReap(s, call, build).0.rotation
    ensures IndexOf(AfterReap(s, call, build).0.rotation, p) + (if Dequeues(s, call) then 1 else 0)
         <= IndexOf(s.rotation, p)
  {
    var Execute(_, q, w, _, now) := call;
    EnqueuePosition(s, q, w, now, p);
    if Dequeues(s, call) {
      DequeuingCall(s, call, build);
      ActivatePosition(Tick(Enqueue(s, q, w, now), now), q, w, now, build, p);
    } else {
      assert AfterReap(s, call, build).0.rotation == Enqueue(s, q, w, now).rotation;
    }
  }

  lemma {:induction false} AfterReapPosition(s: State, call: Call, build: Build, p: ProjectId)
    requires call.Execute? && p in s.rotation
    requires Dequeues(s, call) ==> call.project != p
    requires Waits(AfterReap(s, call, build).0, p)
    ensures p in AfterReap(s, call, build).0.rotation
    ensures IndexOf(AfterReap(s, call, build).0.rotation, p) + (if Dequeues(s, call) then 1 else 0)
         <= IndexOf(s.rotation, p)
  {
    if call.operation == Release {
      StillRotates(s, call.workflow, p);
      RemovePosition(s, call.workflow, p);
    } else if call.workflow !in s.active {
      AcquirePosition(s, call, build, p);
    }
  }

  lemma StillRotates(s: State, w: WorkflowId, p: ProjectId)
    requires p in s.rotation && p in Remove(s, w).projects
    ensures p in Remove(s, w).rotation
  {}

  /** No call raises the position of a project that keeps waiting, and every admission of another
      project lowers it. */
  lemma {:induction false} StepPosition(s: State, call: Call, build: Build, p: ProjectId)
    requires PassedOver(s, call, p, build)
    ensures Position(Step(s, call, build).0, p) + (if Admits(s, call) then 1 else 0) <= Position(s, p)
  {
    var after := Step(s, call, build).0;
    match call
    case ReleaseWorkflow(w) =>
      RepairRemoveCommute(s, w);
      RepairCoherent(s);
      RepairCoherent(after);
      assert p in Elems(Repair(after).rotation);
      RemovePosition(Repair(s), w, p);
    case Execute(_, _, _, _, now) =>
      ReapPosition(s, now, p);
      ReapCleans(s, now);
      AfterReapPosition(Reap(s, now), call, build, p);
      RotatePosition(after.rotation, KeptQueues(after).Keys, p);
  }

  ghost predicate PassedOverThroughout(s: State, calls: seq<Call>, p: ProjectId, build: Build)
    decreases |calls|
  {
    calls == [] ||
    (PassedOver(s, calls[0], p, build) && PassedOverThroughout(Step(s, calls[0], build).0, calls[1..], p, build))
  }

  function Admissions(s: State, calls: seq<Call>, build: Build): nat
    decreases |calls|
  {
    if calls == [] then 0
    else (if Admits(s, calls[0]) then 1 else 0) + Admissions(Step(s, calls[0], build).0, calls[1..], build)
  }

  /** A project at position k waits for at most k admissions by others: in every run of either build
      through which it keeps waiting, the admissions so far and its position now add up to at most k. */
  lemma {:induction false} BoundedBypass(s: State, calls: seq<Call>, p: ProjectId, build: Build)
    requires PassedOverThroughout(s, calls, p, build)
    ensures Admissions(s, calls, build) + Position(Run(s, calls, build).0, p) <= Position(s, p)
    decreases |calls|
  {
    if calls != [] {
      StepPosition(s, calls[0], build, p);
      BoundedBypass(Step(s, calls[0], build).0, calls[1..], p, build);
    }
  }

  /** Every admission takes the front of the rotation and the front of that project's queue, and a
      call by a waiting front workflow fails only for want of capacity or by the controller. */
  lemma {:induction false} AdmissionTakesFront(s: State, call: Call, build: Build)
    requires call.Execute? && call.operation != Release
    requires call.workflow !in Reap(s, call.now).active
    ensures Admits(s, call) <==> Step(s, call, build).1.value.admitted
    ensures Admits(s, call) ==>
              var reaped := Reap(s, call.now);
              reaped.rotation == [] || reaped.rotation[0] == call.project
    ensures var reaped := Reap(s, call.now);
            (AtFront(reaped, call.project, call.workflow) && |reaped.active| < reaped.maximumActive &&
             call.decision == Admit) ==> Admits(s, call)
  {
    ReapCleans(s, call.now);
    FrontCall(Reap(s, call.now), call, build);
  }

  lemma FrontCall(s: State, call: Call, build: Build)
    requires call.Execute? && call.operation != Release && call.workflow !in s.active && Coherent(s)
    ensures Dequeues(s, call) <==> AfterReap(s, call, build).1.admitted
    ensures Dequeues(s, call) ==> s.rotation == [] || s.rotation[0] == call.project
    ensures (AtFront(s, call.project, call.workflow) && |s.active| < s.maximumActive && call.decision == Admit) ==>
              Dequeues(s, call)
  {
    if AtFront(s, call.project, call.workflow) {
      assert call.workflow in Elems(s.projects[call.project]);
      assert call.workflow in Live(s, call.project);
    }
  }
}
