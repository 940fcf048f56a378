/** What a call does to every workflow, and in which order the workflows of one project are served. In both builds the
    repaired state is the state of a debug run, so the laws are stated for that one. */
module AdmissionOrder {
  import opened Sequences
  import opened AdmissionModel
  import opened AdmissionRepair
  import opened AdmissionBuilds
  import opened AdmissionFairness

  // ----- debug runs stay coherent

  ghost predicate Orderly(s: State) {
    Coherent(s) && Sound(s)
  }

  lemma RemoveOrderly(s: State, w: WorkflowId)
    requires Orderly(s)
    ensures Orderly(Remove(s, w))
  {
    hide Coherent, Sound, Repair, Remove;
    RepairFixpoint(s);
    RepairRemoveCommute(s, w);
    RepairFixpoint(Remove(s, w));
    RemoveSound(s, w);
  }

  lemma ReapOrderly(s: State, now: u64)
    requires Orderly(s)
    ensures Orderly(Reap(s, now))
    ensures Reap(s, now) == RemoveAll(DropExpired(s, now), Ascending(Abandoned(s, now)))
  {
    hide Coherent, Sound, Repair, RemoveAll, Reap, DropExpired;
    ReapCleans(s, now);
    ReapSound(s, now);
    ReapOfRepaired(s, now);
    RepairFixpoint(s);
  }

  lemma OtherActive(s: State, active: map<WorkflowId, u64>)
    requires Coherent(s)
    ensures Coherent(s.(active := active))
  {
    hide Coherent, Repair;
    RepairFixpoint(s);
    RepairIgnoresActive(s, active);
    RepairFixpoint(s.(active := active));
  }

  lemma EnqueueCoherent(s: State, p: ProjectId, w: WorkflowId, now: u64)
    requires Coherent(s)
    ensures Coherent(Enqueue(s, p, w, now))
  {
    var t := Enqueue(s, p, w, now);
    if w in s.waiting {
      forall q | q in t.projects ensures Elems(t.projects[q]) <= Live(t, q) {
        assert Live(t, q) == Live(s, q);
      }
      forall x | x in t.workflowProjects ensures InQueueOf(t, x, t.workflowProjects[x]) {
        assert InQueueOf(s, x, s.workflowProjects[x]);
      }
    } else {
      JoinQueues(s, p, w, now);
      JoinRotation(s, p, w, now);
    }
  }

  lemma JoinQueues(s: State, p: ProjectId, w: WorkflowId, now: u64)
    requires Coherent(s) && w !in s.waiting
    ensures
      var t := Enqueue(s, p, w, now);
      && (forall q :: q in t.projects ==> t.projects[q] != [] && Elems(t.projects[q]) <= Live(t, q))
      && t.waiting.Keys == t.workflowProjects.Keys
      && (forall x :: x in t.workflowProjects ==> InQueueOf(t, x, t.workflowProjects[x]))
  {
    var t := Enqueue(s, p, w, now);
    assert w !in s.workflowProjects.Keys;
    assert t.projects[p][|t.projects[p]| - 1] == w;
    forall q, x | q in t.projects && x in t.projects[q] ensures x in Live(t, q) {
      if x != w || q != p { assert x in s.projects[q] && x in Live(s, q); }
    }
    forall x | x in t.workflowProjects ensures InQueueOf(t, x, t.workflowProjects[x]) {
      if x != w { assert InQueueOf(s, x, s.workflowProjects[x]); }
    }
  }

  lemma JoinRotation(s: State, p: ProjectId, w: WorkflowId, now: u64)
    requires Coherent(s) && w !in s.waiting
    ensures
      var t := Enqueue(s, p, w, now);
      NoDup(t.rotation) && Elems(t.rotation) == t.projects.Keys
  {
    var t := Enqueue(s, p, w, now);
    if p !in s.projects {
      assert p !in Elems(s.rotation);
      assert t.rotation[|s.rotation|] == p;
    }
  }

  lemma DequeueCoherent(s: State, p: ProjectId, w: WorkflowId)
    requires Orderly(s) && AtFront(s, p, w)
    ensures Coherent(DequeueFront(s, p, w, DebugBuild))
  {
    hide Live, Sound;
    DequeueQueues(s, p, w);
    DequeueOwners(s, p, w);
    TurnRotation(s.rotation, s.projects.Keys, p);
  }

  lemma DequeueQueues(s: State, p: ProjectId, w: WorkflowId)
    requires Orderly(s) && AtFront(s, p, w)
    ensures
      var t := DequeueFront(s, p, w, DebugBuild);
      forall q :: q in t.projects ==> t.projects[q] != [] && Elems(t.projects[q]) <= Live(t, q)
  {
    hide Coherent, Live, DequeueFront;
    var t := DequeueFront(s, p, w, DebugBuild);
    assert w !in s.projects[p][1..];
    forall q | q in t.projects ensures t.projects[q] != [] && Elems(t.projects[q]) <= Live(t, q) {
      RestOfQueue(s, p, w, q);
    }
  }

  lemma RestOfQueue(s: State, p: ProjectId, w: WorkflowId, q: ProjectId)
    requires Coherent(s) && AtFront(s, p, w) && w !in s.projects[p][1..]
    requires q in DequeueFront(s, p, w, DebugBuild).projects
    ensures
      var t := DequeueFront(s, p, w, DebugBuild);
      t.projects[q] != [] && Elems(t.projects[q]) <= Live(t, q)
  {
    var t := DequeueFront(s, p, w, DebugBuild);
    QueueWaits(s, p);
    QueueWaits(s, q);
    assert q in s.projects && s.projects[q] != [];
    hide Coherent;
    assert w in QueueOf(s, p);
    forall x | x in t.projects[q] ensures x in Live(t, q) {
      assert x in QueueOf(s, q);
    }
  }

  lemma DequeueOwners(s: State, p: ProjectId, w: WorkflowId)
    requires Orderly(s) && AtFront(s, p, w)
    ensures
      var t := DequeueFront(s, p, w, DebugBuild);
      && t.waiting.Keys == t.workflowProjects.Keys
      && forall x :: x in t.workflowProjects ==> InQueueOf(t, x, t.workflowProjects[x])
  {
    hide Live;
    var t, queue := DequeueFront(s, p, w, DebugBuild), s.projects[p];
    forall x | x in t.workflowProjects ensures InQueueOf(t, x, t.workflowProjects[x]) {
      assert InQueueOf(s, x, s.workflowProjects[x]);
      if s.workflowProjects[x] == p {
        var i :| 0 <= i < |queue| && queue[i] == x;
        assert queue[1..][i - 1] == x;
      }
    }
  }

  lemma TurnRotation(rotation: seq<ProjectId>, keys: set<ProjectId>, p: ProjectId)
    requires NoDup(rotation) && Elems(rotation) == keys && rotation != [] && rotation[0] == p
    ensures NoDup(rotation[1..]) && Elems(rotation[1..]) == keys - {p}
    ensures NoDup(rotation[1..] + [p]) && Elems(rotation[1..] + [p]) == keys
  {
    assert rotation == [p] + rotation[1..];
    assert (rotation[1..] + [p])[|rotation| - 1] == p;
    assert p !in rotation[1..];
  }

  lemma AfterReapOrderly(s: State, call: Call)
    requires Orderly(s) && call.Execute?
    ensures Orderly(AfterReap(s, call, DebugBuild).0)
  {
    hide Coherent, Sound, Remove, Enqueue, DequeueFront;
    AfterReapSound(s, call, DebugBuild);
    var Execute(operation, p, w, _, now) := call;
    if operation == Release {
      RemoveOrderly(s, w);
    } else if w in s.active {
      OtherActive(s, s.active[w := Expiry(now)]);
    } else {
      EnqueueCoherent(s, p, w, now);
      EnqueueSound(s, p, w, now);
      var t := Tick(Enqueue(s, p, w, now), now);
      TickOrderly(Enqueue(s, p, w, now), now);
      if Dequeues(s, call) {
        DequeuingCall(s, call, DebugBuild);
        DequeueCoherent(t, p, w);
        OtherActive(DequeueFront(t, p, w, DebugBuild), t.active[w := Expiry(now)]);
        DequeueKeepsActive(t, p, w);
      } else {
        WaitingCall(s, call);
      }
    }
  }

  /** A call that neither releases, renews a lease, nor is admitted. */
  lemma WaitingCall(s: State, call: Call)
    requires call.Execute? && call.operation != Release && call.workflow !in s.active && !Dequeues(s, call)
    ensures
      var t := Enqueue(s, call.project, call.workflow, call.now);
      AfterReap(s, call, DebugBuild).0 == t || AfterReap(s, call, DebugBuild).0 == Tick(t, call.now)
    ensures !AfterReap(s, call, DebugBuild).1.admitted && AfterReap(s, call, DebugBuild).1.leaseExpires == None
  {
    assert Enqueue(s, call.project, call.workflow, call.now).active == s.active;
  }

  lemma TickOrderly(s: State, now: u64)
    requires Orderly(s)
    ensures Orderly(Tick(s, now))
  {
    assert forall p :: Live(Tick(s, now), p) == Live(s, p);
    assert forall w, p :: InQueueOf(Tick(s, now), w, p) <==> InQueueOf(s, w, p);
  }

  lemma DequeueKeepsActive(s: State, p: ProjectId, w: WorkflowId)
    requires AtFront(s, p, w)
    ensures DequeueFront(s, p, w, DebugBuild).active == s.active
  {}

  lemma StepOrderly(s: State, call: Call)
    requires Orderly(s)
    ensures Orderly(Step(s, call, DebugBuild).0)
  {
    hide Orderly, Reap, AfterReap, Remove;
    match call
    case ReleaseWorkflow(w) => RemoveOrderly(s, w);
    case Execute(_, _, _, _, now) =>
      ReapOrderly(s, now);
      AfterReapOrderly(Reap(s, now), call);
  }

  lemma {:induction false} RunOrderly(s: State, calls: seq<Call>)
    requires Orderly(s)
    ensures Orderly(Run(s, calls, DebugBuild).0)
    decreases |calls|
  {
    hide Orderly, Step;
    if calls != [] {
      StepOrderly(s, calls[0]);
      RunOrderly(Step(s, calls[0], DebugBuild).0, calls[1..]);
    }
  }

  /** In both builds the repaired state is that of the debug run. */
  lemma RepairedRun(s: State, calls: seq<Call>, build: Build)
    requires Orderly(s)
    ensures Repair(Run(s, calls, build).0) == Run(s, calls, DebugBuild).0
  {
    hide Run, Repair, Coherent, Sound;
    RunOrderly(s, calls);
    RepairFixpoint(Run(s, calls, DebugBuild).0);
    RunsAlike(s, s, calls);
  }

  lemma NewOrderly(maximumActive: nat)
    ensures Orderly(New(maximumActive))
  {}

  // ----- what a call does to a workflow

  lemma {:induction false} RemovedAll(s: State, ws: seq<WorkflowId>, x: WorkflowId)
    requires Orderly(s)
    ensures Orderly(RemoveAll(s, ws))
    ensures x in RemoveAll(s, ws).active <==> x in s.active && x !in ws
    ensures x in RemoveAll(s, ws).waiting <==> x in s.waiting && x !in ws
    ensures x in RemoveAll(s, ws).waiting ==> RemoveAll(s, ws).waiting[x] == s.waiting[x]
    ensures x in RemoveAll(s, ws).active ==> RemoveAll(s, ws).active[x] == s.active[x]
    ensures x in RemoveAll(s, ws).waiting ==> OwnerOf(RemoveAll(s, ws), x) == OwnerOf(s, x)
    decreases |ws|
  {
    hide Orderly;
    if ws != [] {
      RemovedOne(s, ws[0], x);
      RemoveOrderly(s, ws[0]);
      RemovedAll(Remove(s, ws[0]), ws[1..], x);
      assert x in ws <==> x == ws[0] || x in ws[1..];
    }
  }

  function OwnerOf(s: State, x: WorkflowId): Option<ProjectId> {
    if x in s.workflowProjects then Some(s.workflowProjects[x]) else None
  }

  lemma RemovedOne(s: State, w: WorkflowId, x: WorkflowId)
    requires Orderly(s)
    ensures
      var t := Remove(s, w);
      && (x in t.active <==> x in s.active && x != w) && (x in t.active ==> t.active[x] == s.active[x])
      && (x in t.waiting <==> x in s.waiting && x != w) && (x in t.waiting ==> t.waiting[x] == s.waiting[x])
      && (x in t.waiting ==> OwnerOf(t, x) == OwnerOf(s, x))
  {
    assert x in s.waiting.Keys <==> x in s.workflowProjects.Keys;
    assert w in s.waiting.Keys <==> w in s.workflowProjects.Keys;
  }

  /** A live entry has not expired by `now`. */
  predicate Leased(s: State, x: WorkflowId, now: u64) {
    x in s.active && s.active[x] > now
  }

  predicate Requested(s: State, x: WorkflowId, now: u64) {
    x in s.waiting && s.waiting[x] > now
  }

  /** A reap takes away what has expired, and nothing else. */
  lemma ReapExactly(s: State, now: u64, x: WorkflowId)
    requires Orderly(s)
    ensures x in Reap(s, now).active <==> Leased(s, x, now)
    ensures x in Reap(s, now).active ==> Reap(s, now).active[x] == s.active[x]
    ensures x in Reap(s, now).waiting <==> Requested(s, x, now)
    ensures
      x in Reap(s, now).waiting ==>
        Reap(s, now).waiting[x] == s.waiting[x] && OwnerOf(Reap(s, now), x) == OwnerOf(s, x)
  {
    hide RemoveAll, Reap;
    ReapOrderly(s, now);
    DropOrderly(s, now);
    RemovedAll(DropExpired(s, now), Ascending(Abandoned(s, now)), x);
  }

  lemma DropOrderly(s: State, now: u64)
    requires Orderly(s)
    ensures Orderly(DropExpired(s, now))
  {
    OtherActive(s, DropExpired(s, now).active);
    SubsetSize(DropExpired(s, now).active.Keys, s.active.Keys);
  }

  predicate Concerns(call: Call, x: WorkflowId) {
    match call
    case Execute(_, _, w, _, _) => w == x
    case ReleaseWorkflow(w) => w == x
  }

  /** Has the entry with this expiry outlived the call? */
  predicate Outlives(call: Call, expiry: u64) {
    call.Execute? ==> expiry > call.now
  }

  /** A call touches no other workflow: a lease or a request lasts, with its expiry and its project, until it expires,
      and none comes into being. */
  lemma OthersUntouched(s: State, call: Call, x: WorkflowId)
    requires Orderly(s) && !Concerns(call, x)
    ensures
      var t := Step(s, call, DebugBuild).0;
      && (x in t.active <==> x in s.active && Outlives(call, s.active[x]))
      && (x in t.active ==> t.active[x] == s.active[x])
      && (x in t.waiting <==> x in s.waiting && Outlives(call, s.waiting[x]))
      && (x in t.waiting ==> t.waiting[x] == s.waiting[x] && OwnerOf(t, x) == OwnerOf(s, x))
  {
    hide Orderly, Reap, AfterReap, Remove;
    match call
    case ReleaseWorkflow(w) => RemovedOne(s, w, x);
    case Execute(_, _, _, _, now) =>
      ReapExactly(s, now, x);
      ReapOrderly(s, now);
      OthersAfterReap(Reap(s, now), call, x);
  }

  /** The entries of `x` are the same in both states. */
  predicate SameFor(s: State, t: State, x: WorkflowId) {
    && (x in t.active <==> x in s.active) && (x in t.active ==> t.active[x] == s.active[x])
    && (x in t.waiting <==> x in s.waiting) && (x in t.waiting ==> t.waiting[x] == s.waiting[x])
    && OwnerOf(t, x) == OwnerOf(s, x)
  }

  lemma OthersAfterReap(s: State, call: Call, x: WorkflowId)
    requires Orderly(s) && call.Execute? && x != call.workflow
    ensures SameFor(s, AfterReap(s, call, DebugBuild).0, x)
  {
    hide Orderly, Enqueue, DequeueFront, AfterReap;
    var Execute(operation, p, w, _, now) := call;
    if operation == Release {
      ReleasedCall(s, call);
      RemovedOther(s, w, x);
    } else if w in s.active {
      RenewingCall(s, call);
    } else {
      EnqueueOther(s, p, w, now, x);
      if Dequeues(s, call) {
        DequeuingCall(s, call, DebugBuild);
        ActivateOther(Tick(Enqueue(s, p, w, now), now), p, w, now, x);
      } else {
        WaitingCall(s, call);
      }
    }
  }

  lemma ReleasedCall(s: State, call: Call)
    requires call.Execute? && call.operation == Release
    ensures AfterReap(s, call, DebugBuild).0 == Remove(s, call.workflow)
    ensures !AfterReap(s, call, DebugBuild).1.admitted
  {
    hide Remove;
  }

  lemma RenewingCall(s: State, call: Call)
    requires call.Execute? && call.operation != Release && call.workflow in s.active
    ensures AfterReap(s, call, DebugBuild).0 == s.(active := s.active[call.workflow := Expiry(call.now)])
    ensures AfterReap(s, call, DebugBuild).1.admitted
    ensures AfterReap(s, call, DebugBuild).1.leaseExpires == Some(Expiry(call.now))
  {}

  lemma RemovedOther(s: State, w: WorkflowId, x: WorkflowId)
    requires x != w
    ensures SameFor(s, Remove(s, w), x)
  {}

  lemma EnqueueOther(s: State, p: ProjectId, w: WorkflowId, now: u64, x: WorkflowId)
    requires x != w
    ensures SameFor(s, Enqueue(s, p, w, now), x)
  {}

  lemma ActivateOther(s: State, p: ProjectId, w: WorkflowId, now: u64, x: WorkflowId)
    requires AtFront(s, p, w) && x != w
    ensures SameFor(s, Activate(s, p, w, now, DebugBuild), x)
  {}

  /** What a call does for its own workflow: after a release it is gone; otherwise it is active with a lease of 15
      seconds exactly when it is told so, and else it waits with such a request. */
  lemma OwnCall(s: State, call: Call)
    requires Orderly(s)
    ensures
      var (t, told) := Step(s, call, DebugBuild);
      match call
      case ReleaseWorkflow(w) => w !in t.active && w !in t.waiting
      case Execute(operation, p, w, _, now) =>
        var expiry := if now + 15_000 <= 0xFFFF_FFFF_FFFF_FFFF then now + 15_000 else 0xFFFF_FFFF_FFFF_FFFF;
        && told.value.active == |t.active| && told.value.maximumActive == t.maximumActive == s.maximumActive
        && told.value.retryAfterMillis == (if told.value.admitted then 0 else 500)
        &&
        if operation == Release then
          w !in t.active && w !in t.waiting && !told.value.admitted && told.value.reason == Some(Released)
        else if told.value.admitted then
          && w in t.active && t.active[w] == expiry && told.value.leaseExpires == Some(expiry) && w !in t.waiting
          && told.value.reason == None
        else
          && w in t.waiting && t.waiting[w] == expiry && w !in t.active && told.value.leaseExpires == None
          && told.value.reason != None
  {
    hide Orderly, Reap, AfterReap, Remove;
    match call
    case ReleaseWorkflow(w) => RemovedOne(s, w, w);
    case Execute(_, _, _, _, now) =>
      ReapOrderly(s, now);
      ReapKeepsMaximum(s, now);
      OwnAfterReap(Reap(s, now), call);
      AnswerAfterReap(Reap(s, now), call);
  }

  lemma ReapKeepsMaximum(s: State, now: u64)
    ensures Reap(s, now).maximumActive == s.maximumActive
  {
    RemoveAllOwners(DropExpired(s, now), Ascending(Abandoned(s, now)));
  }

  lemma AnswerAfterReap(s: State, call: Call)
    requires Orderly(s) && call.Execute?
    ensures
      var (t, told) := AfterReap(s, call, DebugBuild);
      && told.active == |t.active| && told.maximumActive == t.maximumActive == s.maximumActive
      && told.retryAfterMillis == (if told.admitted then 0 else 500)
      && (told.reason == None <==> told.admitted)
      && (call.operation == Release ==> told.reason == Some(Released))
  {
    hide Coherent;
  }

  lemma OwnAfterReap(s: State, call: Call)
    requires Orderly(s) && call.Execute?
    ensures
      var (t, told) := AfterReap(s, call, DebugBuild);
      var w, expiry := call.workflow, Expiry(call.now);
      if call.operation == Release then w !in t.active && w !in t.waiting && !told.admitted
      else if told.admitted then
        w in t.active && t.active[w] == expiry && told.leaseExpires == Some(expiry) && w !in t.waiting
      else w in t.waiting && t.waiting[w] == expiry && w !in t.active && told.leaseExpires == None
  {
    hide Coherent, AfterReap, Remove, NoDup;
    var Execute(operation, p, w, _, now) := call;
    if operation == Release {
      ReleasedCall(s, call);
      RemovedOne(s, w, w);
    } else if w in s.active {
      RenewingCall(s, call);
      assert w in s.active.Keys && w !in s.waiting.Keys;
    } else if Dequeues(s, call) {
      DequeuingCall(s, call, DebugBuild);
    } else {
      WaitingCall(s, call);
    }
  }

  /** A lease or a request that is not renewed lasts through every run up to its expiry. */
  lemma {:induction false} EntriesLast(s: State, calls: seq<Call>, x: WorkflowId, expiry: u64)
    requires Orderly(s)
    requires forall i :: 0 <= i < |calls| ==> !Concerns(calls[i], x) && Outlives(calls[i], expiry)
    ensures
      x in s.active && s.active[x] == expiry ==>
        x in Run(s, calls, DebugBuild).0.active && Run(s, calls, DebugBuild).0.active[x] == expiry
    ensures
      x in s.waiting && s.waiting[x] == expiry ==>
        x in Run(s, calls, DebugBuild).0.waiting && Run(s, calls, DebugBuild).0.waiting[x] == expiry
    decreases |calls|
  {
    hide Orderly, Step, Concerns, Outlives;
    if calls != [] {
      assert !Concerns(calls[0], x) && Outlives(calls[0], expiry);
      OthersUntouched(s, calls[0], x);
      StepOrderly(s, calls[0]);
      EntriesLast(Step(s, calls[0], DebugBuild).0, calls[1..], x, expiry);
    }
  }

  // ----- the order within a project

  function QueueOf(s: State, p: ProjectId): seq<WorkflowId> {
    if p in s.projects then s.projects[p] else []
  }

  lemma {:induction false} RetainRetain(q: seq<WorkflowId>, a: set<WorkflowId>, b: set<WorkflowId>)
    ensures Retain(Retain(q, a), b) == Retain(q, a * b)
  {
    if q != [] { RetainRetain(q[1..], a, b); }
  }

  lemma {:induction false} WithoutIsRetain(q: seq<WorkflowId>, all: set<WorkflowId>, w: WorkflowId)
    requires Elems(q) <= all
    ensures Without(q, w) == Retain(q, all - {w})
  {
    if q != [] {
      assert q[0] in Elems(q) && forall x :: x in Elems(q[1..]) ==> x in Elems(q);
      WithoutIsRetain(q[1..], all, w);
    }
  }

  lemma QueueWaits(s: State, p: ProjectId)
    requires Coherent(s)
    ensures Elems(QueueOf(s, p)) <= s.waiting.Keys
    ensures forall x :: x in QueueOf(s, p) <==> x in s.waiting && OwnerOf(s, x) == Some(p)
  {
    forall x | x in QueueOf(s, p) ensures x in s.waiting && OwnerOf(s, x) == Some(p) {
      assert x in Elems(s.projects[p]) && x in Live(s, p);
    }
    forall x | x in s.waiting && OwnerOf(s, x) == Some(p) ensures x in QueueOf(s, p) {
      assert InQueueOf(s, x, p);
    }
  }

  lemma RemoveKeepsQueue(s: State, w: WorkflowId, p: ProjectId)
    requires Coherent(s)
    ensures QueueOf(Remove(s, w), p) == Retain(QueueOf(s, p), s.waiting.Keys - {w})
  {
    hide Coherent;
    QueueWaits(s, p);
    WithoutIsRetain(QueueOf(s, p), s.waiting.Keys, w);
    if OwnerOf(s, w) != Some(p) { WithoutAbsent(QueueOf(s, p), w); }
  }

  lemma {:induction false} RemoveAllKeepsQueue(s: State, ws: seq<WorkflowId>, p: ProjectId)
    requires Orderly(s)
    ensures QueueOf(RemoveAll(s, ws), p) == Retain(QueueOf(s, p), s.waiting.Keys - Elems(ws))
    decreases |ws|
  {
    hide Sound, Coherent, Remove, QueueOf;
    if ws == [] {
      QueueWaits(s, p);
      RetainAll(QueueOf(s, p), s.waiting.Keys - Elems(ws));
    } else {
      var t := Remove(s, ws[0]);
      RemoveOrderly(s, ws[0]);
      RemoveAllKeepsQueue(t, ws[1..], p);
      RemoveKeepsQueue(s, ws[0], p);
      RetainRetain(QueueOf(s, p), s.waiting.Keys - {ws[0]}, t.waiting.Keys - Elems(ws[1..]));
      forall x ensures x in t.waiting.Keys <==> x in s.waiting.Keys && x != ws[0] { RemovedOne(s, ws[0], x); }
      assert ws == [ws[0]] + ws[1..];
      assert (s.waiting.Keys - {ws[0]}) * (t.waiting.Keys - Elems(ws[1..])) == s.waiting.Keys - Elems(ws);
    }
  }

  lemma ReapKeepsQueue(s: State, now: u64, p: ProjectId)
    requires Orderly(s)
    ensures QueueOf(Reap(s, now), p) == Retain(QueueOf(s, p), Reap(s, now).waiting.Keys)
  {
    hide Sound, Coherent, RemoveAll, Reap, QueueOf;
    ReapOrderly(s, now);
    DropOrderly(s, now);
    var gone := Ascending(Abandoned(s, now));
    RemoveAllKeepsQueue(DropExpired(s, now), gone, p);
    SameQueue(s, now, p);
    forall x ensures x in Reap(s, now).waiting.Keys <==> x in s.waiting.Keys - Elems(gone) {
      ReapExactly(s, now, x);
    }
    assert Reap(s, now).waiting.Keys == s.waiting.Keys - Elems(gone);
  }

  lemma SameQueue(s: State, now: u64, p: ProjectId)
    ensures QueueOf(DropExpired(s, now), p) == QueueOf(s, p) && DropExpired(s, now).waiting == s.waiting
  {}

  /** A request that this call makes: the workflow neither works nor waits when the call is looked at. */
  predicate Joins(s: State, call: Call) {
    && call.Execute? && call.operation != Release
    && !Leased(s, call.workflow, call.now) && !Requested(s, call.workflow, call.now)
  }

  /** Those who wait before the call and after it, by the same request. */
  ghost function Stayers(s: State, call: Call): set<WorkflowId> {
    var t := Step(s, call, DebugBuild).0;
    set x | x in t.waiting && x in s.waiting && Outlives(call, s.waiting[x])
  }

  /** The queue of every project after a call: those who stay keep their order, and whoever joins comes last. */
  lemma QueueAfterStep(s: State, call: Call, p: ProjectId)
    requires Orderly(s)
    ensures
      var t := Step(s, call, DebugBuild).0;
      QueueOf(t, p) ==
        Retain(QueueOf(s, p), Stayers(s, call)) +
        if Joins(s, call) && call.workflow in t.waiting && p == call.project then [call.workflow] else []
  {
    hide Sound, Coherent, Reap, AfterReap, Remove, QueueOf;
    var t := Step(s, call, DebugBuild).0;
    match call
    case ReleaseWorkflow(w) =>
      RemoveKeepsQueue(s, w, p);
      forall x ensures x in Stayers(s, call) <==> x in s.waiting.Keys - {w} { RemovedOne(s, w, x); }
      assert Stayers(s, call) == s.waiting.Keys - {w};
    case Execute(_, q, w, _, now) =>
      var reaped := Reap(s, now);
      ReapOrderly(s, now);
      ReapKeepsQueue(s, now, p);
      ReapExactly(s, now, w);
      QueueAfterReap(reaped, call, p);
      forall x ensures x in Stayers(s, call) <==> x in reaped.waiting.Keys && x in t.waiting.Keys {
        ReapExactly(s, now, x);
      }
      RetainRetain(QueueOf(s, p), reaped.waiting.Keys, t.waiting.Keys);
      assert reaped.waiting.Keys * t.waiting.Keys == Stayers(s, call);
  }

  predicate JoinsReaped(s: State, call: Call) {
    call.Execute? && call.operation != Release && call.workflow !in s.active && call.workflow !in s.waiting
  }

  /** The queue of `p` after a reaped state and a call. */
  ghost predicate QueueFollows(s: State, call: Call, t: State, p: ProjectId) {
    QueueOf(t, p) ==
      Retain(QueueOf(s, p), t.waiting.Keys) +
      if JoinsReaped(s, call) && call.workflow in t.waiting && p == call.project then [call.workflow] else []
  }

  lemma QueueAfterReap(s: State, call: Call, p: ProjectId)
    requires Orderly(s) && call.Execute?
    ensures QueueFollows(s, call, AfterReap(s, call, DebugBuild).0, p)
  {
    hide Sound, Coherent, AfterReap, Remove, QueueOf, QueueFollows, Retain;
    if call.operation == Release {
      ReleasedQueue(s, call, p);
    } else if call.workflow in s.active {
      RenewedQueue(s, call, p);
    } else if Dequeues(s, call) {
      AdmittedQueue(s, call, p);
    } else {
      WaitingQueue(s, call, p);
    }
  }

  lemma ReleasedQueue(s: State, call: Call, p: ProjectId)
    requires Orderly(s) && call.Execute? && call.operation == Release
    ensures QueueFollows(s, call, AfterReap(s, call, DebugBuild).0, p)
  {
    hide Sound, Coherent, AfterReap, Remove, QueueOf;
    var w := call.workflow;
    ReleasedCall(s, call);
    RemoveKeepsQueue(s, w, p);
    forall x ensures x in Remove(s, w).waiting.Keys <==> x in s.waiting.Keys - {w} { RemovedOne(s, w, x); }
    assert Remove(s, w).waiting.Keys == s.waiting.Keys - {w};
  }

  lemma RenewedQueue(s: State, call: Call, p: ProjectId)
    requires Orderly(s) && call.Execute? && call.operation != Release && call.workflow in s.active
    ensures QueueFollows(s, call, AfterReap(s, call, DebugBuild).0, p)
  {
    hide Sound, Coherent, AfterReap, QueueOf;
    var t := AfterReap(s, call, DebugBuild).0;
    RenewingCall(s, call);
    SameProjects(s, t, p);
    QueueWaits(s, p);
    RetainAll(QueueOf(s, p), t.waiting.Keys);
  }

  lemma WaitingQueue(s: State, call: Call, p: ProjectId)
    requires Orderly(s) && call.Execute? && call.operation != Release && call.workflow !in s.active
    requires !Dequeues(s, call)
    ensures QueueFollows(s, call, AfterReap(s, call, DebugBuild).0, p)
  {
    hide Sound, Coherent, AfterReap, QueueOf, Enqueue, Dequeues;
    var t := AfterReap(s, call, DebugBuild).0;
    WaitingCall(s, call);
    EnqueuedQueue(s, call.project, call.workflow, call.now, p);
    SameProjects(Enqueue(s, call.project, call.workflow, call.now), t, p);
    QueueWaits(s, p);
    RetainAll(QueueOf(s, p), t.waiting.Keys);
  }

  lemma AdmittedQueue(s: State, call: Call, p: ProjectId)
    requires Orderly(s) && call.Execute? && call.operation != Release && call.workflow !in s.active
    requires Dequeues(s, call)
    ensures QueueFollows(s, call, AfterReap(s, call, DebugBuild).0, p)
  {
    hide Sound, Coherent, AfterReap, QueueOf, Enqueue, Activate, Retain;
    var Execute(_, q, w, _, now) := call;
    var t := AfterReap(s, call, DebugBuild).0;
    DequeuingCall(s, call, DebugBuild);
    var u := Tick(Enqueue(s, q, w, now), now);
    EnqueueCoherent(s, q, w, now);
    EnqueueSound(s, q, w, now);
    TickOrderly(Enqueue(s, q, w, now), now);
    EnqueuedQueue(s, q, w, now, p);
    SameProjects(Enqueue(s, q, w, now), u, p);
    ActivatedQueue(u, q, w, now, p);
    assert t.waiting.Keys == u.waiting.Keys - {w};
    RetainSnoc(QueueOf(s, p), w, t.waiting.Keys);
    assert QueueOf(s, p) + [] == QueueOf(s, p);
    assert Retain(QueueOf(s, p), t.waiting.Keys) + [] == Retain(QueueOf(s, p), t.waiting.Keys);
  }

  lemma SameProjects(s: State, t: State, p: ProjectId)
    requires t.projects == s.projects
    ensures QueueOf(t, p) == QueueOf(s, p)
  {}

  lemma EnqueuedQueue(s: State, q: ProjectId, w: WorkflowId, now: u64, p: ProjectId)
    ensures Enqueue(s, q, w, now).waiting.Keys == s.waiting.Keys + {w}
    ensures
      QueueOf(Enqueue(s, q, w, now), p) == QueueOf(s, p) + if w !in s.waiting && p == q then [w] else []
  {}

  lemma ActivatedQueue(s: State, q: ProjectId, w: WorkflowId, now: u64, p: ProjectId)
    requires Orderly(s) && AtFront(s, q, w)
    ensures
      var t := Activate(s, q, w, now, DebugBuild);
      && t.waiting.Keys == s.waiting.Keys - {w}
      && QueueOf(t, p) == Retain(QueueOf(s, p), s.waiting.Keys - {w})
  {
    hide Live;
    QueueWaits(s, p);
    QueueWaits(s, q);
    var queue := QueueOf(s, p);
    if p == q {
      assert w !in queue[1..];
      RetainAll(queue[1..], s.waiting.Keys - {w});
    } else {
      assert w in QueueOf(s, q);
      RetainAll(queue, s.waiting.Keys - {w});
    }
  }

  // ----- first come, first served

  /** What both builds show of a run from an empty queue. */
  ghost function Seen(maximumActive: nat, calls: seq<Call>): State {
    Run(New(maximumActive), calls, DebugBuild).0
  }

  lemma {:induction false} RunSnoc(s: State, calls: seq<Call>, call: Call, build: Build)
    ensures Run(s, calls + [call], build).0 == Step(Run(s, calls, build).0, call, build).0
    decreases |calls|
  {
    hide Step;
    if calls == [] {
      assert [] + [call] == [call];
      assert Run(s, [call], build).0 == Run(Step(s, call, build).0, [], build).0;
    } else {
      assert (calls + [call])[1..] == calls[1..] + [call];
      RunSnoc(Step(s, calls[0], build).0, calls[1..], call, build);
    }
  }

  lemma SeenNext(maximumActive: nat, calls: seq<Call>)
    requires calls != []
    ensures
      var n := |calls| - 1;
      && Seen(maximumActive, calls) == Step(Seen(maximumActive, calls[..n]), calls[n], DebugBuild).0
      && Orderly(Seen(maximumActive, calls[..n])) && Orderly(Seen(maximumActive, calls))
  {
    hide Run, Step, Orderly;
    var n := |calls| - 1;
    assert calls[..n] + [calls[n]] == calls;
    RunSnoc(New(maximumActive), calls[..n], calls[n], DebugBuild);
    NewOrderly(maximumActive);
    RunOrderly(New(maximumActive), calls[..n]);
    RunOrderly(New(maximumActive), calls);
  }

  /** The call, counted from one, by which a workflow made its latest request. */
  ghost function Arrived(maximumActive: nat, calls: seq<Call>, w: WorkflowId): nat
    decreases |calls|
  {
    if calls == [] then 0
    else
      var n := |calls| - 1;
      if Joins(Seen(maximumActive, calls[..n]), calls[n]) && calls[n].workflow == w then n + 1
      else Arrived(maximumActive, calls[..n], w)
  }

  ghost predicate InOrder(q: seq<WorkflowId>, rank: WorkflowId -> nat) {
    forall i, j :: 0 <= i < j < |q| ==> rank(q[i]) < rank(q[j])
  }

  lemma {:induction false} RetainInOrder(q: seq<WorkflowId>, kept: set<WorkflowId>, rank: WorkflowId -> nat)
    requires InOrder(q, rank)
    ensures InOrder(Retain(q, kept), rank)
  {
    if q != [] {
      RetainInOrder(q[1..], kept, rank);
      var rest := Retain(q[1..], kept);
      forall j | 0 <= j < |rest| ensures rank(q[0]) < rank(rest[j]) {
        assert rest[j] in q[1..];
      }
    }
  }

  lemma {:induction false} ArrivedSoFar(maximumActive: nat, calls: seq<Call>, w: WorkflowId)
    ensures Arrived(maximumActive, calls, w) <= |calls|
    decreases |calls|
  {
    hide Seen, Joins;
    if calls != [] { ArrivedSoFar(maximumActive, calls[..|calls| - 1], w); }
  }

  ghost predicate ByArrival(maximumActive: nat, calls: seq<Call>, q: seq<WorkflowId>) {
    forall i, j :: 0 <= i < j < |q| ==> Arrived(maximumActive, calls, q[i]) < Arrived(maximumActive, calls, q[j])
  }

  /** In every run every project's queue stands in the order in which the requests were made. */
  lemma {:induction false} QueuesByArrival(maximumActive: nat, calls: seq<Call>, p: ProjectId)
    ensures ByArrival(maximumActive, calls, QueueOf(Seen(maximumActive, calls), p))
    decreases |calls|
  {
    hide Step, Orderly, QueueOf, Joins;
    if calls == [] {
      NothingQueued(maximumActive, p);
    } else {
      var n := |calls| - 1;
      var before := Seen(maximumActive, calls[..n]);
      QueuesByArrival(maximumActive, calls[..n], p);
      SeenNext(maximumActive, calls);
      QueueAfterStep(before, calls[n], p);
      var kept := Retain(QueueOf(before, p), Stayers(before, calls[n]));
      RetainInOrder(QueueOf(before, p), Stayers(before, calls[n]), w => Arrived(maximumActive, calls[..n], w));
      forall x | x in kept
        ensures Arrived(maximumActive, calls, x) == Arrived(maximumActive, calls[..n], x) <= n
      {
        StayerDoesNotJoin(before, calls[n], x);
        ArrivedSoFar(maximumActive, calls[..n], x);
      }
    }
  }

  lemma NothingQueued(maximumActive: nat, p: ProjectId)
    ensures QueueOf(Seen(maximumActive, []), p) == []
  {}

  lemma StayerDoesNotJoin(s: State, call: Call, x: WorkflowId)
    requires x in Stayers(s, call)
    ensures !(Joins(s, call) && call.workflow == x)
  {
    hide Step;
  }

  /** A workflow is admitted without having worked before this call. */
  ghost predicate TakenUp(s: State, call: Call) {
    && call.Execute? && call.operation != Release && !Leased(s, call.workflow, call.now)
    && Step(s, call, DebugBuild).1.value.admitted
  }

  /** In every run: whoever is admitted made its request before everyone who still waits in its project, and with
      others waiting there it did not make it just now. */
  lemma FirstComeFirstServed(maximumActive: nat, calls: seq<Call>, call: Call, other: WorkflowId)
    requires TakenUp(Seen(maximumActive, calls), call)
    requires
      var t := Step(Seen(maximumActive, calls), call, DebugBuild).0;
      other in t.waiting && OwnerOf(t, other) == Some(call.project)
    ensures !Joins(Seen(maximumActive, calls), call)
    ensures other in Seen(maximumActive, calls).waiting
    ensures Arrived(maximumActive, calls, call.workflow) < Arrived(maximumActive, calls, other)
  {
    hide Run, Orderly, Reap, AfterReap, QueueOf, Joins, Arrived;
    var s, p := Seen(maximumActive, calls), call.project;
    NewOrderly(maximumActive);
    RunOrderly(New(maximumActive), calls);
    var reaped := Reap(s, call.now);
    ReapOrderly(s, call.now);
    ReapExactly(s, call.now, call.workflow);
    AdmittedIsFirst(reaped, call, other);
    ReapExactly(s, call.now, other);
    NotJoined(s, call);
    ReapKeepsQueue(s, call.now, p);
    QueuesByArrival(maximumActive, calls, p);
    var q := QueueOf(reaped, p);
    RetainInOrder(QueueOf(s, p), reaped.waiting.Keys, w => Arrived(maximumActive, calls, w));
    var k :| 0 < k < |q| && q[k] == other;
  }

  lemma NotJoined(s: State, call: Call)
    requires call.Execute? && Requested(s, call.workflow, call.now)
    ensures !Joins(s, call)
  {}

  lemma AdmittedIsFirst(s: State, call: Call, other: WorkflowId)
    requires Orderly(s) && call.Execute? && call.operation != Release && call.workflow !in s.active
    requires AfterReap(s, call, DebugBuild).1.admitted
    requires
      var t := AfterReap(s, call, DebugBuild).0;
      other in t.waiting && OwnerOf(t, other) == Some(call.project)
    ensures call.workflow in s.waiting && other in s.waiting
    ensures
      var q := QueueOf(s, call.project);
      q != [] && q[0] == call.workflow && exists k :: 0 < k < |q| && q[k] == other
  {
    hide Sound, Coherent, AfterReap, QueueOf, Enqueue, Retain;
    var Execute(_, p, w, _, now) := call;
    var t := AfterReap(s, call, DebugBuild).0;
    if !Dequeues(s, call) { WaitingCall(s, call); }
    AfterReapOrderly(s, call);
    OwnAfterReap(s, call);
    QueueWaits(t, p);
    QueueWaits(s, p);
    AdmittedQueue(s, call, p);
    EnqueuedQueue(s, p, w, now, p);
    FrontOf(Enqueue(s, p, w, now), p, w);
    assert other in QueueOf(t, p) && other != w;
    assert other in QueueOf(s, p);
    var k :| 0 <= k < |QueueOf(s, p)| && QueueOf(s, p)[k] == other;
    assert QueueOf(s, p)[0] == QueueOf(Enqueue(s, p, w, now), p)[0] == w;
  }

  lemma FrontOf(s: State, p: ProjectId, w: WorkflowId)
    requires AtFront(s, p, w)
    ensures QueueOf(s, p) != [] && QueueOf(s, p)[0] == w
  {}

  /** Whatever maximum it is made with, an empty queue admits the first to come if the controller does. */
  lemma FirstCallIsAdmitted(maximumActive: nat, p: ProjectId, w: WorkflowId, now: u64)
    ensures Step(New(maximumActive), Execute(Acquire, p, w, Admit, now), DebugBuild).1.value.admitted
  {
    hide Reap;
    ReapOfNew(maximumActive, now);
    assert Enqueue(New(maximumActive), p, w, now).projects[p] == [w];
  }

  // ----- what a refusal means

  /** The request that is served next. */
  function First(s: State): Option<WorkflowId> {
    if s.rotation != [] && QueueOf(s, s.rotation[0]) != [] then Some(QueueOf(s, s.rotation[0])[0]) else None
  }

  /** A refused call names its cause: the active set is full; or the request is not the one served next, or was made
      for another project than the call names; or else the controller's decision. */
  lemma RefusalTells(s: State, call: Call)
    requires Orderly(s) && call.Execute? && call.operation != Release
    requires !Step(s, call, DebugBuild).1.value.admitted
    ensures
      var (t, told) := Step(s, call, DebugBuild);
      var full := |t.active| >= t.maximumActive;
      var next := First(t) == Some(call.workflow) && OwnerOf(t, call.workflow) == Some(call.project);
      && (told.value.reason == Some(ConcurrencyLimit) <==> full)
      && (told.value.reason == Some(FairQueue) <==> !full && !next)
      && (told.value.reason == Some(Deferred(call.decision)) <==> !full && next)
  {
    hide Orderly, Reap, AfterReap, QueueOf, First;
    ReapOrderly(s, call.now);
    RefusalAfterReap(Reap(s, call.now), call);
  }

  lemma RefusalAfterReap(s: State, call: Call)
    requires Orderly(s) && call.Execute? && call.operation != Release && !AfterReap(s, call, DebugBuild).1.admitted
    ensures
      var (t, told) := AfterReap(s, call, DebugBuild);
      var full := |t.active| >= t.maximumActive;
      var next := First(t) == Some(call.workflow) && OwnerOf(t, call.workflow) == Some(call.project);
      && (told.reason == Some(ConcurrencyLimit) <==> full)
      && (told.reason == Some(FairQueue) <==> !full && !next)
      && (told.reason == Some(Deferred(call.decision)) <==> !full && next)
  {
    hide Coherent, Sound;
    var Execute(_, p, w, _, now) := call;
    EnqueueCoherent(s, p, w, now);
    FrontIsFirst(Enqueue(s, p, w, now), p, w);
  }

  lemma FrontIsFirst(s: State, p: ProjectId, w: WorkflowId)
    requires Coherent(s)
    ensures AtFront(s, p, w) <==> First(s) == Some(w) && OwnerOf(s, w) == Some(p)
  {
    if AtFront(s, p, w) {
      QueueWaits(s, p);
      assert w in QueueOf(s, p);
    }
    if First(s) == Some(w) {
      QueueWaits(s, s.rotation[0]);
      assert w in QueueOf(s, s.rotation[0]);
    }
  }

  // ----- a request that blocks everybody

  /** `w` keeps its request alive, but asks for another project than the one it queued under. */
  predicate AsksElsewhere(s: State, call: Call, w: WorkflowId) {
    match call
    case ReleaseWorkflow(x) => x != w
    case Execute(operation, p, x, _, now) =>
      Requested(s, w, now) && (x == w ==> operation != Release && OwnerOf(s, w) != Some(p))
  }

  ghost predicate AsksElsewhereThroughout(s: State, calls: seq<Call>, w: WorkflowId)
    decreases |calls|
  {
    calls == [] ||
    (AsksElsewhere(s, calls[0], w) && AsksElsewhereThroughout(Step(s, calls[0], DebugBuild).0, calls[1..], w))
  }

  lemma RetainsFront(q: seq<WorkflowId>, kept: set<WorkflowId>)
    requires q != [] && q[0] in kept
    ensures Retain(q, kept) != [] && Retain(q, kept)[0] == q[0]
  {}

  lemma StaysWaiting(s: State, call: Call, w: WorkflowId, p: ProjectId)
    requires Orderly(s) && w in s.waiting && OwnerOf(s, w) == Some(p)
    requires AsksElsewhere(s, call, w)
    requires call.Execute? && call.workflow == w ==> !Step(s, call, DebugBuild).1.value.admitted
    ensures w in Stayers(s, call)
    ensures w in Step(s, call, DebugBuild).0.waiting
  {
    hide Step, Orderly;
    if Concerns(call, w) {
      OwnCall(s, call);
    } else {
      OthersUntouched(s, call, w);
    }
  }

  /** An admission takes the request served next, for the project it was made for. */
  lemma AdmitsFirst(s: State, call: Call)
    requires Orderly(s) && Admits(s, call)
    ensures
      var u := Enqueue(Reap(s, call.now), call.project, call.workflow, call.now);
      First(u) == Some(call.workflow) && OwnerOf(u, call.workflow) == Some(call.project)
  {
    hide Coherent, Sound, Reap, Enqueue;
    ReapOrderly(s, call.now);
    EnqueueCoherent(Reap(s, call.now), call.project, call.workflow, call.now);
    FrontIsFirst(Enqueue(Reap(s, call.now), call.project, call.workflow, call.now), call.project, call.workflow);
  }

  lemma HeadInReap(s: State, now: u64, w: WorkflowId)
    requires Orderly(s) && First(s) == Some(w) && Requested(s, w, now)
    ensures First(Reap(s, now)) == Some(w) && Reap(s, now).rotation[0] == s.rotation[0]
    ensures s.rotation[0] in Reap(s, now).projects
  {
    hide Reap, Repair, RemoveAll;
    var p := s.rotation[0];
    QueueWaits(s, p);
    ReapExactly(s, now, w);
    ReapKeepsQueue(s, now, p);
    RetainsFront(QueueOf(s, p), Reap(s, now).waiting.Keys);
    RepairFixpoint(s);
    ReapPosition(s, now, p);
  }

  lemma HeadStays(s: State, call: Call, w: WorkflowId)
    requires Orderly(s) && First(s) == Some(w) && AsksElsewhere(s, call, w)
    ensures First(Step(s, call, DebugBuild).0) == Some(w)
    ensures OwnerOf(Step(s, call, DebugBuild).0, w) == OwnerOf(s, w)
    ensures !Admits(s, call)
  {
    hide Step, Reap, Coherent, Sound, Enqueue, Position, Waits, AtFront, Dequeues;
    var p, t := s.rotation[0], Step(s, call, DebugBuild).0;
    QueueWaits(s, p);
    assert w in QueueOf(s, p);
    if call.Execute? { HeadInReap(s, call.now, w); }
    NotItsProject(s, call, w, p);
    NotAdmitted(s, call, w);
    StaysWaiting(s, call, w, p);
    StepOrderly(s, call);
    QueueAfterStep(s, call, p);
    RetainsFront(QueueOf(s, p), Stayers(s, call));
    QueueWaits(t, p);
    HeadPosition(s, call, p);
  }

  lemma NotItsProject(s: State, call: Call, w: WorkflowId, p: ProjectId)
    requires Orderly(s) && First(s) == Some(w) && s.rotation[0] == p && AsksElsewhere(s, call, w)
    requires w in QueueOf(s, p)
    ensures !(Admits(s, call) && call.project == p)
    ensures !(Admits(s, call) && call.workflow == w)
  {
    hide Reap, Coherent, Sound, Dequeues;
    if Admits(s, call) {
      AdmitsFirst(s, call);
      HeadInReap(s, call.now, w);
      QueueWaits(s, p);
      ReapExactly(s, call.now, w);
    }
  }

  lemma NotAdmitted(s: State, call: Call, w: WorkflowId)
    requires Orderly(s) && First(s) == Some(w) && AsksElsewhere(s, call, w) && !(Admits(s, call) && call.workflow == w)
    ensures call.Execute? && call.workflow == w ==> !Step(s, call, DebugBuild).1.value.admitted
  {
    hide Reap, Coherent, Sound, Dequeues, AfterReap;
    if call.Execute? && call.workflow == w {
      var reaped := Reap(s, call.now);
      ReapOrderly(s, call.now);
      ReapExactly(s, call.now, w);
      NotBothPlaces(reaped, w);
      WaitingCall(reaped, call);
    }
  }

  lemma NotBothPlaces(s: State, w: WorkflowId)
    requires Sound(s) && w in s.waiting
    ensures w !in s.active
  {
    assert w in s.waiting.Keys;
  }

  lemma HeadPosition(s: State, call: Call, p: ProjectId)
    requires Orderly(s) && s.rotation != [] && s.rotation[0] == p && p in s.projects
    requires call.Execute? ==> p in Reap(s, call.now).projects
    requires Orderly(Step(s, call, DebugBuild).0) && QueueOf(Step(s, call, DebugBuild).0, p) != []
    requires !(Admits(s, call) && call.project == p)
    ensures !Admits(s, call)
    ensures Step(s, call, DebugBuild).0.rotation != [] && Step(s, call, DebugBuild).0.rotation[0] == p
  {
    hide Step, Reap, Admits, Repair;
    var t := Step(s, call, DebugBuild).0;
    RepairFixpoint(s);
    RepairFixpoint(t);
    CoherentQueues(s);
    CoherentQueues(t);
    assert p in Elems(t.rotation);
    StepPosition(s, call, DebugBuild, p);
  }

  /** As long as the workflow served next keeps asking for another project than the one it queued under, nobody at all
      is admitted: it stays where it is, and everyone else behind it. */
  lemma {:induction false} MovedRequestBlocksAll(s: State, calls: seq<Call>, w: WorkflowId)
    requires Orderly(s) && First(s) == Some(w) && AsksElsewhereThroughout(s, calls, w)
    ensures Admissions(s, calls, DebugBuild) == 0
    ensures First(Run(s, calls, DebugBuild).0) == Some(w)
    decreases |calls|
  {
    hide Orderly, Step, First, AsksElsewhere, Admits;
    if calls != [] {
      HeadStays(s, calls[0], w);
      StepOrderly(s, calls[0]);
      MovedRequestBlocksAll(Step(s, calls[0], DebugBuild).0, calls[1..], w);
    }
  }

  /** Such a state is reached by one refused call. */
  lemma DeferredRequestIsFirst(p: ProjectId, w: WorkflowId, now: u64)
    ensures First(Seen(1, [Execute(Acquire, p, w, DeferCpu, now)])) == Some(w)
    ensures OwnerOf(Seen(1, [Execute(Acquire, p, w, DeferCpu, now)]), w) == Some(p)
  {
    hide Reap, AfterReap, First, New;
    var call := Execute(Acquire, p, w, DeferCpu, now);
    assert [call][..0] == [] && [call][0] == call && Seen(1, []) == New(1);
    SeenNext(1, [call]);
    ReapOfNew(1, now);
    DeferredRequest(New(1), p, w, now);
  }

  lemma DeferredRequest(s: State, p: ProjectId, w: WorkflowId, now: u64)
    requires s == New(1)
    ensures
      var t := AfterReap(s, Execute(Acquire, p, w, DeferCpu, now), DebugBuild).0;
      First(t) == Some(w) && OwnerOf(t, w) == Some(p)
  {
    assert Enqueue(s, p, w, now).projects[p] == [w];
  }

  // ----- ticks of the controller

  /** The controller is asked: the request is the one served next, and there is room. */
  ghost predicate Consulted(s: State, call: Call) {
    && call.Execute? && call.operation != Release && !Leased(s, call.workflow, call.now)
    && (Step(s, call, DebugBuild).1.value.admitted ||
        Step(s, call, DebugBuild).1.value.reason == Some(Deferred(call.decision)))
  }

  lemma ReapKeepsTick(s: State, now: u64)
    ensures Reap(s, now).lastTick == s.lastTick
  {
    RemoveAllOwners(DropExpired(s, now), Ascending(Abandoned(s, now)));
  }

  /** The controller is asked only within a second of a tick, and a tick is begun only for that, and not before a
      second has passed since the one before. */
  lemma TicksServeConsultations(s: State, call: Call)
    requires Orderly(s)
    ensures
      var t := Step(s, call, DebugBuild).0;
      && (Consulted(s, call) ==> call.now < t.lastTick + 1_000)
      && (t.lastTick != s.lastTick ==>
            Consulted(s, call) && t.lastTick == call.now && call.now >= s.lastTick + 1_000)
  {
    hide Orderly, Reap, Enqueue, Activate, Remove;
    match call
    case ReleaseWorkflow(w) => RemoveKeepsTick(s, w);
    case Execute(_, p, w, _, now) =>
      ReapKeepsTick(s, now);
      ReapExactly(s, now, w);
      RemoveKeepsTick(Reap(s, now), w);
      EnqueueKeepsTick(Reap(s, now), p, w, now);
      ActivateKeepsTick(Reap(s, now), call);
  }

  lemma RemoveKeepsTick(s: State, w: WorkflowId)
    ensures Remove(s, w).lastTick == s.lastTick
  {}

  lemma EnqueueKeepsTick(s: State, p: ProjectId, w: WorkflowId, now: u64)
    ensures Enqueue(s, p, w, now).lastTick == s.lastTick
  {}

  lemma ActivateKeepsTick(s: State, call: Call)
    requires call.Execute?
    ensures
      var u := Tick(Enqueue(s, call.project, call.workflow, call.now), call.now);
      AtFront(u, call.project, call.workflow) ==>
        Activate(u, call.project, call.workflow, call.now, DebugBuild).lastTick == u.lastTick
  {}

  function Ticks(s: State, calls: seq<Call>): nat
    decreases |calls|
  {
    if calls == [] then 0
    else
      var t := Step(s, calls[0], DebugBuild).0;
      (if t.lastTick != s.lastTick then 1 else 0) + Ticks(t, calls[1..])
  }

  /** In every run the ticks are a second apart. */
  lemma {:induction false} TicksAreSpaced(s: State, calls: seq<Call>)
    requires Orderly(s)
    ensures s.lastTick + 1_000 * Ticks(s, calls) <= Run(s, calls, DebugBuild).0.lastTick
    decreases |calls|
  {
    hide Orderly, Step, Consulted;
    if calls != [] {
      TicksServeConsultations(s, calls[0]);
      StepOrderly(s, calls[0]);
      TicksAreSpaced(Step(s, calls[0], DebugBuild).0, calls[1..]);
    }
  }
}
