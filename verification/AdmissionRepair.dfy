/** What the self-repair pass achieves, and why debug and release builds cannot be told apart. */
module AdmissionRepair {
  import opened Sequences
  import opened AdmissionModel

  /** The four queue structures tell one story. */
  ghost predicate Coherent(s: State) {
    && (forall p :: p in s.projects ==> s.projects[p] != [] && Elems(s.projects[p]) <= Live(s, p))
    && s.waiting.Keys == s.workflowProjects.Keys
    && (forall w :: w in s.workflowProjects ==> InQueueOf(s, w, s.workflowProjects[w]))
    && NoDup(s.rotation)
    && Elems(s.rotation) == s.projects.Keys
  }

  ghost predicate InQueueOf(s: State, w: WorkflowId, p: ProjectId) {
    p in s.projects && w in s.projects[p]
  }

  lemma RotateIsListing(rotation: seq<ProjectId>, keys: set<ProjectId>)
    ensures NoDup(Rotate(rotation, keys))
    ensures Elems(Rotate(rotation, keys)) == keys
  {
    var kept := FirstOccurrences(rotation, keys);
    var missing := Ascending(keys - Elems(kept));
    forall i, j | 0 <= i < j < |kept + missing| ensures (kept + missing)[i] != (kept + missing)[j] {
      if i < |kept| <= j {
        assert kept[i] in kept && missing[j - |kept|] in missing;
      }
    }
  }

  /** From any state, even a corrupted one, repair makes the structures agree. */
  lemma RepairCoherent(s: State)
    ensures Coherent(Repair(s))
  {
    var r := Repair(s);
    RotateIsListing(s.rotation, r.projects.Keys);
    forall p | p in r.projects ensures r.projects[p] != [] && Elems(r.projects[p]) <= Live(r, p) {
      forall w | w in r.projects[p] ensures w in Live(r, p) {
        assert w in Live(s, p);
        assert Queued(s, w);
      }
    }
    forall w | Queued(s, w) ensures w in s.waiting && InQueueOf(r, w, s.workflowProjects[w]) {
      assert w in Live(s, s.workflowProjects[w]);
    }
  }

  lemma CoherentQueues(s: State)
    requires Coherent(s)
    ensures KeptQueues(s) == s.projects
    ensures forall w :: w in s.workflowProjects ==> Queued(s, w)
  {
    forall p | p in s.projects ensures KeptQueue(s, p) == s.projects[p] {
      RetainAll(s.projects[p], Live(s, p));
    }
    forall w | w in s.workflowProjects ensures Queued(s, w) {
      assert InQueueOf(s, w, s.workflowProjects[w]);
    }
  }

  lemma AllQueuedUnchanged(s: State)
    requires s.waiting.Keys == s.workflowProjects.Keys && forall w :: w in s.workflowProjects ==> Queued(s, w)
    ensures KeptWaiting(s) == s.waiting && KeptOwners(s) == s.workflowProjects
  {
    hide Queued;
    assert forall w :: w in s.waiting ==> w in s.workflowProjects.Keys;
  }

  lemma RotationUnchanged(rotation: seq<ProjectId>, keys: set<ProjectId>)
    requires NoDup(rotation) && Elems(rotation) == keys
    ensures Rotate(rotation, keys) == rotation
  {
    FirstOccurrencesAll(rotation, keys);
    assert keys - Elems(rotation) == {};
  }

  lemma {:induction false} CoherentUnchanged(s: State)
    requires Coherent(s)
    ensures Repair(s) == s
  {
    hide KeptQueues, KeptWaiting, KeptOwners, Queued, Rotate;
    CoherentQueues(s);
    AllQueuedUnchanged(s);
    RotationUnchanged(s.rotation, s.projects.Keys);
  }

  /** Repair changes nothing exactly when there is nothing to repair. */
  lemma {:induction false} RepairFixpoint(s: State)
    ensures Coherent(s) <==> Repair(s) == s
  {
    RepairCoherent(s);
    if Coherent(s) { CoherentUnchanged(s); }
  }

  lemma RotateWithout(rotation: seq<ProjectId>, keys: set<ProjectId>, gone: ProjectId)
    ensures Rotate(rotation, keys - {gone}) == Without(Rotate(rotation, keys), gone)
    ensures Rotate(Without(rotation, gone), keys - {gone}) == Rotate(rotation, keys - {gone})
  {
    FirstOccurrencesWithout(rotation, keys, gone);
    var kept := FirstOccurrences(rotation, keys);
    var without := FirstOccurrences(rotation, keys - {gone});
    assert keys - {gone} - Elems(without) == (keys - Elems(kept)) - {gone};
    AscendingWithout(keys - Elems(kept), gone);
    WithoutConcat(kept, Ascending(keys - Elems(kept)), gone);
  }

  lemma KeptAfterRemove(s: State, w: WorkflowId, p: ProjectId)
    requires w in s.workflowProjects
    ensures KeptQueue(Remove(s, w), p)
         == if p == s.workflowProjects[w] then Without(KeptQueue(s, p), w) else KeptQueue(s, p)
  {
    assert Live(Remove(s, w), p) == Live(s, p) - {w};
    if p in s.projects {
      RetainWithout(s.projects[p], Live(s, p), w);
      if p != s.workflowProjects[w] { assert Live(s, p) - {w} == Live(s, p); }
    }
  }

  lemma RemainingAfterRepairAt(s: State, w: WorkflowId, x: ProjectId)
    requires w in s.workflowProjects
    requires Queued(s, w)
    ensures x in RemainingProjects(Repair(s), w) <==> KeptQueue(Remove(s, w), x) != []
    ensures x in RemainingProjects(Repair(s), w)
        ==> RemainingProjects(Repair(s), w)[x] == KeptQueue(Remove(s, w), x)
  {
    hide Live, Rotate, KeptWaiting;
    KeptAfterRemove(s, w, x);
    assert x in KeptQueues(s) <==> KeptQueue(s, x) != [];
  }

  lemma KeptUnchanged(s: State, w: WorkflowId)
    requires w in s.workflowProjects && !Queued(s, w)
    ensures KeptQueues(Remove(s, w)) == KeptQueues(s)
  {
    forall x ensures KeptQueue(Remove(s, w), x) == KeptQueue(s, x) {
      KeptAfterRemove(s, w, x);
      if x == s.workflowProjects[w] { WithoutAbsent(KeptQueue(s, x), w); }
    }
    SameKept(Remove(s, w), s);
  }

  lemma SameKept(a: State, b: State)
    requires forall x :: KeptQueue(a, x) == KeptQueue(b, x)
    ensures KeptQueues(a) == KeptQueues(b)
  {
    hide Live, Retain;
    assert forall x :: x in KeptQueues(a) <==> KeptQueue(a, x) != [];
    assert forall x :: x in KeptQueues(b) <==> KeptQueue(b, x) != [];
  }

  /** What `Remove` leaves of repaired queues is what repair keeps of the remaining queues. */
  lemma RemainingAfterRepair(s: State, w: WorkflowId)
    requires w in s.workflowProjects
    ensures RemainingProjects(Repair(s), w) == KeptQueues(Remove(s, w))
  {
    if Queued(s, w) {
      var left, right := RemainingProjects(Repair(s), w), KeptQueues(Remove(s, w));
      forall x ensures (x in left <==> x in right) && (x in left ==> left[x] == right[x]) {
        RemainingAfterRepairAt(s, w, x);
        assert x in right <==> KeptQueue(Remove(s, w), x) != [];
      }
    } else {
      KeptUnchanged(s, w);
    }
  }

  lemma OwnersWithout(t: State, s: State, w: WorkflowId)
    requires t.waiting == s.waiting - {w} && t.workflowProjects == s.workflowProjects - {w}
    requires forall x :: x != w ==> (Queued(t, x) <==> Queued(s, x))
    ensures KeptWaiting(t) == KeptWaiting(s) - {w} && KeptOwners(t) == KeptOwners(s) - {w}
  {
    hide Queued, KeptQueue;
  }

  lemma {:induction false} OwnersCommute(s: State, w: WorkflowId)
    requires w in s.workflowProjects
    ensures KeptWaiting(Remove(s, w)) == KeptWaiting(s) - {w}
    ensures KeptOwners(Remove(s, w)) == KeptOwners(s) - {w}
  {
    hide KeptWaiting, KeptOwners, KeptQueue;
    forall x | x != w ensures Queued(Remove(s, w), x) <==> Queued(s, x) {
      if x in s.workflowProjects { KeptAfterRemove(s, w, s.workflowProjects[x]); }
    }
    OwnersWithout(Remove(s, w), s, w);
  }

  lemma UnqueuedNotWaiting(s: State, w: WorkflowId)
    ensures w in KeptOwners(s) <==> Queued(s, w)
    ensures w in KeptWaiting(s) <==> Queued(s, w)
  {
    if Queued(s, w) { assert w in Live(s, s.workflowProjects[w]); }
  }

  lemma KeptKeyAfterRemove(s: State, w: WorkflowId, x: ProjectId)
    requires w in s.workflowProjects
    ensures x in KeptQueues(Remove(s, w)).Keys
       <==> x in KeptQueues(s).Keys && (x == s.workflowProjects[w] ==> Without(KeptQueue(s, x), w) != [])
  {
    hide Live;
    KeptAfterRemove(s, w, x);
  }

  lemma KeysAfterRemove(s: State, w: WorkflowId, p: ProjectId)
    requires w in s.workflowProjects && p == s.workflowProjects[w]
    ensures KeptQueues(Remove(s, w)).Keys
         == if p in KeptQueues(Remove(s, w)) then KeptQueues(s).Keys else KeptQueues(s).Keys - {p}
  {
    hide KeptQueues, KeptQueue, Remove;
    forall x ensures x in KeptQueues(Remove(s, w)).Keys
                <==> x in KeptQueues(s).Keys && (x == p ==> Without(KeptQueue(s, p), w) != []) {
      KeptKeyAfterRemove(s, w, x);
    }
  }

  lemma {:induction false} RotationOfRepaired(s: State, w: WorkflowId, p: ProjectId)
    requires w in s.workflowProjects && p == s.workflowProjects[w]
    ensures p !in KeptQueues(Remove(s, w)) ==>
              RemainingRotation(Repair(s), w) == Without(Rotate(s.rotation, KeptQueues(s).Keys), p)
    ensures p in KeptQueues(Remove(s, w)) ==>
              RemainingRotation(Repair(s), w) == Rotate(s.rotation, KeptQueues(s).Keys)
  {
    hide Live;
    var keys := KeptQueues(s).Keys;
    KeptAfterRemove(s, w, p);
    UnqueuedNotWaiting(s, w);
    RotateIsListing(s.rotation, keys);
    if !Queued(s, w) { WithoutAbsent(KeptQueue(s, p), w); }
    if p !in keys { WithoutAbsent(Rotate(s.rotation, keys), p); }
  }

  lemma RotationCommutes(s: State, w: WorkflowId)
    requires w in s.workflowProjects
    ensures Rotate(RemainingRotation(s, w), KeptQueues(Remove(s, w)).Keys) == RemainingRotation(Repair(s), w)
  {
    hide Rotate, KeptQueues, Repair;
    var p := s.workflowProjects[w];
    KeysAfterRemove(s, w, p);
    RotationOfRepaired(s, w, p);
    RotateWithout(s.rotation, KeptQueues(s).Keys, p);
    if RemainingRotation(s, w) != s.rotation { EmptiedProject(s, w); }
  }

  lemma EmptiedProject(s: State, w: WorkflowId)
    requires OwnedAndQueued(s, w) && RemainingQueue(s, w) == []
    ensures s.workflowProjects[w] !in KeptQueues(Remove(s, w))
  {}

  /** Removing a workflow and repairing commute, whatever the state. */
  lemma RepairRemoveCommute(s: State, w: WorkflowId)
    ensures Repair(Remove(s, w)) == Remove(Repair(s), w)
  {
    if w in s.workflowProjects {
      UnqueuedNotWaiting(s, w);
      RemainingAfterRepair(s, w);
      OwnersCommute(s, w);
      RotationCommutes(s, w);
      RemovedOwner(s, w);
    } else {
      assert Remove(s, w) == s.(active := s.active - {w});
      RepairIgnoresActive(s, s.active - {w});
      assert KeptOwners(s) - {w} == KeptOwners(s);
    }
  }

  lemma RemovedOwner(s: State, w: WorkflowId)
    ensures !Queued(s, w) ==> KeptWaiting(s) - {w} == KeptWaiting(s)
  {
    UnqueuedNotWaiting(s, w);
  }

  lemma RepairIgnoresActive(s: State, active: map<WorkflowId, u64>)
    ensures Repair(s.(active := active)) == Repair(s).(active := active)
  {
    var t := s.(active := active);
    forall p ensures KeptQueue(t, p) == KeptQueue(s, p) {
      assert Live(t, p) == Live(s, p);
    }
    assert KeptQueues(t) == KeptQueues(s);
    assert forall w :: Queued(t, w) <==> Queued(s, w);
    assert KeptWaiting(t) == KeptWaiting(s);
    assert KeptOwners(t) == KeptOwners(s);
  }
}
