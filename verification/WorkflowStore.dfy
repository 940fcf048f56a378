/** The store's transactions as a program: each stages its writes and commits them together, or leaves every table
    as it was. crates/workflow-store/src/workflows.rs and crates/workflow-store/src/candidates.rs. */
module WorkflowStore {
  import opened Sequences
  import opened Bytes
  import opened Certification
  import CoreWorkflow
  import opened StoreModel

  datatype StoreMode = ReadWrite | ReadOnlyMode

  class Store {
    const mode: StoreMode
    var workflows: map<WorkflowId, CoreWorkflow.Record>
    var log: seq<LogRow>
    var dedup: map<Key, DedupRow>
    var candidates: set<CandidateId>
    var reservations: map<CandidateId, Reservation>

    constructor (mode: StoreMode)
      ensures this.mode == mode && Now() == EMPTY
    {
      this.mode := mode;
      workflows, log, dedup, candidates, reservations := map[], [], map[], {}, map[];
    }

    ghost function Now(): Database
      reads this
    {
      Database(workflows, log, dedup, candidates, reservations)
    }

    /** A read-only store refuses and changes nothing; otherwise the transaction is the one of the model. */
    ghost predicate Does<T>(before: Database, reply: Reply<T>, refusal: StoreError, r: Result<T, StoreError>)
      reads this
    {
      if mode == ReadWrite then r == reply.result && Now() == reply.db else r == Err(refusal) && Now() == before
    }

    method WorkflowDeliveryReserved(id: WorkflowId) returns (reserved: bool)
      ensures reserved <==> IsReserved(Now(), id)
    {
      reserved := exists c :: c in reservations && reservations[c].workflow == id;
    }

    /** Stage the row, the events and the result of an accepted command. */
    method AppendEvents(id: WorkflowId, events: seq<CoreWorkflow.Event>) returns (staged: seq<LogRow>)
      ensures staged == log + Logged(id, events)
    {
      staged := log;
      for i := 0 to |events|
        invariant staged == log + Logged(id, events[..i])
      {
        assert Logged(id, events[..i + 1]) == Logged(id, events[..i]) + [WorkflowEvent(id, events[i])];
        staged := staged + [WorkflowEvent(id, events[i])];
      }
      assert events[..|events|] == events;
    }

    /** Run the machine on a copy of the stored workflow. */
    method ApplyTo(r: CoreWorkflow.Record, c: CoreWorkflow.Command)
      returns (done: Result<CoreWorkflow.Accepted, CoreWorkflow.TransitionError>)
      ensures done == CoreWorkflow.Step(r, c)
    {
      var workflow := new CoreWorkflow.Workflow(1);
      workflow.state, workflow.mode := r.state, r.mode;
      workflow.candidate, workflow.repairTarget := r.candidate, r.repairTarget;
      workflow.repairCycles, workflow.maxRepairCycles := r.repairCycles, r.maxRepairCycles;
      workflow.pausedFrom, workflow.infrastructureBlockedFrom := r.pausedFrom, r.infrastructureBlockedFrom;
      assert workflow.Now() == r;
      var events := workflow.Apply(c);
      match events
      case Err(error) => return Err(error);
      case Ok(events) =>
        var record := CoreWorkflow.Record(workflow.state, workflow.mode, workflow.candidate, workflow.repairTarget,
          workflow.repairCycles, workflow.maxRepairCycles, workflow.pausedFrom, workflow.infrastructureBlockedFrom);
        return Ok(CoreWorkflow.Accepted(record, events));
    }

    method ApplyWorkflowCommand(id: WorkflowId, key: Key, c: CoreWorkflow.Command)
      returns (r: Result<ApplyResult, StoreError>)
      modifies this
      ensures Does(old(Now()), ApplyCommand(old(Now()), id, key, c), ReadOnly, r)
    {
      hide CoreWorkflow.Step;
      if mode != ReadWrite { return Err(ReadOnly); }
      if |key| == 0 || |key| > 256 { return Err(InvalidIdempotencyKey); }
      var reserved := WorkflowDeliveryReserved(id);
      if reserved { return Err(DeliveryInProgress); }
      if key in dedup {
        match dedup[key] {
          case ForOther => return Err(IdempotencyConflict);
          case ForWorkflow(owner, saved) =>
            if owner != id { return Err(IdempotencyConflict); }
            return Ok(ApplyResult(true, saved.events, saved.record));
        }
      }
      var current := if id in workflows then workflows[id] else CoreWorkflow.Initial(DEFAULT_REPAIR_CYCLES);
      var done := ApplyTo(current, c);
      if done.Err? { return Err(Transition(done.error)); }
      var staged := AppendEvents(id, done.value.events);
      workflows := workflows[id := done.value.record];
      log := staged;
      dedup := dedup[key := ForWorkflow(id, Persisted(done.value.events, done.value.record))];
      return Ok(ApplyResult(false, done.value.events, done.value.record));
    }

    method DeliverReservedCandidate(
        id: WorkflowId, candidate: CandidateId, digest: ContentDigest, journal: ContentDigest, key: Key)
      returns (r: Result<ApplyResult, StoreError>)
      modifies this
      ensures Does(old(Now()), DeliverReserved(old(Now()), id, candidate, digest, journal, key), ReadOnly, r)
    {
      hide CoreWorkflow.Step;
      if mode != ReadWrite { return Err(ReadOnly); }
      if |key| == 0 || |key| > 256 { return Err(InvalidIdempotencyKey); }
      if candidate !in reservations { return Err(AggregateConflict); }
      var held := reservations[candidate];
      if held.journal.None? { return Err(Engine); }
      if held.workflow != id || held.candidateDigest != digest || held.journal.value != journal {
        return Err(AggregateConflict);
      }
      if id !in workflows { return Err(Engine); }
      var done := ApplyTo(workflows[id], CoreWorkflow.Deliver);
      if done.Err? { return Err(Transition(done.error)); }
      var staged := AppendEvents(id, done.value.events);
      if key in dedup { return Err(Engine); }
      workflows := workflows[id := done.value.record];
      log := staged;
      dedup := dedup[key := ForWorkflow(id, Persisted(done.value.events, done.value.record))];
      reservations := reservations - {candidate};
      return Ok(ApplyResult(false, done.value.events, done.value.record));
    }

    method ReserveCandidateDelivery(id: WorkflowId, candidate: CandidateId, digest: ContentDigest)
      returns (r: Result<bool, StoreError>)
      modifies this
      ensures Does(old(Now()), Reserve(old(Now()), id, candidate, digest), ReadOnly, r)
    {
      if mode != ReadWrite { return Err(ReadOnly); }
      if candidate in reservations {
        var current := reservations[candidate];
        if current.workflow == id && current.candidateDigest == digest { return Ok(true); }
        return Err(AggregateConflict);
      }
      var reserved := WorkflowDeliveryReserved(id);
      if reserved || candidate !in candidates || id !in workflows { return Err(Engine); }
      reservations := reservations[candidate := Reservation(id, digest, None)];
      return Ok(false);
    }

    method ReleaseCandidateDelivery(id: WorkflowId, candidate: CandidateId, digest: ContentDigest)
      returns (r: Result<(), StoreError>)
      modifies this
      ensures Does(old(Now()), Release(old(Now()), id, candidate, digest), ReadOnly, r)
    {
      if mode != ReadWrite { return Err(ReadOnly); }
      if
        && candidate in reservations && reservations[candidate].workflow == id
        && reservations[candidate].candidateDigest == digest
      {
        reservations := reservations - {candidate};
        return Ok(());
      }
      return Err(AggregateConflict);
    }

    /** Does not look at the mode: on a read-only connection the update itself fails. */
    method BindCandidateDeliveryJournal(
        id: WorkflowId, candidate: CandidateId, digest: ContentDigest, expected: Option<ContentDigest>,
        journal: ContentDigest)
      returns (r: Result<(), StoreError>)
      modifies this
      ensures Does(old(Now()), Bind(old(Now()), id, candidate, digest, expected, journal), Engine, r)
    {
      if mode != ReadWrite { return Err(Engine); }
      if
        && candidate in reservations && reservations[candidate].workflow == id
        && reservations[candidate].candidateDigest == digest && reservations[candidate].journal == expected
      {
        reservations := reservations[candidate := Reservation(id, digest, Some(journal))];
        return Ok(());
      }
      return Err(AggregateConflict);
    }
  }
}
