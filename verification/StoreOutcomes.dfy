/** What the answers of the workflow store mean for its tables. */
module StoreOutcomes {
  import opened Sequences
  import opened Bytes
  import opened Certification
  import opened CoreWorkflow
  import opened StoreModel
  import opened StoreRuns

  // ----- idempotency keys

  /** Recorded for a workflow, a key keeps between one and 256 bytes. */
  ghost predicate KeysSound(db: Database) {
    forall key :: key in db.dedup && db.dedup[key].ForWorkflow? ==> 1 <= |key| <= 256
  }

  lemma ExecuteKeepsKeys(db: Database, op: Operation)
    requires KeysSound(db)
    ensures KeysSound(Execute(db, op))
  {
    hide Step;
  }

  /** In every run only keys of one to 256 bytes are recorded for workflows. */
  lemma {:induction false} RecordedKeysFit(ops: seq<Operation>)
    ensures KeysSound(Run(EMPTY, ops))
  {
    hide KeysSound, Execute;
    if ops == [] {
      NoKeys();
    } else {
      RecordedKeysFit(ops[..|ops| - 1]);
      ExecuteKeepsKeys(Run(EMPTY, ops[..|ops| - 1]), ops[|ops| - 1]);
    }
  }

  lemma NoKeys()
    ensures KeysSound(EMPTY)
  {}

  /** An accepted key belongs to its workflow for good: whatever happens in between, no other workflow is changed under
      it, as a command or as a delivery. */
  lemma KeyBelongsToOne(
      db: Database, id: WorkflowId, key: Key, first: Command, between: seq<Operation>, other: WorkflowId, c: Command,
      candidate: CandidateId, digest: ContentDigest, journal: ContentDigest)
    requires ApplyCommand(db, id, key, first).result.Ok? && other != id
    ensures
      var now := Run(ApplyCommand(db, id, key, first).db, between);
      && ApplyCommand(now, other, key, c).result.Err? && ApplyCommand(now, other, key, c).db == now
      && DeliverReserved(now, other, candidate, digest, journal, key).result.Err?
      && DeliverReserved(now, other, candidate, digest, journal, key).db == now
  {
    hide Run, Step, Logged;
    var after := ApplyCommand(db, id, key, first).db;
    assert key in after.dedup && after.dedup[key].ForWorkflow? && after.dedup[key].id == id;
    KeysStay(after, between, key);
  }

  // ----- answers of a command

  /** A refusal and a repeated answer leave the database as it is; an accepted command writes the row, the events and
      the key of its workflow, and nothing else. */
  lemma CommandOutcome(db: Database, id: WorkflowId, key: Key, c: Command)
    ensures
      var reply := ApplyCommand(db, id, key, c);
      && (reply.result.Err? || reply.result.value.duplicate ==> reply.db == db)
      && (reply.result.Ok? && !reply.result.value.duplicate ==>
            && Step(Current(db, id), c) == Ok(Accepted(reply.result.value.record, reply.result.value.events))
            && Current(reply.db, id) == reply.result.value.record
            && EventsFor(id, reply.db.log) == EventsFor(id, db.log) + reply.result.value.events
            && |reply.db.log| == |db.log| + |reply.result.value.events|
            && reply.db.dedup.Keys == db.dedup.Keys + {key} && key !in db.dedup
            && (forall other :: other != id ==> Current(reply.db, other) == Current(db, other))
            && reply.db.reservations == db.reservations && reply.db.candidates == db.candidates)
  {
    hide Step, EventsFor;
    match Step(Current(db, id), c)
    case Ok(done) =>
      EventsForConcat(id, db.log, Logged(id, done.events));
      EventsForLogged(id, id, done.events);
    case Err(_) =>
  }

  /** A refused command names its cause: the key does not fit; or a delivery of the workflow is reserved; or the key was
      used for something else; or the machine refuses. */
  lemma RefusalTells(db: Database, id: WorkflowId, key: Key, c: Command)
    ensures
      var told := ApplyCommand(db, id, key, c).result;
      var fits := 1 <= |key| <= 256;
      var reserved := exists candidate :: candidate in db.reservations && db.reservations[candidate].workflow == id;
      && (told == Err(InvalidIdempotencyKey) <==> !fits)
      && (told == Err(DeliveryInProgress) <==> fits && reserved)
      && (told == Err(IdempotencyConflict) <==>
            fits && !reserved && key in db.dedup && !(db.dedup[key].ForWorkflow? && db.dedup[key].id == id))
      && (forall e :: told == Err(Transition(e)) <==>
            fits && !reserved && key !in db.dedup && Step(Current(db, id), c) == Err(e))
      && (told.Err? ==>
            told.error.InvalidIdempotencyKey? || told.error.DeliveryInProgress? || told.error.IdempotencyConflict?
            || told.error.Transition?)
  {
    hide Step;
  }

  /** While a delivery of the workflow is reserved, no command gets through. */
  lemma ReservedRefuses(db: Database, id: WorkflowId, candidate: CandidateId, key: Key, c: Command)
    requires candidate in db.reservations && db.reservations[candidate].workflow == id
    ensures ApplyCommand(db, id, key, c).result.Err? && ApplyCommand(db, id, key, c).db == db
  {
    hide Step;
  }

  // ----- reservations

  /** Does `id` hold the reservation of `candidate` under `digest`, with this journal? */
  predicate Holds(
      db: Database, id: WorkflowId, candidate: CandidateId, digest: ContentDigest, journal: Option<ContentDigest>)
  {
    candidate in db.reservations && db.reservations[candidate] == Reservation(id, digest, journal)
  }

  /** A reservation is granted exactly where workflow and candidate exist and neither is reserved, answered as there
      already exactly where it is, and otherwise refused without a change. */
  lemma ReserveOutcome(db: Database, id: WorkflowId, candidate: CandidateId, digest: ContentDigest)
    ensures
      var reply := Reserve(db, id, candidate, digest);
      && (reply.result == Ok(false) <==>
            && candidate !in db.reservations && !IsReserved(db, id) && candidate in db.candidates && id in db.workflows)
      && (reply.result == Ok(true) <==> exists journal :: Holds(db, id, candidate, digest, journal))
      && (reply.result == Ok(false) ==>
            Holds(reply.db, id, candidate, digest, None) && reply.db == db.(reservations := reply.db.reservations)
            && reply.db.reservations - {candidate} == db.reservations)
      && (reply.result != Ok(false) ==> reply.db == db)
      && (reply.result == Err(AggregateConflict) <==>
            candidate in db.reservations && forall journal :: !Holds(db, id, candidate, digest, journal))
  {
    if candidate in db.reservations {
      var held := db.reservations[candidate];
      assert Holds(db, held.workflow, candidate, held.candidateDigest, held.journal);
    } else {
      var reply := Reserve(db, id, candidate, digest);
      if reply.result == Ok(false) {
        assert reply.db.reservations - {candidate} == db.reservations;
      }
    }
  }

  /** Reserving again changes nothing, and releasing a reservation just made, with or without a journal, gives back the
      database there was. */
  lemma ReserveAndRelease(
      db: Database, id: WorkflowId, candidate: CandidateId, digest: ContentDigest, journal: ContentDigest)
    requires Reserve(db, id, candidate, digest).result == Ok(false)
    ensures
      var held := Reserve(db, id, candidate, digest).db;
      var bound := Bind(held, id, candidate, digest, None, journal);
      && Reserve(held, id, candidate, digest) == Reply(Ok(true), held)
      && Release(held, id, candidate, digest) == Reply(Ok(()), db)
      && bound.result == Ok(()) && Release(bound.db, id, candidate, digest) == Reply(Ok(()), db)
  {
    var held := Reserve(db, id, candidate, digest).db;
    assert held.reservations - {candidate} == db.reservations;
    var bound := Bind(held, id, candidate, digest, None, journal).db;
    assert bound.reservations - {candidate} == db.reservations;
  }

  /** A release succeeds exactly for the holder under its digest; others keep what they hold. */
  lemma ReleaseOutcome(db: Database, id: WorkflowId, candidate: CandidateId, digest: ContentDigest)
    ensures
      var reply := Release(db, id, candidate, digest);
      && (reply.result == Ok(()) <==> exists journal :: Holds(db, id, candidate, digest, journal))
      && (reply.result == Ok(()) || reply.result == Err(AggregateConflict))
      && (reply.result == Ok(()) ==> candidate !in reply.db.reservations)
      && (reply.result != Ok(()) ==> reply.db == db)
      && forall other :: other != candidate ==>
           && (other in reply.db.reservations <==> other in db.reservations)
           && (other in db.reservations ==> reply.db.reservations[other] == db.reservations[other])
  {
    if Matches(db, id, candidate, digest) {
      assert Holds(db, id, candidate, digest, db.reservations[candidate].journal);
    }
  }

  /** Binding succeeds exactly for the holder that names the journal there is, and of two that name the same one only
      the first gets through. */
  lemma BindOutcome(
      db: Database, id: WorkflowId, candidate: CandidateId, digest: ContentDigest, expected: Option<ContentDigest>,
      journal: ContentDigest, late: ContentDigest)
    ensures
      var reply := Bind(db, id, candidate, digest, expected, journal);
      && (reply.result == Ok(()) <==> Holds(db, id, candidate, digest, expected))
      && (reply.result == Ok(()) ==> Holds(reply.db, id, candidate, digest, Some(journal)))
      && (reply.result != Ok(()) ==> reply == Reply(Err(AggregateConflict), db))
      && (reply.result == Ok(()) && expected != Some(journal) ==>
            Bind(reply.db, id, candidate, digest, expected, late) == Reply(Err(AggregateConflict), reply.db))
  {}

  /** A reserved delivery gets through exactly for the holder of the bound reservation in the state of delivery, under
      a fresh valid key; then the workflow is completed and the reservation gone. */
  lemma DeliveryOutcome(
      db: Database, id: WorkflowId, candidate: CandidateId, digest: ContentDigest, journal: ContentDigest, key: Key)
    ensures
      var reply := DeliverReserved(db, id, candidate, digest, journal, key);
      && (reply.result.Err? ==> reply.db == db)
      && (reply.result.Ok? <==>
            && Holds(db, id, candidate, digest, Some(journal)) && 1 <= |key| <= 256 && key !in db.dedup
            && id in db.workflows && Step(db.workflows[id], Deliver).Ok?)
      && (reply.result.Ok? ==>
            && Current(reply.db, id).state == Completed && candidate !in reply.db.reservations
            && Current(reply.db, id) == reply.result.value.record
            && EventsFor(id, reply.db.log) == EventsFor(id, db.log) + [StateChanged(Delivery, Completed)]
            && (forall other :: other != id ==> Current(reply.db, other) == Current(db, other))
            && (forall c :: c != candidate && c in db.reservations ==>
                  c in reply.db.reservations && reply.db.reservations[c] == db.reservations[c]))
  {
    hide EventsFor;
    match Step(Current(db, id), Deliver)
    case Ok(done) =>
      EventsForConcat(id, db.log, Logged(id, done.events));
      EventsForLogged(id, id, done.events);
    case Err(_) =>
  }

  /** A refused delivery names its cause: the key does not fit; or the caller does not hold the reservation under this
      digest with this journal; or the machine refuses. A reservation without a journal, a missing row and a key used
      before are errors of the database. */
  lemma DeliveryRefusalTells(
      db: Database, id: WorkflowId, candidate: CandidateId, digest: ContentDigest, journal: ContentDigest, key: Key)
    ensures
      var told := DeliverReserved(db, id, candidate, digest, journal, key).result;
      var fits := 1 <= |key| <= 256;
      var unbound := candidate in db.reservations && db.reservations[candidate].journal == None;
      var held := Holds(db, id, candidate, digest, Some(journal));
      && (told == Err(InvalidIdempotencyKey) <==> !fits)
      && (told == Err(AggregateConflict) <==> fits && !unbound && !held)
      && (forall e :: told == Err(Transition(e)) <==>
            fits && held && id in db.workflows && Step(db.workflows[id], Deliver) == Err(e))
      && (told == Err(Engine) <==>
            && fits
            && (unbound || (held && (id !in db.workflows || (Step(db.workflows[id], Deliver).Ok? && key in db.dedup)))))
  {
    hide Step;
  }

  /** A workflow that the store has not seen stands at intake with five repair cycles and nothing else. */
  lemma UnseenWorkflow(db: Database, id: WorkflowId)
    requires id !in db.workflows
    ensures Current(db, id) == Record(Intake, None, None, None, 0, 5, None, None)
  {}
}
