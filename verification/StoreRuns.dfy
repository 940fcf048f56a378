/** What every sequence of transactions keeps in the workflow store. */
module StoreRuns {
  import opened Sequences
  import opened Bytes
  import opened Certification
  import opened CoreWorkflow
  import opened CoreWorkflowRuns
  import opened StoreModel

  // ----- the log rebuilds the state

  /** One workflow row and its part of the log agree. */
  ghost predicate Rebuilds(db: Database, id: WorkflowId) {
    && Sound(Current(db, id))
    && ReadAll(ViewOf(Initial(DEFAULT_REPAIR_CYCLES)), EventsFor(id, db.log)) == ViewOf(Current(db, id))
    && IsLinked(EventsFor(id, db.log), Intake, Current(db, id).state)
  }

  lemma {:induction false} WrittenRebuilds(db: Database, owner: WorkflowId, key: Key, c: Command, id: WorkflowId)
    requires Rebuilds(db, id) && Step(Current(db, owner), c).Ok?
    ensures Rebuilds(Written(db, owner, key, Step(Current(db, owner), c).value), id)
  {
    hide Step, Sound, ReadAll, IsLinked, EventsFor, ViewOf;
    var r := Current(db, owner);
    var done := Step(r, c).value;
    EventsForConcat(id, db.log, Logged(owner, done.events));
    EventsForLogged(id, owner, done.events);
    if id == owner {
      StepSound(r, c);
      StepIsRead(r, c);
      StepIsLinked(r, c);
      ReadConcat(ViewOf(Initial(DEFAULT_REPAIR_CYCLES)), EventsFor(id, db.log), done.events);
      LinkedConcat(EventsFor(id, db.log), done.events, Intake, r.state, done.record.state);
    } else {
      assert EventsFor(id, db.log) + [] == EventsFor(id, db.log);
    }
  }

  lemma SameRowsRebuild(db: Database, next: Database, id: WorkflowId)
    requires Rebuilds(db, id) && next.workflows == db.workflows && next.log == db.log
    ensures Rebuilds(next, id)
  {
    hide Sound, ReadAll, IsLinked, EventsFor, ViewOf;
  }

  lemma {:induction false} ExecuteRebuilds(db: Database, op: Operation, id: WorkflowId)
    requires Rebuilds(db, id)
    ensures Rebuilds(Execute(db, op), id)
  {
    hide Step, Rebuilds, EventsFor, Written;
    var next := Execute(db, op);
    match op
    case Apply(owner, key, c) =>
      if next != db { WrittenRebuilds(db, owner, key, c, id); }
    case DeliverCandidate(owner, _, _, _, key) =>
      if next != db {
        WrittenRebuilds(db, owner, key, Deliver, id);
        SameRowsRebuild(Written(db, owner, key, Step(Current(db, owner), Deliver).value), next, id);
      }
    case OtherCommand(_) => OtherRebuilds(db, next, id);
    case _ => SameRowsRebuild(db, next, id);
  }

  lemma OtherRebuilds(db: Database, next: Database, id: WorkflowId)
    requires Rebuilds(db, id) && next.workflows == db.workflows
    requires next.log == db.log || next.log == db.log + [OtherEvent]
    ensures Rebuilds(next, id)
  {
    hide Sound, ReadAll, IsLinked, ViewOf;
    if next.log != db.log {
      assert (db.log + [OtherEvent])[..|db.log + [OtherEvent]| - 1] == db.log;
    }
  }

  /** In every run, folding a workflow's events gives back its state, mode, candidate, repair cycles and budget,
      and its state changes link end to start. */
  lemma {:induction false} LogRebuildsState(ops: seq<Operation>, id: WorkflowId)
    ensures Rebuilds(Run(EMPTY, ops), id)
    decreases |ops|
  {
    hide Rebuilds, Execute;
    if ops == [] {
      EmptyRebuilds(id);
    } else {
      LogRebuildsState(ops[..|ops| - 1], id);
      ExecuteRebuilds(Run(EMPTY, ops[..|ops| - 1]), ops[|ops| - 1], id);
    }
  }

  lemma EmptyRebuilds(id: WorkflowId)
    ensures Rebuilds(EMPTY, id)
  {
    InitialSound(DEFAULT_REPAIR_CYCLES);
  }

  // ----- idempotency keys

  predicate UsesKey(op: Operation, key: Key) {
    match op
    case Apply(_, k, _) => k == key
    case DeliverCandidate(_, _, _, _, k) => k == key
    case OtherCommand(k) => k == key
    case _ => false
  }

  predicate SameState(a: Database, b: Database) {
    a.workflows == b.workflows && a.log == b.log
  }

  lemma {:induction false} KeysStay(db: Database, ops: seq<Operation>, key: Key)
    requires key in db.dedup
    ensures key in Run(db, ops).dedup && Run(db, ops).dedup[key] == db.dedup[key]
    decreases |ops|
  {
    hide Step, Initial;
    if ops != [] { KeysStay(db, ops[..|ops| - 1], key); }
  }

  /** A step that changes a workflow or the log uses a key that was new and is recorded with it. */
  lemma ChangeConsumesKey(db: Database, op: Operation, key: Key)
    requires UsesKey(op, key) && !SameState(Execute(db, op), db)
    ensures key !in db.dedup && key in Execute(db, op).dedup
  {
    hide Step;
  }

  lemma {:induction false} RunFrom(db: Database, ops: seq<Operation>, n: nat)
    requires n <= |ops|
    ensures Run(db, ops) == Run(Run(db, ops[..n]), ops[n..])
    decreases |ops|
  {
    hide Execute;
    if n == |ops| {
      assert ops[..n] == ops && ops[n..] == [];
    } else {
      var m := |ops| - 1;
      assert
        && ops[..m][..n] == ops[..n] && ops[..m][n..] == ops[n..][..|ops[n..]| - 1]
        && ops[n..][|ops[n..]| - 1] == ops[m];
      RunFrom(db, ops[..m], n);
    }
  }

  ghost predicate Changes(ops: seq<Operation>, i: nat)
    requires i < |ops|
  {
    !SameState(Run(EMPTY, ops[..i + 1]), Run(EMPTY, ops[..i]))
  }

  /** Each key changes state at most once. */
  lemma KeyChangesOnce(ops: seq<Operation>, i: nat, j: nat, key: Key)
    requires i < j < |ops| && UsesKey(ops[i], key) && UsesKey(ops[j], key) && Changes(ops, i)
    ensures !Changes(ops, j)
  {
    hide Execute;
    assert ops[..i + 1][..i] == ops[..i] && ops[..j + 1][..j] == ops[..j] && ops[..j][..i + 1] == ops[..i + 1];
    ChangeConsumesKey(Run(EMPTY, ops[..i]), ops[i], key);
    RunFrom(EMPTY, ops[..j], i + 1);
    KeysStay(Run(EMPTY, ops[..i + 1]), ops[..j][i + 1..], key);
    if Changes(ops, j) { ChangeConsumesKey(Run(EMPTY, ops[..j]), ops[j], key); }
  }

  /** However much happens in between, sending an accepted command's key again while no delivery is reserved
      returns the recorded events and state, and changes nothing. */
  lemma ReplayReturnsRecorded(
      db: Database, id: WorkflowId, key: Key, first: Command, between: seq<Operation>, again: Command)
    requires ApplyCommand(db, id, key, first).result.Ok?
    requires !IsReserved(Run(ApplyCommand(db, id, key, first).db, between), id)
    ensures
      var now := Run(ApplyCommand(db, id, key, first).db, between);
      var told := ApplyCommand(db, id, key, first).result.value;
      ApplyCommand(now, id, key, again) == Reply(Ok(ApplyResult(true, told.events, told.record)), now)
  {
    hide Step, IsReserved;
    KeysStay(ApplyCommand(db, id, key, first).db, between, key);
  }

  /** The same for a delivered candidate. */
  lemma DeliveryReplayReturnsRecorded(
      db: Database, id: WorkflowId, candidate: CandidateId, digest: ContentDigest, journal: ContentDigest, key: Key,
      between: seq<Operation>, again: Command)
    requires DeliverReserved(db, id, candidate, digest, journal, key).result.Ok?
    requires !IsReserved(Run(DeliverReserved(db, id, candidate, digest, journal, key).db, between), id)
    ensures
      var now := Run(DeliverReserved(db, id, candidate, digest, journal, key).db, between);
      var told := DeliverReserved(db, id, candidate, digest, journal, key).result.value;
      ApplyCommand(now, id, key, again) == Reply(Ok(ApplyResult(true, told.events, told.record)), now)
  {
    hide Step, IsReserved;
    KeysStay(DeliverReserved(db, id, candidate, digest, journal, key).db, between, key);
  }

  // ----- reservations

  /** Reservations name existing rows, and no workflow has two. */
  ghost predicate ReservationsSound(db: Database) {
    && (forall c :: c in db.reservations ==> c in db.candidates && db.reservations[c].workflow in db.workflows)
    && forall c, d ::
         && c in db.reservations && d in db.reservations
         && db.reservations[c].workflow == db.reservations[d].workflow ==>
           c == d
  }

  lemma ExecuteKeepsReservations(db: Database, op: Operation)
    requires ReservationsSound(db)
    ensures ReservationsSound(Execute(db, op))
  {
    hide Step, Initial;
  }

  lemma {:induction false} ReservationsAlwaysSound(ops: seq<Operation>)
    ensures ReservationsSound(Run(EMPTY, ops))
    decreases |ops|
  {
    hide Execute, ReservationsSound;
    if ops == [] {
      NoReservations();
    } else {
      ReservationsAlwaysSound(ops[..|ops| - 1]);
      ExecuteKeepsReservations(Run(EMPTY, ops[..|ops| - 1]), ops[|ops| - 1]);
    }
  }

  lemma NoReservations()
    ensures ReservationsSound(EMPTY)
  {}

  /** A workflow's row or its part of the log is different. */
  ghost predicate Touches(before: Database, after: Database, id: WorkflowId) {
    || Current(after, id) != Current(before, id) || (id in after.workflows) != (id in before.workflows)
    || EventsFor(id, after.log) != EventsFor(id, before.log)
  }

  lemma WrittenElsewhere(db: Database, owner: WorkflowId, key: Key, done: Accepted, id: WorkflowId)
    requires id != owner
    ensures !Touches(db, Written(db, owner, key, done), id)
  {
    hide EventsFor;
    EventsForConcat(id, db.log, Logged(owner, done.events));
    EventsForLogged(id, owner, done.events);
    assert EventsFor(id, db.log) + [] == EventsFor(id, db.log);
  }

  lemma DeliverStep(r: Record)
    requires Step(r, Deliver).Ok?
    ensures r.state == Delivery && Step(r, Deliver).value.record.state == Completed
  {}

  /** `op` delivers exactly what `candidate` reserves for `id`, under the journal bound last. */
  predicate DeliversReservation(db: Database, op: Operation, id: WorkflowId, candidate: CandidateId) {
    && op.DeliverCandidate? && op.id == id && op.candidate == candidate && candidate in db.reservations
    && db.reservations[candidate] == Reservation(id, op.digest, Some(op.journal))
  }

  /** While a delivery is reserved, the only step that touches the workflow is the one that delivers exactly the
      reserved candidate under the bound journal; it completes the workflow and consumes that reservation alone. */
  lemma OnlyTheReservedDelivery(db: Database, op: Operation, id: WorkflowId, candidate: CandidateId)
    requires ReservationsSound(db) && candidate in db.reservations && db.reservations[candidate].workflow == id
    requires Touches(db, Execute(db, op), id)
    ensures DeliversReservation(db, op, id, candidate)
    ensures Execute(db, op).reservations == db.reservations - {candidate}
    ensures db.workflows[id].state == Delivery && Execute(db, op).workflows[id].state == Completed
  {
    hide Step, EventsFor, Written, Logged;
    var next := Execute(db, op);
    match op
    case Apply(owner, key, c) =>
      if owner != id && next != db {
        WrittenElsewhere(db, owner, key, Step(Current(db, owner), c).value, id);
        assert false;
      }
    case DeliverCandidate(owner, c, digest, journal, key) =>
      if next != db {
        var done := Step(db.workflows[owner], Deliver).value;
        if owner != id {
          WrittenElsewhere(db, owner, key, done, id);
          SameTouch(db, Written(db, owner, key, done), next, id);
          assert false;
        }
        DeliverStep(db.workflows[owner]);
        WrittenRow(db, owner, key, done);
      }
    case OtherCommand(_) => OtherTouchesNothing(db, next, id);
    case _ =>
  }

  lemma WrittenRow(db: Database, owner: WorkflowId, key: Key, done: Accepted)
    ensures
      && owner in Written(db, owner, key, done).workflows
      && Written(db, owner, key, done).workflows[owner] == done.record
    ensures Written(db, owner, key, done).reservations == db.reservations
  {}

  lemma SameTouch(before: Database, a: Database, b: Database, id: WorkflowId)
    requires !Touches(before, a, id) && b.workflows == a.workflows && b.log == a.log
    ensures !Touches(before, b, id)
  {}

  lemma OtherTouchesNothing(db: Database, next: Database, id: WorkflowId)
    requires next.workflows == db.workflows && (next.log == db.log || next.log == db.log + [OtherEvent])
    ensures !Touches(db, next, id)
  {
    if next.log != db.log {
      assert (db.log + [OtherEvent])[..|db.log + [OtherEvent]| - 1] == db.log;
    }
  }

  /** A reservation that stays keeps its workflow and digest, and its journal changes only by a compare-and-set
      that names the journal it had. */
  lemma JournalsAdvanceByCompareAndSet(db: Database, op: Operation, candidate: CandidateId)
    requires candidate in db.reservations && candidate in Execute(db, op).reservations
    ensures
      var before, after := db.reservations[candidate], Execute(db, op).reservations[candidate];
      after != before ==>
        && op == BindJournal(before.workflow, candidate, before.candidateDigest, before.journal, op.journal)
        && after == before.(journal := Some(op.journal))
  {
    hide Step;
  }

  /** Reservations come and go one at a time: a step adds or removes at most the one it names. */
  lemma ReservationsChangeByName(db: Database, op: Operation, candidate: CandidateId)
    requires (candidate in db.reservations) != (candidate in Execute(db, op).reservations)
    ensures
      match op
      case ReserveDelivery(_, c, _) => c == candidate
      case ReleaseDelivery(id, c, digest) => c == candidate && Matches(db, id, c, digest)
      case DeliverCandidate(_, c, _, _, _) => c == candidate
      case _ => false
  {
    hide Step;
  }

  // ----- over whole runs

  /** In every run: as long as the reservation of a workflow is held, its state and log stand still. */
  lemma {:induction false} ReservedStandsStill(
      before: seq<Operation>, during: seq<Operation>, id: WorkflowId, candidate: CandidateId)
    requires forall n :: 0 <= n <= |during| ==> HoldsReservation(Run(EMPTY, before + during[..n]), id, candidate)
    ensures !Touches(Run(EMPTY, before), Run(EMPTY, before + during), id)
    decreases |during|
  {
    hide Execute, EventsFor, ReservationsSound, HoldsReservation;
    if during == [] {
      assert before + during == before;
    } else {
      var n := |during| - 1;
      var ops := before + during[..n];
      forall m | 0 <= m <= n ensures HoldsReservation(Run(EMPTY, before + during[..n][..m]), id, candidate) {
        assert during[..n][..m] == during[..m];
      }
      ReservedStandsStill(before, during[..n], id, candidate);
      assert (before + during)[..|before + during| - 1] == ops;
      assert during[..|during|] == during;
      ReservationsAlwaysSound(ops);
      StepStandsStill(Run(EMPTY, ops), during[n], id, candidate);
    }
  }

  ghost predicate HoldsReservation(db: Database, id: WorkflowId, candidate: CandidateId) {
    candidate in db.reservations && db.reservations[candidate].workflow == id
  }

  lemma StepStandsStill(db: Database, op: Operation, id: WorkflowId, candidate: CandidateId)
    requires
      ReservationsSound(db) && HoldsReservation(db, id, candidate) && HoldsReservation(Execute(db, op), id, candidate)
    ensures !Touches(db, Execute(db, op), id)
  {
    hide Execute, EventsFor, ReservationsSound;
    if Touches(db, Execute(db, op), id) { OnlyTheReservedDelivery(db, op, id, candidate); }
  }

  // ----- which candidate is delivered

  /** The stored record is that of a run of the machine. */
  ghost predicate IsDriven(db: Database, id: WorkflowId) {
    exists commands :: Drive(Initial(DEFAULT_REPAIR_CYCLES), commands).record == Current(db, id)
  }

  lemma DriveOneMore(start: Record, commands: seq<Command>, c: Command)
    requires Step(Drive(start, commands).record, c).Ok?
    ensures Drive(start, commands + [c]).record == Step(Drive(start, commands).record, c).value.record
  {
    hide Step;
    assert (commands + [c])[..|commands + [c]| - 1] == commands;
  }

  lemma WrittenIsDriven(db: Database, owner: WorkflowId, key: Key, c: Command, id: WorkflowId)
    requires IsDriven(db, id) && Step(Current(db, owner), c).Ok?
    ensures IsDriven(Written(db, owner, key, Step(Current(db, owner), c).value), id)
  {
    hide Step, Drive, Logged;
    var commands :| Drive(Initial(DEFAULT_REPAIR_CYCLES), commands).record == Current(db, id);
    var next := Written(db, owner, key, Step(Current(db, owner), c).value);
    if id == owner {
      DriveOneMore(Initial(DEFAULT_REPAIR_CYCLES), commands, c);
      assert Drive(Initial(DEFAULT_REPAIR_CYCLES), commands + [c]).record == Current(next, id);
    } else {
      assert Drive(Initial(DEFAULT_REPAIR_CYCLES), commands).record == Current(next, id);
    }
  }

  lemma {:induction false} StoredIsDriven(ops: seq<Operation>, id: WorkflowId)
    ensures IsDriven(Run(EMPTY, ops), id)
    decreases |ops|
  {
    hide Step, IsDriven, Written;
    if ops == [] {
      EmptyIsDriven(id);
    } else {
      var n := |ops| - 1;
      var db := Run(EMPTY, ops[..n]);
      StoredIsDriven(ops[..n], id);
      var next := Execute(db, ops[n]);
      match ops[n]
      case Apply(owner, key, c) => if next != db { WrittenIsDriven(db, owner, key, c, id); }
      case DeliverCandidate(owner, _, _, _, key) =>
        if next != db {
          WrittenIsDriven(db, owner, key, Deliver, id);
          SameRowsDriven(Written(db, owner, key, Step(Current(db, owner), Deliver).value), next, id);
        }
      case _ => SameRowsDriven(db, next, id);
    }
  }

  lemma EmptyIsDriven(id: WorkflowId)
    ensures IsDriven(EMPTY, id)
  {
    assert Drive(Initial(DEFAULT_REPAIR_CYCLES), []).record == Current(EMPTY, id);
  }

  lemma SameRowsDriven(db: Database, next: Database, id: WorkflowId)
    requires IsDriven(db, id) && next.workflows == db.workflows
    ensures IsDriven(next, id)
  {
    hide Drive;
    var commands :| Drive(Initial(DEFAULT_REPAIR_CYCLES), commands).record == Current(db, id);
    assert Drive(Initial(DEFAULT_REPAIR_CYCLES), commands).record == Current(next, id);
  }

  /** A run of the machine that completed with `c`, certified in the required order. */
  ghost predicate IsCertified(r: Record, c: CandidateId) {
    && r.state == Completed && r.candidate == Some(c) && r.mode.Some?
    && exists accepted, s, v, a, d :: DeliveredInOrder(accepted, c, r.mode.value, s, v, a, d)
  }

  lemma CompletedIsCertified(ops: seq<Operation>, id: WorkflowId)
    requires Current(Run(EMPTY, ops), id).state == Completed
    ensures Current(Run(EMPTY, ops), id).candidate.Some?
    ensures IsCertified(Current(Run(EMPTY, ops), id), Current(Run(EMPTY, ops), id).candidate.value)
  {
    hide Drive, Run, DeliveredInOrder;
    StoredIsDriven(ops, id);
    var commands :| Drive(Initial(DEFAULT_REPAIR_CYCLES), commands).record == Current(Run(EMPTY, ops), id);
    CompletedMeansCertified(DEFAULT_REPAIR_CYCLES, commands);
  }

  lemma DeliverKeepsCandidate(
    db: Database, id: WorkflowId, candidate: CandidateId, digest: ContentDigest, journal: ContentDigest, key: Key)
    requires DeliverReserved(db, id, candidate, digest, journal, key).result.Ok?
    ensures
      var reply := DeliverReserved(db, id, candidate, digest, journal, key);
      && Current(reply.db, id) == reply.result.value.record && reply.result.value.record.state == Completed
      && reply.result.value.record.candidate == Current(db, id).candidate
  {}

  /** In every run: a consumed reservation names the certified candidate exactly when it named the workflow's current
      candidate at any moment since it was made. The store itself never compares them. */
  lemma ReservedIsCertifiedIff(
    before: seq<Operation>, during: seq<Operation>, id: WorkflowId, candidate: CandidateId,
    digest: ContentDigest, journal: ContentDigest, key: Key)
    requires forall n :: 0 <= n <= |during| ==> HoldsReservation(Run(EMPTY, before + during[..n]), id, candidate)
    requires DeliverReserved(Run(EMPTY, before + during), id, candidate, digest, journal, key).result.Ok?
    ensures
      var told := DeliverReserved(Run(EMPTY, before + during), id, candidate, digest, journal, key).result.value;
      IsCertified(told.record, candidate) <==> Current(Run(EMPTY, before), id).candidate == Some(candidate)
  {
    hide Run, HoldsReservation, DeliverReserved, IsCertified, EventsFor;
    var ops, op := before + during, DeliverCandidate(id, candidate, digest, journal, key);
    ReservedStandsStill(before, during, id, candidate);
    DeliverKeepsCandidate(Run(EMPTY, ops), id, candidate, digest, journal, key);
    RunOneMore(EMPTY, ops, op);
    CompletedIsCertified(ops + [op], id);
    CertifiedHolds(Current(Run(EMPTY, ops + [op]), id), candidate);
  }

  lemma CertifiedHolds(r: Record, c: CandidateId)
    requires r.candidate.Some? && IsCertified(r, r.candidate.value)
    ensures IsCertified(r, c) <==> r.candidate == Some(c)
  {}

  lemma RunOneMore(db: Database, ops: seq<Operation>, op: Operation)
    ensures Run(db, ops + [op]) == Execute(Run(db, ops), op)
  {
    hide Execute;
    assert (ops + [op])[..|ops + [op]| - 1] == ops;
  }

  // ----- a reservation for another candidate

  /** Drive workflow 0 to delivery with candidate 2, and save candidate 1 beside it. */
  const TO_DELIVERY: seq<Operation> := [
    Apply(0, [1], CompleteIntake), Apply(0, [2], Route(Quick)), SaveCandidate(1), SaveCandidate(2),
    Apply(0, [3], CandidateReady(2)), Apply(0, [4], VerificationPassed), Apply(0, [5], Approve(true))]

  const OTHER_DELIVERY: seq<Operation> := [
    ReserveDelivery(0, 1, [7]), BindJournal(0, 1, [7], None, [8]), DeliverCandidate(0, 1, [7], [8], [6])]

  /** A quick workflow at `state` with no rejection behind it. */
  ghost function At(state: WorkflowState, candidate: Option<CandidateId>): Record {
    Record(state, Some(Quick), candidate, None, 0, DEFAULT_REPAIR_CYCLES, None, None)
  }

  /** Workflow 0 is all there is, and stands at `state` with `candidate`. */
  ghost predicate Reaches(db: Database, state: WorkflowState, candidate: Option<CandidateId>, keys: set<Key>) {
    && db.workflows == map[0 := At(state, candidate)] && db.reservations == map[] && db.dedup.Keys == keys
  }

  lemma ReachesRouting(db: Database)
    requires db == EMPTY
    ensures
      var one := Execute(db, Apply(0, [1], CompleteIntake));
      var two := Execute(one, Apply(0, [2], Route(Quick)));
      Reaches(two, QuickExecution, None, {[1], [2]}) && two.candidates == {}
  {
    hide Logged;
    var one := Execute(db, Apply(0, [1], CompleteIntake));
    assert one.workflows == map[0 := Initial(DEFAULT_REPAIR_CYCLES).(state := Routing)] && one.dedup.Keys == {[1]};
    var key: Key := [2];
    assert key != [1];
  }

  lemma ReachesNext(
    db: Database, state: WorkflowState, candidate: Option<CandidateId>, keys: set<Key>, key: Key, c: Command,
    to: WorkflowState, now: Option<CandidateId>)
    requires Reaches(db, state, candidate, keys) && key !in keys && ValidKey(key)
    requires Step(At(state, candidate), c).Ok? && Step(At(state, candidate), c).value.record == At(to, now)
    ensures
      var next := Execute(db, Apply(0, key, c));
      Reaches(next, to, now, keys + {key}) && next.candidates == db.candidates
  {
    hide Step, Logged, At;
  }

  lemma ReachesDelivery(db: Database)
    requires Reaches(db, QuickExecution, None, {[1], [2]}) && db.candidates == {}
    ensures
      var saved := Execute(Execute(db, SaveCandidate(1)), SaveCandidate(2));
      var ready := Execute(saved, Apply(0, [3], CandidateReady(2)));
      var passed := Execute(ready, Apply(0, [4], VerificationPassed));
      var approved := Execute(passed, Apply(0, [5], Approve(true)));
      Reaches(approved, Delivery, Some(2), {[1], [2]} + {[3]} + {[4]} + {[5]}) && approved.candidates == {1, 2}
  {
    FirstKeys();
    StepsToDelivery();
    var saved := Execute(Execute(db, SaveCandidate(1)), SaveCandidate(2));
    assert Reaches(saved, QuickExecution, None, {[1], [2]}) && saved.candidates == {1, 2};
    hide *;
    ReachesNext(saved, QuickExecution, None, {[1], [2]}, [3], CandidateReady(2), Verification, Some(2));
    var ready := Execute(saved, Apply(0, [3], CandidateReady(2)));
    ReachesNext(ready, Verification, Some(2), {[1], [2]} + {[3]}, [4], VerificationPassed, Arbitration, Some(2));
    var passed := Execute(ready, Apply(0, [4], VerificationPassed));
    ReachesNext(
      passed, Arbitration, Some(2), {[1], [2]} + {[3]} + {[4]}, [5], Approve(true), Delivery, Some(2));
  }

  lemma FirstKeys()
    ensures
      var k1: Key, k2: Key, k3: Key, k4: Key, k5: Key := [1], [2], [3], [4], [5];
      && ValidKey(k3) && k3 !in {k1, k2}
      && ValidKey(k4) && k4 !in {k1, k2} + {k3}
      && ValidKey(k5) && k5 !in {k1, k2} + {k3} + {k4}
  {
    var k1: Key, k2: Key, k3: Key, k4: Key, k5: Key := [1], [2], [3], [4], [5];
    assert k1[0] == 1 && k2[0] == 2 && k3[0] == 3 && k4[0] == 4 && k5[0] == 5;
  }

  lemma StepsToDelivery()
    ensures
      var done := Step(At(QuickExecution, None), CandidateReady(2));
      done.Ok? && done.value.record == At(Verification, Some(2))
    ensures
      var done := Step(At(Verification, Some(2)), VerificationPassed);
      done.Ok? && done.value.record == At(Arbitration, Some(2))
    ensures
      var done := Step(At(Arbitration, Some(2)), Approve(true));
      done.Ok? && done.value.record == At(Delivery, Some(2))
  {}

  lemma DeliversOther(db: Database)
    requires Reaches(db, Delivery, Some(2), {[1], [2]} + {[3]} + {[4]} + {[5]}) && db.candidates == {1, 2}
    ensures
      var held := Execute(db, ReserveDelivery(0, 1, [7]));
      var bound := Execute(held, BindJournal(0, 1, [7], None, [8]));
      var end := Execute(bound, DeliverCandidate(0, 1, [7], [8], [6]));
      && 0 in end.workflows && end.workflows[0].state == Completed && end.workflows[0].candidate == Some(2)
      && end.reservations == map[]
  {
    hide Logged;
    var held := Execute(db, ReserveDelivery(0, 1, [7]));
    assert held.reservations == map[1 := Reservation(0, [7], None)];
    var bound := Execute(held, BindJournal(0, 1, [7], None, [8]));
    assert bound.reservations == map[1 := Reservation(0, [7], Some([8]))];
    var k: Key := [6];
    assert k[0] == 6;
    assert k !in bound.dedup;
  }

  /** A reachable run in which candidate 1 is reserved and delivered, and the workflow completes with candidate 2. */
  lemma AnotherCandidateDelivered()
    ensures
      var db := Run(EMPTY, TO_DELIVERY + OTHER_DELIVERY);
      && 0 in db.workflows && db.workflows[0].state == Completed && db.workflows[0].candidate == Some(2)
      && db.reservations == map[]
  {
    hide Execute, Reaches;
    var ops := TO_DELIVERY + OTHER_DELIVERY;
    forall n | 0 <= n < 10 ensures Run(EMPTY, ops[..n + 1]) == Execute(Run(EMPTY, ops[..n]), ops[n]) {
      assert ops[..n + 1] == ops[..n] + [ops[n]];
      RunOneMore(EMPTY, ops[..n], ops[n]);
    }
    assert ops[..0] == [] && ops[..10] == ops;
    assert ops[0] == Apply(0, [1], CompleteIntake) && ops[1] == Apply(0, [2], Route(Quick));
    assert ops[2] == SaveCandidate(1) && ops[3] == SaveCandidate(2) && ops[4] == Apply(0, [3], CandidateReady(2));
    assert ops[5] == Apply(0, [4], VerificationPassed) && ops[6] == Apply(0, [5], Approve(true));
    assert ops[7] == ReserveDelivery(0, 1, [7]) && ops[8] == BindJournal(0, 1, [7], None, [8]);
    assert ops[9] == DeliverCandidate(0, 1, [7], [8], [6]);
    hide Run;
    var start := Run(EMPTY, ops[..0]);
    ReachesRouting(start);
    ReachesDelivery(Run(EMPTY, ops[..1 + 1]));
    DeliversOther(Run(EMPTY, ops[..6 + 1]));
    assert Run(EMPTY, ops[..9 + 1]) == Run(EMPTY, ops);
  }
}
