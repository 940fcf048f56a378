/** The workflow tables as maps and sequences, and each transaction as one step: the workflow row, the event log,
    the deduplication table and the delivery reservations of crates/workflow-store. */
module StoreModel {
  import opened Sequences
  import opened Bytes
  import opened Certification
  import opened CoreWorkflow
  import opened CoreWorkflowRuns

  type WorkflowId = nat
  type Key = bytes

  datatype Persisted = Persisted(events: seq<Event>, record: Record)

  /** Tasks and goals share the table of keys and the log. */
  datatype DedupRow = ForWorkflow(id: WorkflowId, result: Persisted) | ForOther

  datatype LogRow = WorkflowEvent(id: WorkflowId, event: Event) | OtherEvent

  datatype Reservation = Reservation(
    workflow: WorkflowId, candidateDigest: ContentDigest, journal: Option<ContentDigest>)

  datatype Database = Database(
    workflows: map<WorkflowId, Record>,
    log: seq<LogRow>,
    dedup: map<Key, DedupRow>,
    candidates: set<CandidateId>,
    reservations: map<CandidateId, Reservation>)

  /** `Engine` stands for an error of the database itself: a violated constraint or an unreadable column. */
  datatype StoreError =
    | ReadOnly
    | InvalidIdempotencyKey
    | DeliveryInProgress
    | IdempotencyConflict
    | AggregateConflict
    | Transition(error: TransitionError)
    | Engine

  datatype ApplyResult = ApplyResult(duplicate: bool, events: seq<Event>, record: Record)

  datatype Reply<T> = Reply(result: Result<T, StoreError>, db: Database)

  const DEFAULT_REPAIR_CYCLES: U8 := 5

  predicate ValidKey(key: Key) {
    1 <= |key| <= 256
  }

  predicate IsReserved(db: Database, id: WorkflowId) {
    exists c :: c in db.reservations && db.reservations[c].workflow == id
  }

  function Current(db: Database, id: WorkflowId): Record {
    if id in db.workflows then db.workflows[id] else Initial(DEFAULT_REPAIR_CYCLES)
  }

  function Logged(id: WorkflowId, events: seq<Event>): seq<LogRow> {
    seq(|events|, i requires 0 <= i < |events| => WorkflowEvent(id, events[i]))
  }

  /** The writes of an accepted command. */
  function Written(db: Database, id: WorkflowId, key: Key, done: Accepted): Database {
    db.(workflows := db.workflows[id := done.record],
        log := db.log + Logged(id, done.events),
        dedup := db.dedup[key := ForWorkflow(id, Persisted(done.events, done.record))])
  }

  function ApplyCommand(db: Database, id: WorkflowId, key: Key, c: Command): Reply<ApplyResult> {
    if !ValidKey(key) then Reply(Err(InvalidIdempotencyKey), db)
    else if IsReserved(db, id) then Reply(Err(DeliveryInProgress), db)
    else if key in db.dedup then
      match db.dedup[key]
      case ForWorkflow(owner, saved) =>
        Reply(if owner == id then Ok(ApplyResult(true, saved.events, saved.record)) else Err(IdempotencyConflict), db)
      case ForOther => Reply(Err(IdempotencyConflict), db)
    else
      match Step(Current(db, id), c)
      case Err(error) => Reply(Err(Transition(error)), db)
      case Ok(done) => Reply(Ok(ApplyResult(false, done.events, done.record)), Written(db, id, key, done))
  }

  function DeliverReserved(
      db: Database, id: WorkflowId, candidate: CandidateId, digest: ContentDigest, journal: ContentDigest,
      key: Key): Reply<ApplyResult>
  {
    if !ValidKey(key) then Reply(Err(InvalidIdempotencyKey), db)
    else if candidate !in db.reservations then Reply(Err(AggregateConflict), db)
    else if db.reservations[candidate].journal.None? then Reply(Err(Engine), db)
    else if db.reservations[candidate] != Reservation(id, digest, Some(journal)) then Reply(Err(AggregateConflict), db)
    else if id !in db.workflows then Reply(Err(Engine), db)
    else
      match Step(db.workflows[id], Deliver)
      case Err(error) => Reply(Err(Transition(error)), db)
      case Ok(done) =>
        if key in db.dedup then Reply(Err(Engine), db)
        else
          Reply(
            Ok(ApplyResult(false, done.events, done.record)),
            Written(db, id, key, done).(reservations := db.reservations - {candidate}))
  }

  /** One reservation for a candidate, one for a workflow; both must exist. Reserving again is no error. */
  function Reserve(db: Database, id: WorkflowId, candidate: CandidateId, digest: ContentDigest): Reply<bool> {
    if candidate in db.reservations then
      var current := db.reservations[candidate];
      Reply(
        if current.workflow == id && current.candidateDigest == digest then Ok(true) else Err(AggregateConflict), db)
    else if IsReserved(db, id) || candidate !in db.candidates || id !in db.workflows then Reply(Err(Engine), db)
    else Reply(Ok(false), db.(reservations := db.reservations[candidate := Reservation(id, digest, None)]))
  }

  predicate Matches(db: Database, id: WorkflowId, candidate: CandidateId, digest: ContentDigest) {
    && candidate in db.reservations
    && db.reservations[candidate].workflow == id && db.reservations[candidate].candidateDigest == digest
  }

  function Release(db: Database, id: WorkflowId, candidate: CandidateId, digest: ContentDigest): Reply<()> {
    if Matches(db, id, candidate, digest) then Reply(Ok(()), db.(reservations := db.reservations - {candidate}))
    else Reply(Err(AggregateConflict), db)
  }

  /** Compare and set. */
  function Bind(
      db: Database, id: WorkflowId, candidate: CandidateId, digest: ContentDigest, expected: Option<ContentDigest>,
      journal: ContentDigest): Reply<()>
  {
    if Matches(db, id, candidate, digest) && db.reservations[candidate].journal == expected then
      Reply(Ok(()), db.(reservations := db.reservations[candidate := Reservation(id, digest, Some(journal))]))
    else Reply(Err(AggregateConflict), db)
  }

  // ----- any sequence of transactions

  datatype Operation =
    | Apply(id: WorkflowId, key: Key, command: Command)
    | DeliverCandidate(id: WorkflowId, candidate: CandidateId, digest: ContentDigest, journal: ContentDigest, key: Key)
    | ReserveDelivery(id: WorkflowId, candidate: CandidateId, digest: ContentDigest)
    | ReleaseDelivery(id: WorkflowId, candidate: CandidateId, digest: ContentDigest)
    | BindJournal(
      id: WorkflowId, candidate: CandidateId, digest: ContentDigest, expected: Option<ContentDigest>,
      journal: ContentDigest)
    | SaveCandidate(candidate: CandidateId)
    | OtherCommand(key: Key)

  function Execute(db: Database, op: Operation): Database {
    match op
    case Apply(id, key, command) => ApplyCommand(db, id, key, command).db
    case DeliverCandidate(id, candidate, digest, journal, key) =>
      DeliverReserved(db, id, candidate, digest, journal, key).db
    case ReserveDelivery(id, candidate, digest) => Reserve(db, id, candidate, digest).db
    case ReleaseDelivery(id, candidate, digest) => Release(db, id, candidate, digest).db
    case BindJournal(id, candidate, digest, expected, journal) => Bind(db, id, candidate, digest, expected, journal).db
    case SaveCandidate(candidate) => db.(candidates := db.candidates + {candidate})
    case OtherCommand(key) =>
      if key in db.dedup then db else db.(dedup := db.dedup[key := ForOther], log := db.log + [OtherEvent])
  }

  function Run(db: Database, ops: seq<Operation>): Database {
    if ops == [] then db else Execute(Run(db, ops[..|ops| - 1]), ops[|ops| - 1])
  }

  const EMPTY := Database(map[], [], map[], {}, map[])

  /** A workflow's part of the log. */
  function EventsFor(id: WorkflowId, log: seq<LogRow>): seq<Event> {
    if log == [] then []
    else
      var before := EventsFor(id, log[..|log| - 1]);
      match log[|log| - 1]
      case WorkflowEvent(owner, event) => if owner == id then before + [event] else before
      case OtherEvent => before
  }

  lemma {:induction false} EventsForConcat(id: WorkflowId, a: seq<LogRow>, b: seq<LogRow>)
    ensures EventsFor(id, a + b) == EventsFor(id, a) + EventsFor(id, b)
  {
    if b == [] {
      assert a + b == a;
    } else {
      var n := |b| - 1;
      assert (a + b)[..|a + b| - 1] == a + b[..n] && (a + b)[|a + b| - 1] == b[n];
      EventsForConcat(id, a, b[..n]);
    }
  }

  lemma {:induction false} EventsForLogged(id: WorkflowId, owner: WorkflowId, events: seq<Event>)
    ensures EventsFor(id, Logged(owner, events)) == if id == owner then events else []
    decreases |events|
  {
    if events != [] {
      var n := |events| - 1;
      assert Logged(owner, events)[..n] == Logged(owner, events[..n]);
      EventsForLogged(id, owner, events[..n]);
      assert events == events[..n] + [events[n]];
    }
  }
}
