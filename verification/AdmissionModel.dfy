/** The admission queue of crates/workflowd/src/admission.rs as a state and its transitions.
    Project and workflow identifiers are natural numbers, the order of the program's ordered maps.
    The resource controller is not part of this model: its decision is an argument of each call. */
module AdmissionModel {
  import opened Sequences

  type WorkflowId = nat
  type ProjectId = nat
  type u64 = n: nat | n <= U64_MAX

  const U64_MAX: nat := 0xFFFF_FFFF_FFFF_FFFF
  const LEASE_MILLIS: nat := 15_000
  const RETRY_MILLIS: nat := 500

  datatype Operation = Acquire | Release | Renew

  datatype Decision =
    | Admit
    | DeferCpu
    | DeferDisk
    | DeferIndexing
    | DeferMemory
    | DeferMetricsUnavailable
    | DeferRecoveryBackpressure

  datatype Reason =
    | Released
    | ConcurrencyLimit
    | FairQueue
    | Deferred(decision: Decision)

  datatype AdmissionResult = AdmissionResult(
    active: nat,
    admitted: bool,
    leaseExpires: Option<u64>,
    maximumActive: nat,
    reason: Option<Reason>,
    retryAfterMillis: nat)

  datatype State = State(
    active: map<WorkflowId, u64>,
    lastTick: u64,
    maximumActive: nat,
    projects: map<ProjectId, seq<WorkflowId>>,
    rotation: seq<ProjectId>,
    waiting: map<WorkflowId, u64>,
    workflowProjects: map<WorkflowId, ProjectId>)

  /** `debug_assert_eq!` evaluates its operands in debug builds only. */
  datatype Build = DebugBuild | ReleaseBuild

  function New(maximumActive: nat): State {
    State(map[], 0, if maximumActive < 1 then 1 else maximumActive, map[], [], map[], map[])
  }

  function Expiry(now: u64): u64 {
    if now + LEASE_MILLIS > U64_MAX then U64_MAX else now + LEASE_MILLIS
  }

  function Outcome(s: State, admitted: bool, lease: Option<u64>, reason: Option<Reason>): AdmissionResult {
    AdmissionResult(|s.active|, admitted, lease, s.maximumActive, reason, if admitted then 0 else RETRY_MILLIS)
  }

  // ----- the private steps

  /** The queue of the owning project without `w`; other workflows own no queue here. */
  function RemainingQueue(s: State, w: WorkflowId): seq<WorkflowId>
    requires w in s.workflowProjects && s.workflowProjects[w] in s.projects
  {
    Without(s.projects[s.workflowProjects[w]], w)
  }

  predicate OwnedAndQueued(s: State, w: WorkflowId) {
    w in s.workflowProjects && s.workflowProjects[w] in s.projects
  }

  function RemainingProjects(s: State, w: WorkflowId): map<ProjectId, seq<WorkflowId>> {
    if !OwnedAndQueued(s, w) then s.projects
    else if RemainingQueue(s, w) == [] then s.projects - {s.workflowProjects[w]}
    else s.projects[s.workflowProjects[w] := RemainingQueue(s, w)]
  }

  function RemainingRotation(s: State, w: WorkflowId): seq<ProjectId> {
    if OwnedAndQueued(s, w) && RemainingQueue(s, w) == [] then Without(s.rotation, s.workflowProjects[w])
    else s.rotation
  }

  /** A workflow without an owner keeps its waiting entry: the program returns before removing it. */
  function Remove(s: State, w: WorkflowId): State {
    State(
      s.active - {w}, s.lastTick, s.maximumActive, RemainingProjects(s, w), RemainingRotation(s, w),
      if w in s.workflowProjects then s.waiting - {w} else s.waiting,
      s.workflowProjects - {w})
  }

  function RemoveAll(s: State, ws: seq<WorkflowId>): State
    decreases |ws|
  {
    if ws == [] then s else RemoveAll(Remove(s, ws[0]), ws[1..])
  }

  /** The workflows that may stay in the queue of `p`. */
  function Live(s: State, p: ProjectId): set<WorkflowId> {
    set w | w in s.waiting && w in s.workflowProjects && s.workflowProjects[w] == p
  }

  function KeptQueue(s: State, p: ProjectId): seq<WorkflowId> {
    if p in s.projects then Retain(s.projects[p], Live(s, p)) else []
  }

  function KeptQueues(s: State): map<ProjectId, seq<WorkflowId>> {
    map p | p in s.projects && KeptQueue(s, p) != [] :: KeptQueue(s, p)
  }

  /** Surviving projects keep their order; projects missing from the rotation follow in key order. */
  function Rotate(rotation: seq<ProjectId>, keys: set<ProjectId>): seq<ProjectId> {
    var kept := FirstOccurrences(rotation, keys);
    kept + Ascending(keys - Elems(kept))
  }

  /** Does `w` stand in the kept queue of the project that owns it? */
  predicate Queued(s: State, w: WorkflowId) {
    w in s.workflowProjects && w in KeptQueue(s, s.workflowProjects[w])
  }

  function KeptWaiting(s: State): map<WorkflowId, u64> {
    map w | w in s.waiting && Queued(s, w) :: s.waiting[w]
  }

  function KeptOwners(s: State): map<WorkflowId, ProjectId> {
    map w | w in s.workflowProjects && Queued(s, w) :: s.workflowProjects[w]
  }

  function Repair(s: State): State {
    State(
      s.active, s.lastTick, s.maximumActive, KeptQueues(s), Rotate(s.rotation, KeptQueues(s).Keys),
      KeptWaiting(s), KeptOwners(s))
  }

  function DropExpired(s: State, now: u64): State {
    s.(active := map w | w in s.active && s.active[w] > now :: s.active[w])
  }

  function Abandoned(s: State, now: u64): set<WorkflowId> {
    set w | w in s.waiting && s.waiting[w] <= now
  }

  function Reap(s: State, now: u64): State {
    Repair(RemoveAll(DropExpired(s, now), Ascending(Abandoned(s, now))))
  }

  function Enqueue(s: State, p: ProjectId, w: WorkflowId, now: u64): State {
    if w in s.waiting then s.(waiting := s.waiting[w := Expiry(now)])
    else
      s.(waiting := s.waiting[w := Expiry(now)],
         projects := s.projects[p := (if p in s.projects then s.projects[p] else []) + [w]],
         workflowProjects := s.workflowProjects[w := p],
         rotation := if p in s.projects then s.rotation else s.rotation + [p])
  }

  predicate AtFront(s: State, p: ProjectId, w: WorkflowId) {
    && s.rotation != [] && s.rotation[0] == p
    && p in s.projects && s.projects[p] != [] && s.projects[p][0] == w
  }

  /** The pop is an operand of `debug_assert_eq!`: a release build leaves the queue as it was. */
  function DequeueFront(s: State, p: ProjectId, w: WorkflowId, build: Build): State
    requires AtFront(s, p, w)
  {
    var queue := if build.DebugBuild? then s.projects[p][1..] else s.projects[p];
    var s := s.(waiting := s.waiting - {w}, workflowProjects := s.workflowProjects - {w});
    if queue == [] then s.(projects := s.projects - {p}, rotation := s.rotation[1..])
    else s.(projects := s.projects[p := queue], rotation := s.rotation[1..] + [p])
  }

  function Activate(s: State, p: ProjectId, w: WorkflowId, now: u64, build: Build): State
    requires AtFront(s, p, w)
  {
    DequeueFront(s, p, w, build).(active := s.active[w := Expiry(now)])
  }

  // ----- the two public calls

  datatype Call =
    | Execute(operation: Operation, project: ProjectId, workflow: WorkflowId, decision: Decision, now: u64)
    | ReleaseWorkflow(released: WorkflowId)

  /** In a reaped state, does this call move its workflow from the queue to the active set? */
  predicate Dequeues(reaped: State, call: Call)
    requires call.Execute?
  {
    && call.operation != Release
    && call.workflow !in reaped.active
    && |reaped.active| < reaped.maximumActive
    && AtFront(Enqueue(reaped, call.project, call.workflow, call.now), call.project, call.workflow)
    && call.decision == Admit
  }

  function Tick(s: State, now: u64): State {
    if now >= s.lastTick && now - s.lastTick >= 1_000 then s.(lastTick := now) else s
  }

  /** `execute` after its opening reap. */
  function AfterReap(s: State, call: Call, build: Build): (State, AdmissionResult)
    requires call.Execute?
  {
    var Execute(operation, p, w, decision, now) := call;
    if operation == Release then
      var s := Remove(s, w);
      (s, Outcome(s, false, None, Some(Released)))
    else if w in s.active then
      var s := s.(active := s.active[w := Expiry(now)]);
      (s, Outcome(s, true, Some(Expiry(now)), None))
    else
      var s := Enqueue(s, p, w, now);
      if |s.active| >= s.maximumActive then (s, Outcome(s, false, None, Some(ConcurrencyLimit)))
      else if !AtFront(s, p, w) then (s, Outcome(s, false, None, Some(FairQueue)))
      else
        var s := Tick(s, now);
        if decision != Admit then (s, Outcome(s, false, None, Some(Deferred(decision))))
        else
          var s := Activate(s, p, w, now, build);
          (s, Outcome(s, true, Some(Expiry(now)), None))
  }

  function Step(s: State, call: Call, build: Build): (State, Option<AdmissionResult>) {
    match call
    case Execute(_, _, _, _, now) => var (s, r) := AfterReap(Reap(s, now), call, build); (s, Some(r))
    case ReleaseWorkflow(w) => (Remove(s, w), None)
  }

  function Run(s: State, calls: seq<Call>, build: Build): (State, seq<Option<AdmissionResult>>)
    decreases |calls|
  {
    if calls == [] then (s, [])
    else
      var (s, r) := Step(s, calls[0], build);
      var (s, rs) := Run(s, calls[1..], build);
      (s, [r] + rs)
  }
}
