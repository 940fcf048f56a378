/** The workflow machine of crates/workflow-core/src/workflow.rs. */
module CoreWorkflow {
  import opened Sequences
  import opened Certification

  datatype WorkflowMode = Quick | Full

  datatype RepairTarget = ToExecution | ToArchitecture

  datatype WorkflowState =
    | Intake | Routing | QuickExecution | Architecture | Execution | Verification | IndependentReviews
    | Arbitration | Delivery | Repair | Paused | Blocked | Completed | Cancelled

  datatype Command =
    | CompleteIntake
    | Route(mode: WorkflowMode)
    | ArchitectureAccepted
    | CandidateReady(candidate: CandidateId)
    | VerificationPassed
    | VerificationFailed
    | VerificationRejected(target: RepairTarget)
    | ReviewsReady
    | Approve(mandatoryGatesPassed: bool)
    | Deliver
    | Reject(target: RepairTarget)
    | BeginRepair
    | Pause
    | Resume
    | Cancel
    | RetryInfrastructure
    | ResumeBlocked(additionalCycles: U8)
    | BlockInfrastructure
    | ResumeInfrastructure
    | ReplanExecution

  datatype Event =
    | StateChanged(from: WorkflowState, to: WorkflowState)
    | CandidateSelected(candidate: CandidateId)
    | RepairCycleConsumed(cycle: U8, maximum: U8)
    | RepairBudgetExtended(previous: U8, current: U8)
    | InfrastructureRetryAccepted

  datatype TransitionError =
    | InvalidTransition | MandatoryGateFailed | MissingCandidate | MissingRepairTarget
    | InvalidAdditionalCycles | RepairBudgetOverflow

  const U8_MAX := 255

  type U8 = x: int | 0 <= x <= U8_MAX

  /** The fields of a workflow. */
  datatype Record = Record(
    state: WorkflowState,
    mode: Option<WorkflowMode>,
    candidate: Option<CandidateId>,
    repairTarget: Option<RepairTarget>,
    repairCycles: U8,
    maxRepairCycles: U8,
    pausedFrom: Option<WorkflowState>,
    infrastructureBlockedFrom: Option<WorkflowState>)

  datatype Accepted = Accepted(record: Record, events: seq<Event>)

  function Initial(maxRepairCycles: U8): Record {
    Record(Intake, None, None, None, 0, maxRepairCycles, None, None)
  }

  predicate IsTerminal(state: WorkflowState) {
    state == Completed || state == Cancelled
  }

  predicate CanPause(state: WorkflowState) {
    state !in {Paused, Blocked, Verification, Delivery, Completed, Cancelled}
  }

  predicate CanBlockInfrastructure(state: WorkflowState) {
    state !in {Paused, Blocked, Completed, Cancelled}
  }

  function To(r: Record, state: WorkflowState): Result<Accepted, TransitionError> {
    Ok(Accepted(r.(state := state), [StateChanged(r.state, state)]))
  }

  function Rejected(r: Record, target: RepairTarget): Result<Accepted, TransitionError> {
    if r.repairCycles == U8_MAX then Err(RepairBudgetOverflow)
    else
      var cycle := r.repairCycles + 1;
      var next := if cycle >= r.maxRepairCycles then Blocked else Repair;
      Ok(
        Accepted(
          r.(repairCycles := cycle, repairTarget := Some(target), state := next),
          [RepairCycleConsumed(cycle, r.maxRepairCycles), StateChanged(r.state, next)]))
  }

  function Passed(r: Record): Result<Accepted, TransitionError> {
    if r.candidate.None? then Err(MissingCandidate)
    else match r.mode
      case Some(Quick) => To(r, Arbitration)
      case Some(Full) => To(r, IndependentReviews)
      case None => Err(InvalidTransition)
  }

  function Extended(r: Record, additional: U8): Result<Accepted, TransitionError> {
    if additional == 0 then Err(InvalidAdditionalCycles)
    else if r.maxRepairCycles + additional > U8_MAX then Err(RepairBudgetOverflow)
    else
      var max := r.maxRepairCycles + additional;
      Ok(
        Accepted(
          r.(maxRepairCycles := max, state := Repair),
          [RepairBudgetExtended(r.maxRepairCycles, max), StateChanged(r.state, Repair)]))
  }

  /** What `apply` does. A command that fails has no record: the workflow stays as it was. */
  function Step(r: Record, c: Command): Result<Accepted, TransitionError> {
    match c
    case CompleteIntake => if r.state == Intake then To(r, Routing) else Err(InvalidTransition)
    case Route(mode) =>
      if r.state == Routing then To(r.(mode := Some(mode)), if mode == Quick then QuickExecution else Architecture)
      else Err(InvalidTransition)
    case ArchitectureAccepted => if r.state == Architecture then To(r, Execution) else Err(InvalidTransition)
    case CandidateReady(id) =>
      if r.state == QuickExecution || r.state == Execution then
        Ok(
          Accepted(
            r.(candidate := Some(id), state := Verification),
            [CandidateSelected(id), StateChanged(r.state, Verification)]))
      else Err(InvalidTransition)
    case VerificationPassed => if r.state == Verification then Passed(r) else Err(InvalidTransition)
    case VerificationFailed =>
      if r.state != Verification then Err(InvalidTransition)
      else if r.candidate.None? then Err(MissingCandidate) else Rejected(r, ToExecution)
    case VerificationRejected(target) =>
      if r.state != Verification then Err(InvalidTransition)
      else if r.candidate.None? then Err(MissingCandidate) else Rejected(r, target)
    case ReviewsReady => if r.state == IndependentReviews then To(r, Arbitration) else Err(InvalidTransition)
    case Approve(passed) =>
      if r.state != Arbitration then Err(InvalidTransition)
      else if r.candidate.None? then Err(MissingCandidate)
      else if !passed then Err(MandatoryGateFailed) else To(r, Delivery)
    case Deliver =>
      if r.state != Delivery then Err(InvalidTransition)
      else if r.candidate.None? then Err(MissingCandidate) else To(r, Completed)
    case Reject(target) =>
      if r.state != Arbitration then Err(InvalidTransition)
      else if r.candidate.None? then Err(MissingCandidate) else Rejected(r, target)
    case BeginRepair =>
      if r.state != Repair then Err(InvalidTransition)
      else if r.repairTarget.None? then Err(MissingRepairTarget)
      else
        To(
          r.(repairTarget := None, candidate := None),
          if r.repairTarget == Some(ToExecution) then Execution else Architecture)
    case Pause => if CanPause(r.state) then To(r.(pausedFrom := Some(r.state)), Paused) else Err(InvalidTransition)
    case Resume =>
      if r.state != Paused || r.pausedFrom.None? then Err(InvalidTransition)
      else To(r.(pausedFrom := None), r.pausedFrom.value)
    case Cancel => if IsTerminal(r.state) then Err(InvalidTransition) else To(r.(pausedFrom := None), Cancelled)
    case RetryInfrastructure =>
      if CanBlockInfrastructure(r.state) then Ok(Accepted(r, [InfrastructureRetryAccepted])) else Err(InvalidTransition)
    case ResumeBlocked(additional) =>
      if r.state == Blocked && r.infrastructureBlockedFrom.None? then Extended(r, additional)
      else Err(InvalidTransition)
    case BlockInfrastructure =>
      if CanBlockInfrastructure(r.state) then To(r.(infrastructureBlockedFrom := Some(r.state)), Blocked)
      else Err(InvalidTransition)
    case ResumeInfrastructure =>
      if r.state == Blocked && r.infrastructureBlockedFrom.Some? then
        To(r.(infrastructureBlockedFrom := None), r.infrastructureBlockedFrom.value)
      else Err(InvalidTransition)
    case ReplanExecution => if r.state == Execution then To(r, Architecture) else Err(InvalidTransition)
  }

  // ----- the program

  class Workflow {
    var state: WorkflowState
    var mode: Option<WorkflowMode>
    var candidate: Option<CandidateId>
    var repairTarget: Option<RepairTarget>
    var repairCycles: U8
    var maxRepairCycles: U8
    var pausedFrom: Option<WorkflowState>
    var infrastructureBlockedFrom: Option<WorkflowState>

    constructor (maxRepairCycles: U8)
      requires maxRepairCycles != 0
      ensures Now() == Initial(maxRepairCycles)
    {
      state, mode, candidate, repairTarget := Intake, None, None, None;
      repairCycles, this.maxRepairCycles := 0, maxRepairCycles;
      pausedFrom, infrastructureBlockedFrom := None, None;
    }

    ghost function Now(): Record
      reads this
    {
      Record(state, mode, candidate, repairTarget, repairCycles, maxRepairCycles, pausedFrom, infrastructureBlockedFrom)
    }

    /** The new state and the result are those of `expected`. */
    ghost predicate Gives(
        before: Record, expected: Result<Accepted, TransitionError>, r: Result<seq<Event>, TransitionError>)
      reads this
    {
      match expected
      case Ok(accepted) => r.Ok? && r.value == accepted.events && Now() == accepted.record
      case Err(error) => r == Err(error) && Now() == before
    }

    method Transition(to: WorkflowState) returns (events: seq<Event>)
      modifies this`state
      ensures state == to && events == [StateChanged(old(state), to)]
    {
      events := [StateChanged(state, to)];
      state := to;
    }

    method RejectWork(target: RepairTarget) returns (r: Result<seq<Event>, TransitionError>)
      modifies this
      ensures Gives(old(Now()), Rejected(old(Now()), target), r)
    {
      if repairCycles == U8_MAX { return Err(RepairBudgetOverflow); }
      var nextCycle: U8 := repairCycles + 1;
      repairCycles := nextCycle;
      repairTarget := Some(target);
      var events := [RepairCycleConsumed(nextCycle, maxRepairCycles)];
      var changed := Transition(if nextCycle >= maxRepairCycles then Blocked else Repair);
      return Ok(events + changed);
    }

    method ExtendBudget(additional: U8) returns (r: Result<seq<Event>, TransitionError>)
      modifies this
      ensures Gives(old(Now()), Extended(old(Now()), additional), r)
    {
      if additional == 0 { return Err(InvalidAdditionalCycles); }
      var previous := maxRepairCycles;
      if previous + additional > U8_MAX { return Err(RepairBudgetOverflow); }
      maxRepairCycles := previous + additional;
      var events := [RepairBudgetExtended(previous, maxRepairCycles)];
      var changed := Transition(Repair);
      return Ok(events + changed);
    }

    method Apply(c: Command) returns (r: Result<seq<Event>, TransitionError>)
      modifies this
      ensures Gives(old(Now()), Step(old(Now()), c), r)
    {
      var events: seq<Event>;
      match c {
        case CompleteIntake =>
          if state != Intake { return Err(InvalidTransition); }
          events := Transition(Routing);
        case Route(m) =>
          if state != Routing { return Err(InvalidTransition); }
          mode := Some(m);
          events := Transition(if m == Quick then QuickExecution else Architecture);
        case ArchitectureAccepted =>
          if state != Architecture { return Err(InvalidTransition); }
          events := Transition(Execution);
        case CandidateReady(id) =>
          if state != QuickExecution && state != Execution { return Err(InvalidTransition); }
          candidate := Some(id);
          events := Transition(Verification);
          events := [CandidateSelected(id)] + events;
        case VerificationPassed =>
          if state != Verification { return Err(InvalidTransition); }
          if candidate.None? { return Err(MissingCandidate); }
          match mode {
            case Some(Quick) => events := Transition(Arbitration);
            case Some(Full) => events := Transition(IndependentReviews);
            case None => return Err(InvalidTransition);
          }
        case VerificationFailed =>
          if state != Verification { return Err(InvalidTransition); }
          if candidate.None? { return Err(MissingCandidate); }
          r := RejectWork(ToExecution);
          return;
        case VerificationRejected(target) =>
          if state != Verification { return Err(InvalidTransition); }
          if candidate.None? { return Err(MissingCandidate); }
          r := RejectWork(target);
          return;
        case ReviewsReady =>
          if state != IndependentReviews { return Err(InvalidTransition); }
          events := Transition(Arbitration);
        case Approve(passed) =>
          if state != Arbitration { return Err(InvalidTransition); }
          if candidate.None? { return Err(MissingCandidate); }
          if !passed { return Err(MandatoryGateFailed); }
          events := Transition(Delivery);
        case Deliver =>
          if state != Delivery { return Err(InvalidTransition); }
          if candidate.None? { return Err(MissingCandidate); }
          events := Transition(Completed);
        case Reject(target) =>
          if state != Arbitration { return Err(InvalidTransition); }
          if candidate.None? { return Err(MissingCandidate); }
          r := RejectWork(target);
          return;
        case BeginRepair =>
          if state != Repair { return Err(InvalidTransition); }
          var target := repairTarget;
          repairTarget := None;
          if target.None? { return Err(MissingRepairTarget); }
          candidate := None;
          events := Transition(if target.value == ToExecution then Execution else Architecture);
        case Pause =>
          if !CanPause(state) { return Err(InvalidTransition); }
          pausedFrom := Some(state);
          events := Transition(Paused);
        case Resume =>
          if state != Paused { return Err(InvalidTransition); }
          var previous := pausedFrom;
          pausedFrom := None;
          if previous.None? { return Err(InvalidTransition); }
          events := Transition(previous.value);
        case Cancel =>
          if IsTerminal(state) { return Err(InvalidTransition); }
          pausedFrom := None;
          events := Transition(Cancelled);
        case RetryInfrastructure =>
          if !CanBlockInfrastructure(state) { return Err(InvalidTransition); }
          events := [InfrastructureRetryAccepted];
        case ResumeBlocked(additional) =>
          if state != Blocked || infrastructureBlockedFrom.Some? { return Err(InvalidTransition); }
          r := ExtendBudget(additional);
          return;
        case BlockInfrastructure =>
          if !CanBlockInfrastructure(state) { return Err(InvalidTransition); }
          infrastructureBlockedFrom := Some(state);
          events := Transition(Blocked);
        case ResumeInfrastructure =>
          if state != Blocked || infrastructureBlockedFrom.None? { return Err(InvalidTransition); }
          var previous := infrastructureBlockedFrom.value;
          infrastructureBlockedFrom := None;
          events := Transition(previous);
        case ReplanExecution =>
          if state != Execution { return Err(InvalidTransition); }
          events := Transition(Architecture);
      }
      return Ok(events);
    }
  }
}
