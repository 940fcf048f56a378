/** The workflow machine of the control plane, src/workflow/machine.ts, and its agreement with the Rust machine. */
module ControlPlaneWorkflow {
  import opened Sequences
  import opened Certification
  import Core = CoreWorkflow
  import CoreRuns = CoreWorkflowRuns

  type State = Core.WorkflowState
  type Mode = Core.WorkflowMode
  type Target = Core.RepairTarget

  /** `resumeBlocked` carries a number that need not be whole. */
  datatype Command =
    | Approve(mandatoryGatesPassed: bool)
    | ArchitectureAccepted
    | BeginRepair
    | Cancel
    | CandidateReady(candidate: CandidateId)
    | CompleteIntake
    | Deliver
    | ExecutionFailed(target: Target)
    | Pause
    | Reject(target: Target)
    | Replan
    | Resume
    | ResumeBlocked(additionalCycles: real)
    | ReviewsReady
    | Route(mode: Mode)
    | VerificationFailed(target: Target)
    | VerificationPassed

  datatype Workflow = Workflow(
    blockedFrom: Option<State>,
    candidate: Option<CandidateId>,
    maxRepairCycles: int,
    mode: Option<Mode>,
    pausedFrom: Option<State>,
    repairCycles: int,
    repairTarget: Option<Target>,
    state: State)

  datatype ErrorCode = GatesNotPassed | InvalidTransition | NoCandidate | NoRepairTarget | OutOfRange

  type Outcome = Result<Workflow, ErrorCode>

  function NewWorkflow(maxRepairCycles: int): Workflow {
    Workflow(None, None, maxRepairCycles, None, None, 0, None, Core.Intake)
  }

  /** `at`: a new record when the state is the expected one. */
  function AtState(w: Workflow, from: State, next: Workflow): Outcome {
    if w.state == from then Ok(next) else Err(InvalidTransition)
  }

  function Rejected(w: Workflow, target: Target): Workflow {
    var cycles := w.repairCycles + 1;
    var exhausted := cycles >= w.maxRepairCycles;
    w.(blockedFrom := if exhausted then Some(w.state) else w.blockedFrom,
       repairCycles := cycles, repairTarget := Some(target), state := if exhausted then Core.Blocked else Core.Repair)
  }

  function WithCandidate(w: Workflow, state: State, next: Workflow): Outcome {
    if w.state != state then Err(InvalidTransition)
    else if w.candidate.None? then Err(NoCandidate) else Ok(next)
  }

  predicate IsWhole(x: real) {
    x == x.Floor as real
  }

  predicate Unpausable(s: State) {
    s in {Core.Blocked, Core.Cancelled, Core.Completed, Core.Delivery, Core.Paused, Core.Verification}
  }

  function Apply(w: Workflow, c: Command): Outcome {
    match c
    case CompleteIntake => AtState(w, Core.Intake, w.(state := Core.Routing))
    case Route(mode) =>
      AtState(
        w, Core.Routing,
        w.(mode := Some(mode), state := if mode == Core.Quick then Core.QuickExecution else Core.Architecture))
    case ArchitectureAccepted => AtState(w, Core.Architecture, w.(state := Core.Execution))
    case CandidateReady(id) =>
      if w.state != Core.Execution && w.state != Core.QuickExecution then Err(InvalidTransition)
      else Ok(w.(candidate := Some(id), state := Core.Verification))
    case VerificationPassed =>
      if w.state == Core.Verification && w.candidate.Some? && w.mode.None? then Err(InvalidTransition)
      else
        WithCandidate(
          w, Core.Verification,
          w.(state := if w.mode == Some(Core.Full) then Core.IndependentReviews else Core.Arbitration))
    case VerificationFailed(target) => WithCandidate(w, Core.Verification, Rejected(w, target))
    case ExecutionFailed(target) =>
      if w.state != Core.Execution && w.state != Core.QuickExecution then Err(InvalidTransition)
      else Ok(Rejected(w, target))
    case ReviewsReady => AtState(w, Core.IndependentReviews, w.(state := Core.Arbitration))
    case Approve(passed) =>
      if w.state == Core.Arbitration && w.candidate.Some? && !passed then Err(GatesNotPassed)
      else WithCandidate(w, Core.Arbitration, w.(state := Core.Delivery))
    case Deliver => WithCandidate(w, Core.Delivery, w.(state := Core.Completed))
    case Reject(target) => WithCandidate(w, Core.Arbitration, Rejected(w, target))
    case BeginRepair =>
      if w.state != Core.Repair then Err(InvalidTransition)
      else if w.repairTarget.None? then Err(NoRepairTarget)
      else
        Ok(
          w.(
            candidate := None, repairTarget := None,
            state := if w.repairTarget == Some(Core.ToArchitecture) then Core.Architecture else Core.Execution))
    case Replan => AtState(w, Core.Execution, w.(state := Core.Architecture))
    case Pause =>
      if Unpausable(w.state) then Err(InvalidTransition)
      else Ok(w.(pausedFrom := Some(w.state), state := Core.Paused))
    case Resume =>
      if w.state != Core.Paused || w.pausedFrom.None? then Err(InvalidTransition)
      else Ok(w.(pausedFrom := None, state := w.pausedFrom.value))
    case ResumeBlocked(additional) =>
      if w.state != Core.Blocked then Err(InvalidTransition)
      else if !IsWhole(additional) || additional < 1.0 then Err(OutOfRange)
      else Ok(w.(blockedFrom := None, maxRepairCycles := w.maxRepairCycles + additional.Floor, state := Core.Repair))
    case Cancel =>
      if Core.IsTerminal(w.state) then Err(InvalidTransition) else Ok(w.(pausedFrom := None, state := Core.Cancelled))
  }

  // ----- the invariant of every run

  function Effective(w: Workflow): State {
    if w.state == Core.Paused && w.pausedFrom.Some? then w.pausedFrom.value else w.state
  }

  ghost predicate Sound(w: Workflow) {
    var s := Effective(w);
    && (w.state == Core.Paused ==> w.pausedFrom.Some? && !Unpausable(w.pausedFrom.value))
    && (w.pausedFrom.Some? ==> w.state == Core.Paused)
    && (w.state == Core.Blocked ==> w.blockedFrom.Some?)
    && (CoreRuns.NeedsCandidate(s) ==> w.candidate.Some?)
    && (CoreRuns.NeedsMode(s) || s == Core.Blocked ==> w.mode.Some?)
    && (s == Core.IndependentReviews ==> w.mode == Some(Core.Full))
    && (s == Core.Repair || s == Core.Blocked ==> w.repairTarget.Some?)
  }

  /** The budget is used up exactly while the workflow is blocked, or cancelled from there. */
  ghost predicate BudgetSound(w: Workflow) {
    && 0 <= w.repairCycles <= w.maxRepairCycles
    && (w.repairCycles == w.maxRepairCycles ==> w.state == Core.Blocked || w.state == Core.Cancelled)
    && (w.state == Core.Blocked ==> w.repairCycles == w.maxRepairCycles)
  }

  lemma ApplySound(w: Workflow, c: Command)
    requires Sound(w)
    ensures Apply(w, c).Ok? ==> Sound(Apply(w, c).value)
    ensures Apply(w, c).Ok? && BudgetSound(w) ==> BudgetSound(Apply(w, c).value)
    ensures Apply(w, c).Err? ==> Apply(w, c).error != NoCandidate && Apply(w, c).error != NoRepairTarget
  {}

  /** A failed execution is accepted where a candidate would be, and costs what a rejected candidate costs: the two
      ways leave the same workflow but for the candidate and the state a block is remembered from. */
  lemma ExecutionFailsLikeVerification(w: Workflow, target: Target, id: CandidateId)
    ensures Apply(w, ExecutionFailed(target)).Ok? <==> Apply(w, CandidateReady(id)).Ok?
    ensures
      Apply(w, CandidateReady(id)).Ok? ==>
        Apply(Apply(w, CandidateReady(id)).value, VerificationFailed(target)).Ok?
    ensures
      Apply(w, CandidateReady(id)).Ok? ==>
        var failed := Apply(w, ExecutionFailed(target)).value;
        var verified := Apply(Apply(w, CandidateReady(id)).value, VerificationFailed(target)).value;
        && failed.candidate == w.candidate
        && failed == verified.(candidate := w.candidate, blockedFrom := failed.blockedFrom)
  {}

  /** A block remembers the state it was met in, and more cycles forget it. */
  lemma BlockRemembers(w: Workflow, c: Command)
    requires Apply(w, c).Ok?
    ensures
      var next := Apply(w, c).value;
      && (next.state == Core.Blocked && w.state != Core.Blocked && w.state != Core.Paused ==>
            next.blockedFrom == Some(w.state))
      && (w.state == Core.Blocked && next.state == Core.Repair ==> next.blockedFrom.None?)
      && (next.state != Core.Blocked && w.state != Core.Blocked ==> next.blockedFrom == w.blockedFrom)
  {}

  /** Pausing is undone by resuming, field by field, and nothing else but being cancelled ends a pause. */
  lemma PauseAndResume(w: Workflow, c: Command)
    requires Sound(w) && Apply(w, Pause).Ok?
    ensures
      var held := Apply(w, Pause).value;
      && Apply(held, Resume) == Ok(w)
      && (Apply(held, c).Ok? <==> c == Resume || c == Cancel)
  {}

  datatype Driven = Driven(workflow: Workflow, accepted: seq<Command>)

  function Drive(start: Workflow, commands: seq<Command>): Driven {
    if commands == [] then Driven(start, [])
    else
      var n := |commands| - 1;
      var before := Drive(start, commands[..n]);
      match Apply(before.workflow, commands[n])
      case Ok(next) => Driven(next, before.accepted + [commands[n]])
      case Err(_) => before
  }

  function MarkOf(c: Command): Mark {
    match c
    case CandidateReady(id) => Selected(id)
    case VerificationPassed => Verified
    case ReviewsReady => Reviewed
    case Approve(_) => Approved
    case Deliver => Delivered
    case VerificationFailed(_) => Discarded
    case ExecutionFailed(_) => Discarded
    case Reject(_) => Discarded
    case BeginRepair => Discarded
    case _ => Unrelated
  }

  function MarksOf(accepted: seq<Command>): seq<Mark> {
    seq(|accepted|, i requires 0 <= i < |accepted| => MarkOf(accepted[i]))
  }

  ghost predicate StageMatches(w: Workflow, stage: Stage) {
    match Effective(w)
    case Verification => stage.Chosen? && w.candidate == Some(stage.candidate)
    case IndependentReviews => stage.Checked? && w.candidate == Some(stage.candidate)
    case Arbitration =>
      stage.Checked? && w.candidate == Some(stage.candidate) && (w.mode == Some(Core.Full) ==> stage.reviewed)
    case Delivery =>
      stage.Cleared? && w.candidate == Some(stage.candidate) && (w.mode == Some(Core.Full) ==> stage.reviewed)
    case Completed =>
      stage.Landed? && w.candidate == Some(stage.candidate) && (w.mode == Some(Core.Full) ==> stage.reviewed)
    case _ => true
  }

  ghost predicate GatesPassed(accepted: seq<Command>) {
    forall i :: 0 <= i < |accepted| && accepted[i].Approve? ==> accepted[i].mandatoryGatesPassed
  }

  lemma ApplyMatches(w: Workflow, stage: Stage, c: Command)
    requires Sound(w) && StageMatches(w, stage) && Apply(w, c).Ok?
    ensures StageMatches(Apply(w, c).value, Advance(stage, MarkOf(c)))
    ensures c.Approve? ==> c.mandatoryGatesPassed
  {}

  lemma {:induction false} RunsAreSound(max: int, commands: seq<Command>)
    ensures max >= 1 ==> BudgetSound(Drive(NewWorkflow(max), commands).workflow)
    ensures Sound(Drive(NewWorkflow(max), commands).workflow)
    ensures
      StageMatches(
        Drive(NewWorkflow(max), commands).workflow, StageOf(MarksOf(Drive(NewWorkflow(max), commands).accepted)))
    ensures GatesPassed(Drive(NewWorkflow(max), commands).accepted)
  {
    hide Apply, Sound, BudgetSound, StageMatches, Advance, StageOf;
    if commands == [] {
      NewIsSound(max);
    } else {
      var n := |commands| - 1;
      RunsAreSound(max, commands[..n]);
      var before := Drive(NewWorkflow(max), commands[..n]);
      if Apply(before.workflow, commands[n]).Ok? {
        ApplySound(before.workflow, commands[n]);
        ApplyMatches(before.workflow, StageOf(MarksOf(before.accepted)), commands[n]);
        StageNext(MarksOf(before.accepted), MarkOf(commands[n]));
        assert MarksOf(before.accepted + [commands[n]]) == MarksOf(before.accepted) + [MarkOf(commands[n])];
      }
    }
  }

  lemma NewIsSound(max: int)
    ensures max >= 1 ==> BudgetSound(NewWorkflow(max))
    ensures Sound(NewWorkflow(max)) && StageMatches(NewWorkflow(max), StageOf(MarksOf([])))
  {}

  ghost predicate DeliveredInOrder(
      accepted: seq<Command>, c: CandidateId, mode: Mode, select: nat, verify: nat, approve: nat, deliver: nat)
  {
    && select < verify < approve < deliver < |accepted|
    && accepted[select] == CandidateReady(c)
    && accepted[verify] == VerificationPassed
    && accepted[approve] == Approve(true)
    && accepted[deliver] == Deliver
    && (mode == Core.Full ==> exists review :: verify < review < approve && accepted[review] == ReviewsReady)
    && forall k :: select < k < |accepted| ==>
         !accepted[k].CandidateReady? && !accepted[k].VerificationFailed? && !accepted[k].ExecutionFailed?
         && !accepted[k].Reject? && !accepted[k].BeginRepair?
  }

  lemma MarksSpeakOfCommands(
      accepted: seq<Command>, c: CandidateId, mode: Mode, reviewed: bool, s: nat, v: nat, a: nat, d: nat)
    requires
      && GatesPassed(accepted) && Certified(MarksOf(accepted), c, reviewed, s, v, a, d)
      && (mode == Core.Full ==> reviewed)
    ensures DeliveredInOrder(accepted, c, mode, s, v, a, d)
  {
    var marks := MarksOf(accepted);
    assert marks[s] == MarkOf(accepted[s]) && marks[v] == MarkOf(accepted[v]);
    assert marks[a] == MarkOf(accepted[a]) && marks[d] == MarkOf(accepted[d]);
    if mode == Core.Full {
      var review :| v < review < a && marks[review] == Reviewed;
      assert MarkOf(accepted[review]) == Reviewed;
    }
    forall k | s < k < |accepted| ensures !accepted[k].CandidateReady? && MarkOf(accepted[k]) != Discarded {
      assert marks[k] == MarkOf(accepted[k]);
    }
  }

  /** The same guarantee as in the Rust machine. */
  lemma CompletedMeansCertified(max: int, commands: seq<Command>)
    requires Drive(NewWorkflow(max), commands).workflow.state == Core.Completed
    ensures
      var run := Drive(NewWorkflow(max), commands);
      && run.workflow.candidate.Some? && run.workflow.mode.Some?
      && exists s, v, a, d ::
           DeliveredInOrder(run.accepted, run.workflow.candidate.value, run.workflow.mode.value, s, v, a, d)
  {
    hide Apply, Advance, StageOf, DeliveredInOrder, Certified, Drive;
    RunsAreSound(max, commands);
    var run := Drive(NewWorkflow(max), commands);
    var marks := MarksOf(run.accepted);
    StageHasEvidence(marks);
    var stage := StageOf(marks);
    var s, v, a, d :| Certified(marks, stage.candidate, stage.reviewed, s, v, a, d);
    MarksSpeakOfCommands(run.accepted, stage.candidate, run.workflow.mode.value, stage.reviewed, s, v, a, d);
  }

  // ----- the two machines agree

  /** The command of the Rust machine with the same meaning, where there is one. */
  function Translated(c: Command): Option<Core.Command> {
    match c
    case Approve(passed) => Some(Core.Approve(passed))
    case ArchitectureAccepted => Some(Core.ArchitectureAccepted)
    case BeginRepair => Some(Core.BeginRepair)
    case Cancel => Some(Core.Cancel)
    case CandidateReady(id) => Some(Core.CandidateReady(id))
    case CompleteIntake => Some(Core.CompleteIntake)
    case Deliver => Some(Core.Deliver)
    case ExecutionFailed(_) => None
    case Pause => Some(Core.Pause)
    case Reject(target) => Some(Core.Reject(target))
    case Replan => Some(Core.ReplanExecution)
    case Resume => Some(Core.Resume)
    case ResumeBlocked(additional) =>
      if IsWhole(additional) && 0.0 <= additional <= 255.0 then Some(Core.ResumeBlocked(additional.Floor)) else None
    case ReviewsReady => Some(Core.ReviewsReady)
    case Route(mode) => Some(Core.Route(mode))
    case VerificationFailed(target) => Some(Core.VerificationRejected(target))
    case VerificationPassed => Some(Core.VerificationPassed)
  }

  function Twin(code: ErrorCode): Core.TransitionError {
    match code
    case GatesNotPassed => Core.MandatoryGateFailed
    case InvalidTransition => Core.InvalidTransition
    case NoCandidate => Core.MissingCandidate
    case NoRepairTarget => Core.MissingRepairTarget
    case OutOfRange => Core.InvalidAdditionalCycles
  }

  ghost predicate Same(w: Workflow, r: Core.Record) {
    && w.state == r.state && w.mode == r.mode && w.candidate == r.candidate && w.repairTarget == r.repairTarget
    && w.repairCycles == r.repairCycles && w.maxRepairCycles == r.maxRepairCycles && w.pausedFrom == r.pausedFrom
    && r.infrastructureBlockedFrom.None?
  }

  /** The budget a command would set still fits the Rust machine's byte. */
  predicate BudgetFits(w: Workflow, c: Command) {
    c.ResumeBlocked? && IsWhole(c.additionalCycles) ==> w.maxRepairCycles + c.additionalCycles.Floor <= 255
  }

  ghost predicate StepsAlike(w: Workflow, r: Core.Record, c: Command)
    requires Translated(c).Some?
  {
    match Apply(w, c)
    case Ok(next) => Core.Step(r, Translated(c).value).Ok? && Same(next, Core.Step(r, Translated(c).value).value.record)
    case Err(code) => Core.Step(r, Translated(c).value) == Err(Twin(code))
  }

  lemma SameRejection(w: Workflow, r: Core.Record, target: Target)
    requires Same(w, r) && r.repairCycles < Core.U8_MAX
    ensures Core.Rejected(r, target).Ok? && Same(Rejected(w, target), Core.Rejected(r, target).value.record)
  {}

  predicate IsControl(c: Command) {
    c.Pause? || c.Resume? || c.Cancel? || c.ResumeBlocked? || c.BeginRepair? || c.VerificationPassed? || c.Approve?
  }

  lemma SameControl(w: Workflow, r: Core.Record, c: Command)
    requires Sound(w) && BudgetSound(w) && Same(w, r) && IsControl(c) && Translated(c).Some? && BudgetFits(w, c)
    ensures StepsAlike(w, r, c)
  {
    hide Rejected, Core.Rejected;
    if c.BeginRepair? {
      assert
        w.repairTarget.Some? ==>
          w.repairTarget.value == Core.ToExecution || w.repairTarget.value == Core.ToArchitecture;
    }
  }

  lemma {:induction false} SameStep(w: Workflow, r: Core.Record, c: Command)
    requires Sound(w) && BudgetSound(w) && Same(w, r) && Translated(c).Some? && BudgetFits(w, c)
    ensures StepsAlike(w, r, c)
  {
    hide Rejected, Core.Rejected, Core.Extended, Core.Passed, IsWhole;
    if IsControl(c) {
      SameControl(w, r, c);
    } else {
      match c
      case VerificationFailed(target) => if w.state == Core.Verification { SameRejection(w, r, target); }
      case Reject(target) => if w.state == Core.Arbitration { SameRejection(w, r, target); }
      case _ =>
    }
  }

  function TranslatedAll(commands: seq<Command>): seq<Core.Command>
    requires forall i :: 0 <= i < |commands| ==> Translated(commands[i]).Some?
  {
    seq(|commands|, i requires 0 <= i < |commands| => Translated(commands[i]).value)
  }

  ghost predicate AllFit(max: int, commands: seq<Command>) {
    forall i :: 0 <= i < |commands| ==>
      Translated(commands[i]).Some? && BudgetFits(Drive(NewWorkflow(max), commands[..i]).workflow, commands[i])
  }

  /** On the commands both machines have, every run of one is a run of the other: the same commands are
      accepted and the workflows end alike. */
  lemma {:induction false} MachinesAgree(max: Core.U8, commands: seq<Command>)
    requires max >= 1 && AllFit(max, commands)
    ensures
      var mine, core := Drive(NewWorkflow(max), commands), CoreRuns.Drive(Core.Initial(max), TranslatedAll(commands));
      && Same(mine.workflow, core.record) && |mine.accepted| == |core.accepted|
      && forall i :: 0 <= i < |mine.accepted| ==> Translated(mine.accepted[i]) == Some(core.accepted[i])
  {
    hide Apply, Core.Step, Translated, Sound, BudgetSound, BudgetFits;
    if commands != [] {
      var n := |commands| - 1;
      forall i | 0 <= i < n ensures commands[..n][..i] == commands[..i] {}
      MachinesAgree(max, commands[..n]);
      assert TranslatedAll(commands)[..n] == TranslatedAll(commands[..n]);
      RunsAreSound(max, commands[..n]);
      assert commands[..n] == commands[..n][..n];
      SameStep(
        Drive(NewWorkflow(max), commands[..n]).workflow,
        CoreRuns.Drive(Core.Initial(max), TranslatedAll(commands[..n])).record, commands[n]);
    }
  }
}
