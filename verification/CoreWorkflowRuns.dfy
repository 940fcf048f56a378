/** What every sequence of commands keeps in the workflow machine, and what its event log records. */
module CoreWorkflowRuns {
  import opened Sequences
  import opened Certification
  import opened CoreWorkflow

  // ----- the invariant of every run

  /** The state that a pause or an infrastructure block suspends. */
  function Effective(r: Record): WorkflowState {
    if r.state == Paused && r.pausedFrom.Some? then r.pausedFrom.value
    else if r.state == Blocked && r.infrastructureBlockedFrom.Some? then r.infrastructureBlockedFrom.value
    else r.state
  }

  predicate NeedsCandidate(s: WorkflowState) {
    s in {Verification, IndependentReviews, Arbitration, Delivery, Completed}
  }

  predicate NeedsMode(s: WorkflowState) {
    NeedsCandidate(s) || s in {QuickExecution, Architecture, Execution, Repair}
  }

  ghost predicate SuspensionSound(r: Record) {
    && (r.state == Paused ==> r.pausedFrom.Some? && CanPause(r.pausedFrom.value))
    && (r.pausedFrom.Some? ==> r.state == Paused)
    && (r.infrastructureBlockedFrom.Some? ==> CanBlockInfrastructure(r.infrastructureBlockedFrom.value))
    && (r.infrastructureBlockedFrom.Some? ==> r.state == Blocked || r.state == Cancelled)
  }

  /** The budget is used up exactly while the workflow is blocked for repair, or cancelled from there. */
  ghost predicate BudgetSound(r: Record) {
    && r.repairCycles <= r.maxRepairCycles
    && (r.repairCycles == r.maxRepairCycles ==>
          (r.state == Blocked && r.infrastructureBlockedFrom.None?) || r.state == Cancelled)
    && (r.state == Blocked && r.infrastructureBlockedFrom.None? ==> r.repairCycles == r.maxRepairCycles)
  }

  ghost predicate FieldsSound(r: Record) {
    var s := Effective(r);
    && (NeedsCandidate(s) ==> r.candidate.Some?)
    && (NeedsMode(s) ==> r.mode.Some?)
    && (s == IndependentReviews ==> r.mode == Some(Full))
    && (s == Repair || (s == Blocked && r.infrastructureBlockedFrom.None?) ==> r.repairTarget.Some?)
    && (s in {Repair, Blocked} ==> r.mode.Some?)
  }

  ghost predicate Sound(r: Record) {
    SuspensionSound(r) && BudgetSound(r) && FieldsSound(r)
  }

  lemma StepSound(r: Record, c: Command)
    requires Sound(r)
    ensures Step(r, c).Ok? ==> Sound(Step(r, c).value.record)
  {}

  /** Which errors a run can meet: a candidate, a repair target and room for a repair cycle are never missing. */
  lemma ErrorsOfSoundRuns(r: Record, c: Command)
    requires Sound(r) && Step(r, c).Err?
    ensures Step(r, c).error != MissingCandidate && Step(r, c).error != MissingRepairTarget
    ensures
      Step(r, c).error == RepairBudgetOverflow ==> c.ResumeBlocked? && r.maxRepairCycles + c.additionalCycles > U8_MAX
  {}

  // ----- runs

  /** Commands one after another. A refused command changes nothing; the accepted ones are listed. */
  datatype Driven = Driven(record: Record, accepted: seq<Command>)

  function Drive(start: Record, commands: seq<Command>): Driven {
    if commands == [] then Driven(start, [])
    else
      var n := |commands| - 1;
      var before := Drive(start, commands[..n]);
      match Step(before.record, commands[n])
      case Ok(done) => Driven(done.record, before.accepted + [commands[n]])
      case Err(_) => before
  }

  function MarkOf(c: Command): Mark {
    match c
    case CandidateReady(id) => Selected(id)
    case VerificationPassed => Verified
    case ReviewsReady => Reviewed
    case Approve(_) => Approved
    case Deliver => Delivered
    case VerificationFailed => Discarded
    case VerificationRejected(_) => Discarded
    case Reject(_) => Discarded
    case BeginRepair => Discarded
    case _ => Unrelated
  }

  function MarksOf(accepted: seq<Command>): seq<Mark> {
    seq(|accepted|, i requires 0 <= i < |accepted| => MarkOf(accepted[i]))
  }

  /** The stage of the current candidate is the one the state needs. */
  ghost predicate StageMatches(r: Record, stage: Stage) {
    match Effective(r)
    case Verification => stage.Chosen? && r.candidate == Some(stage.candidate)
    case IndependentReviews => stage.Checked? && r.candidate == Some(stage.candidate)
    case Arbitration =>
      stage.Checked? && r.candidate == Some(stage.candidate) && (r.mode == Some(Full) ==> stage.reviewed)
    case Delivery => stage.Cleared? && r.candidate == Some(stage.candidate) && (r.mode == Some(Full) ==> stage.reviewed)
    case Completed => stage.Landed? && r.candidate == Some(stage.candidate) && (r.mode == Some(Full) ==> stage.reviewed)
    case _ => true
  }

  lemma StepMatches(r: Record, stage: Stage, c: Command)
    requires Sound(r) && StageMatches(r, stage) && Step(r, c).Ok?
    ensures StageMatches(Step(r, c).value.record, Advance(stage, MarkOf(c)))
    ensures c.Approve? ==> c.mandatoryGatesPassed
  {}

  ghost predicate GatesPassed(accepted: seq<Command>) {
    forall i :: 0 <= i < |accepted| && accepted[i].Approve? ==> accepted[i].mandatoryGatesPassed
  }

  lemma {:induction false} RunsAreSound(max: U8, commands: seq<Command>)
    requires max != 0
    ensures Sound(Drive(Initial(max), commands).record)
    ensures StageMatches(Drive(Initial(max), commands).record, StageOf(MarksOf(Drive(Initial(max), commands).accepted)))
    ensures GatesPassed(Drive(Initial(max), commands).accepted)
  {
    hide Step, Sound, StageMatches, Advance, StageOf;
    if commands == [] {
      InitialSound(max);
    } else {
      var n := |commands| - 1;
      RunsAreSound(max, commands[..n]);
      var before := Drive(Initial(max), commands[..n]);
      if Step(before.record, commands[n]).Ok? {
        StepSound(before.record, commands[n]);
        StepMatches(before.record, StageOf(MarksOf(before.accepted)), commands[n]);
        StageNext(MarksOf(before.accepted), MarkOf(commands[n]));
        assert MarksOf(before.accepted + [commands[n]]) == MarksOf(before.accepted) + [MarkOf(commands[n])];
      }
    }
  }

  lemma InitialSound(max: U8)
    requires max != 0
    ensures Sound(Initial(max)) && StageMatches(Initial(max), StageOf(MarksOf([])))
  {}

  /** `accepted` selects `c`, then verifies, reviews in full mode, approves with the gates passed, and delivers it;
      after the selection no candidate is selected, rejected or sent to repair. */
  ghost predicate DeliveredInOrder(
      accepted: seq<Command>, c: CandidateId, mode: WorkflowMode, select: nat, verify: nat, approve: nat,
      deliver: nat)
  {
    && select < verify < approve < deliver < |accepted|
    && accepted[select] == CandidateReady(c)
    && accepted[verify] == VerificationPassed
    && accepted[approve] == Approve(true)
    && accepted[deliver] == Deliver
    && (mode == Full ==> exists review :: verify < review < approve && accepted[review] == ReviewsReady)
    && forall k :: select < k < |accepted| ==>
         !accepted[k].CandidateReady? && !accepted[k].VerificationFailed? && !accepted[k].VerificationRejected?
         && !accepted[k].Reject? && !accepted[k].BeginRepair?
  }

  lemma MarksSpeakOfCommands(
      accepted: seq<Command>, c: CandidateId, mode: WorkflowMode, reviewed: bool, s: nat, v: nat, a: nat, d: nat)
    requires
      GatesPassed(accepted) && Certified(MarksOf(accepted), c, reviewed, s, v, a, d) && (mode == Full ==> reviewed)
    ensures DeliveredInOrder(accepted, c, mode, s, v, a, d)
  {
    var marks := MarksOf(accepted);
    assert marks[s] == MarkOf(accepted[s]) && marks[v] == MarkOf(accepted[v]);
    assert marks[a] == MarkOf(accepted[a]) && marks[d] == MarkOf(accepted[d]);
    if mode == Full {
      var review :| v < review < a && marks[review] == Reviewed;
      assert MarkOf(accepted[review]) == Reviewed;
    }
    forall k | s < k < |accepted| ensures !accepted[k].CandidateReady? && MarkOf(accepted[k]) != Discarded {
      assert marks[k] == MarkOf(accepted[k]);
    }
  }

  /** Whatever commands are tried, a completed workflow delivered its current candidate in the required order,
      across any pauses and infrastructure blocks. */
  lemma CompletedMeansCertified(max: U8, commands: seq<Command>)
    requires max != 0 && Drive(Initial(max), commands).record.state == Completed
    ensures
      var run := Drive(Initial(max), commands);
      && run.record.candidate.Some? && run.record.mode.Some?
      && exists s, v, a, d ::
           DeliveredInOrder(run.accepted, run.record.candidate.value, run.record.mode.value, s, v, a, d)
  {
    hide Step, Advance, StageOf, DeliveredInOrder, Certified, Drive;
    RunsAreSound(max, commands);
    var run := Drive(Initial(max), commands);
    var marks := MarksOf(run.accepted);
    StageHasEvidence(marks);
    var stage := StageOf(marks);
    var s, v, a, d :| Certified(marks, stage.candidate, stage.reviewed, s, v, a, d);
    MarksSpeakOfCommands(run.accepted, stage.candidate, run.record.mode.value, stage.reviewed, s, v, a, d);
  }

  // ----- the event log

  /** What can be read off a log. */
  datatype View = View(
    state: WorkflowState, mode: Option<WorkflowMode>, candidate: Option<CandidateId>, repairCycles: U8,
    maxRepairCycles: U8)

  function ViewOf(r: Record): View {
    View(r.state, r.mode, r.candidate, r.repairCycles, r.maxRepairCycles)
  }

  /** The mode is decided by where routing leads; a repair that begins drops the candidate. */
  function Read(v: View, e: Event): View {
    match e
    case StateChanged(from, to) =>
      var mode :=
        if from == Routing && to == QuickExecution then Some(Quick)
        else if from == Routing && to == Architecture then Some(Full)
        else v.mode;
      var candidate := if from == Repair && (to == Execution || to == Architecture) then None else v.candidate;
      v.(state := to, mode := mode, candidate := candidate)
    case CandidateSelected(c) => v.(candidate := Some(c))
    case RepairCycleConsumed(cycle, maximum) => v.(repairCycles := cycle, maxRepairCycles := maximum)
    case RepairBudgetExtended(_, current) => v.(maxRepairCycles := current)
    case InfrastructureRetryAccepted => v
  }

  function ReadAll(v: View, log: seq<Event>): View {
    if log == [] then v else Read(ReadAll(v, log[..|log| - 1]), log[|log| - 1])
  }

  lemma {:induction false} ReadConcat(v: View, a: seq<Event>, b: seq<Event>)
    ensures ReadAll(v, a + b) == ReadAll(ReadAll(v, a), b)
  {
    if b == [] {
      assert a + b == a;
    } else {
      var n := |b| - 1;
      assert (a + b)[..|a + b| - 1] == a + b[..n];
      ReadConcat(v, a, b[..n]);
    }
  }

  lemma ReadTwo(v: View, a: Event, b: Event)
    ensures ReadAll(v, [a]) == Read(v, a) && ReadAll(v, [a, b]) == Read(Read(v, a), b)
  {
    assert [a, b][..1] == [a] && [a][..0] == [];
  }

  /** The events of one step, read after what came before, give the new view. */
  lemma StepIsRead(r: Record, c: Command)
    requires Step(r, c).Ok?
    ensures ReadAll(ViewOf(r), Step(r, c).value.events) == ViewOf(Step(r, c).value.record)
  {
    hide ReadAll;
    var events := Step(r, c).value.events;
    StepEvents(r, c);
    ReadTwo(ViewOf(r), events[0], events[0]);
    if |events| == 2 {
      ReadTwo(ViewOf(r), events[0], events[1]);
      assert events == [events[0], events[1]];
    } else {
      assert events == [events[0]];
    }
  }

  lemma StepEvents(r: Record, c: Command)
    requires Step(r, c).Ok?
    ensures 1 <= |Step(r, c).value.events| <= 2
  {}

  ghost predicate IsLinked(log: seq<Event>, start: WorkflowState, end: WorkflowState) {
    if log == [] then start == end
    else match log[|log| - 1]
      case StateChanged(from, to) => to == end && IsLinked(log[..|log| - 1], start, from)
      case _ => IsLinked(log[..|log| - 1], start, end)
  }

  lemma {:induction false} LinkedConcat(
      a: seq<Event>, b: seq<Event>, start: WorkflowState, middle: WorkflowState, end: WorkflowState)
    requires IsLinked(a, start, middle) && IsLinked(b, middle, end)
    ensures IsLinked(a + b, start, end)
  {
    if b == [] {
      assert a + b == a;
    } else {
      var n := |b| - 1;
      assert (a + b)[..|a + b| - 1] == a + b[..n] && (a + b)[|a + b| - 1] == b[n];
      match b[n]
      case StateChanged(from, _) => LinkedConcat(a, b[..n], start, middle, from);
      case _ => LinkedConcat(a, b[..n], start, middle, end);
    }
  }

  lemma LinkedOne(e: Event, start: WorkflowState, end: WorkflowState)
    ensures IsLinked([e], start, end) <==> if e.StateChanged? then e.from == start && e.to == end else start == end
  {
    assert [e][..0] == [];
  }

  lemma StepIsLinked(r: Record, c: Command)
    requires Step(r, c).Ok?
    ensures IsLinked(Step(r, c).value.events, r.state, Step(r, c).value.record.state)
  {
    hide IsLinked;
    var events, end := Step(r, c).value.events, Step(r, c).value.record.state;
    StepEvents(r, c);
    if |events| == 2 {
      LinkedOne(events[0], r.state, r.state);
      LinkedOne(events[1], r.state, end);
      LinkedConcat([events[0]], [events[1]], r.state, r.state, end);
      assert events == [events[0]] + [events[1]];
    } else {
      LinkedOne(events[0], r.state, end);
      assert events == [events[0]];
    }
  }
}
