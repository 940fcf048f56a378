/** Pauses, infrastructure blocks and ends: what a workflow does while it stands still, and that it goes on as if
    nothing had happened. */
module CoreWorkflowSuspension {
  import opened Sequences
  import opened CoreWorkflow
  import opened CoreWorkflowRuns

  /** The two ways to stand still, and how to go on. */
  datatype Suspension = ByPause | ByInfrastructure

  function Suspend(s: Suspension): Command {
    match s case ByPause => Pause case ByInfrastructure => BlockInfrastructure
  }

  function GoOn(s: Suspension): Command {
    match s case ByPause => Resume case ByInfrastructure => ResumeInfrastructure
  }

  predicate IsSuspended(r: Record, s: Suspension) {
    match s
    case ByPause => r.state == Paused
    case ByInfrastructure => r.state == Blocked && r.infrastructureBlockedFrom.Some?
  }

  /** From every sound state that accepts it, a suspension is undone by going on: the record is again the same, field
      by field, and the log says just that. */
  lemma SuspendAndGoOn(r: Record, s: Suspension)
    requires Sound(r) && Step(r, Suspend(s)).Ok?
    ensures
      var held := Step(r, Suspend(s)).value;
      && IsSuspended(held.record, s) && held.events == [StateChanged(r.state, held.record.state)]
      && Step(held.record, GoOn(s)) == Ok(Accepted(r, [StateChanged(held.record.state, r.state)]))
  {}

  /** Which states can be suspended. */
  lemma SuspendedFrom(r: Record)
    ensures Step(r, BlockInfrastructure).Ok? <==>
              r.state != Paused && r.state != Blocked && r.state != Completed && r.state != Cancelled
    ensures Step(r, Pause).Ok? <==>
              Step(r, BlockInfrastructure).Ok? && r.state != Verification && r.state != Delivery
  {}

  /** A suspended workflow accepts nothing but going on and being cancelled. */
  lemma OnlyGoOnOrCancel(r: Record, s: Suspension, c: Command)
    requires Sound(r) && IsSuspended(r, s)
    ensures Step(r, c).Ok? <==> c == GoOn(s) || c == Cancel
    ensures Step(r, c).Err? ==> Step(r, c).error == InvalidTransition
  {}

  /** A workflow that used up its repair cycles accepts nothing but more of them and being cancelled. */
  lemma OnlyExtendOrCancel(r: Record, c: Command)
    requires Sound(r) && r.state == Blocked && r.infrastructureBlockedFrom.None?
    ensures Step(r, c).Ok? <==>
              c == Cancel || (c.ResumeBlocked? && 0 < c.additionalCycles <= U8_MAX - r.maxRepairCycles)
  {}

  /** Asking for a retry of the infrastructure changes nothing, and is accepted exactly where a block would be. */
  lemma RetryChangesNothing(r: Record)
    ensures Step(r, RetryInfrastructure).Ok? <==> Step(r, BlockInfrastructure).Ok?
    ensures
      Step(r, RetryInfrastructure).Ok? ==>
        Step(r, RetryInfrastructure).value == Accepted(r, [InfrastructureRetryAccepted])
  {}

  /** Cancelling is possible until the end, and keeps what was reached: mode, candidate, budget. */
  lemma CancelKeeps(r: Record)
    ensures Step(r, Cancel).Ok? <==> r.state != Completed && r.state != Cancelled
    ensures
      Step(r, Cancel).Ok? ==>
        var done := Step(r, Cancel).value.record;
        && done.state == Cancelled && done.pausedFrom.None?
        && done == r.(state := Cancelled, pausedFrom := None)
  {}

  // ----- over whole runs

  lemma {:induction false} DriveConcat(start: Record, a: seq<Command>, b: seq<Command>)
    ensures Drive(start, a + b).record == Drive(Drive(start, a).record, b).record
  {
    hide Step;
    if b == [] {
      assert a + b == a;
    } else {
      var n := |b| - 1;
      assert (a + b)[..|a + b| - 1] == a + b[..n] && (a + b)[|a + b| - 1] == b[n];
      DriveConcat(start, a, b[..n]);
    }
  }

  /** Once completed or cancelled, a workflow stays as it is whatever commands follow. */
  lemma {:induction false} EndIsFinal(r: Record, commands: seq<Command>)
    requires IsTerminal(r.state)
    ensures Drive(r, commands) == Driven(r, [])
  {
    hide Step;
    if commands != [] {
      var n := |commands| - 1;
      EndIsFinal(r, commands[..n]);
      NothingAtTheEnd(r, commands[n]);
    }
  }

  lemma NothingAtTheEnd(r: Record, c: Command)
    requires IsTerminal(r.state)
    ensures Step(r, c).Err?
  {}

  /** While suspended, whatever other commands are tried is refused. */
  lemma {:induction false} StandsStill(r: Record, s: Suspension, noise: seq<Command>)
    requires Sound(r) && IsSuspended(r, s) && GoOn(s) !in noise && Cancel !in noise
    ensures Drive(r, noise) == Driven(r, [])
  {
    hide Step, Sound, IsSuspended;
    if noise != [] {
      var n := |noise| - 1;
      assert noise[n] in noise && forall c :: c in noise[..n] ==> c in noise;
      StandsStill(r, s, noise[..n]);
      OnlyGoOnOrCancel(r, s, noise[n]);
    }
  }

  /** In every run, taking out a suspension with all that was tried in between changes no field of the outcome. */
  lemma SuspensionIsTransparent(
      max: U8, before: seq<Command>, s: Suspension, noise: seq<Command>, after: seq<Command>)
    requires max != 0 && GoOn(s) !in noise && Cancel !in noise
    requires Step(Drive(Initial(max), before).record, Suspend(s)).Ok?
    ensures Drive(Initial(max), before + [Suspend(s)] + noise + [GoOn(s)] + after).record
         == Drive(Initial(max), before + after).record
  {
    hide Step, Sound, IsSuspended, Drive;
    var start, r := Initial(max), Drive(Initial(max), before).record;
    RunsAreSound(max, before);
    SuspendAndGoOn(r, s);
    var held := Step(r, Suspend(s)).value.record;
    StepSound(r, Suspend(s));
    DriveOne(r, Suspend(s));
    StandsStill(held, s, noise);
    DriveOne(held, GoOn(s));
    DriveConcat(start, before, [Suspend(s)]);
    DriveConcat(start, before + [Suspend(s)], noise);
    DriveConcat(start, before + [Suspend(s)] + noise, [GoOn(s)]);
    DriveConcat(start, before + [Suspend(s)] + noise + [GoOn(s)], after);
    DriveConcat(start, before, after);
  }

  lemma DriveOne(r: Record, c: Command)
    ensures Step(r, c).Ok? ==> Drive(r, [c]).record == Step(r, c).value.record
  {
    hide Step;
    assert [c][..0] == [] && [c][0] == c;
    assert Drive(r, []) == Driven(r, []);
  }
}
