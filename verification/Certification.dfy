/** What it takes for a candidate to be delivered, said without any workflow state: the marks that accepted
    commands leave behind, and the order in which they must come. */
module Certification {
  import opened Sequences

  type CandidateId = nat

  datatype Mark =
    | Selected(candidate: CandidateId)
    | Verified
    | Reviewed
    | Approved
    | Delivered
    | Discarded
    | Unrelated

  /** How far the last selected candidate has come. */
  datatype Stage =
    | Nothing
    | Chosen(candidate: CandidateId)
    | Checked(candidate: CandidateId, reviewed: bool)
    | Cleared(candidate: CandidateId, reviewed: bool)
    | Landed(candidate: CandidateId, reviewed: bool)

  function Advance(stage: Stage, mark: Mark): Stage {
    match mark
    case Selected(c) => Chosen(c)
    case Verified => if stage.Chosen? then Checked(stage.candidate, false) else Nothing
    case Reviewed => if stage.Checked? then Checked(stage.candidate, true) else Nothing
    case Approved => if stage.Checked? then Cleared(stage.candidate, stage.reviewed) else Nothing
    case Delivered => if stage.Cleared? then Landed(stage.candidate, stage.reviewed) else Nothing
    case Discarded => Nothing
    case Unrelated => stage
  }

  function StageOf(marks: seq<Mark>): Stage {
    if marks == [] then Nothing else Advance(StageOf(marks[..|marks| - 1]), marks[|marks| - 1])
  }

  lemma StageNext(marks: seq<Mark>, mark: Mark)
    ensures StageOf(marks + [mark]) == Advance(StageOf(marks), mark)
  {
    assert (marks + [mark])[..|marks + [mark]| - 1] == marks;
  }

  /** `marks[i]` selects `c`, and nothing later selects or discards. */
  ghost predicate LastSelection(marks: seq<Mark>, i: nat, c: CandidateId) {
    && i < |marks| && marks[i] == Selected(c)
    && forall k :: i < k < |marks| ==> !marks[k].Selected? && !marks[k].Discarded?
  }

  ghost predicate Certified(
      marks: seq<Mark>, c: CandidateId, reviewed: bool, select: nat, verify: nat, approve: nat, deliver: nat)
  {
    && LastSelection(marks, select, c)
    && select < verify < approve < deliver < |marks|
    && marks[verify] == Verified && marks[approve] == Approved && marks[deliver] == Delivered
    && (reviewed ==> exists review :: verify < review < approve && marks[review] == Reviewed)
  }

  ghost predicate Evidence(marks: seq<Mark>, stage: Stage) {
    match stage
    case Nothing => true
    case Chosen(c) => exists s :: LastSelection(marks, s, c)
    case Checked(c, reviewed) => exists s, v :: CheckedBy(marks, c, reviewed, s, v)
    case Cleared(c, reviewed) => exists s, v, a :: ClearedBy(marks, c, reviewed, s, v, a)
    case Landed(c, reviewed) => exists s, v, a, d :: Certified(marks, c, reviewed, s, v, a, d)
  }

  ghost predicate CheckedBy(marks: seq<Mark>, c: CandidateId, reviewed: bool, s: nat, v: nat) {
    && LastSelection(marks, s, c) && s < v < |marks| && marks[v] == Verified
    && (reviewed ==> exists r :: v < r < |marks| && marks[r] == Reviewed)
  }

  ghost predicate ClearedBy(marks: seq<Mark>, c: CandidateId, reviewed: bool, s: nat, v: nat, a: nat) {
    && LastSelection(marks, s, c) && s < v < a < |marks| && marks[v] == Verified && marks[a] == Approved
    && (reviewed ==> exists r :: v < r < a && marks[r] == Reviewed)
  }

  lemma SelectionKept(before: seq<Mark>, mark: Mark, s: nat, c: CandidateId)
    requires LastSelection(before, s, c) && !mark.Selected? && !mark.Discarded?
    ensures LastSelection(before + [mark], s, c)
  {}

  lemma EvidenceNext(before: seq<Mark>, stage: Stage, mark: Mark)
    requires Evidence(before, stage)
    ensures Evidence(before + [mark], Advance(stage, mark))
  {
    var marks, n := before + [mark], |before|;
    assert marks[n] == mark && forall k :: 0 <= k < n ==> marks[k] == before[k];
    match (stage, mark)
    case (_, Selected(c)) => assert LastSelection(marks, n, c);
    case (Chosen(c), Verified) =>
      var s :| LastSelection(before, s, c);
      SelectionKept(before, mark, s, c);
      assert CheckedBy(marks, c, false, s, n);
    case (Chosen(c), Unrelated) =>
      var s :| LastSelection(before, s, c);
      SelectionKept(before, mark, s, c);
    case (Checked(c, reviewed), Reviewed) =>
      var s, v :| CheckedBy(before, c, reviewed, s, v);
      SelectionKept(before, mark, s, c);
      assert CheckedBy(marks, c, true, s, v);
    case (Checked(c, reviewed), Approved) =>
      var s, v :| CheckedBy(before, c, reviewed, s, v);
      SelectionKept(before, mark, s, c);
      assert ClearedBy(marks, c, reviewed, s, v, n);
    case (Checked(c, reviewed), Unrelated) =>
      var s, v :| CheckedBy(before, c, reviewed, s, v);
      SelectionKept(before, mark, s, c);
      assert CheckedBy(marks, c, reviewed, s, v);
    case (Cleared(c, reviewed), Delivered) =>
      var s, v, a :| ClearedBy(before, c, reviewed, s, v, a);
      SelectionKept(before, mark, s, c);
      assert Certified(marks, c, reviewed, s, v, a, n);
    case (Cleared(c, reviewed), Unrelated) =>
      var s, v, a :| ClearedBy(before, c, reviewed, s, v, a);
      SelectionKept(before, mark, s, c);
      assert ClearedBy(marks, c, reviewed, s, v, a);
    case (Landed(c, reviewed), Unrelated) =>
      var s, v, a, d :| Certified(before, c, reviewed, s, v, a, d);
      SelectionKept(before, mark, s, c);
      assert Certified(marks, c, reviewed, s, v, a, d);
    case _ =>
  }

  /** A stage is reached only by marks in the right order after the last selection. */
  lemma {:induction false} StageHasEvidence(marks: seq<Mark>)
    ensures Evidence(marks, StageOf(marks))
  {
    hide Evidence, Advance;
    if marks != [] {
      var n := |marks| - 1;
      StageHasEvidence(marks[..n]);
      EvidenceNext(marks[..n], StageOf(marks[..n]), marks[n]);
      assert marks[..n] + [marks[n]] == marks;
    } else {
      NoEvidenceNeeded();
    }
  }

  lemma NoEvidenceNeeded()
    ensures Evidence([], Nothing)
  {}
}
