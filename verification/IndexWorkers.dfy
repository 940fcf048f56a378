/** The worker threads of crates/workflow-code-intel/src/index.rs: a shared counter, a bounded channel and one
    receiver, under every interleaving of their atomic steps. */
module IndexWorkers {
  import opened Sequences

  /** A worker looks at the cancelled flag, takes the next index, and holds a result until the channel has room. */
  datatype Worker = Checking | Fetching | Holding(index: nat) | Exited

  /** `failed` is set when the receiver meets an error: it raises the flag, stops and closes the channel. */
  datatype Pool = Pool(next: nat, workers: seq<Worker>, channel: seq<nat>, received: seq<nat>, failed: Option<nat>)

  datatype Event = Check(worker: nat) | Fetch(worker: nat) | Send(worker: nat) | Receive

  function Capacity(p: Pool): nat {
    2 * |p.workers|
  }

  predicate CanDo(p: Pool, e: Event) {
    match e
    case Check(w) => w < |p.workers| && p.workers[w] == Checking
    case Fetch(w) => w < |p.workers| && p.workers[w] == Fetching
    case Send(w) => w < |p.workers| && p.workers[w].Holding? && (p.failed.Some? || |p.channel| < Capacity(p))
    case Receive => p.failed.None? && p.channel != []
  }

  function Step(n: nat, fails: nat -> bool, p: Pool, e: Event): Pool
    requires CanDo(p, e)
  {
    match e
    case Check(w) => p.(workers := p.workers[w := if p.failed.Some? then Exited else Fetching])
    case Fetch(w) => p.(next := p.next + 1, workers := p.workers[w := if p.next < n then Holding(p.next) else Exited])
    case Send(w) =>
      if p.failed.Some? then p.(workers := p.workers[w := Exited])
      else p.(workers := p.workers[w := Checking], channel := p.channel + [p.workers[w].index])
    case Receive =>
      var index := p.channel[0];
      if fails(index) then p.(channel := p.channel[1..], failed := Some(index))
      else p.(channel := p.channel[1..], received := p.received + [index])
  }

  /** The scope of the threads ends when all have exited and the receiver has seen everything or given up. */
  predicate Finished(p: Pool) {
    (forall w :: 0 <= w < |p.workers| ==> p.workers[w] == Exited) && (p.failed.Some? || p.channel == [])
  }

  function Events(p: Pool): set<Event> {
    (set w: nat | w < |p.workers| :: Check(w)) + (set w: nat | w < |p.workers| :: Fetch(w))
    + (set w: nat | w < |p.workers| :: Send(w)) + {Receive}
  }

  function Enabled(p: Pool): set<Event> {
    set e | e in Events(p) && CanDo(p, e)
  }

  // ----- every index is in exactly one place

  ghost function Own(w: Worker, i: nat): nat {
    if w == Holding(i) then 1 else 0
  }

  /** How many workers hold the result for `i`. */
  ghost function HeldBy(workers: seq<Worker>, i: nat): nat {
    if workers == [] then 0 else HeldBy(workers[..|workers| - 1], i) + Own(workers[|workers| - 1], i)
  }

  lemma {:induction false} HeldUpdate(workers: seq<Worker>, w: nat, now: Worker, i: nat)
    requires w < |workers|
    ensures HeldBy(workers[w := now], i) + Own(workers[w], i) == HeldBy(workers, i) + Own(now, i)
  {
    var n := |workers| - 1;
    if w < n {
      assert workers[w := now][..n] == workers[..n][w := now];
      HeldUpdate(workers[..n], w, now, i);
    } else {
      assert workers[w := now][..n] == workers[..n];
    }
  }

  lemma {:induction false} NobodyHolds(workers: seq<Worker>, i: nat)
    requires forall w :: 0 <= w < |workers| ==> !workers[w].Holding?
    ensures HeldBy(workers, i) == 0
  {
    if workers != [] { NobodyHolds(workers[..|workers| - 1], i); }
  }

  function Range(n: nat): seq<nat> {
    seq(n, i => i)
  }

  ghost function Taken(n: nat, p: Pool): nat {
    if p.next < n then p.next else n
  }

  /** In how many places `i` is: received, in the channel, or held by a worker. */
  ghost function Places(p: Pool, i: nat): nat {
    multiset(p.received)[i] + multiset(p.channel)[i] + HeldBy(p.workers, i)
  }

  /** Every index taken so far is in exactly one place; once the receiver has failed, in at most one. */
  ghost predicate PlacedWell(n: nat, p: Pool, i: nat) {
    if p.failed.None? then Places(p, i) == if i < Taken(n, p) then 1 else 0
    else Places(p, i) <= if i < Taken(n, p) && i != p.failed.value then 1 else 0
  }

  ghost predicate Balanced(n: nat, p: Pool) {
    (forall i: nat :: PlacedWell(n, p, i)) && (p.failed.Some? ==> p.failed.value < Taken(n, p))
  }

  ghost predicate Honest(n: nat, fails: nat -> bool, p: Pool) {
    && (forall i :: i in p.received ==> !fails(i))
    && (p.failed.Some? ==> fails(p.failed.value))
    && (p.failed.None? && (exists w :: 0 <= w < |p.workers| && p.workers[w] == Exited) ==> p.next >= n)
  }

  lemma {:induction false} RangeMembers(n: nat, i: nat)
    ensures multiset(Range(n))[i] == if i < n then 1 else 0
  {
    if n > 0 {
      assert Range(n) == Range(n - 1) + [n - 1];
      RangeMembers(n - 1, i);
    } else {
      assert Range(0) == [];
    }
  }

  lemma StepPlaces(n: nat, fails: nat -> bool, p: Pool, e: Event, i: nat)
    requires CanDo(p, e) && PlacedWell(n, p, i) && (p.failed.Some? ==> p.failed.value < Taken(n, p))
    ensures PlacedWell(n, Step(n, fails, p, e), i)
  {
    hide HeldBy;
    var q := Step(n, fails, p, e);
    if e.Receive? {
      assert p.channel == [p.channel[0]] + p.channel[1..];
    } else {
      HeldUpdate(p.workers, e.worker, q.workers[e.worker], i);
    }
  }

  lemma StepBalanced(n: nat, fails: nat -> bool, p: Pool, e: Event)
    requires CanDo(p, e) && Balanced(n, p)
    ensures Balanced(n, Step(n, fails, p, e))
  {
    hide PlacedWell;
    forall i: nat ensures PlacedWell(n, Step(n, fails, p, e), i) {
      StepPlaces(n, fails, p, e, i);
    }
    if e.Receive? && fails(p.channel[0]) { ChannelTaken(n, p); }
  }

  lemma ChannelTaken(n: nat, p: Pool)
    requires p.channel != [] && PlacedWell(n, p, p.channel[0]) && p.failed.None?
    ensures p.channel[0] < Taken(n, p)
  {
    assert p.channel[0] in multiset(p.channel);
  }

  lemma StepHonest(n: nat, fails: nat -> bool, p: Pool, e: Event)
    requires CanDo(p, e) && Honest(n, fails, p)
    ensures Honest(n, fails, Step(n, fails, p, e))
  {
    var q := Step(n, fails, p, e);
    if q.failed.None? {
      forall w | 0 <= w < |q.workers| && q.workers[w] == Exited ensures q.next >= n {
        if p.workers[w] == Exited { assert p.next >= n; }
      }
    }
  }

  // ----- no deadlock, no livelock

  /** The bounded channel never blocks everybody: until the end some step can be taken. */
  lemma NeverStuck(p: Pool)
    requires |p.workers| > 0
    ensures Finished(p) || exists e :: e in Enabled(p)
  {
    if !Finished(p) {
      if w: nat :| w < |p.workers| && p.workers[w] != Exited {
        match p.workers[w]
        case Checking => assert Check(w) in Enabled(p);
        case Fetching => assert Fetch(w) in Enabled(p);
        case Holding(_) =>
          if CanDo(p, Send(w)) {
            assert Send(w) in Enabled(p);
          } else {
            assert CanDo(p, Receive) && Receive in Enabled(p);
          }
      } else {
        assert CanDo(p, Receive) && Receive in Enabled(p);
      }
    }
  }

  ghost function Effort(w: Worker): nat {
    match w case Checking => 2 case Fetching => 1 case Holding(_) => 4 case Exited => 0
  }

  ghost function TotalEffort(workers: seq<Worker>): nat {
    if workers == [] then 0 else TotalEffort(workers[..|workers| - 1]) + Effort(workers[|workers| - 1])
  }

  lemma {:induction false} EffortUpdate(workers: seq<Worker>, w: nat, now: Worker)
    requires w < |workers|
    ensures TotalEffort(workers[w := now]) + Effort(workers[w]) == TotalEffort(workers) + Effort(now)
  {
    var n := |workers| - 1;
    if w < n {
      assert workers[w := now][..n] == workers[..n][w := now];
      EffortUpdate(workers[..n], w, now);
    } else {
      assert workers[w := now][..n] == workers[..n];
    }
  }

  /** Work still to do; every step of every thread makes it less. */
  ghost function Remaining(n: nat, p: Pool): nat {
    5 * (n - Taken(n, p)) + TotalEffort(p.workers) + |p.channel|
  }

  lemma StepsLess(n: nat, fails: nat -> bool, p: Pool, e: Event)
    requires CanDo(p, e)
    ensures Remaining(n, Step(n, fails, p, e)) < Remaining(n, p)
  {
    hide TotalEffort;
    var q := Step(n, fails, p, e);
    if !e.Receive? { EffortUpdate(p.workers, e.worker, q.workers[e.worker]); }
  }

  // ----- the outcome

  /** Every index indexed and received exactly once. */
  ghost predicate ExactlyOnce(n: nat, received: seq<nat>) {
    multiset(received) == multiset(Range(n))
  }

  lemma OutcomeFor(n: nat, fails: nat -> bool, p: Pool, i: nat)
    requires Finished(p) && Balanced(n, p) && Honest(n, fails, p) && |p.workers| > 0
    ensures p.failed.None? ==> multiset(p.received)[i] == multiset(Range(n))[i] && (i < n ==> !fails(i))
  {
    NobodyHolds(p.workers, i);
    RangeMembers(n, i);
    assert PlacedWell(n, p, i);
    if p.failed.None? {
      assert p.workers[0] == Exited;
      assert p.channel == [] && Taken(n, p) == n;
      if i < n { assert i in multiset(p.received); }
    }
  }

  lemma Outcome(n: nat, fails: nat -> bool, p: Pool)
    requires Finished(p) && Balanced(n, p) && Honest(n, fails, p) && |p.workers| > 0
    ensures p.failed.None? ==> ExactlyOnce(n, p.received) && forall i: nat :: i < n ==> !fails(i)
    ensures p.failed.Some? ==> p.failed.value < n && fails(p.failed.value)
  {
    hide Finished, Range;
    if p.failed.None? {
      forall i: nat ensures multiset(p.received)[i] == multiset(Range(n))[i] && (i < n ==> !fails(i)) {
        OutcomeFor(n, fails, p, i);
      }
    }
  }

  /** Whatever the scheduler does, the pool finishes; it succeeds exactly when no index fails, and then every
      index has been received exactly once. */
  method RunPool(n: nat, fails: nat -> bool, workers: nat) returns (failed: Option<nat>, received: seq<nat>)
    requires workers > 0
    ensures failed.None? <==> forall i: nat :: i < n ==> !fails(i)
    ensures failed.None? ==> ExactlyOnce(n, received)
    ensures failed.Some? ==> failed.value < n && fails(failed.value)
  {
    hide Balanced, Honest, Enabled, Finished;
    var p := Pool(0, seq(workers, _ => Checking), [], [], None);
    Started(n, fails, p);
    while !Finished(p)
      invariant |p.workers| == workers && Balanced(n, p) && Honest(n, fails, p)
      decreases Remaining(n, p)
    {
      NeverStuck(p);
      var e :| e in Enabled(p);
      EnabledCan(p, e);
      StepBalanced(n, fails, p, e);
      StepHonest(n, fails, p, e);
      StepsLess(n, fails, p, e);
      p := Step(n, fails, p, e);
    }
    Outcome(n, fails, p);
    return p.failed, p.received;
  }

  lemma EnabledCan(p: Pool, e: Event)
    requires e in Enabled(p)
    ensures CanDo(p, e)
  {}

  lemma Started(n: nat, fails: nat -> bool, p: Pool)
    requires p.next == 0 && p.channel == [] && p.received == [] && p.failed.None?
    requires forall w :: 0 <= w < |p.workers| ==> p.workers[w] == Checking
    ensures Balanced(n, p) && Honest(n, fails, p)
  {
    forall i: nat ensures PlacedWell(n, p, i) {
      NobodyHolds(p.workers, i);
    }
  }
}
