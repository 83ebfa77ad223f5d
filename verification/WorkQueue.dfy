/**
 The counters and the bounded channel of one scheduler instance. The scan goroutine is the only
 producer; any number of workers and direct callers interleave with it. Each atomic load, add,
 send and receive is one action.
 */
module WorkQueue {

  /** Where the scan goroutine stands in `ClaimDueWorks`, `readWorks` and `enqueuWork`. */
  datatype Scan =
    | Resting
    | LoadedRunning(running: int)
    | Limited(limit: int)
    | Batch(left: nat)
    | Announced(left: nat)

  datatype State = State(
    running: int,          // runningWorkCount
    queueSize: int,        // workQueueSize
    queued: nat,           // items in the channel
    scan: Scan,
    received: set<nat>,    // workers that took an item and have not yet decremented workQueueSize
    busy: set<nat>,        // workers before the outcome of AcquireWork
    holding: set<nat>,     // workers between a successful AcquireWork and ReleaseWork
    cancelled: nat)        // items announced but given up at shutdown

  datatype Action =
    | LoadRunning
    | LoadQueueSize
    | Claim(count: nat)
    | Announce
    | Send
    | Cancel
    | Receive(w: nat)
    | Decrement(w: nat)
    | Direct(w: nat)
    | Acquire(w: nat)
    | Skip(w: nat)
    | Release(w: nat)

  const START := State(0, 0, 0, Resting, {}, {}, {}, 0)

  predicate Free(s: State, w: nat) {
    w !in s.received && w !in s.busy && w !in s.holding
  }

  predicate Enabled(bucket: nat, s: State, a: Action) {
    match a
    case LoadRunning => s.scan.Resting?
    case LoadQueueSize => s.scan.LoadedRunning?
    case Claim(count) => s.scan.Limited? && count <= s.scan.limit
    case Announce => s.scan.Batch? && s.scan.left > 0
    case Send => s.scan.Announced? && s.queued < bucket
    case Cancel => s.scan.Announced?
    case Receive(w) => Free(s, w) && s.queued > 0
    case Decrement(w) => w in s.received
    case Direct(w) => Free(s, w)
    case Acquire(w) => w in s.busy
    case Skip(w) => w in s.busy
    case Release(w) => w in s.holding
  }

  function Apply(bucket: nat, s: State, a: Action): State
    requires Enabled(bucket, s, a)
  {
    match a
    case LoadRunning => s.(scan := LoadedRunning(s.running))
    case LoadQueueSize =>
      var limit := bucket - s.scan.running - s.queueSize;
      s.(scan := if limit <= 0 then Resting else Limited(limit))
    case Claim(count) => s.(scan := if count == 0 then Resting else Batch(count))
    case Announce => s.(queueSize := s.queueSize + 1, scan := Announced(s.scan.left))
    case Send =>
      s.(queued := s.queued + 1, scan := if s.scan.left <= 1 then Resting else Batch(s.scan.left - 1))
    case Cancel => s.(scan := Resting, cancelled := s.cancelled + 1)
    case Receive(w) => s.(queued := s.queued - 1, received := s.received + {w})
    case Decrement(w) => s.(queueSize := s.queueSize - 1, received := s.received - {w}, busy := s.busy + {w})
    case Direct(w) => s.(busy := s.busy + {w})
    case Acquire(w) => s.(running := s.running + 1, busy := s.busy - {w}, holding := s.holding + {w})
    case Skip(w) => s.(busy := s.busy - {w})
    case Release(w) => s.(running := s.running - 1, holding := s.holding - {w})
  }

  predicate Feasible(bucket: nat, s: State, run: seq<Action>)
    decreases |run|
  {
    run == [] || (Enabled(bucket, s, run[0]) && Feasible(bucket, Apply(bucket, s, run[0]), run[1..]))
  }

  function After(bucket: nat, s: State, run: seq<Action>): State
    requires Feasible(bucket, s, run)
    decreases |run|
  {
    if run == [] then s else After(bucket, Apply(bucket, s, run[0]), run[1..])
  }

  /** Items announced and neither received nor given up. */
  function InTransit(s: State): int {
    s.queued + |s.received| + s.cancelled + if s.scan.Announced? then 1 else 0
  }

  /** Room the scan has reserved but not yet announced. */
  function Reserved(s: State): int {
    match s.scan
    case Limited(limit) => limit
    case Batch(left) => left
    case Announced(left) => left - 1
    case _ => 0
  }

  predicate Inv(bucket: nat, s: State) {
    && s.running == |s.holding|
    && s.queueSize == InTransit(s)
    && s.queueSize + Reserved(s) <= bucket
    && s.received !! s.busy && s.received !! s.holding && s.busy !! s.holding
    && (s.scan.LoadedRunning? ==> s.scan.running >= 0)
    && (s.scan.Announced? || s.scan.Batch? ==> s.scan.left > 0)
    && (s.scan.Limited? ==> s.scan.limit > 0)
  }

  lemma StepKeepsInv(bucket: nat, s: State, a: Action)
    requires Inv(bucket, s) && Enabled(bucket, s, a)
    ensures Inv(bucket, Apply(bucket, s, a))
  {
  }

  lemma {:induction false} RunKeepsInv(bucket: nat, s: State, run: seq<Action>)
    requires Inv(bucket, s) && Feasible(bucket, s, run)
    ensures Inv(bucket, After(bucket, s, run))
    decreases |run|
  {
    if run != [] {
      StepKeepsInv(bucket, s, run[0]);
      RunKeepsInv(bucket, Apply(bucket, s, run[0]), run[1..]);
    }
  }

  /**
   In every run the running count is the number of works in progress and never negative,
   `workQueueSize` is at least the channel length and at most the bucket size, and an announced
   item finds room in the channel.
   */
  lemma QueueCapacity(bucket: nat, run: seq<Action>)
    requires Feasible(bucket, START, run)
    ensures var s := After(bucket, START, run);
      && s.running == |s.holding| >= 0
      && s.queued <= s.queueSize <= bucket
      && (s.scan.Announced? ==> Enabled(bucket, s, Send))
  {
    RunKeepsInv(bucket, START, run);
  }

  // ----- what the scan may claim -----

  predicate IsScan(a: Action) {
    a.LoadRunning? || a.LoadQueueSize? || a.Claim? || a.Announce? || a.Send? || a.Cancel?
  }

  /** The other goroutines do not move the scan. */
  lemma {:induction false} OthersKeepScan(bucket: nat, s: State, run: seq<Action>)
    requires Feasible(bucket, s, run) && forall k :: 0 <= k < |run| ==> !IsScan(run[k])
    ensures After(bucket, s, run).scan == s.scan
    decreases |run|
  {
    if run != [] {
      assert !IsScan(run[0]);
      forall k | 0 <= k < |run[1..]| ensures !IsScan(run[1..][k]) { assert run[1..][k] == run[k + 1]; }
      OthersKeepScan(bucket, Apply(bucket, s, run[0]), run[1..]);
    }
  }

  /** What the scan may claim once it has loaded both counters: any count within the rest of the bucket, or nothing at all. */
  ghost predicate ClaimsWithin(bucket: nat, s: State, loaded: int) {
    if loaded < bucket then forall count: nat :: Enabled(bucket, s, Claim(count)) <==> count + loaded <= bucket
    else s.scan.Resting? && forall count: nat :: !Enabled(bucket, s, Claim(count))
  }

  /**
   The scan's limit, in every interleaving: with the running count it loaded first and the queue size it
   loaded later, it may claim exactly the counts that fit into the rest of the bucket; when the two
   loaded counts fill the bucket, it rests. What the other goroutines do before the two loads, between
   them and afterwards changes neither.
   */
  lemma ScanClaimsExactly(bucket: nat, run: seq<Action>, between: seq<Action>, later: seq<Action>)
    requires Feasible(bucket, START, run) && After(bucket, START, run).scan.Resting?
    requires var s := Apply(bucket, After(bucket, START, run), LoadRunning);
      Feasible(bucket, s, between) && forall k :: 0 <= k < |between| ==> !IsScan(between[k])
    requires forall k :: 0 <= k < |later| ==> !IsScan(later[k])
    ensures var s := After(bucket, START, run);
      var t := After(bucket, Apply(bucket, s, LoadRunning), between);
      && Enabled(bucket, t, LoadQueueSize)
      && (Feasible(bucket, Apply(bucket, t, LoadQueueSize), later) ==>
            ClaimsWithin(bucket, After(bucket, Apply(bucket, t, LoadQueueSize), later), |s.holding| + t.queueSize))
  {
    var s := After(bucket, START, run);
    RunKeepsInv(bucket, START, run);
    OthersKeepScan(bucket, Apply(bucket, s, LoadRunning), between);
    var t := After(bucket, Apply(bucket, s, LoadRunning), between);
    if Feasible(bucket, Apply(bucket, t, LoadQueueSize), later) {
      OthersKeepScan(bucket, Apply(bucket, t, LoadQueueSize), later);
    }
  }

  /** Items of the claimed batch that have not been sent yet. */
  function Unsent(scan: Scan): nat {
    match scan
    case Batch(left) => left
    case Announced(left) => left
    case _ => 0
  }

  function Sends(run: seq<Action>): nat {
    if run == [] then 0 else Sends(run[1..]) + if run[0].Send? then 1 else 0
  }

  /** Until the scan gives up or begins anew, every claimed item is either sent or still to be sent. */
  lemma {:induction false} BatchIsSent(bucket: nat, s: State, run: seq<Action>)
    requires Feasible(bucket, s, run) && !s.scan.LoadedRunning? && !s.scan.Limited? && Inv(bucket, s)
    requires forall k :: 0 <= k < |run| ==> !run[k].Cancel? && !run[k].LoadRunning?
    ensures var t := After(bucket, s, run);
      Sends(run) + Unsent(t.scan) == Unsent(s.scan) && !t.scan.LoadedRunning? && !t.scan.Limited?
    decreases |run|
  {
    if run != [] {
      assert !run[0].Cancel? && !run[0].LoadRunning?;
      forall k | 0 <= k < |run[1..]| ensures !run[1..][k].Cancel? && !run[1..][k].LoadRunning? { assert run[1..][k] == run[k + 1]; }
      StepKeepsInv(bucket, s, run[0]);
      BatchIsSent(bucket, Apply(bucket, s, run[0]), run[1..]);
    }
  }

  /** A batch of `count` works is sent completely: when the scan rests again without giving up, it has sent `count` items. */
  lemma ClaimedBatchIsSent(bucket: nat, run: seq<Action>, count: nat, later: seq<Action>)
    requires Feasible(bucket, START, run) && Enabled(bucket, After(bucket, START, run), Claim(count))
    requires Feasible(bucket, Apply(bucket, After(bucket, START, run), Claim(count)), later)
    requires forall k :: 0 <= k < |later| ==> !later[k].Cancel? && !later[k].LoadRunning?
    requires After(bucket, Apply(bucket, After(bucket, START, run), Claim(count)), later).scan.Resting?
    ensures Sends(later) == count
  {
    RunKeepsInv(bucket, START, run);
    StepKeepsInv(bucket, After(bucket, START, run), Claim(count));
    BatchIsSent(bucket, Apply(bucket, After(bucket, START, run), Claim(count)), later);
  }

  /** A queued item can always be served by a free worker, and afterwards both counters are as if it had never been there. */
  lemma QueuedItemCanBeServed(bucket: nat, s: State, w: nat)
    requires s.queued > 0 && Free(s, w)
    ensures var run := [Receive(w)] + ([Decrement(w)] + ([Acquire(w)] + [Release(w)]));
      && Feasible(bucket, s, run)
      && After(bucket, s, run) == s.(queued := s.queued - 1, queueSize := s.queueSize - 1)
  {
    var s1 := Apply(bucket, s, Receive(w));
    var s2 := Apply(bucket, s1, Decrement(w));
    var s3 := Apply(bucket, s2, Acquire(w));
    var s4 := Apply(bucket, s3, Release(w));
    assert s4 == s.(queued := s.queued - 1, queueSize := s.queueSize - 1);
    FirstStep(bucket, s3, Release(w), []);
    assert [Release(w)] + [] == [Release(w)];
    FirstStep(bucket, s2, Acquire(w), [Release(w)]);
    FirstStep(bucket, s1, Decrement(w), [Acquire(w)] + [Release(w)]);
    FirstStep(bucket, s, Receive(w), [Decrement(w)] + ([Acquire(w)] + [Release(w)]));
  }

  /** A work that cannot be acquired, or is handed in directly, leaves both counters alone. */
  lemma SkippedWorkCountsNothing(bucket: nat, s: State, w: nat)
    requires Free(s, w)
    ensures Feasible(bucket, s, [Direct(w)] + [Skip(w)]) && After(bucket, s, [Direct(w)] + [Skip(w)]) == s
  {
    var s1 := Apply(bucket, s, Direct(w));
    assert Apply(bucket, s1, Skip(w)) == s;
    FirstStep(bucket, s1, Skip(w), []);
    assert [Skip(w)] + [] == [Skip(w)];
    FirstStep(bucket, s, Direct(w), [Skip(w)]);
  }

  lemma FirstStep(bucket: nat, s: State, a: Action, rest: seq<Action>)
    requires Enabled(bucket, s, a) && Feasible(bucket, Apply(bucket, s, a), rest)
    ensures Feasible(bucket, s, [a] + rest) && After(bucket, s, [a] + rest) == After(bucket, Apply(bucket, s, a), rest)
  {
    assert ([a] + rest)[0] == a && ([a] + rest)[1..] == rest;
  }
}
