/** `Close` and `RemoveInput` can always get through: no step of theirs waits for something that cannot come. */
module FanInProgress {
  import opened FanIn
  import FanInRemoval

  // ----- closing cancels everybody -----

  /** Workers exist only in a started fan-in; once `Close` waits, a started one has its context done. */
  ghost predicate CancelsOk(s: State) {
    && (s.workers != [] ==> s.started)
    && (s.closing.Marked? ==> s.closing.hadCancel == s.started)
    && (!s.closing.NotClosing? && !s.closing.Marked? && s.started ==> s.ctxDone)
    && (!s.closing.NotClosing? ==> s.closed)
  }

  lemma StepKeepsCancels(s: State, a: Action)
    requires CancelsOk(s) && Enabled(s, a)
    ensures CancelsOk(Apply(s, a))
  {
    OtherKinds(a);
    if IsWorkerMove(a) { MoveFrame(s, a); }
  }

  lemma {:induction false} RunKeepsCancels(s: State, run: seq<Action>)
    requires CancelsOk(s) && Feasible(s, run)
    ensures CancelsOk(After(s, run))
    decreases |run|
  {
    if run != [] {
      StepKeepsCancels(s, run[0]);
      RunKeepsCancels(Apply(s, run[0]), run[1..]);
    }
  }

  /** While `Close` waits for the workers, every one of them has been cancelled. */
  lemma CloseCancelsEverybody(run: seq<Action>, w: nat)
    requires Feasible(START, run) && w < |After(START, run).workers|
    requires var c := After(START, run).closing; !c.NotClosing? && !c.Marked?
    ensures IsCancelled(After(START, run), w)
  {
    RunKeepsCancels(START, run);
  }

  // ----- a cancelled worker can leave -----

  /** What a cancelled worker does next. */
  function NextStep(s: State, w: nat): Action
    requires w < |s.workers|
  {
    match s.workers[w].stage
    case Created => Spawn(w)
    case Left => WorkerClosesDone(w)
    case DoneClosed => WorkerSignsOff(w)
    case _ => LeaveCancelled(w)
  }

  function Distance(worker: Worker): nat {
    match worker.stage
    case Created => 4
    case Selecting => 3
    case Sending => 3
    case Left => 2
    case DoneClosed => 1
    case Gone => 0
  }

  ghost function Distances(workers: seq<Worker>): nat {
    if workers == [] then 0 else Distances(workers[..|workers| - 1]) + Distance(workers[|workers| - 1])
  }

  lemma {:induction false} DistancesUpdate(workers: seq<Worker>, w: nat, worker: Worker)
    requires w < |workers|
    ensures Distances(workers[w := worker]) == Distances(workers) - Distance(workers[w]) + Distance(worker)
  {
    var n := |workers| - 1;
    if w < n {
      DistancesUpdate(workers[..n], w, worker);
      assert workers[w := worker][..n] == workers[..n][w := worker];
    } else {
      assert workers[w := worker][..n] == workers[..n];
    }
  }

  lemma NextStepIsCloser(s: State, w: nat)
    requires w < |s.workers| && IsCancelled(s, w) && s.workers[w].stage != Gone
    ensures Enabled(s, NextStep(s, w))
    ensures var t := Apply(s, NextStep(s, w));
      && |t.workers| == |s.workers| && t.removers == s.removers && t.closing == s.closing && t.ctxDone == s.ctxDone
      && t.workers == s.workers[w := t.workers[w]] && t.workers[w].cancelled == s.workers[w].cancelled
      && Distance(t.workers[w]) < Distance(s.workers[w])
  {
    var a := NextStep(s, w);
    MoveFrame(s, a);
  }

  // ----- closing -----

  ghost predicate CanFinish(s: State, run: seq<Action>) {
    Feasible(s, run) && After(s, run).closing.Finished?
  }

  lemma StepFirst(s: State, a: Action, rest: seq<Action>) returns (run: seq<Action>)
    requires Enabled(s, a) && CanFinish(Apply(s, a), rest)
    ensures CanFinish(s, run)
  {
    FirstStep(s, a, rest);
    run := [a] + rest;
  }

  /** With the wait group empty only the two closes remain. */
  lemma LastCloses(s: State) returns (run: seq<Action>)
    requires s.closing.Drained? || s.closing.OutClosed? || s.closing.Finished?
    ensures CanFinish(s, run)
    decreases if s.closing.Drained? then 2 else if s.closing.OutClosed? then 1 else 0
  {
    if s.closing.Finished? {
      run := [];
    } else {
      var a := if s.closing.Drained? then CloseOut else CloseDone;
      var rest := LastCloses(Apply(s, a));
      run := StepFirst(s, a, rest);
    }
  }

  lemma NobodyPending(workers: seq<Worker>)
    requires forall w :: 0 <= w < |workers| ==> workers[w].stage == Gone
    ensures Pending(workers) == 0
  {
    if workers != [] { NobodyPending(workers[..|workers| - 1]); }
  }

  lemma WaitEnds(s: State) returns (run: seq<Action>)
    requires Inv(s) && s.closing.Waiting? && forall w :: 0 <= w < |s.workers| ==> IsCancelled(s, w)
    ensures CanFinish(s, run)
    decreases Distances(s.workers)
  {
    if w :| 0 <= w < |s.workers| && s.workers[w].stage != Gone {
      NextStepIsCloser(s, w);
      var a := NextStep(s, w);
      var t := Apply(s, a);
      DistancesUpdate(s.workers, w, t.workers[w]);
      StepKeepsInv(s, a);
      forall v | 0 <= v < |t.workers| ensures IsCancelled(t, v) {
        assert IsCancelled(s, v);
      }
      var rest := WaitEnds(t);
      run := StepFirst(s, a, rest);
    } else {
      NobodyPending(s.workers);
      var rest := LastCloses(Apply(s, CloseWaits));
      run := StepFirst(s, CloseWaits, rest);
    }
  }

  /** Whatever has happened before, a begun `Close` can run to its end: nothing it waits for is out of reach. */
  lemma CloseCanFinish(before: seq<Action>) returns (run: seq<Action>)
    requires Feasible(START, before) && After(START, before).closed
    ensures Feasible(After(START, before), run) && After(After(START, before), run).closing.Finished?
  {
    var s := After(START, before);
    RunKeepsInv(START, before);
    RunKeepsCancels(START, before);
    if s.closing.Marked? {
      StepKeepsInv(s, CloseCancels);
      StepKeepsCancels(s, CloseCancels);
      var rest := WaitEnds(Apply(s, CloseCancels));
      run := StepFirst(s, CloseCancels, rest);
    } else if s.closing.Waiting? {
      run := WaitEnds(s);
    } else {
      run := LastCloses(s);
    }
  }

  // ----- removal -----

  ghost predicate CanReturn(s: State, r: nat, run: seq<Action>) {
    Feasible(s, run) && r < |After(s, run).removers| && After(s, run).removers[r].Returned?
  }

  lemma StepFirstReturns(s: State, r: nat, a: Action, rest: seq<Action>) returns (run: seq<Action>)
    requires Enabled(s, a) && CanReturn(Apply(s, a), r, rest)
    ensures CanReturn(s, r, run)
  {
    FirstStep(s, a, rest);
    run := [a] + rest;
  }

  lemma AwaitReturns(s: State, r: nat) returns (run: seq<Action>)
    requires Inv(s) && r < |s.removers| && s.removers[r].Cancelled?
    ensures CanReturn(s, r, run)
    decreases if s.removers[r].w < |s.workers| then Distance(s.workers[s.removers[r].w]) else 0
  {
    var w := s.removers[r].w;
    if Enabled(s, RemoverReturns(r)) {
      var none: seq<Action> := [];
      assert CanReturn(Apply(s, RemoverReturns(r)), r, none);
      run := StepFirstReturns(s, r, RemoverReturns(r), none);
    } else {
      NextStepIsCloser(s, w);
      var a := NextStep(s, w);
      StepKeepsInv(s, a);
      var rest := AwaitReturns(Apply(s, a), r);
      run := StepFirstReturns(s, r, a, rest);
    }
  }

  /** A caller of `RemoveInput` that has unlinked its input can always get to return. */
  lemma RemovalCanReturn(before: seq<Action>, r: nat) returns (run: seq<Action>)
    requires Feasible(START, before) && r < |After(START, before).removers|
    ensures var s := After(START, before);
      Feasible(s, run) && r < |After(s, run).removers| && After(s, run).removers[r].Returned?
  {
    var s := After(START, before);
    RunKeepsInv(START, before);
    if s.removers[r].Returned? {
      run := [];
    } else if s.removers[r].Cancelled? {
      run := AwaitReturns(s, r);
    } else {
      StepKeepsInv(s, RemoverCancels(r));
      var rest := AwaitReturns(Apply(s, RemoverCancels(r)), r);
      run := StepFirstReturns(s, r, RemoverCancels(r), rest);
    }
  }
}
