/** What `RemoveInput` does, by input: which worker it stops, and what the table holds. */
module FanInRemoval {
  import opened FanIn

  /** A remover keeps the worker it unlinked. */
  lemma {:induction false} RemoverKeepsWorker(s: State, run: seq<Action>, r: nat)
    requires Feasible(s, run) && r < |s.removers|
    ensures r < |After(s, run).removers| && After(s, run).removers[r].w == s.removers[r].w
    decreases |run|
  {
    if run != [] {
      StepKeepsRemover(s, run[0], r);
      RemoverKeepsWorker(Apply(s, run[0]), run[1..], r);
    }
  }

  lemma StepKeepsRemover(s: State, a: Action, r: nat)
    requires Enabled(s, a) && r < |s.removers|
    ensures r < |Apply(s, a).removers| && Apply(s, a).removers[r].w == s.removers[r].w
  {
    OtherKinds(a);
    if IsWorkerMove(a) { MoveFrame(s, a); }
    else if IsControl(a) { ControlFrame(s, a); }
    else if a.AddInput? { AddFrame(s, a.ch); }
    else { CancelFrame(s, a.r); }
  }

  /** A worker keeps its input. */
  lemma {:induction false} WorkerKeepsInput(s: State, run: seq<Action>, w: nat)
    requires Feasible(s, run) && w < |s.workers|
    ensures w < |After(s, run).workers| && After(s, run).workers[w].ch == s.workers[w].ch
    decreases |run|
  {
    if run != [] {
      StepKeepsInput(s, run[0], w);
      WorkerKeepsInput(Apply(s, run[0]), run[1..], w);
    }
  }

  /**
   Removal by input: when `RemoveInput(ch)` finds its input and has returned, the worker that was
   registered for `ch` when the call unlinked it has left, and in no continuation does it emit again.
   */
  lemma RemovedInputIsSilent(run: seq<Action>, ch: Chan, middle: seq<Action>, later: seq<Action>)
    requires Feasible(START, run) && ch in After(START, run).table
    requires Feasible(Apply(After(START, run), RemoveInput(ch)), middle)
    requires var s := After(START, run);
      var t := After(Apply(s, RemoveInput(ch)), middle);
      && (|s.removers| < |t.removers| ==> t.removers[|s.removers|].Returned?)
      && Feasible(t, later)
    ensures var s := After(START, run);
      var t := After(Apply(s, RemoveInput(ch)), middle);
      var w := s.table[ch];
      && ch !in Apply(s, RemoveInput(ch)).table
      && w < |s.workers| && s.workers[w].ch == ch
      && HasLeft(t, w) && SentBy(After(t, later).out, w) == SentBy(t.out, w)
  {
    var s := After(START, run);
    var u := Apply(s, RemoveInput(ch));
    var t := After(u, middle);
    RunKeepsInv(START, run);
    StepKeepsInv(s, RemoveInput(ch));
    RunKeepsInv(u, middle);
    RemoverKeepsWorker(u, middle, |s.removers|);
    LeftWorkerIsSilent(t, later, s.table[ch]);
  }

  /**
   A removal cancels nobody else: the step in which the caller of `RemoveInput(ch)` cancels changes the
   worker that was registered for `ch` and no other, so no worker of another input.
   */
  lemma RemovalCancelsOnlyItsInput(run: seq<Action>, ch: Chan, middle: seq<Action>)
    requires Feasible(START, run) && ch in After(START, run).table
    requires Feasible(Apply(After(START, run), RemoveInput(ch)), middle)
    requires Enabled(After(Apply(After(START, run), RemoveInput(ch)), middle), RemoverCancels(|After(START, run).removers|))
    ensures var s := After(START, run);
      var t := After(Apply(s, RemoveInput(ch)), middle);
      var u := Apply(t, RemoverCancels(|s.removers|));
      var w := s.table[ch];
      && |u.workers| == |t.workers| && w < |t.workers| && t.workers[w].ch == ch && u.workers[w].cancelled
      && u.ctxDone == t.ctxDone && u.table == t.table && u.out == t.out
      && forall v :: 0 <= v < |t.workers| && v != w ==> u.workers[v] == t.workers[v]
  {
    var s := After(START, run);
    var o := Apply(s, RemoveInput(ch));
    RunKeepsInv(START, run);
    RemoverKeepsWorker(o, middle, |s.removers|);
    WorkerKeepsInput(o, middle, s.table[ch]);
  }

  /** Every worker is in the table under its own input, or a caller of `RemoveInput` holds it, or the fan-in is closed. */
  ghost predicate Tracked(s: State) {
    forall w :: 0 <= w < |s.workers| ==> TrackedWorker(s, w)
  }

  ghost predicate TrackedWorker(s: State, w: nat)
    requires w < |s.workers|
  {
    || s.closed
    || (s.workers[w].ch in s.table && s.table[s.workers[w].ch] == w)
    || exists r :: 0 <= r < |s.removers| && s.removers[r].w == w
  }

  lemma StepKeepsTracked(s: State, a: Action)
    requires Tracked(s) && Enabled(s, a)
    ensures Tracked(Apply(s, a))
  {
    OtherKinds(a);
    if IsWorkerMove(a) { MoveFrame(s, a); }
    else if IsControl(a) { ControlFrame(s, a); ControlKeepsWorkers(s, a); }
    else if a.AddInput? { AddFrame(s, a.ch); }
    else { CancelFrame(s, a.r); }
    TrackedFrame(s, Apply(s, a));
  }

  lemma TrackedFrame(s: State, t: State)
    requires Tracked(s) && |s.workers| <= |t.workers| && |s.removers| <= |t.removers|
    requires s.closed ==> t.closed
    requires forall w :: 0 <= w < |s.workers| ==> t.workers[w].ch == s.workers[w].ch
    requires forall w :: |s.workers| <= w < |t.workers| ==> t.workers[w].ch in t.table && t.table[t.workers[w].ch] == w
    requires forall r :: 0 <= r < |s.removers| ==> t.removers[r].w == s.removers[r].w
    requires forall ch :: ch in s.table && ch in t.table ==> t.table[ch] == s.table[ch]
    requires forall ch :: ch in s.table && ch !in t.table ==>
      t.closed || (|s.removers| < |t.removers| && t.removers[|s.removers|].w == s.table[ch])
    ensures Tracked(t)
  {
    forall w | 0 <= w < |t.workers| ensures TrackedWorker(t, w) {
      if w < |s.workers| {
        assert TrackedWorker(s, w);
        if r :| 0 <= r < |s.removers| && s.removers[r].w == w {
          assert t.removers[r].w == w;
        }
      }
    }
  }

  lemma {:induction false} RunKeepsTracked(s: State, run: seq<Action>)
    requires Tracked(s) && Feasible(s, run)
    ensures Tracked(After(s, run))
    decreases |run|
  {
    if run != [] {
      StepKeepsTracked(s, run[0]);
      RunKeepsTracked(Apply(s, run[0]), run[1..]);
    }
  }

  /**
   While the fan-in is open the table is exactly the workers that no `RemoveInput` has unlinked: at most
   one per input, each under its own input.
   */
  lemma OneWorkerPerInput(run: seq<Action>, v: nat, w: nat)
    requires Feasible(START, run) && !After(START, run).closed
    requires v < |After(START, run).workers| && w < |After(START, run).workers|
    requires forall r :: 0 <= r < |After(START, run).removers| ==> After(START, run).removers[r].w != v && After(START, run).removers[r].w != w
    ensures var s := After(START, run);
      && s.workers[v].ch in s.table && s.table[s.workers[v].ch] == v
      && (v != w ==> s.workers[v].ch != s.workers[w].ch)
  {
    RunKeepsTracked(START, run);
    var s := After(START, run);
    assert TrackedWorker(s, v) && TrackedWorker(s, w);
  }
}
