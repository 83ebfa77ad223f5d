/** What the workers read: every value once, in order, until they are told to stop or nothing is left. */
module FanInReading {
  import opened FanIn

  /** Position `pos` of the input of `w` was read by `w`. */
  ghost predicate HasRead(s: State, w: nat, pos: nat) {
    w < |s.workers| && pos in s.workers[w].read
  }

  ghost predicate ReadBySomebody(s: State, ch: Chan, pos: nat) {
    exists w: nat :: HasRead(s, w, pos) && s.workers[w].ch == ch
  }

  /** Whatever was taken from an input was read by one of its workers, and by one only. */
  ghost predicate ReadsOk(s: State) {
    && (forall ch, pos: nat {:trigger ReadBySomebody(s, ch, pos)} :: pos < Count(s.taken, ch) ==> ReadBySomebody(s, ch, pos))
    && (forall w: nat, pos: nat {:trigger HasRead(s, w, pos)} :: HasRead(s, w, pos) ==> pos < Count(s.taken, s.workers[w].ch))
    && (forall v: nat, w: nat, pos: nat :: HasRead(s, v, pos) && HasRead(s, w, pos) && s.workers[v].ch == s.workers[w].ch ==> v == w)
  }

  /** Steps other than `Read` change no account of reading. */
  ghost predicate SameReads(s: State, t: State) {
    && |s.workers| <= |t.workers| && t.taken == s.taken
    && (forall w :: 0 <= w < |s.workers| ==> t.workers[w].ch == s.workers[w].ch && t.workers[w].read == s.workers[w].read)
    && (forall w :: |s.workers| <= w < |t.workers| ==> t.workers[w].read == [])
  }

  lemma OtherStepsReadNothing(s: State, a: Action)
    requires Enabled(s, a) && !a.Read?
    ensures SameReads(s, Apply(s, a))
  {
    OtherKinds(a);
    if IsWorkerMove(a) { MoveFrame(s, a); }
    else if IsControl(a) { ControlKeepsWorkers(s, a); }
    else if a.AddInput? { AddFrame(s, a.ch); }
    else { CancelFrame(s, a.r); }
  }

  lemma SameReadsOk(s: State, t: State)
    requires ReadsOk(s) && SameReads(s, t)
    ensures ReadsOk(t)
  {
    forall ch, pos: nat | pos < Count(t.taken, ch) ensures ReadBySomebody(t, ch, pos) {
      assert ReadBySomebody(s, ch, pos);
      var w: nat :| HasRead(s, w, pos) && s.workers[w].ch == ch;
      assert HasRead(t, w, pos);
    }
    forall w: nat, pos: nat | HasRead(t, w, pos) ensures pos < Count(t.taken, t.workers[w].ch) {
      assert HasRead(s, w, pos);
    }
    forall v: nat, w: nat, pos: nat | HasRead(t, v, pos) && HasRead(t, w, pos) && t.workers[v].ch == t.workers[w].ch ensures v == w {
      assert HasRead(s, v, pos) && HasRead(s, w, pos);
    }
  }

  lemma ReadKeepsReads(s: State, x: nat)
    requires ReadsOk(s) && Enabled(s, Read(x))
    ensures ReadsOk(Apply(s, Read(x)))
  {
    var t := Apply(s, Read(x));
    var mine, n := s.workers[x].ch, Count(s.taken, s.workers[x].ch);
    ReadFrame(s, x);
    forall ch, pos: nat | pos < Count(t.taken, ch) ensures ReadBySomebody(t, ch, pos) {
      if ch == mine && pos == n {
        assert t.workers[x].read[|s.workers[x].read|] == n;
        assert HasRead(t, x, pos);
      } else {
        assert ReadBySomebody(s, ch, pos);
        var w: nat :| HasRead(s, w, pos) && s.workers[w].ch == ch;
        assert HasRead(t, w, pos);
      }
    }
    forall w: nat, pos: nat | HasRead(t, w, pos) ensures pos < Count(t.taken, t.workers[w].ch) {
      assert HasRead(s, w, pos) || (w == x && pos == n);
    }
    forall v: nat, w: nat, pos: nat | HasRead(t, v, pos) && HasRead(t, w, pos) && t.workers[v].ch == t.workers[w].ch ensures v == w {
      assert HasRead(s, v, pos) || (v == x && pos == n);
      assert HasRead(s, w, pos) || (w == x && pos == n);
    }
  }

  lemma ReadFrame(s: State, x: nat)
    requires Enabled(s, Read(x))
    ensures var t := Apply(s, Read(x));
      var mine, n := s.workers[x].ch, Count(s.taken, s.workers[x].ch);
      && |t.workers| == |s.workers| && t.workers[x].read == s.workers[x].read + [n] && t.workers[x].ch == mine
      && (forall w :: 0 <= w < |s.workers| && w != x ==> t.workers[w] == s.workers[w])
      && (forall ch :: Count(t.taken, ch) == Count(s.taken, ch) + if ch == mine then 1 else 0)
  {
  }

  lemma {:induction false} RunKeepsReads(s: State, run: seq<Action>)
    requires ReadsOk(s) && Feasible(s, run)
    ensures ReadsOk(After(s, run))
    decreases |run|
  {
    if run != [] {
      var t := Apply(s, run[0]);
      if run[0].Read? { ReadKeepsReads(s, run[0].w); } else { OtherStepsReadNothing(s, run[0]); SameReadsOk(s, t); }
      RunKeepsReads(t, run[1..]);
    }
  }

  /** No value is skipped and none is read twice: each of those taken from an input is in exactly one worker's account. */
  lemma EveryValueIsReadOnce(run: seq<Action>, ch: Chan, pos: nat)
    requires Feasible(START, run) && pos < Count(After(START, run).taken, ch)
    ensures var s := After(START, run);
      && (exists w: nat :: HasRead(s, w, pos) && s.workers[w].ch == ch)
      && (forall v: nat, w: nat :: HasRead(s, v, pos) && s.workers[v].ch == ch && HasRead(s, w, pos) && s.workers[w].ch == ch ==> v == w)
  {
    RunKeepsReads(START, run);
    assert ReadBySomebody(After(START, run), ch, pos);
  }

  // ----- leaving -----

  /** The input is closed and everything that arrived has been taken. */
  predicate Exhausted(s: State, ch: Chan) {
    ch in s.ended && Count(s.taken, ch) >= Count(s.arrived, ch)
  }

  ghost predicate LeaverOk(s: State, w: nat)
    requires w < |s.workers|
  {
    HasLeft(s, w) ==> IsCancelled(s, w) || Exhausted(s, s.workers[w].ch)
  }

  ghost predicate LeaversOk(s: State) {
    forall w :: 0 <= w < |s.workers| ==> LeaverOk(s, w)
  }

  /** Cancellation and exhaustion are never taken back. */
  ghost predicate KeepsEnds(s: State, t: State) {
    && (s.ctxDone ==> t.ctxDone)
    && (forall ch :: Exhausted(s, ch) ==> Exhausted(t, ch))
  }

  lemma StepKeepsEnds(s: State, a: Action)
    requires Enabled(s, a)
    ensures KeepsEnds(s, Apply(s, a))
  {
    OtherKinds(a);
    if a.Read? { ReadFrame(s, a.w); ReadKeepsEnded(s, a.w); }
    else if a.Send? { ValueMoveFrame(s, a); }
    else if IsWorkerMove(a) { StageMoveFrame(s, a); }
    else { QuietStepKeepsEnds(s, a); }
  }

  lemma ReadKeepsEnded(s: State, w: nat)
    requires Enabled(s, Read(w))
    ensures var t := Apply(s, Read(w)); t.ended == s.ended && t.arrived == s.arrived && t.ctxDone == s.ctxDone
  {
  }

  lemma QuietStepKeepsEnds(s: State, a: Action)
    requires !IsWorkerMove(a) && Enabled(s, a)
    ensures KeepsEnds(s, Apply(s, a))
  {
    OtherKinds(a);
    if a.AddInput? { AddKeepsEnded(s, a.ch); }
    else if a.RemoverCancels? { CancelKeepsEnded(s, a.r); }
    else if !a.Arrive? && !a.EndInput? { ControlKeepsEnded(s, a); }
  }

  lemma AddKeepsEnded(s: State, ch: Chan)
    ensures var t := Apply(s, AddInput(ch));
      t.ended == s.ended && t.arrived == s.arrived && t.taken == s.taken && t.ctxDone == s.ctxDone
  {
  }

  lemma CancelKeepsEnded(s: State, r: nat)
    requires Enabled(s, RemoverCancels(r))
    ensures var t := Apply(s, RemoverCancels(r));
      t.ended == s.ended && t.arrived == s.arrived && t.taken == s.taken && t.ctxDone == s.ctxDone
  {
    var w := s.removers[r].w;
    var u := s.(removers := s.removers[r := Cancelled(w)]);
    assert Apply(s, RemoverCancels(r)) == if w < |s.workers| then SetWorker(u, w, s.workers[w].(cancelled := true)) else u;
  }

  lemma ControlKeepsEnded(s: State, a: Action)
    requires IsControl(a) && !a.Arrive? && !a.EndInput? && Enabled(s, a)
    ensures var t := Apply(s, a);
      t.ended == s.ended && t.arrived == s.arrived && t.taken == s.taken && (s.ctxDone ==> t.ctxDone)
  {
  }

  lemma MoveKeepsLeavers(s: State, a: Action)
    requires LeaversOk(s) && IsWorkerMove(a) && Enabled(s, a)
    ensures LeaversOk(Apply(s, a))
  {
    var t := Apply(s, a);
    MoveFrame(s, a);
    StepKeepsEnds(s, a);
    forall w | 0 <= w < |t.workers| ensures LeaverOk(t, w) {
      assert LeaverOk(s, w);
      if w == a.w { MoverIsLeaver(s, a); }
    }
  }

  lemma MoverIsLeaver(s: State, a: Action)
    requires IsWorkerMove(a) && Enabled(s, a) && LeaverOk(s, a.w) && |Apply(s, a).workers| == |s.workers|
    ensures LeaverOk(Apply(s, a), a.w)
  {
  }

  lemma StepKeepsLeavers(s: State, a: Action)
    requires LeaversOk(s) && Enabled(s, a)
    ensures LeaversOk(Apply(s, a))
  {
    var t := Apply(s, a);
    OtherKinds(a);
    StepKeepsEnds(s, a);
    if IsWorkerMove(a) {
      MoveKeepsLeavers(s, a);
    } else {
      ControlKeepsStages(s, a);
      forall w | 0 <= w < |t.workers| ensures LeaverOk(t, w) {
        if w < |s.workers| {
          assert LeaverOk(s, w);
          StepKeepsInput(s, a, w);
          ControlKeepsCancelled(s, a, w);
        } else {
          NewWorkerIsCreated(s, a, w);
        }
      }
    }
  }

  lemma ControlKeepsCancelled(s: State, a: Action, w: nat)
    requires !IsWorkerMove(a) && Enabled(s, a) && w < |s.workers| && w < |Apply(s, a).workers|
    ensures s.workers[w].cancelled ==> Apply(s, a).workers[w].cancelled
  {
    OtherKinds(a);
    if IsControl(a) { ControlKeepsWorkers(s, a); }
    else if a.AddInput? { AddFrame(s, a.ch); }
    else { CancelFrame(s, a.r); }
  }

  lemma NewWorkerIsCreated(s: State, a: Action, w: nat)
    requires !IsWorkerMove(a) && Enabled(s, a) && |s.workers| <= w < |Apply(s, a).workers|
    ensures Apply(s, a).workers[w].stage == Created
  {
    OtherKinds(a);
    if IsControl(a) { ControlKeepsWorkers(s, a); }
    else if a.RemoverCancels? { CancelFrame(s, a.r); }
  }

  lemma {:induction false} RunKeepsLeavers(s: State, run: seq<Action>)
    requires LeaversOk(s) && Feasible(s, run)
    ensures LeaversOk(After(s, run))
    decreases |run|
  {
    if run != [] {
      StepKeepsLeavers(s, run[0]);
      RunKeepsLeavers(Apply(s, run[0]), run[1..]);
    }
  }

  /** A worker leaves its loop only when it was cancelled, or when its input is closed and nothing is left in it. */
  lemma LeavesOnlyWhenToldOrDone(run: seq<Action>, w: nat)
    requires Feasible(START, run) && HasLeft(After(START, run), w)
    ensures var s := After(START, run);
      || IsCancelled(s, w)
      || (s.workers[w].ch in s.ended && Count(s.taken, s.workers[w].ch) >= Count(s.arrived, s.workers[w].ch))
  {
    RunKeepsLeavers(START, run);
    assert LeaverOk(After(START, run), w);
  }

  /** A value that has arrived can be read by a waiting worker of its input and sent: the next one of the input, whole. */
  lemma NextValueCanBeDelivered(s: State, w: nat)
    requires At(s, w, Selecting) && Count(s.taken, s.workers[w].ch) < Count(s.arrived, s.workers[w].ch)
    ensures Feasible(s, [Read(w)] + [Send(w)])
    ensures var t := After(s, [Read(w)] + [Send(w)]);
      t.out == s.out + [Emission(w, Count(s.taken, s.workers[w].ch))] && At(t, w, Selecting)
  {
    var t := Apply(s, Read(w));
    ReadEffect(s, w);
    FirstStep(t, Send(w), []);
    assert [Send(w)] + [] == [Send(w)];
    FirstStep(s, Read(w), [Send(w)]);
  }

  /** A worker whose input is closed and drained can leave without being cancelled. */
  lemma DrainedWorkerCanLeave(s: State, w: nat)
    requires At(s, w, Selecting) && Exhausted(s, s.workers[w].ch)
    ensures Enabled(s, LeaveEnded(w)) && HasLeft(Apply(s, LeaveEnded(w)), w) && Apply(s, LeaveEnded(w)).out == s.out
  {
  }
}
