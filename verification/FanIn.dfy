/**
 The fan-in as a transition system. Critical sections under the mutex are single actions; everything
 a goroutine does outside them (spawning, channel operations, cancelling, waiting) is interleaved.
 An operation that would panic in Go (sending on, or closing, a closed channel) is allowed to
 happen and is recorded, so that its absence is a theorem and not an assumption.
 */
module FanIn {

  type Chan = string

  /** A registered worker goroutine: `Left` its loop, then closed its done channel, then `Gone` from the wait group. */
  datatype Stage = Created | Selecting | Sending | Left | DoneClosed | Gone

  /**
   `inFlight` is the position of the value in the worker's hands; `read` and `sent` are its account:
   the positions it has read and how many sends it has made.
   */
  datatype Worker =
    Worker(ch: Chan, stage: Stage, cancelled: bool, inFlight: nat, read: seq<nat>, sent: nat, discarded: bool)

  /** A value on the output: which worker sent it, and where it stood in that worker's input. */
  datatype Emission = Emission(w: nat, pos: nat)

  /** A `RemoveInput` call that found its input. */
  datatype Remover = Unlinked(w: nat) | Cancelled(w: nat) | Returned(w: nat)

  /** The body of `Close`, which `sync.Once` lets one caller execute. */
  datatype CloseStage = NotClosing | Marked(hadCancel: bool) | Waiting | Drained | OutClosed | Finished

  datatype State = State(
    started: bool,
    closed: bool,
    ctxDone: bool,
    table: map<Chan, nat>,
    workers: seq<Worker>,
    wg: int,
    closing: CloseStage,
    removers: seq<Remover>,
    arrived: map<Chan, nat>,
    taken: map<Chan, nat>,
    ended: set<Chan>,
    out: seq<Emission>,
    outCloses: nat,
    doneCloses: nat,
    panicked: bool)

  datatype Action =
    | Run
    | CancelContext
    | AddInput(ch: Chan)
    | RemoveInput(ch: Chan)
    | RemoverCancels(r: nat)
    | RemoverReturns(r: nat)
    | CloseMarks
    | CloseCancels
    | CloseWaits
    | CloseOut
    | CloseDone
    | Arrive(ch: Chan)
    | EndInput(ch: Chan)
    | Spawn(w: nat)
    | Read(w: nat)
    | Send(w: nat)
    | LeaveCancelled(w: nat)
    | LeaveEnded(w: nat)
    | WorkerClosesDone(w: nat)
    | WorkerSignsOff(w: nat)

  const START := State(false, false, false, map[], [], 0, NotClosing, [], map[], map[], {}, [], 0, 0, false)

  function Count(m: map<Chan, nat>, ch: Chan): nat {
    if ch in m then m[ch] else 0
  }

  predicate IsCancelled(s: State, w: nat)
    requires w < |s.workers|
  {
    s.ctxDone || s.workers[w].cancelled
  }

  predicate At(s: State, w: nat, stage: Stage) {
    w < |s.workers| && s.workers[w].stage == stage
  }

  predicate HasLeft(s: State, w: nat) {
    At(s, w, Left) || At(s, w, DoneClosed) || At(s, w, Gone)
  }

  predicate Enabled(s: State, a: Action) {
    match a
    case Run => true
    case CancelContext => s.started
    case AddInput(_) => true
    case RemoveInput(_) => true
    case RemoverCancels(r) => r < |s.removers| && s.removers[r].Unlinked?
    case RemoverReturns(r) =>
      r < |s.removers| && s.removers[r].Cancelled? && (At(s, s.removers[r].w, DoneClosed) || At(s, s.removers[r].w, Gone))
    case CloseMarks => s.closing.NotClosing?
    case CloseCancels => s.closing.Marked?
    case CloseWaits => s.closing.Waiting? && s.wg == 0
    case CloseOut => s.closing.Drained?
    case CloseDone => s.closing.OutClosed?
    case Arrive(ch) => ch !in s.ended
    case EndInput(_) => true
    case Spawn(w) => At(s, w, Created)
    case Read(w) => At(s, w, Selecting) && Count(s.taken, s.workers[w].ch) < Count(s.arrived, s.workers[w].ch)
    case Send(w) => At(s, w, Sending)
    case LeaveCancelled(w) => (At(s, w, Selecting) || At(s, w, Sending)) && IsCancelled(s, w)
    case LeaveEnded(w) =>
      && At(s, w, Selecting) && s.workers[w].ch in s.ended
      && Count(s.taken, s.workers[w].ch) >= Count(s.arrived, s.workers[w].ch)
    case WorkerClosesDone(w) => At(s, w, Left)
    case WorkerSignsOff(w) => At(s, w, DoneClosed)
  }

  function SetWorker(s: State, w: nat, worker: Worker): State
    requires w < |s.workers|
  {
    s.(workers := s.workers[w := worker])
  }

  function Apply(s: State, a: Action): State
    requires Enabled(s, a)
  {
    match a
    case Run => if s.started || s.closed then s else s.(started := true)
    case CancelContext => s.(ctxDone := true)
    case AddInput(ch) =>
      if !s.started || s.closed || ch in s.table then s
      else s.(table := s.table[ch := |s.workers|],
              workers := s.workers + [Worker(ch, Created, false, 0, [], 0, false)],
              wg := s.wg + 1)
    case RemoveInput(ch) =>
      if ch !in s.table then s
      else s.(table := s.table - {ch}, removers := s.removers + [Unlinked(s.table[ch])])
    case RemoverCancels(r) =>
      var w := s.removers[r].w;
      var t := s.(removers := s.removers[r := Cancelled(w)]);
      if w < |s.workers| then SetWorker(t, w, s.workers[w].(cancelled := true)) else t
    case RemoverReturns(r) => s.(removers := s.removers[r := Returned(s.removers[r].w)])
    case CloseMarks => s.(closed := true, table := map[], closing := Marked(s.started))
    case CloseCancels => s.(ctxDone := s.ctxDone || s.closing.hadCancel, closing := Waiting)
    case CloseWaits => s.(closing := Drained)
    case CloseOut => s.(outCloses := s.outCloses + 1, panicked := s.panicked || s.outCloses > 0, closing := OutClosed)
    case CloseDone => s.(doneCloses := s.doneCloses + 1, panicked := s.panicked || s.doneCloses > 0, closing := Finished)
    case Arrive(ch) => s.(arrived := s.arrived[ch := Count(s.arrived, ch) + 1])
    case EndInput(ch) => s.(ended := s.ended + {ch})
    case Spawn(w) => SetWorker(s, w, s.workers[w].(stage := Selecting))
    case Read(w) =>
      var ch := s.workers[w].ch;
      SetWorker(s.(taken := s.taken[ch := Count(s.taken, ch) + 1]), w,
                s.workers[w].(stage := Sending, inFlight := Count(s.taken, ch), read := s.workers[w].read + [Count(s.taken, ch)]))
    case Send(w) =>
      var worker := s.workers[w];
      SetWorker(s.(out := s.out + [Emission(w, worker.inFlight)], panicked := s.panicked || s.outCloses > 0), w,
                worker.(stage := Selecting, sent := worker.sent + 1))
    case LeaveCancelled(w) =>
      SetWorker(s, w, s.workers[w].(stage := Left, discarded := s.workers[w].stage == Sending))
    case LeaveEnded(w) => SetWorker(s, w, s.workers[w].(stage := Left))
    case WorkerClosesDone(w) => SetWorker(s, w, s.workers[w].(stage := DoneClosed))
    case WorkerSignsOff(w) => SetWorker(s.(wg := s.wg - 1), w, s.workers[w].(stage := Gone))
  }

  predicate Feasible(s: State, run: seq<Action>)
    decreases |run|
  {
    run == [] || (Enabled(s, run[0]) && Feasible(Apply(s, run[0]), run[1..]))
  }

  function After(s: State, run: seq<Action>): State
    requires Feasible(s, run)
    decreases |run|
  {
    if run == [] then s else After(Apply(s, run[0]), run[1..])
  }

  // ----- invariant -----

  /** Workers counted by the wait group. */
  ghost function Pending(workers: seq<Worker>): nat {
    if workers == [] then 0
    else Pending(workers[..|workers| - 1]) + if workers[|workers| - 1].stage == Gone then 0 else 1
  }

  /** Positions that worker `w` put on the output. */
  ghost function SentBy(out: seq<Emission>, w: nat): seq<nat> {
    if out == [] then []
    else SentBy(out[..|out| - 1], w) + if out[|out| - 1].w == w then [out[|out| - 1].pos] else []
  }

  ghost predicate Increasing(p: seq<nat>) {
    forall i, j :: 0 <= i < j < |p| ==> p[i] < p[j]
  }

  /** Values read = values sent + the one in flight + the one discarded, in the input's order. */
  ghost predicate WorkerOk(s: State, w: nat)
    requires w < |s.workers|
  {
    var worker := s.workers[w];
    && worker.sent <= |worker.read|
    && |worker.read| == worker.sent + (if worker.stage == Sending then 1 else 0) + (if worker.discarded then 1 else 0)
    && SentBy(s.out, w) == worker.read[..worker.sent]
    && (worker.stage == Sending ==> worker.read[|worker.read| - 1] == worker.inFlight)
    && Increasing(worker.read)
    && (forall k :: 0 <= k < |worker.read| ==> worker.read[k] < Count(s.taken, worker.ch))
    && (worker.discarded ==> HasLeft(s, w) && IsCancelled(s, w))
  }

  ghost predicate CloseOk(s: State) {
    && (s.closed <==> !s.closing.NotClosing?)
    && (s.closed ==> s.table == map[])
    && (s.closing.Drained? || s.closing.OutClosed? || s.closing.Finished? ==> s.wg == 0)
    && s.outCloses == (if s.closing.OutClosed? || s.closing.Finished? then 1 else 0)
    && s.doneCloses == (if s.closing.Finished? then 1 else 0)
    && !s.panicked
  }

  ghost predicate TablesOk(s: State) {
    && (forall ch :: ch in s.table ==> s.table[ch] < |s.workers| && s.workers[s.table[ch]].ch == ch)
    && (forall r :: 0 <= r < |s.removers| ==>
          && s.removers[r].w < |s.workers|
          && (!s.removers[r].Unlinked? ==> s.workers[s.removers[r].w].cancelled)
          && (s.removers[r].Returned? ==> At(s, s.removers[r].w, DoneClosed) || At(s, s.removers[r].w, Gone)))
    && (forall e :: 0 <= e < |s.out| ==> s.out[e].w < |s.workers|)
  }

  ghost predicate Inv(s: State) {
    && s.wg == Pending(s.workers)
    && CloseOk(s)
    && TablesOk(s)
    && forall w :: 0 <= w < |s.workers| ==> WorkerOk(s, w)
  }

  lemma {:induction false} PendingUpdate(workers: seq<Worker>, w: nat, worker: Worker)
    requires w < |workers|
    ensures Pending(workers[w := worker]) ==
            Pending(workers) - (if workers[w].stage == Gone then 0 else 1) + if worker.stage == Gone then 0 else 1
  {
    var n := |workers| - 1;
    if w < n {
      PendingUpdate(workers[..n], w, worker);
      assert workers[w := worker][..n] == workers[..n][w := worker];
    } else {
      assert workers[w := worker][..n] == workers[..n];
    }
  }

  lemma PendingAppend(workers: seq<Worker>, worker: Worker)
    ensures Pending(workers + [worker]) == Pending(workers) + if worker.stage == Gone then 0 else 1
  {
    assert (workers + [worker])[..|workers|] == workers;
  }

  /** A worker that is not gone keeps the wait group above zero. */
  lemma {:induction false} PendingPositive(workers: seq<Worker>, w: nat)
    requires w < |workers| && workers[w].stage != Gone
    ensures Pending(workers) > 0
  {
    if w < |workers| - 1 { PendingPositive(workers[..|workers| - 1], w); }
  }

  lemma SentByAppend(out: seq<Emission>, e: Emission, w: nat)
    ensures SentBy(out + [e], w) == SentBy(out, w) + if e.w == w then [e.pos] else []
  {
    assert (out + [e])[..|out|] == out;
  }

  /** No emission by a worker that does not exist. */
  lemma {:induction false} SentByNobody(out: seq<Emission>, w: nat)
    requires forall e :: 0 <= e < |out| ==> out[e].w != w
    ensures SentBy(out, w) == []
  {
    if out != [] { SentByNobody(out[..|out| - 1], w); }
  }

  // ----- preservation -----

  predicate IsControl(a: Action) {
    a.Run? || a.CancelContext? || a.RemoveInput? || a.RemoverReturns? || a.CloseMarks? || a.CloseCancels?
    || a.CloseWaits? || a.CloseOut? || a.CloseDone? || a.Arrive? || a.EndInput?
  }

  lemma ControlKeepsInv(s: State, a: Action)
    requires Inv(s) && Enabled(s, a) && IsControl(a)
    ensures Inv(Apply(s, a))
  {
    var t := Apply(s, a);
    ControlKeepsWorkers(s, a);
    ControlKeepsClose(s, a);
    ControlKeepsTables(s, a);
    forall w | 0 <= w < |t.workers| ensures WorkerOk(t, w) {
      WorkerFrame(s, t, w);
    }
  }

  lemma ControlKeepsWorkers(s: State, a: Action)
    requires Enabled(s, a) && IsControl(a)
    ensures var t := Apply(s, a);
      t.workers == s.workers && t.out == s.out && t.taken == s.taken && t.wg == s.wg && (s.ctxDone ==> t.ctxDone)
  {
  }

  lemma ControlKeepsClose(s: State, a: Action)
    requires CloseOk(s) && Enabled(s, a) && IsControl(a)
    ensures CloseOk(Apply(s, a))
  {
  }

  lemma ControlKeepsTables(s: State, a: Action)
    requires TablesOk(s) && Enabled(s, a) && IsControl(a)
    ensures TablesOk(Apply(s, a))
  {
    ControlKeepsWorkers(s, a);
    var t := Apply(s, a);
    forall r | 0 <= r < |t.removers|
      ensures t.removers[r].w < |s.workers|
      ensures !t.removers[r].Unlinked? ==> s.workers[t.removers[r].w].cancelled
      ensures t.removers[r].Returned? ==> At(s, t.removers[r].w, DoneClosed) || At(s, t.removers[r].w, Gone)
    {
    }
  }

  lemma AddInputKeepsInv(s: State, ch: Chan)
    requires Inv(s)
    ensures Inv(Apply(s, AddInput(ch)))
  {
    var t := Apply(s, AddInput(ch));
    if t != s {
      var n := |s.workers|;
      PendingAppend(s.workers, t.workers[n]);
      AddKeepsTables(s, ch);
      forall w | 0 <= w < |t.workers| ensures WorkerOk(t, w) {
        if w < n {
          assert WorkerOk(s, w);
          WorkerFrame(s, t, w);
        } else {
          SentByNobody(s.out, n);
        }
      }
    }
  }

  lemma AddKeepsTables(s: State, ch: Chan)
    requires TablesOk(s)
    ensures TablesOk(Apply(s, AddInput(ch)))
  {
    assert s.workers <= Apply(s, AddInput(ch)).workers;
  }

  predicate IsWorkerMove(a: Action) {
    a.Spawn? || a.Read? || a.Send? || a.LeaveCancelled? || a.LeaveEnded? || a.WorkerClosesDone? || a.WorkerSignsOff?
  }

  /** What keeps the account of a worker that does not move. */
  lemma WorkerFrame(s: State, t: State, v: nat)
    requires v < |s.workers| && v < |t.workers| && WorkerOk(s, v)
    requires t.workers[v] == s.workers[v] || t.workers[v] == s.workers[v].(cancelled := true)
    requires SentBy(t.out, v) == SentBy(s.out, v) && (s.ctxDone ==> t.ctxDone)
    requires Count(s.taken, s.workers[v].ch) <= Count(t.taken, s.workers[v].ch)
    ensures WorkerOk(t, v)
  {
  }

  lemma WorkerMoveKeepsOther(s: State, a: Action, v: nat)
    requires IsWorkerMove(a) && Enabled(s, a) && v != a.w && v < |s.workers| && WorkerOk(s, v)
    ensures WorkerOk(Apply(s, a), v)
  {
    if a.Send? { SentByAppend(s.out, Apply(s, a).out[|s.out|], v); }
    WorkerFrame(s, Apply(s, a), v);
  }

  lemma SendKeepsOwn(s: State, w: nat)
    requires Enabled(s, Send(w)) && WorkerOk(s, w)
    ensures WorkerOk(Apply(s, Send(w)), w)
  {
    var worker := s.workers[w];
    assert worker.sent < |worker.read|;
    assert Apply(s, Send(w)).out == s.out + [Emission(w, worker.read[worker.sent])];
    SentByAppend(s.out, Emission(w, worker.read[worker.sent]), w);
    assert worker.read[..worker.sent + 1] == worker.read[..worker.sent] + [worker.read[worker.sent]];
  }

  lemma ReadKeepsOwn(s: State, w: nat)
    requires Enabled(s, Read(w)) && WorkerOk(s, w)
    ensures WorkerOk(Apply(s, Read(w)), w)
  {
    var t := Apply(s, Read(w));
    var p, q := s.workers[w], t.workers[w];
    var pos := Count(s.taken, p.ch);
    ReadEffect(s, w);
    IncreasingAppend(p.read, pos);
    assert q.read[..q.sent] == p.read[..p.sent];
  }

  lemma ReadEffect(s: State, w: nat)
    requires Enabled(s, Read(w))
    ensures var t := Apply(s, Read(w));
      var pos := Count(s.taken, s.workers[w].ch);
      && t.out == s.out && Count(t.taken, s.workers[w].ch) == pos + 1
      && t.workers[w] == s.workers[w].(stage := Sending, inFlight := pos, read := s.workers[w].read + [pos])
  {
  }

  lemma IncreasingAppend(p: seq<nat>, pos: nat)
    requires Increasing(p) && forall k :: 0 <= k < |p| ==> p[k] < pos
    ensures Increasing(p + [pos])
  {
  }

  lemma WorkerMoveKeepsOwn(s: State, a: Action)
    requires IsWorkerMove(a) && !a.Send? && !a.Read? && Enabled(s, a) && WorkerOk(s, a.w)
    ensures WorkerOk(Apply(s, a), a.w)
  {
    var t := Apply(s, a);
    var p, q := s.workers[a.w], t.workers[a.w];
    if a.LeaveCancelled? { CancelledMove(s, a.w); } else { QuietMove(s, a); }
    assert WorkerOk(s, a.w);
    assert SentBy(t.out, a.w) == p.read[..p.sent] == q.read[..q.sent];
  }

  /** A cancelled worker leaves; a value in flight is discarded. */
  lemma CancelledMove(s: State, w: nat)
    requires Enabled(s, LeaveCancelled(w))
    ensures var t := Apply(s, LeaveCancelled(w));
      && t.out == s.out && t.taken == s.taken && t.ctxDone == s.ctxDone && IsCancelled(s, w)
      && t.workers[w] == s.workers[w].(stage := Left, discarded := s.workers[w].stage == Sending)
  {
  }

  /** Any other move without a channel value leaves the values alone. */
  lemma QuietMove(s: State, a: Action)
    requires (a.Spawn? || a.LeaveEnded? || a.WorkerClosesDone? || a.WorkerSignsOff?) && Enabled(s, a)
    ensures var t := Apply(s, a);
      var p, q := s.workers[a.w], t.workers[a.w];
      && t.out == s.out && t.taken == s.taken && t.ctxDone == s.ctxDone
      && q == p.(stage := q.stage) && q.stage != Sending && p.stage != Sending && (HasLeft(s, a.w) ==> HasLeft(t, a.w))
  {
  }

  lemma WorkerMoveKeepsTables(s: State, a: Action)
    requires TablesOk(s) && IsWorkerMove(a) && Enabled(s, a)
    ensures TablesOk(Apply(s, a))
  {
    var t := Apply(s, a);
    assert |t.workers| == |s.workers| && t.table == s.table && t.removers == s.removers;
    forall v | 0 <= v < |s.workers|
      ensures t.workers[v].ch == s.workers[v].ch && t.workers[v].cancelled == s.workers[v].cancelled
      ensures At(s, v, DoneClosed) || At(s, v, Gone) ==> At(t, v, DoneClosed) || At(t, v, Gone)
    {
    }
  }

  /** A worker that moves is still counted, so the output is open. */
  lemma WorkerMoveKeepsClose(s: State, a: Action)
    requires CloseOk(s) && IsWorkerMove(a) && Enabled(s, a) && s.wg > 0
    ensures CloseOk(Apply(s, a)) && Apply(s, a).wg == s.wg - if a.WorkerSignsOff? then 1 else 0
    ensures Apply(s, a).workers == s.workers[a.w := Apply(s, a).workers[a.w]]
    ensures (Apply(s, a).workers[a.w].stage == Gone) == a.WorkerSignsOff? && s.workers[a.w].stage != Gone
  {
  }

  lemma WorkerMoveKeepsInv(s: State, a: Action)
    requires Inv(s) && Enabled(s, a) && IsWorkerMove(a)
    ensures Inv(Apply(s, a))
  {
    var t := Apply(s, a);
    WorkerMoveKeepsCount(s, a);
    WorkerMoveKeepsTables(s, a);
    assert |t.workers| == |s.workers|;
    forall w | 0 <= w < |t.workers| ensures WorkerOk(t, w) {
      assert WorkerOk(s, w);
      if w != a.w { WorkerMoveKeepsOther(s, a, w); } else { AnyMoveKeepsOwn(s, a); }
    }
  }

  lemma AnyMoveKeepsOwn(s: State, a: Action)
    requires IsWorkerMove(a) && Enabled(s, a) && WorkerOk(s, a.w)
    ensures WorkerOk(Apply(s, a), a.w)
  {
    match a
    case Send(w) => SendKeepsOwn(s, w);
    case Read(w) => ReadKeepsOwn(s, w);
    case _ => WorkerMoveKeepsOwn(s, a);
  }

  lemma WorkerMoveKeepsCount(s: State, a: Action)
    requires CloseOk(s) && s.wg == Pending(s.workers) && IsWorkerMove(a) && Enabled(s, a)
    ensures CloseOk(Apply(s, a)) && Apply(s, a).wg == Pending(Apply(s, a).workers)
  {
    var t := Apply(s, a);
    PendingPositive(s.workers, a.w);
    WorkerMoveKeepsClose(s, a);
    PendingUpdate(s.workers, a.w, t.workers[a.w]);
  }

  lemma RemoverCancelsKeepsInv(s: State, r: nat)
    requires Inv(s) && Enabled(s, RemoverCancels(r))
    ensures Inv(Apply(s, RemoverCancels(r)))
  {
    var t := Apply(s, RemoverCancels(r));
    var w := s.removers[r].w;
    PendingUpdate(s.workers, w, t.workers[w]);
    RemoverCancelsKeepsTables(s, r);
    forall v | 0 <= v < |t.workers| ensures WorkerOk(t, v) {
      assert WorkerOk(s, v);
      WorkerFrame(s, t, v);
    }
  }

  lemma RemoverCancelsKeepsTables(s: State, r: nat)
    requires TablesOk(s) && Enabled(s, RemoverCancels(r))
    ensures TablesOk(Apply(s, RemoverCancels(r)))
  {
    var t := Apply(s, RemoverCancels(r));
    var w := s.removers[r].w;
    assert t.workers == s.workers[w := s.workers[w].(cancelled := true)] && t.removers == s.removers[r := Cancelled(w)];
  }

  lemma StepKeepsInv(s: State, a: Action)
    requires Inv(s) && Enabled(s, a)
    ensures Inv(Apply(s, a))
  {
    if IsControl(a) { ControlKeepsInv(s, a); }
    else if a.AddInput? { AddInputKeepsInv(s, a.ch); }
    else if a.RemoverCancels? { RemoverCancelsKeepsInv(s, a.r); }
    else { WorkerMoveKeepsInv(s, a); }
  }

  lemma {:induction false} RunKeepsInv(s: State, run: seq<Action>)
    requires Inv(s) && Feasible(s, run)
    ensures Inv(After(s, run))
    decreases |run|
  {
    if run != [] {
      StepKeepsInv(s, run[0]);
      RunKeepsInv(Apply(s, run[0]), run[1..]);
    }
  }

  // ----- what the fan-in promises -----

  /**
   Shutdown safety: in every interleaving nothing panics (once the output is closed no send and no
   second close can be taken, and done is not closed twice either), the output is closed at most once, only by `Close` and only after every
   registered worker has left the wait group, and done is closed only after it.
   */
  lemma ShutdownSafety(run: seq<Action>)
    requires Feasible(START, run)
    ensures var s := After(START, run);
      && !s.panicked
      && s.outCloses <= 1 && s.doneCloses <= s.outCloses
      && (s.outCloses > 0 ==> s.closed && forall w :: 0 <= w < |s.workers| ==> s.workers[w].stage == Gone)
      && (s.closing.Finished? ==> s.outCloses == 1 && s.doneCloses == 1)
      && (s.outCloses > 0 ==> !Enabled(s, CloseOut) && forall w: nat :: !Enabled(s, Send(w)))
      && (s.doneCloses > 0 ==> !Enabled(s, CloseDone))
  {
    RunKeepsInv(START, run);
    var s := After(START, run);
    if s.outCloses > 0 {
      forall w | 0 <= w < |s.workers| ensures s.workers[w].stage == Gone {
        if s.workers[w].stage != Gone { PendingPositive(s.workers, w); }
      }
      NothingAfterClose(s);
    }
  }

  lemma NothingAfterClose(s: State)
    requires CloseOk(s) && s.outCloses > 0 && forall w :: 0 <= w < |s.workers| ==> s.workers[w].stage == Gone
    ensures !Enabled(s, CloseOut) && forall w: nat :: !Enabled(s, Send(w))
  {
  }

  /** Once `closed` is set it stays set, and no worker is registered any more. */
  lemma {:induction false} NoWorkerAfterClosed(s: State, run: seq<Action>)
    requires s.closed && Feasible(s, run)
    ensures After(s, run).closed && |After(s, run).workers| == |s.workers|
    decreases |run|
  {
    if run != [] {
      NoWorkerAfterClosedStep(s, run[0]);
      NoWorkerAfterClosed(Apply(s, run[0]), run[1..]);
    }
  }

  lemma NoWorkerAfterClosedStep(s: State, a: Action)
    requires s.closed && Enabled(s, a)
    ensures Apply(s, a).closed && |Apply(s, a).workers| == |s.workers|
  {
    if IsWorkerMove(a) { assert Apply(s, a).workers == s.workers[a.w := Apply(s, a).workers[a.w]]; }
  }

  /** After some run the goroutine of worker `w` starts. */
  predicate CanStartAfter(s: State, run: seq<Action>, w: nat) {
    Feasible(s, run) && Enabled(After(s, run), Spawn(w))
  }

  /**
   Exactly the workers that a goroutine can still start after `closed` is set: those registered
   before it whose spawn is pending. So each of them starts at most once, and no other ever does.
   */
  lemma StartAfterClosedExactly(s: State, w: nat)
    requires s.closed
    ensures (exists run :: CanStartAfter(s, run, w)) <==> At(s, w, Created)
  {
    if At(s, w, Created) {
      var none: seq<Action> := [];
      assert Feasible(s, none) && After(s, none) == s;
      assert CanStartAfter(s, none, w);
    } else if exists run :: CanStartAfter(s, run, w) {
      var run :| CanStartAfter(s, run, w);
      NeverCreatedAgain(s, run, w);
    }
  }

  lemma {:induction false} NeverCreatedAgain(s: State, run: seq<Action>, w: nat)
    requires s.closed && Feasible(s, run) && !At(s, w, Created)
    ensures !At(After(s, run), w, Created)
    decreases |run|
  {
    if run != [] {
      NoWorkerAfterClosedStep(s, run[0]);
      NotCreatedStep(s, run[0], w);
      NeverCreatedAgain(Apply(s, run[0]), run[1..], w);
    }
  }

  lemma NotCreatedStep(s: State, a: Action, w: nat)
    requires s.closed && Enabled(s, a) && !At(s, w, Created)
    ensures !At(Apply(s, a), w, Created)
  {
    if IsWorkerMove(a) { assert Apply(s, a).workers == s.workers[a.w := Apply(s, a).workers[a.w]]; }
  }

  /**
   The goroutine of a worker registered before `closed` was set may still be spawned afterwards;
   the wait group already counts it, so the output cannot be closed before it has left.
   */
  lemma SpawnMayFollowClosed()
    ensures var run := [Run, AddInput("a"), CloseMarks, Spawn(0)];
      Feasible(START, run) && After(START, run).closed && At(After(START, run), 0, Selecting)
      && !After(START, run).closing.Drained? && After(START, run).wg == 1
  {
    var s1 := Apply(START, Run);
    var s2 := Apply(s1, AddInput("a"));
    var s3 := Apply(s2, CloseMarks);
    assert At(s3, 0, Created);
    FirstStep(s3, Spawn(0), []);
    FirstStep(s2, CloseMarks, [Spawn(0)]);
    FirstStep(s1, AddInput("a"), [CloseMarks, Spawn(0)]);
    FirstStep(START, Run, [AddInput("a"), CloseMarks, Spawn(0)]);
  }

  lemma FirstStep(s: State, a: Action, rest: seq<Action>)
    requires Enabled(s, a) && Feasible(Apply(s, a), rest)
    ensures Feasible(s, [a] + rest) && After(s, [a] + rest) == After(Apply(s, a), rest)
  {
    assert ([a] + rest)[0] == a && ([a] + rest)[1..] == rest;
  }

  /**
   Value accounting of every worker in every run: what it read is what it sent, then at most one
   value in flight or discarded; positions are those of its input in arrival order, so what it
   sent keeps the input's order; a value is discarded only after the worker was cancelled.
   */
  lemma ValueAccounting(run: seq<Action>, w: nat)
    requires Feasible(START, run) && w < |After(START, run).workers|
    ensures var s := After(START, run);
      var worker := s.workers[w];
      && worker.sent <= |worker.read| && SentBy(s.out, w) == worker.read[..worker.sent]
      && |worker.read| == |SentBy(s.out, w)| + (if worker.stage == Sending then 1 else 0) + (if worker.discarded then 1 else 0)
      && Increasing(SentBy(s.out, w))
      && (worker.discarded ==> IsCancelled(s, w))
  {
    RunKeepsInv(START, run);
    assert WorkerOk(After(START, run), w);
  }

  /** A worker that has left its loop sends nothing, whatever happens next. */
  lemma {:induction false} LeftWorkerIsSilent(s: State, run: seq<Action>, w: nat)
    requires HasLeft(s, w) && Feasible(s, run)
    ensures HasLeft(After(s, run), w) && SentBy(After(s, run).out, w) == SentBy(s.out, w)
    decreases |run|
  {
    if run != [] {
      LeftWorkerStep(s, run[0], w);
      LeftWorkerIsSilent(Apply(s, run[0]), run[1..], w);
    }
  }

  lemma LeftWorkerStep(s: State, a: Action, w: nat)
    requires HasLeft(s, w) && Enabled(s, a)
    ensures HasLeft(Apply(s, a), w) && SentBy(Apply(s, a).out, w) == SentBy(s.out, w)
  {
    if IsWorkerMove(a) {
      if a.Send? { SentByAppend(s.out, Apply(s, a).out[|s.out|], w); }
      StageAfterMove(s, a, w);
    } else {
      ControlKeepsStages(s, a);
    }
  }

  lemma StageAfterMove(s: State, a: Action, w: nat)
    requires IsWorkerMove(a) && Enabled(s, a) && HasLeft(s, w)
    ensures HasLeft(Apply(s, a), w)
    ensures !a.Send? ==> Apply(s, a).out == s.out
  {
    var t := Apply(s, a);
    assert t.workers == s.workers[a.w := t.workers[a.w]];
  }

  lemma CancellingKeepsStages(s: State, r: nat)
    requires Enabled(s, RemoverCancels(r))
    ensures var t := Apply(s, RemoverCancels(r));
      && |s.workers| == |t.workers| && t.out == s.out
      && forall w :: 0 <= w < |s.workers| ==> t.workers[w].stage == s.workers[w].stage
  {
    var t := Apply(s, RemoverCancels(r));
    var v := s.removers[r].w;
    if v < |s.workers| {
      assert t.workers == s.workers[v := s.workers[v].(cancelled := true)];
    } else {
      assert t.workers == s.workers;
    }
  }

  lemma ControlKeepsStages(s: State, a: Action)
    requires !IsWorkerMove(a) && Enabled(s, a)
    ensures |s.workers| <= |Apply(s, a).workers| && Apply(s, a).out == s.out
    ensures forall w :: 0 <= w < |s.workers| ==> Apply(s, a).workers[w].stage == s.workers[w].stage
  {
    if IsControl(a) {
      ControlKeepsWorkers(s, a);
    } else if a.AddInput? {
      assert s.workers <= Apply(s, a).workers;
    } else {
      CancellingKeepsStages(s, a.r);
    }
  }

  // ----- what each kind of step leaves alone -----

  lemma MoveFrame(s: State, a: Action)
    requires IsWorkerMove(a) && Enabled(s, a)
    ensures var t := Apply(s, a);
      && t.table == s.table && t.removers == s.removers && t.closed == s.closed && |t.workers| == |s.workers|
      && t.workers == s.workers[a.w := t.workers[a.w]] && t.workers[a.w].ch == s.workers[a.w].ch
      && (!a.Read? ==> t.taken == s.taken && t.workers[a.w].read == s.workers[a.w].read)
      && t.closing == s.closing && t.started == s.started && t.ctxDone == s.ctxDone
  {
    if a.Read? || a.Send? { ValueMoveFrame(s, a); } else { StageMoveFrame(s, a); }
  }

  lemma ValueMoveFrame(s: State, a: Action)
    requires (a.Read? || a.Send?) && Enabled(s, a)
    ensures var t := Apply(s, a);
      && a.w < |t.workers| && t.workers[a.w].ch == s.workers[a.w].ch && (a.Send? ==> t.workers[a.w].read == s.workers[a.w].read)
      && t == s.(workers := s.workers[a.w := t.workers[a.w]], taken := if a.Read? then t.taken else s.taken, out := t.out, panicked := t.panicked)
  {
  }

  lemma StageMoveFrame(s: State, a: Action)
    requires IsWorkerMove(a) && !a.Read? && !a.Send? && Enabled(s, a)
    ensures var t := Apply(s, a);
      && a.w < |t.workers| && t.workers[a.w].ch == s.workers[a.w].ch && t.workers[a.w].read == s.workers[a.w].read
      && t == s.(workers := s.workers[a.w := t.workers[a.w]], wg := t.wg)
  {
  }

  lemma AddFrame(s: State, ch: Chan)
    ensures var t := Apply(s, AddInput(ch));
      && s.workers <= t.workers && t.removers == s.removers && t.taken == s.taken && t.closed == s.closed
      && (forall c :: c in s.table ==> c in t.table && t.table[c] == s.table[c])
      && (forall w :: |s.workers| <= w < |t.workers| ==>
            t.workers[w].read == [] && t.workers[w].ch in t.table && t.table[t.workers[w].ch] == w)
  {
  }

  lemma CancelFrame(s: State, r: nat)
    requires Enabled(s, RemoverCancels(r))
    ensures var t := Apply(s, RemoverCancels(r));
      && t.table == s.table && t.taken == s.taken && t.closed == s.closed && t.removers == s.removers[r := Cancelled(s.removers[r].w)]
      && |t.workers| == |s.workers|
      && (forall w :: 0 <= w < |s.workers| ==>
            && t.workers[w].ch == s.workers[w].ch && t.workers[w].read == s.workers[w].read
            && (s.workers[w].cancelled ==> t.workers[w].cancelled))
  {
    var t, v := Apply(s, RemoverCancels(r)), s.removers[r].w;
    assert t.workers == if v < |s.workers| then s.workers[v := s.workers[v].(cancelled := true)] else s.workers;
  }

  lemma ControlFrame(s: State, a: Action)
    requires IsControl(a) && Enabled(s, a)
    ensures var t := Apply(s, a);
      && (s.closed ==> t.closed) && |s.removers| <= |t.removers|
      && (forall r :: 0 <= r < |s.removers| ==> t.removers[r].w == s.removers[r].w)
      && (forall ch :: ch in s.table && ch !in t.table ==>
            t.closed || (|s.removers| < |t.removers| && t.removers[|s.removers|].w == s.table[ch]))
      && (forall ch :: ch in t.table ==> ch in s.table && t.table[ch] == s.table[ch])
  {
  }

  /** A step that is neither a control step nor a worker's own. */
  lemma OtherKinds(a: Action)
    ensures IsControl(a) || IsWorkerMove(a) || a.AddInput? || a.RemoverCancels?
  {
  }

  lemma StepKeepsInput(s: State, a: Action, w: nat)
    requires Enabled(s, a) && w < |s.workers|
    ensures w < |Apply(s, a).workers| && Apply(s, a).workers[w].ch == s.workers[w].ch
  {
    OtherKinds(a);
    if IsWorkerMove(a) { MoveFrame(s, a); }
    else if IsControl(a) { ControlKeepsWorkers(s, a); }
    else if a.AddInput? { AddFrame(s, a.ch); }
    else { CancelFrame(s, a.r); }
  }
}
