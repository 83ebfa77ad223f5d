/** The consumer loop: drain the backlog into the feeder, then push or file the new message. */
module Consumer {
  import opened Wrappers
  import opened ReplacingQueue
  import opened Ledger
  import opened Turns

  /**
   The feeder: a channel with `capacity` places, `queued` of which are taken. Its reader may empty it
   at any time; a channel without places takes a value only while the reader waits for one.
   */
  class Feeder<K(==), P> {
    const capacity: nat
    var queued: nat
    ghost var accepted: seq<Message<K, P>>
    /** How many pushes it has refused. */
    ghost var refusals: nat

    ghost predicate Valid()
      reads this
    {
      queued <= capacity && queued <= |accepted|
    }

    constructor (capacity: nat)
      ensures Valid() && this.capacity == capacity && accepted == [] && refusals == 0
    {
      this.capacity := capacity;
      queued := 0;
      accepted := [];
      refusals := 0;
    }

    /** The reader takes some of the queued values. */
    method ReaderMoves()
      requires Valid()
      modifies this`queued
      ensures Valid() && queued <= old(queued)
    {
      var n: int := *;
      if 0 <= n <= queued { queued := queued - n; }
    }

    /**
     `Push` does not wait: a channel with places refuses if and only if all of them are taken at the
     moment of the push, and otherwise the message is queued as the last one.
     */
    method Push(m: Message<K, P>) returns (ok: bool)
      requires Valid()
      modifies this
      ensures Valid()
      ensures capacity > 0 ==> if ok then 0 < queued <= old(queued) + 1 else queued == capacity == old(queued)
      ensures capacity > 0 && old(queued) < capacity ==> ok
      ensures accepted == old(accepted) + if ok then [m] else []
      ensures refusals == old(refusals) + if ok then 0 else 1
    {
      ReaderMoves();
      var readerWaits: bool := *;
      ok := if capacity > 0 then queued < capacity else readerWaits;
      if ok {
        accepted := accepted + [m];
        if capacity > 0 { queued := queued + 1; }
      } else {
        refusals := refusals + 1;
      }
    }
  }

  /** The queue's contents as the account has them. */
  ghost function Shown<K, P>(l: Ledger<K, P>): seq<(K, Message<K, P>)>
    requires Within(l.backlog, |l.consumed|)
  {
    seq(|l.backlog|, j requires 0 <= j < |l.backlog| => (l.consumed[l.backlog[j]].key, l.consumed[l.backlog[j]]))
  }

  /** The delivered messages as the account has them. */
  ghost function Sent<K, P>(l: Ledger<K, P>): seq<Message<K, P>>
    requires Within(l.delivered, |l.consumed|)
  {
    seq(|l.delivered|, k requires 0 <= k < |l.delivered| => l.consumed[l.delivered[k]])
  }

  lemma DrainedShown<K, P>(l: Ledger<K, P>, d: Ledger<K, P>, sent: nat)
    requires Sound(l) && Sound(d) && Drained(l, d, sent)
    ensures Shown(d) == Shown(l)[sent..]
  {
  }

  /** Messages are dropped only under a depth limit and discarded only at shutdown. */
  ghost predicate LossesExplained<K, P>(l: Ledger<K, P>, limited: bool, ended: bool) {
    forall t :: 0 <= t < |l.fate| ==> (l.fate[t] == Dropped ==> limited) && (l.fate[t] == Discarded ==> ended)
  }

  /** Filing a new message under its key: replaced in place or appended, in the account as in the queue. */
  lemma FileNew<K, P>(l: Ledger<K, P>, m: Message<K, P>, limited: bool, ended: bool) returns (l': Ledger<K, P>)
    requires Sound(l) && LossesExplained(l, limited, ended)
    ensures Sound(l') && LossesExplained(l', limited, ended)
    ensures l'.consumed == l.consumed + [m] && l'.delivered == l.delivered
    ensures l'.fate[|l.consumed|] == Waiting
    ensures Shown(l') == Put(Shown(l), m.key, m) && Sent(l') == Sent(l)
    ensures |l'.backlog| <= |l.backlog| + 1
    ensures forall t :: 0 <= t < |l.consumed| ==>
      l'.fate[t] == if l.fate[t] == Waiting && l.consumed[t].key == m.key then Superseded else l.fate[t]
  {
    if j :| 0 <= j < |l.backlog| && l.consumed[l.backlog[j]].key == m.key {
      l' := ReplaceNew(l, j, m);
      ReplaceNewOk(l, j, m);
      PutPresent(Shown(l), j, m.key, m);
      assert Shown(l') == Shown(l)[j := (m.key, m)];
      SameKeyWaits(l, j, m);
    } else {
      l' := AppendNew(l, m);
      NobodyWaits(l, m.key);
      AppendNewOk(l, m);
      PutAbsent(Shown(l), m.key, m);
      assert Shown(l') == Shown(l) + [(m.key, m)];
    }
    assert Sent(l') == Sent(l);
  }

  /** Only the replaced message is superseded: one message per key waits. */
  lemma SameKeyWaits<K, P>(l: Ledger<K, P>, j: nat, m: Message<K, P>)
    requires Sound(l) && j < |l.backlog| && l.consumed[l.backlog[j]].key == m.key
    ensures forall t :: 0 <= t < |l.consumed| ==>
      ReplaceNew(l, j, m).fate[t] == if l.fate[t] == Waiting && l.consumed[t].key == m.key then Superseded else l.fate[t]
  {
    forall t | 0 <= t < |l.consumed| && l.fate[t] == Waiting && l.consumed[t].key == m.key ensures t == l.backlog[j] {
      assert Listed(l.backlog, t);
      var i :| 0 <= i < |l.backlog| && l.backlog[i] == t;
      assert i == j;
    }
  }

  lemma NobodyWaits<K, P>(l: Ledger<K, P>, key: K)
    requires Sound(l) && forall j :: 0 <= j < |l.backlog| ==> l.consumed[l.backlog[j]].key != key
    ensures forall t :: 0 <= t < |l.consumed| && l.fate[t] == Waiting ==> l.consumed[t].key != key
  {
    forall t | 0 <= t < |l.consumed| && l.fate[t] == Waiting ensures l.consumed[t].key != key {
      assert Listed(l.backlog, t);
    }
  }

  lemma DeliverFrontShown<K, P>(l: Ledger<K, P>, limited: bool, ended: bool)
    requires Sound(l) && l.backlog != [] && LossesExplained(l, limited, ended)
    ensures var l' := DeliverFront(l);
      && Sound(l') && LossesExplained(l', limited, ended)
      && Shown(l') == Shown(l)[1..] && Sent(l') == Sent(l) + [Shown(l)[0].1]
  {
    DeliverFrontOk(l);
  }

  lemma DropFrontShown<K, P>(l: Ledger<K, P>, ended: bool)
    requires Sound(l) && l.backlog != [] && LossesExplained(l, true, ended)
    ensures var l' := DropFront(l);
      Sound(l') && LossesExplained(l', true, ended) && Shown(l') == Shown(l)[1..] && Sent(l') == Sent(l)
  {
    DropFrontOk(l);
  }

  lemma DeliverNewShown<K, P>(l: Ledger<K, P>, m: Message<K, P>, limited: bool, ended: bool)
    requires Sound(l) && l.backlog == [] && LossesExplained(l, limited, ended)
    ensures var l' := DeliverNew(l, m);
      Sound(l') && LossesExplained(l', limited, ended) && Shown(l') == Shown(l) && Sent(l') == Sent(l) + [m]
  {
    DeliverNewOk(l, m);
  }

  lemma DiscardNewShown<K, P>(l: Ledger<K, P>, m: Message<K, P>, limited: bool)
    requires Sound(l) && LossesExplained(l, limited, true)
    ensures var l' := DiscardNew(l, m);
      Sound(l') && LossesExplained(l', limited, true) && Shown(l') == Shown(l) && Sent(l') == Sent(l)
  {
    DiscardNewOk(l, m);
  }

  lemma DiscardBacklogShown<K, P>(l: Ledger<K, P>, limited: bool, ended: bool)
    requires Sound(l) && LossesExplained(l, limited, ended)
    ensures var l' := DiscardBacklog(l);
      Sound(l') && LossesExplained(l', limited, true) && Shown(l') == [] && Sent(l') == Sent(l)
  {
    DiscardBacklogOk(l);
  }

  class Consumer<K(==), P> {
    const maxQueueDepth: int
    const queue: Queue<K, Message<K, P>>
    const feeder: Feeder<K, P>
    var closed: bool
    /** The context given to `Run` is done. */
    var ctxDone: bool
    /** `Close` has closed the close channel, which it does after setting the flag. */
    var closeSignal: bool
    /** The processing goroutine has left its loop. */
    var stopped: bool
    ghost var ledger: Ledger<K, P>

    /** The depth that the limit allows. */
    ghost function DepthBound(): nat {
      if maxQueueDepth < 1 then 1 else maxQueueDepth
    }

    ghost predicate Valid()
      reads this, queue, queue.repr, feeder
    {
      && queue.Valid() && this !in queue.repr && feeder !in queue.repr && feeder.Valid()
      && Sound(ledger)
      && queue.Contents() == Shown(ledger)
      && feeder.accepted == Sent(ledger)
      && LossesExplained(ledger, maxQueueDepth != 0, closed || stopped)
      && (closeSignal ==> closed)
      && (maxQueueDepth != 0 ==> |ledger.backlog| <= DepthBound())
    }

    constructor (maxQueueDepth: int, feederDepth: nat)
      ensures Valid() && fresh(queue.repr) && fresh(feeder) && ledger == Empty() && !closed && !stopped
      ensures this.maxQueueDepth == maxQueueDepth
    {
      this.maxQueueDepth := maxQueueDepth;
      queue := new Queue<K, Message<K, P>>();
      feeder := new Feeder<K, P>(feederDepth);
      closed, ctxDone, closeSignal, stopped := false, false, false, false;
      ledger := Empty();
    }

    /** `closed.Load()`: another goroutine may have set the flag by now; it is never cleared. */
    method LoadClosed() returns (r: bool)
      requires Valid()
      modifies this`closed
      ensures Valid() && r == closed && (old(closed) ==> closed)
    {
      var now: bool := *;
      if now { closed := true; }
      r := closed;
    }

    /** `Front`, `Push` and, if the feeder took it, `DropFront`. */
    method PushFront() returns (ok: bool)
      requires queue.Valid() && feeder !in queue.repr && feeder.Valid() && queue.Contents() != []
      modifies queue, feeder
      ensures queue.Valid() && queue.repr == old(queue.repr) && feeder.Valid()
      ensures queue.Contents() == if ok then old(queue.Contents())[1..] else old(queue.Contents())
      ensures feeder.accepted == if ok then old(feeder.accepted) + [old(queue.Contents())[0].1] else old(feeder.accepted)
      ensures feeder.refusals == old(feeder.refusals) + if ok then 0 else 1
    {
      var front := queue.Front();
      ok := feeder.Push(front.value);
      if ok { queue.DropFront(); }
    }

    /** One turn of the drain loop: on success a message moves from the backlog to the delivered ones. */
    method DrainOne() returns (moved: bool)
      requires Valid() && ledger.backlog != []
      modifies this`ledger, queue, feeder
      ensures Valid() && queue.repr == old(queue.repr)
      ensures ledger == if moved then DeliverFront(old(ledger)) else old(ledger)
      ensures feeder.refusals == old(feeder.refusals) + if moved then 0 else 1
    {
      moved := PushFront();
      if moved { CountDelivery(); }
    }

    /** The front of the backlog has gone to the feeder: the account follows. */
    ghost method CountDelivery()
      requires queue.Valid() && this !in queue.repr && feeder !in queue.repr && feeder.Valid()
      requires Sound(ledger) && ledger.backlog != [] && LossesExplained(ledger, maxQueueDepth != 0, closed || stopped)
      requires queue.Contents() == Shown(ledger)[1..] && feeder.accepted == Sent(ledger) + [Shown(ledger)[0].1]
      requires (maxQueueDepth != 0 ==> |ledger.backlog| <= DepthBound()) && (closeSignal ==> closed)
      modifies this`ledger
      ensures Valid() && ledger == DeliverFront(old(ledger))
    {
      DeliverFrontShown(ledger, maxQueueDepth != 0, closed || stopped);
      ledger := DeliverFront(ledger);
    }

    /** The drain loop of `tryNext`: `ready` unless the feeder refused a backlog message. */
    method Drain() returns (ready: bool, ghost sent: nat)
      requires Valid()
      modifies this`ledger, this`closed, queue, feeder
      ensures Valid() && queue.repr == old(queue.repr) && (old(closed) ==> closed)
      ensures Drained(old(ledger), ledger, sent)
      ensures ready && !closed ==> ledger.backlog == []
      ensures feeder.refusals == old(feeder.refusals) + if ready then 0 else 1
    {
      ready, sent := true, 0;
      NothingDrained(ledger);
      var going := true;
      while going
        invariant Valid() && queue.repr == old(queue.repr) && (old(closed) ==> closed) && (going ==> ready)
        invariant feeder.refusals == old(feeder.refusals) + if ready then 0 else 1
        invariant Drained(old(ledger), ledger, sent)
        invariant !going && ready && !closed ==> ledger.backlog == []
        decreases |ledger.backlog|, going
      {
        going, ready := DrainTurn(old(ledger), sent);
        if going { sent := sent + 1; }
      }
    }

    /** One turn of the drain loop: it goes on after a delivery. */
    method DrainTurn(ghost before: Ledger<K, P>, ghost sent: nat) returns (going: bool, ready: bool)
      requires Valid() && Drained(before, ledger, sent)
      modifies this`ledger, this`closed, queue, feeder
      ensures Valid() && queue.repr == old(queue.repr) && (old(closed) ==> closed)
      ensures Drained(before, ledger, if going then sent + 1 else sent)
      ensures going ==> ready && |ledger.backlog| < |old(ledger).backlog|
      ensures !going ==> ledger == old(ledger) && (ready && !closed ==> ledger.backlog == [])
      ensures feeder.refusals == old(feeder.refusals) + if ready then 0 else 1
    {
      var isClosed := LoadClosed();
      if isClosed { return false, true; }
      var front := queue.Front();
      if front.None? { return false, true; }
      OneMoreDrained(before, ledger, sent);
      ready := DrainOne();
      going := ready;
    }

    /** At the depth limit the front of the backlog is dropped; below it, and without a limit, nothing is. */
    method Trim()
      requires Valid()
      modifies this`ledger, queue
      ensures Valid() && queue.repr == old(queue.repr)
      ensures maxQueueDepth != 0 ==> |ledger.backlog| < DepthBound()
      ensures var atLimit := maxQueueDepth != 0 && old(ledger).backlog != [] && |old(ledger).backlog| >= maxQueueDepth;
        && queue.Contents() == (if atLimit then old(queue.Contents())[1..] else old(queue.Contents()))
        && ledger == if atLimit then DropFront(old(ledger)) else old(ledger)
    {
      if maxQueueDepth == 0 { return; }
      var depth := queue.Depth();
      if depth >= maxQueueDepth {
        queue.DropFront();
        if ledger.backlog != [] {
          DropFrontShown(ledger, closed || stopped);
          ledger := DropFront(ledger);
        }
      }
    }

    /** Append a message that the feeder refused to the backlog, under its own key; at the limit the front makes room. */
    method File(m: Message<K, P>)
      requires Valid()
      modifies this`ledger, queue, queue.repr
      ensures Valid() && fresh(queue.repr - old(queue.repr))
      ensures FiledAs(old(ledger), ledger, maxQueueDepth, m)
      ensures queue.Contents() == Put(AfterTrim(old(queue.Contents())), m.key, m)
    {
      ghost var before := ledger;
      Trim();
      ghost var trimmed := ledger;
      EnqueueNew(m);
      TrimmedThenFiled(before, trimmed, ledger, maxQueueDepth, m);
    }

    /** The backlog with room for one more: without its front if it stood at the limit. */
    ghost function AfterTrim(c: seq<(K, Message<K, P>)>): seq<(K, Message<K, P>)> {
      if AtLimit(maxQueueDepth, |c|) then c[1..] else c
    }

    /** `Enqueue` where the limit leaves room for one more. */
    method EnqueueNew(m: Message<K, P>)
      requires Valid() && (maxQueueDepth != 0 ==> |ledger.backlog| < DepthBound())
      modifies this`ledger, queue, queue.repr
      ensures Valid() && fresh(queue.repr - old(queue.repr))
      ensures FiledAs(old(ledger), ledger, 0, m)
      ensures queue.Contents() == Put(old(queue.Contents()), m.key, m)
    {
      var _, _ := queue.Enqueue(m.key, m);
      ledger := FileNew(ledger, m, maxQueueDepth != 0, closed || stopped);
    }

    /**
     `tryNext` on an optional new message. It is one turn of the account (`Turns.Turn`): `sent` messages
     of the backlog go to the feeder in order; while the consumer is not closed a new message is
     delivered behind them or waits, whatever the feeder accepts, and only in the second case, at the
     limit, the front of what still waits is dropped. The attempt ends with the feeder's first refusal,
     and without one nothing is left waiting.
     */
    method TryNext(wrapper: Option<Message<K, P>>) returns (ghost sent: nat)
      requires Valid()
      modifies this`ledger, this`closed, queue, queue.repr, feeder
      ensures Valid() && fresh(queue.repr - old(queue.repr)) && (old(closed) ==> closed)
      ensures Turn(old(ledger), ledger, maxQueueDepth, wrapper, sent)
      ensures wrapper.Some? && !closed ==>
        var f := ledger.fate[|old(ledger).consumed|]; f == Delivered || f == Waiting
      ensures sent <= |old(queue.Contents())|
      ensures queue.Contents() == Remaining(old(queue.Contents())[sent..], wrapper, |old(ledger).consumed|)
      ensures old(feeder.refusals) <= feeder.refusals <= old(feeder.refusals) + 1
      ensures !closed && feeder.refusals == old(feeder.refusals) ==> ledger.backlog == []
      ensures wrapper.Some? && ledger.fate[|old(ledger).consumed|] == Waiting ==> feeder.refusals == old(feeder.refusals) + 1
    {
      var ready;
      if wrapper.None? {
        ready, sent := Drain();
        DrainedShown(old(ledger), ledger, sent);
      } else {
        sent := TryMessage(wrapper.value);
      }
    }

    /** What waits after a turn that left `c` undelivered: `c`, unless the new message was filed into it. */
    ghost function Remaining(c: seq<(K, Message<K, P>)>, wrapper: Option<Message<K, P>>, n: nat): seq<(K, Message<K, P>)>
      reads this`ledger
      requires wrapper.Some? ==> n < |ledger.fate|
    {
      if wrapper.Some? && ledger.fate[n] == Waiting then Put(AfterTrim(c), wrapper.value.key, wrapper.value) else c
    }

    method TryMessage(m: Message<K, P>) returns (ghost sent: nat)
      requires Valid()
      modifies this`ledger, this`closed, queue, queue.repr, feeder
      ensures Valid() && fresh(queue.repr - old(queue.repr)) && (old(closed) ==> closed)
      ensures Turn(old(ledger), ledger, maxQueueDepth, Some(m), sent)
      ensures sent <= |old(queue.Contents())|
      ensures queue.Contents() == Remaining(old(queue.Contents())[sent..], Some(m), |old(ledger).consumed|)
      ensures var f := ledger.fate[|old(ledger).consumed|];
        && (!closed ==> f == Delivered || f == Waiting)
        && old(feeder.refusals) <= feeder.refusals <= old(feeder.refusals) + 1
        && (!closed && feeder.refusals == old(feeder.refusals) ==> ledger.backlog == [])
        && (f == Waiting ==> feeder.refusals == old(feeder.refusals) + 1)
    {
      var ready;
      ready, sent := Drain();
      DrainedShown(old(ledger), ledger, sent);
      ghost var drained := ledger;
      Offer(m, ready);
      DrainedThenOffered(old(ledger), drained, ledger, maxQueueDepth, sent, m);
    }

    /** The new message, after the backlog was drained as far as the feeder would take it. */
    method Offer(m: Message<K, P>, ready: bool)
      requires Valid() && (ready && !closed ==> ledger.backlog == [])
      modifies this`ledger, this`closed, queue, queue.repr, feeder
      ensures Valid() && fresh(queue.repr - old(queue.repr)) && (old(closed) ==> closed)
      ensures OfferedAs(old(ledger), ledger, maxQueueDepth, m) && |ledger.fate| == |old(ledger).consumed| + 1
      ensures var f := ledger.fate[|old(ledger).consumed|];
        && (!closed ==> f == Delivered || f == Waiting)
        && (f == Delivered ==> ready && ledger.backlog == [])
        && queue.Contents() == (if f == Waiting then Put(AfterTrim(old(queue.Contents())), m.key, m) else old(queue.Contents()))
        && feeder.refusals == old(feeder.refusals) + if ready && f == Waiting then 1 else 0
    {
      var isClosed := LoadClosed();
      if isClosed {
        Discard(m);
      } else {
        PushOrFile(m, ready);
      }
    }

    /** A message that arrives after closing goes nowhere. */
    ghost method Discard(m: Message<K, P>)
      requires Valid() && closed
      modifies this`ledger
      ensures Valid() && ledger == DiscardNew(old(ledger), m)
    {
      DiscardNewShown(ledger, m, maxQueueDepth != 0);
      ledger := DiscardNew(ledger, m);
    }

    /** With room in the feeder try it directly, else file the message. */
    method PushOrFile(m: Message<K, P>, drained: bool)
      requires Valid() && (drained ==> ledger.backlog == [])
      modifies this`ledger, queue, queue.repr, feeder
      ensures Valid() && fresh(queue.repr - old(queue.repr))
      ensures |ledger.fate| == |old(ledger).consumed| + 1
      ensures if ledger.fate[|old(ledger).consumed|] == Waiting
        then FiledAs(old(ledger), ledger, maxQueueDepth, m) && queue.Contents() == Put(AfterTrim(old(queue.Contents())), m.key, m)
        else drained && ledger == DeliverNew(old(ledger), m) && queue.Contents() == old(queue.Contents())
      ensures feeder.refusals ==
        old(feeder.refusals) + if drained && ledger.fate[|old(ledger).consumed|] == Waiting then 1 else 0
    {
      var ready := drained;
      if ready {
        ready := feeder.Push(m);
        if ready {
          DeliverNewShown(ledger, m, maxQueueDepth != 0, closed || stopped);
          ledger := DeliverNew(ledger, m);
        }
      }
      if !ready {
        File(m);
      }
    }

    /**
     The select of the loop: other goroutines may by now have cancelled the context or gone on with
     `Close`, and of the ready cases any one is taken; `stop` if it is one of the two signals.
     */
    method Select() returns (stop: bool)
      requires Valid()
      modifies this`closed, this`ctxDone, this`closeSignal
      ensures Valid() && (old(closed) ==> closed) && (stop ==> ctxDone || closeSignal)
    {
      var cancel: bool, close: bool, signal: bool := *, *, *;
      if cancel { ctxDone := true; }
      if close { closed := true; }
      if closed && signal { closeSignal := true; }
      stop := *;
      stop := stop && (ctxDone || closeSignal);
    }

    /** One turn of the loop. */
    method ServeOne(item: Option<Message<K, P>>) returns (stop: bool)
      requires Valid()
      modifies this`ledger, this`closed, this`ctxDone, this`closeSignal, queue, queue.repr, feeder
      ensures Valid() && fresh(queue.repr - old(queue.repr)) && (stop ==> ctxDone || closeSignal)
      ensures if stop then ledger == old(ledger) else IsTurn(old(ledger), ledger, maxQueueDepth, item)
    {
      stop := Select();
      if !stop {
        ghost var sent := TryNext(item);
      }
    }

    /**
     `process`: at every turn the select takes any case that is ready: the done context, the close
     signal, or the next item of the work channel (`work` until it is closed). So work is left over only
     after one of the two signals. The handled items are turns of the account, one after the other
     (`trace`); in the end what still waits is discarded.
     */
    method Process(work: seq<Option<Message<K, P>>>) returns (handled: nat, ghost trace: seq<Ledger<K, P>>)
      requires Valid()
      modifies this, queue, queue.repr, feeder
      ensures Valid() && handled <= |work| && stopped && ledger.backlog == []
      ensures handled < |work| ==> ctxDone || closeSignal
      ensures IsTrace(trace, maxQueueDepth, work[..handled])
      ensures trace[0] == old(ledger) && ledger == DiscardBacklog(trace[handled])
      ensures ledger.consumed == old(ledger).consumed + Messages(work[..handled]) && old(ledger).delivered <= ledger.delivered
    {
      handled, trace := Serve(work);
      TraceConsumes(trace, maxQueueDepth, work[..handled]);
      TraceKeepsDeliveries(trace, maxQueueDepth, work[..handled]);
      Stop();
    }

    /** The loop: items of the work channel until a signal is taken. */
    method Serve(work: seq<Option<Message<K, P>>>) returns (handled: nat, ghost trace: seq<Ledger<K, P>>)
      requires Valid()
      modifies this`ledger, this`closed, this`ctxDone, this`closeSignal, queue, queue.repr, feeder
      ensures Valid() && fresh(queue.repr - old(queue.repr)) && handled <= |work|
      ensures handled < |work| ==> ctxDone || closeSignal
      ensures IsTrace(trace, maxQueueDepth, work[..handled]) && trace[0] == old(ledger) && trace[handled] == ledger
    {
      handled, trace := 0, [ledger];
      while handled < |work|
        invariant Valid() && fresh(queue.repr - old(queue.repr)) && handled <= |work|
        invariant IsTrace(trace, maxQueueDepth, work[..handled]) && trace[0] == old(ledger) && trace[handled] == ledger
      {
        var stop := ServeOne(work[handled]);
        if stop { break; }
        trace := Longer(trace, work, handled, ledger);
        handled := handled + 1;
      }
    }

    lemma Longer(trace: seq<Ledger<K, P>>, work: seq<Option<Message<K, P>>>, handled: nat, l: Ledger<K, P>)
      returns (longer: seq<Ledger<K, P>>)
      requires handled < |work| && IsTrace(trace, maxQueueDepth, work[..handled]) && Sound(l)
      requires IsTurn(trace[handled], l, maxQueueDepth, work[handled])
      ensures longer == trace + [l] && IsTrace(longer, maxQueueDepth, work[..handled + 1])
    {
      longer := trace + [l];
      var sent: nat :| Turn(trace[handled], l, maxQueueDepth, work[handled], sent);
      TraceGrows(trace, maxQueueDepth, work[..handled], l, work[handled], sent);
      assert work[..handled + 1] == work[..handled] + [work[handled]];
    }

    /** The loop has ended: whatever still waits is discarded. */
    method Stop()
      requires Valid()
      modifies this`ledger, this`stopped, queue
      ensures Valid() && stopped && ledger == DiscardBacklog(old(ledger))
    {
      queue.Clear();
      DiscardBacklogShown(ledger, maxQueueDepth != 0, closed || stopped);
      ledger := DiscardBacklog(ledger);
      stopped := true;
    }
  }

  /** Position `t` holds the latest consumed message of its key. */
  ghost predicate IsLatest<K, P>(l: Ledger<K, P>, t: nat) {
    t < |l.consumed| && forall u :: t < u < |l.consumed| ==> l.consumed[u].key != l.consumed[t].key
  }

  /**
   What holds between any two items of work while the consumer is open: consumed = accepted by the
   feeder + in the backlog + superseded + dropped; per key the feeder received messages in the
   order of consumption; without a depth limit nothing is dropped and the latest message of each
   key is in the backlog or is the last of its key that the feeder received; with a limit the
   backlog does not exceed it (a negative limit is a limit of 1).
   */
  lemma WhileOpen<K, P>(c: Consumer<K, P>)
    requires c.Valid() && !c.closed && !c.stopped
    ensures |c.ledger.consumed| ==
      |c.feeder.accepted| + |c.queue.Contents()| + |With(c.ledger.fate, Superseded)| + |With(c.ledger.fate, Dropped)|
    ensures forall i, j :: 0 <= i < j < |c.feeder.accepted| && c.feeder.accepted[i].key == c.feeder.accepted[j].key ==>
      c.ledger.delivered[i] < c.ledger.delivered[j]
    ensures c.maxQueueDepth != 0 ==> |c.queue.Contents()| <= c.DepthBound()
    ensures c.maxQueueDepth == 0 ==> With(c.ledger.fate, Dropped) == {}
    ensures c.maxQueueDepth == 0 ==> forall t: nat :: IsLatest(c.ledger, t) ==>
      var m := c.ledger.consumed[t];
      || (m.key, m) in c.queue.Contents()
      || exists k :: 0 <= k < |c.feeder.accepted| && c.feeder.accepted[k] == m
           && forall i :: k < i < |c.feeder.accepted| ==> c.feeder.accepted[i].key != m.key
  {
    var l := c.ledger;
    Conservation(l);
    assert With(l.fate, Discarded) == {};
    if c.maxQueueDepth == 0 {
      assert With(l.fate, Dropped) == {};
      forall t: nat | IsLatest(l, t)
        ensures var m := l.consumed[t];
          || (m.key, m) in Shown(l)
          || exists k :: 0 <= k < |Sent(l)| && Sent(l)[k] == m && forall i :: k < i < |Sent(l)| ==> Sent(l)[i].key != m.key
      {
        LatestIsFresh(l, t);
      }
    }
  }

  lemma LatestIsFresh<K, P>(l: Ledger<K, P>, t: nat)
    requires Sound(l) && IsLatest(l, t) && l.fate[t] != Dropped && l.fate[t] != Discarded
    ensures var m := l.consumed[t];
      || (m.key, m) in Shown(l)
      || exists k :: 0 <= k < |Sent(l)| && Sent(l)[k] == m && forall i :: k < i < |Sent(l)| ==> Sent(l)[i].key != m.key
  {
    Freshness(l, t);
    if l.fate[t] == Waiting {
      var j :| 0 <= j < |l.backlog| && l.backlog[j] == t;
      assert Shown(l)[j] == (l.consumed[t].key, l.consumed[t]);
    } else {
      var k :| 0 <= k < |l.delivered| && l.delivered[k] == t;
      assert Sent(l)[k] == l.consumed[t];
      forall i | k < i < |Sent(l)| ensures Sent(l)[i].key != l.consumed[t].key {
        assert Sent(l)[i] == l.consumed[l.delivered[i]];
      }
    }
  }
}
