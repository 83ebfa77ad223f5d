/** One turn of the consumer as an account: what becomes of every waiting message, and what follows for whole runs. */
module Turns {
  import opened Wrappers
  import opened ReplacingQueue
  import opened Ledger

  /** The first `sent` messages of the backlog have been delivered, and nothing else has happened. */
  ghost predicate Drained<K, P>(l: Ledger<K, P>, l': Ledger<K, P>, sent: nat) {
    && sent <= |l.backlog|
    && l'.consumed == l.consumed && l'.delivered == l.delivered + l.backlog[..sent] && l'.backlog == l.backlog[sent..]
    && |l'.fate| == |l.fate|
    && forall t :: 0 <= t < |l.fate| ==> l'.fate[t] == if t in l.backlog[..sent] then Delivered else l.fate[t]
  }

  lemma NothingDrained<K, P>(l: Ledger<K, P>)
    ensures Drained(l, l, 0)
  {
    assert l.backlog[..0] == [] && l.backlog[0..] == l.backlog;
  }

  lemma OneMoreDrained<K, P>(l: Ledger<K, P>, m: Ledger<K, P>, sent: nat)
    requires Drained(l, m, sent) && m.backlog != [] && m.backlog[0] < |m.fate|
    ensures Drained(l, DeliverFront(m), sent + 1)
  {
    assert m.backlog[0] == l.backlog[sent] && l.backlog[..sent + 1] == l.backlog[..sent] + [l.backlog[sent]];
    assert l.backlog[sent..][1..] == l.backlog[sent + 1..];
  }

  /** The limit is met: there is one, and that many messages wait. */
  predicate AtLimit(limit: int, waiting: nat) {
    limit != 0 && 0 < waiting && limit <= waiting
  }

  /** A refused message was filed: at the limit the front was dropped; a waiting message with its key is superseded. */
  ghost predicate FiledAs<K, P>(l: Ledger<K, P>, l': Ledger<K, P>, limit: int, m: Message<K, P>) {
    var n := |l.consumed|;
    && |l.fate| == n && |l'.fate| == n + 1
    && l'.consumed == l.consumed + [m] && l'.delivered == l.delivered && l'.fate[n] == Waiting
    && forall t :: 0 <= t < n ==>
         l'.fate[t] ==
           if AtLimit(limit, |l.backlog|) && t == l.backlog[0] then Dropped
           else if l.fate[t] == Waiting && l.consumed[t].key == m.key then Superseded
           else l.fate[t]
  }

  /** What a turn makes of position `t`, when it delivers `sent` messages of the backlog and files a message of key `filed`. */
  ghost function FateAfter<K, P>(l: Ledger<K, P>, limit: int, sent: nat, filed: Option<K>, t: nat): Fate
    requires sent <= |l.backlog| && t < |l.fate| && t < |l.consumed|
  {
    if t in l.backlog[..sent] then Delivered
    else if filed.None? || l.fate[t] != Waiting then l.fate[t]
    else if AtLimit(limit, |l.backlog| - sent) && t == l.backlog[sent] then Dropped
    else if l.consumed[t].key == filed.value then Superseded
    else Waiting
  }

  /**
   One turn: the first `sent` messages of the backlog are delivered. A new message is delivered behind
   the whole backlog, discarded after closing, or filed; only in the last case is anything else lost:
   at the limit the front of what still waits, and a waiting message of the same key.
   */
  ghost predicate Turn<K, P>(l: Ledger<K, P>, l': Ledger<K, P>, limit: int, item: Option<Message<K, P>>, sent: nat) {
    if item.None? then Drained(l, l', sent)
    else
      var n, m := |l.consumed|, item.value;
      && sent <= |l.backlog| && |l.fate| == n && |l'.fate| == n + 1
      && l'.consumed == l.consumed + [m]
      && (l'.fate[n] == Delivered || l'.fate[n] == Waiting || l'.fate[n] == Discarded)
      && (l'.fate[n] == Delivered ==> sent == |l.backlog|)
      && l'.delivered == l.delivered + l.backlog[..sent] + (if l'.fate[n] == Delivered then [n] else [])
      && forall t {:trigger l'.fate[t]} :: 0 <= t < n ==>
           l'.fate[t] == FateAfter(l, limit, sent, if l'.fate[n] == Waiting then Some(m.key) else None, t)
  }

  /** Trimming and then filing is filing at the limit. */
  lemma TrimmedThenFiled<K, P>(l: Ledger<K, P>, d: Ledger<K, P>, l': Ledger<K, P>, limit: int, m: Message<K, P>)
    requires Sound(l) && d == (if AtLimit(limit, |l.backlog|) then DropFront(l) else l) && FiledAs(d, l', 0, m)
    ensures FiledAs(l, l', limit, m)
  {
    if AtLimit(limit, |l.backlog|) {
      assert l.fate[l.backlog[0]] == Waiting;
    }
  }

  lemma DrainedThenDelivered<K, P>(l: Ledger<K, P>, d: Ledger<K, P>, limit: int, sent: nat, m: Message<K, P>)
    requires Sound(l) && Drained(l, d, sent) && d.backlog == []
    ensures Turn(l, DeliverNew(d, m), limit, Some(m), sent)
  {
    assert l.delivered + l.backlog[..sent] + [|l.consumed|] == DeliverNew(d, m).delivered;
  }

  lemma DrainedThenDiscarded<K, P>(l: Ledger<K, P>, d: Ledger<K, P>, limit: int, sent: nat, m: Message<K, P>)
    requires Sound(l) && Drained(l, d, sent)
    ensures Turn(l, DiscardNew(d, m), limit, Some(m), sent)
  {
  }

  lemma DrainedThenFiled<K, P>(l: Ledger<K, P>, d: Ledger<K, P>, l': Ledger<K, P>, limit: int, sent: nat, m: Message<K, P>)
    requires Sound(l) && Drained(l, d, sent) && FiledAs(d, l', limit, m)
    ensures Turn(l, l', limit, Some(m), sent)
  {
    forall t | 0 <= t < |l.consumed| ensures l'.fate[t] == FateAfter(l, limit, sent, Some(m.key), t) {
      FiledFate(l, d, l', limit, sent, m, t);
    }
  }

  /** What may become of a new message: discarded, delivered behind an empty backlog, or filed. */
  ghost predicate OfferedAs<K, P>(d: Ledger<K, P>, l': Ledger<K, P>, limit: int, m: Message<K, P>) {
    l' == DiscardNew(d, m) || (d.backlog == [] && l' == DeliverNew(d, m)) || FiledAs(d, l', limit, m)
  }

  /** Whatever becomes of the new message after the draining, it is a turn. */
  lemma DrainedThenOffered<K, P>(l: Ledger<K, P>, d: Ledger<K, P>, l': Ledger<K, P>, limit: int, sent: nat, m: Message<K, P>)
    requires Sound(l) && Drained(l, d, sent) && OfferedAs(d, l', limit, m)
    ensures Turn(l, l', limit, Some(m), sent)
  {
    if l' == DiscardNew(d, m) { DrainedThenDiscarded(l, d, limit, sent, m); }
    else if d.backlog == [] && l' == DeliverNew(d, m) { DrainedThenDelivered(l, d, limit, sent, m); }
    else { DrainedThenFiled(l, d, l', limit, sent, m); }
  }

  lemma FiledFate<K, P>(l: Ledger<K, P>, d: Ledger<K, P>, l': Ledger<K, P>, limit: int, sent: nat, m: Message<K, P>, t: nat)
    requires Sound(l) && Drained(l, d, sent) && FiledAs(d, l', limit, m) && t < |l.consumed|
    ensures l'.fate[t] == FateAfter(l, limit, sent, Some(m.key), t)
  {
    if AtLimit(limit, |d.backlog|) && t == d.backlog[0] {
      assert l.backlog[sent] == t && l.fate[t] == Waiting;
    }
  }

  // ----- whole runs -----

  /** The accounts before, between and after the turns of a run. */
  ghost predicate IsTrace<K, P>(ls: seq<Ledger<K, P>>, limit: int, work: seq<Option<Message<K, P>>>) {
    && |ls| == |work| + 1
    && (forall k :: 0 <= k < |ls| ==> Sound(ls[k]))
    && (forall k :: 0 <= k < |work| ==> IsTurn(ls[k], ls[k + 1], limit, work[k]))
  }

  ghost predicate IsTurn<K, P>(l: Ledger<K, P>, l': Ledger<K, P>, limit: int, item: Option<Message<K, P>>) {
    exists sent: nat :: Turn(l, l', limit, item, sent)
  }

  lemma TraceGrows<K, P>(ls: seq<Ledger<K, P>>, limit: int, work: seq<Option<Message<K, P>>>, l': Ledger<K, P>, item: Option<Message<K, P>>, sent: nat)
    requires IsTrace(ls, limit, work) && Sound(l') && Turn(ls[|ls| - 1], l', limit, item, sent)
    ensures IsTrace(ls + [l'], limit, work + [item])
  {
    var ls', work' := ls + [l'], work + [item];
    forall k | 0 <= k < |work'| ensures IsTurn(ls'[k], ls'[k + 1], limit, work'[k]) {
      if k < |work| { assert IsTurn(ls[k], ls[k + 1], limit, work[k]); }
    }
  }

  /** The messages among the items of the work channel. */
  ghost function Messages<K, P>(work: seq<Option<Message<K, P>>>): seq<Message<K, P>> {
    if work == [] then []
    else Messages(work[..|work| - 1]) + if work[|work| - 1].Some? then [work[|work| - 1].value] else []
  }

  /** A run consumes the messages of its items in order. */
  lemma {:induction false} TraceConsumes<K, P>(ls: seq<Ledger<K, P>>, limit: int, work: seq<Option<Message<K, P>>>)
    requires IsTrace(ls, limit, work)
    ensures ls[|work|].consumed == ls[0].consumed + Messages(work)
  {
    var n := |work|;
    if n > 0 {
      TracePrefix(ls, limit, work);
      TraceConsumes(ls[..n], limit, work[..n - 1]);
      assert IsTurn(ls[n - 1], ls[n], limit, work[n - 1]);
      TurnConsumes(ls[n - 1], ls[n], limit, work[n - 1]);
    }
  }

  /** It takes no delivery back. */
  lemma {:induction false} TraceKeepsDeliveries<K, P>(ls: seq<Ledger<K, P>>, limit: int, work: seq<Option<Message<K, P>>>)
    requires IsTrace(ls, limit, work)
    ensures ls[0].delivered <= ls[|work|].delivered
  {
    var n := |work|;
    if n > 0 {
      TracePrefix(ls, limit, work);
      TraceKeepsDeliveries(ls[..n], limit, work[..n - 1]);
      assert IsTurn(ls[n - 1], ls[n], limit, work[n - 1]);
      TurnConsumes(ls[n - 1], ls[n], limit, work[n - 1]);
    }
  }

  lemma TurnConsumes<K, P>(l: Ledger<K, P>, l': Ledger<K, P>, limit: int, item: Option<Message<K, P>>)
    requires IsTurn(l, l', limit, item)
    ensures l'.consumed == l.consumed + if item.Some? then [item.value] else []
    ensures l.delivered <= l'.delivered
  {
    var sent: nat :| Turn(l, l', limit, item, sent);
  }

  /** Position `t` was dropped in this turn: it was the front of what still waited, at the limit, when a message was refused. */
  ghost predicate DroppedIn<K, P>(l: Ledger<K, P>, l': Ledger<K, P>, limit: int, item: Option<Message<K, P>>, t: nat) {
    exists sent: nat :: sent < |l.backlog| && Turn(l, l', limit, item, sent) && item.Some?
      && l.backlog[sent] == t && AtLimit(limit, |l.backlog| - sent)
  }

  lemma DropNeedsLimit<K, P>(l: Ledger<K, P>, l': Ledger<K, P>, limit: int, item: Option<Message<K, P>>, t: nat)
    requires Sound(l) && IsTurn(l, l', limit, item) && t < |l'.fate| && l'.fate[t] == Dropped
    ensures (t < |l.fate| && l.fate[t] == Dropped) || DroppedIn(l, l', limit, item, t)
  {
    var sent: nat :| Turn(l, l', limit, item, sent);
  }

  /**
   A message is dropped only at the limit: whatever a run has dropped was, in one of its turns, the front
   of a backlog that held at least as many messages as the limit while a new message was refused.
   */
  lemma {:induction false} DroppedOnlyAtLimit<K, P>(ls: seq<Ledger<K, P>>, limit: int, work: seq<Option<Message<K, P>>>, t: nat)
    requires IsTrace(ls, limit, work) && t < |ls[|ls| - 1].fate| && ls[|ls| - 1].fate[t] == Dropped
    ensures || (t < |ls[0].fate| && ls[0].fate[t] == Dropped)
            || DroppedSometime(ls, limit, work, t)
  {
    var n := |work|;
    if n > 0 {
      assert IsTurn(ls[n - 1], ls[n], limit, work[n - 1]);
      DropNeedsLimit(ls[n - 1], ls[n], limit, work[n - 1], t);
      if t < |ls[n - 1].fate| && ls[n - 1].fate[t] == Dropped {
        TracePrefix(ls, limit, work);
        DroppedOnlyAtLimit(ls[..n], limit, work[..n - 1], t);
        DroppedEarlier(ls, limit, work, t);
      }
    }
  }

  /** In one of the turns of a run. */
  ghost predicate DroppedSometime<K, P>(ls: seq<Ledger<K, P>>, limit: int, work: seq<Option<Message<K, P>>>, t: nat)
    requires |ls| == |work| + 1
  {
    exists k :: 0 <= k < |work| && DroppedIn(ls[k], ls[k + 1], limit, work[k], t)
  }

  lemma DroppedEarlier<K, P>(ls: seq<Ledger<K, P>>, limit: int, work: seq<Option<Message<K, P>>>, t: nat)
    requires |ls| == |work| + 1 && work != []
    ensures DroppedSometime(ls[..|work|], limit, work[..|work| - 1], t) ==> DroppedSometime(ls, limit, work, t)
  {
    var ls', work' := ls[..|work|], work[..|work| - 1];
    if DroppedSometime(ls', limit, work', t) {
      var k :| 0 <= k < |work'| && DroppedIn(ls'[k], ls'[k + 1], limit, work'[k], t);
      assert DroppedIn(ls[k], ls[k + 1], limit, work[k], t);
    }
  }

  lemma TracePrefix<K, P>(ls: seq<Ledger<K, P>>, limit: int, work: seq<Option<Message<K, P>>>)
    requires IsTrace(ls, limit, work) && work != []
    ensures IsTrace(ls[..|ls| - 1], limit, work[..|work| - 1])
  {
    var ls', work' := ls[..|ls| - 1], work[..|work| - 1];
    forall k | 0 <= k < |work'| ensures IsTurn(ls'[k], ls'[k + 1], limit, work'[k]) {
      assert IsTurn(ls[k], ls[k + 1], limit, work[k]);
    }
  }

  /** All waiting messages have keys in `keys`. */
  ghost predicate WaitingWithin<K, P>(l: Ledger<K, P>, keys: set<K>)
    requires |l.fate| == |l.consumed|
  {
    forall t :: 0 <= t < |l.fate| && l.fate[t] == Waiting ==> l.consumed[t].key in keys
  }

  ghost predicate WorkWithin<K, P>(work: seq<Option<Message<K, P>>>, keys: set<K>) {
    forall k :: 0 <= k < |work| && work[k].Some? ==> work[k].value.key in keys
  }

  lemma TurnStaysWithin<K, P>(l: Ledger<K, P>, l': Ledger<K, P>, limit: int, item: Option<Message<K, P>>, keys: set<K>)
    requires Sound(l) && Sound(l') && IsTurn(l, l', limit, item) && WaitingWithin(l, keys) && (item.Some? ==> item.value.key in keys)
    ensures WaitingWithin(l', keys)
  {
    var sent: nat :| Turn(l, l', limit, item, sent);
    forall t | 0 <= t < |l'.fate| && l'.fate[t] == Waiting ensures l'.consumed[t].key in keys {
      if t < |l.fate| { assert l.fate[t] == Waiting && l'.consumed[t] == l.consumed[t]; }
    }
  }

  /** At most one message per key waits. */
  lemma BacklogWithin<K, P>(l: Ledger<K, P>, keys: set<K>)
    requires Sound(l) && WaitingWithin(l, keys)
    ensures |l.backlog| <= |keys|
  {
    var waiting := seq(|l.backlog|, j requires 0 <= j < |l.backlog| => l.consumed[l.backlog[j]].key);
    var present := set j | 0 <= j < |waiting| :: waiting[j];
    CountDistinct(waiting, present);
    SubsetIsSmaller(present, keys);
  }

  lemma SubsetIsSmaller<K>(a: set<K>, b: set<K>)
    requires a <= b
    ensures |a| <= |b|
  {
    assert b == a + (b - a);
  }

  /**
   Where fewer keys are about than the limit allows messages, nothing is ever dropped: neither the
   messages that wait at first nor those that come.
   */
  lemma {:induction false} FewKeysLoseNothing<K, P>(ls: seq<Ledger<K, P>>, limit: int, work: seq<Option<Message<K, P>>>, keys: set<K>)
    requires IsTrace(ls, limit, work) && WaitingWithin(ls[0], keys) && WorkWithin(work, keys) && (limit == 0 || |keys| < limit)
    ensures WaitingWithin(ls[|ls| - 1], keys)
    ensures With(ls[|ls| - 1].fate, Dropped) == With(ls[0].fate, Dropped)
  {
    var n := |work|;
    if n > 0 {
      TracePrefix(ls, limit, work);
      FewKeysLoseNothing(ls[..n], limit, work[..n - 1], keys);
      assert ls[..n][|ls[..n]| - 1] == ls[n - 1];
      assert IsTurn(ls[n - 1], ls[n], limit, work[n - 1]);
      TurnStaysWithin(ls[n - 1], ls[n], limit, work[n - 1], keys);
      FewKeysTurn(ls[n - 1], ls[n], limit, work[n - 1], keys);
    }
  }

  lemma FewKeysTurn<K, P>(l: Ledger<K, P>, l': Ledger<K, P>, limit: int, item: Option<Message<K, P>>, keys: set<K>)
    requires Sound(l) && IsTurn(l, l', limit, item) && WaitingWithin(l, keys) && (limit == 0 || |keys| < limit)
    ensures With(l'.fate, Dropped) == With(l.fate, Dropped)
  {
    BacklogWithin(l, keys);
    forall t: nat ensures t in With(l'.fate, Dropped) <==> t in With(l.fate, Dropped) {
      if t in With(l'.fate, Dropped) { DropNeedsLimit(l, l', limit, item, t); }
      if t in With(l.fate, Dropped) { KeptDrop(l, l', limit, item, t); }
    }
  }

  lemma KeptDrop<K, P>(l: Ledger<K, P>, l': Ledger<K, P>, limit: int, item: Option<Message<K, P>>, t: nat)
    requires Sound(l) && IsTurn(l, l', limit, item) && t < |l.fate| && l.fate[t] == Dropped
    ensures t < |l'.fate| && l'.fate[t] == Dropped
  {
    var sent: nat :| Turn(l, l', limit, item, sent);
    assert forall k :: 0 <= k < |l.backlog| ==> l.fate[l.backlog[k]] == Waiting;
  }
}
