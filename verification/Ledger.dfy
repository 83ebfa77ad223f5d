/**
 An account of what becomes of every consumed message. Each position in the consumption order has
 exactly one fate; the delivered and the waiting positions are also listed in their own order.
 */
module Ledger {
  import opened ReplacingQueue

  datatype Message<K, P> = Message(key: K, payload: P)

  datatype Fate = Delivered | Waiting | Superseded | Dropped | Discarded

  datatype Ledger<K, P> = Ledger(
    consumed: seq<Message<K, P>>,
    fate: seq<Fate>,
    delivered: seq<nat>,
    backlog: seq<nat>)

  function Empty<K, P>(): Ledger<K, P> {
    Ledger([], [], [], [])
  }

  /** `list` holds exactly the positions with this fate, each once. */
  ghost predicate Lists(fate: seq<Fate>, list: seq<nat>, f: Fate) {
    && (forall k :: 0 <= k < |list| ==> list[k] < |fate| && fate[list[k]] == f)
    && (forall i, j :: 0 <= i < j < |list| ==> list[i] != list[j])
    && (forall t {:trigger Listed(list, t)} :: 0 <= t < |fate| && fate[t] == f ==> Listed(list, t))
  }

  ghost predicate Listed(list: seq<nat>, t: nat) {
    exists k :: 0 <= k < |list| && list[k] == t
  }

  ghost predicate Within(list: seq<nat>, n: nat) {
    forall k :: 0 <= k < |list| ==> list[k] < n
  }

  /** Per key, deliveries follow consumption order. */
  ghost predicate Ascending<K, P>(c: seq<Message<K, P>>, delivered: seq<nat>)
    requires Within(delivered, |c|)
  {
    forall i, j :: 0 <= i < j < |delivered| && c[delivered[i]].key == c[delivered[j]].key ==> delivered[i] < delivered[j]
  }

  /** Per key, what waits is later than what was delivered. */
  ghost predicate Behind<K, P>(c: seq<Message<K, P>>, delivered: seq<nat>, backlog: seq<nat>)
    requires Within(delivered, |c|) && Within(backlog, |c|)
  {
    forall i, j :: 0 <= i < |delivered| && 0 <= j < |backlog| && c[delivered[i]].key == c[backlog[j]].key ==> delivered[i] < backlog[j]
  }

  /** At most one message per key waits. */
  ghost predicate OnePerKey<K, P>(c: seq<Message<K, P>>, backlog: seq<nat>)
    requires Within(backlog, |c|)
  {
    forall i, j :: 0 <= i < j < |backlog| ==> c[backlog[i]].key != c[backlog[j]].key
  }

  ghost predicate InOrder<K, P>(c: seq<Message<K, P>>, delivered: seq<nat>, backlog: seq<nat>) {
    && Within(delivered, |c|) && Within(backlog, |c|)
    && Ascending(c, delivered) && Behind(c, delivered, backlog) && OnePerKey(c, backlog)
  }

  /** A superseded message has a later one with the same key. */
  ghost predicate Replaced<K, P>(l: Ledger<K, P>, t: nat)
    requires t < |l.consumed|
  {
    exists u :: t < u < |l.consumed| && l.consumed[u].key == l.consumed[t].key
  }

  ghost predicate Sound<K, P>(l: Ledger<K, P>) {
    && |l.fate| == |l.consumed|
    && Lists(l.fate, l.delivered, Delivered)
    && Lists(l.fate, l.backlog, Waiting)
    && InOrder(l.consumed, l.delivered, l.backlog)
    && (forall t {:trigger Replaced(l, t)} :: 0 <= t < |l.fate| && l.fate[t] == Superseded ==> Replaced(l, t))
  }

  // ----- what may happen to a message -----

  function DeliverFront<K, P>(l: Ledger<K, P>): Ledger<K, P>
    requires l.backlog != [] && l.backlog[0] < |l.fate|
  {
    l.(fate := l.fate[l.backlog[0] := Delivered], delivered := l.delivered + [l.backlog[0]], backlog := l.backlog[1..])
  }

  function DropFront<K, P>(l: Ledger<K, P>): Ledger<K, P>
    requires l.backlog != [] && l.backlog[0] < |l.fate|
  {
    l.(fate := l.fate[l.backlog[0] := Dropped], backlog := l.backlog[1..])
  }

  function DeliverNew<K, P>(l: Ledger<K, P>, m: Message<K, P>): Ledger<K, P> {
    l.(consumed := l.consumed + [m], fate := l.fate + [Delivered], delivered := l.delivered + [|l.consumed|])
  }

  function DiscardNew<K, P>(l: Ledger<K, P>, m: Message<K, P>): Ledger<K, P> {
    l.(consumed := l.consumed + [m], fate := l.fate + [Discarded])
  }

  /** A new message behind the backlog, when its key is not waiting. */
  function AppendNew<K, P>(l: Ledger<K, P>, m: Message<K, P>): Ledger<K, P> {
    l.(consumed := l.consumed + [m], fate := l.fate + [Waiting], backlog := l.backlog + [|l.consumed|])
  }

  /** A new message in the place of the waiting one with its key. */
  function ReplaceNew<K, P>(l: Ledger<K, P>, j: nat, m: Message<K, P>): Ledger<K, P>
    requires j < |l.backlog| && l.backlog[j] < |l.fate|
  {
    l.(consumed := l.consumed + [m], fate := l.fate[l.backlog[j] := Superseded] + [Waiting], backlog := l.backlog[j := |l.consumed|])
  }

  /** The whole backlog thrown away at shutdown. */
  function DiscardBacklog<K, P>(l: Ledger<K, P>): Ledger<K, P> {
    l.(fate := seq(|l.fate|, t requires 0 <= t < |l.fate| => if l.fate[t] == Waiting then Discarded else l.fate[t]), backlog := [])
  }

  lemma ListsAppend(fate: seq<Fate>, list: seq<nat>, f: Fate, g: Fate)
    requires Lists(fate, list, f)
    ensures Lists(fate + [g], if f == g then list + [|fate|] else list, f)
  {
    var list' := if f == g then list + [|fate|] else list;
    forall t | 0 <= t < |fate + [g]| && (fate + [g])[t] == f ensures Listed(list', t) {
      if t < |fate| {
        assert Listed(list, t);
        var k :| 0 <= k < |list| && list[k] == t;
        assert list'[k] == t;
      } else {
        assert list'[|list|] == t;
      }
    }
  }

  /** A listed position changes its fate: it leaves one list and may join another. */
  lemma ListsLeave(fate: seq<Fate>, list: seq<nat>, f: Fate, j: nat, g: Fate)
    requires Lists(fate, list, f) && j < |list| && g != f
    ensures Lists(fate[list[j] := g], list[..j] + list[j + 1..], f)
  {
    var list' := list[..j] + list[j + 1..];
    var fate' := fate[list[j] := g];
    forall k | 0 <= k < |list'| ensures list'[k] < |fate'| && fate'[list'[k]] == f {
      assert list'[k] == list[if k < j then k else k + 1];
    }
    forall t | 0 <= t < |fate'| && fate'[t] == f ensures Listed(list', t) {
      assert Listed(list, t);
      var k :| 0 <= k < |list| && list[k] == t;
      assert list'[if k < j then k else k - 1] == t;
    }
  }

  lemma ListsJoin(fate: seq<Fate>, list: seq<nat>, f: Fate, t: nat)
    requires Lists(fate, list, f) && t < |fate| && fate[t] != f
    ensures Lists(fate[t := f], list + [t], f)
  {
    forall u | 0 <= u < |fate| && fate[t := f][u] == f ensures Listed(list + [t], u) {
      if u == t {
        assert (list + [t])[|list|] == t;
      } else {
        assert Listed(list, u);
        var k :| 0 <= k < |list| && list[k] == u;
        assert (list + [t])[k] == u;
      }
    }
  }

  lemma ListsOther(fate: seq<Fate>, list: seq<nat>, f: Fate, t: nat, g: Fate)
    requires Lists(fate, list, f) && t < |fate| && fate[t] != f && g != f
    ensures Lists(fate[t := g], list, f)
  {
    forall u | 0 <= u < |fate| && fate[t := g][u] == f ensures Listed(list, u) {
    }
  }

  // ----- order -----

  lemma OrderConsume<K, P>(c: seq<Message<K, P>>, delivered: seq<nat>, backlog: seq<nat>, m: Message<K, P>)
    requires InOrder(c, delivered, backlog)
    ensures InOrder(c + [m], delivered, backlog)
  {
  }

  lemma OrderDeliverFront<K, P>(c: seq<Message<K, P>>, delivered: seq<nat>, backlog: seq<nat>)
    requires InOrder(c, delivered, backlog) && backlog != []
    ensures InOrder(c, delivered + [backlog[0]], backlog[1..])
    ensures InOrder(c, delivered, backlog[1..])
  {
  }

  lemma OrderDeliverLast<K, P>(c: seq<Message<K, P>>, delivered: seq<nat>, t: nat)
    requires InOrder(c, delivered, []) && t < |c| && forall k :: 0 <= k < |delivered| ==> delivered[k] < t
    ensures InOrder(c, delivered + [t], [])
  {
  }

  lemma OrderWait<K, P>(c: seq<Message<K, P>>, delivered: seq<nat>, backlog: seq<nat>, t: nat)
    requires InOrder(c, delivered, backlog) && t < |c|
    requires forall k :: 0 <= k < |delivered| ==> delivered[k] < t
    requires forall j :: 0 <= j < |backlog| ==> c[backlog[j]].key != c[t].key
    ensures InOrder(c, delivered, backlog + [t])
  {
  }

  lemma OrderReplace<K, P>(c: seq<Message<K, P>>, delivered: seq<nat>, backlog: seq<nat>, j: nat, t: nat)
    requires InOrder(c, delivered, backlog) && t < |c| && j < |backlog| && c[backlog[j]].key == c[t].key
    requires forall k :: 0 <= k < |delivered| ==> delivered[k] < t
    ensures InOrder(c, delivered, backlog[j := t])
  {
  }

  // ----- every operation keeps the account -----

  lemma DeliverFrontOk<K, P>(l: Ledger<K, P>)
    requires Sound(l) && l.backlog != []
    ensures Sound(DeliverFront(l))
  {
    ListsLeave(l.fate, l.backlog, Waiting, 0, Delivered);
    assert l.backlog[..0] + l.backlog[1..] == l.backlog[1..];
    ListsJoin(l.fate, l.delivered, Delivered, l.backlog[0]);
    OrderDeliverFront(l.consumed, l.delivered, l.backlog);
    forall t | 0 <= t < |l.fate| && DeliverFront(l).fate[t] == Superseded ensures Replaced(DeliverFront(l), t) {
      assert Replaced(l, t);
    }
  }

  lemma DropFrontOk<K, P>(l: Ledger<K, P>)
    requires Sound(l) && l.backlog != []
    ensures Sound(DropFront(l))
  {
    ListsLeave(l.fate, l.backlog, Waiting, 0, Dropped);
    assert l.backlog[..0] + l.backlog[1..] == l.backlog[1..];
    ListsOther(l.fate, l.delivered, Delivered, l.backlog[0], Dropped);
    OrderDeliverFront(l.consumed, l.delivered, l.backlog);
    forall t | 0 <= t < |l.fate| && DropFront(l).fate[t] == Superseded ensures Replaced(DropFront(l), t) {
      assert Replaced(l, t);
    }
  }

  /** Appending a message keeps every replacement. */
  lemma ReplacedAppend<K, P>(l: Ledger<K, P>, l': Ledger<K, P>, m: Message<K, P>, t: nat)
    requires t < |l.consumed| && Replaced(l, t) && l'.consumed == l.consumed + [m]
    ensures Replaced(l', t)
  {
    var u :| t < u < |l.consumed| && l.consumed[u].key == l.consumed[t].key;
    assert l'.consumed[u].key == l'.consumed[t].key;
  }

  lemma NewOk<K, P>(l: Ledger<K, P>, l': Ledger<K, P>, m: Message<K, P>, g: Fate)
    requires Sound(l) && g != Superseded
    requires l'.consumed == l.consumed + [m] && l'.fate == l.fate + [g]
    requires l'.delivered == if g == Delivered then l.delivered + [|l.fate|] else l.delivered
    requires l'.backlog == if g == Waiting then l.backlog + [|l.fate|] else l.backlog
    requires InOrder(l'.consumed, l'.delivered, l'.backlog)
    ensures Sound(l')
  {
    ListsAppend(l.fate, l.delivered, Delivered, g);
    ListsAppend(l.fate, l.backlog, Waiting, g);
    forall t | 0 <= t < |l'.fate| && l'.fate[t] == Superseded ensures Replaced(l', t) {
      ReplacedAppend(l, l', m, t);
    }
  }

  lemma DeliverNewOk<K, P>(l: Ledger<K, P>, m: Message<K, P>)
    requires Sound(l) && l.backlog == []
    ensures Sound(DeliverNew(l, m))
  {
    OrderConsume(l.consumed, l.delivered, l.backlog, m);
    OrderDeliverLast(l.consumed + [m], l.delivered, |l.consumed|);
    NewOk(l, DeliverNew(l, m), m, Delivered);
  }

  lemma DiscardNewOk<K, P>(l: Ledger<K, P>, m: Message<K, P>)
    requires Sound(l)
    ensures Sound(DiscardNew(l, m))
  {
    OrderConsume(l.consumed, l.delivered, l.backlog, m);
    NewOk(l, DiscardNew(l, m), m, Discarded);
  }

  lemma AppendNewOk<K, P>(l: Ledger<K, P>, m: Message<K, P>)
    requires Sound(l) && forall j :: 0 <= j < |l.backlog| ==> l.consumed[l.backlog[j]].key != m.key
    ensures Sound(AppendNew(l, m))
  {
    OrderConsume(l.consumed, l.delivered, l.backlog, m);
    OrderWait(l.consumed + [m], l.delivered, l.backlog, |l.consumed|);
    NewOk(l, AppendNew(l, m), m, Waiting);
  }

  lemma ReplaceNewOk<K, P>(l: Ledger<K, P>, j: nat, m: Message<K, P>)
    requires Sound(l) && j < |l.backlog| && l.consumed[l.backlog[j]].key == m.key
    ensures Sound(ReplaceNew(l, j, m))
  {
    var l' := ReplaceNew(l, j, m);
    var n, b := |l.consumed|, l.backlog[j];
    OrderConsume(l.consumed, l.delivered, l.backlog, m);
    OrderReplace(l.consumed + [m], l.delivered, l.backlog, j, n);
    ListsOther(l.fate, l.delivered, Delivered, b, Superseded);
    ListsAppend(l.fate[b := Superseded], l.delivered, Delivered, Waiting);
    ListsReplace(l.fate, l.backlog, j);
    forall t | 0 <= t < |l'.fate| && l'.fate[t] == Superseded ensures Replaced(l', t) {
      if t == b {
        assert l'.consumed[n].key == l'.consumed[t].key;
      } else {
        ReplacedAppend(l, l', m, t);
      }
    }
  }

  lemma ListsReplace(fate: seq<Fate>, list: seq<nat>, j: nat)
    requires Lists(fate, list, Waiting) && j < |list|
    ensures Lists(fate[list[j] := Superseded] + [Waiting], list[j := |fate|], Waiting)
  {
    var fate', list' := fate[list[j] := Superseded] + [Waiting], list[j := |fate|];
    forall t | 0 <= t < |fate'| && fate'[t] == Waiting ensures Listed(list', t) {
      if t == |fate| {
        assert list'[j] == t;
      } else {
        assert Listed(list, t);
        var k :| 0 <= k < |list| && list[k] == t;
        assert list'[k] == t;
      }
    }
  }

  lemma DiscardBacklogOk<K, P>(l: Ledger<K, P>)
    requires Sound(l)
    ensures Sound(DiscardBacklog(l))
  {
    var l' := DiscardBacklog(l);
    forall t | 0 <= t < |l'.fate| && l'.fate[t] == Delivered ensures Listed(l'.delivered, t) {
    }
    forall t | 0 <= t < |l'.fate| && l'.fate[t] == Superseded ensures Replaced(l', t) {
      assert Replaced(l, t);
    }
  }

  // ----- what a sound account says -----

  ghost function With(fate: seq<Fate>, f: Fate): set<nat> {
    set t | 0 <= t < |fate| && fate[t] == f
  }

  lemma {:induction false} FatesAddUp(fate: seq<Fate>)
    ensures |fate| == |With(fate, Delivered)| + |With(fate, Waiting)| + |With(fate, Superseded)|
                      + |With(fate, Dropped)| + |With(fate, Discarded)|
  {
    if fate != [] {
      FatesAddUp(fate[..|fate| - 1]);
      WithStep(fate, Delivered);
      WithStep(fate, Waiting);
      WithStep(fate, Superseded);
      WithStep(fate, Dropped);
      WithStep(fate, Discarded);
    }
  }

  lemma WithStep(fate: seq<Fate>, f: Fate)
    requires fate != []
    ensures |With(fate, f)| == |With(fate[..|fate| - 1], f)| + if fate[|fate| - 1] == f then 1 else 0
  {
    var n := |fate| - 1;
    assert With(fate, f) == With(fate[..n], f) + if fate[n] == f then {n} else {};
    assert n !in With(fate[..n], f);
  }

  /**
   Conservation: messages consumed = delivered + waiting + superseded by a later message with the
   same key + dropped at the depth limit + discarded at shutdown.
   */
  lemma Conservation<K, P>(l: Ledger<K, P>)
    requires Sound(l)
    ensures |l.consumed| == |l.delivered| + |l.backlog| + |With(l.fate, Superseded)|
                            + |With(l.fate, Dropped)| + |With(l.fate, Discarded)|
  {
    FatesAddUp(l.fate);
    forall t ensures t in With(l.fate, Delivered) <==> t in l.delivered {
      if t in With(l.fate, Delivered) { assert Listed(l.delivered, t); }
    }
    forall t ensures t in With(l.fate, Waiting) <==> t in l.backlog {
      if t in With(l.fate, Waiting) { assert Listed(l.backlog, t); }
    }
    CountDistinct(l.delivered, With(l.fate, Delivered));
    CountDistinct(l.backlog, With(l.fate, Waiting));
  }

  /**
   Freshness: if nothing was dropped or discarded, the latest message of every key either waits, or
   was delivered and is the last one delivered for its key, and then none of its key waits.
   */
  lemma Freshness<K, P>(l: Ledger<K, P>, t: nat)
    requires Sound(l) && t < |l.consumed|
    requires forall u :: t < u < |l.consumed| ==> l.consumed[u].key != l.consumed[t].key
    requires l.fate[t] != Dropped && l.fate[t] != Discarded
    ensures l.fate[t] == Waiting || l.fate[t] == Delivered
    ensures l.fate[t] == Waiting ==> t in l.backlog
    ensures l.fate[t] == Delivered ==>
      && t in l.delivered
      && (forall k :: 0 <= k < |l.delivered| && l.consumed[l.delivered[k]].key == l.consumed[t].key ==> l.delivered[k] <= t)
      && (forall j :: 0 <= j < |l.backlog| ==> l.consumed[l.backlog[j]].key != l.consumed[t].key)
  {
    assert l.fate[t] == Superseded ==> Replaced(l, t);
    if l.fate[t] == Waiting { assert Listed(l.backlog, t); }
    if l.fate[t] == Delivered {
      assert Listed(l.delivered, t);
      var k :| 0 <= k < |l.delivered| && l.delivered[k] == t;
    }
  }
}
