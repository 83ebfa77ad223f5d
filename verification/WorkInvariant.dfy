/** What every action of the work scheduler keeps. */
module WorkInvariant {
  import opened Wrappers
  import opened WorkModel

  // ----- the log as an independent account of the table -----

  /** What one event does to the row of `work`: an update of a missing row changes nothing. */
  function Effect(e: Event, work: Work, before: Option<Row>): Option<Row> {
    if e.work != work then before
    else if e.Created? then Some(e.row)
    else if before.None? then None
    else match e
      case Claimed(_, _, now, hold) => Some(HeldRow(now, hold))
      case Explicit(_, next) => Some(Row(next, true))
      case FlagReset(_, _) => Some(before.value.(nextTimeSet := false))
      case Rescheduled(_, _, next) => Some(Row(next, true))
      case RunStarted(_, _) => before
      case _ => None
  }

  /** The row of `work` after the events of `log`. */
  function Replay(log: seq<Event>, work: Work): Option<Row> {
    if log == [] then None
    else Effect(log[|log| - 1], work, Replay(log[..|log| - 1], work))
  }

  /** A finished run deleted `work` and it was not posted again since. */
  predicate Retired(log: seq<Event>, work: Work) {
    log != [] &&
    var e := log[|log| - 1];
    if e.work == work && e.Deleted? then true
    else if e.work == work && e.Created? then false
    else Retired(log[..|log| - 1], work)
  }

  /**
   A work is posted only when it has no row; a claim takes a row that is due at the claimer's own
   time; a run does not start on a retired work, and only on one whose flag the same worker has reset
   and which nobody has reset, rescheduled or retired since.
   */
  ghost predicate EventOk(before: seq<Event>, e: Event) {
    match e
    case Created(work, _) => Replay(before, work).None?
    case Claimed(work, _, now, _) => Replay(before, work).Some? && Replay(before, work).value.nextTime <= now
    case RunStarted(work, w) => !Retired(before, work) && IsOwner(before, work, w)
    case _ => true
  }

  ghost predicate LogOk(log: seq<Event>) {
    log == [] || (LogOk(log[..|log| - 1]) && EventOk(log[..|log| - 1], log[|log| - 1]))
  }

  // ----- what the processes rely on -----

  predicate HoldsRefLock(p: Phase) {
    !p.Idle? && !p.Wanting?
  }

  predicate PastReset(p: Phase) {
    p.Armed? || p.Running? || p.Ran? || p.Finishing?
  }

  ghost predicate WorkerOk(s: State, w: nat) {
    var p := PhaseOf(s, w);
    && (HoldsRefLock(p) ==> LockKey(p.work) in s.refLocks && s.refLocks[LockKey(p.work)] == w)
    && (p.Finishing? && p.found ==> p.work in s.rows && p.work in s.rowLocks && s.rowLocks[p.work] == ByWorker(w))
    && (p.Probed? || p.Armed? ==> !Retired(s.log, p.work))
    && (PastReset(p) ==> OwnedSinceReset(s.log, p.work, w, p.resetAt))
  }

  /** Since its reset at `resetAt`, only this worker may reset, reschedule or retire the work, and it has not. */
  ghost predicate OwnedSinceReset(log: seq<Event>, work: Work, w: nat, resetAt: nat) {
    && resetAt < |log|
    && log[resetAt] == FlagReset(work, w)
    && forall k :: resetAt < k < |log| && log[k].work == work ==>
         !log[k].FlagReset? && !log[k].Rescheduled? && !log[k].Deleted?
  }

  ghost predicate IsOwner(log: seq<Event>, work: Work, w: nat) {
    exists resetAt: nat :: OwnedSinceReset(log, work, w, resetAt)
  }

  ghost predicate ClaimOk(s: State, c: nat) {
    var claim := ClaimOf(s, c);
    && (InTransaction(claim) ==>
          && NoDuplicates(claim.ids)
          && (forall k :: 0 <= k < |claim.ids| ==> Leased(s, c, claim.now, claim.ids[k])))
    && ClaimShapeOk(claim)
  }

  /** A claim in progress, by itself: it stays within its limit, and what it has listed again is what it has leased. */
  ghost predicate ClaimShapeOk(claim: Claim) {
    match claim
    case Holding(_, _, limit, todo, ids) =>
      |todo| + |ids| <= limit && NoDuplicates(todo) && forall k :: 0 <= k < |ids| ==> ids[k] !in todo
    case Relisted(now, hold, limit, ids, works) => |ids| <= limit && AreTheLeases(works, ids, HeldRow(now, hold))
    case _ => true
  }

  /** `works` are exactly the works of `ids`, each once, with the row `held`. */
  ghost predicate AreTheLeases(works: seq<(Work, Row)>, ids: seq<Work>, held: Row) {
    multiset(Firsts(works)) == multiset(ids) && forall k :: 0 <= k < |works| ==> works[k].1 == held
  }

  /** The primary key. */
  ghost predicate UniqueIds(rows: map<Work, Row>) {
    forall a, b :: a in rows && b in rows && a.id == b.id ==> a == b
  }

  /** A row that claim `c` has leased but not yet committed: locked, and still due in the table. */
  ghost predicate Leased(s: State, c: nat, now: int, work: Work) {
    && work in s.rowLocks && s.rowLocks[work] == ByClaim(c)
    && work in s.rows && s.rows[work].nextTime <= now
  }

  ghost predicate TableIsReplay(s: State) {
    forall work :: Replay(s.log, work) == Get(s.rows, work)
  }

  ghost predicate Inv(s: State) {
    && TableIsReplay(s)
    && LogOk(s.log)
    && UniqueIds(s.rows)
    && (forall w :: WorkerOk(s, w))
    && (forall c :: ClaimOk(s, c))
  }

  // ----- small facts about logs -----

  lemma ReplayAppend(log: seq<Event>, e: Event, work: Work)
    ensures Replay(log + [e], work) == Effect(e, work, Replay(log, work))
  {
    assert (log + [e])[..|log|] == log;
  }

  lemma RetiredAppend(log: seq<Event>, e: Event, work: Work)
    ensures Retired(log + [e], work) ==
            (if e.work == work && e.Deleted? then true
             else if e.work == work && e.Created? then false
             else Retired(log, work))
  {
    assert (log + [e])[..|log|] == log;
  }

  lemma LogOkAppend(log: seq<Event>, e: Event)
    requires LogOk(log) && EventOk(log, e)
    ensures LogOk(log + [e])
  {
    assert (log + [e])[..|log|] == log;
  }

  /** A retired work has no row. */
  lemma {:induction false} RetiredHasNoRow(log: seq<Event>, work: Work)
    requires Retired(log, work)
    ensures Replay(log, work).None?
  {
    var e := log[|log| - 1];
    if !(e.work == work && e.Deleted?) {
      RetiredHasNoRow(log[..|log| - 1], work);
    }
  }

  /** Every event of a sound log was sound where it happened. */
  lemma {:induction false} EventOkAt(log: seq<Event>, j: nat)
    requires LogOk(log) && j < |log|
    ensures EventOk(log[..j], log[j])
  {
    if j < |log| - 1 {
      EventOkAt(log[..|log| - 1], j);
      assert log[..|log| - 1][..j] == log[..j];
    }
  }

  /** What a batch of claims does to the row of one work. */
  lemma {:induction false} ClaimsReplay(log: seq<Event>, c: nat, now: int, hold: int, ids: seq<Work>, work: Work)
    requires work in ids ==> Replay(log, work).Some?
    ensures Replay(log + ClaimEvents(c, now, hold, ids), work)
            == if work in ids then Some(HeldRow(now, hold)) else Replay(log, work)
    ensures Retired(log + ClaimEvents(c, now, hold, ids), work) == Retired(log, work)
  {
    if ids == [] {
      assert log + ClaimEvents(c, now, hold, ids) == log;
    } else {
      var n := |ids| - 1;
      var e := Claimed(ids[n], c, now, hold);
      var before := log + ClaimEvents(c, now, hold, ids[..n]);
      assert ids == ids[..n] + [ids[n]];
      assert log + ClaimEvents(c, now, hold, ids) == before + [e];
      ClaimsReplay(log, c, now, hold, ids[..n], work);
      ReplayAppend(before, e, work);
      RetiredAppend(before, e, work);
    }
  }

  /** A batch of claims of distinct due rows keeps the log sound. */
  lemma {:induction false} ClaimsLogOk(log: seq<Event>, c: nat, now: int, hold: int, ids: seq<Work>)
    requires LogOk(log) && NoDuplicates(ids)
    requires forall k :: 0 <= k < |ids| ==> Replay(log, ids[k]).Some? && Replay(log, ids[k]).value.nextTime <= now
    ensures LogOk(log + ClaimEvents(c, now, hold, ids))
  {
    if ids == [] {
      assert log + ClaimEvents(c, now, hold, ids) == log;
    } else {
      var n := |ids| - 1;
      var e := Claimed(ids[n], c, now, hold);
      var before := log + ClaimEvents(c, now, hold, ids[..n]);
      assert log + ClaimEvents(c, now, hold, ids) == before + [e];
      ClaimsLogOk(log, c, now, hold, ids[..n]);
      ClaimsReplay(log, c, now, hold, ids[..n], ids[n]);
      LogOkAppend(before, e);
    }
  }

  // ----- preservation, one group of actions at a time -----

  /** The table follows the log when one event is appended. */
  lemma TableFollows(s: State, e: Event, t: State)
    requires TableIsReplay(s) && t.log == s.log + [e]
    requires forall work :: Get(t.rows, work) == Effect(e, work, Get(s.rows, work))
    ensures TableIsReplay(t)
  {
    forall work ensures Replay(t.log, work) == Get(t.rows, work) {
      ReplayAppend(s.log, e, work);
    }
  }

  /** An event about another work, or one that leaves ownership alone, keeps a worker's view of the log. */
  lemma OwnershipAppend(log: seq<Event>, e: Event, work: Work, w: nat, resetAt: nat)
    requires OwnedSinceReset(log, work, w, resetAt)
    requires e.work == work ==> !e.FlagReset? && !e.Rescheduled? && !e.Deleted?
    ensures OwnedSinceReset(log + [e], work, w, resetAt)
  {
  }

  // ----- frames: what keeps the view of a process that does not move -----

  /** Locks held by `owner` stay, and so do the rows under them. */
  ghost predicate KeepsLocksOf(s: State, t: State, owner: Owner) {
    forall work :: work in s.rowLocks && s.rowLocks[work] == owner ==>
      && work in t.rowLocks && t.rowLocks[work] == owner
      && (work in s.rows ==> work in t.rows && t.rows[work] == s.rows[work])
  }

  lemma ClaimFrame(s: State, t: State, c: nat)
    requires ClaimOk(s, c) && ClaimOf(t, c) == ClaimOf(s, c) && KeepsLocksOf(s, t, ByClaim(c))
    ensures ClaimOk(t, c)
  {
    var claim := ClaimOf(s, c);
    if InTransaction(claim) {
      forall k | 0 <= k < |claim.ids| ensures Leased(t, c, claim.now, claim.ids[k]) {
        assert Leased(s, c, claim.now, claim.ids[k]);
      }
    }
  }

  ghost predicate KeepsRefLockOf(s: State, t: State, w: nat) {
    forall key :: key in s.refLocks && s.refLocks[key] == w ==> key in t.refLocks && t.refLocks[key] == w
  }

  lemma WorkerFrame(s: State, t: State, w: nat)
    requires WorkerOk(s, w) && PhaseOf(t, w) == PhaseOf(s, w) && KeepsLocksOf(s, t, ByWorker(w)) && KeepsRefLockOf(s, t, w)
    requires t.log == s.log
    ensures WorkerOk(t, w)
  {
  }

  /** The same when one event is appended that leaves this worker's ownership alone. */
  lemma WorkerFrameAppend(s: State, t: State, e: Event, w: nat)
    requires WorkerOk(s, w) && PhaseOf(t, w) == PhaseOf(s, w) && KeepsLocksOf(s, t, ByWorker(w)) && KeepsRefLockOf(s, t, w)
    requires t.log == s.log + [e]
    requires HoldsRefLock(PhaseOf(s, w)) && e.work == PhaseOf(s, w).work ==> !e.FlagReset? && !e.Rescheduled? && !e.Deleted?
    ensures WorkerOk(t, w)
  {
    var p := PhaseOf(s, w);
    if HoldsRefLock(p) {
      RetiredAppend(s.log, e, p.work);
      if PastReset(p) { OwnershipAppend(s.log, e, p.work, w, p.resetAt); }
    }
  }

  predicate IsTableAction(a: Action) {
    a.Post? || a.Remove? || a.SetNext?
  }

  lemma TableActionKeepsInv(s: State, a: Action)
    requires Inv(s) && Enabled(s, a) && IsTableAction(a)
    ensures Inv(Apply(s, a))
  {
    var t := Apply(s, a);
    TableActionKeepsTable(s, a);
    TableActionKeepsIds(s, a);
    forall w ensures WorkerOk(t, w) {
      TableActionKeepsWorker(s, a, w);
    }
    forall c ensures ClaimOk(t, c) {
      TableActionIsolation(s, a, ByClaim(c));
      ClaimFrame(s, t, c);
    }
  }

  lemma TableActionKeepsIds(s: State, a: Action)
    requires UniqueIds(s.rows) && Enabled(s, a) && IsTableAction(a)
    ensures UniqueIds(Apply(s, a).rows)
  {
    if a.Post? { assert Apply(s, a).rows.Keys == s.rows.Keys + {a.work}; }
  }

  /** The event that a table action appends. */
  function TableEvent(a: Action): Event
    requires IsTableAction(a)
  {
    match a
    case Post(work, row) => Created(work, row)
    case Remove(work) => Removed(work)
    case SetNext(work, next) => Explicit(work, next)
  }

  lemma TableActionKeepsWorker(s: State, a: Action, w: nat)
    requires WorkerOk(s, w) && Enabled(s, a) && IsTableAction(a)
    ensures WorkerOk(Apply(s, a), w)
  {
    TableActionIsolation(s, a, ByWorker(w));
    WorkerFrameAppend(s, Apply(s, a), TableEvent(a), w);
  }

  /** A statement outside the transactions touches only an unlocked row. */
  lemma TableActionIsolation(s: State, a: Action, owner: Owner)
    requires Enabled(s, a) && IsTableAction(a)
    ensures KeepsLocksOf(s, Apply(s, a), owner)
  {
  }

  lemma TableActionKeepsTable(s: State, a: Action)
    requires TableIsReplay(s) && LogOk(s.log) && Enabled(s, a) && IsTableAction(a)
    ensures TableIsReplay(Apply(s, a)) && LogOk(Apply(s, a).log)
  {
    var t := Apply(s, a);
    var e := TableEvent(a);
    assert Replay(s.log, e.work) == Get(s.rows, e.work);
    assert Get(t.rows, e.work) == Effect(e, e.work, Get(s.rows, e.work));
    TableFollows(s, e, t);
    LogOkAppend(s.log, e);
  }

  predicate IsClaimAction(a: Action) {
    a.ClaimStart? || a.ClaimList? || a.ClaimAbort?
  }

  lemma ClaimActionKeepsInv(s: State, a: Action)
    requires Inv(s) && Enabled(s, a) && IsClaimAction(a)
    ensures Inv(Apply(s, a))
  {
    var t := Apply(s, a);
    assert t.rows == s.rows && t.log == s.log;
    forall w ensures WorkerOk(t, w) {
      assert WorkerOk(s, w);
    }
    forall c ensures ClaimOk(t, c) {
      assert ClaimOk(s, c);
    }
  }

  lemma ClaimRelistKeepsInv(s: State, c: nat, works: seq<(Work, Row)>)
    requires Inv(s) && Enabled(s, ClaimRelist(c, works))
    ensures Inv(Apply(s, ClaimRelist(c, works)))
  {
    var t := Apply(s, ClaimRelist(c, works));
    assert t.rows == s.rows && t.log == s.log && t.rowLocks == s.rowLocks;
    assert ClaimOk(s, c);
    RelistIsTheLeases(s, c, works);
    forall w ensures WorkerOk(t, w) {
      WorkerFrame(s, t, w);
    }
    forall d ensures ClaimOk(t, d) {
      if d != c { ClaimFrame(s, t, d); } else { RelistKeepsOwn(s, c, works); }
    }
  }

  lemma RelistKeepsOwn(s: State, c: nat, works: seq<(Work, Row)>)
    requires ClaimOk(s, c) && Enabled(s, ClaimRelist(c, works))
    requires AreTheLeases(works, ClaimOf(s, c).ids, HeldRow(ClaimOf(s, c).now, ClaimOf(s, c).hold))
    ensures ClaimOk(Apply(s, ClaimRelist(c, works)), c)
  {
    var t := Apply(s, ClaimRelist(c, works));
    var claim := ClaimOf(s, c);
    forall k | 0 <= k < |claim.ids| ensures Leased(t, c, claim.now, claim.ids[k]) {
      assert Leased(s, c, claim.now, claim.ids[k]);
    }
  }

  /**
   Whatever order the database answers in, the second listing gives all leased works and nothing
   else: their rows are still there because the transaction holds their locks, and ids are unique.
   */
  lemma RelistIsTheLeases(s: State, c: nat, works: seq<(Work, Row)>)
    requires ClaimOk(s, c) && UniqueIds(s.rows) && Enabled(s, ClaimRelist(c, works))
    ensures AreTheLeases(works, ClaimOf(s, c).ids, HeldRow(ClaimOf(s, c).now, ClaimOf(s, c).hold))
  {
    var claim := ClaimOf(s, c);
    var ids := claim.ids;
    var view := WithLeases(s.rows, ids, HeldRow(claim.now, claim.hold));
    forall work ensures work in Firsts(works) <==> work in ids {
      if work in ids {
        var k :| 0 <= k < |ids| && ids[k] == work;
        assert Leased(s, c, claim.now, ids[k]);
        assert work in view && HasId(ids, work.id);
      }
      if work in Firsts(works) {
        var j :| 0 <= j < |works| && Firsts(works)[j] == work;
        assert works[j].0 in view && HasId(ids, works[j].0.id);
        var k :| 0 <= k < |ids| && ids[k].id == work.id;
        assert Leased(s, c, claim.now, ids[k]);
      }
    }
    SameElements(Firsts(works), ids);
    forall k | 0 <= k < |works| ensures works[k].1 == HeldRow(claim.now, claim.hold) {
      assert works[k].0 in view && Firsts(works)[k] in Firsts(works);
    }
  }

  lemma {:induction false} CountOnce<T>(s: seq<T>, x: T)
    requires NoDuplicates(s)
    ensures multiset(s)[x] == if x in s then 1 else 0
  {
    if s != [] {
      var n := |s| - 1;
      assert s == s[..n] + [s[n]];
      CountOnce(s[..n], x);
    }
  }

  /** Two lists of the same elements without duplicates are permutations of each other. */
  lemma SameElements<T>(a: seq<T>, b: seq<T>)
    requires NoDuplicates(a) && NoDuplicates(b) && forall x :: x in a <==> x in b
    ensures multiset(a) == multiset(b)
  {
    forall x ensures multiset(a)[x] == multiset(b)[x] {
      CountOnce(a, x);
      CountOnce(b, x);
    }
  }

  lemma ClaimNextKeepsInv(s: State, c: nat)
    requires Inv(s) && Enabled(s, ClaimNext(c))
    ensures Inv(Apply(s, ClaimNext(c)))
  {
    var t := Apply(s, ClaimNext(c));
    assert t.rows == s.rows && t.log == s.log;
    assert ClaimOk(s, c);
    ClaimNextKeepsOwn(s, c);
    forall w ensures WorkerOk(t, w) {
      assert WorkerOk(s, w);
      ClaimNextKeepsWorker(s, c, w);
    }
    forall d ensures ClaimOk(t, d) {
      assert ClaimOk(s, d);
      if d != c { ClaimNextKeepsOther(s, c, d); }
    }
  }

  lemma ClaimNextKeepsWorker(s: State, c: nat, w: nat)
    requires Enabled(s, ClaimNext(c)) && WorkerOk(s, w)
    ensures WorkerOk(Apply(s, ClaimNext(c)), w)
  {
    ClaimNextIsolation(s, c, ByWorker(w));
    WorkerFrame(s, Apply(s, ClaimNext(c)), w);
  }

  lemma ClaimNextKeepsOther(s: State, c: nat, d: nat)
    requires Enabled(s, ClaimNext(c)) && ClaimOk(s, d) && d != c
    ensures ClaimOk(Apply(s, ClaimNext(c)), d)
  {
    ClaimNextIsolation(s, c, ByClaim(d));
    ClaimFrame(s, Apply(s, ClaimNext(c)), d);
  }

  /** Leasing a row takes no lock that anybody holds. */
  lemma ClaimNextIsolation(s: State, c: nat, owner: Owner)
    requires Enabled(s, ClaimNext(c))
    ensures KeepsLocksOf(s, Apply(s, ClaimNext(c)), owner)
  {
    assert Apply(s, ClaimNext(c)).rows == s.rows;
  }

  lemma ClaimNextKeepsOwn(s: State, c: nat)
    requires Enabled(s, ClaimNext(c)) && ClaimOk(s, c)
    ensures ClaimOk(Apply(s, ClaimNext(c)), c)
  {
    var t := Apply(s, ClaimNext(c));
    var claim, after := ClaimOf(s, c), ClaimOf(t, c);
    ClaimNextKeepsShape(claim, after);
    ClaimNextIsolation(s, c, ByClaim(c));
    forall k | 0 <= k < |claim.ids| ensures Leased(t, c, claim.now, claim.ids[k]) {
      assert Leased(s, c, claim.now, claim.ids[k]);
    }
    if after.ids != claim.ids {
      assert Leased(t, c, claim.now, claim.todo[0]);
    }
  }

  /** One work leaves the list; if it is leased, it joins the ids. */
  lemma ClaimNextKeepsShape(claim: Claim, after: Claim)
    requires claim.Holding? && claim.todo != [] && ClaimShapeOk(claim) && NoDuplicates(claim.ids)
    requires after == claim.(todo := claim.todo[1..]) || after == claim.(todo := claim.todo[1..], ids := claim.ids + [claim.todo[0]])
    ensures ClaimShapeOk(after) && NoDuplicates(after.ids)
  {
    assert forall k :: 0 <= k < |claim.ids| ==> claim.ids[k] !in claim.todo;
    assert forall k :: 0 <= k < |after.todo| ==> after.todo[k] == claim.todo[k + 1];
  }

  lemma ClaimCommitKeepsInv(s: State, c: nat)
    requires Inv(s) && Enabled(s, ClaimCommit(c))
    ensures Inv(Apply(s, ClaimCommit(c)))
  {
    var t := Apply(s, ClaimCommit(c));
    ClaimCommitKeepsTable(s, c);
    assert t.rows.Keys == s.rows.Keys;
    assert ClaimOk(s, c);
    forall w ensures WorkerOk(t, w) {
      CommittedClaimIsolation(s, c, ByWorker(w));
      ClaimCommitKeepsWorker(s, c, w);
    }
    forall d ensures ClaimOk(t, d) {
      assert ClaimOk(s, d);
      if d != c {
        CommittedClaimIsolation(s, c, ByClaim(d));
        ClaimFrame(s, t, d);
      }
    }
  }

  lemma ClaimCommitKeepsTable(s: State, c: nat)
    requires Inv(s) && Enabled(s, ClaimCommit(c))
    ensures TableIsReplay(Apply(s, ClaimCommit(c))) && LogOk(Apply(s, ClaimCommit(c)).log)
  {
    var t := Apply(s, ClaimCommit(c));
    var claim := ClaimOf(s, c);
    LeasedRowsAreDue(s, c);
    ClaimsLogOk(s.log, c, claim.now, claim.hold, claim.ids);
    forall work ensures Replay(t.log, work) == Get(t.rows, work) {
      assert Replay(s.log, work) == Get(s.rows, work);
      ClaimsReplay(s.log, c, claim.now, claim.hold, claim.ids, work);
    }
  }

  lemma ClaimCommitKeepsWorker(s: State, c: nat, w: nat)
    requires Inv(s) && Enabled(s, ClaimCommit(c)) && KeepsLocksOf(s, Apply(s, ClaimCommit(c)), ByWorker(w))
    ensures WorkerOk(Apply(s, ClaimCommit(c)), w)
  {
    var claim := ClaimOf(s, c);
    var p := PhaseOf(s, w);
    assert WorkerOk(s, w);
    if p.Probed? || p.Armed? {
      LeasedRowsAreDue(s, c);
      ClaimsReplay(s.log, c, claim.now, claim.hold, claim.ids, p.work);
    }
  }

  lemma LeasedRowsAreDue(s: State, c: nat)
    requires Inv(s) && InTransaction(ClaimOf(s, c))
    ensures NoDuplicates(ClaimOf(s, c).ids)
    ensures forall k :: 0 <= k < |ClaimOf(s, c).ids| ==>
      && Leased(s, c, ClaimOf(s, c).now, ClaimOf(s, c).ids[k])
      && Replay(s.log, ClaimOf(s, c).ids[k]).Some?
      && Replay(s.log, ClaimOf(s, c).ids[k]).value.nextTime <= ClaimOf(s, c).now
  {
    assert ClaimOk(s, c);
    forall k | 0 <= k < |ClaimOf(s, c).ids|
      ensures Leased(s, c, ClaimOf(s, c).now, ClaimOf(s, c).ids[k])
      ensures Replay(s.log, ClaimOf(s, c).ids[k]) == Get(s.rows, ClaimOf(s, c).ids[k])
    {
    }
  }

  /** A committed claim touches only rows under its own locks. */
  lemma CommittedClaimIsolation(s: State, c: nat, owner: Owner)
    requires ClaimOk(s, c) && Enabled(s, ClaimCommit(c)) && owner != ByClaim(c)
    ensures KeepsLocksOf(s, Apply(s, ClaimCommit(c)), owner)
  {
    var ids := ClaimOf(s, c).ids;
    forall work | work in ids ensures work in s.rowLocks && s.rowLocks[work] == ByClaim(c) {
      var k :| 0 <= k < |ids| && ids[k] == work;
      assert Leased(s, c, ClaimOf(s, c).now, ids[k]);
    }
  }

  // ----- workers -----

  predicate IsSilentWorkerAction(a: Action) {
    a.Take? || a.Acquire? || a.GiveUp? || a.Probe? || a.AcquireFails? || a.EndRun? || a.FinishRead? || a.FinishAbort?
    || a.Release? || a.ReleaseFails?
  }

  /** Locks of reference ids: a worker that keeps its phase keeps its lock. */
  lemma SilentWorkerActionKeepsInv(s: State, a: Action)
    requires Inv(s) && Enabled(s, a) && IsSilentWorkerAction(a)
    ensures Inv(Apply(s, a))
  {
    var t := Apply(s, a);
    assert t.rows == s.rows && t.log == s.log;
    SilentWorkerActionKeepsOwn(s, a);
    assert WorkerOk(s, a.w);
    forall w ensures WorkerOk(t, w) {
      if w != a.w {
        assert WorkerOk(s, w);
        SilentActionKeepsOther(s, a, w);
      }
    }
    forall c ensures ClaimOk(t, c) {
      assert ClaimOk(s, c);
      SilentActionKeepsClaim(s, a, c);
    }
  }

  lemma SilentActionKeepsOther(s: State, a: Action, w: nat)
    requires IsSilentWorkerAction(a) && Enabled(s, a) && w != a.w && WorkerOk(s, a.w) && WorkerOk(s, w)
    ensures WorkerOk(Apply(s, a), w)
  {
    SilentIsolation(s, a, ByWorker(w));
    SilentKeepsRefLock(s, a, w);
    WorkerFrame(s, Apply(s, a), w);
  }

  lemma SilentActionKeepsClaim(s: State, a: Action, c: nat)
    requires IsSilentWorkerAction(a) && Enabled(s, a) && ClaimOk(s, c)
    ensures ClaimOk(Apply(s, a), c)
  {
    SilentIsolation(s, a, ByClaim(c));
    ClaimFrame(s, Apply(s, a), c);
  }

  lemma SilentIsolation(s: State, a: Action, owner: Owner)
    requires IsSilentWorkerAction(a) && Enabled(s, a) && owner != ByWorker(a.w)
    ensures KeepsLocksOf(s, Apply(s, a), owner)
  {
    assert Apply(s, a).rows == s.rows;
  }

  /** A lock that another worker holds is neither taken nor released. */
  lemma SilentKeepsRefLock(s: State, a: Action, w: nat)
    requires IsSilentWorkerAction(a) && Enabled(s, a) && w != a.w && WorkerOk(s, a.w)
    ensures KeepsRefLockOf(s, Apply(s, a), w) && PhaseOf(Apply(s, a), w) == PhaseOf(s, w)
  {
    if a.Acquire? {
      AcquireKeepsRefLock(s, a.w, w);
    } else if a.Release? {
      ReleaseKeepsRefLock(s, a.w, w);
    } else {
      OthersKeepRefLocks(s, a);
    }
  }

  lemma OthersKeepRefLocks(s: State, a: Action)
    requires IsSilentWorkerAction(a) && !a.Acquire? && !a.Release? && Enabled(s, a)
    ensures Apply(s, a).refLocks == s.refLocks
    ensures forall w :: w != a.w ==> PhaseOf(Apply(s, a), w) == PhaseOf(s, w)
  {
  }

  lemma AcquireKeepsRefLock(s: State, v: nat, w: nat)
    requires Enabled(s, Acquire(v)) && w != v
    ensures KeepsRefLockOf(s, Apply(s, Acquire(v)), w) && PhaseOf(Apply(s, Acquire(v)), w) == PhaseOf(s, w)
  {
  }

  lemma ReleaseKeepsRefLock(s: State, v: nat, w: nat)
    requires Enabled(s, Release(v)) && w != v && WorkerOk(s, v)
    ensures KeepsRefLockOf(s, Apply(s, Release(v)), w) && PhaseOf(Apply(s, Release(v)), w) == PhaseOf(s, w)
  {
  }

  lemma SilentWorkerActionKeepsOwn(s: State, a: Action)
    requires Inv(s) && Enabled(s, a) && IsSilentWorkerAction(a)
    ensures WorkerOk(Apply(s, a), a.w)
  {
    assert WorkerOk(s, a.w);
    if a.Probe? { ProbeKeepsOwn(s, a.w); } else { PlainKeepsOwn(s, a); }
  }

  lemma ProbeKeepsOwn(s: State, w: nat)
    requires Inv(s) && Enabled(s, Probe(w)) && WorkerOk(s, w)
    ensures WorkerOk(Apply(s, Probe(w)), w)
  {
    var work := PhaseOf(s, w).work;
    assert Replay(s.log, work) == Get(s.rows, work);
    if Retired(s.log, work) { RetiredHasNoRow(s.log, work); }
  }

  lemma PlainKeepsOwn(s: State, a: Action)
    requires IsSilentWorkerAction(a) && !a.Probe? && Enabled(s, a) && WorkerOk(s, a.w)
    ensures WorkerOk(Apply(s, a), a.w)
  {
  }

  /** Two workers that hold reference locks work on different works. */
  lemma DifferentWorks(s: State, v: nat, w: nat)
    requires WorkerOk(s, v) && WorkerOk(s, w) && v != w
    requires HoldsRefLock(PhaseOf(s, v)) && HoldsRefLock(PhaseOf(s, w))
    ensures PhaseOf(s, v).work != PhaseOf(s, w).work
  {
  }

  predicate IsLoggedWorkerAction(a: Action) {
    a.ResetNext? || a.StartRun?
  }

  lemma LoggedWorkerActionKeepsInv(s: State, a: Action)
    requires Inv(s) && Enabled(s, a) && IsLoggedWorkerAction(a)
    ensures Inv(Apply(s, a))
  {
    var t := Apply(s, a);
    assert WorkerOk(s, a.w);
    LoggedWorkerActionKeepsTable(s, a);
    forall w ensures WorkerOk(t, w) {
      assert WorkerOk(s, w);
      if w == a.w { LoggedWorkerActionKeepsOwn(s, a); } else { LoggedWorkerActionKeepsOther(s, a, w); }
    }
    forall c ensures ClaimOk(t, c) {
      LoggedWorkerActionIsolation(s, a, ByClaim(c));
      ClaimFrame(s, t, c);
    }
  }

  lemma LoggedWorkerActionIsolation(s: State, a: Action, owner: Owner)
    requires Enabled(s, a) && IsLoggedWorkerAction(a)
    ensures KeepsLocksOf(s, Apply(s, a), owner)
  {
  }

  lemma LoggedWorkerActionKeepsOther(s: State, a: Action, w: nat)
    requires IsLoggedWorkerAction(a) && Enabled(s, a) && WorkerOk(s, a.w) && WorkerOk(s, w) && w != a.w
    ensures WorkerOk(Apply(s, a), w)
  {
    LoggedWorkerActionIsolation(s, a, ByWorker(w));
    if HoldsRefLock(PhaseOf(s, w)) { DifferentWorks(s, a.w, w); }
    WorkerFrameAppend(s, Apply(s, a), Apply(s, a).log[|s.log|], w);
  }

  lemma LoggedWorkerActionKeepsOwn(s: State, a: Action)
    requires IsLoggedWorkerAction(a) && Enabled(s, a) && WorkerOk(s, a.w)
    ensures WorkerOk(Apply(s, a), a.w)
  {
    var e := Apply(s, a).log[|s.log|];
    RetiredAppend(s.log, e, PhaseOf(s, a.w).work);
  }

  lemma LoggedWorkerActionKeepsTable(s: State, a: Action)
    requires TableIsReplay(s) && LogOk(s.log) && IsLoggedWorkerAction(a) && Enabled(s, a) && WorkerOk(s, a.w)
    ensures TableIsReplay(Apply(s, a)) && LogOk(Apply(s, a).log)
  {
    var t := Apply(s, a);
    TableFollows(s, t.log[|s.log|], t);
    LogOkAppend(s.log, t.log[|s.log|]);
  }

  lemma FinishCommitKeepsInv(s: State, v: nat)
    requires Inv(s) && Enabled(s, FinishCommit(v))
    ensures Inv(Apply(s, FinishCommit(v)))
  {
    var t := Apply(s, FinishCommit(v));
    assert WorkerOk(s, v);
    FinishCommitKeepsTable(s, v);
    FinishCommitKeepsIds(s, v);
    forall w ensures WorkerOk(t, w) {
      assert WorkerOk(s, w);
      if w != v { FinishCommitKeepsOther(s, v, w); } else { FinishCommitKeepsOwn(s, v); }
    }
    forall c ensures ClaimOk(t, c) {
      assert ClaimOk(s, c);
      FinishCommitKeepsClaim(s, v, c);
    }
  }

  lemma FinishCommitKeepsOwn(s: State, v: nat)
    requires WorkerOk(s, v) && Enabled(s, FinishCommit(v))
    ensures WorkerOk(Apply(s, FinishCommit(v)), v)
  {
    assert PhaseOf(Apply(s, FinishCommit(v)), v) == Releasing(PhaseOf(s, v).work);
  }

  lemma FinishCommitKeepsClaim(s: State, v: nat, c: nat)
    requires WorkerOk(s, v) && ClaimOk(s, c) && Enabled(s, FinishCommit(v))
    ensures ClaimOk(Apply(s, FinishCommit(v)), c)
  {
    FinishCommitIsolation(s, v, ByClaim(c));
    ClaimFrame(s, Apply(s, FinishCommit(v)), c);
  }

  lemma FinishCommitKeepsIds(s: State, v: nat)
    requires UniqueIds(s.rows) && Enabled(s, FinishCommit(v))
    ensures UniqueIds(Apply(s, FinishCommit(v)).rows)
  {
    assert Apply(s, FinishCommit(v)).rows.Keys <= s.rows.Keys;
  }

  lemma FinishCommitKeepsTable(s: State, v: nat)
    requires TableIsReplay(s) && LogOk(s.log) && Enabled(s, FinishCommit(v))
    ensures TableIsReplay(Apply(s, FinishCommit(v))) && LogOk(Apply(s, FinishCommit(v)).log)
  {
    var t := Apply(s, FinishCommit(v));
    if t.log != s.log {
      TableFollows(s, t.log[|s.log|], t);
      LogOkAppend(s.log, t.log[|s.log|]);
    }
  }

  /** The final transaction touches only the row under its own lock. */
  lemma FinishCommitIsolation(s: State, v: nat, owner: Owner)
    requires WorkerOk(s, v) && Enabled(s, FinishCommit(v)) && owner != ByWorker(v)
    ensures KeepsLocksOf(s, Apply(s, FinishCommit(v)), owner)
  {
  }

  lemma FinishCommitKeepsOther(s: State, v: nat, w: nat)
    requires WorkerOk(s, v) && WorkerOk(s, w) && v != w && Enabled(s, FinishCommit(v))
    ensures WorkerOk(Apply(s, FinishCommit(v)), w)
  {
    var t := Apply(s, FinishCommit(v));
    FinishCommitIsolation(s, v, ByWorker(w));
    if t.log == s.log {
      WorkerFrame(s, t, w);
    } else {
      if HoldsRefLock(PhaseOf(s, w)) { DifferentWorks(s, v, w); }
      WorkerFrameAppend(s, t, t.log[|s.log|], w);
    }
  }

  lemma StepKeepsInv(s: State, a: Action)
    requires Inv(s) && Enabled(s, a)
    ensures Inv(Apply(s, a))
  {
    if IsTableAction(a) { TableActionKeepsInv(s, a); }
    else if IsClaimAction(a) { ClaimActionKeepsInv(s, a); }
    else if a.ClaimNext? { ClaimNextKeepsInv(s, a.c); }
    else if a.ClaimRelist? { ClaimRelistKeepsInv(s, a.c, a.works); }
    else if a.ClaimCommit? { ClaimCommitKeepsInv(s, a.c); }
    else if IsSilentWorkerAction(a) { SilentWorkerActionKeepsInv(s, a); }
    else if IsLoggedWorkerAction(a) { LoggedWorkerActionKeepsInv(s, a); }
    else { FinishCommitKeepsInv(s, a.w); }
  }

  /** The invariant holds after every run from a state that has it. */
  lemma {:induction false} RunKeepsInv(s: State, run: seq<Action>)
    requires Inv(s) && Feasible(s, run)
    ensures Inv(After(s, run))
    decreases |run|
  {
    if run != [] {
      StepKeepsInv(s, run[0]);
      RunKeepsInv(Apply(s, run[0]), run[1..]);
    }
  }

  lemma ReachableInv(run: seq<Action>)
    requires Feasible(START, run)
    ensures Inv(After(START, run))
  {
    assert Inv(START);
    RunKeepsInv(START, run);
  }
}
