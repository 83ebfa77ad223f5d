/** What the scheduler promises, over every interleaving of any number of instances. */
module WorkTheorems {
  import opened Wrappers
  import opened WorkModel
  import opened WorkInvariant

  // ----- leases -----

  predicate IsRescheduleOrDelete(e: Event) {
    e.Explicit? || e.Rescheduled? || e.Removed? || e.Deleted?
  }

  /** Until a claimed row is claimed, rescheduled or deleted, its next time is the end of the lease. */
  lemma {:induction false} LeaseHolds(log: seq<Event>, i: nat, j: nat)
    requires LogOk(log) && i < j <= |log| && log[i].Claimed?
    requires forall k :: i < k < j && log[k].work == log[i].work ==> !IsRescheduleOrDelete(log[k]) && !log[k].Claimed?
    ensures Replay(log[..j], log[i].work).Some?
    ensures Replay(log[..j], log[i].work).value.nextTime == log[i].now + log[i].hold
  {
    EventOkAt(log, j - 1);
    assert log[..j] == log[..j - 1] + [log[j - 1]];
    ReplayAppend(log[..j - 1], log[j - 1], log[i].work);
    if i < j - 1 {
      LeaseHolds(log, i, j - 1);
    }
  }

  /**
   Lease exclusivity: two successive committed claims of a row are separated by a reschedule or
   delete of it, or the later claimer's own time is at least the hold period after the earlier's.
   */
  lemma LeaseExclusivity(run: seq<Action>, i: nat, j: nat)
    requires Feasible(START, run)
    requires var log := After(START, run).log;
      && i < j < |log| && log[i].Claimed? && log[j].Claimed? && log[i].work == log[j].work
      && forall k :: i < k < j && log[k].work == log[i].work ==> !log[k].Claimed?
    ensures var log := After(START, run).log;
      || (exists k :: i < k < j && log[k].work == log[i].work && IsRescheduleOrDelete(log[k]))
      || log[j].now >= log[i].now + log[i].hold
  {
    var log := After(START, run).log;
    ReachableInv(run);
    if !exists k :: i < k < j && log[k].work == log[i].work && IsRescheduleOrDelete(log[k]) {
      LeaseHolds(log, i, j);
      EventOkAt(log, j);
    }
  }

  /**
   The second listing of a claim transaction, in every interleaving and in whatever order the database
   answers, gives exactly the works that the transaction has leased, each once and held.
   */
  lemma RelistingReturnsTheLeases(run: seq<Action>, c: nat, works: seq<(Work, Row)>)
    requires Feasible(START, run) && Enabled(After(START, run), ClaimRelist(c, works))
    ensures var claim := ClaimOf(After(START, run), c);
      AreTheLeases(works, claim.ids, HeldRow(claim.now, claim.hold))
  {
    ReachableInv(run);
    assert ClaimOk(After(START, run), c);
    RelistIsTheLeases(After(START, run), c, works);
  }

  /**
   A committed claim returns exactly the rows it leased, at most as many as its limit: every returned
   row was due, is now held until the end of the lease, and no other row changed; it is recorded once
   per returned row.
   */
  lemma ClaimReturnsWhatItLeased(run: seq<Action>, c: nat)
    requires Feasible(START, run) && Enabled(After(START, run), ClaimCommit(c))
    ensures var s := After(START, run);
      LeasedExactly(s, Apply(s, ClaimCommit(c)), c)
  {
    var s := After(START, run);
    ReachableInv(run);
    assert ClaimOk(s, c);
    LeasedRowsAreDue(s, c);
    CommitReturnsExactly(s, c);
    CommitChangesExactly(s, c);
  }

  /** A committed claim: what it returned, what it did to the table, and what it left in the log. */
  ghost predicate LeasedExactly(s: State, t: State, c: nat)
    requires InTransaction(ClaimOf(s, c))
  {
    && ReturnedExactly(s, t, c)
    && ChangedExactly(s, t, c)
    && LoggedExactly(s, t, c)
  }

  /** The returned works are the leased ones, each once, with the row they now have, and within the limit. */
  ghost predicate ReturnedExactly(s: State, t: State, c: nat)
    requires InTransaction(ClaimOf(s, c))
  {
    var claim, after := ClaimOf(s, c), ClaimOf(t, c);
    && after.Returned? && NoDuplicates(claim.ids) && |after.works| <= claim.limit
    && AreTheLeases(after.works, claim.ids, HeldRow(claim.now, claim.hold))
    && (forall k :: 0 <= k < |after.works| ==> after.works[k].0 in t.rows && t.rows[after.works[k].0] == after.works[k].1)
  }

  /** Leased rows were due and are now held; all others are untouched; no lock is left. */
  ghost predicate ChangedExactly(s: State, t: State, c: nat)
    requires InTransaction(ClaimOf(s, c))
  {
    var claim := ClaimOf(s, c);
    && t.rows.Keys == s.rows.Keys
    && (forall work :: work in s.rows ==>
          if work in claim.ids then s.rows[work].nextTime <= claim.now && t.rows[work] == HeldRow(claim.now, claim.hold)
          else t.rows[work] == s.rows[work])
    && (forall work :: work in claim.ids ==> work in s.rows)
    && (forall work :: work in t.rowLocks ==> t.rowLocks[work] != ByClaim(c))
  }

  /** The log grows by one claim per leased work. */
  ghost predicate LoggedExactly(s: State, t: State, c: nat)
    requires InTransaction(ClaimOf(s, c))
  {
    t.log == s.log + ClaimEvents(c, ClaimOf(s, c).now, ClaimOf(s, c).hold, ClaimOf(s, c).ids)
  }

  lemma CommitReturnsExactly(s: State, c: nat)
    requires Enabled(s, ClaimCommit(c)) && ClaimOk(s, c)
    ensures ReturnedExactly(s, Apply(s, ClaimCommit(c)), c)
  {
    var claim := ClaimOf(s, c);
    var t := Apply(s, ClaimCommit(c));
    var works := ClaimOf(t, c).works;
    assert claim.Relisted? ==> works == claim.works;
    assert |multiset(Firsts(works))| == |works| && |multiset(claim.ids)| == |claim.ids|;
    forall k | 0 <= k < |works| ensures works[k].0 in t.rows && t.rows[works[k].0] == works[k].1 {
      assert Firsts(works)[k] in multiset(claim.ids);
      var i :| 0 <= i < |claim.ids| && claim.ids[i] == works[k].0;
      assert Leased(s, c, claim.now, claim.ids[i]);
    }
  }

  lemma CommitChangesExactly(s: State, c: nat)
    requires Enabled(s, ClaimCommit(c))
    requires forall k :: 0 <= k < |ClaimOf(s, c).ids| ==> Leased(s, c, ClaimOf(s, c).now, ClaimOf(s, c).ids[k])
    ensures ChangedExactly(s, Apply(s, ClaimCommit(c)), c)
  {
    var ids := ClaimOf(s, c).ids;
    forall work | work in ids ensures work in s.rows && s.rows[work].nextTime <= ClaimOf(s, c).now {
      var k :| 0 <= k < |ids| && ids[k] == work;
      assert Leased(s, c, ClaimOf(s, c).now, ids[k]);
    }
    assert Apply(s, ClaimCommit(c)).rows.Keys == s.rows.Keys;
  }

  /** Re-reading takes the row's lock whether or not the row is still due; only a due row is leased. */
  lemma ReReadLocksTheRow(s: State, c: nat)
    requires Enabled(s, ClaimNext(c)) && ClaimOf(s, c).todo[0] in s.rows
    ensures var work, t := ClaimOf(s, c).todo[0], Apply(s, ClaimNext(c));
      && work in t.rowLocks && t.rowLocks[work] == ByClaim(c)
      && ClaimOf(t, c).ids == ClaimOf(s, c).ids + (if s.rows[work].nextTime <= ClaimOf(s, c).now then [work] else [])
  {
  }

  /** `n` turns of the loop over the listed works. */
  function Turns(c: nat, n: nat): seq<Action> {
    if n == 0 then [] else [ClaimNext(c)] + Turns(c, n - 1)
  }

  /** A listed work whose row is still due and whose lock is free. */
  ghost predicate Available(s: State, c: nat, now: int, work: Work) {
    work in s.rows && s.rows[work].nextTime <= now && FreeFor(s, work, ByClaim(c))
  }

  lemma {:induction false} UndisturbedHold(s: State, c: nat)
    requires ClaimOf(s, c).Holding?
    requires forall k :: 0 <= k < |ClaimOf(s, c).todo| ==> Available(s, c, ClaimOf(s, c).now, ClaimOf(s, c).todo[k])
    ensures var claim := ClaimOf(s, c);
      var run := Turns(c, |claim.todo|);
      && Feasible(s, run)
      && ClaimOf(After(s, run), c) == Holding(claim.now, claim.hold, claim.limit, [], claim.ids + claim.todo)
      && After(s, run).rows == s.rows && After(s, run).log == s.log
    decreases |ClaimOf(s, c).todo|
  {
    var claim := ClaimOf(s, c);
    if claim.todo == [] {
      assert claim.ids + claim.todo == claim.ids;
    } else {
      assert Available(s, c, claim.now, claim.todo[0]);
      var t := Apply(s, ClaimNext(c));
      assert ClaimOf(t, c) == Holding(claim.now, claim.hold, claim.limit, claim.todo[1..], claim.ids + [claim.todo[0]]);
      forall k | 0 <= k < |claim.todo[1..]| ensures Available(t, c, claim.now, claim.todo[1..][k]) {
        assert Available(s, c, claim.now, claim.todo[k + 1]);
      }
      UndisturbedHold(t, c);
      assert claim.ids + [claim.todo[0]] + claim.todo[1..] == claim.ids + claim.todo;
      assert Turns(c, |claim.todo|)[1..] == Turns(c, |claim.todo| - 1);
    }
  }

  /** The rest of the transaction after the loop: list the leased works again, if there are any, and commit. */
  function Ending(c: nat, works: seq<(Work, Row)>): seq<Action> {
    (if works == [] then [] else [ClaimRelist(c, works)]) + [ClaimCommit(c)]
  }

  function Held(due: seq<Work>, held: Row): (works: seq<(Work, Row)>)
    ensures Firsts(works) == due && forall k :: 0 <= k < |works| ==> works[k].1 == held
  {
    seq(|due|, k requires 0 <= k < |due| => (due[k], held))
  }

  /**
   A claim that nobody disturbs gets through and leases exactly what it listed: the oldest due rows,
   as many as the limit allows.
   */
  lemma UndisturbedClaim(run: seq<Action>, c: nat, due: seq<Work>)
    requires Feasible(START, run) && Enabled(After(START, run), ClaimList(c, due))
    requires forall k :: 0 <= k < |due| ==> Unlocked(After(START, run), due[k])
    ensures var s := After(START, run);
      var t := Apply(s, ClaimList(c, due));
      var ending := Ending(c, Held(due, HeldRow(ClaimOf(s, c).now, ClaimOf(s, c).hold)));
      && Feasible(t, Turns(c, |due|))
      && Feasible(After(t, Turns(c, |due|)), ending)
      && ClaimsAll(s, After(After(t, Turns(c, |due|)), ending), c, due, ClaimOf(s, c).now, ClaimOf(s, c).hold)
  {
    var s := After(START, run);
    ReachableInv(run);
    var t := Apply(s, ClaimList(c, due));
    UndisturbedTurns(s, c, due);
    var h := After(t, Turns(c, |due|));
    UndisturbedEnding(h, c);
  }

  lemma UndisturbedTurns(s: State, c: nat, due: seq<Work>)
    requires Enabled(s, ClaimList(c, due)) && forall k :: 0 <= k < |due| ==> Unlocked(s, due[k])
    ensures var t := Apply(s, ClaimList(c, due));
      && Feasible(t, Turns(c, |due|))
      && After(t, Turns(c, |due|)).rows == s.rows
      && ClaimOf(After(t, Turns(c, |due|)), c) == Holding(ClaimOf(s, c).now, ClaimOf(s, c).hold, ClaimOf(s, c).limit, [], due)
      && (forall k :: 0 <= k < |due| ==> due[k] in s.rows) && NoDuplicates(due)
  {
    ListedAreAvailable(s, c, due);
    UndisturbedHold(Apply(s, ClaimList(c, due)), c);
    assert [] + due == due;
  }

  lemma UndisturbedEnding(s: State, c: nat)
    requires ClaimOf(s, c).Holding? && ClaimOf(s, c).todo == [] && NoDuplicates(ClaimOf(s, c).ids) && UniqueIds(s.rows)
    requires forall k :: 0 <= k < |ClaimOf(s, c).ids| ==> ClaimOf(s, c).ids[k] in s.rows
    ensures var claim := ClaimOf(s, c);
      var ending := Ending(c, Held(claim.ids, HeldRow(claim.now, claim.hold)));
      Feasible(s, ending) && ClaimsAll(s, After(s, ending), c, claim.ids, claim.now, claim.hold)
  {
    var claim := ClaimOf(s, c);
    var works := Held(claim.ids, HeldRow(claim.now, claim.hold));
    if works == [] {
      assert Ending(c, works) == [ClaimCommit(c)];
      CommitClaimsAll(s, c);
      LastStep(s, ClaimCommit(c));
    } else {
      LeasesAreARelisting(s, c);
      var t := Apply(s, ClaimRelist(c, works));
      assert ClaimOf(t, c) == Relisted(claim.now, claim.hold, claim.limit, claim.ids, works);
      CommitClaimsAll(t, c);
      LastStep(t, ClaimCommit(c));
      assert Ending(c, works)[1..] == [ClaimCommit(c)] && Ending(c, works)[0] == ClaimRelist(c, works);
    }
  }

  lemma LastStep(s: State, a: Action)
    requires Enabled(s, a)
    ensures Feasible(s, [a]) && After(s, [a]) == Apply(s, a)
  {
    assert [a][1..] == [];
  }

  lemma LeasesAreARelisting(s: State, c: nat)
    requires ClaimOf(s, c).Holding? && ClaimOf(s, c).todo == [] && NoDuplicates(ClaimOf(s, c).ids) && UniqueIds(s.rows)
    requires ClaimOf(s, c).ids != [] && forall k :: 0 <= k < |ClaimOf(s, c).ids| ==> ClaimOf(s, c).ids[k] in s.rows
    ensures Enabled(s, ClaimRelist(c, Held(ClaimOf(s, c).ids, HeldRow(ClaimOf(s, c).now, ClaimOf(s, c).hold))))
  {
    var ids := ClaimOf(s, c).ids;
    forall work | work in s.rows && HasId(ids, work.id) ensures work in ids {
      var k :| 0 <= k < |ids| && ids[k].id == work.id;
      assert ids[k] in s.rows;
    }
  }

  /**
   The listing takes the oldest due rows: none that it leaves out is older than one that it takes, and it
   leaves a due row out only when the limit is reached.
   */
  lemma ListedAreTheOldest(rows: map<Work, Row>, now: int, limit: int, due: seq<Work>, left: Work)
    requires IsDueList(rows, now, limit, due) && left in rows && rows[left].nextTime <= now && left !in due
    ensures |due| == limit && forall taken :: taken in due ==> taken in rows && rows[taken].nextTime <= rows[left].nextTime <= now
  {
  }

  lemma ListedAreAvailable(s: State, c: nat, due: seq<Work>)
    requires Enabled(s, ClaimList(c, due)) && forall k :: 0 <= k < |due| ==> Unlocked(s, due[k])
    ensures var t := Apply(s, ClaimList(c, due));
      forall k :: 0 <= k < |due| ==> Available(t, c, ClaimOf(s, c).now, due[k])
  {
    forall k | 0 <= k < |due| ensures Unlocked(s, due[k]) && due[k] in s.rows && s.rows[due[k]].nextTime <= ClaimOf(s, c).now {
    }
  }

  /** From the table of `s`, claim `c` has returned exactly `due` and holds exactly those rows. */
  ghost predicate ClaimsAll(s: State, u: State, c: nat, due: seq<Work>, now: int, hold: int) {
    && ClaimOf(u, c).Returned? && Firsts(ClaimOf(u, c).works) == due
    && s.rows.Keys <= u.rows.Keys
    && (forall work :: work in s.rows ==> u.rows[work] == if work in due then HeldRow(now, hold) else s.rows[work])
  }

  lemma CommitClaimsAll(s: State, c: nat)
    requires Enabled(s, ClaimCommit(c)) && (ClaimOf(s, c).Relisted? ==> Firsts(ClaimOf(s, c).works) == ClaimOf(s, c).ids)
    ensures ClaimsAll(s, Apply(s, ClaimCommit(c)), c, ClaimOf(s, c).ids, ClaimOf(s, c).now, ClaimOf(s, c).hold)
  {
  }

  // ----- runs -----

  /** Two works contend for one lock exactly when they share the reference id, whatever their reference types. */
  lemma LockKeyIsReference(a: Work, b: Work)
    ensures LockKey(a) == LockKey(b) <==> a.refId == b.refId
  {
    var prefix := "work_lock" + "_";
    assert LockKey(a)[|prefix|..] == a.refId && LockKey(b)[|prefix|..] == b.refId;
  }

  /** At most one run per reference id is in flight across all instances. */
  lemma AtMostOneRunPerReference(run: seq<Action>, v: nat, w: nat)
    requires Feasible(START, run) && v != w
    ensures var s := After(START, run);
      var p, q := PhaseOf(s, v), PhaseOf(s, w);
      HoldsRefLock(p) && HoldsRefLock(q) ==> p.work.refId != q.work.refId
  {
    ReachableInv(run);
    var s := After(START, run);
    assert WorkerOk(s, v) && WorkerOk(s, w);
  }

  lemma {:induction false} StaysRetired(log: seq<Event>, d: nat, r: nat)
    requires d < r <= |log| && log[d].Deleted?
    requires forall k :: d < k < r && log[k].work == log[d].work ==> !log[k].Created?
    ensures Retired(log[..r], log[d].work)
  {
    assert log[..r] == log[..r - 1] + [log[r - 1]];
    RetiredAppend(log[..r - 1], log[r - 1], log[d].work);
    if d < r - 1 { StaysRetired(log, d, r - 1); }
  }

  /**
   Once a run returned done and its deletion committed, no worker holding a stale copy runs that
   work again, unless the work was posted anew in between.
   */
  lemma NoRunAfterDone(run: seq<Action>, d: nat, r: nat)
    requires Feasible(START, run)
    requires var log := After(START, run).log;
      d < r < |log| && log[d].Deleted? && log[r].RunStarted? && log[d].work == log[r].work
    ensures var log := After(START, run).log;
      exists k :: d < k < r && log[k].Created? && log[k].work == log[d].work
  {
    var log := After(START, run).log;
    ReachableInv(run);
    EventOkAt(log, r);
    if forall k :: d < k < r && log[k].work == log[d].work ==> !log[k].Created? {
      StaysRetired(log, d, r);
    }
  }

  /** An uninterrupted attempt of worker `w` on its copy of `work`, up to the start of the run. */
  function Attempt(w: nat, work: Work): seq<Action> {
    [Take(w, work)] + AfterTake(w)
  }

  function AfterTake(w: nat): seq<Action> {
    [Acquire(w)] + AfterAcquire(w)
  }

  function AfterAcquire(w: nat): seq<Action> {
    [Probe(w)] + ([ResetNext(w)] + [StartRun(w)])
  }

  lemma FirstStep(s: State, a: Action, rest: seq<Action>)
    ensures Feasible(s, [a] + rest) <==> Enabled(s, a) && Feasible(Apply(s, a), rest)
    ensures Feasible(s, [a] + rest) ==> After(s, [a] + rest) == After(Apply(s, a), rest)
  {
    assert ([a] + rest)[0] == a && ([a] + rest)[1..] == rest;
  }

  /** Worker `w` has reset the flag of `work` and started it; next times and row locks are as before. */
  ghost predicate IsStarted(s: State, t: State, w: nat, work: Work) {
    && t.log == s.log + [FlagReset(work, w), RunStarted(work, w)]
    && work in s.rows && t.rows == s.rows[work := s.rows[work].(nextTimeSet := false)] && t.rowLocks == s.rowLocks
    && PhaseOf(t, w) == Running(work, |s.log|)
    && forall v :: v != w ==> PhaseOf(t, v) == PhaseOf(s, v)
  }

  lemma StartAfterAcquire(s: State, w: nat, work: Work)
    requires PhaseOf(s, w) == Locked(work)
    ensures Feasible(s, AfterAcquire(w)) <==> work in s.rows && work !in s.rowLocks
    ensures Feasible(s, AfterAcquire(w)) ==>
      IsStarted(s, After(s, AfterAcquire(w)), w, work) && After(s, AfterAcquire(w)).refLocks == s.refLocks
  {
    FirstStep(s, Probe(w), [ResetNext(w)] + [StartRun(w)]);
    var t := Apply(s, Probe(w));
    assert t == s.(workers := s.workers[w := if work in s.rows then Probed(work) else Releasing(work)]);
    FirstStep(t, ResetNext(w), [StartRun(w)]);
    if work in s.rows { StartAfterProbe(t, w, work); }
  }

  lemma StartAfterProbe(s: State, w: nat, work: Work)
    requires PhaseOf(s, w) == Probed(work) && work in s.rows
    ensures Feasible(s, [ResetNext(w)] + [StartRun(w)]) <==> work !in s.rowLocks
    ensures Feasible(s, [ResetNext(w)] + [StartRun(w)]) ==>
      After(s, [ResetNext(w)] + [StartRun(w)]) ==
      s.(rows := s.rows[work := s.rows[work].(nextTimeSet := false)],
         workers := s.workers[w := Running(work, |s.log|)], log := s.log + [FlagReset(work, w), RunStarted(work, w)])
  {
    FirstStep(s, ResetNext(w), [StartRun(w)]);
    if work !in s.rowLocks {
      var u := Apply(s, ResetNext(w));
      LastStep(u, StartRun(w));
      assert u.workers[w := Running(work, |s.log|)] == s.workers[w := Running(work, |s.log|)];
      assert s.log + [FlagReset(work, w)] + [RunStarted(work, w)] == s.log + [FlagReset(work, w), RunStarted(work, w)];
    }
  }

  /**
   When a copy of a work can be started: exactly when the row exists and neither the reference lock
   nor the row lock is taken. The next time does not enter, so a stale copy starts even after its
   work was rescheduled into the future and nobody has claimed it since.
   */
  lemma StartIgnoresNextTime(s: State, w: nat, work: Work)
    requires PhaseOf(s, w).Idle?
    ensures Feasible(s, Attempt(w, work)) <==> work in s.rows && LockKey(work) !in s.refLocks && work !in s.rowLocks
    ensures Feasible(s, Attempt(w, work)) ==>
      var t := After(s, Attempt(w, work));
      IsStarted(s, t, w, work) && t.refLocks == s.refLocks[LockKey(work) := w]
  {
    FirstStep(s, Take(w, work), AfterTake(w));
    var t := Apply(s, Take(w, work));
    assert PhaseOf(t, w) == Wanting(work);
    FirstStep(t, Acquire(w), AfterAcquire(w));
    if Enabled(t, Acquire(w)) {
      StartAfterAcquire(Apply(t, Acquire(w)), w, work);
    }
  }

  /** What one complete run of worker `w` does after its start, when it is not done and chooses `next`. */
  function Completion(w: nat, next: int): seq<Action> {
    [EndRun(w, false, next)] + ([FinishRead(w)] + ([FinishCommit(w)] + [Release(w)]))
  }

  /** The row that such a run leaves while nobody else touches it. */
  lemma CompletionReschedules(s: State, w: nat, work: Work, resetAt: nat, next: int)
    requires PhaseOf(s, w) == Running(work, resetAt) && work !in s.rowLocks && work in s.rows && !s.rows[work].nextTimeSet
    ensures Feasible(s, Completion(w, next))
    ensures var t := After(s, Completion(w, next));
      && t.rows == s.rows[work := Row(next, true)] && t.log == s.log + [Rescheduled(work, w, next)]
      && work !in t.rowLocks && t.refLocks == s.refLocks - {LockKey(work)} && PhaseOf(t, w) == Idle
      && forall v :: v != w ==> PhaseOf(t, v) == PhaseOf(s, v)
  {
    var t := Apply(s, EndRun(w, false, next));
    assert t == s.(workers := s.workers[w := Ran(work, resetAt, false, next)]);
    FinishReschedules(t, w, work, resetAt, next);
    FirstStep(s, EndRun(w, false, next), [FinishRead(w)] + ([FinishCommit(w)] + [Release(w)]));
  }

  lemma FinishReschedules(s: State, w: nat, work: Work, resetAt: nat, next: int)
    requires PhaseOf(s, w) == Ran(work, resetAt, false, next)
    requires work !in s.rowLocks && work in s.rows && !s.rows[work].nextTimeSet
    ensures Feasible(s, [FinishRead(w)] + ([FinishCommit(w)] + [Release(w)]))
    ensures After(s, [FinishRead(w)] + ([FinishCommit(w)] + [Release(w)])) ==
      s.(rows := s.rows[work := Row(next, true)], log := s.log + [Rescheduled(work, w, next)],
         rowLocks := WithoutLocksOf(s.rowLocks[work := ByWorker(w)], ByWorker(w)),
         refLocks := s.refLocks - {LockKey(work)}, workers := s.workers[w := Idle])
  {
    var t := Apply(s, FinishRead(w));
    assert t == s.(workers := s.workers[w := Finishing(work, resetAt, false, next, true)], rowLocks := s.rowLocks[work := ByWorker(w)]);
    CommitReschedules(t, w);
    var u := Apply(t, FinishCommit(w));
    assert u.workers[w := Idle] == s.workers[w := Idle];
    LastStep(u, Release(w));
    FirstStep(t, FinishCommit(w), [Release(w)]);
    FirstStep(s, FinishRead(w), [FinishCommit(w)] + [Release(w)]);
  }

  lemma CommitReschedules(s: State, w: nat)
    requires FinishesNotDone(s, w) && PhaseOf(s, w).work in s.rows && !s.rows[PhaseOf(s, w).work].nextTimeSet
    ensures var p := PhaseOf(s, w);
      Apply(s, FinishCommit(w)) ==
      s.(rows := s.rows[p.work := Row(p.next, true)], log := s.log + [Rescheduled(p.work, w, p.next)],
         rowLocks := WithoutLocksOf(s.rowLocks, ByWorker(w)), workers := s.workers[w := Releasing(p.work)])
  {
  }

  const SAMPLE := Work("1", "mail", "7")

  /** A stale copy of a work that was rescheduled far into the future, and never claimed, is started. */
  lemma StaleStartHappens() returns (run: seq<Action>)
    ensures Feasible(START, run)
    ensures var t := After(START, run);
      && t.log == [Created(SAMPLE, Row(0, false)), FlagReset(SAMPLE, 0), RunStarted(SAMPLE, 0), Rescheduled(SAMPLE, 0, 1000),
                   FlagReset(SAMPLE, 1), RunStarted(SAMPLE, 1)]
      && SAMPLE in t.rows && t.rows[SAMPLE].nextTime == 1000
  {
    var s := Apply(START, Post(SAMPLE, Row(0, false)));
    StartIgnoresNextTime(s, 0, SAMPLE);
    var t := After(s, Attempt(0, SAMPLE));
    CompletionReschedules(t, 0, SAMPLE, |s.log|, 1000);
    var u := After(t, Completion(0, 1000));
    StartIgnoresNextTime(u, 1, SAMPLE);
    var rest := Attempt(0, SAMPLE) + (Completion(0, 1000) + Attempt(1, SAMPLE));
    RunsJoin(t, Completion(0, 1000), Attempt(1, SAMPLE));
    RunsJoin(s, Attempt(0, SAMPLE), Completion(0, 1000) + Attempt(1, SAMPLE));
    FirstStep(START, Post(SAMPLE, Row(0, false)), rest);
    run := [Post(SAMPLE, Row(0, false))] + rest;
  }

  lemma {:induction false} RunsJoin(s: State, a: seq<Action>, b: seq<Action>)
    requires Feasible(s, a) && Feasible(After(s, a), b)
    ensures Feasible(s, a + b) && After(s, a + b) == After(After(s, a), b)
    decreases |a|
  {
    if a == [] {
      assert a + b == b;
    } else {
      RunsJoin(Apply(s, a[0]), a[1..], b);
      assert (a + b)[0] == a[0] && (a + b)[1..] == a[1..] + b;
    }
  }

  /**
   A run that starts after a reschedule of its work, whether or not the work was claimed in between:
   the same worker has reset the flag after that reschedule, and since then nobody has reset,
   rescheduled or retired the work.
   */
  lemma StartAfterReschedule(run: seq<Action>, i: nat, r: nat) returns (q: nat)
    requires Feasible(START, run)
    requires var log := After(START, run).log;
      i < r < |log| && log[i].Rescheduled? && log[r].RunStarted? && log[i].work == log[r].work
    ensures var log := After(START, run).log;
      && i < q < r && log[q] == FlagReset(log[r].work, log[r].who)
      && forall k :: q < k < r && log[k].work == log[r].work ==> !log[k].FlagReset? && !log[k].Rescheduled? && !log[k].Deleted?
  {
    var log := After(START, run).log;
    ReachableInv(run);
    EventOkAt(log, r);
    q :| OwnedSinceReset(log[..r], log[r].work, log[r].who, q);
    assert log[..r][i] == log[i];
    forall k | q < k < r && log[k].work == log[r].work ensures !log[k].FlagReset? && !log[k].Rescheduled? && !log[k].Deleted? {
      assert log[..r][k] == log[k];
    }
  }

  // ----- the reschedule handshake -----

  /** Events that set or clear `next_time_set`. */
  predicate Decides(e: Event) {
    e.Created? || e.Claimed? || e.Explicit? || e.FlagReset? || e.Rescheduled?
  }

  /** The row that the last deciding event leaves, if the row still exists. */
  lemma {:induction false} LastDecision(log: seq<Event>, k: nat)
    requires k < |log| && Decides(log[k]) && Replay(log, log[k].work).Some?
    requires forall j :: k < j < |log| && log[j].work == log[k].work ==> !Decides(log[j])
    ensures var row := Replay(log, log[k].work).value;
      match log[k]
      case Created(_, r) => row == r
      case Explicit(_, next) => row == Row(next, true)
      case Rescheduled(_, _, next) => row == Row(next, true)
      case _ => !row.nextTimeSet
  {
    var n := |log| - 1;
    assert log == log[..n] + [log[n]];
    ReplayAppend(log[..n], log[n], log[k].work);
    if k < n { LastDecision(log[..n], k); }
  }

  ghost predicate FinishesNotDone(s: State, w: nat) {
    PhaseOf(s, w).Finishing? && PhaseOf(s, w).found && !PhaseOf(s, w).done
  }

  /** Index `k` is the last event since the worker's reset that set or cleared the flag of its work. */
  ghost predicate IsLastDecision(s: State, w: nat, k: nat)
    requires FinishesNotDone(s, w)
  {
    var p := PhaseOf(s, w);
    && p.resetAt <= k < |s.log| && s.log[k].work == p.work && Decides(s.log[k])
    && forall j :: k < j < |s.log| && s.log[j].work == p.work ==> !Decides(s.log[j])
  }

  /**
   The final update of a not-done run. What it leaves in the row is decided by the last event
   since `AcquireWork` reset the flag: an explicit `UpdateWorkNextTime` (or a repost with the flag
   already set) is kept untouched; after a reset, or after a later claim of the row, the run's own
   next time is stored. No other run's update can come in between.
   */
  lemma RescheduleHandshake(run: seq<Action>, w: nat, k: nat)
    requires Feasible(START, run) && FinishesNotDone(After(START, run), w) && IsLastDecision(After(START, run), w, k)
    ensures var s := After(START, run);
      var p := PhaseOf(s, w);
      var t := Apply(s, FinishCommit(w));
      && p.work in s.rows && p.work in t.rows
      && (forall work :: work in s.rows && work != p.work ==> work in t.rows && t.rows[work] == s.rows[work])
      && t.rows[p.work] ==
         match s.log[k] {
           case Explicit(_, next) => Row(next, true)
           case Created(_, row) => if row.nextTimeSet then row else Row(p.next, true)
           case _ => Row(p.next, true)
         }
      && (s.log[k].Explicit? ==> t.rows == s.rows)
  {
    ReachableInv(run);
    var s := After(START, run);
    var p := PhaseOf(s, w);
    assert WorkerOk(s, w);
    assert Replay(s.log, p.work) == Get(s.rows, p.work);
    LastDecision(s.log, k);
  }

  /** A last deciding event always exists: at the latest the worker's own reset. */
  lemma DecisionExists(run: seq<Action>, w: nat) returns (k: nat)
    requires Feasible(START, run) && FinishesNotDone(After(START, run), w)
    ensures IsLastDecision(After(START, run), w, k)
  {
    ReachableInv(run);
    var s := After(START, run);
    var p := PhaseOf(s, w);
    assert WorkerOk(s, w);
    k := p.resetAt;
    for j := p.resetAt + 1 to |s.log|
      invariant p.resetAt <= k < j && s.log[k].work == p.work && Decides(s.log[k])
      invariant forall i :: k < i < j && s.log[i].work == p.work ==> !Decides(s.log[i])
    {
      if s.log[j].work == p.work && Decides(s.log[j]) { k := j; }
    }
  }

  /** Every row but that of `work` is as before, and none has come or gone. */
  ghost predicate OtherRowsStay(s: State, t: State, work: Work) {
    && (forall other :: other in s.rows && other != work ==> other in t.rows && t.rows[other] == s.rows[other])
    && (forall other :: other in t.rows && other != work ==> other in s.rows)
  }

  /** The second transaction reads its row under the lock: it finds the row exactly when there is one, and holds it. */
  lemma FinishReadFinds(s: State, w: nat)
    requires Enabled(s, FinishRead(w))
    ensures var t, p := Apply(s, FinishRead(w)), PhaseOf(s, w);
      && PhaseOf(t, w) == Finishing(p.work, p.resetAt, p.done, p.next, p.work in s.rows)
      && t.rows == s.rows && t.log == s.log
      && (p.work in s.rows ==> p.work in t.rowLocks && t.rowLocks[p.work] == ByWorker(w))
  {
  }

  /**
   A done run deletes its work: in every reachable state in which a done worker has found its row, the
   commit removes exactly that row and logs exactly that deletion.
   */
  lemma DoneRunDeletesItsWork(run: seq<Action>, w: nat)
    requires Feasible(START, run)
    requires var p := PhaseOf(After(START, run), w); p.Finishing? && p.found && p.done
    ensures var s := After(START, run);
      var work, t := PhaseOf(s, w).work, Apply(s, FinishCommit(w));
      && work in s.rows && work !in t.rows && OtherRowsStay(s, t, work)
      && t.log == s.log + [Deleted(work, w)]
      && PhaseOf(t, w) == Releasing(work) && (forall k :: k in t.rowLocks ==> t.rowLocks[k] != ByWorker(w))
  {
    ReachableInv(run);
    assert WorkerOk(After(START, run), w);
  }

  /** A commit of a transaction that found no row changes nothing. */
  lemma GoneRowChangesNothing(s: State, w: nat)
    requires PhaseOf(s, w).Finishing? && !PhaseOf(s, w).found
    ensures var t := Apply(s, FinishCommit(w));
      t.rows == s.rows && t.log == s.log && PhaseOf(t, w) == Releasing(PhaseOf(s, w).work)
  {
  }

  /** From position `from` on somebody set the next time of `work` explicitly, or reposted it with the flag set. */
  ghost predicate Overruled(log: seq<Event>, from: nat, work: Work) {
    exists k :: from <= k < |log| && log[k].work == work && (log[k].Explicit? || (log[k].Created? && log[k].row.nextTimeSet))
  }

  /**
   A not-done run leaves its row with the flag set: it logs a reschedule to its own next time, which is
   then stored, unless an explicit next time was set since its reset, which is then kept.
   */
  lemma NotDoneRunReschedules(run: seq<Action>, w: nat)
    requires Feasible(START, run) && FinishesNotDone(After(START, run), w)
    ensures var s := After(START, run);
      var p, t := PhaseOf(s, w), Apply(s, FinishCommit(w));
      && p.work in t.rows && t.rows[p.work].nextTimeSet && OtherRowsStay(s, t, p.work)
      && PhaseOf(t, w) == Releasing(p.work) && (forall k :: k in t.rowLocks ==> t.rowLocks[k] != ByWorker(w))
      && if Overruled(s.log, p.resetAt, p.work) && s.rows[p.work].nextTimeSet then t.rows == s.rows && t.log == s.log
         else t.rows[p.work] == Row(p.next, true) && t.log == s.log + [Rescheduled(p.work, w, p.next)]
  {
    ReachableInv(run);
    var s := After(START, run);
    assert WorkerOk(s, w);
    var k := DecisionExists(run, w);
    RescheduleHandshake(run, w, k);
    LastDecision(s.log, k);
    assert Replay(s.log, PhaseOf(s, w).work) == Get(s.rows, PhaseOf(s, w).work);
    NotDoneCommit(s, w);
  }

  /** The conditional update by itself. */
  lemma NotDoneCommit(s: State, w: nat)
    requires FinishesNotDone(s, w) && PhaseOf(s, w).work in s.rows
    ensures var p, t := PhaseOf(s, w), Apply(s, FinishCommit(w));
      && PhaseOf(t, w) == Releasing(p.work) && (forall k :: k in t.rowLocks ==> t.rowLocks[k] != ByWorker(w))
      && if s.rows[p.work].nextTimeSet then t.rows == s.rows && t.log == s.log
         else t.rows == s.rows[p.work := Row(p.next, true)] && t.log == s.log + [Rescheduled(p.work, w, p.next)]
  {
  }

  /** With no explicit update and no repost since the reset, the run's own next time is stored. */
  lemma OwnNextTimeIsStored(run: seq<Action>, w: nat)
    requires Feasible(START, run) && FinishesNotDone(After(START, run), w)
    requires var s := After(START, run);
      forall j :: PhaseOf(s, w).resetAt <= j < |s.log| && s.log[j].work == PhaseOf(s, w).work ==>
        !s.log[j].Explicit? && !s.log[j].Created?
    ensures var s := After(START, run);
      var t := Apply(s, FinishCommit(w));
      PhaseOf(s, w).work in t.rows && t.rows[PhaseOf(s, w).work] == Row(PhaseOf(s, w).next, true)
  {
    var k := DecisionExists(run, w);
    RescheduleHandshake(run, w, k);
  }
}
