/**
 The scheduler's code over the shared table. Between any two statements every other process may
 take any number of actions (`OthersMove`), so each method is proved under arbitrary interference,
 and the state it leaves is one that the transition system reaches.
 */
module WorkScheduler {
  import opened Wrappers
  import opened WorkModel
  import WorkAbort
  import WorkInvariant
  import WorkTheorems

  datatype Process = ClaimProcess(c: nat) | WorkerProcess(w: nat) | Caller

  /** The process that takes an action. */
  function Mover(a: Action): Process {
    if a.Post? || a.Remove? || a.SetNext? then Caller
    else if WorkAbort.IsClaiming(a) then ClaimProcess(a.c)
    else WorkerProcess(a.w)
  }

  /** The process behind an event of the log. */
  function Maker(e: Event): Process {
    match e
    case Claimed(_, c, _, _) => ClaimProcess(c)
    case FlagReset(_, w) => WorkerProcess(w)
    case RunStarted(_, w) => WorkerProcess(w)
    case Deleted(_, w) => WorkerProcess(w)
    case Rescheduled(_, w, _) => WorkerProcess(w)
    case _ => Caller
  }

  /** The events of one process, in order. */
  ghost function Own(log: seq<Event>, me: Process): seq<Event> {
    if log == [] then []
    else
      var e := log[|log| - 1];
      Own(log[..|log| - 1], me) + if Maker(e) == me then [e] else []
  }

  lemma {:induction false} OwnAppend(log: seq<Event>, es: seq<Event>, author: Process, me: Process)
    requires forall k :: 0 <= k < |es| ==> Maker(es[k]) == author
    ensures Own(log + es, me) == Own(log, me) + if author == me then es else []
  {
    if es == [] {
      assert log + es == log;
    } else {
      var n := |es| - 1;
      assert (log + es)[..|log + es| - 1] == log + es[..n];
      assert es == es[..n] + [es[n]];
      OwnAppend(log, es[..n], author, me);
    }
  }

  ghost function FinishEvents(s: State, w: nat): (es: seq<Event>)
    requires Enabled(s, FinishCommit(w))
    ensures DoFinishCommit(s, w).log == s.log + es
    ensures forall k :: 0 <= k < |es| ==> Maker(es[k]) == WorkerProcess(w)
  {
    var p := PhaseOf(s, w);
    if !p.found || p.work !in s.rows then []
    else if p.done then [Deleted(p.work, w)]
    else if s.rows[p.work].nextTimeSet then []
    else [Rescheduled(p.work, w, p.next)]
  }

  ghost function CallerEvents(s: State, a: Action): (es: seq<Event>)
    requires Enabled(s, a) && Mover(a) == Caller
    ensures Apply(s, a).log == s.log + es
    ensures forall k :: 0 <= k < |es| ==> Maker(es[k]) == Caller
  {
    match a
    case Post(work, row) => [Created(work, row)]
    case Remove(work) => [Removed(work)]
    case SetNext(work, next) => [Explicit(work, next)]
  }

  ghost function ClaimerEvents(s: State, a: Action): (es: seq<Event>)
    requires Enabled(s, a) && Mover(a).ClaimProcess?
    ensures Apply(s, a).log == s.log + es
    ensures forall k :: 0 <= k < |es| ==> Maker(es[k]) == Mover(a)
  {
    if a.ClaimCommit? then ClaimEvents(a.c, ClaimOf(s, a.c).now, ClaimOf(s, a.c).hold, ClaimOf(s, a.c).ids) else []
  }

  ghost function WorkerEvents(s: State, a: Action): (es: seq<Event>)
    requires Enabled(s, a) && Mover(a).WorkerProcess?
    ensures Apply(s, a).log == s.log + es
    ensures forall k :: 0 <= k < |es| ==> Maker(es[k]) == Mover(a)
  {
    if a.ResetNext? then [FlagReset(PhaseOf(s, a.w).work, a.w)]
    else if a.StartRun? then [RunStarted(PhaseOf(s, a.w).work, a.w)]
    else if a.FinishCommit? then FinishEvents(s, a.w)
    else []
  }

  /** The events an action appends. */
  ghost function EventsOf(s: State, a: Action): (es: seq<Event>)
    requires Enabled(s, a)
    ensures Apply(s, a).log == s.log + es
    ensures forall k :: 0 <= k < |es| ==> Maker(es[k]) == Mover(a)
  {
    match Mover(a)
    case Caller => CallerEvents(s, a)
    case ClaimProcess(_) => ClaimerEvents(s, a)
    case WorkerProcess(_) => WorkerEvents(s, a)
  }

  /** Progress of a process. */
  datatype Progress = Claiming(claim: Claim) | Working(phase: Phase) | Elsewhere

  function ProgressOf(s: State, me: Process): Progress {
    match me
    case ClaimProcess(c) => Claiming(ClaimOf(s, c))
    case WorkerProcess(w) => Working(PhaseOf(s, w))
    case Caller => Elsewhere
  }

  /** What interference leaves to a process: its own progress and its own events; the log only grows. */
  ghost predicate KeepsView(s: State, t: State, me: Process) {
    s.log <= t.log && ProgressOf(t, me) == ProgressOf(s, me) && Own(t.log, me) == Own(s.log, me)
  }

  lemma ForeignActionKeepsView(s: State, a: Action, me: Process)
    requires Enabled(s, a) && Mover(a) != me
    ensures KeepsView(s, Apply(s, a), me)
  {
    ForeignActionKeepsProgress(s, a, me);
    assert Apply(s, a).log == s.log + EventsOf(s, a);
    OwnAppend(s.log, EventsOf(s, a), Mover(a), me);
  }

  lemma ForeignActionKeepsProgress(s: State, a: Action, me: Process)
    requires Enabled(s, a) && Mover(a) != me
    ensures ProgressOf(Apply(s, a), me) == ProgressOf(s, me)
  {
    if Mover(a).ClaimProcess? {
      ClaimActionKeepsProgress(s, a, me);
    } else if Mover(a).WorkerProcess? {
      WorkerActionKeepsProgress(s, a, me);
    }
  }

  lemma ClaimActionKeepsProgress(s: State, a: Action, me: Process)
    requires Enabled(s, a) && Mover(a).ClaimProcess? && Mover(a) != me
    ensures ProgressOf(Apply(s, a), me) == ProgressOf(s, me)
  {
  }

  lemma WorkerActionKeepsProgress(s: State, a: Action, me: Process)
    requires Enabled(s, a) && Mover(a).WorkerProcess? && Mover(a) != me
    ensures ProgressOf(Apply(s, a), me) == ProgressOf(s, me)
  {
  }

  /** States of runs from the empty table. */
  ghost predicate Reached(s: State) {
    exists run :: Feasible(START, run) && s == After(START, run)
  }

  lemma {:induction false} FeasibleAppend(s: State, run: seq<Action>, a: Action)
    requires Feasible(s, run) && Enabled(After(s, run), a)
    ensures Feasible(s, run + [a]) && After(s, run + [a]) == Apply(After(s, run), a)
    decreases |run|
  {
    if run == [] {
      assert run + [a] == [a];
      assert [a][1..] == [];
    } else {
      assert (run + [a])[0] == run[0] && (run + [a])[1..] == run[1..] + [a];
      FeasibleAppend(Apply(s, run[0]), run[1..], a);
    }
  }

  lemma ReachedStep(s: State, a: Action)
    requires Reached(s) && Enabled(s, a)
    ensures Reached(Apply(s, a))
  {
    var run :| Feasible(START, run) && s == After(START, run);
    FeasibleAppend(START, run, a);
  }

  predicate HoldsFor(claim: Claim, now: int, hold: int, limit: int) {
    claim.Holding? && claim.now == now && claim.hold == hold && claim.limit == limit
  }

  /** How `AcquireWork` may end. */
  datatype Acquired = Ready | Busy | AcquireError

  /** How `DoWork` may end. */
  datatype Outcome = Skipped | NotAcquired | RanAs(done: bool, finish: Finish)

  /** How the second transaction of `DoWork` may end: rolled back, without a row to change, or with its change committed. */
  datatype Finish = RolledBack | RowGone | Committed

  /**
   `SetNextWorkTime`: `None` is the zero time. A time chosen by the runner is kept; otherwise the
   work is due after its initial delay if it has one, else after the invocation interval.
   */
  function NextWorkTime(current: Option<int>, initialDelay: int, reset: bool, clock: int, interval: int): int {
    if reset || (initialDelay == 0 && current.None?) then clock + interval
    else if current.None? && initialDelay != 0 then clock + initialDelay
    else current.value
  }

  /** What the runner did with a work: whether it is done, the next time it chose, and the clock when it returned. */
  datatype RunnerResult = RunnerResult(done: bool, chosen: Option<int>, clock: int)

  /**
   The events of the second transaction: a committed done run deletes the work; a committed not-done run
   reschedules it to `next` unless its next time was set explicitly at or after position `from`.
   */
  ghost predicate EventsOfFinish(es: seq<Event>, work: Work, w: nat, done: bool, next: int, finish: Finish, log: seq<Event>, from: nat) {
    if finish != Committed then es == []
    else if done then es == [Deleted(work, w)]
    else es == [Rescheduled(work, w, next)] || (es == [] && WorkTheorems.Overruled(log, from, work))
  }

  /** The events of one `DoWork` call, by how it ended. */
  ghost predicate EventsOfDoWork(es: seq<Event>, work: Work, w: nat, r: Outcome, next: int, log: seq<Event>, from: nat) {
    if !r.RanAs? then es == []
    else
      && |es| >= 2 && es[0] == FlagReset(work, w) && es[1] == RunStarted(work, w)
      && EventsOfFinish(es[2..], work, w, r.done, next, r.finish, log, from)
  }

  /** That account stays true when the log grows and the position moves back. */
  lemma EventsOfFinishLater(es: seq<Event>, work: Work, w: nat, done: bool, next: int, finish: Finish,
                            log: seq<Event>, from: nat, later: seq<Event>, earlier: nat)
    requires EventsOfFinish(es, work, w, done, next, finish, log, from) && log <= later && earlier <= from
    ensures EventsOfFinish(es, work, w, done, next, finish, later, earlier)
  {
    if WorkTheorems.Overruled(log, from, work) {
      var k :| from <= k < |log| && log[k].work == work && (log[k].Explicit? || (log[k].Created? && log[k].row.nextTimeSet));
      assert later[k] == log[k];
    }
  }

  /** A state the system reaches in which the reference of `work` is locked or its row is gone. */
  ghost predicate Unavailable(s: State, work: Work) {
    Reached(s) && (LockKey(work) in s.refLocks || work !in s.rows)
  }

  class Cluster {
    var st: State

    constructor ()
      ensures Reached(st) && st == START
    {
      st := START;
      new;
      assert After(START, []) == START;
    }

    /** One atomic statement of some process. */
    method Do(a: Action)
      requires Reached(st) && Enabled(st, a)
      modifies this
      ensures Reached(st) && st == Apply(old(st), a)
      ensures Own(st.log, Mover(a)) == Own(old(st).log, Mover(a)) + EventsOf(old(st), a)
    {
      ReachedStep(st, a);
      OwnAppend(st.log, EventsOf(st, a), Mover(a), Mover(a));
      st := Apply(st, a);
    }

    /** Any number of actions of the other processes. */
    method OthersMove(me: Process)
      requires Reached(st)
      modifies this
      ensures Reached(st) && KeepsView(old(st), st, me)
    {
      var n: nat := *;
      while n > 0
        invariant Reached(st) && KeepsView(old(st), st, me)
      {
        var a: Action := *;
        if Enabled(st, a) && Mover(a) != me {
          ForeignActionKeepsView(st, a, me);
          assert Apply(st, a).log == st.log + EventsOf(st, a);
          ReachedStep(st, a);
          st := Apply(st, a);
        }
        n := n - 1;
      }
    }

    /**
     `ClaimDueWorks` of claimer `c`, whose clock reads `now`: on success it has claimed exactly the
     works it returns (`leased`, in the order of the leases), at most `limit` of them, each held until
     `now + hold`; otherwise it has claimed nothing.
     */
    method ClaimDueWorks(c: nat, now: int, hold: int, limit: int)
      returns (r: Result<seq<(Work, Row)>, string>, ghost leased: seq<Work>)
      requires Reached(st) && !ClaimOf(st, c).Started? && !InTransaction(ClaimOf(st, c))
      modifies this
      ensures Reached(st) && !ClaimOf(st, c).Started? && !InTransaction(ClaimOf(st, c))
      ensures limit <= 0 ==> r == Ok([]) && st == old(st)
      ensures Own(st.log, ClaimProcess(c)) == Own(old(st).log, ClaimProcess(c)) + ClaimEvents(c, now, hold, leased)
      ensures if r.Ok? then WorkInvariant.AreTheLeases(r.value, leased, HeldRow(now, hold)) else leased == []
      ensures r.Ok? && limit > 0 ==> |r.value| <= limit
    {
      leased := [];
      if limit <= 0 {
        return Ok([]), leased;
      }
      r, leased := ReadAndLease(c, now, hold, limit);
    }

    /** The claim transaction. */
    method ReadAndLease(c: nat, now: int, hold: int, limit: int)
      returns (r: Result<seq<(Work, Row)>, string>, ghost leased: seq<Work>)
      requires Reached(st) && Enabled(st, ClaimStart(c, now, hold, limit))
      modifies this
      ensures Reached(st) && !ClaimOf(st, c).Started? && !InTransaction(ClaimOf(st, c))
      ensures Own(st.log, ClaimProcess(c)) == Own(old(st).log, ClaimProcess(c)) + ClaimEvents(c, now, hold, leased)
      ensures if r.Ok? then WorkInvariant.AreTheLeases(r.value, leased, HeldRow(now, hold)) else leased == []
      ensures r.Ok? ==> |r.value| <= limit
    {
      leased := [];
      var read, due := ListDue(c, now, hold, limit);
      if !read {
        AbortClaim(c);
        return Err("failed to read works from database 1"), leased;
      }
      r, leased := HoldAndCommit(c, now, hold, limit, due);
    }

    /** The transaction once the due works are listed: lease them, list the leased ones again, commit. */
    method HoldAndCommit(c: nat, now: int, hold: int, limit: int, due: seq<Work>)
      returns (r: Result<seq<(Work, Row)>, string>, ghost leased: seq<Work>)
      requires Reached(st) && ClaimOf(st, c) == Holding(now, hold, limit, due, [])
      modifies this
      ensures Reached(st) && !ClaimOf(st, c).Started? && !InTransaction(ClaimOf(st, c))
      ensures Own(st.log, ClaimProcess(c)) == Own(old(st).log, ClaimProcess(c)) + ClaimEvents(c, now, hold, leased)
      ensures if r.Ok? then WorkInvariant.AreTheLeases(r.value, leased, HeldRow(now, hold)) else leased == []
      ensures r.Ok? ==> |r.value| <= limit
    {
      leased := [];
      var held := HoldWorks(c, now, hold, limit, due);
      if !held {
        AbortClaim(c);
        return Err("failed to hold works"), leased;
      }
      var listed := RelistWorks(c);
      if !listed {
        AbortClaim(c);
        return Err("failed to read works from database 2"), leased;
      }
      var works;
      works, leased := CommitClaim(c);
      r := Ok(works);
    }

    /** The clock is read, the transaction begins and the due works are listed without a lock. */
    method ListDue(c: nat, now: int, hold: int, limit: int) returns (ok: bool, due: seq<Work>)
      requires Reached(st) && Enabled(st, ClaimStart(c, now, hold, limit))
      modifies this
      ensures Reached(st) && Own(st.log, ClaimProcess(c)) == Own(old(st).log, ClaimProcess(c))
      ensures ClaimOf(st, c) == if ok then Holding(now, hold, limit, due, []) else Started(now, hold, limit)
    {
      Do(ClaimStart(c, now, hold, limit));
      OthersMove(ClaimProcess(c));
      due := *;
      ok := IsDueList(st.rows, now, limit, due);
      if ok {
        Do(ClaimList(c, due));
      }
    }

    /** The transaction is rolled back. */
    method AbortClaim(c: nat)
      requires Reached(st) && (ClaimOf(st, c).Started? || InTransaction(ClaimOf(st, c)))
      modifies this
      ensures Reached(st) && ClaimOf(st, c) == Failed
      ensures Own(st.log, ClaimProcess(c)) == Own(old(st).log, ClaimProcess(c))
    {
      Do(ClaimAbort(c));
    }

    /** The loop over the listed works: re-read each under its row lock and lease it if still due. */
    method HoldWorks(c: nat, now: int, hold: int, limit: int, due: seq<Work>) returns (ok: bool)
      requires Reached(st) && ClaimOf(st, c) == Holding(now, hold, limit, due, [])
      modifies this
      ensures Reached(st) && Own(st.log, ClaimProcess(c)) == Own(old(st).log, ClaimProcess(c))
      ensures HoldsFor(ClaimOf(st, c), now, hold, limit)
      ensures ok ==> ClaimOf(st, c).todo == []
    {
      var i := 0;
      while i < |due|
        invariant 0 <= i <= |due| && Reached(st)
        invariant HoldsFor(ClaimOf(st, c), now, hold, limit) && ClaimOf(st, c).todo == due[i..]
        invariant Own(st.log, ClaimProcess(c)) == Own(old(st).log, ClaimProcess(c))
      {
        var granted := HoldNext(c);
        if !granted { return false; }
        i := i + 1;
      }
      OthersMove(ClaimProcess(c));
      ok := *;
    }

    /** One turn of that loop; it fails if the row lock is not granted in time. */
    method HoldNext(c: nat) returns (granted: bool)
      requires Reached(st) && ClaimOf(st, c).Holding? && ClaimOf(st, c).todo != []
      modifies this
      ensures Reached(st) && Own(st.log, ClaimProcess(c)) == Own(old(st).log, ClaimProcess(c))
      ensures var before := ClaimOf(old(st), c);
        && HoldsFor(ClaimOf(st, c), before.now, before.hold, before.limit)
        && (granted ==> ClaimOf(st, c).todo == before.todo[1..])
    {
      OthersMove(ClaimProcess(c));
      granted := FreeFor(st, ClaimOf(st, c).todo[0], ByClaim(c));
      if granted {
        Do(ClaimNext(c));
      }
    }

    /** The second listing, skipped when nothing was leased; it may fail, else it answers in any order. */
    method RelistWorks(c: nat) returns (ok: bool)
      requires Reached(st) && ClaimOf(st, c).Holding? && ClaimOf(st, c).todo == []
      modifies this
      ensures Reached(st) && Own(st.log, ClaimProcess(c)) == Own(old(st).log, ClaimProcess(c))
      ensures if ok then Enabled(st, ClaimCommit(c)) else ClaimOf(st, c).Holding?
      ensures var before, after := ClaimOf(old(st), c), ClaimOf(st, c);
        InTransaction(after) && after.now == before.now && after.hold == before.hold && after.limit == before.limit
    {
      OthersMove(ClaimProcess(c));
      var claim := ClaimOf(st, c);
      if claim.ids == [] {
        return true;
      }
      var works: seq<(Work, Row)> := *;
      ok := IsRelisting(WithLeases(st.rows, claim.ids, HeldRow(claim.now, claim.hold)), claim.ids, works);
      if ok {
        Do(ClaimRelist(c, works));
        OthersMove(ClaimProcess(c));
      }
    }

    /** End of the claim transaction, and the works it returns. */
    method CommitClaim(c: nat) returns (works: seq<(Work, Row)>, ghost leased: seq<Work>)
      requires Reached(st) && Enabled(st, ClaimCommit(c))
      modifies this
      ensures Reached(st) && ClaimOf(st, c).Returned?
      ensures var claim := ClaimOf(old(st), c);
        && Own(st.log, ClaimProcess(c)) == Own(old(st).log, ClaimProcess(c)) + ClaimEvents(c, claim.now, claim.hold, leased)
        && WorkInvariant.AreTheLeases(works, leased, HeldRow(claim.now, claim.hold)) && |works| <= claim.limit
    {
      ghost var run :| Feasible(START, run) && st == After(START, run);
      WorkTheorems.ClaimReturnsWhatItLeased(run, c);
      leased := ClaimOf(st, c).ids;
      Do(ClaimCommit(c));
      works := ClaimOf(st, c).works;
    }

    /**
     `AcquireWork`: the reference lock, the existence probe under it, and the flag reset. It ends `Busy`
     only if it has seen the reference locked or the row gone (in the state `seen`).
     */
    method AcquireWork(w: nat) returns (r: Acquired, ghost seen: State)
      requires Reached(st) && PhaseOf(st, w).Wanting?
      modifies this
      ensures Reached(st) && old(st).log <= st.log
      ensures var work := PhaseOf(old(st), w).work;
        if r == Ready then
          && PhaseOf(st, w).Armed? && PhaseOf(st, w).work == work && PhaseOf(st, w).resetAt >= |old(st).log|
          && Own(st.log, WorkerProcess(w)) == Own(old(st).log, WorkerProcess(w)) + [FlagReset(work, w)]
        else
          PhaseOf(st, w).Idle? && Own(st.log, WorkerProcess(w)) == Own(old(st).log, WorkerProcess(w))
      ensures r == Busy ==> Unavailable(seen, PhaseOf(old(st), w).work)
    {
      OthersMove(WorkerProcess(w));
      seen := st;
      var fails: bool := *;
      if fails || LockKey(PhaseOf(st, w).work) in st.refLocks {
        LeaveWork(w);
        return if fails then AcquireError else Busy, seen;
      }
      TakeLock(w);
      r, seen := ProbeAndReset(w);
      if r != Ready {
        ReleaseWork(w);
      }
    }

    method LeaveWork(w: nat)
      requires Reached(st) && Enabled(st, GiveUp(w))
      modifies this
      ensures Reached(st) && st.log == old(st).log && PhaseOf(st, w).Idle?
      ensures Own(st.log, WorkerProcess(w)) == Own(old(st).log, WorkerProcess(w))
    {
      Do(GiveUp(w));
    }

    method TakeLock(w: nat)
      requires Reached(st) && Enabled(st, Acquire(w))
      modifies this
      ensures Reached(st) && old(st).log <= st.log && PhaseOf(st, w) == Locked(PhaseOf(old(st), w).work)
      ensures Own(st.log, WorkerProcess(w)) == Own(old(st).log, WorkerProcess(w))
    {
      Do(Acquire(w));
      OthersMove(WorkerProcess(w));
    }

    method ProbeAndReset(w: nat) returns (r: Acquired, ghost seen: State)
      requires Reached(st) && PhaseOf(st, w).Locked?
      modifies this
      ensures Reached(st) && old(st).log <= st.log
      ensures var work := PhaseOf(old(st), w).work;
        if r == Ready then
          && PhaseOf(st, w).Armed? && PhaseOf(st, w).work == work && PhaseOf(st, w).resetAt >= |old(st).log|
          && Own(st.log, WorkerProcess(w)) == Own(old(st).log, WorkerProcess(w)) + [FlagReset(work, w)]
        else
          PhaseOf(st, w) == Releasing(work) && Own(st.log, WorkerProcess(w)) == Own(old(st).log, WorkerProcess(w))
      ensures r == Busy ==> Unavailable(seen, PhaseOf(old(st), w).work)
    {
      seen := st;
      var fails: bool := *;
      if fails {
        Do(AcquireFails(w));
        return AcquireError, seen;
      }
      Do(Probe(w));
      if PhaseOf(st, w).Releasing? {
        return Busy, seen;
      }
      OthersMove(WorkerProcess(w));
      if !Unlocked(st, PhaseOf(st, w).work) {
        Do(AcquireFails(w));
        return AcquireError, seen;
      }
      Do(ResetNext(w));
      r := Ready;
    }

    /** `ReleaseWork`: the worker is done with the work even when the locker reports an error. */
    method ReleaseWork(w: nat)
      requires Reached(st) && PhaseOf(st, w).Releasing?
      modifies this
      ensures Reached(st) && PhaseOf(st, w).Idle? && old(st).log <= st.log
      ensures Own(st.log, WorkerProcess(w)) == Own(old(st).log, WorkerProcess(w))
    {
      OthersMove(WorkerProcess(w));
      var fails: bool := *;
      if fails { Do(ReleaseFails(w)); } else { Do(Release(w)); }
    }

    /**
     `DoWork` on a copy of `work`: it is skipped without an error only if the reference was locked or the
     row gone (in the state `seen`); otherwise it runs the work at most once and only after the flag reset. If its
     second transaction commits, a done run has deleted the work. A not-done run has rescheduled it,
     unless somebody else set a next time explicitly during the call: to the time the runner chose, and
     if it chose none, to its clock plus the initial delay, or plus the invocation interval without one.
     */
    method DoWork(w: nat, work: Work, initialDelay: int, interval: int, runner: RunnerResult)
      returns (r: Outcome, ghost es: seq<Event>, ghost seen: State)
      requires Reached(st) && PhaseOf(st, w).Idle?
      modifies this
      ensures Reached(st) && PhaseOf(st, w).Idle? && old(st).log <= st.log
      ensures Own(st.log, WorkerProcess(w)) == Own(old(st).log, WorkerProcess(w)) + es
      ensures r.RanAs? ==> r.done == runner.done
      ensures r == Skipped ==> Unavailable(seen, work)
      ensures runner.chosen.Some? ==> EventsOfDoWork(es, work, w, r, runner.chosen.value, st.log, |old(st).log|)
      ensures runner.chosen.None? ==>
        EventsOfDoWork(es, work, w, r, runner.clock + (if initialDelay == 0 then interval else initialDelay), st.log, |old(st).log|)
    {
      r, es, seen := TryWork(w, work, runner.done, NextWorkTime(runner.chosen, initialDelay, false, runner.clock, interval));
    }

    /** The same once the run's result and the next time are known by name. */
    method TryWork(w: nat, work: Work, done: bool, next: int) returns (r: Outcome, ghost es: seq<Event>, ghost seen: State)
      requires Reached(st) && PhaseOf(st, w).Idle?
      modifies this
      ensures Reached(st) && PhaseOf(st, w).Idle? && old(st).log <= st.log
      ensures Own(st.log, WorkerProcess(w)) == Own(old(st).log, WorkerProcess(w)) + es
      ensures (r.RanAs? ==> r.done == done) && (r == Skipped ==> Unavailable(seen, work))
      ensures EventsOfDoWork(es, work, w, r, next, st.log, |old(st).log|)
    {
      es := [];
      TakeWork(w, work);
      var acquired;
      acquired, seen := AcquireWork(w);
      if acquired != Ready {
        return if acquired == Busy then Skipped else NotAcquired, es, seen;
      }
      ghost var armed := st;
      var finish;
      finish, es := RunAndFinish(w, done, next);
      ghost var run := es;
      EventsOfFinishLater(run[1..], work, w, done, next, finish, st.log, PhaseOf(armed, w).resetAt, st.log, |old(st).log|);
      es := [FlagReset(work, w)] + run;
      assert es[2..] == run[1..];
      r := RanAs(done, finish);
    }

    method TakeWork(w: nat, work: Work)
      requires Reached(st) && PhaseOf(st, w).Idle?
      modifies this
      ensures Reached(st) && PhaseOf(st, w) == Wanting(work) && old(st).log == st.log
      ensures Own(st.log, WorkerProcess(w)) == Own(old(st).log, WorkerProcess(w))
    {
      Do(Take(w, work));
    }

    method RunAndFinish(w: nat, done: bool, next: int) returns (finish: Finish, ghost es: seq<Event>)
      requires Reached(st) && PhaseOf(st, w).Armed?
      modifies this
      ensures Reached(st) && PhaseOf(st, w).Idle? && old(st).log <= st.log
      ensures Own(st.log, WorkerProcess(w)) == Own(old(st).log, WorkerProcess(w)) + es
      ensures var p := PhaseOf(old(st), w);
        |es| >= 1 && es[0] == RunStarted(p.work, w) && EventsOfFinish(es[1..], p.work, w, done, next, finish, st.log, p.resetAt)
    {
      RunWork(w, done, next);
      ghost var last;
      finish, last := FinishAndRelease(w);
      es := [RunStarted(PhaseOf(old(st), w).work, w)] + last;
      assert es[1..] == last;
    }

    method FinishAndRelease(w: nat) returns (finish: Finish, ghost es: seq<Event>)
      requires Reached(st) && PhaseOf(st, w).Ran?
      modifies this
      ensures Reached(st) && PhaseOf(st, w).Idle? && old(st).log <= st.log
      ensures Own(st.log, WorkerProcess(w)) == Own(old(st).log, WorkerProcess(w)) + es
      ensures var p := PhaseOf(old(st), w); EventsOfFinish(es, p.work, w, p.done, p.next, finish, st.log, p.resetAt)
    {
      ghost var p, read := PhaseOf(st, w), st;
      finish, es, read := FinishWork(w);
      ghost var finished := st;
      ReleaseWork(w);
      EventsOfFinishLater(es, p.work, w, p.done, p.next, finish, finished.log, p.resetAt, st.log, p.resetAt);
    }

    /** The run itself, during which anything else may happen. */
    method RunWork(w: nat, done: bool, next: int)
      requires Reached(st) && PhaseOf(st, w).Armed?
      modifies this
      ensures Reached(st) && old(st).log <= st.log
      ensures var p := PhaseOf(old(st), w); PhaseOf(st, w) == Ran(p.work, p.resetAt, done, next)
      ensures Own(st.log, WorkerProcess(w)) == Own(old(st).log, WorkerProcess(w)) + [RunStarted(PhaseOf(st, w).work, w)]
    {
      OthersMove(WorkerProcess(w));
      Do(StartRun(w));
      OthersMove(WorkerProcess(w));
      EndOfRun(w, done, next);
      OthersMove(WorkerProcess(w));
    }

    method EndOfRun(w: nat, done: bool, next: int)
      requires Reached(st) && PhaseOf(st, w).Running?
      modifies this
      ensures Reached(st) && old(st).log == st.log
      ensures var p := PhaseOf(old(st), w); PhaseOf(st, w) == Ran(p.work, p.resetAt, done, next)
      ensures Own(st.log, WorkerProcess(w)) == Own(old(st).log, WorkerProcess(w))
    {
      Do(EndRun(w, done, next));
    }

    /**
     The second transaction of `DoWork`, which reads the row in the state `read`. Committed, a done run
     has removed the row; a not-done run leaves it with the flag set, holding its own next time or the
     explicit one that was set since its reset.
     */
    method FinishWork(w: nat) returns (finish: Finish, ghost es: seq<Event>, ghost read: State)
      requires Reached(st) && PhaseOf(st, w).Ran?
      modifies this
      ensures Reached(st) && PhaseOf(st, w) == Releasing(PhaseOf(old(st), w).work) && old(st).log <= st.log
      ensures Own(st.log, WorkerProcess(w)) == Own(old(st).log, WorkerProcess(w)) + es
      ensures var p := PhaseOf(old(st), w);
        && EventsOfFinish(es, p.work, w, p.done, p.next, finish, st.log, p.resetAt)
        && Reached(read) && (finish == RowGone ==> p.work !in read.rows) && (finish == Committed ==> p.work in read.rows)
        && (finish == Committed && p.done ==> p.work !in st.rows)
        && (finish == Committed && !p.done ==> p.work in st.rows && st.rows[p.work].nextTimeSet)
        && (finish == Committed && !p.done && es != [] ==> st.rows[p.work] == Row(p.next, true))
    {
      es, read := [], st;
      if !Unlocked(st, PhaseOf(st, w).work) {
        RollBack(w);
        return RolledBack, es, read;
      }
      ReadForUpdate(w);
      var commits: bool := *;
      if commits {
        finish := if PhaseOf(st, w).found then Committed else RowGone;
        es := CommitFinish(w);
      } else {
        finish := RolledBack;
        RollBack(w);
      }
    }

    method RollBack(w: nat)
      requires Reached(st) && Enabled(st, FinishAbort(w))
      modifies this
      ensures Reached(st) && st.log == old(st).log && PhaseOf(st, w) == Releasing(PhaseOf(old(st), w).work)
      ensures Own(st.log, WorkerProcess(w)) == Own(old(st).log, WorkerProcess(w))
    {
      Do(FinishAbort(w));
    }

    method ReadForUpdate(w: nat)
      requires Reached(st) && Enabled(st, FinishRead(w))
      modifies this
      ensures Reached(st) && old(st).log <= st.log
      ensures var p := PhaseOf(old(st), w);
        PhaseOf(st, w) == Finishing(p.work, p.resetAt, p.done, p.next, p.work in old(st).rows)
      ensures Own(st.log, WorkerProcess(w)) == Own(old(st).log, WorkerProcess(w))
    {
      WorkTheorems.FinishReadFinds(st, w);
      Do(FinishRead(w));
      OthersMove(WorkerProcess(w));
    }

    method CommitFinish(w: nat) returns (ghost es: seq<Event>)
      requires Reached(st) && PhaseOf(st, w).Finishing?
      modifies this
      ensures Reached(st) && st.log == old(st).log + es
      ensures Own(st.log, WorkerProcess(w)) == Own(old(st).log, WorkerProcess(w)) + es
      ensures var p := PhaseOf(old(st), w);
        && PhaseOf(st, w) == Releasing(p.work)
        && EventsOfFinish(es, p.work, w, p.done, p.next, if p.found then Committed else RowGone, st.log, p.resetAt)
        && (p.found && p.done ==> p.work !in st.rows)
        && (p.found && !p.done ==> p.work in st.rows && st.rows[p.work].nextTimeSet && (es != [] ==> st.rows[p.work] == Row(p.next, true)))
    {
      ghost var run :| Feasible(START, run) && st == After(START, run);
      ghost var p := PhaseOf(st, w);
      if !p.found {
        WorkTheorems.GoneRowChangesNothing(st, w);
      } else if p.done {
        WorkTheorems.DoneRunDeletesItsWork(run, w);
      } else {
        WorkTheorems.NotDoneRunReschedules(run, w);
      }
      es := EventsOf(st, FinishCommit(w));
      Do(FinishCommit(w));
    }
  }
}
