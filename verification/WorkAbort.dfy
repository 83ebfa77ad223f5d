/** A claim that does not commit leaves no trace: every run with it is a run without it. */
module WorkAbort {
  import opened WorkModel

  predicate IsClaiming(a: Action) {
    a.ClaimStart? || a.ClaimList? || a.ClaimNext? || a.ClaimRelist? || a.ClaimCommit? || a.ClaimAbort?
  }

  /** The actions of claim `c`. */
  predicate OfClaim(a: Action, c: nat) {
    IsClaiming(a) && a.c == c
  }

  /** The run in which claim `c` does not take part. */
  function Erased(run: seq<Action>, c: nat): seq<Action> {
    if run == [] then []
    else (if OfClaim(run[0], c) then [] else [run[0]]) + Erased(run[1..], c)
  }

  predicate NeverCommits(run: seq<Action>, c: nat) {
    forall k :: 0 <= k < |run| ==> run[k] != ClaimCommit(c)
  }

  /** Equal but for claim `c`: its own progress, and row locks that it holds in `s` and nobody holds in `t`. */
  ghost predicate SameBut(s: State, t: State, c: nat) {
    && t.rows == s.rows && t.log == s.log && t.workers == s.workers && t.refLocks == s.refLocks
    && SameClaims(s.claims, t.claims, c)
    && t.rowLocks == WithoutLocksOf(s.rowLocks, ByClaim(c))
  }

  ghost predicate SameClaims(a: map<nat, Claim>, b: map<nat, Claim>, c: nat) {
    forall d :: d != c ==> (d in a <==> d in b) && (d in a ==> a[d] == b[d])
  }

  // ----- a step of the claim itself -----

  lemma OwnStep(s: State, t: State, c: nat, a: Action)
    requires SameBut(s, t, c) && Enabled(s, a) && OfClaim(a, c) && !a.ClaimCommit?
    ensures SameBut(Apply(s, a), t, c)
  {
    if a.ClaimNext? { OwnNext(s, t, c); } else { OwnOther(s, t, c, a); }
  }

  lemma OwnNext(s: State, t: State, c: nat)
    requires SameBut(s, t, c) && Enabled(s, ClaimNext(c))
    ensures SameBut(Apply(s, ClaimNext(c)), t, c)
  {
    OwnLock(s.rowLocks, ClaimOf(s, c).todo[0], ByClaim(c));
  }

  lemma OwnLock(locks: map<Work, Owner>, work: Work, owner: Owner)
    requires work in locks ==> locks[work] == owner
    ensures WithoutLocksOf(locks[work := owner], owner) == WithoutLocksOf(locks, owner)
  {
  }

  lemma OwnOther(s: State, t: State, c: nat, a: Action)
    requires SameBut(s, t, c) && Enabled(s, a) && OfClaim(a, c) && !a.ClaimCommit? && !a.ClaimNext?
    ensures SameBut(Apply(s, a), t, c)
  {
    assert WithoutLocksOf(WithoutLocksOf(s.rowLocks, ByClaim(c)), ByClaim(c)) == WithoutLocksOf(s.rowLocks, ByClaim(c));
  }

  // ----- a step of anybody else -----

  lemma OtherIsEnabled(s: State, t: State, c: nat, a: Action)
    requires SameBut(s, t, c) && Enabled(s, a) && !OfClaim(a, c)
    ensures Enabled(t, a)
  {
  }

  /** Erasing the locks of one owner and releasing those of another commute. */
  lemma ErasuresCommute(locks: map<Work, Owner>, a: Owner, b: Owner)
    ensures WithoutLocksOf(WithoutLocksOf(locks, a), b) == WithoutLocksOf(WithoutLocksOf(locks, b), a)
  {
  }

  lemma ErasedLock(locks: map<Work, Owner>, work: Work, owner: Owner, erased: Owner)
    requires owner != erased
    ensures WithoutLocksOf(locks[work := owner], erased) == WithoutLocksOf(locks, erased)[work := owner]
  {
  }

  lemma OtherClaimStep(s: State, t: State, c: nat, a: Action)
    requires SameBut(s, t, c) && Enabled(s, a) && Enabled(t, a) && IsClaiming(a) && !a.ClaimNext? && a.c != c
    ensures SameBut(Apply(s, a), Apply(t, a), c)
  {
    ErasuresCommute(s.rowLocks, ByClaim(c), ByClaim(a.c));
  }

  lemma OtherClaimNext(s: State, t: State, c: nat, d: nat)
    requires SameBut(s, t, c) && Enabled(s, ClaimNext(d)) && Enabled(t, ClaimNext(d)) && d != c
    ensures SameBut(Apply(s, ClaimNext(d)), Apply(t, ClaimNext(d)), c)
  {
    ErasedLock(s.rowLocks, ClaimOf(s, d).todo[0], ByClaim(d), ByClaim(c));
  }

  lemma TableStep(s: State, t: State, c: nat, a: Action)
    requires SameBut(s, t, c) && Enabled(s, a) && Enabled(t, a) && (a.Post? || a.Remove? || a.SetNext?)
    ensures SameBut(Apply(s, a), Apply(t, a), c)
  {
  }

  lemma FinishReadStep(s: State, t: State, c: nat, w: nat)
    requires SameBut(s, t, c) && Enabled(s, FinishRead(w)) && Enabled(t, FinishRead(w))
    ensures SameBut(Apply(s, FinishRead(w)), Apply(t, FinishRead(w)), c)
  {
    assert PhaseOf(t, w) == PhaseOf(s, w);
    ErasedLock(s.rowLocks, PhaseOf(s, w).work, ByWorker(w), ByClaim(c));
  }

  lemma FinishAbortStep(s: State, t: State, c: nat, w: nat)
    requires SameBut(s, t, c) && Enabled(s, FinishAbort(w)) && Enabled(t, FinishAbort(w))
    ensures SameBut(Apply(s, FinishAbort(w)), Apply(t, FinishAbort(w)), c)
  {
    assert PhaseOf(t, w) == PhaseOf(s, w);
    ErasuresCommute(s.rowLocks, ByClaim(c), ByWorker(w));
  }

  lemma FinishCommitStep(s: State, t: State, c: nat, w: nat)
    requires SameBut(s, t, c) && Enabled(s, FinishCommit(w)) && Enabled(t, FinishCommit(w))
    ensures SameBut(Apply(s, FinishCommit(w)), Apply(t, FinishCommit(w)), c)
  {
    assert PhaseOf(t, w) == PhaseOf(s, w);
    ErasuresCommute(s.rowLocks, ByClaim(c), ByWorker(w));
    FinishCommitFrame(s, w);
    FinishCommitFrame(t, w);
    FinishCommitTable(s, t, w);
  }

  lemma FinishCommitFrame(s: State, w: nat)
    requires Enabled(s, FinishCommit(w))
    ensures var u := Apply(s, FinishCommit(w));
      && u.claims == s.claims && u.refLocks == s.refLocks && u.rowLocks == WithoutLocksOf(s.rowLocks, ByWorker(w))
      && u.workers == s.workers[w := Releasing(PhaseOf(s, w).work)]
  {
  }

  lemma FinishCommitTable(s: State, t: State, w: nat)
    requires Enabled(s, FinishCommit(w)) && Enabled(t, FinishCommit(w))
    requires t.rows == s.rows && t.log == s.log && PhaseOf(t, w) == PhaseOf(s, w)
    ensures Apply(t, FinishCommit(w)).rows == Apply(s, FinishCommit(w)).rows && Apply(t, FinishCommit(w)).log == Apply(s, FinishCommit(w)).log
  {
    var u, v := DoFinishCommit(s, w), DoFinishCommit(t, w);
    assert v == t.(rows := u.rows, log := u.log, rowLocks := v.rowLocks, workers := v.workers);
  }

  predicate IsPlainWorkerAction(a: Action) {
    || a.Take? || a.Acquire? || a.GiveUp? || a.Probe? || a.ResetNext? || a.AcquireFails? || a.StartRun? || a.EndRun?
    || a.Release? || a.ReleaseFails?
  }

  lemma PlainWorkerStep(s: State, t: State, c: nat, a: Action)
    requires SameBut(s, t, c) && Enabled(s, a) && Enabled(t, a) && IsPlainWorkerAction(a)
    ensures SameBut(Apply(s, a), Apply(t, a), c)
  {
    PlainWorkerFrame(s, a);
    PlainWorkerFrame(t, a);
    if a.ResetNext? || a.StartRun? { LoggedWorkerMove(s, t, a); } else { PlainWorkerMove(s, t, a); }
  }

  lemma LoggedWorkerMove(s: State, t: State, a: Action)
    requires Enabled(s, a) && Enabled(t, a) && (a.ResetNext? || a.StartRun?)
    requires t.rows == s.rows && t.log == s.log && t.workers == s.workers && t.refLocks == s.refLocks
    ensures var u, v := Apply(s, a), Apply(t, a);
      v.rows == u.rows && v.log == u.log && v.workers == u.workers && v.refLocks == u.refLocks
  {
    assert PhaseOf(t, a.w) == PhaseOf(s, a.w);
  }

  lemma PlainWorkerMove(s: State, t: State, a: Action)
    requires Enabled(s, a) && Enabled(t, a) && IsPlainWorkerAction(a) && !a.ResetNext? && !a.StartRun?
    requires t.rows == s.rows && t.log == s.log && t.workers == s.workers && t.refLocks == s.refLocks
    ensures var u, v := Apply(s, a), Apply(t, a);
      v.rows == u.rows && v.log == u.log && v.workers == u.workers && v.refLocks == u.refLocks
  {
    assert PhaseOf(t, a.w) == PhaseOf(s, a.w);
    PlainWorkerTable(s, a);
    PlainWorkerTable(t, a);
  }

  lemma PlainWorkerTable(s: State, a: Action)
    requires Enabled(s, a) && IsPlainWorkerAction(a) && !a.ResetNext? && !a.StartRun?
    ensures Apply(s, a).rows == s.rows && Apply(s, a).log == s.log
  {
  }

  lemma PlainWorkerFrame(s: State, a: Action)
    requires Enabled(s, a) && IsPlainWorkerAction(a)
    ensures Apply(s, a).claims == s.claims && Apply(s, a).rowLocks == s.rowLocks
  {
  }

  lemma OtherStep(s: State, t: State, c: nat, a: Action)
    requires SameBut(s, t, c) && Enabled(s, a) && !OfClaim(a, c)
    ensures Enabled(t, a) && SameBut(Apply(s, a), Apply(t, a), c)
  {
    OtherIsEnabled(s, t, c, a);
    if a.Post? || a.Remove? || a.SetNext? { TableStep(s, t, c, a); }
    else if a.ClaimNext? { OtherClaimNext(s, t, c, a.c); }
    else if IsClaiming(a) { OtherClaimStep(s, t, c, a); }
    else if IsPlainWorkerAction(a) { PlainWorkerStep(s, t, c, a); }
    else if a.FinishRead? { FinishReadStep(s, t, c, a.w); }
    else if a.FinishAbort? { FinishAbortStep(s, t, c, a.w); }
    else { FinishCommitStep(s, t, c, a.w); }
  }

  /** As long as claim `c` does not commit, the rest of the system behaves as it could without the claim. */
  lemma {:induction false} UncommittedIsInvisible(s: State, t: State, run: seq<Action>, c: nat)
    requires SameBut(s, t, c) && Feasible(s, run) && NeverCommits(run, c)
    ensures Feasible(t, Erased(run, c)) && SameBut(After(s, run), After(t, Erased(run, c)), c)
    decreases |run|
  {
    if run != [] {
      var a, rest := run[0], run[1..];
      assert a != ClaimCommit(c);
      assert NeverCommits(rest, c) by {
        forall k | 0 <= k < |rest| ensures rest[k] != ClaimCommit(c) { assert rest[k] == run[k + 1]; }
      }
      if OfClaim(a, c) {
        OwnStep(s, t, c, a);
        UncommittedIsInvisible(Apply(s, a), t, rest, c);
        assert Erased(run, c) == Erased(rest, c);
      } else {
        OtherStep(s, t, c, a);
        UncommittedIsInvisible(Apply(s, a), Apply(t, a), rest, c);
        assert Erased(run, c)[0] == a && Erased(run, c)[1..] == Erased(rest, c);
      }
    }
  }

  // ----- a claim holds row locks only inside its transaction -----

  ghost predicate LocksAreInUse(s: State) {
    forall work, c :: work in s.rowLocks && s.rowLocks[work] == ByClaim(c) ==> InTransaction(ClaimOf(s, c))
  }

  lemma StepKeepsLocksInUse(s: State, a: Action)
    requires LocksAreInUse(s) && Enabled(s, a)
    ensures LocksAreInUse(Apply(s, a))
  {
    if IsClaiming(a) {
      ClaimKeepsLocksInUse(s, a);
    } else if IsPlainWorkerAction(a) {
      PlainWorkerFrame(s, a);
    } else {
      OthersKeepLocksInUse(s, a);
    }
  }

  lemma ClaimKeepsLocksInUse(s: State, a: Action)
    requires LocksAreInUse(s) && Enabled(s, a) && IsClaiming(a)
    ensures LocksAreInUse(Apply(s, a))
  {
  }

  lemma OthersKeepLocksInUse(s: State, a: Action)
    requires LocksAreInUse(s) && Enabled(s, a)
    requires a.Post? || a.Remove? || a.SetNext? || a.FinishRead? || a.FinishCommit? || a.FinishAbort?
    ensures LocksAreInUse(Apply(s, a))
  {
    assert Apply(s, a).claims == s.claims;
  }

  lemma {:induction false} LocksStayInUse(s: State, run: seq<Action>)
    requires LocksAreInUse(s) && Feasible(s, run)
    ensures LocksAreInUse(After(s, run))
    decreases |run|
  {
    if run != [] {
      StepKeepsLocksInUse(s, run[0]);
      LocksStayInUse(Apply(s, run[0]), run[1..]);
    }
  }

  lemma NoLocksLeft(s: State, c: nat)
    requires LocksAreInUse(s) && !InTransaction(ClaimOf(s, c))
    ensures WithoutLocksOf(s.rowLocks, ByClaim(c)) == s.rowLocks
  {
  }

  /** A worker holds a row lock only on its own row, and only while its second transaction is open. */
  ghost predicate WorkerLocksInUse(s: State) {
    forall work, w :: work in s.rowLocks && s.rowLocks[work] == ByWorker(w) ==>
      PhaseOf(s, w).Finishing? && PhaseOf(s, w).found && PhaseOf(s, w).work == work
  }

  lemma StepKeepsWorkerLocks(s: State, a: Action)
    requires WorkerLocksInUse(s) && Enabled(s, a)
    ensures WorkerLocksInUse(Apply(s, a))
  {
    if IsClaiming(a) {
      ClaimKeepsWorkerLocks(s, a);
    } else if IsPlainWorkerAction(a) {
      PlainKeepsWorkerLocks(s, a);
    } else {
      OthersKeepWorkerLocks(s, a);
    }
  }

  lemma ClaimKeepsWorkerLocks(s: State, a: Action)
    requires WorkerLocksInUse(s) && Enabled(s, a) && IsClaiming(a)
    ensures WorkerLocksInUse(Apply(s, a))
  {
    assert Apply(s, a).workers == s.workers;
  }

  lemma PlainKeepsWorkerLocks(s: State, a: Action)
    requires WorkerLocksInUse(s) && Enabled(s, a) && IsPlainWorkerAction(a)
    ensures WorkerLocksInUse(Apply(s, a))
  {
    PlainWorkerFrame(s, a);
    assert !PhaseOf(s, a.w).Finishing?;
    assert forall w :: w != a.w ==> PhaseOf(Apply(s, a), w) == PhaseOf(s, w);
  }

  lemma OthersKeepWorkerLocks(s: State, a: Action)
    requires WorkerLocksInUse(s) && Enabled(s, a)
    requires a.Post? || a.Remove? || a.SetNext? || a.FinishRead? || a.FinishCommit? || a.FinishAbort?
    ensures WorkerLocksInUse(Apply(s, a))
  {
  }

  lemma {:induction false} WorkerLocksStayInUse(s: State, run: seq<Action>)
    requires WorkerLocksInUse(s) && Feasible(s, run)
    ensures WorkerLocksInUse(After(s, run))
    decreases |run|
  {
    if run != [] {
      StepKeepsWorkerLocks(s, run[0]);
      WorkerLocksStayInUse(Apply(s, run[0]), run[1..]);
    }
  }

  /** Every row lock of a reachable state belongs to an open transaction, so none outlives its commit or rollback. */
  lemma RowLocksEndWithTheirTransaction(run: seq<Action>, work: Work)
    requires Feasible(START, run) && work in After(START, run).rowLocks
    ensures var s := After(START, run);
      match s.rowLocks[work]
      case ByClaim(c) => InTransaction(ClaimOf(s, c))
      case ByWorker(w) => PhaseOf(s, w).Finishing? && PhaseOf(s, w).found && PhaseOf(s, w).work == work
  {
    LocksStayInUse(START, run);
    WorkerLocksStayInUse(START, run);
  }

  /**
   An aborted claim changes nothing, however its statements interleave with everybody else's: from any
   reachable state, the stretch of the run in which it started and aborted leaves the same table, log,
   workers, locks and other claims as the same stretch without the claim, which is a run as well.
   */
  lemma AbortedClaimLeavesNoTrace(before: seq<Action>, run: seq<Action>, c: nat)
    requires Feasible(START, before) && Feasible(After(START, before), run)
    requires !InTransaction(ClaimOf(After(START, before), c)) && NeverCommits(run, c)
    requires ClaimOf(After(After(START, before), run), c) == Failed
    ensures var s := After(START, before);
      && Feasible(s, Erased(run, c))
      && var t, u := After(s, run), After(s, Erased(run, c));
         && u.rows == t.rows && u.log == t.log && u.rowLocks == t.rowLocks && u.refLocks == t.refLocks && u.workers == t.workers
         && (forall d :: d != c ==> ClaimOf(u, d) == ClaimOf(t, d))
  {
    var s := After(START, before);
    LocksStayInUse(START, before);
    NoLocksLeft(s, c);
    UncommittedIsInvisible(s, s, run, c);
    LocksStayInUse(s, run);
    NoLocksLeft(After(s, run), c);
  }
}
