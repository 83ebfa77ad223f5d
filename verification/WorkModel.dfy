/**
 The work scheduler as a transition system.

 Any number of scheduler instances share one table of works and one locker. Every atomic
 statement of `ClaimDueWorks`, `AcquireWork`, `DoWork`, `UpdateWorkNextTime`, `PostWork` and
 `RemoveWork` is one `Action`; a run is any interleaving of enabled actions. Transactions take
 row locks that last until commit or abort and publish their writes at commit. The lock of a
 reference id is exclusive and does not expire.
 */
module WorkModel {

  /** The immutable part of a work: its primary key and the reference it stands for. */
  datatype Work = Work(id: string, refType: string, refId: string)

  /** The mutable part of a work's row. */
  datatype Row = Row(nextTime: int, nextTimeSet: bool)

  /** Holder of a row lock: a claim transaction or the final transaction of a worker. */
  datatype Owner = ByClaim(c: nat) | ByWorker(w: nat)

  /** Committed changes and run starts, in the order in which they take effect. */
  datatype Event =
    | Created(work: Work, row: Row)
    | Claimed(work: Work, who: nat, now: int, hold: int)
    | Explicit(work: Work, next: int)
    | Removed(work: Work)
    | FlagReset(work: Work, who: nat)
    | RunStarted(work: Work, who: nat)
    | Deleted(work: Work, who: nat)
    | Rescheduled(work: Work, who: nat, next: int)

  /** Progress of one call of `ClaimDueWorks`. */
  datatype Claim =
    | NoClaim
    | Started(now: int, hold: int, limit: int)
    | Holding(now: int, hold: int, limit: int, todo: seq<Work>, ids: seq<Work>)
    | Relisted(now: int, hold: int, limit: int, ids: seq<Work>, works: seq<(Work, Row)>)
    | Returned(now: int, hold: int, works: seq<(Work, Row)>)
    | Failed

  /** Progress of one call of `DoWork` on a copy of a work. */
  datatype Phase =
    | Idle
    | Wanting(work: Work)
    | Locked(work: Work)
    | Probed(work: Work)
    | Armed(work: Work, resetAt: nat)
    | Running(work: Work, resetAt: nat)
    | Ran(work: Work, resetAt: nat, done: bool, next: int)
    | Finishing(work: Work, resetAt: nat, done: bool, next: int, found: bool)
    | Releasing(work: Work)

  datatype State = State(
    rows: map<Work, Row>,
    rowLocks: map<Work, Owner>,
    refLocks: map<string, nat>,
    claims: map<nat, Claim>,
    workers: map<nat, Phase>,
    log: seq<Event>)

  datatype Action =
    // statements outside the two transactions
    | Post(work: Work, row: Row)
    | Remove(work: Work)
    | SetNext(work: Work, next: int)
    // ClaimDueWorks
    | ClaimStart(c: nat, now: int, hold: int, limit: int)
    | ClaimList(c: nat, due: seq<Work>)
    | ClaimNext(c: nat)
    | ClaimRelist(c: nat, works: seq<(Work, Row)>)
    | ClaimCommit(c: nat)
    | ClaimAbort(c: nat)
    // DoWork
    | Take(w: nat, work: Work)
    | Acquire(w: nat)
    | GiveUp(w: nat)
    | Probe(w: nat)
    | ResetNext(w: nat)
    | AcquireFails(w: nat)
    | StartRun(w: nat)
    | EndRun(w: nat, done: bool, next: int)
    | FinishRead(w: nat)
    | FinishCommit(w: nat)
    | FinishAbort(w: nat)
    | Release(w: nat)
    | ReleaseFails(w: nat)

  const START := State(map[], map[], map[], map[], map[], [])

  function ClaimOf(s: State, c: nat): Claim {
    if c in s.claims then s.claims[c] else NoClaim
  }

  function PhaseOf(s: State, w: nat): Phase {
    if w in s.workers then s.workers[w] else Idle
  }

  /** The key under which the locker holds a work (`LockObject`). */
  function LockKey(work: Work): string {
    "work_lock" + "_" + work.refId
  }

  function HeldRow(now: int, hold: int): Row {
    Row(now + hold, false)
  }

  predicate NoDuplicates<T(==)>(s: seq<T>) {
    forall i, j :: 0 <= i < j < |s| ==> s[i] != s[j]
  }

  /** Primary key and unique index on the reference: an insert that meets either is dropped. */
  predicate NoConflict(rows: map<Work, Row>, work: Work) {
    forall r :: r in rows ==> r.id != work.id && !(r.refType == work.refType && r.refId == work.refId)
  }

  /** The unlocked listing: due rows, oldest first, at most `limit` of them. */
  predicate IsDueList(rows: map<Work, Row>, now: int, limit: int, due: seq<Work>) {
    && NoDuplicates(due)
    && |due| <= limit
    && (forall k :: 0 <= k < |due| ==> due[k] in rows && rows[due[k]].nextTime <= now)
    && (forall j, k :: 0 <= j < k < |due| ==> due[j] in rows && due[k] in rows && rows[due[j]].nextTime <= rows[due[k]].nextTime)
    && (forall r :: r in rows && rows[r].nextTime <= now && r !in due ==>
          |due| == limit && forall k :: 0 <= k < |due| ==> due[k] in rows && rows[due[k]].nextTime <= rows[r].nextTime)
  }

  predicate InTransaction(claim: Claim) {
    claim.Holding? || claim.Relisted?
  }

  function Firsts(works: seq<(Work, Row)>): (r: seq<Work>)
    ensures |r| == |works| && forall k :: 0 <= k < |r| ==> r[k] == works[k].0
  {
    seq(|works|, k requires 0 <= k < |works| => works[k].0)
  }

  /** The table with the updates of a claim transaction that has leased `ids`. */
  function WithLeases(rows: map<Work, Row>, ids: seq<Work>, held: Row): map<Work, Row> {
    map work | work in rows :: if work in ids then held else rows[work]
  }

  predicate HasId(ids: seq<Work>, id: string) {
    exists k :: 0 <= k < |ids| && ids[k].id == id
  }

  /** The second listing of the transaction: all rows whose id is one of those leased, each once, in any order. */
  predicate IsRelisting(view: map<Work, Row>, ids: seq<Work>, works: seq<(Work, Row)>) {
    && NoDuplicates(Firsts(works))
    && (forall k :: 0 <= k < |works| ==>
          works[k].0 in view && works[k].1 == view[works[k].0] && HasId(ids, works[k].0.id))
    && (forall work :: work in view && HasId(ids, work.id) ==> work in Firsts(works))
  }

  predicate FreeFor(s: State, work: Work, owner: Owner) {
    work in s.rowLocks ==> s.rowLocks[work] == owner
  }

  predicate Unlocked(s: State, work: Work) {
    work !in s.rowLocks
  }

  predicate Enabled(s: State, a: Action) {
    match a
    case Post(work, _) => NoConflict(s.rows, work)
    case Remove(work) => work in s.rows && Unlocked(s, work)
    case SetNext(work, _) => work in s.rows && Unlocked(s, work)
    case ClaimStart(c, _, _, limit) => !ClaimOf(s, c).Started? && !InTransaction(ClaimOf(s, c)) && limit > 0
    case ClaimList(c, due) =>
      ClaimOf(s, c).Started? && IsDueList(s.rows, ClaimOf(s, c).now, ClaimOf(s, c).limit, due)
    case ClaimNext(c) =>
      ClaimOf(s, c).Holding? && ClaimOf(s, c).todo != [] && FreeFor(s, ClaimOf(s, c).todo[0], ByClaim(c))
    case ClaimRelist(c, works) =>
      && ClaimOf(s, c).Holding? && ClaimOf(s, c).todo == [] && ClaimOf(s, c).ids != []
      && IsRelisting(WithLeases(s.rows, ClaimOf(s, c).ids, HeldRow(ClaimOf(s, c).now, ClaimOf(s, c).hold)), ClaimOf(s, c).ids, works)
    case ClaimCommit(c) =>
      ClaimOf(s, c).Relisted? || (ClaimOf(s, c).Holding? && ClaimOf(s, c).todo == [] && ClaimOf(s, c).ids == [])
    case ClaimAbort(c) => ClaimOf(s, c).Started? || InTransaction(ClaimOf(s, c))
    case Take(w, _) => PhaseOf(s, w).Idle?
    case Acquire(w) => PhaseOf(s, w).Wanting? && LockKey(PhaseOf(s, w).work) !in s.refLocks
    case GiveUp(w) => PhaseOf(s, w).Wanting?
    case Probe(w) => PhaseOf(s, w).Locked?
    case ResetNext(w) => PhaseOf(s, w).Probed? && Unlocked(s, PhaseOf(s, w).work)
    case AcquireFails(w) => PhaseOf(s, w).Locked? || PhaseOf(s, w).Probed?
    case StartRun(w) => PhaseOf(s, w).Armed?
    case EndRun(w, _, _) => PhaseOf(s, w).Running?
    case FinishRead(w) => PhaseOf(s, w).Ran? && Unlocked(s, PhaseOf(s, w).work)
    case FinishCommit(w) => PhaseOf(s, w).Finishing?
    case FinishAbort(w) => PhaseOf(s, w).Ran? || PhaseOf(s, w).Finishing?
    case Release(w) => PhaseOf(s, w).Releasing?
    case ReleaseFails(w) => PhaseOf(s, w).Releasing?
  }

  function WithoutLocksOf(locks: map<Work, Owner>, owner: Owner): (r: map<Work, Owner>)
  {
    map k | k in locks && locks[k] != owner :: locks[k]
  }

  function ClaimEvents(c: nat, now: int, hold: int, ids: seq<Work>): (r: seq<Event>)
    ensures |r| == |ids|
    ensures forall k :: 0 <= k < |ids| ==> r[k] == Claimed(ids[k], c, now, hold)
  {
    seq(|ids|, k requires 0 <= k < |ids| => Claimed(ids[k], c, now, hold))
  }

  /** Re-read a row under its lock; lease it if it is still due. */
  function DoClaimNext(s: State, c: nat): State
    requires Enabled(s, ClaimNext(c))
  {
    var claim := ClaimOf(s, c);
    var work := claim.todo[0];
    if work !in s.rows then
      s.(claims := s.claims[c := claim.(todo := claim.todo[1..])])
    else if s.rows[work].nextTime > claim.now then
      s.(claims := s.claims[c := claim.(todo := claim.todo[1..])], rowLocks := s.rowLocks[work := ByClaim(c)])
    else
      s.(claims := s.claims[c := claim.(todo := claim.todo[1..], ids := claim.ids + [work])],
         rowLocks := s.rowLocks[work := ByClaim(c)])
  }

  /** The leases take effect; what the second listing gave is returned (nothing, if nothing was leased). */
  function DoClaimCommit(s: State, c: nat): State
    requires Enabled(s, ClaimCommit(c))
  {
    var claim := ClaimOf(s, c);
    s.(rows := WithLeases(s.rows, claim.ids, HeldRow(claim.now, claim.hold)),
       rowLocks := WithoutLocksOf(s.rowLocks, ByClaim(c)),
       claims := s.claims[c := Returned(claim.now, claim.hold, if claim.Relisted? then claim.works else [])],
       log := s.log + ClaimEvents(c, claim.now, claim.hold, claim.ids))
  }

  /** The second transaction of `DoWork`: delete, reschedule, or keep an explicit next time. */
  function DoFinishCommit(s: State, w: nat): State
    requires Enabled(s, FinishCommit(w))
  {
    var p := PhaseOf(s, w);
    var t := s.(rowLocks := WithoutLocksOf(s.rowLocks, ByWorker(w)), workers := s.workers[w := Releasing(p.work)]);
    if !p.found || p.work !in s.rows then t
    else if p.done then
      t.(rows := s.rows - {p.work}, log := s.log + [Deleted(p.work, w)])
    else if s.rows[p.work].nextTimeSet then t
    else
      t.(rows := s.rows[p.work := Row(p.next, true)], log := s.log + [Rescheduled(p.work, w, p.next)])
  }

  function Apply(s: State, a: Action): State
    requires Enabled(s, a)
  {
    match a
    case Post(work, row) => s.(rows := s.rows[work := row], log := s.log + [Created(work, row)])
    case Remove(work) => s.(rows := s.rows - {work}, log := s.log + [Removed(work)])
    case SetNext(work, next) => s.(rows := s.rows[work := Row(next, true)], log := s.log + [Explicit(work, next)])
    case ClaimStart(c, now, hold, limit) => s.(claims := s.claims[c := Started(now, hold, limit)])
    case ClaimList(c, due) =>
      s.(claims := s.claims[c := Holding(ClaimOf(s, c).now, ClaimOf(s, c).hold, ClaimOf(s, c).limit, due, [])])
    case ClaimNext(c) => DoClaimNext(s, c)
    case ClaimRelist(c, works) =>
      var claim := ClaimOf(s, c);
      s.(claims := s.claims[c := Relisted(claim.now, claim.hold, claim.limit, claim.ids, works)])
    case ClaimCommit(c) => DoClaimCommit(s, c)
    case ClaimAbort(c) =>
      s.(claims := s.claims[c := Failed], rowLocks := WithoutLocksOf(s.rowLocks, ByClaim(c)))
    case Take(w, work) => s.(workers := s.workers[w := Wanting(work)])
    case Acquire(w) =>
      var work := PhaseOf(s, w).work;
      s.(workers := s.workers[w := Locked(work)], refLocks := s.refLocks[LockKey(work) := w])
    case GiveUp(w) => s.(workers := s.workers[w := Idle])
    case Probe(w) =>
      var work := PhaseOf(s, w).work;
      s.(workers := s.workers[w := if work in s.rows then Probed(work) else Releasing(work)])
    case ResetNext(w) =>
      var work := PhaseOf(s, w).work;
      s.(rows := if work in s.rows then s.rows[work := s.rows[work].(nextTimeSet := false)] else s.rows,
         workers := s.workers[w := Armed(work, |s.log|)],
         log := s.log + [FlagReset(work, w)])
    case AcquireFails(w) => s.(workers := s.workers[w := Releasing(PhaseOf(s, w).work)])
    case StartRun(w) =>
      var p := PhaseOf(s, w);
      s.(workers := s.workers[w := Running(p.work, p.resetAt)], log := s.log + [RunStarted(p.work, w)])
    case EndRun(w, done, next) =>
      var p := PhaseOf(s, w);
      s.(workers := s.workers[w := Ran(p.work, p.resetAt, done, next)])
    case FinishRead(w) =>
      var p := PhaseOf(s, w);
      var found := p.work in s.rows;
      s.(workers := s.workers[w := Finishing(p.work, p.resetAt, p.done, p.next, found)],
         rowLocks := if found then s.rowLocks[p.work := ByWorker(w)] else s.rowLocks)
    case FinishCommit(w) => DoFinishCommit(s, w)
    case FinishAbort(w) =>
      s.(workers := s.workers[w := Releasing(PhaseOf(s, w).work)],
         rowLocks := WithoutLocksOf(s.rowLocks, ByWorker(w)))
    case Release(w) =>
      s.(workers := s.workers[w := Idle], refLocks := s.refLocks - {LockKey(PhaseOf(s, w).work)})
    case ReleaseFails(w) => s.(workers := s.workers[w := Idle])
  }

  /** A run: every action is enabled where it is taken. */
  predicate Feasible(s: State, run: seq<Action>)
    decreases |run|
  {
    run == [] || (Enabled(s, run[0]) && Feasible(Apply(s, run[0]), run[1..]))
  }

  function After(s: State, run: seq<Action>): State
    requires Feasible(s, run)
    decreases |run|
  {
    if run == [] then s else After(Apply(s, run[0]), run[1..])
  }
}
