/** What publication promises, to the one who finalizes and to the one who reads. */
module UploadTheorems {
  import opened Wrappers
  import opened FileParts
  import opened UploadModel
  import Int64

  /** Where the declared size and the part size fit 64-bit arithmetic, or the file is uploaded whole. */
  predicate InBounds(plan: Plan) {
    if plan.indexed then
      && 0 < plan.size && 0 < EffectivePartSize(plan.uploadPartSize, plan.defaultPartLength)
      && plan.size + EffectivePartSize(plan.uploadPartSize, plan.defaultPartLength) - 1 <= Int64.MAX
    else 0 <= plan.size
  }

  lemma PartsArePositive(plan: Plan, n: nat)
    requires plan.indexed && InBounds(plan) && n < Count(plan)
    ensures Needed(plan, n) == FilePartLength(plan.size, EffectivePartSize(plan.uploadPartSize, plan.defaultPartLength), Some(n))
  {
    PartsTileTheFile(plan.size, plan.uploadPartSize, plan.defaultPartLength);
    assert UploadPartLength(plan.size, plan.uploadPartSize, plan.defaultPartLength, Some(n)) > 0;
  }

  function Sum(length: nat -> int, n: nat): int {
    if n == 0 then 0 else Sum(length, n - 1) + length(n - 1)
  }

  lemma {:induction false} ConcatLength(parts: seq<Bytes>, length: nat -> int)
    requires forall k :: 0 <= k < |parts| ==> |parts[k]| == length(k)
    ensures |Concat(parts)| == Sum(length, |parts|)
  {
    if parts != [] { ConcatLength(parts[..|parts| - 1], length); }
  }

  lemma {:induction false} TotalIsSum(size: int, maxPartSize: int, n: nat)
    ensures TotalLength(size, maxPartSize, n) == Sum((k: nat) => FilePartLength(size, maxPartSize, Some(k)), n)
  {
    if n > 0 { TotalIsSum(size, maxPartSize, n - 1); }
  }

  /** A complete list of published parts is as long as the declared file. */
  lemma CompleteLength(plan: Plan, s: State, parts: seq<Bytes>)
    requires plan.indexed && InBounds(plan) && LengthsOk(plan, s) && AllPublished(s, parts) && |parts| == Count(plan)
    ensures |Concat(parts)| == plan.size
  {
    var p := EffectivePartSize(plan.uploadPartSize, plan.defaultPartLength);
    forall k | 0 <= k < |parts| ensures |parts[k]| == FilePartLength(plan.size, p, Some(k)) {
      assert (k, parts[k]) in s.published;
      PartsArePositive(plan, k);
    }
    ConcatLength(parts, (k: nat) => FilePartLength(plan.size, p, Some(k)));
    TotalIsSum(plan.size, p, |parts|);
    PartsTileTheFile(plan.size, plan.uploadPartSize, plan.defaultPartLength);
  }

  /** Size and part size are numbers that int64 fields can hold. */
  predicate NumbersFit(plan: Plan) {
    plan.indexed ==> Int64.Fits(plan.size) && Int64.Fits(EffectivePartSize(plan.uploadPartSize, plan.defaultPartLength))
  }

  /** The length of a complete file: the declared size, or nothing where the part count is not positive. */
  lemma CompleteLengthExact(plan: Plan, s: State, parts: seq<Bytes>)
    requires NumbersFit(plan) && LengthsOk(plan, s) && AllPublished(s, parts) && |parts| == Count(plan)
    ensures |Concat(parts)| == if InBounds(plan) then plan.size else 0
  {
    if !plan.indexed {
      assert parts[..0] == [] && Concat(parts[..0]) == [];
      assert Concat(parts) == parts[0];
      assert (0, parts[0]) in s.published;
    } else if InBounds(plan) {
      CompleteLength(plan, s, parts);
    } else if 0 < plan.size && 0 < EffectivePartSize(plan.uploadPartSize, plan.defaultPartLength) {
      CountOverflows(plan.size, plan.uploadPartSize, plan.defaultPartLength);
    }
  }

  /**
   Upload publication, for every interleaving of succeeding and failing uploads, finalizations,
   readers, clean-ups and deletions: a published part has its computed length, and the final path is
   absent or holds one published version of every part in order. It totals the declared size if and
   only if the numbers are within bounds or the declared size is 0; otherwise it is empty.
   */
  lemma UploadPublication(plan: Plan, run: seq<Action>)
    requires Feasible(plan, START, run)
    ensures var s := After(plan, START, run);
      && (forall i :: Part(i) in s.files ==>
            var v := Content(s, s.files[Part(i)]); |v| == Needed(plan, i) && (i, v) in s.published)
      && (Final in s.files ==> IsPublication(plan, s, Content(s, s.files[Final])))
  {
    var s := After(plan, START, run);
    RunKeepsInv(plan, START, run);
    forall i | Part(i) in s.files ensures (i, Content(s, s.files[Part(i)])) in s.published {
      assert LinkOk(s, Part(i));
      assert UploadOk(plan, s, s.files[Part(i)].u);
    }
    if Final in s.files {
      assert LinkOk(s, Final);
      FinalIsPublication(plan, s, s.files[Final]);
    }
  }

  /** A complete file, with its exact length. */
  ghost predicate IsPublication(plan: Plan, s: State, content: Bytes) {
    && IsComplete(plan, s, content)
    && (NumbersFit(plan) ==>
          && (|content| == plan.size <==> InBounds(plan) || plan.size == 0)
          && (!InBounds(plan) ==> content == []))
  }

  lemma FinalIsPublication(plan: Plan, s: State, file: File)
    requires Inv(plan, s) && IsFinal(s, file)
    ensures IsPublication(plan, s, Content(s, file))
  {
    assert FinalizationOk(plan, s, file.f);
    var parts := s.finalizations[file.f].parts;
    assert Content(s, file) == Concat(parts);
    if NumbersFit(plan) { CompleteLengthExact(plan, s, parts); }
  }

  // ----- readers -----

  lemma {:induction false} RunKeeps(plan: Plan, s: State, run: seq<Action>)
    requires Feasible(plan, s, run)
    ensures Keeps(s, After(plan, s, run))
    decreases |run|
  {
    if run != [] {
      var t := Apply(plan, s, run[0]);
      StepKeeps(plan, s, run[0]);
      RunKeeps(plan, t, run[1..]);
      KeepsTransitive(s, t, After(plan, t, run[1..]));
    }
  }

  /** A reader stays on the file, offset and limit it was opened with. */
  lemma {:induction false} ReaderStays(plan: Plan, s: State, run: seq<Action>, r: nat)
    requires Feasible(plan, s, run) && r in s.readers
    ensures var t := After(plan, s, run);
      r in t.readers && t.readers[r] == s.readers[r].(got := t.readers[r].got)
    decreases |run|
  {
    if run != [] { ReaderStays(plan, Apply(plan, s, run[0]), run[1..], r); }
  }

  /** `got` is what stands in `content` from `offset` on. */
  ghost predicate IsPieceAt(got: Bytes, content: Bytes, offset: nat) {
    got == [] || (offset + |got| <= |content| && got == content[offset..offset + |got|])
  }

  /** How many bytes a reader can get: up to the end of the file, and no more than its limit. */
  function Available(size: nat, offset: nat, limit: Option<nat>): nat {
    var rest := if offset <= size then size - offset else 0;
    match limit
    case None => rest
    case Some(n) => if n < rest then n else rest
  }

  lemma WindowIsPiece(content: Bytes, offset: nat, limit: Option<nat>)
    ensures |Window(content, offset, limit)| == Available(|content|, offset, limit)
    ensures IsPieceAt(Window(content, offset, limit), content, offset)
  {
  }

  lemma PrefixIsPiece(got: Bytes, w: Bytes, content: Bytes, offset: nat)
    requires IsPieceAt(w, content, offset) && got <= w
    ensures |got| <= |w| && IsPieceAt(got, content, offset)
  {
    assert got == w[..|got|];
  }

  /**
   What an open `Fetch` or `FetchRange` sees: from the moment it opens the final path, whatever is
   finalized, replaced, cleaned up or deleted meanwhile, what it has read are the bytes from its offset
   on of the one complete publication that it opened, never past its end or the limit.
   */
  lemma ReaderSeesOnePublication(plan: Plan, run: seq<Action>, r: nat, offset: nat, limit: Option<nat>, later: seq<Action>)
    requires Feasible(plan, START, run) && Enabled(plan, After(plan, START, run), ReaderOpen(r, offset, limit))
    requires Feasible(plan, Apply(plan, After(plan, START, run), ReaderOpen(r, offset, limit)), later)
    ensures var s := After(plan, START, run);
      var t := After(plan, Apply(plan, s, ReaderOpen(r, offset, limit)), later);
      var content := Content(s, s.files[Final]);
      && IsPublication(plan, s, content)
      && r in t.readers && IsPieceAt(t.readers[r].got, content, offset)
      && |t.readers[r].got| <= Available(|content|, offset, limit)
  {
    var s := After(plan, START, run);
    RunKeepsInv(plan, START, run);
    assert LinkOk(s, Final);
    FinalIsPublication(plan, s, s.files[Final]);
    var o := Apply(plan, s, ReaderOpen(r, offset, limit));
    StepKeepsInv(plan, s, ReaderOpen(r, offset, limit));
    RunKeepsInv(plan, o, later);
    RunKeeps(plan, o, later);
    ReaderStays(plan, o, later, r);
    assert IsFinal(o, s.files[Final]);
    assert ReaderOk(After(plan, o, later), r);
    WindowIsPiece(Content(s, s.files[Final]), offset, limit);
    PrefixIsPiece(After(plan, o, later).readers[r].got, Window(Content(s, s.files[Final]), offset, limit), Content(s, s.files[Final]), offset);
  }

  /** After a deletion nobody can open the file until a finalization has published it anew. */
  lemma DeletedStaysAbsent(plan: Plan, s: State, run: seq<Action>)
    requires Feasible(plan, Apply(plan, s, DeleteFile), run)
    requires forall k :: 0 <= k < |run| ==> !run[k].FinalizeRename?
    ensures Final !in After(plan, Apply(plan, s, DeleteFile), run).files
  {
    AbsentStaysAbsent(plan, Apply(plan, s, DeleteFile), run);
  }

  lemma {:induction false} AbsentStaysAbsent(plan: Plan, s: State, run: seq<Action>)
    requires Feasible(plan, s, run) && Final !in s.files && forall k :: 0 <= k < |run| ==> !run[k].FinalizeRename?
    ensures Final !in After(plan, s, run).files
    decreases |run|
  {
    if run != [] {
      assert !run[0].FinalizeRename?;
      forall k | 0 <= k < |run[1..]| ensures !run[1..][k].FinalizeRename? { assert run[1..][k] == run[k + 1]; }
      AbsentStaysAbsent(plan, Apply(plan, s, run[0]), run[1..]);
    }
  }
}
