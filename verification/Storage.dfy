/**
 The storage code over the shared file system: between any two system calls every other call may
 take any number of steps (`OthersMove`).
 */
module Storage {
  import opened Wrappers
  import opened UploadModel
  import opened UploadTheorems
  import ByteRange
  import Int64

  datatype Call = UploadCall(u: nat) | FinalizeCall(f: nat) | ReaderCall(r: nat) | Outside

  function Mover(a: Action): Call {
    if IsUploadAction(a) then UploadCall(a.u)
    else if IsFinalizeAction(a) then FinalizeCall(a.f)
    else if IsReaderAction(a) then ReaderCall(a.r)
    else Outside
  }

  ghost predicate Reached(plan: Plan, s: State) {
    exists run :: Feasible(plan, START, run) && s == After(plan, START, run)
  }

  lemma {:induction false} FeasibleAppend(plan: Plan, s: State, run: seq<Action>, a: Action)
    requires Feasible(plan, s, run) && Enabled(plan, After(plan, s, run), a)
    ensures Feasible(plan, s, run + [a]) && After(plan, s, run + [a]) == Apply(plan, After(plan, s, run), a)
    decreases |run|
  {
    if run == [] {
      assert run + [a] == [a];
      assert [a][1..] == [];
    } else {
      assert (run + [a])[0] == run[0] && (run + [a])[1..] == run[1..] + [a];
      FeasibleAppend(plan, Apply(plan, s, run[0]), run[1..], a);
    }
  }

  lemma ReachedStep(plan: Plan, s: State, a: Action)
    requires Reached(plan, s) && Enabled(plan, s, a)
    ensures Reached(plan, Apply(plan, s, a))
  {
    var run :| Feasible(plan, START, run) && s == After(plan, START, run);
    FeasibleAppend(plan, START, run, a);
  }

  lemma ReachedInv(plan: Plan, s: State)
    requires Reached(plan, s)
    ensures Inv(plan, s)
  {
    var run :| Feasible(plan, START, run) && s == After(plan, START, run);
    RunKeepsInv(plan, START, run);
  }

  // ----- interference -----

  /** What interference leaves to a call: its own progress, the part it writes, and whatever has been published. */
  ghost predicate KeepsView(s: State, t: State, me: Call) {
    && Keeps(s, t)
    && match me
       case UploadCall(u) =>
         u in s.uploads && u in t.uploads && t.uploads[u] == s.uploads[u] && Content(t, OfUpload(u)) == Content(s, OfUpload(u))
       case FinalizeCall(f) => f in s.finalizations && f in t.finalizations && t.finalizations[f] == s.finalizations[f]
       case ReaderCall(r) => r in s.readers && r in t.readers && t.readers[r] == s.readers[r]
       case Outside => true
  }

  lemma ForeignActionKeepsView(plan: Plan, s: State, a: Action, me: Call)
    requires Enabled(plan, s, a) && Mover(a) != me && KeepsView(s, s, me)
    ensures KeepsView(s, Apply(plan, s, a), me)
  {
    StepKeeps(plan, s, a);
  }

  lemma ViewTransitive(s: State, t: State, u: State, me: Call)
    requires KeepsView(s, t, me) && KeepsView(t, u, me)
    ensures KeepsView(s, u, me)
  {
    KeepsTransitive(s, t, u);
  }

  // ----- temporary entries that do not come back -----

  /** No action can link `path` to `file` any more, should the link be gone. */
  ghost predicate Settled(s: State, path: Path, file: File) {
    IsTemp(path) && file.OfUpload? && file.u in s.uploads && (path.Part? ==> s.uploads[file.u].Uploaded?)
  }

  ghost predicate Dead(s: State, path: Path, file: File) {
    Settled(s, path, file) && !(path in s.files && s.files[path] == file)
  }

  ghost predicate KeepsDead(s: State, t: State) {
    forall path, file {:trigger Settled(t, path, file)} {:trigger Dead(t, path, file)} ::
      Settled(s, path, file) ==> Settled(t, path, file) && (Dead(s, path, file) ==> Dead(t, path, file))
  }

  lemma StepKeepsDead(plan: Plan, s: State, a: Action)
    requires Inv(plan, s) && Enabled(plan, s, a)
    ensures KeepsDead(s, Apply(plan, s, a))
  {
    var t := Apply(plan, s, a);
    forall path, file | Settled(s, path, file) ensures Settled(t, path, file) && (Dead(s, path, file) ==> Dead(t, path, file)) {
      if a.UploadRename? {
        var scratch := PartScratch(s.uploads[a.u].index, a.u);
        if scratch in s.files { assert LinkOk(s, scratch); }
      }
    }
  }

  // ----- the source of a part -----

  /**
   An `io.Reader` that delivers `data`. It may return its last byte together with EOF
   (`eofWithLast`) or report EOF only afterwards, and the one-byte read after the part may return
   nothing and no error (`stalls`); `io.Reader` allows all of these.
   */
  datatype Source = Source(data: Bytes, eofWithLast: bool, stalls: bool)

  datatype ReadError = NoError | EOF

  /** What a one-byte read returns when `pos` bytes have been consumed: byte count and error. */
  function ReadOne(source: Source, pos: nat): (nat, ReadError)
    requires pos <= |source.data|
  {
    if source.stalls then (0, NoError)
    else if pos == |source.data| then (0, EOF)
    else if pos + 1 == |source.data| && source.eofWithLast then (1, EOF)
    else (1, NoError)
  }

  /** Exactly the sources that pass for a part of `length` bytes. */
  predicate PassesAs(source: Source, length: nat) {
    && !source.stalls
    && (|source.data| == length || (|source.data| == length + 1 && source.eofWithLast))
  }

  /** The check after the copy looks at the error alone: one byte too many passes when EOF comes with it. */
  lemma CheckPassesExactly(source: Source, length: nat)
    requires length <= |source.data|
    ensures ReadOne(source, length).1 == EOF <==> PassesAs(source, length)
    ensures ReadOne(source, length).1 == EOF ==> |source.data| == length + ReadOne(source, length).0
  {
  }

  /** How `UploadPart` may end; `SystemError` is a failed system call, read or rename. */
  datatype UploadOutcome = Published | TooShort | TooLong | SystemError

  class FileSystem {
    const plan: Plan
    var st: State

    constructor (plan: Plan)
      ensures Reached(plan, st) && st == START && this.plan == plan
    {
      this.plan := plan;
      st := START;
      new;
      assert After(plan, START, []) == START;
    }

    method Do(a: Action)
      requires Reached(plan, st) && Enabled(plan, st, a)
      modifies this
      ensures Reached(plan, st) && st == Apply(plan, old(st), a)
    {
      ReachedStep(plan, st, a);
      st := Apply(plan, st, a);
    }

    /** Any number of steps of the other calls, readers and clean-ups. */
    method OthersMove(me: Call)
      requires Reached(plan, st) && KeepsView(st, st, me)
      modifies this
      ensures Reached(plan, st) && KeepsView(old(st), st, me) && KeepsDead(old(st), st)
    {
      var n: nat := *;
      while n > 0
        invariant Reached(plan, st) && KeepsView(old(st), st, me) && KeepsDead(old(st), st)
      {
        var a: Action := *;
        if Enabled(plan, st, a) && Mover(a) != me {
          ghost var before := st;
          ReachedInv(plan, st);
          StepKeepsDead(plan, st, a);
          ForeignActionKeepsView(plan, st, a, me);
          Do(a);
          ViewTransitive(old(st), before, st, me);
        }
        n := n - 1;
      }
    }

    /**
     `UploadPart` of one part. Unless a system call fails it publishes the part if and only if the
     source passes: it is as long as the part, or one byte longer with that byte arriving together
     with EOF. The published version is the first `Needed` bytes in either case. A failed upload
     has published nothing of its own; either way no scratch file is left.
     */
    method UploadPart(u: nat, index: int, source: Source) returns (r: UploadOutcome)
      requires Reached(plan, st) && u !in st.uploads
      modifies this
      ensures Reached(plan, st) && old(st).published <= st.published
      ensures u in st.uploads && if r == Published then st.uploads[u].Uploaded? else st.uploads[u].UploadFailed?
      ensures r != SystemError ==> (r == Published <==> PassesAs(source, Needed(plan, index)))
      ensures r == Published ==>
        PassesAs(source, Needed(plan, index)) && (index, source.data[..Needed(plan, index)]) in st.published
      ensures r == TooShort ==> |source.data| < Needed(plan, index)
      ensures r == TooLong ==> |source.data| > Needed(plan, index) || source.stalls
      ensures PartScratch(index, u) !in st.files
    {
      Do(UploadBegin(u, index));
      OthersMove(UploadCall(u));
      var complete := CopySource(u, index, source.data);
      if !complete {
        Do(UploadFail(u));
        return SystemError;
      }
      if |source.data| < Needed(plan, index) {
        Do(UploadFail(u));
        return TooShort;
      }
      var readFails: bool := *;
      if readFails {
        Do(UploadFail(u));
        return SystemError;
      }
      CheckPassesExactly(source, Needed(plan, index));
      var (_, error) := ReadOne(source, Needed(plan, index));
      if error == NoError {
        Do(UploadFail(u));
        return TooLong;
      }
      Do(UploadCheck(u));
      OthersMove(UploadCall(u));
      var renamed := RenamePart(u, index);
      r := if renamed then Published else SystemError;
    }

    /** `io.CopyN` of at most the part's length in chunks of any size; a read or write error ends it early. */
    method CopySource(u: nat, index: int, source: Bytes) returns (complete: bool)
      requires Reached(plan, st) && u in st.uploads && st.uploads[u] == Writing(index) && Content(st, OfUpload(u)) == []
      modifies this
      ensures Reached(plan, st) && old(st).published <= st.published
      ensures u in st.uploads && st.uploads[u] == Writing(index)
      ensures complete && |source| >= Needed(plan, index) ==> Content(st, OfUpload(u)) == source[..Needed(plan, index)]
    {
      var limit := if |source| < Needed(plan, index) then |source| else Needed(plan, index);
      var i := 0;
      while i < limit
        invariant 0 <= i <= limit && Reached(plan, st) && old(st).published <= st.published
        invariant u in st.uploads && st.uploads[u] == Writing(index) && Content(st, OfUpload(u)) == source[..i]
      {
        var k: int := *;
        if k < 1 || i + k > limit { return false; }
        WriteChunk(u, source[i..i + k]);
        assert source[..i] + source[i..i + k] == source[..i + k];
        i := i + k;
      }
      complete := true;
    }

    method WriteChunk(u: nat, chunk: Bytes)
      requires Reached(plan, st) && Enabled(plan, st, UploadWrite(u, chunk))
      modifies this
      ensures Reached(plan, st) && old(st).published <= st.published && u in st.uploads && st.uploads[u] == old(st).uploads[u]
      ensures Content(st, OfUpload(u)) == Content(old(st), OfUpload(u)) + chunk
    {
      Do(UploadWrite(u, chunk));
      OthersMove(UploadCall(u));
    }

    method RenamePart(u: nat, index: int) returns (ok: bool)
      requires Reached(plan, st) && u in st.uploads && st.uploads[u] == Checked(index)
      modifies this
      ensures Reached(plan, st) && old(st).published <= st.published
      ensures u in st.uploads && if ok then st.uploads[u].Uploaded? else st.uploads[u].UploadFailed?
      ensures ok ==> (index, Content(old(st), OfUpload(u))) in st.published
      ensures PartScratch(index, u) !in st.files
    {
      ReachedInv(plan, st);
      ok := PartScratch(index, u) in st.files;
      if ok { assert LinkOk(st, PartScratch(index, u)); }
      Do(UploadRename(u));
    }

    /**
     `FinalizeUpload`: on success it has renamed into place (in the state `renamed`) a file that is the
     concatenation of `parts`, one published version of every part, and that nobody ever writes again;
     and of the temporary entries of that moment none is left.
     */
    method FinalizeUpload(f: nat) returns (ok: bool, ghost parts: seq<Bytes>, ghost renamed: State)
      requires Reached(plan, st) && f !in st.finalizations
      modifies this
      ensures Reached(plan, st) && old(st).published <= st.published
      ensures ok ==>
        && |parts| == Count(plan) && AllPublished(st, parts)
        && Reached(plan, renamed) && Final in renamed.files && renamed.files[Final] == OfFinalization(f)
        && IsFinal(st, OfFinalization(f)) && Content(st, OfFinalization(f)) == Concat(parts)
      ensures ok ==> forall path :: IsTemp(path) && path in renamed.files ==> Dead(st, path, renamed.files[path])
      ensures FinalScratch(f) !in (if ok then renamed else st).files
    {
      renamed := st;
      Do(FinalizeBegin(f));
      var copied := CopyParts(f);
      if !copied {
        Do(FinalizeFail(f));
        return false, [], renamed;
      }
      Do(FinalizeClose(f));
      OthersMove(FinalizeCall(f));
      ok, parts := RenameFinal(f);
      renamed := st;
      if ok {
        RemoveTemps(f);
        assert IsFinal(renamed, OfFinalization(f));
      }
    }

    /** The loop over the parts; a missing part or a failed copy ends it. */
    method CopyParts(f: nat) returns (ok: bool)
      requires Reached(plan, st) && f in st.finalizations && st.finalizations[f] == Between([])
      modifies this
      ensures Reached(plan, st) && old(st).published <= st.published && FinalizationActive(st, f)
      ensures ok ==> Enabled(plan, st, FinalizeClose(f))
    {
      for i := 0 to Count(plan)
        invariant Reached(plan, st) && old(st).published <= st.published
        invariant f in st.finalizations && st.finalizations[f].Between? && |st.finalizations[f].parts| == i
      {
        OthersMove(FinalizeCall(f));
        if Part(i) !in st.files {
          return false;
        }
        var copied := CopyPart(f);
        if !copied {
          return false;
        }
      }
      OthersMove(FinalizeCall(f));
      ok := true;
    }

    /** `RemoveAll` on the directory of temporary files: its entries one after the other, errors ignored. */
    method RemoveTemps(f: nat)
      requires Reached(plan, st) && f in st.finalizations
      modifies this
      ensures Reached(plan, st) && KeepsView(old(st), st, FinalizeCall(f))
      ensures forall path :: IsTemp(path) && path in old(st).files ==> Dead(st, path, old(st).files[path])
    {
      var left := set path | path in st.files && IsTemp(path);
      LinkedIsSettled(plan, st);
      while left != {}
        invariant Reached(plan, st) && KeepsView(old(st), st, FinalizeCall(f))
        invariant forall path :: path in left ==> path in old(st).files && Settled(st, path, old(st).files[path])
        invariant forall path :: IsTemp(path) && path in old(st).files && path !in left ==> Dead(st, path, old(st).files[path])
        decreases left
      {
        var path :| path in left;
        RemoveEntry(f, path);
        left := left - {path};
      }
    }

    method RemoveEntry(f: nat, path: Path)
      requires Reached(plan, st) && f in st.finalizations && IsTemp(path)
      modifies this
      ensures Reached(plan, st) && KeepsView(old(st), st, FinalizeCall(f)) && KeepsDead(old(st), st)
      ensures forall file :: Settled(old(st), path, file) ==> Dead(st, path, file)
    {
      ReachedInv(plan, st);
      StepKeepsDead(plan, st, CleanTemp(path));
      ForeignActionKeepsView(plan, st, CleanTemp(path), FinalizeCall(f));
      Do(CleanTemp(path));
      ghost var removed := st;
      assert forall file :: Settled(old(st), path, file) ==> Dead(removed, path, file);
      OthersMove(FinalizeCall(f));
      ViewTransitive(old(st), removed, st, FinalizeCall(f));
    }

    /** Open the next part and copy it in chunks to its end; an error ends it early. */
    method CopyPart(f: nat) returns (ok: bool)
      requires Reached(plan, st) && Enabled(plan, st, FinalizeOpen(f))
      modifies this
      ensures Reached(plan, st) && old(st).published <= st.published && f in st.finalizations
      ensures if ok then
          st.finalizations[f].Between? && |st.finalizations[f].parts| == |old(st).finalizations[f].parts| + 1
        else st.finalizations[f].Copying?
    {
      ReachedInv(plan, st);
      ghost var n := |st.finalizations[f].parts|;
      ghost var src := st.files[Part(n)];
      assert LinkOk(st, Part(n));
      Do(FinalizeOpen(f));
      var size := |Content(st, st.finalizations[f].src)|;
      while st.finalizations[f].pos < size
        invariant Reached(plan, st) && old(st).published <= st.published && f in st.finalizations
        invariant st.finalizations[f].Copying? && |st.finalizations[f].parts| == n && st.finalizations[f].src == src
        invariant IsPart(st, src, n) && |Content(st, src)| == size && st.finalizations[f].pos <= size
        decreases size - st.finalizations[f].pos
      {
        var k: int := *;
        if k < 1 || st.finalizations[f].pos + k > size { return false; }
        CopyChunk(f, k, n);
      }
      Do(FinalizeNext(f));
      ok := true;
    }

    method CopyChunk(f: nat, k: nat, ghost n: nat)
      requires Reached(plan, st) && Enabled(plan, st, FinalizeCopy(f, k)) && IsPart(st, st.finalizations[f].src, n)
      modifies this
      ensures Reached(plan, st) && old(st).published <= st.published && f in st.finalizations
      ensures st.finalizations[f] == old(st).finalizations[f].(pos := old(st).finalizations[f].pos + k)
      ensures IsPart(st, st.finalizations[f].src, n) && Content(st, st.finalizations[f].src) == Content(old(st), st.finalizations[f].src)
    {
      ghost var src, before := st.finalizations[f].src, st;
      StepKeeps(plan, st, FinalizeCopy(f, k));
      Do(FinalizeCopy(f, k));
      ghost var copied := st;
      OthersMove(FinalizeCall(f));
      KeepsTransitive(before, copied, st);
      assert IsPart(st, src, n);
    }

    method RenameFinal(f: nat) returns (ok: bool, ghost parts: seq<Bytes>)
      requires Reached(plan, st) && f in st.finalizations && st.finalizations[f].Closed?
      modifies this
      ensures Reached(plan, st) && st.published == old(st).published && f in st.finalizations
      ensures ok ==>
        && |parts| == Count(plan) && AllPublished(st, parts) && IsFinal(st, OfFinalization(f))
        && Final in st.files && st.files[Final] == OfFinalization(f) && Content(st, OfFinalization(f)) == Concat(parts)
      ensures FinalScratch(f) !in st.files
    {
      ReachedInv(plan, st);
      assert FinalizationOk(plan, st, f);
      parts := st.finalizations[f].parts;
      ok := FinalScratch(f) in st.files;
      if ok { assert LinkOk(st, FinalScratch(f)); }
      Do(FinalizeRename(f));
    }

    /**
     `Fetch` and `FetchRange` read to the end: while others finalize, replace, clean up and delete, the
     reader gets exactly its slice of the complete publication that was in place when it opened. A
     missing file and a negative offset are errors.
     */
    method Fetch(r: nat, offset: int, limit: Option<int>) returns (ok: bool, got: Bytes)
      requires Reached(plan, st) && r !in st.readers
      modifies this
      ensures Reached(plan, st)
      ensures ok ==>
        && Final in old(st).files && 0 <= offset
        && var content := Content(old(st), old(st).files[Final]);
           && IsPublication(plan, old(st), content)
           && |got| == BytesToGet(|content|, offset, limit)
           && forall k :: 0 <= k < |got| ==> offset + k < |content| && got[k] == content[offset + k]
      ensures Final !in old(st).files || offset < 0 ==> !ok && st == old(st)
    {
      if Final !in st.files || offset < 0 {
        return false, [];
      }
      ok, got := FetchFrom(r, offset, AtLeastZero(limit));
    }

    /** A range that `ParseRange` accepts for the size of the published file is fetched exactly. */
    method FetchAccepted(r: nat, header: string, size: nat) returns (ok: bool, got: Bytes)
      requires Reached(plan, st) && r !in st.readers && size <= Int64.MAX
      requires Final in st.files ==> |Content(st, st.files[Final])| == size
      modifies this
      ensures Reached(plan, st)
      ensures ok ==>
        && Final in old(st).files && ByteRange.ParseRange(header, size).Ok?
        && var content := Content(old(st), old(st).files[Final]);
           var (offset, length) := ByteRange.ParseRange(header, size).value;
           0 <= offset && 0 < length && offset + length <= |content| && got == content[offset..offset + length]
      ensures ByteRange.ParseRange(header, size).Err? || Final !in old(st).files ==> !ok && st == old(st)
    {
      var range := ByteRange.ParseRange(header, size);
      if range.Err? {
        return false, [];
      }
      var (offset, length) := range.value;
      ByteRange.AcceptedRangeIsInside(header, size);
      ok, got := Fetch(r, offset, Some(length));
    }

    method FetchFrom(r: nat, offset: nat, limit: Option<nat>) returns (ok: bool, got: Bytes)
      requires Reached(plan, st) && r !in st.readers && Final in st.files
      modifies this
      ensures Reached(plan, st)
      ensures ok ==>
        var content := Content(old(st), old(st).files[Final]);
        IsPublication(plan, old(st), content) && |got| == Available(|content|, offset, limit) && IsPieceAt(got, content, offset)
    {
      ghost var file, content := st.files[Final], Content(st, st.files[Final]);
      ReachedInv(plan, st);
      assert LinkOk(st, Final);
      FinalIsPublication(plan, st, file);
      Do(ReaderOpen(r, offset, limit));
      assert IsFinal(st, file);
      ghost var w := Window(content, offset, limit);
      WindowIsPiece(content, offset, limit);
      var done := false;
      while !done
        invariant Reached(plan, st) && r in st.readers && IsFinal(st, file) && Content(st, file) == content
        invariant st.readers[r] == Reader(file, offset, limit, st.readers[r].got) && st.readers[r].got <= w
        invariant done ==> st.readers[r].got == w
        decreases |w| - |st.readers[r].got|, if done then 0 else 1
      {
        var k: int := *;
        var left := |ReaderWindow(st, st.readers[r])| - |st.readers[r].got|;
        if left == 0 {
          done := true;
        } else if k < 1 || k > left {
          return false, st.readers[r].got;
        } else {
          ReadChunk(r, k, file);
        }
      }
      ok, got := true, st.readers[r].got;
    }

    method ReadChunk(r: nat, k: nat, ghost file: File)
      requires Reached(plan, st) && Enabled(plan, st, ReaderRead(r, k)) && IsFinal(st, file) && st.readers[r].file == file
      modifies this
      ensures Reached(plan, st) && IsFinal(st, file) && Content(st, file) == Content(old(st), file) && r in st.readers
      ensures var before := old(st).readers[r];
        && st.readers[r] == before.(got := st.readers[r].got) && |st.readers[r].got| == |before.got| + k
        && st.readers[r].got <= ReaderWindow(st, st.readers[r])
    {
      StepKeeps(plan, st, ReaderRead(r, k));
      Do(ReaderRead(r, k));
      assert IsFinal(st, file);
      OthersMove(ReaderCall(r));
      assert IsFinal(st, file);
      ReachedInv(plan, st);
      assert ReaderOk(st, r);
    }
  }

  /** The length of a complete read: to the end of the file, or up to a limit; a negative limit is as good as 0. */
  function BytesToGet(size: nat, offset: nat, limit: Option<int>): (n: nat)
    ensures offset + n <= size || n == 0
    ensures limit.Some? && 0 <= limit.value && offset + limit.value <= size ==> n == limit.value
    ensures limit.None? && offset <= size ==> n == size - offset
    ensures limit.Some? ==> n <= if limit.value < 0 then 0 else limit.value
  {
    Available(size, offset, AtLeastZero(limit))
  }

  /** A reader limited to a negative length reads nothing. */
  function AtLeastZero(limit: Option<int>): Option<nat> {
    match limit
    case None => None
    case Some(n) => Some(if n < 0 then 0 else n)
  }

  /** A temporary entry, once removed, does not come back for the same file. */
  lemma LinkedIsSettled(plan: Plan, s: State)
    requires Reached(plan, s)
    ensures forall path :: IsTemp(path) && path in s.files ==> Settled(s, path, s.files[path])
  {
    ReachedInv(plan, s);
    forall path | IsTemp(path) && path in s.files ensures Settled(s, path, s.files[path]) {
      assert LinkOk(s, path);
    }
  }
}
