/**
 Publication of one file. The file system has directory entries that link paths to files, contents of
 files, and atomic rename; an open file can be written and read whether or not it is still linked.
 Every system call of `UploadPart`, `FinalizeUpload` and `Fetch` is one action, and any number of
 uploads, finalizations, readers and clean-ups interleave. Scratch names are fresh: they carry the
 random id of the call that made them.
 */
module UploadModel {
  import opened Wrappers
  import opened FileParts
  import ByteRange

  newtype Byte = b: int | 0 <= b < 256

  type Bytes = seq<Byte>

  datatype Path = Part(index: int) | PartScratch(index: int, call: nat) | Final | FinalScratch(call: nat)

  /** A file, whatever its name: each call creates one. */
  datatype File = OfUpload(u: nat) | OfFinalization(f: nat)

  /** The declared file: uploaded as numbered parts, or as a whole without an index. */
  datatype Plan = Plan(size: int, uploadPartSize: int, defaultPartLength: int, indexed: bool)

  function PartLength(plan: Plan, index: int): int {
    UploadPartLength(plan.size, plan.uploadPartSize, plan.defaultPartLength, if plan.indexed then Some(index) else None)
  }

  /** Bytes that a copy of `PartLength` bytes writes: a negative length copies nothing. */
  function Needed(plan: Plan, index: int): nat {
    if PartLength(plan, index) < 0 then 0 else PartLength(plan, index)
  }

  /** The number of parts a finalization goes over. */
  function Count(plan: Plan): nat {
    if !plan.indexed then 1
    else
      var n := PartCount(plan.size, plan.uploadPartSize, plan.defaultPartLength);
      if n < 0 then 0 else n
  }

  datatype Upload =
    | Writing(index: int)
    | Checked(index: int)
    | Uploaded(index: int)
    | UploadFailed

  /** `parts` are the versions copied so far; `src` is the open part, copied up to `pos`. */
  datatype Finalization =
    | Between(parts: seq<Bytes>)
    | Copying(parts: seq<Bytes>, src: File, pos: nat)
    | Closed(parts: seq<Bytes>)
    | Renamed(parts: seq<Bytes>)
    | FinalizeFailed

  /** An open `Fetch` or `FetchRange`: the file, the offset, the length limit if any, and what was read. */
  datatype Reader = Reader(file: File, offset: nat, limit: Option<nat>, got: Bytes)

  datatype State = State(
    files: map<Path, File>,
    data: map<File, Bytes>,
    uploads: map<nat, Upload>,
    finalizations: map<nat, Finalization>,
    readers: map<nat, Reader>,
    published: set<(int, Bytes)>)

  datatype Action =
    | UploadBegin(u: nat, index: int)
    | UploadWrite(u: nat, chunk: Bytes)
    | UploadCheck(u: nat)
    | UploadRename(u: nat)
    | UploadFail(u: nat)
    | FinalizeBegin(f: nat)
    | FinalizeOpen(f: nat)
    | FinalizeCopy(f: nat, count: nat)
    | FinalizeNext(f: nat)
    | FinalizeClose(f: nat)
    | FinalizeRename(f: nat)
    | FinalizeFail(f: nat)
    | ReaderOpen(r: nat, offset: nat, limit: Option<nat>)
    | ReaderRead(r: nat, count: nat)
    | CleanTemp(path: Path)
    | DeleteFile

  const START := State(map[], map[], map[], map[], map[], {})

  predicate IsTemp(path: Path) {
    path.Part? || path.PartScratch?
  }

  /** The contents of a file. */
  function Content(s: State, file: File): Bytes {
    if file in s.data then s.data[file] else []
  }

  predicate UploadActive(s: State, u: nat) {
    u in s.uploads && (s.uploads[u].Writing? || s.uploads[u].Checked?)
  }

  predicate FinalizationActive(s: State, f: nat) {
    f in s.finalizations && (s.finalizations[f].Between? || s.finalizations[f].Copying? || s.finalizations[f].Closed?)
  }

  /** What a reader with this offset and limit gets to see of a file. */
  function Window(content: Bytes, offset: nat, limit: Option<nat>): Bytes {
    match limit
    case Some(length) => ByteRange.FetchRange(content, offset, length)
    case None => if offset <= |content| then content[offset..] else []
  }

  function ReaderWindow(s: State, reader: Reader): Bytes {
    Window(Content(s, reader.file), reader.offset, reader.limit)
  }

  predicate Enabled(plan: Plan, s: State, a: Action) {
    match a
    case UploadBegin(u, _) => u !in s.uploads
    case UploadWrite(u, chunk) =>
      u in s.uploads && s.uploads[u].Writing? && |Content(s, OfUpload(u))| + |chunk| <= Needed(plan, s.uploads[u].index)
    case UploadCheck(u) =>
      u in s.uploads && s.uploads[u].Writing? && |Content(s, OfUpload(u))| == Needed(plan, s.uploads[u].index)
    case UploadRename(u) => u in s.uploads && s.uploads[u].Checked?
    case UploadFail(u) => UploadActive(s, u)
    case FinalizeBegin(f) => f !in s.finalizations
    case FinalizeOpen(f) =>
      f in s.finalizations && s.finalizations[f].Between? && |s.finalizations[f].parts| < Count(plan)
      && Part(|s.finalizations[f].parts|) in s.files
    case FinalizeCopy(f, count) =>
      f in s.finalizations && s.finalizations[f].Copying?
      && s.finalizations[f].pos + count <= |Content(s, s.finalizations[f].src)|
    case FinalizeNext(f) =>
      f in s.finalizations && s.finalizations[f].Copying? && s.finalizations[f].pos == |Content(s, s.finalizations[f].src)|
    case FinalizeClose(f) =>
      f in s.finalizations && s.finalizations[f].Between? && |s.finalizations[f].parts| == Count(plan)
    case FinalizeRename(f) => f in s.finalizations && s.finalizations[f].Closed?
    case FinalizeFail(f) => FinalizationActive(s, f)
    case ReaderOpen(r, _, _) => r !in s.readers && Final in s.files
    case ReaderRead(r, count) => r in s.readers && |s.readers[r].got| + count <= |ReaderWindow(s, s.readers[r])|
    case CleanTemp(path) => IsTemp(path)
    case DeleteFile => true
  }

  /** Write at the end of an open file. */
  function Append(data: map<File, Bytes>, file: File, chunk: Bytes): map<File, Bytes> {
    data[file := (if file in data then data[file] else []) + chunk]
  }

  function DoUploadRename(s: State, u: nat): State
    requires u in s.uploads && s.uploads[u].Checked?
  {
    var index := s.uploads[u].index;
    var scratch := PartScratch(index, u);
    if scratch in s.files then
      s.(files := s.files[Part(index) := s.files[scratch]] - {scratch},
         uploads := s.uploads[u := Uploaded(index)],
         published := s.published + {(index, Content(s, s.files[scratch]))})
    else
      s.(uploads := s.uploads[u := UploadFailed])
  }

  function DoFinalizeRename(s: State, f: nat): State
    requires f in s.finalizations && s.finalizations[f].Closed?
  {
    var scratch := FinalScratch(f);
    if scratch in s.files then
      s.(files := s.files[Final := s.files[scratch]] - {scratch},
         finalizations := s.finalizations[f := Renamed(s.finalizations[f].parts)])
    else
      s.(finalizations := s.finalizations[f := FinalizeFailed])
  }

  function Apply(plan: Plan, s: State, a: Action): State
    requires Enabled(plan, s, a)
  {
    match a
    case UploadBegin(u, index) =>
      s.(files := s.files[PartScratch(index, u) := OfUpload(u)],
         data := s.data[OfUpload(u) := []],
         uploads := s.uploads[u := Writing(index)])
    case UploadWrite(u, chunk) => s.(data := Append(s.data, OfUpload(u), chunk))
    case UploadCheck(u) => s.(uploads := s.uploads[u := Checked(s.uploads[u].index)])
    case UploadRename(u) => DoUploadRename(s, u)
    case UploadFail(u) =>
      s.(files := s.files - {PartScratch(s.uploads[u].index, u)}, uploads := s.uploads[u := UploadFailed])
    case FinalizeBegin(f) =>
      s.(files := s.files[FinalScratch(f) := OfFinalization(f)],
         data := s.data[OfFinalization(f) := []],
         finalizations := s.finalizations[f := Between([])])
    case FinalizeOpen(f) =>
      var parts := s.finalizations[f].parts;
      s.(finalizations := s.finalizations[f := Copying(parts, s.files[Part(|parts|)], 0)])
    case FinalizeCopy(f, count) =>
      var p := s.finalizations[f];
      s.(data := Append(s.data, OfFinalization(f), Content(s, p.src)[p.pos..p.pos + count]),
         finalizations := s.finalizations[f := p.(pos := p.pos + count)])
    case FinalizeNext(f) =>
      s.(finalizations := s.finalizations[f := Between(s.finalizations[f].parts + [Content(s, s.finalizations[f].src)])])
    case FinalizeClose(f) => s.(finalizations := s.finalizations[f := Closed(s.finalizations[f].parts)])
    case FinalizeRename(f) => DoFinalizeRename(s, f)
    case FinalizeFail(f) =>
      s.(files := s.files - {FinalScratch(f)}, finalizations := s.finalizations[f := FinalizeFailed])
    case ReaderOpen(r, offset, limit) => s.(readers := s.readers[r := Reader(s.files[Final], offset, limit, [])])
    case ReaderRead(r, count) =>
      var reader := s.readers[r];
      var n := |reader.got|;
      s.(readers := s.readers[r := reader.(got := reader.got + ReaderWindow(s, reader)[n..n + count])])
    case CleanTemp(path) => s.(files := s.files - {path})
    case DeleteFile => s.(files := s.files - {Final})
  }

  predicate Feasible(plan: Plan, s: State, run: seq<Action>)
    decreases |run|
  {
    run == [] || (Enabled(plan, s, run[0]) && Feasible(plan, Apply(plan, s, run[0]), run[1..]))
  }

  function After(plan: Plan, s: State, run: seq<Action>): State
    requires Feasible(plan, s, run)
    decreases |run|
  {
    if run == [] then s else After(plan, Apply(plan, s, run[0]), run[1..])
  }

  // ----- invariant -----

  function Concat(parts: seq<Bytes>): Bytes {
    if parts == [] then [] else Concat(parts[..|parts| - 1]) + parts[|parts| - 1]
  }

  /** Each listed version was published for its own index. */
  ghost predicate AllPublished(s: State, parts: seq<Bytes>) {
    forall k :: 0 <= k < |parts| ==> (k, parts[k]) in s.published
  }

  /** One published version of every part, in order. */
  ghost predicate IsComplete(plan: Plan, s: State, content: Bytes) {
    exists parts :: |parts| == Count(plan) && AllPublished(s, parts) && content == Concat(parts)
  }

  /** `file` was published as part `i`. */
  ghost predicate IsPart(s: State, file: File, i: int) {
    file.OfUpload? && file.u in s.uploads && s.uploads[file.u] == Uploaded(i)
  }

  /** `file` was renamed into the final path. */
  ghost predicate IsFinal(s: State, file: File) {
    file.OfFinalization? && file.f in s.finalizations && s.finalizations[file.f].Renamed?
  }

  ghost predicate UploadOk(plan: Plan, s: State, u: nat)
    requires u in s.uploads
  {
    var p := s.uploads[u];
    && (p.Checked? || p.Uploaded? ==> |Content(s, OfUpload(u))| == Needed(plan, p.index))
    && (p.Uploaded? ==> (p.index, Content(s, OfUpload(u))) in s.published)
  }

  /** What a finalization has written so far. */
  ghost function Written(s: State, p: Finalization): Bytes
    requires !p.FinalizeFailed? && (p.Copying? ==> p.pos <= |Content(s, p.src)|)
  {
    if p.Copying? then Concat(p.parts) + Content(s, p.src)[..p.pos] else Concat(p.parts)
  }

  ghost predicate FinalizationOk(plan: Plan, s: State, f: nat)
    requires f in s.finalizations
  {
    var p := s.finalizations[f];
    !p.FinalizeFailed? ==>
      && AllPublished(s, p.parts)
      && (p.Copying? ==> p.pos <= |Content(s, p.src)| && IsPart(s, p.src, |p.parts|) && |p.parts| < Count(plan))
      && (p.Closed? || p.Renamed? ==> |p.parts| == Count(plan))
      && Content(s, OfFinalization(f)) == Written(s, p)
  }

  /** A reader has an initial piece of its window on a file that once was at the final path. */
  ghost predicate ReaderOk(s: State, r: nat)
    requires r in s.readers
  {
    IsFinal(s, s.readers[r].file) && s.readers[r].got <= ReaderWindow(s, s.readers[r])
  }

  /** What the names stand for. */
  ghost predicate LinkOk(s: State, path: Path)
    requires path in s.files
  {
    match path
    case Part(i) => IsPart(s, s.files[path], i)
    case PartScratch(_, u) => s.files[path] == OfUpload(u) && u in s.uploads
    case Final => IsFinal(s, s.files[path])
    case FinalScratch(f) => s.files[path] == OfFinalization(f)
  }

  ghost predicate LengthsOk(plan: Plan, s: State) {
    forall i, v :: (i, v) in s.published ==> |v| == Needed(plan, i)
  }

  ghost predicate Inv(plan: Plan, s: State) {
    && LengthsOk(plan, s)
    && (forall path {:trigger LinkOk(s, path)} :: path in s.files ==> LinkOk(s, path))
    && (forall u {:trigger UploadOk(plan, s, u)} :: u in s.uploads ==> UploadOk(plan, s, u))
    && (forall f {:trigger FinalizationOk(plan, s, f)} :: f in s.finalizations ==> FinalizationOk(plan, s, f))
    && (forall r {:trigger ReaderOk(s, r)} :: r in s.readers ==> ReaderOk(s, r))
  }

  // ----- what no action undoes -----

  /** Published versions accumulate, and a file that was published, as a part or as the whole, is never written again. */
  ghost predicate Keeps(s: State, t: State) {
    && s.published <= t.published
    && (forall file, i :: IsPart(s, file, i) ==> IsPart(t, file, i) && Content(t, file) == Content(s, file))
    && (forall file :: IsFinal(s, file) ==> IsFinal(t, file) && Content(t, file) == Content(s, file))
  }

  lemma StepKeeps(plan: Plan, s: State, a: Action)
    requires Enabled(plan, s, a)
    ensures Keeps(s, Apply(plan, s, a))
  {
    if IsUploadAction(a) { UploadActionKeeps(plan, s, a); }
    else if IsFinalizeAction(a) { FinalizeActionKeeps(plan, s, a); }
    else { QuietActionFrame(plan, s, a); }
  }

  lemma UploadActionKeeps(plan: Plan, s: State, a: Action)
    requires Enabled(plan, s, a) && IsUploadAction(a)
    ensures Keeps(s, Apply(plan, s, a))
  {
    UploadActionFrame(plan, s, a);
    assert a.u in s.uploads ==> !s.uploads[a.u].Uploaded?;
  }

  lemma FinalizeActionKeeps(plan: Plan, s: State, a: Action)
    requires Enabled(plan, s, a) && IsFinalizeAction(a)
    ensures Keeps(s, Apply(plan, s, a))
  {
    FinalizeActionFrame(plan, s, a);
    assert a.f in s.finalizations ==> !s.finalizations[a.f].Renamed?;
  }

  /** Readers and clean-ups write no file. */
  lemma QuietActionFrame(plan: Plan, s: State, a: Action)
    requires Enabled(plan, s, a) && (IsReaderAction(a) || a.CleanTemp? || a.DeleteFile?)
    ensures var t := Apply(plan, s, a);
      t.uploads == s.uploads && t.finalizations == s.finalizations && t.data == s.data && t.published == s.published
  {
  }

  lemma CompleteStays(plan: Plan, s: State, t: State, content: Bytes)
    requires IsComplete(plan, s, content) && s.published <= t.published
    ensures IsComplete(plan, t, content)
  {
    var parts :| |parts| == Count(plan) && AllPublished(s, parts) && content == Concat(parts);
    assert AllPublished(t, parts);
  }

  predicate IsUploadAction(a: Action) {
    a.UploadBegin? || a.UploadWrite? || a.UploadCheck? || a.UploadRename? || a.UploadFail?
  }

  predicate IsFinalizeAction(a: Action) {
    a.FinalizeBegin? || a.FinalizeOpen? || a.FinalizeCopy? || a.FinalizeNext? || a.FinalizeClose? || a.FinalizeRename? || a.FinalizeFail?
  }

  predicate IsReaderAction(a: Action) {
    a.ReaderOpen? || a.ReaderRead?
  }

  // ----- frames: what keeps the view of a call that does not move -----

  lemma UploadFrame(plan: Plan, s: State, t: State, u: nat)
    requires u in s.uploads && u in t.uploads && t.uploads[u] == s.uploads[u] && UploadOk(plan, s, u)
    requires Content(t, OfUpload(u)) == Content(s, OfUpload(u)) && s.published <= t.published
    ensures UploadOk(plan, t, u)
  {
  }

  lemma FinalizationFrame(plan: Plan, s: State, t: State, f: nat)
    requires f in s.finalizations && f in t.finalizations && t.finalizations[f] == s.finalizations[f] && FinalizationOk(plan, s, f)
    requires Keeps(s, t) && Content(t, OfFinalization(f)) == Content(s, OfFinalization(f))
    ensures FinalizationOk(plan, t, f)
  {
    var p := s.finalizations[f];
    if p.Copying? { assert IsPart(t, p.src, |p.parts|); }
  }

  lemma ReaderFrame(s: State, t: State, r: nat)
    requires r in s.readers && r in t.readers && t.readers[r] == s.readers[r] && ReaderOk(s, r) && Keeps(s, t)
    ensures ReaderOk(t, r)
  {
    assert IsFinal(t, s.readers[r].file);
  }

  /** A name that still stands for the same file. */
  lemma LinkFrame(s: State, t: State, path: Path)
    requires path in s.files && path in t.files && t.files[path] == s.files[path] && LinkOk(s, path)
    requires Keeps(s, t) && s.uploads.Keys <= t.uploads.Keys
    ensures LinkOk(t, path)
  {
    match path
    case Part(i) => assert IsPart(t, s.files[path], i);
    case Final => assert IsFinal(t, s.files[path]);
    case _ =>
  }

  // ----- preservation -----

  lemma UploadActionKeepsLinks(plan: Plan, s: State, a: Action, path: Path)
    requires Inv(plan, s) && Enabled(plan, s, a) && IsUploadAction(a) && path in Apply(plan, s, a).files
    ensures LinkOk(Apply(plan, s, a), path)
  {
    var t := Apply(plan, s, a);
    StepKeeps(plan, s, a);
    if a.UploadRename? && PartScratch(s.uploads[a.u].index, a.u) in s.files && path == Part(s.uploads[a.u].index) {
      assert LinkOk(s, PartScratch(s.uploads[a.u].index, a.u));
    } else if !(a.UploadBegin? && path == PartScratch(a.index, a.u)) {
      assert LinkOk(s, path);
      LinkFrame(s, t, path);
    }
  }

  lemma UploadActionKeepsOwn(plan: Plan, s: State, a: Action)
    requires Inv(plan, s) && Enabled(plan, s, a) && IsUploadAction(a)
    ensures a.u in Apply(plan, s, a).uploads && UploadOk(plan, Apply(plan, s, a), a.u) && LengthsOk(plan, Apply(plan, s, a))
  {
    if !a.UploadBegin? { assert UploadOk(plan, s, a.u); }
    if a.UploadRename? {
      var scratch := PartScratch(s.uploads[a.u].index, a.u);
      if scratch in s.files { assert LinkOk(s, scratch); }
    }
  }

  lemma UploadActionFrame(plan: Plan, s: State, a: Action)
    requires Enabled(plan, s, a) && IsUploadAction(a)
    ensures var t := Apply(plan, s, a);
      && t.finalizations == s.finalizations && t.readers == s.readers && t.uploads.Keys == s.uploads.Keys + {a.u}
      && s.published <= t.published
      && (forall file :: file != OfUpload(a.u) ==> Content(t, file) == Content(s, file))
      && (forall u :: u in s.uploads && u != a.u ==> t.uploads[u] == s.uploads[u])
  {
  }

  lemma UploadActionKeepsInv(plan: Plan, s: State, a: Action)
    requires Inv(plan, s) && Enabled(plan, s, a) && IsUploadAction(a)
    ensures Inv(plan, Apply(plan, s, a))
  {
    var t := Apply(plan, s, a);
    StepKeeps(plan, s, a);
    UploadActionFrame(plan, s, a);
    UploadActionKeepsOwn(plan, s, a);
    forall path | path in t.files ensures LinkOk(t, path) { UploadActionKeepsLinks(plan, s, a, path); }
    forall u | u in t.uploads ensures UploadOk(plan, t, u) {
      if u != a.u { UploadFrame(plan, s, t, u); }
    }
    forall f | f in t.finalizations ensures FinalizationOk(plan, t, f) { FinalizationFrame(plan, s, t, f); }
    forall r | r in t.readers ensures ReaderOk(t, r) { ReaderFrame(s, t, r); }
  }

  lemma CopyKeepsOwn(plan: Plan, s: State, f: nat, count: nat)
    requires Enabled(plan, s, FinalizeCopy(f, count)) && FinalizationOk(plan, s, f)
    ensures FinalizationOk(plan, Apply(plan, s, FinalizeCopy(f, count)), f)
  {
    var p := s.finalizations[f];
    var src := Content(s, p.src);
    assert Content(Apply(plan, s, FinalizeCopy(f, count)), p.src) == src;
    assert src[..p.pos] + src[p.pos..p.pos + count] == src[..p.pos + count];
    assert Concat(p.parts) + src[..p.pos] + src[p.pos..p.pos + count] == Concat(p.parts) + src[..p.pos + count];
  }

  lemma NextKeepsOwn(plan: Plan, s: State, f: nat)
    requires Enabled(plan, s, FinalizeNext(f)) && FinalizationOk(plan, s, f)
    requires IsPart(s, s.finalizations[f].src, |s.finalizations[f].parts|) ==>
      (|s.finalizations[f].parts|, Content(s, s.finalizations[f].src)) in s.published
    ensures FinalizationOk(plan, Apply(plan, s, FinalizeNext(f)), f)
  {
    var p := s.finalizations[f];
    var src := Content(s, p.src);
    assert (p.parts + [src])[..|p.parts|] == p.parts;
    assert src[..p.pos] == src;
  }

  lemma FinalizeActionKeepsOwn(plan: Plan, s: State, a: Action)
    requires Inv(plan, s) && Enabled(plan, s, a) && IsFinalizeAction(a)
    ensures a.f in Apply(plan, s, a).finalizations && FinalizationOk(plan, Apply(plan, s, a), a.f)
  {
    if !a.FinalizeBegin? {
      assert FinalizationOk(plan, s, a.f);
      var p := s.finalizations[a.f];
      if a.FinalizeCopy? {
        CopyKeepsOwn(plan, s, a.f, a.count);
      } else if a.FinalizeNext? {
        assert UploadOk(plan, s, p.src.u);
        NextKeepsOwn(plan, s, a.f);
      } else if a.FinalizeOpen? {
        assert LinkOk(s, Part(|p.parts|));
        assert Content(s, s.files[Part(|p.parts|)])[..0] == [];
      }
    }
  }

  lemma FinalizeActionKeepsLinks(plan: Plan, s: State, a: Action, path: Path)
    requires Inv(plan, s) && Enabled(plan, s, a) && IsFinalizeAction(a) && path in Apply(plan, s, a).files
    ensures LinkOk(Apply(plan, s, a), path)
  {
    var t := Apply(plan, s, a);
    StepKeeps(plan, s, a);
    if a.FinalizeRename? && FinalScratch(a.f) in s.files && path == Final {
      assert LinkOk(s, FinalScratch(a.f));
    } else if !(a.FinalizeBegin? && path == FinalScratch(a.f)) {
      assert LinkOk(s, path);
      LinkFrame(s, t, path);
    }
  }

  lemma FinalizeActionFrame(plan: Plan, s: State, a: Action)
    requires Enabled(plan, s, a) && IsFinalizeAction(a)
    ensures var t := Apply(plan, s, a);
      && t.uploads == s.uploads && t.readers == s.readers && t.published == s.published
      && t.finalizations.Keys == s.finalizations.Keys + {a.f}
      && (forall file :: file != OfFinalization(a.f) ==> Content(t, file) == Content(s, file))
      && (forall f :: f in s.finalizations && f != a.f ==> t.finalizations[f] == s.finalizations[f])
  {
  }

  lemma FinalizeActionKeepsInv(plan: Plan, s: State, a: Action)
    requires Inv(plan, s) && Enabled(plan, s, a) && IsFinalizeAction(a)
    ensures Inv(plan, Apply(plan, s, a))
  {
    var t := Apply(plan, s, a);
    StepKeeps(plan, s, a);
    FinalizeActionFrame(plan, s, a);
    FinalizeActionKeepsOwn(plan, s, a);
    forall path | path in t.files ensures LinkOk(t, path) { FinalizeActionKeepsLinks(plan, s, a, path); }
    forall u | u in t.uploads ensures UploadOk(plan, t, u) { UploadFrame(plan, s, t, u); }
    forall f | f in t.finalizations ensures FinalizationOk(plan, t, f) {
      if f != a.f { FinalizationFrame(plan, s, t, f); }
    }
    forall r | r in t.readers ensures ReaderOk(t, r) { ReaderFrame(s, t, r); }
  }

  lemma QuietActionKeepsInv(plan: Plan, s: State, a: Action)
    requires Inv(plan, s) && Enabled(plan, s, a) && (IsReaderAction(a) || a.CleanTemp? || a.DeleteFile?)
    ensures Inv(plan, Apply(plan, s, a))
  {
    var t := Apply(plan, s, a);
    StepKeeps(plan, s, a);
    QuietActionFrame(plan, s, a);
    forall path | path in t.files ensures LinkOk(t, path) {
      assert LinkOk(s, path);
      LinkFrame(s, t, path);
    }
    forall u | u in t.uploads ensures UploadOk(plan, t, u) { UploadFrame(plan, s, t, u); }
    forall f | f in t.finalizations ensures FinalizationOk(plan, t, f) { FinalizationFrame(plan, s, t, f); }
    forall r | r in t.readers ensures ReaderOk(t, r) {
      if IsReaderAction(a) && r == a.r { ReaderActionKeepsOwn(plan, s, a); } else { ReaderFrame(s, t, r); }
    }
  }

  lemma ReaderActionKeepsOwn(plan: Plan, s: State, a: Action)
    requires Inv(plan, s) && Enabled(plan, s, a) && IsReaderAction(a)
    ensures a.r in Apply(plan, s, a).readers && ReaderOk(Apply(plan, s, a), a.r)
  {
    if a.ReaderOpen? {
      assert LinkOk(s, Final);
    } else {
      assert ReaderOk(s, a.r);
      var got, w := s.readers[a.r].got, ReaderWindow(s, s.readers[a.r]);
      assert got + w[|got|..|got| + a.count] == w[..|got| + a.count];
    }
  }

  lemma StepKeepsInv(plan: Plan, s: State, a: Action)
    requires Inv(plan, s) && Enabled(plan, s, a)
    ensures Inv(plan, Apply(plan, s, a))
  {
    if IsUploadAction(a) { UploadActionKeepsInv(plan, s, a); }
    else if IsFinalizeAction(a) { FinalizeActionKeepsInv(plan, s, a); }
    else { QuietActionKeepsInv(plan, s, a); }
  }

  lemma {:induction false} RunKeepsInv(plan: Plan, s: State, run: seq<Action>)
    requires Inv(plan, s) && Feasible(plan, s, run)
    ensures Inv(plan, After(plan, s, run))
    decreases |run|
  {
    if run != [] {
      StepKeepsInv(plan, s, run[0]);
      RunKeepsInv(plan, Apply(plan, s, run[0]), run[1..]);
    }
  }

  lemma KeepsTransitive(s: State, t: State, u: State)
    requires Keeps(s, t) && Keeps(t, u)
    ensures Keeps(s, u)
  {
    forall file, i | IsPart(s, file, i) ensures IsPart(u, file, i) && Content(u, file) == Content(s, file) {
      assert IsPart(t, file, i);
    }
    forall file | IsFinal(s, file) ensures IsFinal(u, file) && Content(u, file) == Content(s, file) {
      assert IsFinal(t, file);
    }
  }
}
