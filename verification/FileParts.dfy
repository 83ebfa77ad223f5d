/** Sizes and number of the parts of an uploaded file. */
module FileParts {
  import opened Wrappers
  import opened Int64

  /** `FilePartLength`: without an index, the whole file. */
  function FilePartLength(totalSize: int, maxPartSize: int, partIndex: Option<int>): int {
    if partIndex.None? then totalSize
    else
      var start := Wrap(partIndex.value * maxPartSize);
      if start >= totalSize then 0
      else
        var remaining := Wrap(totalSize - start);
        if remaining > maxPartSize then maxPartSize else remaining
  }

  function EffectivePartSize(uploadPartSize: int, defaultPartLength: int): int {
    if uploadPartSize == 0 then defaultPartLength else uploadPartSize
  }

  /** `UploadPartLength`. */
  function UploadPartLength(size: int, uploadPartSize: int, defaultPartLength: int, partIndex: Option<int>): int {
    if partIndex.None? then size
    else FilePartLength(size, EffectivePartSize(uploadPartSize, defaultPartLength), partIndex)
  }

  /** `PartCount`. */
  function PartCount(size: int, uploadPartSize: int, defaultPartLength: int): int {
    var maxPartSize := EffectivePartSize(uploadPartSize, defaultPartLength);
    if size <= 0 || maxPartSize <= 0 then 0
    else Quotient(Wrap(size + maxPartSize - 1), maxPartSize)
  }

  /** Total length of the first `n` parts. */
  function TotalLength(size: int, maxPartSize: int, n: nat): int {
    if n == 0 then 0 else TotalLength(size, maxPartSize, n - 1) + FilePartLength(size, maxPartSize, Some(n - 1))
  }

  /** The bytes of `[start, start + maxPartSize)` that lie before the end of the file. */
  function BytesFrom(size: int, maxPartSize: int, start: int): int {
    if start >= size then 0
    else if start + maxPartSize <= size then maxPartSize
    else size - start
  }

  /**
   The length of a part, for every index: the bytes of the file from its wrapped start on. When the
   wrapped start is so far below zero that the remaining bytes overflow as well, the length is negative.
   */
  lemma PartLengthExact(size: int, maxPartSize: int, i: int)
    requires 0 < size <= MAX && 0 < maxPartSize <= MAX
    ensures var start := Wrap(i * maxPartSize);
      FilePartLength(size, maxPartSize, Some(i)) ==
      if size - start <= MAX then BytesFrom(size, maxPartSize, start) else size - start - MODULUS
    ensures size - Wrap(i * maxPartSize) > MAX ==> FilePartLength(size, maxPartSize, Some(i)) < 0
  {
    var start := Wrap(i * maxPartSize);
    RemainingExact(size, start);
  }

  /** The remaining bytes overflow only from a start below zero. */
  lemma RemainingExact(size: int, start: int)
    requires 0 < size <= MAX && Fits(start)
    ensures Wrap(size - start) == if size - start <= MAX then size - start else size - start - MODULUS
  {
  }

  /** A part is empty if and only if its wrapped start is at or past the end of the file. */
  lemma PartIsEmptyExactly(size: int, maxPartSize: int, i: int)
    requires 0 < size <= MAX && 0 < maxPartSize <= MAX
    ensures FilePartLength(size, maxPartSize, Some(i)) == 0 <==> Wrap(i * maxPartSize) >= size
  {
    PartLengthExact(size, maxPartSize, i);
  }

  /** An index past the count, or a negative one, whose part is not empty: the start wraps into the file or lies before it. */
  lemma LaterPartsMayHaveLength()
    ensures PartCount(10, 4, 4) == 3
    ensures FilePartLength(10, 4, Some(0x4000_0000_0000_0000)) == 4
    ensures FilePartLength(10, 4, Some(-1)) == 4
  {
    assert Wrap(0x4000_0000_0000_0000 * 4) == 0;
  }

  lemma MulStep(i: nat, p: int)
    ensures (i + 1) * p == i * p + p
  {
  }

  lemma MulMonotone(i: nat, j: nat, p: int)
    requires i <= j && 0 <= p
    ensures i * p <= j * p
  {
    assert (j - i) * p >= 0;
    assert j * p == i * p + (j - i) * p;
  }

  /** The count as a quotient rounded up. */
  lemma CountRoundsUp(size: int, maxPartSize: int, n: int)
    requires 0 < size && 0 < maxPartSize && size + maxPartSize - 1 <= MAX
    requires n == PartCount(size, maxPartSize, maxPartSize)
    ensures n >= 1 && (n - 1) * maxPartSize < size <= n * maxPartSize
  {
    var a := size + maxPartSize - 1;
    assert n == a / maxPartSize;
    assert a == maxPartSize * (a / maxPartSize) + a % maxPartSize;
    assert n * maxPartSize == maxPartSize * n;
    assert (n - 1) * maxPartSize == n * maxPartSize - maxPartSize;
    if n <= 0 { MulMonotoneNeg(n, maxPartSize); }
  }

  lemma MulMonotoneNeg(n: int, p: int)
    requires n <= 0 && 0 < p
    ensures n * p <= 0
  {
  }

  /** A part whose start does not overflow. */
  lemma PartFrom(size: int, maxPartSize: int, i: nat, start: int)
    requires 0 < size <= MAX && 0 < maxPartSize <= MAX && start == i * maxPartSize && 0 <= start <= MAX
    ensures FilePartLength(size, maxPartSize, Some(i)) == BytesFrom(size, maxPartSize, start)
  {
    PartLengthExact(size, maxPartSize, i);
  }

  /** The first `n` parts cover exactly the first `n * maxPartSize` bytes, up to the end of the file. */
  lemma {:induction false} TotalIsStart(size: int, maxPartSize: int, n: nat, end: int)
    requires 0 < size <= MAX && 0 < maxPartSize <= MAX
    requires end == n * maxPartSize && (n > 0 ==> end - maxPartSize < size)
    ensures TotalLength(size, maxPartSize, n) == if end <= size then end else size
  {
    if n > 0 {
      var start := end - maxPartSize;
      MulStep(n - 1, maxPartSize);
      MulMonotone(0, n - 1, maxPartSize);
      TotalIsStart(size, maxPartSize, n - 1, start);
      PartFrom(size, maxPartSize, n - 1, start);
    }
  }

  /** Part `i` of `n`, when the file ends in part `n - 1`. */
  lemma PartBelow(size: int, p: int, n: nat, i: nat)
    requires 0 < size <= MAX && 0 < p <= MAX && i < n && (n - 1) * p < size
    ensures FilePartLength(size, p, Some(i)) > 0 && TotalLength(size, p, i) == i * p
  {
    MulMonotone(i, n - 1, p);
    MulMonotone(0, i, p);
    PartInside(size, p, i, i * p);
  }

  lemma PartInside(size: int, p: int, i: nat, start: int)
    requires 0 < size <= MAX && 0 < p <= MAX && start == i * p && 0 <= start < size
    ensures FilePartLength(size, p, Some(i)) > 0 && TotalLength(size, p, i) == start
  {
    PartFrom(size, p, i, start);
    TotalIsStart(size, p, i, start);
  }

  /** Any other index. */
  lemma PartElsewhere(size: int, p: int, n: nat, i: int)
    requires 0 < size <= MAX && 0 < p <= MAX && size <= n * p
    ensures n <= i && i * p <= MAX ==> FilePartLength(size, p, Some(i)) == 0
    ensures i < 0 && MIN <= i * p ==> FilePartLength(size, p, Some(i)) != 0
  {
    PartIsEmptyExactly(size, p, i);
    if n <= i { MulMonotone(n, i, p); }
    if i < 0 { MulMonotoneNeg(i, p); }
  }

  /**
   Part tiling, with the part size of the upload or, if it has none, the default one: parts 0 to PartCount-1 are non-empty, each starts where the previous ones end, and
   together they are exactly the file. Any other index names an empty part if and only if its start,
   wrapped to 64 bits, is not before the end of the file; past the count that is so as long as the
   start does not overflow, and never for a negative index whose start does not overflow.
   */
  lemma PartsTileTheFile(size: int, uploadPartSize: int, defaultPartLength: int)
    requires var p := if uploadPartSize != 0 then uploadPartSize else defaultPartLength;
      0 < size && 0 < p && size + p - 1 <= MAX
    ensures var p := if uploadPartSize != 0 then uploadPartSize else defaultPartLength;
      var n := PartCount(size, uploadPartSize, defaultPartLength);
      && n >= 1
      && (forall i :: 0 <= i < n ==>
            && UploadPartLength(size, uploadPartSize, defaultPartLength, Some(i)) > 0
            && TotalLength(size, p, i) == i * p)
      && TotalLength(size, p, n) == size
      && (forall i :: UploadPartLength(size, uploadPartSize, defaultPartLength, Some(i)) == 0 <==> Wrap(i * p) >= size)
      && (forall i :: n <= i && i * p <= MAX ==> UploadPartLength(size, uploadPartSize, defaultPartLength, Some(i)) == 0)
      && (forall i :: i < 0 && MIN <= i * p ==> UploadPartLength(size, uploadPartSize, defaultPartLength, Some(i)) != 0)
  {
    var p := EffectivePartSize(uploadPartSize, defaultPartLength);
    var n := PartCount(size, uploadPartSize, defaultPartLength);
    CountRoundsUp(size, p, n);
    forall i | 0 <= i < n ensures FilePartLength(size, p, Some(i)) > 0 && TotalLength(size, p, i) == i * p {
      PartBelow(size, p, n, i);
    }
    MulStep(n - 1, p);
    TotalIsStart(size, p, n, n * p);
    forall i
      ensures FilePartLength(size, p, Some(i)) == 0 <==> Wrap(i * p) >= size
      ensures n <= i && i * p <= MAX ==> FilePartLength(size, p, Some(i)) == 0
      ensures i < 0 && MIN <= i * p ==> FilePartLength(size, p, Some(i)) != 0
    {
      PartIsEmptyExactly(size, p, i);
      PartElsewhere(size, p, n, i);
    }
  }

  lemma WrapsBelowZero(x: int)
    requires MAX < x <= MAX + MAX
    ensures Wrap(x) < 0
  {
    assert Wrap(x) == x - MODULUS;
  }

  lemma NegativeQuotient(a: int, b: int)
    requires a < 0 && b > 0
    ensures Quotient(a, b) <= 0
  {
  }

  /** Past the 64-bit bound the rounding overflows: the count is not positive, so there are no parts at all. */
  lemma CountOverflows(size: int, uploadPartSize: int, defaultPartLength: int)
    requires 0 < size <= MAX && 0 < EffectivePartSize(uploadPartSize, defaultPartLength) <= MAX
    ensures PartCount(size, uploadPartSize, defaultPartLength) >= 1 <==>
            size + EffectivePartSize(uploadPartSize, defaultPartLength) - 1 <= MAX
  {
    var p := EffectivePartSize(uploadPartSize, defaultPartLength);
    if size + p - 1 <= MAX {
      CountRoundsUp(size, p, PartCount(size, uploadPartSize, defaultPartLength));
    } else {
      WrapsBelowZero(size + p - 1);
      NegativeQuotient(Wrap(size + p - 1), p);
    }
  }

  /** The largest size with parts of two bytes: the rounding overflows and the count is negative. */
  lemma CountMayOverflow()
    ensures PartCount(MAX, 2, 2) < 1
  {
    CountOverflows(MAX, 2, 2);
  }
}
