/** `ParseRange`: a single byte range of a file of known size, and the slice it fetches. */
module ByteRange {
  import opened Wrappers
  import opened Int64

  // ----- the string functions it calls -----

  predicate IsSpace(c: char) {
    || c == ' ' || '\t' <= c <= '\r'
    || c == '\U{0085}' || c == '\U{00A0}' || c == '\U{1680}' || '\U{2000}' <= c <= '\U{200A}'
    || c == '\U{2028}' || c == '\U{2029}' || c == '\U{202F}' || c == '\U{205F}' || c == '\U{3000}'
  }

  function TrimSpace(s: string): string {
    if s != "" && IsSpace(s[0]) then TrimSpace(s[1..])
    else if s != "" && IsSpace(s[|s| - 1]) then TrimSpace(s[..|s| - 1])
    else s
  }

  function Split(s: string, sep: char): (parts: seq<string>)
    ensures parts != []
  {
    if s == "" then [""]
    else
      var rest := Split(s[1..], sep);
      if s[0] == sep then [""] + rest else [[s[0]] + rest[0]] + rest[1..]
  }

  predicate IsDigit(c: char) {
    '0' <= c <= '9'
  }

  function DigitValue(c: char): nat
    requires IsDigit(c)
  {
    c as nat - '0' as nat
  }

  const MAX_UINT := 0xFFFF_FFFF_FFFF_FFFF
  const CUTOFF := MAX_UINT / 10 + 1

  /** The digit loop of `ParseUint` in base 10: 0 on a syntax error, the maximum as soon as the value overflows. */
  function ParseDigits(s: string, n: nat): (r: nat)
    ensures n <= MAX_UINT ==> r <= MAX_UINT
  {
    if s == "" then n
    else if !IsDigit(s[0]) then 0
    else if n >= CUTOFF then MAX_UINT
    else if n * 10 + DigitValue(s[0]) > MAX_UINT then MAX_UINT
    else ParseDigits(s[1..], n * 10 + DigitValue(s[0]))
  }

  /** The value `ParseInt(s, 10, 64)` returns, its error ignored. */
  function ParseInt(s: string): (r: int)
    ensures Fits(r)
  {
    if s == "" then 0
    else
      var negative := s[0] == '-';
      var digits := if s[0] == '+' || s[0] == '-' then s[1..] else s;
      var n := if digits == "" then 0 else ParseDigits(digits, 0);
      if !negative then (if n > MAX then MAX else n)
      else if n > -MIN then MIN else -n
  }

  const PREFIX := "bytes="

  /** Offset and length. */
  function ParseRange(header: string, totalSize: int): (r: Result<(int, int), string>) {
    if !(PREFIX <= header) then Err("invalid range prefix")
    else
      var parts := Split(header[|PREFIX|..], '-');
      if |parts| != 2 then Err("invalid range format")
      else
        var startStr, endStr := TrimSpace(parts[0]), TrimSpace(parts[1]);
        if startStr == "" && endStr == "" then Err("unsupported range")
        else
          var (offset, length) := RangeBounds(startStr, endStr, totalSize);
          if offset < 0 || length <= 0 then Err("invalid calculated range") else Ok((offset, length))
  }

  function RangeBounds(startStr: string, endStr: string, totalSize: int): (int, int)
    requires startStr != "" || endStr != ""
  {
    if startStr == "" then
      var o := Wrap(totalSize - ParseInt(endStr));
      var offset := if o < 0 then 0 else o;
      (offset, Wrap(totalSize - offset))
    else if endStr == "" then
      var offset := ParseInt(startStr);
      (offset, Wrap(totalSize - offset))
    else
      var offset := ParseInt(startStr);
      var e := ParseInt(endStr);
      var end := if e >= totalSize then Wrap(totalSize - 1) else e;
      (offset, Wrap(Wrap(end - offset) + 1))
  }

  // ----- spaces around the bounds -----

  predicate AllSpace(s: string) {
    forall k :: 0 <= k < |s| ==> IsSpace(s[k])
  }

  /** No space at either end. */
  predicate Trimmed(s: string) {
    s != "" ==> !IsSpace(s[0]) && !IsSpace(s[|s| - 1])
  }

  /** Trimming takes away spaces at both ends, all of them, and nothing else. */
  lemma {:induction false} TrimSpaceExactly(before: string, s: string, after: string)
    requires AllSpace(before) && AllSpace(after) && Trimmed(s)
    ensures TrimSpace(before + s + after) == s
    decreases |before| + |after|
  {
    var whole := before + s + after;
    if before != "" {
      assert whole[0] == before[0] && whole[1..] == before[1..] + s + after;
      TrimSpaceExactly(before[1..], s, after);
    } else if after != "" {
      var n := |after| - 1;
      assert whole[|whole| - 1] == after[n] && whole[..|whole| - 1] == before + s + after[..n];
      if s == "" {
        assert whole[0] == after[0] && whole[1..] == after[1..] && after[1..] == "" + s + after[1..];
        TrimSpaceExactly("", s, after[1..]);
      } else {
        assert whole[0] == s[0];
        TrimSpaceExactly(before, s, after[..n]);
      }
    } else {
      assert whole == s;
    }
  }

  /** Every string has that form, so trimming is fully described. */
  lemma {:induction false} TrimSpaceSplits(s: string) returns (before: string, after: string)
    ensures AllSpace(before) && AllSpace(after) && Trimmed(TrimSpace(s)) && s == before + TrimSpace(s) + after
    decreases |s|
  {
    var t := TrimSpace(s);
    if s != "" && IsSpace(s[0]) {
      var b, a := TrimSpaceSplits(s[1..]);
      assert s == [s[0]] + s[1..] && [s[0]] + (b + t + a) == [s[0]] + b + t + a;
      before, after := [s[0]] + b, a;
    } else if s != "" && IsSpace(s[|s| - 1]) {
      var n := |s| - 1;
      var b, a := TrimSpaceSplits(s[..n]);
      assert s == s[..n] + [s[n]] && (b + t + a) + [s[n]] == b + t + (a + [s[n]]);
      before, after := b, a + [s[n]];
    } else {
      before, after := "", "";
      assert "" + s + "" == s;
    }
  }

  /** The ten digits and their values. */
  lemma DigitsWrittenOut(c: char)
    ensures IsDigit(c) <==> c in "0123456789"
    ensures IsDigit(c) ==> DigitValue(c) < 10 && "0123456789"[DigitValue(c)] == c
  {
    var digits := "0123456789";
    if IsDigit(c) { assert digits[DigitValue(c)] == c; }
  }

  // ----- every accepted range lies inside the file -----

  lemma {:induction false} SplitHasNoSeparator(s: string, sep: char)
    ensures forall k :: 0 <= k < |Split(s, sep)| ==> sep !in Split(s, sep)[k]
  {
    if s != "" { SplitHasNoSeparator(s[1..], sep); }
  }

  lemma {:induction false} TrimKeepsOut(s: string, c: char)
    requires c !in s
    ensures c !in TrimSpace(s)
    decreases |s|
  {
    if s != "" && IsSpace(s[0]) {
      TrimKeepsOut(s[1..], c);
    } else if s != "" && IsSpace(s[|s| - 1]) {
      TrimKeepsOut(s[..|s| - 1], c);
    }
  }

  /** Without a minus sign the parsed number is not negative. */
  lemma ParseIntNonNegative(s: string)
    requires '-' !in s
    ensures 0 <= ParseInt(s)
  {
    if s != "" { assert s[0] in s; }
  }

  /** Every accepted range, whatever the header, lies inside a file of a valid size. */
  lemma AcceptedRangeIsInside(header: string, totalSize: int)
    requires 0 <= totalSize <= MAX
    ensures ParseRange(header, totalSize).Ok? ==>
      var (offset, length) := ParseRange(header, totalSize).value;
      0 <= offset && 0 < length && offset + length <= totalSize
  {
    if PREFIX <= header {
      var parts := Split(header[|PREFIX|..], '-');
      SplitHasNoSeparator(header[|PREFIX|..], '-');
      if |parts| == 2 {
        TrimKeepsOut(parts[0], '-');
        TrimKeepsOut(parts[1], '-');
        ParseIntNonNegative(TrimSpace(parts[0]));
        ParseIntNonNegative(TrimSpace(parts[1]));
      }
    }
  }

  // ----- agreement with section 14.1.2 of RFC 9110 -----

  predicate AllDigits(s: string) {
    s != "" && forall k :: 0 <= k < |s| ==> IsDigit(s[k])
  }

  function DecimalFrom(s: string, n: nat): nat
    requires forall k :: 0 <= k < |s| ==> IsDigit(s[k])
  {
    if s == "" then n else DecimalFrom(s[1..], n * 10 + DigitValue(s[0]))
  }

  /** The number a string of digits denotes, of any length. */
  function Decimal(s: string): nat
    requires AllDigits(s)
  {
    DecimalFrom(s, 0)
  }

  /** An int-range or a suffix-range. */
  datatype RangeSpec = IntRange(first: nat, last: Option<nat>) | SuffixRange(suffix: nat)

  /** The part of a representation of `size` bytes that a range selects, if it is valid and satisfiable. */
  function Selected(spec: RangeSpec, size: nat): Option<(nat, nat)> {
    match spec
    case IntRange(first, None) => if first < size then Some((first, size - first)) else None
    case IntRange(first, Some(last)) =>
      if last < first || first >= size then None
      else if last >= size then Some((first, size - first))
      else Some((first, last - first + 1))
    case SuffixRange(suffix) =>
      if suffix == 0 || size == 0 then None
      else if suffix >= size then Some((0, size))
      else Some((size - suffix, suffix))
  }

  lemma {:induction false} DecimalGrows(s: string, n: nat)
    requires forall k :: 0 <= k < |s| ==> IsDigit(s[k])
    ensures DecimalFrom(s, n) >= n
  {
    if s != "" { DecimalGrows(s[1..], n * 10 + DigitValue(s[0])); }
  }

  lemma {:induction false} ParseDigitsIsDecimal(s: string, n: nat)
    requires n <= MAX_UINT && forall k :: 0 <= k < |s| ==> IsDigit(s[k])
    ensures ParseDigits(s, n) == if DecimalFrom(s, n) > MAX_UINT then MAX_UINT else DecimalFrom(s, n)
  {
    if s != "" {
      var next := n * 10 + DigitValue(s[0]);
      DecimalGrows(s[1..], next);
      if next <= MAX_UINT { ParseDigitsIsDecimal(s[1..], next); }
    }
  }

  /** On digits `ParseInt` is the denoted number, capped at the largest int64. */
  lemma ParseIntIsCapped(s: string)
    requires AllDigits(s)
    ensures ParseInt(s) == if Decimal(s) > MAX then MAX else Decimal(s)
  {
    assert IsDigit(s[0]);
    ParseDigitsIsDecimal(s, 0);
  }

  // ----- bounds of any form -----

  /** The longest prefix of digits. */
  function LeadingDigits(s: string): (d: string)
    ensures d <= s && forall k :: 0 <= k < |d| ==> IsDigit(d[k])
    ensures |d| < |s| ==> !IsDigit(s[|d|])
  {
    if s == "" || !IsDigit(s[0]) then "" else [s[0]] + LeadingDigits(s[1..])
  }

  /** A bound without its optional plus sign. */
  function Unsigned(s: string): string {
    if s != "" && s[0] == '+' then s[1..] else s
  }

  /**
   The number a bound is taken for: its digits, capped at the largest int64. Anything after the
   digits turns it into 0, unless the digits alone already overflow an unsigned 64-bit number.
   */
  function TakenFor(s: string): (n: nat)
    ensures n <= MAX
  {
    var d := LeadingDigits(Unsigned(s));
    var n := DecimalFrom(d, 0);
    if d == Unsigned(s) then (if n > MAX then MAX else n)
    else if n <= MAX_UINT then 0
    else MAX
  }

  /** The digit loop on digits followed by something else: overflow is noticed before the bad character. */
  lemma {:induction false} ParseDigitsMalformed(s: string, n: nat)
    requires n <= MAX_UINT && LeadingDigits(s) != s
    ensures ParseDigits(s, n) == if DecimalFrom(LeadingDigits(s), n) <= MAX_UINT then 0 else MAX_UINT
  {
    if IsDigit(s[0]) {
      var next := n * 10 + DigitValue(s[0]);
      assert LeadingDigits(s)[1..] == LeadingDigits(s[1..]);
      DecimalGrows(LeadingDigits(s[1..]), next);
      if next <= MAX_UINT {
        assert s == [s[0]] + s[1..];
        ParseDigitsMalformed(s[1..], next);
      }
    }
  }

  /** What `ParseInt` makes of any string without a minus sign. */
  lemma ParseIntIsTakenFor(s: string)
    requires '-' !in s
    ensures ParseInt(s) == TakenFor(s)
  {
    if s != "" {
      assert s[0] in s;
      var u := Unsigned(s);
      if LeadingDigits(u) == u { ParseDigitsIsDecimal(u, 0); } else { ParseDigitsMalformed(u, 0); }
    }
  }

  lemma {:induction false} SplitOnce(a: string, b: string, sep: char)
    requires sep !in a && sep !in b
    ensures Split(b, sep) == [b]
    ensures Split(a + [sep] + b, sep) == [a, b]
    decreases |a| + |b|
  {
    if a != "" {
      assert (a + [sep] + b)[1..] == a[1..] + [sep] + b;
      assert a == [a[0]] + a[1..];
      SplitOnce(a[1..], b, sep);
    } else {
      assert (a + [sep] + b)[1..] == b;
      if b != "" {
        assert b == [b[0]] + b[1..];
        SplitOnce("", b[1..], sep);
      }
    }
  }

  /** No dash in it and no space around it. */
  predicate Bare(s: string) {
    '-' !in s && TrimSpace(s) == s
  }

  lemma DigitsAreBare(s: string)
    requires s == "" || AllDigits(s)
    ensures Bare(s)
  {
  }

  /** The header for a pair of digit strings, either of which may be absent. */
  function Header(first: string, last: string): string {
    PREFIX + (first + ['-'] + last)
  }

  /** A header made of two bounds without dashes splits into them. */
  lemma HeaderParts(a: string, b: string)
    requires '-' !in a && '-' !in b
    ensures PREFIX <= Header(a, b) && Split(Header(a, b)[|PREFIX|..], '-') == [a, b]
  {
    SplitOnce(a, b, '-');
    assert Header(a, b)[|PREFIX|..] == a + ['-'] + b;
  }

  /** A header made of two bounds without dashes is decided by the trimmed bounds. */
  lemma HeaderBounds(a: string, b: string, size: int)
    requires '-' !in a && '-' !in b
    ensures var first, last := TrimSpace(a), TrimSpace(b);
      var r := ParseRange(Header(a, b), size);
      if first == "" && last == "" then r.Err?
      else
        var (offset, length) := RangeBounds(first, last, size);
        if offset < 0 || length <= 0 then r.Err? else r == Ok((offset, length))
  {
    HeaderParts(a, b);
  }

  /** Two pieces around one separator are the whole. */
  lemma {:induction false} SplitTwice(s: string, sep: char)
    ensures |Split(s, sep)| == 1 ==> Split(s, sep)[0] == s
    ensures |Split(s, sep)| == 2 ==> s == Split(s, sep)[0] + [sep] + Split(s, sep)[1]
  {
    if s != "" {
      SplitTwice(s[1..], sep);
      assert s == [s[0]] + s[1..];
    }
  }

  function SpecOf(first: string, last: string): RangeSpec
    requires (first == "" || AllDigits(first)) && (last == "" || AllDigits(last)) && (first != "" || last != "")
  {
    if first == "" then SuffixRange(Decimal(last))
    else IntRange(Decimal(first), if last == "" then None else Some(Decimal(last)))
  }

  // ----- headers -----

  /** The range that two bounds are taken for, well-formed or not. */
  function SpecTakenFor(first: string, last: string): RangeSpec
    requires first != "" || last != ""
  {
    if first == "" then SuffixRange(TakenFor(last))
    else IntRange(TakenFor(first), if last == "" then None else Some(TakenFor(last)))
  }

  lemma BoundsTakenFor(first: string, last: string, size: nat)
    requires '-' !in first && '-' !in last && (first != "" || last != "") && size <= MAX
    ensures var (offset, length) := RangeBounds(first, last, size);
      match Selected(SpecTakenFor(first, last), size)
      case None => offset < 0 || length <= 0
      case Some((o, l)) => offset == o && length == l && l > 0
  {
    ParseIntIsTakenFor(first);
    ParseIntIsTakenFor(last);
  }

  /**
   Every header with one dash, its bounds of any form: without bounds it is rejected, otherwise the
   result is what the standard selects for the numbers that the bounds are taken for.
   */
  lemma AnyRangeIsTakenFor(a: string, b: string, size: nat)
    requires '-' !in a && '-' !in b && size <= MAX
    ensures var r := ParseRange(Header(a, b), size);
      var first, last := TrimSpace(a), TrimSpace(b);
      if first == "" && last == "" then r.Err?
      else match Selected(SpecTakenFor(first, last), size)
        case None => r.Err?
        case Some((offset, length)) => r == Ok((offset, length))
  {
    HeaderBounds(a, b, size);
    TrimKeepsOut(a, '-');
    TrimKeepsOut(b, '-');
    if TrimSpace(a) != "" || TrimSpace(b) != "" {
      BoundsTakenFor(TrimSpace(a), TrimSpace(b), size);
    }
  }

  /** The cap on digits does not change what is selected from a file whose size fits. */
  lemma CappedSelection(first: string, last: string, size: nat)
    requires (first == "" || AllDigits(first)) && (last == "" || AllDigits(last)) && (first != "" || last != "")
    requires size <= MAX
    ensures Selected(SpecTakenFor(first, last), size) == Selected(SpecOf(first, last), size)
  {
    if first != "" { TakenForDigits(first); }
    if last != "" { TakenForDigits(last); }
  }

  lemma TakenForDigits(s: string)
    requires AllDigits(s)
    ensures TakenFor(s) == if Decimal(s) > MAX then MAX else Decimal(s)
  {
    assert IsDigit(s[0]);
    var d := LeadingDigits(s);
    assert |d| == |s| && d == s;
  }

  /**
   For every well-formed single range, with numbers of any length, `ParseRange` selects exactly
   what the standard selects, and rejects exactly what the standard calls invalid or unsatisfiable.
   */
  lemma WellFormedRangeFollowsStandard(first: string, last: string, size: nat)
    requires (first == "" || AllDigits(first)) && (last == "" || AllDigits(last)) && (first != "" || last != "")
    requires size <= MAX
    ensures var r := ParseRange(Header(first, last), size);
      match Selected(SpecOf(first, last), size)
      case None => r.Err?
      case Some((offset, length)) => r == Ok((offset, length))
  {
    DigitsAreBare(first);
    DigitsAreBare(last);
    AnyRangeIsTakenFor(first, last, size);
    CappedSelection(first, last, size);
  }

  /** Spaces around a bound do not change the result. */
  lemma SpacesDoNotMatter(a: string, b: string, s1: string, s2: string, s3: string, s4: string, size: int)
    requires '-' !in a && '-' !in b && Trimmed(a) && Trimmed(b)
    requires AllSpace(s1) && AllSpace(s2) && AllSpace(s3) && AllSpace(s4)
    ensures ParseRange(Header(s1 + a + s2, s3 + b + s4), size) == ParseRange(Header(a, b), size)
  {
    SpacesAreTrimmed(a, s1, s2);
    SpacesAreTrimmed(b, s3, s4);
    SameTrimmedBounds(s1 + a + s2, s3 + b + s4, a, b, size);
  }

  lemma SpacesAreTrimmed(s: string, before: string, after: string)
    requires '-' !in s && Trimmed(s) && AllSpace(before) && AllSpace(after)
    ensures '-' !in before + s + after && TrimSpace(before + s + after) == s == TrimSpace(s)
  {
    TrimSpaceExactly(before, s, after);
    TrimSpaceExactly("", s, "");
    assert "" + s + "" == s;
  }

  lemma SameTrimmedBounds(a: string, b: string, c: string, d: string, size: int)
    requires '-' !in a && '-' !in b && '-' !in c && '-' !in d && TrimSpace(a) == TrimSpace(c) && TrimSpace(b) == TrimSpace(d)
    ensures ParseRange(Header(a, b), size) == ParseRange(Header(c, d), size)
  {
    HeaderParts(a, b);
    HeaderParts(c, d);
  }

  /** Ranges written out: bytes 2 to 5 of ten, the last 4, and those from 7 on. */
  lemma RangeWrittenOut()
    ensures ParseRange("bytes=2-5", 10) == Ok((2, 4))
  {
    assert DecimalFrom("2", 0) == 2 && DecimalFrom("5", 0) == 5;
    assert AllDigits("2") && AllDigits("5");
    WellFormedRangeFollowsStandard("2", "5", 10);
    assert "bytes=2-5" == Header("2", "5");
  }

  lemma SuffixWrittenOut()
    ensures ParseRange("bytes=-4", 10) == Ok((6, 4))
  {
    assert DecimalFrom("4", 0) == 4;
    assert AllDigits("4");
    WellFormedRangeFollowsStandard("", "4", 10);
    assert "bytes=-4" == Header("", "4");
  }

  lemma OpenRangeWrittenOut()
    ensures ParseRange("bytes=7-", 10) == Ok((7, 3))
  {
    assert DecimalFrom("7", 0) == 7;
    assert AllDigits("7");
    WellFormedRangeFollowsStandard("7", "", 10);
    assert "bytes=7-" == Header("7", "");
  }

  /** The first of them with spaces in it. */
  lemma SpacedRangeWrittenOut()
    ensures ParseRange("bytes= 2 \t-5\r\n", 10) == ParseRange("bytes=2-5", 10)
  {
    SpacesDoNotMatter("2", "5", " ", " \t", "", "\r\n", 10);
    assert "bytes= 2 \t-5\r\n" == Header(" " + "2" + " \t", "" + "5" + "\r\n");
    assert "bytes=2-5" == Header("2", "5");
  }

  /** Only headers with exactly one dash after the prefix are accepted. */
  lemma AcceptedHasOneDash(header: string, size: int) returns (a: string, b: string)
    requires ParseRange(header, size).Ok?
    ensures '-' !in a && '-' !in b && header == Header(a, b)
  {
    var rest := header[|PREFIX|..];
    var parts := Split(rest, '-');
    a, b := parts[0], parts[1];
    SplitHasNoSeparator(rest, '-');
    SplitTwice(rest, '-');
    assert header == PREFIX + rest;
  }

  /** Which headers are accepted, with bounds of any form: the numbers they are taken for must name a byte of the file. */
  lemma AcceptedExactly(a: string, b: string, size: nat)
    requires '-' !in a && '-' !in b && size <= MAX
    ensures var first, last := TrimSpace(a), TrimSpace(b);
      ParseRange(Header(a, b), size).Ok? <==>
        if first == "" then last != "" && TakenFor(last) > 0 && size > 0
        else TakenFor(first) < size && (last == "" || TakenFor(first) <= TakenFor(last))
  {
    AnyRangeIsTakenFor(a, b, size);
  }

  /**
   A malformed bound (digits, at least one other character, anything) counts as 0 if and only if
   its digits do not overflow an unsigned 64-bit number; otherwise it counts as the largest int64.
   */
  lemma MalformedBoundExactly(digits: string, c: char, rest: string)
    requires (digits == "" || AllDigits(digits)) && !IsDigit(c) && '-' !in [c] + rest && (digits == "" ==> c != '+')
    ensures ParseInt(digits + [c] + rest) == if DecimalFrom(digits, 0) <= 18_446_744_073_709_551_615 then 0 else MAX
  {
    var s := digits + [c] + rest;
    assert s[|digits|] == c;
    assert forall k :: 0 <= k < |digits| ==> s[k] == digits[k];
    forall k | 0 <= k < |s| ensures s[k] != '-' {
      if k >= |digits| { assert s[k] == ([c] + rest)[k - |digits|]; }
    }
    var d := LeadingDigits(s);
    assert |d| == |digits| && d == digits;
    ParseIntIsTakenFor(s);
  }

  /** A malformed range that is accepted: `12x` counts as 0. */
  lemma MalformedRangeIsAccepted()
    ensures ParseRange(Header("12x", "3"), 10) == Ok((0, 4))
  {
    assert TrimSpace("12x") == "12x" && TrimSpace("3") == "3";
    AnyRangeIsTakenFor("12x", "3", 10);
    assert "12" + ['x'] + "" == "12x";
    MalformedBoundExactly("12", 'x', "");
    ParseIntIsTakenFor("12x");
    TakenForDigits("3");
    assert DecimalFrom("12", 0) == DecimalFrom("2", 1) == 12;
    assert DecimalFrom("3", 0) == 3;
  }

  // ----- fetching -----

  /** `FetchRange`: seek to the offset, then read at most `length` bytes. */
  function FetchRange<B>(content: seq<B>, offset: nat, length: nat): seq<B> {
    var rest := if offset <= |content| then content[offset..] else [];
    if length < |rest| then rest[..length] else rest
  }

  /** An accepted range fetches exactly its slice of a file of the declared size. */
  lemma AcceptedRangeIsFetched<B>(header: string, content: seq<B>)
    requires |content| <= MAX && ParseRange(header, |content|).Ok?
    ensures var (offset, length) := ParseRange(header, |content|).value;
      && 0 <= offset && 0 < length && offset + length <= |content|
      && FetchRange(content, offset, length) == content[offset..offset + length]
  {
    AcceptedRangeIsInside(header, |content|);
  }
}
