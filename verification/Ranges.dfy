/**
 * Single-range `Range` headers (section 14.1.2 of RFC 9110) and the encrypted range read they drive:
 * header, plan, fetch of only the touched frames, decryption and trimming.
 */
module Ranges {
  import opened Prelude
  import opened Framing
  import opened Cipher
  import opened CipherTheorems

  // ----- the string operations the parser is made of, over Latin-1 header text

  predicate IsSpace(c: char) {
    '\t' <= c <= '\r' || '\U{1C}' <= c <= ' ' || c == '\U{85}' || c == '\U{A0}'
  }

  function StripLeft(s: string): string {
    if s != "" && IsSpace(s[0]) then StripLeft(s[1..]) else s
  }

  function StripRight(s: string): string {
    if s != "" && IsSpace(s[|s| - 1]) then StripRight(s[..|s| - 1]) else s
  }

  function Strip(s: string): string {
    StripRight(StripLeft(s))
  }

  /** Only ASCII capitals can fold to the letters of "bytes". */
  function Lower(s: string): string {
    seq(|s|, i requires 0 <= i < |s| => if 'A' <= s[i] <= 'Z' then s[i] - 'A' + 'a' else s[i])
  }

  /** Text before and after the first `separator`; all of it and nothing when there is none. */
  function Partition(s: string, separator: char): (string, string) {
    if s == "" then ("", "")
    else if s[0] == separator then ("", s[1..])
    else var (before, after) := Partition(s[1..], separator); ([s[0]] + before, after)
  }

  predicate IsDecimal(c: char) {
    '0' <= c <= '9'
  }

  /** `str.isdigit` also accepts the superscripts, which `int` then refuses. */
  predicate IsDigitChar(c: char) {
    IsDecimal(c) || c == '\U{B2}' || c == '\U{B3}' || c == '\U{B9}'
  }

  predicate IsDigit(s: string) {
    s != "" && forall c <- s :: IsDigitChar(c)
  }

  /** `int` refuses longer digit strings. */
  const MAX_INT_DIGITS := 4300

  function DigitValue(c: char): nat {
    if c >= '0' then c as int - '0' as int else 0
  }

  function DecimalValue(s: string): nat
    requires forall c <- s :: IsDecimal(c)
  {
    if s == "" then 0
    else
      DecimalValue(s[..|s| - 1]) * 10 + DigitValue(s[|s| - 1])
  }

  function ParseInt(s: string): Option<nat> {
    if |s| <= MAX_INT_DIGITS && forall c <- s :: IsDecimal(c) then Some(DecimalValue(s)) else None
  }

  // ----- the parser

  /** Serve everything, serve a part, or fail with an uncaught `ValueError`. */
  datatype Requested = Whole | Part(start: nat, length: nat) | Crash

  function ParseRange(header: Option<string>, size: int): (r: Requested)
    ensures r.Part? ==> r.length >= 1 && r.start + r.length <= size
  {
    if header.None? || header.value == "" || size <= 0 then Whole
    else
      var (unit, spec) := Partition(header.value, '=');
      if Lower(Strip(unit)) != "bytes" || ',' in spec then Whole
      else
        var (rawFirst, rawLast) := Partition(spec, '-');
        var first, last := Strip(rawFirst), Strip(rawLast);
        if first == "" && IsDigit(last) then ParseSuffix(last, size)
        else if !IsDigit(first) then Whole
        else ParseFrom(first, last, size)
  }

  function ParseSuffix(last: string, size: int): (r: Requested)
    requires size > 0
    ensures r.Part? ==> r.length >= 1 && r.start + r.length == size
  {
    match ParseInt(last)
    case None => Crash
    case Some(n) =>
      var length := Min(n, size);
      if length == 0 then Whole else Part(size - length, length)
  }

  function ParseFrom(first: string, last: string, size: int): (r: Requested)
    requires size > 0
    ensures r.Part? ==> r.length >= 1 && r.start + r.length <= size
  {
    match ParseInt(first)
    case None => Crash
    case Some(start) =>
      if start >= size then Whole
      else if IsDigit(last) then
        match ParseInt(last)
        case None => Crash
        case Some(n) =>
          var end := Min(n, size - 1);
          if end < start then Whole else Part(start, end - start + 1)
      else Part(start, size - 1 - start + 1)
  }

  // ----- canonical headers are read as the standard defines them

  function Decimal(n: nat): (s: string)
    ensures s != "" && forall c <- s :: IsDecimal(c)
  {
    if n < 10 then [('0' as int + n) as char] else Decimal(n / 10) + [('0' as int + n % 10) as char]
  }

  lemma {:induction false} DecimalRoundTrip(n: nat)
    ensures DecimalValue(Decimal(n)) == n
  {
    var s := Decimal(n);
    if n < 10 {
      assert s[..0] == "";
    } else {
      DecimalRoundTrip(n / 10);
      assert s[..|s| - 1] == Decimal(n / 10);
    }
  }

  lemma {:induction false} PartitionAt(before: string, separator: char, after: string)
    requires separator !in before
    ensures Partition(before + [separator] + after, separator) == (before, after)
  {
    var s := before + [separator] + after;
    if before == "" {
      assert s[1..] == after;
    } else {
      PartitionAt(before[1..], separator, after);
      assert s[1..] == before[1..] + [separator] + after;
      assert [before[0]] + before[1..] == before;
    }
  }

  /** A rendered number survives every string operation of the parser. */
  lemma DecimalParses(n: nat)
    requires |Decimal(n)| <= MAX_INT_DIGITS
    ensures Strip(Decimal(n)) == Decimal(n) && IsDigit(Decimal(n)) && ParseInt(Decimal(n)) == Some(n)
    ensures '-' !in Decimal(n) && ',' !in Decimal(n)
  {
    var s := Decimal(n);
    assert s[0] in s && s[|s| - 1] in s;
    DecimalRoundTrip(n);
  }

  lemma EmptyText()
    ensures Strip("") == "" && !IsDigit("")
  {
  }

  lemma BytesUnit(spec: string)
    ensures Partition("bytes=" + spec, '=') == ("bytes", spec)
    ensures Lower(Strip("bytes")) == "bytes"
  {
    PartitionAt("bytes", '=', spec);
    assert "bytes" + ['='] + spec == "bytes=" + spec;
    assert StripLeft("bytes") == "bytes";
  }

  /** What section 14.1.2 of RFC 9110 asks for `first-last`: the bytes of the content between the two positions. */
  lemma IntRange(a: nat, b: nat, size: int)
    requires size > 0 && |Decimal(a)| <= MAX_INT_DIGITS && |Decimal(b)| <= MAX_INT_DIGITS
    ensures ParseRange(Some("bytes=" + (Decimal(a) + ['-'] + Decimal(b))), size)
         == if a <= b && a < size then Part(a, Min(b, size - 1) - a + 1) else Whole
  {
    hide Strip, Partition, Decimal, IsDigit, ParseInt;
    var spec := Decimal(a) + ['-'] + Decimal(b);
    BytesUnit(spec);
    DecimalParses(a);
    DecimalParses(b);
    PartitionAt(Decimal(a), '-', Decimal(b));
  }

  /** ... for `first-`: everything from there on. */
  lemma OpenRange(a: nat, size: int)
    requires size > 0 && |Decimal(a)| <= MAX_INT_DIGITS
    ensures ParseRange(Some("bytes=" + (Decimal(a) + ['-'] + "")), size)
         == if a < size then Part(a, size - a) else Whole
  {
    hide Strip, Partition, Decimal, IsDigit, ParseInt;
    BytesUnit(Decimal(a) + ['-'] + "");
    DecimalParses(a);
    PartitionAt(Decimal(a), '-', "");
    EmptyText();
  }

  /** ... and for `-suffix`: the last so many bytes. */
  lemma SuffixRange(n: nat, size: int)
    requires size > 0 && |Decimal(n)| <= MAX_INT_DIGITS
    ensures ParseRange(Some("bytes=" + ("" + ['-'] + Decimal(n))), size)
         == if n > 0 then Part(size - Min(n, size), Min(n, size)) else Whole
  {
    hide Strip, Partition, Decimal, IsDigit, ParseInt;
    BytesUnit("" + ['-'] + Decimal(n));
    DecimalParses(n);
    PartitionAt("", '-', Decimal(n));
    EmptyText();
  }

  // ----- which headers crash

  predicate IsSuperscript(c: char) {
    c == '\U{B2}' || c == '\U{B3}' || c == '\U{B9}'
  }

  /** A digit string that `isdigit` accepts and `int` refuses: too long, or with a superscript in it. */
  predicate Uncountable(s: string) {
    IsDigit(s) && (|s| > MAX_INT_DIGITS || exists c <- s :: IsSuperscript(c))
  }

  lemma UncountableIsNoInt(s: string)
    requires IsDigit(s)
    ensures Uncountable(s) <==> ParseInt(s).None?
  {
    if forall c <- s :: IsDecimal(c) {
      assert forall c <- s :: !IsSuperscript(c);
    } else {
      var c :| c in s && !IsDecimal(c);
      assert IsSuperscript(c);
    }
  }

  /** The text of a header as `unit=first-last`; without a dash all of it after the equals sign is `first`. */
  predicate Reads(header: string, unit: string, first: string, last: string) {
    && '=' !in unit && '-' !in first
    && (header == unit + "=" + first + "-" + last || (header == unit + "=" + first && last == ""))
  }

  /** `int` is called on something it refuses: `first` when it is there, `last` when it is all there is or `first` lies inside. */
  predicate Offends(unit: string, first: string, last: string, size: int) {
    && Lower(Strip(unit)) == "bytes" && ',' !in first && ',' !in last
    && var f, l := Strip(first), Strip(last);
       if f == "" then Uncountable(l)
       else Uncountable(f) || (IsDigit(f) && ParseInt(f).Some? && ParseInt(f).value < size && Uncountable(l))
  }

  lemma {:induction false} PartitionReads(s: string, separator: char)
    ensures var (before, after) := Partition(s, separator);
            && separator !in before
            && if separator in s then s == before + [separator] + after else before == s && after == ""
    decreases |s|
  {
    if s != "" && s[0] != separator {
      PartitionReads(s[1..], separator);
      assert s == [s[0]] + s[1..];
    } else if s != "" {
      assert s == "" + [s[0]] + s[1..];
    }
  }

  lemma PartitionWhole(s: string, separator: char)
    requires separator !in s
    ensures Partition(s, separator) == (s, "")
  {
    PartitionReads(s, separator);
  }

  lemma SpecCrashes(first: string, last: string, spec: string, unit: string, header: string, size: int)
    requires Partition(header, '=') == (unit, spec) && Partition(spec, '-') == (first, last) && header != ""
    requires ',' in spec <==> ',' in first || ',' in last
    ensures ParseRange(Some(header), size) == Crash <==> size > 0 && Offends(unit, first, last, size)
  {
    hide Strip, Lower, Partition, ParseInt, IsDigit, Uncountable;
    var f, l := Strip(first), Strip(last);
    NotADigit();
    if IsDigit(f) { UncountableIsNoInt(f); }
    if IsDigit(l) { UncountableIsNoInt(l); }
    OnlyDigits(f);
    OnlyDigits(l);
  }

  lemma NotADigit()
    ensures !IsDigit("")
  {
  }

  lemma OnlyDigits(s: string)
    ensures Uncountable(s) ==> IsDigit(s)
  {
  }

  /** A `Range` header ends in an uncaught `ValueError` exactly when its text offends so; every other header is answered. */
  lemma CrashesExactly(header: string, size: int)
    ensures ParseRange(Some(header), size) == Crash <==>
              size > 0 && exists unit, first, last :: Reads(header, unit, first, last) && Offends(unit, first, last, size)
  {
    hide Offends, Partition, ParseRange;
    var (unit, spec) := Partition(header, '=');
    var (first, last) := Partition(spec, '-');
    PartitionReads(header, '=');
    PartitionReads(spec, '-');
    if header != "" {
      SpecCrashes(first, last, spec, unit, header, size);
      if '=' in header {
        assert Reads(header, unit, first, last);
      } else {
        NothingToRead(unit, size);
      }
    } else {
      EmptyServed(size);
    }
    forall u, f, l | Reads(header, u, f, l)
      ensures unit == u && first == f && last == l && '=' in header
    {
      ReadsOneWay(header, u, f, l);
    }
  }

  lemma EmptyServed(size: int)
    ensures ParseRange(Some(""), size) == Whole
  {
  }

  lemma NothingToRead(unit: string, size: int)
    ensures !Offends(unit, "", "", size)
  {
    EmptyText();
  }

  lemma ReadsOneWay(header: string, unit: string, first: string, last: string)
    requires Reads(header, unit, first, last)
    ensures '=' in header
    ensures Partition(header, '=').0 == unit && Partition(Partition(header, '=').1, '-') == (first, last)
  {
    hide Partition;
    var spec := if header == unit + "=" + first + "-" + last then first + "-" + last else first;
    assert header == unit + ['='] + spec;
    PartitionAt(unit, '=', spec);
    if spec == first + "-" + last {
      assert spec == first + ['-'] + last;
      PartitionAt(first, '-', last);
    } else {
      PartitionWhole(first, '-');
    }
  }

  /** So a single superscript is enough, whatever the size of a non-empty file. */
  lemma SuperscriptCrashes(size: int)
    requires size > 0
    ensures ParseRange(Some("bytes=\U{B2}-"), size) == Crash
  {
    var unit, first, last := "bytes", "\U{B2}", "";
    assert "bytes=\U{B2}-" == unit + "=" + first + "-" + last;
    assert Reads("bytes=\U{B2}-", unit, first, last);
    BytesUnit("");
    assert first[0] in first && IsSuperscript(first[0]);
    assert Strip(first) == first;
    assert Offends(unit, first, last, size);
    CrashesExactly("bytes=\U{B2}-", size);
  }

  /** A string of digits that stands for `n`. */
  predicate Denotes(s: string, n: nat) {
    IsDigit(s) && ParseInt(s) == Some(n)
  }

  /**
   * What a header asks for: with both ends, those positions as far as the content goes; with a start only,
   * everything from there; with an end only, that many last bytes.
   */
  ghost predicate Asks(unit: string, first: string, last: string, size: int, start: nat, length: nat) {
    && Lower(Strip(unit)) == "bytes" && ',' !in first && ',' !in last && length >= 1
    && var f, l := Strip(first), Strip(last);
       if f == "" then exists n: nat :: Denotes(l, n) && length == Min(n, size) && start == size - length
       else
         && Denotes(f, start) && start < size
         && if IsDigit(l) then exists n: nat :: Denotes(l, n) && length == Min(n, size - 1) - start + 1 else length == size - start
  }

  lemma SpecServes(first: string, last: string, spec: string, unit: string, header: string, size: int, start: nat, length: nat)
    requires Partition(header, '=') == (unit, spec) && Partition(spec, '-') == (first, last) && header != ""
    requires ',' in spec <==> ',' in first || ',' in last
    ensures ParseRange(Some(header), size) == Part(start, length) <==> size > 0 && Asks(unit, first, last, size, start, length)
  {
    hide Strip, Lower, Partition, ParseInt, IsDigit;
    var l := Strip(last);
    NotADigit();
    if IsDigit(l) && ParseInt(l).Some? { assert Denotes(l, ParseInt(l).value); }
  }

  /** A part is served exactly when the header's text asks for it: one range of bytes, with digits where they are read. */
  lemma ServedExactly(header: string, size: int, start: nat, length: nat)
    ensures ParseRange(Some(header), size) == Part(start, length) <==>
              size > 0 && exists unit, first, last :: Reads(header, unit, first, last) && Asks(unit, first, last, size, start, length)
  {
    hide Asks, Partition, ParseRange;
    var (unit, spec) := Partition(header, '=');
    var (first, last) := Partition(spec, '-');
    PartitionReads(header, '=');
    PartitionReads(spec, '-');
    if header != "" {
      SpecServes(first, last, spec, unit, header, size, start, length);
      if '=' in header {
        assert Reads(header, unit, first, last);
      } else {
        NothingAsked(unit, size, start, length);
      }
    } else {
      EmptyServed(size);
    }
    forall u, f, l | Reads(header, u, f, l)
      ensures unit == u && first == f && last == l && '=' in header
    {
      ReadsOneWay(header, u, f, l);
    }
  }

  lemma NothingAsked(unit: string, size: int, start: nat, length: nat)
    ensures !Asks(unit, "", "", size, start, length)
  {
    EmptyText();
  }

  // ----- reading a range out of the stored frames

  lemma {:induction false} TimesMonotone(a: nat, b: nat, n: nat)
    requires a <= b
    ensures Times(a, n) <= Times(b, n)
  {
    if a < b {
      TimesMonotone(a, b - 1, n);
    }
  }

  /** A read at `at`, given `fetched` sealed frames of `plain`, that asks for bytes the frames hold. */
  ghost predicate Answerable(c: Context, plain: seq<byte>, fetched: nat, at: Position) {
    && c.Valid() && at.index + Framing.Frames(|plain|, c.frameBytes) <= INDEX_LIMIT
    && at.remaining.Some? && at.remaining.value > 0 && at.leadSkip < c.frameBytes
    && at.leadSkip + at.remaining.value <= Min(|plain|, Times(fetched, c.frameBytes))
  }

  ghost function Answer(c: Context, plain: seq<byte>, fetched: nat, at: Position): Outcome
    requires Answerable(c, plain, fetched, at)
  {
    OpenFrames(Reading(c.key, c.versionId, c.frameBytes),
               Take(c.Frames(plain, at.index), Times(fetched, SealedFrameBytes(c.frameBytes))), at)
  }

  lemma AnswerFromLast(c: Context, plain: seq<byte>, fetched: nat, at: Position)
    requires Answerable(c, plain, fetched, at) && |plain| <= c.frameBytes
    ensures Answer(c, plain, fetched, at) == Outcome(plain[at.leadSkip..at.leadSkip + at.remaining.value], None)
  {
    hide Context.Frames, FrameCells, OpenFrames;
    FramesLast(c, plain, at.index);
    var sb := SealedFrameBytes(c.frameBytes);
    TimesMonotone(1, fetched, sb);
    assert Times(1, sb) == sb;
    assert Take(c.Frames(plain, at.index), Times(fetched, sb)) == c.Frames(plain, at.index);
    ReadLast(c, plain, at);
    assert plain[at.leadSkip..][..at.remaining.value] == plain[at.leadSkip..at.leadSkip + at.remaining.value];
  }

  /** With more than one frame left, a read takes its piece of the first and goes on in the rest. */
  lemma AnswerFromFull(c: Context, plain: seq<byte>, fetched: nat, at: Position)
    requires Answerable(c, plain, fetched, at) && |plain| > c.frameBytes
    ensures var piece := Piece(plain[..c.frameBytes], at.leadSkip, at.remaining);
            var left := Spend(at.remaining, piece);
            var next := Position(at.index + 1, 0, left, false);
            if left == Some(0) then Answer(c, plain, fetched, at) == Outcome(piece, None)
            else
              && Answerable(c, plain[c.frameBytes..], fetched - 1, next)
              && var after := Answer(c, plain[c.frameBytes..], fetched - 1, next);
                 Answer(c, plain, fetched, at) == Outcome(piece + after.emitted, after.failure)
  {
    hide Context.Frames, FrameCells, OpenFrames;
    var fb, sb := c.frameBytes, SealedFrameBytes(c.frameBytes);
    var head, rest := FrameCells(c.Frame(plain[..fb], at.index, false)), c.Frames(plain[fb..], at.index + 1);
    FramesStep(c, plain, at.index);
    TakePast(head, rest, Times(fetched - 1, sb));
    ReadFull(c, plain[..fb], Take(rest, Times(fetched - 1, sb)), at);
  }

  /** Opening at least the frames a range touches emits exactly the range. */
  lemma {:induction false} ReadThrough(c: Context, plain: seq<byte>, fetched: nat, at: Position)
    requires Answerable(c, plain, fetched, at)
    ensures Answer(c, plain, fetched, at) == Outcome(plain[at.leadSkip..at.leadSkip + at.remaining.value], None)
    decreases |plain|
  {
    hide Answer;
    var fb, lead, want := c.frameBytes, at.leadSkip, at.remaining.value;
    if |plain| <= fb {
      AnswerFromLast(c, plain, fetched, at);
    } else {
      AnswerFromFull(c, plain, fetched, at);
      SliceAcross(plain, lead, fb, Max(fb, lead + want));
      if lead + want <= fb {
        assert plain[..fb][lead..][..want] == plain[lead..lead + want];
      } else {
        ReadThrough(c, plain[fb..], fetched - 1, Position(at.index + 1, 0, Some(want - (fb - lead)), false));
      }
    }
  }

  lemma TakePast<T>(a: seq<T>, b: seq<T>, n: nat)
    ensures Take(a + b, |a| + n) == a + Take(b, n)
  {
  }

  lemma SliceAcross<T>(s: seq<T>, from: nat, mid: nat, to: nat)
    requires from <= mid <= to <= |s|
    ensures s[..mid][from..] == s[from..mid]
    ensures s[from..mid] + s[mid..][0..to - mid] == s[from..to]
  {
  }

  /** What the object store returns for a byte range: cut at the object's end. */
  function Fetch<T>(stored: seq<T>, offset: nat, length: nat): seq<T> {
    Take(Drop(stored, offset), length)
  }

  lemma {:induction false} TimesSum(a: nat, b: nat, n: nat)
    ensures Times(a + b, n) == Times(a, n) + Times(b, n)
  {
    if a > 0 {
      TimesSum(a - 1, b, n);
    }
  }

  lemma {:induction false} InsideCount(n: nat, frameBytes: nat, k: nat)
    requires frameBytes > 0 && Times(k, frameBytes) < n
    ensures k < Framing.Frames(n, frameBytes)
  {
    if k > 0 {
      InsideCount(n - frameBytes, frameBytes, k - 1);
    }
  }

  /** The planned span starts inside the content and its frames cover the range. */
  lemma SpanCovers(start: nat, take: nat, frameBytes: nat)
    requires frameBytes > 0 && take > 0
    ensures var first, last := start / frameBytes, (start + take - 1) / frameBytes;
            && first <= last
            && Times(first, frameBytes) <= start < Times(first, frameBytes) + frameBytes
            && first * frameBytes == Times(first, frameBytes)
            && start - Times(first, frameBytes) + take <= Times(last - first + 1, frameBytes)
  {
    hide Times;
    var first, last := start / frameBytes, (start + take - 1) / frameBytes;
    QuotientTimes(start, frameBytes);
    QuotientTimes(start + take - 1, frameBytes);
    if last < first {
      TimesMonotone(last + 1, first, frameBytes);
    }
    TimesStep(last, frameBytes);
    TimesSum(first, last - first, frameBytes);
    TimesStep(last - first, frameBytes);
  }

  lemma QuotientTimes(a: nat, b: nat)
    requires b > 0
    ensures a / b >= 0 && a / b * b == Times(a / b, b) && Times(a / b, b) <= a < Times(a / b, b) + b
  {
    TimesIsProduct(a / b, b);
    assert a == a / b * b + a % b;
  }

  /**
   * Fetching only the frames of the planned span, cut at the object's end, and opening them with the
   * span yields exactly the bytes of the range.
   */
  lemma SpanRead(c: Context, plain: seq<byte>, start: nat, length: nat)
    requires c.Valid() && FrameCount(|plain|, c.frameBytes) <= INDEX_LIMIT
    requires length > 0 && start < |plain|
    ensures var span := FramesForRange(start, length, c.frameBytes, |plain|).value;
            var range := CiphertextRange(span, c.frameBytes);
            && range.1 > 0
            && OpenSpan(c.key, c.versionId, c.frameBytes, Fetch(c.Stored(plain), range.0, range.1), span)
               == Outcome(plain[start..start + Min(length, |plain| - start)], None)
  {
    hide Context.Stored, OpenSpan, Fetch;
    var fb, take := c.frameBytes, Min(length, |plain| - start);
    var span := FramesForRange(start, length, fb, |plain|).value;
    SpanCovers(start, take, fb);
    FramesIsFrameCount(|plain|, fb);
    SpanOffsets(span, fb);
    SpanReadByCounting(c, plain, span);
    TimesIsProduct(span.firstIndex, fb);
  }

  lemma SpanOffsets(span: FrameSpan, frameBytes: nat)
    requires span.firstIndex <= span.lastIndex
    ensures var sb := SealedFrameBytes(frameBytes);
            && CiphertextRange(span, frameBytes) == (HEADER_BYTES + Times(span.firstIndex, sb), Times(span.lastIndex - span.firstIndex + 1, sb))
            && Times(span.lastIndex - span.firstIndex + 1, sb) > 0
  {
    var sb := SealedFrameBytes(frameBytes);
    TimesIsProduct(span.firstIndex, sb);
    TimesIsProduct(span.lastIndex + 1, sb);
    TimesSum(span.firstIndex, span.lastIndex - span.firstIndex + 1, sb);
  }

  lemma SpanReadByCounting(c: Context, plain: seq<byte>, span: FrameSpan)
    requires c.Valid() && Framing.Frames(|plain|, c.frameBytes) <= INDEX_LIMIT
    requires span.firstIndex <= span.lastIndex && span.take > 0 && span.leadSkip < c.frameBytes
    requires Times(span.firstIndex, c.frameBytes) + span.leadSkip + span.take <= |plain|
    requires span.leadSkip + span.take <= Times(span.lastIndex - span.firstIndex + 1, c.frameBytes)
    ensures var sb := SealedFrameBytes(c.frameBytes);
            var start := Times(span.firstIndex, c.frameBytes) + span.leadSkip;
            OpenSpan(c.key, c.versionId, c.frameBytes,
                     Fetch(c.Stored(plain), HEADER_BYTES + Times(span.firstIndex, sb), Times(span.lastIndex - span.firstIndex + 1, sb)), span)
            == Outcome(plain[start..start + span.take], None)
  {
    hide Context.Stored, OpenSpan, Fetch, Answer, Times, Framing.Frames;
    var fb, first, fetched := c.frameBytes, span.firstIndex, span.lastIndex - span.firstIndex + 1;
    InsideCount(|plain|, fb, first);
    CountFrom(|plain|, fb, first);
    var rest := PlainFrom(plain, fb, first);
    ReadThrough(c, rest, fetched, SpanStart(span));
    SpanIsAnswer(c, plain, span);
    SliceOfDrop(plain, Times(first, fb), span.leadSkip, span.take);
  }

  lemma SpanIsAnswer(c: Context, plain: seq<byte>, span: FrameSpan)
    requires c.Valid() && span.firstIndex <= span.lastIndex && span.firstIndex < Framing.Frames(|plain|, c.frameBytes)
    requires Answerable(c, PlainFrom(plain, c.frameBytes, span.firstIndex), span.lastIndex - span.firstIndex + 1, SpanStart(span))
    ensures var sb := SealedFrameBytes(c.frameBytes);
            OpenSpan(c.key, c.versionId, c.frameBytes,
                     Fetch(c.Stored(plain), HEADER_BYTES + Times(span.firstIndex, sb), Times(span.lastIndex - span.firstIndex + 1, sb)), span)
            == Answer(c, PlainFrom(plain, c.frameBytes, span.firstIndex), span.lastIndex - span.firstIndex + 1, SpanStart(span))
  {
    hide Context.Stored, Context.Frames, OpenFrames, Fetch, Times, Take, Framing.Frames, Answerable;
    FetchIsFrames(c, plain, span.firstIndex, span.lastIndex - span.firstIndex + 1);
  }

  lemma SliceOfDrop<T>(s: seq<T>, n: nat, from: nat, take: nat)
    requires n + from + take <= |s|
    ensures Drop(s, n)[from..from + take] == s[n + from..n + from + take]
  {
  }

  lemma FetchIsFrames(c: Context, plain: seq<byte>, first: nat, frames: nat)
    requires c.Valid() && first < Framing.Frames(|plain|, c.frameBytes)
    ensures var sb := SealedFrameBytes(c.frameBytes);
            Fetch(c.Stored(plain), HEADER_BYTES + Times(first, sb), Times(frames, sb))
            == Take(c.Frames(PlainFrom(plain, c.frameBytes, first), first), Times(frames, sb))
  {
    hide Context.Frames, FrameCells, HeaderCells, Times, Drop, Take;
    FramesFrom(c, plain, 0, first);
    DropHeader(HeaderCells(c.frameBytes), c.Frames(plain, 0), Times(first, SealedFrameBytes(c.frameBytes)));
  }

  lemma DropHeader<T>(header: seq<T>, frames: seq<T>, n: nat)
    requires n <= |frames|
    ensures Drop(header + frames, |header| + n) == frames[n..]
  {
  }

  /** Every accepted `Range` header on sealed content is served with exactly the bytes it names. */
  lemma RangeRequestServed(c: Context, plain: seq<byte>, header: Option<string>)
    requires c.Valid() && FrameCount(|plain|, c.frameBytes) <= INDEX_LIMIT
    requires ParseRange(header, |plain|).Part?
    ensures var part := ParseRange(header, |plain|);
            && part.length >= 1 && part.start + part.length <= |plain|
            && FramesForRange(part.start, part.length, c.frameBytes, |plain|).Ok?
            && var span := FramesForRange(part.start, part.length, c.frameBytes, |plain|).value;
               var range := CiphertextRange(span, c.frameBytes);
               && range.1 > 0
               && OpenSpan(c.key, c.versionId, c.frameBytes, Fetch(c.Stored(plain), range.0, range.1), span)
                  == Outcome(plain[part.start..part.start + part.length], None)
  {
    hide ParseRange, Context.Stored, OpenSpan, Fetch, CiphertextRange;
    var part := ParseRange(header, |plain|);
    SpanRead(c, plain, part.start, part.length);
  }
}
