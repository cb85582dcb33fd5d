/**
 * Ciphertext framing: the header codec, the associated data each frame commits to, and the
 * offset arithmetic that maps plaintext ranges onto stored frames.
 */
module Framing {
  import opened Prelude

  type byte = x: int | 0 <= x < 256

  /** ASCII "CFSENC". */
  const MAGIC: seq<byte> := [67, 70, 83, 69, 78, 67]
  const FORMAT_VERSION: byte := 1
  const HEADER_BYTES := 11
  const NONCE_BYTES := 12
  const TAG_BYTES := 16
  const FRAME_OVERHEAD := NONCE_BYTES + TAG_BYTES
  const MIN_FRAME_BYTES := 1024
  const MAX_FRAME_BYTES := 8 * 1024 * 1024
  /** First frame index that `index.to_bytes(8, "big")` cannot represent. */
  const INDEX_LIMIT := 0x1_0000_0000_0000_0000

  datatype Error = Validation | Integrity | Overflow

  predicate ValidFrameBytes(frameBytes: int) {
    MIN_FRAME_BYTES <= frameBytes <= MAX_FRAME_BYTES
  }

  // ----- big-endian integers

  function Pow256(width: nat): (r: nat)
    ensures r > 0
  {
    if width == 0 then 1 else 256 * Pow256(width - 1)
  }

  function BigEndian(n: nat, width: nat): (bs: seq<byte>)
    ensures |bs| == width
  {
    if width == 0 then [] else BigEndian(n / 256, width - 1) + [n % 256]
  }

  function FromBigEndian(bs: seq<byte>): nat {
    if bs == [] then 0 else FromBigEndian(bs[..|bs| - 1]) * 256 + bs[|bs| - 1]
  }

  lemma {:induction false} BigEndianRoundTrip(n: nat, width: nat)
    requires n < Pow256(width)
    ensures FromBigEndian(BigEndian(n, width)) == n
  {
    if width > 0 {
      BigEndianRoundTrip(n / 256, width - 1);
      var bs := BigEndian(n, width);
      assert bs[..|bs| - 1] == BigEndian(n / 256, width - 1);
    }
  }

  lemma WidthConstants()
    ensures Pow256(4) == 0x1_0000_0000 && Pow256(8) == INDEX_LIMIT
  {
    assert Pow256(1) == 256;
    assert Pow256(2) == 0x1_0000;
    assert Pow256(3) == 0x100_0000;
    assert Pow256(5) == 0x100_0000_0000;
    assert Pow256(6) == 0x1_0000_0000_0000;
    assert Pow256(7) == 0x100_0000_0000_0000;
  }

  // ----- header

  function EncodeHeader(frameBytes: int): Result<seq<byte>, Error> {
    if ValidFrameBytes(frameBytes) then
      Ok(MAGIC + [FORMAT_VERSION] + BigEndian(frameBytes, 4))
    else
      Err(Validation)
  }

  function DecodeHeader(header: seq<byte>): Result<nat, Error> {
    if |header| < HEADER_BYTES || header[..|MAGIC|] != MAGIC then Err(Integrity)
    else if header[|MAGIC|] != FORMAT_VERSION then Err(Integrity)
    else
      var frameBytes := FromBigEndian(header[|MAGIC| + 1..HEADER_BYTES]);
      if ValidFrameBytes(frameBytes) then Ok(frameBytes) else Err(Integrity)
  }

  /** A header decodes to the frame size it was made from, and only such headers decode. */
  lemma HeaderRoundTrip(frameBytes: int)
    ensures !ValidFrameBytes(frameBytes) ==> EncodeHeader(frameBytes) == Err(Validation)
    ensures ValidFrameBytes(frameBytes) ==>
              && EncodeHeader(frameBytes).Ok? && |EncodeHeader(frameBytes).value| == HEADER_BYTES
              && DecodeHeader(EncodeHeader(frameBytes).value) == Ok(frameBytes)
  {
    if !ValidFrameBytes(frameBytes) { return; }
    WidthConstants();
    BigEndianRoundTrip(frameBytes, 4);
    var h := MAGIC + [FORMAT_VERSION] + BigEndian(frameBytes, 4);
    assert h[..|MAGIC|] == MAGIC;
    assert h[|MAGIC| + 1..HEADER_BYTES] == BigEndian(frameBytes, 4);
  }

  lemma {:induction false} FromBigEndianInjective(a: seq<byte>, b: seq<byte>)
    requires |a| == |b| && FromBigEndian(a) == FromBigEndian(b)
    ensures a == b
  {
    if a != [] {
      var a', b' := a[..|a| - 1], b[..|b| - 1];
      FromBigEndianInjective(a', b');
      assert a == a' + [a[|a| - 1]] && b == b' + [b[|b| - 1]];
    }
  }

  /** Decoding is injective on eleven-byte headers: one accepted header per frame size. */
  lemma HeaderUnique(header: seq<byte>, frameBytes: nat)
    requires |header| == HEADER_BYTES && DecodeHeader(header) == Ok(frameBytes)
    ensures EncodeHeader(frameBytes) == Ok(header)
  {
    HeaderRoundTrip(frameBytes);
    var h := EncodeHeader(frameBytes).value;
    FromBigEndianInjective(header[|MAGIC| + 1..HEADER_BYTES], h[|MAGIC| + 1..HEADER_BYTES]);
    assert header == header[..|MAGIC|] + [header[|MAGIC|]] + header[|MAGIC| + 1..HEADER_BYTES];
    assert h == h[..|MAGIC|] + [h[|MAGIC|]] + h[|MAGIC| + 1..HEADER_BYTES];
  }

  // ----- associated data

  /** Version, position and finality: a frame authenticated with one of these cannot pass for another. */
  function AssociatedData(versionId: seq<byte>, index: nat, final: bool): seq<byte> {
    versionId + BigEndian(index, 8) + [if final then 1 else 0]
  }

  /** Version, position and final flag are all recoverable, so no two frames share a commitment. */
  lemma AssociatedDataInjective(v: seq<byte>, i: nat, f: bool, v': seq<byte>, i': nat, f': bool)
    requires i < INDEX_LIMIT && i' < INDEX_LIMIT
    requires AssociatedData(v, i, f) == AssociatedData(v', i', f')
    ensures v == v' && i == i' && f == f'
  {
    var a, a' := AssociatedData(v, i, f), AssociatedData(v', i', f');
    assert |v| == |v'|;
    assert v == a[..|v|] == v';
    assert BigEndian(i, 8) == a[|v|..|v| + 8] == a'[|v'|..|v'| + 8] == BigEndian(i', 8);
    assert a[|v| + 8] == a'[|v'| + 8];
    WidthConstants();
    BigEndianRoundTrip(i, 8);
    BigEndianRoundTrip(i', 8);
  }

  // ----- offsets

  /** Ceiling division, with one (empty) frame for empty content. */
  function FrameCount(plaintextBytes: int, frameBytes: nat): int
    requires frameBytes > 0
  {
    if plaintextBytes <= 0 then 1 else (plaintextBytes + frameBytes - 1) / frameBytes
  }

  function SealedFrameBytes(frameBytes: nat): nat {
    frameBytes + FRAME_OVERHEAD
  }

  function CiphertextOffset(index: nat, frameBytes: nat): nat {
    HEADER_BYTES + index * SealedFrameBytes(frameBytes)
  }

  function CiphertextSize(plaintextBytes: int, frameBytes: nat): int
    requires frameBytes > 0
  {
    var bytes := Max(plaintextBytes, 0);
    var full, remainder := bytes / frameBytes, bytes % frameBytes;
    var body := full * SealedFrameBytes(frameBytes);
    HEADER_BYTES
    + (if remainder != 0 || plaintextBytes <= 0 then body + remainder + FRAME_OVERHEAD else body)
  }

  lemma MulGap(q: nat, q': nat, b: nat)
    requires q > q'
    ensures q * b >= q' * b + b
  {
    var d: nat := q - q' - 1;
    assert q * b == (q' + 1 + d) * b == q' * b + b + d * b;
    assert d * b >= 0;
  }

  lemma DivModUnique(a: nat, b: nat, q: nat, r: nat)
    requires a == q * b + r && r < b
    ensures a / b == q && a % b == r
  {
    var q', r' := a / b, a % b;
    assert a == q' * b + r';
    if q > q' {
      MulGap(q, q', b);
    } else if q < q' {
      MulGap(q', q, b);
    }
  }

  lemma DivModStep(a: nat, b: nat)
    requires b > 0
    ensures (a + b) / b == a / b + 1 && (a + b) % b == a % b
  {
    var q := a / b;
    assert (q + 1) * b == q * b + b;
    DivModUnique(a + b, b, q + 1, a % b);
  }

  lemma DivModSmall(a: nat, b: nat)
    requires a < b
    ensures a / b == 0 && a % b == a
  {
    DivModUnique(a, b, 0, a);
  }

  /** Peeling one full frame off a longer plaintext removes exactly one frame from the count. */
  lemma FrameCountStep(n: nat, frameBytes: nat)
    requires n > frameBytes > 0
    ensures FrameCount(n, frameBytes) == 1 + FrameCount(n - frameBytes, frameBytes)
  {
    DivModStep(n - 1, frameBytes);
  }

  /** ... and exactly one sealed frame from the stored size. */
  lemma CiphertextSizeStep(n: nat, frameBytes: nat)
    requires n > frameBytes > 0
    ensures CiphertextSize(n, frameBytes) == SealedFrameBytes(frameBytes) + CiphertextSize(n - frameBytes, frameBytes)
  {
    var m := n - frameBytes;
    DivModStep(m, frameBytes);
    var q, s := m / frameBytes, SealedFrameBytes(frameBytes);
    assert (q + 1) * s == q * s + s;
  }

  lemma SingleFrame(n: nat, frameBytes: nat)
    requires n <= frameBytes && frameBytes > 0
    ensures FrameCount(n, frameBytes) == 1
    ensures CiphertextSize(n, frameBytes) == HEADER_BYTES + n + FRAME_OVERHEAD
  {
    if n > 0 {
      DivModSmall(n - 1, frameBytes);
      DivModStep(n - 1, frameBytes);
    }
    if n == frameBytes {
      DivModUnique(n, frameBytes, 1, 0);
    } else {
      DivModSmall(n, frameBytes);
    }
  }

  // ----- the same quantities counted frame by frame

  /** Frames left in `n` plaintext bytes, counted by peeling one off at a time. */
  ghost function Frames(n: nat, frameBytes: nat): (k: nat)
    requires frameBytes > 0
    ensures k >= 1
  {
    if n <= frameBytes then 1 else 1 + Frames(n - frameBytes, frameBytes)
  }

  /** `k * n`, by repeated addition. */
  ghost function Times(k: nat, n: nat): nat {
    if k == 0 then 0 else n + Times(k - 1, n)
  }

  lemma {:induction false} FramesIsFrameCount(n: nat, frameBytes: nat)
    requires frameBytes > 0
    ensures Frames(n, frameBytes) == FrameCount(n, frameBytes)
    decreases n
  {
    if n <= frameBytes {
      SingleFrame(n, frameBytes);
    } else {
      FrameCountStep(n, frameBytes);
      FramesIsFrameCount(n - frameBytes, frameBytes);
    }
  }

  lemma {:induction false} TimesIsProduct(k: nat, n: nat)
    ensures Times(k, n) == k * n
  {
    if k > 0 {
      TimesIsProduct(k - 1, n);
      assert k * n == (k - 1) * n + n;
    }
  }

  // ----- ranges

  datatype FrameSpan = FrameSpan(firstIndex: nat, lastIndex: nat, leadSkip: nat, take: nat)

  /** Where the span's frames start in the stored object, and how many bytes they take up. */
  function CiphertextRange(span: FrameSpan, frameBytes: nat): (nat, int) {
    var start := CiphertextOffset(span.firstIndex, frameBytes);
    (start, CiphertextOffset(span.lastIndex + 1, frameBytes) - start)
  }

  function FramesForRange(start: int, length: int, frameBytes: nat, plaintextBytes: int): (r: Result<FrameSpan, Error>)
    requires frameBytes > 0
    ensures r.Ok? <==> start >= 0 && length > 0 && start < plaintextBytes
  {
    if start < 0 || length <= 0 then Err(Validation)
    else
      var clamped := Min(length, Max(plaintextBytes - start, 0));
      if clamped <= 0 then Err(Validation)
      else
        var first := start / frameBytes;
        var last := (start + clamped - 1) / frameBytes;
        SpanIsForward(start, clamped, frameBytes);
        Ok(FrameSpan(first, last, start - first * frameBytes, clamped))
  }

  lemma SpanIsForward(start: nat, clamped: nat, frameBytes: nat)
    requires frameBytes > 0 && clamped > 0
    ensures start - start / frameBytes * frameBytes == start % frameBytes
    ensures start / frameBytes >= 0 && (start + clamped - 1) / frameBytes >= 0
  {
  }
}
