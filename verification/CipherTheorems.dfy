/** What framed sealing is for: exact round trips, tamper evidence and exact range reads. */
module CipherTheorems {
  import opened Prelude
  import opened Framing
  import opened Cipher

  // ----- one frame

  lemma SplitNonce(cells: seq<Cell>)
    requires |cells| >= NONCE_BYTES
    ensures cells[..NONCE_BYTES] + cells[NONCE_BYTES..] == cells
  {
  }

  /** A frame opens at exactly its own key, version, position, and reports its own flag. */
  lemma OpenOwnFrame(c: Context, plain: seq<byte>, index: nat, final: bool)
    requires index < INDEX_LIMIT
    ensures OpenFrame(c.key, c.versionId, index, FrameCells(c.Frame(plain, index, final))) == Ok(Opened(plain, final))
  {
    var cells := FrameCells(c.Frame(plain, index, final));
    SplitNonce(cells);
    if final && AssociatedData(c.versionId, index, true) == AssociatedData(c.versionId, index, false) {
      AssociatedDataInjective(c.versionId, index, true, c.versionId, index, false);
    }
  }

  /** Whatever opens is the whole of one frame with the expected key and commitment. */
  lemma OpenedIsWholeFrame(key: Key, versionId: VersionId, index: nat, sealed: seq<Cell>)
    requires |sealed| >= NONCE_BYTES
    requires OpenFrame(key, versionId, index, sealed).Ok?
    ensures index < INDEX_LIMIT && sealed[0].Sealed? && sealed == FrameCells(sealed[0].frame)
    ensures var got := OpenFrame(key, versionId, index, sealed).value;
            var f := sealed[0].frame;
            f.key == key && f.plain == got.data && f.aad == AssociatedData(versionId, index, got.final)
  {
    SplitNonce(sealed);
  }

  lemma CutFullFrame(f: SealedFrame, rest: seq<Cell>, frameBytes: nat)
    requires |f.plain| == frameBytes
    ensures NextCut(FrameCells(f) + rest, frameBytes) == Frame(FrameCells(f))
    ensures (FrameCells(f) + rest)[|FrameCells(f)|..] == rest
  {
  }

  lemma CutLastFrame(f: SealedFrame, frameBytes: nat)
    requires |f.plain| <= frameBytes
    ensures NextCut(FrameCells(f), frameBytes) == Frame(FrameCells(f))
    ensures FrameCells(f)[|FrameCells(f)|..] == []
  {
  }

  // ----- round trip

  /** Reading one full frame hands on its piece and goes on with what follows. */
  lemma ReadFull(c: Context, plain: seq<byte>, rest: seq<Cell>, at: Position)
    requires |plain| == c.frameBytes && at.index < INDEX_LIMIT
    ensures var r := Reading(c.key, c.versionId, c.frameBytes);
            var piece := Piece(plain, at.leadSkip, at.remaining);
            var left := Spend(at.remaining, piece);
            var after := OpenFrames(r, rest, Position(at.index + 1, 0, left, false));
            OpenFrames(r, FrameCells(c.Frame(plain, at.index, false)) + rest, at)
            == if left == Some(0) then Outcome(piece, None) else Outcome(piece + after.emitted, after.failure)
  {
    OpenOwnFrame(c, plain, at.index, false);
    CutFullFrame(c.Frame(plain, at.index, false), rest, c.frameBytes);
  }

  /** Reading the last frame ends the read. */
  lemma ReadLast(c: Context, plain: seq<byte>, at: Position)
    requires |plain| <= c.frameBytes && at.index < INDEX_LIMIT
    ensures var r := Reading(c.key, c.versionId, c.frameBytes);
            OpenFrames(r, FrameCells(c.Frame(plain, at.index, true)), at)
            == Outcome(Piece(plain, at.leadSkip, at.remaining), None)
  {
    OpenOwnFrame(c, plain, at.index, true);
    CutLastFrame(c.Frame(plain, at.index, true), c.frameBytes);
    var piece := Piece(plain, at.leadSkip, at.remaining);
    OpenEnds(Reading(c.key, c.versionId, c.frameBytes), [], Position(at.index + 1, 0, Spend(at.remaining, piece), true));
    assert piece + [] == piece;
  }

  lemma {:induction false} FramesRoundTrip(c: Context, plain: seq<byte>, index: nat, sawFinal: bool)
    requires c.Valid() && index + Framing.Frames(|plain|, c.frameBytes) <= INDEX_LIMIT
    ensures OpenFrames(Reading(c.key, c.versionId, c.frameBytes), c.Frames(plain, index), Position(index, 0, None, sawFinal))
         == Outcome(plain, None)
    decreases |plain|
  {
    hide Context.Frames, FrameCells, OpenFrames;
    if |plain| <= c.frameBytes {
      FramesLast(c, plain, index);
      ReadLast(c, plain, Position(index, 0, None, sawFinal));
    } else {
      var head, tail := plain[..c.frameBytes], plain[c.frameBytes..];
      FramesStep(c, plain, index);
      ReadFull(c, head, c.Frames(tail, index + 1), Position(index, 0, None, sawFinal));
      FramesRoundTrip(c, tail, index + 1, false);
      assert head + tail == plain;
    }
  }

  lemma DecodeOwnHeader(frameBytes: nat)
    requires ValidFrameBytes(frameBytes)
    ensures DecodeHeaderCells(HeaderCells(frameBytes)) == Ok(frameBytes)
  {
    HeaderRoundTrip(frameBytes);
    var bytes, cells := EncodeHeader(frameBytes).value, HeaderCells(frameBytes);
    assert seq<byte>(|cells|, i requires 0 <= i < |cells| => cells[i].value) == bytes;
  }

  /** Opening what was sealed yields exactly the plaintext, and completes. */
  lemma RoundTrip(c: Context, plain: seq<byte>)
    requires c.Valid() && FrameCount(|plain|, c.frameBytes) <= INDEX_LIMIT
    ensures OpenWhole(c.key, c.versionId, c.Stored(plain)) == Outcome(plain, None)
  {
    hide Context.Frames, FrameCells, OpenFrames, DecodeHeaderCells;
    DecodeOwnHeader(c.frameBytes);
    FramesIsFrameCount(|plain|, c.frameBytes);
    FramesRoundTrip(c, plain, 0, false);
    var stored := c.Stored(plain);
    assert stored[..HEADER_BYTES] == HeaderCells(c.frameBytes);
    assert stored[HEADER_BYTES..] == c.Frames(plain, 0);
  }

  /**
   * End to end over real streams: any chunking of the input, sealed, and any re-chunking of the
   * stored bytes, opened, delivers the original content.
   */
  method SealThenOpen(c: Context, plaintext: seq<seq<byte>>, rechunk: seq<seq<Cell>>, configured: nat)
    returns (sealed: Result<seq<seq<Cell>>, Error>, pieces: seq<seq<byte>>, failure: Option<Error>)
    ensures sealed.Ok? <==> c.Valid() && FrameCount(|Flatten(plaintext)|, c.frameBytes) <= INDEX_LIMIT
    ensures sealed.Ok? && Flatten(rechunk) == Flatten(sealed.value) ==> Flatten(pieces) == Flatten(plaintext) && failure.None?
  {
    sealed := Seal(c, plaintext);
    pieces, failure := Open(configured, rechunk, c.key, c.versionId, None);
    if sealed.Ok? && Flatten(rechunk) == Flatten(sealed.value) {
      RoundTrip(c, Flatten(plaintext));
    }
  }

  // ----- layout

  lemma {:induction false} FramesSize(c: Context, plain: seq<byte>, index: nat)
    requires c.Valid()
    ensures HEADER_BYTES + |c.Frames(plain, index)| == CiphertextSize(|plain|, c.frameBytes)
    decreases |plain|
  {
    hide Context.Frames, FrameCells;
    if |plain| <= c.frameBytes {
      FramesLast(c, plain, index);
      SingleFrame(|plain|, c.frameBytes);
    } else {
      CiphertextSizeStep(|plain|, c.frameBytes);
      FramesStep(c, plain, index);
      FramesSize(c, plain[c.frameBytes..], index + 1);
    }
  }

  /** Counting `k` frames into the plaintext stays inside it and leaves the remaining frames. */
  lemma {:induction false} CountFrom(n: nat, frameBytes: nat, k: nat)
    requires frameBytes > 0 && k < Framing.Frames(n, frameBytes)
    ensures Times(k, frameBytes) <= n
    ensures Framing.Frames(n - Times(k, frameBytes), frameBytes) == Framing.Frames(n, frameBytes) - k
  {
    if k > 0 {
      CountFrom(n - frameBytes, frameBytes, k - 1);
    }
  }

  lemma DropOneFrame(c: Context, plain: seq<byte>, index: nat)
    requires |plain| > c.frameBytes > 0
    ensures |c.Frames(plain, index)| >= SealedFrameBytes(c.frameBytes)
    ensures c.Frames(plain, index)[SealedFrameBytes(c.frameBytes)..] == c.Frames(plain[c.frameBytes..], index + 1)
  {
    hide Context.Frames, FrameCells;
    FramesStep(c, plain, index);
    DropPast(FrameCells(c.Frame(plain[..c.frameBytes], index, false)), c.Frames(plain[c.frameBytes..], index + 1), 0);
  }

  /** Dropping `k` sealed frames leaves the frames of the plaintext with `k` frames dropped. */
  lemma {:induction false} FramesFrom(c: Context, plain: seq<byte>, index: nat, k: nat)
    requires c.Valid() && k < Framing.Frames(|plain|, c.frameBytes)
    ensures Times(k, SealedFrameBytes(c.frameBytes)) <= |c.Frames(plain, index)|
    ensures c.Frames(plain, index)[Times(k, SealedFrameBytes(c.frameBytes))..]
         == c.Frames(PlainFrom(plain, c.frameBytes, k), index + k)
    decreases k
  {
    hide Context.Frames, FrameCells;
    var fb, sb := c.frameBytes, SealedFrameBytes(c.frameBytes);
    if k > 0 {
      FramesFrom(c, plain, index, k - 1);
      CountFrom(|plain|, fb, k - 1);
      var before := PlainFrom(plain, fb, k - 1);
      DropOneFrame(c, before, index + k - 1);
      DropTwice(c.Frames(plain, index), Times(k - 1, sb), sb);
      DropTwice(plain, Times(k - 1, fb), fb);
    }
  }

  lemma DropPast<T>(a: seq<T>, b: seq<T>, n: nat)
    requires n <= |b|
    ensures (a + b)[|a| + n..] == b[n..]
  {
  }

  lemma DropTwice<T>(s: seq<T>, m: nat, n: nat)
    requires m + n <= |s|
    ensures s[m..][n..] == s[m + n..]
  {
  }

  /** The plaintext from frame `k` on. */
  ghost function PlainFrom(plain: seq<byte>, frameBytes: nat, k: nat): seq<byte> {
    Drop(plain, Times(k, frameBytes))
  }

  /** Frame `k` of the object sealed from `plain`: its slice of the plaintext, final exactly when last. */
  ghost function FrameAt(c: Context, plain: seq<byte>, k: nat): SealedFrame
    requires c.frameBytes > 0
  {
    c.Frame(Take(PlainFrom(plain, c.frameBytes, k), c.frameBytes), k, k + 1 == Framing.Frames(|plain|, c.frameBytes))
  }

  /** The last frame holds everything from its slice on. */
  lemma LastOfTail(c: Context, plain: seq<byte>, k: nat)
    requires c.Valid() && k + 1 == Framing.Frames(|plain|, c.frameBytes)
    ensures PlainFrom(plain, c.frameBytes, k) == FrameAt(c, plain, k).plain
    ensures |FrameAt(c, plain, k).plain| <= c.frameBytes
    ensures c.Frames(PlainFrom(plain, c.frameBytes, k), k) == FrameCells(FrameAt(c, plain, k))
  {
    hide Context.Frames, FrameCells;
    CountFrom(|plain|, c.frameBytes, k);
    var rest := PlainFrom(plain, c.frameBytes, k);
    assert |rest| <= c.frameBytes;
    FramesLast(c, rest, k);
    assert Take(rest, c.frameBytes) == rest;
  }

  /** Any other frame is full, and the frames after it continue where it stops. */
  lemma FirstOfTail(c: Context, plain: seq<byte>, k: nat)
    requires c.Valid() && k + 1 < Framing.Frames(|plain|, c.frameBytes)
    ensures |FrameAt(c, plain, k).plain| == c.frameBytes
    ensures PlainFrom(plain, c.frameBytes, k) == FrameAt(c, plain, k).plain + PlainFrom(plain, c.frameBytes, k + 1)
    ensures c.Frames(PlainFrom(plain, c.frameBytes, k), k)
         == FrameCells(FrameAt(c, plain, k)) + c.Frames(PlainFrom(plain, c.frameBytes, k + 1), k + 1)
  {
    hide Context.Frames, FrameCells;
    var fb := c.frameBytes;
    CountFrom(|plain|, fb, k);
    var rest := PlainFrom(plain, fb, k);
    assert |rest| > fb;
    FramesStep(c, rest, k);
    TimesStep(k, fb);
    DropTwice(plain, Times(k, fb), fb);
    assert rest == rest[..fb] + rest[fb..];
  }

  lemma {:induction false} TimesStep(k: nat, n: nat)
    ensures Times(k + 1, n) == Times(k, n) + n
  {
  }

  /**
   * The stored layout the offset arithmetic promises: the object is `CiphertextSize` long, and frame
   * `k` of `FrameCount` frames, sealed from the `k`-th slice of the plaintext and marked final exactly
   * when it is the last, starts at `CiphertextOffset(k)` and ends where the next one starts.
   */
  lemma Layout(c: Context, plain: seq<byte>, k: nat)
    requires c.Valid() && k < FrameCount(|plain|, c.frameBytes)
    ensures |c.Stored(plain)| == CiphertextSize(|plain|, c.frameBytes)
    ensures var last := k + 1 == FrameCount(|plain|, c.frameBytes);
            var frame := FrameCells(c.Frame(Take(Drop(plain, k * c.frameBytes), c.frameBytes), k, last));
            var start := CiphertextOffset(k, c.frameBytes);
            && start + |frame| == (if last then |c.Stored(plain)| else CiphertextOffset(k + 1, c.frameBytes))
            && start + |frame| <= |c.Stored(plain)|
            && c.Stored(plain)[start..start + |frame|] == frame
  {
    hide Context.Frames, FrameCells;
    var fb, sb := c.frameBytes, SealedFrameBytes(c.frameBytes);
    FramesSize(c, plain, 0);
    FramesIsFrameCount(|plain|, fb);
    TimesIsProduct(k, fb);
    TimesIsProduct(k, sb);
    TimesIsProduct(k + 1, sb);
    LayoutByCounting(c, plain, k);
  }

  lemma LayoutByCounting(c: Context, plain: seq<byte>, k: nat)
    requires c.Valid() && k < Framing.Frames(|plain|, c.frameBytes)
    ensures var frame := FrameCells(FrameAt(c, plain, k));
            var start := HEADER_BYTES + Times(k, SealedFrameBytes(c.frameBytes));
            && start + |frame| == (if k + 1 == Framing.Frames(|plain|, c.frameBytes) then |c.Stored(plain)|
                                   else HEADER_BYTES + Times(k + 1, SealedFrameBytes(c.frameBytes)))
            && start + |frame| <= |c.Stored(plain)|
            && c.Stored(plain)[start..start + |frame|] == frame
  {
    hide Context.Frames, FrameCells;
    var sb := SealedFrameBytes(c.frameBytes);
    FramesFrom(c, plain, 0, k);
    TimesStep(k, sb);
    var frame, frames := FrameCells(FrameAt(c, plain, k)), c.Frames(plain, 0);
    if k + 1 == Framing.Frames(|plain|, c.frameBytes) {
      LastOfTail(c, plain, k);
      FrameInObject(HeaderCells(c.frameBytes), frames, Times(k, sb), frame, []);
    } else {
      FirstOfTail(c, plain, k);
      FrameInObject(HeaderCells(c.frameBytes), frames, Times(k, sb), frame,
                    c.Frames(PlainFrom(plain, c.frameBytes, k + 1), k + 1));
    }
  }

  lemma FrameInObject<T>(header: seq<T>, frames: seq<T>, at: nat, frame: seq<T>, rest: seq<T>)
    requires at <= |frames| && frames[at..] == frame + rest
    ensures var start := |header| + at;
            start + |frame| + |rest| == |header + frames| && (header + frames)[start..start + |frame|] == frame
  {
    assert |frames[at..]| == |frame| + |rest|;
    forall j | 0 <= j < |frame|
      ensures (header + frames)[|header| + at + j] == frame[j]
    {
      assert frames[at..][j] == frame[j];
    }
  }

  // ----- tamper evidence

  /** One call of `seal`. */
  datatype Upload = Upload(context: Context, plain: seq<byte>) {
    ghost function Count(): nat
      requires context.frameBytes > 0
    {
      Framing.Frames(|plain|, context.frameBytes)
    }
  }

  /** Everything ever sealed under `key`, at most once per version id. */
  ghost predicate SealedUnder(key: Key, uploads: map<VersionId, Upload>) {
    forall v <- uploads ::
      && uploads[v].context.Valid() && uploads[v].context.key == key && uploads[v].context.versionId == v
      && uploads[v].Count() <= INDEX_LIMIT
  }

  ghost predicate FrameOf(f: SealedFrame, u: Upload) {
    u.context.frameBytes > 0 && exists k: nat :: k < u.Count() && f == FrameAt(u.context, u.plain, k)
  }

  /** Without the key, cells can be dropped, repeated, reordered or mixed, but no new frame can be made. */
  ghost predicate Unforged(key: Key, uploads: map<VersionId, Upload>, cells: seq<Cell>) {
    forall c <- cells :: c.Sealed? && c.frame.key == key ==> exists v <- uploads :: FrameOf(c.frame, uploads[v])
  }

  /** A frame that opens at a position is the frame that was sealed there. */
  lemma OpenedIsOwn(key: Key, uploads: map<VersionId, Upload>, v: VersionId, index: nat, sealed: seq<Cell>)
    requires SealedUnder(key, uploads) && v in uploads && Unforged(key, uploads, sealed)
    requires |sealed| >= NONCE_BYTES && OpenFrame(key, v, index, sealed).Ok?
    ensures index < uploads[v].Count()
    ensures sealed == FrameCells(FrameAt(uploads[v].context, uploads[v].plain, index))
    ensures OpenFrame(key, v, index, sealed).value
         == Opened(FrameAt(uploads[v].context, uploads[v].plain, index).plain, index + 1 == uploads[v].Count())
  {
    hide OpenFrame, FrameCells;
    OpenedIsWholeFrame(key, v, index, sealed);
    var got, f := OpenFrame(key, v, index, sealed).value, sealed[0].frame;
    assert sealed[0] in sealed;
    var v' :| v' in uploads && FrameOf(f, uploads[v']);
    var k: nat :| k < uploads[v'].Count() && f == FrameAt(uploads[v'].context, uploads[v'].plain, k);
    AssociatedDataInjective(v, index, got.final, v', k, k + 1 == uploads[v'].Count());
  }

  lemma UnforgedSlice(key: Key, uploads: map<VersionId, Upload>, cells: seq<Cell>, from: nat, to: nat)
    requires Unforged(key, uploads, cells) && from <= to <= |cells|
    ensures Unforged(key, uploads, cells[from..to])
  {
    forall c | c in cells[from..to]
      ensures c in cells
    {
    }
  }

  /** The frames of an upload from number `index` on; none past the last. */
  ghost function FramesOnward(u: Upload, index: nat): seq<Cell>
    requires u.context.frameBytes > 0
  {
    if index < u.Count() then u.context.Frames(PlainFrom(u.plain, u.context.frameBytes, index), index) else []
  }

  ghost function PlainOnward(u: Upload, index: nat): seq<byte>
    requires u.context.frameBytes > 0
  {
    if index < u.Count() then PlainFrom(u.plain, u.context.frameBytes, index) else []
  }

  /** Both split at every frame boundary. */
  lemma Onward(u: Upload, index: nat)
    requires u.context.Valid() && index < u.Count()
    ensures var f := FrameAt(u.context, u.plain, index);
            && PlainOnward(u, index) == f.plain + PlainOnward(u, index + 1)
            && FramesOnward(u, index) == FrameCells(f) + FramesOnward(u, index + 1)
            && |f.plain| <= u.context.frameBytes
            && (index + 1 < u.Count() ==> |f.plain| == u.context.frameBytes && FramesOnward(u, index + 1) != [])
  {
    hide Context.Frames, FrameCells;
    if index + 1 == u.Count() {
      LastOfTail(u.context, u.plain, index);
      var f := FrameAt(u.context, u.plain, index);
      assert f.plain + [] == f.plain && FrameCells(f) + [] == FrameCells(f);
    } else {
      FirstOfTail(u.context, u.plain, index);
    }
  }

  /** A prefix of the true content was emitted, and all of it only from the very frames that were sealed. */
  ghost predicate Authentic(u: Upload, frameBytes: nat, cells: seq<Cell>, index: nat, sawFinal: bool, o: Outcome)
    requires u.context.frameBytes > 0
  {
    && o.emitted <= PlainOnward(u, index)
    && (o.Complete() ==>
          && cells == FramesOnward(u, index)
          && o.emitted == PlainOnward(u, index)
          && (index < u.Count() || sawFinal)
          && (index + 1 < u.Count() ==> frameBytes == u.context.frameBytes)
          && (index + 1 == u.Count() ==> |PlainOnward(u, index)| <= frameBytes))
  }

  lemma AuthenticJoin(u: Upload, frameBytes: nat, tail: seq<Cell>, index: nat, sawFinal: bool, rest: Outcome)
    requires u.context.Valid() && index < u.Count()
    requires |FrameAt(u.context, u.plain, index).plain| <= frameBytes
    requires tail != [] ==> |FrameAt(u.context, u.plain, index).plain| == frameBytes
    requires Authentic(u, frameBytes, tail, index + 1, index + 1 == u.Count(), rest)
    ensures var f := FrameAt(u.context, u.plain, index);
            Authentic(u, frameBytes, FrameCells(f) + tail, index, sawFinal, Outcome(f.plain + rest.emitted, rest.failure))
  {
    hide Context.Frames, FrameCells;
    Onward(u, index);
    PrefixJoin(FrameAt(u.context, u.plain, index).plain, rest.emitted, PlainOnward(u, index + 1));
    if index + 1 == u.Count() {
      assert FrameAt(u.context, u.plain, index).plain + [] == FrameAt(u.context, u.plain, index).plain;
    }
  }

  lemma PrefixJoin<T>(a: seq<T>, b: seq<T>, c: seq<T>)
    requires b <= c
    ensures a + b <= a + c
  {
  }

  /** The next frame that opens is the one sealed here, and what follows it is still unforged. */
  lemma NextIsOwn(key: Key, uploads: map<VersionId, Upload>, v: VersionId, frameBytes: nat, cells: seq<Cell>, index: nat)
    requires SealedUnder(key, uploads) && v in uploads && Unforged(key, uploads, cells)
    requires NextCut(cells, frameBytes).Frame? && OpenFrame(key, v, index, NextCut(cells, frameBytes).sealed).Ok?
    ensures var u, sealed := uploads[v], NextCut(cells, frameBytes).sealed;
            && index < u.Count()
            && sealed == FrameCells(FrameAt(u.context, u.plain, index))
            && OpenFrame(key, v, index, sealed).value
               == Opened(FrameAt(u.context, u.plain, index).plain, index + 1 == u.Count())
            && Unforged(key, uploads, cells[|sealed|..])
  {
    hide OpenFrame, FrameCells, Unforged, SealedUnder;
    var sealed := NextCut(cells, frameBytes).sealed;
    UnforgedSlice(key, uploads, cells, 0, |sealed|);
    UnforgedSlice(key, uploads, cells, |sealed|, |cells|);
    assert cells[0..|sealed|] == sealed && cells[|sealed|..|cells|] == cells[|sealed|..];
    OpenedIsOwn(key, uploads, v, index, sealed);
  }

  lemma ReadStops(key: Key, u: Upload, frameBytes: nat, cells: seq<Cell>, index: nat, sawFinal: bool)
    requires u.context.frameBytes > 0 && (sawFinal ==> index == u.Count())
    requires var cut := NextCut(cells, frameBytes);
             cut.Frame? ==> OpenFrame(key, u.context.versionId, index, cut.sealed).Err?
    ensures Authentic(u, frameBytes, cells, index, sawFinal,
                      OpenFrames(Reading(key, u.context.versionId, frameBytes), cells, Position(index, 0, None, sawFinal)))
  {
    OpenEnds(Reading(key, u.context.versionId, frameBytes), cells, Position(index, 0, None, sawFinal));
  }

  lemma ReadContinues(key: Key, u: Upload, frameBytes: nat, cells: seq<Cell>, index: nat, sawFinal: bool)
    requires u.context.Valid() && index < u.Count()
    requires NextCut(cells, frameBytes) == Frame(FrameCells(FrameAt(u.context, u.plain, index)))
    requires OpenFrame(key, u.context.versionId, index, FrameCells(FrameAt(u.context, u.plain, index)))
          == Ok(Opened(FrameAt(u.context, u.plain, index).plain, index + 1 == u.Count()))
    requires var tail := cells[|FrameCells(FrameAt(u.context, u.plain, index))|..];
             Authentic(u, frameBytes, tail, index + 1, index + 1 == u.Count(),
                       OpenFrames(Reading(key, u.context.versionId, frameBytes), tail,
                                  Position(index + 1, 0, None, index + 1 == u.Count())))
    ensures Authentic(u, frameBytes, cells, index, sawFinal,
                      OpenFrames(Reading(key, u.context.versionId, frameBytes), cells, Position(index, 0, None, sawFinal)))
  {
    hide Context.Frames, FrameCells, OpenFrames, OpenFrame, Authentic;
    var r, last := Reading(key, u.context.versionId, frameBytes), index + 1 == u.Count();
    var tail := cells[|FrameCells(FrameAt(u.context, u.plain, index))|..];
    AuthenticStep(r, cells, Position(index, 0, None, sawFinal));
    AuthenticJoin(u, frameBytes, tail, index, sawFinal, OpenFrames(r, tail, Position(index + 1, 0, None, last)));
  }

  /** However the stored frames were rearranged, every read is authentic. */
  lemma {:induction false} ReadIsAuthentic(key: Key, uploads: map<VersionId, Upload>, v: VersionId, frameBytes: nat,
                                           cells: seq<Cell>, index: nat, sawFinal: bool)
    requires SealedUnder(key, uploads) && v in uploads && Unforged(key, uploads, cells)
    requires sawFinal ==> index == uploads[v].Count()
    ensures Authentic(uploads[v], frameBytes, cells, index, sawFinal,
                      OpenFrames(Reading(key, v, frameBytes), cells, Position(index, 0, None, sawFinal)))
    decreases |cells|, 1
  {
    hide Context.Frames, FrameCells, OpenFrames, OpenFrame, Authentic, Unforged, NextCut;
    var u, cut := uploads[v], NextCut(cells, frameBytes);
    if !cut.Frame? || OpenFrame(key, v, index, cut.sealed).Err? {
      ReadStops(key, u, frameBytes, cells, index, sawFinal);
    } else {
      NextIsAuthentic(key, uploads, v, frameBytes, cells, index, sawFinal);
    }
  }

  lemma {:induction false} NextIsAuthentic(key: Key, uploads: map<VersionId, Upload>, v: VersionId, frameBytes: nat,
                                           cells: seq<Cell>, index: nat, sawFinal: bool)
    requires SealedUnder(key, uploads) && v in uploads && Unforged(key, uploads, cells)
    requires NextCut(cells, frameBytes).Frame? && OpenFrame(key, v, index, NextCut(cells, frameBytes).sealed).Ok?
    ensures Authentic(uploads[v], frameBytes, cells, index, sawFinal,
                      OpenFrames(Reading(key, v, frameBytes), cells, Position(index, 0, None, sawFinal)))
    decreases |cells|, 0
  {
    hide Context.Frames, FrameCells, OpenFrames, OpenFrame, Authentic, Unforged, NextCut;
    var u, cut := uploads[v], NextCut(cells, frameBytes);
    NextIsOwn(key, uploads, v, frameBytes, cells, index);
    ReadIsAuthentic(key, uploads, v, frameBytes, cells[|cut.sealed|..], index + 1, index + 1 == u.Count());
    ReadContinues(key, u, frameBytes, cells, index, sawFinal);
  }

  lemma AuthenticStep(r: Reading, cells: seq<Cell>, at: Position)
    requires NextCut(cells, r.frameBytes).Frame? && at.remaining.None? && at.leadSkip == 0
    requires OpenFrame(r.key, r.versionId, at.index, NextCut(cells, r.frameBytes).sealed).Ok?
    ensures var sealed := NextCut(cells, r.frameBytes).sealed;
            var got := OpenFrame(r.key, r.versionId, at.index, sealed).value;
            var rest := OpenFrames(r, cells[|sealed|..], Position(at.index + 1, 0, None, got.final));
            && OpenFrames(r, cells, at) == Outcome(got.data + rest.emitted, rest.failure)
            && cells == sealed + cells[|sealed|..]
            && (|cells[|sealed|..]| > 0 ==> |sealed| == SealedFrameBytes(r.frameBytes))
            && |sealed| <= SealedFrameBytes(r.frameBytes)
  {
    var got := OpenFrame(r.key, r.versionId, at.index, NextCut(cells, r.frameBytes).sealed).value;
    assert Drop(got.data, 0) == got.data;
  }

  lemma DecodedHeaderIsOwn(cells: seq<Cell>, frameBytes: nat)
    requires |cells| == HEADER_BYTES && DecodeHeaderCells(cells) == Ok(frameBytes)
    ensures ValidFrameBytes(frameBytes) && cells == HeaderCells(frameBytes)
  {
    var bytes := seq<byte>(|cells|, i requires 0 <= i < |cells| => cells[i].value);
    HeaderUnique(bytes, frameBytes);
    HeaderRoundTrip(frameBytes);
    forall i | 0 <= i < |cells|
      ensures cells[i] == HeaderCells(frameBytes)[i]
    {
      assert cells[i] in cells;
    }
  }

  /** A frame size other than the sealed one is harmless exactly when all content sits in one frame of either size. */
  ghost predicate InterchangeableHeader(u: Upload, frameBytes: nat) {
    frameBytes == u.context.frameBytes || |u.plain| <= Min(frameBytes, u.context.frameBytes)
  }

  /**
   * A whole-object read emits only true content, and completes exactly on the sealed frames behind a
   * header of the sealed frame size, or of one that makes no difference.
   */
  lemma OnlyTheSealedObjectOpens(key: Key, uploads: map<VersionId, Upload>, v: VersionId, cells: seq<Cell>)
    requires SealedUnder(key, uploads) && v in uploads && Unforged(key, uploads, cells)
    ensures OpenWhole(key, v, cells).emitted <= uploads[v].plain
    ensures OpenWhole(key, v, cells).Complete() ==> OpenWhole(key, v, cells).emitted == uploads[v].plain
    ensures OpenWhole(key, v, cells).Complete() <==>
            exists frameBytes: nat :: ValidFrameBytes(frameBytes) && InterchangeableHeader(uploads[v], frameBytes)
              && cells == HeaderCells(frameBytes) + uploads[v].context.Frames(uploads[v].plain, 0)
  {
    hide Context.Frames, FrameCells, OpenFrames, HeaderCells, DecodeHeaderCells, Unforged;
    var u := uploads[v];
    assert PlainFrom(u.plain, u.context.frameBytes, 0) == u.plain;
    if |cells| >= HEADER_BYTES && DecodeHeaderCells(cells[..HEADER_BYTES]).Ok? {
      var frameBytes := DecodeHeaderCells(cells[..HEADER_BYTES]).value;
      DecodedHeaderIsOwn(cells[..HEADER_BYTES], frameBytes);
      UnforgedSlice(key, uploads, cells, HEADER_BYTES, |cells|);
      assert cells[HEADER_BYTES..|cells|] == cells[HEADER_BYTES..];
      ReadIsAuthentic(key, uploads, v, frameBytes, cells[HEADER_BYTES..], 0, false);
      assert cells == cells[..HEADER_BYTES] + cells[HEADER_BYTES..];
    }
    forall frameBytes: nat | ValidFrameBytes(frameBytes) && InterchangeableHeader(u, frameBytes)
                        && cells == HeaderCells(frameBytes) + u.context.Frames(u.plain, 0)
      ensures OpenWhole(key, v, cells).Complete()
    {
      InterchangeableOpens(u, frameBytes);
    }
  }

  lemma InterchangeableOpens(u: Upload, frameBytes: nat)
    requires u.context.Valid() && ValidFrameBytes(frameBytes) && InterchangeableHeader(u, frameBytes)
    requires u.Count() <= INDEX_LIMIT
    ensures OpenWhole(u.context.key, u.context.versionId, HeaderCells(frameBytes) + u.context.Frames(u.plain, 0))
         == Outcome(u.plain, None)
  {
    var c := u.context.(frameBytes := frameBytes);
    assert c.Frames(u.plain, 0) == u.context.Frames(u.plain, 0);
    FramesIsFrameCount(|u.plain|, frameBytes);
    RoundTrip(c, u.plain);
  }

  /** With the header intact: every stream but the sealed object itself ends in a failure. */
  lemma AnyChangeIsDetected(key: Key, uploads: map<VersionId, Upload>, v: VersionId, cells: seq<Cell>)
    requires SealedUnder(key, uploads) && v in uploads && Unforged(key, uploads, cells)
    requires cells[..Min(HEADER_BYTES, |cells|)] <= HeaderCells(uploads[v].context.frameBytes)
    ensures OpenWhole(key, v, cells).Complete() <==> cells == uploads[v].context.Stored(uploads[v].plain)
  {
    hide Context.Frames, FrameCells, OpenWhole, HeaderCells, DecodeHeaderCells, Unforged;
    var u := uploads[v];
    OnlyTheSealedObjectOpens(key, uploads, v, cells);
    FramesIsFrameCount(|u.plain|, u.context.frameBytes);
    RoundTrip(u.context, u.plain);
    if OpenWhole(key, v, cells).Complete() {
      var frameBytes: nat :| ValidFrameBytes(frameBytes) && InterchangeableHeader(u, frameBytes)
        && cells == HeaderCells(frameBytes) + u.context.Frames(u.plain, 0);
      assert cells[..HEADER_BYTES] == HeaderCells(frameBytes);
      DecodeOwnHeader(frameBytes);
      DecodeOwnHeader(u.context.frameBytes);
    }
  }

  lemma StoredIsUnforged(key: Key, uploads: map<VersionId, Upload>, v: VersionId)
    requires SealedUnder(key, uploads) && v in uploads
    ensures Unforged(key, uploads, uploads[v].context.Stored(uploads[v].plain))
  {
    var u := uploads[v];
    OnwardIsUnforged(key, uploads, v, 0);
    assert PlainFrom(u.plain, u.context.frameBytes, 0) == u.plain;
  }

  lemma {:induction false} OnwardIsUnforged(key: Key, uploads: map<VersionId, Upload>, v: VersionId, index: nat)
    requires SealedUnder(key, uploads) && v in uploads
    ensures Unforged(key, uploads, FramesOnward(uploads[v], index))
    decreases uploads[v].Count() - index
  {
    hide Context.Frames, FrameCells;
    var u := uploads[v];
    if index < u.Count() {
      var f := FrameAt(u.context, u.plain, index);
      Onward(u, index);
      OnwardIsUnforged(key, uploads, v, index + 1);
      assert FrameOf(f, u);
      UnforgedJoin(key, uploads, f, v, FramesOnward(u, index + 1));
    }
  }

  lemma UnforgedJoin(key: Key, uploads: map<VersionId, Upload>, f: SealedFrame, v: VersionId, rest: seq<Cell>)
    requires v in uploads && FrameOf(f, uploads[v]) && Unforged(key, uploads, rest)
    ensures Unforged(key, uploads, FrameCells(f) + rest)
  {
    forall c | c in FrameCells(f) + rest
      ensures c in rest || (c.Sealed? && c.frame == f)
    {
    }
  }

  /** Truncation: no proper prefix of a stored object opens to completion. */
  lemma EveryTruncationIsDetected(key: Key, uploads: map<VersionId, Upload>, v: VersionId, length: nat)
    requires SealedUnder(key, uploads) && v in uploads
    requires length < |uploads[v].context.Stored(uploads[v].plain)|
    ensures !OpenWhole(key, v, uploads[v].context.Stored(uploads[v].plain)[..length]).Complete()
  {
    hide Context.Frames, FrameCells, OpenWhole, Unforged;
    var stored := uploads[v].context.Stored(uploads[v].plain);
    StoredIsUnforged(key, uploads, v);
    UnforgedSlice(key, uploads, stored, 0, length);
    assert stored[0..length] == stored[..length];
    AnyChangeIsDetected(key, uploads, v, stored[..length]);
  }

  /** Substitution: the object of one version never opens as another. */
  lemma EverySubstitutionIsDetected(key: Key, uploads: map<VersionId, Upload>, v: VersionId, w: VersionId)
    requires SealedUnder(key, uploads) && v in uploads && w in uploads && v != w
    ensures !OpenWhole(key, v, uploads[w].context.Stored(uploads[w].plain)).Complete()
  {
    var stored := uploads[w].context.Stored(uploads[w].plain);
    StoredIsUnforged(key, uploads, w);
    OnlyTheSealedObjectOpens(key, uploads, v, stored);
    if OpenWhole(key, v, stored).Complete() {
      assert stored[HEADER_BYTES..] == uploads[w].context.Frames(uploads[w].plain, 0);
      var frameBytes: nat :| ValidFrameBytes(frameBytes) && stored == HeaderCells(frameBytes) + uploads[v].context.Frames(uploads[v].plain, 0);
      assert stored[HEADER_BYTES..] == uploads[v].context.Frames(uploads[v].plain, 0);
      FirstCell(uploads[v]);
      FirstCell(uploads[w]);
      AssociatedDataInjective(v, 0, uploads[v].Count() == 1, w, 0, uploads[w].Count() == 1);
    }
  }

  lemma FirstCell(u: Upload)
    requires u.context.Valid()
    ensures u.context.Frames(u.plain, 0)[0] == Sealed(FrameAt(u.context, u.plain, 0), 0)
  {
    Onward(u, 0);
    assert PlainFrom(u.plain, u.context.frameBytes, 0) == u.plain;
  }
}
