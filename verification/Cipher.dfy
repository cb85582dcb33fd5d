/**
 * Framed content sealing over a symbolic AEAD.
 *
 * A stored byte is a cell: a raw header byte, or "byte `offset` of this sealed frame". Decryption
 * succeeds exactly on the cells of one whole frame sealed under the same key and associated data
 * (sections 2.1 and 2.2 of RFC 5116). Random nonces are a parameter.
 */
module Cipher {
  import opened Prelude
  import opened Framing

  type Key = nat
  type Nonce = seq<byte>
  type VersionId = seq<byte>

  datatype SealedFrame = SealedFrame(key: Key, nonce: Nonce, aad: seq<byte>, plain: seq<byte>)
  datatype Cell = Raw(value: byte) | Sealed(frame: SealedFrame, offset: nat)

  /** Nonce, ciphertext and tag of one frame, as stored. */
  function FrameCells(f: SealedFrame): (cells: seq<Cell>)
    ensures |cells| == |f.plain| + FRAME_OVERHEAD
    ensures cells[0] == Sealed(f, 0)
  {
    seq(|f.plain| + FRAME_OVERHEAD, j requires 0 <= j => Sealed(f, j))
  }

  function Decrypt(key: Key, nonce: seq<Cell>, body: seq<Cell>, aad: seq<byte>): Option<seq<byte>> {
    var whole := nonce + body;
    if whole != [] && whole[0].Sealed? && whole == FrameCells(whole[0].frame)
       && whole[0].frame.key == key && whole[0].frame.aad == aad
    then Some(whole[0].frame.plain)
    else None
  }

  // ----- specification of a sealed object

  /** Everything one call of `seal` fixes besides its input. */
  datatype Context = Context(key: Key, versionId: VersionId, frameBytes: nat, nonces: nat -> Nonce) {
    predicate Valid() {
      ValidFrameBytes(frameBytes)
    }

    function Frame(plain: seq<byte>, index: nat, final: bool): SealedFrame {
      SealedFrame(key, nonces(index), AssociatedData(versionId, index, final), plain)
    }

    /** The frames of `plain`, the first of them numbered `index`. */
    function Frames(plain: seq<byte>, index: nat): (cells: seq<Cell>)
      requires frameBytes > 0
      ensures |cells| >= FRAME_OVERHEAD
      decreases |plain|
    {
      if |plain| <= frameBytes then
        FrameCells(Frame(plain, index, true))
      else
        FrameCells(Frame(plain[..frameBytes], index, false)) + Frames(plain[frameBytes..], index + 1)
    }

    /** The stored object: header, then every frame. */
    function Stored(plain: seq<byte>): seq<Cell>
      requires Valid()
    {
      HeaderCells(frameBytes) + Frames(plain, 0)
    }
  }

  function HeaderCells(frameBytes: nat): (cells: seq<Cell>)
    requires ValidFrameBytes(frameBytes)
    ensures |cells| == HEADER_BYTES
  {
    HeaderRoundTrip(frameBytes);
    RawCells(EncodeHeader(frameBytes).value)
  }

  function RawCells(bytes: seq<byte>): seq<Cell> {
    seq(|bytes|, i requires 0 <= i < |bytes| => Raw(bytes[i]))
  }

  /** An object stored as it was sent, read back as bytes. */
  function PlainBytes(cells: seq<Cell>): Option<seq<byte>> {
    if forall i :: 0 <= i < |cells| ==> cells[i].Raw? then Some(seq(|cells|, i requires 0 <= i < |cells| => cells[i].value)) else None
  }

  lemma PlainOfRaw(bytes: seq<byte>)
    ensures PlainBytes(RawCells(bytes)) == Some(bytes)
  {
    assert PlainBytes(RawCells(bytes)).value == bytes;
  }

  // ----- sealing a chunked stream

  /** What has been emitted, followed by the frames of what is still pending, is the whole object. */
  ghost predicate Sealing(c: Context, plain: seq<byte>, out: seq<seq<Cell>>, pending: seq<byte>, index: nat)
    requires c.Valid()
  {
    && Flatten(out) + c.Frames(pending, index) == c.Stored(plain)
    && index + FrameCount(|pending|, c.frameBytes) == FrameCount(|plain|, c.frameBytes)
  }

  lemma SealingStarts(c: Context, plain: seq<byte>)
    requires c.Valid()
    ensures Sealing(c, plain, [HeaderCells(c.frameBytes)], plain, 0)
  {
    assert Flatten([HeaderCells(c.frameBytes)]) == HeaderCells(c.frameBytes) + Flatten<Cell>([]);
  }

  lemma SealingAdvances(c: Context, plain: seq<byte>, out: seq<seq<Cell>>, pending: seq<byte>, index: nat)
    requires c.Valid() && |pending| > c.frameBytes
    requires Sealing(c, plain, out, pending, index)
    ensures Sealing(c, plain, out + [FrameCells(c.Frame(pending[..c.frameBytes], index, false))],
                    pending[c.frameBytes..], index + 1)
  {
    hide Context.Frames, FrameCells;
    var frame := FrameCells(c.Frame(pending[..c.frameBytes], index, false));
    FrameCountStep(|pending|, c.frameBytes);
    FlattenAppend(out, frame);
    FramesStep(c, pending, index);
    Associative(Flatten(out), frame, c.Frames(pending[c.frameBytes..], index + 1));
  }

  lemma FramesLast(c: Context, plain: seq<byte>, index: nat)
    requires |plain| <= c.frameBytes && c.frameBytes > 0
    ensures c.Frames(plain, index) == FrameCells(c.Frame(plain, index, true))
  {
  }

  lemma FramesStep(c: Context, plain: seq<byte>, index: nat)
    requires |plain| > c.frameBytes > 0
    ensures c.Frames(plain, index)
         == FrameCells(c.Frame(plain[..c.frameBytes], index, false)) + c.Frames(plain[c.frameBytes..], index + 1)
  {
  }

  lemma SliceOfFront<T>(a: seq<T>, b: seq<T>, n: nat)
    requires n <= |a|
    ensures (a + b)[..n] == a[..n] && (a + b)[n..] == a[n..] + b
  {
  }

  lemma Associative<T>(a: seq<T>, b: seq<T>, c: seq<T>)
    ensures a + b + c == a + (b + c)
  {
  }

  lemma SealingEnds(c: Context, plain: seq<byte>, out: seq<seq<Cell>>, pending: seq<byte>, index: nat)
    requires c.Valid() && |pending| <= c.frameBytes
    requires Sealing(c, plain, out, pending, index)
    ensures Flatten(out + [FrameCells(c.Frame(pending, index, true))]) == c.Stored(plain)
    ensures FrameCount(|plain|, c.frameBytes) == index + 1
  {
    hide Context.Frames, FrameCells;
    FramesLast(c, pending, index);
    SingleFrame(|pending|, c.frameBytes);
    FlattenAppend(out, FrameCells(c.Frame(pending, index, true)));
  }

  lemma SealingOverflows(c: Context, plain: seq<byte>, out: seq<seq<Cell>>, pending: seq<byte>, index: nat)
    requires c.Valid() && index >= INDEX_LIMIT
    requires Sealing(c, plain, out, pending, index)
    ensures FrameCount(|plain|, c.frameBytes) > INDEX_LIMIT
  {
    FrameCountPositive(|pending|, c.frameBytes);
  }

  /**
   * Frames and seals a plaintext stream whatever its chunking. A frame leaves only once more input
   * is known to follow, so the last one can be marked final.
   */
  method Seal(c: Context, plaintext: seq<seq<byte>>) returns (r: Result<seq<seq<Cell>>, Error>)
    ensures !c.Valid() ==> r == Err(Validation)
    ensures c.Valid() && FrameCount(|Flatten(plaintext)|, c.frameBytes) > INDEX_LIMIT ==> r == Err(Overflow)
    ensures c.Valid() && FrameCount(|Flatten(plaintext)|, c.frameBytes) <= INDEX_LIMIT ==>
              r.Ok? && Flatten(r.value) == c.Stored(Flatten(plaintext))
  {
    hide Sealing, Context.Frames, FrameCells;
    if !c.Valid() {
      return Err(Validation);
    }
    ghost var plain := Flatten(plaintext);
    ghost var pending := plain;
    var out := [HeaderCells(c.frameBytes)];
    var buffer: seq<byte> := [];
    var index: nat := 0;
    var source := plaintext;
    SealingStarts(c, plain);
    while source != []
      invariant |buffer| <= c.frameBytes && index <= INDEX_LIMIT
      invariant pending == buffer + Flatten(source)
      invariant Sealing(c, plain, out, pending, index)
      decreases |source|
    {
      Associative(buffer, source[0], Flatten(source[1..]));
      buffer := buffer + source[0];
      source := source[1..];
      while |buffer| > c.frameBytes
        invariant index <= INDEX_LIMIT
        invariant pending == buffer + Flatten(source)
        invariant Sealing(c, plain, out, pending, index)
        decreases |buffer|
      {
        if index == INDEX_LIMIT {
          SealingOverflows(c, plain, out, pending, index);
          return Err(Overflow);
        }
        SealingAdvances(c, plain, out, pending, index);
        SliceOfFront(buffer, Flatten(source), c.frameBytes);
        out := out + [FrameCells(c.Frame(buffer[..c.frameBytes], index, false))];
        buffer := buffer[c.frameBytes..];
        pending := pending[c.frameBytes..];
        index := index + 1;
      }
    }
    assert pending == buffer;
    if index == INDEX_LIMIT {
      SealingOverflows(c, plain, out, pending, index);
      return Err(Overflow);
    }
    SealingEnds(c, plain, out, pending, index);
    r := Ok(out + [FrameCells(c.Frame(buffer, index, true))]);
  }

  lemma FrameCountPositive(n: nat, frameBytes: nat)
    requires frameBytes > 0
    ensures FrameCount(n, frameBytes) >= 1
  {
    if n > 0 {
      DivModStep(n - 1, frameBytes);
    }
  }

  // ----- specification of opening

  datatype Opened = Opened(data: seq<byte>, final: bool)

  /** A frame is tried as non-final, then as final: the flag is authenticated and can only be guessed. */
  function OpenFrame(key: Key, versionId: VersionId, index: nat, sealed: seq<Cell>): Result<Opened, Error>
    requires |sealed| >= NONCE_BYTES
  {
    if index >= INDEX_LIMIT then Err(Overflow)
    else
      var nonce, body := sealed[..NONCE_BYTES], sealed[NONCE_BYTES..];
      match Decrypt(key, nonce, body, AssociatedData(versionId, index, false))
      case Some(plain) => Ok(Opened(plain, false))
      case None =>
        match Decrypt(key, nonce, body, AssociatedData(versionId, index, true))
        case Some(plain) => Ok(Opened(plain, true))
        case None => Err(Integrity)
  }

  /** What a read delivered, and how it ended. */
  datatype Outcome = Outcome(emitted: seq<byte>, failure: Option<Error>) {
    predicate Complete() { failure.None? }
  }

  /** What the reader hands out next from the cells it has left. */
  datatype Cut = Frame(sealed: seq<Cell>) | MidFrame | End

  function NextCut(cells: seq<Cell>, frameBytes: nat): (cut: Cut)
    ensures cut.Frame? ==> FRAME_OVERHEAD <= |cut.sealed| <= |cells| && cut.sealed == cells[..|cut.sealed|]
  {
    if |cells| >= SealedFrameBytes(frameBytes) then Frame(cells[..SealedFrameBytes(frameBytes)])
    else if |cells| > FRAME_OVERHEAD - 1 then Frame(cells)
    else if cells != [] then MidFrame
    else End
  }

  function Drop<T>(s: seq<T>, n: nat): seq<T> { if n <= |s| then s[n..] else [] }

  function Take<T>(s: seq<T>, n: nat): seq<T> { if n <= |s| then s[..n] else s }

  /** The part of a frame's plaintext a read hands on. */
  function Piece(data: seq<byte>, leadSkip: nat, remaining: Option<nat>): (piece: seq<byte>)
    ensures remaining.Some? ==> |piece| <= remaining.value
  {
    var tail := Drop(data, leadSkip);
    if remaining.Some? then Take(tail, remaining.value) else tail
  }

  function Spend(remaining: Option<nat>, piece: seq<byte>): Option<nat>
    requires remaining.Some? ==> |piece| <= remaining.value
  {
    if remaining.Some? then Some(remaining.value - |piece|) else None
  }

  /** What a read holds fixed. */
  datatype Reading = Reading(key: Key, versionId: VersionId, frameBytes: nat)

  /** Where a read stands; `remaining` is absent for a whole-object read. */
  datatype Position = Position(index: nat, leadSkip: nat, remaining: Option<nat>, sawFinal: bool)

  function WholeStart(): Position {
    Position(0, 0, None, false)
  }

  function SpanStart(span: FrameSpan): Position {
    Position(span.firstIndex, span.leadSkip, Some(span.take), false)
  }

  function OpenFrames(r: Reading, cells: seq<Cell>, at: Position): Outcome
    decreases |cells|
  {
    match NextCut(cells, r.frameBytes)
    case End => Outcome([], if at.remaining.None? && !at.sawFinal then Some(Integrity) else None)
    case MidFrame => Outcome([], Some(Integrity))
    case Frame(sealed) =>
      match OpenFrame(r.key, r.versionId, at.index, sealed)
      case Err(e) => Outcome([], Some(e))
      case Ok(got) =>
        var piece := Piece(got.data, at.leadSkip, at.remaining);
        var left := Spend(at.remaining, piece);
        if left == Some(0) then Outcome(piece, None)
        else
          var rest := OpenFrames(r, cells[|sealed|..], Position(at.index + 1, 0, left, got.final));
          Outcome(piece + rest.emitted, rest.failure)
  }

  /** Header bytes are raw cells; a frame's cell never passes for one. */
  function DecodeHeaderCells(cells: seq<Cell>): Result<nat, Error> {
    if forall c <- cells :: c.Raw? then
      DecodeHeader(seq<byte>(|cells|, i requires 0 <= i < |cells| => cells[i].value))
    else
      Err(Integrity)
  }

  /** A whole-object read: the frame size comes from the object's own header. */
  function OpenWhole(key: Key, versionId: VersionId, cells: seq<Cell>): Outcome {
    if |cells| < HEADER_BYTES then Outcome([], Some(Integrity))
    else
      match DecodeHeaderCells(cells[..HEADER_BYTES])
      case Err(e) => Outcome([], Some(e))
      case Ok(frameBytes) => OpenFrames(Reading(key, versionId, frameBytes), cells[HEADER_BYTES..], WholeStart())
  }

  /** A range read: only the span's frames were fetched, and the configured frame size applies. */
  function OpenSpan(key: Key, versionId: VersionId, frameBytes: nat, cells: seq<Cell>, span: FrameSpan): Outcome {
    OpenFrames(Reading(key, versionId, frameBytes), cells, SpanStart(span))
  }

  // ----- opening a chunked stream

  /** Reassembles whole sealed frames from an arbitrary chunking of the stored bytes. */
  class FrameReader {
    var source: seq<seq<Cell>>
    var buffer: seq<Cell>

    ghost function Unread(): seq<Cell>
      reads this
    {
      buffer + Flatten(source)
    }

    constructor (source: seq<seq<Cell>>)
      ensures Unread() == Flatten(source)
    {
      this.source := source;
      this.buffer := [];
    }

    method Pull(wanted: nat) returns (enough: bool)
      modifies this
      ensures Unread() == old(Unread())
      ensures enough ==> |buffer| >= wanted
      ensures !enough ==> |buffer| < wanted && buffer == Unread()
      ensures enough == (|old(Unread())| >= wanted)
    {
      while |buffer| < wanted
        invariant Unread() == old(Unread())
        decreases |source|
      {
        if source == [] {
          return false;
        }
        assert Unread() == buffer + (source[0] + Flatten(source[1..]));
        buffer := buffer + source[0];
        source := source[1..];
      }
      return true;
    }

    method FrameSize() returns (r: Result<nat, Error>)
      modifies this
      ensures |old(Unread())| < HEADER_BYTES ==> r == Err(Integrity)
      ensures |old(Unread())| >= HEADER_BYTES ==>
                r == DecodeHeaderCells(old(Unread())[..HEADER_BYTES]) && Unread() == old(Unread())[HEADER_BYTES..]
    {
      var enough := Pull(HEADER_BYTES);
      if !enough {
        return Err(Integrity);
      }
      var header := buffer[..HEADER_BYTES];
      assert header == Unread()[..HEADER_BYTES];
      buffer := buffer[HEADER_BYTES..];
      return DecodeHeaderCells(header);
    }

    method NextFrame(frameBytes: nat) returns (cut: Cut)
      modifies this
      ensures cut == NextCut(old(Unread()), frameBytes)
      ensures cut.Frame? ==> Unread() == old(Unread())[|cut.sealed|..]
    {
      var size := SealedFrameBytes(frameBytes);
      var enough := Pull(size);
      if !enough {
        if |buffer| > FRAME_OVERHEAD - 1 {
          cut := Frame(buffer);
          assert Flatten(source) == [] by { assert |Unread()| == |buffer| + |Flatten(source)|; }
          buffer := [];
        } else if buffer != [] {
          cut := MidFrame;
        } else {
          cut := End;
        }
        return;
      }
      cut := Frame(buffer[..size]);
      assert cut.sealed == Unread()[..size];
      buffer := buffer[size..];
    }
  }

  /** The frame loop of `Open`, from the reader's current position. */
  method ReadFrames(reader: FrameReader, r: Reading, start: Position) returns (pieces: seq<seq<byte>>, failure: Option<Error>)
    modifies reader
    ensures Outcome(Flatten(pieces), failure) == OpenFrames(r, old(reader.Unread()), start)
  {
    hide OpenFrames, NextCut, OpenFrame, Piece;
    pieces := [];
    var at := start;
    ghost var goal := OpenFrames(r, reader.Unread(), start);
    assert goal == Prepend(pieces, goal);
    while true
      invariant at.remaining.Some? == start.remaining.Some?
      invariant goal == Prepend(pieces, OpenFrames(r, reader.Unread(), at))
      decreases |reader.Unread()|
    {
      ghost var unread := reader.Unread();
      var cut := reader.NextFrame(r.frameBytes);
      if cut.End? {
        OpenEnds(r, unread, at);
        return pieces, if start.remaining.None? && !at.sawFinal then Some(Integrity) else None;
      }
      if cut.MidFrame? {
        OpenEnds(r, unread, at);
        return pieces, Some(Integrity);
      }
      var got := OpenFrame(r.key, r.versionId, at.index, cut.sealed);
      if got.Err? {
        OpenEnds(r, unread, at);
        return pieces, Some(got.error);
      }
      var piece := Piece(got.value.data, at.leadSkip, at.remaining);
      OpenContinues(r, unread, at, pieces);
      if piece != [] {
        pieces := pieces + [piece];
      }
      at := Position(at.index + 1, 0, Spend(at.remaining, piece), got.value.final);
      if at.remaining == Some(0) {
        return pieces, None;
      }
    }
  }

  lemma OpenEnds(r: Reading, cells: seq<Cell>, at: Position)
    ensures NextCut(cells, r.frameBytes).End? ==>
              OpenFrames(r, cells, at) == Outcome([], if at.remaining.None? && !at.sawFinal then Some(Integrity) else None)
    ensures NextCut(cells, r.frameBytes).MidFrame? ==> OpenFrames(r, cells, at) == Outcome([], Some(Integrity))
    ensures var cut := NextCut(cells, r.frameBytes);
            cut.Frame? ==> var got := OpenFrame(r.key, r.versionId, at.index, cut.sealed);
                           got.Err? ==> OpenFrames(r, cells, at) == Outcome([], Some(got.error))
  {
  }

  lemma OpenContinues(r: Reading, cells: seq<Cell>, at: Position, pieces: seq<seq<byte>>)
    requires NextCut(cells, r.frameBytes).Frame?
    requires OpenFrame(r.key, r.versionId, at.index, NextCut(cells, r.frameBytes).sealed).Ok?
    ensures var sealed := NextCut(cells, r.frameBytes).sealed;
            var got := OpenFrame(r.key, r.versionId, at.index, sealed).value;
            var piece := Piece(got.data, at.leadSkip, at.remaining);
            var left := Spend(at.remaining, piece);
            Prepend(pieces, OpenFrames(r, cells, at))
            == Prepend(if piece == [] then pieces else pieces + [piece],
                       if left == Some(0) then Outcome([], None)
                       else OpenFrames(r, cells[|sealed|..], Position(at.index + 1, 0, left, got.final)))
  {
    hide OpenFrame, Piece;
    var sealed := NextCut(cells, r.frameBytes).sealed;
    var got := OpenFrame(r.key, r.versionId, at.index, sealed).value;
    var piece := Piece(got.data, at.leadSkip, at.remaining);
    var left := Spend(at.remaining, piece);
    PrependAppend(pieces, piece,
      if left == Some(0) then Outcome([], None)
      else OpenFrames(r, cells[|sealed|..], Position(at.index + 1, 0, left, got.final)));
  }

  /** Decrypts a sealed stream, verifying every frame; `span` reads a sub-range. */
  method Open(configured: nat, ciphertext: seq<seq<Cell>>, key: Key, versionId: VersionId, span: Option<FrameSpan>)
    returns (pieces: seq<seq<byte>>, failure: Option<Error>)
    ensures Outcome(Flatten(pieces), failure)
         == if span.None? then OpenWhole(key, versionId, Flatten(ciphertext))
            else OpenSpan(key, versionId, configured, Flatten(ciphertext), span.value)
  {
    hide OpenFrames, DecodeHeaderCells;
    var reader := new FrameReader(ciphertext);
    if span.Some? {
      pieces, failure := ReadFrames(reader, Reading(key, versionId, configured), SpanStart(span.value));
    } else {
      var size := reader.FrameSize();
      if size.Err? {
        return [], Some(size.error);
      }
      pieces, failure := ReadFrames(reader, Reading(key, versionId, size.value), WholeStart());
    }
  }

  ghost function Prepend(pieces: seq<seq<byte>>, o: Outcome): Outcome {
    Outcome(Flatten(pieces) + o.emitted, o.failure)
  }

  lemma PrependAppend(pieces: seq<seq<byte>>, piece: seq<byte>, o: Outcome)
    ensures Prepend(pieces, Outcome(piece + o.emitted, o.failure))
         == Prepend(if piece == [] then pieces else pieces + [piece], o)
  {
    FlattenAppend(pieces, piece);
    assert Flatten(pieces) + (piece + o.emitted) == Flatten(pieces) + piece + o.emitted;
    if piece == [] {
      assert piece + o.emitted == o.emitted;
    }
  }
}
