/** `video_worker.js`: cutting an HEVC byte stream at its start codes, and feeding frames to the decoder. */
module VideoWorker {

  import Bytes

  type byte = Bytes.byte

  function Concat(pieces: seq<seq<byte>>): seq<byte>
  {
    if pieces == [] then [] else pieces[0] + Concat(pieces[1..])
  }

  lemma {:induction false} ConcatAdd(a: seq<seq<byte>>, b: seq<seq<byte>>)
    ensures Concat(a + b) == Concat(a) + Concat(b)
  {
    if a == [] {
      assert a + b == b;
    } else {
      ConcatAdd(a[1..], b);
      assert (a + b)[1..] == a[1..] + b;
      Reassociate(a[0], Concat(a[1..]), Concat(b));
    }
  }

  lemma ConcatOne(p: seq<byte>)
    ensures Concat([p]) == p
  {
    assert [p][1..] == [];
  }

  // ----- demux

  /** The four bytes 00 00 00 01 at position p. */
  predicate IsCode(buffer: seq<byte>, p: nat)
  {
    p + 4 <= |buffer| && buffer[p] == 0 && buffer[p + 1] == 0 && buffer[p + 2] == 0 && buffer[p + 3] == 1
  }

  /** Big-endian, as `getUint32(p, false)`. */
  function Uint32(buffer: seq<byte>, p: nat): nat
    requires p + 4 <= |buffer|
  {
    var a: nat, b: nat, c: nat, d: nat := buffer[p], buffer[p + 1], buffer[p + 2], buffer[p + 3];
    ((a * 256 + b) * 256 + c) * 256 + d
  }

  lemma CodeIsOne(buffer: seq<byte>, p: nat)
    requires p + 4 <= |buffer|
    ensures Uint32(buffer, p) == 1 <==> IsCode(buffer, p)
  {
  }

  function Clamp(buffer: seq<byte>, p: nat): nat { if p < |buffer| then p else |buffer| }

  /** Where the search from `from` on stops: at a start code, or at the last three bytes, or past the end. */
  function Stop(buffer: seq<byte>, from: nat): (p: nat)
    ensures p >= from
    ensures p < |buffer| ==> IsCode(buffer, p) || p + 4 > |buffer|
    ensures forall q: nat :: from <= q < p ==> !IsCode(buffer, q)
    decreases |buffer| - from
  {
    if from + 4 > |buffer| || IsCode(buffer, from) then from else Stop(buffer, from + 1)
  }

  /** The pieces from `offset` on, when the next cut is sought from `from` on. */
  function Pieces(buffer: seq<byte>, offset: nat, from: nat): seq<seq<byte>>
    requires offset < from
    decreases |buffer| - offset
  {
    if offset >= |buffer| then []
    else
      var next := Stop(buffer, from);
      [buffer[offset..Clamp(buffer, next)]] + Pieces(buffer, next, next + 4)
  }

  function Demuxed(buffer: seq<byte>): seq<seq<byte>> { Pieces(buffer, 0, 100) }

  method Demux(buffer: seq<byte>) returns (result: seq<seq<byte>>)
    ensures result == Demuxed(buffer)
  {
    result := [];
    var offset := 0;
    var next_offset := 100;
    while offset < |buffer|
      invariant 0 <= offset < next_offset
      invariant result + Pieces(buffer, offset, next_offset) == Demuxed(buffer)
      decreases |buffer| - offset
    {
      ghost var from := next_offset;
      while next_offset < |buffer|
        invariant from <= next_offset && Stop(buffer, next_offset) == Stop(buffer, from)
      {
        if next_offset > |buffer| - 4 {
          break;
        }
        CodeIsOne(buffer, next_offset);
        if Uint32(buffer, next_offset) == 1 {
          break;
        }
        next_offset := next_offset + 1;
      }
      assert next_offset == Stop(buffer, from);
      result := result + [buffer[offset..Clamp(buffer, next_offset)]];
      offset := next_offset;
      next_offset := offset + 4;
    }
  }

  /** The pieces put together are the buffer. */
  lemma {:induction false} PiecesJoin(buffer: seq<byte>, offset: nat, from: nat)
    requires offset < from
    ensures Concat(Pieces(buffer, offset, from)) == buffer[Clamp(buffer, offset)..]
    decreases |buffer| - offset
  {
    if offset < |buffer| {
      var next := Stop(buffer, from);
      PiecesJoin(buffer, next, next + 4);
      assert Pieces(buffer, offset, from)[1..] == Pieces(buffer, next, next + 4);
      assert buffer[offset..] == buffer[offset..Clamp(buffer, next)] + buffer[Clamp(buffer, next)..];
    }
  }

  ghost predicate StartsWithCode(piece: seq<byte>) { IsCode(piece, 0) }

  /** A piece begins with a start code, unless it is the last and has at most three bytes. */
  ghost predicate WellStarted(pieces: seq<seq<byte>>, k: nat)
    requires k < |pieces|
  {
    pieces[k] != [] && (StartsWithCode(pieces[k]) || (k == |pieces| - 1 && |pieces[k]| <= 3))
  }

  ghost predicate AllStarted(pieces: seq<seq<byte>>)
  {
    forall k: nat :: k < |pieces| ==> WellStarted(pieces, k)
  }

  lemma {:induction false} PiecesStart(buffer: seq<byte>, offset: nat)
    requires IsCode(buffer, offset) || offset + 4 > |buffer|
    ensures AllStarted(Pieces(buffer, offset, offset + 4))
    decreases |buffer| - offset
  {
    if offset < |buffer| {
      var next := Stop(buffer, offset + 4);
      var ps, qs := Pieces(buffer, offset, offset + 4), Pieces(buffer, next, next + 4);
      PiecesStart(buffer, next);
      FirstPiece(buffer, offset, next);
      forall k: nat | k < |ps| ensures WellStarted(ps, k) {
        if k > 0 { assert WellStarted(qs, k - 1); }
      }
    }
  }

  lemma FirstPiece(buffer: seq<byte>, offset: nat, next: nat)
    requires IsCode(buffer, offset) || offset + 4 > |buffer|
    requires offset < |buffer| && next == Stop(buffer, offset + 4)
    ensures WellStarted(Pieces(buffer, offset, offset + 4), 0)
  {
    hide Stop;
  }

  /** Where piece k begins, counted from the start of the list. */
  function StartOf(pieces: seq<seq<byte>>, k: nat): nat
    requires k <= |pieces|
  {
    |Concat(pieces[..k])|
  }

  ghost predicate BeginsPiece(pieces: seq<seq<byte>>, p: int)
  {
    exists k: nat :: 0 < k < |pieces| && StartOf(pieces, k) == p
  }

  /** A cut at p, when the first is sought from `from` on: at a start code, or once in the last three bytes, as far to
      the left as `from` and the last start code let it. */
  ghost predicate Cut(buffer: seq<byte>, from: nat, p: int)
  {
    && from <= p < |buffer|
    && (IsCode(buffer, p)
        || (&& p + 4 > |buffer| && (p == from || p + 3 == |buffer| || (p - 4 >= from && IsCode(buffer, p - 4)))
            && forall c: nat :: from <= c && p - 4 < c < p ==> !IsCode(buffer, c)))
  }

  lemma FirstCut(buffer: seq<byte>, from: nat, p: int)
    ensures var next := Stop(buffer, from);
      Cut(buffer, from, p) <==> next < |buffer| && (p == next || Cut(buffer, next + 4, p))
  {
    var next := Stop(buffer, from);
    StopIsFirst(buffer, from);
    hide Stop;
    if next < |buffer| && IsCode(buffer, next) {
      assert forall c: nat :: next < c < next + 4 ==> !IsCode(buffer, c);
    }
  }

  lemma {:induction false} StopIsFirst(buffer: seq<byte>, from: nat)
    ensures var next := Stop(buffer, from);
      next == from || (next <= |buffer| - 3 && from <= |buffer| - 4)
    decreases |buffer| - from
  {
    if from + 4 <= |buffer| && !IsCode(buffer, from) { StopIsFirst(buffer, from + 1); }
  }

  lemma BeginsAfter(first: seq<byte>, qs: seq<seq<byte>>, p: int)
    ensures BeginsPiece([first] + qs, p) <==> (qs != [] && (p == |first| || BeginsPiece(qs, p - |first|)))
  {
    var ps := [first] + qs;
    forall k: nat | k <= |qs| ensures StartOf(ps, k + 1) == |first| + StartOf(qs, k) {
      assert ps[..k + 1] == [first] + qs[..k];
      ConcatAdd([first], qs[..k]);
      ConcatOne(first);
    }
    assert StartOf(qs, 0) == 0;
    hide StartOf;
    if BeginsPiece(ps, p) {
      var k: nat :| 0 < k < |ps| && StartOf(ps, k) == p;
      assert StartOf(ps, (k - 1) + 1) == |first| + StartOf(qs, k - 1);
    }
    if BeginsPiece(qs, p - |first|) {
      var k: nat :| 0 < k < |qs| && StartOf(qs, k) == p - |first|;
      assert StartOf(ps, k + 1) == p;
    }
    if qs != [] { assert StartOf(ps, 0 + 1) == |first|; }
  }

  lemma {:induction false} PiecesCut(buffer: seq<byte>, offset: nat, from: nat, p: int)
    requires offset < from
    ensures BeginsPiece(Pieces(buffer, offset, from), p - offset) <==> Cut(buffer, from, p)
    decreases |buffer| - offset
  {
    hide Cut, Stop, BeginsPiece;
    if offset >= |buffer| {
      NothingCut(buffer, offset, from, p);
    } else {
      var next := Stop(buffer, from);
      var first, qs := buffer[offset..Clamp(buffer, next)], Pieces(buffer, next, next + 4);
      FirstCut(buffer, from, p);
      PiecesCut(buffer, next, next + 4, p);
      BeginsAfter(first, qs, p - offset);
    }
  }

  lemma NothingCut(buffer: seq<byte>, offset: nat, from: nat, p: int)
    requires |buffer| <= offset < from
    ensures !BeginsPiece([], p - offset) && !Cut(buffer, from, p)
  {
  }

  /**
   * The pieces put together are the buffer; every piece after the first begins with a start code, except that the
   * last may be a remainder of at most three bytes; and the pieces begin exactly at the start codes from position 100
   * on and at that remainder.
   */
  lemma DemuxCutsAtCodes(buffer: seq<byte>)
    ensures var ps := Demuxed(buffer);
      && Concat(ps) == buffer
      && (forall k: nat :: 0 < k < |ps| ==> WellStarted(ps, k))
      && (forall p: nat :: BeginsPiece(ps, p) <==> Cut(buffer, 100, p))
  {
    var ps := Demuxed(buffer);
    PiecesJoin(buffer, 0, 100);
    forall p: nat ensures BeginsPiece(ps, p) <==> Cut(buffer, 100, p) { PiecesCut(buffer, 0, 100, p); }
    hide Cut, BeginsPiece;
    if buffer != [] {
      var next := Stop(buffer, 100);
      var qs := Pieces(buffer, next, next + 4);
      PiecesStart(buffer, next);
      forall k: nat | 0 < k < |ps| ensures WellStarted(ps, k) {
        assert WellStarted(qs, k - 1);
      }
    }
  }

  // ----- NAL units

  /** Byte i of a frame, or 0 past its end, where the source meets `undefined` in the same places. */
  function ByteAt(frame: seq<byte>, i: nat): byte { if i < |frame| then frame[i] else 0 }

  predicate IsNalUnitStart(frame: seq<byte>)
  {
    ByteAt(frame, 0) == 0 && ByteAt(frame, 1) == 0 && ByteAt(frame, 2) == 0 && ByteAt(frame, 3) == 1
  }

  predicate IsNalUnitStart1(frame: seq<byte>)
  {
    ByteAt(frame, 0) == 0 && ByteAt(frame, 1) == 0 && ByteAt(frame, 2) == 1
  }

  /** `(b & 0x7E) >> 1` */
  function NalUnitType(b: byte): nat { b % 128 / 2 }

  function FrameType(frame: seq<byte>): nat
  {
    NalUnitType(ByteAt(frame, if IsNalUnitStart1(frame) then 3 else if IsNalUnitStart(frame) then 4 else 0))
  }

  /** An instantaneous decoder refresh picture. */
  predicate IsKey(frame: seq<byte>) { FrameType(frame) == 19 || FrameType(frame) == 20 }

  /** Behind a start code of three or four bytes the next byte decides: without its top bit it is 0x26 to 0x29. */
  lemma KeyByte(b: byte, rest: seq<byte>)
    ensures IsKey([0, 0, 1, b] + rest) <==> 0x26 <= b % 128 <= 0x29
    ensures IsKey([0, 0, 0, 1, b] + rest) <==> 0x26 <= b % 128 <= 0x29
  {
  }

  /** A frame without a start code is judged by its first byte; an empty one is no key frame. */
  lemma KeyWithoutCode(frame: seq<byte>)
    requires !([0, 0, 1] <= frame) && !([0, 0, 0, 1] <= frame)
    ensures IsKey(frame) <==> frame != [] && 0x26 <= frame[0] % 128 <= 0x29
  {
  }

  // ----- the message handler

  datatype Message = InitVideo | Configured | EndVideo | Video(frame: seq<byte>)

  /** A chunk handed to the decoder; `taken` when the decoder was open to take it. */
  datatype Chunk = Chunk(data: seq<byte>, timestamp: nat, key: bool, taken: bool)

  /** The worker's variables, whether a decoder is open, and every chunk made so far. */
  datatype State = State(timestamp: nat, first: bool, frame_buffer: seq<seq<byte>>, open: bool, chunks: seq<Chunk>)

  const START := State(0, true, [], false, [])

  function Emit(s: State, data: seq<byte>, key: bool): State
  {
    s.(timestamp := s.timestamp + 1, chunks := s.chunks + [Chunk(data, s.timestamp, key, s.open)])
  }

  function Handle(s: State, m: Message): State
  {
    match m
    case InitVideo => s.(timestamp := 0, first := true)
    case Configured => s.(open := true)
    case EndVideo => s.(open := false)
    case Video(frame) =>
      if !s.first then Emit(s, frame, IsKey(frame))
      else
        var buffered := s.frame_buffer + [frame];
        if IsKey(frame) then Emit(s.(first := false, frame_buffer := []), Concat(buffered), true)
        else s.(frame_buffer := buffered)
  }

  function HandleAll(s: State, ms: seq<Message>): State
  {
    if ms == [] then s else Handle(HandleAll(s, ms[..|ms| - 1]), ms[|ms| - 1])
  }

  class Worker {
    var timestamp: nat
    var first: bool
    var frame_buffer: seq<seq<byte>>
    var open: bool
    var chunks: seq<Chunk>

    function Now(): State
      reads this
    {
      State(timestamp, first, frame_buffer, open, chunks)
    }

    constructor ()
      ensures Now() == START
    {
      timestamp, first, frame_buffer, open, chunks := 0, true, [], false, [];
    }

    method OnMessage(m: Message)
      modifies this
      ensures Now() == Handle(old(Now()), m)
    {
      match m
      case InitVideo =>
        timestamp := 0;
        first := true;
      case Configured =>
        open := true;
      case EndVideo =>
        open := false;
      case Video(frame) =>
        var nal_start := 0;
        if IsNalUnitStart1(frame) {
          nal_start := 3;
        } else if IsNalUnitStart(frame) {
          nal_start := 4;
        }
        var nal_type := NalUnitType(ByteAt(frame, nal_start));
        var key := nal_type == 19 || nal_type == 20;
        if first {
          frame_buffer := frame_buffer + [frame];
          if key {
            first := false;
            var merged := Merge(frame_buffer);
            frame_buffer := [];
            Submit(merged[..], true);
          }
        } else {
          Submit(frame, key);
        }
    }

    /** A new chunk, offered to the decoder. */
    method Submit(data: seq<byte>, key: bool)
      modifies this
      ensures Now() == Emit(old(Now()), data, key)
    {
      chunks := chunks + [Chunk(data, timestamp, key, open)];
      timestamp := timestamp + 1;
    }
  }

  function Size(pieces: seq<seq<byte>>): nat
  {
    if pieces == [] then 0 else |pieces[0]| + Size(pieces[1..])
  }

  lemma {:induction false} SizeOfConcat(pieces: seq<seq<byte>>)
    ensures Size(pieces) == |Concat(pieces)|
  {
    if pieces != [] { SizeOfConcat(pieces[1..]); }
  }

  lemma ConcatNext(pieces: seq<seq<byte>>, i: nat)
    requires i < |pieces|
    ensures Concat(pieces[..i + 1]) == Concat(pieces[..i]) + pieces[i]
    ensures |Concat(pieces[..i + 1])| <= |Concat(pieces)|
  {
    assert pieces[..i + 1] == pieces[..i] + [pieces[i]];
    ConcatAdd(pieces[..i], [pieces[i]]);
    ConcatOne(pieces[i]);
    assert pieces == pieces[..i + 1] + pieces[i + 1..];
    ConcatAdd(pieces[..i + 1], pieces[i + 1..]);
  }

  /** Merges the buffered frames into a single byte array. */
  method Merge(frame_buffer: seq<seq<byte>>) returns (merged_buffer: array<byte>)
    ensures fresh(merged_buffer) && merged_buffer[..] == Concat(frame_buffer)
  {
    SizeOfConcat(frame_buffer);
    merged_buffer := new byte[Size(frame_buffer)];
    var offset := 0;
    var i := 0;
    while i < |frame_buffer|
      invariant 0 <= i <= |frame_buffer| && offset == |Concat(frame_buffer[..i])| <= merged_buffer.Length
      invariant merged_buffer[..offset] == Concat(frame_buffer[..i])
    {
      ConcatNext(frame_buffer, i);
      Store(merged_buffer, frame_buffer[i], offset);
      offset := offset + |frame_buffer[i]|;
      i := i + 1;
    }
    assert frame_buffer[..i] == frame_buffer;
    assert merged_buffer[..] == merged_buffer[..offset];
  }

  /** `Uint8Array.set` */
  method Store(a: array<byte>, s: seq<byte>, offset: nat)
    requires offset + |s| <= a.Length
    modifies a
    ensures a[..] == old(a[..offset]) + s + old(a[offset + |s|..])
  {
    var i := 0;
    while i < |s|
      invariant 0 <= i <= |s|
      invariant forall k :: 0 <= k < a.Length ==> a[k] == if offset <= k < offset + i then s[k - offset] else old(a[k])
    {
      a[offset + i] := s[i];
      i := i + 1;
    }
  }

  // ----- conservation

  function Data(chunks: seq<Chunk>): seq<byte>
  {
    if chunks == [] then [] else Data(chunks[..|chunks| - 1]) + chunks[|chunks| - 1].data
  }

  /** The bytes of all frames received. */
  function Received(ms: seq<Message>): seq<byte>
  {
    if ms == [] then []
    else Received(ms[..|ms| - 1]) + if ms[|ms| - 1].Video? then ms[|ms| - 1].frame else []
  }

  lemma DataMore(cs: seq<Chunk>, c: Chunk)
    ensures Data(cs + [c]) == Data(cs) + c.data
  {
    assert (cs + [c])[..|cs|] == cs;
  }

  lemma ConcatMore(pieces: seq<seq<byte>>, p: seq<byte>)
    ensures Concat(pieces + [p]) == Concat(pieces) + p
  {
    ConcatAdd(pieces, [p]);
    ConcatOne(p);
  }

  /** Nothing is pending once the decoder has been started. */
  ghost predicate Tidy(s: State) { !s.first ==> s.frame_buffer == [] }

  /** One message: the bytes in chunks followed by the pending ones grow by the frame received. */
  lemma HandleConserves(s: State, m: Message)
    requires Tidy(s)
    ensures Tidy(Handle(s, m))
    ensures Data(Handle(s, m).chunks) + Concat(Handle(s, m).frame_buffer)
         == Data(s.chunks) + Concat(s.frame_buffer) + if m.Video? then m.frame else []
  {
    if m.Video? {
      ConcatMore(s.frame_buffer, m.frame);
      DataMore(s.chunks, Chunk(m.frame, s.timestamp, IsKey(m.frame), s.open));
      DataMore(s.chunks, Chunk(Concat(s.frame_buffer + [m.frame]), s.timestamp, true, s.open));
      assert Concat([]) == [];
      hide IsKey, Concat, Data;
    }
  }

  lemma {:induction false} RunConserves(s: State, ms: seq<Message>)
    requires Tidy(s)
    ensures Tidy(HandleAll(s, ms))
    ensures Data(HandleAll(s, ms).chunks) + Concat(HandleAll(s, ms).frame_buffer)
         == Data(s.chunks) + Concat(s.frame_buffer) + Received(ms)
  {
    hide Handle, Concat, Data, Tidy;
    if ms == [] {
      assert Data(s.chunks) + Concat(s.frame_buffer) + [] == Data(s.chunks) + Concat(s.frame_buffer);
    } else {
      var n := |ms| - 1;
      RunConserves(s, ms[..n]);
      HandleConserves(HandleAll(s, ms[..n]), ms[n]);
      Reassociate(Data(s.chunks) + Concat(s.frame_buffer), Received(ms[..n]),
                  if ms[n].Video? then ms[n].frame else []);
    }
  }

  /** Over every run the bytes in chunks followed by the pending ones are all bytes received, in order. */
  lemma BytesConserved(ms: seq<Message>)
    ensures Data(HandleAll(START, ms).chunks) + Concat(HandleAll(START, ms).frame_buffer) == Received(ms)
  {
    RunConserves(START, ms);
    assert Data(START.chunks) == [] && Concat(START.frame_buffer) == [];
    hide Handle, Concat, Data, Received;
  }

  // ----- what the decoder is given

  /** The bytes of the chunks that the decoder was open to take. */
  function Given(chunks: seq<Chunk>): seq<byte>
  {
    if chunks == [] then []
    else Given(chunks[..|chunks| - 1]) + if chunks[|chunks| - 1].taken then chunks[|chunks| - 1].data else []
  }

  ghost predicate NothingRefused(chunks: seq<Chunk>) { forall c :: c in chunks ==> c.taken || c.data == [] }

  lemma {:induction false} GivenIsData(cs: seq<Chunk>)
    ensures |Given(cs)| <= |Data(cs)|
    ensures NothingRefused(cs) <==> |Given(cs)| == |Data(cs)|
    ensures NothingRefused(cs) ==> Given(cs) == Data(cs)
  {
    if cs != [] {
      var n := |cs| - 1;
      GivenIsData(cs[..n]);
      assert cs == cs[..n] + [cs[n]];
    }
  }

  /** This frame makes a chunk while no decoder is open, and the chunk is not empty. */
  predicate Loses(s: State, m: Message)
  {
    m.Video? && !s.open && m.frame != [] && (s.first ==> IsKey(m.frame))
  }

  /** No frame of the run does. */
  ghost predicate LosesNothing(ms: seq<Message>)
  {
    forall i :: 0 <= i < |ms| ==> !Loses(HandleAll(START, ms[..i]), ms[i])
  }

  lemma RefusedOnLoss(s: State, m: Message)
    ensures NothingRefused(Handle(s, m).chunks) <==> NothingRefused(s.chunks) && !Loses(s, m)
  {
    if m.Video? {
      ConcatMore(s.frame_buffer, m.frame);
      assert IsKey(m.frame) ==> m.frame != [];
      hide IsKey, Concat;
    }
  }

  lemma {:induction false} RefusedInRun(ms: seq<Message>)
    ensures NothingRefused(HandleAll(START, ms).chunks) <==> LosesNothing(ms)
  {
    hide NothingRefused, Loses, Handle;
    if ms == [] {
      NothingYet();
    } else {
      var n := |ms| - 1;
      RefusedInRun(ms[..n]);
      RefusedOnLoss(HandleAll(START, ms[..n]), ms[n]);
      assert forall i :: 0 <= i <= n ==> ms[..n][..i] == ms[..i];
    }
  }

  lemma NothingYet()
    ensures NothingRefused(START.chunks)
  {
  }

  /** A decoder was opened, and not closed since. */
  ghost predicate OpenedLast(ms: seq<Message>)
  {
    exists i :: 0 <= i < |ms| && ms[i].Configured? && forall j :: i < j < |ms| ==> !ms[j].EndVideo?
  }

  lemma OpenedNext(ms: seq<Message>)
    requires ms != []
    ensures OpenedLast(ms) <==>
      ms[|ms| - 1].Configured? || (!ms[|ms| - 1].EndVideo? && OpenedLast(ms[..|ms| - 1]))
  {
    var n := |ms| - 1;
    if i :| 0 <= i < n && ms[..n][i].Configured? && forall j :: i < j < n ==> !ms[..n][j].EndVideo? {
      if !ms[n].EndVideo? { assert forall j :: i < j < n ==> ms[j] == ms[..n][j]; }
    }
    if i :| 0 <= i < n && ms[i].Configured? && forall j :: i < j <= n ==> !ms[j].EndVideo? {
      assert ms[..n][i].Configured?;
    }
  }

  /** Over every run the decoder is open if and only if it was opened and not closed since. */
  lemma {:induction false} OpenSince(ms: seq<Message>)
    ensures HandleAll(START, ms).open <==> OpenedLast(ms)
  {
    if ms != [] {
      OpenSince(ms[..|ms| - 1]);
      OpenedNext(ms);
      hide OpenedLast, IsKey, Concat;
    }
  }

  /** A frame after any run makes at most one chunk, which the decoder takes if and only if it is open. */
  lemma TakenWhenOpen(ms: seq<Message>, frame: seq<byte>)
    ensures var made, after := HandleAll(START, ms).chunks, HandleAll(START, ms + [Video(frame)]).chunks;
      after == made || (|after| == |made| + 1 && after[..|made|] == made && (after[|made|].taken <==> OpenedLast(ms)))
  {
    assert (ms + [Video(frame)])[..|ms|] == ms;
    OpenSince(ms);
    hide OpenedLast, IsKey, Concat;
  }

  /** The decoder is given every byte received, up to those still pending, if and only if no frame makes a chunk while
      the decoder is closed. */
  lemma AllGiven(ms: seq<Message>)
    ensures var s := HandleAll(START, ms);
      Given(s.chunks) + Concat(s.frame_buffer) == Received(ms) <==> LosesNothing(ms)
  {
    var s := HandleAll(START, ms);
    BytesConserved(ms);
    GivenIsData(s.chunks);
    RefusedInRun(ms);
    hide HandleAll, Given, Data, Concat, Received, LosesNothing, NothingRefused;
    assert |Data(s.chunks) + Concat(s.frame_buffer)| == |Data(s.chunks)| + |Concat(s.frame_buffer)|;
    assert |Given(s.chunks) + Concat(s.frame_buffer)| == |Given(s.chunks)| + |Concat(s.frame_buffer)|;
  }

  // ----- one session: from an init to the next

  /** What holds of the chunks made since the last init, when they are the chunks from n on. */
  ghost predicate Session(s: State, n: nat)
  {
    && n <= |s.chunks| && Tidy(s)
    && s.timestamp == |s.chunks| - n
    && (forall k :: n <= k < |s.chunks| ==> s.chunks[k].timestamp == k - n)
    && (s.first <==> |s.chunks| == n)
    && (|s.chunks| > n ==> s.chunks[n].key)
  }

  /** A frame behind a start code makes the first chunk of a session if and only if it is a key frame by its byte, and
      every later frame makes a chunk, marked as a key chunk if and only if it is one. */
  lemma ChunkKeys(s: State, code: seq<byte>, b: byte, rest: seq<byte>)
    requires code == [0, 0, 1] || code == [0, 0, 0, 1]
    ensures var after := Handle(s, Video(code + [b] + rest)); var key := 0x26 <= b % 128 <= 0x29;
      && (s.first && !key ==> after.chunks == s.chunks && after.first)
      && (s.first && key ==> |after.chunks| == |s.chunks| + 1 && after.chunks[|s.chunks|].key && !after.first)
      && (!s.first ==> |after.chunks| == |s.chunks| + 1 && after.chunks[|s.chunks|].key == key && !after.first)
  {
    var frame := code + [b] + rest;
    assert frame == if |code| == 3 then [0, 0, 1, b] + rest else [0, 0, 0, 1, b] + rest;
    KeyByte(b, rest);
    hide IsKey, Concat;
  }

  predicate KeyFrame(m: Message) { m.Video? && IsKey(m.frame) }

  lemma SessionStep(s: State, n: nat, m: Message)
    requires Session(s, n) && !m.InitVideo?
    ensures Session(Handle(s, m), n) && s.chunks <= Handle(s, m).chunks
    ensures Handle(s, m).first <==> s.first && !KeyFrame(m)
  {
    hide IsKey, Concat;
  }

  ghost predicate NoInit(ms: seq<Message>) { forall m :: m in ms ==> !m.InitVideo? }

  ghost predicate NoKey(ms: seq<Message>) { forall m :: m in ms ==> !KeyFrame(m) }

  lemma {:induction false} SessionRun(s: State, ms: seq<Message>)
    requires Session(s, |s.chunks|) && NoInit(ms)
    ensures Session(HandleAll(s, ms), |s.chunks|) && s.chunks <= HandleAll(s, ms).chunks
    ensures HandleAll(s, ms).first <==> NoKey(ms)
  {
    hide KeyFrame, Handle, Session;
    if ms == [] {
      NothingMade(s);
    } else {
      var n := |ms| - 1;
      assert ms == ms[..n] + [ms[n]];
      SessionRun(s, ms[..n]);
      SessionStep(HandleAll(s, ms[..n]), |s.chunks|, ms[n]);
    }
  }

  lemma NothingMade(s: State)
    requires Session(s, |s.chunks|)
    ensures s.first
  {
  }

  lemma {:induction false} HandleSplit(s: State, a: seq<Message>, b: seq<Message>)
    ensures HandleAll(s, a + b) == HandleAll(HandleAll(s, a), b)
  {
    hide Handle;
    if b == [] {
      assert a + b == a;
    } else {
      var n := |b| - 1;
      HandleSplit(s, a, b[..n]);
      assert (a + b)[..|a + b| - 1] == a + b[..n];
    }
  }

  lemma {:induction false} DataAdd(a: seq<Chunk>, b: seq<Chunk>)
    ensures Data(a + b) == Data(a) + Data(b)
  {
    if b == [] {
      assert a + b == a;
    } else {
      var n := |b| - 1;
      DataAdd(a, b[..n]);
      assert (a + b)[..|a + b| - 1] == a + b[..n];
      Reassociate(Data(a), Data(b[..n]), b[n].data);
    }
  }

  /** The state an init leaves. */
  lemma AfterInit(before: seq<Message>)
    ensures var s0 := HandleAll(START, before + [InitVideo]); Session(s0, |s0.chunks|)
  {
    RunConserves(START, before + [InitVideo]);
    HandleSplit(START, before, [InitVideo]);
    assert HandleAll(HandleAll(START, before), [InitVideo][..0]) == HandleAll(START, before);
    hide Data, Concat, Received;
  }

  /**
   * Over every run, from each init to the next: timestamps are 0, 1, 2, ..., the first chunk is a key chunk and is
   * made as soon as a key frame comes, and the chunks of the session followed by the pending frames are the frames
   * that were pending at the init followed by those received since.
   */
  lemma EverySession(before: seq<Message>, after: seq<Message>)
    requires NoInit(after)
    ensures var s0, s := HandleAll(START, before + [InitVideo]), HandleAll(START, before + [InitVideo] + after);
      && Session(s, |s0.chunks|) && s0.chunks <= s.chunks
      && (s.first <==> NoKey(after))
      && Data(s.chunks[|s0.chunks|..]) + Concat(s.frame_buffer) == Concat(s0.frame_buffer) + Received(after)
  {
    var s0, s := HandleAll(START, before + [InitVideo]), HandleAll(START, before + [InitVideo] + after);
    AfterInit(before);
    HandleSplit(START, before + [InitVideo], after);
    SessionRun(s0, after);
    RunConserves(s0, after);
    var made := s.chunks[|s0.chunks|..];
    assert s.chunks == s0.chunks + made;
    hide HandleAll, Session, NoInit, NoKey, Data, Concat, Received;
    DataAdd(s0.chunks, made);
    Reassociate(Data(s0.chunks), Data(made), Concat(s.frame_buffer));
    Reassociate(Data(s0.chunks), Concat(s0.frame_buffer), Received(after));
    CancelFront(Data(s0.chunks), Data(made) + Concat(s.frame_buffer), Concat(s0.frame_buffer) + Received(after));
  }

  /** The same from the start to the first init, with nothing pending at first. */
  lemma FirstSession(after: seq<Message>)
    requires NoInit(after)
    ensures var s := HandleAll(START, after);
      && Session(s, 0) && (s.first <==> NoKey(after))
      && Data(s.chunks) + Concat(s.frame_buffer) == Received(after)
  {
    assert Session(START, |START.chunks|);
    SessionRun(START, after);
    BytesConserved(after);
    hide Session, NoInit, NoKey, Data, Concat, Received, HandleAll;
  }

  lemma Reassociate(a: seq<byte>, b: seq<byte>, c: seq<byte>)
    ensures (a + b) + c == a + (b + c)
  {
  }

  lemma CancelFront(a: seq<byte>, b: seq<byte>, c: seq<byte>)
    requires a + b == a + c
    ensures b == c
  {
    assert b == (a + b)[|a|..];
    assert c == (a + c)[|a|..];
  }
}
