/**
 The agent's WebSocket frame codec (agent/websocket.go; sections 5.2 and 5.3 of RFC 6455). Frames are
 written in one piece and masked; fragmentation (section 5.4) is not used.
 */
module WebSocketFrames {
  import opened Wrappers
  import opened Bytes
  import opened Sequences
  import opened ByteStreams

  datatype Frame = Frame(opcode: byte, payload: seq<byte>)

  /** `TooLong` is a length no Go slice can have; the allocation panics. */
  datatype FrameError = Broken(cause: ReadError) | TooLong(length: nat)

  datatype Outcome = Got(frame: Frame) | Failed(error: FrameError)

  /** The largest slice the 64-bit Go runtime allocates. */
  const MAX_SLICE := 0x1_0000_0000_0000

  const FIN := 0x80
  const MASK_BIT := 0x80
  const KEY_SIZE := 4

  type Key = k: seq<byte> | |k| == KEY_SIZE witness [0, 0, 0, 0]

  // ---- The format ----

  /** The first header byte: `0x80 | b`. */
  function SetTopBit(b: byte): byte {
    if b < FIN then b + FIN else b
  }

  /** The second byte with the mask bit set, and the extended length if there is one. */
  function LengthField(n: nat): seq<byte> {
    if n <= 125 then [MASK_BIT + n]
    else if n <= 65535 then [MASK_BIT + 126] + BigEndian(n, 2)
    else [MASK_BIT + 127] + BigEndian(n, 8)
  }

  function Masked(payload: seq<byte>, key: Key): (m: seq<byte>)
    ensures |m| == |payload|
  {
    seq(|payload|, i requires 0 <= i < |payload| => Xor(payload[i], key[i % KEY_SIZE]))
  }

  function Encode(frame: Frame, key: Key): seq<byte> {
    [SetTopBit(frame.opcode)] + LengthField(|frame.payload|) + key + Masked(frame.payload, key)
  }

  /** How many bytes of extended length follow the second byte. */
  function ExtraLength(h1: byte): nat {
    if h1 % 0x80 == 126 then 2 else if h1 % 0x80 == 127 then 8 else 0
  }

  /** The two fixed bytes, the payload length they announce, and the stream behind the length. */
  datatype Header = Header(h0: byte, h1: byte, length: nat, rest: seq<byte>) | NoHeader(cause: ReadError)

  function DecodeHeader(s: seq<byte>): Header {
    if |s| < 2 then NoHeader(Eof)
    else
      var n := ExtraLength(s[1]);
      if |s| < 2 + n then NoHeader(Shortage(s[2..]))
      else Header(s[0], s[1], if n == 0 then s[1] % 0x80 else FromBigEndian(s[2..2 + n]), s[2 + n..])
  }

  function KeyLength(h1: byte): nat {
    if h1 >= MASK_BIT then KEY_SIZE else 0
  }

  function Fail(cause: ReadError): (Outcome, seq<byte>) {
    (Failed(Broken(cause)), [])
  }

  function DecodeBody(h: Header): (Outcome, seq<byte>)
    requires h.Header?
  {
    var k := KeyLength(h.h1);
    if |h.rest| < k then Fail(Shortage(h.rest))
    else if h.length > MAX_SLICE then (Failed(TooLong(h.length)), h.rest[k..])
    else if |h.rest| < k + h.length then Fail(Shortage(h.rest[k..]))
    else
      var raw := h.rest[k..k + h.length];
      (Got(Frame(h.h0 % 16, if k > 0 then Masked(raw, h.rest[..k]) else raw)), h.rest[k + h.length..])
  }

  /** Reads one frame off the front of a stream; the second component is what remains. */
  function Decode(s: seq<byte>): (Outcome, seq<byte>) {
    match DecodeHeader(s)
    case NoHeader(e) => Fail(e)
    case Header(_, _, _, _) => DecodeBody(DecodeHeader(s))
  }

  // ---- Operations ----

  /** Unmasks in place, as a loop over the payload. */
  method ApplyMask(payload: array<byte>, key: Key)
    modifies payload
    ensures payload[..] == Masked(old(payload[..]), key)
  {
    var i := 0;
    while i < payload.Length
      invariant 0 <= i <= payload.Length
      invariant forall k | 0 <= k < i :: payload[k] == Xor(old(payload[k]), key[k % KEY_SIZE])
      invariant forall k | i <= k < payload.Length :: payload[k] == old(payload[k])
    {
      payload[i] := Xor(payload[i], key[i % KEY_SIZE]);
      i := i + 1;
    }
    assert payload[..] == Masked(old(payload[..]), key);
  }

  method ReadHeader(r: Source) returns (h0: byte, h1: byte, payLen: nat, err: Option<ReadError>)
    modifies r
    ensures match DecodeHeader(old(r.Pending()))
            case NoHeader(e) => err == Some(e) && r.Pending() == []
            case Header(b0, b1, n, rest) => err == None && h0 == b0 && h1 == b1 && payLen == n && r.Pending() == rest
  {
    h0, h1, payLen := 0, 0, 0;
    ghost var all := r.Pending();
    var one;
    one, err := r.ReadFull(1);
    if err.Some? { return; }
    h0 := one[0];
    one, err := r.ReadFull(1);
    if err.Some? { return; }
    h1 := one[0];
    assert all[1..][1..] == all[2..];
    payLen := h1 % 0x80;
    if payLen == 126 || payLen == 127 {
      var ext;
      ext, err := r.ReadFull(if payLen == 126 then 2 else 8);
      if err.Some? { return; }
      payLen := FromBigEndian(ext);
      assert all[2..][..|ext|] == all[2..2 + |ext|] && all[2..][|ext|..] == all[2 + |ext|..];
    }
  }

  method ReadFrame(r: Source) returns (result: Outcome)
    modifies r
    ensures (result, r.Pending()) == Decode(old(r.Pending()))
  {
    var h0, h1, payLen, err := ReadHeader(r);
    if err.Some? {
      return Failed(Broken(err.value));
    }
    result := ReadBody(r, h0, h1, payLen);
  }

  method ReadBody(r: Source, h0: byte, h1: byte, payLen: nat) returns (result: Outcome)
    modifies r
    ensures (result, r.Pending()) == DecodeBody(Header(h0, h1, payLen, old(r.Pending())))
  {
    ghost var rest := r.Pending();
    var key, err := r.ReadFull(KeyLength(h1));
    if err.Some? {
      return Failed(Broken(err.value));
    }
    if payLen > MAX_SLICE {
      return Failed(TooLong(payLen));
    }
    var payload;
    payload, err := r.ReadFull(payLen);
    if err.Some? {
      return Failed(Broken(err.value));
    }
    BodyParts(Header(h0, h1, payLen, rest));
    if h1 >= MASK_BIT {
      payload := Unmasked(payload, key);
    }
    result := Got(Frame(h0 % 16, payload));
  }

  /** A complete body read in two pieces: the key and the payload. */
  lemma BodyParts(h: Header)
    requires h.Header? && h.length <= MAX_SLICE && KeyLength(h.h1) + h.length <= |h.rest|
    ensures var key, behind := h.rest[..KeyLength(h.h1)], h.rest[KeyLength(h.h1)..];
            var raw := behind[..h.length];
            var payload := if h.h1 >= MASK_BIT then Masked(raw, key) else raw;
            DecodeBody(h) == (Got(Frame(h.h0 % 16, payload)), behind[h.length..])
  {
    var k := KeyLength(h.h1);
    assert h.rest[k..][..h.length] == h.rest[k..k + h.length];
    assert h.rest[k..][h.length..] == h.rest[k + h.length..];
  }

  method Unmasked(payload: seq<byte>, key: Key) returns (plain: seq<byte>)
    ensures plain == Masked(payload, key)
  {
    var buf := new byte[|payload|](i requires 0 <= i < |payload| => payload[i]);
    assert buf[..] == payload;
    ApplyMask(buf, key);
    plain := buf[..];
  }

  /** Writes one frame; the mask key is the random input of the source. */
  method WriteFrame(w: Sink, opcode: byte, payload: seq<byte>, key: Key) returns (ok: bool)
    modifies w`written
    ensures ok == w.open
    ensures w.written == if w.open then old(w.written) + Encode(Frame(opcode, payload), key) else old(w.written)
  {
    var payLen := |payload|;
    var header: seq<byte> := [SetTopBit(opcode)];
    if payLen <= 125 {
      header := header + [MASK_BIT + payLen];
    } else if payLen <= 65535 {
      header := header + [MASK_BIT + 126];
      header := header + [payLen / 256 % 256, payLen % 256];
      assert BigEndian(payLen, 2) == [payLen / 256 % 256, payLen % 256] by {
        assert BigEndian(payLen / 256, 1) == [payLen / 256 % 256];
      }
    } else {
      header := header + [MASK_BIT + 127];
      var i := 7;
      while i >= 0
        invariant -1 <= i <= 7 && w.written == old(w.written)
        invariant header == [SetTopBit(opcode), MASK_BIT + 127] + BigEndian(payLen, 8)[..7 - i]
      {
        BigEndianAt(payLen, 8, 7 - i);
        header := header + [ShiftBytes(payLen, i) % 256];
        i := i - 1;
      }
    }
    assert header == [SetTopBit(opcode)] + LengthField(payLen);
    header := header + key;
    var masked := new byte[payLen];
    var i := 0;
    while i < payLen
      invariant 0 <= i <= payLen && w.written == old(w.written)
      invariant forall k | 0 <= k < i :: masked[k] == Xor(payload[k], key[k % KEY_SIZE])
    {
      masked[i] := Xor(payload[i], key[i % KEY_SIZE]);
      i := i + 1;
    }
    assert masked[..] == Masked(payload, key);
    var frame := header + masked[..];
    assert frame == Encode(Frame(opcode, payload), key);
    ok := w.Write(frame);
  }

  // ---- Properties ----

  lemma MaskTwice(payload: seq<byte>, key: Key)
    ensures Masked(Masked(payload, key), key) == payload
  {
    forall i | 0 <= i < |payload| ensures Masked(Masked(payload, key), key)[i] == payload[i] {
      XorTwice(payload[i], key[i % KEY_SIZE]);
    }
  }

  predicate LengthReadBack(n: nat) {
    var f := LengthField(n);
    && f[0] >= MASK_BIT && |f| == 1 + ExtraLength(f[0])
    && n == (if ExtraLength(f[0]) == 0 then f[0] % 0x80 else FromBigEndian(f[1..]))
  }

  lemma LongField(n: nat)
    requires n > 65535
    ensures LengthField(n) == [MASK_BIT + 127] + EightBytes(n)
  {
    EightDigits(n);
  }

  lemma LongLengthRead(n: nat)
    requires 65535 < n <= MAX_SLICE
    ensures LengthReadBack(n)
  {
    EightRead(n);
    LongField(n);
    assert LengthField(n)[1..] == EightBytes(n);
  }

  lemma MediumLengthRead(n: nat)
    requires 125 < n <= 65535
    ensures LengthReadBack(n)
  {
    Powers();
    BigEndianInverse(n, 2);
    assert LengthField(n)[1..] == BigEndian(n, 2);
  }

  lemma LengthFieldRead(n: nat)
    requires n <= MAX_SLICE
    ensures LengthReadBack(n)
  {
    if n > 65535 { LongLengthRead(n); } else if n > 125 { MediumLengthRead(n); }
  }

  /** Whatever the key, a frame is read back with its payload and the low four bits of its opcode, and
      the stream is left just behind it. */
  lemma RoundTrip(frame: Frame, key: Key, tail: seq<byte>)
    requires |frame.payload| <= MAX_SLICE
    ensures Decode(Encode(frame, key) + tail) == (Got(Frame(frame.opcode % 16, frame.payload)), tail)
  {
    HeaderRead(frame, key, tail);
    MaskTwice(frame.payload, key);
    var m := Masked(frame.payload, key);
    var rest := key + m + tail;
    assert rest[..KEY_SIZE] == key && rest[KEY_SIZE..KEY_SIZE + |m|] == m && rest[KEY_SIZE + |m|..] == tail;
    assert SetTopBit(frame.opcode) % 16 == frame.opcode % 16;
  }

  lemma HeaderRead(frame: Frame, key: Key, tail: seq<byte>)
    requires |frame.payload| <= MAX_SLICE
    ensures var n := |frame.payload|;
            DecodeHeader(Encode(frame, key) + tail) ==
            Header(SetTopBit(frame.opcode), LengthField(n)[0], n, key + Masked(frame.payload, key) + tail)
    ensures LengthField(|frame.payload|)[0] >= MASK_BIT
  {
    var s, field := Encode(frame, key) + tail, LengthField(|frame.payload|);
    LengthFieldRead(|frame.payload|);
    assert s == [SetTopBit(frame.opcode)] + field + (key + Masked(frame.payload, key) + tail);
    assert s[1] == field[0] && s[2..1 + |field|] == field[1..];
    assert s[1 + |field|..] == key + Masked(frame.payload, key) + tail;
  }

  /** A frame is read back unchanged exactly when its opcode fits the four bits of the header. */
  lemma RoundTripExact(frame: Frame, key: Key, tail: seq<byte>)
    requires |frame.payload| <= MAX_SLICE
    ensures Decode(Encode(frame, key) + tail) == (Got(frame), tail) <==> frame.opcode < 16
  {
    RoundTrip(frame, key, tail);
  }

  function EncodeAll(frames: seq<(Frame, Key)>): seq<byte> {
    FlatMap(EncodeOne, frames)
  }

  function EncodeOne(frame: (Frame, Key)): seq<byte> {
    Encode(frame.0, frame.1)
  }

  function FramesOf(frames: seq<(Frame, Key)>): seq<Frame> {
    seq(|frames|, i requires 0 <= i < |frames| => frames[i].0)
  }

  /** Every frame up to the first failure. */
  function DecodeAll(s: seq<byte>): (seq<Frame>, FrameError)
    decreases |s|
  {
    match Decode(s)
    case (Failed(e), _) => ([], e)
    case (Got(f), rest) => var (fs, e) := DecodeAll(rest); ([f] + fs, e)
  }

  /** Reading what was written returns exactly the frames written, and then the end of the stream. */
  lemma {:induction false} ListRoundTrip(frames: seq<(Frame, Key)>)
    requires forall i | 0 <= i < |frames| :: frames[i].0.opcode < 16 && |frames[i].0.payload| <= MAX_SLICE
    ensures DecodeAll(EncodeAll(frames)) ==
            (FramesOf(frames), Broken(Eof))
  {
    if frames != [] {
      var first, others := frames[0], frames[1..];
      ListRoundTrip(others);
      FirstRead(first.0, first.1, EncodeAll(others));
      FirstWritten(frames);
    } else {
      assert EncodeAll(frames) == [] && FramesOf(frames) == [];
    }
  }

  lemma FirstWritten(frames: seq<(Frame, Key)>)
    requires frames != []
    ensures EncodeAll(frames) == Encode(frames[0].0, frames[0].1) + EncodeAll(frames[1..])
    ensures FramesOf(frames) == [frames[0].0] + FramesOf(frames[1..])
  {
  }

  lemma FirstRead(frame: Frame, key: Key, tail: seq<byte>)
    requires frame.opcode < 16 && |frame.payload| <= MAX_SLICE
    ensures DecodeAll(Encode(frame, key) + tail) == ([frame] + DecodeAll(tail).0, DecodeAll(tail).1)
  {
    RoundTripExact(frame, key, tail);
  }

  /** More bytes behind a complete frame do not change how it is read. */
  lemma DecodeStable(s: seq<byte>, more: seq<byte>)
    requires Decode(s).0.Got?
    ensures Decode(s + more) == (Decode(s).0, Decode(s).1 + more)
  {
    HeaderStable(s, more);
    BodyStable(DecodeHeader(s), more);
  }

  lemma HeaderStable(s: seq<byte>, more: seq<byte>)
    requires DecodeHeader(s).Header?
    ensures DecodeHeader(s + more) == DecodeHeader(s).(rest := DecodeHeader(s).rest + more)
  {
    var k := 2 + ExtraLength(s[1]);
    assert (s + more)[2..k] == s[2..k] && (s + more)[k..] == s[k..] + more;
  }

  lemma BodyStable(h: Header, more: seq<byte>)
    requires h.Header? && DecodeBody(h).0.Got?
    ensures DecodeBody(h.(rest := h.rest + more)) == (DecodeBody(h).0, DecodeBody(h).1 + more)
  {
    PartsStable(h.rest, more, KeyLength(h.h1), h.length);
  }

  lemma PartsStable(s: seq<byte>, more: seq<byte>, k: nat, n: nat)
    requires k + n <= |s|
    ensures var longer := s + more;
            longer[..k] == s[..k] && longer[k..k + n] == s[k..k + n] && longer[k + n..] == s[k + n..] + more
  {
  }

  /** No proper prefix of a written frame is taken for a frame. */
  lemma PrefixIncomplete(frame: Frame, key: Key, k: nat)
    requires |frame.payload| <= MAX_SLICE && k < |Encode(frame, key)|
    ensures Decode(Encode(frame, key)[..k]).0.Failed?
  {
    var s := Encode(frame, key);
    LeavesNothing(frame, key);
    CutHasMore(s, k);
  }

  lemma CutHasMore(s: seq<byte>, k: nat)
    requires k < |s| && Decode(s).1 == []
    ensures Decode(s[..k]).0.Failed?
  {
    assert s[..k] + s[k..] == s;
    if Decode(s[..k]).0.Got? { LeavesMore(s[..k], s[k..]); }
  }

  lemma LeavesNothing(frame: Frame, key: Key)
    requires |frame.payload| <= MAX_SLICE
    ensures Decode(Encode(frame, key)).1 == []
  {
    RoundTrip(frame, key, []);
    assert Encode(frame, key) + [] == Encode(frame, key);
  }

  lemma LeavesMore(s: seq<byte>, more: seq<byte>)
    requires Decode(s).0.Got? && more != []
    ensures Decode(s + more).1 != []
  {
    DecodeStable(s, more);
  }

  /** The length encoding is minimal: no masked byte string that reads as the same frame is shorter. */
  lemma MinimalLength(s: seq<byte>, frame: Frame, key: Key)
    requires Decode(s) == (Got(frame), []) && |frame.payload| <= MAX_SLICE
    ensures |s| >= |Encode(frame, key)| - (if s[1] >= MASK_BIT then 0 else KEY_SIZE)
  {
    FromBigEndianBound(s[2..2 + ExtraLength(s[1])]);
    Powers();
  }

  // ---- Frames byte by byte ----

  /** The second byte and the extended length, as section 5.2 of RFC 6455 lays them out; `mask` is 0x80 for a
      masked frame and 0 for one that is not. */
  function LengthBytes(mask: byte, n: nat): seq<byte>
    requires mask == 0 || mask == 0x80
  {
    if n <= 125 then [mask + n]
    else if n <= 65535 then [mask + 126, n / 256 % 256, n % 256]
    else [mask + 127] + EightBytes(n)
  }

  lemma FieldBytes(n: nat)
    ensures LengthField(n) == LengthBytes(0x80, n)
  {
    EightDigits(n);
    TwoDigits(n);
  }

  /** Every frame written has the final bit set, its opcode below it, the mask bit, the length in its
      shortest form, the key, and the payload masked bit by bit. */
  lemma WrittenBytes(frame: Frame, key: Key)
    requires frame.opcode < 0x80
    ensures Encode(frame, key) ==
            [0x80 + frame.opcode] + LengthBytes(0x80, |frame.payload|) + key + Masked(frame.payload, key)
    ensures forall i, j: nat | 0 <= i < |frame.payload| && j < 8 ::
              Bit(Masked(frame.payload, key)[i], j) == (Bit(frame.payload[i], j) + Bit(key[i % 4], j)) % 2
  {
    FieldBytes(|frame.payload|);
    forall i, j: nat | 0 <= i < |frame.payload| && j < 8
      ensures Bit(Masked(frame.payload, key)[i], j) == (Bit(frame.payload[i], j) + Bit(key[i % 4], j)) % 2
    {
      XorBit(frame.payload[i], key[i % KEY_SIZE], j);
    }
  }

  // ---- Frames that are not masked, as a server sends them ----

  function Plain(frame: Frame): seq<byte> {
    [0x80 + frame.opcode % 16] + LengthBytes(0, |frame.payload|) + frame.payload
  }

  predicate PlainLengthReadBack(n: nat) {
    var f := LengthBytes(0, n);
    && f[0] < MASK_BIT && |f| == 1 + ExtraLength(f[0])
    && n == (if ExtraLength(f[0]) == 0 then f[0] % 0x80 else FromBigEndian(f[1..]))
  }

  lemma PlainLongRead(n: nat)
    requires 65535 < n <= MAX_SLICE
    ensures PlainLengthReadBack(n)
  {
    EightRead(n);
    assert LengthBytes(0, n)[1..] == EightBytes(n);
  }

  lemma PlainMediumRead(n: nat)
    requires 125 < n <= 65535
    ensures PlainLengthReadBack(n)
  {
    Powers();
    TwoDigits(n);
    BigEndianInverse(n, 2);
    assert LengthBytes(0, n)[1..] == BigEndian(n, 2);
  }

  lemma PlainHeader(n: nat)
    requires n <= MAX_SLICE
    ensures PlainLengthReadBack(n)
  {
    if n > 65535 { PlainLongRead(n); } else if n > 125 { PlainMediumRead(n); }
  }

  /** A frame that is not masked is read back whole, whatever its length, and the stream is left just
      behind it. */
  lemma PlainRead(frame: Frame, tail: seq<byte>)
    requires frame.opcode < 16 && |frame.payload| <= MAX_SLICE
    ensures Decode(Plain(frame) + tail) == (Got(frame), tail)
  {
    PlainDecoded(frame, tail);
    PlainBody(frame, LengthBytes(0, |frame.payload|)[0], tail);
  }

  lemma PlainDecoded(frame: Frame, tail: seq<byte>)
    requires frame.opcode < 16 && |frame.payload| <= MAX_SLICE
    ensures var h1 := LengthBytes(0, |frame.payload|)[0];
            h1 < MASK_BIT && DecodeHeader(Plain(frame) + tail) ==
                             Header(0x80 + frame.opcode, h1, |frame.payload|, frame.payload + tail)
  {
    var s, field := Plain(frame) + tail, LengthBytes(0, |frame.payload|);
    PlainHeader(|frame.payload|);
    HeaderOf(0x80 + frame.opcode, field, frame.payload + tail);
    PlainParts(frame, tail);
  }

  lemma PlainParts(frame: Frame, tail: seq<byte>)
    requires frame.opcode < 16
    ensures Plain(frame) + tail ==
            [0x80 + frame.opcode] + LengthBytes(0, |frame.payload|) + (frame.payload + tail)
  {
    Associative([0x80 + frame.opcode] + LengthBytes(0, |frame.payload|), frame.payload, tail);
  }

  lemma HeaderOf(h0: byte, field: seq<byte>, rest: seq<byte>)
    requires field != [] && |field| == 1 + ExtraLength(field[0])
    ensures var n := if ExtraLength(field[0]) == 0 then field[0] % 0x80 else FromBigEndian(field[1..]);
            DecodeHeader([h0] + field + rest) == Header(h0, field[0], n, rest)
  {
    var s := [h0] + field + rest;
    assert s[1] == field[0] && s[2..1 + |field|] == field[1..] && s[1 + |field|..] == rest;
  }

  lemma PlainBody(frame: Frame, h1: byte, tail: seq<byte>)
    requires frame.opcode < 16 && |frame.payload| <= MAX_SLICE && h1 < MASK_BIT
    ensures DecodeBody(Header(0x80 + frame.opcode, h1, |frame.payload|, frame.payload + tail)) == (Got(frame), tail)
  {
    UnmaskedBody(0x80 + frame.opcode, h1, frame.payload, tail);
  }

  lemma UnmaskedBody(h0: byte, h1: byte, payload: seq<byte>, tail: seq<byte>)
    requires |payload| <= MAX_SLICE && h1 < MASK_BIT
    ensures DecodeBody(Header(h0, h1, |payload|, payload + tail)) == (Got(Frame(h0 % 16, payload)), tail)
  {
    assert (payload + tail)[0..0 + |payload|] == payload;
    assert (payload + tail)[0 + |payload|..] == tail;
  }

  lemma FieldRead(h0: byte, field: seq<byte>, payload: seq<byte>, tail: seq<byte>)
    requires field != [] && field[0] < MASK_BIT && |field| == 1 + ExtraLength(field[0]) && |payload| <= MAX_SLICE
    requires |payload| == if ExtraLength(field[0]) == 0 then field[0] % 0x80 else FromBigEndian(field[1..])
    ensures Decode([h0] + field + (payload + tail)) == (Got(Frame(h0 % 16, payload)), tail)
  {
    HeaderOf(h0, field, payload + tail);
    UnmaskedBody(h0, field[0], payload, tail);
  }

  lemma ShortFormRead(h0: byte, payload: seq<byte>, tail: seq<byte>)
    requires |payload| <= 125
    ensures Decode([h0] + [|payload|] + (payload + tail)) == (Got(Frame(h0 % 16, payload)), tail)
  {
    FieldRead(h0, [|payload|], payload, tail);
  }

  lemma MediumFormRead(h0: byte, payload: seq<byte>, tail: seq<byte>)
    requires |payload| <= 65535
    ensures var n := |payload|;
            Decode([h0] + [126, n / 256, n % 256] + (payload + tail)) == (Got(Frame(h0 % 16, payload)), tail)
  {
    var field: seq<byte> := [126, |payload| / 256, |payload| % 256];
    TwoRead(|payload|);
    assert field[1..] == [|payload| / 256, |payload| % 256];
    FieldRead(h0, field, payload, tail);
  }

  lemma LongFormRead(h0: byte, payload: seq<byte>, tail: seq<byte>)
    requires |payload| <= MAX_SLICE
    ensures Decode([h0] + ([127] + EightBytes(|payload|)) + (payload + tail)) == (Got(Frame(h0 % 16, payload)), tail)
  {
    var field: seq<byte> := [127] + EightBytes(|payload|);
    EightRead(|payload|);
    assert field[1..] == EightBytes(|payload|);
    FieldRead(h0, field, payload, tail);
  }

  /** Whatever the upper four bits of the first byte, and also when the length is not in its shortest form,
      an unmasked frame is read whole: the opcode is the lower four bits, the payload is what the length
      announces. */
  lemma LooselyRead(h0: byte, payload: seq<byte>, tail: seq<byte>)
    requires |payload| <= MAX_SLICE
    ensures var n, read := |payload|, (Got(Frame(h0 % 16, payload)), tail);
            && (n <= 125 ==> Decode([h0] + [n] + (payload + tail)) == read)
            && (n <= 65535 ==> Decode([h0] + [126, n / 256, n % 256] + (payload + tail)) == read)
            && Decode([h0] + ([127] + EightBytes(n)) + (payload + tail)) == read
  {
    if |payload| <= 125 { ShortFormRead(h0, payload, tail); }
    if |payload| <= 65535 { MediumFormRead(h0, payload, tail); }
    LongFormRead(h0, payload, tail);
  }

  /** A frame on the wire, from a client or from a server. */
  datatype Sent = ByClient(frame: Frame, key: Key) | ByServer(frame: Frame)

  function Wire(x: Sent): seq<byte> {
    match x
    case ByClient(frame, key) => Encode(frame, key)
    case ByServer(frame) => Plain(frame)
  }

  predicate Sendable(xs: seq<Sent>) {
    forall x | x in xs :: x.frame.opcode < 16 && |x.frame.payload| <= MAX_SLICE
  }

  function WireAll(xs: seq<Sent>): seq<byte> {
    FlatMap(Wire, xs)
  }

  function SentFrames(xs: seq<Sent>): (frames: seq<Frame>)
    ensures |frames| == |xs|
  {
    seq(|xs|, i requires 0 <= i < |xs| => xs[i].frame)
  }

  lemma WireRead(x: Sent, tail: seq<byte>)
    requires x.frame.opcode < 16 && |x.frame.payload| <= MAX_SLICE
    ensures DecodeAll(Wire(x) + tail) == ([x.frame] + DecodeAll(tail).0, DecodeAll(tail).1)
  {
    match x
    case ByClient(frame, key) => RoundTripExact(frame, key, tail);
    case ByServer(frame) => PlainRead(frame, tail);
  }

  /** Any list of frames, masked or not, is read back exactly, and every byte is consumed. */
  lemma {:induction false} WireRoundTrip(xs: seq<Sent>)
    requires Sendable(xs)
    ensures DecodeAll(WireAll(xs)) == (SentFrames(xs), Broken(Eof))
  {
    if xs != [] {
      assert xs[0] in xs;
      assert Sendable(xs[1..]) by { forall x | x in xs[1..] ensures x in xs { } }
      WireRoundTrip(xs[1..]);
      WireRead(xs[0], WireAll(xs[1..]));
      FirstOnWire(xs);
    } else {
      NothingOnWire(xs);
    }
  }

  lemma FirstOnWire(xs: seq<Sent>)
    requires xs != []
    ensures WireAll(xs) == Wire(xs[0]) + WireAll(xs[1..]) && SentFrames(xs) == [xs[0].frame] + SentFrames(xs[1..])
  {
  }

  lemma NothingOnWire(xs: seq<Sent>)
    requires xs == []
    ensures WireAll(xs) == [] && SentFrames(xs) == [] && DecodeAll([]) == ([], Broken(Eof))
  {
  }

  /** No proper prefix of an unmasked frame is taken for a frame. */
  lemma PlainPrefixIncomplete(frame: Frame, k: nat)
    requires frame.opcode < 16 && |frame.payload| <= MAX_SLICE && k < |Plain(frame)|
    ensures Decode(Plain(frame)[..k]).0.Failed?
  {
    var s := Plain(frame);
    PlainLeavesNothing(frame);
    CutHasMore(s, k);
  }

  lemma PlainLeavesNothing(frame: Frame)
    requires frame.opcode < 16 && |frame.payload| <= MAX_SLICE
    ensures Decode(Plain(frame)).1 == []
  {
    PlainRead(frame, []);
    assert Plain(frame) + [] == Plain(frame);
  }
}
