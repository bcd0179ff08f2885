/**
 Length-prefixed messages between the service and its helper processes (agent/remote_session_windows.go,
 agent/chat.go): a little-endian 32-bit length, a type byte, the payload.

 The capture pipe refuses messages above 8 MiB, the chat pipe takes any length.
 */
module PipeFraming {
  import opened Wrappers
  import opened Bytes
  import opened Sequences
  import opened ByteStreams

  datatype Message = Message(kind: byte, payload: seq<byte>)

  datatype PipeError = Broken(cause: ReadError) | Oversized(length: nat)

  datatype Received = Got(message: Message) | Failed(error: PipeError)

  const HEADER := 5
  const CAPTURE_CAP := 8 * 1024 * 1024
  const LENGTH_LIMIT := 0x1_0000_0000

  /** The length field keeps the low 32 bits of the payload's length. */
  function Framed(m: Message): seq<byte> {
    LittleEndian(|m.payload|, 4) + [m.kind] + m.payload
  }

  function FramedAll(ms: seq<Message>): seq<byte> {
    FlatMap(Framed, ms)
  }

  function Length(s: seq<byte>): nat
    requires |s| >= HEADER
  {
    FromLittleEndian(s[..4])
  }

  predicate Over(length: nat, cap: Option<nat>) {
    cap.Some? && length > cap.value
  }

  /** One message off the front of a stream, and what remains of the stream. */
  function Parse(s: seq<byte>, cap: Option<nat>): (Received, seq<byte>) {
    if |s| < HEADER then (Failed(Broken(Shortage(s))), [])
    else if Over(Length(s), cap) then (Failed(Oversized(Length(s))), s[HEADER..])
    else if |s| < HEADER + Length(s) then (Failed(Broken(Shortage(s[HEADER..]))), [])
    else (Got(Message(s[4], s[HEADER..HEADER + Length(s)])), s[HEADER + Length(s)..])
  }

  /** Every message up to the first failure. */
  function ParseAll(s: seq<byte>, cap: Option<nat>): (seq<Message>, PipeError)
    decreases |s|
  {
    match Parse(s, cap)
    case (Failed(e), _) => ([], e)
    case (Got(m), rest) => var (ms, e) := ParseAll(rest, cap); ([m] + ms, e)
  }

  // ---- Operations ----

  method PipeSend(w: Sink, kind: byte, payload: seq<byte>) returns (ok: bool)
    modifies w`written
    ensures ok == w.open
    ensures w.written == if w.open then old(w.written) + Framed(Message(kind, payload)) else old(w.written)
  {
    var hdr := LittleEndian(|payload|, 4) + [kind];
    ok := w.Write(hdr);
    if !ok {
      return;
    }
    if |payload| > 0 {
      ok := w.Write(payload);
    }
    Associative(old(w.written), hdr, payload);
  }

  /** Receiver of the capture pipe. */
  method PipeRecv(r: Source) returns (result: Received)
    modifies r
    ensures (result, r.Pending()) == Parse(old(r.Pending()), Some(CAPTURE_CAP))
  {
    ghost var all := r.Pending();
    var hdr, err := r.ReadFull(HEADER);
    if err.Some? {
      return Failed(Broken(err.value));
    }
    assert hdr[..4] == all[..4];
    var length := FromLittleEndian(hdr[..4]);
    if length > CAPTURE_CAP {
      return Failed(Oversized(length));
    }
    var payload := [];
    if length > 0 {
      payload, err := r.ReadFull(length);
      if err.Some? {
        return Failed(Broken(err.value));
      }
    }
    assert all[HEADER..][..length] == all[HEADER..HEADER + length];
    assert all[HEADER..][length..] == all[HEADER + length..];
    result := Got(Message(hdr[4], payload));
  }

  /** Receiver of the chat pipe: the same without the cap. */
  method ChatPipeRecv(r: Source) returns (result: Received)
    modifies r
    ensures (result, r.Pending()) == Parse(old(r.Pending()), None)
  {
    ghost var all := r.Pending();
    var hdr, err := r.ReadFull(HEADER);
    if err.Some? {
      return Failed(Broken(err.value));
    }
    assert hdr[..4] == all[..4];
    var length := FromLittleEndian(hdr[..4]);
    var payload := [];
    if length > 0 {
      payload, err := r.ReadFull(length);
      if err.Some? {
        return Failed(Broken(err.value));
      }
    }
    assert all[HEADER..][..length] == all[HEADER..HEADER + length];
    assert all[HEADER..][length..] == all[HEADER + length..];
    result := Got(Message(hdr[4], payload));
  }

  // ---- Properties ----

  predicate Fits(m: Message, cap: Option<nat>) {
    |m.payload| < LENGTH_LIMIT && !Over(|m.payload|, cap)
  }

  lemma FramedLength(m: Message, tail: seq<byte>)
    ensures |Framed(m) + tail| >= HEADER
    ensures Length(Framed(m) + tail) == |m.payload| % LENGTH_LIMIT
  {
    var s := Framed(m) + tail;
    assert s[..4] == LittleEndian(|m.payload|, 4);
    LittleEndianInverse(|m.payload|, 4);
    Powers();
  }

  /** A message comes back whole, with the stream left just behind it, exactly when its length fits the
      32-bit field and the receiver's cap. */
  lemma RoundTrip(m: Message, tail: seq<byte>, cap: Option<nat>)
    requires cap.Some? ==> cap.value < LENGTH_LIMIT
    ensures Parse(Framed(m) + tail, cap) == (Got(m), tail) <==> Fits(m, cap)
  {
    var s := Framed(m) + tail;
    FramedLength(m, tail);
    assert s[4] == m.kind && s[HEADER..] == m.payload + tail;
    if Fits(m, cap) {
      assert Length(s) == |m.payload|;
      assert s[HEADER..HEADER + |m.payload|] == m.payload;
      assert s[HEADER + |m.payload|..] == tail;
    } else if |m.payload| >= LENGTH_LIMIT {
      assert Length(s) < LENGTH_LIMIT;
    }
  }

  /** A message above the cap is refused with its length, and only its header is consumed. */
  lemma OversizedRefused(m: Message, tail: seq<byte>, cap: nat)
    requires cap < |m.payload| < LENGTH_LIMIT
    ensures Parse(Framed(m) + tail, Some(cap)) == (Failed(Oversized(|m.payload|)), m.payload + tail)
  {
    var s := Framed(m) + tail;
    FramedLength(m, tail);
    assert Length(s) == |m.payload| && Over(Length(s), Some(cap));
    assert s[HEADER..] == m.payload + tail;
  }

  /** The number of messages in front of the first one above the cap. */
  function Passing(ms: seq<Message>, cap: Option<nat>): (k: nat)
    ensures k <= |ms|
  {
    if ms == [] || Over(|ms[0].payload|, cap) then 0 else 1 + Passing(ms[1..], cap)
  }

  /** Receiving what was sent returns the messages in front of the first one above the cap, and then the
      refusal of that one; without such a message, the whole list with nothing left. */
  lemma {:induction false} ReceiveAllSent(ms: seq<Message>, cap: Option<nat>)
    requires cap.Some? ==> cap.value < LENGTH_LIMIT
    requires forall m | m in ms :: |m.payload| < LENGTH_LIMIT
    ensures var k := Passing(ms, cap);
            ParseAll(FramedAll(ms), cap) ==
            (ms[..k], if k == |ms| then Broken(Eof) else Oversized(|ms[k].payload|))
  {
    if ms != [] {
      var m, rest := ms[0], ms[1..];
      if Over(|m.payload|, cap) {
        OversizedRefused(m, FramedAll(rest), cap.value);
      } else {
        assert m in ms && ms == [m] + rest;
        ReceiveAllSent(rest, cap);
        RoundTrip(m, FramedAll(rest), cap);
        ParseAllFirst(m, rest, cap);
        PassingFirst(m, rest, cap);
      }
    }
  }

  lemma PassingFirst(m: Message, rest: seq<Message>, cap: Option<nat>)
    requires !Over(|m.payload|, cap)
    ensures var k := Passing(rest, cap);
            && Passing([m] + rest, cap) == k + 1 && ([m] + rest)[..k + 1] == [m] + rest[..k]
            && (k < |rest| ==> ([m] + rest)[k + 1] == rest[k])
  {
    assert ([m] + rest)[1..] == rest;
  }

  lemma ParseAllFirst(m: Message, rest: seq<Message>, cap: Option<nat>)
    requires Parse(Framed(m) + FramedAll(rest), cap) == (Got(m), FramedAll(rest))
    ensures FramedAll([m] + rest) == Framed(m) + FramedAll(rest)
    ensures var (ms, e) := ParseAll(FramedAll(rest), cap);
            ParseAll(Framed(m) + FramedAll(rest), cap) == ([m] + ms, e)
  {
    assert ([m] + rest)[1..] == rest;
  }

  lemma {:induction false} AllPass(ms: seq<Message>, cap: Option<nat>)
    ensures Passing(ms, cap) == |ms| <==> forall m | m in ms :: !Over(|m.payload|, cap)
  {
    if ms != [] {
      AllPass(ms[1..], cap);
      assert ms == [ms[0]] + ms[1..];
    }
  }

  /** The list round trip: everything sent is received, and nothing is left, exactly when no message is
      above the cap. */
  lemma ListRoundTrip(ms: seq<Message>, cap: Option<nat>)
    requires cap.Some? ==> cap.value < LENGTH_LIMIT
    requires forall m | m in ms :: |m.payload| < LENGTH_LIMIT
    ensures ParseAll(FramedAll(ms), cap) == (ms, Broken(Eof)) <==> forall m | m in ms :: !Over(|m.payload|, cap)
  {
    ReceiveAllSent(ms, cap);
    AllPass(ms, cap);
    assert ms[..|ms|] == ms;
  }

  /** The two receivers behave alike exactly when the announced length is within the cap of the capture
      pipe; above it only the capped one refuses. */
  lemma ReceiversAgree(s: seq<byte>)
    ensures Parse(s, Some(CAPTURE_CAP)) == Parse(s, None) <==> (|s| < HEADER || Length(s) <= CAPTURE_CAP)
    ensures |s| >= HEADER && Length(s) > CAPTURE_CAP ==> Parse(s, Some(CAPTURE_CAP)).0 == Failed(Oversized(Length(s)))
    ensures !(Parse(s, None).0.Failed? && Parse(s, None).0.error.Oversized?)
  {
  }

  lemma ParseConsumes(s: seq<byte>, cap: Option<nat>)
    requires Parse(s, cap).0.Got?
    ensures s == Framed(Parse(s, cap).0.message) + Parse(s, cap).1
  {
    var (r, rest) := Parse(s, cap);
    FromLittleEndianBound(s[..4]);
    Powers();
    LittleEndianOf(s[..4]);
    assert s == s[..4] + [s[4]] + s[HEADER..HEADER + Length(s)] + s[HEADER + Length(s)..];
  }

  lemma {:induction false} LittleEndianOf(s: seq<byte>)
    ensures LittleEndian(FromLittleEndian(s), |s|) == s
  {
    if s != [] {
      LittleEndianOf(s[1..]);
      assert FromLittleEndian(s) / 256 == FromLittleEndian(s[1..]);
    }
  }

  // ---- Messages byte by byte ----

  /** A message on the pipe: four bytes of length, the least significant first, the type, the payload. */
  lemma SentBytes(m: Message)
    ensures var n := |m.payload|;
            Framed(m) == [n % 256, n / 0x100 % 256, n / 0x1_0000 % 256, n / 0x100_0000 % 256, m.kind] + m.payload
  {
    var n := |m.payload|;
    LittleFour(n);
  }

  lemma LittleFour(n: nat)
    ensures LittleEndian(n, 4) == [n % 256, n / 0x100 % 256, n / 0x1_0000 % 256, n / 0x100_0000 % 256]
  {
    assert n / 256 / 256 == n / 0x1_0000 && n / 256 / 256 / 256 == n / 0x100_0000;
    assert LittleEndian(n / 0x100_0000, 1) == [n / 0x100_0000 % 256];
    assert LittleEndian(n / 0x1_0000, 2) == [n / 0x1_0000 % 256, n / 0x100_0000 % 256];
    assert LittleEndian(n / 0x100, 3) == [n / 0x100 % 256, n / 0x1_0000 % 256, n / 0x100_0000 % 256];
  }

  function FourBytesOf(a: byte, b: byte, c: byte, d: byte): nat {
    a as int + 0x100 * (b as int) + 0x1_0000 * (c as int) + 0x100_0000 * (d as int)
  }

  lemma FourRead(a: byte, b: byte, c: byte, d: byte)
    ensures FromLittleEndian([a, b, c, d]) == FourBytesOf(a, b, c, d)
  {
    assert [a, b, c, d][1..] == [b, c, d] && [b, c, d][1..] == [c, d] && [c, d][1..] == [d] && [d][1..] == [];
    assert FromLittleEndian([d]) == d;
    assert FromLittleEndian([c, d]) == c + 256 * d;
  }

  /** What the capture pipe's receiver makes of five bytes and what follows: more than 8 MiB announced is
      refused, less than announced is a shortage, and otherwise the payload is what was announced. */
  lemma ReceivedBytes(a: byte, b: byte, c: byte, d: byte, kind: byte, rest: seq<byte>)
    ensures var n := FourBytesOf(a, b, c, d);
            Parse([a, b, c, d, kind] + rest, Some(CAPTURE_CAP)) ==
            if n > 8_388_608 then (Failed(Oversized(n)), rest)
            else if |rest| < n then (Failed(Broken(if rest == [] then Eof else UnexpectedEof)), [])
            else (Got(Message(kind, rest[..n])), rest[n..])
  {
    var s := [a, b, c, d, kind] + rest;
    var n := FourBytesOf(a, b, c, d);
    assert s[..4] == [a, b, c, d] && s[4] == kind && s[HEADER..] == rest;
    FourRead(a, b, c, d);
    if n <= |rest| {
      assert s[HEADER..HEADER + n] == rest[..n] && s[HEADER + n..] == rest[n..];
    }
  }
}
