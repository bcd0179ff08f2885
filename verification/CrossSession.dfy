/**
 The cross-session path (agent/remote_session_windows.go): a helper process runs the streaming loop and
 writes pipe messages, the service reads them and re-tags them for the browser. Compared here with the
 direct path (agent/stream.go), message by message and over whole streams. TwoPaths compares whole runs.

 Each pipe message is taken as written whole, and no read deadline strikes inside one.
 */
module CrossSession {
  import opened Wrappers
  import opened Bytes
  import opened ByteStreams
  import opened PipeFraming
  import opened Sequences
  import EncoderModes

  /** The JSON documents of both paths; `codecs` says whether the list of codecs is in it. The last three
      belong to the direct path alone. */
  datatype Json =
    | InitJson(width: nat, height: nat, codecs: bool)
    | SwitchJson(codec: string)
    | BlockJson(blocked: bool)
    | ClipboardJson(text: string)
    | WarningJson(seconds: nat)
    | TimeoutJson

  /** A WebSocket message to the browser. */
  datatype ToBrowser = Text(json: seq<byte>) | Binary(frame: seq<byte>)

  /** What a stream has to say: an emission of the loop, a chunk of audio, the confirmation of an input
      block, the answer to a clipboard request, the inactivity warning, the inactivity timeout. */
  datatype Said =
    | FromLoop(e: EncoderModes.Emission)
    | Audio(pcm: seq<byte>)
    | Blocked(blocked: bool)
    | Clipboard(text: string)
    | IdleWarning
    | IdleTimeout

  const WARNING_SECONDS := 30

  type Marshal = Json -> seq<byte>

  const FRAME_AUDIO: byte := 0x06
  const PIPE_INIT: byte := 0x01
  const PIPE_CONTROL: byte := 0x07
  const PIPE_AUDIO: byte := 0x0A

  /** First byte of a binary message to the browser. */
  function FrameType(mode: EncoderModes.Mode): byte {
    match mode
    case Jpeg => 0x01
    case Vp9 => 0x03
    case H265 => 0x04
    case Av1 => 0x05
    case _ => 0x02
  }

  /** Type byte of a frame on the pipe. */
  function PipeType(mode: EncoderModes.Mode): byte {
    match mode
    case Jpeg => 0x05
    case Vp9 => 0x06
    case H265 => 0x08
    case Av1 => 0x09
    case _ => 0x02
  }

  // ---- The two paths ----

  /** The direct path's message, if any. */
  function Direct(marshal: Marshal, s: Said): seq<ToBrowser> {
    match s
    case FromLoop(Video(mode, data)) => [Binary([FrameType(mode)] + data)]
    case FromLoop(ReInit(w, h)) => [Text(marshal(InitJson(w, h, true)))]
    case FromLoop(Switched(codec)) => [Text(marshal(SwitchJson(codec)))]
    case FromLoop(FellBack) => [Text(marshal(SwitchJson("jpeg")))]
    case FromLoop(_) => []
    case Audio(pcm) => if pcm == [] then [] else [Binary([FRAME_AUDIO] + pcm)]
    case Blocked(b) => [Text(marshal(BlockJson(b)))]
    case Clipboard(text) => [Text(marshal(ClipboardJson(text)))]
    case IdleWarning => [Text(marshal(WarningJson(WARNING_SECONDS)))]
    case IdleTimeout => [Text(marshal(TimeoutJson))]
  }

  /** The helper's pipe message, if any. It says nothing when it falls back to JPEG, has no inactivity
      timers, and does not answer clipboard requests. */
  function Helper(marshal: Marshal, s: Said): seq<Message> {
    match s
    case FromLoop(Video(mode, data)) => [Message(PipeType(mode), data)]
    case FromLoop(ReInit(w, h)) => [Message(PIPE_INIT, marshal(InitJson(w, h, false)))]
    case FromLoop(Switched(codec)) => [Message(PIPE_CONTROL, marshal(SwitchJson(codec)))]
    case FromLoop(_) => []
    case Audio(pcm) => if pcm == [] then [] else [Message(PIPE_AUDIO, pcm)]
    case Blocked(b) => [Message(PIPE_CONTROL, marshal(BlockJson(b)))]
    case _ => []
  }

  /** What the service forwards for a pipe message; other types, an init among them, are ignored. */
  function Forwarded(m: Message): seq<ToBrowser> {
    if m.kind == PIPE_CONTROL then [Text(m.payload)]
    else if m.kind == PIPE_AUDIO then [Binary([FRAME_AUDIO] + m.payload)]
    else if m.kind == 0x02 then [Binary([0x02] + m.payload)]
    else if m.kind == 0x05 then [Binary([0x01] + m.payload)]
    else if m.kind == 0x06 then [Binary([0x03] + m.payload)]
    else if m.kind == 0x08 then [Binary([0x04] + m.payload)]
    else if m.kind == 0x09 then [Binary([0x05] + m.payload)]
    else []
  }

  function ForwardedAll(ms: seq<Message>): seq<ToBrowser> {
    FlatMap(Forwarded, ms)
  }

  function DirectBy(marshal: Marshal): Said -> seq<ToBrowser> {
    s => Direct(marshal, s)
  }

  function HelperBy(marshal: Marshal): Said -> seq<Message> {
    s => Helper(marshal, s)
  }

  function DirectAll(marshal: Marshal, said: seq<Said>): seq<ToBrowser> {
    FlatMap(DirectBy(marshal), said)
  }

  function HelperAll(marshal: Marshal, said: seq<Said>): seq<Message> {
    FlatMap(HelperBy(marshal), said)
  }

  /** What the browser gets through pipe and service. */
  function ThroughPipe(marshal: Marshal, said: seq<Said>): seq<ToBrowser> {
    ForwardedAll(ParseAll(FramedAll(HelperAll(marshal, said)), Some(CAPTURE_CAP)).0)
  }

  // ---- The service's loop ----

  /** What the loop makes of one pipe message. */
  method Retag(m: Message) returns (browser: seq<ToBrowser>)
    ensures browser == Forwarded(m)
  {
    browser := [];
    if m.kind == PIPE_CONTROL {
      browser := [Text(m.payload)];
    } else if m.kind == PIPE_AUDIO {
      browser := [Binary([FRAME_AUDIO] + m.payload)];
    } else if m.kind == 0x02 || m.kind == 0x05 || m.kind == 0x06 || m.kind == 0x08 || m.kind == 0x09 {
      var ft: byte := 0x02;
      if m.kind == 0x05 {
        ft := 0x01;
      } else if m.kind == 0x06 {
        ft := 0x03;
      } else if m.kind == 0x08 {
        ft := 0x04;
      } else if m.kind == 0x09 {
        ft := 0x05;
      }
      browser := [Binary([ft] + m.payload)];
    }
  }

  lemma ForwardedFirst(s: seq<byte>, m: Message, rest: seq<byte>)
    requires Parse(s, Some(CAPTURE_CAP)) == (Got(m), rest)
    ensures ForwardedAll(ParseAll(s, Some(CAPTURE_CAP)).0) ==
            Forwarded(m) + ForwardedAll(ParseAll(rest, Some(CAPTURE_CAP)).0)
  {
    FlatMapFirst(Forwarded, m, ParseAll(rest, Some(CAPTURE_CAP)).0);
  }

  /** Reads the helper's messages until the pipe fails and forwards each one. */
  method RelayHelper(r: Source) returns (browser: seq<ToBrowser>)
    modifies r
    ensures browser == ForwardedAll(ParseAll(old(r.Pending()), Some(CAPTURE_CAP)).0)
  {
    browser := [];
    ghost var all := ForwardedAll(ParseAll(r.Pending(), Some(CAPTURE_CAP)).0);
    while true
      invariant all == browser + ForwardedAll(ParseAll(r.Pending(), Some(CAPTURE_CAP)).0)
      decreases |r.Pending()|
    {
      ghost var pending := r.Pending();
      var got := PipeRecv(r);
      if got.Failed? {
        assert ParseAll(pending, Some(CAPTURE_CAP)).0 == [];
        return;
      }
      var one := Retag(got.message);
      ForwardedFirst(pending, got.message, r.Pending());
      Associative(browser, one, ForwardedAll(ParseAll(r.Pending(), Some(CAPTURE_CAP)).0));
      browser := browser + one;
    }
  }

  // ---- Comparison ----

  /** What the direct path tells the browser and the cross-session path does not: the new size after a
      monitor switch, the fallback to JPEG, the clipboard, the inactivity warning and timeout. */
  predicate LostAcross(s: Said) {
    (s.FromLoop? && (s.e.ReInit? || s.e.FellBack?)) || s.Clipboard? || s.IdleWarning? || s.IdleTimeout?
  }

  function KeepOne(s: Said): seq<Said> {
    if LostAcross(s) then [] else [s]
  }

  function Kept(said: seq<Said>): seq<Said> {
    FlatMap(KeepOne, said)
  }

  /** Re-tagging turns each helper message into exactly the direct path's message, or into none. */
  lemma OneMessage(marshal: Marshal, s: Said)
    ensures ForwardedAll(Helper(marshal, s)) == if LostAcross(s) then [] else Direct(marshal, s)
  {
    if Helper(marshal, s) != [] {
      assert Helper(marshal, s) == [Helper(marshal, s)[0]];
      FlatMapOne(Forwarded, Helper(marshal, s)[0]);
    }
  }

  lemma KeptOne(marshal: Marshal, s: Said)
    ensures DirectAll(marshal, KeepOne(s)) == if LostAcross(s) then [] else Direct(marshal, s)
  {
    FlatMapOne(DirectBy(marshal), s);
  }

  lemma {:induction false} RetaggedAll(marshal: Marshal, said: seq<Said>)
    ensures ForwardedAll(HelperAll(marshal, said)) == DirectAll(marshal, Kept(said))
  {
    if said != [] {
      var s, rest := said[0], said[1..];
      RetaggedAll(marshal, rest);
      OneMessage(marshal, s);
      KeptOne(marshal, s);
      FlatMapConcat(Forwarded, Helper(marshal, s), HelperAll(marshal, rest));
      FlatMapConcat(DirectBy(marshal), KeepOne(s), Kept(rest));
    }
  }

  /** Every message the helper writes is within the cap of the pipe. */
  predicate WithinCap(marshal: Marshal, said: seq<Said>) {
    forall m | m in HelperAll(marshal, said) :: |m.payload| <= CAPTURE_CAP
  }

  /** Through the pipe the browser gets exactly the direct path's messages, in order and byte for byte,
      without the kinds that are lost. */
  lemma ThroughPipeExactly(marshal: Marshal, said: seq<Said>)
    requires WithinCap(marshal, said)
    ensures ThroughPipe(marshal, said) == DirectAll(marshal, Kept(said))
  {
    var ms := HelperAll(marshal, said);
    assert forall m | m in ms :: |m.payload| < LENGTH_LIMIT && !Over(|m.payload|, Some(CAPTURE_CAP));
    ListRoundTrip(ms, Some(CAPTURE_CAP));
    RetaggedAll(marshal, said);
  }

  /** With an oversized message the browser gets what came before it, and then the stream ends. */
  lemma CutAtOversized(marshal: Marshal, said: seq<Said>)
    requires forall m | m in HelperAll(marshal, said) :: |m.payload| < LENGTH_LIMIT
    ensures var ms := HelperAll(marshal, said);
            ThroughPipe(marshal, said) == ForwardedAll(ms[..Passing(ms, Some(CAPTURE_CAP))])
  {
    ReceiveAllSent(HelperAll(marshal, said), Some(CAPTURE_CAP));
  }

  predicate NothingLost(said: seq<Said>) {
    forall s | s in said :: !LostAcross(s)
  }

  lemma {:induction false} KeptShorter(marshal: Marshal, said: seq<Said>)
    ensures |DirectAll(marshal, Kept(said))| <= |DirectAll(marshal, said)|
    ensures |DirectAll(marshal, Kept(said))| == |DirectAll(marshal, said)| <==> NothingLost(said)
    ensures NothingLost(said) ==> Kept(said) == said
  {
    if said != [] {
      var s, rest := said[0], said[1..];
      KeptShorter(marshal, rest);
      assert said == [s] + rest;
      assert NothingLost(said) <==> !LostAcross(s) && NothingLost(rest);
      FlatMapConcat(DirectBy(marshal), KeepOne(s), Kept(rest));
      KeptOne(marshal, s);
    }
  }

  /** The two paths tell the browser the same exactly when nothing of the lost kinds was said. */
  lemma PathsAgree(marshal: Marshal, said: seq<Said>)
    requires WithinCap(marshal, said)
    ensures ThroughPipe(marshal, said) == DirectAll(marshal, said) <==> NothingLost(said)
  {
    ThroughPipeExactly(marshal, said);
    KeptShorter(marshal, said);
  }

  // ---- Video and audio only ----

  function BinaryOnly(m: ToBrowser): seq<ToBrowser> {
    if m.Binary? then [m] else []
  }

  function BinariesOf(ms: seq<ToBrowser>): seq<ToBrowser> {
    FlatMap(BinaryOnly, ms)
  }

  lemma LostIsText(marshal: Marshal, s: Said)
    requires LostAcross(s)
    ensures BinariesOf(Direct(marshal, s)) == []
  {
    assert Direct(marshal, s) == [Direct(marshal, s)[0]];
    FlatMapOne(BinaryOnly, Direct(marshal, s)[0]);
  }

  lemma {:induction false} KeptBinaries(marshal: Marshal, said: seq<Said>)
    ensures BinariesOf(DirectAll(marshal, Kept(said))) == BinariesOf(DirectAll(marshal, said))
  {
    if said != [] {
      var s, rest := said[0], said[1..];
      KeptBinaries(marshal, rest);
      FlatMapConcat(DirectBy(marshal), KeepOne(s), Kept(rest));
      KeptOne(marshal, s);
      FlatMapConcat(BinaryOnly, Direct(marshal, s), DirectAll(marshal, rest));
      FlatMapConcat(BinaryOnly, DirectAll(marshal, KeepOne(s)), DirectAll(marshal, Kept(rest)));
      if LostAcross(s) { LostIsText(marshal, s); }
    }
  }

  /** Video and audio are never lost: whatever the loop did, the binary messages are the direct path's. */
  lemma SameVideo(marshal: Marshal, said: seq<Said>)
    requires WithinCap(marshal, said)
    ensures BinariesOf(ThroughPipe(marshal, said)) == BinariesOf(DirectAll(marshal, said))
  {
    ThroughPipeExactly(marshal, said);
    KeptBinaries(marshal, said);
  }

  // ---- Whole runs of the loop ----

  /** What a run of the loop says. */
  function SaidBy(sent: seq<EncoderModes.Emission>): (said: seq<Said>)
    ensures |said| == |sent|
  {
    seq(|sent|, i requires 0 <= i < |sent| => FromLoop(sent[i]))
  }

  /** The tick at which the system encoder gives way to JPEG. */
  predicate FallsBackNow(p: EncoderModes.Picture, ev: EncoderModes.Event) {
    && p.mode.System? && ev.Tick? && ev.grab == EncoderModes.Grabbed(p.width, p.height)
    && ev.outcome == EncoderModes.Output([]) && p.outputs == 0 && p.inputs + 1 >= 30
  }

  /** What a turn of the loop says is lost exactly when it is a successful monitor switch or the fallback. */
  lemma LostTurns(p: EncoderModes.Picture, ev: EncoderModes.Event)
    ensures LostAcross(FromLoop(EncoderModes.Step(p, ev).1)) <==>
            (ev.MonitorSwitch? && ev.found) || FallsBackNow(p, ev)
  {
  }
}
