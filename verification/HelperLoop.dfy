/**
 The capture helper's own copy of the streaming loop (agent/remote_session_windows.go, lines 396-553),
 which writes pipe messages where the direct loop writes to the browser.
 */
module HelperLoop {
  import opened Wrappers
  import opened Bytes
  import opened PipeFraming
  import opened EncoderModes
  import opened StreamEncoders
  import opened CrossSession
  import AnnexB

  const PIPE_FRAME: byte := 0x02
  const PIPE_JPEG: byte := 0x05
  const PIPE_VP9: byte := 0x06
  const PIPE_H265: byte := 0x08
  const PIPE_AV1: byte := 0x09

  /** The helper so far: the loop's state, the pipe messages written, and whether it has returned. */
  datatype Helping = Helping(p: Picture, written: seq<Message>, over: bool)

  function IfAny(kind: byte, outcome: Encoded): seq<Message> {
    if outcome.EncodeError? || outcome.data == [] then [] else [Message(kind, outcome.data)]
  }

  /** The branches of the helper's frame tick, for a frame of the expected size. */
  function HelperEncode(p: Picture, outcome: Encoded): (Picture, seq<Message>) {
    match p.mode
    case Jpeg => (p, if outcome.EncodeError? then [] else [Message(PIPE_JPEG, outcome.data)])
    case Av1 => (p, IfAny(PIPE_AV1, outcome))
    case H265 => (p, IfAny(PIPE_H265, outcome))
    case Vp9 => (p, IfAny(PIPE_VP9, outcome))
    case OpenH264 => (p, IfAny(PIPE_FRAME, outcome))
    case Silent => (p, [])
    case System =>
      var q := p.(inputs := p.inputs + 1);
      if outcome.EncodeError? then (q, [])
      else if outcome.data == [] then
        (if q.inputs >= FALLBACK_THRESHOLD && q.outputs == 0 then q.(mode := Jpeg) else q, [])
      else (q.(outputs := p.outputs + 1), [Message(PIPE_FRAME, AnnexB.Ensured(outcome.data))])
  }

  /** One turn of the helper's loop. */
  function HelperStep(marshal: Marshal, l: Helping, ev: Event): Helping {
    if l.over then l
    else match ev
         case CodecSwitch(codec, available, initOk) =>
           Helping(l.p.(mode := CodecMode(codec, available, initOk)),
                   l.written + [Message(PIPE_CONTROL, marshal(SwitchJson(codec)))], false)
         case MonitorSwitch(found, w, h, available, initOk) =>
           if !found then l.(p := l.p.(mode := Silent))
           else
             var mode := if available && initOk then OpenH264 else Jpeg;
             Helping(l.p.(mode := mode, width := w, height := h),
                     l.written + [Message(PIPE_INIT, marshal(InitJson(w, h, false)))], false)
         case Tick(grab, outcome) =>
           if grab.NoFrame? || l.p.width * l.p.height * 4 < grab.width * grab.height * 4 then l
           else if grab.width != l.p.width || grab.height != l.p.height then l.(over := true)
           else var (q, ms) := HelperEncode(l.p, outcome); Helping(q, l.written + ms, false)
  }

  // ---- The helper's loop on its flags and encoders ----

  /** The frame tick of the helper. */
  method HelperTick(loop: StreamLoop, grab: Grab, outcome: Encoded) returns (sent: seq<Message>, left: bool)
    requires loop.Valid()
    modifies loop`useJPEG, loop.system, loop.openH264.i420, loop.vp9.i420, loop.h265.i420, loop.av1.i420
    ensures loop.Valid() && loop.bgraBuf == old(loop.bgraBuf)
    ensures forall marshal :: Helping(loop.View(), sent, left) ==
                              HelperStep(marshal, Helping(old(loop.View()), [], false), Tick(grab, outcome))
  {
    sent, left := [], false;
    if grab.NoFrame? || loop.bgraBuf.Length < grab.width * grab.height * 4 {
      return;
    }
    if grab.width != loop.width || grab.height != loop.height {
      left := true;
      return;
    }
    if loop.useJPEG {
      if outcome.EncodeError? {
        return;
      }
      sent := [Message(PIPE_JPEG, outcome.data)];
    } else if loop.useAV1 {
      var r := loop.av1.Encode(loop.bgraBuf, loop.width, loop.height, outcome);
      sent := IfAny(PIPE_AV1, r);
    } else if loop.useH265 {
      var r := loop.h265.Encode(loop.bgraBuf, loop.width, loop.height, outcome);
      sent := IfAny(PIPE_H265, r);
    } else if loop.useVP9 {
      var r := loop.vp9.Encode(loop.bgraBuf, loop.width, loop.height, outcome);
      sent := IfAny(PIPE_VP9, r);
    } else if loop.useOpenH264 {
      var r := loop.openH264.Encode(loop.bgraBuf, loop.width, loop.height, outcome);
      sent := IfAny(PIPE_FRAME, r);
    } else {
      sent := HelperSystem(loop, outcome);
    }
  }

  /** The last branch: the system encoder and its silent fallback. */
  method HelperSystem(loop: StreamLoop, outcome: Encoded) returns (sent: seq<Message>)
    requires loop.Valid() && !loop.useOpenH264 && !loop.useVP9 && !loop.useH265 && !loop.useAV1 && !loop.useJPEG
    modifies loop`useJPEG, loop.system
    ensures loop.Valid() && (loop.View(), sent) == HelperEncode(old(loop.View()), outcome)
  {
    sent := [];
    var r := loop.system.Encode(loop.bgraBuf, loop.width, loop.height, outcome);
    if r.EncodeError? {
      return;
    }
    if r.data == [] {
      if loop.system.inputs >= FALLBACK_THRESHOLD && loop.system.outputs == 0 {
        loop.useJPEG := true;
        loop.system.Close();
      }
      return;
    }
    sent := [Message(PIPE_FRAME, r.data)];
  }

  /** The helper's own codec branch. */
  method HelperCodecSwitch(loop: StreamLoop, marshal: Marshal, codec: string, available: bool, initOk: bool)
    returns (sent: seq<Message>)
    requires loop.Valid()
    modifies loop, loop.openH264, loop.vp9, loop.h265, loop.av1, loop.system
    ensures loop.Valid() && loop.BuffersKept() && loop.bgraBuf == old(loop.bgraBuf)
    ensures Helping(loop.View(), sent, false) ==
            HelperStep(marshal, Helping(old(loop.View()), [], false), CodecSwitch(codec, available, initOk))
  {
    loop.CloseFlagged();
    if !loop.useJPEG {
      loop.system.Close();
    }
    loop.useJPEG := false;
    loop.OpenCodec(codec, available, initOk);
    sent := [Message(PIPE_CONTROL, marshal(SwitchJson(codec)))];
  }

  /** The helper's own monitor branch. */
  method HelperMonitorSwitch(loop: StreamLoop, marshal: Marshal, found: bool, w: nat, h: nat,
                             available: bool, initOk: bool)
    returns (sent: seq<Message>)
    requires loop.Valid()
    modifies loop, loop.openH264, loop.vp9, loop.h265, loop.av1, loop.system
    ensures loop.Valid() && loop.BuffersKept() && (loop.bgraBuf == old(loop.bgraBuf) || fresh(loop.bgraBuf))
    ensures Helping(loop.View(), sent, false) ==
            HelperStep(marshal, Helping(old(loop.View()), [], false), MonitorSwitch(found, w, h, available, initOk))
  {
    loop.CloseFlagged();
    loop.system.Close();
    loop.useJPEG := false;
    if !found {
      return [];
    }
    loop.Recapture(w, h, available, initOk);
    sent := [Message(PIPE_INIT, marshal(InitJson(w, h, false)))];
  }

  // ---- Helper and direct loop ----

  /** One turn: the same state, and the message that stands for the direct loop's emission. */
  lemma SameStep(marshal: Marshal, p: Picture, ev: Event)
    ensures var (q, e) := Step(p, ev);
            HelperStep(marshal, Helping(p, [], false), ev) == Helping(q, Helper(marshal, FromLoop(e)), e.Quit?)
  {
  }

  lemma WrittenAppended(marshal: Marshal, l: Helping, ev: Event)
    requires !l.over
    ensures var m := HelperStep(marshal, Helping(l.p, [], false), ev);
            HelperStep(marshal, l, ev) == Helping(m.p, l.written + m.written, m.over)
  {
    assert l.written + [] == l.written;
  }
}
