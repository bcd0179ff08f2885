/**
 The streaming loop with its own state: five use-flags, five encoders, the capture buffer
 (agent/stream.go, lines 203-662).

 Libraries, capture and requests come in as parameters: whether a codec is available, whether its
 initialisation works, what it makes of a frame. The contract of every operation says that the flags and
 encoders together behave as the one-mode machine of EncoderModes; that every conversion finds buffers
 of the right size is checked at the calls themselves.
 */
module StreamEncoders {
  import opened Bytes
  import opened EncoderModes
  import AnnexB
  import I420

  /** A codec loaded from a library: OpenH264, VP9, H.265 or AV1. All four keep their state in globals. */
  class CodecEncoder {
    var open: bool
    var width: nat
    var height: nat
    var i420: array<byte>

    constructor ()
      ensures !open && fresh(i420)
    {
      open, width, height := false, 0, 0;
      i420 := new byte[0];
    }

    /** Open, configured for this size, with a picture buffer of this size. */
    predicate Ready(w: nat, h: nat)
      reads this
    {
      open && width == w && height == h && i420.Length == I420.ImageSize(w, h)
    }

    /** Initialisation of an encoder that is still open succeeds without configuring it again. */
    method Init(w: nat, h: nat, works: bool) returns (ok: bool)
      modifies this
      ensures ok == open == (old(open) || works)
      ensures if ok then fresh(i420) && i420.Length == I420.ImageSize(w, h) else i420 == old(i420)
      ensures (width, height) == if ok && !old(open) then (w, h) else (old(width), old(height))
    {
      if !open {
        if !works {
          return false;
        }
        width, height, open := w, h, true;
      }
      i420 := new byte[I420.ImageSize(w, h)];
      ok := true;
    }

    method Close()
      modifies this`open
      ensures !open
    {
      if open {
        open := false;
      }
    }

    /** Converts the frame and hands it to the library. */
    method Encode(bgra: array<byte>, w: nat, h: nat, outcome: Encoded) returns (r: Encoded)
      requires open ==> Ready(w, h) && bgra != i420 && bgra.Length >= w * h * 4
      modifies i420
      ensures r == if open then outcome else EncodeError
      ensures open ==> i420[..] == I420.Image(I420.Clamping, bgra[..], w, h)
    {
      if !open {
        return EncodeError;
      }
      I420.BgraToI420(bgra, w, h, i420);
      assert i420[..] == i420[..I420.ImageSize(w, h)];
      r := outcome;
    }
  }

  /** The Windows encoder, with the counters that decide about the fallback. */
  class SystemEncoder {
    var open: bool
    var width: nat
    var height: nat
    var inputs: nat
    var outputs: nat

    constructor ()
      ensures !open && inputs == outputs == 0
    {
      open, width, height, inputs, outputs := false, 0, 0, 0, 0;
    }

    method Init(w: nat, h: nat, works: bool) returns (ok: bool)
      modifies this`open, this`width, this`height
      ensures ok == works && open == (old(open) || works)
      ensures works ==> width == w && height == h
    {
      if !works {
        return false;
      }
      width, height, open := w, h, true;
      ok := true;
    }

    method Close()
      modifies this`open
      ensures !open
    {
      if open {
        open := false;
      }
    }

    /** Converts with the C routine, counts the frame, and turns AVCC output into Annex B. */
    method Encode(bgra: array<byte>, w: nat, h: nat, outcome: Encoded) returns (r: Encoded)
      requires open ==> width == w && height == h && bgra.Length >= w * h * 4
      modifies this`inputs, this`outputs
      ensures !open ==> r == EncodeError && inputs == old(inputs) && outputs == old(outputs)
      ensures open ==> inputs == old(inputs) + 1
      ensures open ==> match outcome
                       case EncodeError => r == EncodeError && outputs == old(outputs)
                       case Output(data) =>
                         if data == [] then r == Output([]) && outputs == old(outputs)
                         else r == Output(AnnexB.Ensured(data)) && outputs == old(outputs) + 1
    {
      if !open {
        return EncodeError;
      }
      var nv12 := new byte[I420.ImageSize(w, h)];
      I420.BgraToI420Wrapping(bgra, w, h, nv12);
      inputs := inputs + 1;
      match outcome
      case EncodeError =>
        r := EncodeError;
      case Output(data) =>
        if |data| == 0 {
          return Output([]);
        }
        outputs := outputs + 1;
        var out := AnnexB.EnsureAnnexB(data);
        r := Output(out);
    }
  }

  class StreamLoop {
    var useOpenH264: bool
    var useVP9: bool
    var useH265: bool
    var useAV1: bool
    var useJPEG: bool
    var width: nat
    var height: nat
    var bgraBuf: array<byte>
    const openH264: CodecEncoder
    const vp9: CodecEncoder
    const h265: CodecEncoder
    const av1: CodecEncoder
    const system: SystemEncoder

    /** The branch the frame tick takes. */
    function Mode(): Mode
      reads this, system
    {
      if useJPEG then Jpeg
      else if useAV1 then Av1
      else if useH265 then H265
      else if useVP9 then Vp9
      else if useOpenH264 then OpenH264
      else if system.open then System
      else Silent
    }

    function View(): Picture
      reads this, system
    {
      Picture(Mode(), width, height, system.inputs, system.outputs)
    }

    predicate Apart()
      reads this
    {
      && openH264 != vp9 && openH264 != h265 && openH264 != av1
      && vp9 != h265 && vp9 != av1 && h265 != av1
    }

    /** An encoder is open exactly when its flag is set, and then it fits the capture size. */
    predicate Matches(e: CodecEncoder, flag: bool)
      reads this, e
    {
      e.open == flag && (e.open ==> e.Ready(width, height)) && e.i420 != bgraBuf
    }

    /** At most one flag, at most one encoder, and every buffer of the current size. */
    predicate Valid()
      reads this, openH264, vp9, h265, av1, system
    {
      && Apart()
      && Matches(openH264, useOpenH264) && Matches(vp9, useVP9) && Matches(h265, useH265) && Matches(av1, useAV1)
      && (useOpenH264 ==> !useVP9 && !useH265 && !useAV1 && !useJPEG)
      && (useVP9 ==> !useH265 && !useAV1 && !useJPEG)
      && (useH265 ==> !useAV1 && !useJPEG)
      && (useAV1 ==> !useJPEG)
      && (system.open ==> !useOpenH264 && !useVP9 && !useH265 && !useAV1 && !useJPEG)
      && (system.open ==> system.width == width && system.height == height)
      && bgraBuf.Length == width * height * 4
    }

    predicate AllClosed()
      reads this, openH264, vp9, h265, av1, system
    {
      !openH264.open && !vp9.open && !h265.open && !av1.open && !system.open
    }

    /** Every picture buffer is the one it was, or a new one. */
    twostate predicate BuffersKept()
      reads this, openH264, vp9, h265, av1
    {
      && (openH264.i420 == old(openH264.i420) || fresh(openH264.i420))
      && (vp9.i420 == old(vp9.i420) || fresh(vp9.i420))
      && (h265.i420 == old(h265.i420) || fresh(h265.i420))
      && (av1.i420 == old(av1.i420) || fresh(av1.i420))
    }

    /** Start-up with every encoder closed. */
    constructor (openH264: CodecEncoder, vp9: CodecEncoder, h265: CodecEncoder, av1: CodecEncoder,
                 system: SystemEncoder, width: nat, height: nat, available: bool, openH264Ok: bool, systemOk: bool)
      requires openH264 != vp9 && openH264 != h265 && openH264 != av1 && vp9 != h265 && vp9 != av1 && h265 != av1
      requires !openH264.open && !vp9.open && !h265.open && !av1.open && !system.open
      modifies openH264, system
      ensures Valid() && fresh(bgraBuf)
      ensures useOpenH264 <==> available && openH264Ok
      ensures system.open <==> !(available && openH264Ok) && systemOk
      ensures !useVP9 && !useH265 && !useAV1 && !useJPEG && (this.width, this.height) == (width, height)
      ensures this.openH264 == openH264 && this.vp9 == vp9 && this.h265 == h265 && this.av1 == av1
      ensures this.system == system
      ensures View() == Picture(StartMode(available, openH264Ok, systemOk), width, height,
                                old(system.inputs), old(system.outputs))
    {
      this.openH264, this.vp9, this.h265, this.av1, this.system := openH264, vp9, h265, av1, system;
      this.width, this.height := width, height;
      useOpenH264, useVP9, useH265, useAV1, useJPEG := false, false, false, false, false;
      new;
      if available {
        useOpenH264 := openH264.Init(width, height, openH264Ok);
      }
      if !useOpenH264 {
        var _ := system.Init(width, height, systemOk);
      }
      bgraBuf := new byte[width * height * 4];
    }

    /** Closes the encoder in use, as both kinds of request begin. */
    method CloseFlagged()
      requires Valid()
      modifies this`useOpenH264, this`useVP9, this`useH265, this`useAV1
      modifies openH264`open, vp9`open, h265`open, av1`open
      ensures !useOpenH264 && !useVP9 && !useH265 && !useAV1
      ensures !openH264.open && !vp9.open && !h265.open && !av1.open
    {
      if useOpenH264 {
        openH264.Close();
        useOpenH264 := false;
      }
      if useVP9 {
        vp9.Close();
        useVP9 := false;
      }
      if useH265 {
        h265.Close();
        useH265 := false;
      }
      if useAV1 {
        av1.Close();
        useAV1 := false;
      }
    }

    method OnCodecSwitch(codec: string, available: bool, initOk: bool) returns (e: Emission)
      requires Valid()
      modifies this, openH264, vp9, h265, av1, system
      ensures Valid() && BuffersKept() && bgraBuf == old(bgraBuf)
      ensures (View(), e) == Step(old(View()), CodecSwitch(codec, available, initOk))
      ensures useOpenH264 <==> codec == "h264" && available && initOk
      ensures useVP9 <==> codec == "vp9" && initOk
      ensures useH265 <==> codec == "h265" && available && initOk
      ensures useAV1 <==> codec == "av1" && available && initOk
      ensures useJPEG <==> codec == "jpeg" || (codec in {"h264", "h265", "av1"} && !(available && initOk))
                           || (codec == "vp9" && !initOk)
      ensures !system.open
      ensures (width, height) == old((width, height)) && e == Switched(codec)
    {
      CloseFlagged();
      if !useJPEG {
        system.Close();
      }
      useJPEG := false;
      OpenCodec(codec, available, initOk);
      e := Switched(codec);
    }

    /** Opens the encoder asked for, or falls back to JPEG; nothing for an unknown codec. */
    method OpenCodec(codec: string, available: bool, initOk: bool)
      requires Valid() && AllClosed() && !useJPEG
      modifies this`useOpenH264, this`useVP9, this`useH265, this`useAV1, this`useJPEG, openH264, vp9, h265, av1
      ensures Valid() && BuffersKept()
      ensures View() == old(View()).(mode := CodecMode(codec, available, initOk))
      ensures useOpenH264 <==> codec == "h264" && available && initOk
      ensures useVP9 <==> codec == "vp9" && initOk
      ensures useH265 <==> codec == "h265" && available && initOk
      ensures useAV1 <==> codec == "av1" && available && initOk
      ensures useJPEG <==> codec == "jpeg" || (codec in {"h264", "h265", "av1"} && !(available && initOk))
                           || (codec == "vp9" && !initOk)
      ensures !system.open
    {
      if codec == "h264" {
        if available {
          useOpenH264 := openH264.Init(width, height, initOk);
        }
        if !useOpenH264 {
          useJPEG := true;
        }
      } else if codec == "h265" {
        if available {
          useH265 := h265.Init(width, height, initOk);
        }
        if !useH265 {
          useJPEG := true;
        }
      } else if codec == "vp9" {
        useVP9 := vp9.Init(width, height, initOk);
        if !useVP9 {
          useJPEG := true;
        }
      } else if codec == "av1" {
        if available {
          useAV1 := av1.Init(width, height, initOk);
        }
        if !useAV1 {
          useJPEG := true;
        }
      } else if codec == "jpeg" {
        useJPEG := true;
      }
    }

    method OnMonitorSwitch(found: bool, w: nat, h: nat, available: bool, initOk: bool) returns (e: Emission)
      requires Valid()
      modifies this, openH264, vp9, h265, av1, system
      ensures Valid() && BuffersKept() && (bgraBuf == old(bgraBuf) || fresh(bgraBuf))
      ensures (View(), e) == Step(old(View()), MonitorSwitch(found, w, h, available, initOk))
      ensures useOpenH264 <==> found && available && initOk
      ensures useJPEG <==> found && !(available && initOk)
      ensures !useVP9 && !useH265 && !useAV1 && !system.open
      ensures found ==> (width, height) == (w, h) && e == ReInit(w, h)
      ensures !found ==> (width, height) == old((width, height)) && e == Quiet
    {
      CloseFlagged();
      system.Close();
      useJPEG := false;
      if !found {
        return Quiet;
      }
      Recapture(w, h, available, initOk);
      e := ReInit(width, height);
    }

    /** The new size, its buffer, and OpenH264 or else JPEG. */
    method Recapture(w: nat, h: nat, available: bool, initOk: bool)
      requires Valid() && AllClosed() && !useJPEG
      modifies this`width, this`height, this`bgraBuf, this`useOpenH264, this`useJPEG, openH264
      ensures Valid() && BuffersKept() && fresh(bgraBuf)
      ensures View() == old(View()).(mode := if available && initOk then OpenH264 else Jpeg, width := w, height := h)
      ensures (useOpenH264 <==> available && initOk) && (useJPEG <==> !(available && initOk))
      ensures !useVP9 && !useH265 && !useAV1 && !system.open
    {
      width, height := w, h;
      bgraBuf := new byte[width * height * 4];
      if available {
        useOpenH264 := openH264.Init(width, height, initOk);
      }
      if !useOpenH264 {
        useJPEG := true;
      }
    }

    method OnTick(grab: Grab, outcome: Encoded) returns (e: Emission)
      requires Valid()
      modifies this`useJPEG, system, openH264.i420, vp9.i420, h265.i420, av1.i420
      ensures Valid() && bgraBuf == old(bgraBuf)
      ensures (View(), e) == Step(old(View()), Tick(grab, outcome))
    {
      if grab.NoFrame? || bgraBuf.Length < grab.width * grab.height * 4 {
        return Quiet;
      }
      if grab.width != width || grab.height != height {
        return Quit;
      }
      if useJPEG {
        if outcome.EncodeError? {
          return Quiet;
        }
        return Video(Jpeg, outcome.data);
      } else if useAV1 {
        var r := av1.Encode(bgraBuf, width, height, outcome);
        e := Sent(Av1, r);
      } else if useH265 {
        var r := h265.Encode(bgraBuf, width, height, outcome);
        e := Sent(H265, r);
      } else if useVP9 {
        var r := vp9.Encode(bgraBuf, width, height, outcome);
        e := Sent(Vp9, r);
      } else if useOpenH264 {
        var r := openH264.Encode(bgraBuf, width, height, outcome);
        e := Sent(OpenH264, r);
      } else {
        e := TickSystem(outcome);
      }
    }

    /** The last branch of the tick, with the fallback to JPEG. */
    method TickSystem(outcome: Encoded) returns (e: Emission)
      requires Valid() && !useOpenH264 && !useVP9 && !useH265 && !useAV1 && !useJPEG
      modifies this`useJPEG, system
      ensures Valid() && (View(), e) == EncodeStep(old(View()), outcome)
    {
      var r := system.Encode(bgraBuf, width, height, outcome);
      if r.EncodeError? {
        return Quiet;
      }
      if r.data == [] {
        if system.inputs >= FALLBACK_THRESHOLD && system.outputs == 0 {
          useJPEG := true;
          system.Close();
          return FellBack;
        }
        return Quiet;
      }
      e := Video(System, r.data);
    }

    static function Sent(mode: Mode, r: Encoded): Emission {
      if r.EncodeError? || r.data == [] then Quiet else Video(mode, r.data)
    }

    /** The deferred clean-up when the loop is left. It forgets VP9, H.265 and AV1: every encoder is
        closed afterwards exactly when none of these was in use. */
    method Stop()
      requires Valid()
      modifies openH264`open, system`open
      ensures AllClosed() <==> !useVP9 && !useH265 && !useAV1
      ensures vp9.open == useVP9 && h265.open == useH265 && av1.open == useAV1
    {
      if useOpenH264 {
        openH264.Close();
      } else {
        system.Close();
      }
    }

    /** One turn of the loop. */
    method Select(ev: Event) returns (e: Emission)
      requires Valid()
      modifies this, openH264, vp9, h265, av1, system
      modifies openH264.i420, vp9.i420, h265.i420, av1.i420
      ensures Valid() && BuffersKept()
      ensures (View(), e) == Step(old(View()), ev)
    {
      match ev {
        case CodecSwitch(codec, available, initOk) =>
          e := OnCodecSwitch(codec, available, initOk);
        case MonitorSwitch(found, w, h, available, initOk) =>
          e := OnMonitorSwitch(found, w, h, available, initOk);
        case Tick(grab, outcome) =>
          e := OnTick(grab, outcome);
      }
    }

    /** The loop over a list of events. */
    method Run(evs: seq<Event>) returns (sent: seq<Emission>)
      requires Valid()
      modifies this, openH264, vp9, h265, av1, system
      modifies openH264.i420, vp9.i420, h265.i420, av1.i420
      ensures Valid()
      ensures var l := RunFrom(old(View()), evs); View() == l.p && sent == l.sent
    {
      sent := [];
      var i := 0;
      var over := false;
      ghost var start := View();
      assert evs[..0] == [];
      while i < |evs| && !over
        invariant 0 <= i <= |evs| && Valid()
        invariant BuffersKept()
        invariant RunFrom(start, evs[..i]) == Loop(View(), sent, over)
        decreases |evs| - i
      {
        var e := Select(evs[i]);
        assert evs[..i + 1] == evs[..i] + [evs[i]];
        TurnAdds(start, evs[..i], evs[i]);
        sent := sent + [e];
        over := e.Quit?;
        i := i + 1;
      }
      LeftStaysLeft(start, evs, i);
    }

    /** The loop and its deferred clean-up. An encoder is left open exactly when the last request handled
        opened VP9, H.265 or AV1 (or one of these was in use before and no request came). */
    method RunThenStop(evs: seq<Event>) returns (sent: seq<Emission>)
      requires Valid()
      modifies this, openH264, vp9, h265, av1, system
      modifies openH264.i420, vp9.i420, h265.i420, av1.i420
      ensures sent == RunFrom(old(View()), evs).sent && |sent| <= |evs|
      ensures AllClosed() <==> !LastRequestLeaks(evs[..|sent|], Leaky(old(Mode())))
    {
      ghost var start := View();
      sent := Run(evs);
      HandledFront(start, evs);
      LeakyExactly(start, evs[..|sent|]);
      assert Leaky(Mode()) <==> useVP9 || useH265 || useAV1;
      Stop();
    }
  }

  function One(b: bool): nat {
    if b then 1 else 0
  }

  /** At most one flag and at most one encoder; a flag other than the one for JPEG names an open encoder,
      and JPEG means that the system encoder is closed. */
  lemma OneEncoder(s: StreamLoop)
    requires s.Valid()
    ensures One(s.useOpenH264) + One(s.useVP9) + One(s.useH265) + One(s.useAV1) + One(s.useJPEG) <= 1
    ensures One(s.openH264.open) + One(s.vp9.open) + One(s.h265.open) + One(s.av1.open) + One(s.system.open) <= 1
    ensures (s.useOpenH264 ==> s.openH264.open) && (s.useVP9 ==> s.vp9.open)
    ensures (s.useH265 ==> s.h265.open) && (s.useAV1 ==> s.av1.open) && (s.useJPEG ==> !s.system.open)
    ensures s.bgraBuf.Length == 4 * (s.width * s.height)
    ensures forall e | e in {s.openH264, s.vp9, s.h265, s.av1} && e.open ::
              e.width == s.width && e.height == s.height && e.i420.Length == I420.ImageSize(s.width, s.height)
  {
  }

  /** A stream that has switched to VP9 and is then left leaves VP9 open. */
  method LeaveAfterVp9(loop: StreamLoop)
    requires loop.Valid()
    modifies loop, loop.openH264, loop.vp9, loop.h265, loop.av1, loop.system
    modifies loop.openH264.i420, loop.vp9.i420, loop.h265.i420, loop.av1.i420
    ensures !loop.AllClosed()
  {
    var evs := [CodecSwitch("vp9", true, true)];
    ghost var start := loop.View();
    TurnAdds(start, [], evs[0]);
    assert [] + evs == evs && RunFrom(start, []) == Loop(start, [], false);
    var sent := loop.RunThenStop(evs);
    assert |sent| == 1 && evs[..1] == evs;
  }

  /** What an encoder left open does to the next stream that asks for it: initialisation succeeds, but the
      encoder keeps the size of the stream before. */
  method ReopenLeaked(e: CodecEncoder, w: nat, h: nat)
    requires e.open && (e.width, e.height) != (w, h)
    modifies e
    ensures e.open && (e.width, e.height) == old((e.width, e.height)) && !e.Ready(w, h)
  {
    var ok := e.Init(w, h, true);
    assert ok;
  }
}
