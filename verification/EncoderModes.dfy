/**
 The encoders of the streaming loop as a machine with one mode (agent/stream.go; the capture helper's copy
 in agent/remote_session_windows.go is compared in HelperLoop). StreamEncoders proves that the five flags
 and five encoders of the source behave like this machine; here are its whole runs. The inactivity timers,
 which only the direct loop has, are in IdleTimers and TwoPaths.
 */
module EncoderModes {
  import opened Wrappers
  import opened Bytes
  import opened Runs
  import AnnexB

  /** `System` is the Windows encoder, used without any flag; in `Silent` no flag is set and no encoder
      is open. */
  datatype Mode = Silent | System | OpenH264 | Vp9 | H265 | Av1 | Jpeg

  /** The mode, the capture size, and the input and output counts of the system encoder. */
  datatype Picture = Picture(mode: Mode, width: nat, height: nat, inputs: nat, outputs: nat)

  /** Capture either has no frame to give or reports the size it captures at. */
  datatype Grab = NoFrame | Grabbed(width: nat, height: nat)

  /** What a codec makes of a frame. */
  datatype Encoded = EncodeError | Output(data: seq<byte>)

  datatype Event =
    | CodecSwitch(codec: string, available: bool, initOk: bool)
    | MonitorSwitch(found: bool, width: nat, height: nat, available: bool, initOk: bool)
    | Tick(grab: Grab, outcome: Encoded)

  /** What one turn of the loop sends; `Quit` leaves the loop. */
  datatype Emission =
    | Quiet
    | Video(mode: Mode, data: seq<byte>)
    | ReInit(width: nat, height: nat)
    | Switched(codec: string)
    | FellBack
    | Quit

  const FALLBACK_THRESHOLD := 30

  /** Start-up: OpenH264, else the system encoder, else nothing. */
  function StartMode(available: bool, openH264Ok: bool, systemOk: bool): Mode {
    if available && openH264Ok then OpenH264 else if systemOk then System else Silent
  }

  function CodecMode(codec: string, available: bool, initOk: bool): Mode {
    if codec == "h264" then (if available && initOk then OpenH264 else Jpeg)
    else if codec == "h265" then (if available && initOk then H265 else Jpeg)
    else if codec == "vp9" then (if initOk then Vp9 else Jpeg)
    else if codec == "av1" then (if available && initOk then Av1 else Jpeg)
    else if codec == "jpeg" then Jpeg
    else Silent
  }

  /** A frame that was captured at the expected size. */
  function EncodeStep(p: Picture, outcome: Encoded): (Picture, Emission) {
    match p.mode
    case Silent => (p, Quiet)
    case Jpeg =>
      if outcome.EncodeError? then (p, Quiet) else (p, Video(Jpeg, outcome.data))
    case System =>
      var q := p.(inputs := p.inputs + 1);
      if outcome.EncodeError? then (q, Quiet)
      else if outcome.data != [] then (q.(outputs := p.outputs + 1), Video(System, AnnexB.Ensured(outcome.data)))
      else if q.inputs >= FALLBACK_THRESHOLD && q.outputs == 0 then (q.(mode := Jpeg), FellBack)
      else (q, Quiet)
    case _ =>
      if outcome.EncodeError? || outcome.data == [] then (p, Quiet) else (p, Video(p.mode, outcome.data))
  }

  function Step(p: Picture, ev: Event): (Picture, Emission) {
    match ev
    case CodecSwitch(codec, available, initOk) =>
      (p.(mode := CodecMode(codec, available, initOk)), Switched(codec))
    case MonitorSwitch(found, w, h, available, initOk) =>
      if !found then (p.(mode := Silent), Quiet)
      else (p.(mode := if available && initOk then OpenH264 else Jpeg, width := w, height := h), ReInit(w, h))
    case Tick(grab, outcome) =>
      if grab.NoFrame? || grab.width * grab.height * 4 > p.width * p.height * 4 then (p, Quiet)
      else if grab.width != p.width || grab.height != p.height then (p, Quit)
      else EncodeStep(p, outcome)
  }

  /** The loop so far: what it sent, and whether it has been left. */
  datatype Loop = Loop(p: Picture, sent: seq<Emission>, over: bool)

  function Turn(l: Loop, ev: Event): Loop {
    if l.over then l
    else var (q, e) := Step(l.p, ev); Loop(q, l.sent + [e], e.Quit?)
  }

  function RunFrom(p: Picture, evs: seq<Event>): Loop {
    Fold(Turn, Loop(p, [], false), evs)
  }

  // ---- Modes over whole runs ----

  predicate Known(codec: string) {
    codec == "h264" || codec == "h265" || codec == "vp9" || codec == "av1" || codec == "jpeg"
  }

  /** Requests that leave the stream without any encoder. */
  predicate Silencing(ev: Event) {
    (ev.CodecSwitch? && !Known(ev.codec)) || (ev.MonitorSwitch? && !ev.found)
  }

  /** The last request among the events, if there is one, was a silencing one. */
  predicate LastRequestSilences(evs: seq<Event>, before: bool) {
    if evs == [] then before
    else
      var ev := evs[|evs| - 1];
      if ev.Tick? then LastRequestSilences(evs[..|evs| - 1], before) else Silencing(ev)
  }

  /** A loop that still runs is without encoder exactly when its last request was an unknown codec or a
      failed monitor switch, or when there was no request and start-up opened nothing. */
  lemma {:induction false} SilentExactly(p: Picture, evs: seq<Event>)
    ensures var l := RunFrom(p, evs);
            !l.over ==> (l.p.mode == Silent <==> LastRequestSilences(evs, p.mode == Silent))
  {
    if evs != [] {
      SilentExactly(p, evs[..|evs| - 1]);
    }
  }

  /** Without encoder no video is sent, whatever is captured, until the next request. */
  lemma {:induction false} SilenceLasts(p: Picture, evs: seq<Event>)
    requires p.mode == Silent && forall ev | ev in evs :: ev.Tick?
    ensures var l := RunFrom(p, evs);
            l.p == p && forall e | e in l.sent :: e.Quiet? || e.Quit?
  {
    if evs != [] {
      assert evs[|evs| - 1] in evs;
      forall ev | ev in evs[..|evs| - 1] ensures ev in evs { }
      SilenceLasts(p, evs[..|evs| - 1]);
    }
  }

  // ---- Which encoder a run leaves in use ----

  /** The last request among the events. */
  function LastRequest(evs: seq<Event>): (ev: Option<Event>)
    ensures ev.Some? ==> !ev.value.Tick?
  {
    if evs == [] then None
    else if evs[|evs| - 1].Tick? then LastRequest(evs[..|evs| - 1]) else Some(evs[|evs| - 1])
  }

  /** The encoder in use at the end of a run is the one its last request asked for, if it could be opened;
      JPEG stands in for a known codec that could not. */
  lemma {:induction false} ModeFollowsRequest(p: Picture, evs: seq<Event>)
    requires AllHandled(p, evs) && LastRequest(evs).Some?
    ensures var mode, ev := RunFrom(p, evs).p.mode, LastRequest(evs).value;
            match ev
            case CodecSwitch(codec, available, initOk) =>
              && (mode == OpenH264 <==> codec == "h264" && available && initOk)
              && (mode == Vp9 <==> codec == "vp9" && initOk)
              && (mode == H265 <==> codec == "h265" && available && initOk)
              && (mode == Av1 <==> codec == "av1" && available && initOk)
              && (mode == Jpeg <==> codec == "jpeg" || (codec in {"h264", "h265", "av1"} && !(available && initOk))
                                    || (codec == "vp9" && !initOk))
              && mode != System
            case MonitorSwitch(found, _, _, available, initOk) =>
              && (mode == OpenH264 <==> found && available && initOk)
              && (mode == Jpeg <==> found && !(available && initOk))
              && (mode == Silent <==> !found)
            case Tick(_, _) => true
  {
    var before, ev := evs[..|evs| - 1], evs[|evs| - 1];
    HandledLength(p, before);
    if ev.Tick? {
      ModeFollowsRequest(p, before);
      TickKeepsMode(RunFrom(p, before).p, ev);
    }
  }

  lemma TickKeepsMode(p: Picture, ev: Event)
    requires ev.Tick?
    ensures Step(p, ev).0.mode == p.mode || (p.mode == System && Step(p, ev).0.mode == Jpeg)
  {
  }

  /** The size a run leaves is that of the last monitor switched to. */
  lemma {:induction false} SizeFollowsMonitor(p: Picture, evs: seq<Event>)
    requires AllHandled(p, evs)
    ensures var q := RunFrom(p, evs).p;
            match LastMonitor(evs)
            case None => (q.width, q.height) == (p.width, p.height)
            case Some(ev) => ev.MonitorSwitch? && (q.width, q.height) == (ev.width, ev.height)
  {
    if evs != [] {
      var before, ev := evs[..|evs| - 1], evs[|evs| - 1];
      HandledLength(p, before);
      SizeFollowsMonitor(p, before);
      if ev.Tick? { TickStep(RunFrom(p, before).p, ev); }
    }
  }

  /** The last request among the events that found a monitor. */
  function LastMonitor(evs: seq<Event>): Option<Event> {
    if evs == [] then None
    else if evs[|evs| - 1].MonitorSwitch? && evs[|evs| - 1].found then Some(evs[|evs| - 1])
    else LastMonitor(evs[..|evs| - 1])
  }

  // ---- Encoders that the clean-up forgets ----

  predicate Leaky(mode: Mode) {
    mode.Vp9? || mode.H265? || mode.Av1?
  }

  /** The request opens VP9, H.265 or AV1. */
  predicate OpensLeaky(ev: Event) {
    && ev.CodecSwitch? && ev.initOk
    && (ev.codec == "vp9" || ((ev.codec == "h265" || ev.codec == "av1") && ev.available))
  }

  /** The last request opened one of them; without a request, one of them was in use before. */
  predicate LastRequestLeaks(evs: seq<Event>, before: bool) {
    if evs == [] then before
    else
      var ev := evs[|evs| - 1];
      if ev.Tick? then LastRequestLeaks(evs[..|evs| - 1], before) else OpensLeaky(ev)
  }

  /** Every event was handled: the loop still runs, or the last event ended it. */
  predicate AllHandled(p: Picture, evs: seq<Event>) {
    |RunFrom(p, evs).sent| == |evs|
  }

  lemma {:induction false} HandledLength(p: Picture, evs: seq<Event>)
    ensures |RunFrom(p, evs).sent| <= |evs|
  {
    if evs != [] { HandledLength(p, evs[..|evs| - 1]); }
  }

  lemma {:induction false} LeakyExactly(p: Picture, evs: seq<Event>)
    requires AllHandled(p, evs)
    ensures Leaky(RunFrom(p, evs).p.mode) <==> LastRequestLeaks(evs, Leaky(p.mode))
  {
    if evs != [] {
      var before, ev := evs[..|evs| - 1], evs[|evs| - 1];
      HandledLength(p, before);
      LeakyExactly(p, before);
      if !ev.Tick? { RequestLeaks(RunFrom(p, before).p, ev); }
    }
  }

  lemma RequestLeaks(p: Picture, ev: Event)
    requires !ev.Tick?
    ensures Leaky(Step(p, ev).0.mode) <==> OpensLeaky(ev)
  {
  }

  /** The events that were handled are the front part of all events. */
  lemma {:induction false} HandledFront(p: Picture, evs: seq<Event>)
    ensures |RunFrom(p, evs).sent| <= |evs|
    ensures var handled := evs[..|RunFrom(p, evs).sent|]; RunFrom(p, handled) == RunFrom(p, evs)
  {
    if evs != [] {
      var before := evs[..|evs| - 1];
      HandledFront(p, before);
      if RunFrom(p, before).over {
        assert evs[..|RunFrom(p, before).sent|] == before[..|RunFrom(p, before).sent|];
      } else {
        RunningHandled(p, before);
        assert evs[..|evs|] == evs;
      }
    }
  }

  lemma {:induction false} RunningHandled(p: Picture, evs: seq<Event>)
    requires !RunFrom(p, evs).over
    ensures AllHandled(p, evs)
  {
    if evs != [] { RunningHandled(p, evs[..|evs| - 1]); }
  }

  /** The system encoder is only ever used before the first request. */
  lemma {:induction false} SystemOnlyAtStart(p: Picture, evs: seq<Event>)
    requires RunFrom(p, evs).p.mode == System && !RunFrom(p, evs).over
    ensures p.mode == System && forall ev | ev in evs :: ev.Tick?
  {
    if evs != [] {
      var before, ev := evs[..|evs| - 1], evs[|evs| - 1];
      SystemOnlyAtStart(p, before);
      assert evs == before + [ev];
    }
  }

  /** Ticks that capture at the expected size, whatever the encoder makes of the frames. */
  predicate AtSize(p: Picture, evs: seq<Event>) {
    forall ev | ev in evs :: ev.Tick? && ev.grab == Grabbed(p.width, p.height)
  }

  predicate Produces(ev: Event) {
    ev.Tick? && ev.outcome.Output? && ev.outcome.data != []
  }

  predicate NothingProduced(evs: seq<Event>) {
    forall ev | ev in evs :: !Produces(ev)
  }

  /** Tick i gives empty output, it is at least the thirtieth frame put in, and no tick before it gave
      anything. */
  predicate FallsBackAt(p: Picture, evs: seq<Event>, i: nat) {
    && i < |evs| && evs[i].Tick? && evs[i].outcome == Output([])
    && p.inputs + i + 1 >= 30 && NothingProduced(evs[..i])
  }

  /** What a run of such ticks leaves of a system encoder that has not been replaced. */
  predicate StillSystem(p: Picture, evs: seq<Event>, q: Picture) {
    && q.mode == System && q.inputs == p.inputs + |evs|
    && (q.outputs == 0 <==> p.outputs == 0 && NothingProduced(evs))
  }

  ghost predicate FallsBack(p: Picture, evs: seq<Event>) {
    p.outputs == 0 && exists i: nat :: FallsBackAt(p, evs, i)
  }

  lemma FallsBackEarlier(p: Picture, evs: seq<Event>, ev: Event)
    ensures FallsBack(p, evs + [ev]) <==> FallsBack(p, evs) || (p.outputs == 0 && FallsBackAt(p, evs + [ev], |evs|))
  {
    var more := evs + [ev];
    forall i: nat | i < |evs| ensures FallsBackAt(p, evs, i) <==> FallsBackAt(p, more, i) {
      assert more[..i] == evs[..i];
    }
    if FallsBack(p, more) {
      var i: nat :| FallsBackAt(p, more, i);
      assert i < |evs| ==> FallsBackAt(p, evs, i);
    }
    if FallsBack(p, evs) {
      var i: nat :| FallsBackAt(p, evs, i);
      assert FallsBackAt(p, more, i);
    }
  }

  lemma NothingProducedNext(evs: seq<Event>, ev: Event)
    ensures NothingProduced(evs + [ev]) <==> NothingProduced(evs) && !Produces(ev)
  {
    assert forall e | e in evs :: e in evs + [ev];
    assert ev in evs + [ev];
  }

  /** One more tick at the expected size, given what the ticks so far have led to. */
  lemma FallbackStep(p: Picture, evs: seq<Event>, ev: Event, q: Picture)
    requires ev.Tick? && ev.grab == Grabbed(p.width, p.height) && (q.width, q.height) == (p.width, p.height)
    requires q.mode == Jpeg <==> FallsBack(p, evs)
    requires q.mode == Jpeg || StillSystem(p, evs, q)
    ensures var (r, e) := Step(q, ev);
            && (r.width, r.height) == (p.width, p.height) && !e.Quit?
            && (r.mode == Jpeg <==> FallsBack(p, evs + [ev]))
            && (r.mode == Jpeg || StillSystem(p, evs + [ev], r))
  {
    FallsBackEarlier(p, evs, ev);
    NothingProducedNext(evs, ev);
    assert (evs + [ev])[..|evs|] == evs && (evs + [ev])[|evs|] == ev;
  }

  /** Over ticks at the expected size with any outcomes, the system encoder is replaced by JPEG exactly when
      it had never produced anything and some tick gives empty output at the thirtieth frame or later, with
      no output before it. */
  lemma {:induction false} FallbackExactly(p: Picture, evs: seq<Event>)
    requires p.mode == System && AtSize(p, evs)
    ensures var l := RunFrom(p, evs);
            && !l.over && (l.p.width, l.p.height) == (p.width, p.height)
            && (l.p.mode == Jpeg <==> FallsBack(p, evs))
            && (l.p.mode == Jpeg || StillSystem(p, evs, l.p))
  {
    if evs != [] {
      var before, ev := evs[..|evs| - 1], evs[|evs| - 1];
      assert evs == before + [ev] && ev in evs;
      assert AtSize(p, before) by { forall e | e in before ensures e in evs { } }
      FallbackExactly(p, before);
      TurnAdds(p, before, ev);
      FallbackStep(p, before, ev, RunFrom(p, before).p);
    }
  }

  /** Ticks that capture at the expected size and all give this outcome. */
  predicate AllGive(p: Picture, evs: seq<Event>, outcome: Encoded) {
    forall ev | ev in evs :: ev == Tick(Grabbed(p.width, p.height), outcome)
  }

  /** An encoder that swallows every frame is replaced once it has been given thirty, if it never produced. */
  lemma SwallowedFrames(p: Picture, evs: seq<Event>)
    requires p.mode == System && AllGive(p, evs, Output([]))
    ensures RunFrom(p, evs).p.mode == Jpeg <==>
            p.outputs == 0 && |evs| > 0 && p.inputs + |evs| >= 30
  {
    FallbackExactly(p, evs);
    forall i: nat | i < |evs| ensures evs[i] in evs && NothingProduced(evs[..i]) {
      forall e | e in evs[..i] ensures e in evs { }
    }
    if p.outputs == 0 && |evs| > 0 && p.inputs + |evs| >= 30 {
      assert FallsBackAt(p, evs, |evs| - 1);
    }
  }

  /** Frames that failed count towards the thirty: one empty output behind them is enough. */
  lemma FailedFramesCount(p: Picture, failed: seq<Event>, last: Event)
    requires p.mode == System && p.outputs == 0 && AllGive(p, failed, EncodeError)
    requires last == Tick(Grabbed(p.width, p.height), Output([]))
    ensures RunFrom(p, failed + [last]).p.mode == Jpeg <==> p.inputs + |failed| + 1 >= 30
  {
    var evs := failed + [last];
    FallbackExactly(p, evs);
    assert evs[..|failed|] == failed && evs[|failed|] == last;
    assert FallsBackAt(p, evs, |failed|) <==> p.inputs + |failed| + 1 >= 30;
  }

  /** One that fails on every frame is never replaced, and nothing is sent. */
  lemma {:induction false} ErrorsNeverFallBack(p: Picture, evs: seq<Event>)
    requires p.mode == System && AllGive(p, evs, EncodeError)
    ensures RunFrom(p, evs).p == p.(inputs := p.inputs + |evs|) && !RunFrom(p, evs).over
    ensures forall e | e in RunFrom(p, evs).sent :: e == Quiet
  {
    if evs != [] {
      var before := evs[..|evs| - 1];
      assert evs[|evs| - 1] in evs;
      forall ev | ev in before ensures ev in evs { }
      ErrorsNeverFallBack(p, before);
    }
  }

  // ---- Changes of the captured size ----

  predicate OnlyTicks(evs: seq<Event>) {
    forall ev | ev in evs :: ev.Tick?
  }

  /** The captured size has changed and its frame fits the buffer of the old size. */
  predicate FittingResize(p: Picture, ev: Event) {
    && ev.Tick? && ev.grab.Grabbed? && (ev.grab.width, ev.grab.height) != (p.width, p.height)
    && ev.grab.width * ev.grab.height <= p.width * p.height
  }

  /** The captured frame is larger than the buffer. */
  predicate TooLarge(p: Picture, ev: Event) {
    ev.Tick? && ev.grab.Grabbed? && ev.grab.width * ev.grab.height > p.width * p.height
  }

  lemma TickStep(p: Picture, ev: Event)
    requires ev.Tick?
    ensures var (q, e) := Step(p, ev);
            && (q.width, q.height) == (p.width, p.height)
            && (e.Quit? <==> FittingResize(p, ev))
            && (TooLarge(p, ev) ==> q == p && e.Quiet?)
  {
    if ev.grab.Grabbed? {
      FourTimes(ev.grab.width * ev.grab.height, p.width * p.height);
      assert ev.grab.width * ev.grab.height * 4 == 4 * (ev.grab.width * ev.grab.height);
      assert p.width * p.height * 4 == 4 * (p.width * p.height);
    }
  }

  lemma FourTimes(a: nat, b: nat)
    ensures 4 * a > 4 * b <==> a > b
  {
  }

  /** A run of ticks ends exactly when one of them captures at another size that fits the old buffer. */
  lemma {:induction false} ResizeNoticed(p: Picture, evs: seq<Event>)
    requires OnlyTicks(evs)
    ensures var l := RunFrom(p, evs);
            && (l.p.width, l.p.height) == (p.width, p.height)
            && (l.over <==> exists ev :: ev in evs && FittingResize(p, ev))
  {
    if evs != [] {
      var before, ev := evs[..|evs| - 1], evs[|evs| - 1];
      assert evs == before + [ev] && ev in evs;
      assert OnlyTicks(before) by { forall e | e in before ensures e in evs { } }
      ResizeNoticed(p, before);
      TurnAdds(p, before, ev);
      TickStep(RunFrom(p, before).p, ev);
      assert forall e :: e in evs <==> e in before || e == ev;
    }
  }

  /** A larger size is never noticed: ticks that all capture too large a frame leave everything as it is,
      send nothing and never end the loop. */
  lemma {:induction false} LargerSizeIgnored(p: Picture, evs: seq<Event>)
    requires forall ev | ev in evs :: TooLarge(p, ev)
    ensures var l := RunFrom(p, evs);
            l.p == p && !l.over && |l.sent| == |evs| && forall e | e in l.sent :: e.Quiet?
  {
    if evs != [] {
      var before, ev := evs[..|evs| - 1], evs[|evs| - 1];
      assert ev in evs;
      forall e | e in before ensures e in evs { }
      LargerSizeIgnored(p, before);
      TickStep(p, ev);
    }
  }

  /** The ticks among the events that capture at the expected size. */
  function Captured(p: Picture, evs: seq<Event>): seq<Event> {
    if evs == [] then []
    else
      var ev := evs[|evs| - 1];
      Captured(p, evs[..|evs| - 1]) + if ev.Tick? && ev.grab == Grabbed(p.width, p.height) then [ev] else []
  }

  /** Ticks of which none captures at another size that fits the buffer. */
  predicate NoFittingResize(p: Picture, evs: seq<Event>) {
    forall ev | ev in evs :: ev.Tick? && !FittingResize(p, ev)
  }

  lemma UncapturedStep(p: Picture, q: Picture, ev: Event)
    requires ev.Tick? && !FittingResize(p, ev) && ev.grab != Grabbed(p.width, p.height)
    requires (q.width, q.height) == (p.width, p.height)
    ensures Step(q, ev) == (q, Quiet)
  {
    if ev.grab.Grabbed? {
      FourTimes(ev.grab.width * ev.grab.height, p.width * p.height);
      assert ev.grab.width * ev.grab.height * 4 == 4 * (ev.grab.width * ev.grab.height);
      assert p.width * p.height * 4 == 4 * (p.width * p.height);
    }
  }

  /** Ticks that capture nothing, or too large a frame, change nothing. */
  lemma {:induction false} OnlyCapturedCounts(p: Picture, evs: seq<Event>)
    requires NoFittingResize(p, evs)
    ensures AtSize(p, Captured(p, evs))
    ensures var l := RunFrom(p, evs);
            l.p == RunFrom(p, Captured(p, evs)).p && !l.over && !RunFrom(p, Captured(p, evs)).over
            && (l.p.width, l.p.height) == (p.width, p.height)
  {
    if evs != [] {
      var before, ev := evs[..|evs| - 1], evs[|evs| - 1];
      assert evs == before + [ev] && ev in evs;
      assert NoFittingResize(p, before) by { forall e | e in before ensures e in evs { } }
      OnlyCapturedCounts(p, before);
      TurnAdds(p, before, ev);
      if ev.grab == Grabbed(p.width, p.height) {
        TurnAdds(p, Captured(p, before), ev);
        TickStep(RunFrom(p, before).p, ev);
      } else {
        UncapturedStep(p, RunFrom(p, before).p, ev);
        assert Captured(p, evs) == Captured(p, before);
      }
    }
  }

  /** The fallback over any ticks that do not end the loop: those that capture nothing count for nothing. */
  lemma FallbackAmongTicks(p: Picture, evs: seq<Event>)
    requires p.mode == System && NoFittingResize(p, evs)
    ensures RunFrom(p, evs).p.mode == Jpeg <==> FallsBack(p, Captured(p, evs))
  {
    OnlyCapturedCounts(p, evs);
    FallbackExactly(p, Captured(p, evs));
  }

  lemma TurnAdds(p: Picture, evs: seq<Event>, ev: Event)
    ensures RunFrom(p, evs + [ev]) == Turn(RunFrom(p, evs), ev)
  {
    FoldSnoc(Turn, Loop(p, [], false), evs, ev);
  }

  /** Nothing happens once the loop has been left. */
  lemma {:induction false} LeftStaysLeft(p: Picture, evs: seq<Event>, i: nat)
    requires i <= |evs| && (RunFrom(p, evs[..i]).over || i == |evs|)
    ensures RunFrom(p, evs) == RunFrom(p, evs[..i])
    decreases |evs| - i
  {
    if i == |evs| {
      assert evs[..i] == evs;
    } else {
      assert evs[..i + 1] == evs[..i] + [evs[i]];
      TurnAdds(p, evs[..i], evs[i]);
      LeftStaysLeft(p, evs, i + 1);
    }
  }
}
