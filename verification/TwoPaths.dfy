/**
 Whole runs of the two paths: the direct stream (agent/stream.go), with its inactivity timers and its
 clipboard, and the cross-session stream (agent/remote_session_windows.go), whose helper has neither.

 Both are fed the same happenings. A stream that the inactivity timeout has ended says nothing more, while
 a helper goes on.
 */
module TwoPaths {
  import opened Wrappers
  import opened Bytes
  import opened Runs
  import opened Sequences
  import opened PipeFraming
  import opened EncoderModes
  import opened CrossSession
  import opened HelperLoop
  import AnnexB

  /** An event of the loop; a chunk of audio; a request to block input; the handling of the inactivity
      warning or timeout (IdleTimers says when that can be); a request for the clipboard. */
  datatype Happening =
    | Common(ev: Event)
    | Sound(pcm: seq<byte>)
    | BlockRequest(blocked: bool)
    | WarningTick
    | TimeoutTick
    | ClipboardRequest(text: string)

  // ---- The direct stream ----

  datatype Directly = Directly(p: Picture, said: seq<Said>, over: bool)

  function DirectStep(l: Directly, x: Happening): Directly {
    if l.over then l
    else match x
         case Common(ev) => var (q, e) := Step(l.p, ev); Directly(q, l.said + [FromLoop(e)], e.Quit?)
         case Sound(pcm) => l.(said := l.said + [Audio(pcm)])
         case BlockRequest(b) => l.(said := l.said + [Blocked(b)])
         case WarningTick => l.(said := l.said + [IdleWarning])
         case TimeoutTick => l.(said := l.said + [IdleTimeout], over := true)
         case ClipboardRequest(text) => l.(said := l.said + [Clipboard(text)])
  }

  function DirectRun(p: Picture, xs: seq<Happening>): Directly {
    Fold(DirectStep, Directly(p, [], false), xs)
  }

  /** The inactivity timeout was handled, and so ended the stream. */
  predicate TimedOut(l: Directly) {
    IdleTimeout in l.said
  }

  // ---- The helper ----

  function HelperTurn(marshal: Marshal, l: Helping, x: Happening): Helping {
    if l.over then l
    else match x
         case Common(ev) => HelperStep(marshal, l, ev)
         case Sound(pcm) => if pcm == [] then l else l.(written := l.written + [Message(PIPE_AUDIO, pcm)])
         case BlockRequest(b) => l.(written := l.written + [Message(PIPE_CONTROL, marshal(BlockJson(b)))])
         case _ => l
  }

  function HelperByTurns(marshal: Marshal): (Helping, Happening) -> Helping {
    (l, x) => HelperTurn(marshal, l, x)
  }

  function HelperRun(marshal: Marshal, p: Picture, xs: seq<Happening>): Helping {
    Fold(HelperByTurns(marshal), Helping(p, [], false), xs)
  }

  // ---- The two side by side ----

  /** Before a timeout the two are in the same state and the helper has written the pipe message of all
      that was said; after it, the helper may have written more. */
  predicate Linked(marshal: Marshal, l: Directly, h: Helping) {
    if TimedOut(l) then l.over && HelperAll(marshal, l.said) <= h.written
    else h.p == l.p && h.over == l.over && h.written == HelperAll(marshal, l.said)
  }

  lemma HelperAllNext(marshal: Marshal, said: seq<Said>, s: Said)
    ensures HelperAll(marshal, said + [s]) == HelperAll(marshal, said) + Helper(marshal, s)
  {
    FlatMapConcat(HelperBy(marshal), said, [s]);
    FlatMapOne(HelperBy(marshal), s);
  }

  lemma TurnAppends(marshal: Marshal, h: Helping, x: Happening)
    ensures h.written <= HelperTurn(marshal, h, x).written
  {
    if !h.over && x.Common? { WrittenAppended(marshal, h, x.ev); }
  }

  /** What the direct stream says at a turn that it handles. */
  function SaidAt(p: Picture, x: Happening): Said {
    match x
    case Common(ev) => FromLoop(Step(p, ev).1)
    case Sound(pcm) => Audio(pcm)
    case BlockRequest(b) => Blocked(b)
    case WarningTick => IdleWarning
    case TimeoutTick => IdleTimeout
    case ClipboardRequest(text) => Clipboard(text)
  }

  lemma TurnsAgree(marshal: Marshal, l: Directly, h: Helping, x: Happening)
    requires !l.over && !h.over && h.p == l.p
    ensures DirectStep(l, x).said == l.said + [SaidAt(l.p, x)]
    ensures var h' := HelperTurn(marshal, h, x);
            && h'.written == h.written + Helper(marshal, SaidAt(l.p, x))
            && (!x.TimeoutTick? ==> h'.p == DirectStep(l, x).p && h'.over == DirectStep(l, x).over)
  {
    if x.Common? {
      WrittenAppended(marshal, h, x.ev);
      SameStep(marshal, l.p, x.ev);
    }
  }

  lemma StepLinks(marshal: Marshal, l: Directly, h: Helping, x: Happening)
    requires Linked(marshal, l, h)
    ensures Linked(marshal, DirectStep(l, x), HelperTurn(marshal, h, x))
  {
    if l.over {
      TurnAppends(marshal, h, x);
    } else {
      TurnsAgree(marshal, l, h, x);
      HelperAllNext(marshal, l.said, SaidAt(l.p, x));
    }
  }

  lemma {:induction false} RunLinks(marshal: Marshal, p: Picture, xs: seq<Happening>)
    ensures Linked(marshal, DirectRun(p, xs), HelperRun(marshal, p, xs))
  {
    if xs != [] {
      var before := xs[..|xs| - 1];
      RunLinks(marshal, p, before);
      StepLinks(marshal, DirectRun(p, before), HelperRun(marshal, p, before), xs[|xs| - 1]);
    }
  }

  /** Fed the same happenings from the same state, the helper's loop goes through the same states as the
      direct one, ends at the same turn, and writes the pipe messages for exactly what is said, as long as
      no inactivity timeout is handled; from the timeout on it writes more. */
  lemma HelperAgrees(marshal: Marshal, p: Picture, xs: seq<Happening>)
    ensures var h, l := HelperRun(marshal, p, xs), DirectRun(p, xs);
            && HelperAll(marshal, l.said) <= h.written
            && (!TimedOut(l) ==> h.p == l.p && h.over == l.over && h.written == HelperAll(marshal, l.said))
  {
    RunLinks(marshal, p, xs);
  }

  // ---- What the browser sees ----

  /** What the browser gets of a helper's run through pipe and service. */
  function SeenThroughPipe(marshal: Marshal, p: Picture, xs: seq<Happening>): seq<ToBrowser> {
    ForwardedAll(ParseAll(FramedAll(HelperRun(marshal, p, xs).written), Some(CAPTURE_CAP)).0)
  }

  /** What it gets of the direct stream. */
  function SeenDirectly(marshal: Marshal, p: Picture, xs: seq<Happening>): seq<ToBrowser> {
    DirectAll(marshal, DirectRun(p, xs).said)
  }

  predicate WrittenWithinCap(marshal: Marshal, p: Picture, xs: seq<Happening>) {
    forall m | m in HelperRun(marshal, p, xs).written :: |m.payload| <= CAPTURE_CAP
  }

  /** Through the pipe come the direct stream's messages without the lost kinds, and then whatever the
      helper wrote after a timeout. */
  lemma SeenParts(marshal: Marshal, p: Picture, xs: seq<Happening>)
    requires WrittenWithinCap(marshal, p, xs)
    ensures var h, l := HelperRun(marshal, p, xs), DirectRun(p, xs);
            && HelperAll(marshal, l.said) <= h.written
            && SeenThroughPipe(marshal, p, xs) == ForwardedAll(h.written)
            && ForwardedAll(h.written) ==
               DirectAll(marshal, Kept(l.said)) + ForwardedAll(h.written[|HelperAll(marshal, l.said)|..])
            && (!TimedOut(l) ==> SeenThroughPipe(marshal, p, xs) == DirectAll(marshal, Kept(l.said)))
  {
    var h, l := HelperRun(marshal, p, xs), DirectRun(p, xs);
    HelperAgrees(marshal, p, xs);
    assert forall m | m in h.written :: |m.payload| < LENGTH_LIMIT && !Over(|m.payload|, Some(CAPTURE_CAP));
    ListRoundTrip(h.written, Some(CAPTURE_CAP));
    RetaggedAll(marshal, l.said);
    var front, more := HelperAll(marshal, l.said), h.written[|HelperAll(marshal, l.said)|..];
    assert h.written == front + more;
    FlatMapConcat(Forwarded, front, more);
  }

  /** The direct stream's video and audio are a front part of the cross-session stream's, and all of it
      unless an inactivity timeout was handled. */
  lemma DirectVideoIsFront(marshal: Marshal, p: Picture, xs: seq<Happening>)
    requires WrittenWithinCap(marshal, p, xs)
    ensures BinariesOf(SeenDirectly(marshal, p, xs)) <= BinariesOf(SeenThroughPipe(marshal, p, xs))
    ensures !TimedOut(DirectRun(p, xs)) ==>
              BinariesOf(SeenDirectly(marshal, p, xs)) == BinariesOf(SeenThroughPipe(marshal, p, xs))
  {
    var h, l := HelperRun(marshal, p, xs), DirectRun(p, xs);
    SeenParts(marshal, p, xs);
    KeptBinaries(marshal, l.said);
    var more := h.written[|HelperAll(marshal, l.said)|..];
    FlatMapConcat(BinaryOnly, DirectAll(marshal, Kept(l.said)), ForwardedAll(more));
  }

  // ---- When the browser sees exactly the same ----

  /** The timeout's document differs from all others. */
  ghost predicate TimeoutDistinct(marshal: Marshal) {
    forall j: Json :: j != TimeoutJson ==> marshal(j) != marshal(TimeoutJson)
  }

  /** No pipe message holds the timeout's document as a control message. */
  predicate NoTimeoutText(marshal: Marshal, ms: seq<Message>) {
    forall m | m in ms :: m.kind == PIPE_CONTROL ==> m.payload != marshal(TimeoutJson)
  }

  lemma {:induction false} HelperNeverTimesOut(marshal: Marshal, p: Picture, xs: seq<Happening>)
    requires TimeoutDistinct(marshal)
    ensures NoTimeoutText(marshal, HelperRun(marshal, p, xs).written)
  {
    if xs != [] {
      var before, x := xs[..|xs| - 1], xs[|xs| - 1];
      HelperNeverTimesOut(marshal, p, before);
      var h := HelperRun(marshal, p, before);
      if !h.over && x.Common? { WrittenAppended(marshal, h, x.ev); }
    }
  }

  lemma {:induction false} NoTimeoutForwarded(marshal: Marshal, ms: seq<Message>)
    requires NoTimeoutText(marshal, ms)
    ensures Text(marshal(TimeoutJson)) !in ForwardedAll(ms)
  {
    if ms != [] {
      assert ms[0] in ms;
      forall m | m in ms[1..] ensures m in ms { }
      NoTimeoutForwarded(marshal, ms[1..]);
    }
  }

  lemma {:induction false} TimeoutShown(marshal: Marshal, said: seq<Said>)
    requires IdleTimeout in said
    ensures Text(marshal(TimeoutJson)) in DirectAll(marshal, said)
  {
    if said[0] == IdleTimeout {
      assert Direct(marshal, said[0])[0] == Text(marshal(TimeoutJson));
    } else {
      assert said == [said[0]] + said[1..];
      TimeoutShown(marshal, said[1..]);
    }
  }

  /** A happening the browser hears of only on the direct path. */
  predicate Losing(p: Picture, x: Happening) {
    match x
    case Common(ev) => (ev.MonitorSwitch? && ev.found) || FallsBackNow(p, ev)
    case WarningTick => true
    case TimeoutTick => true
    case ClipboardRequest(_) => true
    case _ => false
  }

  /** Some happening that the direct stream handled is of that kind. */
  ghost predicate LosesSomething(p: Picture, xs: seq<Happening>) {
    exists i: nat :: i < |xs| && !DirectRun(p, xs[..i]).over && Losing(DirectRun(p, xs[..i]).p, xs[i])
  }

  lemma LosesNext(p: Picture, xs: seq<Happening>, x: Happening)
    ensures LosesSomething(p, xs + [x]) <==>
            LosesSomething(p, xs) || (!DirectRun(p, xs).over && Losing(DirectRun(p, xs).p, x))
  {
    var more := xs + [x];
    forall i: nat | i < |xs| ensures more[..i] == xs[..i] && more[i] == xs[i] { }
    assert more[..|xs|] == xs && more[|xs|] == x;
    if LosesSomething(p, xs) {
      var i: nat :| i < |xs| && !DirectRun(p, xs[..i]).over && Losing(DirectRun(p, xs[..i]).p, xs[i]);
      assert !DirectRun(p, more[..i]).over && Losing(DirectRun(p, more[..i]).p, more[i]);
    }
    if LosesSomething(p, more) {
      var i: nat :| i < |more| && !DirectRun(p, more[..i]).over && Losing(DirectRun(p, more[..i]).p, more[i]);
      assert i < |xs| ==> !DirectRun(p, xs[..i]).over && Losing(DirectRun(p, xs[..i]).p, xs[i]);
    }
  }

  lemma {:induction false} LosesExactly(p: Picture, xs: seq<Happening>)
    ensures NothingLost(DirectRun(p, xs).said) <==> !LosesSomething(p, xs)
  {
    if xs != [] {
      var before, x := xs[..|xs| - 1], xs[|xs| - 1];
      assert xs == before + [x];
      LosesExactly(p, before);
      LosesNext(p, before, x);
      var l := DirectRun(p, before);
      FoldSnoc(DirectStep, Directly(p, [], false), before, x);
      if !l.over {
        assert DirectStep(l, x).said == l.said + [SaidAt(l.p, x)];
        LostExactly(l.p, x);
        LostNext(l.said, SaidAt(l.p, x));
      }
    }
  }

  lemma LostExactly(p: Picture, x: Happening)
    ensures LostAcross(SaidAt(p, x)) <==> Losing(p, x)
  {
    if x.Common? { LostTurns(p, x.ev); }
  }

  lemma LostNext(said: seq<Said>, s: Said)
    ensures NothingLost(said + [s]) <==> NothingLost(said) && !LostAcross(s)
  {
    assert s in said + [s] && forall t | t in said :: t in said + [s];
  }

  /** Both paths show the browser exactly the same if and only if the direct stream handled no successful
      monitor switch, no fallback, no clipboard request and no inactivity warning or timeout. */
  lemma SeenAlikeExactly(marshal: Marshal, p: Picture, xs: seq<Happening>)
    requires TimeoutDistinct(marshal) && WrittenWithinCap(marshal, p, xs)
    ensures SeenThroughPipe(marshal, p, xs) == SeenDirectly(marshal, p, xs) <==> !LosesSomething(p, xs)
  {
    var h, l := HelperRun(marshal, p, xs), DirectRun(p, xs);
    LosesExactly(p, xs);
    SeenParts(marshal, p, xs);
    if TimedOut(l) {
      assert LostAcross(IdleTimeout);
      HelperNeverTimesOut(marshal, p, xs);
      NoTimeoutForwarded(marshal, h.written);
      TimeoutShown(marshal, l.said);
    } else {
      KeptShorter(marshal, l.said);
    }
  }

  function CommonEvent(x: Happening): seq<Event> {
    if x.Common? then [x.ev] else []
  }

  /** Without a timeout the direct stream's loop is the loop of EncoderModes, fed the common events. */
  lemma {:induction false} DirectFollowsLoop(p: Picture, xs: seq<Happening>)
    requires !TimedOut(DirectRun(p, xs))
    ensures var d, l := DirectRun(p, xs), RunFrom(p, FlatMap(CommonEvent, xs));
            d.p == l.p && d.over == l.over
  {
    if xs != [] {
      var before, x := xs[..|xs| - 1], xs[|xs| - 1];
      assert xs == before + [x];
      DirectFollowsLoop(p, before);
      FlatMapConcat(CommonEvent, before, [x]);
      FlatMapOne(CommonEvent, x);
      if x.Common? {
        TurnAdds(p, FlatMap(CommonEvent, before), x.ev);
      } else {
        assert FlatMap(CommonEvent, before) + [] == FlatMap(CommonEvent, before);
      }
    }
  }

  /** The timeout, and then a frame. */
  function IdleThenFrame(p: Picture, data: seq<byte>): seq<Happening> {
    [TimeoutTick, Common(Tick(Grabbed(p.width, p.height), Output(data)))]
  }

  lemma DirectEnds(p: Picture, data: seq<byte>)
    ensures DirectRun(p, IdleThenFrame(p, data)).said == [IdleTimeout]
  {
    var xs := IdleThenFrame(p, data);
    Fold2(DirectStep, Directly(p, [], false), xs[0], xs[1]);
  }

  lemma HelperGoesOn(marshal: Marshal, p: Picture, data: seq<byte>)
    requires p.mode == Jpeg
    ensures HelperRun(marshal, p, IdleThenFrame(p, data)).written == [Message(PIPE_JPEG, data)]
  {
    var xs := IdleThenFrame(p, data);
    var start := Helping(p, [], false);
    Fold2(HelperByTurns(marshal), start, xs[0], xs[1]);
    assert HelperTurn(marshal, start, xs[0]) == start;
    assert HelperEncode(p, Output(data)) == (p, [Message(PIPE_JPEG, data)]);
    assert HelperTurn(marshal, start, xs[1]).written == [Message(PIPE_JPEG, data)];
  }

  /** Ten idle minutes set the paths apart: the timeout is shown on the direct path, the next frame only
      on the other. */
  lemma IdleStreamsDiffer(marshal: Marshal, p: Picture, data: seq<byte>)
    requires p.mode == Jpeg && |data| <= CAPTURE_CAP
    ensures SeenDirectly(marshal, p, IdleThenFrame(p, data)) == [Text(marshal(TimeoutJson))]
    ensures SeenThroughPipe(marshal, p, IdleThenFrame(p, data)) == [Binary([FrameType(Jpeg)] + data)]
  {
    DirectEnds(p, data);
    HelperGoesOn(marshal, p, data);
    FlatMapOne(DirectBy(marshal), IdleTimeout);
    SeenParts(marshal, p, IdleThenFrame(p, data));
    FlatMapOne(Forwarded, Message(PIPE_JPEG, data));
  }

  // ---- What a request brings ----

  /** Two events, as the browser sees them directly. */
  function SeenOfTwo(marshal: Marshal, p: Picture, first: Event, second: Event): seq<ToBrowser> {
    SeenDirectly(marshal, p, [Common(first), Common(second)])
  }

  lemma TwoEvents(marshal: Marshal, p: Picture, first: Event, second: Event)
    requires !Step(p, first).1.Quit?
    ensures SeenOfTwo(marshal, p, first, second) ==
            Direct(marshal, FromLoop(Step(p, first).1)) + Direct(marshal, FromLoop(Step(Step(p, first).0, second).1))
  {
    var e, f := Step(p, first).1, Step(Step(p, first).0, second).1;
    Fold2(DirectStep, Directly(p, [], false), Common(first), Common(second));
    assert [] + [FromLoop(e)] + [FromLoop(f)] == [FromLoop(e)] + [FromLoop(f)];
    assert DirectRun(p, [Common(first), Common(second)]).said == [FromLoop(e)] + [FromLoop(f)];
    FlatMapConcat(DirectBy(marshal), [FromLoop(e)], [FromLoop(f)]);
    FlatMapOne(DirectBy(marshal), FromLoop(e));
    FlatMapOne(DirectBy(marshal), FromLoop(f));
  }

  /** From any state, a codec request and the next frame: the browser is told the codec it asked for, and
      the encoder's output follows behind the type byte of that codec, or of JPEG if it could not be opened. */
  lemma RequestThenFrame(marshal: Marshal, p: Picture, codec: string, available: bool, initOk: bool, data: seq<byte>)
    requires codec in {"h264", "vp9", "h265", "av1", "jpeg"} && data != []
    ensures var frame := Tick(Grabbed(p.width, p.height), Output(data));
            var kind: byte := if codec == "h264" && available && initOk then 0x02
                              else if codec == "vp9" && initOk then 0x03
                              else if codec == "h265" && available && initOk then 0x04
                              else if codec == "av1" && available && initOk then 0x05
                              else 0x01;
            SeenOfTwo(marshal, p, CodecSwitch(codec, available, initOk), frame) ==
            [Text(marshal(SwitchJson(codec))), Binary([kind] + data)]
  {
    TwoEvents(marshal, p, CodecSwitch(codec, available, initOk), Tick(Grabbed(p.width, p.height), Output(data)));
  }

  /** A monitor request that finds its monitor, and the next frame: the browser is told the new size, and
      gets H.264, or JPEG if OpenH264 could not be opened. */
  lemma MonitorThenFrame(marshal: Marshal, p: Picture, w: nat, h: nat, available: bool, initOk: bool, data: seq<byte>)
    requires data != []
    ensures var frame := Tick(Grabbed(w, h), Output(data));
            var kind: byte := if available && initOk then 0x02 else 0x01;
            SeenOfTwo(marshal, p, MonitorSwitch(true, w, h, available, initOk), frame) ==
            [Text(marshal(InitJson(w, h, true))), Binary([kind] + data)]
  {
    TwoEvents(marshal, p, MonitorSwitch(true, w, h, available, initOk), Tick(Grabbed(w, h), Output(data)));
  }

  /** The fallback and the next frame: the browser is told of JPEG, and gets it. */
  lemma FallbackThenFrame(marshal: Marshal, p: Picture, data: seq<byte>)
    requires p.mode == System && p.outputs == 0 && p.inputs >= 29
    ensures var at := Grabbed(p.width, p.height);
            SeenOfTwo(marshal, p, Tick(at, Output([])), Tick(at, Output(data))) ==
            [Text(marshal(SwitchJson("jpeg"))), Binary([0x01] + data)]
  {
    var at := Grabbed(p.width, p.height);
    TwoEvents(marshal, p, Tick(at, Output([])), Tick(at, Output(data)));
  }

  /** Two frames of the system encoder: each non-empty output goes out as H.264, in Annex B form. */
  lemma SystemFrames(marshal: Marshal, p: Picture, one: seq<byte>, two: seq<byte>)
    requires p.mode == System && one != [] && two != []
    ensures var at := Grabbed(p.width, p.height);
            SeenOfTwo(marshal, p, Tick(at, Output(one)), Tick(at, Output(two))) ==
            [Binary([0x02] + AnnexB.Ensured(one)), Binary([0x02] + AnnexB.Ensured(two))]
  {
    var at := Grabbed(p.width, p.height);
    TwoEvents(marshal, p, Tick(at, Output(one)), Tick(at, Output(two)));
  }

  /** Failed and empty output is never sent; only JPEG passes empty output on. */
  lemma NothingToSend(marshal: Marshal, p: Picture, one: Encoded, two: Encoded)
    requires p.mode != Jpeg && p.mode != System
    requires one in {EncodeError, Output([])} && two in {EncodeError, Output([])}
    ensures var at := Grabbed(p.width, p.height);
            SeenOfTwo(marshal, p, Tick(at, one), Tick(at, two)) == []
  {
    var at := Grabbed(p.width, p.height);
    TwoEvents(marshal, p, Tick(at, one), Tick(at, two));
  }

  /** What is said beside the video: sound behind its own type byte, which no video has, and the documents
      for an input block, the clipboard, and the two ends of an idle stream. */
  lemma SaidBeside(marshal: Marshal, p: Picture, pcm: seq<byte>, blocked: bool, text: string)
    requires pcm != []
    ensures SeenDirectly(marshal, p, [Sound(pcm), BlockRequest(blocked)]) ==
            [Binary([0x06] + pcm), Text(marshal(BlockJson(blocked)))]
    ensures SeenDirectly(marshal, p, [ClipboardRequest(text), WarningTick]) ==
            [Text(marshal(ClipboardJson(text))), Text(marshal(WarningJson(30)))]
    ensures forall mode | mode != Silent :: FrameType(mode) in {0x01, 0x02, 0x03, 0x04, 0x05}
  {
    TwoSaid(marshal, p, Sound(pcm), BlockRequest(blocked));
    TwoSaid(marshal, p, ClipboardRequest(text), WarningTick);
  }

  lemma TwoSaid(marshal: Marshal, p: Picture, x: Happening, y: Happening)
    requires !x.Common? && !x.TimeoutTick? && !y.Common?
    ensures SeenDirectly(marshal, p, [x, y]) == Direct(marshal, SaidAt(p, x)) + Direct(marshal, SaidAt(p, y))
  {
    var a, b := SaidAt(p, x), SaidAt(p, y);
    Fold2(DirectStep, Directly(p, [], false), x, y);
    assert [] + [a] + [b] == [a] + [b];
    assert DirectRun(p, [x, y]).said == [a] + [b];
    FlatMapConcat(DirectBy(marshal), [a], [b]);
    FlatMapOne(DirectBy(marshal), a);
    FlatMapOne(DirectBy(marshal), b);
  }
}
