/**
 Whole runs of the relay: the pairing protocol of RelayControl together with the frames that the
 pumps of handleRelay move (server/relay.go).

 Both goroutines of a paired handler use the partner's queue: the reader puts what its connection
 sent there (line 228) and the outbound pump takes from it (line 157). The theorems at the end say
 what this means for whole runs.
 */
module RelayProtocol {
  import opened Wrappers
  import opened Sessions
  import opened RelayControl
  import opened Runs

  const SEND_CAPACITY := 256

  /** A WebSocket message read from a connection: a JSON ping, or anything else. */
  datatype Message = Ping | Payload(body: seq<bv8>)

  /** A queued frame. `source` and `number` say which message of which connection it was. */
  datatype Frame = Data(source: nat, number: nat, body: seq<bv8>) | Notice(source: nat)

  /** The history of one handler's two goroutines: `heard` is what its connection sent, `accepted` what
      it put on its partner's queue, `taken` what its pump took from there, `written` what reached its
      own connection; `pump` says whether the pump still runs. */
  datatype Flow = Flow(heard: seq<Message>, dropped: nat, pongs: nat, notices: nat,
                       accepted: seq<Frame>, taken: seq<Frame>, written: seq<Frame>, pump: bool)

  const NO_FLOW := Flow([], 0, 0, 0, [], [], [], false)

  /** `queues[p]` is the `sendCh` of peer p. */
  datatype State = State(c: Control, queues: seq<seq<Frame>>, flows: seq<Flow>)

  datatype Event =
    | OnConnect(role: Role, token: string)
    | OnEnter(h: nat) | OnRegister(h: nat) | OnAnnounce(h: nat)
    | OnReceive(h: nat) | OnGiveUp(h: nat)
    | OnRead(h: nat, message: Message)
    | OnPump(h: nat, delivered: bool) | OnPumpStop(h: nat)
    | OnHangUp(h: nat) | OnRemove(h: nat) | OnNotify(h: nat)

  // ---- What a handler does to its history and to its partner's queue ----

  /** A send on the partner's queue that gives up when the queue is full. */
  function Offer(f: Flow, queue: seq<Frame>, frame: Frame): (Flow, seq<Frame>) {
    if |queue| < SEND_CAPACITY then
      (f.(accepted := f.accepted + [frame], notices := f.notices + if frame.Notice? then 1 else 0),
       queue + [frame])
    else
      (f.(dropped := f.dropped + if frame.Data? then 1 else 0), queue)
  }

  /** One turn of the read loop. */
  function Hear(f: Flow, queue: seq<Frame>, h: nat, message: Message): (Flow, seq<Frame>) {
    var g := f.(heard := f.heard + [message]);
    match message
    case Ping => (g.(pongs := f.pongs + 1), queue)
    case Payload(body) => Offer(g, queue, Data(h, |f.heard|, body))
  }

  /** One turn of the outbound pump: the first frame of the partner's queue goes to this handler's own
      connection; a failed write ends the pump. */
  function PumpOnce(f: Flow, queue: seq<Frame>, delivered: bool): (Flow, seq<Frame>)
    requires queue != []
  {
    var g := f.(taken := f.taken + [queue[0]]);
    (if delivered then g.(written := f.written + [queue[0]]) else g.(pump := false), queue[1..])
  }

  // ---- Steps ----

  predicate Shape(s: State) {
    |s.queues| == |s.flows| == |s.c.handlers|
  }

  predicate HasPartner(s: State, h: nat) {
    Shape(s) && h < |s.flows| && s.c.handlers[h].partner.Some? && s.c.handlers[h].partner.value.id < |s.flows|
  }

  function PartnerId(s: State, h: nat): nat
    requires HasPartner(s, h)
  {
    s.c.handlers[h].partner.value.id
  }

  function PartnerQueue(s: State, h: nat): seq<Frame>
    requires HasPartner(s, h)
  {
    s.queues[PartnerId(s, h)]
  }

  function Move(s: State, h: nat, move: (Flow, seq<Frame>)): State
    requires HasPartner(s, h)
  {
    s.(flows := s.flows[h := move.0], queues := s.queues[PartnerId(s, h) := move.1])
  }

  function Next(s: State, ev: Event): State {
    match ev
    case OnConnect(role, token) => State(Arrive(s.c, role, token), s.queues + [[]], s.flows + [NO_FLOW])
    case OnEnter(h) => if At(s.c, h, Arriving) then s.(c := Enter(s.c, h)) else s
    case OnRegister(h) => if At(s.c, h, Holding) && HasEntry(s.c, h) then s.(c := Join(s.c, h)) else s
    case OnAnnounce(h) => if At(s.c, h, Announcing) then s.(c := Announce(s.c, h)) else s
    case OnReceive(h) =>
      if At(s.c, h, Waiting) && HasEntry(s.c, h) && PartnerCh(s.c, h) != [] && h < |s.flows|
      then s.(c := Receive(s.c, h), flows := s.flows[h := s.flows[h].(pump := true)]) else s
    case OnGiveUp(h) => if At(s.c, h, Waiting) then s.(c := GiveUp(s.c, h)) else s
    case OnRead(h, message) =>
      if At(s.c, h, Paired) && HasPartner(s, h)
      then Move(s, h, Hear(s.flows[h], PartnerQueue(s, h), h, message)) else s
    case OnPump(h, delivered) =>
      if HasPartner(s, h) && s.flows[h].pump && PartnerQueue(s, h) != []
      then Move(s, h, PumpOnce(s.flows[h], PartnerQueue(s, h), delivered)) else s
    case OnPumpStop(h) =>
      if HasPartner(s, h) && !At(s.c, h, Paired)
      then Move(s, h, (s.flows[h].(pump := false), PartnerQueue(s, h))) else s
    case OnHangUp(h) => if At(s.c, h, Paired) then s.(c := HangUp(s.c, h)) else s
    case OnRemove(h) => if At(s.c, h, Leaving) then s.(c := Remove(s.c, h)) else s
    case OnNotify(h) =>
      if At(s.c, h, Notifying) && HasPartner(s, h)
      then Move(s, h, Offer(s.flows[h], PartnerQueue(s, h), Notice(h))).(c := Finish(s.c, h)) else s
  }

  function Init(max: int): State {
    State(Control(max, map[], [], [], [], []), [], [])
  }

  function Run(max: int, evs: seq<Event>): State {
    Fold(Next, Init(max), evs)
  }

  // ---- Pairing is exclusive and mutual ----

  lemma PartnerFacts(c: Control, h: nat)
    requires Inv(c) && h < |c.handlers| && c.handlers[h].partner.Some?
    ensures HasEntry(c, h)
    ensures var q := c.handlers[h].partner.value;
            && q.id < |c.handlers| && q.id != h && q.role == Opposite(c.handlers[h].role)
            && c.handlers[q.id].joined && c.handlers[q.id].role == q.role
            && c.handlers[q.id].entry == c.handlers[h].entry
            && Slot(EntryOf(c, h), q.role) == Some(q)
  {
    assert HandlerOk(c, h);
    assert EntryOk(c, c.handlers[h].entry.value);
  }

  lemma PartnerExclusive(c: Control, h: nat, k: nat)
    requires Inv(c) && h < |c.handlers| && k < |c.handlers|
    requires c.handlers[h].partner.Some? && c.handlers[k].partner.Some?
    requires c.handlers[h].partner.value.id == c.handlers[k].partner.value.id
    ensures h == k
  {
    PartnerFacts(c, h);
    PartnerFacts(c, k);
    assert HandlerOk(c, h) && HandlerOk(c, k);
  }

  // ---- Invariant of the frames ----

  predicate EndsInNotice(f: Flow) {
    f.accepted != [] && f.accepted[|f.accepted| - 1].Notice?
  }

  /** A message that may stand before another frame: nothing follows a closing notice. */
  predicate Before(a: Frame, b: Frame) {
    a.Data? && (b.Data? ==> a.number < b.number)
  }

  /** The frames a handler puts on a queue are its own messages, in the order they were read, and at
      most one closing notice. */
  ghost predicate OwnFrames(f: Flow, h: nat) {
    && (forall i | 0 <= i < |f.accepted| :: f.accepted[i].source == h)
    && (forall i | 0 <= i < |f.accepted| && f.accepted[i].Data? ::
          f.accepted[i].number < |f.heard| && f.heard[f.accepted[i].number] == Payload(f.accepted[i].body))
    && (forall i, j | 0 <= i < j < |f.accepted| :: Before(f.accepted[i], f.accepted[j]))
  }

  /** Everything a handler's history says, given the queue it writes and reads. */
  ghost predicate HistoryOk(f: Flow, h: nat, queue: seq<Frame>) {
    && |queue| <= SEND_CAPACITY
    && f.accepted == f.taken + queue
    && f.written <= f.taken && |f.taken| <= |f.written| + 1 && (f.pump ==> f.written == f.taken)
    && |f.heard| + f.notices == |f.accepted| + f.dropped + f.pongs
    && OwnFrames(f, h)
    && f.notices == (if EndsInNotice(f) then 1 else 0)
    && (f.dropped > 0 ==> |f.accepted| >= SEND_CAPACITY)
  }

  /** Some handler has q as its partner. */
  ghost predicate HasReader(c: Control, q: nat) {
    exists h: nat :: h < |c.handlers| && c.handlers[h].partner.Some? && c.handlers[h].partner.value.id == q
  }

  ghost predicate FlowOk(s: State, h: nat)
    requires Shape(s) && h < |s.flows|
  {
    var f, x := s.flows[h], s.c.handlers[h];
    && (s.queues[h] != [] ==> HasReader(s.c, h))
    && (x.partner.None? ==> f == NO_FLOW)
    && (x.partner.Some? ==> HasPartner(s, h) && HistoryOk(f, h, PartnerQueue(s, h)))
    && (f.notices > 0 ==> x.phase.Gone?)
  }

  ghost predicate Good(s: State) {
    Shape(s) && Inv(s.c) && forall h: nat | h < |s.flows| :: FlowOk(s, h)
  }

  // ---- Steps of the control part ----

  lemma ReaderKept(c: Control, d: Control, q: nat)
    requires |c.handlers| <= |d.handlers| && HasReader(c, q)
    requires forall h: nat | h < |c.handlers| && c.handlers[h].partner.Some? ::
               d.handlers[h].partner == c.handlers[h].partner
    ensures HasReader(d, q)
  {
    var k: nat :| k < |c.handlers| && c.handlers[k].partner.Some? && c.handlers[k].partner.value.id == q;
    assert d.handlers[k].partner == c.handlers[k].partner;
  }

  /** A step that leaves every partner as it was keeps the frames in order. */
  lemma ControlKeepsFlows(s: State, d: Control)
    requires Good(s) && Inv(d) && |d.handlers| == |s.c.handlers|
    requires forall h: nat | h < |d.handlers| ::
               && d.handlers[h].partner == s.c.handlers[h].partner
               && (s.c.handlers[h].phase.Gone? ==> d.handlers[h].phase.Gone?)
    ensures Good(s.(c := d))
  {
    var t := s.(c := d);
    forall h: nat | h < |t.flows| ensures FlowOk(t, h) {
      assert FlowOk(s, h);
      if HasReader(s.c, h) { ReaderKept(s.c, d, h); }
    }
  }

  lemma ConnectKeeps(s: State, role: Role, token: string)
    requires Good(s)
    ensures Good(Next(s, OnConnect(role, token)))
  {
    var t := Next(s, OnConnect(role, token));
    ArriveKeeps(s.c, role, token);
    forall h: nat | h < |t.flows| ensures FlowOk(t, h) {
      if h < |s.flows| {
        assert FlowOk(s, h);
        if HasReader(s.c, h) { ReaderKept(s.c, t.c, h); }
      }
    }
  }

  /** The queue of a newly received partner is still empty. */
  lemma ReceivePairs(s: State, h: nat)
    requires Good(s) && ReceiveEnabled(s.c, h)
    ensures s.c.handlers[h].partner.None? && Inv(Receive(s.c, h))
    ensures var t := s.(c := Receive(s.c, h)); HasPartner(t, h) && PartnerQueue(t, h) == []
  {
    var d := Receive(s.c, h);
    ReceiveKeeps(s.c, h);
    assert HandlerOk(s.c, h);
    PartnerFacts(d, h);
    var q := d.handlers[h].partner.value.id;
    assert FlowOk(s, q);
    if HasReader(s.c, q) {
      var k: nat :| k < |s.c.handlers| && s.c.handlers[k].partner.Some? && s.c.handlers[k].partner.value.id == q;
      assert d.handlers[k].partner == s.c.handlers[k].partner;
      PartnerExclusive(d, h, k);
    }
  }

  /** A handler that starts its pump with an empty partner queue has a history in order. */
  lemma FreshHistory(h: nat)
    ensures HistoryOk(NO_FLOW.(pump := true), h, [])
  {
  }

  lemma ReceiveKeepsOtherFlow(s: State, d: Control, h: nat, k: nat)
    requires Good(s) && h < |s.flows| && k < |s.flows| && k != h && |d.handlers| == |s.c.handlers|
    requires forall j: nat | j < |d.handlers| && j != h :: d.handlers[j] == s.c.handlers[j]
    requires s.c.handlers[h].partner.None?
    ensures FlowOk(s.(c := d, flows := s.flows[h := s.flows[h].(pump := true)]), k)
  {
    assert FlowOk(s, k);
    if HasReader(s.c, k) { ReaderKept(s.c, d, k); }
  }

  lemma ReceiveKeepsOwnFlow(s: State, h: nat)
    requires Good(s) && ReceiveEnabled(s.c, h)
    ensures FlowOk(Next(s, OnReceive(h)), h)
  {
    var d, t := Receive(s.c, h), Next(s, OnReceive(h));
    ReceivePairs(s, h);
    assert FlowOk(s, h);
    assert t == s.(c := d, flows := s.flows[h := NO_FLOW.(pump := true)]);
    assert PartnerQueue(t, h) == PartnerQueue(s.(c := d), h) == [];
    if HasReader(s.c, h) { ReaderKept(s.c, d, h); }
    FreshHistory(h);
  }

  lemma ReceiveStepKeeps(s: State, h: nat)
    requires Good(s) && ReceiveEnabled(s.c, h)
    ensures Good(Next(s, OnReceive(h)))
  {
    ReceivePairs(s, h);
    forall k: nat | k < |s.flows| ensures FlowOk(Next(s, OnReceive(h)), k) {
      if k == h { ReceiveKeepsOwnFlow(s, h); } else { ReceiveKeepsOtherFlow(s, Receive(s.c, h), h, k); }
    }
  }

  // ---- Steps of the frames ----

  lemma OwnFramesClosed(f: Flow, h: nat, frame: Frame)
    requires OwnFrames(f, h) && !EndsInNotice(f) && frame.source == h && frame.Notice?
    ensures OwnFrames(f.(accepted := f.accepted + [frame], notices := f.notices + 1), h)
  {
    var g := f.(accepted := f.accepted + [frame], notices := f.notices + 1);
    forall i, j | 0 <= i < j < |g.accepted|
      ensures Before(g.accepted[i], g.accepted[j])
    {
      if j < |f.accepted| {
        assert Before(f.accepted[i], f.accepted[j]);
      } else if i < |f.accepted| - 1 {
        assert Before(f.accepted[i], f.accepted[|f.accepted| - 1]);
      }
    }
  }

  lemma OfferKeeps(f: Flow, h: nat, queue: seq<Frame>, frame: Frame)
    requires HistoryOk(f, h, queue) && f.notices == 0 && frame.source == h && frame.Notice?
    ensures var (g, queue') := Offer(f, queue, frame); HistoryOk(g, h, queue')
  {
    var (g, queue') := Offer(f, queue, frame);
    if |queue| < SEND_CAPACITY {
      assert g.accepted == g.taken + queue';
      OwnFramesClosed(f, h, frame);
    }
  }

  /** Hearing one more message keeps the frames queued so far. */
  lemma OwnFramesHeard(f: Flow, h: nat, message: Message)
    requires OwnFrames(f, h)
    ensures OwnFrames(f.(heard := f.heard + [message]), h)
  {
  }

  lemma OwnFramesQueued(f: Flow, h: nat, body: seq<bv8>)
    requires OwnFrames(f, h) && !EndsInNotice(f)
    ensures OwnFrames(f.(heard := f.heard + [Payload(body)], accepted := f.accepted + [Data(h, |f.heard|, body)]), h)
  {
    var g := f.(heard := f.heard + [Payload(body)], accepted := f.accepted + [Data(h, |f.heard|, body)]);
    forall i, j | 0 <= i < j < |g.accepted|
      ensures Before(g.accepted[i], g.accepted[j])
    {
      if j < |f.accepted| {
        assert Before(f.accepted[i], f.accepted[j]);
      } else if i < |f.accepted| - 1 {
        assert Before(f.accepted[i], f.accepted[|f.accepted| - 1]);
      }
    }
  }

  lemma QueuedKeeps(f: Flow, h: nat, queue: seq<Frame>, body: seq<bv8>)
    requires HistoryOk(f, h, queue) && f.notices == 0 && |queue| < SEND_CAPACITY
    ensures var (g, queue') := Hear(f, queue, h, Payload(body)); HistoryOk(g, h, queue') && g.notices == 0
  {
    var (g, queue') := Hear(f, queue, h, Payload(body));
    OwnFramesQueued(f, h, body);
    assert g == f.(heard := f.heard + [Payload(body)], accepted := f.accepted + [Data(h, |f.heard|, body)]);
    assert g.accepted == g.taken + queue';
  }

  lemma HearKeeps(f: Flow, h: nat, queue: seq<Frame>, message: Message)
    requires HistoryOk(f, h, queue) && f.notices == 0
    ensures var (g, queue') := Hear(f, queue, h, message); HistoryOk(g, h, queue') && g.notices == 0
  {
    if message.Payload? && |queue| < SEND_CAPACITY {
      QueuedKeeps(f, h, queue, message.body);
    } else {
      OwnFramesHeard(f, h, message);
    }
  }

  lemma PumpKeeps(f: Flow, h: nat, queue: seq<Frame>, delivered: bool)
    requires HistoryOk(f, h, queue) && f.pump && queue != []
    ensures var (g, queue') := PumpOnce(f, queue, delivered); HistoryOk(g, h, queue') && g.notices == f.notices
  {
    var (g, queue') := PumpOnce(f, queue, delivered);
    assert queue == [queue[0]] + queue[1..];
    assert g.accepted == g.taken + queue';
  }

  /** A step of handler h on its own history and its partner's queue disturbs nobody else, because no
      other handler has that partner. */
  lemma MoveKeeps(s: State, h: nat, move: (Flow, seq<Frame>))
    requires Good(s) && HasPartner(s, h)
    requires HistoryOk(move.0, h, move.1) && (move.0.notices > 0 ==> s.c.handlers[h].phase.Gone?)
    ensures Good(Move(s, h, move))
  {
    var t := Move(s, h, move);
    PartnerFacts(s.c, h);
    assert HasReader(s.c, PartnerId(s, h));
    forall k: nat | k < |t.flows| ensures FlowOk(t, k) {
      assert FlowOk(s, k);
      if k != h && s.c.handlers[k].partner.Some? && s.c.handlers[k].partner.value.id == PartnerId(s, h) {
        PartnerExclusive(s.c, h, k);
      }
    }
  }

  // ---- Every step, every run ----

  /** No handler loses or changes its partner, and none that has ended comes back. */
  predicate HandlersKept(c: Control, d: Control) {
    && |d.handlers| == |c.handlers|
    && forall k: nat | k < |c.handlers| ::
         d.handlers[k].partner == c.handlers[k].partner && (c.handlers[k].phase.Gone? ==> d.handlers[k].phase.Gone?)
  }

  lemma EnterHandlers(c: Control, h: nat)
    requires At(c, h, Arriving)
    ensures HandlersKept(c, Enter(c, h))
  {
  }

  lemma JoinHandlers(c: Control, h: nat)
    requires At(c, h, Holding) && HasEntry(c, h)
    ensures HandlersKept(c, Join(c, h))
  {
  }

  /** The steps that only move a handler along. */
  predicate IsControlStep(c: Control, ev: Event) {
    match ev
    case OnEnter(h) => At(c, h, Arriving)
    case OnRegister(h) => At(c, h, Holding) && HasEntry(c, h)
    case OnAnnounce(h) => At(c, h, Announcing)
    case OnGiveUp(h) => At(c, h, Waiting)
    case OnHangUp(h) => At(c, h, Paired)
    case OnRemove(h) => At(c, h, Leaving)
    case _ => false
  }

  function ControlStep(c: Control, ev: Event): Control
    requires IsControlStep(c, ev)
  {
    match ev
    case OnEnter(h) => Enter(c, h)
    case OnRegister(h) => Join(c, h)
    case OnAnnounce(h) => Announce(c, h)
    case OnGiveUp(h) => GiveUp(c, h)
    case OnHangUp(h) => HangUp(c, h)
    case OnRemove(h) => Remove(c, h)
  }

  lemma ControlStepHandlers(c: Control, ev: Event)
    requires IsControlStep(c, ev)
    ensures HandlersKept(c, ControlStep(c, ev))
  {
    if ev.OnEnter? { EnterHandlers(c, ev.h); } else if ev.OnRegister? { JoinHandlers(c, ev.h); }
  }

  lemma ControlStepKeeps(s: State, ev: Event)
    requires Good(s) && IsControlStep(s.c, ev)
    ensures Good(Next(s, ev))
  {
    match ev {
      case OnEnter(h) => EnterKeeps(s.c, h);
      case OnRegister(h) => JoinKeeps(s.c, h);
      case OnAnnounce(h) => AnnounceKeeps(s.c, h);
      case OnGiveUp(h) => StopKeeps(s.c, h);
      case OnHangUp(h) => StopKeeps(s.c, h);
      case OnRemove(h) => RemoveKeeps(s.c, h);
    }
    ControlStepHandlers(s.c, ev);
    ControlKeepsFlows(s, ControlStep(s.c, ev));
  }

  lemma NotifyKeeps(s: State, h: nat)
    requires Good(s) && At(s.c, h, Notifying) && HasPartner(s, h)
    ensures Good(Next(s, OnNotify(h)))
  {
    assert FlowOk(s, h);
    FinishKeeps(s.c, h);
    var t := s.(c := Finish(s.c, h));
    ControlKeepsFlows(s, t.c);
    OfferKeeps(s.flows[h], h, PartnerQueue(s, h), Notice(h));
    MoveKeeps(t, h, Offer(t.flows[h], PartnerQueue(t, h), Notice(h)));
  }

  lemma ReadStepKeeps(s: State, h: nat, message: Message)
    requires Good(s) && At(s.c, h, Paired) && HasPartner(s, h)
    ensures Good(Next(s, OnRead(h, message)))
  {
    assert FlowOk(s, h);
    HearKeeps(s.flows[h], h, PartnerQueue(s, h), message);
    MoveKeeps(s, h, Hear(s.flows[h], PartnerQueue(s, h), h, message));
  }

  lemma PumpStepKeeps(s: State, h: nat, delivered: bool)
    requires Good(s) && HasPartner(s, h) && s.flows[h].pump && PartnerQueue(s, h) != []
    ensures Good(Next(s, OnPump(h, delivered)))
  {
    assert FlowOk(s, h);
    PumpKeeps(s.flows[h], h, PartnerQueue(s, h), delivered);
    MoveKeeps(s, h, PumpOnce(s.flows[h], PartnerQueue(s, h), delivered));
  }

  lemma PumpStopKeeps(s: State, h: nat)
    requires Good(s) && HasPartner(s, h) && !At(s.c, h, Paired)
    ensures Good(Next(s, OnPumpStop(h)))
  {
    assert FlowOk(s, h);
    MoveKeeps(s, h, (s.flows[h].(pump := false), PartnerQueue(s, h)));
  }

  lemma NextKeeps(s: State, ev: Event)
    requires Good(s)
    ensures Good(Next(s, ev))
  {
    if Next(s, ev) != s {
      match ev
      case OnConnect(role, token) => ConnectKeeps(s, role, token);
      case OnReceive(h) => ReceiveStepKeeps(s, h);
      case OnNotify(h) => NotifyKeeps(s, h);
      case OnRead(h, message) => ReadStepKeeps(s, h, message);
      case OnPump(h, delivered) => PumpStepKeeps(s, h, delivered);
      case OnPumpStop(h) => PumpStopKeeps(s, h);
      case _ => ControlStepKeeps(s, ev);
    }
  }

  /** The invariant of the whole relay, after any run. */
  lemma {:induction false} RunGood(max: int, evs: seq<Event>)
    ensures Good(Run(max, evs))
  {
    if evs != [] {
      RunGood(max, evs[..|evs| - 1]);
      NextKeeps(Run(max, evs[..|evs| - 1]), evs[|evs| - 1]);
    }
  }

  // ---- Sessions do not leak ----

  predicate Running(x: Handler) {
    !x.phase.Gone? && !x.phase.Crashed?
  }

  /** A handler that keeps the entry of a token alive: the creator before it registers, or a registered
      peer that has still to remove the token. It runs, unless the token was too short to be logged. */
  ghost predicate Keeps(c: Control, token: string, h: nat) {
    && token in c.sessions && HasEntry(c, h) && c.handlers[h].entry == Some(c.sessions[token])
    && c.handlers[h].token == token && !c.handlers[h].phase.Notifying? && !c.handlers[h].phase.Gone?
    && (c.handlers[h].phase.Crashed? ==> !LongEnough(token))
    && (c.handlers[h].joined
        || (c.handlers[h].phase.Holding? && NobodyHere(c, c.sessions[token])
            && c.sessions[token] < |c.creators| && c.creators[c.sessions[token]] == h))
  }

  lemma KeeperExists(c: Control, token: string) returns (h: nat)
    requires Inv(c) && token in c.sessions
    ensures Keeps(c, token, h)
  {
    var e := c.sessions[token];
    assert TokenOk(c, token) && EntryOk(c, e);
    if c.entries[e].viewer.Some? {
      h := c.entries[e].viewer.value.id;
    } else if c.entries[e].agent.Some? {
      h := c.entries[e].agent.value.id;
    } else {
      h := c.creators[e];
    }
    assert HandlerOk(c, h);
  }

  /** Every session tracked is kept by a handler that will still remove it, except that a handler whose
      token is shorter than eight characters may have panicked. */
  lemma NoSessionLeaks(max: int, evs: seq<Event>, token: string)
    ensures var c := Run(max, evs).c;
            token in c.sessions ==> exists h: nat :: Keeps(c, token, h)
  {
    RunGood(max, evs);
    var c := Run(max, evs).c;
    if token in c.sessions {
      var h := KeeperExists(c, token);
    }
  }

  function RunningHandlers(c: Control): set<nat> {
    set h: nat | h < |c.handlers| && Running(c.handlers[h])
  }

  function CrashedHandlers(c: Control): set<nat> {
    set h: nat | h < |c.handlers| && c.handlers[h].phase.Crashed?
  }

  function LongTokens(c: Control): set<string> {
    set token | token in c.sessions && LongEnough(token)
  }

  lemma {:induction false} ImageSize<A>(small: set<A>, big: set<nat>, f: map<A, nat>)
    requires forall a | a in small :: a in f && f[a] in big
    requires forall a, b | a in small && b in small && a != b :: f[a] != f[b]
    ensures |small| <= |big|
  {
    if small != {} {
      var a :| a in small;
      ImageSize(small - {a}, big - {f[a]}, f);
      assert |small| == |small - {a}| + 1 && |big| == |big - {f[a]}| + 1;
    }
  }

  lemma {:induction false} KeeperMap(c: Control, tokens: set<string>) returns (f: map<string, nat>)
    requires Inv(c) && forall token | token in tokens :: token in c.sessions
    ensures f.Keys == tokens && forall token | token in tokens :: Keeps(c, token, f[token])
  {
    f := map[];
    if tokens != {} {
      var token :| token in tokens;
      var h := KeeperExists(c, token);
      var rest := KeeperMap(c, tokens - {token});
      f := rest[token := h];
      assert f.Keys == tokens;
    }
  }

  lemma SessionsBound(c: Control)
    requires Inv(c)
    ensures |c.sessions| <= |RunningHandlers(c)| + |CrashedHandlers(c)|
  {
    var f := KeeperMap(c, c.sessions.Keys);
    assert RunningHandlers(c) !! CrashedHandlers(c);
    ImageSize(c.sessions.Keys, RunningHandlers(c) + CrashedHandlers(c), f);
  }

  lemma LongTokensBound(c: Control)
    requires Inv(c)
    ensures |LongTokens(c)| <= |RunningHandlers(c)|
  {
    var f := KeeperMap(c, LongTokens(c));
    ImageSize(LongTokens(c), RunningHandlers(c), f);
  }

  /** The sessions tracked never outnumber the handlers that run, counting those that panicked; sessions
      whose token has at least eight characters never outnumber the running handlers alone. */
  lemma CountBound(max: int, evs: seq<Event>)
    ensures var c := Run(max, evs).c;
            && |c.sessions| <= |RunningHandlers(c)| + |CrashedHandlers(c)|
            && |LongTokens(c)| <= |RunningHandlers(c)|
            && (max > 0 ==> |c.sessions| <= max)
  {
    RunGood(max, evs);
    RunMax(max, evs);
    SessionsBound(Run(max, evs).c);
    LongTokensBound(Run(max, evs).c);
  }

  lemma NextMax(s: State, ev: Event)
    ensures Next(s, ev).c.max == s.c.max
  {
  }

  lemma {:induction false} RunMax(max: int, evs: seq<Event>)
    ensures Run(max, evs).c.max == max
  {
    if evs != [] {
      RunMax(max, evs[..|evs| - 1]);
      NextMax(Run(max, evs[..|evs| - 1]), evs[|evs| - 1]);
    }
  }

  /** When no handler runs any more, exactly the sessions with a token shorter than eight characters are
      left: their handlers panicked before they could reach the removal. */
  lemma LeftoverSessions(max: int, evs: seq<Event>)
    requires RunningHandlers(Run(max, evs).c) == {}
    ensures var c := Run(max, evs).c;
            forall token :: token in c.sessions <==>
              !LongEnough(token) && exists e: nat :: e < |c.entries| && c.entries[e].token == token
  {
    RunGood(max, evs);
    var c := Run(max, evs).c;
    forall h: nat | h < |c.handlers| ensures !Running(c.handlers[h]) {
      assert Running(c.handlers[h]) ==> h in RunningHandlers(c);
    }
    forall token
      ensures token in c.sessions <==>
                !LongEnough(token) && exists e: nat :: e < |c.entries| && c.entries[e].token == token
    {
      if token in c.sessions {
        assert TokenOk(c, token);
        if LongEnough(token) {
          var h := KeeperExists(c, token);
          assert false;
        }
        assert c.entries[c.sessions[token]].token == token;
      } else if exists e: nat :: e < |c.entries| && c.entries[e].token == token {
        var e: nat :| e < |c.entries| && c.entries[e].token == token;
        assert EntryOk(c, e);
      }
    }
  }

  // ---- Pairing over whole runs ----

  /** A channel that p was put on for q to read, still unread. */
  ghost predicate Offered(c: Control, q: nat, p: Peer) {
    HasEntry(c, q) && c.handlers[q].partner.None? && PartnerCh(c, q) == [p]
  }

  /** Whoever obtained a partner shares an entry with it, in the opposite role, and the partner has
      already received it or still finds it on its channel; and nobody else has that partner. */
  lemma PairingMutual(max: int, evs: seq<Event>, h: nat)
    requires h < |Run(max, evs).c.handlers| && Run(max, evs).c.handlers[h].partner.Some?
    ensures var c := Run(max, evs).c;
            var x, q := c.handlers[h], c.handlers[h].partner.value;
            && q.id < |c.handlers| && q.role == c.handlers[q.id].role == Opposite(x.role)
            && c.handlers[q.id].entry == x.entry && c.handlers[q.id].token == x.token
            && (c.handlers[q.id].partner == Some(Peer(h, x.role)) || Offered(c, q.id, Peer(h, x.role)))
            && forall k: nat | k < |c.handlers| && c.handlers[k].partner == Some(q) :: k == h
  {
    RunGood(max, evs);
    var c := Run(max, evs).c;
    var q := c.handlers[h].partner.value;
    PartnerFacts(c, h);
    assert HandlerOk(c, h) && HandlerOk(c, q.id);
    forall k: nat | k < |c.handlers| && c.handlers[k].partner == Some(q) ensures k == h {
      PartnerExclusive(c, h, k);
    }
  }

  /** At most one viewer and one agent register with an entry, its channel is sent to at most once, and
      no registration blocks. */
  lemma RegistrationExclusive(max: int, evs: seq<Event>)
    ensures var c := Run(max, evs).c;
            && (forall h: nat, k: nat | h < |c.handlers| && k < |c.handlers|
                  && c.handlers[h].joined && c.handlers[k].joined
                  && c.handlers[h].entry == c.handlers[k].entry && c.handlers[h].role == c.handlers[k].role :: h == k)
            && |c.sends| == |c.entries|
            && (forall e: nat | e < |c.entries| :: |c.entries[e].pairCh| <= c.sends[e] <= 1)
            && (forall h: nat | At(c, h, Holding) ::
                  HasEntry(c, h) && !RegisterOutcome(EntryOf(c, h), Peer(h, c.handlers[h].role)).Blocked?)
  {
    RunGood(max, evs);
    var c := Run(max, evs).c;
    forall h: nat, k: nat | h < |c.handlers| && k < |c.handlers| && c.handlers[h].joined && c.handlers[k].joined
        && c.handlers[h].entry == c.handlers[k].entry && c.handlers[h].role == c.handlers[k].role
      ensures h == k
    {
      assert HandlerOk(c, h) && HandlerOk(c, k);
    }
    forall e: nat | e < |c.entries| ensures |c.entries[e].pairCh| <= c.sends[e] <= 1 { assert EntryOk(c, e); }
    forall h: nat | At(c, h, Holding)
      ensures HasEntry(c, h) && !RegisterOutcome(EntryOf(c, h), Peer(h, c.handlers[h].role)).Blocked?
    {
      NeverBlocked(c, h);
    }
  }

  /** A handler that looks its token up is turned away exactly when the token is not tracked, a limit is
      set and as many sessions are tracked; otherwise it holds an entry, and the token is tracked. */
  lemma LookupExactly(max: int, evs: seq<Event>, h: nat)
    requires At(Run(max, evs).c, h, Arriving)
    ensures var c, d := Run(max, evs).c, Run(max, evs + [OnEnter(h)]).c;
            var token := c.handlers[h].token;
            && (At(d, h, Gone) <==> token !in c.sessions && max > 0 && |c.sessions| >= max)
            && (!At(d, h, Gone) ==> At(d, h, Holding) && HasEntry(d, h) && token in d.sessions
                                    && d.handlers[h].entry == Some(d.sessions[token]))
            && (forall other | other != token :: other in c.sessions <==> other in d.sessions)
  {
    RunGood(max, evs);
    RunMax(max, evs);
    FoldSnoc(Next, Init(max), evs, OnEnter(h));
    if Run(max, evs).c.handlers[h].token in Run(max, evs).c.sessions {
      assert TokenOk(Run(max, evs).c, Run(max, evs).c.handlers[h].token);
    }
  }

  /** Some handler has registered with the entry in this role. */
  ghost predicate RoleTaken(c: Control, entry: Option<nat>, role: Role) {
    exists k: nat :: k < |c.handlers| && c.handlers[k].joined
                     && c.handlers[k].entry == entry && c.handlers[k].role == role
  }

  /** A handler that registers is turned away exactly when its role is taken; otherwise it goes on to wait,
      or panics on a token of fewer than eight characters. */
  lemma JoinsExactly(max: int, evs: seq<Event>, h: nat)
    requires At(Run(max, evs).c, h, Holding)
    ensures var c, d := Run(max, evs).c, Run(max, evs + [OnRegister(h), OnAnnounce(h)]).c;
            if RoleTaken(c, c.handlers[h].entry, c.handlers[h].role) then At(d, h, Gone)
            else At(d, h, if |c.handlers[h].token| >= 8 then Waiting else Crashed) && d.handlers[h].joined
  {
    RunGood(max, evs);
    var s := Run(max, evs);
    var c := s.c;
    NeverBlocked(c, h);
    FoldConcat(Next, Init(max), evs, [OnRegister(h), OnAnnounce(h)]);
    Fold2(Next, s, OnRegister(h), OnAnnounce(h));
    RoleTakenExactly(c, h);
    JoinedPhase(c, h);
  }

  lemma RoleTakenExactly(c: Control, h: nat)
    requires Inv(c) && h < |c.handlers| && HasEntry(c, h)
    ensures RoleTaken(c, c.handlers[h].entry, c.handlers[h].role) <==> Slot(EntryOf(c, h), c.handlers[h].role).Some?
  {
    var x := c.handlers[h];
    assert EntryOk(c, x.entry.value);
    if Slot(EntryOf(c, h), x.role).Some? {
      var k := Slot(EntryOf(c, h), x.role).value.id;
      assert c.handlers[k].joined && c.handlers[k].entry == x.entry;
    }
    forall k: nat | k < |c.handlers| && c.handlers[k].joined
        && c.handlers[k].entry == x.entry && c.handlers[k].role == x.role
      ensures Slot(EntryOf(c, h), x.role).Some?
    {
      assert HandlerOk(c, k);
    }
  }

  lemma JoinedPhase(c: Control, h: nat)
    requires At(c, h, Holding) && HasEntry(c, h)
    requires !RegisterOutcome(EntryOf(c, h), Peer(h, c.handlers[h].role)).Blocked?
    ensures var d := Join(c, h);
            && d.handlers[h].token == c.handlers[h].token
            && (Slot(EntryOf(c, h), c.handlers[h].role).Some? ==> At(d, h, Gone))
            && (Slot(EntryOf(c, h), c.handlers[h].role).None? ==> At(d, h, Announcing) && d.handlers[h].joined)
  {
  }

  /** A handler that gives up waiting takes its token out of the store and ends. */
  lemma GiveUpCleansUp(max: int, evs: seq<Event>, h: nat)
    requires At(Run(max, evs).c, h, Waiting)
    ensures var c, d := Run(max, evs).c, Run(max, evs + [OnGiveUp(h), OnRemove(h)]).c;
            At(d, h, Gone) && d.sessions.Keys == c.sessions.Keys - {c.handlers[h].token}
  {
    RunGood(max, evs);
    var s := Run(max, evs);
    assert HandlerOk(s.c, h);
    FoldConcat(Next, Init(max), evs, [OnGiveUp(h), OnRemove(h)]);
    Fold2(Next, s, OnGiveUp(h), OnRemove(h));
    var t := s.(c := GiveUp(s.c, h));
    assert Next(s, OnGiveUp(h)) == t;
    assert Next(t, OnRemove(h)).c == Remove(t.c, h);
  }

  /** A paired handler whose connection ends takes its token out of the store and goes on to its notice. */
  lemma HangUpCleansUp(max: int, evs: seq<Event>, h: nat)
    requires At(Run(max, evs).c, h, Paired)
    ensures var c, d := Run(max, evs).c, Run(max, evs + [OnHangUp(h), OnRemove(h)]).c;
            At(d, h, Notifying) && d.sessions.Keys == c.sessions.Keys - {c.handlers[h].token}
  {
    RunGood(max, evs);
    var s := Run(max, evs);
    assert HandlerOk(s.c, h);
    FoldConcat(Next, Init(max), evs, [OnHangUp(h), OnRemove(h)]);
    Fold2(Next, s, OnHangUp(h), OnRemove(h));
    var t := s.(c := HangUp(s.c, h));
    assert Next(s, OnHangUp(h)) == t;
    assert Next(t, OnRemove(h)).c == Remove(t.c, h);
  }

  /** A waiting handler can receive exactly when the other side of its entry has registered. */
  lemma WaitingReceives(max: int, evs: seq<Event>, h: nat)
    requires At(Run(max, evs).c, h, Waiting)
    ensures var c := Run(max, evs).c;
            HasEntry(c, h) && (PartnerCh(c, h) != [] <==> Slot(EntryOf(c, h), Opposite(c.handlers[h].role)).Some?)
  {
    RunGood(max, evs);
    assert HandlerOk(Run(max, evs).c, h);
  }

  // ---- Frames over whole runs ----

  /** The event is a message for handler h, no ping, that finds its partner's queue full. */
  predicate ReadsIntoFull(s: State, ev: Event, h: nat) {
    && ev.OnRead? && ev.h == h && ev.message.Payload? && At(s.c, h, Paired)
    && HasPartner(s, h) && |PartnerQueue(s, h)| >= 256
  }

  function FullReads(max: int, evs: seq<Event>, h: nat): nat {
    if evs == [] then 0
    else
      var before := evs[..|evs| - 1];
      FullReads(max, before, h) + if ReadsIntoFull(Run(max, before), evs[|evs| - 1], h) then 1 else 0
  }

  lemma NextDropped(s: State, ev: Event, h: nat)
    requires Shape(s) && Shape(Next(s, ev)) && h < |Next(s, ev).flows|
    ensures Next(s, ev).flows[h].dropped ==
            (if h < |s.flows| then s.flows[h].dropped else 0) + if ReadsIntoFull(s, ev, h) then 1 else 0
  {
  }

  lemma {:induction false} DroppedExactly(max: int, evs: seq<Event>, h: nat)
    ensures FullReads(max, evs, h) == if h < |Run(max, evs).flows| then Run(max, evs).flows[h].dropped else 0
  {
    if evs != [] {
      var before, ev := evs[..|evs| - 1], evs[|evs| - 1];
      RunGood(max, before);
      RunGood(max, evs);
      DroppedExactly(max, before, h);
      var s := Run(max, before);
      if h < |Next(s, ev).flows| { NextDropped(s, ev, h); }
    }
  }

  /** Per queue: frames leave in the order they were accepted, at most 256 wait, and every message read
      was accepted, dropped or answered as a ping, dropped exactly when it found 256 waiting; the closing
      notice is counted apart. The queue of a partner is drained by the pump of the very handler that fills it. */
  lemma QueueOrder(max: int, evs: seq<Event>, h: nat)
    requires HasPartner(Run(max, evs), h)
    ensures var s := Run(max, evs);
            var f := s.flows[h];
            && f.accepted == f.taken + PartnerQueue(s, h)
            && |PartnerQueue(s, h)| <= 256
            && |f.heard| == (|f.accepted| - f.notices) + f.dropped + f.pongs && f.notices <= 1
            && f.dropped == FullReads(max, evs, h)
            && f.written <= f.taken && |f.taken| <= |f.written| + 1
            && OwnFrames(f, h)
  {
    RunGood(max, evs);
    DroppedExactly(max, evs, h);
    assert FlowOk(Run(max, evs), h);
  }

  /** A message that is not a ping is dropped exactly when 256 frames are waiting; otherwise it joins the
      queue at its end. */
  lemma DropsExactly(max: int, evs: seq<Event>, h: nat, body: seq<bv8>)
    requires At(Run(max, evs).c, h, Paired)
    ensures var s, t := Run(max, evs), Run(max, evs + [OnRead(h, Payload(body))]);
            && HasPartner(s, h) && HasPartner(t, h)
            && (t.flows[h].dropped == s.flows[h].dropped + 1 <==> |PartnerQueue(s, h)| == 256)
            && PartnerQueue(t, h) == PartnerQueue(s, h) +
                 (if |PartnerQueue(s, h)| == 256 then [] else [Data(h, |s.flows[h].heard|, body)])
  {
    RunGood(max, evs);
    var s := Run(max, evs);
    assert HandlerOk(s.c, h) && FlowOk(s, h);
    FoldSnoc(Next, Init(max), evs, OnRead(h, Payload(body)));
  }

  /** The event is handler h's closing notice, and finds its partner's queue full. */
  predicate NotifiesIntoFull(s: State, ev: Event, h: nat) {
    ev == OnNotify(h) && At(s.c, h, Notifying) && HasPartner(s, h) && |PartnerQueue(s, h)| >= 256
  }

  predicate NoticeLost(max: int, evs: seq<Event>, h: nat) {
    evs != [] &&
    (NotifiesIntoFull(Run(max, evs[..|evs| - 1]), evs[|evs| - 1], h) || NoticeLost(max, evs[..|evs| - 1], h))
  }

  /** A handler that has ended offers no more notices and stays as it is. */
  lemma GoneStays(s: State, ev: Event, h: nat)
    requires Good(s) && Shape(Next(s, ev)) && h < |s.flows| && s.c.handlers[h].phase.Gone?
    ensures Next(s, ev).flows[h].notices == s.flows[h].notices
    ensures Next(s, ev).c.handlers[h].phase.Gone? && Next(s, ev).c.handlers[h].partner == s.c.handlers[h].partner
  {
    if ev.OnEnter? && At(s.c, ev.h, Arriving) {
      EnterHandlers(s.c, ev.h);
    } else if ev.OnRegister? && At(s.c, ev.h, Holding) && HasEntry(s.c, ev.h) {
      JoinHandlers(s.c, ev.h);
    }
  }

  lemma NotifyStep(s: State, h: nat)
    requires Good(s) && At(s.c, h, Notifying) && HasPartner(s, h)
    ensures Next(s, OnNotify(h)).flows[h].notices == if |PartnerQueue(s, h)| >= 256 then 0 else 1
  {
    assert FlowOk(s, h);
  }

  /** Control steps that may end a handler end it only without a partner. */
  predicate EndsAlone(c: Control, d: Control, h: nat) {
    && h < |c.handlers| && h < |d.handlers|
    && (!c.handlers[h].phase.Gone? && d.handlers[h].phase.Gone? ==> d.handlers[h].partner.None?)
  }

  lemma EnterEndsAlone(c: Control, k: nat, h: nat)
    requires Inv(c) && At(c, k, Arriving) && h < |c.handlers|
    ensures EndsAlone(c, Enter(c, k), h)
  {
    assert HandlerOk(c, k);
  }

  lemma JoinEndsAlone(c: Control, k: nat, h: nat)
    requires Inv(c) && At(c, k, Holding) && HasEntry(c, k) && h < |c.handlers|
    ensures EndsAlone(c, Join(c, k), h)
  {
    assert HandlerOk(c, k);
  }

  lemma RemoveEndsAlone(c: Control, k: nat, h: nat)
    requires At(c, k, Leaving) && h < |c.handlers|
    ensures EndsAlone(c, Remove(c, k), h)
  {
  }

  /** A handler with a partner ends with its closing notice. */
  lemma EndsWithNotice(s: State, ev: Event, h: nat)
    requires Good(s) && Shape(Next(s, ev)) && h < |s.flows| && !s.c.handlers[h].phase.Gone?
    requires Next(s, ev).c.handlers[h].phase.Gone? && Next(s, ev).c.handlers[h].partner.Some?
    ensures ev == OnNotify(h) && At(s.c, h, Notifying) && HasPartner(s, h)
  {
    if ev.OnEnter? {
      if At(s.c, ev.h, Arriving) { EnterEndsAlone(s.c, ev.h, h); }
    } else if ev.OnRegister? {
      if At(s.c, ev.h, Holding) && HasEntry(s.c, ev.h) { JoinEndsAlone(s.c, ev.h, h); }
    } else if ev.OnRemove? {
      if At(s.c, ev.h, Leaving) { RemoveEndsAlone(s.c, ev.h, h); }
    }
  }

  lemma NewcomerArrives(s: State, ev: Event, h: nat)
    requires Shape(s) && |s.flows| <= h < |Next(s, ev).c.handlers|
    ensures At(Next(s, ev).c, h, Arriving)
  {
    if ev.OnEnter? && At(s.c, ev.h, Arriving) {
      EnterHandlers(s.c, ev.h);
    } else if ev.OnRegister? && At(s.c, ev.h, Holding) && HasEntry(s.c, ev.h) {
      JoinHandlers(s.c, ev.h);
    }
  }

  lemma {:induction false} NoticeNotYet(max: int, evs: seq<Event>, h: nat)
    requires h < |Run(max, evs).c.handlers| ==> !Run(max, evs).c.handlers[h].phase.Gone?
    ensures !NoticeLost(max, evs, h)
  {
    if evs != [] {
      var before, ev := evs[..|evs| - 1], evs[|evs| - 1];
      RunGood(max, before);
      RunGood(max, evs);
      var s := Run(max, before);
      if h < |s.flows| {
        if s.c.handlers[h].phase.Gone? { GoneStays(s, ev, h); }
        if NotifiesIntoFull(s, ev, h) { NotifyEnds(s, h); }
      }
      NoticeNotYet(max, before, h);
    }
  }

  lemma NotifyEnds(s: State, h: nat)
    requires At(s.c, h, Notifying) && HasPartner(s, h)
    ensures At(Next(s, OnNotify(h)).c, h, Gone)
  {
  }

  /** A handler that had a partner and has ended offered its partner's queue exactly one closing notice,
      unless 256 frames waited there; then none. */
  lemma {:induction false} NoticeExactly(max: int, evs: seq<Event>, h: nat)
    requires At(Run(max, evs).c, h, Gone) && Run(max, evs).c.handlers[h].partner.Some?
    ensures h < |Run(max, evs).flows|
    ensures Run(max, evs).flows[h].notices == if NoticeLost(max, evs, h) then 0 else 1
  {
    var before, ev := evs[..|evs| - 1], evs[|evs| - 1];
    RunGood(max, before);
    RunGood(max, evs);
    var s := Run(max, before);
    if h < |s.flows| {
      if s.c.handlers[h].phase.Gone? {
        GoneStays(s, ev, h);
        NoticeExactly(max, before, h);
      } else {
        EndsWithNotice(s, ev, h);
        NotifyStep(s, h);
        NoticeNotYet(max, before, h);
      }
    } else {
      NewcomerArrives(s, ev, h);
    }
  }

  /** The frames written to a connection are the ones that same connection sent: nothing a partner sends
      ever reaches the other side, not even the closing notice. */
  lemma OnlyEchoes(max: int, evs: seq<Event>, h: nat)
    requires h < |Run(max, evs).flows|
    ensures var f := Run(max, evs).flows[h];
            forall i | 0 <= i < |f.written| ::
              f.written[i].source == h
              && (f.written[i].Data? ==> f.written[i].number < |f.heard|
                                         && f.heard[f.written[i].number] == Payload(f.written[i].body))
  {
    RunGood(max, evs);
    var s := Run(max, evs);
    var f := s.flows[h];
    assert FlowOk(s, h);
    forall i | 0 <= i < |f.written|
      ensures f.written[i].source == h
      ensures f.written[i].Data? ==> f.written[i].number < |f.heard|
                                     && f.heard[f.written[i].number] == Payload(f.written[i].body)
    {
      assert s.c.handlers[h].partner.Some?;
      assert f.written[i] == f.taken[i] == f.accepted[i];
    }
  }
}
