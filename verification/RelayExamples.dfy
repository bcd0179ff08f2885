/**
 Three runs of the relay that its comments would rule out: a frame that comes back to its sender, two
 waiting peers with the same token that cannot meet, and a session that no handler will ever remove.
 */
module RelayExamples {
  import opened Wrappers
  import opened Sessions
  import opened RelayControl
  import opened RelayProtocol
  import opened Runs

  const TOKEN := "session1"

  /** The events of handler h from its connection until it waits. */
  function Joining(h: nat, role: Role, token: string): seq<Event> {
    [OnConnect(role, token), OnEnter(h), OnRegister(h), OnAnnounce(h)]
  }

  function JoinedAlone(s: State, role: Role, token: string): State {
    var h, e := |s.c.handlers|, |s.c.entries|;
    State(Control(s.c.max, s.c.sessions[token := e],
                  s.c.entries + [WithSlot(Entry(token, None, None, []), Peer(h, role))],
                  s.c.creators + [h], s.c.sends + [0],
                  s.c.handlers + [Handler(role, token, Waiting, Some(e), true, false, [], None)]),
          s.queues + [[]], s.flows + [NO_FLOW])
  }

  function EnteredAlone(s: State, role: Role, token: string): State {
    var h, e := |s.c.handlers|, |s.c.entries|;
    State(Control(s.c.max, s.c.sessions[token := e], s.c.entries + [Entry(token, None, None, [])],
                  s.c.creators + [h], s.c.sends + [0],
                  s.c.handlers + [Handler(role, token, Holding, Some(e), false, false, [], None)]),
          s.queues + [[]], s.flows + [NO_FLOW])
  }

  lemma EnteringAlone(s: State, role: Role, token: string)
    requires s.c.max <= 0 && token !in s.c.sessions
    ensures Next(Next(s, OnConnect(role, token)), OnEnter(|s.c.handlers|)) == EnteredAlone(s, role, token)
  {
    var s2 := Next(Next(s, OnConnect(role, token)), OnEnter(|s.c.handlers|));
    assert s2.c.handlers == EnteredAlone(s, role, token).c.handlers;
  }

  lemma RegisteringAlone(s: State, role: Role, token: string)
    requires |s.c.creators| == |s.c.sends| == |s.c.entries| && LongEnough(token)
    ensures Next(Next(EnteredAlone(s, role, token), OnRegister(|s.c.handlers|)), OnAnnounce(|s.c.handlers|)) ==
            JoinedAlone(s, role, token)
  {
    var s2, h := EnteredAlone(s, role, token), |s.c.handlers|;
    var s3 := Next(s2, OnRegister(h));
    assert s3.c.entries == JoinedAlone(s, role, token).c.entries;
    var s4 := s3.(c := Announce(s3.c, h));
    assert Next(s3, OnAnnounce(h)) == s4;
    assert s4.c.handlers == JoinedAlone(s, role, token).c.handlers;
  }

  /** A handler that joins under a token nobody holds waits alone in a new entry. */
  lemma JoiningAlone(s: State, role: Role, token: string)
    requires |s.c.creators| == |s.c.sends| == |s.c.entries| && s.c.max <= 0
    requires token !in s.c.sessions && LongEnough(token)
    ensures Fold(Next, s, Joining(|s.c.handlers|, role, token)) == JoinedAlone(s, role, token)
  {
    var h := |s.c.handlers|;
    Fold4(Next, s, OnConnect(role, token), OnEnter(h), OnRegister(h), OnAnnounce(h));
    EnteringAlone(s, role, token);
    RegisteringAlone(s, role, token);
  }

  function JoinedPartner(s: State, role: Role, token: string, q: Peer): State
    requires token in s.c.sessions && s.c.sessions[token] < |s.c.entries| == |s.c.sends|
  {
    var h, e := |s.c.handlers|, s.c.sessions[token];
    State(s.c.(entries := s.c.entries[e := WithSlot(s.c.entries[e], Peer(h, role)).(pairCh := [Peer(h, role)])],
               sends := s.c.sends[e := s.c.sends[e] + 1],
               handlers := s.c.handlers + [Handler(role, token, Waiting, Some(e), true, true, [q], None)]),
          s.queues + [[]], s.flows + [NO_FLOW])
  }

  /** A handler that joins the free side of an entry finds its partner on its own channel. */
  lemma JoiningPartner(s: State, role: Role, token: string, q: Peer)
    requires |s.c.creators| == |s.c.sends| == |s.c.entries|
    requires token in s.c.sessions && s.c.sessions[token] < |s.c.entries| && LongEnough(token)
    requires var e := s.c.entries[s.c.sessions[token]];
             Slot(e, role).None? && Slot(e, Opposite(role)) == Some(q) && e.pairCh == []
    ensures Fold(Next, s, Joining(|s.c.handlers|, role, token)) == JoinedPartner(s, role, token, q)
  {
    var h := |s.c.handlers|;
    Fold4(Next, s, OnConnect(role, token), OnEnter(h), OnRegister(h), OnAnnounce(h));
    EnteringExisting(s, role, token);
    RegisteringPartner(s, role, token, q);
  }

  lemma RegisteringPartner(s: State, role: Role, token: string, q: Peer)
    requires |s.c.creators| == |s.c.sends| == |s.c.entries|
    requires token in s.c.sessions && s.c.sessions[token] < |s.c.entries| && LongEnough(token)
    requires var e := s.c.entries[s.c.sessions[token]];
             Slot(e, role).None? && Slot(e, Opposite(role)) == Some(q) && e.pairCh == []
    ensures Next(Next(EnteredExisting(s, role, token), OnRegister(|s.c.handlers|)), OnAnnounce(|s.c.handlers|)) ==
            JoinedPartner(s, role, token, q)
  {
    var s2, h := EnteredExisting(s, role, token), |s.c.handlers|;
    RegisterPartner(s2, h, q);
    var s3 := Next(s2, OnRegister(h));
    var s4 := s3.(c := Announce(s3.c, h));
    assert Next(s3, OnAnnounce(h)) == s4;
    assert s4.c.handlers == JoinedPartner(s, role, token, q).c.handlers;
  }

  function EnteredExisting(s: State, role: Role, token: string): State
    requires token in s.c.sessions
  {
    var x := Handler(role, token, Holding, Some(s.c.sessions[token]), false, false, [], None);
    State(s.c.(handlers := s.c.handlers + [x]),
          s.queues + [[]], s.flows + [NO_FLOW])
  }

  lemma EnteringExisting(s: State, role: Role, token: string)
    requires token in s.c.sessions
    ensures Next(Next(s, OnConnect(role, token)), OnEnter(|s.c.handlers|)) == EnteredExisting(s, role, token)
  {
    var s2 := Next(Next(s, OnConnect(role, token)), OnEnter(|s.c.handlers|));
    assert s2.c.handlers == EnteredExisting(s, role, token).c.handlers;
  }

  lemma RegisterPartner(s: State, h: nat, q: Peer)
    requires At(s.c, h, Holding) && HasEntry(s.c, h) && EntryOf(s.c, h).pairCh == []
    requires Slot(EntryOf(s.c, h), s.c.handlers[h].role).None?
    requires Slot(EntryOf(s.c, h), Opposite(s.c.handlers[h].role)) == Some(q)
    ensures var x, e := s.c.handlers[h], s.c.handlers[h].entry.value;
            var p := Peer(h, x.role);
            Next(s, OnRegister(h)) ==
            var y := x.(phase := Announcing, joined := true, second := true, inbox := [q]);
            s.(c := s.c.(handlers := s.c.handlers[h := y],
                         entries := s.c.entries[e := WithSlot(s.c.entries[e], p).(pairCh := [p])],
                         sends := s.c.sends[e := s.c.sends[e] + 1]))
  {
    var x, e := s.c.handlers[h], s.c.handlers[h].entry.value;
    assert RegisterOutcome(s.c.entries[e], Peer(h, x.role)) == Second(q);
    assert [] + [Peer(h, x.role)] == [Peer(h, x.role)];
  }

  // ---- Both runs begin with a pairing ----

  function PairUp(): seq<Event> {
    Joining(0, Viewer, TOKEN) + Joining(1, Agent, TOKEN) + [OnReceive(0), OnReceive(1)]
  }

  /** Handlers 0 and 1, a viewer and an agent, paired in entry 0. */
  function PairedState(): State {
    State(Control(0, map[TOKEN := 0],
                  [Entry(TOKEN, Some(Peer(0, Viewer)), Some(Peer(1, Agent)), [])], [0], [1],
                  [Handler(Viewer, TOKEN, Paired, Some(0), true, false, [], Some(Peer(1, Agent))),
                   Handler(Agent, TOKEN, Paired, Some(0), true, true, [], Some(Peer(0, Viewer)))]),
          [[], []], [NO_FLOW.(pump := true), NO_FLOW.(pump := true)])
  }

  lemma BothJoined()
    ensures var s := JoinedAlone(Init(0), Viewer, TOKEN);
            Fold(Next, Init(0), Joining(0, Viewer, TOKEN) + Joining(1, Agent, TOKEN)) ==
            JoinedPartner(s, Agent, TOKEN, Peer(0, Viewer))
  {
    var s := JoinedAlone(Init(0), Viewer, TOKEN);
    JoiningAlone(Init(0), Viewer, TOKEN);
    JoiningPartner(s, Agent, TOKEN, Peer(0, Viewer));
    FoldConcat(Next, Init(0), Joining(0, Viewer, TOKEN), Joining(1, Agent, TOKEN));
  }

  /** Handler 0 has received the agent; handler 1 is about to receive the viewer. */
  function HalfPaired(): State {
    var s := PairedState();
    var x := Handler(Agent, TOKEN, Waiting, Some(0), true, true, [Peer(0, Viewer)], None);
    s.(c := s.c.(handlers := [s.c.handlers[0], x]),
       flows := [NO_FLOW.(pump := true), NO_FLOW])
  }

  lemma FirstReceives()
    ensures var s := JoinedPartner(JoinedAlone(Init(0), Viewer, TOKEN), Agent, TOKEN, Peer(0, Viewer));
            Next(s, OnReceive(0)) == HalfPaired()
  {
    var s := JoinedPartner(JoinedAlone(Init(0), Viewer, TOKEN), Agent, TOKEN, Peer(0, Viewer));
    assert s.c.entries[0] == Entry(TOKEN, Some(Peer(0, Viewer)), Some(Peer(1, Agent)), [Peer(1, Agent)]);
    var t := Next(s, OnReceive(0));
    assert [Peer(1, Agent)][1..] == [];
    assert t.c.entries == HalfPaired().c.entries;
    assert t.c.handlers == HalfPaired().c.handlers;
    assert t.flows == HalfPaired().flows;
  }

  lemma SecondReceives()
    ensures Next(HalfPaired(), OnReceive(1)) == PairedState()
  {
    var t := Next(HalfPaired(), OnReceive(1));
    assert [Peer(0, Viewer)][1..] == [];
    assert t.c.handlers == PairedState().c.handlers;
    assert t.flows == PairedState().flows;
  }

  lemma BothReceived()
    ensures Run(0, PairUp()) == PairedState()
  {
    BothJoined();
    FirstReceives();
    SecondReceives();
    var first := Joining(0, Viewer, TOKEN) + Joining(1, Agent, TOKEN);
    FoldConcat(Next, Init(0), first, [OnReceive(0), OnReceive(1)]);
    Fold2(Next, Run(0, first), OnReceive(0), OnReceive(1));
  }

  lemma EchoSteps(body: seq<bv8>)
    ensures var s := Next(Next(Next(PairedState(), OnRead(1, Payload(body))), OnPump(0, true)), OnPump(1, true));
            |s.flows| == 2 && s.flows[1].written == [Data(1, 0, body)] && s.flows[0].written == []
  {
    var s0, frame := PairedState(), Data(1, 0, body);
    var s1 := Next(s0, OnRead(1, Payload(body)));
    assert [] + [frame] == [frame];
    assert Hear(s0.flows[1], [], 1, Payload(body)) == (s1.flows[1], [frame]);
    assert s1 == Move(s0, 1, Hear(s0.flows[1], [], 1, Payload(body)));
    assert s1.queues[0] == [frame] && s1.queues[1] == [] && s1.flows[0] == s0.flows[0];
    var s2 := Next(s1, OnPump(0, true));
    assert s2 == s1;
    assert PumpOnce(s2.flows[1], [frame], true).0.written == [frame];
  }

  /** The agent sends one frame. The viewer's pump finds nothing to forward; the agent's own pump writes
      the frame back to the agent. */
  lemma FrameComesBack(body: seq<bv8>)
    ensures var s := Run(0, PairUp() + ([OnRead(1, Payload(body)), OnPump(0, true)] + [OnPump(1, true)]));
            |s.flows| == 2 && s.flows[1].written == [Data(1, 0, body)] && s.flows[0].written == []
  {
    BothReceived();
    EchoSteps(body);
    var two := [OnRead(1, Payload(body)), OnPump(0, true)];
    FoldConcat(Next, Init(0), PairUp(), two + [OnPump(1, true)]);
    FoldSnoc(Next, PairedState(), two, OnPump(1, true));
    Fold2(Next, PairedState(), two[0], two[1]);
  }

  // ---- A late exit evicts a newer session ----

  function ViewerReturns(): seq<Event> {
    PairUp() + [OnHangUp(0), OnRemove(0)] + Joining(2, Viewer, TOKEN)
  }

  function AgentReturns(): seq<Event> {
    ViewerReturns() + [OnHangUp(1), OnRemove(1)] + Joining(3, Agent, TOKEN)
  }

  /** A handler that leaves takes whatever its token names out of the store. */
  lemma LeaveSteps(s: State, h: nat)
    requires At(s.c, h, Paired)
    ensures var x := s.c.handlers[h];
            Fold(Next, s, [OnHangUp(h), OnRemove(h)]) ==
            s.(c := s.c.(handlers := s.c.handlers[h := x.(phase := if x.partner.Some? then Notifying else Gone)],
                         sessions := Removed(s.c.sessions, x.token)))
  {
    Fold2(Next, s, OnHangUp(h), OnRemove(h));
    var t, x := s.(c := HangUp(s.c, h)), s.c.handlers[h];
    assert Next(s, OnHangUp(h)) == t;
    assert Next(t, OnRemove(h)) == t.(c := Remove(t.c, h));
    PutTwice(s.c, h, x.(phase := Leaving), x.(phase := if x.partner.Some? then Notifying else Gone));
  }

  lemma PutTwice(c: Control, h: nat, x: Handler, y: Handler)
    requires h < |c.handlers|
    ensures Put(Put(c, h, x), h, y) == Put(c, h, y)
  {
    assert c.handlers[h := x][h := y] == c.handlers[h := y];
  }

  lemma ViewerWaitsAgain()
    ensures var s := Run(0, ViewerReturns());
            && |s.c.creators| == |s.c.sends| == |s.c.entries| == 2 && s.c.max == 0 && |s.c.handlers| == 3
            && s.c.sessions == map[TOKEN := 1]
            && s.c.handlers[1] == PairedState().c.handlers[1]
            && s.c.handlers[2] == Handler(Viewer, TOKEN, Waiting, Some(1), true, false, [], None)
            && s.c.entries[1] == Entry(TOKEN, Some(Peer(2, Viewer)), None, [])
  {
    BothReceived();
    FoldConcat(Next, Init(0), PairUp(), [OnHangUp(0), OnRemove(0)]);
    LeaveSteps(PairedState(), 0);
    var s := Run(0, PairUp() + [OnHangUp(0), OnRemove(0)]);
    assert s.c.sessions == map[];
    FoldConcat(Next, Init(0), PairUp() + [OnHangUp(0), OnRemove(0)], Joining(2, Viewer, TOKEN));
    JoiningAlone(s, Viewer, TOKEN);
  }

  /** The first agent leaves after the viewer has come back under the same token: its removal takes the
      viewer's new entry out of the store, so a second agent with that token waits in yet another entry. */
  lemma LateExitSeparatesPeers()
    ensures var c := Run(0, AgentReturns()).c;
            && At(c, 2, Waiting) && At(c, 3, Waiting) && HasEntry(c, 2) && HasEntry(c, 3)
            && c.handlers[2].token == c.handlers[3].token && c.handlers[2].role == Opposite(c.handlers[3].role)
            && c.handlers[2].entry != c.handlers[3].entry && PartnerCh(c, 2) == PartnerCh(c, 3) == []
  {
    ViewerWaitsAgain();
    var s := Run(0, ViewerReturns());
    FoldConcat(Next, Init(0), ViewerReturns(), [OnHangUp(1), OnRemove(1)]);
    LeaveSteps(s, 1);
    var t := Run(0, ViewerReturns() + [OnHangUp(1), OnRemove(1)]);
    assert t.c.sessions == map[];
    FoldConcat(Next, Init(0), ViewerReturns() + [OnHangUp(1), OnRemove(1)], Joining(3, Agent, TOKEN));
    JoiningAlone(t, Agent, TOKEN);
    var c := Run(0, AgentReturns()).c;
    assert c == JoinedAlone(t, Agent, TOKEN).c;
    assert c.handlers[2] == s.c.handlers[2] && c.entries[1] == s.c.entries[1];
  }

  // ---- A short token leaks its session ----

  /** A viewer with a token of three characters: its handler panics at the log line, no handler runs, and
      the session is still there. */
  lemma ShortTokenLeaks()
    ensures var c := Run(0, Joining(0, Viewer, "abc")).c;
            "abc" in c.sessions && RunningHandlers(c) == {} && CrashedHandlers(c) == {0}
  {
    Fold4(Next, Init(0), OnConnect(Viewer, "abc"), OnEnter(0), OnRegister(0), OnAnnounce(0));
    EnteringAlone(Init(0), Viewer, "abc");
    var s2 := EnteredAlone(Init(0), Viewer, "abc");
    var s3 := Next(s2, OnRegister(0));
    assert s3.c.handlers == [Handler(Viewer, "abc", Announcing, Some(0), true, false, [], None)];
    var s4 := s3.(c := Announce(s3.c, 0));
    assert Next(s3, OnAnnounce(0)) == s4;
    assert s4.c.handlers == [Handler(Viewer, "abc", Crashed, Some(0), true, false, [], None)];
  }
}
