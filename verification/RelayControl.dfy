/**
 The relay's pairing protocol under arbitrary interleavings (server/session.go, server/relay.go).

 Any number of handler goroutines run handleRelay at once. A step is one critical section, one
 channel operation or one exit of one handler; a step that is not enabled changes nothing, so a run
 is any sequence of steps whatever. RelayProtocol adds the frames that the pumps move.
 */
module RelayControl {
  import opened Wrappers
  import opened Sessions

  /** Where a handler stands: `Holding` between getOrCreate and register, `Announcing` before the log
      line that prints the first eight bytes of the token, `Leaving` before it removes its token,
      `Notifying` before the notice to its partner, `Crashed` after that log line panicked. */
  datatype Phase = Arriving | Holding | Announcing | Waiting | Paired | Leaving | Notifying | Gone | Crashed

  /** `inbox` is the private channel of a handler that registered second. */
  datatype Handler = Handler(role: Role, token: string, phase: Phase, entry: Option<nat>,
                             joined: bool, second: bool, inbox: seq<Peer>, partner: Option<Peer>)

  /** `creators` and `sends` are history: who created each entry, and how often its channel was sent to. */
  datatype Control = Control(max: int, sessions: map<string, nat>, entries: seq<Entry>,
                             creators: seq<nat>, sends: seq<nat>, handlers: seq<Handler>)

  const LOGGED_PREFIX := 8

  predicate LongEnough(token: string) {
    |token| >= LOGGED_PREFIX
  }

  // ---- Steps ----

  function Arrive(c: Control, role: Role, token: string): Control {
    c.(handlers := c.handlers + [Handler(role, token, Arriving, None, false, false, [], None)])
  }

  predicate At(c: Control, h: nat, phase: Phase) {
    h < |c.handlers| && c.handlers[h].phase == phase
  }

  function Put(c: Control, h: nat, x: Handler): Control
    requires h < |c.handlers|
  {
    c.(handlers := c.handlers[h := x])
  }

  function Enter(c: Control, h: nat): Control
    requires At(c, h, Arriving)
  {
    var x := c.handlers[h];
    match LookupOutcome(c.sessions, c.max, x.token, |c.entries|)
    case Existing(e) => Put(c, h, x.(phase := Holding, entry := Some(e)))
    case Full => Put(c, h, x.(phase := Gone))
    case Created(e) =>
      Put(c, h, x.(phase := Holding, entry := Some(e)))
      .(sessions := Inserted(c.sessions, c.max, x.token, |c.entries|),
        entries := c.entries + [Entry(x.token, None, None, [])],
        creators := c.creators + [h], sends := c.sends + [0])
  }

  predicate HasEntry(c: Control, h: nat) {
    && h < |c.handlers| && c.handlers[h].entry.Some?
    && c.handlers[h].entry.value < |c.entries| && |c.sends| == |c.entries|
  }

  function EntryOf(c: Control, h: nat): Entry
    requires HasEntry(c, h)
  {
    c.entries[c.handlers[h].entry.value]
  }

  function Join(c: Control, h: nat): Control
    requires At(c, h, Holding) && HasEntry(c, h)
  {
    var x, e := c.handlers[h], c.handlers[h].entry.value;
    var p := Peer(h, x.role);
    var after := c.(entries := c.entries[e := Registered(c.entries[e], p)]);
    match RegisterOutcome(c.entries[e], p)
    case Taken => Put(c, h, x.(phase := Gone))
    case First => Put(after, h, x.(phase := Announcing, joined := true))
    case Second(q) =>
      Put(after, h, x.(phase := Announcing, joined := true, second := true, inbox := [q]))
      .(sends := c.sends[e := c.sends[e] + 1])
    case Blocked => c
  }

  function Announce(c: Control, h: nat): Control
    requires At(c, h, Announcing)
  {
    var x := c.handlers[h];
    Put(c, h, x.(phase := if LongEnough(x.token) then Waiting else Crashed))
  }

  /** The channel a waiting handler selects on. */
  function PartnerCh(c: Control, h: nat): seq<Peer>
    requires HasEntry(c, h)
  {
    if c.handlers[h].second then c.handlers[h].inbox else EntryOf(c, h).pairCh
  }

  function Receive(c: Control, h: nat): Control
    requires At(c, h, Waiting) && HasEntry(c, h) && PartnerCh(c, h) != []
  {
    var x, e, ch := c.handlers[h], c.handlers[h].entry.value, PartnerCh(c, h);
    var y := x.(phase := Paired, partner := Some(ch[0]));
    if x.second then Put(c, h, y.(inbox := ch[1..]))
    else Put(c, h, y).(entries := c.entries[e := c.entries[e].(pairCh := ch[1..])])
  }

  /** The wait ends without a partner: timeout or cancelled request. */
  function GiveUp(c: Control, h: nat): Control
    requires At(c, h, Waiting)
  {
    Put(c, h, c.handlers[h].(phase := Leaving))
  }

  /** The read loop of a paired handler ends. */
  function HangUp(c: Control, h: nat): Control
    requires At(c, h, Paired)
  {
    Put(c, h, c.handlers[h].(phase := Leaving))
  }

  function Remove(c: Control, h: nat): Control
    requires At(c, h, Leaving)
  {
    var x := c.handlers[h];
    Put(c, h, x.(phase := if x.partner.Some? then Notifying else Gone))
    .(sessions := Removed(c.sessions, x.token))
  }

  function Finish(c: Control, h: nat): Control
    requires At(c, h, Notifying)
  {
    Put(c, h, c.handlers[h].(phase := Gone))
  }

  // ---- Invariants ----

  /** What a registered handler knows of its partner, and where the partner still waits to be read. */
  ghost predicate PairingOk(c: Control, h: nat)
    requires HasEntry(c, h)
  {
    var x, e := c.handlers[h], EntryOf(c, h);
    var other := Slot(e, Opposite(x.role));
    if x.second then
      && other.Some? && other.value.id < |c.handlers| && !c.handlers[other.value.id].second
      && ((x.inbox == [other.value] && x.partner.None?) || (x.inbox == [] && x.partner == other))
    else
      && x.inbox == []
      && match other
         case None => x.partner.None? && e.pairCh == []
         case Some(q) =>
           && q.id < |c.handlers| && c.handlers[q.id].second
           && ((e.pairCh == [q] && x.partner.None?) || (e.pairCh == [] && x.partner == other))
  }

  ghost predicate HandlerOk(c: Control, h: nat)
    requires h < |c.handlers| && |c.sends| == |c.entries|
  {
    var x := c.handlers[h];
    && (x.entry.Some? ==> HasEntry(c, h) && EntryOf(c, h).token == x.token)
    && (x.phase.Arriving? ==> x.entry.None?)
    && (x.phase.Holding? || x.joined ==> x.entry.Some?)
    && (x.phase.Arriving? || x.phase.Holding? ==> !x.joined)
    && (!x.phase.Arriving? && !x.phase.Holding? && !x.phase.Gone? ==> x.joined)
    && (x.joined && !x.phase.Announcing? ==> (LongEnough(x.token) <==> !x.phase.Crashed?))
    && (x.phase.Paired? || x.phase.Notifying? ==> x.partner.Some?)
    && (x.phase.Announcing? || x.phase.Waiting? || x.phase.Crashed? ==> x.partner.None?)
    && (!x.joined ==> !x.second && x.inbox == [] && x.partner.None?)
    && (x.joined ==> Slot(EntryOf(c, h), x.role) == Some(Peer(h, x.role)) && PairingOk(c, h))
  }

  predicate BothHere(e: Entry) {
    e.viewer.Some? && e.agent.Some?
  }

  ghost predicate SlotOk(c: Control, e: nat, role: Role)
    requires e < |c.entries|
  {
    match Slot(c.entries[e], role)
    case None => true
    case Some(p) =>
      && p.role == role && p.id < |c.handlers| && c.handlers[p.id].joined
      && c.handlers[p.id].role == role && c.handlers[p.id].entry == Some(e)
  }

  ghost predicate EntryOk(c: Control, e: nat)
    requires e < |c.entries| && |c.sends| == |c.creators| == |c.entries|
  {
    && SlotOk(c, e, Viewer) && SlotOk(c, e, Agent)
    && c.creators[e] < |c.handlers| && c.handlers[c.creators[e]].token == c.entries[e].token
    && c.sends[e] == (if BothHere(c.entries[e]) then 1 else 0)
    && |c.entries[e].pairCh| <= c.sends[e]
    && (!LongEnough(c.entries[e].token) ==>
          c.entries[e].token in c.sessions && c.sessions[c.entries[e].token] == e)
  }

  /** The peer in a slot, if any, has not yet removed its token. */
  ghost predicate SlotLive(c: Control, e: nat, role: Role)
    requires e < |c.entries|
  {
    match Slot(c.entries[e], role)
    case None => true
    case Some(p) => p.id < |c.handlers| && !c.handlers[p.id].phase.Notifying? && !c.handlers[p.id].phase.Gone?
  }

  ghost predicate NobodyHere(c: Control, e: nat)
    requires e < |c.entries|
  {
    c.entries[e].viewer.None? && c.entries[e].agent.None?
  }

  ghost predicate TokenOk(c: Control, token: string)
    requires token in c.sessions && |c.creators| == |c.entries|
  {
    var e := c.sessions[token];
    && e < |c.entries| && c.entries[e].token == token
    && SlotLive(c, e, Viewer) && SlotLive(c, e, Agent)
    && (NobodyHere(c, e) ==> At(c, c.creators[e], Holding) && c.handlers[c.creators[e]].entry == Some(e))
  }

  ghost predicate Inv(c: Control) {
    && |c.sends| == |c.creators| == |c.entries|
    && (forall h: nat | h < |c.handlers| :: HandlerOk(c, h))
    && (forall e: nat | e < |c.entries| :: EntryOk(c, e))
    && (forall token | token in c.sessions :: TokenOk(c, token))
    && (c.max > 0 ==> |c.sessions| <= c.max)
  }

  lemma ArriveKeeps(c: Control, role: Role, token: string)
    requires Inv(c)
    ensures Inv(Arrive(c, role, token))
  {
    var d := Arrive(c, role, token);
    forall h: nat | h < |d.handlers| ensures HandlerOk(d, h) {
      if h < |c.handlers| { assert HandlerOk(c, h); }
    }
    forall e: nat | e < |d.entries| ensures EntryOk(d, e) { assert EntryOk(c, e); }
    forall t | t in d.sessions ensures TokenOk(d, t) { assert TokenOk(c, t); }
  }

  /** Replacing one handler by another that keeps its name, its registration and its channels. */
  ghost predicate SameRegistration(x: Handler, y: Handler) {
    && y.role == x.role && y.token == x.token && y.joined == x.joined && y.second == x.second
    && y.inbox == x.inbox && (x.joined ==> y.entry == x.entry)
  }

  ghost predicate PutEnabled(c: Control, h: nat, y: Handler) {
    Inv(c) && h < |c.handlers| && SameRegistration(c.handlers[h], y)
  }

  lemma PutKeepsHandlers(c: Control, h: nat, y: Handler)
    requires PutEnabled(c, h, y)
    ensures forall k: nat | k < |c.handlers| && k != h :: HandlerOk(Put(c, h, y), k)
  {
    forall k: nat | k < |c.handlers| && k != h ensures HandlerOk(Put(c, h, y), k) {
      assert HandlerOk(c, k);
    }
  }

  lemma PutKeepsEntries(c: Control, h: nat, y: Handler)
    requires PutEnabled(c, h, y)
    ensures forall e: nat | e < |c.entries| :: EntryOk(Put(c, h, y), e)
  {
    forall e: nat | e < |c.entries| ensures EntryOk(Put(c, h, y), e) {
      assert EntryOk(c, e);
    }
  }

  /** Neither the creator of an entry before it registers, nor a handler that turns into one past its
      removal. */
  predicate StaysOrLeft(x: Handler, y: Handler) {
    !x.phase.Holding? && (y.phase.Notifying? || y.phase.Gone? ==> x.phase.Notifying? || x.phase.Gone?)
  }

  lemma PutKeepsToken(c: Control, h: nat, y: Handler, t: string)
    requires PutEnabled(c, h, y) && StaysOrLeft(c.handlers[h], y) && t in c.sessions
    ensures TokenOk(Put(c, h, y), t)
  {
    assert TokenOk(c, t);
  }

  lemma PutKeeps(c: Control, h: nat, y: Handler)
    requires PutEnabled(c, h, y) && StaysOrLeft(c.handlers[h], y) && HandlerOk(Put(c, h, y), h)
    ensures Inv(Put(c, h, y))
  {
    var d := Put(c, h, y);
    PutKeepsHandlers(c, h, y);
    PutKeepsEntries(c, h, y);
    forall t | t in d.sessions ensures TokenOk(d, t) { PutKeepsToken(c, h, y, t); }
  }

  lemma EnterKeeps(c: Control, h: nat)
    requires Inv(c) && At(c, h, Arriving)
    ensures Inv(Enter(c, h))
  {
    var x := c.handlers[h];
    assert HandlerOk(c, h);
    match LookupOutcome(c.sessions, c.max, x.token, |c.entries|)
    case Existing(e) =>
      assert TokenOk(c, x.token);
      PutKeepsHandlers(c, h, x.(phase := Holding, entry := Some(e)));
      PutKeepsEntries(c, h, x.(phase := Holding, entry := Some(e)));
      EnterKeepsTokens(c, h);
    case Full =>
      PutKeepsHandlers(c, h, x.(phase := Gone));
      PutKeepsEntries(c, h, x.(phase := Gone));
      EnterKeepsTokens(c, h);
    case Created(e) =>
      CreateKeeps(c, h);
  }

  lemma EnterKeepsTokens(c: Control, h: nat)
    requires Inv(c) && At(c, h, Arriving)
    requires !LookupOutcome(c.sessions, c.max, c.handlers[h].token, |c.entries|).Created?
    ensures forall t | t in c.sessions :: TokenOk(Enter(c, h), t)
  {
    forall t | t in c.sessions ensures TokenOk(Enter(c, h), t) { EnterKeepsToken(c, h, t); }
  }

  lemma EnterKeepsToken(c: Control, h: nat, t: string)
    requires Inv(c) && At(c, h, Arriving) && t in c.sessions
    requires !LookupOutcome(c.sessions, c.max, c.handlers[h].token, |c.entries|).Created?
    ensures TokenOk(Enter(c, h), t)
  {
    var d, e := Enter(c, h), c.sessions[t];
    assert HandlerOk(c, h) && TokenOk(c, t) && EntryOk(c, e);
    SlotUntouched(c, d, h, e, Viewer);
    SlotUntouched(c, d, h, e, Agent);
  }

  /** A handler that has not registered occupies no slot. */
  lemma SlotUntouched(c: Control, d: Control, h: nat, e: nat, role: Role)
    requires e < |c.entries| && e < |d.entries| && Slot(d.entries[e], role) == Slot(c.entries[e], role)
    requires SlotOk(c, e, role) && SlotLive(c, e, role)
    requires h < |c.handlers| == |d.handlers| && !c.handlers[h].joined
    requires forall k: nat | k < |c.handlers| && k != h :: d.handlers[k] == c.handlers[k]
    ensures SlotLive(d, e, role)
  {
  }

  ghost predicate CreateEnabled(c: Control, h: nat) {
    && Inv(c) && At(c, h, Arriving)
    && LookupOutcome(c.sessions, c.max, c.handlers[h].token, |c.entries|).Created?
  }

  lemma CreateKeepsHandler(c: Control, h: nat, k: nat)
    requires CreateEnabled(c, h) && k < |c.handlers|
    ensures HandlerOk(Enter(c, h), k)
  {
    var d := Enter(c, h);
    assert HandlerOk(c, k) && HandlerOk(c, h);
    if k != h {
      assert d.handlers[k] == c.handlers[k];
      if c.handlers[k].entry.Some? {
        assert EntryOf(d, k) == EntryOf(c, k);
      }
    }
  }

  lemma CreateKeepsEntries(c: Control, h: nat)
    requires CreateEnabled(c, h)
    ensures forall e: nat | e <= |c.entries| :: EntryOk(Enter(c, h), e)
  {
    forall e: nat | e <= |c.entries| ensures EntryOk(Enter(c, h), e) {
      assert HandlerOk(c, h);
      if e < |c.entries| {
        assert EntryOk(c, e);
        assert Enter(c, h).entries[e] == c.entries[e];
      }
    }
  }

  lemma CreateKeepsToken(c: Control, h: nat, t: string)
    requires CreateEnabled(c, h) && t in Enter(c, h).sessions
    ensures TokenOk(Enter(c, h), t)
  {
    var d := Enter(c, h);
    assert HandlerOk(c, h);
    if t != c.handlers[h].token {
      var e := c.sessions[t];
      assert TokenOk(c, t) && EntryOk(c, e);
      assert d.entries[e] == c.entries[e] && d.creators[e] == c.creators[e];
      SlotUntouched(c, d, h, e, Viewer);
      SlotUntouched(c, d, h, e, Agent);
    }
  }

  lemma CreateKeeps(c: Control, h: nat)
    requires CreateEnabled(c, h)
    ensures Inv(Enter(c, h))
  {
    var d := Enter(c, h);
    forall k: nat | k < |d.handlers| ensures HandlerOk(d, k) { CreateKeepsHandler(c, h, k); }
    CreateKeepsEntries(c, h);
    forall t | t in d.sessions ensures TokenOk(d, t) { CreateKeepsToken(c, h, t); }
  }

  // ---- Registration ----

  /** A first registration finds the channel empty, so the send under the lock never blocks. */
  lemma NeverBlocked(c: Control, h: nat)
    requires Inv(c) && At(c, h, Holding)
    ensures HasEntry(c, h) && !RegisterOutcome(EntryOf(c, h), Peer(h, c.handlers[h].role)).Blocked?
  {
    assert HandlerOk(c, h);
    var e := c.handlers[h].entry.value;
    assert EntryOk(c, e);
  }

  /** A registration that is not refused. */
  ghost predicate JoinEnabled(c: Control, h: nat) {
    && Inv(c) && At(c, h, Holding) && HasEntry(c, h)
    && Slot(EntryOf(c, h), c.handlers[h].role).None?
  }

  lemma JoinOpens(c: Control, h: nat)
    requires JoinEnabled(c, h)
    ensures var e := EntryOf(c, h);
            match Slot(e, Opposite(c.handlers[h].role))
            case None => RegisterOutcome(e, Peer(h, c.handlers[h].role)) == First && e.pairCh == []
            case Some(q) =>
              && RegisterOutcome(e, Peer(h, c.handlers[h].role)) == Second(q) && e.pairCh == []
              && q.id < |c.handlers| && q.id != h && !c.handlers[q.id].second
              && c.handlers[q.id].inbox == [] && c.handlers[q.id].partner.None? && c.handlers[q.id].joined
  {
    assert HandlerOk(c, h);
    var e := c.handlers[h].entry.value;
    assert EntryOk(c, e);
    match Slot(c.entries[e], Opposite(c.handlers[h].role))
    case None =>
    case Some(q) => assert HandlerOk(c, q.id);
  }

  lemma JoinKeepsHandler(c: Control, h: nat, k: nat)
    requires JoinEnabled(c, h) && k < |c.handlers|
    ensures HandlerOk(Join(c, h), k)
  {
    JoinOpens(c, h);
    assert HandlerOk(c, k) && HandlerOk(c, h);
    var e := c.handlers[h].entry.value;
    if c.handlers[k].joined {
      if c.handlers[k].entry.value != e {
        JoinKeepsStranger(c, h, k);
      } else {
        assert c.handlers[k].role == Opposite(c.handlers[h].role);
      }
    }
  }

  lemma JoinKeepsStranger(c: Control, h: nat, k: nat)
    requires JoinEnabled(c, h) && k < |c.handlers| && c.handlers[k].joined
    requires HandlerOk(c, k) && c.handlers[k].entry != c.handlers[h].entry
    ensures HandlerOk(Join(c, h), k)
  {
    JoinOpens(c, h);
    assert HandlerOk(c, h);
    var d := Join(c, h);
    assert k != h && d.handlers[k] == c.handlers[k] && EntryOf(d, k) == EntryOf(c, k);
    var f := c.handlers[k].entry.value;
    assert EntryOk(c, f);
  }

  lemma JoinKeepsEntries(c: Control, h: nat)
    requires JoinEnabled(c, h)
    ensures forall e: nat | e < |c.entries| :: EntryOk(Join(c, h), e)
  {
    forall e: nat | e < |c.entries| ensures EntryOk(Join(c, h), e) {
      JoinOpens(c, h);
      assert EntryOk(c, e) && HandlerOk(c, h);
    }
  }

  lemma JoinKeepsToken(c: Control, h: nat, t: string)
    requires JoinEnabled(c, h) && t in c.sessions
    ensures TokenOk(Join(c, h), t)
  {
    JoinOpens(c, h);
    if c.sessions[t] == c.handlers[h].entry.value { JoinKeepsOwnToken(c, h, t); } else { JoinKeepsOtherToken(c, h, t); }
  }

  lemma JoinKeepsOwnToken(c: Control, h: nat, t: string)
    requires JoinEnabled(c, h) && t in c.sessions && c.handlers[h].entry == Some(c.sessions[t])
    requires !RegisterOutcome(EntryOf(c, h), Peer(h, c.handlers[h].role)).Blocked?
    ensures TokenOk(Join(c, h), t)
  {
    var d, e := Join(c, h), c.sessions[t];
    assert HandlerOk(c, h) && TokenOk(c, t) && EntryOk(c, e);
    assert Slot(d.entries[e], c.handlers[h].role) == Some(Peer(h, c.handlers[h].role));
    SlotUntouched(c, d, h, e, Opposite(c.handlers[h].role));
  }

  lemma JoinKeepsOtherToken(c: Control, h: nat, t: string)
    requires JoinEnabled(c, h) && t in c.sessions && c.handlers[h].entry != Some(c.sessions[t])
    requires !RegisterOutcome(EntryOf(c, h), Peer(h, c.handlers[h].role)).Blocked?
    ensures TokenOk(Join(c, h), t)
  {
    var d, e := Join(c, h), c.sessions[t];
    assert HandlerOk(c, h) && TokenOk(c, t) && EntryOk(c, e);
    assert d.entries[e] == c.entries[e];
    SlotUntouched(c, d, h, e, Viewer);
    SlotUntouched(c, d, h, e, Agent);
  }

  /** A refused handler held an entry whose slot is taken, so nobody counted on it. */
  lemma RefusalKeepsToken(c: Control, h: nat, t: string)
    requires Inv(c) && At(c, h, Holding) && HasEntry(c, h) && t in c.sessions
    requires Slot(EntryOf(c, h), c.handlers[h].role).Some?
    ensures TokenOk(Put(c, h, c.handlers[h].(phase := Gone)), t)
  {
    var d, e := Put(c, h, c.handlers[h].(phase := Gone)), c.sessions[t];
    assert HandlerOk(c, h) && TokenOk(c, t) && EntryOk(c, e);
    SlotUntouched(c, d, h, e, Viewer);
    SlotUntouched(c, d, h, e, Agent);
  }

  lemma JoinKeeps(c: Control, h: nat)
    requires Inv(c) && At(c, h, Holding) && HasEntry(c, h)
    ensures Inv(Join(c, h))
  {
    var d, x := Join(c, h), c.handlers[h];
    assert HandlerOk(c, h);
    if JoinEnabled(c, h) {
      forall k: nat | k < |d.handlers| ensures HandlerOk(d, k) { JoinKeepsHandler(c, h, k); }
      JoinKeepsEntries(c, h);
      forall t | t in d.sessions ensures TokenOk(d, t) { JoinKeepsToken(c, h, t); }
    } else {
      assert d == Put(c, h, x.(phase := Gone));
      PutKeepsHandlers(c, h, x.(phase := Gone));
      PutKeepsEntries(c, h, x.(phase := Gone));
      forall t | t in d.sessions ensures TokenOk(d, t) { RefusalKeepsToken(c, h, t); }
    }
  }

  // ---- Waiting, pairing and leaving ----

  lemma AnnounceKeeps(c: Control, h: nat)
    requires Inv(c) && At(c, h, Announcing)
    ensures Inv(Announce(c, h))
  {
    assert HandlerOk(c, h);
    PutKeeps(c, h, Announce(c, h).handlers[h]);
  }

  lemma StopKeeps(c: Control, h: nat)
    requires Inv(c) && (At(c, h, Waiting) || At(c, h, Paired))
    ensures Inv(Put(c, h, c.handlers[h].(phase := Leaving)))
  {
    assert HandlerOk(c, h);
    PutKeeps(c, h, c.handlers[h].(phase := Leaving));
  }

  lemma FinishKeeps(c: Control, h: nat)
    requires Inv(c) && At(c, h, Notifying)
    ensures Inv(Finish(c, h))
  {
    assert HandlerOk(c, h);
    PutKeeps(c, h, c.handlers[h].(phase := Gone));
  }

  /** A token whose handler comes to its removal was long enough to be logged. */
  lemma RemoverIsLong(c: Control, h: nat)
    requires Inv(c) && At(c, h, Leaving)
    ensures LongEnough(c.handlers[h].token)
  {
    assert HandlerOk(c, h);
  }

  lemma RemoveKeepsEntry(c: Control, h: nat, e: nat)
    requires Inv(c) && At(c, h, Leaving) && e < |c.entries|
    ensures EntryOk(Remove(c, h), e)
  {
    var y := Remove(c, h).handlers[h];
    RemoverIsLong(c, h);
    PutKeepsEntries(c, h, y);
    assert EntryOk(Put(c, h, y), e);
  }

  lemma RemoveKeepsToken(c: Control, h: nat, t: string)
    requires Inv(c) && At(c, h, Leaving) && t in c.sessions && t != c.handlers[h].token
    ensures TokenOk(Remove(c, h), t)
  {
    assert HandlerOk(c, h) && TokenOk(c, t) && EntryOk(c, c.sessions[t]);
  }

  lemma RemoveKeeps(c: Control, h: nat)
    requires Inv(c) && At(c, h, Leaving)
    ensures Inv(Remove(c, h))
  {
    var d, x := Remove(c, h), c.handlers[h];
    assert HandlerOk(c, h);
    forall k: nat | k < |d.handlers| ensures HandlerOk(d, k) {
      if k == h { RemoveKeepsOwn(c, h); } else { RemoveKeepsOther(c, h, k); }
    }
    forall e: nat | e < |d.entries| ensures EntryOk(d, e) { RemoveKeepsEntry(c, h, e); }
    forall t | t in d.sessions ensures TokenOk(d, t) { RemoveKeepsToken(c, h, t); }
    RemovedSize(c.sessions, x.token);
  }

  lemma RemoveKeepsOwn(c: Control, h: nat)
    requires Inv(c) && At(c, h, Leaving)
    ensures HandlerOk(Remove(c, h), h)
  {
    assert HandlerOk(c, h);
  }

  lemma RemoveKeepsOther(c: Control, h: nat, k: nat)
    requires Inv(c) && At(c, h, Leaving) && k < |c.handlers| && k != h
    ensures HandlerOk(Remove(c, h), k)
  {
    var d := Remove(c, h);
    assert HandlerOk(c, k);
    assert d.handlers[k] == c.handlers[k] && d.entries == c.entries && d.sends == c.sends;
    assert forall j: nat | j < |c.handlers| :: d.handlers[j].second == c.handlers[j].second;
  }

  lemma RemovedSize(m: map<string, nat>, t: string)
    ensures |Removed(m, t)| <= |m|
  {
    assert Removed(m, t).Keys == m.Keys - {t};
    assert |m.Keys - {t}| <= |m.Keys|;
  }

  ghost predicate ReceiveEnabled(c: Control, h: nat) {
    Inv(c) && At(c, h, Waiting) && HasEntry(c, h) && PartnerCh(c, h) != []
  }

  lemma ReceiveKeepsOwn(c: Control, h: nat)
    requires ReceiveEnabled(c, h)
    ensures HandlerOk(Receive(c, h), h)
  {
    assert HandlerOk(c, h);
    assert EntryOk(c, c.handlers[h].entry.value);
  }

  /** Only the first handler of an entry looks at the entry's channel, and that is not k. */
  lemma ReceiveKeepsOther(c: Control, h: nat, k: nat)
    requires ReceiveEnabled(c, h) && k < |c.handlers| && k != h
    ensures HandlerOk(Receive(c, h), k)
  {
    var d := Receive(c, h);
    assert HandlerOk(c, k) && HandlerOk(c, h);
    assert d.handlers[k] == c.handlers[k] && d.sends == c.sends && |d.entries| == |c.entries|;
    assert forall j: nat | j < |c.handlers| :: d.handlers[j].second == c.handlers[j].second;
    if c.handlers[k].joined {
      var f := c.handlers[k].entry.value;
      if c.handlers[h].second || f != c.handlers[h].entry.value {
        assert d.entries[f] == c.entries[f];
      } else {
        assert EntryOk(c, f);
        assert c.handlers[k].second;
      }
    }
  }

  lemma ReceiveKeepsEntries(c: Control, h: nat)
    requires ReceiveEnabled(c, h)
    ensures forall e: nat | e < |c.entries| :: EntryOk(Receive(c, h), e)
  {
    forall e: nat | e < |c.entries| ensures EntryOk(Receive(c, h), e) {
      assert HandlerOk(c, h) && EntryOk(c, e);
    }
  }

  lemma ReceiveKeepsTokens(c: Control, h: nat)
    requires ReceiveEnabled(c, h)
    ensures forall t: string | t in c.sessions :: TokenOk(Receive(c, h), t)
  {
    forall t: string | t in c.sessions ensures TokenOk(Receive(c, h), t) {
      assert HandlerOk(c, h) && TokenOk(c, t) && EntryOk(c, c.sessions[t]);
    }
  }

  lemma ReceiveKeeps(c: Control, h: nat)
    requires ReceiveEnabled(c, h)
    ensures Inv(Receive(c, h))
  {
    var d := Receive(c, h);
    forall k: nat | k < |d.handlers| ensures HandlerOk(d, k) {
      if k == h { ReceiveKeepsOwn(c, h); } else { ReceiveKeepsOther(c, h, k); }
    }
    ReceiveKeepsEntries(c, h);
    ReceiveKeepsTokens(c, h);
  }
}
