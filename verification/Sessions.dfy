/**
 The shared state of the relay: session entries and the store that indexes them by token
 (server/session.go).

 Each critical section is a method of a class, as in the source. Beside it stands a function on
 values with the same meaning, and the method's postcondition ties the two; RelayProtocol runs
 those functions under every interleaving of the handlers.
 */
module Sessions {
  import opened Wrappers

  datatype Role = Viewer | Agent

  function Opposite(role: Role): Role {
    match role
    case Viewer => Agent
    case Agent => Viewer
  }

  /** A peer is known by the handler goroutine that created it. */
  datatype Peer = Peer(id: nat, role: Role)

  /** The contents of a session entry at one moment. */
  datatype Entry = Entry(token: string, viewer: Option<Peer>, agent: Option<Peer>, pairCh: seq<Peer>)

  function Slot(e: Entry, role: Role): Option<Peer> {
    match role
    case Viewer => e.viewer
    case Agent => e.agent
  }

  function WithSlot(e: Entry, p: Peer): Entry {
    match p.role
    case Viewer => e.(viewer := Some(p))
    case Agent => e.(agent := Some(p))
  }

  /** Result of a registration: `First` waits on the entry's own channel, `Second` on a fresh channel
      that already holds the partner, `Blocked` is a send on a full channel under the entry's lock. */
  datatype Registration = Taken | First | Second(partner: Peer) | Blocked

  const PAIR_CH_CAPACITY := 1

  function RegisterOutcome(e: Entry, p: Peer): Registration {
    if Slot(e, p.role).Some? then Taken
    else match Slot(e, Opposite(p.role))
         case None => First
         case Some(q) => if |e.pairCh| < PAIR_CH_CAPACITY then Second(q) else Blocked
  }

  function Registered(e: Entry, p: Peer): Entry {
    match RegisterOutcome(e, p)
    case Taken => e
    case First => WithSlot(e, p)
    case Second(_) => WithSlot(e, p).(pairCh := e.pairCh + [p])
    case Blocked => WithSlot(e, p)
  }

  /** What getOrCreate finds for a token. */
  datatype Lookup = Existing(id: nat) | Created(id: nat) | Full

  function LookupOutcome(sessions: map<string, nat>, max: int, token: string, id: nat): Lookup {
    if token in sessions then Existing(sessions[token])
    else if max > 0 && |sessions| >= max then Full
    else Created(id)
  }

  function Inserted(sessions: map<string, nat>, max: int, token: string, id: nat): map<string, nat> {
    if LookupOutcome(sessions, max, token, id).Created? then sessions[token := id] else sessions
  }

  function Removed(sessions: map<string, nat>, token: string): map<string, nat> {
    sessions - {token}
  }

  /** One relay session. `id` stands for the identity of the entry in memory. */
  class SessionEntry {
    const id: nat
    const token: string
    var viewer: Option<Peer>
    var agent: Option<Peer>
    var pairCh: seq<Peer>

    function View(): Entry
      reads this
    {
      Entry(token, viewer, agent, pairCh)
    }

    /** The channel is written only once both peers are here. */
    predicate Valid()
      reads this
    {
      && |pairCh| <= PAIR_CH_CAPACITY
      && (pairCh != [] ==> viewer.Some? && agent.Some?)
    }

    constructor (id: nat, token: string)
      ensures Valid() && this.id == id
      ensures View() == Entry(token, None, None, [])
    {
      this.id, this.token := id, token;
      viewer, agent, pairCh := None, None, [];
    }

    /** Registers a peer under the entry's lock. The send on `pairCh` always finds the channel empty,
        so the lock is never held across a blocking operation. */
    method Register(p: Peer) returns (outcome: Registration)
      requires Valid()
      modifies this
      ensures Valid()
      ensures outcome == RegisterOutcome(old(View()), p) && outcome != Blocked
      ensures outcome == Taken <==> (if p.role == Viewer then old(viewer).Some? else old(agent).Some?)
      ensures outcome != Taken ==> (if p.role == Viewer then viewer else agent) == Some(p)
      ensures (if p.role == Viewer then agent == old(agent) else viewer == old(viewer))
      ensures outcome.Second? ==> Some(outcome.partner) == (if p.role == Viewer then agent else viewer) && pairCh == [p]
      ensures outcome == First ==> (if p.role == Viewer then agent else viewer) == None && pairCh == old(pairCh)
      ensures View() == Registered(old(View()), p)
    {
      match p.role {
        case Viewer =>
          if viewer.Some? {
            return Taken;
          }
          viewer := Some(p);
          if agent.Some? {
            assert pairCh == [];
            pairCh := pairCh + [p];
            return Second(agent.value);
          }
        case Agent =>
          if agent.Some? {
            return Taken;
          }
          agent := Some(p);
          if viewer.Some? {
            assert pairCh == [];
            pairCh := pairCh + [p];
            return Second(viewer.value);
          }
      }
      outcome := First;
    }
  }

  /** The sessions in flight, indexed by token. */
  class SessionStore {
    const max: int
    var sessions: map<string, SessionEntry>
    ghost var issued: nat

    ghost function View(): map<string, nat>
      reads this
    {
      map t | t in sessions :: sessions[t].id
    }

    ghost predicate Valid()
      reads this
    {
      forall t | t in sessions :: sessions[t].token == t && sessions[t].id < issued
    }

    constructor (max: int)
      ensures Valid() && this.max == max && View() == map[] && issued == 0
    {
      this.max := max;
      sessions := map[];
      issued := 0;
    }

    method Count() returns (n: nat)
      ensures n == |View()|
    {
      n := |sessions|;
      SameSize(sessions, View());
    }

    /** Finds the entry of a token or creates it, unless the store is full; `id` is the identity a new
        entry gets, never used before. */
    method GetOrCreate(token: string, id: nat) returns (e: SessionEntry?, isNew: bool)
      requires Valid() && id >= issued
      modifies this
      ensures Valid()
      ensures View() == Inserted(old(View()), max, token, id)
      ensures e == null <==> token !in old(View()) && max > 0 && |old(View())| >= max
      ensures e != null ==> token in View() && View()[token] == e.id && (isNew <==> token !in old(View()))
      ensures match LookupOutcome(old(View()), max, token, id)
              case Existing(i) => e != null && !isNew && e.id == i && e == old(sessions)[token] && issued == old(issued)
              case Created(i) =>
                && e != null && isNew && e.id == i && fresh(e) && issued == id + 1
                && e.View() == Entry(token, None, None, []) && e.Valid()
              case Full => e == null && !isNew && issued == old(issued)
    {
      if token in sessions {
        return sessions[token], false;
      }
      SameSize(sessions, View());
      if max > 0 && |sessions| >= max {
        return null, false;
      }
      isNew := true;
      e := new SessionEntry(id, token);
      sessions := sessions[token := e];
      issued := id + 1;
    }

    /** Deletes whatever entry the token names now, not a particular entry. */
    method Remove(token: string)
      requires Valid()
      modifies this`sessions
      ensures Valid()
      ensures View() == Removed(old(View()), token)
      ensures View().Keys == old(View()).Keys - {token}
    {
      sessions := sessions - {token};
    }
  }

  lemma SameSize<A, B>(m: map<string, A>, n: map<string, B>)
    requires m.Keys == n.Keys
    ensures |m| == |n|
  {
    assert |m| == |m.Keys| && |n| == |n.Keys|;
  }
}
