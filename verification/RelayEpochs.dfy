/**
 When two handlers with one token share a session entry (server/session.go, lines 61-85).

 Removal goes by token, so each removal of a token begins a new epoch of that token. Two handlers share
 an entry exactly when they looked their token up in the same epoch, and only then can they meet.
 */
module RelayEpochs {
  import opened Wrappers
  import opened Sessions
  import opened RelayControl
  import opened RelayProtocol
  import opened Runs

  /** The event takes whatever the token names out of the store. */
  predicate Removes(s: State, ev: Event, token: string) {
    ev.OnRemove? && At(s.c, ev.h, Leaving) && s.c.handlers[ev.h].token == token
  }

  /** The event is handler h's lookup of its token. */
  predicate Enters(s: State, ev: Event, h: nat) {
    ev == OnEnter(h) && At(s.c, h, Arriving)
  }

  /** How often the token has been removed during a run. */
  function Epoch(max: int, evs: seq<Event>, token: string): nat {
    if evs == [] then 0
    else
      var before := evs[..|evs| - 1];
      Epoch(max, before, token) + if Removes(Run(max, before), evs[|evs| - 1], token) then 1 else 0
  }

  /** How often its token had been removed when handler h looked it up. */
  function EnterEpoch(max: int, evs: seq<Event>, h: nat): nat {
    if evs == [] then 0
    else
      var before := evs[..|evs| - 1];
      var s := Run(max, before);
      if Enters(s, evs[|evs| - 1], h) then Epoch(max, before, s.c.handlers[h].token) else EnterEpoch(max, before, h)
  }

  predicate Entered(c: Control, h: nat) {
    h < |c.handlers| && c.handlers[h].entry.Some?
  }

  // ---- One step ----

  lemma ArrivingHasNone(c: Control, h: nat)
    requires Inv(c) && h < |c.handlers|
    ensures At(c, h, Arriving) ==> !Entered(c, h)
    ensures Entered(c, h) ==> c.handlers[h].entry.value < |c.entries|
  {
    assert HandlerOk(c, h);
  }

  /** Everything but a lookup or a removal leaves tokens, entries and the store as they are. */
  lemma QuietStep(s: State, ev: Event, h: nat)
    requires !ev.OnEnter? && !ev.OnRemove? && h < |Next(s, ev).c.handlers|
    ensures Next(s, ev).c.sessions == s.c.sessions
    ensures if h < |s.c.handlers| then
              && Next(s, ev).c.handlers[h].token == s.c.handlers[h].token
              && Next(s, ev).c.handlers[h].entry == s.c.handlers[h].entry
            else Next(s, ev).c.handlers[h].entry.None?
  {
  }

  /** A lookup changes no handler but its own, and adds at most an entry nobody has. */
  lemma EnterStep(c: Control, j: nat, h: nat)
    requires Inv(c) && At(c, j, Arriving) && h < |c.handlers|
    ensures var d, token := Enter(c, j), c.handlers[j].token;
            && |d.handlers| == |c.handlers| && d.handlers[h].token == c.handlers[h].token
            && (h != j ==> d.handlers[h] == c.handlers[h])
            && (d.sessions == c.sessions || (token !in c.sessions && d.sessions == c.sessions[token := |c.entries|]))
            && (h == j && Entered(d, h) ==> token in d.sessions && d.handlers[h].entry == Some(d.sessions[token]))
  {
    ArrivingHasNone(c, j);
  }

  lemma RemoveStep(c: Control, j: nat, h: nat)
    requires At(c, j, Leaving) && h < |c.handlers|
    ensures var d := Remove(c, j);
            && |d.handlers| == |c.handlers| && d.sessions == Removed(c.sessions, c.handlers[j].token)
            && d.handlers[h].token == c.handlers[h].token && d.handlers[h].entry == c.handlers[h].entry
  {
  }

  // ---- Every run ----

  /** With n the epoch of handler h's lookup and e the current one: they are the same exactly when the
      token still names the handler's entry. */
  predicate DatedBy(c: Control, h: nat, n: nat, e: nat)
    requires Entered(c, h)
  {
    var token := c.handlers[h].token;
    if token in c.sessions then n <= e && (c.handlers[h].entry == Some(c.sessions[token]) <==> n == e) else n < e
  }

  lemma NewcomerDated(c: Control, h: nat, e: nat)
    requires Inv(c) && At(c, h, Arriving) && Entered(Enter(c, h), h)
    ensures DatedBy(Enter(c, h), h, e, e)
  {
    EnterStep(c, h, h);
  }

  lemma OthersDated(c: Control, j: nat, h: nat, n: nat, e: nat)
    requires Inv(c) && At(c, j, Arriving) && h != j && Entered(c, h) && DatedBy(c, h, n, e)
    ensures Entered(Enter(c, j), h) && DatedBy(Enter(c, j), h, n, e)
  {
    EnterStep(c, j, h);
    ArrivingHasNone(c, h);
  }

  lemma RemovalDated(c: Control, j: nat, h: nat, n: nat, e: nat)
    requires At(c, j, Leaving) && Entered(c, h) && DatedBy(c, h, n, e)
    ensures Entered(Remove(c, j), h)
    ensures DatedBy(Remove(c, j), h, n, if c.handlers[j].token == c.handlers[h].token then e + 1 else e)
  {
    RemoveStep(c, j, h);
  }

  lemma {:induction false} AlwaysDated(max: int, evs: seq<Event>, h: nat)
    requires Entered(Run(max, evs).c, h)
    ensures DatedBy(Run(max, evs).c, h, EnterEpoch(max, evs, h), Epoch(max, evs, Run(max, evs).c.handlers[h].token))
  {
    var before, ev := evs[..|evs| - 1], evs[|evs| - 1];
    var s := Run(max, before);
    RunGood(max, before);
    if ev == OnEnter(h) && At(s.c, h, Arriving) {
      EnterStep(s.c, h, h);
      NewcomerDated(s.c, h, Epoch(max, before, s.c.handlers[h].token));
    } else {
      EnteredBefore(s, ev, h);
      AlwaysDated(max, before, h);
      StepDated(s, ev, h, EnterEpoch(max, before, h), Epoch(max, before, s.c.handlers[h].token));
    }
  }

  lemma EnteredBefore(s: State, ev: Event, h: nat)
    requires Good(s) && Entered(Next(s, ev).c, h) && !Enters(s, ev, h)
    ensures Entered(s.c, h) && Next(s, ev).c.handlers[h].token == s.c.handlers[h].token
    ensures Next(s, ev).c.handlers[h].entry == s.c.handlers[h].entry
  {
    if ev.OnEnter? && At(s.c, ev.h, Arriving) {
      EnterStep(s.c, ev.h, h);
    } else if ev.OnRemove? && At(s.c, ev.h, Leaving) {
      RemoveStep(s.c, ev.h, h);
    } else if !ev.OnEnter? && !ev.OnRemove? {
      QuietStep(s, ev, h);
    }
  }

  lemma StepDated(s: State, ev: Event, h: nat, n: nat, e: nat)
    requires Good(s) && Entered(s.c, h) && Entered(Next(s, ev).c, h) && !Enters(s, ev, h) && DatedBy(s.c, h, n, e)
    ensures DatedBy(Next(s, ev).c, h, n, if Removes(s, ev, s.c.handlers[h].token) then e + 1 else e)
  {
    if ev.OnEnter? && At(s.c, ev.h, Arriving) {
      ArrivingHasNone(s.c, h);
      OthersDated(s.c, ev.h, h, n, e);
    } else if ev.OnRemove? && At(s.c, ev.h, Leaving) {
      RemovalDated(s.c, ev.h, h, n, e);
    } else if !ev.OnEnter? && !ev.OnRemove? {
      QuietStep(s, ev, h);
    }
  }

  /** A handler that looks its token up now shares an entry with exactly those that did in this epoch. */
  lemma NewcomerShares(max: int, before: seq<Event>, h: nat, k: nat)
    requires At(Run(max, before).c, h, Arriving) && Entered(Enter(Run(max, before).c, h), h)
    requires Entered(Run(max, before).c, k)
    requires Run(max, before).c.handlers[k].token == Run(max, before).c.handlers[h].token
    ensures var c, d := Run(max, before).c, Enter(Run(max, before).c, h);
            d.handlers[h].entry == c.handlers[k].entry <==>
            EnterEpoch(max, before, k) == Epoch(max, before, c.handlers[h].token)
  {
    RunGood(max, before);
    EnterStep(Run(max, before).c, h, h);
    ArrivingHasNone(Run(max, before).c, k);
    AlwaysDated(max, before, k);
  }

  /** Two handlers with one token share an entry exactly when no removal of the token fell between their
      lookups. */
  lemma {:induction false} SameEntryExactly(max: int, evs: seq<Event>, h: nat, k: nat)
    requires Entered(Run(max, evs).c, h) && Entered(Run(max, evs).c, k)
    requires Run(max, evs).c.handlers[h].token == Run(max, evs).c.handlers[k].token
    ensures Run(max, evs).c.handlers[h].entry == Run(max, evs).c.handlers[k].entry <==>
            EnterEpoch(max, evs, h) == EnterEpoch(max, evs, k)
  {
    if h != k {
      var before, ev := evs[..|evs| - 1], evs[|evs| - 1];
      var s := Run(max, before);
      RunGood(max, before);
      if !Enters(s, ev, h) { EnteredBefore(s, ev, h); } else { EnterStep(s.c, h, h); }
      if !Enters(s, ev, k) { EnteredBefore(s, ev, k); } else { EnterStep(s.c, k, k); }
      if Enters(s, ev, h) {
        NewcomerShares(max, before, h, k);
      } else if Enters(s, ev, k) {
        NewcomerShares(max, before, k, h);
      } else {
        SameEntryExactly(max, before, h, k);
      }
    }
  }

  // ---- Who can meet ----

  /** Two waiting peers of one token and opposite roles have each other on their channels exactly when
      they looked the token up in the same epoch. */
  lemma PeersMeetExactly(max: int, evs: seq<Event>, h: nat, k: nat)
    requires At(Run(max, evs).c, h, Waiting) && At(Run(max, evs).c, k, Waiting)
    requires Run(max, evs).c.handlers[h].token == Run(max, evs).c.handlers[k].token
    requires Run(max, evs).c.handlers[k].role == Opposite(Run(max, evs).c.handlers[h].role)
    ensures var c := Run(max, evs).c;
            HasEntry(c, h) && (PartnerCh(c, h) == [Peer(k, c.handlers[k].role)] <==>
                               EnterEpoch(max, evs, h) == EnterEpoch(max, evs, k))
  {
    var c := Run(max, evs).c;
    RunGood(max, evs);
    assert HandlerOk(c, h) && HandlerOk(c, k);
    SameEntryExactly(max, evs, h, k);
    assert EntryOk(c, c.handlers[h].entry.value);
  }

  /** A partner for handler h has registered: same token, same epoch, opposite role. */
  predicate Counterpart(max: int, evs: seq<Event>, h: nat, k: nat) {
    var c := Run(max, evs).c;
    && h < |c.handlers| && k < |c.handlers| && c.handlers[k].joined
    && c.handlers[k].token == c.handlers[h].token && c.handlers[k].role == Opposite(c.handlers[h].role)
    && EnterEpoch(max, evs, k) == EnterEpoch(max, evs, h)
  }

  /** A waiting handler can receive exactly when a peer of the opposite role, with its token, has looked
      the token up in the same epoch and registered. */
  lemma ReceivesExactly(max: int, evs: seq<Event>, h: nat)
    requires At(Run(max, evs).c, h, Waiting)
    ensures HasEntry(Run(max, evs).c, h)
    ensures PartnerCh(Run(max, evs).c, h) != [] <==> exists k: nat :: Counterpart(max, evs, h, k)
  {
    var c := Run(max, evs).c;
    RunGood(max, evs);
    WaitingReceives(max, evs, h);
    assert HandlerOk(c, h);
    var e, role := c.handlers[h].entry.value, Opposite(c.handlers[h].role);
    assert EntryOk(c, e);
    if Slot(c.entries[e], role).Some? {
      var k := Slot(c.entries[e], role).value.id;
      assert HandlerOk(c, k);
      SameEntryExactly(max, evs, h, k);
      assert Counterpart(max, evs, h, k);
    }
    forall k: nat | Counterpart(max, evs, h, k) ensures Slot(c.entries[e], role).Some? {
      assert HandlerOk(c, k);
      SameEntryExactly(max, evs, h, k);
    }
  }
}
