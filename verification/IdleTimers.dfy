/**
 The inactivity timers of the streaming loop (agent/stream.go, lines 411-430, 455-483 and 520-521), in
 milliseconds.

 A timer of this Go version (1.22) has a channel with room for one tick. When its deadline passes, the
 runtime puts a tick there, at some later moment of its choice; stopping the timer does not take the tick
 back. The loop handles whatever is ready in any order, so an input may be handled before a tick that
 has been waiting longer. Firing is one step here: a timer that no longer runs has its tick on the channel.
 */
module IdleTimers {
  import opened Wrappers
  import opened Runs

  const TIMEOUT: nat := 600_000
  const WARNING: nat := 30_000

  /** `deadline` while the timer runs, and the moment of the tick that waits on its channel. */
  datatype Timer = Timer(deadline: Option<nat>, tick: Option<nat>)

  /** The loop's timers. The last three fields are history: when they were last set, how many warnings
      have been sent since, and when the inactivity timeout was handled. */
  datatype Timers = Timers(now: nat, idle: Timer, warning: Timer, warningSent: bool,
                           since: nat, warnings: nat, ended: Option<nat>)

  // ---- One timer ----

  /** Stop reports whether the timer was still running. */
  function Stopped(t: Timer): (Timer, bool) {
    (t.(deadline := None), t.deadline.Some?)
  }

  function Drained(t: Timer): Timer {
    t.(tick := None)
  }

  function Rearmed(t: Timer, deadline: nat): Timer {
    t.(deadline := Some(deadline))
  }

  /** Stop, drain the channel if the timer had already fired, set again. */
  function Restarted(t: Timer, deadline: nat): Timer {
    var (s, wasRunning) := Stopped(t);
    Rearmed(if wasRunning then s else Drained(s), deadline)
  }

  /** The runtime's turn: a timer whose deadline has passed fires. */
  function Fired(t: Timer, now: nat): Timer {
    if t.deadline.Some? && t.deadline.value <= now
    then Timer(None, if t.tick.None? then Some(now) else t.tick) else t
  }

  // ---- Events ----

  datatype Event =
    | Pass(time: nat)
    | FireIdle | FireWarning
    | Activity       // an input, a monitor switch or a codec switch is handled
    | HandleWarning | HandleIdle

  function Started(now: nat): Timers {
    Timers(now, Timer(Some(now + TIMEOUT), None), Timer(Some(now + (TIMEOUT - WARNING)), None), false, now, 0, None)
  }

  function Reset(s: Timers): Timers {
    s.(idle := Restarted(s.idle, s.now + TIMEOUT),
       warning := Restarted(s.warning, s.now + (TIMEOUT - WARNING)),
       warningSent := false, since := s.now, warnings := 0)
  }

  function Next(s: Timers, ev: Event): Timers {
    if s.ended.Some? then s
    else match ev
         case Pass(time) => s.(now := s.now + time)
         case FireIdle => s.(idle := Fired(s.idle, s.now))
         case FireWarning => s.(warning := Fired(s.warning, s.now))
         case Activity => Reset(s)
         case HandleWarning =>
           if s.warning.tick.None? then s
           else s.(warning := Drained(s.warning), warningSent := true,
                   warnings := s.warnings + if s.warningSent then 0 else 1)
         case HandleIdle =>
           if s.idle.tick.None? then s else s.(idle := Drained(s.idle), ended := Some(s.now))
  }

  /** The loop's own variables and what it does with them. */
  class StreamTimers {
    var now: nat
    var idle: Timer
    var warning: Timer
    var warningSent: bool
    ghost var since: nat
    ghost var warnings: nat
    ghost var ended: Option<nat>

    ghost function View(): Timers
      reads this
    {
      Timers(now, idle, warning, warningSent, since, warnings, ended)
    }

    constructor (now: nat)
      ensures View() == Started(now)
    {
      this.now := now;
      idle := Timer(Some(now + TIMEOUT), None);
      warning := Timer(Some(now + (TIMEOUT - WARNING)), None);
      warningSent := false;
      since, warnings, ended := now, 0, None;
    }

    method ResetIdleTimer()
      modifies this
      ensures View() == Reset(old(View()))
    {
      var wasRunning := idle.deadline.Some?;
      idle := idle.(deadline := None);
      if !wasRunning {
        idle := idle.(tick := None);
      }
      idle := idle.(deadline := Some(now + TIMEOUT));
      wasRunning := warning.deadline.Some?;
      warning := warning.(deadline := None);
      if !wasRunning {
        warning := warning.(tick := None);
      }
      warning := warning.(deadline := Some(now + (TIMEOUT - WARNING)));
      warningSent := false;
      since, warnings := now, 0;
    }

    /** The warning branch of the select; returns whether a warning goes to the browser. */
    method OnWarningTick() returns (send: bool)
      requires warning.tick.Some? && ended.None?
      modifies this
      ensures View() == Next(old(View()), HandleWarning)
      ensures send == !old(warningSent)
    {
      warning := warning.(tick := None);
      send := !warningSent;
      if !warningSent {
        warningSent := true;
        warnings := warnings + 1;
      }
    }

    /** The timeout branch; the loop is left behind it. */
    method OnIdleTick()
      requires idle.tick.Some? && ended.None?
      modifies this
      ensures View() == Next(old(View()), HandleIdle)
    {
      idle := idle.(tick := None);
      ended := Some(now);
    }
  }

  // ---- Invariant ----

  /** A timer set at `since` for `length` either runs with an empty channel, or fired at its deadline or
      later; no tick from before `since` is left. */
  ghost predicate TimerOk(t: Timer, since: nat, length: nat, now: nat) {
    match t.deadline
    case Some(d) => d == since + length && t.tick.None?
    case None => t.tick.Some? ==> since + length <= t.tick.value <= now
  }

  ghost predicate Ok(s: Timers) {
    && s.since <= s.now
    && TimerOk(s.idle, s.since, TIMEOUT, s.now)
    && TimerOk(s.warning, s.since, TIMEOUT - WARNING, s.now)
    && s.warnings == (if s.warningSent then 1 else 0)
    && (s.warningSent ==> s.warning == Timer(None, None) && s.now >= s.since + (TIMEOUT - WARNING))
    && (s.warning == Timer(None, None) ==> s.warningSent)
    && (s.ended.None? ==> s.idle != Timer(None, None))
    && (s.ended.Some? ==> s.since + TIMEOUT <= s.ended.value == s.now)
  }

  lemma ActivityOk(s: Timers)
    requires Ok(s) && s.ended.None?
    ensures Ok(Next(s, Activity))
  {
    assert Restarted(s.idle, s.now + TIMEOUT).tick == None;
    assert Restarted(s.warning, s.now + (TIMEOUT - WARNING)).tick == None;
  }

  lemma FiredOk(s: Timers, ev: Event)
    requires Ok(s) && s.ended.None? && (ev.FireIdle? || ev.FireWarning?)
    ensures Ok(Next(s, ev))
  {
  }

  lemma HandledOk(s: Timers, ev: Event)
    requires Ok(s) && s.ended.None? && (ev.HandleIdle? || ev.HandleWarning?)
    ensures Ok(Next(s, ev))
  {
  }

  lemma NextOk(s: Timers, ev: Event)
    requires Ok(s)
    ensures Ok(Next(s, ev))
  {
    if s.ended.None? {
      match ev
      case Pass(time) =>
      case FireIdle => FiredOk(s, ev);
      case FireWarning => FiredOk(s, ev);
      case Activity => ActivityOk(s);
      case HandleWarning => HandledOk(s, ev);
      case HandleIdle => HandledOk(s, ev);
    }
  }

  function RunOf(start: nat, evs: seq<Event>): Timers {
    Fold(Next, Started(start), evs)
  }

  lemma {:induction false} RunOk(start: nat, evs: seq<Event>)
    ensures Ok(RunOf(start, evs))
  {
    if evs != [] {
      RunOk(start, evs[..|evs| - 1]);
      NextOk(RunOf(start, evs[..|evs| - 1]), evs[|evs| - 1]);
    }
  }

  // ---- Results ----

  /** The moment of the last activity of a run, or its start. */
  function LastActivity(start: nat, evs: seq<Event>): nat {
    if evs == [] then start
    else
      var before := evs[..|evs| - 1];
      if evs[|evs| - 1].Activity? && RunOf(start, before).ended.None? then RunOf(start, before).now
      else LastActivity(start, before)
  }

  lemma {:induction false} SinceIsLastActivity(start: nat, evs: seq<Event>)
    ensures RunOf(start, evs).since == LastActivity(start, evs)
  {
    if evs != [] {
      SinceIsLastActivity(start, evs[..|evs| - 1]);
    }
  }

  /** The timeout is handled only ten minutes or more after the last activity; at most one warning is sent
      since that activity, and not before nine and a half minutes. */
  lemma NeverEarly(start: nat, evs: seq<Event>)
    ensures var s := RunOf(start, evs);
            && (s.ended.Some? ==> s.ended.value >= LastActivity(start, evs) + 600_000)
            && s.warnings <= 1
            && (s.warnings == 1 ==> s.now >= LastActivity(start, evs) + 570_000)
  {
    RunOk(start, evs);
    SinceIsLastActivity(start, evs);
  }

  /** No tick survives an activity: right after it both channels are empty and both timers run their full
      length. */
  lemma NoStaleTick(start: nat, evs: seq<Event>)
    requires RunOf(start, evs).ended.None?
    ensures var s := RunOf(start, evs + [Activity]);
            && s.idle == Timer(Some(s.now + TIMEOUT), None)
            && s.warning == Timer(Some(s.now + (TIMEOUT - WARNING)), None)
  {
    RunOk(start, evs);
    FoldSnoc(Next, Started(start), evs, Activity);
  }

  /** The timeout is never lost: ten minutes after the last activity the runtime's tick is there or comes
      with its next turn, and handling it ends the loop. */
  lemma NeverLost(start: nat, evs: seq<Event>)
    requires var s := RunOf(start, evs); s.ended.None? && s.now >= LastActivity(start, evs) + TIMEOUT
    ensures RunOf(start, evs + [FireIdle, HandleIdle]).ended == Some(RunOf(start, evs).now)
  {
    RunOk(start, evs);
    SinceIsLastActivity(start, evs);
    FoldConcat(Next, Started(start), evs, [FireIdle, HandleIdle]);
    Fold2(Next, RunOf(start, evs), FireIdle, HandleIdle);
  }

  /** Neither is the warning: nine and a half minutes after the last activity it has been sent, or the
      runtime's next turn brings its tick, and handling that sends it. */
  lemma WarningNeverLost(start: nat, evs: seq<Event>)
    requires var s := RunOf(start, evs); s.ended.None? && s.now >= LastActivity(start, evs) + 570_000
    ensures RunOf(start, evs).warnings == 1 || RunOf(start, evs + [FireWarning, HandleWarning]).warnings == 1
  {
    RunOk(start, evs);
    SinceIsLastActivity(start, evs);
    FoldConcat(Next, Started(start), evs, [FireWarning, HandleWarning]);
    Fold2(Next, RunOf(start, evs), FireWarning, HandleWarning);
  }

  /** Before ten minutes no turn of the runtime can make the timeout ready. */
  lemma NotReadyBefore(start: nat, evs: seq<Event>)
    requires var s := RunOf(start, evs); s.ended.None? && s.now < LastActivity(start, evs) + TIMEOUT
    ensures RunOf(start, evs + [FireIdle, HandleIdle]) == RunOf(start, evs)
  {
    RunOk(start, evs);
    SinceIsLastActivity(start, evs);
    FoldConcat(Next, Started(start), evs, [FireIdle, HandleIdle]);
    Fold2(Next, RunOf(start, evs), FireIdle, HandleIdle);
  }

  /** A warning tick always finds the warning unsent: the flag of the source never suppresses one. */
  lemma FlagNeverSuppresses(start: nat, evs: seq<Event>)
    requires RunOf(start, evs).warning.tick.Some?
    ensures !RunOf(start, evs).warningSent
  {
    RunOk(start, evs);
  }
}
