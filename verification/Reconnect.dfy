/**
 The reconnect backoff of the command channel (agent/cmd_ws.go, lines 47-49 and 75-96), in nanoseconds.
 Every product that occurs is a whole number below 2^53, so the floating-point factor 1.5 is exact.
 */
module Reconnect {
  import opened Bytes
  import opened Runs

  const BASE: nat := 2_000_000_000
  const MAX: nat := 60_000_000_000

  /** The backoff, and so the sleep, after one more session. */
  function After(backoff: nat, failed: bool): nat {
    if !failed then BASE
    else if backoff * 3 / 2 > MAX then MAX
    else backoff * 3 / 2
  }

  /** The wait that the log announces after one more session. */
  function Announced(backoff: nat, failed: bool): nat {
    if failed then backoff else BASE
  }

  class CommandLoop {
    var backoff: nat

    constructor ()
      ensures backoff == BASE
    {
      backoff := BASE;
    }

    /** What the loop does once a session has ended: the wait its log line announces, and the time it
        sleeps. */
    method SessionEnded(failed: bool) returns (logged: nat, sleep: nat)
      modifies this
      ensures backoff == sleep == After(old(backoff), failed)
      ensures logged == Announced(old(backoff), failed)
    {
      if !failed {
        logged := BASE;
        backoff := BASE;
      } else {
        logged := backoff;
        var next := backoff * 3 / 2;
        if next > MAX {
          next := MAX;
        }
        backoff := next;
      }
      sleep := backoff;
    }
  }

  /** The sleep after a history of sessions; `true` is a failure. */
  function SleepAfter(history: seq<bool>): nat {
    Fold<nat, bool>(After, BASE, history)
  }

  /** Failures in a row at the end of a history. */
  function Failures(history: seq<bool>): (n: nat)
    ensures n <= |history|
  {
    if history == [] || !history[|history| - 1] then 0 else 1 + Failures(history[..|history| - 1])
  }

  function Min(a: nat, b: nat): nat {
    if a <= b then a else b
  }

  /** After n failures in a row the sleep is min(60 s, 2 s * 1.5^n), here multiplied by 2^n; the cap is
      reached at the ninth. */
  lemma ClosedForm(history: seq<bool>)
    ensures var n := Failures(history);
            Pow(2, n) * SleepAfter(history) == Min(Pow(2, n) * MAX, BASE * Pow(3, n))
    ensures SleepAfter(history) == MAX <==> Failures(history) >= 9
  {
    Table(history);
    PowersAndSleeps(Failures(history));
  }

  /** The sleeps one by one: 2 s after a clean close, 3 s after the first failure, and so on to the cap. */
  function Sleep(n: nat): nat {
    if n == 0 then 2_000_000_000
    else if n == 1 then 3_000_000_000
    else if n == 2 then 4_500_000_000
    else if n == 3 then 6_750_000_000
    else if n == 4 then 10_125_000_000
    else if n == 5 then 15_187_500_000
    else if n == 6 then 22_781_250_000
    else if n == 7 then 34_171_875_000
    else if n == 8 then 51_257_812_500
    else MAX
  }

  lemma {:induction false} Table(history: seq<bool>)
    ensures SleepAfter(history) == Sleep(Failures(history))
  {
    if history != [] {
      Table(history[..|history| - 1]);
    }
  }

  lemma SmallPowers()
    ensures Pow(2, 8) == 256 && Pow(3, 8) == 6561
  {
    assert Pow(2, 4) == 16 && Pow(3, 4) == 81;
  }

  lemma PowerStep(n: nat)
    ensures Pow(2, n + 1) == 2 * Pow(2, n) && Pow(3, n + 1) == 3 * Pow(3, n)
  {
  }

  lemma {:induction false} SmallSleeps(n: nat)
    requires n < 9
    ensures Pow(2, n) * Sleep(n) == BASE * Pow(3, n)
  {
    if n > 0 {
      SmallSleeps(n - 1);
      PowerStep(n - 1);
      Tripled(Pow(2, n - 1), Pow(3, n - 1), Sleep(n - 1), Sleep(n));
    }
  }

  lemma Tripled(p: nat, q: nat, s: nat, t: nat)
    requires 2 * t == 3 * s && p * s == BASE * q
    ensures (2 * p) * t == BASE * (3 * q)
  {
    assert (2 * p) * t == p * (2 * t) == p * (3 * s) == 3 * (p * s);
  }

  lemma {:induction false} LargePowers(n: nat)
    requires n >= 9
    ensures 30 * Pow(2, n) < Pow(3, n)
  {
    if n == 9 {
      SmallPowers();
      PowerStep(8);
    } else {
      LargePowers(n - 1);
      PowerStep(n - 1);
    }
  }

  lemma PowersAndSleeps(n: nat)
    ensures n >= 9 ==> Pow(2, n) * MAX < BASE * Pow(3, n)
    ensures n < 9 ==> Pow(2, n) * Sleep(n) == BASE * Pow(3, n) <= Pow(2, n) * MAX
  {
    if n >= 9 { LargePowers(n); } else {
      SmallSleeps(n);
      Below(Pow(2, n), Sleep(n));
    }
  }

  lemma Below(p: nat, sleep: nat)
    requires sleep <= MAX
    ensures p * sleep <= p * MAX
  {
    assert p * MAX == p * sleep + p * (MAX - sleep);
  }

  /** The last wait announced after a history of at least one session. */
  function LastAnnounced(history: seq<bool>): nat
    requires history != []
  {
    Announced(SleepAfter(history[..|history| - 1]), history[|history| - 1])
  }

  /** The log announces the wait that follows exactly after a clean close and from the tenth failure in a
      row on; after one to nine failures it announces less. */
  lemma AnnouncedExactly(history: seq<bool>)
    requires history != []
    ensures LastAnnounced(history) <= SleepAfter(history)
    ensures LastAnnounced(history) == SleepAfter(history) <==> Failures(history) == 0 || Failures(history) >= 10
  {
    var before := history[..|history| - 1];
    Table(before);
    Table(history);
  }

  /** Failures never shorten the sleep, and it always lies between 2 and 60 seconds. */
  lemma SleepBounds(history: seq<bool>)
    ensures BASE <= SleepAfter(history) <= MAX
    ensures SleepAfter(history) <= SleepAfter(history + [true]) && SleepAfter(history + [false]) == BASE
  {
    Table(history);
    FoldSnoc<nat, bool>(After, BASE, history, true);
    FoldSnoc<nat, bool>(After, BASE, history, false);
  }
}
