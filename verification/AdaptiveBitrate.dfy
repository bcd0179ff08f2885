/**
 The adaptive bitrate controller (agent/stream.go, lines 57-113) and what becomes of its decisions in
 the streaming loop.

 A raise multiplies by 1.40 in floating point; the result is off by less than one, so it is the exact
 quotient rounded down, or one less where the quotient is whole. `low` picks between the two.
 */
module AdaptiveBitrate {
  import opened Runs

  const MIN := 1_000_000
  const MAX := 100_000_000
  const START := 20_000_000
  const WINDOW := 15
  const NANOSECONDS := 1_000_000_000

  function Raised(x: nat, low: bool): int {
    if low && x % 5 == 0 then 7 * x / 5 - 1 else 7 * x / 5
  }

  /** Exactly the integers within the rounding error of the raise. */
  lemma RaisedExactly(x: nat, r: int)
    ensures 7 * x - 5 <= 5 * r <= 7 * x <==> r == Raised(x, false) || r == Raised(x, true)
  {
  }

  function Clamped(x: int): nat {
    if x < MIN then MIN else if x > MAX then MAX else x
  }

  /** The rate after a window with this many slow frames: above a fifth it is halved, below a twentieth
      it is raised. */
  function Decided(x: nat, slow: nat, low: bool): nat {
    Clamped(if slow * 5 > WINDOW then x / 2 else if slow * 20 < WINDOW then Raised(x, low) else x)
  }

  /** One sent frame: whether it took longer than its budget, and the rounding of a raise. */
  datatype Frame = Frame(slow: bool, low: bool)

  datatype Rate = Rate(current: nat, slow: nat, total: nat)

  const FRESH := Rate(START, 0, 0)

  /** The controller after a report, and the rate it announces (0 for none). */
  function Reported(r: Rate, f: Frame): (Rate, nat) {
    var slow := r.slow + if f.slow then 1 else 0;
    if r.total + 1 < WINDOW then (Rate(r.current, slow, r.total + 1), 0)
    else
      var next := Decided(r.current, slow, f.low);
      (Rate(next, 0, 0), if next != r.current then next else 0)
  }

  class Controller {
    var current: nat
    var slowFrames: nat
    var totalFrames: nat
    const budget: nat

    function View(): Rate
      reads this
    {
      Rate(current, slowFrames, totalFrames)
    }

    predicate Valid()
      reads this
    {
      MIN <= current <= MAX && slowFrames <= totalFrames < WINDOW
    }

    constructor (fps: nat)
      requires fps > 0
      ensures Valid() && View() == FRESH && budget == NANOSECONDS / fps
    {
      current, slowFrames, totalFrames := START, 0, 0;
      budget := NANOSECONDS / fps;
    }

    /** Records one frame's send time and returns the new rate if it changed, else 0. */
    method Report(sendTime: nat, low: bool) returns (announced: nat)
      requires Valid()
      modifies this
      ensures Valid()
      ensures (View(), announced) == Reported(old(View()), Frame(sendTime > budget, low))
    {
      totalFrames := totalFrames + 1;
      if sendTime > budget {
        slowFrames := slowFrames + 1;
      }
      if totalFrames < WINDOW {
        return 0;
      }
      var prev := current;
      var next: int := current;
      if slowFrames * 5 > totalFrames {
        next := current / 2;
      } else if slowFrames * 20 < totalFrames {
        next := Raised(current, low);
      }
      if next < MIN {
        next := MIN;
      }
      if next > MAX {
        next := MAX;
      }
      current := next;
      slowFrames, totalFrames := 0, 0;
      announced := if current != prev then current else 0;
    }
  }

  // ---- Runs ----

  /** The controller with everything it has announced so far. */
  datatype Log = Log(rate: Rate, announced: seq<nat>)

  function Turn(l: Log, f: Frame): Log {
    var (r, a) := Reported(l.rate, f);
    Log(r, if a > 0 then l.announced + [a] else l.announced)
  }

  function RunOf(fs: seq<Frame>): Log {
    Fold(Turn, Log(FRESH, []), fs)
  }

  function SlowIn(fs: seq<Frame>): nat {
    if fs == [] then 0 else SlowIn(fs[..|fs| - 1]) + if fs[|fs| - 1].slow then 1 else 0
  }

  function LastAnnounced(l: Log): nat {
    if l.announced == [] then START else l.announced[|l.announced| - 1]
  }

  /** The frames since the last decision. */
  function Undecided(fs: seq<Frame>): seq<Frame> {
    fs[|fs| - |fs| % WINDOW..]
  }

  lemma UndecidedNext(fs: seq<Frame>, f: Frame)
    ensures Undecided(fs + [f]) == if |fs| % WINDOW == WINDOW - 1 then [] else Undecided(fs) + [f]
  {
  }

  lemma SlowInNext(fs: seq<Frame>, f: Frame)
    ensures SlowIn(fs + [f]) == SlowIn(fs) + if f.slow then 1 else 0
  {
    assert (fs + [f])[..|fs|] == fs;
  }

  predicate Good(l: Log) {
    MIN <= l.rate.current <= MAX && LastAnnounced(l) == l.rate.current
  }

  lemma TurnKeepsGood(l: Log, f: Frame)
    requires Good(l)
    ensures Good(Turn(l, f))
  {
  }

  lemma TurnCounts(l: Log, f: Frame)
    requires l.rate.total < WINDOW
    ensures var m := Turn(l, f).rate;
            if l.rate.total == WINDOW - 1 then m.total == m.slow == 0
            else m.total == l.rate.total + 1 && m.slow == l.rate.slow + if f.slow then 1 else 0
  {
  }

  predicate Counts(r: Rate, fs: seq<Frame>) {
    r.total == |fs| % WINDOW && r.slow == SlowIn(Undecided(fs))
  }

  lemma StepCounts(l: Log, fs: seq<Frame>, f: Frame)
    requires Counts(l.rate, fs)
    ensures Counts(Turn(l, f).rate, fs + [f])
  {
    UndecidedNext(fs, f);
    SlowInNext(Undecided(fs), f);
    TurnCounts(l, f);
    NextRemainder(|fs|);
  }

  lemma NextRemainder(n: nat)
    ensures (n + 1) % WINDOW == if n % WINDOW == WINDOW - 1 then 0 else n % WINDOW + 1
  {
  }

  /** After any run the rate is within its bounds and equals the last rate announced; the counters cover
      exactly the frames since the last multiple of fifteen. */
  lemma {:induction false} RunInvariant(fs: seq<Frame>)
    ensures var l := RunOf(fs);
            && MIN <= l.rate.current <= MAX && LastAnnounced(l) == l.rate.current
            && Counts(l.rate, fs)
  {
    if fs != [] {
      var before, f := fs[..|fs| - 1], fs[|fs| - 1];
      assert fs == before + [f];
      RunInvariant(before);
      FoldSnoc(Turn, Log(FRESH, []), before, f);
      TurnKeepsGood(RunOf(before), f);
      StepCounts(RunOf(before), before, f);
    }
  }

  /** Fifteen frames from a window's start, all before the last without effect. */
  lemma {:induction false} WindowOpen(l: Log, fs: seq<Frame>)
    requires l.rate.total == 0 && l.rate.slow == 0 && |fs| < WINDOW
    ensures Fold(Turn, l, fs) == Log(Rate(l.rate.current, SlowIn(fs), |fs|), l.announced)
  {
    if fs != [] { WindowOpen(l, fs[..|fs| - 1]); }
  }

  /** A decision falls on every fifteenth frame and nowhere else: no slow frame raises, one to three hold,
      four or more halve. */
  lemma WindowDecides(l: Log, fs: seq<Frame>)
    requires l.rate.total == 0 && l.rate.slow == 0 && |fs| == WINDOW && MIN <= l.rate.current <= MAX
    ensures var x, k, m := l.rate.current, SlowIn(fs), Fold(Turn, l, fs);
            && WINDOW == 15 && MIN == 1_000_000 && MAX == 100_000_000 && START == 20_000_000
            && m.rate.total == m.rate.slow == 0
            && (k == 0 && m.rate.current < 100_000_000 ==> 7 * x - 5 <= 5 * m.rate.current <= 7 * x)
            && (k == 0 && m.rate.current == 100_000_000 ==> 7 * x >= 500_000_000)
            && (k >= 4 ==> m.rate.current == if x / 2 < 1_000_000 then 1_000_000 else x / 2)
            && (k == 0 ==> m.rate.current == Clamped(Raised(x, fs[WINDOW - 1].low)))
            && (1 <= k <= 3 ==> m == l)
            && (k >= 4 ==> m.rate.current == Clamped(x / 2))
            && m.announced == l.announced + (if m.rate.current != x then [m.rate.current] else [])
  {
    WindowOpen(l, fs[..WINDOW - 1]);
  }

  // ---- Windows of one kind ----

  function CleanWindows(x: nat, lows: seq<bool>): nat {
    if lows == [] then x else Decided(CleanWindows(x, lows[..|lows| - 1]), 0, lows[|lows| - 1])
  }

  function CongestedWindows(x: nat, n: nat): nat {
    if n == 0 then x else Decided(CongestedWindows(x, n - 1), 4, false)
  }

  /** A lower bound for any rate after n clean windows: the slowest climb from the floor. */
  function SlowestClimb(n: nat): nat {
    if n == 0 then MIN else Clamped(Raised(SlowestClimb(n - 1), true))
  }

  function FastestClimb(n: nat): nat {
    if n == 0 then MIN else Clamped(Raised(FastestClimb(n - 1), false))
  }

  lemma RaisedMonotone(x: nat, y: nat, low: bool)
    requires x <= y
    ensures Raised(x, true) <= Raised(y, low) <= Raised(y, false)
    ensures Raised(x, low) <= Raised(y, false)
  {
  }

  lemma {:induction false} CleanBetween(x: nat, lows: seq<bool>)
    requires MIN <= x <= MAX
    ensures SlowestClimb(|lows|) <= CleanWindows(x, lows) <= MAX
    ensures x == MIN ==> CleanWindows(x, lows) <= FastestClimb(|lows|)
  {
    if lows != [] {
      var before := lows[..|lows| - 1];
      CleanBetween(x, before);
      RaisedMonotone(SlowestClimb(|before|), CleanWindows(x, before), lows[|lows| - 1]);
      if x == MIN {
        RaisedMonotone(CleanWindows(x, before), FastestClimb(|before|), lows[|lows| - 1]);
      }
    }
  }

  lemma SlowStep(n: nat, x: nat)
    requires SlowestClimb(n) == x
    ensures SlowestClimb(n + 1) == Clamped(Raised(x, true))
  {
  }

  lemma SlowEarly(n: nat)
    requires SlowestClimb(n) == 1000000
    ensures SlowestClimb(n + 5) == 5378232
  {
    SlowStep(n, 1000000);
    SlowStep(n + 1, 1399999);
    SlowStep(n + 2, 1959998);
    SlowStep(n + 3, 2743997);
    SlowStep(n + 4, 3841595);
  }

  lemma SlowMiddle(n: nat)
    requires SlowestClimb(n) == 5378232
    ensures SlowestClimb(n + 5) == 28925416
  {
    SlowStep(n, 5378232);
    SlowStep(n + 1, 7529524);
    SlowStep(n + 2, 10541333);
    SlowStep(n + 3, 14757866);
    SlowStep(n + 4, 20661012);
  }

  lemma SlowLate(n: nat)
    requires SlowestClimb(n) == 28925416
    ensures SlowestClimb(n + 4) == 100000000
  {
    SlowStep(n, 28925416);
    SlowStep(n + 1, 40495582);
    SlowStep(n + 2, 56693814);
    SlowStep(n + 3, 79371339);
  }

  lemma FastStep(n: nat, x: nat)
    requires FastestClimb(n) == x
    ensures FastestClimb(n + 1) == Clamped(Raised(x, false))
  {
  }

  lemma FastEarly(n: nat)
    requires FastestClimb(n) == 1000000
    ensures FastestClimb(n + 5) == 5378240
  {
    FastStep(n, 1000000);
    FastStep(n + 1, 1400000);
    FastStep(n + 2, 1960000);
    FastStep(n + 3, 2744000);
    FastStep(n + 4, 3841600);
  }

  lemma FastMiddle(n: nat)
    requires FastestClimb(n) == 5378240
    ensures FastestClimb(n + 5) == 28925464
  {
    FastStep(n, 5378240);
    FastStep(n + 1, 7529536);
    FastStep(n + 2, 10541350);
    FastStep(n + 3, 14757890);
    FastStep(n + 4, 20661046);
  }

  lemma FastLate(n: nat)
    requires FastestClimb(n) == 28925464
    ensures FastestClimb(n + 3) == 79371471
  {
    FastStep(n, 28925464);
    FastStep(n + 1, 40495649);
    FastStep(n + 2, 56693908);
  }

  lemma SlowTable(n: nat)
    requires n == 0
    ensures SlowestClimb(n + 14) == MAX
  {
    SlowEarly(n);
    SlowMiddle(n + 5);
    SlowLate(n + 10);
  }

  lemma FastTable(n: nat)
    requires n == 0
    ensures FastestClimb(n + 13) < MAX
  {
    FastEarly(n);
    FastMiddle(n + 5);
    FastLate(n + 10);
  }

  lemma {:induction false} ClimbStays(k: nat)
    ensures SlowestClimb(k + 14) == MAX
  {
    if k == 0 {
      SlowTable(k);
    } else {
      ClimbStays(k - 1);
      SlowStep(k + 13, MAX);
    }
  }

  lemma AtCeiling(x: nat, lows: seq<bool>, k: nat)
    requires MIN <= x <= MAX && |lows| == k + 14
    ensures CleanWindows(x, lows) == MAX
  {
    CleanBetween(x, lows);
    ClimbStays(k);
  }

  lemma BelowCeiling(lows: seq<bool>, k: nat)
    requires k == 0 && |lows| == k + 13
    ensures CleanWindows(MIN, lows) < MAX
  {
    CleanBetween(MIN, lows);
    FastTable(k);
  }

  /** Fourteen clean windows reach the ceiling from anywhere; from the floor thirteen never do. */
  lemma CeilingIn14(x: nat, lows: seq<bool>)
    requires MIN <= x <= MAX
    ensures |lows| >= 14 ==> CleanWindows(x, lows) == MAX
    ensures x == MIN && |lows| == 13 ==> CleanWindows(x, lows) < MAX
  {
    if |lows| >= 14 {
      AtCeiling(x, lows, |lows| - 14);
    } else if |lows| == 13 {
      BelowCeiling(lows, |lows| - 13);
    }
  }

  /** Seven congested windows reach the floor from anywhere; from the ceiling six never do. */
  lemma FloorIn7(x: nat)
    requires MIN <= x <= MAX
    ensures CongestedWindows(x, 7) == MIN
    ensures x == MAX ==> CongestedWindows(x, 6) > MIN
  {
    assert CongestedWindows(x, 1) <= 50_000_000;
    assert CongestedWindows(x, 2) <= 25_000_000;
    assert CongestedWindows(x, 3) <= 12_500_000;
    assert CongestedWindows(x, 4) <= 6_250_000;
    assert CongestedWindows(x, 5) <= 3_125_000;
    assert CongestedWindows(x, 6) <= 1_562_500;
    if x == MAX {
      assert CongestedWindows(x, 1) == 50_000_000;
      assert CongestedWindows(x, 3) == 12_500_000;
      assert CongestedWindows(x, 5) == 3_125_000;
    }
  }

  /** The roundings that count: those of each window's last frame. */
  function Roundings(fs: seq<Frame>): seq<bool> {
    if |fs| < WINDOW then [] else Roundings(fs[..|fs| - WINDOW]) + [fs[|fs| - 1].low]
  }

  lemma CleanWindow(l: Log, fs: seq<Frame>)
    requires l.rate.total == l.rate.slow == 0 && MIN <= l.rate.current <= MAX
    requires |fs| == WINDOW && forall f | f in fs :: !f.slow
    ensures Fold(Turn, l, fs).rate == Rate(Decided(l.rate.current, 0, fs[WINDOW - 1].low), 0, 0)
  {
    NoneSlow(fs);
    WindowDecides(l, fs);
  }

  lemma OneMoreWindow(x: nat, lows: seq<bool>, low: bool)
    ensures CleanWindows(x, lows + [low]) == Decided(CleanWindows(x, lows), 0, low)
  {
    assert (lows + [low])[..|lows|] == lows;
  }

  /** Runs of clean frames are runs of clean windows. */
  lemma {:induction false} CleanFrames(l: Log, fs: seq<Frame>)
    requires l.rate.total == l.rate.slow == 0 && MIN <= l.rate.current <= MAX
    requires |fs| % WINDOW == 0 && forall f | f in fs :: !f.slow
    ensures |Roundings(fs)| == |fs| / WINDOW
    ensures Fold(Turn, l, fs).rate == Rate(CleanWindows(l.rate.current, Roundings(fs)), 0, 0)
  {
    if fs != [] {
      var n := |fs| - WINDOW;
      var first, last := fs[..n], fs[n..];
      assert fs == first + last && last[WINDOW - 1] == fs[|fs| - 1];
      CleanFrames(l, first);
      FoldConcat(Turn, l, first, last);
      CleanBetween(l.rate.current, Roundings(first));
      AtLeastMin(l.rate.current, Roundings(first));
      CleanWindow(Fold(Turn, l, first), last);
      OneMoreWindow(l.rate.current, Roundings(first), last[WINDOW - 1].low);
    }
  }

  lemma {:induction false} AtLeastMin(x: nat, lows: seq<bool>)
    requires MIN <= x
    ensures CleanWindows(x, lows) >= MIN
  {
    if lows != [] { AtLeastMin(x, lows[..|lows| - 1]); }
  }

  lemma {:induction false} NoneSlow(fs: seq<Frame>)
    requires forall f | f in fs :: !f.slow
    ensures SlowIn(fs) == 0
  {
    if fs != [] {
      assert fs[|fs| - 1] in fs;
      NoneSlow(fs[..|fs| - 1]);
    }
  }

  // ---- Any history ----

  predicate AllClean(fs: seq<Frame>) {
    forall f | f in fs :: !f.slow
  }

  /** The frames that complete the window a history has begun. */
  function Missing(n: nat): (k: nat)
    ensures k < WINDOW && (n + k) % WINDOW == 0
  {
    var r := n % WINDOW;
    assert n == n / WINDOW * WINDOW + r;
    if r == 0 then 0 else
      assert n + (WINDOW - r) == (n / WINDOW + 1) * WINDOW;
      WINDOW - r
  }

  lemma AtDecision(fs: seq<Frame>)
    requires |fs| % WINDOW == 0
    ensures var l := RunOf(fs); Good(l) && l.rate.total == 0 && l.rate.slow == 0
  {
    RunInvariant(fs);
    assert fs[|fs|..] == [];
  }

  /** A history and the first of the frames after it, up to the next decision. */
  lemma Completed(before: seq<Frame>, fs: seq<Frame>)
    requires |fs| >= WINDOW
    ensures var k := Missing(|before|);
            && k < |fs| && before + fs == (before + fs[..k]) + fs[k..]
            && Good(RunOf(before + fs[..k])) && RunOf(before + fs[..k]).rate.total == 0
            && RunOf(before + fs[..k]).rate.slow == 0
            && RunOf(before + fs) == Fold(Turn, RunOf(before + fs[..k]), fs[k..])
  {
    var k := Missing(|before|);
    var start := before + fs[..k];
    assert before + fs == start + fs[k..];
    AtDecision(start);
    FoldConcat(Turn, Log(FRESH, []), start, fs[k..]);
  }

  /** Whole windows of frames, and fewer than fifteen frames behind them. */
  lemma RestChangesNothing(l: Log, windows: seq<Frame>, rest: seq<Frame>)
    requires Fold(Turn, l, windows).rate.total == Fold(Turn, l, windows).rate.slow == 0 && |rest| < WINDOW
    ensures Fold(Turn, l, windows + rest).rate.current == Fold(Turn, l, windows).rate.current
  {
    FoldConcat(Turn, l, windows, rest);
    WindowOpen(Fold(Turn, l, windows), rest);
  }

  lemma CleanFromDecision(l: Log, fs: seq<Frame>)
    requires l.rate.total == l.rate.slow == 0 && MIN <= l.rate.current <= MAX
    requires |fs| >= 14 * WINDOW && AllClean(fs)
    ensures Fold(Turn, l, fs).rate.current == MAX
  {
    var n := |fs| - |fs| % WINDOW;
    var windows, rest := fs[..n], fs[n..];
    CleanFrames(l, windows);
    CeilingIn14(l.rate.current, Roundings(windows));
    RestChangesNothing(l, windows, rest);
    assert fs == windows + rest;
  }

  /** 224 clean frames in a row bring the rate to its ceiling, whatever came before them. */
  lemma CleanRunReachesCeiling(before: seq<Frame>, clean: seq<Frame>)
    requires |clean| >= 15 * WINDOW - 1 && AllClean(clean)
    ensures RunOf(before + clean).rate.current == MAX
  {
    Completed(before, clean);
    var k := Missing(|before|);
    CleanFromDecision(RunOf(before + clean[..k]), clean[k..]);
  }

  lemma SpoiltWindow(l: Log, clean: seq<Frame>, low: bool)
    requires l.rate.total == l.rate.slow == 0 && MIN <= l.rate.current <= MAX
    requires |clean| == WINDOW - 1 && AllClean(clean)
    ensures Fold(Turn, l, [Frame(true, low)] + clean) == l
  {
    OneSlow(clean, low);
    WindowDecides(l, [Frame(true, low)] + clean);
  }

  /** Thirteen clean windows from the floor and fewer than fifteen frames behind them. */
  lemma ThirteenAndSome(l: Log, fs: seq<Frame>)
    requires l.rate == Rate(MIN, 0, 0) && 13 * WINDOW <= |fs| < 14 * WINDOW && AllClean(fs)
    ensures Fold(Turn, l, fs).rate.current < MAX
  {
    var windows, rest := fs[..13 * WINDOW], fs[13 * WINDOW..];
    CleanFrames(l, windows);
    CeilingIn14(MIN, Roundings(windows));
    RestChangesNothing(l, windows, rest);
    assert fs == windows + rest;
  }

  /** One frame less is not enough: the slow frame that opens a window at the floor spoils that window, and
      thirteen more windows stay below the ceiling. */
  lemma OneFrameLess(before: seq<Frame>, clean: seq<Frame>, low: bool)
    requires |before| % WINDOW == 0 && RunOf(before).rate.current == MIN
    requires |clean| == 15 * WINDOW - 2 && AllClean(clean)
    ensures RunOf(before + [Frame(true, low)] + clean).rate.current < MAX
  {
    var spoilt, others := [Frame(true, low)] + clean[..WINDOW - 1], clean[WINDOW - 1..];
    assert before + [Frame(true, low)] + clean == before + (spoilt + others);
    AtDecision(before);
    FoldConcat(Turn, Log(FRESH, []), before, spoilt + others);
    FoldConcat(Turn, RunOf(before), spoilt, others);
    SpoiltWindow(RunOf(before), clean[..WINDOW - 1], low);
    ThirteenAndSome(RunOf(before), others);
  }

  lemma OneSlow(fs: seq<Frame>, low: bool)
    requires AllClean(fs)
    ensures SlowIn([Frame(true, low)] + fs) == 1
    decreases |fs|
  {
    var all := [Frame(true, low)] + fs;
    if fs == [] {
      assert all[..|all| - 1] == [] && SlowIn([]) == 0;
    } else {
      assert all[..|all| - 1] == [Frame(true, low)] + fs[..|fs| - 1] && all[|all| - 1] == fs[|fs| - 1];
      assert fs[|fs| - 1] in fs;
      OneSlow(fs[..|fs| - 1], low);
    }
  }

  /** n windows with four or more slow frames each. */
  predicate Congested(fs: seq<Frame>, n: nat) {
    |fs| == n * WINDOW &&
    (n == 0 || (SlowIn(fs[|fs| - WINDOW..]) >= 4 && Congested(fs[..|fs| - WINDOW], n - 1)))
  }

  lemma {:induction false} CongestedInRange(x: nat, n: nat)
    requires MIN <= x <= MAX
    ensures MIN <= CongestedWindows(x, n) <= MAX
    ensures n >= 7 ==> CongestedWindows(x, n) == MIN
  {
    if n > 0 {
      CongestedInRange(x, n - 1);
      if n == 7 { FloorIn7(x); }
    }
  }

  lemma CongestedWindow(l: Log, fs: seq<Frame>)
    requires l.rate.total == l.rate.slow == 0 && MIN <= l.rate.current <= MAX
    requires |fs| == WINDOW && SlowIn(fs) >= 4
    ensures Fold(Turn, l, fs).rate == Rate(Decided(l.rate.current, 4, false), 0, 0)
  {
    WindowDecides(l, fs);
  }

  lemma {:induction false} CongestedFrames(l: Log, fs: seq<Frame>, n: nat)
    requires l.rate.total == l.rate.slow == 0 && MIN <= l.rate.current <= MAX && Congested(fs, n)
    ensures Fold(Turn, l, fs).rate == Rate(CongestedWindows(l.rate.current, n), 0, 0)
  {
    if n > 0 {
      var first, last := fs[..|fs| - WINDOW], fs[|fs| - WINDOW..];
      CongestedFrames(l, first, n - 1);
      CongestedInRange(l.rate.current, n - 1);
      CongestedWindow(Fold(Turn, l, first), last);
      assert fs == first + last;
      FoldConcat(Turn, l, first, last);
    }
  }

  predicate CongestedAt(fs: seq<Frame>, i: nat)
    requires i + WINDOW <= |fs|
  {
    SlowIn(fs[i..i + WINDOW]) >= 4
  }

  /** Four or more slow frames among any fifteen in a row. */
  predicate CongestedThroughout(fs: seq<Frame>) {
    forall i: nat | i + WINDOW <= |fs| :: CongestedAt(fs, i)
  }

  lemma OneMoreWindowCongested(fs: seq<Frame>, last: seq<Frame>, n: nat)
    requires Congested(fs, n) && |last| == WINDOW && SlowIn(last) >= 4
    ensures Congested(fs + last, n + 1)
  {
    var more := fs + last;
    assert more[|more| - WINDOW..] == last && more[..|more| - WINDOW] == fs;
  }

  lemma {:induction false} ThroughoutIsCongested(fs: seq<Frame>, n: nat)
    requires CongestedThroughout(fs) && n * WINDOW <= |fs|
    ensures Congested(fs[..n * WINDOW], n)
  {
    if n > 0 {
      var m := (n - 1) * WINDOW;
      ThroughoutIsCongested(fs, n - 1);
      assert CongestedAt(fs, m);
      OneMoreWindowCongested(fs[..m], fs[m..m + WINDOW], n - 1);
      assert fs[..n * WINDOW] == fs[..m] + fs[m..m + WINDOW];
    }
  }

  lemma ThroughoutBehind(fs: seq<Frame>, k: nat)
    requires CongestedThroughout(fs) && k <= |fs|
    ensures CongestedThroughout(fs[k..])
  {
    var rest := fs[k..];
    forall i: nat | i + WINDOW <= |rest| ensures CongestedAt(rest, i) {
      assert rest[i..i + WINDOW] == fs[k + i..k + i + WINDOW] && CongestedAt(fs, k + i);
    }
  }

  lemma CongestedFromDecision(l: Log, fs: seq<Frame>)
    requires l.rate.total == l.rate.slow == 0 && MIN <= l.rate.current <= MAX
    requires |fs| >= 7 * WINDOW && CongestedThroughout(fs)
    ensures Fold(Turn, l, fs).rate.current == MIN
  {
    var n := |fs| / WINDOW;
    var windows, rest := fs[..n * WINDOW], fs[n * WINDOW..];
    ThroughoutIsCongested(fs, n);
    CongestedFrames(l, windows, n);
    CongestedInRange(l.rate.current, n);
    RestChangesNothing(l, windows, rest);
    assert fs == windows + rest;
  }

  /** 119 frames with four or more slow ones among any fifteen in a row bring the rate to its floor,
      whatever came before them. */
  lemma CongestedRunReachesFloor(before: seq<Frame>, congested: seq<Frame>)
    requires |congested| >= 8 * WINDOW - 1 && CongestedThroughout(congested)
    ensures RunOf(before + congested).rate.current == MIN
  {
    Completed(before, congested);
    var k := Missing(|before|);
    ThroughoutBehind(congested, k);
    CongestedFromDecision(RunOf(before + congested[..k]), congested[k..]);
  }

  // ---- The encoder's rate ----

  /** A frame sent, or a change of encoder; `follows` says whether the new one is OpenH264, the only one whose
      rate is changed later. All are opened at the start rate. */
  datatype Event = Sent(frame: Frame) | Opened(follows: bool)

  /** `inUse` is the rate of the encoder opened last. */
  datatype Tracked = Tracked(log: Log, follows: bool, inUse: nat)

  function Track(t: Tracked, ev: Event): Tracked {
    match ev
    case Opened(follows) => Tracked(t.log, follows, START)
    case Sent(f) =>
      var m := Turn(t.log, f);
      t.(log := m, inUse := if |m.announced| > |t.log.announced| && t.follows then m.rate.current else t.inUse)
  }

  /** A stream that starts with OpenH264 (`follows`) or with another encoder. */
  function TrackRun(follows: bool, evs: seq<Event>): Tracked {
    Fold(Track, Tracked(Log(FRESH, []), follows, START), evs)
  }

  /** A rate has been announced since the last encoder was opened. */
  predicate AnnouncedSince(follows: bool, evs: seq<Event>) {
    evs != [] &&
    match evs[|evs| - 1]
    case Opened(_) => false
    case Sent(f) =>
      var before := TrackRun(follows, evs[..|evs| - 1]).log;
      AnnouncedSince(follows, evs[..|evs| - 1]) || |Turn(before, f).announced| > |before.announced|
  }

  /** Whether OpenH264 is in use after a run. */
  function InUse(follows: bool, evs: seq<Event>): bool {
    if evs == [] then follows
    else match evs[|evs| - 1]
         case Opened(f) => f
         case Sent(_) => InUse(follows, evs[..|evs| - 1])
  }

  /** The encoder works at the rate last announced to the browser exactly when that is the start rate, or
      OpenH264 is in use and a rate was announced since it was opened. */
  lemma {:induction false} TargetExactly(follows: bool, evs: seq<Event>)
    ensures var t := TrackRun(follows, evs);
            && MIN <= t.log.rate.current <= MAX && LastAnnounced(t.log) == t.log.rate.current
            && t.follows == InUse(follows, evs)
            && t.inUse == (if t.follows && AnnouncedSince(follows, evs) then t.log.rate.current else START)
            && (t.inUse == LastAnnounced(t.log) <==>
                LastAnnounced(t.log) == START || (InUse(follows, evs) && AnnouncedSince(follows, evs)))
  {
    if evs != [] {
      var before := evs[..|evs| - 1];
      TargetExactly(follows, before);
      match evs[|evs| - 1]
      case Opened(_) =>
      case Sent(f) => TurnKeepsGood(TrackRun(follows, before).log, f);
    }
  }

  /** Fifteen clean frames through an encoder other than OpenH264: 28 Mbps are announced, 20 are in use. */
  lemma OtherEncodersStay(fs: seq<Frame>)
    requires |fs| == WINDOW && AllClean(fs) && !fs[WINDOW - 1].low
    ensures var t := TrackRun(false, seq(WINDOW, i requires 0 <= i < WINDOW => Sent(fs[i])));
            LastAnnounced(t.log) == 28_000_000 && t.inUse == START
  {
    var evs := seq(WINDOW, i requires 0 <= i < WINDOW => Sent(fs[i]));
    NeverOpened(false, fs, evs);
    NoneSlow(fs);
    WindowDecides(Log(FRESH, []), fs);
    TargetExactly(false, evs);
  }

  /** Without an encoder opened in between, the log is that of the frames alone. */
  lemma {:induction false} NeverOpened(follows: bool, fs: seq<Frame>, evs: seq<Event>)
    requires |evs| == |fs| && forall i | 0 <= i < |fs| :: evs[i] == Sent(fs[i])
    ensures TrackRun(follows, evs).log == RunOf(fs) && InUse(follows, evs) == follows
  {
    if fs != [] {
      NeverOpened(follows, fs[..|fs| - 1], evs[..|evs| - 1]);
    }
  }
}
