/** The playback controller (playbackController.js): one tick counter, one
    timer handle and a fixed, ordered list of views. Each operation is first
    given as a function on a snapshot of the controller's state, the
    properties are proved of those functions, and class `Controller` below
    performs the operations in place and is proved to agree with them. */
module PlaybackController {
  import opened Wrappers
  import opened ViewCalls
  import Timers

  /** The two things the controller writes on the control surface: the tick
      shown in its "n of maxTicks" text, and whether it offers pause (playing)
      or play (stopped). */
  datatype Surface = Surface(shownTick: nat, playing: bool)

  /** What is fixed at construction: how many views are registered and the tick bound. */
  datatype Config = Config(nViews: nat, maxTicks: nat)

  datatype Snapshot = Snapshot(
    nTick: nat,             // this.nTick
    timer: Option<nat>,     // this.timer, the handle of the interval it started last
    clock: Timers.Clock,    // every interval timer still running
    surface: Surface,       // the control surface's display
    trace: seq<Call>)       // every call made on the views so far

  /** A new controller: counter 0, no timer, no call made on any view. The
      control surface shows tick 0 and offers play, as its own constructor
      leaves it. */
  function Initial(): Snapshot
  {
    Snapshot(0, None, Timers.Idle, Surface(0, false), [])
  }

  /** `play`: show Playing and start a new repeating timer, with no check
      for one that is already running. */
  function AfterPlay(s: Snapshot): Snapshot
    requires Timers.Valid(s.clock)
  {
    var started := Timers.Start(s.clock);
    s.(surface := s.surface.(playing := true), timer := Some(started.0), clock := started.1)
  }

  /** `pause`: show Stopped, stop the current timer if there is one, forget it. */
  function AfterPause(s: Snapshot): Snapshot
    requires Timers.Valid(s.clock)
  {
    s.(surface := s.surface.(playing := false),
       clock := if s.timer.Some? then Timers.Stop(s.clock, s.timer.value) else s.clock,
       timer := None)
  }

  /** `step`: show the counter; at the bound pause and stop there, otherwise
      tick every view with the counter, in list order, then count one up. */
  function AfterStep(cfg: Config, s: Snapshot): Snapshot
    requires Timers.Valid(s.clock)
  {
    var shown := s.(surface := s.surface.(shownTick := s.nTick));
    if s.nTick >= cfg.maxTicks then AfterPause(shown)
    else shown.(trace := s.trace + TickAll(cfg.nViews, s.nTick), nTick := s.nTick + 1)
  }

  /** `reset`: pause, set the counter to 0, show 0, reset every view in list order. */
  function AfterReset(cfg: Config, s: Snapshot): Snapshot
    requires Timers.Valid(s.clock)
  {
    var p := AfterPause(s);
    p.(nTick := 0, surface := p.surface.(shownTick := 0), trace := p.trace + ResetAll(cfg.nViews))
  }

  /** A firing of the live timer `id`: its callback is `() => this.step()`. */
  function AfterFire(cfg: Config, s: Snapshot, id: nat): Snapshot
    requires Timers.Valid(s.clock) && id in s.clock.live
  {
    AfterStep(cfg, s)
  }

  /** `n` consecutive steps. */
  function AfterSteps(cfg: Config, s: Snapshot, n: nat): Snapshot
    requires Timers.Valid(s.clock)
    decreases n
  {
    if n == 0 then s
    else
      var s' := AfterStep(cfg, s);
      assert Timers.Valid(s'.clock);
      AfterSteps(cfg, s', n - 1)
  }

  /** The controller's invariant: the counter stays within 0 .. maxTicks; the
      surface offers pause exactly while a timer handle is held, and that
      timer is running; the surface shows the counter or the counter minus
      one; no view was ever called at a tick `maxTicks` or beyond; and since
      the last reset the views received exactly the fan-outs for ticks
      0 .. nTick - 1. */
  ghost predicate Inv(cfg: Config, s: Snapshot)
  {
    && s.nTick <= cfg.maxTicks
    && Timers.Valid(s.clock)
    && (s.timer.Some? ==> s.timer.value in s.clock.live)
    && (s.surface.playing <==> s.timer.Some?)
    && s.surface.shownTick <= s.nTick <= s.surface.shownTick + 1
    && CallsWithin(s.trace, cfg.nViews, cfg.maxTicks)
    && SinceReset(s.trace) == Rounds(cfg.nViews, s.nTick)
  }

  lemma InitialInv(cfg: Config)
    ensures Inv(cfg, Initial())
    ensures Initial().nTick == 0 && Initial().timer == None && Initial().clock.live == {}
  {
  }

  /** `play` shows Playing and holds a new running timer; it leaves the
      counter and the views alone and does not stop a timer already running,
      so play after pause resumes from the paused tick. */
  lemma {:induction false} PlayInv(cfg: Config, s: Snapshot)
    requires Inv(cfg, s)
    ensures Inv(cfg, AfterPlay(s))
    ensures AfterPlay(s).surface.playing && AfterPlay(s).timer.Some? && AfterPlay(s).timer.value !in s.clock.live
    ensures AfterPlay(s).clock.live == s.clock.live + {AfterPlay(s).timer.value}
    ensures AfterPlay(s).nTick == s.nTick && AfterPlay(s).trace == s.trace
  {
  }

  /** `pause` shows Stopped, stops the timer it holds (if any) and holds none;
      nothing else changes. */
  lemma {:induction false} PauseInv(cfg: Config, s: Snapshot)
    requires Inv(cfg, s)
    ensures Inv(cfg, AfterPause(s))
    ensures !AfterPause(s).surface.playing && AfterPause(s).timer == None
    ensures AfterPause(s).clock.live == if s.timer.Some? then s.clock.live - {s.timer.value} else s.clock.live
    ensures AfterPause(s).nTick == s.nTick && AfterPause(s).trace == s.trace
    ensures AfterPause(s).surface.shownTick == s.surface.shownTick
  {
  }

  /** Below the bound, `step` shows the counter, gives every registered view
      exactly the tick at the counter (and no reset), then counts one up. */
  lemma {:induction false} StepBelowBound(cfg: Config, s: Snapshot, v: nat)
    requires Inv(cfg, s) && s.nTick < cfg.maxTicks
    ensures Inv(cfg, AfterStep(cfg, s))
    ensures AfterStep(cfg, s).surface.shownTick == s.nTick
    ensures AfterStep(cfg, s).nTick == s.nTick + 1
    ensures TicksTo(AfterStep(cfg, s).trace, v) == TicksTo(s.trace, v) + (if v < cfg.nViews then [s.nTick] else [])
    ensures ResetsTo(AfterStep(cfg, s).trace, v) == ResetsTo(s.trace, v)
    ensures AfterStep(cfg, s).timer == s.timer && AfterStep(cfg, s).surface.playing == s.surface.playing
  {
    var s' := AfterStep(cfg, s);
    assert s'.trace == s.trace + TickAll(cfg.nViews, s.nTick) && s'.nTick == s.nTick + 1;
    TickAllHasNoResets(cfg.nViews, s.nTick);
    SinceResetNoResets(s.trace, TickAll(cfg.nViews, s.nTick));
    assert SinceReset(s'.trace) == Rounds(cfg.nViews, s'.nTick);
    CallsWithinTickAll(s.trace, cfg.nViews, s.nTick, cfg.maxTicks);
    assert Inv(cfg, s');
    TicksToAppend(s.trace, TickAll(cfg.nViews, s.nTick), v);
    TicksToTickAll(cfg.nViews, s.nTick, v);
    ResetsToAppend(s.trace, TickAll(cfg.nViews, s.nTick), v);
    ResetsToTickAll(cfg.nViews, s.nTick, v);
  }

  /** At the bound, `step` shows the counter and pauses: no view is called,
      the counter stays, the timer is stopped and forgotten. */
  lemma {:induction false} StepAtBound(cfg: Config, s: Snapshot)
    requires Inv(cfg, s) && s.nTick >= cfg.maxTicks
    ensures Inv(cfg, AfterStep(cfg, s))
    ensures AfterStep(cfg, s).surface == Surface(s.nTick, false)
    ensures AfterStep(cfg, s).nTick == s.nTick && AfterStep(cfg, s).trace == s.trace
    ensures AfterStep(cfg, s).timer == None
    ensures s.timer.Some? ==> s.timer.value !in AfterStep(cfg, s).clock.live
  {
  }

  lemma {:induction false} StepInv(cfg: Config, s: Snapshot)
    requires Inv(cfg, s)
    ensures Inv(cfg, AfterStep(cfg, s))
  {
    if s.nTick < cfg.maxTicks {
      StepBelowBound(cfg, s, 0);
    } else {
      StepAtBound(cfg, s);
    }
  }

  /** `reset` leaves the controller stopped with no timer, counter 0 and the
      surface showing 0, and gives every registered view exactly one reset
      and no tick. */
  lemma {:induction false} ResetEffect(cfg: Config, s: Snapshot, v: nat)
    requires Inv(cfg, s)
    ensures Inv(cfg, AfterReset(cfg, s))
    ensures AfterReset(cfg, s).nTick == 0 && AfterReset(cfg, s).surface == Surface(0, false) && AfterReset(cfg, s).timer == None
    ensures AfterReset(cfg, s).clock.live == if s.timer.Some? then s.clock.live - {s.timer.value} else s.clock.live
    ensures TicksTo(AfterReset(cfg, s).trace, v) == TicksTo(s.trace, v)
    ensures ResetsTo(AfterReset(cfg, s).trace, v) == ResetsTo(s.trace, v) + (if v < cfg.nViews then 1 else 0)
  {
    var p := AfterPause(s);
    PauseInv(cfg, s);
    SinceResetAll(p.trace, cfg.nViews);
    if cfg.nViews == 0 {
      RoundsOfNoViews(s.nTick);
    }
    CallsWithinResetAll(p.trace, cfg.nViews, cfg.maxTicks);
    TicksToAppend(p.trace, ResetAll(cfg.nViews), v);
    ResetsToAppend(p.trace, ResetAll(cfg.nViews), v);
    ResetAllCalls(cfg.nViews, v);
  }

  /** Resetting twice leaves the controller as resetting once does; the only
      difference is the second round of reset calls on the views. */
  lemma {:induction false} ResetTwice(cfg: Config, s: Snapshot)
    requires Inv(cfg, s)
    ensures Timers.Valid(AfterReset(cfg, s).clock)
    ensures AfterReset(cfg, AfterReset(cfg, s)) == AfterReset(cfg, s).(trace := AfterReset(cfg, s).trace + ResetAll(cfg.nViews))
  {
    ResetEffect(cfg, s, 0);
  }

  /** Since the last reset (or construction), every registered view has
      received tick(0), ..., tick(nTick - 1), once each, in increasing order. */
  lemma {:induction false} ViewsSeeSequentialTicks(cfg: Config, s: Snapshot, v: nat)
    requires Inv(cfg, s) && v < cfg.nViews
    ensures TicksTo(SinceReset(s.trace), v) == Range(s.nTick)
  {
    RoundsPerView(cfg.nViews, s.nTick, v);
  }

  /** From a reset controller, `n <= maxTicks` steps leave the counter at `n`
      and every view has received ticks 0 .. n - 1 in order since the reset. */
  lemma {:induction false} StepsFromReset(cfg: Config, s: Snapshot, n: nat, v: nat)
    requires Inv(cfg, s) && n <= cfg.maxTicks && v < cfg.nViews
    ensures Timers.Valid(AfterReset(cfg, s).clock)
    ensures Inv(cfg, AfterSteps(cfg, AfterReset(cfg, s), n))
    ensures AfterSteps(cfg, AfterReset(cfg, s), n).nTick == n
    ensures TicksTo(SinceReset(AfterSteps(cfg, AfterReset(cfg, s), n).trace), v) == Range(n)
  {
    ResetEffect(cfg, s, v);
    StepsCount(cfg, AfterReset(cfg, s), n);
    ViewsSeeSequentialTicks(cfg, AfterSteps(cfg, AfterReset(cfg, s), n), v);
  }

  lemma {:induction false} StepsCount(cfg: Config, s: Snapshot, n: nat)
    requires Inv(cfg, s) && s.nTick + n <= cfg.maxTicks
    ensures Inv(cfg, AfterSteps(cfg, s, n)) && AfterSteps(cfg, s, n).nTick == s.nTick + n
    decreases n
  {
    if n > 0 {
      StepBelowBound(cfg, s, 0);
      StepsCount(cfg, AfterStep(cfg, s), n - 1);
    }
  }

  /** Stepping a reset controller `maxTicks + 1` times ends stopped, with no
      timer, the counter at the bound and the surface showing it; by the
      invariant no view was ever ticked at `maxTicks`. */
  lemma {:induction false} StepsReachBound(cfg: Config, s: Snapshot)
    requires Inv(cfg, s)
    ensures Timers.Valid(AfterReset(cfg, s).clock)
    ensures Inv(cfg, AfterSteps(cfg, AfterReset(cfg, s), cfg.maxTicks + 1))
    ensures AfterSteps(cfg, AfterReset(cfg, s), cfg.maxTicks + 1).surface == Surface(cfg.maxTicks, false)
    ensures AfterSteps(cfg, AfterReset(cfg, s), cfg.maxTicks + 1).timer == None
    ensures AfterSteps(cfg, AfterReset(cfg, s), cfg.maxTicks + 1).nTick == cfg.maxTicks
  {
    ResetEffect(cfg, s, 0);
    var r := AfterReset(cfg, s);
    StepsCount(cfg, r, cfg.maxTicks);
    StepsSplit(cfg, r, cfg.maxTicks);
    StepAtBound(cfg, AfterSteps(cfg, r, cfg.maxTicks));
  }

  lemma {:induction false} StepsSplit(cfg: Config, s: Snapshot, n: nat)
    requires Inv(cfg, s)
    ensures Timers.Valid(AfterSteps(cfg, s, n).clock)
    ensures AfterSteps(cfg, s, n + 1) == AfterStep(cfg, AfterSteps(cfg, s, n))
    decreases n
  {
    StepInv(cfg, s);
    if n > 0 {
      StepsSplit(cfg, AfterStep(cfg, s), n - 1);
    }
  }

  /** Pause then play resumes from the paused tick: the next firing ticks
      the views at the counter where the pause left it. */
  lemma {:induction false} PauseThenPlayResumes(cfg: Config, s: Snapshot, v: nat)
    requires Inv(cfg, s) && s.nTick < cfg.maxTicks && v < cfg.nViews
    ensures Inv(cfg, AfterPlay(AfterPause(s)))
    ensures AfterPlay(AfterPause(s)).nTick == s.nTick
    ensures AfterPlay(AfterPause(s)).timer.Some? && AfterPlay(AfterPause(s)).timer.value in AfterPlay(AfterPause(s)).clock.live
    ensures TicksTo(AfterFire(cfg, AfterPlay(AfterPause(s)), AfterPlay(AfterPause(s)).timer.value).trace, v) == TicksTo(s.trace, v) + [s.nTick]
  {
    PauseInv(cfg, s);
    PlayInv(cfg, AfterPause(s));
    StepBelowBound(cfg, AfterPlay(AfterPause(s)), v);
  }

  /** Play twice leaves two timers running. Pause then stops only the second:
      the first keeps firing, and each of its firings still steps the
      controller, so the views keep being ticked while the surface shows
      Stopped. */
  lemma {:induction false} DoublePlayLeaksTimer(cfg: Config, s: Snapshot, v: nat)
    requires Inv(cfg, s) && s.timer.None? && s.nTick < cfg.maxTicks && v < cfg.nViews
    ensures Inv(cfg, AfterPlay(s)) && Inv(cfg, AfterPlay(AfterPlay(s))) && Inv(cfg, AfterPause(AfterPlay(AfterPlay(s))))
    ensures |AfterPlay(AfterPlay(s)).clock.live| == |s.clock.live| + 2
    ensures AfterPlay(s).timer.value in AfterPause(AfterPlay(AfterPlay(s))).clock.live
    ensures !AfterPause(AfterPlay(AfterPlay(s))).surface.playing
    ensures TicksTo(AfterFire(cfg, AfterPause(AfterPlay(AfterPlay(s))), AfterPlay(s).timer.value).trace, v) == TicksTo(s.trace, v) + [s.nTick]
  {
    var p1 := AfterPlay(s);
    PlayInv(cfg, s);
    PlayInv(cfg, p1);
    var p2 := AfterPlay(p1);
    assert |p2.clock.live| == |p1.clock.live| + 1;
    PauseInv(cfg, p2);
    StepBelowBound(cfg, AfterPause(p2), v);
  }

  /** The controller owns no timer beyond the one it holds. */
  ghost predicate OwnsOnlyCurrent(s: Snapshot)
  {
    s.clock.live == if s.timer.Some? then {s.timer.value} else {}
  }

  /** `play` guarded against a running timer: what the unguarded `play` was
      evidently meant to be. */
  function PlayGuarded(s: Snapshot): Snapshot
    requires Timers.Valid(s.clock)
  {
    if s.timer.Some? then s else AfterPlay(s)
  }

  /** With the guard, every operation keeps at most one timer running, the
      one the controller holds. */
  lemma {:induction false} GuardedKeepsOneTimer(cfg: Config, s: Snapshot)
    requires Inv(cfg, s) && OwnsOnlyCurrent(s)
    ensures Inv(cfg, PlayGuarded(s)) && OwnsOnlyCurrent(PlayGuarded(s))
    ensures Inv(cfg, AfterStep(cfg, s)) && OwnsOnlyCurrent(AfterStep(cfg, s))
    ensures Inv(cfg, AfterPause(s)) && OwnsOnlyCurrent(AfterPause(s))
    ensures Inv(cfg, AfterReset(cfg, s)) && OwnsOnlyCurrent(AfterReset(cfg, s))
    ensures |PlayGuarded(PlayGuarded(s)).clock.live| <= 1
  {
    PlayInv(cfg, s);
    StepInv(cfg, s);
    PauseInv(cfg, s);
    ResetEffect(cfg, s, 0);
  }

  /** Without the guard, a second `play` breaks that: two timers run. */
  lemma {:induction false} UnguardedPlayOwnsTwo(cfg: Config, s: Snapshot)
    requires Inv(cfg, s) && OwnsOnlyCurrent(s) && s.timer.Some?
    ensures !OwnsOnlyCurrent(AfterPlay(s))
  {
    PlayInv(cfg, s);
    assert s.timer.value in AfterPlay(s).clock.live;
  }

  /** The controller of playbackController.js. `views` is represented by
      their number; the calls made on them are appended to `trace`. */
  class Controller {
    const nViews: nat
    const interval: nat
    const maxTicks: nat
    var nTick: nat
    var timer: Option<nat>
    var clock: Timers.Clock
    var shownTick: nat
    var playing: bool
    var trace: seq<Call>

    function State(): Snapshot
      reads this
    {
      Snapshot(nTick, timer, clock, Surface(shownTick, playing), trace)
    }

    function Cfg(): Config
    {
      Config(nViews, maxTicks)
    }

    ghost predicate Valid()
      reads this
    {
      Inv(Cfg(), State())
    }

    constructor (nViews: nat, interval: nat, maxTicks: nat)
      ensures Valid() && State() == Initial()
      ensures this.nViews == nViews && this.interval == interval && this.maxTicks == maxTicks
    {
      this.nViews := nViews;
      this.interval := interval;
      this.maxTicks := maxTicks;
      timer := None;
      nTick := 0;
      clock := Timers.Idle;
      shownTick, playing := 0, false;
      trace := [];
      InitialInv(Config(nViews, maxTicks));
    }

    method Play()
      requires Valid()
      modifies this
      ensures Valid() && State() == AfterPlay(old(State()))
    {
      PlayInv(Cfg(), State());
      playing := true;
      var started := Timers.Start(clock);
      timer := Some(started.0);
      clock := started.1;
    }

    method Pause()
      requires Timers.Valid(clock)
      modifies this
      ensures State() == AfterPause(old(State()))
    {
      playing := false;
      if timer.Some? {
        clock := Timers.Stop(clock, timer.value);
      }
      timer := None;
    }

    method Step()
      requires Valid()
      modifies this
      ensures Valid() && State() == AfterStep(Cfg(), old(State()))
    {
      StepInv(Cfg(), State());
      shownTick := nTick;
      if nTick >= maxTicks {
        Pause();
        return;
      }
      var i := 0;
      while i < nViews
        invariant 0 <= i <= nViews
        invariant trace == old(trace) + TickAll(i, nTick)
        invariant nTick == old(nTick) && shownTick == old(nTick)
        invariant timer == old(timer) && clock == old(clock) && playing == old(playing)
      {
        trace := trace + [Tick(i, nTick)];
        i := i + 1;
      }
      nTick := nTick + 1;
    }

    method Reset()
      requires Valid()
      modifies this
      ensures Valid() && State() == AfterReset(Cfg(), old(State()))
    {
      ResetEffect(Cfg(), State(), 0);
      Pause();
      nTick := 0;
      shownTick := 0;
      var i := 0;
      while i < nViews
        invariant 0 <= i <= nViews
        invariant trace == old(trace) + ResetAll(i)
        invariant nTick == 0 && shownTick == 0 && timer == None && !playing
        invariant clock == AfterPause(old(State())).clock
      {
        trace := trace + [Call.Reset(i)];
        i := i + 1;
      }
    }

    /** The running timer `id` fires. */
    method Fire(id: nat)
      requires Valid() && id in clock.live
      modifies this
      ensures Valid() && State() == AfterFire(Cfg(), old(State()), id)
    {
      Step();
    }
  }

  /** The concrete run of a three-tick session with one view: play, then the
      timer fires three times (ticking 0, 1, 2) and a fourth time, which
      finds the bound, pauses and stops that timer, so it cannot fire again. */
  lemma ThreeTickSession()
    ensures var cfg := Config(1, 3);
            var s := AfterPlay(Initial());
            var s4 := AfterSteps(cfg, s, 4);
            && s.timer == Some(0)
            && s4.trace == [Tick(0, 0), Tick(0, 1), Tick(0, 2)]
            && s4.surface == Surface(3, false)
            && s4.timer == None && 0 !in s4.clock.live
  {
    var cfg := Config(1, 3);
    var s := AfterPlay(Initial());
    assert AfterSteps(cfg, s, 4) == AfterStep(cfg, AfterStep(cfg, AfterStep(cfg, AfterStep(cfg, s))));
  }
}
