/** The older playback variant (player.js): a tick counter and a timer
    handle, with no control surface. Its timer callback refers to a `timer`
    that is not in scope, and `pause`/`reset` stop the handle without
    checking that there is one; the model keeps both behaviours, as thrown
    errors. */
module Player {
  import opened Wrappers
  import opened ViewCalls
  import Timers

  /** What is fixed at construction: how many views are registered and the tick bound. */
  datatype Config = Config(nViews: nat, maxTicks: nat)

  /** The errors a call on the player can throw. */
  datatype Thrown =
    | ReferenceError   // a name that is not declared is read
    | TypeError        // a method is called on `null`

  datatype Snapshot = Snapshot(
    nTick: nat,             // this.nTick
    timer: Option<nat>,     // this.timer
    clock: Timers.Clock,    // every interval timer still running
    trace: seq<Call>)       // every call made on the views so far

  /** The state after a call, and what the call threw, if anything. */
  datatype Outcome = Outcome(state: Snapshot, thrown: Option<Thrown>)

  function Initial(): Snapshot
  {
    Snapshot(0, None, Timers.Idle, [])
  }

  /** `play`: start a new repeating timer and overwrite the handle with it. */
  function AfterPlay(s: Snapshot): Snapshot
    requires Timers.Valid(s.clock)
  {
    var started := Timers.Start(s.clock);
    s.(timer := Some(started.0), clock := started.1)
  }

  /** A firing of the live timer `id`. At the bound the callback evaluates
      `timer.stop()` with `timer` undeclared: it throws and nothing is
      stopped. Below it, every view is ticked with the counter (the body of
      `_updateViews`) and the counter goes up by one. */
  function AfterFire(cfg: Config, s: Snapshot, id: nat): Outcome
    requires Timers.Valid(s.clock) && id in s.clock.live
  {
    if s.nTick >= cfg.maxTicks then Outcome(s, Some(ReferenceError))
    else Outcome(s.(trace := s.trace + TickAll(cfg.nViews, s.nTick), nTick := s.nTick + 1), None)
  }

  /** `pause`: `this.timer.stop()`, which throws when no timer was ever started. */
  function AfterPause(s: Snapshot): Outcome
    requires Timers.Valid(s.clock)
  {
    if s.timer.None? then Outcome(s, Some(TypeError))
    else Outcome(s.(clock := Timers.Stop(s.clock, s.timer.value)), None)
  }

  /** `reset`: `this.timer.stop()`, then the counter back to 0. It throws,
      before the counter is touched, when no timer was ever started. */
  function AfterReset(s: Snapshot): Outcome
    requires Timers.Valid(s.clock)
  {
    if s.timer.None? then Outcome(s, Some(TypeError))
    else Outcome(s.(clock := Timers.Stop(s.clock, s.timer.value), nTick := 0), None)
  }

  /** The player's invariant: the counter stays within 0 .. maxTicks, the
      handle is one `d3.interval` handed out, no view was ever ticked at
      `maxTicks` or beyond, and no view was ever reset. */
  ghost predicate Inv(cfg: Config, s: Snapshot)
  {
    && s.nTick <= cfg.maxTicks
    && Timers.Valid(s.clock)
    && (s.timer.Some? ==> s.timer.value < s.clock.next)
    && CallsWithin(s.trace, cfg.nViews, cfg.maxTicks)
    && NoResets(s.trace)
  }

  lemma InitialInv(cfg: Config)
    ensures Inv(cfg, Initial())
    ensures Initial().nTick == 0 && Initial().timer == None
  {
  }

  /** Every operation keeps the invariant, whether it throws or not. */
  lemma {:induction false} InvPreserved(cfg: Config, s: Snapshot, id: nat)
    requires Inv(cfg, s)
    ensures Inv(cfg, AfterPlay(s))
    ensures id in s.clock.live ==> Inv(cfg, AfterFire(cfg, s, id).state)
    ensures Inv(cfg, AfterPause(s).state)
    ensures Inv(cfg, AfterReset(s).state)
  {
    if id in s.clock.live && s.nTick < cfg.maxTicks {
      CallsWithinTickAll(s.trace, cfg.nViews, s.nTick, cfg.maxTicks);
      TickAllHasNoResets(cfg.nViews, s.nTick);
      assert NoResets(s.trace + TickAll(cfg.nViews, s.nTick));
    }
  }

  /** Below the bound, a firing ticks every registered view with the same
      counter value, once, and then counts one up. */
  lemma {:induction false} FireBelowBound(cfg: Config, s: Snapshot, id: nat, v: nat)
    requires Inv(cfg, s) && id in s.clock.live && s.nTick < cfg.maxTicks
    ensures AfterFire(cfg, s, id).thrown == None
    ensures AfterFire(cfg, s, id).state.nTick == s.nTick + 1
    ensures TicksTo(AfterFire(cfg, s, id).state.trace, v) == TicksTo(s.trace, v) + (if v < cfg.nViews then [s.nTick] else [])
  {
    TicksToAppend(s.trace, TickAll(cfg.nViews, s.nTick), v);
    TicksToTickAll(cfg.nViews, s.nTick, v);
  }

  /** At the bound a firing throws and changes nothing: no view is ticked,
      the counter stays at the bound, and the timer is still running, so it
      fires, and throws, again and again. */
  lemma {:induction false} FireAtBoundThrows(cfg: Config, s: Snapshot, id: nat)
    requires Inv(cfg, s) && id in s.clock.live && s.nTick >= cfg.maxTicks
    ensures AfterFire(cfg, s, id) == Outcome(s, Some(ReferenceError))
    ensures s.nTick == cfg.maxTicks && id in AfterFire(cfg, s, id).state.clock.live
  {
  }

  /** Before the first `play`, both `pause` and `reset` throw and change nothing. */
  lemma PauseAndResetNeedATimer()
    ensures AfterPause(Initial()) == Outcome(Initial(), Some(TypeError))
    ensures AfterReset(Initial()) == Outcome(Initial(), Some(TypeError))
  {
  }

  /** With a handle, `reset` stops that timer and zeroes the counter, but
      keeps the (stopped) handle and resets no view. */
  lemma {:induction false} ResetKeepsHandleAndViews(s: Snapshot)
    requires Timers.Valid(s.clock) && s.timer.Some?
    ensures AfterReset(s).thrown == None
    ensures AfterReset(s).state.nTick == 0 && AfterReset(s).state.timer == s.timer
    ensures AfterReset(s).state.trace == s.trace
    ensures s.timer.value !in AfterReset(s).state.clock.live
  {
  }

  /** Replaying after `reset` ticks the views at 0 again although none of
      them was reset: view `v` sees tick 0 after a higher tick with no reset
      in between. */
  lemma {:induction false} ReplayAfterResetRepeatsTicks(cfg: Config, s: Snapshot, v: nat)
    requires Inv(cfg, s) && s.timer.Some? && v < cfg.nViews && 0 < cfg.maxTicks
    ensures Inv(cfg, AfterPlay(AfterReset(s).state))
    ensures var p := AfterPlay(AfterReset(s).state);
            && p.timer.Some? && p.timer.value in p.clock.live
            && TicksTo(AfterFire(cfg, p, p.timer.value).state.trace, v) == TicksTo(s.trace, v) + [0]
            && ResetsTo(AfterFire(cfg, p, p.timer.value).state.trace, v) == ResetsTo(s.trace, v)
  {
    InvPreserved(cfg, s, 0);
    var r := AfterReset(s).state;
    InvPreserved(cfg, r, 0);
    var p := AfterPlay(r);
    FireBelowBound(cfg, p, p.timer.value, v);
    ResetsToAppend(p.trace, TickAll(cfg.nViews, 0), v);
    ResetsToTickAll(cfg.nViews, 0, v);
  }

  /** `play` twice overwrites the handle: `pause` then stops only the second
      timer, and the first keeps ticking the views. */
  lemma {:induction false} DoublePlayLeaksTimer(cfg: Config, s: Snapshot, v: nat)
    requires Inv(cfg, s) && s.nTick < cfg.maxTicks && v < cfg.nViews
    ensures var p1 := AfterPlay(s);
            var p2 := AfterPlay(p1);
            && AfterPause(p2).thrown == None
            && p1.timer.value in AfterPause(p2).state.clock.live
            && TicksTo(AfterFire(cfg, AfterPause(p2).state, p1.timer.value).state.trace, v) == TicksTo(s.trace, v) + [s.nTick]
  {
    var p1 := AfterPlay(s);
    var p2 := AfterPlay(p1);
    InvPreserved(cfg, s, 0);
    InvPreserved(cfg, p1, 0);
    InvPreserved(cfg, p2, 0);
    FireBelowBound(cfg, AfterPause(p2).state, p1.timer.value, v);
  }

  /** The player of player.js; `views` is represented by their number and the
      calls made on them are appended to `trace`. */
  class Player {
    const nViews: nat
    const interval: nat
    const maxTicks: nat
    var nTick: nat
    var timer: Option<nat>
    var clock: Timers.Clock
    var trace: seq<Call>

    function State(): Snapshot
      reads this
    {
      Snapshot(nTick, timer, clock, trace)
    }

    function Cfg(): Config
    {
      Config(nViews, maxTicks)
    }

    ghost predicate Valid()
      reads this
    {
      Inv(Cfg(), State())
    }

    constructor (nViews: nat, interval: nat, maxTicks: nat)
      ensures Valid() && State() == Initial()
      ensures this.nViews == nViews && this.interval == interval && this.maxTicks == maxTicks
    {
      this.nViews := nViews;
      this.interval := interval;
      this.maxTicks := maxTicks;
      timer := None;
      nTick := 0;
      clock := Timers.Idle;
      trace := [];
    }

    method Play()
      requires Valid()
      modifies this
      ensures Valid() && State() == AfterPlay(old(State()))
    {
      InvPreserved(Cfg(), State(), 0);
      var started := Timers.Start(clock);
      timer := Some(started.0);
      clock := started.1;
    }

    /** The body of the interval callback, run when the live timer `id` fires. */
    method Fire(id: nat) returns (thrown: Option<Thrown>)
      requires Valid() && id in clock.live
      modifies this
      ensures Valid() && Outcome(State(), thrown) == AfterFire(Cfg(), old(State()), id)
    {
      InvPreserved(Cfg(), State(), id);
      if nTick >= maxTicks {
        return Some(ReferenceError);
      }
      UpdateViews(nTick);
      nTick := nTick + 1;
      thrown := None;
    }

    method Pause() returns (thrown: Option<Thrown>)
      requires Valid()
      modifies this
      ensures Valid() && Outcome(State(), thrown) == AfterPause(old(State()))
    {
      InvPreserved(Cfg(), State(), 0);
      if timer.None? {
        return Some(TypeError);
      }
      clock := Timers.Stop(clock, timer.value);
      thrown := None;
    }

    method Reset() returns (thrown: Option<Thrown>)
      requires Valid()
      modifies this
      ensures Valid() && Outcome(State(), thrown) == AfterReset(old(State()))
    {
      InvPreserved(Cfg(), State(), 0);
      if timer.None? {
        return Some(TypeError);
      }
      clock := Timers.Stop(clock, timer.value);
      nTick := 0;
      thrown := None;
    }

    /** `_updateViews`: tick every view with `n`, in list order. */
    method UpdateViews(n: nat)
      modifies this
      ensures trace == old(trace) + TickAll(nViews, n)
      ensures nTick == old(nTick) && timer == old(timer) && clock == old(clock)
    {
      var i := 0;
      while i < nViews
        invariant 0 <= i <= nViews
        invariant trace == old(trace) + TickAll(i, n)
        invariant nTick == old(nTick) && timer == old(timer) && clock == old(clock)
      {
        trace := trace + [Tick(i, n)];
        i := i + 1;
      }
    }
  }
}
