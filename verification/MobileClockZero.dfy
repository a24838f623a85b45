/** A complete run of the phone receiver in which one frame accepted at clock value zero defeats the timeout. */
module MobileClockZero {
  import opened Types
  import opened MassoKeyboard
  import opened ControlMapper
  import opened MobileProtocol
  import opened MobileSession
  import opened MobileReceiver
  import opened MobileSafety
  import opened MobileSilence

  /** The time between two iterations, half of what the watchdog allows. */
  const INTERVAL: nat := 2000

  /** The main loop running by itself, one iteration every two seconds from `from` on. */
  function Loop(n: nat, from: nat): seq<Event> {
    if n == 0 then []
    else
      var t := from + INTERVAL * (n - 1);
      Loop(n - 1, from) + [UsbPass(HEALTHY, t), TimeoutPass(t)]
  }

  lemma EmptyIsSteady()
    ensures Steady([], INTERVAL) && LastUsb([]) == LastTimeout([]) == 0
  {
  }

  lemma SteadyMore(es: seq<Event>, e: Event)
    requires Steady(es, INTERVAL) && (es != [] ==> es[|es| - 1].t <= e.t)
    requires e.t <= LastUsb(es) + INTERVAL && e.t <= LastTimeout(es) + INTERVAL && (e.UsbPass? ==> e.env == HEALTHY)
    ensures Steady(es + [e], INTERVAL)
    ensures LastUsb(es + [e]) == if e.UsbPass? then e.t else LastUsb(es)
    ensures LastTimeout(es + [e]) == if e.TimeoutPass? then e.t else LastTimeout(es)
  {
    LastMore(es, e);
    hide LastUsb, LastTimeout;
    var all := es + [e];
    assert all[..|es|] == es;
    forall i | 0 <= i < |all|
      ensures all[i].t <= LastUsb(all[..i]) + INTERVAL && all[i].t <= LastTimeout(all[..i]) + INTERVAL
    {
      if i < |es| {
        assert all[..i] == es[..i] && all[i] == es[i];
      }
    }
  }

  lemma LastMore(es: seq<Event>, e: Event)
    ensures LastUsb(es + [e]) == if e.UsbPass? then e.t else LastUsb(es)
    ensures LastTimeout(es + [e]) == if e.TimeoutPass? then e.t else LastTimeout(es)
    ensures LastAccepted(es + [e]) == if AcceptedFrameAt(Reached(es), e) then e.t else LastAccepted(es)
  {
    hide Reached, Accepts;
    assert (es + [e])[..|es|] == es;
  }

  lemma {:induction false} LoopIsSteady(before: seq<Event>, n: nat, from: nat)
    requires Steady(before, INTERVAL) && (before != [] ==> before[|before| - 1].t <= from)
    requires from <= LastUsb(before) + INTERVAL && from <= LastTimeout(before) + INTERVAL
    ensures var es := before + Loop(n, from);
            && Steady(es, INTERVAL) && LastAccepted(es) == LastAccepted(before)
            && (n > 0 ==> LastUsb(es) == LastTimeout(es) == es[|es| - 1].t == from + INTERVAL * (n - 1))
            && (n == 0 ==> es == before)
  {
    hide Steady, LastUsb, LastTimeout, LastAccepted, Reached, Accepts;
    if n > 0 {
      LoopIsSteady(before, n - 1, from);
      var t, es := from + INTERVAL * (n - 1), before + Loop(n - 1, from);
      SteadyMore(es, UsbPass(HEALTHY, t));
      LastMore(es, UsbPass(HEALTHY, t));
      SteadyMore(es + [UsbPass(HEALTHY, t)], TimeoutPass(t));
      LastMore(es + [UsbPass(HEALTHY, t)], TimeoutPass(t));
      assert before + Loop(n, from) == es + [UsbPass(HEALTHY, t)] + [TimeoutPass(t)];
    } else {
      assert before + Loop(n, from) == before;
    }
  }

  lemma EmptyIsSilent(since: nat)
    ensures Silent([], since, INTERVAL) && Passes([]) == 0 && LastCheck([], since) == LastActedOn([], since) == since
  {
  }

  lemma SilentMore(es: seq<Event>, e: Event, since: nat)
    requires Silent(es, since, INTERVAL) && Quiet(e)
    requires LastCheck(es, since) <= e.t <= LastCheck(es, since) + INTERVAL
    ensures Silent(es + [e], since, INTERVAL)
    ensures Passes(es + [e]) == Passes(es) + if e.UsbPass? then 1 else 0
    ensures LastCheck(es + [e], since) == if e.TimeoutPass? then e.t else LastCheck(es, since)
    ensures LastActedOn(es + [e], since) == if e.UsbPass? then LastCheck(es, since) else LastActedOn(es, since)
  {
    var all := es + [e];
    assert all[..|es|] == es;
    forall i | 0 <= i < |all|
      ensures Quiet(all[i]) && LastCheck(all[..i], since) <= all[i].t <= LastCheck(all[..i], since) + INTERVAL
    {
      if i < |es| {
        assert all[..i] == es[..i] && all[i] == es[i];
      }
    }
  }

  lemma {:induction false} LoopIsSilent(n: nat, from: nat)
    ensures var es := Loop(n, from);
            && Silent(es, from, INTERVAL) && Passes(es) == n
            && LastCheck(es, from) == (if n == 0 then from else from + INTERVAL * (n - 1))
            && (n > 1 ==> LastActedOn(es, from) == from + INTERVAL * (n - 2))
  {
    hide Silent, LastCheck, LastActedOn, Passes;
    EmptyIsSilent(from);
    if n > 0 {
      LoopIsSilent(n - 1, from);
      var t, es := from + INTERVAL * (n - 1), Loop(n - 1, from);
      SilentMore(es, UsbPass(HEALTHY, t), from);
      SilentMore(es + [UsbPass(HEALTHY, t)], TimeoutPass(t), from);
      assert Loop(n, from) == es + [UsbPass(HEALTHY, t)] + [TimeoutPass(t)];
    }
  }

  /** Fresh from boot, whether or not the host has mounted the keyboard. */
  predicate IsIdle(s: State) {
    && s.session == FRESH_SESSION && s.mapper == INITIAL_MAPPER && s.lastValidMs == 0 && s.neutralRequired
    && s.output.desired == RELEASED && s.output.sent == RELEASED
  }

  lemma IdleIteration(s: State, now: uint32)
    requires IsIdle(s)
    ensures IsIdle(OnUsb(s, HEALTHY, now)) && OnUsb(s, HEALTHY, now).output.wasMounted
    ensures !TimesOut(s, now)
  {
  }

  lemma {:induction false} LoopKeepsBoot(n: nat)
    ensures IsIdle(Reached(Loop(n, 0))) && (n > 0 ==> Reached(Loop(n, 0)).output.wasMounted)
  {
    hide Reached, OnUsb, TimesOut;
    if n == 0 {
      NothingReached();
    } else {
      LoopKeepsBoot(n - 1);
      var t, es := INTERVAL * (n - 1), Loop(n - 1, 0);
      IdleIteration(Reached(es), Clock(t));
      ReachedMore(es, UsbPass(HEALTHY, t));
      IdleIteration(Reached(es + [UsbPass(HEALTHY, t)]), Clock(t));
      ReachedMore(es + [UsbPass(HEALTHY, t)], TimeoutPass(t));
      assert Loop(n, 0) == es + [UsbPass(HEALTHY, t)] + [TimeoutPass(t)];
    }
  }

  lemma NothingReached()
    ensures IsIdle(Reached([]))
  {
  }

  const WRAP: nat := 0x1_0000_0000

  /** How many iterations fit before the first wrap of the clock. */
  const ITERATIONS: nat := 2147484

  /** A phone connects, is neutral, and asks for a jog to the right in the millisecond the clock reads zero. */
  function JogAtZero(): seq<Event> {
    [Connected(WRAP - 9), Frame(FrameOf(0, 0, 0), WRAP - 6), Frame(FrameOf(1, 2, 1), WRAP)]
  }

  function ClockZeroRun(): seq<Event> {
    Loop(ITERATIONS, 0) + JogAtZero() + Loop(5, WRAP)
  }

  /** The jog wanted, the timer wound to zero, which means "none". */
  predicate Unguarded(s: State) {
    HasKey(s.output.desired) && s.lastValidMs == 0 && s.output.wasMounted
  }

  /** Connected, with the neutral frame accepted. */
  predicate ReadyToJog(s: State) {
    && s.session == Session(true, 0, false, 0) && s.mapper == INITIAL_MAPPER && !s.neutralRequired
    && s.output.wasMounted
  }

  lemma Connects(s: State, now: uint32)
    requires IsIdle(s)
    ensures IsIdle(FailClosed(s.(session := FRESH_SESSION), now))
    ensures FailClosed(s.(session := FRESH_SESSION), now).output.wasMounted == s.output.wasMounted
  {
  }

  lemma NeutralIsAccepted(s: State, now: uint32)
    requires IsIdle(s) && s.output.wasMounted
    ensures ReadyToJog(OnFrame(s, FrameOf(0, 0, 0), now))
  {
    hide FormatError, FrameOf, SequenceOf;
    FrameIsSound(0, 0, 0);
  }

  lemma JogIsAccepted(s: State)
    requires ReadyToJog(s)
    ensures Accepts(s.session, FrameOf(1, 2, 1))
    ensures Unguarded(OnFrame(s, FrameOf(1, 2, 1), 0))
  {
    hide FormatError, FrameOf, SequenceOf;
    FrameIsSound(1, 2, 1);
  }

  lemma ClockWraps()
    ensures Clock(WRAP) == 0
  {
  }

  lemma JogLeavesUnguarded(before: seq<Event>)
    requires IsIdle(Reached(before)) && Reached(before).output.wasMounted
    ensures Unguarded(Reached(before + JogAtZero()))
    ensures LastAccepted(before + JogAtZero()) == WRAP
  {
    hide Reached, IsIdle, ReadyToJog, Unguarded, OnFrame, FailClosed, Accepts, FrameOf, Clock, LastAccepted;
    var es := JogAtZero();
    ReachedMore(before, es[0]);
    Connects(Reached(before), Clock(WRAP - 9));
    ReachedMore(before + [es[0]], es[1]);
    NeutralIsAccepted(Reached(before + [es[0]]), Clock(WRAP - 6));
    ReachedMore(before + [es[0]] + [es[1]], es[2]);
    JogIsAccepted(Reached(before + [es[0]] + [es[1]]));
    ClockWraps();
    LastMore(before + [es[0]] + [es[1]], es[2]);
    assert before + es == before + [es[0]] + [es[1]] + [es[2]];
  }

  lemma RunIsSteady()
    ensures Steady(ClockZeroRun(), INTERVAL) && LastUsb(ClockZeroRun()) == WRAP + 8000
    ensures LastAccepted(ClockZeroRun()) == LastAccepted(Loop(ITERATIONS, 0) + JogAtZero())
  {
    hide Steady, LastUsb, LastTimeout, LastAccepted, Loop, FrameOf;
    EmptyIsSteady();
    LoopIsSteady([], ITERATIONS, 0);
    var a, es := Loop(ITERATIONS, 0), JogAtZero();
    assert [] + a == a;
    SteadyMore(a, es[0]);
    SteadyMore(a + [es[0]], es[1]);
    SteadyMore(a + [es[0]] + [es[1]], es[2]);
    assert a + es == a + [es[0]] + [es[1]] + [es[2]];
    LoopIsSteady(a + es, 5, WRAP);
  }

  /** The run that breaks the bound: a steady main loop, and the key still down eight seconds after the last frame. */
  lemma ClockZeroHoldsKey()
    ensures var es := ClockZeroRun();
            && Steady(es, INTERVAL) && LastAccepted(es) == WRAP && LastUsb(es) == WRAP + 8000
            && HasKey(Reached(es).output.sent)
  {
    hide Reached, Steady, Loop, LastUsb, LastAccepted, Silent, Passes, LastActedOn, JogAtZero, Clock;
    RunIsSteady();
    LoopKeepsBoot(ITERATIONS);
    JogLeavesUnguarded(Loop(ITERATIONS, 0));
    LoopIsSilent(5, WRAP);
    ClockWraps();
    SilenceReleasesUnlessClockZero(Loop(ITERATIONS, 0) + JogAtZero(), WRAP, Loop(5, WRAP), INTERVAL);
  }
}
