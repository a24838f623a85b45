/** A complete run, from boot, in which one report consumed at clock value zero defeats the stale guard. */
module GamepadClockZero {
  import opened Types
  import opened MassoKeyboard
  import opened RecordCodec
  import opened UsbOutput
  import opened GamepadReceiver
  import opened GamepadSafety
  import opened GamepadTiming
  import opened MainLoop
  import opened GamepadPeers
  import opened SampleReports
  import ControlMapper
  import ProductionConfig

  const PEER: Address := 0x5e_0053_01
  const FIRST_BOOT := PairedBoot(PEER)

  /** Fresh from boot, whether or not the host has mounted the keyboard. */
  predicate IsIdle(s: State) {
    s == FIRST_BOOT || s == FIRST_BOOT.(output := Output(RELEASED, RELEASED, true))
  }

  lemma IdlePass(s: State, now: uint32)
    requires IsIdle(s)
    ensures OnUsb(ServiceStale(s, now), HEALTHY) == FIRST_BOOT.(output := Output(RELEASED, RELEASED, true))
    ensures OnSetup(s, false, [], now) == s
  {
    hide PairedBoot;
    PairedBootIs(PEER);
  }

  lemma {:induction false} LoopKeepsBoot(n: nat)
    ensures var s := Reached(FIRST_BOOT, Loop(n, 0));
            s == if n == 0 then FIRST_BOOT else FIRST_BOOT.(output := Output(RELEASED, RELEASED, true))
  {
    hide OnUsb, ServiceStale, OnSetup, PairedBoot, Reached;
    if n == 0 {
      NothingReached(FIRST_BOOT);
    } else {
      LoopKeepsBoot(n - 1);
      var t, es := INTERVAL * (n - 1), Loop(n - 1, 0);
      ReachedInParts(FIRST_BOOT, es, Iteration(false, [], t));
      IterationReached(Reached(FIRST_BOOT, es), false, [], t);
      IdlePass(Reached(FIRST_BOOT, es), Clock(t));
    }
  }

  lemma NothingReached(s: State)
    ensures Reached(s, []) == s
  {
  }

  const WRAP: nat := 0x1_0000_0000

  /** How many iterations fit before the first wrap of the clock. */
  const ITERATIONS: nat := 2147484

  /** The controller calls, connects, arms, and jogs in the millisecond the clock reads zero. */
  const JOG_AT_ZERO: seq<Event> := [
    IncomingConnection(PEER, true, true, WRAP - 10), ConnectionOpened(PEER, true, WRAP - 9),
    DescriptorAvailable(true, WRAP - 8), Report(PEER, NEUTRAL_REPORT, WRAP - 6), Report(PEER, JOG_RIGHT_REPORT, WRAP)]

  /** Idle until just before the wrap, one short use, then nothing but the main loop for eight seconds. */
  function ClockZeroRun(): seq<Event> {
    Loop(ITERATIONS, 0) + JOG_AT_ZERO + Loop(5, WRAP)
  }

  lemma RunIsRealistic()
    ensures Realistic(ClockZeroRun()) && LastPass(ClockZeroRun()) == WRAP + 8000
  {
    hide Realistic, LastPassSince, Loop, TimeOfLast;
    NothingIsRealistic();
    LoopFollows([], ITERATIONS, 0);
    var a, jog := Loop(ITERATIONS, 0), JOG_AT_ZERO;
    assert [] + a == a;
    EventFollows(a, jog[0]);
    EventFollows(a + [jog[0]], jog[1]);
    EventFollows(a + [jog[0]] + [jog[1]], jog[2]);
    EventFollows(a + [jog[0]] + [jog[1]] + [jog[2]], jog[3]);
    EventFollows(a + [jog[0]] + [jog[1]] + [jog[2]] + [jog[3]], jog[4]);
    assert a + [jog[0]] + [jog[1]] + [jog[2]] + [jog[3]] + [jog[4]] == a + jog;
    LoopFollows(a + jog, 5, WRAP);
  }

  /** What the neutral report leaves behind. */
  predicate ReadyToJog(s: State) {
    && s.link == Link(true, true, true) && s.mapping == ProductionConfig.DEFAULT_MAPPING
    && !s.setup.active && !s.pairing.selected && s.output == Output(RELEASED, RELEASED, true)
    && !s.arming.rearm && s.mapper == ControlMapper.INITIAL_MAPPER
  }

  lemma LinkOpens(s: State)
    ensures Reached(s, JOG_AT_ZERO[..1]) == s
    ensures Reached(s, JOG_AT_ZERO[..3]) == FailClosed(s).(link := Link(true, true, true))
  {
    hide OnReport;
    var es := JOG_AT_ZERO;
    ReachedStep(s, es, 0);
    ReachedStep(s, es, 1);
    ReachedStep(s, es, 2);
  }

  lemma LinkedBeforeWrap(s: State)
    requires s == FIRST_BOOT.(output := Output(RELEASED, RELEASED, true))
    ensures Admits(s, PEER) && PEER in Reached(s, JOG_AT_ZERO[..1]).pairing.bonds
    ensures var s' := Reached(s, JOG_AT_ZERO[..3]);
            s' == FIRST_BOOT.(output := Output(RELEASED, RELEASED, true), link := Link(true, true, true))
  {
    hide PairedBoot, Reached;
    PairedBootIs(PEER);
    LinkOpens(s);
  }

  lemma NeutralArms(s: State)
    requires s == FIRST_BOOT.(output := Output(RELEASED, RELEASED, true), link := Link(true, true, true))
    ensures ReadyToJog(OnReport(s, NEUTRAL_REPORT, Clock(WRAP - 6)))
  {
    hide ReadReport, PairedBoot;
    PairedBootIs(PEER);
    ReadsDefault(s, NEUTRAL_REPORT, Clock(WRAP - 6));
  }

  lemma ArmedBeforeWrap(s: State)
    requires s == FIRST_BOOT.(output := Output(RELEASED, RELEASED, true))
    ensures Admits(s, PEER) && PEER in Reached(s, JOG_AT_ZERO[..1]).pairing.bonds
    ensures ReadyToJog(Reached(s, JOG_AT_ZERO[..4]))
  {
    hide PairedBoot, OnReport, ReadyToJog, Admits;
    LinkedBeforeWrap(s);
    ReachedStep(s, JOG_AT_ZERO, 3);
    NeutralArms(Reached(s, JOG_AT_ZERO[..3]));
  }

  /** The jog wanted, the timer wound to zero, which means "none". */
  predicate Unguarded(s: State) {
    HasKey(s.output.desired) && s.arming.lastValidMs == 0 && s.output.wasMounted && !s.setup.active
  }

  lemma JogFollows(s: State)
    requires ReadyToJog(s)
    ensures Unguarded(OnReport(s, JOG_RIGHT_REPORT, 0))
    ensures Consumes(s, Report(PEER, JOG_RIGHT_REPORT, WRAP))
  {
    hide ReadReport;
    ReadsDefault(s, JOG_RIGHT_REPORT, 0);
    ClockWraps();
  }

  lemma ClockWraps()
    ensures Clock(WRAP) == 0
  {
  }

  lemma JogAtClockZero(before: seq<Event>)
    requires Reached(FIRST_BOOT, before) == FIRST_BOOT.(output := Output(RELEASED, RELEASED, true))
    ensures Unguarded(Reached(FIRST_BOOT, before + JOG_AT_ZERO))
    ensures LastConsumed(FIRST_BOOT, before + JOG_AT_ZERO) == WRAP
  {
    hide OnReport, ReadyToJog, Reached, Unguarded, Consumes, LastConsumed, Clock, PairedBoot;
    var s, es := Reached(FIRST_BOOT, before), JOG_AT_ZERO;
    ArmedBeforeWrap(s);
    ReachedInParts(FIRST_BOOT, before, es[..4]);
    JogFollows(Reached(s, es[..4]));
    ClockWraps();
    ReachedInParts(FIRST_BOOT, before, es);
    ReachedStep(s, es, 4);
    assert es[..5] == es && before + es == before + es[..4] + [es[4]];
    ConsumedMore(FIRST_BOOT, before + es[..4], es[4]);
  }

  /** Where the events of a run in three parts are, when only the middle one has reports. */
  lemma EventsOfParts(idle: seq<Event>, use: seq<Event>, tail: seq<Event>)
    requires |use| == 5 && forall k :: 0 <= k < 5 && use[k].Report? ==> k in {3, 4}
    requires forall k :: 0 <= k < |idle| ==> !idle[k].Report?
    requires forall k :: 0 <= k < |tail| ==> !tail[k].Report?
    ensures var n, es := |idle|, idle + use + tail;
            && es[..n] == idle && es[..n + 1] == idle + use[..1]
            && (forall k :: 0 <= k < 5 ==> es[n + k] == use[k])
            && (forall i :: 0 <= i < |es| && es[i].Report? ==> i in {n + 3, n + 4})
  {
    var n, es := |idle|, idle + use + tail;
    assert forall i :: 0 <= i < |es| ==>
             es[i] == if i < n then idle[i] else if i < n + 5 then use[i - n] else tail[i - n - 5];
  }

  lemma RunIsHonest()
    ensures BondedRadio(FIRST_BOOT, ClockZeroRun())
  {
    hide Reached, Loop, PairedBoot, LetsIn;
    var n, es, idle := 2 * ITERATIONS, ClockZeroRun(), Loop(ITERATIONS, 0);
    LoopHasNoReport(ITERATIONS, 0);
    LoopHasNoReport(5, WRAP);
    EventsOfParts(idle, JOG_AT_ZERO, Loop(5, WRAP));
    LoopKeepsBoot(ITERATIONS);
    ArmedBeforeWrap(Reached(FIRST_BOOT, idle));
    FirstIsLetIn(Reached(FIRST_BOOT, idle));
    ReachedInParts(FIRST_BOOT, idle, JOG_AT_ZERO[..1]);
    assert es[n + 0] == JOG_AT_ZERO[0] && es[n + 1] == JOG_AT_ZERO[1] && es[n + 2] == JOG_AT_ZERO[2];
    assert es[n + 3] == JOG_AT_ZERO[3] && es[n + 4] == JOG_AT_ZERO[4];
    assert BondedSince(FIRST_BOOT, es, n, n + 1, n + 3, PEER);
    assert BondedSince(FIRST_BOOT, es, n, n + 1, n + 4, PEER);
  }

  lemma FirstIsLetIn(s: State)
    requires Admits(s, PEER)
    ensures LetsIn(s, JOG_AT_ZERO[0], PEER)
  {
  }

  /**
   * The run that breaks the bound: a main loop in order and on time and an honest radio throughout, and yet
   * the key is still down eight seconds after the last report.
   */
  lemma ClockZeroHoldsKey()
    ensures var es := ClockZeroRun();
            && Realistic(es) && BondedRadio(FIRST_BOOT, es)
            && LastConsumed(FIRST_BOOT, es) == WRAP && LastPass(es) == WRAP + 8000
            && HasKey(Reached(FIRST_BOOT, es).output.sent)
  {
    hide Reached, Realistic, Loop, BondedRadio, LastPassSince, LastConsumed, Silent, Passes, Clock, Safe, PairedBoot;
    var before := Loop(ITERATIONS, 0);
    RunIsRealistic();
    RunIsHonest();
    LoopKeepsBoot(ITERATIONS);
    JogAtClockZero(before);
    LoopConsumesNothing(FIRST_BOOT, before + JOG_AT_ZERO, 5, WRAP);
    PairedBootIs(PEER);
    BootIsSafe(PairedFlash(PEER), None, {PEER});
    SafeAlways(FIRST_BOOT, before + JOG_AT_ZERO);
    ReachedInParts(FIRST_BOOT, before + JOG_AT_ZERO, Loop(5, WRAP));
    LoopIsSilent(5, WRAP);
    ClockWraps();
    SilenceReleasesUnlessClockZero(Reached(FIRST_BOOT, before + JOG_AT_ZERO), WRAP, Loop(5, WRAP), INTERVAL);
  }
}
