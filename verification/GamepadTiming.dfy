/** How long the host can hold a key after the gamepad falls silent, across any number of clock wraps. */
module GamepadTiming {
  import opened Types
  import opened MassoKeyboard
  import opened UsbOutput
  import opened PersistentConfig
  import opened GamepadReceiver
  import opened GamepadSafety
  import ControlMapper

  const HEALTHY := UsbEnv(true, true, true)

  /** A valid report that is used: the only thing that winds the stale timer. */
  predicate Consumes(s: State, e: Event) {
    && e.Report? && ReadReport(s, e.report, Clock(e.t)).Some?
    && !s.setup.active && !s.pairing.selected
  }

  /** The time of the latest consumed report, and of the latest output pass; 0 before any. */
  ghost function LastConsumed(start: State, es: seq<Event>): nat {
    if es == [] then 0
    else
      var n := |es| - 1;
      if Consumes(Reached(start, es[..n]), es[n]) then es[n].t else LastConsumed(start, es[..n])
  }

  ghost function LastPass(es: seq<Event>): nat {
    LastPassSince(es, 0)
  }

  ghost function LastPassSince(es: seq<Event>, since: nat): nat {
    if es == [] then since
    else if es[|es| - 1].OutputPass? then es[|es| - 1].t
    else LastPassSince(es[..|es| - 1], since)
  }

  /**
   * Time never runs backwards, output passes come round within `gap`, and the host is mounted, ready and
   * accepting.
   */
  ghost predicate Steady(es: seq<Event>, gap: nat) {
    && gap <= 4000
    && (forall i, j :: 0 <= i <= j < |es| ==> es[i].t <= es[j].t)
    && (forall i :: 0 <= i < |es| ==> es[i].t <= LastPass(es[..i]) + gap)
    && (forall i :: 0 <= i < |es| && es[i].OutputPass? ==> es[i].env == HEALTHY)
  }

  /** Besides, no report is consumed at a moment when the 32-bit clock reads zero. */
  ghost predicate Paced(start: State, es: seq<Event>, gap: nat) {
    && Steady(es, gap)
    && (forall i :: 0 <= i < |es| && Consumes(Reached(start, es[..i]), es[i]) ==> Clock(es[i].t) != 0)
  }

  ghost predicate Timely(start: State, es: seq<Event>) {
    var s, last := Reached(start, es), LastConsumed(start, es);
    && (HasKey(s.output.desired) ==> s.arming.lastValidMs == Clock(last) != 0 && LastPass(es) <= last + 150)
    && (HasKey(s.output.sent) ==> LastPass(es) <= last + 150)
    && last <= (if es == [] then 0 else es[|es| - 1].t)
    && LastPass(es) <= (if es == [] then 0 else es[|es| - 1].t)
  }

  lemma PacedPrefix(start: State, es: seq<Event>, gap: nat)
    requires Paced(start, es, gap) && es != []
    ensures Paced(start, es[..|es| - 1], gap)
  {
    hide Consumes, LastPassSince, Reached;
    var p := es[..|es| - 1];
    assert forall i :: 0 <= i < |p| ==> p[..i] == es[..i] && p[i] == es[i];
  }

  /** One pass over an attentive host: what it then holds is what was wanted and fresh. */
  lemma PassSettles(s: State, now: uint32)
    ensures var o := OnUsb(ServiceStale(s, now), HEALTHY);
            && (HasKey(o.output.sent) ==> o.output.sent == s.output.desired && !Stale(s, now))
            && (HasKey(o.output.desired) ==> o.output.desired == s.output.desired && !Stale(s, now)
                                             && o.arming.lastValidMs == s.arming.lastValidMs)
  {
    hide Elapsed;
  }

  lemma StaleIsExact(s: State, last: nat, now: nat)
    requires last <= now < last + 0x1_0000_0000
    requires s.arming.lastValidMs == Clock(last) && HasKey(s.output.desired)
    ensures Stale(s, Clock(now)) <==> Clock(last) != 0 && now - last > 150
  {
    ElapsedAcrossWraps(last, now);
  }

  lemma {:induction false} CommandsKeepTimer(s: State, requests: seq<Request>, now: uint32)
    ensures ExecuteAll(s, requests, now).arming.lastValidMs == s.arming.lastValidMs
  {
    hide Store, StoreAddress;
    if requests != [] {
      CommandsKeepTimer(s, requests[..|requests| - 1], now);
    }
  }

  /** Only a consumed report can put a key in place of another one. */
  lemma OtherEventsKeepTimer(s: State, e: Event)
    requires !Consumes(s, e) && !e.OutputPass?
    ensures var s' := Step(s, e);
            s'.output.sent == s.output.sent
            && (HasKey(s'.output.desired) ==>
                  s'.output.desired == s.output.desired && s'.arming.lastValidMs == s.arming.lastValidMs)
  {
    hide ExecuteAll, Elapsed, ReadReport, SafeToArm, HoldsChord, ControlMapper.Next, ControlMapper.Output, CncReport;
    OnlyOutputPassSends(s, e);
    if e.SetupPass? {
      CommandsOnlyRelease(WithSetup(s, true), e.requests, Clock(e.t));
      CommandsKeepTimer(WithSetup(s, true), e.requests, Clock(e.t));
    }
  }

  lemma ConsumingWindsTimer(s: State, e: Event)
    requires Consumes(s, e)
    ensures e.Report? && Step(s, e).arming.lastValidMs == Clock(e.t) && Step(s, e).output.sent == s.output.sent
  {
    hide ReadReport, SafeToArm, ControlMapper.Next, ControlMapper.Output, CncReport;
  }

  lemma {:induction false} TimelyAlways(start: State, es: seq<Event>, gap: nat)
    requires Paced(start, es, gap) && start.output == INITIAL_OUTPUT
    ensures Timely(start, es)
  {
    hide Step, Consumes, Stale, OnUsb, ServiceStale;
    if es != [] {
      var n := |es| - 1;
      var s, e := Reached(start, es[..n]), es[n];
      PacedPrefix(start, es, gap);
      TimelyAlways(start, es[..n], gap);
      assert n > 0 ==> es[n - 1].t <= e.t;
      if e.OutputPass? {
        OutputPassIsTimely(start, es, gap);
      } else if Consumes(s, e) {
        ConsumingWindsTimer(s, e);
      } else {
        OtherEventsKeepTimer(s, e);
      }
    }
  }

  lemma OutputPassIsTimely(start: State, es: seq<Event>, gap: nat)
    requires Paced(start, es, gap) && es != [] && es[|es| - 1].OutputPass?
    requires Timely(start, es[..|es| - 1])
    requires |es| > 1 ==> es[|es| - 2].t <= es[|es| - 1].t
    ensures Timely(start, es)
  {
    hide Consumes, Stale, OnUsb, ServiceStale;
    var n := |es| - 1;
    var s, e, last := Reached(start, es[..n]), es[n], LastConsumed(start, es[..n]);
    NoReportNoConsumption(s, e);
    PassSettles(s, Clock(e.t));
    if HasKey(s.output.desired) {
      StaleIsExact(s, last, e.t);
    }
  }

  lemma NoReportNoConsumption(s: State, e: Event)
    requires !e.Report?
    ensures !Consumes(s, e)
  {
  }

  /**
   * The host never holds a key longer than 150 ms plus one pass interval after the last consumed report,
   * in any run of any length, however often the 32-bit clock wraps.
   */
  lemma KeyIsNeverHeldLong(start: State, es: seq<Event>, gap: nat, now: nat)
    requires start.output == INITIAL_OUTPUT
    requires Paced(start, es, gap) && HasKey(Reached(start, es).output.sent)
    requires now <= LastPass(es) + gap
    ensures now <= LastConsumed(start, es) + 150 + gap
  {
    TimelyAlways(start, es, gap);
  }

  /** One pass over an attentive, already mounted host, in full. */
  lemma PassExactly(s: State, now: uint32)
    requires s.output.wasMounted
    ensures var o, wanted, sent := OnUsb(ServiceStale(s, now), HEALTHY), s.output.desired, s.output.sent;
            && o.output.wasMounted
            && (if Stale(s, now) then !HasKey(o.output.desired) && !HasKey(o.output.sent)
                else o.output.desired == wanted && o.arming.lastValidMs == s.arming.lastValidMs
                     && o.output.sent == if sent != wanted && HasKey(sent) then RELEASED else wanted)
  {
    hide Elapsed;
  }

  /** What the main loop does by itself: closed setup passes and output passes to an attentive host. */
  predicate Quiet(e: Event) {
    (e.SetupPass? && !e.open) || (e.OutputPass? && e.env == HEALTHY)
  }

  /** Only the main loop runs, its output passes at most `gap` apart, the first at most `gap` after `since`. */
  ghost predicate Silent(es: seq<Event>, since: nat, gap: nat) {
    forall i :: 0 <= i < |es| ==>
      Quiet(es[i]) && LastPassSince(es[..i], since) <= es[i].t <= LastPassSince(es[..i], since) + gap
  }

  function Passes(es: seq<Event>): nat {
    if es == [] then 0 else Passes(es[..|es| - 1]) + if es[|es| - 1].OutputPass? then 1 else 0
  }

  /** With the port closed before and after, a setup pass does nothing. */
  lemma ClosedPassIsIdle(s: State, requests: seq<Request>, now: uint32)
    requires Safe(s) && !s.setup.active
    ensures OnSetup(s, false, requests, now) == s
  {
    hide CancelPairing, ControlMapper.Exclusive;
  }

  lemma SilentPrefix(es: seq<Event>, since: nat, gap: nat)
    requires Silent(es, since, gap) && es != []
    ensures Silent(es[..|es| - 1], since, gap)
  {
    hide LastPassSince, Quiet;
    var p := es[..|es| - 1];
    assert forall i :: 0 <= i < |p| ==> p[..i] == es[..i] && p[i] == es[i];
  }

  /** While the guard has not fired: the key is wanted, and from the second pass on it is on the wire. */
  predicate StillHeld(s: State, r: State, passes: nat) {
    && r.output.desired == s.output.desired && r.arming.lastValidMs == s.arming.lastValidMs
    && (passes >= 1 ==> r.output.sent in {RELEASED, s.output.desired})
    && (passes >= 2 ==> r.output.sent == s.output.desired)
  }

  /** A silent run after a consumed report, followed step by step. */
  lemma {:induction false} SilentRun(s: State, since: nat, es: seq<Event>, gap: nat)
    requires Safe(s) && !s.setup.active
    requires s.arming.lastValidMs == Clock(since) && HasKey(s.output.desired) && s.output.wasMounted
    requires Silent(es, since, gap) && gap <= 4000
    ensures var r, last := Reached(s, es), LastPassSince(es, since);
            && Safe(r) && !r.setup.active
            && since <= last && r.output.wasMounted
            && (if Clock(since) == 0 || last <= since + 150 then StillHeld(s, r, Passes(es))
                else !HasKey(r.output.desired) && !HasKey(r.output.sent))
  {
    hide Stale, OnUsb, ServiceStale, OnSetup, Safe;
    SafeAlways(s, es);
    if es != [] {
      var n := |es| - 1;
      var p, e := es[..n], es[n];
      SilentPrefix(es, since, gap);
      SilentRun(s, since, p, gap);
      var r := Reached(s, p);
      if e.SetupPass? {
        ClosedPassIsIdle(r, e.requests, Clock(e.t));
      } else {
        PassKeepsSetup(r, Clock(e.t));
        PassExactly(r, Clock(e.t));
        if HasKey(r.output.desired) && Clock(since) != 0 {
          StaleIsExact(r, since, e.t);
        } else {
          NothingToGuard(r, Clock(e.t));
        }
      }
    }
  }

  lemma PassKeepsSetup(s: State, now: uint32)
    ensures OnUsb(ServiceStale(s, now), HEALTHY).setup == s.setup
  {
    hide Elapsed;
  }

  lemma NothingToGuard(s: State, now: uint32)
    requires !HasKey(s.output.desired) || s.arming.lastValidMs == 0
    ensures !Stale(s, now)
  {
  }

  /**
   * The stale guard takes the clock value 0 for "no report". Once a controller falls silent with a key
   * wanted, passes beyond the limit release the key exactly when its last report did not arrive at clock 0.
   */
  lemma SilenceReleasesUnlessClockZero(s: State, since: nat, es: seq<Event>, gap: nat)
    requires Safe(s) && !s.setup.active
    requires s.arming.lastValidMs == Clock(since) && HasKey(s.output.desired) && s.output.wasMounted
    requires Silent(es, since, gap) && gap <= 4000
    requires Passes(es) >= 2 && LastPassSince(es, since) > since + 150
    ensures !HasKey(Reached(s, es).output.sent) <==> Clock(since) != 0
  {
    hide Reached;
    SilentRun(s, since, es, gap);
  }
}
