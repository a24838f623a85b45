/** Runs as the main loop makes them: every iteration is one setup pass followed by one output pass. */
module MainLoop {
  import opened Types
  import opened GamepadReceiver
  import opened GamepadSafety
  import opened GamepadTiming
  import opened MassoKeyboard

  /** The time between two iterations in the sample runs, half of what the watchdog allows. */
  const INTERVAL: nat := 2000

  /** A setup pass is followed by an output pass, and there are no other output passes. */
  predicate InLoopOrder(es: seq<Event>) {
    && (forall i :: 0 <= i < |es| && es[i].SetupPass? ==> i + 1 < |es| && es[i + 1].OutputPass?)
    && (forall i :: 0 <= i < |es| && es[i].OutputPass? ==> i > 0 && es[i - 1].SetupPass?)
  }

  /** A run the main loop can make over an attentive host. */
  ghost predicate Realistic(es: seq<Event>) {
    Steady(es, INTERVAL) && InLoopOrder(es)
  }

  function Iteration(open: bool, requests: seq<Request>, t: nat): seq<Event> {
    [SetupPass(open, requests, t), OutputPass(HEALTHY, t)]
  }

  function TimeOfLast(es: seq<Event>): nat {
    if es == [] then 0 else es[|es| - 1].t
  }

  lemma NothingIsRealistic()
    ensures Realistic([]) && LastPass([]) == 0 && TimeOfLast([]) == 0
  {
  }

  lemma OrderInParts(first: seq<Event>, second: seq<Event>)
    requires InLoopOrder(first) && InLoopOrder(second)
    ensures InLoopOrder(first + second)
  {
    var all := first + second;
    assert forall i :: 0 <= i < |all| ==> all[i] == if i < |first| then first[i] else second[i - |first|];
    forall i | 0 <= i < |all| && all[i].SetupPass?
      ensures i + 1 < |all| && all[i + 1].OutputPass?
    {
    }
    forall i | 0 <= i < |all| && all[i].OutputPass?
      ensures i > 0 && all[i - 1].SetupPass?
    {
    }
  }

  lemma EventFollows(es: seq<Event>, e: Event)
    requires Realistic(es) && !e.SetupPass? && !e.OutputPass?
    requires TimeOfLast(es) <= e.t <= LastPass(es) + INTERVAL
    ensures Realistic(es + [e]) && LastPass(es + [e]) == LastPass(es) && TimeOfLast(es + [e]) == e.t
  {
    hide Steady, LastPassSince;
    SteadyMore(es, e, INTERVAL);
    OrderInParts(es, [e]);
  }

  lemma IterationFollows(es: seq<Event>, open: bool, requests: seq<Request>, t: nat)
    requires Realistic(es) && TimeOfLast(es) <= t <= LastPass(es) + INTERVAL
    ensures var all := es + Iteration(open, requests, t);
            Realistic(all) && LastPass(all) == t && TimeOfLast(all) == t
  {
    hide Steady, LastPassSince;
    var setup, output := SetupPass(open, requests, t), OutputPass(HEALTHY, t);
    SteadyMore(es, setup, INTERVAL);
    SteadyMore(es + [setup], output, INTERVAL);
    assert es + [setup] + [output] == es + Iteration(open, requests, t);
    OrderInParts(es, Iteration(open, requests, t));
  }

  lemma IterationReached(s: State, open: bool, requests: seq<Request>, t: nat)
    ensures Reached(s, Iteration(open, requests, t))
            == OnUsb(ServiceStale(OnSetup(s, open, requests, Clock(t)), Clock(t)), HEALTHY)
  {
    hide OnUsb, ServiceStale, OnSetup;
    var es := Iteration(open, requests, t);
    ReachedStep(s, es, 0);
    ReachedStep(s, es, 1);
    assert es[..2] == es && es[..0] == [];
  }

  lemma EventReached(s: State, e: Event)
    ensures Reached(s, [e]) == Step(s, e)
  {
    hide Step;
    assert [e][..0] == [];
  }

  /** With no key wanted, the output pass of an iteration changes nothing but the endpoint. */
  lemma QuietPass(s: State, now: uint32)
    requires !HasKey(s.output.desired)
    ensures var s' := OnUsb(ServiceStale(s, now), HEALTHY);
            && s' == s.(output := s'.output, arming := s'.arming)
            && !HasKey(s'.output.desired) && s'.output.wasMounted
            && (s.arming.rearm ==> s'.arming == s.arming)
            && (s.output.wasMounted ==> s'.arming == s.arming)
  {
  }

  /** The main loop running by itself, one iteration every two seconds from `from` on. */
  function Loop(n: nat, from: nat): seq<Event> {
    if n == 0 then []
    else
      var t := from + INTERVAL * (n - 1);
      Loop(n - 1, from) + Iteration(false, [], t)
  }

  lemma {:induction false} SteadyMore(es: seq<Event>, e: Event, gap: nat)
    requires Steady(es, gap)
    requires es != [] ==> es[|es| - 1].t <= e.t
    requires e.t <= LastPass(es) + gap && (e.OutputPass? ==> e.env == HEALTHY)
    ensures Steady(es + [e], gap)
    ensures LastPass(es + [e]) == if e.OutputPass? then e.t else LastPass(es)
  {
    hide LastPassSince;
    var all := es + [e];
    assert all[..|es|] == es;
    forall i | 0 <= i < |all|
      ensures all[i].t <= LastPass(all[..i]) + gap
    {
      if i < |es| {
        assert all[..i] == es[..i] && all[i] == es[i];
      }
    }
    LastPassMore(es, e);
  }

  lemma LastPassMore(es: seq<Event>, e: Event)
    ensures LastPass(es + [e]) == if e.OutputPass? then e.t else LastPass(es)
  {
    assert (es + [e])[..|es|] == es;
  }

  lemma {:induction false} LoopFollows(before: seq<Event>, n: nat, from: nat)
    requires Realistic(before) && TimeOfLast(before) <= from <= LastPass(before) + INTERVAL
    ensures var es := before + Loop(n, from);
            && Realistic(es)
            && LastPass(es) == (if n == 0 then LastPass(before) else from + INTERVAL * (n - 1))
            && TimeOfLast(es) == (if n == 0 then TimeOfLast(before) else from + INTERVAL * (n - 1))
  {
    hide Realistic, LastPassSince, TimeOfLast;
    if n == 0 {
      assert before + Loop(n, from) == before;
    } else {
      LoopFollows(before, n - 1, from);
      var t, es := from + INTERVAL * (n - 1), before + Loop(n - 1, from);
      IterationFollows(es, false, [], t);
      assert before + Loop(n, from) == es + Iteration(false, [], t);
    }
  }

  lemma {:induction false} LoopHasNoReport(n: nat, from: nat)
    ensures |Loop(n, from)| == 2 * n
    ensures forall i :: 0 <= i < 2 * n ==> Quiet(Loop(n, from)[i])
  {
    if n > 0 {
      LoopHasNoReport(n - 1, from);
    }
  }

  lemma {:induction false} LoopIsSilent(n: nat, from: nat)
    ensures Silent(Loop(n, from), from, INTERVAL) && Passes(Loop(n, from)) == n
    ensures LastPassSince(Loop(n, from), from) == if n == 0 then from else from + INTERVAL * (n - 1)
  {
    hide Silent, LastPassSince, Passes;
    EmptyIsSilent(from);
    if n > 0 {
      LoopIsSilent(n - 1, from);
      var t, es := from + INTERVAL * (n - 1), Loop(n - 1, from);
      SilentMore(es, SetupPass(false, [], t), from);
      SilentMore(es + [SetupPass(false, [], t)], OutputPass(HEALTHY, t), from);
      assert Loop(n, from) == es + [SetupPass(false, [], t)] + [OutputPass(HEALTHY, t)];
    }
  }

  lemma EmptyIsSilent(since: nat)
    ensures Silent([], since, INTERVAL) && Passes([]) == 0 && LastPassSince([], since) == since
  {
  }

  lemma SilentMore(es: seq<Event>, e: Event, since: nat)
    requires Silent(es, since, INTERVAL) && Quiet(e)
    requires LastPassSince(es, since) <= e.t <= LastPassSince(es, since) + INTERVAL
    ensures Silent(es + [e], since, INTERVAL)
    ensures Passes(es + [e]) == Passes(es) + if e.OutputPass? then 1 else 0
    ensures LastPassSince(es + [e], since) == if e.OutputPass? then e.t else LastPassSince(es, since)
  {
    var all := es + [e];
    assert all[..|es|] == es;
    forall i | 0 <= i < |all|
      ensures Quiet(all[i]) && LastPassSince(all[..i], since) <= all[i].t <= LastPassSince(all[..i], since) + INTERVAL
    {
      if i < |es| {
        assert all[..i] == es[..i] && all[i] == es[i];
      }
    }
  }

  lemma ConsumedMore(start: State, es: seq<Event>, e: Event)
    ensures LastConsumed(start, es + [e]) == if Consumes(Reached(start, es), e) then e.t else LastConsumed(start, es)
  {
    hide Reached, Consumes;
    assert (es + [e])[..|es|] == es;
  }

  lemma {:induction false} LoopConsumesNothing(start: State, before: seq<Event>, n: nat, from: nat)
    ensures LastConsumed(start, before + Loop(n, from)) == LastConsumed(start, before)
  {
    hide Reached, LastConsumed;
    if n == 0 {
      assert before + Loop(n, from) == before;
    } else {
      var t, es := from + INTERVAL * (n - 1), before + Loop(n - 1, from);
      LoopConsumesNothing(start, before, n - 1, from);
      ConsumedMore(start, es, SetupPass(false, [], t));
      ConsumedMore(start, es + [SetupPass(false, [], t)], OutputPass(HEALTHY, t));
      assert before + Loop(n, from) == es + [SetupPass(false, [], t)] + [OutputPass(HEALTHY, t)];
    }
  }
}
