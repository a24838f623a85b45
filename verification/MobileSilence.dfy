/** The phone receiver when frames stop: when the key is let go, and the one case in which it is not. */
module MobileSilence {
  import opened Types
  import opened MassoKeyboard
  import opened MobileReceiver
  import opened MobileSafety

  lemma {:induction false} ReachedMore(es: seq<Event>, e: Event)
    ensures Reached(es + [e]) == Step(Reached(es), e)
  {
    hide Step;
    assert (es + [e])[..|es|] == es;
  }

  /** What the main loop does by itself, with an attentive host. */
  predicate Quiet(e: Event) {
    e.TimeoutPass? || (e.UsbPass? && e.env == HEALTHY)
  }

  ghost function LastCheck(es: seq<Event>, since: nat): nat {
    if es == [] then since
    else if es[|es| - 1].TimeoutPass? then es[|es| - 1].t
    else LastCheck(es[..|es| - 1], since)
  }

  /** The latest timeout check an endpoint pass has come after. */
  ghost function LastActedOn(es: seq<Event>, since: nat): nat {
    if es == [] then since
    else
      var before := es[..|es| - 1];
      if es[|es| - 1].UsbPass? then LastCheck(before, since) else LastActedOn(before, since)
  }

  function Passes(es: seq<Event>): nat {
    if es == [] then 0 else Passes(es[..|es| - 1]) + if es[|es| - 1].UsbPass? then 1 else 0
  }

  /** Only the main loop runs, its timeout checks at most `gap` apart, the first at most `gap` after `since`. */
  ghost predicate Silent(es: seq<Event>, since: nat, gap: nat) {
    forall i :: 0 <= i < |es| ==>
      Quiet(es[i]) && LastCheck(es[..i], since) <= es[i].t <= LastCheck(es[..i], since) + gap
  }

  lemma SilentPrefix(es: seq<Event>, since: nat, gap: nat)
    requires Silent(es, since, gap) && es != []
    ensures Silent(es[..|es| - 1], since, gap)
  {
    hide LastCheck, Quiet;
    var p := es[..|es| - 1];
    assert forall i :: 0 <= i < |p| ==> p[..i] == es[..i] && p[i] == es[i];
  }

  /** While the guard has not fired: the key is wanted, and from the second pass on it is on the wire. */
  predicate StillHeld(s: State, r: State, passes: nat) {
    && r.output.desired == s.output.desired && r.lastValidMs == s.lastValidMs
    && (passes >= 1 ==> r.output.sent in {RELEASED, s.output.desired})
    && (passes >= 2 ==> r.output.sent == s.output.desired)
  }

  lemma PassExactly(s: State, now: uint32)
    requires s.output.wasMounted
    ensures var r, wanted, sent := OnUsb(s, HEALTHY, now), s.output.desired, s.output.sent;
            && r.output.wasMounted && r.output.desired == wanted && r.lastValidMs == s.lastValidMs
            && r.output.sent == if sent != wanted && HasKey(sent) && HasKey(wanted) then RELEASED else wanted
  {
    hide ResetMapper;
  }

  lemma NothingToGuard(s: State, now: uint32)
    requires !HasKey(s.output.desired) || s.lastValidMs == 0
    ensures !TimesOut(s, now)
  {
  }

  /** A silent run after an accepted frame, followed step by step. */
  lemma {:induction false} SilentRun(before: seq<Event>, since: nat, es: seq<Event>, gap: nat)
    requires var s := Reached(before);
             s.lastValidMs == Clock(since) && HasKey(s.output.desired) && s.output.wasMounted
    requires Silent(es, since, gap) && gap <= 4000
    ensures var s, r, last := Reached(before), Reached(before + es), LastCheck(es, since);
            && since <= LastActedOn(es, since) <= last && r.output.wasMounted
            && (if Clock(since) == 0 || last <= since + 150 then StillHeld(s, r, Passes(es))
                else !HasKey(r.output.desired)
                     && (LastActedOn(es, since) > since + 150 ==> !HasKey(r.output.sent)))
  {
    hide Reached, TimesOut, OnUsb, ResetMapper, Clock, OnFrame;
    if es == [] {
      assert before + es == before;
    } else {
      var n := |es| - 1;
      var p, e := es[..n], es[n];
      SilentPrefix(es, since, gap);
      SilentRun(before, since, p, gap);
      assert before + es == before + p + [e];
      ReachedMore(before + p, e);
      var r := Reached(before + p);
      if e.UsbPass? {
        PassExactly(r, Clock(e.t));
      } else if HasKey(r.output.desired) && Clock(since) != 0 {
        TimeoutIsExact(r, since, e.t);
      } else {
        NothingToGuard(r, Clock(e.t));
      }
    }
  }

  /**
   * Once a phone falls silent with a key wanted, passes beyond the limit release the key if and only if its
   * last frame was not accepted at clock value zero.
   */
  lemma SilenceReleasesUnlessClockZero(before: seq<Event>, since: nat, es: seq<Event>, gap: nat)
    requires var s := Reached(before);
             s.lastValidMs == Clock(since) && HasKey(s.output.desired) && s.output.wasMounted
    requires Silent(es, since, gap) && gap <= 4000
    requires Passes(es) >= 2 && LastActedOn(es, since) > since + 150
    ensures !HasKey(Reached(before + es).output.sent) <==> Clock(since) != 0
  {
    hide Reached;
    SilentRun(before, since, es, gap);
  }
}
