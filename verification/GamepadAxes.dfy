/** One axis at a time, on the wire of the whole receiver. */
module GamepadAxes {
  import opened Types
  import opened MassoKeyboard
  import opened ControlMapper
  import opened GamepadReceiver
  import opened GamepadSafety
  import opened ProductionConfig
  import PersistentConfig
  import Lite2Report
  import UsbOutput

  /** A readable report, not cancelling, with the dead-man up or every stick at rest. */
  predicate SeparatingReport(s: State, e: Event) {
    && Readable(s, e) && IsValid(s.mapping)
    && !Presses(RawOf(s, e), s.mapping, 1)
    && (!Down(RawOf(s, e).buttons, s.mapping.deadmanMask) || AtRest(RawOf(s, e), 9000))
  }

  lemma SeparatesIsDocumented(s: State, e: Event)
    requires Readable(s, e)
    ensures Separates(DEFAULT_CONFIG, Mapped(RawOf(s, e), s.mapping), Clock(e.t)) ==> SeparatingReport(s, e)
  {
    hide Mapped, IsValid, Down, Presses;
    var raw, m := RawOf(s, e), s.mapping;
    ParsedIsFresh(s, e);
    MappedKeepsTheRest(raw, m);
    if IsValid(m) {
      MotionIsDocumented(raw, m);
      FacesAreDocumented(raw, m);
    } else {
      InvalidIsCancelled(raw, m);
    }
  }

  /** The mapper can only move this axis, or none. */
  predicate Keeps(s: State, axis: Axis) {
    s.mapper.lockedAxis == Some(axis) || s.mapper.awaitingCenter
  }

  lemma {:induction false} CommandsKeepMapper(s: State, requests: seq<Request>, now: uint32)
    ensures ExecuteAll(s, requests, now).mapper == s.mapper
  {
    hide PersistentConfig.Store, PersistentConfig.StoreAddress;
    if requests != [] {
      CommandsKeepMapper(s, requests[..|requests| - 1], now);
    }
  }

  lemma OnlyReportsMoveMapper(s: State, e: Event)
    requires !e.Report?
    ensures Step(s, e).mapper == s.mapper
  {
    hide ExecuteAll, Elapsed, IsCandidate, UsbOutput.ServiceUsb;
    if e.SetupPass? {
      CommandsKeepMapper(WithSetup(s, true), e.requests, Clock(e.t));
    }
  }

  lemma ReadableIsMapped(s: State, e: Event)
    requires e.Report?
    ensures ReadReport(s, e.report, Clock(e.t)).Some? <==> Readable(s, e)
    ensures Readable(s, e) ==> ReadReport(s, e.report, Clock(e.t)) == Some(Mapped(RawOf(s, e), s.mapping))
  {
    hide Mapped, Lite2Report.Parse;
  }

  /** While enabled, an event keeps the axis unless it separates or disarms. */
  lemma EventKeepsAxis(s: State, e: Event, axis: Axis)
    requires Safe(s) && Keeps(s, axis) && !s.arming.rearm
    requires !SeparatingReport(s, e) && !Step(s, e).arming.rearm
    ensures Keeps(Step(s, e), axis)
  {
    hide ReadReport, Separates, SeparatingReport, Next, ControlMapper.Output, CncReport, SafeToArm;
    if e.Report? {
      var g := ReadReport(s, e.report, Clock(e.t));
      if g.Some? {
        ReadableIsMapped(s, e);
        SeparatesIsDocumented(s, e);
        LockIsKept(DEFAULT_CONFIG, s.mapper, g.value, Clock(e.t), axis);
      }
    } else {
      OnlyReportsMoveMapper(s, e);
    }
  }

  /** A report that publishes a jog locks its axis, and was not waiting for centre or locked to another. */
  lemma JogLocks(s: State, e: Event)
    requires e.Report? && IsJog(Step(s, e).output.desired)
    ensures var axis := Read(Step(s, e).output.desired).axis;
            && !Step(s, e).arming.rearm && Step(s, e).mapper.lockedAxis == Some(axis)
            && (s.mapper.lockedAxis.Some? ==> s.mapper.lockedAxis == Some(axis)) && !s.mapper.awaitingCenter
  {
    hide ReadReport, Next, ControlMapper.Output, CncReport, SafeToArm;
    var g := ReadReport(s, e.report, Clock(e.t));
    if g.Some? {
      var frame := ControlMapper.Output(DEFAULT_CONFIG, s.mapper, g.value, Clock(e.t));
      ReportReadsBack(s.mapping.cncProfile, frame);
      if frame.jog.Some? {
        JogIsDeliberate(DEFAULT_CONFIG, s.mapper, g.value, Clock(e.t));
        JogIsLocked(s.mapper, g.value, Clock(e.t));
      }
    }
  }

  lemma JogIsLocked(m: MapperState, g: GamepadState, now: uint32)
    requires ControlMapper.Output(DEFAULT_CONFIG, m, g, now).jog.Some?
    ensures Next(DEFAULT_CONFIG, m, g, now).lockedAxis
            == Some(ControlMapper.Output(DEFAULT_CONFIG, m, g, now).jog.value.axis)
  {
  }

  /** A key on the wire is the one wanted, and sending it disarms nothing. */
  lemma WireIsWanted(s: State, e: Event, key: KeyboardReport)
    requires Safe(s) && key in Wire(s, e) && HasKey(key)
    ensures e.OutputPass? && s.output.desired == key && Step(s, e).output.desired == key
    ensures !s.arming.rearm && !Step(s, e).arming.rearm
  {
    hide Elapsed;
  }

  /** A wanted key has stood since the latest report put it there. */
  lemma {:induction false} WantedSinceReport(start: State, es: seq<Event>) returns (p: nat)
    requires !HasKey(start.output.desired) && HasKey(Reached(start, es).output.desired)
    ensures p < |es| && es[p].Report? && forall m :: p < m < |es| ==> !es[m].Report?
    ensures Reached(start, es[..p + 1]).output.desired == Reached(start, es).output.desired
    ensures Reached(start, es[..p + 1]).mapper == Reached(start, es).mapper
  {
    hide Step;
    assert es != [];
    var n := |es| - 1;
    assert es[..n + 1] == es;
    if es[n].Report? {
      p := n;
    } else {
      OtherEventsOnlyRelease(Reached(start, es[..n]), es[n]);
      OnlyReportsMoveMapper(Reached(start, es[..n]), es[n]);
      p := WantedSinceReport(start, es[..n]);
      PrefixOfPrefix(es, n, p + 1);
    }
  }

  /** Something between two events let go of the axis: a separating report, or a disarming event. */
  ghost predicate LetGo(start: State, es: seq<Event>, m: nat)
    requires m < |es|
  {
    SeparatingReport(Reached(start, es[..m]), es[m]) || Reached(start, es[..m + 1]).arming.rearm
  }

  lemma {:induction false} AxisIsKeptInRuns(start: State, es: seq<Event>, i: nat, n: nat, axis: Axis)
    requires Safe(start) && i <= n <= |es|
    requires Keeps(Reached(start, es[..i]), axis) && !Reached(start, es[..i]).arming.rearm
    requires forall m :: i <= m < n ==> !LetGo(start, es, m)
    ensures Keeps(Reached(start, es[..n]), axis) && !Reached(start, es[..n]).arming.rearm
    decreases n
  {
    hide Step, Keeps, Safe, SeparatingReport;
    if i < n {
      AxisIsKeptInRuns(start, es, i, n - 1, axis);
      SafeAlways(start, es[..n - 1]);
      ReachedStep(start, es, n - 1);
      assert !LetGo(start, es, n - 1);
      EventKeepsAxis(Reached(start, es[..n - 1]), es[n - 1], axis);
    }
  }

  /** A wanted jog has its axis locked. */
  lemma WantedJogIsLocked(start: State, es: seq<Event>) returns (p: nat)
    requires Safe(start) && !HasKey(start.output.desired) && IsJog(Reached(start, es).output.desired)
    ensures p < |es| && es[p].Report? && forall m :: p < m < |es| ==> !es[m].Report?
    ensures Reached(start, es[..p + 1]).output.desired == Reached(start, es).output.desired
    ensures Keeps(Reached(start, es), Read(Reached(start, es).output.desired).axis)
  {
    hide Reached, Step, Safe;
    p := WantedSinceReport(start, es);
    ReachedStep(start, es, p);
    JogLocks(Reached(start, es[..p]), es[p]);
  }

  /** The host accepts a jog key for this axis at event `i`. */
  ghost predicate JogsAt(start: State, es: seq<Event>, i: nat, axis: Axis)
    requires i < |es|
  {
    exists key <- Wire(Reached(start, es[..i]), es[i]) :: IsJog(key) && Read(key).axis == axis
  }

  /** After the key was sent, the axis is still kept. */
  lemma SentJogIsKept(start: State, es: seq<Event>, i: nat, key: KeyboardReport) returns (p: nat)
    requires Safe(start) && !HasKey(start.output.desired)
    requires i < |es| && key in Wire(Reached(start, es[..i]), es[i]) && IsJog(key)
    ensures p < i && es[p].Report? && !es[i].Report? && forall m :: p < m < i ==> !es[m].Report?
    ensures Reached(start, es[..p + 1]).output.desired == key
    ensures Keeps(Reached(start, es[..i + 1]), Read(key).axis) && !Reached(start, es[..i + 1]).arming.rearm
  {
    hide Reached, Step, Safe, Wire;
    var s := Reached(start, es[..i]);
    SafeAlways(start, es[..i]);
    WireIsWanted(s, es[i], key);
    p := WantedJogIsLocked(start, es[..i]);
    PrefixOfPrefix(es, i, p + 1);
    assert forall m :: p <= m < i ==> es[..i][m] == es[m];
    ReachedStep(start, es, i);
    OnlyReportsMoveMapper(s, es[i]);
  }

  /** A report that publishes a jog for another axis finds the first one no longer kept. */
  lemma OtherAxisWasLetGo(start: State, es: seq<Event>, q: nat, a: Axis)
    requires q < |es| && es[q].Report?
    requires var key := Reached(start, es[..q + 1]).output.desired; IsJog(key) && Read(key).axis != a
    ensures !Keeps(Reached(start, es[..q]), a)
  {
    hide Reached, Step;
    ReachedStep(start, es, q);
    JogLocks(Reached(start, es[..q]), es[q]);
  }

  /**
   * Whenever the host is sent jog keys for two different axes, strictly between the two there is a report
   * that had the dead-man up or every axis centred, or an event that disarmed the receiver.
   */
  lemma AxisChangeOnWireIsSeparated(start: State, es: seq<Event>, i: nat, j: nat, a: Axis, b: Axis) returns (m: nat)
    requires Safe(start) && !HasKey(start.output.desired)
    requires i < j < |es| && a != b && JogsAt(start, es, i, a) && JogsAt(start, es, j, b)
    ensures i < m < j && LetGo(start, es, m)
  {
    hide Reached, Step, Safe, Keeps, SeparatingReport, Wire, LetGo;
    var first :| first in Wire(Reached(start, es[..i]), es[i]) && IsJog(first) && Read(first).axis == a;
    var second :| second in Wire(Reached(start, es[..j]), es[j]) && IsJog(second) && Read(second).axis == b;
    var p := SentJogIsKept(start, es, i, first);
    var q := SentJogIsKept(start, es, j, second);
    assert q > i by {
      assert q < i ==> q == p;
    }
    OtherAxisWasLetGo(start, es, q, a);
    if n :| i < n < q && LetGo(start, es, n) {
      m := n;
    } else {
      AxisIsKeptInRuns(start, es, i + 1, q, a);
      assert false;
    }
  }
}
