/** The phone receiver: frames, connection events, the stale timer and the USB service. */
module MobileReceiver {
  import opened Types
  import opened MassoKeyboard
  import opened ControlMapper
  import opened MobileProtocol
  import opened UsbOutput

  const STALE_MS := 150

  datatype State = State(
    session: Session, mapper: MapperState, lastValidMs: uint32, neutralRequired: bool, output: UsbOutput.Output)

  const BOOT := State(FRESH_SESSION, INITIAL_MAPPER, 0, true, INITIAL_OUTPUT)

  /** Events carry unbounded time; the code only sees its 32-bit reading. */
  datatype Event =
    | Frame(data: seq<bv8>, t: nat)
    | Connected(t: nat)
    | Disconnected(t: nat)
    | UsbPass(env: UsbEnv, t: nat)
    | TimeoutPass(t: nat)

  function ResetMapper(m: MapperState, now: uint32): MapperState {
    Next(DEFAULT_CONFIG, m, IdleState(now), now)
  }

  /** Demand a neutral controller, forget mapper history and let go of every key. */
  function Locked(s: State, now: uint32): State {
    s.(neutralRequired := true, mapper := ResetMapper(s.mapper, now), output := s.output.(desired := RELEASED))
  }

  function FailClosed(s: State, now: uint32): State {
    Locked(s.(lastValidMs := 0), now)
  }

  /** The frame asks for motion. */
  predicate Drives(g: GamepadState, data: seq<bv8>)
    requires |data| == FRAME_LENGTH
  {
    g.deadman && data[4] != 0
  }

  function OnFrame(s: State, data: seq<bv8>, now: uint32): State {
    if !Accepts(s.session, data) then Locked(s, now)
    else
      var input := Consume(s.session, data, now).input;
      var neutral := input.cancel || (Drives(input, data) && s.neutralRequired);
      var s' := s.(session := AfterFrame(s.session, data), lastValidMs := now);
      if neutral && Drives(input, data) then Locked(s', now)
      else
        s'.(neutralRequired := neutral,
            mapper := Next(DEFAULT_CONFIG, s.mapper, input, now),
            output := s.output.(desired :=
                                  CncReport(MASSO_G3_TOUCH_5_13,
                                            ControlMapper.Output(DEFAULT_CONFIG, s.mapper, input, now))))
  }

  predicate TimesOut(s: State, now: uint32) {
    HasKey(s.output.desired) && s.lastValidMs != 0 && Elapsed(now, s.lastValidMs) > STALE_MS
  }

  function OnUsb(s: State, env: UsbEnv, now: uint32): State {
    var r := ServiceUsb(s.output, env);
    var s' := if r.locked then Locked(s, now) else s;
    s'.(output := r.output)
  }

  function Step(s: State, e: Event): State {
    match e
    case Frame(data, t) => OnFrame(s, data, Clock(t))
    case Connected(t) => FailClosed(s.(session := FRESH_SESSION), Clock(t))
    case Disconnected(t) => FailClosed(s.(session := FRESH_SESSION), Clock(t))
    case UsbPass(env, t) => OnUsb(s, env, Clock(t))
    case TimeoutPass(t) => if TimesOut(s, Clock(t)) then FailClosed(s, Clock(t)) else s
  }

  /** The report the host accepts during an event, if any. */
  function Wire(s: State, e: Event): seq<KeyboardReport> {
    if e.UsbPass? then ServiceUsb(s.output, e.env).wire else []
  }

  class Receiver {
    const session: MobileInputSession
    const mapper: Mapper
    var lastValidMs: uint32
    var neutralRequired: bool
    var desiredReport: KeyboardReport
    var sentReport: KeyboardReport
    var wasMounted: bool
    ghost var wire: seq<KeyboardReport>

    constructor ()
      ensures Valid() && View() == BOOT && wire == []
    {
      session := new MobileInputSession();
      mapper := new Mapper(DEFAULT_CONFIG);
      lastValidMs, neutralRequired := 0, true;
      desiredReport, sentReport, wasMounted, wire := RELEASED, RELEASED, false, [];
    }

    ghost predicate Valid()
      reads this, mapper
    {
      mapper.config == DEFAULT_CONFIG && mapper.Valid()
    }

    ghost function View(): State
      reads this, session, mapper
    {
      State(session.State(), mapper.State(), lastValidMs, neutralRequired,
            UsbOutput.Output(desiredReport, sentReport, wasMounted))
    }

    method ResetAndLock(now: uint32)
      requires Valid()
      modifies this`neutralRequired, this`desiredReport, mapper
      ensures Valid() && View() == Locked(old(View()), now)
    {
      neutralRequired := true;
      var _ := mapper.Update(IdleState(now), now);
      desiredReport := RELEASED;
    }

    method HandleFrame(buffer: array?<bv8>, now: uint32)
      requires Valid()
      modifies this`lastValidMs, this`neutralRequired, this`desiredReport, mapper, session
      ensures Valid() && View() == OnFrame(old(View()), Buffer(buffer), now)
    {
      hide Consume, AfterFrame, FormatError, Next, ControlMapper.Output, CncReport, InWindow16;
      ghost var data, before := Buffer(buffer), session.State();
      var parsed := session.ConsumeFrame(buffer, now);
      AcceptedFrame(before, data, now);
      if !parsed.accepted {
        ResetAndLock(now);
        return;
      }
      lastValidMs := now;
      var direction := buffer[4];
      if !parsed.input.deadman || direction == 0 {
        neutralRequired := false;
      }
      if parsed.input.cancel {
        neutralRequired := true;
      }
      if neutralRequired && parsed.input.deadman && direction != 0 {
        ResetAndLock(now);
      } else {
        var output := mapper.Update(parsed.input, now);
        desiredReport := CncReport(MASSO_G3_TOUCH_5_13, output);
      }
    }

    method FailClosedNow(now: uint32)
      requires Valid()
      modifies this`lastValidMs, this`neutralRequired, this`desiredReport, mapper
      ensures Valid() && View() == FailClosed(old(View()), now)
    {
      lastValidMs := 0;
      ResetAndLock(now);
    }

    method ServiceTimeout(now: uint32)
      requires Valid()
      modifies this`lastValidMs, this`neutralRequired, this`desiredReport, mapper
      ensures Valid()
      ensures View() == if TimesOut(old(View()), now) then FailClosed(old(View()), now) else old(View())
    {
      if HasKey(desiredReport) && lastValidMs != 0 && Elapsed(now, lastValidMs) > STALE_MS {
        FailClosedNow(now);
      }
    }

    method ServiceUsbKeyboard(env: UsbEnv, now: uint32)
      requires Valid()
      modifies this`neutralRequired, this`desiredReport, this`sentReport, this`wasMounted, this`wire, mapper
      ensures Valid() && View() == OnUsb(old(View()), env, now)
      ensures wire == old(wire) + ServiceUsb(old(View()).output, env).wire
    {
      hide Next;
      ResetTwice(mapper.State(), now);
      if env.mounted != wasMounted {
        sentReport := RELEASED;
        ResetAndLock(now);
        wasMounted := env.mounted;
      }
      if !env.mounted || !env.ready || desiredReport == sentReport {
        return;
      }
      if HasKey(sentReport) && HasKey(desiredReport) {
        if env.accepts {
          sentReport := RELEASED;
          wire := wire + [RELEASED];
        } else {
          ResetAndLock(now);
        }
        return;
      }
      if env.accepts {
        sentReport := desiredReport;
        wire := wire + [desiredReport];
      } else {
        ResetAndLock(now);
      }
    }

    method Handle(e: Event, buffer: array?<bv8>)
      requires Valid()
      requires e.Frame? ==> Buffer(buffer) == e.data
      modifies this, mapper, session
      ensures Valid() && View() == Step(old(View()), e)
      ensures wire == old(wire) + Wire(old(View()), e)
    {
      hide OnFrame, FailClosed, TimesOut, OnUsb, ServiceUsb;
      match e
      case Frame(_, t) => HandleFrame(buffer, Clock(t));
      case Connected(t) =>
        session.Reset();
        FailClosedNow(Clock(t));
      case Disconnected(t) =>
        session.Reset();
        FailClosedNow(Clock(t));
      case UsbPass(env, t) => ServiceUsbKeyboard(env, Clock(t));
      case TimeoutPass(t) => ServiceTimeout(Clock(t));
    }
  }

  lemma AcceptedFrame(s: Session, data: seq<bv8>, now: uint32)
    ensures Consume(s, data, now).accepted <==> Accepts(s, data)
    ensures !Accepts(s, data) ==> AfterFrame(s, data) == s
    ensures Accepts(s, data) ==> |data| == FRAME_LENGTH
  {
  }

  /** Resetting the mapper twice is resetting it once. */
  lemma ResetTwice(m: MapperState, now: uint32)
    ensures ResetMapper(ResetMapper(m, now), now) == ResetMapper(m, now)
  {
  }
}
