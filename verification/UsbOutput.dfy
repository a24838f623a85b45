/** The keyboard endpoint service both receivers run once per main-loop pass. */
module UsbOutput {
  import opened Types
  import opened MassoKeyboard

  /** The report the receiver wants on the wire, the last one accepted, and the last mount state seen. */
  datatype Output = Output(desired: KeyboardReport, sent: KeyboardReport, wasMounted: bool)

  const INITIAL_OUTPUT := Output(RELEASED, RELEASED, false)

  /** What the USB stack answers during one pass. */
  datatype UsbEnv = UsbEnv(mounted: bool, ready: bool, accepts: bool)

  /** `locked` tells the receiver to demand a neutral controller; `wire` holds the accepted report, if any. */
  datatype UsbResult = UsbResult(output: Output, locked: bool, wire: seq<KeyboardReport>)

  predicate MountChanges(o: Output, env: UsbEnv) {
    env.mounted != o.wasMounted
  }

  /** The state after the mount check: a change forgets what was sent and releases. */
  function Remounted(o: Output, env: UsbEnv): Output {
    if MountChanges(o, env) then Output(RELEASED, RELEASED, env.mounted) else o
  }

  /** The report offered to the host, or none when there is nothing to say. */
  function Offer(o: Output): Option<KeyboardReport> {
    if o.desired == o.sent then None
    else if HasKey(o.sent) && HasKey(o.desired) then Some(RELEASED)
    else Some(o.desired)
  }

  function ServiceUsb(o: Output, env: UsbEnv): UsbResult {
    var o', changed := Remounted(o, env), MountChanges(o, env);
    if !env.mounted || !env.ready || Offer(o').None? then UsbResult(o', changed, [])
    else if env.accepts then UsbResult(o'.(sent := Offer(o').value), changed, [Offer(o').value])
    else UsbResult(o'.(desired := RELEASED), true, [])
  }

  /** Accepted reports take turns: a key, then all keys up, starting with a key. */
  predicate Alternates(wire: seq<KeyboardReport>) {
    forall i :: 0 <= i < |wire| ==> (HasKey(wire[i]) <==> i % 2 == 0)
  }

  function LastSent(wire: seq<KeyboardReport>): KeyboardReport {
    if wire == [] then RELEASED else wire[|wire| - 1]
  }

  /** One pass of any publisher: it replaces the desired report, then the endpoint is serviced. */
  datatype Pass = Pass(desired: KeyboardReport, env: UsbEnv)

  function PassResult(o: Output, pass: Pass): UsbResult {
    ServiceUsb(o.(desired := pass.desired), pass.env)
  }

  ghost function RunPasses(o: Output, passes: seq<Pass>): Output {
    if passes == [] then o
    else PassResult(RunPasses(o, passes[..|passes| - 1]), passes[|passes| - 1]).output
  }

  /** The reports the host has accepted since the last mount change. */
  ghost function WireSinceMount(o: Output, passes: seq<Pass>): seq<KeyboardReport> {
    if passes == [] then []
    else
      var n := |passes| - 1;
      var before := RunPasses(o, passes[..n]);
      var kept := if MountChanges(before, passes[n].env) then [] else WireSinceMount(o, passes[..n]);
      kept + PassResult(before, passes[n]).wire
  }

  /** One serviced pass extends an alternating wire to an alternating wire. */
  lemma ServiceKeepsAlternation(o: Output, env: UsbEnv, wire: seq<KeyboardReport>)
    requires Alternates(wire) && o.sent == LastSent(wire)
    ensures var r := ServiceUsb(o, env);
            var wire' := (if MountChanges(o, env) then [] else wire) + r.wire;
            Alternates(wire') && r.output.sent == LastSent(wire')
  {
  }

  /**
   * Whatever reports are asked for and however the host answers, between mount changes the accepted
   * reports strictly alternate and the remembered one is the last accepted one.
   */
  lemma {:induction false} WireAlternates(passes: seq<Pass>)
    ensures Alternates(WireSinceMount(INITIAL_OUTPUT, passes))
    ensures RunPasses(INITIAL_OUTPUT, passes).sent == LastSent(WireSinceMount(INITIAL_OUTPUT, passes))
  {
    if passes != [] {
      var n := |passes| - 1;
      WireAlternates(passes[..n]);
      ServiceKeepsAlternation(RunPasses(INITIAL_OUTPUT, passes[..n]).(desired := passes[n].desired), passes[n].env,
                              WireSinceMount(INITIAL_OUTPUT, passes[..n]));
    }
  }

  /** With the receiver locked and releasing, only all-keys-up can reach the host. */
  lemma ReleasedSendsNoKey(o: Output, env: UsbEnv)
    requires !HasKey(o.desired)
    ensures var r := ServiceUsb(o, env);
            !HasKey(r.output.desired) && (forall i :: 0 <= i < |r.wire| ==> !HasKey(r.wire[i]))
  {
  }

  /**
   * One pass in full. A mount change forgets everything and locks; an absent or busy host changes nothing; an
   * attentive one takes the wanted report, or all keys up between two keys; a refusal releases and locks.
   */
  lemma PassIsDocumented(o: Output, env: UsbEnv)
    ensures var r, changed := ServiceUsb(o, env), env.mounted != o.wasMounted;
            var next := if o.sent != RELEASED && o.desired != RELEASED then RELEASED else o.desired;
            && r.output.wasMounted == env.mounted
            && (changed ==> r == UsbResult(Output(RELEASED, RELEASED, env.mounted), true, []))
            && (!changed && (!env.mounted || !env.ready || o.desired == o.sent) ==> r == UsbResult(o, false, []))
            && (!changed && env.mounted && env.ready && o.desired != o.sent ==>
                  r == if env.accepts then UsbResult(o.(sent := next), false, [next])
                       else UsbResult(o.(desired := RELEASED), true, []))
  {
  }

  /** A steady, attentive host holds whatever stays wanted after at most two passes. */
  lemma WantedArrivesInTwo(o: Output)
    requires o.wasMounted
    ensures var env := UsbEnv(true, true, true);
            ServiceUsb(ServiceUsb(o, env).output, env).output == Output(o.desired, o.desired, true)
  {
  }
}
