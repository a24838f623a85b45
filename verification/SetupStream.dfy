/** The setup channel over many main-loop passes, with everything else that happens in between. */
module SetupStream {
  import opened Types
  import opened ProductionConfig
  import opened PersistentConfig
  import opened SetupFraming
  import opened SetupProtocol
  import opened SetupRoundTrip
  import opened GamepadReceiver
  import opened GamepadSafety
  import opened RecordCodec
  import AtomicRegister

  const PASS_LIMIT := 256

  /** One setup pass over an open port, with the bytes it read, or any other event of the receiver. */
  datatype Move = Pass(bytes: string, t: nat, envs: seq<StoreEnv>) | Other(e: Event)

  datatype Channel = Channel(s: State, consumed: string)

  predicate Possible(x: Move) {
    match x
    case Pass(bytes, _, envs) => |bytes| <= PASS_LIMIT <= |envs|
    case Other(e) => !e.SetupPass?
  }

  /** The setup event a pass amounts to. */
  function PassEvent(c: Channel, x: Move): Event
    requires Possible(x) && x.Pass?
  {
    var open, frames := WithSetup(c.s, true), NewFrames(c.consumed, x.bytes);
    SetupPass(true, Requests(open, frames, Clock(x.t), x.envs), x.t)
  }

  function Feed(c: Channel, x: Move): Channel
    requires Possible(x)
  {
    match x
    case Pass(bytes, _, _) => Channel(Step(c.s, PassEvent(c, x)), c.consumed + bytes)
    case Other(e) => Channel(Step(c.s, e), c.consumed)
  }

  ghost function FeedAll(c: Channel, xs: seq<Move>): Channel
    requires forall x <- xs :: Possible(x)
  {
    if xs == [] then c else Feed(FeedAll(c, xs[..|xs| - 1]), xs[|xs| - 1])
  }

  function BytesOf(x: Move): string {
    if x.Pass? then x.bytes else ""
  }

  /** Everything the passes read, in order. */
  function Fed(xs: seq<Move>): string {
    if xs == [] then "" else Fed(xs[..|xs| - 1]) + BytesOf(xs[|xs| - 1])
  }

  lemma PassIsFrames(c: Channel, x: Move)
    requires Possible(x) && x.Pass?
    ensures DeviceOf(Feed(c, x).s)
            == DeviceOf(HandleAll(WithSetup(c.s, true), NewFrames(c.consumed, x.bytes), Clock(x.t), x.envs))
  {
    hide NewFrames, Requests, HandleAll, ExecuteAll, OnSetup;
    var open, frames := WithSetup(c.s, true), NewFrames(c.consumed, x.bytes);
    FramesAreRequests(open, frames, Clock(x.t), x.envs);
    SetupKeepsCommands(c.s, Requests(open, frames, Clock(x.t), x.envs), Clock(x.t));
  }

  /** A move that completes no line leaves the saved configuration alone. */
  lemma MoveCompletesNothing(c: Channel, x: Move)
    requires Possible(x) && '\n' !in BytesOf(x)
    ensures DeviceOf(Feed(c, x).s) == DeviceOf(c.s) && Feed(c, x).consumed == c.consumed + BytesOf(x)
  {
    hide Step, NewFrames, Requests, HandleAll, PassEvent;
    if x.Pass? {
      PassIsFrames(c, x);
      NothingCompleted(c.consumed, x.bytes);
      NothingToHandle(WithSetup(c.s, true), Clock(x.t), x.envs);
    } else {
      EventKeepsStore(c.s, x.e);
    }
  }

  lemma {:induction false} MovesCompleteNothing(c: Channel, xs: seq<Move>)
    requires (forall x <- xs :: Possible(x)) && '\n' !in Fed(xs)
    ensures DeviceOf(FeedAll(c, xs).s) == DeviceOf(c.s) && FeedAll(c, xs).consumed == c.consumed + Fed(xs)
  {
    hide Feed, Possible;
    if xs != [] {
      var n := |xs| - 1;
      assert xs[n] in xs && forall x <- xs[..n] :: x in xs;
      MovesCompleteNothing(c, xs[..n]);
      MoveCompletesNothing(FeedAll(c, xs[..n]), xs[n]);
    }
  }

  lemma OneFrameOfMany(s: State, frame: Frame, now: uint32, envs: seq<StoreEnv>)
    requires envs != []
    ensures HandleAll(s, [frame], now, envs) == Handle(s, frame, now, envs[0])
  {
    hide Handle;
    assert [frame][..0] == [];
  }

  /** The move that completes the line saves the mapping. */
  lemma LastMoveSaves(start: State, c: Channel, x: Move, m: ProductionMapping)
    requires Possible(x) && x.Pass? && IsValid(m) && start.mapping.precisionMask == m.precisionMask
    requires DeviceOf(c.s) == DeviceOf(start)
    requires NewFrames(c.consumed, x.bytes) == [Line(SetConfigLine(m))]
    ensures DeviceOf(Feed(c, x).s) == DeviceOf(Execute(start, SetConfig(m, x.envs[0]), Clock(x.t)))
    ensures Feed(c, x).consumed == c.consumed + x.bytes
  {
    hide IsValid, NewFrames, HandleAll, SetConfigLine, RequestIn, Store, Step, PassEvent;
    var open := WithSetup(c.s, true);
    PassIsFrames(c, x);
    OneFrameOfMany(open, Line(SetConfigLine(m)), Clock(x.t), x.envs);
    SentLineIsUnderstood(open, m, x.envs[0]);
  }

  /**
   * Sending the line of a valid mapping from a line boundary on, cut over passes in any way and with any
   * other events between them, saves exactly that mapping, once, at the pass that reads its line feed.
   */
  lemma {:induction false} SentConfigurationIsSaved(c: Channel, xs: seq<Move>, m: ProductionMapping) returns (k: nat)
    requires forall x <- xs :: Possible(x)
    requires IsValid(m) && c.s.mapping.precisionMask == m.precisionMask
    requires Unfinished(c.consumed) == "" && Fed(xs) == SetConfigLine(m) + "\n"
    ensures k < |xs| && xs[k].Pass? && |xs[k].envs| > 0 && '\n' in xs[k].bytes
    ensures DeviceOf(FeedAll(c, xs).s) == DeviceOf(Execute(c.s, SetConfig(m, xs[k].envs[0]), Clock(xs[k].t)))
    ensures FeedAll(c, xs).consumed == c.consumed + Fed(xs)
  {
    hide IsValid, SetConfigLine, Execute, Feed, NewFrames, FramesOf, Unfinished;
    var line, n := SetConfigLine(m), |xs| - 1;
    var before, x := xs[..n], xs[n];
    assert x in xs && forall y <- before :: y in xs;
    SentLineIsOneFrame(m);
    if '\n' !in BytesOf(x) {
      LineFeedIsLast(Fed(before), BytesOf(x), line);
      k := SentConfigurationIsSaved(c, before, m);
      assert before[k] == xs[k];
      MoveCompletesNothing(FeedAll(c, before), x);
    } else {
      k := n;
      PrefixHasNoLineFeed(Fed(before), BytesOf(x), line);
      MovesCompleteNothing(c, before);
      NewFramesInParts(c.consumed, Fed(before), x.bytes);
      NothingCompleted(c.consumed, Fed(before));
      NewFramesAtBoundary(c.consumed, line + "\n");
      LastMoveSaves(c.s, FeedAll(c, before), x, m);
    }
  }

  /** Flash takes the complete record of this save and reads it back. */
  predicate Takes(d: AtomicRegister.Device, m: ProductionMapping, env: StoreEnv) {
    var record := EncodeBytes(m, (d.store.sequence + 1) % 0x1_0000_0000, d.store.address);
    d.store.flash.present && env.accepted && env.readback == Some(record)
    && AtomicRegister.Honest(d, AtomicRegister.Save(m, env))
  }

  predicate Willing(d: AtomicRegister.Device, m: ProductionMapping, x: Move) {
    x.Pass? && x.envs != [] ==> Takes(d, m, x.envs[0])
  }

  predicate IsInForce(d: AtomicRegister.Device, m: ProductionMapping) {
    d.mapping == m && Load(d.store.flash).ok && Load(d.store.flash).mapping == m
  }

  /**
   * With a flash driver that takes the record, the mapping that was sent is afterwards in force and is what
   * the next boot loads, however the bytes were cut.
   */
  lemma SentConfigurationIsInForce(c: Channel, xs: seq<Move>, m: ProductionMapping)
    requires forall x <- xs :: Possible(x)
    requires IsValid(m) && c.s.mapping.precisionMask == m.precisionMask
    requires Unfinished(c.consumed) == "" && Fed(xs) == SetConfigLine(m) + "\n"
    requires AtomicRegister.InSync(DeviceOf(c.s))
    requires forall x <- xs :: Willing(DeviceOf(c.s), m, x)
    ensures IsInForce(DeviceOf(FeedAll(c, xs).s), m)
  {
    hide IsValid, SetConfigLine, FeedAll, Fed, Store, Load, EncodeBytes, Takes, IsInForce, AtomicRegister.InSync;
    var k := SentConfigurationIsSaved(c, xs, m);
    var d, env := DeviceOf(c.s), xs[k].envs[0];
    assert xs[k] in xs;
    SavedIsLoaded(d, m, env);
  }

  lemma SavedIsLoaded(d: AtomicRegister.Device, m: ProductionMapping, env: StoreEnv)
    requires AtomicRegister.InSync(d) && Takes(d, m, env) && IsValid(m)
    ensures IsInForce(AtomicRegister.Apply(d, AtomicRegister.Save(m, env)), m)
  {
    hide IsValid, Store, Load, EncodeBytes;
    AtomicRegister.SaveSucceedsExactly(d, m, env);
    AtomicRegister.LoadedAddressIsValid(d.store.flash);
    AtomicRegister.StoreOutcome(d.store, m, env);
  }

  lemma LineFeedIsLast(first: string, second: string, line: string)
    requires first + second == line + "\n" && '\n' !in second
    ensures second == "" && first == line + "\n"
  {
    assert (first + second)[|line|] == '\n';
    assert second == "";
  }

  lemma PrefixHasNoLineFeed(first: string, second: string, line: string)
    requires first + second == line + "\n" && second != "" && '\n' !in line
    ensures '\n' !in first
  {
    assert first == (first + second)[..|first|] == line[..|first|];
  }
}
