/** The two-slot store refines one atomic register, through failures, power cuts and reboots. */
module AtomicRegister {
  import opened Types
  import opened ProductionConfig
  import opened RecordCodec
  import opened PersistentConfig

  /** The running receiver's view: the store object and the mapping in force. */
  datatype Device = Device(store: Persist, mapping: ProductionMapping)

  function Boot(f: Flash): Device {
    var l := Load(f);
    Device(Persist(l.sequence, l.active, l.address, f), l.mapping)
  }

  /** Memory is exactly what a boot would load from the present flash contents. */
  predicate InSync(d: Device) {
    d == Boot(d.store.flash)
  }

  /** The single logical value the two slots implement. */
  datatype Value = Value(mapping: ProductionMapping, address: Option<Address>, sequence: uint32)

  function ValueOf(d: Device): Value {
    Value(d.mapping, d.store.address, d.store.sequence)
  }

  /** What one operation tries to make the register hold. */
  function Wanted(v: Value, m: ProductionMapping, address: Option<Address>): Value {
    Value(m, if address.Some? then address else v.address, Successor(v.sequence))
  }

  datatype Op =
    | Save(mapping: ProductionMapping, env: StoreEnv)
    | Pair(address: Address, env: StoreEnv)
    | PowerCutInSave(mapping: ProductionMapping, env: StoreEnv, at: nat)
    | PowerCutInPair(address: Address, env: StoreEnv, at: nat)
    | Reboot

  /** Flash as it stands when power fails after `at` of the operation's flash steps. */
  function CutAt(f: Flash, trail: seq<Flash>, at: nat): Flash {
    LastOr(f, trail[..if at < |trail| then at else |trail|])
  }

  function Outcome(d: Device, op: Op): StoreResult {
    match op
    case Save(m, env) => Store(d.store, m, env)
    case PowerCutInSave(m, env, _) => Store(d.store, m, env)
    case Pair(a, env) => StoreAddress(d.store, d.mapping, a, env)
    case PowerCutInPair(a, env, _) => StoreAddress(d.store, d.mapping, a, env)
    case Reboot => StoreResult(d.store, false, [])
  }

  function Apply(d: Device, op: Op): Device {
    var r := Outcome(d, op);
    match op
    case Save(m, _) => Device(r.state, if r.ok then m else d.mapping)
    case Pair(_, _) => Device(r.state, d.mapping)
    case PowerCutInSave(_, _, at) => Boot(CutAt(d.store.flash, r.trail, at))
    case PowerCutInPair(_, _, at) => Boot(CutAt(d.store.flash, r.trail, at))
    case Reboot => Boot(d.store.flash)
  }

  /** The value the operation would install. */
  function Goal(d: Device, op: Op): Value {
    match op
    case Save(m, _) => Wanted(ValueOf(d), m, None)
    case PowerCutInSave(m, _, _) => Wanted(ValueOf(d), m, None)
    case Pair(a, _) => Wanted(ValueOf(d), d.mapping, Some(a))
    case PowerCutInPair(a, _, _) => Wanted(ValueOf(d), d.mapping, Some(a))
    case Reboot => ValueOf(d)
  }

  /** The bytes the operation writes. */
  function RecordOf(d: Device, op: Op): seq<bv8> {
    var goal := Goal(d, op);
    EncodeBytes(goal.mapping, goal.sequence, goal.address)
  }

  /** The slot is left alone or holds nothing a boot would accept. */
  predicate Harmless(old_: Option<seq<bv8>>, new_: Option<seq<bv8>>) {
    new_ == old_ || Understood(new_).None?
  }

  /**
   * The driver behaviour taken for granted. A write reported as failed leaves the slot harmless and a
   * failed verification can be cleaned up; a read-back that matches is true; torn bytes are harmless.
   */
  predicate Honest(d: Device, op: Op) {
    var old_ := At(d.store.flash, Target(d.store));
    var record := RecordOf(d, op);
    match op
    case Save(_, env) => HonestAnswer(d.store.flash, old_, record, env)
    case Pair(_, env) => HonestAnswer(d.store.flash, old_, record, env)
    case PowerCutInSave(_, env, _) => HonestTears(old_, record, env.writes)
    case PowerCutInPair(_, env, _) => HonestTears(old_, record, env.writes)
    case Reboot => true
  }

  predicate HonestAnswer(f: Flash, old_: Option<seq<bv8>>, record: seq<bv8>, env: StoreEnv) {
    && f.canDelete
    && (!env.accepted ==> env.writes == [] || Harmless(old_, env.writes[|env.writes| - 1]))
    && (env.accepted && env.readback == Some(record) ==>
          env.writes != [] && env.writes[|env.writes| - 1] == Some(record))
  }

  predicate HonestTears(old_: Option<seq<bv8>>, record: seq<bv8>, writes: seq<Option<seq<bv8>>>) {
    forall i :: 0 <= i < |writes| ==> Harmless(old_, writes[i]) || writes[i] == Some(record)
  }

  /** A harmless value in the slot that is not in use changes nothing a boot would see. */
  lemma HarmlessSlotKeepsLoad(p: Persist, value: Option<seq<bv8>>)
    requires Load(p.flash).active == p.active
    requires Harmless(At(p.flash, Target(p)), value)
    ensures Load(With(p.flash, Target(p), value)) == Load(p.flash)
  {
    hide DecodeBytes;
  }

  /** A complete new record in the slot that is not in use wins the next boot, also when the sequence wraps. */
  lemma NewRecordWins(p: Persist, m: ProductionMapping, address: Option<Address>)
    requires p.flash.present && IsValid(m) && (address.Some? ==> AddressValid(address.value))
    requires Load(p.flash).active == p.active && Load(p.flash).sequence == p.sequence
    ensures var record := EncodeBytes(m, Successor(p.sequence), address);
            && Load(With(p.flash, Target(p), Some(record)))
               == Loaded(true, m, Successor(p.sequence), Some(Target(p)), address)
            && DecodeBytes(record).Some?
  {
    hide DecodeBytes, EncodeBytes, Validate, Newer;
    StoredIsRecovered(m, Successor(p.sequence), address);
    SuccessorIsNewer(p.sequence);
  }

  lemma LoadedAddressIsValid(f: Flash)
    ensures Load(f).address.Some? ==> AddressValid(Load(f).address.value)
    ensures IsValid(Load(f).mapping)
  {
    hide DecodeBytes;
    if f.a.Some? && DecodeBytes(f.a.value).Some? {
      AcceptedIsChecked(f.a.value);
    }
    if f.b.Some? && DecodeBytes(f.b.value).Some? {
      AcceptedIsChecked(f.b.value);
    }
    ValidationIsDocumented(DEFAULT_MAPPING);
  }

  /** A failed or successful store leaves flash and memory telling the same story. */
  lemma StoreOutcome(p: Persist, m: ProductionMapping, env: StoreEnv)
    requires Load(p.flash).active == p.active && Load(p.flash).sequence == p.sequence
    requires p.address.Some? ==> AddressValid(p.address.value)
    requires HonestAnswer(p.flash, At(p.flash, Target(p)), EncodeBytes(m, Successor(p.sequence), p.address), env)
    ensures var r := Store(p, m, env);
            if r.ok then
              Load(r.state.flash) == Loaded(true, m, r.state.sequence, r.state.active, r.state.address)
              && r.state.sequence == Successor(p.sequence) && r.state.address == p.address
            else Load(r.state.flash) == Load(p.flash) && r.state == p.(flash := r.state.flash)
  {
    hide DecodeBytes, EncodeBytes, Validate, Load;
    var target := Target(p);
    if IsValid(m) && p.flash.present {
      NewRecordWins(p, m, p.address);
      var trail := WriteTrail(p.flash, target, env.writes);
      if env.writes != [] {
        var last := env.writes[|env.writes| - 1];
        assert LastOr(p.flash, trail) == With(p.flash, target, last);
        if !env.accepted {
          HarmlessSlotKeepsLoad(p, last);
        }
        assert With(With(p.flash, target, last), target, None) == With(p.flash, target, None);
      }
      HarmlessSlotKeepsLoad(p, None);
    }
  }

  /** Every flash state inside a store boots to exactly the old or exactly the new contents. */
  lemma EveryCutIsOldOrNew(p: Persist, m: ProductionMapping, env: StoreEnv, at: nat)
    requires Load(p.flash).active == p.active && Load(p.flash).sequence == p.sequence
    requires p.address.Some? ==> AddressValid(p.address.value)
    requires HonestTears(At(p.flash, Target(p)), EncodeBytes(m, Successor(p.sequence), p.address), env.writes)
    ensures var f := CutAt(p.flash, Store(p, m, env).trail, at);
            || Load(f) == Load(p.flash)
            || Load(f) == Loaded(true, m, Successor(p.sequence), Some(Target(p)), p.address)
  {
    hide DecodeBytes, EncodeBytes, Validate, Load;
    var target := Target(p);
    var r := Store(p, m, env);
    var n := if at < |r.trail| then at else |r.trail|;
    if IsValid(m) && p.flash.present && n != 0 {
      NewRecordWins(p, m, p.address);
      HarmlessSlotKeepsLoad(p, None);
      if n <= |env.writes| {
        var w := env.writes[n - 1];
        assert LastOr(p.flash, r.trail[..n]) == With(p.flash, target, w);
        if Harmless(At(p.flash, target), w) {
          HarmlessSlotKeepsLoad(p, w);
        }
      } else {
        assert LastOr(p.flash, r.trail[..n]) == With(p.flash, target, None);
      }
    }
  }

  /** A save succeeds exactly when the mapping is valid and flash takes the complete record and reads it back. */
  lemma SaveSucceedsExactly(d: Device, m: ProductionMapping, env: StoreEnv)
    requires InSync(d)
    ensures Outcome(d, Save(m, env)).ok <==>
              && IsValid(m) && d.store.flash.present && env.accepted
              && env.readback == Some(EncodeBytes(m, (d.store.sequence + 1) % 0x1_0000_0000, d.store.address))
  {
    hide DecodeBytes, EncodeBytes, Validate, Load;
    LoadedAddressIsValid(d.store.flash);
    if IsValid(m) {
      StoredIsRecovered(m, Successor(d.store.sequence), d.store.address);
    }
  }

  /** A pairing succeeds exactly when the address is real and flash takes the complete record and reads it back. */
  lemma PairSucceedsExactly(d: Device, a: Address, env: StoreEnv)
    requires InSync(d)
    ensures Outcome(d, Pair(a, env)).ok <==>
              && a != 0 && a != 0xffff_ffff_ffff && d.store.flash.present && env.accepted
              && env.readback == Some(EncodeBytes(d.mapping, (d.store.sequence + 1) % 0x1_0000_0000, Some(a)))
  {
    hide DecodeBytes, EncodeBytes, Validate, Load;
    LoadedAddressIsValid(d.store.flash);
    if AddressValid(a) {
      StoredIsRecovered(d.mapping, Successor(d.store.sequence), Some(a));
    }
  }

  /** One operation: memory stays in step with flash, and the register moves atomically or not at all. */
  lemma OneOperation(d: Device, op: Op)
    requires InSync(d) && Honest(d, op)
    ensures InSync(Apply(d, op))
    ensures ValueOf(Apply(d, op)) == ValueOf(d) || ValueOf(Apply(d, op)) == Goal(d, op)
    ensures op.Save? || op.Pair? ==>
              ValueOf(Apply(d, op)) == if Outcome(d, op).ok then Goal(d, op) else ValueOf(d)
  {
    hide DecodeBytes, EncodeBytes, Validate, Load, Store, HonestAnswer, HonestTears;
    LoadedAddressIsValid(d.store.flash);
    match op
    case Save(m, env) => StoreOutcome(d.store, m, env);
    case PowerCutInSave(m, env, at) => EveryCutIsOldOrNew(d.store, m, env, at);
    case Pair(a, env) =>
      if AddressValid(a) {
        StoreOutcome(d.store.(address := Some(a)), d.mapping, env);
      }
    case PowerCutInPair(a, env, at) =>
      if AddressValid(a) {
        EveryCutIsOldOrNew(d.store.(address := Some(a)), d.mapping, env, at);
      }
    case Reboot =>
  }

  /**
   * After a complete write whose verifying read fails, memory still matches flash exactly when the
   * driver can delete: without deletion the store reports failure and the next boot takes the new record.
   */
  lemma FailedVerifyNeedsDeletion(d: Device, m: ProductionMapping, env: StoreEnv)
    requires InSync(d) && d.store.flash.present && IsValid(m)
    requires var record := RecordOf(d, Save(m, env));
             env.accepted && env.readback != Some(record) && env.writes == [Some(record)]
    ensures !Outcome(d, Save(m, env)).ok
    ensures InSync(Apply(d, Save(m, env))) <==> d.store.flash.canDelete
  {
    hide DecodeBytes, EncodeBytes, Validate, Load;
    var target := Target(d.store);
    LoadedAddressIsValid(d.store.flash);
    NewRecordWins(d.store, m, d.store.address);
    HarmlessSlotKeepsLoad(d.store, None);
    var written := With(d.store.flash, target, env.writes[0]);
    assert LastOr(d.store.flash, WriteTrail(d.store.flash, target, env.writes)) == written;
    assert With(written, target, None) == With(d.store.flash, target, None);
    SuccessorIsNewer(d.store.sequence);
  }

  ghost function Run(d: Device, ops: seq<Op>): Device {
    if ops == [] then d else Apply(Run(d, ops[..|ops| - 1]), ops[|ops| - 1])
  }

  ghost predicate HonestRun(d: Device, ops: seq<Op>) {
    forall i :: 0 <= i < |ops| ==> Honest(Run(d, ops[..i]), ops[i])
  }

  /**
   * From any flash contents, through any sequence of saves, pairings, reboots and power cuts anywhere
   * inside a store: memory always equals what a boot would load, and every operation leaves the
   * register exactly as it was or exactly at its goal.
   */
  lemma {:induction false} StoreIsAtomicRegister(f: Flash, ops: seq<Op>)
    requires HonestRun(Boot(f), ops)
    ensures InSync(Run(Boot(f), ops))
    ensures forall i :: 0 <= i < |ops| ==>
              var before, after := Run(Boot(f), ops[..i]), Run(Boot(f), ops[..i + 1]);
              ValueOf(after) == ValueOf(before) || ValueOf(after) == Goal(before, ops[i])
  {
    hide Load, Apply, Goal, Honest, ValueOf, InSync, Boot;
    BootIsInSync(f);
    if ops != [] {
      var n := |ops| - 1;
      HonestPrefix(Boot(f), ops);
      StoreIsAtomicRegister(f, ops[..n]);
      OneOperation(Run(Boot(f), ops[..n]), ops[n]);
      assert ops[..n + 1] == ops;
      assert forall i :: 0 <= i <= n ==> ops[..n][..i] == ops[..i];
      assert forall i :: 0 <= i < n ==> ops[..n][i] == ops[i];
    }
  }

  lemma HonestPrefix(d: Device, ops: seq<Op>)
    requires HonestRun(d, ops) && ops != []
    ensures HonestRun(d, ops[..|ops| - 1]) && Honest(Run(d, ops[..|ops| - 1]), ops[|ops| - 1])
  {
    hide Run, Honest;
    var n := |ops| - 1;
    assert forall i :: 0 <= i < n ==> ops[..n][..i] == ops[..i] && ops[..n][i] == ops[i];
  }

  lemma BootIsInSync(f: Flash)
    ensures InSync(Boot(f))
  {
  }
}
