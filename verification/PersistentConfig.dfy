/** The two-slot configuration store, and why it behaves as one atomic register. */
module PersistentConfig {
  import opened Types
  import opened ProductionConfig
  import opened RecordCodec

  /** The sequence comparison: the 32-bit difference, read as signed, is positive. */
  predicate Newer(left: uint32, right: uint32) {
    var difference: uint32 := (left - right) % 0x1_0000_0000;
    0 < difference < 0x8000_0000
  }

  /** "Less than" of section 3.2 of RFC 1982 with SERIAL_BITS = 32. */
  predicate SerialLess(s1: uint32, s2: uint32) {
    (s1 < s2 && s2 - s1 < 0x8000_0000) || (s1 > s2 && s1 - s2 > 0x8000_0000)
  }

  /** The comparison agrees with serial number arithmetic, and neither orders numbers 2^31 apart. */
  lemma NewerIsSerialOrder(left: uint32, right: uint32)
    ensures Newer(left, right) <==> SerialLess(right, left)
  {
  }

  function Successor(s: uint32): uint32 {
    (s + 1) % 0x1_0000_0000
  }

  lemma SuccessorIsNewer(s: uint32)
    ensures Newer(Successor(s), s) && !Newer(s, Successor(s))
  {
  }

  datatype Slot = A | B

  /** The two tagged flash values and the two facts about the driver the code asks for. */
  datatype Flash = Flash(present: bool, canDelete: bool, a: Option<seq<bv8>>, b: Option<seq<bv8>>)

  function At(f: Flash, slot: Slot): Option<seq<bv8>> {
    if slot == A then f.a else f.b
  }

  function With(f: Flash, slot: Slot, value: Option<seq<bv8>>): Flash {
    if slot == A then f.(a := value) else f.(b := value)
  }

  function Understood(value: Option<seq<bv8>>): Option<Contents> {
    if value.None? then None else DecodeBytes(value.value)
  }

  /** Everything a boot takes over from flash. */
  datatype Loaded = Loaded(
    ok: bool, mapping: ProductionMapping, sequence: uint32, active: Option<Slot>, address: Option<Address>)

  const COMPILED_DEFAULT := Loaded(false, DEFAULT_MAPPING, 0, None, None)

  function Adopt(c: Contents, slot: Slot): Loaded {
    Loaded(true, c.mapping, c.sequence, Some(slot), c.address)
  }

  /** What `load` returns from given flash contents. */
  function Load(f: Flash): Loaded {
    var a, b := Understood(f.a), Understood(f.b);
    if !f.present || (a.None? && b.None?) then COMPILED_DEFAULT
    else if b.Some? && (a.None? || Newer(b.value.sequence, a.value.sequence)) then Adopt(b.value, B)
    else Adopt(a.value, A)
  }

  /**
   * A boot takes the second slot exactly when it is later in serial order or the first holds nothing readable, and
   * the compiled default exactly when neither does or there is no driver.
   */
  lemma LoadIsDocumented(f: Flash)
    ensures var a, b := Understood(f.a), Understood(f.b);
            Load(f)
            == if !f.present || (a.None? && b.None?) then Loaded(false, DEFAULT_MAPPING, 0, None, None)
               else if a.None? || (b.Some? && SerialLess(a.value.sequence, b.value.sequence)) then
                 Loaded(true, b.value.mapping, b.value.sequence, Some(B), b.value.address)
               else Loaded(true, a.value.mapping, a.value.sequence, Some(A), a.value.address)
  {
    hide Understood;
  }

  /** The store object's memory together with the flash behind it. */
  datatype Persist = Persist(sequence: uint32, active: Option<Slot>, address: Option<Address>, flash: Flash)

  /** How the driver answers one store: the values the slot passes through, its status, the read-back. */
  datatype StoreEnv = StoreEnv(writes: seq<Option<seq<bv8>>>, accepted: bool, readback: Option<seq<bv8>>)

  /** `trail` lists every flash state the operation passes through, in order. */
  datatype StoreResult = StoreResult(state: Persist, ok: bool, trail: seq<Flash>)

  function Target(p: Persist): Slot {
    if p.active == Some(A) then B else A
  }

  function WriteTrail(f: Flash, slot: Slot, writes: seq<Option<seq<bv8>>>): (trail: seq<Flash>)
    ensures |trail| == |writes|
  {
    seq(|writes|, i requires 0 <= i < |writes| => With(f, slot, writes[i]))
  }

  function LastOr(f: Flash, trail: seq<Flash>): Flash {
    if trail == [] then f else trail[|trail| - 1]
  }

  function Store(p: Persist, m: ProductionMapping, env: StoreEnv): StoreResult {
    if !IsValid(m) || !p.flash.present then StoreResult(p, false, [])
    else
      var target := Target(p);
      var record := EncodeBytes(m, Successor(p.sequence), p.address);
      var trail := WriteTrail(p.flash, target, env.writes);
      var written := LastOr(p.flash, trail);
      if !env.accepted then StoreResult(p.(flash := written), false, trail)
      else if env.readback != Some(record) || DecodeBytes(record).None? then
        if p.flash.canDelete then
          var cleaned := With(written, target, None);
          StoreResult(p.(flash := cleaned), false, trail + [cleaned])
        else StoreResult(p.(flash := written), false, trail)
      else
        StoreResult(p.(sequence := Successor(p.sequence), active := Some(target), flash := written), true, trail)
  }

  function StoreAddress(p: Persist, m: ProductionMapping, a: Address, env: StoreEnv): StoreResult {
    if !AddressValid(a) then StoreResult(p, false, [])
    else
      var r := Store(p.(address := Some(a)), m, env);
      if r.ok then r else r.(state := r.state.(address := p.address))
  }

  /**
   * Only the slot the present record is not in is written. A refused or misread write leaves memory as it was,
   * and a misread one is deleted where the driver can.
   */
  lemma StoreIsDocumented(p: Persist, m: ProductionMapping, env: StoreEnv)
    requires p.address.Some? ==> AddressValid(p.address.value)
    ensures var f, second, sequence := p.flash, p.active == Some(A), (p.sequence + 1) % 0x1_0000_0000;
            var last := if env.writes == [] then (if second then f.b else f.a) else env.writes[|env.writes| - 1];
            var r, read := Store(p, m, env), env.readback == Some(EncodeBytes(m, sequence, p.address));
            r.state
            == if !IsValid(m) || !f.present then p
               else if env.accepted && read then
                 if second then Persist(sequence, Some(B), p.address, f.(b := last))
                 else Persist(sequence, Some(A), p.address, f.(a := last))
               else if env.accepted && f.canDelete then
                 p.(flash := if second then f.(b := None) else f.(a := None))
               else p.(flash := if second then f.(b := last) else f.(a := last))
  {
    hide Validate, EncodeBytes, DecodeBytes;
    if IsValid(m) {
      StoredIsRecovered(m, Successor(p.sequence), p.address);
    }
  }

  /** The flash driver's tag store. The trail records every state a power cut could leave behind. */
  class TagStore {
    const present: bool
    const canDelete: bool
    var slotA: Option<seq<bv8>>
    var slotB: Option<seq<bv8>>
    ghost var trail: seq<Flash>

    constructor (present: bool, canDelete: bool, slotA: Option<seq<bv8>>, slotB: Option<seq<bv8>>)
      ensures State() == Flash(present, canDelete, slotA, slotB) && trail == []
    {
      this.present, this.canDelete := present, canDelete;
      this.slotA, this.slotB := slotA, slotB;
      trail := [];
    }

    ghost function State(): Flash
      reads this
    {
      Flash(present, canDelete, slotA, slotB)
    }

    method Get(slot: Slot) returns (value: Option<seq<bv8>>)
      ensures value == At(State(), slot)
    {
      value := if slot == A then slotA else slotB;
    }

    method Put(slot: Slot, value: Option<seq<bv8>>)
      modifies this
      ensures State() == With(old(State()), slot, value)
      ensures trail == old(trail) + [State()]
    {
      if slot == A {
        slotA := value;
      } else {
        slotB := value;
      }
      trail := trail + [State()];
    }

    /** One tag write, seen as the successive values the slot takes. */
    method Write(slot: Slot, writes: seq<Option<seq<bv8>>>)
      modifies this
      ensures trail == old(trail) + WriteTrail(old(State()), slot, writes)
      ensures State() == LastOr(old(State()), WriteTrail(old(State()), slot, writes))
    {
      ghost var start, before := State(), trail;
      for i := 0 to |writes|
        invariant trail == before + WriteTrail(start, slot, writes)[..i]
        invariant State() == LastOr(start, WriteTrail(start, slot, writes)[..i])
      {
        Put(slot, writes[i]);
        assert State() == With(start, slot, writes[i]);
      }
    }
  }

  class ConfigStore {
    const tlv: TagStore
    var sequence: uint32
    var activeTag: Option<Slot>
    var controllerAddress: Option<Address>

    constructor (tlv: TagStore)
      ensures this.tlv == tlv
      ensures State() == Persist(0, None, None, tlv.State())
    {
      this.tlv := tlv;
      sequence, activeTag, controllerAddress := 0, None, None;
    }

    ghost function State(): Persist
      reads this, tlv
    {
      Persist(sequence, activeTag, controllerAddress, tlv.State())
    }

    method LoadMapping() returns (ok: bool, mapping: ProductionMapping)
      modifies this
      ensures ok == Load(tlv.State()).ok && mapping == Load(tlv.State()).mapping
      ensures var l := Load(tlv.State()); State() == Persist(l.sequence, l.active, l.address, tlv.State())
    {
      mapping := DEFAULT_MAPPING;
      controllerAddress, sequence, activeTag := None, 0, None;
      if !tlv.present {
        return false, mapping;
      }
      var rawA := tlv.Get(A);
      var rawB := tlv.Get(B);
      var a, b := Understood(rawA), Understood(rawB);
      if a.None? && b.None? {
        return false, mapping;
      }
      if b.Some? && (a.None? || Newer(b.value.sequence, a.value.sequence)) {
        mapping, sequence, activeTag, controllerAddress := b.value.mapping, b.value.sequence, Some(B), b.value.address;
      } else {
        mapping, sequence, activeTag, controllerAddress := a.value.mapping, a.value.sequence, Some(A), a.value.address;
      }
      ok := true;
    }

    method StoreMapping(mapping: ProductionMapping, env: StoreEnv) returns (ok: bool)
      modifies this, tlv
      ensures var r := Store(old(State()), mapping, env);
              && State() == r.state && ok == r.ok && tlv.trail == old(tlv.trail) + r.trail
    {
      hide Validate, EncodeBytes, DecodeBytes, WriteTrail, LastOr;
      if Validate(mapping) != Valid || !tlv.present {
        return false;
      }
      var target := if activeTag == Some(A) then B else A;
      var record := EncodeBytes(mapping, Successor(sequence), controllerAddress);
      tlv.Write(target, env.writes);
      if !env.accepted {
        return false;
      }
      if env.readback != Some(record) || DecodeBytes(record).None? {
        if tlv.canDelete {
          tlv.Put(target, None);
        }
        return false;
      }
      sequence := Successor(sequence);
      activeTag := Some(target);
      ok := true;
    }

    method StoreControllerAddress(mapping: ProductionMapping, address: Address, env: StoreEnv) returns (ok: bool)
      modifies this, tlv
      ensures var r := StoreAddress(old(State()), mapping, address, env);
              && State() == r.state && ok == r.ok && tlv.trail == old(tlv.trail) + r.trail
    {
      if !AddressValid(address) {
        return false;
      }
      var previous := controllerAddress;
      controllerAddress := Some(address);
      ok := StoreMapping(mapping, env);
      if !ok {
        controllerAddress := previous;
      }
    }
  }
}
