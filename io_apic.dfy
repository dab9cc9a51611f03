/** The I/O APIC driver (kernel/devices/IoApic.cpp): redirection-entry encoding, the
    redirect register accesses, MADT parsing into I/O APICs, interrupt source overrides and
    NMI sources, and the lookups over them.

    Redirection entries follow section 3.2.4 of the Intel 82093AA I/O APIC datasheet
    (destination in bits 56-63, mask bit 16, trigger mode bit 15, polarity bit 13, vector in
    bits 0-7). MADT interrupt flags follow sections 5.2.12.5 and 5.2.12.6 of the ACPI
    specification. The register window (select and data registers behind the MMIO base) is
    modelled as a map from register index to 32-bit value; an index never written reads 0.

    devices/IoApic.h is not part of this model. The following are assumptions:
    - the register enumerators are Version = 1 and Redirect0 = 0x10, as in the datasheet;
    - the trigger/polarity enumerators have low bit 1 exactly for Level and ActiveLow;
    - every field of an entry modifier, like the apicId and gsiBase that Init takes, is 8 bits wide,
      so the MADT's 32-bit values are truncated when stored. */
module IoApicDevice {
  import opened Common

  const MaskBit: bv64 := 0x1_0000
  const TriggerModeBit: bv64 := 0x8000
  const PolarityBit: bv64 := 0x2000
  /** Every bit of a redirection entry that Set leaves clear. */
  const UnsetBits: bv64 := 0x00FF_FFFF_FFFE_5F00

  const VersionRegister: nat := 1
  const Redirect0: nat := 0x10

  datatype PinPolarity = ActiveHigh | ActiveLow | DefaultPolarity
  datatype TriggerMode = Edge | Level | DefaultTrigger

  /** The low bit of the enumerator's value, which is all Set keeps of it. */
  function TriggerLowBit(t: TriggerMode): bv64 { if t == Level then 1 else 0 }
  function PolarityLowBit(p: PinPolarity): bv64 { if p == ActiveLow then 1 else 0 }

  /** IoApicRedirectEntry::Set: a masked entry for `vector` delivered to `destApicId`. */
  function RedirectRaw(destApicId: bv8, vector: bv8, triggerMode: TriggerMode, pinPolarity: PinPolarity): (raw: bv64)
    ensures raw >> 56 == destApicId as bv64
    ensures raw & 0xFF == vector as bv64
    ensures raw & MaskBit != 0
    ensures raw & TriggerModeBit != 0 <==> triggerMode == Level
    ensures raw & PolarityBit != 0 <==> pinPolarity == ActiveLow
    ensures raw & UnsetBits == 0
  {
    ((destApicId as bv64) << 56) | MaskBit | (TriggerLowBit(triggerMode) << 15)
      | (PolarityLowBit(pinPolarity) << 13) | vector as bv64
  }

  /** IoApicRedirectEntry::IsMasked: bit 16 of the entry. */
  predicate IsMasked(raw: bv64): (m: bool)
    ensures m <==> (raw >> 16) & 1 == 1
  {
    raw & MaskBit != 0
  }

  /** IoApicRedirectEntry::SetMask: sets or clears the mask bit and nothing else. */
  function WithMask(raw: bv64, masked: bool): (r: bv64)
    ensures IsMasked(r) == masked
    ensures r & !MaskBit == raw & !MaskBit
  {
    if masked then (raw & !MaskBit) | MaskBit else raw & !MaskBit
  }

  /** Setting the mask bit to the value the entry already has changes nothing. */
  lemma MaskFixed(raw: bv64)
    ensures WithMask(raw, IsMasked(raw)) == raw
  {
    if IsMasked(raw) {
      assert (raw & !MaskBit) | MaskBit == raw;
    } else {
      assert raw & !MaskBit == raw;
    }
  }

  /** A redirection entry as the source's struct with its one `raw` field. */
  class RedirectEntry {
    var raw: bv64

    /** `IoApicRedirectEntry{}`: all bits clear. */
    constructor ()
      ensures raw == 0
    {
      raw := 0;
    }

    method Set(destApicId: bv8, vector: bv8, triggerMode: TriggerMode, pinPolarity: PinPolarity)
      modifies this
      ensures raw == RedirectRaw(destApicId, vector, triggerMode, pinPolarity)
    {
      raw := RedirectRaw(destApicId, vector, triggerMode, pinPolarity);
    }

    method SetMask(masked: bool)
      modifies this
      ensures raw == WithMask(old(raw), masked)
    {
      raw := raw & !(1 << 16);
      if masked {
        raw := raw | (1 << 16);
      }
    }

    /** IsMasked reads back what SetMask wrote: setting the mask to the value read
        leaves the entry as it is. */
    predicate IsMaskedEntry(): (m: bool)
      reads this
      ensures WithMask(raw, m) == raw
    {
      MaskFixed(raw);
      IsMasked(raw)
    }
  }

  /** The version register's maximum-redirection-entry field, bits 16-23. */
  function MaxRedirectField(version: bv32): (f: bv32)
    ensures f < 0x100 && f << 16 == version & 0xFF_0000
  {
    (version >> 16) & 0xFF
  }

  /** The number of redirection entries that Init derives from the version register: the
      field holds that number minus one, so there is always at least one. */
  function RedirectCount(version: bv32): (n: nat)
    ensures 1 <= n <= 256
  {
    MaxRedirectField(version) as int + 1
  }

  function LowWord(raw: bv64): bv32 { (raw & 0xFFFF_FFFF) as bv32 }
  function HighWord(raw: bv64): bv32 { (raw >> 32) as bv32 }

  /** `low | (high << 32)`, as ReadRedirect assembles an entry from two registers. */
  function Combine(low: bv32, high: bv32): (raw: bv64)
    ensures LowWord(raw) == low && HighWord(raw) == high
  {
    (low as bv64) | ((high as bv64) << 32)
  }

  /** Splitting an entry into its two words and combining them gives it back. */
  lemma CombineWords(raw: bv64)
    ensures Combine(LowWord(raw), HighWord(raw)) == raw
  {
  }

  function RegValue(regs: map<nat, bv32>, reg: nat): bv32
  {
    if reg in regs then regs[reg] else 0
  }

  /** The registers after a redirect write of `raw` to `pin`, at the indices the source uses:
      Redirect0 + pin for the low word and Redirect0 + pin + 1 for the high word. */
  function WrittenRegs(regs: map<nat, bv32>, pin: bv8, raw: bv64): map<nat, bv32>
  {
    regs[Redirect0 + pin as nat := LowWord(raw)][Redirect0 + pin as nat + 1 := HighWord(raw)]
  }

  /** IoApicEntryModifier: how an ISA IRQ maps to a GSI, with its pin settings. */
  datatype EntryModifier = EntryModifier(irqNum: bv8, gsiNum: bv8, polarity: PinPolarity, triggerMode: TriggerMode)

  predicate IsNmiPin(nmis: seq<EntryModifier>, pin: bv8)
  {
    exists i | 0 <= i < |nmis| :: nmis[i].gsiNum == pin
  }

  /** WriteRedirect's guard: the pin exists and is not an NMI source. */
  predicate RedirectAccepted(maxRedirects: nat, nmis: seq<EntryModifier>, pin: bv8)
  {
    (pin as nat) < maxRedirects && !IsNmiPin(nmis, pin)
  }

  /** What ReadRedirect returns: a zero entry for a pin that does not exist, and otherwise
      the entry whose low and high words are the pin's two registers. */
  function ReadRedirectValue(regs: map<nat, bv32>, maxRedirects: nat, pin: bv8): (raw: bv64)
    ensures (pin as nat) >= maxRedirects ==> raw == 0
    ensures (pin as nat) < maxRedirects ==>
      LowWord(raw) == RegValue(regs, Redirect0 + pin as nat) &&
      HighWord(raw) == RegValue(regs, Redirect0 + pin as nat + 1)
  {
    if pin as nat >= maxRedirects then 0
    else Combine(RegValue(regs, Redirect0 + pin as nat), RegValue(regs, Redirect0 + pin as nat + 1))
  }

  /** An accepted redirect write reads back unchanged. */
  lemma RedirectRoundTrip(regs: map<nat, bv32>, maxRedirects: nat, pin: bv8, raw: bv64)
    requires (pin as nat) < maxRedirects
    ensures ReadRedirectValue(WrittenRegs(regs, pin, raw), maxRedirects, pin) == raw
  {
    CombineWords(raw);
  }

  /** With the source's register indices, the high word of pin p is the low word of pin
      p + 1: writing p + 1 after p leaves p reading the low words of both entries. (The
      datasheet places entry n at 0x10 + 2n.) */
  lemma AdjacentRedirectsShareRegister(regs: map<nat, bv32>, maxRedirects: nat, pin: bv8, a: bv64, b: bv64)
    requires (pin as nat) + 1 < maxRedirects && pin < 0xFF
    ensures ReadRedirectValue(WrittenRegs(WrittenRegs(regs, pin, a), pin + 1, b), maxRedirects, pin)
         == Combine(LowWord(a), LowWord(b))
  {
    var r := WrittenRegs(WrittenRegs(regs, pin, a), pin + 1, b);
    assert Redirect0 + (pin + 1) as nat == Redirect0 + pin as nat + 1;
    assert RegValue(r, Redirect0 + pin as nat) == LowWord(a);
    assert RegValue(r, Redirect0 + pin as nat + 1) == LowWord(b);
  }

  /** One I/O APIC, as Init sets it up from its MADT entry. */
  class IoApic {
    const baseAddress: nat
    const apicId: bv8
    const gsiBase: bv8
    const maxRedirects: nat
    var regs: map<nat, bv32>

    /** IoApic::Init: records the entry's values and reads the redirect count from the
        version register of the device's register file `registers`. */
    constructor Init(address: nat, id: bv8, gsiBase: bv8, registers: map<nat, bv32>)
      ensures baseAddress == address && apicId == id && this.gsiBase == gsiBase
      ensures maxRedirects == RedirectCount(RegValue(registers, VersionRegister))
      ensures regs == registers
    {
      baseAddress := address;
      apicId := id;
      this.gsiBase := gsiBase;
      regs := registers;
      maxRedirects := RedirectCount(RegValue(registers, VersionRegister));
    }

    method WriteReg(reg: nat, value: bv32)
      modifies this
      ensures regs == old(regs)[reg := value]
    {
      regs := regs[reg := value];
    }

    method ReadReg(reg: nat) returns (value: bv32)
      ensures value == RegValue(regs, reg)
    {
      value := RegValue(regs, reg);
    }

    /** WriteRedirect(pin, entry): refuses a pin past the last entry or one that is an NMI
        source, and otherwise writes the entry's two words. */
    method WriteRedirect(pinNum: bv8, raw: bv64, nmis: seq<EntryModifier>)
      modifies this
      ensures regs == if RedirectAccepted(maxRedirects, nmis, pinNum) then WrittenRegs(old(regs), pinNum, raw) else old(regs)
    {
      if pinNum as nat >= maxRedirects {
        return;
      }
      var i := 0;
      while i < |nmis|
        invariant 0 <= i <= |nmis|
        invariant forall j | 0 <= j < i :: nmis[j].gsiNum != pinNum
      {
        if nmis[i].gsiNum == pinNum {
          return;
        }
        i := i + 1;
      }
      WriteReg(Redirect0 + pinNum as nat, LowWord(raw));
      WriteReg(Redirect0 + pinNum as nat + 1, HighWord(raw));
    }

    /** WriteRedirect(destApicId, entryMod): builds the entry with the modifier's GSI as both
        the vector and the pin, as the source passes it, and writes it. */
    method WriteModifierRedirect(destApicId: bv8, entryMod: EntryModifier, nmis: seq<EntryModifier>)
      modifies this
      ensures var raw := RedirectRaw(destApicId, entryMod.gsiNum, entryMod.triggerMode, entryMod.polarity);
        regs == if RedirectAccepted(maxRedirects, nmis, entryMod.gsiNum)
                then WrittenRegs(old(regs), entryMod.gsiNum, raw) else old(regs)
    {
      var entry := new RedirectEntry();
      entry.Set(destApicId, entryMod.gsiNum, entryMod.triggerMode, entryMod.polarity);
      WriteRedirect(entryMod.gsiNum, entry.raw, nmis);
    }

    method ReadRedirect(pinNum: bv8) returns (raw: bv64)
      ensures raw == ReadRedirectValue(regs, maxRedirects, pinNum)
    {
      if pinNum as nat >= maxRedirects {
        return 0;
      }
      var low := ReadReg(Redirect0 + pinNum as nat);
      var high := ReadReg(Redirect0 + pinNum as nat + 1);
      raw := (low as bv64) | ((high as bv64) << 32);
    }
  }

  /** MADT interrupt-source polarity (flags bits 1:0): ActiveLow when bit 1 is set, else
      ActiveHigh when bit 0 is set, else bus default. */
  function DecodePolarity(flags: bv16): (p: PinPolarity)
    ensures p == ActiveLow <==> flags & 0x2 != 0
    ensures p == ActiveHigh <==> flags & 0x2 == 0 && flags & 0x1 != 0
    ensures p == DefaultPolarity <==> flags & 0x3 == 0
  {
    if flags & 0x2 != 0 then ActiveLow else if flags & 0x1 != 0 then ActiveHigh else DefaultPolarity
  }

  /** MADT interrupt-source trigger mode (flags bits 3:2): Level when bit 3 is set, else Edge
      when bit 2 is set, else bus default. */
  function DecodeTrigger(flags: bv16): (t: TriggerMode)
    ensures t == Level <==> flags & 0x8 != 0
    ensures t == Edge <==> flags & 0x8 == 0 && flags & 0x4 != 0
    ensures t == DefaultTrigger <==> flags & 0xC == 0
  {
    if flags & 0x8 != 0 then Level else if flags & 0x4 != 0 then Edge else DefaultTrigger
  }

  /** The meaning the ACPI tables give the two-bit polarity and trigger fields: 00 conforms
      to the bus, 01 is active high / edge, 11 is active low / level, and 10 is reserved. */
  function AcpiPolarity(flags: bv16): Option<PinPolarity>
  {
    var field := flags & 0x3;
    if field == 0 then Some(DefaultPolarity) else if field == 1 then Some(ActiveHigh)
    else if field == 3 then Some(ActiveLow) else None
  }

  function AcpiTrigger(flags: bv16): Option<TriggerMode>
  {
    var field := (flags >> 2) & 0x3;
    if field == 0 then Some(DefaultTrigger) else if field == 1 then Some(Edge)
    else if field == 3 then Some(Level) else None
  }

  /** The decode agrees with the ACPI meaning on every defined encoding; the reserved
      encoding 10 decodes as ActiveLow and Level. */
  lemma DecodeAgreesWithAcpi(flags: bv16)
    ensures AcpiPolarity(flags).Some? ==> DecodePolarity(flags) == AcpiPolarity(flags).value
    ensures AcpiTrigger(flags).Some? ==> DecodeTrigger(flags) == AcpiTrigger(flags).value
    ensures AcpiPolarity(flags).None? ==> DecodePolarity(flags) == ActiveLow
    ensures AcpiTrigger(flags).None? ==> DecodeTrigger(flags) == Level
  {
  }

  /** An MADT interrupt-controller structure, already split from the table. */
  datatype MadtEntry =
    | IoApicEntry(apicId: bv8, mmioAddress: nat, gsiBase: nat)
    | SourceOverride(source: bv8, mappedSource: nat, flags: bv16)
    | NmiSource(gsiNumber: nat, flags: bv16)
    | OtherEntry

  /** Truncation of a MADT value to the 8-bit field it is stored in. */
  function Low8(x: nat): bv8
  {
    (x % 0x100) as bv8
  }

  function OverrideModifier(e: MadtEntry): EntryModifier
    requires e.SourceOverride?
  {
    EntryModifier(e.source, Low8(e.mappedSource), DecodePolarity(e.flags), DecodeTrigger(e.flags))
  }

  function NmiModifier(e: MadtEntry): EntryModifier
    requires e.NmiSource?
  {
    EntryModifier(0, Low8(e.gsiNumber), DecodePolarity(e.flags), DecodeTrigger(e.flags))
  }

  /** The source-override modifiers of a table, in table order. */
  function Overrides(entries: seq<MadtEntry>): seq<EntryModifier>
  {
    if entries == [] then []
    else
      var e := entries[|entries| - 1];
      Overrides(entries[..|entries| - 1]) + if e.SourceOverride? then [OverrideModifier(e)] else []
  }

  /** The NMI-source modifiers of a table, in table order. */
  function NmiSources(entries: seq<MadtEntry>): seq<EntryModifier>
  {
    if entries == [] then []
    else
      var e := entries[|entries| - 1];
      NmiSources(entries[..|entries| - 1]) + if e.NmiSource? then [NmiModifier(e)] else []
  }

  /** The I/O APIC entries of a table, in table order. */
  function ApicConfigs(entries: seq<MadtEntry>): seq<MadtEntry>
  {
    if entries == [] then []
    else
      var e := entries[|entries| - 1];
      ApicConfigs(entries[..|entries| - 1]) + if e.IoApicEntry? then [e] else []
  }

  /** The three lists hold exactly the table's entries of their kind: every source
      override, NMI source and I/O APIC entry is taken, and nothing else. */
  lemma {:induction false} MadtListsExact(entries: seq<MadtEntry>)
    ensures forall e | e in entries && e.SourceOverride? :: OverrideModifier(e) in Overrides(entries)
    ensures forall m | m in Overrides(entries) :: exists e | e in entries && e.SourceOverride? :: m == OverrideModifier(e)
    ensures forall e | e in entries && e.NmiSource? :: NmiModifier(e) in NmiSources(entries)
    ensures forall m | m in NmiSources(entries) :: exists e | e in entries && e.NmiSource? :: m == NmiModifier(e)
    ensures forall c | c in ApicConfigs(entries) :: c.IoApicEntry? && c in entries
    ensures forall e | e in entries && e.IoApicEntry? :: e in ApicConfigs(entries)
  {
    if entries != [] {
      var init := entries[..|entries| - 1];
      MadtListsExact(init);
      assert entries == init + [entries[|entries| - 1]];
    }
  }

  /** The I/O APIC objects correspond one to one, in order, to the configurations, each
      initialised from its entry and the register file found at its MMIO address. */
  predicate ApicsMatch(apics: seq<IoApic>, configs: seq<MadtEntry>, hw: nat -> map<nat, bv32>)
    reads apics
  {
    |apics| == |configs| &&
    forall k | 0 <= k < |apics| ::
      configs[k].IoApicEntry? &&
      apics[k].baseAddress == configs[k].mmioAddress &&
      apics[k].apicId == configs[k].apicId &&
      apics[k].gsiBase == Low8(configs[k].gsiBase) &&
      apics[k].maxRedirects == RedirectCount(RegValue(hw(configs[k].mmioAddress), VersionRegister)) &&
      apics[k].regs == hw(configs[k].mmioAddress)
  }

  /** TranslateToGsi: the first override for `irq`, or the identity mapping with default
      pin settings when there is none. */
  function TranslateToGsi(modifiers: seq<EntryModifier>, irq: bv8): (m: EntryModifier)
    ensures (forall i | 0 <= i < |modifiers| :: modifiers[i].irqNum != irq) ==>
      m == EntryModifier(irq, irq, DefaultPolarity, DefaultTrigger)
    ensures (exists i | 0 <= i < |modifiers| :: modifiers[i].irqNum == irq) ==>
      exists i | 0 <= i < |modifiers| :: m == modifiers[i] && m.irqNum == irq &&
        forall j | 0 <= j < i :: modifiers[j].irqNum != irq
  {
    if modifiers == [] then EntryModifier(irq, irq, DefaultPolarity, DefaultTrigger)
    else if modifiers[0].irqNum == irq then modifiers[0]
    else
      var m := TranslateToGsi(modifiers[1..], irq);
      assert forall i | 0 <= i < |modifiers| - 1 :: modifiers[1..][i] == modifiers[i + 1];
      m
  }

  /** The position Global returns: just before the first later I/O APIC whose GSI base
      exceeds `gsi`, or the last one. */
  function OwnerIndex(apics: seq<IoApic>, gsi: nat): (r: nat)
    requires |apics| > 0
    ensures r < |apics|
    ensures forall j | 0 < j <= r :: apics[j].gsiBase as nat <= gsi
    ensures r + 1 < |apics| ==> apics[r + 1].gsiBase as nat > gsi
  {
    if |apics| == 1 || apics[1].gsiBase as nat > gsi then 0
    else
      var r := OwnerIndex(apics[1..], gsi);
      assert forall j | 0 <= j < |apics| - 1 :: apics[1..][j] == apics[j + 1];
      r + 1
  }

  predicate SortedByGsiBase(apics: seq<IoApic>)
  {
    forall i, j | 0 <= i < j < |apics| :: apics[i].gsiBase <= apics[j].gsiBase
  }

  /** On a list sorted by GSI base whose first base is at most `gsi`, Global finds the last
      I/O APIC whose base is at most `gsi`, the one whose range holds it. */
  lemma OwnerOwnsGsi(apics: seq<IoApic>, gsi: nat)
    requires |apics| > 0 && SortedByGsiBase(apics) && apics[0].gsiBase as nat <= gsi
    ensures apics[OwnerIndex(apics, gsi)].gsiBase as nat <= gsi
    ensures forall j | OwnerIndex(apics, gsi) < j < |apics| :: apics[j].gsiBase as nat > gsi
  {
    var r := OwnerIndex(apics, gsi);
    if r + 1 < |apics| {
      forall j | r < j < |apics|
        ensures apics[j].gsiBase as nat > gsi
      {
        assert apics[r + 1].gsiBase <= apics[j].gsiBase || j == r + 1;
      }
    }
  }

  /** InitAll's walk over the MADT: an I/O APIC per I/O APIC entry, a modifier per source
      override and per NMI source, each list in table order. */
  method ScanMadt(entries: seq<MadtEntry>, hw: nat -> map<nat, bv32>)
    returns (apics: seq<IoApic>, mods: seq<EntryModifier>, nmiMods: seq<EntryModifier>)
    ensures mods == Overrides(entries) && nmiMods == NmiSources(entries)
    ensures ApicsMatch(apics, ApicConfigs(entries), hw)
    ensures forall k | 0 <= k < |apics| :: fresh(apics[k])
  {
    apics, mods, nmiMods := [], [], [];
    var i := 0;
    while i < |entries|
      invariant 0 <= i <= |entries|
      invariant mods == Overrides(entries[..i]) && nmiMods == NmiSources(entries[..i])
      invariant ApicsMatch(apics, ApicConfigs(entries[..i]), hw)
      invariant forall k | 0 <= k < |apics| :: fresh(apics[k])
    {
      var e := entries[i];
      ScanStep(entries, i);
      if e.IoApicEntry? {
        var a := new IoApic.Init(e.mmioAddress, e.apicId, Low8(e.gsiBase), hw(e.mmioAddress));
        ApicsMatchAppend(apics, ApicConfigs(entries[..i]), hw, a, e);
        apics := apics + [a];
      } else if e.SourceOverride? {
        mods := mods + [OverrideModifier(e)];
      } else if e.NmiSource? {
        nmiMods := nmiMods + [NmiModifier(e)];
      }
      i := i + 1;
    }
    assert entries[..i] == entries;
  }

  /** Each list of the scan grows by the next entry exactly when the entry is of its kind. */
  lemma ScanStep(entries: seq<MadtEntry>, i: nat)
    requires i < |entries|
    ensures var e := entries[i];
      && Overrides(entries[..i + 1]) == Overrides(entries[..i]) + (if e.SourceOverride? then [OverrideModifier(e)] else [])
      && NmiSources(entries[..i + 1]) == NmiSources(entries[..i]) + (if e.NmiSource? then [NmiModifier(e)] else [])
      && ApicConfigs(entries[..i + 1]) == ApicConfigs(entries[..i]) + (if e.IoApicEntry? then [e] else [])
  {
    assert entries[..i + 1][..i] == entries[..i];
  }

  /** An I/O APIC initialised from the next configuration extends a matching list. */
  lemma ApicsMatchAppend(apics: seq<IoApic>, configs: seq<MadtEntry>, hw: nat -> map<nat, bv32>, a: IoApic, c: MadtEntry)
    requires ApicsMatch(apics, configs, hw) && c.IoApicEntry?
    requires a.baseAddress == c.mmioAddress && a.apicId == c.apicId && a.gsiBase == Low8(c.gsiBase)
    requires a.maxRedirects == RedirectCount(RegValue(hw(c.mmioAddress), VersionRegister)) && a.regs == hw(c.mmioAddress)
    ensures ApicsMatch(apics + [a], configs + [c], hw)
  {
  }

  /** The driver's global state: the I/O APICs, source overrides and NMI sources found in
      the MADT. */
  class IoApicSystem {
    var ioApics: seq<IoApic>
    var modifiers: seq<EntryModifier>
    var nmis: seq<EntryModifier>

    /** IoApic::InitAll over the MADT's entries (None when the table is absent), with `hw`
        the register file of the device at each MMIO address. Every NMI source is then
        written a zero entry through Global; WriteRedirect refuses each of them, since each
        pin is an NMI source, so no register changes. */
    constructor InitAll(madt: Option<seq<MadtEntry>>, hw: nat -> map<nat, bv32>)
      requires madt.Some? && NmiSources(madt.value) != [] ==> ApicConfigs(madt.value) != []
      ensures madt.None? ==> ioApics == [] && modifiers == [] && nmis == []
      ensures madt.Some? ==>
        modifiers == Overrides(madt.value) && nmis == NmiSources(madt.value) &&
        ApicsMatch(ioApics, ApicConfigs(madt.value), hw)
      ensures forall k | 0 <= k < |ioApics| :: fresh(ioApics[k])
    {
      // An absent table leaves all three lists empty, as an empty one does.
      var entries := if madt.Some? then madt.value else [];
      var apics, mods, nmiMods := ScanMadt(entries, hw);
      ioApics := apics;
      modifiers := mods;
      nmis := nmiMods;
      new;
      ApplyNmis();
    }

    /** InitAll's last loop: a zero entry is written to each NMI source's pin through the
        I/O APIC that Global picks. Every one of these writes is refused, because the pin is
        an NMI source, so no register file changes. */
    method ApplyNmis()
      requires |nmis| > 0 ==> |ioApics| > 0
      modifies ioApics
      ensures forall k | 0 <= k < |ioApics| :: ioApics[k].regs == old(ioApics[k].regs)
    {
      var n := 0;
      while n < |nmis|
        invariant 0 <= n <= |nmis|
        invariant forall k | 0 <= k < |ioApics| :: ioApics[k].regs == old(ioApics[k].regs)
      {
        var owner := Global(nmis[n].gsiNum as nat);
        assert IsNmiPin(nmis, nmis[n].gsiNum);
        owner.WriteRedirect(nmis[n].gsiNum, 0, nmis);
        n := n + 1;
      }
    }

    /** IoApic::Global: walks forward from the first I/O APIC while the next one's GSI base
        does not exceed `ownsGsi`. */
    method Global(ownsGsi: nat) returns (owner: IoApic)
      requires |ioApics| > 0
      ensures owner == ioApics[OwnerIndex(ioApics, ownsGsi)]
    {
      var last := 0;
      while last + 1 < |ioApics|
        invariant last < |ioApics|
        invariant forall j | 0 < j <= last :: ioApics[j].gsiBase as nat <= ownsGsi
      {
        if ioApics[last + 1].gsiBase as nat > ownsGsi {
          break;
        }
        last := last + 1;
      }
      OwnerIndexUnique(ioApics, ownsGsi, last);
      return ioApics[last];
    }
  }

  /** The conditions in OwnerIndex's contract pick out one position only. */
  lemma OwnerIndexUnique(apics: seq<IoApic>, gsi: nat, r: nat)
    requires |apics| > 0 && r < |apics|
    requires forall j | 0 < j <= r :: apics[j].gsiBase as nat <= gsi
    requires r + 1 < |apics| ==> apics[r + 1].gsiBase as nat > gsi
    ensures OwnerIndex(apics, gsi) == r
  {
  }
}
