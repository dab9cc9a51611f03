/** The local APIC driver (kernel/devices/LApic.cpp): the encodings of local vector table
    entries and interrupt command packets, the APIC base MSR and id register decoding, and
    the LVT mask read-modify-write.

    The layouts are those of the Intel SDM Vol. 3A: section 11.5.1 for LVT entries
    (vector bits 0-7, delivery mode bits 8-10, pin polarity bit 13, trigger mode bit 15,
    mask bit 16, timer mode bits 17-18), section 11.6.1 for the ICR (vector, delivery
    mode, trigger mode bit 15, destination bits 56-63), and section 11.4.4 for the
    IA32_APIC_BASE MSR (BSP flag bit 8, base address from bit 12).

    devices/LApic.h is not part of this model. The enumerators are assumed to carry the SDM's
    encodings: delivery modes 0-7, timer modes 0-2, and the register offsets Id = 0x20,
    EOI = 0xB0 and Spurious Interrupt Vector = 0xF0. The LVT word is 32 bits wide. The MMIO
    register window is a map from register offset to value; an offset never written
    reads 0. The spurious vector number is a parameter. */
module LocalApicDevice {

  const LvtMaskBit: bv32 := 0x1_0000
  const LvtActiveLowBit: bv32 := 0x2000
  const LvtLevelBit: bv32 := 0x8000

  const IdRegister: nat := 0x20
  const EoiRegister: nat := 0xB0
  const SpuriousRegister: nat := 0xF0

  datatype DeliveryMode = Fixed | LowestPriority | Smi | Nmi | Init | StartUp | ExtInt
  datatype TimerMode = OneShot | Periodic | TscDeadline

  function DeliveryModeValue(m: DeliveryMode): (v: bv32)
    ensures v < 8
  {
    match m
    case Fixed => 0
    case LowestPriority => 1
    case Smi => 2
    case Nmi => 4
    case Init => 5
    case StartUp => 6
    case ExtInt => 7
  }

  function TimerModeValue(m: TimerMode): (v: bv32)
    ensures v < 3
  {
    match m
    case OneShot => 0
    case Periodic => 1
    case TscDeadline => 2
  }

  function BitIf(b: bool, bit: bv32): bv32
  {
    if b then bit else 0
  }

  /** LvtEntry::Set(vector): a masked entry for `vector`, every other bit clear. */
  function LvtMaskedEntry(vector: bv8): (raw: bv32)
    ensures raw & 0xFF == vector as bv32
    ensures raw & LvtMaskBit != 0
    ensures raw & !0x1_00FF == 0
  {
    vector as bv32 | LvtMaskBit
  }

  /** An LVT word with a three-bit delivery-mode value, as the four-argument Set builds it. */
  function LvtWord(vector: bv8, modeValue: bv32, activeLow: bool, levelTriggered: bool): (raw: bv32)
    requires modeValue < 8
    ensures raw & 0xFF == vector as bv32
    ensures raw & 0x700 == modeValue << 8
    ensures raw & LvtActiveLowBit != 0 <==> activeLow
    ensures raw & LvtLevelBit != 0 <==> levelTriggered
    ensures raw & LvtMaskBit != 0
    ensures raw & !0x1_A7FF == 0
  {
    vector as bv32 | (modeValue << 8) | BitIf(activeLow, LvtActiveLowBit)
      | BitIf(levelTriggered, LvtLevelBit) | LvtMaskBit
  }

  /** LvtEntry::Set(vector, mode, activeLow, levelTriggered): always masked. */
  function LvtEntry(vector: bv8, mode: DeliveryMode, activeLow: bool, levelTriggered: bool): (raw: bv32)
    ensures raw & 0xFF == vector as bv32
    ensures raw & 0x700 == DeliveryModeValue(mode) << 8
    ensures raw & LvtActiveLowBit != 0 <==> activeLow
    ensures raw & LvtLevelBit != 0 <==> levelTriggered
    ensures raw & LvtMaskBit != 0
    ensures raw & !0x1_A7FF == 0
  {
    LvtWord(vector, DeliveryModeValue(mode), activeLow, levelTriggered)
  }

  /** LvtEntry::Set(vector, mode, levelTriggered): the active-high form of the above. */
  function LvtEntryActiveHigh(vector: bv8, mode: DeliveryMode, levelTriggered: bool): (raw: bv32)
    ensures raw & 0xFF == vector as bv32
    ensures raw & 0x700 == DeliveryModeValue(mode) << 8
    ensures raw & LvtActiveLowBit == 0
    ensures raw & LvtLevelBit != 0 <==> levelTriggered
    ensures raw & LvtMaskBit != 0
    ensures raw == LvtEntry(vector, mode, false, levelTriggered)
  {
    LvtEntry(vector, mode, false, levelTriggered)
  }

  /** LvtEntry::Set(vector, timerMode): a masked timer entry. */
  function LvtTimerEntry(vector: bv8, mode: TimerMode): (raw: bv32)
    ensures raw & 0xFF == vector as bv32
    ensures raw & LvtMaskBit != 0
    ensures raw & 0x6_0000 == TimerModeValue(mode) << 17
    ensures raw & !0x7_00FF == 0
  {
    vector as bv32 | LvtMaskBit | (TimerModeValue(mode) << 17)
  }

  /** IcrPacket::Set: an interrupt command for `destinationId`; there is no mask bit. */
  function IcrPacket(vector: bv8, mode: DeliveryMode, levelTrigger: bool, destinationId: bv8): (raw: bv64)
    ensures raw & 0xFF == vector as bv64
    ensures raw & 0x700 == (DeliveryModeValue(mode) as bv64) << 8
    ensures raw & 0x8000 != 0 <==> levelTrigger
    ensures raw >> 56 == destinationId as bv64
    ensures raw & 0x1_0000 == 0
    ensures raw & 0x00FF_FFFF_FFFF_78FF == raw & 0xFF
  {
    vector as bv64 | ((DeliveryModeValue(mode) as bv64) << 8) | BitIf(levelTrigger, 0x8000) as bv64
      | ((destinationId as bv64) << 56)
  }

  /** The value SetLvtMasked writes: the source assigns `~(1 << 16)` instead of masking the
      register's current value with it, so every bit other than the mask is set, whatever the
      register held. */
  function LvtMaskWrite(current: bv32, masked: bool): (r: bv32)
    ensures r & LvtMaskBit != 0 <==> masked
    ensures r | LvtMaskBit == 0xFFFF_FFFF
  {
    var cleared: bv32 := !LvtMaskBit;
    if masked then cleared | LvtMaskBit else cleared
  }

  /** The register's previous value plays no part in what SetLvtMasked writes. */
  lemma LvtMaskWriteIgnoresCurrent(a: bv32, b: bv32, masked: bool)
    ensures LvtMaskWrite(a, masked) == LvtMaskWrite(b, masked)
  {
  }

  /** As written, unmasking a masked fixed-mode entry for vector 0x20 turns it into an
      active-low, level-triggered entry for vector 0xFF with delivery mode 7. */
  lemma LvtMaskWriteClobbersEntry()
    ensures LvtMaskWrite(LvtEntry(0x20, Fixed, false, false), false) & 0xFF == 0xFF
    ensures LvtEntry(0x20, Fixed, false, false) & 0xFF == 0x20
    ensures LvtMaskWrite(LvtEntry(0x20, Fixed, false, false), false) & 0x700 == 0x700
    ensures LvtMaskWrite(LvtEntry(0x20, Fixed, false, false), false) & (LvtActiveLowBit | LvtLevelBit) != 0
  {
  }

  /** The evident intent of SetLvtMasked: the register's value with only the mask bit
      changed. */
  function LvtMaskUpdate(current: bv32, masked: bool): (r: bv32)
    ensures r & LvtMaskBit != 0 <==> masked
    ensures r & !LvtMaskBit == current & !LvtMaskBit
  {
    (current & !LvtMaskBit) | BitIf(masked, LvtMaskBit)
  }

  /** The APIC base address: the MSR with its low 12 bits cleared. */
  function ApicBase(msr: bv64): (base: bv64)
    ensures base & 0xFFF == 0
    ensures base | (msr & 0xFFF) == msr
  {
    msr & !0xFFF
  }

  /** The APIC id: the top byte of the id register. */
  function ApicIdOf(idRegister: bv32): (id: bv32)
    ensures id < 0x100
    ensures id << 24 == idRegister & 0xFF00_0000
  {
    idRegister >> 24
  }

  /** IA32_APIC_BASE bit 8 marks the bootstrap processor. */
  predicate IsBspMsr(msr: bv64)
  {
    msr & 0x100 != 0
  }

  function RegValue(regs: map<nat, bv32>, reg: nat): bv32
  {
    if reg in regs then regs[reg] else 0
  }

  class LocalApic {
    /** The IA32_APIC_BASE MSR as this core reads it. */
    const apicBaseMsr: bv64
    var baseAddress: bv64
    var apicId: bv32
    var regs: map<nat, bv32>

    /** LApic::Init: takes the base from the MSR and the id from the id register, then sets
        the software-enable bit (bit 8) and the spurious vector. */
    constructor Init(msr: bv64, registers: map<nat, bv32>, spuriousVector: bv8)
      ensures apicBaseMsr == msr
      ensures baseAddress == ApicBase(msr)
      ensures apicId == ApicIdOf(RegValue(registers, IdRegister))
      ensures regs == registers[SpuriousRegister := spuriousVector as bv32 | 0x100]
    {
      apicBaseMsr := msr;
      regs := registers;
      baseAddress := ApicBase(msr);
      apicId := ApicIdOf(RegValue(registers, IdRegister));
      new;
      WriteReg(SpuriousRegister, spuriousVector as bv32 | 0x100);
    }

    method WriteReg(reg: nat, value: bv32)
      modifies this
      ensures regs == old(regs)[reg := value]
      ensures baseAddress == old(baseAddress) && apicId == old(apicId)
    {
      regs := regs[reg := value];
    }

    method ReadReg(reg: nat) returns (value: bv32)
      ensures value == RegValue(regs, reg)
    {
      value := RegValue(regs, reg);
    }

    method SendEoi()
      modifies this
      ensures regs == old(regs)[EoiRegister := 0]
      ensures baseAddress == old(baseAddress) && apicId == old(apicId)
    {
      WriteReg(EoiRegister, 0);
    }

    method IsBsp() returns (bsp: bool)
      ensures bsp == IsBspMsr(apicBaseMsr)
    {
      bsp := apicBaseMsr & 0x100 != 0;
    }

    /** SetLvtMasked as written: the register is read, then overwritten with `~(1 << 16)`,
        with the mask bit set again when asked (LvtMaskWrite). The read-modify-write its
        comment describes is LvtMaskUpdate. */
    method SetLvtMasked(lvtReg: nat, masked: bool)
      modifies this
      ensures regs == old(regs)[lvtReg := LvtMaskWrite(old(RegValue(regs, lvtReg)), masked)]
      ensures baseAddress == old(baseAddress) && apicId == old(apicId)
    {
      var current := ReadReg(lvtReg);
      WriteReg(lvtReg, LvtMaskWrite(current, masked));
    }

    method GetLvtMasked(lvtReg: nat) returns (masked: bool)
      ensures masked <==> RegValue(regs, lvtReg) & LvtMaskBit != 0
    {
      var value := ReadReg(lvtReg);
      masked := value & (1 << 16) != 0;
    }

    /** SetLvtMasked followed by GetLvtMasked reads back the mask that was set; every other
        bit of the register is left set (LvtMaskWriteClobbersEntry shows what that loses). */
    method MaskRoundTrip(lvtReg: nat, masked: bool) returns (readBack: bool)
      modifies this
      ensures readBack == masked
      ensures RegValue(regs, lvtReg) | LvtMaskBit == 0xFFFF_FFFF
    {
      SetLvtMasked(lvtReg, masked);
      readBack := GetLvtMasked(lvtReg);
    }
  }
}
