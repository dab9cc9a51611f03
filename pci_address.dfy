/** PCI configuration-space addresses (kernel/include/devices/PciBridge.h). A legacy address
    is the port-I/O CONFIG_ADDRESS word of section 3.2.2.3.2 of the PCI Local Bus
    Specification 3.0, without the enable bit, tagged by setting the upper 32 bits. An ECAM
    address is the memory-mapped address of section 7.2.2 of the PCI Express Base
    Specification: the segment base plus bus << 20, device << 15, function << 12 and the
    register offset. NativeUInt is 64 bits wide, so the ECAM sum wraps modulo 2^64. */
module PciAddressing {

  const LegacyTag: bv64 := 0xFFFF_FFFF_0000_0000

  datatype PciAddress = PciAddress(addr: bv64)

  /** PciAddress::IsLegacy: the upper 32 bits are the tag. */
  predicate IsLegacy(a: PciAddress): (r: bool)
    ensures r <==> a.addr & LegacyTag == LegacyTag
  {
    a.addr >> 32 == 0xFFFF_FFFF
  }

  /** PciAddress::CreateLegacy. The device is cut to 5 bits, the function to 3 and the offset
      to a dword boundary; nothing sets the enable bit (bit 31). */
  function CreateLegacy(bus: bv8, device: bv8, func: bv8, regOffset: bv8): (a: PciAddress)
    ensures a.addr & 0xFFFF_FFFF_0000_0000 == LegacyTag
    ensures a.addr & 0xFF_0000 == (bus as bv64) << 16
    ensures a.addr & 0xF800 == ((device & 0x1F) as bv64) << 11
    ensures a.addr & 0x700 == ((func & 0x7) as bv64) << 8
    ensures a.addr & 0xFF == (regOffset & 0xFC) as bv64
    ensures a.addr & 0xFF00_0000 == 0
  {
    PciAddress(((bus as bv64) << 16) | (((device & 0x1F) as bv64) << 11) | (((func & 0x7) as bv64) << 8)
      | (regOffset & 0xFC) as bv64 | LegacyTag)
  }

  /** Every legacy address is recognised as one. */
  lemma CreateLegacyIsLegacy(bus: bv8, device: bv8, func: bv8, regOffset: bv8)
    ensures IsLegacy(CreateLegacy(bus, device, func, regOffset))
  {
  }

  /** Distinct locations within range have distinct legacy addresses. */
  lemma CreateLegacyInjective(bus1: bv8, dev1: bv8, fn1: bv8, off1: bv8, bus2: bv8, dev2: bv8, fn2: bv8, off2: bv8)
    requires dev1 < 32 && dev2 < 32 && fn1 < 8 && fn2 < 8
    requires off1 & 0x3 == 0 && off2 & 0x3 == 0
    requires CreateLegacy(bus1, dev1, fn1, off1) == CreateLegacy(bus2, dev2, fn2, off2)
    ensures bus1 == bus2 && dev1 == dev2 && fn1 == fn2 && off1 == off2
  {
    var a1 := CreateLegacy(bus1, dev1, fn1, off1).addr;
    assert a1 & 0xFF_0000 == (bus1 as bv64) << 16 == (bus2 as bv64) << 16;
    assert a1 & 0xF800 == (dev1 as bv64) << 11 == (dev2 as bv64) << 11;
    assert a1 & 0x700 == (fn1 as bv64) << 8 == (fn2 as bv64) << 8;
  }

  /** The offset ECAM adds to the segment base. The register offset is 8 bits wide, so
      `& 0xFFC` keeps bits 2-7 only and the extended configuration space (offsets 0x100 and
      up) cannot be reached. */
  function EcamAddend(bus: bv8, device: bv8, func: bv8, regOffset: bv8): (addend: bv64)
    ensures addend < 0x1000_0000
    ensures addend & 0xFFF == (regOffset & 0xFC) as bv64
    ensures device < 32 && func < 8 ==>
      addend & 0xFF0_0000 == (bus as bv64) << 20 &&
      addend & 0xF_8000 == (device as bv64) << 15 &&
      addend & 0x7000 == (func as bv64) << 12
  {
    ((bus as bv64) << 20) | ((device as bv64) << 15) | ((func as bv64) << 12) | ((regOffset as bv64) & 0xFFC)
  }

  /** PciAddress::CreateEcam: the segment base plus the location's offset. */
  function CreateEcam(segmentBase: bv64, bus: bv8, device: bv8, func: bv8, regOffset: bv8): (a: PciAddress)
    ensures a.addr & 0xFFF == (segmentBase + (regOffset & 0xFC) as bv64) & 0xFFF
    ensures segmentBase & 0xFFF_FFFF == 0 ==> a.addr == segmentBase | EcamAddend(bus, device, func, regOffset)
  {
    PciAddress(segmentBase + EcamAddend(bus, device, func, regOffset))
  }

  /** Distinct in-range locations have distinct ECAM offsets. */
  lemma EcamAddendInjective(bus1: bv8, dev1: bv8, fn1: bv8, off1: bv8, bus2: bv8, dev2: bv8, fn2: bv8, off2: bv8)
    requires dev1 < 32 && dev2 < 32 && fn1 < 8 && fn2 < 8
    requires off1 & 0x3 == 0 && off2 & 0x3 == 0
    requires EcamAddend(bus1, dev1, fn1, off1) == EcamAddend(bus2, dev2, fn2, off2)
    ensures bus1 == bus2 && dev1 == dev2 && fn1 == fn2 && off1 == off2
  {
    var e := EcamAddend(bus1, dev1, fn1, off1);
    assert (bus1 as bv64) << 20 == e & 0xFF0_0000 == (bus2 as bv64) << 20;
    assert (dev1 as bv64) << 15 == e & 0xF_8000 == (dev2 as bv64) << 15;
    assert (fn1 as bv64) << 12 == e & 0x7000 == (fn2 as bv64) << 12;
    assert (off1 & 0xFC) as bv64 == e & 0xFFF == (off2 & 0xFC) as bv64;
  }

  /** Within one segment, distinct in-range locations have distinct ECAM addresses: the
      wrapping sum with the segment base of two offsets is equal only for equal offsets. */
  lemma CreateEcamInjective(base: bv64, bus1: bv8, dev1: bv8, fn1: bv8, off1: bv8, bus2: bv8, dev2: bv8, fn2: bv8, off2: bv8)
    requires dev1 < 32 && dev2 < 32 && fn1 < 8 && fn2 < 8
    requires off1 & 0x3 == 0 && off2 & 0x3 == 0
    requires base + EcamAddend(bus1, dev1, fn1, off1) == base + EcamAddend(bus2, dev2, fn2, off2)
    ensures CreateEcam(base, bus1, dev1, fn1, off1) == CreateEcam(base, bus2, dev2, fn2, off2)
    ensures bus1 == bus2 && dev1 == dev2 && fn1 == fn2 && off1 == off2
  {
    EcamAddendInjective(bus1, dev1, fn1, off1, bus2, dev2, fn2, off2);
  }

  /** An ECAM address is never taken for a legacy one while the segment lies below the
      tagged region (the upper 32 bits all set), as the kernel's address-space layout
      guarantees. */
  lemma EcamIsNotLegacy(segmentBase: bv64, bus: bv8, device: bv8, func: bv8, regOffset: bv8)
    requires segmentBase <= LegacyTag - 0x1000_0000
    ensures !IsLegacy(CreateEcam(segmentBase, bus, device, func, regOffset))
  {
    var addend := EcamAddend(bus, device, func, regOffset);
    assert segmentBase + addend < LegacyTag;
  }
}
