/** Flag translation and enumerations of the virtual-memory driver interface
    (kernel/include/memory/virtual/VmDriver.h). VmFlags are the stable,
    design-level protection flags of a range; HatFlags are what the hardware
    translation layer understands. Both are bit sets in the source and are
    modelled as sets of named flags. */
module VmDriverFlags {
  import opened Common

  /** Range flags (VmFlags). */
  datatype VmFlag = Write | Execute | User | Guarded | Mmio

  /** Hardware translation flags (HatFlags); Global stands for the flag bits
      the translation layer has beyond the three the driver sets. */
  datatype HatFlag = Write | Execute | User | Global

  /** ConvertFlags: copies Write, Execute and User across and nothing else. */
  function ConvertFlags(flags: set<VmFlag>): (r: set<HatFlag>)
    ensures HatFlag.Write in r <==> VmFlag.Write in flags
    ensures HatFlag.Execute in r <==> VmFlag.Execute in flags
    ensures HatFlag.User in r <==> VmFlag.User in flags
    ensures r <= {HatFlag.Write, HatFlag.Execute, HatFlag.User}
  {
    var write := if VmFlag.Write in flags then {HatFlag.Write} else {};
    var execute := if VmFlag.Execute in flags then {HatFlag.Execute} else {};
    var user := if VmFlag.User in flags then {HatFlag.User} else {};
    write + execute + user
  }

  /** Flags outside Write, Execute and User never reach the translation layer. */
  lemma ConvertFlagsIgnoresOthers(flags: set<VmFlag>)
    ensures ConvertFlags(flags) == ConvertFlags(flags * {VmFlag.Write, VmFlag.Execute, VmFlag.User})
    ensures ConvertFlags({}) == {}
    ensures ConvertFlags({VmFlag.Guarded, VmFlag.Mmio}) == {}
  {
  }

  /** ConvertFlags distributes over the union of flag sets. */
  lemma ConvertFlagsUnion(a: set<VmFlag>, b: set<VmFlag>)
    ensures ConvertFlags(a + b) == ConvertFlags(a) + ConvertFlags(b)
  {
  }

  /** Outcome of a driver event (EventResult). */
  datatype EventResult = Continue | Kill | Suspend

  /** Driver kinds (VmDriverType); the value 0 is reserved so that a request
      which leaves the type unset finds no driver. */
  datatype VmDriverType = Anon | Kernel

  const DriverTypeEnumCount: nat := 3

  function DriverTypeValue(t: VmDriverType): (v: nat)
    ensures 0 < v < DriverTypeEnumCount
    ensures t == Anon <==> v == 1
    ensures t == Kernel <==> v == 2
  {
    match t
    case Anon => 1
    case Kernel => 2
  }

  /** The driver type a numeric value names, if any. */
  function DriverTypeOf(v: nat): (r: Option<VmDriverType>)
    ensures r.Some? <==> 0 < v < DriverTypeEnumCount
    ensures r == Some(Anon) <==> v == 1
    ensures r == Some(Kernel) <==> v == 2
  {
    if v == 1 then Some(Anon) else if v == 2 then Some(Kernel) else None
  }

  /** The numbering is a bijection between the driver kinds and 1 .. EnumCount-1:
      Anon is 1 and Kernel is 2. */
  lemma DriverTypeNumbering(t: VmDriverType, v: nat)
    ensures DriverTypeValue(Anon) == 1 && DriverTypeValue(Kernel) == 2
    ensures DriverTypeOf(DriverTypeValue(t)) == Some(t)
    ensures DriverTypeOf(v).Some? ==> DriverTypeValue(DriverTypeOf(v).value) == v
    ensures DriverTypeOf(0) == None
  {
  }
}
