/** Supervisor trap entry on RISC-V (kernel/arch/riscv64/Interrupts.cpp): how the trap
    vector base is loaded, and how a trap's cause is decoded into the action the kernel
    takes. The cause register is laid out as in section 4.1.8 of the RISC-V Privileged
    Architecture (bit 63 set for interrupts, the exception or interrupt code below it);
    stvec and sie as in sections 4.1.2 and 4.1.3.

    The scheduler's frame saving and switching, the IPI mailbox, the timer callback, the
    interrupt manager and the VMMs are collaborators: the decode names which of them is
    called with what. */
module RiscvTrap {

  const InterruptBit: bv64 := 1 << 63

  /** Supervisor software, timer and external interrupt enables (SSIE, STIE, SEIE). */
  const SupervisorInterruptEnables: bv64 := 0x222

  datatype FaultFlag = Read | Write | Execute | User

  datatype AddressSpace = CurrentVmm | KernelVmm

  datatype TrapAction =
    | IpiMail                                   // interrupt 1: process the IPI mailbox
    | TimerTick                                 // interrupt 5 with a timer callback installed
    | TimerIgnored                              // interrupt 5 with no timer callback
    | ExternalFatal                             // interrupt 9: logged at Fatal level
    | DispatchInterrupt(vector: bv64)           // any other interrupt: the interrupt manager
    | PageFault(space: AddressSpace, addr: bv64, flags: set<FaultFlag>)
    | ExceptionFatal(vector: bv64, ec: bv64)    // any other exception: logged at Fatal level

  predicate IsInterruptCause(cause: bv64)
  {
    cause & InterruptBit != 0
  }

  /** The cause with bit 63 cleared, as TrapDispatch writes it back into the frame. */
  function CauseCode(cause: bv64): (c: bv64)
    ensures c & InterruptBit == 0
    ensures c | (cause & InterruptBit) == cause
  {
    cause & !InterruptBit
  }

  predicate IsInterruptAction(a: TrapAction)
  {
    a.IpiMail? || a.TimerTick? || a.TimerIgnored? || a.ExternalFatal? || a.DispatchInterrupt?
  }

  /** Access flags of a page-fault exception (codes 12 to 15), plus User when the trap came
      from user mode (sstatus.SPP clear). */
  function PageFaultFlags(code: bv64, spp: bv1): (f: set<FaultFlag>)
    requires 12 <= code <= 15
    ensures Execute in f <==> code == 12
    ensures Read in f <==> code == 13
    ensures Write in f <==> code == 15
    ensures User in f <==> spp == 0
  {
    (if code == 12 then {Execute} else if code == 13 then {Read} else if code == 15 then {Write} else {}) +
    (if spp == 0 then {User} else {})
  }

  /** TrapDispatch's decision for a trap with the given cause, fault address, SPP bit,
      higher-half direct-map base and timer-callback presence. */
  function DecodeTrap(cause: bv64, ec: bv64, spp: bv1, hhdmBase: bv64, timerInstalled: bool): (a: TrapAction)
    ensures IsInterruptAction(a) <==> IsInterruptCause(cause)
    ensures a.IpiMail? <==> IsInterruptCause(cause) && CauseCode(cause) == 1
    ensures a.TimerTick? <==> IsInterruptCause(cause) && CauseCode(cause) == 5 && timerInstalled
    ensures a.TimerIgnored? <==> IsInterruptCause(cause) && CauseCode(cause) == 5 && !timerInstalled
    ensures a.ExternalFatal? <==> IsInterruptCause(cause) && CauseCode(cause) == 9
    ensures a.DispatchInterrupt? <==>
      IsInterruptCause(cause) && CauseCode(cause) != 1 && CauseCode(cause) != 5 && CauseCode(cause) != 9
    ensures a.DispatchInterrupt? ==> a.vector == CauseCode(cause)
    ensures a.PageFault? <==> !IsInterruptCause(cause) && 12 <= CauseCode(cause) <= 15
    ensures a.PageFault? ==>
      a.addr == ec && a.flags == PageFaultFlags(CauseCode(cause), spp) &&
      (a.space == CurrentVmm <==> ec < hhdmBase)
    ensures a.ExceptionFatal? <==> !IsInterruptCause(cause) && !(12 <= CauseCode(cause) <= 15)
    ensures a.ExceptionFatal? ==> a.vector == CauseCode(cause) && a.ec == ec
  {
    var code := CauseCode(cause);
    if IsInterruptCause(cause) then
      if code == 1 then IpiMail
      else if code == 5 then (if timerInstalled then TimerTick else TimerIgnored)
      else if code == 9 then ExternalFatal
      else DispatchInterrupt(code)
    else if 12 <= code <= 15 then
      PageFault(if ec < hhdmBase then CurrentVmm else KernelVmm, ec, PageFaultFlags(code, spp))
    else
      ExceptionFatal(code, ec)
  }

  /** A page fault carries at most one access flag; code 14 carries none. */
  lemma PageFaultAccessExclusive(code: bv64, spp: bv1)
    requires 12 <= code <= 15
    ensures |PageFaultFlags(code, spp) * {Read, Write, Execute}| == (if code == 14 then 0 else 1)
  {
    var f := PageFaultFlags(code, spp) * {Read, Write, Execute};
    if code == 12 {
      assert f == {Execute};
    } else if code == 13 {
      assert f == {Read};
    } else if code == 15 {
      assert f == {Write};
    } else {
      assert f == {};
    }
  }

  /** The stvec value LoadStvec writes: the entry with the mode field (bits 1:0) cleared,
      selecting direct mode. */
  function StvecValue(entry: bv64): (r: bv64)
    ensures r & 3 == 0
    ensures r & !3 == entry & !3
  {
    entry & !3
  }

  /** An aligned entry is written unchanged. */
  lemma StvecAligned(entry: bv64)
    requires entry & 3 == 0
    ensures StvecValue(entry) == entry
  {
  }

  datatype RunLevel = IntHandler | OtherLevel

  /** The trap frame fields TrapDispatch reads and rewrites. */
  class TrapFrame {
    var vector: bv64
    var ec: bv64
    var spp: bv1

    constructor (vector: bv64, ec: bv64, spp: bv1)
      ensures this.vector == vector && this.ec == ec && this.spp == spp
    {
      this.vector := vector;
      this.ec := ec;
      this.spp := spp;
    }
  }

  /** The supervisor CSRs and core-local state of one hart. */
  class Hart {
    var stvec: bv64
    var sie: bv64
    var sip: bv64
    var runLevel: RunLevel

    constructor (sie: bv64, sip: bv64)
      ensures this.sie == sie && this.sip == sip && stvec == 0 && runLevel == OtherLevel
    {
      this.sie := sie;
      this.sip := sip;
      stvec := 0;
      runLevel := OtherLevel;
    }

    /** LoadStvec: the trap entry must be 4-byte aligned; it is written in direct mode and
        the supervisor software, timer and external interrupts are enabled. */
    method LoadStvec(trapEntry: bv64)
      requires trapEntry & 3 == 0
      modifies this
      ensures stvec == StvecValue(trapEntry) && stvec == trapEntry
      ensures sie == old(sie) | SupervisorInterruptEnables
      ensures sip == old(sip) && runLevel == old(runLevel)
    {
      stvec := trapEntry & !3;
      sie := sie | SupervisorInterruptEnables;
    }

    /** TrapDispatch: enters the interrupt-handler run level, clears bit 63 of the frame's
        vector, decides the action, and after an interrupt clears its pending bit in sip.
        The source computes that bit as the 32-bit `1 << code`, defined only for codes
        below 31, which is what the precondition admits. */
    method TrapDispatch(frame: TrapFrame, hhdmBase: bv64, timerInstalled: bool) returns (action: TrapAction)
      requires IsInterruptCause(frame.vector) ==> CauseCode(frame.vector) < 31
      modifies this, frame
      ensures runLevel == IntHandler
      ensures frame.vector == CauseCode(old(frame.vector))
      ensures frame.ec == old(frame.ec) && frame.spp == old(frame.spp)
      ensures action == DecodeTrap(old(frame.vector), frame.ec, frame.spp, hhdmBase, timerInstalled)
      ensures IsInterruptCause(old(frame.vector)) ==>
        sip == old(sip) & !((1 as bv64) << (frame.vector as bv32))
      ensures !IsInterruptCause(old(frame.vector)) ==> sip == old(sip)
      ensures stvec == old(stvec) && sie == old(sie)
    {
      runLevel := IntHandler;
      var isInterrupt := frame.vector & InterruptBit != 0;
      action := DecodeTrap(frame.vector, frame.ec, frame.spp, hhdmBase, timerInstalled);
      frame.vector := frame.vector & !InterruptBit;
      if isInterrupt {
        sip := sip & !((1 as bv64) << (frame.vector as bv32));
      }
    }
  }

  /** Clearing the pending bit of an interrupt leaves every other pending bit alone. */
  lemma SipClearOnlyOwnBit(sip: bv64, code: bv64, other: bv64)
    requires code < 31 && other < 64 && other != code
    ensures (sip & !((1 as bv64) << (code as bv32))) & ((1 as bv64) << (other as bv32)) ==
            sip & ((1 as bv64) << (other as bv32))
    ensures (sip & !((1 as bv64) << (code as bv32))) & ((1 as bv64) << (code as bv32)) == 0
  {
  }
}
