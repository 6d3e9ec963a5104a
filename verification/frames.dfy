/**
  STACKFRAME64 as the walker uses it: five ADDRESS64 slots, seeded by
  InitializeStackFrame64 from the registers of a captured thread context.
 */
module Frames {
  import opened Bits
  import opened Natives

  /** ADDRESS64: an offset and its addressing mode (the segment is never set). */
  datatype Address = Address(offset: uint64, mode: AddressMode)

  /** The STACKFRAME64 fields the walker reads or writes. */
  datatype StackFrame = StackFrame(
    addrPC: Address,
    addrReturn: Address,
    addrFrame: Address,
    addrStack: Address,
    addrBStore: Address)

  /** `new STACKFRAME64()`: every offset zero, every mode the zero mode. */
  const ZeroAddress: Address := Address(0, Mode1616)
  const EmptyFrame: StackFrame :=
    StackFrame(ZeroAddress, ZeroAddress, ZeroAddress, ZeroAddress, ZeroAddress)

  /** The five addresses of a frame, in declaration order. */
  function Slots(f: StackFrame): seq<Address> {
    [f.addrPC, f.addrReturn, f.addrFrame, f.addrStack, f.addrBStore]
  }

  /**
    InitializeStackFrame64: sets the PC, frame, stack and backing-store offsets
    to its four offset arguments, in that order, and every mode to `mode`. The
    return address is given only its mode, so its offset keeps the zero of a
    fresh STACKFRAME64.
   */
  function InitializeStackFrame64(
    mode: AddressMode, offsetPC: uint64, offsetFrame: uint64, offsetStack: uint64,
    offsetBStore: uint64): (f: StackFrame)
    ensures forall i :: 0 <= i < |Slots(f)| ==> Slots(f)[i].mode == mode
    ensures [f.addrPC.offset, f.addrFrame.offset, f.addrStack.offset, f.addrBStore.offset]
         == [offsetPC, offsetFrame, offsetStack, offsetBStore]
    ensures f.addrReturn.offset == 0
  {
    var f := EmptyFrame;
    var f := f.(addrPC := f.addrPC.(mode := mode));
    var f := f.(addrPC := f.addrPC.(offset := offsetPC));
    var f := f.(addrReturn := f.addrReturn.(mode := mode));
    var f := f.(addrFrame := f.addrFrame.(mode := mode));
    var f := f.(addrFrame := f.addrFrame.(offset := offsetFrame));
    var f := f.(addrStack := f.addrStack.(mode := mode));
    var f := f.(addrStack := f.addrStack.(offset := offsetStack));
    var f := f.(addrBStore := f.addrBStore.(offset := offsetBStore));
    f.(addrBStore := f.addrBStore.(mode := mode))
  }

  // The registers the seeding reads from each CONTEXT layout.
  datatype X86Registers = X86Registers(eip: uint32, esp: uint32, ebp: uint32)
  datatype Amd64Registers = Amd64Registers(rip: uint64, rsp: uint64)
  datatype Ia64Registers = Ia64Registers(stIIP: uint64, intSp: uint64, rsBSP: uint64)

  /** The CONTEXT record a walk captures and StackWalk64 updates; `NoContext` when none was read. */
  datatype ContextRecord =
    | X86Record(x86: X86Registers)
    | Amd64Record(amd64: Amd64Registers)
    | Ia64Record(ia64: Ia64Registers)
    | NoContext

  /** Every seeded frame is flat-addressed and starts with a zero return address. */
  predicate FlatSeed(f: StackFrame) {
    && (forall i :: 0 <= i < |Slots(f)| ==> Slots(f)[i].mode == Flat)
    && f.addrReturn.offset == 0
  }

  /**
    The x86 call sites pass (Eip, Esp, Ebp, 0). Read back, the PC is Eip, but
    the frame slot holds Esp and the stack slot Ebp: the reverse of the
    STACKFRAME64 field comments (frame pointer EBP, stack pointer ESP).
   */
  function SeedX86(r: X86Registers): (f: StackFrame)
    ensures FlatSeed(f)
    ensures f.addrPC.offset == r.eip
    ensures f.addrFrame.offset == r.esp && f.addrStack.offset == r.ebp
    ensures f.addrBStore.offset == 0
    ensures r.esp != r.ebp ==> f.addrFrame.offset != r.ebp
  {
    InitializeStackFrame64(Flat, r.eip, r.esp, r.ebp, 0)
  }

  /** The AMD64 call sites pass (Rip, Rsp, Rsp, 0): Rsp lands in both the frame and the stack slot. */
  function SeedAmd64(r: Amd64Registers): (f: StackFrame)
    ensures FlatSeed(f)
    ensures f.addrPC.offset == r.rip
    ensures f.addrFrame.offset == r.rsp && f.addrStack.offset == r.rsp
    ensures f.addrBStore.offset == 0
  {
    InitializeStackFrame64(Flat, r.rip, r.rsp, r.rsp, 0)
  }

  /**
    The IA64 call sites pass (StIIP, IntSp, RsBSP, IntSp): the backing-store
    slot gets IntSp, where the field comment names RsBSP.
   */
  function SeedIa64(r: Ia64Registers): (f: StackFrame)
    ensures FlatSeed(f)
    ensures f.addrPC.offset == r.stIIP
    ensures f.addrFrame.offset == r.intSp && f.addrStack.offset == r.rsBSP
    ensures f.addrBStore.offset == r.intSp
    ensures r.intSp != r.rsBSP ==> f.addrBStore.offset != r.rsBSP
  {
    InitializeStackFrame64(Flat, r.stIIP, r.intSp, r.rsBSP, r.intSp)
  }
}
