/**
  StackCall: the immutable per-frame record. Construction performs two lookups
  in the target process, both given here as functions: the mapped file name at
  an address (GetMappedFileNameW, which takes a signed pointer) and the symbol
  name at an address (SymGetSymFromAddr64).
 */
module Calls {
  import opened Bits
  import opened Wrappers
  import opened ModuleLoader

  /** A StackCall; `threadId` is the fourth constructor argument one call site passes. */
  datatype StackCall = StackCall(
    offset: uint64,
    returnAddress: uint64,
    symbol: Utf16,
    symbolFile: Utf16,
    threadId: Option<int>)

  /**
    IMAGEHLP_SYMBOL64.Name is marshalled as a fixed array of 33 chars, and
    `new string(char[])` keeps every one of them, NUL padding included.
   */
  const SymbolNameLength: nat := 33

  type SymbolName = s: Utf16 | |s| == SymbolNameLength witness seq(SymbolNameLength, i => 0)

  /** The two lookups a StackCall performs against the target process. */
  datatype Resolver = Resolver(mappedFileName: int64 -> Utf16, symbolName: uint64 -> SymbolName)

  /**
    Whether `(IntPtr)` accepts the signed reading of pc. IntPtr's explicit
    conversion from long takes every value in a 64-bit process, and throws
    OverflowException outside the int range in a 32-bit one.
   */
  predicate PcConvertible(ptr: PointerSize, pc: uint64) {
    var offset := UlongToLong(pc);
    ptr == 8 || -TWO_31 <= offset < TWO_31
  }

  /**
    The StackCall constructor: the file lookup is made at `(IntPtr)UlongToLong(pc)`
    into a 256-unit buffer, the symbol lookup at pc itself; the return
    address is only stored. None is the OverflowException of the `(IntPtr)`
    conversion, thrown before either lookup.
   */
  function NewStackCall(res: Resolver, ptr: PointerSize, pc: uint64, ret: uint64, threadId: Option<int>)
    : (o: Option<StackCall>)
    ensures o.None? <==> ptr == 4 && TWO_31 <= pc < TWO_64 - TWO_31
    ensures o.Some? ==> o.value.offset == pc && o.value.returnAddress == ret && o.value.threadId == threadId
    ensures o.Some? ==> o.value.symbolFile == Truncate(res.mappedFileName(if pc < TWO_63 then pc else pc - TWO_64), 256)
    ensures o.Some? ==> |o.value.symbolFile| < 256
    ensures o.Some? ==> o.value.symbol == res.symbolName(pc) && |o.value.symbol| == SymbolNameLength
  {
    if !PcConvertible(ptr, pc) then None
    else
      var file := Truncate(res.mappedFileName(UlongToLong(pc)), 256);
      var symbol := res.symbolName(pc);
      Some(StackCall(pc, ret, symbol, file, threadId))
  }

  /** Lookups depend on the program counter only, never on the return address. */
  lemma LookupsIgnoreReturnAddress(res: Resolver, ptr: PointerSize, pc: uint64, ret1: uint64, ret2: uint64, t: Option<int>)
    ensures NewStackCall(res, ptr, pc, ret1, t).None? <==> NewStackCall(res, ptr, pc, ret2, t).None?
    ensures NewStackCall(res, ptr, pc, ret1, t).Some? ==>
      && NewStackCall(res, ptr, pc, ret1, t).value.symbol == NewStackCall(res, ptr, pc, ret2, t).value.symbol
      && NewStackCall(res, ptr, pc, ret1, t).value.symbolFile == NewStackCall(res, ptr, pc, ret2, t).value.symbolFile
  {
  }
}
