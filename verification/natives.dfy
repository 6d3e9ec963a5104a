/**
  Constant tables and small bit-level records of the native interop layer:
  machine types, address modes, CONTEXT flag compositions, module-list filters,
  the FPO_DATA bitfield and the counted wide string W_STRING.
 */
module Natives {
  import opened Bits
  import opened Wrappers

  // ImageFileMachine: the machine type handed to StackWalk64.
  const I386: uint32 := 0x014c
  const IA64: uint32 := 0x0200
  const AMD64: uint32 := 0x8664

  /** ADDRESS64 addressing modes, in declaration order (so `Mode1616` is the default 0). */
  datatype AddressMode = Mode1616 | Mode1632 | Real | Flat

  function AddressModeValue(m: AddressMode): (v: nat)
    ensures v < 4
    ensures m == Mode1616 <==> v == 0
    ensures m == Mode1632 <==> v == 1
    ensures m == Real <==> v == 2
    ensures m == Flat <==> v == 3
  {
    match m
    case Mode1616 => 0
    case Mode1632 => 1
    case Real => 2
    case Flat => 3
  }

  /** The four addressing modes have four different values. */
  lemma AddressModeValuesDistinct(m1: AddressMode, m2: AddressMode)
    ensures AddressModeValue(m1) == AddressModeValue(m2) <==> m1 == m2
  {
  }

  /** The three processor families a CONTEXT record can describe. */
  datatype ContextArch = X86Arch | Amd64Arch | Ia64Arch

  /** Every member of the ContextFlags enumeration. */
  datatype ContextFlag =
    | NoFlags
    | X86Context | X86ContextControl | X86ContextInteger | X86ContextSegments
    | X86ContextFloatingPoint | X86ContextDebugRegisters | X86ContextExtendedRegisters
    | X86ContextFull | X86ContextAll
    | AMD64Context | AMD64ContextControl | AMD64ContextInteger | AMD64ContextSegments
    | AMD64ContextFloatingPoint | AMD64ContextDebugRegisters
    | AMD64ContextFull | AMD64ContextAll
    | IA64Context | IA64ContextControl | IA64ContextLowerFloatingPoint
    | IA64ContextHigherFloatingPoint | IA64ContextInteger | IA64ContextDebug
    | IA64ContextIA32Control | IA64ContextFloatingPoint
    | IA64ContextFull | IA64ContextAll

  /** The architecture tag bit of each CONTEXT family. */
  function ArchTag(a: ContextArch): (t: bv32)
    ensures t != 0 && t & (t - 1) == 0
  {
    match a
    case X86Arch => 0x10000
    case Amd64Arch => 0x100000
    case Ia64Arch => 0x80000
  }

  /** The union of the three tag bits. */
  const AllTags: bv32 := 0x190000

  /** The family a flag belongs to; `NoFlags` belongs to none. */
  function FlagArch(f: ContextFlag): Option<ContextArch>
  {
    match f
    case NoFlags => None
    case X86Context | X86ContextControl | X86ContextInteger | X86ContextSegments
      | X86ContextFloatingPoint | X86ContextDebugRegisters | X86ContextExtendedRegisters
      | X86ContextFull | X86ContextAll => Some(X86Arch)
    case AMD64Context | AMD64ContextControl | AMD64ContextInteger | AMD64ContextSegments
      | AMD64ContextFloatingPoint | AMD64ContextDebugRegisters
      | AMD64ContextFull | AMD64ContextAll => Some(Amd64Arch)
    case _ => Some(Ia64Arch)
  }

  // The ContextFlags enumeration, each member composed as the enumeration composes it.
  const CONTEXT_X86: bv32 := 0x10000
  const CONTEXT_X86_CONTROL: bv32 := CONTEXT_X86 | 0x1
  const CONTEXT_X86_INTEGER: bv32 := CONTEXT_X86 | 0x2
  const CONTEXT_X86_SEGMENTS: bv32 := CONTEXT_X86 | 0x4
  const CONTEXT_X86_FLOATING_POINT: bv32 := CONTEXT_X86 | 0x8
  const CONTEXT_X86_DEBUG_REGISTERS: bv32 := CONTEXT_X86 | 0x10
  const CONTEXT_X86_EXTENDED_REGISTERS: bv32 := CONTEXT_X86 | 0x20
  const CONTEXT_X86_FULL: bv32 :=
    CONTEXT_X86 | CONTEXT_X86_CONTROL | CONTEXT_X86_INTEGER | CONTEXT_X86_SEGMENTS
  const CONTEXT_X86_ALL: bv32 :=
    CONTEXT_X86 | CONTEXT_X86_CONTROL | CONTEXT_X86_INTEGER | CONTEXT_X86_SEGMENTS
    | CONTEXT_X86_FLOATING_POINT | CONTEXT_X86_DEBUG_REGISTERS | CONTEXT_X86_EXTENDED_REGISTERS

  const CONTEXT_AMD64: bv32 := 0x100000
  const CONTEXT_AMD64_CONTROL: bv32 := CONTEXT_AMD64 | 0x1
  const CONTEXT_AMD64_INTEGER: bv32 := CONTEXT_AMD64 | 0x2
  const CONTEXT_AMD64_SEGMENTS: bv32 := CONTEXT_AMD64 | 0x4
  const CONTEXT_AMD64_FLOATING_POINT: bv32 := CONTEXT_AMD64 | 0x8
  const CONTEXT_AMD64_DEBUG_REGISTERS: bv32 := CONTEXT_AMD64 | 0x10
  const CONTEXT_AMD64_FULL: bv32 :=
    CONTEXT_AMD64 | CONTEXT_AMD64_CONTROL | CONTEXT_AMD64_INTEGER | CONTEXT_AMD64_FLOATING_POINT
  const CONTEXT_AMD64_ALL: bv32 :=
    CONTEXT_AMD64 | CONTEXT_AMD64_CONTROL | CONTEXT_AMD64_INTEGER | CONTEXT_AMD64_SEGMENTS
    | CONTEXT_AMD64_FLOATING_POINT | CONTEXT_AMD64_DEBUG_REGISTERS

  const CONTEXT_IA64: bv32 := 0x80000
  const CONTEXT_IA64_CONTROL: bv32 := CONTEXT_IA64 | 0x1
  const CONTEXT_IA64_LOWER_FLOATING_POINT: bv32 := CONTEXT_IA64 | 0x2
  const CONTEXT_IA64_HIGHER_FLOATING_POINT: bv32 := CONTEXT_IA64 | 0x4
  const CONTEXT_IA64_INTEGER: bv32 := CONTEXT_IA64 | 0x8
  const CONTEXT_IA64_DEBUG: bv32 := CONTEXT_IA64 | 0x10
  const CONTEXT_IA64_IA32_CONTROL: bv32 := CONTEXT_IA64 | 0x20
  const CONTEXT_IA64_FLOATING_POINT: bv32 :=
    CONTEXT_IA64 | CONTEXT_IA64_LOWER_FLOATING_POINT | CONTEXT_IA64_HIGHER_FLOATING_POINT
  const CONTEXT_IA64_FULL: bv32 :=
    CONTEXT_IA64 | CONTEXT_IA64_CONTROL | CONTEXT_IA64_FLOATING_POINT | CONTEXT_IA64_INTEGER
    | CONTEXT_IA64_IA32_CONTROL
  const CONTEXT_IA64_ALL: bv32 :=
    CONTEXT_IA64 | CONTEXT_IA64_CONTROL | CONTEXT_IA64_FLOATING_POINT | CONTEXT_IA64_INTEGER
    | CONTEXT_IA64_DEBUG | CONTEXT_IA64_IA32_CONTROL

  /** The numeric value of each member of the enumeration. */
  function FlagValue(f: ContextFlag): (v: bv32)
    ensures FlagArch(f).None? ==> v == 0
    ensures FlagArch(f).Some? ==> v & AllTags == ArchTag(FlagArch(f).value)
  {
    match f
    case NoFlags => 0
    case X86Context => CONTEXT_X86
    case X86ContextControl => CONTEXT_X86_CONTROL
    case X86ContextInteger => CONTEXT_X86_INTEGER
    case X86ContextSegments => CONTEXT_X86_SEGMENTS
    case X86ContextFloatingPoint => CONTEXT_X86_FLOATING_POINT
    case X86ContextDebugRegisters => CONTEXT_X86_DEBUG_REGISTERS
    case X86ContextExtendedRegisters => CONTEXT_X86_EXTENDED_REGISTERS
    case X86ContextFull => CONTEXT_X86_FULL
    case X86ContextAll => CONTEXT_X86_ALL
    case AMD64Context => CONTEXT_AMD64
    case AMD64ContextControl => CONTEXT_AMD64_CONTROL
    case AMD64ContextInteger => CONTEXT_AMD64_INTEGER
    case AMD64ContextSegments => CONTEXT_AMD64_SEGMENTS
    case AMD64ContextFloatingPoint => CONTEXT_AMD64_FLOATING_POINT
    case AMD64ContextDebugRegisters => CONTEXT_AMD64_DEBUG_REGISTERS
    case AMD64ContextFull => CONTEXT_AMD64_FULL
    case AMD64ContextAll => CONTEXT_AMD64_ALL
    case IA64Context => CONTEXT_IA64
    case IA64ContextControl => CONTEXT_IA64_CONTROL
    case IA64ContextLowerFloatingPoint => CONTEXT_IA64_LOWER_FLOATING_POINT
    case IA64ContextHigherFloatingPoint => CONTEXT_IA64_HIGHER_FLOATING_POINT
    case IA64ContextInteger => CONTEXT_IA64_INTEGER
    case IA64ContextDebug => CONTEXT_IA64_DEBUG
    case IA64ContextIA32Control => CONTEXT_IA64_IA32_CONTROL
    case IA64ContextFloatingPoint => CONTEXT_IA64_FLOATING_POINT
    case IA64ContextFull => CONTEXT_IA64_FULL
    case IA64ContextAll => CONTEXT_IA64_ALL
  }

  /** a includes every bit of b. */
  predicate Includes(a: bv32, b: bv32) {
    a & b == b
  }

  /** The three tag bits are pairwise distinct single bits. */
  lemma TagsDistinct(a: ContextArch, b: ContextArch)
    ensures a != b ==> ArchTag(a) & ArchTag(b) == 0
    ensures ArchTag(a) & AllTags == ArchTag(a)
  {
  }

  /** For each family the *All composite is a superset of *Full. */
  lemma AllIncludesFull()
    ensures Includes(CONTEXT_X86_ALL, CONTEXT_X86_FULL)
    ensures Includes(CONTEXT_AMD64_ALL, CONTEXT_AMD64_FULL)
    ensures Includes(CONTEXT_IA64_ALL, CONTEXT_IA64_FULL)
  {
  }

  /** AMD64ContextFull leaves out the segment registers that AMD64ContextAll reads. */
  lemma Amd64FullOmitsSegments()
    ensures !Includes(CONTEXT_AMD64_FULL, CONTEXT_AMD64_SEGMENTS)
    ensures Includes(CONTEXT_AMD64_ALL, CONTEXT_AMD64_SEGMENTS)
  {
  }

  /** ListModules: the EnumProcessModulesEx filter. */
  datatype ModuleFilter = Default | Bits32 | Bits64 | All

  function FilterValue(f: ModuleFilter): (v: bv32)
    ensures v & 0x3 == v
    ensures f != All && f != Default ==> v != 0 && v & (v - 1) == 0
    ensures f == Default <==> v == 0
  {
    match f
    case Default => 0x0
    case Bits32 => 0x01
    case Bits64 => 0x02
    case All => 0x03
  }

  /** ListModules.All is the union of the 32-bit and 64-bit filters. */
  lemma FilterAllIsUnion()
    ensures FilterValue(All) == FilterValue(Bits32) | FilterValue(Bits64)
    ensures FilterValue(Bits32) & FilterValue(Bits64) == 0
  {
  }

  /** The decoded FPO_DATA attribute word, one field per getter. */
  datatype FpoFields = FpoFields(
    cbProlog: bv16, cbRegs: bv16, fHasSEH: bv16, fUseBP: bv16, reserved: bv16, cbFrame: bv16)

  /** Each field is within the width of its bitfield. */
  predicate FpoInRange(f: FpoFields) {
    && f.cbProlog <= 0xFF && f.cbRegs <= 0x7 && f.fHasSEH <= 1
    && f.fUseBP <= 1 && f.reserved <= 1 && f.cbFrame <= 0x3
  }

  // The six FPO_DATA getters, each masking raw_bytes and shifting down.

  function CbProlog(raw: bv16): (r: bv16)
    ensures r <= 0xFF
  {
    (raw & 0xFF00) >> 8
  }

  function CbRegs(raw: bv16): (r: bv16)
    ensures r <= 0x7
  {
    (raw & 0x00E0) >> 5
  }

  function FHasSEH(raw: bv16): (r: bv16)
    ensures r <= 1
  {
    (raw & 0x0010) >> 4
  }

  function FUseBP(raw: bv16): (r: bv16)
    ensures r <= 1
  {
    (raw & 0x0008) >> 3
  }

  function Reserved(raw: bv16): (r: bv16)
    ensures r <= 1
  {
    (raw & 0x0004) >> 2
  }

  function CbFrame(raw: bv16): (r: bv16)
    ensures r <= 0x3
  {
    raw & 0x0003
  }

  /** All six getters applied to one attribute word. */
  function FpoDecode(raw: bv16): (f: FpoFields)
    ensures FpoInRange(f)
  {
    FpoFields(CbProlog(raw), CbRegs(raw), FHasSEH(raw), FUseBP(raw), Reserved(raw), CbFrame(raw))
  }

  /** Packs in-range fields back into the attribute word. */
  function FpoEncode(f: FpoFields): bv16
  {
    (f.cbProlog << 8) | (f.cbRegs << 5) | (f.fHasSEH << 4) | (f.fUseBP << 3)
    | (f.reserved << 2) | f.cbFrame
  }

  /** The masks cover all sixteen bits without overlap: decoding loses nothing. */
  lemma FpoEncodeDecode(raw: bv16)
    ensures FpoEncode(FpoDecode(raw)) == raw
  {
  }

  /** Encoding in-range fields and decoding gives the fields back. */
  lemma FpoDecodeEncode(f: FpoFields)
    requires FpoInRange(f)
    ensures FpoDecode(FpoEncode(f)) == f
  {
  }

  /**
    W_STRING: a counted UTF-16 string. `Length` is the byte length, two per
    UTF-16 unit as `String.Length` counts them, truncated to 16 bits, and
    `MaximumLength` is two more, also truncated; `buffer` is the address the
    string was copied to (allocation is a parameter).
   */
  datatype WString = WString(length: uint16, maximumLength: uint16, buffer: uint64)

  function NewWString(s: Utf16, buffer: uint64): (w: WString)
    ensures w.length == (2 * |s|) % TWO_16
    ensures w.length % 2 == 0
    ensures w.maximumLength == (w.length + 2) % TWO_16
    ensures |s| < 0x7FFF ==> w.length == 2 * |s| && w.maximumLength == w.length + 2
    ensures w.buffer == buffer
  {
    var length := (2 * |s|) % TWO_16;
    WString(length, (length + 2) % TWO_16, buffer)
  }

  /** Dispose frees the buffer and clears the pointer; the counts are kept. */
  function Dispose(w: WString): (d: WString)
    ensures d.buffer == 0
    ensures d.length == w.length && d.maximumLength == w.maximumLength
  {
    w.(buffer := 0)
  }

  /** A string of 32767 UTF-16 units makes MaximumLength wrap below Length. */
  lemma WStringWrapsAt32767(s: Utf16)
    requires |s| == 0x7FFF
    ensures NewWString(s, 0).length == 0xFFFE
    ensures NewWString(s, 0).maximumLength == 0
  {
  }

  /** The number of UTF-16 units a reader of the counted string takes from `Length`. */
  function CharCount(w: WString): nat {
    w.length / 2
  }

  /**
    Reading the count back gives the string's length modulo 0x8000: exact up
    to 32767 UTF-16 units, and 0 for a string of 32768 units.
   */
  lemma WStringCountRoundTrip(s: Utf16, buffer: uint64)
    ensures CharCount(NewWString(s, buffer)) == |s| % 0x8000
    ensures |s| < 0x8000 ==> CharCount(NewWString(s, buffer)) == |s|
  {
    var n := |s|;
    var q := n / 0x8000;
    assert n == 0x8000 * q + n % 0x8000;
    assert 2 * n == TWO_16 * q + 2 * (n % 0x8000);
    DivModUnique(2 * n, TWO_16, q, 2 * (n % 0x8000));
  }
}
