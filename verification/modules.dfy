/**
  LoadModules: enumerates the target's modules with two EnumProcessModulesEx
  calls (one to learn the byte count, one to fill an array sized from it) and
  registers every array entry with the symbol handler through SymLoadModuleEx.
  The module list may change between the two calls, so the two calls are
  given two lists. Two copies of the loop exist: one iterates the array size
  from the first count, the other the count the second call reports.
 */
module ModuleLoader {
  import opened Bits

  /** IntPtr.Size: 4 in a 32-bit process, 8 in a 64-bit one. */
  type PointerSize = p: nat | p == 4 || p == 8 witness 8

  /** A module handle; 0 is IntPtr.Zero, the content of an unfilled array slot. */
  type ModuleHandle = uint64

  /** What the psapi queries report about one module. */
  datatype ModuleInfo = ModuleInfo(fileName: Utf16, baseName: Utf16, baseOfDll: uint64, sizeOfImage: uint32)

  /** The arguments of one SymLoadModuleEx call. */
  datatype Registration = Registration(imageName: Utf16, moduleName: Utf16, baseOfDll: uint64, dllSize: int)

  /** The loop's outcome: it returned `result`, or `hModules[i]` threw IndexOutOfRangeException. */
  datatype LoadOutcome =
    | Loaded(registered: seq<Registration>, result: bool)
    | IndexOutOfRange(registered: seq<Registration>)

  /** The cbNeeded byte count EnumProcessModulesEx reports for a module list. */
  function BytesNeeded(modules: seq<ModuleHandle>, ptr: PointerSize): nat {
    |modules| * ptr
  }

  /** `cbNeeded / IntPtr.Size`: the byte count divided back into entries. */
  function EntryCount(cbNeeded: nat, ptr: PointerSize): nat {
    cbNeeded / ptr
  }

  lemma EntryCountOfBytes(modules: seq<ModuleHandle>, ptr: PointerSize)
    ensures EntryCount(BytesNeeded(modules, ptr), ptr) == |modules|
  {
    DivModUnique(|modules| * ptr, ptr, |modules|, 0);
  }

  /**
    The capacity-limited text a psapi query writes into a StringBuilder of
    `capacity` UTF-16 units, one of them kept for the terminating null.
   */
  function Truncate(s: Utf16, capacity: nat): (t: Utf16)
    requires capacity > 0
    ensures |t| < capacity && t <= s
    ensures |s| < capacity ==> t == s
  {
    if |s| < capacity then s else s[..capacity - 1]
  }

  /** The SymLoadModuleEx arguments built for one handle (file name capacity 256, base name 32). */
  function RegistrationOf(info: ModuleHandle -> ModuleInfo, h: ModuleHandle): (r: Registration)
    ensures r.imageName == Truncate(info(h).fileName, 256) && |r.imageName| < 256
    ensures r.moduleName == Truncate(info(h).baseName, 32) && |r.moduleName| < 32
    ensures r.baseOfDll == info(h).baseOfDll
    ensures r.dllSize == ToInt32(info(h).sizeOfImage)
  {
    var mi := info(h);
    Registration(Truncate(mi.fileName, 256), Truncate(mi.baseName, 32), mi.baseOfDll, ToInt32(mi.sizeOfImage))
  }

  /**
    The array after the second enumeration: as many slots as the first count
    asked for, the leading ones filled from the second list, the rest zero.
   */
  function FilledArray(first: seq<ModuleHandle>, second: seq<ModuleHandle>): (a: seq<ModuleHandle>)
    ensures |a| == |first|
    ensures forall i :: 0 <= i < |a| ==> a[i] == (if i < |second| then second[i] else 0)
  {
    seq(|first|, i requires 0 <= i < |first| => if i < |second| then second[i] else 0)
  }

  /** The outcome of the remaining iterations with one more registration in front. */
  function Prepend(r: Registration, o: LoadOutcome): (o': LoadOutcome)
    ensures o'.Loaded? == o.Loaded? && o'.registered == [r] + o.registered
    ensures o'.Loaded? ==> o'.result == o.result
  {
    match o
    case Loaded(rs, b) => Loaded([r] + rs, b)
    case IndexOutOfRange(rs) => IndexOutOfRange([r] + rs)
  }

  /**
    The registration loop from iteration i up to `count`: each iteration reads
    hModules[i] and registers it; an index past the array throws; after the
    last iteration the method returns false.
   */
  function RegisterLoop(info: ModuleHandle -> ModuleInfo, hModules: seq<ModuleHandle>, i: nat, count: nat)
    : (o: LoadOutcome)
    requires i <= count && i <= |hModules|
    ensures o.Loaded? <==> count <= |hModules|
    ensures o.Loaded? ==> !o.result
    ensures |o.registered| == (if count <= |hModules| then count else |hModules|) - i
    ensures forall j :: 0 <= j < |o.registered| ==> o.registered[j] == RegistrationOf(info, hModules[i + j])
    decreases count - i
  {
    if i == count then Loaded([], false)
    else if i == |hModules| then IndexOutOfRange([])
    else Prepend(RegistrationOf(info, hModules[i]), RegisterLoop(info, hModules, i + 1, count))
  }

  /**
    LoadModules of Functions.cs and CSharp/Functions.cs: the loop runs
    ArraySize times, ArraySize being the first count; every slot is
    registered, zero slots included when the list shrank, and it returns false.
   */
  function LoadModulesByArraySize(
    first: seq<ModuleHandle>, second: seq<ModuleHandle>, ptr: PointerSize,
    info: ModuleHandle -> ModuleInfo): (o: LoadOutcome)
    ensures o.Loaded? && !o.result
    ensures |o.registered| == |first|
    ensures forall i :: 0 <= i < |first| ==>
      o.registered[i] == RegistrationOf(info, if i < |second| then second[i] else 0)
  {
    EntryCountOfBytes(first, ptr);
    var arraySize := EntryCount(BytesNeeded(first, ptr), ptr);
    RegisterLoop(info, FilledArray(first, second), 0, arraySize)
  }

  /**
    LoadModules of PowerWalker.cs and Antivenin.cs: the loop runs
    NumberOfModules times, the count the second call reports, over an array
    sized from the first. If the list grew in between, indexing past the
    array throws after every slot has been registered.
   */
  function LoadModulesBySecondCount(
    first: seq<ModuleHandle>, second: seq<ModuleHandle>, ptr: PointerSize,
    info: ModuleHandle -> ModuleInfo): (o: LoadOutcome)
    ensures o.Loaded? <==> |second| <= |first|
    ensures o.Loaded? ==> !o.result && |o.registered| == |second|
    ensures o.IndexOutOfRange? ==> |o.registered| == |first|
    ensures forall i :: 0 <= i < |o.registered| ==> o.registered[i] == RegistrationOf(info, second[i])
  {
    EntryCountOfBytes(second, ptr);
    var numberOfModules := EntryCount(BytesNeeded(second, ptr), ptr);
    RegisterLoop(info, FilledArray(first, second), 0, numberOfModules)
  }
}
