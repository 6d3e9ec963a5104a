/**
  Architecture dispatch: from the host machine type and the IsWow64Process
  answer to the machine type every StackWalk64 call receives, the module
  filter, the kind of suspend/get-context accessor and the seeding rule.
  `Dispatch` is the StackTrace constructor's chain (duplicated in
  PowerWalker.GetStackTrace); `LegacyDispatch` is Antivenin.StackWalk's.
 */
module Architecture {
  import opened Bits
  import opened Wrappers
  import opened Natives

  /** Which suspend/get-context pair a branch calls. */
  datatype Accessor = Wow64Accessor | NativeAccessor

  /** Which CONTEXT layout a branch reads and how it seeds the frame. */
  datatype Seeding = SeedFromX86 | SeedFromAmd64 | SeedFromIa64

  /**
    What one branch does: the module filter it loads (None when it loads no
    modules), its accessor, its seeding rule and the ContextFlags it requests.
   */
  datatype Branch = Branch(modules: Option<ModuleFilter>, accessor: Accessor, seeding: Seeding, contextFlags: bv32)

  /**
    The dispatch decision: whether IsWow64Process was asked, the WOW64 flag,
    the machine type handed to StackWalk64 and the branch taken (None when
    no branch matches).
   */
  datatype Dispatched = Dispatched(wow64Queried: bool, wow64: bool, machine: uint32, branch: Option<Branch>)

  /** The four architectures the walker distinguishes: native x86, x86 under WOW64, x64 and IA64. */
  datatype Arch = X86 | X86Emulated | X64 | Ia64Class

  /** The branch the walker is meant to take for each architecture. */
  function BranchFor(a: Arch): Branch {
    match a
    case X86Emulated => Branch(Some(Bits32), Wow64Accessor, SeedFromX86, CONTEXT_X86_ALL)
    case X86 => Branch(Some(Bits32), NativeAccessor, SeedFromX86, CONTEXT_X86_ALL)
    case X64 => Branch(Some(Bits64), NativeAccessor, SeedFromAmd64, CONTEXT_AMD64_ALL)
    case Ia64Class => Branch(Some(Bits64), NativeAccessor, SeedFromIa64, CONTEXT_IA64_ALL)
  }

  /** The machine type StackWalk64 expects for each architecture. */
  function MachineFor(a: Arch): uint32 {
    match a
    case X86 | X86Emulated => I386
    case X64 => AMD64
    case Ia64Class => IA64
  }

  /**
    The StackTrace constructor's chain. IsWow64Process is asked only on an
    AMD64 or IA64 host; WOW64 rewrites the machine type to I386; the native
    I386, AMD64 and IA64 branches follow; any other host type takes no branch.
   */
  function Dispatch(host: uint32, isWow64Answer: bool): (d: Dispatched)
    ensures d.wow64Queried <==> host == AMD64 || host == IA64
    ensures d.wow64 <==> d.wow64Queried && isWow64Answer
    ensures d.machine == (if d.wow64 then I386 else host)
    ensures d.wow64 ==> d.branch == Some(BranchFor(X86Emulated))
    ensures !d.wow64 && host == I386 ==> d.branch == Some(BranchFor(X86))
    ensures !d.wow64 && host == AMD64 ==> d.branch == Some(BranchFor(X64))
    ensures !d.wow64 && host == IA64 ==> d.branch == Some(BranchFor(Ia64Class))
    ensures d.branch.None? <==> host != I386 && host != AMD64 && host != IA64
    ensures d.branch.Some? ==> d.branch.value.modules.Some?
  {
    var queried := host == AMD64 || host == IA64;
    var wow64 := queried && isWow64Answer;
    if wow64 then
      Dispatched(queried, wow64, I386,
        Some(Branch(Some(Bits32), Wow64Accessor, SeedFromX86, CONTEXT_X86_ALL)))
    else if host == I386 then
      Dispatched(queried, wow64, I386,
        Some(Branch(Some(Bits32), NativeAccessor, SeedFromX86, CONTEXT_X86_ALL)))
    else if host == AMD64 then
      Dispatched(queried, wow64, host,
        Some(Branch(Some(Bits64), NativeAccessor, SeedFromAmd64, CONTEXT_AMD64_ALL)))
    else if host == IA64 then
      Dispatched(queried, wow64, host,
        Some(Branch(Some(Bits64), NativeAccessor, SeedFromIa64, CONTEXT_IA64_ALL)))
    else
      Dispatched(queried, wow64, host, None)
  }

  /**
    Every branch the chain takes is the intended one for some architecture,
    and hands StackWalk64 that architecture's machine type: the chain never
    mixes the register layout of one architecture with the machine type of
    another.
   */
  lemma DispatchConsistent(host: uint32, isWow64Answer: bool)
    ensures var d := Dispatch(host, isWow64Answer);
      d.branch.Some? ==> exists a :: d.branch == Some(BranchFor(a)) && d.machine == MachineFor(a)
  {
    var d := Dispatch(host, isWow64Answer);
    if d.wow64 {
      assert d.branch == Some(BranchFor(X86Emulated)) && d.machine == MachineFor(X86Emulated);
    } else if host == I386 {
      assert d.branch == Some(BranchFor(X86)) && d.machine == MachineFor(X86);
    } else if host == AMD64 {
      assert d.branch == Some(BranchFor(X64)) && d.machine == MachineFor(X64);
    } else if host == IA64 {
      assert d.branch == Some(BranchFor(Ia64Class)) && d.machine == MachineFor(Ia64Class);
    }
  }

  /** The x86 seeding rule is chosen exactly when StackWalk64 is told I386. */
  lemma X86SeedingIffI386(host: uint32, isWow64Answer: bool)
    ensures var d := Dispatch(host, isWow64Answer);
      d.branch.Some? ==> (d.branch.value.seeding == SeedFromX86 <==> d.machine == I386)
  {
  }

  /**
    Antivenin.StackWalk's chain. IsWow64Process is always asked; the x86
    branch is taken when WOW64 holds or the host is I386 and always uses the
    WOW64 accessors; the machine type is never rewritten; no branch loads
    modules.
   */
  function LegacyDispatch(host: uint32, isWow64Answer: bool): (d: Dispatched)
    ensures d.wow64Queried && d.wow64 == isWow64Answer
    ensures d.machine == host
    ensures d.branch.Some? ==> d.branch.value.modules.None?
    ensures isWow64Answer || host == I386 ==>
      d.branch == Some(Branch(None, Wow64Accessor, SeedFromX86, CONTEXT_X86_ALL))
    ensures d.branch.Some? && d.branch.value.seeding == SeedFromX86 ==>
      d.branch.value.accessor == Wow64Accessor
    ensures !isWow64Answer && host == AMD64 ==>
      d.branch == Some(Branch(None, NativeAccessor, SeedFromAmd64, CONTEXT_AMD64_ALL))
    ensures !isWow64Answer && host == IA64 ==>
      d.branch == Some(Branch(None, NativeAccessor, SeedFromIa64, CONTEXT_IA64_ALL))
    ensures d.branch.None? <==> !isWow64Answer && host != I386 && host != AMD64 && host != IA64
  {
    if isWow64Answer || host == I386 then
      Dispatched(true, isWow64Answer, host,
        Some(Branch(None, Wow64Accessor, SeedFromX86, CONTEXT_X86_ALL)))
    else if host == AMD64 then
      Dispatched(true, isWow64Answer, host,
        Some(Branch(None, NativeAccessor, SeedFromAmd64, CONTEXT_AMD64_ALL)))
    else if host == IA64 then
      Dispatched(true, isWow64Answer, host,
        Some(Branch(None, NativeAccessor, SeedFromIa64, CONTEXT_IA64_ALL)))
    else
      Dispatched(true, isWow64Answer, host, None)
  }

  /**
    Where the two chains part: under WOW64 on an AMD64 host the canonical
    chain tells StackWalk64 I386 while the legacy chain passes AMD64 with an
    x86 register layout; and on a native I386 host the legacy chain uses the
    WOW64 accessors.
   */
  lemma LegacyDiffers()
    ensures Dispatch(AMD64, true).machine == I386
    ensures LegacyDispatch(AMD64, true).machine == AMD64
    ensures LegacyDispatch(AMD64, true).branch.value.seeding == SeedFromX86
    ensures Dispatch(I386, false).branch.value.accessor == NativeAccessor
    ensures LegacyDispatch(I386, false).branch.value.accessor == Wow64Accessor
  {
  }
}
