# PowerWalker stack walk, modelled in Dafny

PowerWalker walks the call stack of a thread in a live Windows process. The
`StackTrace(ProcessId, ThreadId)` constructor does the following in order:

- opens the process and the thread;
- initialises the dbghelp symbol handler;
- reads the host machine type;
- asks IsWow64Process on 64-bit hosts;
- picks one of four architecture branches;
- loads the matching module list, suspends the thread, reads its CONTEXT and seeds a STACKFRAME64 from the registers;
- calls StackWalk64 until the return address of the new frame is zero, recording one `StackCall` (program counter and return address) per step;
- cleans up: SymCleanup, free buffers, ResumeThread, close the thread handle, close the process handle.

`PowerWalker.GetStackTrace` is a near copy of the constructor. `Antivenin.StackWalk` is an older variant that performs a single step.

The model is a set of pure functions over immutable datatypes:

| module | file | models |
|---|---|---|
| `Bits` | bits.dfy | machine integer widths; .NET strings as their UTF-16 code units (`Utf16`), which is what `String.Length` and StringBuilder capacities count; `UlongToLong` as BitConverter's byte round trip; unchecked `(int)` casts |
| `Natives` | natives.dfy | ImageFileMachine, AddressMode, the ContextFlags compositions, ListModules, the FPO_DATA getters, W_STRING |
| `ProcessorType` | processor.dfy | `GetProcessorType`, which renders the number in decimal and reparses the text as hexadecimal |
| `Frames` | frames.dfy | STACKFRAME64, `InitializeStackFrame64`, the three register-to-frame seeding rules |
| `Calls` | calls.dfy | the `StackCall` record and its two lookups |
| `Unwinding` | unwind.dfy | the unwind loop over a StackWalk64 oracle |
| `ModuleLoader` | modules.dfy | the two `LoadModules` loops (array-size bound and second-count bound) |
| `Architecture` | dispatch.dfy | the canonical architecture dispatch and the legacy one |
| `Events` | events.dfy | the walk as a trace of operating-system calls, the suspend count, the cleanup |
| `Walk` | walk.dfy | the whole walk for both copies, plus the legacy single-step walk |

Some things are parameters of the model rather than computed by it:

- **Operating-system answers.** Everything the operating system answers is a field of `Walk.Target`:
  - the processor type;
  - the IsWow64Process answer;
  - the registers that (Wow64)GetThreadContext reads;
  - the module lists that the two EnumProcessModulesEx calls see;
  - the per-module information;
  - StackWalk64 itself, as a step oracle;
  - GetMappedFileNameW and SymGetSymFromAddr64, as the `Calls.Resolver` functions.
- **The walk's effects.** A walk produces a `Run`: an `Event` trace and an outcome. The trace records the calls that open, suspend, resume and close, SymInitialize with its InvadeProcess flag, IsWow64Process, LoadModules, GetThreadContext, each StackWalk64 call and the cleanup; the lookups a `StackCall` makes are not events (see "Left out"). The outcome is one of:
  - the recorded calls;
  - an exception;
  - "still walking", when the analysis fuel ran out.
- **Fuel.** The source loop has no bound, so fuel is only a device for the analysis. `WalkFuelIrrelevant` and `UnwindFuelIrrelevant` show that a finished walk does not depend on it. `CyclicStackNeverCompletes` shows that a stack which never yields a zero return address keeps the walk looping at every fuel.
- **Suspend count.** The target thread's suspend count follows SuspendThread/ResumeThread: ResumeThread on a count of zero leaves it at zero.

Notes on the code:

- The code has no try/finally. An exception leaves both handles open. The one exception the code itself can raise after the suspend is the `(IntPtr)` conversion at `StackCall.cs:18`, and when it fires the thread stays suspended. Runtime failures such as an OutOfMemoryException from AllocHGlobal (`StackTrace.cs:125`) or from growing the call list are not modelled.
- `(IntPtr)` of a `long` throws OverflowException in a 32-bit process when the value lies outside the int range (the .NET Framework conversion is checked). The model takes the pointer size from `Walk.Target` and assumes this checked conversion. In a 32-bit process, a program counter between 2^31 and 2^64 - 2^31 therefore ends the walk right after its StackWalk64 call.
- The thread is suspended for the whole walk, not for each step.
- The unwind loop has no frame cap.
- `StackTrace.cs:138` passes a fourth argument, the thread id, that the `StackCall` constructor at `StackCall.cs:14` does not declare. The model stores it as an optional `threadId`: `Some((int)ThreadId)` for the `StackTrace` class and `None` for the `GetStackTrace` copy.
- Three classes named `Functions` define LoadModules (`PowerWalker.cs:33`, `Functions.cs:31`, `CSharp/Functions.cs:30`), and which one `StackTrace.cs` binds to depends on the build. The model assumes the one in `CSharp/Functions.cs`, whose loop is bounded by the first count; `Functions.cs:31` has the same loop. `PowerWalker.GetStackTrace` calls its own copy, whose loop is bounded by the second count and which can index past its array.

## Model

| member | source | states |
|---|---|---|
| Bits.UlongToLong | PowerWalker.cs:27-31 | the byte round trip returns n for n < 2^63 and n - 2^64 otherwise, and the result is congruent to n modulo 2^64 (the copies at Functions.cs:25-29 and CSharp/Functions.cs:24-28 are identical) |
| Bits.UlongToLongRoundTrip | PowerWalker.cs:27-31 | reinterpreting the result back as unsigned gives the original n |
| Bits.LongToUlongRoundTrip | PowerWalker.cs:27-31 | every signed 64-bit value is the reinterpretation of exactly one unsigned value |
| Bits.LeRoundTrip | PowerWalker.cs:29-30 | reading back k little-endian bytes of n gives n modulo 256^k (what GetBytes then ToInt64 relies on) |
| Bits.ToInt64 | PowerWalker.cs:30 | the eight bytes read little-endian give the two's-complement value: congruent to their unsigned little-endian value modulo 2^64, and negative exactly when that value is at least 2^63 |
| Bits.ToInt32 | StackTrace.cs:138 | the unchecked `(int)ThreadId` cast lies in the int range and is congruent to the uint modulo 2^32 |
| Natives.AddressModeValue | Natives.cs:550-556 | the modes number 0 to 3 in declaration order: `_1616` is the default 0 that `new STACKFRAME64()` holds, `_1632` is 1, `Real` is 2 and `Flat` (AddrModeFlat) is 3 |
| Natives.AddressModeValuesDistinct | Natives.cs:550-556 | two modes have the same value exactly when they are the same mode |
| Natives.ArchTag | Natives.cs:444 | each CONTEXT family tag (0x10000, 0x100000, 0x80000) is a single bit |
| Natives.TagsDistinct | Natives.cs:444-463 | the three tags are pairwise disjoint and each lies within their union (the same tags at NativeImports.cs:243, 254, 264) |
| Natives.FlagValue | Natives.cs:441-474 | every ContextFlags member carries exactly its own family's tag among the three, and `None` is 0 (NativeImports.cs:240-275 composes the same values) |
| Natives.AllIncludesFull | Natives.cs:451-473 | for each of X86, AMD64 and IA64 the *All composite includes every bit of *Full (likewise NativeImports.cs:250-274) |
| Natives.Amd64FullOmitsSegments | Natives.cs:460-462 | AMD64ContextFull lacks the Segments bits that AMD64ContextAll has |
| Natives.FilterValue | Natives.cs:580-586 | the four ListModules values use only the two low bits; `Default` is exactly the value 0; `_32Bit` and `_64Bit` are single bits |
| Natives.FilterAllIsUnion | Natives.cs:580-586 | `All` is the union of the disjoint `_32Bit` and `_64Bit` (likewise NativeImports.cs:381-387) |
| Natives.CbProlog | Natives.cs:1062 | the getter yields a value in 0..255 |
| Natives.CbRegs | Natives.cs:1063 | the getter yields a value in 0..7 |
| Natives.FHasSEH | Natives.cs:1064 | the getter yields 0 or 1 |
| Natives.FUseBP | Natives.cs:1065 | the getter yields 0 or 1 |
| Natives.Reserved | Natives.cs:1066 | the getter yields 0 or 1 |
| Natives.CbFrame | Natives.cs:1067 | the getter yields a value in 0..3 |
| Natives.FpoDecode | Natives.cs:1062-1067 | all six getters together give in-range fields |
| Natives.FpoEncodeDecode | Natives.cs:1062-1067 | the masks partition all sixteen bits: re-packing the six fields gives raw_bytes back (likewise NativeImports.cs:874-879) |
| Natives.FpoDecodeEncode | Natives.cs:1062-1067 | packing in-range fields and reading them with the getters gives the fields back |
| Natives.NewWString | Natives.cs:1168-1173 | Length is twice `String.Length` (the UTF-16 unit count, so a surrogate pair counts two) truncated to 16 bits and always even; MaximumLength is Length + 2 truncated to 16 bits, exactly Length + 2 below 32767 units; the buffer is the one allocated |
| Natives.Dispose | Natives.cs:1175-1179 | Dispose zeroes the buffer pointer and keeps both counts |
| Natives.WStringWrapsAt32767 | Natives.cs:1170-1171 | at 32767 UTF-16 units the ushort cast makes MaximumLength wrap to 0, below Length 0xFFFE |
| Natives.WStringCountRoundTrip | Natives.cs:1168-1171 | reading the unit count back from Length gives the length modulo 32768: exact below 32768 units, 0 at exactly 32768 |
| ProcessorType.DecimalString | PowerWalker.cs:64 | `ToString()` yields a non-empty string of decimal digits with no leading zero |
| ProcessorType.DecimalStringRoundTrip | PowerWalker.cs:64 | reading the decimal rendering in base 10 gives the number back |
| ProcessorType.ParseHex | PowerWalker.cs:64 | on strings without a "0x" prefix or a leading '+', `Convert.ToUInt32(s, 16)` succeeds exactly when the string is non-empty hex digits whose value fits 32 bits, and then returns that value |
| ProcessorType.ReparseIsDecimalAsHex | PowerWalker.cs:64 | the string route equals the arithmetic reference: the number whose hex digits are the input's decimal digits |
| ProcessorType.DecimalAsHexDigits | PowerWalker.cs:64 | the lowest hex digit of the reparse is the lowest decimal digit, and the rest is the reparse of the rest |
| ProcessorType.DecimalAsHexInjective | PowerWalker.cs:64 | different processor types give different machine types |
| ProcessorType.DecimalAsHexBound | PowerWalker.cs:64 | n has at most k decimal digits exactly when its reparse has at most k hex digits |
| ProcessorType.GetProcessorType | PowerWalker.cs:60-66 | the conversion succeeds exactly for inputs below 10^8 and throws OverflowException otherwise; it yields the decimal-digits-as-hex value and never I386 (0x14c ends in hex digit c); Functions.cs:57-63 and CSharp/Functions.cs:56-62 are identical copies |
| ProcessorType.KnownProcessorTypes | PowerWalker.cs:64 | 8664 becomes 0x8664 (AMD64) and 200 becomes 0x200 (IA64) |
| ProcessorType.Amd64OnlyFrom8664 | PowerWalker.cs:64 | AMD64 comes out of exactly one processor type, 8664 |
| ProcessorType.Ia64OnlyFrom200 | PowerWalker.cs:64 | IA64 comes out of exactly one processor type, 200 |
| Frames.InitializeStackFrame64 | PowerWalker.cs:12-25 | PC, frame, stack and backing-store offsets are the four offset arguments in order; all five modes are `AddrMode`; the return offset keeps the 0 of a fresh frame (Functions.cs:10-23, CSharp/Functions.cs:9-22 and Antivenin.cs:20-34 are identical copies) |
| Frames.SeedX86 | StackTrace.cs:59-60 | the x86 frame is flat with PC = Eip, frame = Esp, stack = Ebp, backing store 0; the frame slot holds Esp, not the Ebp of the field comment at Natives.cs:1041 |
| Frames.SeedAmd64 | StackTrace.cs:101-102 | the AMD64 frame is flat with PC = Rip, frame = stack = Rsp, backing store 0 |
| Frames.SeedIa64 | StackTrace.cs:121-122 | the IA64 frame is flat with PC = StIIP, frame = IntSp, stack = RsBSP, and the backing store holds IntSp, not the RsBSP of the field comment at Natives.cs:1043 |
| Calls.NewStackCall | StackCall.cs:14-28 | the construction throws exactly in a 32-bit process when UlongToLong(pc) is outside the int range; otherwise Offset and ReturnAddress are the arguments as given, the file lookup is made at UlongToLong(pc) into a 256-unit buffer, and the symbol lookup is made at pc; the Symbol is always exactly 33 UTF-16 units, because `new string(PcSymbol.Name)` (StackCall.cs:24) keeps the whole fixed-size Name array of Natives.cs:1121-1122, NUL padding included |
| Calls.LookupsIgnoreReturnAddress | StackCall.cs:18-23 | whether the construction throws, and both lookups, depend on the program counter only |
| Unwinding.Unwind | StackTrace.cs:129-139 | a finished loop made fewer hops than its fuel, and every recorded hop has a nonzero return address |
| Unwinding.UnwindSound | StackTrace.cs:129-139 | a finished loop stopped at the first step whose return offset is 0 and recorded the (PC, return) of every earlier step, in step order |
| Unwinding.UnwindComplete | StackTrace.cs:129-139 | if step k is the first with a zero return offset, the loop finishes with exactly the first k steps' pairs |
| Unwinding.UnwindFuelIrrelevant | StackTrace.cs:129 | once finished, more fuel gives the same result: fuel is not a cap |
| Unwinding.UnwindStillRunning | StackTrace.cs:129-136 | a loop that runs out of fuel saw a nonzero return address at every step within the fuel |
| Unwinding.UnwindNoZero | StackTrace.cs:136 | while no step returns a zero offset the loop goes on |
| Unwinding.CyclicStackNeverStops | StackTrace.cs:129-136 | an oracle that never returns a zero offset keeps the loop running at every fuel |
| Unwinding.UnwindIgnoresStepResult | StackTrace.cs:132-134 | the loop reads only the new frame, never StackWalk64's boolean result |
| ModuleLoader.EntryCountOfBytes | PowerWalker.cs:43 | dividing the byte count of a module list by the pointer size gives its length back |
| ModuleLoader.Truncate | PowerWalker.cs:47-52 | a StringBuilder of capacity c holds a prefix of fewer than c UTF-16 units, and the whole string when it fits |
| ModuleLoader.RegistrationOf | PowerWalker.cs:46-54 | one SymLoadModuleEx call gets the module's file name cut to fewer than 256 units, its base name cut to fewer than 32 units, its base address, and `(int)SizeOfImage` as the unchecked 32-bit cast |
| ModuleLoader.FilledArray | PowerWalker.cs:38-42 | the array has the first count's length, its leading slots filled from the second list and the rest IntPtr.Zero |
| ModuleLoader.RegisterLoop | PowerWalker.cs:44-57 | the loop completes exactly when its bound fits the array and then returns false; it registers every slot up to the bound, or up to the array end before throwing |
| ModuleLoader.LoadModulesBySecondCount | PowerWalker.cs:33-58 | loads without throwing exactly when the list did not grow between the two calls, registering the second list's entries; otherwise it throws IndexOutOfRange after registering every slot (Antivenin.cs:138-165 has the same bound) |
| ModuleLoader.LoadModulesByArraySize | CSharp/Functions.cs:30-54 | never throws and returns false, registering one entry per slot of the first count, zero slots included (Functions.cs:31-55 is the same loop) |
| Architecture.Dispatch | StackTrace.cs:31-123 | IsWow64Process is asked exactly on AMD64 and IA64 hosts; WOW64 gives I386 with 32-bit modules and WOW64 accessors; I386 gives 32-bit modules and native accessors; AMD64 and IA64 give 64-bit modules; any other host takes no branch; the machine type is I386 under WOW64 and otherwise the host (PowerWalker.cs:108-199 is the same chain) |
| Architecture.DispatchConsistent | StackTrace.cs:40-123 | every branch taken is some architecture's intended branch together with that architecture's machine type |
| Architecture.X86SeedingIffI386 | StackTrace.cs:40-123 | the x86 register layout is used exactly when StackWalk64 is told I386 |
| Architecture.LegacyDispatch | Antivenin.cs:62-122 | IsWow64Process is always asked; the x86 branch is taken under WOW64 or on an I386 host and always uses the WOW64 accessors; the machine type is the host's unchanged; no branch loads modules |
| Architecture.LegacyDiffers | Antivenin.cs:73-128 | under WOW64 on AMD64 the legacy walk passes AMD64 with an x86 layout where the canonical one passes I386; on a native I386 host it uses the WOW64 accessors |
| Events.StepsMultiset | StackTrace.cs:132 | n loop iterations contribute n StackWalk64 events and no other event |
| Events.StepsKeepSuspendCount | StackTrace.cs:132 | StackWalk64 calls leave the suspend count alone |
| Events.CleanupResumesOnce | StackTrace.cs:144-149 | the cleanup lowers a positive suspend count by one and leaves zero at zero |
| Events.PairedTrace | StackTrace.cs:54 | a trace that suspends, walks and cleans up has one suspend and one resume around all steps, restores the count, and ends by closing the thread and then the process |
| Events.UnpairedResume | StackTrace.cs:147 | a trace that walks and cleans up without suspending lowers the count by one |
| Events.SuspendedMidWalk | StackTrace.cs:129-139 | a trace cut off inside the loop after a suspend holds one suspend, no resume and no close, and leaves the count one higher |
| Events.UnsuspendedMidWalk | StackTrace.cs:129-139 | a trace cut off inside the loop with no suspend holds no suspend, no resume and no close, and leaves the count alone |
| Events.OnlyMachineSteps | StackTrace.cs:132 | every StackWalk64 call of the trace carries the one machine type |
| Walk.FirstRejected | StackCall.cs:18 | finds the first hop whose program counter the `(IntPtr)` conversion rejects: every earlier hop is accepted, and None means every hop is |
| Walk.FirstRejectedAt | StackCall.cs:18 | a hop that is rejected after only accepted hops is the one FirstRejected finds |
| Walk.CallsOf | StackTrace.cs:138-141 | one StackCall per hop in hop order with the hop's PC and return address, the 33-unit symbol looked up at the PC, and the mapped file name looked up at UlongToLong(PC) cut to fewer than 256 units; the StackTrace class adds `(int)ThreadId`, the copy adds nothing |
| Walk.StackTrace | StackTrace.cs:12-150 | the constructor (and GetStackTrace, PowerWalker.cs:91-222); what it does is established by the lemmas below: WalkExceptions, ThrownBeforeLoop and MidLoopOverflow for its throws, LoopTrace and NormalPathPairing for its normal path, ExceptionLeaksHandles and LoopingWalkKeepsThreadSuspended for its handles and suspend count, CallsAreStepsBeforeZero for the calls it records |
| Walk.WalkExceptions | PowerWalker.cs:60-66 | the walk throws OverflowException right after SymInitialize for processor types of nine or more decimal digits; any other OverflowException needs a 32-bit process (StackCall.cs:18); only the GetStackTrace copy can throw IndexOutOfRange |
| Walk.MidLoopOverflow | StackCall.cs:18 | an OverflowException past GetProcessorType comes from the loop in a 32-bit process: the trace is the pre-loop calls and k + 1 StackWalk64 calls, where step k is the first whose program counter is rejected, all earlier steps returned a nonzero return address, and k is within the fuel |
| Walk.OverflowAtRejectedStep | StackTrace.cs:129-139 | conversely, when LoadModules does not throw and step k within the fuel is the first rejected one before any zero return address, the walk throws OverflowException right after the (k + 1)-th StackWalk64 call |
| Walk.FinishOverflow | StackTrace.cs:129-139 | a loop that throws does so at its first rejected step, with nothing after that step's StackWalk64 call |
| Walk.FinishRejects | StackTrace.cs:129-139 | a rejected step within the fuel makes the loop throw there |
| Walk.LoopTrace | StackTrace.cs:129-149 | a walk that did not throw makes its pre-loop calls, then the loop's StackWalk64 calls, then the whole cleanup if it finished |
| Walk.NormalPathPairing | StackTrace.cs:144-149 | on the normal path of a branch: exactly one suspend before every step, one resume after them, the count restored, and the thread handle closed and then the process handle, each once |
| Walk.FallThroughResumesUnsuspended | StackTrace.cs:40-149 | with no matching branch nothing suspends, yet the cleanup resumes, lowering someone else's count; the loop starts from the all-zero frame with no context |
| Walk.ExceptionLeaksHandles | StackTrace.cs:24-139 | a walk that throws has called OpenProcess and then OpenThread, closes neither handle and never resumes; it has suspended the thread once, and left its count one higher, exactly when a branch was taken and the throw is the loop's OverflowException, and otherwise it leaves the count alone |
| Walk.OverflowLeaks | StackCall.cs:18 | the loop's overflow leaves both handles open, and a branch's suspend in place |
| Walk.ThrownBeforeLoop | StackTrace.cs:24-45 | a walk that throws in GetProcessorType or in LoadModules stops before the suspend, after OpenProcess and OpenThread |
| Walk.LoopingWalkKeepsThreadSuspended | StackTrace.cs:129-147 | while the loop runs, the thread stays suspended with no resume and no close |
| Walk.CyclicStackNeverCompletes | StackTrace.cs:129-136 | on a stack that never yields a zero return address the walk never completes, at any fuel |
| Walk.CallsAreStepsBeforeZero | StackTrace.cs:129-141 | the recorded calls are the (PC, return) pairs of the steps before the first zero return address, innermost first, each with a nonzero return address, its PC's symbol, and its PC's mapped file name cut to fewer than 256 units |
| Walk.StepsUseDispatchedMachine | StackTrace.cs:132 | a finished walk calls StackWalk64 once more than it records calls, always with the dispatched machine type |
| Walk.I386OnlyThroughWow64 | PowerWalker.cs:64 | StackWalk64 receives I386 exactly under WOW64; the native I386 branch is never taken because GetProcessorType never yields I386 |
| Walk.AskedFirst | StackTrace.cs:23-37 | a walk past GetProcessorType begins with OpenProcess, OpenThread, SymInitialize with InvadeProcess false, and the IsWow64Process query when there is one, and no later event queries again |
| Walk.Wow64AskedOnlyOn64BitHosts | StackTrace.cs:31-37 | the walk calls IsWow64Process exactly when the host is AMD64 or IA64 |
| Walk.WalkFuelIrrelevant | StackTrace.cs:129 | a finished walk is the same with more fuel |
| Walk.LegacyLoadModules | Antivenin.cs:138-165 | the legacy loader reads the `All` list and throws exactly when the list grew; otherwise it returns false |
| Walk.LegacyStackWalk | Antivenin.cs:52-136 | the legacy walk; what it does is established by LegacyLeaksHandles, LegacySuspendBalance and LegacyIsFirstStep below |
| Walk.LegacyLeaksHandles | Antivenin.cs:52-136 | the legacy walk calls OpenProcess, OpenThread, SymInitialize with InvadeProcess true and IsWow64Process first, closes neither handle on any path, and throws exactly where GetProcessorType does |
| Walk.LegacySuspendBalance | Antivenin.cs:81-134 | a legacy branch suspends once and resumes once; a host no branch matches is resumed without a suspend; a throw comes before either |
| Walk.LegacyIsFirstStep | Antivenin.cs:127-135 | on a native AMD64 or IA64 host the legacy walk returns the frame after one StackWalk64 call, whose PC and return address are the canonical walk's first recorded call |

## Left out

- DllImport declarations, StructLayout layouts and the Marshal copying: marshalling ABI, not behaviour. A context or frame is a plain record here.
- StackWalk64, SymGetSymFromAddr64, GetMappedFileNameW, EnumProcessModulesEx, SymLoadModuleEx, IsWow64Process and GetNativeSystemInfo are foreign calls. They are inputs of the model (`Walk.Target`, `Calls.Resolver`), not specified.
- The per-iteration GetMappedFileNameW and SymGetSymFromAddr64 calls (`StackCall.cs:20,23`) are not events: they are pure lookups in `Calls.Resolver`, and they move neither the suspend count nor a handle.
- GetNativeSystemInfo (`PowerWalker.cs:62`) is not an event: only the processor type it yields enters the model, as `Walk.Target.processorType`.
- OpenProcess and OpenThread are assumed to succeed. The source does not check their results (`StackTrace.cs:24-25`), and a failed open does not change which calls follow.
- SymFunctionTableAccess64 and SymGetModuleBase64 are callbacks that only StackWalk64 uses, so they are folded into the step oracle.
- `Walk.Target`: the step oracle and the resolver are fixed functions of the target. They are assumed independent of the symbol handler's module table, which in reality depends on the InvadeProcess flag of SymInitialize and on what LoadModules registered, since the two callbacks and SymGetSymFromAddr64 read that table. They are also assumed independent of when the walk runs. Both copies of the walk and the legacy walk share one oracle, so `Walk.LegacyIsFirstStep` compares the legacy walk with the canonical one under this assumption: the same registers, the same moment, and the same answers from StackWalk64.
- Thread scheduling: only the suspend count and the call trace are kept.
- The CONTEXT record that StackWalk64 updates: it is part of the oracle's state, and only the registers the seeding reads are modelled.
- Floating-point and vector register areas: the seeding does not read them.
- `GetPEBAddress`, NtStatus, TEB/PEB, `SafeWin32Handle` and the PowerShell cmdlets: the walk does not use them.
- SymGetOptions and SymGetSearchPath in `Antivenin.StackWalk`: their results are never used, so the legacy walk's trace omits them.
- The symbol text is whatever SymGetSymFromAddr64 leaves in the IMAGEHLP_SYMBOL64 buffer that `GetSymbolFromAddress` fills, which is not part of this model. Only its fixed 33-unit length is modelled, because the StackCall constructor's `new string(PcSymbol.Name)` keeps the whole marshalled array (`Calls.SymbolName`).
- `ProcessorType.ParseHex`: does not accept the optional "0x" prefix or a leading '+', both of which Convert.ToUInt32 accepts in base 16. A decimal rendering never contains either.
- `Unwinding.Unwind`: the fuel parameter bounds only how much of an endless loop is examined. The source has no bound, and walks that run out of fuel are reported as still walking rather than cut off.
- Which step count is "normal": the real frame count depends on StackWalk64's behaviour on a real stack and is not modelled.
