/**
  The whole walk: the StackTrace(ProcessId, ThreadId) constructor, its
  duplicate PowerWalker.GetStackTrace, and the single-step legacy
  Antivenin.StackWalk. Everything the operating system answers is a field of
  `Target`; what the walk does is the trace of calls it makes plus its result.
 */
module Walk {
  import opened Bits
  import opened Wrappers
  import opened Natives
  import opened ProcessorType
  import opened Frames
  import opened Calls
  import opened Unwinding
  import opened ModuleLoader
  import opened Architecture
  import opened Events

  /** The two copies of the full walk: StackTrace.cs and PowerWalker.cs. */
  datatype Variant = StackTraceClass | GetStackTraceCopy

  /** The module lists the two EnumProcessModulesEx calls see. */
  datatype Snapshots = Snapshots(first: seq<ModuleHandle>, second: seq<ModuleHandle>)

  /** Everything the walk learns from the operating system about its target. */
  datatype Target = Target(
    processorType: uint32,                  // SYSTEM_INFO.dwProcessorType
    isWow64: bool,                          // the IsWow64Process answer
    x86: X86Registers,                      // what (Wow64)GetThreadContext reads
    amd64: Amd64Registers,
    ia64: Ia64Registers,
    modules: ModuleFilter -> Snapshots,     // module lists per filter
    pointerSize: PointerSize,
    moduleInfo: ModuleHandle -> ModuleInfo,
    step: StepOracle,                       // StackWalk64
    resolver: Resolver)                     // GetMappedFileNameW and SymGetSymFromAddr64

  /** The exceptions a walk can raise: none of them is caught. */
  datatype Exception = OverflowException | IndexOutOfRangeException

  /** A walk completes with its calls, throws, or is still looping when the fuel runs out. */
  datatype Outcome = Completed(calls: seq<StackCall>) | Threw(exception: Exception) | StillWalking

  datatype Run = Run(events: seq<Event>, outcome: Outcome)

  /** The first three calls of every walk; only the legacy walk asks SymInitialize to invade the process. */
  function Opened(pid: uint32, tid: uint32, invade: bool): seq<Event> {
    [OpenProcess(pid), OpenThread(tid), SymInitialize(invade)]
  }

  /** The host machine type, or None when GetProcessorType throws. */
  function HostOf(t: Target): Option<uint32> {
    GetProcessorType(t.processorType)
  }

  /** The CONTEXT record a branch reads. */
  function Capture(s: Seeding, t: Target): ContextRecord {
    match s
    case SeedFromX86 => X86Record(t.x86)
    case SeedFromAmd64 => Amd64Record(t.amd64)
    case SeedFromIa64 => Ia64Record(t.ia64)
  }

  /** The frame a captured context seeds; with no context the frame stays `new STACKFRAME64()`. */
  function SeedFrame(ctx: ContextRecord): StackFrame {
    match ctx
    case X86Record(r) => SeedX86(r)
    case Amd64Record(r) => SeedAmd64(r)
    case Ia64Record(r) => SeedIa64(r)
    case NoContext => EmptyFrame
  }

  /** The state the first StackWalk64 call receives. */
  function StartState(t: Target, d: Dispatched): WalkState {
    match d.branch
    case None => WalkState(EmptyFrame, NoContext)
    case Some(b) => var ctx := Capture(b.seeding, t); WalkState(SeedFrame(ctx), ctx)
  }

  /** The LoadModules copy each variant calls. */
  function Load(v: Variant, filter: ModuleFilter, t: Target): LoadOutcome {
    var snap := t.modules(filter);
    match v
    case StackTraceClass => LoadModulesByArraySize(snap.first, snap.second, t.pointerSize, t.moduleInfo)
    case GetStackTraceCopy => LoadModulesBySecondCount(snap.first, snap.second, t.pointerSize, t.moduleInfo)
  }

  /** The index of the first hop whose StackCall construction throws, if any. */
  function FirstRejected(ptr: PointerSize, hops: seq<Hop>): (k: Option<nat>)
    ensures k.Some? ==> k.value < |hops| && !PcConvertible(ptr, hops[k.value].pc)
    ensures k.Some? ==> forall j :: 0 <= j < k.value ==> PcConvertible(ptr, hops[j].pc)
    ensures k.None? ==> forall j :: 0 <= j < |hops| ==> PcConvertible(ptr, hops[j].pc)
    decreases |hops|
  {
    if |hops| == 0 then None
    else if !PcConvertible(ptr, hops[0].pc) then Some(0)
    else
      match FirstRejected(ptr, hops[1..])
      case None => None
      case Some(k) => Some(k + 1)
  }

  /**
    The recorded calls: one StackCall per hop, in hop order. The StackTrace
    class passes `(int)ThreadId` as a fourth argument; the duplicate does not.
   */
  function CallsOf(v: Variant, tid: uint32, ptr: PointerSize, res: Resolver, hops: seq<Hop>): (cs: seq<StackCall>)
    requires forall i :: 0 <= i < |hops| ==> PcConvertible(ptr, hops[i].pc)
    ensures |cs| == |hops|
    ensures forall i :: 0 <= i < |hops| ==>
      cs[i].offset == hops[i].pc && cs[i].returnAddress == hops[i].ret
      && cs[i].symbol == res.symbolName(hops[i].pc) && |cs[i].symbol| == SymbolNameLength
      && cs[i].symbolFile == Truncate(res.mappedFileName(UlongToLong(hops[i].pc)), 256)
    ensures forall i :: 0 <= i < |hops| ==>
      cs[i].threadId == (if v == StackTraceClass then Some(ToInt32(tid)) else None)
  {
    var threadId := if v == StackTraceClass then Some(ToInt32(tid)) else None;
    seq(|hops|, i requires 0 <= i < |hops| => NewStackCall(res, ptr, hops[i].pc, hops[i].ret, threadId).value)
  }

  /**
    The unwind loop and the cleanup after it. Each iteration calls StackWalk64
    and, unless the new return address is zero, constructs a StackCall; a
    construction that throws ends the walk right after its StackWalk64 call,
    with no cleanup.
   */
  function Finish(v: Variant, tid: uint32, t: Target, machine: uint32, before: seq<Event>, start: WalkState, fuel: nat)
    : Run
  {
    match Unwind(t.step, machine, start, fuel)
    case OutOfFuel =>
      (match FirstRejected(t.pointerSize, HopsUpTo(t.step, machine, start, fuel))
       case Some(k) => Run(before + Steps(machine, k + 1), Threw(OverflowException))
       case None => Run(before + Steps(machine, fuel), StillWalking))
    case Done(hops) =>
      match FirstRejected(t.pointerSize, hops)
      case Some(k) => Run(before + Steps(machine, k + 1), Threw(OverflowException))
      case None =>
        Run(before + Steps(machine, |hops| + 1) + Cleanup, Completed(CallsOf(v, tid, t.pointerSize, t.resolver, hops)))
  }

  /** The dispatch decision of a walk, or None when GetProcessorType throws. */
  function DispatchOf(t: Target): Option<Dispatched> {
    match HostOf(t)
    case None => None
    case Some(host) => Some(Dispatch(host, t.isWow64))
  }

  /** The handles opened, then the IsWow64Process query when the host is 64-bit. */
  function Asked(pid: uint32, tid: uint32, d: Dispatched): seq<Event> {
    Opened(pid, tid, false) + (if d.wow64Queried then [QueryWow64] else [])
  }

  /** The events of a branch up to its LoadModules call. */
  function Prepared(v: Variant, pid: uint32, tid: uint32, t: Target, d: Dispatched): seq<Event>
    requires d.branch.Some? && d.branch.value.modules.Some?
  {
    var filter := d.branch.value.modules.value;
    Asked(pid, tid, d) + [LoadModules(filter, Load(v, filter, t).registered)]
  }

  /** Everything before the first StackWalk64 call: a branch also suspends and reads the context. */
  function BeforeLoop(v: Variant, pid: uint32, tid: uint32, t: Target, d: Dispatched): seq<Event>
    requires d.branch.Some? ==> d.branch.value.modules.Some?
  {
    match d.branch
    case None => Asked(pid, tid, d)
    case Some(b) => Prepared(v, pid, tid, t, d) + [Suspend(b.accessor), GetContext(b.accessor)]
  }

  /**
    The StackTrace constructor (and GetStackTrace): open both handles,
    initialise the symbol handler, dispatch on the processor type, load
    modules, suspend, read the context and seed the frame in the branch taken,
    walk, then clean up. `fuel` bounds only how much of an endless loop is
    examined.
   */
  function StackTrace(v: Variant, pid: uint32, tid: uint32, t: Target, fuel: nat): Run {
    match DispatchOf(t)
    case None => Run(Opened(pid, tid, false), Threw(OverflowException))
    case Some(d) =>
      if d.branch.Some? && Load(v, d.branch.value.modules.value, t).IndexOutOfRange?
      then Run(Prepared(v, pid, tid, t, d), Threw(IndexOutOfRangeException))
      else Finish(v, tid, t, d.machine, BeforeLoop(v, pid, tid, t, d), StartState(t, d), fuel)
  }

  /**
    How a walk can end: GetProcessorType throws for a processor type of nine
    or more decimal digits, right after SymInitialize; any other
    OverflowException is the `(IntPtr)` conversion of a 32-bit process; only
    the duplicate's LoadModules can index past its array.
   */
  lemma WalkExceptions(v: Variant, pid: uint32, tid: uint32, t: Target, fuel: nat)
    ensures var r := StackTrace(v, pid, tid, t, fuel);
      && (t.processorType >= 100_000_000 ==> r == Run(Opened(pid, tid, false), Threw(OverflowException)))
      && (r.outcome == Threw(OverflowException) && t.processorType < 100_000_000 ==> t.pointerSize == 4)
      && (r.outcome == Threw(IndexOutOfRangeException) ==> v == GetStackTraceCopy)
  {
  }

  lemma PreparedQuiet(v: Variant, pid: uint32, tid: uint32, t: Target, d: Dispatched)
    requires d.branch.Some? && d.branch.value.modules.Some?
    ensures Quiet(Prepared(v, pid, tid, t, d))
  {
  }

  lemma BeforeLoopHasNoSteps(v: Variant, pid: uint32, tid: uint32, t: Target, d: Dispatched)
    requires d.branch.Some? ==> d.branch.value.modules.Some?
    ensures var pre := BeforeLoop(v, pid, tid, t, d);
      forall i :: 0 <= i < |pre| ==> !pre[i].StackWalk? && !pre[i].Resume?
  {
    if d.branch.Some? {
      PreparedQuiet(v, pid, tid, t, d);
    }
  }

  /** Every walk first opens the process and then the thread. */
  lemma BeforeLoopOpens(v: Variant, pid: uint32, tid: uint32, t: Target, d: Dispatched, rest: seq<Event>)
    requires d.branch.Some? ==> d.branch.value.modules.Some?
    ensures var es := BeforeLoop(v, pid, tid, t, d) + rest;
      |es| >= 2 && es[0] == OpenProcess(pid) && es[1] == OpenThread(tid)
  {
  }

  /** A walk that did not throw: what came before the loop, the loop's steps, and the cleanup if it ended. */
  lemma LoopTrace(v: Variant, pid: uint32, tid: uint32, t: Target, fuel: nat)
    requires DispatchOf(t).Some?
    requires !StackTrace(v, pid, tid, t, fuel).outcome.Threw?
    ensures var d := DispatchOf(t).value;
      var r := StackTrace(v, pid, tid, t, fuel);
      && (r.outcome.Completed? ==>
            r.events == BeforeLoop(v, pid, tid, t, d) + Steps(d.machine, |r.outcome.calls| + 1) + Cleanup)
      && (r.outcome.StillWalking? ==>
            r.events == BeforeLoop(v, pid, tid, t, d) + Steps(d.machine, fuel))
  {
    var d := DispatchOf(t).value;
    assert StackTrace(v, pid, tid, t, fuel)
      == Finish(v, tid, t, d.machine, BeforeLoop(v, pid, tid, t, d), StartState(t, d), fuel);
    FinishTrace(v, tid, t, d.machine, BeforeLoop(v, pid, tid, t, d), StartState(t, d), fuel);
  }

  lemma FinishTrace(v: Variant, tid: uint32, t: Target, machine: uint32, before: seq<Event>, start: WalkState, fuel: nat)
    requires !Finish(v, tid, t, machine, before, start, fuel).outcome.Threw?
    ensures var r := Finish(v, tid, t, machine, before, start, fuel);
      && (r.outcome.Completed? ==> r.events == before + Steps(machine, |r.outcome.calls| + 1) + Cleanup)
      && (r.outcome.StillWalking? ==> r.events == before + Steps(machine, fuel))
  {
  }

  /**
    The normal path of a branch: exactly one suspend before every StackWalk64
    call and exactly one resume after them, so the target's suspend count is
    what it was; then the thread handle is closed, then the process handle,
    each exactly once.
   */
  lemma NormalPathPairing(v: Variant, pid: uint32, tid: uint32, t: Target, fuel: nat, c: nat)
    requires DispatchOf(t).Some? && DispatchOf(t).value.branch.Some?
    requires StackTrace(v, pid, tid, t, fuel).outcome.Completed?
    ensures var es := StackTrace(v, pid, tid, t, fuel).events;
      && Suspends(es) == 1 && Resumes(es) == 1
      && StepsWhileSuspended(es)
      && SuspendCountAfter(c, es) == c
      && multiset(es)[CloseThread] == 1 && multiset(es)[CloseProcess] == 1
      && |es| >= 2 && es[|es| - 2] == CloseThread && es[|es| - 1] == CloseProcess
  {
    var d := DispatchOf(t).value;
    var r := StackTrace(v, pid, tid, t, fuel);
    var pre := Prepared(v, pid, tid, t, d);
    var a := d.branch.value.accessor;
    LoopTrace(v, pid, tid, t, fuel);
    assert r.events == pre + [Suspend(a), GetContext(a)] + Steps(d.machine, |r.outcome.calls| + 1) + Cleanup;
    PreparedQuiet(v, pid, tid, t, d);
    PairedTrace(c, pre, a, d.machine, |r.outcome.calls| + 1);
  }

  /**
    The fall-through case (a host type no branch matches): nothing suspends
    the thread, yet the cleanup resumes it, lowering a suspend count someone
    else holds; StackWalk64 starts from the all-zero frame with no context.
   */
  lemma FallThroughResumesUnsuspended(v: Variant, pid: uint32, tid: uint32, t: Target, fuel: nat, c: nat)
    requires DispatchOf(t).Some? && DispatchOf(t).value.branch.None?
    requires StackTrace(v, pid, tid, t, fuel).outcome.Completed?
    ensures var es := StackTrace(v, pid, tid, t, fuel).events;
      && Suspends(es) == 0 && Resumes(es) == 1
      && SuspendCountAfter(c, es) == (if c == 0 then 0 else c - 1)
    ensures StartState(t, DispatchOf(t).value) == WalkState(EmptyFrame, NoContext)
  {
    var d := DispatchOf(t).value;
    LoopTrace(v, pid, tid, t, fuel);
    var n := |StackTrace(v, pid, tid, t, fuel).outcome.calls| + 1;
    UnpairedResume(c, Asked(pid, tid, d), d.machine, n);
  }

  /**
    No try/finally: when the walk throws, it has called OpenProcess and
    OpenThread and closes neither handle, and it never reaches the resume. A
    thread suspended by a branch stays suspended exactly when the throw is the
    `(IntPtr)` overflow inside the loop.
   */
  lemma ExceptionLeaksHandles(v: Variant, pid: uint32, tid: uint32, t: Target, fuel: nat, c: nat)
    requires StackTrace(v, pid, tid, t, fuel).outcome.Threw?
    ensures var r := StackTrace(v, pid, tid, t, fuel);
      var es := r.events;
      var leftSuspended := HostOf(t).Some? && DispatchOf(t).value.branch.Some? && r.outcome == Threw(OverflowException);
      && |es| >= 2 && es[0] == OpenProcess(pid) && es[1] == OpenThread(tid)
      && multiset(es)[CloseThread] == 0 && multiset(es)[CloseProcess] == 0
      && Resumes(es) == 0
      && Suspends(es) == (if leftSuspended then 1 else 0)
      && SuspendCountAfter(c, es) == (if leftSuspended then c + 1 else c)
  {
    var r := StackTrace(v, pid, tid, t, fuel);
    if HostOf(t).Some? && r.outcome == Threw(OverflowException) {
      OverflowLeaks(v, pid, tid, t, fuel, c);
    } else {
      EarlyThrowLeaks(v, pid, tid, t, fuel, c, r.events);
    }
  }

  /** A throw before the loop leaves the handles open and the count alone. */
  lemma EarlyThrowLeaks(v: Variant, pid: uint32, tid: uint32, t: Target, fuel: nat, c: nat, es: seq<Event>)
    requires StackTrace(v, pid, tid, t, fuel).outcome.Threw?
    requires HostOf(t).None? || StackTrace(v, pid, tid, t, fuel).outcome == Threw(IndexOutOfRangeException)
    requires es == StackTrace(v, pid, tid, t, fuel).events
    ensures && |es| >= 2 && es[0] == OpenProcess(pid) && es[1] == OpenThread(tid)
      && multiset(es)[CloseThread] == 0 && multiset(es)[CloseProcess] == 0
      && Resumes(es) == 0 && Suspends(es) == 0 && SuspendCountAfter(c, es) == c
  {
    ThrownBeforeLoop(v, pid, tid, t, fuel);
    QuietTrace(c, es);
  }

  /** The loop's overflow: the handles stay open and a branch's suspend stays in place. */
  lemma OverflowLeaks(v: Variant, pid: uint32, tid: uint32, t: Target, fuel: nat, c: nat)
    requires HostOf(t).Some?
    requires StackTrace(v, pid, tid, t, fuel).outcome == Threw(OverflowException)
    ensures var es := StackTrace(v, pid, tid, t, fuel).events;
      var suspended := DispatchOf(t).value.branch.Some?;
      && |es| >= 2 && es[0] == OpenProcess(pid) && es[1] == OpenThread(tid)
      && multiset(es)[CloseThread] == 0 && multiset(es)[CloseProcess] == 0
      && Resumes(es) == 0
      && Suspends(es) == (if suspended then 1 else 0)
      && SuspendCountAfter(c, es) == (if suspended then c + 1 else c)
  {
    var d := DispatchOf(t).value;
    var es := StackTrace(v, pid, tid, t, fuel).events;
    var k := MidLoopOverflow(v, pid, tid, t, fuel);
    BeforeLoopOpens(v, pid, tid, t, d, Steps(d.machine, k + 1));
    if d.branch.Some? {
      BranchMidLoop(v, pid, tid, t, d, k + 1, c, es);
    } else {
      BareMidLoop(v, pid, tid, t, d, k + 1, c, es);
    }
  }

  /** A branch cut off inside its loop has closed nothing, resumed nothing, and left its suspend in place. */
  lemma BranchMidLoop(v: Variant, pid: uint32, tid: uint32, t: Target, d: Dispatched, n: nat, c: nat, es: seq<Event>)
    requires d.branch.Some? && d.branch.value.modules.Some?
    requires es == BeforeLoop(v, pid, tid, t, d) + Steps(d.machine, n)
    ensures && multiset(es)[CloseThread] == 0 && multiset(es)[CloseProcess] == 0
      && Resumes(es) == 0 && Suspends(es) == 1 && SuspendCountAfter(c, es) == c + 1
  {
    PreparedQuiet(v, pid, tid, t, d);
    SuspendedMidWalk(c, Prepared(v, pid, tid, t, d), d.branch.value.accessor, d.machine, n);
  }

  /** The neither-architecture loop cut off inside has suspended, resumed and closed nothing. */
  lemma BareMidLoop(v: Variant, pid: uint32, tid: uint32, t: Target, d: Dispatched, n: nat, c: nat, es: seq<Event>)
    requires d.branch.None?
    requires es == BeforeLoop(v, pid, tid, t, d) + Steps(d.machine, n)
    ensures && multiset(es)[CloseThread] == 0 && multiset(es)[CloseProcess] == 0
      && Resumes(es) == 0 && Suspends(es) == 0 && SuspendCountAfter(c, es) == c
  {
    assert Quiet(Asked(pid, tid, d));
    UnsuspendedMidWalk(c, Asked(pid, tid, d), d.machine, n);
  }

  /**
    A walk that throws in GetProcessorType or in LoadModules stops before the
    suspend: its trace is quiet.
   */
  lemma ThrownBeforeLoop(v: Variant, pid: uint32, tid: uint32, t: Target, fuel: nat)
    requires StackTrace(v, pid, tid, t, fuel).outcome.Threw?
    requires HostOf(t).None? || StackTrace(v, pid, tid, t, fuel).outcome == Threw(IndexOutOfRangeException)
    ensures var es := StackTrace(v, pid, tid, t, fuel).events;
      && Quiet(es) && |es| >= 2 && es[0] == OpenProcess(pid) && es[1] == OpenThread(tid)
  {
    if HostOf(t).Some? {
      var tail := LoadThrowTail(v, pid, tid, t, fuel);
      PreparedQuiet(v, pid, tid, t, DispatchOf(t).value);
    }
  }

  /**
    The reference for an overflow inside the loop: the first k + 1 StackWalk64
    calls all return a nonzero return address, the first k of them a program
    counter `(IntPtr)` accepts, and the (k + 1)-th one it rejects.
   */
  predicate RejectedStep(step: StepOracle, ptr: PointerSize, machine: uint32, s0: WalkState, k: nat) {
    && (forall j: nat :: j <= k ==> ReturnOf(Stepped(step, machine, s0, j)) != 0)
    && (forall j: nat :: j < k ==> PcConvertible(ptr, Stepped(step, machine, s0, j).frame.addrPC.offset))
    && !PcConvertible(ptr, Stepped(step, machine, s0, k).frame.addrPC.offset)
  }

  /** The first rejected hop is determined by the hops before it. */
  lemma FirstRejectedAt(ptr: PointerSize, hops: seq<Hop>, k: nat)
    requires k < |hops| && !PcConvertible(ptr, hops[k].pc)
    requires forall j :: 0 <= j < k ==> PcConvertible(ptr, hops[j].pc)
    ensures FirstRejected(ptr, hops) == Some(k)
  {
  }

  /** The hops the loop examined within its fuel: the reference hops, each with a nonzero return. */
  lemma ExaminedHops(t: Target, machine: uint32, start: WalkState, fuel: nat) returns (hops: seq<Hop>)
    ensures |hops| <= fuel && hops == HopsUpTo(t.step, machine, start, |hops|)
    ensures forall j: nat :: j < |hops| ==> ReturnOf(Stepped(t.step, machine, start, j)) != 0
    ensures Unwind(t.step, machine, start, fuel).Done? ==>
      hops == Unwind(t.step, machine, start, fuel).hops
      && ReturnOf(Stepped(t.step, machine, start, |hops|)) == 0
    ensures Unwind(t.step, machine, start, fuel).OutOfFuel? ==> |hops| == fuel
  {
    match Unwind(t.step, machine, start, fuel) {
      case Done(h) =>
        UnwindSound(t.step, machine, start, fuel);
        hops := h;
      case OutOfFuel =>
        UnwindStillRunning(t.step, machine, start, fuel);
        hops := HopsUpTo(t.step, machine, start, fuel);
    }
  }

  /** A loop that throws does so at its first rejected step, right after that step's StackWalk64 call. */
  lemma FinishOverflow(v: Variant, tid: uint32, t: Target, machine: uint32, before: seq<Event>, start: WalkState, fuel: nat)
    returns (k: nat)
    requires Finish(v, tid, t, machine, before, start, fuel).outcome.Threw?
    ensures Finish(v, tid, t, machine, before, start, fuel) == Run(before + Steps(machine, k + 1), Threw(OverflowException))
    ensures k < fuel && RejectedStep(t.step, t.pointerSize, machine, start, k)
  {
    var hops := ExaminedHops(t, machine, start, fuel);
    k := FirstRejected(t.pointerSize, hops).value;
    forall j: nat | j < k
      ensures PcConvertible(t.pointerSize, Stepped(t.step, machine, start, j).frame.addrPC.offset)
    {
      assert hops[j] == HopOf(Stepped(t.step, machine, start, j));
    }
    assert hops[k] == HopOf(Stepped(t.step, machine, start, k));
  }

  /** Conversely, a rejected step within the fuel makes the loop throw there. */
  lemma FinishRejects(v: Variant, tid: uint32, t: Target, machine: uint32, before: seq<Event>, start: WalkState, fuel: nat, k: nat)
    requires k < fuel && RejectedStep(t.step, t.pointerSize, machine, start, k)
    ensures Finish(v, tid, t, machine, before, start, fuel) == Run(before + Steps(machine, k + 1), Threw(OverflowException))
  {
    var hops := ExaminedHops(t, machine, start, fuel);
    if |hops| <= k {
      assert false;
    }
    forall j | 0 <= j < k
      ensures PcConvertible(t.pointerSize, hops[j].pc)
    {
      assert hops[j] == HopOf(Stepped(t.step, machine, start, j));
    }
    assert hops[k] == HopOf(Stepped(t.step, machine, start, k));
    FirstRejectedAt(t.pointerSize, hops, k);
  }

  /**
    An OverflowException after GetProcessorType comes from the loop: the walk
    made k + 1 StackWalk64 calls after its preparation, the last of them
    yielding the first program counter a 32-bit process cannot convert.
   */
  lemma MidLoopOverflow(v: Variant, pid: uint32, tid: uint32, t: Target, fuel: nat) returns (k: nat)
    requires HostOf(t).Some?
    requires StackTrace(v, pid, tid, t, fuel).outcome == Threw(OverflowException)
    ensures var d := DispatchOf(t).value;
      && StackTrace(v, pid, tid, t, fuel).events == BeforeLoop(v, pid, tid, t, d) + Steps(d.machine, k + 1)
      && k < fuel && t.pointerSize == 4
      && RejectedStep(t.step, t.pointerSize, d.machine, StartState(t, d), k)
  {
    var d := DispatchOf(t).value;
    assert StackTrace(v, pid, tid, t, fuel)
      == Finish(v, tid, t, d.machine, BeforeLoop(v, pid, tid, t, d), StartState(t, d), fuel);
    k := FinishOverflow(v, tid, t, d.machine, BeforeLoop(v, pid, tid, t, d), StartState(t, d), fuel);
  }

  /**
    The converse: a walk whose LoadModules succeeds and whose k-th step is
    rejected within the fuel throws OverflowException right after that step.
   */
  lemma OverflowAtRejectedStep(v: Variant, pid: uint32, tid: uint32, t: Target, fuel: nat, k: nat)
    requires HostOf(t).Some?
    requires DispatchOf(t).value.branch.Some? ==>
      Load(v, DispatchOf(t).value.branch.value.modules.value, t).Loaded?
    requires k < fuel
    requires RejectedStep(t.step, t.pointerSize, DispatchOf(t).value.machine, StartState(t, DispatchOf(t).value), k)
    ensures var d := DispatchOf(t).value;
      StackTrace(v, pid, tid, t, fuel) == Run(BeforeLoop(v, pid, tid, t, d) + Steps(d.machine, k + 1), Threw(OverflowException))
  {
    var d := DispatchOf(t).value;
    FinishRejects(v, tid, t, d.machine, BeforeLoop(v, pid, tid, t, d), StartState(t, d), fuel, k);
  }

  /**
    A walk whose loop has not reached a zero return address holds the thread
    suspended: the resume and both closes come only after the loop.
   */
  lemma LoopingWalkKeepsThreadSuspended(v: Variant, pid: uint32, tid: uint32, t: Target, fuel: nat, c: nat)
    requires DispatchOf(t).Some? && DispatchOf(t).value.branch.Some?
    requires StackTrace(v, pid, tid, t, fuel).outcome == StillWalking
    ensures var es := StackTrace(v, pid, tid, t, fuel).events;
      && Suspends(es) == 1 && Resumes(es) == 0
      && multiset(es)[CloseThread] == 0 && multiset(es)[CloseProcess] == 0
      && SuspendCountAfter(c, es) == c + 1
  {
    var d := DispatchOf(t).value;
    LoopTrace(v, pid, tid, t, fuel);
    PreparedQuiet(v, pid, tid, t, d);
    SuspendedMidWalk(c, Prepared(v, pid, tid, t, d), d.branch.value.accessor, d.machine, fuel);
  }

  /**
    On a corrupt, cyclic stack (StackWalk64 never yields a zero return
    address) a walk that got past LoadModules never completes, whatever the
    fuel: there is no iteration bound.
   */
  lemma CyclicStackNeverCompletes(v: Variant, pid: uint32, tid: uint32, t: Target, fuel: nat)
    requires DispatchOf(t).Some?
    requires forall s: WalkState :: ReturnOf(t.step(DispatchOf(t).value.machine, s).next) != 0
    requires !StackTrace(v, pid, tid, t, fuel).outcome.Threw?
    ensures StackTrace(v, pid, tid, t, fuel).outcome == StillWalking
  {
    var d := DispatchOf(t).value;
    CyclicStackNeverStops(t.step, d.machine, StartState(t, d), fuel);
  }

  /**
    The recorded calls are the unwind's hops: the loop stopped at the first
    step with a zero return address and recorded one call per earlier step in
    step order (innermost first), each with a nonzero return address.
   */
  lemma CallsAreStepsBeforeZero(v: Variant, pid: uint32, tid: uint32, t: Target, fuel: nat)
    requires DispatchOf(t).Some?
    requires StackTrace(v, pid, tid, t, fuel).outcome.Completed?
    ensures var d := DispatchOf(t).value;
      var s0 := StartState(t, d);
      var cs := StackTrace(v, pid, tid, t, fuel).outcome.calls;
      && FirstZero(t.step, d.machine, s0, |cs|)
      && (forall i :: 0 <= i < |cs| ==>
            && cs[i].offset == Stepped(t.step, d.machine, s0, i).frame.addrPC.offset
            && cs[i].returnAddress == Stepped(t.step, d.machine, s0, i).frame.addrReturn.offset
            && cs[i].returnAddress != 0
            && cs[i].symbol == t.resolver.symbolName(cs[i].offset)
            && cs[i].symbolFile == Truncate(t.resolver.mappedFileName(UlongToLong(cs[i].offset)), 256))
  {
    var d := DispatchOf(t).value;
    UnwindSound(t.step, d.machine, StartState(t, d), fuel);
  }

  /**
    A completed walk calls StackWalk64 once more than it records calls (the
    last call yields the zero return address), always with the dispatched
    machine type.
   */
  lemma StepsUseDispatchedMachine(v: Variant, pid: uint32, tid: uint32, t: Target, fuel: nat)
    requires DispatchOf(t).Some?
    requires StackTrace(v, pid, tid, t, fuel).outcome.Completed?
    ensures var d := DispatchOf(t).value;
      var r := StackTrace(v, pid, tid, t, fuel);
      && multiset(r.events)[StackWalk(d.machine)] == |r.outcome.calls| + 1
      && (forall i :: 0 <= i < |r.events| && r.events[i].StackWalk? ==> r.events[i].machine == d.machine)
  {
    var d := DispatchOf(t).value;
    var r := StackTrace(v, pid, tid, t, fuel);
    var pre := BeforeLoop(v, pid, tid, t, d);
    var n := |r.outcome.calls| + 1;
    LoopTrace(v, pid, tid, t, fuel);
    assert r.events == pre + Steps(d.machine, n) + Cleanup;
    BeforeLoopHasNoSteps(v, pid, tid, t, d);
    OnlyMachineSteps(pre, d.machine, n);
  }

  /**
    The machine type StackWalk64 receives is I386 exactly under WOW64:
    GetProcessorType never yields I386, so the native I386 branch is never
    taken and the WOW64 rewrite is the only way to I386.
   */
  lemma I386OnlyThroughWow64(t: Target)
    requires DispatchOf(t).Some?
    ensures var d := DispatchOf(t).value;
      && (d.machine == I386 <==> d.wow64)
      && d.branch != Some(BranchFor(X86))
  {
  }

  /** IsWow64Process is asked exactly when the host machine type is AMD64 or IA64. */
  lemma Wow64AskedOnlyOn64BitHosts(v: Variant, pid: uint32, tid: uint32, t: Target, fuel: nat)
    requires HostOf(t).Some?
    ensures QueryWow64 in StackTrace(v, pid, tid, t, fuel).events <==>
      HostOf(t).value == AMD64 || HostOf(t).value == IA64
  {
    var r := StackTrace(v, pid, tid, t, fuel);
    var a := Asked(pid, tid, DispatchOf(t).value);
    var tail := AskedFirst(v, pid, tid, t, fuel);
    assert QueryWow64 in r.events <==> QueryWow64 in a;
  }

  /** Every walk that gets past GetProcessorType starts with its handles and the WOW64 query; nothing later queries. */
  lemma AskedFirst(v: Variant, pid: uint32, tid: uint32, t: Target, fuel: nat) returns (tail: seq<Event>)
    requires DispatchOf(t).Some?
    ensures StackTrace(v, pid, tid, t, fuel).events == Asked(pid, tid, DispatchOf(t).value) + tail
    ensures QueryWow64 !in tail
  {
    var r := StackTrace(v, pid, tid, t, fuel);
    if r.outcome == Threw(IndexOutOfRangeException) {
      tail := LoadThrowTail(v, pid, tid, t, fuel);
    } else if r.outcome == Threw(OverflowException) {
      tail := OverflowTail(v, pid, tid, t, fuel);
    } else {
      tail := LoopAfter(v, pid, tid, t, fuel);
    }
  }

  /** A walk that did not throw: after the WOW64 query come the branch's preparation, the steps and the cleanup. */
  lemma LoopAfter(v: Variant, pid: uint32, tid: uint32, t: Target, fuel: nat) returns (tail: seq<Event>)
    requires DispatchOf(t).Some?
    requires !StackTrace(v, pid, tid, t, fuel).outcome.Threw?
    ensures StackTrace(v, pid, tid, t, fuel).events == Asked(pid, tid, DispatchOf(t).value) + tail
    ensures QueryWow64 !in tail
  {
    var d := DispatchOf(t).value;
    var mid := AskedBeforeLoop(v, pid, tid, t, d);
    var steps := StepsAfter(v, pid, tid, t, fuel);
    Regroup(BeforeLoop(v, pid, tid, t, d), Asked(pid, tid, d), mid, steps);
    NotInEither(QueryWow64, mid, steps);
    tail := mid + steps;
  }

  /** A walk that did not throw ends in StackWalk64 calls and, if it completed, the cleanup. */
  lemma StepsAfter(v: Variant, pid: uint32, tid: uint32, t: Target, fuel: nat) returns (steps: seq<Event>)
    requires DispatchOf(t).Some?
    requires !StackTrace(v, pid, tid, t, fuel).outcome.Threw?
    ensures StackTrace(v, pid, tid, t, fuel).events == BeforeLoop(v, pid, tid, t, DispatchOf(t).value) + steps
    ensures QueryWow64 !in steps
  {
    var d := DispatchOf(t).value;
    var before := BeforeLoop(v, pid, tid, t, d);
    assert StackTrace(v, pid, tid, t, fuel) == Finish(v, tid, t, d.machine, before, StartState(t, d), fuel);
    steps := FinishSteps(v, tid, t, d.machine, before, StartState(t, d), fuel);
  }

  lemma FinishSteps(v: Variant, tid: uint32, t: Target, machine: uint32, before: seq<Event>, start: WalkState, fuel: nat)
    returns (steps: seq<Event>)
    requires !Finish(v, tid, t, machine, before, start, fuel).outcome.Threw?
    ensures Finish(v, tid, t, machine, before, start, fuel).events == before + steps
    ensures QueryWow64 !in steps
  {
    var r := Finish(v, tid, t, machine, before, start, fuel);
    if r.outcome.Completed? {
      var n := |r.outcome.calls| + 1;
      steps := Steps(machine, n) + Cleanup;
      assert r.events == before + Steps(machine, n) + Cleanup;
      NotInEither(QueryWow64, Steps(machine, n), Cleanup);
    } else {
      steps := Steps(machine, fuel);
    }
  }

  /** A LoadModules throw leaves only that call after the WOW64 query. */
  lemma LoadThrowTail(v: Variant, pid: uint32, tid: uint32, t: Target, fuel: nat) returns (tail: seq<Event>)
    requires DispatchOf(t).Some?
    requires StackTrace(v, pid, tid, t, fuel).outcome == Threw(IndexOutOfRangeException)
    ensures StackTrace(v, pid, tid, t, fuel).events == Asked(pid, tid, DispatchOf(t).value) + tail
    ensures |tail| == 1 && tail[0].LoadModules?
  {
    var d := DispatchOf(t).value;
    if !(d.branch.Some? && Load(v, d.branch.value.modules.value, t).IndexOutOfRange?) {
      var k := MidLoopOverflow(v, pid, tid, t, fuel);
      assert false;
    }
    var filter := d.branch.value.modules.value;
    tail := [LoadModules(filter, Load(v, filter, t).registered)];
  }

  /** A loop overflow leaves the preparation and the steps after the WOW64 query. */
  lemma OverflowTail(v: Variant, pid: uint32, tid: uint32, t: Target, fuel: nat) returns (tail: seq<Event>)
    requires DispatchOf(t).Some?
    requires StackTrace(v, pid, tid, t, fuel).outcome == Threw(OverflowException)
    ensures StackTrace(v, pid, tid, t, fuel).events == Asked(pid, tid, DispatchOf(t).value) + tail
    ensures QueryWow64 !in tail
  {
    var d := DispatchOf(t).value;
    var k := MidLoopOverflow(v, pid, tid, t, fuel);
    var mid := AskedBeforeLoop(v, pid, tid, t, d);
    Regroup(BeforeLoop(v, pid, tid, t, d), Asked(pid, tid, d), mid, Steps(d.machine, k + 1));
    NotInEither(QueryWow64, mid, Steps(d.machine, k + 1));
    tail := mid + Steps(d.machine, k + 1);
  }


  /** What a walk does between the WOW64 query and its first StackWalk64 call asks nothing more. */
  lemma AskedBeforeLoop(v: Variant, pid: uint32, tid: uint32, t: Target, d: Dispatched) returns (mid: seq<Event>)
    requires d.branch.Some? ==> d.branch.value.modules.Some?
    ensures BeforeLoop(v, pid, tid, t, d) == Asked(pid, tid, d) + mid
    ensures QueryWow64 !in mid
  {
    mid := [];
    if d.branch.Some? {
      var filter := d.branch.value.modules.value;
      var b := d.branch.value;
      mid := [LoadModules(filter, Load(v, filter, t).registered), Suspend(b.accessor), GetContext(b.accessor)];
    }
  }

  /** A completed walk is the same with any larger fuel: fuel is not a cap of the source. */
  lemma WalkFuelIrrelevant(v: Variant, pid: uint32, tid: uint32, t: Target, fuel: nat, more: nat)
    requires StackTrace(v, pid, tid, t, fuel).outcome.Completed?
    requires more >= fuel
    ensures StackTrace(v, pid, tid, t, more) == StackTrace(v, pid, tid, t, fuel)
  {
    var d := DispatchOf(t).value;
    var before := BeforeLoop(v, pid, tid, t, d);
    assert StackTrace(v, pid, tid, t, fuel) == Finish(v, tid, t, d.machine, before, StartState(t, d), fuel);
    assert StackTrace(v, pid, tid, t, more) == Finish(v, tid, t, d.machine, before, StartState(t, d), more);
    FinishFuelIrrelevant(v, tid, t, d.machine, before, StartState(t, d), fuel, more);
  }

  lemma FinishFuelIrrelevant(v: Variant, tid: uint32, t: Target, machine: uint32, before: seq<Event>, start: WalkState, fuel: nat, more: nat)
    requires Finish(v, tid, t, machine, before, start, fuel).outcome.Completed?
    requires more >= fuel
    ensures Finish(v, tid, t, machine, before, start, more) == Finish(v, tid, t, machine, before, start, fuel)
  {
    UnwindFuelIrrelevant(t.step, machine, start, fuel, more);
  }

  /**
    Antivenin.LoadModules: the second-count loop over the `All` module list.
    StackWalk does not call it.
   */
  function LegacyLoadModules(t: Target): (o: LoadOutcome)
    ensures var snap := t.modules(All);
      && (o.Loaded? <==> |snap.second| <= |snap.first|)
      && (o.Loaded? ==> !o.result && |o.registered| == |snap.second|)
      && (o.IndexOutOfRange? ==> |o.registered| == |snap.first|)
      && (forall i :: 0 <= i < |o.registered| ==> o.registered[i] == RegistrationOf(t.moduleInfo, snap.second[i]))
  {
    Load(GetStackTraceCopy, All, t)
  }

  /**
    What the legacy Antivenin.StackWalk leaves behind: its trace and the frame
    after its single StackWalk64 call, or None when Convert.ToUInt32 throws.
   */
  datatype LegacyRun = LegacyRun(events: seq<Event>, frame: Option<StackFrame>)

  /** The legacy walk's suspend and context read, when a branch is taken. */
  function Captured(d: Dispatched): seq<Event> {
    match d.branch
    case None => []
    case Some(b) => [Suspend(b.accessor), GetContext(b.accessor)]
  }

  /**
    Antivenin.StackWalk: open both handles, initialise the symbol handler,
    ask IsWow64Process, parse the processor type, suspend and read the
    context in the branch taken, call StackWalk64 once with the parsed
    machine type, clean up and return the frame that call left.
   */
  function LegacyStackWalk(pid: uint32, tid: uint32, t: Target): LegacyRun {
    var asked := Opened(pid, tid, true) + [QueryWow64];
    match HostOf(t)
    case None => LegacyRun(asked, None)
    case Some(host) =>
      var d := LegacyDispatch(host, t.isWow64);
      var next := t.step(d.machine, StartState(t, d)).next;
      LegacyRun(asked + Captured(d) + [StackWalk(d.machine)] + LegacyCleanup, Some(next.frame))
  }

  /**
    The legacy walk closes neither handle on any path, asks IsWow64Process on
    every host, and throws exactly where GetProcessorType does.
   */
  lemma LegacyLeaksHandles(pid: uint32, tid: uint32, t: Target)
    ensures var r := LegacyStackWalk(pid, tid, t);
      && r.events[..4] == [OpenProcess(pid), OpenThread(tid), SymInitialize(true), QueryWow64]
      && multiset(r.events)[CloseThread] == 0 && multiset(r.events)[CloseProcess] == 0
      && (r.frame.None? <==> t.processorType >= 100_000_000)
  {
    var r := LegacyStackWalk(pid, tid, t);
    if HostOf(t).Some? {
      LegacyClosesNothing(pid, tid, t);
    }
    assert CloseThread !in r.events && CloseProcess !in r.events;
  }

  /** Past GetProcessorType the legacy trace still starts with its questions and closes no handle. */
  lemma LegacyClosesNothing(pid: uint32, tid: uint32, t: Target)
    requires HostOf(t).Some?
    ensures var es := LegacyStackWalk(pid, tid, t).events;
      && es[..4] == Opened(pid, tid, true) + [QueryWow64]
      && CloseThread !in es && CloseProcess !in es
  {
    var asked := Opened(pid, tid, true) + [QueryWow64];
    var d := LegacyDispatch(HostOf(t).value, t.isWow64);
    LegacyShape(pid, tid, t);
    var front := asked + Captured(d);
    var tail := [StackWalk(d.machine)] + LegacyCleanup;
    assert CloseThread !in front && CloseProcess !in front;
    NotInEither(CloseThread, front, tail);
    NotInEither(CloseProcess, front, tail);
    assert (front + tail)[..4] == asked;
  }

  /**
    The legacy walk's suspend count: a branch suspends once and resumes
    once; a host no branch matches is resumed without being suspended; a
    throw happens before either.
   */
  lemma LegacySuspendBalance(pid: uint32, tid: uint32, t: Target, c: nat)
    ensures var r := LegacyStackWalk(pid, tid, t);
      var c' := SuspendCountAfter(c, r.events);
      && (r.frame.None? ==> c' == c)
      && (r.frame.Some? && LegacyDispatch(HostOf(t).value, t.isWow64).branch.Some? ==> c' == c)
      && (r.frame.Some? && LegacyDispatch(HostOf(t).value, t.isWow64).branch.None? ==>
            c' == (if c == 0 then 0 else c - 1))
  {
    var asked := Opened(pid, tid, true) + [QueryWow64];
    QuietKeepsSuspendCount(c, asked);
    if HostOf(t).Some? {
      var d := LegacyDispatch(HostOf(t).value, t.isWow64);
      var front := asked + Captured(d);
      LegacyShape(pid, tid, t);
      SuspendCountConcat(c, front, [StackWalk(d.machine)] + LegacyCleanup);
      SuspendCountConcat(c, asked, Captured(d));
      if d.branch.Some? {
        SuspendRaisesOnce(c, d.branch.value.accessor);
      } else {
        assert Captured(d) == [];
      }
      LegacyTailResumesOnce(SuspendCountAfter(c, front), d.machine);
    }
  }

  /** The legacy trace past GetProcessorType: the questions, the capture, one step and the cleanup. */
  lemma LegacyShape(pid: uint32, tid: uint32, t: Target)
    requires HostOf(t).Some?
    ensures var d := LegacyDispatch(HostOf(t).value, t.isWow64);
      LegacyStackWalk(pid, tid, t).events
        == (Opened(pid, tid, true) + [QueryWow64] + Captured(d)) + ([StackWalk(d.machine)] + LegacyCleanup)
  {
  }

  /**
    Where the two chains agree (a native AMD64 or IA64 host), the legacy
    walk's one StackWalk64 call is the canonical walk's first: the frame it
    returns carries the first recorded call's program counter and return
    address.
   */
  lemma LegacyIsFirstStep(v: Variant, pid: uint32, tid: uint32, t: Target, fuel: nat)
    requires HostOf(t) == Some(AMD64) || HostOf(t) == Some(IA64)
    requires !t.isWow64
    requires StackTrace(v, pid, tid, t, fuel).outcome.Completed?
    requires |StackTrace(v, pid, tid, t, fuel).outcome.calls| > 0
    ensures var cs := StackTrace(v, pid, tid, t, fuel).outcome.calls;
      var f := LegacyStackWalk(pid, tid, t).frame;
      && f.Some?
      && cs[0].offset == f.value.addrPC.offset
      && cs[0].returnAddress == f.value.addrReturn.offset
  {
    var d := DispatchOf(t).value;
    var ld := LegacyDispatch(HostOf(t).value, t.isWow64);
    assert d.machine == ld.machine;
    assert StartState(t, d) == StartState(t, ld);
    CallsAreStepsBeforeZero(v, pid, tid, t, fuel);
    assert Stepped(t.step, d.machine, StartState(t, d), 0)
      == t.step(d.machine, StartState(t, d)).next;
  }
}
