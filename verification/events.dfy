/**
  The walk as a trace of its calls into the operating system, and the two
  pieces of state those calls move: the target thread's suspend count and the
  two open handles.
 */
module Events {
  import opened Bits
  import opened Natives
  import opened Architecture
  import opened ModuleLoader

  datatype Event =
    | OpenProcess(processId: uint32)
    | OpenThread(threadId: uint32)
    | SymInitialize(invadeProcess: bool)
    | QueryWow64
    | LoadModules(filter: ModuleFilter, registered: seq<Registration>)
    | Suspend(suspendAccessor: Accessor)
    | GetContext(contextAccessor: Accessor)
    | StackWalk(machine: uint32)
    | SymCleanup
    | FreeBuffers
    | Resume
    | CloseThread
    | CloseProcess

  /**
    The target thread's suspend count after one event: SuspendThread and
    Wow64SuspendThread raise it, ResumeThread lowers it but never below zero.
   */
  function ApplySuspend(c: nat, e: Event): nat {
    match e
    case Suspend(_) => c + 1
    case Resume => if c == 0 then 0 else c - 1
    case _ => c
  }

  /** The suspend count after a whole trace, starting from c. */
  function SuspendCountAfter(c: nat, es: seq<Event>): nat
    decreases |es|
  {
    if |es| == 0 then c else SuspendCountAfter(ApplySuspend(c, es[0]), es[1..])
  }

  lemma {:induction false} SuspendCountConcat(c: nat, a: seq<Event>, b: seq<Event>)
    ensures SuspendCountAfter(c, a + b) == SuspendCountAfter(SuspendCountAfter(c, a), b)
    decreases |a|
  {
    if |a| == 0 {
      assert a + b == b;
    } else {
      assert (a + b)[0] == a[0] && (a + b)[1..] == a[1..] + b;
      SuspendCountConcat(ApplySuspend(c, a[0]), a[1..], b);
    }
  }

  /** Suspend calls in a trace, through either accessor. */
  function Suspends(es: seq<Event>): nat {
    multiset(es)[Suspend(Wow64Accessor)] + multiset(es)[Suspend(NativeAccessor)]
  }

  function Resumes(es: seq<Event>): nat {
    multiset(es)[Resume]
  }

  /** n consecutive StackWalk64 calls with the same machine type. */
  function Steps(machine: uint32, n: nat): (es: seq<Event>)
    ensures |es| == n
    ensures forall i :: 0 <= i < n ==> es[i] == StackWalk(machine)
  {
    seq(n, _ => StackWalk(machine))
  }

  /** A run of StackWalk64 calls holds nothing but StackWalk64 calls. */
  lemma {:induction false} StepsMultiset(machine: uint32, n: nat)
    ensures multiset(Steps(machine, n)) == multiset{}[StackWalk(machine) := n]
  {
    if n > 0 {
      assert Steps(machine, n) == Steps(machine, n - 1) + [StackWalk(machine)];
      StepsMultiset(machine, n - 1);
    }
  }

  /** StackWalk64 calls leave the suspend count alone. */
  lemma {:induction false} StepsKeepSuspendCount(c: nat, machine: uint32, n: nat)
    ensures SuspendCountAfter(c, Steps(machine, n)) == c
  {
    if n > 0 {
      assert Steps(machine, n)[1..] == Steps(machine, n - 1);
      StepsKeepSuspendCount(c, machine, n - 1);
    }
  }

  /** Every StackWalk64 call in the trace happens after every suspend and before every resume. */
  predicate StepsWhileSuspended(es: seq<Event>) {
    && (forall i, j :: 0 <= i < |es| && 0 <= j < |es| && es[i].Suspend? && es[j].StackWalk? ==> i < j)
    && (forall i, j :: 0 <= i < |es| && 0 <= j < |es| && es[i].StackWalk? && es[j].Resume? ==> i < j)
  }

  /** A trace split into a prefix without steps or resumes, steps, and a suffix without steps or suspends. */
  lemma Bracketed(a: seq<Event>, s: seq<Event>, b: seq<Event>)
    requires forall i :: 0 <= i < |a| ==> !a[i].StackWalk? && !a[i].Resume?
    requires forall i :: 0 <= i < |s| ==> s[i].StackWalk?
    requires forall i :: 0 <= i < |b| ==> !b[i].StackWalk? && !b[i].Suspend?
    ensures StepsWhileSuspended(a + s + b)
  {
  }

  /** Events that neither suspend nor resume leave the suspend count alone. */
  lemma {:induction false} QuietKeepsSuspendCount(c: nat, es: seq<Event>)
    requires forall i :: 0 <= i < |es| ==> !es[i].Suspend? && !es[i].Resume?
    ensures SuspendCountAfter(c, es) == c
    decreases |es|
  {
    if |es| > 0 {
      QuietKeepsSuspendCount(c, es[1..]);
    }
  }

  /** The suspend count after a single event. */
  lemma SuspendCountSingle(c: nat, e: Event)
    ensures SuspendCountAfter(c, [e]) == ApplySuspend(c, e)
  {
    assert [e][1..] == [];
  }

  lemma Regroup(x: seq<Event>, a: seq<Event>, b: seq<Event>, c: seq<Event>)
    requires x == a + b
    ensures x + c == a + (b + c)
  {
  }

  lemma NotInEither(e: Event, a: seq<Event>, b: seq<Event>)
    requires e !in a && e !in b
    ensures e !in a + b
  {
  }

  /** The cleanup after the loop, in source order; nothing guards it. */
  const Cleanup: seq<Event> := [SymCleanup, FreeBuffers, Resume, CloseThread, CloseProcess]

  /** The legacy walk's cleanup: no handle is closed. */
  const LegacyCleanup: seq<Event> := [SymCleanup, FreeBuffers, Resume]

  /** One StackWalk64 call and the legacy cleanup lower a positive suspend count by one. */
  lemma LegacyTailResumesOnce(c: nat, machine: uint32)
    ensures SuspendCountAfter(c, [StackWalk(machine)] + LegacyCleanup) == (if c == 0 then 0 else c - 1)
  {
    var quiet := [StackWalk(machine), SymCleanup, FreeBuffers];
    assert [StackWalk(machine)] + LegacyCleanup == quiet + [Resume];
    QuietKeepsSuspendCount(c, quiet);
    SuspendCountConcat(c, quiet, [Resume]);
    SuspendCountSingle(c, Resume);
  }

  /** Events that neither suspend, resume, step nor close a handle. */
  predicate Quiet(es: seq<Event>) {
    forall i :: 0 <= i < |es| ==>
      !es[i].Suspend? && !es[i].Resume? && !es[i].StackWalk? && !es[i].CloseThread? && !es[i].CloseProcess?
  }

  lemma QuietCounts(es: seq<Event>, e: Event)
    requires Quiet(es)
    requires e.Suspend? || e.Resume? || e.StackWalk? || e.CloseThread? || e.CloseProcess?
    ensures multiset(es)[e] == 0
  {
    assert e !in es;
  }

  /** A quiet trace suspends, resumes and closes nothing, and leaves the suspend count alone. */
  lemma QuietTrace(c: nat, es: seq<Event>)
    requires Quiet(es)
    ensures && Suspends(es) == 0 && Resumes(es) == 0
      && multiset(es)[CloseThread] == 0 && multiset(es)[CloseProcess] == 0
      && SuspendCountAfter(c, es) == c
  {
    QuietCounts(es, Suspend(Wow64Accessor));
    QuietCounts(es, Suspend(NativeAccessor));
    QuietCounts(es, Resume);
    QuietCounts(es, CloseThread);
    QuietCounts(es, CloseProcess);
    QuietKeepsSuspendCount(c, es);
  }

  /** The cleanup lowers a positive suspend count by one. */
  lemma CleanupResumesOnce(c: nat)
    ensures SuspendCountAfter(c, Cleanup) == (if c == 0 then 0 else c - 1)
  {
    assert Cleanup == [SymCleanup, FreeBuffers] + ([Resume] + [CloseThread, CloseProcess]);
    QuietKeepsSuspendCount(c, [SymCleanup, FreeBuffers]);
    SuspendCountConcat(c, [SymCleanup, FreeBuffers], [Resume] + [CloseThread, CloseProcess]);
    SuspendCountConcat(c, [Resume], [CloseThread, CloseProcess]);
    SuspendCountSingle(c, Resume);
    var c' := if c == 0 then 0 else c - 1;
    QuietKeepsSuspendCount(c', [CloseThread, CloseProcess]);
  }

  /** Suspending and reading the context raise the count by one. */
  lemma SuspendRaisesOnce(c: nat, a: Accessor)
    ensures SuspendCountAfter(c, [Suspend(a), GetContext(a)]) == c + 1
  {
    assert [Suspend(a), GetContext(a)][1..] == [GetContext(a)];
    SuspendCountSingle(c + 1, GetContext(a));
  }

  /** The counts of the cleanup's events. */
  lemma CleanupCounts()
    ensures multiset(Cleanup) == multiset{SymCleanup, FreeBuffers, Resume, CloseThread, CloseProcess}
  {
  }

  /** A quiet prefix adds no suspend, resume or close to the counts of what follows. */
  lemma QuietPrefix(pre: seq<Event>, rest: seq<Event>)
    requires Quiet(pre)
    ensures && Suspends(pre + rest) == Suspends(rest) && Resumes(pre + rest) == Resumes(rest)
      && multiset(pre + rest)[CloseThread] == multiset(rest)[CloseThread]
      && multiset(pre + rest)[CloseProcess] == multiset(rest)[CloseProcess]
  {
    assert multiset(pre + rest) == multiset(pre) + multiset(rest);
    QuietTrace(0, pre);
  }

  /** A quiet prefix leaves the suspend count for what follows. */
  lemma QuietPrefixCount(c: nat, pre: seq<Event>, rest: seq<Event>)
    requires Quiet(pre)
    ensures SuspendCountAfter(c, pre + rest) == SuspendCountAfter(c, rest)
  {
    QuietKeepsSuspendCount(c, pre);
    SuspendCountConcat(c, pre, rest);
  }

  /** Suspend, resume and close counts add up over a concatenation. */
  lemma CountsAdd(a: seq<Event>, b: seq<Event>)
    ensures && Suspends(a + b) == Suspends(a) + Suspends(b) && Resumes(a + b) == Resumes(a) + Resumes(b)
      && multiset(a + b)[CloseThread] == multiset(a)[CloseThread] + multiset(b)[CloseThread]
      && multiset(a + b)[CloseProcess] == multiset(a)[CloseProcess] + multiset(b)[CloseProcess]
  {
    assert multiset(a + b) == multiset(a) + multiset(b);
  }

  /** The cleanup resumes once and closes each handle once. */
  lemma CleanupTally()
    ensures && Suspends(Cleanup) == 0 && Resumes(Cleanup) == 1
      && multiset(Cleanup)[CloseThread] == 1 && multiset(Cleanup)[CloseProcess] == 1
  {
    CleanupCounts();
  }

  /** The counts of a run of steps followed by the cleanup. */
  lemma LoopCounts(machine: uint32, n: nat)
    ensures var es := Steps(machine, n) + Cleanup;
      && Suspends(es) == 0 && Resumes(es) == 1
      && multiset(es)[CloseThread] == 1 && multiset(es)[CloseProcess] == 1
  {
    StepsMultiset(machine, n);
    CountsAdd(Steps(machine, n), Cleanup);
    CleanupTally();
  }

  /** The counts of a suspend and context read followed by a run of steps. */
  lemma SuspendedCounts(a: Accessor, machine: uint32, n: nat)
    ensures var es := [Suspend(a), GetContext(a)] + Steps(machine, n);
      && Suspends(es) == 1 && Resumes(es) == 0
      && multiset(es)[CloseThread] == 0 && multiset(es)[CloseProcess] == 0
  {
    StepsMultiset(machine, n);
    CountsAdd([Suspend(a), GetContext(a)], Steps(machine, n));
  }

  /** The suspend, the steps and the cleanup: one suspend, one resume and one close of each handle. */
  lemma PairedCounts(a: Accessor, machine: uint32, n: nat)
    ensures var es := [Suspend(a), GetContext(a)] + Steps(machine, n) + Cleanup;
      && Suspends(es) == 1 && Resumes(es) == 1
      && multiset(es)[CloseThread] == 1 && multiset(es)[CloseProcess] == 1
  {
    SuspendedCounts(a, machine, n);
    CountsAdd([Suspend(a), GetContext(a)] + Steps(machine, n), Cleanup);
    CleanupTally();
  }

  /**
    A trace that suspends once, walks, and cleans up: one suspend, one
    resume, every step in between, the suspend count restored, and each
    handle closed once, the thread's before the process's, at the very end.
   */
  lemma PairedTrace(c: nat, pre: seq<Event>, a: Accessor, machine: uint32, n: nat)
    requires Quiet(pre)
    ensures var es := pre + [Suspend(a), GetContext(a)] + Steps(machine, n) + Cleanup;
      && Suspends(es) == 1 && Resumes(es) == 1
      && StepsWhileSuspended(es)
      && SuspendCountAfter(c, es) == c
      && multiset(es)[CloseThread] == 1 && multiset(es)[CloseProcess] == 1
      && |es| >= 2 && es[|es| - 2] == CloseThread && es[|es| - 1] == CloseProcess
  {
    PairedTraceCounts(c, pre, a, machine, n);
    PairedTraceOrder(pre, a, machine, n);
  }

  lemma PairedTraceCounts(c: nat, pre: seq<Event>, a: Accessor, machine: uint32, n: nat)
    requires Quiet(pre)
    ensures var es := pre + [Suspend(a), GetContext(a)] + Steps(machine, n) + Cleanup;
      && Suspends(es) == 1 && Resumes(es) == 1
      && SuspendCountAfter(c, es) == c
      && multiset(es)[CloseThread] == 1 && multiset(es)[CloseProcess] == 1
  {
    var rest := [Suspend(a), GetContext(a)] + Steps(machine, n) + Cleanup;
    assert pre + [Suspend(a), GetContext(a)] + Steps(machine, n) + Cleanup == pre + rest;
    QuietPrefix(pre, rest);
    PairedCounts(a, machine, n);
    QuietPrefixCount(c, pre, rest);
    PairedRestoresCount(c, a, machine, n);
  }

  lemma PairedTraceOrder(pre: seq<Event>, a: Accessor, machine: uint32, n: nat)
    requires Quiet(pre)
    ensures var es := pre + [Suspend(a), GetContext(a)] + Steps(machine, n) + Cleanup;
      && StepsWhileSuspended(es)
      && |es| >= 2 && es[|es| - 2] == CloseThread && es[|es| - 1] == CloseProcess
  {
    var front := pre + [Suspend(a), GetContext(a)];
    assert forall i :: 0 <= i < |front| ==> !front[i].StackWalk? && !front[i].Resume? by {
      forall i | 0 <= i < |front| ensures !front[i].StackWalk? && !front[i].Resume? {
        if i < |pre| { assert front[i] == pre[i]; }
      }
    }
    Bracketed(front, Steps(machine, n), Cleanup);
  }

  /** Suspending, walking and cleaning up restores the suspend count. */
  lemma PairedRestoresCount(c: nat, a: Accessor, machine: uint32, n: nat)
    ensures SuspendCountAfter(c, [Suspend(a), GetContext(a)] + Steps(machine, n) + Cleanup) == c
  {
    var sus := [Suspend(a), GetContext(a)];
    var steps := Steps(machine, n);
    assert sus + steps + Cleanup == sus + (steps + Cleanup);
    SuspendCountConcat(c, sus, steps + Cleanup);
    SuspendRaisesOnce(c, a);
    SuspendCountConcat(c + 1, steps, Cleanup);
    StepsKeepSuspendCount(c + 1, machine, n);
    CleanupResumesOnce(c + 1);
  }

  /**
    A trace that walks and cleans up without suspending: the resume lowers a
    count nobody raised.
   */
  lemma UnpairedResume(c: nat, pre: seq<Event>, machine: uint32, n: nat)
    requires Quiet(pre)
    ensures var es := pre + Steps(machine, n) + Cleanup;
      && Suspends(es) == 0 && Resumes(es) == 1
      && SuspendCountAfter(c, es) == (if c == 0 then 0 else c - 1)
  {
    var rest := Steps(machine, n) + Cleanup;
    assert pre + Steps(machine, n) + Cleanup == pre + rest;
    QuietPrefix(pre, rest);
    LoopCounts(machine, n);
    QuietPrefixCount(c, pre, rest);
    SuspendCountConcat(c, Steps(machine, n), Cleanup);
    StepsKeepSuspendCount(c, machine, n);
    CleanupResumesOnce(c);
  }

  /** A trace cut off inside the loop: suspended once, never resumed, nothing closed. */
  lemma SuspendedMidWalk(c: nat, pre: seq<Event>, a: Accessor, machine: uint32, n: nat)
    requires Quiet(pre)
    ensures var es := pre + [Suspend(a), GetContext(a)] + Steps(machine, n);
      && Suspends(es) == 1 && Resumes(es) == 0
      && multiset(es)[CloseThread] == 0 && multiset(es)[CloseProcess] == 0
      && SuspendCountAfter(c, es) == c + 1
  {
    var sus := [Suspend(a), GetContext(a)];
    var rest := sus + Steps(machine, n);
    assert pre + sus + Steps(machine, n) == pre + rest;
    QuietPrefix(pre, rest);
    SuspendedCounts(a, machine, n);
    QuietPrefixCount(c, pre, rest);
    SuspendCountConcat(c, sus, Steps(machine, n));
    SuspendRaisesOnce(c, a);
    StepsKeepSuspendCount(c + 1, machine, n);
  }

  /** A trace cut off inside the loop of a walk that never suspended: no suspend, resume or close. */
  lemma UnsuspendedMidWalk(c: nat, pre: seq<Event>, machine: uint32, n: nat)
    requires Quiet(pre)
    ensures var es := pre + Steps(machine, n);
      && Suspends(es) == 0 && Resumes(es) == 0
      && multiset(es)[CloseThread] == 0 && multiset(es)[CloseProcess] == 0
      && SuspendCountAfter(c, es) == c
  {
    QuietPrefix(pre, Steps(machine, n));
    StepsMultiset(machine, n);
    QuietPrefixCount(c, pre, Steps(machine, n));
    StepsKeepSuspendCount(c, machine, n);
  }

  /**
    A trace whose only StackWalk64 calls are n calls in a row: they are all
    there is of StackWalk64 and they all carry the one machine type.
   */
  lemma OnlyMachineSteps(pre: seq<Event>, machine: uint32, n: nat)
    requires forall i :: 0 <= i < |pre| ==> !pre[i].StackWalk?
    ensures var es := pre + Steps(machine, n) + Cleanup;
      && multiset(es)[StackWalk(machine)] == n
      && (forall i :: 0 <= i < |es| && es[i].StackWalk? ==> es[i].machine == machine)
  {
    var es := pre + Steps(machine, n) + Cleanup;
    assert multiset(es) == multiset(pre) + multiset(Steps(machine, n)) + multiset(Cleanup);
    assert StackWalk(machine) !in pre;
    CleanupCounts();
    StepsMultiset(machine, n);
    forall i | 0 <= i < |es| && es[i].StackWalk?
      ensures es[i].machine == machine
    {
      if i < |pre| {
      } else if i < |pre| + n {
        assert es[i] == Steps(machine, n)[i - |pre|];
      }
    }
  }
}
