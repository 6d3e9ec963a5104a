/**
  The unwind loop. StackWalk64 is an oracle from the current frame and context
  to the next ones plus a success flag. The loop calls it with a fixed machine
  type, stops at the first frame whose return offset is zero without recording
  it, and records one (PC, return) pair for every other frame. The source loop
  has no iteration bound and ignores the flag; `fuel` below is only the length
  of the prefix of the (possibly endless) run that is examined.
 */
module Unwinding {
  import opened Bits
  import opened Frames

  /** The in/out state StackWalk64 works on: the frame and the context record. */
  datatype WalkState = WalkState(frame: StackFrame, context: ContextRecord)

  /** One StackWalk64 result: its boolean return and the updated state. */
  datatype StepResult = StepResult(ok: bool, next: WalkState)

  /** StackWalk64 as a function of machine type and state. */
  type StepOracle = (uint32, WalkState) -> StepResult

  /** A recorded (PC, return address) pair. */
  datatype Hop = Hop(pc: uint64, ret: uint64)

  /** The loop's outcome: it stopped with its hops, or was still running when the fuel ran out. */
  datatype Unwound = Done(hops: seq<Hop>) | OutOfFuel

  function ReturnOf(s: WalkState): uint64 {
    s.frame.addrReturn.offset
  }

  function HopOf(s: WalkState): Hop {
    Hop(s.frame.addrPC.offset, s.frame.addrReturn.offset)
  }

  /** The state after k steps. */
  function Iterate(step: StepOracle, machine: uint32, s: WalkState, k: nat): WalkState
    decreases k
  {
    if k == 0 then s else Iterate(step, machine, step(machine, s).next, k - 1)
  }

  /** The state the j-th call (counting from 0) of StackWalk64 leaves behind. */
  function Stepped(step: StepOracle, machine: uint32, s: WalkState, j: nat): WalkState {
    Iterate(step, machine, s, j + 1)
  }

  /** The k-th step (counting from 0) is the first whose return offset is zero. */
  predicate FirstZero(step: StepOracle, machine: uint32, s: WalkState, k: nat) {
    && ReturnOf(Stepped(step, machine, s, k)) == 0
    && forall j: nat :: j < k ==> ReturnOf(Stepped(step, machine, s, j)) != 0
  }

  /** The reference trace: the hops of the first k steps, in step order. */
  function HopsUpTo(step: StepOracle, machine: uint32, s: WalkState, k: nat): (hs: seq<Hop>)
    ensures |hs| == k
  {
    seq(k, j requires 0 <= j < k => HopOf(Stepped(step, machine, s, j)))
  }

  /**
    The loop of the StackTrace constructor: step, stop if the new return
    offset is zero, otherwise record (PC, return) and continue.
   */
  function Unwind(step: StepOracle, machine: uint32, s: WalkState, fuel: nat): (r: Unwound)
    ensures r.Done? ==> |r.hops| < fuel
    ensures r.Done? ==> forall i :: 0 <= i < |r.hops| ==> r.hops[i].ret != 0
    decreases fuel
  {
    if fuel == 0 then OutOfFuel
    else
      var s' := step(machine, s).next;
      if ReturnOf(s') == 0 then Done([])
      else
        match Unwind(step, machine, s', fuel - 1)
        case Done(hops) => Done([HopOf(s')] + hops)
        case OutOfFuel => OutOfFuel
  }

  /** Stepping once and then j more times is the same as stepping j + 1 times. */
  lemma SteppedShift(step: StepOracle, machine: uint32, s: WalkState, j: nat)
    ensures Stepped(step, machine, s, 0) == step(machine, s).next
    ensures Stepped(step, machine, s, j + 1) == Stepped(step, machine, step(machine, s).next, j)
  {
    assert Iterate(step, machine, s, 1) == Iterate(step, machine, step(machine, s).next, 0);
  }

  /** A finished loop stopped at the first zero return and recorded every earlier step. */
  lemma {:induction false} UnwindSound(step: StepOracle, machine: uint32, s: WalkState, fuel: nat)
    requires Unwind(step, machine, s, fuel).Done?
    ensures var hops := Unwind(step, machine, s, fuel).hops;
      FirstZero(step, machine, s, |hops|) && hops == HopsUpTo(step, machine, s, |hops|)
    decreases fuel
  {
    var s' := step(machine, s).next;
    var hops := Unwind(step, machine, s, fuel).hops;
    SteppedShift(step, machine, s, 0);
    if ReturnOf(s') != 0 {
      var rest := Unwind(step, machine, s', fuel - 1).hops;
      UnwindSound(step, machine, s', fuel - 1);
      assert hops == [HopOf(s')] + rest;
      forall j: nat | j < |hops|
        ensures ReturnOf(Stepped(step, machine, s, j)) != 0
        ensures hops[j] == HopOf(Stepped(step, machine, s, j))
      {
        if j > 0 {
          SteppedShift(step, machine, s, j - 1);
        }
      }
      SteppedShift(step, machine, s, |rest|);
    }
  }

  /** With enough fuel the loop finishes at the first zero return with the reference hops. */
  lemma {:induction false} UnwindComplete(step: StepOracle, machine: uint32, s: WalkState, k: nat, fuel: nat)
    requires FirstZero(step, machine, s, k) && k < fuel
    ensures Unwind(step, machine, s, fuel) == Done(HopsUpTo(step, machine, s, k))
    decreases k
  {
    var s' := step(machine, s).next;
    SteppedShift(step, machine, s, 0);
    if k > 0 {
      assert ReturnOf(Stepped(step, machine, s, 0)) != 0;
      forall j: nat | j < k - 1
        ensures ReturnOf(Stepped(step, machine, s', j)) != 0
      {
        SteppedShift(step, machine, s, j);
      }
      SteppedShift(step, machine, s, k - 1);
      UnwindComplete(step, machine, s', k - 1, fuel - 1);
      var rest := HopsUpTo(step, machine, s', k - 1);
      forall j | 0 <= j < k
        ensures HopsUpTo(step, machine, s, k)[j] == ([HopOf(s')] + rest)[j]
      {
        if j > 0 {
          SteppedShift(step, machine, s, j - 1);
        }
      }
    }
  }

  /** Once finished, more fuel changes nothing: the fuel is not a cap the source has. */
  lemma UnwindFuelIrrelevant(step: StepOracle, machine: uint32, s: WalkState, fuel: nat, more: nat)
    requires Unwind(step, machine, s, fuel).Done?
    requires more >= fuel
    ensures Unwind(step, machine, s, more) == Unwind(step, machine, s, fuel)
  {
    UnwindSound(step, machine, s, fuel);
    var hops := Unwind(step, machine, s, fuel).hops;
    UnwindComplete(step, machine, s, |hops|, more);
  }

  /** If no step within the fuel returns a zero offset, the loop is still running. */
  lemma {:induction false} UnwindNoZero(step: StepOracle, machine: uint32, s: WalkState, fuel: nat)
    requires forall j: nat :: j < fuel ==> ReturnOf(Stepped(step, machine, s, j)) != 0
    ensures Unwind(step, machine, s, fuel) == OutOfFuel
    decreases fuel
  {
    if fuel > 0 {
      var s' := step(machine, s).next;
      SteppedShift(step, machine, s, 0);
      assert ReturnOf(Stepped(step, machine, s, 0)) != 0;
      forall j: nat | j < fuel - 1
        ensures ReturnOf(Stepped(step, machine, s', j)) != 0
      {
        SteppedShift(step, machine, s, j);
      }
      UnwindNoZero(step, machine, s', fuel - 1);
    }
  }

  /** Conversely, a loop still running after `fuel` steps saw no zero return in any of them. */
  lemma {:induction false} UnwindStillRunning(step: StepOracle, machine: uint32, s: WalkState, fuel: nat)
    requires Unwind(step, machine, s, fuel) == OutOfFuel
    ensures forall j: nat :: j < fuel ==> ReturnOf(Stepped(step, machine, s, j)) != 0
    decreases fuel
  {
    if fuel > 0 {
      var s' := step(machine, s).next;
      SteppedShift(step, machine, s, 0);
      UnwindStillRunning(step, machine, s', fuel - 1);
      forall j: nat | j < fuel
        ensures ReturnOf(Stepped(step, machine, s, j)) != 0
      {
        if j > 0 {
          SteppedShift(step, machine, s, j - 1);
        }
      }
    }
  }

  /**
    A corrupt, cyclic stack: an oracle that keeps returning a frame with a
    nonzero return offset never lets the loop stop, however much fuel.
   */
  lemma CyclicStackNeverStops(step: StepOracle, machine: uint32, s: WalkState, fuel: nat)
    requires forall t: WalkState :: ReturnOf(step(machine, t).next) != 0
    ensures Unwind(step, machine, s, fuel) == OutOfFuel
  {
    forall j: nat | j < fuel
      ensures ReturnOf(Stepped(step, machine, s, j)) != 0
    {
      IterateLast(step, machine, s, j);
    }
    UnwindNoZero(step, machine, s, fuel);
  }

  /** The state after k + 1 steps is one step from the state after k. */
  lemma {:induction false} IterateLast(step: StepOracle, machine: uint32, s: WalkState, k: nat)
    ensures Iterate(step, machine, s, k + 1) == step(machine, Iterate(step, machine, s, k)).next
    decreases k
  {
    if k > 0 {
      IterateLast(step, machine, step(machine, s).next, k - 1);
    }
  }

  /** The loop reads only the new state of each step, never StackWalk64's boolean result. */
  lemma {:induction false} UnwindIgnoresStepResult(
    step1: StepOracle, step2: StepOracle, machine: uint32, s: WalkState, fuel: nat)
    requires forall t: WalkState :: step1(machine, t).next == step2(machine, t).next
    ensures Unwind(step1, machine, s, fuel) == Unwind(step2, machine, s, fuel)
    decreases fuel
  {
    if fuel > 0 {
      UnwindIgnoresStepResult(step1, step2, machine, step1(machine, s).next, fuel - 1);
    }
  }
}
