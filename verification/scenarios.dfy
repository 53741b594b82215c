/** Concrete runs of a cell with one input and one output port. */
module Scenarios {
  import opened Naming
  import opened Ports
  import opened Stencil
  import opened Invariants
  import opened Properties

  /** The remote fetch used in the runs below: every input port delivers the
      value reference 50. */
  function FetchFifty(port: nat, remote: Id): Id {
    50
  }

  /** The single reader of a one-port cell takes the published value and
      returns its permit. */
  lemma ReaderDrains(c: Cell) returns (d: Cell)
    requires Reachable(c) && WellFormed(c) && c.n == 1
    requires c.readers == [ReaderIdle] && c.semOut == 1
    ensures Reachable(d)
    ensures d == c.(semOut := 0, semIn := c.semIn + 1, readsThisRound := c.readsThisRound + 1)
  {
    var c1 := Apply(c, ReaderAcquireStep(0));
    ReachableStep(c, ReaderAcquireStep(0));
    d := Apply(c1, ReaderReleaseStep(0));
    ReachableStep(c1, ReaderReleaseStep(0));
    assert d.readers == [ReaderIdle];
  }

  /** The cell of the runs below: one input, one output port with
      reference 7, wired to input reference 5 and functional component 9. */
  lemma Wired() returns (c: Cell)
    ensures Reachable(c)
    ensures c == Cell(1, [7], [InPort(true, 5)], 9, DrvStart, 1, 1, 0, 0, Invalid, Invalid, false,
                      CallIdle, [ReaderIdle], false, Invalid, [], [], [], 0, 0, 0)
  {
    var c0 := NewCell(1, [7]);
    NewCellReachable(1, [7]);
    assert c0.inPorts == [Unbound] && c0.readers == [ReaderIdle];
    var c1 := Apply(c0, Connect([5]));
    ReachableStep(c0, Connect([5]));
    assert c1.inPorts == [InPort(true, 5)];
    c := Apply(c1, SetFunctional(9));
    ReachableStep(c1, SetFunctional(9));
  }

  /** `set_functional_component` with the invalid reference after the
      inputs are bound: the driver is spawned all the same. */
  lemma InvalidFunctionalWired() returns (c: Cell)
    ensures Reachable(c)
    ensures c == Cell(1, [7], [InPort(true, 5)], Invalid, DrvStart, 1, 1, 0, 0, Invalid, Invalid, false,
                      CallIdle, [ReaderIdle], false, Invalid, [], [], [], 0, 0, 0)
  {
    var c0 := NewCell(1, [7]);
    NewCellReachable(1, [7]);
    assert c0.inPorts == [Unbound] && c0.readers == [ReaderIdle];
    var c1 := Apply(c0, Connect([5]));
    ReachableStep(c0, Connect([5]));
    assert c1.inPorts == [InPort(true, 5)];
    c := Apply(c1, SetFunctional(Invalid));
    ReachableStep(c1, SetFunctional(Invalid));
  }

  /** A driver spawned with the invalid functional reference still calls
      `alloc_data` (with that reference) for its backup buffer, then cannot
      go on: the assertion that the functional component is valid blocks
      it. A later `set_functional_component` with a valid reference lets it
      pass, and spawns no second driver. */
  lemma InvalidFunctionalStallsDriver() returns (c: Cell, d: Cell)
    ensures Reachable(c) && Reachable(d)
    ensures c.driver == DrvLoopTop && c.functional == Invalid && c.allocLog == [1]
    ensures !Enabled(c, DriverCheckStep)
    ensures WellFormed(c) && d == Apply(c, SetFunctional(9)) && d.functional == 9 && d.spawns == 1
    ensures Enabled(d, DriverCheckStep)
  {
    var c2 := InvalidFunctionalWired();
    assert Fresh(c2, 1);
    c := Apply(c2, DriverAllocStep(1));
    ReachableStep(c2, DriverAllocStep(1));
    d := Apply(c, SetFunctional(9));
    ReachableStep(c, SetFunctional(9));
  }

  /** The driver allocates its backup buffer 1 and passes the loop's two
      assertions before `call` has run. */
  lemma BackupAllocated() returns (c: Cell)
    ensures Reachable(c)
    ensures c == Cell(1, [7], [InPort(true, 5)], 9, DrvFetching, 1, 1, 0, 0, Invalid, 1, false,
                      CallIdle, [ReaderIdle], false, Invalid, [1], [], [], 0, 0, 0)
  {
    var c2 := Wired();
    assert Fresh(c2, 1);
    var c3 := Apply(c2, DriverAllocStep(1));
    ReachableStep(c2, DriverAllocStep(1));
    c := Apply(c3, DriverCheckStep);
    ReachableStep(c3, DriverCheckStep);
  }

  /** The assertion at the loop top does not protect `eval`: once the driver
      has passed it and waits in the inputs' `get`, a
      `set_functional_component` with the invalid reference goes through, and
      `eval` is then called with the invalid reference. */
  lemma FunctionalResetDuringFetch() returns (c: Cell)
    ensures Reachable(c)
    ensures |c.evals| == 1 && c.evals[0].functional == Invalid && c.evals[0].out == 1
    ensures c.driver == DrvEvaluated(false) && c.spawns == 1
  {
    var c3 := BackupAllocated();
    var c4 := Apply(c3, SetFunctional(Invalid));
    ReachableStep(c3, SetFunctional(Invalid));
    assert Gather(c4.inPorts, FetchFifty) == [50];
    c := Apply(c4, DriverEvalStep(FetchFifty, false));
    ReachableStep(c4, DriverEvalStep(FetchFifty, false));
  }

  /** The driver allocates its backup buffer 1, evaluates into it and takes
      the N preset permits of `sem_in_` before `call` has run. */
  lemma DriverTakesPresetPermits() returns (c: Cell)
    ensures Reachable(c)
    ensures c == Cell(1, [7], [InPort(true, 5)], 9, DrvHoldsIn(false), 1, 0, 0, 0, Invalid, 1, false,
                      CallIdle, [ReaderIdle], false, Invalid, [1], [], [EvalCall(9, 1, [50], false)], 0, 0, 0)
  {
    var c3 := BackupAllocated();
    var c4 := Apply(c3, DriverEvalStep(FetchFifty, false));
    ReachableStep(c3, DriverEvalStep(FetchFifty, false));
    assert Gather(c3.inPorts, FetchFifty) == [50];
    c := Apply(c4, DriverAcquireStep);
    ReachableStep(c4, DriverAcquireStep);
  }

  /** It then allocates `value_gid_` (buffer 2, setting `free_value_gid`),
      swaps and publishes buffer 1. */
  lemma DriverPublishesFirst() returns (c: Cell)
    ensures Reachable(c)
    ensures c == Cell(1, [7], [InPort(true, 5)], 9, DrvLoopTop, 1, 0, 1, 0, 1, 2, true,
                      CallIdle, [ReaderIdle], false, Invalid, [1, 2], [], [EvalCall(9, 1, [50], false)], 1, 0, 0)
  {
    var c5 := DriverTakesPresetPermits();
    assert Fresh(c5, 2);
    c := Apply(c5, DriverPublishStep(2));
    ReachableStep(c5, DriverPublishStep(2));
  }

  /** The reader reads buffer 1 and returns its permit to `sem_in_`. */
  lemma ReaderDrainsFirst() returns (c: Cell)
    ensures Reachable(c)
    ensures c == Cell(1, [7], [InPort(true, 5)], 9, DrvLoopTop, 1, 1, 0, 0, 1, 2, true,
                      CallIdle, [ReaderIdle], false, Invalid, [1, 2], [], [EvalCall(9, 1, [50], false)], 1, 1, 0)
  {
    var c6 := DriverPublishesFirst();
    c := ReaderDrains(c6);
  }

  /** The driver takes the N preset permits of `sem_in_` before `call` does:
      it allocates `value_gid_`, swaps and publishes; once the reader has
      taken that value, `call` gets the permits and then finds `value_gid_`
      valid, so the assertion guarding its publish step cannot hold. */
  lemma DriverFirstBreaksCallAssert() returns (c: Cell)
    ensures Reachable(c)
    ensures c.call == CallHoldsIn && c.value != Invalid
    ensures forall initial :: !Enabled(c, CallPublishStep(initial))
  {
    var c8 := ReaderDrainsFirst();
    c := Apply(c8, CallAcquireStep);
    ReachableStep(c8, CallAcquireStep);
  }

  /** `call` wins the race for the preset permits and publishes the seed
      100. */
  lemma CallSeeds() returns (c: Cell)
    ensures Reachable(c)
    ensures c == Cell(1, [7], [InPort(true, 5)], 9, DrvStart, 1, 0, 1, 0, 100, Invalid, false,
                      CallAwaitResult, [ReaderIdle], true, 100, [], [], [], 0, 0, 0)
  {
    var c2 := Wired();
    var c3 := Apply(c2, CallAcquireStep);
    ReachableStep(c2, CallAcquireStep);
    c := Apply(c3, CallPublishStep(100));
    ReachableStep(c3, CallPublishStep(100));
  }

  /** After the seed is published the driver allocates its backup buffer 1
      and passes the loop's two assertions. */
  lemma BackupAllocatedAfterSeed() returns (c: Cell)
    ensures Reachable(c)
    ensures c == Cell(1, [7], [InPort(true, 5)], 9, DrvFetching, 1, 0, 1, 0, 100, 1, false,
                      CallAwaitResult, [ReaderIdle], true, 100, [1], [], [], 0, 0, 0)
  {
    var c4 := CallSeeds();
    assert Fresh(c4, 1);
    var c5 := Apply(c4, DriverAllocStep(1));
    ReachableStep(c4, DriverAllocStep(1));
    c := Apply(c5, DriverCheckStep);
    ReachableStep(c5, DriverCheckStep);
  }

  /** `call` wins the race for the preset permits and publishes the seed
      100; the driver allocates its backup buffer 1 and evaluates into it. */
  lemma CallSeedsFirst() returns (c: Cell)
    ensures Reachable(c)
    ensures c == Cell(1, [7], [InPort(true, 5)], 9, DrvEvaluated(false), 1, 0, 1, 0, 100, 1, false,
                      CallAwaitResult, [ReaderIdle], true, 100, [1], [], [EvalCall(9, 1, [50], false)], 0, 0, 0)
  {
    var c5 := BackupAllocatedAfterSeed();
    assert Gather(c5.inPorts, FetchFifty) == [50];
    c := Apply(c5, DriverEvalStep(FetchFifty, false));
    ReachableStep(c5, DriverEvalStep(FetchFifty, false));
  }

  /** The reader drains the seed, and the driver swaps buffer 1 in without
      allocating anything: `value_gid_` was valid. */
  lemma FirstStepPublished() returns (c: Cell)
    ensures Reachable(c)
    ensures c == Cell(1, [7], [InPort(true, 5)], 9, DrvLoopTop, 1, 0, 1, 0, 1, 100, false,
                      CallAwaitResult, [ReaderIdle], true, 100, [1], [], [EvalCall(9, 1, [50], false)], 1, 0, 0)
  {
    var c6 := CallSeedsFirst();
    var c8 := ReaderDrains(c6);
    var c9 := Apply(c8, DriverAcquireStep);
    ReachableStep(c8, DriverAcquireStep);
    c := Apply(c9, DriverPublishStep(2));
    ReachableStep(c9, DriverPublishStep(2));
  }

  /** The second `eval` answers "last step" and writes into the seed's
      buffer; the reader drains buffer 1. */
  lemma SecondStepEvaluated() returns (c: Cell)
    ensures Reachable(c)
    ensures c == Cell(1, [7], [InPort(true, 5)], 9, DrvEvaluated(true), 1, 1, 0, 0, 1, 100, false,
                      CallAwaitResult, [ReaderIdle], true, 100, [1], [],
                      [EvalCall(9, 1, [50], false), EvalCall(9, 100, [50], true)], 1, 1, 0)
  {
    var c9 := FirstStepPublished();
    var c10 := Apply(c9, DriverCheckStep);
    ReachableStep(c9, DriverCheckStep);
    assert Gather(c10.inPorts, FetchFifty) == [50];
    var c11 := Apply(c10, DriverEvalStep(FetchFifty, true));
    ReachableStep(c10, DriverEvalStep(FetchFifty, true));
    c := ReaderDrains(c11);
  }

  /** The swap makes the seed's buffer current again and the loop is left. */
  lemma SecondStepPublished() returns (c: Cell)
    ensures Reachable(c)
    ensures c == Cell(1, [7], [InPort(true, 5)], 9, DrvExit, 1, 0, 1, 0, 100, 1, false,
                      CallAwaitResult, [ReaderIdle], true, 100, [1], [],
                      [EvalCall(9, 1, [50], false), EvalCall(9, 100, [50], true)], 2, 0, 0)
  {
    var c13 := SecondStepEvaluated();
    var c14 := Apply(c13, DriverAcquireStep);
    ReachableStep(c13, DriverAcquireStep);
    c := Apply(c14, DriverPublishStep(2));
    ReachableStep(c14, DriverPublishStep(2));
  }

  /** The driver signals `sem_result_` and `call` takes the seed's buffer,
      which the last `eval` wrote. */
  lemma SecondStepReturned() returns (c: Cell)
    ensures Reachable(c)
    ensures c == Cell(1, [7], [InPort(true, 5)], 9, DrvFreeBackup, 1, 0, 1, 0, Invalid, 1, false,
                      CallReturned(100), [ReaderIdle], true, 100, [1], [],
                      [EvalCall(9, 1, [50], false), EvalCall(9, 100, [50], true)], 2, 0, 1)
  {
    var c15 := SecondStepPublished();
    var c16 := Apply(c15, DriverSignalResultStep);
    ReachableStep(c15, DriverSignalResultStep);
    c := Apply(c16, CallReturnStep);
    ReachableStep(c16, CallReturnStep);
  }

  /** Nothing waits for the N reads of the last published value: `call`
      resets `value_gid_` before the reader of buffer 100 gets to it, so the
      reader receives the invalid reference instead. */
  lemma CallResetLosesLastValue() returns (c: Cell)
    ensures Reachable(c)
    ensures c.swaps == 2 && |c.evals| == 2 && c.evals[1].out == 100 && c.call == CallReturned(100)
    ensures c.readers == [ReaderHolds(Invalid)]
  {
    var c17 := SecondStepReturned();
    c := Apply(c17, ReaderAcquireStep(0));
    ReachableStep(c17, ReaderAcquireStep(0));
  }

  /** With one input and an evaluator answering false, then true: `call`
      returns the buffer the second `eval` wrote, exactly two evaluations
      happen, and the one buffer the cell allocated is freed after the
      result has been handed out. */
  lemma TwoStepRun() returns (c: Cell)
    ensures Reachable(c)
    ensures c.driver == Terminated && c.call == CallReturned(100)
    ensures |c.evals| == 2 && !c.evals[0].isLast && c.evals[1].isLast && c.evals[1].out == 100
    ensures c.allocLog == [1] && c.freeLog == [1]
  {
    var c17 := SecondStepReturned();
    var c18 := Apply(c17, DriverFreeBackupStep);
    ReachableStep(c17, DriverFreeBackupStep);
    c := Apply(c18, DriverFreeValueStep);
    ReachableStep(c18, DriverFreeValueStep);
  }

  /** `call` seeds 100 and the first `eval` already answers "last step". */
  lemma OneStepEvaluated() returns (c: Cell)
    ensures Reachable(c)
    ensures c == Cell(1, [7], [InPort(true, 5)], 9, DrvEvaluated(true), 1, 0, 1, 0, 100, 1, false,
                      CallAwaitResult, [ReaderIdle], true, 100, [1], [], [EvalCall(9, 1, [50], true)], 0, 0, 0)
  {
    var c5 := BackupAllocatedAfterSeed();
    assert Gather(c5.inPorts, FetchFifty) == [50];
    c := Apply(c5, DriverEvalStep(FetchFifty, true));
    ReachableStep(c5, DriverEvalStep(FetchFifty, true));
  }

  /** The reader drains the seed and the driver swaps buffer 1 in and
      leaves the loop. */
  lemma OneStepPublished() returns (c: Cell)
    ensures Reachable(c)
    ensures c == Cell(1, [7], [InPort(true, 5)], 9, DrvExit, 1, 0, 1, 0, 1, 100, false,
                      CallAwaitResult, [ReaderIdle], true, 100, [1], [], [EvalCall(9, 1, [50], true)], 1, 0, 0)
  {
    var c6 := OneStepEvaluated();
    var c8 := ReaderDrains(c6);
    var c9 := Apply(c8, DriverAcquireStep);
    ReachableStep(c8, DriverAcquireStep);
    c := Apply(c9, DriverPublishStep(2));
    ReachableStep(c9, DriverPublishStep(2));
  }

  /** With an evaluator answering "last step" at once, the driver frees the
      seed `call` supplied and `call` returns the cell's own buffer: the cell
      does free an externally supplied initial buffer. */
  lemma OneStepRunFreesSeed() returns (c: Cell)
    ensures Reachable(c)
    ensures c.driver == Terminated && c.call == CallReturned(1)
    ensures c.allocLog == [1] && c.freeLog == [100] && c.seed == 100
  {
    var c10 := OneStepPublished();
    var c11 := Apply(c10, DriverSignalResultStep);
    ReachableStep(c10, DriverSignalResultStep);
    var c12 := Apply(c11, DriverFreeBackupStep);
    ReachableStep(c11, DriverFreeBackupStep);
    var c13 := Apply(c12, DriverFreeValueStep);
    ReachableStep(c12, DriverFreeValueStep);
    c := Apply(c13, CallReturnStep);
    ReachableStep(c13, CallReturnStep);
  }

  /** The driver takes the preset permits and the first `eval` already
      answers "last step". */
  lemma LastStepBeforeCall() returns (c: Cell)
    ensures Reachable(c)
    ensures c == Cell(1, [7], [InPort(true, 5)], 9, DrvHoldsIn(true), 1, 0, 0, 0, Invalid, 1, false,
                      CallIdle, [ReaderIdle], false, Invalid, [1], [], [EvalCall(9, 1, [50], true)], 0, 0, 0)
  {
    var c3 := BackupAllocated();
    var c4 := Apply(c3, DriverEvalStep(FetchFifty, true));
    ReachableStep(c3, DriverEvalStep(FetchFifty, true));
    assert Gather(c3.inPorts, FetchFifty) == [50];
    c := Apply(c4, DriverAcquireStep);
    ReachableStep(c4, DriverAcquireStep);
  }

  /** The driver allocates `value_gid_` (buffer 2), swaps, publishes buffer 1
      and leaves the loop; the reader takes buffer 1. */
  lemma LastValueTaken() returns (c: Cell)
    ensures Reachable(c)
    ensures c == Cell(1, [7], [InPort(true, 5)], 9, DrvExit, 1, 0, 0, 0, 1, 2, true,
                      CallIdle, [ReaderHolds(1)], false, Invalid, [1, 2], [], [EvalCall(9, 1, [50], true)], 1, 0, 0)
  {
    var c5 := LastStepBeforeCall();
    assert Fresh(c5, 2);
    var c6 := Apply(c5, DriverPublishStep(2));
    ReachableStep(c5, DriverPublishStep(2));
    c := Apply(c6, ReaderAcquireStep(0));
    ReachableStep(c6, ReaderAcquireStep(0));
  }

  /** Nothing waits for the N reads of the last published value: the driver's
      exit path frees buffer 1 while a reader still holds it. */
  lemma ReaderHoldsFreedBuffer() returns (c: Cell)
    ensures Reachable(c)
    ensures c.driver == Terminated && c.readers == [ReaderHolds(1)] && 1 in c.freeLog
  {
    var c7 := LastValueTaken();
    var c8 := Apply(c7, DriverSignalResultStep);
    ReachableStep(c7, DriverSignalResultStep);
    var c9 := Apply(c8, DriverFreeBackupStep);
    ReachableStep(c8, DriverFreeBackupStep);
    c := Apply(c9, DriverFreeValueStep);
    ReachableStep(c9, DriverFreeValueStep);
  }
}
