/** What the protocol of `stencil_value<N>` guarantees, stated about every
    state reachable from the constructor. */
module Properties {
  import opened Naming
  import opened Ports
  import opened Stencil
  import opened Invariants

  function Last<T>(s: seq<T>): T
    requires |s| > 0
  {
    s[|s| - 1]
  }

  // ---------------------------------------------------------------------
  // Wiring

  /** The driver is registered at most once, and only after every input
      port is bound, whatever the order and number of wiring calls. */
  lemma AtMostOneDriver(c: Cell)
    requires Reachable(c)
    ensures c.spawns <= 1
    ensures c.spawns == 1 <==> c.driver != NoDriver
    ensures c.driver != NoDriver ==> AllBound(c.inPorts)
  {
    ReachableInv(c);
  }

  /** On a fresh cell, whichever of the two wiring calls arrives second
      spawns the driver, the first spawns nothing, and both orders end in
      the same cell. */
  lemma WiringOrderIrrelevant(n: nat, outGids: seq<Id>, gids: seq<Id>, f: Id)
    requires n > 0 && |outGids| == n && |gids| >= n && f != Invalid
    ensures var c0 := NewCell(n, outGids);
            var portsFirst := ConnectInputPorts(c0, gids).value;
            var functionalFirst := SetFunctionalComponent(c0, f);
            && portsFirst.driver == NoDriver
            && functionalFirst.driver == NoDriver
            && SetFunctionalComponent(portsFirst, f) == ConnectInputPorts(functionalFirst, gids).value
            && SetFunctionalComponent(portsFirst, f).driver == DrvStart
            && SetFunctionalComponent(portsFirst, f).spawns == 1
  {
    var c0 := NewCell(n, outGids);
    assert !c0.inPorts[0].bound;
  }

  /** With the invalid functional reference the order does matter:
      `set_functional_component` does not check its argument, so after
      `connect_input_ports` it spawns the driver, whereas
      `connect_input_ports` after it tests the reference and spawns nothing. */
  lemma WiringOrderMattersForInvalid(n: nat, outGids: seq<Id>, gids: seq<Id>)
    requires n > 0 && |outGids| == n && |gids| >= n
    ensures var c0 := NewCell(n, outGids);
            && SetFunctionalComponent(ConnectInputPorts(c0, gids).value, Invalid).driver == DrvStart
            && ConnectInputPorts(SetFunctionalComponent(c0, Invalid), gids).value.driver == NoDriver
  {
    var c0 := NewCell(n, outGids);
    assert !c0.inPorts[0].bound;
  }

  /** No operation changes the output adaptors, so along any run
      `get_output_ports` answers as it did before the first wiring call. */
  lemma {:induction false} OutputPortsStable(c: Cell, trace: seq<Action>)
    ensures Run(c, trace).Some? ==> Run(c, trace).value.outPorts == c.outPorts
    decreases |trace|
  {
    if trace != [] && Enabled(c, trace[0]) {
      OutputPortsStable(Apply(c, trace[0]), trace[1..]);
    }
  }

  // ---------------------------------------------------------------------
  // Semaphores

  /** Permit conservation: the N permits of `sem_in_` are always either in
      `sem_in_`, in `sem_out_`, with a reader between its wait and its signal,
      or all N with `call` or the driver between its `sem_in_.wait(N)` and its
      `sem_out_.signal(N)`. No counter exceeds N, and `call` and the driver
      never hold the permits at the same time. */
  lemma PermitConservation(c: Cell)
    requires Reachable(c)
    ensures c.semIn + c.semOut + Holding(c.readers) + ProducerPermits(c) == c.n
    ensures c.semIn <= c.n && c.semOut <= c.n && c.semResult <= 1
    ensures !(c.call == CallHoldsIn && c.driver.DrvHoldsIn?)
  {
    ReachableInv(c);
  }

  /** The producer cannot swap again before N reads of the published value
      have completed: once a value has been published, whoever holds the
      permits of `sem_in_` got them from exactly N `get_value` completions,
      and no reader is still reading. */
  lemma NoSwapBeforeNReads(c: Cell)
    requires Reachable(c)
    requires c.driver.DrvHoldsIn? || c.call == CallHoldsIn
    requires Published(c)
    ensures c.readsThisRound == c.n
    ensures c.semIn == 0 && c.semOut == 0
    ensures forall i :: 0 <= i < |c.readers| ==> c.readers[i] == ReaderIdle
  {
    ReachableInv(c);
    HoldingZero(c.readers);
  }

  /** Until the driver leaves its loop, every read in progress has read the
      value that is current, the last one published. */
  lemma ReadersSeePublishedValue(c: Cell, i: nat)
    requires Reachable(c)
    requires i < |c.readers| && c.readers[i].ReaderHolds?
    requires !Finished(c.driver)
    ensures c.readers[i].got == c.value
    ensures c.swaps > 0 ==> c.swaps <= |c.evals| && c.value == c.evals[c.swaps - 1].out
    ensures c.swaps == 0 ==> c.seeded && c.value == c.seed
  {
    ReachableInv(c);
    if Holding(c.readers) == 0 {
      HoldingZero(c.readers);
    }
  }

  // ---------------------------------------------------------------------
  // call

  /** The assertion in `call` holds exactly when the driver has not yet
      published a value of its own, or has already terminated and released
      the buffer it allocated for `value_gid_`. If the driver takes the N
      preset permits first, the assertion fails until then. */
  lemma CallAssertOrdering(c: Cell)
    requires Reachable(c)
    requires c.call == CallHoldsIn
    ensures c.value == Invalid <==> c.swaps == 0 || c.driver == Terminated
    ensures c.swaps > 0 ==> c.freeValue
  {
    ReachableInv(c);
  }

  /** `call` returns the value current when `sem_result_` lets it through
      and leaves `value_gid_` invalid. That value is the buffer written by
      the `eval` that answered "last step", unless the driver owned that
      buffer and freed it first, in which case `call` gets back its own seed
      (which is the invalid reference when the driver had allocated the
      buffer because of an invalid seed). */
  lemma CallReturnsFinalValue(c: Cell)
    requires Reachable(c)
    requires Enabled(c, CallReturnStep)
    ensures Finished(c.driver) && |c.evals| > 0 && Last(c.evals).isLast
    ensures CallReturn(c).value == Invalid
    ensures CallReturn(c).call.result == c.value
    ensures !(c.driver == Terminated && c.freeValue) ==> c.value == Last(c.evals).out
    ensures c.driver == Terminated && c.freeValue ==> c.value == c.seed
  {
    ReachableInv(c);
    FinalValueFromInv(c);
  }

  /** The part of the invariant `CallReturnsFinalValue` needs. */
  lemma FinalValueFromInv(c: Cell)
    requires ResultInv(c) && DriverInv(c) && ValueInv(c)
    requires c.call == CallAwaitResult && c.semResult >= 1
    ensures Finished(c.driver) && |c.evals| > 0 && Last(c.evals).isLast
    ensures !(c.driver == Terminated && c.freeValue) ==> c.value == Last(c.evals).out
    ensures c.driver == Terminated && c.freeValue ==> c.value == c.seed
  {
  }

  /** Whatever `call` returns has not been freed by the cell, then or later. */
  lemma CallResultNeverFreed(c: Cell)
    requires Reachable(c)
    requires c.call.CallReturned? && c.call.result != Invalid
    ensures c.call.result !in c.freeLog
    ensures c.call.result != c.value && c.call.result != c.backup
  {
    ReachableInv(c);
  }

  // ---------------------------------------------------------------------
  // main

  /** `eval` gets the functional reference current when it is called (not
      necessarily the one the assertion checked), writes into the backup
      buffer, and receives N inputs, input i being what the fetch from input
      port i delivered. */
  lemma EvalInputsInPortOrder(c: Cell, fetch: (nat, Id) -> Id, isLast: bool)
    requires Reachable(c)
    requires Enabled(c, DriverEvalStep(fetch, isLast))
    ensures var e := Last(DriverEval(c, fetch, isLast).evals);
            && e.out == c.backup && e.functional == c.functional && e.isLast == isLast
            && |e.inputs| == c.n
            && forall i :: 0 <= i < c.n ==> e.inputs[i] == fetch(i, c.inPorts[i].remote)
    ensures AllBound(c.inPorts)
  {
    ReachableInv(c);
  }

  /** The swap publishes the buffer the last `eval` wrote; the two slots are
      valid and distinct afterwards; `value_gid_` is allocated exactly when it
      was invalid, and that allocation sets `free_value_gid`. */
  lemma SwapPublishesWrittenBuffer(c: Cell, newId: Id)
    requires Reachable(c)
    requires Enabled(c, DriverPublishStep(newId))
    ensures var d := DriverPublish(c, newId);
            && |c.evals| > 0 && d.value == Last(c.evals).out
            && d.value != Invalid && d.backup != Invalid && d.value != d.backup
            && (c.value == Invalid ==> d.backup == newId && d.freeValue && d.allocLog == c.allocLog + [newId])
            && (c.value != Invalid ==> d.backup == c.value && d.freeValue == c.freeValue && d.allocLog == c.allocLog)
            && d.semOut == c.semOut + c.n
  {
    ReachableInv(c);
  }

  /** The loop is left right after the first `eval` that answers true, and
      `sem_result_` is signalled once, after the loop. */
  lemma LoopExitsOnFirstLast(c: Cell)
    requires Reachable(c)
    ensures forall k :: 0 <= k < |c.evals| - 1 ==> !c.evals[k].isLast
    ensures AfterLoop(c.driver) ==> |c.evals| > 0 && Last(c.evals).isLast && c.swaps == |c.evals|
    ensures c.driver == DrvLoopTop || c.driver == DrvFetching ==> forall k :: 0 <= k < |c.evals| ==> !c.evals[k].isLast
    ensures c.resultSignals <= 1
    ensures c.resultSignals == 1 <==> Finished(c.driver)
  {
    ReachableInv(c);
  }

  // ---------------------------------------------------------------------
  // Buffer ownership

  /** `backup_value_gid_` is allocated once, before the loop, and the first
      `eval` writes into that buffer; at most one more buffer is allocated,
      for `value_gid_`, and exactly when `free_value_gid` is set. All
      allocated buffers are distinct. */
  lemma AllocationsBounded(c: Cell)
    requires Reachable(c)
    ensures BeforeLoop(c.driver) ==> c.allocLog == [] && !c.freeValue
    ensures !BeforeLoop(c.driver) ==> 1 <= |c.allocLog| <= 2
    ensures !BeforeLoop(c.driver) ==> (|c.allocLog| == 2 <==> c.freeValue)
    ensures forall j, k :: 0 <= j < k < |c.allocLog| ==> c.allocLog[j] != c.allocLog[k]
    ensures !BeforeLoop(c.driver) && c.swaps == 0 ==> |c.allocLog| > 0 && c.backup == c.allocLog[0]
    ensures |c.evals| > 0 ==> |c.allocLog| > 0 && c.evals[0].out == c.allocLog[0]
  {
    ReachableInv(c);
  }

  /** `value_gid_` and `backup_value_gid_` never hold the same buffer, and
      neither holds a freed one. */
  lemma SlotsNeverAlias(c: Cell)
    requires Reachable(c)
    ensures c.value != Invalid && c.backup != Invalid ==> c.value != c.backup
    ensures c.value != Invalid ==> c.value !in c.freeLog
    ensures c.backup != Invalid ==> c.backup !in c.freeLog
  {
    ReachableInv(c);
    assert forall k :: 0 <= k < |c.freeLog| && c.freeLog[k] != Invalid ==>
      c.freeLog[k] != c.value && c.freeLog[k] != c.backup;
  }

  /** On exit the backup buffer, a live one, is freed and its slot reset;
      `value_gid_` is freed (and reset) if and only if `free_value_gid` is
      set. */
  lemma ExitReleasesBuffers(c: Cell)
    requires Reachable(c)
    requires c.driver == DrvFreeBackup
    ensures c.backup != Invalid && c.backup !in c.freeLog
    ensures var d := DriverFreeBackup(c);
            d.backup == Invalid && d.freeLog == c.freeLog + [c.backup] && d.value == c.value
    ensures var d := DriverFreeValue(DriverFreeBackup(c));
            && d.driver == Terminated
            && (c.freeValue ==> d.value == Invalid && d.freeLog == c.freeLog + [c.backup, c.value])
            && (!c.freeValue ==> d.value == c.value && d.freeLog == c.freeLog + [c.backup])
  {
    SlotsNeverAlias(c);
    ReachableInv(c);
  }

  /** Once the driver has terminated and `call` has returned, every buffer
      the cell allocated and the seed are either freed or the returned
      value, and no valid reference was freed twice. */
  lemma NoLeakNoDoubleFree(c: Cell)
    requires Reachable(c)
    requires c.driver == Terminated && c.call.CallReturned?
    ensures forall k :: 0 <= k < |c.allocLog| ==>
              c.allocLog[k] in c.freeLog || c.allocLog[k] == c.call.result
    ensures c.seed != Invalid ==> c.seed in c.freeLog || c.seed == c.call.result
    ensures forall j, k :: 0 <= j < k < |c.freeLog| && c.freeLog[j] != Invalid ==> c.freeLog[j] != c.freeLog[k]
  {
    ReachableInv(c);
  }
}
