/** The inductive invariant of a stencil cell and its preservation by every
    enabled action. Every state reachable from `NewCell` satisfies `Inv`, so
    the properties proved from `Inv` elsewhere hold of every reachable state. */
module Invariants {
  import opened Naming
  import opened Ports
  import opened Stencil

  // ---------------------------------------------------------------------
  // Counting readers

  /** The number of `get_value` calls between their `sem_out_.wait(1)` and
      their `sem_in_.signal(1)`. */
  function Holding(rs: seq<ReaderPc>): nat {
    if rs == [] then 0
    else Holding(rs[..|rs| - 1]) + (if rs[|rs| - 1].ReaderHolds? then 1 else 0)
  }

  lemma {:induction false} HoldingUpdate(rs: seq<ReaderPc>, i: nat, r: ReaderPc)
    requires i < |rs|
    ensures Holding(rs[i := r]) + (if rs[i].ReaderHolds? then 1 else 0)
         == Holding(rs) + (if r.ReaderHolds? then 1 else 0)
  {
    var last := |rs| - 1;
    if i == last {
      assert rs[i := r][..last] == rs[..last];
    } else {
      assert rs[i := r][..last] == rs[..last][i := r];
      HoldingUpdate(rs[..last], i, r);
    }
  }

  lemma {:induction false} HoldingZero(rs: seq<ReaderPc>)
    requires Holding(rs) == 0
    ensures forall i :: 0 <= i < |rs| ==> rs[i] == ReaderIdle
  {
    if rs != [] {
      HoldingZero(rs[..|rs| - 1]);
      forall i | 0 <= i < |rs| - 1
        ensures rs[i] == ReaderIdle
      {
        assert rs[i] == rs[..|rs| - 1][i];
      }
    }
  }

  lemma {:induction false} HoldingAllIdle(n: nat)
    ensures Holding(seq(n, _ => ReaderIdle)) == 0
  {
    if n > 0 {
      assert seq(n, _ => ReaderIdle)[..n - 1] == seq(n - 1, _ => ReaderIdle);
      HoldingAllIdle(n - 1);
    }
  }

  // ---------------------------------------------------------------------
  // Phases

  /** The N permits of `sem_in_` held by `call` or by the driver between
      their `sem_in_.wait(N)` and their `sem_out_.signal(N)`. */
  function ProducerPermits(c: Cell): nat {
    (if c.call == CallHoldsIn then c.n else 0) + (if c.driver.DrvHoldsIn? then c.n else 0)
  }

  /** Some value has been published to the readers. */
  predicate Published(c: Cell) {
    c.seeded || c.swaps > 0
  }

  predicate BeforeLoop(d: DriverPc) {
    d == NoDriver || d == DrvStart
  }

  predicate Evaluating(d: DriverPc) {
    d.DrvEvaluated? || d.DrvHoldsIn?
  }

  /** `sem_result_` has been signalled. */
  predicate Finished(d: DriverPc) {
    d == DrvFreeBackup || d == DrvFreeValue || d == Terminated
  }

  predicate AfterLoop(d: DriverPc) {
    d == DrvExit || Finished(d)
  }

  // ---------------------------------------------------------------------
  // The invariant, part by part

  /** At most one driver, and only once every input is bound. */
  predicate WiringInv(c: Cell) {
    && c.spawns == (if c.driver == NoDriver then 0 else 1)
    && (c.driver != NoDriver ==> AllBound(c.inPorts))
  }

  /** Permit conservation on `sem_in_` and `sem_out_`, and the count of
      reads completed since the last publish. */
  predicate PermitInv(c: Cell) {
    && c.semIn + c.semOut + Holding(c.readers) + ProducerPermits(c) == c.n
    && (!Published(c) ==> c.semOut == 0 && Holding(c.readers) == 0 && c.readsThisRound == 0)
    && (Published(c) && ProducerPermits(c) == 0 ==> c.semIn == c.readsThisRound)
    && (Published(c) && ProducerPermits(c) > 0 ==> c.readsThisRound == c.n)
  }

  /** `sem_result_` is signalled once, when the driver leaves its loop, and
      consumed once, by `call`. */
  predicate ResultInv(c: Cell) {
    && c.resultSignals == (if Finished(c.driver) then 1 else 0)
    && c.semResult + (if c.call.CallReturned? then 1 else 0) == c.resultSignals
    && (c.seeded <==> c.call.CallAwaitResult? || c.call.CallReturned?)
  }

  predicate GoodEval(c: Cell, e: EvalCall) {
    e.out != Invalid && |e.inputs| == c.n
  }

  /** The shape of the driver's history: one backup allocation before the
      loop, at most one allocation of `value_gid_`, one eval per iteration,
      into the backup buffer, and no `true` answer but the last. */
  predicate DriverInv(c: Cell) {
    && (BeforeLoop(c.driver) ==>
          c.allocLog == [] && c.backup == Invalid && c.evals == [] && c.swaps == 0 && !c.freeValue)
    && (!BeforeLoop(c.driver) ==> |c.allocLog| == (if c.freeValue then 2 else 1))
    && (c.freeValue ==> c.swaps > 0)
    && (!BeforeLoop(c.driver) && c.driver != DrvFreeValue && c.driver != Terminated ==> c.backup != Invalid)
    && (c.driver == DrvFreeValue || c.driver == Terminated ==> c.backup == Invalid)
    && |c.evals| == c.swaps + (if Evaluating(c.driver) then 1 else 0)
    && (forall k :: 0 <= k < |c.evals| ==> GoodEval(c, c.evals[k]))
    && (forall k :: 0 <= k < |c.evals| - 1 ==> !c.evals[k].isLast)
    && ((c.driver == DrvLoopTop || c.driver == DrvFetching) && |c.evals| > 0 ==> !c.evals[|c.evals| - 1].isLast)
    && (!BeforeLoop(c.driver) && c.swaps == 0 ==> |c.allocLog| > 0 && c.backup == c.allocLog[0])
    && (|c.evals| > 0 ==> |c.allocLog| > 0 && c.evals[0].out == c.allocLog[0])
    && (Evaluating(c.driver) ==>
          c.evals[|c.evals| - 1].isLast == c.driver.isLast && c.evals[|c.evals| - 1].out == c.backup)
    && (AfterLoop(c.driver) ==> |c.evals| > 0 && c.evals[|c.evals| - 1].isLast)
  }

  /** What `value_gid_` holds in each phase. */
  predicate ValueInv(c: Cell)
    requires DriverInv(c)
  {
    && (!c.seeded && c.swaps == 0 ==> c.value == Invalid)
    && (c.seeded && c.swaps == 0 ==> c.value == c.seed)
    && (c.swaps > 0 && !(c.driver == Terminated && c.freeValue) && !c.call.CallReturned? ==>
          c.value == c.evals[c.swaps - 1].out)
    && (c.driver == Terminated && c.freeValue && !c.seeded ==> c.value == Invalid)
    && (c.driver == Terminated && c.freeValue && c.call == CallAwaitResult ==> c.value == c.seed)
    && (c.seeded && c.freeValue && c.driver != Terminated ==> c.seed == Invalid)
    && (!c.seeded && c.swaps > 0 ==> c.freeValue)
    && (c.call.CallReturned? ==> c.value == Invalid)
  }

  /** Until the driver has finished, every reader between its wait and its
      signal has read the value that is still current. */
  predicate ReaderInv(c: Cell) {
    !Finished(c.driver) ==>
      forall i :: 0 <= i < |c.readers| && c.readers[i].ReaderHolds? ==> c.readers[i].got == c.value
  }

  /** A known buffer is in a slot, freed, or handed back by `call`. */
  predicate Accounted(c: Cell, id: Id) {
    id == Invalid || id == c.value || id == c.backup || id in c.freeLog || c.call == CallReturned(id)
  }

  /** Buffer ownership: the two slots never alias, nothing live has been
      freed, nothing is freed twice, and no buffer is lost. */
  predicate OwnershipInv(c: Cell) {
    && (c.value != Invalid && c.backup != Invalid ==> c.value != c.backup)
    && Known(c, c.value) && Known(c, c.backup)
    && (forall k :: 0 <= k < |c.freeLog| ==> Known(c, c.freeLog[k]))
    && (forall k :: 0 <= k < |c.freeLog| && c.freeLog[k] != Invalid ==>
          c.freeLog[k] != c.value && c.freeLog[k] != c.backup)
    && NoDoubleFree(c.freeLog)
    && (forall k :: 0 <= k < |c.allocLog| ==> c.allocLog[k] != Invalid)
    && (forall j, k :: 0 <= j < k < |c.allocLog| ==> c.allocLog[j] != c.allocLog[k])
    && (c.call.CallReturned? ==> Known(c, c.call.result))
    && (c.call.CallReturned? && c.call.result != Invalid ==>
          c.call.result !in c.freeLog && c.call.result != c.backup)
    && (forall k :: 0 <= k < |c.allocLog| ==> Accounted(c, c.allocLog[k]))
    && (c.seeded ==> Accounted(c, c.seed))
  }

  predicate Inv(c: Cell) {
    && WellFormed(c)
    && WiringInv(c)
    && PermitInv(c)
    && ResultInv(c)
    && DriverInv(c)
    && ValueInv(c)
    && ReaderInv(c)
    && OwnershipInv(c)
  }

  // ---------------------------------------------------------------------
  // Initiation and consecution

  /** The constructor establishes the invariant: `sem_in_` holds the N
      permits and nothing else has happened. */
  lemma NewCellInv(n: nat, outGids: seq<Id>)
    requires n > 0 && |outGids| == n
    ensures Inv(NewCell(n, outGids))
    ensures NewCell(n, outGids).semIn == n
  {
    HoldingAllIdle(n);
  }

  /** The fields the driver's history and `value_gid_` depend on. */
  predicate SameHistory(c: Cell, d: Cell) {
    && d.n == c.n && d.driver == c.driver && d.allocLog == c.allocLog && d.evals == c.evals
    && d.swaps == c.swaps && d.freeValue == c.freeValue && d.value == c.value && d.backup == c.backup
    && d.seeded == c.seeded && d.seed == c.seed && d.call == c.call
  }

  /** A step that leaves the history alone keeps its two invariant parts. */
  lemma HistoryFrame(c: Cell, d: Cell)
    requires DriverInv(c) && ValueInv(c) && SameHistory(c, d)
    ensures DriverInv(d) && ValueInv(d)
  {
    assert forall k :: 0 <= k < |d.evals| ==> GoodEval(c, c.evals[k]) == GoodEval(d, d.evals[k]);
  }

  /** A wiring call changes the input bindings, the functional component
      reference and perhaps spawns the driver; the first two appear in no
      part of the invariant but the wiring. */
  predicate Rewired(c: Cell, d: Cell) {
    && d == c.(inPorts := d.inPorts, functional := d.functional, driver := d.driver, spawns := d.spawns)
    && (d.driver == c.driver || (c.driver == NoDriver && d.driver == DrvStart))
  }

  lemma RewiredCounters(c: Cell, d: Cell)
    requires Inv(c) && WellFormed(d) && WiringInv(d) && Rewired(c, d)
    ensures PermitInv(d) && ResultInv(d) && ReaderInv(d)
  {
    assert Holding(d.readers) == Holding(c.readers);
  }

  lemma RewiredHistory(c: Cell, d: Cell)
    requires Inv(c) && WellFormed(d) && WiringInv(d) && Rewired(c, d)
    ensures DriverInv(d) && ValueInv(d)
  {
    assert forall k :: 0 <= k < |d.evals| ==> GoodEval(c, c.evals[k]) == GoodEval(d, d.evals[k]);
  }

  lemma RewiredOwnership(c: Cell, d: Cell)
    requires Inv(c) && WellFormed(d) && WiringInv(d) && Rewired(c, d)
    ensures OwnershipInv(d)
  {
  }

  lemma ConnectPreserves(c: Cell, gids: seq<Id>)
    requires Inv(c)
    ensures Inv(Apply(c, Connect(gids)))
  {
    if |gids| >= c.n {
      var d := ConnectInputPorts(c, gids).value;
      assert Rewired(c, d);
      RewiredCounters(c, d);
      RewiredHistory(c, d);
      RewiredOwnership(c, d);
    }
  }

  lemma SetFunctionalPreserves(c: Cell, gid: Id)
    requires Inv(c)
    ensures Inv(Apply(c, SetFunctional(gid)))
  {
    var d := SetFunctionalComponent(c, gid);
    assert Rewired(c, d);
    RewiredCounters(c, d);
    RewiredHistory(c, d);
    RewiredOwnership(c, d);
  }

  lemma CallAcquireFrame(c: Cell)
    requires Inv(c) && Enabled(c, CallAcquireStep)
    ensures var d := CallAcquire(c); WellFormed(d) && WiringInv(d) && PermitInv(d) && ResultInv(d)
  {
  }

  lemma CallAcquireDriver(c: Cell)
    requires Inv(c) && Enabled(c, CallAcquireStep)
    ensures var d := CallAcquire(c); DriverInv(d)
  {
  }

  lemma CallAcquireValue(c: Cell)
    requires Inv(c) && Enabled(c, CallAcquireStep)
    ensures var d := CallAcquire(c); DriverInv(d) ==> ValueInv(d)
  {
  }

  lemma CallAcquireOwner(c: Cell)
    requires Inv(c) && Enabled(c, CallAcquireStep)
    ensures var d := CallAcquire(c); ReaderInv(d) && OwnershipInv(d)
  {
  }

  lemma CallAcquirePreserves(c: Cell)
    requires Inv(c) && Enabled(c, CallAcquireStep)
    ensures Inv(Apply(c, CallAcquireStep))
  {
    CallAcquireFrame(c);
    CallAcquireDriver(c);
    CallAcquireValue(c);
    CallAcquireOwner(c);
  }
  lemma CallPublishPreserves(c: Cell, initial: Id)
    requires Inv(c) && Enabled(c, CallPublishStep(initial))
    ensures Inv(Apply(c, CallPublishStep(initial)))
  {
    HoldingZero(c.readers);
  }

  lemma CallReturnFrame(c: Cell)
    requires Inv(c) && Enabled(c, CallReturnStep)
    ensures var d := CallReturn(c); WellFormed(d) && WiringInv(d) && PermitInv(d) && ResultInv(d)
  {
  }

  lemma CallReturnDriver(c: Cell)
    requires Inv(c) && Enabled(c, CallReturnStep)
    ensures var d := CallReturn(c); DriverInv(d)
  {
  }

  lemma CallReturnValue(c: Cell)
    requires Inv(c) && Enabled(c, CallReturnStep)
    ensures var d := CallReturn(c); DriverInv(d) ==> ValueInv(d)
  {
  }

  lemma CallReturnOwner(c: Cell)
    requires Inv(c) && Enabled(c, CallReturnStep)
    ensures var d := CallReturn(c); ReaderInv(d) && OwnershipInv(d)
  {
  }

  lemma CallReturnPreserves(c: Cell)
    requires Inv(c) && Enabled(c, CallReturnStep)
    ensures Inv(Apply(c, CallReturnStep))
  {
    CallReturnFrame(c);
    CallReturnDriver(c);
    CallReturnValue(c);
    CallReturnOwner(c);
  }
  lemma DriverAllocPreserves(c: Cell, newId: Id)
    requires Inv(c) && Enabled(c, DriverAllocStep(newId))
    ensures Inv(Apply(c, DriverAllocStep(newId)))
  {
  }

  lemma DriverEvalFrame(c: Cell, fetch: (nat, Id) -> Id, isLast: bool)
    requires Inv(c) && Enabled(c, DriverEvalStep(fetch, isLast))
    ensures var d := DriverEval(c, fetch, isLast); WellFormed(d) && WiringInv(d) && PermitInv(d) && ResultInv(d)
  {
  }

  lemma DriverCheckPreserves(c: Cell)
    requires Inv(c) && Enabled(c, DriverCheckStep)
    ensures Inv(Apply(c, DriverCheckStep))
  {
  }

  /** Recording one more well-formed `eval` into the backup buffer starts
      an iteration in the shape the driver invariant expects. */
  lemma EvalRecorded(c: Cell, e: EvalCall)
    requires DriverInv(c) && c.driver == DrvFetching && c.backup != Invalid
    requires GoodEval(c, e) && e.out == c.backup
    ensures DriverInv(c.(evals := c.evals + [e], driver := DrvEvaluated(e.isLast)))
  {
    var d := c.(evals := c.evals + [e], driver := DrvEvaluated(e.isLast));
    assert forall k :: 0 <= k < |c.evals| ==> d.evals[k] == c.evals[k];
  }

  lemma DriverEvalDriver(c: Cell, fetch: (nat, Id) -> Id, isLast: bool)
    requires Inv(c) && Enabled(c, DriverEvalStep(fetch, isLast))
    ensures var d := DriverEval(c, fetch, isLast); DriverInv(d)
  {
    var e := EvalCall(c.functional, c.backup, Gather(c.inPorts, fetch), isLast);
    EvalRecorded(c, e);
  }

  lemma DriverEvalValue(c: Cell, fetch: (nat, Id) -> Id, isLast: bool)
    requires Inv(c) && Enabled(c, DriverEvalStep(fetch, isLast))
    ensures var d := DriverEval(c, fetch, isLast); DriverInv(d) ==> ValueInv(d)
  {
  }

  lemma DriverEvalOwner(c: Cell, fetch: (nat, Id) -> Id, isLast: bool)
    requires Inv(c) && Enabled(c, DriverEvalStep(fetch, isLast))
    ensures var d := DriverEval(c, fetch, isLast); ReaderInv(d) && OwnershipInv(d)
  {
  }

  lemma DriverEvalPreserves(c: Cell, fetch: (nat, Id) -> Id, isLast: bool)
    requires Inv(c) && Enabled(c, DriverEvalStep(fetch, isLast))
    ensures Inv(Apply(c, DriverEvalStep(fetch, isLast)))
  {
    DriverEvalFrame(c, fetch, isLast);
    DriverEvalDriver(c, fetch, isLast);
    DriverEvalValue(c, fetch, isLast);
    DriverEvalOwner(c, fetch, isLast);
  }

  lemma DriverAcquirePreserves(c: Cell)
    requires Inv(c) && Enabled(c, DriverAcquireStep)
    ensures Inv(Apply(c, DriverAcquireStep))
  {
  }

  lemma DriverPublishFrame(c: Cell, newId: Id)
    requires Inv(c) && Enabled(c, DriverPublishStep(newId))
    ensures var d := DriverPublish(c, newId); WellFormed(d) && WiringInv(d) && PermitInv(d) && ResultInv(d)
  {
    HoldingZero(c.readers);
  }

  lemma DriverPublishDriver(c: Cell, newId: Id)
    requires Inv(c) && Enabled(c, DriverPublishStep(newId))
    ensures var d := DriverPublish(c, newId); DriverInv(d)
  {
    var d := DriverPublish(c, newId);
    assert d.evals == c.evals && d.swaps == c.swaps + 1 && d.backup == (if c.value == Invalid then newId else c.value);
    if c.value == Invalid {
      assert d.allocLog == c.allocLog + [newId] && d.freeValue;
    } else {
      assert d.allocLog == c.allocLog && d.freeValue == c.freeValue;
    }
  }

  lemma DriverPublishValue(c: Cell, newId: Id)
    requires Inv(c) && Enabled(c, DriverPublishStep(newId))
    ensures var d := DriverPublish(c, newId); DriverInv(d) ==> ValueInv(d)
  {
  }

  lemma DriverPublishOwner(c: Cell, newId: Id)
    requires Inv(c) && Enabled(c, DriverPublishStep(newId))
    ensures var d := DriverPublish(c, newId); ReaderInv(d) && OwnershipInv(d)
  {
    HoldingZero(c.readers);
    var d := DriverPublish(c, newId);
    assert d.freeLog == c.freeLog && d.call == c.call && d.seeded == c.seeded && d.seed == c.seed;
    if c.value == Invalid {
      assert d.value == c.backup && d.backup == newId && d.allocLog == c.allocLog + [newId];
      assert forall id :: Known(c, id) ==> Known(d, id);
    } else {
      assert d.value == c.backup && d.backup == c.value && d.allocLog == c.allocLog;
    }
  }

  lemma DriverPublishPreserves(c: Cell, newId: Id)
    requires Inv(c) && Enabled(c, DriverPublishStep(newId))
    ensures Inv(Apply(c, DriverPublishStep(newId)))
  {
    DriverPublishFrame(c, newId);
    DriverPublishDriver(c, newId);
    DriverPublishValue(c, newId);
    DriverPublishOwner(c, newId);
  }
  lemma DriverSignalResultFrame(c: Cell)
    requires Inv(c) && Enabled(c, DriverSignalResultStep)
    ensures var d := DriverSignalResult(c); WellFormed(d) && WiringInv(d) && PermitInv(d) && ResultInv(d)
  {
  }

  lemma DriverSignalResultDriver(c: Cell)
    requires Inv(c) && Enabled(c, DriverSignalResultStep)
    ensures var d := DriverSignalResult(c); DriverInv(d)
  {
  }

  lemma DriverSignalResultValue(c: Cell)
    requires Inv(c) && Enabled(c, DriverSignalResultStep)
    ensures var d := DriverSignalResult(c); DriverInv(d) ==> ValueInv(d)
  {
  }

  lemma DriverSignalResultOwner(c: Cell)
    requires Inv(c) && Enabled(c, DriverSignalResultStep)
    ensures var d := DriverSignalResult(c); ReaderInv(d) && OwnershipInv(d)
  {
  }

  lemma DriverSignalResultPreserves(c: Cell)
    requires Inv(c) && Enabled(c, DriverSignalResultStep)
    ensures Inv(Apply(c, DriverSignalResultStep))
  {
    DriverSignalResultFrame(c);
    DriverSignalResultDriver(c);
    DriverSignalResultValue(c);
    DriverSignalResultOwner(c);
  }
  lemma DriverFreeBackupFrame(c: Cell)
    requires Inv(c) && Enabled(c, DriverFreeBackupStep)
    ensures var d := DriverFreeBackup(c); WellFormed(d) && WiringInv(d) && PermitInv(d) && ResultInv(d)
  {
  }

  lemma DriverFreeBackupDriver(c: Cell)
    requires Inv(c) && Enabled(c, DriverFreeBackupStep)
    ensures var d := DriverFreeBackup(c); DriverInv(d) && ValueInv(d)
  {
  }

  lemma DriverFreeBackupOwner(c: Cell)
    requires Inv(c) && Enabled(c, DriverFreeBackupStep)
    ensures var d := DriverFreeBackup(c); ReaderInv(d) && OwnershipInv(d)
  {
  }

  lemma DriverFreeBackupPreserves(c: Cell)
    requires Inv(c) && Enabled(c, DriverFreeBackupStep)
    ensures Inv(Apply(c, DriverFreeBackupStep))
  {
    DriverFreeBackupFrame(c);
    DriverFreeBackupDriver(c);
    DriverFreeBackupOwner(c);
  }

  lemma DriverFreeValueFrame(c: Cell)
    requires Inv(c) && Enabled(c, DriverFreeValueStep)
    ensures var d := DriverFreeValue(c); WellFormed(d) && WiringInv(d) && PermitInv(d) && ResultInv(d)
  {
  }

  lemma DriverFreeValueDriver(c: Cell)
    requires Inv(c) && Enabled(c, DriverFreeValueStep)
    ensures var d := DriverFreeValue(c); DriverInv(d) && ValueInv(d)
  {
  }

  lemma DriverFreeValueOwner(c: Cell)
    requires Inv(c) && Enabled(c, DriverFreeValueStep)
    ensures var d := DriverFreeValue(c); ReaderInv(d) && OwnershipInv(d)
  {
  }

  lemma DriverFreeValuePreserves(c: Cell)
    requires Inv(c) && Enabled(c, DriverFreeValueStep)
    ensures Inv(Apply(c, DriverFreeValueStep))
  {
    DriverFreeValueFrame(c);
    DriverFreeValueDriver(c);
    DriverFreeValueOwner(c);
  }

  lemma ReaderAcquireFrame(c: Cell, i: nat)
    requires Inv(c) && Enabled(c, ReaderAcquireStep(i))
    ensures var d := ReaderAcquire(c, i); WellFormed(d) && WiringInv(d) && PermitInv(d) && ResultInv(d)
  {
    HoldingUpdate(c.readers, i, ReaderHolds(c.value));
  }

  lemma ReaderAcquireDriver(c: Cell, i: nat)
    requires Inv(c) && Enabled(c, ReaderAcquireStep(i))
    ensures var d := ReaderAcquire(c, i); DriverInv(d)
  {
    HistoryFrame(c, ReaderAcquire(c, i));
  }

  lemma ReaderAcquireValue(c: Cell, i: nat)
    requires Inv(c) && Enabled(c, ReaderAcquireStep(i))
    ensures var d := ReaderAcquire(c, i); DriverInv(d) ==> ValueInv(d)
  {
    HistoryFrame(c, ReaderAcquire(c, i));
  }

  lemma ReaderAcquireOwner(c: Cell, i: nat)
    requires Inv(c) && Enabled(c, ReaderAcquireStep(i))
    ensures var d := ReaderAcquire(c, i); ReaderInv(d) && OwnershipInv(d)
  {
    HoldingUpdate(c.readers, i, ReaderHolds(c.value));
  }

  lemma ReaderAcquirePreserves(c: Cell, i: nat)
    requires Inv(c) && Enabled(c, ReaderAcquireStep(i))
    ensures Inv(Apply(c, ReaderAcquireStep(i)))
  {
    ReaderAcquireFrame(c, i);
    ReaderAcquireDriver(c, i);
    ReaderAcquireValue(c, i);
    ReaderAcquireOwner(c, i);
  }

  lemma ReaderReleaseFrame(c: Cell, i: nat)
    requires Inv(c) && Enabled(c, ReaderReleaseStep(i))
    ensures var d := ReaderRelease(c, i); WellFormed(d) && WiringInv(d) && PermitInv(d) && ResultInv(d)
  {
    HoldingUpdate(c.readers, i, ReaderIdle);
  }

  lemma ReaderReleaseDriver(c: Cell, i: nat)
    requires Inv(c) && Enabled(c, ReaderReleaseStep(i))
    ensures var d := ReaderRelease(c, i); DriverInv(d)
  {
    HistoryFrame(c, ReaderRelease(c, i));
  }

  lemma ReaderReleaseValue(c: Cell, i: nat)
    requires Inv(c) && Enabled(c, ReaderReleaseStep(i))
    ensures var d := ReaderRelease(c, i); DriverInv(d) ==> ValueInv(d)
  {
    HistoryFrame(c, ReaderRelease(c, i));
  }

  lemma ReaderReleaseOwner(c: Cell, i: nat)
    requires Inv(c) && Enabled(c, ReaderReleaseStep(i))
    ensures var d := ReaderRelease(c, i); ReaderInv(d) && OwnershipInv(d)
  {
    HoldingUpdate(c.readers, i, ReaderIdle);
  }

  lemma ReaderReleasePreserves(c: Cell, i: nat)
    requires Inv(c) && Enabled(c, ReaderReleaseStep(i))
    ensures Inv(Apply(c, ReaderReleaseStep(i)))
  {
    ReaderReleaseFrame(c, i);
    ReaderReleaseDriver(c, i);
    ReaderReleaseValue(c, i);
    ReaderReleaseOwner(c, i);
  }

  /** Every enabled action preserves the invariant. */
  lemma InvStep(c: Cell, a: Action)
    requires Inv(c) && Enabled(c, a)
    ensures Inv(Apply(c, a))
  {
    match a
    case Connect(gids) => ConnectPreserves(c, gids);
    case SetFunctional(gid) => SetFunctionalPreserves(c, gid);
    case CallAcquireStep => CallAcquirePreserves(c);
    case CallPublishStep(initial) => CallPublishPreserves(c, initial);
    case CallReturnStep => CallReturnPreserves(c);
    case DriverAllocStep(newId) => DriverAllocPreserves(c, newId);
    case DriverCheckStep => DriverCheckPreserves(c);
    case DriverEvalStep(fetch, isLast) => DriverEvalPreserves(c, fetch, isLast);
    case DriverAcquireStep => DriverAcquirePreserves(c);
    case DriverPublishStep(newId) => DriverPublishPreserves(c, newId);
    case DriverSignalResultStep => DriverSignalResultPreserves(c);
    case DriverFreeBackupStep => DriverFreeBackupPreserves(c);
    case DriverFreeValueStep => DriverFreeValuePreserves(c);
    case ReaderAcquireStep(i) => ReaderAcquirePreserves(c, i);
    case ReaderReleaseStep(i) => ReaderReleasePreserves(c, i);
  }

  /** Every state a run reaches satisfies the invariant. */
  lemma {:induction false} RunPreservesInv(c: Cell, trace: seq<Action>)
    requires Inv(c)
    ensures Run(c, trace).Some? ==> Inv(Run(c, trace).value)
    decreases |trace|
  {
    if trace != [] && Enabled(c, trace[0]) {
      InvStep(c, trace[0]);
      RunPreservesInv(Apply(c, trace[0]), trace[1..]);
    }
  }

  /** A state some run of the cell reaches from its constructor. */
  ghost predicate Reachable(c: Cell) {
    exists n: nat, outGids: seq<Id>, trace: seq<Action> ::
      n > 0 && |outGids| == n && Run(NewCell(n, outGids), trace) == Some(c)
  }

  lemma ReachableInv(c: Cell)
    requires Reachable(c)
    ensures Inv(c)
  {
    var n: nat, outGids: seq<Id>, trace: seq<Action> :|
      n > 0 && |outGids| == n && Run(NewCell(n, outGids), trace) == Some(c);
    NewCellInv(n, outGids);
    RunPreservesInv(NewCell(n, outGids), trace);
  }

  lemma {:induction false} RunSnoc(c: Cell, trace: seq<Action>, a: Action)
    requires Run(c, trace).Some? && Enabled(Run(c, trace).value, a)
    ensures Run(c, trace + [a]) == Some(Apply(Run(c, trace).value, a))
    decreases |trace|
  {
    if trace == [] {
      assert [] + [a] == [a];
      assert [a][1..] == [];
    } else {
      assert (trace + [a])[0] == trace[0];
      assert (trace + [a])[1..] == trace[1..] + [a];
      RunSnoc(Apply(c, trace[0]), trace[1..], a);
    }
  }

  /** The constructor's cell is reachable, and so is every state an enabled
      action leads to from a reachable one. */
  lemma NewCellReachable(n: nat, outGids: seq<Id>)
    requires n > 0 && |outGids| == n
    ensures Reachable(NewCell(n, outGids))
  {
    assert Run(NewCell(n, outGids), []) == Some(NewCell(n, outGids));
  }

  lemma ReachableStep(c: Cell, a: Action)
    requires Reachable(c) && Enabled(c, a)
    ensures Reachable(Apply(c, a))
  {
    var n: nat, outGids: seq<Id>, trace: seq<Action> :|
      n > 0 && |outGids| == n && Run(NewCell(n, outGids), trace) == Some(c);
    RunSnoc(NewCell(n, outGids), trace, a);
    assert Run(NewCell(n, outGids), trace + [a]) == Some(Apply(c, a));
  }
}
