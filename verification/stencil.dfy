/** One cell of the AMR dataflow graph, `stencil_value<N>`, as a transition
    system. The cell is an immutable record; every operation of the C++ class
    is split at its blocking points into atomic steps, each a function guarded
    by the condition under which it can run:

    - a blocking `sem.wait(k)` is a guard `count >= k` followed by `count - k`;
    - `sem.signal(k)` is `count + k`;
    - a `BOOST_ASSERT` is a guard as well: a step whose assertion would fail
      cannot be taken;
    - the remote collaborators (`alloc_data`, `free_data`, `eval`, the input
      adaptors' `get`) are oracles passed in as step parameters, and their
      effects are recorded in history fields (`allocLog`, `freeLog`, `evals`).

    Two stretches are one step each: the N blocking gets of `eval_helper`
    together with `eval`, and the driver's allocate-swap-publish while it
    holds the N permits of `sem_in_`.

    The history fields and the counters `swaps`, `readsThisRound` and
    `resultSignals` have no counterpart in the class; they exist so that the
    protocol's promises can be stated. */
module Stencil {
  import opened Naming
  import opened Ports

  /** Where the single `call` invocation stands. */
  datatype CallPc =
    | CallIdle                 // not yet past `sem_in_.wait(N)`
    | CallHoldsIn              // holds the N permits, before the publish
    | CallAwaitResult          // published `initial`, blocked on `sem_result_`
    | CallReturned(result: Id) // returned `*result`

  /** Where the driver thread (`main`) stands. `NoDriver` is
      `driver_thread_ == 0`; every other value means a thread was registered,
      including `Terminated` (the handle stays non-zero). */
  datatype DriverPc =
    | NoDriver
    | DrvStart                     // spawned, before allocating the backup
    | DrvLoopTop                   // top of the `while (!is_last)` loop
    | DrvFetching                  // past the two assertions, in the inputs' `get`
    | DrvEvaluated(isLast: bool)   // `eval` returned, blocked on `sem_in_`
    | DrvHoldsIn(isLast: bool)     // holds the N permits, before the swap
    | DrvExit                      // left the loop, before `sem_result_.signal`
    | DrvFreeBackup                // before `free_helper(backup_value_gid_)`
    | DrvFreeValue                 // before the conditional free of `value_gid_`
    | Terminated

  /** A reader is one `get_value` invocation coming from an output adaptor. */
  datatype ReaderPc = ReaderIdle | ReaderHolds(got: Id)

  /** One call of the evaluator: the functional component asked, the buffer
      written, the inputs handed over and the "last time step" answer. */
  datatype EvalCall = EvalCall(functional: Id, out: Id, inputs: seq<Id>, isLast: bool)

  datatype Cell = Cell(
    n: nat,
    outPorts: seq<Id>,        // the output adaptors' own references
    inPorts: seq<InPort>,
    functional: Id,           // functional_gid_
    driver: DriverPc,
    spawns: nat,              // how often register_work has been called
    semIn: nat,               // sem_in_
    semOut: nat,              // sem_out_
    semResult: nat,           // sem_result_
    value: Id,                // value_gid_
    backup: Id,               // backup_value_gid_
    freeValue: bool,          // main's local free_value_gid
    call: CallPc,
    readers: seq<ReaderPc>,
    seeded: bool,             // call has published its initial value ...
    seed: Id,                 // ... which was this reference
    allocLog: seq<Id>,        // every reference alloc_data returned, in order
    freeLog: seq<Id>,         // every reference handed to free_data, in order
    evals: seq<EvalCall>,     // every eval call, in order
    swaps: nat,               // completed swap-and-publish steps of the driver
    readsThisRound: nat,      // get_value completions since the last publish
    resultSignals: nat        // sem_result_.signal calls
  )

  predicate WellFormed(c: Cell) {
    && c.n > 0
    && |c.outPorts| == c.n
    && |c.inPorts| == c.n
    && |c.readers| == c.n
  }

  /** The constructor: N unbound input adaptors, N output adaptors with the
      references `outGids`, `sem_in_(N)`, `sem_out_(0)`, `sem_result_(0)`,
      every reference slot invalid and no driver thread. */
  function NewCell(n: nat, outGids: seq<Id>): (c: Cell)
    requires n > 0 && |outGids| == n
    ensures WellFormed(c)
  {
    Cell(n, outGids, seq(n, _ => Unbound), Invalid, NoDriver, 0,
         n, 0, 0, Invalid, Invalid, false, CallIdle, seq(n, _ => ReaderIdle),
         false, Invalid, [], [], [], 0, 0, 0)
  }

  // ---------------------------------------------------------------------
  // Wiring

  /** The driver is registered when `ready` holds and no driver exists yet.
      In the class this test of `driver_thread_` is a plain read followed by
      a plain write; "at most one driver" holds here only because each wiring
      call is one atomic step of the model. */
  function MaybeSpawn(c: Cell, ready: bool): Cell {
    if ready && c.driver == NoDriver then c.(driver := DrvStart, spawns := c.spawns + 1)
    else c
  }

  /** `get_output_ports`: the result vector is cleared and receives the
      reference of every output adaptor, in index order. Because of the
      clear, the result does not depend on what the caller's vector held, so
      the model starts from the empty sequence. */
  method GetOutputPorts(c: Cell) returns (r: seq<Id>)
    requires WellFormed(c)
    ensures |r| == c.n
    ensures forall i :: 0 <= i < c.n ==> r[i] == c.outPorts[i]
  {
    r := [];
    var i := 0;
    while i < c.n
      invariant 0 <= i <= c.n
      invariant |r| == i
      invariant forall j :: 0 <= j < i ==> r[j] == c.outPorts[j]
    {
      r := r + [c.outPorts[i]];
      i := i + 1;
    }
  }

  /** `connect_input_ports`: fewer than N references is a `bad_parameter`
      error that leaves the cell as it was; otherwise input `i` is bound to
      `gids[i]` and, when the functional component is already set, the driver
      is spawned unless one exists. */
  function ConnectInputPorts(c: Cell, gids: seq<Id>): (r: Result<Cell>)
    requires WellFormed(c)
    ensures r.Err? <==> |gids| < c.n
    ensures r.Err? ==> r.error == BadParameter
    ensures r.Ok? ==> WellFormed(r.value)
    ensures r.Ok? ==> |gids| >= c.n && |r.value.inPorts| == c.n && forall i :: 0 <= i < c.n ==> r.value.inPorts[i] == InPort(true, gids[i])
    ensures r.Ok? ==> AllBound(r.value.inPorts)
    ensures r.Ok? ==> (r.value.driver != c.driver <==> c.functional != Invalid && c.driver == NoDriver)
    ensures r.Ok? && c.functional != Invalid && c.driver == NoDriver ==>
              r.value.driver == DrvStart && r.value.spawns == c.spawns + 1
    ensures r.Ok? && !(c.functional != Invalid && c.driver == NoDriver) ==>
              r.value.driver == c.driver && r.value.spawns == c.spawns
    ensures r.Ok? ==> r.value == c.(inPorts := r.value.inPorts, driver := r.value.driver, spawns := r.value.spawns)
  {
    if |gids| < c.n then Err(BadParameter)
    else
      var bound := c.(inPorts := ConnectAll(c.inPorts, gids));
      Ok(MaybeSpawn(bound, bound.functional != Invalid))
  }

  /** `set_functional_component`: the reference is stored unconditionally,
      and the driver is spawned when every input is already bound and no
      driver exists. The validity of `gid` is not checked. */
  function SetFunctionalComponent(c: Cell, gid: Id): (r: Cell)
    requires WellFormed(c)
    ensures WellFormed(r)
    ensures r.functional == gid
    ensures r.driver != c.driver <==> AllBound(c.inPorts) && c.driver == NoDriver
    ensures AllBound(c.inPorts) && c.driver == NoDriver ==> r.driver == DrvStart && r.spawns == c.spawns + 1
    ensures !(AllBound(c.inPorts) && c.driver == NoDriver) ==> r.driver == c.driver && r.spawns == c.spawns
    ensures r == c.(functional := gid, driver := r.driver, spawns := r.spawns)
  {
    MaybeSpawn(c.(functional := gid), AllBound(c.inPorts))
  }

  // ---------------------------------------------------------------------
  // Buffer ownership

  /** A reference the cell already knows: invalid, returned by `alloc_data`,
      or the initial value `call` supplied. */
  predicate Known(c: Cell, id: Id) {
    id == Invalid || id in c.allocLog || (c.seeded && id == c.seed)
  }

  /** What the `alloc_data` oracle promises: a valid reference distinct from
      every reference live in or known to the cell. */
  predicate Fresh(c: Cell, id: Id) {
    !Known(c, id)
  }

  /** No valid reference occurs twice in a free log. */
  predicate NoDoubleFree(log: seq<Id>) {
    forall j, k :: 0 <= j < k < |log| && log[j] != Invalid ==> log[j] != log[k]
  }

  /** `free_helper`: hand `slot` to `free_data`, then reset the slot. */
  datatype Freed = Freed(log: seq<Id>, slot: Id)

  /** Freeing a reference that is invalid or not yet freed keeps the log free
      of double frees; the slot no longer refers to the buffer. */
  function FreeHelper(log: seq<Id>, slot: Id): (r: Freed)
    ensures r.slot == Invalid && slot in r.log
    ensures NoDoubleFree(log) && (slot == Invalid || slot !in log) ==> NoDoubleFree(r.log)
  {
    Freed(log + [slot], Invalid)
  }

  // ---------------------------------------------------------------------
  // call

  /** `sem_in_.wait(N)` at the start of `call`. */
  function CallAcquire(c: Cell): Cell
    requires c.call == CallIdle && c.semIn >= c.n
  {
    c.(semIn := c.semIn - c.n, call := CallHoldsIn)
  }

  /** The assertion that `value_gid_` is still invalid, the store of
      `initial`, and `sem_out_.signal(N)`. The seed must not be a buffer the
      cell allocated itself. */
  function CallPublish(c: Cell, initial: Id): Cell
    requires c.call == CallHoldsIn && c.value == Invalid && initial !in c.allocLog
  {
    c.(value := initial, semOut := c.semOut + c.n, readsThisRound := 0,
       call := CallAwaitResult, seeded := true, seed := initial)
  }

  /** `sem_result_.wait(1)`, then the current value is returned and
      `value_gid_` is reset. */
  function CallReturn(c: Cell): Cell
    requires c.call == CallAwaitResult && c.semResult >= 1
  {
    c.(semResult := c.semResult - 1, call := CallReturned(c.value), value := Invalid)
  }

  // ---------------------------------------------------------------------
  // main, the driver thread

  /** `backup_value_gid_ = alloc_helper(...)` before the loop. */
  function DriverAlloc(c: Cell, newId: Id): Cell
    requires c.driver == DrvStart && Fresh(c, newId)
  {
    c.(backup := newId, allocLog := c.allocLog + [newId], driver := DrvLoopTop)
  }

  /** The `aquire_value` calls (no effect visible to the cell) and the two
      assertions that the functional component and the backup buffer are
      valid. */
  function DriverCheck(c: Cell): Cell
    requires c.driver == DrvLoopTop && c.functional != Invalid && c.backup != Invalid
  {
    c.(driver := DrvFetching)
  }

  /** `eval_helper<N>::call`: the blocking `get` on every input port, then
      `eval` writing into the backup buffer. `eval_helper` holds
      `functional_gid_` by reference and reads it only after the gets, so the
      reference recorded is the one current now, which a wiring call made
      during the gets may have changed since the assertion, even to the
      invalid reference. */
  function DriverEval(c: Cell, fetch: (nat, Id) -> Id, isLast: bool): Cell
    requires c.driver == DrvFetching
  {
    c.(evals := c.evals + [EvalCall(c.functional, c.backup, Gather(c.inPorts, fetch), isLast)],
       driver := DrvEvaluated(isLast))
  }

  /** `sem_in_.wait(N)` inside the loop. */
  function DriverAcquire(c: Cell): Cell
    requires c.driver.DrvEvaluated? && c.semIn >= c.n
  {
    c.(semIn := c.semIn - c.n, driver := DrvHoldsIn(c.driver.isLast))
  }

  /** Allocation of `value_gid_` when it is invalid (setting
      `free_value_gid`), the swap of the two slots and `sem_out_.signal(N)`.
      While the driver holds the N permits nothing else can touch the slots,
      so one atomic step covers the whole sequence. The loop is left when the
      last `eval` answered true. */
  function DriverPublish(c: Cell, newId: Id): Cell
    requires c.driver.DrvHoldsIn? && (c.value == Invalid ==> Fresh(c, newId))
  {
    var c1 :=
      if c.value == Invalid then c.(value := newId, allocLog := c.allocLog + [newId], freeValue := true)
      else c;
    c1.(value := c1.backup, backup := c1.value,
        semOut := c1.semOut + c1.n, readsThisRound := 0, swaps := c1.swaps + 1,
        driver := if c.driver.isLast then DrvExit else DrvLoopTop)
  }

  /** `sem_result_.signal(1)` after the loop. */
  function DriverSignalResult(c: Cell): Cell
    requires c.driver == DrvExit
  {
    c.(semResult := c.semResult + 1, resultSignals := c.resultSignals + 1, driver := DrvFreeBackup)
  }

  /** `free_helper(appl, functional_gid_, backup_value_gid_)`. */
  function DriverFreeBackup(c: Cell): Cell
    requires c.driver == DrvFreeBackup
  {
    var f := FreeHelper(c.freeLog, c.backup);
    c.(freeLog := f.log, backup := f.slot, driver := DrvFreeValue)
  }

  /** `if (free_value_gid) free_helper(appl, functional_gid_, value_gid_)`. */
  function DriverFreeValue(c: Cell): Cell
    requires c.driver == DrvFreeValue
  {
    if c.freeValue then
      var f := FreeHelper(c.freeLog, c.value);
      c.(freeLog := f.log, value := f.slot, driver := Terminated)
    else c.(driver := Terminated)
  }

  // ---------------------------------------------------------------------
  // get_value, one invocation per reader slot i (not tied to a port)

  /** `sem_out_.wait(1)` and the read of `value_gid_`. */
  function ReaderAcquire(c: Cell, i: nat): Cell
    requires i < |c.readers| && c.readers[i] == ReaderIdle && c.semOut >= 1
  {
    c.(semOut := c.semOut - 1, readers := c.readers[i := ReaderHolds(c.value)])
  }

  /** `sem_in_.signal(1)`: this read of the current value is complete. */
  function ReaderRelease(c: Cell, i: nat): Cell
    requires i < |c.readers| && c.readers[i].ReaderHolds?
  {
    c.(semIn := c.semIn + 1, readers := c.readers[i := ReaderIdle],
       readsThisRound := c.readsThisRound + 1)
  }

  // ---------------------------------------------------------------------
  // The transition system

  datatype Action =
    | Connect(gids: seq<Id>)
    | SetFunctional(gid: Id)
    | CallAcquireStep
    | CallPublishStep(initial: Id)
    | CallReturnStep
    | DriverAllocStep(allocFresh: Id)
    | DriverCheckStep
    | DriverEvalStep(fetch: (nat, Id) -> Id, isLast: bool)
    | DriverAcquireStep
    | DriverPublishStep(publishFresh: Id)
    | DriverSignalResultStep
    | DriverFreeBackupStep
    | DriverFreeValueStep
    | ReaderAcquireStep(acquirer: nat)
    | ReaderReleaseStep(releaser: nat)

  predicate Enabled(c: Cell, a: Action) {
    WellFormed(c) &&
    match a
    case Connect(_) => true
    case SetFunctional(_) => true
    case CallAcquireStep => c.call == CallIdle && c.semIn >= c.n
    case CallPublishStep(initial) => c.call == CallHoldsIn && c.value == Invalid && initial !in c.allocLog
    case CallReturnStep => c.call == CallAwaitResult && c.semResult >= 1
    case DriverAllocStep(newId) => c.driver == DrvStart && Fresh(c, newId)
    case DriverCheckStep => c.driver == DrvLoopTop && c.functional != Invalid && c.backup != Invalid
    case DriverEvalStep(_, _) => c.driver == DrvFetching
    case DriverAcquireStep => c.driver.DrvEvaluated? && c.semIn >= c.n
    case DriverPublishStep(newId) => c.driver.DrvHoldsIn? && (c.value == Invalid ==> Fresh(c, newId))
    case DriverSignalResultStep => c.driver == DrvExit
    case DriverFreeBackupStep => c.driver == DrvFreeBackup
    case DriverFreeValueStep => c.driver == DrvFreeValue
    case ReaderAcquireStep(i) => i < |c.readers| && c.readers[i] == ReaderIdle && c.semOut >= 1
    case ReaderReleaseStep(i) => i < |c.readers| && c.readers[i].ReaderHolds?
  }

  /** A wiring call that throws leaves the cell unchanged. */
  function Apply(c: Cell, a: Action): Cell
    requires Enabled(c, a)
  {
    match a
    case Connect(gids) =>
      var r := ConnectInputPorts(c, gids);
      if r.Ok? then r.value else c
    case SetFunctional(gid) => SetFunctionalComponent(c, gid)
    case CallAcquireStep => CallAcquire(c)
    case CallPublishStep(initial) => CallPublish(c, initial)
    case CallReturnStep => CallReturn(c)
    case DriverAllocStep(newId) => DriverAlloc(c, newId)
    case DriverCheckStep => DriverCheck(c)
    case DriverEvalStep(fetch, isLast) => DriverEval(c, fetch, isLast)
    case DriverAcquireStep => DriverAcquire(c)
    case DriverPublishStep(newId) => DriverPublish(c, newId)
    case DriverSignalResultStep => DriverSignalResult(c)
    case DriverFreeBackupStep => DriverFreeBackup(c)
    case DriverFreeValueStep => DriverFreeValue(c)
    case ReaderAcquireStep(i) => ReaderAcquire(c, i)
    case ReaderReleaseStep(i) => ReaderRelease(c, i)
  }

  /** Runs `trace` from `c`; `None` when some action is not enabled when its
      turn comes. */
  function Run(c: Cell, trace: seq<Action>): Option<Cell>
    decreases |trace|
  {
    if trace == [] then Some(c)
    else if Enabled(c, trace[0]) then Run(Apply(c, trace[0]), trace[1..])
    else None
  }

}
