# stencil_value&lt;N&gt; as a transition system

This project models one cell of the HPX adaptive-mesh-refinement dataflow
graph, `hpx::components::amr::server::stencil_value<N>`
(`hpx/components/amr/server/stencil_value_impl.hpp`), and proves its
synchronisation protocol correct.

A cell has N input adaptors, N output adaptors and three counting
semaphores: `sem_in_` (preset to N), `sem_out_` and `sem_result_`. It also
has two buffer slots, the current value `value_gid_` and
`backup_value_gid_`, plus the reference of the functional component that
computes each time step. The cell's operations are:

- the wiring calls `connect_input_ports` and `set_functional_component`.
  Whichever of the two completes the wiring spawns the driver thread `main`;
- `main` allocates a backup buffer. It then loops: gather the inputs, `eval`
  into the backup buffer, wait until the N readers of the current value are
  done, allocate `value_gid_` if it is still invalid, swap the two slots and
  publish to N readers;
- `call` takes the N preset permits, seeds `value_gid_`, publishes it, and
  waits on `sem_result_` for the final value;
- `get_value` is called by the output adaptors. It waits on `sem_out_`, reads
  `value_gid_` and returns one permit to `sem_in_`;
- `get_output_ports` lists the output adaptors' references.

The model is an immutable `Cell` record (`stencil.dfy`). Each operation is
cut at its blocking points into atomic steps, and each step is a function
guarded by the condition under which it can run. A `wait(k)` becomes the
guard `count >= k` followed by a decrement; a `signal(k)` becomes an
increment. A `BOOST_ASSERT` becomes a guard too, so a step whose assertion
would fail cannot be taken. The top of `main`'s loop is two steps: one for
the two assertions (`:178-179`), and one for the blocking gets of
`eval_helper` together with `eval`. The second step reads
`functional_gid_` afresh, as `eval_helper` does through its reference.

The remote collaborators are oracles passed as step parameters:

- `alloc_data` returns a reference `Fresh` to the cell;
- `free_data` is recorded in a log;
- `eval` supplies its "last step" answer and records what it was given;
- the input adaptors' `get` is a function from the port's index and
  connected reference to the fetched value reference.

`Action`, `Enabled`, `Apply` and `Run` turn these steps into a transition
system. `Reachable` means "some run from the constructor reaches this
state". `invariants.dfy` proves an inductive invariant over it.
`properties.dfy` derives the protocol's promises for every reachable state.
`scenarios.dfy` replays concrete runs with one port.

References are naturals with 0 as `naming::invalid_id`. N is a field of the
cell and may be any positive number. The source defines `eval_helper` only
for N = 1, 3 and 5 (`:23-81`); `Ports.Gather` generalises its N gets to
any N.

The model follows the code, including where the code departs from what its
own comments suggest:

- The cell can free the initial buffer that `call` supplies. The comments at
  `stencil_value_impl.hpp:161` and `:191-194` say that the first time step
  gets its value from `call` and that only the later ones need `value_gid_`
  freed, so the caller's buffer looks like the caller's. But the exit path
  at `:207` frees `backup_value_gid_`, and after an odd number of swaps that
  is the seed. `Scenarios.OneStepRunFreesSeed` shows this.
- Both `call` (`:131`) and the loop (`:187-188`) comment that they take the
  N preset permits of `sem_in_`, but only one of them can. If the driver
  takes them first, `call`'s assertion fails until the driver has
  terminated. `Properties.CallAssertOrdering` and
  `Scenarios.DriverFirstBreaksCallAssert` show this.
- The spawn check is a plain test of `driver_thread_`, not an atomic claim.
  "At most one driver" holds in the model only because each wiring call is
  one atomic step.
- `call` does not check that the wiring is complete. A `call` made before
  the wiring simply runs.
- The assertion that `functional_gid_` is valid (`:178`) does not protect
  `eval`. `eval_helper` reads the reference only after the blocking gets
  (`:29`, `:37`), so a `set_functional_component` with the invalid
  reference made during the gets reaches `eval`.
  `Scenarios.FunctionalResetDuringFetch` shows this.
- The last published value can be lost to its readers. After the last swap
  the loop signals `sem_out_` because it is "safe to read value" (`:201`),
  but nothing waits for those N reads. `call` may reset `value_gid_`
  (`:145-146`) before a reader gets to it, and the reader then receives the
  invalid reference (`Scenarios.CallResetLosesLastValue`). Or the exit path
  may free the buffer (`:207-209`) while a reader still holds it
  (`Scenarios.ReaderHoldsFreedBuffer`). This is why
  `Properties.ReadersSeePublishedValue` promises the published value only
  while the driver has not left its loop.
- `set_functional_component` does not check its argument, while
  `connect_input_ports` does (`:254` against `:279`). With the invalid
  reference the wiring order therefore matters, as
  `Properties.WiringOrderMattersForInvalid` shows.

## Model

| member | source | states |
|---|---|---|
| `Ports.ConnectAll` | hpx/components/amr/server/stencil_value_impl.hpp:249-250 | input port i ends up bound to `gids[i]` for every i below N; the number of ports is kept and extra references are ignored |
| `Ports.InputsBound` | hpx/components/amr/server/stencil_value_impl.hpp:275-277 | the early-exit scan answers true exactly when every input port is bound |
| `Ports.Gather` | hpx/components/amr/server/stencil_value_impl.hpp:23-81 | the input list handed to `eval` has one entry per port, and entry i is what port i's `get` delivered, in index order; ports connected to the same reference may deliver different values |
| `Stencil.GetOutputPorts` | hpx/components/amr/server/stencil_value_impl.hpp:232-235 | the result is cleared and holds exactly N references, the i-th being output adaptor i's reference, whatever the vector held before |
| `Stencil.ConnectInputPorts` | hpx/components/amr/server/stencil_value_impl.hpp:244-261 | fewer than N references is a `bad_parameter` error (so nothing is bound or spawned); otherwise every port is bound to its reference; when the functional component is set and no driver exists the driver is registered once (`spawns` + 1), else driver and spawn count are unchanged; nothing else changes |
| `Stencil.SetFunctionalComponent` | hpx/components/amr/server/stencil_value_impl.hpp:271-287 | the reference is stored unchecked; when all inputs are bound and no driver exists the driver is registered once (`spawns` + 1), else driver and spawn count are unchanged; nothing else changes |
| `Stencil.FreeHelper` | hpx/components/amr/server/stencil_value_impl.hpp:91-96 | the slot is reset to the invalid reference and `free_data` has received the old one; freeing a reference that is invalid or not yet freed keeps the free log free of double frees |
| `Invariants.NewCellInv` | hpx/components/amr/server/stencil_value_impl.hpp:100-115 | the constructed cell (`sem_in_` = N, other counters 0, slots invalid, inputs unbound, no driver) satisfies the protocol invariant |
| `Invariants.RunPreservesInv` | hpx/components/amr/server/stencil_value_impl.hpp:126-224 | from a state satisfying the invariant, every run of enabled steps of `call`, `main`, `get_value` and the wiring calls, in any interleaving, ends in a state satisfying it |
| `Invariants.ReachableInv` | hpx/components/amr/server/stencil_value_impl.hpp:126-288 | every state reachable from the constructor through any interleaving satisfies the invariant |
| `Properties.AtMostOneDriver` | hpx/components/amr/server/stencil_value_impl.hpp:254-260 | in every reachable state at most one driver has been registered, one exists exactly when it was registered, and only after all inputs were bound |
| `Properties.WiringOrderIrrelevant` | hpx/components/amr/server/stencil_value_impl.hpp:241-288 | for a valid functional reference, on a fresh cell the first wiring call spawns nothing, the second spawns the driver once, and both orders produce the same cell |
| `Properties.WiringOrderMattersForInvalid` | hpx/components/amr/server/stencil_value_impl.hpp:241-288 | with the invalid functional reference, connect-then-set spawns the driver (`:279` does not test the reference) while set-then-connect spawns nothing (`:254` does) |
| `Properties.OutputPortsStable` | hpx/components/amr/server/stencil_value_impl.hpp:105-112 | no run of any length changes the output adaptors, so `get_output_ports` answers after wiring and after every later step exactly as on the constructed cell |
| `Properties.PermitConservation` | hpx/components/amr/server/stencil_value_impl.hpp:101 | `sem_in_` + `sem_out_` + readers between their wait and signal + N if `call` or the driver holds the permits = N; no counter exceeds N (`sem_result_` 1); `call` and the driver never hold the permits together |
| `Properties.NoSwapBeforeNReads` | hpx/components/amr/server/stencil_value_impl.hpp:186-189 | after the first publish, whoever holds the N permits got them from exactly N completed reads, and no read is in progress |
| `Properties.ReadersSeePublishedValue` | hpx/components/amr/server/stencil_value_impl.hpp:218-224 | until the driver leaves its loop, a read in progress has the current value, which is the seed or the buffer of the last swap; after the loop this no longer holds (see the two scenarios below) |
| `Properties.CallAssertOrdering` | hpx/components/amr/server/stencil_value_impl.hpp:131-136 | when `call` holds the permits, `value_gid_` is invalid exactly when the driver has not swapped yet or has already terminated |
| `Properties.CallReturnsFinalValue` | hpx/components/amr/server/stencil_value_impl.hpp:141-148 | `call` returns the current value and leaves the slot invalid; that value is the buffer of the `eval` that answered "last step", except when the driver freed its own value buffer first, in which case `call` gets its seed back |
| `Properties.CallResultNeverFreed` | hpx/components/amr/server/stencil_value_impl.hpp:205-209 | a valid reference returned by `call` is never in the free log and is in neither slot |
| `Properties.EvalInputsInPortOrder` | hpx/components/amr/server/stencil_value_impl.hpp:178-184 | `eval` is called with the functional reference current at the call, which need not be the one checked at `:178`; it writes into the backup buffer and gets N inputs, input i fetched from port i; all ports are bound then |
| `Properties.SwapPublishesWrittenBuffer` | hpx/components/amr/server/stencil_value_impl.hpp:191-202 | after the swap `value_gid_` is the buffer just written; both slots are valid and distinct; `value_gid_` is allocated exactly when it was invalid, and that sets `free_value_gid`; N permits are published |
| `Properties.LoopExitsOnFirstLast` | hpx/components/amr/server/stencil_value_impl.hpp:171-205 | no `eval` but the last answered true; the loop is left only after one that did; `sem_result_` is signalled once, exactly when the driver has left the loop |
| `Properties.AllocationsBounded` | hpx/components/amr/server/stencil_value_impl.hpp:162-198 | nothing is allocated before the driver starts; the backup buffer is allocated once before the loop; the first `eval` writes into that first buffer; at most one more buffer, exactly when `free_value_gid` is set; all distinct |
| `Properties.SlotsNeverAlias` | hpx/components/amr/server/stencil_value_impl.hpp:195-199 | `value_gid_` and `backup_value_gid_` never hold the same valid buffer, and neither holds a freed one |
| `Properties.ExitReleasesBuffers` | hpx/components/amr/server/stencil_value_impl.hpp:205-210 | on exit the live backup buffer is freed and reset; `value_gid_` is freed and reset exactly when `free_value_gid` is set |
| `Properties.NoLeakNoDoubleFree` | hpx/components/amr/server/stencil_value_impl.hpp:162-210 | once the driver and `call` are done, every allocated buffer and the seed are either freed or returned by `call`, and no valid reference is freed twice |
| `Scenarios.DriverFirstBreaksCallAssert` | hpx/components/amr/server/stencil_value_impl.hpp:131-139 | with one port, a reachable state exists in which the driver took the preset permits first and `call`, holding the permits again, cannot pass its assertion |
| `Scenarios.TwoStepRun` | hpx/components/amr/server/stencil_value_impl.hpp:126-210 | with one port and `eval` answering false then true, `call` returns the buffer the second `eval` wrote; two evaluations happen; the one allocated buffer is freed |
| `Scenarios.OneStepRunFreesSeed` | hpx/components/amr/server/stencil_value_impl.hpp:205-207 | with `eval` answering true at once, the driver frees the seed `call` supplied, and `call` returns the cell's own buffer |
| `Scenarios.InvalidFunctionalStallsDriver` | hpx/components/amr/server/stencil_value_impl.hpp:165-179 | a driver spawned with the invalid functional reference still allocates its backup buffer, then cannot pass the assertion at `:178` until a later `set_functional_component` with a valid reference, which lets it pass and spawns no second driver |
| `Scenarios.CallResetLosesLastValue` | hpx/components/amr/server/stencil_value_impl.hpp:141-146 | after the last swap published buffer 100 and `call` returned it, the reader's `get_value` receives the invalid reference, because `call` reset `value_gid_` first |
| `Scenarios.ReaderHoldsFreedBuffer` | hpx/components/amr/server/stencil_value_impl.hpp:199-209 | after a one-step run in which the driver took the preset permits, a reader holds buffer 1 while the terminated driver has already freed it |
| `Scenarios.FunctionalResetDuringFetch` | hpx/components/amr/server/stencil_value_impl.hpp:174-184 | after the driver has passed the assertion at `:178`, a `set_functional_component` with the invalid reference goes through, and `eval` is then called with the invalid reference |

## Left out

- `hpx/hpx_fwd.hpp` holds only declarations and the thread-state enums. The
  model borrows `terminated` as the driver's final state.
- Thread scheduling is left out: `applier::register_work`, coroutines,
  `thread_self` and real parallelism. Every step is atomic. Memory-level
  races inside a step are outside the model, including the unguarded
  spawn check.
- The driver's allocate-swap-publish sequence is one step. While the driver
  holds the N permits, neither `call`'s publish nor a reader can run
  (`Properties.PermitConservation`). `call`'s return cannot run either,
  because `sem_result_` is signalled only after the loop
  (`Invariants.ResultInv`, `Properties.LoopExitsOnFirstLast`).
- The remote stubs (`functional_component::eval`, `alloc_data`, `free_data`)
  and the adaptors' `aquire_value`, `get`, `connect`, `is_bound` and
  `get_gid` are not part of this model. Their bodies are not visible; they
  appear only as the oracles and flags described above. `aquire_value` has
  no effect the cell can observe.
- `alloc_data` never fails in the model. A resource-exhaustion failure has
  no counterpart.
- Every `call` step: the seed must not be a buffer the cell allocated
  itself. This is an assumption about the caller, who supplies an external
  buffer; the source does not check it. Without it, the two slots could
  alias.
- `call` is made at most once. A second invocation is not modelled.
- The numerical stencil, AGAS/`naming::id_type` internals and the exception
  machinery are left out. Ids are naturals, and `HPX_THROW_EXCEPTION` is an
  `Err` result.
- `get_value` calls are not tied to a particular output port. The cell
  counts only N reads per round, so one port reading twice and another not
  at all is allowed, as in the code.
- `main`'s final free of `value_gid_` and `call`'s read of it can happen in
  either order only when `call` supplies the invalid reference. With a valid
  seed, `free_value_gid` is set only when the driver has won the race for
  the preset permits, and `call` can then publish only after the driver has
  terminated. `Properties.CallReturnsFinalValue` states what `call` returns
  in each case. This says nothing about how the real threads order them.
- `set_functional_component` with an invalid reference can spawn the
  driver. `alloc_data` is still called with the invalid reference. The
  driver then cannot pass the loop's assertion until a valid reference is set
  (`Scenarios.InvalidFunctionalStallsDriver`). What `alloc_data` does with
  the invalid reference is not modelled.
- A failing `BOOST_ASSERT` is a step that cannot be taken, so the model
  stalls where a debug build aborts. With `NDEBUG` the assertion is a no-op.
  `call` would then overwrite the driver's `value_gid_` (`:136`), and that
  buffer would leak. The properties cover only runs on which every
  assertion holds; `Properties.NoLeakNoDoubleFree` in particular does not
  hold without the assertions.
- The N blocking gets and `eval` are one step. A wiring call between two
  gets is seen by all of them. With the per-port fetch oracle, any
  combination of delivered values is still possible.
- The empty destructor is not modelled.
