/** The input adaptors of a cell, reduced to what the cell can observe of them:
    whether `connect` has been called, the reference it was connected to, and
    the value reference that a blocking `get` hands back. */
module Ports {
  import opened Naming

  datatype InPort = InPort(bound: bool, remote: Id)

  /** A freshly constructed input adaptor. */
  const Unbound: InPort := InPort(false, Invalid)

  predicate AllBound(ports: seq<InPort>) {
    forall i :: 0 <= i < |ports| ==> ports[i].bound
  }

  /** The loop of `connect_input_ports`: port `i` is connected to `gids[i]` for
      every port; references beyond the number of ports are ignored. */
  function ConnectAll(ports: seq<InPort>, gids: seq<Id>): (r: seq<InPort>)
    requires |gids| >= |ports|
    ensures |r| == |ports|
    ensures forall i :: 0 <= i < |r| ==> r[i] == InPort(true, gids[i])
  {
    if ports == [] then []
    else ConnectAll(ports[..|ports| - 1], gids) + [InPort(true, gids[|ports| - 1])]
  }

  /** The early-exit scan of `set_functional_component` over `is_bound()`. */
  method InputsBound(ports: seq<InPort>) returns (bound: bool)
    ensures bound <==> AllBound(ports)
  {
    bound := true;
    var i := 0;
    while i < |ports| && bound
      invariant 0 <= i <= |ports|
      invariant bound <==> forall j :: 0 <= j < i ==> ports[j].bound
    {
      bound := ports[i].bound;
      i := i + 1;
    }
  }

  /** `eval_helper<N>::call`: the input list handed to `eval` is the result of
      `get` on every input port, collected in index order. `fetch` is the
      remote fetch, an oracle from the port's index and connected reference to
      the value reference that port's `get` delivers in this step; two ports
      connected to the same reference may deliver different values. The
      source writes `eval_helper` out for N = 1, 3 and 5 only; this
      definition generalises it to any number of ports. */
  function Gather(ports: seq<InPort>, fetch: (nat, Id) -> Id): (ins: seq<Id>)
    ensures |ins| == |ports|
    ensures forall i :: 0 <= i < |ports| ==> ins[i] == fetch(i, ports[i].remote)
  {
    if ports == [] then []
    else Gather(ports[..|ports| - 1], fetch) + [fetch(|ports| - 1, ports[|ports| - 1].remote)]
  }
}
