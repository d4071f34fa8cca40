/** The proxy's flow table: which packets from the tunnel share a circuit. */
module OnionFlows {
  import opened Basics
  import opened Checksum
  import opened Rewriting

  const FLOWS: nat := 36        // entries of flow[]
  const TCP_TARGET: nat := 22   // offset of the TCP destination port behind a plain IP header
  const ECHO: Byte := 8         // ICMP_ECHO

  /** flow_cache as far as packets are compared with it, as stored. ICMP entries have no port. */
  datatype Flow = Flow(src: Bytes, dst: Bytes, protocol: Byte, port: Bytes)

  const UNUSED: Flow := Flow([0, 0, 0, 0], [0, 0, 0, 0], 0, [0, 0])

  /** run() looks at ICMP and TCP packets only. */
  predicate Handled(m: Bytes)
    requires Packet(m)
  {
    m[PROTOCOL] == ICMP || m[PROTOCOL] == IPPROTO_TCP
  }

  /** Of those, all TCP packets and the ICMP echo requests go into a circuit. */
  predicate Sends(m: Bytes)
    requires Packet(m)
  {
    m[PROTOCOL] == IPPROTO_TCP || (m[PROTOCOL] == ICMP && |m| > HEADER && m[HEADER] == ECHO)
  }

  function FlowOf(m: Bytes): Flow
    requires Packet(m)
  {
    Flow(m[SOURCE..SOURCE + 4], m[TARGET..TARGET + 4], m[PROTOCOL],
         if m[PROTOCOL] == IPPROTO_TCP then m[TCP_TARGET..TCP_TARGET + 2] else [0, 0])
  }

  // ---- The table ----

  ghost predicate NoTwice(fs: seq<Flow>) {
    forall i, j :: 0 <= i < j < |fs| ==> fs[i] != fs[j]
  }

  /** The first place of f, or the length. */
  function Place(fs: seq<Flow>, f: Flow): (i: nat)
    ensures i <= |fs| && (i < |fs| <==> f in fs) && (i < |fs| ==> fs[i] == f)
  {
    if fs == [] then 0 else if fs[0] == f then 0 else 1 + Place(fs[1..], f)
  }

  /** The table after one more packet of flow f. */
  function Noted(fs: seq<Flow>, f: Flow): seq<Flow> {
    if f in fs then fs else fs + [f]
  }

  /** The table after packets of these flows. */
  function Table(fs: seq<Flow>): seq<Flow> {
    if fs == [] then [] else Noted(Table(fs[..|fs| - 1]), fs[|fs| - 1])
  }

  /** The circuits these packets are given, in order: that of their flow, or the next unused one. */
  function Circuits(fs: seq<Flow>): (r: seq<nat>)
    ensures |r| == |fs|
  {
    if fs == [] then []
    else Circuits(fs[..|fs| - 1]) + [Place(Table(fs[..|fs| - 1]), fs[|fs| - 1])]
  }

  lemma PlaceUnique(fs: seq<Flow>, i: nat)
    requires NoTwice(fs) && i < |fs|
    ensures Place(fs, fs[i]) == i
  {
    var j := Place(fs, fs[i]);
    assert fs[j] == fs[i];
  }

  lemma {:induction false} TableMembers(fs: seq<Flow>)
    ensures NoTwice(Table(fs)) && forall f :: f in Table(fs) <==> f in fs
  {
    if fs != [] {
      var n := |fs| - 1;
      TableMembers(fs[..n]);
      assert fs == fs[..n] + [fs[n]];
    }
  }

  lemma {:induction false} PlaceAppend(fs: seq<Flow>, g: Flow, f: Flow)
    requires f in fs || f == g
    ensures Place(fs + [g], f) == if f in fs then Place(fs, f) else |fs|
  {
    if fs == [] {
      assert ([] + [g])[0] == g;
    } else {
      assert (fs + [g])[0] == fs[0] && (fs + [g])[1..] == fs[1..] + [g];
      if fs[0] != f {
        PlaceAppend(fs[1..], g, f);
      }
    }
  }

  lemma PlaceNoted(fs: seq<Flow>, g: Flow, f: Flow)
    requires f in fs || f == g
    ensures Place(Noted(fs, g), f) == if f in fs then Place(fs, f) else |fs|
  {
    PlaceAppend(fs, g, f);
  }

  /** A flow keeps its circuit while the table grows. */
  lemma {:induction false} CircuitStays(fs: seq<Flow>, i: nat)
    requires i < |fs|
    ensures Circuits(fs)[i] == Place(Table(fs), fs[i]) < |Table(fs)|
  {
    var n := |fs| - 1;
    TableMembers(fs[..n]);
    if i < n {
      assert fs[..n][i] == fs[i];
      CircuitStays(fs[..n], i);
    }
    PlaceNoted(Table(fs[..n]), fs[n], fs[i]);
  }

  lemma {:induction false} CircuitsPrefix(fs: seq<Flow>, n: nat)
    requires n <= |fs|
    ensures Circuits(fs)[..n] == Circuits(fs[..n])
  {
    if n == |fs| {
      assert fs[..n] == fs;
    } else {
      var k := |fs| - 1;
      CircuitsPrefix(fs[..k], n);
      assert fs[..k][..n] == fs[..n];
    }
  }

  lemma CircuitsNext(fs: seq<Flow>, f: Flow)
    ensures Circuits(fs + [f]) == Circuits(fs) + [Place(Table(fs), f)]
  {
    assert (fs + [f])[..|fs|] == fs;
  }

  lemma CircuitsStart(fs: seq<Flow>, rest: seq<Flow>)
    ensures Circuits(fs + rest)[..|fs|] == Circuits(fs)
  {
    CircuitsPrefix(fs + rest, |fs|);
    assert (fs + rest)[..|fs|] == fs;
  }

  /** Two packets share a circuit if and only if they are of the same flow. */
  lemma SharedCircuit(fs: seq<Flow>, i: nat, j: nat)
    requires i < |fs| && j < |fs|
    ensures Circuits(fs)[i] == Circuits(fs)[j] <==> fs[i] == fs[j]
  {
    CircuitStays(fs, i);
    CircuitStays(fs, j);
  }

  ghost predicate SamePattern(fs: seq<Flow>, gs: seq<Flow>) {
    |fs| == |gs| && forall i, j :: 0 <= i < |fs| && 0 <= j < |fs| ==> (fs[i] == fs[j] <==> gs[i] == gs[j])
  }

  lemma PatternPrefix(fs: seq<Flow>, gs: seq<Flow>)
    requires SamePattern(fs, gs) && fs != []
    ensures SamePattern(fs[..|fs| - 1], gs[..|fs| - 1])
  {
  }

  lemma {:induction false} PatternCircuits(fs: seq<Flow>, gs: seq<Flow>)
    requires SamePattern(fs, gs)
    ensures Circuits(fs) == Circuits(gs) && |Table(fs)| == |Table(gs)|
  {
    if fs != [] {
      var n := |fs| - 1;
      var fs0, gs0 := fs[..n], gs[..n];
      PatternPrefix(fs, gs);
      PatternCircuits(fs0, gs0);
      TableMembers(fs0);
      TableMembers(gs0);
      PatternLast(fs, gs);
      if fs[n] in fs0 {
        var i :| 0 <= i < n && fs0[i] == fs[n];
        assert gs0[i] == gs[n];
        CircuitStays(fs0, i);
        CircuitStays(gs0, i);
      }
    }
  }

  lemma PatternLast(fs: seq<Flow>, gs: seq<Flow>)
    requires SamePattern(fs, gs) && fs != []
    ensures var n := |fs| - 1;
      && (fs[n] in fs[..n] <==> gs[n] in gs[..n])
      && forall i :: 0 <= i < n && fs[..n][i] == fs[n] ==> gs[..n][i] == gs[n]
  {
    var n := |fs| - 1;
    forall i | 0 <= i < n ensures fs[..n][i] == fs[n] <==> gs[..n][i] == gs[n] {
      assert fs[..n][i] == fs[i] && gs[..n][i] == gs[i];
    }
  }

  /** The circuits tell which packets come from the same flow, and nothing else about the flows. */
  lemma SameCircuits(fs: seq<Flow>, gs: seq<Flow>)
    ensures Circuits(fs) == Circuits(gs) <==> SamePattern(fs, gs)
  {
    if SamePattern(fs, gs) {
      PatternCircuits(fs, gs);
    }
    if Circuits(fs) == Circuits(gs) {
      forall i, j | 0 <= i < |fs| && 0 <= j < |fs| ensures fs[i] == fs[j] <==> gs[i] == gs[j] {
        SharedCircuit(fs, i, j);
        SharedCircuit(gs, i, j);
      }
    }
  }

  // ---- The code ----

  class FlowTable {
    const flow: array<Flow>
    var numberPath: nat             // number_path

    ghost predicate Valid()
      reads this, flow
    {
      && flow.Length == FLOWS && numberPath <= FLOWS && NoTwice(flow[..numberPath])
      && (forall i :: 0 <= i < FLOWS ==> (flow[i].protocol == 0 <==> i >= numberPath))
      && (forall i :: 0 <= i < FLOWS && flow[i].protocol != IPPROTO_TCP ==> flow[i].port == [0, 0])
    }

    ghost function View(): seq<Flow>
      requires Valid()
      reads this, flow
    {
      flow[..numberPath]
    }

    constructor ()
      ensures Valid() && View() == [] && fresh(flow)
    {
      flow := new Flow[FLOWS](i => UNUSED);
      numberPath := 0;
    }

    /** The loops over flow[]: an ICMP packet is compared without ports. */
    method FindFlow(m: Bytes) returns (judge: bool, circuit: nat)
      requires Valid() && Packet(m) && Handled(m)
      ensures judge <==> FlowOf(m) in View()
      ensures judge ==> circuit == Place(View(), FlowOf(m))
    {
      var f := FlowOf(m);
      for i := 0 to FLOWS
        invariant forall k :: 0 <= k < i ==> flow[k] != f
      {
        if flow[i].src == f.src && flow[i].dst == f.dst && flow[i].protocol == f.protocol
           && (f.protocol == ICMP || flow[i].port == f.port) {
          assert flow[i] == f && f == View()[i];
          PlaceUnique(View(), i);
          return true, i;
        }
      }
      return false, 0;
    }

    /** The part of run() that chooses the circuit, with the table entry of a new one */
    method Choose(m: Bytes) returns (circuit: nat, isNew: bool)
      requires Valid() && Packet(m) && Handled(m) && (FlowOf(m) in View() || numberPath < FLOWS)
      modifies this`numberPath, flow
      ensures Valid() && View() == Noted(old(View()), FlowOf(m)) && circuit == Place(View(), FlowOf(m))
      ensures isNew <==> FlowOf(m) !in old(View())
    {
      var judge;
      judge, circuit := FindFlow(m);
      isNew := !judge;
      if !judge {
        circuit := numberPath;
        ghost var was := View();
        flow[numberPath] := FlowOf(m);
        numberPath := numberPath + 1;
        assert View() == was + [FlowOf(m)];
        PlaceUnique(View(), circuit);
      }
    }
  }
}
