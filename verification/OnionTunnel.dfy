/** What the anonymizing network as a whole promises: packets from the tunnel leave it, answers come back, and
    how much of who sent a packet can be told on the way. */
module OnionTunnel {
  import opened Basics
  import opened Checksum
  import opened OnionFlows
  import opened OnionNetwork
  import opened Rewriting
  import OnionCircuit
  import T = OnionTransport

  /** The packet of flow f that the proxy sends in this step, if there is one */
  function SentIn(e: Event, f: Flow): seq<Bytes> {
    match Outbound(e)
    case None => []
    case Some(m) => if FlowOf(m) == f then [m] else []
  }

  /** The packets of flow f from the tunnel that the proxy sends, in order. */
  function Tunnelled(events: seq<Event>, f: Flow): seq<Bytes> {
    if events == [] then [] else SentIn(events[0], f) + Tunnelled(events[1..], f)
  }

  /** The packets without their sources */
  function Hide(ms: seq<Bytes>): seq<Bytes> {
    seq(|ms|, i requires 0 <= i < |ms| => if |ms[i]| >= HEADER then Anonymous(ms[i]) else ms[i])
  }

  lemma HideJoin(a: seq<Bytes>, b: seq<Bytes>, c: seq<Bytes>, ms: seq<Bytes>, ns: seq<Bytes>)
    requires b == a + Hide(ms) && c == b + Hide(ns)
    ensures c == a + Hide(ms + ns)
  {
    assert Hide(ms + ns) == Hide(ms) + Hide(ns);
  }

  lemma {:induction false} TunnelledMeans(events: seq<Event>, f: Flow)
    ensures forall m <- Tunnelled(events, f) :: Packet(m) && Sends(m) && FlowOf(m) == f
  {
    if events != [] { TunnelledMeans(events[1..], f); }
  }

  // ---- Which packets are sent on which circuit ----

  lemma {:induction false} FlowsGrow(w: World, events: seq<Event>)
    requires IsRun(w, events)
    ensures w.flows <= Final(w, events).flows
    decreases |events|
  {
    if events != [] {
      StepAdds(w, events[0], 0);
      FlowsGrow(Next(w, events[0]), events[1..]);
    }
  }

  /** A packet goes to the circuit of its flow, now and for ever. */
  lemma RightCircuit(w: World, e: Event, flows: seq<Flow>, i: nat)
    requires Enabled(w, e) && Outbound(e).Some? && Next(w, e).flows <= flows && NoTwice(flows) && i < |flows|
    ensures i == Place(w.flows, FlowOf(Outbound(e).value)) <==> flows[i] == FlowOf(Outbound(e).value)
  {
    StepAdds(w, e, i);
    var f := FlowOf(Outbound(e).value);
    var j := Place(w.flows, f);
    assert Next(w, e).flows[j] == f;
    assert flows[j] == f;
  }

  lemma SentStep(w: World, e: Event, flows: seq<Flow>, i: nat)
    requires Enabled(w, e) && Next(w, e).flows <= flows && NoTwice(flows) && i < |flows|
    ensures SentOn(Next(w, e), i) == SentOn(w, i) + Hide(SentIn(e, flows[i]))
  {
    StepAdds(w, e, i);
    if Outbound(e).Some? {
      RightCircuit(w, e, flows, i);
    }
  }

  lemma {:induction false} SentRun(w: World, events: seq<Event>, flows: seq<Flow>, i: nat)
    requires IsRun(w, events) && Final(w, events).flows == flows && NoTwice(flows) && i < |flows|
    ensures SentOn(Final(w, events), i) == SentOn(w, i) + Hide(Tunnelled(events, flows[i]))
    decreases |events|
  {
    if events == [] {
      assert Hide(Tunnelled(events, flows[i])) == [];
    } else {
      var w', end, f := Next(w, events[0]), Final(w, events), flows[i];
      FlowsGrow(w', events[1..]);
      SentStep(w, events[0], flows, i);
      SentRun(w', events[1..], flows, i);
      HideJoin(SentOn(w, i), SentOn(w', i), SentOn(end, i), SentIn(events[0], f), Tunnelled(events[1..], f));
    }
  }

  // ---- Packets leave, answers come back ----

  /** Sending out what was recovered is sending out m itself; it is a packet that the last hop does send. */
  ghost predicate Leaves(m: Bytes, recovered: Bytes, own: Bytes) {
    && Packet(m) && Packet(recovered) && |own| == 4 && Outgoing(recovered, own) == Outgoing(m, own)
    && IsRewritten(m, Outgoing(recovered, own), SOURCE, own)
    && (recovered[PROTOCOL] == ICMP || recovered[PROTOCOL] == IPPROTO_TCP)
  }

  lemma HiddenLeaves(m: Bytes, own: Bytes)
    requires Packet(m) && Sends(m) && |own| == 4
    ensures Leaves(m, Anonymous(m), own)
  {
    HiddenSame(m, own);
    OutgoingMeans(m, own);
    ReaddressedAt(m, SOURCE, NOWHERE);
  }

  /** The answer is delivered with all its bytes, good checksums, and the address `home`. */
  ghost predicate ComesBack(answer: Bytes, recovered: Bytes, home: Bytes) {
    recovered == answer && |home| == 4 &&
    (Packet(answer) ==> IsRewritten(answer, Delivered(recovered, home), TARGET, home))
  }

  /** The state of one circuit at the end of a run from tunnel packets ms: the k-th packet that leaves the last
      hop is the k-th of ms, with the last hop's address; the k-th answer delivered is the k-th one the last hop
      sealed. When nothing is under way, all have left and all have come back. */
  ghost predicate Served(ms: seq<Bytes>, l: Log, own: Bytes, quiet: bool) {
    && |l.exited| <= |ms| && (forall k :: 0 <= k < |l.exited| ==> Leaves(ms[k], l.exited[k], own))
    && |l.received| == |l.homes| <= |l.replied|
    && (forall k :: 0 <= k < |l.received| ==> ComesBack(l.replied[k], l.received[k], l.homes[k]))
    && (quiet ==> |l.exited| == |ms| && |l.received| == |l.replied|)
  }

  lemma LogServed(p: OnionCircuit.Plan, s: T.Traffic, c: T.Cargo, l: Log, ms: seq<Bytes>, own: Bytes, quiet: bool)
    requires T.Inv(p, s, c) && (quiet ==> T.AllQuiet(s.links)) && HomesOk(l) && |own| == 4
    requires s.sent == l.sent == Hide(ms) && s.exited == l.exited && s.replied == l.replied && s.received == l.received
    requires forall m <- ms :: Packet(m) && Sends(m)
    ensures Served(ms, l, own, quiet)
  {
    forall k | 0 <= k < |l.exited| ensures Leaves(ms[k], l.exited[k], own) {
      assert ms[k] in ms;
      assert l.exited[k] == l.sent[k] == Anonymous(ms[k]);
      HiddenLeaves(ms[k], own);
    }
    forall k | 0 <= k < |l.received| ensures ComesBack(l.replied[k], l.received[k], l.homes[k]) {
      assert l.homes[k] in l.homes;
      if Packet(l.replied[k]) {
        DeliveredMeans(l.replied[k], l.homes[k]);
      }
    }
    if quiet {
      T.AllArrived(p, s, c);
    }
  }

  /** Every run of the network, from its start, with as many flows as the tables hold: nothing ends in an error,
      and every circuit serves exactly the packets of its own flow. */
  lemma TunnelArrives(w: World, events: seq<Event>, i: nat, own: Bytes)
    requires Boot(w) && IsRun(w, events) && i < |Final(w, events).plans| && |own| == 4
    ensures var e := Final(w, events);
      && !e.aborted && |e.flows| == |e.plans| == |e.logs| && NoTwice(e.flows)
      && Served(Tunnelled(events, e.flows[i]), e.logs[i], own, T.AllQuiet(e.links))
  {
    BootInv(w);
    var cs := RunKeeps(w, [], events);
    var e := Final(w, events);
    SentRun(w, events, e.flows, i);
    TunnelledMeans(events, e.flows[i]);
    CircuitServes(e, cs, i, Tunnelled(events, e.flows[i]), own);
  }

  lemma CircuitServes(e: World, cs: seq<T.Cargo>, i: nat, ms: seq<Bytes>, own: Bytes)
    requires Inv(e, cs) && i < |e.logs| && |own| == 4 && SentOn(e, i) == Hide(ms)
    requires forall m <- ms :: Packet(m) && Sends(m)
    ensures Served(ms, e.logs[i], own, T.AllQuiet(e.links))
  {
    assert CircuitOk(e, i, cs[i]);
    if T.AllQuiet(e.links) {
      QuietSeen(e.links, i + 1);
    }
    LogServed(e.plans[i], Seen(e, i), cs[i], e.logs[i], ms, own, T.AllQuiet(e.links));
  }
}
