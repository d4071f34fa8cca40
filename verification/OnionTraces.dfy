/** What can be told on the way about who sent a packet, and whom an answer reaches. */
module OnionTraces {
  import opened Basics
  import opened Checksum
  import opened OnionCipher
  import opened OnionRouter
  import opened OnionFlows
  import opened OnionNetwork
  import opened Rewriting
  import C = OnionCircuit
  import T = OnionTransport

  // ---- Flows ----

  /** The flow of the packet run() looks at in this step, if there is one */
  function FlowIn(e: Event): seq<Flow> {
    match e
    case FromTunnel(m) => if Packet(m) && Handled(m) then [FlowOf(m)] else []
    case Opens(m, _, _) => if Packet(m) && Handled(m) then [FlowOf(m)] else []
    case Answers(_, _) => []
    case Arrives(_, _) => []
  }

  function FlowsIn(events: seq<Event>): seq<Flow> {
    if events == [] then [] else FlowIn(events[0]) + FlowsIn(events[1..])
  }

  lemma TableStep(w: World, e: Event, fs: seq<Flow>)
    requires Enabled(w, e) && w.flows == Table(fs)
    ensures Next(w, e).flows == Table(fs + FlowIn(e))
  {
    StepAdds(w, e, 0);
    if FlowIn(e) == [] {
      assert fs + FlowIn(e) == fs;
    } else {
      var next := fs + FlowIn(e);
      assert next[..|next| - 1] == fs;
    }
  }

  /** In every run the flow table is that of the packets so far, so by SharedCircuit two of them share a
      circuit if and only if they agree in source, destination, protocol and, for TCP, destination port. */
  lemma {:induction false} TableRun(w: World, events: seq<Event>, fs: seq<Flow>, all: seq<Flow>)
    requires IsRun(w, events) && w.flows == Table(fs) && all == fs + FlowsIn(events)
    ensures Final(w, events).flows == Table(all)
    decreases |events|
  {
    if events == [] {
      assert all == fs;
    } else {
      FlowsSplit(fs, events);
      TableStep(w, events[0], fs);
      TableRun(Next(w, events[0]), events[1..], fs + FlowIn(events[0]), all);
    }
  }

  // ---- Two runs side by side ----

  /** The same but for what only the proxy knows: the flow table, the remembered source and where it delivered
      answers. */
  ghost predicate Twin(w: World, w': World) {
    && w' == w.(flows := w'.flows, host := w'.host, logs := w'.logs)
    && |w'.flows| == |w.flows| && |w'.logs| == |w.logs|
    && forall i :: 0 <= i < |w.logs| ==> w'.logs[i] == w.logs[i].(homes := w'.logs[i].homes)
  }

  /** What everybody else can see: the datagrams on all links and the tables of all routers. */
  ghost predicate SameSight(w: World, w': World) {
    w'.routers == w.routers && w'.links == w.links
  }

  /** The same step, with any other packet from the tunnel */
  ghost predicate Paired(e: Event, e': Event) {
    match e
    case FromTunnel(_) => e'.FromTunnel?
    case Opens(_, p, moves) => e'.Opens? && e'.p == p && e'.moves == moves
    case Answers(_, _) => e' == e
    case Arrives(_, _) => e' == e
  }

  lemma EffectedTwin(w: World, w': World, from: nat, n: nat, e: Effect)
    requires Twin(w, w')
    ensures Twin(Effected(w, from, n, e), Effected(w', from, n, e))
  {
  }

  lemma OtherTwin(w: World, w': World, e: Event)
    requires Twin(w, w') && Enabled(w, e) && Enabled(w', e) && (e.Answers? || e.Arrives?)
    ensures Twin(Next(w, e), Next(w', e))
  {
    match e
    case Answers(i, m) =>
      var last, l, l' := w.plans[i].ports[|w.plans[i].keys|], w.logs[i], w'.logs[i];
      EffectedTwin(w.(logs := w.logs[i := l.(replied := l.replied + [m])]),
                   w'.(logs := w'.logs[i := l'.(replied := l'.replied + [m])]), last, w.plans[i].num,
                   w.routers[last].Reply(w.plans[i].c, w.plans[i].num, m));
    case Arrives(from, to) =>
      var msg := C.Link(w.links, from, to)[0];
      var links := C.Drop(w.links, from, to);
      if to != w.proxy {
        var (r, effect) := w.routers[to].Handle(w.c, msg, from);
        var routers := w.routers[to := r];
        EffectedTwin(w.(links := links, routers := routers), w'.(links := links, routers := routers),
                     to, Slot(msg.cid), effect);
      }
  }

  // ---- Sending ----

  /** The datagram a packet becomes tells its circuit and its hidden bytes, and nothing else. */
  lemma DatagramTells(p: C.Plan, q: C.Plan, a: Bytes, b: Bytes)
    requires p.Ok() && q.Ok() && |p.keys| > 0 && |q.keys| > 0
    ensures T.OutMsg(p, 0, a) == T.OutMsg(q, 0, b) && p == q ==> a == b
    ensures T.OutMsg(p, 0, a) == T.OutMsg(q, 0, b) ==> p.num == q.num
  {
    if p == q && T.OutMsg(p, 0, a) == T.OutMsg(q, 0, b) {
      assert p.keys[0..] == p.keys;
      UnwrapWrap(p.c, p.keys, a);
      UnwrapWrap(p.c, p.keys, b);
    }
  }

  lemma PutTells(links: C.Links, u: nat, v: nat, v': nat, m: Msg, m': Msg)
    ensures C.Put(links, u, v, m) == C.Put(links, u, v', m') <==> v == v' && m == m'
    ensures C.Put(links, u, v, m) != links
  {
    var next, next' := C.Put(links, u, v, m), C.Put(links, u, v', m');
    assert C.Link(next, u, v) == C.Link(links, u, v) + [m];
    assert C.Link(next', u, v') == C.Link(links, u, v') + [m'];
    if next == next' {
      assert v == v';
      assert C.Link(next, u, v)[|C.Link(links, u, v)|] == m && C.Link(next', u, v)[|C.Link(links, u, v)|] == m';
    }
  }

  /** Two twins send: outsiders see the same if and only if circuit and hidden packet are the same. */
  lemma SendTwin(w: World, cs: seq<T.Cargo>, w': World, i: nat, i': nat, m: Bytes, m': Bytes)
    requires Inv(w, cs) && Twin(w, w') && i < |w.plans| && i' < |w.plans| && |m| >= HEADER && |m'| >= HEADER
    ensures PlanShaped(w.plans[i]) && PlanShaped(w.plans[i'])
    ensures SameSight(SendOn(w, i, m), SendOn(w', i', m')) <==> i == i' && SameButSource(m, m')
    ensures i == i' && SameButSource(m, m') ==> Twin(SendOn(w, i, m), SendOn(w', i', m'))
    ensures !SameSight(SendOn(w, i, m), w') && !SameSight(w, SendOn(w', i', m'))
  {
    assert CircuitOk(w, i, cs[i]) && CircuitOk(w, i', cs[i']);
    var p, p' := w.plans[i], w.plans[i'];
    Unlinkable(m, m');
    DatagramTells(p, p', Anonymous(m), Anonymous(m'));
    PutTells(w.links, w.proxy, p.ports[1], p'.ports[1], T.OutMsg(p, 0, Anonymous(m)), T.OutMsg(p', 0, Anonymous(m')));
    PutTells(w.links, w.proxy, p'.ports[1], p.ports[1], T.OutMsg(p', 0, Anonymous(m')), T.OutMsg(p, 0, Anonymous(m)));
  }

  // ---- What can be told ----

  /** Nothing is sent in either step, or packets that differ at most in source address and header checksum, on
      the same circuit. fs and fs' are the flows of the packets before. */
  ghost predicate SameStep(fs: seq<Flow>, fs': seq<Flow>, e: Event, e': Event) {
    if Outbound(e).None? then Outbound(e').None?
    else
      && Outbound(e').Some? && SameButSource(Outbound(e).value, Outbound(e').value)
      && Place(Table(fs), FlowOf(Outbound(e).value)) == Place(Table(fs'), FlowOf(Outbound(e').value))
  }

  ghost predicate Indistinct(fs: seq<Flow>, fs': seq<Flow>, events: seq<Event>, events': seq<Event>)
    requires |events| == |events'|
    decreases |events|
  {
    events == [] ||
    (SameStep(fs, fs', events[0], events'[0])
     && Indistinct(fs + FlowIn(events[0]), fs' + FlowIn(events'[0]), events[1..], events'[1..]))
  }

  /** From the start to the end of two runs nobody but the proxy sees a difference. */
  ghost predicate SameSights(w: World, w': World, events: seq<Event>, events': seq<Event>)
    requires |events| == |events'| && IsRun(w, events) && IsRun(w', events')
    decreases |events|
  {
    events == [] ||
    (SameSight(Next(w, events[0]), Next(w', events'[0]))
     && SameSights(Next(w, events[0]), Next(w', events'[0]), events[1..], events'[1..]))
  }

  lemma TunnelTwin(w: World, cs: seq<T.Cargo>, w': World, fs: seq<Flow>, fs': seq<Flow>, e: Event, e': Event)
    requires Inv(w, cs) && Twin(w, w') && Enabled(w, e) && Enabled(w', e') && e.FromTunnel? && e'.FromTunnel?
    requires w.flows == Table(fs) && w'.flows == Table(fs')
    ensures SameSight(Next(w, e), Next(w', e')) <==> SameStep(fs, fs', e, e')
    ensures SameStep(fs, fs', e, e') ==> Twin(Next(w, e), Next(w', e'))
  {
    if Outbound(e).Some? || Outbound(e').Some? {
      var i := if Outbound(e).Some? then Place(w.flows, FlowOf(e.m)) else Place(w'.flows, FlowOf(e'.m));
      var i' := if Outbound(e').Some? then Place(w'.flows, FlowOf(e'.m)) else i;
      SendTwin(w, cs, w', i, i', e.m, e'.m);
    }
  }

  lemma OpenTwin(w: World, cs: seq<T.Cargo>, w': World, fs: seq<Flow>, fs': seq<Flow>, e: Event, e': Event)
    requires Inv(w, cs) && Twin(w, w') && Enabled(w, e) && Enabled(w', e') && e.Opens? && Paired(e, e')
    requires w.flows == Table(fs) && w'.flows == Table(fs')
    ensures SameSight(Next(w, e), Next(w', e')) <==> SameStep(fs, fs', e, e')
    ensures SameStep(fs, fs', e, e') ==> Twin(Next(w, e), Next(w', e'))
  {
    var v, v' := Opened(w, FlowOf(e.m), e.p, e.moves), Opened(w', FlowOf(e'.m), e.p, e.moves);
    OpenStep(w, cs, FlowOf(e.m), e.p, e.moves);
    assert Twin(v, v');
    SendTwin(v, cs + [Empty(e.p)], v', |w.plans|, |w.plans|, e.m, e'.m);
  }

  lemma TwinStep(w: World, cs: seq<T.Cargo>, w': World, fs: seq<Flow>, fs': seq<Flow>, e: Event, e': Event)
    requires Inv(w, cs) && Twin(w, w') && Enabled(w, e) && Enabled(w', e') && Paired(e, e')
    requires w.flows == Table(fs) && w'.flows == Table(fs')
    ensures SameSight(Next(w, e), Next(w', e')) <==> SameStep(fs, fs', e, e')
    ensures SameStep(fs, fs', e, e') ==> Twin(Next(w, e), Next(w', e'))
  {
    match e
    case FromTunnel(_) => TunnelTwin(w, cs, w', fs, fs', e, e');
    case Opens(_, _, _) => OpenTwin(w, cs, w', fs, fs', e, e');
    case Answers(_, _) => OtherTwin(w, w', e);
    case Arrives(_, _) => OtherTwin(w, w', e);
  }

  ghost predicate AllPaired(events: seq<Event>, events': seq<Event>) {
    |events| == |events'| && forall k :: 0 <= k < |events| ==> Paired(events[k], events'[k])
  }

  /** The two runs look the same from outside if and only if each packet sent in the one has a counterpart in the
      other that differs at most in source and header checksum and goes on the same circuit. */
  lemma {:induction false} SightsIff(w: World, cs: seq<T.Cargo>, w': World, fs: seq<Flow>, fs': seq<Flow>,
                                     events: seq<Event>, events': seq<Event>)
    requires Inv(w, cs) && Twin(w, w') && w.flows == Table(fs) && w'.flows == Table(fs')
    requires AllPaired(events, events') && IsRun(w, events) && IsRun(w', events')
    ensures SameSights(w, w', events, events') <==> Indistinct(fs, fs', events, events')
    decreases |events|
  {
    if events != [] {
      var e, e' := events[0], events'[0];
      TwinStep(w, cs, w', fs, fs', e, e');
      if SameStep(fs, fs', e, e') {
        var cs' := AnyStep(w, cs, e);
        TableStep(w, e, fs);
        TableStep(w', e', fs');
        SightsIff(Next(w, e), cs', Next(w', e'), fs + FlowIn(e), fs' + FlowIn(e'), events[1..], events'[1..]);
      }
    }
  }

  /** Of the packets that concern it, the proxy sends all: there are no ICMP packets but echo requests. */
  ghost predicate AllSent(events: seq<Event>) {
    forall k :: 0 <= k < |events| ==> (FlowIn(events[k]) == [] <==> Outbound(events[k]).None?)
  }

  /** Packets are sent in the same steps, and differ at most in source address and header checksum. */
  ghost predicate SamePackets(events: seq<Event>, events': seq<Event>)
    requires |events| == |events'|
  {
    forall k :: 0 <= k < |events| ==> SamePacket(events[k], events'[k])
  }

  ghost predicate SamePacket(e: Event, e': Event) {
    if Outbound(e).None? then Outbound(e').None?
    else Outbound(e').Some? && SameButSource(Outbound(e).value, Outbound(e').value)
  }

  lemma NextCircuit(fs: seq<Flow>, fs': seq<Flow>, f: Flow, f': Flow)
    requires Circuits(fs) == Circuits(fs')
    ensures Circuits(fs + [f]) == Circuits(fs' + [f']) <==> Place(Table(fs), f) == Place(Table(fs'), f')
  {
    CircuitsNext(fs, f);
    CircuitsNext(fs', f');
    LastOnes(Circuits(fs), Place(Table(fs), f), Place(Table(fs'), f'));
  }

  lemma LastOnes(s: seq<nat>, x: nat, y: nat)
    ensures s + [x] == s + [y] <==> x == y
  {
    assert (s + [x])[|s|] == x && (s + [y])[|s|] == y;
  }

  lemma FirstCircuits(fs: seq<Flow>, fs': seq<Flow>, rest: seq<Flow>, rest': seq<Flow>)
    requires |fs| == |fs'| && Circuits(fs + rest) == Circuits(fs' + rest')
    ensures Circuits(fs) == Circuits(fs')
  {
    CircuitsStart(fs, rest);
    CircuitsStart(fs', rest');
  }

  lemma {:induction false} IndistinctIff(fs: seq<Flow>, fs': seq<Flow>, events: seq<Event>, events': seq<Event>)
    requires |events| == |events'| && AllSent(events) && AllSent(events') && Circuits(fs) == Circuits(fs')
    ensures Indistinct(fs, fs', events, events') <==>
      SamePackets(events, events') && Circuits(fs + FlowsIn(events)) == Circuits(fs' + FlowsIn(events'))
    decreases |events|
  {
    if events == [] {
      assert fs + FlowsIn(events) == fs && fs' + FlowsIn(events') == fs';
    } else {
      var e, e', rest, rest' := events[0], events'[0], events[1..], events'[1..];
      PacketsSplit(events, events');
      if SamePacket(e, e') {
        var next, next' := fs + FlowIn(e), fs' + FlowIn(e');
        FlowsSplit(fs, events);
        FlowsSplit(fs', events');
        SameStepIff(fs, fs', e, e');
        if Circuits(next) == Circuits(next') {
          IndistinctIff(next, next', rest, rest');
        } else if Circuits(next + FlowsIn(rest)) == Circuits(next' + FlowsIn(rest')) {
          FirstCircuits(next, next', FlowsIn(rest), FlowsIn(rest'));
        }
      }
    }
  }

  lemma SameStepIff(fs: seq<Flow>, fs': seq<Flow>, e: Event, e': Event)
    requires Circuits(fs) == Circuits(fs') && SamePacket(e, e')
    requires (FlowIn(e) == [] <==> Outbound(e).None?) && (FlowIn(e') == [] <==> Outbound(e').None?)
    ensures SameStep(fs, fs', e, e') <==> Circuits(fs + FlowIn(e)) == Circuits(fs' + FlowIn(e'))
    ensures |fs + FlowIn(e)| == |fs' + FlowIn(e')|
  {
    assert |Circuits(fs)| == |fs| && |Circuits(fs')| == |fs'|;
    if Outbound(e).Some? {
      NextCircuit(fs, fs', FlowIn(e)[0], FlowIn(e')[0]);
    } else {
      assert fs + FlowIn(e) == fs && fs' + FlowIn(e') == fs';
    }
  }

  lemma FlowsSplit(fs: seq<Flow>, events: seq<Event>)
    requires events != []
    ensures fs + FlowsIn(events) == fs + FlowIn(events[0]) + FlowsIn(events[1..])
  {
  }

  lemma PacketsSplit(events: seq<Event>, events': seq<Event>)
    requires |events| == |events'| > 0
    ensures SamePackets(events, events') <==>
      SamePacket(events[0], events'[0]) && SamePackets(events[1..], events'[1..])
    ensures AllSent(events) ==> AllSent(events[1..]) && (FlowIn(events[0]) == [] <==> Outbound(events[0]).None?)
    ensures AllSent(events') ==> AllSent(events'[1..]) && (FlowIn(events'[0]) == [] <==> Outbound(events'[0]).None?)
  {
    if SamePacket(events[0], events'[0]) && SamePackets(events[1..], events'[1..]) {
      forall k | 0 <= k < |events| ensures SamePacket(events[k], events'[k]) {
        if k > 0 { assert events[k] == events[1..][k - 1] && events'[k] == events'[1..][k - 1]; }
      }
    }
  }

  /** Two runs that differ in the packets from the tunnel look the same on every link and at every router, at
      every point, if and only if each packet sent has a counterpart on the same circuit that differs at most in
      source address and header checksum. Where all packets are sent, that means: the packets differ at
      most so, and the same ones share flows. A TCP packet from another source already differs in its TCP
      checksum (TcpTells), any other packet does not (OthersTellNothing). */
  lemma Untraceable(w: World, events: seq<Event>, events': seq<Event>)
    requires Boot(w) && IsRun(w, events) && IsRun(w, events') && AllPaired(events, events')
    ensures SameSights(w, w, events, events') <==> Indistinct([], [], events, events')
    ensures AllSent(events) && AllSent(events') ==>
      (SameSights(w, w, events, events') <==>
       SamePackets(events, events') && SamePattern(FlowsIn(events), FlowsIn(events')))
  {
    BootInv(w);
    SightsIff(w, [], w, [], [], events, events');
    if AllSent(events) && AllSent(events') {
      FromStart(events, events');
    }
  }

  lemma FromStart(events: seq<Event>, events': seq<Event>)
    requires |events| == |events'| && AllSent(events) && AllSent(events')
    ensures Indistinct([], [], events, events') <==>
      SamePackets(events, events') && SamePattern(FlowsIn(events), FlowsIn(events'))
  {
    IndistinctIff([], [], events, events');
    assert [] + FlowsIn(events) == FlowsIn(events) && [] + FlowsIn(events') == FlowsIn(events');
    SameCircuits(FlowsIn(events), FlowsIn(events'));
  }

  /** The same packet from two hosts takes two circuits, from one host only one. */
  lemma SecondHost(m: Bytes, m': Bytes)
    requires Packet(m) && Packet(m') && SourceOf(m) != SourceOf(m')
    ensures Circuits([FlowOf(m), FlowOf(m')]) == [0, 1] && Circuits([FlowOf(m), FlowOf(m)]) == [0, 0]
  {
    TwoCircuits(FlowOf(m), FlowOf(m'));
    TwoCircuits(FlowOf(m), FlowOf(m));
  }

  lemma TwoCircuits(f: Flow, g: Flow)
    ensures Circuits([f, g]) == [0, if f == g then 0 else 1]
  {
    OneCircuit(f);
    CircuitsNext([f], g);
    assert [f] + [g] == [f, g];
  }

  lemma OneCircuit(f: Flow)
    ensures Circuits([f]) == [0] && Table([f]) == [f]
  {
    assert [f][..0] == [];
  }

  // ---- Whom an answer reaches ----

  /** The source of the last packet the proxy sent */
  function LastSource(events: seq<Event>, host: Bytes): Bytes {
    if events == [] then host
    else LastSource(events[1..], match Outbound(events[0]) case None => host case Some(m) => SourceOf(m))
  }

  lemma {:induction false} HostRun(w: World, events: seq<Event>)
    requires IsRun(w, events)
    ensures Final(w, events).host == LastSource(events, w.host)
    decreases |events|
  {
    if events != [] {
      StepAdds(w, events[0], 0);
      HostRun(Next(w, events[0]), events[1..]);
    }
  }

  /** An answer of circuit i is next on a link into the proxy. */
  ghost predicate AnswerNext(w: World, from: nat, i: nat) {
    && C.Link(w.links, from, w.proxy) != [] && C.Link(w.links, from, w.proxy)[0].cid == i + 1
    && |w.flows| == |w.plans| == |w.logs| && i < |w.logs| && Shaped(w)
  }

  /** The answer with all its bytes, and whether it reaches the host that has the flow: if and only if that
      host sent the last packet before it is delivered. */
  lemma ReachesSender(w: World, events: seq<Event>, from: nat, i: nat)
    requires Boot(w) && IsRun(w, events) && AnswerNext(Final(w, events), from, i)
    ensures var e := Final(w, events);
      var l, l' := e.logs[i], Next(e, Arrives(from, e.proxy)).logs[i];
      && |l.received| < |l.replied| && l'.received == l.received + [l.replied[|l.received|]]
      && |l'.homes| == |l'.received| && l'.homes[|l.received|] == LastSource(events, w.host)
      && (l'.homes[|l.received|] == e.flows[i].src <==> LastSource(events, w.host) == e.flows[i].src)
  {
    BootInv(w);
    var cs := RunKeeps(w, [], events);
    var e := Final(w, events);
    HostRun(w, events);
    Delivery(e, cs, from, i);
  }

  lemma Delivery(e: World, cs: seq<T.Cargo>, from: nat, i: nat)
    requires Inv(e, cs) && AnswerNext(e, from, i)
    ensures var l, l' := e.logs[i], Next(e, Arrives(from, e.proxy)).logs[i];
      && |l.received| == |l.homes| < |l.replied| && l'.received == l.received + [l.replied[|l.received|]]
      && l'.homes == l.homes + [e.host]
  {
    HeadSlot(e, cs, from, i);
    var m := DeliveredNow(e, from, i);
    var cs' := ArriveStep(e, cs, from, e.proxy);
    ReceivedSoFar(e, cs, i);
    ReceivedSoFar(Next(e, Arrives(from, e.proxy)), cs', i);
    LastAnswer(e.logs[i].received, m, e.logs[i].replied);
  }

  lemma HeadSlot(e: World, cs: seq<T.Cargo>, from: nat, i: nat)
    requires Inv(e, cs) && AnswerNext(e, from, i)
    ensures e.plans[i].c.Unwrap(e.plans[i].keys, C.Link(e.links, from, e.proxy)[0].payload).Some?
  {
    assert CircuitOk(e, i, cs[i]);
    SmallSlot(i + 1);
    TakenOff(e, cs, from, e.proxy, i);
  }

  lemma SmallSlot(n: nat)
    requires n < 16
    ensures Slot(n) == n
  {
  }

  lemma DeliveredNow(e: World, from: nat, i: nat) returns (m: Bytes)
    requires AnswerNext(e, from, i)
    requires e.plans[i].c.Unwrap(e.plans[i].keys, C.Link(e.links, from, e.proxy)[0].payload).Some?
    ensures var l, l' := e.logs[i], Next(e, Arrives(from, e.proxy)).logs[i];
      l' == l.(received := l.received + [m], homes := l.homes + [e.host])
  {
    m := e.plans[i].c.Unwrap(e.plans[i].keys, C.Link(e.links, from, e.proxy)[0].payload).value;
  }

  lemma LastAnswer(received: seq<Bytes>, m: Bytes, replied: seq<Bytes>)
    requires received <= replied && received + [m] <= replied
    ensures |received| < |replied| && m == replied[|received|]
  {
    assert (received + [m])[|received|] == m;
  }

  lemma ReceivedSoFar(w: World, cs: seq<T.Cargo>, i: nat)
    requires Inv(w, cs) && i < |w.logs|
    ensures w.logs[i].received <= w.logs[i].replied && |w.logs[i].homes| == |w.logs[i].received|
  {
    assert CircuitOk(w, i, cs[i]);
  }

  lemma {:induction false} RunJoin(w: World, events: seq<Event>, e: Event)
    requires IsRun(w, events) && Enabled(Final(w, events), e)
    ensures IsRun(w, events + [e]) && Final(w, events + [e]) == Next(Final(w, events), e)
    decreases |events|
  {
    if events == [] {
      assert [] + [e] == [e] && [e][1..] == [];
    } else {
      assert (events + [e])[0] == events[0] && (events + [e])[1..] == events[1..] + [e];
      RunJoin(Next(w, events[0]), events[1..], e);
    }
  }

  /** The interleaving that goes wrong: any other host sends a packet while the answer waits at the proxy. */
  lemma WrongHost(w: World, events: seq<Event>, from: nat, i: nat, m: Bytes)
    requires Boot(w) && IsRun(w, events) && AnswerNext(Final(w, events), from, i)
    requires Packet(m) && Sends(m) && FlowOf(m) in Final(w, events).flows
    requires SourceOf(m) != Final(w, events).flows[i].src
    ensures IsRun(w, events + [FromTunnel(m)])
    ensures var e := Final(w, events + [FromTunnel(m)]);
      && AnswerNext(e, from, i) && e.flows == Final(w, events).flows
      && var l := Next(e, Arrives(from, e.proxy)).logs[i];
         l.homes != [] && l.homes[|l.homes| - 1] == SourceOf(m) != e.flows[i].src
  {
    BootInv(w);
    var cs := RunKeeps(w, [], events);
    RunJoin(w, events, FromTunnel(m));
    OtherSends(Final(w, events), cs, from, i, m);
  }

  lemma OtherSends(e: World, cs: seq<T.Cargo>, from: nat, i: nat, m: Bytes)
    requires Inv(e, cs) && AnswerNext(e, from, i) && Packet(m) && Sends(m) && FlowOf(m) in e.flows
    ensures var e' := Next(e, FromTunnel(m));
      && AnswerNext(e', from, i) && e'.flows == e.flows
      && var l := Next(e', Arrives(from, e'.proxy)).logs[i];
         l.homes != [] && l.homes[|l.homes| - 1] == SourceOf(m)
  {
    var j := Place(e.flows, FlowOf(m));
    assert CircuitOk(e, j, cs[j]);
    var cs' := SendStep(e, cs, j, m);
    StillNext(e, from, i, j, m);
    Delivery(SendOn(e, j, m), cs', from, i);
  }

  /** Sending does not touch the links into the proxy. */
  lemma StillNext(e: World, from: nat, i: nat, j: nat, m: Bytes)
    requires AnswerNext(e, from, i) && j < |e.plans| && PlanShaped(e.plans[j]) && |m| >= HEADER
    requires e.plans[j].ports[1] != e.proxy
    ensures AnswerNext(SendOn(e, j, m), from, i) && SendOn(e, j, m).host == SourceOf(m)
  {
    assert C.Link(SendOn(e, j, m).links, from, e.proxy) == C.Link(e.links, from, e.proxy);
  }
}
