/** The whole anonymizing network: a proxy with its flow table, as many circuits over the same routers and links
    as the tables hold, and every interleaving of packets from the tunnel, answers and deliveries. */
module OnionNetwork {
  import opened Basics
  import opened Lists
  import opened OnionCipher
  import opened OnionRouter
  import opened OnionCircuit
  import opened OnionFlows
  import opened Rewriting
  import T = OnionTransport

  /** One circuit: the packets the proxy wrapped, those the last hop recovered, the answers the last hop sealed,
      those the proxy recovered, and the addresses it delivered them to. */
  datatype Log = Log(sent: seq<Bytes>, exited: seq<Bytes>, replied: seq<Bytes>, received: seq<Bytes>, homes: seq<Bytes>)

  /** Circuit i has number i + 1, flow flows[i] and path plans[i]. `host` is _old_src. */
  datatype World = World(
    c: Cipher, proxy: nat, routers: map<nat, Router>, links: Links, flows: seq<Flow>, plans: seq<Plan>,
    logs: seq<Log>, host: Bytes, aborted: bool)

  /** A packet from the tunnel that needs no new circuit; one that does, with the path drawn and the deliveries
      of create_circuit; an answer at the last hop of circuit i; a datagram delivered. */
  datatype Event =
    | FromTunnel(m: Bytes) | Opens(m: Bytes, p: Plan, moves: seq<Move>) | Answers(i: nat, m: Bytes)
    | Arrives(from: nat, to: nat)

  ghost predicate Shaped(w: World) {
    && |w.flows| == |w.plans| == |w.logs|
    && forall i {:trigger w.plans[i]} :: 0 <= i < |w.plans| ==> PlanShaped(w.plans[i])
  }

  predicate PlanShaped(p: Plan) {
    |p.ports| == |p.keys| + 1 && |p.keys| == |p.indices| > 0
  }

  /** A path over routers of this network, for the next circuit number. */
  ghost predicate Route(w: World, p: Plan) {
    && p.Ok() && |p.keys| > 0 && p.c == w.c && p.num == |w.plans| + 1 && p.ports[0] == w.proxy
    && forall x {:trigger p.indices[x]} :: 0 <= x < |p.keys| ==>
         p.ports[x + 1] in w.routers && w.routers[p.ports[x + 1]].index == p.indices[x]
  }

  /** What create_circuit starts from. */
  function Before(w: World): System {
    System(w.routers, w.links, 0, false, false)
  }

  /** The deliveries build the whole circuit. */
  ghost predicate Builds(w: World, p: Plan, moves: seq<Move>) {
    && OnionCircuit.IsRun(p, Before(w), moves)
    && var s := OnionCircuit.Final(p, Before(w), moves);
       s.done == |p.keys| && !s.waiting
  }

  ghost predicate Enabled(w: World, e: Event) {
    && Shaped(w)
    && match e
      case FromTunnel(m) => Packet(m) && (Handled(m) ==> FlowOf(m) in w.flows)
      case Opens(m, p, moves) =>
        && Packet(m) && Handled(m) && FlowOf(m) !in w.flows
        && T.AllQuiet(w.links) && Route(w, p) && Builds(w, p, moves)
      case Answers(i, m) =>
        && i < |w.plans|
        && var last := w.plans[i].ports[|w.plans[i].keys|];
           w.plans[i].num < KEYS && last in w.routers && TablesSized(w.routers[last])
      case Arrives(from, to) =>
        && Link(w.links, from, to) != []
        && (to != w.proxy ==>
              to in w.routers && TablesSized(w.routers[to]) && Slot(Link(w.links, from, to)[0].cid) < KEYS)
  }

  predicate TablesSized(r: Router) {
    |r.cc| == SLOTS && |r.keys| == KEYS
  }

  /** The end of handle_tun_icmp_traffic and handle_tun_tcp_traffic */
  function SendOn(w: World, i: nat, m: Bytes): World
    requires i < |w.plans| == |w.logs| && PlanShaped(w.plans[i]) && |m| >= HEADER
  {
    var hidden := Anonymous(m);
    w.(links := Put(w.links, w.proxy, w.plans[i].ports[1], T.OutMsg(w.plans[i], 0, hidden)),
       logs := w.logs[i := w.logs[i].(sent := w.logs[i].sent + [hidden])],
       host := m[SOURCE..SOURCE + 4])
  }

  /** What a router did with a datagram of circuit number n */
  function Effected(w: World, from: nat, n: nat, e: Effect): World {
    match e
    case Quiet => w
    case Send(port, m) => w.(links := Put(w.links, from, port, m))
    case Exit(packet) =>
      if 1 <= n <= |w.logs| then
        w.(logs := w.logs[n - 1 := w.logs[n - 1].(exited := w.logs[n - 1].exited + [packet])])
      else w.(aborted := true)
    case Abort => w.(aborted := true)
  }

  /** CProxy::handle_relay_msg on a datagram taken off its link */
  function AtProxy(w: World, msg: Msg): World
    requires |w.plans| == |w.logs|
  {
    if 1 <= msg.cid <= |w.plans| then
      var i := msg.cid - 1;
      match w.plans[i].c.Unwrap(w.plans[i].keys, msg.payload)
      case None => w.(aborted := true)
      case Some(m) =>
        var l := w.logs[i];
        w.(logs := w.logs[i := l.(received := l.received + [m], homes := l.homes + [w.host])])
    else w.(aborted := true)
  }

  ghost function Opened(w: World, f: Flow, p: Plan, moves: seq<Move>): World
    requires Builds(w, p, moves)
  {
    var s := OnionCircuit.Final(p, Before(w), moves);
    w.(routers := s.routers, links := s.links, flows := w.flows + [f], plans := w.plans + [p],
       logs := w.logs + [Log([], [], [], [], [])], aborted := w.aborted || s.aborted)
  }

  ghost function Next(w: World, e: Event): World
    requires Enabled(w, e)
  {
    match e
    case FromTunnel(m) => if Sends(m) then SendOn(w, Place(w.flows, FlowOf(m)), m) else w
    case Opens(m, p, moves) =>
      var w1 := Opened(w, FlowOf(m), p, moves);
      if Sends(m) then SendOn(w1, |w.plans|, m) else w1
    case Answers(i, m) =>
      var last, l := w.plans[i].ports[|w.plans[i].keys|], w.logs[i];
      Effected(w.(logs := w.logs[i := l.(replied := l.replied + [m])]), last, w.plans[i].num,
               w.routers[last].Reply(w.plans[i].c, w.plans[i].num, m))
    case Arrives(from, to) =>
      var msg := Link(w.links, from, to)[0];
      var rest := w.(links := Drop(w.links, from, to));
      if to == w.proxy then AtProxy(rest, msg)
      else
        var (r, effect) := w.routers[to].Handle(w.c, msg, from);
        Effected(rest.(routers := w.routers[to := r]), to, Slot(msg.cid), effect)
  }

  // ---- One circuit among the others ----

  /** The datagrams of circuit number n */
  function Only(ms: seq<Msg>, n: nat): seq<Msg> {
    if ms == [] then [] else Mine(ms[0], n) + Only(ms[1..], n)
  }

  function Mine(m: Msg, n: nat): seq<Msg> {
    if Slot(m.cid) == n then [m] else []
  }

  function LinksOf(links: Links, n: nat): Links {
    map k | k in links :: Only(links[k], n)
  }

  /** The network as circuit i sees it. */
  function Seen(w: World, i: nat): T.Traffic
    requires i < |w.logs|
  {
    var l := w.logs[i];
    T.Traffic(w.routers, LinksOf(w.links, i + 1), l.sent, l.exited, l.replied, l.received, w.aborted)
  }

  lemma {:induction false} OnlyPush(ms: seq<Msg>, m: Msg, n: nat)
    ensures Only(ms + [m], n) == Only(ms, n) + Mine(m, n)
  {
    if ms == [] {
      assert (ms + [m])[1..] == [] && Only([], n) == [];
    } else {
      assert (ms + [m])[0] == ms[0] && (ms + [m])[1..] == ms[1..] + [m];
      OnlyPush(ms[1..], m, n);
      assert Mine(ms[0], n) + (Only(ms[1..], n) + Mine(m, n)) == (Mine(ms[0], n) + Only(ms[1..], n)) + Mine(m, n);
    }
  }

  ghost predicate SameLinks(l: Links, l': Links) {
    forall u: nat, v: nat {:trigger Link(l, u, v)} {:trigger Link(l', u, v)} :: Link(l, u, v) == Link(l', u, v)
  }

  lemma LinkOf(links: Links, n: nat, u: nat, v: nat)
    ensures Link(LinksOf(links, n), u, v) == Only(Link(links, u, v), n)
  {
  }

  lemma PutSeen(links: Links, u: nat, v: nat, m: Msg, n: nat)
    ensures SameLinks(LinksOf(Put(links, u, v, m), n),
                      if Slot(m.cid) == n then Put(LinksOf(links, n), u, v, m) else LinksOf(links, n))
  {
    OnlyPush(Link(links, u, v), m, n);
  }

  lemma DropSeen(links: Links, u: nat, v: nat, n: nat)
    requires Link(links, u, v) != []
    ensures var seen := LinksOf(links, n);
      if Slot(Link(links, u, v)[0].cid) == n then
        && Link(seen, u, v) != [] && Link(seen, u, v)[0] == Link(links, u, v)[0]
        && SameLinks(LinksOf(Drop(links, u, v), n), Drop(seen, u, v))
      else SameLinks(LinksOf(Drop(links, u, v), n), seen)
  {
    var q, seen, next := Link(links, u, v), LinksOf(links, n), LinksOf(Drop(links, u, v), n);
    LinkOf(links, n, u, v);
    assert Only(q, n) == Mine(q[0], n) + Only(q[1..], n);
    forall x: nat, y: nat
      ensures Link(next, x, y) == if (x, y) == (u, v) then Only(q[1..], n) else Link(seen, x, y)
    {
      LinkOf(Drop(links, u, v), n, x, y);
      LinkOf(links, n, x, y);
    }
  }

  /** The same but for the way the links are stored */
  ghost predicate Alike(s: T.Traffic, s': T.Traffic) {
    SameLinks(s.links, s'.links) && s' == s.(links := s'.links)
  }

  lemma AlikeInv(p: Plan, s: T.Traffic, s': T.Traffic, c: T.Cargo)
    requires T.Inv(p, s, c) && Alike(s, s')
    ensures T.Inv(p, s', c)
  {
    var f := T.Loads(T.SealsOf(p), c);
    assert Carries(p.ports, s.links, f);
    forall x: nat, y: nat | x < |p.ports| && y < |p.ports| ensures Link(s'.links, p.ports[x], p.ports[y]) == f(x, y) {
      assert Link(s.links, p.ports[x], p.ports[y]) == f(x, y);
    }
  }

  // ---- The invariant ----

  /** Each recovered answer was delivered to an address. */
  ghost predicate HomesOk(l: Log) {
    |l.homes| == |l.received| && forall h <- l.homes :: |h| == 4
  }

  ghost predicate CircuitOk(w: World, i: nat, c: T.Cargo)
    requires i < |w.plans| == |w.logs|
  {
    && w.plans[i].num == i + 1 && w.plans[i].c == w.c && |w.plans[i].ports| > 0 && w.plans[i].ports[0] == w.proxy
    && T.Inv(w.plans[i], Seen(w, i), c) && HomesOk(w.logs[i])
  }

  /** Every datagram belongs to a circuit. */
  ghost predicate Known(links: Links, n: nat) {
    forall u: nat, v: nat, k {:trigger Link(links, u, v)[k]} :: 0 <= k < |Link(links, u, v)| ==>
      1 <= Slot(Link(links, u, v)[k].cid) <= n
  }

  /** No router knows a circuit beyond the n-th. */
  ghost predicate Vacant(routers: map<nat, Router>, n: nat) {
    forall q :: q in routers ==> routers[q].Ok() && forall k :: n < k < SLOTS ==> routers[q].cc[k].iid == 0
  }

  ghost predicate Inv(w: World, cs: seq<T.Cargo>) {
    && w.c.Ok() && w.proxy !in w.routers && |w.host| == 4 && !w.aborted
    && |w.flows| == |w.plans| == |w.logs| == |cs| && NoTwice(w.flows)
    && (forall i :: 0 <= i < |cs| ==> CircuitOk(w, i, cs[i]))
    && Known(w.links, |w.plans|) && Vacant(w.routers, |w.plans|)
  }

  ghost predicate Unseen(w: World, w': World, i: nat)
    requires i < |w.logs| == |w'.logs|
  {
    w'.logs[i] == w.logs[i] && SameLinks(LinksOf(w.links, i + 1), LinksOf(w'.links, i + 1))
  }

  /** A step of circuit j: the other circuits see nothing of it. */
  ghost predicate OnlyFor(w: World, w': World, j: nat) {
    && w' == w.(links := w'.links, logs := w'.logs, host := w'.host)
    && j < |w.plans| == |w.logs| == |w'.logs|
    && (forall i :: 0 <= i < |w.logs| && i != j ==> Unseen(w, w', i))
    && Known(w'.links, |w.plans|) && HomesOk(w'.logs[j]) && |w'.host| == 4
  }

  lemma StepOn(w: World, cs: seq<T.Cargo>, w': World, j: nat, s: T.Traffic, c: T.Cargo)
    requires Inv(w, cs) && OnlyFor(w, w', j) && Alike(s, Seen(w', j)) && T.Inv(w.plans[j], s, c)
    ensures Inv(w', cs[j := c])
  {
    AlikeInv(w.plans[j], s, Seen(w', j), c);
    assert CircuitOk(w, j, cs[j]);
    var cs' := cs[j := c];
    forall i | 0 <= i < |cs'| ensures CircuitOk(w', i, cs'[i]) {
      if i != j {
        assert CircuitOk(w, i, cs[i]) && Unseen(w, w', i);
        AlikeInv(w.plans[i], Seen(w, i), Seen(w', i), cs[i]);
      }
    }
  }

  lemma KnownPut(links: Links, u: nat, v: nat, m: Msg, n: nat)
    requires Known(links, n) && 1 <= Slot(m.cid) <= n
    ensures Known(Put(links, u, v, m), n)
  {
    var next := Put(links, u, v, m);
    forall x: nat, y: nat, k | 0 <= k < |Link(next, x, y)| ensures 1 <= Slot(Link(next, x, y)[k].cid) <= n {
      if k < |Link(links, x, y)| { assert Link(next, x, y)[k] == Link(links, x, y)[k]; }
    }
  }

  lemma KnownDrop(links: Links, u: nat, v: nat, n: nat)
    requires Known(links, n) && Link(links, u, v) != []
    ensures Known(Drop(links, u, v), n)
  {
    var next := Drop(links, u, v);
    forall x: nat, y: nat, k | 0 <= k < |Link(next, x, y)| ensures 1 <= Slot(Link(next, x, y)[k].cid) <= n {
      var was := Link(links, x, y);
      assert Link(next, x, y)[k] == if (x, y) == (u, v) then was[k + 1] else was[k];
    }
  }

  /** A datagram of circuit j is put on a link. */
  lemma PutOnlyFor(w: World, w': World, j: nat, u: nat, v: nat, m: Msg)
    requires j < |w.plans| == |w.logs| == |w'.logs| && Slot(m.cid) == j + 1 && Known(w.links, |w.plans|)
    requires w' == w.(links := Put(w.links, u, v, m), logs := w'.logs, host := w'.host)
    requires forall i :: 0 <= i < |w.logs| && i != j ==> w'.logs[i] == w.logs[i]
    requires HomesOk(w'.logs[j]) && |w'.host| == 4
    ensures OnlyFor(w, w', j)
  {
    KnownPut(w.links, u, v, m, |w.plans|);
    forall i | 0 <= i < |w.logs| && i != j ensures Unseen(w, w', i) {
      PutSeen(w.links, u, v, m, i + 1);
    }
  }

  /** A datagram of circuit j is taken off its link. */
  lemma DropOnlyFor(w: World, j: nat, u: nat, v: nat)
    requires j < |w.plans| == |w.logs| && Known(w.links, |w.plans|) && HomesOk(w.logs[j]) && |w.host| == 4
    requires Link(w.links, u, v) != [] && Slot(Link(w.links, u, v)[0].cid) == j + 1
    ensures OnlyFor(w, w.(links := Drop(w.links, u, v)), j)
  {
    KnownDrop(w.links, u, v, |w.plans|);
    var w' := w.(links := Drop(w.links, u, v));
    forall i | 0 <= i < |w.logs| && i != j ensures Unseen(w, w', i) {
      DropSeen(w.links, u, v, i + 1);
    }
  }

  /** Only the log of circuit j changes. */
  lemma LogOnlyFor(w: World, j: nat, l: Log)
    requires j < |w.plans| == |w.logs| && Known(w.links, |w.plans|) && HomesOk(l) && |w.host| == 4
    ensures OnlyFor(w, w.(logs := w.logs[j := l]), j)
  {
  }

  lemma OnlyForBoth(w: World, v: World, w': World, j: nat)
    requires OnlyFor(w, v, j) && OnlyFor(v, w', j)
    ensures OnlyFor(w, w', j)
  {
    forall i | 0 <= i < |w.logs| && i != j ensures Unseen(w, w', i) {
      assert Unseen(w, v, i) && Unseen(v, w', i);
    }
  }

  // ---- Steps ----

  lemma SendStep(w: World, cs: seq<T.Cargo>, i: nat, m: Bytes) returns (cs': seq<T.Cargo>)
    requires Inv(w, cs) && i < |w.plans| && |m| >= HEADER
    ensures PlanShaped(w.plans[i]) && Inv(SendOn(w, i, m), cs')
  {
    assert CircuitOk(w, i, cs[i]);
    var p, s, hidden := w.plans[i], Seen(w, i), Anonymous(m);
    var w' := SendOn(w, i, m);
    IdSlot(p, 0);
    T.SendStep(p, s, cs[i], hidden);
    PutSeen(w.links, w.proxy, p.ports[1], T.OutMsg(p, 0, hidden), i + 1);
    PutOnlyFor(w, w', i, w.proxy, p.ports[1], T.OutMsg(p, 0, hidden));
    var c := cs[i].(out := T.PushAt(cs[i].out, 0, hidden));
    StepOn(w, cs, w', i, T.Next(p, s, T.SendPacket(hidden)), c);
    cs' := cs[i := c];
  }

  lemma AnswerStep(w: World, cs: seq<T.Cargo>, i: nat, m: Bytes) returns (cs': seq<T.Cargo>)
    requires Inv(w, cs) && Enabled(w, Answers(i, m))
    ensures Inv(Next(w, Answers(i, m)), cs')
  {
    assert CircuitOk(w, i, cs[i]);
    var p, s, n := w.plans[i], Seen(w, i), |w.plans[i].keys|;
    var w' := Next(w, Answers(i, m));
    AnswerIs(p, s, cs[i], m);
    AnswerSeen(w, w', i, m);
    T.AnswerStep(p, s, cs[i], m);
    var c := cs[i].(back := T.PushAt(cs[i].back, |cs[i].back| - 1, m));
    StepOn(w, cs, w', i, T.Next(p, s, T.Answer(m)), c);
    cs' := cs[i := c];
  }

  /** What the last hop sends */
  lemma AnswerIs(p: Plan, s: T.Traffic, c: T.Cargo, m: Bytes)
    requires T.Inv(p, s, c)
    ensures var n := |p.keys|;
      && p.ports[n] in s.routers && TablesSized(s.routers[p.ports[n]])
      && s.routers[p.ports[n]].Reply(p.c, p.num, m) == Send(p.ports[n - 1], T.BackMsg(p, n - 1, m))
  {
    assert T.HopBuilt(p, s.routers, |p.keys| - 1);
    T.ReplyStarts(p, s.routers[p.ports[|p.keys|]], m);
  }

  /** The answer is on its link. */
  lemma AnswerSeen(w: World, w': World, i: nat, m: Bytes)
    requires i < |w.plans| == |w.logs| && w.plans[i].Ok() && w.plans[i].num == i + 1 && |w.plans[i].keys| > 0
    requires Known(w.links, |w.plans|) && HomesOk(w.logs[i]) && |w.host| == 4
    requires var p, n := w.plans[i], |w.plans[i].keys|;
      w' == w.(links := Put(w.links, p.ports[n], p.ports[n - 1], T.BackMsg(p, n - 1, m)),
               logs := w.logs[i := w.logs[i].(replied := w.logs[i].replied + [m])])
    ensures var p, n := w.plans[i], |w.plans[i].keys|;
      && OnlyFor(w, w', i)
      && SameLinks(LinksOf(w'.links, i + 1),
                   Put(LinksOf(w.links, i + 1), p.ports[n], p.ports[n - 1], T.BackMsg(p, n - 1, m)))
  {
    var p, n := w.plans[i], |w.plans[i].keys|;
    IdSlot(p, n - 1);
    PutSeen(w.links, p.ports[n], p.ports[n - 1], T.BackMsg(p, n - 1, m), i + 1);
    PutOnlyFor(w, w', i, p.ports[n], p.ports[n - 1], T.BackMsg(p, n - 1, m));
  }

  /** What is at the head of a link of this circuit, and what the router at its end does with it. */
  lemma HeadEffect(p: Plan, s: T.Traffic, c: T.Cargo, from: nat, to: nat)
    requires T.Inv(p, s, c) && Link(s.links, from, to) != []
    ensures T.Enabled(p, s, T.Arrive(from, to))
    ensures to == p.ports[0] ==>
      Link(s.links, from, to)[0].cid == p.num && p.c.Unwrap(p.keys, Link(s.links, from, to)[0].payload).Some?
    ensures to != p.ports[0] ==>
      var (r, e) := s.routers[to].Handle(p.c, Link(s.links, from, to)[0], from);
      r == s.routers[to] && (e.Exit? || (e.Send? && Slot(e.msg.cid) == p.num))
  {
    var f := T.Loads(T.SealsOf(p), c);
    var x, y := Positions(p, s.links, f, from, to);
    if y == x + 1 {
      OutHead(p, s, c, x);
    } else {
      BackHead(p, s, c, y);
    }
  }

  lemma OutHead(p: Plan, s: T.Traffic, c: T.Cargo, x: nat)
    requires T.Inv(p, s, c) && x < |p.keys| && Link(s.links, p.ports[x], p.ports[x + 1]) != []
    ensures T.Enabled(p, s, T.Arrive(p.ports[x], p.ports[x + 1])) && p.ports[x + 1] != p.ports[0]
    ensures var msg := Link(s.links, p.ports[x], p.ports[x + 1])[0];
      var (r, e) := s.routers[p.ports[x + 1]].Handle(p.c, msg, p.ports[x]);
      r == s.routers[p.ports[x + 1]] && (e.Exit? || (e.Send? && Slot(e.msg.cid) == p.num))
  {
    var f := T.Loads(T.SealsOf(p), c);
    assert f(x, x + 1) == Link(s.links, p.ports[x], p.ports[x + 1]);
    assert T.HopBuilt(p, s.routers, x);
    var m, r := c.out[x][0], s.routers[p.ports[x + 1]];
    IdSlot(p, x);
    if x + 1 < |p.keys| {
      T.RelayPasses(p, r, x, m, p.ports[x]);
      IdSlot(p, x + 1);
    } else {
      T.RelayExits(p, r, m, p.ports[x]);
    }
  }

  lemma BackHead(p: Plan, s: T.Traffic, c: T.Cargo, x: nat)
    requires T.Inv(p, s, c) && x < |p.keys| && Link(s.links, p.ports[x + 1], p.ports[x]) != []
    ensures T.Enabled(p, s, T.Arrive(p.ports[x + 1], p.ports[x]))
    ensures p.ports[x] == p.ports[0] ==>
      var msg := Link(s.links, p.ports[x + 1], p.ports[x])[0];
      msg.cid == p.num && p.c.Unwrap(p.keys, msg.payload).Some?
    ensures p.ports[x] != p.ports[0] ==>
      var (r, e) := s.routers[p.ports[x]].Handle(p.c, Link(s.links, p.ports[x + 1], p.ports[x])[0], p.ports[x + 1]);
      r == s.routers[p.ports[x]] && e.Send? && Slot(e.msg.cid) == p.num
  {
    var f := T.Loads(T.SealsOf(p), c);
    assert f(x + 1, x) == Link(s.links, p.ports[x + 1], p.ports[x]);
    var m := c.back[x][0];
    IdSlot(p, x);
    if x > 0 {
      assert p.ports[x] != p.ports[0];
      assert T.HopBuilt(p, s.routers, x - 1);
      T.ReplyPasses(p, s.routers[p.ports[x]], x - 1, m, p.ports[x + 1]);
      IdSlot(p, x - 1);
    } else {
      assert p.keys[0..] == p.keys;
      UnwrapWrap(p.c, p.keys, m);
    }
  }

  /** At the proxy */
  lemma ProxySeen(w: World, rest: World, msg: Msg, i: nat)
    requires |w.plans| == |w.logs| && OnlyFor(w, rest, i) && rest.logs == w.logs
    requires msg.cid == i + 1 && rest.plans[i].c.Unwrap(rest.plans[i].keys, msg.payload).Some?
    ensures OnlyFor(w, AtProxy(rest, msg), i)
    ensures var m := w.plans[i].c.Unwrap(w.plans[i].keys, msg.payload).value;
      Seen(AtProxy(rest, msg), i) == Seen(rest, i).(received := w.logs[i].received + [m])
  {
    var w' := AtProxy(rest, msg);
    LogOnlyFor(rest, i, w'.logs[i]);
    OnlyForBoth(w, rest, w', i);
  }

  /** At a router */
  lemma HopSeen(w: World, rest: World, to: nat, i: nat, e: Effect)
    requires |w.plans| == |w.logs| && OnlyFor(w, rest, i) && rest.logs == w.logs
    requires e.Exit? || (e.Send? && Slot(e.msg.cid) == i + 1)
    ensures OnlyFor(w, Effected(rest, to, i + 1, e), i)
    ensures Alike(T.Sent(Seen(rest, i), to, e), Seen(Effected(rest, to, i + 1, e), i))
  {
    var w' := Effected(rest, to, i + 1, e);
    if e.Send? {
      HopSends(rest, to, i, e.port, e.msg);
    } else {
      LogOnlyFor(rest, i, w'.logs[i]);
    }
    OnlyForBoth(w, rest, w', i);
  }

  lemma HopSends(w: World, to: nat, i: nat, port: nat, msg: Msg)
    requires i < |w.plans| == |w.logs| && Known(w.links, |w.plans|) && HomesOk(w.logs[i]) && |w.host| == 4
    requires Slot(msg.cid) == i + 1
    ensures var w' := w.(links := Put(w.links, to, port, msg));
      OnlyFor(w, w', i) && Alike(Seen(w, i).(links := Put(LinksOf(w.links, i + 1), to, port, msg)), Seen(w', i))
  {
    PutSeen(w.links, to, port, msg, i + 1);
    PutOnlyFor(w, w.(links := Put(w.links, to, port, msg)), i, to, port, msg);
  }

  lemma SentAlike(s: T.Traffic, s': T.Traffic, s'': T.Traffic, from: nat, e: Effect)
    requires Alike(s, s') && Alike(T.Sent(s', from, e), s'')
    ensures Alike(T.Sent(s, from, e), s'')
  {
    var t, t' := T.Sent(s, from, e), T.Sent(s', from, e);
    forall u: nat, v: nat ensures Link(t.links, u, v) == Link(s''.links, u, v) {
      assert Link(s.links, u, v) == Link(s'.links, u, v) && Link(t'.links, u, v) == Link(s''.links, u, v);
      if e.Send? {
        assert Link(s.links, from, e.port) == Link(s'.links, from, e.port);
      }
    }
  }

  /** A delivery on the network is the same delivery on the circuit the datagram belongs to. */
  lemma ArriveSeen(w: World, cs: seq<T.Cargo>, from: nat, to: nat, i: nat)
    requires Inv(w, cs) && Enabled(w, Arrives(from, to)) && i < |w.plans|
    requires Slot(Link(w.links, from, to)[0].cid) == i + 1
    ensures T.Enabled(w.plans[i], Seen(w, i), T.Arrive(from, to))
    ensures OnlyFor(w, Next(w, Arrives(from, to)), i)
    ensures Alike(T.Next(w.plans[i], Seen(w, i), T.Arrive(from, to)), Seen(Next(w, Arrives(from, to)), i))
  {
    assert CircuitOk(w, i, cs[i]);
    TakenOff(w, cs, from, to, i);
    if to == w.proxy {
      ProxySeen(w, w.(links := Drop(w.links, from, to)), Link(w.links, from, to)[0], i);
    } else {
      HopArrives(w, cs, from, to, i);
    }
  }

  lemma HopArrives(w: World, cs: seq<T.Cargo>, from: nat, to: nat, i: nat)
    requires Inv(w, cs) && Enabled(w, Arrives(from, to)) && i < |w.plans| && to != w.proxy
    requires Slot(Link(w.links, from, to)[0].cid) == i + 1 && T.Enabled(w.plans[i], Seen(w, i), T.Arrive(from, to))
    ensures OnlyFor(w, Next(w, Arrives(from, to)), i)
    ensures Alike(T.Next(w.plans[i], Seen(w, i), T.Arrive(from, to)), Seen(Next(w, Arrives(from, to)), i))
  {
    assert CircuitOk(w, i, cs[i]);
    TakenOff(w, cs, from, to, i);
    var rest := w.(links := Drop(w.links, from, to));
    var (r, e) := w.routers[to].Handle(w.c, Link(w.links, from, to)[0], from);
    assert w.routers[to := r] == w.routers;
    HopSeen(w, rest, to, i, e);
    var s := Seen(w, i).(links := Drop(Seen(w, i).links, from, to));
    SentAlike(s, Seen(rest, i), Seen(Effected(rest, to, i + 1, e), i), to, e);
  }

  /** The datagram is the next one of its circuit too. */
  lemma TakenOff(w: World, cs: seq<T.Cargo>, from: nat, to: nat, i: nat)
    requires Inv(w, cs) && i < |w.plans| && Link(w.links, from, to) != []
    requires Slot(Link(w.links, from, to)[0].cid) == i + 1
    ensures var p, s, msg := w.plans[i], Seen(w, i), Link(w.links, from, to)[0];
      var rest := w.(links := Drop(w.links, from, to));
      && T.Enabled(p, s, T.Arrive(from, to)) && Link(s.links, from, to)[0] == msg
      && OnlyFor(w, rest, i) && Alike(s.(links := Drop(s.links, from, to)), Seen(rest, i))
      && (to == w.proxy ==> msg.cid == i + 1 && p.c.Unwrap(p.keys, msg.payload).Some?)
      && (to != w.proxy ==>
            && to in w.routers && TablesSized(w.routers[to]) && Slot(msg.cid) < KEYS
            && var (r, e) := w.routers[to].Handle(w.c, msg, from);
               r == w.routers[to] && (e.Exit? || (e.Send? && Slot(e.msg.cid) == i + 1)))
  {
    assert CircuitOk(w, i, cs[i]);
    DropSeen(w.links, from, to, i + 1);
    HeadEffect(w.plans[i], Seen(w, i), cs[i], from, to);
    DropOnlyFor(w, i, from, to);
  }

  lemma ArriveStep(w: World, cs: seq<T.Cargo>, from: nat, to: nat) returns (cs': seq<T.Cargo>)
    requires Inv(w, cs) && Enabled(w, Arrives(from, to))
    ensures Inv(Next(w, Arrives(from, to)), cs')
  {
    assert 1 <= Slot(Link(w.links, from, to)[0].cid) <= |w.plans|;
    var i := Slot(Link(w.links, from, to)[0].cid) - 1;
    assert CircuitOk(w, i, cs[i]);
    ArriveSeen(w, cs, from, to, i);
    var c := T.AnyStep(w.plans[i], Seen(w, i), cs[i], T.Arrive(from, to));
    StepOn(w, cs, Next(w, Arrives(from, to)), i, T.Next(w.plans[i], Seen(w, i), T.Arrive(from, to)), c);
    cs' := cs[i := c];
  }

  // ---- A new circuit ----

  lemma RouteStarts(w: World, cs: seq<T.Cargo>, p: Plan)
    requires Inv(w, cs) && T.AllQuiet(w.links) && Route(w, p)
    ensures Start(p, Before(w))
  {
    var s := Before(w);
    forall x | 0 <= x < |p.keys| ensures HopOk(p, s, Idle, x) {
      var index := p.indices[x];
      assert p.ports[x + 1] in w.routers && w.routers[p.ports[x + 1]].index == index;
    }
    forall u: nat, v: nat ensures Link(s.links, u, v) == [] {
      assert Link(w.links, u, v) == [];
    }
  }

  /** Between two iterations of create_circuit nothing is under way. */
  lemma IdleQuiet(p: Plan, s: System)
    requires OnionCircuit.Inv(p, s, Idle)
    ensures T.AllQuiet(s.links)
  {
    var f := Expected(FlightOf(p, s.done), s.done, Idle);
    forall u: nat, v: nat ensures Link(s.links, u, v) == [] {
      if Link(s.links, u, v) != [] {
        var x, y := Positions(p, s.links, f, u, v);
        assert false;
      }
    }
  }

  /** What create_circuit leaves behind. */
  lemma BuildsMeans(w: World, cs: seq<T.Cargo>, p: Plan, moves: seq<Move>)
    requires Inv(w, cs) && T.AllQuiet(w.links) && Route(w, p) && Builds(w, p, moves)
    ensures var s := OnionCircuit.Final(p, Before(w), moves);
      !s.aborted && T.Built(p, s.routers) && T.AllQuiet(s.links) && OthersSame(p, Before(w), s)
  {
    RouteStarts(w, cs, p);
    var s := OnionCircuit.Final(p, Before(w), moves);
    CircuitIsBuilt(p, Before(w), moves);
    T.EstablishedIsBuilt(p, s);
    StartInv(p, Before(w));
    var ph := OnionCircuit.RunKeeps(p, Before(w), Idle, moves);
    IdleQuiet(p, s);
    RunElsewhere(p, Before(w), Idle, moves);
  }

  /** A circuit in place stays in place when another one is built. */
  lemma StillReady(q: Plan, x: nat, r: Router, r': Router, n: nat)
    requires q.Ok() && x < |q.keys| && q.Ready(r, x) && q.num != n && Elsewhere(n, r, r') && r'.Ok()
    ensures q.Ready(r', x)
  {
    IdSlot(q, x);
    assert r'.cc[q.num].iid == q.Cid(x);
  }

  lemma StillBuilt(q: Plan, p: Plan, s: System, s': System)
    requires T.Built(q, s.routers) && q.num != p.num && OthersSame(p, s, s')
    requires forall k :: k in s'.routers ==> s'.routers[k].Ok()
    ensures T.Built(q, s'.routers)
  {
    forall x | 0 <= x < |q.keys| ensures T.HopBuilt(q, s'.routers, x) {
      assert T.HopBuilt(q, s.routers, x);
      var k := q.ports[x + 1];
      StillReady(q, x, s.routers[k], s'.routers[k], p.num);
    }
  }

  /** Every router is in order again, and knows no circuit beyond the new one. */
  lemma StillVacant(w: World, p: Plan, s: System)
    requires Vacant(w.routers, |w.plans|) && p.num == |w.plans| + 1 && T.Built(p, s.routers)
    requires OthersSame(p, Before(w), s)
    requires p.ports[0] !in w.routers
    ensures Vacant(s.routers, |w.plans| + 1)
  {
    forall q | q in s.routers
      ensures s.routers[q].Ok() && forall k :: |w.plans| + 1 < k < SLOTS ==> s.routers[q].cc[k].iid == 0
    {
      assert Elsewhere(p.num, w.routers[q], s.routers[q]) && w.routers[q].Ok();
      if q in p.ports {
        var x :| 0 <= x < |p.ports| && p.ports[x] == q;
        if x > 0 { assert T.HopBuilt(p, s.routers, x - 1); }
      }
    }
  }

  ghost function Empty(p: Plan): T.Cargo {
    T.Cargo(seq(|p.keys|, i => []), seq(|p.keys|, i => []))
  }

  lemma QuietSeen(links: Links, n: nat)
    requires T.AllQuiet(links)
    ensures T.AllQuiet(LinksOf(links, n))
  {
    forall u: nat, v: nat ensures Link(LinksOf(links, n), u, v) == [] {
      LinkOf(links, n, u, v);
      assert Link(links, u, v) == [];
    }
  }

  /** A circuit without packets */
  lemma EmptyInv(p: Plan, s: T.Traffic)
    requires T.Built(p, s.routers) && T.AllQuiet(s.links) && !s.aborted
    requires s.sent == s.exited == s.replied == s.received == []
    ensures T.Inv(p, s, Empty(p))
  {
    var c := Empty(p);
    T.NothingPending(c.out);
    var f := T.Loads(T.SealsOf(p), c);
    forall x: nat, y: nat ensures f(x, y) == [] { }
    assert Carries(p.ports, s.links, f);
  }

  /** A circuit keeps its packets while another one is built. */
  lemma OldInv(q: Plan, s: T.Traffic, s': T.Traffic, c: T.Cargo)
    requires T.Inv(q, s, c) && T.AllQuiet(s.links) && T.AllQuiet(s'.links) && T.Built(q, s'.routers)
    requires s' == s.(routers := s'.routers, links := s'.links)
    ensures T.Inv(q, s', c)
  {
    var t := s.(routers := s'.routers);
    assert T.Inv(q, t, c);
    forall u: nat, v: nat ensures Link(t.links, u, v) == Link(s'.links, u, v) {
      assert Link(s.links, u, v) == [] && Link(s'.links, u, v) == [];
    }
    AlikeInv(q, t, s', c);
  }

  lemma OpenStep(w: World, cs: seq<T.Cargo>, f: Flow, p: Plan, moves: seq<Move>)
    requires Inv(w, cs) && f !in w.flows && T.AllQuiet(w.links) && Route(w, p) && Builds(w, p, moves)
    ensures Inv(Opened(w, f, p, moves), cs + [Empty(p)])
  {
    var s, w', cs' := OnionCircuit.Final(p, Before(w), moves), Opened(w, f, p, moves), cs + [Empty(p)];
    BuildsMeans(w, cs, p, moves);
    StillVacant(w, p, s);
    OpenedCircuits(w, cs, w', p, s);
    assert Known(w'.links, |w'.plans|);
  }

  lemma OpenedCircuits(w: World, cs: seq<T.Cargo>, w': World, p: Plan, s: System)
    requires |cs| == |w.plans| == |w.logs| && (forall i :: 0 <= i < |cs| ==> CircuitOk(w, i, cs[i])) && !w.aborted
    requires w' == w.(routers := s.routers, links := s.links, flows := w'.flows, plans := w.plans + [p],
                      logs := w.logs + [Log([], [], [], [], [])])
    requires T.AllQuiet(w.links) && T.AllQuiet(s.links) && OthersSame(p, Before(w), s)
    requires T.Built(p, s.routers) && p.num == |w.plans| + 1 && p.c == w.c && p.ports[0] == w.proxy
    requires forall k :: k in s.routers ==> s.routers[k].Ok()
    ensures var cs' := cs + [Empty(p)]; forall i :: 0 <= i < |cs'| ==> CircuitOk(w', i, cs'[i])
  {
    var cs' := cs + [Empty(p)];
    forall i | 0 <= i < |cs'| ensures CircuitOk(w', i, cs'[i]) {
      if i < |cs| {
        assert CircuitOk(w, i, cs[i]);
        OldCircuit(w, w', i, cs[i], p, s);
      } else {
        QuietSeen(s.links, i + 1);
        EmptyInv(p, Seen(w', i));
      }
    }
  }

  lemma OldCircuit(w: World, w': World, i: nat, c: T.Cargo, p: Plan, s: System)
    requires i < |w.plans| == |w.logs| && CircuitOk(w, i, c) && p.num == |w.plans| + 1
    requires i < |w'.plans| == |w'.logs| && w'.plans[i] == w.plans[i] && w'.logs[i] == w.logs[i]
    requires w'.c == w.c && w'.proxy == w.proxy && w'.aborted == w.aborted
    requires w'.routers == s.routers && w'.links == s.links
    requires T.AllQuiet(w.links) && T.AllQuiet(s.links) && OthersSame(p, Before(w), s)
    requires forall k :: k in s.routers ==> s.routers[k].Ok()
    ensures CircuitOk(w', i, c)
  {
    QuietSeen(w.links, i + 1);
    QuietSeen(s.links, i + 1);
    StillBuilt(w.plans[i], p, Before(w), s);
    OldInv(w.plans[i], Seen(w, i), Seen(w', i), c);
  }

  lemma AnyStep(w: World, cs: seq<T.Cargo>, e: Event) returns (cs': seq<T.Cargo>)
    requires Inv(w, cs) && Enabled(w, e)
    ensures Inv(Next(w, e), cs')
  {
    match e
    case FromTunnel(m) =>
      if Sends(m) {
        cs' := SendStep(w, cs, Place(w.flows, FlowOf(m)), m);
      } else {
        cs' := cs;
      }
    case Opens(m, p, moves) =>
      OpenStep(w, cs, FlowOf(m), p, moves);
      cs' := cs + [Empty(p)];
      if Sends(m) {
        cs' := SendStep(Opened(w, FlowOf(m), p, moves), cs', |w.plans|, m);
      }
    case Answers(i, m) => cs' := AnswerStep(w, cs, i, m);
    case Arrives(from, to) => cs' := ArriveStep(w, cs, from, to);
  }

  // ---- Runs ----

  /** No circuit yet, nothing under way, and routers that know nothing. */
  ghost predicate Boot(w: World) {
    && w.c.Ok() && w.proxy !in w.routers && |w.host| == 4 && !w.aborted
    && w.flows == [] && w.plans == [] && w.logs == []
    && T.AllQuiet(w.links) && Vacant(w.routers, 0)
  }

  ghost predicate IsRun(w: World, events: seq<Event>)
    decreases |events|
  {
    events == [] || (Enabled(w, events[0]) && IsRun(Next(w, events[0]), events[1..]))
  }

  ghost function Final(w: World, events: seq<Event>): World
    requires IsRun(w, events)
    decreases |events|
  {
    if events == [] then w else Final(Next(w, events[0]), events[1..])
  }

  lemma {:induction false} RunKeeps(w: World, cs: seq<T.Cargo>, events: seq<Event>) returns (cs': seq<T.Cargo>)
    requires Inv(w, cs) && IsRun(w, events)
    ensures Inv(Final(w, events), cs')
    decreases |events|
  {
    if events == [] {
      cs' := cs;
    } else {
      cs' := AnyStep(w, cs, events[0]);
      cs' := RunKeeps(Next(w, events[0]), cs', events[1..]);
    }
  }

  lemma BootInv(w: World)
    requires Boot(w)
    ensures Inv(w, [])
  {
    assert Known(w.links, 0);
  }

  // ---- What a step adds ----

  /** The packet from the tunnel that the proxy sends in this step, if there is one */
  function Outbound(e: Event): Option<Bytes> {
    match e
    case FromTunnel(m) => if Packet(m) && Sends(m) then Some(m) else None
    case Opens(m, _, _) => if Packet(m) && Sends(m) then Some(m) else None
    case Answers(_, _) => None
    case Arrives(_, _) => None
  }

  /** What circuit i has sent so far; a circuit still to be built has sent nothing. */
  function SentOn(w: World, i: nat): seq<Bytes> {
    if i < |w.logs| then w.logs[i].sent else []
  }

  function SourceOf(m: Bytes): Bytes
    requires |m| >= HEADER
  {
    m[SOURCE..SOURCE + 4]
  }

  ghost predicate Quietly(w: World, w': World) {
    w'.host == w.host && w'.flows == w.flows && |w'.logs| == |w.logs| && forall i: nat :: SentOn(w', i) == SentOn(w, i)
  }

  lemma EffectedQuietly(w: World, from: nat, n: nat, e: Effect)
    ensures Quietly(w, Effected(w, from, n, e))
  {
  }

  /** A step without a packet to send */
  lemma OtherStep(w: World, e: Event)
    requires Enabled(w, e) && (e.Answers? || e.Arrives?)
    ensures Quietly(w, Next(w, e))
  {
    match e
    case Answers(i, m) =>
      var last, l := w.plans[i].ports[|w.plans[i].keys|], w.logs[i];
      var w1 := w.(logs := w.logs[i := l.(replied := l.replied + [m])]);
      assert Quietly(w, w1);
      EffectedQuietly(w1, last, w.plans[i].num, w.routers[last].Reply(w.plans[i].c, w.plans[i].num, m));
    case Arrives(from, to) =>
      var msg := Link(w.links, from, to)[0];
      var rest := w.(links := Drop(w.links, from, to));
      if to != w.proxy {
        var (r, effect) := w.routers[to].Handle(w.c, msg, from);
        EffectedQuietly(rest.(routers := w.routers[to := r]), to, Slot(msg.cid), effect);
      }
  }

  /** The flow table, the remembered source and what each circuit has sent, after one step */
  lemma StepAdds(w: World, e: Event, i: nat)
    requires Enabled(w, e)
    ensures var w' := Next(w, e);
      && w'.flows == (if e.Opens? then w.flows + [FlowOf(e.m)] else w.flows) && |w'.logs| == |w'.flows|
      && (match Outbound(e)
          case None => w'.host == w.host && SentOn(w', i) == SentOn(w, i)
          case Some(m) =>
            && w'.host == SourceOf(m)
            && SentOn(w', i) == SentOn(w, i) + if i == Place(w.flows, FlowOf(m)) then [Anonymous(m)] else [])
  {
    match e
    case FromTunnel(m) =>
      if Sends(m) { SendAdds(w, Place(w.flows, FlowOf(m)), m, i); }
    case Opens(m, p, moves) =>
      if Sends(m) { SendAdds(Opened(w, FlowOf(m), p, moves), |w.plans|, m, i); }
    case Answers(_, _) => OtherStep(w, e);
    case Arrives(_, _) => OtherStep(w, e);
  }

  lemma SendAdds(w: World, j: nat, m: Bytes, i: nat)
    requires j < |w.plans| == |w.logs| && PlanShaped(w.plans[j]) && |m| >= HEADER
    ensures var w' := SendOn(w, j, m);
      && w'.flows == w.flows && |w'.logs| == |w.logs| && w'.host == SourceOf(m)
      && SentOn(w', i) == SentOn(w, i) + if i == j then [Anonymous(m)] else []
  {
  }
}
