/** Packets on a finished circuit, in both directions at once, under any interleaving. */
module OnionTransport {
  import opened Basics
  import opened Lists
  import opened OnionCipher
  import opened OnionRouter
  import opened OnionCircuit

  /** The routers, the datagrams under way, the packets the proxy wrapped, those the last hop recovered, the
      answers the last hop sealed and those the proxy recovered. */
  datatype Traffic = Traffic(
    routers: map<nat, Router>, links: Links, sent: seq<Bytes>, exited: seq<Bytes>, replied: seq<Bytes>,
    received: seq<Bytes>, aborted: bool)

  datatype Event = SendPacket(m: Bytes) | Answer(m: Bytes) | Arrive(from: nat, to: nat)

  /** Every hop holds the circuit. */
  ghost predicate Built(p: Plan, routers: map<nat, Router>) {
    && p.Ok() && |p.keys| > 0
    && forall x :: 0 <= x < |p.keys| ==> HopBuilt(p, routers, x)
  }

  ghost predicate HopBuilt(p: Plan, routers: map<nat, Router>, x: nat)
    requires p.Ok() && x < |p.keys|
  {
    p.ports[x + 1] in routers && p.Ready(routers[p.ports[x + 1]], x)
  }

  /** A finished construction is what transport starts from. */
  lemma EstablishedIsBuilt(p: Plan, s: System)
    requires p.Ok() && |p.keys| > 0 && Established(p, s, |p.keys|)
    ensures Built(p, s.routers)
  {
    forall x | 0 <= x < |p.keys| ensures HopBuilt(p, s.routers, x) {
      assert HolderIff(p, s, |p.keys|, x);
    }
  }

  function OutMsg(p: Plan, x: nat, m: Bytes): Msg
    requires x < |p.keys| == |p.indices|
  {
    Msg(Relay, p.Cid(x), p.c.Wrap(p.keys[x..], m))
  }

  function BackMsg(p: Plan, x: nat, m: Bytes): Msg
    requires x < |p.keys| == |p.indices|
  {
    Msg(RelayReply, p.Cid(x), p.c.Wrap(p.keys[x..], m))
  }

  // ---- What each hop does ----

  lemma RelayPasses(p: Plan, r: Router, x: nat, m: Bytes, from: nat)
    requires p.Ok() && x + 1 < |p.keys| && p.Ready(r, x)
    ensures r.Fits(p.Cid(x))
    ensures r.Handle(p.c, OutMsg(p, x, m), from) == (r, Send(p.ports[x + 2], OutMsg(p, x + 1, m)))
  {
    IdSlot(p, x);
    assert p.keys[x..][1..] == p.keys[x + 1..];
    OpenSeal(p.c, p.keys[x], p.c.Wrap(p.keys[x + 1..], m));
  }

  lemma OneLayer(p: Plan, m: Bytes)
    requires |p.keys| > 0
    ensures p.c.Wrap(p.keys[|p.keys| - 1..], m) == p.c.Seal(p.keys[|p.keys| - 1], m)
  {
    var last := p.keys[|p.keys| - 1..];
    assert last[1..] == [];
    assert p.c.Wrap(last[1..], m) == m;
  }

  /** The last hop recovers exactly the packet the proxy wrapped. */
  lemma RelayExits(p: Plan, r: Router, m: Bytes, from: nat)
    requires p.Ok() && |p.keys| > 0 && p.Ready(r, |p.keys| - 1)
    ensures r.Fits(p.Cid(|p.keys| - 1))
    ensures r.Handle(p.c, OutMsg(p, |p.keys| - 1, m), from) == (r, Exit(m))
  {
    var x := |p.keys| - 1;
    IdSlot(p, x);
    OneLayer(p, m);
    OpenSeal(p.c, p.keys[x], m);
  }

  lemma ReplyPasses(p: Plan, r: Router, x: nat, m: Bytes, from: nat)
    requires p.Ok() && x + 1 < |p.keys| && p.Ready(r, x)
    ensures r.Fits(p.Cid(x + 1))
    ensures r.Handle(p.c, BackMsg(p, x + 1, m), from) == (r, Send(p.ports[x], BackMsg(p, x, m)))
  {
    IdSlot(p, x + 1);
    assert p.keys[x..][1..] == p.keys[x + 1..];
  }

  lemma ReplyStarts(p: Plan, r: Router, m: Bytes)
    requires p.Ok() && |p.keys| > 0 && p.Ready(r, |p.keys| - 1)
    ensures r.Reply(p.c, p.num, m) == Send(p.ports[|p.keys| - 1], BackMsg(p, |p.keys| - 1, m))
  {
    OneLayer(p, m);
  }

  // ---- The traffic system ----

  predicate Enabled(p: Plan, s: Traffic, e: Event) {
    && |p.ports| == |p.keys| + 1 && |p.keys| == |p.indices| > 0
    && match e
      case SendPacket(_) => true
      case Answer(_) =>
        var last := p.ports[|p.keys|];
        p.num < KEYS && last in s.routers && |s.routers[last].cc| == SLOTS && |s.routers[last].keys| == KEYS
      case Arrive(from, to) =>
        && Link(s.links, from, to) != []
        && (to != p.ports[0] ==> to in s.routers && |s.routers[to].cc| == SLOTS && |s.routers[to].keys| == KEYS
                                 && Slot(Link(s.links, from, to)[0].cid) < KEYS)
  }

  function Sent(s: Traffic, from: nat, e: Effect): Traffic {
    match e
    case Quiet => s
    case Send(port, m) => s.(links := Put(s.links, from, port, m))
    case Exit(packet) => s.(exited := s.exited + [packet])
    case Abort => s.(aborted := true)
  }

  /** handle_tun_*_traffic at the proxy, the raw socket at the last hop, run() at every router, and
      CProxy::handle_relay_msg at the proxy. */
  function Next(p: Plan, s: Traffic, e: Event): Traffic
    requires Enabled(p, s, e)
  {
    match e
    case SendPacket(m) =>
      s.(links := Put(s.links, p.ports[0], p.ports[1], OutMsg(p, 0, m)), sent := s.sent + [m])
    case Answer(m) =>
      var last := p.ports[|p.keys|];
      Sent(s.(replied := s.replied + [m]), last, s.routers[last].Reply(p.c, p.num, m))
    case Arrive(from, to) =>
      var msg := Link(s.links, from, to)[0];
      var rest := s.(links := Drop(s.links, from, to));
      if to == p.ports[0] then
        // the circuit is chosen by cid - 1, then all its layers come off
        if msg.cid == p.num then
          match p.c.Unwrap(p.keys, msg.payload)
          case None => rest.(aborted := true)
          case Some(m) => rest.(received := rest.received + [m])
        else rest.(aborted := true)
      else
        var (r, effect) := s.routers[to].Handle(p.c, msg, from);
        Sent(rest.(routers := s.routers[to := r]), to, effect)
  }

  // ---- Packets under way ----

  /** Plain packets on the links into hop x, and on the links back from hop x. */
  datatype Cargo = Cargo(out: seq<seq<Bytes>>, back: seq<seq<Bytes>>)

  datatype Seals = Seals(out: (nat, Bytes) -> Msg, back: (nat, Bytes) -> Msg)

  ghost function SealsOf(p: Plan): Seals
    requires p.Ok() && |p.keys| > 0
  {
    Seals((x: nat, m: Bytes) => if x < |p.keys| then OutMsg(p, x, m) else OutMsg(p, 0, m),
          (x: nat, m: Bytes) => if x < |p.keys| then BackMsg(p, x, m) else BackMsg(p, 0, m))
  }

  function Sealed(seal: (nat, Bytes) -> Msg, x: nat, ms: seq<Bytes>): seq<Msg> {
    seq(|ms|, i requires 0 <= i < |ms| => seal(x, ms[i]))
  }

  function Load(sl: Seals, c: Cargo, x: nat, y: nat): seq<Msg> {
    if y == x + 1 && x < |c.out| then Sealed(sl.out, x, c.out[x])
    else if x == y + 1 && y < |c.back| then Sealed(sl.back, y, c.back[y])
    else []
  }

  ghost function Loads(sl: Seals, c: Cargo): (nat, nat) -> seq<Msg> {
    (x: nat, y: nat) => Load(sl, c, x, y)
  }

  /** Everything in the pipeline, oldest first; the last link holds the oldest. */
  function Pending(links: seq<seq<Bytes>>): seq<Bytes> {
    if links == [] then [] else Pending(links[1..]) + links[0]
  }

  function Returning(links: seq<seq<Bytes>>): seq<Bytes> {
    if links == [] then [] else links[0] + Returning(links[1..])
  }

  function PushAt(links: seq<seq<Bytes>>, x: nat, m: Bytes): seq<seq<Bytes>>
    requires x < |links|
  {
    links[x := links[x] + [m]]
  }

  function PopAt(links: seq<seq<Bytes>>, x: nat): seq<seq<Bytes>>
    requires x < |links| && links[x] != []
  {
    links[x := links[x][1..]]
  }

  lemma {:induction false} PendingPush(links: seq<seq<Bytes>>, m: Bytes)
    requires links != []
    ensures Pending(PushAt(links, 0, m)) == Pending(links) + [m]
  {
  }

  lemma {:induction false} PendingPop(links: seq<seq<Bytes>>)
    requires links != [] && links[|links| - 1] != []
    ensures Pending(links) == [links[|links| - 1][0]] + Pending(PopAt(links, |links| - 1))
  {
    if |links| > 1 {
      PendingPop(links[1..]);
      assert PopAt(links, |links| - 1)[1..] == PopAt(links[1..], |links| - 2);
    }
  }

  /** Handing a packet to the next link does not change the order of the pipeline. */
  lemma {:induction false} PendingMove(links: seq<seq<Bytes>>, x: nat)
    requires x + 1 < |links| && links[x] != []
    ensures Pending(PushAt(PopAt(links, x), x + 1, links[x][0])) == Pending(links)
  {
    var moved := PushAt(PopAt(links, x), x + 1, links[x][0]);
    if x == 0 {
      PendingPush(links[1..], links[0][0]);
      assert moved[1..] == PushAt(links[1..], 0, links[0][0]);
      assert links[0] == [links[0][0]] + links[0][1..];
    } else {
      PendingMove(links[1..], x - 1);
      assert moved[1..] == PushAt(PopAt(links[1..], x - 1), x, links[x][0]);
    }
  }

  lemma {:induction false} ReturningPush(links: seq<seq<Bytes>>, m: Bytes)
    requires links != []
    ensures Returning(PushAt(links, |links| - 1, m)) == Returning(links) + [m]
  {
    if |links| > 1 {
      ReturningPush(links[1..], m);
      assert PushAt(links, |links| - 1, m)[1..] == PushAt(links[1..], |links| - 2, m);
    }
  }

  lemma ReturningPop(links: seq<seq<Bytes>>)
    requires links != [] && links[0] != []
    ensures Returning(links) == [links[0][0]] + Returning(PopAt(links, 0))
  {
  }

  lemma {:induction false} ReturningMove(links: seq<seq<Bytes>>, x: nat)
    requires x + 1 < |links| && links[x + 1] != []
    ensures Returning(PushAt(PopAt(links, x + 1), x, links[x + 1][0])) == Returning(links)
  {
    var moved := PushAt(PopAt(links, x + 1), x, links[x + 1][0]);
    if x == 0 {
      ReturningPop(links[1..]);
      assert moved[1..] == PopAt(links[1..], 0);
    } else {
      ReturningMove(links[1..], x - 1);
      assert moved[1..] == PushAt(PopAt(links[1..], x), x - 1, links[x + 1][0]);
    }
  }

  ghost predicate Inv(p: Plan, s: Traffic, c: Cargo) {
    && Built(p, s.routers) && !s.aborted
    && |c.out| == |c.back| == |p.keys|
    && Carries(p.ports, s.links, Loads(SealsOf(p), c))
    && s.sent == s.exited + Pending(c.out)
    && s.replied == s.received + Returning(c.back)
  }

  // ---- Steps ----

  lemma SealedPop(seal: (nat, Bytes) -> Msg, x: nat, ms: seq<Bytes>)
    requires ms != []
    ensures Sealed(seal, x, ms) != [] && Sealed(seal, x, ms)[0] == seal(x, ms[0])
    ensures Sealed(seal, x, ms)[1..] == Sealed(seal, x, ms[1..])
  {
  }

  lemma SealedPush(seal: (nat, Bytes) -> Msg, x: nat, ms: seq<Bytes>, m: Bytes)
    ensures Sealed(seal, x, ms + [m]) == Sealed(seal, x, ms) + [seal(x, m)]
  {
  }

  /** Cargo c' differs from c by what the link into hop x, or back from hop x, gained or lost. */
  lemma LoadsOut(sl: Seals, c: Cargo, c': Cargo, x: nat)
    requires x < |c.out| == |c'.out| && c'.back == c.back && c'.out == c.out[x := c'.out[x]]
    ensures forall u: nat, v: nat :: (u, v) != (x, x + 1) ==> Loads(sl, c')(u, v) == Loads(sl, c)(u, v)
    ensures Loads(sl, c')(x, x + 1) == Sealed(sl.out, x, c'.out[x]) &&
      Loads(sl, c)(x, x + 1) == Sealed(sl.out, x, c.out[x])
  {
  }

  lemma LoadsBack(sl: Seals, c: Cargo, c': Cargo, x: nat)
    requires x < |c.back| == |c'.back| && c'.out == c.out && c'.back == c.back[x := c'.back[x]]
    ensures forall u: nat, v: nat :: (u, v) != (x + 1, x) ==> Loads(sl, c')(u, v) == Loads(sl, c)(u, v)
    ensures Loads(sl, c')(x + 1, x) == Sealed(sl.back, x, c'.back[x]) &&
      Loads(sl, c)(x + 1, x) == Sealed(sl.back, x, c.back[x])
  {
  }

  lemma OutPushed(ports: seq<nat>, links: Links, sl: Seals, c: Cargo, x: nat, m: Bytes)
    requires Distinct(ports) && Carries(ports, links, Loads(sl, c)) && x < |c.out| && x + 1 < |ports|
    ensures Carries(ports, Put(links, ports[x], ports[x + 1], sl.out(x, m)), Loads(sl, c.(out := PushAt(c.out, x, m))))
  {
    var c' := c.(out := PushAt(c.out, x, m));
    LoadsOut(sl, c, c', x);
    SealedPush(sl.out, x, c.out[x], m);
    CarriesPut(ports, links, Loads(sl, c), x, x + 1, sl.out(x, m), Loads(sl, c'));
  }

  lemma BackPushed(ports: seq<nat>, links: Links, sl: Seals, c: Cargo, x: nat, m: Bytes)
    requires Distinct(ports) && Carries(ports, links, Loads(sl, c)) && x < |c.back| && x + 1 < |ports|
    ensures Carries(ports, Put(links, ports[x + 1], ports[x], sl.back(x, m)),
      Loads(sl, c.(back := PushAt(c.back, x, m))))
  {
    var c' := c.(back := PushAt(c.back, x, m));
    LoadsBack(sl, c, c', x);
    SealedPush(sl.back, x, c.back[x], m);
    CarriesPut(ports, links, Loads(sl, c), x + 1, x, sl.back(x, m), Loads(sl, c'));
  }

  lemma OutPopped(ports: seq<nat>, links: Links, sl: Seals, c: Cargo, x: nat)
    requires Distinct(ports) && Carries(ports, links, Loads(sl, c)) && x < |c.out| && x + 1 < |ports| && c.out[x] != []
    ensures Link(links, ports[x], ports[x + 1]) != [] &&
      Link(links, ports[x], ports[x + 1])[0] == sl.out(x, c.out[x][0])
    ensures Carries(ports, Drop(links, ports[x], ports[x + 1]), Loads(sl, c.(out := PopAt(c.out, x))))
  {
    var c' := c.(out := PopAt(c.out, x));
    LoadsOut(sl, c, c', x);
    SealedPop(sl.out, x, c.out[x]);
    CarriesDrop(ports, links, Loads(sl, c), x, x + 1, Loads(sl, c'));
  }

  lemma BackPopped(ports: seq<nat>, links: Links, sl: Seals, c: Cargo, x: nat)
    requires Distinct(ports) && Carries(ports, links, Loads(sl, c)) && x < |c.back| && x + 1 < |ports| &&
      c.back[x] != []
    ensures Link(links, ports[x + 1], ports[x]) != [] &&
      Link(links, ports[x + 1], ports[x])[0] == sl.back(x, c.back[x][0])
    ensures Carries(ports, Drop(links, ports[x + 1], ports[x]), Loads(sl, c.(back := PopAt(c.back, x))))
  {
    var c' := c.(back := PopAt(c.back, x));
    LoadsBack(sl, c, c', x);
    SealedPop(sl.back, x, c.back[x]);
    CarriesDrop(ports, links, Loads(sl, c), x + 1, x, Loads(sl, c'));
  }

  lemma SendStep(p: Plan, s: Traffic, c: Cargo, m: Bytes)
    requires Inv(p, s, c)
    ensures Enabled(p, s, SendPacket(m))
    ensures Inv(p, Next(p, s, SendPacket(m)), c.(out := PushAt(c.out, 0, m)))
  {
    OutPushed(p.ports, s.links, SealsOf(p), c, 0, m);
    PendingPush(c.out, m);
  }

  lemma AnswerStep(p: Plan, s: Traffic, c: Cargo, m: Bytes)
    requires Inv(p, s, c)
    ensures Enabled(p, s, Answer(m))
    ensures Inv(p, Next(p, s, Answer(m)), c.(back := PushAt(c.back, |c.back| - 1, m)))
  {
    var n := |p.keys|;
    assert HopBuilt(p, s.routers, n - 1);
    ReplyStarts(p, s.routers[p.ports[n]], m);
    BackPushed(p.ports, s.links, SealsOf(p), c, n - 1, m);
    ReturningPush(c.back, m);
  }

  /** A packet reaches hop x on its way out. */
  lemma OutStep(p: Plan, s: Traffic, c: Cargo, x: nat) returns (c': Cargo)
    requires Inv(p, s, c) && x < |p.keys| && c.out[x] != []
    ensures Enabled(p, s, Arrive(p.ports[x], p.ports[x + 1]))
    ensures Inv(p, Next(p, s, Arrive(p.ports[x], p.ports[x + 1])), c')
    ensures Next(p, s, Arrive(p.ports[x], p.ports[x + 1])).routers == s.routers
  {
    assert HopBuilt(p, s.routers, x);
    var sl, m, r := SealsOf(p), c.out[x][0], s.routers[p.ports[x + 1]];
    IdSlot(p, x);
    OutPopped(p.ports, s.links, sl, c, x);
    var popped := c.(out := PopAt(c.out, x));
    assert p.ports[x + 1] != p.ports[0];
    assert s.routers[p.ports[x + 1] := r] == s.routers;
    if x + 1 < |p.keys| {
      RelayPasses(p, r, x, m, p.ports[x]);
      OutPushed(p.ports, Drop(s.links, p.ports[x], p.ports[x + 1]), sl, popped, x + 1, m);
      PendingMove(c.out, x);
      c' := popped.(out := PushAt(popped.out, x + 1, m));
    } else {
      RelayExits(p, r, m, p.ports[x]);
      PendingPop(c.out);
      c' := popped;
    }
  }

  /** A reply that came from hop x reaches the position before it. */
  lemma BackStep(p: Plan, s: Traffic, c: Cargo, x: nat) returns (c': Cargo)
    requires Inv(p, s, c) && x < |p.keys| && c.back[x] != []
    ensures Enabled(p, s, Arrive(p.ports[x + 1], p.ports[x]))
    ensures Inv(p, Next(p, s, Arrive(p.ports[x + 1], p.ports[x])), c')
    ensures Next(p, s, Arrive(p.ports[x + 1], p.ports[x])).routers == s.routers
  {
    var sl, m := SealsOf(p), c.back[x][0];
    IdSlot(p, x);
    BackPopped(p.ports, s.links, sl, c, x);
    var popped := c.(back := PopAt(c.back, x));
    if x > 0 {
      assert p.ports[x] != p.ports[0];
      assert HopBuilt(p, s.routers, x - 1);
      assert s.routers[p.ports[x] := s.routers[p.ports[x]]] == s.routers;
      ReplyPasses(p, s.routers[p.ports[x]], x - 1, m, p.ports[x + 1]);
      BackPushed(p.ports, Drop(s.links, p.ports[x + 1], p.ports[x]), sl, popped, x - 1, m);
      ReturningMove(c.back, x - 1);
      c' := popped.(back := PushAt(popped.back, x - 1, m));
    } else {
      assert p.keys[0..] == p.keys;
      UnwrapWrap(p.c, p.keys, m);
      ReturningPop(c.back);
      c' := popped;
    }
  }

  lemma AnyStep(p: Plan, s: Traffic, c: Cargo, e: Event) returns (c': Cargo)
    requires Inv(p, s, c) && Enabled(p, s, e)
    ensures Inv(p, Next(p, s, e), c') && Next(p, s, e).routers == s.routers
  {
    match e
    case SendPacket(m) =>
      SendStep(p, s, c, m);
      c' := c.(out := PushAt(c.out, 0, m));
    case Answer(m) =>
      AnswerStep(p, s, c, m);
      c' := c.(back := PushAt(c.back, |c.back| - 1, m));
    case Arrive(from, to) =>
      var f := Loads(SealsOf(p), c);
      var x, y := Positions(p, s.links, f, from, to);
      assert f(x, y) != [];
      if y == x + 1 {
        c' := OutStep(p, s, c, x);
      } else {
        c' := BackStep(p, s, c, y);
      }
  }

  ghost predicate IsRun(p: Plan, s: Traffic, events: seq<Event>)
    decreases |events|
  {
    events == [] || (Enabled(p, s, events[0]) && IsRun(p, Next(p, s, events[0]), events[1..]))
  }

  ghost function Final(p: Plan, s: Traffic, events: seq<Event>): Traffic
    requires IsRun(p, s, events)
    decreases |events|
  {
    if events == [] then s else Final(p, Next(p, s, events[0]), events[1..])
  }

  lemma {:induction false} RunKeeps(p: Plan, s: Traffic, c: Cargo, events: seq<Event>) returns (c': Cargo)
    requires Inv(p, s, c) && IsRun(p, s, events)
    ensures Inv(p, Final(p, s, events), c') && Final(p, s, events).routers == s.routers
    decreases |events|
  {
    if events == [] {
      c' := c;
    } else {
      var next := AnyStep(p, s, c, events[0]);
      c' := RunKeeps(p, Next(p, s, events[0]), next, events[1..]);
    }
  }

  lemma {:induction false} NothingPending(links: seq<seq<Bytes>>)
    requires forall x :: 0 <= x < |links| ==> links[x] == []
    ensures Pending(links) == [] && Returning(links) == []
  {
    if links != [] { NothingPending(links[1..]); }
  }

  /** No datagram is under way. */
  ghost predicate AllQuiet(links: Links) {
    forall u: nat, v: nat {:trigger Link(links, u, v)} :: Link(links, u, v) == []
  }

  lemma AllArrived(p: Plan, s: Traffic, c: Cargo)
    requires Inv(p, s, c) && AllQuiet(s.links)
    ensures s.exited == s.sent && s.received == s.replied
  {
    forall x | 0 <= x < |p.keys| ensures c.out[x] == [] && c.back[x] == [] {
      var f := Loads(SealsOf(p), c);
      assert f(x, x + 1) == Link(s.links, p.ports[x], p.ports[x + 1]);
      assert f(x + 1, x) == Link(s.links, p.ports[x + 1], p.ports[x]);
    }
    NothingPending(c.out);
    NothingPending(c.back);
  }

  /** Every run over a finished circuit, any number of packets both ways, any interleaving: no router
      aborts or changes; what the last hop recovered is a prefix of what the proxy wrapped, byte for byte
      and in order; what the proxy recovered is a prefix of the answers; and when nothing is under way
      everything has arrived. */
  lemma PacketsArrive(p: Plan, s: Traffic, events: seq<Event>)
    requires Built(p, s.routers) && s == Traffic(s.routers, map[], [], [], [], [], false) && IsRun(p, s, events)
    ensures var e := Final(p, s, events);
      && !e.aborted && e.routers == s.routers && e.exited <= e.sent && e.received <= e.replied
      && (AllQuiet(e.links) ==> e.exited == e.sent && e.received == e.replied)
  {
    var none: seq<seq<Bytes>> := seq(|p.keys|, i => []);
    var start := Cargo(none, none);
    NothingPending(none);
    var f := Loads(SealsOf(p), start);
    forall x: nat, y: nat ensures f(x, y) == [] { }
    assert Carries(p.ports, s.links, f);
    var c := RunKeeps(p, s, start, events);
    if AllQuiet(Final(p, s, events).links) {
      AllArrived(p, Final(p, s, events), c);
    }
  }
}
