/** Building a circuit: the proxy and the routers exchange datagrams over FIFO links, in any
    interleaving of deliveries. */
module OnionCircuit {
  import opened Basics
  import opened Lists
  import opened OnionCipher
  import opened OnionRouter

  /** Positions along the path: 0 is the proxy, position x + 1 is hop x. */
  datatype Plan = Plan(c: Cipher, num: nat, ports: seq<nat>, indices: seq<nat>, keys: seq<Bytes>) {

    ghost predicate Ok() {
      && c.Ok() && 0 < num < KEYS
      && |ports| == |keys| + 1 && |indices| == |keys|
      && Distinct(ports)
      && (forall x :: 0 <= x < |ports| ==> ports[x] < LAST_HOP)
      && (forall x :: 0 <= x < |keys| ==> |keys[x]| == BLOCK)
    }

    /** The identifier the circuit carries on the way into hop x. */
    function Cid(x: nat): nat
      requires x <= |indices|
    {
      if x == 0 then CircuitId(0, num) else CircuitId(indices[x - 1], num)
    }

    /** The port hop x is told to forward to. */
    function NextPort(x: nat): nat
      requires x < |keys| && |ports| == |keys| + 1
    {
      if x + 1 == |keys| then LAST_HOP else ports[x + 2]
    }

    function Entry(x: nat): Circuit
      requires x < |keys| && |ports| == |keys| + 1 && |indices| == |keys|
    {
      Circuit(Cid(x), Cid(x + 1), ports[x], NextPort(x))
    }

    /** Hop x knows the circuit: its table entry and its key are in place. */
    ghost predicate Ready(r: Router, x: nat)
      requires x < |keys| && |ports| == |keys| + 1 && |indices| == |keys|
    {
      r.Ok() && r.index == indices[x] && num < KEYS && num <= r.seqmax && r.cc[num] == Entry(x) &&
        r.keys[num] == keys[x]
    }

    ghost predicate Fresh(r: Router, x: nat)
      requires x < |indices|
    {
      r.Ok() && r.index == indices[x] && num < SLOTS && r.cc[num].iid == 0
    }

    ghost predicate Keyed(r: Router, x: nat)
      requires x < |keys| && |indices| == |keys|
    {
      Fresh(r, x) && num < KEYS && r.keys[num] == keys[x]
    }

    // What is in flight while hop t is being added, on the link into hop x

    function KeyMsg(t: nat, x: nat): Msg
      requires x <= t < |keys| == |indices|
    {
      Msg(DiffieHellman, Cid(x), c.Wrap(keys[x..t], keys[t]))
    }

    function ExtendMsg(t: nat, x: nat): Msg
      requires x <= t < |keys| == |indices| && |ports| == |keys| + 1
    {
      Msg(Extend, Cid(x), c.Wrap(keys[x..t + 1], Decimal(Swap16(NextPort(t)))))
    }

    function DoneMsg(x: nat): Msg
      requires x <= |indices|
    {
      Msg(ExtendDone, Cid(x), [])
    }
  }

  type Links = map<(nat, nat), seq<Msg>>

  function Link(links: Links, from: nat, to: nat): seq<Msg> {
    if (from, to) in links then links[(from, to)] else []
  }

  function Put(links: Links, from: nat, to: nat, m: Msg): Links {
    links[(from, to) := Link(links, from, to) + [m]]
  }

  function Drop(links: Links, from: nat, to: nat): Links
    requires Link(links, from, to) != []
  {
    links[(from, to) := Link(links, from, to)[1..]]
  }

  /** Routers by port, datagrams in flight, hops added so far, and whether create_circuit is
      blocked in its receive call. */
  datatype System = System(routers: map<nat, Router>, links: Links, done: nat, waiting: bool, aborted: bool)

  datatype Move = Ask | Deliver(from: nat, to: nat)

  predicate Enabled(p: Plan, s: System, m: Move) {
    match m
    case Ask => !s.waiting && s.done < |p.keys| == |p.indices| && |p.ports| == |p.keys| + 1
    case Deliver(from, to) =>
      && Link(s.links, from, to) != []
      && |p.ports| > 0
      && (to == p.ports[0] ==> s.waiting)
      && (to != p.ports[0] ==> to in s.routers && |s.routers[to].cc| == SLOTS && |s.routers[to].keys| == KEYS
                               && Slot(Link(s.links, from, to)[0].cid) < KEYS)
  }

  /** One iteration of create_circuit sends the key and the extend message to the first hop, then
      waits for whatever datagram comes in. */
  function Next(p: Plan, s: System, m: Move): System
    requires Enabled(p, s, m)
  {
    match m
    case Ask =>
      var k := p.KeyMsg(s.done, 0);
      var e := p.ExtendMsg(s.done, 0);
      s.(links := Put(Put(s.links, p.ports[0], p.ports[1], k), p.ports[0], p.ports[1], e), waiting := true)
    case Deliver(from, to) =>
      var msg := Link(s.links, from, to)[0];
      var rest := Drop(s.links, from, to);
      if to == p.ports[0] then s.(links := rest, done := s.done + 1, waiting := false)
      else
        var (r, e) := s.routers[to].Handle(p.c, msg, from);
        var s' := s.(routers := s.routers[to := r], links := rest);
        match e
        case Quiet => s'
        case Send(port, out) => s'.(links := Put(rest, to, port, out))
        case Exit(_) => s'
        case Abort => s'.(aborted := true)
  }

  /** Where the two messages, then the answer, of the current iteration are. Out(a, b): the key is
      on its way into hop a, the extend message into hop b. */
  datatype Phase = Idle | Out(a: nat, b: nat) | Back(d: nat)

  /** The messages of one iteration, by the hop they are on their way into. */
  datatype Flight = Flight(key: nat -> Msg, extend: nat -> Msg, done: nat -> Msg)

  ghost function FlightOf(p: Plan, t: nat): Flight
    requires p.Ok()
  {
    Flight((x: nat) => if x <= t < |p.keys| then p.KeyMsg(t, x) else p.DoneMsg(0),
           (x: nat) => if x <= t < |p.keys| then p.ExtendMsg(t, x) else p.DoneMsg(0),
           (x: nat) => if x <= |p.keys| then p.DoneMsg(x) else p.DoneMsg(0))
  }

  /** The datagrams on the link from position x to position y. */
  function InFlight(fl: Flight, t: nat, ph: Phase, x: nat, y: nat): seq<Msg> {
    match ph
    case Idle => []
    case Out(a, b) =>
      (if x + 1 == y && a == x <= t then [fl.key(x)] else [])
      + (if x + 1 == y && b == x <= t then [fl.extend(x)] else [])
    case Back(d) =>
      if x == y + 1 && d == y <= t then [fl.done(y)] else []
  }

  /** The links carry exactly what f says between the given ports, and nothing anywhere else. */
  ghost predicate Carries(ports: seq<nat>, links: Links, f: (nat, nat) -> seq<Msg>) {
    && (forall x: nat, y: nat {:trigger f(x, y)} :: x < |ports| && y < |ports| ==>
      Link(links, ports[x], ports[y]) == f(x, y))
    && (forall u: nat, v: nat {:trigger Link(links, u, v)} :: u !in ports || v !in ports ==> Link(links, u, v) == [])
  }

  lemma CarriesDrop(ports: seq<nat>, links: Links, f: (nat, nat) -> seq<Msg>, x: nat, y: nat,
      f': (nat, nat) -> seq<Msg>)
    requires Distinct(ports) && Carries(ports, links, f) && x < |ports| && y < |ports| && f(x, y) != []
    requires f'(x, y) == f(x, y)[1..]
    requires forall u: nat, v: nat :: u < |ports| && v < |ports| && (u, v) != (x, y) ==> f'(u, v) == f(u, v)
    ensures Link(links, ports[x], ports[y]) == f(x, y)
    ensures Carries(ports, Drop(links, ports[x], ports[y]), f')
  {
    forall u: nat, v: nat | u < |ports| && v < |ports|
      ensures Link(Drop(links, ports[x], ports[y]), ports[u], ports[v]) == f'(u, v)
    {
      assert f(u, v) == Link(links, ports[u], ports[v]);
      assert ports[u] == ports[x] <==> u == x;
      assert ports[v] == ports[y] <==> v == y;
    }
    forall u: nat, v: nat | u !in ports || v !in ports ensures Link(Drop(links, ports[x], ports[y]), u, v) == [] {
      assert ports[x] in ports && ports[y] in ports;
      assert Link(links, u, v) == [];
    }
  }

  lemma CarriesPut(ports: seq<nat>, links: Links, f: (nat, nat) -> seq<Msg>, x: nat, y: nat, m: Msg,
      f': (nat, nat) -> seq<Msg>)
    requires Distinct(ports) && Carries(ports, links, f) && x < |ports| && y < |ports|
    requires f'(x, y) == f(x, y) + [m]
    requires forall u: nat, v: nat :: u < |ports| && v < |ports| && (u, v) != (x, y) ==> f'(u, v) == f(u, v)
    ensures Carries(ports, Put(links, ports[x], ports[y], m), f')
  {
    forall u: nat, v: nat | u < |ports| && v < |ports|
      ensures Link(Put(links, ports[x], ports[y], m), ports[u], ports[v]) == f'(u, v)
    {
      assert f(u, v) == Link(links, ports[u], ports[v]);
      assert ports[u] == ports[x] <==> u == x;
      assert ports[v] == ports[y] <==> v == y;
    }
    forall u: nat, v: nat | u !in ports || v !in ports ensures Link(Put(links, ports[x], ports[y], m), u, v) == [] {
      assert ports[x] in ports && ports[y] in ports;
      assert Link(links, u, v) == [];
    }
  }

  /** Deliver from position x to y, and forward from y to z. */
  lemma CarriesForward(ports: seq<nat>, links: Links, f: (nat, nat) -> seq<Msg>, x: nat, y: nat, z: nat, m: Msg,
      f': (nat, nat) -> seq<Msg>)
    requires Distinct(ports) && Carries(ports, links, f) && x < |ports| && y < |ports| && z < |ports| && y != z
    requires f(x, y) != [] && f'(x, y) == f(x, y)[1..] && f'(y, z) == f(y, z) + [m] && (x, y) != (y, z)
    requires forall u: nat, v: nat :: u < |ports| && v < |ports| && (u, v) != (x, y) && (u, v) != (y, z) ==>
      f'(u, v) == f(u, v)
    ensures Link(links, ports[x], ports[y]) == f(x, y)
    ensures Carries(ports, Put(Drop(links, ports[x], ports[y]), ports[y], ports[z], m), f')
  {
    var g := (u: nat, v: nat) => if (u, v) == (x, y) && f(x, y) != [] then f(x, y)[1..] else f(u, v);
    CarriesDrop(ports, links, f, x, y, g);
    CarriesPut(ports, Drop(links, ports[x], ports[y]), g, y, z, m, f');
  }

  ghost function Expected(fl: Flight, t: nat, ph: Phase): (nat, nat) -> seq<Msg> {
    (x: nat, y: nat) => InFlight(fl, t, ph, x, y)
  }

  /** The state of hop x while hop t is being added. */
  ghost predicate HopState(p: Plan, t: nat, ph: Phase, x: nat, r: Router)
    requires p.Ok() && x < |p.keys|
  {
    if x < t || (x == t && ph.Back?) then p.Ready(r, x)
    else if x == t && ph.Out? && ph.a == x + 1 then p.Keyed(r, x)
    else p.Fresh(r, x)
  }

  ghost predicate HopOk(p: Plan, s: System, ph: Phase, x: nat)
    requires p.Ok() && x < |p.keys|
  {
    p.ports[x + 1] in s.routers && HopState(p, s.done, ph, x, s.routers[p.ports[x + 1]])
  }

  /** Exactly the hops added so far hold the circuit; the next one may already hold its key. */
  ghost predicate HopsOk(p: Plan, s: System, ph: Phase)
    requires p.Ok()
  {
    forall x :: 0 <= x < |p.keys| ==> HopOk(p, s, ph, x)
  }

  ghost predicate PhaseOk(p: Plan, s: System, ph: Phase) {
    match ph
    case Idle => !s.waiting && s.done <= |p.keys|
    case Out(a, b) => s.waiting && s.done < |p.keys| && b <= a <= s.done + 1 && b <= s.done
    case Back(d) => s.waiting && d <= s.done < |p.keys|
  }

  ghost predicate Inv(p: Plan, s: System, ph: Phase) {
    p.Ok() && !s.aborted && PhaseOk(p, s, ph) && Carries(p.ports, s.links, Expected(FlightOf(p, s.done), s.done, ph)) &&
      HopsOk(p, s, ph)
  }

  // ---- What each hop does with each message ----

  lemma IdSlot(p: Plan, x: nat)
    requires p.Ok() && x <= |p.indices|
    ensures Slot(p.Cid(x)) == p.num && p.Cid(x) != 0
  {
    var index := if x == 0 then 0 else p.indices[x - 1];
    IdInSlot(index, p.num);
  }

  lemma KeyPasses(p: Plan, r: Router, t: nat, x: nat, from: nat)
    requires p.Ok() && x < t < |p.keys| && p.Ready(r, x)
    ensures r.Fits(p.Cid(x))
    ensures r.Handle(p.c, p.KeyMsg(t, x), from) == (r, Send(p.ports[x + 2], p.KeyMsg(t, x + 1)))
  {
    IdSlot(p, x);
    assert p.keys[x..t][1..] == p.keys[x + 1..t];
    OpenSeal(p.c, p.keys[x], p.c.Wrap(p.keys[x + 1..t], p.keys[t]));
  }

  lemma KeyArrives(p: Plan, r: Router, t: nat, from: nat)
    requires p.Ok() && t < |p.keys| && p.Fresh(r, t)
    ensures r.Fits(p.Cid(t))
    ensures var (r', e) := r.Handle(p.c, p.KeyMsg(t, t), from); p.Keyed(r', t) && e == Quiet
  {
    IdSlot(p, t);
    HandleOk(r, p.c, p.KeyMsg(t, t), from);
    assert p.keys[t..t] == [];
    assert p.keys[t] + r.keys[p.num][|p.keys[t]|..] == p.keys[t];
  }

  lemma ExtendPasses(p: Plan, r: Router, t: nat, x: nat, from: nat)
    requires p.Ok() && x < t < |p.keys| && p.Ready(r, x)
    ensures r.Fits(p.Cid(x))
    ensures r.Handle(p.c, p.ExtendMsg(t, x), from) == (r, Send(p.ports[x + 2], p.ExtendMsg(t, x + 1)))
  {
    IdSlot(p, x);
    assert p.keys[x..t + 1][1..] == p.keys[x + 1..t + 1];
    OpenSeal(p.c, p.keys[x], p.c.Wrap(p.keys[x + 1..t + 1], Decimal(Swap16(p.NextPort(t)))));
  }

  lemma LastLayer(p: Plan, t: nat, text: Bytes)
    requires p.Ok() && t < |p.keys|
    ensures p.c.Open(p.keys[t], p.c.Wrap(p.keys[t..t + 1], text)) == Some(text)
  {
    assert p.keys[t..t + 1][1..] == [];
    OpenSeal(p.c, p.keys[t], text);
  }

  lemma ExtendArrives(p: Plan, r: Router, t: nat)
    requires p.Ok() && t < |p.keys| && p.Keyed(r, t)
    ensures r.Fits(p.Cid(t))
    ensures var (r', e) := r.Handle(p.c, p.ExtendMsg(t, t), p.ports[t]);
      p.Ready(r', t) && e == Send(p.ports[t], p.DoneMsg(t))
  {
    IdSlot(p, t);
    var text := Decimal(Swap16(p.NextPort(t)));
    HandleOk(r, p.c, p.ExtendMsg(t, t), p.ports[t]);
    LastLayer(p, t, text);
    PortText(p.NextPort(t));
    var seen := r.Seen(p.Cid(t));
    assert seen.cc == r.cc && seen.keys == r.keys && !seen.KnowsIn(p.Cid(t));
    assert CircuitId(r.index, p.num) == p.Cid(t + 1);
  }

  lemma DonePasses(p: Plan, r: Router, x: nat, from: nat)
    requires p.Ok() && x < |p.keys| && p.Ready(r, x)
    ensures r.Fits(p.Cid(x + 1))
    ensures r.Handle(p.c, p.DoneMsg(x + 1), from) == (r, Send(p.ports[x], p.DoneMsg(x)))
  {
    IdSlot(p, x + 1);
  }

  // ---- Every step keeps the invariant and comes closer to the finished circuit ----

  /** Steps left in the current iteration. */
  function Left(t: nat, ph: Phase): int {
    match ph
    case Idle => 3 * (t + 1) + 1
    case Out(a, b) => 2 * (t + 1) + (t + 1 - a) - b
    case Back(d) => d + 1
  }

  /** Steps left until hop n has been added, when hop t is at hand. */
  function Rank(n: nat, t: nat, ph: Phase): int
    decreases n - t
  {
    if t >= n then 0 else Left(t, ph) + Rank(n, t + 1, Idle)
  }

  /** Phases that differ at most in what they say about hop x. */
  ghost predicate SameBut(t: nat, ph: Phase, ph': Phase, x: nat) {
    || x == t
    || (ph.Out? && ph'.Out? && (ph.a == t + 1 <==> ph'.a == t + 1))
    || (ph.Back? && ph'.Back?)
  }

  /** Replacing the state of hop y - 1 leaves the other hops as they were. */
  lemma HopsUpdate(p: Plan, s: System, ph: Phase, y: nat, r: Router, s': System, ph': Phase)
    requires p.Ok() && HopsOk(p, s, ph) && 0 < y <= |p.keys|
    requires s'.routers == s.routers[p.ports[y] := r] && s'.done == s.done
    requires HopState(p, s.done, ph', y - 1, r) && SameBut(s.done, ph, ph', y - 1)
    ensures HopsOk(p, s', ph')
  {
    forall u | 0 <= u < |p.keys| ensures HopOk(p, s', ph', u) {
      assert p.ports[u + 1] == p.ports[y] <==> u + 1 == y;
      assert HopOk(p, s, ph, u);
    }
  }

  /** Between two phases the link from x to y loses its head and, if m is given, the link from y to z gains m. */
  ghost predicate Shift(fl: Flight, t: nat, ph: Phase, ph': Phase, x: nat, y: nat, z: nat, m: Option<Msg>) {
    var f, f' := Expected(fl, t, ph), Expected(fl, t, ph');
    && f(x, y) != [] && f'(x, y) == f(x, y)[1..]
    && (m.Some? ==> y != z && (x, y) != (y, z) && f'(y, z) == f(y, z) + [m.value])
    && forall u: nat, v: nat :: (u, v) != (x, y) && (m.Some? ==> (u, v) != (y, z)) ==> f'(u, v) == f(u, v)
  }

  ghost predicate Head(fl: Flight, t: nat, ph: Phase, x: nat, y: nat, m: Msg) {
    var q := Expected(fl, t, ph)(x, y);
    q != [] && q[0] == m
  }

  lemma KeyShift(fl: Flight, t: nat, a: nat, b: nat)
    requires b <= a <= t
    ensures Head(fl, t, Out(a, b), a, a + 1, fl.key(a))
    ensures a < t ==> Shift(fl, t, Out(a, b), Out(a + 1, b), a, a + 1, a + 2, Some(fl.key(a + 1)))
    ensures a == t ==> Shift(fl, t, Out(a, b), Out(a + 1, b), a, a + 1, 0, None)
  {
  }

  lemma ExtendShift(fl: Flight, t: nat, a: nat, b: nat)
    requires b < a <= t + 1 && b <= t
    ensures Head(fl, t, Out(a, b), b, b + 1, fl.extend(b))
    ensures b < t ==> Shift(fl, t, Out(a, b), Out(a, b + 1), b, b + 1, b + 2, Some(fl.extend(b + 1)))
    ensures b == t && a == t + 1 ==> Shift(fl, t, Out(a, b), Back(t), b, b + 1, b, Some(fl.done(t)))
  {
  }

  lemma DoneShift(fl: Flight, t: nat, d: nat)
    requires d <= t
    ensures Head(fl, t, Back(d), d + 1, d, fl.done(d))
    ensures d > 0 ==> Shift(fl, t, Back(d), Back(d - 1), d + 1, d, d - 1, Some(fl.done(d - 1)))
  {
  }

  /** The receiving end of a delivery: the router of hop y - 1 answers (r, e). */
  ghost predicate Takes(p: Plan, s: System, ph: Phase, ph': Phase, x: nat, y: nat, head: Msg, r: Router, e: Effect)
    requires p.Ok() && x <= |p.keys| && 0 < y <= |p.keys|
  {
    && Head(FlightOf(p, s.done), s.done, ph, x, y, head) && Slot(head.cid) < KEYS
    && p.ports[y] in s.routers && s.routers[p.ports[y]].Ok()
    && s.routers[p.ports[y]].Handle(p.c, head, p.ports[x]) == (r, e)
    && HopState(p, s.done, ph', y - 1, r) && SameBut(s.done, ph, ph', y - 1)
  }

  /** A hop takes a message; it forwards one to position z or keeps quiet. */
  lemma TakeStep(p: Plan, s: System, ph: Phase, ph': Phase, x: nat, y: nat, z: nat, head: Msg, m: Option<Msg>,
      r: Router)
    requires Inv(p, s, ph) && PhaseOk(p, s, ph')
    requires x <= |p.keys| && 0 < y <= |p.keys| && z <= |p.keys|
    requires Shift(FlightOf(p, s.done), s.done, ph, ph', x, y, z, m)
    requires Takes(p, s, ph, ph', x, y, head, r, if m.Some? then Send(p.ports[z], m.value) else Quiet)
    ensures Enabled(p, s, Deliver(p.ports[x], p.ports[y]))
    ensures Inv(p, Next(p, s, Deliver(p.ports[x], p.ports[y])), ph')
  {
    var f, f' := Expected(FlightOf(p, s.done), s.done, ph), Expected(FlightOf(p, s.done), s.done, ph');
    if m.Some? {
      CarriesForward(p.ports, s.links, f, x, y, z, m.value, f');
    } else {
      CarriesDrop(p.ports, s.links, f, x, y, f');
    }
    assert p.ports[y] != p.ports[0];
    HopsUpdate(p, s, ph, y, r, Next(p, s, Deliver(p.ports[x], p.ports[y])), ph');
  }

  lemma KeyTaken(p: Plan, s: System, a: nat, b: nat) returns (r: Router, e: Effect)
    requires Inv(p, s, Out(a, b)) && a <= s.done
    ensures Takes(p, s, Out(a, b), Out(a + 1, b), a, a + 1, p.KeyMsg(s.done, a), r, e)
    ensures e == if a < s.done then Send(p.ports[a + 2], p.KeyMsg(s.done, a + 1)) else Quiet
  {
    var t := s.done;
    assert HopOk(p, s, Out(a, b), a);
    var hop := s.routers[p.ports[a + 1]];
    IdSlot(p, a);
    KeyShift(FlightOf(p, t), t, a, b);
    if a < t {
      KeyPasses(p, hop, t, a, p.ports[a]);
    } else {
      KeyArrives(p, hop, t, p.ports[a]);
    }
    var out := hop.Handle(p.c, p.KeyMsg(t, a), p.ports[a]);
    r, e := out.0, out.1;
  }

  lemma ExtendTaken(p: Plan, s: System, a: nat, b: nat) returns (r: Router, e: Effect)
    requires Inv(p, s, Out(a, b)) && b < a
    ensures Takes(p, s, Out(a, b),
      if b < s.done then Out(a, b + 1) else Back(b), b, b + 1, p.ExtendMsg(s.done, b), r, e)
    ensures e == if b < s.done then Send(p.ports[b + 2], p.ExtendMsg(s.done, b + 1)) else Send(p.ports[b], p.DoneMsg(b))
  {
    var t := s.done;
    assert HopOk(p, s, Out(a, b), b);
    var hop := s.routers[p.ports[b + 1]];
    IdSlot(p, b);
    ExtendShift(FlightOf(p, t), t, a, b);
    if b < t {
      ExtendPasses(p, hop, t, b, p.ports[b]);
    } else {
      ExtendArrives(p, hop, t);
    }
    var out := hop.Handle(p.c, p.ExtendMsg(t, b), p.ports[b]);
    r, e := out.0, out.1;
  }

  lemma DoneTaken(p: Plan, s: System, d: nat) returns (r: Router)
    requires Inv(p, s, Back(d + 1))
    ensures Takes(p, s, Back(d + 1), Back(d), d + 2, d + 1, p.DoneMsg(d + 1), r, Send(p.ports[d], p.DoneMsg(d)))
  {
    assert HopOk(p, s, Back(d + 1), d);
    r := s.routers[p.ports[d + 1]];
    IdSlot(p, d + 1);
    DoneShift(FlightOf(p, s.done), s.done, d + 1);
    DonePasses(p, r, d, p.ports[d + 2]);
  }

  lemma KeyStep(p: Plan, s: System, a: nat, b: nat)
    requires Inv(p, s, Out(a, b)) && a <= s.done
    ensures Enabled(p, s, Deliver(p.ports[a], p.ports[a + 1]))
    ensures Inv(p, Next(p, s, Deliver(p.ports[a], p.ports[a + 1])), Out(a + 1, b))
  {
    var r, e := KeyTaken(p, s, a, b);
    KeyShift(FlightOf(p, s.done), s.done, a, b);
    var z := if a < s.done then a + 2 else 0;
    var m := if a < s.done then Some(p.KeyMsg(s.done, a + 1)) else None;
    TakeStep(p, s, Out(a, b), Out(a + 1, b), a, a + 1, z, p.KeyMsg(s.done, a), m, r);
  }

  lemma ExtendStep(p: Plan, s: System, a: nat, b: nat)
    requires Inv(p, s, Out(a, b)) && b < a && (b == s.done ==> a == b + 1)
    ensures Enabled(p, s, Deliver(p.ports[b], p.ports[b + 1]))
    ensures Inv(p, Next(p, s, Deliver(p.ports[b], p.ports[b + 1])), if b < s.done then Out(a, b + 1) else Back(b))
  {
    var r, e := ExtendTaken(p, s, a, b);
    ExtendShift(FlightOf(p, s.done), s.done, a, b);
    var z := if b < s.done then b + 2 else b;
    var m := if b < s.done then p.ExtendMsg(s.done, b + 1) else p.DoneMsg(b);
    TakeStep(p, s, Out(a, b),
      if b < s.done then Out(a, b + 1) else Back(b), b, b + 1, z, p.ExtendMsg(s.done, b), Some(m), r);
  }

  lemma DoneStep(p: Plan, s: System, d: nat)
    requires Inv(p, s, Back(d + 1))
    ensures Enabled(p, s, Deliver(p.ports[d + 2], p.ports[d + 1]))
    ensures Inv(p, Next(p, s, Deliver(p.ports[d + 2], p.ports[d + 1])), Back(d))
  {
    var r := DoneTaken(p, s, d);
    DoneShift(FlightOf(p, s.done), s.done, d + 1);
    TakeStep(p, s, Back(d + 1), Back(d), d + 2, d + 1, d, p.DoneMsg(d + 1), Some(p.DoneMsg(d)), r);
  }

  /** The links are all empty, whatever iteration comes next. */
  lemma IdleLinks(p: Plan, links: Links, fl: Flight, t: nat, fl': Flight, t': nat)
    requires p.Ok() && Carries(p.ports, links, Expected(fl, t, Idle))
    ensures Carries(p.ports, links, Expected(fl', t', Idle))
  {
    forall x: nat, y: nat | x < |p.ports| && y < |p.ports|
      ensures Link(links, p.ports[x], p.ports[y]) == Expected(fl', t', Idle)(x, y)
    {
      assert Expected(fl, t, Idle)(x, y) == [];
    }
  }

  lemma AnswerStep(p: Plan, s: System)
    requires Inv(p, s, Back(0))
    ensures Enabled(p, s, Deliver(p.ports[1], p.ports[0]))
    ensures Inv(p, Next(p, s, Deliver(p.ports[1], p.ports[0])), Idle)
  {
    var fl := FlightOf(p, s.done);
    DoneShift(fl, s.done, 0);
    CarriesDrop(p.ports, s.links, Expected(fl, s.done, Back(0)), 1, 0, Expected(fl, s.done, Idle));
    var s' := Next(p, s, Deliver(p.ports[1], p.ports[0]));
    IdleLinks(p, s'.links, fl, s.done, FlightOf(p, s'.done), s'.done);
    forall x | 0 <= x < |p.keys| ensures HopOk(p, s', Idle, x) {
      assert HopOk(p, s, Back(0), x);
    }
  }

  lemma AskLinks(ports: seq<nat>, links: Links, fl: Flight, t: nat)
    requires Distinct(ports) && |ports| > 1 && Carries(ports, links, Expected(fl, t, Idle))
    ensures Carries(ports, Put(Put(links, ports[0], ports[1], fl.key(0)), ports[0], ports[1], fl.extend(0)),
      Expected(fl, t, Out(0, 0)))
  {
    var k := fl.key(0);
    var g := (x: nat, y: nat) => if (x, y) == (0, 1) then [k] else [];
    var f, f' := Expected(fl, t, Idle), Expected(fl, t, Out(0, 0));
    assert f'(0, 1) == g(0, 1) + [fl.extend(0)] && f(0, 1) == [];
    forall x: nat, y: nat ensures f(x, y) == [] && (f'(x, y) == if (x, y) == (0, 1) then [k, fl.extend(0)] else []) { }
    CarriesPut(ports, links, f, 0, 1, k, g);
    CarriesPut(ports, Put(links, ports[0], ports[1], k), g, 0, 1, fl.extend(0), f');
  }

  lemma AskStep(p: Plan, s: System)
    requires Inv(p, s, Idle) && s.done < |p.keys|
    ensures Enabled(p, s, Ask) && Inv(p, Next(p, s, Ask), Out(0, 0))
  {
    AskLinks(p.ports, s.links, FlightOf(p, s.done), s.done);
    var s' := Next(p, s, Ask);
    forall x | 0 <= x < |p.keys| ensures HopOk(p, s', Out(0, 0), x) {
      assert HopOk(p, s, Idle, x);
    }
  }

  // ---- All interleavings ----

  /** The only links that carry anything are the ones the phase names. */
  lemma WhichLink(fl: Flight, t: nat, ph: Phase, x: nat, y: nat)
    requires InFlight(fl, t, ph, x, y) != []
    ensures match ph
      case Idle => false
      case Out(a, b) => y == x + 1 && x <= t && (x == a || x == b)
      case Back(d) => x == y + 1 && y == d
  {
  }

  lemma Positions(p: Plan, links: Links, f: (nat, nat) -> seq<Msg>, from: nat, to: nat) returns (x: nat, y: nat)
    requires Carries(p.ports, links, f) && Link(links, from, to) != []
    ensures x < |p.ports| && y < |p.ports| && from == p.ports[x] && to == p.ports[y] && f(x, y) == Link(links, from, to)
  {
    assert from in p.ports && to in p.ports;
    x :| 0 <= x < |p.ports| && p.ports[x] == from;
    y :| 0 <= y < |p.ports| && p.ports[y] == to;
    assert f(x, y) == Link(links, p.ports[x], p.ports[y]);
  }

  lemma OutStep(p: Plan, s: System, a: nat, b: nat, x: nat) returns (ph': Phase)
    requires Inv(p, s, Out(a, b)) && x <= s.done && (x == a || x == b)
    ensures Enabled(p, s, Deliver(p.ports[x], p.ports[x + 1]))
    ensures Inv(p, Next(p, s, Deliver(p.ports[x], p.ports[x + 1])), ph')
    ensures Rank(|p.keys|, Next(p, s, Deliver(p.ports[x], p.ports[x + 1])).done, ph') ==
      Rank(|p.keys|, s.done, Out(a, b)) - 1
  {
    if x == a {
      ph' := Out(a + 1, b);
      KeyStep(p, s, a, b);
    } else {
      ph' := if b < s.done then Out(a, b + 1) else Back(b);
      ExtendStep(p, s, a, b);
    }
    SameIteration(p, s, x);
    RankLeft(|p.keys|, s.done, Out(a, b), ph');
  }

  lemma SameIteration(p: Plan, s: System, x: nat)
    requires p.Ok() && x + 1 < |p.ports| && Enabled(p, s, Deliver(p.ports[x], p.ports[x + 1]))
    ensures Next(p, s, Deliver(p.ports[x], p.ports[x + 1])).done == s.done
  {
  }

  lemma RankLeft(n: nat, t: nat, ph: Phase, ph': Phase)
    requires t < n && Left(t, ph') == Left(t, ph) - 1
    ensures Rank(n, t, ph') == Rank(n, t, ph) - 1
  {
  }

  lemma BackStep(p: Plan, s: System, d: nat) returns (ph': Phase)
    requires Inv(p, s, Back(d))
    ensures Enabled(p, s, Deliver(p.ports[d + 1], p.ports[d]))
    ensures Inv(p, Next(p, s, Deliver(p.ports[d + 1], p.ports[d])), ph')
    ensures Rank(|p.keys|, Next(p, s, Deliver(p.ports[d + 1], p.ports[d])).done, ph') ==
      Rank(|p.keys|, s.done, Back(d)) - 1
  {
    if d == 0 {
      ph' := Idle;
      AnswerStep(p, s);
    } else {
      ph' := Back(d - 1);
      DoneStep(p, s, d - 1);
    }
  }

  /** Whatever step is taken, the invariant holds again and exactly one step less is left. */
  lemma AnyStep(p: Plan, s: System, ph: Phase, m: Move) returns (ph': Phase)
    requires Inv(p, s, ph) && Enabled(p, s, m)
    ensures Inv(p, Next(p, s, m), ph')
    ensures Rank(|p.keys|, Next(p, s, m).done, ph') == Rank(|p.keys|, s.done, ph) - 1
  {
    match m
    case Ask =>
      AskStep(p, s);
      ph' := Out(0, 0);
    case Deliver(from, to) =>
      ph' := AnyDelivery(p, s, ph, from, to);
  }

  lemma AnyDelivery(p: Plan, s: System, ph: Phase, from: nat, to: nat) returns (ph': Phase)
    requires Inv(p, s, ph) && Enabled(p, s, Deliver(from, to))
    ensures Inv(p, Next(p, s, Deliver(from, to)), ph')
    ensures Rank(|p.keys|, Next(p, s, Deliver(from, to)).done, ph') == Rank(|p.keys|, s.done, ph) - 1
  {
    var x, y := WhichPorts(p, s, ph, from, to);
    match ph {
      case Out(a, b) =>
        ph' := OutStep(p, s, a, b, x);
      case Back(d) =>
        ph' := BackStep(p, s, d);
    }
  }

  /** The ports of the only links that carry anything. */
  lemma WhichPorts(p: Plan, s: System, ph: Phase, from: nat, to: nat) returns (x: nat, y: nat)
    requires Inv(p, s, ph) && Link(s.links, from, to) != []
    ensures x < |p.ports| && y < |p.ports| && from == p.ports[x] && to == p.ports[y]
    ensures match ph
      case Idle => false
      case Out(a, b) => y == x + 1 && x <= s.done && (x == a || x == b)
      case Back(d) => x == y + 1 && y == d
  {
    var f := Expected(FlightOf(p, s.done), s.done, ph);
    x, y := Positions(p, s.links, f, from, to);
    assert InFlight(FlightOf(p, s.done), s.done, ph, x, y) == f(x, y);
    WhichLink(FlightOf(p, s.done), s.done, ph, x, y);
  }

  /** Until the last hop is added, something can always happen. */
  lemma NoDeadlock(p: Plan, s: System, ph: Phase) returns (m: Move)
    requires Inv(p, s, ph) && s.done < |p.keys|
    ensures Enabled(p, s, m)
  {
    match ph
    case Idle =>
      m := Ask;
    case Out(a, b) =>
      if a <= s.done {
        KeyStep(p, s, a, b);
        m := Deliver(p.ports[a], p.ports[a + 1]);
      } else {
        ExtendStep(p, s, a, b);
        m := Deliver(p.ports[b], p.ports[b + 1]);
      }
    case Back(d) =>
      if d == 0 {
        AnswerStep(p, s);
      } else {
        DoneStep(p, s, d - 1);
      }
      m := Deliver(p.ports[d + 1], p.ports[d]);
  }

  ghost predicate IsRun(p: Plan, s: System, moves: seq<Move>)
    decreases |moves|
  {
    moves == [] || (Enabled(p, s, moves[0]) && IsRun(p, Next(p, s, moves[0]), moves[1..]))
  }

  ghost function Final(p: Plan, s: System, moves: seq<Move>): System
    requires IsRun(p, s, moves)
    decreases |moves|
  {
    if moves == [] then s else Final(p, Next(p, s, moves[0]), moves[1..])
  }

  lemma {:induction false} RunKeeps(p: Plan, s: System, ph: Phase, moves: seq<Move>) returns (ph': Phase)
    requires Inv(p, s, ph) && IsRun(p, s, moves)
    ensures Inv(p, Final(p, s, moves), ph')
    ensures Rank(|p.keys|, Final(p, s, moves).done, ph') == Rank(|p.keys|, s.done, ph) - |moves|
    decreases |moves|
  {
    if moves == [] {
      ph' := ph;
    } else {
      var next := AnyStep(p, s, ph, moves[0]);
      ph' := RunKeeps(p, Next(p, s, moves[0]), next, moves[1..]);
    }
  }

  /** Before create_circuit: no datagram under way, no hop knows the circuit. */
  ghost predicate Start(p: Plan, s: System) {
    && p.Ok() && s.done == 0 && !s.waiting && !s.aborted
    && (forall u: nat, v: nat {:trigger Link(s.links, u, v)} :: Link(s.links, u, v) == [])
    && (forall x :: 0 <= x < |p.keys| ==> HopOk(p, s, Idle, x))
  }

  lemma StartInv(p: Plan, s: System)
    requires Start(p, s)
    ensures Inv(p, s, Idle)
  {
    var f := Expected(FlightOf(p, 0), 0, Idle);
    forall x: nat, y: nat ensures f(x, y) == [] { }
    assert Carries(p.ports, s.links, f);
  }

  /** Exactly the first i hops hold the circuit, each with its own key and chained to the next. */
  ghost predicate Established(p: Plan, s: System, i: nat)
    requires p.Ok()
  {
    forall x :: 0 <= x < |p.keys| ==> HolderIff(p, s, i, x)
  }

  ghost predicate HolderIff(p: Plan, s: System, i: nat, x: nat)
    requires p.Ok() && x < |p.keys|
  {
    && p.ports[x + 1] in s.routers
    && var r := s.routers[p.ports[x + 1]]; if x < i then p.Ready(r, x) else p.Fresh(r, x)
  }

  lemma {:induction false} RankTotal(n: nat, t: nat)
    requires t <= n
    ensures 2 * Rank(n, t, Idle) == 3 * n * (n + 1) + 2 * n - 3 * t * (t + 1) - 2 * t
    decreases n - t
  {
    if t < n { RankTotal(n, t + 1); }
  }

  lemma RankBounds(p: Plan, s: System, ph: Phase)
    requires PhaseOk(p, s, ph)
    ensures Rank(|p.keys|, s.done, ph) >= 0
    ensures Rank(|p.keys|, s.done, ph) == 0 <==> s.done == |p.keys|
  {
    if s.done < |p.keys| {
      RankNonNegative(|p.keys|, s.done + 1);
    }
  }

  lemma {:induction false} RankNonNegative(n: nat, t: nat)
    ensures Rank(n, t, Idle) >= 0
    decreases n - t
  {
    if t < n { RankNonNegative(n, t + 1); }
  }

  /** Every run of circuit construction, whatever the order of deliveries: no router aborts; between
      iterations exactly the hops added so far hold the circuit; a run has at most
      n + 3n(n + 1)/2 steps, and one that cannot go on has exactly that many and ends with every hop
      in place. */
  lemma CircuitIsBuilt(p: Plan, s: System, moves: seq<Move>)
    requires Start(p, s) && IsRun(p, s, moves)
    ensures var e, n := Final(p, s, moves), |p.keys|;
      && !e.aborted
      && (!e.waiting ==> Established(p, e, e.done))
      && 2 * |moves| <= 3 * n * (n + 1) + 2 * n
      && ((forall m :: !Enabled(p, e, m)) ==> e.done == n && !e.waiting && 2 * |moves| == 3 * n * (n + 1) + 2 * n)
  {
    StartInv(p, s);
    var ph := RunKeeps(p, s, Idle, moves);
    var e := Final(p, s, moves);
    RankTotal(|p.keys|, 0);
    RankBounds(p, e, ph);
    if !e.waiting {
      assert ph == Idle;
      forall x | 0 <= x < |p.keys| ensures HolderIff(p, e, e.done, x) {
        assert HopOk(p, e, ph, x);
      }
    }
    if e.done < |p.keys| {
      var m := NoDeadlock(p, e, ph);
    }
  }

  /** create_circuit takes whatever datagram comes in for the answer it waits for: afterwards the hop at hand is
      in place if and only if that hop has answered by then. */
  lemma TakenForAnswer(p: Plan, s: System, ph: Phase, from: nat)
    requires p.Ok() && PhaseOk(p, s, ph) && HopsOk(p, s, ph) && s.waiting && Link(s.links, from, p.ports[0]) != []
    ensures var s' := Next(p, s, Deliver(from, p.ports[0]));
      s'.done == s.done + 1 && !s'.waiting && (Established(p, s', s'.done) <==> ph.Back?)
  {
    var s' := Next(p, s, Deliver(from, p.ports[0]));
    IdSlot(p, s.done);
    assert HopOk(p, s, ph, s.done);
    if Established(p, s', s'.done) {
      assert HolderIff(p, s', s'.done, s.done);
    }
    if ph.Back? {
      forall x | 0 <= x < |p.keys| ensures HolderIff(p, s', s'.done, x) {
        assert HopOk(p, s, ph, x);
      }
    }
  }

  // ---- Other circuits ----

  ghost predicate OthersSame(p: Plan, s: System, s': System) {
    && s'.routers.Keys == s.routers.Keys
    && (forall q :: q in s.routers ==> Elsewhere(p.num, s.routers[q], s'.routers[q]))
    && (forall q :: q in s.routers && q !in p.ports ==> s'.routers[q] == s.routers[q])
  }

  lemma HeadSlot(p: Plan, t: nat, ph: Phase, x: nat, y: nat)
    requires p.Ok() && t < |p.keys| && InFlight(FlightOf(p, t), t, ph, x, y) != []
    ensures Slot(InFlight(FlightOf(p, t), t, ph, x, y)[0].cid) == p.num
  {
    WhichLink(FlightOf(p, t), t, ph, x, y);
    IdSlot(p, if ph.Out? then x else y);
  }

  lemma DeliveryElsewhere(p: Plan, s: System, from: nat, to: nat)
    requires Enabled(p, s, Deliver(from, to)) && to in p.ports
    requires to != p.ports[0] ==>
      s.routers[to].Ok() && 0 < p.num < KEYS && Slot(Link(s.links, from, to)[0].cid) == p.num
    ensures OthersSame(p, s, Next(p, s, Deliver(from, to)))
  {
    if to != p.ports[0] {
      HandleElsewhere(s.routers[to], p.c, Link(s.links, from, to)[0], from);
    }
  }

  lemma StepElsewhere(p: Plan, s: System, ph: Phase, m: Move)
    requires Inv(p, s, ph) && Enabled(p, s, m)
    ensures OthersSame(p, s, Next(p, s, m))
  {
    if m.Deliver? {
      var fl := FlightOf(p, s.done);
      var x, y := Positions(p, s.links, Expected(fl, s.done, ph), m.from, m.to);
      assert InFlight(fl, s.done, ph, x, y) == Link(s.links, m.from, m.to);
      HeadSlot(p, s.done, ph, x, y);
      if y > 0 { assert HopOk(p, s, ph, y - 1); }
      DeliveryElsewhere(p, s, m.from, m.to);
    }
  }

  lemma OthersTransitive(p: Plan, s: System, s': System, s'': System)
    requires OthersSame(p, s, s') && OthersSame(p, s', s'')
    ensures OthersSame(p, s, s'')
  {
    forall q | q in s.routers ensures Elsewhere(p.num, s.routers[q], s''.routers[q]) {
      assert Elsewhere(p.num, s.routers[q], s'.routers[q]) && Elsewhere(p.num, s'.routers[q], s''.routers[q]);
    }
  }

  /** Building one circuit leaves every other circuit, and every router off the path, as it was. */
  lemma {:induction false} RunElsewhere(p: Plan, s: System, ph: Phase, moves: seq<Move>)
    requires Inv(p, s, ph) && IsRun(p, s, moves)
    ensures OthersSame(p, s, Final(p, s, moves))
    decreases |moves|
  {
    if moves != [] {
      var s' := Next(p, s, moves[0]);
      StepElsewhere(p, s, ph, moves[0]);
      var ph' := AnyStep(p, s, ph, moves[0]);
      RunElsewhere(p, s', ph', moves[1..]);
      OthersTransitive(p, s, s', Final(p, s', moves[1..]));
    }
  }
}
