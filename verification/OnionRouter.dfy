/** A router of the anonymizing network: its circuit table and its message handlers. */
module OnionRouter {
  import opened Basics
  import opened OnionCipher

  const LAST_HOP: nat := 0xffff    // the port that means "no next hop"
  const SLOTS := 36                // entries of cc[]
  const KEYS := 10                 // entries of aes_key[]

  datatype Circuit = Circuit(iid: nat, oid: nat, iport: nat, oport: nat)

  datatype Kind = DiffieHellman | Extend | ExtendDone | Relay | RelayReply

  datatype Msg = Msg(kind: Kind, cid: nat, payload: Bytes)

  /** What a handler does besides changing the router: nothing, send to a port, hand a packet
      to the raw socket, or end the process. */
  datatype Effect = Quiet | Send(port: nat, msg: Msg) | Exit(packet: Bytes) | Abort

  /** compute_circuit_id */
  function CircuitId(index: nat, seqno: nat): nat { 256 * index + seqno }

  /** iID & 0x000f */
  function Slot(cid: nat): nat { cid % 16 }

  /** htons and ntohs on a little-endian machine */
  function Swap16(x: nat): nat { x % 256 * 256 + x / 256 }

  /** sprintf("%d") on a non-negative number */
  function Decimal(x: nat): Bytes {
    if x < 10 then [48 + x] else Decimal(x / 10) + [48 + x % 10]
  }

  /** atoi on a buffer: the leading digits, 0 if there are none */
  function Atoi(s: Bytes): nat { AtoiFrom(0, s) }

  function AtoiFrom(acc: nat, s: Bytes): nat
    decreases |s|
  {
    if s == [] || !(48 <= s[0] <= 57) then acc else AtoiFrom(10 * acc + s[0] - 48, s[1..])
  }

  lemma {:induction false} AtoiDecimal(x: nat)
    ensures Atoi(Decimal(x)) == x
  {
    assert Decimal(x) + [] == Decimal(x);
    AtoiDecimalFrom(x, []);
  }

  lemma {:induction false} AtoiDecimalFrom(x: nat, rest: Bytes)
    ensures AtoiFrom(0, Decimal(x) + rest) == AtoiFrom(x, rest)
    decreases x
  {
    if x < 10 {
      assert (Decimal(x) + rest)[1..] == rest;
    } else {
      var d: Bytes := [48 + x % 10];
      assert Decimal(x) + rest == Decimal(x / 10) + (d + rest);
      AtoiDecimalFrom(x / 10, d + rest);
      assert (d + rest)[1..] == rest;
    }
  }

  lemma SwapSwap(x: nat)
    requires x < 0x1_0000
    ensures Swap16(Swap16(x)) == x && Swap16(x) < 0x1_0000
  {
  }

  /** A port survives the trip through text and both byte orders. */
  lemma PortText(x: nat)
    requires x < 0x1_0000
    ensures Swap16(Atoi(Decimal(Swap16(x)))) == x
  {
    AtoiDecimal(Swap16(x));
    SwapSwap(x);
  }

  /** The text has no terminating zero, so atoi also reads what follows in memory: the port is right exactly
      if no digit follows. */
  lemma PortUnterminated(x: nat, after: Bytes)
    requires x > 0
    ensures Atoi(Decimal(x) + after) == x <==> after == [] || !(48 <= after[0] <= 57)
  {
    AtoiDecimalFrom(x, after);
    if after != [] && 48 <= after[0] <= 57 {
      AtoiGrows(10 * x + after[0] - 48, after[1..]);
    }
  }

  lemma {:induction false} AtoiGrows(acc: nat, s: Bytes)
    ensures AtoiFrom(acc, s) >= acc
    decreases |s|
  {
    if s != [] && 48 <= s[0] <= 57 {
      AtoiGrows(10 * acc + s[0] - 48, s[1..]);
    }
  }

  datatype Router = Router(index: nat, seqmax: nat, cc: seq<Circuit>, keys: seq<Bytes>) {

    /** The tables have their declared sizes, and identifiers live in the slot they name. */
    ghost predicate Ok() {
      && |cc| == SLOTS && |keys| == KEYS && 1 <= seqmax < 16
      && (forall i :: 0 <= i < SLOTS ==> cc[i].iid == 0 || (Slot(cc[i].iid) == i && 0 < i <= seqmax))
      && (forall i :: 0 <= i < SLOTS ==> cc[i].oid == 0 || (Slot(cc[i].oid) == i && 0 < i <= seqmax))
      && (forall i :: 0 <= i < KEYS ==> |keys[i]| == BLOCK)
    }

    /** The first step of the dispatch in run(). */
    function Seen(cid: nat): Router {
      if seqmax < Slot(cid) then this.(seqmax := Slot(cid)) else this
    }

    /** A message the tables can hold: circuit numbers 1, ..., 9. */
    ghost predicate Fits(cid: nat) { 0 < Slot(cid) < KEYS }

    predicate KnowsIn(cid: nat)
      requires |cc| == SLOTS
    {
      cc[Slot(cid)].iid == cid
    }

    predicate KnowsOut(cid: nat)
      requires |cc| == SLOTS
    {
      cc[Slot(cid)].oid == cid
    }

    function OnKey(c: Cipher, cid: nat, payload: Bytes): (Router, Effect)
      requires |cc| == SLOTS && |keys| == KEYS && Slot(cid) < KEYS
    {
      var n := Slot(cid);
      if KnowsIn(cid) then
        match c.Open(keys[n], payload)
        case None => (this, Abort)
        case Some(inner) => (this, Send(cc[n].oport, Msg(DiffieHellman, CircuitId(index, n), inner)))
      else if |payload| <= |keys[n]| then
        (this.(keys := keys[n := payload + keys[n][|payload|..]]), Quiet)
      else (this, Abort)
    }

    function OnExtend(c: Cipher, cid: nat, payload: Bytes, from: nat): (Router, Effect)
      requires |cc| == SLOTS && |keys| == KEYS && Slot(cid) < KEYS
    {
      var n := Slot(cid);
      var oid := CircuitId(index, n);
      match c.Open(keys[n], payload)
      case None => (this, Abort)
      case Some(inner) =>
        if KnowsIn(cid) then
          (this, Send(cc[n].oport, Msg(Extend, oid, inner)))
        else
          var next := Swap16(Atoi(inner));
          var r := if cc[n].iid == 0 then this.(cc := cc[n := Circuit(cid, oid, from, next)]) else this;
          (r, Send(from, Msg(ExtendDone, cid, [])))
    }

    function OnExtendDone(cid: nat): (Router, Effect)
      requires |cc| == SLOTS
    {
      var n := Slot(cid);
      if KnowsOut(cid) then (this, Send(cc[n].iport, Msg(ExtendDone, cc[n].iid, []))) else (this, Quiet)
    }

    function OnRelay(c: Cipher, cid: nat, payload: Bytes): (Router, Effect)
      requires |cc| == SLOTS && |keys| == KEYS && Slot(cid) < KEYS
    {
      var n := Slot(cid);
      match c.Open(keys[n], payload)
      case None => (this, Abort)
      case Some(inner) =>
        if !KnowsIn(cid) then (this, Abort)
        else if cc[n].oport == LAST_HOP then (this, Exit(inner))
        else (this, Send(cc[n].oport, Msg(Relay, cc[n].oid, inner)))
    }

    function OnRelayReply(c: Cipher, cid: nat, payload: Bytes): (Router, Effect)
      requires |cc| == SLOTS && |keys| == KEYS && Slot(cid) < KEYS
    {
      var n := Slot(cid);
      if !KnowsOut(cid) then (this, Abort)
      else (this, Send(cc[n].iport, Msg(RelayReply, cc[n].iid, c.Seal(keys[n], payload))))
    }

    /** The answer of the outside world enters the circuit at its last hop. */
    function Reply(c: Cipher, n: nat, packet: Bytes): Effect
      requires |cc| == SLOTS && |keys| == KEYS && n < KEYS
    {
      Send(cc[n].iport, Msg(RelayReply, cc[n].iid, c.Seal(keys[n], packet)))
    }

    /** run(): raise the circuit count, then dispatch on the message type. */
    function Handle(c: Cipher, m: Msg, from: nat): (Router, Effect)
      requires |cc| == SLOTS && |keys| == KEYS && Slot(m.cid) < KEYS
    {
      var r := Seen(m.cid);
      match m.kind
      case DiffieHellman => r.OnKey(c, m.cid, m.payload)
      case Extend => r.OnExtend(c, m.cid, m.payload, from)
      case ExtendDone => r.OnExtendDone(m.cid)
      case Relay => r.OnRelay(c, m.cid, m.payload)
      case RelayReply => r.OnRelayReply(c, m.cid, m.payload)
    }
  }

  lemma IdInSlot(index: nat, n: nat)
    requires n < 16
    ensures Slot(CircuitId(index, n)) == n
  {
    LowBits(16 * index, n);
  }

  lemma {:induction false} LowBits(k: nat, n: nat)
    requires n < 16
    ensures (16 * k + n) % 16 == n
  {
    if k > 0 {
      LowBits(k - 1, n);
      assert 16 * k + n == (16 * (k - 1) + n) + 16;
    }
  }

  lemma SeenOk(r: Router, cid: nat)
    requires r.Ok() && r.Fits(cid)
    ensures r.Seen(cid).Ok() && Slot(cid) <= r.Seen(cid).seqmax
  {
  }

  lemma ExtendOk(r: Router, c: Cipher, cid: nat, payload: Bytes, from: nat)
    requires r.Ok() && r.Fits(cid) && Slot(cid) <= r.seqmax
    ensures r.OnExtend(c, cid, payload, from).0.Ok()
  {
    var n := Slot(cid);
    IdInSlot(r.index, n);
    var r' := r.OnExtend(c, cid, payload, from).0;
    forall i | 0 <= i < SLOTS
      ensures r'.cc[i] == r.cc[i] || (i == n && r'.cc[i].iid == cid && Slot(r'.cc[i].oid) == n)
    {
    }
  }

  /** Every message keeps the tables well formed. */
  lemma HandleOk(r: Router, c: Cipher, m: Msg, from: nat)
    requires r.Ok() && r.Fits(m.cid)
    ensures r.Handle(c, m, from).0.Ok()
  {
    SeenOk(r, m.cid);
    if m.kind.Extend? {
      ExtendOk(r.Seen(m.cid), c, m.cid, m.payload, from);
    }
  }

  /** A message of one circuit leaves the tables of all others alone. */
  lemma HandleElsewhere(r: Router, c: Cipher, m: Msg, from: nat)
    requires r.Ok() && r.Fits(m.cid)
    ensures Elsewhere(Slot(m.cid), r, r.Handle(c, m, from).0)
  {
  }

  /** The two states agree except at slot n (and on the highest circuit number seen). */
  ghost predicate Elsewhere(n: nat, r: Router, r': Router) {
    && r'.index == r.index && |r'.cc| == |r.cc| && |r'.keys| == |r.keys|
    && (forall i :: 0 <= i < |r.cc| && i != n ==> r'.cc[i] == r.cc[i])
    && (forall i :: 0 <= i < |r.keys| && i != n ==> r'.keys[i] == r.keys[i])
  }

  class RouterProcess {
    const cipher: Cipher
    const index: nat
    var seqmax: nat                // _cc_seq
    var cc: seq<Circuit>
    var keys: seq<Bytes>           // aes_key

    ghost function View(): Router
      reads this
    {
      Router(index, seqmax, cc, keys)
    }

    ghost predicate Valid()
      reads this
    {
      cipher.Ok() && View().Ok()
    }

    constructor (cipher: Cipher, index: nat)
      requires cipher.Ok()
      ensures Valid() && this.cipher == cipher && this.index == index && seqmax == 1
      ensures forall i :: 0 <= i < SLOTS ==> cc[i] == Circuit(0, 0, 0, 0)
    {
      this.cipher, this.index, seqmax := cipher, index, 1;
      cc := seq(SLOTS, i => Circuit(0, 0, 0, 0));
      keys := seq(KEYS, i => seq(BLOCK, j => 0));
    }

    /** The scan over cc[] for an incoming identifier succeeds exactly when its own slot holds it. */
    method FindIn(cid: nat) returns (judge: bool)
      requires Valid() && cid != 0 && Slot(cid) <= seqmax
      ensures judge == View().KnowsIn(cid)
    {
      judge := false;
      for i := 0 to seqmax + 2
        invariant judge == exists j :: 0 <= j < i && cc[j].iid == cid
      {
        if cid == cc[i].iid {
          judge := true;
        }
      }
    }

    method FindOut(cid: nat) returns (judge: bool)
      requires Valid() && cid != 0 && Slot(cid) <= seqmax
      ensures judge == View().KnowsOut(cid)
    {
      judge := false;
      for i := 0 to seqmax + 2
        invariant !judge && forall j :: 0 <= j < i ==> cc[j].oid != cid
      {
        if cid == cc[i].oid {
          judge := true;
          break;
        }
      }
    }

    /** handle_deffie_hellman_msg */
    method OnKey(cid: nat, payload: Bytes) returns (e: Effect)
      requires Valid() && View().Fits(cid) && Slot(cid) <= seqmax
      modifies this`keys
      ensures (View(), e) == old(View()).OnKey(cipher, cid, payload)
    {
      var n := cid % 16;
      var oid := CircuitId(index, n);
      var judge := FindIn(cid);
      if judge {
        var inner := DecryptWithPadding(cipher, keys[n], payload);
        if inner.None? {
          return Abort;
        }
        e := Send(cc[n].oport, Msg(DiffieHellman, oid, inner.value));
      } else if |payload| <= |keys[n]| {
        keys := keys[n := payload + keys[n][|payload|..]];
        e := Quiet;
      } else {
        e := Abort;
      }
    }

    /** handle_ccext_msg */
    method OnExtend(cid: nat, payload: Bytes, from: nat) returns (e: Effect)
      requires Valid() && View().Fits(cid) && Slot(cid) <= seqmax
      modifies this`cc
      ensures (View(), e) == old(View()).OnExtend(cipher, cid, payload, from)
    {
      var n := cid % 16;
      var oid := CircuitId(index, n);
      var judge := FindIn(cid);
      var inner := DecryptWithPadding(cipher, keys[n], payload);
      if inner.None? {
        return Abort;
      }
      if judge {
        e := Send(cc[n].oport, Msg(Extend, oid, inner.value));
      } else {
        var next := Swap16(Atoi(inner.value));
        if cc[n].iid == 0 {
          cc := cc[n := Circuit(cid, oid, from, next)];
        }
        e := Send(from, Msg(ExtendDone, cid, []));
      }
    }

    /** handle_ccext_done_msg */
    method OnExtendDone(cid: nat) returns (e: Effect)
      requires Valid() && View().Fits(cid) && Slot(cid) <= seqmax
      ensures (View(), e) == View().OnExtendDone(cid)
    {
      var n := cid % 16;
      var judge := FindOut(cid);
      if judge {
        e := Send(cc[n].iport, Msg(ExtendDone, cc[n].iid, []));
      } else {
        e := Quiet;
      }
    }

    /** handle_relay_msg */
    method OnRelay(cid: nat, payload: Bytes) returns (e: Effect)
      requires Valid() && View().Fits(cid) && Slot(cid) <= seqmax
      ensures (View(), e) == View().OnRelay(cipher, cid, payload)
    {
      var n := cid % 16;
      var inner := DecryptWithPadding(cipher, keys[n], payload);
      if inner.None? {
        return Abort;
      }
      var judge := FindIn(cid);
      if !judge {
        return Abort;
      }
      if cc[n].oport == LAST_HOP {
        e := Exit(inner.value);
      } else {
        e := Send(cc[n].oport, Msg(Relay, cc[n].oid, inner.value));
      }
    }

    /** handle_relay_reply_msg */
    method OnRelayReply(cid: nat, payload: Bytes) returns (e: Effect)
      requires Valid() && View().Fits(cid) && Slot(cid) <= seqmax
      ensures (View(), e) == View().OnRelayReply(cipher, cid, payload)
    {
      var n := cid % 16;
      var sealed := EncryptWithPadding(cipher, keys[n], payload);
      var judge := FindOut(cid);
      if !judge {
        return Abort;
      }
      e := Send(cc[n].iport, Msg(RelayReply, cc[n].iid, sealed));
    }

    /** The dispatch of run() on one datagram. */
    method Handle(m: Msg, from: nat) returns (e: Effect)
      requires Valid() && View().Fits(m.cid)
      modifies this
      ensures Valid() && (View(), e) == old(View()).Handle(cipher, m, from)
    {
      HandleOk(View(), cipher, m, from);
      if seqmax < m.cid % 16 {
        seqmax := m.cid % 16;
      }
      assert View() == old(View()).Seen(m.cid);
      assert View().Ok();
      match m.kind
      case DiffieHellman => e := OnKey(m.cid, m.payload);
      case Extend => e := OnExtend(m.cid, m.payload, from);
      case ExtendDone => e := OnExtendDone(m.cid);
      case Relay => e := OnRelay(m.cid, m.payload);
      case RelayReply => e := OnRelayReply(m.cid, m.payload);
    }
  }
}
