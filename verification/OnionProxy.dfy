/** The proxy's own computations: the path, the two requests of one iteration of circuit
    construction, wrapping a packet and unwrapping an answer. */
module OnionProxy {
  import opened Basics
  import opened OnionCipher
  import opened OnionRouter
  import opened OnionCircuit
  import opened OnionTransport

  /** CProxy::is_dup_hop before stage 9: hop already stands in the path row. */
  method IsDupHop(row: seq<nat>, hop: nat) returns (dup: bool)
    ensures dup <==> hop in row
  {
    for i := 0 to |row|
      invariant hop !in row[..i]
    {
      if hop == row[i] {
        return true;
      }
    }
    return false;
  }

  /** The hops a sequence of random numbers offers: each usable router once, in the order drawn. */
  function Drawn(random: seq<nat>, nodes: nat, previousFirst: nat): seq<nat>
    requires nodes > 0
  {
    if random == [] then []
    else
      var n := |random| - 1;
      var before := Drawn(random[..n], nodes, previousFirst);
      var hop := random[n] % nodes + 1;
      if hop == previousFirst || hop in before then before else before + [hop]
  }

  /** A path of distinct routers without the previous first hop */
  ghost predicate Usable(path: seq<nat>, nodes: nat, previousFirst: nat) {
    && (forall i :: 0 <= i < |path| ==> 1 <= path[i] <= nodes && path[i] != previousFirst)
    && forall i, j :: 0 <= i < j < |path| ==> path[i] != path[j]
  }

  lemma {:induction false} DrawnMeans(random: seq<nat>, nodes: nat, previousFirst: nat)
    requires nodes > 0
    ensures Usable(Drawn(random, nodes, previousFirst), nodes, previousFirst)
    ensures forall x <- random :: x % nodes + 1 in Drawn(random, nodes, previousFirst) || x % nodes + 1 == previousFirst
  {
    if random != [] {
      var n := |random| - 1;
      DrawnMeans(random[..n], nodes, previousFirst);
      assert random == random[..n] + [random[n]];
    }
  }

  lemma {:induction false} DrawnGrows(random: seq<nat>, nodes: nat, previousFirst: nat, n: nat)
    requires nodes > 0 && n <= |random|
    ensures Drawn(random[..n], nodes, previousFirst) <= Drawn(random, nodes, previousFirst)
    decreases |random|
  {
    if n == |random| {
      assert random[..n] == random;
    } else {
      var m := |random| - 1;
      assert random[..m][..n] == random[..n];
      DrawnGrows(random[..m], nodes, previousFirst, n);
    }
  }

  /** One more random number */
  lemma DrawnNext(random: seq<nat>, nodes: nat, previousFirst: nat, n: nat)
    requires nodes > 0 && n < |random|
    ensures var before, hop := Drawn(random[..n], nodes, previousFirst), random[n] % nodes + 1;
      Drawn(random[..n + 1], nodes, previousFirst) ==
        if hop == previousFirst || hop in before then before else before + [hop]
  {
    assert random[..n + 1][..n] == random[..n];
  }

  /** CProxy::generate_random_path on a row of zeros. The random numbers are a parameter; None means
      that they ran out before a path was complete. */
  method GeneratePath(hops: nat, nodes: nat, previousFirst: nat, random: seq<nat>) returns (path: Option<seq<nat>>)
    requires nodes > 0
    ensures path.Some? <==> |Drawn(random, nodes, previousFirst)| >= hops
    ensures path.Some? ==>
      path.value == Drawn(random, nodes, previousFirst)[..hops] && Usable(path.value, nodes, previousFirst)
  {
    var row: seq<nat> := seq(hops, i => 0);
    var i, next := 0, 0;
    while i < hops
      invariant i <= hops && next <= |random| && |row| == hops
      invariant row[..i] == Drawn(random[..next], nodes, previousFirst)
      invariant forall k :: i <= k < hops ==> row[k] == 0
      decreases |random| - next
    {
      if next == |random| {
        assert random[..next] == random;
        return None;
      }
      var hop := random[next] % nodes + 1;
      DrawnNext(random, nodes, previousFirst, next);
      next := next + 1;
      if previousFirst == hop {
        continue;
      }
      var dup := IsDupHop(row, hop);
      assert dup <==> hop in row[..i];
      if dup {
        continue;
      }
      assert row[i := hop][..i + 1] == row[..i] + [hop];
      row := row[i := hop];
      i := i + 1;
    }
    DrawnGrows(random, nodes, previousFirst, next);
    DrawnMeans(random, nodes, previousFirst);
    return Some(row);
  }

  /** The two datagrams of iteration t + 1 of CProxy::create_circuit. */
  method Requests(p: Plan, t: nat) returns (key: Msg, extend: Msg)
    requires p.Ok() && t < |p.keys|
    ensures key == p.KeyMsg(t, 0) && extend == p.ExtendMsg(t, 0)
  {
    var cid := CircuitId(0, p.num);
    var next := if t + 1 == |p.keys| then LAST_HOP else p.ports[t + 2];
    var sealedKey := EncryptMultiround(p.c, p.keys, t, p.keys[t]);
    assert p.keys[..t] == p.keys[0..t];
    key := Msg(DiffieHellman, cid, sealedKey);
    var sealedPort := EncryptMultiround(p.c, p.keys, t + 1, Decimal(Swap16(next)));
    assert p.keys[..t + 1] == p.keys[0..t + 1];
    extend := Msg(Extend, cid, sealedPort);
  }

  /** The relay message of CProxy::handle_tun_icmp_traffic and handle_tun_tcp_traffic. */
  method WrapPacket(p: Plan, packet: Bytes) returns (m: Msg)
    requires p.Ok() && |p.keys| > 0
    ensures m == OutMsg(p, 0, packet)
    ensures |m.payload| == BLOCK * (|packet| / BLOCK + |p.keys|)
  {
    var sealed := EncryptMultiround(p.c, p.keys, |p.keys|, packet);
    assert p.keys[..|p.keys|] == p.keys && p.keys[0..] == p.keys;
    UnwrapWrap(p.c, p.keys, packet);
    m := Msg(Relay, CircuitId(0, p.num), sealed);
  }

  /** CProxy::handle_relay_msg on an answer that entered the circuit at its last hop. */
  method UnwrapAnswer(p: Plan, m: Msg, ghost packet: Bytes) returns (clear: Option<Bytes>)
    requires p.Ok() && |p.keys| > 0 && m == BackMsg(p, 0, packet)
    ensures clear == Some(packet)
  {
    clear := DecryptMultiround(p.c, p.keys, |p.keys|, m.payload);
    assert p.keys[..|p.keys|] == p.keys && p.keys[0..] == p.keys;
    UnwrapWrap(p.c, p.keys, packet);
  }
}
