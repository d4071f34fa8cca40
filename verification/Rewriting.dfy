/** What proxy and routers write into the packets that travel through a circuit: the proxy hides the source
    address, the last hop puts in its own, and the proxy puts the hidden one into the answers. */
module Rewriting {
  import opened Basics
  import opened Checksum

  const HEADER: nat := 20       // sizeof(struct iphdr)
  const PROTOCOL: nat := 9
  const CHECK: nat := 10
  const SOURCE: nat := 12
  const TARGET: nat := 16
  const ICMP: Byte := 1
  const NOWHERE: Bytes := [0, 0, 0, 0]

  /** The length field, in network order */
  function Length(m: Bytes): nat
    requires |m| >= HEADER
  {
    256 * (m[2] as int) + (m[3] as int)
  }

  /** An IP packet without options whose length field is its length, with room for a TCP header if it is TCP. */
  predicate Packet(m: Bytes) {
    && HEADER <= |m| <= 0xffff && m[0] % 16 == 5 && Length(m) == |m|
    && (m[PROTOCOL] == IPPROTO_TCP ==> HEADER + TCP_HEADER <= |m|)
  }

  function Ip(m: Bytes): IpHeader
    requires |m| >= HEADER
  {
    IpHeader(m[SOURCE..SOURCE + 4], m[TARGET..TARGET + 4], Length(m), m[0] % 16)
  }

  /** The header checksum computed anew */
  function Resummed(m: Bytes): (r: Bytes)
    requires |m| >= HEADER
    ensures |r| == |m|
  {
    SetWord(m, CHECK, Internet(SetWord(m[..HEADER], CHECK, 0)))
  }

  function Readdressed(m: Bytes, at: nat, a: Bytes): (r: Bytes)
    requires |m| >= HEADER
    ensures |r| == |m|
  {
    Resummed(Written(m, at, a))
  }

  /** The TCP checksum computed anew, if it is a TCP packet */
  function Resealed(m: Bytes): (r: Bytes)
    requires Packet(m)
    ensures |r| == |m|
  {
    if m[PROTOCOL] == IPPROTO_TCP then TcpFilled(Ip(m), m, HEADER) else m
  }

  /** What the proxy wraps, what the last hop sends out, and what the proxy writes to the tunnel */
  function Anonymous(m: Bytes): Bytes
    requires |m| >= HEADER
  {
    Readdressed(m, SOURCE, NOWHERE)
  }

  function Outgoing(m: Bytes, a: Bytes): Bytes
    requires Packet(m) && |a| == 4
  {
    StaysPacket(m, SOURCE, a);
    Resealed(Readdressed(m, SOURCE, a))
  }

  function Delivered(m: Bytes, a: Bytes): Bytes
    requires Packet(m) && |a| == 4
  {
    StaysPacket(m, TARGET, a);
    Resealed(Readdressed(m, TARGET, a))
  }

  // ---- What changes ----

  lemma SetWordAt(bs: Bytes, k: nat, c: nat)
    requires k + 1 < |bs| && c <= 0xffff
    ensures forall i :: 0 <= i < |bs| ==>
      SetWord(bs, k, c)[i] == if i == k then c % 256 else if i == k + 1 then c / 256 else bs[i]
  {
  }

  /** Only the address and the checksum change. */
  lemma ReaddressedAt(m: Bytes, at: nat, a: Bytes)
    requires |m| >= HEADER && at in {SOURCE, TARGET} && |a| == 4
    ensures forall i :: 0 <= i < |m| && i != CHECK && i != CHECK + 1 ==>
      Readdressed(m, at, a)[i] == if at <= i < at + 4 then a[i - at] else m[i]
  {
    var w := Written(m, at, a);
    SetWordAt(w, CHECK, Internet(SetWord(w[..HEADER], CHECK, 0)));
  }

  lemma StaysPacket(m: Bytes, at: nat, a: Bytes)
    requires Packet(m) && at in {SOURCE, TARGET} && |a| == 4
    ensures Packet(Readdressed(m, at, a))
  {
    ReaddressedAt(m, at, a);
  }

  /** The new header sums up to 0. */
  lemma SumsToZero(m: Bytes)
    requires |m| >= HEADER
    ensures Internet(Resummed(m)[..HEADER]) == 0
  {
    var h := m[..HEADER];
    var c := Internet(SetWord(h, CHECK, 0));
    assert Resummed(m)[..HEADER] == SetWord(h, CHECK, c);
    FilledInIsZero(h, CHECK);
  }

  /** The header checksum does not depend on what stood in its field. */
  lemma ResummedSame(m: Bytes, m': Bytes)
    requires HEADER <= |m| == |m'|
    requires forall i :: 0 <= i < |m| && i != CHECK && i != CHECK + 1 ==> m[i] == m'[i]
    ensures Resummed(m) == Resummed(m')
  {
    assert SetWord(m[..HEADER], CHECK, 0) == SetWord(m'[..HEADER], CHECK, 0);
    var c := Internet(SetWord(m[..HEADER], CHECK, 0));
    assert SetWord(m, CHECK, c) == SetWord(m', CHECK, c);
  }

  // ---- The source stays hidden ----

  /** The packets differ at most in source address and header checksum. */
  ghost predicate SameButSource(m: Bytes, m': Bytes) {
    |m| == |m'| && forall i :: 0 <= i < |m| && !(CHECK <= i < SOURCE + 4) ==> m[i] == m'[i]
  }

  /** The packet the proxy wraps is the same for two packets exactly if they differ at most in source address
      and header checksum. */
  lemma Unlinkable(m: Bytes, m': Bytes)
    requires |m| >= HEADER && |m'| >= HEADER
    ensures Anonymous(m) == Anonymous(m') <==> SameButSource(m, m')
  {
    ReaddressedAt(m, SOURCE, NOWHERE);
    ReaddressedAt(m', SOURCE, NOWHERE);
    if SameButSource(m, m') {
      ResummedSame(Written(m, SOURCE, NOWHERE), Written(m', SOURCE, NOWHERE));
    }
    if Anonymous(m) == Anonymous(m') {
      forall i | 0 <= i < |m| && !(CHECK <= i < SOURCE + 4) ensures m[i] == m'[i] {
        assert Anonymous(m)[i] == m[i] && Anonymous(m')[i] == m'[i];
      }
    }
  }

  /** Hiding the source does not change what leaves the last hop. */
  lemma HiddenSame(m: Bytes, a: Bytes)
    requires Packet(m) && |a| == 4
    ensures Packet(Anonymous(m)) && Outgoing(Anonymous(m), a) == Outgoing(m, a)
  {
    StaysPacket(m, SOURCE, NOWHERE);
    ReaddressedAt(m, SOURCE, NOWHERE);
    ResummedSame(Written(Anonymous(m), SOURCE, a), Written(m, SOURCE, a));
  }

  // ---- What leaves the last hop, and what the proxy delivers ----

  /** A packet with a good header, and a good TCP checksum if it is TCP */
  ghost predicate Checked(m: Bytes) {
    && Packet(m) && Internet(m[..HEADER]) == 0
    && (m[PROTOCOL] == IPPROTO_TCP ==> Internet(Pseudo(Ip(m), |m| - HEADER) + m[HEADER..]) == 0)
  }

  lemma ResealedAt(m: Bytes)
    requires Packet(m)
    ensures forall i :: 0 <= i < |m| && !(HEADER + TCP_CHECK <= i < HEADER + TCP_CHECK + 2) ==> Resealed(m)[i] == m[i]
    ensures m[PROTOCOL] != IPPROTO_TCP ==> Resealed(m) == m
  {
    if m[PROTOCOL] == IPPROTO_TCP {
      SetWordAt(m, HEADER + TCP_CHECK, Internet(Pseudo(Ip(m), |m| - HEADER) + SetWord(m[HEADER..], TCP_CHECK, 0)));
    }
  }

  lemma SameHeader(m: Bytes, m': Bytes)
    requires HEADER <= |m| == |m'| && forall i :: 0 <= i < HEADER ==> m[i] == m'[i]
    ensures m[..HEADER] == m'[..HEADER] && Ip(m) == Ip(m')
  {
  }

  lemma ResealedChecked(m: Bytes)
    requires Packet(m) && Internet(m[..HEADER]) == 0
    ensures Checked(Resealed(m))
  {
    var r := Resealed(m);
    ResealedAt(m);
    SameHeader(m, r);
    if m[PROTOCOL] == IPPROTO_TCP {
      var zero := SetWord(m[HEADER..], TCP_CHECK, 0);
      var c := Internet(Pseudo(Ip(m), |m| - HEADER) + zero);
      TailSet(m, HEADER, TCP_CHECK, c);
      SetWordTwice(m[HEADER..], TCP_CHECK, 0, c);
      SetWordTwice(m[HEADER..], TCP_CHECK, 0, 0);
      TcpAgree(Ip(m), zero, r[HEADER..]);
    }
  }

  /** Only the address and the checksums change, the address is the new one, and all checksums are good. */
  ghost predicate IsRewritten(m: Bytes, r: Bytes, at: nat, a: Bytes) {
    && |r| == |m| && Checked(r) && |a| == 4 && at + 4 <= |r| && r[at..at + 4] == a
    && forall i :: 0 <= i < |m| && !(at <= i < at + 4) && !SumField(m, i) ==> r[i] == m[i]
  }

  /** Byte i belongs to a checksum of packet m. */
  predicate SumField(m: Bytes, i: int)
    requires |m| > PROTOCOL
  {
    || CHECK <= i < CHECK + 2
    || (m[PROTOCOL] == IPPROTO_TCP && HEADER + TCP_CHECK <= i < HEADER + TCP_CHECK + 2)
  }

  lemma RewrittenBytes(m: Bytes, at: nat, a: Bytes)
    requires Packet(m) && at in {SOURCE, TARGET} && |a| == 4 && Packet(Readdressed(m, at, a))
    ensures var r := Resealed(Readdressed(m, at, a));
      && |r| == |m| && r[at..at + 4] == a
      && forall i :: 0 <= i < |m| && !(at <= i < at + 4) && !SumField(m, i) ==> r[i] == m[i]
  {
    ReaddressedAt(m, at, a);
    ResealedAt(Readdressed(m, at, a));
  }

  lemma RewrittenMeans(m: Bytes, at: nat, a: Bytes)
    requires Packet(m) && at in {SOURCE, TARGET} && |a| == 4
    ensures Packet(Readdressed(m, at, a)) && IsRewritten(m, Resealed(Readdressed(m, at, a)), at, a)
  {
    var q := Readdressed(m, at, a);
    StaysPacket(m, at, a);
    SumsToZero(Written(m, at, a));
    ResealedChecked(q);
    RewrittenBytes(m, at, a);
  }

  lemma OutgoingMeans(m: Bytes, a: Bytes)
    requires Packet(m) && |a| == 4
    ensures IsRewritten(m, Outgoing(m, a), SOURCE, a)
  {
    RewrittenMeans(m, SOURCE, a);
  }

  lemma DeliveredMeans(m: Bytes, a: Bytes)
    requires Packet(m) && |a| == 4
    ensures IsRewritten(m, Delivered(m, a), TARGET, a)
  {
    RewrittenMeans(m, TARGET, a);
  }

  // ---- What the TCP checksum tells ----

  /** The two words of an address added up */
  function AddrSum(a: Bytes): nat
    requires |a| == 4
  {
    Word(a[0], a[1]) + Word(a[2], a[3])
  }

  /** The TCP checksum of packet m when it comes from address a */
  function TcpSum(m: Bytes, a: Bytes): nat
    requires Packet(m) && m[PROTOCOL] == IPPROTO_TCP && |a| == 4
  {
    Internet(Pseudo(Ip(m).(saddr := a), |m| - HEADER) + SetWord(m[HEADER..], TCP_CHECK, 0))
  }

  lemma FoldSame(x: nat, y: nat, rest: nat)
    requires rest > 0
    ensures Fold(x + rest) == Fold(y + rest) <==> (x - y) % 0xffff == 0
  {
    FoldMeans(x + rest);
    FoldMeans(y + rest);
    Congruent(x + rest - 1, y + rest - 1);
    assert (x + rest - 1) - (y + rest - 1) == x - y;
  }

  lemma Congruent(u: nat, v: nat)
    ensures u % 0xffff == v % 0xffff <==> (u - v) % 0xffff == 0
  {
    var d := u / 0xffff - v / 0xffff;
    assert u - v == 0xffff * d + (u % 0xffff - v % 0xffff);
  }

  /** Two addresses give the same TCP checksum exactly if their words add up to the same modulo 0xffff. */
  lemma TcpSumSame(m: Bytes, a: Bytes, b: Bytes)
    requires Packet(m) && m[PROTOCOL] == IPPROTO_TCP && |a| == 4 && |b| == 4
    ensures TcpSum(m, a) == TcpSum(m, b) <==> (AddrSum(a) - AddrSum(b)) % 0xffff == 0
  {
    var zero, n := SetWord(m[HEADER..], TCP_CHECK, 0), |m| - HEADER;
    var d := Ip(m).daddr;
    var rest := Word(d[2], d[3]) + Word(d[0], d[1]) + Word(0, IPPROTO_TCP) + Word(n / 256, n % 256) + WordSum(zero);
    PseudoSumIs(Ip(m).(saddr := a), n, zero);
    PseudoSumIs(Ip(m).(saddr := b), n, zero);
    FoldSame(AddrSum(a), AddrSum(b), rest);
  }

  /** The check field of a packet that comes from a, with good checksums */
  lemma OutgoingTcp(m: Bytes, a: Bytes)
    requires Packet(m) && m[PROTOCOL] == IPPROTO_TCP && |a| == 4
    ensures |Outgoing(m, a)| == |m|
    ensures Outgoing(m, a)[HEADER + TCP_CHECK] == TcpSum(m, a) % 256
    ensures Outgoing(m, a)[HEADER + TCP_CHECK + 1] == TcpSum(m, a) / 256
  {
    var q := Readdressed(m, SOURCE, a);
    StaysPacket(m, SOURCE, a);
    ReaddressedAt(m, SOURCE, a);
    assert q[HEADER..] == m[HEADER..];
    assert Ip(q) == Ip(m).(saddr := a);
    SetWordAt(q, HEADER + TCP_CHECK, TcpSum(m, a));
  }

  /** Hiding the source of a TCP packet does not hide it in the TCP checksum, which covers it: for the same
      packet with good checksums from a and from b the proxy wraps the same bytes if and only if the two
      addresses add up to the same modulo 0xffff. */
  lemma TcpTells(m: Bytes, a: Bytes, b: Bytes)
    requires Packet(m) && m[PROTOCOL] == IPPROTO_TCP && |a| == 4 && |b| == 4
    ensures |Outgoing(m, a)| == |Outgoing(m, b)| == |m|
    ensures Anonymous(Outgoing(m, a)) == Anonymous(Outgoing(m, b)) <==> (AddrSum(a) - AddrSum(b)) % 0xffff == 0
  {
    OutgoingTcp(m, a);
    OutgoingTcp(m, b);
    TcpSumSame(m, a, b);
    OutgoingMeans(m, a);
    OutgoingMeans(m, b);
    Unlinkable(Outgoing(m, a), Outgoing(m, b));
    SameWords(Outgoing(m, a), Outgoing(m, b), TcpSum(m, a), TcpSum(m, b), m, a, b);
  }

  lemma SameWords(p: Bytes, q: Bytes, c: nat, d: nat, m: Bytes, a: Bytes, b: Bytes)
    requires Packet(m) && m[PROTOCOL] == IPPROTO_TCP
    requires IsRewritten(m, p, SOURCE, a) && IsRewritten(m, q, SOURCE, b) && c <= 0xffff && d <= 0xffff
    requires p[HEADER + TCP_CHECK] == c % 256 && p[HEADER + TCP_CHECK + 1] == c / 256
    requires q[HEADER + TCP_CHECK] == d % 256 && q[HEADER + TCP_CHECK + 1] == d / 256
    ensures SameButSource(p, q) <==> c == d
  {
    if c == d {
      forall i | 0 <= i < |p| && !(CHECK <= i < SOURCE + 4) ensures p[i] == q[i] {
        if !SumField(m, i) {
          assert p[i] == m[i] && q[i] == m[i];
        }
      }
    }
    if SameButSource(p, q) {
      assert p[HEADER + TCP_CHECK] == q[HEADER + TCP_CHECK];
      assert p[HEADER + TCP_CHECK + 1] == q[HEADER + TCP_CHECK + 1];
    }
  }

  /** Any other packet tells nothing. */
  lemma OthersTellNothing(m: Bytes, a: Bytes, b: Bytes)
    requires Packet(m) && m[PROTOCOL] != IPPROTO_TCP && |a| == 4 && |b| == 4
    ensures |Outgoing(m, a)| == |Outgoing(m, b)| == |m| && Anonymous(Outgoing(m, a)) == Anonymous(Outgoing(m, b))
  {
    OutgoingMeans(m, a);
    OutgoingMeans(m, b);
    var p, q := Outgoing(m, a), Outgoing(m, b);
    forall i | 0 <= i < |m| && !(CHECK <= i < SOURCE + 4) ensures p[i] == q[i] {
      assert !SumField(m, i);
    }
    Unlinkable(p, q);
  }

  /** Any TCP packet from 10.0.2.1 and from 10.0.2.2: the wrapped packets differ. */
  lemma TwoHosts(m: Bytes)
    requires Packet(m) && m[PROTOCOL] == IPPROTO_TCP
    ensures |Outgoing(m, [10, 0, 2, 1])| == |Outgoing(m, [10, 0, 2, 2])| == |m|
    ensures Anonymous(Outgoing(m, [10, 0, 2, 1])) != Anonymous(Outgoing(m, [10, 0, 2, 2]))
  {
    TcpTells(m, [10, 0, 2, 1], [10, 0, 2, 2]);
    assert AddrSum([10, 0, 2, 2]) - AddrSum([10, 0, 2, 1]) == 256;
  }

  // ---- The code ----

  /** A new address, and the header checksum computed anew */
  method Readdress(packet: array<Byte>, at: nat, a: Bytes)
    requires packet.Length >= HEADER && at in {SOURCE, TARGET} && |a| == 4
    modifies packet
    ensures packet[..] == Readdressed(old(packet[..]), at, a)
  {
    WriteAt(packet, at, a);
    ghost var w := packet[..];
    StoreWord(packet, CHECK, 0);
    assert packet[..HEADER] == SetWord(w[..HEADER], CHECK, 0);
    var c := InCksum(packet[..HEADER]);
    SetWordTwice(w, CHECK, 0, c);
    StoreWord(packet, CHECK, c);
  }

  /** handle_tun_tcp_traffic and handle_tun_icmp_traffic before they wrap the packet */
  method HideSource(packet: array<Byte>) returns (source: Bytes)
    requires packet.Length >= HEADER
    modifies packet
    ensures source == old(packet[SOURCE..SOURCE + 4]) && packet[..] == Anonymous(old(packet[..]))
    ensures Internet(packet[..HEADER]) == 0
  {
    SumsToZero(Written(packet[..], SOURCE, NOWHERE));
    source := packet[SOURCE..SOURCE + 4];
    Readdress(packet, SOURCE, NOWHERE);
  }

  method Reseal(packet: array<Byte>)
    requires Packet(packet[..])
    modifies packet
    ensures packet[..] == Resealed(old(packet[..]))
  {
    if packet[PROTOCOL] == IPPROTO_TCP {
      ComputeTcpChecksum(Ip(packet[..]), packet, HEADER);
    }
  }

  /** The end of CRouter::handle_relay_msg at the last hop; true if the packet goes to a raw socket */
  method SendOut(packet: array<Byte>, own: Bytes) returns (sent: bool)
    requires Packet(packet[..]) && |own| == 4
    modifies packet
    ensures packet[..] == Outgoing(old(packet[..]), own) && IsRewritten(old(packet[..]), packet[..], SOURCE, own)
    ensures sent <==> old(packet[PROTOCOL]) == ICMP || old(packet[PROTOCOL]) == IPPROTO_TCP
  {
    OutgoingMeans(packet[..], own);
    StaysPacket(packet[..], SOURCE, own);
    ReaddressedAt(packet[..], SOURCE, own);
    Readdress(packet, SOURCE, own);
    sent := packet[PROTOCOL] == ICMP || packet[PROTOCOL] == IPPROTO_TCP;
    Reseal(packet);
  }

  /** CProxy::handle_relay_msg once the layers are off */
  method Deliver(packet: array<Byte>, source: Bytes)
    requires Packet(packet[..]) && |source| == 4
    modifies packet
    ensures packet[..] == Delivered(old(packet[..]), source)
    ensures IsRewritten(old(packet[..]), packet[..], TARGET, source)
  {
    DeliveredMeans(packet[..], source);
    StaysPacket(packet[..], TARGET, source);
    Readdress(packet, TARGET, source);
    Reseal(packet);
  }
}
