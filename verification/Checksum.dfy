/** The Internet checksum of mysocket.cpp (sections 1 and 4.1 of RFC 1071) on a little-endian machine,
    for the IP and ICMP headers and, with the pseudo header of section 3.1 of RFC 793, for TCP. */
module Checksum {
  import opened Basics

  /** Two bytes in memory, read as a word */
  function Word(first: Byte, second: Byte): nat {
    (first as int) + 256 * (second as int)
  }

  /** The sum of the 16-bit words in memory order; a byte left over counts as the low byte of a word. */
  function WordSum(bs: seq<Byte>): nat {
    if |bs| == 0 then 0 else if |bs| == 1 then bs[0] else Word(bs[0], bs[1]) + WordSum(bs[2..])
  }

  /** The high 16 bits added to the low ones */
  function Carry(x: nat): (c: nat)
    ensures c == x - 0xffff * (x / 0x10000)
    ensures x >= 0x10000 ==> 0 < c < x
    ensures x < 0x10000 ==> c == x
  {
    x % 0x10000 + x / 0x10000
  }

  /** Carries added back until none is left. */
  function Fold(x: nat): (r: nat)
    ensures r < 0x10000
  {
    if x < 0x10000 then x else Fold(Carry(x))
  }

  /** The fold is the representative from 1 to 0xffff modulo 0xffff, or 0 for 0. */
  lemma {:induction false} FoldMeans(x: nat)
    ensures Fold(x) == if x == 0 then 0 else (x - 1) % 0xffff + 1
  {
    if x >= 0x10000 {
      FoldMeans(Carry(x));
      AddMultiple(Carry(x) - 1, x / 0x10000);
    }
  }

  lemma {:induction false} AddMultiple(a: nat, n: nat)
    ensures (a + 0xffff * n) % 0xffff == a % 0xffff
  {
    if n > 0 {
      AddMultiple(a, n - 1);
      assert a + 0xffff * n == (a + 0xffff * (n - 1)) + 0xffff;
    }
  }

  lemma CarryBound(x: nat)
    requires x < 0x8000_0000
    ensures Carry(x) < 0x18000
  {
  }

  /** A sum below 2 * 2^16 folds in one step: the carry is added and falls off the top. */
  lemma OneCarry(y: nat)
    requires y < 0x18000
    ensures (y + y / 0x10000) % 0x10000 == Fold(y)
  {
    if y >= 0x10000 {
      assert y / 0x10000 == 1 && Carry(y) == y - 0xffff;
      assert (y + 1) % 0x10000 == y + 1 - 0x10000;
    }
  }

  /** in_cksum's two steps on a sum that fits 31 bits give what the loop gives. */
  lemma FoldTwice(x: nat)
    requires x < 0x8000_0000
    ensures (Carry(x) + Carry(x) / 0x10000) % 0x10000 == Fold(x)
  {
    CarryBound(x);
    OneCarry(Carry(x));
  }

  lemma {:induction false} SumBound(bs: seq<Byte>)
    ensures 2 * WordSum(bs) <= 0xffff * |bs| + 0xffff
    ensures |bs| % 2 == 0 ==> 2 * WordSum(bs) <= 0xffff * |bs|
  {
    if |bs| >= 2 { SumBound(bs[2..]); }
  }

  /** On buffers of up to 65535 bytes the sum stays below 2^31. */
  lemma SumFits(bs: seq<Byte>)
    requires |bs| <= 0xffff
    ensures WordSum(bs) < 0x8000_0000
  {
    SumBound(bs);
  }

  /** The checksum: the 16-bit complement of the folded sum. */
  function Internet(bs: seq<Byte>): nat {
    0xffff - Fold(WordSum(bs))
  }

  lemma {:induction false} PrefixSum(bs: seq<Byte>, i: nat)
    requires i <= |bs| && i % 2 == 0
    ensures WordSum(bs) == WordSum(bs[..i]) + WordSum(bs[i..])
    decreases i
  {
    if i == 0 {
      assert bs[0..] == bs;
    } else {
      PrefixSum(bs[2..], i - 2);
      assert bs[2..][..i - 2] == bs[..i][2..] && bs[2..][i - 2..] == bs[i..];
    }
  }

  /** The summing loop of in_cksum: on buffers up to 65535 bytes no partial sum leaves 31 bits */
  method SumWords(bs: seq<Byte>) returns (sum: nat)
    ensures sum == WordSum(bs)
    ensures |bs| <= 0xffff ==> sum < 0x8000_0000
  {
    var i: nat := 0;
    sum := 0;
    while |bs| - i > 1
      invariant i <= |bs| && sum + WordSum(bs[i..]) == WordSum(bs)
    {
      assert bs[i..][2..] == bs[i + 2..];
      sum := sum + Word(bs[i], bs[i + 1]);
      i := i + 2;
    }
    if |bs| - i == 1 {
      sum := sum + bs[i];
    }
    if |bs| <= 0xffff { SumFits(bs); }
  }

  /** in_cksum */
  method InCksum(bs: seq<Byte>) returns (answer: nat)
    requires |bs| <= 0xffff
    ensures answer == Internet(bs) && answer <= 0xffff
  {
    var sum := SumWords(bs);
    FoldTwice(sum);
    sum := Carry(sum);
    sum := sum + sum / 0x10000;
    answer := 0xffff - sum % 0x10000;
  }

  /** The folding loop of checksum and compute_tcp_checksum */
  method FoldLoop(x: nat) returns (sum: nat)
    ensures sum == Fold(x) < 0x10000
  {
    sum := x;
    while sum / 0x10000 != 0
      invariant Fold(sum) == Fold(x)
      decreases sum
    {
      sum := Carry(sum);
    }
  }

  /** checksum: the complement as a signed long; its low 16 bits are the checksum */
  method ChecksumLong(bs: seq<Byte>) returns (r: int)
    ensures r == -1 - Fold(WordSum(bs)) && r % 0x10000 == Internet(bs)
  {
    var sum := SumWords(bs);
    var folded: int := FoldLoop(sum);
    r := -1 - folded;
  }

  // ---- A checksum field filled in ----

  /** The 16-bit field at offset k set to c, as the machine stores it */
  function SetWord(bs: seq<Byte>, k: nat, c: nat): (r: seq<Byte>)
    requires k + 1 < |bs| && c <= 0xffff
    ensures |r| == |bs|
  {
    var lo: Byte, hi: Byte := c % 256, c / 256;
    bs[..k] + [lo, hi] + bs[k + 2..]
  }

  lemma SetWordSum(bs: seq<Byte>, k: nat, c: nat)
    requires k + 1 < |bs| && c <= 0xffff && k % 2 == 0
    ensures WordSum(SetWord(bs, k, c)) == WordSum(SetWord(bs, k, 0)) + c
  {
    var s, z := SetWord(bs, k, c), SetWord(bs, k, 0);
    PrefixSum(s, k);
    PrefixSum(z, k);
    assert s[..k] == z[..k] && s[k..][2..] == z[k..][2..];
    assert s[k..][0] == c % 256 && s[k..][1] == c / 256 && z[k..][0] == 0 && z[k..][1] == 0;
  }

  /** Which values of the field make the buffer sum up to checksum 0: the checksum computed with a zero
      field, and 0xffff where that is 0. */
  lemma Accepts(bs: seq<Byte>, k: nat, c: nat)
    requires k + 1 < |bs| && c <= 0xffff && k % 2 == 0
    ensures Internet(SetWord(bs, k, c)) == 0 <==>
      c == Internet(SetWord(bs, k, 0)) || (c == 0xffff && Internet(SetWord(bs, k, 0)) == 0)
  {
    SetWordSum(bs, k, c);
    ComplementFold(WordSum(SetWord(bs, k, 0)), c);
  }

  lemma ComplementFold(s: nat, c: nat)
    requires c <= 0xffff
    ensures Fold(s + c) == 0xffff <==> c == 0xffff - Fold(s) || (c == 0xffff && Fold(s) == 0xffff)
  {
    FoldMeans(s);
    FoldMeans(s + c);
    ComplementSum(s, c);
  }

  /** s + c is a positive multiple of 0xffff exactly if c complements the fold of s. */
  lemma ComplementSum(s: nat, c: nat)
    requires c <= 0xffff
    ensures (if s + c == 0 then 0 else (s + c - 1) % 0xffff + 1) == 0xffff <==>
      (var f := if s == 0 then 0 else (s - 1) % 0xffff + 1; c == 0xffff - f || (c == 0xffff && f == 0xffff))
  {
    if s == 0 {
    } else {
      var q, r := (s - 1) / 0xffff, (s - 1) % 0xffff;
      assert s + c - 1 == (r + c) + 0xffff * q;
      AddMultiple(r + c, q);
    }
  }

  /** A header with its checksum filled in sums up to 0. */
  lemma FilledInIsZero(bs: seq<Byte>, k: nat)
    requires k + 1 < |bs| && k % 2 == 0
    ensures Internet(SetWord(bs, k, Internet(SetWord(bs, k, 0)))) == 0
  {
    Accepts(bs, k, Internet(SetWord(bs, k, 0)));
  }

  /** If one word of an accepted buffer is changed, it stays accepted only when 0 and 0xffff are swapped. */
  lemma DetectsWord(bs: seq<Byte>, k: nat, c: nat, d: nat)
    requires k + 1 < |bs| && k % 2 == 0 && c <= 0xffff && d <= 0xffff && c != d
    requires Internet(SetWord(bs, k, c)) == 0 && Internet(SetWord(bs, k, d)) == 0
    ensures {c, d} == {0, 0xffff}
  {
    Accepts(bs, k, c);
    Accepts(bs, k, d);
  }

  // ---- TCP ----

  const TCP_HEADER: nat := 20
  const TCP_CHECK: nat := 16    // offset of the check field
  const IPPROTO_TCP: Byte := 6

  /** The fields of the IP header the functions read; addresses as stored. */
  datatype IpHeader = IpHeader(saddr: seq<Byte>, daddr: seq<Byte>, totLen: nat, ihl: nat)

  ghost predicate HeaderOk(ip: IpHeader, segment: int) {
    |ip.saddr| == 4 && |ip.daddr| == 4 && ip.totLen <= 0xffff && ip.totLen - 4 * ip.ihl == segment
  }

  /** The pseudo header, with the length in network order */
  function Pseudo(ip: IpHeader, length: nat): (r: seq<Byte>)
    requires length <= 0xffff
    ensures |r| == |ip.saddr| + |ip.daddr| + 4
  {
    var hi: Byte, lo: Byte := length / 256, length % 256;
    ip.saddr + ip.daddr + [0, IPPROTO_TCP, hi, lo]
  }

  /** The sum compute_tcp_checksum starts from: halves of the addresses, and htons of protocol and length */
  function PseudoSum(ip: IpHeader, length: nat): nat
    requires |ip.saddr| == 4 && |ip.daddr| == 4 && length <= 0xffff
  {
    Word(ip.saddr[2], ip.saddr[3]) + Word(ip.saddr[0], ip.saddr[1]) + Word(ip.daddr[2], ip.daddr[3])
    + Word(ip.daddr[0], ip.daddr[1]) + Word(0, IPPROTO_TCP) + Word(length / 256, length % 256)
  }

  lemma PseudoSumIs(ip: IpHeader, length: nat, segment: seq<Byte>)
    requires |ip.saddr| == 4 && |ip.daddr| == 4 && length <= 0xffff
    ensures WordSum(Pseudo(ip, length) + segment) == PseudoSum(ip, length) + WordSum(segment)
  {
    var p := Pseudo(ip, length);
    PrefixSum(p + segment, 12);
    assert (p + segment)[..12] == p && (p + segment)[12..] == segment;
    WordsOfTwelve(p);
  }

  lemma WordsOfTwelve(p: seq<Byte>)
    requires |p| == 12
    ensures WordSum(p) == Word(p[0], p[1]) + Word(p[2], p[3]) + Word(p[4], p[5]) + Word(p[6], p[7])
                          + Word(p[8], p[9]) + Word(p[10], p[11])
  {
    assert p[2..][2..] == p[4..] && p[4..][2..] == p[6..] && p[6..][2..] == p[8..] && p[8..][2..] == p[10..];
    assert p[10..][2..] == [];
    assert WordSum(p[10..]) == Word(p[10], p[11]);
    assert WordSum(p[8..]) == Word(p[8], p[9]) + WordSum(p[10..]);
    assert WordSum(p[6..]) == Word(p[6], p[7]) + WordSum(p[8..]);
    assert WordSum(p[4..]) == Word(p[4], p[5]) + WordSum(p[6..]);
    assert WordSum(p[2..]) == Word(p[2], p[3]) + WordSum(p[4..]);
  }

  /** The segment behind `at` with its check field filled in */
  function TcpFilled(ip: IpHeader, bs: Bytes, at: nat): (r: Bytes)
    requires at + TCP_HEADER <= |bs| && |bs| - at <= 0xffff
    ensures |r| == |bs|
  {
    SetWord(bs, at + TCP_CHECK, Internet(Pseudo(ip, |bs| - at) + SetWord(bs[at..], TCP_CHECK, 0)))
  }

  lemma TailSet(bs: Bytes, at: nat, k: nat, c: nat)
    requires at + k + 1 < |bs| && c <= 0xffff
    ensures SetWord(bs, at + k, c)[at..] == SetWord(bs[at..], k, c)
  {
  }

  /** compute_tcp_checksum: fills in the check field of the segment behind `at` in place */
  method ComputeTcpChecksum(ip: IpHeader, buf: array<Byte>, at: nat)
    requires at + TCP_HEADER <= buf.Length && HeaderOk(ip, buf.Length - at)
    modifies buf
    ensures buf[..] == TcpFilled(ip, old(buf[..]), at)
  {
    var tcpLen := ip.totLen - 4 * ip.ihl;
    var sum := PseudoSum(ip, tcpLen);
    ghost var before := buf[..];
    StoreWord(buf, at + TCP_CHECK, 0);
    TailSet(before, at, TCP_CHECK, 0);
    var segment := buf[at..];
    assert segment == buf[..][at..];
    var words := SumWords(segment);
    PseudoSumIs(ip, tcpLen, segment);
    sum := FoldLoop(sum + words);
    SetWordTwice(before, at + TCP_CHECK, 0, 0xffff - sum);
    StoreWord(buf, at + TCP_CHECK, 0xffff - sum);
  }

  lemma SetWordTwice(bs: seq<Byte>, k: nat, c: nat, d: nat)
    requires k + 1 < |bs| && c <= 0xffff && d <= 0xffff
    ensures SetWord(SetWord(bs, k, c), k, d) == SetWord(bs, k, d)
  {
  }

  method StoreWord(a: array<Byte>, k: nat, c: nat)
    requires k + 1 < a.Length && c <= 0xffff
    modifies a
    ensures a[..] == SetWord(old(a[..]), k, c)
  {
    a[k], a[k + 1] := c % 256, c / 256;
  }

  /** get_tcp_checksum: pseudo header, TCP header, options and data copied together and summed */
  method GetTcpChecksum(ip: IpHeader, segment: seq<Byte>, doff: nat) returns (r: int)
    requires HeaderOk(ip, |segment|) && TCP_HEADER <= 4 * doff <= |segment|
    ensures r == -1 - Fold(WordSum(Pseudo(ip, |segment|) + segment)) &&
      r % 0x10000 == Internet(Pseudo(ip, |segment|) + segment)
  {
    var optLen := 4 * doff - TCP_HEADER;
    var dataLen := ip.totLen - 4 * doff - 4 * ip.ihl;
    var length := TCP_HEADER + optLen + dataLen;
    var tcp := Pseudo(ip, length) + segment[..TCP_HEADER] + segment[TCP_HEADER..TCP_HEADER + optLen]
               + segment[4 * doff..4 * doff + dataLen];
    assert tcp == Pseudo(ip, |segment|) + segment;
    r := ChecksumLong(tcp);
  }

  /** With a zero check field get_tcp_checksum answers what compute_tcp_checksum fills in, and on the filled
      segment it answers 0, in 16 bits. */
  lemma TcpAgree(ip: IpHeader, segment: seq<Byte>, filled: seq<Byte>)
    requires HeaderOk(ip, |segment|) && |segment| >= TCP_HEADER && segment == SetWord(segment, TCP_CHECK, 0)
    requires filled == SetWord(segment, TCP_CHECK, Internet(Pseudo(ip, |segment|) + SetWord(segment, TCP_CHECK, 0)))
    ensures var c := Internet(Pseudo(ip, |segment|) + segment);
      filled[TCP_CHECK] == c % 256 && filled[TCP_CHECK + 1] == c / 256
    ensures Internet(Pseudo(ip, |segment|) + filled) == 0
  {
    var p := Pseudo(ip, |segment|);
    var all, k := p + segment, 12 + TCP_CHECK;
    var c := Internet(p + segment);
    assert SetWord(all, k, 0) == p + SetWord(segment, TCP_CHECK, 0);
    assert SetWord(all, k, c) == p + SetWord(segment, TCP_CHECK, c);
    FilledInIsZero(all, k);
  }
}
