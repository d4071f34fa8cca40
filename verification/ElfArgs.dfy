/** elf32.c: the image of arguments, environment and auxiliary vector that a new program finds on its
    stack, built in a buffer and read back. Pointers are 32-bit words, stored low byte first. */
module ElfArgs {
  import opened Basics

  const AT_PHDR: nat := 3
  const WORD: nat := 0x1_0000_0000
  const HEAD: nat := 16         // argc and the three pointers passed to main

  /** An auxiliary entry; `table` is what the pointer of an AT_PHDR entry leads to. */
  datatype Aux = Aux(atype: nat, val: nat, table: Bytes)

  // ---- The sizes of the regions ----

  function Terminated(s: Bytes): (r: Bytes)
    ensures |r| == |s| + 1
  {
    s + [0]
  }

  /** The strings with their terminators, one after the other. */
  function Strs(ss: seq<Bytes>): Bytes {
    if ss == [] then [] else Terminated(ss[0]) + Strs(ss[1..])
  }

  /** The space for program header tables: it is counted for every AT_PHDR entry. */
  function TableBytes(auxv: seq<Aux>, phtsize: nat): nat {
    if auxv == [] then 0 else (if auxv[0].atype == AT_PHDR then phtsize else 0) + TableBytes(auxv[1..], phtsize)
  }

  /** What the arguments take on the stack. */
  function ArgSize(argv: seq<Bytes>, envp: seq<Bytes>, auxv: seq<Aux>, phtsize: nat): nat {
    |Strs(argv)| + 4 * (|argv| + 1) + |Strs(envp)| + 4 * (|envp| + 1)
    + TableBytes(auxv, phtsize) + 8 * (|auxv| + 1) + HEAD
  }

  /** The length of the vectors: where the strings start, behind the head. */
  function VecLen(argv: seq<Bytes>, envp: seq<Bytes>, auxv: seq<Aux>): nat {
    4 * (|argv| + 1 + |envp| + 1) + 8 * (|auxv| + 1)
  }

  lemma StrsStep(ss: seq<Bytes>, i: nat)
    requires i < |ss|
    ensures |Strs(ss[i..])| == |ss[i]| + 1 + |Strs(ss[i + 1..])|
  {
    assert ss[i..][1..] == ss[i + 1..];
  }

  /** The loops over argv and envp in _elf32_calc_argsize */
  method SizeOfStrings(ss: seq<Bytes>) returns (size: nat)
    ensures size == |Strs(ss)|
  {
    size := 0;
    for i := 0 to |ss|
      invariant size + |Strs(ss[i..])| == |Strs(ss)|
    {
      StrsStep(ss, i);
      size := size + |ss[i]| + 1;
    }
  }

  /** _elf32_calc_argsize */
  method CalcArgSize(argv: seq<Bytes>, envp: seq<Bytes>, auxv: seq<Aux>, phtsize: nat) returns (size: nat)
    ensures size == ArgSize(argv, envp, auxv, phtsize)
  {
    size := SizeOfStrings(argv);
    size := size + (|argv| + 1) * 4;
    var env := SizeOfStrings(envp);
    size := size + env + (|envp| + 1) * 4;
    ghost var before := size;
    for i := 0 to |auxv|
      invariant size + TableBytes(auxv[i..], phtsize) == before + TableBytes(auxv, phtsize)
    {
      assert auxv[i..][1..] == auxv[i + 1..];
      if auxv[i].atype == AT_PHDR {
        size := size + phtsize;
      }
    }
    size := size + (|auxv| + 1) * 8 + 4 + 3 * 4;
  }

  // ---- Bytes in a buffer ----

  /** `part` is in the bytes at k. */
  ghost predicate Present(bs: Bytes, k: nat, part: Bytes) {
    k + |part| <= |bs| && forall j {:trigger part[j]} :: 0 <= j < |part| ==> bs[k + j] == part[j]
  }

  lemma PresentWritten(bs: Bytes, at: nat, data: Bytes)
    requires at + |data| <= |bs|
    ensures Present(Written(bs, at, data), at, data)
  {
  }

  lemma PresentApart(bs: Bytes, at: nat, data: Bytes, k: nat, part: Bytes)
    requires Present(bs, k, part) && (k + |part| <= at || at + |data| <= k)
    ensures Present(Written(bs, at, data), k, part)
  {
  }

  lemma PresentJoin(bs: Bytes, k: nat, a: Bytes, b: Bytes)
    requires Present(bs, k, a) && Present(bs, k + |a|, b)
    ensures Present(bs, k, a + b)
  {
    forall j | 0 <= j < |a + b| ensures bs[k + j] == (a + b)[j] {
      if j < |a| { assert bs[k + j] == a[j]; } else { assert bs[k + |a| + (j - |a|)] == b[j - |a|]; }
    }
  }

  lemma PresentStart(bs: Bytes, k: nat, part: Bytes, n: nat)
    requires Present(bs, k, part) && n <= |part|
    ensures Present(bs, k, part[..n])
  {
    forall j | 0 <= j < n ensures bs[k + j] == part[..n][j] {
      assert part[..n][j] == part[j];
    }
  }

  /** What is in a part of the buffer is in the buffer. */
  lemma PresentDeep(bs: Bytes, base: nat, strs: Bytes, k: nat, part: Bytes)
    requires Present(bs, base, strs) && Present(strs, k, part)
    ensures Present(bs, base + k, part)
  {
    forall j | 0 <= j < |part| ensures bs[base + k + j] == part[j] {
      assert strs[k + j] == part[j];
    }
  }

  lemma PresentPrefix(s: Bytes, t: Bytes, k: nat, part: Bytes)
    requires Present(s, k, part) && s <= t
    ensures Present(t, k, part)
  {
    forall j | 0 <= j < |part| ensures t[k + j] == part[j] {
      assert s[k + j] == part[j];
    }
  }

  /** Bytes of equal length at the same place are the same. */
  lemma PresentSame(bs: Bytes, k: nat, a: Bytes, b: Bytes)
    requires Present(bs, k, a) && Present(bs, k, b) && |a| == |b|
    ensures a == b
  {
    forall j | 0 <= j < |a| ensures a[j] == b[j] {
      assert bs[k + j] == a[j] && bs[k + j] == b[j];
    }
  }

  // ---- Words and texts in a buffer ----

  /** How the machine stores a word */
  type Encoder = e: nat -> Bytes | forall x: nat :: |e(x)| == 4 ghost witness (x: nat) => [0, 0, 0, 0]

  /** A buffer that starts with the words of `vec` and holds `strs` from `base` on. */
  datatype Layout = Layout(enc: Encoder, bs: Bytes, vec: seq<nat>, base: nat, strs: Bytes)

  ghost predicate Holds(f: Layout) {
    && 4 * |f.vec| <= f.base && f.base + |f.strs| <= |f.bs| && Present(f.bs, f.base, f.strs)
    && forall i {:trigger f.vec[i]} :: 0 <= i < |f.vec| ==> Present(f.bs, 4 * i, f.enc(f.vec[i]))
  }

  type Filled = f: Layout | Holds(f) ghost witness Layout((x: nat) => [0, 0, 0, 0], [], [], 0, [])

  lemma AddWord(f: Filled, x: nat) returns (g: Filled)
    requires 4 * |f.vec| + 4 <= f.base
    ensures g == f.(bs := Written(f.bs, 4 * |f.vec|, f.enc(x)), vec := f.vec + [x])
  {
    var h := f.(bs := Written(f.bs, 4 * |f.vec|, f.enc(x)), vec := f.vec + [x]);
    PresentWritten(f.bs, 4 * |f.vec|, f.enc(x));
    PresentApart(f.bs, 4 * |f.vec|, f.enc(x), f.base, f.strs);
    forall i | 0 <= i < |h.vec| ensures Present(h.bs, 4 * i, f.enc(h.vec[i])) {
      if i < |f.vec| {
        PresentApart(f.bs, 4 * |f.vec|, f.enc(x), 4 * i, f.enc(f.vec[i]));
      } else {
        assert i == |f.vec| && h.vec[i] == x;
      }
    }
    g := h;
  }

  lemma AddText(f: Filled, data: Bytes) returns (g: Filled)
    requires f.base + |f.strs| + |data| <= |f.bs|
    ensures g == f.(bs := Written(f.bs, f.base + |f.strs|, data), strs := f.strs + data)
  {
    var at := f.base + |f.strs|;
    var h := f.(bs := Written(f.bs, at, data), strs := f.strs + data);
    PresentWritten(f.bs, at, data);
    PresentApart(f.bs, at, data, f.base, f.strs);
    PresentJoin(h.bs, f.base, f.strs, data);
    forall i | 0 <= i < |h.vec| ensures Present(h.bs, 4 * i, f.enc(h.vec[i])) {
      PresentApart(f.bs, at, data, 4 * i, f.enc(f.vec[i]));
    }
    g := h;
  }

  /** What is about to be overwritten is forgotten. */
  lemma Forget(f: Filled, n: nat, k: nat) returns (g: Filled)
    requires n <= |f.vec| && k <= |f.strs|
    ensures g == f.(vec := f.vec[..n], strs := f.strs[..k])
  {
    var h := f.(vec := f.vec[..n], strs := f.strs[..k]);
    PresentStart(f.bs, f.base, f.strs, k);
    forall i | 0 <= i < n ensures Present(h.bs, 4 * i, f.enc(h.vec[i])) {
      assert h.vec[i] == f.vec[i];
    }
    g := h;
  }

  method StoreWord(enc: Encoder, buf: array<Byte>, at: nat, x: nat, ghost f: Filled) returns (ghost g: Filled)
    requires f.bs == buf[..] && f.enc == enc && at == 4 * |f.vec| && at + 4 <= f.base
    modifies buf
    ensures g.enc == enc && g.bs == buf[..] && g.vec == f.vec + [x] && g.base == f.base && g.strs == f.strs
  {
    g := AddWord(f, x);
    WriteAt(buf, at, enc(x));
  }

  method StoreText(buf: array<Byte>, at: nat, data: Bytes, ghost f: Filled) returns (ghost g: Filled)
    requires f.bs == buf[..] && at == f.base + |f.strs| && at + |data| <= buf.Length
    modifies buf
    ensures g.enc == f.enc && g.bs == buf[..] && g.vec == f.vec && g.base == f.base && g.strs == f.strs + data
  {
    g := AddText(f, data);
    WriteAt(buf, at, data);
  }

  // ---- The vectors of strings ----

  /** The pointers to strings that start at `base`, in order. */
  function Ptrs(ss: seq<Bytes>, base: nat): (r: seq<nat>)
    ensures |r| == |ss|
    decreases |ss|
  {
    if ss == [] then [] else [base] + Ptrs(ss[1..], base + |ss[0]| + 1)
  }

  lemma NextPtr(vec: seq<nat>, ss: seq<Bytes>, i: nat, vstr: nat)
    requires i < |ss|
    ensures vec + Ptrs(ss[i..], vstr) == (vec + [vstr]) + Ptrs(ss[i + 1..], vstr + |ss[i]| + 1)
  {
    assert ss[i..][1..] == ss[i + 1..];
  }

  lemma NextText(strs: Bytes, ss: seq<Bytes>, i: nat)
    requires i < |ss|
    ensures strs + Strs(ss[i..]) == (strs + Terminated(ss[i])) + Strs(ss[i + 1..])
    ensures |Strs(ss[i..])| == |ss[i]| + 1 + |Strs(ss[i + 1..])|
  {
    var t, rest := Terminated(ss[i]), Strs(ss[i + 1..]);
    assert ss[i..][1..] == ss[i + 1..];
    assert strs + (t + rest) == (strs + t) + rest;
  }

  /** One turn of the loops over argv and envp: the string at `str`, the pointer to it at `vec` */
  method CopyString(enc: Encoder, buf: array<Byte>, vec: nat, str: nat, vstr: nat, s: Bytes, ghost f: Filled)
    returns (ghost g: Filled)
    requires f.bs == buf[..] && f.enc == enc && vec == 4 * |f.vec| && str == f.base + |f.strs|
    requires vec + 4 <= f.base && str + |s| + 1 <= buf.Length
    modifies buf
    ensures g.enc == enc && g.bs == buf[..] && g.base == f.base
    ensures g.vec == f.vec + [vstr] && g.strs == f.strs + Terminated(s)
  {
    g := StoreText(buf, str, Terminated(s), f);
    g := StoreWord(enc, buf, vec, vstr, g);
  }

  method CopyStrings(enc: Encoder, buf: array<Byte>, vec0: nat, str0: nat, vstr0: nat, ss: seq<Bytes>, ghost f: Filled)
    returns (vec: nat, str: nat, vstr: nat, ghost g: Filled)
    requires f.bs == buf[..] && f.enc == enc && vec0 == 4 * |f.vec| && str0 == f.base + |f.strs|
    requires vec0 + 4 * |ss| <= f.base && str0 + |Strs(ss)| <= buf.Length
    modifies buf
    ensures vec == vec0 + 4 * |ss| && str == str0 + |Strs(ss)| && vstr == vstr0 + |Strs(ss)|
    ensures g.enc == enc && g.bs == buf[..] && g.base == f.base
    ensures g.vec == f.vec + Ptrs(ss, vstr0) && g.strs == f.strs + Strs(ss)
  {
    vec, str, vstr, g := vec0, str0, vstr0, f;
    ghost var ptrs, text := f.vec + Ptrs(ss, vstr0), f.strs + Strs(ss);
    for i := 0 to |ss|
      invariant g.bs == buf[..] && g.enc == enc && g.base == f.base && |g.vec| == |f.vec| + i
      invariant vec == 4 * |g.vec| && str == g.base + |g.strs| && vstr - vstr0 == str - str0
      invariant str + |Strs(ss[i..])| == str0 + |Strs(ss)|
      invariant g.vec + Ptrs(ss[i..], vstr) == ptrs && g.strs + Strs(ss[i..]) == text
    {
      NextPtr(g.vec, ss, i, vstr);
      NextText(g.strs, ss, i);
      g := CopyString(enc, buf, vec, str, vstr, ss[i], g);
      vec, str, vstr := vec + 4, str + |ss[i]| + 1, vstr + |ss[i]| + 1;
    }
    assert ss[|ss|..] == [];
  }

  // ---- The auxiliary vector ----

  /** Every entry fits its two words, and every AT_PHDR entry leads to a table of the given size. */
  ghost predicate AuxOk(auxv: seq<Aux>, phtsize: nat) {
    forall i :: 0 <= i < |auxv| ==>
      auxv[i].atype < WORD && auxv[i].val < WORD && (auxv[i].atype == AT_PHDR ==> |auxv[i].table| == phtsize)
  }

  /** The number of AT_PHDR entries. */
  function TablesOf(auxv: seq<Aux>): nat {
    if auxv == [] then 0 else (if auxv[0].atype == AT_PHDR then 1 else 0) + TablesOf(auxv[1..])
  }

  /** The table that is left when all entries are copied: they all go to the same place. */
  function LastTable(auxv: seq<Aux>, table: Bytes): Bytes {
    if auxv == [] then table else LastTable(auxv[1..], TableAfter(auxv[0], table))
  }

  function TableAfter(a: Aux, table: Bytes): Bytes {
    if a.atype == AT_PHDR then a.table else table
  }

  function AuxValue(a: Aux, pht: nat): nat {
    if a.atype == AT_PHDR then pht else a.val
  }

  /** The words of the auxiliary vector, with the program header table at `pht`. */
  function Auxs(auxv: seq<Aux>, pht: nat): (r: seq<nat>)
    ensures |r| == 2 * |auxv|
  {
    if auxv == [] then [] else [auxv[0].atype, AuxValue(auxv[0], pht)] + Auxs(auxv[1..], pht)
  }

  lemma NextAux(vec: seq<nat>, auxv: seq<Aux>, i: nat, pht: nat, table: Bytes)
    requires i < |auxv|
    ensures vec + Auxs(auxv[i..], pht) == (vec + [auxv[i].atype, AuxValue(auxv[i], pht)]) + Auxs(auxv[i + 1..], pht)
    ensures LastTable(auxv[i..], table) == LastTable(auxv[i + 1..], TableAfter(auxv[i], table))
  {
    assert auxv[i..][1..] == auxv[i + 1..];
  }

  /** Copying two pieces at once is copying one after the other. */
  lemma PairWritten(bs: Bytes, at: nat, a: Bytes, b: Bytes)
    ensures Written(bs, at, a + b) == Written(Written(bs, at, a), at + |a|, b)
  {
  }

  /** memcpy of an entry */
  method StoreEntry(enc: Encoder, buf: array<Byte>, at: nat, x: nat, y: nat, ghost f: Filled) returns (ghost g: Filled)
    requires f.bs == buf[..] && f.enc == enc && at == 4 * |f.vec| && at + 8 <= f.base
    modifies buf
    ensures g.enc == enc && g.bs == buf[..] && g.vec == f.vec + [x, y] && g.base == f.base && g.strs == f.strs
  {
    ghost var f1 := AddWord(f, x);
    g := AddWord(f1, y);
    PairWritten(f.bs, at, enc(x), enc(y));
    WriteAt(buf, at, enc(x) + enc(y));
  }

  /** The room for the table of an AT_PHDR entry */
  ghost predicate Room(length: nat, str: nat, a: Aux) {
    a.atype == AT_PHDR ==> str + |a.table| <= length
  }

  ghost predicate Rooms(length: nat, str: nat, auxv: seq<Aux>) {
    forall i {:trigger auxv[i]} :: 0 <= i < |auxv| ==> Room(length, str, auxv[i])
  }

  /** One turn of the loop over auxv: the entry, and for AT_PHDR the table at `str` and its address */
  method CopyAux(enc: Encoder, buf: array<Byte>, vec: nat, str: nat, vstr: nat, a: Aux,
                 ghost f: Filled, ghost strs: Bytes, ghost table: Bytes) returns (ghost g: Filled)
    requires f.bs == buf[..] && f.enc == enc && vec == 4 * |f.vec| && f.strs == strs + table
    requires str == f.base + |strs| && vec + 8 <= f.base && Room(buf.Length, str, a)
    modifies buf
    ensures g.enc == enc && g.bs == buf[..] && g.base == f.base
    ensures g.vec == f.vec + [a.atype, AuxValue(a, vstr)] && g.strs == strs + TableAfter(a, table)
  {
    g := StoreEntry(enc, buf, vec, a.atype, a.val, f);
    if a.atype == AT_PHDR {
      g := Forget(g, |f.vec| + 1, |strs|);
      assert g.vec == f.vec + [a.atype] && g.strs == strs;
      g := StoreText(buf, str, a.table, g);
      g := StoreWord(enc, buf, vec + 4, vstr, g);
    }
  }

  method CopyAuxs(enc: Encoder, buf: array<Byte>, vec0: nat, str: nat, vstr: nat, auxv: seq<Aux>, ghost f: Filled)
    returns (vec: nat, ghost g: Filled)
    requires f.bs == buf[..] && f.enc == enc && vec0 == 4 * |f.vec| && str == f.base + |f.strs|
    requires vec0 + 8 * |auxv| <= f.base && Rooms(buf.Length, str, auxv)
    modifies buf
    ensures vec == vec0 + 8 * |auxv| && g.enc == enc && g.bs == buf[..] && g.base == f.base
    ensures g.vec == f.vec + Auxs(auxv, vstr) && g.strs == f.strs + LastTable(auxv, [])
  {
    vec, g := vec0, f;
    ghost var words, last, table := f.vec + Auxs(auxv, vstr), LastTable(auxv, []), [];
    for i := 0 to |auxv|
      invariant g.bs == buf[..] && g.enc == enc && g.base == f.base && |g.vec| == |f.vec| + 2 * i && vec == 4 * |g.vec|
      invariant g.vec + Auxs(auxv[i..], vstr) == words
      invariant g.strs == f.strs + table && LastTable(auxv[i..], table) == last
    {
      NextAux(g.vec, auxv, i, vstr, table);
      g := CopyAux(enc, buf, vec, str, vstr, auxv[i], g, f.strs, table);
      table := TableAfter(auxv[i], table);
      vec := vec + 8;
    }
    assert auxv[|auxv|..] == [];
  }

  // ---- The image ----

  /** Where string i starts among the strings. */
  function Start(ss: seq<Bytes>, i: nat): nat
    requires i <= |ss|
  {
    |Strs(ss[..i])|
  }

  /** From word n on, the pointers to the strings ss, which start at text offset k, and a null pointer. */
  ghost predicate ListAt(f: Layout, arglow: nat, n: nat, ss: seq<Bytes>, k: nat) {
    && n + |ss| < |f.vec| && f.vec[n + |ss|] == 0
    && forall i {:trigger Start(ss, i)} :: 0 <= i < |ss| ==>
         && f.vec[n + i] == arglow + f.base + k + Start(ss, i)
         && Present(f.strs, k + Start(ss, i), Terminated(ss[i]))
  }

  /** From word n on, the entries of the auxiliary vector, with the table at text offset k, and a null type. */
  ghost predicate AuxAt(f: Layout, arglow: nat, n: nat, auxv: seq<Aux>, k: nat) {
    && n + 2 * |auxv| < |f.vec| && f.vec[n + 2 * |auxv|] == 0 && Present(f.strs, k, LastTable(auxv, []))
    && forall i {:trigger auxv[i]} :: 0 <= i < |auxv| ==>
         f.vec[n + 2 * i] == auxv[i].atype && f.vec[n + 2 * i + 1] == AuxValue(auxv[i], arglow + f.base + k)
  }

  /** The first words of envp and auxv. */
  function EnvStart(argv: seq<Bytes>): nat {
    4 + |argv| + 1
  }

  function AuxStart(argv: seq<Bytes>, envp: seq<Bytes>): nat {
    4 + |argv| + 1 + |envp| + 1
  }

  ghost predicate HeadAt(f: Layout, arglow: nat, argc: nat, envc: nat) {
    && |f.vec| >= 4 && f.vec[0] == argc && f.vec[1] == arglow + HEAD
    && f.vec[2] == arglow + 4 * (4 + argc + 1) && f.vec[3] == arglow + 4 * (4 + argc + 1 + envc + 1)
  }

  /** The image: argc and the addresses of the vectors, then the vectors, then strings and table, which
      fill their regions; only the value of the last auxiliary entry stays unset. */
  ghost predicate IsImage(f: Layout, arglow: nat, argv: seq<Bytes>, envp: seq<Bytes>, auxv: seq<Aux>) {
    && f.base == HEAD + VecLen(argv, envp, auxv) == 4 * |f.vec| + 4
    && |f.strs| == |Strs(argv)| + |Strs(envp)| + |LastTable(auxv, [])|
    && HeadAt(f, arglow, |argv|, |envp|)
    && ListAt(f, arglow, 4, argv, 0)
    && ListAt(f, arglow, EnvStart(argv), envp, |Strs(argv)|)
    && AuxAt(f, arglow, AuxStart(argv, envp), auxv, |Strs(argv)| + |Strs(envp)|)
  }

  /** g holds all that f holds, in the same places. */
  ghost predicate Extends(f: Layout, g: Layout) {
    g.base == f.base && f.vec <= g.vec && f.strs <= g.strs && g.enc == f.enc
  }

  /** argc and the addresses of the three vectors */
  function Head(arglow: nat, argc: nat, envc: nat): (r: seq<nat>)
    ensures |r| == 4
  {
    var vvec := arglow + HEAD;
    [argc, vvec, vvec + 4 * (argc + 1), vvec + 4 * (argc + 1 + envc + 1)]
  }

  /** argc and the pointers to the three vectors */
  method LoadHead(enc: Encoder, buf: array<Byte>, arglow: nat, argc: nat, envc: nat, ghost base: nat)
    returns (ghost f: Filled)
    requires HEAD <= base <= buf.Length
    modifies buf
    ensures f.enc == enc && f.bs == buf[..] && f.vec == Head(arglow, argc, envc) && f.base == base && f.strs == []
  {
    var vvec := arglow + HEAD;
    f := Layout(enc, buf[..], [], base, []);
    f := StoreWord(enc, buf, 0, argc, f);
    f := StoreWord(enc, buf, 4, vvec, f);
    f := StoreWord(enc, buf, 8, vvec + 4 * (argc + 1), f);
    f := StoreWord(enc, buf, 12, vvec + 4 * (argc + 1 + envc + 1), f);
    HeadIs(f.vec, arglow, argc, envc);
  }

  lemma HeadIs(vec: seq<nat>, arglow: nat, argc: nat, envc: nat)
    requires |vec| == 4 && vec[0] == argc && vec[1] == arglow + HEAD && vec[2] == arglow + HEAD + 4 * (argc + 1)
    requires vec[3] == arglow + HEAD + 4 * (argc + 1 + envc + 1)
    ensures vec == Head(arglow, argc, envc)
  {
  }

  /** A vector of strings with its null pointer, behind the n words and k bytes of text that are there */
  method LoadStrings(enc: Encoder, buf: array<Byte>, vec0: nat, str0: nat, vstr0: nat, ss: seq<Bytes>,
                     ghost f: Filled, ghost arglow: nat, ghost n: nat, ghost k: nat)
    returns (at: nat, str: nat, vstr: nat, ghost g: Filled)
    requires f.bs == buf[..] && f.enc == enc && |f.vec| == n && |f.strs| == k
    requires vec0 == 4 * n && str0 == f.base + k && vstr0 == arglow + str0
    requires vec0 + 4 * (|ss| + 1) <= f.base && str0 + |Strs(ss)| <= buf.Length
    modifies buf
    ensures at == vec0 + 4 * (|ss| + 1) && str == str0 + |Strs(ss)| && vstr == vstr0 + |Strs(ss)|
    ensures g.bs == buf[..] && |g.vec| == n + |ss| + 1 && |g.strs| == k + |Strs(ss)|
    ensures ListAt(g, arglow, n, ss, k) && Extends(f, g)
  {
    at, str, vstr, g := CopyStrings(enc, buf, vec0, str0, vstr0, ss, f);
    g := StoreWord(enc, buf, at, 0, g);
    ListLoaded(f, g, arglow, ss);
    at := at + 4;
  }

  /** The auxiliary vector with its terminating type */
  method LoadAux(enc: Encoder, buf: array<Byte>, vec0: nat, str: nat, vstr: nat, auxv: seq<Aux>,
                 ghost f: Filled, ghost arglow: nat, ghost n: nat, ghost k: nat) returns (ghost g: Filled)
    requires f.bs == buf[..] && f.enc == enc && |f.vec| == n && |f.strs| == k
    requires vec0 == 4 * n && str == f.base + k && vstr == arglow + str
    requires vec0 + 8 * (|auxv| + 1) <= f.base && Rooms(buf.Length, str, auxv)
    modifies buf
    ensures g.bs == buf[..] && |g.vec| == n + 2 * |auxv| + 1 && |g.strs| == k + |LastTable(auxv, [])|
    ensures AuxAt(g, arglow, n, auxv, k) && Extends(f, g)
  {
    var at;
    at, g := CopyAuxs(enc, buf, vec0, str, vstr, auxv, f);
    g := StoreWord(enc, buf, at, 0, g);
    AuxLoaded(f, g, arglow, auxv);
  }

  lemma {:induction false} TableFits(auxv: seq<Aux>, phtsize: nat, i: nat)
    requires i < |auxv| && auxv[i].atype == AT_PHDR
    ensures TableBytes(auxv, phtsize) >= phtsize
    decreases i
  {
    if i > 0 { TableFits(auxv[1..], phtsize, i - 1); }
  }

  /** The computed size has room for every table behind the strings. */
  lemma RoomForTables(argv: seq<Bytes>, envp: seq<Bytes>, auxv: seq<Aux>, phtsize: nat, str: nat)
    requires AuxOk(auxv, phtsize) && str == HEAD + VecLen(argv, envp, auxv) + |Strs(argv)| + |Strs(envp)|
    ensures Rooms(ArgSize(argv, envp, auxv, phtsize), str, auxv)
  {
    forall i | 0 <= i < |auxv| ensures Room(ArgSize(argv, envp, auxv, phtsize), str, auxv[i]) {
      if auxv[i].atype == AT_PHDR { TableFits(auxv, phtsize, i); }
    }
  }

  /** The head and the two vectors of strings are in place, and nothing else is. */
  ghost predicate ListsLoaded(f: Layout, arglow: nat, argv: seq<Bytes>, envp: seq<Bytes>) {
    && |f.vec| == AuxStart(argv, envp) && |f.strs| == |Strs(argv)| + |Strs(envp)|
    && HeadAt(f, arglow, |argv|, |envp|)
    && ListAt(f, arglow, 4, argv, 0)
    && ListAt(f, arglow, EnvStart(argv), envp, |Strs(argv)|)
  }

  /** _elf32_load_args up to the auxiliary vector */
  method LoadLists(enc: Encoder, buf: array<Byte>, arglow: nat, argv: seq<Bytes>, envp: seq<Bytes>, v: nat)
    returns (at: nat, str: nat, vstr: nat, ghost f: Filled)
    requires 4 * AuxStart(argv, envp) <= v && v + |Strs(argv)| + |Strs(envp)| <= buf.Length
    modifies buf
    ensures f.enc == enc && f.bs == buf[..] && f.base == v && ListsLoaded(f, arglow, argv, envp)
    ensures at == 4 * AuxStart(argv, envp) && str == v + |Strs(argv)| + |Strs(envp)| && vstr == arglow + str
  {
    ghost var f0 := LoadHead(enc, buf, arglow, |argv|, |envp|, v);
    ghost var f1;
    at, str, vstr, f1 := LoadStrings(enc, buf, HEAD, v, arglow + v, argv, f0, arglow, 4, 0);
    at, str, vstr, f := LoadStrings(enc, buf, at, str, vstr, envp, f1, arglow, EnvStart(argv), |Strs(argv)|);
    ListStays(f1, f, arglow, 4, argv, 0);
    ExtendsTwice(f0, f1, f);
    HeadStays(f0, f, arglow, |argv|, |envp|);
  }

  /** _elf32_load_args, up to the copy into user space: a buffer of the computed size takes the image */
  method LoadArgs(enc: Encoder, buf: array<Byte>, arglow: nat, argv: seq<Bytes>, envp: seq<Bytes>,
                  auxv: seq<Aux>, ghost phtsize: nat) returns (ghost f: Filled)
    requires buf.Length == ArgSize(argv, envp, auxv, phtsize) && AuxOk(auxv, phtsize)
    modifies buf
    ensures f.enc == enc && f.bs == buf[..] && IsImage(f, arglow, argv, envp, auxv)
  {
    var v := HEAD + VecLen(argv, envp, auxv);
    var at, str, vstr, f1 := LoadLists(enc, buf, arglow, argv, envp, v);
    RoomForTables(argv, envp, auxv, phtsize, str);
    f := LoadAux(enc, buf, at, str, vstr, auxv, f1, arglow, AuxStart(argv, envp), |Strs(argv)| + |Strs(envp)|);
    ImageIs(f1, f, arglow, argv, envp, auxv);
  }

  // ---- What the loops leave ----

  lemma {:induction false} PtrIs(ss: seq<Bytes>, base: nat, i: nat)
    requires i < |ss|
    ensures Ptrs(ss, base)[i] == base + |Strs(ss[..i])|
    decreases i
  {
    if i > 0 {
      PtrIs(ss[1..], base + |ss[0]| + 1, i - 1);
      assert ss[1..][..i - 1] == ss[..i][1..];
    }
  }

  lemma {:induction false} AuxIs(auxv: seq<Aux>, pht: nat, i: nat)
    requires i < |auxv|
    ensures Auxs(auxv, pht)[2 * i] == auxv[i].atype && Auxs(auxv, pht)[2 * i + 1] == AuxValue(auxv[i], pht)
    decreases i
  {
    if i > 0 { AuxIs(auxv[1..], pht, i - 1); }
  }

  /** String i starts behind the strings before it. */
  lemma {:induction false} StrAt(ss: seq<Bytes>, i: nat)
    requires i < |ss|
    ensures Present(Strs(ss), |Strs(ss[..i])|, Terminated(ss[i]))
    decreases i
  {
    var t, rest := Terminated(ss[0]), Strs(ss[1..]);
    if i == 0 {
      assert ss[..0] == [];
    } else {
      StrAt(ss[1..], i - 1);
      assert ss[1..][..i - 1] == ss[..i][1..];
      PresentBehind(t, rest, |Strs(ss[1..][..i - 1])|, Terminated(ss[i]));
    }
  }

  lemma PresentBehind(a: Bytes, b: Bytes, k: nat, part: Bytes)
    requires Present(b, k, part)
    ensures Present(a + b, |a| + k, part)
  {
    forall j | 0 <= j < |part| ensures (a + b)[|a| + k + j] == part[j] {
      assert b[k + j] == part[j];
    }
  }

  lemma ListLoaded(f: Layout, g: Layout, arglow: nat, ss: seq<Bytes>)
    requires g.vec == f.vec + Ptrs(ss, arglow + f.base + |f.strs|) + [0] && g.strs == f.strs + Strs(ss)
    requires g.base == f.base && g.enc == f.enc
    ensures ListAt(g, arglow, |f.vec|, ss, |f.strs|) && Extends(f, g)
  {
    forall i | 0 <= i < |ss|
      ensures g.vec[|f.vec| + i] == arglow + f.base + |f.strs| + Start(ss, i)
      ensures Present(g.strs, |f.strs| + Start(ss, i), Terminated(ss[i]))
    {
      PtrBehind(f.vec, ss, arglow + f.base + |f.strs|, i);
      StrBehind(f.strs, ss, i);
    }
  }

  lemma PtrBehind(vec: seq<nat>, ss: seq<Bytes>, base: nat, i: nat)
    requires i < |ss|
    ensures |Ptrs(ss, base)| == |ss| && (vec + Ptrs(ss, base) + [0])[|vec| + i] == base + Start(ss, i)
  {
    PtrIs(ss, base, i);
    Between(vec, Ptrs(ss, base), 0, i);
  }

  lemma StrBehind(strs: Bytes, ss: seq<Bytes>, i: nat)
    requires i < |ss|
    ensures Present(strs + Strs(ss), |strs| + Start(ss, i), Terminated(ss[i]))
  {
    StrAt(ss, i);
    PresentBehind(strs, Strs(ss), Start(ss, i), Terminated(ss[i]));
  }

  lemma AuxLoaded(f: Layout, g: Layout, arglow: nat, auxv: seq<Aux>)
    requires g.vec == f.vec + Auxs(auxv, arglow + f.base + |f.strs|) + [0] && g.base == f.base && g.enc == f.enc
    requires g.strs == f.strs + LastTable(auxv, [])
    ensures AuxAt(g, arglow, |f.vec|, auxv, |f.strs|) && Extends(f, g)
  {
    var pht, last := arglow + f.base + |f.strs|, LastTable(auxv, []);
    assert Present(last, 0, last);
    PresentBehind(f.strs, last, 0, last);
    forall i | 0 <= i < |auxv|
      ensures g.vec[|f.vec| + 2 * i] == auxv[i].atype && g.vec[|f.vec| + 2 * i + 1] == AuxValue(auxv[i], pht)
    {
      AuxIs(auxv, pht, i);
      Between(f.vec, Auxs(auxv, pht), 0, 2 * i);
      Between(f.vec, Auxs(auxv, pht), 0, 2 * i + 1);
    }
  }

  lemma Between(a: seq<nat>, b: seq<nat>, c: nat, i: nat)
    requires i < |b|
    ensures (a + b + [c])[|a| + i] == b[i]
  {
  }

  lemma ListStays(f: Layout, g: Layout, arglow: nat, n: nat, ss: seq<Bytes>, k: nat)
    requires ListAt(f, arglow, n, ss, k) && Extends(f, g)
    ensures ListAt(g, arglow, n, ss, k)
  {
    forall i | 0 <= i < |ss|
      ensures g.vec[n + i] == arglow + g.base + k + Start(ss, i)
      ensures Present(g.strs, k + Start(ss, i), Terminated(ss[i]))
    {
      assert f.vec[n + i] == arglow + f.base + k + Start(ss, i);
      PresentPrefix(f.strs, g.strs, k + Start(ss, i), Terminated(ss[i]));
    }
  }

  lemma ExtendsTwice(f: Layout, g: Layout, h: Layout)
    requires Extends(f, g) && Extends(g, h)
    ensures Extends(f, h)
  {
  }

  lemma HeadStays(f0: Layout, f: Layout, arglow: nat, argc: nat, envc: nat)
    requires f0.vec == Head(arglow, argc, envc) && Extends(f0, f)
    ensures HeadAt(f, arglow, argc, envc)
  {
    var h := Head(arglow, argc, envc);
    assert f.vec[0] == h[0] && f.vec[1] == h[1] && f.vec[2] == h[2] && f.vec[3] == h[3];
  }

  lemma HeadKept(f: Layout, g: Layout, arglow: nat, argc: nat, envc: nat)
    requires HeadAt(f, arglow, argc, envc) && Extends(f, g)
    ensures HeadAt(g, arglow, argc, envc)
  {
    assert g.vec[0] == f.vec[0] && g.vec[1] == f.vec[1] && g.vec[2] == f.vec[2] && g.vec[3] == f.vec[3];
  }

  lemma ImageIs(f: Layout, g: Layout, arglow: nat, argv: seq<Bytes>, envp: seq<Bytes>, auxv: seq<Aux>)
    requires f.base == HEAD + VecLen(argv, envp, auxv) && ListsLoaded(f, arglow, argv, envp) && Extends(f, g)
    requires AuxAt(g, arglow, AuxStart(argv, envp), auxv, |Strs(argv)| + |Strs(envp)|)
    requires |g.vec| == AuxStart(argv, envp) + 2 * |auxv| + 1
    requires |g.strs| == |Strs(argv)| + |Strs(envp)| + |LastTable(auxv, [])|
    ensures IsImage(g, arglow, argv, envp, auxv)
  {
    ListStays(f, g, arglow, 4, argv, 0);
    ListStays(f, g, arglow, EnvStart(argv), envp, |Strs(argv)|);
    HeadKept(f, g, arglow, |argv|, |envp|);
  }

  // ---- Reading the image ----

  /** How a word is read from a place in the buffer */
  type Reader = (Bytes, nat) -> nat

  /** Reading a word undoes storing it. */
  ghost predicate Undoes(rd: Reader, enc: Encoder) {
    forall bs: Bytes, k: nat, x: nat {:trigger Present(bs, k, enc(x))} :: x < WORD && Present(bs, k, enc(x)) ==>
      rd(bs, k) == x
  }

  ghost predicate CString(s: Bytes) {
    forall i :: 0 <= i < |s| ==> s[i] != 0
  }

  /** The bytes up to the first zero. */
  function ReadString(bs: Bytes): Bytes {
    if bs == [] || bs[0] == 0 then [] else [bs[0]] + ReadString(bs[1..])
  }

  lemma {:induction false} ReadBack(s: Bytes, rest: Bytes)
    requires CString(s)
    ensures ReadString(Terminated(s) + rest) == s
  {
    var bs := Terminated(s) + rest;
    if s != [] {
      ReadBack(s[1..], rest);
      assert bs[1..] == Terminated(s[1..]) + rest;
    }
  }

  /** Bytes followed by a zero read as a string. */
  lemma ReadAt(bs: Bytes, k: nat, s: Bytes)
    requires CString(s) && Present(bs, k, Terminated(s))
    ensures k < |bs| && ReadString(bs[k..]) == s
  {
    var tail, t := bs[k..], Terminated(s);
    forall j | 0 <= j < |t| ensures tail[j] == t[j] {
      assert bs[k + j] == t[j];
    }
    assert tail == t + tail[|t|..];
    ReadBack(s, tail[|t|..]);
  }

  /** An image at 32-bit addresses that is read the way it was stored. */
  ghost predicate Readable(f: Layout, arglow: nat, rd: Reader) {
    Undoes(rd, f.enc) && arglow + |f.bs| < WORD
  }

  /** A word of the image, read from the buffer. */
  lemma HeldWord(f: Filled, arglow: nat, rd: Reader, n: nat)
    requires Readable(f, arglow, rd) && n < |f.vec| && f.vec[n] < WORD
    ensures 4 * n + 4 <= |f.bs| && rd(f.bs, 4 * n) == f.vec[n]
  {
    assert Present(f.bs, 4 * n, f.enc(f.vec[n]));
  }

  /** p is the address of string s, in the text of the buffer. */
  ghost predicate IsAddress(bs: Bytes, base: nat, arglow: nat, p: nat, s: Bytes) {
    arglow + base <= p < arglow + |bs| && ReadString(bs[p - arglow..]) == s
  }

  /** The word at place k is the address of string s in the buffer. */
  ghost predicate LeadsTo(f: Layout, arglow: nat, rd: Reader, k: nat, s: Bytes) {
    k + 4 <= |f.bs| && IsAddress(f.bs, f.base, arglow, rd(f.bs, k), s)
  }

  lemma Addressed(bs: Bytes, base: nat, arglow: nat, at: nat, s: Bytes)
    requires at >= base && CString(s) && Present(bs, at, Terminated(s))
    ensures IsAddress(bs, base, arglow, arglow + at, s)
  {
    ReadAt(bs, at, s);
  }

  /** String i of a vector that starts at word n: its word, less arglow, is the place of its string. */
  lemma ListReadsBack(f: Filled, arglow: nat, rd: Reader, n: nat, ss: seq<Bytes>, k: nat, i: nat)
    requires Readable(f, arglow, rd) && ListAt(f, arglow, n, ss, k) && i < |ss| && CString(ss[i])
    ensures LeadsTo(f, arglow, rd, 4 * (n + i), ss[i])
  {
    var at := k + Start(ss, i);
    PresentDeep(f.bs, f.base, f.strs, at, Terminated(ss[i]));
    Addressed(f.bs, f.base, arglow, f.base + at, ss[i]);
    HeldWord(f, arglow, rd, n + i);
  }

  /** The head leads to the vectors: argc, and the addresses of argv, envp and auxv. */
  lemma HeadReadsBack(f: Filled, arglow: nat, rd: Reader, argv: seq<Bytes>, envp: seq<Bytes>, auxv: seq<Aux>)
    requires Readable(f, arglow, rd) && IsImage(f, arglow, argv, envp, auxv)
    ensures |f.bs| >= HEAD && rd(f.bs, 0) == |argv| && rd(f.bs, 4) == arglow + 4 * 4
    ensures rd(f.bs, 8) == arglow + 4 * EnvStart(argv) && rd(f.bs, 12) == arglow + 4 * AuxStart(argv, envp)
  {
    HeldWord(f, arglow, rd, 0);
    HeldWord(f, arglow, rd, 1);
    HeldWord(f, arglow, rd, 2);
    HeldWord(f, arglow, rd, 3);
  }

  /** argc and every argument can be read back from the image, through the pointer at place 4. */
  lemma ArgsReadBack(f: Filled, arglow: nat, rd: Reader, argv: seq<Bytes>, envp: seq<Bytes>, auxv: seq<Aux>, i: nat)
    requires Readable(f, arglow, rd) && IsImage(f, arglow, argv, envp, auxv) && i < |argv| && CString(argv[i])
    ensures |f.bs| >= HEAD && rd(f.bs, 0) == |argv| && rd(f.bs, 4) >= arglow
    ensures LeadsTo(f, arglow, rd, rd(f.bs, 4) - arglow + 4 * i, argv[i])
  {
    HeadReadsBack(f, arglow, rd, argv, envp, auxv);
    ListReadsBack(f, arglow, rd, 4, argv, 0, i);
  }

  /** The same for the environment, through the pointer at place 8. */
  lemma EnvReadsBack(f: Filled, arglow: nat, rd: Reader, argv: seq<Bytes>, envp: seq<Bytes>, auxv: seq<Aux>, i: nat)
    requires Readable(f, arglow, rd) && IsImage(f, arglow, argv, envp, auxv) && i < |envp| && CString(envp[i])
    ensures |f.bs| >= HEAD && rd(f.bs, 8) >= arglow
    ensures LeadsTo(f, arglow, rd, rd(f.bs, 8) - arglow + 4 * i, envp[i])
  {
    HeadReadsBack(f, arglow, rd, argv, envp, auxv);
    ListReadsBack(f, arglow, rd, EnvStart(argv), envp, |Strs(argv)|, i);
  }

  /** Entry a stands at place k; the program header table is at e. */
  ghost predicate EntryAt(f: Layout, arglow: nat, rd: Reader, k: nat, a: Aux, e: nat) {
    && k + 8 <= |f.bs| && rd(f.bs, k) == a.atype
    && rd(f.bs, k + 4) == if a.atype == AT_PHDR then arglow + e else a.val
  }

  lemma {:induction false} LastLength(auxv: seq<Aux>, table: Bytes, phtsize: nat)
    requires AuxOk(auxv, phtsize)
    ensures |LastTable(auxv, table)| == if TablesOf(auxv) > 0 then phtsize else |table|
  {
    if auxv != [] {
      LastLength(auxv[1..], TableAfter(auxv[0], table), phtsize);
    }
  }

  lemma {:induction false} CountsOne(auxv: seq<Aux>, i: nat)
    requires i < |auxv| && auxv[i].atype == AT_PHDR
    ensures TablesOf(auxv) > 0
    decreases i
  {
    if i > 0 { CountsOne(auxv[1..], i - 1); }
  }

  /** Where no AT_PHDR entry follows, the table is that of entry i. */
  lemma {:induction false} LastIs(auxv: seq<Aux>, table: Bytes, i: nat)
    requires i < |auxv| && auxv[i].atype == AT_PHDR && TablesOf(auxv[i + 1..]) == 0
    ensures LastTable(auxv, table) == auxv[i].table
    decreases i
  {
    if i == 0 {
      NoneLeft(auxv[1..], auxv[0].table);
    } else {
      assert auxv[1..][i..] == auxv[i + 1..];
      LastIs(auxv[1..], TableAfter(auxv[0], table), i - 1);
    }
  }

  lemma {:induction false} NoneLeft(auxv: seq<Aux>, table: Bytes)
    requires TablesOf(auxv) == 0
    ensures LastTable(auxv, table) == table
  {
    if auxv != [] { NoneLeft(auxv[1..], table); }
  }

  lemma {:induction false} OnlyOne(auxv: seq<Aux>, i: nat)
    requires i < |auxv| && auxv[i].atype == AT_PHDR && TablesOf(auxv) <= 1
    ensures TablesOf(auxv[i + 1..]) == 0
    decreases i
  {
    if i > 0 {
      assert auxv[1..][i..] == auxv[i + 1..];
      OnlyOne(auxv[1..], i - 1);
    }
  }

  lemma EntryReadsBack(f: Filled, arglow: nat, rd: Reader, n: nat, auxv: seq<Aux>, k: nat, i: nat)
    requires Readable(f, arglow, rd) && AuxAt(f, arglow, n, auxv, k) && i < |auxv|
    requires auxv[i].atype < WORD && auxv[i].val < WORD && arglow + f.base + k < WORD
    ensures EntryAt(f, arglow, rd, 4 * n + 8 * i, auxv[i], f.base + k)
  {
    HeldWord(f, arglow, rd, n + 2 * i);
    HeldWord(f, arglow, rd, n + 2 * i + 1);
    assert 4 * (n + 2 * i) == 4 * n + 8 * i && 4 * (n + 2 * i + 1) == 4 * n + 8 * i + 4;
  }

  /** Entry i of the auxiliary vector, through the pointer at place 12; an AT_PHDR entry leads to the place
      behind all strings. */
  lemma AuxReadsBack(f: Filled, arglow: nat, rd: Reader, argv: seq<Bytes>, envp: seq<Bytes>, auxv: seq<Aux>,
                     phtsize: nat, i: nat)
    requires Readable(f, arglow, rd) && IsImage(f, arglow, argv, envp, auxv) && AuxOk(auxv, phtsize) && i < |auxv|
    ensures |f.bs| >= HEAD && rd(f.bs, 12) == arglow + 4 * AuxStart(argv, envp)
    ensures EntryAt(f, arglow, rd, 4 * AuxStart(argv, envp) + 8 * i, auxv[i], f.base + (|Strs(argv)| + |Strs(envp)|))
  {
    HeadReadsBack(f, arglow, rd, argv, envp, auxv);
    AuxPart(f, arglow, rd, argv, envp, auxv);
    AnyEntry(f, arglow, rd, AuxStart(argv, envp), auxv, |Strs(argv)| + |Strs(envp)|, phtsize, i);
  }

  lemma AnyEntry(f: Filled, arglow: nat, rd: Reader, n: nat, auxv: seq<Aux>, k: nat, phtsize: nat, i: nat)
    requires Readable(f, arglow, rd) && AuxAt(f, arglow, n, auxv, k) && AuxOk(auxv, phtsize) && i < |auxv|
    requires arglow + f.base + k < WORD
    ensures EntryAt(f, arglow, rd, 4 * n + 8 * i, auxv[i], f.base + k)
  {
    EntryReadsBack(f, arglow, rd, n, auxv, k, i);
  }

  lemma AuxPart(f: Filled, arglow: nat, rd: Reader, argv: seq<Bytes>, envp: seq<Bytes>, auxv: seq<Aux>)
    requires Readable(f, arglow, rd) && IsImage(f, arglow, argv, envp, auxv)
    ensures AuxAt(f, arglow, AuxStart(argv, envp), auxv, |Strs(argv)| + |Strs(envp)|)
    ensures arglow + f.base + (|Strs(argv)| + |Strs(envp)|) < WORD
  {
  }

  /** Behind all strings the table of an AT_PHDR entry is found if and only if the last AT_PHDR entry has the
      same one, as it does when there is only one. */
  lemma TableReadsBack(f: Filled, arglow: nat, argv: seq<Bytes>, envp: seq<Bytes>, auxv: seq<Aux>, phtsize: nat,
                       i: nat, e: nat)
    requires IsImage(f, arglow, argv, envp, auxv) && AuxOk(auxv, phtsize) && i < |auxv| && auxv[i].atype == AT_PHDR
    requires e == f.base + (|Strs(argv)| + |Strs(envp)|)
    ensures Present(f.bs, e, auxv[i].table) <==> auxv[i].table == LastTable(auxv, [])
    ensures TablesOf(auxv) <= 1 ==> auxv[i].table == LastTable(auxv, [])
  {
    TableAt(f, arglow, AuxStart(argv, envp), auxv, |Strs(argv)| + |Strs(envp)|);
    OwnTable(f.bs, e, auxv, phtsize, i);
  }

  lemma OwnTable(bs: Bytes, e: nat, auxv: seq<Aux>, phtsize: nat, i: nat)
    requires Present(bs, e, LastTable(auxv, []))
    requires AuxOk(auxv, phtsize) && i < |auxv| && auxv[i].atype == AT_PHDR
    ensures Present(bs, e, auxv[i].table) <==> auxv[i].table == LastTable(auxv, [])
    ensures TablesOf(auxv) <= 1 ==> auxv[i].table == LastTable(auxv, [])
  {
    TableSizes(auxv, phtsize, i);
    if Present(bs, e, auxv[i].table) {
      PresentSame(bs, e, auxv[i].table, LastTable(auxv, []));
    }
    OneTable(auxv, i);
  }

  /** The last table is behind all strings. */
  lemma TableAt(f: Filled, arglow: nat, n: nat, auxv: seq<Aux>, k: nat)
    requires AuxAt(f, arglow, n, auxv, k)
    ensures Present(f.bs, f.base + k, LastTable(auxv, []))
  {
    PresentDeep(f.bs, f.base, f.strs, k, LastTable(auxv, []));
  }

  lemma TableSizes(auxv: seq<Aux>, phtsize: nat, i: nat)
    requires AuxOk(auxv, phtsize) && i < |auxv| && auxv[i].atype == AT_PHDR
    ensures |auxv[i].table| == |LastTable(auxv, [])|
  {
    LastLength(auxv, [], phtsize);
    CountsOne(auxv, i);
  }

  lemma OneTable(auxv: seq<Aux>, i: nat)
    requires i < |auxv| && auxv[i].atype == AT_PHDR
    ensures TablesOf(auxv) <= 1 ==> auxv[i].table == LastTable(auxv, [])
  {
    if TablesOf(auxv) <= 1 {
      OnlyOne(auxv, i);
      LastIs(auxv, [], i);
    }
  }

  // ---- The computed size ----

  lemma {:induction false} TableCount(auxv: seq<Aux>, phtsize: nat)
    ensures TableBytes(auxv, phtsize) == TablesOf(auxv) * phtsize
  {
    if auxv != [] { TableCount(auxv[1..], phtsize); }
  }

  lemma OnceOrNothing(n: nat, size: nat)
    ensures (if n > 0 then size else 0) <= n * size
    ensures (if n > 0 then size else 0) == n * size <==> n <= 1 || size == 0
  {
    if n > 1 {
      assert n * size == size + (n - 1) * size;
      if size > 0 { assert (n - 1) * size >= 1 * 1; }
    }
  }

  /** The image fills the computed size exactly if the program header table is asked for at most once, or
      is empty. */
  lemma ExactFit(f: Layout, arglow: nat, argv: seq<Bytes>, envp: seq<Bytes>, auxv: seq<Aux>, phtsize: nat)
    requires IsImage(f, arglow, argv, envp, auxv) && AuxOk(auxv, phtsize) &&
      |f.bs| == ArgSize(argv, envp, auxv, phtsize)
    ensures f.base + |f.strs| <= |f.bs|
    ensures f.base + |f.strs| == |f.bs| <==> TablesOf(auxv) <= 1 || phtsize == 0
  {
    TableCount(auxv, phtsize);
    LastLength(auxv, [], phtsize);
    OnceOrNothing(TablesOf(auxv), phtsize);
  }

  /** Two AT_PHDR entries with different tables of one byte: the image leaves a byte of the buffer unused,
      and the first entry leads to the table of the second. */
  lemma TwoTables(f: Filled, arglow: nat)
    requires var auxv := [Aux(AT_PHDR, 0, [1]), Aux(AT_PHDR, 0, [2])];
      IsImage(f, arglow, [], [], auxv) && |f.bs| == ArgSize([], [], auxv, 1)
    ensures f.base + |f.strs| < |f.bs| && !Present(f.bs, f.base, [1]) && Present(f.bs, f.base, [2])
  {
    var auxv := [Aux(AT_PHDR, 0, [1]), Aux(AT_PHDR, 0, [2])];
    assert auxv[1..] == [auxv[1]] && [auxv[1]][1..] == [];
    assert TablesOf([auxv[1]]) == 1 && LastTable([auxv[1]], [1]) == [2];
    ExactFit(f, arglow, [], [], auxv, 1);
    TableAt(f, arglow, AuxStart([], []), auxv, 0);
    OwnTable(f.bs, f.base, auxv, 1, 0);
    OwnTable(f.bs, f.base, auxv, 1, 1);
  }

  // ---- The machine's words ----

  /** A word, low byte first */
  function Le(x: nat): (r: Bytes)
    ensures |r| == 4
  {
    [x % 256, x / 256 % 256, x / 65536 % 256, x / 16777216 % 256]
  }

  function ReadLe(bs: Bytes, k: nat): nat {
    if k + 4 > |bs| then 0
    else (bs[k] as int) + 256 * (bs[k + 1] as int) + 65536 * (bs[k + 2] as int) + 16777216 * (bs[k + 3] as int)
  }

  lemma LeParts(x: nat)
    requires x < WORD
    ensures x == x % 256 + 256 * (x / 256 % 256) + 65536 * (x / 65536 % 256) + 16777216 * (x / 16777216 % 256)
  {
    LowByte(x);
    LowByte(x / 256);
    LowByte(x / 65536);
    NextByte(x, 256);
    NextByte(x, 65536);
  }

  lemma LowByte(x: nat)
    ensures x == x % 256 + 256 * (x / 256)
  {
  }

  lemma NextByte(x: nat, a: nat)
    requires a in {256, 65536}
    ensures x / a / 256 == x / (256 * a)
  {
  }

  lemma ReadLeBack(bs: Bytes, k: nat, x: nat)
    requires x < WORD && Present(bs, k, Le(x))
    ensures ReadLe(bs, k) == x
  {
    var w := Le(x);
    assert bs[k + 0] == w[0] && bs[k + 1] == w[1] && bs[k + 2] == w[2] && bs[k + 3] == w[3];
    LeParts(x);
  }

  /** Words stored low byte first read back: the image can be read on this machine. */
  lemma LittleEndian()
    ensures Undoes(ReadLe, Le)
  {
    forall bs: Bytes, k: nat, x: nat | x < WORD && Present(bs, k, Le(x)) ensures ReadLe(bs, k) == x {
      ReadLeBack(bs, k, x);
    }
  }
}
