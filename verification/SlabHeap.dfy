/** The slab allocators of slab.c and the memory they manage, as a value: free lists threaded
    through the control words behind the objects, with the chain each of them stands for. */
module SlabHeap {
  import opened Basics
  import opened Lists
  import opened Shifts
  import opened SlabLayout

  /** struct slab_bufctl: one pointer, to the next free object while the object is free and to the
      slab while it is allocated, and the flag that tells which. */
  datatype Bufctl = Bufctl(ptr: nat, free: bool)

  datatype Slab = Slab(inuse: int, free: nat, addr: nat)

  /** struct slab_allocator, with the slab list as a sequence */
  datatype Cache = Cache(objsize: nat, order: nat, nobjs: nat, slabs: seq<nat>)

  /** Allocators, slab descriptors and control words by address, and the page blocks held (first
      address to number of pages). `chain` and `owner` say which free objects and which allocator
      each slab has; no operation reads them. */
  datatype Kmem = Kmem(
    cache: map<nat, Cache>, caches: seq<nat>, slab: map<nat, Slab>, ctl: map<nat, Bufctl>, loan: map<nat, nat>,
    chain: map<nat, seq<nat>>, owner: map<nat, nat>)

  function Places(sl: Slab, objsize: nat, nobjs: nat): seq<nat> {
    Slots(sl.addr, Stride(objsize), nobjs)
  }

  /** From pointer p the control words lead through the free objects of `chain` to NULL. */
  ghost predicate Threaded(ctl: map<nat, Bufctl>, p: nat, chain: seq<nat>, objsize: nat)
    decreases |chain|
  {
    if chain == [] then p == 0
    else
      && p == chain[0] && p + objsize in ctl && ctl[p + objsize].free
      && Threaded(ctl, ctl[p + objsize].ptr, chain[1..], objsize)
  }

  /** The chain holds slots of the slab, and every other slot is allocated and points back to it. */
  ghost predicate Body(sl: Slab, ctl: map<nat, Bufctl>, s: nat, chain: seq<nat>, objsize: nat, nobjs: nat) {
    && sl.addr > 0 && s == End(sl.addr, Stride(objsize), nobjs)
    && Distinct(chain) && (forall x <- chain :: x in Places(sl, objsize, nobjs))
    && Threaded(ctl, sl.free, chain, objsize)
    && (forall x <- Places(sl, objsize, nobjs) :: x !in chain ==> Taken(ctl, x + objsize, s))
    && sl.inuse == nobjs - |chain|
  }

  ghost predicate Taken(ctl: map<nat, Bufctl>, a: nat, s: nat) {
    a in ctl && ctl[a] == Bufctl(s, false)
  }

  /** The control word of object x is the same. */
  ghost predicate SameCtl(ctl: map<nat, Bufctl>, ctl': map<nat, Bufctl>, x: nat, objsize: nat) {
    var a := x + objsize;
    (a in ctl <==> a in ctl') && (a in ctl ==> ctl[a] == ctl'[a])
  }

  lemma {:induction false} ThreadedFrame(ctl: map<nat, Bufctl>, ctl': map<nat, Bufctl>, p: nat, chain: seq<nat>,
      objsize: nat)
    requires Threaded(ctl, p, chain, objsize)
    requires forall x :: x in chain ==> SameCtl(ctl, ctl', x, objsize)
    ensures Threaded(ctl', p, chain, objsize)
    decreases |chain|
  {
    if chain != [] {
      assert SameCtl(ctl, ctl', chain[0], objsize);
      ThreadedFrame(ctl, ctl', ctl[p + objsize].ptr, chain[1..], objsize);
    }
  }

  lemma BodyFrame(sl: Slab, ctl: map<nat, Bufctl>, ctl': map<nat, Bufctl>, s: nat, chain: seq<nat>, objsize: nat,
      nobjs: nat)
    requires Body(sl, ctl, s, chain, objsize, nobjs)
    requires forall x <- Places(sl, objsize, nobjs) :: SameCtl(ctl, ctl', x, objsize)
    ensures Body(sl, ctl', s, chain, objsize, nobjs)
  {
    ThreadedFrame(ctl, ctl', sl.free, chain, objsize);
    forall x <- Places(sl, objsize, nobjs) | x !in chain ensures Taken(ctl', x + objsize, s) {
      assert SameCtl(ctl, ctl', x, objsize);
    }
  }

  /** Taking the first free object. */
  lemma PopBody(sl: Slab, ctl: map<nat, Bufctl>, s: nat, chain: seq<nat>, objsize: nat, nobjs: nat)
    requires Body(sl, ctl, s, chain, objsize, nobjs) && chain != []
    ensures sl.free == chain[0] && sl.free + objsize in ctl
    ensures Body(sl.(inuse := sl.inuse + 1, free := ctl[sl.free + objsize].ptr),
                 ctl[sl.free + objsize := Bufctl(s, false)], s, chain[1..], objsize, nobjs)
  {
    var a := sl.free + objsize;
    ThreadedFrame(ctl, ctl[a := Bufctl(s, false)], ctl[a].ptr, chain[1..], objsize);
    forall x <- Places(sl, objsize, nobjs) | x !in chain[1..]
      ensures Taken(ctl[a := Bufctl(s, false)], x + objsize, s)
    {
      if x in chain { assert x == chain[0]; }
    }
  }

  /** Putting an allocated object back in front. */
  lemma PushBody(sl: Slab, ctl: map<nat, Bufctl>, s: nat, chain: seq<nat>, objsize: nat, nobjs: nat, obj: nat)
    requires Body(sl, ctl, s, chain, objsize, nobjs) && obj in Places(sl, objsize, nobjs) && obj !in chain
    ensures Body(sl.(inuse := sl.inuse - 1, free := obj),
                 ctl[obj + objsize := Bufctl(sl.free, true)], s, [obj] + chain, objsize, nobjs)
  {
    var ctl' := ctl[obj + objsize := Bufctl(sl.free, true)];
    ThreadedFrame(ctl, ctl', sl.free, chain, objsize);
    DistinctAdd(chain, obj);
    assert ([obj] + chain)[1..] == chain;
    forall x <- Places(sl, objsize, nobjs) | x !in [obj] + chain ensures Taken(ctl', x + objsize, s) {
      assert Taken(ctl, x + objsize, s);
    }
  }

  lemma {:induction false} SizeOf(s: seq<nat>)
    requires Distinct(s)
    ensures |Members(s)| == |s|
  {
    if s != [] {
      SizeOf(s[1..]);
      assert s == [s[0]] + s[1..];
      assert Members(s) == {s[0]} + Members(s[1..]);
      assert s[0] !in Members(s[1..]);
    }
  }

  /** Chain and live objects partition the slots, and s_inuse counts the live ones: it is 0 if every
      slot is free and nobjs if none is. */
  lemma Partition(sl: Slab, ctl: map<nat, Bufctl>, s: nat, chain: seq<nat>, objsize: nat, nobjs: nat)
    requires Body(sl, ctl, s, chain, objsize, nobjs)
    ensures var p := Places(sl, objsize, nobjs);
      Members(chain) <= Members(p) && sl.inuse == |Members(p) - Members(chain)| <= nobjs
    ensures sl.inuse < nobjs <==> chain != []
    ensures sl.inuse == 0 <==> Members(chain) == Members(Places(sl, objsize, nobjs))
  {
    SlotsSpread(sl.addr, Stride(objsize), nobjs);
    PartSizes(Places(sl, objsize, nobjs), chain);
  }

  lemma PartSizes(p: seq<nat>, chain: seq<nat>)
    requires Distinct(p) && Distinct(chain) && forall x <- chain :: x in p
    ensures Members(chain) <= Members(p) && |Members(p) - Members(chain)| == |p| - |chain|
    ensures |p| == |chain| <==> Members(p) == Members(chain)
  {
    SizeOf(p);
    SizeOf(chain);
    assert Members(p) == (Members(p) - Members(chain)) + Members(chain);
    assert |p| == |chain| ==> Members(p) - Members(chain) == {};
  }

  // ---- All slabs together ----

  /** What is stored, with a default where nothing is. */
  function CacheOf(k: Kmem, s: nat): Cache {
    if s in k.owner && k.owner[s] in k.cache then k.cache[k.owner[s]] else Cache(0, 0, 0, [])
  }

  function SlabAt(k: Kmem, s: nat): Slab {
    if s in k.slab then k.slab[s] else Slab(0, 0, 0)
  }

  function ChainAt(k: Kmem, s: nat): seq<nat> {
    if s in k.chain then k.chain[s] else []
  }

  function CtlAt(k: Kmem, a: nat): Bufctl {
    if a in k.ctl then k.ctl[a] else Bufctl(0, false)
  }

  /** Two slabs keep apart from first slot to the end of the descriptor. */
  ghost predicate Far(k: Kmem, s: nat, t: nat) {
    s + SLAB <= SlabAt(k, t).addr || t + SLAB <= SlabAt(k, s).addr
  }

  type Shape = (Slab, map<nat, Bufctl>, nat, seq<nat>, nat, nat) -> bool

  /** The slab has the shape `body`, is on the list of its owner, and has its block on loan. */
  ghost predicate SlabOk(k: Kmem, s: nat, body: Shape) {
    && s in k.slab && s in k.chain && s in k.owner && k.owner[s] in k.cache
    && var c := CacheOf(k, s);
      && body(SlabAt(k, s), k.ctl, s, ChainAt(k, s), c.objsize, c.nobjs)
      && s in c.slabs
      && SlabAt(k, s).addr in k.loan && k.loan[SlabAt(k, s).addr] == Shl(1, c.order)
  }

  ghost predicate CacheOk(k: Kmem, c: nat) {
    c in k.cache ==>
      var a := k.cache[c];
      && a.nobjs == SlabNobjs(a.objsize, a.order) && a.nobjs >= 1
      && Distinct(a.slabs) && forall s <- a.slabs :: s in k.slab && s in k.owner && k.owner[s] == c
  }

  ghost predicate HasSlab(k: Kmem, b: nat) {
    exists s :: s in k.slab && SlabAt(k, s).addr == b
  }

  ghost predicate SlabsOk(k: Kmem, body: Shape) {
    && k.chain.Keys == k.slab.Keys && k.owner.Keys == k.slab.Keys
    && forall s {:trigger SlabOk(k, s, body)} :: s in k.slab ==> SlabOk(k, s, body)
  }

  ghost predicate CachesOk(k: Kmem) {
    && (forall c {:trigger CacheOk(k, c)} :: CacheOk(k, c))
    && Distinct(k.caches) && (forall c :: c in k.caches <==> c in k.cache)
  }

  ghost predicate AllFar(k: Kmem) {
    forall s, t {:trigger Far(k, s, t)} :: s in k.slab && t in k.slab && s != t ==> Far(k, s, t)
  }

  ghost predicate LoansOk(k: Kmem) {
    forall b {:trigger HasSlab(k, b)} :: b in k.loan ==> HasSlab(k, b)
  }

  ghost predicate KmemWith(k: Kmem, body: Shape) {
    SlabsOk(k, body) && CachesOk(k) && AllFar(k) && LoansOk(k)
  }

  /** The invariant of slab.c. */
  ghost predicate KmemOk(k: Kmem) {
    KmemWith(k, Body)
  }

  /** Object x of slab s is allocated. */
  ghost predicate Live(k: Kmem, s: nat, x: nat) {
    s in k.slab && x in Places(SlabAt(k, s), CacheOf(k, s).objsize, CacheOf(k, s).nobjs) && x !in ChainAt(k, s)
  }

  /** Addresses between the first slot and the descriptor of slab s. */
  predicate Inside(k: Kmem, s: nat, a: nat) {
    SlabAt(k, s).addr <= a < s
  }

  lemma BodyOf(k: Kmem, s: nat)
    requires KmemOk(k) && s in k.slab
    ensures Body(SlabAt(k, s), k.ctl, s, ChainAt(k, s), CacheOf(k, s).objsize, CacheOf(k, s).nobjs)
    ensures s in k.chain && s in k.owner && k.owner[s] in k.cache
  {
    assert SlabOk(k, s, Body);
  }

  lemma SlotInside(sl: Slab, s: nat, x: nat, objsize: nat, nobjs: nat)
    requires s == End(sl.addr, Stride(objsize), nobjs) && x in Places(sl, objsize, nobjs)
    ensures sl.addr <= x && x + objsize < s
  {
    SlotsSpread(sl.addr, Stride(objsize), nobjs);
  }

  /** A control word written outside a slab leaves the slab alone. */
  lemma OtherBody(sl: Slab, ctl: map<nat, Bufctl>, s: nat, chain: seq<nat>, objsize: nat, nobjs: nat, a: nat, v: Bufctl)
    requires Body(sl, ctl, s, chain, objsize, nobjs) && !(sl.addr <= a < s)
    ensures Body(sl, ctl[a := v], s, chain, objsize, nobjs)
  {
    forall x <- Places(sl, objsize, nobjs) ensures SameCtl(ctl, ctl[a := v], x, objsize) {
      SlotInside(sl, s, x, objsize, nobjs);
    }
    BodyFrame(sl, ctl, ctl[a := v], s, chain, objsize, nobjs);
  }

  /** Slab s rewritten: descriptor, chain and one control word. */
  function Rewrite(k: Kmem, s: nat, sl: Slab, ch: seq<nat>, a: nat, v: Bufctl): Kmem {
    k.(slab := k.slab[s := sl], chain := k.chain[s := ch], ctl := k.ctl[a := v])
  }

  /** All other slabs still have their shape. */
  ghost predicate OthersKeep(k: Kmem, s: nat, ctl: map<nat, Bufctl>, body: Shape) {
    forall t {:trigger SlabAt(k, t)} :: t in k.slab && t != s ==>
      body(SlabAt(k, t), ctl, t, ChainAt(k, t), CacheOf(k, t).objsize, CacheOf(k, t).nobjs)
  }

  lemma OthersKept(k: Kmem, s: nat, a: nat, v: Bufctl)
    requires KmemOk(k) && s in k.slab && Inside(k, s, a)
    ensures OthersKeep(k, s, k.ctl[a := v], Body)
  {
    forall t | t in k.slab && t != s
      ensures Body(SlabAt(k, t), k.ctl[a := v], t, ChainAt(k, t), CacheOf(k, t).objsize, CacheOf(k, t).nobjs)
    {
      BodyOf(k, t);
      assert Far(k, s, t);
      OtherBody(SlabAt(k, t), k.ctl, t, ChainAt(k, t), CacheOf(k, t).objsize, CacheOf(k, t).nobjs, a, v);
    }
  }

  lemma RewriteSlabs(k: Kmem, s: nat, sl: Slab, ch: seq<nat>, a: nat, v: Bufctl, body: Shape)
    requires SlabsOk(k, body) && s in k.slab && sl.addr == SlabAt(k, s).addr
    requires body(sl, k.ctl[a := v], s, ch, CacheOf(k, s).objsize, CacheOf(k, s).nobjs)
    requires OthersKeep(k, s, k.ctl[a := v], body)
    ensures SlabsOk(Rewrite(k, s, sl, ch, a, v), body)
  {
    var k' := Rewrite(k, s, sl, ch, a, v);
    forall t | t in k'.slab ensures SlabOk(k', t, body) {
      assert SlabOk(k, t, body);
      assert SlabAt(k', t) == if t == s then sl else SlabAt(k, t);
    }
  }

  /** Descriptors that stay where they are keep their distances and their blocks. */
  lemma SameAddrs(k: Kmem, k': Kmem)
    requires AllFar(k) && LoansOk(k) && k'.loan == k.loan && k'.slab.Keys == k.slab.Keys
    requires forall t :: t in k.slab ==> SlabAt(k', t).addr == SlabAt(k, t).addr
    ensures AllFar(k') && LoansOk(k')
  {
    forall t, u | t in k'.slab && u in k'.slab && t != u ensures Far(k', t, u) {
      assert Far(k, t, u);
    }
    forall b | b in k'.loan ensures HasSlab(k', b) {
      assert HasSlab(k, b);
      var t :| t in k.slab && SlabAt(k, t).addr == b;
      assert t in k'.slab && SlabAt(k', t).addr == b;
    }
  }

  lemma SameCaches(k: Kmem, k': Kmem)
    requires CachesOk(k) && k'.cache == k.cache && k'.caches == k.caches && k'.owner == k.owner &&
      k'.slab.Keys == k.slab.Keys
    ensures CachesOk(k')
  {
    forall c ensures CacheOk(k', c) {
      assert CacheOk(k, c);
    }
  }

  lemma RewriteOk(k: Kmem, s: nat, sl: Slab, ch: seq<nat>, a: nat, v: Bufctl, body: Shape)
    requires KmemWith(k, body) && s in k.slab && sl.addr == SlabAt(k, s).addr
    requires body(sl, k.ctl[a := v], s, ch, CacheOf(k, s).objsize, CacheOf(k, s).nobjs)
    requires OthersKeep(k, s, k.ctl[a := v], body)
    ensures KmemWith(Rewrite(k, s, sl, ch, a, v), body)
  {
    RewriteSlabs(k, s, sl, ch, a, v, body);
    SameAddrs(k, Rewrite(k, s, sl, ch, a, v));
    SameCaches(k, Rewrite(k, s, sl, ch, a, v));
  }

  // ---- slab_obj_alloc and slab_obj_free on a given slab ----

  function Tail(s: seq<nat>): seq<nat> {
    if s == [] then [] else s[1..]
  }

  /** The first free object of slab s of allocator c taken off its chain. */
  function Pop(k: Kmem, s: nat): Kmem {
    var sl := SlabAt(k, s);
    var a := sl.free + CacheOf(k, s).objsize;
    Rewrite(k, s, sl.(inuse := sl.inuse + 1, free := CtlAt(k, a).ptr), Tail(ChainAt(k, s)), a, Bufctl(s, false))
  }

  /** Object obj put back on the chain of the slab that the control word at a names. */
  function Push(k: Kmem, obj: nat, a: nat): Kmem {
    var s := CtlAt(k, a).ptr;
    var sl := SlabAt(k, s);
    Rewrite(k, s, sl.(inuse := sl.inuse - 1, free := obj), [obj] + ChainAt(k, s), a, Bufctl(sl.free, true))
  }

  ghost predicate HasRoom(k: Kmem, s: nat) {
    s in k.slab && SlabAt(k, s).inuse < CacheOf(k, s).nobjs
  }

  /** The first free object of a slab with room. */
  lemma FirstFree(k: Kmem, s: nat)
    requires KmemOk(k) && HasRoom(k, s)
    ensures var obj, c := SlabAt(k, s).free, CacheOf(k, s);
      && ChainAt(k, s) == [obj] + Tail(ChainAt(k, s)) && obj !in Tail(ChainAt(k, s))
      && obj in Places(SlabAt(k, s), c.objsize, c.nobjs) && obj > 0
      && obj + c.objsize in k.ctl && k.ctl[obj + c.objsize].free && Inside(k, s, obj + c.objsize)
      && Body(SlabAt(Pop(k, s), s), Pop(k, s).ctl, s, Tail(ChainAt(k, s)), c.objsize, c.nobjs)
  {
    BodyOf(k, s);
    FirstFreeOf(SlabAt(k, s), k.ctl, s, ChainAt(k, s), CacheOf(k, s).objsize, CacheOf(k, s).nobjs);
  }

  lemma FirstFreeOf(sl: Slab, ctl: map<nat, Bufctl>, s: nat, chain: seq<nat>, objsize: nat, nobjs: nat)
    requires Body(sl, ctl, s, chain, objsize, nobjs) && sl.inuse < nobjs
    ensures chain == [sl.free] + Tail(chain) && sl.free !in Tail(chain) && sl.free in Places(sl, objsize, nobjs) &&
      sl.free > 0
    ensures sl.free + objsize in ctl && ctl[sl.free + objsize].free && sl.addr <= sl.free + objsize < s
    ensures Body(sl.(inuse := sl.inuse + 1, free := ctl[sl.free + objsize].ptr),
                 ctl[sl.free + objsize := Bufctl(s, false)], s, Tail(chain), objsize, nobjs)
  {
    PopBody(sl, ctl, s, chain, objsize, nobjs);
    SlotInside(sl, s, sl.free, objsize, nobjs);
  }

  lemma PopKeeps(k: Kmem, s: nat)
    requires KmemOk(k) && HasRoom(k, s)
    ensures KmemOk(Pop(k, s))
  {
    FirstFree(k, s);
    var sl, c := SlabAt(k, s), CacheOf(k, s);
    OthersKept(k, s, sl.free + c.objsize, Bufctl(s, false));
    RewriteOk(k, s, SlabAt(Pop(k, s), s), Tail(ChainAt(k, s)), sl.free + c.objsize, Bufctl(s, false), Body);
  }

  /** An allocation from a slab that is not full: the object was free, is now live, and nothing else
      changes state. */
  lemma PopOk(k: Kmem, s: nat)
    requires KmemOk(k) && HasRoom(k, s)
    ensures KmemOk(Pop(k, s)) && !Live(k, s, SlabAt(k, s).free) && SlabAt(k, s).free != 0
    ensures forall t, x :: Live(Pop(k, s), t, x) <==> Live(k, t, x) || (t == s && x == SlabAt(k, s).free)
  {
    PopKeeps(k, s);
    FirstFree(k, s);
    LiveChange(k, s, Pop(k, s), SlabAt(k, s).free);
  }

  lemma LiveChange(k: Kmem, s: nat, k': Kmem, obj: nat)
    requires s in k.slab && k'.slab.Keys == k.slab.Keys && k'.owner == k.owner && k'.cache == k.cache
    requires forall t :: t in k.slab ==>
      SlabAt(k', t).addr == SlabAt(k, t).addr && (t != s ==> ChainAt(k', t) == ChainAt(k, t))
    requires ChainAt(k, s) == [obj] + ChainAt(k', s) && obj !in ChainAt(k', s)
    requires obj in Places(SlabAt(k, s), CacheOf(k, s).objsize, CacheOf(k, s).nobjs)
    ensures !Live(k, s, obj)
    ensures forall t, x :: Live(k', t, x) <==> Live(k, t, x) || (t == s && x == obj)
  {
  }

  /** The control word of a live object leads to its slab. */
  lemma BackPointer(k: Kmem, s: nat, obj: nat)
    requires KmemOk(k) && Live(k, s, obj)
    ensures var a := obj + CacheOf(k, s).objsize; Taken(k.ctl, a, s) && Inside(k, s, a)
    ensures var a, c := obj + CacheOf(k, s).objsize, CacheOf(k, s);
      Body(SlabAt(Push(k, obj, a), s), Push(k, obj, a).ctl, s, [obj] + ChainAt(k, s), c.objsize, c.nobjs)
  {
    BodyOf(k, s);
    var sl, c := SlabAt(k, s), CacheOf(k, s);
    assert Taken(k.ctl, obj + c.objsize, s);
    PushBody(sl, k.ctl, s, ChainAt(k, s), c.objsize, c.nobjs, obj);
    SlotInside(sl, s, obj, c.objsize, c.nobjs);
  }

  /** Freeing a live object: only this object becomes free. */
  lemma PushOk(k: Kmem, s: nat, obj: nat)
    requires KmemOk(k) && Live(k, s, obj)
    ensures var k' := Push(k, obj, obj + CacheOf(k, s).objsize);
      KmemOk(k') && forall t, x :: Live(k', t, x) <==> Live(k, t, x) && !(t == s && x == obj)
  {
    BackPointer(k, s, obj);
    var a := obj + CacheOf(k, s).objsize;
    var k' := Push(k, obj, a);
    OthersKept(k, s, a, Bufctl(SlabAt(k, s).free, true));
    RewriteOk(k, s, SlabAt(k', s), [obj] + ChainAt(k, s), a, Bufctl(SlabAt(k, s).free, true), Body);
    LiveChange(k', s, k, obj);
  }

  /** Freeing what was just allocated brings every word back. */
  lemma PushPop(k: Kmem, s: nat)
    requires KmemOk(k) && HasRoom(k, s)
    ensures var obj := SlabAt(k, s).free; Push(Pop(k, s), obj, obj + CacheOf(k, s).objsize) == k
  {
    FirstFree(k, s);
    BodyOf(k, s);
    WordsBack(k, s);
  }

  lemma WordsBack(k: Kmem, s: nat)
    requires s in k.slab && s in k.chain && ChainAt(k, s) == [SlabAt(k, s).free] + Tail(ChainAt(k, s))
    requires var a := SlabAt(k, s).free + CacheOf(k, s).objsize; a in k.ctl && k.ctl[a].free
    ensures var obj := SlabAt(k, s).free; Push(Pop(k, s), obj, obj + CacheOf(k, s).objsize) == k
  {
    var obj := SlabAt(k, s).free;
    var a := obj + CacheOf(k, s).objsize;
    var k' := Push(Pop(k, s), obj, a);
    assert k'.ctl == k.ctl && k'.slab == k.slab && k'.chain == k.chain;
  }

  /** Live objects never overlap, and no live object reaches into a control word or a descriptor. */
  lemma LiveApart(k: Kmem, s: nat, x: nat, t: nat, y: nat)
    requires KmemOk(k) && Live(k, s, x) && Live(k, t, y) && (s != t || x != y)
    ensures var m, n := CacheOf(k, s).objsize, CacheOf(k, t).objsize;
      && (x + m + BUFCTL <= y || y + n + BUFCTL <= x)
      && (x + m + BUFCTL <= t || t + SLAB <= x) && (y + n + BUFCTL <= s || s + SLAB <= y)
  {
    BodyOf(k, s);
    BodyOf(k, t);
    SlotsSpread(SlabAt(k, s).addr, Stride(CacheOf(k, s).objsize), CacheOf(k, s).nobjs);
    SlotsSpread(SlabAt(k, t).addr, Stride(CacheOf(k, t).objsize), CacheOf(k, t).nobjs);
    assert s != t ==> Far(k, s, t);
  }

  // ---- _slab_allocator_grow ----

  /** The control words of n free objects from `base` on, each pointing to the next. */
  function Thread(ctl: map<nat, Bufctl>, base: nat, objsize: nat, n: nat): map<nat, Bufctl>
    decreases n
  {
    if n == 0 then ctl
    else if n == 1 then ctl[base + objsize := Bufctl(0, true)]
    else Thread(ctl[base + objsize := Bufctl(base + Stride(objsize), true)], base + Stride(objsize), objsize, n - 1)
  }

  lemma {:induction false} ThreadElsewhere(ctl: map<nat, Bufctl>, base: nat, objsize: nat, n: nat, a: nat)
    requires a < base || a >= End(base, Stride(objsize), n)
    ensures a in Thread(ctl, base, objsize, n) <==> a in ctl
    ensures a in ctl ==> Thread(ctl, base, objsize, n)[a] == ctl[a]
    decreases n
  {
    if n > 0 {
      EndGrows(base, Stride(objsize), n);
      if n > 1 {
        var next := base + Stride(objsize);
        ThreadElsewhere(ctl[base + objsize := Bufctl(next, true)], next, objsize, n - 1, a);
      }
    }
  }

  lemma EndGrows(base: nat, stride: nat, n: nat)
    requires n > 0
    ensures End(base, stride, n) >= base + stride
  {
  }

  lemma {:induction false} ThreadBuilds(ctl: map<nat, Bufctl>, base: nat, objsize: nat, n: nat)
    requires n > 0
    ensures Threaded(Thread(ctl, base, objsize, n), base, Slots(base, Stride(objsize), n), objsize)
    decreases n
  {
    var next := base + Stride(objsize);
    if n == 1 {
      assert Slots(base, Stride(objsize), 1) == [base];
    } else {
      var ctl0 := ctl[base + objsize := Bufctl(next, true)];
      ThreadBuilds(ctl0, next, objsize, n - 1);
      ThreadElsewhere(ctl0, next, objsize, n - 1, base + objsize);
      assert Slots(base, Stride(objsize), n)[1..] == Slots(next, Stride(objsize), n - 1);
    }
  }

  /** A new slab of allocator c in the block at `base`. */
  function Grow(k: Kmem, c: nat, base: nat): Kmem
    requires c in k.cache
  {
    var a := k.cache[c];
    var s := End(base, Stride(a.objsize), a.nobjs);
    k.(slab := k.slab[s := Slab(0, base, base)], chain := k.chain[s := Slots(base, Stride(a.objsize), a.nobjs)],
       owner := k.owner[s := c], ctl := Thread(k.ctl, base, a.objsize, a.nobjs),
       cache := k.cache[c := a.(slabs := [s] + a.slabs)], loan := k.loan[base := Shl(1, a.order)])
  }

  /** The block at `base` lies apart from all blocks held. */
  ghost predicate FreshBlock(k: Kmem, base: nat, order: nat) {
    && base > 0
    && forall b :: b in k.loan ==> b + PAGE_SIZE * k.loan[b] <= base || base + BlockSize(order) <= b
  }

  lemma {:induction false} PagesBytes(x: nat, order: nat)
    ensures PAGE_SIZE * Shl(x, order) == Shl(PAGE_SIZE * x, order)
    decreases order
  {
    if order > 0 {
      PagesBytes(2 * x, order - 1);
    }
  }

  /** A slab lies within its block. */
  lemma InBlock(k: Kmem, s: nat)
    requires KmemOk(k) && s in k.slab
    ensures var b := SlabAt(k, s).addr; b in k.loan && s + SLAB <= b + PAGE_SIZE * k.loan[b]
  {
    assert SlabOk(k, s, Body);
    assert CacheOk(k, k.owner[s]);
    var c := CacheOf(k, s);
    SlabInBlock(SlabAt(k, s).addr, c.objsize, c.order);
    PagesBytes(1, c.order);
  }

  lemma BlockBeyond(k: Kmem, c: nat, base: nat, t: nat)
    requires KmemOk(k) && c in k.cache && FreshBlock(k, base, k.cache[c].order) && t in k.slab
    ensures var s := End(base, Stride(k.cache[c].objsize), k.cache[c].nobjs);
      s + SLAB <= SlabAt(k, t).addr || t + SLAB <= base
  {
    InBlock(k, t);
    assert CacheOk(k, c);
    SlabInBlock(base, k.cache[c].objsize, k.cache[c].order);
  }

  lemma NewBody(ctl: map<nat, Bufctl>, base: nat, objsize: nat, nobjs: nat)
    requires base > 0 && nobjs > 0
    ensures var s := End(base, Stride(objsize), nobjs);
      Body(Slab(0, base, base), Thread(ctl, base, objsize, nobjs), s, Slots(base, Stride(objsize), nobjs), objsize,
        nobjs)
  {
    ThreadBuilds(ctl, base, objsize, nobjs);
    SlotsSpread(base, Stride(objsize), nobjs);
  }

  lemma OldBody(sl: Slab, ctl: map<nat, Bufctl>, t: nat, chain: seq<nat>, objsize: nat, nobjs: nat, base: nat,
      size: nat, n: nat)
    requires Body(sl, ctl, t, chain, objsize, nobjs)
    requires End(base, Stride(size), n) <= sl.addr || t <= base
    ensures Body(sl, Thread(ctl, base, size, n), t, chain, objsize, nobjs)
  {
    forall x <- Places(sl, objsize, nobjs) ensures SameCtl(ctl, Thread(ctl, base, size, n), x, objsize) {
      SlotInside(sl, t, x, objsize, nobjs);
      ThreadElsewhere(ctl, base, size, n, x + objsize);
    }
    BodyFrame(sl, ctl, Thread(ctl, base, size, n), t, chain, objsize, nobjs);
  }

  lemma GrowSlabs(k: Kmem, c: nat, base: nat, s: nat, body: Shape)
    requires SlabsOk(k, body) && c in k.cache && s !in k.slab &&
      s == End(base, Stride(k.cache[c].objsize), k.cache[c].nobjs)
    requires base !in k.loan
    requires body(Slab(0, base, base), Grow(k, c, base).ctl, s,
      Slots(base, Stride(k.cache[c].objsize), k.cache[c].nobjs),
                  k.cache[c].objsize, k.cache[c].nobjs)
    requires OthersKeep(k, s, Grow(k, c, base).ctl, body)
    ensures SlabsOk(Grow(k, c, base), body)
  {
    var k' := Grow(k, c, base);
    forall t | t in k'.slab ensures SlabOk(k', t, body) {
      if t != s {
        assert SlabOk(k, t, body);
        assert SlabAt(k', t) == SlabAt(k, t) && ChainAt(k', t) == ChainAt(k, t);
        assert CacheOf(k', t).objsize == CacheOf(k, t).objsize && CacheOf(k', t).nobjs == CacheOf(k, t).nobjs;
      }
    }
  }

  lemma GrowCaches(k: Kmem, c: nat, base: nat, s: nat)
    requires CachesOk(k) && c in k.cache && s !in k.slab && s == End(base, Stride(k.cache[c].objsize), k.cache[c].nobjs)
    ensures CachesOk(Grow(k, c, base))
  {
    assert CacheOk(k, c);
    assert s !in k.cache[c].slabs;
    DistinctAdd(k.cache[c].slabs, s);
    forall d ensures CacheOk(Grow(k, c, base), d) {
      assert CacheOk(k, d);
    }
  }

  lemma GrowFar(k: Kmem, c: nat, base: nat, s: nat)
    requires AllFar(k) && LoansOk(k) && c in k.cache && s !in k.slab &&
      s == End(base, Stride(k.cache[c].objsize), k.cache[c].nobjs)
    requires forall t :: t in k.slab ==> s + SLAB <= SlabAt(k, t).addr || t + SLAB <= base
    ensures AllFar(Grow(k, c, base)) && LoansOk(Grow(k, c, base))
  {
    var k' := Grow(k, c, base);
    forall t, u | t in k'.slab && u in k'.slab && t != u ensures Far(k', t, u) {
      assert t != s && u != s ==> Far(k, t, u);
    }
    forall b | b in k'.loan ensures HasSlab(k', b) {
      if b == base {
        assert s in k'.slab && SlabAt(k', s).addr == b;
      } else {
        assert HasSlab(k, b);
        var t :| t in k.slab && SlabAt(k, t).addr == b;
        assert t in k'.slab && SlabAt(k', t).addr == b;
      }
    }
  }

  /** A block that was nowhere in use becomes a slab of free objects; no object becomes live or dies. */
  lemma GrowOk(k: Kmem, c: nat, base: nat)
    requires KmemOk(k) && c in k.cache && FreshBlock(k, base, k.cache[c].order)
    ensures KmemOk(Grow(k, c, base))
    ensures var s := End(base, Stride(k.cache[c].objsize), k.cache[c].nobjs);
      s !in k.slab && HasRoom(Grow(k, c, base), s)
    ensures forall t, x :: Live(Grow(k, c, base), t, x) <==> Live(k, t, x)
  {
    var a, k' := k.cache[c], Grow(k, c, base);
    var s := End(base, Stride(a.objsize), a.nobjs);
    GrowApart(k, c, base);
    GrowBodies(k, c, base);
    GrowSlabs(k, c, base, s, Body);
    GrowCaches(k, c, base, s);
    GrowFar(k, c, base, s);
    GrowLive(k, c, base);
  }

  lemma GrowLive(k: Kmem, c: nat, base: nat)
    requires c in k.cache && k.owner.Keys == k.slab.Keys && k.chain.Keys == k.slab.Keys
    requires var s := End(base, Stride(k.cache[c].objsize), k.cache[c].nobjs); s !in k.slab
    ensures forall t, x :: Live(Grow(k, c, base), t, x) <==> Live(k, t, x)
  {
    var k', s := Grow(k, c, base), End(base, Stride(k.cache[c].objsize), k.cache[c].nobjs);
    forall t, x ensures Live(k', t, x) <==> Live(k, t, x) {
      if t != s { assert SlabAt(k', t) == SlabAt(k, t) && ChainAt(k', t) == ChainAt(k, t); }
    }
  }

  lemma GrowApart(k: Kmem, c: nat, base: nat)
    requires KmemOk(k) && c in k.cache && FreshBlock(k, base, k.cache[c].order)
    ensures var s := End(base, Stride(k.cache[c].objsize), k.cache[c].nobjs);
      && s !in k.slab && base !in k.loan && k.cache[c].nobjs > 0
      && forall t :: t in k.slab ==> s + SLAB <= SlabAt(k, t).addr || t + SLAB <= base
  {
    var s := End(base, Stride(k.cache[c].objsize), k.cache[c].nobjs);
    forall t | t in k.slab ensures (s + SLAB <= SlabAt(k, t).addr || t + SLAB <= base) && t != s {
      BlockBeyond(k, c, base, t);
      BodyOf(k, t);
    }
    assert CacheOk(k, c);
    if base in k.loan {
      assert HasSlab(k, base);
      var t :| t in k.slab && SlabAt(k, t).addr == base;
      BodyOf(k, t);
    }
  }

  lemma GrowBodies(k: Kmem, c: nat, base: nat)
    requires KmemOk(k) && c in k.cache && FreshBlock(k, base, k.cache[c].order)
    ensures var a, k' := k.cache[c], Grow(k, c, base);
      var s := End(base, Stride(a.objsize), a.nobjs);
      && Body(Slab(0, base, base), k'.ctl, s, Slots(base, Stride(a.objsize), a.nobjs), a.objsize, a.nobjs)
      && OthersKeep(k, s, k'.ctl, Body)
  {
    var a, k' := k.cache[c], Grow(k, c, base);
    var s := End(base, Stride(a.objsize), a.nobjs);
    GrowApart(k, c, base);
    NewBody(k.ctl, base, a.objsize, a.nobjs);
    forall t | t in k.slab && t != s
      ensures Body(SlabAt(k, t), k'.ctl, t, ChainAt(k, t), CacheOf(k, t).objsize, CacheOf(k, t).nobjs)
    {
      BodyOf(k, t);
      OldBody(SlabAt(k, t), k.ctl, t, ChainAt(k, t), CacheOf(k, t).objsize, CacheOf(k, t).nobjs, base, a.objsize,
        a.nobjs);
    }
  }

  // ---- slab_allocators_reclaim ----

  /** Slab s given back with its block. */
  function Drop(k: Kmem, s: nat): Kmem
    requires s in k.owner && k.owner[s] in k.cache
  {
    var c := k.owner[s];
    var a := k.cache[c];
    k.(slab := k.slab - {s}, chain := k.chain - {s}, owner := k.owner - {s}, loan := k.loan - {SlabAt(k, s).addr},
       cache := k.cache[c := a.(slabs := Unlink(a.slabs, s))])
  }

  lemma DropSlabs(k: Kmem, s: nat, body: Shape)
    requires SlabsOk(k, body) && s in k.slab
    requires s in k.owner && k.owner[s] in k.cache && CacheOk(k, k.owner[s])
    requires forall t :: t in k.slab && t != s ==> SlabAt(k, t).addr != SlabAt(k, s).addr
    ensures SlabsOk(Drop(k, s), body)
  {
    UnlinkRemoves(k.cache[k.owner[s]].slabs, s);
    var k' := Drop(k, s);
    forall t | t in k'.slab ensures SlabOk(k', t, body) {
      assert SlabOk(k, t, body);
      assert SlabAt(k', t) == SlabAt(k, t) && ChainAt(k', t) == ChainAt(k, t);
      assert CacheOf(k', t).objsize == CacheOf(k, t).objsize && CacheOf(k', t).nobjs == CacheOf(k, t).nobjs;
    }
  }

  lemma DropCaches(k: Kmem, s: nat)
    requires CachesOk(k) && s in k.slab && s in k.owner && k.owner[s] in k.cache
    ensures CachesOk(Drop(k, s))
  {
    assert CacheOk(k, k.owner[s]);
    UnlinkRemoves(k.cache[k.owner[s]].slabs, s);
    forall d ensures CacheOk(Drop(k, s), d) {
      assert CacheOk(k, d);
    }
  }

  lemma DropFar(k: Kmem, s: nat)
    requires AllFar(k) && LoansOk(k) && s in k.slab && s in k.owner && k.owner[s] in k.cache
    ensures AllFar(Drop(k, s)) && LoansOk(Drop(k, s))
  {
    var k' := Drop(k, s);
    forall t, u | t in k'.slab && u in k'.slab && t != u ensures Far(k', t, u) {
      assert Far(k, t, u);
    }
    forall b | b in k'.loan ensures HasSlab(k', b) {
      assert HasSlab(k, b);
      var t :| t in k.slab && SlabAt(k, t).addr == b;
      assert t in k'.slab && SlabAt(k', t).addr == b;
    }
  }

  /** A slab without live objects can go: its block was on loan at the order of its allocator, and no
      object dies. */
  lemma DropOk(k: Kmem, s: nat)
    requires KmemOk(k) && s in k.slab && SlabAt(k, s).inuse == 0
    ensures s in k.owner && k.owner[s] in k.cache && KmemOk(Drop(k, s))
    ensures var b := SlabAt(k, s).addr; b in k.loan && k.loan[b] == Shl(1, CacheOf(k, s).order) && b !in Drop(k, s).loan
    ensures forall t, x :: Live(Drop(k, s), t, x) <==> Live(k, t, x)
  {
    assert SlabOk(k, s, Body);
    assert CacheOk(k, k.owner[s]);
    DropApart(k, s);
    DropSlabs(k, s, Body);
    DropCaches(k, s);
    DropFar(k, s);
    DropLive(k, s);
  }

  lemma DropApart(k: Kmem, s: nat)
    requires KmemOk(k) && s in k.slab
    ensures forall t :: t in k.slab && t != s ==> SlabAt(k, t).addr != SlabAt(k, s).addr
  {
    BodyOf(k, s);
    forall t | t in k.slab && t != s ensures SlabAt(k, t).addr != SlabAt(k, s).addr {
      BodyOf(k, t);
      assert Far(k, s, t);
    }
  }

  lemma DropLive(k: Kmem, s: nat)
    requires KmemOk(k) && s in k.slab && SlabAt(k, s).inuse == 0 && s in k.owner && k.owner[s] in k.cache
    ensures forall t, x :: Live(Drop(k, s), t, x) <==> Live(k, t, x)
  {
    BodyOf(k, s);
    var k', c := Drop(k, s), CacheOf(k, s);
    Partition(SlabAt(k, s), k.ctl, s, ChainAt(k, s), c.objsize, c.nobjs);
    forall t, x ensures Live(k', t, x) <==> Live(k, t, x) {
      if t == s {
        assert x in Members(ChainAt(k, s)) <==> x in Members(Places(SlabAt(k, s), c.objsize, c.nobjs));
      } else {
        assert SlabAt(k', t) == SlabAt(k, t) && ChainAt(k', t) == ChainAt(k, t);
      }
    }
  }

  // ---- _allocator_init ----

  /** A new allocator at address c, in front of the list. */
  function NewCache(k: Kmem, c: nat, objsize: nat, order: nat, nobjs: nat): Kmem {
    k.(cache := k.cache[c := Cache(objsize, order, nobjs, [])], caches := [c] + k.caches)
  }

  lemma NewCacheOk(k: Kmem, c: nat, objsize: nat, order: nat)
    requires KmemOk(k) && c !in k.cache && SlabNobjs(objsize, order) >= 1
    ensures KmemOk(NewCache(k, c, objsize, order, SlabNobjs(objsize, order)))
    ensures forall t, x :: Live(NewCache(k, c, objsize, order, SlabNobjs(objsize, order)), t, x) <==> Live(k, t, x)
  {
    var k' := NewCache(k, c, objsize, order, SlabNobjs(objsize, order));
    forall t ensures t in k.slab ==> CacheOf(k', t) == CacheOf(k, t) {
      if t in k.slab { BodyOf(k, t); }
    }
    NewCacheSlabs(k, k', Body);
    assert c !in k.caches;
    DistinctAdd(k.caches, c);
    forall d ensures CacheOk(k', d) {
      assert CacheOk(k, d);
    }
    SameAddrs(k, k');
  }

  lemma NewCacheSlabs(k: Kmem, k': Kmem, body: Shape)
    requires SlabsOk(k, body) && k'.slab == k.slab && k'.chain == k.chain && k'.owner == k.owner && k'.loan == k.loan
    requires k'.ctl == k.ctl && k.cache.Keys <= k'.cache.Keys && forall t :: t in k.slab ==>
      CacheOf(k', t) == CacheOf(k, t)
    ensures SlabsOk(k', body)
  {
    forall t | t in k'.slab ensures SlabOk(k', t, body) {
      assert SlabOk(k, t, body);
    }
  }

  // ---- slab_obj_alloc ----

  /** The first slab on the list with a free object. */
  function FirstRoom(slab: map<nat, Slab>, slabs: seq<nat>, nobjs: nat): (r: Option<nat>)
    ensures r.Some? ==> r.value in slabs && r.value in slab && slab[r.value].inuse < nobjs
    ensures r.None? ==> forall s <- slabs :: s in slab ==> slab[s].inuse >= nobjs
  {
    if slabs == [] then None
    else if slabs[0] in slab && slab[slabs[0]].inuse < nobjs then Some(slabs[0])
    else
      var r := FirstRoom(slab, slabs[1..], nobjs);
      assert slabs == [slabs[0]] + slabs[1..];
      r
  }

  function RoomIn(k: Kmem, c: nat): Option<nat>
    requires c in k.cache
  {
    FirstRoom(k.slab, k.cache[c].slabs, k.cache[c].nobjs)
  }

  /** The heap an allocation takes its object from: if every slab is full and the page allocator has
      a block, there is a new slab. */
  function Supplied(k: Kmem, c: nat, block: Option<nat>): (r: Kmem)
    requires c in k.cache
    ensures c in r.cache
  {
    if RoomIn(k, c).None? && block.Some? then Grow(k, c, block.value) else k
  }

  /** slab_obj_alloc as a whole: it fails only if all slabs of the allocator are full and no block is
      to be had. Otherwise one object of the allocator becomes live that was not live before; no
      other object changes. */
  lemma AllocMeans(k: Kmem, c: nat, block: Option<nat>)
    requires KmemOk(k) && c in k.cache && (block.Some? ==> FreshBlock(k, block.value, k.cache[c].order))
    ensures var k1 := Supplied(k, c, block);
      && (RoomIn(k1, c).None? <==>
        block.None? && forall s <- k.cache[c].slabs :: s in k.slab && k.slab[s].inuse == k.cache[c].nobjs)
      && (RoomIn(k1, c).Some? ==>
            var s := RoomIn(k1, c).value;
            && s in k1.owner && k1.owner[s] == c && KmemOk(k1) && HasRoom(k1, s) && KmemOk(Pop(k1, s))
            && !Live(k, s, SlabAt(k1, s).free)
            && forall t, x :: Live(Pop(k1, s), t, x) <==> Live(k, t, x) || (t == s && x == SlabAt(k1, s).free))
  {
    var k1 := Supplied(k, c, block);
    if RoomIn(k, c).None? && block.Some? {
      GrowOk(k, c, block.value);
      GrowRoom(k, c, block.value);
    }
    if RoomIn(k1, c).Some? {
      AllocFrom(k1, c);
    } else {
      AllFull(k, c);
    }
  }

  lemma GrowRoom(k: Kmem, c: nat, base: nat)
    requires c in k.cache && k.cache[c].nobjs > 0
    ensures RoomIn(Grow(k, c, base), c) == Some(End(base, Stride(k.cache[c].objsize), k.cache[c].nobjs))
  {
  }

  lemma AllocFrom(k: Kmem, c: nat)
    requires KmemOk(k) && c in k.cache && RoomIn(k, c).Some?
    ensures var s := RoomIn(k, c).value;
      && s in k.owner && k.owner[s] == c && HasRoom(k, s) && KmemOk(Pop(k, s)) && !Live(k, s, SlabAt(k, s).free)
      && forall t, x :: Live(Pop(k, s), t, x) <==> Live(k, t, x) || (t == s && x == SlabAt(k, s).free)
  {
    assert CacheOk(k, c);
    PopOk(k, RoomIn(k, c).value);
  }

  lemma AllFull(k: Kmem, c: nat)
    requires KmemOk(k) && c in k.cache && RoomIn(k, c).None?
    ensures forall s <- k.cache[c].slabs :: s in k.slab && k.slab[s].inuse == k.cache[c].nobjs
  {
    assert CacheOk(k, c);
    forall s <- k.cache[c].slabs ensures s in k.slab && k.slab[s].inuse == k.cache[c].nobjs {
      BodyOf(k, s);
    }
  }
}
