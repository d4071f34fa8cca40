/** slab.c as it runs: allocators, slabs and control words changed in place. */
module SlabAllocators {
  import opened Basics
  import opened Lists
  import opened Shifts
  import opened SlabLayout
  import opened SlabHeap

  const REDZONE: nat := 4               // sizeof(SLAB_REDZONE)
  const POINTER_SIZE: nat := 4          // sizeof(struct slab_allocator *)
  const KMALLOC_MIN_ORDER: nat := 6
  const KMALLOC_MAX_ORDER: nat := 18

  datatype Chunk = Panic | Null | At(addr: nat)

  type GoodKmem = k: Kmem | KmemOk(k) ghost witness Kmem(map[], [], map[], map[], map[], map[], map[])

  /** Several slabs given back, one after the other. */
  ghost function DropAll(k: Kmem, gone: seq<nat>): Kmem
    decreases |gone|
  {
    if gone == [] then k
    else
      var k' := DropAll(k, gone[..|gone| - 1]);
      var s := gone[|gone| - 1];
      if s in k'.owner && k'.owner[s] in k'.cache then Drop(k', s) else k'
  }

  /** The pages of the blocks of these slabs. */
  ghost function PagesOf(k: Kmem, gone: seq<nat>): nat
    decreases |gone|
  {
    if gone == [] then 0 else PagesOf(k, gone[..|gone| - 1]) + Shl(1, CacheOf(k, gone[|gone| - 1]).order)
  }

  class SlabKernel {
    var cache: map<nat, Cache>
    var caches: seq<nat>                // slab_allocators
    var slab: map<nat, Slab>
    var ctl: map<nat, Bufctl>
    var buckets: seq<nat>               // kmalloc_allocators
    var header: map<nat, nat>           // the pointer kmalloc stores in front of a chunk
    ghost var loan: map<nat, nat>
    ghost var chain: map<nat, seq<nat>>
    ghost var owner: map<nat, nat>

    ghost function View(): Kmem
      reads this
    {
      Kmem(cache, caches, slab, ctl, loan, chain, owner)
    }

    constructor ()
      ensures View() == Kmem(map[], [], map[], map[], map[], map[], map[]) && buckets == [] && header == map[]
    {
      cache, caches, slab, ctl, buckets, header := map[], [], map[], map[], [], map[];
      loan, chain, owner := map[], map[], map[];
    }

    /** _allocator_init on the memory at c; false is the panic of _calc_slab_size */
    method AllocatorInit(c: nat, size: nat) returns (ok: bool)
      requires size + 2 * REDZONE + BUFCTL + SLAB < 0x1_0000_0000
      modifies this`cache, this`caches
      ensures ok <==> !(BlockSize(PAGE_NSIZES - 1) < size + 2 * REDZONE + BUFCTL + SLAB < 0x8000_0000)
      ensures !ok ==> View() == old(View())
      ensures ok ==>
        c in cache && View() == NewCache(old(View()), c, size + 2 * REDZONE, cache[c].order, cache[c].nobjs)
      ensures ok && size + 2 * REDZONE + BUFCTL + SLAB < 0x8000_0000 ==>
        cache[c].nobjs >= 1 && cache[c].nobjs == SlabNobjs(size + 2 * REDZONE, cache[c].order)
    {
      var r := CalcSlabSize(size + 2 * REDZONE);
      if r.None? {
        return false;
      }
      cache := cache[c := Cache(size + 2 * REDZONE, r.value.0, r.value.1, [])];
      caches := [c] + caches;
      return true;
    }

    /** _slab_allocator_grow; `block` is the answer of page_alloc_n */
    method GrowCache(c: nat, block: Option<nat>) returns (ok: bool)
      requires c in cache && cache[c].nobjs >= 1
      modifies this`cache, this`slab, this`ctl, this`loan, this`chain, this`owner
      ensures ok == block.Some?
      ensures View() == if ok then Grow(old(View()), c, block.value) else old(View())
    {
      if block.None? {
        return false;
      }
      var base, a := block.value, cache[c];
      var obj: nat := base;
      for i := 0 to a.nobjs - 1
        modifies this`ctl
        invariant Thread(ctl, obj, a.objsize, a.nobjs - i) == Thread(old(ctl), base, a.objsize, a.nobjs)
        invariant End(obj, Stride(a.objsize), a.nobjs - i) == End(base, Stride(a.objsize), a.nobjs)
      {
        var next := obj + Stride(a.objsize);
        ctl := ctl[obj + a.objsize := Bufctl(next, true)];
        obj := next;
      }
      ctl := ctl[obj + a.objsize := Bufctl(0, true)];
      var s := obj + Stride(a.objsize);
      assert End(obj, Stride(a.objsize), 1) == s;
      slab := slab[s := Slab(0, base, base)];
      cache := cache[c := a.(slabs := [s] + a.slabs)];
      loan, chain, owner := loan[base := Shl(1, a.order)], chain[s := Slots(base, Stride(a.objsize), a.nobjs)],
        owner[s := c];
      return true;
    }

    /** The search loop of slab_obj_alloc */
    method FindSlab(c: nat) returns (r: Option<nat>)
      requires c in cache && forall s <- cache[c].slabs :: s in slab && slab[s].inuse <= cache[c].nobjs
      ensures r == FirstRoom(slab, cache[c].slabs, cache[c].nobjs)
    {
      var slabs, nobjs := cache[c].slabs, cache[c].nobjs;
      var i := 0;
      while i < |slabs| && slab[slabs[i]].inuse == nobjs
        invariant i <= |slabs| && FirstRoom(slab, slabs[i..], nobjs) == FirstRoom(slab, slabs, nobjs)
      {
        i := i + 1;
      }
      if i < |slabs| && slab[slabs[i]].inuse < nobjs {
        return Some(slabs[i]);
      }
      return None;
    }

    /** The end of slab_obj_alloc: an object of slab s */
    method TakeObject(c: nat, s: nat) returns (p: nat)
      requires c in cache && s in slab && s in chain && s in owner && owner[s] == c &&
        slab[s].free + cache[c].objsize in ctl
      modifies this`slab, this`ctl, this`chain
      ensures View() == Pop(old(View()), s) && p == old(slab[s].free) + REDZONE
    {
      var obj := slab[s].free;
      var a := obj + cache[c].objsize;
      var next := ctl[a].ptr;
      slab := slab[s := slab[s].(free := next)];
      ctl := ctl[a := Bufctl(s, false)];
      slab := slab[s := slab[s].(inuse := slab[s].inuse + 1)];
      chain := chain[s := Tail(chain[s])];
      assert slab == old(slab)[s := old(slab)[s].(inuse := old(slab)[s].inuse + 1, free := next)];
      return obj + REDZONE;
    }

    /** slab_obj_alloc */
    method ObjAlloc(c: nat, block: Option<nat>) returns (r: Option<nat>)
      requires Ready(View(), c, block)
      modifies this`cache, this`slab, this`ctl, this`loan, this`chain, this`owner
      ensures var k := Supplied(old(View()), c, block);
        if RoomIn(k, c).None? then r == None && View() == old(View())
        else r == Some(SlabAt(k, RoomIn(k, c).value).free + REDZONE) && View() == Pop(k, RoomIn(k, c).value)
    {
      var found := FindSlab(c);
      while found.None?
        invariant c in cache && found == RoomIn(View(), c)
        invariant View() == if found.None? then old(View()) else Supplied(old(View()), c, block)
        decreases found.None?
      {
        var grown := GrowCache(c, block);
        if !grown {
          return None;
        }
        found := FindSlab(c);
      }
      var p := TakeObject(c, found.value);
      return Some(p);
    }

    /** slab_obj_free. The flag of the control word catches an object that is already free. */
    method ObjFree(c: nat, p: nat)
      requires c in cache && p >= REDZONE && p - REDZONE + cache[c].objsize in ctl &&
        !ctl[p - REDZONE + cache[c].objsize].free
      requires var s := ctl[p - REDZONE + cache[c].objsize].ptr; s in slab && s in chain
      modifies this`slab, this`ctl, this`chain
      ensures View() == Push(old(View()), p - REDZONE, p - REDZONE + cache[c].objsize)
    {
      var obj := p - REDZONE;
      var a := obj + cache[c].objsize;
      var s := ctl[a].ptr;
      ctl := ctl[a := Bufctl(slab[s].free, true)];
      slab := slab[s := slab[s].(free := obj)];
      slab := slab[s := slab[s].(inuse := slab[s].inuse - 1)];
      chain := chain[s := [obj] + chain[s]];
      assert slab == old(slab)[s := old(slab)[s].(inuse := old(slab)[s].inuse - 1, free := obj)];
    }

    /** What slab_allocators_reclaim does with the j-th slab of allocator c when it is idle */
    method DropSlab(c: nat, j: nat) returns (npages: nat)
      requires c in cache && j < |cache[c].slabs| && Distinct(cache[c].slabs)
      requires var s := cache[c].slabs[j]; s in slab && s in owner && owner[s] == c
      requires var b := slab[cache[c].slabs[j]].addr; b in loan && loan[b] == Shl(1, cache[c].order)
      modifies this`cache, this`slab, this`loan, this`chain, this`owner
      ensures View() == Drop(old(View()), old(cache[c].slabs[j])) && npages == Shl(1, old(cache[c].order))
    {
      var slabs := cache[c].slabs;
      var s := slabs[j];
      UnlinkSplit(slabs, j);
      cache := cache[c := cache[c].(slabs := slabs[..j] + slabs[j + 1..])];
      npages := Shl(1, cache[c].order);
      ReturnBlock(slab[s].addr, npages);
      slab, chain, owner := slab - {s}, chain - {s}, owner - {s};
    }

    /** page_free_n: a block goes back with the size it was taken with */
    ghost method ReturnBlock(b: nat, npages: nat)
      requires b in loan && loan[b] == npages
      modifies this`loan
      ensures loan == old(loan) - {b}
    {
      loan := loan - {b};
    }

    /** One turn of the loop over the slabs of one allocator */
    method SweepSlab(c: nat, j: nat, ghost p: Sweep) returns (j': nat, npages: nat, ghost q: Sweep)
      requires p.now == View() && p.i < |p.now.caches| && c == p.now.caches[p.i] && p.j == j
      requires c in cache && j < |cache[c].slabs|
      requires p.target > 0 ==> PagesOf(p.start, p.gone) < p.target
      modifies this`cache, this`slab, this`loan, this`chain, this`owner
      ensures q.now == View() && q.start == p.start && q.target == p.target && q.i == p.i && q.j == j'
      ensures caches == old(caches) && c in cache && PagesOf(q.start, q.gone) == PagesOf(p.start, p.gone) + npages
      ensures |cache[c].slabs| - j' < |old(cache)[c].slabs| - j && j' <= |cache[c].slabs|
    {
      SweepReady(p);
      if slab[cache[c].slabs[j]].inuse == 0 {
        q := SweptIdle(p);
        npages := DropSlab(c, j);
        j' := j;
        SweepReady(q);
        UnlinkRemoves(p.now.cache[c].slabs, p.now.cache[c].slabs[j]);
      } else {
        q := SweptBusy(p);
        npages, j' := 0, j + 1;
      }
    }

    /** The loop over the slabs of one allocator. It stops early when the target is met. */
    method SweepCache(i: nat, target: int, freed0: nat, ghost p: Sweep) returns (freed: nat, ghost q: Sweep)
      requires p.now == View() && p.i == i < |caches| && p.j == 0 && freed0 == PagesOf(p.start, p.gone)
      requires p.target == target && (target > 0 ==> freed0 < target)
      modifies this`cache, this`slab, this`loan, this`chain, this`owner
      ensures q.now == View() && q.start == p.start && q.target == target && freed == PagesOf(q.start, q.gone)
      ensures target <= 0 || freed < target ==> q.i == i + 1 && q.j == 0
    {
      var c := caches[i];
      freed, q := freed0, p;
      var j := 0;
      SweepReady(q);
      while j < |cache[c].slabs|
        invariant c in cache && j <= |cache[c].slabs| && q.now == View()
        invariant q.start == p.start && q.target == target && q.i == i && q.j == j
        invariant freed == PagesOf(q.start, q.gone) && (target > 0 ==> freed < target)
        decreases |cache[c].slabs| - j
      {
        var npages;
        j, npages, q := SweepSlab(c, j, q);
        freed := freed + npages;
        if target > 0 && freed >= target {
          return;
        }
      }
      q := SweptCache(q);
    }

    /** slab_allocators_reclaim. Only slabs without live objects go, with their blocks; no object dies.
        Unless the target was met no idle slab is left, and the last block that went was needed to
        meet it. */
    method Reclaim(target: int) returns (freed: nat, ghost gone: seq<nat>)
      requires KmemOk(View())
      modifies this`cache, this`slab, this`loan, this`chain, this`owner
      ensures KmemOk(View()) && View() == DropAll(old(View()), gone) && freed == PagesOf(old(View()), gone)
      ensures AllIdle(old(View()), gone) && SameLive(old(View()), View())
      ensures target <= 0 || freed < target ==> forall s :: s in slab ==> slab[s].inuse != 0
      ensures target > 0 && gone != [] ==> PagesOf(old(View()), gone[..|gone| - 1]) < target
    {
      freed := 0;
      ghost var p := SweepStart(View(), target);
      for i := 0 to |caches|
        invariant p.now == View() && p.start == old(View()) && p.target == target && p.i == i && p.j == 0
        invariant freed == PagesOf(p.start, p.gone) && (target > 0 ==> freed < target)
      {
        freed, p := SweepCache(i, target, freed, p);
        if target > 0 && freed >= target {
          SweepMeans(p);
          return freed, p.gone;
        }
      }
      SweepMeans(p);
      gone := p.gone;
    }

    /** The body of kmalloc for the bucket c */
    method TakeChunk(c: nat, block: Option<nat>) returns (r: Chunk)
      requires Ready(View(), c, block)
      modifies this`cache, this`slab, this`ctl, this`loan, this`chain, this`owner, this`header
      ensures !r.Panic? && (View(), header, r) == Kmalloced(old(View()), old(header), c, block)
    {
      var addr := ObjAlloc(c, block);
      if addr.None? {
        return Null;
      }
      header := header[addr.value := c];
      return At(addr.value + POINTER_SIZE);
    }

    /** kmalloc; `pages` is the page allocator's answer for each order. The chunk comes from the
        smallest bucket that holds the size and a pointer, computed in 32 bits. */
    method Kmalloc(size: nat, pages: nat -> Option<nat>) returns (r: Chunk, ghost bucket: nat)
      requires size < 0x1_0000_0000 && |buckets| == KMALLOC_MAX_ORDER - KMALLOC_MIN_ORDER + 1
      requires forall c <- buckets :: c in cache && Ready(View(), c, pages(cache[c].order))
      modifies this`cache, this`slab, this`ctl, this`loan, this`chain, this`owner, this`header
      ensures r.Panic? <==> Shl(1, KMALLOC_MAX_ORDER) < (size + POINTER_SIZE) % 0x1_0000_0000
      ensures r.Panic? ==> View() == old(View()) && header == old(header)
      ensures !r.Panic? ==>
        && bucket < |old(buckets)| && Shl(1, KMALLOC_MIN_ORDER + bucket) >= (size + POINTER_SIZE) % 0x1_0000_0000
        && (forall o :: KMALLOC_MIN_ORDER <= o < KMALLOC_MIN_ORDER + bucket ==>
          Shl(1, o) < (size + POINTER_SIZE) % 0x1_0000_0000)
        && old(buckets)[bucket] in old(cache)
        && (View(), header, r) ==
           Kmalloced(old(View()), old(header), old(buckets)[bucket], pages(old(cache)[old(buckets)[bucket]].order))
    {
      var need := (size + POINTER_SIZE) % 0x1_0000_0000;
      bucket := 0;
      for order := KMALLOC_MIN_ORDER to KMALLOC_MAX_ORDER + 1
        invariant forall o :: KMALLOC_MIN_ORDER <= o < order ==> Shl(1, o) < need
        invariant View() == old(View()) && header == old(header)
      {
        if Shl(1, order) >= need {
          bucket := order - KMALLOC_MIN_ORDER;
          LargestFits(order, need);
          var c := buckets[order - KMALLOC_MIN_ORDER];
          r := TakeChunk(c, pages(cache[c].order));
          return;
        }
      }
      return Panic, 0;
    }

    /** kfree */
    method Kfree(addr: nat)
      requires addr >= POINTER_SIZE + REDZONE && addr - POINTER_SIZE in header && header[addr - POINTER_SIZE] in cache
      requires var a := addr - POINTER_SIZE - REDZONE + cache[header[addr - POINTER_SIZE]].objsize;
        a in ctl && !ctl[a].free && ctl[a].ptr in slab && ctl[a].ptr in chain
      modifies this`slab, this`ctl, this`chain
      ensures View() == KfreeOf(old(View()), old(header), addr)
    {
      var p := addr - POINTER_SIZE;
      ObjFree(header[p], p);
    }
  }

  lemma LargestFits(order: nat, need: nat)
    requires order <= KMALLOC_MAX_ORDER && Shl(1, order) >= need
    ensures Shl(1, KMALLOC_MAX_ORDER) >= need
  {
    ShlGrows(1, order, KMALLOC_MAX_ORDER);
  }

  /** What kmalloc leaves behind when it takes from allocator c: heap, headers and answer. */
  ghost function Kmalloced(k: Kmem, header: map<nat, nat>, c: nat, block: Option<nat>): (Kmem, map<nat, nat>, Chunk)
    requires c in k.cache
  {
    var k1 := Supplied(k, c, block);
    match RoomIn(k1, c)
    case None => (k, header, Null)
    case Some(s) => TakenFrom(k1, header, c, s)
  }

  ghost function TakenFrom(k: Kmem, header: map<nat, nat>, c: nat, s: nat): (Kmem, map<nat, nat>, Chunk) {
    var p := SlabAt(k, s).free + REDZONE;
    (Pop(k, s), header[p := c], At(p + POINTER_SIZE))
  }

  /** kfree of the chunk r can find what it reads, and leads back to heap k. */
  ghost predicate FreesTo(done: (Kmem, map<nat, nat>, Chunk), k: Kmem) {
    var (k', header, r) := done;
    && r.At? && r.addr >= POINTER_SIZE + REDZONE && r.addr - POINTER_SIZE in header
    && header[r.addr - POINTER_SIZE] in k'.cache && KfreeOf(k', header, r.addr) == k
  }

  function KfreeOf(k: Kmem, header: map<nat, nat>, addr: nat): Kmem
    requires addr >= POINTER_SIZE + REDZONE && addr - POINTER_SIZE in header && header[addr - POINTER_SIZE] in k.cache
  {
    var obj := addr - POINTER_SIZE - REDZONE;
    Push(k, obj, obj + k.cache[header[addr - POINTER_SIZE]].objsize)
  }

  /** kfree undoes kmalloc: every word, list and count is as before, or as right after the allocator
      grew. */
  lemma KfreeUndoes(k: Kmem, header: map<nat, nat>, c: nat, block: Option<nat>)
    requires KmemOk(k) && c in k.cache && (block.Some? ==> FreshBlock(k, block.value, k.cache[c].order))
    ensures Kmalloced(k, header, c, block).2.At? ==> FreesTo(Kmalloced(k, header, c, block), Supplied(k, c, block))
  {
    var k1 := Supplied(k, c, block);
    if RoomIn(k1, c).Some? {
      RoomOwned(k, c, block);
      UndoTake(k1, header, c, RoomIn(k1, c).value);
    }
  }

  lemma RoomOwned(k: Kmem, c: nat, block: Option<nat>)
    requires KmemOk(k) && c in k.cache && (block.Some? ==> FreshBlock(k, block.value, k.cache[c].order))
    requires RoomIn(Supplied(k, c, block), c).Some?
    ensures var k1 := Supplied(k, c, block);
      var s := RoomIn(k1, c).value;
      KmemOk(k1) && HasRoom(k1, s) && s in k1.owner && k1.owner[s] == c && c in k1.cache
  {
    AllocMeans(k, c, block);
  }

  lemma UndoTake(k: Kmem, header: map<nat, nat>, c: nat, s: nat)
    requires KmemOk(k) && HasRoom(k, s) && s in k.owner && k.owner[s] == c && c in k.cache
    ensures FreesTo(TakenFrom(k, header, c, s), k)
  {
    PushPop(k, s);
  }

  /** A chunk from bucket `order` has room for the request behind its header exactly if the size did
      not wrap around. */
  lemma ChunkHolds(size: nat, order: nat)
    requires size < 0x1_0000_0000 && KMALLOC_MIN_ORDER <= order <= KMALLOC_MAX_ORDER
    requires Shl(1, order) >= (size + POINTER_SIZE) % 0x1_0000_0000
    ensures size <= Shl(1, order) - POINTER_SIZE <==> size + POINTER_SIZE < 0x1_0000_0000
  {
    ShlGrows(1, order, KMALLOC_MAX_ORDER);
    LargestBucket();
  }

  /** A request for 2^32 - 1 bytes is met with a chunk of the smallest bucket, 60 bytes behind the header. */
  lemma WrappedChunk()
    ensures Shl(1, KMALLOC_MIN_ORDER) >= (0xffff_ffff + POINTER_SIZE) % 0x1_0000_0000
    ensures Shl(1, KMALLOC_MIN_ORDER) - POINTER_SIZE == 60
  {
    assert Shl(1, 6) == Shl(2, 5) == Shl(4, 4) == Shl(8, 3) == Shl(16, 2) == Shl(32, 1);
  }

  lemma LargestBucket()
    ensures Shl(1, KMALLOC_MAX_ORDER) == 0x4_0000
  {
    assert Shl(1, 18) == Shl(2, 17) == Shl(4, 16) == Shl(8, 15) == Shl(16, 14);
    assert Shl(16, 14) == Shl(32, 13) == Shl(64, 12) == Shl(128, 11) == Shl(256, 10);
    assert Shl(256, 10) == Shl(512, 9) == Shl(1024, 8) == Shl(2048, 7) == Shl(4096, 6);
    assert Shl(4096, 6) == Shl(8192, 5) == Shl(16384, 4) == Shl(32768, 3);
    assert Shl(32768, 3) == Shl(65536, 2) == Shl(131072, 1) == Shl(262144, 0);
  }

  // ---- The sweep of slab_allocators_reclaim ----

  /** A point of the sweep: what it started from, what there is now, the slabs that went, and the
      place it has reached: slab j of the i-th allocator. */
  datatype Point = Point(start: GoodKmem, now: GoodKmem, gone: seq<nat>, target: int, i: nat, j: nat)

  ghost predicate Busy(k: Kmem, s: nat) {
    SlabAt(k, s).inuse != 0
  }

  ghost predicate SweepOk(p: Point) {
    && p.now == DropAll(p.start, p.gone) && p.now.caches == p.start.caches
    && AllIdle(p.start, p.gone) && SameLive(p.start, p.now) && Shrunk(p.start, p.now)
    && (p.target > 0 && p.gone != [] ==> PagesOf(p.start, p.gone[..|p.gone| - 1]) < p.target)
    && ReachedBusy(p.now, p.i, p.j)
  }

  ghost predicate AllIdle(k: Kmem, gone: seq<nat>) {
    forall s <- gone :: s in k.slab && SlabAt(k, s).inuse == 0
  }

  ghost predicate SameLive(k: Kmem, k': Kmem) {
    forall s, x :: Live(k', s, x) <==> Live(k, s, x)
  }

  /** Slabs may have gone; those that stay are as before. */
  ghost predicate Shrunk(k: Kmem, k': Kmem) {
    forall s {:trigger SlabAt(k', s)} :: s in k'.slab ==>
      s in k.slab && SlabAt(k', s) == SlabAt(k, s) && CacheOf(k', s).order == CacheOf(k, s).order
  }

  /** Every slab before the place (i, j) of the sweep is busy. */
  ghost predicate ReachedBusy(k: Kmem, i: nat, j: nat) {
    && i <= |k.caches| && (forall n :: 0 <= n < i ==> NoneIdle(k, k.caches[n]))
    && (if i < |k.caches| then Passed(k, k.caches[i], j) else j == 0)
  }

  /** The first j slabs of allocator c are busy; all of them are. */
  ghost predicate Passed(k: Kmem, c: nat, j: nat) {
    c in k.cache && j <= |k.cache[c].slabs| && forall m :: 0 <= m < j ==> Busy(k, k.cache[c].slabs[m])
  }

  ghost predicate NoneIdle(k: Kmem, c: nat) {
    c in k.cache ==> forall s <- k.cache[c].slabs :: Busy(k, s)
  }

  type Sweep = p: Point | SweepOk(p)
    ghost witness Point(Kmem(map[], [], map[], map[], map[], map[], map[]),
      Kmem(map[], [], map[], map[], map[], map[], map[]), [], 0, 0, 0)

  /** What the sweep finds at its place. */
  lemma SweepReady(p: Sweep)
    requires p.i < |p.now.caches|
    ensures var c := p.now.caches[p.i];
      && c in p.now.cache && Distinct(p.now.cache[c].slabs) && p.j <= |p.now.cache[c].slabs|
      && (p.j < |p.now.cache[c].slabs| ==>
            var s := p.now.cache[c].slabs[p.j];
            && s in p.now.slab && s in p.now.owner && p.now.owner[s] == c
            && p.now.slab[s].addr in p.now.loan && p.now.loan[p.now.slab[s].addr] == Shl(1, p.now.cache[c].order))
  {
    var c := p.now.caches[p.i];
    assert CacheOk(p.now, c);
    if p.j < |p.now.cache[c].slabs| {
      var s := p.now.cache[c].slabs[p.j];
      assert SlabOk(p.now, s, Body);
    }
  }

  lemma DropReached(k: Kmem, s: nat, i: nat, j: nat)
    requires ReachedBusy(k, i, j) && i < |k.caches| && Distinct(k.caches)
    requires k.caches[i] in k.cache && Distinct(k.cache[k.caches[i]].slabs) && j < |k.cache[k.caches[i]].slabs|
    requires s == k.cache[k.caches[i]].slabs[j] && s in k.owner && k.owner[s] == k.caches[i]
    requires forall n, t :: 0 <= n < i && k.caches[n] in k.cache && t in k.cache[k.caches[n]].slabs ==> t != s
    ensures ReachedBusy(Drop(k, s), i, j)
  {
    var c, k' := k.caches[i], Drop(k, s);
    var slabs := k.cache[c].slabs;
    UnlinkSplit(slabs, j);
    forall n | 0 <= n < i ensures NoneIdle(k', k'.caches[n]) {
      assert NoneIdle(k, k.caches[n]);
      if k.caches[n] in k.cache {
        forall t <- k'.cache[k.caches[n]].slabs ensures Busy(k', t) {
          assert Busy(k, t);
        }
      }
    }
    forall m | 0 <= m < j ensures Busy(k', k'.cache[c].slabs[m]) {
      assert Busy(k, slabs[m]);
    }
  }

  lemma DropShrunk(k0: Kmem, k: Kmem, s: nat)
    requires Shrunk(k0, k) && s in k.owner && k.owner[s] in k.cache && k.owner.Keys == k.slab.Keys
    ensures Shrunk(k0, Drop(k, s))
  {
    var k' := Drop(k, s);
    forall t | t in k'.slab
      ensures t in k0.slab && SlabAt(k', t) == SlabAt(k0, t) && CacheOf(k', t).order == CacheOf(k0, t).order
    {
      assert SlabAt(k', t) == SlabAt(k, t);
    }
  }

  lemma OwnersDiffer(k: Kmem, s: nat, i: nat)
    requires CachesOk(k) && i < |k.caches| && s in k.owner && k.owner[s] == k.caches[i]
    ensures forall n, t :: 0 <= n < i && k.caches[n] in k.cache && t in k.cache[k.caches[n]].slabs ==> t != s
  {
    forall n, t | 0 <= n < i && k.caches[n] in k.cache && t in k.cache[k.caches[n]].slabs ensures t != s {
      assert CacheOk(k, k.caches[n]);
    }
  }

  /** An idle slab goes; the place stays, and the next slab moves up to it. */
  lemma SweptIdle(p: Sweep) returns (q: Sweep)
    requires p.i < |p.now.caches| && p.now.caches[p.i] in p.now.cache && p.j < |p.now.cache[p.now.caches[p.i]].slabs|
    requires SlabAt(p.now, p.now.cache[p.now.caches[p.i]].slabs[p.j]).inuse == 0
    requires p.target > 0 ==> PagesOf(p.start, p.gone) < p.target
    ensures var c := p.now.caches[p.i]; var s := p.now.cache[c].slabs[p.j];
      && s in p.now.owner && p.now.owner[s] in p.now.cache
      && q.now == Drop(p.now, s) && q.gone == p.gone + [s] && q.start == p.start && q.target == p.target
      && q.i == p.i && q.j == p.j && PagesOf(q.start, q.gone) == PagesOf(p.start, p.gone) + Shl(1, p.now.cache[c].order)
  {
    var s := p.now.cache[p.now.caches[p.i]].slabs[p.j];
    SweptIdleParts(p, s);
    SweptGone(p, s);
    q := MakeSweep(p.(now := Drop(p.now, s), gone := p.gone + [s]));
  }

  lemma MakeSweep(p: Point) returns (q: Sweep)
    requires SweepOk(p)
    ensures q == p
  {
    q := p;
  }

  /** The slabs that are gone, and their pages */
  lemma SweptGone(p: Sweep, s: nat)
    requires s in p.now.slab && s in p.now.owner && p.now.owner[s] in p.now.cache && SlabAt(p.now, s).inuse == 0
    ensures var gone := p.gone + [s];
      && Drop(p.now, s) == DropAll(p.start, gone) && AllIdle(p.start, gone) && gone[..|gone| - 1] == p.gone
      && PagesOf(p.start, gone) == PagesOf(p.start, p.gone) + Shl(1, CacheOf(p.now, s).order)
  {
    var gone := p.gone + [s];
    assert gone[..|gone| - 1] == p.gone;
    assert SlabAt(p.now, s) == SlabAt(p.start, s);
  }

  lemma SweptIdleParts(p: Sweep, s: nat)
    requires p.i < |p.now.caches| && p.now.caches[p.i] in p.now.cache && p.j < |p.now.cache[p.now.caches[p.i]].slabs|
    requires s == p.now.cache[p.now.caches[p.i]].slabs[p.j] && SlabAt(p.now, s).inuse == 0
    ensures s in p.now.slab && s in p.now.owner && p.now.owner[s] == p.now.caches[p.i]
    ensures KmemOk(Drop(p.now, s)) && SameLive(p.start, Drop(p.now, s)) && Shrunk(p.start, Drop(p.now, s))
    ensures ReachedBusy(Drop(p.now, s), p.i, p.j)
  {
    SweepReady(p);
    DropOk(p.now, s);
    OwnersDiffer(p.now, s, p.i);
    DropReached(p.now, s, p.i, p.j);
    DropShrunk(p.start, p.now, s);
  }

  lemma SweptBusy(p: Sweep) returns (q: Sweep)
    requires p.i < |p.now.caches| && p.now.caches[p.i] in p.now.cache && p.j < |p.now.cache[p.now.caches[p.i]].slabs|
    requires SlabAt(p.now, p.now.cache[p.now.caches[p.i]].slabs[p.j]).inuse != 0
    ensures q == p.(j := p.j + 1)
  {
    assert ReachedBusy(p.now, p.i, p.j + 1);
    q := p.(j := p.j + 1);
  }

  lemma SweptCache(p: Sweep) returns (q: Sweep)
    requires p.i < |p.now.caches| && p.now.caches[p.i] in p.now.cache && p.j == |p.now.cache[p.now.caches[p.i]].slabs|
    ensures q == p.(i := p.i + 1, j := 0)
  {
    assert NoneIdle(p.now, p.now.caches[p.i]);
    assert p.i + 1 < |p.now.caches| ==> p.now.caches[p.i + 1] in p.now.caches;
    assert ReachedBusy(p.now, p.i + 1, 0);
    q := p.(i := p.i + 1, j := 0);
  }

  lemma SweepStart(k: GoodKmem, target: int) returns (p: Sweep)
    ensures p == Point(k, k, [], target, 0, 0)
  {
    assert 0 < |k.caches| ==> k.caches[0] in k.caches;
    p := Point(k, k, [], target, 0, 0);
  }

  lemma SweepMeans(p: Sweep)
    ensures KmemOk(p.now) && p.now == DropAll(p.start, p.gone) && AllIdle(p.start, p.gone) && SameLive(p.start, p.now)
    ensures p.target > 0 && p.gone != [] ==> PagesOf(p.start, p.gone[..|p.gone| - 1]) < p.target
    ensures p.i == |p.now.caches| ==> forall s :: s in p.now.slab ==> p.now.slab[s].inuse != 0
  {
    if p.i == |p.now.caches| {
      forall s | s in p.now.slab ensures p.now.slab[s].inuse != 0 {
        assert SlabOk(p.now, s, Body);
        var c := p.now.owner[s];
        assert c in p.now.caches;
        var n :| 0 <= n < |p.now.caches| && p.now.caches[n] == c;
        assert NoneIdle(p.now, p.now.caches[n]);
        assert Busy(p.now, s);
      }
    }
  }

  /** What slab_obj_alloc finds, before and after it grows the allocator. */
  lemma AllocReady(k: Kmem, c: nat, block: Option<nat>)
    requires KmemOk(k) && c in k.cache && (block.Some? ==> FreshBlock(k, block.value, k.cache[c].order))
    ensures Ready(k, c, block)
  {
    SearchReady(k, c);
    if RoomIn(k, c).None? && block.Some? {
      GrowOk(k, c, block.value);
      GrowRoom(k, c, block.value);
      SearchReady(Grow(k, c, block.value), c);
    }
  }

  /** The slabs on the list of c can be searched, before and after c gets a new slab, which has room. */
  ghost predicate Ready(k: Kmem, c: nat, block: Option<nat>) {
    && Searchable(k, c) && k.cache[c].nobjs >= 1
    && Searchable(Supplied(k, c, block), c) && (block.Some? ==> RoomIn(Supplied(k, c, block), c).Some?)
  }

  ghost predicate Searchable(k: Kmem, c: nat) {
    && c in k.cache
    && (forall s <- k.cache[c].slabs :: s in k.slab && k.slab[s].inuse <= k.cache[c].nobjs)
    && forall s <- k.cache[c].slabs :: s in k.chain && s in k.owner && k.owner[s] == c
         && (k.slab[s].inuse < k.cache[c].nobjs ==> k.slab[s].free + k.cache[c].objsize in k.ctl)
  }

  lemma SearchReady(k: Kmem, c: nat)
    requires KmemOk(k) && c in k.cache
    ensures Searchable(k, c) && k.cache[c].nobjs >= 1
  {
    assert CacheOk(k, c);
    forall s <- k.cache[c].slabs
      ensures k.slab[s].inuse <= k.cache[c].nobjs && s in k.chain
      ensures k.slab[s].inuse < k.cache[c].nobjs ==> k.slab[s].free + k.cache[c].objsize in k.ctl
    {
      BodyOf(k, s);
      if k.slab[s].inuse < k.cache[c].nobjs { FirstFree(k, s); }
    }
  }
}
