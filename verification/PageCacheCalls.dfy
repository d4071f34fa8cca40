/** The calls of pframe.c and vnode.c on a cache in use: each is one step of the runs of PageCacheRuns, so
    everything proved of runs holds of the cache that the code changes in place. */
module PageCacheCalls {
  import opened Basics
  import opened PageCacheState
  import opened PageCacheRuns
  import opened PageCaches

  /** pframe_get: the frame of the page, found or made; none if and only if there is none and memory is short. */
  method GetPage(cache: PageCache, o: nat, page: nat, memory: Option<nat>, ghost w: GoodWorld)
    returns (r: Option<nat>, ghost w': GoodWorld)
    requires cache.View() == w.c && o in w.c.vnode && !w.c.vnode[o].busy
    requires memory.Some? ==> memory.value !in w.c.frame
    modifies cache
    ensures cache.View() == w'.c
    ensures r.None? <==> !w.c.Resident(o, page) && (memory.None? || w.c.freePages <= 0)
    ensures r.None? ==> w' == w
    ensures r.Some? ==> w'.c.Holds(r.value, o, page) && w' == GotPage(w, r.value, o, page)
  {
    IndexedChain(w.c, o, page);
    r := cache.Get(o, page, memory);
    if r.None? {
      w' := w;
    } else {
      if w.c.Resident(o, page) {
        OpKeeps(w, Request(r.value));
      } else {
        OpKeeps(w, Load(r.value, o, page));
      }
      w' := GotPage(w, r.value, o, page);
    }
  }

  ghost function GotPage(w: GoodWorld, f: nat, o: nat, page: nat): World {
    if f in w.c.frame then Do(w, Request(f))
    else if CanDo(w, Load(f, o, page)) then Do(w, Load(f, o, page)) else w
  }

  /** pframe_pin: from now on the frame is on the pinned list only. */
  method PinPage(cache: PageCache, f: nat, ghost w: GoodWorld) returns (ghost w': GoodWorld)
    requires cache.View() == w.c && f in w.c.frame
    modifies cache
    ensures cache.View() == w'.c && w' == Do(w, Op.PinPage(f)) && f in w'.c.pinned && f !in w'.c.alloc
  {
    OpKeeps(w, Op.PinPage(f));
    w' := Do(w, Op.PinPage(f));
    cache.PinFrame(f);
  }

  /** pframe_unpin: at the last unpin the frame goes to the back of the alloc list, as if just requested. */
  method UnpinPage(cache: PageCache, f: nat, ghost w: GoodWorld) returns (ghost w': GoodWorld)
    requires cache.View() == w.c && f in w.c.frame && w.c.frame[f].pin > 0
    modifies cache
    ensures cache.View() == w'.c && w' == Do(w, Op.UnpinPage(f))
    ensures if w.c.frame[f].pin == 1 then w'.c.alloc == w.c.alloc + [f] else w'.c.alloc == w.c.alloc && f in w'.c.pinned
  {
    OpKeeps(w, Op.UnpinPage(f));
    w' := Do(w, Op.UnpinPage(f));
    cache.UnpinFrame(f);
  }

  /** pframe_dirty */
  method DirtyPage(cache: PageCache, f: nat, ok: bool, ghost w: GoodWorld) returns (ghost w': GoodWorld)
    requires cache.View() == w.c && f in w.c.frame
    modifies cache
    ensures cache.View() == w'.c && w' == if ok then Do(w, MarkPage(f, true)) else w
  {
    if ok {
      OpKeeps(w, MarkPage(f, true));
      w' := Do(w, MarkPage(f, true));
    } else {
      w' := w;
    }
    cache.Dirty(f, ok);
  }

  /** pframe_clean: the page is clean if and only if it could be written. */
  method CleanPage(cache: PageCache, f: nat, ok: bool, ghost w: GoodWorld) returns (ghost w': GoodWorld)
    requires cache.View() == w.c && f in w.c.frame && w.c.frame[f].dirty && w.c.frame[f].pin == 0
    modifies cache
    ensures cache.View() == w'.c && w' == Do(w, MarkPage(f, !ok)) && w'.c.frame[f].dirty == !ok
  {
    OpKeeps(w, MarkPage(f, !ok));
    w' := Do(w, MarkPage(f, !ok));
    cache.Clean(f, ok);
  }

  /** pframe_free: the page is gone, its memory is back, and no vnode is torn down. */
  method FreePage(cache: PageCache, f: nat, ghost w: GoodWorld) returns (ghost w': GoodWorld)
    requires cache.View() == w.c && f in w.c.frame && w.c.frame[f].pin == 0
    modifies cache
    ensures cache.View() == w'.c && w' == Do(w, Op.FreePage(f)) && cache.teardowns == old(cache.teardowns)
  {
    FreeSound(w.c, f, w.active, w.stamp, w.clock);
    OpKeeps(w, Op.FreePage(f));
    w' := Do(w, Op.FreePage(f));
    cache.PframeFree(f);
  }

  /** pframe_migrate of a page the destination does not have */
  method MovePage(cache: PageCache, f: nat, dest: nat, ghost w: GoodWorld) returns (ghost w': GoodWorld)
    requires cache.View() == w.c && CanDo(w, Op.MovePage(f, dest))
    modifies cache
    ensures cache.View() == w'.c && w' == Do(w, Op.MovePage(f, dest)) && cache.teardowns == old(cache.teardowns)
  {
    ghost var o := w.c.frame[f].obj;
    MovedOwes(w.c, f, dest, w.active);
    assert CountOk(w.c.vnode[o], w.active[o]);
    OwnPages(w.c, o);
    assert f in w.c.vnode[o].res;
    IndexedHeld(w.c, o);
    OpKeeps(w, Op.MovePage(f, dest));
    w' := Do(w, Op.MovePage(f, dest));
    cache.RehomeFrame(f, dest);
  }

  /** vref: one more holder */
  method RefVnode(cache: PageCache, o: nat, ghost w: GoodWorld) returns (ghost w': GoodWorld)
    requires cache.View() == w.c && o in w.c.vnode && !w.c.vnode[o].busy
    modifies cache
    ensures cache.View() == w'.c && w' == Do(w, Op.RefVnode(o))
    ensures o in w.active && o in w'.active && w'.active[o] == w.active[o] + 1
  {
    Referenced(w, o);
    OpKeeps(w, Op.RefVnode(o));
    w' := Do(w, Op.RefVnode(o));
    cache.Vref(o);
  }

  /** vput by a holder: with the last holder an unlinked vnode goes, with all its pages, in one teardown; a
      linked one goes if it has no page. No other vnode goes or comes. */
  method PutVnode(cache: PageCache, o: nat, ghost w: GoodWorld) returns (ghost w': GoodWorld)
    requires cache.View() == w.c && CanDo(w, Op.PutVnode(o))
    modifies cache
    ensures cache.View() == w'.c && w' == Do(w, Op.PutVnode(o))
    ensures cache.teardowns == old(cache.teardowns) + if Doomed(w.c.vnode[o]) then 1 else 0
    ensures o !in w'.c.vnode <==> w.active[o] == 1 && (!w.c.vnode[o].linked || w.c.vnode[o].res == [])
    ensures forall q :: q != o ==> (q in w'.c.vnode <==> q in w.c.vnode)
  {
    DropSound(w.c, o, w.active, w.stamp, w.clock);
    OpKeeps(w, Op.PutVnode(o));
    assert CountOk(w.c.vnode[o], w.active[o]);
    PutMeans(w.c, o, w.active[o] - 1);
    w' := Do(w, Op.PutVnode(o));
    cache.Vput(o);
  }

  /** vget: a vnode in use gets a holder, one being read in is waited for, and otherwise a new one is put on
      the list if there is memory for it; there is never a second one of the same file. */
  method GetVnode(cache: PageCache, fs: nat, vno: nat, memory: Option<nat>, ghost w: GoodWorld)
    returns (r: Lookup, ghost w': GoodWorld)
    requires cache.View() == w.c && (memory.Some? ==> memory.value !in w.c.vnode)
    modifies cache
    ensures cache.View() == w'.c
    ensures match r
      case Found(o) => o in w.c.vnode && !w.c.vnode[o].busy && IsFile(w.c, o, fs, vno) && w' == Do(w, Op.RefVnode(o))
      case Wait(o) => o in w.c.vnode && w.c.vnode[o].busy && IsFile(w.c, o, fs, vno) && w' == w
      case Retry => memory.None? && w' == w && forall o :: !IsFile(w.c, o, fs, vno)
      case Started(o) => memory == Some(o) && CanDo(w, StartVnode(o, fs, vno)) && w' == Do(w, StartVnode(o, fs, vno))
  {
    AllCounted(w);
    r := cache.VgetStart(fs, vno, memory);
    match r
    case Found(o) =>
      OpKeeps(w, Op.RefVnode(o));
      w' := Do(w, Op.RefVnode(o));
    case Wait(_) => w' := w;
    case Retry => w' := w;
    case Started(o) =>
      OpKeeps(w, StartVnode(o, fs, vno));
      w' := Do(w, StartVnode(o, fs, vno));
  }

  ghost predicate IsFile(c: Cache, o: nat, fs: nat, vno: nat) {
    o in c.vnode && c.vnode[o].fs == fs && c.vnode[o].vno == vno
  }

  lemma Referenced(w: GoodWorld, o: nat)
    requires o in w.c.vnode && !w.c.vnode[o].busy
    ensures w.c.vnode[o].refcount > 0 && o in w.active
  {
    assert CountOk(w.c.vnode[o], w.active[o]);
    OwnPages(w.c, o);
  }

  lemma AllCounted(w: GoodWorld)
    ensures forall o :: o in w.c.inuse <==> o in w.c.vnode
    ensures forall o <- w.c.inuse :: !w.c.vnode[o].busy ==> w.c.vnode[o].refcount > 0
  {
    forall o | o in w.c.inuse && !w.c.vnode[o].busy ensures w.c.vnode[o].refcount > 0 {
      Referenced(w, o);
    }
  }

  /** The end of vget: the vnode read in has its first holder. */
  method FinishVnode(cache: PageCache, o: nat, ghost w: GoodWorld) returns (ghost w': GoodWorld)
    requires cache.View() == w.c && o in w.c.vnode && w.c.vnode[o].busy
    modifies cache
    ensures cache.View() == w'.c && w' == Do(w, Op.FinishVnode(o)) && o in w'.active && w'.active[o] == 1
  {
    OpKeeps(w, Op.FinishVnode(o));
    w' := Do(w, Op.FinishVnode(o));
    cache.VgetFinish(o);
  }
}
