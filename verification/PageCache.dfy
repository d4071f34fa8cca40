/** pframe.c and vnode.c: the page frame cache, changed in place, with the vnodes its pages belong to.
    Each method is tied to the function that describes its effect; what these functions keep is the
    subject of PageCacheState and PageCacheRuns. */
module PageCaches {
  import opened Basics
  import opened Lists
  import opened PageCacheState

  class PageCache {
    var frame: map<nat, Frame>
    var alloc: seq<nat>            // alloc_list
    var pinned: seq<nat>           // pinned_list
    var nallocated: int
    var npinned: int
    var hash: seq<seq<nat>>        // pframe_hash
    var vnode: map<nat, Vnode>
    var inuse: seq<nat>            // vnode_inuse_list
    var freePages: int             // page_free_count()
    ghost var teardowns: nat       // how often vput took its teardown branch

    function View(): Cache
      reads this
    {
      Cache(frame, alloc, pinned, nallocated, npinned, hash, vnode, inuse, freePages)
    }

    /** pframe_init and vnode_init */
    constructor (freePages: int)
      ensures View() == Empty(freePages) && teardowns == 0
    {
      frame, alloc, pinned, nallocated, npinned := map[], [], [], 0, 0;
      hash := seq(HASH_SIZE, i => []);
      vnode, inuse := map[], [];
      this.freePages := freePages;
      teardowns := 0;
    }

    /** pframe_free, all but its last line. */
    method DetachFrame(f: nat)
      requires f in frame && frame[f].obj in vnode && |hash| == HASH_SIZE && vnode[frame[f].obj].nres > 0
      modifies this`frame, this`alloc, this`nallocated, this`hash, this`vnode, this`freePages
      ensures View() == Detach(old(View()), f)
    {
      var o, h := frame[f].obj, HashOf(frame[f].obj, frame[f].page);
      var v := vnode[o];
      hash := hash[h := Unlink(hash[h], f)];
      frame := frame - {f};
      nallocated := nallocated - 1;
      alloc := Unlink(alloc, f);
      freePages := freePages + 1;
      vnode := vnode[o := v.(nres := v.nres - 1, res := Unlink(v.res, f))];
    }

    /** pframe_free. Its last line re-enters vput. */
    method PframeFree(f: nat)
      requires f in frame && Held(View(), frame[f].obj) && f in vnode[frame[f].obj].res
      modifies this`frame, this`alloc, this`nallocated, this`hash, this`vnode, this`inuse, this`freePages,
        this`teardowns
      ensures View() == Put(Detach(old(View()), f), old(frame[f].obj))
      ensures teardowns == old(teardowns) + if Doomed(Detach(old(View()), f).vnode[old(frame[f].obj)]) then 1 else 0
      decreases |vnode[frame[f].obj].res|, 0
    {
      DetachHeld(View(), frame[f].obj, f);
      var o := frame[f].obj;
      DetachFrame(f);
      Vput(o);
    }

    /** vput from the point where the reference goes. */
    method LastPut(o: nat)
      requires o in vnode && vnode[o].refcount > 0
      modifies this`vnode, this`inuse
      ensures View() == Last(old(View()), o)
    {
      vnode := vnode[o := vnode[o].(refcount := vnode[o].refcount - 1)];
      if vnode[o].refcount > 0 {
        return;
      }
      inuse := Unlink(inuse, o);
      vnode := vnode - {o};
      assert vnode == old(vnode) - {o};
    }

    /** vput */
    method Vput(o: nat)
      requires Held(View(), o) && vnode[o].nres < vnode[o].refcount
      modifies this`frame, this`alloc, this`nallocated, this`hash, this`vnode, this`inuse, this`freePages,
        this`teardowns
      ensures View() == Put(old(View()), o)
      ensures teardowns == old(teardowns) + if old(Doomed(vnode[o])) then 1 else 0
      decreases |vnode[o].res|, 1
    {
      if vnode[o].nres == vnode[o].refcount - 1 && !vnode[o].linked {
        Teardown(o);
      }
      LastPut(o);
    }

    /** The teardown branch of vput: no second one starts while it runs, and it ends with one
        reference and no page. */
    method Teardown(o: nat)
      requires Held(View(), o) && Doomed(vnode[o])
      modifies this`frame, this`alloc, this`nallocated, this`hash, this`vnode, this`inuse, this`freePages,
        this`teardowns
      ensures View() == Evict(old(View()), o, old(vnode[o].res))
      ensures o in vnode && vnode[o].refcount == 1 && vnode[o].nres == 0 && vnode[o].res == []
      ensures teardowns == old(teardowns) + 1
      decreases |vnode[o].res|, 1, 0
    {
      ghost var start := View();
      teardowns := teardowns + 1;
      var pages := vnode[o].res;
      for i := 0 to |pages|
        invariant Held(View(), o) && vnode[o].res == pages[i..] && vnode[o].refcount == 1 + vnode[o].nres
        invariant Evict(View(), o, pages[i..]) == Evict(start, o, pages)
        invariant teardowns == old(teardowns) + 1
      {
        FreeInTeardown(View(), o);
        PframeFree(pages[i]);
      }
    }

    /** vref */
    method Vref(o: nat)
      requires o in vnode && vnode[o].refcount > 0
      modifies this`vnode
      ensures View() == AddRef(old(View()), o)
    {
      vnode := vnode[o := vnode[o].(refcount := vnode[o].refcount + 1)];
    }

    /** vget, up to the point where it returns, sleeps or has to read the vnode in. `memory` is the
        address the vnode allocator returns. */
    method VgetStart(fs: nat, vno: nat, memory: Option<nat>) returns (r: Lookup)
      requires forall o <- inuse :: o in vnode
      requires forall o <- inuse :: !vnode[o].busy ==> vnode[o].refcount > 0
      requires memory.Some? ==> memory.value !in vnode
      modifies this`vnode, this`inuse
      ensures match r
        case Found(o) => o in old(inuse) && !old(vnode)[o].busy && old(vnode)[o].fs == fs && old(vnode)[o].vno == vno
                         && View() == AddRef(old(View()), o)
        case Wait(o) => o in old(inuse) && old(vnode)[o].busy && old(vnode)[o].fs == fs && old(vnode)[o].vno == vno
                        && View() == old(View())
        case Retry => memory.None? && View() == old(View())
                      && forall o <- inuse :: !(vnode[o].fs == fs && vnode[o].vno == vno)
        case Started(o) => memory == Some(o) && View() == NewVnode(old(View()), o, fs, vno)
                           && forall q <- old(inuse) :: !(old(vnode)[q].fs == fs && old(vnode)[q].vno == vno)
    {
      for i := 0 to |inuse|
        invariant forall j :: 0 <= j < i ==> !(vnode[inuse[j]].fs == fs && vnode[inuse[j]].vno == vno)
      {
        var o := inuse[i];
        if vnode[o].fs == fs && vnode[o].vno == vno {
          if vnode[o].busy {
            return Wait(o);
          }
          Vref(o);
          return Found(o);
        }
      }
      if memory.None? {
        return Retry;
      }
      var o := memory.value;
      vnode := vnode[o := Vnode(fs, vno, true, 0, 0, [], true)];
      inuse := [o] + inuse;
      return Started(o);
    }

    /** The rest of vget, after read_vnode. */
    method VgetFinish(o: nat)
      requires o in vnode && vnode[o].busy
      modifies this`vnode
      ensures View() == Opened(old(View()), o)
    {
      vnode := vnode[o := vnode[o].(busy := false)];
      vnode := vnode[o := vnode[o].(refcount := 1)];
    }

    /** pframe_get_resident */
    method GetResident(o: nat, page: nat) returns (r: Option<nat>)
      requires ChainOk(View(), o, page)
      modifies this`alloc
      ensures r.None? ==> !View().Resident(o, page) && View() == old(View())
      ensures r.Some? ==> old(View()).Holds(r.value, o, page) && View() == Touch(old(View()), r.value)
    {
      var chain := hash[HashOf(o, page)];
      for i := 0 to |chain|
        invariant forall j :: 0 <= j < i ==> !(frame[chain[j]].obj == o && frame[chain[j]].page == page)
        invariant View() == old(View())
      {
        var f := chain[i];
        if o == frame[f].obj && page == frame[f].page {
          if frame[f].pin == 0 {
            alloc := Unlink(alloc, f) + [f];
          }
          return Some(f);
        }
      }
      return None;
    }

    /** pframe_alloc; `memory` is the address the frame allocator returns */
    method AllocFrame(o: nat, page: nat, memory: Option<nat>) returns (r: Option<nat>)
      requires o in vnode && |hash| == HASH_SIZE
      modifies this`frame, this`alloc, this`nallocated, this`hash, this`vnode, this`freePages
      ensures r == if memory.Some? && old(freePages) > 0 then memory else None
      ensures View() == if r.Some? then Attach(old(View()), r.value, o, page) else old(View())
    {
      if memory.None? || freePages <= 0 {
        return None;
      }
      var f, h := memory.value, HashOf(o, page);
      freePages := freePages - 1;
      nallocated := nallocated + 1;
      alloc := alloc + [f];
      frame := frame[f := Frame(o, page, 0, false)];
      hash := hash[h := [f] + hash[h]];
      var v := vnode[o];
      vnode := vnode[o := v.(refcount := v.refcount + 1, nres := v.nres + 1, res := [f] + v.res)];
      return memory;
    }

    /** pframe_get on pages that are not busy: the resident page, or a new frame for it. */
    method Get(o: nat, page: nat, memory: Option<nat>) returns (r: Option<nat>)
      requires o in vnode && ChainOk(View(), o, page)
      modifies this`frame, this`alloc, this`nallocated, this`hash, this`vnode, this`freePages
      ensures r.None? <==> !old(View()).Resident(o, page) && (memory.None? || old(freePages) <= 0)
      ensures r.None? ==> View() == old(View())
      ensures r.Some? && old(View()).Resident(o, page) ==>
        old(View()).Holds(r.value, o, page) && View() == Touch(old(View()), r.value)
      ensures r.Some? && !old(View()).Resident(o, page) ==>
        r == memory && View() == Attach(old(View()), r.value, o, page)
    {
      r := GetResident(o, page);
      if r.None? {
        r := AllocFrame(o, page, memory);
      }
    }

    /** pframe_pin */
    method PinFrame(f: nat)
      requires f in frame
      modifies this`frame, this`alloc, this`pinned, this`nallocated, this`npinned
      ensures View() == Pin(old(View()), f)
    {
      if frame[f].pin == 0 {
        alloc := Unlink(alloc, f);
        pinned := pinned + [f];
        nallocated := nallocated - 1;
        npinned := npinned + 1;
      }
      frame := frame[f := frame[f].(pin := frame[f].pin + 1)];
    }

    /** pframe_unpin */
    method UnpinFrame(f: nat)
      requires f in frame && frame[f].pin > 0
      modifies this`frame, this`alloc, this`pinned, this`nallocated, this`npinned
      ensures View() == Unpin(old(View()), f)
    {
      frame := frame[f := frame[f].(pin := frame[f].pin - 1)];
      if frame[f].pin == 0 {
        pinned := Unlink(pinned, f);
        alloc := alloc + [f];
        npinned := npinned - 1;
        nallocated := nallocated + 1;
      }
    }

    /** pframe_dirty; `ok` is the answer of the dirtypage operation */
    method Dirty(f: nat, ok: bool)
      requires f in frame
      modifies this`frame
      ensures View() == if ok then SetDirty(old(View()), f, true) else old(View())
    {
      if ok {
        frame := frame[f := frame[f].(dirty := true)];
      }
    }

    /** pframe_clean; `ok` is the answer of the cleanpage operation */
    method Clean(f: nat, ok: bool)
      requires f in frame && frame[f].dirty && frame[f].pin == 0
      modifies this`frame
      ensures View() == SetDirty(old(View()), f, !ok)
    {
      frame := frame[f := frame[f].(dirty := false)];
      if !ok {
        frame := frame[f := frame[f].(dirty := true)];
      }
      assert frame == old(frame)[f := old(frame)[f].(dirty := !ok)];
    }

    /** The else branch of pframe_migrate */
    method RehomeFrame(f: nat, dest: nat)
      requires f in frame && Held(View(), frame[f].obj) && f in vnode[frame[f].obj].res
      requires dest in vnode && dest != frame[f].obj && !Doomed(Moved(View(), f, dest).vnode[frame[f].obj])
      modifies this
      ensures View() == Rehome(old(View()), f, dest) && teardowns == old(teardowns)
    {
      MovedHeld(View(), f, dest);
      var src := frame[f].obj;
      TakeFrame(f, dest);
      Vput(src);
      AdoptFrame(f, dest);
    }

    /** Off the chain and the page list of its object */
    method TakeFrame(f: nat, dest: nat)
      requires f in frame && Held(View(), frame[f].obj) && f in vnode[frame[f].obj].res
      modifies this`frame, this`hash, this`vnode
      ensures View() == Moved(old(View()), f, dest)
    {
      var src, h := frame[f].obj, HashOf(frame[f].obj, frame[f].page);
      assert vnode[src].nres > 0;
      frame := frame[f := frame[f].(obj := dest)];
      hash := hash[h := Unlink(hash[h], f)];
      vnode := vnode[src := vnode[src].(nres := vnode[src].nres - 1, res := Unlink(vnode[src].res, f))];
    }

    /** On the chain and the page list of `dest` */
    method AdoptFrame(f: nat, dest: nat)
      requires f in frame && dest in vnode && |hash| == HASH_SIZE
      modifies this`hash, this`vnode
      ensures View() == Adopt(old(View()), f, dest)
    {
      var k := HashOf(dest, frame[f].page);
      hash := hash[k := [f] + hash[k]];
      vnode := vnode[dest := vnode[dest].(res := [f] + vnode[dest].res, nres := vnode[dest].nres + 1,
                                          refcount := vnode[dest].refcount + 1)];
    }

    /** The other branch: `dest` has the page, so f is unpinned, cleaned and freed. */
    method DiscardFrame(f: nat, ok: bool)
      requires f in frame && Held(View(), frame[f].obj) && f in vnode[frame[f].obj].res
      requires frame[f].pin == 1 && frame[f].dirty
      modifies this
      ensures View() == Put(Detach(SetDirty(Unpin(old(View()), f), f, !ok), f), old(frame[f].obj))
    {
      UnpinFrame(f);
      Clean(f, ok);
      PframeFree(f);
    }

    /** pframe_migrate; `found` is the frame with which `dest` already holds the page */
    method Migrate(f: nat, dest: nat, ok: bool) returns (found: Option<nat>)
      requires f in frame && Held(View(), frame[f].obj) && f in vnode[frame[f].obj].res
      requires dest in vnode && ChainOk(View(), dest, frame[f].page)
      requires if View().Resident(dest, frame[f].page) then frame[f].pin == 1 && frame[f].dirty
               else dest != frame[f].obj && !Doomed(Moved(View(), f, dest).vnode[frame[f].obj])
      modifies this
      ensures found.None? ==> !old(View()).Resident(dest, old(frame[f].page)) && View() == Rehome(old(View()), f, dest)
      ensures found.Some? ==>
        && old(View()).Holds(found.value, dest, old(frame[f].page))
        && View() == Put(Detach(SetDirty(Unpin(Touch(old(View()), found.value), f), f, !ok), f), old(frame[f].obj))
    {
      found := GetResident(dest, frame[f].page);
      if found.Some? {
        DiscardFrame(f, ok);
      } else {
        RehomeFrame(f, dest);
      }
    }
  }
}
