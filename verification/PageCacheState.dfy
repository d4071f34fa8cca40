/** The page frame cache and the vnodes that own its pages, as a value: what each operation does
    to the lists, hash chains and counters, and why they stay in step. */
module PageCacheState {
  import opened Lists

  const HASH_SIZE: nat := 17    // PF_HASH_SIZE

  /** A page frame; frames and vnodes are named by their addresses. */
  datatype Frame = Frame(obj: nat, page: nat, pin: nat, dirty: bool)

  /** A vnode with its memory object: reference count, resident pages, and what query_vnode says. */
  datatype Vnode = Vnode(fs: nat, vno: nat, busy: bool, refcount: nat, nres: nat, res: seq<nat>, linked: bool)

  /** hash_page, with the 32-bit sum of the source */
  function HashOf(obj: nat, page: nat): (h: nat)
    ensures h < HASH_SIZE
  {
    (obj + page) % 0x1_0000_0000 % HASH_SIZE
  }

  datatype Cache = Cache(
    frame: map<nat, Frame>, alloc: seq<nat>, pinned: seq<nat>, nallocated: int, npinned: int,
    hash: seq<seq<nat>>, vnode: map<nat, Vnode>, inuse: seq<nat>, freePages: int) {

    /** The frame holding page `page` of object `obj`. */
    ghost predicate Holds(f: nat, obj: nat, page: nat) {
      f in frame && frame[f].obj == obj && frame[f].page == page
    }

    ghost predicate Resident(obj: nat, page: nat) {
      exists f :: Holds(f, obj, page)
    }
  }

  /** No page has two frames. */
  ghost predicate IdsOk(frame: map<nat, Frame>) {
    forall f, g {:trigger SamePage(frame, f, g)} :: SamePage(frame, f, g) ==> f == g
  }

  ghost predicate SamePage(frame: map<nat, Frame>, f: nat, g: nat) {
    f in frame && g in frame && frame[f].obj == frame[g].obj && frame[f].page == frame[g].page
  }

  /** Frames with pin count 0 are on the alloc list, the others on the pinned list, once each. */
  ghost predicate ListsOk(frame: map<nat, Frame>, alloc: seq<nat>, pinned: seq<nat>) {
    && Distinct(alloc) && Distinct(pinned)
    && (forall f :: f in alloc <==> f in frame && frame[f].pin == 0)
    && (forall f :: f in pinned <==> f in frame && frame[f].pin > 0)
  }

  /** Each frame is in the hash chain of its identity, once, and in no other. */
  ghost predicate HashOk(frame: map<nat, Frame>, hash: seq<seq<nat>>) {
    && |hash| == HASH_SIZE
    && (forall h :: 0 <= h < |hash| ==> Distinct(hash[h]))
    && (forall h, f {:trigger f in hash[h]} :: 0 <= h < |hash| ==>
          (f in hash[h] <==> f in frame && HashOf(frame[f].obj, frame[f].page) == h))
  }

  /** Each vnode lists exactly its own frames. */
  ghost predicate OwnedOk(frame: map<nat, Frame>, vnode: map<nat, Vnode>) {
    && (forall f :: f in frame ==> frame[f].obj in vnode)
    && (forall o :: o in vnode ==> OwnsOk(frame, o, vnode[o]))
  }

  ghost predicate OwnsOk(frame: map<nat, Frame>, o: nat, v: Vnode) {
    && Distinct(v.res) && v.nres == |v.res|
    && forall f :: f in v.res <==> f in frame && frame[f].obj == o
  }

  /** The vnodes on the in-use list, one per (fs, vno). */
  ghost predicate InuseOk(vnode: map<nat, Vnode>, inuse: seq<nat>) {
    && Distinct(inuse)
    && (forall o :: o in inuse <==> o in vnode)
    && (forall o, q {:trigger SameFile(vnode, o, q)} :: SameFile(vnode, o, q) ==> o == q)
  }

  ghost predicate SameFile(vnode: map<nat, Vnode>, o: nat, q: nat) {
    o in vnode && q in vnode && vnode[o].fs == vnode[q].fs && vnode[o].vno == vnode[q].vno
  }

  ghost predicate Indexed(c: Cache) {
    && IdsOk(c.frame) && ListsOk(c.frame, c.alloc, c.pinned) && HashOk(c.frame, c.hash)
    && OwnedOk(c.frame, c.vnode) && InuseOk(c.vnode, c.inuse)
    && c.nallocated == |c.alloc| && c.npinned == |c.pinned|
  }

  /** refcount - nrespages is the number of active references, `active`; a vnode being read in has
      none of either. A vnode without active references is linked and has a page. */
  ghost predicate CountOk(v: Vnode, active: nat) {
    if v.busy then v.refcount == 0 && active == 0 && v.res == []
    else v.refcount == active + v.nres && (active == 0 ==> v.linked && v.res != [])
  }

  ghost predicate CountsOk(vnode: map<nat, Vnode>, active: map<nat, nat>) {
    && active.Keys == vnode.Keys
    && forall o :: o in active ==> CountOk(vnode[o], active[o])
  }

  /** The same while vnode o has one reference more, the one about to be dropped. */
  ghost predicate CountsOwing(vnode: map<nat, Vnode>, active: map<nat, nat>, o: nat) {
    && active.Keys == vnode.Keys && o in vnode
    && !vnode[o].busy && vnode[o].refcount == active[o] + vnode[o].nres + 1
    && forall q :: q in active && q != o ==> CountOk(vnode[q], active[q])
  }

  // ---- pframe_free up to its last line ----

  function Detach(c: Cache, f: nat): Cache
    requires f in c.frame && c.frame[f].obj in c.vnode && |c.hash| == HASH_SIZE
  {
    var o, h := c.frame[f].obj, HashOf(c.frame[f].obj, c.frame[f].page);
    var v := c.vnode[o];
    c.(frame := c.frame - {f},
       alloc := Unlink(c.alloc, f), nallocated := c.nallocated - 1,
       hash := c.hash[h := Unlink(c.hash[h], f)],
       vnode := c.vnode[o := v.(nres := if v.nres > 0 then v.nres - 1 else 0, res := Unlink(v.res, f))],
       freePages := c.freePages + 1)
  }

  lemma DetachLists(frame: map<nat, Frame>, alloc: seq<nat>, pinned: seq<nat>, f: nat)
    requires ListsOk(frame, alloc, pinned) && f in frame && frame[f].pin == 0
    ensures ListsOk(frame - {f}, Unlink(alloc, f), pinned) && |Unlink(alloc, f)| == |alloc| - 1
  {
    UnlinkRemoves(alloc, f);
  }

  lemma UnhashOk(frame: map<nat, Frame>, hash: seq<seq<nat>>, f: nat)
    requires HashOk(frame, hash) && f in frame
    ensures var h := HashOf(frame[f].obj, frame[f].page); HashOk(frame - {f}, hash[h := Unlink(hash[h], f)])
  {
    var h := HashOf(frame[f].obj, frame[f].page);
    UnlinkRemoves(hash[h], f);
    var hash' := hash[h := Unlink(hash[h], f)];
    forall k, g | 0 <= k < |hash'|
      ensures g in hash'[k] <==> g in frame - {f} && HashOf(frame[g].obj, frame[g].page) == k
    {
      assert g in hash[k] <==> g in frame && HashOf(frame[g].obj, frame[g].page) == k;
    }
  }

  lemma DisownOk(frame: map<nat, Frame>, vnode: map<nat, Vnode>, f: nat)
    requires OwnedOk(frame, vnode) && f in frame
    ensures var o := frame[f].obj; var v := vnode[o];
      v.nres > 0 && OwnedOk(frame - {f}, vnode[o := v.(nres := v.nres - 1, res := Unlink(v.res, f))])
  {
    var o := frame[f].obj;
    var v := vnode[o];
    assert OwnsOk(frame, o, v);
    assert f in v.res;
    UnlinkRemoves(v.res, f);
    var vnode' := vnode[o := v.(nres := v.nres - 1, res := Unlink(v.res, f))];
    forall q | q in vnode' ensures OwnsOk(frame - {f}, q, vnode'[q]) {
      assert OwnsOk(frame, q, vnode[q]);
    }
  }

  lemma SameInuse(vnode: map<nat, Vnode>, inuse: seq<nat>, o: nat, v: Vnode)
    requires InuseOk(vnode, inuse) && o in vnode && v.fs == vnode[o].fs && v.vno == vnode[o].vno
    ensures InuseOk(vnode[o := v], inuse)
  {
    var vnode' := vnode[o := v];
    forall p, q | SameFile(vnode', p, q) ensures p == q {
      assert SameFile(vnode, p, q);
    }
  }

  lemma IdsShrink(frame: map<nat, Frame>, frame': map<nat, Frame>)
    requires IdsOk(frame) && forall f :: f in frame' ==>
      f in frame && frame[f].obj == frame'[f].obj && frame[f].page == frame'[f].page
    ensures IdsOk(frame')
  {
    forall f, g | SamePage(frame', f, g) ensures f == g {
      assert SamePage(frame, f, g);
    }
  }

  lemma InuseShrink(vnode: map<nat, Vnode>, inuse: seq<nat>, o: nat)
    requires InuseOk(vnode, inuse)
    ensures InuseOk(vnode - {o}, Unlink(inuse, o))
  {
    UnlinkRemoves(inuse, o);
    var vnode' := vnode - {o};
    forall p, q | SameFile(vnode', p, q) ensures p == q {
      assert SameFile(vnode, p, q);
    }
  }

  lemma DetachOk(c: Cache, f: nat)
    requires Indexed(c) && f in c.frame && c.frame[f].pin == 0
    ensures Indexed(Detach(c, f)) && c.vnode[c.frame[f].obj].nres > 0
  {
    IdsShrink(c.frame, c.frame - {f});
    DetachLists(c.frame, c.alloc, c.pinned, f);
    UnhashOk(c.frame, c.hash, f);
    DisownOk(c.frame, c.vnode, f);
    var o := c.frame[f].obj;
    SameInuse(c.vnode, c.inuse, o, Detach(c, f).vnode[o]);
  }

  // ---- vput ----

  function DropRef(c: Cache, o: nat): Cache
    requires o in c.vnode
  {
    var v := c.vnode[o];
    c.(vnode := c.vnode[o := v.(refcount := if v.refcount > 0 then v.refcount - 1 else 0)])
  }

  function Delete(c: Cache, o: nat): Cache
    requires o in c.vnode
  {
    c.(vnode := c.vnode - {o}, inuse := Unlink(c.inuse, o))
  }

  lemma OwnPages(c: Cache, o: nat)
    requires Indexed(c) && o in c.vnode
    ensures forall f <- c.vnode[o].res :: f in c.frame && c.frame[f].obj == o
    ensures c.vnode[o].nres == |c.vnode[o].res|
  {
    assert OwnsOk(c.frame, o, c.vnode[o]);
  }

  /** The loop in vput over the pages fs of vnode o: each page goes, and takes its reference with it. */
  function Evict(c: Cache, o: nat, fs: seq<nat>): Cache
    decreases |fs|
  {
    if fs != [] && o in c.vnode && fs[0] in c.frame && c.frame[fs[0]].obj == o && |c.hash| == HASH_SIZE
    then Evict(DropRef(Detach(c, fs[0]), o), o, fs[1..])
    else c
  }

  lemma MinusOneMore(frame: map<nat, Frame>, s: seq<nat>)
    requires s != []
    ensures frame - {s[0]} - Members(s[1..]) == frame - Members(s)
  {
    assert s == [s[0]] + s[1..];
    assert Members(s) == {s[0]} + Members(s[1..]);
  }

  lemma SetTwice(m: map<nat, Vnode>, o: nat, v: Vnode, w: Vnode)
    ensures m[o := v][o := w] == m[o := w]
  {
  }

  /** A vnode after its first page is gone, and after all of them are. */
  function Trimmed(v: Vnode): Vnode
    requires v.res != [] && v.refcount > 0
  {
    v.(refcount := v.refcount - 1, nres := |v.res| - 1, res := v.res[1..])
  }

  function Bare(v: Vnode): Vnode
    requires v.refcount > |v.res|
  {
    v.(refcount := v.refcount - |v.res|, nres := 0, res := [])
  }

  /** One turn of the loop. */
  lemma EvictOne(c: Cache, o: nat)
    requires Indexed(c) && o in c.vnode && c.vnode[o].res != [] && c.vnode[o].refcount > 0
    requires forall f <- c.vnode[o].res :: c.frame[f].pin == 0
    ensures var v := c.vnode[o]; var f := v.res[0];
      && f in c.frame && c.frame[f].obj == o
      && var d := DropRef(Detach(c, f), o);
        && Indexed(d) && d.frame == c.frame - {f} && d.freePages == c.freePages + 1
        && d.vnode == c.vnode[o := Trimmed(v)]
  {
    OwnPages(c, o);
    var f := c.vnode[o].res[0];
    DetachOk(c, f);
    var d := Detach(c, f);
    DropRefIndexed(d, o);
    SetTwice(c.vnode, o, d.vnode[o], DropRef(d, o).vnode[o]);
  }

  lemma EvictGlue(cv: map<nat, Vnode>, dv: map<nat, Vnode>, o: nat)
    requires o in cv && cv[o].res != [] && cv[o].refcount > |cv[o].res|
    requires dv == cv[o := Trimmed(cv[o])]
    ensures dv[o := Bare(dv[o])] == cv[o := Bare(cv[o])]
  {
  }

  lemma EvictTurn(c: Cache, o: nat) returns (d: Cache)
    requires Indexed(c) && o in c.vnode && c.vnode[o].res != [] && c.vnode[o].refcount > 0
    requires forall f <- c.vnode[o].res :: c.frame[f].pin == 0
    ensures Indexed(d) && d.frame == c.frame - {c.vnode[o].res[0]} && d.freePages == c.freePages + 1
    ensures d.vnode == c.vnode[o := Trimmed(c.vnode[o])]
    ensures Evict(c, o, c.vnode[o].res) == Evict(d, o, c.vnode[o].res[1..])
  {
    EvictOne(c, o);
    d := DropRef(Detach(c, c.vnode[o].res[0]), o);
  }

  lemma {:induction false} EvictAll(c: Cache, o: nat)
    requires Indexed(c) && o in c.vnode && c.vnode[o].refcount > |c.vnode[o].res|
    requires forall f <- c.vnode[o].res :: c.frame[f].pin == 0
    ensures Indexed(Evict(c, o, c.vnode[o].res))
    ensures Evict(c, o, c.vnode[o].res).frame == c.frame - Members(c.vnode[o].res)
    ensures Evict(c, o, c.vnode[o].res).freePages == c.freePages + |c.vnode[o].res|
    ensures Evict(c, o, c.vnode[o].res).vnode == c.vnode[o := Bare(c.vnode[o])]
    decreases |c.vnode[o].res|
  {
    OwnPages(c, o);
    var v := c.vnode[o];
    if v.res == [] {
      assert c.frame - Members(v.res) == c.frame;
      assert c.vnode[o := v] == c.vnode;
    } else {
      var d := EvictTurn(c, o);
      MinusOneMore(c.frame, v.res);
      EvictAll(d, o);
      EvictGlue(c.vnode, d.vnode, o);
    }
  }

  /** Fields that no index looks at may change freely. */
  lemma RevnodeOk(c: Cache, o: nat, v: Vnode)
    requires Indexed(c) && o in c.vnode
    requires v.fs == c.vnode[o].fs && v.vno == c.vnode[o].vno && v.nres == c.vnode[o].nres && v.res == c.vnode[o].res
    ensures Indexed(c.(vnode := c.vnode[o := v]))
  {
    SameInuse(c.vnode, c.inuse, o, v);
    var vnode' := c.vnode[o := v];
    forall q | q in vnode' ensures OwnsOk(c.frame, q, vnode'[q]) {
      assert OwnsOk(c.frame, q, c.vnode[q]);
    }
  }

  lemma DropRefIndexed(c: Cache, o: nat)
    requires Indexed(c) && o in c.vnode
    ensures Indexed(DropRef(c, o))
  {
    RevnodeOk(c, o, DropRef(c, o).vnode[o]);
  }

  lemma DeleteIndexed(c: Cache, o: nat)
    requires Indexed(c) && o in c.vnode && c.vnode[o].res == []
    ensures Indexed(Delete(c, o))
  {
    assert OwnsOk(c.frame, o, c.vnode[o]);
    InuseShrink(c.vnode, c.inuse, o);
    forall q | q in c.vnode - {o} ensures OwnsOk(c.frame, q, c.vnode[q]) {
    }
  }

  /** vput takes its teardown branch. */
  predicate Doomed(v: Vnode) {
    v.nres + 1 == v.refcount && !v.linked
  }

  /** The end of vput: the reference goes, and with the last one the vnode. */
  function Last(c: Cache, o: nat): Cache
    requires o in c.vnode
  {
    if c.vnode[o].refcount == 1 then Delete(c, o) else DropRef(c, o)
  }

  /** The whole effect of vput. */
  function Put(c: Cache, o: nat): Cache
    requires o in c.vnode
  {
    if Doomed(c.vnode[o]) then
      var d := Evict(c, o, c.vnode[o].res);
      if o in d.vnode then Last(d, o) else d
    else Last(c, o)
  }

  lemma SetAndRemove(m: map<nat, Vnode>, o: nat, v: Vnode)
    ensures m[o := v] - {o} == m - {o}
  {
  }

  lemma PutDoomed(c: Cache, o: nat)
    requires Indexed(c) && o in c.vnode && Doomed(c.vnode[o])
    requires forall f <- c.vnode[o].res :: c.frame[f].pin == 0
    ensures Indexed(Put(c, o)) && Put(c, o).vnode == c.vnode - {o}
    ensures Put(c, o).frame == c.frame - Members(c.vnode[o].res) &&
      Put(c, o).freePages == c.freePages + |c.vnode[o].res|
  {
    OwnPages(c, o);
    EvictAll(c, o);
    var d := Evict(c, o, c.vnode[o].res);
    DeleteIndexed(d, o);
    assert Put(c, o) == Delete(d, o);
    SetAndRemove(c.vnode, o, Bare(c.vnode[o]));
  }

  /** vput in the words of its comment: with `active` references besides the one it drops, the vnode
      goes away exactly when it has no active reference left and is unlinked or has no page; its
      pages go with it; every other vnode and every other page stays. */
  lemma PutMeans(c: Cache, o: nat, active: nat)
    requires Indexed(c) && o in c.vnode && c.vnode[o].refcount == active + c.vnode[o].nres + 1
    requires Doomed(c.vnode[o]) ==> forall f <- c.vnode[o].res :: c.frame[f].pin == 0
    ensures Indexed(Put(c, o))
    ensures o !in Put(c, o).vnode <==> active == 0 && (!c.vnode[o].linked || c.vnode[o].res == [])
    ensures o in Put(c, o).vnode ==>
      Put(c, o) == c.(vnode := c.vnode[o := c.vnode[o].(refcount := active + c.vnode[o].nres)])
    ensures o !in Put(c, o).vnode ==>
      && Put(c, o).vnode == c.vnode - {o} && Put(c, o).freePages == c.freePages + |c.vnode[o].res|
      && Put(c, o).frame == c.frame - Members(c.vnode[o].res)
  {
    OwnPages(c, o);
    var v := c.vnode[o];
    if Doomed(v) {
      PutDoomed(c, o);
    } else if v.refcount == 1 {
      DeleteIndexed(c, o);
      assert c.frame - Members(v.res) == c.frame;
    } else {
      DropRefIndexed(c, o);
    }
  }

  lemma CountsDrop(vnode: map<nat, Vnode>, active: map<nat, nat>, o: nat)
    requires CountsOwing(vnode, active, o)
    requires active[o] == 0 ==> vnode[o].linked && vnode[o].res != []
    ensures CountsOk(vnode[o := vnode[o].(refcount := active[o] + vnode[o].nres)], active)
  {
  }

  lemma CountsDelete(vnode: map<nat, Vnode>, active: map<nat, nat>, o: nat)
    requires CountsOwing(vnode, active, o)
    ensures CountsOk(vnode - {o}, active - {o})
  {
  }

  /** Dropping a reference leaves every vnode with its active references plus its pages. */
  lemma PutCounts(c: Cache, o: nat, active: map<nat, nat>)
    requires Indexed(c) && CountsOwing(c.vnode, active, o)
    requires Doomed(c.vnode[o]) ==> forall f <- c.vnode[o].res :: c.frame[f].pin == 0
    ensures CountsOk(Put(c, o).vnode, if o in Put(c, o).vnode then active else active - {o})
  {
    PutMeans(c, o, active[o]);
    if o in Put(c, o).vnode {
      CountsDrop(c.vnode, active, o);
    } else {
      CountsDelete(c.vnode, active, o);
    }
  }

  /** What pframe_free hands to vput: a vnode with one reference too many that is not torn down. */
  lemma FreeOwes(c: Cache, f: nat, active: map<nat, nat>)
    requires Indexed(c) && CountsOk(c.vnode, active) && f in c.frame && c.frame[f].pin == 0
    ensures var o := c.frame[f].obj;
      && o in c.vnode && Held(c, o) && f in c.vnode[o].res
      && Indexed(Detach(c, f)) && CountsOwing(Detach(c, f).vnode, active, o) && !Doomed(Detach(c, f).vnode[o])
  {
    var o := c.frame[f].obj;
    DetachOk(c, f);
    assert CountOk(c.vnode[o], active[o]);
    IndexedHeld(c, o);
    assert OwnsOk(c.frame, o, c.vnode[o]);
    DetachHeld(c, o, f);
  }

  /** All that pframe_free and vput need to know about the vnode they work on. */
  ghost predicate Held(c: Cache, o: nat) {
    && o in c.vnode && |c.hash| == HASH_SIZE
    && var v := c.vnode[o];
      && v.nres == |v.res| <= v.refcount && Distinct(v.res)
      && forall f <- v.res :: f in c.frame && c.frame[f].obj == o
  }

  lemma IndexedHeld(c: Cache, o: nat)
    requires Indexed(c) && o in c.vnode && c.vnode[o].nres <= c.vnode[o].refcount
    ensures Held(c, o)
  {
    OwnPages(c, o);
    assert OwnsOk(c.frame, o, c.vnode[o]);
  }

  lemma DetachHeld(c: Cache, o: nat, f: nat)
    requires Held(c, o) && f in c.vnode[o].res
    ensures Held(Detach(c, f), o) && Detach(c, f).vnode[o].nres == c.vnode[o].nres - 1
    ensures Detach(c, f).vnode[o] == c.vnode[o].(nres := c.vnode[o].nres - 1, res := Unlink(c.vnode[o].res, f))
  {
    UnlinkRemoves(c.vnode[o].res, f);
  }

  /** While a teardown runs, the reference being dropped keeps the vnode alive: freeing a page only
      lowers the count, and no second teardown starts. */
  lemma FreeInTeardown(c: Cache, o: nat)
    requires Held(c, o) && c.vnode[o].res != [] && c.vnode[o].refcount == 1 + c.vnode[o].nres
    ensures var f := c.vnode[o].res[0]; var d := DropRef(Detach(c, f), o);
      && !Doomed(Detach(c, f).vnode[o]) && Put(Detach(c, f), o) == d
      && Held(d, o) && d.vnode[o] == Trimmed(c.vnode[o])
      && Evict(c, o, c.vnode[o].res) == Evict(d, o, c.vnode[o].res[1..])
  {
    DetachHeld(c, o, c.vnode[o].res[0]);
  }

  // ---- Frames that keep their identity ----

  lemma SameIdentity(c: Cache, f: nat, fr: Frame)
    requires Indexed(c) && f in c.frame && fr.obj == c.frame[f].obj && fr.page == c.frame[f].page
    ensures IdsOk(c.frame[f := fr]) && HashOk(c.frame[f := fr], c.hash) && OwnedOk(c.frame[f := fr], c.vnode)
  {
    var frame' := c.frame[f := fr];
    IdsShrink(c.frame, frame');
    forall h, g | 0 <= h < |c.hash|
      ensures g in c.hash[h] <==> g in frame' && HashOf(frame'[g].obj, frame'[g].page) == h
    {
      assert g in c.hash[h] <==> g in c.frame && HashOf(c.frame[g].obj, c.frame[g].page) == h;
    }
    forall o | o in c.vnode ensures OwnsOk(frame', o, c.vnode[o]) {
      assert OwnsOk(c.frame, o, c.vnode[o]);
    }
  }

  /** A requested page goes to the back of the alloc list. */
  function Touch(c: Cache, f: nat): Cache
    requires f in c.frame
  {
    if c.frame[f].pin == 0 then c.(alloc := Unlink(c.alloc, f) + [f]) else c
  }

  lemma TouchOk(c: Cache, f: nat)
    requires Indexed(c) && f in c.frame
    ensures Indexed(Touch(c, f))
  {
    if c.frame[f].pin == 0 {
      UnlinkRemoves(c.alloc, f);
      DistinctAdd(Unlink(c.alloc, f), f);
    }
  }

  /** pframe_pin */
  function Pin(c: Cache, f: nat): Cache
    requires f in c.frame
  {
    var fr := c.frame[f];
    var d := c.(frame := c.frame[f := fr.(pin := fr.pin + 1)]);
    if fr.pin > 0 then d
    else d.(alloc := Unlink(c.alloc, f), pinned := c.pinned + [f], nallocated := c.nallocated - 1,
      npinned := c.npinned + 1)
  }

  lemma PinOk(c: Cache, f: nat)
    requires Indexed(c) && f in c.frame
    ensures Indexed(Pin(c, f))
  {
    SameIdentity(c, f, Pin(c, f).frame[f]);
    if c.frame[f].pin == 0 {
      UnlinkRemoves(c.alloc, f);
      DistinctAdd(c.pinned, f);
    }
  }

  /** pframe_unpin */
  function Unpin(c: Cache, f: nat): Cache
    requires f in c.frame && c.frame[f].pin > 0
  {
    var fr := c.frame[f];
    var d := c.(frame := c.frame[f := fr.(pin := fr.pin - 1)]);
    if fr.pin > 1 then d
    else d.(alloc := c.alloc + [f], pinned := Unlink(c.pinned, f), nallocated := c.nallocated + 1,
      npinned := c.npinned - 1)
  }

  lemma UnpinLists(frame: map<nat, Frame>, alloc: seq<nat>, pinned: seq<nat>, f: nat, fr: Frame)
    requires ListsOk(frame, alloc, pinned) && f in frame && frame[f].pin > 0 && fr.pin == 0
    ensures ListsOk(frame[f := fr], alloc + [f], Unlink(pinned, f)) && |Unlink(pinned, f)| == |pinned| - 1
  {
    UnlinkRemoves(pinned, f);
    DistinctAdd(alloc, f);
  }

  lemma UnpinOk(c: Cache, f: nat)
    requires Indexed(c) && f in c.frame && c.frame[f].pin > 0
    ensures Indexed(Unpin(c, f))
  {
    var fr := Unpin(c, f).frame[f];
    SameIdentity(c, f, fr);
    if c.frame[f].pin == 1 {
      UnpinLists(c.frame, c.alloc, c.pinned, f, fr);
    }
  }

  function SetDirty(c: Cache, f: nat, dirty: bool): Cache
    requires f in c.frame
  {
    c.(frame := c.frame[f := c.frame[f].(dirty := dirty)])
  }

  lemma SetDirtyOk(c: Cache, f: nat, dirty: bool)
    requires Indexed(c) && f in c.frame
    ensures Indexed(SetDirty(c, f, dirty))
  {
    SameIdentity(c, f, SetDirty(c, f, dirty).frame[f]);
  }

  // ---- New frames ----

  /** pframe_alloc: a fresh frame f for page `page` of object o. */
  function Attach(c: Cache, f: nat, o: nat, page: nat): Cache
    requires o in c.vnode && |c.hash| == HASH_SIZE
  {
    var v, h := c.vnode[o], HashOf(o, page);
    c.(frame := c.frame[f := Frame(o, page, 0, false)],
       alloc := c.alloc + [f], nallocated := c.nallocated + 1,
       hash := c.hash[h := [f] + c.hash[h]],
       vnode := c.vnode[o := v.(refcount := v.refcount + 1, nres := v.nres + 1, res := [f] + v.res)],
       freePages := c.freePages - 1)
  }

  lemma HashInOk(frame: map<nat, Frame>, hash: seq<seq<nat>>, f: nat, fr: Frame)
    requires HashOk(frame, hash) && f !in frame
    ensures var h := HashOf(fr.obj, fr.page); HashOk(frame[f := fr], hash[h := [f] + hash[h]])
  {
    var h := HashOf(fr.obj, fr.page);
    assert f !in hash[h];
    DistinctAdd(hash[h], f);
    var frame', hash' := frame[f := fr], hash[h := [f] + hash[h]];
    forall k, g | 0 <= k < |hash'|
      ensures g in hash'[k] <==> g in frame' && HashOf(frame'[g].obj, frame'[g].page) == k
    {
      assert g in hash[k] <==> g in frame && HashOf(frame[g].obj, frame[g].page) == k;
    }
  }

  lemma OwnOk(frame: map<nat, Frame>, vnode: map<nat, Vnode>, f: nat, fr: Frame, v: Vnode)
    requires OwnedOk(frame, vnode) && f !in frame && fr.obj in vnode
    requires v.nres == vnode[fr.obj].nres + 1 && v.res == [f] + vnode[fr.obj].res
    ensures OwnedOk(frame[f := fr], vnode[fr.obj := v])
  {
    var o := fr.obj;
    var frame', vnode' := frame[f := fr], vnode[o := v];
    assert OwnsOk(frame, o, vnode[o]);
    DistinctAdd(vnode[o].res, f);
    forall q | q in vnode' ensures OwnsOk(frame', q, vnode'[q]) {
      assert OwnsOk(frame, q, vnode[q]);
    }
  }

  lemma AttachOk(c: Cache, f: nat, o: nat, page: nat)
    requires Indexed(c) && f !in c.frame && o in c.vnode && !c.Resident(o, page)
    ensures Indexed(Attach(c, f, o, page))
  {
    var d, fr := Attach(c, f, o, page), Frame(o, page, 0, false);
    assert f !in c.alloc && f !in c.pinned;
    DistinctAdd(c.alloc, f);
    HashInOk(c.frame, c.hash, f, fr);
    OwnOk(c.frame, c.vnode, f, fr, d.vnode[o]);
    SameInuse(c.vnode, c.inuse, o, d.vnode[o]);
    forall g, k | SamePage(d.frame, g, k) ensures g == k {
      assert !c.Holds(g, o, page) && !c.Holds(k, o, page);
      assert g != f && k != f ==> SamePage(c.frame, g, k);
    }
  }

  // ---- Looking up pages and vnodes ----

  function Empty(freePages: int): Cache {
    Cache(map[], [], [], 0, 0, seq(HASH_SIZE, i => []), map[], [], freePages)
  }

  /** What pframe_get_resident relies on: a resident page is in the chain of its hash. */
  ghost predicate ChainOk(c: Cache, o: nat, page: nat) {
    && |c.hash| == HASH_SIZE
    && (forall f <- c.hash[HashOf(o, page)] :: f in c.frame)
    && (forall f :: c.Holds(f, o, page) ==> f in c.hash[HashOf(o, page)])
  }

  lemma IndexedChain(c: Cache, o: nat, page: nat)
    requires Indexed(c)
    ensures ChainOk(c, o, page)
  {
    var h := HashOf(o, page);
    forall f ensures f in c.hash[h] <==> f in c.frame && HashOf(c.frame[f].obj, c.frame[f].page) == h { }
  }

  /** The page a request finds is the only frame of that page. */
  lemma OneFrame(c: Cache, f: nat, g: nat, o: nat, page: nat)
    requires Indexed(c) && c.Holds(f, o, page) && c.Holds(g, o, page)
    ensures f == g
  {
    assert SamePage(c.frame, f, g);
  }

  datatype Lookup = Found(o: nat) | Wait(o: nat) | Retry | Started(o: nat)

  function AddRef(c: Cache, o: nat): Cache
    requires o in c.vnode
  {
    c.(vnode := c.vnode[o := c.vnode[o].(refcount := c.vnode[o].refcount + 1)])
  }

  function NewVnode(c: Cache, o: nat, fs: nat, vno: nat): Cache {
    c.(vnode := c.vnode[o := Vnode(fs, vno, true, 0, 0, [], true)], inuse := [o] + c.inuse)
  }

  function Opened(c: Cache, o: nat): Cache
    requires o in c.vnode
  {
    c.(vnode := c.vnode[o := c.vnode[o].(busy := false, refcount := 1)])
  }

  lemma NewVnodeOk(c: Cache, o: nat, fs: nat, vno: nat)
    requires Indexed(c) && o !in c.vnode
    requires forall q :: q in c.vnode ==> !(c.vnode[q].fs == fs && c.vnode[q].vno == vno)
    ensures Indexed(NewVnode(c, o, fs, vno))
  {
    var d := NewVnode(c, o, fs, vno);
    assert o !in c.inuse;
    DistinctAdd(c.inuse, o);
    forall p, q | SameFile(d.vnode, p, q) ensures p == q {
      assert p != o && q != o ==> SameFile(c.vnode, p, q);
    }
    forall q | q in d.vnode ensures OwnsOk(d.frame, q, d.vnode[q]) {
      if q != o { assert OwnsOk(c.frame, q, c.vnode[q]); }
    }
  }

  // ---- pframe_migrate ----

  /** Frame f renamed to `dest` and taken off the chain and the page list of its old object. */
  function Moved(c: Cache, f: nat, dest: nat): Cache
    requires f in c.frame && c.frame[f].obj in c.vnode && |c.hash| == HASH_SIZE
  {
    var o, h := c.frame[f].obj, HashOf(c.frame[f].obj, c.frame[f].page);
    var v := c.vnode[o];
    c.(frame := c.frame[f := c.frame[f].(obj := dest)],
       hash := c.hash[h := Unlink(c.hash[h], f)],
       vnode := c.vnode[o := v.(nres := if v.nres > 0 then v.nres - 1 else 0, res := Unlink(v.res, f))])
  }

  /** Frame f put on the chain and the page list of `dest`. */
  function Adopt(c: Cache, f: nat, dest: nat): Cache
    requires f in c.frame && dest in c.vnode && |c.hash| == HASH_SIZE
  {
    var k, v := HashOf(dest, c.frame[f].page), c.vnode[dest];
    c.(hash := c.hash[k := [f] + c.hash[k]],
       vnode := c.vnode[dest := With(v, f)])
  }

  function Rehome(c: Cache, f: nat, dest: nat): Cache
    requires f in c.frame && c.frame[f].obj in c.vnode && |c.hash| == HASH_SIZE
  {
    var d := Put(Moved(c, f, dest), c.frame[f].obj);
    if f in d.frame && dest in d.vnode && |d.hash| == HASH_SIZE then Adopt(d, f, dest) else d
  }

  lemma MovedHeld(c: Cache, f: nat, dest: nat)
    requires f in c.frame && Held(c, c.frame[f].obj) && f in c.vnode[c.frame[f].obj].res && dest != c.frame[f].obj
    ensures Held(Moved(c, f, dest), c.frame[f].obj)
    ensures Moved(c, f, dest).vnode[c.frame[f].obj].nres == c.vnode[c.frame[f].obj].nres - 1
  {
    UnlinkRemoves(c.vnode[c.frame[f].obj].res, f);
  }

  /** Dropping a reference of a vnode that stays out of teardown changes no page list. */
  lemma LastOwned(frame: map<nat, Frame>, vnode: map<nat, Vnode>, o: nat, v: Vnode)
    requires OwnedOk(frame, vnode) && o in vnode && v.nres == vnode[o].nres && v.res == vnode[o].res
    ensures OwnedOk(frame, vnode[o := v])
    ensures v.res == [] ==> OwnedOk(frame, vnode - {o})
  {
    assert OwnsOk(frame, o, vnode[o]);
    forall q | q in vnode ensures OwnsOk(frame, q, vnode[o := v][q]) {
      assert OwnsOk(frame, q, vnode[q]);
    }
  }

  lemma MovedIds(c: Cache, f: nat, dest: nat)
    requires Indexed(c) && f in c.frame && !c.Resident(dest, c.frame[f].page)
    ensures IdsOk(c.frame[f := c.frame[f].(obj := dest)])
  {
    var frame', page := c.frame[f := c.frame[f].(obj := dest)], c.frame[f].page;
    forall g, k | SamePage(frame', g, k) ensures g == k {
      assert !c.Holds(g, dest, page) && !c.Holds(k, dest, page);
      assert g != f && k != f ==> SamePage(c.frame, g, k);
    }
  }

  lemma MovedHash(frame: map<nat, Frame>, hash: seq<seq<nat>>, f: nat, dest: nat)
    requires HashOk(frame, hash) && f in frame
    ensures var h, k := HashOf(frame[f].obj, frame[f].page), HashOf(dest, frame[f].page);
      var hash0 := hash[h := Unlink(hash[h], f)];
      HashOk(frame[f := frame[f].(obj := dest)], hash0[k := [f] + hash0[k]])
  {
    var h, fr := HashOf(frame[f].obj, frame[f].page), frame[f].(obj := dest);
    UnhashOk(frame, hash, f);
    HashInOk(frame - {f}, hash[h := Unlink(hash[h], f)], f, fr);
    assert (frame - {f})[f := fr] == frame[f := fr];
  }

  lemma MovedOwned(frame: map<nat, Frame>, vnode: map<nat, Vnode>, f: nat, fr: Frame, v: Vnode)
    requires OwnedOk(frame - {f}, vnode) && f in frame && fr.obj in vnode
    requires v.nres == vnode[fr.obj].nres + 1 && v.res == [f] + vnode[fr.obj].res
    ensures OwnedOk(frame[f := fr], vnode[fr.obj := v])
  {
    OwnOk(frame - {f}, vnode, f, fr, v);
    assert (frame - {f})[f := fr] == frame[f := fr];
  }

  /** The vnodes between the two halves: the source has one page and one reference less. */
  lemma SourceOk(c: Cache, f: nat, dest: nat)
    requires Indexed(c) && f in c.frame && dest in c.vnode && dest != c.frame[f].obj
    requires var m := Moved(c, f, dest).vnode[c.frame[f].obj]; !Doomed(m) && m.nres < m.refcount
    ensures var o := c.frame[f].obj; var d := Put(Moved(c, f, dest), o);
      && OwnedOk(c.frame - {f}, d.vnode) && InuseOk(d.vnode, d.inuse) && dest in d.vnode &&
        d.vnode[dest] == c.vnode[dest]
      && d == Moved(c, f, dest).(vnode := d.vnode, inuse := d.inuse)
  {
    var o, m := c.frame[f].obj, Moved(c, f, dest);
    DisownOk(c.frame, c.vnode, f);
    SameInuse(c.vnode, c.inuse, o, m.vnode[o]);
    var d := Put(m, o);
    if m.vnode[o].refcount == 1 {
      LastOwned(c.frame - {f}, m.vnode, o, m.vnode[o]);
      InuseShrink(m.vnode, m.inuse, o);
    } else {
      LastOwned(c.frame - {f}, m.vnode, o, d.vnode[o]);
      SameInuse(m.vnode, m.inuse, o, d.vnode[o]);
    }
  }

  lemma MovedLists(frame: map<nat, Frame>, alloc: seq<nat>, pinned: seq<nat>, f: nat, dest: nat)
    requires ListsOk(frame, alloc, pinned) && f in frame
    ensures ListsOk(frame[f := frame[f].(obj := dest)], alloc, pinned)
  {
  }

  /** The result in its parts. */
  lemma RehomeParts(c: Cache, f: nat, dest: nat) returns (d: Cache)
    requires f in c.frame && c.frame[f].obj in c.vnode && |c.hash| == HASH_SIZE
    requires dest in c.vnode && dest != c.frame[f].obj && !Doomed(Moved(c, f, dest).vnode[c.frame[f].obj])
    ensures d == Put(Moved(c, f, dest), c.frame[f].obj) && dest in d.vnode
    ensures var r, h, k := Rehome(c, f, dest), HashOf(c.frame[f].obj, c.frame[f].page), HashOf(dest, c.frame[f].page);
      var hash0 := c.hash[h := Unlink(c.hash[h], f)];
      && r.frame == c.frame[f := c.frame[f].(obj := dest)] && r.hash == hash0[k := [f] + hash0[k]]
      && r.inuse == d.inuse && r.vnode == d.vnode[dest := With(d.vnode[dest], f)]
      && r.alloc == c.alloc && r.pinned == c.pinned && r.nallocated == c.nallocated && r.npinned == c.npinned
  {
    d := Put(Moved(c, f, dest), c.frame[f].obj);
  }

  /** A vnode with one more page. */
  function With(v: Vnode, f: nat): Vnode {
    v.(refcount := v.refcount + 1, nres := v.nres + 1, res := [f] + v.res)
  }

  lemma RehomeOk(c: Cache, f: nat, dest: nat)
    requires Indexed(c) && f in c.frame && dest in c.vnode && dest != c.frame[f].obj &&
      !c.Resident(dest, c.frame[f].page)
    requires var m := Moved(c, f, dest).vnode[c.frame[f].obj]; !Doomed(m) && m.nres < m.refcount
    ensures Indexed(Rehome(c, f, dest))
  {
    SourceOk(c, f, dest);
    var d := RehomeParts(c, f, dest);
    var r := Rehome(c, f, dest);
    MovedIds(c, f, dest);
    MovedLists(c.frame, c.alloc, c.pinned, f, dest);
    MovedHash(c.frame, c.hash, f, dest);
    MovedOwned(c.frame, d.vnode, f, c.frame[f].(obj := dest), r.vnode[dest]);
    SameInuse(d.vnode, d.inuse, dest, r.vnode[dest]);
  }
}
