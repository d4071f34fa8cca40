/** Every run of the page cache: what all its operations keep. */
module PageCacheRuns {
  import opened Lists
  import opened PageCacheState

  /** The alloc list is in order of the last request or unpin. */
  ghost predicate LruOk(alloc: seq<nat>, stamp: map<nat, nat>, clock: nat) {
    && (forall i :: 0 <= i < |alloc| ==> alloc[i] in stamp && stamp[alloc[i]] < clock)
    && (forall i, j :: 0 <= i < j < |alloc| ==> stamp[alloc[i]] < stamp[alloc[j]])
  }

  lemma LruAppend(alloc: seq<nat>, stamp: map<nat, nat>, clock: nat, f: nat)
    requires LruOk(alloc, stamp, clock) && f !in alloc
    ensures LruOk(alloc + [f], stamp[f := clock], clock + 1)
  {
  }

  lemma LruGap(s: seq<nat>, t: seq<nat>, f: nat, stamp: map<nat, nat>, clock: nat)
    requires LruOk(s + [f] + t, stamp, clock)
    ensures LruOk(s + t, stamp, clock)
  {
    var all, less := s + [f] + t, s + t;
    forall i | 0 <= i < |less| ensures less[i] == all[if i < |s| then i else i + 1] { }
  }

  lemma LruUnlink(alloc: seq<nat>, stamp: map<nat, nat>, clock: nat, f: nat)
    requires LruOk(alloc, stamp, clock) && Distinct(alloc)
    ensures LruOk(Unlink(alloc, f), stamp, clock)
  {
    if f in alloc {
      var k :| 0 <= k < |alloc| && alloc[k] == f;
      UnlinkSplit(alloc, k);
      assert alloc == alloc[..k] + [f] + alloc[k + 1..];
      LruGap(alloc[..k], alloc[k + 1..], f, stamp, clock);
    } else {
      UnlinkAbsent(alloc, f);
    }
  }

  lemma {:induction false} UnlinkAbsent(s: seq<nat>, x: nat)
    requires x !in s
    ensures Unlink(s, x) == s
  {
    if s != [] {
      UnlinkAbsent(s[1..], x);
      assert s == [s[0]] + s[1..];
    }
  }

  lemma {:induction false} EvictLru(c: Cache, o: nat, fs: seq<nat>, stamp: map<nat, nat>, clock: nat)
    requires LruOk(c.alloc, stamp, clock) && Distinct(c.alloc)
    ensures LruOk(Evict(c, o, fs).alloc, stamp, clock)
    decreases |fs|
  {
    if fs != [] && o in c.vnode && fs[0] in c.frame && c.frame[fs[0]].obj == o && |c.hash| == HASH_SIZE {
      LruUnlink(c.alloc, stamp, clock, fs[0]);
      UnlinkRemoves(c.alloc, fs[0]);
      EvictLru(DropRef(Detach(c, fs[0]), o), o, fs[1..], stamp, clock);
    }
  }

  lemma PutLru(c: Cache, o: nat, stamp: map<nat, nat>, clock: nat)
    requires o in c.vnode && LruOk(c.alloc, stamp, clock) && Distinct(c.alloc)
    ensures LruOk(Put(c, o).alloc, stamp, clock)
  {
    EvictLru(c, o, c.vnode[o].res, stamp, clock);
  }

  /** Everything that holds between operations. */
  ghost predicate Sound(c: Cache, active: map<nat, nat>, stamp: map<nat, nat>, clock: nat) {
    Indexed(c) && CountsOk(c.vnode, active) && LruOk(c.alloc, stamp, clock)
  }

  /** The active references after vnode o has lost the given number of them. */
  ghost function ActiveAfter(d: Cache, o: nat, active: map<nat, nat>, lost: nat): map<nat, nat>
    requires o in active && lost <= active[o]
  {
    if o in d.vnode then active[o := active[o] - lost] else active - {o}
  }

  lemma PutSound(c: Cache, o: nat, active: map<nat, nat>, stamp: map<nat, nat>, clock: nat)
    requires Indexed(c) && CountsOwing(c.vnode, active, o) && LruOk(c.alloc, stamp, clock)
    requires Doomed(c.vnode[o]) ==> forall f <- c.vnode[o].res :: c.frame[f].pin == 0
    ensures Sound(Put(c, o), if o in Put(c, o).vnode then active else active - {o}, stamp, clock)
  {
    PutMeans(c, o, active[o]);
    PutCounts(c, o, active);
    PutLru(c, o, stamp, clock);
  }

  /** vput by a holder of an active reference. */
  lemma DropSound(c: Cache, o: nat, active: map<nat, nat>, stamp: map<nat, nat>, clock: nat)
    requires Sound(c, active, stamp, clock) && o in c.vnode && active[o] > 0
    requires Doomed(c.vnode[o]) ==> forall f <- c.vnode[o].res :: c.frame[f].pin == 0
    ensures Held(c, o) && c.vnode[o].nres < c.vnode[o].refcount
    ensures Sound(Put(c, o), ActiveAfter(Put(c, o), o, active, 1), stamp, clock)
  {
    assert CountOk(c.vnode[o], active[o]);
    IndexedHeld(c, o);
    var fewer := active[o := active[o] - 1];
    PutSound(c, o, fewer, stamp, clock);
    assert fewer - {o} == active - {o};
  }

  /** pframe_free by anyone but vput. */
  lemma FreeSound(c: Cache, f: nat, active: map<nat, nat>, stamp: map<nat, nat>, clock: nat)
    requires Sound(c, active, stamp, clock) && f in c.frame && c.frame[f].pin == 0
    ensures var o := c.frame[f].obj;
      && Held(c, o) && f in c.vnode[o].res && !Doomed(Detach(c, f).vnode[o])
      && Sound(Put(Detach(c, f), o), ActiveAfter(Put(Detach(c, f), o), o, active, 0), stamp, clock)
  {
    FreeOwes(c, f, active);
    LruUnlink(c.alloc, stamp, clock, f);
    var o := c.frame[f].obj;
    PutSound(Detach(c, f), o, active, stamp, clock);
    assert active[o := active[o]] == active;
  }

  /** A frame that moved to the back of the alloc list was just requested or unpinned. */
  lemma TouchSound(c: Cache, f: nat, active: map<nat, nat>, stamp: map<nat, nat>, clock: nat)
    requires Sound(c, active, stamp, clock) && f in c.frame
    ensures Sound(Touch(c, f), active, stamp[f := clock], clock + 1)
  {
    TouchOk(c, f);
    UnlinkRemoves(c.alloc, f);
    LruUnlink(c.alloc, stamp, clock, f);
    LruAppend(Unlink(c.alloc, f), stamp, clock, f);
    if c.frame[f].pin > 0 { LruRestamp(c.alloc, stamp, clock, f); }
  }

  lemma LruRestamp(alloc: seq<nat>, stamp: map<nat, nat>, clock: nat, f: nat)
    requires LruOk(alloc, stamp, clock) && f !in alloc
    ensures LruOk(alloc, stamp[f := clock], clock + 1)
  {
  }

  lemma PinSound(c: Cache, f: nat, active: map<nat, nat>, stamp: map<nat, nat>, clock: nat)
    requires Sound(c, active, stamp, clock) && f in c.frame
    ensures Sound(Pin(c, f), active, stamp, clock)
  {
    PinOk(c, f);
    LruUnlink(c.alloc, stamp, clock, f);
  }

  lemma UnpinSound(c: Cache, f: nat, active: map<nat, nat>, stamp: map<nat, nat>, clock: nat)
    requires Sound(c, active, stamp, clock) && f in c.frame && c.frame[f].pin > 0
    ensures Sound(Unpin(c, f), active, stamp[f := clock], clock + 1)
  {
    UnpinOk(c, f);
    assert f !in c.alloc;
    LruAppend(c.alloc, stamp, clock, f);
    LruRestamp(c.alloc, stamp, clock, f);
  }

  lemma DirtySound(c: Cache, f: nat, dirty: bool, active: map<nat, nat>, stamp: map<nat, nat>, clock: nat)
    requires Sound(c, active, stamp, clock) && f in c.frame
    ensures Sound(SetDirty(c, f, dirty), active, stamp, clock)
  {
    SetDirtyOk(c, f, dirty);
  }

  /** A new page brings one reference and one resident page: the active references stay. */
  lemma AttachSound(c: Cache, f: nat, o: nat, page: nat, active: map<nat, nat>, stamp: map<nat, nat>, clock: nat)
    requires Sound(c, active, stamp, clock) && f !in c.frame && o in c.vnode && !c.vnode[o].busy && !c.Resident(o, page)
    ensures Sound(Attach(c, f, o, page), active, stamp[f := clock], clock + 1)
  {
    AttachOk(c, f, o, page);
    assert f !in c.alloc;
    LruAppend(c.alloc, stamp, clock, f);
    assert CountOk(c.vnode[o], active[o]);
  }

  /** vref by a holder, or vget of a vnode already in use. */
  lemma RefSound(c: Cache, o: nat, active: map<nat, nat>, stamp: map<nat, nat>, clock: nat)
    requires Sound(c, active, stamp, clock) && o in c.vnode && !c.vnode[o].busy
    ensures c.vnode[o].refcount > 0 && Sound(AddRef(c, o), active[o := active[o] + 1], stamp, clock)
  {
    assert CountOk(c.vnode[o], active[o]);
    OwnPages(c, o);
    RevnodeOk(c, o, AddRef(c, o).vnode[o]);
  }

  /** vget of a vnode not in use: on the list, busy and unreferenced, while it is read in. */
  lemma StartSound(c: Cache, o: nat, fs: nat, vno: nat, active: map<nat, nat>, stamp: map<nat, nat>, clock: nat)
    requires Sound(c, active, stamp, clock) && o !in c.vnode
    requires forall q <- c.inuse :: !(c.vnode[q].fs == fs && c.vnode[q].vno == vno)
    ensures Sound(NewVnode(c, o, fs, vno), active[o := 0], stamp, clock)
  {
    NewVnodeOk(c, o, fs, vno);
  }

  lemma FinishSound(c: Cache, o: nat, active: map<nat, nat>, stamp: map<nat, nat>, clock: nat)
    requires Sound(c, active, stamp, clock) && o in c.vnode && c.vnode[o].busy
    ensures Sound(Opened(c, o), active[o := 1], stamp, clock)
  {
    assert CountOk(c.vnode[o], active[o]);
    OwnPages(c, o);
    RevnodeOk(c, o, Opened(c, o).vnode[o]);
  }

  /** The file system drops the last link of a file somebody holds. */
  function Unlinked(c: Cache, o: nat): Cache
    requires o in c.vnode
  {
    c.(vnode := c.vnode[o := c.vnode[o].(linked := false)])
  }

  lemma UnlinkedSound(c: Cache, o: nat, active: map<nat, nat>, stamp: map<nat, nat>, clock: nat)
    requires Sound(c, active, stamp, clock) && o in c.vnode && active[o] > 0
    ensures Sound(Unlinked(c, o), active, stamp, clock)
  {
    assert CountOk(c.vnode[o], active[o]);
    RevnodeOk(c, o, Unlinked(c, o).vnode[o]);
  }

  lemma MovedOwes(c: Cache, f: nat, dest: nat, active: map<nat, nat>)
    requires Indexed(c) && CountsOk(c.vnode, active) && f in c.frame && dest != c.frame[f].obj
    ensures var o := c.frame[f].obj; var m := Moved(c, f, dest);
      CountsOwing(m.vnode, active, o) && !Doomed(m.vnode[o])
  {
    var o := c.frame[f].obj;
    assert CountOk(c.vnode[o], active[o]);
    assert OwnsOk(c.frame, o, c.vnode[o]);
    UnlinkRemoves(c.vnode[o].res, f);
  }

  lemma LastCounts(c: Cache, o: nat, active: map<nat, nat>)
    requires CountsOwing(c.vnode, active, o) && !Doomed(c.vnode[o]) && c.vnode[o].nres == |c.vnode[o].res|
    ensures CountsOk(Put(c, o).vnode, if o in Put(c, o).vnode then active else active - {o})
  {
    if c.vnode[o].refcount == 1 {
      CountsDelete(c.vnode, active, o);
    } else {
      CountsDrop(c.vnode, active, o);
    }
  }

  lemma CountsWith(vnode: map<nat, Vnode>, active: map<nat, nat>, o: nat, f: nat)
    requires CountsOk(vnode, active) && o in vnode && !vnode[o].busy
    ensures CountsOk(vnode[o := With(vnode[o], f)], active)
  {
    assert CountOk(vnode[o], active[o]);
  }

  /** A page that moves takes its reference along. */
  lemma RehomeSound(c: Cache, f: nat, dest: nat, active: map<nat, nat>, stamp: map<nat, nat>, clock: nat)
    requires Sound(c, active, stamp, clock) && f in c.frame && dest in c.vnode && !c.vnode[dest].busy
    requires dest != c.frame[f].obj && !c.Resident(dest, c.frame[f].page)
    ensures var o := c.frame[f].obj;
      Sound(Rehome(c, f, dest), ActiveAfter(Rehome(c, f, dest), o, active, 0), stamp, clock)
  {
    var o, m := c.frame[f].obj, Moved(c, f, dest);
    MovedOwes(c, f, dest, active);
    RehomeOk(c, f, dest);
    RehomeCounts(c, f, dest, active);
  }

  lemma RehomeCounts(c: Cache, f: nat, dest: nat, active: map<nat, nat>)
    requires Indexed(c) && CountsOk(c.vnode, active) && f in c.frame && dest in c.vnode && !c.vnode[dest].busy
    requires dest != c.frame[f].obj
    ensures CountsOk(Rehome(c, f, dest).vnode, ActiveAfter(Rehome(c, f, dest), c.frame[f].obj, active, 0))
  {
    var o, m := c.frame[f].obj, Moved(c, f, dest);
    MovedOwes(c, f, dest, active);
    assert OwnsOk(c.frame, o, c.vnode[o]);
    UnlinkRemoves(c.vnode[o].res, f);
    LastCounts(m, o, active);
    var d := RehomeParts(c, f, dest);
    assert active[o := active[o]] == active;
    CountsWith(d.vnode, if o in d.vnode then active else active - {o}, dest, f);
  }

  // ---- Runs ----

  /** The cache with what the invariant remembers: active references, and when each frame was last
      requested or unpinned. */
  datatype World = World(c: Cache, active: map<nat, nat>, stamp: map<nat, nat>, clock: nat)

  ghost predicate Good(w: World) {
    Sound(w.c, w.active, w.stamp, w.clock)
  }

  datatype Op =
    | Request(f: nat)                             // pframe_get_resident finds f
    | Load(f: nat, o: nat, page: nat)             // pframe_alloc
    | PinPage(f: nat) | UnpinPage(f: nat)
    | MarkPage(f: nat, dirty: bool)               // pframe_dirty, pframe_clean
    | FreePage(f: nat)                            // pframe_free
    | MovePage(f: nat, dest: nat)                 // pframe_migrate
    | RefVnode(o: nat) | PutVnode(o: nat)         // vref, vput
    | StartVnode(o: nat, fs: nat, vno: nat) | FinishVnode(o: nat)   // vget
    | UnlinkVnode(o: nat)

  /** What the callers of each operation must see to. */
  ghost predicate CanDo(w: World, op: Op) {
    var c := w.c;
    match op
    case Request(f) => f in c.frame
    case Load(f, o, page) => f !in c.frame && o in c.vnode && !c.vnode[o].busy && !c.Resident(o, page)
    case PinPage(f) => f in c.frame
    case UnpinPage(f) => f in c.frame && c.frame[f].pin > 0
    case MarkPage(f, dirty) => f in c.frame
    case FreePage(f) => f in c.frame && c.frame[f].pin == 0
    case MovePage(f, dest) => f in c.frame && dest in c.vnode && !c.vnode[dest].busy
                              && dest != c.frame[f].obj && !c.Resident(dest, c.frame[f].page)
    case RefVnode(o) => o in c.vnode && !c.vnode[o].busy
    case PutVnode(o) => o in c.vnode && o in w.active && w.active[o] > 0
                        && (Doomed(c.vnode[o]) ==> forall f <- c.vnode[o].res :: f in c.frame && c.frame[f].pin == 0)
    case StartVnode(o, fs, vno) => o !in c.vnode && forall q :: q in c.vnode ==>
      !(c.vnode[q].fs == fs && c.vnode[q].vno == vno)
    case FinishVnode(o) => o in c.vnode && c.vnode[o].busy
    case UnlinkVnode(o) => o in c.vnode && o in w.active && w.active[o] > 0
  }

  ghost function Do(w: World, op: Op): World
    requires Good(w) && CanDo(w, op)
  {
    var c := w.c;
    match op
    case Request(f) => World(Touch(c, f), w.active, w.stamp[f := w.clock], w.clock + 1)
    case Load(f, o, page) => World(Attach(c, f, o, page), w.active, w.stamp[f := w.clock], w.clock + 1)
    case PinPage(f) => w.(c := Pin(c, f))
    case UnpinPage(f) => World(Unpin(c, f), w.active, w.stamp[f := w.clock], w.clock + 1)
    case MarkPage(f, dirty) => w.(c := SetDirty(c, f, dirty))
    case FreePage(f) => Lost(w, Put(Detach(c, f), c.frame[f].obj), c.frame[f].obj, 0)
    case MovePage(f, dest) => Lost(w, Rehome(c, f, dest), c.frame[f].obj, 0)
    case RefVnode(o) => w.(c := AddRef(c, o), active := w.active[o := w.active[o] + 1])
    case PutVnode(o) => Lost(w, Put(c, o), o, 1)
    case StartVnode(o, fs, vno) => w.(c := NewVnode(c, o, fs, vno), active := w.active[o := 0])
    case FinishVnode(o) => w.(c := Opened(c, o), active := w.active[o := 1])
    case UnlinkVnode(o) => w.(c := Unlinked(c, o))
  }

  /** The world after cache d came from an operation that took references from vnode o. */
  ghost function Lost(w: World, d: Cache, o: nat, lost: nat): World
    requires o in w.active && lost <= w.active[o]
  {
    w.(c := d, active := ActiveAfter(d, o, w.active, lost))
  }

  lemma PageOpKeeps(w: World, op: Op)
    requires Good(w) && CanDo(w, op)
    requires op.Request? || op.PinPage?
    ensures Good(Do(w, op))
  {
    match op
    case Request(f) => TouchSound(w.c, f, w.active, w.stamp, w.clock);
    case PinPage(f) => PinSound(w.c, f, w.active, w.stamp, w.clock);
  }

  lemma MarkOpKeeps(w: World, op: Op)
    requires Good(w) && CanDo(w, op)
    requires op.UnpinPage? || op.MarkPage?
    ensures Good(Do(w, op))
  {
    match op
    case UnpinPage(f) => UnpinSound(w.c, f, w.active, w.stamp, w.clock);
    case MarkPage(f, dirty) => DirtySound(w.c, f, dirty, w.active, w.stamp, w.clock);
  }

  lemma LoadOpKeeps(w: World, op: Op)
    requires Good(w) && CanDo(w, op) && op.Load?
    ensures Good(Do(w, op))
  {
    AttachSound(w.c, op.f, op.o, op.page, w.active, w.stamp, w.clock);
  }

  lemma FreeOpKeeps(w: World, op: Op)
    requires Good(w) && CanDo(w, op)
    requires op.FreePage? || op.MovePage?
    ensures Good(Do(w, op))
  {
    match op
    case FreePage(f) => FreeSound(w.c, f, w.active, w.stamp, w.clock);
    case MovePage(f, dest) => RehomeSound(w.c, f, dest, w.active, w.stamp, w.clock);
  }

  lemma RefOpKeeps(w: World, op: Op)
    requires Good(w) && CanDo(w, op)
    requires op.PutVnode? || op.RefVnode?
    ensures Good(Do(w, op))
  {
    match op
    case RefVnode(o) => RefSound(w.c, o, w.active, w.stamp, w.clock);
    case PutVnode(o) => DropSound(w.c, o, w.active, w.stamp, w.clock);
  }

  /** Every operation keeps the whole invariant. */
  lemma OpKeeps(w: World, op: Op)
    requires Good(w) && CanDo(w, op)
    ensures Good(Do(w, op))
  {
    match op
    case StartVnode(o, fs, vno) => StartSound(w.c, o, fs, vno, w.active, w.stamp, w.clock);
    case FinishVnode(o) => FinishSound(w.c, o, w.active, w.stamp, w.clock);
    case UnlinkVnode(o) => UnlinkedSound(w.c, o, w.active, w.stamp, w.clock);
    case FreePage(_) => FreeOpKeeps(w, op);
    case MovePage(_, _) => FreeOpKeeps(w, op);
    case Load(_, _, _) => LoadOpKeeps(w, op);
    case UnpinPage(_) => MarkOpKeeps(w, op);
    case MarkPage(_, _) => MarkOpKeeps(w, op);
    case RefVnode(_) => RefOpKeeps(w, op);
    case PutVnode(_) => RefOpKeeps(w, op);
    case _ => PageOpKeeps(w, op);
  }

  ghost function Start(freePages: int): World {
    World(Empty(freePages), map[], map[], 0)
  }

  type GoodWorld = w: World | Good(w) ghost witness Start(0)

  /** ws is a run: each world follows from the one before it by an operation its callers may ask for. */
  ghost predicate Run(ws: seq<World>, ops: seq<Op>, freePages: int) {
    && |ws| == |ops| + 1 && ws[0] == Start(freePages)
    && forall i :: 0 <= i < |ops| ==> Follows(ws[i], ops[i], ws[i + 1])
  }

  ghost predicate Follows(w: World, op: Op, w': World) {
    Good(w) ==> CanDo(w, op) && w' == Do(w, op)
  }

  lemma {:induction false} RunGood(ws: seq<World>, ops: seq<Op>, freePages: int, i: nat)
    requires Run(ws, ops, freePages) && i < |ws|
    ensures Good(ws[i])
  {
    if i > 0 {
      RunGood(ws, ops, freePages, i - 1);
      assert Follows(ws[i - 1], ops[i - 1], ws[i]);
      OpKeeps(ws[i - 1], ops[i - 1]);
    }
  }

  /** At every point of every run: a resident page has one frame, in the chain of its hash, on the
      pinned list if it is pinned and else on the alloc list, and on the list of its object. The
      counters are the lengths of the lists. */
  lemma FramesAgree(ws: seq<World>, ops: seq<Op>, freePages: int, i: nat, f: nat)
    requires Run(ws, ops, freePages) && i < |ws| && f in ws[i].c.frame
    ensures var c := ws[i].c; var fr := c.frame[f];
      && (forall g :: c.Holds(g, fr.obj, fr.page) ==> g == f)
      && |c.hash| == HASH_SIZE &&
        (forall h :: 0 <= h < HASH_SIZE ==> (f in c.hash[h] <==> h == HashOf(fr.obj, fr.page)))
      && (f in c.pinned <==> fr.pin > 0) && (f in c.alloc <==> fr.pin == 0)
      && (forall o :: o in c.vnode ==> (f in c.vnode[o].res <==> o == fr.obj)) && fr.obj in c.vnode
      && c.nallocated == |c.alloc| && c.npinned == |c.pinned| && c.vnode[fr.obj].nres == |c.vnode[fr.obj].res|
  {
    RunGood(ws, ops, freePages, i);
    var c := ws[i].c;
    var fr := c.frame[f];
    OwnPages(c, fr.obj);
    forall g | c.Holds(g, fr.obj, fr.page) ensures g == f {
      OneFrame(c, g, f, fr.obj, fr.page);
    }
    forall o | o in c.vnode ensures f in c.vnode[o].res <==> o == fr.obj {
      assert OwnsOk(c.frame, o, c.vnode[o]);
    }
  }

  /** At every point of every run: a vnode that is not being read in has as many references as
      holders and resident pages together, and is the only one of its file. */
  lemma VnodesCount(ws: seq<World>, ops: seq<Op>, freePages: int, i: nat, o: nat)
    requires Run(ws, ops, freePages) && i < |ws| && o in ws[i].c.vnode
    ensures var c := ws[i].c; var v := c.vnode[o];
      && o in ws[i].active && o in c.inuse
      && (if v.busy then v.refcount == 0 else v.refcount == ws[i].active[o] + v.nres && v.refcount > 0)
      && v.nres == |v.res| && (!v.busy && ws[i].active[o] == 0 ==> v.linked && v.nres > 0)
      && forall q :: q in c.vnode && c.vnode[q].fs == v.fs && c.vnode[q].vno == v.vno ==> q == o
  {
    RunGood(ws, ops, freePages, i);
    var c := ws[i].c;
    OwnPages(c, o);
    assert CountOk(c.vnode[o], ws[i].active[o]);
    forall q | q in c.vnode && c.vnode[q].fs == c.vnode[o].fs && c.vnode[q].vno == c.vnode[o].vno ensures q == o {
      assert SameFile(c.vnode, q, o);
    }
  }
}
