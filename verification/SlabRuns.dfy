/** Every run of the slab allocators against the plain set of objects their callers hold. */
module SlabRuns {
  import opened Basics
  import opened Lists
  import opened SlabLayout
  import opened SlabHeap

  /** The heap, and the objects handed out and not yet freed, each with its slab. */
  datatype World = World(k: Kmem, held: set<(nat, nat)>)

  datatype Op =
    | Create(c: nat, objsize: nat, order: nat)      // slab_allocator_create
    | Allocate(c: nat, block: Option<nat>)          // slab_obj_alloc, with page_alloc_n's answer
    | Release(s: nat, obj: nat)                     // slab_obj_free
    | GiveBack(s: nat)                              // one slab in slab_allocators_reclaim

  ghost predicate Agree(w: World) {
    KmemOk(w.k) && forall s: nat, x: nat :: Live(w.k, s, x) <==> (s, x) in w.held
  }

  ghost predicate CanDo(w: World, op: Op) {
    match op
    case Create(c, objsize, order) => c !in w.k.cache && SlabNobjs(objsize, order) >= 1
    case Allocate(c, block) => c in w.k.cache && (block.Some? ==> FreshBlock(w.k, block.value, w.k.cache[c].order))
    case Release(s, obj) => (s, obj) in w.held
    case GiveBack(s) => s in w.k.slab && s in w.k.owner && w.k.owner[s] in w.k.cache && SlabAt(w.k, s).inuse == 0
  }

  function Do(w: World, op: Op): World
    requires op.Allocate? ==> op.c in w.k.cache
    requires op.GiveBack? ==> op.s in w.k.owner && w.k.owner[op.s] in w.k.cache
  {
    match op
    case Create(c, objsize, order) => w.(k := NewCache(w.k, c, objsize, order, SlabNobjs(objsize, order)))
    case Allocate(c, block) =>
      var k1 := Supplied(w.k, c, block);
      (match RoomIn(k1, c)
       case None => w
       case Some(s) => World(Pop(k1, s), w.held + {(s, SlabAt(k1, s).free)}))
    case Release(s, obj) => World(Push(w.k, obj, obj + CacheOf(w.k, s).objsize), w.held - {(s, obj)})
    case GiveBack(s) => w.(k := Drop(w.k, s))
  }

  lemma StepAgrees(w: World, op: Op)
    requires Agree(w) && CanDo(w, op)
    ensures Agree(Do(w, op))
    ensures op.Allocate? && Do(w, op) != w ==> exists p :: p !in w.held && Do(w, op).held == w.held + {p}
  {
    match op
    case Create(c, objsize, order) => NewCacheOk(w.k, c, objsize, order);
    case Allocate(c, block) =>
      AllocMeans(w.k, c, block);
      var k1 := Supplied(w.k, c, block);
      if RoomIn(k1, c).Some? {
        var p := (RoomIn(k1, c).value, SlabAt(k1, RoomIn(k1, c).value).free);
        assert p !in w.held && Do(w, op).held == w.held + {p};
      }
    case Release(s, obj) => PushOk(w.k, s, obj);
    case GiveBack(s) => DropOk(w.k, s);
  }

  /** ws is a run from the empty heap by operations their callers may ask for. */
  ghost predicate Run(ws: seq<World>, ops: seq<Op>) {
    && |ws| == |ops| + 1 && ws[0] == World(Kmem(map[], [], map[], map[], map[], map[], map[]), {})
    && forall i :: 0 <= i < |ops| ==> Follows(ws[i], ops[i], ws[i + 1])
  }

  ghost predicate Follows(w: World, op: Op, w': World) {
    Agree(w) ==> CanDo(w, op) && w' == Do(w, op)
  }

  /** At every point of every run the slabs' live objects are the objects held. */
  lemma {:induction false} RunAgrees(ws: seq<World>, ops: seq<Op>, i: nat)
    requires Run(ws, ops) && i < |ws|
    ensures Agree(ws[i])
  {
    if i > 0 {
      RunAgrees(ws, ops, i - 1);
      assert Follows(ws[i - 1], ops[i - 1], ws[i]);
      StepAgrees(ws[i - 1], ops[i - 1]);
    }
  }

  /** At every point of every run: two objects held do not overlap, each has its control word, which
      leads to its slab, and the slab's count is the number of its objects held. */
  lemma HeldApart(ws: seq<World>, ops: seq<Op>, i: nat, p: (nat, nat), q: (nat, nat))
    requires Run(ws, ops) && i < |ws| && p in ws[i].held && q in ws[i].held && p != q
    ensures var k := ws[i].k;
      && (p.1 + CacheOf(k, p.0).objsize + BUFCTL <= q.1 || q.1 + CacheOf(k, q.0).objsize + BUFCTL <= p.1)
      && Taken(k.ctl, p.1 + CacheOf(k, p.0).objsize, p.0)
      && SlabAt(k, p.0).inuse == |HeldOf(ws[i], p.0)|
  {
    RunAgrees(ws, ops, i);
    var k := ws[i].k;
    LiveApart(k, p.0, p.1, q.0, q.1);
    BackPointer(k, p.0, p.1);
    HeldCount(ws[i], p.0);
  }

  ghost function HeldOf(w: World, s: nat): set<nat> {
    set p | p in w.held && p.0 == s :: p.1
  }

  lemma HeldCount(w: World, s: nat)
    requires Agree(w) && s in w.k.slab
    ensures SlabAt(w.k, s).inuse == |HeldOf(w, s)|
  {
    BodyOf(w.k, s);
    var sl, c, chain := SlabAt(w.k, s), CacheOf(w.k, s), ChainAt(w.k, s);
    Partition(sl, w.k.ctl, s, chain, c.objsize, c.nobjs);
    var live := Members(Places(sl, c.objsize, c.nobjs)) - Members(chain);
    forall x: nat ensures x in live <==> x in HeldOf(w, s) {
      assert x in live <==> x in Places(sl, c.objsize, c.nobjs) && x !in chain;
      assert x in live <==> Live(w.k, s, x);
      assert Live(w.k, s, x) <==> (s, x) in w.held;
      assert x in HeldOf(w, s) <==> (s, x) in w.held by {
        if (s, x) in w.held {
          var p := (s, x);
          assert p in w.held && p.0 == s;
        }
      }
    }
    assert HeldOf(w, s) == live;
  }
}
