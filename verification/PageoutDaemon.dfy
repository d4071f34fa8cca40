/** The inner loop of the pageout daemon (pageoutd_run in pframe.c), while no page is busy. */
module PageoutDaemon {
  import opened Lists
  import opened PageCacheState
  import opened PageCacheRuns
  import opened PageCaches

  /** The pages on the list that still have to be written out. */
  function DirtyOn(alloc: seq<nat>, frame: map<nat, Frame>): nat {
    if alloc == [] then 0
    else (if alloc[0] in frame && frame[alloc[0]].dirty then 1 else 0) + DirtyOn(alloc[1..], frame)
  }

  /** The turns left: one for each page, and one more for each dirty page. */
  function Work(c: Cache): nat {
    |c.alloc| + DirtyOn(c.alloc, c.frame)
  }

  lemma {:induction false} WorkBound(alloc: seq<nat>, frame: map<nat, Frame>)
    ensures DirtyOn(alloc, frame) <= |alloc|
  {
    if alloc != [] { WorkBound(alloc[1..], frame); }
  }

  lemma {:induction false} DirtyElsewhere(alloc: seq<nat>, frame: map<nat, Frame>, frame': map<nat, Frame>)
    requires forall f <- alloc :: (f in frame <==> f in frame') && (f in frame ==> frame[f].dirty == frame'[f].dirty)
    ensures DirtyOn(alloc, frame) == DirtyOn(alloc, frame')
  {
    if alloc != [] { DirtyElsewhere(alloc[1..], frame, frame'); }
  }

  /** The head of the alloc list is unpinned and was requested longest ago of all unpinned pages. */
  lemma HeadIsOldest(w: World)
    requires Good(w) && w.c.alloc != []
    ensures var f := w.c.alloc[0];
      && f in w.c.frame && w.c.frame[f].pin == 0 && f in w.stamp
      && forall g :: g in w.c.frame && w.c.frame[g].pin == 0 && g != f ==> g in w.stamp && w.stamp[f] < w.stamp[g]
  {
    var f := w.c.alloc[0];
    assert f in w.c.alloc;
    forall g | g in w.c.frame && w.c.frame[g].pin == 0 && g != f ensures g in w.stamp && w.stamp[f] < w.stamp[g] {
      assert g in w.c.alloc;
    }
  }

  /** Writing out the head leaves one dirty page less, or the page dirty if writing failed. */
  lemma CleanTurn(w: World, ok: bool)
    requires Good(w) && w.c.alloc != [] && w.c.alloc[0] in w.c.frame && w.c.frame[w.c.alloc[0]].dirty
    ensures var w' := w.(c := SetDirty(w.c, w.c.alloc[0], !ok));
      && Good(w') && w'.c.alloc == w.c.alloc && w'.c.freePages == w.c.freePages
      && Work(w'.c) == Work(w.c) - (if ok then 1 else 0)
  {
    var f := w.c.alloc[0];
    DirtySound(w.c, f, !ok, w.active, w.stamp, w.clock);
    assert f !in w.c.alloc[1..];
    DirtyElsewhere(w.c.alloc[1..], w.c.frame, SetDirty(w.c, f, !ok).frame);
  }

  lemma UnlinkHead(s: seq<nat>)
    requires s != []
    ensures Unlink(s, s[0]) == s[1..]
  {
  }

  lemma FreeEffect(c: Cache, f: nat)
    requires c.alloc != [] && f == c.alloc[0] && f in c.frame && c.frame[f].obj in c.vnode && |c.hash| == HASH_SIZE
    requires !Doomed(Detach(c, f).vnode[c.frame[f].obj])
    ensures var d := Put(Detach(c, f), c.frame[f].obj);
      d.alloc == c.alloc[1..] && d.frame == c.frame - {f} && d.freePages == c.freePages + 1
  {
    UnlinkHead(c.alloc);
  }

  lemma FreeWork(c: Cache, f: nat)
    requires c.alloc != [] && f == c.alloc[0] && f in c.frame && !c.frame[f].dirty && Distinct(c.alloc)
    ensures DirtyOn(c.alloc[1..], c.frame - {f}) == DirtyOn(c.alloc, c.frame)
  {
    DirtyElsewhere(c.alloc[1..], c.frame, c.frame - {f});
  }

  ghost function Freed(w: World, f: nat): World
    requires f in w.c.frame && w.c.frame[f].obj in w.active && w.c.frame[f].obj in w.c.vnode && |w.c.hash| == HASH_SIZE
  {
    Lost(w, Put(Detach(w.c, f), w.c.frame[f].obj), w.c.frame[f].obj, 0)
  }

  /** Freeing the head takes that one page and nothing else. */
  lemma FreeTurn(w: World, f: nat)
    requires Good(w) && w.c.alloc != [] && f == w.c.alloc[0] && f in w.c.frame && !w.c.frame[f].dirty &&
      w.c.frame[f].pin == 0
    ensures Held(w.c, w.c.frame[f].obj) && f in w.c.vnode[w.c.frame[f].obj].res && w.c.frame[f].obj in w.active
    ensures Good(Freed(w, f)) && Freed(w, f).stamp == w.stamp
    ensures Freed(w, f).c.alloc == w.c.alloc[1..] && Freed(w, f).c.frame == w.c.frame - {f}
    ensures Freed(w, f).c.freePages == w.c.freePages + 1 && Work(Freed(w, f).c) == Work(w.c) - 1
  {
    FreeSound(w.c, f, w.active, w.stamp, w.clock);
    FreeEffect(w.c, f);
    FreeWork(w.c, f);
  }

  function Failures(answers: seq<bool>): nat {
    if answers == [] then 0 else (if answers[0] then 0 else 1) + Failures(answers[1..])
  }

  /** The frames but for their dirty bits. */
  ghost predicate SameButDirty(frame: map<nat, Frame>, frame': map<nat, Frame>) {
    && frame.Keys == frame'.Keys
    && forall f :: f in frame ==> frame'[f] == frame[f].(dirty := frame'[f].dirty)
  }

  /** The pages that were first on the list. */
  ghost function FirstOf(alloc: seq<nat>, k: nat): set<nat>
    requires k <= |alloc|
  {
    set f | f in alloc[..k]
  }

  lemma FirstMore(alloc: seq<nat>, k: nat)
    requires k < |alloc|
    ensures FirstOf(alloc, k + 1) == FirstOf(alloc, k) + {alloc[k]}
  {
    assert alloc[..k + 1] == alloc[..k] + [alloc[k]];
  }

  lemma DropOne(frame0: map<nat, Frame>, frame: map<nat, Frame>, gone: set<nat>, f: nat)
    requires SameButDirty(frame0 - gone, frame)
    ensures SameButDirty(frame0 - (gone + {f}), frame - {f})
  {
  }

  lemma DirtyOne(frame0: map<nat, Frame>, frame: map<nat, Frame>, f: nat, dirty: bool)
    requires SameButDirty(frame0, frame) && f in frame
    ensures SameButDirty(frame0, frame[f := frame[f].(dirty := dirty)])
  {
  }

  /** The first k pages are gone, and so far none too many. */
  ghost predicate Reclaimed(start: World, w: World, k: nat, target: int) {
    && w.stamp == start.stamp
    && k <= |start.c.alloc| && w.c.alloc == start.c.alloc[k..] && w.c.freePages == start.c.freePages + k
    && SameButDirty(start.c.frame - FirstOf(start.c.alloc, k), w.c.frame)
    && (k > 0 ==> w.c.freePages <= target)
  }

  lemma ReclaimedClean(start: World, w: World, k: nat, target: int, f: nat, ok: bool)
    requires Reclaimed(start, w, k, target) && f in w.c.frame
    ensures Reclaimed(start, w.(c := SetDirty(w.c, f, !ok)), k, target)
  {
    DirtyOne(start.c.frame - FirstOf(start.c.alloc, k), w.c.frame, f, !ok);
  }

  lemma ReclaimedFree(start: World, w: World, k: nat, target: int, w': World)
    requires Reclaimed(start, w, k, target) && w.c.alloc != [] && w.c.freePages < target
    requires w'.stamp == w.stamp && w'.c.alloc == w.c.alloc[1..] && w'.c.frame == w.c.frame - {w.c.alloc[0]}
    requires w'.c.freePages == w.c.freePages + 1
    ensures Reclaimed(start, w', k + 1, target)
  {
    FirstMore(start.c.alloc, k);
    DropOne(start.c.frame, w.c.frame, FirstOf(start.c.alloc, k), w.c.alloc[0]);
  }

  /** One turn on the head of the list. */
  method Turn(cache: PageCache, ok: bool, ghost w: GoodWorld) returns (freed: bool, ghost w': GoodWorld)
    requires cache.View() == w.c && w.c.alloc != []
    modifies cache
    ensures cache.View() == w'.c
    ensures old(cache.alloc[0]) in w.c.frame && freed == !w.c.frame[old(cache.alloc[0])].dirty
    ensures freed ==> w'.stamp == w.stamp && w'.c.alloc == w.c.alloc[1..]
                      && w'.c.frame == w.c.frame - {w.c.alloc[0]} && w'.c.freePages == w.c.freePages + 1
    ensures !freed ==> w' == w.(c := SetDirty(w.c, w.c.alloc[0], !ok))
    ensures Work(w'.c) == Work(w.c) - if freed || ok then 1 else 0
  {
    HeadIsOldest(w);
    var f := cache.alloc[0];
    freed := !cache.frame[f].dirty;
    if freed {
      FreeTurn(w, f);
      w' := Freed(w, f);
      cache.PframeFree(f);
    } else {
      CleanTurn(w, ok);
      w' := w.(c := SetDirty(w.c, f, !ok));
      cache.Clean(f, ok);
    }
  }

  /** A point in the loop: the world at the start, the world now, and the pages reclaimed. */
  datatype Point = Point(start: World, now: GoodWorld, k: nat, target: int)

  ghost predicate PointOk(p: Point) {
    Reclaimed(p.start, p.now, p.k, p.target)
  }

  type Progress = p: Point | PointOk(p) ghost witness Point(Start(0), Start(0), 0, 0)

  lemma AfterFree(p: Progress, w': GoodWorld) returns (q: Progress)
    requires p.now.c.alloc != [] && p.now.c.freePages < p.target
    requires w'.stamp == p.now.stamp && w'.c.alloc == p.now.c.alloc[1..] && w'.c.freePages == p.now.c.freePages + 1
    requires w'.c.frame == p.now.c.frame - {p.now.c.alloc[0]}
    ensures q == Point(p.start, w', p.k + 1, p.target)
  {
    ReclaimedFree(p.start, p.now, p.k, p.target, w');
    q := Point(p.start, w', p.k + 1, p.target);
  }

  lemma AfterClean(p: Progress, w': GoodWorld, f: nat, ok: bool) returns (q: Progress)
    requires f in p.now.c.frame && w' == p.now.(c := SetDirty(p.now.c, f, !ok))
    ensures q == Point(p.start, w', p.k, p.target)
  {
    ReclaimedClean(p.start, p.now, p.k, p.target, f, ok);
    q := Point(p.start, w', p.k, p.target);
  }

  /** The same turn, with what has been reclaimed since the start. */
  method CountedTurn(cache: PageCache, ok: bool, ghost p: Progress) returns (ghost q: Progress)
    requires cache.View() == p.now.c && p.now.c.alloc != [] && p.now.c.freePages < p.target
    modifies cache
    ensures cache.View() == q.now.c && q.start == p.start && q.target == p.target
    ensures Work(q.now.c) + (if ok then 1 else 0) <= Work(p.now.c)
  {
    var freed;
    ghost var w';
    freed, w' := Turn(cache, ok, p.now);
    if freed {
      q := AfterFree(p, w');
    } else {
      q := AfterClean(p, w', p.now.c.alloc[0], ok);
    }
  }

  /** What is left to do, in turns. */
  ghost function Left(w: World, answers: seq<bool>, turns: nat): nat {
    Work(w.c) + if turns <= |answers| then Failures(answers[turns..]) else 0
  }

  lemma LeftLess(w: World, w': World, answers: seq<bool>, turns: nat)
    requires Work(w'.c) + (if turns >= |answers| || answers[turns] then 1 else 0) <= Work(w.c)
    ensures Left(w', answers, turns + 1) < Left(w, answers, turns)
  {
  }

  lemma LeftAtStart(w: World, answers: seq<bool>)
    ensures Left(w, answers, 0) <= 2 * |w.c.alloc| + Failures(answers)
  {
    WorkBound(w.c.alloc, w.c.frame);
    assert answers[0..] == answers;
  }

  lemma AtStart(w: GoodWorld, target: int) returns (p: Progress)
    ensures p == Point(w, w, 0, target)
  {
    assert w.c.frame - FirstOf(w.c.alloc, 0) == w.c.frame;
    p := Point(w, w, 0, target);
  }

  /** The loop. The i-th answer says whether a page cleaned in turn i could be written; when there
      are no more answers, cleaning succeeds. It reclaims exactly the `k` pages that were requested
      longest ago, no more of them than the target asks for, and ends after at most two turns for each
      page it found and one for each failed write. */
  method Pageout(cache: PageCache, target: int, answers: seq<bool>, ghost start: World)
    returns (turns: nat, ghost k: nat, ghost end: World)
    requires cache.View() == start.c && Good(start)
    modifies cache
    ensures cache.View() == end.c && Good(end) && Reclaimed(start, end, k, target)
    ensures end.c.freePages >= target || end.c.alloc == []
    ensures turns <= 2 * |start.c.alloc| + Failures(answers)
  {
    turns := 0;
    LeftAtStart(start, answers);
    ghost var p: Progress := AtStart(start, target);
    while cache.freePages < target && cache.alloc != []
      invariant cache.View() == p.now.c && p.start == start && p.target == target
      invariant turns + Left(p.now, answers, turns) <= 2 * |start.c.alloc| + Failures(answers)
      decreases Left(p.now, answers, turns)
    {
      ghost var w := p.now;
      p := CountedTurn(cache, turns >= |answers| || answers[turns], p);
      LeftLess(w, p.now, answers, turns);
      turns := turns + 1;
    }
    k, end := p.k, p.now;
  }
}
