/** The slab allocators on top of the page allocator: each block a slab lies in is on loan from page.c. */
module SlabPages {
  import opened Basics
  import opened Lists
  import opened Shifts
  import opened BuddyBlocks
  import opened PageAllocators
  import opened PageGroups
  import opened SlabAllocators
  import opened SlabLayout
  import H = SlabHeap

  /** Loan l is the block of n pages at byte address b. */
  ghost predicate IsBlock(groups: seq<PageGroup>, loans: set<Loan>, l: Loan, b: nat, n: nat) {
    && l in loans && l.group < |groups|
    && b == PAGE_SIZE * Addr(groups[l.group].base, l.block) && n == Shl(1, l.block.order)
  }

  ghost predicate Backed(groups: seq<PageGroup>, loans: set<Loan>, loan: map<nat, nat>) {
    forall b :: b in loan ==> exists l :: IsBlock(groups, loans, l, b, loan[b])
  }

  ghost predicate HeapOk(k: H.Kmem) {
    H.KmemOk(k) && forall c :: c in k.cache ==> k.cache[c].order < PAGE_NSIZES
  }

  /** Both allocators are in order, and the slabs' blocks are loans. Page 0 belongs to no group. */
  ghost predicate Joint(a: PageAllocator, h: SlabKernel)
    reads a, a.groups, h
  {
    && a.Valid() && a.nsizes == PAGE_NSIZES && (forall g <- a.groups :: g.base > 0)
    && HeapOk(h.View()) && Backed(a.groups, a.books.loans, h.loan)
  }

  lemma PagesApart(b: Block, c: Block)
    requires b.PageSet() !! c.PageSet()
    ensures Shl(b.index + 1, b.order) <= Shl(c.index, c.order) || Shl(c.index + 1, c.order) <= Shl(b.index, b.order)
  {
    ShlMono(b.index, b.index + 1, b.order);
    ShlMono(c.index, c.index + 1, c.order);
    assert Shl(b.index, b.order) in b.PageSet() && Shl(c.index, c.order) in c.PageSet();
  }

  /** A block on loan ends within its group. */
  lemma LoanEnds(a: PageAllocator, l: Loan)
    requires a.Valid() && l in a.books.loans
    ensures l.group < |a.groups|
    ensures a.groups[l.group].base <= a.AddrOf(l)
    ensures a.AddrOf(l) + Shl(1, l.block.order) == a.groups[l.group].base + Shl(l.block.index + 1, l.block.order)
    ensures a.AddrOf(l) + Shl(1, l.block.order) <= a.groups[l.group].end
  {
    a.LoanInGroup(l);
    a.GroupFacts(l.group);
    LedgerLoan(a.ledger, l);
    var b := l.block;
    ShlAdd(b.index, 1, b.order);
    ShlMono(b.index, b.index + 1, b.order);
    WithinRange(b, a.nsizes - 1, a.groups[l.group].count);
    assert Shl(b.index + 1, b.order) - 1 in b.PageSet();
  }

  /** Two loans do not overlap. */
  lemma LoansApart(a: PageAllocator, l: Loan, m: Loan)
    requires a.Valid() && l in a.books.loans && m in a.books.loans && l != m
    ensures l.group < |a.groups| && m.group < |a.groups|
    ensures a.AddrOf(l) + Shl(1, l.block.order) <= a.AddrOf(m) || a.AddrOf(m) + Shl(1, m.block.order) <= a.AddrOf(l)
  {
    LoanEnds(a, l);
    LoanEnds(a, m);
    if l.group == m.group {
      LoansDisjoint(a.ledger, l, m);
      PagesApart(l.block, m.block);
    }
  }

  lemma LoansDisjoint(g: GoodLedger, l: Loan, m: Loan)
    requires l in g.books.loans && m in g.books.loans && l != m && l.group == m.group
    ensures l.block.PageSet() !! m.block.PageSet()
  {
  }

  /** A loan that backs none of the blocks the slabs hold is a fresh block for them, in bytes. */
  lemma LoanIsFresh(a: PageAllocator, k: H.Kmem, l: Loan)
    requires a.Valid() && l in a.books.loans && l.group < |a.groups| && a.groups[l.group].base > 0
    requires Backed(a.groups, a.books.loans - {l}, k.loan)
    ensures H.FreshBlock(k, PAGE_SIZE * a.AddrOf(l), l.block.order)
  {
    a.LoanInGroup(l);
    H.PagesBytes(1, l.block.order);
    forall b | b in k.loan
      ensures b + PAGE_SIZE * k.loan[b] <= PAGE_SIZE * a.AddrOf(l) ||
        PAGE_SIZE * a.AddrOf(l) + BlockSize(l.block.order) <= b
    {
      var m :| IsBlock(a.groups, a.books.loans - {l}, m, b, k.loan[b]);
      LoansApart(a, l, m);
    }
  }

  /** The order page_alloc_n finds for a power of two */
  lemma ExactOrder(order: nat, found: nat)
    requires order < PAGE_NSIZES && IsOrderFor(Shl(1, order), PAGE_NSIZES, found)
    ensures found == order
  {
    ShlGrows(1, order, PAGE_NSIZES - 1);
    assert Shl(1, 7) == Shl(2, 6) == Shl(4, 5) == Shl(8, 4) == Shl(16, 3) == Shl(32, 2);
    if found < order { ShlLess(found, order); }
  }

  lemma ShlLess(j: nat, k: nat)
    requires j < k
    ensures Shl(1, j) < Shl(1, k)
  {
    ShlGrows(1, j, k - 1);
    ShlTop(1, k);
  }

  lemma MoreLoans(groups: seq<PageGroup>, loans: set<Loan>, more: set<Loan>, loan: map<nat, nat>)
    requires Backed(groups, loans, loan) && loans <= more
    ensures Backed(groups, more, loan)
  {
    forall b | b in loan ensures exists l :: IsBlock(groups, more, l, b, loan[b]) {
      var l :| IsBlock(groups, loans, l, b, loan[b]);
      assert IsBlock(groups, more, l, b, loan[b]);
    }
  }

  /** A block goes back: the others are backed by other loans. */
  lemma OthersBacked(groups: seq<PageGroup>, loans: set<Loan>, loan: map<nat, nat>, b: nat, l: Loan)
    requires Backed(groups, loans, loan) && b in loan && IsBlock(groups, loans, l, b, loan[b])
    ensures Backed(groups, loans - {l}, loan - {b})
  {
    var rest := loan - {b};
    forall b' | b' in rest ensures exists m :: IsBlock(groups, loans - {l}, m, b', rest[b']) {
      assert b' in loan;
      var m :| IsBlock(groups, loans, m, b', loan[b']);
      assert IsBlock(groups, loans - {l}, m, b', rest[b']);
    }
  }

  /** A slab in a block just lent */
  lemma NewLoan(a: PageAllocator, k: H.Kmem, c: nat, l: Loan)
    requires a.Valid() && l in a.books.loans && l.group < |a.groups| && a.groups[l.group].base > 0
    requires HeapOk(k) && c in k.cache && l.block.order == k.cache[c].order
    requires Backed(a.groups, a.books.loans - {l}, k.loan)
    ensures var base := PAGE_SIZE * a.AddrOf(l);
      && H.FreshBlock(k, base, k.cache[c].order) && HeapOk(H.Grow(k, c, base))
      && Backed(a.groups, a.books.loans, H.Grow(k, c, base).loan)
  {
    LoanIsFresh(a, k, l);
    var base := PAGE_SIZE * a.AddrOf(l);
    H.GrowOk(k, c, base);
    assert IsBlock(a.groups, a.books.loans, l, base, Shl(1, l.block.order));
    MoreLoans(a.groups, a.books.loans - {l}, a.books.loans, k.loan);
  }

  /** page_alloc_n up to its reclaim, and the slab */
  method TryGrow(a: PageAllocator, h: SlabKernel, c: nat) returns (ok: bool, ghost l: Loan)
    requires Joint(a, h) && c in h.cache
    modifies a`freecount, a`books, a`ledger, a.groups, h`cache, h`slab, h`ctl, h`loan, h`chain, h`owner
    ensures Joint(a, h) && a.groups == old(a.groups)
    ensures ok ==>
      && l.group < |a.groups| && H.FreshBlock(old(h.View()), PAGE_SIZE * a.AddrOf(l), old(h.cache[c].order))
      && l.group < |old(a.books).free| && HasRoom(old(a.books).free[l.group], old(h.cache[c].order))
      && h.View() == H.Grow(old(h.View()), c, PAGE_SIZE * a.AddrOf(l))
    ensures !ok ==>
      && h.View() == old(h.View()) && a.books == old(a.books) && a.freecount == old(a.freecount)
      && forall i :: 0 <= i < |old(a.books).free| ==> !HasRoom(old(a.books).free[i], old(h.cache[c].order))
  {
    var block;
    block, l := LendBlock(a, h.cache[c].order);
    assert H.CacheOk(h.View(), c);
    if block.Some? {
      assert a.books.loans - {l} == old(a.books.loans);
      NewLoan(a, h.View(), c, l);
    }
    ok := h.GrowCache(c, block);
  }

  /** page_alloc_n of a power of two, up to its reclaim: the byte address of the block */
  method LendBlock(a: PageAllocator, order: nat) returns (block: Option<nat>, ghost l: Loan)
    requires a.Valid() && a.nsizes == PAGE_NSIZES && order < PAGE_NSIZES
    modifies a`freecount, a`books, a`ledger, a.groups
    ensures a.Valid() && a.groups == old(a.groups)
    ensures block.Some? ==>
      && l.group < |a.groups| && l.group < |old(a.books).free| && l.block.order == order
      && block.value == PAGE_SIZE * a.AddrOf(l) && l !in old(a.books).loans && a.books == old(a.books).Lend(l)
      && HasRoom(old(a.books).free[l.group], order)
    ensures block.None? ==>
      && a.books == old(a.books) && a.freecount == old(a.freecount)
      && forall i :: 0 <= i < |old(a.books).free| ==> !HasRoom(old(a.books).free[i], order)
  {
    OrderOfLoan(order, order);
    SomeOrder(order);
    var idle: seq<Loan> := [];
    var r;
    r, l := a.AllocN(Shl(1, order), idle);
    ghost var free := old(a.books).free;
    if r.At? {
      ExactOrder(order, l.block.order);
      return Some(PAGE_SIZE * r.addr), l;
    }
    forall i | 0 <= i < |free| ensures !HasRoom(free[i], order) {
      assert IsOrderFor(Shl(1, order), a.nsizes, order) && i < |a.groups|;
    }
    return None, l;
  }

  /** page_alloc_n does not panic on the size of a slab. */
  lemma SomeOrder(order: nat)
    requires order < PAGE_NSIZES
    ensures !forall k: nat :: k < PAGE_NSIZES ==> Shl(1, k) < Signed(Shl(1, order))
  {
    OrderOfLoan(order, order);
    assert Shl(1, order) >= Signed(Shl(1, order));
  }

  /** What the heap knows of slab j of allocator c when it is idle. */
  lemma Droppable(k: H.Kmem, c: nat, j: nat)
    requires HeapOk(k) && c in k.cache && j < |k.cache[c].slabs|
    requires k.cache[c].slabs[j] in k.slab && k.slab[k.cache[c].slabs[j]].inuse == 0
    ensures var s := k.cache[c].slabs[j];
      && Distinct(k.cache[c].slabs) && s in k.owner && k.owner[s] == c && HeapOk(H.Drop(k, s))
      && k.slab[s].addr in k.loan && k.loan[k.slab[s].addr] == Shl(1, k.cache[c].order)
      && H.Drop(k, s).loan == k.loan - {k.slab[s].addr} && k.cache[c].order < PAGE_NSIZES
  {
    assert H.CacheOk(k, c);
    H.DropOk(k, k.cache[c].slabs[j]);
  }

  /** The loan behind a block */
  lemma LoanOf(a: PageAllocator, loan: map<nat, nat>, b: nat, order: nat) returns (l: Loan)
    requires a.Valid() && a.nsizes == PAGE_NSIZES && Backed(a.groups, a.books.loans, loan)
    requires b in loan && order < PAGE_NSIZES && loan[b] == Shl(1, order)
    ensures IsBlock(a.groups, a.books.loans, l, b, loan[b]) && l.group < |a.groups| && b / PAGE_SIZE == a.AddrOf(l)
    ensures l.group < |a.books.free| && IsOrderFor(Shl(1, order), a.nsizes, l.block.order)
    ensures Backed(a.groups, a.books.Return(l).loans, loan - {b})
  {
    l :| IsBlock(a.groups, a.books.loans, l, b, loan[b]);
    a.GroupFacts(l.group);
    OrderOfLoan(order, l.block.order);
    OthersBacked(a.groups, a.books.loans, loan, b, l);
  }

  /** An idle slab in slab_allocators_reclaim with page_free_n: exactly the loan its block is goes back. */
  method DropTo(a: PageAllocator, h: SlabKernel, c: nat, j: nat) returns (npages: nat, ghost l: Loan)
    requires Joint(a, h) && c in h.cache && j < |h.cache[c].slabs|
    requires h.cache[c].slabs[j] in h.slab && h.slab[h.cache[c].slabs[j]].inuse == 0
    modifies a`freecount, a`books, a`ledger, a.groups, h`cache, h`slab, h`loan, h`chain, h`owner
    ensures Joint(a, h) && a.groups == old(a.groups)
    ensures var s := old(h.cache[c].slabs[j]);
      s in old(h.owner) && old(h.owner)[s] == c && h.View() == H.Drop(old(h.View()), s)
    ensures old(IsBlock(a.groups, a.books.loans, l, h.slab[h.cache[c].slabs[j]].addr, npages))
    ensures l.group < |old(a.books.free)| && a.books == old(a.books).Return(l)
    ensures npages == Shl(1, old(h.cache[c].order))
  {
    var b := h.slab[h.cache[c].slabs[j]].addr;
    Droppable(h.View(), c, j);
    l := LoanOf(a, h.loan, b, h.cache[c].order);
    npages := h.DropSlab(c, j);
    a.FreeN(b / PAGE_SIZE, npages, l);
  }

  /** page_free_n finds the order of the loan from the number of pages. */
  lemma OrderOfLoan(order: nat, lent: nat)
    requires order < PAGE_NSIZES && Shl(1, lent) == Shl(1, order)
    ensures lent == order && IsOrderFor(Shl(1, order), PAGE_NSIZES, lent)
  {
    if lent < order { ShlLess(lent, order); }
    if lent > order { ShlLess(order, lent); }
    ShlGrows(1, order, PAGE_NSIZES - 1);
    assert Shl(1, 7) == Shl(2, 6) == Shl(4, 5) == Shl(8, 4) == Shl(16, 3) == Shl(32, 2);
    forall k: nat | k < order ensures Shl(1, k) < Shl(1, order) {
      ShlLess(k, order);
    }
  }

  /** Pages come back to the free count. */
  lemma CountReturns(g: GoodLedger, g': GoodLedger, l: Loan)
    requires l in g.books.loans && l.group < |g.books.free| && g'.books == g.books.Return(l)
    ensures g'.freecount == g.freecount + Shl(1, l.block.order)
  {
    ReturnOk(g.books, g.nsizes - 1, l);
  }

  /** One turn of the loop over the slabs of one allocator */
  method SweepTo(a: PageAllocator, h: SlabKernel, c: nat, j: nat, ghost p: Sweep)
    returns (j': nat, npages: nat, ghost q: Sweep)
    requires Joint(a, h) && p.now == h.View() && p.i < |h.caches| && c == h.caches[p.i] && p.j == j && p.target == 0
    requires c in h.cache && j < |h.cache[c].slabs|
    modifies a`freecount, a`books, a`ledger, a.groups, h`cache, h`slab, h`loan, h`chain, h`owner
    ensures Joint(a, h) && a.groups == old(a.groups) && a.freecount == old(a.freecount) + npages
    ensures q.now == h.View() && q.start == p.start && q.target == 0 && q.i == p.i && q.j == j'
    ensures c in h.cache && PagesOf(q.start, q.gone) == PagesOf(p.start, p.gone) + npages
    ensures |h.cache[c].slabs| - j' < |old(h.cache)[c].slabs| - j && j' <= |h.cache[c].slabs|
  {
    SweepReady(p);
    if h.slab[h.cache[c].slabs[j]].inuse == 0 {
      q := IdleTurn(p, c, j);
      npages := DropCounted(a, h, c, j);
      j' := j;
    } else {
      q := SweptBusy(p);
      npages, j' := 0, j + 1;
    }
  }

  lemma IdleTurn(p: Sweep, c: nat, j: nat) returns (q: Sweep)
    requires p.i < |p.now.caches| && c == p.now.caches[p.i] && p.j == j && p.target == 0
    requires c in p.now.cache && j < |p.now.cache[c].slabs|
    requires H.SlabAt(p.now, p.now.cache[c].slabs[j]).inuse == 0
    ensures var s := p.now.cache[c].slabs[j];
      && s in p.now.owner && p.now.owner[s] == c
      && q.now == H.Drop(p.now, s) && q.start == p.start && q.target == 0 && q.i == p.i && q.j == j
    ensures PagesOf(q.start, q.gone) == PagesOf(p.start, p.gone) + Shl(1, p.now.cache[c].order)
    ensures c in q.now.cache && j <= |q.now.cache[c].slabs| < |p.now.cache[c].slabs|
  {
    SweepReady(p);
    q := SweptIdle(p);
    SweepReady(q);
    UnlinkRemoves(p.now.cache[c].slabs, p.now.cache[c].slabs[j]);
  }

  /** As DropTo, with the pages counted */
  method DropCounted(a: PageAllocator, h: SlabKernel, c: nat, j: nat) returns (npages: nat)
    requires Joint(a, h) && c in h.cache && j < |h.cache[c].slabs|
    requires h.cache[c].slabs[j] in h.slab && h.slab[h.cache[c].slabs[j]].inuse == 0
    modifies a`freecount, a`books, a`ledger, a.groups, h`cache, h`slab, h`loan, h`chain, h`owner
    ensures Joint(a, h) && a.groups == old(a.groups)
    ensures a.freecount == old(a.freecount) + npages && npages == Shl(1, old(h.cache)[c].order)
    ensures var s := old(h.cache[c].slabs[j]);
      s in old(h.owner) && old(h.owner)[s] == c && h.View() == H.Drop(old(h.View()), s)
  {
    ghost var before, l := a.ledger, Loan(0, Block(0, 0));
    Droppable(h.View(), c, j);
    npages, l := DropTo(a, h, c, j);
    CountReturns(before, a.ledger, l);
  }

  /** The loop over the slabs of one allocator */
  method SweepCacheTo(a: PageAllocator, h: SlabKernel, i: nat, ghost p: Sweep) returns (npages: nat, ghost q: Sweep)
    requires Joint(a, h) && p.now == h.View() && p.i == i < |h.caches| && p.j == 0 && p.target == 0
    modifies a`freecount, a`books, a`ledger, a.groups, h`cache, h`slab, h`loan, h`chain, h`owner
    ensures Joint(a, h) && a.groups == old(a.groups) && a.freecount == old(a.freecount) + npages
    ensures q.now == h.View() && q.start == p.start && q.target == 0 && q.i == i + 1 && q.j == 0
    ensures PagesOf(q.start, q.gone) == PagesOf(p.start, p.gone) + npages
  {
    var c, j := h.caches[i], 0;
    npages, q := 0, p;
    SweepReady(q);
    while j < |h.cache[c].slabs|
      invariant Joint(a, h) && a.freecount == old(a.freecount) + npages && a.groups == old(a.groups)
      invariant c in h.cache && j <= |h.cache[c].slabs| && q.now == h.View() && h.caches == old(h.caches)
      invariant q.start == p.start && q.target == 0 && q.i == i && q.j == j
      invariant PagesOf(q.start, q.gone) == PagesOf(p.start, p.gone) + npages
      decreases |h.cache[c].slabs| - j
    {
      var n;
      j, n, q := SweepTo(a, h, c, j, q);
      npages := npages + n;
    }
    q := SweptCache(q);
  }

  /** slab_allocators_reclaim(0) with page_free_n: all idle slabs go, no object dies, and the page allocator
      has gained exactly the pages of their blocks. */
  method ReclaimTo(a: PageAllocator, h: SlabKernel) returns (freed: nat, ghost gone: seq<nat>)
    requires Joint(a, h)
    modifies a`freecount, a`books, a`ledger, a.groups, h`cache, h`slab, h`loan, h`chain, h`owner
    ensures Joint(a, h) && a.groups == old(a.groups) && a.freecount == old(a.freecount) + freed
    ensures h.View() == DropAll(old(h.View()), gone) && freed == PagesOf(old(h.View()), gone)
    ensures AllIdle(old(h.View()), gone) && SameLive(old(h.View()), h.View())
    ensures forall s :: s in h.slab ==> h.slab[s].inuse != 0
  {
    freed := 0;
    ghost var p := SweepStart(h.View(), 0);
    for i := 0 to |h.caches|
      invariant Joint(a, h) && a.freecount == old(a.freecount) + freed && a.groups == old(a.groups)
      invariant p.now == h.View() && p.start == old(h.View()) && p.target == 0 && p.i == i && p.j == 0
      invariant freed == PagesOf(p.start, p.gone)
    {
      var n;
      n, p := SweepCacheTo(a, h, i, p);
      freed := freed + n;
    }
    SweepMeans(p);
    gone := p.gone;
  }

  /** _slab_allocator_grow with page_alloc_n: the new slab lies in a block apart from all others. It fails if and
      only if no group of pages has room, and then all idle slabs have been reclaimed; no object dies. */
  method GrowFrom(a: PageAllocator, h: SlabKernel, c: nat) returns (ok: bool, ghost base: nat, ghost gone: seq<nat>)
    requires Joint(a, h) && c in h.cache
    modifies a`freecount, a`books, a`ledger, a.groups, h`cache, h`slab, h`ctl, h`loan, h`chain, h`owner
    ensures Joint(a, h) && a.groups == old(a.groups)
    ensures ok ==>
      && H.FreshBlock(old(h.View()), base, old(h.cache[c].order)) && h.View() == H.Grow(old(h.View()), c, base)
      && exists i :: 0 <= i < |old(a.books).free| && HasRoom(old(a.books).free[i], old(h.cache[c].order))
    ensures !ok ==>
      && h.View() == DropAll(old(h.View()), gone) && AllIdle(old(h.View()), gone)
      && SameLive(old(h.View()), h.View()) && (forall s :: s in h.slab ==> h.slab[s].inuse != 0)
      && a.freecount == old(a.freecount) + PagesOf(old(h.View()), gone)
      && forall i :: 0 <= i < |old(a.books).free| ==> !HasRoom(old(a.books).free[i], old(h.cache[c].order))
  {
    ghost var l;
    ok, l := TryGrow(a, h, c);
    base := if ok then PAGE_SIZE * a.AddrOf(l) else 0;
    gone := [];
    if !ok {
      var freed;
      freed, gone := ReclaimTo(a, h);
    }
  }
}
