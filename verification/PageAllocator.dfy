/** The page allocator: a list of page groups and a count of free pages. */
module PageAllocators {
  import opened Basics
  import opened Lists
  import opened Shifts
  import opened BuddyBlocks
  import opened PageGroups

  /** A block handed out from a group and not given back yet. */
  datatype Loan = Loan(group: nat, block: Block)

  ghost function Total(free: seq<set<nat>>): nat {
    if free == [] then 0 else |free[0]| + Total(free[1..])
  }

  lemma {:induction false} TotalUpdate(free: seq<set<nat>>, g: nat, s: set<nat>)
    requires g < |free|
    ensures Total(free[g := s]) == Total(free) - |free[g]| + |s|
  {
    if g > 0 {
      assert free[g := s][1..] == free[1..][g - 1 := s];
      TotalUpdate(free[1..], g - 1, s);
    } else {
      assert free[g := s][1..] == free[1..];
    }
  }

  lemma {:induction false} TotalAppend(free: seq<set<nat>>, s: set<nat>)
    ensures Total(free + [s]) == Total(free) + |s|
  {
    if free != [] {
      assert (free + [s])[1..] == free[1..] + [s];
      TotalAppend(free[1..], s);
    }
  }

  /** Group g has a free run of 1 << order pages aligned to its size. */
  ghost predicate HasRoom(free: set<nat>, order: nat) {
    exists c: Block :: c.order == order && c.PageSet() <= free
  }

  /** A group has room for a block exactly when one of its lists of that order or above is not empty. */
  lemma RoomMeansBlock(group: PageGroup, order: nat)
    requires group.Valid() && order < group.nsizes
    ensures HasRoom(group.Free(), order) <==> exists k :: order <= k < group.nsizes && group.HasFree(k)
  {
    if HasRoom(group.Free(), order) {
      var c: Block :| c.order == order && c.PageSet() <= group.Free();
      var b := CoveredByOne(group.blocks, group.nsizes - 1, group.count, c);
      assert group.HasFree(b.order);
    }
    if k :| order <= k < group.nsizes && group.HasFree(k) {
      var b := HeadBlock(group.freelist, group.base, group.blocks, k);
      var c := Narrow(b, order);
      assert c.PageSet() <= group.Free();
    }
  }

  lemma {:induction false} Narrow(b: Block, order: nat) returns (c: Block)
    requires order <= b.order
    ensures c.order == order && c.PageSet() <= b.PageSet()
    decreases b.order
  {
    if order == b.order {
      c := b;
    } else {
      HalvesPageSet(b);
      c := Narrow(b.Half(false), order);
    }
  }

  /** The ghost books of the allocator: free pages per group, loans, sizes of the groups. */
  datatype Books = Books(free: seq<set<nat>>, loans: set<Loan>, counts: seq<nat>, slack: nat) {

    ghost predicate LoanOk(l: Loan, top: nat)
      requires |counts| == |free|
    {
      && l.group < |free|
      && l.block.Within(top, counts[l.group])
      && l.block.PageSet() !! free[l.group]
    }

    /** The pages of group i that are out on loan. */
    ghost function Lent(i: nat): set<nat> {
      set l, p | l in loans && l.group == i && p in l.block.PageSet() :: p
    }

    /** Every page of every group is either free or lent. */
    ghost predicate Complete(top: nat) {
      && |counts| == |free|
      && forall i :: 0 <= i < |free| ==> free[i] + Lent(i) == Range(0, Shl(counts[i], top))
    }

    /** Loans are apart from each other and from the free pages. */
    ghost predicate Ok(top: nat) {
      && |counts| == |free|
      && (forall l <- loans :: LoanOk(l, top))
      && (forall l, m :: l in loans && m in loans && l != m && l.group == m.group ==>
        l.block.PageSet() !! m.block.PageSet())
    }

    ghost function Lend(l: Loan): Books
      requires l.group < |free|
    {
      this.(free := free[l.group := free[l.group] - l.block.PageSet()], loans := loans + {l})
    }

    /** A group of `count` top blocks joins, with `lost` pages that no list will hold. */
    ghost function Extend(top: nat, count: nat, lost: nat): Books {
      this.(free := free + [Range(0, Shl(count, top))], counts := counts + [count], slack := slack + lost)
    }

    ghost function Return(l: Loan): Books
      requires l.group < |free|
    {
      this.(free := free[l.group := free[l.group] + l.block.PageSet()], loans := loans - {l})
    }
  }

  lemma LendLent(books: Books, l: Loan)
    requires l.group < |books.free|
    ensures forall i {:trigger books.Lent(i)} ::
      books.Lend(l).Lent(i) == if i == l.group then books.Lent(i) + l.block.PageSet() else books.Lent(i)
  {
  }

  lemma ReturnLent(books: Books, l: Loan)
    requires l.group < |books.free| && l in books.loans
    requires forall m :: m in books.loans && l != m && l.group == m.group ==> l.block.PageSet() !! m.block.PageSet()
    ensures forall i {:trigger books.Lent(i)} ::
      books.Return(l).Lent(i) == if i == l.group then books.Lent(i) - l.block.PageSet() else books.Lent(i)
  {
  }

  lemma LendOk(books: Books, top: nat, l: Loan)
    requires books.Ok(top) && l.group < |books.free|
    requires l.block.Within(top, books.counts[l.group]) && l.block.PageSet() <= books.free[l.group]
    ensures l !in books.loans && books.Lend(l).Ok(top)
    ensures Total(books.Lend(l).free) == Total(books.free) - Shl(1, l.block.order)
  {
    var pages := l.block.PageSet();
    var p := FirstPage(l.block);
    PageSetSize(l.block);
    TotalUpdate(books.free, l.group, books.free[l.group] - pages);
    assert |books.free[l.group] - pages| == |books.free[l.group]| - |pages|;
    forall m | m in books.loans ensures l != m && books.Lend(l).LoanOk(m, top) {
      assert books.LoanOk(m, top);
    }
  }

  lemma ReturnOk(books: Books, top: nat, l: Loan)
    requires books.Ok(top) && l in books.loans
    ensures books.LoanOk(l, top) && books.Return(l).Ok(top)
    ensures Total(books.Return(l).free) == Total(books.free) + Shl(1, l.block.order)
  {
    var pages := l.block.PageSet();
    assert books.LoanOk(l, top);
    PageSetSize(l.block);
    TotalUpdate(books.free, l.group, books.free[l.group] + pages);
    forall m | m in books.loans - {l} ensures books.Return(l).LoanOk(m, top) {
      assert books.LoanOk(m, top);
    }
  }

  ghost function ReturnAll(books: Books, idle: seq<Loan>): Books
    requires forall l <- idle :: l.group < |books.free|
    decreases |idle|
  {
    if idle == [] then books else ReturnAll(books.Return(idle[0]), idle[1..])
  }

  lemma ReturnNext(books: Books, idle: seq<Loan>, i: nat)
    requires i < |idle| && forall l <- idle :: l.group < |books.free|
    ensures ReturnAll(books, idle[i..]) == ReturnAll(books.Return(idle[i]), idle[i + 1..])
  {
    assert idle[i..][1..] == idle[i + 1..];
  }

  // ---- Whole runs ----

  /** One step of the allocator, as the contracts of its methods describe it. */
  datatype Event = Lends(l: Loan) | Returns(l: Loan) | Extends(count: nat, lost: nat)

  ghost predicate Enabled(books: Books, top: nat, e: Event) {
    match e
    case Lends(l) =>
      l.group < |books.free| == |books.counts| && l.block.Within(top, books.counts[l.group]) &&
        l.block.PageSet() <= books.free[l.group]
    case Returns(l) => l in books.loans && l.group < |books.free|
    case Extends(_, _) => true
  }

  ghost function After(books: Books, top: nat, e: Event): Books
    requires Enabled(books, top, e)
  {
    match e
    case Lends(l) => books.Lend(l)
    case Returns(l) => books.Return(l)
    case Extends(count, lost) => books.Extend(top, count, lost)
  }

  ghost predicate Possible(books: Books, top: nat, run: seq<Event>)
    decreases |run|
  {
    run == [] || (Enabled(books, top, run[0]) && Possible(After(books, top, run[0]), top, run[1..]))
  }

  ghost function Final(books: Books, top: nat, run: seq<Event>): Books
    requires Possible(books, top, run)
    decreases |run|
  {
    if run == [] then books else Final(After(books, top, run[0]), top, run[1..])
  }

  lemma ReturnComplete(books: Books, top: nat, l: Loan)
    requires books.Ok(top) && books.Complete(top) && l in books.loans && l.group < |books.free|
    ensures books.Return(l).Complete(top)
  {
    ReturnLent(books, l);
    var pages, next := l.block.PageSet(), books.Return(l);
    assert pages <= books.Lent(l.group);
    forall i | 0 <= i < |next.free| ensures next.free[i] + next.Lent(i) == Range(0, Shl(next.counts[i], top)) {
      assert books.free[i] + books.Lent(i) == Range(0, Shl(books.counts[i], top));
    }
  }

  lemma StepKeeps(books: Books, top: nat, e: Event)
    requires books.Ok(top) && books.Complete(top) && Enabled(books, top, e)
    ensures After(books, top, e).Ok(top) && After(books, top, e).Complete(top)
  {
    match e
    case Lends(l) =>
      LendOk(books, top, l);
      LendLent(books, l);
    case Returns(l) =>
      ReturnOk(books, top, l);
      ReturnComplete(books, top, l);
    case Extends(count, lost) =>
      ExtendKeeps(books, top, count, lost);
  }

  lemma ExtendOk(books: Books, top: nat, count: nat, lost: nat)
    requires books.Ok(top)
    ensures books.Extend(top, count, lost).Ok(top)
    ensures Total(books.Extend(top, count, lost).free) == Total(books.free) + Shl(count, top)
  {
    RangeSize(0, Shl(count, top));
    TotalAppend(books.free, Range(0, Shl(count, top)));
    forall m | m in books.loans ensures books.Extend(top, count, lost).LoanOk(m, top) {
      assert books.LoanOk(m, top);
    }
  }

  lemma ExtendKeeps(books: Books, top: nat, count: nat, lost: nat)
    requires books.Ok(top) && books.Complete(top)
    ensures books.Extend(top, count, lost).Ok(top) && books.Extend(top, count, lost).Complete(top)
  {
    var next := books.Extend(top, count, lost);
    ExtendOk(books, top, count, lost);
    forall i ensures next.Lent(i) == books.Lent(i) { }
    assert next.Lent(|books.free|) == {} by {
      forall m | m in next.loans ensures m.group != |books.free| { assert books.LoanOk(m, top); }
    }
  }

  /** In every run from the empty allocator, live blocks are disjoint from each other and from the
      free pages, and together they are all pages; once every block is back, every page is free. */
  lemma {:induction false} RunKeeps(books: Books, top: nat, run: seq<Event>)
    requires books.Ok(top) && books.Complete(top) && Possible(books, top, run)
    ensures Final(books, top, run).Ok(top) && Final(books, top, run).Complete(top)
    ensures Final(books, top, run).loans == {} ==>
      var last := Final(books, top, run);
      forall i :: 0 <= i < |last.free| ==> last.free[i] == Range(0, Shl(last.counts[i], top))
    decreases |run|
  {
    if run == [] {
      forall i | 0 <= i < |books.free| && books.loans == {}
        ensures books.free[i] == Range(0, Shl(books.counts[i], top))
      {
        assert books.Lent(i) == {};
      }
    } else {
      StepKeeps(books, top, run[0]);
      RunKeeps(After(books, top, run[0]), top, run[1..]);
    }
  }

  /** Giving back what was just taken restores the books. */
  lemma LendReturn(books: Books, top: nat, l: Loan)
    requires books.Ok(top) && l.group < |books.free|
    requires l.block.Within(top, books.counts[l.group]) && l.block.PageSet() <= books.free[l.group]
    ensures books.Lend(l).Return(l) == books
  {
    LendOk(books, top, l);
    var g := l.group;
    assert books.free[g] - l.block.PageSet() + l.block.PageSet() == books.free[g];
    assert books.Lend(l).Return(l).free == books.free;
  }

  /** The free lists of a group are a function of its free pages. */
  lemma ListsDetermined(g: PageGroup, h: PageGroup)
    requires g.Valid() && h.Valid() && g.nsizes == h.nsizes && g.base == h.base && g.count == h.count &&
      g.Free() == h.Free()
    ensures forall k :: 0 <= k < g.nsizes ==> multiset(g.freelist[k]) == multiset(h.freelist[k])
  {
    UniqueForm(g.blocks, h.blocks, g.nsizes - 1, g.count);
    forall k | 0 <= k < g.nsizes ensures multiset(g.freelist[k]) == multiset(h.freelist[k]) {
      forall a ensures a in g.freelist[k] <==> a in h.freelist[k] {
        if a in g.freelist[k] { assert Aligned(g.base, k, a); }
        if a in h.freelist[k] { assert Aligned(g.base, k, a); }
      }
      DistinctMultiset(g.freelist[k], h.freelist[k]);
    }
  }

  lemma DistinctMultiset(s: seq<nat>, t: seq<nat>)
    requires Distinct(s) && Distinct(t) && forall a :: a in s <==> a in t
    ensures multiset(s) == multiset(t)
  {
    forall a ensures multiset(s)[a] == multiset(t)[a] {
      DistinctCount(s, a);
      DistinctCount(t, a);
    }
  }

  lemma {:induction false} DistinctCount(s: seq<nat>, a: nat)
    requires Distinct(s)
    ensures multiset(s)[a] == if a in s then 1 else 0
  {
    if s != [] {
      var n := |s| - 1;
      assert s == s[..n] + [s[n]];
      DistinctCount(s[..n], a);
    }
  }

  ghost predicate IsTopBlock(g: PageGroup, addr: nat) {
    g.nsizes > 0 && addr >= g.base && Aligned(g.base, g.nsizes - 1, addr) &&
      BlockAt(g.base, g.nsizes - 1, addr).index < g.count
  }

  /** The lists as _pagegroup_create leaves them: every block of the top order and nothing else. */
  ghost predicate Pristine(g: PageGroup)
    reads g
  {
    && g.nsizes > 0 && |g.freelist| == g.nsizes
    && (forall k :: 0 <= k < g.nsizes - 1 ==> g.freelist[k] == [])
    && Distinct(g.freelist[g.nsizes - 1])
    && (forall a :: a in g.freelist[g.nsizes - 1] ==> IsTopBlock(g, a))
    && (forall i: nat {:trigger Block(g.nsizes - 1, i)} :: i < g.count ==>
      Addr(g.base, Block(g.nsizes - 1, i)) in g.freelist[g.nsizes - 1])
  }

  lemma AllFreeIsPristine(g: PageGroup)
    requires g.Valid() && g.Free() == Range(0, Shl(g.count, g.nsizes - 1))
    ensures Pristine(g)
  {
    var top := g.nsizes - 1;
    forall b ensures b in g.blocks <==> b.order == top && b.index < g.count {
      CanonicalForm(g.blocks, top, g.count, b);
      if b in g.blocks && b.order < top {
        assert b.Parent().Within(top, g.count);
        WithinRange(b.Parent(), top, g.count);
      }
      if b.order == top && b.index < g.count { WithinRange(b, top, g.count); }
    }
    forall k | 0 <= k < top ensures g.freelist[k] == [] {
      if g.freelist[k] != [] { var b := HeadBlock(g.freelist, g.base, g.blocks, k); }
    }
    forall a | a in g.freelist[top] ensures IsTopBlock(g, a) {
      assert Aligned(g.base, top, a);
    }
  }

  /** After any run that gave every block back, in whatever order, every group is as it was made. */
  lemma Restored(a: PageAllocator, run: seq<Event>)
    requires a.Valid() && Possible(Books([], {}, [], 0), a.nsizes - 1, run)
    requires a.books == Final(Books([], {}, [], 0), a.nsizes - 1, run) && a.books.loans == {}
    ensures forall g <- a.groups :: Pristine(g)
  {
    forall g | g in a.groups ensures Pristine(g) {
      var i :| 0 <= i < |a.groups| && a.groups[i] == g;
      a.GroupFacts(i);
      AllBack(a.books, a.nsizes - 1, run, i);
      AllFreeIsPristine(g);
    }
  }

  lemma AllBack(books: Books, top: nat, run: seq<Event>, i: nat)
    requires Possible(Books([], {}, [], 0), top, run) && books == Final(Books([], {}, [], 0), top, run)
    requires books.loans == {} && i < |books.free|
    ensures |books.counts| == |books.free| && books.free[i] == Range(0, Shl(books.counts[i], top))
  {
    RunKeeps(Books([], {}, [], 0), top, run);
  }

  lemma WithinRange(b: Block, top: nat, count: nat)
    requires b.Within(top, count)
    ensures b.PageSet() <= Range(0, Shl(count, top))
  {
    forall p | p in b.PageSet() ensures p in Range(0, Shl(count, top)) {
      CoversPageSet(b, p);
      ShrShr(p, b.order, top - b.order);
      ShrBounds(p, top);
      if Shr(p, top) + 1 < count { ShlMono(Shr(p, top) + 1, count, top); }
    }
  }

  /** The order search shared by page_alloc_n and page_free_n; nsizes means panic. */
  method OrderFor(npages: nat, nsizes: nat) returns (order: nat)
    ensures order <= nsizes
    ensures forall k: nat :: k < order ==> Shl(1, k) < Signed(npages)
    ensures order < nsizes ==> Shl(1, order) >= Signed(npages)
  {
    for k := 0 to nsizes
      invariant forall j: nat :: j < k ==> Shl(1, j) < Signed(npages)
    {
      if Shl(1, k) >= Signed(npages) {
        return k;
      }
    }
    return nsizes;
  }

  ghost predicate IsOrderFor(npages: nat, nsizes: nat, order: nat) {
    && order < nsizes && Shl(1, order) >= Signed(npages)
    && forall k: nat :: k < order ==> Shl(1, k) < Signed(npages)
  }

  /** page_alloc_n promises at least npages pages. The comparison is signed, so the promise is kept
      exactly for requests below 2^31; larger ones are given a single page. */
  lemma EnoughPages(npages: nat, nsizes: nat, b: Block)
    requires npages < 0x1_0000_0000 && IsOrderFor(npages, nsizes, b.order)
    ensures |b.PageSet()| >= npages <==> npages < 0x8000_0000
    ensures npages >= 0x8000_0000 ==> b.order == 0
  {
    PageSetSize(b);
    assert b.order > 0 ==> Shl(1, 0) < Signed(npages);
  }

  /** A request for 2^31 pages is met with a single one. */
  lemma OnlyOnePage(nsizes: nat, b: Block)
    requires nsizes > 0
    ensures IsOrderFor(0x8000_0000, nsizes, b.order) <==> b.order == 0
    ensures b.order == 0 ==> |b.PageSet()| == 1
  {
    PageSetSize(b);
    assert b.order > 0 ==> Shl(1, 0) >= Signed(0x8000_0000);
  }

  ghost predicate RangesApart(groups: seq<PageGroup>) {
    forall i, j :: 0 <= i < j < |groups| ==>
      groups[i] != groups[j] && (groups[i].end <= groups[j].base || groups[j].end <= groups[i].base)
  }

  lemma AppendApart(groups: seq<PageGroup>, group: PageGroup)
    requires RangesApart(groups) && group !in groups
    requires forall g <- groups :: g.end <= group.base || group.end <= g.base
    ensures RangesApart(groups + [group])
  {
  }

  /** The books agree with the groups. */
  ghost predicate Tally(views: seq<GoodGroup>, nsizes: nat, books: Books) {
    && |views| == |books.free| == |books.counts|
    && forall i {:trigger views[i]} :: 0 <= i < |views| ==>
         && views[i].nsizes == nsizes && views[i].base < views[i].end
         && books.free[i] == views[i].Free() && books.counts[i] == views[i].count
  }

  lemma TallyLend(views: seq<GoodGroup>, nsizes: nat, books: Books, l: Loan, v: GoodGroup)
    requires Tally(views, nsizes, books) && l.group < |views| && SameGroup(views[l.group], v)
    requires v.Free() == views[l.group].Free() - l.block.PageSet()
    ensures Tally(views[l.group := v], nsizes, books.Lend(l))
  {
  }

  lemma TallyReturn(views: seq<GoodGroup>, nsizes: nat, books: Books, l: Loan, v: GoodGroup)
    requires Tally(views, nsizes, books) && l.group < |views| && SameGroup(views[l.group], v)
    requires v.Free() == views[l.group].Free() + l.block.PageSet()
    ensures Tally(views[l.group := v], nsizes, books.Return(l))
  {
  }

  lemma TallyExtend(views: seq<GoodGroup>, nsizes: nat, books: Books, v: GoodGroup, lost: nat)
    requires nsizes > 0 && Tally(views, nsizes, books) && v.nsizes == nsizes && v.base < v.end
    requires v.Free() == Range(0, Shl(v.count, nsizes - 1))
    ensures Tally(views + [v], nsizes, books.Extend(nsizes - 1, v.count, lost))
  {
  }

  /** The books with the groups they are about and the count of free pages. */
  datatype Ledger = Ledger(nsizes: nat, books: Books, views: seq<GoodGroup>, freecount: int)

  ghost predicate LedgerOk(g: Ledger) {
    && g.nsizes > 0 && g.books.Ok(g.nsizes - 1) && Tally(g.views, g.nsizes, g.books)
    && g.freecount == Total(g.books.free) + g.books.slack
  }

  type GoodLedger = g: Ledger | LedgerOk(g) ghost witness Ledger(1, Books([], {}, [], 0), [], 0)

  lemma MakeLedger(nsizes: nat, books: Books, views: seq<GoodGroup>, freecount: int) returns (g: GoodLedger)
    requires nsizes > 0 && books.Ok(nsizes - 1) && Tally(views, nsizes, books)
    requires freecount == Total(books.free) + books.slack
    ensures g == Ledger(nsizes, books, views, freecount)
  {
    g := Ledger(nsizes, books, views, freecount);
  }

  lemma LedgerLend(g: GoodLedger, l: Loan, v: GoodGroup) returns (g': GoodLedger)
    requires l.group < |g.views| && SameGroup(g.views[l.group], v) && l.block.Within(v.nsizes - 1, v.count)
    requires l.block.PageSet() <= g.views[l.group].Free() && v.Free() == g.views[l.group].Free() - l.block.PageSet()
    ensures l.group < |g.books.free| && l.block.PageSet() <= g.books.free[l.group] && l !in g.books.loans
    ensures g' == Ledger(g.nsizes, g.books.Lend(l), g.views[l.group := v], g.freecount - Shl(1, l.block.order))
    ensures g'.freecount >= 0
  {
    LendOk(g.books, g.nsizes - 1, l);
    TallyLend(g.views, g.nsizes, g.books, l, v);
    g' := MakeLedger(g.nsizes, g.books.Lend(l), g.views[l.group := v], g.freecount - Shl(1, l.block.order));
  }

  lemma LedgerReturn(g: GoodLedger, l: Loan, v: GoodGroup) returns (g': GoodLedger)
    requires l in g.books.loans && l.group < |g.views| && SameGroup(g.views[l.group], v)
    requires v.Free() == g.views[l.group].Free() + l.block.PageSet()
    ensures l.group < |g.books.free|
    ensures g' == Ledger(g.nsizes, g.books.Return(l), g.views[l.group := v], g.freecount + Shl(1, l.block.order))
  {
    ReturnOk(g.books, g.nsizes - 1, l);
    TallyReturn(g.views, g.nsizes, g.books, l, v);
    g' := MakeLedger(g.nsizes, g.books.Return(l), g.views[l.group := v], g.freecount + Shl(1, l.block.order));
  }

  lemma LedgerExtend(g: GoodLedger, v: GoodGroup, lost: nat) returns (g': GoodLedger)
    requires v.nsizes == g.nsizes && v.base < v.end && v.Free() == Range(0, Shl(v.count, g.nsizes - 1))
    ensures g' == Ledger(g.nsizes, g.books.Extend(g.nsizes - 1, v.count, lost), g.views + [v],
                         g.freecount + Shl(v.count, g.nsizes - 1) + lost)
  {
    ExtendOk(g.books, g.nsizes - 1, v.count, lost);
    TallyExtend(g.views, g.nsizes, g.books, v, lost);
    g' := MakeLedger(g.nsizes, g.books.Extend(g.nsizes - 1, v.count, lost), g.views + [v],
                 g.freecount + Shl(v.count, g.nsizes - 1) + lost);
  }

  /** The block belongs to the group and none of its pages is free. */
  ghost predicate Taken(v: Group, b: Block) {
    v.nsizes > 0 && b.Within(v.nsizes - 1, v.count) && b.PageSet() !! v.Free()
  }

  /** What the ledger knows of a loan. */
  lemma LedgerLoan(g: GoodLedger, l: Loan)
    requires l in g.books.loans
    ensures l.group < |g.views| && g.views[l.group].nsizes == g.nsizes && Taken(g.views[l.group], l.block)
  {
    assert g.books.LoanOk(l, g.nsizes - 1);
  }

  /** As a good group, except that the block at the head of this list may have a free buddy. */
  ghost predicate HeadReady(v: Group, order: nat) {
    && order < v.nsizes && v.Consistent()
    && v.freelist[order] != [] && v.freelist[order][0] >= v.base
    && Joined(v.blocks - {BlockAt(v.base, order, v.freelist[order][0])}, v.nsizes - 1)
  }

  method TakeBlock(g: PageGroup, order: nat) returns (addr: nat, ghost b: Block, ghost v: GoodGroup)
    requires HeadReady(g.View(), order)
    modifies g
    ensures g.View() == v && SameGroup(old(g.View()), v)
    ensures b.order == order && b.Within(v.nsizes - 1, v.count) && addr == Addr(v.base, b)
    ensures b.PageSet() <= old(g.View()).Free() && v.Free() == old(g.View()).Free() - b.PageSet()
  {
    addr, b := g.TakeHead(order);
    v := g.View();
  }

  method ReleaseBlock(g: PageGroup, addr: nat, order: nat, ghost b: Block, ghost before: GoodGroup)
    returns (ghost v: GoodGroup)
    requires g.View() == before && Taken(before, b) && b.order == order && addr == Addr(g.base, b)
    modifies g
    ensures g.View() == v && SameGroup(before, v) && v.Free() == before.Free() + b.PageSet()
  {
    g.Release(addr, order, b);
    v := g.View();
  }

  method SplitBlock(g: PageGroup, norder: nat, order: nat, ghost before: GoodGroup)
    requires g.View() == before && order < norder < g.nsizes && g.HasFree(norder)
    modifies g
    ensures SameGroup(before, g.View()) && HeadReady(g.View(), order) && g.View().Free() == before.Free()
  {
    g.SplitDown(norder, order);
  }

  lemma GoodHead(v: GoodGroup, order: nat)
    requires order < v.nsizes && v.freelist[order] != []
    ensures HeadReady(v, order)
  {
    var b := HeadBlock(v.freelist, v.base, v.blocks, order);
  }

  lemma ViewValid(g: PageGroup, v: GoodGroup)
    requires g.View() == v
    ensures g.Valid() && g.Free() == v.Free()
  {
  }

  datatype Allocation = Panic | NoMemory | At(addr: nat)

  class PageAllocator {
    const nsizes: nat
    var groups: seq<PageGroup>
    var freecount: nat
    ghost var books: Books
    ghost var ledger: GoodLedger

    ghost predicate Apart()
      reads this
    {
      RangesApart(groups)
    }

    /** The ledger is about this allocator. */
    ghost predicate Booked()
      reads this
    {
      && ledger.nsizes == nsizes && ledger.books == books && ledger.freecount == freecount
      && |groups| == |ledger.views| == |books.free|
    }

    /** Group i is in the state the ledger has of it. */
    ghost predicate Shows(i: nat)
      requires i < |groups| == |ledger.views|
      reads this, groups
    {
      groups[i].View() == ledger.views[i]
    }

    ghost predicate Valid()
      reads this, groups
    {
      Booked() && Apart() && forall i :: 0 <= i < |groups| ==> Shows(i)
    }

    function AddrOf(l: Loan): nat
      requires l.group < |groups|
      reads this
    {
      Addr(groups[l.group].base, l.block)
    }

    /** page_init */
    constructor (nsizes: nat)
      requires nsizes > 0
      ensures Valid() && this.nsizes == nsizes && groups == [] && books == Books([], {}, [], 0)
    {
      this.nsizes := nsizes;
      groups, freecount := [], 0;
      books := Books([], {}, [], 0);
      ledger := Ledger(nsizes, Books([], {}, [], 0), [], 0);
    }

    /** Group i has a block of this order at the head of its list, maybe from splitting a larger
        one, and taking that block leaves everything in order. */
    ghost predicate Ready(i: nat, order: nat)
      reads this, groups
    {
      && Booked() && Apart() && i < |groups|
      && (forall j :: 0 <= j < |groups| && j != i ==> Shows(j))
      && SameGroup(ledger.views[i], groups[i].View()) && groups[i].View().Free() == ledger.views[i].Free()
      && HeadReady(groups[i].View(), order)
    }

    lemma ReadyNow(i: nat, order: nat)
      requires Valid() && i < |groups| && order < nsizes && groups[i].HasFree(order)
      ensures Ready(i, order)
    {
      assert Shows(i);
      SizesMatch(i);
      GoodHead(ledger.views[i], order);
    }

    lemma SizesMatch(i: nat)
      requires Booked() && i < |groups|
      ensures ledger.views[i].nsizes == nsizes > 0 && ledger.views[i].base < ledger.views[i].end
      ensures ledger.views[i].Free() == books.free[i]
    {
    }

    lemma GroupFacts(i: nat)
      requires Valid() && i < |groups|
      ensures groups[i].Valid() && groups[i].nsizes == nsizes && i < |books.free| == |books.counts|
      ensures groups[i].Free() == books.free[i] && groups[i].count == books.counts[i]
    {
      assert Shows(i);
      ViewValid(groups[i], ledger.views[i]);
    }

    twostate lemma OthersShow(i: nat)
      requires old(|groups| == |ledger.views| && Apart()) && groups == old(groups) && |ledger.views| == |groups| &&
        i < |groups|
      requires forall j :: 0 <= j < |groups| && j != i ==> old(Shows(j)) && ledger.views[j] == old(ledger).views[j]
      requires forall j :: 0 <= j < |groups| && groups[j] != groups[i] ==> unchanged(groups[j])
      ensures forall j :: 0 <= j < |groups| && j != i ==> Shows(j)
    {
      forall j | 0 <= j < |groups| && j != i ensures Shows(j) {
        assert old(Shows(j)) && groups[j] != groups[i];
      }
    }

    /** The new page_freecount, and the ledger that goes with it */
    method Record(pages: nat, ghost next: GoodLedger)
      modifies this`freecount, this`books, this`ledger
      ensures freecount == pages && books == next.books && ledger == next
    {
      freecount := pages;
      books, ledger := next.books, next;
    }

    /** The `found` part of _page_alloc_order. */
    method Take(i: nat, order: nat) returns (addr: nat, ghost l: Loan)
      requires Ready(i, order)
      modifies this`freecount, this`books, this`ledger, groups[i]
      ensures Valid()
      ensures l.group == i && l.block.order == order && addr == AddrOf(l)
      ensures l.block.PageSet() <= old(books).free[i] && l !in old(books).loans && books == old(books).Lend(l)
    {
      ghost var b, v;
      addr, b, v := TakeBlock(groups[i], order);
      l := Loan(i, b);
      ghost var next := LedgerLend(ledger, l, v);
      Record(freecount - Shl(1, order), next);
      OthersShow(i);
    }

    /** Splitting inside group i, as the loops of _page_split do once they found it. */
    method SplitGroup(i: nat, norder: nat, order: nat)
      requires Valid() && i < |groups| && order < norder < nsizes && groups[i].HasFree(norder)
      modifies groups[i]
      ensures Ready(i, order)
    {
      assert Shows(i);
      SizesMatch(i);
      SplitBlock(groups[i], norder, order, ledger.views[i]);
      OthersShow(i);
    }

    /** The search of _page_split: the smallest order above the wanted one that has a block anywhere. */
    method SplitSearch(order: nat) returns (found: Option<nat>)
      requires Valid() && order < nsizes
      requires forall i :: 0 <= i < |groups| ==> !groups[i].HasFree(order)
      modifies groups
      ensures found.Some? ==> found.value < |groups| && Ready(found.value, order)
      ensures found.None? ==> Valid()
      ensures found.None? ==> forall i, k :: 0 <= i < |groups| && order <= k < nsizes ==> !groups[i].HasFree(k)
    {
      for norder := order + 1 to nsizes
        invariant Valid()
        invariant forall i, k :: 0 <= i < |groups| && order <= k < norder ==> !groups[i].HasFree(k)
      {
        for i := 0 to |groups|
          invariant Valid()
          invariant forall j, k :: 0 <= j < |groups| && order <= k < norder ==> !groups[j].HasFree(k)
          invariant forall j :: 0 <= j < i ==> !groups[j].HasFree(norder)
        {
          if groups[i].HasFree(norder) {
            SplitGroup(i, norder, order);
            return Some(i);
          }
        }
      }
      return None;
    }

    /** _pagegroup_from_address */
    method GroupOf(addr: nat) returns (found: Option<nat>)
      requires Apart()
      ensures found.Some? ==> found.value < |groups| && groups[found.value].base <= addr < groups[found.value].end
      ensures found.None? ==> forall i :: 0 <= i < |groups| ==> !(groups[i].base <= addr < groups[i].end)
    {
      for i := 0 to |groups|
        invariant forall j :: 0 <= j < i ==> !(groups[j].base <= addr < groups[j].end)
      {
        if groups[i].base <= addr < groups[i].end {
          return Some(i);
        }
      }
      return None;
    }

    lemma LoanInGroup(l: Loan)
      requires Valid() && l in books.loans
      ensures l.group < |groups| && groups[l.group].base <= AddrOf(l) < groups[l.group].end
    {
      LedgerLoan(ledger, l);
      var g := groups[l.group];
      assert Shows(l.group);
      WithinRange(l.block, nsizes - 1, g.count);
      ShlMono(l.block.index, l.block.index + 1, l.block.order);
      assert Shl(l.block.index, l.block.order) in l.block.PageSet();
    }

    /** _page_free_order. An address outside every group is ignored; any other must be on loan. */
    method FreeOrder(addr: nat, order: nat, ghost l: Loan)
      requires Valid()
      requires
        || (l in books.loans && l.group < |groups| && addr == AddrOf(l) && order == l.block.order)
        || forall i :: 0 <= i < |groups| ==> !(groups[i].base <= addr < groups[i].end)
      modifies this`freecount, this`books, this`ledger, groups
      ensures Valid()
      ensures books ==
        if exists i :: 0 <= i < |groups| && groups[i].base <= addr < groups[i].end then old(books).Return(l)
        else old(books)
    {
      var found := GroupOf(addr);
      if found.Some? {
        LoanInGroup(l);
        assert found == Some(l.group);
        ReleaseIn(found.value, addr, order, l);
      }
    }

    method FreeLoan(addr: nat, order: nat, ghost l: Loan)
      requires Valid() && l in books.loans && l.group < |groups| && addr == AddrOf(l) && order == l.block.order
      modifies this`freecount, this`books, this`ledger, groups
      ensures Valid() && books == old(books).Return(l)
    {
      LoanInGroup(l);
      FreeOrder(addr, order, l);
    }

    method ReleaseIn(i: nat, addr: nat, order: nat, ghost l: Loan)
      requires Valid() && l in books.loans && i == l.group < |groups| && addr == AddrOf(l) && order == l.block.order
      modifies this`freecount, this`books, this`ledger, groups[i]
      ensures Valid() && books == old(books).Return(l)
    {
      LedgerLoan(ledger, l);
      assert Shows(i);
      ghost var v := ReleaseBlock(groups[i], addr, order, l.block, ledger.views[i]);
      ghost var next := LedgerReturn(ledger, l, v);
      Record(freecount + Shl(1, order), next);
      OthersShow(i);
    }

    /** slab_allocators_reclaim as page.c sees it: blocks of idle slabs come back one by one. */
    method Reclaim(idle: seq<Loan>)
      requires Valid()
      requires forall l <- idle :: l in books.loans && l.group < |groups|
      requires forall i, j :: 0 <= i < j < |idle| ==> idle[i] != idle[j]
      modifies this`freecount, this`books, this`ledger, groups
      ensures Valid() && books == ReturnAll(old(books), idle)
    {
      ghost var first := books;
      for i := 0 to |idle|
        invariant Valid()
        invariant forall j :: i <= j < |idle| ==> idle[j] in books.loans
        invariant ReturnAll(books, idle[i..]) == ReturnAll(first, idle)
      {
        var l := idle[i];
        assert l in idle;
        ghost var before := books;
        FreeLoan(AddrOf(l), l.block.order, l);
        ReturnNext(before, idle, i);
      }
    }

    lemma NoRoom(order: nat)
      requires Valid() && order < nsizes
      requires forall i, k :: 0 <= i < |groups| && order <= k < nsizes ==> !groups[i].HasFree(k)
      ensures forall i :: 0 <= i < |groups| ==> !HasRoom(books.free[i], order)
    {
      forall i | 0 <= i < |groups| ensures !HasRoom(books.free[i], order) {
        GroupFacts(i);
        assert forall k :: order <= k < nsizes ==> !groups[i].HasFree(k);
        RoomMeansBlock(groups[i], order);
      }
    }

    /** _page_alloc_order. When nothing fits, idle slabs are reclaimed but the search is not repeated. */
    method AllocOrder(order: nat, idle: seq<Loan>) returns (r: Option<nat>, ghost l: Loan)
      requires Valid() && order < nsizes
      requires forall l <- idle :: l in books.loans && l.group < |groups|
      requires forall i, j :: 0 <= i < j < |idle| ==> idle[i] != idle[j]
      modifies this`freecount, this`books, this`ledger, groups
      ensures Valid()
      ensures r.Some? <==> exists i :: 0 <= i < |groups| && HasRoom(old(books).free[i], order)
      ensures r.Some? ==>
        && l.group < |groups| && l.block.order == order && r.value == AddrOf(l)
        && l !in old(books).loans && l.block.PageSet() <= old(books).free[l.group]
        && books == old(books).Lend(l)
      ensures r.None? ==> books == ReturnAll(old(books), idle)
    {
      l := Loan(0, Block(0, 0));
      for i := 0 to |groups|
        invariant forall j :: 0 <= j < i ==> !groups[j].HasFree(order)
      {
        if groups[i].HasFree(order) {
          ReadyNow(i, order);
          var addr;
          addr, l := Take(i, order);
          assert HasRoom(old(books).free[i], order);
          return Some(addr), l;
        }
      }
      var found := SplitSearch(order);
      if found.Some? {
        var addr;
        addr, l := Take(found.value, order);
        assert HasRoom(old(books).free[found.value], order);
        return Some(addr), l;
      }
      NoRoom(order);
      Reclaim(idle);
      return None, l;
    }

    /** page_add_range; start and limit are the page-aligned ends of the range, in pages. */
    method AddRange(pageSize: nat, recordSize: nat, start: nat, limit: nat)
      requires Valid() && HoldsRecords(nsizes, pageSize, recordSize, start, limit)
      requires forall g <- groups :: g.end <= start || limit <= g.base
      modifies this`groups, this`freecount, this`books, this`ledger
      ensures Valid()
      ensures var size := UsableEnd(nsizes, pageSize, recordSize, start, limit) - start;
        if size == 0 then groups == old(groups) && books == old(books)
        else
          && |groups| == |old(groups)| + 1 && old(groups) <= groups && fresh(groups[|groups| - 1])
          && groups[|groups| - 1].base == start && groups[|groups| - 1].end == start + size
          && Shl(Shr(size, nsizes - 1), nsizes - 1) <= size
          && books == old(books).Extend(nsizes - 1, Shr(size, nsizes - 1),
            size - Shl(Shr(size, nsizes - 1), nsizes - 1))
    {
      var group := new PageGroup(nsizes, pageSize, recordSize, start, limit);
      if group.base < group.end {
        Append(group, group.end - group.base - Shl(group.count, nsizes - 1));
      }
    }

    method Append(group: PageGroup, ghost lost: nat)
      requires Valid() && group !in groups && group.Valid() && group.nsizes == nsizes && group.base < group.end
      requires group.end - group.base == Shl(group.count, nsizes - 1) + lost
      requires group.Free() == Range(0, Shl(group.count, nsizes - 1))
      requires forall g <- groups :: g.end <= group.base || group.end <= g.base
      modifies this`groups, this`freecount, this`books, this`ledger
      ensures Valid() && groups == old(groups) + [group]
      ensures books == old(books).Extend(nsizes - 1, group.count, lost)
    {
      var size := group.end - group.base;
      ledger := LedgerExtend(ledger, group.View(), lost);
      AppendApart(groups, group);
      groups := groups + [group];
      freecount := freecount + size;
      books := books.Extend(nsizes - 1, group.count, lost);
      forall j | 0 <= j < |groups| ensures Shows(j) {
        if j < |groups| - 1 { assert old(Shows(j)); }
      }
    }

    /** page_alloc_n */
    method AllocN(npages: nat, idle: seq<Loan>) returns (r: Allocation, ghost l: Loan)
      requires Valid()
      requires forall l <- idle :: l in books.loans && l.group < |groups|
      requires forall i, j :: 0 <= i < j < |idle| ==> idle[i] != idle[j]
      modifies this`freecount, this`books, this`ledger, groups
      ensures Valid()
      ensures r.Panic? <==> forall k: nat :: k < nsizes ==> Shl(1, k) < Signed(npages)
      ensures r.Panic? ==> books == old(books)
      ensures r.At? ==>
        && l.group < |groups| && IsOrderFor(npages, nsizes, l.block.order) && r.addr == AddrOf(l)
        && l !in old(books).loans && l.block.PageSet() <= old(books).free[l.group]
        && books == old(books).Lend(l)
      ensures r.NoMemory? ==>
        && books == ReturnAll(old(books), idle)
        && forall i, k :: 0 <= i < |groups| && IsOrderFor(npages, nsizes, k) ==> !HasRoom(old(books).free[i], k)
    {
      var order := OrderFor(npages, nsizes);
      if order == nsizes {
        return Panic, Loan(0, Block(0, 0));
      }
      var addr;
      addr, l := AllocOrder(order, idle);
      r := match addr case Some(a) => At(a) case None => NoMemory;
    }

    /** page_free_n, called with the size the block was requested with */
    method FreeN(addr: nat, npages: nat, ghost l: Loan)
      requires Valid() && l in books.loans && l.group < |groups| && addr == AddrOf(l)
      requires IsOrderFor(npages, nsizes, l.block.order)
      modifies this`freecount, this`books, this`ledger, groups
      ensures Valid() && books == old(books).Return(l)
    {
      var order := OrderFor(npages, nsizes);
      FreeLoan(addr, order, l);
    }
  }
}
