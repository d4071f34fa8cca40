/** The theory behind the buddy allocator: sets of aligned power-of-two blocks.
    Page p belongs to block (k, i) exactly when p >> k == i. */
module BuddyBlocks {
  import opened Shifts

  ghost predicate Between(lo: nat, p: nat, hi: nat) { lo <= p < hi }

  /** The numbers lo, ..., hi - 1. */
  ghost function Range(lo: nat, hi: nat): set<nat> {
    set p: nat | lo <= p < hi && Between(lo, p, hi)
  }

  lemma RangeSize(lo: nat, hi: nat)
    requires lo <= hi
    ensures |Range(lo, hi)| == hi - lo
    decreases hi
  {
    if lo < hi {
      RangeSize(lo, hi - 1);
      assert Range(lo, hi) == Range(lo, hi - 1) + {hi - 1};
    }
  }

  datatype Block = Block(order: nat, index: nat) {
    ghost predicate Covers(p: nat) { Shr(p, order) == index }

    function Parent(): Block { Block(order + 1, index / 2) }

    function Sibling(): Block {
      Block(order, if index % 2 == 0 then index + 1 else index - 1)
    }

    function Half(upper: bool): Block
      requires order > 0
    {
      Block(order - 1, 2 * index + if upper then 1 else 0)
    }

    /** This block lies inside block b. */
    ghost predicate Inside(b: Block) {
      order <= b.order && Shr(index, b.order - order) == b.index
    }

    ghost predicate Within(top: nat, count: nat) {
      order <= top && Shr(index, top - order) < count
    }

    ghost function PageSet(): set<nat> {
      Range(Shl(index, order), Shl(index + 1, order))
    }
  }

  /** The pages of a group made of `count` blocks of order `top`, as far as `blocks` holds them. */
  ghost function Pages(blocks: set<Block>): set<nat> {
    set b, p | b in blocks && p in b.PageSet() :: p
  }

  /** Blocks lie in the group and no block lies inside another one. */
  ghost predicate Apart(blocks: set<Block>, top: nat, count: nat) {
    && (forall b :: b in blocks ==> b.Within(top, count))
    && (forall a, b {:trigger a.Inside(b)} :: a in blocks && b in blocks && a.Inside(b) ==> a == b)
  }

  /** No two buddies below the top order are both present, except possibly the halves of `spare`. */
  ghost predicate JoinedExcept(blocks: set<Block>, top: nat, spare: Block) {
    forall b {:trigger b.Sibling()} :: b in blocks && b.order < top && b.Sibling() in blocks ==> b.Parent() == spare
  }

  ghost predicate Joined(blocks: set<Block>, top: nat) {
    forall b {:trigger b.Sibling()} :: b in blocks && b.order < top ==> b.Sibling() !in blocks
  }

  lemma CoversPageSet(b: Block, p: nat)
    ensures b.Covers(p) <==> p in b.PageSet()
  {
    if b.Covers(p) { ShrBounds(p, b.order); }
    if p in b.PageSet() { ShrUnique(p, b.index, b.order); }
  }

  lemma InPages(blocks: set<Block>, p: nat) returns (b: Block)
    requires p in Pages(blocks)
    ensures b in blocks && b.Covers(p) && p in b.PageSet()
  {
    b :| b in blocks && p in b.PageSet();
    CoversPageSet(b, p);
  }

  /** Two blocks that share a page are nested. */
  lemma SharedPage(a: Block, b: Block, p: nat)
    requires a.Covers(p) && b.Covers(p) && a.order <= b.order
    ensures a.Inside(b)
  {
    ShrShr(p, a.order, b.order - a.order);
  }

  lemma InsideCovers(a: Block, b: Block, p: nat)
    requires a.Inside(b) && a.Covers(p)
    ensures b.Covers(p)
  {
    ShrShr(p, a.order, b.order - a.order);
  }

  lemma FirstPage(b: Block) returns (p: nat)
    ensures b.Covers(p) && p in b.PageSet()
  {
    p := Shl(b.index, b.order);
    ShrShl(b.index, b.order);
    CoversPageSet(b, p);
  }

  lemma HalvesPageSet(b: Block)
    requires b.order > 0
    ensures b.PageSet() == b.Half(false).PageSet() + b.Half(true).PageSet()
    ensures b.Half(false).PageSet() !! b.Half(true).PageSet()
  {
    assert Shl(b.index, b.order) == Shl(2 * b.index, b.order - 1);
    assert Shl(b.index + 1, b.order) == Shl(2 * b.index + 2, b.order - 1);
    ShlMono(2 * b.index, 2 * b.index + 1, b.order - 1);
    ShlMono(2 * b.index + 1, 2 * b.index + 2, b.order - 1);
  }

  /** Something inside a block is the block itself or inside one of its halves. */
  lemma InsideHalf(a: Block, b: Block)
    requires b.order > 0 && a.Inside(b)
    ensures a == b || a.Inside(b.Half(false)) || a.Inside(b.Half(true))
  {
    if a.order < b.order { ShrTop(a.index, b.order - a.order); }
  }

  lemma HalfInside(a: Block, b: Block)
    requires a.order > 0 && (a.Half(false).Inside(b) || a.Half(true).Inside(b))
    ensures a.Inside(b) || b == a.Half(false) || b == a.Half(true)
  {
  }

  lemma InsideTrans(a: Block, b: Block, c: Block)
    requires a.Inside(b) && b.Inside(c)
    ensures a.Inside(c)
  {
    ShrShr(a.index, b.order - a.order, c.order - b.order);
  }

  lemma PageSetSize(b: Block)
    ensures |b.PageSet()| == Shl(1, b.order)
  {
    ShlAdd(b.index, 1, b.order);
    ShlMono(b.index, b.index + 1, b.order);
    RangeSize(Shl(b.index, b.order), Shl(b.index + 1, b.order));
  }

  /** A fully free aligned block is part of a single free block: the heart of canonicity. */
  lemma {:induction false} CoveredByOne(blocks: set<Block>, top: nat, count: nat, c: Block) returns (b: Block)
    requires Apart(blocks, top, count) && Joined(blocks, top)
    requires c.order <= top && c.PageSet() <= Pages(blocks)
    ensures b in blocks && c.Inside(b)
    decreases c.order
  {
    if c.order == 0 {
      var p := FirstPage(c);
      b := InPages(blocks, p);
    } else {
      HalvesPageSet(c);
      b := CoveredByOne(blocks, top, count, c.Half(false));
      var b' := CoveredByOne(blocks, top, count, c.Half(true));
      HalfInside(c, b);
      HalfInside(c, b');
      assert c.Half(true) == c.Half(false).Sibling();
      if !c.Inside(b) { b := b'; }
    }
  }

  /** c is a maximal aligned block of the page set f. */
  ghost predicate Maximal(f: set<nat>, top: nat, c: Block) {
    c.order <= top && c.PageSet() <= f && (c.order < top ==> !(c.Parent().PageSet() <= f))
  }

  /** The free lists hold exactly the maximal aligned blocks of the free page set. */
  lemma CanonicalForm(blocks: set<Block>, top: nat, count: nat, c: Block)
    requires Apart(blocks, top, count) && Joined(blocks, top)
    ensures c in blocks <==> Maximal(Pages(blocks), top, c)
  {
    if c in blocks {
      if c.order < top && c.Parent().PageSet() <= Pages(blocks) {
        var b := CoveredByOne(blocks, top, count, c.Parent());
        assert c.Inside(c.Parent()) by { ShrTop(c.index, 1); }
        InsideTrans(c, c.Parent(), b);
        assert false;
      }
    }
    if Maximal(Pages(blocks), top, c) {
      var b := CoveredByOne(blocks, top, count, c);
      if b.order > c.order {
        assert c.Parent().Inside(b);
        forall p | p in c.Parent().PageSet() ensures p in Pages(blocks) {
          CoversPageSet(c.Parent(), p);
          InsideCovers(c.Parent(), b, p);
          CoversPageSet(b, p);
        }
        assert false;
      }
    }
  }

  lemma UniqueForm(a: set<Block>, b: set<Block>, top: nat, count: nat)
    requires Apart(a, top, count) && Joined(a, top)
    requires Apart(b, top, count) && Joined(b, top)
    requires Pages(a) == Pages(b)
    ensures a == b
  {
    forall c ensures c in a <==> c in b {
      CanonicalForm(a, top, count, c);
      CanonicalForm(b, top, count, c);
    }
  }

  // ---- How the steps of the allocator change a block set ----

  ghost function Split(blocks: set<Block>, b: Block): set<Block>
    requires b.order > 0
  {
    blocks - {b} + {b.Half(false), b.Half(true)}
  }

  lemma WithinHalves(b: Block, top: nat, count: nat)
    requires b.order > 0 && b.order <= top
    ensures b.Half(false).Within(top, count) <==> b.Within(top, count)
    ensures b.Half(true).Within(top, count) <==> b.Within(top, count)
  {
  }

  lemma SplitKeeps(blocks: set<Block>, top: nat, count: nat, b: Block)
    requires Apart(blocks, top, count) && b in blocks && b.order > 0
    ensures Apart(Split(blocks, b), top, count)
    ensures Pages(Split(blocks, b)) == Pages(blocks)
    ensures b.Half(false) !in blocks && b.Half(true) !in blocks
  {
    var halves := {b.Half(false), b.Half(true)};
    assert b.Half(false).Inside(b) && b.Half(true).Inside(b);
    WithinHalves(b, top, count);
    forall x, y | x in Split(blocks, b) && y in Split(blocks, b) && x.Inside(y) ensures x == y {
      if x in halves && y !in halves {
        HalfInside(b, y);
      } else if x !in halves && y in halves {
        InsideTrans(x, y, b);
      }
    }
    HalvesPageSet(b);
    assert Pages(Split(blocks, b)) == Pages(blocks) by {
      forall p ensures p in Pages(Split(blocks, b)) <==> p in Pages(blocks) {
        if p in Pages(blocks) {
          var x := InPages(blocks, p);
          if x == b {
            if p in b.Half(false).PageSet() { assert b.Half(false) in Split(blocks, b); }
            else { assert b.Half(true) in Split(blocks, b); }
          } else { assert x in Split(blocks, b); }
        }
        if p in Pages(Split(blocks, b)) {
          var x := InPages(Split(blocks, b), p);
          if x in halves { assert p in b.PageSet(); }
        }
      }
    }
  }

  /** Only the two new halves can be a joinable pair, so taking one of them away again joins up. */
  lemma SplitJoined(blocks: set<Block>, top: nat, b: Block)
    requires b.order > 0 && Joined(blocks - {b}, top)
    requires {b.Half(false), b.Half(true)} !! blocks
    ensures Joined(Split(blocks, b) - {b.Half(true)}, top)
  {
    var lower, upper := b.Half(false), b.Half(true);
    assert lower.Sibling() == upper && upper.Sibling() == lower;
    forall x | x in Split(blocks, b) - {upper} && x.order < top
      ensures x.Sibling() !in Split(blocks, b) - {upper}
    {
      assert x.Sibling().Sibling() == x;
    }
  }

  ghost function Join(blocks: set<Block>, b: Block): set<Block> {
    blocks - {b, b.Sibling()} + {b.Parent()}
  }

  /** Joining is splitting backwards. */
  lemma JoinKeeps(blocks: set<Block>, top: nat, count: nat, b: Block)
    requires Apart(blocks, top, count) && b.order < top
    requires b in blocks && b.Sibling() in blocks
    ensures Apart(Join(blocks, b), top, count)
    ensures Pages(Join(blocks, b)) == Pages(blocks)
    ensures b.Parent() !in blocks
  {
    var p := b.Parent();
    var rest := blocks - {b, b.Sibling()};
    assert {b, b.Sibling()} == {p.Half(false), p.Half(true)};
    WithinHalves(p, top, count);
    assert b.Inside(p);
    forall x, y | x in Join(blocks, b) && y in Join(blocks, b) && x.Inside(y) ensures x == y {
      if x == p && y in rest {
        InsideTrans(b, x, y);
      } else if x in rest && y == p {
        InsideHalf(x, y);
      }
    }
    SplitKeeps(Join(blocks, b), top, count, p);
    assert Split(Join(blocks, b), p) == blocks;
  }

  /** After a join the only pair left to join is the one of the new block. */
  lemma JoinJoined(blocks: set<Block>, top: nat, b: Block)
    requires JoinedExcept(blocks, top, b.Parent())
    ensures JoinedExcept(Join(blocks, b), top, b.Parent().Parent())
  {
    forall x | x in Join(blocks, b) && x.order < top && x.Sibling() in Join(blocks, b)
      ensures x.Parent() == b.Parent().Parent()
    {
    }
  }

  lemma AddJoined(blocks: set<Block>, top: nat, b: Block)
    requires Joined(blocks, top)
    ensures JoinedExcept(blocks + {b}, top, b.Parent())
  {
    forall x | x in blocks + {b} && x.order < top && x.Sibling() in blocks + {b}
      ensures x.Parent() == b.Parent()
    {
    }
  }

  lemma JoinDone(blocks: set<Block>, top: nat, b: Block)
    requires JoinedExcept(blocks, top, b.Parent())
    requires b.order == top || b.Sibling() !in blocks
    ensures Joined(blocks, top)
  {
    forall x | x in blocks && x.order < top ensures x.Sibling() !in blocks {
      assert x.Parent() == b.Parent() ==> x == b || x == b.Sibling();
    }
  }

  lemma AddKeeps(blocks: set<Block>, top: nat, count: nat, b: Block)
    requires Apart(blocks, top, count) && b.Within(top, count)
    requires b.PageSet() !! Pages(blocks)
    ensures Apart(blocks + {b}, top, count)
    ensures Pages(blocks + {b}) == Pages(blocks) + b.PageSet()
    ensures b !in blocks
  {
    forall x | x in blocks ensures !x.Inside(b) && !b.Inside(x) {
      if x.Inside(b) {
        var p := FirstPage(x);
        InsideCovers(x, b, p);
        CoversPageSet(b, p);
        assert false;
      }
      if b.Inside(x) {
        var p := FirstPage(b);
        InsideCovers(b, x, p);
        CoversPageSet(x, p);
        assert false;
      }
    }
    assert b.Inside(b);
  }

  lemma RemoveKeeps(blocks: set<Block>, top: nat, count: nat, b: Block)
    requires Apart(blocks, top, count) && b in blocks
    ensures Apart(blocks - {b}, top, count)
    ensures Pages(blocks - {b}) == Pages(blocks) - b.PageSet()
    ensures b.PageSet() <= Pages(blocks)
  {
    forall p | p in Pages(blocks - {b}) ensures p !in b.PageSet() {
      var x := InPages(blocks - {b}, p);
      if p in b.PageSet() {
        CoversPageSet(b, p);
        if x.order <= b.order { SharedPage(x, b, p); } else { SharedPage(b, x, p); }
        assert false;
      }
    }
  }
}
