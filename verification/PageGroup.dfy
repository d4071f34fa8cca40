/** One page group of the page allocator: free lists and pair bitmaps, changed in
    place. Addresses are counted in pages; every address the source handles here is
    page aligned. */
module PageGroups {
  import opened Lists
  import opened Shifts
  import opened BuddyBlocks

  function Addr(base: nat, b: Block): nat { base + Shl(b.index, b.order) }

  function BlockAt(base: nat, order: nat, addr: nat): Block
    requires addr >= base
  {
    Block(order, Shr(addr - base, order))
  }

  ghost predicate Aligned(base: nat, order: nat, addr: nat) {
    addr >= base && Addr(base, BlockAt(base, order, addr)) == addr
  }

  lemma AddrBlockAt(base: nat, b: Block)
    ensures Aligned(base, b.order, Addr(base, b)) && BlockAt(base, b.order, Addr(base, b)) == b
  {
    ShrShl(b.index, b.order);
  }

  /** The free lists hold exactly the blocks of the set, each once, on the list of its order. */
  ghost predicate ListsMatch(freelist: seq<seq<nat>>, base: nat, blocks: set<Block>) {
    && (forall k :: 0 <= k < |freelist| ==> Distinct(freelist[k]))
    && (forall k, a {:trigger Aligned(base, k, a)} :: 0 <= k < |freelist| && a in freelist[k] ==>
      Aligned(base, k, a) && BlockAt(base, k, a) in blocks)
    && (forall b :: b in blocks ==> b.order < |freelist| && Addr(base, b) in freelist[b.order])
  }

  /** Bit i of the map of order k is the exclusive or of the presence of its two buddies. */
  ghost predicate BitsMatch(bitmap: seq<seq<bool>>, blocks: set<Block>) {
    forall k, i :: 1 <= k < |bitmap| && 0 <= i < |bitmap[k]| ==>
      bitmap[k][i] == ((Block(k - 1, 2 * i) in blocks) != (Block(k - 1, 2 * i + 1) in blocks))
  }

  /** There is a bit for every pair of buddies in the group. */
  ghost predicate BitsFit(bitmap: seq<seq<bool>>, nsizes: nat, count: nat) {
    && |bitmap| == nsizes > 0
    && forall k: nat, i: nat :: 1 <= k < nsizes && Block(k, i).Within(nsizes - 1, count) ==> i < |bitmap[k]|
  }

  function Push(freelist: seq<seq<nat>>, order: nat, addr: nat): seq<seq<nat>>
    requires order < |freelist|
  {
    freelist[order := [addr] + freelist[order]]
  }

  function Flip(bitmap: seq<seq<bool>>, order: nat, index: nat): seq<seq<bool>>
    requires order < |bitmap| && index < |bitmap[order]|
  {
    bitmap[order := bitmap[order][index := !bitmap[order][index]]]
  }

  lemma PushMatches(freelist: seq<seq<nat>>, base: nat, blocks: set<Block>, b: Block)
    requires ListsMatch(freelist, base, blocks) && b !in blocks && b.order < |freelist|
    ensures ListsMatch(Push(freelist, b.order, Addr(base, b)), base, blocks + {b})
  {
    AddrBlockAt(base, b);
    var a := Addr(base, b);
    assert Aligned(base, b.order, a) && a !in freelist[b.order];
    var pushed := Push(freelist, b.order, a);
    forall k, y | 0 <= k < |pushed| && y in pushed[k]
      ensures Aligned(base, k, y) && BlockAt(base, k, y) in blocks + {b}
    {
      if k != b.order || y != a { assert y in freelist[k]; }
    }
  }

  lemma PopMatches(freelist: seq<seq<nat>>, base: nat, blocks: set<Block>, order: nat)
    requires ListsMatch(freelist, base, blocks) && order < |freelist| && freelist[order] != []
    ensures freelist[order][0] >= base
    ensures ListsMatch(freelist[order := freelist[order][1..]], base,
      blocks - {BlockAt(base, order, freelist[order][0])})
  {
    var a := freelist[order][0];
    var popped := freelist[order := freelist[order][1..]];
    assert a in freelist[order] && Aligned(base, order, a);
    var b := BlockAt(base, order, a);
    forall x | x in blocks - {b} ensures x.order < |popped| && Addr(base, x) in popped[x.order] {
      if x.order == order {
        AddrBlockAt(base, x);
        assert freelist[order] == [a] + popped[order];
      }
    }
    forall k, y | 0 <= k < |popped| && y in popped[k]
      ensures Aligned(base, k, y) && BlockAt(base, k, y) in blocks - {b}
    {
      if k == order {
        assert freelist[order] == [a] + popped[order];
        var j :| 0 <= j < |popped[order]| && popped[order][j] == y;
        assert freelist[order][j + 1] == y;
      }
    }
  }

  lemma UnlinkMatches(freelist: seq<seq<nat>>, base: nat, blocks: set<Block>, b: Block)
    requires ListsMatch(freelist, base, blocks) && b in blocks
    ensures ListsMatch(freelist[b.order := Unlink(freelist[b.order], Addr(base, b))], base, blocks - {b})
  {
    var a := Addr(base, b);
    var rest := freelist[b.order := Unlink(freelist[b.order], a)];
    UnlinkRemoves(freelist[b.order], a);
    AddrBlockAt(base, b);
    forall k, y | 0 <= k < |rest| && y in rest[k] ensures Aligned(base, k, y) && BlockAt(base, k, y) in blocks - {b} {
      assert y in freelist[k];
      assert Aligned(base, k, y);
      if k == b.order { assert y != a; }
    }
    forall x | x in blocks - {b} ensures x.order < |rest| && Addr(base, x) in rest[x.order] {
      AddrBlockAt(base, x);
      assert Addr(base, x) in freelist[x.order];
      if x.order == b.order { assert Addr(base, x) != a; }
    }
  }

  lemma FlipMatches(bitmap: seq<seq<bool>>, blocks: set<Block>, blocks': set<Block>, b: Block)
    requires BitsMatch(bitmap, blocks)
    requires b.order + 1 < |bitmap| && b.index / 2 < |bitmap[b.order + 1]|
    requires (b in blocks && blocks' == blocks - {b}) || (b !in blocks && blocks' == blocks + {b})
    ensures BitsMatch(Flip(bitmap, b.order + 1, b.index / 2), blocks')
  {
    var flipped := Flip(bitmap, b.order + 1, b.index / 2);
    forall k, i | 1 <= k < |flipped| && 0 <= i < |flipped[k]|
      ensures flipped[k][i] == ((Block(k - 1, 2 * i) in blocks') != (Block(k - 1, 2 * i + 1) in blocks'))
    {
      assert bitmap[k][i] == ((Block(k - 1, 2 * i) in blocks) != (Block(k - 1, 2 * i + 1) in blocks));
    }
  }

  /** A block of the top order has no pair, so no bit looks at it. */
  lemma TopMatches(bitmap: seq<seq<bool>>, blocks: set<Block>, blocks': set<Block>, b: Block)
    requires BitsMatch(bitmap, blocks) && b.order + 1 >= |bitmap|
    requires blocks' == blocks - {b} || blocks' == blocks + {b}
    ensures BitsMatch(bitmap, blocks')
  {
    forall k, i | 1 <= k < |bitmap| && 0 <= i < |bitmap[k]|
      ensures bitmap[k][i] == ((Block(k - 1, 2 * i) in blocks') != (Block(k - 1, 2 * i + 1) in blocks'))
    {
      assert bitmap[k][i] == ((Block(k - 1, 2 * i) in blocks) != (Block(k - 1, 2 * i + 1) in blocks));
    }
  }

  /** Two buddies entering or leaving together leave their bit alone. */
  lemma PairMatches(bitmap: seq<seq<bool>>, blocks: set<Block>, blocks': set<Block>, p: Block)
    requires BitsMatch(bitmap, blocks) && p.order > 0
    requires
      || ({p.Half(false), p.Half(true)} <= blocks && blocks' == blocks - {p.Half(false), p.Half(true)})
      || ({p.Half(false), p.Half(true)} !! blocks && blocks' == blocks + {p.Half(false), p.Half(true)})
    ensures BitsMatch(bitmap, blocks')
  {
    forall k, i | 1 <= k < |bitmap| && 0 <= i < |bitmap[k]|
      ensures bitmap[k][i] == ((Block(k - 1, 2 * i) in blocks') != (Block(k - 1, 2 * i + 1) in blocks'))
    {
      assert bitmap[k][i] == ((Block(k - 1, 2 * i) in blocks) != (Block(k - 1, 2 * i + 1) in blocks));
    }
  }

  /** What ties the concrete lists and maps of a group to a set of free blocks. */
  ghost predicate Represents(freelist: seq<seq<nat>>, bitmap: seq<seq<bool>>, base: nat, count: nat,
      blocks: set<Block>)
  {
    && |freelist| == |bitmap| > 0
    && BitsFit(bitmap, |freelist|, count)
    && Apart(blocks, |freelist| - 1, count)
    && ListsMatch(freelist, base, blocks)
    && BitsMatch(bitmap, blocks)
  }

  /** _pagegroup_calculate_index */
  function Index(base: nat, order: nat, addr: nat): nat
    requires addr >= base
  {
    Shr(addr - base, order)
  }

  /** The block of this order at addr has a pair bit, and the map is large enough to hold it. */
  ghost predicate HasBit(bitmap: seq<seq<bool>>, base: nat, order: nat, addr: nat) {
    && addr >= base
    && (order + 1 < |bitmap| ==> Index(base, order + 1, addr) < |bitmap[order + 1]|)
  }

  /** Flipping the pair bit of the block at addr, if its order has one. */
  function FlipPair(bitmap: seq<seq<bool>>, base: nat, order: nat, addr: nat): seq<seq<bool>>
    requires HasBit(bitmap, base, order, addr)
  {
    if order + 1 < |bitmap| then Flip(bitmap, order + 1, Index(base, order + 1, addr)) else bitmap
  }

  lemma PairIndex(base: nat, b: Block)
    ensures Index(base, b.order, Addr(base, b)) == b.index
    ensures Index(base, b.order + 1, Addr(base, b)) == b.index / 2
  {
    ShrTop(Shl(b.index, b.order), b.order + 1);
    ShrShl(b.index, b.order);
  }

  lemma HalfAddrs(base: nat, b: Block)
    requires b.order > 0
    ensures Addr(base, b.Half(false)) == Addr(base, b)
    ensures Addr(base, b.Half(true)) == Addr(base, b) + Shl(1, b.order - 1)
  {
    ShlAdd(2 * b.index, 1, b.order - 1);
  }

  lemma FlipPairMatches(bitmap: seq<seq<bool>>, base: nat, count: nat, blocks: set<Block>, blocks': set<Block>,
      b: Block)
    requires |bitmap| > 0 && BitsFit(bitmap, |bitmap|, count) && BitsMatch(bitmap, blocks)
    requires b.Within(|bitmap| - 1, count)
    requires (b in blocks && blocks' == blocks - {b}) || (b !in blocks && blocks' == blocks + {b})
    ensures HasBit(bitmap, base, b.order, Addr(base, b))
    ensures BitsFit(FlipPair(bitmap, base, b.order, Addr(base, b)), |bitmap|, count)
    ensures BitsMatch(FlipPair(bitmap, base, b.order, Addr(base, b)), blocks')
  {
    PairIndex(base, b);
    if b.order + 1 < |bitmap| {
      assert b.Parent().Within(|bitmap| - 1, count);
      FlipMatches(bitmap, blocks, blocks', b);
    } else {
      TopMatches(bitmap, blocks, blocks', b);
    }
  }

  lemma HeadBlock(freelist: seq<seq<nat>>, base: nat, blocks: set<Block>, order: nat) returns (b: Block)
    requires ListsMatch(freelist, base, blocks) && order < |freelist| && freelist[order] != []
    ensures freelist[order][0] >= base && b == BlockAt(base, order, freelist[order][0])
    ensures b in blocks && Addr(base, b) == freelist[order][0]
  {
    var a := freelist[order][0];
    assert a in freelist[order] && Aligned(base, order, a);
    b := BlockAt(base, order, a);
  }

  function SplitLists(freelist: seq<seq<nat>>, order: nat): seq<seq<nat>>
    requires 0 < order < |freelist| && freelist[order] != []
  {
    var target := freelist[order][0];
    Push(Push(freelist[order := freelist[order][1..]], order - 1, target), order - 1, target + Shl(1, order - 1))
  }

  lemma SplitListsMatch(freelist: seq<seq<nat>>, base: nat, blocks: set<Block>, b: Block)
    requires 0 < b.order < |freelist| && freelist[b.order] != [] && freelist[b.order][0] == Addr(base, b)
    requires ListsMatch(freelist, base, blocks) && b in blocks
    requires {b.Half(false), b.Half(true)} !! blocks
    ensures ListsMatch(SplitLists(freelist, b.order), base, Split(blocks, b))
  {
    var lower, upper := b.Half(false), b.Half(true);
    AddrBlockAt(base, b);
    HalfAddrs(base, b);
    var popped := freelist[b.order := freelist[b.order][1..]];
    PopMatches(freelist, base, blocks, b.order);
    PushMatches(popped, base, blocks - {b}, lower);
    PushMatches(Push(popped, b.order - 1, Addr(base, lower)), base, blocks - {b} + {lower}, upper);
    assert blocks - {b} + {lower} + {upper} == Split(blocks, b);
  }

  lemma SplitBitsMatch(bitmap: seq<seq<bool>>, base: nat, count: nat, blocks: set<Block>, b: Block)
    requires |bitmap| > 0 && BitsFit(bitmap, |bitmap|, count) && BitsMatch(bitmap, blocks)
    requires 0 < b.order < |bitmap| && b.Within(|bitmap| - 1, count) && b in blocks
    requires {b.Half(false), b.Half(true)} !! blocks
    ensures HasBit(bitmap, base, b.order, Addr(base, b))
    ensures BitClear(bitmap, base, b.order, Addr(base, b))
    ensures BitsFit(FlipPair(bitmap, base, b.order, Addr(base, b)), |bitmap|, count)
    ensures BitsMatch(FlipPair(bitmap, base, b.order, Addr(base, b)), Split(blocks, b))
  {
    FlipPairMatches(bitmap, base, count, blocks, blocks - {b}, b);
    PairMatches(FlipPair(bitmap, base, b.order, Addr(base, b)), blocks - {b}, Split(blocks, b), b);
    PairIndex(base, b);
    assert b.index < |bitmap[b.order]|;
  }

  ghost predicate BitClear(bitmap: seq<seq<bool>>, base: nat, order: nat, addr: nat) {
    && order < |bitmap| && addr >= base
    && Index(base, order, addr) < |bitmap[order]| && !bitmap[order][Index(base, order, addr)]
  }

  /** Everything a split of the first block of a list does to the represented block set. */
  lemma SplitRepresents(freelist: seq<seq<nat>>, bitmap: seq<seq<bool>>, base: nat, count: nat, blocks: set<Block>,
      order: nat)
    returns (b: Block)
    requires Represents(freelist, bitmap, base, count, blocks)
    requires 0 < order < |freelist| && freelist[order] != []
    ensures b.order == order && b in blocks && freelist[order][0] == Addr(base, b)
    ensures {b.Half(false), b.Half(true)} !! blocks
    ensures HasBit(bitmap, base, order, freelist[order][0])
    ensures BitClear(bitmap, base, order, freelist[order][0])
    ensures Represents(SplitLists(freelist, order), FlipPair(bitmap, base, order, freelist[order][0]), base, count,
      Split(blocks, b))
    ensures Pages(Split(blocks, b)) == Pages(blocks)
  {
    b := HeadBlock(freelist, base, blocks, order);
    SplitKeeps(blocks, |freelist| - 1, count, b);
    SplitListsMatch(freelist, base, blocks, b);
    SplitBitsMatch(bitmap, base, count, blocks, b);
  }

  function BuddyOf(base: nat, order: nat, addr: nat): nat
    requires addr >= base
  {
    if Index(base, order, addr) % 2 == 1 then (if addr >= Shl(1, order) then addr - Shl(1, order) else 0)
    else addr + Shl(1, order)
  }

  lemma BuddyAddr(base: nat, b: Block)
    ensures BuddyOf(base, b.order, Addr(base, b)) == Addr(base, b.Sibling())
    ensures b.index % 2 == 1 ==> Addr(base, b) >= Shl(1, b.order)
    ensures Addr(base, b.Parent()) == if b.index % 2 == 0 then Addr(base, b) else Addr(base, b.Sibling())
    ensures Addr(base, b.Sibling()) < Addr(base, b) <==> b.index % 2 == 1
  {
    PairIndex(base, b);
    HalfAddrs(base, b.Parent());
    ShlMono(0, 1, b.order);
    assert Shl(0, b.order) == 0 by { ShlAdd(0, 0, b.order); }
  }

  function JoinLists(freelist: seq<seq<nat>>, order: nat, addr: nat, buddy: nat): seq<seq<nat>>
    requires order + 1 < |freelist|
  {
    var rest := freelist[order := Unlink(Unlink(freelist[order], addr), buddy)];
    Push(rest, order + 1, if addr < buddy then addr else buddy)
  }

  lemma JoinListsMatch(freelist: seq<seq<nat>>, base: nat, blocks: set<Block>, b: Block)
    requires ListsMatch(freelist, base, blocks) && b.order + 1 < |freelist|
    requires b in blocks && b.Sibling() in blocks && b.Parent() !in blocks
    ensures ListsMatch(JoinLists(freelist, b.order, Addr(base, b), Addr(base, b.Sibling())), base, Join(blocks, b))
  {
    var s := b.Sibling();
    BuddyAddr(base, b);
    UnlinkMatches(freelist, base, blocks, b);
    var once := freelist[b.order := Unlink(freelist[b.order], Addr(base, b))];
    UnlinkMatches(once, base, blocks - {b}, s);
    var twice := once[b.order := Unlink(once[b.order], Addr(base, s))];
    assert twice == freelist[b.order := Unlink(Unlink(freelist[b.order], Addr(base, b)), Addr(base, s))];
    PushMatches(twice, base, blocks - {b} - {s}, b.Parent());
    assert blocks - {b} - {s} + {b.Parent()} == Join(blocks, b);
  }

  lemma JoinBitsMatch(bitmap: seq<seq<bool>>, base: nat, count: nat, blocks: set<Block>, b: Block)
    requires |bitmap| > 0 && BitsFit(bitmap, |bitmap|, count) && BitsMatch(bitmap, blocks)
    requires b.order + 1 < |bitmap| && b.Parent().Within(|bitmap| - 1, count)
    requires b in blocks && b.Sibling() in blocks && b.Parent() !in blocks
    ensures HasBit(bitmap, base, b.order + 1, Addr(base, b.Parent()))
    ensures BitsFit(FlipPair(bitmap, base, b.order + 1, Addr(base, b.Parent())), |bitmap|, count)
    ensures BitsMatch(FlipPair(bitmap, base, b.order + 1, Addr(base, b.Parent())), Join(blocks, b))
  {
    var p := b.Parent();
    var rest := blocks - {b, b.Sibling()};
    assert {b, b.Sibling()} == {p.Half(false), p.Half(true)};
    PairMatches(bitmap, blocks, rest, p);
    FlipPairMatches(bitmap, base, count, rest, Join(blocks, b), p);
  }

  lemma BitOfBlock(bitmap: seq<seq<bool>>, base: nat, count: nat, b: Block)
    requires |bitmap| > 0 && BitsFit(bitmap, |bitmap|, count) && b.Within(|bitmap| - 1, count)
    ensures HasBit(bitmap, base, b.order, Addr(base, b))
  {
    PairIndex(base, b);
    if b.order + 1 < |bitmap| { assert b.Parent().Within(|bitmap| - 1, count); }
  }

  /** The pair bit of a free block tells whether its buddy is free too. */
  lemma BitTellsBuddy(bitmap: seq<seq<bool>>, base: nat, count: nat, blocks: set<Block>, b: Block)
    requires |bitmap| > 0 && BitsFit(bitmap, |bitmap|, count) && BitsMatch(bitmap, blocks)
    requires b.order + 1 < |bitmap| && b.Within(|bitmap| - 1, count) && b in blocks
    ensures HasBit(bitmap, base, b.order, Addr(base, b))
    ensures bitmap[b.order + 1][Index(base, b.order + 1, Addr(base, b))] <==> b.Sibling() !in blocks
  {
    PairIndex(base, b);
    BitOfBlock(bitmap, base, count, b);
  }

  /** Everything one turn of the join loop does to the represented block set. */
  lemma JoinRepresents(freelist: seq<seq<nat>>, bitmap: seq<seq<bool>>, base: nat, count: nat, blocks: set<Block>,
      b: Block, p: nat)
    requires Represents(freelist, bitmap, base, count, blocks)
    requires b.order + 1 < |freelist| && b in blocks && b.Sibling() in blocks && p == Addr(base, b.Parent())
    ensures HasBit(bitmap, base, b.order + 1, p)
    ensures HasBit(FlipPair(bitmap, base, b.order + 1, p), base, b.order + 1, p)
    ensures Represents(JoinLists(freelist, b.order, Addr(base, b), Addr(base, b.Sibling())),
                       FlipPair(bitmap, base, b.order + 1, p), base, count, Join(blocks, b))
    ensures Pages(Join(blocks, b)) == Pages(blocks)
  {
    JoinKeeps(blocks, |freelist| - 1, count, b);
    JoinListsMatch(freelist, base, blocks, b);
    JoinBitsMatch(bitmap, base, count, blocks, b);
  }

  lemma JoinTurn(freelist: seq<seq<nat>>, bitmap: seq<seq<bool>>, base: nat, count: nat, blocks: set<Block>, b: Block,
      addr: nat)
    returns (buddy: nat, p: nat)
    requires Represents(freelist, bitmap, base, count, blocks)
    requires b.order + 1 < |freelist| && b in blocks && addr == Addr(base, b) && HasBit(bitmap, base, b.order, addr)
    requires !bitmap[b.order + 1][Index(base, b.order + 1, addr)]
    requires JoinedExcept(blocks, |freelist| - 1, b.Parent())
    ensures buddy == BuddyOf(base, b.order, addr) && p == if addr < buddy then addr else buddy
    ensures Index(base, b.order, addr) % 2 == 1 ==> addr >= Shl(1, b.order)
    ensures p == Addr(base, b.Parent()) && HasBit(bitmap, base, b.order + 1, p)
    ensures HasBit(FlipPair(bitmap, base, b.order + 1, p), base, b.order + 1, p)
    ensures Represents(JoinLists(freelist, b.order, addr, buddy), FlipPair(bitmap, base, b.order + 1, p), base, count,
      Join(blocks, b))
    ensures Pages(Join(blocks, b)) == Pages(blocks)
    ensures JoinedExcept(Join(blocks, b), |freelist| - 1, b.Parent().Parent())
  {
    buddy, p := Addr(base, b.Sibling()), Addr(base, b.Parent());
    BuddyAddr(base, b);
    PairIndex(base, b);
    BitTellsBuddy(bitmap, base, count, blocks, b);
    JoinRepresents(freelist, bitmap, base, count, blocks, b, p);
    JoinJoined(blocks, |freelist| - 1, b);
  }

  lemma JoinStops(freelist: seq<seq<nat>>, bitmap: seq<seq<bool>>, base: nat, count: nat, blocks: set<Block>, b: Block,
      addr: nat)
    requires Represents(freelist, bitmap, base, count, blocks)
    requires b.order < |freelist| && b in blocks && addr == Addr(base, b) && HasBit(bitmap, base, b.order, addr)
    requires b.order + 1 < |freelist| ==> bitmap[b.order + 1][Index(base, b.order + 1, addr)]
    requires JoinedExcept(blocks, |freelist| - 1, b.Parent())
    ensures Joined(blocks, |freelist| - 1)
  {
    if b.order + 1 < |freelist| { BitTellsBuddy(bitmap, base, count, blocks, b); }
    JoinDone(blocks, |freelist| - 1, b);
  }

  lemma AddRepresents(freelist: seq<seq<nat>>, bitmap: seq<seq<bool>>, base: nat, count: nat, blocks: set<Block>,
      b: Block)
    requires Represents(freelist, bitmap, base, count, blocks)
    requires b.Within(|freelist| - 1, count) && b.PageSet() !! Pages(blocks)
    ensures HasBit(bitmap, base, b.order, Addr(base, b))
    ensures Represents(Push(freelist, b.order, Addr(base, b)), FlipPair(bitmap, base, b.order, Addr(base, b)), base,
      count, blocks + {b})
    ensures Pages(blocks + {b}) == Pages(blocks) + b.PageSet()
  {
    AddKeeps(blocks, |freelist| - 1, count, b);
    PushMatches(freelist, base, blocks, b);
    FlipPairMatches(bitmap, base, count, blocks, blocks + {b}, b);
  }

  lemma TakeRepresents(freelist: seq<seq<nat>>, bitmap: seq<seq<bool>>, base: nat, count: nat, blocks: set<Block>,
      order: nat)
    returns (b: Block)
    requires Represents(freelist, bitmap, base, count, blocks)
    requires order < |freelist| && freelist[order] != []
    ensures b.order == order && b in blocks && freelist[order][0] == Addr(base, b) && b.Within(|freelist| - 1, count)
    ensures HasBit(bitmap, base, order, Addr(base, b))
    ensures Represents(freelist[order := freelist[order][1..]], FlipPair(bitmap, base, order, Addr(base, b)), base,
      count, blocks - {b})
    ensures Pages(blocks - {b}) == Pages(blocks) - b.PageSet() && b.PageSet() <= Pages(blocks)
  {
    b := HeadBlock(freelist, base, blocks, order);
    RemoveKeeps(blocks, |freelist| - 1, count, b);
    PopMatches(freelist, base, blocks, order);
    FlipPairMatches(bitmap, base, count, blocks, blocks - {b}, b);
  }

  /** The number of bits set aside for `count` pairs: whole bytes. */
  function MapBits(count: nat): nat {
    if count == 0 then 0 else (count - 1) / 8 * 8 + 8
  }

  /** The bytes of the bitmaps of orders from, ..., nsizes - 1. */
  function MapBytes(npages: nat, from: nat, nsizes: nat): nat
    decreases nsizes - from
  {
    if from >= nsizes then 0 else MapBits(Shr(npages, from)) / 8 + MapBytes(npages, from + 1, nsizes)
  }

  lemma DivBounds(x: nat, d: nat, lo: nat, hi: nat)
    requires d > 0 && lo * d <= x <= hi * d
    ensures lo <= x / d <= hi
  {
    var q := x / d;
    if q < lo { MulMono(q + 1, lo, d); }
    if q > hi { MulMono(hi + 1, q, d); }
  }

  lemma MulMono(a: nat, b: nat, d: nat)
    requires a <= b
    ensures a * d <= b * d
  {
    assert b * d == a * d + (b - a) * d;
  }

  lemma DropBit(n: nat, order: nat)
    ensures Shl(Shr(n, order + 1), order + 1) == Shl(Shr(n, order), order) -
      if Shr(n, order) % 2 == 1 then Shl(1, order) else 0
  {
    var i := Shr(n, order);
    ShrTop(n, order + 1);
    if i % 2 == 1 { ShlAdd(i - 1, 1, order); }
  }

  lemma MapsFit(maps: seq<seq<bool>>, nsizes: nat, npages: nat, n: nat, count: nat)
    requires |maps| == nsizes > 0 && n <= npages && count == Shr(n, nsizes - 1)
    requires forall k :: 1 <= k < nsizes ==> |maps[k]| == MapBits(Shr(npages, k))
    ensures BitsFit(maps, nsizes, count)
  {
    forall k: nat, i: nat | 1 <= k < nsizes && Block(k, i).Within(nsizes - 1, count) ensures i < |maps[k]| {
      var d := nsizes - 1 - k;
      if i >= Shr(n, k) {
        ShrMono(Shr(n, k), i, d);
        ShrShr(n, k, d);
        assert false;
      }
      ShrMono(n, npages, k);
    }
  }

  /** The range is large enough for the record and the bitmaps that describe it. */
  ghost predicate HoldsRecords(nsizes: nat, pageSize: nat, recordSize: nat, start: nat, limit: nat) {
    && nsizes > 0 && pageSize > 0 && start <= limit
    && recordSize + MapBytes(limit - start, 1, nsizes) <= (limit - start) * pageSize
  }

  /** pg_endaddr: what is left below the records, rounded down to a page. */
  ghost function UsableEnd(nsizes: nat, pageSize: nat, recordSize: nat, start: nat, limit: nat): (r: nat)
    requires HoldsRecords(nsizes, pageSize, recordSize, start, limit)
    ensures start <= r <= limit
  {
    var bytes := RecordStart(pageSize, recordSize, start, limit) - MapBytes(limit - start, 1, nsizes);
    DivBounds(bytes, pageSize, start, limit);
    bytes / pageSize
  }

  /** The first loop of _pagegroup_create: one cleared bitmap per order above 0, each taken from the end of
      what is left. */
  method CarveMaps(from: nat, npages: nat, nsizes: nat) returns (bytes: nat, maps: seq<seq<bool>>)
    requires nsizes > 0 && MapBytes(npages, 1, nsizes) <= from
    ensures bytes == from - MapBytes(npages, 1, nsizes)
    ensures |maps| == nsizes
    ensures forall k :: 1 <= k < nsizes ==> |maps[k]| == MapBits(Shr(npages, k))
    ensures forall k, i :: 0 <= k < nsizes && 0 <= i < |maps[k]| ==> !maps[k][i]
  {
    bytes, maps := from, [[]];
    for order := 1 to nsizes
      invariant |maps| == order
      invariant bytes == from - MapBytes(npages, 1, nsizes) + MapBytes(npages, order, nsizes)
      invariant forall k :: 1 <= k < order ==> |maps[k]| == MapBits(Shr(npages, k))
      invariant forall k, i :: 0 <= k < order && 0 <= i < |maps[k]| ==> !maps[k][i]
    {
      var bits := MapBits(Shr(npages, order));
      bytes := bytes - bits / 8;
      maps := maps + [seq(bits, i => false)];
    }
  }

  /** Where the group record starts, in bytes. */
  function RecordStart(pageSize: nat, recordSize: nat, start: nat, limit: nat): (r: nat)
    requires start <= limit && recordSize <= (limit - start) * pageSize
    ensures r == start * pageSize + (limit - start) * pageSize - recordSize
  {
    assert limit * pageSize == start * pageSize + (limit - start) * pageSize;
    limit * pageSize - recordSize
  }

  /** The second loop: pages beyond the last whole block of the top order are dropped. */
  method DropRemainder(n: nat, top: nat) returns (size: nat)
    ensures size == Shl(Shr(n, top), top)
  {
    size := n;
    for order := 0 to top
      invariant size == Shl(Shr(n, order), order)
    {
      DropBit(n, order);
      if Shr(n, order) % 2 == 1 {
        size := size - Shl(1, order);
      }
    }
  }

  /** The third loop: the blocks of the top order go to the front of their list one by one. */
  method FillTop(nsizes: nat, start: nat, size: nat, ghost count: nat)
    returns (lists: seq<seq<nat>>, ghost all: set<Block>)
    requires nsizes > 0 && size == Shl(count, nsizes - 1)
    ensures |lists| == nsizes && ListsMatch(lists, start, all)
    ensures Apart(all, nsizes - 1, count) && Pages(all) == Range(0, size)
    ensures forall b <- all :: b.order == nsizes - 1
  {
    var top := nsizes - 1;
    lists, all := seq(nsizes, i => []), {};
    var current := start;
    ghost var m := 0;
    ShlAdd(0, 0, top);
    while current < start + size
      invariant m <= count && current == start + Shl(m, top)
      invariant |lists| == nsizes && ListsMatch(lists, start, all)
      invariant Apart(all, top, count) && Pages(all) == Range(0, Shl(m, top))
      invariant forall b <- all :: b.order == top
      decreases count - m
    {
      ghost var b := Block(top, m);
      ShlAdd(m, 1, top);
      AddKeeps(all, top, count, b);
      PushMatches(lists, start, all, b);
      assert Range(0, Shl(m, top)) + b.PageSet() == Range(0, Shl(m + 1, top));
      lists := Push(lists, top, current);
      current := current + Shl(1, top);
      all := all + {b};
      m := m + 1;
    }
    if m < count { ShlMono(m, count, top); }
  }

  lemma FreshRepresents(lists: seq<seq<nat>>, maps: seq<seq<bool>>, base: nat, npages: nat, n: nat, all: set<Block>)
    requires |lists| == |maps| > 0 && n <= npages
    requires forall k :: 1 <= k < |maps| ==> |maps[k]| == MapBits(Shr(npages, k))
    requires forall k, i :: 0 <= k < |maps| && 0 <= i < |maps[k]| ==> !maps[k][i]
    requires ListsMatch(lists, base, all) && Apart(all, |lists| - 1, Shr(n, |lists| - 1))
    requires forall b <- all :: b.order == |lists| - 1
    ensures Represents(lists, maps, base, Shr(n, |lists| - 1), all) && Joined(all, |lists| - 1)
  {
    MapsFit(maps, |maps|, npages, n, Shr(n, |lists| - 1));
  }

  /** A page group as a value. */
  datatype Group = Group(
    nsizes: nat, base: nat, end: nat, count: nat, freelist: seq<seq<nat>>, bitmap: seq<seq<bool>>, blocks: set<Block>) {

    ghost function Free(): set<nat> {
      Pages(blocks)
    }

    ghost predicate Consistent() {
      && |freelist| == |bitmap| == nsizes > 0
      && base + Shl(count, nsizes - 1) <= end
      && Represents(freelist, bitmap, base, count, blocks)
    }
  }

  type GoodGroup = v: Group | v.Consistent() && Joined(v.blocks, v.nsizes - 1)
    ghost witness Group(1, 0, 0, 0, [[]], [[]], {})

  /** Another state of the same group. */
  ghost predicate SameGroup(v: Group, v': Group) {
    v'.nsizes == v.nsizes && v'.base == v.base && v'.end == v.end && v'.count == v.count
  }

  class PageGroup {
    const nsizes: nat          // PAGE_NSIZES
    const base: nat            // pg_baseaddr
    const end: nat             // pg_endaddr
    ghost const count: nat     // blocks of the top order
    var freelist: seq<seq<nat>>
    var bitmap: seq<seq<bool>>
    ghost var blocks: set<Block>

    ghost function View(): Group
      reads this
    {
      Group(nsizes, base, end, count, freelist, bitmap, blocks)
    }

    /** Holds at every point inside an operation. */
    ghost predicate Consistent()
      reads this
    {
      && |freelist| == |bitmap| == nsizes > 0
      && base + Shl(count, nsizes - 1) <= end
      && Represents(freelist, bitmap, base, count, blocks)
    }

    /** Holds between operations. */
    ghost predicate Valid()
      reads this
    {
      Consistent() && Joined(blocks, nsizes - 1)
    }

    ghost function Free(): set<nat>
      reads this
    {
      Pages(blocks)
    }

    predicate HasFree(order: nat)
      reads this
    {
      order < |freelist| && freelist[order] != []
    }

    /** _pagegroup_create. The range [start, limit) is given in pages; the group record and the
        bitmaps are carved from its end, counted in bytes. */
    constructor (nsizes: nat, pageSize: nat, recordSize: nat, start: nat, limit: nat)
      requires HoldsRecords(nsizes, pageSize, recordSize, start, limit)
      ensures Valid()
      ensures this.nsizes == nsizes && base == start && end == UsableEnd(nsizes, pageSize, recordSize, start, limit)
      ensures count == Shr(end - start, nsizes - 1) && Free() == Range(0, Shl(count, nsizes - 1))
    {
      var bytes, maps := CarveMaps(RecordStart(pageSize, recordSize, start, limit), limit - start, nsizes);
      var last := bytes / pageSize;
      assert last == UsableEnd(nsizes, pageSize, recordSize, start, limit);
      var size := DropRemainder(last - start, nsizes - 1);
      var lists, all := FillTop(nsizes, start, size, Shr(last - start, nsizes - 1));
      FreshRepresents(lists, maps, start, limit - start, last - start, all);
      ShrBounds(last - start, nsizes - 1);
      this.nsizes := nsizes;
      base := start;
      end := last;
      count := Shr(last - start, nsizes - 1);
      freelist := lists;
      bitmap := maps;
      blocks := all;
    }

    /** __page_split */
    method SplitHead(order: nat)
      requires |freelist| == |bitmap| == nsizes && 0 < order < nsizes && freelist[order] != []
      requires HasBit(bitmap, base, order, freelist[order][0])
      requires BitClear(bitmap, base, order, freelist[order][0])
      modifies this`freelist, this`bitmap
      ensures freelist == SplitLists(old(freelist), order)
      ensures bitmap == FlipPair(old(bitmap), base, order, old(freelist)[order][0])
    {
      var target := freelist[order][0];
      freelist := freelist[order := freelist[order][1..]];
      if order < nsizes - 1 {
        bitmap := Flip(bitmap, order + 1, Index(base, order + 1, target));
      }
      assert !bitmap[order][Index(base, order, target)];
      var buddy := target + Shl(1, order - 1);
      freelist := Push(freelist, order - 1, target);
      freelist := Push(freelist, order - 1, buddy);
    }

    /** The same split, seen as a step on the free blocks. */
    method SplitFree(order: nat, ghost b: Block) returns (ghost half: Block)
      requires Consistent() && 0 < order < nsizes && freelist[order] != []
      requires freelist[order][0] == Addr(base, b) && b.order == order && Joined(blocks - {b}, nsizes - 1)
      modifies this
      ensures Consistent() && half == b.Half(true) && blocks == Split(old(blocks), b) && Free() == old(Free())
      ensures freelist[order - 1] != [] && freelist[order - 1][0] == Addr(base, half)
      ensures Joined(blocks - {half}, nsizes - 1)
    {
      ghost var c := SplitRepresents(freelist, bitmap, base, count, blocks, order);
      AddrBlockAt(base, b);
      AddrBlockAt(base, c);
      HalfAddrs(base, b);
      SplitJoined(blocks, nsizes - 1, b);
      SplitHead(order);
      blocks := Split(blocks, b);
      half := b.Half(true);
    }

    /** The inner loop of _page_split: split until a block of the wanted order is at hand. */
    method SplitDown(from: nat, order: nat)
      requires Valid() && order < from < nsizes && freelist[from] != []
      modifies this
      ensures Consistent() && Free() == old(Free())
      ensures freelist[order] != [] && freelist[order][0] >= base
      ensures Joined(blocks - {BlockAt(base, order, freelist[order][0])}, nsizes - 1)
    {
      var norder := from;
      ghost var b := HeadBlock(freelist, base, blocks, norder);
      while norder > order
        invariant order <= norder <= from
        invariant Consistent() && Free() == old(Free())
        invariant freelist[norder] != [] && freelist[norder][0] == Addr(base, b) && b.order == norder
        invariant Joined(blocks - {b}, nsizes - 1)
      {
        b := SplitFree(norder, b);
        norder := norder - 1;
      }
      AddrBlockAt(base, b);
    }

    /** The `found` part of _page_alloc_order. */
    method TakeHead(order: nat) returns (addr: nat, ghost b: Block)
      requires Consistent() && order < nsizes && freelist[order] != [] && freelist[order][0] >= base
      requires Joined(blocks - {BlockAt(base, order, freelist[order][0])}, nsizes - 1)
      modifies this
      ensures Valid()
      ensures b.order == order && b.Within(nsizes - 1, count) && addr == Addr(base, b)
      ensures b.PageSet() <= old(Free()) && Free() == old(Free()) - b.PageSet()
    {
      b := TakeRepresents(freelist, bitmap, base, count, blocks, order);
      AddrBlockAt(base, b);
      addr := freelist[order][0];
      freelist := freelist[order := freelist[order][1..]];
      if nsizes - 1 > order {
        bitmap := Flip(bitmap, order + 1, Index(base, order + 1, addr));
      }
      blocks := blocks - {b};
    }

    /** One turn of the loop of __page_join. */
    method JoinOnce(order: nat, addr: nat) returns (joined: nat)
      requires |freelist| == |bitmap| == nsizes && order + 1 < nsizes && addr >= base
      requires Index(base, order, addr) % 2 == 1 ==> addr >= Shl(1, order)
      requires var buddy := BuddyOf(base, order, addr);
        HasBit(bitmap, base, order + 1, if addr < buddy then addr else buddy)
      modifies this`freelist, this`bitmap
      ensures var buddy := BuddyOf(base, order, addr);
        && joined == (if addr < buddy then addr else buddy)
        && freelist == JoinLists(old(freelist), order, addr, buddy)
        && bitmap == FlipPair(old(bitmap), base, order + 1, joined)
    {
      var buddy := if Shr(addr - base, order) % 2 == 1 then addr - Shl(1, order) else addr + Shl(1, order);
      freelist := freelist[order := Unlink(freelist[order], addr)];
      freelist := freelist[order := Unlink(freelist[order], buddy)];
      joined := if addr < buddy then addr else buddy;
      freelist := Push(freelist, order + 1, joined);
      if nsizes - 1 > order + 1 {
        bitmap := Flip(bitmap, order + 2, Index(base, order + 2, joined));
      }
    }

    /** The same turn, seen as a step on the free blocks. */
    method JoinBuddies(order: nat, addr: nat, ghost b: Block) returns (joined: nat)
      requires Consistent() && b in blocks && b.order == order && order + 1 < nsizes && addr == Addr(base, b)
      requires HasBit(bitmap, base, order, addr) && !bitmap[order + 1][Index(base, order + 1, addr)]
      requires JoinedExcept(blocks, nsizes - 1, b.Parent())
      modifies this
      ensures Consistent() && blocks == Join(old(blocks), b) && Free() == old(Free())
      ensures joined == Addr(base, b.Parent()) && HasBit(bitmap, base, order + 1, joined)
      ensures JoinedExcept(blocks, nsizes - 1, b.Parent().Parent())
    {
      ghost var buddy, p := JoinTurn(freelist, bitmap, base, count, blocks, b, addr);
      joined := JoinOnce(order, addr);
      blocks := Join(blocks, b);
    }

    /** __page_join */
    method JoinUp(from: nat, start: nat, ghost block: Block)
      requires Consistent() && block in blocks && block.order == from && start == Addr(base, block)
      requires JoinedExcept(blocks, nsizes - 1, block.Parent())
      modifies this
      ensures Valid() && Free() == old(Free())
    {
      var order, addr := from, start;
      ghost var b := block;
      BitOfBlock(bitmap, base, count, b);
      while nsizes - 1 > order && !bitmap[order + 1][Index(base, order + 1, addr)]
        invariant Consistent() && Free() == old(Free())
        invariant b in blocks && b.order == order < nsizes && addr == Addr(base, b)
        invariant HasBit(bitmap, base, order, addr)
        invariant JoinedExcept(blocks, nsizes - 1, b.Parent())
      {
        addr := JoinBuddies(order, addr, b);
        b := b.Parent();
        order := order + 1;
      }
      JoinStops(freelist, bitmap, base, count, blocks, b, addr);
    }

    /** The part of _page_free_order that works on the group of the address. */
    method Release(addr: nat, order: nat, ghost b: Block)
      requires Valid() && b.Within(nsizes - 1, count) && b.order == order && addr == Addr(base, b)
      requires b.PageSet() !! Free()
      modifies this
      ensures Valid() && Free() == old(Free()) + b.PageSet()
    {
      AddRepresents(freelist, bitmap, base, count, blocks, b);
      AddJoined(blocks, nsizes - 1, b);
      freelist := Push(freelist, order, addr);
      blocks := blocks + {b};
      if nsizes - 1 > order {
        bitmap := Flip(bitmap, order + 1, Index(base, order + 1, addr));
        JoinUp(order, addr, b);
      } else {
        JoinDone(blocks, nsizes - 1, b);
      }
    }
  }
}
