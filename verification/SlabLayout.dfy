/** How slab.c lays out a slab: objects and their control words one after the other from the start
    of a page block, then the slab descriptor. Sizes in bytes, on the 32-bit machine of the kernel. */
module SlabLayout {
  import opened Basics
  import opened Lists
  import opened Shifts

  const PAGE_SIZE: nat := 4096
  const PAGE_NSIZES: nat := 8
  const SLAB_MAX_ORDER: nat := 5
  const BUFCTL: nat := 8        // sizeof(struct slab_bufctl)
  const SLAB: nat := 16         // sizeof(struct slab)

  /** PAGE_SIZE << order */
  function BlockSize(order: nat): (b: nat)
    ensures b >= PAGE_SIZE
  {
    Shl(PAGE_SIZE, order)
  }

  function Stride(objsize: nat): (s: nat)
    ensures s > objsize
  {
    objsize + BUFCTL
  }

  /** _slab_size, _slab_nobjs and _slab_waste */
  function SlabSize(objsize: nat, nobjs: nat): nat {
    nobjs * Stride(objsize) + SLAB
  }

  function SlabNobjs(objsize: nat, order: nat): nat {
    (BlockSize(order) - SLAB) / Stride(objsize)
  }

  function SlabWaste(objsize: nat, order: nat): int {
    BlockSize(order) - SlabSize(objsize, SlabNobjs(objsize, order))
  }

  lemma DivideOut(x: nat, d: nat)
    requires d > 0
    ensures (x / d) * d <= x < (x / d) * d + d
  {
  }

  /** The number of objects is the largest that fits; the waste is less than another object. */
  lemma NobjsFits(objsize: nat, order: nat)
    ensures SlabSize(objsize, SlabNobjs(objsize, order)) <= BlockSize(order)
    ensures 0 <= SlabWaste(objsize, order) < Stride(objsize)
    ensures SlabNobjs(objsize, order) >= 1 <==> Stride(objsize) + SLAB <= BlockSize(order)
  {
    DivideOut(BlockSize(order) - SLAB, Stride(objsize));
  }

  /** A block of this order has room for an object. */
  predicate Fits(objsize: nat, order: nat) {
    Stride(objsize) + SLAB <= BlockSize(order)
  }

  /** The orders _calc_slab_size chooses between: the least that fits, and all that fit below
      SLAB_MAX_ORDER. */
  ghost predicate Candidate(objsize: nat, order: nat) {
    && order < PAGE_NSIZES && Fits(objsize, order)
    && (order < SLAB_MAX_ORDER || forall o: nat :: o < order ==> !Fits(objsize, o))
  }

  lemma FitsMono(objsize: nat, o: nat, order: nat)
    requires o <= order && Fits(objsize, o)
    ensures Fits(objsize, order)
  {
    ShlGrows(PAGE_SIZE, o, order);
  }

  lemma {:induction false} ShlGrows(x: nat, j: nat, k: nat)
    requires j <= k
    ensures Shl(x, j) <= Shl(x, k)
    decreases k - j
  {
    if j < k {
      ShlTop(x, k);
      ShlGrows(x, j, k - 1);
    }
  }

  /** The first loop: the least order whose block is at least minsize, as signed numbers. */
  method MinOrder(minsize: int) returns (minorder: nat)
    ensures minorder <= PAGE_NSIZES
    ensures minorder < PAGE_NSIZES ==> BlockSize(minorder) >= minsize
    ensures forall o: nat :: o < minorder ==> BlockSize(o) < minsize
  {
    minorder := 0;
    while minorder < PAGE_NSIZES
      invariant minorder <= PAGE_NSIZES
      invariant forall o: nat :: o < minorder ==> BlockSize(o) < minsize
    {
      if BlockSize(minorder) >= minsize {
        return;
      }
      minorder := minorder + 1;
    }
  }

  /** _calc_slab_size: the order with the least waste among the candidates, the smallest such order,
      with room for at least one object. None is the panic: no block is large enough. Sizes from
      2^31 on turn negative in the comparison, so that a block for no object at all is chosen. */
  method CalcSlabSize(objsize: nat) returns (r: Option<(nat, nat)>)
    requires objsize + BUFCTL + SLAB < 0x1_0000_0000
    ensures r.None? <==> BlockSize(PAGE_NSIZES - 1) < objsize + BUFCTL + SLAB < 0x8000_0000
    ensures r.Some? ==> r.value.1 == SlabNobjs(objsize, r.value.0)
    ensures r.Some? ==> (r.value.1 >= 1 <==> objsize + BUFCTL + SLAB < 0x8000_0000)
    ensures r.Some? && r.value.1 >= 1 ==>
      && Candidate(objsize, r.value.0)
      && forall o: nat :: Candidate(objsize, o) ==>
           SlabWaste(objsize, r.value.0) <= SlabWaste(objsize, o)
           && (o < r.value.0 ==> SlabWaste(objsize, r.value.0) < SlabWaste(objsize, o))
  {
    var minsize := Signed(SlabSize(objsize, 1));
    var minorder := MinOrder(minsize);
    LeastOrder(objsize, minorder, minsize);
    if minorder == PAGE_NSIZES {
      return None;
    }
    var best, bestWaste := minorder, SlabWaste(objsize, minorder);
    var order := minorder + 1;
    while order < SLAB_MAX_ORDER
      invariant minorder <= best < PAGE_NSIZES && minorder < order && (best < order) &&
        bestWaste == SlabWaste(objsize, best)
      invariant best == minorder || best < SLAB_MAX_ORDER
      invariant forall o: nat :: minorder <= o < order ==> SlabWaste(objsize, best) <= SlabWaste(objsize, o)
      invariant forall o: nat :: minorder <= o < best ==> SlabWaste(objsize, best) < SlabWaste(objsize, o)
    {
      var waste := SlabWaste(objsize, order);
      if waste < bestWaste {
        bestWaste, best := waste, order;
      }
      order := order + 1;
    }
    Chosen(objsize, minorder, minsize, best);
    return Some((best, SlabNobjs(objsize, best)));
  }

  /** Objects of 2^31 bytes: the smallest block passes for large enough, and no block holds an object. */
  lemma NoObjects(order: nat)
    requires order < PAGE_NSIZES
    ensures Signed(SlabSize(0x8000_0000, 1)) <= BlockSize(0) && SlabNobjs(0x8000_0000, order) == 0
  {
    ShlGrows(PAGE_SIZE, order, PAGE_NSIZES - 1);
    assert Shl(4096, 7) == Shl(8192, 6) == Shl(16384, 5) == Shl(32768, 4) == Shl(65536, 3) == Shl(131072, 2);
  }

  lemma LeastOrder(objsize: nat, minorder: nat, minsize: int)
    requires objsize + BUFCTL + SLAB < 0x1_0000_0000 && minsize == Signed(SlabSize(objsize, 1))
    requires minorder <= PAGE_NSIZES && (minorder < PAGE_NSIZES ==> BlockSize(minorder) >= minsize)
    requires forall o: nat :: o < minorder ==> BlockSize(o) < minsize
    ensures minorder == PAGE_NSIZES <==> BlockSize(PAGE_NSIZES - 1) < objsize + BUFCTL + SLAB < 0x8000_0000
    ensures minsize < 0 ==> minorder == 0
  {
    if minorder < PAGE_NSIZES { ShlGrows(PAGE_SIZE, minorder, PAGE_NSIZES - 1); }
    assert minsize < 0 ==> BlockSize(0) >= minsize;
  }

  lemma LargestBlock()
    ensures BlockSize(PAGE_NSIZES - 1) == 0x8_0000
  {
    assert Shl(4096, 7) == Shl(8192, 6) == Shl(16384, 5) == Shl(32768, 4) == Shl(65536, 3) == Shl(131072, 2) ==
      Shl(262144, 1);
  }

  lemma ChosenRoom(objsize: nat, minorder: nat, minsize: int, best: nat)
    requires objsize + BUFCTL + SLAB < 0x1_0000_0000 && minsize == Signed(SlabSize(objsize, 1))
    requires minorder <= best < PAGE_NSIZES && BlockSize(minorder) >= minsize
    ensures SlabNobjs(objsize, best) >= 1 <==> minsize >= 0
    ensures minsize >= 0 ==> Fits(objsize, best)
  {
    NobjsFits(objsize, best);
    assert SlabSize(objsize, 1) == Stride(objsize) + SLAB;
    if minsize >= 0 {
      FitsMono(objsize, minorder, best);
    } else {
      ShlGrows(PAGE_SIZE, best, PAGE_NSIZES - 1);
      LargestBlock();
      assert !Fits(objsize, best);
    }
  }

  lemma Chosen(objsize: nat, minorder: nat, minsize: int, best: nat)
    requires objsize + BUFCTL + SLAB < 0x1_0000_0000 && minsize == Signed(SlabSize(objsize, 1))
    requires minorder <= best < PAGE_NSIZES && BlockSize(minorder) >= minsize
    requires forall o: nat :: o < minorder ==> BlockSize(o) < minsize
    requires best == minorder || best < SLAB_MAX_ORDER
    ensures SlabNobjs(objsize, best) >= 1 <==> minsize >= 0
    ensures minsize >= 0 ==> Candidate(objsize, best)
    ensures minsize >= 0 ==> forall o: nat :: Candidate(objsize, o) ==>
      minorder <= o && (o == minorder || o < SLAB_MAX_ORDER)
  {
    ChosenRoom(objsize, minorder, minsize, best);
    if minsize >= 0 {
      assert Fits(objsize, minorder);
      assert forall o: nat :: o < minorder ==> !Fits(objsize, o);
    }
  }

  // ---- The slots of a slab ----

  /** The addresses of n objects from `base` on, and the address behind the last. */
  function Slots(base: nat, stride: nat, n: nat): (s: seq<nat>)
    ensures |s| == n
    decreases n
  {
    if n == 0 then [] else [base] + Slots(base + stride, stride, n - 1)
  }

  function End(base: nat, stride: nat, n: nat): (e: nat)
    ensures e >= base
    decreases n
  {
    if n == 0 then base else End(base + stride, stride, n - 1)
  }

  lemma {:induction false} EndIs(base: nat, stride: nat, n: nat)
    ensures End(base, stride, n) == base + n * stride
    decreases n
  {
    if n > 0 { EndIs(base + stride, stride, n - 1); }
  }

  /** The slots lie between base and end, each a stride long, and do not overlap. */
  lemma {:induction false} SlotsSpread(base: nat, stride: nat, n: nat)
    requires stride > 0
    ensures forall x <- Slots(base, stride, n) :: base <= x && x + stride <= End(base, stride, n)
    ensures forall x <- Slots(base, stride, n), y <- Slots(base, stride, n) :: x < y ==> x + stride <= y
    ensures Distinct(Slots(base, stride, n))
    decreases n
  {
    if n > 0 {
      SlotsSpread(base + stride, stride, n - 1);
      var s, t := Slots(base, stride, n), Slots(base + stride, stride, n - 1);
      assert base !in t;
      DistinctAdd(t, base);
    }
  }

  /** A slab of the computed size fits its block with its descriptor. */
  lemma SlabInBlock(base: nat, objsize: nat, order: nat)
    ensures End(base, Stride(objsize), SlabNobjs(objsize, order)) + SLAB <= base + BlockSize(order)
  {
    NobjsFits(objsize, order);
    EndIs(base, Stride(objsize), SlabNobjs(objsize, order));
  }
}
