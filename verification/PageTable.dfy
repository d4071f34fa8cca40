/** pagetable.c: the two-level page table of a process, against one flat map from pages to entries.
    Virtual addresses are counted in pages. */
module PageTables {
  import opened Basics
  import opened Lists

  const ENTRIES: nat := 1024                // PT_ENTRY_COUNT
  const USER_LOW: nat := 0x400              // USER_MEM_LOW in pages
  const USER_HIGH: nat := 0xc0000           // USER_MEM_HIGH in pages

  /** The directory, with the address of each present table, and the tables by address. An entry is a
      physical address with its flags; 0 maps nothing. */
  datatype Paging = Paging(dir: seq<Option<nat>>, table: map<nat, seq<nat>>)

  ghost predicate PagingOk(p: Paging) {
    && |p.dir| == ENTRIES
    && (forall i :: 0 <= i < ENTRIES && p.dir[i].Some? ==>
      p.dir[i].value in p.table && |p.table[p.dir[i].value]| == ENTRIES)
    && (forall i, j :: 0 <= i < j < ENTRIES && p.dir[i].Some? ==> p.dir[i] != p.dir[j])
  }

  /** The flat map: the entry of page v. */
  ghost function At(p: Paging, v: nat): nat
    requires PagingOk(p) && v < ENTRIES * ENTRIES
  {
    match p.dir[v / ENTRIES]
    case None => 0
    case Some(a) => p.table[a][v % ENTRIES]
  }

  /** p with the pages of `gone` unmapped. */
  ghost predicate Unmapped(p: Paging, p': Paging, gone: nat -> bool) {
    PagingOk(p) && PagingOk(p') &&
    forall v :: 0 <= v < ENTRIES * ENTRIES ==> At(p', v) == if gone(v) then 0 else At(p, v)
  }

  function With(t: seq<nat>, i: nat, entry: nat): (r: seq<nat>)
    requires i < |t|
    ensures |r| == |t| && forall j :: 0 <= j < |t| ==> r[j] == if j == i then entry else t[j]
  {
    t[..i] + [entry] + t[i + 1..]
  }

  function SetEntry(p: Paging, a: nat, i: nat, entry: nat): Paging
    requires a in p.table && i < |p.table[a]|
  {
    p.(table := p.table[a := With(p.table[a], i, entry)])
  }

  lemma SetEntryFlat(p: Paging, v: nat, entry: nat)
    requires PagingOk(p) && v < ENTRIES * ENTRIES && p.dir[v / ENTRIES].Some?
    ensures var a := p.dir[v / ENTRIES].value;
      && PagingOk(SetEntry(p, a, v % ENTRIES, entry))
      && forall w :: 0 <= w < ENTRIES * ENTRIES ==>
           At(SetEntry(p, a, v % ENTRIES, entry), w) == if w == v then entry else At(p, w)
  {
    var p' := SetEntry(p, p.dir[v / ENTRIES].value, v % ENTRIES, entry);
    forall w | 0 <= w < ENTRIES * ENTRIES ensures At(p', w) == if w == v then entry else At(p, w) {
      if w / ENTRIES == v / ENTRIES && w % ENTRIES == v % ENTRIES { assert w == v; }
    }
  }

  /** A new empty table changes no page. */
  lemma NewTableFlat(p: Paging, i: nat, a: nat)
    requires PagingOk(p) && i < ENTRIES && p.dir[i].None? && a !in p.table
    ensures var p' := Paging(p.dir[i := Some(a)], p.table[a := seq(ENTRIES, _ => 0)]);
      PagingOk(p') && forall v :: 0 <= v < ENTRIES * ENTRIES ==> At(p', v) == At(p, v)
  {
  }

  /** memset on the entries from `lo` up to `hi` of a table */
  function Cleared(t: seq<nat>, lo: nat, hi: nat): (r: seq<nat>)
    requires lo <= hi <= |t|
    ensures |r| == |t| && forall i :: 0 <= i < |t| ==> r[i] == if lo <= i < hi then 0 else t[i]
  {
    t[..lo] + seq(hi - lo, _ => 0) + t[hi..]
  }

  /** Page v is entry lo to hi of table i. */
  predicate InTable(v: nat, i: nat, lo: nat, hi: nat) {
    v / ENTRIES == i && lo <= v % ENTRIES < hi
  }

  /** The partial tables at the ends of a range: cleared if present, and nothing to clear if not. */
  function ClearIn(p: Paging, i: nat, lo: nat, hi: nat): Paging
    requires i < |p.dir| && lo <= hi <= ENTRIES
  {
    match p.dir[i]
    case None => p
    case Some(a) => if a in p.table && |p.table[a]| == ENTRIES
      then p.(table := p.table[a := Cleared(p.table[a], lo, hi)]) else p
  }

  lemma ClearInFlat(p: Paging, i: nat, lo: nat, hi: nat)
    requires PagingOk(p) && i < ENTRIES && lo <= hi <= ENTRIES
    ensures Unmapped(p, ClearIn(p, i, lo, hi), (v: nat) => InTable(v, i, lo, hi))
  {
  }

  /** The whole tables in between go. */
  function DropTable(p: Paging, i: nat): Paging
    requires i < |p.dir|
  {
    match p.dir[i]
    case None => p
    case Some(a) => Paging(p.dir[i := None], p.table - {a})
  }

  lemma DropTableFlat(p: Paging, i: nat)
    requires PagingOk(p) && i < ENTRIES
    ensures Unmapped(p, DropTable(p, i), (v: nat) => v / ENTRIES == i)
  {
  }

  lemma UnmappedTwice(p: Paging, q: Paging, r: Paging, g: nat -> bool, h: nat -> bool, all: nat -> bool)
    requires Unmapped(p, q, g) && Unmapped(q, r, h) && forall v :: 0 <= v < ENTRIES * ENTRIES ==>
      (all(v) <==> g(v) || h(v))
    ensures Unmapped(p, r, all)
  {
  }

  /** The pages pt_unmap_range unmaps: from `low` to the end of its table unless that table starts
      there, from the start of the table of `high` up to it, and the tables in between. */
  predicate Hit(low: nat, high: nat, v: nat) {
    || (low % ENTRIES != 0 && InTable(v, low / ENTRIES, low % ENTRIES, ENTRIES))
    || InTable(v, high / ENTRIES, 0, high % ENTRIES)
    || (low + ENTRIES - 1) / ENTRIES <= v / ENTRIES < high / ENTRIES
  }

  /** That is the range and, if both ends lie in one table and the lower is past its start, the rest of
      that table. */
  lemma HitMeans(low: nat, high: nat, v: nat)
    requires low < high
    ensures Hit(low, high, v) <==>
      low <= v < high || (low / ENTRIES == high / ENTRIES == v / ENTRIES && low % ENTRIES != 0)
  {
  }

  /** So it unmaps exactly the range if and only if both ends lie in different tables, or the lower is
      at the start of its table, or nothing else was mapped in that table. */
  lemma ExactIff(p: Paging, p': Paging, low: nat, high: nat)
    requires low < high <= USER_HIGH && Unmapped(p, p', (v: nat) => Hit(low, high, v))
    ensures Unmapped(p, p', (v: nat) => low <= v < high) <==>
      || low / ENTRIES != high / ENTRIES || low % ENTRIES == 0
      || forall v: nat :: v / ENTRIES == low / ENTRIES && !(low <= v < high) ==> At(p, v) == 0
  {
    forall v: nat | v < ENTRIES * ENTRIES ensures At(p', v) == if Hit(low, high, v) then 0 else At(p, v) { }
    forall v: nat
      ensures Hit(low, high, v) <==>
        low <= v < high || (low / ENTRIES == high / ENTRIES == v / ENTRIES && low % ENTRIES != 0)
    {
      HitMeans(low, high, v);
    }
    if Unmapped(p, p', (v: nat) => low <= v < high) && low / ENTRIES == high / ENTRIES && low % ENTRIES != 0 {
      forall v: nat | v / ENTRIES == low / ENTRIES && !(low <= v < high) ensures At(p, v) == 0 {
        assert Hit(low, high, v);
      }
    }
  }

  /** Unmapping the second page of a table takes the first one along. */
  lemma TooMuch(p: Paging, p': Paging)
    requires Unmapped(p, p', (v: nat) => Hit(USER_LOW + 1, USER_LOW + 2, v)) && At(p, USER_LOW) != 0
    ensures At(p', USER_LOW) == 0
  {
    assert Hit(USER_LOW + 1, USER_LOW + 2, USER_LOW);
  }

  /** The tables a range covers completely. */
  function Whole(dir: seq<Option<nat>>, i: nat, j: nat): seq<nat>
    requires j <= |dir|
    decreases j
  {
    if i >= j then []
    else Whole(dir, i, j - 1) + (match dir[j - 1] case None => [] case Some(a) => [a])
  }

  /** These are the present tables between i and j, each once. */
  lemma {:induction false} WholeMeans(dir: seq<Option<nat>>, i: nat, j: nat)
    requires j <= |dir| && forall m, n :: 0 <= m < n < |dir| && dir[m].Some? ==> dir[m] != dir[n]
    ensures forall a: nat :: a in Whole(dir, i, j) <==> Held(dir, i, j, a)
    ensures Distinct(Whole(dir, i, j))
    decreases j
  {
    forall a: nat ensures a in Whole(dir, i, j) <==> Held(dir, i, j, a) {
      WholeMember(dir, i, j, a);
    }
    if i < j {
      WholeMeans(dir, i, j - 1);
      if dir[j - 1].Some? {
        WholeMember(dir, i, j - 1, dir[j - 1].value);
        DistinctAdd(Whole(dir, i, j - 1), dir[j - 1].value);
      }
    }
  }

  /** One of these entries is table a. */
  ghost predicate Held(dir: seq<Option<nat>>, i: nat, j: nat, a: nat)
    requires j <= |dir|
  {
    exists k :: i <= k < j && dir[k] == Some(a)
  }

  lemma {:induction false} WholeMember(dir: seq<Option<nat>>, i: nat, j: nat, a: nat)
    requires j <= |dir|
    ensures a in Whole(dir, i, j) <==> Held(dir, i, j, a)
    decreases j
  {
    if i < j {
      WholeMember(dir, i, j - 1, a);
      HeldNext(dir, i, j, a);
    }
  }

  lemma HeldNext(dir: seq<Option<nat>>, i: nat, j: nat, a: nat)
    requires i < j <= |dir|
    ensures Held(dir, i, j, a) <==> Held(dir, i, j - 1, a) || dir[j - 1] == Some(a)
  {
    if Held(dir, i, j - 1, a) {
      var k :| i <= k < j - 1 && dir[k] == Some(a);
      assert i <= k < j && dir[k] == Some(a);
    }
  }

  const FIRST_TABLE: nat := USER_LOW / ENTRIES
  const LAST_TABLE: nat := (USER_HIGH - 1) / ENTRIES

  ghost predicate Owned(dir: seq<Option<nat>>, a: nat) {
    exists i :: FIRST_TABLE <= i <= LAST_TABLE && i < |dir| && dir[i] == Some(a)
  }

  /** Besides the tables of the kernel, the directory holds every table, in the user part. */
  ghost predicate Accounted(p: Paging, kernel: set<nat>) {
    && (forall a :: a in p.table ==> a in kernel || Owned(p.dir, a))
    && (forall a :: a in kernel ==> !Owned(p.dir, a) && a in p.table)
  }

  lemma NewTableAccounted(p: Paging, kernel: set<nat>, i: nat, a: nat)
    requires PagingOk(p) && Accounted(p, kernel) && FIRST_TABLE <= i <= LAST_TABLE && p.dir[i].None? && a !in p.table
    ensures Accounted(Paging(p.dir[i := Some(a)], p.table[a := seq(ENTRIES, _ => 0)]), kernel)
  {
    var dir' := p.dir[i := Some(a)];
    assert dir'[i] == Some(a);
    forall b: nat ensures Owned(dir', b) <==> Owned(p.dir, b) || b == a {
      if Owned(p.dir, b) {
        var k :| FIRST_TABLE <= k <= LAST_TABLE && k < |p.dir| && p.dir[k] == Some(b);
        assert dir'[k] == Some(b);
      }
    }
  }

  lemma DropTableAccounted(p: Paging, kernel: set<nat>, i: nat)
    requires PagingOk(p) && Accounted(p, kernel) && FIRST_TABLE <= i <= LAST_TABLE
    ensures Accounted(DropTable(p, i), kernel)
  {
    if p.dir[i].Some? {
      var dir', a := p.dir[i := None], p.dir[i].value;
      assert Owned(p.dir, a);
      forall b: nat ensures Owned(dir', b) <==> Owned(p.dir, b) && b != a {
        if Owned(p.dir, b) && b != a {
          var k :| FIRST_TABLE <= k <= LAST_TABLE && k < |p.dir| && p.dir[k] == Some(b);
          assert dir'[k] == Some(b);
        }
      }
    }
  }

  lemma SameAccounted(p: Paging, kernel: set<nat>, a: nat, t: seq<nat>)
    requires Accounted(p, kernel) && a in p.table
    ensures Accounted(p.(table := p.table[a := t]), kernel)
  {
  }

  class PageDirectory {
    const dir: array<Option<nat>>       // pd_physical and pd_virtual
    var table: map<nat, seq<nat>>
    ghost var freed: seq<nat>           // the calls of page_free
    ghost const kernel: set<nat>        // the tables of the template

    ghost predicate Valid()
      reads this, dir
    {
      dir.Length == ENTRIES && PagingOk(View()) && Accounted(View(), kernel)
    }

    ghost function View(): Paging
      reads this, dir
    {
      Paging(dir[..], table)
    }

    /** pt_create_pagedir: a copy of the template, which maps nothing for the user */
    constructor (template: Paging)
      requires PagingOk(template) && forall i :: FIRST_TABLE <= i <= LAST_TABLE ==> template.dir[i].None?
      ensures Valid() && fresh(dir) && View() == template && freed == [] && kernel == template.table.Keys
    {
      dir := new Option<nat>[ENTRIES](i requires 0 <= i < ENTRIES => template.dir[i]);
      table, freed := template.table, [];
      kernel := template.table.Keys;
      new;
      assert dir[..] == template.dir;
    }

    /** pt_map; `page` is the answer of page_alloc. False is -ENOMEM: the table is missing and there is
        no memory for one, and nothing has changed. The directory flags must say that the table is
        present. */
    method Map(v: nat, entry: nat, page: Option<nat>) returns (ok: bool)
      requires Valid() && USER_LOW <= v < USER_HIGH && (page.Some? ==> page.value !in table)
      modifies this`table, dir
      ensures Valid()
      ensures ok <==> old(dir[v / ENTRIES]).Some? || page.Some?
      ensures forall w: nat :: w < ENTRIES * ENTRIES ==>
        At(View(), w) == if ok && w == v then entry else old(At(View(), w))
      ensures !ok ==> View() == old(View())
    {
      var index := v / ENTRIES;
      if dir[index].None? {
        if page.None? {
          return false;
        }
        NewTableFlat(View(), index, page.value);
        NewTableAccounted(View(), kernel, index, page.value);
        dir[index] := page;
        table := table[page.value := seq(ENTRIES, _ => 0)];
        assert View().dir == old(View()).dir[index := page];
      }
      SetEntryFlat(View(), v, entry);
      var a := dir[index].value;
      SameAccounted(View(), kernel, a, With(table[a], v % ENTRIES, entry));
      table := table[a := With(table[a], v % ENTRIES, entry)];
      return true;
    }

    /** pt_unmap */
    method Unmap(v: nat)
      requires Valid() && USER_LOW <= v < USER_HIGH
      modifies this`table
      ensures Valid() && Unmapped(old(View()), View(), (w: nat) => w == v)
    {
      if dir[v / ENTRIES].Some? {
        SetEntryFlat(View(), v, 0);
        var a := dir[v / ENTRIES].value;
        SameAccounted(View(), kernel, a, With(table[a], v % ENTRIES, 0));
        table := table[a := With(table[a], v % ENTRIES, 0)];
      }
    }

    /** The memset on one table of pt_unmap_range */
    method ClearPart(i: nat, lo: nat, hi: nat)
      requires Valid() && i < ENTRIES && lo <= hi <= ENTRIES
      modifies this`table
      ensures Valid() && Unmapped(old(View()), View(), (v: nat) => InTable(v, i, lo, hi))
    {
      ClearInFlat(View(), i, lo, hi);
      if dir[i].Some? {
        var a := dir[i].value;
        SameAccounted(View(), kernel, a, Cleared(table[a], lo, hi));
        table := table[a := Cleared(table[a], lo, hi)];
      }
    }

    /** One turn of the loop of pt_unmap_range over whole tables */
    method FreeTable(i: nat)
      requires Valid() && FIRST_TABLE <= i <= LAST_TABLE
      modifies this`table, this`freed, dir
      ensures Valid() && View() == DropTable(old(View()), i) &&
        Unmapped(old(View()), View(), (v: nat) => v / ENTRIES == i)
      ensures freed == old(freed) + match old(dir[i]) case None => [] case Some(a) => [a]
    {
      DropTableFlat(View(), i);
      DropTableAccounted(View(), kernel, i);
      if dir[i].Some? {
        var a := dir[i].value;
        freed := freed + [a];
        table := table - {a};
        dir[i] := None;
        assert View().dir == old(View()).dir[i := None];
      }
    }

    /** The loop: each table that is present is freed, once */
    method FreeTables(first: nat, last: nat)
      requires Valid() && FIRST_TABLE <= first <= last <= LAST_TABLE + 1
      modifies this`table, this`freed, dir
      ensures Valid() && Unmapped(old(View()), View(), (v: nat) => first <= v / ENTRIES < last)
      ensures freed == old(freed) + Whole(old(dir[..]), first, last)
    {
      for i := first to last
        invariant Valid() && Unmapped(old(View()), View(), (v: nat) => first <= v / ENTRIES < i)
        invariant freed == old(freed) + Whole(old(dir[..]), first, i)
        invariant forall j :: i <= j < ENTRIES ==> dir[j] == old(dir[j])
      {
        ghost var before := View();
        FreeTable(i);
        UnmappedTwice(old(View()), before, View(), (v: nat) => first <= v / ENTRIES < i, (v: nat) => v / ENTRIES == i,
                      (v: nat) => first <= v / ENTRIES < i + 1);
      }
    }

    /** The two memsets of pt_unmap_range */
    method ClearEnds(low: nat, high: nat) returns (ghost between: Paging)
      requires Valid() && low < high <= USER_HIGH
      modifies this`table
      ensures Valid() && PagingOk(between)
      ensures if low % ENTRIES != 0
              then Unmapped(old(View()), between, (v: nat) => InTable(v, low / ENTRIES, low % ENTRIES, ENTRIES))
              else between == old(View())
      ensures if high % ENTRIES != 0
              then Unmapped(between, View(), (v: nat) => InTable(v, high / ENTRIES, 0, high % ENTRIES))
              else View() == between
    {
      var index := low % ENTRIES;
      if index != 0 {
        ClearPart(low / ENTRIES, index, ENTRIES);
      }
      between := View();
      index := high % ENTRIES;
      if index != 0 {
        ClearPart(high / ENTRIES, 0, index);
      }
    }

    /** pt_unmap_range */
    method UnmapRange(low: nat, high: nat)
      requires Valid() && USER_LOW <= low < high <= USER_HIGH
      modifies this, dir
      ensures Valid() && Unmapped(old(View()), View(), (v: nat) => Hit(low, high, v))
      ensures freed == old(freed) + Whole(old(dir[..]), (low + ENTRIES - 1) / ENTRIES, high / ENTRIES)
    {
      ghost var p0 := View();
      ghost var p1 := ClearEnds(low, high);
      ghost var p2 := View();
      var low', high' := low + (ENTRIES - low % ENTRIES) % ENTRIES, high - high % ENTRIES;
      Rounded(low, high);
      if low' / ENTRIES <= high' / ENTRIES {
        FreeTables(low' / ENTRIES, high' / ENTRIES);
      }
      RangeParts(p0, p1, p2, View(), low, high);
    }

    /** pt_destroy_pagedir: every table that the directory did not have from the template is freed,
        once; the two pages of the directory itself follow. */
    method Destroy()
      requires Valid()
      modifies this`freed
      ensures freed == old(freed) + Whole(dir[..], FIRST_TABLE, LAST_TABLE + 1)
      ensures forall a :: a in table && a !in kernel <==> a in Whole(dir[..], FIRST_TABLE, LAST_TABLE + 1)
    {
      for i := FIRST_TABLE to LAST_TABLE + 1
        invariant freed == old(freed) + Whole(dir[..], FIRST_TABLE, i)
      {
        if dir[i].Some? {
          freed := freed + [dir[i].value];
        }
      }
      WholeMeans(dir[..], FIRST_TABLE, LAST_TABLE + 1);
      forall a ensures a in table && a !in kernel <==> a in Whole(dir[..], FIRST_TABLE, LAST_TABLE + 1) {
        assert Owned(dir[..], a) <==> Held(dir[..], FIRST_TABLE, LAST_TABLE + 1, a);
      }
    }
  }

  /** Rounding up to the next table, and down. */
  lemma Rounded(low: nat, high: nat)
    ensures (low + (ENTRIES - low % ENTRIES) % ENTRIES) / ENTRIES == (low + ENTRIES - 1) / ENTRIES
    ensures (high - high % ENTRIES) / ENTRIES == high / ENTRIES
  {
  }

  /** The three parts of pt_unmap_range together. */
  lemma RangeParts(p0: Paging, p1: Paging, p2: Paging, p3: Paging, low: nat, high: nat)
    requires low < high && PagingOk(p0) && PagingOk(p1) && PagingOk(p2)
    requires if low % ENTRIES != 0
             then Unmapped(p0, p1, (v: nat) => InTable(v, low / ENTRIES, low % ENTRIES, ENTRIES))
             else p1 == p0
    requires if high % ENTRIES != 0
             then Unmapped(p1, p2, (v: nat) => InTable(v, high / ENTRIES, 0, high % ENTRIES))
             else p2 == p1
    requires if (low + ENTRIES - 1) / ENTRIES <= high / ENTRIES
             then Unmapped(p2, p3, (v: nat) => (low + ENTRIES - 1) / ENTRIES <= v / ENTRIES < high / ENTRIES)
             else p3 == p2
    ensures Unmapped(p0, p3, (v: nat) => Hit(low, high, v))
  {
  }
}
