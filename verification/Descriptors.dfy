/** file.c, open.c and the descriptor calls of vfs_syscall.c: the descriptor table of a process and the
    counts of the open files behind it. */
module Descriptors {
  import opened Basics

  datatype Errno = EBADF | EMFILE | EINVAL | EISDIR | ENOTDIR | Other(code: nat)

  datatype Result<T> = Ok(value: T) | Err(error: Errno)

  const NFILES: nat := 32

  /** An open file: reference count, vnode once it is opened, and position. */
  datatype File = File(refcount: int, vnode: Option<nat>, pos: int)

  /** p_files, the open files by address, and the vnode references they hold. */
  datatype Files = Files(table: seq<Option<nat>>, file: map<nat, File>, vrefs: multiset<nat>)

  /** How many slots point to file f. */
  function Slots(table: seq<Option<nat>>, f: nat): nat {
    if table == [] then 0 else (if table[0] == Some(f) then 1 else 0) + Slots(table[1..], f)
  }

  lemma {:induction false} SlotsSet(table: seq<Option<nat>>, i: nat, x: Option<nat>, f: nat)
    requires i < |table|
    ensures Slots(table[i := x], f) ==
      Slots(table, f) - (if table[i] == Some(f) then 1 else 0) + (if x == Some(f) then 1 else 0)
  {
    if i > 0 {
      SlotsSet(table[1..], i - 1, x, f);
      assert table[i := x][1..] == table[1..][i - 1 := x];
    } else {
      assert table[i := x][1..] == table[1..];
    }
  }

  lemma {:induction false} SlotsIn(table: seq<Option<nat>>, i: nat, f: nat)
    requires i < |table| && table[i] == Some(f)
    ensures Slots(table, f) > 0
  {
    if i > 0 { SlotsIn(table[1..], i - 1, f); }
  }

  ghost function Holding(file: map<nat, File>, v: nat): set<nat> {
    set f | f in file && file[f].vnode == Some(v)
  }

  /** Every file in a slot exists. */
  ghost predicate TableOk(s: Files) {
    |s.table| == NFILES && forall i :: 0 <= i < NFILES && s.table[i].Some? ==> s.table[i].value in s.file
  }

  /** Every file is counted by its slots and `extra` references in flight; it is open. */
  ghost predicate FileOk(s: Files, f: nat, extra: multiset<nat>) {
    f in s.file ==>
      s.file[f].refcount == Slots(s.table, f) + extra[f] && s.file[f].refcount > 0 && s.file[f].vnode.Some?
  }

  /** Each vnode has one reference for each file open on it. */
  ghost predicate VnodeOk(s: Files, v: nat) {
    s.vrefs[v] == |Holding(s.file, v)|
  }

  ghost predicate Counted(s: Files, extra: multiset<nat>) {
    && TableOk(s)
    && (forall f {:trigger FileOk(s, f, extra)} :: FileOk(s, f, extra))
    && (forall v {:trigger VnodeOk(s, v)} :: VnodeOk(s, v))
  }

  /** Between calls no reference is in flight. */
  ghost predicate FilesOk(s: Files) {
    Counted(s, multiset{})
  }

  // ---- fref and fput ----

  function Fref(s: Files, f: nat): Files
    requires f in s.file
  {
    s.(file := s.file[f := s.file[f].(refcount := s.file[f].refcount + 1)])
  }

  /** The last reference takes the file with it, and the file its vnode reference. */
  function Fput(s: Files, f: nat): Files
    requires f in s.file
  {
    var x := s.file[f];
    if x.refcount > 1 then s.(file := s.file[f := x.(refcount := x.refcount - 1)])
    else Files(s.table, s.file - {f}, match x.vnode case None => s.vrefs case Some(v) => s.vrefs - multiset{v})
  }

  function SetSlot(s: Files, fd: nat, x: Option<nat>): Files
    requires fd < |s.table|
  {
    s.(table := s.table[fd := x])
  }

  lemma SameHolding(s: Files, f: nat, x: File)
    requires f in s.file && x.vnode == s.file[f].vnode && forall v {:trigger VnodeOk(s, v)} :: VnodeOk(s, v)
    ensures forall v {:trigger VnodeOk(s.(file := s.file[f := x]), v)} :: VnodeOk(s.(file := s.file[f := x]), v)
  {
    var s' := s.(file := s.file[f := x]);
    forall v ensures VnodeOk(s', v) {
      assert VnodeOk(s, v);
      assert Holding(s'.file, v) == Holding(s.file, v);
    }
  }

  /** fref takes one reference into flight. */
  lemma FrefCounts(s: Files, f: nat, extra: multiset<nat>)
    requires Counted(s, extra) && f in s.file
    ensures Counted(Fref(s, f), extra + multiset{f})
  {
    var s' := Fref(s, f);
    SameHolding(s, f, s'.file[f]);
    forall g ensures FileOk(s', g, extra + multiset{f}) {
      assert FileOk(s, g, extra);
    }
  }

  /** fput gives one back; the file goes exactly with its last reference. */
  lemma FputCounts(s: Files, f: nat, extra: multiset<nat>)
    requires Counted(s, extra + multiset{f}) && f in s.file
    ensures Counted(Fput(s, f), extra)
    ensures f !in Fput(s, f).file <==> Slots(s.table, f) == 0 && extra[f] == 0
  {
    assert FileOk(s, f, extra + multiset{f});
    if s.file[f].refcount > 1 {
      FputStays(s, f, extra);
    } else {
      FputFrees(s, f, extra);
    }
  }

  lemma FputStays(s: Files, f: nat, extra: multiset<nat>)
    requires Counted(s, extra + multiset{f}) && f in s.file && s.file[f].refcount > 1
    ensures Counted(Fput(s, f), extra)
  {
    var s' := Fput(s, f);
    SameHolding(s, f, s'.file[f]);
    forall g ensures FileOk(s', g, extra) {
      assert FileOk(s, g, extra + multiset{f});
    }
  }

  lemma FputFrees(s: Files, f: nat, extra: multiset<nat>)
    requires Counted(s, extra + multiset{f}) && f in s.file && s.file[f].refcount <= 1
    ensures Counted(Fput(s, f), extra)
  {
    var s', v := Fput(s, f), s.file[f].vnode;
    assert FileOk(s, f, extra + multiset{f});
    forall g ensures FileOk(s', g, extra) {
      assert FileOk(s, g, extra + multiset{f});
    }
    forall i | 0 <= i < NFILES && s'.table[i].Some? ensures s'.table[i].value in s'.file {
      if s.table[i] == Some(f) { SlotsIn(s.table, i, f); }
    }
    forall w ensures VnodeOk(s', w) {
      assert VnodeOk(s, w);
      assert Holding(s'.file, w) == Holding(s.file, w) - {f};
      assert w == v.value ==> f in Holding(s.file, w);
    }
  }

  /** A reference in flight put into an empty slot; a slot emptied into flight. */
  lemma FillCounts(s: Files, fd: nat, f: nat, extra: multiset<nat>)
    requires Counted(s, extra + multiset{f}) && fd < NFILES && s.table[fd].None? && f in s.file
    ensures Counted(SetSlot(s, fd, Some(f)), extra)
  {
    var s' := SetSlot(s, fd, Some(f));
    forall g ensures FileOk(s', g, extra) {
      assert FileOk(s, g, extra + multiset{f});
      SlotsSet(s.table, fd, Some(f), g);
    }
    forall v ensures VnodeOk(s', v) {
      assert VnodeOk(s, v);
    }
  }

  lemma EmptyCounts(s: Files, fd: nat, f: nat, extra: multiset<nat>)
    requires Counted(s, extra) && fd < NFILES && s.table[fd] == Some(f)
    ensures Counted(SetSlot(s, fd, None), extra + multiset{f})
  {
    var s' := SetSlot(s, fd, None);
    forall g ensures FileOk(s', g, extra + multiset{f}) {
      assert FileOk(s, g, extra);
      SlotsSet(s.table, fd, None, g);
    }
    forall v ensures VnodeOk(s', v) {
      assert VnodeOk(s, v);
    }
  }

  lemma FputFref(s: Files, f: nat, x: File)
    requires f in s.file && s.file[f].refcount > 0 && x == s.file[f].(pos := x.pos)
    ensures var s1 := Fref(s, f);
      Fput(s1.(file := s1.file[f := s1.file[f].(pos := x.pos)]), f) == s.(file := s.file[f := x])
  {
    var s1 := Fref(s, f);
    var s2 := s1.(file := s1.file[f := s1.file[f].(pos := x.pos)]);
    assert Fput(s2, f).file == s.file[f := x];
  }

  lemma FputFrefSame(s: Files, f: nat)
    requires f in s.file && s.file[f].refcount > 0
    ensures Fput(Fref(s, f), f) == s
  {
    assert Fput(Fref(s, f), f).file == s.file;
  }

  /** The file behind a slot. */
  function Behind(s: Files, fd: int): Option<nat> {
    if 0 <= fd < |s.table| then s.table[fd] else None
  }

  lemma BehindCounted(s: Files, fd: int)
    requires FilesOk(s) && Behind(s, fd).Some?
    ensures 0 <= fd < NFILES && Behind(s, fd).value in s.file && s.file[Behind(s, fd).value].refcount > 0
  {
    assert FileOk(s, Behind(s, fd).value, multiset{});
  }

  /** A slot given up: the file goes, with its vnode reference, exactly if no other slot has it. */
  function Closed(s: Files, fd: nat, f: nat): Files
    requires fd < |s.table| && f in s.file
  {
    Fput(SetSlot(s, fd, None), f)
  }

  lemma ClosedCounts(s: Files, fd: nat, f: nat, extra: multiset<nat>)
    requires Counted(s, extra) && fd < NFILES && s.table[fd] == Some(f)
    ensures f in s.file && Counted(Closed(s, fd, f), extra)
    ensures f !in Closed(s, fd, f).file <==> Slots(s.table, f) == 1 && extra[f] == 0
    ensures forall g :: g != f ==>
      (g in Closed(s, fd, f).file <==> g in s.file) && (g in s.file ==> Closed(s, fd, f).file[g] == s.file[g])
  {
    EmptyCounts(s, fd, f, extra);
    FputCounts(SetSlot(s, fd, None), f, extra);
    SlotsSet(s.table, fd, None, f);
  }

  /** A second slot for the file behind the first. */
  function Shared(s: Files, fd: nat, f: nat): Files
    requires fd < |s.table| && f in s.file
  {
    SetSlot(Fref(s, f), fd, Some(f))
  }

  lemma SharedCounts(s: Files, fd: nat, f: nat)
    requires FilesOk(s) && fd < NFILES && s.table[fd].None? && f in s.file
    ensures FilesOk(Shared(s, fd, f))
  {
    FrefCounts(s, f, multiset{});
    FillCounts(Fref(s, f), fd, f, multiset{});
  }

  /** dup2 onto another slot: the file is referenced before the slot's old file is closed. */
  function Redirected(s: Files, fd: nat, f: nat): Files
    requires fd < |s.table| && f in s.file
  {
    var s1 := Fref(s, f);
    var s2 := match s1.table[fd] case Some(g) => (if g in s1.file then Closed(s1, fd, g) else s1) case None => s1;
    if fd < |s2.table| then SetSlot(s2, fd, Some(f)) else s2
  }

  lemma RedirectedCounts(s: Files, fd: nat, f: nat)
    requires FilesOk(s) && fd < NFILES && f in s.file
    ensures FilesOk(Redirected(s, fd, f))
    ensures Redirected(s, fd, f).table == s.table[fd := Some(f)]
  {
    FrefCounts(s, f, multiset{});
    var s1 := Fref(s, f);
    match s1.table[fd]
    case None => FillCounts(s1, fd, f, multiset{});
    case Some(g) =>
      ClosedCounts(s1, fd, g, multiset{} + multiset{f});
      var s2 := Closed(s1, fd, g);
      FillCounts(s2, fd, f, multiset{});
      assert s1.table[fd := None][fd := Some(f)] == s1.table[fd := Some(f)];
  }

  /** A newly opened file. */
  function Opened(s: Files, fd: nat, f: nat, v: nat): Files
    requires fd < |s.table|
  {
    Files(s.table[fd := Some(f)], s.file[f := File(1, Some(v), 0)], s.vrefs + multiset{v})
  }

  lemma OpenedCounts(s: Files, fd: nat, f: nat, v: nat)
    requires FilesOk(s) && fd < NFILES && s.table[fd].None? && f !in s.file
    ensures FilesOk(Opened(s, fd, f, v))
  {
    var s' := Opened(s, fd, f, v);
    NoSlots(s, f);
    assert forall w :: VnodeOk(s, w);
    forall g ensures FileOk(s', g, multiset{}) {
      assert FileOk(s, g, multiset{});
      SlotsSet(s.table, fd, Some(f), g);
    }
    forall w ensures VnodeOk(s', w) {
      OpenedVnode(s, fd, f, v, w);
    }
  }

  lemma OpenedVnode(s: Files, fd: nat, f: nat, v: nat, w: nat)
    requires fd < |s.table| && f !in s.file && VnodeOk(s, w)
    ensures VnodeOk(Opened(s, fd, f, v), w)
  {
    var file' := s.file[f := File(1, Some(v), 0)];
    if w == v {
      assert Holding(file', w) == Holding(s.file, w) + {f};
      assert f !in Holding(s.file, w);
    } else {
      assert Holding(file', w) == Holding(s.file, w);
    }
  }

  lemma NoSlots(s: Files, f: nat)
    requires TableOk(s) && f !in s.file
    ensures Slots(s.table, f) == 0
  {
    NoSlotsIn(s.table, f);
  }

  lemma {:induction false} NoSlotsIn(table: seq<Option<nat>>, f: nat)
    requires forall i :: 0 <= i < |table| ==> table[i] != Some(f)
    ensures Slots(table, f) == 0
  {
    if table != [] { NoSlotsIn(table[1..], f); }
  }

  lemma MovedCounts(s: Files, f: nat, pos: int)
    requires FilesOk(s) && f in s.file
    ensures FilesOk(s.(file := s.file[f := s.file[f].(pos := pos)]))
  {
    var s' := s.(file := s.file[f := s.file[f].(pos := pos)]);
    SameHolding(s, f, s'.file[f]);
    forall g ensures FileOk(s', g, multiset{}) {
      assert FileOk(s, g, multiset{});
    }
  }

  /** The lowest slot that is free. */
  function FirstEmpty(table: seq<Option<nat>>): (r: Option<nat>)
    ensures r.Some? ==> r.value < |table| && table[r.value].None? && forall i :: 0 <= i < r.value ==> table[i].Some?
    ensures r.None? ==> forall i :: 0 <= i < |table| ==> table[i].Some?
  {
    if table == [] then None
    else if table[0].None? then Some(0)
    else match FirstEmpty(table[1..]) case None => None case Some(i) => Some(i + 1)
  }

  datatype Whence = SeekSet | SeekCur | SeekEnd | Invalid

  class DescriptorTable {
    var table: seq<Option<nat>>     // p_files
    var file: map<nat, File>
    var vrefs: multiset<nat>

    ghost function View(): Files
      reads this
    {
      Files(table, file, vrefs)
    }

    constructor ()
      ensures FilesOk(View()) && file == map[] && forall i :: 0 <= i < NFILES ==> table[i].None?
    {
      table, file, vrefs := seq(NFILES, i => None), map[], multiset{};
      new;
      forall v ensures VnodeOk(View(), v) {
        assert Holding(file, v) == {};
      }
      forall f ensures FileOk(View(), f, multiset{}) {
      }
    }

    /** get_empty_fd */
    method GetEmptyFd() returns (fd: Option<nat>)
      requires |table| == NFILES
      ensures fd == FirstEmpty(table)
    {
      for i := 0 to NFILES
        invariant forall j :: 0 <= j < i ==> table[j].Some?
      {
        if table[i].None? {
          return Some(i);
        }
      }
      return None;
    }

    /** fget on a descriptor */
    method Fget(fd: int) returns (r: Option<nat>)
      requires |table| == NFILES && forall i :: 0 <= i < NFILES && table[i].Some? ==> table[i].value in file
      modifies this`file
      ensures r == Behind(old(View()), fd)
      ensures View() == if r.None? then old(View()) else Fref(old(View()), r.value)
    {
      if fd < 0 || fd >= NFILES {
        return None;
      }
      r := table[fd];
      if r.Some? {
        file := file[r.value := file[r.value].(refcount := file[r.value].refcount + 1)];
      }
    }

    /** fput */
    method FputFile(f: nat)
      requires f in file && file[f].refcount > 0
      modifies this`file, this`vrefs
      ensures View() == Fput(old(View()), f)
    {
      file := file[f := file[f].(refcount := file[f].refcount - 1)];
      if file[f].refcount == 0 {
        if file[f].vnode.Some? {
          vrefs := vrefs - multiset{file[f].vnode.value};
        }
        file := file - {f};
        assert file == old(file) - {f};
      }
    }

    /** do_close */
    method Close(fd: int) returns (r: Result<int>)
      requires FilesOk(View())
      modifies this
      ensures FilesOk(View()) && r == if Behind(old(View()), fd).Some? then Ok(0) else Err(EBADF)
      ensures r.Err? ==> View() == old(View())
      ensures r.Ok? ==>
        Behind(old(View()), fd).value in old(file) && View() == Closed(old(View()), fd, Behind(old(View()), fd).value)
    {
      if fd < 0 || fd >= NFILES {
        return Err(EBADF);
      }
      var temp := Fget(fd);
      if temp.None? {
        return Err(EBADF);
      }
      BehindCounted(old(View()), fd);
      FputFrefSame(old(View()), temp.value);
      ClosedCounts(old(View()), fd, temp.value, multiset{});
      FputFile(temp.value);
      table := table[fd := None];
      FputFile(temp.value);
      return Ok(0);
    }

    /** do_dup */
    method Dup(fd: int) returns (r: Result<int>)
      requires FilesOk(View())
      modifies this
      ensures FilesOk(View())
      ensures r == if Behind(old(View()), fd).None? then Err(EBADF)
                   else if FirstEmpty(old(table)).None? then Err(EMFILE)
                   else Ok(FirstEmpty(old(table)).value)
      ensures r.Err? ==> View() == old(View())
      ensures r.Ok? ==>
        && Behind(old(View()), fd).value in old(file) && 0 <= r.value < |old(table)|
        && View() == Shared(old(View()), r.value, Behind(old(View()), fd).value)
    {
      if fd < 0 || fd >= NFILES {
        return Err(EBADF);
      }
      var temp := Fget(fd);
      if temp.None? {
        return Err(EBADF);
      }
      BehindCounted(old(View()), fd);
      var next := GetEmptyFd();
      if next.None? {
        FputFrefSame(old(View()), temp.value);
        FputFile(temp.value);
        return Err(EMFILE);
      }
      SharedCounts(old(View()), next.value, temp.value);
      table := table[next.value := temp];
      return Ok(next.value);
    }

    /** do_dup2 */
    method Dup2(ofd: int, nfd: int) returns (r: Result<int>)
      requires FilesOk(View())
      modifies this
      ensures FilesOk(View())
      ensures r == if Behind(old(View()), ofd).None? || nfd < 0 || nfd >= NFILES then Err(EBADF) else Ok(nfd)
      ensures r.Err? || ofd == nfd ==> View() == old(View())
      ensures r.Ok? && ofd != nfd ==>
        && Behind(old(View()), ofd).value in old(file) && 0 <= nfd < |old(table)|
        && View() == Redirected(old(View()), nfd, Behind(old(View()), ofd).value)
    {
      if ofd < 0 || ofd >= NFILES {
        return Err(EBADF);
      }
      if nfd < 0 || nfd >= NFILES {
        return Err(EBADF);
      }
      var oldf := Fget(ofd);
      if oldf.None? {
        return Err(EBADF);
      }
      BehindCounted(old(View()), ofd);
      if ofd != nfd {
        RedirectedCounts(old(View()), nfd, oldf.value);
        Redirect(nfd, oldf.value, old(View()));
      } else {
        FputFrefSame(old(View()), oldf.value);
        FputFile(oldf.value);
        assert table[nfd := oldf] == table;
        table := table[nfd := oldf];
      }
      return Ok(nfd);
    }

    /** do_dup2 onto another descriptor */
    method Redirect(nfd: nat, f: nat, ghost before: Files)
      requires FilesOk(before) && f in before.file && View() == Fref(before, f) && nfd < NFILES
      modifies this
      ensures nfd < |before.table| && View() == Redirected(before, nfd, f)
    {
      if table[nfd].Some? {
        CloseOther(nfd, f, before);
      }
      table := table[nfd := Some(f)];
    }

    /** do_close as do_dup2 calls it, while it holds a reference to file f */
    method CloseOther(fd: nat, f: nat, ghost before: Files)
      requires FilesOk(before) && f in before.file && View() == Fref(before, f) && fd < NFILES && table[fd].Some?
      modifies this
      ensures old(table[fd].value) in old(file) && View() == Closed(old(View()), fd, old(table[fd].value))
    {
      FrefCounts(before, f, multiset{});
      var g := table[fd].value;
      assert FileOk(View(), g, multiset{} + multiset{f});
      ghost var s := View();
      var temp := Fget(fd);
      FputFrefSame(s, g);
      FputFile(g);
      table := table[fd := None];
      FputFile(g);
    }

    /** do_open, from the descriptor to the vnode: `f` is the memory of the new file, `found` the answer of
        open_namev, `mode` the access bits of the flags */
    method Open(f: nat, found: Result<nat>, mode: nat, isDir: bool) returns (r: Result<int>)
      requires FilesOk(View()) && f !in file && mode < 4
      modifies this
      ensures FilesOk(View())
      ensures r == if FirstEmpty(old(table)).None? then Err(EMFILE) else if found.Err? then Err(found.error)
                   else if mode == 3 then Err(EINVAL) else if mode != 0 && isDir then Err(EISDIR)
                   else Ok(FirstEmpty(old(table)).value)
      ensures r.Err? ==> View() == old(View())
      ensures r.Ok? ==>
        found.Ok? && 0 <= r.value < |old(table)| && View() == Opened(old(View()), r.value, f, found.value)
    {
      var slot := GetEmptyFd();
      if slot.None? {
        return Err(EMFILE);
      }
      var fd := slot.value;
      file := file[f := File(1, None, 0)];
      table := table[fd := Some(f)];
      if found.Err? {
        Discard(fd, f, old(View()));
        return Err(found.error);
      }
      vrefs := vrefs + multiset{found.value};
      if mode == 3 || (mode != 0 && isDir) {
        Reject(fd, f, found.value, old(View()));
        return Err(if mode == 3 then EINVAL else EISDIR);
      }
      OpenedCounts(old(View()), fd, f, found.value);
      file := file[f := file[f].(vnode := Some(found.value))];
      assert View() == Opened(old(View()), fd, f, found.value);
      return Ok(fd);
    }

    /** The same after open_namev, whose reference on the vnode goes back too */
    method Reject(fd: nat, f: nat, v: nat, ghost before: Files)
      requires f !in before.file && fd < |before.table| && before.table[fd].None?
      requires View() == Files(before.table[fd := Some(f)], before.file[f := File(1, None, 0)],
        before.vrefs + multiset{v})
      modifies this
      ensures View() == before
    {
      FputFile(f);
      vrefs := vrefs - multiset{v};
      table := table[fd := None];
    }

    /** A file that could not be opened is put back */
    method Discard(fd: nat, f: nat, ghost before: Files)
      requires f !in before.file && fd < |before.table| && before.table[fd].None?
      requires View() == Files(before.table[fd := Some(f)], before.file[f := File(1, None, 0)], before.vrefs)
      modifies this
      ensures View() == before
    {
      FputFile(f);
      table := table[fd := None];
    }

    /** do_lseek; `len` is the length of the file */
    method Lseek(fd: int, offset: int, whence: Whence, len: int) returns (r: Result<int>)
      requires FilesOk(View())
      modifies this
      ensures FilesOk(View())
      ensures whence.Invalid? ==> r == Err(EINVAL)
      ensures !whence.Invalid? && Behind(old(View()), fd).None? ==> r == Err(EBADF)
      ensures r.Err? ==> View() == old(View())
      ensures !whence.Invalid? && Behind(old(View()), fd).Some? ==>
        && Behind(old(View()), fd).value in old(file)
        && var x := old(file)[Behind(old(View()), fd).value];
          var to := (match whence case SeekCur => x.pos case SeekEnd => len case _ => 0) + offset;
          && r == (if to < 0 then Err(EINVAL) else Ok(to))
          && (to >= 0 ==> View() == old(View()).(file := old(file)[Behind(old(View()), fd).value := x.(pos := to)]))
    {
      if whence.Invalid? {
        return Err(EINVAL);
      }
      if fd < 0 || fd >= NFILES {
        return Err(EBADF);
      }
      var f := Fget(fd);
      if f.None? {
        return Err(EBADF);
      }
      BehindCounted(old(View()), fd);
      var to := (match whence case SeekCur => file[f.value].pos case SeekEnd => len case _ => 0) + offset;
      if to < 0 {
        FputFrefSame(old(View()), f.value);
        FputFile(f.value);
        return Err(EINVAL);
      }
      MovedCounts(old(View()), f.value, to);
      FputFref(old(View()), f.value, old(file)[f.value].(pos := to));
      file := file[f.value := file[f.value].(pos := to)];
      FputFile(f.value);
      return Ok(to);
    }

    /** do_getdent; `bytes` is the answer of readdir */
    method Getdent(fd: int, isDir: bool, bytes: int) returns (r: Result<bool>)
      requires FilesOk(View())
      modifies this
      ensures FilesOk(View())
      ensures r == if Behind(old(View()), fd).None? then Err(EBADF) else if !isDir then Err(ENOTDIR) else Ok(bytes > 0)
      ensures r.Ok? ==>
        && Behind(old(View()), fd).value in old(file)
        && var x := old(file)[Behind(old(View()), fd).value];
          View() == old(View()).(file := old(file)[Behind(old(View()), fd).value :=
            x.(pos := if bytes > 0 then x.pos + bytes else x.pos)])
      ensures r.Err? ==> View() == old(View())
    {
      if fd < 0 || fd >= NFILES {
        return Err(EBADF);
      }
      var f := Fget(fd);
      if f.None? {
        return Err(EBADF);
      }
      BehindCounted(old(View()), fd);
      if !isDir {
        FputFrefSame(old(View()), f.value);
        FputFile(f.value);
        return Err(ENOTDIR);
      }
      var to := if bytes > 0 then file[f.value].pos + bytes else file[f.value].pos;
      MovedCounts(old(View()), f.value, to);
      FputFref(old(View()), f.value, old(file)[f.value].(pos := to));
      file := file[f.value := file[f.value].(pos := to)];
      FputFile(f.value);
      return Ok(bytes > 0);
    }
  }
}
