/** namev.c: walking a path, with the vnode references it takes and gives back. The lookup and create
    operations of the file systems are parameters. */
module PathWalk {
  import opened Basics

  datatype Errno = EINVAL | ENOENT | ENOTDIR | ENAMETOOLONG | Other(code: nat)

  datatype Result<T> = Ok(value: T) | Err(error: Errno)

  const NAME_LEN: nat := 28
  const MAXPATHLEN: nat := 1024

  /** Which vnodes are directories, and what their lookup and create operations answer. */
  datatype Fs = Fs(isDir: nat -> bool, lookup: (nat, string) -> Result<nat>, create: (nat, string) -> Result<nat>)

  /** What lookup answers: an empty name stays where it is. */
  function Lookup(fs: Fs, dir: nat, name: string): Result<nat> {
    if !fs.isDir(dir) then Err(ENOTDIR)
    else if |name| > NAME_LEN then Err(ENAMETOOLONG)
    else if name == "" then Ok(dir)
    else fs.lookup(dir, name)
  }

  // ---- Splitting a path ----

  /** The place of the first slash, or the length. */
  function Slash(s: string): (k: nat)
    ensures k <= |s| && (forall i :: 0 <= i < k ==> s[i] != '/') && (k < |s| ==> s[k] == '/')
  {
    if s == "" || s[0] == '/' then 0 else 1 + Slash(s[1..])
  }

  /** The components before each slash, and the name after the last one. */
  function Parents(s: string): seq<string> {
    if Slash(s) == |s| then [] else [s[..Slash(s)]] + Parents(s[Slash(s) + 1..])
  }

  function Name(s: string): string {
    if Slash(s) == |s| then s else Name(s[Slash(s) + 1..])
  }

  function Join(parents: seq<string>, name: string): string {
    if parents == [] then name else parents[0] + "/" + Join(parents[1..], name)
  }

  ghost predicate NoSlash(s: string) {
    '/' !in s
  }

  /** Parents and name put together again are the path, and they are the only slash-free pieces that are. */
  lemma {:induction false} SplitUnique(parents: seq<string>, name: string)
    requires NoSlash(name) && forall i :: 0 <= i < |parents| ==> NoSlash(parents[i])
    ensures Parents(Join(parents, name)) == parents && Name(Join(parents, name)) == name
  {
    if parents != [] {
      var p, rest := parents[0], Join(parents[1..], name);
      var s := p + "/" + rest;
      SplitUnique(parents[1..], name);
      assert s[|p|] == '/' && forall i :: 0 <= i < |p| ==> s[i] == p[i];
      assert Slash(s) == |p|;
      assert s[..|p|] == p && s[|p| + 1..] == rest;
    }
  }

  lemma {:induction false} JoinSplit(s: string)
    ensures Join(Parents(s), Name(s)) == s && NoSlash(Name(s))
    ensures forall i :: 0 <= i < |Parents(s)| ==> NoSlash(Parents(s)[i])
  {
    var k := Slash(s);
    if k < |s| {
      JoinSplit(s[k + 1..]);
      assert s == s[..k] + "/" + s[k + 1..];
    }
  }

  /** The lookups one after the other, from directory dir. */
  function Walk(fs: Fs, dir: nat, parents: seq<string>): Result<nat>
    decreases |parents|
  {
    if parents == [] then Ok(dir)
    else
      match Lookup(fs, dir, parents[0])
      case Err(e) => Err(e)
      case Ok(v) => Walk(fs, v, parents[1..])
  }

  /** What open_namev answers once the parent is found. */
  function Target(fs: Fs, dir: nat, name: string, creat: bool): Result<nat> {
    var l := Lookup(fs, dir, name);
    if l == Err(ENOENT) && creat then fs.create(dir, name) else l
  }

  /** Where the walk starts, and what is left of the path. */
  function From(path: string, base: Option<nat>, root: nat, cwd: nat): (nat, string)
    requires path != ""
  {
    if path[0] == '/' then (root, path[1..])
    else ((match base case Some(b) => b case None => cwd), path)
  }

  /** dir_namev in short: the parent directory and the name in it */
  function DirNamev(fs: Fs, path: string, base: Option<nat>, root: nat, cwd: nat): Result<(nat, string)> {
    if path == "" then Err(EINVAL)
    else
      var (dir, rest) := From(path, base, root, cwd);
      match Walk(fs, dir, Parents(rest))
      case Err(e) => Err(e)
      case Ok(v) => Ok((v, Name(rest)))
  }

  function OpenNamev(fs: Fs, path: string, creat: bool, base: Option<nat>, root: nat, cwd: nat): Result<nat> {
    match DirNamev(fs, path, base, root, cwd)
    case Err(e) => Err(e)
    case Ok((dir, name)) => Target(fs, dir, name, creat)
  }

  /** The references a result brings along. */
  function Brought(r: Result<nat>): multiset<nat> {
    match r case Ok(v) => multiset{v} case Err(_) => multiset{}
  }

  class Namespace {
    const fs: Fs
    const root: nat
    const cwd: nat
    var refs: multiset<nat>     // references held on vnodes

    constructor (fs: Fs, root: nat, cwd: nat)
      ensures this.fs == fs && this.root == root && this.cwd == cwd && refs == multiset{root, cwd}
    {
      this.fs, this.root, this.cwd := fs, root, cwd;
      refs := multiset{root, cwd};
    }

    method Vget(v: nat)
      modifies this`refs
      ensures refs == old(refs) + multiset{v}
    {
      refs := refs + multiset{v};
    }

    method Vput(v: nat)
      requires v in refs
      modifies this`refs
      ensures refs == old(refs) - multiset{v}
    {
      refs := refs - multiset{v};
    }

    /** lookup: on success the result carries a reference */
    method LookupVnode(dir: nat, name: string) returns (r: Result<nat>)
      modifies this`refs
      ensures r == Lookup(fs, dir, name) && refs == old(refs) + Brought(r)
    {
      if !fs.isDir(dir) {
        return Err(ENOTDIR);
      }
      if |name| > NAME_LEN {
        return Err(ENAMETOOLONG);
      }
      if |name| == 0 {
        Vget(dir);
        return Ok(dir);
      }
      r := fs.lookup(dir, name);
      if r.Ok? {
        refs := refs + multiset{r.value};
      }
    }

    /** strchr(start, '/'), on a buffer closed by a zero */
    method FindSlash(buffer: array<char>, start: nat, len: nat) returns (k: nat)
      requires start <= len < buffer.Length && buffer[len] == '\0' && forall i :: start <= i < len ==> buffer[i] != '\0'
      ensures start <= k <= len && k - start == Slash(buffer[start..len])
    {
      k := start;
      while buffer[k] != '/' && buffer[k] != '\0'
        invariant start <= k <= len && Slash(buffer[start..len]) == k - start + Slash(buffer[k..len])
        decreases len - k
      {
        assert buffer[k..len][1..] == buffer[k + 1..len];
        k := k + 1;
      }
    }

    /** A lookup, and the reference on the directory given back whether or not it succeeds */
    method Descend(dir: nat, name: string, ghost held: multiset<nat>) returns (r: Result<nat>)
      requires refs == held + multiset{dir}
      modifies this`refs
      ensures r == Lookup(fs, dir, name) && refs == held + Brought(r)
    {
      r := LookupVnode(dir, name);
      Vput(dir);
      assert held + multiset{dir} + Brought(r) - multiset{dir} == held + Brought(r);
    }

    /** The component up to the slash at k, cut off by a zero, and the next slash */
    method NextSlash(buffer: array<char>, start: nat, k: nat, rest: string) returns (name: string, slash: nat)
      requires Unread(buffer, start, rest) && '\0' !in rest && start <= k < |rest| && rest[k] == '/'
      modifies buffer
      ensures Unread(buffer, k + 1, rest) && name == rest[start..k]
      ensures k + 1 <= slash <= |rest| && slash - (k + 1) == Slash(rest[k + 1..])
    {
      buffer[k] := '\0';
      name := buffer[start..k];
      assert name == rest[start..k];
      slash := FindSlash(buffer, k + 1, |rest|);
      assert buffer[k + 1..|rest|] == rest[k + 1..];
    }

    /** The buffer with its copy of the path, and the first slash */
    method NewBuffer(rest: string) returns (buffer: array<char>, slash: nat)
      requires |rest| <= MAXPATHLEN && '\0' !in rest
      ensures fresh(buffer) && Unread(buffer, 0, rest) && slash <= |rest| && slash == Slash(rest[0..])
    {
      buffer := new char[MAXPATHLEN + 1](i => if 0 <= i < |rest| then rest[i] else '\0');
      assert rest[0..] == rest && buffer[0..|rest|] == rest;
      slash := FindSlash(buffer, 0, |rest|);
    }

    /** One turn of the loop of dir_namev: the component is cut off by a zero and looked up */
    method Turn(buffer: array<char>, rest: string, start: nat, slash: nat, dir: nat, ghost held: multiset<nat>)
      returns (r: Result<nat>, next: nat)
      requires Unread(buffer, start, rest) && '\0' !in rest && start <= slash < |rest| && rest[slash] == '/'
      requires refs == held + multiset{dir}
      modifies this`refs, buffer
      ensures r == Lookup(fs, dir, rest[start..slash]) && refs == held + Brought(r)
      ensures Reading(buffer, rest, slash + 1, next)
    {
      var name;
      name, next := NextSlash(buffer, start, slash, rest);
      r := Descend(dir, name, held);
    }

    /** The loop of dir_namev over the components of `rest`: the reference on the directory moves along, and
        is given back when a lookup fails. Zeros are written over the slashes of the buffer. */
    method WalkBuffer(dir0: nat, rest: string, ghost held: multiset<nat>) returns (r: Result<nat>, start: nat)
      requires |rest| <= MAXPATHLEN && '\0' !in rest && refs == held + multiset{dir0}
      modifies this`refs
      ensures r == WalkFrom(fs, dir0, rest, 0) && refs == held + Brought(r)
      ensures r.Ok? ==> start <= |rest| && rest[start..] == NameFrom(rest, 0)
    {
      ghost var goal, name := WalkFrom(fs, dir0, rest, 0), NameFrom(rest, 0);
      var dir := dir0;
      start := 0;
      var buffer, slash: nat := NewBuffer(rest);
      while slash < |rest|
        invariant Reading(buffer, rest, start, slash)
        invariant refs == held + multiset{dir}
        invariant OnTheWay(fs, dir, rest, start, goal, name)
        decreases |rest| - start
      {
        OneStep(fs, dir, rest, start, slash, goal, name);
        var next;
        r, next := Turn(buffer, rest, start, slash, dir, held);
        if r.Err? {
          return;
        }
        dir, start, slash := r.value, slash + 1, next;
      }
      LastComponent(fs, dir, rest, start);
      r := Ok(dir);
    }

    /** dir_namev */
    method DirNamevCall(path: string, base: Option<nat>) returns (r: Result<(nat, string)>)
      requires |path| <= MAXPATHLEN && '\0' !in path
      modifies this`refs
      ensures r == DirNamev(fs, path, base, root, cwd)
      ensures refs == old(refs) + match r case Ok((v, _)) => multiset{v} case Err(_) => multiset{}
    {
      if |path| == 0 {
        return Err(EINVAL);
      }
      var dir, rest;
      if path[0] == '/' {
        dir, rest := root, path[1..];
      } else {
        dir, rest := (match base case Some(b) => b case None => cwd), path;
      }
      Vget(dir);
      var found, start := WalkBuffer(dir, rest, old(refs));
      assert rest[0..] == rest;
      match found {
        case Err(e) => r := Err(e);
        case Ok(v) => r := Ok((v, rest[start..]));
      }
    }

    /** open_namev */
    method OpenNamevCall(path: string, creat: bool, base: Option<nat>) returns (r: Result<nat>)
      requires |path| <= MAXPATHLEN && '\0' !in path
      modifies this`refs
      ensures r == OpenNamev(fs, path, creat, base, root, cwd) && refs == old(refs) + Brought(r)
    {
      var parent := DirNamevCall(path, base);
      if parent.Err? {
        return Err(parent.error);
      }
      var (dir, name) := parent.value;
      r := LookupVnode(dir, name);
      if r == Err(ENOENT) && creat {
        r := fs.create(dir, name);
        if r.Ok? {
          refs := refs + multiset{r.value};
        }
      }
      Vput(dir);
    }
  }

  /** From `start` on the buffer still holds the path and the zero behind it. */
  ghost predicate Unread(buffer: array<char>, start: nat, rest: string)
    reads buffer
  {
    && |rest| < buffer.Length && start <= |rest|
    && forall i :: start <= i <= |rest| ==> buffer[i] == if i < |rest| then rest[i] else '\0'
  }

  /** The next slash, or the end, is at `slash`. */
  ghost predicate Reading(buffer: array<char>, rest: string, start: nat, slash: nat)
    reads buffer
  {
    Unread(buffer, start, rest) && start <= slash <= |rest| && slash - start == Slash(rest[start..])
  }

  function WalkFrom(fs: Fs, dir: nat, rest: string, start: nat): Result<nat>
    requires start <= |rest|
  {
    Walk(fs, dir, Parents(rest[start..]))
  }

  function NameFrom(rest: string, start: nat): string
    requires start <= |rest|
  {
    Name(rest[start..])
  }

  /** Walking on from here leads to `goal`, and `name` is what comes last. */
  ghost predicate OnTheWay(fs: Fs, dir: nat, rest: string, start: nat, goal: Result<nat>, name: string) {
    start <= |rest| && WalkFrom(fs, dir, rest, start) == goal && NameFrom(rest, start) == name
  }

  lemma OneStep(fs: Fs, dir: nat, rest: string, start: nat, slash: nat, goal: Result<nat>, name: string)
    requires OnTheWay(fs, dir, rest, start, goal, name)
    requires start <= slash < |rest| && slash - start == Slash(rest[start..])
    ensures rest[slash] == '/'
    ensures match Lookup(fs, dir, rest[start..slash])
      case Err(e) => goal == Err(e)
      case Ok(v) => OnTheWay(fs, v, rest, slash + 1, goal, name)
  {
    NextComponent(fs, dir, rest, start, slash);
  }

  lemma NextComponent(fs: Fs, dir: nat, rest: string, start: nat, slash: nat)
    requires start <= slash < |rest| && slash - start == Slash(rest[start..])
    ensures rest[slash] == '/' && NameFrom(rest, start) == NameFrom(rest, slash + 1)
    ensures WalkFrom(fs, dir, rest, start) ==
      match Lookup(fs, dir, rest[start..slash])
      case Err(e) => Err(e)
      case Ok(v) => WalkFrom(fs, v, rest, slash + 1)
  {
    Pieces(rest, start, slash);
    StepIn(fs, dir, rest[start..]);
  }

  lemma Pieces(rest: string, start: nat, slash: nat)
    requires start <= slash < |rest| && slash - start == Slash(rest[start..])
    ensures var s := rest[start..];
      rest[slash] == '/' && s[..Slash(s)] == rest[start..slash] && s[Slash(s) + 1..] == rest[slash + 1..]
  {
    assert rest[start..][slash - start] == rest[slash];
  }

  lemma StepIn(fs: Fs, dir: nat, s: string)
    requires Slash(s) < |s|
    ensures Name(s) == Name(s[Slash(s) + 1..])
    ensures Walk(fs, dir, Parents(s)) ==
      match Lookup(fs, dir, s[..Slash(s)])
      case Err(e) => Err(e)
      case Ok(v) => Walk(fs, v, Parents(s[Slash(s) + 1..]))
  {
    var p := Parents(s);
    assert p[0] == s[..Slash(s)] && p[1..] == Parents(s[Slash(s) + 1..]);
  }

  lemma LastComponent(fs: Fs, dir: nat, rest: string, start: nat)
    requires start <= |rest| && |rest| - start == Slash(rest[start..])
    ensures WalkFrom(fs, dir, rest, start) == Ok(dir) && NameFrom(rest, start) == rest[start..]
  {
  }

  /** Walking through one directory after another is walking through all of them. */
  lemma {:induction false} WalkAppend(fs: Fs, dir: nat, a: seq<string>, b: seq<string>)
    ensures Walk(fs, dir, a + b) == match Walk(fs, dir, a) case Err(e) => Err(e) case Ok(v) => Walk(fs, v, b)
    decreases |a|
  {
    if a == [] {
      assert a + b == b;
    } else {
      assert (a + b)[1..] == a[1..] + b;
      match Lookup(fs, dir, a[0])
      case Err(_) =>
      case Ok(v) => WalkAppend(fs, v, a[1..], b);
    }
  }
}
