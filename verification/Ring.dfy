/** my402list.c: a circular doubly linked list closed by an anchor element. */
module Ring {

  class Elem {
    const obj: nat
    var next: Elem?
    var prev: Elem?

    constructor (obj: nat)
      ensures this.obj == obj && next == null && prev == null
    {
      this.obj := obj;
      next, prev := null, null;
    }
  }

  ghost predicate Linked(x: Elem, y: Elem)
    reads x, y
  {
    x.next == y && y.prev == x
  }

  ghost predicate DistinctElems(s: seq<Elem>) {
    forall i, j :: 0 <= i < j < |s| ==> s[i] != s[j]
  }

  /** The place after i on the way round. */
  function After(s: seq<Elem>, i: nat): nat
    requires i < |s|
  {
    if i + 1 == |s| then 0 else i + 1
  }

  /** From every element, next leads to the one after it, and prev leads back. */
  ghost predicate Closed(s: seq<Elem>)
    reads s
  {
    forall i :: 0 <= i < |s| ==> Linked(s[i], s[After(s, i)])
  }

  function Inserted(s: seq<Elem>, k: nat, e: Elem): seq<Elem>
    requires k < |s|
  {
    s[..k + 1] + [e] + s[k + 1..]
  }

  function Removed(s: seq<Elem>, k: nat): seq<Elem>
    requires k < |s|
  {
    s[..k] + s[k + 1..]
  }

  lemma InsertedDistinct(s: seq<Elem>, k: nat, e: Elem)
    requires k < |s| && DistinctElems(s) && e !in s
    ensures DistinctElems(Inserted(s, k, e))
  {
  }

  ghost function Objects(s: seq<Elem>): (r: seq<nat>)
    ensures |r| == |s| && forall i :: 0 <= i < |s| ==> r[i] == s[i].obj
  {
    if s == [] then [] else [s[0].obj] + Objects(s[1..])
  }

  lemma InsertedObjects(s: seq<Elem>, k: nat, e: Elem)
    requires k < |s|
    ensures Objects(Inserted(s, k, e)[1..]) == Objects(s[1..])[..k] + [e.obj] + Objects(s[1..])[k..]
  {
  }

  lemma RemovedObjects(s: seq<Elem>, k: nat)
    requires 0 < k < |s|
    ensures Objects(Removed(s, k)[1..]) == Objects(s[1..])[..k - 1] + Objects(s[1..])[k..]
  {
  }

  class My402List {
    const anchor: Elem
    var count: int              // num_members
    ghost var ring: seq<Elem>   // the anchor and then the elements

    ghost predicate Valid()
      reads this, ring
    {
      |ring| > 0 && ring[0] == anchor && DistinctElems(ring) && Closed(ring) && count == |ring| - 1
    }

    /** What the list holds, from first to last. */
    ghost function Contents(): seq<nat>
      reads this
      requires |ring| > 0
    {
      Objects(ring[1..])
    }

    ghost function Repr(): set<object>
      reads this
    {
      {this} + (set e: object | e in ring)
    }

    /** My402ListInit */
    constructor ()
      ensures Valid() && Contents() == [] && fresh(Repr())
    {
      anchor := new Elem(0);
      count, ring := 0, [anchor];
      new;
      anchor.next, anchor.prev := anchor, anchor;
    }

    /** The pointer surgery of the four insertions, behind the element at place k of the ring. */
    method Link(obj: nat, before: Elem, after: Elem, ghost k: nat) returns (e: Elem)
      requires Valid() && k < |ring| && before == ring[k] && after == ring[After(ring, k)]
      modifies this`ring, this`count, before`next, after`prev
      ensures Valid() && ring == Inserted(old(ring), k, e) && fresh(e) && e.obj == obj
    {
      e := new Elem(obj);
      e.next := after;
      e.prev := before;
      after.prev := e;
      before.next := e;
      count := count + 1;
      InsertedDistinct(ring, k, e);
      ghost var was := ring;
      ring := Inserted(ring, k, e);
      forall i | 0 <= i < |ring| ensures Linked(ring[i], ring[After(ring, i)]) {
        if i < k {
          assert old(Linked(was[i], was[After(was, i)]));
        } else if i > k + 1 {
          assert old(Linked(was[i - 1], was[After(was, i - 1)]));
        }
      }
    }

    /** My402ListAppend */
    method Append(obj: nat)
      requires Valid()
      modifies Repr()
      ensures Valid() && Contents() == old(Contents()) + [obj] && fresh(Repr() - old(Repr()))
    {
      ghost var k := |ring| - 1;
      assert Linked(ring[k], ring[After(ring, k)]);
      var last := Link(obj, anchor.prev, anchor, k);
      InsertedObjects(old(ring), k, last);
    }

    /** My402ListPrepend */
    method Prepend(obj: nat)
      requires Valid()
      modifies Repr()
      ensures Valid() && Contents() == [obj] + old(Contents()) && fresh(Repr() - old(Repr()))
    {
      assert Linked(ring[0], ring[After(ring, 0)]);
      var first := Link(obj, anchor, anchor.next, 0);
      InsertedObjects(old(ring), 0, first);
    }

    /** My402ListInsertAfter, on the element at place k */
    method InsertAfter(obj: nat, to: Elem, ghost k: nat)
      requires Valid() && 0 < k < |ring| && to == ring[k]
      modifies Repr()
      ensures Valid() && Contents() == old(Contents())[..k] + [obj] + old(Contents())[k..] &&
        fresh(Repr() - old(Repr()))
    {
      assert Linked(ring[k], ring[After(ring, k)]);
      var e := Link(obj, to, to.next, k);
      InsertedObjects(old(ring), k, e);
    }

    /** My402ListInsertBefore, on the element at place k */
    method InsertBefore(obj: nat, to: Elem, ghost k: nat)
      requires Valid() && 0 < k < |ring| && to == ring[k]
      modifies Repr()
      ensures Valid() && Contents() == old(Contents())[..k - 1] + [obj] + old(Contents())[k - 1..] &&
        fresh(Repr() - old(Repr()))
    {
      assert Linked(ring[k - 1], ring[After(ring, k - 1)]);
      var e := Link(obj, to.prev, to, k - 1);
      InsertedObjects(old(ring), k - 1, e);
    }

    /** The two assignments of My402ListUnlink */
    method Bypass(middle: Elem, ghost k: nat)
      requires |ring| > 1 && ring[0] == anchor && DistinctElems(ring) && Closed(ring) && 0 < k < |ring| &&
        middle == ring[k]
      modifies this`ring, set e | e in ring
      ensures ring == Removed(old(ring), k) && ring[0] == anchor && DistinctElems(ring) && Closed(ring)
    {
      assert Linked(ring[k - 1], ring[After(ring, k - 1)]) && Linked(ring[k], ring[After(ring, k)]);
      middle.next.prev := middle.prev;
      middle.prev.next := middle.next;
      ghost var was := ring;
      ring := Removed(ring, k);
      forall i | 0 <= i < |ring| ensures Linked(ring[i], ring[After(ring, i)]) {
        if i < k - 1 {
          assert old(Linked(was[i], was[After(was, i)]));
        } else if i >= k {
          assert old(Linked(was[i + 1], was[After(was, i + 1)]));
        }
      }
    }

    /** My402ListUnlink, on the element at place k */
    method Unlink(middle: Elem, ghost k: nat)
      requires Valid() && 0 < k < |ring| && middle == ring[k]
      modifies Repr()
      ensures Valid() && Contents() == old(Contents())[..k - 1] + old(Contents())[k..] && Repr() <= old(Repr())
    {
      Bypass(middle, k);
      RemovedObjects(old(ring), k);
      count := count - 1;
    }

    /** My402ListUnlinkAll */
    method UnlinkAll()
      requires Valid()
      modifies Repr()
      ensures Valid() && Contents() == [] && Repr() <= old(Repr())
    {
      while anchor.next != anchor || anchor.prev != anchor
        invariant |ring| > 0 && ring[0] == anchor && DistinctElems(ring) && Closed(ring) && Repr() <= old(Repr())
        decreases |ring|
      {
        assert Linked(ring[0], ring[After(ring, 0)]);
        Bypass(anchor.next, 1);
      }
      assert Linked(ring[0], ring[After(ring, 0)]);
      count := 0;
    }

    /** My402ListLength and My402ListEmpty */
    method Length() returns (n: int)
      requires Valid()
      ensures n == |Contents()|
    {
      n := count;
    }

    method Empty() returns (r: bool)
      requires Valid()
      ensures r <==> Contents() == []
    {
      r := count == 0;
    }

    /** My402ListFirst and My402ListLast */
    method First() returns (e: Elem?)
      requires Valid()
      ensures e == null <==> Contents() == []
      ensures e != null ==> e == ring[1] && e.obj == Contents()[0]
    {
      assert Linked(ring[0], ring[After(ring, 0)]);
      if count == 0 {
        return null;
      }
      return anchor.next;
    }

    method Last() returns (e: Elem?)
      requires Valid()
      ensures e == null <==> Contents() == []
      ensures e != null ==> e == ring[|ring| - 1] && e.obj == Contents()[|Contents()| - 1]
    {
      assert Linked(ring[|ring| - 1], ring[After(ring, |ring| - 1)]);
      if count == 0 {
        return null;
      }
      return anchor.prev;
    }

    /** My402ListNext and My402ListPrev, on the element at place k */
    method Next(e: Elem, ghost k: nat) returns (r: Elem?)
      requires Valid() && 0 < k < |ring| && e == ring[k]
      ensures r == if k + 1 == |ring| then null else ring[k + 1]
    {
      assert Linked(ring[k], ring[After(ring, k)]);
      if e.next == anchor {
        return null;
      }
      return e.next;
    }

    method Prev(e: Elem, ghost k: nat) returns (r: Elem?)
      requires Valid() && 0 < k < |ring| && e == ring[k]
      ensures r == if k == 1 then null else ring[k - 1]
    {
      assert Linked(ring[k - 1], ring[After(ring, k - 1)]);
      if e.prev == anchor {
        return null;
      }
      return e.prev;
    }
  }
}
