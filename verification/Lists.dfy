/** Doubly linked kernel lists, seen as sequences of distinct members. */
module Lists {

  ghost predicate Distinct(s: seq<nat>) {
    forall i, j :: 0 <= i < j < |s| ==> s[i] != s[j]
  }

  ghost function Members(s: seq<nat>): set<nat> {
    set x | x in s
  }

  /** list_remove on a list whose members are distinct. */
  function Unlink(s: seq<nat>, x: nat): seq<nat> {
    if s == [] then [] else if s[0] == x then s[1..] else [s[0]] + Unlink(s[1..], x)
  }

  lemma {:induction false} UnlinkRemoves(s: seq<nat>, x: nat)
    requires Distinct(s)
    ensures Distinct(Unlink(s, x))
    ensures forall y :: y in Unlink(s, x) <==> y in s && y != x
    ensures |Unlink(s, x)| == if x in s then |s| - 1 else |s|
  {
    if s != [] {
      assert s == [s[0]] + s[1..];
      UnlinkRemoves(s[1..], x);
      if s[0] != x {
        var t := Unlink(s[1..], x);
        forall i, j | 0 <= i < j < |t| + 1 ensures ([s[0]] + t)[i] != ([s[0]] + t)[j] {
          if i == 0 { assert t[j - 1] in s[1..]; }
        }
      }
    }
  }

  lemma DistinctAdd(s: seq<nat>, x: nat)
    requires Distinct(s) && x !in s
    ensures Distinct(s + [x]) && Distinct([x] + s)
    ensures forall y :: y in s + [x] <==> y in s || y == x
    ensures forall y :: y in [x] + s <==> y in s || y == x
  {
  }

  /** Removal keeps the order of the rest. */
  lemma {:induction false} UnlinkSplit(s: seq<nat>, k: nat)
    requires Distinct(s) && k < |s|
    ensures Unlink(s, s[k]) == s[..k] + s[k + 1..]
  {
    if k > 0 {
      UnlinkSplit(s[1..], k - 1);
      assert s[..k] == [s[0]] + s[1..][..k - 1];
      assert s[1..][k..] == s[k + 1..];
    }
  }
}
