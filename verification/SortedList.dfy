/** The early-exit walk shared by the three `*_find_prev` functions, on the keys of a list. */
module SortedList {
  import opened Gatt

  /** The number of leading keys below `h`: where the walk stops. */
  function LeadingBelow(keys: seq<uint16>, h: uint16): (k: nat)
    ensures k <= |keys|
    ensures forall i :: 0 <= i < k ==> keys[i] < h
    ensures k < |keys| ==> keys[k] >= h
  {
    if keys == [] || keys[0] >= h then 0 else 1 + LeadingBelow(keys[1..], h)
  }

  /** What `*_find` returns: the element the walk stopped at, if its key is `h`. */
  function Find(keys: seq<uint16>, h: uint16): Option<nat> {
    var k := LeadingBelow(keys, h);
    if k < |keys| && keys[k] == h then Some(k) else None
  }

  predicate Ascending(keys: seq<uint16>) {
    forall i, j :: 0 <= i < j < |keys| ==> keys[i] < keys[j]
  }

  /** The walk is determined by what its postcondition says. */
  lemma {:induction false} LeadingBelowUnique(keys: seq<uint16>, h: uint16, k: nat)
    requires k <= |keys|
    requires forall i :: 0 <= i < k ==> keys[i] < h
    requires k < |keys| ==> keys[k] >= h
    ensures LeadingBelow(keys, h) == k
  {
  }

  /** On an ascending list the walk splits it into the smaller keys and the rest: the node before
      the stop is the greatest smaller one, and `Find` is a full membership scan. */
  lemma {:induction false} FindIsMembership(keys: seq<uint16>, h: uint16)
    requires Ascending(keys)
    ensures forall i :: 0 <= i < |keys| ==> (keys[i] < h <==> i < LeadingBelow(keys, h))
    ensures forall i :: 0 <= i < |keys| ==> (Find(keys, h) == Some(i) <==> keys[i] == h)
    ensures Find(keys, h).None? <==> h !in keys
  {
  }

  /** Appending past the last key. */
  lemma {:induction false} FindPastEnd(keys: seq<uint16>, h: uint16)
    requires forall i :: 0 <= i < |keys| ==> keys[i] < h
    ensures LeadingBelow(keys, h) == |keys| && Find(keys, h).None?
  {
  }
}
