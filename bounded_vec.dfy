/**
 * The three operations the kitties pallet performs on the per-owner list of
 * dna (a `BoundedVec<KittyDna, MaxOwned>`): the fallible `try_push`, the
 * `iter().position` search and the unordered `swap_remove`.
 */
module BoundedVec {

  datatype Option<T> = None | Some(value: T)

  /** True when no element of `s` occurs twice. */
  ghost predicate NoDuplicates<T>(s: seq<T>) {
    forall i, j :: 0 <= i < j < |s| ==> s[i] != s[j]
  }

  /**
   * `try_push`: appends `x` when the vector holds fewer than `bound`
   * elements, and fails leaving the vector as it was otherwise.
   */
  function TryPush<T>(v: seq<T>, x: T, bound: nat): (r: Option<seq<T>>)
    ensures r.Some? <==> |v| < bound
    ensures r.Some? ==> r.value == v + [x] && |r.value| <= bound
  {
    if |v| < bound then Some(v + [x]) else None
  }

  /** The index of the first occurrence of `x` in `s`. */
  function FirstIndex<T(==)>(s: seq<T>, x: T): (i: nat)
    requires x in s
    ensures i < |s| && s[i] == x
    ensures x !in s[..i]
  {
    if s[0] == x then 0
    else
      assert x in s[1..] by { var k :| 0 <= k < |s| && s[k] == x; assert s[1..][k - 1] == x; }
      var j := FirstIndex(s[1..], x);
      assert s[..j + 1] == [s[0]] + s[1..][..j];
      1 + j
  }

  /** A first occurrence is the only index with its two properties. */
  lemma FirstIndexUnique<T>(s: seq<T>, x: T, i: nat)
    requires i < |s| && s[i] == x && x !in s[..i]
    ensures FirstIndex(s, x) == i
  {
  }

  /** `iter().position(|y| *y == x)`: a linear scan for the first `x`. */
  method Position<T(==)>(s: seq<T>, x: T) returns (pos: Option<nat>)
    ensures x !in s ==> pos == None
    ensures x in s ==> pos == Some(FirstIndex(s, x))
  {
    var i := 0;
    while i < |s|
      invariant 0 <= i <= |s|
      invariant x !in s[..i]
    {
      if s[i] == x {
        FirstIndexUnique(s, x, i);
        return Some(i);
      }
      assert s[..i + 1] == s[..i] + [s[i]];
      i := i + 1;
    }
    assert s[..i] == s;
    return None;
  }

  /**
   * `swap_remove(i)`: removes the element at `i` by moving the last element
   * into its place, so the order of what remains is not kept.
   */
  function SwapRemove<T>(s: seq<T>, i: nat): (r: seq<T>)
    requires i < |s|
    ensures |r| == |s| - 1
    ensures forall j :: 0 <= j < |r| && j != i ==> r[j] == s[j]
    ensures i < |r| ==> r[i] == s[|s| - 1]
  {
    var last := |s| - 1;
    if i == last then
      assert s == s[..last] + [s[last]];
      s[..last]
    else
      var front, middle := s[..i], s[i + 1..last];
      var r := front + [s[last]] + middle;
      assert s == front + [s[i]] + middle + [s[last]];
      assert forall j :: 0 <= j < |r| && j != i ==> r[j] == s[j];
      r
  }

  /** What `swap_remove` leaves is the old contents less one copy of `s[i]`. */
  lemma SwapRemovePermutes<T>(s: seq<T>, i: nat)
    requires i < |s|
    ensures multiset(SwapRemove(s, i)) == multiset(s) - multiset{s[i]}
  {
    var last := |s| - 1;
    if i < last {
      var front, middle := s[..i], s[i + 1..last];
      assert SwapRemove(s, i) == front + [s[last]] + middle;
      assert s == front + [s[i]] + middle + [s[last]];
    } else {
      assert s == s[..last] + [s[last]];
    }
  }

  /** Without duplicates, the removed element is gone and none appears. */
  lemma SwapRemoveNoDuplicates<T>(s: seq<T>, i: nat)
    requires i < |s| && NoDuplicates(s)
    ensures NoDuplicates(SwapRemove(s, i))
    ensures s[i] !in SwapRemove(s, i)
  {
  }

  /** Without duplicates, `swap_remove(i)` keeps exactly the members other than `s[i]`. */
  lemma SwapRemoveMembers<T>(s: seq<T>, i: nat)
    requires i < |s| && NoDuplicates(s)
    ensures forall x :: x in SwapRemove(s, i) <==> x in s && x != s[i]
  {
  }

  /** Appending an element the vector does not hold keeps it duplicate-free. */
  lemma AppendNoDuplicates<T>(s: seq<T>, x: T)
    requires NoDuplicates(s) && x !in s
    ensures NoDuplicates(s + [x])
  {
  }

  /** In a duplicate-free sequence a member occurs exactly once. */
  lemma {:induction false} NoDuplicatesCount<T>(s: seq<T>, x: T)
    requires NoDuplicates(s)
    ensures multiset(s)[x] == if x in s then 1 else 0
  {
    if s != [] {
      assert s == [s[0]] + s[1..];
      assert NoDuplicates(s[1..]) by {
        forall a, b | 0 <= a < b < |s[1..]| ensures s[1..][a] != s[1..][b] {
          assert s[1..][a] == s[a + 1] && s[1..][b] == s[b + 1];
        }
      }
      NoDuplicatesCount(s[1..], x);
      if s[0] == x {
        forall k | 0 <= k < |s[1..]| ensures s[1..][k] != x {
          assert s[1..][k] == s[k + 1];
        }
      }
    }
  }
}
