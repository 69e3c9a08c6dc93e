/**
 * The two uses of `Array.prototype.splice` in the editor: `splice(i, 1)`
 * takes out the element at i, and `splice(j, 0, x)` puts x in at j. `Moved`
 * is the drag-and-drop reorder built from the two, and `Reorder` performs it
 * on a fresh array copy, shifting elements in place as splice does.
 */
module Splice {

  /** `s` after `splice(i, 1)`: the element at i is gone, the rest close up. */
  function Remove<T>(s: seq<T>, i: nat): (r: seq<T>)
    requires i < |s|
    ensures |r| == |s| - 1
    ensures forall k :: 0 <= k < i ==> r[k] == s[k]
    ensures forall k :: i <= k < |r| ==> r[k] == s[k + 1]
  {
    s[..i] + s[i + 1..]
  }

  /** `s` after `splice(j, 0, x)`: x stands at j, later elements move up one. */
  function Insert<T>(s: seq<T>, j: nat, x: T): (r: seq<T>)
    requires j <= |s|
    ensures |r| == |s| + 1 && r[j] == x
    ensures forall k :: 0 <= k < j ==> r[k] == s[k]
    ensures forall k :: j < k < |r| ==> r[k] == s[k - 1]
  {
    s[..j] + [x] + s[j..]
  }

  /** Taking out what was just put in gives the original back. */
  lemma RemoveInsert<T>(s: seq<T>, j: nat, x: T)
    requires j <= |s|
    ensures Remove(Insert(s, j, x), j) == s
  {
  }

  /** Putting back what was just taken out gives the original back. */
  lemma InsertRemove<T>(s: seq<T>, i: nat)
    requires i < |s|
    ensures Insert(Remove(s, i), i, s[i]) == s
  {
  }

  lemma MultisetRemove<T>(s: seq<T>, i: nat)
    requires i < |s|
    ensures multiset(Remove(s, i)) + multiset{s[i]} == multiset(s)
  {
    assert s == s[..i] + [s[i]] + s[i + 1..];
  }

  lemma MultisetInsert<T>(s: seq<T>, j: nat, x: T)
    requires j <= |s|
    ensures multiset(Insert(s, j, x)) == multiset(s) + multiset{x}
  {
    assert s == s[..j] + s[j..];
  }

  /**
   * The list after dragging the element at `from` to `to`: remove it, then
   * insert it at `to` of the shortened list. It lands exactly at `to`, the
   * other elements keep their relative order, and nothing is lost or gained.
   */
  function Moved<T>(s: seq<T>, from: nat, to: nat): (r: seq<T>)
    requires from < |s| && to < |s|
    ensures |r| == |s| && r[to] == s[from]
    ensures Remove(r, to) == Remove(s, from)
    ensures multiset(r) == multiset(s)
  {
    var t := Remove(s, from);
    RemoveInsert(t, to, s[from]);
    MultisetRemove(s, from);
    MultisetInsert(t, to, s[from]);
    Insert(t, to, s[from])
  }

  /** Dragging an element back to where it came from undoes the move. */
  lemma MovedBack<T>(s: seq<T>, from: nat, to: nat)
    requires from < |s| && to < |s|
    ensures Moved(Moved(s, from, to), to, from) == s
  {
    var r := Moved(s, from, to);
    InsertRemove(s, from);
    assert Moved(r, to, from) == Insert(Remove(s, from), from, s[from]);
  }

  /** Dropping an element where it was picked up changes nothing. */
  lemma MovedInPlace<T>(s: seq<T>, i: nat)
    requires i < |s|
    ensures Moved(s, i, i) == s
  {
    InsertRemove(s, i);
  }

  /** `a.splice(i, 1)` on a fixed-size array: the later elements shift down one place. */
  method SpliceOut<T>(a: array<T>, i: nat) returns (x: T)
    requires i < a.Length
    modifies a
    ensures x == old(a[i])
    ensures a[..a.Length - 1] == Remove(old(a[..]), i)
  {
    ghost var t := Remove(a[..], i);
    x := a[i];
    var k := i;
    while k < a.Length - 1
      invariant i <= k <= a.Length - 1
      invariant forall m :: 0 <= m < k ==> a[m] == t[m]
      invariant forall m :: k <= m < a.Length ==> a[m] == old(a[m])
    {
      a[k] := a[k + 1];
      k := k + 1;
    }
    assert forall m :: 0 <= m < a.Length - 1 ==> a[..a.Length - 1][m] == t[m];
  }

  /**
   * `a.splice(j, 0, x)` on a fixed-size array whose last slot is free: the
   * elements from j on shift up one place and x fills the gap.
   */
  method SpliceIn<T>(a: array<T>, j: nat, x: T)
    requires j < a.Length
    modifies a
    ensures a[..] == Insert(old(a[..a.Length - 1]), j, x)
  {
    ghost var t := a[..a.Length - 1];
    var k := a.Length - 1;
    while k > j
      invariant j <= k <= a.Length - 1
      invariant forall m :: 0 <= m < k ==> a[m] == t[m]
      invariant forall m :: k < m < a.Length ==> a[m] == t[m - 1]
    {
      a[k] := a[k - 1];
      k := k - 1;
    }
    a[j] := x;
    ghost var u := Insert(t, j, x);
    assert forall m :: 0 <= m < a.Length ==> a[..][m] == u[m];
  }

  /**
   * `Array.from(s)` followed by `splice(from, 1)` and `splice(to, 0, item)`,
   * each splice shifting the elements of the copy one place.
   */
  method Reorder<T>(s: seq<T>, from: nat, to: nat) returns (r: seq<T>)
    requires from < |s| && to < |s|
    ensures r == Moved(s, from, to)
  {
    var a := new T[|s|](k requires 0 <= k < |s| => s[k]);
    assert a[..] == s;
    var item := SpliceOut(a, from);
    SpliceIn(a, to, item);
    r := a[..];
  }

}
