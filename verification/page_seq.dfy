/** The Swift `Array` operations the app performs on its page sequences:
    `firstIndex(of:)`, `remove(at:)`, `insert(_:at:)` and the remove-then-insert
    "move" used by the drag-to-reorder gesture. */
module PageSeq {
  import opened Wrappers

  /** `i` is the position of the earliest element of `s` equal to `x`. */
  ghost predicate IsFirstIndex<T>(s: seq<T>, x: T, i: int) {
    0 <= i < |s| && s[i] == x && forall j :: 0 <= j < i ==> s[j] != x
  }

  /** Swift's `firstIndex(of:)`: the earliest position holding `x`, or none. */
  function FirstIndexOf<T(==)>(s: seq<T>, x: T): (r: Option<nat>)
    ensures r.None? <==> x !in s
    ensures r.Some? ==> IsFirstIndex(s, x, r.value)
  {
    if |s| == 0 then None
    else if s[0] == x then Some(0)
    else
      assert s == [s[0]] + s[1..];
      match FirstIndexOf(s[1..], x)
      case None => None
      case Some(i) => Some(i + 1)
  }

  /** The first index of an element is unique. */
  lemma FirstIndexUnique<T>(s: seq<T>, x: T, i: int, j: int)
    requires IsFirstIndex(s, x, i) && IsFirstIndex(s, x, j)
    ensures i == j
  {
  }

  /** `FirstIndexOf` finds exactly the first index. */
  lemma FirstIndexOfIsFirst<T>(s: seq<T>, x: T, i: int)
    requires IsFirstIndex(s, x, i)
    ensures FirstIndexOf(s, x) == Some(i)
  {
  }

  /** Swift's `remove(at:)`, which traps on an invalid index. */
  function RemoveAt<T>(s: seq<T>, i: nat): (r: seq<T>)
    requires i < |s|
    ensures |r| == |s| - 1
    ensures forall k :: 0 <= k < i ==> r[k] == s[k]
    ensures forall k :: i <= k < |r| ==> r[k] == s[k + 1]
  {
    s[..i] + s[i + 1..]
  }

  /** Removing takes exactly the removed element out of the multiset. */
  lemma RemoveAtMultiset<T>(s: seq<T>, i: nat)
    requires i < |s|
    ensures multiset(RemoveAt(s, i)) + multiset{s[i]} == multiset(s)
  {
    assert s == s[..i] + [s[i]] + s[i + 1..];
  }

  /** Swift's `insert(_:at:)`, which traps unless `i <= count`. */
  function InsertAt<T>(s: seq<T>, i: nat, x: T): (r: seq<T>)
    requires i <= |s|
    ensures |r| == |s| + 1
    ensures r[i] == x
    ensures forall k :: 0 <= k < i ==> r[k] == s[k]
    ensures forall k :: i < k < |r| ==> r[k] == s[k - 1]
  {
    s[..i] + [x] + s[i..]
  }

  /** Inserting adds exactly the inserted element to the multiset. */
  lemma InsertAtMultiset<T>(s: seq<T>, i: nat, x: T)
    requires i <= |s|
    ensures multiset(InsertAt(s, i, x)) == multiset(s) + multiset{x}
  {
    assert s == s[..i] + s[i..];
  }

  /** Removing what was just inserted gives the sequence back. */
  lemma RemoveInsert<T>(s: seq<T>, i: nat, x: T)
    requires i <= |s|
    ensures RemoveAt(InsertAt(s, i, x), i) == s
  {
  }

  /** Re-inserting a removed element where it was gives the sequence back. */
  lemma InsertRemove<T>(s: seq<T>, i: nat)
    requires i < |s|
    ensures InsertAt(RemoveAt(s, i), i, s[i]) == s
  {
  }

  /** The reorder step: take the element at `from` out, then insert it at `to`
      of the shortened sequence. */
  function Move<T>(s: seq<T>, from: nat, to: nat): (r: seq<T>)
    requires from < |s| && to < |s|
    ensures |r| == |s|
    ensures multiset(r) == multiset(s)
    ensures r[to] == s[from]
    ensures RemoveAt(r, to) == RemoveAt(s, from)
  {
    var rest := RemoveAt(s, from);
    RemoveInsert(rest, to, s[from]);
    RemoveAtMultiset(s, from);
    InsertAtMultiset(rest, to, s[from]);
    InsertAt(rest, to, s[from])
  }

  /** The position in the original sequence that ends up at `k` after
      `Move(s, from, to)`: the moved element lands at `to`, the elements strictly
      between the two positions shift by one towards `from`, the rest stay. */
  function MoveSource(from: nat, to: nat, k: nat): nat {
    if k == to then from
    else if from < to && from <= k < to then k + 1
    else if to < from && to < k <= from then k - 1
    else k
  }

  /** Element-wise description of a move, independent of its definition. */
  lemma MoveShifts<T>(s: seq<T>, from: nat, to: nat)
    requires from < |s| && to < |s|
    ensures forall k :: 0 <= k < |s| ==> MoveSource(from, to, k) < |s| && Move(s, from, to)[k] == s[MoveSource(from, to, k)]
  {
  }

  /** Moving an element onto its own position changes nothing. */
  lemma MoveSelf<T>(s: seq<T>, i: nat)
    requires i < |s|
    ensures Move(s, i, i) == s
  {
  }

  /** Moving back undoes a move. */
  lemma MoveBack<T>(s: seq<T>, i: nat, j: nat)
    requires i < |s| && j < |s|
    ensures Move(Move(s, i, j), j, i) == s
  {
    var m := Move(s, i, j);
    assert RemoveAt(m, j) == RemoveAt(s, i);
    InsertRemove(s, i);
  }
}
