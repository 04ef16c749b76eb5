/** The binary min-heap that orders cache expirations, with the sift-up and
    sift-down loops of the container/heap algorithms it delegates to. */
module MinHeaps {

  import opened Options
  import opened Sequences

  /** What the heap demands of its comparator: a strict order whose
      incomparability is transitive, as "has the smaller priority" is. */
  ghost predicate StrictWeakOrder<T(!new)>(less: (T, T) -> bool) {
    && (forall x :: !less(x, x))
    && (forall x, y, z :: less(x, y) && less(y, z) ==> less(x, z))
    && (forall x, y, z :: !less(x, y) && !less(y, z) ==> !less(x, z))
  }

  function Parent(j: nat): nat
    requires 0 < j
    ensures Parent(j) < j
  {
    (j - 1) / 2
  }

  /** No item has a smaller priority than its parent, except possibly at `hole`. */
  ghost predicate OrderedBut<T>(less: (T, T) -> bool, s: seq<T>, hole: int) {
    forall j | 0 < j < |s| && j != hole :: !less(s[j], s[Parent(j)])
  }

  ghost predicate HeapOrdered<T>(less: (T, T) -> bool, s: seq<T>) {
    OrderedBut(less, s, -1)
  }

  /** Nothing in `s` has a smaller priority than `x`. */
  ghost predicate IsMinimum<T>(less: (T, T) -> bool, x: T, s: multiset<T>) {
    x in s && forall y | y in s :: !less(y, x)
  }

  /** In a heap-ordered sequence the root is a minimum at every position. */
  lemma {:induction false} RootIsLeast<T(!new)>(less: (T, T) -> bool, s: seq<T>, k: nat)
    requires StrictWeakOrder(less) && HeapOrdered(less, s) && k < |s|
    ensures !less(s[k], s[0])
  {
    if k > 0 {
      RootIsLeast(less, s, Parent(k));
      assert !less(s[k], s[Parent(k)]);
    }
  }

  lemma RootIsMinimum<T(!new)>(less: (T, T) -> bool, s: seq<T>)
    requires StrictWeakOrder(less) && HeapOrdered(less, s) && s != []
    ensures IsMinimum(less, s[0], multiset(s))
  {
    forall y | y in multiset(s)
      ensures !less(y, s[0])
    {
      var k :| 0 <= k < |s| && s[k] == y;
      RootIsLeast(less, s, k);
    }
  }

  function Swapped<T>(s: seq<T>, i: nat, j: nat): (r: seq<T>)
    requires i < |s| && j < |s|
    ensures |r| == |s| && multiset(r) == multiset(s)
  {
    var r := s[i := s[j]][j := s[i]];
    assert multiset(s[i := s[j]]) == multiset(s) - multiset{s[i]} + multiset{s[j]};
    r
  }

  /** The state of sift-up at item j: order holds but between j and its parent,
      and j's children are no smaller than j's parent. */
  ghost predicate Rising<T>(less: (T, T) -> bool, s: seq<T>, j: nat) {
    && j < |s|
    && OrderedBut(less, s, j)
    && (0 < j ==> forall k | 0 < k < |s| && Parent(k) == j :: !less(s[k], s[Parent(j)]))
  }

  /** The state of sift-down at item i of the first n: order holds but between i
      and its children, which are no smaller than i's parent. */
  ghost predicate Sinking<T>(less: (T, T) -> bool, s: seq<T>, i: nat, n: nat) {
    && i <= n <= |s|
    && (forall j | 0 < j < n && Parent(j) != i :: !less(s[j], s[Parent(j)]))
    && (0 < i ==> forall j | 0 < j < n && Parent(j) == i :: !less(s[j], s[Parent(i)]))
  }

  lemma RisingStep<T(!new)>(less: (T, T) -> bool, s: seq<T>, j: nat)
    requires StrictWeakOrder(less) && Rising(less, s, j)
    requires 0 < j && less(s[j], s[Parent(j)])
    ensures Rising(less, Swapped(s, Parent(j), j), Parent(j))
  {
    var i := Parent(j);
    var r := Swapped(s, i, j);
    forall k | 0 < k < |r| && k != i
      ensures !less(r[k], r[Parent(k)])
    {
      if Parent(k) == i && k != j {
        assert !less(s[k], s[i]);
        assert r[k] == s[k] && r[i] == s[j];
      }
    }
    if 0 < i {
      assert !less(s[i], s[Parent(i)]);
    }
  }

  lemma SinkingStep<T(!new)>(less: (T, T) -> bool, s: seq<T>, i: nat, n: nat, j: nat)
    requires StrictWeakOrder(less) && Sinking(less, s, i, n)
    requires 0 < j < n && Parent(j) == i && less(s[j], s[i])
    requires forall k | 0 < k < n && Parent(k) == i :: !less(s[k], s[j])
    ensures Sinking(less, Swapped(s, i, j), j, n)
  {
    var r := Swapped(s, i, j);
    forall k | 0 < k < n && Parent(k) != j
      ensures !less(r[k], r[Parent(k)])
    {
    }
  }

  /** The child of i that sift-down compares with i: the right one only when it
      exists and is smaller than the left one. */
  function SmallerChild<T>(less: (T, T) -> bool, s: seq<T>, i: nat, n: nat): (j: nat)
    requires 2 * i + 1 < n <= |s|
    ensures i < j < n && Parent(j) == i
  {
    var left := 2 * i + 1;
    if left + 1 < n && less(s[left + 1], s[left]) then left + 1 else left
  }

  lemma SmallerChildIsLeast<T(!new)>(less: (T, T) -> bool, s: seq<T>, i: nat, n: nat)
    requires StrictWeakOrder(less) && 2 * i + 1 < n <= |s|
    ensures forall k | 0 < k < n && Parent(k) == i :: !less(s[k], s[SmallerChild(less, s, i, n)])
  {
    forall k | 0 < k < n && Parent(k) == i
      ensures !less(s[k], s[SmallerChild(less, s, i, n)])
    {
      assert k == 2 * i + 1 || k == 2 * i + 2;
    }
  }

  lemma SunkIsOrdered<T(!new)>(less: (T, T) -> bool, s: seq<T>, i: nat, n: nat)
    requires StrictWeakOrder(less) && Sinking(less, s, i, n)
    requires 2 * i + 1 < n ==> !less(s[SmallerChild(less, s, i, n)], s[i])
    ensures HeapOrdered(less, s[..n])
  {
    if 2 * i + 1 < n {
      SmallerChildIsLeast(less, s, i, n);
    }
    forall j | 0 < j < n
      ensures !less(s[..n][j], s[..n][Parent(j)])
    {
    }
  }

  class MinHeap<T(!new)> {
    const less: (T, T) -> bool
    var items: seq<T>

    ghost predicate Valid()
      reads this
    {
      StrictWeakOrder(less) && HeapOrdered(less, items)
    }

    /** The abstract value: a bag of items. */
    ghost function Contents(): multiset<T>
      reads this
    {
      multiset(items)
    }

    constructor (less: (T, T) -> bool)
      requires StrictWeakOrder(less)
      ensures Valid() && this.less == less && items == []
    {
      this.less := less;
      items := [];
    }

    function Len(): nat
      reads this
    {
      |items|
    }

    method Peek() returns (top: Option<T>)
      requires Valid()
      ensures top.None? <==> Contents() == multiset{}
      ensures top.Some? ==> IsMinimum(less, top.value, Contents())
    {
      if |items| == 0 {
        return None;
      }
      RootIsMinimum(less, items);
      assert items[0] in multiset(items);
      return Some(items[0]);
    }

    method Push(value: T)
      requires Valid()
      modifies this`items
      ensures Valid()
      ensures Contents() == old(Contents()) + multiset{value}
    {
      ghost var was := items;
      items := items + [value];
      assert OrderedBut(less, items, |was|) by {
        assert forall j | 0 < j < |was| :: items[j] == was[j] && items[Parent(j)] == was[Parent(j)];
      }
      Up(|items| - 1);
    }

    method Pop() returns (top: Option<T>)
      requires Valid()
      modifies this`items
      ensures Valid()
      ensures top.None? <==> old(Contents()) == multiset{}
      ensures top.None? ==> Contents() == old(Contents())
      ensures top.Some? ==> IsMinimum(less, top.value, old(Contents()))
      ensures top.Some? ==> Contents() == old(Contents()) - multiset{top.value}
      ensures top.Some? ==> Len() == old(Len()) - 1
    {
      if |items| == 0 {
        return None;
      }
      RootIsMinimum(less, items);
      var n := |items| - 1;
      RootToEnd();
      top := Some(items[n]);
      DropLast(items);
      items := items[..n];
    }

    /** Swaps the root with the last item and restores order before it. */
    method RootToEnd()
      requires Valid() && items != []
      modifies this`items
      ensures |items| == old(|items|) && items[|items| - 1] == old(items[0])
      ensures HeapOrdered(less, items[..|items| - 1])
      ensures Contents() == old(Contents())
    {
      var n := |items| - 1;
      items := Swapped(items, 0, n);
      Down(0, n);
      assert items[n] == items[n..][0];
    }

    /** container/heap's up: move item j towards the root while it is smaller
        than its parent. */
    method Up(j0: nat)
      requires StrictWeakOrder(less) && Rising(less, items, j0)
      modifies this`items
      ensures Valid()
      ensures Contents() == old(Contents())
    {
      var j := j0;
      while 0 < j && less(items[j], items[Parent(j)])
        invariant Rising(less, items, j)
        invariant Contents() == old(Contents())
        decreases j
      {
        RisingStep(less, items, j);
        items := Swapped(items, Parent(j), j);
        j := Parent(j);
      }
    }

    /** container/heap's down: within the first n items, move item i0 towards
        the leaves while one of its children is smaller. */
    method Down(i0: nat, n: nat)
      requires StrictWeakOrder(less) && Sinking(less, items, i0, n)
      modifies this`items
      ensures |items| == old(|items|) && items[n..] == old(items[n..])
      ensures HeapOrdered(less, items[..n])
      ensures Contents() == old(Contents())
    {
      var i := i0;
      while 2 * i + 1 < n && less(items[SmallerChild(less, items, i, n)], items[i])
        invariant Sinking(less, items, i, n)
        invariant Contents() == old(Contents())
        invariant |items| == old(|items|) && items[n..] == old(items[n..])
        decreases n - i
      {
        var j := SmallerChild(less, items, i, n);
        SmallerChildIsLeast(less, items, i, n);
        SinkingStep(less, items, i, n, j);
        items := Swapped(items, i, j);
        i := j;
      }
      SunkIsOrdered(less, items, i, n);
    }
  }
}
