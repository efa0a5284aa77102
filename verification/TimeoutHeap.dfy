/** The queue of sleeping threads: a complete binary tree of thread objects linked by `left` and
    `right`, ordered by due time and navigated by the bits of a node's index. */
module TimeoutHeap {

  datatype State = Running | Runnable | IoWait | LockWait | CondWait | Sleeping | Zombie | Suspended

  class Thread {
    var state: State
    var onSleepQ: bool
    var timedOut: bool
    var due: int
    var left: Thread?
    var right: Thread?
    var heapIndex: int

    constructor ()
      ensures state == Runnable && !onSleepQ && !timedOut && left == null && right == null
    {
      state, onSleepQ, timedOut := Runnable, false, false;
      due, left, right, heapIndex := 0, null, null, 0;
    }
  }

  // ----- The tree as a sequence: the node with index N is at position N - 1 -----

  ghost function NodeAt(h: seq<Thread>, n: int): Thread? {
    if 1 <= n <= |h| then h[n - 1] else null
  }

  ghost function Set(h: seq<Thread>): set<Thread> {
    set t | t in h
  }

  lemma SetUpdate(h: seq<Thread>, i: int, x: Thread)
    requires 0 <= i < |h|
    ensures Set(h[i := x]) + {h[i]} == Set(h) + {x}
  {
    var h' := h[i := x];
    assert h'[i] == x;
    forall t | t in h && t != h[i] ensures t in h' {
      var j :| 0 <= j < |h| && h[j] == t;
      assert h'[j] == t;
    }
  }

  /** Node N carries its index and points to nodes 2N and 2N + 1. */
  ghost predicate Linked(h: seq<Thread>, n: int)
    requires 1 <= n <= |h|
    reads h
  {
    h[n - 1].heapIndex == n && h[n - 1].left == NodeAt(h, 2 * n) && h[n - 1].right == NodeAt(h, 2 * n + 1)
  }

  ghost predicate LinkedAll(h: seq<Thread>)
    reads h
  {
    forall n :: 1 <= n <= |h| ==> Linked(h, n)
  }

  lemma SetSwap(h: seq<Thread>, i: int, j: int)
    requires 0 <= i < |h| && 0 <= j < |h|
    ensures Set(h[i := h[j]][j := h[i]]) == Set(h)
  {
    var h' := h[i := h[j]][j := h[i]];
    assert h'[j] == h[i];
    assert i != j ==> h'[i] == h[j];
    forall t | t in h ensures t in h' {
      var k :| 0 <= k < |h| && h[k] == t;
      assert k != i && k != j ==> h'[k] == t;
    }
  }

  lemma DuesSwap(h: seq<Thread>, i: int, j: int)
    requires 0 <= i < |h| && 0 <= j < |h|
    ensures Dues(h[i := h[j]][j := h[i]]) == Dues(h)[i := Dues(h)[j]][j := Dues(h)[i]]
  {
    hide Dues;
    assert Dues(h[i := h[j]][j := h[i]]) == Dues(h)[i := Dues(h)[j]][j := Dues(h)[i]];
  }

  /** No thread is linked in twice. */
  lemma LinkedOnce(h: seq<Thread>, n: int)
    requires LinkedAll(h) && 1 <= n <= |h|
    ensures forall i :: 0 <= i < |h| && i != n - 1 ==> h[i] != h[n - 1]
  {
    forall i | 0 <= i < |h| && i != n - 1 ensures h[i] != h[n - 1] {
      assert Linked(h, i + 1) && Linked(h, n);
    }
  }

  /** Linked except that node K has lost its children. */
  ghost predicate LinkedExcept(h: seq<Thread>, k: int)
    requires 1 <= k <= |h|
    reads h
  {
    && (forall n :: 1 <= n <= |h| && n != k ==> Linked(h, n))
    && h[k - 1].heapIndex == k && h[k - 1].left == null && h[k - 1].right == null
  }

  // ----- Due times, by position -----

  ghost function Dues(h: seq<Thread>): (d: seq<int>)
    reads Set(h)`due
    ensures |d| == |h| && forall i :: 0 <= i < |h| ==> d[i] == h[i].due
  {
    if h == [] then [] else Dues(h[..|h| - 1]) + [h[|h| - 1].due]
  }

  /** Node N is not due before its parent. */
  ghost predicate InOrder(d: seq<int>, n: int)
    requires 2 <= n <= |d|
  {
    d[n / 2 - 1] <= d[n - 1]
  }

  ghost predicate Heap(d: seq<int>) {
    forall n :: 2 <= n <= |d| ==> InOrder(d, n)
  }

  /** In order except that node K may be due after its children, which are not due before its parent. */
  ghost predicate HeapExcept(d: seq<int>, k: int)
    requires 1 <= k <= |d|
  {
    && (forall n :: 2 <= n <= |d| && n / 2 != k ==> InOrder(d, n))
    && (forall n :: 2 <= n <= |d| && n / 2 == k && k >= 2 ==> d[k / 2 - 1] <= d[n - 1])
  }

  /** The root is due first. */
  lemma {:induction false} RootIsFirst(d: seq<int>, n: int)
    requires Heap(d) && 1 <= n <= |d|
    ensures d[0] <= d[n - 1]
    decreases n
  {
    if n >= 2 {
      assert InOrder(d, n);
      RootIsFirst(d, n / 2);
    }
  }

  // ----- Paths -----

  /** `s` shifted right by `n` bits: the ancestor `n` levels above node `s`. */
  function Shift(s: nat, n: nat): nat {
    if n == 0 then s else Shift(s, n - 1) / 2
  }

  lemma {:induction false} ShiftBound(s: nat, n: nat)
    ensures Shift(s, n) <= s
    ensures n > 0 && s > 0 ==> Shift(s, n) < s
    ensures Shift(s, n + 1) == Shift(s, n) / 2 && Shift(s, 0) == s
  {
    if n > 0 {
      ShiftBound(s, n - 1);
    }
  }

  /** The number of binary digits of an index. */
  method BitLength(s: nat) returns (bits: nat)
    ensures s > 0 ==> bits > 0 && Shift(s, bits - 1) == 1
  {
    var rest := s;
    bits := 0;
    while rest != 0
      invariant rest == Shift(s, bits)
      invariant s > 0 && rest == 0 ==> bits > 0 && Shift(s, bits - 1) == 1
    {
      rest := rest / 2;
      bits := bits + 1;
    }
  }

  // ----- Order lemmas -----

  /** Replacing a due time by an earlier one, but not before the parent's, keeps the order. */
  lemma EarlierKeepsHeap(d: seq<int>, k: int, x: int)
    requires Heap(d) && 1 <= k <= |d| && x <= d[k - 1]
    requires k >= 2 ==> d[k / 2 - 1] <= x
    ensures Heap(d[k - 1 := x])
  {
    var d' := d[k - 1 := x];
    forall n | 2 <= n <= |d'| ensures InOrder(d', n) {
      assert InOrder(d, n);
    }
  }

  lemma AppendKeepsHeap(d: seq<int>, x: int)
    requires Heap(d) && (|d| > 0 ==> d[(|d| + 1) / 2 - 1] <= x)
    ensures Heap(d + [x])
  {
    var d' := d + [x];
    forall n | 2 <= n <= |d'| ensures InOrder(d', n) {
      if n <= |d| {
        assert InOrder(d, n);
      }
    }
  }

  /** Replacing a node by any other not due before the parent breaks the order only below it. */
  lemma ReplaceBreaksBelow(d: seq<int>, k: int, x: int)
    requires Heap(d) && 1 <= k <= |d|
    requires k >= 2 ==> d[k / 2 - 1] <= x
    ensures HeapExcept(d[k - 1 := x], k)
  {
    var d' := d[k - 1 := x];
    forall n | 2 <= n <= |d'| && n / 2 != k ensures InOrder(d', n) {
      assert InOrder(d, n);
    }
    forall n | 2 <= n <= |d'| && n / 2 == k && k >= 2 ensures d'[k / 2 - 1] <= d'[n - 1] {
      assert InOrder(d, n) && InOrder(d, k);
    }
  }

  lemma HeapPrefix(d: seq<int>, n: nat)
    requires Heap(d) && n <= |d|
    ensures Heap(d[..n])
  {
    forall i | 2 <= i <= n ensures InOrder(d[..n], i) {
      assert InOrder(d, i);
    }
  }

  ghost function PlacedAt<T>(s: seq<T>, k: int, x: T): seq<T>
    requires 1 <= k <= |s| + 1
  {
    if k <= |s| then s[k - 1 := x] else s + [x]
  }

  lemma SetPlaced(h: seq<Thread>, k: int, x: Thread)
    requires 1 <= k <= |h| + 1
    ensures Set(PlacedAt(h, k, x)) + (if k <= |h| then {h[k - 1]} else {}) == Set(h) + {x}
  {
    if k <= |h| {
      SetUpdate(h, k - 1, x);
    }
  }

  lemma DuesPlaced(h: seq<Thread>, k: int, x: Thread)
    requires 1 <= k <= |h| + 1
    ensures Dues(PlacedAt(h, k, x)) == PlacedAt(Dues(h), k, x.due)
  {
    hide Dues;
    assert Dues(PlacedAt(h, k, x)) == PlacedAt(Dues(h), k, x.due);
  }

  lemma PlacedHeap(d: seq<int>, k: int, x: int)
    requires Heap(d) && 1 <= k <= |d| + 1 && (k >= 2 ==> d[k / 2 - 1] <= x)
    ensures HeapExcept(PlacedAt(d, k, x), k)
  {
    if k <= |d| {
      ReplaceBreaksBelow(d, k, x);
    } else {
      AppendKeepsHeap(d, x);
    }
  }

  /** C is the child of node K that is due first. */
  ghost predicate Younger(d: seq<int>, k: int, c: int)
    requires 1 <= k <= |d|
  {
    c / 2 == k && 2 <= c <= |d| && forall n :: 2 <= n <= |d| && n / 2 == k ==> d[c - 1] <= d[n - 1]
  }

  lemma SinkMovesDown(d: seq<int>, k: int, c: int)
    requires 1 <= k <= |d| && HeapExcept(d, k) && Younger(d, k, c) && d[k - 1] > d[c - 1]
    ensures HeapExcept(d[k - 1 := d[c - 1]][c - 1 := d[k - 1]], c)
  {
    var d' := d[k - 1 := d[c - 1]][c - 1 := d[k - 1]];
    forall n | 2 <= n <= |d'| && n / 2 != c ensures InOrder(d', n) {
      if n / 2 != k {
        assert InOrder(d, n);
      }
    }
    forall n | 2 <= n <= |d'| && n / 2 == c ensures d'[c / 2 - 1] <= d'[n - 1] {
      assert InOrder(d, n);
    }
  }

  /** Nothing is left to do when node K has no children or is not due after the younger one. */
  lemma SinkDone(d: seq<int>, k: int, c: int)
    requires 1 <= k <= |d| && HeapExcept(d, k)
    requires 2 * k > |d| || (Younger(d, k, c) && d[k - 1] <= d[c - 1])
    ensures Heap(d)
  {
    forall n | 2 <= n <= |d| ensures InOrder(d, n) {
      if n / 2 != k {
        assert InOrder(d, n);
      }
    }
  }

  /** The last node has no children to be out of order with. */
  lemma LastIsWhole(d: seq<int>)
    requires |d| > 0 && HeapExcept(d, |d|)
    ensures Heap(d)
  {
    SinkDone(d, |d|, 0);
  }

  lemma SwappedNode(h: seq<Thread>, k: int, c: int, m: int)
    requires 1 <= k < c <= |h|
    ensures var h' := h[k - 1 := h[c - 1]][c - 1 := h[k - 1]];
            NodeAt(h', m) == NodeAt(h, if m == k then c else if m == c then k else m)
  {
  }

  // ----- The queue -----

  /** A pointer to a thread pointer: the root, or a child field of a thread. */
  datatype Slot = Root | LeftOf(parent: Thread) | RightOf(parent: Thread)

  ghost function SlotOf(h: seq<Thread>, n: int): Slot
    requires 1 <= n <= |h| + 1
  {
    if n == 1 then Root else if n % 2 == 0 then LeftOf(h[n / 2 - 1]) else RightOf(h[n / 2 - 1])
  }

  class SleepQueue {
    var root: Thread?
    var size: nat
    ghost var heap: seq<Thread>
    ghost var pool: set<Thread>  // the threads of the virtual processor, sleeping or not

    ghost predicate InPool(h: seq<Thread>)
      reads this
    {
      forall i :: 0 <= i < |h| ==> h[i] in pool
    }

    ghost predicate Shape()
      reads this, heap
    {
      root == NodeAt(heap, 1) && LinkedAll(heap) && InPool(heap)
    }

    ghost predicate Valid()
      reads this, heap
    {
      Shape() && size == |heap| && Heap(Dues(heap))
    }

    ghost function Members(): set<Thread>
      reads this
    {
      Set(heap)
    }

    constructor (threads: set<Thread>)
      ensures Valid() && heap == [] && pool == threads
    {
      root, size, heap, pool := null, 0, [], threads;
    }

    function Load(slot: Slot): Thread?
      reads this, if slot.Root? then {} else {slot.parent}
    {
      match slot
      case Root => root
      case LeftOf(p) => p.left
      case RightOf(p) => p.right
    }

    method Store(slot: Slot, t: Thread?)
      modifies this`root, (if slot.LeftOf? then {slot.parent} else {})`left, (if slot.RightOf? then {slot.parent} else {})`right
      ensures Load(slot) == t
      ensures !slot.Root? ==> root == old(root)
    {
      match slot
      case Root => root := t;
      case LeftOf(p) => p.left := t;
      case RightOf(p) => p.right := t;
    }

    lemma SlotHoldsNode(n: int)
      requires Shape() && 1 <= n <= |heap| + 1
      ensures Load(SlotOf(heap, n)) == NodeAt(heap, n)
    {
      if n > 1 {
        assert Linked(heap, n / 2);
      }
    }

    /** Puts `thread` where node `index` is and takes that node out. */
    method SwapIn(slot: Slot, ghost index: int, thread: Thread, number: int) returns (t: Thread)
      requires Shape() && 1 <= index <= |heap| && slot == SlotOf(heap, index) && thread in pool && thread !in heap && number == index
      modifies this`root, this`heap, pool`left, pool`right, pool`heapIndex
      ensures t == old(heap)[index - 1]
      ensures heap == old(heap)[index - 1 := thread] && Shape() && t !in heap
      ensures t.left == NodeAt(heap, 2 * index) && t.right == NodeAt(heap, 2 * index + 1)
    {
      SlotHoldsNode(index);
      LinkedOnce(heap, index);
      if index >= 2 {
        LinkedOnce(heap, index / 2);
      }
      assert Linked(heap, index);
      t := Load(slot);
      thread.left := t.left;
      thread.right := t.right;
      Store(slot, thread);
      thread.heapIndex := number;
      heap := heap[index - 1 := thread];
      forall n | 1 <= n <= |heap| ensures Linked(heap, n) {
        assert old(Linked(heap, n));
      }
    }

    /** Puts `thread` into a slot, without children; a node that was there is left as it was. */
    method Place(slot: Slot, index: int, thread: Thread)
      requires Shape() && 1 <= index <= |heap| + 1 && slot == SlotOf(heap, index) && thread in pool && thread !in heap
      modifies this`root, this`heap, pool`left, pool`right, pool`heapIndex
      ensures heap == PlacedAt(old(heap), index, thread) && slot == SlotOf(heap, index)
      ensures |heap| == if index <= |old(heap)| then |old(heap)| else index
      ensures Load(slot) == heap[index - 1]
      ensures root == NodeAt(heap, 1) && LinkedExcept(heap, index) && InPool(heap)
      ensures index <= |old(heap)| ==>
                var gone := old(heap)[index - 1];
                gone !in heap && gone.left == NodeAt(heap, 2 * index) && gone.right == NodeAt(heap, 2 * index + 1)
    {
      SlotHoldsNode(index);
      ghost var next := PlacedAt(heap, index, thread);
      if index <= |heap| {
        LinkedOnce(heap, index);
        assert Linked(heap, index);
      }
      if index >= 2 {
        LinkedOnce(heap, index / 2);
      }
      thread.heapIndex := index;
      Store(slot, thread);
      thread.left, thread.right := null, null;
      heap := next;
      forall n | 1 <= n <= |heap| && n != index ensures Linked(heap, n) {
        assert old(Linked(heap, n));
      }
    }

    /** One step down the path: whichever of the node and the carried thread is due later is
        carried on. */
    method CarryDown(slot: Slot, index: int, thread: Thread) returns (carried: Thread)
      requires Shape() && Heap(Dues(heap)) && 1 <= index <= |heap| && slot == SlotOf(heap, index) && thread in pool && thread !in heap
      requires index >= 2 ==> heap[index / 2 - 1].due <= thread.due
      modifies this`root, this`heap, pool`left, pool`right, pool`heapIndex
      ensures Shape() && Heap(Dues(heap)) && carried in pool && carried !in heap
      ensures |heap| == |old(heap)| && heap == old(heap)[index - 1 := heap[index - 1]]
      ensures (heap[index - 1] == thread && carried == old(heap)[index - 1]) || (heap == old(heap) && carried == thread)
      ensures Members() + {carried} == old(Members()) + {thread}
      ensures heap[index - 1].due <= carried.due && Load(slot) == heap[index - 1]
    {
      hide Heap, LinkedAll, Dues;
      SlotHoldsNode(index);
      carried := thread;
      if thread.due < Load(slot).due {
        ghost var dues := Dues(heap)[index - 1 := thread.due];
        EarlierKeepsHeap(Dues(heap), index, thread.due);
        SetUpdate(heap, index - 1, thread);
        carried := SwapIn(slot, index, thread, index);
        assert Dues(heap) == dues;
        SlotHoldsNode(index);
      }
    }

    /** `thread` is on its way down and may be put into `slot`, the slot of node `index`. */
    ghost predicate Carrying(thread: Thread, slot: Slot, index: int)
      reads this, heap, thread
    {
      && Shape() && Heap(Dues(heap)) && thread in pool && thread !in heap
      && 1 <= index <= |heap| + 1 && slot == SlotOf(heap, index)
      && (index >= 2 ==> heap[index / 2 - 1].due <= thread.due)
    }

    /** One step down, into the left or the right child. */
    method Descend(slot0: Slot, index: int, thread0: Thread, right: bool) returns (slot: Slot, thread: Thread)
      requires Carrying(thread0, slot0, index) && index <= |heap|
      requires (if right then 2 * index + 1 else 2 * index) <= |heap| + 1
      modifies this`root, this`heap, pool`left, pool`right, pool`heapIndex
      ensures Carrying(thread, slot, if right then 2 * index + 1 else 2 * index)
      ensures |heap| == |old(heap)| && heap == old(heap)[index - 1 := heap[index - 1]]
      ensures Members() + {thread} == old(Members()) + {thread0}
    {
      hide LinkedAll, Heap, NodeAt, Dues;
      thread := CarryDown(slot0, index, thread0);
      var node := Load(slot0);
      slot := if right then RightOf(node) else LeftOf(node);
    }

    /** Walks from the root to the slot of the index `thread0` carries, exchanging the carried
        thread for every node that is due later. */
    method CarryAlongPath(thread0: Thread) returns (slot: Slot, thread: Thread)
      requires Shape() && Heap(Dues(heap)) && thread0 in pool && thread0 !in heap && 1 <= thread0.heapIndex <= |heap| + 1
      modifies this`root, this`heap, pool`left, pool`right, pool`heapIndex
      ensures var target := old(thread0.heapIndex);
              && Carrying(thread, slot, target) && |heap| == |old(heap)|
              && (target <= |heap| ==> heap[target - 1] == old(heap)[target - 1])
              && Members() + {thread} == old(Members()) + {thread0}
    {
      hide LinkedAll, Heap, Shift, NodeAt, Dues;
      var target := thread0.heapIndex;
      var bits := BitLength(target);
      var index := 1;
      var bit: int := bits as int - 2;
      slot, thread := Root, thread0;
      ShiftBound(target, 0);
      while bit >= 0
        invariant -1 <= bit && index == Shift(target, bit + 1)
        invariant Carrying(thread, slot, index) && |heap| == |old(heap)|
        invariant target <= |heap| ==> heap[target - 1] == old(heap)[target - 1]
        invariant Members() + {thread} == old(Members()) + {thread0}
      {
        ShiftBound(target, bit + 1);
        ShiftBound(target, bit);
        var right := Shift(target, bit) % 2 == 1;
        slot, thread := Descend(slot, index, thread, right);
        index := if right then 2 * index + 1 else 2 * index;
        bit := bit - 1;
      }
    }

    /** Inserts `thread0` at the index it carries: the nodes on the path that are due later move
        down one step each.  An index inside the tree displaces the node that was there. */
    method HeapInsert(thread0: Thread) returns (slot: Slot)
      requires Shape() && Heap(Dues(heap)) && thread0 in pool && thread0 !in heap && 1 <= thread0.heapIndex <= |heap| + 1
      modifies this`root, this`heap, pool`left, pool`right, pool`heapIndex
      ensures var target := old(thread0.heapIndex);
              && |heap| == (if target <= |old(heap)| then |old(heap)| else target)
              && root == NodeAt(heap, 1) && LinkedExcept(heap, target) && InPool(heap)
              && slot == SlotOf(heap, target) && Load(slot) == heap[target - 1] && HeapExcept(Dues(heap), target)
              && Members() + (if target <= |old(heap)| then {old(heap)[target - 1]} else {}) == old(Members()) + {thread0}
              && (target <= |old(heap)| ==>
                    var gone := old(heap)[target - 1];
                    gone !in heap && gone.left == NodeAt(heap, 2 * target) && gone.right == NodeAt(heap, 2 * target + 1))
    {
      hide LinkedAll, Heap, LinkedExcept, HeapExcept, NodeAt, PlacedAt, SlotOf, Dues;
      var target := thread0.heapIndex;
      var thread;
      slot, thread := CarryAlongPath(thread0);
      ghost var middle := heap;
      SetPlaced(heap, target, thread);
      DuesPlaced(heap, target, thread);
      PlacedHeap(Dues(heap), target, thread.due);
      Place(slot, target, thread);
      assert Set(middle) + {thread} == old(Members()) + {thread0};
    }
    // ----- Deleting -----

    /** Follows the digits of the size to the slot of the last node. */
    method FindLast() returns (slot: Slot)
      requires Shape() && size == |heap| && size > 0
      ensures slot == SlotOf(heap, |heap|)
    {
      var bits := BitLength(size);
      var bit: int := bits as int - 2;
      ghost var index := 1;
      slot := Root;
      ShiftBound(size, 0);
      while bit >= 0
        invariant -1 <= bit && 1 <= index <= |heap| && index == Shift(size, bit + 1)
        invariant slot == SlotOf(heap, index)
      {
        hide Shift, LinkedAll;
        ShiftBound(size, bit + 1);
        ShiftBound(size, bit);
        SlotHoldsNode(index);
        var node := Load(slot);
        if Shift(size, bit) % 2 == 1 {
          slot, index := RightOf(node), 2 * index + 1;
        } else {
          slot, index := LeftOf(node), 2 * index;
        }
        bit := bit - 1;
      }
    }

    /** Takes the last node off the tree. */
    method UnlinkLast() returns (t: Thread)
      requires Shape() && size == |heap| && size > 0
      modifies this`root, this`size, this`heap, pool`left, pool`right
      ensures Shape() && size == |heap|
      ensures |old(heap)| > 0 && heap == old(heap)[..|old(heap)| - 1] && t == old(heap)[|old(heap)| - 1] && t !in heap
    {
      var slot := FindLast();
      SlotHoldsNode(size);
      LinkedOnce(heap, size);
      if size >= 2 {
        LinkedOnce(heap, size / 2);
      }
      t := Load(slot);
      Store(slot, null);
      size := size - 1;
      heap := heap[..size];
      forall n | 1 <= n <= |heap| ensures Linked(heap, n) {
        assert old(Linked(heap, n));
      }
    }

    /** Makes the child `y` of `t` take its place and `t` take the place of `y`. */
    method Relink(slot: Slot, t: Thread, y: Thread) returns (below: Slot)
      requires y != t && t.left != t.right && (y == t.left || y == t.right)
      requires slot.Root? || (slot.parent != t && slot.parent != y)
      modifies this`root, {t, y}`left, {t, y}`right, {t, y}`heapIndex
      modifies (if slot.LeftOf? then {slot.parent} else {})`left, (if slot.RightOf? then {slot.parent} else {})`right
      ensures Load(slot) == y && (!slot.Root? ==> root == old(root))
      ensures if y == old(t.left) then y.left == t && y.right == old(t.right) && below == LeftOf(y)
              else y.left == old(t.left) && y.right == t && below == RightOf(y)
      ensures t.left == old(y.left) && t.right == old(y.right)
      ensures t.heapIndex == old(y.heapIndex) && y.heapIndex == old(t.heapIndex)
    {
      var tl, tr := y.left, y.right;
      Store(slot, y);
      if y == t.left {
        y.left := t;
        y.right := t.right;
        below := LeftOf(y);
      } else {
        y.left := t.left;
        y.right := t;
        below := RightOf(y);
      }
      t.left, t.right := tl, tr;
      t.heapIndex, y.heapIndex := y.heapIndex, t.heapIndex;
    }

    /** Exchanges node K with its child C, by relinking: `t` goes down and `y` comes up. */
    method SwapWithChild(slot: Slot, ghost k: int, ghost c: int, t: Thread, y: Thread) returns (below: Slot)
      requires Shape() && 1 <= k <= |heap| && c / 2 == k && 2 <= c <= |heap|
      requires slot == SlotOf(heap, k) && t == heap[k - 1] && y == heap[c - 1]
      modifies this`root, this`heap, pool`left, pool`right, pool`heapIndex
      ensures Shape() && heap == old(heap)[k - 1 := y][c - 1 := t] && below == SlotOf(heap, c)
    {
      ReadyToSwap(slot, k, c);
      LinkedOnce(heap, k);
      LinkedOnce(heap, c);
      ghost var h := heap;
      SwappedNode(h, k, c, 1);
      hide NodeAt;
      below := Relink(slot, t, y);
      heap := h[k - 1 := y][c - 1 := t];
      forall n | 1 <= n <= |heap| ensures Linked(heap, n) {
        assert old(Linked(heap, n));
        SwappedNode(h, k, c, 2 * n);
        SwappedNode(h, k, c, 2 * n + 1);
      }
    }

    /** What relinking a node with its child needs, and where the pointer below then is. */
    lemma ReadyToSwap(slot: Slot, k: int, c: int)
      requires Shape() && 1 <= k <= |heap| && c / 2 == k && 2 <= c <= |heap| && slot == SlotOf(heap, k)
      ensures var t, y := heap[k - 1], heap[c - 1];
              && y != t && t.left != t.right && y == (if c == 2 * k then t.left else t.right)
              && (slot.Root? || (slot.parent != t && slot.parent != y && slot.parent == heap[k / 2 - 1]))
              && (!slot.Root? ==> forall i :: 0 <= i < |heap| && i != k / 2 - 1 ==> heap[i] != slot.parent)
    {
      LinkedOnce(heap, k);
      LinkedOnce(heap, c);
      if k >= 2 {
        LinkedOnce(heap, k / 2);
        assert Linked(heap, k / 2);
      }
      assert Linked(heap, k) && Linked(heap, c);
      if 2 * k + 1 <= |heap| {
        LinkedOnce(heap, 2 * k + 1);
      }
    }

    /** The child of node K that is due first, if it has any. */
    method YoungerChild(t: Thread, ghost k: int) returns (y: Thread?, ghost c: int)
      requires Shape() && 1 <= k <= |heap| && t == heap[k - 1]
      ensures y == null ==> 2 * k > |heap|
      ensures y != null ==> Younger(Dues(heap), k, c) && y == heap[c - 1]
    {
      hide Dues;
      assert Linked(heap, k);
      c := 2 * k;
      if t.left == null {
        y := null;
      } else if t.right == null {
        y := t.left;
      } else if t.left.due < t.right.due {
        y := t.left;
      } else {
        y := t.right;
        c := 2 * k + 1;
      }
    }

    /** One step of re-establishing the order below node K. */
    method SinkStep(slot: Slot, t: Thread, ghost k: int) returns (done: bool, below: Slot, ghost c: int)
      requires Shape() && 1 <= k <= |heap| && slot == SlotOf(heap, k) && t == heap[k - 1]
      requires HeapExcept(Dues(heap), k)
      modifies this`root, this`heap, pool`left, pool`right, pool`heapIndex
      ensures Shape() && |heap| == |old(heap)| && Members() == old(Members())
      ensures done ==> Heap(Dues(heap))
      ensures !done ==> k < c <= |heap| && below == SlotOf(heap, c) && t == heap[c - 1] && HeapExcept(Dues(heap), c)
    {
      hide Dues, HeapExcept, LinkedAll, NodeAt, SlotOf, Heap;
      done, below := true, slot;
      ghost var h, dues := heap, Dues(heap);
      var y;
      y, c := YoungerChild(t, k);
      assert Dues(heap) == dues;
      if y != null && t.due > y.due {
        done := false;
        SinkMovesDown(dues, k, c);
        SetSwap(h, k - 1, c - 1);
        DuesSwap(h, k - 1, c - 1);
        below := SwapWithChild(slot, k, c, t, y);
      } else {
        SinkDone(dues, k, c);
      }
    }

    method SinkDown(slot0: Slot, t: Thread, ghost k0: int)
      requires Shape() && 1 <= k0 <= |heap| && slot0 == SlotOf(heap, k0) && t == heap[k0 - 1]
      requires HeapExcept(Dues(heap), k0)
      modifies this`root, this`heap, pool`left, pool`right, pool`heapIndex
      ensures Shape() && Heap(Dues(heap)) && |heap| == |old(heap)| && Members() == old(Members())
    {
      hide Dues, HeapExcept, LinkedAll, Heap, NodeAt, SlotOf;
      var done, slot := false, slot0;
      ghost var k := k0;
      while !done
        invariant Shape() && |heap| == |old(heap)| && Members() == old(Members())
        invariant done ==> Heap(Dues(heap))
        invariant !done ==> 1 <= k <= |heap| && slot == SlotOf(heap, k) && t == heap[k - 1] && HeapExcept(Dues(heap), k)
        decreases !done, |heap| - k
      {
        done, slot, k := SinkStep(slot, t, k);
      }
    }

    /** Deletes any thread: the last node takes its place, and moves up or down to where it belongs. */
    method HeapDelete(thread: Thread)
      requires Valid() && thread in heap
      modifies this`root, this`size, this`heap, pool`left, pool`right, pool`heapIndex
      ensures Valid() && |heap| == |old(heap)| - 1
      ensures Members() == old(Members()) - {thread}
      ensures thread.left == null && thread.right == null
    {
      hide Dues, HeapExcept, Heap;
      assert thread in pool;
      var t := UnlinkLast();
      HeapPrefix(old(Dues(heap)), |heap|);
      assert Dues(heap) == old(Dues(heap))[..|heap|];
      assert old(Members()) == Members() + {t};
      if t != thread {
        assert t in pool && thread in heap;
        ReplaceBy(thread, t);
      }
      thread.left, thread.right := null, null;
      assert Shape();
    }

    /** Puts `last`, which is no longer in the tree, in the place of `thread`. */
    method ReplaceBy(thread: Thread, last: Thread)
      requires Shape() && Heap(Dues(heap)) && thread in heap && last in pool && last !in heap
      modifies this`root, this`heap, pool`left, pool`right, pool`heapIndex
      ensures Shape() && Heap(Dues(heap)) && |heap| == |old(heap)|
      ensures thread !in heap && Members() + {thread} == old(Members()) + {last}
    {
      hide Dues, HeapExcept, Heap;
      ghost var k :| 0 <= k < |heap| && heap[k] == thread;
      assert Linked(heap, k + 1);
      last.heapIndex := thread.heapIndex;
      assert LinkedAll(heap) by {
        forall n | 1 <= n <= |heap| ensures Linked(heap, n) {
          assert old(Linked(heap, n));
        }
      }
      var slot := HeapInsert(last);
      label inserted:
      var t := Load(slot);
      t.left := thread.left;
      t.right := thread.right;
      forall n | 1 <= n <= |heap| ensures Linked(heap, n) {
        if n != k + 1 {
          assert old@inserted(Linked(heap, n));
          assert heap[n - 1] != t;
        }
      }
      SinkDown(slot, t, k + 1);
    }
    lemma RootDueFirst()
      requires Valid() && root != null
      ensures root in Members() && forall t :: t in Members() ==> root.due <= t.due
    {
      hide LinkedAll, Dues, Heap;
      forall t | t in heap ensures root.due <= t.due {
        var i :| 0 <= i < |heap| && heap[i] == t;
        RootIsFirst(Dues(heap), i + 1);
      }
    }

    lemma NoRootNoMembers()
      requires Shape() && root == null
      ensures Members() == {}
    {
    }

    // ----- The sleep queue proper -----

    /** A thread is in the tree exactly if it is flagged to be. */
    ghost predicate Flagged()
      reads this, pool
    {
      forall t :: t in pool ==> (t.onSleepQ <==> t in Members())
    }

    method AddSleepQ(thread: Thread, lastClock: int, timeout: int)
      requires Valid() && Flagged() && thread in pool && thread !in heap
      modifies this`root, this`size, this`heap, pool`left, pool`right, pool`heapIndex, thread`due, thread`onSleepQ
      ensures Valid() && Flagged() && Members() == old(Members()) + {thread}
      ensures thread.due == lastClock + timeout
    {
      hide Dues, Heap, HeapExcept;
      ghost var dues := Dues(heap);
      thread.due := lastClock + timeout;
      thread.onSleepQ := true;
      size := size + 1;
      thread.heapIndex := size;
      assert Dues(heap) == dues;
      forall n | 1 <= n <= |heap| ensures Linked(heap, n) {
        assert old(Linked(heap, n));
      }
      var slot := HeapInsert(thread);
      LastIsWhole(Dues(heap));
      forall n | 1 <= n <= |heap| ensures Linked(heap, n) {
      }
    }

    method DelSleepQ(thread: Thread)
      requires Valid() && Flagged() && thread in heap
      modifies this`root, this`size, this`heap, pool`left, pool`right, pool`heapIndex, thread`onSleepQ
      ensures Valid() && Flagged() && Members() == old(Members()) - {thread} && |heap| == |old(heap)| - 1
      ensures thread in pool
    {
      hide Dues, Heap, LinkedAll;
      assert thread in pool;
      HeapDelete(thread);
      ghost var dues := Dues(heap);
      thread.onSleepQ := false;
      assert Dues(heap) == dues;
    }
  }
  // ----- The clock -----

  ghost predicate ByDue(s: seq<Thread>)
    reads s`due
  {
    forall i, j :: 0 <= i < j < |s| ==> s[i].due <= s[j].due
  }

  /** `woken` left a queue of `members`, those due earlier before those due later; `rest` stayed. */
  ghost predicate LeftInOrder(woken: seq<Thread>, members: set<Thread>, now: int, rest: set<Thread>)
    reads woken`due, rest`due
  {
    && ByDue(woken) && Set(woken) !! rest && Set(woken) + rest == members
    && (forall t :: t in woken ==> t.due <= now)
    && (forall t, u :: t in woken && u in rest ==> t.due <= u.due)
  }

  lemma LeftOneMore(woken: seq<Thread>, members: set<Thread>, now: int, rest: set<Thread>, t: Thread)
    requires LeftInOrder(woken, members, now, rest) && t in rest && t.due <= now && forall u :: u in rest ==> t.due <= u.due
    ensures LeftInOrder(woken + [t], members, now, rest - {t})
    ensures Set(woken + [t]) == Set(woken) + {t} && t !in Set(woken) && t in members
  {
    var more := woken + [t];
    assert forall u :: u in more <==> u in woken || u == t;
  }

  /** The woken threads are runnable, and know it if they waited on a condition variable. */
  ghost predicate Noted(woken: set<Thread>, before: map<Thread, (State, bool)>)
    reads before.Keys`state, before.Keys`timedOut
  {
    forall t :: t in before ==>
      if t in woken then t.state == Runnable && t.timedOut == (before[t].1 || before[t].0 == CondWait)
      else (t.state, t.timedOut) == before[t]
  }

  class VirtualProcessor {
    const sleepQ: SleepQueue
    var runQ: seq<Thread>
    var lastClock: int

    ghost predicate Valid()
      reads this, sleepQ, sleepQ.heap, sleepQ.pool
    {
      sleepQ.Valid() && sleepQ.Flagged()
    }

    constructor (threads: set<Thread>, now: int)
      requires forall t :: t in threads ==> !t.onSleepQ
      ensures Valid() && runQ == [] && lastClock == now && sleepQ.pool == threads && sleepQ.heap == []
    {
      sleepQ := new SleepQueue(threads);
      runQ, lastClock := [], now;
    }

    /** Makes the thread that is due first runnable. */
    method WakeFirst() returns (thread: Thread)
      requires Valid() && sleepQ.root != null
      modifies this`runQ, sleepQ`root, sleepQ`size, sleepQ`heap
      modifies sleepQ.pool`left, sleepQ.pool`right, sleepQ.pool`heapIndex
      modifies sleepQ.root`onSleepQ, sleepQ.root`state, sleepQ.root`timedOut
      ensures Valid() && thread == old(sleepQ.root) && thread in old(sleepQ.Members()) && thread in sleepQ.pool
      ensures runQ == old(runQ) + [thread]
      ensures sleepQ.Members() == old(sleepQ.Members()) - {thread} && |sleepQ.heap| == |old(sleepQ.heap)| - 1
      ensures thread.state == Runnable && thread.timedOut == (old(sleepQ.root.timedOut) || old(sleepQ.root.state) == CondWait)
    {
      hide LinkedAll, Dues, Heap;
      sleepQ.RootDueFirst();
      thread := sleepQ.root;
      sleepQ.DelSleepQ(thread);
      ghost var h, dues := sleepQ.heap, Dues(sleepQ.heap);
      if thread.state == CondWait {
        thread.timedOut := true;
      }
      thread.state := Runnable;
      runQ := runQ + [thread];
      assert Dues(h) == dues;
    }

    /** `woken` has left the queue that held `members`, earliest first; `before` tells state and
        time-out flag of every thread when the check began. */
    ghost predicate Woken(woken: seq<Thread>, members: set<Thread>, now: int, before: map<Thread, (State, bool)>)
      reads this, sleepQ, sleepQ.pool, sleepQ.heap, woken, before.Keys
    {
      && LeftInOrder(woken, members, now, sleepQ.Members())
      && members <= sleepQ.pool == before.Keys
      && Noted(Set(woken), before)
    }

    /** One turn of the clock check. */
    method WakeNext(now: int, ghost woken: seq<Thread>, ghost members: set<Thread>, ghost before: map<Thread, (State, bool)>)
      returns (thread: Thread)
      requires Valid() && sleepQ.root != null && sleepQ.root.due <= now && Woken(woken, members, now, before)
      modifies this`runQ, sleepQ`root, sleepQ`size, sleepQ`heap
      modifies sleepQ.pool`left, sleepQ.pool`right, sleepQ.pool`heapIndex
      modifies sleepQ.pool`onSleepQ, sleepQ.pool`state, sleepQ.pool`timedOut
      ensures Valid() && runQ == old(runQ) + [thread] && |sleepQ.heap| == |old(sleepQ.heap)| - 1
      ensures Woken(woken + [thread], members, now, before)
    {
      hide LinkedAll, Dues, Heap, NodeAt, LeftInOrder;
      sleepQ.RootDueFirst();
      LeftOneMore(woken, members, now, sleepQ.Members(), sleepQ.root);
      thread := WakeFirst();
    }

    /** Moves to the run queue exactly the sleepers that are due, in the order they are due, and
        tells those that wait on a condition variable that they timed out. */
    method CheckClock(now: int) returns (ghost woken: seq<Thread>)
      requires Valid()
      modifies this`runQ, this`lastClock, sleepQ`root, sleepQ`size, sleepQ`heap
      modifies sleepQ.pool`left, sleepQ.pool`right, sleepQ.pool`heapIndex
      modifies sleepQ.pool`onSleepQ, sleepQ.pool`state, sleepQ.pool`timedOut
      ensures Valid() && lastClock == now
      ensures runQ == old(runQ) + woken && ByDue(woken)
      ensures Set(woken) == set t | t in old(sleepQ.Members()) && t.due <= now
      ensures sleepQ.Members() == set t | t in old(sleepQ.Members()) && t.due > now
      ensures |woken| + |sleepQ.heap| == |old(sleepQ.heap)|
      ensures forall t :: t in sleepQ.pool ==>
                if t in Set(woken) then t.state == Runnable && t.timedOut == (old(t.timedOut) || old(t.state) == CondWait)
                else t.state == old(t.state) && t.timedOut == old(t.timedOut)
    {
      hide LinkedAll, Dues, Heap, NodeAt, Woken;
      ghost var members := sleepQ.Members();
      ghost var before := map t | t in sleepQ.pool :: (t.state, t.timedOut);
      lastClock := now;
      NoneWoken(members, now, before);
      woken := WakeExpired(now, members, before);
      AllWoken(woken, members, now, before);
    }

    /** The loop of the clock check. */
    method WakeExpired(now: int, ghost members: set<Thread>, ghost before: map<Thread, (State, bool)>)
      returns (ghost woken: seq<Thread>)
      requires Valid() && Woken([], members, now, before)
      modifies this`runQ, sleepQ`root, sleepQ`size, sleepQ`heap
      modifies sleepQ.pool`left, sleepQ.pool`right, sleepQ.pool`heapIndex
      modifies sleepQ.pool`onSleepQ, sleepQ.pool`state, sleepQ.pool`timedOut
      ensures Valid() && Woken(woken, members, now, before) && runQ == old(runQ) + woken
      ensures |woken| + |sleepQ.heap| == |old(sleepQ.heap)|
      ensures forall t :: t in sleepQ.Members() ==> t.due > now
    {
      hide LinkedAll, Dues, Heap, NodeAt, Woken;
      woken := [];
      while sleepQ.root != null
        invariant Valid() && runQ == old(runQ) + woken
        invariant Woken(woken, members, now, before)
        invariant |woken| + |sleepQ.heap| == |old(sleepQ.heap)|
        decreases |sleepQ.heap|
      {
        sleepQ.RootDueFirst();
        if sleepQ.root.due > now {
          return;
        }
        var thread := WakeNext(now, woken, members, before);
        woken := woken + [thread];
      }
      sleepQ.NoRootNoMembers();
    }

    lemma NoneWoken(members: set<Thread>, now: int, before: map<Thread, (State, bool)>)
      requires Valid() && members == sleepQ.Members()
      requires before == map t | t in sleepQ.pool :: (t.state, t.timedOut)
      ensures Woken([], members, now, before)
    {
      assert before.Keys == sleepQ.pool;
    }

    lemma AllWoken(woken: seq<Thread>, members: set<Thread>, now: int, before: map<Thread, (State, bool)>)
      requires Woken(woken, members, now, before)
      requires forall t :: t in sleepQ.Members() ==> t.due > now
      ensures ByDue(woken)
      ensures Set(woken) == set t | t in members && t.due <= now
      ensures sleepQ.Members() == set t | t in members && t.due > now
      ensures forall t :: t in sleepQ.pool ==>
                && t in before
                && if t in Set(woken) then t.state == Runnable && t.timedOut == (before[t].1 || before[t].0 == CondWait)
                   else (t.state, t.timedOut) == before[t]
    {
    }
  }
}
