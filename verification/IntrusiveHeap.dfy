/** The intrusive binary heap of include/crab/intrusive_heap.hpp: a max-heap of
    pointers where every element stores its own position, so that an arbitrary
    element can be erased. Position 0 means "not in a heap". */
module IntrusiveHeap {

  // ---------- the order ----------

  /** The requirement on the comparison of the heap, as for std::less. */
  ghost predicate StrictWeakOrder<T(!new)>(less: (T, T) -> bool) {
    && (forall x :: !less(x, x))
    && (forall x, y, z :: less(x, y) && less(y, z) ==> less(x, z))
    && (forall x, y, z :: Equivalent(less, x, y) && Equivalent(less, y, z) ==> Equivalent(less, x, z))
  }

  ghost predicate Equivalent<T>(less: (T, T) -> bool, x: T, y: T) {
    !less(x, y) && !less(y, x)
  }

  lemma NotLessIsTransitive<T(!new)>(less: (T, T) -> bool, x: T, y: T, z: T)
    requires StrictWeakOrder(less)
    requires !less(x, y) && !less(y, z)
    ensures !less(x, z)
  {
    assert less(y, x) && less(x, z) ==> less(y, z);
    assert less(x, z) && less(z, y) ==> less(x, y);
    assert Equivalent(less, x, y) && Equivalent(less, y, z) ==> Equivalent(less, x, z);
  }

  lemma LessIsAsymmetric<T(!new)>(less: (T, T) -> bool, x: T, y: T)
    requires StrictWeakOrder(less)
    ensures less(x, y) ==> !less(y, x)
  {
    assert less(x, y) && less(y, x) ==> less(x, x);
  }

  // ---------- heap order on sequences, with the positions 1, 2, ... of the source ----------

  ghost predicate Edge<T>(less: (T, T) -> bool, v: seq<T>, parent: int, child: int)
    requires 1 <= parent <= |v| && 1 <= child <= |v|
  {
    !less(v[parent - 1], v[child - 1])
  }

  /** Heap order on every parent and child, except on the edges the two flags switch off at `hole`:
      the one to its parent, the ones to its children. */
  ghost predicate OrderedBut<T>(less: (T, T) -> bool, v: seq<T>, hole: int, up: bool, down: bool) {
    && (forall j :: 2 <= j <= |v| && !(up && j == hole) && !(down && j / 2 == hole) ==> Edge(less, v, j / 2, j))
    && (forall j :: 2 <= j <= |v| && j / 2 == hole && hole >= 2 ==> Edge(less, v, hole / 2, j))
  }

  ghost predicate Ordered<T>(less: (T, T) -> bool, v: seq<T>) {
    forall j :: 2 <= j <= |v| ==> Edge(less, v, j / 2, j)
  }

  /** In a heap the first element is not less than any other. */
  lemma {:induction false} FrontIsExtremal<T(!new)>(less: (T, T) -> bool, v: seq<T>, j: nat)
    requires StrictWeakOrder(less) && Ordered(less, v)
    requires 1 <= j <= |v|
    ensures !less(v[0], v[j - 1])
  {
    if j > 1 {
      FrontIsExtremal(less, v, j / 2);
      assert Edge(less, v, j / 2, j);
      NotLessIsTransitive(less, v[0], v[j / 2 - 1], v[j - 1]);
    }
  }

  ghost function ElementsOf<X>(s: seq<X>): set<X> {
    set x | x in s
  }

  function Swap<X>(s: seq<X>, i: nat, j: nat): (r: seq<X>)
    requires i < |s| && j < |s|
  {
    s[i := s[j]][j := s[i]]
  }

  lemma SwapKeepsElements<X>(s: seq<X>, i: nat, j: nat)
    requires i < |s| && j < |s|
    ensures ElementsOf(Swap(s, i, j)) == ElementsOf(s)
  {
    var r := Swap(s, i, j);
    assert forall k :: 0 <= k < |s| ==> s[k] == r[if k == i then j else if k == j then i else k];
    assert forall k :: 0 <= k < |s| ==> r[k] == s[if k == i then j else if k == j then i else k];
  }

  ghost predicate Distinct<X>(s: seq<X>) {
    forall i, j :: 0 <= i < j < |s| ==> s[i] != s[j]
  }

  /** One iteration of move_up: the hole climbs over a parent that is not greater. */
  lemma SwapUp<T(!new)>(less: (T, T) -> bool, v: seq<T>, hole: nat)
    requires StrictWeakOrder(less)
    requires 2 <= hole <= |v|
    requires OrderedBut(less, v, hole, true, false)
    requires !less(v[hole - 1], v[hole / 2 - 1])
    ensures OrderedBut(less, Swap(v, hole - 1, hole / 2 - 1), hole / 2, true, false)
  {
    var p := hole / 2;
    var w := Swap(v, hole - 1, p - 1);
    forall j | 2 <= j <= |w| && j != p
      ensures Edge(less, w, j / 2, j)
    {
      if j != hole {
        assert Edge(less, v, j / 2, j);
        if j / 2 == hole {
          assert Edge(less, v, hole / 2, j);
        } else if j / 2 == p {
          NotLessIsTransitive(less, v[hole - 1], v[p - 1], v[j - 1]);
        }
      }
    }
    forall j | 2 <= j <= |w| && j / 2 == p && p >= 2
      ensures Edge(less, w, p / 2, j)
    {
      assert Edge(less, v, p / 2, p);
      if j != hole {
        assert Edge(less, v, p, j);
        NotLessIsTransitive(less, v[p / 2 - 1], v[p - 1], v[j - 1]);
      }
    }
  }

  /** One iteration of move_down: the hole sinks below its greater child. */
  lemma SwapDown<T(!new)>(less: (T, T) -> bool, v: seq<T>, hole: nat, child: nat)
    requires StrictWeakOrder(less)
    requires 1 <= hole && child / 2 == hole && child <= |v|
    requires OrderedBut(less, v, hole, false, true)
    requires !less(v[child - 1], v[hole - 1])
    requires SubtreeTop(less, v, hole, child)
    ensures OrderedBut(less, Swap(v, hole - 1, child - 1), child, false, true)
  {
    var w := Swap(v, hole - 1, child - 1);
    forall j | 2 <= j <= |w| && j / 2 != child
      ensures Edge(less, w, j / 2, j)
    {
      if j / 2 == hole {
        assert Edge(less, v, child, j);
      } else if j == hole {
        assert Edge(less, v, hole / 2, child);
      } else {
        assert Edge(less, v, j / 2, j);
      }
    }
    forall j | 2 <= j <= |w| && j / 2 == child
      ensures Edge(less, w, child / 2, j)
    {
      assert Edge(less, v, child, j);
    }
  }

  /** The exit test of move_up: the element in the hole is below its parent. */
  lemma UpIsDone<T(!new)>(less: (T, T) -> bool, v: seq<T>, hole: nat)
    requires StrictWeakOrder(less)
    requires 1 <= hole <= |v|
    requires OrderedBut(less, v, hole, true, false)
    requires hole == 1 || less(v[hole - 1], v[hole / 2 - 1])
    ensures Ordered(less, v)
  {
    if hole >= 2 {
      LessIsAsymmetric(less, v[hole - 1], v[hole / 2 - 1]);
    }
  }

  /** The first exit test of move_down: the hole has no children. */
  lemma LeafIsDone<T(!new)>(less: (T, T) -> bool, v: seq<T>, hole: nat)
    requires 1 <= hole <= |v| < hole * 2
    requires OrderedBut(less, v, hole, false, true)
    ensures Ordered(less, v)
  {}

  /** The child move_down picks is not below the other one; if it is below the hole, the heap is in order. */
  lemma GreaterChild<T(!new)>(less: (T, T) -> bool, v: seq<T>, hole: nat, child: nat)
    requires StrictWeakOrder(less)
    requires 1 <= hole && hole * 2 <= |v|
    requires child == if hole * 2 + 1 <= |v| && less(v[hole * 2 - 1], v[hole * 2]) then hole * 2 + 1 else hole * 2
    requires OrderedBut(less, v, hole, false, true)
    ensures SubtreeTop(less, v, hole, child)
    ensures less(v[child - 1], v[hole - 1]) ==> Ordered(less, v)
  {
    LessIsAsymmetric(less, v[child - 1], v[hole - 1]);
    forall j | 2 <= j <= |v| && j / 2 == hole
      ensures Edge(less, v, child, j)
      ensures less(v[child - 1], v[hole - 1]) ==> Edge(less, v, hole, j)
    {
      assert j == hole * 2 || j == hole * 2 + 1;
      LessIsAsymmetric(less, v[hole * 2 - 1], v[child - 1]);
      if !less(v[hole - 1], v[child - 1]) {
        NotLessIsTransitive(less, v[hole - 1], v[child - 1], v[j - 1]);
      }
    }
  }

  /** No child of `hole` is greater than `child`. */
  ghost predicate SubtreeTop<T>(less: (T, T) -> bool, v: seq<T>, hole: int, child: int)
    requires 1 <= child <= |v|
  {
    forall j :: 2 <= j <= |v| && j / 2 == hole ==> Edge(less, v, child, j)
  }

  /** Out of order at most around `hole`, and only in the direction its parent tells. */
  ghost predicate OrderedAround<T>(less: (T, T) -> bool, v: seq<T>, hole: int)
    requires 1 <= hole <= |v|
  {
    if hole >= 2 && !less(v[hole - 1], v[hole / 2 - 1])
    then OrderedBut(less, v, hole, true, false)
    else OrderedBut(less, v, hole, false, true)
  }

  /** Writing any value into a hole of a heap leaves all but the edges at the hole in order. */
  lemma ReplaceAt<T(!new)>(less: (T, T) -> bool, v: seq<T>, hole: nat, x: T)
    requires StrictWeakOrder(less) && Ordered(less, v)
    requires 1 <= hole <= |v|
    ensures OrderedAround(less, v[hole - 1 := x], hole)
  {
    var w := v[hole - 1 := x];
    forall j | 2 <= j <= |v| && j != hole && j / 2 != hole
      ensures Edge(less, w, j / 2, j)
    {
      assert Edge(less, v, j / 2, j);
    }
    forall j | 2 <= j <= |v| && j / 2 == hole
      ensures hole >= 2 ==> Edge(less, w, hole / 2, j)
      ensures hole >= 2 && !less(x, w[hole / 2 - 1]) ==> Edge(less, w, hole, j)
    {
      assert Edge(less, v, hole, j);
      if hole >= 2 {
        assert Edge(less, v, hole / 2, hole);
        NotLessIsTransitive(less, v[hole / 2 - 1], v[hole - 1], v[j - 1]);
        if !less(x, w[hole / 2 - 1]) {
          NotLessIsTransitive(less, x, v[hole / 2 - 1], v[j - 1]);
        }
      }
    }
    if hole >= 2 {
      LessIsAsymmetric(less, x, w[hole / 2 - 1]);
    }
  }

  /** at(ind) = storage.back(); storage.pop_back(); */
  function LastTo<X>(s: seq<X>, ind: nat): seq<X>
    requires 1 <= ind <= |s|
  {
    s[ind - 1 := s[|s| - 1]][..|s| - 1]
  }

  lemma LastToKeepsOrder<T(!new)>(less: (T, T) -> bool, v: seq<T>, ind: nat)
    requires StrictWeakOrder(less) && Ordered(less, v)
    requires 1 <= ind <= |v|
    ensures var w := LastTo(v, ind);
      if ind <= |w| then OrderedAround(less, w, ind) else Ordered(less, w)
  {
    var shorter := v[..|v| - 1];
    forall j | 2 <= j <= |shorter|
      ensures Edge(less, shorter, j / 2, j)
    {
      assert Edge(less, v, j / 2, j);
    }
    if ind <= |shorter| {
      ReplaceAt(less, shorter, ind, v[|v| - 1]);
      assert LastTo(v, ind) == shorter[ind - 1 := v[|v| - 1]];
    } else {
      assert LastTo(v, ind) == shorter;
    }
  }

  lemma LastToKeepsElements<X>(s: seq<X>, ind: nat)
    requires Distinct(s) && 1 <= ind <= |s|
    ensures Distinct(LastTo(s, ind))
    ensures ElementsOf(LastTo(s, ind)) == ElementsOf(s) - {s[ind - 1]}
  {
    var w := LastTo(s, ind);
    forall x | x in s && x != s[ind - 1]
      ensures x in w
    {
      var k :| 0 <= k < |s| && s[k] == x;
      assert w[if k == |s| - 1 then ind - 1 else k] == x;
    }
  }

  // ---------- the elements and the heap ----------

  /** An element with its IntrusiveHeapIndex member. */
  class Node<T> {
    var heapIndex: nat
    var value: T

    constructor (value: T)
      ensures heapIndex == 0 && this.value == value
    {
      heapIndex := 0;
      this.value := value;
    }

    predicate InHeap()
      reads this
    {
      heapIndex != 0
    }
  }

  ghost function Values<T>(s: seq<Node<T>>): (v: seq<T>)
    reads set n | n in s
    ensures Valued(s, v)
  {
    seq(|s|, i requires 0 <= i < |s| reads set n | n in s => s[i].value)
  }

  /** The same as v == Values(s), without mentioning the function. */
  ghost predicate Valued<T>(s: seq<Node<T>>, v: seq<T>)
    reads (set n | n in s)`value
  {
    |v| == |s| && forall i :: 0 <= i < |s| ==> s[i].value == v[i]
  }

  lemma ValuedIsValues<T>(s: seq<Node<T>>, v: seq<T>)
    requires Valued(s, v)
    ensures v == Values(s)
  {}

  class Heap<T(!new)> {
    /** The vector `storage` of the source without its null entry at position 0. */
    var storage: seq<Node<T>>
    ghost var elements: set<Node<T>>
    const less: (T, T) -> bool


    /** Every stored index is the position, except perhaps the one at `hole`. */
    ghost predicate IndexedBut(hole: int)
      reads this, elements
    {
      && StrictWeakOrder(less)
      && elements == ElementsOf(storage)
      && Distinct(storage)
      && forall i :: 0 <= i < |storage| && i + 1 != hole ==> storage[i].heapIndex == i + 1
    }

    ghost predicate Valid()
      reads this, elements
    {
      IndexedBut(0) && Ordered(less, Values(storage))
    }

    constructor (less: (T, T) -> bool)
      requires StrictWeakOrder(less)
      ensures Valid() && elements == {} && this.less == less && storage == []
    {
      storage := [];
      elements := {};
      this.less := less;
    }

    predicate Empty()
      requires Valid()
      reads this, elements
      ensures Empty() <==> elements == {}
    {
      assert storage != [] ==> storage[0] in elements;
      storage == []
    }

    function At(ind: nat): Node<T>
      requires 1 <= ind <= |storage|
      reads this
    {
      storage[ind - 1]
    }

    /** The element no other one is greater than. */
    method Front() returns (front: Node<T>)
      requires Valid() && !Empty()
      ensures front in elements && front == storage[0]
      ensures forall n :: n in elements ==> !less(front.value, n.value)
    {
      front := At(1);
      forall n | n in elements
        ensures !less(front.value, n.value)
      {
        var i :| 0 <= i < |storage| && storage[i] == n;
        FrontIsExtremal(less, Values(storage), i + 1);
      }
    }

    /** Writes a value that compares like the old one, which the order does not notice. */
    method Replace(node: Node<T>, value: T)
      requires Valid() && node in elements
      requires forall x: T :: less(x, value) == less(x, node.value) && less(value, x) == less(node.value, x)
      modifies node`value
      ensures Valid() && node.value == value
    {
      ghost var before := Values(storage);
      node.value := value;
      ghost var after := Values(storage);
      forall j | 2 <= j <= |after|
        ensures Edge(less, after, j / 2, j)
      {
        assert Edge(less, before, j / 2, j);
      }
    }

    /** Adds the node, or does nothing when it says it is in a heap already, be it this one or another. */
    method Insert(node: Node<T>) returns (done: bool)
      requires Valid()
      modifies this`storage, this`elements, (elements + {node})`heapIndex
      ensures Valid()
      ensures done == (old(node.heapIndex) == 0)
      ensures done ==> node !in old(elements)
      ensures elements == if done then old(elements) + {node} else old(elements)
      ensures !done ==> storage == old(storage) && node.heapIndex == old(node.heapIndex)
    {
      if node.heapIndex != 0 {
        return false;
      }
      ghost var before := Values(storage);
      ghost var after := before + [node.value];
      forall j | 2 <= j < |after|
        ensures Edge(less, after, j / 2, j)
      {
        assert Edge(less, before, j / 2, j);
      }
      storage := storage + [node];
      elements := elements + {node};
      MoveUp(|storage|, after);
      return true;
    }

    /** Removes the node wherever it is, or does nothing when it is not in a heap. */
    method Erase(node: Node<T>) returns (count: nat)
      requires Valid()
      requires node.heapIndex == 0 <==> node !in elements
      modifies this`storage, this`elements, (elements + {node})`heapIndex
      ensures Valid()
      ensures count == if node in old(elements) then 1 else 0
      ensures elements == old(elements) - {node}
      ensures node.heapIndex == 0
      ensures count == 0 ==> storage == old(storage)
    {
      var ind := node.heapIndex;
      if ind == 0 {
        return 0;
      }
      IndexIsPlace(node);
      EraseAt(ind);
      return 1;
    }

    lemma IndexIsPlace(node: Node<T>)
      requires Valid() && node in elements
      ensures 1 <= node.heapIndex <= |storage| && At(node.heapIndex) == node
    {
      var i :| 0 <= i < |storage| && storage[i] == node;
    }

    /** The element at a place is removed. */
    method EraseAt(ind: nat)
      requires Valid() && 1 <= ind <= |storage|
      modifies this`storage, this`elements, elements`heapIndex
      ensures Valid() && elements == old(elements) - {old(At(ind))}
      ensures old(At(ind)).heapIndex == 0
    {
      ghost var before := Values(storage);
      At(ind).heapIndex := 0;
      LastToKeepsOrder(less, before, ind);
      TakeLast(ind, before);
      Refit(ind, LastTo(before, ind));
    }

    /** What stands at the place now is brought to its own. */
    method Refit(ind: nat, ghost values: seq<T>)
      requires 1 <= ind <= |storage| + 1
      requires IndexedBut(ind)
      requires Valued(storage, values)
      requires if ind <= |storage| then OrderedAround(less, values, ind) else Ordered(less, values)
      modifies this`storage, elements`heapIndex
      ensures Valid()
    {
      if ind <= |storage| {
        Adjust(ind, values);
      } else {
        ValuedIsValues(storage, values);
      }
    }

    /** Removes the front. */
    method PopFront()
      requires Valid() && !Empty()
      modifies this`storage, this`elements, elements`heapIndex
      ensures Valid()
      ensures elements == old(elements) - {old(storage[0])}
      ensures old(storage[0]).heapIndex == 0
    {
      var ind := At(1).heapIndex;
      ghost var before := Values(storage);
      At(1).heapIndex := 0;
      LastToKeepsOrder(less, before, 1);
      TakeLast(1, before);
      if 1 <= |storage| {
        MoveDown(1, LastTo(before, 1));
      }
    }

    /** The step Erase and PopFront share: the last element takes the freed place. */
    method TakeLast(ind: nat, ghost before: seq<T>)
      requires 1 <= ind <= |storage|
      requires IndexedBut(ind) && Valued(storage, before)
      modifies this`storage, this`elements
      ensures |storage| == |old(storage)| - 1
      ensures IndexedBut(ind)
      ensures Valued(storage, LastTo(before, ind))
      ensures elements == old(elements) - {old(storage[ind - 1])}
    {
      LastToKeepsElements(storage, ind);
      elements := elements - {At(ind)};
      storage := LastTo(storage, ind);
    }

    method Adjust(ind: nat, ghost values: seq<T>)
      requires 1 <= ind <= |storage|
      requires IndexedBut(ind)
      requires Valued(storage, values) && OrderedAround(less, values, ind)
      modifies this`storage, elements`heapIndex
      ensures Valid()
    {
      if ind > 1 && !less(At(ind).value, At(ind / 2).value) {
        MoveUp(ind, values);
      } else {
        MoveDown(ind, values);
      }
    }

    /** The state inside a sift loop: `full` is the storage with `data` put back into the hole,
        `v` its values, and only the hole has no index yet. */
    ghost predicate Holed(full: seq<Node<T>>, v: seq<T>, ind: int, data: Node<T>)
      reads this, (set n | n in full)`heapIndex, (set n | n in full)`value
    {
      && 1 <= ind <= |storage| == |full|
      && full == storage[ind - 1 := data]
      && Distinct(full)
      && Valued(full, v)
      && forall i :: 0 <= i < |full| && i + 1 != ind ==> full[i].heapIndex == i + 1
    }

    lemma ValueAt(full: seq<Node<T>>, v: seq<T>, ind: int, data: Node<T>, j: int)
      requires Holed(full, v, ind, data)
      requires 1 <= j <= |storage|
      ensures |v| == |storage|
      ensures data.value == v[ind - 1]
      ensures j != ind ==> At(j).value == v[j - 1]
    {
      assert j != ind ==> full[j - 1] == At(j);
      assert full[ind - 1] == data;
    }

    lemma PickedChild(full: seq<Node<T>>, v: seq<T>, ind: int, data: Node<T>, child: int)
      requires StrictWeakOrder(less) && Holed(full, v, ind, data) && OrderedBut(less, v, ind, false, true)
      requires ind * 2 <= |storage|
      requires child == if ind * 2 + 1 <= |storage| && less(At(ind * 2).value, At(ind * 2 + 1).value)
                        then ind * 2 + 1 else ind * 2
      ensures SubtreeTop(less, v, ind, child)
      ensures if less(At(child).value, data.value) then Ordered(less, v) else !less(v[child - 1], v[ind - 1])
    {
      ValueAt(full, v, ind, data, ind * 2);
      if ind * 2 < |storage| {
        ValueAt(full, v, ind, data, ind * 2 + 1);
      }
      GreaterChild(less, v, ind, child);
    }

    /** The child to go on with. */
    method PickChild(ind: nat, data: Node<T>, ghost full: seq<Node<T>>, ghost v: seq<T>) returns (lc: nat)
      requires StrictWeakOrder(less) && Holed(full, v, ind, data) && OrderedBut(less, v, ind, false, true)
      requires ind * 2 <= |storage| && ElementsOf(full) == elements
      ensures ind * 2 <= lc <= ind * 2 + 1 && lc <= |storage| && SubtreeTop(less, v, ind, lc)
      ensures At(lc) in elements
      ensures if less(At(lc).value, data.value) then Ordered(less, v) else !less(v[lc - 1], v[ind - 1])
    {
      lc := ind * 2;
      if lc + 1 < |storage| + 1 && less(At(lc).value, At(lc + 1).value) {
        lc := lc + 1;
      }
      PickedChild(full, v, ind, data, lc);
      assert At(lc) == full[lc - 1];
    }

    /** The assignment both sift loops repeat: the element at `from` moves into the hole. */
    method Shift(ind: nat, from: nat, data: Node<T>, ghost full: seq<Node<T>>, ghost v: seq<T>)
      returns (ghost next: seq<Node<T>>, ghost w: seq<T>)
      requires Holed(full, v, ind, data)
      requires 1 <= from <= |storage| && from != ind
      modifies this`storage, At(from)`heapIndex
      ensures w == Swap(v, ind - 1, from - 1)
      ensures Holed(next, w, from, data)
      ensures ElementsOf(next) == ElementsOf(full)
      ensures |storage| == |old(storage)|
    {
      next, w := Swap(full, ind - 1, from - 1), Swap(v, ind - 1, from - 1);
      SwapKeepsElements(full, ind - 1, from - 1);
      storage := storage[ind - 1 := At(from)];
      At(ind).heapIndex := ind;
    }

    /** The end of both sift loops. */
    method Fill(ind: nat, data: Node<T>, ghost full: seq<Node<T>>, ghost v: seq<T>)
      requires Holed(full, v, ind, data)
      requires StrictWeakOrder(less) && Ordered(less, v)
      requires ElementsOf(full) == elements
      modifies this`storage, data`heapIndex
      ensures Valid()
    {
      storage := storage[ind - 1 := data];
      At(ind).heapIndex := ind;
      ValuedIsValues(storage, v);
    }

    /** Whether the element in hand stays below the place p, if there is one. */
    method FitsBelow(p: nat, ind: nat, data: Node<T>, ghost full: seq<Node<T>>, ghost v: seq<T>) returns (fits: bool)
      requires Holed(full, v, ind, data) && p == ind / 2 && ElementsOf(full) == elements
      ensures |v| == |storage|
      ensures !fits ==> p >= 1 && At(p) in elements
      ensures if fits then ind == 1 || less(v[ind - 1], v[p - 1]) else p >= 1 && !less(v[ind - 1], v[p - 1])
    {
      if p == 0 {
        return true;
      }
      ValueAt(full, v, ind, data, p);
      assert At(p) == full[p - 1];
      fits := less(data.value, At(p).value);
    }

    /** Restores a heap that is out of order only between `start` and its parent.
        The loop carries a hole: `data` is written back once, at the end. */
    method MoveUp(start: nat, ghost values: seq<T>)
      requires 1 <= start <= |storage|
      requires IndexedBut(start)
      requires Valued(storage, values) && OrderedBut(less, values, start, true, false)
      modifies this`storage, elements`heapIndex
      ensures Valid()
    {
      var ind := start;
      var data := At(ind);
      ghost var full, v := storage, values;
      while true
        invariant Holed(full, v, ind, data) && |v| == |storage|
        invariant ElementsOf(full) == elements
        invariant OrderedBut(less, v, ind, true, false)
        decreases ind
      {
        var p := ind / 2;
        var fits := FitsBelow(p, ind, data, full, v);
        if fits {
          break;
        }
        SwapUp(less, v, ind);
        full, v := Shift(ind, p, data, full, v);
        ind := p;
      }
      UpIsDone(less, v, ind);
      Fill(ind, data, full, v);
    }

    /** Restores a heap that is out of order only between `start` and its children. */
    method MoveDown(start: nat, ghost values: seq<T>)
      requires 1 <= start <= |storage|
      requires IndexedBut(start)
      requires Valued(storage, values) && OrderedBut(less, values, start, false, true)
      modifies this`storage, elements`heapIndex
      ensures Valid()
    {
      var size := |storage| + 1;
      var ind := start;
      var data := At(ind);
      ghost var full, v := storage, values;
      while true
        invariant Holed(full, v, ind, data) && |v| == |storage| == size - 1
        invariant ElementsOf(full) == elements
        invariant OrderedBut(less, v, ind, false, true)
        decreases size - ind
      {
        if ind * 2 >= size {
          LeafIsDone(less, v, ind);
          break;
        }
        var lc := PickChild(ind, data, full, v);
        if less(At(lc).value, data.value) {
          break;
        }
        SwapDown(less, v, ind, lc);
        full, v := Shift(ind, lc, data, full, v);
        ind := lc;
      }
      Fill(ind, data, full, v);
    }
  }
}
