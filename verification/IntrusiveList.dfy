/** The circular list of include/crab/intrusive_list.hpp: a node leaves its list without a reference to it. */
module IntrusiveList {

  function Without<T>(s: seq<T>, i: nat): seq<T>
    requires i < |s|
  {
    s[..i] + s[i + 1..]
  }

  function With<T>(s: seq<T>, i: nat, x: T): seq<T>
    requires i <= |s|
  {
    s[..i] + [x] + s[i..]
  }

  /** The place behind i in a ring of n. */
  function Succ(i: nat, n: nat): (j: nat)
    requires i < n
    ensures j < n
  {
    if i + 1 == n then 0 else i + 1
  }

  /** Where the element k of a row without its element i came from. */
  function Origin(k: nat, i: nat): nat {
    if k < i then k else k + 1
  }

  lemma SuccWithout<T>(s: seq<T>, i: nat, k: nat)
    requires 0 < i < |s| && k < |s| - 1
    ensures var t := Without(s, i);
      && t[k] == s[Origin(k, i)]
      && t[Succ(k, |t|)] == if k == i - 1 then s[Succ(i, |s|)] else s[Succ(Origin(k, i), |s|)]
  {}

  ghost predicate Distinct<T>(s: seq<T>) {
    forall i, j :: 0 <= i < j < |s| ==> s[i] != s[j]
  }

  lemma DistinctWithout<T>(s: seq<T>, i: nat)
    requires Distinct(s) && i < |s|
    ensures Distinct(Without(s, i)) && s[i] !in Without(s, i)
  {
    var t := Without(s, i);
    forall k | 0 <= k < |t|
      ensures t[k] == s[Origin(k, i)]
    {}
  }

  lemma SuccWith<T>(s: seq<T>, i: nat, x: T, k: nat)
    requires 0 < i <= |s| && k <= |s|
    ensures var t := With(s, i, x);
      && t[k] == (if k < i then s[k] else if k == i then x else s[k - 1])
      && t[Succ(k, |t|)] ==
           if k == i - 1 then x else if k == i then s[Succ(i - 1, |s|)] else s[Succ(if k < i then k else k - 1, |s|)]
  {}

  lemma DistinctWith<T>(s: seq<T>, i: nat, x: T)
    requires Distinct(s) && i <= |s| && x !in s
    ensures Distinct(With(s, i, x))
  {
    var t := With(s, i, x);
    forall k | 0 <= k < |t|
      ensures t[k] == if k < i then s[k] else if k == i then x else s[k - 1]
    {}
  }

  lemma WithTail<T>(s: seq<T>, i: nat, x: T)
    requires i < |s|
    ensures With(s, i + 1, x)[1..] == With(s[1..], i, x)
  {}

  /** IntrusiveNode; it stands for the object it is embedded in. */
  class Node {
    var next: Node?
    var prev: Node?
    /** The list the node is in. */
    ghost var owner: List?

    constructor ()
      ensures !InList() && owner == null && Proper()
    {
      next, prev, owner := null, null, null;
    }

    predicate InList()
      reads this
    {
      prev != null
    }

    /** In no list, or an element of a proper one. */
    ghost predicate Proper()
      reads this, owner, if owner == null then [] else owner.ring
    {
      if owner == null then prev == null && next == null
      else owner.Valid() && exists i :: 0 < i < |owner.ring| && owner.ring[i] == this
    }

    /** in_list() tells the truth. */
    lemma LinkedIfOwned()
      requires Proper()
      ensures InList() <==> owner != null
      ensures InList() <==> next != null
    {
      if owner != null {
        var i :| 0 < i < |owner.ring| && owner.ring[i] == this;
        assert Linked(owner.ring[i - 1], owner.ring[Succ(i - 1, |owner.ring|)]);
        assert Linked(owner.ring[i], owner.ring[Succ(i, |owner.ring|)]);
      }
    }

    /** The node is taken out of whatever list it is in: exactly this node, and no other one moves. */
    method Unlink()
      requires Proper()
      modifies this, next, prev, owner
      ensures !InList() && owner == null && Proper()
      ensures old(owner) != null ==>
        (old(owner).Valid() && exists i :: IsAt(old(owner.ring), i, this) && old(owner).ring == Without(old(owner.ring), i))
    {
      LinkedIfOwned();
      if prev == null {
        return;
      }
      ghost var list, s := owner, owner.ring;
      ghost var i: nat :| 0 < i < |s| && s[i] == this;
      assert IsAt(s, i, this);
      Detach(list, s, i);
    }

    /** The node at place i of its list. */
    method Detach(ghost list: List, ghost s: seq<Node>, ghost i: nat)
      requires owner == list && list.Valid() && s == list.ring && IsAt(s, i, this) && prev != null && next != null
      modifies this, next, prev, list
      ensures prev == null && next == null && owner == null
      ensures list.Valid() && list.ring == Without(s, i)
    {
      assert Linked(s[i - 1], s[Succ(i - 1, |s|)]) && Linked(s[i], s[Succ(i, |s|)]);
      DistinctWithout(s, i);
      next.prev := prev;
      prev.next := next;
      next, prev := null, null;
      owner := null;
      list.ring := Without(s, i);
      forall k | 0 <= k < |list.ring|
        ensures Linked(list.ring[k], list.ring[Succ(k, |list.ring|)])
      {
        SuccWithout(s, i, k);
        assert old(Linked(s[Origin(k, i)], s[Succ(Origin(k, i), |s|)]));
      }
    }
  }

  ghost predicate IsAt(s: seq<Node>, i: nat, node: Node) {
    0 < i < |s| && s[i] == node
  }

  ghost predicate Linked(a: Node, b: Node)
    reads a, b
  {
    a.next == b && b.prev == a
  }

  class List {
    const content: Node
    /** The sentinel and the elements in their order. */
    ghost var ring: seq<Node>

    ghost predicate Valid()
      reads this, ring
    {
      && ring != [] && ring[0] == content
      && Distinct(ring)
      && (forall i :: 0 <= i < |ring| ==> ring[i].owner == this)
      && (forall i :: 0 <= i < |ring| ==> Linked(ring[i], ring[Succ(i, |ring|)]))
    }

    ghost function Nodes(): seq<Node>
      requires ring != []
      reads this
    {
      ring[1..]
    }

    constructor ()
      ensures Valid() && Nodes() == [] && fresh(content)
    {
      var node := new Node();
      content, ring := node, [node];
      new;
      content.next, content.prev := content, content;
      content.owner := this;
    }
  
    /** empty() */
    predicate Empty()
      requires Valid()
      reads this, ring
      ensures Empty() <==> Nodes() == []
    {
      LastIsBeforeFirst();
      content == content.prev
    }

    lemma LastIsBeforeFirst()
      requires Valid()
      ensures content.prev == ring[|ring| - 1]
      ensures content.next == ring[Succ(0, |ring|)]
    {
      assert Linked(ring[|ring| - 1], ring[Succ(|ring| - 1, |ring|)]);
      assert Linked(ring[0], ring[Succ(0, |ring|)]);
    }

    /** An iterator points to the node before the one it stands for: this one stands for element i, or for the end. */
    ghost predicate StandsFor(current: Node, i: nat)
      requires ring != []
      reads this
    {
      i < |ring| && current == ring[i]
    }

    method Begin() returns (current: Node)
      requires Valid()
      ensures StandsFor(current, 0)
    {
      current := content;
    }

    method End() returns (current: Node)
      requires Valid()
      ensures StandsFor(current, |Nodes()|)
    {
      LastIsBeforeFirst();
      current := content.prev;
    }

    /** operator*; the end stands for no element. */
    method Get(current: Node, ghost i: nat) returns (node: Node)
      requires Valid() && StandsFor(current, i) && i < |Nodes()|
      ensures node == Nodes()[i]
    {
      assert Linked(ring[i], ring[Succ(i, |ring|)]);
      node := current.next;
    }

    /** operator++ */
    method Next(current: Node, ghost i: nat) returns (r: Node)
      requires Valid() && StandsFor(current, i) && i < |Nodes()|
      ensures StandsFor(r, i + 1)
    {
      assert Linked(ring[i], ring[Succ(i, |ring|)]);
      r := current.next;
    }

    /** operator-- */
    method Previous(current: Node, ghost i: nat) returns (r: Node)
      requires Valid() && StandsFor(current, i) && i > 0
      ensures StandsFor(r, i - 1)
    {
      assert Linked(ring[i - 1], ring[Succ(i - 1, |ring|)]);
      r := current.prev;
    }

    method Front() returns (node: Node)
      requires Valid() && Nodes() != []
      ensures node == Nodes()[0]
    {
      var current := Begin();
      node := Get(current, 0);
    }

    method Back() returns (node: Node)
      requires Valid() && Nodes() != []
      ensures node == Nodes()[|Nodes()| - 1]
    {
      var current := End();
      current := Previous(current, |Nodes()|);
      node := Get(current, |Nodes()| - 1);
    }

    /** A walk from the beginning to the end meets the elements in their order, each of them once. */
    method Elements() returns (r: seq<Node>)
      requires Valid()
      ensures r == Nodes()
    {
      r := [];
      var current := Begin();
      var end := End();
      while current != end
        invariant |r| <= |Nodes()| && r == Nodes()[..|r|] && StandsFor(current, |r|)
        decreases |Nodes()| - |r|
      {
        assert |r| == |Nodes()| ==> current == end;
        var node := Get(current, |r|);
        current := Next(current, |r|);
        r := r + [node];
      }
    }

    /** insert(pos, node): in front of what the iterator stands for; nothing happens to a node that is in some list. */
    method Insert(current: Node, ghost i: nat, node: Node)
      requires Valid() && StandsFor(current, i) && node.Proper()
      modifies this, current, current.next, node
      ensures Valid()
      ensures old(node.InList()) ==> ring == old(ring) && node.owner == old(node.owner)
      ensures !old(node.InList()) ==> node.owner == this && Nodes() == With(old(Nodes()), i, node)
    {
      node.LinkedIfOwned();
      if node.InList() {
        return;
      }
      Attach(current, i, node);
      WithTail(old(ring), i, node);
    }

    /** The node becomes the one behind `current`. */
    method Attach(current: Node, ghost i: nat, node: Node)
      requires Valid() && StandsFor(current, i) && node.owner == null
      modifies this, current, current.next, node
      ensures Valid() && node.owner == this && ring == With(old(ring), i + 1, node)
    {
      ghost var s := ring;
      assert Linked(s[i], s[Succ(i, |s|)]);
      DistinctWith(s, i + 1, node);
      node.next := current.next;
      node.prev := current;
      current.next.prev := node;
      current.next := node;
      node.owner := this;
      ring := With(s, i + 1, node);
      forall k | 0 <= k < |ring|
        ensures Linked(ring[k], ring[Succ(k, |ring|)])
      {
        SuccWith(s, i + 1, node, k);
        ghost var j := if k <= i then k else k - 1;
        assert old(Linked(s[j], s[Succ(j, |s|)]));
      }
    }

    method PushBack(node: Node)
      requires Valid() && node.Proper()
      modifies this, ring, node
      ensures Valid()
      ensures Nodes() == if old(node.InList()) then old(Nodes()) else old(Nodes()) + [node]
      ensures node.owner == if old(node.InList()) then old(node.owner) else this
    {
      LastIsBeforeFirst();
      assert Linked(ring[|ring| - 1], ring[Succ(|ring| - 1, |ring|)]);
      var end := End();
      Insert(end, |Nodes()|, node);
    }

    method PushFront(node: Node)
      requires Valid() && node.Proper()
      modifies this, ring, node
      ensures Valid()
      ensures Nodes() == if old(node.InList()) then old(Nodes()) else [node] + old(Nodes())
      ensures node.owner == if old(node.InList()) then old(node.owner) else this
    {
      LastIsBeforeFirst();
      var begin := Begin();
      Insert(begin, 0, node);
    }
  }

  /** A node is in one list at most, and there at one place. */
  lemma InOneListAtMost(a: List, b: List, i: nat, j: nat)
    requires a.Valid() && b.Valid() && i < |a.ring| && j < |b.ring| && a.ring[i] == b.ring[j]
    ensures a == b && i == j
  {}

  /** Along the ring next and prev undo each other. */
  lemma NextAndPrevAreInverse(list: List, i: nat)
    requires list.Valid() && i < |list.ring|
    ensures var node := list.ring[i];
      && node.next != null && node.next.prev == node && node.prev != null && node.prev.next == node
  {
    var n := |list.ring|;
    var before := if i == 0 then n - 1 else i - 1;
    assert Linked(list.ring[i], list.ring[Succ(i, n)]);
    assert Linked(list.ring[before], list.ring[Succ(before, n)]);
  }

  /** From one list to another. */
  method Move(node: Node, from: List, to: List)
    requires node.Proper() && node.owner == from && from.Valid() && to.Valid() && from != to
    modifies from, to, from.ring, to.ring
    ensures from.Valid() && to.Valid() && node.owner == to
    ensures to.Nodes() == old(to.Nodes()) + [node]
    ensures exists i :: IsAt(old(from.ring), i, node) && from.ring == Without(old(from.ring), i)
  {
    ghost var n := |from.ring|;
    ghost var i: nat :| 0 < i < n && from.ring[i] == node;
    assert Linked(from.ring[i], from.ring[Succ(i, n)]) && Linked(from.ring[i - 1], from.ring[Succ(i - 1, n)]);
    node.Unlink();
    to.PushBack(node);
  }
}
