/** A binary min-heap of linked nodes that finds its slots from the bits of the element count. */
module Heap {

  class Node {
    var left: Node?
    var right: Node?
    var parent: Node?

    /** What the comparison looks at. */
    const value: int

    constructor (value: int)
      ensures left == right == parent == null && this.value == value
    {
      left, right, parent := null, null, null;
      this.value := value;
    }
  }

  type LessThan = (int, int) -> bool

  ghost predicate StrictWeakOrder(less: LessThan) {
    (forall a, b :: less(a, b) ==> !less(b, a)) &&
    (forall a, b, c :: less(a, b) ==> less(a, c) || less(c, b))
  }

  // ---- Positions ----

  /** The node at a position; positions count from 1, row by row, and position 0 is empty. */
  ghost function At(nodes: seq<Node?>, i: nat): Node? { if i < |nodes| then nodes[i] else null }

  /** Position 0 is empty, and every node has one position. */
  ghost predicate Placed(nodes: seq<Node?>) {
    |nodes| > 0 && nodes[0] == null && (forall i | 1 <= i < |nodes| :: nodes[i] != null) &&
    forall i, j | 1 <= i < j < |nodes| :: nodes[i] != nodes[j]
  }

  ghost predicate LinkedAt(nodes: seq<Node?>, i: nat)
    requires i < |nodes| && nodes[i] != null
    reads nodes[i]
  {
    nodes[i].left == At(nodes, 2 * i) && nodes[i].right == At(nodes, 2 * i + 1) && nodes[i].parent == At(nodes, i / 2)
  }

  /** A complete binary tree: the links of the node at i lead to the nodes at 2i, 2i + 1 and i / 2. */
  ghost predicate Linked(nodes: seq<Node?>)
    requires Placed(nodes)
    reads nodes
  {
    forall i | 1 <= i < |nodes| :: LinkedAt(nodes, i)
  }

  ghost function NodeSet(nodes: seq<Node?>): set<Node> { set x: Node | x in nodes }

  /** The node at i does not come before its parent. */
  ghost predicate InOrderAt(nodes: seq<Node?>, less: LessThan, i: nat)
    requires Placed(nodes) && 2 <= i < |nodes|
  {
    !less(nodes[i].value, nodes[i / 2].value)
  }

  ghost predicate Ordered(nodes: seq<Node?>, less: LessThan)
    requires Placed(nodes)
  {
    forall i | 2 <= i < |nodes| :: InOrderAt(nodes, less, i)
  }

  /** Ordered but for the node at p, whose children do not come before its parent. */
  ghost predicate OrderedBut(nodes: seq<Node?>, less: LessThan, p: nat)
    requires Placed(nodes)
  {
    1 <= p < |nodes| && (forall i | 2 <= i < |nodes| && i != p && i / 2 != p :: InOrderAt(nodes, less, i)) &&
    forall c | 2 <= c < |nodes| && c / 2 == p && p >= 2 :: !less(nodes[c].value, nodes[p / 2].value)
  }

  ghost predicate ChildrenInOrder(nodes: seq<Node?>, less: LessThan, p: nat)
    requires Placed(nodes)
  {
    forall c | 2 <= c < |nodes| && c / 2 == p :: InOrderAt(nodes, less, c)
  }

  /** The root comes first. */
  lemma {:induction false} RootIsLeast(nodes: seq<Node?>, less: LessThan, i: nat)
    requires Placed(nodes) && Ordered(nodes, less) && StrictWeakOrder(less) && 1 <= i < |nodes|
    ensures !less(nodes[i].value, nodes[1].value)
  {
    if i > 1 {
      RootIsLeast(nodes, less, i / 2);
      assert InOrderAt(nodes, less, i);
    } else {
      assert nodes[1].value == nodes[i].value;
    }
  }

  lemma {:induction false} NotBefore(less: LessThan, a: int, b: int, c: int)
    requires StrictWeakOrder(less) && !less(a, b) && !less(b, c)
    ensures !less(a, c)
  {
  }

  /** Moving a node up past its parent. */
  lemma {:induction false} UpStep(nodes: seq<Node?>, less: LessThan, p: nat)
    requires Placed(nodes) && StrictWeakOrder(less) && OrderedBut(nodes, less, p) && ChildrenInOrder(nodes, less, p) &&
      p >= 2
    requires less(nodes[p].value, nodes[p / 2].value)
    ensures var moved := nodes[p / 2 := nodes[p]][p := nodes[p / 2]];
      Placed(moved) && OrderedBut(moved, less, p / 2) && ChildrenInOrder(moved, less, p / 2)
  {
    var q := p / 2;
    var moved := nodes[q := nodes[p]][p := nodes[q]];
    forall i | 2 <= i < |moved| && i != q && i / 2 != q ensures InOrderAt(moved, less, i) {
      if i / 2 != p { assert InOrderAt(nodes, less, i); }
    }
    if q >= 2 { assert InOrderAt(nodes, less, q); }
    forall c | 2 <= c < |moved| && c / 2 == q
      ensures InOrderAt(moved, less, c) && (q >= 2 ==> !less(moved[c].value, moved[q / 2].value))
    {
      if c != p {
        assert InOrderAt(nodes, less, c);
        NotBefore(less, nodes[c].value, nodes[q].value, nodes[p].value);
        if q >= 2 { NotBefore(less, nodes[c].value, nodes[q].value, nodes[q / 2].value); }
      }
    }
  }

  /** Moving a node down to the place of a child that comes before it and not after the other child. */
  lemma {:induction false} DownStep(nodes: seq<Node?>, less: LessThan, p: nat, c: nat)
    requires Placed(nodes) && StrictWeakOrder(less) && OrderedBut(nodes, less, p) && 2 <= c < |nodes| && c / 2 == p
    requires less(nodes[c].value, nodes[p].value)
    requires forall o | 2 <= o < |nodes| && o / 2 == p :: !less(nodes[o].value, nodes[c].value)
    ensures var moved := nodes[p := nodes[c]][c := nodes[p]]; Placed(moved) && OrderedBut(moved, less, c)
  {
    var moved := nodes[p := nodes[c]][c := nodes[p]];
    forall i | 2 <= i < |moved| && i != c && i / 2 != c ensures InOrderAt(moved, less, i) {
      if i != p && i / 2 != p { assert InOrderAt(nodes, less, i); }
    }
    forall o | 2 <= o < |moved| && o / 2 == c ensures !less(moved[o].value, moved[c / 2].value) {
      assert InOrderAt(nodes, less, o);
    }
  }

  lemma {:induction false} NowOrdered(nodes: seq<Node?>, less: LessThan, p: nat)
    requires Placed(nodes) && OrderedBut(nodes, less, p) && ChildrenInOrder(nodes, less, p)
    requires p == 1 || !less(nodes[p].value, nodes[p / 2].value)
    ensures Ordered(nodes, less)
  {
  }

  /** A new last node has no children yet. */
  lemma {:induction false} AppendOrdered(nodes: seq<Node?>, x: Node, less: LessThan)
    requires Placed(nodes) && Placed(nodes + [x]) && Ordered(nodes, less)
    ensures OrderedBut(nodes + [x], less, |nodes|) && ChildrenInOrder(nodes + [x], less, |nodes|)
    ensures NodeSet(nodes + [x]) == NodeSet(nodes) + {x}
  {
    forall i | 2 <= i < |nodes| ensures InOrderAt(nodes + [x], less, i) { assert InOrderAt(nodes, less, i); }
  }

  /** Without its last node the order holds; with the last node in the place of another one, it holds but for that
      place. */
  lemma {:induction false} TakenOrdered(nodes: seq<Node?>, node: Node, less: LessThan, p: nat)
    requires Placed(nodes) && StrictWeakOrder(less) && Ordered(nodes, less) && 1 <= p < |nodes| && nodes[p] == node
    ensures var n := |nodes| - 1;
      Placed(nodes[..n]) && Ordered(nodes[..n], less) && nodes[n] !in nodes[..n] &&
      if p == n then NodeSet(nodes[..n]) == NodeSet(nodes) - {node}
      else
        Placed(nodes[..n][p := nodes[n]]) && OrderedBut(nodes[..n][p := nodes[n]], less, p) &&
        NodeSet(nodes[..n][p := nodes[n]]) == NodeSet(nodes) - {node}
  {
    var n := |nodes| - 1;
    var rest := nodes[..n];
    forall i | 2 <= i < n ensures InOrderAt(rest, less, i) { assert InOrderAt(nodes, less, i); }
    if p != n {
      var now := rest[p := nodes[n]];
      forall i | 2 <= i < n && i != p && i / 2 != p
        ensures InOrderAt(now, less, i) { assert InOrderAt(nodes, less, i); }
      forall c | 2 <= c < n && c / 2 == p && p >= 2 ensures !less(now[c].value, now[p / 2].value) {
        assert InOrderAt(nodes, less, c) && InOrderAt(nodes, less, p);
        NotBefore(less, nodes[c].value, nodes[p].value, nodes[p / 2].value);
      }
      forall x: Node ensures x in now <==> x in nodes && x != node {
        if x in nodes && x != node {
          var k :| 0 <= k < |nodes| && nodes[k] == x;
          assert now[if k == n then p else k] == x;
        }
      }
    }
  }

  lemma {:induction false} SameNodes(nodes: seq<Node?>, i: nat, j: nat)
    requires Placed(nodes) && 1 <= i < j < |nodes|
    ensures NodeSet(nodes[i := nodes[j]][j := nodes[i]]) == NodeSet(nodes)
  {
    var moved := nodes[i := nodes[j]][j := nodes[i]];
    forall x: Node ensures x in moved <==> x in nodes {
      if x in nodes {
        var k :| 0 <= k < |nodes| && nodes[k] == x;
        assert moved[if k == i then j else if k == j then i else k] == x;
      }
    }
  }

  // ---- Paths ----

  /** The position reached from pos by k bits of the path, least significant first: 0 leads left, 1 right. */
  ghost function Follow(pos: nat, path: nat, k: nat): nat
    decreases k
  {
    if k == 0 then pos else Follow(2 * pos + path % 2, path / 2, k - 1)
  }

  lemma {:induction false} FollowGrows(pos: nat, path: nat, k: nat)
    ensures Follow(pos, path, k) >= pos
    ensures k > 0 ==> Follow(pos, path, k) >= 2 * pos
    decreases k
  {
    if k > 0 { FollowGrows(2 * pos + path % 2, path / 2, k - 1); }
  }

  /** The bits of n below the leading one, most significant bit first to be taken, lead from the root to position n. */
  method PathTo(n0: nat) returns (path: nat, k: nat)
    requires n0 >= 1
    ensures Follow(1, path, k) == n0
  {
    path, k := 0, 0;
    var n: nat := n0;
    while n >= 2
      invariant n >= 1 && Follow(n, path, k) == n0
    {
      path := 2 * path + n % 2;
      n, k := n / 2, k + 1;
    }
  }

  /** Where a link is stored. */
  datatype Slot = MinSlot | LeftSlot(node: Node) | RightSlot(node: Node)

  ghost predicate SlotOf(nodes: seq<Node?>, pos: nat, slot: Slot)
    requires Placed(nodes)
  {
    if pos == 1 then slot == MinSlot
    else 2 <= pos && pos / 2 < |nodes| && slot == if pos % 2 == 0 then LeftSlot(nodes[pos / 2])
      else RightSlot(nodes[pos / 2])
  }

  class Heap {
    var min: Node?
    var nelts: nat
    /** The nodes in the order of their positions. */
    ghost var nodes: seq<Node?>

    ghost predicate Shape()
      reads this, nodes
    {
      Placed(nodes) && Linked(nodes) && min == At(nodes, 1)
    }

    constructor ()
      ensures Shape() && nodes == [null] && nelts == 0
    {
      min, nelts, nodes := null, 0, [null];
    }

    /** Exchanges the links of a node and its child, and points the sibling to its new parent. */
    method ExchangeLinks(parent: Node, child: Node, ghost s: Node?)
      requires parent != child && s != parent && s != child
      requires (parent.left == child && parent.right == s) || (parent.left == s && parent.right == child)
      modifies parent, child, s
      ensures parent.parent == child && parent.left == old(child.left) && parent.right == old(child.right) &&
        child.parent == old(parent.parent)
      ensures if old(parent.left) == child then child.left == parent && child.right == s
        else child.left == s && child.right == parent
      ensures s != null ==> s.parent == child && s.left == old(s.left) && s.right == old(s.right)
    {
      var l, r, p := parent.left, parent.right, parent.parent;
      parent.left, parent.right, parent.parent := child.left, child.right, child.parent;
      child.left, child.right, child.parent := l, r, p;
      parent.parent := child;
      var sibling;
      if child.left == child {
        child.left := parent;
        sibling := child.right;
      } else {
        child.right := parent;
        sibling := child.left;
      }
      if sibling != null {
        sibling.parent := child;
      }
    }

    /** Swaps a node with its child; the child moves closer to the root. The ghost parameters are the nodes around
        them. */
    method SwapLinks(parent: Node, child: Node, ghost s: Node?, ghost cl: Node?, ghost cr: Node?, ghost g: Node?)
      requires parent != child && Apart(parent, child, s, cl, cr, g)
      requires parent.parent == g && child.parent == parent && child.left == cl && child.right == cr
      requires (parent.left == child && parent.right == s) || (parent.left == s && parent.right == child)
      requires g != null ==> (g.left == parent) != (g.right == parent)
      modifies this`min, parent, child, s, cl, cr, g
      ensures min == if g == null then child else old(min)
      ensures parent.parent == child && parent.left == cl && parent.right == cr && child.parent == g
      ensures if old(parent.left) == child then child.left == parent && child.right == s
        else child.left == s && child.right == parent
      ensures s != null ==> s.parent == child && s.left == old(s.left) && s.right == old(s.right)
      ensures cl != null ==> cl.parent == parent && cl.left == old(cl.left) && cl.right == old(cl.right)
      ensures cr != null ==> cr.parent == parent && cr.left == old(cr.left) && cr.right == old(cr.right)
      ensures g != null ==>
        g.parent == old(g.parent) && g.left == (if old(g.left) == parent then child else old(g.left))
      ensures g != null ==> g.right == (if old(g.right) == parent then child else old(g.right))
    {
      ExchangeLinks(parent, child, s);
      if parent.left != null {
        parent.left.parent := parent;
      }
      if parent.right != null {
        parent.right.parent := parent;
      }
      if child.parent == null {
        min := child;
      } else if child.parent.left == parent {
        child.parent.left := child;
      } else {
        child.parent.right := child;
      }
    }

    method Swap(parent: Node, child: Node, ghost i: nat, ghost j: nat)
      requires Shape() && 1 <= i < j < |nodes| && j / 2 == i && parent == nodes[i] && child == nodes[j]
      modifies this`min, this`nodes, NodeSet(nodes)
      ensures Shape() && nodes == old(nodes)[i := child][j := parent]
    {
      ghost var was := nodes;
      ghost var s, cl, cr, g := At(was, Sibling(j)), At(was, 2 * j), At(was, 2 * j + 1), At(was, i / 2);
      AroundApart(was, i, j);
      LinksAround(was, i, j);
      SwapLinks(parent, child, s, cl, cr, g);
      forall k | 1 <= k < |was| && !Around(i, j, k) ensures LinkedAt(was, k) {
        OneOf(was, k, i, j);
        assert old(LinkedAt(was, k));
      }
      nodes := was[i := child][j := parent];
      Relinked(was, nodes, i, j);
    }

    ghost predicate Valid(less: LessThan)
      reads this, nodes
    {
      Shape() && nelts + 1 == |nodes| && Ordered(nodes, less)
    }

    method Load(slot: Slot) returns (x: Node?)
      ensures x == match slot case MinSlot => min case LeftSlot(n) => n.left case RightSlot(n) => n.right
    {
      match slot {
        case MinSlot => x := min;
        case LeftSlot(n) => x := n.left;
        case RightSlot(n) => x := n.right;
      }
    }

    /** Follows the path from the root; parent is where the link above is stored. */
    method Descend(path0: nat, k0: nat) returns (parent: Slot, child: Slot)
      requires Shape() && Follow(1, path0, k0) <= |nodes|
      ensures SlotOf(nodes, Follow(1, path0, k0), child)
      ensures if k0 == 0 then parent == MinSlot else SlotOf(nodes, Follow(1, path0, k0) / 2, parent)
    {
      parent, child := MinSlot, MinSlot;
      var path: nat, k: nat := path0, k0;
      ghost var pos: nat := 1;
      while k > 0
        invariant Follow(pos, path, k) == Follow(1, path0, k0) && k <= k0 && pos >= 1
        invariant SlotOf(nodes, pos, child) &&
          (if k == k0 then pos == 1 && parent == MinSlot else pos >= 2 && SlotOf(nodes, pos / 2, parent))
      {
        FollowGrows(pos, path, k);
        parent := child;
        var here := Load(child);
        if pos > 1 { assert LinkedAt(nodes, pos / 2); }
        assert here == nodes[pos];
        child := if path % 2 == 1 then RightSlot(here) else LeftSlot(here);
        pos := 2 * pos + path % 2;
        path, k := path / 2, k - 1;
      }
    }

    /** Stores a node in a slot and points it to the node above. */
    method Hang(newnode: Node, parent: Slot, child: Slot)
      requires Shape() && newnode !in nodes
      requires SlotOf(nodes, |nodes|, child) && if |nodes| == 1 then parent == MinSlot
        else SlotOf(nodes, |nodes| / 2, parent)
      modifies this`min, newnode`parent, NodeSet(nodes)
      ensures newnode.parent == nodes[|nodes| / 2] && min == if |nodes| == 1 then newnode else old(min)
      ensures forall k | 1 <= k < |nodes| ::
        nodes[k].parent == old(nodes[k].parent) &&
          nodes[k].left == (if |nodes| == 2 * k then newnode else old(nodes[k].left)) &&
        nodes[k].right == if |nodes| == 2 * k + 1 then newnode else old(nodes[k].right)
    {
      ghost var n := |nodes|;
      var above := Load(parent);
      if n / 2 >= 2 { assert LinkedAt(nodes, n / 4); }
      assert above == nodes[n / 2];
      newnode.parent := above;
      match child {
        case MinSlot => min := newnode;
        case LeftSlot(p) => p.left := newnode;
        case RightSlot(p) => p.right := newnode;
      }
    }

    /** Links a new last node below its parent. */
    method Link(newnode: Node, parent: Slot, child: Slot)
      requires Shape() && newnode !in nodes && newnode.left == null && newnode.right == null
      requires SlotOf(nodes, |nodes|, child) && if |nodes| == 1 then parent == MinSlot
        else SlotOf(nodes, |nodes| / 2, parent)
      modifies this`min, this`nodes, newnode, NodeSet(nodes)
      ensures Shape() && nodes == old(nodes) + [newnode]
    {
      ghost var was := nodes;
      Hang(newnode, parent, child);
      nodes := was + [newnode];
      forall k | 1 <= k < |nodes| ensures LinkedAt(nodes, k) {
        if k < |was| { assert old(LinkedAt(was, k)); }
      }
    }

    /** Moves a node towards the root while it comes before its parent. */
    method PullUp(node: Node, less: LessThan, ghost p0: nat)
      requires Shape() && StrictWeakOrder(less) && OrderedBut(nodes, less, p0) && ChildrenInOrder(nodes, less, p0) &&
        node == nodes[p0]
      modifies this`min, this`nodes, NodeSet(nodes)
      ensures Shape() && Ordered(nodes, less) && |nodes| == |old(nodes)| && NodeSet(nodes) == NodeSet(old(nodes))
    {
      ghost var p: nat := p0;
      while node.parent != null && less(node.value, node.parent.value)
        invariant Shape() && OrderedBut(nodes, less, p) && ChildrenInOrder(nodes, less, p) && node == nodes[p]
        invariant |nodes| == |old(nodes)| && NodeSet(nodes) == NodeSet(old(nodes))
        decreases p
      {
        assert LinkedAt(nodes, p);
        UpStep(nodes, less, p);
        SameNodes(nodes, p / 2, p);
        Swap(node.parent, node, p / 2, p);
        p := p / 2;
      }
      assert LinkedAt(nodes, p);
      NowOrdered(nodes, less, p);
    }

    /** Inserts a node at the first free place of the bottom row and moves it up to where it belongs. */
    method Insert(newnode: Node, less: LessThan)
      requires Valid(less) && StrictWeakOrder(less) && newnode !in nodes
      modifies this, newnode, NodeSet(nodes)
      ensures Valid(less) && NodeSet(nodes) == old(NodeSet(nodes)) + {newnode} && nelts == old(nelts) + 1
    {
      newnode.left, newnode.right, newnode.parent := null, null, null;
      var path, k := PathTo(1 + nelts);
      var parent, child := Descend(path, k);
      Link(newnode, parent, child);
      nelts := nelts + 1;
      AppendOrdered(old(nodes), newnode, less);
      PullUp(newnode, less, |nodes| - 1);
    }

    /** Takes the last node off the bottom row. */
    method Unlink() returns (last: Node)
      requires Shape() && nelts + 1 == |nodes| && nelts > 0
      modifies this`min, this`nodes, this`nelts, NodeSet(nodes)
      ensures Shape() && nelts == old(nelts) - 1 && last == old(nodes)[old(nelts)] && nodes == old(nodes)[..old(nelts)]
    {
      ghost var was, n := nodes, nelts;
      var path, k := PathTo(nelts);
      var above, slot := Descend(path, k);
      nelts := nelts - 1;
      if n >= 2 { assert LinkedAt(was, n / 2); }
      last := Load(slot);
      match slot {
        case MinSlot => min := null;
        case LeftSlot(p) => p.left := null;
        case RightSlot(p) => p.right := null;
      }
      nodes := was[..n];
      forall k | 1 <= k < |nodes| ensures LinkedAt(nodes, k) {
        assert old(LinkedAt(was, k));
      }
    }

    /** Gives a node the links of another one, and makes the nodes around it point to it. */
    method TakeOver(node: Node, child: Node, ghost l: Node?, ghost r: Node?, ghost g: Node?)
      requires node != child && Apart(node, child, l, r, g, null)
      requires node.left == l && node.right == r && node.parent == g &&
        (g != null ==> (g.left == node) != (g.right == node))
      modifies this`min, child, l, r, g
      ensures min == if g == null then child else old(min)
      ensures child.left == l && child.right == r && child.parent == g
      ensures l != null ==> LinksAre(l, old(l.left), old(l.right), child)
      ensures r != null ==> LinksAre(r, old(r.left), old(r.right), child)
      ensures g != null ==> g.parent == old(g.parent) && g.left == (if old(g.left) == node then child else old(g.left))
      ensures g != null ==> g.right == (if old(g.right) == node then child else old(g.right))
    {
      child.left, child.right, child.parent := node.left, node.right, node.parent;
      if child.left != null {
        child.left.parent := child;
      }
      if child.right != null {
        child.right.parent := child;
      }
      if node.parent == null {
        min := child;
      } else if node.parent.left == node {
        node.parent.left := child;
      } else {
        node.parent.right := child;
      }
    }

    /** Puts a node that is not in the tree in the place of one that is. */
    method Replace(node: Node, child: Node, ghost p: nat)
      requires Shape() && 1 <= p < |nodes| && nodes[p] == node && child !in nodes
      modifies this`min, this`nodes, child, NodeSet(nodes)
      ensures Shape() && nodes == old(nodes)[p := child]
    {
      ghost var was := nodes;
      ghost var l, r, g := At(was, 2 * p), At(was, 2 * p + 1), At(was, p / 2);
      assert LinkedAt(was, p);
      if l != null { assert LinkedAt(was, 2 * p); }
      if r != null { assert LinkedAt(was, 2 * p + 1); }
      if g != null { assert LinkedAt(was, p / 2); }
      TakeOver(node, child, l, r, g);
      forall k | 1 <= k < |was| && k != p && k / 2 != p && k != p / 2 ensures LinkedAt(was, k) {
        assert was[k] != l && was[k] != r && was[k] != g;
        assert old(LinkedAt(was, k));
      }
      nodes := was[p := child];
      Replaced(was, nodes, p);
    }

    /** The child of a node that comes first, if it comes before the node; otherwise the node. */
    method Smallest(node: Node, less: LessThan, ghost p: nat) returns (smallest: Node, ghost c: nat)
      requires Shape() && StrictWeakOrder(less) && 1 <= p < |nodes| && node == nodes[p]
      ensures 1 <= c < |nodes| && smallest == nodes[c]
      ensures if smallest == node then ChildrenInOrder(nodes, less, p)
        else c / 2 == p && less(smallest.value, node.value)
      ensures forall o | 2 <= o < |nodes| && o / 2 == p :: !less(nodes[o].value, smallest.value)
    {
      assert LinkedAt(nodes, p);
      smallest, c := node, p;
      if node.left != null && less(node.left.value, smallest.value) {
        smallest, c := node.left, 2 * p;
      }
      if node.right != null && less(node.right.value, smallest.value) {
        smallest, c := node.right, 2 * p + 1;
      }
    }

    /** Moves a node away from the root while a child comes before it. */
    method PushDown(node: Node, less: LessThan, ghost p0: nat) returns (ghost p: nat)
      requires Shape() && StrictWeakOrder(less) && OrderedBut(nodes, less, p0) && node == nodes[p0]
      modifies this`min, this`nodes, NodeSet(nodes)
      ensures Shape() && OrderedBut(nodes, less, p) && ChildrenInOrder(nodes, less, p) && node == nodes[p]
      ensures |nodes| == |old(nodes)| && NodeSet(nodes) == NodeSet(old(nodes))
    {
      p := p0;
      while true
        invariant Shape() && OrderedBut(nodes, less, p) && node == nodes[p]
        invariant |nodes| == |old(nodes)| && NodeSet(nodes) == NodeSet(old(nodes))
        decreases |nodes| - p
      {
        var smallest;
        ghost var c;
        smallest, c := Smallest(node, less, p);
        if smallest == node {
          break;
        }
        DownStep(nodes, less, p, c);
        SameNodes(nodes, p, c);
        Swap(node, smallest, p, c);
        p := c;
      }
    }

    /** Removes a node: the last one takes its place and moves to where it belongs. */
    method Remove(node: Node, less: LessThan)
      requires Valid(less) && StrictWeakOrder(less) && (nelts > 0 ==> node in nodes)
      modifies this, NodeSet(nodes)
      ensures Valid(less) && NodeSet(nodes) == old(NodeSet(nodes)) - {node}
      ensures nelts == if old(nelts) == 0 then 0 else old(nelts) - 1
    {
      if nelts == 0 {
        assert nodes == [null];
        return;
      }
      ghost var p :| 1 <= p < |nodes| && nodes[p] == node;
      ghost var was := nodes;
      var child := Unlink();
      TakenOrdered(was, node, less, p);
      if child == node {
        assert child != min;
        return;
      }
      Replace(node, child, p);
      ghost var q := PushDown(child, less, p);
      PullUp(child, less, q);
    }

    /** Removes the first node; an empty heap stays empty. */
    method Dequeue(less: LessThan)
      requires Valid(less) && StrictWeakOrder(less)
      modifies this, NodeSet(nodes)
      ensures Valid(less) && NodeSet(nodes) == old(NodeSet(nodes)) - {old(min)}
      ensures forall x | x in old(NodeSet(nodes)) :: old(min) != null && !less(x.value, old(min).value)
    {
      if nelts == 0 {
        assert nodes == [null];
        return;
      }
      forall x | x in NodeSet(nodes) ensures !less(x.value, min.value) {
        var i :| 0 <= i < |nodes| && nodes[i] == x;
        RootIsLeast(nodes, less, i);
      }
      assert min == nodes[1];
      Remove(min, less);
    }
  }

  /** The positions whose links a swap may change. */
  ghost predicate Around(i: nat, j: nat, k: nat) {
    k == i || k == j || k == Sibling(j) || k == 2 * j || k == 2 * j + 1 || k == i / 2
  }

  ghost predicate LinksAre(x: Node?, l: Node?, r: Node?, p: Node?)
    reads x
  {
    x != null ==> x.left == l && x.right == r && x.parent == p
  }

  /** With the links around it adjusted, the replacement is linked in its place. */
  lemma {:induction false} Replaced(was: seq<Node?>, nodes: seq<Node?>, p: nat)
    requires Placed(was) && 1 <= p < |was| && |nodes| == |was| && nodes[p] != null && nodes[p] !in was &&
      nodes == was[p := nodes[p]]
    requires LinksAre(nodes[p], At(was, 2 * p), At(was, 2 * p + 1), At(was, p / 2))
    requires LinksAre(At(was, 2 * p), At(was, 4 * p), At(was, 4 * p + 1), nodes[p])
    requires LinksAre(At(was, 2 * p + 1), At(was, 4 * p + 2), At(was, 4 * p + 3), nodes[p])
    requires LinksAre(At(was, p / 2), if p % 2 == 0 then nodes[p]
      else At(was, 2 * (p / 2)), if p % 2 == 0 then At(was, p + 1) else nodes[p], At(was, p / 2 / 2))
    requires forall k | 1 <= k < |was| && k != p && k / 2 != p && k != p / 2 :: LinkedAt(was, k)
    ensures Placed(nodes) && Linked(nodes)
  {
    forall k | 1 <= k < |nodes| ensures LinkedAt(nodes, k) {
      if k == p {
      } else if k == 2 * p {
        assert nodes[k] == At(was, 2 * p);
      } else if k == 2 * p + 1 {
        assert nodes[k] == At(was, 2 * p + 1);
      } else if k == p / 2 {
        assert nodes[k] == At(was, p / 2);
      } else {
        assert LinkedAt(was, k);
      }
    }
  }

  /** The links of the nodes around a node and its child, before a swap. */
  lemma {:induction false} LinksAround(nodes: seq<Node?>, i: nat, j: nat)
    requires Placed(nodes) && Linked(nodes) && 1 <= i < j < |nodes| && j / 2 == i
    ensures LinksAre(nodes[j], At(nodes, 2 * j), At(nodes, 2 * j + 1), nodes[i])
    ensures nodes[i].parent == At(nodes, i / 2)
    ensures if j % 2 == 0 then nodes[i].left == nodes[j] && nodes[i].right == At(nodes, Sibling(j))
            else nodes[i].left == At(nodes, Sibling(j)) && nodes[i].right == nodes[j]
    ensures LinksAre(At(nodes, Sibling(j)), At(nodes, 2 * Sibling(j)), At(nodes, 2 * Sibling(j) + 1), nodes[i])
    ensures LinksAre(At(nodes, 2 * j), At(nodes, 4 * j), At(nodes, 4 * j + 1), nodes[j])
    ensures LinksAre(At(nodes, 2 * j + 1), At(nodes, 4 * j + 2), At(nodes, 4 * j + 3), nodes[j])
    ensures LinksAre(At(nodes, i / 2), At(nodes, 2 * (i / 2)), At(nodes, 2 * (i / 2) + 1), At(nodes, i / 2 / 2))
  {
    assert LinkedAt(nodes, i) && LinkedAt(nodes, j);
    if Sibling(j) < |nodes| { assert LinkedAt(nodes, Sibling(j)); }
    if 2 * j < |nodes| { assert LinkedAt(nodes, 2 * j); }
    if 2 * j + 1 < |nodes| { assert LinkedAt(nodes, 2 * j + 1); }
    if i > 1 { assert LinkedAt(nodes, i / 2); }
  }

  /** With the links around them adjusted, the exchanged nodes are linked in their new places. */
  lemma {:induction false} Relinked(was: seq<Node?>, nodes: seq<Node?>, i: nat, j: nat)
    requires Placed(was) && 1 <= i < j < |was| && j / 2 == i && nodes == was[i := was[j]][j := was[i]]
    requires LinksAre(was[i], At(was, 2 * j), At(was, 2 * j + 1), was[j])
    requires was[j].parent == At(was, i / 2)
    requires if j % 2 == 0 then was[j].left == was[i] && was[j].right == At(was, Sibling(j))
      else was[j].left == At(was, Sibling(j)) && was[j].right == was[i]
    requires LinksAre(At(was, Sibling(j)), At(was, 2 * Sibling(j)), At(was, 2 * Sibling(j) + 1), was[j])
    requires LinksAre(At(was, 2 * j), At(was, 4 * j), At(was, 4 * j + 1), was[i])
    requires LinksAre(At(was, 2 * j + 1), At(was, 4 * j + 2), At(was, 4 * j + 3), was[i])
    requires LinksAre(At(was, i / 2), if i % 2 == 0 then was[j]
      else At(was, 2 * (i / 2)), if i % 2 == 0 then At(was, i + 1) else was[j], At(was, i / 2 / 2))
    requires forall k | 1 <= k < |was| && !Around(i, j, k) :: LinkedAt(was, k)
    ensures Placed(nodes) && Linked(nodes)
  {
    forall k | 1 <= k < |nodes| ensures LinkedAt(nodes, k) {
      if !Around(i, j, k) {
        RelinkedElsewhere(was, nodes, i, j, k);
      } else if k == i {
        RelinkedAround(was, nodes, i, j, i);
      } else if k == j {
        RelinkedAround(was, nodes, i, j, j);
      } else if k == Sibling(j) {
        RelinkedAround(was, nodes, i, j, Sibling(j));
      } else if k == i / 2 {
        RelinkedAround(was, nodes, i, j, i / 2);
      } else {
        RelinkedAround(was, nodes, i, j, k);
      }
    }
  }

  lemma {:induction false} RelinkedElsewhere(was: seq<Node?>, nodes: seq<Node?>, i: nat, j: nat, k: nat)
    requires Placed(was) && 1 <= i < j < |was| && j / 2 == i && nodes == was[i := was[j]][j := was[i]] &&
      1 <= k < |was| && !Around(i, j, k)
    requires LinkedAt(was, k)
    ensures nodes[k] != null && LinkedAt(nodes, k)
  {
  }

  lemma {:induction false} RelinkedAround(was: seq<Node?>, nodes: seq<Node?>, i: nat, j: nat, k: nat)
    requires Placed(was) && 1 <= i < j < |was| && j / 2 == i && nodes == was[i := was[j]][j := was[i]] &&
      1 <= k < |was| && Around(i, j, k)
    requires k == j ==> LinksAre(was[i], At(was, 2 * j), At(was, 2 * j + 1), was[j])
    requires k == i ==> was[j].parent == At(was, i / 2)
    requires k == i ==>
      if j % 2 == 0 then was[j].left == was[i] && was[j].right == At(was, Sibling(j))
        else was[j].left == At(was, Sibling(j)) && was[j].right == was[i]
    requires k == Sibling(j) ==> LinksAre(was[k], At(was, 2 * k), At(was, 2 * k + 1), was[j])
    requires k == 2 * j || k == 2 * j + 1 ==> LinksAre(was[k], At(was, 2 * k), At(was, 2 * k + 1), was[i])
    requires k == i / 2 ==>
      LinksAre(was[k], if i % 2 == 0 then was[j] else At(was, 2 * k), if i % 2 == 0 then At(was, i + 1)
      else was[j], At(was, k / 2))
    ensures nodes[k] != null && LinkedAt(nodes, k)
  {
  }

  ghost function Sibling(j: nat): nat { if j % 2 == 0 then j + 1 else if j > 0 then j - 1 else 0 }

  /** Which of the nodes around a swap a node is depends on its position alone. */
  lemma {:induction false} OneOf(nodes: seq<Node?>, k: nat, i: nat, j: nat)
    requires Placed(nodes) && 1 <= k < |nodes| && 1 <= i < |nodes| && 1 <= j < |nodes|
    ensures nodes[k] == nodes[i] <==> k == i
    ensures nodes[k] == nodes[j] <==> k == j
    ensures nodes[k] == At(nodes, Sibling(j)) <==> k == Sibling(j)
    ensures nodes[k] == At(nodes, 2 * j) <==> k == 2 * j
    ensures nodes[k] == At(nodes, 2 * j + 1) <==> k == 2 * j + 1
    ensures nodes[k] == At(nodes, i / 2) <==> k == i / 2
  {
  }

  lemma {:induction false} AroundApart(nodes: seq<Node?>, i: nat, j: nat)
    requires Placed(nodes) && 1 <= i < j < |nodes| && j / 2 == i
    ensures Apart(nodes[i], nodes[j], At(nodes, Sibling(j)), At(nodes, 2 * j), At(nodes, 2 * j + 1), At(nodes, i / 2))
  {
  }

  /** Six nodes, some of them absent, no two the same. */
  ghost predicate Apart(a: Node, b: Node, c: Node?, d: Node?, e: Node?, f: Node?) {
    a != b && c != a && c != b && d != a && d != b && e != a && e != b && f != a && f != b &&
    (c != null ==> c != d && c != e && c != f) && (d != null ==> d != e && d != f) && (e != null ==> e != f)
  }
}
