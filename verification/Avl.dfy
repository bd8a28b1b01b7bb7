/** The AVL tree every database is kept in (src/common/avl.c): nodes with parent links, groups of equal keys behind a
    leader, and a sorted list of all entries. The ghost fields of a node give its height and its place: a slot on a
    line, and the interval of the line its subtree has to itself. */
module Avl {
  class Node<K> {
    var key: K
    var parent: Node?<K>
    var left: Node?<K>
    var right: Node?<K>
    var balance: int
    var leader: bool
    // proof only: height of the subtree, place in the order, interval of the subtree
    ghost var height: nat
    ghost var slot: real
    ghost var lo: real
    ghost var hi: real

    constructor (k: K)
      ensures key == k
    {
      key := k;
    }
  }

  function Max(x: int, y: int): int { if x > y then x else y }

  function Min(x: int, y: int): int { if x < y then x else y }

  ghost function H<K>(n: Node?<K>): nat
    reads n
  {
    if n == null then 0 else n.height
  }

  ghost function Opt<K>(n: Node?<K>): set<Node<K>> { if n == null then {} else {n} }

  ghost predicate BalWith<K>(n: Node<K>, left: int, right: int)
    reads n
  {
    n.height == 1 + Max(left, right) && n.balance == right - left
  }

  ghost predicate BalOk<K>(n: Node<K>)
    reads n, n.left, n.right
  {
    BalWith(n, H(n.left), H(n.right))
  }

  ghost predicate BalAt<K>(n: Node<K>)
    reads n, n.left, n.right
  {
    BalOk(n) && -1 <= n.balance <= 1
  }

  ghost predicate SlotIn<K>(x: Node<K>, n: Node<K>)
    reads x, n
  {
    n.lo < x.slot < n.hi
  }

  twostate predicate InOldSpan<K>(new x: Node<K>, n: Node<K>)
    reads x
  {
    old(n.lo) < x.slot < old(n.hi)
  }

  twostate predicate SameLabels<K>(n: Node<K>)
    reads n
  {
    && n.slot == old(n.slot) && n.lo == old(n.lo) && n.hi == old(n.hi)
    && n.height == old(n.height) && n.balance == old(n.balance)
  }

  twostate predicate SameSpan<K>(n: Node<K>)
    reads n
  {
    n.slot == old(n.slot) && n.lo == old(n.lo) && n.hi == old(n.hi)
  }

  twostate predicate SameChildren<K>(n: Node<K>)
    reads n
  {
    n.left == old(n.left) && n.right == old(n.right)
  }

  twostate predicate SameParent<K>(n: Node<K>)
    reads n
  {
    n.parent == old(n.parent)
  }

  // What the comparison functions handed to a tree have to be.
  ghost predicate TotalPreorder<K(!new)>(comp: (K, K) -> int)
  {
    forall a, b, c {:trigger Triple(a, b, c)} :: Triple(a, b, c) ==>
      && (comp(a, b) < 0 <==> comp(b, a) > 0)
      && (comp(a, b) <= 0 && comp(b, c) <= 0 ==> comp(a, c) <= 0)
  }

  // Only names the keys at which a TotalPreorder is to be used.
  ghost predicate Triple<K>(a: K, b: K, c: K) { true }

  lemma Preorder<K(!new)>(comp: (K, K) -> int, a: K, b: K, c: K)
    requires TotalPreorder(comp)
    ensures comp(a, a) == 0
    ensures (comp(a, b) < 0 <==> comp(b, a) > 0) && (comp(a, b) == 0 <==> comp(b, a) == 0)
    ensures (comp(b, c) < 0 <==> comp(c, b) > 0) && (comp(b, c) == 0 <==> comp(c, b) == 0)
    ensures (comp(a, c) < 0 <==> comp(c, a) > 0) && (comp(a, c) == 0 <==> comp(c, a) == 0)
    ensures comp(a, b) <= 0 && comp(b, c) <= 0 ==> comp(a, c) <= 0
    ensures comp(a, b) < 0 && comp(b, c) <= 0 ==> comp(a, c) < 0
    ensures comp(a, b) <= 0 && comp(b, c) < 0 ==> comp(a, c) < 0
  {
    assert Triple(a, a, a) && Triple(a, b, c) && Triple(b, c, a) && Triple(c, a, b);
    assert Triple(a, c, b) && Triple(c, b, a) && Triple(b, a, c);
  }

  function IndexOf<T(==)>(s: seq<T>, x: T): (i: nat)
    requires x in s
    ensures i < |s| && s[i] == x && x !in s[..i]
  {
    if s[0] == x then 0 else 1 + IndexOf(s[1..], x)
  }

  function InsertAt<T>(s: seq<T>, k: nat, x: T): (r: seq<T>)
    requires k <= |s|
    ensures |r| == |s| + 1 && r[k] == x
    ensures forall i {:trigger r[i]} :: 0 <= i <= |s| ==> r[i] == if i < k then s[i] else if i == k then x else s[i - 1]
  {
    s[..k] + [x] + s[k..]
  }

  function RemoveAt<T>(s: seq<T>, k: nat): (r: seq<T>)
    requires k < |s|
    ensures |r| == |s| - 1
    ensures forall i {:trigger r[i]} :: 0 <= i < |r| ==> r[i] == if i < k then s[i] else s[i + 1]
  {
    s[..k] + s[k + 1..]
  }

  ghost predicate Ascending<K>(s: seq<Node<K>>)
    reads s
  {
    forall i, j :: 0 <= i < j < |s| ==> s[i].slot < s[j].slot
  }

  lemma AscendingJoin<K>(l: seq<Node<K>>, n: Node<K>, r: seq<Node<K>>)
    requires Ascending(l) && Ascending(r)
    requires (forall x :: x in l ==> x.slot < n.slot) && (forall x :: x in r ==> n.slot < x.slot)
    ensures Ascending(l + [n] + r)
  {
    var s := l + [n] + r;
    forall i, j | 0 <= i < j < |s|
      ensures s[i].slot < s[j].slot
    {
      assert s[i] in l || s[i] == n || s[i] in r;
      assert s[j] in l || s[j] == n || s[j] in r;
    }
  }

  lemma {:induction false} AscendingUnique<K>(a: seq<Node<K>>, b: seq<Node<K>>)
    requires Ascending(a) && Ascending(b) && forall x :: x in a <==> x in b
    ensures a == b
  {
    if a == [] {
      assert forall i :: 0 <= i < |b| ==> b[i] in b;
    } else {
      assert a[0] in b;
      var i, j := IndexOf(b, a[0]), IndexOf(a, b[0]);
      assert a[0] == b[0];
      forall x
        ensures x in a[1..] <==> x in b[1..]
      {
        assert (x in a <==> x == a[0] || x in a[1..]) && (x in b <==> x == b[0] || x in b[1..]);
        assert a[0] !in a[1..] && b[0] !in b[1..];
      }
      AscendingUnique(a[1..], b[1..]);
    }
  }

  // The entries of a list that start a group of equal keys.
  ghost function Leaders<K>(l: seq<Node<K>>): seq<Node<K>>
    reads l
  {
    if l == [] then [] else (if l[0].leader then [l[0]] else []) + Leaders(l[1..])
  }

  class Tree<K(!new)> {
    const comp: (K, K) -> int
    const allowDups: bool
    var root: Node?<K>
    var list: seq<Node<K>>
    var count: nat
    ghost var tn: set<Node<K>>

    ghost predicate NodeOk(n: Node<K>)
      reads this`root, this`tn, tn, n
    {
      && 0.0 <= n.lo < n.slot < n.hi <= 1.0
      && (n.left != null ==> n.left in tn && n.left.parent == n && n.left.lo == n.lo && n.left.hi == n.slot)
      && (n.right != null ==> n.right in tn && n.right.parent == n && n.right.lo == n.slot && n.right.hi == n.hi)
      && (n.parent == null ==> n == root)
      && (n.parent != null ==> n.parent in tn && (n.parent.left == n || n.parent.right == n))
    }

    ghost predicate GapOk(n: Node<K>, x: Node<K>)
      reads n, x
    {
      || n == x
      || x.hi <= n.lo || n.hi <= x.lo
      || (n.left != null && n.lo <= x.lo && x.hi <= n.slot)
      || (n.right != null && n.slot <= x.lo && x.hi <= n.hi)
      || (x.lo <= n.lo && n.hi <= x.slot)
      || (x.slot <= n.lo && n.hi <= x.hi)
    }

    ghost predicate Shape()
      reads this`root, this`tn, tn
    {
      && (root == null ==> tn == {})
      && (root != null ==> root in tn && root.parent == null && root.lo == 0.0 && root.hi == 1.0)
      && (forall n {:trigger NodeOk(n)} :: n in tn ==> NodeOk(n))
      && (forall n, x {:trigger GapOk(n, x)} :: n in tn && x in tn ==> GapOk(n, x))
    }

    twostate predicate Redirected(parent: Node?<K>, from: Node<K>, new to: Node<K>)
      reads this, parent
    {
      && (parent == null ==> root == to)
      && (parent != null ==>
        && root == old(root)
        && parent.left == (if old(parent.left) == from then to else old(parent.left))
        && parent.right == (if old(parent.left) == from then old(parent.right) else to))
    }

    // node's place below its old parent is taken by `top`.
    twostate predicate Replaced(node: Node<K>, top: Node<K>)
      requires tn == old(tn) && old(node.parent != null ==> node.parent in tn)
      reads this, tn, node, top
    {
      && top.parent == old(node.parent) && Redirected(old(node.parent), node, top)
      && top.lo == old(node.lo) && top.hi == old(node.hi)
    }

    // No node as high as `top` was relabelled.
    twostate predicate HigherKept(node: Node<K>, top: Node<K>)
      requires tn == old(tn)
      reads this, tn, node, top
    {
      forall n :: n in tn && n != top && n.height >= top.height ==> n != node && SameLabels(n)
    }

    // p has `top` where it had `from`; its own labels and its other subtree's height are as before.
    twostate predicate OnlyChildChanged(p: Node<K>, from: Node<K>, top: Node<K>)
      requires old(p.left != null ==> p.left in tn) && old(p.right != null ==> p.right in tn) && tn == old(tn)
      reads this, tn, p
    {
      && SameLabels(p)
      && (old(p.left) == from ==> p.left == top && p.right == old(p.right) && H(p.right) == old(H(p.right)))
      && (old(p.left) != from ==> p.right == top && p.left == old(p.left) && H(p.left) == old(H(p.left)))
    }

    // Every tree node but n of height h or more is in `up`; the climb towards the root uses it up.
    ghost predicate HigherIn(up: set<Node<K>>, n: Node<K>, h: int)
      reads this`tn, tn
    {
      forall x :: x in tn && x != n && x.height >= h ==> x in up
    }

    // The parent's balance and height are right for a child that is d levels higher than node is.
    ghost predicate Stale(node: Node<K>, d: int)
      requires Shape() && node in tn
      reads this`root, this`tn, tn
    {
      node.parent != null ==>
        && NodeOk(node) && NodeOk(node.parent) && -1 <= node.parent.balance <= 1
        && (node == node.parent.left ==> BalWith(node.parent, node.height + d, H(node.parent.right)))
        && (node == node.parent.right ==> BalWith(node.parent, H(node.parent.left), node.height + d))
    }

    // Writes a node's balance and records its height; links and spans stay.
    method SetBalance(n: Node<K>, balance: int, ghost height: nat)
      requires Shape() && n in tn
      modifies n`balance, n`height
      ensures Shape() && n.balance == balance && n.height == height
      ensures forall x {:trigger BalAt(x)} ::
        x in tn && x != n && (x != n.parent || height == old(n.height)) && old(BalAt(x)) ==> BalAt(x)
    {
      n.balance := balance;
      n.height := height;
      SpansKept();
      forall x | x in tn && x != n && (x != n.parent || height == old(n.height)) && old(BalAt(x))
        ensures BalAt(x)
      {
        assert NodeOk(x);
      }
    }

    twostate lemma SpansKept()
      requires old(Shape()) && tn == old(tn) && root == old(root)
      requires forall n :: n in old(tn) ==> SameParent(n) && SameChildren(n) && SameSpan(n)
      ensures Shape()
    {
      forall n, x | n in tn && x in tn
        ensures NodeOk(n) && GapOk(n, x)
      {
        assert old(NodeOk(n) && GapOk(n, x));
      }
    }

    method Redirect(parent: Node?<K>, from: Node<K>, to: Node<K>)
      modifies this`root, Opt(parent)`left, Opt(parent)`right
      ensures Redirected(parent, from, to)
    {
      if parent == null {
        root := to;
      } else if parent.left == from {
        parent.left := to;
      } else {
        parent.right := to;
      }
    }

    // The nodes around a right rotation: the node, its left child, its parent and the subtree between them.
    ghost predicate RightPivot(node: Node<K>, child: Node<K>, p: Node?<K>, mid: Node?<K>)
      reads node, child
    {
      && child == node.left && p == node.parent && mid == child.right
      && child != node && p != node && p != child && mid != node && mid != child && (p == mid ==> p == null)
      && child.left != node && child.left != child && node.right != node && node.right != child
    }

    lemma RightPivotOfShape(node: Node<K>)
      requires Shape() && node in tn && node.left != null
      ensures RightPivot(node, node.left, node.parent, node.left.right)
      ensures node.left in tn && (node.parent != null ==> node.parent in tn)
      ensures node.left.right != null ==> node.left.right in tn
      ensures NodeOk(node) && NodeOk(node.left) && (root != null ==> NodeOk(root))
    {
      assert NodeOk(node) && NodeOk(node.left);
      assert node.parent != null ==> NodeOk(node.parent);
      assert node.left.right != null ==> NodeOk(node.left.right);
      assert node.right != null ==> NodeOk(node.right);
    }

    method LinkRight(node: Node<K>, child: Node<K>, ghost p: Node?<K>, ghost mid: Node?<K>)
      requires RightPivot(node, child, p, mid)
      modifies this`root, {node, child}`left, {node, child}`right, {node, child}`parent
      modifies node`lo, child`hi, Opt(p)`left, Opt(p)`right, Opt(mid)`parent
      ensures child.hi == node.hi && node.lo == child.slot
      ensures child.parent == p && child.left == old(child.left) && child.right == node
      ensures node.parent == child && node.left == mid && node.right == old(node.right)
      ensures Redirected(p, node, child)
      ensures mid != null ==> mid.parent == node
    {
      var parent := node.parent;
      child.parent := parent;
      node.parent := child;
      Redirect(parent, node, child);
      node.left := child.right;
      child.right := node;
      if node.left != null {
        node.left.parent := node;
      }
      child.hi := node.hi;
      node.lo := child.slot;
    }

    // The balance arithmetic of a right rotation is exact for any two heights, in range or not.
    method BalanceRight(node: Node<K>, child: Node<K>, ghost a: Node?<K>, ghost mid: Node?<K>, ghost c: Node?<K>)
      requires child != node && a !in {node, child} && mid !in {node, child} && c !in {node, child}
      requires child.left == a && child.right == node && node.left == mid && node.right == c
      requires BalWith(child, H(a), H(mid)) && BalWith(node, child.height, H(c))
      modifies {node, child}`balance, {node, child}`height
      ensures BalOk(node) && BalOk(child)
    {
      node.balance := node.balance + 1 - Min(child.balance, 0);
      child.balance := child.balance + 1 + Max(node.balance, 0);
      node.height := 1 + Max(H(node.left), H(node.right));
      child.height := 1 + Max(H(child.left), H(child.right));
    }

    // What a right rotation changes, field by field.
    twostate predicate RotatedRight(node: Node<K>, child: Node<K>, p: Node?<K>, mid: Node?<K>)
      reads this, tn, node, child, p, mid
    {
      && tn == old(tn)
      && (forall n :: n in old(tn) && n != node && n != child ==> SameLabels(n))
      && (forall n :: n in old(tn) && n != node && n != child && n != p ==> SameChildren(n))
      && (forall n :: n in old(tn) && n != node && n != child && n != mid ==> SameParent(n))
      && child.parent == p && child.left == old(child.left) && child.right == node
      && node.parent == child && node.left == mid && node.right == old(node.right)
      && child.lo == old(node.lo) && child.hi == old(node.hi) && node.lo == child.slot && node.hi == old(node.hi)
      && node.slot == old(node.slot) && child.slot == old(child.slot)
      && Redirected(p, node, child) && (mid != null ==> mid.parent == node)
    }

    twostate lemma RotateRightNodes(node: Node<K>)
      requires old(Shape() && node in tn && node.left != null)
      requires RotatedRight(node, old(node.left), old(node.parent), old(node.left.right))
      ensures forall n {:trigger NodeOk(n)} :: n in tn ==> NodeOk(n)
    {
      assert old(NodeOk(node) && NodeOk(node.left));
      assert old(node.parent != null ==> NodeOk(node.parent));
      assert old(node.left.right != null ==> NodeOk(node.left.right));
      forall n | n in tn
        ensures NodeOk(n)
      {
        assert old(NodeOk(n));
      }
    }

    twostate lemma RotateRightGaps(node: Node<K>)
      requires old(Shape() && node in tn && node.left != null)
      requires RotatedRight(node, old(node.left), old(node.parent), old(node.left.right))
      ensures forall n, x {:trigger GapOk(n, x)} :: n in tn && x in tn ==> GapOk(n, x)
    {
      var child := old(node.left);
      assert old(NodeOk(node) && NodeOk(child));
      forall n, x | n in tn && x in tn
        ensures GapOk(n, x)
      {
        if n == node || n == child {
          assert x != node && x != child ==> old(GapOk(node, x) && GapOk(child, x) && NodeOk(x));
        } else if x == node || x == child {
          assert old(GapOk(n, node) && GapOk(n, child) && NodeOk(n));
        } else {
          assert old(GapOk(n, x));
        }
      }
    }

    method RelinkRight(node: Node<K>, child: Node<K>, ghost p: Node?<K>, ghost mid: Node?<K>)
      requires RightPivot(node, child, p, mid) && BalOk(node) && BalOk(child) && child.lo == node.lo
      requires node in tn && child in tn && (p != null ==> p in tn) && (mid != null ==> mid in tn)
      modifies this`root, {node, child}`left, {node, child}`right, {node, child}`parent
      modifies {node, child}`balance, {node, child}`height, node`lo, child`hi
      modifies Opt(p)`left, Opt(p)`right, Opt(mid)`parent
      ensures RotatedRight(node, child, p, mid) && BalOk(node) && BalOk(child)
    {
      LinkRight(node, child, p, mid);
      BalanceRight(node, child, child.left, mid, node.right);
    }

    method RotateRight(node: Node<K>)
      requires Shape()
      requires node in tn && node.left != null && BalOk(node) && BalOk(node.left)
      modifies this`root, {node, node.left}`left, {node, node.left}`right, {node, node.left}`parent
      modifies {node, node.left}`balance, {node, node.left}`height, node`lo, node.left`hi
      modifies Opt(node.parent)`left, Opt(node.parent)`right, Opt(node.left.right)`parent
      ensures RotatedRight(node, old(node.left), old(node.parent), old(node.left.right))
      ensures Shape()
      ensures BalOk(node) && BalOk(old(node.left))
      ensures forall n {:trigger BalAt(n)} ::
        n in tn && n != node && n != old(node.left) && n != old(node.parent) && old(BalAt(n)) ==> BalAt(n)
    {
      RightPivotOfShape(node);
      RelinkRight(node, node.left, node.parent, node.left.right);
      RotateRightNodes(node);
      RotateRightGaps(node);
      RotateRightBalance(node);
    }

    twostate lemma RotateRightBalance(node: Node<K>)
      requires old(Shape() && node in tn && node.left != null)
      requires RotatedRight(node, old(node.left), old(node.parent), old(node.left.right))
      ensures forall n {:trigger BalAt(n)} ::
        n in tn && n != node && n != old(node.left) && n != old(node.parent) && old(BalAt(n)) ==> BalAt(n)
    {
      forall n | n in tn && n != node && n != old(node.left) && n != old(node.parent) && old(BalAt(n))
        ensures BalAt(n)
      {
        assert old(NodeOk(n));
        assert old(n.left != node && n.left != node.left && n.right != node && n.right != node.left) by {
          assert old(NodeOk(node) && NodeOk(node.left));
        }
      }
    }

    // A right rotation as its callers see it.
    method SingleRight(node: Node<K>) returns (ghost top: Node<K>)
      requires Shape() && node in tn && NodeOk(node) && node.left != null && BalOk(node) && BalOk(node.left)
      modifies this`root, tn`left, tn`right, tn`parent, tn`balance, tn`height, tn`lo, tn`hi
      ensures Shape() && top == old(node.left) == node.parent && top in tn
      ensures top.right == node && top.left == old(node.left.left)
      ensures node.left == old(node.left.right) && node.right == old(node.right)
      ensures BalOk(node) && BalOk(top)
      ensures H(top.left) == old(H(node.left.left)) && H(node.left) == old(H(node.left.right))
        && H(node.right) == old(H(node.right))
      ensures forall n {:trigger BalAt(n)} ::
        n in tn && n != node && n != top && n != old(node.parent) && old(BalAt(n)) ==> BalAt(n)
      ensures forall n :: n in tn && n != node && n != top ==> SameLabels(n)
      ensures Replaced(node, top) && HigherKept(node, top)
    {
      assert NodeOk(node) && NodeOk(node.left);
      assert node.parent != null ==> NodeOk(node.parent);
      top := node.left;
      RotateRight(node);
    }

    // Repairs a node two levels too deep on the left; the subtree's new root is `top`.
    method FixRight(node: Node<K>) returns (ghost top: Node<K>)
      requires Shape() && node in tn && NodeOk(node) && BalOk(node) && node.balance == -2
      requires forall n {:trigger BalAt(n)} :: n in tn && n != node && n != node.parent ==> BalAt(n)
      modifies this`root, tn`left, tn`right, tn`parent, tn`balance, tn`height, tn`lo, tn`hi
      ensures Shape() && top in tn && top == node.parent
      ensures forall n {:trigger BalAt(n)} :: n in tn && n != old(node.parent) ==> BalAt(n)
      ensures Replaced(node, top) && HigherKept(node, top)
      ensures forall n :: n in tn && n != node && n != old(node.left) && n != old(node.left.right) ==> SameLabels(n)
      ensures top.height == old(node.height) - (if old(node.left.balance) == 0 then 0 else 1)
    {
      assert NodeOk(node.left) && (node.parent != null ==> NodeOk(node.parent));
      assert BalAt(node.left);
      if node.left.balance == 1 {
        top := DoubleRight(node);
      } else {
        top := SingleRight(node);
        assert BalAt(node) && BalAt(top);
      }
    }

    twostate lemma RepairedRightSeenAbove(node: Node<K>)
      requires old(Shape() && node in tn && node.left != null && node.parent != null) && tn == old(tn)
      requires old(NodeOk(node) && NodeOk(node.parent)) && node.parent in tn && Replaced(node, node.parent)
      requires forall n :: n in tn && n != node && n != old(node.left) && n != old(node.left.right) ==> SameLabels(n)
      ensures OnlyChildChanged(old(node.parent), node, node.parent)
    {
      assert old(NodeOk(node.left));
      assert old(node.left.right != null ==> NodeOk(node.left.right));
    }

    method DoubleRight(node: Node<K>) returns (ghost top: Node<K>)
      requires Shape() && node in tn && NodeOk(node) && BalOk(node) && node.balance == -2
      requires node.left != null && node.left.balance == 1
      requires forall n {:trigger BalAt(n)} :: n in tn && n != node && n != node.parent ==> BalAt(n)
      modifies this`root, tn`left, tn`right, tn`parent, tn`balance, tn`height, tn`lo, tn`hi
      ensures Shape() && top in tn && top == node.parent
      ensures forall n {:trigger BalAt(n)} :: n in tn && n != old(node.parent) ==> BalAt(n)
      ensures Replaced(node, top) && HigherKept(node, top) && top.height == old(node.height) - 1
      ensures forall n :: n in tn && n != node && n != old(node.left) && n != old(node.left.right) ==> SameLabels(n)
    {
      TwistRight(node);
      top := SingleRight(node);
      assert BalAt(node) && BalAt(top);
    }

    // The first half of a double rotation leaves all heights on the way up as they were.
    method TwistRight(node: Node<K>)
      requires Shape() && node in tn && BalOk(node)
      requires node.left != null && node.left.balance == 1
      requires forall n {:trigger BalAt(n)} :: n in tn && n != node && n != node.parent ==> BalAt(n)
      modifies this`root, tn`left, tn`right, tn`parent, tn`balance, tn`height, tn`lo, tn`hi
      ensures Shape() && BalOk(node) && node.left != null && BalOk(node.left)
      ensures node.left.left == old(node.left) && node.left.height == old(node.left.height)
        && -2 <= node.left.balance < 0
      ensures SameParent(node) && SameLabels(node) && node.right == old(node.right)
      ensures BalAt(old(node.left))
      ensures forall n {:trigger BalAt(n)} :: n in tn && n != node && n != node.parent && n != node.left ==> BalAt(n)
      ensures node.left == old(node.left.right)
      ensures forall n :: n in tn && n != node.left && n != old(node.left) ==> SameLabels(n)
      ensures root == old(root) && (node.parent != null ==> SameChildren(node.parent))
    {
      assert NodeOk(node) && NodeOk(node.left) && (node.parent != null ==> NodeOk(node.parent));
      assert BalAt(node.left) && NodeOk(node.left.right);
      assert BalAt(node.left.right);
      RotateLeft(node.left);
    }

    // The nodes around a left rotation: the node, its right child, its parent and the subtree between them.
    ghost predicate LeftPivot(node: Node<K>, child: Node<K>, p: Node?<K>, mid: Node?<K>)
      reads node, child
    {
      && child == node.right && p == node.parent && mid == child.left
      && child != node && p != node && p != child && mid != node && mid != child && (p == mid ==> p == null)
      && child.right != node && child.right != child && node.left != node && node.left != child
    }

    lemma LeftPivotOfShape(node: Node<K>)
      requires Shape() && node in tn && node.right != null
      ensures LeftPivot(node, node.right, node.parent, node.right.left)
      ensures node.right in tn && (node.parent != null ==> node.parent in tn)
      ensures node.right.left != null ==> node.right.left in tn
      ensures NodeOk(node) && NodeOk(node.right) && (root != null ==> NodeOk(root))
    {
      assert NodeOk(node) && NodeOk(node.right);
      assert node.parent != null ==> NodeOk(node.parent);
      assert node.right.left != null ==> NodeOk(node.right.left);
      assert node.left != null ==> NodeOk(node.left);
    }

    method LinkLeft(node: Node<K>, child: Node<K>, ghost p: Node?<K>, ghost mid: Node?<K>)
      requires LeftPivot(node, child, p, mid)
      modifies this`root, {node, child}`right, {node, child}`left, {node, child}`parent
      modifies node`hi, child`lo, Opt(p)`right, Opt(p)`left, Opt(mid)`parent
      ensures child.lo == node.lo && node.hi == child.slot
      ensures child.parent == p && child.right == old(child.right) && child.left == node
      ensures node.parent == child && node.right == mid && node.left == old(node.left)
      ensures Redirected(p, node, child)
      ensures mid != null ==> mid.parent == node
    {
      var parent := node.parent;
      child.parent := parent;
      node.parent := child;
      Redirect(parent, node, child);
      node.right := child.left;
      child.left := node;
      if node.right != null {
        node.right.parent := node;
      }
      child.lo := node.lo;
      node.hi := child.slot;
    }

    // The balance arithmetic of a left rotation is exact for any two heights, in range or not.
    method BalanceLeft(node: Node<K>, child: Node<K>, ghost a: Node?<K>, ghost mid: Node?<K>, ghost c: Node?<K>)
      requires child != node && a !in {node, child} && mid !in {node, child} && c !in {node, child}
      requires child.right == a && child.left == node && node.right == mid && node.left == c
      requires BalWith(child, H(mid), H(a)) && BalWith(node, H(c), child.height)
      modifies {node, child}`balance, {node, child}`height
      ensures BalOk(node) && BalOk(child)
    {
      node.balance := node.balance - (1 + Max(child.balance, 0));
      child.balance := child.balance - (1 - Min(node.balance, 0));
      node.height := 1 + Max(H(node.right), H(node.left));
      child.height := 1 + Max(H(child.right), H(child.left));
    }

    // What a left rotation changes, field by field.
    twostate predicate RotatedLeft(node: Node<K>, child: Node<K>, p: Node?<K>, mid: Node?<K>)
      reads this, tn, node, child, p, mid
    {
      && tn == old(tn)
      && (forall n :: n in old(tn) && n != node && n != child ==> SameLabels(n))
      && (forall n :: n in old(tn) && n != node && n != child && n != p ==> SameChildren(n))
      && (forall n :: n in old(tn) && n != node && n != child && n != mid ==> SameParent(n))
      && child.parent == p && child.right == old(child.right) && child.left == node
      && node.parent == child && node.right == mid && node.left == old(node.left)
      && child.hi == old(node.hi) && child.lo == old(node.lo) && node.hi == child.slot && node.lo == old(node.lo)
      && node.slot == old(node.slot) && child.slot == old(child.slot)
      && Redirected(p, node, child) && (mid != null ==> mid.parent == node)
    }

    twostate lemma RotateLeftNodes(node: Node<K>)
      requires old(Shape() && node in tn && node.right != null)
      requires RotatedLeft(node, old(node.right), old(node.parent), old(node.right.left))
      ensures forall n {:trigger NodeOk(n)} :: n in tn ==> NodeOk(n)
    {
      assert old(NodeOk(node) && NodeOk(node.right));
      assert old(node.parent != null ==> NodeOk(node.parent));
      assert old(node.right.left != null ==> NodeOk(node.right.left));
      forall n | n in tn
        ensures NodeOk(n)
      {
        assert old(NodeOk(n));
      }
    }

    twostate lemma RotateLeftGaps(node: Node<K>)
      requires old(Shape() && node in tn && node.right != null)
      requires RotatedLeft(node, old(node.right), old(node.parent), old(node.right.left))
      ensures forall n, x {:trigger GapOk(n, x)} :: n in tn && x in tn ==> GapOk(n, x)
    {
      var child := old(node.right);
      assert old(NodeOk(node) && NodeOk(child));
      forall n, x | n in tn && x in tn
        ensures GapOk(n, x)
      {
        if n == node || n == child {
          assert x != node && x != child ==> old(GapOk(node, x) && GapOk(child, x) && NodeOk(x));
        } else if x == node || x == child {
          assert old(GapOk(n, node) && GapOk(n, child) && NodeOk(n));
        } else {
          assert old(GapOk(n, x));
        }
      }
    }

    method RelinkLeft(node: Node<K>, child: Node<K>, ghost p: Node?<K>, ghost mid: Node?<K>)
      requires LeftPivot(node, child, p, mid) && BalOk(node) && BalOk(child) && child.hi == node.hi
      requires node in tn && child in tn && (p != null ==> p in tn) && (mid != null ==> mid in tn)
      modifies this`root, {node, child}`right, {node, child}`left, {node, child}`parent
      modifies {node, child}`balance, {node, child}`height, node`hi, child`lo
      modifies Opt(p)`right, Opt(p)`left, Opt(mid)`parent
      ensures RotatedLeft(node, child, p, mid) && BalOk(node) && BalOk(child)
    {
      LinkLeft(node, child, p, mid);
      BalanceLeft(node, child, child.right, mid, node.left);
    }

    method RotateLeft(node: Node<K>)
      requires Shape()
      requires node in tn && node.right != null && BalOk(node) && BalOk(node.right)
      modifies this`root, {node, node.right}`right, {node, node.right}`left, {node, node.right}`parent
      modifies {node, node.right}`balance, {node, node.right}`height, node`hi, node.right`lo
      modifies Opt(node.parent)`right, Opt(node.parent)`left, Opt(node.right.left)`parent
      ensures RotatedLeft(node, old(node.right), old(node.parent), old(node.right.left))
      ensures Shape()
      ensures BalOk(node) && BalOk(old(node.right))
      ensures forall n {:trigger BalAt(n)} ::
        n in tn && n != node && n != old(node.right) && n != old(node.parent) && old(BalAt(n)) ==> BalAt(n)
    {
      LeftPivotOfShape(node);
      RelinkLeft(node, node.right, node.parent, node.right.left);
      RotateLeftNodes(node);
      RotateLeftGaps(node);
      RotateLeftBalance(node);
    }

    twostate lemma RotateLeftBalance(node: Node<K>)
      requires old(Shape() && node in tn && node.right != null)
      requires RotatedLeft(node, old(node.right), old(node.parent), old(node.right.left))
      ensures forall n {:trigger BalAt(n)} ::
        n in tn && n != node && n != old(node.right) && n != old(node.parent) && old(BalAt(n)) ==> BalAt(n)
    {
      forall n | n in tn && n != node && n != old(node.right) && n != old(node.parent) && old(BalAt(n))
        ensures BalAt(n)
      {
        assert old(NodeOk(n));
        assert old(n.right != node && n.right != node.right && n.left != node && n.left != node.right) by {
          assert old(NodeOk(node) && NodeOk(node.right));
        }
      }
    }

    // A left rotation as its callers see it.
    method SingleLeft(node: Node<K>) returns (ghost top: Node<K>)
      requires Shape() && node in tn && NodeOk(node) && node.right != null && BalOk(node) && BalOk(node.right)
      modifies this`root, tn`right, tn`left, tn`parent, tn`balance, tn`height, tn`hi, tn`lo
      ensures Shape() && top == old(node.right) == node.parent && top in tn
      ensures top.left == node && top.right == old(node.right.right)
      ensures node.right == old(node.right.left) && node.left == old(node.left)
      ensures BalOk(node) && BalOk(top)
      ensures H(top.right) == old(H(node.right.right)) && H(node.right) == old(H(node.right.left))
        && H(node.left) == old(H(node.left))
      ensures forall n {:trigger BalAt(n)} ::
        n in tn && n != node && n != top && n != old(node.parent) && old(BalAt(n)) ==> BalAt(n)
      ensures forall n :: n in tn && n != node && n != top ==> SameLabels(n)
      ensures Replaced(node, top) && HigherKept(node, top)
    {
      assert NodeOk(node) && NodeOk(node.right);
      assert node.parent != null ==> NodeOk(node.parent);
      top := node.right;
      RotateLeft(node);
    }

    // Repairs a node two levels too deep on the right; the subtree's new root is `top`.
    method FixLeft(node: Node<K>) returns (ghost top: Node<K>)
      requires Shape() && node in tn && NodeOk(node) && BalOk(node) && node.balance == 2
      requires forall n {:trigger BalAt(n)} :: n in tn && n != node && n != node.parent ==> BalAt(n)
      modifies this`root, tn`right, tn`left, tn`parent, tn`balance, tn`height, tn`hi, tn`lo
      ensures Shape() && top in tn && top == node.parent
      ensures forall n {:trigger BalAt(n)} :: n in tn && n != old(node.parent) ==> BalAt(n)
      ensures Replaced(node, top) && HigherKept(node, top)
      ensures forall n :: n in tn && n != node && n != old(node.right) && n != old(node.right.left) ==> SameLabels(n)
      ensures top.height == old(node.height) - (if old(node.right.balance) == 0 then 0 else 1)
    {
      assert NodeOk(node.right) && (node.parent != null ==> NodeOk(node.parent));
      assert BalAt(node.right);
      if node.right.balance == -1 {
        top := DoubleLeft(node);
      } else {
        top := SingleLeft(node);
        assert BalAt(node) && BalAt(top);
      }
    }

    twostate lemma RepairedLeftSeenAbove(node: Node<K>)
      requires old(Shape() && node in tn && node.right != null && node.parent != null) && tn == old(tn)
      requires old(NodeOk(node) && NodeOk(node.parent)) && node.parent in tn && Replaced(node, node.parent)
      requires forall n :: n in tn && n != node && n != old(node.right) && n != old(node.right.left) ==> SameLabels(n)
      ensures OnlyChildChanged(old(node.parent), node, node.parent)
    {
      assert old(NodeOk(node.right));
      assert old(node.right.left != null ==> NodeOk(node.right.left));
    }

    method DoubleLeft(node: Node<K>) returns (ghost top: Node<K>)
      requires Shape() && node in tn && NodeOk(node) && BalOk(node) && node.balance == 2
      requires node.right != null && node.right.balance == -1
      requires forall n {:trigger BalAt(n)} :: n in tn && n != node && n != node.parent ==> BalAt(n)
      modifies this`root, tn`right, tn`left, tn`parent, tn`balance, tn`height, tn`hi, tn`lo
      ensures Shape() && top in tn && top == node.parent
      ensures forall n {:trigger BalAt(n)} :: n in tn && n != old(node.parent) ==> BalAt(n)
      ensures Replaced(node, top) && HigherKept(node, top) && top.height == old(node.height) - 1
      ensures forall n :: n in tn && n != node && n != old(node.right) && n != old(node.right.left) ==> SameLabels(n)
    {
      TwistLeft(node);
      top := SingleLeft(node);
      assert BalAt(node) && BalAt(top);
    }

    // The first half of a double rotation leaves all heights on the way up as they were.
    method TwistLeft(node: Node<K>)
      requires Shape() && node in tn && BalOk(node)
      requires node.right != null && node.right.balance == -1
      requires forall n {:trigger BalAt(n)} :: n in tn && n != node && n != node.parent ==> BalAt(n)
      modifies this`root, tn`right, tn`left, tn`parent, tn`balance, tn`height, tn`hi, tn`lo
      ensures Shape() && BalOk(node) && node.right != null && BalOk(node.right)
      ensures node.right.right == old(node.right) && node.right.height == old(node.right.height)
        && 0 < node.right.balance <= 2
      ensures SameParent(node) && SameLabels(node) && node.left == old(node.left)
      ensures BalAt(old(node.right))
      ensures forall n {:trigger BalAt(n)} :: n in tn && n != node && n != node.parent && n != node.right ==> BalAt(n)
      ensures node.right == old(node.right.left)
      ensures forall n :: n in tn && n != node.right && n != old(node.right) ==> SameLabels(n)
      ensures root == old(root) && (node.parent != null ==> SameChildren(node.parent))
    {
      assert NodeOk(node) && NodeOk(node.right) && (node.parent != null ==> NodeOk(node.parent));
      assert BalAt(node.right) && NodeOk(node.right.left);
      assert BalAt(node.right.left);
      RotateRight(node.right);
    }

    // The left subtree of `parent` has become one level deeper.
    method LeftGrew(parent: Node<K>, ghost up: set<Node<K>>)
      requires Shape() && parent in tn && parent.left != null
      requires parent.left.balance != 0 || parent.balance != -1
      requires forall n {:trigger BalAt(n)} :: n in tn && n != parent ==> BalAt(n)
      requires BalWith(parent, H(parent.left) - 1, H(parent.right)) && -1 <= parent.balance <= 1
      requires HigherIn(up, parent, parent.height + 1)
      modifies this`root, tn`left, tn`right, tn`parent, tn`balance, tn`height, tn`lo, tn`hi
      ensures Shape() && forall n {:trigger BalAt(n)} :: n in tn ==> BalAt(n)
      decreases up, 1
    {
      assert NodeOk(parent);
      if parent.balance == 1 {
        SetBalance(parent, 0, parent.height);
        assert BalAt(parent);
        return;
      }
      ghost var above := parent.parent;
      assert above != null ==> NodeOk(above) && BalAt(above);
      SetBalance(parent, parent.balance - 1, parent.height + 1);
      assert BalOk(parent) && Stale(parent, -1);
      if parent.balance == -1 {
        PostInsert(parent, up);
        return;
      }
      LeftTooDeep(parent);
    }

    // After an insertion, a repair brings the subtree back to the height its parent knows.
    method LeftTooDeep(node: Node<K>)
      requires Shape() && node in tn && BalOk(node) && node.balance == -2
      requires node.left != null && node.left.balance != 0
      requires forall n {:trigger BalAt(n)} :: n in tn && n != node && n != node.parent ==> BalAt(n)
      requires Stale(node, -1)
      modifies this`root, tn`left, tn`right, tn`parent, tn`balance, tn`height, tn`lo, tn`hi
      ensures Shape() && forall n {:trigger BalAt(n)} :: n in tn ==> BalAt(n)
    {
      ghost var above := node.parent;
      ghost var top := FixRight(node);
      if above != null {
        RepairedRightSeenAbove(node);
        assert BalAt(above);
      }
    }

    // The right subtree of `parent` has become one level deeper.
    method RightGrew(parent: Node<K>, ghost up: set<Node<K>>)
      requires Shape() && parent in tn && parent.right != null
      requires parent.right.balance != 0 || parent.balance != 1
      requires forall n {:trigger BalAt(n)} :: n in tn && n != parent ==> BalAt(n)
      requires BalWith(parent, H(parent.left), H(parent.right) - 1) && -1 <= parent.balance <= 1
      requires HigherIn(up, parent, parent.height + 1)
      modifies this`root, tn`right, tn`left, tn`parent, tn`balance, tn`height, tn`hi, tn`lo
      ensures Shape() && forall n {:trigger BalAt(n)} :: n in tn ==> BalAt(n)
      decreases up, 1
    {
      assert NodeOk(parent);
      if parent.balance == -1 {
        SetBalance(parent, 0, parent.height);
        assert BalAt(parent);
        return;
      }
      ghost var above := parent.parent;
      assert above != null ==> NodeOk(above) && BalAt(above);
      SetBalance(parent, parent.balance + 1, parent.height + 1);
      assert BalOk(parent) && Stale(parent, -1);
      if parent.balance == 1 {
        PostInsert(parent, up);
        return;
      }
      RightTooDeep(parent);
    }

    // After an insertion, a repair brings the subtree back to the height its parent knows.
    method RightTooDeep(node: Node<K>)
      requires Shape() && node in tn && BalOk(node) && node.balance == 2
      requires node.right != null && node.right.balance != 0
      requires forall n {:trigger BalAt(n)} :: n in tn && n != node && n != node.parent ==> BalAt(n)
      requires Stale(node, -1)
      modifies this`root, tn`right, tn`left, tn`parent, tn`balance, tn`height, tn`hi, tn`lo
      ensures Shape() && forall n {:trigger BalAt(n)} :: n in tn ==> BalAt(n)
    {
      ghost var above := node.parent;
      ghost var top := FixLeft(node);
      if above != null {
        RepairedLeftSeenAbove(node);
        assert BalAt(above);
      }
    }

    method PostInsert(node: Node<K>, ghost up: set<Node<K>>)
      requires Shape() && node in tn && node.balance != 0
      requires forall n {:trigger BalAt(n)} :: n in tn && n != node.parent ==> BalAt(n)
      requires Stale(node, -1)
      requires HigherIn(up, node, node.height)
      modifies this`root, tn`left, tn`right, tn`parent, tn`balance, tn`height, tn`lo, tn`hi
      ensures Shape() && forall n {:trigger BalAt(n)} :: n in tn ==> BalAt(n)
      decreases up, 0
    {
      var parent := node.parent;
      if parent == null {
        return;
      }
      assert NodeOk(node) && NodeOk(parent);
      if node == parent.left {
        LeftGrew(parent, up - {parent});
      } else {
        RightGrew(parent, up - {parent});
      }
    }

    // The left subtree of `parent` has become one level shallower.
    method LeftShrank(parent: Node<K>, ghost up: set<Node<K>>)
      requires Shape() && parent in tn
      requires forall n {:trigger BalAt(n)} :: n in tn && n != parent ==> BalAt(n)
      requires BalWith(parent, H(parent.left) + 1, H(parent.right)) && -1 <= parent.balance <= 1
      requires HigherIn(up, parent, parent.height - 1)
      modifies this`root, tn`left, tn`right, tn`parent, tn`balance, tn`height, tn`lo, tn`hi
      ensures Shape() && forall n {:trigger BalAt(n)} :: n in tn ==> BalAt(n)
      decreases up, 2
    {
      assert NodeOk(parent);
      assert parent.parent != null ==> NodeOk(parent.parent) && BalAt(parent.parent);
      if parent.balance == -1 {
        SetBalance(parent, 0, parent.height - 1);
        assert BalAt(parent);
        PostDelete(parent, up);
        return;
      }
      SetBalance(parent, parent.balance + 1, parent.height);
      assert BalOk(parent);
      if parent.balance == 1 {
        return;
      }
      RightTooDeepAfterRemoval(parent, up);
    }

    // After a removal, a repair may leave the subtree one level lower than its parent knows.
    method RightTooDeepAfterRemoval(node: Node<K>, ghost up: set<Node<K>>)
      requires Shape() && node in tn && BalOk(node) && node.balance == 2
      requires forall n {:trigger BalAt(n)} :: n in tn && n != node ==> BalAt(n)
      requires HigherIn(up, node, node.height - 1)
      modifies this`root, tn`left, tn`right, tn`parent, tn`balance, tn`height, tn`lo, tn`hi
      ensures Shape() && forall n {:trigger BalAt(n)} :: n in tn ==> BalAt(n)
      decreases up, 1
    {
      ghost var above := node.parent;
      assert NodeOk(node);
      assert above != null ==> NodeOk(above) && BalAt(above);
      assert NodeOk(node);
      var level := node.right.balance == 0;
      ghost var top := FixLeft(node);
      if above != null {
        RepairedLeftSeenAbove(node);
        assert level ==> BalAt(above);
      }
      if !level {
        PostDelete(node.parent, up);
      }
    }

    // The right subtree of `parent` has become one level shallower.
    method RightShrank(parent: Node<K>, ghost up: set<Node<K>>)
      requires Shape() && parent in tn
      requires forall n {:trigger BalAt(n)} :: n in tn && n != parent ==> BalAt(n)
      requires BalWith(parent, H(parent.left), H(parent.right) + 1) && -1 <= parent.balance <= 1
      requires HigherIn(up, parent, parent.height - 1)
      modifies this`root, tn`right, tn`left, tn`parent, tn`balance, tn`height, tn`hi, tn`lo
      ensures Shape() && forall n {:trigger BalAt(n)} :: n in tn ==> BalAt(n)
      decreases up, 2
    {
      assert NodeOk(parent);
      assert parent.parent != null ==> NodeOk(parent.parent) && BalAt(parent.parent);
      if parent.balance == 1 {
        SetBalance(parent, 0, parent.height - 1);
        assert BalAt(parent);
        PostDelete(parent, up);
        return;
      }
      SetBalance(parent, parent.balance - 1, parent.height);
      assert BalOk(parent);
      if parent.balance == -1 {
        return;
      }
      LeftTooDeepAfterRemoval(parent, up);
    }

    // After a removal, a repair may leave the subtree one level lower than its parent knows.
    method LeftTooDeepAfterRemoval(node: Node<K>, ghost up: set<Node<K>>)
      requires Shape() && node in tn && BalOk(node) && node.balance == -2
      requires forall n {:trigger BalAt(n)} :: n in tn && n != node ==> BalAt(n)
      requires HigherIn(up, node, node.height - 1)
      modifies this`root, tn`right, tn`left, tn`parent, tn`balance, tn`height, tn`hi, tn`lo
      ensures Shape() && forall n {:trigger BalAt(n)} :: n in tn ==> BalAt(n)
      decreases up, 1
    {
      ghost var above := node.parent;
      assert NodeOk(node);
      assert above != null ==> NodeOk(above) && BalAt(above);
      assert NodeOk(node);
      var level := node.left.balance == 0;
      ghost var top := FixRight(node);
      if above != null {
        RepairedRightSeenAbove(node);
        assert level ==> BalAt(above);
      }
      if !level {
        PostDelete(node.parent, up);
      }
    }

    method PostDelete(node: Node<K>, ghost up: set<Node<K>>)
      requires Shape() && node in tn
      requires forall n {:trigger BalAt(n)} :: n in tn && n != node.parent ==> BalAt(n)
      requires Stale(node, 1)
      requires HigherIn(up, node, node.height)
      modifies this`root, tn`left, tn`right, tn`parent, tn`balance, tn`height, tn`lo, tn`hi
      ensures Shape() && forall n {:trigger BalAt(n)} :: n in tn ==> BalAt(n)
      decreases up, 0
    {
      var parent := node.parent;
      if parent == null {
        return;
      }
      assert NodeOk(node) && NodeOk(parent);
      if node == parent.left {
        LeftShrank(parent, up - {parent});
      } else {
        RightShrank(parent, up - {parent});
      }
    }

    method CopyPlace(node: Node<K>, heir: Node<K>)
      requires heir !in {node, node.parent, node.left, node.right} && node !in {node.parent, node.left, node.right}
      modifies this`root, Opt(node.parent)`left, Opt(node.parent)`right, Opt(node.left)`parent, Opt(node.right)`parent
      modifies heir`parent, heir`left, heir`right, heir`balance, heir`height, heir`slot, heir`lo, heir`hi
      ensures heir.parent == node.parent && heir.left == node.left && heir.right == node.right
      ensures heir.balance == node.balance && heir.height == node.height
      ensures heir.slot == node.slot && heir.lo == node.lo && heir.hi == node.hi
      ensures node.left != null ==> node.left.parent == heir
      ensures node.right != null ==> node.right.parent == heir
      ensures Redirected(node.parent, node, heir)
    {
      heir.balance := node.balance;
      heir.parent := node.parent;
      heir.left := node.left;
      heir.right := node.right;
      if heir.left != null {
        heir.left.parent := heir;
      }
      if heir.right != null {
        heir.right.parent := heir;
      }
      heir.height, heir.slot, heir.lo, heir.hi := node.height, node.slot, node.lo, node.hi;
      Redirect(node.parent, node, heir);
    }

    // What putting `heir` in node's place changes.
    twostate predicate Substituted(node: Node<K>, new heir: Node<K>)
      requires old(node in tn && NodeOk(node))
      reads this, tn, heir, node, node.parent, node.left, node.right
    {
      && heir !in old(tn) && tn == old(tn) - {node} + {heir}
      && heir.parent == old(node.parent) && heir.left == old(node.left) && heir.right == old(node.right)
      && heir.balance == old(node.balance) && heir.height == old(node.height)
      && heir.slot == old(node.slot) && heir.lo == old(node.lo) && heir.hi == old(node.hi)
      && node.parent == old(node.parent) && Redirected(node.parent, node, heir)
      && (forall n :: n in old(tn) && n != node ==> SameLabels(n))
      && (forall n :: n in old(tn) && n != node && n != node.parent ==> SameChildren(n))
      && (forall n :: n in old(tn) && n != node && n != node.left && n != node.right ==> SameParent(n))
      && node.left == old(node.left) && (node.left != null ==> node.left.parent == heir)
      && node.right == old(node.right) && (node.right != null ==> node.right.parent == heir)
    }

    twostate lemma SubstitutedNodes(node: Node<K>, new heir: Node<K>)
      requires old(Shape() && node in tn && NodeOk(node)) && Substituted(node, heir)
      ensures forall n {:trigger NodeOk(n)} :: n in tn ==> NodeOk(n)
      ensures root != null && root in tn && root.parent == null && root.lo == 0.0 && root.hi == 1.0
    {
      forall n | n in tn
        ensures NodeOk(n)
      {
        if n != heir {
          assert old(NodeOk(n));
        }
      }
    }

    twostate lemma SubstitutedGaps(node: Node<K>, new heir: Node<K>)
      requires old(Shape() && node in tn && NodeOk(node)) && Substituted(node, heir)
      ensures forall n, x {:trigger GapOk(n, x)} :: n in tn && x in tn ==> GapOk(n, x)
    {
      forall n, x | n in tn && x in tn
        ensures GapOk(n, x)
      {
        SubstitutedGap(node, heir, n, x);
      }
    }

    twostate lemma SubstitutedGap(node: Node<K>, new heir: Node<K>, new n: Node<K>, new x: Node<K>)
      requires old(Shape() && node in tn && NodeOk(node)) && Substituted(node, heir) && n in tn && x in tn
      ensures GapOk(n, x)
    {
      var n0 := if n == heir then node else n;
      var x0 := if x == heir then node else x;
      assert old(GapOk(n0, x0) && NodeOk(n0));
    }

    twostate lemma SubstitutedBalance(node: Node<K>, new heir: Node<K>)
      requires old(Shape() && node in tn && NodeOk(node)) && Substituted(node, heir)
      requires old(forall n {:trigger BalAt(n)} :: n in tn ==> BalAt(n))
      ensures forall n {:trigger BalAt(n)} :: n in tn ==> BalAt(n)
    {
      forall n | n in tn
        ensures BalAt(n)
      {
        var n0 := if n == heir then node else n;
        assert old(BalAt(n0) && NodeOk(n0));
      }
    }

    method PlaceHeir(node: Node<K>, heir: Node<K>)
      requires node in tn && heir !in tn && NodeOk(node)
      requires node !in {node.parent, node.left, node.right}
      requires node.parent != null ==> node.parent != node.left && node.parent != node.right
      modifies this`root, this`tn, Opt(node.parent)`left, Opt(node.parent)`right, Opt(node.left)`parent,
        Opt(node.right)`parent
      modifies heir`parent, heir`left, heir`right, heir`balance, heir`height, heir`slot, heir`lo, heir`hi
      ensures Substituted(node, heir)
    {
      CopyPlace(node, heir);
      tn := tn - {node} + {heir};
    }

    // `heir` takes node's place in the tree.
    method Substitute(node: Node<K>, heir: Node<K>)
      requires Shape() && node in tn && heir !in tn && forall n {:trigger BalAt(n)} :: n in tn ==> BalAt(n)
      modifies this`root, this`tn, Opt(node.parent)`left, Opt(node.parent)`right, Opt(node.left)`parent,
        Opt(node.right)`parent
      modifies heir`parent, heir`left, heir`right, heir`balance, heir`height, heir`slot, heir`lo, heir`hi
      ensures Shape() && tn == old(tn) - {node} + {heir} && heir.slot == old(node.slot)
      ensures forall n {:trigger BalAt(n)} :: n in tn ==> BalAt(n)
    {
      assert NodeOk(node);
      assert node.parent != null ==> NodeOk(node.parent);
      assert node.left != null ==> NodeOk(node.left);
      assert node.right != null ==> NodeOk(node.right);
      PlaceHeir(node, heir);
      SubstitutedNodes(node, heir);
      SubstitutedGaps(node, heir);
      SubstitutedBalance(node, heir);
    }

    // A fresh leaf below a node without a left child; its slot is new within the node's span.
    method AttachLeft(node: Node<K>, leaf: Node<K>)
      requires Shape() && node in tn && leaf !in tn && node.left == null && leaf.left == null && leaf.right == null
      requires leaf.balance == 0
      modifies this`tn, node`left, leaf`parent, leaf`height, leaf`slot, leaf`lo, leaf`hi
      ensures Shape() && tn == old(tn) + {leaf} && node.left == leaf && leaf.parent == node
      ensures leaf.height == 1 && SlotIn(leaf, node) && leaf.slot < node.slot
      ensures BalAt(leaf)
        && forall n {:trigger BalAt(n)} :: n in tn && n != node && n != leaf && old(BalAt(n)) ==> BalAt(n)
    {
      assert NodeOk(node);
      leaf.parent := node;
      node.left := leaf;
      leaf.lo, leaf.hi, leaf.height := node.lo, node.slot, 1;
      leaf.slot := (leaf.lo + leaf.hi) / 2.0;
      tn := tn + {leaf};
      AttachedLeft(node);
      forall n | n in tn && n != node && n != leaf && old(BalAt(n))
        ensures BalAt(n)
      {
        assert old(NodeOk(n));
      }
    }

    twostate lemma AttachedLeft(node: Node<K>)
      requires old(Shape() && node in tn && node.left == null)
      requires node.left != null && node.left !in old(tn) && tn == old(tn) + {node.left}
      requires root == old(root) && SameSpan(node) && SameParent(node) && node.right == old(node.right)
      requires forall n :: n in old(tn) && n != node ==> SameLabels(n) && SameChildren(n) && SameParent(n)
      requires node.left.parent == node && node.left.left == null && node.left.right == null
      requires node.left.lo == node.lo && node.left.hi == node.slot && SlotIn(node.left, node.left)
      ensures Shape()
    {
      var leaf := node.left;
      forall n | n in tn
        ensures NodeOk(n)
      {
        var n0 := if n == leaf then node else n;
        assert old(NodeOk(n0));
      }
      AttachedLeftGaps(node);
    }

    twostate lemma AttachedLeftGaps(node: Node<K>)
      requires old(Shape() && node in tn && node.left == null)
      requires node.left != null && node.left !in old(tn) && tn == old(tn) + {node.left}
      requires root == old(root) && SameSpan(node) && SameParent(node) && node.right == old(node.right)
      requires forall n :: n in old(tn) && n != node ==> SameLabels(n) && SameChildren(n) && SameParent(n)
      requires node.left.parent == node && node.left.left == null && node.left.right == null
      requires node.left.lo == node.lo && node.left.hi == node.slot && SlotIn(node.left, node.left)
      ensures forall n, x {:trigger GapOk(n, x)} :: n in tn && x in tn ==> GapOk(n, x)
    {
      var leaf := node.left;
      assert old(NodeOk(node));
      forall n, x | n in tn && x in tn
        ensures GapOk(n, x)
      {
        var n0 := if n == leaf then node else n;
        var x0 := if x == leaf then node else x;
        assert old(GapOk(n0, x0) && GapOk(x0, n0) && NodeOk(n0) && NodeOk(x0));
      }
    }

    // Cutting off a leaf that is a left child.
    method DetachLeft(parent: Node<K>)
      requires Shape() && parent in tn && parent.left != null && parent.left.left == null && parent.left.right == null
      modifies this`tn, parent`left
      ensures Shape() && tn == old(tn) - {old(parent.left)} && parent.left == null
      ensures forall n {:trigger BalAt(n)} :: n in tn && n != parent && old(BalAt(n)) ==> BalAt(n)
    {
      assert NodeOk(parent) && NodeOk(parent.left);
      tn := tn - {parent.left};
      parent.left := null;
      DetachedLeft(parent);
      forall n | n in tn && n != parent && old(BalAt(n))
        ensures BalAt(n)
      {
        assert NodeOk(n);
      }
    }

    twostate lemma DetachedLeft(parent: Node<K>)
      requires old(Shape() && parent in tn && parent.left in tn && parent.left.left == null
        && parent.left.right == null)
      requires tn == old(tn) - {old(parent.left)} && parent in tn && parent.left == null
      requires root == old(root) && SameSpan(parent) && SameParent(parent) && parent.right == old(parent.right)
      requires forall n :: n in old(tn) && n != parent ==> SameLabels(n) && SameChildren(n) && SameParent(n)
      ensures Shape()
    {
      assert old(NodeOk(parent) && parent.left.parent == parent && root != parent.left);
      forall n, x | n in tn && x in tn
        ensures NodeOk(n) && GapOk(n, x)
      {
        assert old(NodeOk(n) && NodeOk(x) && NodeOk(parent) && NodeOk(parent.left));
        assert old(GapOk(n, x) && GapOk(parent.left, x));
      }
    }

    // A fresh leaf below a node without a right child; its slot is new within the node's span.
    method AttachRight(node: Node<K>, leaf: Node<K>)
      requires Shape() && node in tn && leaf !in tn && node.right == null && leaf.right == null && leaf.left == null
      requires leaf.balance == 0
      modifies this`tn, node`right, leaf`parent, leaf`height, leaf`slot, leaf`hi, leaf`lo
      ensures Shape() && tn == old(tn) + {leaf} && node.right == leaf && leaf.parent == node
      ensures leaf.height == 1 && SlotIn(leaf, node) && leaf.slot > node.slot
      ensures BalAt(leaf)
        && forall n {:trigger BalAt(n)} :: n in tn && n != node && n != leaf && old(BalAt(n)) ==> BalAt(n)
    {
      assert NodeOk(node);
      leaf.parent := node;
      node.right := leaf;
      leaf.hi, leaf.lo, leaf.height := node.hi, node.slot, 1;
      leaf.slot := (leaf.hi + leaf.lo) / 2.0;
      tn := tn + {leaf};
      AttachedRight(node);
      forall n | n in tn && n != node && n != leaf && old(BalAt(n))
        ensures BalAt(n)
      {
        assert old(NodeOk(n));
      }
    }

    twostate lemma AttachedRight(node: Node<K>)
      requires old(Shape() && node in tn && node.right == null)
      requires node.right != null && node.right !in old(tn) && tn == old(tn) + {node.right}
      requires root == old(root) && SameSpan(node) && SameParent(node) && node.left == old(node.left)
      requires forall n :: n in old(tn) && n != node ==> SameLabels(n) && SameChildren(n) && SameParent(n)
      requires node.right.parent == node && node.right.right == null && node.right.left == null
      requires node.right.hi == node.hi && node.right.lo == node.slot && SlotIn(node.right, node.right)
      ensures Shape()
    {
      var leaf := node.right;
      forall n | n in tn
        ensures NodeOk(n)
      {
        var n0 := if n == leaf then node else n;
        assert old(NodeOk(n0));
      }
      AttachedRightGaps(node);
    }

    twostate lemma AttachedRightGaps(node: Node<K>)
      requires old(Shape() && node in tn && node.right == null)
      requires node.right != null && node.right !in old(tn) && tn == old(tn) + {node.right}
      requires root == old(root) && SameSpan(node) && SameParent(node) && node.left == old(node.left)
      requires forall n :: n in old(tn) && n != node ==> SameLabels(n) && SameChildren(n) && SameParent(n)
      requires node.right.parent == node && node.right.right == null && node.right.left == null
      requires node.right.hi == node.hi && node.right.lo == node.slot && SlotIn(node.right, node.right)
      ensures forall n, x {:trigger GapOk(n, x)} :: n in tn && x in tn ==> GapOk(n, x)
    {
      var leaf := node.right;
      assert old(NodeOk(node));
      forall n, x | n in tn && x in tn
        ensures GapOk(n, x)
      {
        var n0 := if n == leaf then node else n;
        var x0 := if x == leaf then node else x;
        assert old(GapOk(n0, x0) && GapOk(x0, n0) && NodeOk(n0) && NodeOk(x0));
      }
    }

    // Cutting off a leaf that is a right child.
    method DetachRight(parent: Node<K>)
      requires Shape() && parent in tn && parent.right != null && parent.right.right == null
        && parent.right.left == null
      modifies this`tn, parent`right
      ensures Shape() && tn == old(tn) - {old(parent.right)} && parent.right == null
      ensures forall n {:trigger BalAt(n)} :: n in tn && n != parent && old(BalAt(n)) ==> BalAt(n)
    {
      assert NodeOk(parent) && NodeOk(parent.right);
      tn := tn - {parent.right};
      parent.right := null;
      DetachedRight(parent);
      forall n | n in tn && n != parent && old(BalAt(n))
        ensures BalAt(n)
      {
        assert NodeOk(n);
      }
    }

    twostate lemma DetachedRight(parent: Node<K>)
      requires old(Shape() && parent in tn && parent.right in tn && parent.right.right == null
        && parent.right.left == null)
      requires tn == old(tn) - {old(parent.right)} && parent in tn && parent.right == null
      requires root == old(root) && SameSpan(parent) && SameParent(parent) && parent.left == old(parent.left)
      requires forall n :: n in old(tn) && n != parent ==> SameLabels(n) && SameChildren(n) && SameParent(n)
      ensures Shape()
    {
      assert old(NodeOk(parent) && parent.right.parent == parent && root != parent.right);
      forall n, x | n in tn && x in tn
        ensures NodeOk(n) && GapOk(n, x)
      {
        assert old(NodeOk(n) && NodeOk(x) && NodeOk(parent) && NodeOk(parent.right));
        assert old(GapOk(n, x) && GapOk(parent.right, x));
      }
    }

    // The only child of `node`, a leaf, takes its place.
    method Lift(node: Node<K>, child: Node<K>)
      requires Shape() && node in tn && child in tn && child.parent == node && child.left == null && child.right == null
      requires (child == node.left && node.right == null) || (child == node.right && node.left == null)
      modifies this`root, this`tn, child`parent, child`lo, child`hi, Opt(node.parent)`left, Opt(node.parent)`right
      ensures Shape() && tn == old(tn) - {node} && child in tn && child.parent == old(node.parent)
      ensures Redirected(old(node.parent), node, child)
      ensures forall n {:trigger BalAt(n)} :: n in tn && n != child.parent && old(BalAt(n)) ==> BalAt(n)
    {
      assert NodeOk(node) && NodeOk(child);
      assert node.parent != null ==> NodeOk(node.parent);
      LiftLinks(node, child);
      LiftedNodes(node, child);
      LiftedGaps(node, child);
      forall n | n in tn && n != child.parent && old(BalAt(n))
        ensures BalAt(n)
      {
        assert old(NodeOk(n));
      }
    }

    twostate predicate Lifted(node: Node<K>, child: Node<K>)
      reads this, tn, node, child, node.parent
    {
      && tn == old(tn) - {node} && child in tn
      && child.parent == old(node.parent) == node.parent && SameChildren(child) && child.slot == old(child.slot)
      && child.lo == node.lo == old(node.lo) && child.hi == node.hi == old(node.hi) && node.slot == old(node.slot)
      && Redirected(node.parent, node, child)
      && (forall n :: n in tn && n != child ==> SameLabels(n) && SameParent(n))
      && (forall n :: n in tn && n != child && n != node.parent ==> SameChildren(n))
    }

    method LiftLinks(node: Node<K>, child: Node<K>)
      requires node in tn && child in tn && node != child && node.parent != node && node.parent != child
      modifies this`root, this`tn, child`parent, child`lo, child`hi, Opt(node.parent)`left, Opt(node.parent)`right
      ensures Lifted(node, child)
    {
      child.parent := node.parent;
      Redirect(node.parent, node, child);
      child.lo, child.hi := node.lo, node.hi;
      tn := tn - {node};
    }

    twostate lemma LiftedNodes(node: Node<K>, new child: Node<K>)
      requires old(Shape()) && node in old(tn) && child in old(tn)
        && old(child.parent == node && child.left == null && child.right == null)
      requires old((child == node.left && node.right == null) || (child == node.right && node.left == null))
      requires Lifted(node, child)
      ensures forall n {:trigger NodeOk(n)} :: n in tn ==> NodeOk(n)
      ensures root != null && root in tn && root.parent == null && root.lo == 0.0 && root.hi == 1.0
    {
      assert old(NodeOk(node) && NodeOk(child));
      forall n | n in tn
        ensures NodeOk(n)
      {
        assert old(NodeOk(n));
      }
    }

    twostate lemma LiftedGaps(node: Node<K>, new child: Node<K>)
      requires old(Shape()) && node in old(tn) && child in old(tn)
        && old(child.parent == node && child.left == null && child.right == null)
      requires old((child == node.left && node.right == null) || (child == node.right && node.left == null))
      requires Lifted(node, child)
      ensures forall n, x {:trigger GapOk(n, x)} :: n in tn && x in tn ==> GapOk(n, x)
    {
      assert old(NodeOk(node) && NodeOk(child));
      forall n, x | n in tn && x in tn
        ensures GapOk(n, x)
      {
        if n == child {
          assert old(NodeOk(x) && GapOk(node, x) && GapOk(child, x));
        } else if x == child {
          assert old(NodeOk(n) && GapOk(n, node) && GapOk(node, n) && GapOk(child, n));
        } else {
          assert old(GapOk(n, x));
        }
      }
    }

    method LocalMin(node: Node<K>) returns (min: Node<K>)
      requires Shape() && node in tn && forall n {:trigger BalAt(n)} :: n in tn ==> BalAt(n)
      ensures min in tn && min.left == null && min.lo == node.lo && min.hi <= node.hi
    {
      min := node;
      while min.left != null
        invariant min in tn && min.lo == node.lo && min.hi <= node.hi
        decreases min.height
      {
        assert NodeOk(min) && BalAt(min);
        min := min.left;
      }
    }

    // A lone leaf at the root is the whole tree.
    lemma OnlyNode(node: Node<K>)
      requires Shape() && node in tn && node.parent == null && node.left == null && node.right == null
      ensures tn == {node}
    {
      assert NodeOk(node);
      forall x | x in tn
        ensures x == node
      {
        assert GapOk(node, x) && NodeOk(x);
      }
    }

    method DeleteLeaf(node: Node<K>)
      requires Shape() && node in tn && node.left == null && node.right == null
        && forall n {:trigger BalAt(n)} :: n in tn ==> BalAt(n)
      modifies this`root, this`tn, tn`left, tn`right, tn`parent, tn`balance, tn`height, tn`lo, tn`hi
      ensures Shape() && tn == old(tn) - {node} && forall n {:trigger BalAt(n)} :: n in tn ==> BalAt(n)
    {
      assert NodeOk(node) && BalAt(node);
      var parent := node.parent;
      if parent == null {
        OnlyNode(node);
        root := null;
        tn := {};
      } else if parent.left == node {
        assert BalAt(parent) && NodeOk(parent);
        DetachLeft(parent);
        LeftShrank(parent, tn);
      } else {
        assert BalAt(parent) && NodeOk(parent);
        DetachRight(parent);
        RightShrank(parent, tn);
      }
    }

    method DeleteHalf(node: Node<K>, child: Node<K>)
      requires Shape() && node in tn && forall n {:trigger BalAt(n)} :: n in tn ==> BalAt(n)
      requires (child == node.left && node.right == null) || (child == node.right && node.left == null)
      modifies this`root, this`tn, tn`left, tn`right, tn`parent, tn`balance, tn`height, tn`lo, tn`hi
      ensures Shape() && tn == old(tn) - {node} && forall n {:trigger BalAt(n)} :: n in tn ==> BalAt(n)
    {
      assert NodeOk(node) && BalAt(node);
      assert NodeOk(child) && BalAt(child);
      assert child.left == null by { assert child.left != null ==> BalAt(child.left); }
      assert child.right == null by { assert child.right != null ==> BalAt(child.right); }
      ghost var above := node.parent;
      assert above != null ==> NodeOk(above) && BalAt(above);
      Lift(node, child);
      PostDelete(child, tn);
    }

    // A node with a missing child: one of the first branches of the worker.
    method DeleteShallow(node: Node<K>)
      requires Shape() && node in tn && forall n {:trigger BalAt(n)} :: n in tn ==> BalAt(n)
      requires node.left == null || node.right == null
      modifies this`root, this`tn, tn`left, tn`right, tn`parent, tn`balance, tn`height, tn`lo, tn`hi
      ensures Shape() && tn == old(tn) - {node} && forall n {:trigger BalAt(n)} :: n in tn ==> BalAt(n)
    {
      if node.left == null && node.right == null {
        DeleteLeaf(node);
      } else if node.left == null {
        DeleteHalf(node, node.right);
      } else {
        DeleteHalf(node, node.left);
      }
    }

    // Takes a node out of the tree; a node with two children hands its place to its successor.
    method DeleteWorker(node: Node<K>) returns (ghost heir: Node?<K>)
      requires Shape() && node in tn && forall n {:trigger BalAt(n)} :: n in tn ==> BalAt(n)
      modifies this`root, this`tn, tn`left, tn`right, tn`parent, tn`balance, tn`height, tn`lo, tn`hi, tn`slot
      ensures Shape() && tn == old(tn) - {node} && forall n {:trigger BalAt(n)} :: n in tn ==> BalAt(n)
      ensures forall n :: n in tn && n != heir ==> n.slot == old(n.slot)
      ensures heir != null ==> heir in tn && heir.slot == old(node.slot) && Successor(node, heir)
    {
      if node.left == null || node.right == null {
        DeleteShallow(node);
        heir := null;
      } else {
        assert NodeOk(node);
        var min := LocalMin(node.right);
        NoneBetween(node, min);
        DeleteShallow(min);
        assert NodeOk(node);
        Substitute(node, min);
        heir := min;
        SwapBack(old(tn), node, min);
      }
    }

    lemma SwapBack(s: set<Node<K>>, node: Node<K>, min: Node<K>)
      requires min in s && min != node
      ensures s - {min} - {node} + {min} == s - {node}
    {
    }

    // In the old state, no slot lay between node's and heir's.
    twostate predicate Successor(node: Node<K>, heir: Node<K>)
    {
      && old(node.slot < heir.slot)
      && forall x :: x in old(tn) && old(x.slot < heir.slot) ==> old(x.slot <= node.slot)
    }

    lemma NoneBetween(node: Node<K>, min: Node<K>)
      requires Shape() && node in tn && min in tn && min.left == null && min.lo == node.slot
      ensures min != node && node.slot < min.slot
      ensures forall x :: x in tn && x.slot < min.slot ==> x.slot <= node.slot
    {
      assert NodeOk(min) && NodeOk(node);
      forall x | x in tn && x.slot < min.slot
        ensures x.slot <= node.slot
      {
        assert GapOk(min, x) && NodeOk(x);
      }
    }

    // Two entries of the list, l[i] before l[j]: keys ascend, equal keys follow their leader, slots of leaders ascend.
    ghost predicate Pair(l: seq<Node<K>>, i: int, j: int)
      requires 0 <= i < j < |l|
      reads l
    {
      && l[i] != l[j] && comp(l[i].key, l[j].key) <= 0
      && (l[j].leader ==> comp(l[i].key, l[j].key) < 0)
      && (j == i + 1 && !l[j].leader ==> comp(l[i].key, l[j].key) == 0)
      && (l[i].leader && l[j].leader ==> l[i].slot < l[j].slot)
    }

    ghost predicate Ordered(l: seq<Node<K>>)
      reads l
    {
      && (|l| > 0 ==> l[0].leader)
      && forall i, j {:trigger Pair(l, i, j)} :: 0 <= i < j < |l| ==> Pair(l, i, j)
    }

    ghost predicate TreeOk()
      reads this`root, this`tn, tn
    {
      Shape() && forall n {:trigger BalAt(n)} :: n in tn ==> NodeOk(n) && BalAt(n)
    }

    // The tree holds exactly the leaders of the list.
    ghost predicate Matches(l: seq<Node<K>>)
      reads this`tn, l
    {
      && (forall n :: n in tn ==> n in l)
      && (forall i :: 0 <= i < |l| ==> (l[i].leader <==> l[i] in tn))
    }

    ghost predicate Valid()
      reads this, tn, list
    {
      && TotalPreorder(comp) && TreeOk() && Ordered(list) && Matches(list) && count == |list|
      && (!allowDups ==> forall i :: 0 <= i < |list| ==> list[i].leader)
    }

    constructor (comp: (K, K) -> int, allowDups: bool)
      requires TotalPreorder(comp)
      ensures Valid() && list == [] && this.comp == comp && this.allowDups == allowDups
    {
      this.comp, this.allowDups := comp, allowDups;
      root, list, count, tn := null, [], 0, {};
    }

    // The first node of a group of equal keys is the last leader at or before any member.
    lemma LeaderOf(l: seq<Node<K>>, i: nat) returns (j: nat)
      requires TotalPreorder(comp) && Ordered(l) && i < |l|
      ensures j <= i && l[j].leader && comp(l[j].key, l[i].key) == 0
      ensures forall m :: j < m <= i ==> !l[m].leader
    {
      j := i;
      Preorder(comp, l[i].key, l[i].key, l[i].key);
      if !l[i].leader {
        j := LeaderOf(l, i - 1);
        assert Pair(l, i - 1, i);
        Preorder(comp, l[j].key, l[i - 1].key, l[i].key);
        Preorder(comp, l[i].key, l[i - 1].key, l[j].key);
      }
    }

    lemma SlotOrderIsKeyOrder(x: Node<K>, y: Node<K>)
      requires Valid() && x in tn && y in tn && x.slot <= y.slot
      ensures x == y || comp(x.key, y.key) < 0
    {
      var i, j := IndexOf(list, x), IndexOf(list, y);
      if i < j {
        assert Pair(list, i, j);
      } else if j < i {
        assert Pair(list, j, i);
      }
    }

    // Every key left of node's span is below `key`, every key right of it above.
    ghost predicate Between(node: Node<K>, key: K)
      reads this`tn, tn, node
    {
      && (forall x :: x in tn && x.slot <= node.lo ==> comp(key, x.key) > 0)
      && (forall x :: x in tn && x.slot >= node.hi ==> comp(key, x.key) < 0)
    }

    method FindRec(node: Node<K>, key: K) returns (r: Node<K>, diff: int)
      requires Valid() && node in tn && Between(node, key)
      ensures r in tn && diff == comp(key, r.key) && Between(r, key)
      ensures (diff < 0 ==> r.left == null) && (diff > 0 ==> r.right == null)
      decreases node.height
    {
      diff := comp(key, node.key);
      r := node;
      assert NodeOk(node) && BalAt(node);
      if diff < 0 {
        if node.left != null {
          forall x | x in tn && x.slot >= node.slot
            ensures comp(key, x.key) < 0
          {
            SlotOrderIsKeyOrder(node, x);
            Preorder(comp, key, node.key, x.key);
          }
          r, diff := FindRec(node.left, key);
        }
      } else if diff > 0 {
        if node.right != null {
          forall x | x in tn && x.slot <= node.slot
            ensures comp(key, x.key) > 0
          {
            SlotOrderIsKeyOrder(x, node);
            Preorder(comp, x.key, node.key, key);
          }
          r, diff := FindRec(node.right, key);
        }
      }
    }

    // Where the search ends, in terms of the list: below `key` before r ...
    lemma LocatedBefore(r: Node<K>, key: K, i: nat)
      requires Valid() && r in tn && Between(r, key) && i < IndexOf(list, r)
      requires comp(key, r.key) < 0 ==> r.left == null
      ensures comp(key, list[i].key) > 0
    {
      var j := LeaderOf(list, i);
      var x := list[j];
      assert Pair(list, j, IndexOf(list, r));
      assert NodeOk(r) && NodeOk(x) && GapOk(r, x);
      Preorder(comp, x.key, r.key, key);
      Preorder(comp, list[i].key, x.key, key);
    }

    // ... and above `key` after r's group.
    lemma LocatedAfter(r: Node<K>, key: K, i: nat)
      requires Valid() && r in tn && Between(r, key) && IndexOf(list, r) < i < |list| && comp(r.key, list[i].key) != 0
      requires comp(key, r.key) > 0 ==> r.right == null
      ensures comp(key, list[i].key) < 0
    {
      var k := IndexOf(list, r);
      var j := LeaderOf(list, i);
      var x := list[j];
      assert list[k].leader && k <= j && k != j;
      assert Pair(list, k, j);
      assert NodeOk(r) && NodeOk(x) && GapOk(r, x);
      Preorder(comp, key, r.key, x.key);
      Preorder(comp, key, x.key, list[i].key);
    }

    lemma EmptyTree()
      requires Valid() && root == null
      ensures list == []
    {
    }

    // avl_find: the first node of the list with that key, if there is one.
    method Find(key: K) returns (r: Node?<K>)
      requires Valid()
      ensures r == null ==> forall i :: 0 <= i < |list| ==> comp(key, list[i].key) != 0
      ensures r != null ==> r in list && comp(key, r.key) == 0
      ensures r != null ==> forall i :: 0 <= i < IndexOf(list, r) ==> comp(key, list[i].key) != 0
    {
      r := null;
      if root == null {
        EmptyTree();
      } else {
        AllInsideRoot(key);
        var n, diff := FindRec(root, key);
        if diff == 0 {
          r := n;
        }
        forall i | 0 <= i < |list| && (diff != 0 || i < IndexOf(list, n))
          ensures comp(key, list[i].key) != 0
        {
          NotEqualAt(n, key, i);
        }
      }
    }

    lemma NotEqualAt(r: Node<K>, key: K, i: nat)
      requires Valid() && r in tn && Between(r, key) && i < |list| && (comp(key, r.key) != 0 || i < IndexOf(list, r))
      requires (comp(key, r.key) < 0 ==> r.left == null) && (comp(key, r.key) > 0 ==> r.right == null)
      ensures comp(key, list[i].key) != 0
    {
      Preorder(comp, r.key, list[i].key, key);
      Preorder(comp, list[i].key, r.key, key);
      if i < IndexOf(list, r) {
        LocatedBefore(r, key, i);
      } else if comp(r.key, list[i].key) != 0 {
        LocatedAfter(r, key, i);
      }
    }

    lemma AllInsideRoot(key: K)
      requires Valid() && root != null
      ensures root in tn && Between(root, key)
    {
      forall x | x in tn
        ensures 0.0 < x.slot < 1.0
      {
        assert NodeOk(x);
      }
    }

    // Hangs item as a leaf to the left of `node` and restores the balance.
    method HangLeft(node: Node<K>, item: Node<K>)
      requires Shape() && node in tn && node.left == null && forall n {:trigger BalAt(n)} :: n in tn ==> BalAt(n)
      requires item !in tn && item.left == null && item.right == null && item.balance == 0
      modifies this`root, this`tn, tn`left, tn`right, tn`parent, tn`balance, tn`height, tn`lo, tn`hi
      modifies item`left, item`right, item`parent, item`balance, item`height, item`lo, item`hi, item`slot
      ensures Shape() && tn == old(tn) + {item} && forall n {:trigger BalAt(n)} :: n in tn ==> BalAt(n)
      ensures InOldSpan(item, node) && item.slot < node.slot
    {
      assert BalAt(node) && NodeOk(node);
      AttachLeft(node, item);
      LeftGrew(node, tn);
    }

    // No slot of the tree falls between a missing left child's place and the node.
    lemma NoSlotLeft(node: Node<K>, x: Node<K>)
      requires Shape() && node in tn && x in tn && node.left == null
      requires x.slot < node.slot
      ensures x.slot <= node.lo
    {
      assert NodeOk(node) && NodeOk(x) && GapOk(node, x);
    }

    // Hangs item as a leaf to the right of `node` and restores the balance.
    method HangRight(node: Node<K>, item: Node<K>)
      requires Shape() && node in tn && node.right == null && forall n {:trigger BalAt(n)} :: n in tn ==> BalAt(n)
      requires item !in tn && item.right == null && item.left == null && item.balance == 0
      modifies this`root, this`tn, tn`right, tn`left, tn`parent, tn`balance, tn`height, tn`hi, tn`lo
      modifies item`right, item`left, item`parent, item`balance, item`height, item`hi, item`lo, item`slot
      ensures Shape() && tn == old(tn) + {item} && forall n {:trigger BalAt(n)} :: n in tn ==> BalAt(n)
      ensures InOldSpan(item, node) && item.slot > node.slot
    {
      assert BalAt(node) && NodeOk(node);
      AttachRight(node, item);
      RightGrew(node, tn);
    }

    // No slot of the tree falls between a missing right child's place and the node.
    lemma NoSlotRight(node: Node<K>, x: Node<K>)
      requires Shape() && node in tn && x in tn && node.right == null
      requires x.slot > node.slot
      ensures x.slot >= node.hi
    {
      assert NodeOk(node) && NodeOk(x) && GapOk(node, x);
    }

    // Index k is the place of item's key in the sorted list l.
    ghost predicate Fits(l: seq<Node<K>>, item: Node<K>, k: nat)
      requires k <= |l|
      reads l, item
    {
      && (forall i :: 0 <= i < k ==> Precedes(l[i], item))
      && (forall i :: k <= i < |l| ==>
        comp(item.key, l[i].key) < 0 && (item.leader && l[i].leader ==> item.slot < l[i].slot))
      && (k < |l| ==> l[k].leader) && (k == 0 ==> item.leader)
      && (!item.leader ==> forall i :: i == k - 1 && 0 <= i ==> comp(l[i].key, item.key) == 0)
    }

    ghost predicate Precedes(n: Node<K>, item: Node<K>)
      reads n, item
    {
      && comp(n.key, item.key) <= 0
      && (item.leader ==> comp(n.key, item.key) < 0)
      && (item.leader && n.leader ==> n.slot < item.slot)
    }

    lemma OrderedWith(l: seq<Node<K>>, item: Node<K>, k: nat)
      requires Ordered(l) && k <= |l| && item !in l && Fits(l, item, k)
      ensures Ordered(InsertAt(l, k, item))
    {
      var r := InsertAt(l, k, item);
      forall i, j | 0 <= i < j < |r|
        ensures Pair(r, i, j)
      {
        var i', j' := if i < k then i else i - 1, if j < k then j else j - 1;
        if i != k && j != k {
          assert Pair(l, i', j');
        }
      }
    }

    twostate lemma OrderKept()
      requires old(Ordered(list))
      requires forall i :: 0 <= i < |old(list)| ==> SameEntry(old(list)[i])
      ensures Ordered(old(list))
    {
      var l := old(list);
      forall i, j | 0 <= i < j < |l|
        ensures Pair(l, i, j)
      {
        assert old(Pair(l, i, j));
        assert SameEntry(l[i]) && SameEntry(l[j]);
      }
    }

    twostate predicate SameEntry(n: Node<K>)
      reads n
    {
      n.key == old(n.key) && n.leader == old(n.leader) && n.slot == old(n.slot)
    }

    // Past the end of the group of equal keys that starts at index i.
    method EndOfGroup(l: seq<Node<K>>, i: nat) returns (k: nat)
      requires TotalPreorder(comp) && Ordered(l) && i < |l| && l[i].leader
      ensures i < k <= |l| && (k < |l| ==> l[k].leader)
      ensures forall j :: i <= j < k ==> comp(l[i].key, l[j].key) == 0
    {
      k := i + 1;
      Preorder(comp, l[i].key, l[i].key, l[i].key);
      while k < |l| && !l[k].leader
        invariant i < k <= |l|
        invariant forall j :: i <= j < k ==> comp(l[i].key, l[j].key) == 0
      {
        assert Pair(l, k - 1, k);
        Preorder(comp, l[i].key, l[k - 1].key, l[k].key);
        Preorder(comp, l[k].key, l[k - 1].key, l[i].key);
        k := k + 1;
      }
    }

    lemma FitsLeft(node: Node<K>, key: K, i: nat)
      requires Valid() && node in tn && Between(node, key) && comp(key, node.key) < 0 && node.left == null && i < |list|
      ensures i < IndexOf(list, node) ==> comp(list[i].key, key) < 0 && (list[i].leader ==> list[i].slot <= node.lo)
      ensures i >= IndexOf(list, node) ==> comp(key, list[i].key) < 0 && (list[i].leader ==> node.slot <= list[i].slot)
    {
      var k := IndexOf(list, node);
      Preorder(comp, key, node.key, list[i].key);
      if i < k {
        assert Pair(list, i, k);
        LocatedBefore(node, key, i);
        if list[i].leader {
          NoSlotLeft(node, list[i]);
        }
      } else if k < i {
        assert Pair(list, k, i);
      }
    }

    lemma FitsRight(node: Node<K>, key: K, k: nat, i: nat)
      requires Valid() && node in tn && Between(node, key) && comp(key, node.key) > 0 && node.right == null
        && i < |list|
      requires IndexOf(list, node) < k <= |list| && (k < |list| ==> list[k].leader)
      requires forall j :: IndexOf(list, node) <= j < k ==> comp(node.key, list[j].key) == 0
      ensures i < k ==> comp(list[i].key, key) < 0 && (list[i].leader ==> list[i].slot <= node.slot)
      ensures i >= k ==> comp(key, list[i].key) < 0 && (list[i].leader ==> node.hi <= list[i].slot)
    {
      var at := IndexOf(list, node);
      Preorder(comp, key, node.key, list[i].key);
      Preorder(comp, list[i].key, node.key, key);
      if i < at {
        assert Pair(list, i, at);
      } else if at < i {
        assert Pair(list, at, i);
        if k <= i {
          assert Pair(list, at, k) && (k < i ==> Pair(list, k, i));
          Preorder(comp, node.key, list[k].key, list[i].key);
          LocatedAfter(node, key, i);
          if list[i].leader {
            NoSlotRight(node, list[i]);
          }
        }
      }
    }

    // int_avl_insert_before and int_avl_insert_after: only the list and the count change.
    method AddToList(item: Node<K>, k: nat)
      requires TotalPreorder(comp) && TreeOk() && Ordered(list) && count == |list|
      requires !allowDups ==> item.leader && forall i :: 0 <= i < |list| ==> list[i].leader
      requires k <= |list| && item !in list && Fits(list, item, k) && MatchesBut(list, item)
      modifies this`list, this`count
      ensures Valid() && list == InsertAt(old(list), k, item) && Fits(old(list), item, k)
    {
      OrderedWith(list, item, k);
      MatchesWith(list, item, k);
      StoreList(InsertAt(list, k, item));
    }

    method StoreList(l: seq<Node<K>>)
      requires TotalPreorder(comp) && TreeOk() && Ordered(l) && Matches(l)
        && (!allowDups ==> forall i :: 0 <= i < |l| ==> l[i].leader)
      modifies this`list, this`count
      ensures Valid() && list == l
    {
      list, count := l, |l|;
    }

    // The tree holds the leaders of l, and item if it is one.
    ghost predicate MatchesBut(l: seq<Node<K>>, item: Node<K>)
      reads this`tn, l, item
    {
      && (forall n :: n in tn ==> n in l || n == item) && (item.leader <==> item in tn)
      && (forall i :: 0 <= i < |l| ==> (l[i].leader <==> l[i] in tn))
    }

    lemma MatchesWith(l: seq<Node<K>>, item: Node<K>, k: nat)
      requires k <= |l| && MatchesBut(l, item)
      ensures Matches(InsertAt(l, k, item))
    {
      var r := InsertAt(l, k, item);
      forall n | n in tn
        ensures n in r
      {
        if n in l {
          var i := IndexOf(l, n);
          assert r[if i < k then i else i + 1] == n;
        } else {
          assert r[k] == n;
        }
      }
    }

    // item's key belongs at index k of l, and the leaders' slots leave the interval between lo and hi free.
    ghost predicate Room(l: seq<Node<K>>, item: Node<K>, k: nat, lo: real, hi: real)
      reads l, item
    {
      && (forall i :: 0 <= i < |l| && i < k ==> comp(l[i].key, item.key) < 0 && (l[i].leader ==> l[i].slot <= lo))
      && (forall i :: 0 <= i < |l| && i >= k ==> comp(item.key, l[i].key) < 0 && (l[i].leader ==> hi <= l[i].slot))
    }

    lemma RoomLeft(node: Node<K>, item: Node<K>, k: nat)
      requires Valid() && node in tn && Between(node, item.key) && node.left == null && comp(item.key, node.key) < 0
        && k == IndexOf(list, node)
      ensures Room(list, item, k, node.lo, node.slot)
    {
      forall i | 0 <= i < |list|
        ensures i < k ==> comp(list[i].key, item.key) < 0 && (list[i].leader ==> list[i].slot <= node.lo)
        ensures i >= k ==> comp(item.key, list[i].key) < 0 && (list[i].leader ==> node.slot <= list[i].slot)
      {
        FitsLeft(node, item.key, i);
      }
    }

    lemma RoomRight(node: Node<K>, item: Node<K>, k: nat)
      requires Valid() && node in tn && Between(node, item.key) && node.right == null && comp(item.key, node.key) > 0
      requires IndexOf(list, node) < k <= |list| && (k < |list| ==> list[k].leader)
      requires forall j :: IndexOf(list, node) <= j < k ==> comp(node.key, list[j].key) == 0
      ensures Room(list, item, k, node.slot, node.hi)
    {
      forall i | 0 <= i < |list|
        ensures i < k ==> comp(list[i].key, item.key) < 0 && (list[i].leader ==> list[i].slot <= node.slot)
        ensures i >= k ==> comp(item.key, list[i].key) < 0 && (list[i].leader ==> node.hi <= list[i].slot)
      {
        FitsRight(node, item.key, k, i);
      }
    }

    // Such a place is where an item hung into the free interval goes.
    twostate lemma RoomFits(item: Node<K>, new k: nat, new lo: real, new hi: real)
      requires k <= |old(list)| && old(Room(list, item, k, lo, hi)) && item.key == old(item.key) && item.leader
        && lo < item.slot < hi
      requires forall i :: 0 <= i < |old(list)| ==> SameEntry(old(list)[i])
      requires old(Ordered(list)) && (k < |old(list)| ==> old(list[k].leader))
      ensures Ordered(old(list)) && Fits(old(list), item, k)
    {
      OrderKept();
      forall i | 0 <= i < |old(list)|
        ensures i < k ==> Precedes(old(list)[i], item)
        ensures i >= k ==>
          comp(item.key, old(list)[i].key) < 0 && (old(list)[i].leader ==> item.slot < old(list)[i].slot)
      {
        assert SameEntry(old(list)[i]);
      }
    }

    // A leader with a new key is hung below `node`, on the side where the search ended.
    method PlaceLeft(node: Node<K>, item: Node<K>, k: nat)
      requires Valid() && node in tn && Between(node, item.key) && item !in list
      requires item.leader && item.left == null && item.right == null && item.balance == 0
      requires node.left == null && comp(item.key, node.key) < 0 && k == IndexOf(list, node)
      modifies this`root, this`tn, tn`left, tn`right, tn`parent, tn`balance, tn`height, tn`lo, tn`hi
      modifies item`left, item`right, item`parent, item`balance, item`height, item`lo, item`hi, item`slot
      ensures TreeOk() && Ordered(list) && Fits(list, item, k) && MatchesBut(list, item)
    {
      ghost var lo, hi := node.lo, node.slot;
      RoomLeft(node, item, k);
      assert NodeOk(node);
      HangLeft(node, item);
      RoomFits(item, k, lo, hi);
    }

    method PlaceRight(node: Node<K>, item: Node<K>, k: nat)
      requires Valid() && node in tn && Between(node, item.key) && item !in list
      requires item.leader && item.left == null && item.right == null && item.balance == 0
      requires node.right == null && comp(item.key, node.key) > 0
      requires IndexOf(list, node) < k <= |list| && (k < |list| ==> list[k].leader)
      requires forall j :: IndexOf(list, node) <= j < k ==> comp(node.key, list[j].key) == 0
      modifies this`root, this`tn, tn`left, tn`right, tn`parent, tn`balance, tn`height, tn`lo, tn`hi
      modifies item`left, item`right, item`parent, item`balance, item`height, item`lo, item`hi, item`slot
      ensures TreeOk() && Ordered(list) && Fits(list, item, k) && MatchesBut(list, item)
    {
      ghost var lo, hi := node.slot, node.hi;
      RoomRight(node, item, k);
      assert NodeOk(node);
      HangRight(node, item);
      RoomFits(item, k, lo, hi);
    }

    method InsertFirst(item: Node<K>)
      requires Valid() && root == null && item.parent == null && item.left == null && item.right == null
      requires item.leader && item.balance == 0
      modifies this`root, this`tn, this`list, this`count, item`height, item`lo, item`hi, item`slot
      ensures Valid() && old(list) == [] && list == [item]
    {
      EmptyTree();
      list, root, count, tn := [item], item, 1, {item};
      item.height, item.lo, item.slot, item.hi := 1, 0.0, 0.5, 1.0;
    }

    method PlaceDuplicate(node: Node<K>, item: Node<K>, k: nat)
      requires Valid() && allowDups && node in tn && item !in list && comp(item.key, node.key) == 0
      requires IndexOf(list, node) < k <= |list| && (k < |list| ==> list[k].leader)
      requires forall j :: IndexOf(list, node) <= j < k ==> comp(node.key, list[j].key) == 0
      modifies item`leader
      ensures TreeOk() && Ordered(list) && Fits(list, item, k) && MatchesBut(list, item)
    {
      item.leader := false;
      assert item !in tn;
      forall i | 0 <= i < |list|
        ensures if i < k then comp(list[i].key, item.key) <= 0 else comp(item.key, list[i].key) < 0
        ensures i == k - 1 ==> comp(list[i].key, item.key) == 0
      {
        DuplicateFits(node, item.key, k, i);
      }
    }

    lemma DuplicateFits(node: Node<K>, key: K, k: nat, i: nat)
      requires Valid() && node in tn && comp(key, node.key) == 0 && i < |list|
      requires IndexOf(list, node) < k <= |list| && (k < |list| ==> list[k].leader)
      requires forall j :: IndexOf(list, node) <= j < k ==> comp(node.key, list[j].key) == 0
      ensures if i < k then comp(list[i].key, key) <= 0 else comp(key, list[i].key) < 0
      ensures i == k - 1 ==> comp(list[i].key, key) == 0
    {
      var at := IndexOf(list, node);
      Preorder(comp, list[i].key, node.key, key);
      Preorder(comp, key, node.key, list[i].key);
      if i < at {
        assert Pair(list, i, at);
      } else if k <= i {
        assert Pair(list, at, k) && (k < i ==> Pair(list, k, i));
        Preorder(comp, node.key, list[k].key, list[i].key);
      }
    }

    // A missing child never lies on the deeper side.
    lemma MissingChild(node: Node<K>)
      requires Valid() && node in tn
      ensures node.left == null ==> 0 <= node.balance <= 1
      ensures node.right == null ==> -1 <= node.balance <= 0
      ensures node.balance == 0 ==> (node.left == null <==> node.right == null)
    {
      assert NodeOk(node) && BalAt(node);
      assert (node.left != null ==> BalAt(node.left)) && (node.right != null ==> BalAt(node.right));
    }

    // avl_insert: after the last entry whose key is not greater, or nowhere if the key is taken.
    method Insert(item: Node<K>) returns (ok: bool, ghost k: nat)
      requires Valid() && item !in list
      modifies this`root, this`tn, this`list, this`count, tn`left, tn`right, tn`parent, tn`balance, tn`height, tn`lo,
        tn`hi
      modifies item`left, item`right, item`parent, item`balance, item`leader, item`height, item`lo, item`hi, item`slot
      ensures Valid()
      ensures ok ==> k <= |old(list)| && list == InsertAt(old(list), k, item) && Place(old(list), item.key, k)
      ensures !ok ==> Untouched() && !allowDups && exists n :: n in list && comp(item.key, n.key) == 0
    {
      Clear(item);
      if root == null {
        InsertFirst(item);
        ok, k := true, 0;
      } else {
        ok, k := InsertBelow(item);
      }
    }

    // A new entry without links, the leader of its key for now.
    method Clear(item: Node<K>)
      requires Valid() && item !in list
      modifies item`left, item`right, item`parent, item`balance, item`leader
      ensures Valid() && item !in tn && item.parent == null && item.left == null && item.right == null
        && item.balance == 0 && item.leader
    {
      assert item !in tn;
      item.parent, item.left, item.right := null, null, null;
      item.balance, item.leader := 0, true;
      assert Valid() == old(Valid());
    }

    // The place of a key in a list: past every key that is not greater, or that is smaller if keys are unique.
    ghost predicate Place(l: seq<Node<K>>, key: K, k: nat)
      reads l
    {
      && (forall i :: 0 <= i < |l| && i < k ==> if allowDups then comp(l[i].key, key) <= 0 else comp(l[i].key, key) < 0)
      && (forall i :: k <= i < |l| ==> comp(key, l[i].key) < 0)
    }

    // Nothing has happened to the list, the tree, its links and its balances.
    twostate predicate Untouched()
      reads this, tn
    {
      && list == old(list) && count == old(count) && root == old(root) && tn == old(tn)
      && forall n :: n in tn ==> SameChildren(n) && SameParent(n) && n.balance == old(n.balance)
    }

    lemma FitsPlace(l: seq<Node<K>>, item: Node<K>, k: nat)
      requires k <= |l| && Fits(l, item, k) && (!allowDups ==> item.leader)
      ensures Place(l, item.key, k)
    {
    }

    method InsertBelow(item: Node<K>) returns (ok: bool, k: nat)
      requires Valid() && root != null && item !in list
      requires item.leader && item.left == null && item.right == null && item.balance == 0
      modifies this`root, this`tn, this`list, this`count, tn`left, tn`right, tn`parent, tn`balance, tn`height, tn`lo,
        tn`hi
      modifies item`left, item`right, item`parent, item`balance, item`leader, item`height, item`lo, item`hi, item`slot
      ensures Valid()
      ensures ok ==> k <= |old(list)| && list == InsertAt(old(list), k, item) && Place(old(list), item.key, k)
      ensures !ok ==> Untouched() && !allowDups && exists n :: n in list && comp(item.key, n.key) == 0
    {
      ok, k := PlaceBelow(item);
      if ok {
        AddToList(item, k);
        FitsPlace(old(list), item, k);
      }
    }

    // The search for the place of a new entry, and the change to the tree if it is a new key.
    method PlaceBelow(item: Node<K>) returns (ok: bool, k: nat)
      requires Valid() && root != null && item !in list
      requires item.leader && item.left == null && item.right == null && item.balance == 0
      modifies this`root, this`tn, tn`left, tn`right, tn`parent, tn`balance, tn`height, tn`lo, tn`hi
      modifies item`left, item`right, item`parent, item`balance, item`leader, item`height, item`lo, item`hi, item`slot
      ensures !allowDups ==> item.leader
      ensures ok ==> TreeOk() && Ordered(list) && k <= |list| && Fits(list, item, k) && MatchesBut(list, item)
      ensures !ok ==> Valid() && Untouched() && !allowDups && exists n :: n in list && comp(item.key, n.key) == 0
    {
      AllInsideRoot(item.key);
      var node, diff := FindRec(root, item.key);
      var at := IndexOf(list, node);
      var last := EndOfGroup(list, at);
      MissingChild(node);
      ok := true;
      if diff == 0 {
        if allowDups {
          PlaceDuplicate(node, item, last);
          k := last;
        } else {
          ok, k := false, 0;
        }
      } else if node.balance == 1 || (node.balance == 0 && diff < 0) {
        PlaceLeft(node, item, at);
        k := at;
      } else {
        PlaceRight(node, item, last);
        k := last;
      }
    }

    // avl_find_lessequal: the last entry whose key is not greater.
    method FindLessEqual(key: K) returns (r: Node?<K>)
      requires Valid()
      ensures r == null ==> forall i :: 0 <= i < |list| ==> comp(key, list[i].key) < 0
      ensures r != null ==> r in list && comp(key, r.key) >= 0
      ensures r != null ==> forall i :: IndexOf(list, r) < i < |list| ==> comp(key, list[i].key) < 0
    {
      if root == null {
        EmptyTree();
        return null;
      }
      AllInsideRoot(key);
      var node, diff := FindRec(root, key);
      var i := LastNotAbove(list, key, IndexOf(list, node), diff);
      if i < 0 {
        return null;
      }
      r := list[i];
      IndexAt(list, i);
    }

    // The two loops of avl_find_lessequal, from the entry where the search in the tree ended.
    method LastNotAbove(l: seq<Node<K>>, key: K, start: nat, diff0: int) returns (i: int)
      requires TotalPreorder(comp) && Ordered(l) && start < |l| && diff0 == comp(key, l[start].key)
      ensures -1 <= i < |l| && (i >= 0 ==> comp(key, l[i].key) >= 0)
      ensures forall j :: i < j < |l| ==> comp(key, l[j].key) < 0
    {
      var diff := diff0;
      i := start;
      AboveFrom(l, key, i);
      while diff < 0
        invariant 0 <= i < |l| && diff == comp(key, l[i].key)
        invariant diff < 0 ==> forall j :: i <= j < |l| ==> comp(key, l[j].key) < 0
        decreases i
      {
        if i == 0 {
          return -1;
        }
        i := i - 1;
        diff := comp(key, l[i].key);
      }
      var next := i;
      while diff >= 0
        invariant 0 <= i <= next < |l| && next <= i + 1 && comp(key, l[i].key) >= 0
        invariant diff == comp(key, l[next].key) && (diff < 0 ==> next == i + 1)
        decreases |l| - next, diff >= 0
      {
        i := next;
        if i == |l| - 1 {
          break;
        }
        next := i + 1;
        diff := comp(key, l[next].key);
      }
      if i < |l| - 1 {
        AboveFrom(l, key, i + 1);
      }
    }

    lemma AboveFrom(l: seq<Node<K>>, key: K, i: nat)
      requires TotalPreorder(comp) && Ordered(l) && i < |l|
      ensures comp(key, l[i].key) < 0 ==> forall j :: i <= j < |l| ==> comp(key, l[j].key) < 0
      ensures comp(key, l[i].key) > 0 ==> forall j :: 0 <= j <= i ==> comp(key, l[j].key) > 0
    {
      forall j | 0 <= j < |l|
        ensures comp(key, l[i].key) < 0 && i <= j ==> comp(key, l[j].key) < 0
        ensures comp(key, l[i].key) > 0 && j <= i ==> comp(key, l[j].key) > 0
      {
        assert (i < j ==> Pair(l, i, j)) && (j < i ==> Pair(l, j, i));
        Preorder(comp, key, l[i].key, l[j].key);
        Preorder(comp, l[j].key, l[i].key, key);
      }
    }

    lemma IndexAt(l: seq<Node<K>>, i: nat)
      requires Ordered(l) && i < |l|
      ensures IndexOf(l, l[i]) == i
    {
      forall j | 0 <= j < i
        ensures l[j] != l[i]
      {
        assert Pair(l, j, i);
      }
    }

    // avl_find_greaterequal: the first entry whose key is not smaller.
    method FindGreaterEqual(key: K) returns (r: Node?<K>)
      requires Valid()
      ensures r == null ==> forall i :: 0 <= i < |list| ==> comp(key, list[i].key) > 0
      ensures r != null ==> r in list && comp(key, r.key) <= 0
      ensures r != null ==> forall i :: 0 <= i < IndexOf(list, r) ==> comp(key, list[i].key) > 0
    {
      if root == null {
        EmptyTree();
        return null;
      }
      AllInsideRoot(key);
      var node, diff := FindRec(root, key);
      var i := FirstNotBelow(list, key, IndexOf(list, node), diff);
      if i == |list| {
        return null;
      }
      r := list[i];
      IndexAt(list, i);
    }

    // The two loops of avl_find_greaterequal.
    method FirstNotBelow(l: seq<Node<K>>, key: K, start: nat, diff0: int) returns (i: nat)
      requires TotalPreorder(comp) && Ordered(l) && start < |l| && diff0 == comp(key, l[start].key)
      ensures i <= |l| && (i < |l| ==> comp(key, l[i].key) <= 0)
      ensures forall j :: 0 <= j < i ==> comp(key, l[j].key) > 0
    {
      var diff := diff0;
      i := start;
      AboveFrom(l, key, i);
      while diff > 0
        invariant 0 <= i < |l| && diff == comp(key, l[i].key)
        invariant diff > 0 ==> forall j :: 0 <= j <= i ==> comp(key, l[j].key) > 0
        decreases |l| - i
      {
        if i == |l| - 1 {
          return |l|;
        }
        i := i + 1;
        diff := comp(key, l[i].key);
      }
      var next := i;
      while diff <= 0
        invariant 0 <= next <= i < |l| && i <= next + 1 && comp(key, l[i].key) <= 0
        invariant diff == comp(key, l[next].key) && (diff > 0 ==> i == next + 1)
        decreases next, diff <= 0
      {
        i := next;
        if i == 0 {
          break;
        }
        next := i - 1;
        diff := comp(key, l[next].key);
      }
      if i > 0 {
        AboveFrom(l, key, i - 1);
      }
    }

    ghost function Members(): set<Node<K>>
      reads this`list
    {
      set n | n in list
    }

    // Dropping an entry no one follows as a duplicate keeps the list in order.
    lemma OrderedWithout(l: seq<Node<K>>, k: nat)
      requires TotalPreorder(comp) && Ordered(l) && k < |l| && (l[k].leader && k + 1 < |l| ==> l[k + 1].leader)
      ensures Ordered(RemoveAt(l, k))
    {
      var r := RemoveAt(l, k);
      forall i, j | 0 <= i < j < |r|
        ensures Pair(r, i, j)
      {
        var i', j' := if i < k then i else i + 1, if j < k then j else j + 1;
        assert Pair(l, i', j');
        if i' == k - 1 && j' == k + 1 {
          assert Pair(l, i', k) && Pair(l, k, j');
          Preorder(comp, l[i'].key, l[k].key, l[j'].key);
          Preorder(comp, l[j'].key, l[k].key, l[i'].key);
        }
      }
    }

    // The node's first duplicate has become the leader and taken its slot.
    twostate lemma PromotedOrder(k: nat)
      requires old(TotalPreorder(comp) && Ordered(list)) && k + 1 < |old(list)|
      requires old(list[k].leader && !list[k + 1].leader)
      requires old(list)[k + 1].leader && old(list)[k + 1].slot == old(list[k].slot)
        && old(list)[k + 1].key == old(list[k + 1].key)
      requires forall i :: 0 <= i < |old(list)| && i != k && i != k + 1 ==> SameEntry(old(list)[i])
      ensures Ordered(RemoveAt(old(list), k))
    {
      var l := old(list);
      var r := RemoveAt(l, k);
      assert old(Pair(l, k, k + 1));
      forall i, j | 0 <= i < j < |r|
        ensures Pair(r, i, j)
      {
        var i', j' := if i < k then i else i + 1, if j < k then j else j + 1;
        assert old(Pair(l, i', j'));
        if i' == k + 1 {
          assert old(Pair(l, k, j'));
        } else if j' == k + 1 {
          assert old(Pair(l, i', k));
          Preorder(comp, old(l[i'].key), old(l[k].key), old(l[j'].key));
        }
        assert (i' != k + 1 ==> SameEntry(l[i'])) && (j' != k + 1 ==> SameEntry(l[j']));
      }
    }

    // The node has left the tree; its successor may have taken its slot.
    twostate lemma DeletedOrder(k: nat, new heir: Node?<K>)
      requires old(TotalPreorder(comp) && Ordered(list) && Matches(list)) && k < |old(list)|
      requires old(list[k].leader) && (k + 1 < |old(list)| ==> old(list[k + 1].leader))
      requires forall i :: 0 <= i < |old(list)| && i != k && old(list)[i] != heir ==> SameEntry(old(list)[i])
      requires heir != null ==>
        heir in old(tn) && heir.slot == old(list[k].slot) && SameKey(heir) && Successor(old(list)[k], heir)
      ensures Ordered(RemoveAt(old(list), k))
    {
      var l := old(list);
      var r := RemoveAt(l, k);
      forall i, j | 0 <= i < j < |r|
        ensures Pair(r, i, j)
      {
        var i', j' := if i < k then i else i + 1, if j < k then j else j + 1;
        assert old(Pair(l, i', j'));
        assert (i' < k ==> old(Pair(l, i', k))) && (k < i' ==> old(Pair(l, k, i')));
        assert (j' < k ==> old(Pair(l, j', k))) && (k < j' ==> old(Pair(l, k, j')));
        assert (l[i'] != heir ==> SameEntry(l[i'])) && (l[j'] != heir ==> SameEntry(l[j']));
      }
    }

    twostate predicate SameKey(n: Node<K>)
      reads n
    {
      n.key == old(n.key) && n.leader == old(n.leader)
    }

    method DropFromList(k: nat)
      requires TotalPreorder(comp) && TreeOk() && k < |list| && count == |list|
      requires Ordered(RemoveAt(list, k)) && Matches(RemoveAt(list, k))
      requires !allowDups ==> forall i :: 0 <= i < |list| && i != k ==> list[i].leader
      modifies this`list, this`count
      ensures Valid() && list == RemoveAt(old(list), k)
    {
      list := RemoveAt(list, k);
      count := count - 1;
    }

    lemma AllDistinct(l: seq<Node<K>>)
      requires Ordered(l)
      ensures forall i, j :: 0 <= i < j < |l| ==> l[i] != l[j]
    {
      forall i, j | 0 <= i < j < |l|
        ensures l[i] != l[j]
      {
        assert Pair(l, i, j);
      }
    }

    // avl_remove: the list loses exactly this node.
    method Remove(node: Node<K>)
      requires Valid() && node in list
      modifies this`root, this`tn, this`list, this`count, Members()`left, Members()`right, Members()`parent,
        Members()`balance
      modifies Members()`leader, Members()`height, Members()`lo, Members()`hi, Members()`slot
      ensures Valid() && list == RemoveAt(old(list), IndexOf(old(list), node))
    {
      var k := IndexOf(list, node);
      if node.leader {
        if allowDups && k + 1 < |list| && !list[k + 1].leader {
          RemovePromoting(node, k);
        } else {
          RemoveLeader(node, k);
        }
      } else {
        OrderedWithout(list, k);
        MatchesWithout(list, k);
        DropFromList(k);
      }
    }

    lemma MatchesWithout(l: seq<Node<K>>, k: nat)
      requires k < |l| && l[k] !in tn && (forall n :: n in tn ==> n in l)
      requires forall i :: 0 <= i < |l| && i != k ==> (l[i].leader <==> l[i] in tn)
      ensures Matches(RemoveAt(l, k))
    {
      var r := RemoveAt(l, k);
      forall n | n in tn
        ensures n in r
      {
        var i := IndexOf(l, n);
        assert r[if i < k then i else i - 1] == n;
      }
    }

    method RemovePromoting(node: Node<K>, k: nat)
      requires Valid() && k + 1 < |list| && list[k] == node && node.leader && !list[k + 1].leader
      modifies this`root, this`tn, this`list, this`count, Members()`left, Members()`right, Members()`parent,
        Members()`balance
      modifies Members()`leader, Members()`height, Members()`lo, Members()`hi, Members()`slot
      ensures Valid() && list == RemoveAt(old(list), k)
    {
      var next := list[k + 1];
      assert NodeOk(node);
      assert next !in tn;
      AllDistinct(list);
      next.leader := true;
      assert TreeOk();
      Substitute(node, next);
      PromotedOrder(k);
      MatchesWithout(list, k);
      DropFromList(k);
    }

    method RemoveLeader(node: Node<K>, k: nat)
      requires Valid() && k < |list| && list[k] == node && node.leader && (k + 1 < |list| ==> list[k + 1].leader)
      modifies this`root, this`tn, this`list, this`count, Members()`left, Members()`right, Members()`parent,
        Members()`balance
      modifies Members()`height, Members()`lo, Members()`hi, Members()`slot
      ensures Valid() && list == RemoveAt(old(list), k)
    {
      AllDistinct(list);
      ghost var heir := DeleteWorker(node);
      DeletedOrder(k, heir);
      MatchesWithout(list, k);
      DropFromList(k);
    }

    // The in-order walk of the subtree at n, along the left and right links alone.
    ghost function Walk(n: Node?<K>): seq<Node<K>>
      requires TreeOk() && (n != null ==> n in tn)
      reads this`root, this`tn, tn
      decreases H(n)
    {
      if n == null then [] else
        assert NodeOk(n) && BalAt(n);
        Walk(n.left) + [n] + Walk(n.right)
    }

    // The height of the subtree at n, along the left and right links alone.
    ghost function Depth(n: Node?<K>): (d: nat)
      requires TreeOk() && (n != null ==> n in tn)
      reads this`root, this`tn, tn
      ensures d == H(n)
      decreases H(n)
    {
      if n == null then 0 else
        assert NodeOk(n) && BalAt(n);
        1 + Max(Depth(n.left), Depth(n.right))
    }

    lemma {:induction false} WalkSpan(n: Node<K>)
      requires TreeOk() && n in tn
      ensures Ascending(Walk(n))
      ensures forall x :: x in Walk(n) <==> x in tn && SlotIn(x, n)
      decreases n.height, 0
    {
      assert NodeOk(n) && BalAt(n);
      WalkSide(n, n.left);
      WalkSide(n, n.right);
      var l, r := Walk(n.left), Walk(n.right);
      forall x
        ensures x in Walk(n) <==> x in tn && SlotIn(x, n)
      {
        if x in tn {
          assert NodeOk(x) && GapOk(n, x);
        }
      }
      AscendingJoin(l, n, r);
    }

    lemma {:induction false} WalkSide(n: Node<K>, c: Node?<K>)
      requires TreeOk() && n in tn && NodeOk(n) && BalAt(n) && (c == n.left || c == n.right)
        && (n.left == n.right ==> c == null)
      ensures Ascending(Walk(c))
      ensures c != null ==> forall x :: x in Walk(c) <==> x in tn && SlotIn(x, c)
      ensures forall x :: x in Walk(c) ==> if c == n.left then x.slot < n.slot else n.slot < x.slot
      decreases H(c), 1
    {
      if c != null {
        WalkSpan(c);
        forall x | x in Walk(c)
          ensures if c == n.left then x.slot < n.slot else n.slot < x.slot
        {
          assert SlotIn(x, c);
        }
      }
    }

    // The list is the in-order walk of the tree, each leader followed by its duplicates.
    lemma ListIsWalk()
      requires Valid()
      ensures Walk(root) == Leaders(list)
      ensures forall n :: n in tn ==> NodeOk(n) && n.balance == Depth(n.right) - Depth(n.left) && -1 <= n.balance <= 1
    {
      LeadersAscending(list);
      if root == null {
        EmptyTree();
      } else {
        WalkSpan(root);
        forall x
          ensures x in Walk(root) <==> x in Leaders(list)
        {
          if x in tn {
            assert NodeOk(x);
          }
        }
        AscendingUnique(Walk(root), Leaders(list));
      }
      forall n | n in tn
        ensures NodeOk(n) && n.balance == Depth(n.right) - Depth(n.left) && -1 <= n.balance <= 1
      {
        assert NodeOk(n) && BalAt(n);
      }
    }

    lemma {:induction false} LeadersAscending(l: seq<Node<K>>)
      requires forall i, j {:trigger Pair(l, i, j)} :: 0 <= i < j < |l| ==> Pair(l, i, j)
      ensures Ascending(Leaders(l))
      ensures forall x :: x in Leaders(l) <==> x in l && x.leader
    {
      if l != [] {
        forall i, j | 0 <= i < j < |l[1..]|
          ensures Pair(l[1..], i, j)
        {
          assert Pair(l, i + 1, j + 1);
        }
        LeadersAscending(l[1..]);
        if l[0].leader {
          forall x | x in Leaders(l[1..])
            ensures l[0].slot < x.slot
          {
            var i := IndexOf(l[1..], x);
            assert Pair(l, 0, i + 1);
          }
          AscendingJoin([], l[0], Leaders(l[1..]));
          assert [] + [l[0]] + Leaders(l[1..]) == Leaders(l);
        }
        assert forall x :: x in l <==> x == l[0] || x in l[1..];
      }
    }
  }
}
