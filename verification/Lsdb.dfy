/** The link-state database (src/tc_set.c): nodes, and edges that always come in pairs of mutual inverses, each pair
    held up by a side that is real or pinned by a neighbour. Only the edge of a router that advertises itself is its
    own inverse. */
module Lsdb {
  import opened Basics
  import opened Border
  import Seqno

  // Where an edge entry lives in memory.
  type Ref = nat

  datatype Node = Node(edges: map<Address, Ref>, virt: bool, seen: bool, ansn: nat)

  datatype Edge = Edge(owner: Address, dest: Address, inv: Option<Ref>, pinned: bool, virt: bool, ansn: nat)

  type Nodes = map<Address, Node>
  type Edges = map<Ref, Edge>

  // ---- the invariant, one node or edge at a time ----

  // The edge tree of a node holds edges of that node, each under its destination.
  ghost predicate TreeAt(ns: Nodes, es: Edges, a: Address, d: Address)
    requires a in ns && d in ns[a].edges
  {
    var r := ns[a].edges[d];
    r in es && es[r].owner == a && es[r].dest == d
  }

  // An edge hangs in the tree of its owner, and both its ends are in the database.
  ghost predicate EdgeAt(ns: Nodes, es: Edges, r: Ref)
    requires r in es
  {
    var e := es[r];
    e.owner in ns && e.dest in ns && e.dest in ns[e.owner].edges && ns[e.owner].edges[e.dest] == r
  }

  predicate Holds(e: Edge) { !e.virt || e.pinned }

  // The inverse has swapped ends and the edge as its own inverse.
  ghost predicate MutualAt(es: Edges, r: Ref)
    requires r in es
  {
    var e := es[r];
    && e.inv.Some? && e.inv.value in es
    && var f := es[e.inv.value];
    f.inv == Some(r) && f.owner == e.dest && f.dest == e.owner
  }

  predicate IsLoop(e: Edge) { e.owner == e.dest }

  // One of the two is real or pinned, unless they are one and the same.
  ghost predicate PairAt(es: Edges, r: Ref)
    requires r in es
  {
    MutualAt(es, r) && (IsLoop(es[r]) || Holds(es[r]) || Holds(es[es[r].inv.value]))
  }

  ghost predicate Trees(ns: Nodes, es: Edges)
  {
    forall a, d {:trigger TreeAt(ns, es, a, d)} :: a in ns && d in ns[a].edges ==> TreeAt(ns, es, a, d)
  }

  ghost predicate Linked(ns: Nodes, es: Edges)
  {
    forall r {:trigger EdgeAt(ns, es, r)} :: r in es ==> EdgeAt(ns, es, r)
  }

  ghost predicate Paired(es: Edges, open: set<Ref>)
  {
    forall r {:trigger PairAt(es, r)} :: r in es && r !in open ==> PairAt(es, r)
  }

  // All but the open edges have their inverse.
  ghost predicate Consistent(ns: Nodes, es: Edges, open: set<Ref>)
  {
    Trees(ns, es) && Linked(ns, es) && Paired(es, open)
  }

  function Lookup(ns: Nodes, a: Address, d: Address): (r: Option<Ref>)
    requires a in ns
  {
    if d in ns[a].edges then Some(ns[a].edges[d]) else None
  }

  // ---- steps on values ----

  function Hang(ns: Nodes, a: Address, d: Address, r: Ref): Nodes
    requires a in ns
  {
    ns[a := ns[a].(edges := ns[a].edges[d := r])]
  }

  function Unhang(ns: Nodes, a: Address, d: Address): Nodes
    requires a in ns
  {
    ns[a := ns[a].(edges := ns[a].edges - {d})]
  }

  lemma {:induction false} HangKeeps(ns: Nodes, es: Edges, open: set<Ref>, a: Address, d: Address, r: Ref, e: Edge)
    requires Consistent(ns, es, open) && a in ns && d in ns && d !in ns[a].edges && r !in es
    requires e.owner == a && e.dest == d && e.inv == None
    ensures Consistent(Hang(ns, a, d, r), es[r := e], open + {r})
  {
    var ns', es' := Hang(ns, a, d, r), es[r := e];
    forall x, y | x in ns' && y in ns'[x].edges
      ensures TreeAt(ns', es', x, y)
    {
      assert (x, y) != (a, d) ==> TreeAt(ns, es, x, y);
    }
    forall s | s in es'
      ensures EdgeAt(ns', es', s)
      ensures s !in open + {r} ==> PairAt(es', s)
    {
      if s != r {
        assert EdgeAt(ns, es, s);
        assert s !in open ==> PairAt(es, s);
      }
    }
  }

  // r and s made mutual inverses.
  function Joined(es: Edges, r: Ref, s: Ref, v: bool, w: bool): Edges
    requires r in es && s in es
  {
    es[r := es[r].(inv := Some(s), virt := v)][s := es[s].(inv := Some(r), virt := w)]
  }

  lemma {:induction false} JoinKeeps(ns: Nodes, es: Edges, open: set<Ref>, r: Ref, s: Ref, v: bool, w: bool)
    requires Consistent(ns, es, open) && r in es && s in es && r != s && (!v || !w) && open <= {r, s}
    requires es[r].owner == es[s].dest && es[r].dest == es[s].owner
    requires (es[r].inv == None || es[r].inv == Some(s)) && (es[s].inv == None || es[s].inv == Some(r))
    ensures Consistent(ns, Joined(es, r, s, v, w), {})
  {
    var es' := Joined(es, r, s, v, w);
    forall x, y | x in ns && y in ns[x].edges
      ensures TreeAt(ns, es', x, y)
    {
      assert TreeAt(ns, es, x, y);
    }
    forall t | t in es'
      ensures EdgeAt(ns, es', t) && PairAt(es', t)
    {
      assert EdgeAt(ns, es, t);
      assert t !in open ==> PairAt(es, t);
    }
  }

  // An edge that finds itself as its inverse.
  function Looped(es: Edges, r: Ref, a: Address, ansn: nat): Edges
  {
    es[r := Edge(a, a, Some(r), false, false, ansn)]
  }

  lemma {:induction false} LoopKeeps(ns: Nodes, es: Edges, r: Ref, e: Edge)
    requires Consistent(ns, es, {r}) && r in es && IsLoop(e) && e.owner == es[r].owner == es[r].dest && e.inv == Some(r)
    ensures Consistent(ns, es[r := e], {})
  {
    var es' := es[r := e];
    forall x, y | x in ns && y in ns[x].edges
      ensures TreeAt(ns, es', x, y)
    {
      assert TreeAt(ns, es, x, y);
    }
    forall t | t in es'
      ensures EdgeAt(ns, es', t) && PairAt(es', t)
    {
      assert EdgeAt(ns, es, t) && EdgeAt(ns, es, r);
      assert t != r ==> PairAt(es, t);
    }
  }

  lemma {:induction false} LoopFits(es: Edges, r: Ref, a: Address, ansn: nat, next: Ref, us: Us)
    requires Fits(es[r := Fresh(a, a, ansn)], next, us)
    ensures Fits(Looped(es, r, a, ansn), next, us)
  {
    var base, es' := es[r := Fresh(a, a, ansn)], Looped(es, r, a, ansn);
    NextIsFree(base, next, us);
    assert es'.Keys == base.Keys;
    forall t | t in es'
      ensures t < next && SameEnds(es'[t], base[t])
    {
      assert FitsAt(base, next, us, t);
    }
    FitsNew(base, next, us, es', next);
  }

  function WithNode(ns: Nodes, a: Address): Nodes
  {
    if a in ns then ns else ns[a := Node(map[], false, false, 0)]
  }

  lemma {:induction false} NodeKeeps(ns: Nodes, es: Edges, open: set<Ref>, a: Address)
    requires Consistent(ns, es, open)
    ensures Consistent(WithNode(ns, a), es, open)
  {
    var ns' := WithNode(ns, a);
    forall x, y | x in ns' && y in ns'[x].edges
      ensures TreeAt(ns', es, x, y)
    {
      assert TreeAt(ns, es, x, y);
    }
    forall t | t in es
      ensures EdgeAt(ns', es, t)
    {
      assert EdgeAt(ns, es, t);
    }
  }

  // There is an edge one way exactly when there is one the other way.
  lemma {:induction false} BothWays(ns: Nodes, es: Edges, a: Address, d: Address)
    requires Consistent(ns, es, {})
    ensures a in ns && d in ns[a].edges ==>
      d in ns && a in ns[d].edges && ns[a].edges[d] in es && es[ns[a].edges[d]].inv == Some(ns[d].edges[a])
  {
    if a in ns && d in ns[a].edges {
      assert TreeAt(ns, es, a, d);
      var r := ns[a].edges[d];
      assert PairAt(es, r);
      assert EdgeAt(ns, es, es[r].inv.value);
    }
  }

  lemma {:induction false} LoopInverse(ns: Nodes, es: Edges, r: Ref)
    requires Consistent(ns, es, {}) && r in es
    ensures PairAt(es, r) && EdgeAt(ns, es, r) && (IsLoop(es[r]) <==> es[r].inv == Some(r))
  {
    assert PairAt(es, r) && EdgeAt(ns, es, r) && EdgeAt(ns, es, es[r].inv.value);
  }

  // What the lookup of the inverse finds: the half-open edge if there is one, else nothing.
  lemma {:induction false} FindsOpen(ns: Nodes, es: Edges, open: Option<Ref>, a: Address, d: Address)
    requires a in ns && a != d && d !in ns[a].edges
    requires Consistent(ns, es, Half(open))
    requires open.Some? ==> open.value in es && es[open.value].owner == d && es[open.value].dest == a
    ensures Lookup(WithNode(ns, d), d, a) == open
  {
    if open == None {
      BothWays(ns, es, d, a);
    } else {
      assert EdgeAt(ns, es, open.value);
    }
  }

  lemma {:induction false} CutKeeps(ns: Nodes, es: Edges, r: Ref)
    requires Consistent(ns, es, {}) && r in es && PairAt(es, r) && EdgeAt(ns, es, r) && !IsLoop(es[r])
    ensures var e := es[r]; var s := e.inv.value;
      Consistent(Unhang(Unhang(ns, e.owner, e.dest), e.dest, e.owner), es - {r, s}, {})
  {
    var e := es[r];
    var s := e.inv.value;
    assert EdgeAt(ns, es, s);
    var ns', es' := Unhang(Unhang(ns, e.owner, e.dest), e.dest, e.owner), es - {r, s};
    forall x, y | x in ns' && y in ns'[x].edges
      ensures TreeAt(ns', es', x, y)
    {
      assert TreeAt(ns, es, x, y);
    }
    forall t | t in es'
      ensures EdgeAt(ns', es', t) && PairAt(es', t)
    {
      assert EdgeAt(ns, es, t) && PairAt(es, t);
    }
  }

  lemma {:induction false} MarkKeeps(ns: Nodes, es: Edges, r: Ref, e: Edge)
    requires Consistent(ns, es, {}) && r in es && PairAt(es, r)
    requires e.owner == es[r].owner && e.dest == es[r].dest && e.inv == es[r].inv
      && (IsLoop(e) || Holds(e) || Holds(es[e.inv.value]))
    ensures Consistent(ns, es[r := e], {})
  {
    var es' := es[r := e];
    assert EdgeAt(ns, es, r);
    forall x, y | x in ns && y in ns[x].edges
      ensures TreeAt(ns, es', x, y)
    {
      assert TreeAt(ns, es, x, y);
    }
    forall t | t in es'
      ensures EdgeAt(ns, es', t) && PairAt(es', t)
    {
      assert EdgeAt(ns, es, t) && PairAt(es, t);
    }
  }

  ghost predicate Sized(ns: Nodes, n: nat)
  {
    forall a :: a in ns ==> |a| == n
  }

  // Our own address and, for each neighbour, the edge from us to it.
  datatype Us = Us(myself: Address, nbrs: map<Address, Ref>)

  // Edges live below the next free address; a pinned edge is the one its neighbour points to.
  ghost predicate FitsAt(es: Edges, next: Ref, us: Us, r: Ref)
    requires r in es
  {
    r < next && (es[r].pinned ==> es[r].owner == us.myself && es[r].dest in us.nbrs && us.nbrs[es[r].dest] == r)
  }

  // A neighbour points to a pinned edge from us to it.
  ghost predicate PinAt(es: Edges, us: Us, d: Address)
    requires d in us.nbrs
  {
    var r := us.nbrs[d];
    d != us.myself && r in es && es[r].pinned && es[r].owner == us.myself && es[r].dest == d
  }

  ghost predicate Fits(es: Edges, next: Ref, us: Us)
  {
    && (forall r {:trigger FitsAt(es, next, us, r)} :: r in es ==> FitsAt(es, next, us, r))
    && (forall d {:trigger PinAt(es, us, d)} :: d in us.nbrs ==> PinAt(es, us, d))
  }

  lemma {:induction false} FitsNew(es: Edges, next: Ref, us: Us, es': Edges, next': Ref)
    requires Fits(es, next, us) && next <= next'
    requires forall r :: r in es' ==> r < next' && if r in es then SameEnds(es'[r], es[r]) else !es'[r].pinned
    requires forall r :: r in es && es[r].pinned ==> r in es'
    ensures Fits(es', next', us)
  {
    forall r | r in es'
      ensures FitsAt(es', next', us, r)
    {
      assert r in es ==> FitsAt(es, next, us, r);
    }
    forall d | d in us.nbrs
      ensures PinAt(es', us, d)
    {
      assert PinAt(es, us, d);
    }
  }

  predicate SameEnds(e: Edge, f: Edge)
  {
    e.pinned == f.pinned && e.owner == f.owner && e.dest == f.dest
  }

  lemma {:induction false} NextIsFree(es: Edges, next: Ref, us: Us)
    requires Fits(es, next, us)
    ensures forall r :: r in es ==> r < next
  {
    forall r | r in es
      ensures r < next
    {
      assert FitsAt(es, next, us, r);
    }
  }

  // The half-open edge o closed by a new edge r from a to d.
  function Closed(es: Edges, o: Ref, r: Ref, a: Address, d: Address, ansn: nat): Edges
    requires o in es
  {
    es[r := Edge(a, d, Some(o), false, false, ansn)][o := es[o].(inv := Some(r))]
  }

  // A new real edge from a to d and its virtual inverse.
  function PairOf(es: Edges, r: Ref, a: Address, d: Address, ansn: nat): Edges
  {
    es[r := Edge(a, d, Some(r + 1), false, false, ansn)][r + 1 := Edge(d, a, Some(r), false, true, 0)]
  }

  function Hung(ns: Nodes, a: Address, d: Address, r: Ref): Nodes
    requires a in ns
  {
    Hang(Hang(WithNode(ns, d), a, d, r), d, a, r + 1)
  }

  function Fresh(a: Address, d: Address, ansn: nat): Edge { Edge(a, d, None, false, false, ansn) }

  lemma {:induction false} CloseKeeps(ns: Nodes, es: Edges, o: Ref, r: Ref, a: Address, d: Address, ansn: nat,
                                      next: Ref, us: Us)
    requires r !in es && o in es && es[o] == Fresh(d, a, es[o].ansn)
    requires Consistent(ns, es[r := Fresh(a, d, ansn)], {o, r}) && Fits(es[r := Fresh(a, d, ansn)], next, us)
    ensures Joined(es[r := Fresh(a, d, ansn)], r, o, false, false) == Closed(es, o, r, a, d, ansn)
    ensures Consistent(ns, Closed(es, o, r, a, d, ansn), {}) && Fits(Closed(es, o, r, a, d, ansn), next, us)
  {
    var base := es[r := Fresh(a, d, ansn)];
    JoinKeeps(ns, base, {o, r}, r, o, false, false);
    assert Joined(base, r, o, false, false) == Closed(es, o, r, a, d, ansn);
    NextIsFree(base, next, us);
    FitsNew(base, next, us, Closed(es, o, r, a, d, ansn), next);
  }

  lemma {:induction false} PairKeeps(ns: Nodes, es: Edges, r: Ref, a: Address, d: Address, ansn: nat, next: Ref, us: Us)
    requires var base := Closed(es[r := Fresh(a, d, ansn)], r, r + 1, d, a, 0);
      Consistent(ns, base, {}) && Fits(base, next, us)
    ensures var base := Closed(es[r := Fresh(a, d, ansn)], r, r + 1, d, a, 0);
      base[r + 1 := base[r + 1].(virt := true)] == PairOf(es, r, a, d, ansn)
    ensures Joined(PairOf(es, r, a, d, ansn), r, r + 1, false, true) == PairOf(es, r, a, d, ansn)
    ensures Consistent(ns, PairOf(es, r, a, d, ansn), {}) && Fits(PairOf(es, r, a, d, ansn), next, us)
  {
    var base := Closed(es[r := Fresh(a, d, ansn)], r, r + 1, d, a, 0);
    assert PairAt(base, r + 1);
    MarkKeeps(ns, base, r + 1, base[r + 1].(virt := true));
    assert base[r + 1 := base[r + 1].(virt := true)] == PairOf(es, r, a, d, ansn);
    NextIsFree(base, next, us);
    FitsNew(base, next, us, PairOf(es, r, a, d, ansn), next);
  }

  ghost function Half(open: Option<Ref>): set<Ref>
  {
    if open == None then {} else {open.value}
  }

  // ---- the real edges, as a map from end points to the ANSN they were last advertised with ----

  type Topology = imap<(Address, Address), nat>

  ghost function Real(ns: Nodes, es: Edges, k: (Address, Address)): Option<nat>
  {
    if k.0 in ns && k.1 in ns[k.0].edges && ns[k.0].edges[k.1] in es && !es[ns[k.0].edges[k.1]].virt
    then Some(es[ns[k.0].edges[k.1]].ansn) else None
  }

  ghost function RealEdges(ns: Nodes, es: Edges): Topology
  {
    imap k | Real(ns, es, k).Some? :: Real(ns, es, k).value
  }

  lemma {:induction false} RealMark(ns: Nodes, es: Edges, r: Ref, e: Edge)
    requires Trees(ns, es) && r in es && EdgeAt(ns, es, r) && e.owner == es[r].owner && e.dest == es[r].dest
    ensures RealEdges(ns, es[r := e]) ==
      if e.virt then RealEdges(ns, es) - {(e.owner, e.dest)} else RealEdges(ns, es)[(e.owner, e.dest) := e.ansn]
  {
    forall k: (Address, Address)
      ensures Real(ns, es[r := e], k) == if k != (e.owner, e.dest) then Real(ns, es, k) else if e.virt then None
        else Some(e.ansn)
    {
      assert k.0 in ns && k.1 in ns[k.0].edges ==> TreeAt(ns, es, k.0, k.1);
    }
  }

  lemma {:induction false} RealCut(ns: Nodes, es: Edges, r: Ref)
    requires Consistent(ns, es, {}) && r in es && PairAt(es, r) && EdgeAt(ns, es, r) && !IsLoop(es[r])
      && es[es[r].inv.value].virt
    ensures var e := es[r];
      RealEdges(Unhang(Unhang(ns, e.owner, e.dest), e.dest, e.owner), es - {r, e.inv.value}) ==
        RealEdges(ns, es) - {(e.owner, e.dest)}
  {
    var e := es[r];
    var ns', es' := Unhang(Unhang(ns, e.owner, e.dest), e.dest, e.owner), es - {r, e.inv.value};
    assert EdgeAt(ns, es, e.inv.value);
    forall k: (Address, Address)
      ensures Real(ns', es', k) == if k == (e.owner, e.dest) then None else Real(ns, es, k)
    {
      assert k.0 in ns && k.1 in ns[k.0].edges ==> TreeAt(ns, es, k.0, k.1);
    }
  }

  lemma {:induction false} RealPair(ns: Nodes, es: Edges, r: Ref, a: Address, d: Address, ansn: nat)
    requires Consistent(ns, es, {}) && a in ns && a != d && d !in ns[a].edges && r !in es && r + 1 !in es
    ensures RealEdges(Hung(ns, a, d, r), PairOf(es, r, a, d, ansn)) == RealEdges(ns, es)[(a, d) := ansn]
  {
    var ns', es' := Hung(ns, a, d, r), PairOf(es, r, a, d, ansn);
    BothWays(ns, es, d, a);
    forall k: (Address, Address)
      ensures Real(ns', es', k) == if k == (a, d) then Some(ansn) else Real(ns, es, k)
    {
      assert k.0 in ns && k.1 in ns[k.0].edges ==> TreeAt(ns, es, k.0, k.1);
    }
  }

  lemma {:induction false} RealLoop(ns: Nodes, es: Edges, r: Ref, a: Address, ansn: nat)
    requires Consistent(ns, es, {}) && a in ns && a !in ns[a].edges && r !in es
    ensures RealEdges(Hang(ns, a, a, r), Looped(es, r, a, ansn)) == RealEdges(ns, es)[(a, a) := ansn]
  {
    var ns', es' := Hang(ns, a, a, r), Looped(es, r, a, ansn);
    forall k: (Address, Address)
      ensures Real(ns', es', k) == if k == (a, a) then Some(ansn) else Real(ns, es, k)
    {
      assert k.0 in ns && k.1 in ns[k.0].edges ==> TreeAt(ns, es, k.0, k.1);
    }
  }

  // The same nodes with the same attributes, whatever their edges.
  ghost predicate SameNodes(ns: Nodes, ns': Nodes)
  {
    ns.Keys == ns'.Keys && forall a :: a in ns ==> ns'[a].(edges := ns[a].edges) == ns[a]
  }

  // The edge marked virtual if its inverse is real or pinned, else both removed.
  ghost function Drop(ns: Nodes, es: Edges, r: Ref): (Nodes, Edges)
    requires r in es && EdgeAt(ns, es, r) && MutualAt(es, r)
  {
    var e := es[r];
    var s := e.inv.value;
    if Holds(es[s]) then (ns, es[r := e.(virt := true)])
    else (Unhang(Unhang(ns, e.owner, e.dest), e.dest, e.owner), es - {r, s})
  }

  // A virtual, unpinned edge that is its own inverse cannot be dropped: it would be removed twice.
  predicate Droppable(es: Edges, r: Ref)
    requires r in es
  {
    IsLoop(es[r]) ==> Holds(es[r])
  }

  // No edge leads from a router to itself.
  ghost predicate Foreign(es: Edges)
  {
    forall r :: r in es ==> !IsLoop(es[r])
  }

  // No edges but the old ones, and these between the same nodes.
  ghost predicate Within(es0: Edges, es: Edges)
  {
    forall r :: r in es ==> r in es0 && es[r].owner == es0[r].owner && es[r].dest == es0[r].dest
  }

  lemma {:induction false} WithinOn(es0: Edges, es: Edges, es': Edges)
    requires Within(es0, es) && Within(es, es')
    ensures Within(es0, es')
  {
    forall r | r in es'
      ensures r in es0 && es'[r].owner == es0[r].owner && es'[r].dest == es0[r].dest
    {
      assert r in es;
    }
  }

  lemma {:induction false} StaysForeign(es0: Edges, es: Edges)
    requires Within(es0, es)
    ensures Foreign(es0) ==> Foreign(es)
  {
  }

  // The node's edge to itself is virtual and not pinned.
  ghost predicate Lone(ns: Nodes, es: Edges, a: Address)
  {
    a in ns && a in ns[a].edges && ns[a].edges[a] in es && !Holds(es[ns[a].edges[a]])
  }

  // The edge of a node to itself.
  ghost function LoopOf(ns: Nodes, es: Edges, a: Address): Option<Edge>
  {
    if a in ns && a in ns[a].edges && ns[a].edges[a] in es then Some(es[ns[a].edges[a]]) else None
  }

  // The node's edge to itself is virtual, not pinned and older.
  ghost predicate LoneStale(ns: Nodes, es: Edges, a: Address, ansn: nat)
  {
    var e := LoopOf(ns, es, a);
    e.Some? && !Holds(e.value) && Seqno.Greater(ansn, e.value.ansn)
  }

  lemma {:induction false} LoopElsewhere(ns: Nodes, es: Edges, r: Ref, e: Edge, a: Address)
    requires Trees(ns, es) && r in es && es[r].owner == a && es[r].dest != a
    ensures LoopOf(ns, es[r := e], a) == LoopOf(ns, es, a)
  {
    assert a in ns && a in ns[a].edges ==> TreeAt(ns, es, a, a);
  }

  lemma {:induction false} LoopBeside(ns: Nodes, es: Edges, a: Address, d: Address, r: Ref, ansn: nat)
    requires Trees(ns, es) && a in ns && a != d && r !in es && r + 1 !in es
    ensures LoopOf(Hung(ns, a, d, r), PairOf(es, r, a, d, ansn), a) == LoopOf(ns, es, a)
  {
    assert a in ns && a in ns[a].edges ==> TreeAt(ns, es, a, a);
  }

  lemma {:induction false} PairForeign(es: Edges, r: Ref, a: Address, d: Address, ansn: nat)
    requires a != d
    ensures Foreign(es) ==> Foreign(PairOf(es, r, a, d, ansn))
  {
  }

  lemma {:induction false} HungSame(ns: Nodes, a: Address, d: Address, r: Ref)
    requires a in ns && a != d
    ensures SameNodes(WithNode(ns, d), Hung(ns, a, d, r))
  {
  }

  lemma {:induction false} ForeignNotLone(ns: Nodes, es: Edges, a: Address)
    requires Trees(ns, es) && Foreign(es)
    ensures !Lone(ns, es, a)
  {
    assert a in ns && a in ns[a].edges ==> TreeAt(ns, es, a, a);
  }

  lemma {:induction false} DropKeeps(ns: Nodes, es: Edges, r: Ref, next: Ref, us: Us)
    requires Consistent(ns, es, {}) && Fits(es, next, us) && r in es && EdgeAt(ns, es, r) && PairAt(es, r)
      && !es[r].pinned && Droppable(es, r)
    ensures var (ns', es') := Drop(ns, es, r);
      Consistent(ns', es', {}) && Fits(es', next, us) && SameNodes(ns, ns') && Within(es, es')
  {
    var e := es[r];
    LoopInverse(ns, es, r);
    if Holds(es[e.inv.value]) {
      MarkKeeps(ns, es, r, e.(virt := true));
    } else {
      CutKeeps(ns, es, r);
    }
    NextIsFree(es, next, us);
    FitsNew(es, next, us, Drop(ns, es, r).1, next);
  }

  // The edge of a router that advertised itself: its first deletion leaves it virtual, the second would be one too
  // many.
  lemma {:induction false} LoopTwice(ns: Nodes, es: Edges, r: Ref)
    requires r in es && EdgeAt(ns, es, r) && MutualAt(es, r) && IsLoop(es[r]) && es[r].inv == Some(r) && !es[r].virt
      && !es[r].pinned
    ensures var es' := Drop(ns, es, r).1; Droppable(es, r) && r in es' && !Droppable(es', r)
  {
  }

  lemma {:induction false} DropReal(ns: Nodes, es: Edges, r: Ref)
    requires Consistent(ns, es, {}) && r in es && EdgeAt(ns, es, r) && PairAt(es, r) && Droppable(es, r)
    ensures RealEdges(Drop(ns, es, r).0, Drop(ns, es, r).1) == RealEdges(ns, es) - {(es[r].owner, es[r].dest)}
  {
    var e := es[r];
    LoopInverse(ns, es, r);
    if Holds(es[e.inv.value]) {
      RealMark(ns, es, r, e.(virt := true));
    } else {
      RealCut(ns, es, r);
    }
  }

  // ---- sweeps over the edges of one node ----

  ghost function Pairs(a: Address, s: set<Address>): set<(Address, Address)>
  {
    set d | d in s :: (a, d)
  }

  // Nothing happened to the edge from a to d and its inverse.
  ghost predicate KeptAt(ns0: Nodes, es0: Edges, ns: Nodes, es: Edges, a: Address, d: Address)
    requires Consistent(ns0, es0, {}) && a in ns0 && a in ns
  {
    && d in ns0[a].edges && d in ns[a].edges && ns[a].edges[d] == ns0[a].edges[d] && TreeAt(ns0, es0, a, d)
    && var r := ns0[a].edges[d];
    && PairAt(es0, r) && var s := es0[r].inv.value;
    && r in es && s in es && es[r] == es0[r] && es[s] == es0[s]
  }

  // A swept edge is still in the tree exactly when its inverse is real or pinned.
  ghost predicate GoneAt(ns0: Nodes, es0: Edges, ns: Nodes, a: Address, d: Address)
    requires Consistent(ns0, es0, {}) && a in ns0 && a in ns
  {
    && d in ns0[a].edges && TreeAt(ns0, es0, a, d) && PairAt(es0, ns0[a].edges[d])
    && (d in ns[a].edges <==> Holds(es0[es0[ns0[a].edges[d]].inv.value]))
  }

  // Where a sweep stands: the edges to gone are dropped, those to todo are untouched.
  ghost predicate Swept(ns0: Nodes, es0: Edges, ns: Nodes, es: Edges, a: Address, todo: set<Address>,
                        gone: set<Address>)
    requires Consistent(ns0, es0, {}) && a in ns0
  {
    && Consistent(ns, es, {}) && SameNodes(ns0, ns) && RealEdges(ns, es) == RealEdges(ns0, es0) - Pairs(a, gone)
    && ns[a].edges.Keys <= ns0[a].edges.Keys && Within(es0, es)
    && (forall d {:trigger KeptAt(ns0, es0, ns, es, a, d)} :: d in todo ==> KeptAt(ns0, es0, ns, es, a, d))
    && (forall d {:trigger GoneAt(ns0, es0, ns, a, d)} :: d in gone ==> GoneAt(ns0, es0, ns, a, d))
  }

  lemma {:induction false} SweepStart(ns: Nodes, es: Edges, a: Address)
    requires Consistent(ns, es, {}) && a in ns
    ensures Swept(ns, es, ns, es, a, ns[a].edges.Keys, {})
  {
    forall d | d in ns[a].edges
      ensures KeptAt(ns, es, ns, es, a, d)
    {
      assert TreeAt(ns, es, a, d) && PairAt(es, ns[a].edges[d]);
    }
    assert RealEdges(ns, es) == RealEdges(ns, es) - Pairs(a, {});
  }

  // A drop leaves the other edges of the node and their inverses alone.
  lemma {:induction false} DropElsewhere(ns: Nodes, es: Edges, a: Address, d: Address, k: Address)
    requires Consistent(ns, es, {}) && a in ns && d in ns[a].edges && k in ns[a].edges && k != d
    requires TreeAt(ns, es, a, d) && PairAt(es, ns[a].edges[d]) && EdgeAt(ns, es, ns[a].edges[d])
      && Droppable(es, ns[a].edges[d])
    ensures a in Drop(ns, es, ns[a].edges[d]).0
    ensures KeptAt(ns, es, Drop(ns, es, ns[a].edges[d]).0, Drop(ns, es, ns[a].edges[d]).1, a, k)
  {
    assert TreeAt(ns, es, a, k) && PairAt(es, ns[a].edges[k]);
  }

  lemma {:induction false} KeptOn(ns0: Nodes, es0: Edges, ns: Nodes, es: Edges, a: Address, d: Address, k: Address)
    requires Consistent(ns0, es0, {}) && a in ns0 && Consistent(ns, es, {}) && a in ns && d in ns[a].edges && k != d
    requires TreeAt(ns, es, a, d) && PairAt(es, ns[a].edges[d]) && EdgeAt(ns, es, ns[a].edges[d])
      && Droppable(es, ns[a].edges[d])
    ensures a in Drop(ns, es, ns[a].edges[d]).0
    ensures KeptAt(ns0, es0, ns, es, a, k) ==>
      KeptAt(ns0, es0, Drop(ns, es, ns[a].edges[d]).0, Drop(ns, es, ns[a].edges[d]).1, a, k)
    ensures GoneAt(ns0, es0, ns, a, k) ==> GoneAt(ns0, es0, Drop(ns, es, ns[a].edges[d]).0, a, k)
  {
    if k in ns[a].edges {
      DropElsewhere(ns, es, a, d, k);
    }
  }

  lemma {:induction false} SweepReal(m: Topology, a: Address, gone: set<Address>, d: Address)
    ensures m - Pairs(a, gone) - {(a, d)} == m - Pairs(a, gone + {d})
  {
  }

  lemma {:induction false} SweepStep(ns0: Nodes, es0: Edges, ns: Nodes, es: Edges, a: Address, todo: set<Address>,
                                     gone: set<Address>, d: Address)
    requires Consistent(ns0, es0, {}) && a in ns0 && Swept(ns0, es0, ns, es, a, todo, gone) && d in todo
      && d in ns[a].edges
    requires TreeAt(ns, es, a, d) && PairAt(es, ns[a].edges[d]) && EdgeAt(ns, es, ns[a].edges[d])
      && Droppable(es, ns[a].edges[d])
    ensures var (ns', es') := Drop(ns, es, ns[a].edges[d]);
      && a in ns'
      && (forall k {:trigger KeptAt(ns0, es0, ns', es', a, k)} :: k in todo - {d} ==> KeptAt(ns0, es0, ns', es', a, k))
      && (forall k {:trigger GoneAt(ns0, es0, ns', a, k)} :: k in gone + {d} ==> GoneAt(ns0, es0, ns', a, k))
  {
    var (ns', es') := Drop(ns, es, ns[a].edges[d]);
    assert KeptAt(ns0, es0, ns, es, a, d);
    assert GoneAt(ns0, es0, ns', a, d);
    forall k | k != d
      ensures k in todo - {d} ==> KeptAt(ns0, es0, ns', es', a, k)
      ensures k in gone ==> GoneAt(ns0, es0, ns', a, k)
    {
      KeptOn(ns0, es0, ns, es, a, d, k);
      assert k in todo ==> KeptAt(ns0, es0, ns, es, a, k);
      assert k in gone ==> GoneAt(ns0, es0, ns, a, k);
    }
  }

  class Database {
    const ipsize: nat
    const myself: Address
    const order: Order
    var nbrs: map<Address, Ref>
    var nodes: Nodes
    var edges: Edges
    var next: Ref

    ghost function Here(): Us
      reads this`nbrs
    {
      Us(myself, nbrs)
    }

    ghost predicate Room()
      reads this
    {
      Sized(nodes, ipsize) && Fits(edges, next, Here()) && myself in nodes && ipsize <= 31
    }

    ghost predicate Valid()
      reads this
    {
      Consistent(nodes, edges, {}) && Room()
    }

    constructor (ipsize: nat, myself: Address, order: Order)
      requires |myself| == ipsize <= 31
      ensures Valid() && this.ipsize == ipsize && this.myself == myself && this.order == order && nbrs == map[]
        && edges == map[] && nodes.Keys == {myself}
    {
      this.ipsize, this.myself, this.order := ipsize, myself, order;
      nodes, edges, next, nbrs := map[myself := Node(map[], false, false, 0)], map[], 0, map[];
    }

    // A new edge entry in the tree of a, and the entry of the node it points to.
    method NewEdge(a: Address, d: Address, ansn: nat, ghost open: set<Ref>) returns (r: Ref)
      requires Room() && a in nodes && |d| == ipsize && d !in nodes[a].edges && Consistent(nodes, edges, open)
      modifies this`nodes, this`edges, this`next
      ensures Room() && Consistent(nodes, edges, open + {r}) && r == old(next) && next == r + 1
      ensures nodes == Hang(WithNode(old(nodes), d), a, d, r)
      ensures edges == old(edges)[r := Fresh(a, d, ansn)]
    {
      ghost var es := edges;
      NextIsFree(es, next, Here());
      ghost var hung := Hang(WithNode(nodes, d), a, d, next);
      NodeKeeps(nodes, edges, open, d);
      HangKeeps(WithNode(nodes, d), edges, open, a, d, next, Fresh(a, d, ansn));
      r, next := next, next + 1;
      edges := edges[r := Fresh(a, d, ansn)];
      nodes := nodes[a := nodes[a].(edges := nodes[a].edges[d := r])];
      if d !in nodes {
        nodes := nodes[d := Node(map[], false, false, 0)];
      }
      assert nodes == hung;
      FitsNew(es, r, Here(), edges, next);
    }

    method Connect(r: Ref, s: Ref)
      requires r in edges && s in edges
      modifies this`edges
      ensures edges == if r == s then old(edges)[r := old(edges)[r].(inv := Some(r), virt := false)]
                       else Joined(old(edges), r, s, false, old(edges)[s].virt)
    {
      edges := edges[s := edges[s].(inv := Some(r))];
      edges := edges[r := edges[r].(inv := Some(s))];
      edges := edges[r := edges[r].(virt := false)];
    }

    // olsr_add_tc_edge_entry, called with the half-open edge in the other direction the second time round
    method AddEdge(a: Address, d: Address, ansn: nat, ghost open: Option<Ref>) returns (r: Ref)
      requires Room() && a in nodes && |d| == ipsize && d !in nodes[a].edges
      requires Consistent(nodes, edges, Half(open))
      requires open.Some? ==> a != d && open.value in edges && edges[open.value] == Fresh(d, a, edges[open.value].ansn)
      modifies this`nodes, this`edges, this`next
      ensures Valid() && r == old(next)
      ensures open.Some? ==>
        next == r + 1 && nodes == Hang(old(nodes), a, d, r) && edges == Closed(old(edges), open.value, r, a, d, ansn)
      ensures open == None && a != d ==>
        next == r + 2 && nodes == Hung(old(nodes), a, d, r) && edges == PairOf(old(edges), r, a, d, ansn)
      ensures a == d ==> next == r + 1 && nodes == Hang(old(nodes), a, a, r) && edges == Looped(old(edges), r, a, ansn)
      decreases if open == None then 1 else 0
    {
      if a != d {
        FindsOpen(nodes, edges, open, a, d);
      }
      NextIsFree(edges, next, Here());
      r := NewEdge(a, d, ansn, Half(open));
      var inv := Lookup(nodes, d, a);
      if inv == None {
        var s := AddEdge(d, a, 0, Some(r));
        PairKeeps(nodes, old(edges), r, a, d, ansn, next, Here());
        edges := edges[s := edges[s].(virt := true)];
        Connect(r, s);
      } else if a != d {
        assert Half(open) + {r} == {inv.value, r};
        CloseKeeps(nodes, old(edges), inv.value, r, a, d, ansn, next, Here());
        Connect(r, inv.value);
      } else {
        LoopKeeps(nodes, edges, r, Edge(a, a, Some(r), false, false, ansn));
        LoopFits(old(edges), r, a, ansn, next, Here());
        Connect(r, inv.value);
        assert edges == Looped(old(edges), r, a, ansn);
      }
    }

    // internal_delete_tc_edge_entry
    method RemoveEdge(r: Ref)
      requires r in edges && edges[r].inv == None && edges[r].owner in nodes
      modifies this`nodes, this`edges
      ensures nodes == Unhang(old(nodes), old(edges)[r].owner, old(edges)[r].dest) && edges == old(edges) - {r}
    {
      var a := edges[r].owner;
      nodes := nodes[a := nodes[a].(edges := nodes[a].edges - {edges[r].dest})];
      edges := edges - {r};
    }

    // olsr_delete_tc_edge_entry: the edge stays as a virtual one if its inverse is real or pinned. A virtual edge that
    // is its own inverse is freed and then removed once more, before which the model stops.
    method DeleteEdge(r: Ref) returns (ok: bool)
      requires r in edges && EdgeAt(nodes, edges, r) && MutualAt(edges, r)
        && (IsLoop(edges[r]) ==> edges[r].inv == Some(r))
      modifies this`nodes, this`edges
      ensures ok <==> Droppable(old(edges), r)
      ensures (nodes, edges) == if ok then Drop(old(nodes), old(edges), r) else (old(nodes), old(edges))
    {
      ghost var a, d := edges[r].owner, edges[r].dest;
      var s := edges[r].inv.value;
      if !edges[s].virt || edges[s].pinned {
        edges := edges[r := edges[r].(virt := true)];
      } else if s == r {
        return false;
      } else {
        edges := edges[s := edges[s].(inv := None)];
        edges := edges[r := edges[r].(inv := None)];
        RemoveEdge(r);
        RemoveEdge(s);
        assert edges == old(edges) - {r, s};
        assert nodes == Unhang(Unhang(old(nodes), a, d), d, a);
      }
      return true;
    }

    // One deletion within a sweep.
    method DeleteSwept(a: Address, d: Address, ghost ns: Nodes, ghost es: Edges, ghost todo: set<Address>,
                       ghost gone: set<Address>) returns (ok: bool)
      requires Consistent(ns, es, {}) && a in ns && Swept(ns, es, nodes, edges, a, todo, gone)
        && Fits(edges, next, Here()) && d in todo && a != myself
      modifies this`nodes, this`edges
      ensures ok <==> !(d == a && Lone(ns, es, a))
      ensures if ok then Swept(ns, es, nodes, edges, a, todo - {d}, gone + {d})
        else Swept(ns, es, nodes, edges, a, todo, gone)
      ensures Fits(edges, next, Here())
    {
      assert KeptAt(ns, es, nodes, edges, a, d);
      var r := nodes[a].edges[d];
      assert EdgeAt(nodes, edges, r) && PairAt(edges, r) && TreeAt(nodes, edges, a, d)
        && FitsAt(edges, next, Here(), r);
      LoopInverse(nodes, edges, r);
      if Droppable(edges, r) {
        SweepStep(ns, es, nodes, edges, a, todo, gone, d);
        DropKeeps(nodes, edges, r, next, Here());
        DropReal(nodes, edges, r);
        SweepReal(RealEdges(ns, es), a, gone, d);
        WithinOn(es, edges, Drop(nodes, edges, r).1);
      }
      ok := DeleteEdge(r);
    }

    // The test and deletion both sweeps make for an edge they come to.
    method Visit(a: Address, d: Address, ansn: nat, ghost ns: Nodes, ghost es: Edges, ghost todo: set<Address>,
                 ghost gone: set<Address>) returns (hit: bool, ok: bool)
      requires Consistent(ns, es, {}) && a in ns && Swept(ns, es, nodes, edges, a, todo, gone)
        && Fits(edges, next, Here()) && d in todo && a != myself
      modifies this`nodes, this`edges
      ensures hit <==> Stale(ns, es, a, d, ansn)
      ensures ok <==> !(hit && d == a && Lone(ns, es, a))
      ensures if ok then Swept(ns, es, nodes, edges, a, todo - {d}, if hit then gone + {d} else gone)
        else Swept(ns, es, nodes, edges, a, todo, gone)
      ensures Fits(edges, next, Here())
    {
      assert KeptAt(ns, es, nodes, edges, a, d);
      hit, ok := Seqno.Greater(ansn, edges[nodes[a].edges[d]].ansn), true;
      if hit {
        ok := DeleteSwept(a, d, ns, es, todo, gone);
      }
    }

    // delete_outdated_tc_edges
    method DeleteOutdated(a: Address) returns (changed: bool, ok: bool)
      requires Valid() && a in nodes && a != myself
      modifies this`nodes, this`edges
      ensures Valid() && SameNodes(old(nodes), nodes) && Within(old(edges), edges)
      ensures ok <==> !(a in Outdated(old(nodes), old(edges), a) && Lone(old(nodes), old(edges), a))
      ensures ok ==>
        RealEdges(nodes, edges) == RealEdges(old(nodes), old(edges)) - Pairs(a, Outdated(old(nodes), old(edges), a))
      ensures ok ==> (changed <==> Outdated(old(nodes), old(edges), a) != {})
    {
      ghost var ns, es, gone, all := nodes, edges, {}, Outdated(nodes, edges, a);
      SweepStart(ns, es, a);
      var todo := nodes[a].edges.Keys;
      changed := false;
      while todo != {}
        invariant Swept(ns, es, nodes, edges, a, todo, gone) && Fits(edges, next, Here())
        invariant gone == all - todo && (changed <==> gone != {}) && (a in gone ==> !Lone(ns, es, a))
        decreases todo
      {
        var d :| d in todo;
        assert KeptAt(ns, es, nodes, edges, a, d);
        var hit;
        hit, ok := Visit(a, d, nodes[a].ansn, ns, es, todo, gone);
        if !ok {
          return;
        }
        SetStep(all, todo, gone, d, hit);
        gone, changed, todo := if hit then gone + {d} else gone, changed || hit, todo - {d};
      }
      assert gone == all;
      ok := true;
    }

    // olsr_delete_revoked_tc_edges: a walk in address order over the edges between two borders
    method DeleteRevoked(a: Address, ansn: nat, lower: Address, upper: Address) returns (changed: bool, ok: bool)
      requires Valid() && a in nodes && a != myself && |lower| == |upper| == ipsize
      modifies this`nodes, this`edges
      ensures Valid() && SameNodes(old(nodes), nodes) && Within(old(edges), edges)
      ensures ok <==>
        !(a in Revoked(order, old(nodes), old(edges), a, ansn, lower, upper) && Lone(old(nodes), old(edges), a))
      ensures !ok ==> Lone(nodes, edges, a)
      ensures ok ==>
        RealEdges(nodes, edges) == RealEdges(old(nodes), old(edges))
          - Pairs(a, Revoked(order, old(nodes), old(edges), a, ansn, lower, upper))
      ensures ok ==> (changed <==> Revoked(order, old(nodes), old(edges), a, ansn, lower, upper) != {})
    {
      ghost var ns, es, gone, all := nodes, edges, {}, Revoked(order, nodes, edges, a, ansn, lower, upper);
      SweepStart(ns, es, a);
      EndsSized(ns, es, a, ipsize);
      var todo, passed := nodes[a].edges.Keys, false;
      changed := false;
      while todo != {}
        invariant Swept(ns, es, nodes, edges, a, todo, gone) && Fits(edges, next, Here())
        invariant gone == all - todo && (changed <==> gone != {}) && (a in gone ==> !Lone(ns, es, a))
        invariant todo <= ns[a].edges.Keys && (passed ==> AllFrom(order, todo, lower))
        decreases todo
      {
        HasLeast(order, todo, ipsize);
        var d :| d in todo && AllFrom(order, todo, d);
        if !passed {
          if !Below(order, d, lower) {
            passed := true;
            AllAfter(order, todo, lower, d);
          } else {
            SetStep(all, todo, gone, d, false);
            todo := todo - {d};
            continue;
          }
        }
        if !Below(order, d, upper) {
          AllAfter(order, todo, upper, d);
          assert all !! todo;
          assert gone == all;
          break;
        }
        var hit;
        hit, ok := Visit(a, d, ansn, ns, es, todo, gone);
        if !ok {
          assert KeptAt(ns, es, nodes, edges, a, a);
          return;
        }
        SetStep(all, todo, gone, d, hit);
        gone, changed, todo := if hit then gone + {d} else gone, changed || hit, todo - {d};
      }
      assert gone == all;
      ok := true;
    }

    // olsr_delete_tc_entry: a node stays, as a virtual one, exactly while some edge to it is real or pinned
    method DeleteNode(a: Address) returns (ok: bool)
      requires Valid() && a in nodes && a != myself
      modifies this`nodes, this`edges
      ensures Valid() && Within(old(edges), edges) && (ok <==> !Lone(old(nodes), old(edges), a))
      ensures ok ==> RealEdges(nodes, edges) == RealEdges(old(nodes), old(edges)) - Pairs(a, old(nodes)[a].edges.Keys)
      ensures ok ==> (a in nodes <==> exists d :: BackHolds(old(nodes), old(edges), a, d))
      ensures ok ==>
        SameNodes(if a in nodes then old(nodes)[a := old(nodes)[a].(virt := true, ansn := 0)]
        else old(nodes) - {a}, nodes)
    {
      ghost var ns, es, gone, all := nodes, edges, {}, nodes[a].edges.Keys;
      SweepStart(ns, es, a);
      var todo := nodes[a].edges.Keys;
      while todo != {}
        invariant Swept(ns, es, nodes, edges, a, todo, gone) && Fits(edges, next, Here()) && gone == all - todo
          && todo <= all
        invariant a in gone ==> !Lone(ns, es, a)
        decreases todo
      {
        var d :| d in todo;
        ok := DeleteSwept(a, d, ns, es, todo, gone);
        if !ok {
          return;
        }
        SetStep(all, todo, gone, d, true);
        gone, todo := gone + {d}, todo - {d};
      }
      assert gone == all;
      LeftOver(ns, es, nodes, edges, a);
      CloseNode(a);
      ok := true;
    }

    method CloseNode(a: Address)
      requires Valid() && a in nodes && a != myself
      modifies this`nodes
      ensures Valid() && RealEdges(nodes, edges) == RealEdges(old(nodes), edges)
        && (a in nodes <==> old(nodes)[a].edges != map[])
      ensures nodes == if a in nodes then old(nodes)[a := old(nodes)[a].(virt := true, ansn := 0)] else old(nodes) - {a}
    {
      if nodes[a].edges != map[] {
        SameEdges(nodes, edges, a, nodes[a].(virt := true, ansn := 0));
        nodes := nodes[a := nodes[a].(virt := true, ansn := 0)];
      } else {
        NodeGone(nodes, edges, a);
        nodes := nodes - {a};
      }
    }

    // olsr_tc_update_edge, for an address that passes the address check
    method UpdateEdge(a: Address, ansn: nat, d: Address)
      requires Valid() && a in nodes && |d| == ipsize
      modifies this`nodes, this`edges, this`next
      ensures Valid() && RealEdges(nodes, edges) == RealEdges(old(nodes), old(edges))[(a, d) := ansn]
      ensures a != d && Foreign(old(edges)) ==> Foreign(edges)
      ensures a != d ==> LoopOf(nodes, edges, a) == LoopOf(old(nodes), old(edges), a)
      ensures SameNodes(WithNode(old(nodes), d)[a := old(nodes)[a].(virt := false)], nodes)
    {
      RenewEdge(a, ansn, d);
      SameEdges(nodes, edges, a, nodes[a].(virt := false));
      nodes := nodes[a := nodes[a].(virt := false)];
    }

    method RenewEdge(a: Address, ansn: nat, d: Address)
      requires Valid() && a in nodes && |d| == ipsize
      modifies this`nodes, this`edges, this`next
      ensures Valid() && RealEdges(nodes, edges) == RealEdges(old(nodes), old(edges))[(a, d) := ansn]
      ensures a != d && Foreign(old(edges)) ==> Foreign(edges)
      ensures a != d ==> LoopOf(nodes, edges, a) == LoopOf(old(nodes), old(edges), a)
      ensures SameNodes(WithNode(old(nodes), d), nodes)
    {
      ghost var ns, es := nodes, edges;
      var r := Lookup(nodes, a, d);
      if r == None {
        InsertEdge(a, ansn, d);
      } else {
        assert TreeAt(ns, es, a, d);
        BothWays(ns, es, a, d);
        if a != d {
          LoopElsewhere(ns, es, r.value, es[r.value].(ansn := ansn, virt := false), a);
        }
        Touch(r.value, ansn);
      }
    }

    method InsertEdge(a: Address, ansn: nat, d: Address)
      requires Valid() && a in nodes && |d| == ipsize && d !in nodes[a].edges
      modifies this`nodes, this`edges, this`next
      ensures Valid() && RealEdges(nodes, edges) == RealEdges(old(nodes), old(edges))[(a, d) := ansn]
      ensures a != d && Foreign(old(edges)) ==> Foreign(edges)
      ensures a != d ==> LoopOf(nodes, edges, a) == LoopOf(old(nodes), old(edges), a)
      ensures SameNodes(WithNode(old(nodes), d), nodes)
    {
      if a == d {
        InsertLoop(a, ansn);
      } else {
        InsertPair(a, ansn, d);
      }
    }

    method InsertLoop(a: Address, ansn: nat)
      requires Valid() && a in nodes && |a| == ipsize && a !in nodes[a].edges
      modifies this`nodes, this`edges, this`next
      ensures Valid() && RealEdges(nodes, edges) == RealEdges(old(nodes), old(edges))[(a, a) := ansn]
        && SameNodes(old(nodes), nodes)
    {
      NextIsFree(edges, next, Here());
      RealLoop(nodes, edges, next, a, ansn);
      var n := AddEdge(a, a, ansn, None);
    }

    method InsertPair(a: Address, ansn: nat, d: Address)
      requires Valid() && a in nodes && |d| == ipsize && d !in nodes[a].edges && a != d
      modifies this`nodes, this`edges, this`next
      ensures Valid() && RealEdges(nodes, edges) == RealEdges(old(nodes), old(edges))[(a, d) := ansn]
      ensures Foreign(old(edges)) ==> Foreign(edges)
      ensures LoopOf(nodes, edges, a) == LoopOf(old(nodes), old(edges), a)
      ensures SameNodes(WithNode(old(nodes), d), nodes)
    {
      NextIsFree(edges, next, Here());
      RealPair(nodes, edges, next, a, d, ansn);
      LoopBeside(nodes, edges, a, d, next, ansn);
      PairForeign(edges, next, a, d, ansn);
      HungSame(nodes, a, d, next);
      var n := AddEdge(a, d, ansn, None);
    }

    // An edge advertised again is real and carries the new ANSN.
    method Touch(r: Ref, ansn: nat)
      requires Valid() && r in edges
      modifies this`edges
      ensures Valid() && RealEdges(nodes, edges) ==
        RealEdges(nodes, old(edges))[(old(edges)[r].owner, old(edges)[r].dest) := ansn]
      ensures Within(old(edges), edges) && edges == old(edges)[r := old(edges)[r].(ansn := ansn, virt := false)]
    {
      ghost var es := edges;
      assert EdgeAt(nodes, edges, r) && PairAt(edges, r);
      MarkKeeps(nodes, edges, r, edges[r].(ansn := ansn, virt := false));
      RealMark(nodes, edges, r, edges[r].(ansn := ansn, virt := false));
      edges := edges[r := edges[r].(ansn := ansn, virt := false)];
      NextIsFree(es, next, Here());
      FitsNew(es, next, Here(), edges, next);
    }

    // The edge of olsr_add_nbr_entry: found or made, and pinned
    method AddNeighbor(d: Address)
      requires Valid() && d != myself && |d| == ipsize && d !in nbrs
      modifies this`nodes, this`edges, this`next, this`nbrs
      ensures Valid() && nbrs.Keys == old(nbrs).Keys + {d} && (Foreign(old(edges)) ==> Foreign(edges))
      ensures forall k :: k in old(nbrs) ==> nbrs[k] == old(nbrs)[k]
      ensures RealEdges(nodes, edges) == if d in old(nodes)[myself].edges then RealEdges(old(nodes), old(edges))
        else RealEdges(old(nodes), old(edges))[(myself, d) := 0]
      ensures SameNodes(if d in old(nodes)[myself].edges then old(nodes) else WithNode(old(nodes), d), nodes)
    {
      var found := Lookup(nodes, myself, d);
      var r;
      if found == None {
        NextIsFree(edges, next, Here());
        RealPair(nodes, edges, next, myself, d, 0);
        HungSame(nodes, myself, d, next);
        r := AddEdge(myself, d, 0, None);
      } else {
        r := found.value;
        assert TreeAt(nodes, edges, myself, d);
      }
      Pin(r, d);
    }

    method Pin(r: Ref, d: Address)
      requires Valid() && r in edges && edges[r].owner == myself && edges[r].dest == d && d !in nbrs && d != myself
      modifies this`edges, this`nbrs
      ensures Valid() && nbrs == old(nbrs)[d := r] && edges == old(edges)[r := old(edges)[r].(pinned := true)]
      ensures RealEdges(nodes, edges) == RealEdges(nodes, old(edges))
    {
      ghost var es, us := edges, Here();
      assert EdgeAt(nodes, edges, r) && PairAt(edges, r) && FitsAt(es, next, us, r);
      MarkKeeps(nodes, edges, r, edges[r].(pinned := true));
      edges := edges[r := edges[r].(pinned := true)];
      nbrs := nbrs[d := r];
      assert forall k :: Real(nodes, edges, k) == Real(nodes, es, k);
      PinFits(es, next, us, r);
    }

    // The edge of olsr_delete_nbr_entry: unpinned first, then deleted
    method DeleteNeighbor(d: Address)
      requires Valid() && d in nbrs
      modifies this`nodes, this`edges, this`nbrs
      ensures Valid() && nbrs == old(nbrs) - {d} && SameNodes(old(nodes), nodes) && Within(old(edges), edges)
      ensures RealEdges(nodes, edges) == RealEdges(old(nodes), old(edges)) - {(myself, d)}
    {
      ghost var es, us := edges, Here();
      assert PinAt(edges, us, d);
      var r := nbrs[d];
      assert EdgeAt(nodes, edges, r) && PairAt(edges, r);
      UnpinKeeps(nodes, es, r, next, us);
      DropUnpinned(r);
      nbrs := nbrs - {d};
      assert Here() == us.(nbrs := us.nbrs - {d});
    }

    method DropUnpinned(r: Ref)
      requires r in edges && EdgeAt(nodes, edges, r) && MutualAt(edges, r) && !IsLoop(edges[r])
      modifies this`nodes, this`edges
      ensures var es := old(edges)[r := old(edges)[r].(pinned := false)];
        EdgeAt(old(nodes), es, r) && MutualAt(es, r) && (nodes, edges) == Drop(old(nodes), es, r)
    {
      edges := edges[r := edges[r].(pinned := false)];
      var ok := DeleteEdge(r);
    }

    // olsr_input_tc for a TC from a symmetric neighbour, up to the timers
    method InputTc(o: Address, ansn: nat, reset: bool, f: Fragment) returns (out: Outcome)
      requires Valid() && o != myself && |o| == ipsize && FragmentOk(f, ipsize)
      modifies this`nodes, this`edges, this`next
      ensures Valid() && (out.Refused? ==> nodes == old(nodes) && edges == old(edges))
      ensures out.Refused? <==>
        o in old(nodes) && !reset && old(nodes)[o].seen && !old(nodes)[o].virt
        && Seqno.Diff(ansn, old(nodes)[o].ansn) < 0
      ensures !out.Refused? ==> o in nodes && nodes[o].seen && nodes[o].ansn == ansn
      ensures !out.Refused? ==> SameNodes(Mentioned(Opened(old(nodes), o, ansn), o, f.dests), nodes)
      ensures out.Waiting? <==> !out.Refused? && (f.dests == [] || (f.lower == 0 && f.upper == 0))
      ensures out.Overrun? <==> !out.Refused? && f.dests != [] && !FlagsOk(f, ipsize)
      ensures out.Waiting? || out.Overrun? ==>
        RealEdges(nodes, edges) == Advertise(RealEdges(old(nodes), old(edges)), o, ansn, f.dests)
      ensures out.Cleaned? ==> RealEdges(nodes, edges) == Receive(order, RealEdges(old(nodes), old(edges)), o, ansn, f)
      ensures !out.Refused? && !out.Waiting? && !out.Overrun? ==>
        (out.Twice? <==> o !in f.dests && Covers(order, f, o) && LoneStale(old(nodes), old(edges), o, ansn))
      ensures Foreign(old(edges)) && o !in f.dests ==> Foreign(edges) && !out.Twice?
    {
      if o in nodes && !reset && nodes[o].seen && !nodes[o].virt && Seqno.Diff(ansn, nodes[o].ansn) < 0 {
        return Refused;
      }
      ghost var m := RealEdges(nodes, edges);
      OpenNode(o, ansn);
      MentionedMeans(nodes, o, f.dests, o);
      UpdateEdges(o, ansn, f.dests);
      if o in f.dests {
        RealNotLone(nodes, edges, m, o, ansn, f.dests);
      }
      out := Waiting;
      if f.dests != [] {
        out := SweepBorders(o, ansn, f, m);
      }
    }

    // The deletion of the older edges between the borders of a message, unless it carries none.
    method SweepBorders(o: Address, ansn: nat, f: Fragment, ghost m: Topology) returns (out: Outcome)
      requires Valid() && o in nodes && o != myself && FragmentOk(f, ipsize) && f.dests != []
      requires RealEdges(nodes, edges) == Advertise(m, o, ansn, f.dests)
      modifies this`nodes, this`edges
      ensures Valid() && SameNodes(old(nodes), nodes) && !out.Refused?
        && (out.Waiting? <==> f.lower == 0 && f.upper == 0)
      ensures out.Overrun? <==> !FlagsOk(f, ipsize)
      ensures out.Waiting? || out.Overrun? ==> RealEdges(nodes, edges) == Advertise(m, o, ansn, f.dests)
      ensures out.Cleaned? ==> RealEdges(nodes, edges) == Receive(order, m, o, ansn, f)
      ensures out.Twice? <==>
        !out.Waiting? && !out.Overrun? && Covers(order, f, o) && LoneStale(old(nodes), old(edges), o, ansn)
      ensures Within(old(edges), edges) && (Foreign(old(edges)) ==> !out.Twice?)
    {
      var borders, lower, upper := BordersOf(f);
      match borders
      case Unset => out := Waiting;
      case Outside => out := Overrun;
      case Set => out := SweepBetween(o, ansn, f, lower, upper, m);
    }

    method BordersOf(f: Fragment) returns (r: Borders, lower: Address, upper: Address)
      requires FragmentOk(f, ipsize) && f.dests != [] && ipsize <= 31
      ensures r.Unset? <==> f.lower == 0 && f.upper == 0
      ensures r.Set? <==> FlagOk(f.lower, ipsize) && FlagOk(f.upper, ipsize)
      ensures |f.dests[0]| == |f.dests[|f.dests| - 1]| == ipsize
      ensures r.Set? ==>
        lower == BorderFrom(f.dests[0], f.lower, 0) && upper == BorderFrom(f.dests[|f.dests| - 1], f.upper, 0xff)
    {
      var first, last := f.dests[0], f.dests[|f.dests| - 1];
      assert first in f.dests && last in f.dests;
      var low := new bv8[ipsize](i requires 0 <= i < ipsize => first[i]);
      var high := new bv8[ipsize](i requires 0 <= i < ipsize => last[i]);
      assert low[..] == first && high[..] == last;
      r := CalculateBorder(f.lower, low, f.upper, high);
      lower, upper := low[..], high[..];
    }

    method SweepBetween(o: Address, ansn: nat, f: Fragment, lower: Address, upper: Address,
                        ghost m: Topology) returns (out: Outcome)
      requires Valid() && o in nodes && o != myself && RealEdges(nodes, edges) == Advertise(m, o, ansn, f.dests)
      requires f.dests != [] && |f.dests[0]| == |f.dests[|f.dests| - 1]| == ipsize && FlagOk(f.lower, ipsize)
        && FlagOk(f.upper, ipsize)
      requires lower == BorderFrom(f.dests[0], f.lower, 0) && upper == BorderFrom(f.dests[|f.dests| - 1], f.upper, 0xff)
      modifies this`nodes, this`edges
      ensures Valid() && SameNodes(old(nodes), nodes) && (out.Cleaned? || out.Twice?)
      ensures out.Cleaned? ==> RealEdges(nodes, edges) == Receive(order, m, o, ansn, f)
      ensures out.Twice? <==>
        !out.Waiting? && !out.Overrun? && Covers(order, f, o) && LoneStale(old(nodes), old(edges), o, ansn)
      ensures Within(old(edges), edges) && (Foreign(old(edges)) ==> !out.Twice?)
    {
      ReceiveIs(order, nodes, edges, m, o, ansn, f);
      if Foreign(edges) {
        ForeignNotLone(nodes, edges, o);
      }
      var changed, ok := DeleteRevoked(o, ansn, lower, upper);
      out := if ok then Cleaned else Twice;
    }

    // The entry of the originator, made if need be, with the new ANSN.
    method OpenNode(o: Address, ansn: nat)
      requires Valid() && |o| == ipsize
      modifies this`nodes
      ensures Valid() && RealEdges(nodes, edges) == RealEdges(old(nodes), edges)
      ensures nodes == Opened(old(nodes), o, ansn) && LoopOf(nodes, edges, o) == LoopOf(old(nodes), edges, o)
    {
      if o !in nodes {
        NodeKeeps(nodes, edges, {}, o);
        assert forall k :: Real(WithNode(nodes, o), edges, k) == Real(nodes, edges, k);
        nodes := nodes[o := Node(map[], false, false, 0)];
      }
      SameEdges(nodes, edges, o, nodes[o].(seen := true, ansn := ansn));
      nodes := nodes[o := nodes[o].(seen := true, ansn := ansn)];
    }

    // The walk over the advertised neighbours of a message.
    method UpdateEdges(o: Address, ansn: nat, dests: seq<Address>)
      requires Valid() && o in nodes && forall d :: d in dests ==> |d| == ipsize
      modifies this`nodes, this`edges, this`next
      ensures Valid() && RealEdges(nodes, edges) == Advertise(RealEdges(old(nodes), old(edges)), o, ansn, dests)
      ensures SameNodes(Mentioned(old(nodes), o, dests), nodes)
      ensures Foreign(old(edges)) && o !in dests ==> Foreign(edges)
      ensures o !in dests ==> LoopOf(nodes, edges, o) == LoopOf(old(nodes), old(edges), o)
    {
      ghost var m := RealEdges(nodes, edges);
      for i := 0 to |dests|
        invariant Valid() && RealEdges(nodes, edges) == Advertise(m, o, ansn, dests[..i])
        invariant SameNodes(Mentioned(old(nodes), o, dests[..i]), nodes)
        invariant Foreign(old(edges)) && o !in dests ==> Foreign(edges)
        invariant o !in dests ==> LoopOf(nodes, edges, o) == LoopOf(old(nodes), old(edges), o)
      {
        assert dests[i] in dests;
        ghost var ns := nodes;
        UpdateEdge(o, ansn, dests[i]);
        MentionedSnoc(old(nodes), o, dests, i, ns, nodes);
        AdvertiseSnoc(m, o, ansn, dests, i);
      }
      assert dests[..|dests|] == dests;
    }

    // Whatever messages, timers and neighbour changes come, the pairing holds (see Valid) up to the first access to
    // memory that is not the database's, and there is none if no message is malformed.
    method Run(ops: seq<Op>) returns (ok: bool, ghost states: seq<State>)
      requires Valid()
      modifies this`nodes, this`edges, this`next, this`nbrs
      ensures Valid() && 1 <= |states| <= |ops| + 1 && states[0] == old(Now())
      ensures ok ==> |states| == |ops| + 1 && states[|ops|] == Now()
      ensures forall i {:trigger TurnAt(order, myself, ipsize, states, ops, i)} ::
        0 <= i < |states| - 1 ==> TurnAt(order, myself, ipsize, states, ops, i)
      ensures Foreign(old(edges)) && (forall op :: op in ops ==> WellFormed(op, ipsize)) ==> ok && Foreign(edges)
    {
      states := [Now()];
      for i := 0 to |ops|
        invariant Valid() && |states| == i + 1 && states[0] == old(Now()) && states[i] == Now()
        invariant Turns(order, myself, ipsize, states, ops)
        invariant Foreign(old(edges)) && (forall op :: op in ops ==> WellFormed(op, ipsize)) ==> Foreign(edges)
      {
        assert ops[i] in ops;
        ok := Step(ops[i]);
        if !ok {
          return;
        }
        TurnsOn(order, myself, ipsize, states, ops, Now());
        states := states + [Now()];
      }
      ok := true;
    }

    ghost function Now(): State
      reads this
    {
      State(nodes, edges, nbrs)
    }

    // One event: ok unless it comes to an access outside the database.
    method Step(op: Op) returns (ok: bool)
      requires Valid()
      modifies this`nodes, this`edges, this`next, this`nbrs
      ensures ok ==> Turn(order, myself, ipsize, old(Now()), op, Now())
      ensures Valid() && (Foreign(old(edges)) && WellFormed(op, ipsize) ==> ok && Foreign(edges))
    {
      ok := true;
      match op
      case Tc(o, ansn, reset, f) =>
        if o != myself && |o| == ipsize && FragmentOk(f, ipsize) {
          var out := InputTc(o, ansn, reset, f);
          ok := !out.Overrun? && !out.Twice?;
        }
      case Expire(a) =>
        if a in nodes && a != myself {
          if Foreign(edges) {
            ForeignNotLone(nodes, edges, a);
          }
          WithoutOwner(nodes, edges, a);
          ok := DeleteNode(a);
          StaysForeign(old(edges), edges);
        }
      case Collect(a) =>
        if a in nodes && a != myself {
          if Foreign(edges) {
            ForeignNotLone(nodes, edges, a);
          }
          WithoutOld(nodes, edges, a);
          var changed;
          changed, ok := DeleteOutdated(a);
          StaysForeign(old(edges), edges);
        }
      case NeighborUp(d) =>
        if d != myself && |d| == ipsize && d !in nbrs {
          AddNeighbor(d);
        }
      case NeighborDown(d) =>
        if d in nbrs {
          DeleteNeighbor(d);
          StaysForeign(old(edges), edges);
        }
    }
  }

  // What can happen to the database: a TC arrives, a node or its edge collection timer expires, a neighbour comes or
  // goes.
  datatype Op =
    | Tc(o: Address, ansn: nat, reset: bool, f: Fragment)
    | Expire(a: Address)
    | Collect(a: Address)
    | NeighborUp(d: Address)
    | NeighborDown(d: Address)

  // The database as a value.
  datatype State = State(ns: Nodes, es: Edges, nbrs: map<Address, Ref>)

  // The node a TC comes from, with its ANSN, and the nodes it mentions; that from which it comes is virtual no more if
  // it
  // mentions any.
  ghost function Opened(ns: Nodes, o: Address, ansn: nat): (r: Nodes)
    ensures o in r
  {
    var all := WithNode(ns, o);
    all[o := all[o].(seen := true, ansn := ansn)]
  }

  ghost function Mentioned(ns: Nodes, o: Address, dests: seq<Address>): (r: Nodes)
    requires o in ns
    ensures o in r
  {
    if dests == [] then ns else
      var q := Mentioned(ns, o, dests[..|dests| - 1]);
      WithNode(q, dests[|dests| - 1])[o := q[o].(virt := false)]
  }

  lemma {:induction false} MentionedSnoc(ns: Nodes, o: Address, dests: seq<Address>, i: nat, now: Nodes,
                                         now': Nodes)
    requires o in ns && i < |dests| && SameNodes(Mentioned(ns, o, dests[..i]), now) && o in now
    requires SameNodes(WithNode(now, dests[i])[o := now[o].(virt := false)], now')
    ensures SameNodes(Mentioned(ns, o, dests[..i + 1]), now')
  {
    assert dests[..i + 1][..i] == dests[..i];
    SameWith(Mentioned(ns, o, dests[..i]), now, o, dests[i], now');
  }

  lemma {:induction false} SameWith(q: Nodes, now: Nodes, o: Address, d: Address, now': Nodes)
    requires SameNodes(q, now) && o in q && SameNodes(WithNode(now, d)[o := now[o].(virt := false)], now')
    ensures SameNodes(WithNode(q, d)[o := q[o].(virt := false)], now')
  {
    var p := WithNode(q, d)[o := q[o].(virt := false)];
    assert p.Keys == now'.Keys;
    forall a | a in p
      ensures now'[a].(edges := p[a].edges) == p[a]
    {
      assert a in q ==> now[a].(edges := q[a].edges) == q[a];
    }
  }

  // Which nodes those are, and what is known of them.
  lemma {:induction false} MentionedMeans(ns: Nodes, o: Address, dests: seq<Address>, k: Address)
    requires o in ns
    ensures var r := Mentioned(ns, o, dests);
      && (k in r <==> k in ns || k in dests)
      && (k in r && k != o ==> r[k] == if k in ns then ns[k] else Node(map[], false, false, 0))
      && (k == o ==> r[k] == ns[k].(virt := ns[k].virt && dests == []))
  {
    if dests != [] {
      MentionedMeans(ns, o, dests[..|dests| - 1], k);
    }
  }

  // What one event makes of the real edges, each with its ANSN, and of our neighbours. A TC of ours, with a malformed
  // address or older than what is known has no effect; another makes its neighbours real and takes the older edges it
  // covers away, or leaves them to the timers. When a node expires all its edges go, when its edges are collected the
  // older ones.
  ghost predicate Turn(order: Order, myself: Address, n: nat, s: State, op: Op, s': State)
  {
    var m, m' := RealEdges(s.ns, s.es), RealEdges(s'.ns, s'.es);
    match op
    case Tc(o, ansn, reset, f) =>
      && s'.nbrs == s.nbrs
      && if o == myself || |o| != n || !FragmentOk(f, n) || TooOld(s.ns, o, ansn, reset) then s' == s
        else
          && SameNodes(Mentioned(Opened(s.ns, o, ansn), o, f.dests), s'.ns)
          && m' == if f.dests == [] || (f.lower == 0 && f.upper == 0) then Advertise(m, o, ansn, f.dests)
            else Receive(order, m, o, ansn, f)
    case Expire(a) =>
      if a == myself || a !in s.ns then s' == s
      else
        && s'.nbrs == s.nbrs && m' == NotOf(m, a)
        && (a in s'.ns <==> exists d :: BackHolds(s.ns, s.es, a, d))
        && SameNodes(if a in s'.ns then s.ns[a := s.ns[a].(virt := true, ansn := 0)] else s.ns - {a}, s'.ns)
    case Collect(a) =>
      if a == myself || a !in s.ns then s' == s
      else s'.nbrs == s.nbrs && m' == NotOlder(m, a, s.ns[a].ansn) && SameNodes(s.ns, s'.ns)
    case NeighborUp(d) =>
      if d == myself || |d| != n || d in s.nbrs then s' == s
      else
        && s'.nbrs.Keys == s.nbrs.Keys + {d}
        && myself in s.ns && m' == (if d in s.ns[myself].edges then m else m[(myself, d) := 0])
        && SameNodes(if d in s.ns[myself].edges then s.ns else WithNode(s.ns, d), s'.ns)
    case NeighborDown(d) =>
      if d !in s.nbrs then s' == s
      else s'.nbrs == s.nbrs - {d} && m' == m - {(myself, d)} && SameNodes(s.ns, s'.ns)
  }

  // A message that is older than the last of its originator, which the database has from messages, and no reset.
  ghost predicate TooOld(ns: Nodes, o: Address, ansn: nat, reset: bool)
  {
    !reset && o in ns && ns[o].seen && !ns[o].virt && Seqno.Diff(ansn, ns[o].ansn) < 0
  }

  ghost function NotOf(m: Topology, a: Address): Topology
  {
    imap k: (Address, Address) | k in m && k.0 != a :: m[k]
  }

  ghost function NotOlder(m: Topology, a: Address, ansn: nat): Topology
  {
    imap k: (Address, Address) | k in m && !(k.0 == a && Seqno.Greater(ansn, m[k])) :: m[k]
  }

  lemma {:induction false} WithoutOwner(ns: Nodes, es: Edges, a: Address)
    requires a in ns
    ensures RealEdges(ns, es) - Pairs(a, ns[a].edges.Keys) == NotOf(RealEdges(ns, es), a)
  {
  }

  lemma {:induction false} WithoutOld(ns: Nodes, es: Edges, a: Address)
    requires a in ns
    ensures RealEdges(ns, es) - Pairs(a, Outdated(ns, es, a)) == NotOlder(RealEdges(ns, es), a, ns[a].ansn)
  {
    var m := RealEdges(ns, es);
    forall k | k in m
      ensures k in Pairs(a, Outdated(ns, es, a)) <==> k.0 == a && Seqno.Greater(ns[a].ansn, m[k])
    {
      assert Real(ns, es, k) == Some(m[k]);
    }
  }

  ghost predicate TurnAt(order: Order, myself: Address, n: nat, states: seq<State>, ops: seq<Op>, i: int)
    requires 0 <= i < |states| - 1 && i < |ops|
  {
    Turn(order, myself, n, states[i], ops[i], states[i + 1])
  }

  ghost predicate Turns(order: Order, myself: Address, n: nat, states: seq<State>, ops: seq<Op>)
  {
    |states| <= |ops| + 1 && forall i {:trigger TurnAt(order, myself, n, states, ops, i)} ::
      0 <= i < |states| - 1 ==> TurnAt(order, myself, n, states, ops, i)
  }

  lemma {:induction false} TurnsOn(order: Order, myself: Address, n: nat, states: seq<State>, ops: seq<Op>, s: State)
    requires Turns(order, myself, n, states, ops) && 1 <= |states| <= |ops|
      && Turn(order, myself, n, states[|states| - 1], ops[|states| - 1], s)
    ensures Turns(order, myself, n, states + [s], ops)
  {
    forall i | 0 <= i < |states|
      ensures TurnAt(order, myself, n, states + [s], ops, i)
    {
      assert i < |states| - 1 ==> TurnAt(order, myself, n, states, ops, i);
    }
  }

  // One TC message: its border flags and the neighbours it advertises.
  datatype Fragment = Fragment(lower: nat, upper: nat, dests: seq<Address>)

  // What any message on the wire has: addresses of one size and one byte for each flag.
  predicate FragmentOk(f: Fragment, n: nat)
  {
    f.lower < 256 && f.upper < 256 && forall d :: d in f.dests ==> |d| == n
  }

  // No borders, or two flags that point into an address.
  predicate FlagsOk(f: Fragment, n: nat)
  {
    (f.lower == 0 && f.upper == 0) || (FlagOk(f.lower, n) && FlagOk(f.upper, n))
  }

  predicate WellFormed(op: Op, n: nat)
  {
    op.Tc? ==> FlagsOk(op.f, n) && op.o !in op.f.dests
  }

  // What becomes of a TC: it is older than what is known; it leaves old edges to the collection timer; it has them
  // deleted between its borders; a border flag makes the receiver write outside the address; the deletion comes to a
  // virtual edge that is its own inverse.
  datatype Outcome = Refused | Waiting | Cleaned | Overrun | Twice

  // All advertised neighbours become real edges with the ANSN of the message.
  ghost function Advertise(m: Topology, o: Address, ansn: nat, dests: seq<Address>): Topology
  {
    imap k: (Address, Address) | k in m || (k.0 == o && k.1 in dests) :: if k.0 == o && k.1 in dests then ansn else m[k]
  }

  // A router that just advertised itself has a real edge to itself.
  lemma {:induction false} RealNotLone(ns: Nodes, es: Edges, m: Topology, o: Address, ansn: nat, dests: seq<Address>)
    requires RealEdges(ns, es) == Advertise(m, o, ansn, dests) && o in dests
    ensures !LoneStale(ns, es, o, ansn)
  {
    assert (o, o) in Advertise(m, o, ansn, dests);
    assert Real(ns, es, (o, o)).Some?;
  }

  lemma {:induction false} AdvertiseSnoc(m: Topology, o: Address, ansn: nat, dests: seq<Address>, i: nat)
    requires i < |dests|
    ensures Advertise(m, o, ansn, dests[..i])[(o, dests[i]) := ansn] == Advertise(m, o, ansn, dests[..i + 1])
  {
    assert dests[..i + 1] == dests[..i] + [dests[i]];
  }

  // The range of addresses a message answers for.
  ghost predicate Covers(ord: Order, f: Fragment, d: Address)
  {
    && f.dests != [] && |f.dests[0]| == |f.dests[|f.dests| - 1]| && FlagOk(f.lower, |f.dests[0]|)
      && FlagOk(f.upper, |f.dests[0]|)
    && Between(ord, d, BorderFrom(f.dests[0], f.lower, 0), BorderFrom(f.dests[|f.dests| - 1], f.upper, 0xff))
  }

  // A received message: older edges it covers go, then its own come.
  ghost function Receive(ord: Order, m: Topology, o: Address, ansn: nat, f: Fragment): Topology
  {
    Advertise(imap k: (Address, Address) | k in m
      && !(k.0 == o && Covers(ord, f, k.1) && Seqno.Greater(ansn, m[k])) :: m[k], o, ansn, f.dests)
  }

  lemma {:induction false} ReceiveIs(ord: Order, ns: Nodes, es: Edges, m: Topology, o: Address, ansn: nat, f: Fragment)
    requires f.dests != [] && |f.dests[0]| == |f.dests[|f.dests| - 1]| && FlagOk(f.lower, |f.dests[0]|)
      && FlagOk(f.upper, |f.dests[0]|)
    requires o in ns && RealEdges(ns, es) == Advertise(m, o, ansn, f.dests)
    ensures RealEdges(ns, es)
        - Pairs(o, Revoked(ord, ns, es, o, ansn, BorderFrom(f.dests[0], f.lower, 0),
                           BorderFrom(f.dests[|f.dests| - 1], f.upper, 0xff)))
      == Receive(ord, m, o, ansn, f)
  {
    var lo, hi := BorderFrom(f.dests[0], f.lower, 0), BorderFrom(f.dests[|f.dests| - 1], f.upper, 0xff);
    var a, all := RealEdges(ns, es), Revoked(ord, ns, es, o, ansn, lo, hi);
    forall k: (Address, Address) | k in a
      ensures k in Pairs(o, all) <==> k.0 == o && Covers(ord, f, k.1) && Seqno.Greater(ansn, a[k])
    {
      RevokedAt(ord, ns, es, o, ansn, lo, hi, k);
    }
    WithoutRevoked(a, Pairs(o, all), ord, m, o, ansn, f);
  }

  lemma {:induction false} RevokedAt(ord: Order, ns: Nodes, es: Edges, o: Address, ansn: nat, lo: Address, hi: Address,
                                     k: (Address, Address))
    requires o in ns && k in RealEdges(ns, es)
    ensures k in Pairs(o, Revoked(ord, ns, es, o, ansn, lo, hi)) <==>
      k.0 == o && Between(ord, k.1, lo, hi) && Seqno.Greater(ansn, RealEdges(ns, es)[k])
  {
    assert Real(ns, es, k) == Some(RealEdges(ns, es)[k]);
  }

  lemma {:induction false} WithoutRevoked(a: Topology, gone: set<(Address, Address)>, ord: Order, m: Topology,
                                          o: Address, ansn: nat, f: Fragment)
    requires a == Advertise(m, o, ansn, f.dests)
    requires forall k: (Address, Address) ::
      k in a ==> (k in gone <==> k.0 == o && Covers(ord, f, k.1) && Seqno.Greater(ansn, a[k]))
    ensures a - gone == Receive(ord, m, o, ansn, f)
  {
  }

  lemma {:induction false} PinFits(es: Edges, next: Ref, us: Us, r: Ref)
    requires Fits(es, next, us) && r in es && es[r].owner == us.myself && es[r].dest != us.myself
      && es[r].dest !in us.nbrs
    ensures Fits(es[r := es[r].(pinned := true)], next, us.(nbrs := us.nbrs[es[r].dest := r]))
  {
    var es', us' := es[r := es[r].(pinned := true)], us.(nbrs := us.nbrs[es[r].dest := r]);
    forall t | t in es'
      ensures FitsAt(es', next, us', t)
    {
      assert FitsAt(es, next, us, t);
    }
    forall d | d in us'.nbrs
      ensures PinAt(es', us', d)
    {
      assert d in us.nbrs ==> PinAt(es, us, d);
    }
  }

  // Deleting the edge of a neighbour, with its pin taken off before.
  lemma {:induction false} UnpinKeeps(ns: Nodes, es: Edges, r: Ref, next: Ref, us: Us)
    requires Consistent(ns, es, {}) && Fits(es, next, us) && r in es && EdgeAt(ns, es, r) && PairAt(es, r)
      && es[r].pinned && !IsLoop(es[r])
    ensures var es1 := es[r := es[r].(pinned := false)];
      && EdgeAt(ns, es1, r) && MutualAt(es1, r)
      && var (ns', es') := Drop(ns, es1, r);
      && Consistent(ns', es', {}) && Fits(es', next, us.(nbrs := us.nbrs - {es[r].dest})) && SameNodes(ns, ns')
        && Within(es, es')
      && RealEdges(ns', es') == RealEdges(ns, es) - {(es[r].owner, es[r].dest)}
  {
    var e := es[r];
    LoopInverse(ns, es, r);
    UnpinDrop(ns, es, r);
    if Holds(es[e.inv.value]) {
      MarkKeeps(ns, es, r, e.(pinned := false, virt := true));
      RealMark(ns, es, r, e.(pinned := false, virt := true));
      UnpinFits(es, next, us, r, es[r := e.(pinned := false, virt := true)]);
    } else {
      CutKeeps(ns, es, r);
      RealCut(ns, es, r);
      UnpinFits(es, next, us, r, es - {r, e.inv.value});
    }
  }

  lemma {:induction false} UnpinDrop(ns: Nodes, es: Edges, r: Ref)
    requires r in es && EdgeAt(ns, es, r) && MutualAt(es, r) && es[r].inv != Some(r)
    ensures var e, es1 := es[r], es[r := es[r].(pinned := false)]; var s := e.inv.value;
      && EdgeAt(ns, es1, r) && MutualAt(es1, r)
      && Drop(ns, es1, r) == if Holds(es[s]) then (ns, es[r := e.(pinned := false, virt := true)])
                             else (Unhang(Unhang(ns, e.owner, e.dest), e.dest, e.owner), es - {r, s})
  {
    var e, es1 := es[r], es[r := es[r].(pinned := false)];
    assert es1[r := e.(pinned := false, virt := true)] == es[r := e.(pinned := false, virt := true)];
    assert es1 - {r, e.inv.value} == es - {r, e.inv.value};
  }

  lemma {:induction false} UnpinFits(es: Edges, next: Ref, us: Us, r: Ref, es': Edges)
    requires Fits(es, next, us) && r in es && es[r].pinned
    requires forall t :: t in es' ==> t in es && if t == r then !es'[t].pinned else es'[t] == es[t]
    requires forall t :: t in es && es[t].pinned && t != r ==> t in es'
    ensures Fits(es', next, us.(nbrs := us.nbrs - {es[r].dest}))
  {
    var us' := us.(nbrs := us.nbrs - {es[r].dest});
    assert FitsAt(es, next, us, r);
    forall t | t in es'
      ensures FitsAt(es', next, us', t)
    {
      assert FitsAt(es, next, us, t);
    }
    forall d | d in us'.nbrs
      ensures PinAt(es', us', d)
    {
      assert PinAt(es, us, d);
    }
  }

  // The edge from d back to a is real or pinned.
  ghost predicate BackHolds(ns: Nodes, es: Edges, a: Address, d: Address)
  {
    d in ns && a in ns[d].edges && ns[d].edges[a] in es && Holds(es[ns[d].edges[a]])
  }

  lemma {:induction false} LeftOver(ns0: Nodes, es0: Edges, ns: Nodes, es: Edges, a: Address)
    requires Consistent(ns0, es0, {}) && a in ns0 && Swept(ns0, es0, ns, es, a, {}, ns0[a].edges.Keys)
    ensures ns[a].edges != map[] <==> exists d :: BackHolds(ns0, es0, a, d)
  {
    forall d
      ensures d in ns[a].edges <==> BackHolds(ns0, es0, a, d)
    {
      BothWays(ns0, es0, a, d);
      BothWays(ns0, es0, d, a);
      if d in ns0[a].edges {
        assert GoneAt(ns0, es0, ns, a, d);
      }
    }
    if ns[a].edges != map[] {
      var d :| d in ns[a].edges;
      assert BackHolds(ns0, es0, a, d);
    }
  }

  // The attributes of a node are no part of the pairing.
  lemma {:induction false} SameEdges(ns: Nodes, es: Edges, a: Address, n: Node)
    requires Consistent(ns, es, {}) && a in ns && n.edges == ns[a].edges
    ensures Consistent(ns[a := n], es, {}) && RealEdges(ns[a := n], es) == RealEdges(ns, es)
  {
    var ns' := ns[a := n];
    forall x, y | x in ns' && y in ns'[x].edges
      ensures TreeAt(ns', es, x, y)
    {
      assert TreeAt(ns, es, x, y);
    }
    forall t | t in es
      ensures EdgeAt(ns', es, t)
    {
      assert EdgeAt(ns, es, t);
    }
    assert forall k :: Real(ns', es, k) == Real(ns, es, k);
  }

  // No edge points to or from a node without edges.
  lemma {:induction false} NodeGone(ns: Nodes, es: Edges, a: Address)
    requires Consistent(ns, es, {}) && a in ns && ns[a].edges == map[]
    ensures Consistent(ns - {a}, es, {}) && RealEdges(ns - {a}, es) == RealEdges(ns, es)
  {
    var ns' := ns - {a};
    forall x, y | x in ns' && y in ns'[x].edges
      ensures TreeAt(ns', es, x, y)
    {
      assert TreeAt(ns, es, x, y);
    }
    forall t | t in es
      ensures EdgeAt(ns', es, t)
    {
      assert EdgeAt(ns, es, t) && PairAt(es, t) && EdgeAt(ns, es, es[t].inv.value);
    }
    assert forall k :: Real(ns', es, k) == Real(ns, es, k);
  }

  lemma {:induction false} SetStep(all: set<Address>, todo: set<Address>, gone: set<Address>, d: Address, hit: bool)
    requires gone == all - todo && d in todo && (hit <==> d in all)
    ensures (if hit then gone + {d} else gone) == all - (todo - {d})
  {
  }

  // Every address of s has the length of d and is not below it.
  predicate AllFrom(ord: Order, s: set<Address>, d: Address)
  {
    forall k :: k in s ==> |k| == |d| && !Below(ord, k, d)
  }

  // The edge was last advertised with an older ANSN.
  ghost predicate Stale(ns: Nodes, es: Edges, a: Address, d: Address, ansn: nat)
  {
    a in ns && d in ns[a].edges && ns[a].edges[d] in es && Seqno.Greater(ansn, es[ns[a].edges[d]].ansn)
  }

  ghost function Outdated(ns: Nodes, es: Edges, a: Address): set<Address>
    requires a in ns
  {
    set d | d in ns[a].edges && Stale(ns, es, a, d, ns[a].ansn)
  }

  predicate Between(ord: Order, d: Address, lower: Address, upper: Address)
  {
    |d| == |lower| == |upper| && !Below(ord, d, lower) && Below(ord, d, upper)
  }

  ghost function Revoked(ord: Order, ns: Nodes, es: Edges, a: Address, ansn: nat, lower: Address,
                         upper: Address): set<Address>
    requires a in ns
  {
    set d | d in ns[a].edges && Between(ord, d, lower, upper) && Stale(ns, es, a, d, ansn)
  }

  lemma {:induction false} EndsSized(ns: Nodes, es: Edges, a: Address, n: nat)
    requires Consistent(ns, es, {}) && Sized(ns, n) && a in ns
    ensures forall d :: d in ns[a].edges ==> |d| == n
  {
    forall d | d in ns[a].edges
      ensures |d| == n
    {
      BothWays(ns, es, a, d);
    }
  }

  lemma {:induction false} HasLeast(ord: Order, s: set<Address>, n: nat)
    requires s != {} && forall k :: k in s ==> |k| == n
    ensures exists d :: d in s && AllFrom(ord, s, d)
  {
    var x :| x in s;
    BelowTotal(ord, x, x);
    if s == {x} {
      assert AllFrom(ord, s, x);
    } else {
      HasLeast(ord, s - {x}, n);
      var d :| d in s - {x} && AllFrom(ord, s - {x}, d);
      BelowTotal(ord, x, d);
      if Below(ord, x, d) {
        AllAfter(ord, s - {x}, x, d);
        assert AllFrom(ord, s, x);
      } else {
        assert AllFrom(ord, s, d);
      }
    }
  }

  lemma {:induction false} AllAfter(ord: Order, s: set<Address>, border: Address, d: Address)
    requires |border| == |d| && !Below(ord, d, border) && AllFrom(ord, s, d)
    ensures AllFrom(ord, s, border)
  {
    forall k | k in s
      ensures !Below(ord, k, border)
    {
      BelowTransitive(ord, border, d, k);
    }
  }
}
