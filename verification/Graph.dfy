/** The graph that the shortest-path computation walks (src/olsr_spf.c): the link-state database with the costs its
    edges carry. */
module Graph {
  import opened Basics
  import opened Border
  import opened Lsdb
  import Spf

  // An edge as the relaxation sees it: it leads to the node of its inverse.
  function Seen(es: Edges, cost: Ref -> nat, r: Ref): Spf.Edge
    requires r in es && es[r].inv.Some? && es[r].inv.value in es
  {
    var s := es[r].inv.value;
    Spf.Edge(es[s].owner, es[r].virt, cost(r), cost(s))
  }

  ghost predicate SeenAs(ns: Nodes, es: Edges, cost: Ref -> nat, a: Address, d: Address, e: Spf.Edge)
  {
    && a in ns && d in ns[a].edges && TreeAt(ns, es, a, d) && MutualAt(es, ns[a].edges[d])
    && e == Seen(es, cost, ns[a].edges[d])
  }

  // The edges of a node to the destinations in ds.
  ghost predicate EdgesTo(ns: Nodes, es: Edges, cost: Ref -> nat, a: Address, ds: set<Address>, s: seq<Spf.Edge>)
  {
    && (forall e :: e in s ==> exists d :: d in ds && SeenAs(ns, es, cost, a, d, e))
    && (forall d :: d in ds ==> exists e :: e in s && SeenAs(ns, es, cost, a, d, e))
  }

  // All nodes of the database with all their edges.
  ghost predicate IsGraph(ns: Nodes, es: Edges, cost: Ref -> nat, g: Spf.Graph)
  {
    g.Keys == ns.Keys && forall a {:trigger NodeEdges(ns, es, cost, g, a)} :: a in ns ==> NodeEdges(ns, es, cost, g, a)
  }

  ghost predicate NodeEdges(ns: Nodes, es: Edges, cost: Ref -> nat, g: Spf.Graph, a: Address)
  {
    a in ns && a in g && EdgesTo(ns, es, cost, a, ns[a].edges.Keys, g[a])
  }

  lemma {:induction false} EdgesOn(ns: Nodes, es: Edges, cost: Ref -> nat, a: Address, ds: set<Address>,
                                   s: seq<Spf.Edge>, d: Address, e: Spf.Edge)
    requires EdgesTo(ns, es, cost, a, ds, s) && SeenAs(ns, es, cost, a, d, e)
    ensures EdgesTo(ns, es, cost, a, ds + {d}, s + [e])
  {
    forall f | f in s + [e]
      ensures exists k :: k in ds + {d} && SeenAs(ns, es, cost, a, k, f)
    {
      if f in s {
        var k :| k in ds && SeenAs(ns, es, cost, a, k, f);
        assert k in ds + {d};
      }
    }
    forall k | k in ds + {d}
      ensures exists f :: f in s + [e] && SeenAs(ns, es, cost, a, k, f)
    {
      if k in ds {
        var f :| f in s && SeenAs(ns, es, cost, a, k, f);
        assert f in s + [e];
      } else {
        assert e in s + [e];
      }
    }
  }

  lemma {:induction false} EdgeSeen(ns: Nodes, es: Edges, cost: Ref -> nat, a: Address, d: Address)
    requires Consistent(ns, es, {}) && a in ns && d in ns[a].edges
    ensures ns[a].edges[d] in es && MutualAt(es, ns[a].edges[d])
      && SeenAs(ns, es, cost, a, d, Seen(es, cost, ns[a].edges[d]))
  {
    assert TreeAt(ns, es, a, d) && PairAt(es, ns[a].edges[d]);
  }

  // The walk over the edge tree of a node, in address order.
  method EdgesOf(db: Database, a: Address, cost: Ref -> nat) returns (s: seq<Spf.Edge>)
    requires db.Valid() && a in db.nodes
    ensures EdgesTo(db.nodes, db.edges, cost, a, db.nodes[a].edges.Keys, s)
  {
    EndsSized(db.nodes, db.edges, a, db.ipsize);
    s := WalkEdges(db.nodes, db.edges, cost, a, db.order, db.ipsize);
  }

  method First(order: Order, todo: set<Address>, n: nat) returns (d: Address)
    requires todo != {} && forall k :: k in todo ==> |k| == n
    ensures d in todo && AllFrom(order, todo, d)
  {
    HasLeast(order, todo, n);
    d :| d in todo && AllFrom(order, todo, d);
  }

  lemma SplitOn(all: set<Address>, todo: set<Address>, done: set<Address>, d: Address)
    requires todo + done == all && d in todo
    ensures todo - {d} + (done + {d}) == all && todo - {d} < todo
  {
  }

  method WalkEdges(ns: Nodes, es: Edges, cost: Ref -> nat, a: Address, order: Order, n: nat) returns (s: seq<Spf.Edge>)
    requires Consistent(ns, es, {}) && a in ns && forall d :: d in ns[a].edges ==> |d| == n
    ensures EdgesTo(ns, es, cost, a, ns[a].edges.Keys, s)
  {
    var todo := ns[a].edges.Keys;
    ghost var done: set<Address> := {};
    s := [];
    while todo != {}
      invariant todo + done == ns[a].edges.Keys && EdgesTo(ns, es, cost, a, done, s)
      decreases todo
    {
      var d := First(order, todo, n);
      SplitOn(ns[a].edges.Keys, todo, done, d);
      EdgeSeen(ns, es, cost, a, d);
      var e := Seen(es, cost, ns[a].edges[d]);
      EdgesOn(ns, es, cost, a, done, s, d, e);
      s, todo, done := s + [e], todo - {d}, done + {d};
    }
    assert done == ns[a].edges.Keys;
  }

  method Build(db: Database, cost: Ref -> nat) returns (g: Spf.Graph)
    requires db.Valid()
    ensures IsGraph(db.nodes, db.edges, cost, g)
  {
    var todo := db.nodes.Keys;
    g := map[];
    while todo != {}
      invariant todo <= db.nodes.Keys && g.Keys == db.nodes.Keys - todo
      invariant forall a {:trigger NodeEdges(db.nodes, db.edges, cost, g, a)} ::
        a in g ==> NodeEdges(db.nodes, db.edges, cost, g, a)
      decreases todo
    {
      var a :| a in todo;
      var s := EdgesOf(db, a, cost);
      ghost var g0 := g;
      g, todo := g[a := s], todo - {a};
      forall b {:trigger NodeEdges(db.nodes, db.edges, cost, g, b)} | b in g
        ensures NodeEdges(db.nodes, db.edges, cost, g, b)
      {
        assert b != a ==> NodeEdges(db.nodes, db.edges, cost, g0, b);
      }
    }
  }

  // There is an edge from a to d in the graph exactly when the database has one.
  lemma {:induction false} EdgeMeans(ns: Nodes, es: Edges, cost: Ref -> nat, g: Spf.Graph, a: Address, d: Address)
    requires IsGraph(ns, es, cost, g) && a in ns
    ensures (exists e :: e in g[a] && e.to == d) <==> d in ns[a].edges
  {
    assert NodeEdges(ns, es, cost, g, a);
    if e :| e in g[a] && e.to == d {
      var k :| k in ns[a].edges && SeenAs(ns, es, cost, a, k, e);
    }
    if d in ns[a].edges {
      var e :| e in g[a] && SeenAs(ns, es, cost, a, d, e);
    }
  }

  // Every edge leads to a node of the graph.
  lemma {:induction false} GraphClosed(ns: Nodes, es: Edges, cost: Ref -> nat, g: Spf.Graph)
    requires Consistent(ns, es, {}) && IsGraph(ns, es, cost, g)
    ensures Spf.Closed(g)
  {
    forall a, e | a in g && e in g[a]
      ensures e.to in g
    {
      EdgeMeans(ns, es, cost, g, a, e.to);
      BothWays(ns, es, a, e.to);
    }
  }

  // ---- walks over the database ----

  // What the step from a to d costs: the cost of their edge if it is real, that of the edge back if it is virtual. A
  // step without an edge is as good as broken.
  ghost function StepCost(ns: Nodes, es: Edges, cost: Ref -> nat, a: Address, d: Address): nat
  {
    if !Adjacent(ns, es, a, d) then LINK_COST_BROKEN
    else if !es[ns[a].edges[d]].virt then cost(ns[a].edges[d])
    else if Adjacent(ns, es, d, a) then cost(ns[d].edges[a])
    else LINK_COST_BROKEN
  }

  ghost predicate Adjacent(ns: Nodes, es: Edges, a: Address, d: Address)
  {
    a in ns && d in ns[a].edges && ns[a].edges[d] in es
  }

  // Addresses, each reached from the one before by a step that is not broken.
  ghost predicate Walk(ns: Nodes, es: Edges, cost: Ref -> nat, w: seq<Address>)
  {
    w != [] && if |w| == 1 then w[0] in ns else
      Walk(ns, es, cost, w[..|w| - 1]) && StepCost(ns, es, cost, w[|w| - 2], w[|w| - 1]) < LINK_COST_BROKEN
  }

  ghost function Toll(ns: Nodes, es: Edges, cost: Ref -> nat, w: seq<Address>): nat
  {
    if |w| <= 1 then 0 else
      Toll(ns, es, cost, w[..|w| - 1]) + StepCost(ns, es, cost, w[|w| - 2], w[|w| - 1])
  }

  ghost predicate WalkTo(ns: Nodes, es: Edges, cost: Ref -> nat, u: Address, w: seq<Address>, v: Address)
  {
    Walk(ns, es, cost, w) && w[0] == u && w[|w| - 1] == v
  }

  // The addresses a path passes.
  ghost function Along(u: Address, p: seq<Spf.Edge>): (w: seq<Address>)
    ensures |w| == |p| + 1 && w[0] == u && w[|w| - 1] == Spf.End(u, p)
    ensures p != [] ==> w[1] == p[0].to
  {
    if p == [] then [u] else Along(u, p[..|p| - 1]) + [p[|p| - 1].to]
  }

  // An edge of the graph is a step of that cost.
  lemma {:induction false} EdgeIsStep(ns: Nodes, es: Edges, cost: Ref -> nat, g: Spf.Graph, a: Address, e: Spf.Edge)
    requires Consistent(ns, es, {}) && IsGraph(ns, es, cost, g) && a in g && e in g[a]
    ensures Adjacent(ns, es, a, e.to) && StepCost(ns, es, cost, a, e.to) == Spf.Weight(e)
  {
    assert NodeEdges(ns, es, cost, g, a);
    var d :| d in ns[a].edges && SeenAs(ns, es, cost, a, d, e);
    BothWays(ns, es, a, d);
    BothWays(ns, es, d, a);
  }

  lemma {:induction false} StepIsEdge(ns: Nodes, es: Edges, cost: Ref -> nat, g: Spf.Graph, a: Address, d: Address)
    returns (e: Spf.Edge)
    requires Consistent(ns, es, {}) && IsGraph(ns, es, cost, g) && Adjacent(ns, es, a, d)
    ensures e in g[a] && e.to == d && StepCost(ns, es, cost, a, d) == Spf.Weight(e)
  {
    EdgeMeans(ns, es, cost, g, a, d);
    e :| e in g[a] && e.to == d;
    EdgeIsStep(ns, es, cost, g, a, e);
  }

  // Every path of the graph is a walk over the database with the same cost, and the reverse.
  lemma {:induction false} PathIsWalk(ns: Nodes, es: Edges, cost: Ref -> nat, g: Spf.Graph, u: Address,
                                      p: seq<Spf.Edge>)
    requires Consistent(ns, es, {}) && IsGraph(ns, es, cost, g) && Spf.IsPath(g, u, p)
    ensures Walk(ns, es, cost, Along(u, p)) && Toll(ns, es, cost, Along(u, p)) == Spf.Cost(p)
  {
    if p != [] {
      var q, e := p[..|p| - 1], p[|p| - 1];
      PathIsWalk(ns, es, cost, g, u, q);
      EdgeIsStep(ns, es, cost, g, Spf.End(u, q), e);
      assert Along(u, p)[..|p|] == Along(u, q);
    }
  }

  lemma {:induction false} WalkIsPath(ns: Nodes, es: Edges, cost: Ref -> nat, g: Spf.Graph, w: seq<Address>)
    returns (p: seq<Spf.Edge>)
    requires Consistent(ns, es, {}) && IsGraph(ns, es, cost, g) && Walk(ns, es, cost, w)
    ensures Spf.IsPath(g, w[0], p) && Along(w[0], p) == w && Spf.Cost(p) == Toll(ns, es, cost, w)
  {
    if |w| == 1 {
      p := [];
    } else {
      var v := w[..|w| - 1];
      var q := WalkIsPath(ns, es, cost, g, v);
      var e := StepIsEdge(ns, es, cost, g, w[|w| - 2], w[|w| - 1]);
      p := q + [e];
      assert p[..|q|] == q;
      PathIsWalk(ns, es, cost, g, w[0], p);
    }
  }

  // Every router a walk leads to is led to by one that leaves room for one more step in 32 bits.
  ghost predicate TollsFit(ns: Nodes, es: Edges, cost: Ref -> nat, root: Address)
  {
    forall v, w {:trigger WalkTo(ns, es, cost, root, w, v)} :: WalkTo(ns, es, cost, root, w, v) ==>
      exists x :: WalkTo(ns, es, cost, root, x, v) && Toll(ns, es, cost, x) + LINK_COST_BROKEN <= ROUTE_COST_BROKEN
  }

  lemma {:induction false} FitsBoth(ns: Nodes, es: Edges, cost: Ref -> nat, g: Spf.Graph, root: Address,
                                    links: map<Address, Spf.Link>)
    requires Consistent(ns, es, {}) && IsGraph(ns, es, cost, g)
    ensures TollsFit(ns, es, cost, root) <==> Spf.CostsFit(Spf.Network(g, root, links))
  {
    if TollsFit(ns, es, cost, root) {
      forall v | Spf.Reachable(g, root, v)
        ensures exists p :: Spf.PathTo(g, root, p, v) && Spf.LeavesRoom(Spf.Cost(p))
      {
        var p :| Spf.PathTo(g, root, p, v);
        PathIsWalk(ns, es, cost, g, root, p);
        assert WalkTo(ns, es, cost, root, Along(root, p), v);
        var x :| WalkTo(ns, es, cost, root, x, v) && Toll(ns, es, cost, x) + LINK_COST_BROKEN <= ROUTE_COST_BROKEN;
        var q := WalkIsPath(ns, es, cost, g, x);
        assert Spf.PathTo(g, root, q, v);
      }
    }
    if Spf.CostsFit(Spf.Network(g, root, links)) {
      forall v, w | WalkTo(ns, es, cost, root, w, v)
        ensures exists x ::
          WalkTo(ns, es, cost, root, x, v) && Toll(ns, es, cost, x) + LINK_COST_BROKEN <= ROUTE_COST_BROKEN
      {
        var q := WalkIsPath(ns, es, cost, g, w);
        assert Spf.PathTo(g, root, q, v) && Spf.Reachable(g, root, v);
        var p :| Spf.PathTo(g, root, p, v) && Spf.LeavesRoom(Spf.Cost(p));
        PathIsWalk(ns, es, cost, g, root, p);
        assert WalkTo(ns, es, cost, root, Along(root, p), v);
      }
    }
  }

  // Costs fit in a database of up to 256 routers.
  lemma {:induction false} SmallFits(ns: Nodes, es: Edges, cost: Ref -> nat, g: Spf.Graph, root: Address,
                                     links: map<Address, Spf.Link>)
    requires Consistent(ns, es, {}) && IsGraph(ns, es, cost, g) && root in ns && |ns| <= 256
    ensures TollsFit(ns, es, cost, root)
  {
    GraphClosed(ns, es, cost, g);
    assert |g| == |g.Keys| == |ns.Keys| == |ns|;
    Spf.SizeFits(Spf.Network(g, root, links));
    FitsBoth(ns, es, cost, g, root, links);
  }

  // The best link is known for every neighbour that a step of ours leads to.
  ghost predicate HasLinks(ns: Nodes, es: Edges, cost: Ref -> nat, root: Address, links: map<Address, Spf.Link>)
  {
    root !in links && forall d {:trigger StepCost(ns, es, cost, root, d)} ::
      d != root && StepCost(ns, es, cost, root, d) < LINK_COST_BROKEN ==> d in links
  }

  lemma {:induction false} GraphLinked(ns: Nodes, es: Edges, cost: Ref -> nat, g: Spf.Graph, root: Address,
                                       links: map<Address, Spf.Link>)
    requires Consistent(ns, es, {}) && IsGraph(ns, es, cost, g) && root in ns && HasLinks(ns, es, cost, root, links)
    ensures Spf.Linked(Spf.Network(g, root, links))
  {
    forall e | e in g[root] && Spf.Usable(e) && e.to != root
      ensures e.to in links
    {
      EdgeIsStep(ns, es, cost, g, root, e);
    }
  }
}
