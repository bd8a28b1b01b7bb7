/** Shortest-path-first over the link-state database: the candidate tree, edge relaxation and the main loop
    (src/olsr_spf.c). Vertices are router addresses; the candidate tree is the sorted list its AVL index threads. */
module Spf {
  import opened Basics

  const COST_MODULUS: nat := 0x1_0000_0000
  const HOP_MODULUS: nat := 0x100

  type Vertex = Address
  type Link = nat

  // An edge of a vertex together with the cost stored at its inverse edge.
  datatype Edge = Edge(to: Vertex, isVirtual: bool, cost: nat, inverseCost: nat)

  type Graph = map<Vertex, seq<Edge>>

  // The database's graph, our own vertex in it, and the best link to each symmetric neighbour.
  datatype Network = Network(g: Graph, root: Vertex, links: map<Vertex, Link>)

  // 32-bit path costs and 8-bit hop counts wrap.
  function Wrap32(x: nat): nat { if x < COST_MODULUS then x else x % COST_MODULUS }

  function Wrap8(x: nat): nat { if x < HOP_MODULUS then x else x % HOP_MODULUS }

  lemma WrapStep(x: nat)
    ensures Wrap8(Wrap8(x) + 1) == Wrap8(x + 1)
  {
  }

  function Weight(e: Edge): nat { if e.isVirtual then e.inverseCost else e.cost }

  predicate Usable(e: Edge) { Weight(e) < LINK_COST_BROKEN }

  ghost predicate Closed(g: Graph)
  {
    forall u, e :: u in g && e in g[u] ==> e.to in g
  }

  // ---- the reference notion: paths and their costs ----

  ghost function End(u: Vertex, p: seq<Edge>): Vertex { if p == [] then u else p[|p| - 1].to }

  ghost predicate IsPath(g: Graph, u: Vertex, p: seq<Edge>)
  {
    if p == [] then u in g else
      var q, e := p[..|p| - 1], p[|p| - 1];
      IsPath(g, u, q) && End(u, q) in g && e in g[End(u, q)] && Usable(e)
  }

  ghost function Cost(p: seq<Edge>): nat
  {
    if p == [] then 0 else Cost(p[..|p| - 1]) + Weight(p[|p| - 1])
  }

  ghost predicate PathTo(g: Graph, u: Vertex, p: seq<Edge>, v: Vertex)
  {
    IsPath(g, u, p) && End(u, p) == v
  }

  ghost predicate Reachable(g: Graph, u: Vertex, v: Vertex)
  {
    exists p :: PathTo(g, u, p, v)
  }

  ghost predicate Shortest(g: Graph, u: Vertex, p: seq<Edge>, v: Vertex)
  {
    PathTo(g, u, p, v) && forall q :: PathTo(g, u, q, v) ==> Cost(p) <= Cost(q)
  }

  // Every reachable vertex has some path that leaves room for one more edge in 32 bits.
  ghost predicate CostsFit(net: Network)
  {
    forall v :: Reachable(net.g, net.root, v) ==> exists p :: PathTo(net.g, net.root, p, v) && LeavesRoom(Cost(p))
  }

  predicate LeavesRoom(cost: nat) { cost + LINK_COST_BROKEN <= ROUTE_COST_BROKEN }

  lemma {:induction false} PathCostBound(g: Graph, u: Vertex, p: seq<Edge>)
    requires IsPath(g, u, p)
    ensures Cost(p) <= |p| * (LINK_COST_BROKEN - 1)
    decreases |p|
  {
    if p != [] {
      PathCostBound(g, u, p[..|p| - 1]);
    }
  }

  // Costs fit whenever every reachable vertex is within 255 hops.
  lemma {:induction false} DiameterFits(net: Network)
    requires forall v :: Reachable(net.g, net.root, v) ==> exists p :: PathTo(net.g, net.root, p, v) && |p| <= 255
    ensures CostsFit(net)
  {
    forall v | Reachable(net.g, net.root, v)
      ensures exists p :: PathTo(net.g, net.root, p, v) && LeavesRoom(Cost(p))
    {
      var p :| PathTo(net.g, net.root, p, v) && |p| <= 255;
      PathCostBound(net.g, net.root, p);
    }
  }

  // The vertices that some path of at most k edges leads to.
  ghost function Near(g: Graph, u: Vertex, k: nat): set<Vertex>
  {
    set v | v in g && Within(g, u, v, k)
  }

  ghost predicate Within(g: Graph, u: Vertex, v: Vertex, k: nat)
  {
    exists p :: PathTo(g, u, p, v) && |p| <= k
  }

  lemma {:induction false} OneMore(g: Graph, u: Vertex, k: nat, p: seq<Edge>)
    requires Closed(g) && IsPath(g, u, p) && p != [] && Within(g, u, End(u, p[..|p| - 1]), k)
    ensures Within(g, u, End(u, p), k + 1) && End(u, p) in g
  {
    var e, w := p[|p| - 1], End(u, p[..|p| - 1]);
    var q :| PathTo(g, u, q, w) && |q| <= k;
    assert (q + [e])[..|q|] == q;
    assert PathTo(g, u, q + [e], e.to);
  }

  // Once another edge leads nowhere new, everything reachable is near.
  lemma {:induction false} AllNear(g: Graph, u: Vertex, k: nat, p: seq<Edge>)
    requires Closed(g) && Near(g, u, k) == Near(g, u, k + 1) && IsPath(g, u, p)
    ensures End(u, p) in Near(g, u, k)
  {
    if p == [] {
      assert PathTo(g, u, p, u) && Within(g, u, u, k);
    } else {
      AllNear(g, u, k, p[..|p| - 1]);
      OneMore(g, u, k, p);
      assert End(u, p) in Near(g, u, k + 1);
    }
  }

  lemma {:induction false} Smaller(a: set<Vertex>, b: set<Vertex>)
    requires a < b
    ensures |a| < |b|
  {
    var v :| v in b && v !in a;
    NotLarger(a, b - {v});
  }

  lemma {:induction false} NotLarger(a: set<Vertex>, b: set<Vertex>)
    requires a <= b
    ensures |a| <= |b|
  {
    if a != {} {
      var v :| v in a;
      NotLarger(a - {v}, b - {v});
    }
  }

  lemma {:induction false} NearGrows(g: Graph, u: Vertex, k: nat)
    ensures Near(g, u, k) <= Near(g, u, k + 1)
  {
    forall v | v in Near(g, u, k)
      ensures v in Near(g, u, k + 1)
    {
      var p :| PathTo(g, u, p, v) && |p| <= k;
      assert Within(g, u, v, k + 1);
    }
  }

  // With every edge more either a vertex is added or all are there.
  lemma {:induction false} NearCount(g: Graph, u: Vertex, k: nat, p: seq<Edge>)
    requires Closed(g) && u in g && IsPath(g, u, p)
    ensures |Near(g, u, k)| > k || End(u, p) in Near(g, u, k)
  {
    if k == 0 {
      assert PathTo(g, u, [], u) && Within(g, u, u, 0);
      assert u in Near(g, u, 0);
    } else {
      NearCount(g, u, k - 1, p);
      NearGrows(g, u, k - 1);
      var near, more := Near(g, u, k - 1), Near(g, u, k);
      if near == more {
        AllNear(g, u, k - 1, p);
      } else {
        Smaller(near, more);
      }
    }
  }

  // A path has no need of more edges than there are other vertices.
  lemma {:induction false} ShortPath(g: Graph, u: Vertex, v: Vertex)
    requires Closed(g) && u in g && Reachable(g, u, v)
    ensures exists p :: PathTo(g, u, p, v) && |p| < |g|
  {
    var p :| PathTo(g, u, p, v);
    var k := |g| - 1;
    NotLarger({u}, g.Keys);
    NearCount(g, u, k, p);
    if v !in Near(g, u, k) {
      InGraph(g, u, p);
      Smaller(Near(g, u, k), g.Keys);
    }
  }

  lemma {:induction false} InGraph(g: Graph, u: Vertex, p: seq<Edge>)
    requires Closed(g) && IsPath(g, u, p)
    ensures End(u, p) in g
  {
    if p != [] {
      assert End(u, p[..|p| - 1]) in g;
    }
  }

  // Costs fit in any network of up to 256 routers.
  lemma {:induction false} SizeFits(net: Network)
    requires Closed(net.g) && net.root in net.g && |net.g| <= 256
    ensures CostsFit(net)
  {
    forall v | Reachable(net.g, net.root, v)
      ensures exists p :: PathTo(net.g, net.root, p, v) && |p| <= 255
    {
      ShortPath(net.g, net.root, v);
    }
    DiameterFits(net);
  }

  // Usable edges out of the root lead to neighbours with a best link.
  ghost predicate Linked(net: Network)
    requires net.root in net.g
  {
    net.root !in net.links && forall e :: e in net.g[net.root] && Usable(e) && e.to != net.root ==> e.to in net.links
  }

  function Preset(links: map<Vertex, Link>, v: Vertex): Option<Link> { if v in links then Some(links[v]) else None }

  // ---- the candidate tree as a cost-sorted list; equal costs keep insertion order ----

  // Ascending by cost, without repetition.
  ghost predicate Sorted(cost: map<Vertex, nat>, s: seq<Vertex>)
  {
    s == [] || (s[0] in cost && Ahead(cost, s[0], s[1..]) && Sorted(cost, s[1..]))
  }

  ghost predicate Ahead(cost: map<Vertex, nat>, v: Vertex, s: seq<Vertex>)
    requires v in cost
  {
    forall x :: x in s ==> x in cost && x != v && cost[v] <= cost[x]
  }

  lemma {:induction false} SortedMeans(cost: map<Vertex, nat>, s: seq<Vertex>)
    requires Sorted(cost, s)
    ensures forall x :: x in s ==> x in cost && cost[s[0]] <= cost[x]
    ensures forall i, j :: 0 <= i < j < |s| ==> s[i] in cost && s[j] in cost && s[i] != s[j] && cost[s[i]] <= cost[s[j]]
  {
    if s != [] {
      SortedMeans(cost, s[1..]);
      assert forall x :: x in s <==> x == s[0] || x in s[1..];
      forall i, j | 0 <= i < j < |s|
        ensures s[i] in cost && s[j] in cost && s[i] != s[j] && cost[s[i]] <= cost[s[j]]
      {
        assert s[j] == s[1..][j - 1] && (i > 0 ==> s[i] == s[1..][i - 1]);
      }
    }
  }

  lemma {:induction false} SortedElsewhere(cost: map<Vertex, nat>, cost': map<Vertex, nat>, s: seq<Vertex>)
    requires Sorted(cost, s) && forall x :: x in s && x in cost ==> x in cost' && cost'[x] == cost[x]
    ensures Sorted(cost', s)
  {
    if s != [] {
      assert s[0] in s && forall x :: x in s[1..] ==> x in s;
      SortedElsewhere(cost, cost', s[1..]);
    }
  }

  function Without(s: seq<Vertex>, v: Vertex): (r: seq<Vertex>)
    ensures forall x :: x in r <==> x in s && x != v
    ensures v !in s ==> r == s
    ensures s != [] && s[0] != v ==> r != [] && r[0] == s[0]
  {
    if s == [] then [] else if s[0] == v then Without(s[1..], v) else [s[0]] + Without(s[1..], v)
  }

  function Add(s: seq<Vertex>, cost: map<Vertex, nat>, v: Vertex): (r: seq<Vertex>)
    requires v in cost && forall x :: x in s ==> x in cost
    ensures forall x :: x in r <==> x in s || x == v
    ensures r != [] && (s != [] && cost[s[0]] <= cost[v] ==> r[0] == s[0])
  {
    if s == [] || cost[v] < cost[s[0]] then [v] + s else [s[0]] + Add(s[1..], cost, v)
  }

  lemma {:induction false} WithoutSorted(s: seq<Vertex>, cost: map<Vertex, nat>, v: Vertex)
    requires Sorted(cost, s)
    ensures Sorted(cost, Without(s, v))
  {
    if s != [] {
      WithoutSorted(s[1..], cost, v);
    }
  }

  lemma {:induction false} AddSorted(s: seq<Vertex>, cost: map<Vertex, nat>, v: Vertex)
    requires Sorted(cost, s) && v in cost && v !in s
    requires forall x :: x in s ==> x in cost
    ensures Sorted(cost, Add(s, cost, v))
  {
    if s != [] {
      assert forall x :: x in s <==> x == s[0] || x in s[1..];
      if cost[v] >= cost[s[0]] {
        AddSorted(s[1..], cost, v);
        assert ([s[0]] + Add(s[1..], cost, v))[1..] == Add(s[1..], cost, v);
      } else {
        assert ([v] + s)[1..] == s;
      }
    }
  }

  lemma {:induction false} AppendSorted(s: seq<Vertex>, cost: map<Vertex, nat>, v: Vertex)
    requires Sorted(cost, s) && v in cost && forall x :: x in s ==> x in cost && x != v && cost[x] <= cost[v]
    ensures Sorted(cost, s + [v])
  {
    if s != [] {
      assert s[0] in s && forall x :: x in s[1..] ==> x in s;
      AppendSorted(s[1..], cost, v);
      assert (s + [v])[1..] == s[1..] + [v];
    } else {
      assert s + [v] == [v] && Sorted(cost, []);
    }
  }

  // ---- what holds of the labels between any two steps ----

  datatype Labels = Labels(cost: map<Vertex, nat>, hops: map<Vertex, nat>, next: map<Vertex, Option<Link>>,
                           cand: seq<Vertex>, done: seq<Vertex>)

  ghost predicate Domains(g: Graph, l: Labels)
  {
    && Closed(g) && l.cost.Keys == g.Keys && l.hops.Keys == g.Keys && l.next.Keys == g.Keys
    && (forall v :: v in l.cand || v in l.done ==> v in g)
  }

  ghost predicate WellFormed(g: Graph, l: Labels)
  {
    && Domains(g, l) && Sorted(l.cost, l.cand) && Sorted(l.cost, l.done)
    && (forall v {:trigger CostOk(l, v)} :: v in g ==> CostOk(l, v))
    && (forall u, v {:trigger Apart(l, u, v)} :: u in l.done && v in l.cand ==> Apart(l, u, v))
  }

  // A settled vertex and a candidate.
  ghost predicate Apart(l: Labels, u: Vertex, v: Vertex)
    requires u in l.cost && v in l.cost
  {
    u != v && l.cost[u] <= l.cost[v]
  }

  ghost predicate CostOk(l: Labels, v: Vertex)
    requires v in l.cost
  {
    l.cost[v] <= ROUTE_COST_BROKEN && (l.cost[v] < ROUTE_COST_BROKEN <==> v in l.cand || v in l.done)
  }

  // p is a path from the root to v that explains v's cost, hop count and next hop.
  ghost predicate Explains(net: Network, l: Labels, v: Vertex, p: seq<Edge>)
    requires v in l.cost && v in l.hops && v in l.next && net.root in net.g
  {
    && PathTo(net.g, net.root, p, v) && Cost(p) == l.cost[v] && l.hops[v] == Wrap8(|p|)
    && (v == net.root <==> p == [])
    && (Linked(net) ==> FirstHop(net, l.next[v], v, p))
  }

  ghost predicate FirstHop(net: Network, next: Option<Link>, v: Vertex, p: seq<Edge>)
    requires v == net.root <==> p == []
  {
    if v == net.root then next == None else p[0].to in net.links && next == Some(net.links[p[0].to])
  }

  ghost predicate Explained(net: Network, l: Labels, t: map<Vertex, seq<Edge>>, v: Vertex)
    requires v in l.cost && v in l.hops && v in l.next && net.root in net.g
  {
    v in t && Explains(net, l, v, t[v])
  }

  ghost predicate Tree(net: Network, l: Labels, t: map<Vertex, seq<Edge>>)
    requires Domains(net.g, l) && net.root in net.g
  {
    && l.cost[net.root] == 0
    && (forall v {:trigger Explained(net, l, t, v)} :: v in l.cand || v in l.done ==> Explained(net, l, t, v))
    && (l.done == [] && Linked(net) ==> forall v :: v in net.g ==> l.next[v] == Preset(net.links, v))
  }

  ghost predicate Relaxed(l: Labels, u: Vertex, e: Edge)
    requires u in l.cost && e.to in l.cost
  {
    Usable(e) ==> l.cost[e.to] <= l.cost[u] + Weight(e)
  }

  ghost predicate AllRelaxed(g: Graph, l: Labels, u: Vertex, closed: set<Edge>)
    requires Domains(g, l)
  {
    u in g && forall e :: e in closed ==> e in g[u] && Relaxed(l, u, e)
  }

  ghost predicate Settled(g: Graph, l: Labels)
    requires Domains(g, l)
  {
    && (forall u, e :: u in l.done && e in g[u] ==> Relaxed(l, u, e))
    && (forall u :: u in l.done ==> LeavesRoom(l.cost[u]))
  }

  ghost predicate RootFirst(net: Network, l: Labels)
  {
    if l.done == [] then l.cand != [] && l.cand[0] == net.root else l.done[0] == net.root
  }

  ghost predicate Invariant(net: Network, l: Labels, t: map<Vertex, seq<Edge>>)
  {
    net.root in net.g && WellFormed(net.g, l) && Tree(net, l, t) && Settled(net.g, l) && RootFirst(net, l)
  }

  lemma {:induction false} BestFirst(g: Graph, l: Labels, v: Vertex)
    requires WellFormed(g, l) && v in l.cand
    ensures l.cost[l.cand[0]] <= l.cost[v]
  {
    SortedMeans(l.cost, l.cand);
  }

  // Settled vertices are at their true distance; nothing unsettled is nearer than the best candidate.
  lemma {:induction false} Cut(net: Network, l: Labels, t: map<Vertex, seq<Edge>>, p: seq<Edge>)
    requires Invariant(net, l, t) && IsPath(net.g, net.root, p)
    ensures End(net.root, p) in net.g
    ensures End(net.root, p) in l.done ==> l.cost[End(net.root, p)] <= Cost(p)
    ensures End(net.root, p) !in l.done ==> l.cand != [] && l.cost[l.cand[0]] <= Cost(p)
    decreases |p|
  {
    var w := End(net.root, p);
    assert CostOk(l, net.root);
    if p == [] {
      if net.root !in l.done {
        BestFirst(net.g, l, net.root);
      }
    } else {
      var q, e := p[..|p| - 1], p[|p| - 1];
      var x := End(net.root, q);
      Cut(net, l, t, q);
      if x in l.done {
        assert Relaxed(l, x, e);
        assert CostOk(l, w);
        if w !in l.done {
          BestFirst(net.g, l, w);
        }
      } else if w in l.done {
        assert l.cand[0] in l.cand && Apart(l, w, l.cand[0]);
      }
    }
  }

  // ---- one edge ----

  function NewCost(l: Labels, u: Vertex, e: Edge): nat
    requires u in l.cost
  {
    Wrap32(Weight(e) + l.cost[u])
  }

  predicate Improves(l: Labels, u: Vertex, e: Edge)
    requires u in l.cost && e.to in l.cost
  {
    Usable(e) && NewCost(l, u, e) < l.cost[e.to]
  }

  function PulledUp(l: Labels, u: Vertex, v: Vertex): Option<Link>
    requires u in l.next && v in l.next
  {
    if l.next[u] != None then l.next[u] else l.next[v]
  }

  // v re-enters the candidates with a better label.
  function Relabel(l: Labels, v: Vertex, cost: nat, hops: nat, next: Option<Link>): Labels
    requires forall x :: x in l.cand ==> x in l.cost
  {
    var cost' := l.cost[v := cost];
    Labels(cost', l.hops[v := hops], l.next[v := next], Add(Without(l.cand, v), cost', v), Without(l.done, v))
  }

  // The labels after exploring edge e of vertex u.
  function Explore(l: Labels, u: Vertex, e: Edge): Labels
    requires u in l.cost && u in l.hops && u in l.next && e.to in l.cost && e.to in l.next
    requires forall x :: x in l.cand ==> x in l.cost
  {
    if !Improves(l, u, e) then l else
      Relabel(l, e.to, NewCost(l, u, e), Wrap8(l.hops[u] + 1), PulledUp(l, u, e.to))
  }

  // u is the best candidate and leaves room for one more edge.
  ghost predicate Exploring(net: Network, l: Labels, t: map<Vertex, seq<Edge>>, u: Vertex)
  {
    && Invariant(net, l, t) && l.cand != [] && l.cand[0] == u
    && LeavesRoom(l.cost[u]) && (u == net.root <==> l.done == [])
  }

  lemma {:induction false} NoWrap(l: Labels, u: Vertex, e: Edge)
    requires u in l.cost && u in l.hops && u in l.next && e.to in l.cost && e.to in l.next
    requires (forall x :: x in l.cand ==> x in l.cost) && LeavesRoom(l.cost[u]) && Improves(l, u, e)
    ensures NewCost(l, u, e) == l.cost[u] + Weight(e) < ROUTE_COST_BROKEN
    ensures Explore(l, u, e) == Relabel(l, e.to, l.cost[u] + Weight(e), Wrap8(l.hops[u] + 1), PulledUp(l, u, e.to))
  {
    assert NewCost(l, u, e) == l.cost[u] + Weight(e);
  }

  // An improved vertex was never settled, so the path list loses nothing.
  lemma {:induction false} ImprovesFresh(net: Network, l: Labels, t: map<Vertex, seq<Edge>>, u: Vertex, e: Edge)
    requires Exploring(net, l, t, u) && e in net.g[u] && Improves(l, u, e)
    ensures NewCost(l, u, e) == l.cost[u] + Weight(e) < ROUTE_COST_BROKEN
    ensures Explore(l, u, e) == Relabel(l, e.to, l.cost[u] + Weight(e), Wrap8(l.hops[u] + 1), PulledUp(l, u, e.to))
    ensures e.to !in l.done && e.to != u && e.to != net.root && Without(l.done, e.to) == l.done
  {
    assert u in l.cand;
    NoWrap(l, u, e);
    assert e.to in l.done ==> Apart(l, e.to, u);
  }

  lemma {:induction false} RelabelSorted(g: Graph, l: Labels, v: Vertex, cost: nat)
    requires WellFormed(g, l) && v in g && v !in l.done
    ensures Sorted(l.cost[v := cost], Add(Without(l.cand, v), l.cost[v := cost], v))
      && Sorted(l.cost[v := cost], l.done)
  {
    var c, cost' := Without(l.cand, v), l.cost[v := cost];
    WithoutSorted(l.cand, l.cost, v);
    SortedElsewhere(l.cost, cost', c);
    SortedElsewhere(l.cost, cost', l.done);
    AddSorted(c, cost', v);
  }

  lemma {:induction false} RelabelCosts(g: Graph, l: Labels, v: Vertex, cost: nat, hops: nat, next: Option<Link>)
    requires WellFormed(g, l) && v in g && cost < ROUTE_COST_BROKEN
    ensures var l' := Relabel(l, v, cost, hops, next);
      l'.cost.Keys == g.Keys && forall x {:trigger CostOk(l', x)} :: x in g ==> CostOk(l', x)
  {
    var l' := Relabel(l, v, cost, hops, next);
    forall x | x in g
      ensures CostOk(l', x)
    {
      assert CostOk(l, x);
    }
  }

  lemma {:induction false} RelabelApart(g: Graph, l: Labels, v: Vertex, cost: nat, hops: nat, next: Option<Link>)
    requires WellFormed(g, l) && v in g && v !in l.done && l.cand != [] && l.cost[l.cand[0]] <= cost
    ensures var l' := Relabel(l, v, cost, hops, next);
      && (forall x :: x in l'.cand || x in l'.done ==> x in l'.cost)
      && forall x, y {:trigger Apart(l', x, y)} :: x in l'.done && y in l'.cand ==> Apart(l', x, y)
  {
    var l' := Relabel(l, v, cost, hops, next);
    forall x, y | x in l'.done && y in l'.cand
      ensures Apart(l', x, y)
    {
      assert l.cand[0] in l.cand && Apart(l, x, l.cand[0]) && (y == v || Apart(l, x, y));
    }
  }

  lemma {:induction false} RelabelWellFormed(g: Graph, l: Labels, v: Vertex, cost: nat, hops: nat, next: Option<Link>)
    requires WellFormed(g, l) && v in g && v !in l.done && l.cand != [] && l.cand[0] != v
    requires l.cost[l.cand[0]] <= cost < ROUTE_COST_BROKEN
    ensures WellFormed(g, Relabel(l, v, cost, hops, next))
    ensures Relabel(l, v, cost, hops, next).cand[0] == l.cand[0] && Relabel(l, v, cost, hops, next).done == l.done
  {
    var l' := Relabel(l, v, cost, hops, next);
    RelabelSorted(g, l, v, cost);
    RelabelCosts(g, l, v, cost, hops, next);
    RelabelApart(g, l, v, cost, hops, next);
  }

  lemma {:induction false} ExtendPath(net: Network, p: seq<Edge>, u: Vertex, e: Edge)
    requires PathTo(net.g, net.root, p, u) && u in net.g && e in net.g[u] && Usable(e)
    ensures PathTo(net.g, net.root, p + [e], e.to) && Cost(p + [e]) == Cost(p) + Weight(e)
  {
    assert (p + [e])[..|p|] == p;
  }

  // The path to u, extended by e, explains a label pulled up from u.
  lemma {:induction false} ExtendExplains(net: Network, l: Labels, l': Labels, u: Vertex, e: Edge, p: seq<Edge>)
    requires net.root in net.g && Domains(net.g, l) && Domains(net.g, l') && u in net.g && Explains(net, l, u, p)
    requires e in net.g[u] && Usable(e) && e.to != net.root
    requires l'.cost[e.to] == l.cost[u] + Weight(e) && l'.hops[e.to] == Wrap8(l.hops[u] + 1)
    requires l'.next[e.to] == PulledUp(l, u, e.to)
    requires Linked(net) && u == net.root ==> l.next[e.to] == Preset(net.links, e.to)
    ensures Explains(net, l', e.to, p + [e])
  {
    ExtendPath(net, p, u, e);
    WrapStep(|p|);
    assert (p + [e])[0] == if p == [] then e else p[0];
  }

  lemma {:induction false} RelabelTree(net: Network, l: Labels, t: map<Vertex, seq<Edge>>, u: Vertex, e: Edge,
                                       l': Labels)
    requires net.root in net.g && Domains(net.g, l) && Domains(net.g, l') && Tree(net, l, t) && l'.done == l.done
    requires u in l.cand && e in net.g[u] && Usable(e) && e.to != net.root && (u == net.root <==> l.done == [])
    requires l' == Relabel(l, e.to, l.cost[u] + Weight(e), Wrap8(l.hops[u] + 1), PulledUp(l, u, e.to))
    ensures u in t && Tree(net, l', t[e.to := t[u] + [e]])
  {
    assert Explained(net, l, t, u);
    var t' := t[e.to := t[u] + [e]];
    ExtendExplains(net, l, l', u, e, t[u]);
    forall x | x in l'.cand || x in l'.done
      ensures Explained(net, l', t', x)
    {
      assert x == e.to || Explained(net, l, t, x);
    }
  }

  lemma {:induction false} ImproveShape(net: Network, l: Labels, t: map<Vertex, seq<Edge>>, u: Vertex, e: Edge,
                                        l': Labels)
    requires Exploring(net, l, t, u) && e in net.g[u] && Improves(l, u, e) && l' == Explore(l, u, e)
    ensures WellFormed(net.g, l') && Settled(net.g, l') && l'.cand != [] && l'.cand[0] == u && l'.done == l.done
    ensures l'.cost[u] == l.cost[u] && Relaxed(l', u, e)
    ensures forall f :: f in net.g[u] && Relaxed(l, u, f) ==> Relaxed(l', u, f)
  {
    ImprovesFresh(net, l, t, u, e);
    RelabelWellFormed(net.g, l, e.to, l'.cost[e.to], l'.hops[e.to], l'.next[e.to]);
    ExploreSettled(net.g, l, l', u, e);
  }

  lemma {:induction false} ImproveKeeps(net: Network, l: Labels, t: map<Vertex, seq<Edge>>, u: Vertex, e: Edge,
                                        l': Labels)
      returns (t': map<Vertex, seq<Edge>>)
    requires Exploring(net, l, t, u) && e in net.g[u] && Improves(l, u, e) && l' == Explore(l, u, e)
    ensures Exploring(net, l', t', u) && Relaxed(l', u, e)
    ensures forall f :: f in net.g[u] && Relaxed(l, u, f) ==> Relaxed(l', u, f)
  {
    assert u in l.cand;
    ImproveShape(net, l, t, u, e, l');
    ImprovesFresh(net, l, t, u, e);
    RelabelTree(net, l, t, u, e, l');
    t' := t[e.to := t[u] + [e]];
  }

  // Exploring an edge of the best candidate keeps the invariant and relaxes the edge for good.
  lemma {:induction false} ExploreKeeps(net: Network, l: Labels, t: map<Vertex, seq<Edge>>, u: Vertex, e: Edge,
                                        closed: set<Edge>)
      returns (t': map<Vertex, seq<Edge>>)
    requires Exploring(net, l, t, u) && e in net.g[u] && AllRelaxed(net.g, l, u, closed)
    ensures Exploring(net, Explore(l, u, e), t', u)
    ensures AllRelaxed(net.g, Explore(l, u, e), u, closed + {e})
  {
    t' := t;
    assert u in l.cand;
    if Improves(l, u, e) {
      t' := ImproveKeeps(net, l, t, u, e, Explore(l, u, e));
    }
  }

  lemma {:induction false} ExploreSettled(g: Graph, l: Labels, l': Labels, u: Vertex, e: Edge)
    requires Domains(g, l) && Domains(g, l') && Settled(g, l) && l'.done == l.done && e.to in g && u in g
    requires l'.cost[e.to] <= l.cost[e.to] && e.to !in l.done && e.to != u && l'.cost == l.cost[e.to := l'.cost[e.to]]
    ensures Settled(g, l')
    ensures forall f :: f in g[u] && Relaxed(l, u, f) ==> Relaxed(l', u, f)
  {
    forall x, f | x in g && f in g[x] && x != e.to && Relaxed(l, x, f)
      ensures Relaxed(l', x, f)
    {
    }
  }

  lemma {:induction false} DoneKept(net: Network, l: Labels, t: map<Vertex, seq<Edge>>, u: Vertex, e: Edge)
    requires Exploring(net, l, t, u) && e in net.g[u]
    ensures Explore(l, u, e).done == l.done
  {
    assert u in l.cand;
    if Improves(l, u, e) {
      ImprovesFresh(net, l, t, u, e);
    }
  }

  // ---- moving the best candidate to the path list ----

  function Settle(l: Labels, u: Vertex): Labels
  {
    l.(cand := Without(l.cand, u), done := l.done + [u])
  }

  lemma {:induction false} SettleWellFormed(g: Graph, l: Labels, u: Vertex)
    requires WellFormed(g, l) && l.cand != [] && l.cand[0] == u
    ensures WellFormed(g, Settle(l, u))
  {
    var l' := Settle(l, u);
    assert u in l.cand;
    WithoutSorted(l.cand, l.cost, u);
    forall x | x in l.done
      ensures x != u && l.cost[x] <= l.cost[u]
    {
      assert Apart(l, x, u);
    }
    AppendSorted(l.done, l.cost, u);
    SortedMeans(l.cost, l.cand);
    forall x, y | x in l'.done && y in l'.cand
      ensures Apart(l', x, y)
    {
      assert x == u || Apart(l, x, y);
    }
    forall x | x in g
      ensures CostOk(l', x)
    {
      assert CostOk(l, x);
    }
  }

  lemma {:induction false} SettleKeeps(net: Network, l: Labels, t: map<Vertex, seq<Edge>>, u: Vertex)
    requires Exploring(net, l, t, u) && AllRelaxed(net.g, l, u, set e | e in net.g[u])
    ensures Invariant(net, Settle(l, u), t)
  {
    var l' := Settle(l, u);
    SettleWellFormed(net.g, l, u);
    assert u in l.cand;
    forall v | v in l'.cand || v in l'.done
      ensures Explained(net, l', t, v)
    {
      assert Explained(net, l, t, v);
    }
    forall x, e | x in l'.done && e in net.g[x]
      ensures Relaxed(l', x, e)
    {
      assert Relaxed(l, x, e);
    }
  }

  // The best candidate is at its true distance, so it leaves room for one more edge.
  lemma {:induction false} BestReady(net: Network, l: Labels, t: map<Vertex, seq<Edge>>)
    requires Invariant(net, l, t) && l.cand != [] && CostsFit(net)
    ensures Exploring(net, l, t, l.cand[0]) && l.cand[0] in net.g && l.cand[0] !in l.done
  {
    var u := l.cand[0];
    assert u in l.cand && Explained(net, l, t, u);
    assert Reachable(net.g, net.root, u);
    var p :| PathTo(net.g, net.root, p, u) && LeavesRoom(Cost(p));
    assert u !in l.done by {
      assert u in l.done ==> Apart(l, u, u);
    }
    assert net.root in l.done ==> Apart(l, net.root, u);
    Cut(net, l, t, p);
  }

  // ---- the result ----

  // What the labels mean once no candidate is left.
  ghost predicate Solved(net: Network, l: Labels, v: Vertex)
    requires net.root in net.g && Domains(net.g, l) && v in net.g
  {
    if v in l.done
    then exists p :: Shortest(net.g, net.root, p, v) && Explains(net, l, v, p)
    else !Reachable(net.g, net.root, v) && l.cost[v] == ROUTE_COST_BROKEN
  }

  lemma {:induction false} Finished(net: Network, l: Labels, t: map<Vertex, seq<Edge>>, v: Vertex)
    requires Invariant(net, l, t) && l.cand == [] && v in net.g
    ensures Solved(net, l, v)
  {
    forall p | PathTo(net.g, net.root, p, v)
      ensures v in l.done && l.cost[v] <= Cost(p)
    {
      Cut(net, l, t, p);
    }
    assert CostOk(l, v);
    if v in l.done {
      assert Explained(net, l, t, v);
      assert Shortest(net.g, net.root, t[v], v);
    }
  }

  /** One SPF computation. The fields are the SPF fields of every vertex, the candidate tree and the path list. */
  class Computation {
    const net: Network
    var cost: map<Vertex, nat>
    var hops: map<Vertex, nat>
    var next: map<Vertex, Option<Link>>
    var cand: seq<Vertex>
    var done: seq<Vertex>
    ghost var paths: map<Vertex, seq<Edge>>

    function State(): Labels
      reads this
    {
      Labels(cost, hops, next, cand, done)
    }

    ghost predicate Valid()
      reads this
    {
      Invariant(net, State(), paths)
    }

    constructor (net: Network)
      requires net.root in net.g && Closed(net.g)
      ensures this.net == net && Valid() && cand == [net.root] && done == []
    {
      this.net := net;
      cost := (map v | v in net.g :: ROUTE_COST_BROKEN)[net.root := 0];
      hops := map v | v in net.g :: 0;
      next := map v | v in net.g :: Preset(net.links, v);
      cand, done := [net.root], [];
      paths := map[net.root := []];
      new;
      assert Explained(net, State(), paths, net.root) && CostOk(State(), net.root);
    }

    // The body of olsr_spf_relax's loop for one edge.
    method ExploreEdge(u: Vertex, e: Edge)
      requires u in cost && u in hops && u in next && e.to in cost && e.to in next
      requires (forall x :: x in cand ==> x in cost) && (e.to in cand ==> cost[e.to] < ROUTE_COST_BROKEN)
      modifies this`cost, this`hops, this`next, this`cand, this`done
      ensures State() == Explore(old(State()), u, e)
    {
      ghost var l := State();
      var newCost := if e.isVirtual then e.inverseCost else e.cost;
      if newCost >= LINK_COST_BROKEN {
        assert !Improves(l, u, e);
        return;
      }
      newCost := Wrap32(newCost + cost[u]);
      assert newCost == NewCost(l, u, e);
      if newCost < cost[e.to] {
        assert Improves(l, u, e);
        Improve(u, e.to, newCost);
        assert Explore(l, u, e) == Relabel(l, e.to, newCost, Wrap8(l.hops[u] + 1), PulledUp(l, u, e.to));
      }
    }

    // A better path to a vertex.
    method Improve(u: Vertex, v: Vertex, newCost: nat)
      requires u in hops && u in next && v in cost && v in next
      requires (forall x :: x in cand ==> x in cost) && (v in cand ==> cost[v] < ROUTE_COST_BROKEN)
      modifies this`cost, this`hops, this`next, this`cand, this`done
      ensures State() == Relabel(old(State()), v, newCost, Wrap8(old(hops)[u] + 1), PulledUp(old(State()), u, v))
    {
      PullUp(u, v);
      Reinsert(v, newCost);
    }

    // The next hop of a vertex and one hop more go to the vertex behind it.
    method PullUp(u: Vertex, v: Vertex)
      requires u in hops && u in next && v in next
      modifies this`hops, this`next
      ensures hops == old(hops)[v := Wrap8(old(hops)[u] + 1)] && next == old(next)[v := PulledUp(old(State()), u, v)]
    {
      if next[u] != None {
        next := next[v := next[u]];
      }
      hops := hops[v := Wrap8(hops[u] + 1)];
    }

    // A vertex with a better cost leaves the lists it is on and enters the candidate tree.
    method Reinsert(v: Vertex, newCost: nat)
      requires v in cost && (forall x :: x in cand ==> x in cost) && (v in cand ==> cost[v] < ROUTE_COST_BROKEN)
      modifies this`cost, this`cand, this`done
      ensures cost == old(cost)[v := newCost] && done == Without(old(done), v)
      ensures (forall x :: x in Without(old(cand), v) ==> x in cost) && cand == Add(Without(old(cand), v), cost, v)
    {
      if cost[v] < ROUTE_COST_BROKEN {
        cand := Without(cand, v);
      }
      done := Without(done, v);
      cost := cost[v := newCost];
      cand := Add(cand, cost, v);
    }

    method RelaxEdge(u: Vertex, e: Edge, ghost closed: set<Edge>)
      requires Exploring(net, State(), paths, u) && e in net.g[u] && AllRelaxed(net.g, State(), u, closed)
      modifies this
      ensures Exploring(net, State(), paths, u) && done == old(done) && AllRelaxed(net.g, State(), u, closed + {e})
    {
      ghost var l := State();
      assert u in l.cand && CostOk(l, e.to);
      DoneKept(net, l, paths, u, e);
      paths := ExploreKeeps(net, l, paths, u, e, closed);
      ExploreEdge(u, e);
    }

    method Relax(u: Vertex)
      requires Exploring(net, State(), paths, u)
      modifies this
      ensures Exploring(net, State(), paths, u) && done == old(done)
      ensures AllRelaxed(net.g, State(), u, set e | e in net.g[u])
    {
      assert u in State().cand;
      var edges := net.g[u];
      ghost var closed := {};
      for i := 0 to |edges|
        invariant Exploring(net, State(), paths, u) && done == old(done) && AllRelaxed(net.g, State(), u, closed)
        invariant closed == set e | e in edges[..i]
      {
        RelaxEdge(u, edges[i], closed);
        closed := closed + {edges[i]};
        assert edges[..i + 1] == edges[..i] + [edges[i]];
      }
      assert edges[..|edges|] == edges;
    }

    // One round: relax the best candidate, then move it to the path list.
    method Round()
      requires Valid() && cand != [] && CostsFit(net)
      modifies this
      ensures Valid() && old(cand)[0] in net.g && old(cand)[0] !in old(done) && done == old(done) + [old(cand)[0]]
    {
      var u := cand[0];
      BestReady(net, State(), paths);
      assert u in State().cand;
      Relax(u);
      SettleKeeps(net, State(), paths, u);
      MoveToPaths(u);
    }

    // The best candidate leaves the candidate tree for the end of the path list.
    method MoveToPaths(u: Vertex)
      modifies this`cand, this`done
      ensures State() == Settle(old(State()), u)
    {
      cand := Without(cand, u);
      done := done + [u];
    }

    // olsr_spf_run_full
    method RunFull() returns (pathCount: nat)
      requires Valid() && done == [] && CostsFit(net)
      modifies this
      ensures Domains(net.g, State()) && forall v :: v in net.g ==> Solved(net, State(), v)
      ensures pathCount == |done|
      ensures forall i, j ::
        0 <= i < j < |done| ==>
        done[i] in cost && done[j] in cost && done[i] != done[j] && cost[done[i]] <= cost[done[j]]
    {
      pathCount := 0;
      ghost var open := net.g.Keys;
      while cand != []
        invariant Valid() && pathCount == |done|
        invariant forall v :: v in open <==> v in net.g && v !in done
        decreases open
      {
        open := open - {cand[0]};
        Round();
        pathCount := pathCount + 1;
      }
      SortedMeans(cost, done);
      forall v | v in net.g
        ensures Solved(net, State(), v)
      {
        Finished(net, State(), paths, v);
      }
    }
  }
}
