/** The whole way from the link-state database to the kernel table (src/olsr_spf.c): shortest paths, then the routing
    information base, then the kernel. */
module Routing {
  import opened Basics
  import Spf
  import Election
  import Rib
  import Lsdb
  import Graph

  // The graph with the best links of our neighbours, the prefixes each router advertises, and where a link leads.
  datatype Input = Input(net: Spf.Network, adverts: map<Spf.Vertex, seq<Rib.Advert>>, hop: Spf.Link -> Election.NextHop)

  function Prefixes(x: Input, v: Spf.Vertex): seq<Rib.Advert> { if v in x.adverts then x.adverts[v] else [] }

  // ---- the outcome, by how the routers are reached ----

  // A way to a router: its cost, its hops in eight bits, the neighbour it starts with.
  datatype Way = Way(cost: nat, hops: nat, first: Address)

  type Ways = map<Address, Way>

  // What the choice of routes depends on besides the ways.
  datatype Scene = Scene(root: Address, links: map<Address, Spf.Link>, adverts: map<Address, seq<Rib.Advert>>,
    hop: Spf.Link -> Election.NextHop, maxLen: nat, threshold: nat)

  // Another router that can be reached advertises the prefix, in this kind of advertisement, and its length is
  // admissible.
  ghost predicate Offered(s: Scene, ways: Ways, id: Election.PathId)
  {
    && id.originator in ways && id.originator != s.root && id.dst.len <= s.maxLen
    && id.originator in s.adverts && Rib.Advert(id.dst, id.origin) in s.adverts[id.originator]
  }

  // Another prefix of length zero is advertised.
  ghost predicate Rivalled(s: Scene, ways: Ways, p: Election.Prefix)
  {
    exists id :: Offered(s, ways, id) && id.dst.len == 0 && id.dst != p
  }

  // Why a router was chosen before another that advertises the same prefix. Neither being the current gateway, it is
  // nearer, or as near with fewer hops, or as many and no higher kind of advertisement. The gateway is kept if the
  // other is not nearer than its cost scaled down, but for the rounding. The gateway is left only for one that is no
  // dearer than its cost scaled down; no dearer than its cost if there is a rival prefix.
  ghost predicate Preferred(s: Scene, ways: Ways, g0: Option<Election.PathId>, id: Election.PathId,
                            other: Election.PathId)
    requires id.originator in ways && other.originator in ways
  {
    var x, y := ways[id.originator], ways[other.originator];
    if g0 == Some(id) then x.cost * s.threshold < 1000 * y.cost + Election.Slack(x.cost, s.threshold)
    else if g0 == Some(other) then
      x.cost <= y.cost && (!Rivalled(s, ways, id.dst) ==> 1000 * x.cost <= y.cost * s.threshold)
    else
      || x.cost < y.cost
      || (x.cost == y.cost && (x.hops < y.hops || (x.hops == y.hops && id.origin <= other.origin)))
  }

  // The kernel route to p is the first link of the way to the chosen router, which is preferred to every other.
  ghost predicate RouteAt(s: Scene, ways: Ways, fib: map<Election.Prefix, Election.NextHop>,
                          g0: Option<Election.PathId>, chosen: map<Election.Prefix, Election.PathId>,
                          p: Election.Prefix)
    requires p in fib
  {
    && p in chosen && chosen[p].dst == p && Offered(s, ways, chosen[p])
    && ways[chosen[p].originator].first in s.links
    && fib[p] == s.hop(s.links[ways[chosen[p].originator].first])
    && forall id :: Offered(s, ways, id) && id.dst == p && id != chosen[p] ==> Preferred(s, ways, g0, chosen[p], id)
  }

  // There is a route for exactly the prefixes that are offered. The router chosen for a prefix of length zero is the
  // gateway from now on.
  ghost predicate Outcome(s: Scene, ways: Ways, fib: map<Election.Prefix, Election.NextHop>,
                          g0: Option<Election.PathId>, g1: Option<Election.PathId>,
                          chosen: map<Election.Prefix, Election.PathId>)
  {
    && (forall p :: p in fib <==> exists id :: Offered(s, ways, id) && id.dst == p)
    && (forall p {:trigger RouteAt(s, ways, fib, g0, chosen, p)} :: p in fib ==> RouteAt(s, ways, fib, g0, chosen, p))
    && Gateway(fib, g0, g1, chosen)
  }

  ghost predicate Gateway(fib: map<Election.Prefix, Election.NextHop>, g0: Option<Election.PathId>,
                          g1: Option<Election.PathId>, chosen: map<Election.Prefix, Election.PathId>)
  {
    if exists p :: p in fib && p.len == 0
      then exists p :: p in fib && p.len == 0 && p in chosen && g1 == Some(chosen[p])
    else g1 == g0
  }

  // ---- from labels to ways ----

  ghost predicate Labelled(x: Input, l: Spf.Labels)
  {
    && x.net.root in x.net.g && Spf.Domains(x.net.g, l) && Spf.Linked(x.net) && Spf.CostsFit(x.net)
    && forall v {:trigger LabelAt(x, l, v)} :: v in x.net.g ==> LabelAt(x, l, v)
  }

  ghost predicate LabelAt(x: Input, l: Spf.Labels, v: Spf.Vertex)
    requires x.net.root in x.net.g && Spf.Domains(x.net.g, l) && v in x.net.g
  {
    Spf.Solved(x.net, l, v)
  }

  // A router of the path list as the routing information base sees it.
  function NodeOf(x: Input, l: Spf.Labels, v: Spf.Vertex): Rib.Node
    requires v in l.cost && v in l.hops && v in l.next
  {
    Rib.Node(v, l.cost[v], l.hops[v], if l.next[v] == None then None else Some(x.hop(l.next[v].value)), Prefixes(x, v))
  }

  function Nodes(x: Input, l: Spf.Labels): (r: seq<Rib.Node>)
    requires forall v :: v in l.done ==> v in l.cost && v in l.hops && v in l.next
    ensures |r| == |l.done| && forall i :: 0 <= i < |r| ==> r[i] == NodeOf(x, l, l.done[i])
  {
    seq(|l.done|, i requires 0 <= i < |l.done| => assert l.done[i] in l.done; NodeOf(x, l, l.done[i]))
  }

  // A shortest path to a router on the path list, with the cost, hops and first link of its label.
  ghost function PathAt(x: Input, l: Spf.Labels, v: Spf.Vertex): (p: seq<Spf.Edge>)
    requires Labelled(x, l) && v in l.done
    ensures v in x.net.g && Spf.Shortest(x.net.g, x.net.root, p, v) && Spf.Explains(x.net, l, v, p)
  {
    assert LabelAt(x, l, v);
    var p :| Spf.Shortest(x.net.g, x.net.root, p, v) && Spf.Explains(x.net, l, v, p);
    p
  }

  ghost function FirstOf(p: seq<Spf.Edge>, u: Address): Address { if p == [] then u else p[0].to }

  ghost function WaysOf(x: Input, l: Spf.Labels): Ways
    requires Labelled(x, l)
  {
    map v | v in l.done :: Way(l.cost[v], l.hops[v], FirstOf(PathAt(x, l, v), x.net.root))
  }

  // The ways are those of shortest paths in the graph.
  ghost predicate ByPaths(net: Spf.Network, ways: Ways)
  {
    forall v {:trigger PathWay(net, ways, v)} :: PathWay(net, ways, v)
  }

  ghost predicate PathWay(net: Spf.Network, ways: Ways, v: Address)
  {
    if v !in ways then !Spf.Reachable(net.g, net.root, v)
    else exists p :: Spf.Shortest(net.g, net.root, p, v) && IsWay(ways[v], Spf.Cost(p), |p|, FirstOf(p, net.root))
  }

  ghost predicate IsWay(w: Way, cost: nat, hops: nat, first: Address)
  {
    w.cost == cost && w.hops == hops % 256 && w.first == first
  }

  lemma {:induction false} WaysByPaths(x: Input, l: Spf.Labels)
    requires Labelled(x, l) && Spf.Closed(x.net.g)
    ensures ByPaths(x.net, WaysOf(x, l))
  {
    var ways := WaysOf(x, l);
    forall v
      ensures PathWay(x.net, ways, v)
    {
      if v in l.done {
        var p := PathAt(x, l, v);
        assert IsWay(ways[v], Spf.Cost(p), |p|, FirstOf(p, x.net.root));
      } else if v in x.net.g {
        assert LabelAt(x, l, v);
      } else if p :| Spf.PathTo(x.net.g, x.net.root, p, v) {
        Spf.InGraph(x.net.g, x.net.root, p);
      }
    }
  }

  // The label of a router on the path list: its cost fits, and its link is that of the neighbour its way starts with.
  lemma {:induction false} DoneMeans(x: Input, l: Spf.Labels, v: Spf.Vertex)
    requires Labelled(x, l) && v in l.done
    ensures v in x.net.g && l.cost[v] < ROUTE_COST_BROKEN && (l.next[v] == None <==> v == x.net.root)
    ensures var first := WaysOf(x, l)[v].first;
      v != x.net.root ==> first in x.net.links && l.next[v] == Some(x.net.links[first])
  {
    var p := PathAt(x, l, v);
    assert Spf.PathTo(x.net.g, x.net.root, p, v) && Spf.Reachable(x.net.g, x.net.root, v);
    var q :| Spf.PathTo(x.net.g, x.net.root, q, v) && Spf.LeavesRoom(Spf.Cost(q));
  }

  lemma {:induction false} NodeIn(x: Input, l: Spf.Labels, n: Rib.Node)
    requires Labelled(x, l)
    ensures n in Nodes(x, l) <==> n.addr in l.done && n == NodeOf(x, l, n.addr)
  {
    if n.addr in l.done && n == NodeOf(x, l, n.addr) {
      var i :| 0 <= i < |l.done| && l.done[i] == n.addr;
      assert Nodes(x, l)[i] == n;
    }
  }

  ghost function SceneOf(x: Input, c: Rib.Config): Scene
  {
    Scene(x.net.root, x.net.links, x.adverts, x.hop, c.maxLen, c.threshold)
  }

  // What the path list advertises is what is offered.
  lemma {:induction false} AdvertisedMeans(x: Input, l: Spf.Labels, c: Rib.Config, id: Election.PathId)
    requires Labelled(x, l)
    ensures Rib.Advertised(c, Nodes(x, l), id) <==> Offered(SceneOf(x, c), WaysOf(x, l), id)
  {
    if Rib.Advertised(c, Nodes(x, l), id) {
      var n, a :| n in Nodes(x, l) && a in n.adverts && Rib.Wants(c, n, a)
        && id == Election.PathId(a.dst, n.addr, a.origin);
      NodeIn(x, l, n);
      DoneMeans(x, l, n.addr);
      assert a == Rib.Advert(id.dst, id.origin);
    }
    if Offered(SceneOf(x, c), WaysOf(x, l), id) {
      var v, a := id.originator, Rib.Advert(id.dst, id.origin);
      DoneMeans(x, l, v);
      var n := NodeOf(x, l, v);
      NodeIn(x, l, n);
      assert a in n.adverts && Rib.Wants(c, n, a);
    }
  }

  // A path of an entry is the way to a router on the path list.
  lemma {:induction false} FromRouter(x: Input, l: Spf.Labels, c: Rib.Config, y: Election.Path, version: nat)
    requires Labelled(x, l) && Rib.FromList(c, Nodes(x, l), y, version)
    ensures Offered(SceneOf(x, c), WaysOf(x, l), y.id) && y.cost < ROUTE_COST_BROKEN
    ensures var w := WaysOf(x, l)[y.id.originator];
      y.cost == w.cost && y.hops == w.hops && w.first in x.net.links && y.nexthop == x.hop(x.net.links[w.first])
  {
    var n, a :| n in Nodes(x, l) && a in n.adverts && Rib.Wants(c, n, a) && y == Rib.PathOf(n, a, version);
    NodeIn(x, l, n);
    DoneMeans(x, l, n.addr);
    assert Rib.Advertised(c, Nodes(x, l), y.id);
    AdvertisedMeans(x, l, c, y.id);
  }

  // ---- from the election to the outcome ----

  // The tree of an entry holds the paths of exactly the routers that advertise its prefix.
  ghost predicate Fill(x: Input, l: Spf.Labels, c: Rib.Config, tree: seq<Election.Path>, version: nat,
                       p: Election.Prefix)
    requires Labelled(x, l)
  {
    && (forall z :: z in tree ==> Rib.FromList(c, Nodes(x, l), z, version) && z.id.dst == p)
    && (forall id :: Rib.Advertised(c, Nodes(x, l), id) && id.dst == p ==> exists z :: z in tree && z.id == id)
  }

  // The key of one path against that of another, in plain numbers.
  lemma {:induction false} KeyMeans(y: Election.Path, z: Election.Path, gw: Option<Election.PathId>, t: nat)
    requires y.id != z.id && !Election.KeyLess(z, y, gw, t) && 100 <= t <= 1000
      && y.cost < ROUTE_COST_BROKEN && z.cost < ROUTE_COST_BROKEN
    ensures gw != Some(y.id) ==> y.cost <= z.cost && (gw == Some(z.id) ==> 1000 * y.cost <= z.cost * t)
    ensures y.cost * t < 1000 * z.cost + Election.Slack(y.cost, t)
    ensures gw != Some(y.id) && gw != Some(z.id) ==>
      y.cost < z.cost || (y.cost == z.cost && (y.hops < z.hops || (y.hops == z.hops && y.id.origin <= z.id.origin)))
  {
    Election.ScaledMeans(y.cost, t);
    Election.ScaledMeans(z.cost, t);
    Election.ScaledFits(y.cost, t);
    Election.ScaledFits(z.cost, t);
  }

  lemma {:induction false} PreferredBy(x: Input, l: Spf.Labels, c: Rib.Config, tree: seq<Election.Path>,
                                       best: Election.Path, g0: Option<Election.PathId>, rival: bool, version: nat,
                                       p: Election.Prefix, id: Election.PathId)
    requires Labelled(x, l) && Fill(x, l, c, tree, version, p) && 100 <= c.threshold <= 1000 && best in tree
    requires Rib.Chosen(c, p, tree, Some(best), g0, rival)
      && (rival ==> Rivalled(SceneOf(x, c), WaysOf(x, l), p))
    requires Offered(SceneOf(x, c), WaysOf(x, l), id) && id.dst == p && id != best.id
    ensures best.id.originator in WaysOf(x, l) && Preferred(SceneOf(x, c), WaysOf(x, l), g0, best.id, id)
  {
    var gw, m :| (gw == None || (gw == g0 && gw.value.dst == p))
      && (g0.Some? && g0.value.dst == p && !rival ==> gw == g0)
      && Election.LastMinimal(tree, m, gw, c.threshold) && best == tree[m];
    AdvertisedMeans(x, l, c, id);
    var z :| z in tree && z.id == id;
    var i :| 0 <= i < |tree| && tree[i] == z;
    assert !Election.KeyLess(tree[i], tree[m], gw, c.threshold);
    FromRouter(x, l, c, z, version);
    FromRouter(x, l, c, best, version);
    KeyMeans(best, z, gw, c.threshold);
  }

  lemma {:induction false} RivalMeans(x: Input, l: Spf.Labels, c: Rib.Config, es: Rib.Entries,
                                      fib: map<Election.Prefix, Election.NextHop>,
                                      version: nat, g0: Option<Election.PathId>, p: Election.Prefix)
    requires Labelled(x, l) && (forall q :: Rib.Routed(c, Nodes(x, l), es, fib, version, g0, q)) && Rib.Rival(es, {}, p)
    ensures Rivalled(SceneOf(x, c), WaysOf(x, l), p)
  {
    var q :| q in es && q.len == 0 && q != p;
    assert Rib.Routed(c, Nodes(x, l), es, fib, version, g0, q);
    Covered(x, l, c, q);
  }

  lemma {:induction false} Covered(x: Input, l: Spf.Labels, c: Rib.Config, p: Election.Prefix)
    requires Labelled(x, l)
    ensures (exists id :: Rib.Advertised(c, Nodes(x, l), id) && id.dst == p) <==>
      exists id :: Offered(SceneOf(x, c), WaysOf(x, l), id) && id.dst == p
  {
    if id :| Rib.Advertised(c, Nodes(x, l), id) && id.dst == p {
      AdvertisedMeans(x, l, c, id);
    }
    if id :| Offered(SceneOf(x, c), WaysOf(x, l), id) && id.dst == p {
      AdvertisedMeans(x, l, c, id);
    }
  }

  // The router behind each route.
  ghost function ChosenIn(es: Rib.Entries, fib: map<Election.Prefix, Election.NextHop>)
    : map<Election.Prefix, Election.PathId>
  {
    map p | p in fib && p in es && es[p].best.Some? :: es[p].best.value.id
  }

  lemma {:induction false} RouteMeans(x: Input, l: Spf.Labels, c: Rib.Config, es: Rib.Entries,
                                      fib: map<Election.Prefix, Election.NextHop>,
                                      version: nat, g0: Option<Election.PathId>, p: Election.Prefix)
    requires Labelled(x, l) && p in fib && 100 <= c.threshold <= 1000
      && forall q :: Rib.Routed(c, Nodes(x, l), es, fib, version, g0, q)
    ensures RouteAt(SceneOf(x, c), WaysOf(x, l), fib, g0, ChosenIn(es, fib), p)
  {
    assert Rib.Routed(c, Nodes(x, l), es, fib, version, g0, p);
    var tree, y := es[p].tree, es[p].best.value;
    assert y in tree;
    FromRouter(x, l, c, y, version);
    if Rib.Rival(es, {}, p) {
      RivalMeans(x, l, c, es, fib, version, g0, p);
    }
    forall id | Offered(SceneOf(x, c), WaysOf(x, l), id) && id.dst == p && id != y.id
      ensures Preferred(SceneOf(x, c), WaysOf(x, l), g0, y.id, id)
    {
      PreferredBy(x, l, c, tree, y, g0, Rib.Rival(es, {}, p), version, p, id);
    }
  }

  lemma {:induction false} GatewayMeans(c: Rib.Config, nodes: seq<Rib.Node>, es: Rib.Entries,
                                        fib: map<Election.Prefix, Election.NextHop>, version: nat,
                                        g0: Option<Election.PathId>, g1: Option<Election.PathId>)
    requires (forall p :: Rib.Routed(c, nodes, es, fib, version, g0, p)) && Rib.Held(es, {}, g0, g1)
    ensures Gateway(fib, g0, g1, ChosenIn(es, fib))
  {
    forall p
      ensures Rib.Zero(es, {}, p) <==> p in fib && p.len == 0
    {
      assert Rib.Routed(c, nodes, es, fib, version, g0, p);
    }
    if p :| p in fib && p.len == 0 {
      assert Rib.Zero(es, {}, p);
      var q :| Rib.Zero(es, {}, q) && es[q].best.Some? && g1 == Some(es[q].best.value.id);
      assert q in ChosenIn(es, fib);
    }
  }

  lemma {:induction false} AllRouted(x: Input, l: Spf.Labels, c: Rib.Config, es: Rib.Entries,
                                     fib: map<Election.Prefix, Election.NextHop>, version: nat,
                                     g0: Option<Election.PathId>, g1: Option<Election.PathId>)
    requires Labelled(x, l) && 100 <= c.threshold <= 1000 && Rib.Held(es, {}, g0, g1)
      && forall p :: Rib.Routed(c, Nodes(x, l), es, fib, version, g0, p)
    ensures Outcome(SceneOf(x, c), WaysOf(x, l), fib, g0, g1, ChosenIn(es, fib))
  {
    var s, ways, chosen := SceneOf(x, c), WaysOf(x, l), ChosenIn(es, fib);
    forall p
      ensures p in fib <==> exists id :: Offered(s, ways, id) && id.dst == p
    {
      assert Rib.Routed(c, Nodes(x, l), es, fib, version, g0, p);
      Covered(x, l, c, p);
    }
    forall p | p in fib
      ensures RouteAt(s, ways, fib, g0, chosen, p)
    {
      RouteMeans(x, l, c, es, fib, version, g0, p);
    }
    GatewayMeans(c, Nodes(x, l), es, fib, version, g0, g1);
  }

  lemma {:induction false} NodesFit(x: Input, l: Spf.Labels)
    requires Labelled(x, l)
    ensures forall n :: n in Nodes(x, l) ==> n.cost < ROUTE_COST_BROKEN
  {
    forall n | n in Nodes(x, l)
      ensures n.cost < ROUTE_COST_BROKEN
    {
      NodeIn(x, l, n);
      DoneMeans(x, l, n.addr);
    }
  }

  method ShortestPaths(x: Input) returns (l: Spf.Labels)
    requires x.net.root in x.net.g && Spf.Closed(x.net.g) && Spf.Linked(x.net) && Spf.CostsFit(x.net)
    ensures Labelled(x, l)
  {
    var spf := new Spf.Computation(x.net);
    var count := spf.RunFull();
    l := spf.State();
  }

  // olsr_calculate_routing_table, past the backoff test: the kernel has a route for exactly the prefixes that other
  // reachable routers advertise, each by the first link of a shortest path to the preferred one.
  method Calculate(x: Input, table: Rib.Table)
    returns (ghost ways: Ways, ghost chosen: map<Election.Prefix, Election.PathId>)
    requires table.Valid() && x.net.root in x.net.g && Spf.Closed(x.net.g) && Spf.Linked(x.net) && Spf.CostsFit(x.net)
    modifies table
    ensures table.Valid() && ByPaths(x.net, ways)
    ensures Outcome(SceneOf(x, table.c), ways, table.fib, old(table.gateway), table.gateway, chosen)
  {
    var l := ShortestPaths(x);
    NodesFit(x, l);
    ghost var g0 := table.gateway;
    table.Recompute(Nodes(x, l));
    ways, chosen := WaysOf(x, l), ChosenIn(table.entries, table.fib);
    WaysByPaths(x, l);
    AllRouted(x, l, table.c, table.entries, table.fib, table.version, g0, table.gateway);
  }

  // ---- from the link-state database ----

  // The ways are those of cheapest walks over the database.
  ghost predicate ByWalks(ns: Lsdb.Nodes, es: Lsdb.Edges, cost: Lsdb.Ref -> nat, root: Address, ways: Ways)
  {
    forall v {:trigger WalkWay(ns, es, cost, root, ways, v)} :: WalkWay(ns, es, cost, root, ways, v)
  }

  ghost predicate WalkWay(ns: Lsdb.Nodes, es: Lsdb.Edges, cost: Lsdb.Ref -> nat, root: Address, ways: Ways, v: Address)
  {
    if v !in ways then forall w :: !Graph.WalkTo(ns, es, cost, root, w, v)
    else exists w ::
      && Cheapest(ns, es, cost, root, w, v)
      && IsWay(ways[v], Graph.Toll(ns, es, cost, w), |w| - 1, if |w| == 1 then root else w[1])
  }

  ghost predicate Cheapest(ns: Lsdb.Nodes, es: Lsdb.Edges, cost: Lsdb.Ref -> nat, root: Address, w: seq<Address>,
                           v: Address)
  {
    && Graph.WalkTo(ns, es, cost, root, w, v)
    && forall x :: Graph.WalkTo(ns, es, cost, root, x, v) ==> Graph.Toll(ns, es, cost, w) <= Graph.Toll(ns, es, cost, x)
  }

  lemma {:induction false} ShortestIsCheapest(ns: Lsdb.Nodes, es: Lsdb.Edges, cost: Lsdb.Ref -> nat, g: Spf.Graph,
                                              root: Address, p: seq<Spf.Edge>, v: Address)
    requires Lsdb.Consistent(ns, es, {}) && Graph.IsGraph(ns, es, cost, g) && Spf.Shortest(g, root, p, v)
    ensures Cheapest(ns, es, cost, root, Graph.Along(root, p), v)
    ensures Graph.Toll(ns, es, cost, Graph.Along(root, p)) == Spf.Cost(p)
  {
    Graph.PathIsWalk(ns, es, cost, g, root, p);
    forall x | Graph.WalkTo(ns, es, cost, root, x, v)
      ensures Spf.Cost(p) <= Graph.Toll(ns, es, cost, x)
    {
      var q := Graph.WalkIsPath(ns, es, cost, g, x);
      assert Spf.PathTo(g, root, q, v);
    }
  }

  lemma {:induction false} PathsAreWalks(ns: Lsdb.Nodes, es: Lsdb.Edges, cost: Lsdb.Ref -> nat, net: Spf.Network,
                                         ways: Ways)
    requires Lsdb.Consistent(ns, es, {}) && Graph.IsGraph(ns, es, cost, net.g) && ByPaths(net, ways)
    ensures ByWalks(ns, es, cost, net.root, ways)
  {
    forall v
      ensures WalkWay(ns, es, cost, net.root, ways, v)
    {
      assert PathWay(net, ways, v);
      if v in ways {
        var p :| Spf.Shortest(net.g, net.root, p, v)
          && IsWay(ways[v], Spf.Cost(p), |p|, FirstOf(p, net.root));
        ShortestIsCheapest(ns, es, cost, net.g, net.root, p, v);
      } else {
        forall w
          ensures !Graph.WalkTo(ns, es, cost, net.root, w, v)
        {
          if Graph.WalkTo(ns, es, cost, net.root, w, v) {
            var q := Graph.WalkIsPath(ns, es, cost, net.g, w);
            assert Spf.PathTo(net.g, net.root, q, v);
          }
        }
      }
    }
  }

  // The same from the link-state database, whatever messages made it: ways are cheapest walks over its edges.
  method CalculateFrom(db: Lsdb.Database, cost: Lsdb.Ref -> nat, links: map<Address, Spf.Link>,
                       adverts: map<Address, seq<Rib.Advert>>, hop: Spf.Link -> Election.NextHop, table: Rib.Table)
    returns (ghost ways: Ways, ghost chosen: map<Election.Prefix, Election.PathId>)
    requires db.Valid() && table.Valid() && Graph.HasLinks(db.nodes, db.edges, cost, db.myself, links)
      && Graph.TollsFit(db.nodes, db.edges, cost, db.myself)
    modifies table
    ensures table.Valid() && ByWalks(db.nodes, db.edges, cost, db.myself, ways)
    ensures Outcome(Scene(db.myself, links, adverts, hop, table.c.maxLen, table.c.threshold), ways, table.fib,
      old(table.gateway), table.gateway, chosen)
  {
    var g := Graph.Build(db, cost);
    ways, chosen := CalculateOn(db, cost, links, adverts, hop, g, table);
  }

  method CalculateOn(db: Lsdb.Database, ghost cost: Lsdb.Ref -> nat, links: map<Address, Spf.Link>,
                     adverts: map<Address, seq<Rib.Advert>>, hop: Spf.Link -> Election.NextHop, g: Spf.Graph,
                     table: Rib.Table)
    returns (ghost ways: Ways, ghost chosen: map<Election.Prefix, Election.PathId>)
    requires db.Valid() && table.Valid() && Graph.HasLinks(db.nodes, db.edges, cost, db.myself, links)
      && Graph.TollsFit(db.nodes, db.edges, cost, db.myself) && Graph.IsGraph(db.nodes, db.edges, cost, g)
    modifies table
    ensures table.Valid() && ByWalks(db.nodes, db.edges, cost, db.myself, ways)
    ensures Outcome(Scene(db.myself, links, adverts, hop, table.c.maxLen, table.c.threshold), ways, table.fib,
      old(table.gateway), table.gateway, chosen)
  {
    Graph.GraphClosed(db.nodes, db.edges, cost, g);
    Graph.GraphLinked(db.nodes, db.edges, cost, g, db.myself, links);
    Graph.FitsBoth(db.nodes, db.edges, cost, g, db.myself, links);
    ways, chosen := Calculate(Input(Spf.Network(g, db.myself, links), adverts, hop), table);
    PathsAreWalks(db.nodes, db.edges, cost, Spf.Network(g, db.myself, links), ways);
  }

  // The same for a network of up to 256 routers, whatever the links cost.
  method CalculateSmall(db: Lsdb.Database, cost: Lsdb.Ref -> nat, links: map<Address, Spf.Link>,
                        adverts: map<Address, seq<Rib.Advert>>, hop: Spf.Link -> Election.NextHop, table: Rib.Table)
    returns (ghost ways: Ways, ghost chosen: map<Election.Prefix, Election.PathId>)
    requires db.Valid() && table.Valid() && Graph.HasLinks(db.nodes, db.edges, cost, db.myself, links)
      && |db.nodes| <= 256
    modifies table
    ensures table.Valid() && ByWalks(db.nodes, db.edges, cost, db.myself, ways)
    ensures Outcome(Scene(db.myself, links, adverts, hop, table.c.maxLen, table.c.threshold), ways, table.fib,
      old(table.gateway), table.gateway, chosen)
  {
    var g := Graph.Build(db, cost);
    Graph.SmallFits(db.nodes, db.edges, cost, g, db.myself, links);
    ways, chosen := CalculateOn(db, cost, links, adverts, hop, g, table);
  }
}
