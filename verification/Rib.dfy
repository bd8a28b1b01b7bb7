/** The routing information base and its way into the kernel table: versioned path refresh, garbage collection,
    election, the change queue (src/routing_table.c, src/process_routes.c, tail of src/olsr_spf.c). */
module Rib {
  import opened Basics
  import opened Election

  // A prefix a router advertises, with the kind of advertisement.
  datatype Advert = Advert(dst: Prefix, origin: nat)

  // A vertex of the SPF path list: its cost and hops, the link towards it if any, its prefix tree.
  datatype Node = Node(addr: Address, cost: nat, hops: nat, link: Option<NextHop>, adverts: seq<Advert>)

  datatype Entry = Entry(tree: seq<Path>, best: Option<Path>, installed: Option<NextHop>, hops: nat)

  // ---- the path tree of one entry ----

  ghost predicate TreeOk(p: Prefix, tree: seq<Path>)
  {
    Distinct(tree) && forall x :: x in tree ==> x.id.dst == p
  }

  function Find(tree: seq<Path>, id: PathId): (i: int)
    ensures -1 <= i < |tree| && (i >= 0 ==> tree[i].id == id)
    ensures i == -1 ==> forall x :: x in tree ==> x.id != id
  {
    if tree == [] then -1 else if tree[0].id == id then 0 else
      var i := Find(tree[1..], id);
      if i < 0 then -1 else i + 1
  }

  function Place(tree: seq<Path>, x: Path, before: (PathId, PathId) -> bool): (r: seq<Path>)
    ensures forall y :: y in r <==> y in tree || y == x
  {
    if tree == [] || before(x.id, tree[0].id) then [x] + tree else [tree[0]] + Place(tree[1..], x, before)
  }

  function Put(tree: seq<Path>, x: Path, before: (PathId, PathId) -> bool): seq<Path>
  {
    var i := Find(tree, x.id);
    if i >= 0 then tree[i := x] else Place(tree, x, before)
  }

  lemma {:induction false} PlaceDistinct(tree: seq<Path>, x: Path, before: (PathId, PathId) -> bool)
    requires Distinct(tree) && Alone(x, tree)
    ensures Distinct(Place(tree, x, before))
  {
    if tree == [] || before(x.id, tree[0].id) {
      assert ([x] + tree)[1..] == tree;
    } else {
      assert tree[0] in tree && forall y :: y in tree[1..] ==> y in tree;
      PlaceDistinct(tree[1..], x, before);
      var r := Place(tree[1..], x, before);
      assert ([tree[0]] + r)[1..] == r;
    }
  }

  lemma {:induction false} PutIs(p: Prefix, tree: seq<Path>, x: Path, before: (PathId, PathId) -> bool)
    requires TreeOk(p, tree) && x.id.dst == p
    ensures TreeOk(p, Put(tree, x, before))
    ensures forall y :: y in Put(tree, x, before) <==> y == x || (y in tree && y.id != x.id)
  {
    var i := Find(tree, x.id);
    if i >= 0 {
      var r := tree[i := x];
      assert r[i] == x;
      DistinctMeans(tree);
      DistinctMeans(r);
      forall y | y in tree && y.id != x.id
        ensures y in r
      {
        var j :| 0 <= j < |tree| && tree[j] == y;
        assert r[j] == y;
      }
    } else {
      PlaceDistinct(tree, x, before);
    }
  }

  // The paths of the given version, in order.
  function Current(tree: seq<Path>, version: nat): (r: seq<Path>)
    ensures forall y :: y in r <==> y in tree && y.version == version
  {
    if tree == [] then [] else (if tree[0].version == version then [tree[0]] else []) + Current(tree[1..], version)
  }

  lemma {:induction false} CurrentDistinct(tree: seq<Path>, version: nat)
    requires Distinct(tree)
    ensures Distinct(Current(tree, version))
  {
    if tree != [] {
      CurrentDistinct(tree[1..], version);
      var r := Current(tree[1..], version);
      assert ([tree[0]] + r)[1..] == r && [] + r == r;
    }
  }

  // ---- what a path list asks for ----

  // The configuration: address length in bits, NAT threshold, metric policy, key order of the path trees.
  datatype Config = Config(maxLen: nat, threshold: nat, exactMetric: bool, before: (PathId, PathId) -> bool)

  ghost predicate Wants(c: Config, n: Node, a: Advert)
  {
    n.link.Some? && a.dst.len <= c.maxLen
  }

  function PathOf(n: Node, a: Advert, version: nat): Path
    requires n.link.Some?
  {
    Path(PathId(a.dst, n.addr, a.origin), n.cost, n.hops, n.link.value, version)
  }

  ghost function AddAdvert(c: Config, w: map<PathId, Path>, n: Node, a: Advert, version: nat): map<PathId, Path>
  {
    if Wants(c, n, a) then w[PathOf(n, a, version).id := PathOf(n, a, version)] else w
  }

  ghost function AddAdverts(c: Config, w: map<PathId, Path>, n: Node, s: seq<Advert>, version: nat): map<PathId, Path>
  {
    if s == [] then w else AddAdvert(c, AddAdverts(c, w, n, s[..|s| - 1], version), n, s[|s| - 1], version)
  }

  ghost function Wanted(c: Config, nodes: seq<Node>, version: nat): map<PathId, Path>
  {
    if nodes == [] then map[] else
      var n := nodes[|nodes| - 1];
      AddAdverts(c, Wanted(c, nodes[..|nodes| - 1], version), n, n.adverts, version)
  }

  // Some router on the path list with a next hop advertises this path.
  ghost predicate Advertised(c: Config, nodes: seq<Node>, id: PathId)
  {
    exists n, a :: n in nodes && a in n.adverts && Wants(c, n, a) && id == PathId(a.dst, n.addr, a.origin)
  }

  // x is the path some advertisement of a router on the list stands for.
  ghost predicate FromList(c: Config, nodes: seq<Node>, x: Path, version: nat)
  {
    exists n, a :: n in nodes && a in n.adverts && Wants(c, n, a) && x == PathOf(n, a, version)
  }

  lemma {:induction false} AddAdvertsMeans(c: Config, w: map<PathId, Path>, n: Node, s: seq<Advert>, version: nat,
                                           id: PathId)
    ensures id in AddAdverts(c, w, n, s, version) <==>
      id in w || exists a :: a in s && Wants(c, n, a) && id == PathId(a.dst, n.addr, a.origin)
    ensures id in AddAdverts(c, w, n, s, version) ==>
      || (id in w && AddAdverts(c, w, n, s, version)[id] == w[id])
      || exists a :: a in s && Wants(c, n, a) && AddAdverts(c, w, n, s, version)[id] == PathOf(n, a, version)
  {
    if s != [] {
      var q, b := s[..|s| - 1], s[|s| - 1];
      AddAdvertsMeans(c, w, n, q, version, id);
      assert forall a :: a in s <==> a in q || a == b;
    }
  }

  lemma {:induction false} WantedMeans(c: Config, nodes: seq<Node>, version: nat, id: PathId)
    ensures id in Wanted(c, nodes, version) <==> Advertised(c, nodes, id)
    ensures id in Wanted(c, nodes, version) ==> FromList(c, nodes, Wanted(c, nodes, version)[id], version)
  {
    if nodes != [] {
      var q, n := nodes[..|nodes| - 1], nodes[|nodes| - 1];
      WantedMeans(c, q, version, id);
      AddAdvertsMeans(c, Wanted(c, q, version), n, n.adverts, version, id);
      assert forall m :: m in nodes <==> m in q || m == n;
    }
  }

  // ---- the table ----

  type Entries = map<Prefix, Entry>

  // The entry of a prefix, or the fresh one an insertion starts from.
  function EntryAt(es: Entries, p: Prefix): Entry { if p in es then es[p] else Entry([], None, None, 0) }

  ghost predicate EntryOk(c: Config, es: Entries, p: Prefix)
    requires p in es
  {
    p.len <= c.maxLen && TreeOk(p, es[p].tree)
  }

  ghost predicate EntriesOk(c: Config, es: Entries)
  {
    forall p {:trigger EntryOk(c, es, p)} :: p in es ==> EntryOk(c, es, p)
  }

  // The kernel holds exactly the next hops recorded as installed.
  ghost predicate MirrorAt(es: Entries, fib: map<Prefix, NextHop>, p: Prefix)
  {
    && (p in fib <==> p in es && es[p].installed.Some?)
    && (p in fib ==> es[p].installed == Some(fib[p]))
  }

  ghost predicate Mirrors(es: Entries, fib: map<Prefix, NextHop>)
  {
    forall p {:trigger MirrorAt(es, fib, p)} :: MirrorAt(es, fib, p)
  }

  // The paths of the current version are exactly the wanted ones.
  ghost predicate Tracks(es: Entries, w: map<PathId, Path>, version: nat)
  {
    && (forall id :: id in w ==> w[id].id == id && w[id].version == version && id.dst in es && w[id] in es[id.dst].tree)
    && (forall p, x :: p in es && x in es[p].tree && x.version == version ==> x.id in w && w[x.id] == x)
  }

  // The route an entry elected differs from what is installed.
  predicate NeedsChange(c: Config, e: Entry)
    requires e.best.Some?
  {
    e.installed != Some(e.best.value.nexthop) || (c.exactMetric && e.hops != e.best.value.hops)
  }

  lemma {:induction false} PutTracks(c: Config, es: Entries, w: map<PathId, Path>, version: nat, x: Path, es': Entries)
    requires EntriesOk(c, es) && Tracks(es, w, version) && x.version == version && x.id.dst.len <= c.maxLen
    requires es' == es[x.id.dst := EntryAt(es, x.id.dst).(tree := Put(EntryAt(es, x.id.dst).tree, x, c.before))]
    ensures EntriesOk(c, es') && Tracks(es', w[x.id := x], version)
  {
    var p := x.id.dst;
    var tree := if p in es then es[p].tree else [];
    assert p in es ==> EntryOk(c, es, p);
    PutIs(p, tree, x, c.before);
    forall q | q in es'
      ensures EntryOk(c, es', q)
    {
      assert q != p ==> EntryOk(c, es, q);
    }
    forall q, y | q in es' && y in es'[q].tree && y.version == version
      ensures y.id in w[x.id := x] && w[x.id := x][y.id] == y
    {
      if q != p {
        assert EntryOk(c, es, q);
      }
    }
  }

  // ---- one entry of the table during a RIB update ----

  ghost predicate Refreshed(c: Config, e: Entry, e': Entry, p: Prefix, version: nat, g0: Option<PathId>, rival: bool)
  {
    && e'.tree == Current(e.tree, version) && e'.tree != [] && e'.installed == e.installed && e'.hops == e.hops
    && Chosen(c, p, e'.tree, e'.best, g0, rival)
  }

  // The elected path is the last one with a minimal key, judged with the gateway g0 of before the update if it is a
  // path to this prefix; with a rival, another prefix of length zero, perhaps with no gateway.
  ghost predicate Chosen(c: Config, p: Prefix, tree: seq<Path>, best: Option<Path>, g0: Option<PathId>, rival: bool)
  {
    exists gw, m :: (gw == None || (gw == g0 && gw.value.dst == p))
      && (g0.Some? && g0.value.dst == p && !rival ==> gw == g0)
      && LastMinimal(tree, m, gw, c.threshold) && best == Some(tree[m])
  }

  // Another prefix of length zero is in the table and has been refreshed.
  ghost predicate Rival(es: Entries, todo: set<Prefix>, p: Prefix)
  {
    exists q :: q in es && q !in todo && q.len == 0 && q != p
  }

  lemma {:induction false} ElectChosen(c: Config, p: Prefix, tree: seq<Path>, gateway: Option<PathId>,
                                       g0: Option<PathId>, rival: bool)
    requires TreeOk(p, tree) && tree != [] && (gateway == g0 || (gateway.Some? && gateway.value.dst != p && rival))
    ensures Chosen(c, p, tree, Elect(tree, None, gateway, c.threshold), g0, rival)
    ensures Elect(tree, None, gateway, c.threshold).Some? && Elect(tree, None, gateway, c.threshold).value.id.dst == p
  {
    var gw := if gateway.Some? && gateway.value.dst == p then gateway else None;
    if gw == None {
      OtherGateway(tree, None, gateway, c.threshold);
    }
    ElectMinimal(tree, gw, c.threshold);
  }

  lemma {:induction false} CurrentSnoc(s: seq<Path>, x: Path, version: nat)
    ensures Current(s + [x], version) == Current(s, version) + if x.version == version then [x] else []
  {
    if s == [] {
      assert s + [x] == [x] && [x][1..] == [];
    } else {
      assert (s + [x])[0] == s[0] && (s + [x])[1..] == s[1..] + [x];
      CurrentSnoc(s[1..], x, version);
    }
  }

  class Table {
    const c: Config
    var entries: Entries
    var fib: map<Prefix, NextHop>
    var queue: seq<Prefix>
    var version: nat
    var gateway: Option<PathId>

    // Between two recomputations: nothing queued, every path carries the version of the last one.
    ghost predicate Valid()
      reads this
    {
      && EntriesOk(c, entries) && Mirrors(entries, fib) && queue == [] && version < U32 && 100 <= c.threshold <= 1000
      && (forall p, x :: p in entries && x in entries[p].tree ==> x.version == version)
    }

    constructor (c: Config)
      requires 100 <= c.threshold <= 1000
      ensures this.c == c && Valid() && entries == map[] && fib == map[] && gateway == None
    {
      this.c := c;
      entries, fib, queue, version, gateway := map[], map[], [], 0, None;
    }

    // olsr_update_rt_path or olsr_insert_rt_path for one prefix of a reachable node
    method RefreshPath(n: Node, a: Advert, ghost w: map<PathId, Path>)
      requires n.link.Some? && n.cost < ROUTE_COST_BROKEN
      requires EntriesOk(c, entries) && Mirrors(entries, fib) && Tracks(entries, w, version)
      modifies this`entries
      ensures EntriesOk(c, entries) && Mirrors(entries, fib) && Tracks(entries, AddAdvert(c, w, n, a, version), version)
    {
      var x := PathOf(n, a, version);
      var p := a.dst;
      ghost var es := entries;
      assert p in es ==> EntryOk(c, es, p);
      if p in entries && Find(entries[p].tree, x.id) >= 0 {
        var i := Find(entries[p].tree, x.id);
        entries := entries[p := entries[p].(tree := entries[p].tree[i := x])];
      } else {
        if n.cost == ROUTE_COST_BROKEN || p.len > c.maxLen {
          return;
        }
        if p !in entries {
          entries := entries[p := Entry([], None, None, 0)];
        }
        entries := entries[p := entries[p].(tree := Place(entries[p].tree, x, c.before))];
      }
      assert entries == es[p := EntryAt(es, p).(tree := Put(EntryAt(es, p).tree, x, c.before))];
      PutTracks(c, es, w, version, x, entries);
      forall q
        ensures MirrorAt(entries, fib, q)
      {
        assert MirrorAt(es, fib, q);
      }
    }

    // The walk over the SPF path list.
    method RefreshPaths(nodes: seq<Node>)
      requires forall n :: n in nodes ==> n.cost < ROUTE_COST_BROKEN
      requires EntriesOk(c, entries) && Mirrors(entries, fib) && Tracks(entries, map[], version)
      modifies this`entries
      ensures EntriesOk(c, entries) && Mirrors(entries, fib) && Tracks(entries, Wanted(c, nodes, version), version)
    {
      for i := 0 to |nodes|
        invariant EntriesOk(c, entries) && Mirrors(entries, fib)
          && Tracks(entries, Wanted(c, nodes[..i], version), version)
      {
        var n := nodes[i];
        ghost var w := Wanted(c, nodes[..i], version);
        assert nodes[..i + 1][..i] == nodes[..i];
        if n.link == None {
          NoLink(c, w, n, n.adverts, version);
          continue;
        }
        for j := 0 to |n.adverts|
          invariant EntriesOk(c, entries) && Mirrors(entries, fib)
            && Tracks(entries, AddAdverts(c, w, n, n.adverts[..j], version), version)
        {
          assert n.adverts[..j + 1][..j] == n.adverts[..j];
          RefreshPath(n, n.adverts[j], AddAdverts(c, w, n, n.adverts[..j], version));
        }
        assert n.adverts[..|n.adverts|] == n.adverts;
      }
      assert nodes[..|nodes|] == nodes;
    }

    // olsr_delete_outdated_routes
    method DeleteOutdated(p: Prefix)
      requires p in entries
      modifies this`entries
      ensures entries == old(entries)[p := old(entries)[p].(tree := Current(old(entries)[p].tree, version),
        best := None)]
    {
      var tree, kept := entries[p].tree, [];
      for i := 0 to |tree|
        invariant kept == Current(tree[..i], version) && entries == old(entries)
      {
        assert tree[..i + 1] == tree[..i] + [tree[i]];
        CurrentSnoc(tree[..i], tree[i], version);
        if version == tree[i].version {
          kept := kept + [tree[i]];
        }
      }
      assert tree[..|tree|] == tree;
      entries := entries[p := entries[p].(tree := kept, best := None)];
    }

    // olsr_rt_best
    method ElectBest(p: Prefix)
      requires p in entries && entries[p].tree != []
      modifies this`entries, this`gateway
      ensures entries == old(entries)[p := old(entries)[p].(best := Elect(old(entries)[p].tree, old(entries)[p].best,
        old(gateway), c.threshold))]
      ensures entries[p].best.Some?
      ensures gateway == if p.len == 0 then Some(entries[p].best.value.id) else old(gateway)
    {
      var tree, best := entries[p].tree, entries[p].best;
      for i := 0 to |tree|
        invariant Elect(tree[i..], best, gateway, c.threshold) == Elect(tree, entries[p].best, gateway, c.threshold)
        invariant (i > 0 ==> best.Some?) && entries == old(entries) && gateway == old(gateway)
      {
        assert tree[i..][0] == tree[i] && tree[i..][1..] == tree[i + 1..];
        if best == None || Better(tree[i], best.value, gateway, c.threshold) {
          best := Some(tree[i]);
        }
      }
      entries := entries[p := entries[p].(best := best)];
      if p.len == 0 {
        gateway := Some(best.value.id);
      }
    }

    // olsr_enqueue_rt: routes to next hops go to the head of the queue, all others to its tail
    method Enqueue(p: Prefix)
      requires p in entries && entries[p].best.Some?
      modifies this`queue
      ensures queue == if p in old(queue) then old(queue) else Enqueued(old(queue), p, Host(entries, p))
      ensures p in queue && (forall q :: q != p ==> (q in queue <==> q in old(queue)))
      ensures InQueueOrder(entries, old(queue)) ==> InQueueOrder(entries, queue)
    {
      EnqueuedOrder(entries, queue, p);
      if p in queue {
        return;
      }
      if p.addr == entries[p].best.value.nexthop.gateway {
        queue := [p] + queue;
      } else {
        queue := queue + [p];
      }
    }

    // ---- olsr_update_rib_routes ----

    // Where a RIB update stands: the entries of todo are as in es, the others are refreshed or gone.
    ghost predicate Updating(es: Entries, todo: set<Prefix>, g0: Option<PathId>)
      reads this
    {
      && EntriesOk(c, es) && Mirrors(entries, fib) && (forall p :: p in todo ==> p in es)
      && Staged(c, es, entries, todo, version, g0)
      && Held(entries, todo, g0, gateway) && Queued(c, entries, queue, todo)
    }

    // The gateway is by now a path to a refreshed prefix of length zero.
    static ghost predicate Taken(es: Entries, gateway: Option<PathId>, todo: set<Prefix>)
    {
      gateway.Some? && gateway.value.dst in es && gateway.value.dst !in todo && gateway.value.dst.len == 0
    }

    // An entry that lost its last path.
    method DropEntry(p: Prefix)
      requires p in entries && MirrorAt(entries, fib, p)
      modifies this`entries, this`fib
      ensures entries == old(entries) - {p} && fib == old(fib) - {p}
    {
      if entries[p].installed.Some? {
        fib := fib - {p};
      }
      entries := entries - {p};
    }

    // An entry with paths left and no best one yet.
    method Reelect(p: Prefix, ghost g0: Option<PathId>, ghost rival: bool)
      requires p in entries && TreeOk(p, entries[p].tree) && entries[p].tree != [] && entries[p].best == None
        && p !in queue
      requires gateway == g0 || (gateway.Some? && gateway.value.dst != p && rival)
      modifies this`entries, this`gateway, this`queue
      ensures p in entries && entries == old(entries)[p := old(entries)[p].(best := entries[p].best)]
      ensures Chosen(c, p, entries[p].tree, entries[p].best, g0, rival)
      ensures queue == if Pending(c, entries, p) then Enqueued(old(queue), p, Host(entries, p)) else old(queue)
      ensures entries[p].best.Some?
      ensures gateway == if p.len == 0 then Some(entries[p].best.value.id) else old(gateway)
    {
      ElectChosen(c, p, entries[p].tree, gateway, g0, rival);
      ElectBest(p);
      if NeedsChange(c, entries[p]) {
        Enqueue(p);
      }
    }

    // One entry of the walk over the routing tree.
    method Settle(p: Prefix, ghost todo: set<Prefix>, ghost g0: Option<PathId>)
      requires p in entries && p in todo && EntryOk(c, entries, p) && MirrorAt(entries, fib, p) && p !in queue
      requires gateway == g0 || Taken(entries, gateway, todo)
      modifies this
      ensures version == old(version) && SameElsewhere(old(entries), entries, p) && MirrorAt(entries, fib, p)
      ensures forall q :: q != p ==> (q in old(fib) <==> q in fib) && (q in fib ==> old(fib)[q] == fib[q])
      ensures Stage(c, old(entries), entries, todo - {p}, p, version, g0)
      ensures queue == if Pending(c, entries, p) then Enqueued(old(queue), p, Host(entries, p)) else old(queue)
      ensures p in entries ==> entries[p].best.Some?
      ensures gateway == if p in entries && p.len == 0 then Some(entries[p].best.value.id) else old(gateway)
    {
      CurrentDistinct(entries[p].tree, version);
      ghost var rival := Rival(entries, todo - {p}, p);
      assert gateway != g0 ==> rival;
      DeleteOutdated(p);
      if entries[p].tree == [] {
        DropEntry(p);
      } else {
        Reelect(p, g0, rival);
        assert rival ==> Rival(entries, todo - {p}, p);
      }
    }

    method UpdateEntry(p: Prefix, ghost es: Entries, ghost todo: set<Prefix>, ghost g0: Option<PathId>)
      requires Updating(es, todo, g0) && p in todo
      modifies this
      ensures Updating(es, todo - {p}, g0) && version == old(version)
    {
      assert Stage(c, es, entries, todo, p, version, g0) && EntryOk(c, es, p) && MirrorAt(entries, fib, p);
      ghost var before, fib0, queue0, gateway0 := entries, fib, queue, gateway;
      NotQueued(c, before, queue, todo, p);
      HeldTaken(c, es, before, todo, version, g0, gateway);
      Settle(p, todo, g0);
      HeldStep(before, entries, todo, p, g0, gateway0, gateway);
      MirrorStep(before, entries, fib0, fib, p);
      StageStep(c, es, before, entries, todo, p, version, g0);
      QueueStep(c, before, entries, queue0, queue, todo, p);
    }

    method UpdateRib(ghost g0: Option<PathId>)
      requires EntriesOk(c, entries) && Mirrors(entries, fib) && queue == [] && gateway == g0
      modifies this
      ensures Staged(c, old(entries), entries, {}, version, g0) && Mirrors(entries, fib)
        && Queued(c, entries, queue, {})
      ensures version == old(version) && Held(entries, {}, g0, gateway)
    {
      ghost var es := entries;
      var todo := entries.Keys;
      forall p
        ensures Stage(c, es, entries, todo, p, version, g0)
      {
      }
      while todo != {}
        invariant Updating(es, todo, g0) && version == old(version)
        decreases todo
      {
        var p :| p in todo;
        UpdateEntry(p, es, todo, g0);
        todo := todo - {p};
      }
    }

    // ---- olsr_chg_kernel_routes, with an operating system that never refuses ----

    method InstallRoute(p: Prefix)
      requires p in entries && entries[p].best.Some? && Mirrors(entries, fib)
      modifies this`entries, this`fib
      ensures entries == old(entries)[p := Installed(old(entries)[p])] && Mirrors(entries, fib)
    {
      assert MirrorAt(entries, fib, p);
      ghost var es, fib0 := entries, fib;
      if entries[p].installed.Some? {
        fib := fib - {p};
      }
      fib := fib[p := entries[p].best.value.nexthop];
      entries := entries[p := entries[p].(installed := Some(entries[p].best.value.nexthop),
        hops := entries[p].best.value.hops)];
      MirrorStep(es, entries, fib0, fib, p);
    }

    // Routes are installed in the order of the queue.
    method UpdateKernel() returns (ghost log: seq<Prefix>)
      requires Mirrors(entries, fib) && Queued(c, entries, queue, {})
      modifies this`entries, this`fib, this`queue
      ensures log == old(queue) && InQueueOrder(old(entries), log)
      ensures Mirrors(entries, fib) && queue == [] && SameRoutes(old(entries), entries)
      ensures forall p :: p in entries && entries[p].best.Some? ==> !NeedsChange(c, entries[p])
    {
      log := [];
      while queue != []
        invariant log + queue == old(queue)
        invariant Mirrors(entries, fib) && Queued(c, entries, queue, {}) && SameRoutes(old(entries), entries)
        decreases |queue|
      {
        var p := queue[0];
        assert p in queue && Pending(c, entries, p);
        ghost var es := entries;
        InstallRoute(p);
        DequeueStep(c, es, entries, queue, p);
        log, queue := log + [p], queue[1..];
      }
      forall p | p in entries && entries[p].best.Some?
        ensures !NeedsChange(c, entries[p])
      {
        assert Pending(c, entries, p) ==> p in queue;
      }
    }

    // olsr_calculate_routing_table from the moment the path list is complete: the kernel ends up with a route for
    // exactly the advertised prefixes, each through the next hop of the best path advertised for it.
    method Recompute(nodes: seq<Node>)
      requires Valid() && forall n :: n in nodes ==> n.cost < ROUTE_COST_BROKEN
      modifies this
      ensures Valid() && version == (old(version) + 1) % U32
      ensures forall p :: Routed(c, nodes, entries, fib, version, old(gateway), p)
      ensures Held(entries, {}, old(gateway), gateway)
    {
      ghost var g0 := gateway;
      version := (version + 1) % U32;
      RefreshPaths(nodes);
      ghost var es := entries;
      UpdateRib(g0);
      ghost var now := entries;
      ghost var log := UpdateKernel();
      HeldSame(now, entries, g0, gateway);
      RoutedAll(c, nodes, es, now, entries, fib, version, g0);
    }
  }

  // A prefix of length zero that is in the table and has been refreshed.
  ghost predicate Zero(es: Entries, todo: set<Prefix>, p: Prefix) { p in es && p !in todo && p.len == 0 }

  // The gateway is the elected path of such a prefix, if there is any; otherwise it is as before.
  ghost predicate Held(es: Entries, todo: set<Prefix>, g0: Option<PathId>, gateway: Option<PathId>)
  {
    if exists p :: Zero(es, todo, p)
    then exists p :: Zero(es, todo, p) && es[p].best.Some? && gateway == Some(es[p].best.value.id)
    else gateway == g0
  }

  lemma {:induction false} HeldStep(es: Entries, es': Entries, todo: set<Prefix>, p: Prefix, g0: Option<PathId>,
                                    gateway: Option<PathId>, gateway': Option<PathId>)
    requires Held(es, todo, g0, gateway) && p in todo && SameElsewhere(es, es', p)
      && (p in es' ==> es'[p].best.Some?)
    requires gateway' == if p in es' && p.len == 0 then Some(es'[p].best.value.id) else gateway
    ensures Held(es', todo - {p}, g0, gateway')
  {
    if p in es' && p.len == 0 {
      assert Zero(es', todo - {p}, p);
    } else {
      assert forall q :: Zero(es, todo, q) <==> Zero(es', todo - {p}, q);
      if q :| Zero(es, todo, q) && es[q].best.Some? && gateway == Some(es[q].best.value.id) {
        assert Zero(es', todo - {p}, q);
      }
    }
  }

  lemma {:induction false} HeldSame(es: Entries, es': Entries, g0: Option<PathId>, gateway: Option<PathId>)
    requires Held(es, {}, g0, gateway) && SameRoutes(es, es')
    ensures Held(es', {}, g0, gateway)
  {
    assert forall q :: Zero(es, {}, q) <==> Zero(es', {}, q);
    if q :| Zero(es, {}, q) && es[q].best.Some? && gateway == Some(es[q].best.value.id) {
      assert Zero(es', {}, q);
    }
  }

  lemma {:induction false} HeldTaken(c: Config, es: Entries, now: Entries, todo: set<Prefix>, version: nat,
                                     g0: Option<PathId>, gateway: Option<PathId>)
    requires Held(now, todo, g0, gateway) && EntriesOk(c, es) && Staged(c, es, now, todo, version, g0)
    ensures gateway == g0 || Table.Taken(now, gateway, todo)
  {
    if gateway != g0 {
      var p :| Zero(now, todo, p) && now[p].best.Some? && gateway == Some(now[p].best.value.id);
      assert Stage(c, es, now, todo, p, version, g0) && EntryOk(c, es, p);
      assert now[p].best.value in now[p].tree;
    }
  }

  ghost predicate Stage(c: Config, es: Entries, now: Entries, todo: set<Prefix>, p: Prefix, version: nat,
                        g0: Option<PathId>)
  {
    if p !in es then p !in now
    else if p in todo then p in now && now[p] == es[p]
    else if Current(es[p].tree, version) == [] then p !in now
    else p in now && Refreshed(c, es[p], now[p], p, version, g0, Rival(now, todo, p))
  }

  ghost predicate Staged(c: Config, es: Entries, now: Entries, todo: set<Prefix>, version: nat, g0: Option<PathId>)
  {
    forall p {:trigger Stage(c, es, now, todo, p, version, g0)} :: Stage(c, es, now, todo, p, version, g0)
  }

  ghost predicate SameElsewhere(es: Entries, es': Entries, p: Prefix)
  {
    forall q :: q != p ==> (q in es <==> q in es') && (q in es ==> es[q] == es'[q])
  }

  lemma {:induction false} StageStep(c: Config, es: Entries, now: Entries, now': Entries, todo: set<Prefix>, p: Prefix,
                                     version: nat, g0: Option<PathId>)
    requires p in es && p in todo && Staged(c, es, now, todo, version, g0) && SameElsewhere(now, now', p)
    requires Stage(c, es, now', todo - {p}, p, version, g0)
    ensures Staged(c, es, now', todo - {p}, version, g0)
  {
    forall q
      ensures Stage(c, es, now', todo - {p}, q, version, g0)
    {
      assert Stage(c, es, now, todo, q, version, g0);
      assert Rival(now, todo, q) ==> Rival(now', todo - {p}, q);
    }
  }

  lemma {:induction false} MirrorStep(es: Entries, es': Entries, fib: map<Prefix, NextHop>, fib': map<Prefix, NextHop>,
                                      p: Prefix)
    requires Mirrors(es, fib) && SameElsewhere(es, es', p) && MirrorAt(es', fib', p)
    requires forall q :: q != p ==> (q in fib <==> q in fib') && (q in fib ==> fib[q] == fib'[q])
    ensures Mirrors(es', fib')
  {
    forall q
      ensures MirrorAt(es', fib', q)
    {
      assert MirrorAt(es, fib, q);
    }
  }

  // The entry elected a route that is not the installed one.
  ghost predicate Pending(c: Config, es: Entries, p: Prefix)
  {
    p in es && es[p].best.Some? && NeedsChange(c, es[p])
  }

  // The elected route to p is a route to a next hop itself.
  ghost predicate Host(es: Entries, p: Prefix)
  {
    p in es && es[p].best.Some? && p.addr == es[p].best.value.nexthop.gateway
  }

  ghost predicate InQueueOrder(es: Entries, queue: seq<Prefix>)
  {
    forall i, j {:trigger Ranked(es, queue, i, j)} :: 0 <= i < j < |queue| ==> Ranked(es, queue, i, j)
  }

  ghost predicate Ranked(es: Entries, queue: seq<Prefix>, i: int, j: int)
    requires 0 <= i < j < |queue|
  {
    queue[i] != queue[j] && (Host(es, queue[j]) ==> Host(es, queue[i]))
  }

  // The queue holds the changed entries outside todo, once each, routes to next hops first.
  ghost predicate Queued(c: Config, es: Entries, queue: seq<Prefix>, todo: set<Prefix>)
  {
    InQueueOrder(es, queue) && forall p {:trigger Pending(c, es, p)} :: p in queue <==> p !in todo && Pending(c, es, p)
  }

  lemma {:induction false} NotQueued(c: Config, es: Entries, queue: seq<Prefix>, todo: set<Prefix>, p: Prefix)
    requires Queued(c, es, queue, todo) && p in todo
    ensures p !in queue
  {
    assert Pending(c, es, p) ==> p !in queue;
  }

  ghost function Enqueued(queue: seq<Prefix>, p: Prefix, host: bool): seq<Prefix>
  {
    if host then [p] + queue else queue + [p]
  }

  // A prefix put into the queue keeps routes to next hops first.
  lemma {:induction false} EnqueuedOrder(es: Entries, queue: seq<Prefix>, p: Prefix)
    requires p in es && es[p].best.Some?
    ensures InQueueOrder(es, queue) && p !in queue ==> InQueueOrder(es, Enqueued(queue, p, Host(es, p)))
  {
    var queue', d := Enqueued(queue, p, Host(es, p)), if Host(es, p) then 1 else 0;
    if InQueueOrder(es, queue) && p !in queue {
      forall i, j | 0 <= i < j < |queue'|
        ensures Ranked(es, queue', i, j)
      {
        assert 0 <= i - d && j - d < |queue| ==> Ranked(es, queue, i - d, j - d);
        assert 0 <= i - d < |queue| ==> queue'[i] == queue[i - d];
        assert 0 <= j - d < |queue| ==> queue'[j] == queue[j - d];
      }
    }
  }

  lemma {:induction false} QueueStep(c: Config, es: Entries, es': Entries, queue: seq<Prefix>, queue': seq<Prefix>,
                                     todo: set<Prefix>, p: Prefix)
    requires p in todo && Queued(c, es, queue, todo) && SameElsewhere(es, es', p)
    requires queue' == if Pending(c, es', p) then Enqueued(queue, p, Host(es', p)) else queue
    ensures Queued(c, es', queue', todo - {p})
  {
    NotQueued(c, es, queue, todo, p);
    forall q
      ensures q in queue' <==> q !in todo - {p} && Pending(c, es', q)
    {
      assert q != p ==> (Pending(c, es', q) <==> Pending(c, es, q));
    }
    forall i, j | 0 <= i < j < |queue'|
      ensures Ranked(es', queue', i, j)
    {
      var d := if Pending(c, es', p) && Host(es', p) then 1 else 0;
      assert 0 <= i - d && j - d < |queue| ==> Ranked(es, queue, i - d, j - d);
      assert 0 <= i - d < |queue| ==> queue'[i] == queue[i - d];
      assert 0 <= j - d < |queue| ==> queue'[j] == queue[j - d];
    }
  }

  function Installed(e: Entry): Entry
    requires e.best.Some?
  {
    e.(installed := Some(e.best.value.nexthop), hops := e.best.value.hops)
  }

  ghost predicate SameRoutes(es: Entries, es': Entries)
  {
    es.Keys == es'.Keys && forall p :: p in es ==> es'[p].tree == es[p].tree && es'[p].best == es[p].best
  }

  lemma {:induction false} HeadOnce(es: Entries, queue: seq<Prefix>)
    requires queue != [] && InQueueOrder(es, queue)
    ensures queue[0] !in queue[1..]
  {
    forall i | 0 < i < |queue|
      ensures queue[0] != queue[i]
    {
      assert Ranked(es, queue, 0, i);
    }
  }

  lemma {:induction false} DequeueStep(c: Config, es: Entries, es': Entries, queue: seq<Prefix>, p: Prefix)
    requires queue != [] && p == queue[0] && Queued(c, es, queue, {}) && p in es && es[p].best.Some?
    requires es' == es[p := Installed(es[p])]
    ensures Queued(c, es', queue[1..], {})
  {
    var rest := queue[1..];
    HeadOnce(es, queue);
    forall q
      ensures q in rest <==> Pending(c, es', q)
    {
      assert q in queue <==> Pending(c, es, q);
      assert q in queue <==> q == p || q in rest;
    }
    forall i, j | 0 <= i < j < |rest|
      ensures Ranked(es', rest, i, j)
    {
      assert Ranked(es, queue, i + 1, j + 1);
    }
  }

  // What a recomputation leaves behind for one prefix.
  ghost predicate Routed(c: Config, nodes: seq<Node>, es: Entries, fib: map<Prefix, NextHop>, version: nat,
                         g0: Option<PathId>, p: Prefix)
  {
    && (p in fib <==> exists id :: Advertised(c, nodes, id) && id.dst == p)
    && (p in fib <==> p in es)
    && (p in fib ==>
      && (forall x :: x in es[p].tree ==> FromList(c, nodes, x, version) && x.id.dst == p)
      && (forall id :: Advertised(c, nodes, id) && id.dst == p ==> exists x :: x in es[p].tree && x.id == id)
      && Chosen(c, p, es[p].tree, es[p].best, g0, Rival(es, {}, p)) && fib[p] == es[p].best.value.nexthop
      && (c.exactMetric ==> es[p].hops == es[p].best.value.hops))
  }

  lemma {:induction false} RoutedOne(c: Config, nodes: seq<Node>, es: Entries, now: Entries, fib: map<Prefix, NextHop>,
                                     version: nat, g0: Option<PathId>, p: Prefix)
    requires Tracks(es, Wanted(c, nodes, version), version) && (p in es ==> EntryOk(c, es, p)) && MirrorAt(now, fib, p)
    requires p in now <==> p in es && Current(es[p].tree, version) != []
    requires p in now ==>
      now[p].tree == Current(es[p].tree, version) && Chosen(c, p, now[p].tree, now[p].best, g0, Rival(now, {}, p))
      && !NeedsChange(c, now[p])
    ensures Routed(c, nodes, now, fib, version, g0, p)
      && (p in now ==> EntryOk(c, now, p) && forall x :: x in now[p].tree ==> x.version == version)
  {
    var w := Wanted(c, nodes, version);
    forall id
      ensures id in w <==> Advertised(c, nodes, id)
      ensures id in w ==> FromList(c, nodes, w[id], version)
    {
      WantedMeans(c, nodes, version, id);
    }
    if p in now {
      CurrentDistinct(es[p].tree, version);
      var x := now[p].tree[0];
      assert x in now[p].tree;
    }
    forall id | Advertised(c, nodes, id) && id.dst == p
      ensures p in now && w[id] in now[p].tree
    {
      assert w[id] in Current(es[p].tree, version);
    }
  }

  lemma {:induction false} RoutedAll(c: Config, nodes: seq<Node>, es: Entries, now: Entries, now': Entries,
                                     fib: map<Prefix, NextHop>, version: nat, g0: Option<PathId>)
    requires EntriesOk(c, es) && Tracks(es, Wanted(c, nodes, version), version) && Staged(c, es, now, {}, version, g0)
    requires SameRoutes(now, now') && Mirrors(now', fib)
      && forall p :: p in now' && now'[p].best.Some? ==> !NeedsChange(c, now'[p])
    ensures EntriesOk(c, now') && forall p :: Routed(c, nodes, now', fib, version, g0, p)
    ensures forall p, x :: p in now' && x in now'[p].tree ==> x.version == version
  {
    forall p
      ensures Routed(c, nodes, now', fib, version, g0, p)
      ensures p in now' ==> EntryOk(c, now', p) && forall x :: x in now'[p].tree ==> x.version == version
    {
      assert Stage(c, es, now, {}, p, version, g0) && MirrorAt(now', fib, p) && (p in es ==> EntryOk(c, es, p));
      assert Rival(now, {}, p) <==> Rival(now', {}, p);
      RoutedOne(c, nodes, es, now', fib, version, g0, p);
    }
  }

  lemma {:induction false} NoLink(c: Config, w: map<PathId, Path>, n: Node, s: seq<Advert>, version: nat)
    requires n.link == None
    ensures AddAdverts(c, w, n, s, version) == w
  {
    if s != [] {
      NoLink(c, w, n, s[..|s| - 1], version);
    }
  }
}
