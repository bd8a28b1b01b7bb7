/** Best-path election among the paths to one prefix, with the NAT threshold that favours the current internet
    gateway (src/routing_table.c). */
module Election {
  import opened Basics

  const SMALL_COST: nat := 0x7fff_ffff / 1000
  const U32: nat := 0x1_0000_0000

  datatype Prefix = Prefix(addr: Address, len: nat)

  datatype NextHop = NextHop(gateway: Address, iface: nat)

  // Which object a path is: the prefix, the advertising router and the kind of advertisement.
  datatype PathId = PathId(dst: Prefix, originator: Address, origin: nat)

  datatype Path = Path(id: PathId, cost: nat, hops: nat, nexthop: NextHop, version: nat)

  // The cost a path competes with: scaled down if it is the current gateway.
  function Scaled(cost: nat, threshold: nat): nat
  {
    if cost < SMALL_COST then cost * threshold / 1000 else cost / 1000 * threshold
  }

  function Metric(p: Path, gw: Option<PathId>, threshold: nat): nat
  {
    if gw == Some(p.id) then Scaled(p.cost, threshold) else p.cost
  }

  // olsr_cmp_rtp for two paths that both exist
  predicate Better(a: Path, b: Path, gw: Option<PathId>, threshold: nat)
  {
    var etx1, etx2 := Metric(a, gw, threshold), Metric(b, gw, threshold);
    if etx1 < etx2 then true
    else if etx1 > etx2 then false
    else if a.hops < b.hops then true
    else if a.hops > b.hops then false
    else if a.id.origin < b.id.origin then true
    else if a.id.origin > b.id.origin then false
    else a.id.originator != b.id.originator
  }

  // No admitted threshold lets the scaling overflow or raise a cost.
  lemma ScaledFits(cost: nat, threshold: nat)
    requires cost < U32 && 100 <= threshold <= 1000
    ensures Scaled(cost, threshold) <= cost
    ensures cost < SMALL_COST ==> cost * threshold < U32
    ensures cost >= SMALL_COST ==> cost / 1000 * threshold < U32
  {
    if cost < SMALL_COST {
      assert cost * threshold <= cost * 1000;
    } else {
      assert cost / 1000 * threshold <= cost / 1000 * 1000;
    }
  }

  // How far the scaled cost may fall short of cost * threshold / 1000, in thousandths: large costs are divided first.
  function Slack(cost: nat, threshold: nat): nat { if cost < 2_147_483 then 1000 else 1000 * threshold }

  // The scaled cost is cost * threshold / 1000, rounded down.
  lemma ScaledMeans(cost: nat, threshold: nat)
    requires 100 <= threshold <= 1000
    ensures 1000 * Scaled(cost, threshold) <= cost * threshold < 1000 * Scaled(cost, threshold) + Slack(cost, threshold)
  {
    if cost >= SMALL_COST {
      var q := cost / 1000;
      MulLess(1000 * q, cost, threshold);
      MulLess(cost + 1, 1000 * q + 1000, threshold);
      assert 1000 * (q * threshold) == 1000 * q * threshold;
      assert (1000 * q + 1000) * threshold == 1000 * q * threshold + 1000 * threshold;
    }
  }

  lemma MulLess(a: nat, b: nat, c: nat)
    requires a <= b
    ensures a * c <= b * c
  {
  }

  // The key (scaled cost, hops, origin), compared lexicographically.
  ghost predicate KeyLess(a: Path, b: Path, gw: Option<PathId>, threshold: nat)
  {
    var m, n := Metric(a, gw, threshold), Metric(b, gw, threshold);
    m < n || (m == n && (a.hops < b.hops || (a.hops == b.hops && a.id.origin < b.id.origin)))
  }

  // Paths of one entry differ in originator or origin.
  ghost predicate Distinct(tree: seq<Path>)
  {
    tree == [] || (Alone(tree[0], tree[1..]) && Distinct(tree[1..]))
  }

  // No path in the tree is x's object; all have x's prefix.
  ghost predicate Alone(x: Path, tree: seq<Path>)
  {
    forall y :: y in tree ==> y.id != x.id && y.id.dst == x.id.dst
  }

  lemma {:induction false} DistinctMeans(tree: seq<Path>)
    ensures Distinct(tree) <==>
      forall i, j :: 0 <= i < j < |tree| ==> tree[i].id != tree[j].id && tree[i].id.dst == tree[j].id.dst
  {
    if tree != [] {
      var rest := tree[1..];
      DistinctMeans(rest);
      assert forall i :: 0 < i < |tree| ==> tree[i] == rest[i - 1];
      if forall i, j :: 0 <= i < j < |tree| ==> tree[i].id != tree[j].id && tree[i].id.dst == tree[j].id.dst {
        forall y | y in rest
          ensures y.id != tree[0].id && y.id.dst == tree[0].id.dst
        {
          var i :| 0 <= i < |rest| && rest[i] == y;
          assert tree[i + 1] == y;
        }
        forall i, j | 0 <= i < j < |rest|
          ensures rest[i].id != rest[j].id && rest[i].id.dst == rest[j].id.dst
        {
          assert rest[i] == tree[i + 1] && rest[j] == tree[j + 1];
        }
      }
    }
  }

  // The paths of a walk that end up as the best one: every path no worse than the last choice takes over.
  function Elect(tree: seq<Path>, best: Option<Path>, gw: Option<PathId>, threshold: nat): Option<Path>
  {
    if tree == [] then best
    else if best == None || Better(tree[0], best.value, gw, threshold)
    then Elect(tree[1..], Some(tree[0]), gw, threshold)
    else Elect(tree[1..], best, gw, threshold)
  }

  // k is the index of the last path whose key no other path beats.
  ghost predicate LastMinimal(tree: seq<Path>, k: int, gw: Option<PathId>, threshold: nat)
  {
    && 0 <= k < |tree|
    && (forall i :: 0 <= i < |tree| ==> !KeyLess(tree[i], tree[k], gw, threshold))
    && (forall i :: k < i < |tree| ==> KeyLess(tree[k], tree[i], gw, threshold))
  }

  // Between two different paths to one prefix the comparison is the key order, ties going to the newcomer.
  lemma BetterIs(a: Path, b: Path, gw: Option<PathId>, threshold: nat)
    requires a.id != b.id && a.id.dst == b.id.dst
    ensures Better(a, b, gw, threshold) <==> !KeyLess(b, a, gw, threshold)
  {
  }

  lemma {:induction false} DistinctAt(tree: seq<Path>, i: nat, j: nat)
    requires Distinct(tree) && i < j < |tree|
    ensures tree[i].id != tree[j].id && tree[i].id.dst == tree[j].id.dst
  {
    if i == 0 {
      assert tree[j] == tree[1..][j - 1];
    } else {
      DistinctAt(tree[1..], i - 1, j - 1);
    }
  }

  // k is the last minimal path among the first n.
  ghost predicate Leads(tree: seq<Path>, k: int, n: int, gw: Option<PathId>, threshold: nat)
  {
    0 <= k < n <= |tree|
      && forall i {:trigger Rank(tree, k, i, gw, threshold)} :: 0 <= i < n ==> Rank(tree, k, i, gw, threshold)
  }

  ghost predicate Rank(tree: seq<Path>, k: int, i: int, gw: Option<PathId>, threshold: nat)
    requires 0 <= k < |tree| && 0 <= i < |tree|
  {
    !KeyLess(tree[i], tree[k], gw, threshold) && (k < i ==> KeyLess(tree[k], tree[i], gw, threshold))
  }

  lemma {:induction false} LeadsOn(tree: seq<Path>, k: int, n: int, gw: Option<PathId>, threshold: nat)
    requires Distinct(tree) && n < |tree| && Leads(tree, k, n, gw, threshold)
    ensures Leads(tree, if Better(tree[n], tree[k], gw, threshold) then n else k, n + 1, gw, threshold)
  {
    DistinctAt(tree, k, n);
    BetterIs(tree[n], tree[k], gw, threshold);
    var m := if Better(tree[n], tree[k], gw, threshold) then n else k;
    forall i | 0 <= i < n + 1
      ensures Rank(tree, m, i, gw, threshold)
    {
      if i < n {
        assert Rank(tree, k, i, gw, threshold);
      }
    }
  }

  lemma {:induction false} LeadsAll(tree: seq<Path>, k: int, gw: Option<PathId>, threshold: nat)
    requires Leads(tree, k, |tree|, gw, threshold)
    ensures LastMinimal(tree, k, gw, threshold)
  {
    forall i | 0 <= i < |tree|
      ensures !KeyLess(tree[i], tree[k], gw, threshold) && (k < i ==> KeyLess(tree[k], tree[i], gw, threshold))
    {
      assert Rank(tree, k, i, gw, threshold);
    }
  }

  lemma {:induction false} ElectStep(tree: seq<Path>, best: Path, n: nat, gw: Option<PathId>, threshold: nat)
    requires n < |tree|
    ensures Elect(tree[n..], Some(best), gw, threshold)
         == Elect(tree[n + 1..], Some(if Better(tree[n], best, gw, threshold) then tree[n] else best), gw, threshold)
  {
    assert tree[n..][0] == tree[n] && tree[n..][1..] == tree[n + 1..];
  }

  lemma {:induction false} ElectFrom(tree: seq<Path>, k: int, n: nat, gw: Option<PathId>,
                                     threshold: nat) returns (m: int)
    requires Distinct(tree) && Leads(tree, k, n, gw, threshold)
    ensures LastMinimal(tree, m, gw, threshold) && Elect(tree[n..], Some(tree[k]), gw, threshold) == Some(tree[m])
    decreases |tree| - n
  {
    if n == |tree| {
      LeadsAll(tree, k, gw, threshold);
      m := k;
    } else {
      ElectStep(tree, tree[k], n, gw, threshold);
      LeadsOn(tree, k, n, gw, threshold);
      m := ElectFrom(tree, if Better(tree[n], tree[k], gw, threshold) then n else k, n + 1, gw, threshold);
    }
  }

  // From a cleared best pointer the election picks the last path with a minimal key.
  lemma {:induction false} ElectMinimal(tree: seq<Path>, gw: Option<PathId>, threshold: nat)
    requires Distinct(tree) && tree != []
    ensures exists m :: LastMinimal(tree, m, gw, threshold) && Elect(tree, None, gw, threshold) == Some(tree[m])
  {
    assert Rank(tree, 0, 0, gw, threshold);
    var m := ElectFrom(tree, 0, 1, gw, threshold);
  }

  // The current gateway stays if every other path is dearer than cost * threshold / 1000; a path that is cheaper than
  // that by more than the rounding takes its place; and one that takes its place is not dearer.
  lemma {:induction false} GatewayDisplaced(tree: seq<Path>, g: nat, threshold: nat)
    requires Distinct(tree) && g < |tree| && 100 <= threshold <= 1000 && tree[g].cost < U32
    ensures var e, kept := Elect(tree, None, Some(tree[g].id), threshold), tree[g].cost * threshold;
      && e.Some? && (e == Some(tree[g]) || 1000 * e.value.cost <= kept)
      && ((forall i :: 0 <= i < |tree| && i != g ==> 1000 * tree[i].cost > kept) ==> e == Some(tree[g]))
      && ((exists i :: 0 <= i < |tree| && i != g && 1000 * tree[i].cost + Slack(tree[g].cost, threshold) <= kept) ==>
        e.value.id != tree[g].id)
  {
    var gw := Some(tree[g].id);
    ElectMinimal(tree, gw, threshold);
    ScaledMeans(tree[g].cost, threshold);
    var m :| LastMinimal(tree, m, gw, threshold) && Elect(tree, None, gw, threshold) == Some(tree[m]);
    assert !KeyLess(tree[g], tree[m], gw, threshold);
    if m != g {
      Apart(tree, m, g);
    }
    var kept, slack := tree[g].cost * threshold, Slack(tree[g].cost, threshold);
    if i :| 0 <= i < |tree| && i != g && 1000 * tree[i].cost + slack <= kept {
      Apart(tree, i, g);
      assert !KeyLess(tree[i], tree[m], gw, threshold);
    }
  }

  lemma {:induction false} Apart(tree: seq<Path>, i: nat, j: nat)
    requires Distinct(tree) && i < |tree| && j < |tree| && i != j
    ensures tree[i].id != tree[j].id && tree[i].id.dst == tree[j].id.dst
  {
    DistinctAt(tree, if i < j then i else j, if i < j then j else i);
  }

  // Once elected, a gateway is elected again as long as the paths are the same: routes do not flap.
  lemma {:induction false} ElectedAgain(tree: seq<Path>, gw: Option<PathId>, threshold: nat)
    requires Distinct(tree) && tree != [] && 100 <= threshold <= 1000 && forall p :: p in tree ==> p.cost < U32
    ensures var e := Elect(tree, None, gw, threshold); e.Some? && Elect(tree, None, Some(e.value.id), threshold) == e
  {
    ElectMinimal(tree, gw, threshold);
    var m :| LastMinimal(tree, m, gw, threshold) && Elect(tree, None, gw, threshold) == Some(tree[m]);
    var again := Some(tree[m].id);
    ElectMinimal(tree, again, threshold);
    var k :| LastMinimal(tree, k, again, threshold) && Elect(tree, None, again, threshold) == Some(tree[k]);
    if k != m {
      Apart(tree, k, m);
      assert tree[m] in tree && tree[k] in tree;
      ScaledFits(tree[m].cost, threshold);
      ScaledFits(tree[k].cost, threshold);
      assert !KeyLess(tree[m], tree[k], again, threshold) && !KeyLess(tree[k], tree[m], gw, threshold);
    }
  }

  // A gateway of another prefix has no say.
  lemma {:induction false} OtherGateway(tree: seq<Path>, best: Option<Path>, gw: Option<PathId>, threshold: nat)
    requires forall p :: p in tree ==> gw != Some(p.id)
    requires best.Some? ==> gw != Some(best.value.id)
    ensures Elect(tree, best, gw, threshold) == Elect(tree, best, None, threshold)
  {
    if tree != [] {
      assert tree[0] in tree && forall p :: p in tree[1..] ==> p in tree;
      OtherGateway(tree[1..], Some(tree[0]), gw, threshold);
      OtherGateway(tree[1..], best, gw, threshold);
    }
  }

  // The last tie-break holds both ways, so the comparison is not a strict order.
  lemma TieBreakBothWays(a: Path, b: Path, gw: Option<PathId>, threshold: nat)
    ensures Better(a, b, gw, threshold) && Better(b, a, gw, threshold) <==>
      && Metric(a, gw, threshold) == Metric(b, gw, threshold) && a.hops == b.hops && a.id.origin == b.id.origin
      && a.id.originator != b.id.originator
  {
  }

  // Deleting the best path re-elects with the deleted path still in place: it stays best exactly when nothing beats it.
  lemma {:induction false} StaleBest(tree: seq<Path>, gone: Path, gw: Option<PathId>, threshold: nat)
    requires gone !in tree
    ensures Elect(tree, Some(gone), gw, threshold) == Some(gone) <==>
      forall p :: p in tree ==> !Better(p, gone, gw, threshold)
  {
    if tree != [] {
      assert forall p :: p in tree <==> p == tree[0] || p in tree[1..];
      if Better(tree[0], gone, gw, threshold) {
        ElectFromTree(tree[1..], tree[0], gw, threshold);
      } else {
        StaleBest(tree[1..], gone, gw, threshold);
      }
    }
  }

  lemma {:induction false} ElectFromTree(tree: seq<Path>, best: Path, gw: Option<PathId>, threshold: nat)
    ensures Elect(tree, Some(best), gw, threshold).Some?
    ensures var e := Elect(tree, Some(best), gw, threshold).value; e == best || e in tree
  {
    if tree != [] {
      ElectFromTree(tree[1..], tree[0], gw, threshold);
      ElectFromTree(tree[1..], best, gw, threshold);
    }
  }

  lemma StaleBestHappens()
    ensures var dst, x, y := Prefix([10, 0, 0, 9], 32), [10, 0, 0, 1], [10, 0, 0, 2];
      var far, near := Path(PathId(dst, x, 1), 20, 2, NextHop(x, 0), 0),
        Path(PathId(dst, y, 1), 10, 1, NextHop(y, 0), 0);
      Elect([far], Some(near), None, 1000) == Some(near) && near !in [far]
  {
  }
}
