/** Multipoint relay selection (src/lq_mpr.c): for every 2-hop neighbour the cheapest connecting neighbours, as many as
    the configured coverage asks for. */
module Mpr {
  import opened Basics

  const WILL_ALWAYS: nat := 7

  datatype Nbr = Nbr(sym: bool, will: nat, mpr: bool, was: bool, skip: bool)

  // A connection of a neighbour to a 2-hop neighbour: the cost of its link to it and of the path through it.
  datatype Con = Con(nbr: Address, second: nat, path: nat)

  // A link to a neighbour; sym says whether its symmetry timer runs.
  datatype Link = Link(nbr: Address, cost: nat, sym: bool)

  type Nbrs = map<Address, Nbr>

  // ---- the best link to a neighbour ----

  predicate Usable(l: Link, nbr: Address) { l.nbr == nbr && l.sym && l.cost < LINK_COST_BROKEN }

  // get_best_link_to_neighbor
  method BestLink(links: seq<Link>, nbr: Address) returns (best: Option<Link>)
    ensures best == None <==> forall l :: l in links ==> !Usable(l, nbr)
    ensures best.Some? ==>
      best.value in links && Usable(best.value, nbr)
      && forall l :: l in links && Usable(l, nbr) ==> best.value.cost <= l.cost
  {
    var cost := LINK_COST_BROKEN;
    best := None;
    for i := 0 to |links|
      invariant best == None ==> cost == LINK_COST_BROKEN && forall l :: l in links[..i] ==> !Usable(l, nbr)
      invariant best.Some? ==> best.value in links[..i] && Usable(best.value, nbr) && cost == best.value.cost
      invariant forall l :: l in links[..i] && Usable(l, nbr) ==> cost <= l.cost
    {
      assert forall l :: l in links[..i + 1] <==> l in links[..i] || l == links[i];
      if links[i].nbr != nbr || !links[i].sym {
        continue;
      }
      if links[i].cost < cost {
        cost := links[i].cost;
        best := Some(links[i]);
      }
    }
    assert links[..|links|] == links;
  }

  // ---- selection for one 2-hop neighbour ----

  // The connectors of one 2-hop neighbour are known neighbours, each at most once.
  ghost predicate ConsOk(ns: Nbrs, cons: seq<Con>)
  {
    && (forall i :: 0 <= i < |cons| ==> cons[i].nbr in ns)
    && (forall i, j {:trigger Differ(cons, i, j)} :: 0 <= i < j < |cons| ==> Differ(cons, i, j))
  }

  ghost predicate Differ(cons: seq<Con>, i: int, j: int)
    requires 0 <= i < |cons| && 0 <= j < |cons|
  {
    cons[i].nbr != cons[j].nbr
  }

  // A connector that can be a relay: symmetric, with a working second hop, cheaper than the direct link.
  predicate Eligible(ns: Nbrs, cons: seq<Con>, direct: nat, i: int)
  {
    0 <= i < |cons| && cons[i].nbr in ns && ns[cons[i].nbr].sym && cons[i].second < LINK_COST_BROKEN
      && cons[i].path < direct
  }

  ghost function EligibleSet(ns: Nbrs, cons: seq<Con>, direct: nat): set<int>
  {
    set i | 0 <= i < |cons| && Eligible(ns, cons, direct, i)
  }

  // The chosen connectors are eligible and none left out is cheaper than one of them.
  ghost predicate Cheapest(ns: Nbrs, cons: seq<Con>, direct: nat, chosen: set<int>)
  {
    && (forall i :: i in chosen ==> Eligible(ns, cons, direct, i))
    && (forall i, j {:trigger NoWorse(cons, i, j)} ::
      i in chosen && Eligible(ns, cons, direct, j) && j !in chosen ==> NoWorse(cons, i, j))
  }

  ghost predicate NoWorse(cons: seq<Con>, i: int, j: int)
  {
    0 <= i < |cons| && 0 <= j < |cons| && cons[i].path <= cons[j].path
  }

  // The loop over the connectors for the best one not yet chosen.
  method Best(ns: Nbrs, cons: seq<Con>, direct: nat) returns (found: Option<int>)
    requires ConsOk(ns, cons)
    ensures found == None <==> forall j :: Eligible(ns, cons, direct, j) ==> ns[cons[j].nbr].skip
    ensures found.Some? ==> Eligible(ns, cons, direct, found.value) && !ns[cons[found.value].nbr].skip
    ensures found.Some? ==>
      forall j :: Eligible(ns, cons, direct, j) && !ns[cons[j].nbr].skip ==> NoWorse(cons, found.value, j)
  {
    var best := direct;
    found := None;
    for i := 0 to |cons|
      invariant found == None ==>
        best == direct && forall j :: 0 <= j < i && Eligible(ns, cons, direct, j) ==> ns[cons[j].nbr].skip
      invariant found.Some? ==>
        0 <= found.value < i && Eligible(ns, cons, direct, found.value) && !ns[cons[found.value].nbr].skip
      invariant found.Some? ==> best == cons[found.value].path
      invariant forall j ::
        0 <= j < i && Eligible(ns, cons, direct, j) && !ns[cons[j].nbr].skip ==> best <= cons[j].path
    {
      var n := ns[cons[i].nbr];
      if n.sym && !n.skip && cons[i].second < LINK_COST_BROKEN && cons[i].path < best {
        found, best := Some(i), cons[i].path;
      }
    }
  }

  // ---- the whole calculation ----

  function Min(a: nat, b: nat): nat { if a < b then a else b }

  // What is selected for one 2-hop neighbour: as many of the cheapest eligible connectors as the coverage asks for.
  ghost predicate Selected(ns: Nbrs, cons: seq<Con>, direct: nat, coverage: nat, chosen: set<int>)
  {
    Cheapest(ns, cons, direct, chosen) && |chosen| == Min(coverage, |EligibleSet(ns, cons, direct)|)
  }

  // The same neighbours, with at most their relay and scratch flags changed.
  ghost predicate SameNbrs(ns: Nbrs, ns': Nbrs)
  {
    ns.Keys == ns'.Keys
      && forall a :: a in ns ==> ns'[a].sym == ns[a].sym && ns'[a].will == ns[a].will && ns'[a].was == ns[a].was
  }

  ghost predicate Uses(cons: seq<Con>, chosen: set<int>, a: Address)
  {
    exists i :: i in chosen && 0 <= i < |cons| && cons[i].nbr == a
  }

  // The scratch flags mark the chosen connectors.
  ghost predicate Marks(ns: Nbrs, cons: seq<Con>, chosen: set<int>)
  {
    forall i :: 0 <= i < |cons| && cons[i].nbr in ns ==> (ns[cons[i].nbr].skip <==> i in chosen)
  }

  // Relays are those of before and the chosen ones.
  ghost predicate Adds(ns0: Nbrs, ns: Nbrs, cons: seq<Con>, chosen: set<int>)
  {
    forall a :: a in ns && a in ns0 ==> (ns[a].mpr <==> ns0[a].mpr || Uses(cons, chosen, a))
  }

  lemma {:induction false} EligibleSame(ns: Nbrs, ns': Nbrs, cons: seq<Con>, direct: nat)
    requires SameNbrs(ns, ns')
    ensures EligibleSet(ns, cons, direct) == EligibleSet(ns', cons, direct)
    ensures forall j :: Eligible(ns, cons, direct, j) <==> Eligible(ns', cons, direct, j)
  {
  }

  // One more connector chosen.
  lemma {:induction false} ChooseStep(ns0: Nbrs, ns: Nbrs, cons: seq<Con>, direct: nat, chosen: set<int>, i: int)
    requires ConsOk(ns0, cons) && SameNbrs(ns0, ns) && Marks(ns, cons, chosen) && Adds(ns0, ns, cons, chosen)
      && Cheapest(ns0, cons, direct, chosen)
    requires Eligible(ns0, cons, direct, i) && i !in chosen
    requires forall j :: Eligible(ns0, cons, direct, j) && j !in chosen ==> NoWorse(cons, i, j)
    ensures var a := cons[i].nbr; var ns' := ns[a := ns[a].(mpr := true, skip := true)];
      && SameNbrs(ns0, ns') && Marks(ns', cons, chosen + {i}) && Adds(ns0, ns', cons, chosen + {i})
    ensures Cheapest(ns0, cons, direct, chosen + {i})
  {
    var a := cons[i].nbr;
    var ns' := ns[a := ns[a].(mpr := true, skip := true)];
    forall j | 0 <= j < |cons| && cons[j].nbr in ns'
      ensures ns'[cons[j].nbr].skip <==> j in chosen + {i}
    {
      assert j < i ==> Differ(cons, j, i);
      assert i < j ==> Differ(cons, i, j);
    }
    forall b | b in ns'
      ensures Uses(cons, chosen + {i}, b) <==> Uses(cons, chosen, b) || b == a
    {
      if b == a {
        assert i in chosen + {i} && cons[i].nbr == b;
      }
    }
    forall x, j | x in chosen + {i} && Eligible(ns0, cons, direct, j) && j !in chosen + {i}
      ensures NoWorse(cons, x, j)
    {
      assert x in chosen ==> NoWorse(cons, x, j);
    }
  }

  lemma {:induction false} ChosenFits(ns: Nbrs, cons: seq<Con>, direct: nat, chosen: set<int>)
    requires forall i :: i in chosen ==> Eligible(ns, cons, direct, i)
    ensures |chosen| <= |EligibleSet(ns, cons, direct)|
    ensures (forall j :: Eligible(ns, cons, direct, j) ==> j in chosen) ==> |chosen| == |EligibleSet(ns, cons, direct)|
  {
    var all := EligibleSet(ns, cons, direct);
    assert chosen <= all;
    SubsetSize(chosen, all);
    if forall j :: Eligible(ns, cons, direct, j) ==> j in chosen {
      assert chosen == all;
    }
  }

  lemma {:induction false} SubsetSize<T>(s: set<T>, t: set<T>)
    requires s <= t
    ensures |s| <= |t|
  {
    if s != {} {
      var x :| x in s;
      SubsetSize(s - {x}, t - {x});
    }
  }

  class Neighborhood {
    const coverage: nat
    const links: seq<Link>
    // the 2-hop neighbours and their connectors
    const cons: map<Address, seq<Con>>
    var nbrs: Nbrs

    ghost predicate Valid()
      reads this
    {
      forall n :: n in cons ==> ConsOk(nbrs, cons[n])
    }

    constructor (coverage: nat, links: seq<Link>, cons: map<Address, seq<Con>>, nbrs: Nbrs)
      requires forall n :: n in cons ==> ConsOk(nbrs, cons[n])
      ensures Valid() && this.coverage == coverage && this.links == links && this.cons == cons && this.nbrs == nbrs
    {
      this.coverage, this.links, this.cons, this.nbrs := coverage, links, cons, nbrs;
    }

    // The scratch flags of the connectors are cleared.
    method Unmark(cs: seq<Con>)
      requires ConsOk(nbrs, cs)
      modifies this`nbrs
      ensures SameNbrs(old(nbrs), nbrs) && Marks(nbrs, cs, {}) && Adds(old(nbrs), nbrs, cs, {})
    {
      for i := 0 to |cs|
        invariant SameNbrs(old(nbrs), nbrs) && Adds(old(nbrs), nbrs, cs, {})
        invariant forall j :: 0 <= j < i ==> cs[j].nbr in nbrs && !nbrs[cs[j].nbr].skip
      {
        nbrs := nbrs[cs[i].nbr := nbrs[cs[i].nbr].(skip := false)];
      }
    }

    // The selection of relays for one 2-hop neighbour that costs direct to reach directly.
    method Select(cs: seq<Con>, direct: nat) returns (ghost chosen: set<int>)
      requires ConsOk(nbrs, cs)
      modifies this`nbrs
      ensures SameNbrs(old(nbrs), nbrs) && Adds(old(nbrs), nbrs, cs, chosen)
        && Selected(old(nbrs), cs, direct, coverage, chosen)
    {
      ghost var ns := nbrs;
      Unmark(cs);
      chosen := {};
      var k := 0;
      while k < coverage
        invariant k <= coverage && |chosen| == k
        invariant SameNbrs(ns, nbrs) && Marks(nbrs, cs, chosen) && Adds(ns, nbrs, cs, chosen)
          && Cheapest(ns, cs, direct, chosen)
      {
        EligibleSame(ns, nbrs, cs, direct);
        var found := Best(nbrs, cs, direct);
        if found == None {
          ChosenFits(ns, cs, direct, chosen);
          return;
        }
        var i := found.value;
        ChooseStep(ns, nbrs, cs, direct, chosen, i);
        nbrs := nbrs[cs[i].nbr := nbrs[cs[i].nbr].(mpr := true, skip := true)];
        chosen := chosen + {i};
        k := k + 1;
      }
      ChosenFits(ns, cs, direct, chosen);
    }

    // The first pass: every symmetric neighbour that is not always willing becomes a relay.
    method FirstPass()
      modifies this`nbrs
      ensures SameNbrs(old(nbrs), nbrs) && forall a :: a in nbrs ==> (nbrs[a].mpr <==> Preset(nbrs[a]))
    {
      var todo := nbrs.Keys;
      while todo != {}
        invariant SameNbrs(old(nbrs), nbrs) && todo <= nbrs.Keys
        invariant forall a :: a in nbrs && a !in todo ==> (nbrs[a].mpr <==> Preset(nbrs[a]))
        decreases todo
      {
        var a :| a in todo;
        var n := nbrs[a].(mpr := false);
        if n.sym && n.will != WILL_ALWAYS {
          n := n.(mpr := true);
        }
        nbrs := nbrs[a := n];
        todo := todo - {a};
      }
    }

    // The loop body for one 2-hop neighbour.
    method CoverOne(n: Address) returns (ghost choice: Option<Choice>)
      requires n in cons && ConsOk(nbrs, cons[n])
      modifies this`nbrs
      ensures SameNbrs(old(nbrs), nbrs) && ChoiceOk(old(nbrs), links, n, cons[n], coverage, choice)
      ensures forall a :: a in nbrs ==> (nbrs[a].mpr <==> old(nbrs)[a].mpr || Taken(cons[n], choice, a))
    {
      var direct := ROUTE_COST_BROKEN;
      choice := None;
      if n in nbrs && nbrs[n].sym {
        var best := BestLink(links, n);
        if best == None {
          return;
        }
        direct := best.value.cost;
      }
      var better := false;
      for i := 0 to |cons[n]|
        invariant !better && forall j :: 0 <= j < i ==> cons[n][j].path >= direct
        invariant nbrs == old(nbrs)
      {
        if cons[n][i].path < direct {
          better := true;
          break;
        }
      }
      if !better {
        NothingEligible(nbrs, cons[n], direct);
        choice := Some(Choice(direct, {}));
        return;
      }
      ghost var chosen := Select(cons[n], direct);
      choice := Some(Choice(direct, chosen));
    }

    // olsr_calculate_lq_mpr2
    method Calculate() returns (ghost choices: map<Address, Option<Choice>>)
      requires Valid()
      modifies this`nbrs
      ensures Valid() && SameNbrs(old(nbrs), nbrs) && choices.Keys == cons.Keys
      ensures forall n :: n in cons ==> ChoiceOk(old(nbrs), links, n, cons[n], coverage, choices[n])
      ensures forall a :: a in nbrs ==>
        (nbrs[a].mpr <==>
          (nbrs[a].sym && nbrs[a].will != 7) || exists n :: n in choices && Taken(cons[n], choices[n], a))
      ensures forall a :: a in nbrs && nbrs[a].mpr ==> nbrs[a].sym
    {
      ghost var ns := nbrs;
      FirstPass();
      choices := map[];
      var todo := cons.Keys;
      while todo != {}
        invariant Valid() && SameNbrs(ns, nbrs) && todo <= cons.Keys && choices.Keys == cons.Keys - todo
        invariant forall n :: n in choices ==> ChoiceOk(ns, links, n, cons[n], coverage, choices[n])
        invariant Relays(nbrs, cons, choices)
        decreases todo
      {
        var n :| n in todo;
        ghost var before := nbrs;
        ghost var choice := CoverOne(n);
        ChoiceSame(ns, before, links, n, cons[n], coverage, choice);
        RelaysStep(before, nbrs, cons, choices, n, choice);
        choices := choices[n := choice];
        todo := todo - {n};
      }
      forall a | a in nbrs && nbrs[a].mpr
        ensures nbrs[a].sym
      {
        if !Preset(nbrs[a]) {
          var n :| n in choices && Taken(cons[n], choices[n], a);
          TakenSym(ns, links, n, cons[n], coverage, choices[n], a);
        }
      }
    }
  }

  // The neighbours of the first pass.
  predicate Preset(n: Nbr) { n.sym && n.will != WILL_ALWAYS }

  // It is meant for those that are always willing, and is right for a neighbour exactly if that is not symmetric.
  lemma PresetMeant(n: Nbr)
    ensures (Preset(n) <==> n.sym && n.will == 7) <==> !n.sym
    ensures !Preset(Nbr(true, 7, false, false, false)) && Preset(Nbr(true, 3, false, false, false))
  {
  }

  // The cost of the direct way to a 2-hop neighbour and the connectors chosen for it.
  datatype Choice = Choice(direct: nat, chosen: set<int>)

  // A symmetric neighbour costs what its best link costs, any other is as good as unreachable.
  ghost predicate Direct(ns: Nbrs, links: seq<Link>, n: Address, direct: nat)
  {
    if n in ns && ns[n].sym
    then exists l ::
      l in links && Usable(l, n) && l.cost == direct && forall m :: m in links && Usable(m, n) ==> direct <= m.cost
    else direct == ROUTE_COST_BROKEN
  }

  // No choice is made exactly for a symmetric neighbour without a usable link.
  ghost predicate ChoiceOk(ns: Nbrs, links: seq<Link>, n: Address, cs: seq<Con>, coverage: nat, choice: Option<Choice>)
  {
    match choice
    case None => n in ns && ns[n].sym && forall l :: l in links ==> !Usable(l, n)
    case Some(c) => Direct(ns, links, n, c.direct) && Selected(ns, cs, c.direct, coverage, c.chosen)
  }

  ghost predicate Taken(cs: seq<Con>, choice: Option<Choice>, a: Address)
  {
    choice.Some? && Uses(cs, choice.value.chosen, a)
  }

  lemma {:induction false} NothingEligible(ns: Nbrs, cs: seq<Con>, direct: nat)
    requires forall j :: 0 <= j < |cs| ==> cs[j].path >= direct
    ensures EligibleSet(ns, cs, direct) == {}
  {
  }

  lemma {:induction false} ChoiceSame(ns: Nbrs, ns': Nbrs, links: seq<Link>, n: Address, cs: seq<Con>, coverage: nat,
                                      choice: Option<Choice>)
    requires SameNbrs(ns, ns') && ChoiceOk(ns', links, n, cs, coverage, choice)
    ensures ChoiceOk(ns, links, n, cs, coverage, choice)
  {
    if choice.Some? {
      var c := choice.value;
      EligibleSame(ns, ns', cs, c.direct);
      forall i, j | i in c.chosen && Eligible(ns, cs, c.direct, j) && j !in c.chosen
        ensures NoWorse(cs, i, j)
      {
        assert Eligible(ns', cs, c.direct, j);
      }
    }
  }

  ghost predicate Relays(ns: Nbrs, cons: map<Address, seq<Con>>, choices: map<Address, Option<Choice>>)
    requires choices.Keys <= cons.Keys
  {
    forall a :: a in ns ==> (ns[a].mpr <==> Preset(ns[a]) || exists n :: n in choices && Taken(cons[n], choices[n], a))
  }

  lemma {:induction false} RelaysStep(ns: Nbrs, ns': Nbrs, cons: map<Address, seq<Con>>,
                                      choices: map<Address, Option<Choice>>, n: Address, choice: Option<Choice>)
    requires choices.Keys <= cons.Keys && n in cons && n !in choices && Relays(ns, cons, choices) && SameNbrs(ns, ns')
    requires forall a :: a in ns' ==> (ns'[a].mpr <==> ns[a].mpr || Taken(cons[n], choice, a))
    ensures Relays(ns', cons, choices[n := choice])
  {
    var choices' := choices[n := choice];
    forall a | a in ns'
      ensures ns'[a].mpr <==> Preset(ns'[a]) || exists m :: m in choices' && Taken(cons[m], choices'[m], a)
    {
      if m :| m in choices && Taken(cons[m], choices[m], a) {
        assert m in choices' && Taken(cons[m], choices'[m], a);
      }
      if Taken(cons[n], choice, a) {
        assert n in choices' && Taken(cons[n], choices'[n], a);
      }
    }
  }

  lemma {:induction false} TakenSym(ns: Nbrs, links: seq<Link>, n: Address, cs: seq<Con>, coverage: nat,
                                    choice: Option<Choice>, a: Address)
    requires ChoiceOk(ns, links, n, cs, coverage, choice) && Taken(cs, choice, a)
    ensures a in ns && ns[a].sym
  {
    var i :| i in choice.value.chosen && 0 <= i < |cs| && cs[i].nbr == a;
    assert Eligible(ns, cs, choice.value.direct, i);
  }
}
