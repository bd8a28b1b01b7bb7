/** Cutting the neighbour list into TC messages and putting it together again at the receiver (src/tc_set.c):
    whatever the order the fragments arrive in, the real edges of the originator are then its advertised neighbours. */
module Fragments {
  import opened Basics
  import opened Border
  import opened Lsdb
  import Seqno

  // A neighbour in the sender's table, and whether it passes the filters for advertisement.
  datatype Nbr = Nbr(addr: Address, adv: bool)

  ghost predicate Sorted(ord: Order, nbrs: seq<Nbr>, n: nat)
  {
    && (forall i :: 0 <= i < |nbrs| ==> |nbrs[i].addr| == n)
    && (forall i, j {:trigger Before(ord, nbrs, i, j)} :: 0 <= i < j < |nbrs| ==> Before(ord, nbrs, i, j))
  }

  ghost predicate Before(ord: Order, nbrs: seq<Nbr>, i: int, j: int)
    requires 0 <= i < j < |nbrs|
  {
    |nbrs[i].addr| == |nbrs[j].addr| && Below(ord, nbrs[i].addr, nbrs[j].addr)
  }

  // The addresses of the advertised neighbours, in order.
  function Adverts(nbrs: seq<Nbr>): (r: seq<Address>)
    ensures |r| <= |nbrs|
  {
    if nbrs == [] then []
      else Adverts(nbrs[..|nbrs| - 1]) + (if nbrs[|nbrs| - 1].adv then [nbrs[|nbrs| - 1].addr] else [])
  }

  // flag is the border flag between two addresses.
  ghost predicate IsFlag(l: Address, h: Address, flag: nat)
  {
    |l| == |h| && 1 <= flag <= 8 * |l| && DiffersAt(l, h, FlagPart(|l|, flag), FlagBit(flag))
  }

  // f advertises the neighbours from i up to j.
  ghost predicate IsFragment(nbrs: seq<Nbr>, i: int, j: int, f: Fragment)
  {
    && 0 <= i <= j <= |nbrs| && f.dests == Adverts(nbrs[i..j])
    && (if i == 0 then f.lower == 0xff else i < |nbrs| && IsFlag(nbrs[i - 1].addr, nbrs[i].addr, f.lower))
    && (if j == |nbrs| then f.upper == 0xff
      else 0 < j && nbrs[j - 1].adv && IsFlag(nbrs[j - 1].addr, nbrs[j].addr, f.upper))
  }

  // One call of olsr_output_lq_tc_internal: from the neighbour to continue with, if any, until the message is full.
  method OutputOne(nbrs: seq<Nbr>, room: nat, next: Address, skip: bool, ghost ord: Order, ghost n: nat,
                   ghost start: nat)
    returns (f: Fragment, more: bool, next': Address, ghost end: nat)
    requires Sorted(ord, nbrs, n) && n <= 31 && room >= 1
    requires if skip then 0 < start < |nbrs| && nbrs[start].addr == next else start == 0
    ensures IsFragment(nbrs, start, end, f) && (more <==> end < |nbrs|)
      && (more ==> start < end && next' == nbrs[end].addr)
    ensures |f.dests| <= room && (more ==> |f.dests| == room)
  {
    var skipping := skip;
    var lower, upper, dests := 0xff, 0xff, [];
    f, more, next', end := Fragment(0xff, 0xff, []), false, next, |nbrs|;
    for i := 0 to |nbrs|
      invariant upper == 0xff && !more && end == |nbrs| && |dests| <= room
      invariant skipping ==> skip && i <= start && dests == [] && lower == 0xff
      invariant !skipping ==>
        start <= i && dests == Adverts(nbrs[start..i]) && (|dests| == room ==> start < i && nbrs[i - 1].adv)
      invariant !skipping ==>
        if start == 0 then lower == 0xff else IsFlag(nbrs[start - 1].addr, nbrs[start].addr, lower)
    {
      if skipping {
        if nbrs[i].addr != next {
          continue;
        }
        assert i == start by {
          if i < start {
            assert Before(ord, nbrs, i, start);
            BelowTotal(ord, nbrs[i].addr, nbrs[start].addr);
          }
        }
        skipping := false;
        lower := FlagBetween(nbrs, i, ord, n);
      }
      if |dests| >= room {
        upper := FlagBetween(nbrs, i, ord, n);
        next', more, end := nbrs[i].addr, true, i;
        break;
      }
      assert nbrs[start..i + 1][..i - start] == nbrs[start..i];
      if nbrs[i].adv {
        dests := dests + [nbrs[i].addr];
      }
    }
    f := Fragment(lower, upper, dests);
  }

  method FlagBetween(nbrs: seq<Nbr>, i: nat, ghost ord: Order, ghost n: nat) returns (flag: nat)
    requires Sorted(ord, nbrs, n) && n <= 31 && 0 < i < |nbrs|
    ensures IsFlag(nbrs[i - 1].addr, nbrs[i].addr, flag)
  {
    assert Before(ord, nbrs, i - 1, i);
    BelowTotal(ord, nbrs[i - 1].addr, nbrs[i].addr);
    flag := CalculateFlag(nbrs[i - 1].addr, nbrs[i].addr);
  }

  // The messages of one output run: fragment i advertises the neighbours between two cuts.
  ghost predicate Sent(nbrs: seq<Nbr>, cuts: seq<int>, fs: seq<Fragment>)
  {
    && |cuts| == |fs| + 1 && cuts[0] == 0
    && forall i {:trigger SentAt(nbrs, cuts, fs, i)} :: 0 <= i < |fs| ==> SentAt(nbrs, cuts, fs, i)
  }

  ghost predicate SentAt(nbrs: seq<Nbr>, cuts: seq<int>, fs: seq<Fragment>, i: int)
    requires 0 <= i < |fs| && |cuts| == |fs| + 1
  {
    IsFragment(nbrs, cuts[i], cuts[i + 1], fs[i])
  }

  // Every message but the first starts further on in the list.
  ghost predicate InnerCuts(nbrs: seq<Nbr>, cuts: seq<int>, fs: seq<Fragment>)
    requires |cuts| == |fs| + 1
  {
    forall i {:trigger CutAt(nbrs, cuts, fs, i)} :: 0 < i < |fs| ==> CutAt(nbrs, cuts, fs, i)
  }

  ghost predicate CutAt(nbrs: seq<Nbr>, cuts: seq<int>, fs: seq<Fragment>, i: int)
    requires |cuts| == |fs| + 1 && 0 < i < |fs|
  {
    cuts[i - 1] < cuts[i] && 0 < cuts[i] < |nbrs|
  }

  lemma {:induction false} InnerOn(nbrs: seq<Nbr>, cuts: seq<int>, fs: seq<Fragment>, f: Fragment, end: int)
    requires |cuts| == |fs| + 1 && InnerCuts(nbrs, cuts, fs)
    requires fs != [] ==> cuts[|fs| - 1] < cuts[|fs|] && 0 < cuts[|fs|] < |nbrs|
    ensures InnerCuts(nbrs, cuts + [end], fs + [f])
  {
    forall i | 0 < i < |fs| + 1
      ensures CutAt(nbrs, cuts + [end], fs + [f], i)
    {
      assert i < |fs| ==> CutAt(nbrs, cuts, fs, i);
    }
  }

  lemma {:induction false} SentOn(nbrs: seq<Nbr>, cuts: seq<int>, fs: seq<Fragment>, f: Fragment, end: int)
    requires Sent(nbrs, cuts, fs) && IsFragment(nbrs, cuts[|fs|], end, f)
    ensures Sent(nbrs, cuts + [end], fs + [f])
  {
    forall i | 0 <= i < |fs| + 1
      ensures SentAt(nbrs, cuts + [end], fs + [f], i)
    {
      assert i < |fs| ==> SentAt(nbrs, cuts, fs, i);
    }
  }

  // olsr_output_lq_tc
  method OutputAll(nbrs: seq<Nbr>, room: nat, ghost ord: Order, ghost n: nat) returns (fs: seq<Fragment>,
                   ghost cuts: seq<int>)
    requires Sorted(ord, nbrs, n) && n <= 31 && room >= 1
    ensures Sent(nbrs, cuts, fs) && fs != [] && cuts[|fs|] == |nbrs| && InnerCuts(nbrs, cuts, fs)
    ensures (forall f :: f in fs ==> |f.dests| <= room) && forall i :: 0 <= i < |fs| - 1 ==> |fs[i].dests| == room
  {
    fs, cuts := [], [0];
    var skip, next := false, [];
    while true
      invariant Sent(nbrs, cuts, fs) && 0 <= cuts[|fs|] <= |nbrs| && (forall f :: f in fs ==> |f.dests| <= room)
      invariant (fs == [] || skip) && InnerCuts(nbrs, cuts, fs) && forall i :: 0 <= i < |fs| ==> |fs[i].dests| == room
      invariant if skip then fs != [] && cuts[|fs| - 1] < cuts[|fs|] && 0 < cuts[|fs|] < |nbrs|
        && nbrs[cuts[|fs|]].addr == next else cuts[|fs|] == 0
      decreases |nbrs| - cuts[|fs|]
    {
      var f;
      ghost var end;
      f, skip, next, end := OutputOne(nbrs, room, next, skip, ord, n, cuts[|fs|]);
      SentOn(nbrs, cuts, fs, f, end);
      InnerOn(nbrs, cuts, fs, f, end);
      fs, cuts := fs + [f], cuts + [end];
      if !skip {
        break;
      }
    }
  }

  // ---- what the fragments say together ----

  lemma {:induction false} AdvertsCat(x: seq<Nbr>, y: seq<Nbr>)
    ensures Adverts(x + y) == Adverts(x) + Adverts(y)
  {
    if y == [] {
      assert x + y == x;
    } else {
      var z := x + y;
      assert z[..|z| - 1] == x + y[..|y| - 1] && z[|z| - 1] == y[|y| - 1];
      AdvertsCat(x, y[..|y| - 1]);
    }
  }

  lemma {:induction false} AdvertsIn(nbrs: seq<Nbr>, d: Address)
    ensures d in Adverts(nbrs) <==> exists i :: 0 <= i < |nbrs| && nbrs[i].adv && nbrs[i].addr == d
  {
    if nbrs != [] {
      AdvertsIn(nbrs[..|nbrs| - 1], d);
      assert forall i :: 0 <= i < |nbrs| - 1 ==> nbrs[..|nbrs| - 1][i] == nbrs[i];
    }
  }

  // One of the first k messages mentions d.
  ghost predicate Mentioned(fs: seq<Fragment>, k: nat, d: Address)
    requires k <= |fs|
  {
    exists j :: 0 <= j < k && d in fs[j].dests
  }

  lemma {:induction false} MentionedOn(fs: seq<Fragment>, k: nat, d: Address)
    requires k < |fs|
    ensures Mentioned(fs, k + 1, d) <==> Mentioned(fs, k, d) || d in fs[k].dests
  {
  }

  lemma {:induction false} Union(nbrs: seq<Nbr>, cuts: seq<int>, fs: seq<Fragment>, k: nat, d: Address)
    requires Sent(nbrs, cuts, fs) && k <= |fs|
    ensures 0 <= cuts[k] <= |nbrs|
    ensures d in Adverts(nbrs[..cuts[k]]) <==> Mentioned(fs, k, d)
  {
    if k > 0 {
      Union(nbrs, cuts, fs, k - 1, d);
      MentionedOn(fs, k - 1, d);
      assert SentAt(nbrs, cuts, fs, k - 1);
      AdvertsUpTo(nbrs, cuts[k - 1], cuts[k], d);
    }
  }

  lemma {:induction false} AdvertsUpTo(nbrs: seq<Nbr>, i: int, j: int, d: Address)
    requires 0 <= i <= j <= |nbrs|
    ensures d in Adverts(nbrs[..j]) <==> d in Adverts(nbrs[..i]) || d in Adverts(nbrs[i..j])
  {
    assert nbrs[..j] == nbrs[..i] + nbrs[i..j];
    AdvertsCat(nbrs[..i], nbrs[i..j]);
  }

  // ---- the borders of a message ----

  ghost predicate Bordered(f: Fragment, n: nat)
  {
    f.dests != [] && |f.dests[0]| == |f.dests[|f.dests| - 1]| == n && FlagOk(f.lower, n) && FlagOk(f.upper, n)
  }

  ghost function Lo(f: Fragment, n: nat): (r: Address)
    requires Bordered(f, n)
    ensures |r| == n
  {
    BorderFrom(f.dests[0], f.lower, 0)
  }

  ghost function Hi(f: Fragment, n: nat): (r: Address)
    requires Bordered(f, n)
    ensures |r| == n
  {
    BorderFrom(f.dests[|f.dests| - 1], f.upper, 0xff)
  }

  // The first advertised neighbour of a later fragment agrees with its first neighbour above the flagged bit, as it
  // does if that neighbour is advertised.
  ghost predicate FirstAgrees(nbrs: seq<Nbr>, i: int, f: Fragment, n: nat)
  {
    Bordered(f, n) && (i == 0
      || (0 < i < |nbrs| && |nbrs[i].addr| == n && f.lower != 0xff && AgreeAbove(f.dests[0], nbrs[i].addr, f.lower)))
  }

  lemma {:induction false} FirstOf(nbrs: seq<Nbr>, i: int, j: int, f: Fragment, n: nat)
    requires IsFragment(nbrs, i, j, f) && Bordered(f, n) && 0 < i < |nbrs| && nbrs[i].adv && n <= 31
      && |nbrs[i].addr| == n
    ensures FirstAgrees(nbrs, i, f, n)
  {
    assert nbrs[i..j] == [nbrs[i]] + nbrs[i + 1..j];
    AdvertsCat([nbrs[i]], nbrs[i + 1..j]);
    assert Adverts([nbrs[i]]) == [nbrs[i].addr];
  }

  lemma {:induction false} LastOf(nbrs: seq<Nbr>, i: int, j: int, f: Fragment)
    requires IsFragment(nbrs, i, j, f) && f.dests != [] && j < |nbrs|
    ensures f.dests[|f.dests| - 1] == nbrs[j - 1].addr
  {
    assert i < j;
    assert nbrs[i..j][|nbrs[i..j]| - 1] == nbrs[j - 1];
  }

  // The border at a cut lies between the two neighbours there, in the order of the host.
  ghost predicate CutOk(ord: Order, nbrs: seq<Nbr>, c: int, flag: nat)
  {
    && 0 < c < |nbrs| && |nbrs[c - 1].addr| == |nbrs[c].addr| && 1 <= flag <= 8 * |nbrs[c].addr|
    && Separates(ord, nbrs[c - 1].addr, nbrs[c].addr, flag)
  }

  // A fragment ends at the border between the two neighbours at the cut, which the next one was given too.
  lemma {:induction false} EndAt(ord: Order, nbrs: seq<Nbr>, i: int, c: int, j: int, f: Fragment, g: Fragment, n: nat)
    requires Sorted(ord, nbrs, n) && n <= 31 && IsFragment(nbrs, i, c, f) && IsFragment(nbrs, c, j, g) && 0 < c < |nbrs|
    requires Bordered(f, n)
    ensures f.upper == g.lower && 1 <= g.lower <= 8 * n && Hi(f, n) == BorderOf(nbrs[c].addr, g.lower)
    ensures CutOk(ord, nbrs, c, f.upper) <==>
      Below(ord, nbrs[c - 1].addr, Hi(f, n)) && !Below(ord, nbrs[c].addr, Hi(f, n))
  {
    var prev, next := nbrs[c - 1].addr, nbrs[c].addr;
    assert Before(ord, nbrs, c - 1, c);
    LastOf(nbrs, i, c, f);
    FlagUnique(prev, next, f.upper, g.lower);
    OneBorder(prev, next, f.upper);
    BorderWithin(ord, prev, next, f.upper);
  }

  // Where one fragment ends the next begins, whatever the order.
  lemma {:induction false} Junction(ord: Order, nbrs: seq<Nbr>, i: int, c: int, j: int, f: Fragment, g: Fragment,
                                    n: nat)
    requires Sorted(ord, nbrs, n) && n <= 31 && IsFragment(nbrs, i, c, f) && IsFragment(nbrs, c, j, g)
    requires 0 < c < |nbrs| && Bordered(f, n) && FirstAgrees(nbrs, c, g, n)
    ensures Hi(f, n) == Lo(g, n)
  {
    EndAt(ord, nbrs, i, c, j, f, g, n);
    SameBorder(g.dests[0], nbrs[c].addr, g.lower);
  }

  // A complete set of fragments of a sender in which every message says where it begins and ends.
  ghost predicate Tiling(snd: Order, nbrs: seq<Nbr>, n: nat, cuts: seq<int>, fs: seq<Fragment>)
  {
    && Sorted(snd, nbrs, n) && n <= 31 && Sent(nbrs, cuts, fs) && fs != [] && cuts[|fs|] == |nbrs|
    && (forall i {:trigger TileAt(nbrs, n, cuts, fs, i)} :: 0 <= i < |fs| ==> TileAt(nbrs, n, cuts, fs, i))
  }

  ghost predicate TileAt(nbrs: seq<Nbr>, n: nat, cuts: seq<int>, fs: seq<Fragment>, i: int)
    requires 0 <= i < |fs| && |cuts| == |fs| + 1
  {
    FirstAgrees(nbrs, cuts[i], fs[i], n) && (i + 1 < |fs| ==> 0 < cuts[i + 1] < |nbrs|)
  }

  // Messages of the sender tile the address space if none is empty and each starts at an advertised neighbour.
  lemma {:induction false} SentTiles(snd: Order, nbrs: seq<Nbr>, n: nat, cuts: seq<int>, fs: seq<Fragment>)
    requires Sorted(snd, nbrs, n) && n <= 31 && Sent(nbrs, cuts, fs) && fs != [] && cuts[|fs|] == |nbrs|
    requires forall i :: 0 < i < |fs| ==> 0 < cuts[i] < |nbrs| && nbrs[cuts[i]].adv
    requires forall f :: f in fs ==> f.dests != []
    ensures Tiling(snd, nbrs, n, cuts, fs)
  {
    forall i | 0 <= i < |fs|
      ensures TileAt(nbrs, n, cuts, fs, i)
    {
      assert SentAt(nbrs, cuts, fs, i) && fs[i] in fs;
      FlagsFit(snd, nbrs, n, cuts[i], cuts[i + 1], fs[i]);
      if i > 0 {
        FirstOf(nbrs, cuts[i], cuts[i + 1], fs[i], n);
      }
    }
  }

  lemma {:induction false} FlagsFit(ord: Order, nbrs: seq<Nbr>, n: nat, i: int, j: int, f: Fragment)
    requires Sorted(ord, nbrs, n) && n <= 31 && IsFragment(nbrs, i, j, f) && f.dests != []
    ensures Bordered(f, n)
  {
    forall d | d in f.dests
      ensures |d| == n
    {
      AdvertsIn(nbrs[i..j], d);
      var k :| 0 <= k < |nbrs[i..j]| && nbrs[i..j][k].adv && nbrs[i..j][k].addr == d;
      assert nbrs[i..j][k] == nbrs[i + k];
    }
    assert f.dests[0] in f.dests && f.dests[|f.dests| - 1] in f.dests;
  }

  lemma {:induction false} TileParts(snd: Order, nbrs: seq<Nbr>, n: nat, cuts: seq<int>, fs: seq<Fragment>, k: nat)
    requires Tiling(snd, nbrs, n, cuts, fs) && k < |fs|
    ensures IsFragment(nbrs, cuts[k], cuts[k + 1], fs[k]) && FirstAgrees(nbrs, cuts[k], fs[k], n)
    ensures k + 1 < |fs| ==> 0 < cuts[k + 1] < |nbrs|
  {
    assert TileAt(nbrs, n, cuts, fs, k) && SentAt(nbrs, cuts, fs, k);
  }

  lemma {:induction false} Meet(snd: Order, nbrs: seq<Nbr>, n: nat, cuts: seq<int>, fs: seq<Fragment>, k: nat)
    requires Tiling(snd, nbrs, n, cuts, fs) && k + 1 < |fs|
    ensures Bordered(fs[k], n) && Bordered(fs[k + 1], n) && Hi(fs[k], n) == Lo(fs[k + 1], n)
  {
    TileParts(snd, nbrs, n, cuts, fs, k);
    TileParts(snd, nbrs, n, cuts, fs, k + 1);
    Junction(snd, nbrs, cuts[k], cuts[k + 1], cuts[k + 2], fs[k], fs[k + 1], n);
  }

  // The sender may keep its neighbours in one order and the receiver compare addresses in another.
  lemma {:induction false} Tile(snd: Order, ord: Order, nbrs: seq<Nbr>, n: nat, cuts: seq<int>, fs: seq<Fragment>,
                                i: nat, d: Address)
    requires Tiling(snd, nbrs, n, cuts, fs) && i < |fs| && |d| == n && Bordered(fs[i], n)
      && !Below(ord, d, Lo(fs[i], n))
    ensures d == Fill(n, 0xff) || Covered(ord, fs, d)
    decreases |fs| - i
  {
    if Below(ord, d, Hi(fs[i], n)) {
      assert Covers(ord, fs[i], d);
    } else if i == |fs| - 1 {
      TileParts(snd, nbrs, n, cuts, fs, i);
      Ends(ord, d);
    } else {
      Meet(snd, nbrs, n, cuts, fs, i);
      Tile(snd, ord, nbrs, n, cuts, fs, i + 1, d);
    }
  }

  ghost predicate Covered(ord: Order, fs: seq<Fragment>, d: Address)
  {
    exists k :: 0 <= k < |fs| && Covers(ord, fs[k], d)
  }

  // Every address but all ones is in the range of some fragment.
  lemma {:induction false} NoGap(snd: Order, ord: Order, nbrs: seq<Nbr>, n: nat, cuts: seq<int>, fs: seq<Fragment>,
                                 d: Address)
    requires Tiling(snd, nbrs, n, cuts, fs) && |d| == n
    ensures d != Fill(n, 0xff) <==> Covered(ord, fs, d)
  {
    TileParts(snd, nbrs, n, cuts, fs, 0);
    Ends(ord, d);
    Tile(snd, ord, nbrs, n, cuts, fs, 0, d);
    if d == Fill(n, 0xff) {
      forall k | 0 <= k < |fs|
        ensures !Covers(ord, fs[k], d)
      {
        NeverOnes(ord, fs[k], n);
      }
    }
  }

  lemma {:induction false} NeverOnes(ord: Order, f: Fragment, n: nat)
    ensures !Covers(ord, f, Fill(n, 0xff))
  {
    if Covers(ord, f, Fill(n, 0xff)) {
      var hi := BorderFrom(f.dests[|f.dests| - 1], f.upper, 0xff);
      Ends(ord, hi);
      BelowTotal(ord, hi, Fill(n, 0xff));
    }
  }

  // ---- no address is covered twice, if the borders separate ----

  // At every cut the border lies between the two neighbours, in the order of the sender: always byte by byte.
  ghost predicate Separated(ord: Order, nbrs: seq<Nbr>, cuts: seq<int>, fs: seq<Fragment>)
    requires |cuts| == |fs| + 1
  {
    forall i {:trigger SeparatedAt(ord, nbrs, cuts, fs, i)} :: 0 < i < |fs| ==> SeparatedAt(ord, nbrs, cuts, fs, i)
  }

  ghost predicate SeparatedAt(ord: Order, nbrs: seq<Nbr>, cuts: seq<int>, fs: seq<Fragment>, i: int)
    requires |cuts| == |fs| + 1 && 0 < i < |fs|
  {
    CutOk(ord, nbrs, cuts[i], fs[i - 1].upper)
  }

  lemma {:induction false} BytewiseSeparated(nbrs: seq<Nbr>, n: nat, cuts: seq<int>, fs: seq<Fragment>)
    requires Tiling(Bytewise, nbrs, n, cuts, fs)
    ensures Separated(Bytewise, nbrs, cuts, fs)
  {
    forall i | 0 < i < |fs|
      ensures SeparatedAt(Bytewise, nbrs, cuts, fs, i)
    {
      TileParts(Bytewise, nbrs, n, cuts, fs, i - 1);
      TileParts(Bytewise, nbrs, n, cuts, fs, i);
    }
  }

  lemma {:induction false} Rising(ord: Order, nbrs: seq<Nbr>, n: nat, i: int, j: int, lo: Address, hi: Address)
    requires Sorted(ord, nbrs, n) && 0 <= i < j <= |nbrs| && |lo| == |hi| == n
    requires !Below(ord, nbrs[i].addr, lo) && Below(ord, nbrs[j - 1].addr, hi)
    ensures !Below(ord, hi, lo)
  {
    BelowTotal(ord, nbrs[j - 1].addr, hi);
    if i < j - 1 {
      assert Before(ord, nbrs, i, j - 1);
      BelowTotal(ord, nbrs[i].addr, nbrs[j - 1].addr);
      BelowTransitive(ord, lo, nbrs[i].addr, nbrs[j - 1].addr);
    }
    BelowTransitive(ord, lo, nbrs[j - 1].addr, hi);
  }

  // The border at a cut, as the order of the neighbours has it.
  lemma {:induction false} CutSplits(ord: Order, nbrs: seq<Nbr>, n: nat, cuts: seq<int>, fs: seq<Fragment>, k: nat)
    requires Tiling(ord, nbrs, n, cuts, fs) && Separated(ord, nbrs, cuts, fs) && 0 < k < |fs|
    ensures Bordered(fs[k - 1], n) && 0 < cuts[k] < |nbrs| && |nbrs[cuts[k] - 1].addr| == |nbrs[cuts[k]].addr| == n
    ensures Below(ord, nbrs[cuts[k] - 1].addr, Hi(fs[k - 1], n)) && !Below(ord, nbrs[cuts[k]].addr, Hi(fs[k - 1], n))
  {
    assert SeparatedAt(ord, nbrs, cuts, fs, k);
    TileParts(ord, nbrs, n, cuts, fs, k - 1);
    TileParts(ord, nbrs, n, cuts, fs, k);
    EndAt(ord, nbrs, cuts[k - 1], cuts[k], cuts[k + 1], fs[k - 1], fs[k], n);
  }

  lemma {:induction false} RangeUp(ord: Order, nbrs: seq<Nbr>, n: nat, cuts: seq<int>, fs: seq<Fragment>, k: nat)
    requires Tiling(ord, nbrs, n, cuts, fs) && Separated(ord, nbrs, cuts, fs) && 0 < k && k + 1 < |fs|
      && Bordered(fs[k], n)
    ensures !Below(ord, Hi(fs[k], n), Lo(fs[k], n))
  {
    CutSplits(ord, nbrs, n, cuts, fs, k);
    CutSplits(ord, nbrs, n, cuts, fs, k + 1);
    Meet(ord, nbrs, n, cuts, fs, k - 1);
    TileParts(ord, nbrs, n, cuts, fs, k);
    Nonempty(nbrs, cuts[k], cuts[k + 1], fs[k]);
    Rising(ord, nbrs, n, cuts[k], cuts[k + 1], Lo(fs[k], n), Hi(fs[k], n));
  }

  lemma {:induction false} Nonempty(nbrs: seq<Nbr>, i: int, j: int, f: Fragment)
    requires IsFragment(nbrs, i, j, f) && f.dests != []
    ensures i < j
  {
  }

  // The ranges ascend.
  lemma {:induction false} Ascending(ord: Order, nbrs: seq<Nbr>, n: nat, cuts: seq<int>, fs: seq<Fragment>, i: nat,
                                     j: nat)
    requires Tiling(ord, nbrs, n, cuts, fs) && Separated(ord, nbrs, cuts, fs) && i < j < |fs| && Bordered(fs[i], n)
      && Bordered(fs[j], n)
    ensures !Below(ord, Lo(fs[j], n), Hi(fs[i], n))
  {
    Meet(ord, nbrs, n, cuts, fs, j - 1);
    if i < j - 1 {
      Ascending(ord, nbrs, n, cuts, fs, i, j - 1);
      RangeUp(ord, nbrs, n, cuts, fs, j - 1);
      BelowTransitive(ord, Hi(fs[i], n), Lo(fs[j - 1], n), Hi(fs[j - 1], n));
    } else {
      BelowTotal(ord, Lo(fs[j], n), Lo(fs[j], n));
    }
  }

  // No address is in the range of two fragments, for a receiver of the sender's kind.
  lemma {:induction false} NoOverlap(ord: Order, nbrs: seq<Nbr>, n: nat, cuts: seq<int>, fs: seq<Fragment>, i: nat,
                                     j: nat, d: Address)
    requires Tiling(ord, nbrs, n, cuts, fs) && i < j < |fs| && (ord == Bytewise || Separated(ord, nbrs, cuts, fs))
    ensures !(Covers(ord, fs[i], d) && Covers(ord, fs[j], d))
  {
    if ord == Bytewise {
      BytewiseSeparated(nbrs, n, cuts, fs);
    }
    TileParts(ord, nbrs, n, cuts, fs, i);
    TileParts(ord, nbrs, n, cuts, fs, j);
    Ascending(ord, nbrs, n, cuts, fs, i, j);
    if Covers(ord, fs[j], d) {
      BelowTransitive(ord, Hi(fs[i], n), Lo(fs[j], n), d);
    }
  }

  // ---- when the ranges leave a gap ----

  ghost predicate AllBordered(fs: seq<Fragment>, n: nat)
  {
    forall i :: 0 <= i < |fs| ==> Bordered(fs[i], n)
  }

  // All zeros, and the ends of the messages other than all ones, are in the range of some message.
  ghost predicate EndsCovered(ord: Order, fs: seq<Fragment>, n: nat)
    requires AllBordered(fs, n)
  {
    && (n > 0 ==> Covered(ord, fs, Fill(n, 0)))
    && forall i :: 0 <= i < |fs| && Hi(fs[i], n) != Fill(n, 0xff) ==> Covered(ord, fs, Hi(fs[i], n))
  }

  ghost predicate AllCovered(ord: Order, fs: seq<Fragment>, n: nat)
  {
    forall d :: |d| == n && d != Fill(n, 0xff) ==> Covered(ord, fs, d)
  }

  // The greatest of all zeros and the ends of the first k messages that is not above d.
  lemma {:induction false} LastEnd(ord: Order, fs: seq<Fragment>, n: nat, k: nat, d: Address) returns (e: Address)
    requires AllBordered(fs, n) && k <= |fs| && |d| == n
    ensures |e| == n && !Below(ord, d, e) && (e == Fill(n, 0) || exists i :: 0 <= i < k && e == Hi(fs[i], n))
    ensures forall i :: 0 <= i < k && !Below(ord, d, Hi(fs[i], n)) ==> !Below(ord, e, Hi(fs[i], n))
  {
    if k == 0 {
      e := Fill(n, 0);
      Ends(ord, d);
    } else {
      e := LastEnd(ord, fs, n, k - 1, d);
      var h := Hi(fs[k - 1], n);
      BelowTotal(ord, e, h);
      BelowTotal(ord, h, h);
      if !Below(ord, d, h) && Below(ord, e, h) {
        forall i | 0 <= i < k && !Below(ord, d, Hi(fs[i], n))
          ensures !Below(ord, h, Hi(fs[i], n))
        {
          if i < k - 1 {
            BelowTransitive(ord, Hi(fs[i], n), e, h);
          }
        }
        e := h;
      }
    }
  }

  // In whatever order a receiver compares, the ranges leave no gap if and only if they cover their own ends.
  lemma {:induction false} EndsDecide(ord: Order, fs: seq<Fragment>, n: nat)
    requires AllBordered(fs, n)
    ensures AllCovered(ord, fs, n) <==> EndsCovered(ord, fs, n)
  {
    assert n > 0 ==> Fill(n, 0)[0] != Fill(n, 0xff)[0];
    if EndsCovered(ord, fs, n) {
      forall d | |d| == n && d != Fill(n, 0xff)
        ensures Covered(ord, fs, d)
      {
        CoveredBy(ord, fs, n, d);
      }
    }
  }

  lemma {:induction false} CoveredBy(ord: Order, fs: seq<Fragment>, n: nat, d: Address)
    requires AllBordered(fs, n) && EndsCovered(ord, fs, n) && |d| == n && d != Fill(n, 0xff)
    ensures Covered(ord, fs, d)
  {
    var e := LastEnd(ord, fs, n, |fs|, d);
    assert n == 0 ==> d == Fill(n, 0xff);
    if e == Fill(n, 0xff) {
      Ends(ord, d);
    }
    var k :| 0 <= k < |fs| && Covers(ord, fs[k], e);
    Extends(ord, fs[k], n, e, d);
  }

  // A range that covers e covers d, too, if it does not end between them.
  lemma {:induction false} Extends(ord: Order, f: Fragment, n: nat, e: Address, d: Address)
    requires Bordered(f, n) && Covers(ord, f, e) && |d| == |e| == n && !Below(ord, d, e)
    requires !Below(ord, d, Hi(f, n)) ==> !Below(ord, e, Hi(f, n))
    ensures Covers(ord, f, d)
  {
    assert Lo(f, n) == BorderFrom(f.dests[0], f.lower, 0);
    BelowTransitive(ord, Lo(f, n), e, d);
  }

  // The messages of one run of a sender, none of them empty.
  ghost predicate Run(snd: Order, nbrs: seq<Nbr>, n: nat, cuts: seq<int>, fs: seq<Fragment>)
  {
    && Sorted(snd, nbrs, n) && n <= 31 && Sent(nbrs, cuts, fs) && fs != [] && cuts[|fs|] == |nbrs|
      && InnerCuts(nbrs, cuts, fs)
    && forall i {:trigger FullAt(nbrs, n, cuts, fs, i)} :: 0 <= i < |fs| ==> FullAt(nbrs, n, cuts, fs, i)
  }

  ghost predicate FullAt(nbrs: seq<Nbr>, n: nat, cuts: seq<int>, fs: seq<Fragment>, i: int)
    requires 0 <= i < |fs| && |cuts| == |fs| + 1
  {
    fs[i].dests != []
  }

  // The first address of a message is that of a neighbour from its start on.
  lemma {:induction false} FirstFrom(nbrs: seq<Nbr>, n: nat, i: int, j: int, f: Fragment)
    requires Sorted(Bytewise, nbrs, n) && IsFragment(nbrs, i, j, f) && f.dests != []
    ensures i < j && |f.dests[0]| == n && !Less(f.dests[0], nbrs[i].addr)
  {
    var x := f.dests[0];
    assert x in f.dests;
    AdvertsIn(nbrs[i..j], x);
    var k :| 0 <= k < |nbrs[i..j]| && nbrs[i..j][k].adv && nbrs[i..j][k].addr == x;
    assert nbrs[i + k].addr == x;
    LessTotal(nbrs[i].addr, x);
    assert k > 0 ==> Before(Bytewise, nbrs, i, i + k);
  }

  // What a message begins with is not below the end of the one before, and is that end exactly if its first address
  // agrees.
  lemma {:induction false} StartAt(nbrs: seq<Nbr>, n: nat, i: int, c: int, j: int, f: Fragment, g: Fragment)
    requires Sorted(Bytewise, nbrs, n) && n <= 31 && IsFragment(nbrs, i, c, f) && IsFragment(nbrs, c, j, g)
      && 0 < c < |nbrs|
    requires Bordered(f, n) && Bordered(g, n)
    ensures !Less(Lo(g, n), Hi(f, n)) && (Lo(g, n) == Hi(f, n) <==> FirstAgrees(nbrs, c, g, n))
    ensures Less(nbrs[c - 1].addr, Hi(f, n)) && !Less(nbrs[c].addr, Hi(f, n))
  {
    EndAt(Bytewise, nbrs, i, c, j, f, g, n);
    FirstFrom(nbrs, n, c, j, g);
    BorderRises(nbrs[c].addr, g.dests[0], g.lower);
    SameBorder(g.dests[0], nbrs[c].addr, g.lower);
    assert CutOk(Bytewise, nbrs, c, f.upper);
  }

  lemma {:induction false} RunParts(nbrs: seq<Nbr>, n: nat, cuts: seq<int>, fs: seq<Fragment>, i: nat)
    requires Run(Bytewise, nbrs, n, cuts, fs) && i < |fs|
    ensures IsFragment(nbrs, cuts[i], cuts[i + 1], fs[i]) && Bordered(fs[i], n)
      && (i > 0 ==> cuts[i - 1] < cuts[i] && 0 < cuts[i] < |nbrs|)
  {
    assert SentAt(nbrs, cuts, fs, i) && FullAt(nbrs, n, cuts, fs, i) && (i > 0 ==> CutAt(nbrs, cuts, fs, i));
    FlagsFit(Bytewise, nbrs, n, cuts[i], cuts[i + 1], fs[i]);
  }

  // What StartAt is about, for the messages before and after a cut.
  lemma {:induction false} StartIn(nbrs: seq<Nbr>, n: nat, cuts: seq<int>, fs: seq<Fragment>, i: nat, f: Fragment,
                                   g: Fragment, c: int)
    requires Run(Bytewise, nbrs, n, cuts, fs) && 0 < i < |fs| && f == fs[i - 1] && g == fs[i] && c == cuts[i]
    ensures Bordered(f, n) && Bordered(g, n) && cuts[i - 1] < c && 0 < c < |nbrs|
    ensures !Less(Lo(g, n), Hi(f, n)) && (Lo(g, n) == Hi(f, n) <==> FirstAgrees(nbrs, c, g, n))
    ensures Less(nbrs[c - 1].addr, Hi(f, n)) && !Less(nbrs[c].addr, Hi(f, n))
  {
    var b, d := cuts[i - 1], cuts[i + 1];
    assert IsFragment(nbrs, b, c, f) && Bordered(f, n) by {
      RunParts(nbrs, n, cuts, fs, i - 1);
    }
    assert IsFragment(nbrs, c, d, g) && Bordered(g, n) && b < c && 0 < c < |nbrs| by {
      RunParts(nbrs, n, cuts, fs, i);
    }
    StartAt(nbrs, n, b, c, d, f, g);
  }

  lemma {:induction false} StepUp(nbrs: seq<Nbr>, n: nat, cuts: seq<int>, fs: seq<Fragment>, i: nat)
    requires Run(Bytewise, nbrs, n, cuts, fs) && 0 < i < |fs|
    ensures Bordered(fs[i - 1], n) && Bordered(fs[i], n) && cuts[i - 1] < cuts[i] && 0 < cuts[i] < |nbrs|
    ensures !Less(Lo(fs[i], n), Hi(fs[i - 1], n))
      && (Lo(fs[i], n) == Hi(fs[i - 1], n) <==> FirstAgrees(nbrs, cuts[i], fs[i], n))
    ensures Less(nbrs[cuts[i] - 1].addr, Hi(fs[i - 1], n)) && !Less(nbrs[cuts[i]].addr, Hi(fs[i - 1], n))
  {
    StartIn(nbrs, n, cuts, fs, i, fs[i - 1], fs[i], cuts[i]);
  }

  lemma {:induction false} CutEnds(nbrs: seq<Nbr>, n: nat, cuts: seq<int>, fs: seq<Fragment>, i: nat)
    requires Run(Bytewise, nbrs, n, cuts, fs) && 0 < i < |fs|
    ensures Bordered(fs[i - 1], n) && cuts[i - 1] < cuts[i] && 0 < cuts[i] < |nbrs|
    ensures Less(nbrs[cuts[i] - 1].addr, Hi(fs[i - 1], n)) && !Less(nbrs[cuts[i]].addr, Hi(fs[i - 1], n))
  {
    StepUp(nbrs, n, cuts, fs, i);
  }

  // The ends of the messages rise.
  lemma {:induction false} EndsRise(nbrs: seq<Nbr>, n: nat, cuts: seq<int>, fs: seq<Fragment>, i: nat, j: nat)
    requires Run(Bytewise, nbrs, n, cuts, fs) && i < j && j + 1 < |fs| && Bordered(fs[i], n) && Bordered(fs[j], n)
    ensures Less(Hi(fs[i], n), Hi(fs[j], n))
  {
    EndRises(nbrs, n, cuts, fs, j);
    if i < j - 1 {
      EndsRise(nbrs, n, cuts, fs, i, j - 1);
      Up(Hi(fs[i], n), Hi(fs[j - 1], n), Hi(fs[j], n));
    }
  }

  lemma {:induction false} EndRises(nbrs: seq<Nbr>, n: nat, cuts: seq<int>, fs: seq<Fragment>, j: nat)
    requires Run(Bytewise, nbrs, n, cuts, fs) && 0 < j && j + 1 < |fs|
    ensures Bordered(fs[j - 1], n) && Bordered(fs[j], n) && Less(Hi(fs[j - 1], n), Hi(fs[j], n))
  {
    CutEnds(nbrs, n, cuts, fs, j);
    CutEnds(nbrs, n, cuts, fs, j + 1);
    if cuts[j] < cuts[j + 1] - 1 {
      assert Before(Bytewise, nbrs, cuts[j], cuts[j + 1] - 1);
    }
    Apart(Hi(fs[j - 1], n), nbrs[cuts[j]].addr, nbrs[cuts[j + 1] - 1].addr, Hi(fs[j], n));
  }

  lemma {:induction false} Apart(a: Address, x: Address, y: Address, b: Address)
    requires |a| == |x| == |y| == |b| && !Less(x, a) && (x == y || Less(x, y)) && Less(y, b)
    ensures Less(a, b)
  {
    LessTotal(x, y);
    LessTotal(y, b);
    LessTransitive(a, x, y);
    LessTransitive(a, y, b);
  }

  lemma {:induction false} Up(x: Address, y: Address, z: Address)
    requires |x| == |y| == |z| && Less(x, y) && Less(y, z)
    ensures Less(x, z)
  {
    LessTotal(x, y);
    LessTotal(y, z);
    LessTransitive(x, y, z);
  }

  // Where the first address of a message does not agree, the end of the message before it is not covered at all.
  lemma {:induction false} Uncovered(nbrs: seq<Nbr>, n: nat, cuts: seq<int>, fs: seq<Fragment>, i: nat, k: nat)
    requires Run(Bytewise, nbrs, n, cuts, fs) && 0 < i < |fs| && !FirstAgrees(nbrs, cuts[i], fs[i], n) && k < |fs|
      && Bordered(fs[i - 1], n)
    ensures !Covers(Bytewise, fs[k], Hi(fs[i - 1], n)) && Hi(fs[i - 1], n) != Fill(n, 0xff)
  {
    StepUp(nbrs, n, cuts, fs, i);
    var b := Hi(fs[i - 1], n);
    LessTotal(b, Lo(fs[i], n));
    Extremes(Lo(fs[i], n));
    LessTotal(b, b);
    if Covers(Bytewise, fs[k], b) {
      if k < i - 1 {
        EndsRise(nbrs, n, cuts, fs, k, i - 1);
        LessTotal(b, Hi(fs[k], n));
      } else if i < k {
        StepUp(nbrs, n, cuts, fs, k);
        EndsRise(nbrs, n, cuts, fs, i - 1, k - 1);
        LessTotal(b, Hi(fs[k - 1], n));
        LessTransitive(b, Hi(fs[k - 1], n), Lo(fs[k], n));
      }
    }
  }

  // Between hosts that compare byte by byte, the ranges leave no gap if and only if the first address of every message
  // but the first one agrees with the neighbour the message starts at.
  lemma {:induction false} CoveredIff(nbrs: seq<Nbr>, n: nat, cuts: seq<int>, fs: seq<Fragment>)
    requires Run(Bytewise, nbrs, n, cuts, fs)
    ensures AllCovered(Bytewise, fs, n) <==> forall i :: 0 < i < |fs| ==> FirstAgrees(nbrs, cuts[i], fs[i], n)
  {
    if forall i :: 0 < i < |fs| ==> FirstAgrees(nbrs, cuts[i], fs[i], n) {
      AgreeCovers(Bytewise, Bytewise, nbrs, n, cuts, fs);
    } else {
      var i :| 0 < i < |fs| && !FirstAgrees(nbrs, cuts[i], fs[i], n);
      StepUp(nbrs, n, cuts, fs, i);
      var b := Hi(fs[i - 1], n);
      forall k | 0 <= k < |fs|
        ensures !Covers(Bytewise, fs[k], b)
      {
        Uncovered(nbrs, n, cuts, fs, i, k);
      }
      Uncovered(nbrs, n, cuts, fs, i, i);
      assert |b| == n && b != Fill(n, 0xff) && !Covered(Bytewise, fs, b);
    }
  }

  lemma {:induction false} AgreeTiles(snd: Order, nbrs: seq<Nbr>, n: nat, cuts: seq<int>, fs: seq<Fragment>)
    requires Run(snd, nbrs, n, cuts, fs) && forall i :: 0 < i < |fs| ==> FirstAgrees(nbrs, cuts[i], fs[i], n)
    ensures Tiling(snd, nbrs, n, cuts, fs)
  {
    forall i | 0 <= i < |fs|
      ensures TileAt(nbrs, n, cuts, fs, i)
    {
      assert SentAt(nbrs, cuts, fs, i) && FullAt(nbrs, n, cuts, fs, i);
      FlagsFit(snd, nbrs, n, cuts[i], cuts[i + 1], fs[i]);
      assert i > 0 ==> FirstAgrees(nbrs, cuts[i], fs[i], n);
      assert i + 1 < |fs| ==> CutAt(nbrs, cuts, fs, i + 1);
    }
  }

  // In any two orders of sender and receiver the agreement is enough.
  lemma {:induction false} AgreeCovers(snd: Order, ord: Order, nbrs: seq<Nbr>, n: nat, cuts: seq<int>,
                                       fs: seq<Fragment>)
    requires Run(snd, nbrs, n, cuts, fs) && forall i :: 0 < i < |fs| ==> FirstAgrees(nbrs, cuts[i], fs[i], n)
    ensures AllCovered(ord, fs, n)
  {
    AgreeTiles(snd, nbrs, n, cuts, fs);
    forall d | |d| == n && d != Fill(n, 0xff)
      ensures Covered(ord, fs, d)
    {
      NoGap(snd, ord, nbrs, n, cuts, fs, d);
    }
  }

  // In the raw order it is not needed: here the second message begins below the end of the first.
  lemma RawStart()
    ensures var nbrs := [Nbr([0, 5, 0, 1], true), Nbr([0, 4, 0, 2], false), Nbr([0, 0, 0, 3], true)];
      var fs := [Fragment(0xff, 17, [[0, 5, 0, 1]]), Fragment(17, 0xff, [[0, 0, 0, 3]])];
      Run(Raw, nbrs, 4, [0, 1, 3], fs) && !FirstAgrees(nbrs, 1, fs[1], 4) && AllCovered(Raw, fs, 4)
  {
    var a: Address, b: Address, c: Address := [0, 5, 0, 1], [0, 4, 0, 2], [0, 0, 0, 3];
    var nbrs := [Nbr(a, true), Nbr(b, false), Nbr(c, true)];
    var fs, cuts := [Fragment(0xff, 17, [a]), Fragment(17, 0xff, [c])], [0, 1, 3];
    RawUp(a, b);
    RawUp(b, c);
    RawUp(a, c);
    RawFlag(a, b);
    SecondBytes(a, c);
    TwoRun(Raw, nbrs, cuts, fs, 17);
    SameBorder(c, b, 17);
    SecondBytes(a, b);
    BelowTotal(Raw, BorderOf(c, 17), BorderOf(a, 17));
    TwoCover(Raw, fs, 4);
  }

  lemma RawUp(x: Address, y: Address)
    requires |x| == |y| == 4 && x[3] < y[3]
    ensures Below(Raw, x, y)
  {
    RawLast(x, y);
  }

  lemma RawFlag(a: Address, b: Address)
    requires |a| == |b| == 4 && a[0] == b[0] && a[1] == 5 && b[1] == 4
    ensures IsFlag(a, b, 17)
  {
    assert a[..1] == b[..1];
  }

  // Cut at the last bit of the second byte, five is above one in the raw order.
  lemma SecondBytes(a: Address, c: Address)
    requires |a| == |c| == 4 && a[0] == c[0] == 0 && a[1] == 5 && c[1] in {0, 4}
    ensures BorderOf(a, 17) == [0, 5, 0, 0] && BorderOf(c, 17) == [0, c[1] + 1, 0, 0]
    ensures c[1] == 0 ==> Below(Raw, BorderOf(c, 17), BorderOf(a, 17))
  {
    var x, y := BorderOf(c, 17), BorderOf(a, 17);
    assert x == [0, c[1] + 1, 0, 0] && y == [0, 5, 0, 0];
    RawLast(x, y);
    RawLast(x[..3], y[..3]);
    RawLast(x[..3][..2], y[..3][..2]);
  }

  // Two messages that meet or overlap and are open to both sides.
  lemma {:induction false} TwoCover(ord: Order, fs: seq<Fragment>, n: nat)
    requires |fs| == 2 && Bordered(fs[0], n) && Bordered(fs[1], n) && fs[0].lower == fs[1].upper == 0xff
    requires !Below(ord, Hi(fs[0], n), Lo(fs[1], n))
    ensures AllCovered(ord, fs, n)
  {
    forall d | |d| == n && d != Fill(n, 0xff)
      ensures Covered(ord, fs, d)
    {
      Ends(ord, d);
      if Below(ord, d, Hi(fs[0], n)) {
        assert Covers(ord, fs[0], d);
      } else {
        BelowTransitive(ord, Lo(fs[1], n), Hi(fs[0], n), d);
        assert Covers(ord, fs[1], d);
      }
    }
  }

  lemma {:induction false} ThreeSorted(snd: Order, nbrs: seq<Nbr>)
    requires |nbrs| == 3 && |nbrs[0].addr| == |nbrs[1].addr| == |nbrs[2].addr| == 4
    requires Before(snd, nbrs, 0, 1) && Before(snd, nbrs, 1, 2) && Before(snd, nbrs, 0, 2)
    ensures Sorted(snd, nbrs, 4)
  {
    forall i, j | 0 <= i < j < |nbrs|
      ensures Before(snd, nbrs, i, j)
    {
      assert (i == 0 && j == 1) || (i == 1 && j == 2) || (i == 0 && j == 2);
    }
  }

  lemma {:induction false} TwoRun(snd: Order, nbrs: seq<Nbr>, cuts: seq<int>, fs: seq<Fragment>, flag: nat)
    requires TwoMessages(nbrs, cuts, fs, flag) && |nbrs[0].addr| == |nbrs[1].addr| == |nbrs[2].addr| == 4
    requires Before(snd, nbrs, 0, 1) && Before(snd, nbrs, 1, 2) && Before(snd, nbrs, 0, 2)
    requires IsFlag(nbrs[0].addr, nbrs[1].addr, flag)
    ensures Run(snd, nbrs, 4, cuts, fs) && Bordered(fs[0], 4) && Bordered(fs[1], 4)
  {
    ThreeSorted(snd, nbrs);
    FirstAndLast(nbrs);
    assert SentAt(nbrs, cuts, fs, 0) && SentAt(nbrs, cuts, fs, 1);
  }

  function Host(x: bv8): (r: Address)
    ensures |r| == 4
  {
    [10, 0, 0, x]
  }

  // A gap that opens: of the neighbours 10.0.0.1, 10.0.0.2 and 10.0.0.200 only the second is not advertised, and with
  // one address to a message the second message starts at 10.0.0.2, so that neither of them covers 10.0.0.2 itself.
  lemma UnadvertisedStart()
    ensures var nbrs := [Nbr(Host(1), true), Nbr(Host(2), false), Nbr(Host(200), true)];
      var fs := [Fragment(0xff, 2, [Host(1)]), Fragment(2, 0xff, [Host(200)])];
      Run(Bytewise, nbrs, 4, [0, 1, 3], fs) && !FirstAgrees(nbrs, 1, fs[1], 4) && !Covered(Bytewise, fs, Host(2))
  {
    var nbrs := [Nbr(Host(1), true), Nbr(Host(2), false), Nbr(Host(200), true)];
    var fs := [Fragment(0xff, 2, [Host(1)]), Fragment(2, 0xff, [Host(200)])];
    HostBorder(1, 2);
    HostBorder(2, 2);
    HostBorder(200, 2);
    assert Host(Cut(200, 2))[3] != Host(Cut(2, 2))[3];
    HostRun(nbrs, 1, 2, 200, [0, 1, 3], fs, 2);
    HostGap(nbrs, [0, 1, 3], fs, 2);
  }

  // Three hosts, of which the second is not advertised, in two messages.
  ghost predicate TwoMessages(nbrs: seq<Nbr>, cuts: seq<int>, fs: seq<Fragment>, flag: nat)
  {
    && |nbrs| == 3 && nbrs[0].adv && !nbrs[1].adv && nbrs[2].adv && cuts == [0, 1, 3] && |fs| == 2
    && fs[0] == Fragment(0xff, flag, [nbrs[0].addr]) && fs[1] == Fragment(flag, 0xff, [nbrs[2].addr])
  }

  lemma {:induction false} HostRun(nbrs: seq<Nbr>, x: bv8, y: bv8, z: bv8, cuts: seq<int>, fs: seq<Fragment>, flag: nat)
    requires TwoMessages(nbrs, cuts, fs, flag) && x < y < z && IsFlag(Host(x), Host(y), flag)
    requires nbrs[0].addr == Host(x) && nbrs[1].addr == Host(y) && nbrs[2].addr == Host(z)
    ensures Run(Bytewise, nbrs, 4, cuts, fs)
  {
    HostLess(x, y);
    HostLess(y, z);
    HostLess(x, z);
    TwoRun(Bytewise, nbrs, cuts, fs, flag);
  }

  lemma {:induction false} HostGap(nbrs: seq<Nbr>, cuts: seq<int>, fs: seq<Fragment>, flag: nat)
    requires TwoMessages(nbrs, cuts, fs, flag) && Run(Bytewise, nbrs, 4, cuts, fs) && 1 <= flag <= 8
      && |nbrs[0].addr| == |nbrs[1].addr| == |nbrs[2].addr| == 4
    requires BorderOf(nbrs[0].addr, flag) == nbrs[1].addr
      && BorderOf(nbrs[2].addr, flag) != BorderOf(nbrs[1].addr, flag)
    ensures !FirstAgrees(nbrs, 1, fs[1], 4) && !Covered(Bytewise, fs, nbrs[1].addr)
  {
    SameBorder(nbrs[2].addr, nbrs[1].addr, flag);
    StepUp(nbrs, 4, cuts, fs, 1);
    forall k | 0 <= k < |fs|
      ensures !Covers(Bytewise, fs[k], nbrs[1].addr)
    {
      Uncovered(nbrs, 4, cuts, fs, 1, k);
    }
  }

  lemma {:induction false} FirstAndLast(nbrs: seq<Nbr>)
    requires |nbrs| == 3 && nbrs[0].adv && !nbrs[1].adv && nbrs[2].adv
    ensures Adverts(nbrs[0..1]) == [nbrs[0].addr] && Adverts(nbrs[1..3]) == [nbrs[2].addr]
  {
    assert nbrs[1..3][..1] == [nbrs[1]] && Adverts([nbrs[1]]) == [];
  }

  // The border of a host in the last byte.
  lemma HostBorder(x: bv8, flag: nat)
    requires 1 <= flag <= 8
    ensures BorderOf(Host(x), flag) == Host(Cut(x, FlagBit(flag)))
  {
  }

  lemma HostLess(x: bv8, y: bv8)
    ensures Less(Host(x), Host(y)) <==> x < y
  {
    assert Host(x)[..3] == Host(y)[..3] && Host(x)[4..] == Host(y)[4..] == [];
    LessAt(Host(x), Host(y), 3);
  }

  // ---- reception ----

  ghost function ReceiveAll(ord: Order, m: Topology, o: Address, ansn: nat, msgs: seq<Fragment>): Topology
  {
    if msgs == [] then m else Receive(ord, ReceiveAll(ord, m, o, ansn, msgs[..|msgs| - 1]), o, ansn, msgs[|msgs| - 1])
  }

  ghost predicate Mentions(msgs: seq<Fragment>, d: Address)
  {
    exists f :: f in msgs && d in f.dests
  }

  ghost predicate CoversAny(ord: Order, msgs: seq<Fragment>, d: Address)
  {
    exists f :: f in msgs && Covers(ord, f, d)
  }

  // After any run of messages with one ANSN, newer than all edges of before: what they mention is real, what they
  // cover besides is gone, everything else is as it was.
  lemma {:induction false} AfterAll(ord: Order, m: Topology, o: Address, ansn: nat, msgs: seq<Fragment>,
                                    k: (Address, Address))
    requires k in m && k.0 == o ==> Seqno.Greater(ansn, m[k])
    ensures var r := ReceiveAll(ord, m, o, ansn, msgs);
      if k.0 == o && Mentions(msgs, k.1) then k in r && r[k] == ansn
      else (k in r <==> k in m && !(k.0 == o && CoversAny(ord, msgs, k.1))) && (k in r ==> r[k] == m[k])
  {
    if msgs != [] {
      var q, f := msgs[..|msgs| - 1], msgs[|msgs| - 1];
      AfterAll(ord, m, o, ansn, q, k);
      assert forall g :: g in msgs <==> g in q || g == f;
      assert Mentions(msgs, k.1) <==> Mentions(q, k.1) || k.1 in f.dests;
      assert CoversAny(ord, msgs, k.1) <==> CoversAny(ord, q, k.1) || Covers(ord, f, k.1);
    }
  }

  // The messages are the fragments, in any order, some perhaps more than once.
  ghost predicate Complete(fs: seq<Fragment>, msgs: seq<Fragment>)
  {
    forall f :: f in fs <==> f in msgs
  }

  lemma {:induction false} Reassembled(snd: Order, ord: Order, nbrs: seq<Nbr>, n: nat, cuts: seq<int>,
                                       fs: seq<Fragment>, msgs: seq<Fragment>, d: Address)
    requires Tiling(snd, nbrs, n, cuts, fs) && Complete(fs, msgs) && |d| == n
    ensures (Mentions(msgs, d) <==> d in Adverts(nbrs)) && (CoversAny(ord, msgs, d) <==> d != Fill(n, 0xff))
  {
    Union(nbrs, cuts, fs, |fs|, d);
    assert nbrs[..|nbrs|] == nbrs;
    NoGap(snd, ord, nbrs, n, cuts, fs, d);
    assert Mentions(msgs, d) <==> Mentioned(fs, |fs|, d);
    assert CoversAny(ord, msgs, d) <==> exists j :: 0 <= j < |fs| && Covers(ord, fs[j], d);
  }

  // A message without neighbours says nothing.
  lemma {:induction false} EmptyReceive(ord: Order, m: Topology, o: Address, ansn: nat, f: Fragment)
    requires f.dests == []
    ensures Receive(ord, m, o, ansn, f) == Advertise(m, o, ansn, f.dests)
  {
  }

  lemma {:induction false} SentFlags(ord: Order, nbrs: seq<Nbr>, n: nat, cuts: seq<int>, fs: seq<Fragment>, f: Fragment)
    requires Sorted(ord, nbrs, n) && 0 < n <= 31 && Sent(nbrs, cuts, fs) && f in fs
    ensures FragmentOk(f, n) && FlagOk(f.lower, n) && FlagOk(f.upper, n)
      && forall d :: d in f.dests ==> d in Adverts(nbrs)
  {
    var i :| 0 <= i < |fs| && fs[i] == f;
    assert SentAt(nbrs, cuts, fs, i);
    forall d | d in f.dests
      ensures |d| == n && d in Adverts(nbrs)
    {
      AdvertsIn(nbrs[cuts[i]..cuts[i + 1]], d);
      var k :| 0 <= k < cuts[i + 1] - cuts[i] && nbrs[cuts[i]..cuts[i + 1]][k].adv
        && nbrs[cuts[i]..cuts[i + 1]][k].addr == d;
      assert nbrs[cuts[i] + k].adv && nbrs[cuts[i] + k].addr == d;
      AdvertsIn(nbrs, d);
    }
  }

  // The real edges of o are its advertised neighbours, with the ANSN of the messages, and no others have changed.
  ghost predicate Mirrored(m: Topology, r: Topology, o: Address, ansn: nat, nbrs: seq<Nbr>, n: nat)
  {
    && (forall d {:trigger (o, d) in r} ::
      |d| == n ==> ((o, d) in r <==> d in Adverts(nbrs) || (d == Fill(n, 0xff) && (o, d) in m)))
    && (forall d {:trigger r[(o, d)]} :: |d| == n && d in Adverts(nbrs) && (o, d) in r ==> r[(o, d)] == ansn)
    && (forall k: (Address, Address) {:trigger k in r} {:trigger k in m} ::
      k.0 != o ==> (k in r <==> k in m) && (k in r ==> r[k] == m[k]))
  }

  lemma {:induction false} AllDelivered(snd: Order, ord: Order, m: Topology, o: Address, ansn: nat, nbrs: seq<Nbr>,
                                        n: nat, cuts: seq<int>, fs: seq<Fragment>, msgs: seq<Fragment>)
    requires Tiling(snd, nbrs, n, cuts, fs) && Complete(fs, msgs)
    requires forall k :: k in m && k.0 == o ==> Seqno.Greater(ansn, m[k])
    ensures Mirrored(m, ReceiveAll(ord, m, o, ansn, msgs), o, ansn, nbrs, n)
  {
    var r := ReceiveAll(ord, m, o, ansn, msgs);
    forall k: (Address, Address)
      ensures k.0 != o ==> (k in r <==> k in m) && (k in r ==> r[k] == m[k])
      ensures k.0 == o && |k.1| == n ==> (k in r <==> k.1 in Adverts(nbrs) || (k.1 == Fill(n, 0xff) && k in m))
      ensures k.0 == o && |k.1| == n && k.1 in Adverts(nbrs) ==> r[k] == ansn
    {
      AfterAll(ord, m, o, ansn, msgs, k);
      if |k.1| == n {
        Reassembled(snd, ord, nbrs, n, cuts, fs, msgs, k.1);
      }
    }
  }

  // A message with a sender's flags that is not too old: its neighbours are real, and older edges it covers are not.
  method DeliverOne(db: Database, o: Address, ansn: nat, f: Fragment)
    requires db.Valid() && o != db.myself && |o| == db.ipsize && Foreign(db.edges) && o !in f.dests
    requires FragmentOk(f, db.ipsize) && FlagOk(f.lower, db.ipsize) && FlagOk(f.upper, db.ipsize)
    requires o in db.nodes && db.nodes[o].seen && !db.nodes[o].virt ==> Seqno.Diff(ansn, db.nodes[o].ansn) >= 0
    modifies db
    ensures db.Valid() && Foreign(db.edges)
    ensures RealEdges(db.nodes, db.edges) == Receive(db.order, RealEdges(old(db.nodes), old(db.edges)), o, ansn, f)
    ensures o in db.nodes && db.nodes[o].seen && db.nodes[o].ansn == ansn
  {
    if f.dests == [] {
      EmptyReceive(db.order, RealEdges(db.nodes, db.edges), o, ansn, f);
    }
    var out := db.InputTc(o, ansn, false, f);
  }

  // The database can take a message of o with the ANSN, and its edges of o are all older.
  ghost predicate Awaits(db: Database, o: Address, ansn: nat)
    reads db
  {
    && db.Valid() && o != db.myself && |o| == db.ipsize > 0 && Foreign(db.edges)
    && (o in db.nodes && db.nodes[o].seen && !db.nodes[o].virt ==> Seqno.Diff(ansn, db.nodes[o].ansn) >= 0)
    && forall k :: k in RealEdges(db.nodes, db.edges) && k.0 == o ==>
      Seqno.Greater(ansn, RealEdges(db.nodes, db.edges)[k])
  }

  // All messages of one output run delivered, from a sender with its neighbours in any order.
  method Deliver(db: Database, o: Address, ansn: nat, msgs: seq<Fragment>, ghost snd: Order, ghost nbrs: seq<Nbr>,
                 ghost cuts: seq<int>, ghost fs: seq<Fragment>)
    requires Awaits(db, o, ansn)
    requires Sorted(snd, nbrs, db.ipsize) && Sent(nbrs, cuts, fs) && Complete(fs, msgs) && o !in Adverts(nbrs)
    modifies db
    ensures db.Valid() && Foreign(db.edges)
    ensures RealEdges(db.nodes, db.edges) ==
      ReceiveAll(db.order, RealEdges(old(db.nodes), old(db.edges)), o, ansn, msgs)
    ensures Tiling(snd, nbrs, db.ipsize, cuts, fs) ==>
      Mirrored(RealEdges(old(db.nodes), old(db.edges)), RealEdges(db.nodes, db.edges), o, ansn, nbrs, db.ipsize)
  {
    ghost var m := RealEdges(db.nodes, db.edges);
    for i := 0 to |msgs|
      invariant db.Valid() && Foreign(db.edges)
        && RealEdges(db.nodes, db.edges) == ReceiveAll(db.order, m, o, ansn, msgs[..i])
      invariant o in db.nodes && db.nodes[o].seen && !db.nodes[o].virt ==> Seqno.Diff(ansn, db.nodes[o].ansn) >= 0
    {
      assert msgs[i] in msgs && msgs[i] in fs;
      SentFlags(snd, nbrs, db.ipsize, cuts, fs, msgs[i]);
      assert msgs[..i + 1][..i] == msgs[..i];
      DeliverOne(db, o, ansn, msgs[i]);
    }
    assert msgs[..|msgs|] == msgs;
    if Tiling(snd, nbrs, db.ipsize, cuts, fs) {
      AllDelivered(snd, db.order, m, o, ansn, nbrs, db.ipsize, cuts, fs, msgs);
    }
  }

  // From the neighbour table of the sender to the database of the receiver, hosts of any two kinds, over a network that
  // loses nothing but may reorder and repeat.
  method Exchange(nbrs: seq<Nbr>, room: nat, ansn: nat, ghost snd: Order, network: seq<Fragment> -> seq<Fragment>,
                  db: Database, o: Address)
    returns (ghost cuts: seq<int>, ghost fs: seq<Fragment>)
    requires Sorted(snd, nbrs, db.ipsize) && room >= 1 && o !in Adverts(nbrs) && forall s :: Complete(s, network(s))
    requires Awaits(db, o, ansn)
    modifies db
    ensures db.Valid() && Sent(nbrs, cuts, fs) && fs != [] && cuts[|fs|] == |nbrs|
    ensures Tiling(snd, nbrs, db.ipsize, cuts, fs) ==>
      Mirrored(RealEdges(old(db.nodes), old(db.edges)), RealEdges(db.nodes, db.edges), o, ansn, nbrs, db.ipsize)
    ensures nbrs != [] && (forall i :: 0 <= i < |nbrs| ==> nbrs[i].adv) ==> Tiling(snd, nbrs, db.ipsize, cuts, fs)
  {
    var sent;
    sent, cuts := OutputAll(nbrs, room, snd, db.ipsize);
    fs := sent;
    if nbrs != [] && forall i :: 0 <= i < |nbrs| ==> nbrs[i].adv {
      AllAdvertised(snd, nbrs, db.ipsize, cuts, fs);
    }
    Deliver(db, o, ansn, network(sent), snd, nbrs, cuts, fs);
  }

  // If every neighbour is advertised the messages tile the address space.
  lemma {:induction false} AllAdvertised(snd: Order, nbrs: seq<Nbr>, n: nat, cuts: seq<int>, fs: seq<Fragment>)
    requires Sorted(snd, nbrs, n) && n <= 31 && Sent(nbrs, cuts, fs) && fs != [] && cuts[|fs|] == |nbrs|
    requires nbrs != [] && (forall i :: 0 <= i < |nbrs| ==> nbrs[i].adv) && InnerCuts(nbrs, cuts, fs)
    ensures Tiling(snd, nbrs, n, cuts, fs)
  {
    forall i | 0 < i < |fs|
      ensures 0 < cuts[i] < |nbrs|
    {
      assert CutAt(nbrs, cuts, fs, i);
    }
    forall f | f in fs
      ensures f.dests != []
    {
      var i :| 0 <= i < |fs| && fs[i] == f;
      assert i + 1 < |fs| ==> CutAt(nbrs, cuts, fs, i + 1);
      assert SentAt(nbrs, cuts, fs, i) && 0 <= cuts[i] < cuts[i + 1];
      AdvertsAll(nbrs[cuts[i]..cuts[i + 1]]);
    }
    SentTiles(snd, nbrs, n, cuts, fs);
  }

  lemma {:induction false} AdvertsAll(nbrs: seq<Nbr>)
    requires forall i :: 0 <= i < |nbrs| ==> nbrs[i].adv
    ensures |Adverts(nbrs)| == |nbrs|
  {
    if nbrs != [] {
      AdvertsAll(nbrs[..|nbrs| - 1]);
    }
  }
}
