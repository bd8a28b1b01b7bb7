/** The key comparisons the trees are built with (src/common/avl_olsr_comp.c, src/ipcalc.h): which of them are the total
    preorders a tree needs. */
module Order {
  import Avl

  type Word = x: int | 0 <= x < 0x1_0000_0000

  datatype Prefix = Prefix(addr: Word, len: nat, origin: nat)

  // ip4cmp
  function CompAddress(a: Word, b: Word): int { if a > b then 1 else if a < b then -1 else 0 }

  // avl_comp_ipv4_prefix
  function CompPrefix(a: Prefix, b: Prefix): int
  {
    var diff := CompAddress(a.addr, b.addr);
    if diff != 0 then diff else b.len - a.len
  }

  // An unsigned difference stored in a signed 32-bit integer
  function Int32(x: int): int
  {
    var m := x % 0x1_0000_0000;
    if m < 0x8000_0000 then m else m - 0x1_0000_0000
  }

  // avl_comp_ipv4_prefix_origin
  function CompPrefixOrigin(a: Prefix, b: Prefix): int
  {
    var diff := Int32(b.addr - a.addr);
    if diff != 0 then diff
    else if b.len != a.len then b.len - a.len
    else b.origin - a.origin
  }

  // What the last one is meant to be: larger addresses first, then longer prefixes, then higher origins.
  function Intended(a: Prefix, b: Prefix): int
  {
    if b.addr != a.addr then b.addr - a.addr
    else if b.len != a.len then b.len - a.len
    else b.origin - a.origin
  }

  lemma PlainOrders()
    ensures Avl.TotalPreorder(CompAddress) && Avl.TotalPreorder(CompPrefix) && Avl.TotalPreorder(Intended)
  {
  }

  // Lower addresses come first, then longer prefixes; only the same prefix is equal.
  lemma PrefixOrder(a: Prefix, b: Prefix)
    ensures CompAddress(a.addr, b.addr) < 0 <==> a.addr < b.addr
    ensures CompPrefix(a, b) < 0 <==> a.addr < b.addr || (a.addr == b.addr && a.len > b.len)
    ensures CompPrefix(a, b) == 0 <==> a.addr == b.addr && a.len == b.len
    ensures Intended(a, b) < 0 <==>
      a.addr > b.addr || (a.addr == b.addr && (a.len > b.len || (a.len == b.len && a.origin > b.origin)))
    ensures Intended(a, b) == 0 <==> a == b
  {
  }

  // It is what it is meant to be exactly for addresses that are less than half the address space apart.
  lemma OriginOrder(a: Prefix, b: Prefix)
    ensures (CompPrefixOrigin(a, b) < 0 <==> Intended(a, b) < 0)
      && (CompPrefixOrigin(a, b) == 0 <==> Intended(a, b) == 0)
      <==> -0x8000_0000 <= b.addr - a.addr < 0x8000_0000
  {
  }

  // A comparison that is a total preorder on some of the keys.
  ghost predicate Orders(comp: (Prefix, Prefix) -> int, ps: set<Prefix>)
  {
    forall a, b, c {:trigger Avl.Triple(a, b, c)} :: a in ps && b in ps && c in ps && Avl.Triple(a, b, c) ==>
      && (comp(a, b) < 0 <==> comp(b, a) > 0)
      && (comp(a, b) <= 0 && comp(b, c) <= 0 ==> comp(a, c) <= 0)
  }

  // How far up from r an address lies, round the address space.
  function Above(r: Word, a: Word): int { (a - r) % 0x1_0000_0000 }

  // The addresses lie in the half of the address space that starts at r.
  ghost predicate InHalf(r: Word, ps: set<Prefix>)
  {
    forall a :: a in ps ==> Above(r, a.addr) < 0x8000_0000
  }

  lemma HalfOrders(r: Word, a: Prefix, b: Prefix)
    requires Above(r, a.addr) < 0x8000_0000 && Above(r, b.addr) < 0x8000_0000
    ensures Int32(b.addr - a.addr) == Above(r, b.addr) - Above(r, a.addr)
      && (Above(r, a.addr) == Above(r, b.addr) <==> a.addr == b.addr)
  {
  }

  // An order on finitely many keys has a first one.
  lemma {:induction false} First(ps: set<Prefix>) returns (p: Prefix)
    requires ps != {} && Orders(CompPrefixOrigin, ps)
    ensures p in ps && forall x :: x in ps ==> CompPrefixOrigin(p, x) >= 0
  {
    p :| p in ps;
    var rest := ps - {p};
    assert Avl.Triple(p, p, p) && forall x :: x in ps ==> x == p || x in rest;
    if rest != {} {
      var q := First(rest);
      assert Avl.Triple(p, q, p) && Avl.Triple(q, p, q);
      if CompPrefixOrigin(q, p) >= 0 {
        p := q;
      } else {
        forall x | x in rest
          ensures CompPrefixOrigin(p, x) >= 0
        {
          assert Avl.Triple(x, q, p) && Avl.Triple(q, x, p) && Avl.Triple(p, x, q) && Avl.Triple(x, p, q);
        }
      }
    }
  }

  // It is a total preorder on exactly those sets of prefixes whose addresses lie in some half of the address space.
  lemma {:induction false} OriginOrders(ps: set<Prefix>)
    ensures Orders(CompPrefixOrigin, ps) <==> exists r: Word :: InHalf(r, ps)
  {
    if r: Word :| InHalf(r, ps) {
      forall a, b, c | a in ps && b in ps && c in ps && Avl.Triple(a, b, c)
        ensures CompPrefixOrigin(a, b) < 0 <==> CompPrefixOrigin(b, a) > 0
        ensures CompPrefixOrigin(a, b) <= 0 && CompPrefixOrigin(b, c) <= 0 ==> CompPrefixOrigin(a, c) <= 0
      {
        HalfOrders(r, a, b);
        HalfOrders(r, b, a);
        HalfOrders(r, b, c);
        HalfOrders(r, a, c);
      }
    }
    if Orders(CompPrefixOrigin, ps) {
      if ps == {} {
        assert InHalf(0, ps);
      } else {
        var p := First(ps);
        assert InHalf(p.addr, ps);
      }
    }
  }

  // So it is on addresses that are pairwise less than half the address space apart.
  lemma {:induction false} CloseOrders(ps: set<Prefix>)
    requires forall a, b :: a in ps && b in ps ==> b.addr - a.addr < 0x8000_0000
    ensures Orders(CompPrefixOrigin, ps)
  {
    forall a, b, c | a in ps && b in ps && c in ps && Avl.Triple(a, b, c)
      ensures CompPrefixOrigin(a, b) < 0 <==> CompPrefixOrigin(b, a) > 0
      ensures CompPrefixOrigin(a, b) <= 0 && CompPrefixOrigin(b, c) <= 0 ==> CompPrefixOrigin(a, c) <= 0
    {
      OriginOrder(a, b);
      OriginOrder(b, a);
      OriginOrder(b, c);
      OriginOrder(a, c);
    }
  }

  // Over the whole address space it is no order at all: three prefixes, each before the next, in a circle.
  lemma OriginCycle()
    ensures var a, b, c := Prefix(0, 32, 0), Prefix(0x6000_0000, 32, 0), Prefix(0xc000_0000, 32, 0);
      CompPrefixOrigin(a, b) > 0 && CompPrefixOrigin(b, c) > 0 && CompPrefixOrigin(c, a) > 0
    ensures !Avl.TotalPreorder(CompPrefixOrigin)
  {
    var a, b, c := Prefix(0, 32, 0), Prefix(0x6000_0000, 32, 0), Prefix(0xc000_0000, 32, 0);
    assert Int32(b.addr - a.addr) == 0x6000_0000 && Int32(c.addr - b.addr) == 0x6000_0000
      && Int32(a.addr - c.addr) == 0x4000_0000;
    assert Avl.Triple(c, b, a) && Avl.Triple(a, c, b) && Avl.Triple(a, b, c) && Avl.Triple(b, c, a);
  }
}
