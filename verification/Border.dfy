/** The one-byte border flag that delimits a TC fragment (src/tc_set.c): the sender encodes the first bit in which
    two adjacent neighbour addresses differ, the receiver rebuilds the border from either address. */
module Border {

  import opened Basics

  // memcmp order of two addresses of one length
  predicate Less(x: Address, y: Address)
    requires |x| == |y|
  {
    x != [] && (x[0] < y[0] || (x[0] == y[0] && Less(x[1..], y[1..])))
  }

  lemma {:induction false} LessTotal(x: Address, y: Address)
    requires |x| == |y|
    ensures x == y <==> !Less(x, y) && !Less(y, x)
    ensures !(Less(x, y) && Less(y, x))
  {
    if x != [] {
      LessTotal(x[1..], y[1..]);
      assert x == [x[0]] + x[1..] && y == [y[0]] + y[1..];
    }
  }

  lemma {:induction false} LessTransitive(x: Address, y: Address, z: Address)
    requires |x| == |y| == |z|
    requires !Less(y, x) && !Less(z, y)
    ensures !Less(z, x) && ((Less(x, y) || Less(y, z)) ==> Less(x, z))
  {
    if x != [] && x[0] == y[0] == z[0] {
      LessTransitive(x[1..], y[1..], z[1..]);
    }
  }

  function Fill(n: nat, b: bv8): (r: Address)
    ensures |r| == n && forall i :: 0 <= i < n ==> r[i] == b
  {
    seq(n, i => b)
  }

  lemma {:induction false} Extremes(x: Address)
    ensures !Less(x, Fill(|x|, 0)) && (Less(x, Fill(|x|, 0xff)) <==> x != Fill(|x|, 0xff))
  {
    if x != [] {
      Extremes(x[1..]);
      assert Fill(|x|, 0)[1..] == Fill(|x| - 1, 0) && Fill(|x|, 0xff)[1..] == Fill(|x| - 1, 0xff);
      assert x == [x[0]] + x[1..];
    }
  }

  function Reversed(x: Address): (r: Address)
    ensures |r| == |x| && forall i :: 0 <= i < |x| ==> r[i] == x[|x| - 1 - i]
  {
    seq(|x|, i requires 0 <= i < |x| => x[|x| - 1 - i])
  }

  // How a host compares two addresses in its trees: IPv6 addresses and, on a big-endian host, IPv4 addresses byte by
  // byte; IPv4 addresses on a little-endian host as integers, and so from the last byte on.
  datatype Order = Bytewise | Raw

  predicate Below(o: Order, x: Address, y: Address)
    requires |x| == |y|
  {
    if o == Raw then Less(Reversed(x), Reversed(y)) else Less(x, y)
  }

  lemma {:induction false} Mirror(x: Address, y: Address)
    requires |x| == |y|
    ensures Reversed(x) == Reversed(y) <==> x == y
  {
    assert forall i :: 0 <= i < |x| ==> x[i] == Reversed(x)[|x| - 1 - i] && y[i] == Reversed(y)[|x| - 1 - i];
  }

  lemma {:induction false} BelowTotal(o: Order, x: Address, y: Address)
    requires |x| == |y|
    ensures x == y <==> !Below(o, x, y) && !Below(o, y, x)
    ensures !(Below(o, x, y) && Below(o, y, x))
  {
    LessTotal(x, y);
    LessTotal(Reversed(x), Reversed(y));
    Mirror(x, y);
  }

  lemma {:induction false} BelowTransitive(o: Order, x: Address, y: Address, z: Address)
    requires |x| == |y| == |z|
    requires !Below(o, y, x) && !Below(o, z, y)
    ensures !Below(o, z, x) && ((Below(o, x, y) || Below(o, y, z)) ==> Below(o, x, z))
  {
    if o == Raw {
      LessTransitive(Reversed(x), Reversed(y), Reversed(z));
    } else {
      LessTransitive(x, y, z);
    }
  }

  // Nothing is below all zeros, only the all-ones address is not below all ones.
  lemma {:induction false} Ends(o: Order, x: Address)
    ensures !Below(o, x, Fill(|x|, 0)) && (Below(o, x, Fill(|x|, 0xff)) <==> x != Fill(|x|, 0xff))
  {
    Extremes(x);
    Extremes(Reversed(x));
    assert Reversed(Fill(|x|, 0)) == Fill(|x|, 0) && Reversed(Fill(|x|, 0xff)) == Fill(|x|, 0xff);
    Mirror(x, Fill(|x|, 0xff));
  }

  // ---- one byte ----

  // 1 << p
  function Bit(p: nat): bv8
    requires p < 8
  {
    if p == 0 then 1 else if p == 1 then 2 else if p == 2 then 4 else if p == 3 then 8
    else if p == 4 then 0x10 else if p == 5 then 0x20 else if p == 6 then 0x40 else 0x80
  }

  // 0xff << p cut to a byte, for b == 1 << p
  function Mask(b: bv8): bv8 { !(b - 1) }

  predicate Power(b: bv8) { b != 0 && b & (b - 1) == 0 }

  function Cut(x: bv8, b: bv8): bv8 { (x & Mask(b)) | b }

  // The highest bit in which two bytes differ is b.
  predicate Differ(l: bv8, h: bv8, b: bv8) { (l ^ h) & Mask(b) == b }

  lemma BitPower(p: nat)
    requires p < 8
    ensures Power(Bit(p)) && (p < 7 ==> Bit(p + 1) == Bit(p) << 1) && (p == 7 ==> Mask(Bit(p)) << 1 == 0)
  {
  }

  lemma CutBetween(l: bv8, h: bv8, b: bv8)
    requires Power(b) && l < h && Differ(l, h, b)
    ensures Cut(l, b) == Cut(h, b) && l < Cut(h, b) <= h
  {
  }

  // One step of the search for the differing bit.
  lemma NextBit(l: bv8, h: bv8, b: bv8)
    requires Power(b) && (l ^ h) & Mask(b) != 0
    ensures l & (Mask(b) << 1) == h & (Mask(b) << 1) <==> Differ(l, h, b)
  {
  }

  lemma SomeBit(l: bv8, h: bv8)
    requires l != h
    ensures (l ^ h) & Mask(1) != 0
  {
  }

  lemma SameCut(x: bv8, y: bv8, b: bv8)
    requires Power(b)
    ensures Cut(x, b) == Cut(y, b) <==> x & (Mask(b) << 1) == y & (Mask(b) << 1)
  {
  }

  // ---- whole addresses ----

  // The byte and the bit a border flag stands for.
  function FlagPart(n: nat, flag: nat): nat
    requires 1 <= flag <= 8 * n
  {
    n - 1 - (flag - 1) / 8
  }

  function FlagBit(flag: nat): bv8
    requires 1 <= flag
  {
    Bit((flag - 1) % 8)
  }

  // The two addresses agree up to byte part and there down to bit b, in which they differ.
  predicate DiffersAt(l: Address, h: Address, part: nat, b: bv8)
  {
    part < |l| == |h| && l[..part] == h[..part] && Power(b) && Differ(l[part], h[part], b)
  }

  function BorderOf(x: Address, flag: nat): (r: Address)
    requires 1 <= flag <= 8 * |x|
    ensures |r| == |x|
  {
    var part := FlagPart(|x|, flag);
    x[..part] + [Cut(x[part], FlagBit(flag))] + Fill(|x| - part - 1, 0)
  }

  lemma {:induction false} LessAt(x: Address, y: Address, part: nat)
    requires part < |x| == |y| && x[..part] == y[..part]
    ensures x[part] < y[part] ==> Less(x, y)
    ensures x[part] == y[part] ==> (Less(x, y) <==> Less(x[part + 1..], y[part + 1..]))
    ensures x[part] > y[part] ==> !Less(x, y)
  {
    if part > 0 {
      assert x[0] == x[..part][0] && y[0] == y[..part][0];
      assert x[1..][..part - 1] == x[..part][1..] && y[1..][..part - 1] == y[..part][1..];
      LessAt(x[1..], y[1..], part - 1);
      assert x[1..][part..] == x[part + 1..] && y[1..][part..] == y[part + 1..];
    }
  }

  lemma {:induction false} BorderParts(x: Address, flag: nat)
    requires 1 <= flag <= 8 * |x|
    ensures var part, r := FlagPart(|x|, flag), BorderOf(x, flag);
      r[..part] == x[..part] && r[part] == Cut(x[part], FlagBit(flag)) && r[part + 1..] == Fill(|x| - part - 1, 0)
  {
  }

  // Both addresses rebuild the same border.
  lemma {:induction false} OneBorder(prev: Address, next: Address, flag: nat)
    requires 1 <= flag <= 8 * |prev| && |prev| == |next|
    requires DiffersAt(prev, next, FlagPart(|prev|, flag), FlagBit(flag))
    ensures BorderOf(prev, flag) == BorderOf(next, flag)
  {
    var part, b := FlagPart(|prev|, flag), FlagBit(flag);
    OneDifference(prev[part], next[part], b, b);
    if prev[part] < next[part] {
      CutBetween(prev[part], next[part], b);
    } else {
      CutBetween(next[part], prev[part], b);
    }
  }

  // Both addresses rebuild the same border, which lies after the first and not after the second.
  lemma {:induction false} BorderBetween(prev: Address, next: Address, flag: nat)
    requires 1 <= flag <= 8 * |prev| && |prev| == |next| && Less(prev, next)
    requires DiffersAt(prev, next, FlagPart(|prev|, flag), FlagBit(flag))
    ensures BorderOf(prev, flag) == BorderOf(next, flag)
    ensures Less(prev, BorderOf(next, flag)) && !Less(next, BorderOf(next, flag))
  {
    var part, b := FlagPart(|prev|, flag), FlagBit(flag);
    var border := BorderOf(next, flag);
    OneDifference(prev[part], next[part], b, b);
    LessAt(prev, next, part);
    CutBetween(prev[part], next[part], b);
    BorderParts(next, flag);
    LessAt(prev, border, part);
    LessAt(next, border, part);
    Extremes(next[part + 1..]);
  }

  // ---- the raw order ----

  // The raw order decides by the last byte first.
  lemma {:induction false} RawLast(x: Address, y: Address)
    requires |x| == |y| && x != []
    ensures var k := |x| - 1; Below(Raw, x, y) <==> x[k] < y[k] || (x[k] == y[k] && Below(Raw, x[..k], y[..k]))
  {
    var k := |x| - 1;
    assert Reversed(x)[1..] == Reversed(x[..k]) && Reversed(y)[1..] == Reversed(y[..k]);
  }

  predicate ZeroAfter(x: Address, part: nat) { forall j :: part < j < |x| ==> x[j] == 0 }

  // Against an address that is zero after a byte up to which the two agree.
  lemma {:induction false} RawAgainst(x: Address, y: Address, part: nat)
    requires part < |x| == |y| && x[..part] == y[..part] && ZeroAfter(y, part)
    ensures Below(Raw, x, y) <==> x[part] < y[part] && ZeroAfter(x, part)
  {
    var k := |x| - 1;
    RawLast(x, y);
    if part == k {
      BelowTotal(Raw, x[..k], y[..k]);
    } else {
      assert x[..k][..part] == x[..part] && y[..k][..part] == y[..part];
      RawAgainst(x[..k], y[..k], part);
    }
  }

  // In the raw order the border between two addresses lies between them exactly when the first is the smaller one in
  // the byte where they begin to differ and ends there.
  lemma {:induction false} RawOrderBorder(prev: Address, next: Address, flag: nat)
    requires 1 <= flag <= 8 * |prev| && |prev| == |next|
    requires DiffersAt(prev, next, FlagPart(|prev|, flag), FlagBit(flag))
    ensures Below(Raw, prev, BorderOf(next, flag)) && !Below(Raw, next, BorderOf(next, flag))
      <==> var p := FlagPart(|prev|, flag); prev[p] < next[p] && ZeroAfter(prev, p)
  {
    var p, b := FlagPart(|prev|, flag), FlagBit(flag);
    var border := BorderOf(next, flag);
    OneDifference(prev[p], next[p], b, b);
    assert border[..p] == next[..p] == prev[..p] && border[p] == Cut(next[p], b);
    RawAgainst(prev, border, p);
    RawAgainst(next, border, p);
    if prev[p] < next[p] {
      CutBetween(prev[p], next[p], b);
    } else {
      CutBetween(next[p], prev[p], b);
    }
  }

  // 1.0.0.0 is before 0.1.0.0 in the raw order, but the border between them is 1.0.0.0 itself.
  lemma RawOrderFails()
    ensures var prev: Address, next: Address := [1, 0, 0, 0], [0, 1, 0, 0];
      && Below(Raw, prev, next) && DiffersAt(prev, next, FlagPart(4, 25), FlagBit(25)) && BorderOf(next, 25) == prev
  {
    var prev: Address, next: Address := [1, 0, 0, 0], [0, 1, 0, 0];
    RawLast(prev, next);
    RawLast(prev[..3], next[..3]);
    RawLast(prev[..3][..2], next[..3][..2]);
    assert BorderOf(next, 25) == [1] + Fill(3, 0);
  }

  // The order in which the border of two neighbouring addresses separates them.
  ghost predicate Separates(o: Order, prev: Address, next: Address, flag: nat)
    requires 1 <= flag <= 8 * |prev| && |prev| == |next|
  {
    o == Bytewise || (var p := FlagPart(|prev|, flag); prev[p] < next[p] && ZeroAfter(prev, p))
  }

  lemma {:induction false} BorderWithin(o: Order, prev: Address, next: Address, flag: nat)
    requires 1 <= flag <= 8 * |prev| && |prev| == |next| && Below(o, prev, next)
    requires DiffersAt(prev, next, FlagPart(|prev|, flag), FlagBit(flag))
    ensures Separates(o, prev, next, flag) <==>
      Below(o, prev, BorderOf(next, flag)) && !Below(o, next, BorderOf(next, flag))
  {
    if o == Raw {
      RawOrderBorder(prev, next, flag);
    } else {
      BorderBetween(prev, next, flag);
    }
  }

  lemma {:induction false} SameParts(x: Address, y: Address, flag: nat)
    requires 1 <= flag <= 8 * |x| && |x| == |y|
    ensures var part, b := FlagPart(|x|, flag), FlagBit(flag);
      BorderOf(x, flag) == BorderOf(y, flag) <==> x[..part] == y[..part] && Cut(x[part], b) == Cut(y[part], b)
  {
    BorderParts(x, flag);
    BorderParts(y, flag);
  }

  // The two addresses agree above the flagged bit.
  predicate AgreeAbove(x: Address, y: Address, flag: nat)
    requires 1 <= flag <= 8 * |x| && |x| == |y|
  {
    var part, above := FlagPart(|x|, flag), Mask(FlagBit(flag)) << 1;
    x[..part] == y[..part] && x[part] & above == y[part] & above
  }

  // Which other addresses rebuild the same border: those that agree with this one above the flagged bit.
  lemma {:induction false} SameBorder(x: Address, y: Address, flag: nat)
    requires 1 <= flag <= 8 * |x| && |x| == |y|
    ensures BorderOf(x, flag) == BorderOf(y, flag) <==> AgreeAbove(x, y, flag)
  {
    var part, b := FlagPart(|x|, flag), FlagBit(flag);
    BitPower((flag - 1) % 8);
    SameCut(x[part], y[part], b);
    SameParts(x, y, flag);
  }

  lemma CutRises(x: bv8, y: bv8, b: bv8)
    requires Power(b) && x <= y
    ensures Cut(x, b) <= Cut(y, b)
  {
  }

  lemma {:induction false} BorderTail(x: Address, flag: nat)
    requires 1 <= flag <= 8 * |x| && FlagPart(|x|, flag) > 0
    ensures flag <= 8 * (|x| - 1) && BorderOf(x, flag)[0] == x[0] && BorderOf(x, flag)[1..] == BorderOf(x[1..], flag)
  {
  }

  // A greater address rebuilds no smaller border.
  lemma {:induction false} BorderRises(x: Address, y: Address, flag: nat)
    requires 1 <= flag <= 8 * |x| && |x| == |y| && !Less(y, x)
    ensures !Less(BorderOf(y, flag), BorderOf(x, flag))
  {
    if FlagPart(|x|, flag) == 0 {
      BitPower((flag - 1) % 8);
      BorderParts(x, flag);
      BorderParts(y, flag);
      CutRises(x[0], y[0], FlagBit(flag));
      LessTotal(BorderOf(x, flag)[1..], BorderOf(y, flag)[1..]);
    } else {
      BorderTail(x, flag);
      BorderTail(y, flag);
      if x[0] == y[0] {
        BorderRises(x[1..], y[1..], flag);
      }
    }
  }

  lemma OneDifference(l: bv8, h: bv8, b: bv8, c: bv8)
    requires Power(b) && Power(c) && Differ(l, h, b) && Differ(l, h, c)
    ensures b == c && l != h
  {
  }

  lemma AgreeBefore(l: Address, h: Address, part: nat)
    requires part <= |l| == |h| && l[..part] == h[..part]
    ensures forall i :: 0 <= i < part ==> l[i] == h[i]
  {
    forall i | 0 <= i < part
      ensures l[i] == h[i]
    {
      assert l[i] == l[..part][i] && h[i] == h[..part][i];
    }
  }

  // Two addresses differ first in one place only, so they have one flag.
  lemma {:induction false} FlagUnique(l: Address, h: Address, f: nat, g: nat)
    requires 1 <= f <= 8 * |l| && 1 <= g <= 8 * |l| && |l| == |h|
    requires DiffersAt(l, h, FlagPart(|l|, f), FlagBit(f)) && DiffersAt(l, h, FlagPart(|l|, g), FlagBit(g))
    ensures f == g
  {
    var p, q := FlagPart(|l|, f), FlagPart(|l|, g);
    OneDifference(l[p], h[p], FlagBit(f), FlagBit(f));
    OneDifference(l[q], h[q], FlagBit(g), FlagBit(g));
    AgreeBefore(l, h, p);
    AgreeBefore(l, h, q);
    OneDifference(l[p], h[p], FlagBit(f), FlagBit(g));
  }

  // The bytes differ in bit p or above, and the mask covers the bits above p.
  predicate Searching(l: bv8, h: bv8, p: nat, mask: bv8)
  {
    p < 8 && mask == Mask(Bit(p)) << 1 && (l ^ h) & Mask(Bit(p)) != 0
  }

  // The bits above bit p agree: bit p is the highest that differs.
  lemma SearchEnds(l: bv8, h: bv8, p: nat, mask: bv8)
    requires Searching(l, h, p, mask) && l & mask == h & mask
    ensures Power(Bit(p)) && Differ(l, h, Bit(p))
  {
    BitPower(p);
    NextBit(l, h, Bit(p));
  }

  lemma GoesOn(l: bv8, h: bv8, b: bv8, next: bv8, mask: bv8)
    requires Power(b) && mask == Mask(b) << 1 && (l ^ h) & Mask(b) != 0 && l & mask != h & mask
    requires b != 0x80 ==> next == b << 1
    ensures b != 0x80 && mask << 1 == Mask(next) << 1 && (l ^ h) & Mask(next) != 0
  {
  }

  lemma TopBit(p: nat)
    requires p < 8
    ensures Bit(p) == 0x80 <==> p == 7
  {
  }

  lemma SearchGoesOn(l: bv8, h: bv8, p: nat, mask: bv8)
    requires Searching(l, h, p, mask) && l & mask != h & mask
    ensures Searching(l, h, p + 1, mask << 1)
  {
    BitPower(p);
    TopBit(p);
    GoesOn(l, h, Bit(p), if p < 7 then Bit(p + 1) else 0, mask);
  }

  // The second loop of calculate_border_flag: the position of the highest bit in which two bytes differ.
  method HighestDifference(l: bv8, h: bv8) returns (bitpos: nat)
    requires l != h
    ensures bitpos < 8 && Power(Bit(bitpos)) && Differ(l, h, Bit(bitpos))
  {
    var bitmask: bv8 := 0xfe;
    bitpos := 0;
    SomeBit(l, h);
    while bitpos < 8
      invariant Searching(l, h, bitpos, bitmask)
      decreases 8 - bitpos
    {
      if l & bitmask == h & bitmask {
        break;
      }
      SearchGoesOn(l, h, bitpos, bitmask);
      bitpos, bitmask := bitpos + 1, bitmask << 1;
    }
    SearchEnds(l, h, bitpos, bitmask);
  }

  // calculate_border_flag
  method CalculateFlag(lower: Address, higher: Address) returns (flag: nat)
    requires |lower| == |higher| <= 31
    ensures flag <= 8 * |lower| && (flag == 0 <==> lower == higher)
    ensures flag != 0 ==> DiffersAt(lower, higher, FlagPart(|lower|, flag), FlagBit(flag))
  {
    var part := 0;
    while part < |lower|
      invariant part <= |lower| && lower[..part] == higher[..part]
    {
      if lower[part] != higher[part] {
        break;
      }
      part := part + 1;
    }
    if part == |lower| {
      assert lower[..part] == lower && higher[..part] == higher;
      return 0;
    }
    var bitpos := HighestDifference(lower[part], higher[part]);
    FlagSplit(|lower|, part, bitpos);
    flag := bitpos + 8 * (|lower| - part - 1) + 1;
  }

  lemma FlagSplit(n: nat, part: nat, p: nat)
    requires part < n && p < 8
    ensures FlagPart(n, p + 8 * (n - part - 1) + 1) == part && (p + 8 * (n - part - 1)) % 8 == p
  {
  }

  // One half of olsr_calculate_tc_border: overwrites the address with the border, unless the flag leads it to write
  // before the address.
  method RebuildBorder(a: array<bv8>, flag: nat, extreme: bv8) returns (inside: bool)
    requires flag < 256 && a.Length <= 31
    modifies a
    ensures inside <==> FlagOk(flag, a.Length)
    ensures a[..] == if inside then BorderFrom(old(a[..]), flag, extreme) else Fill(a.Length, 0)
  {
    FlagBounds(flag, a.Length);
    var n := a.Length;
    if flag == 0xff {
      for i := 0 to n
        invariant forall j :: 0 <= j < i ==> a[j] == extreme
      {
        a[i] := extreme;
      }
      return true;
    }
    var bits := LastBit(flag);
    for i := 0 to bits / 8
      invariant i <= n
      invariant forall j :: 0 <= j < n - i ==> a[j] == old(a[j])
      invariant forall j :: n - i <= j < n ==> a[j] == 0
    {
      if n - i - 1 < 0 {
        return false;
      }
      a[n - i - 1] := 0;
    }
    var part, b := n - bits / 8 - 1, Bit(bits % 8);
    if part < 0 {
      return false;
    }
    a[part] := a[part] & Mask(b);
    a[part] := a[part] | b;
    assert a[..part] == old(a[..part]);
    return true;
  }

  // The flag less one as an unsigned byte.
  function LastBit(flag: nat): nat { if flag == 0 then 255 else flag - 1 }

  // A flag a sender writes for addresses of n bytes.
  predicate FlagOk(flag: nat, n: nat) { flag == 0xff || 1 <= flag <= 8 * n }

  // These are the flags for which the receiver stays inside the address: neither 0 nor, in four bytes, 33 and above.
  lemma FlagBounds(flag: nat, n: nat)
    requires flag < 256 && n <= 31
    ensures FlagOk(flag, n) <==> flag == 0xff || n - LastBit(flag) / 8 - 1 >= 0
    ensures !FlagOk(0, n) && !FlagOk(33, 4)
  {
  }

  function BorderFrom(x: Address, flag: nat, extreme: bv8): (r: Address)
    requires FlagOk(flag, |x|)
    ensures |r| == |x|
  {
    if flag == 0xff then Fill(|x|, extreme) else BorderOf(x, flag)
  }

  datatype Borders = Unset | Set | Outside

  // olsr_calculate_tc_border on the first and last address of a message
  method CalculateBorder(lower: nat, first: array<bv8>, upper: nat, last: array<bv8>) returns (r: Borders)
    requires first != last && lower < 256 && upper < 256 && first.Length == last.Length <= 31
    modifies first, last
    ensures r.Unset? <==> lower == 0 && upper == 0
    ensures r.Set? <==> FlagOk(lower, first.Length) && FlagOk(upper, first.Length)
    ensures r.Unset? ==> first[..] == old(first[..]) && last[..] == old(last[..])
    ensures r.Set? ==>
      first[..] == BorderFrom(old(first[..]), lower, 0) && last[..] == BorderFrom(old(last[..]), upper, 0xff)
  {
    FlagBounds(lower, first.Length);
    FlagBounds(upper, first.Length);
    if lower == 0 && upper == 0 {
      return Unset;
    }
    var inside := RebuildBorder(first, lower, 0);
    if !inside {
      return Outside;
    }
    inside := RebuildBorder(last, upper, 0xff);
    return if inside then Set else Outside;
  }
}
