/** The link blocks of a HELLO message (src/link_set.c, src/process_package.c): what the writer groups by link code the
    reader takes apart again. The link-quality plugin is a codec of fixed size that brings the
    written values back. */
module Hello {
  import opened Basics

  const UNSPEC_LINK: nat := 0
  const ASYM_LINK: nat := 1
  const SYM_LINK: nat := 2
  const LOST_LINK: nat := 3
  const NOT_NEIGH: nat := 0
  const SYM_NEIGH: nat := 1
  const MPR_NEIGH: nat := 2
  const GROUPS: nat := 12

  // Address length in bytes, and the link-quality codec with the size of its output.
  datatype Format = Format(n: nat, size: nat, enc: nat -> seq<Byte>, dec: seq<Byte> -> nat)

  // A link as the message shows it.
  datatype Item = Item(addr: seq<Byte>, linkType: nat, nbrType: nat, lq: nat)

  // A link as the database has it: whether it is local to the interface, its timers, the state of its neighbour.
  datatype Link = Link(addr: seq<Byte>, local: bool, symTimer: bool, asymPast: bool, mpr: bool, sym: bool, lq: nat)

  function LinkStatus(l: Link): nat
  {
    if !l.local then UNSPEC_LINK else if l.symTimer then SYM_LINK else if !l.asymPast then ASYM_LINK else LOST_LINK
  }

  function NbrStatus(l: Link): nat { if l.mpr then MPR_NEIGH else if l.sym then SYM_NEIGH else NOT_NEIGH }

  function Shown(l: Link): Item { Item(l.addr, LinkStatus(l), NbrStatus(l), l.lq) }

  // How a link is shown: as symmetric while its timer runs, then as asymmetric until the other time is past, then as
  // lost; a link of another interface without type. Its neighbour as a relay of ours, as symmetric, or as neither.
  lemma ShownAs(l: Link)
    ensures Shown(l).addr == l.addr && Shown(l).lq == l.lq
    ensures Shown(l).linkType == 2 <==> l.local && l.symTimer
    ensures Shown(l).linkType == 1 <==> l.local && !l.symTimer && !l.asymPast
    ensures Shown(l).linkType == 3 <==> l.local && !l.symTimer && l.asymPast
    ensures Shown(l).linkType == 0 <==> !l.local
    ensures Shown(l).nbrType == 2 <==> l.mpr
    ensures Shown(l).nbrType == 1 <==> !l.mpr && l.sym
    ensures Shown(l).nbrType == 0 <==> !l.mpr && !l.sym
  {
  }

  // ---- what is written ----

  // The group of a link: its code.
  function Code(l: Link): nat { LinkStatus(l) + 4 * NbrStatus(l) }

  function Keep(l: Link, g: nat): seq<Link> { if Code(l) == g then [l] else [] }

  function Of(ls: seq<Link>, g: nat): seq<Link>
  {
    if ls == [] then [] else Of(ls[..|ls| - 1], g) + Keep(ls[|ls| - 1], g)
  }

  lemma {:induction false} OfIn(ls: seq<Link>, g: nat)
    ensures forall l :: l in Of(ls, g) ==> l in ls && Code(l) == g
  {
    if ls != [] {
      OfIn(ls[..|ls| - 1], g);
      assert ls[|ls| - 1] in ls;
    }
  }

  function Entry(c: Format, l: Link): seq<Byte> { l.addr + c.enc(l.lq) }

  function Entries(c: Format, ls: seq<Link>): seq<Byte>
  {
    if ls == [] then [] else Entries(c, ls[..|ls| - 1]) + Entry(c, ls[|ls| - 1])
  }

  // A 16-bit number as two bytes, the high one first.
  function Two(n: nat): (Byte, Byte)
    requires n < 0x1_0000
    decreases n
  {
    if n < 256 then (0, n as Byte) else var r := Two(n - 256); if r.0 == 255 then r else (r.0 + 1, r.1)
  }

  lemma {:induction false} TwoIs(n: nat)
    requires n < 0x1_0000
    ensures n / 256 < 256 && Two(n) == ((n / 256) as Byte, (n % 256) as Byte)
    ensures Two(n).0 as int * 256 + Two(n).1 as int == n
  {
    if n >= 256 {
      TwoIs(n - 256);
    }
  }

  // A link code, a reserved byte, a length.
  function Head(g: nat, length: nat): seq<Byte>
    requires g < GROUPS && length < 0x1_0000
  {
    [g as Byte, 0, Two(length).0, Two(length).1]
  }

  // The block of one link code: the code, a reserved byte, the length, the entries.
  function Block(c: Format, ls: seq<Link>, g: nat): seq<Byte>
    requires g < GROUPS && 4 + |Entries(c, Of(ls, g))| < 0x1_0000
  {
    var es := Entries(c, Of(ls, g));
    if Of(ls, g) == [] then [] else Head(g, 4 + |es|) + es
  }

  // The bytes of a block: the link type in the lower two bits of the code and the neighbour type in the next two, a
  // zero, the length of the block with the high byte first; then the links, each as its address followed by its link
  // quality.
  lemma {:induction false} BlockBytes(c: Format, ls: seq<Link>, g: nat)
    requires g < GROUPS && 4 + |Entries(c, Of(ls, g))| < 0x1_0000 && Of(ls, g) != []
    ensures var b, item := Block(c, ls, g), Shown(Of(ls, g)[0]);
      && |b| >= 4 && b[0] as int == item.linkType + 4 * item.nbrType && b[1] == 0
      && 256 * b[2] as int + b[3] as int == |b|
      && b[4..] == Entries(c, Of(ls, g))
  {
    var es := Entries(c, Of(ls, g));
    TwoIs(4 + |es|);
    OfIn(ls, g);
    assert Of(ls, g)[0] in Of(ls, g);
  }

  // Every block length fits its two bytes.
  ghost predicate Fits(c: Format, ls: seq<Link>)
  {
    forall g {:trigger FitsAt(c, ls, g)} :: 0 <= g < GROUPS ==> FitsAt(c, ls, g)
  }

  ghost predicate FitsAt(c: Format, ls: seq<Link>, g: nat) { 4 + |Entries(c, Of(ls, g))| < 0x1_0000 }

  ghost function From(c: Format, ls: seq<Link>, g: nat): seq<Byte>
    requires Fits(c, ls) && g <= GROUPS
    decreases GROUPS - g, |ls|
  {
    if g == GROUPS then [] else assert FitsAt(c, ls, g); Block(c, ls, g) + From(c, ls, g + 1)
  }

  // ---- the writer ----

  lemma {:induction false} OfNext(ls: seq<Link>, i: nat, g: nat)
    requires i < |ls|
    ensures Of(ls[..i + 1], g) == Of(ls[..i], g) + Keep(ls[i], g)
  {
    assert ls[..i + 1][..i] == ls[..i];
  }

  lemma {:induction false} EntriesNext(c: Format, ls: seq<Link>, l: Link)
    ensures Entries(c, ls + [l]) == Entries(c, ls) + Entry(c, l)
  {
    assert (ls + [l])[..|ls|] == ls;
  }

  // Where a block starts, if it has any entry, and the buffer so far: the length of the block is still zero.
  datatype Draft = Draft(start: int, buf: seq<Byte>)

  ghost function Drafted(c: Format, buf: seq<Byte>, of: seq<Link>, g: nat): Draft
    requires g < GROUPS
  {
    if of == [] then Draft(-1, buf) else Draft(|buf|, buf + Head(g, 0) + Entries(c, of))
  }

  lemma {:induction false} DraftedNext(c: Format, buf: seq<Byte>, of: seq<Link>, g: nat, l: Link)
    requires g < GROUPS
    ensures Drafted(c, buf, of + [l], g) == AddEntry(c, Drafted(c, buf, of, g), g, l)
  {
    EntriesNext(c, of, l);
    if of == [] {
      assert Entries(c, of) == [] && [] + Entry(c, l) == Entry(c, l);
    }
    Assoc(buf + Head(g, 0), Entries(c, of), Entry(c, l));
  }

  lemma Assoc(x: seq<Byte>, y: seq<Byte>, z: seq<Byte>)
    ensures x + y + z == x + (y + z)
  {
  }

  lemma CodeIs(l: Link, linkType: nat, nbrType: nat)
    requires linkType < 4
    ensures LinkStatus(l) == linkType && NbrStatus(l) == nbrType <==> Code(l) == linkType + 4 * nbrType
  {
  }

  lemma KeptIs(of: seq<Link>, l: Link, g: nat)
    ensures of + Keep(l, g) == if Code(l) == g then of + [l] else of
  {
  }

  // One link in the inner loop of generate_hello.
  method WriteLink(c: Format, l: Link, linkType: nat, nbrType: nat, d: Draft, ghost buf: seq<Byte>, ghost of: seq<Link>,
                   ghost g: nat)
    returns (d': Draft)
    requires linkType < 4 && nbrType < 3 && g == linkType + 4 * nbrType && d == Drafted(c, buf, of, g)
    ensures d' == Drafted(c, buf, of + Keep(l, g), g)
  {
    CodeIs(l, linkType, nbrType);
    KeptIs(of, l, g);
    if LinkStatus(l) != linkType || NbrStatus(l) != nbrType {
      assert of + Keep(l, g) == of;
      return d;
    }
    assert of + Keep(l, g) == of + [l];
    DraftedNext(c, buf, of, g, l);
    d' := AddEntry(c, d, linkType + 4 * nbrType, l);
  }

  // An entry more, after the head of the block if it is the first.
  function AddEntry(c: Format, d: Draft, g: nat, l: Link): Draft
    requires g < GROUPS
  {
    if d.start == -1 then Draft(|d.buf|, d.buf + Head(g, 0) + Entry(c, l)) else Draft(d.start, d.buf + Entry(c, l))
  }

  // The inner loop of generate_hello.
  method WriteEntries(c: Format, ls: seq<Link>, linkType: nat, nbrType: nat, buf: seq<Byte>,
                      ghost g: nat) returns (d: Draft)
    requires linkType < 4 && nbrType < 3 && g == linkType + 4 * nbrType
    ensures d == Drafted(c, buf, Of(ls, g), g)
  {
    d := Draft(-1, buf);
    for i := 0 to |ls|
      invariant d == Drafted(c, buf, Of(ls[..i], g), g)
    {
      OfNext(ls, i, g);
      d := WriteLink(c, ls[i], linkType, nbrType, d, buf, Of(ls[..i], g), g);
    }
    assert ls[..|ls|] == ls;
  }

  // A block of a message: its entries, and the length written afterwards.
  method WriteBlock(c: Format, ls: seq<Link>, linkType: nat, nbrType: nat, buf: seq<Byte>,
                    ghost g: nat) returns (buf': seq<Byte>)
    requires linkType < 4 && nbrType < 3 && g == linkType + 4 * nbrType && FitsAt(c, ls, g)
    ensures buf' == buf + Block(c, ls, g)
  {
    var d := WriteEntries(c, ls, linkType, nbrType, buf, g);
    BlockDone(c, ls, g, buf);
    buf' := d.buf;
    if d.start != -1 {
      var length := |d.buf| - d.start;
      TwoIs(length);
      buf' := d.buf[d.start + 2 := (length / 256) as Byte][d.start + 3 := (length % 256) as Byte];
    }
  }

  // The length field of a block that starts at a place.
  function SetLength(buf: seq<Byte>, start: nat, length: nat): seq<Byte>
    requires start + 4 <= |buf| && length < 0x1_0000
  {
    buf[start + 2 := Two(length).0][start + 3 := Two(length).1]
  }

  lemma {:induction false} Patched(buf: seq<Byte>, es: seq<Byte>, g: nat)
    requires g < GROUPS && 4 + |es| < 0x1_0000
    ensures SetLength(buf + Head(g, 0) + es, |buf|, 4 + |es|) == buf + (Head(g, 4 + |es|) + es)
  {
  }

  // A block is complete once its length is filled in.
  lemma {:induction false} BlockDone(c: Format, ls: seq<Link>, g: nat, buf: seq<Byte>)
    requires g < GROUPS && FitsAt(c, ls, g)
    ensures var d := Drafted(c, buf, Of(ls, g), g);
      if d.start == -1 then d.buf == buf + Block(c, ls, g)
      else
        && 0 <= d.start && d.start + 4 <= |d.buf| < d.start + 0x1_0000
        && SetLength(d.buf, d.start, |d.buf| - d.start) == buf + Block(c, ls, g)
  {
    var d, es := Drafted(c, buf, Of(ls, g), g), Entries(c, Of(ls, g));
    if d.start != -1 {
      assert |d.buf| == |buf| + 4 + |es|;
      Patched(buf, es, g);
    }
  }

  lemma {:induction false} FromNext(c: Format, ls: seq<Link>, g: nat, buf: seq<Byte>)
    requires Fits(c, ls) && g < GROUPS && FitsAt(c, ls, g)
    ensures buf + From(c, ls, g) == buf + Block(c, ls, g) + From(c, ls, g + 1)
  {
    Assoc(buf, Block(c, ls, g), From(c, ls, g + 1));
  }

  // What holds of the buffer before group g holds after its block has been written.
  ghost predicate Kept(c: Format, ls: seq<Link>, inv: (nat, seq<Byte>) -> bool, g: nat, buf: seq<Byte>)
    requires Fits(c, ls)
  {
    g < GROUPS && inv(g, buf) ==> assert FitsAt(c, ls, g); inv(g + 1, buf + Block(c, ls, g))
  }

  ghost predicate Invariant(c: Format, ls: seq<Link>, inv: (nat, seq<Byte>) -> bool)
    requires Fits(c, ls)
  {
    forall g, buf {:trigger Kept(c, ls, inv, g, buf)} :: Kept(c, ls, inv, g, buf)
  }

  // generate_hello, from the first link block on
  method Write(c: Format, ls: seq<Link>) returns (buf: seq<Byte>)
    requires Fits(c, ls)
    ensures buf == From(c, ls, 0)
  {
    ghost var all := From(c, ls, 0);
    ghost var inv := (g: nat, b: seq<Byte>) => g <= GROUPS && b + From(c, ls, g) == all;
    forall g: nat, b: seq<Byte>
      ensures Kept(c, ls, inv, g, b)
    {
      if g < GROUPS && inv(g, b) {
        assert FitsAt(c, ls, g);
        FromNext(c, ls, g, b);
      }
    }
    assert [] + all == all;
    buf := WriteRows(c, ls, inv);
    assert buf + From(c, ls, GROUPS) == buf;
  }

  method WriteRows(c: Format, ls: seq<Link>, ghost inv: (nat, seq<Byte>) -> bool) returns (buf: seq<Byte>)
    requires Fits(c, ls) && Invariant(c, ls, inv) && inv(0, [])
    ensures inv(GROUPS, buf)
  {
    buf := [];
    for nbrType := 0 to 3
      invariant inv(4 * nbrType, buf)
    {
      for linkType := 0 to 4
        invariant inv(linkType + 4 * nbrType, buf)
      {
        buf := WriteNext(c, ls, linkType, nbrType, buf, linkType + 4 * nbrType, inv);
      }
    }
  }

  method WriteNext(c: Format, ls: seq<Link>, linkType: nat, nbrType: nat, buf: seq<Byte>, ghost g: nat,
                   ghost inv: (nat, seq<Byte>) -> bool)
    returns (buf': seq<Byte>)
    requires Fits(c, ls) && linkType < 4 && nbrType < 3 && g == linkType + 4 * nbrType && Invariant(c, ls, inv)
      && inv(g, buf)
    ensures inv(g + 1, buf')
  {
    assert FitsAt(c, ls, g) && Kept(c, ls, inv, g, buf);
    buf' := WriteBlock(c, ls, linkType, nbrType, buf, g);
  }

  // ---- the reader ----

  // The neighbour list so far, newest first, and the bytes not yet read.
  datatype Parse = Parse(list: seq<Item>, rest: seq<Byte>)

  function ItemAt(c: Format, b: seq<Byte>, code: Byte): Item
    requires c.n + c.size <= |b|
  {
    Item(b[..c.n], code as int % 4, code as int / 4 % 4, c.dec(b[c.n..c.n + c.size]))
  }

  // The entries of one block: as many as fit in the bytes left of it; None if they run past the receive buffer.
  function Items(c: Format, lost: seq<Byte> -> bool, b: seq<Byte>, code: Byte, left: int,
                 list: seq<Item>): (r: Option<Parse>)
    requires c.n >= 1
    ensures r.Some? ==> |r.value.rest| <= |b|
  {
    var k := c.n + c.size;
    if k > left then Some(Parse(list, b))
    else if k > |b| then None
    else Items(c, lost, b[k..], code, left - k, if lost(b[..c.n]) then list else [ItemAt(c, b, code)] + list)
  }

  function Length(b: seq<Byte>): int
    requires |b| >= 4
  {
    b[2] as int * 256 + b[3] as int
  }

  // All blocks that begin in the next end bytes, even if the last one runs on into what follows the message; None if a
  // read would run past the receive buffer.
  function Blocks(c: Format, lost: seq<Byte> -> bool, b: seq<Byte>, end: int, list: seq<Item>): Option<seq<Item>>
    requires c.n >= 1
    decreases |b|
  {
    if end <= 0 then Some(list)
    else if |b| < 4 then None
    else
      var r := Items(c, lost, b[4..], b[0], Length(b) - 4, list);
      if r == None then None else Blocks(c, lost, r.value.rest, end - (|b| - |r.value.rest|), r.value.list)
  }

  // What the rest of a message from a place on adds to the list.
  function Parsed(c: Format, lost: seq<Byte> -> bool, b: seq<Byte>, at: nat, end: int,
                  list: seq<Item>): Option<seq<Item>>
    requires c.n >= 1 && at <= |b|
  {
    Blocks(c, lost, b[at..], end - at, list)
  }

  // One entry taken at a place of the message.
  lemma {:induction false} ItemsStep(c: Format, lost: seq<Byte> -> bool, p: seq<Byte>, at: nat, code: Byte, left: int,
                                     list: seq<Item>)
    requires c.n >= 1 && at + c.n + c.size <= |p| && c.n + c.size <= left
    ensures var k := c.n + c.size;
      var item := Item(p[at..at + c.n], code as int % 4, code as int / 4 % 4, c.dec(p[at + c.n..at + k]));
      Items(c, lost, p[at..], code, left, list) == Items(c, lost, p[at + k..], code, left - k, if lost(p[at..at + c.n])
        then list else [item] + list)
  {
    var k, b := c.n + c.size, p[at..];
    assert b[..c.n] == p[at..at + c.n];
    assert b[c.n..k] == p[at + c.n..at + k];
    assert b[k..] == p[at + k..];
  }

  // The inner loop of deserialize_hello
  method ReadBlock(c: Format, lost: seq<Byte> -> bool, payload: seq<Byte>, at: nat, code: Byte, limit: int,
                   list0: seq<Item>)
    returns (ok: bool, curr: nat, list: seq<Item>)
    requires c.n >= 1 && at <= |payload|
    ensures at <= curr <= |payload|
    ensures Items(c, lost, payload[at..], code, limit - at, list0) == if ok then Some(Parse(list, payload[curr..]))
      else None
  {
    curr, list := at, list0;
    ghost var all := Items(c, lost, payload[at..], code, limit - at, list0);
    while curr + c.n + c.size <= limit
      invariant at <= curr <= |payload| && Items(c, lost, payload[curr..], code, limit - curr, list) == all
      decreases |payload| - curr
    {
      if curr + c.n + c.size > |payload| {
        return false, curr, list;
      }
      ItemsStep(c, lost, payload, curr, code, limit - curr, list);
      var addr, lq := payload[curr..curr + c.n], c.dec(payload[curr + c.n..curr + (c.n + c.size)]);
      curr := curr + (c.n + c.size);
      if !lost(addr) {
        list := [Item(addr, code as int % 4, code as int / 4 % 4, lq)] + list;
      }
    }
    ok := true;
  }

  lemma {:induction false} BlocksHead(c: Format, lost: seq<Byte> -> bool, p: seq<Byte>, at: nat, end: int,
                                      list: seq<Item>, ok: bool, curr: nat, list': seq<Item>)
    requires c.n >= 1 && at + 4 <= |p| && at < end && curr <= |p|
    requires Items(c, lost, p[at + 4..], p[at], p[at + 2] as int * 256 + p[at + 3] as int - 4, list) == if ok
      then Some(Parse(list', p[curr..])) else None
    ensures Parsed(c, lost, p, at, end, list) == if ok then Parsed(c, lost, p, curr, end, list') else None
  {
    var b := p[at..];
    assert b[4..] == p[at + 4..] && b[0] == p[at] && Length(b) == p[at + 2] as int * 256 + p[at + 3] as int;
  }

  // deserialize_hello, from the first link block on: the message ends at end, the receive buffer goes on
  method Read(c: Format, lost: seq<Byte> -> bool, buffer: seq<Byte>, end: nat) returns (r: Option<seq<Item>>)
    requires c.n >= 1
    ensures r == Parsed(c, lost, buffer, 0, end, [])
  {
    var curr, list := 0, [];
    while curr < end
      invariant 0 <= curr <= |buffer| && Parsed(c, lost, buffer, curr, end, list) == Parsed(c, lost, buffer, 0, end, [])
      decreases |buffer| - curr
    {
      if |buffer| - curr < 4 {
        return None;
      }
      var code, size := buffer[curr], buffer[curr + 2] as int * 256 + buffer[curr + 3] as int;
      var ok, next, more := ReadBlock(c, lost, buffer, curr + 4, code, curr + size, list);
      BlocksHead(c, lost, buffer, curr, end, list, ok, next, more);
      if !ok {
        return None;
      }
      curr, list := next, more;
    }
    return Some(list);
  }

  // ---- the round trip ----

  // A link as the reader takes it: not at all if its address is that of an interface we have lost.
  ghost function Seen(lost: seq<Byte> -> bool, l: Link): seq<Item> { if lost(l.addr) then [] else [Shown(l)] }

  // The links as the reader lists them: newest first.
  ghost function Listed(lost: seq<Byte> -> bool, ls: seq<Link>): seq<Item>
  {
    if ls == [] then [] else Seen(lost, ls[|ls| - 1]) + Listed(lost, ls[..|ls| - 1])
  }

  lemma {:induction false} ListedCons(lost: seq<Byte> -> bool, ls: seq<Link>)
    requires ls != []
    ensures Listed(lost, ls) == Listed(lost, ls[1..]) + Seen(lost, ls[0])
  {
    var q := ls[..|ls| - 1];
    if q == [] {
      assert ls[1..] == [];
    } else {
      ListedCons(lost, q);
      var r := ls[1..];
      assert r[..|r| - 1] == q[1..] && r[|r| - 1] == ls[|ls| - 1] && q[0] == ls[0];
    }
  }

  // The reader keeps the address, and the codec brings the link quality back.
  predicate LinkOk(c: Format, l: Link)
  {
    |l.addr| == c.n && |c.enc(l.lq)| == c.size && c.dec(c.enc(l.lq)) == l.lq
  }

  predicate Readable(c: Format, ls: seq<Link>)
  {
    c.n >= 1 && forall l :: l in ls ==> LinkOk(c, l)
  }

  lemma {:induction false} EntriesCons(c: Format, ls: seq<Link>)
    requires ls != []
    ensures Entries(c, ls) == Entry(c, ls[0]) + Entries(c, ls[1..])
  {
    if |ls| == 1 {
      assert ls[..0] == [] && ls[1..] == [];
    } else {
      var q := ls[..|ls| - 1];
      EntriesCons(c, q);
      assert q[1..] == ls[1..][..|ls| - 2] && q[0] == ls[0];
      assert ls[1..][|ls| - 2] == ls[|ls| - 1];
    }
  }

  lemma {:induction false} EntryItem(c: Format, lost: seq<Byte> -> bool, l: Link, r: seq<Byte>)
    requires Readable(c, [l])
    ensures |Entry(c, l)| == c.n + c.size && Code(l) < GROUPS
    ensures ItemAt(c, Entry(c, l) + r, Code(l) as Byte) == Shown(l) && (Entry(c, l) + r)[..c.n] == l.addr
      && (Entry(c, l) + r)[c.n + c.size..] == r
  {
    assert l in [l];
    var b := Entry(c, l) + r;
    assert b[..c.n] == l.addr && b[c.n..c.n + c.size] == c.enc(l.lq);
  }

  // The entries of one group come back, newest first.
  lemma {:induction false} ItemsOf(c: Format, lost: seq<Byte> -> bool, ls: seq<Link>, g: nat, r: seq<Byte>,
                                   list: seq<Item>)
    requires Readable(c, ls) && g < GROUPS && forall l :: l in ls ==> Code(l) == g
    ensures Items(c, lost, Entries(c, ls) + r, g as Byte, |Entries(c, ls)|,
      list) == Some(Parse(Listed(lost, ls) + list, r))
  {
    if ls == [] {
      assert Entries(c, ls) + r == r && Listed(lost, ls) + list == list;
    } else {
      var l, es := ls[0], Entries(c, ls[1..]);
      assert l in ls && Readable(c, [l]);
      EntriesCons(c, ls);
      Assoc(Entry(c, l), es, r);
      EntryItem(c, lost, l, es + r);
      assert lost(l.addr) ==> Seen(lost, l) + list == list;
      ItemsOf(c, lost, ls[1..], g, r, Seen(lost, l) + list);
      ListedCons(lost, ls);
      Regroup(Listed(lost, ls[1..]), Seen(lost, l), list);
    }
  }

  lemma {:induction false} HeadIs(g: nat, es: seq<Byte>, r: seq<Byte>)
    requires g < GROUPS && 4 + |es| < 0x1_0000
    ensures var b := Head(g, 4 + |es|) + es + r; b[4..] == es + r && b[0] == g as Byte && Length(b) == 4 + |es|
  {
    TwoIs(4 + |es|);
  }

  // What the rest of a message holds.
  function Unpacked(c: Format, lost: seq<Byte> -> bool, b: seq<Byte>, end: int, list: seq<Item>): Option<seq<Item>>
    requires c.n >= 1
  {
    Blocks(c, lost, b, end, list)
  }

  lemma {:induction false} OneBlock(c: Format, lost: seq<Byte> -> bool, b: seq<Byte>, end: int, list: seq<Item>,
                                    p: Parse)
    requires c.n >= 1 && end > 0 && |b| >= 4 && Items(c, lost, b[4..], b[0], Length(b) - 4, list) == Some(p)
    ensures Unpacked(c, lost, b, end, list) == Unpacked(c, lost, p.rest, end - (|b| - |p.rest|), p.list)
  {
  }

  lemma {:induction false} BlockItems(c: Format, lost: seq<Byte> -> bool, of: seq<Link>, g: nat, b: seq<Byte>,
                                      r: seq<Byte>, end: int, list: seq<Item>)
    requires Readable(c, of) && g < GROUPS && end > 0 && forall l :: l in of ==> Code(l) == g
    requires 4 + |Entries(c, of)| < 0x1_0000 && b == Head(g, 4 + |Entries(c, of)|) + Entries(c, of)
    ensures Unpacked(c, lost, b + r, end, list) == Unpacked(c, lost, r, end - |b|, Listed(lost, of) + list)
  {
    var es := Entries(c, of);
    HeadIs(g, es, r);
    ItemsOf(c, lost, of, g, r, list);
    OneBlock(c, lost, b + r, end, list, Parse(Listed(lost, of) + list, r));
  }

  lemma Nothing(r: seq<Byte>, list: seq<Item>)
    ensures [] + r == r && [] + list == list
  {
  }

  // One group, with its block if it has any.
  lemma {:induction false} GroupItems(c: Format, lost: seq<Byte> -> bool, of: seq<Link>, g: nat, b: seq<Byte>,
                                      r: seq<Byte>, end: int, list: seq<Item>)
    requires Readable(c, of) && g < GROUPS && end >= |b| && forall l :: l in of ==> Code(l) == g
    requires 4 + |Entries(c, of)| < 0x1_0000 && b == if of == [] then []
      else Head(g, 4 + |Entries(c, of)|) + Entries(c, of)
    ensures Unpacked(c, lost, b + r, end, list) == Unpacked(c, lost, r, end - |b|, Listed(lost, of) + list)
  {
    if of == [] {
      Nothing(r, list);
      assert Listed(lost, of) == [] && end - |b| == end;
    } else {
      BlockItems(c, lost, of, g, b, r, end, list);
    }
  }

  ghost function ListedFrom(lost: seq<Byte> -> bool, ls: seq<Link>, g: nat): seq<Item>
    requires g <= GROUPS
    decreases GROUPS - g, |ls|
  {
    if g == GROUPS then [] else ListedFrom(lost, ls, g + 1) + Listed(lost, Of(ls, g))
  }

  lemma Regroup(x: seq<Item>, y: seq<Item>, z: seq<Item>)
    ensures x + (y + z) == x + y + z
  {
  }

  lemma {:induction false} BlocksStep(c: Format, lost: seq<Byte> -> bool, ls: seq<Link>, g: nat, after: seq<Byte>,
                                      list: seq<Item>, later: seq<Item>)
    requires Readable(c, ls) && Fits(c, ls) && g < GROUPS
    requires Unpacked(c, lost, From(c, ls, g + 1) + after, |From(c, ls, g + 1)|, Listed(lost, Of(ls, g)) + list)
      == Some(later + (Listed(lost, Of(ls, g)) + list))
    ensures Unpacked(c, lost, From(c, ls, g) + after, |From(c, ls, g)|,
      list) == Some(later + Listed(lost, Of(ls, g)) + list)
  {
    assert FitsAt(c, ls, g);
    Assoc(Block(c, ls, g), From(c, ls, g + 1), after);
    OfIn(ls, g);
    GroupItems(c, lost, Of(ls, g), g, Block(c, ls, g), From(c, ls, g + 1) + after, |From(c, ls, g)|, list);
    Regroup(later, Listed(lost, Of(ls, g)), list);
  }

  // Reading the blocks from g on, whatever comes after them in the buffer.
  lemma {:induction false} BlocksFrom(c: Format, lost: seq<Byte> -> bool, ls: seq<Link>, g: nat, after: seq<Byte>,
                                      list: seq<Item>)
    requires Readable(c, ls) && Fits(c, ls) && g <= GROUPS
    ensures Unpacked(c, lost, From(c, ls, g) + after, |From(c, ls, g)|, list) == Some(ListedFrom(lost, ls, g) + list)
    decreases GROUPS - g
  {
    if g < GROUPS {
      BlocksFrom(c, lost, ls, g + 1, after, Listed(lost, Of(ls, g)) + list);
      BlocksStep(c, lost, ls, g, after, list, ListedFrom(lost, ls, g + 1));
      assert ListedFrom(lost, ls, g) == ListedFrom(lost, ls, g + 1) + Listed(lost, Of(ls, g));
    } else {
      assert ListedFrom(lost, ls, g) + list == list;
    }
  }

  // The links in their own order, as the message shows them, without those of lost interfaces.
  ghost function AllShown(lost: seq<Byte> -> bool, ls: seq<Link>): seq<Item>
  {
    if ls == [] then [] else AllShown(lost, ls[..|ls| - 1]) + Seen(lost, ls[|ls| - 1])
  }

  // How often an entry occurs in a list.
  ghost function Count(s: seq<Item>, x: Item): nat
  {
    if s == [] then 0 else Count(s[..|s| - 1], x) + if s[|s| - 1] == x then 1 else 0
  }

  lemma {:induction false} CountIs(s: seq<Item>, x: Item)
    ensures Count(s, x) == multiset(s)[x]
  {
    if s != [] {
      CountIs(s[..|s| - 1], x);
      assert s == s[..|s| - 1] + [s[|s| - 1]];
    }
  }

  lemma {:induction false} CountCat(a: seq<Item>, b: seq<Item>, x: Item)
    ensures Count(a + b, x) == Count(a, x) + Count(b, x)
  {
    if b == [] {
      assert a + b == a;
    } else {
      var c := a + b;
      assert c[..|c| - 1] == a + b[..|b| - 1] && c[|c| - 1] == b[|b| - 1];
      CountCat(a, b[..|b| - 1], x);
    }
  }

  lemma {:induction false} CountOne(item: Item, x: Item)
    ensures Count([item], x) == if item == x then 1 else 0
  {
    assert [item][..0] == [];
  }

  // How many links of group g and later show as x.
  ghost function Late(lost: seq<Byte> -> bool, ls: seq<Link>, g: nat, x: Item): nat
  {
    if ls == [] then 0 else
      Late(lost, ls[..|ls| - 1], g, x) + if Code(ls[|ls| - 1]) >= g then Hits(lost, ls[|ls| - 1], x) else 0
  }

  ghost function Hits(lost: seq<Byte> -> bool, l: Link, x: Item): nat
  {
    if !lost(l.addr) && Shown(l) == x then 1 else 0
  }

  lemma {:induction false} SeenHits(lost: seq<Byte> -> bool, l: Link, x: Item)
    ensures Count(Seen(lost, l), x) == Hits(lost, l, x)
  {
    if !lost(l.addr) {
      CountOne(Shown(l), x);
    }
  }

  lemma {:induction false} OfIs(lost: seq<Byte> -> bool, ls: seq<Link>, g: nat, x: Item)
    ensures Late(lost, ls, g, x) == Late(lost, ls, g + 1, x) + Count(Listed(lost, Of(ls, g)), x)
  {
    if ls != [] {
      OfIs(lost, ls[..|ls| - 1], g, x);
      ListedKeep(lost, ls[|ls| - 1], Of(ls[..|ls| - 1], g), g, x);
    }
  }

  lemma {:induction false} ListedKeep(lost: seq<Byte> -> bool, l: Link, of: seq<Link>, g: nat, x: Item)
    ensures Count(Listed(lost, of + Keep(l, g)), x)
      == Count(Listed(lost, of), x) + if Code(l) == g then Hits(lost, l, x) else 0
  {
    if Code(l) == g {
      assert (of + [l])[..|of|] == of;
      CountCat(Seen(lost, l), Listed(lost, of), x);
      SeenHits(lost, l, x);
    } else {
      assert of + [] == of;
    }
  }

  // How many entries from group g on, and in it, are x.
  ghost function CountFrom(lost: seq<Byte> -> bool, ls: seq<Link>, g: nat, x: Item): nat
    requires g <= GROUPS
  {
    Count(ListedFrom(lost, ls, g), x)
  }

  ghost function CountOf(lost: seq<Byte> -> bool, ls: seq<Link>, g: nat,
                         x: Item): nat { Count(Listed(lost, Of(ls, g)), x) }

  ghost function Owed(lost: seq<Byte> -> bool, ls: seq<Link>, g: nat, x: Item): nat { Late(lost, ls, g, x) }

  lemma {:induction false} ListedLate(lost: seq<Byte> -> bool, ls: seq<Link>, g: nat, x: Item)
    requires g <= GROUPS
    ensures CountFrom(lost, ls, g, x) == Owed(lost, ls, g, x)
    decreases GROUPS - g
  {
    if g < GROUPS {
      ListedLate(lost, ls, g + 1, x);
      OwedOne(lost, ls, g, x);
      ListedOne(lost, ls, g, x);
    } else {
      NoneLater(lost, ls, g, x);
    }
  }

  lemma {:induction false} OwedOne(lost: seq<Byte> -> bool, ls: seq<Link>, g: nat, x: Item)
    ensures Owed(lost, ls, g, x) == Owed(lost, ls, g + 1, x) + CountOf(lost, ls, g, x)
  {
    OfIs(lost, ls, g, x);
  }

  lemma {:induction false} ListedOne(lost: seq<Byte> -> bool, ls: seq<Link>, g: nat, x: Item)
    requires g < GROUPS
    ensures CountFrom(lost, ls, g, x) == CountFrom(lost, ls, g + 1, x) + CountOf(lost, ls, g, x)
  {
    CountCat(ListedFrom(lost, ls, g + 1), Listed(lost, Of(ls, g)), x);
  }

  lemma {:induction false} NoneLater(lost: seq<Byte> -> bool, ls: seq<Link>, g: nat, x: Item)
    requires g >= GROUPS
    ensures Late(lost, ls, g, x) == 0
  {
    if ls != [] {
      assert Code(ls[|ls| - 1]) < g;
      NoneLater(lost, ls[..|ls| - 1], g, x);
    }
  }

  lemma {:induction false} LateAll(lost: seq<Byte> -> bool, ls: seq<Link>, g: nat, x: Item)
    requires g == 0
    ensures Late(lost, ls, g, x) == Count(AllShown(lost, ls), x)
  {
    if ls != [] {
      LateAll(lost, ls[..|ls| - 1], g, x);
      CountCat(AllShown(lost, ls[..|ls| - 1]), Seen(lost, ls[|ls| - 1]), x);
      SeenHits(lost, ls[|ls| - 1], x);
    }
  }

  // Grouping the links loses none and repeats none.
  lemma {:induction false} NothingLost(lost: seq<Byte> -> bool, ls: seq<Link>)
    ensures multiset(ListedFrom(lost, ls, 0)) == multiset(AllShown(lost, ls))
  {
    forall x
      ensures multiset(ListedFrom(lost, ls, 0))[x] == multiset(AllShown(lost, ls))[x]
    {
      ListedLate(lost, ls, 0, x);
      LateAll(lost, ls, 0, x);
      CountIs(ListedFrom(lost, ls, 0), x);
      CountIs(AllShown(lost, ls), x);
    }
  }

  // Reading what was written gives every link exactly once, with its address, types and link quality, whatever follows
  // the message in the receive buffer.
  method RoundTrip(c: Format, lost: seq<Byte> -> bool, ls: seq<Link>, after: seq<Byte>) returns (items: seq<Item>)
    requires Readable(c, ls) && Fits(c, ls)
    ensures multiset(items) == multiset(AllShown(lost, ls))
  {
    var buf := Write(c, ls);
    var r := Read(c, lost, buf + after, |buf|);
    ReadsAll(c, lost, ls, after);
    NothingLost(lost, ls);
    items := r.value;
  }

  lemma {:induction false} ReadsAll(c: Format, lost: seq<Byte> -> bool, ls: seq<Link>, after: seq<Byte>)
    requires Readable(c, ls) && Fits(c, ls)
    ensures Parsed(c, lost, From(c, ls, 0) + after, 0, |From(c, ls, 0)|, []) == Some(ListedFrom(lost, ls, 0))
  {
    BlocksFrom(c, lost, ls, 0, after, []);
    var b := From(c, ls, 0) + after;
    assert b[0..] == b && ListedFrom(lost, ls, 0) + [] == ListedFrom(lost, ls, 0);
  }

  // The codec of lib/lq_etx_ff: the quality in the two directions in a byte each, and two bytes unused.
  function TwoBytes(n: nat): Format
  {
    Format(n, 4, q => [(q / 256 % 256) as Byte, (q % 256) as Byte, 0, 0], b => if |b| == 4
      then b[0] as int * 256 + b[1] as int else 0)
  }

  // With this codec any list of up to 1000 links with four-byte addresses can be read back.
  lemma {:induction false} TwoBytesReadable(ls: seq<Link>)
    requires |ls| <= 1000 && forall l :: l in ls ==> |l.addr| == 4 && l.lq < 0x1_0000
    ensures Readable(TwoBytes(4), ls) && Fits(TwoBytes(4), ls)
  {
    var c := TwoBytes(4);
    forall g | 0 <= g < GROUPS
      ensures FitsAt(c, ls, g)
    {
      OfShort(ls, g);
      OfIn(ls, g);
      EntriesLength(c, Of(ls, g), 8);
    }
  }

  lemma {:induction false} OfShort(ls: seq<Link>, g: nat)
    ensures |Of(ls, g)| <= |ls|
  {
    if ls != [] {
      OfShort(ls[..|ls| - 1], g);
    }
  }

  lemma {:induction false} EntriesLength(c: Format, ls: seq<Link>, k: nat)
    requires forall l :: l in ls ==> |Entry(c, l)| == k
    ensures |Entries(c, ls)| == k * |ls|
  {
    if ls != [] {
      EntriesLength(c, ls[..|ls| - 1], k);
      assert ls[|ls| - 1] in ls && k * (|ls| - 1) + k == k * |ls|;
    }
  }
}
