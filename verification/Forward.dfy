/** Reading, rewriting and forwarding of messages (src/parser.c, src/olsr.c), on the bytes of the packet. */
module Forward {
  import opened Basics
  import TimeCode
  import Duplicates

  // ---- the message header ----

  // The validity time is kept as its code, of which it is the decoding.
  datatype Header = Header(kind: Byte, code: Byte, size: nat, originator: seq<Byte>, ttl: Byte, hops: Byte, seqno: nat)

  function U16(v: nat): (r: seq<Byte>)
    requires v < 0x1_0000
    ensures |r| == 2
  {
    [(v / 256) as Byte, (v % 256) as Byte]
  }

  function Word(hi: Byte, lo: Byte): nat { hi as int * 256 + lo as int }

  // The bytes of a header with an address of n bytes: eight more.
  function Put(h: Header): seq<Byte>
    requires h.size < 0x1_0000 && h.seqno < 0x1_0000
  {
    [h.kind, h.code] + U16(h.size) + h.originator + [h.ttl, h.hops] + U16(h.seqno)
  }

  function Get(b: seq<Byte>, n: nat): (h: Header)
    requires |b| == n + 8
    ensures h.size < 0x1_0000 && h.seqno < 0x1_0000 && |h.originator| == n
  {
    Header(b[0], b[1], Word(b[2], b[3]), b[4..4 + n], b[4 + n], b[5 + n], Word(b[6 + n], b[7 + n]))
  }

  lemma WordBytes(hi: Byte, lo: Byte)
    ensures Word(hi, lo) < 0x1_0000 && U16(Word(hi, lo)) == [hi, lo]
  {
  }

  // Where the fields are: sizes and numbers have their high byte first.
  lemma HeaderBytes(b: seq<Byte>, n: nat)
    requires |b| == n + 8
    ensures var h := Get(b, n);
      && h.kind == b[0] && h.code == b[1] && h.size == 256 * b[2] as int + b[3] as int && h.originator == b[4..4 + n]
      && h.ttl == b[4 + n] && h.hops == b[5 + n] && h.seqno == 256 * b[6 + n] as int + b[7 + n] as int
  {
  }

  lemma {:induction false} Assemble(b: seq<Byte>, n: nat)
    requires |b| == n + 8
    ensures [b[0], b[1]] + [b[2], b[3]] + b[4..4 + n] + [b[4 + n], b[5 + n]] + [b[6 + n], b[7 + n]] == b
  {
  }

  // Writing back what was read changes nothing.
  lemma {:induction false} PutGet(b: seq<Byte>, n: nat)
    requires |b| == n + 8
    ensures Put(Get(b, n)) == b
  {
    WordBytes(b[2], b[3]);
    WordBytes(b[6 + n], b[7 + n]);
    Assemble(b, n);
  }

  // Of a header, only the TTL and hop count bytes differ if only these fields do.
  lemma {:induction false} PutTtl(h: Header, ttl: Byte, hops: Byte)
    requires h.size < 0x1_0000 && h.seqno < 0x1_0000
    ensures var n := |h.originator|;
      |Put(h)| == n + 8 && Put(h.(ttl := ttl, hops := hops)) == Put(h)[4 + n := ttl][5 + n := hops]
  {
  }

  // olsr_parse_msg_hdr: a cursor over the bytes
  method ReadHeader(a: array<Byte>, at: nat, n: nat) returns (h: Header)
    requires at + n + 8 <= a.Length
    ensures h == Get(a[at..at + n + 8], n)
  {
    var curr := at;
    var kind := a[curr];
    curr := curr + 1;
    var code := a[curr];
    curr := curr + 1;
    var size := Word(a[curr], a[curr + 1]);
    curr := curr + 2;
    var originator := a[curr..curr + n];
    curr := curr + n;
    var ttl := a[curr];
    curr := curr + 1;
    var hops := a[curr];
    curr := curr + 1;
    var seqno := Word(a[curr], a[curr + 1]);
    h := Header(kind, code, size, originator, ttl, hops, seqno);
    InnerSlice(a[..], at, n + 8, 4, n);
    assert a[..][at..at + n + 8] == a[at..at + n + 8];
  }

  lemma InnerSlice(b: seq<Byte>, at: nat, m: nat, i: nat, n: nat)
    requires at + m <= |b| && i + n <= m
    ensures b[at..at + m][i..i + n] == b[at + i..at + i + n]
  {
    var s, t := b[at..at + m], b[at + i..at + i + n];
    forall k | 0 <= k < n
      ensures s[i..i + n][k] == t[k]
    {
      assert s[i + k] == b[at + (i + k)];
    }
  }

  // The buffer with the bytes bs at a place.
  ghost function Splice(b: seq<Byte>, at: nat, bs: seq<Byte>): seq<Byte>
    requires at + |bs| <= |b|
  {
    b[..at] + bs + b[at + |bs|..]
  }

  lemma {:induction false} SpliceTwice(b: seq<Byte>, at: nat, x: seq<Byte>, y: seq<Byte>)
    requires at + |x| + |y| <= |b|
    ensures Splice(Splice(b, at, x), at + |x|, y) == Splice(b, at, x + y)
  {
  }

  // The buffer started as b and has been written to from at on with the bytes done.
  ghost predicate Written(now: seq<Byte>, b: seq<Byte>, at: nat, done: seq<Byte>)
  {
    |now| == |b| && at + |done| <= |b| && now == Splice(b, at, done)
  }

  // Some more bytes where the cursor stands
  method PutBytes(a: array<Byte>, curr: nat, bs: seq<Byte>, ghost b: seq<Byte>, ghost at: nat,
                  ghost done: seq<Byte>) returns (curr': nat)
    requires Written(a[..], b, at, done) && curr == at + |done| && curr + |bs| <= a.Length
    modifies a
    ensures Written(a[..], b, at, done + bs) && curr' == curr + |bs|
  {
    ghost var before := a[..];
    for i := 0 to |bs|
      invariant forall j :: 0 <= j < a.Length ==> a[j] == if curr <= j < curr + i then bs[j - curr] else before[j]
    {
      a[curr + i] := bs[i];
    }
    curr' := curr + |bs|;
    assert a[..] == Splice(before, curr, bs);
    SpliceTwice(b, at, done, bs);
  }

  // The code of a validity time that was decoded and is encoded again.
  method EncodeAgain(code: Byte) returns (r: Byte)
    ensures r == code
  {
    TimeCode.EncodeDecode(code as int);
    r := TimeCode.Encode(TimeCode.Decode(code as int)) as Byte;
  }

  // olsr_put_msg_hdr
  method WriteHeader(a: array<Byte>, at: nat, h: Header)
    requires at + |h.originator| + 8 <= a.Length && h.size < 0x1_0000 && h.seqno < 0x1_0000
    modifies a
    ensures Written(a[..], old(a[..]), at, Put(h))
  {
    ghost var b := a[..];
    assert b == Splice(b, at, []);
    var code := EncodeAgain(h.code);
    var x1, x2, x3, x4 := [h.kind, code], U16(h.size), [h.ttl, h.hops], U16(h.seqno);
    var curr := PutBytes(a, at, x1, b, at, []);
    curr := PutBytes(a, curr, x2, b, at, [] + x1);
    curr := PutBytes(a, curr, h.originator, b, at, [] + x1 + x2);
    curr := PutBytes(a, curr, x3, b, at, [] + x1 + x2 + h.originator);
    curr := PutBytes(a, curr, x4, b, at, [] + x1 + x2 + h.originator + x3);
    assert [] + x1 + x2 + h.originator + x3 + x4 == Put(h);
  }

  // ---- forwarding ----

  function Ttl(b: seq<Byte>, at: nat, n: nat): int
    requires at + n + 8 <= |b|
  {
    b[at + 4 + n] as int
  }

  function HopCount(b: seq<Byte>, at: nat, n: nat): int
    requires at + n + 8 <= |b|
  {
    b[at + 5 + n] as int
  }

  // Equal except at the given places.
  ghost predicate SameBut(b: seq<Byte>, b': seq<Byte>, places: set<int>)
  {
    |b| == |b'| && forall j :: 0 <= j < |b| && j !in places ==> b'[j] == b[j]
  }

  // The packet with two bytes of the message at a place set.
  function Stamped(b: seq<Byte>, at: nat, n: nat, ttl: Byte, hops: Byte): seq<Byte>
    requires at + n + 8 <= |b|
  {
    b[at + 4 + n := ttl][at + 5 + n := hops]
  }

  // The message at a place with its TTL one less and its hop count one more, all else as it was.
  ghost predicate Rewritten(b: seq<Byte>, b': seq<Byte>, at: nat, n: nat)
  {
    && at + n + 8 <= |b| && Ttl(b, at, n) >= 1 && HopCount(b, at, n) < 255
    && b' == Stamped(b, at, n, (Ttl(b, at, n) - 1) as Byte, (HopCount(b, at, n) + 1) as Byte)
  }

  lemma {:induction false} SpliceHeader(b: seq<Byte>, at: nat, n: nat, h: Header, ttl: Byte, hops: Byte, b': seq<Byte>)
    requires at + n + 8 <= |b| && h == Get(b[at..at + n + 8], n)
      && Written(b', b, at, Put(h.(ttl := ttl, hops := hops)))
    ensures b' == Stamped(b, at, n, ttl, hops)
  {
    var c := b[at..at + n + 8];
    PutGet(c, n);
    PutTtl(h, ttl, hops);
    var p: seq<Byte> := c[4 + n := ttl][5 + n := hops];
    assert b' == b[..at] + p + b[at + n + 8..];
  }

  // The header of a message written back with TTL and hop count adjusted.
  method Rewrite(a: array<Byte>, at: nat, n: nat, h: Header) returns (ttl: Byte)
    requires at + n + 8 <= a.Length && h == Get(a[at..at + n + 8], n) && h.ttl >= 1 && h.hops < 255
    modifies a
    ensures Rewritten(old(a[..]), a[..], at, n) && ttl as int == Ttl(a[..], at, n)
  {
    ghost var b := a[..];
    assert b[at..at + n + 8] == a[at..at + n + 8];
    var hops: Byte := h.hops + 1;
    ttl := h.ttl - 1;
    WriteHeader(a, at, h.(ttl := ttl, hops := hops));
    SpliceHeader(b, at, n, h, ttl, hops, a[..]);
  }

  // A relay passes a message on unless its duplicate set refuses it.
  predicate Passes(h: Header, relay: bool, m: Duplicates.Histories)
  {
    relay && !Duplicates.Repeats(Duplicates.Verdict(m, h.originator, h.seqno))
  }

  function Noted(h: Header, noted: bool, m: Duplicates.Histories): Duplicates.Histories
  {
    if noted then Duplicates.After(m, h.originator, h.seqno) else m
  }

  // olsr_forward_message, up to the output buffers: relay says that the sender is a symmetric neighbour that chose us
  method ForwardMessage(a: array<Byte>, at: nat, n: nat, h: Header, relay: bool, seen: Duplicates.DuplicateSet)
    returns (passed: bool, sent: bool)
    requires at + n + 8 <= a.Length && h == Get(a[at..at + n + 8], n) && h.ttl >= 1 && h.hops < 255 && seen.Valid()
    modifies a, seen
    ensures seen.Valid() && seen.histories == Noted(h, relay, old(seen.histories))
    ensures passed <==> Passes(h, relay, old(seen.histories))
    ensures if passed then Rewritten(old(a[..]), a[..], at, n) else a[..] == old(a[..])
    ensures sent <==> passed && h.ttl >= 2
  {
    passed, sent := false, false;
    if !relay {
      return;
    }
    var duplicate, status := seen.IsDuplicate(h.originator, h.seqno);
    if duplicate {
      return;
    }
    ghost var b := a[..];
    assert b[at..at + n + 8] == a[at..at + n + 8];
    var ttl := Rewrite(a, at, n, h);
    passed, sent := true, ttl != 0;
  }

  // ---- many hops ----

  // A copy on the wire and the copy a node sends on.
  ghost predicate Hop(b: seq<Byte>, b': seq<Byte>, n: nat)
  {
    n + 8 <= |b| == |b'| && Rewritten(b, b', 0, n) && Ttl(b', 0, n) >= 1
  }

  ghost predicate Chain(copies: seq<seq<Byte>>, n: nat)
  {
    && copies != [] && |copies[0]| >= n + 8
    && forall i {:trigger HopAt(copies, n, i)} :: 0 <= i < |copies| - 1 ==> HopAt(copies, n, i)
  }

  ghost predicate HopAt(copies: seq<seq<Byte>>, n: nat, i: int)
    requires 0 <= i < |copies| - 1
  {
    Hop(copies[i], copies[i + 1], n)
  }

  // What is sent of a message inside a packet is the message with only its TTL and hop count changed.
  lemma {:induction false} SentIsHop(b: seq<Byte>, b': seq<Byte>, at: nat, size: nat, n: nat)
    requires Rewritten(b, b', at, n) && n + 8 <= size && at + size <= |b| && Ttl(b, at, n) >= 2
    ensures Hop(b[at..at + size], b'[at..at + size], n)
  {
    var m, m' := b[at..at + size], b'[at..at + size];
    assert m[4 + n] == b[at + 4 + n] && m[5 + n] == b[at + 5 + n] && m'[4 + n] == b'[at + 4 + n]
      && m'[5 + n] == b'[at + 5 + n];
  }

  lemma {:induction false} ChainOn(copies: seq<seq<Byte>>, n: nat, c: seq<Byte>)
    requires Chain(copies, n) && Hop(copies[|copies| - 1], c, n)
    ensures Chain(copies + [c], n)
  {
    var all := copies + [c];
    forall i | 0 <= i < |all| - 1
      ensures HopAt(all, n, i)
    {
      assert i < |copies| - 1 ==> HopAt(copies, n, i);
    }
  }

  // After i hops the TTL is i less and the hop count i more, and nothing else has changed.
  lemma {:induction false} Conserved(copies: seq<seq<Byte>>, n: nat, i: nat)
    requires Chain(copies, n) && i < |copies|
    ensures SameBut(copies[0], copies[i], {4 + n, 5 + n}) && (i > 0 ==> Ttl(copies[i], 0, n) >= 1)
    ensures Ttl(copies[i], 0, n) == Ttl(copies[0], 0, n) - i
      && HopCount(copies[i], 0, n) == HopCount(copies[0], 0, n) + i
  {
    if i > 0 {
      assert HopAt(copies, n, i - 1);
      Conserved(copies, n, i - 1);
    }
  }

  // Only the TTL and the hop count of the header read differ then.
  lemma {:induction false} SameHeader(b: seq<Byte>, b': seq<Byte>, n: nat)
    requires n + 8 <= |b| && SameBut(b, b', {4 + n, 5 + n})
    ensures Get(b'[..n + 8], n) == Get(b[..n + 8], n).(ttl := b'[4 + n], hops := b'[5 + n])
  {
    assert b'[4..4 + n] == b[4..4 + n];
    assert b'[..n + 8][4..4 + n] == b'[4..4 + n] && b[..n + 8][4..4 + n] == b[4..4 + n];
  }

  // A node a message comes to: what surrounds the message in the packet, the node's address and address check, whether
  // it is a relay of the sender, and its duplicate set.
  datatype Station = Station(before: seq<Byte>, behind: seq<Byte>, me: seq<Byte>, valid: seq<Byte> -> bool, relay: bool,
    seen: Duplicates.DuplicateSet)

  // The station sends the message on: it is another's, from a valid originator, with hops left, we relay for the
  // sender, and its number is not refused.
  predicate Relays(st: Station, m: Duplicates.Histories, copy: seq<Byte>, n: nat)
  {
    |copy| >= n + 8 && var h := Get(copy[..n + 8], n);
      && h.originator != st.me && st.valid(h.originator) && h.ttl >= 2 && h.ttl as int + h.hops as int <= 255
      && st.relay && !Duplicates.Repeats(Duplicates.Verdict(m, h.originator, h.seqno))
  }

  // Told of the message, the duplicate set accepts its number no more, or once more if it had not heard of the
  // originator.
  ghost predicate SpentAfter(m: Duplicates.Histories, h: Header)
  {
    var tell := Telling(h);
    tell(tell(tell(m))) == tell(tell(m)) && (h.originator in m ==> tell(tell(m)) == tell(m))
  }

  // What a duplicate set makes of the message.
  ghost function Telling(h: Header): Duplicates.Histories -> Duplicates.Histories
  {
    m => Duplicates.After(m, h.originator, h.seqno)
  }

  // What one node makes of a message: the copy it sends, if it sends one.
  method Visited(st: Station, copy: seq<Byte>, n: nat) returns (sent: bool, copy': seq<Byte>)
    requires n + 8 <= |copy| && Get(copy[..n + 8], n).size == |copy| && st.seen.Valid()
    modifies st.seen
    ensures st.seen.Valid() && (sent <==> Relays(st, old(st.seen.histories), copy, n))
    ensures st.seen.histories == Noted(Get(copy[..n + 8], n), Handles(Get(copy[..n + 8], n), st.me, st.valid)
      && st.relay, old(st.seen.histories))
    ensures sent ==> Hop(copy, copy', n)
    ensures sent ==> SpentAfter(old(st.seen.histories), Get(copy[..n + 8], n))
  {
    var at, packet := |st.before|, st.before + copy + st.behind;
    var a := new Byte[|packet|](i requires 0 <= i < |packet| => packet[i]);
    assert a[..] == packet && packet[at..at + |copy|] == copy;
    assert a[at..at + n + 8] == copy[..n + 8];
    var h := ReadHeader(a, at, n);
    sent, copy' := false, copy;
    if h.originator != st.me && st.valid(h.originator) && h.ttl != 0 && h.ttl as int + h.hops as int <= 255 {
      st.seen.HeadsAbove(h.originator);
      if !Duplicates.Repeats(Duplicates.Verdict(st.seen.histories, h.originator, h.seqno)) {
        Duplicates.AcceptedAgain(st.seen.histories, h.originator, h.seqno);
      }
      var passed;
      passed, sent := ForwardMessage(a, at, n, h, st.relay, st.seen);
      if sent {
        assert Ttl(packet, at, n) == h.ttl as int;
        SentIsHop(packet, a[..], at, |copy|, n);
        copy' := a[..][at..at + h.size];
      }
    }
  }

  // The first k stations, whose duplicate sets knew ms when the message came, have sent it on.
  ghost predicate Underway(copies: seq<seq<Byte>>, n: nat, stations: seq<Station>, ms: seq<Duplicates.Histories>,
                           k: nat)
  {
    && k == |ms| <= |stations| && |copies| == k + 1 && Chain(copies, n)
    && forall i {:trigger RelaysAt(copies, n, stations, ms, i)} :: 0 <= i < k ==> RelaysAt(copies, n, stations, ms, i)
  }

  ghost predicate RelaysAt(copies: seq<seq<Byte>>, n: nat, stations: seq<Station>, ms: seq<Duplicates.Histories>,
                           i: int)
    requires 0 <= i < |ms| && i < |copies| && |ms| <= |stations|
  {
    Relays(stations[i], ms[i], copies[i], n)
  }

  lemma {:induction false} UnderwayOn(copies: seq<seq<Byte>>, n: nat, stations: seq<Station>,
                                      ms: seq<Duplicates.Histories>, k: nat,
                                      m: Duplicates.Histories, c: seq<Byte>)
    requires Underway(copies, n, stations, ms, k) && k < |stations| && Relays(stations[k], m, copies[k], n)
      && Hop(copies[k], c, n)
    ensures Underway(copies + [c], n, stations, ms + [m], k + 1)
  {
    ChainOn(copies, n, c);
    forall i | 0 <= i < k + 1
      ensures RelaysAt(copies + [c], n, stations, ms + [m], i)
    {
      assert i < k ==> RelaysAt(copies, n, stations, ms, i);
    }
  }

  // The copies on the wire are the message with its TTL counted down and its hop count up, there are no more of them
  // than its first TTL, and they end where a station does not send the message on.
  ghost predicate Travelled(copy: seq<Byte>, copies: seq<seq<Byte>>, n: nat, stations: seq<Station>,
                            ms: seq<Duplicates.Histories>)
  {
    && 1 <= |copies| <= |stations| + 1 && |ms| == (if |copies| <= |stations| then |copies| else |stations|)
      && copies[0] == copy
    && (|copies| > 1 ==> |copy| >= n + 8 && |copies| <= Ttl(copy, 0, n))
    && (forall i {:trigger Step(copy, copies, n, i)} :: 0 <= i < |copies| ==> Step(copy, copies, n, i))
    && (forall i {:trigger RelaysAt(copies, n, stations, ms, i)} ::
      0 <= i < |ms| ==> (RelaysAt(copies, n, stations, ms, i) <==> i < |copies| - 1))
  }

  ghost predicate Step(copy: seq<Byte>, copies: seq<seq<Byte>>, n: nat, i: int)
    requires 0 <= i < |copies|
  {
    && |copy| >= n + 8 && SameBut(copy, copies[i], {4 + n, 5 + n})
    && Ttl(copies[i], 0, n) == Ttl(copy, 0, n) - i && HopCount(copies[i], 0, n) == HopCount(copy, 0, n) + i
  }

  lemma {:induction false} Arrived(copies: seq<seq<Byte>>, n: nat, stations: seq<Station>,
                                   ms: seq<Duplicates.Histories>, k: nat, last: seq<Duplicates.Histories>)
    requires Underway(copies, n, stations, ms, k)
    requires if k == |stations| then last == [] else |last| == 1 && !Relays(stations[k], last[0], copies[k], n)
    ensures Travelled(copies[0], copies, n, stations, ms + last)
  {
    forall i | 0 <= i < |copies|
      ensures Step(copies[0], copies, n, i)
    {
      Conserved(copies, n, i);
    }
    Conserved(copies, n, k);
    forall i | 0 <= i < |ms + last|
      ensures RelaysAt(copies, n, stations, ms + last, i) <==> i < |copies| - 1
    {
      assert i < k ==> RelaysAt(copies, n, stations, ms, i);
    }
  }

  // What a duplicate set knows after the first k stations, those it belongs to having been told of the message.
  ghost function Told(stations: seq<Station>, m: Duplicates.Histories, seen: Duplicates.DuplicateSet,
                      tell: Duplicates.Histories -> Duplicates.Histories,
                      k: nat): Duplicates.Histories
    requires k <= |stations|
  {
    if k == 0 then m else
      var t := Told(stations, m, seen, tell, k - 1);
      if stations[k - 1].seen == seen then tell(t) else t
  }

  // What the duplicate set of station i knew when the message came, by what it knew in the beginning.
  ghost predicate KnewAt(stations: seq<Station>, base: seq<Duplicates.Histories>, ms: seq<Duplicates.Histories>,
                         h: Header, i: int)
    requires 0 <= i < |ms| <= |stations| == |base|
  {
    ms[i] == Told(stations, base[i], stations[i].seen, Telling(h), i)
  }

  ghost predicate Knew(stations: seq<Station>, base: seq<Duplicates.Histories>, ms: seq<Duplicates.Histories>,
                       h: Header)
  {
    && |ms| <= |stations| == |base|
    && forall i {:trigger KnewAt(stations, base, ms, h, i)} :: 0 <= i < |ms| ==> KnewAt(stations, base, ms, h, i)
  }

  lemma {:induction false} KnewOn(stations: seq<Station>, base: seq<Duplicates.Histories>,
                                  ms: seq<Duplicates.Histories>, h: Header, m: Duplicates.Histories)
    requires Knew(stations, base, ms, h) && |ms| < |stations|
      && m == Told(stations, base[|ms|], stations[|ms|].seen, Telling(h), |ms|)
    ensures Knew(stations, base, ms + [m], h)
  {
    forall i | 0 <= i < |ms| + 1
      ensures KnewAt(stations, base, ms + [m], h, i)
    {
      assert i < |ms| ==> KnewAt(stations, base, ms, h, i);
    }
  }

  // A set that is spent is told nothing new.
  lemma {:induction false} StaysSpent(stations: seq<Station>, m: Duplicates.Histories, seen: Duplicates.DuplicateSet,
                                      tell: Duplicates.Histories -> Duplicates.Histories,
                                      i: nat, t: nat)
    requires i <= t <= |stations| && var x := Told(stations, m, seen, tell, i); tell(x) == x
    ensures Told(stations, m, seen, tell, t) == Told(stations, m, seen, tell, i)
  {
    if t > i {
      StaysSpent(stations, m, seen, tell, i, t - 1);
    }
  }

  // A set that one more telling spends stays so.
  lemma {:induction false} StaysNear(stations: seq<Station>, m: Duplicates.Histories, seen: Duplicates.DuplicateSet,
                                     tell: Duplicates.Histories -> Duplicates.Histories,
                                     i: nat, t: nat)
    requires i <= t <= |stations| && var x := Told(stations, m, seen, tell, i); tell(tell(x)) == tell(x)
    ensures var x := Told(stations, m, seen, tell, t); tell(tell(x)) == tell(x)
  {
    if t > i {
      StaysNear(stations, m, seen, tell, i, t - 1);
    }
  }

  // A set does not forget an originator.
  lemma {:induction false} StaysHeard(stations: seq<Station>, m: Duplicates.Histories, seen: Duplicates.DuplicateSet,
                                      h: Header, t: nat)
    requires t <= |stations| && h.originator in m
    ensures h.originator in Told(stations, m, seen, Telling(h), t)
  {
    if t > 0 {
      StaysHeard(stations, m, seen, h, t - 1);
    }
  }

  // At the first k stations the number was spent.
  ghost predicate SpentFrom(ms: seq<Duplicates.Histories>, h: Header, k: nat)
    requires k <= |ms|
  {
    forall i {:trigger SpentAfter(ms[i], h)} :: 0 <= i < k ==> SpentAfter(ms[i], h)
  }

  // A set that was told at station i and learns something of the message at station l was not told in between.
  lemma {:induction false} Again(stations: seq<Station>, m: Duplicates.Histories, seen: Duplicates.DuplicateSet,
                                 tell: Duplicates.Histories -> Duplicates.Histories,
                                 i: nat, l: nat)
    requires i < l <= |stations| && stations[i].seen == seen
    requires var x := Told(stations, m, seen, tell, i); tell(tell(tell(x))) == tell(tell(x))
    requires var x := Told(stations, m, seen, tell, l); tell(x) != x
    ensures forall j :: i < j < l ==> stations[j].seen != seen
  {
    forall j | i < j < l
      ensures stations[j].seen != seen
    {
      StaysNear(stations, m, seen, tell, i + 1, j);
      if stations[j].seen == seen {
        StaysSpent(stations, m, seen, tell, j + 1, l);
      }
    }
  }

  // A node that sends a message on a second time had not heard of its originator before the first, and none sends it on
  // a third time.
  ghost predicate Seldom(stations: seq<Station>, base: seq<Duplicates.Histories>, h: Header, i: int, l: int)
    requires 0 <= i < l < |stations| == |base|
  {
    stations[i].seen == stations[l].seen ==>
      h.originator !in base[l] && forall j :: i < j < l ==> stations[j].seen != stations[l].seen
  }

  lemma {:induction false} NotSpent(st: Station, m: Duplicates.Histories, copy: seq<Byte>, n: nat, h: Header)
    requires Relays(st, m, copy, n) && Get(copy[..n + 8], n) == h.(ttl := copy[4 + n], hops := copy[5 + n])
    ensures Telling(h)(m) != m
  {
    if Telling(h)(m) == m {
      Duplicates.SpentRepeats(m, h.originator, h.seqno);
    }
  }

  // A set that was told at station i and learns something of the message at station l had not heard of the originator.
  lemma {:induction false} NotHeard(stations: seq<Station>, m: Duplicates.Histories, seen: Duplicates.DuplicateSet,
                                    h: Header, i: nat, l: nat)
    requires i < l <= |stations| && stations[i].seen == seen && SpentAfter(Told(stations, m, seen, Telling(h), i), h)
    requires var x := Told(stations, m, seen, Telling(h), l); Telling(h)(x) != x
    ensures h.originator !in m
  {
    if h.originator in m {
      StaysHeard(stations, m, seen, h, i);
      StaysSpent(stations, m, seen, Telling(h), i + 1, l);
    }
  }

  lemma {:induction false} SentAgain(copies: seq<seq<Byte>>, n: nat, stations: seq<Station>,
                                     base: seq<Duplicates.Histories>, ms: seq<Duplicates.Histories>, h: Header,
                                     i: nat, l: nat)
    requires Knew(stations, base, ms, h) && i < l < |ms| && l < |copies| && SpentFrom(ms, h, l)
      && Shared(stations, base)
    requires |copies[l]| >= n + 8 && Get(copies[l][..n + 8], n) == h.(ttl := copies[l][4 + n], hops := copies[l][5 + n])
    requires RelaysAt(copies, n, stations, ms, l)
    ensures Seldom(stations, base, h, i, l)
  {
    if stations[i].seen == stations[l].seen {
      assert KnewAt(stations, base, ms, h, i) && KnewAt(stations, base, ms, h, l) && SpentAfter(ms[i], h);
      NotSpent(stations[l], ms[l], copies[l], n, h);
      Again(stations, base[l], stations[l].seen, Telling(h), i, l);
      NotHeard(stations, base[l], stations[l].seen, h, i, l);
    }
  }

  ghost predicate Shared(stations: seq<Station>, base: seq<Duplicates.Histories>)
  {
    |stations| == |base|
      && forall i, j :: 0 <= i < j < |stations| && stations[i].seen == stations[j].seen ==> base[i] == base[j]
  }

  lemma {:induction false} AllSeldom(copies: seq<seq<Byte>>, n: nat, stations: seq<Station>,
                                     base: seq<Duplicates.Histories>, ms: seq<Duplicates.Histories>, h: Header)
    requires Underway(copies, n, stations, ms, |ms|) && Knew(stations, base, ms, h) && SpentFrom(ms, h, |ms|)
      && Shared(stations, base)
    requires h == Get(copies[0][..n + 8], n)
    ensures forall i, l {:trigger Seldom(stations, base, h, i, l)} ::
      0 <= i < l < |ms| ==> Seldom(stations, base, h, i, l)
  {
    forall i, l | 0 <= i < l < |ms|
      ensures Seldom(stations, base, h, i, l)
    {
      assert RelaysAt(copies, n, stations, ms, l);
      Conserved(copies, n, l);
      SameHeader(copies[0], copies[l], n);
      SentAgain(copies, n, stations, base, ms, h, i, l);
    }
  }

  // What holds while a message is under way.
  ghost predicate EnRoute(copy: seq<Byte>, copies: seq<seq<Byte>>, n: nat, stations: seq<Station>,
                          base: seq<Duplicates.Histories>,
                          ms: seq<Duplicates.Histories>, h: Header, k: nat)
  {
    && Underway(copies, n, stations, ms, k) && copies[0] == copy && n + 8 <= |copy| && h == Get(copy[..n + 8], n)
      && h.size == |copy|
    && Knew(stations, base, ms, h) && SpentFrom(ms, h, k)
  }

  lemma {:induction false} ArrivesAt(copy: seq<Byte>, copies: seq<seq<Byte>>, n: nat, stations: seq<Station>,
                                     base: seq<Duplicates.Histories>,
                                     ms: seq<Duplicates.Histories>, h: Header, k: nat)
    requires EnRoute(copy, copies, n, stations, base, ms, h, k)
    ensures n + 8 <= |copies[k]| && var g := Get(copies[k][..n + 8], n);
      g.size == |copies[k]| && g == h.(ttl := copies[k][4 + n], hops := copies[k][5 + n])
  {
    Conserved(copies, n, k);
    SameHeader(copy, copies[k], n);
  }

  lemma {:induction false} EnRouteOn(copy: seq<Byte>, copies: seq<seq<Byte>>, n: nat, stations: seq<Station>,
                                     base: seq<Duplicates.Histories>,
                                     ms: seq<Duplicates.Histories>, h: Header, k: nat, next: seq<Byte>)
    requires EnRoute(copy, copies, n, stations, base, ms, h, k) && k < |stations|
    requires var m := Told(stations, base[k], stations[k].seen, Telling(h), k);
      Relays(stations[k], m, copies[k], n) && Hop(copies[k], next, n) && SpentAfter(m, h)
    ensures var m := Told(stations, base[k], stations[k].seen, Telling(h), k);
      EnRoute(copy, copies + [next], n, stations, base, ms + [m], h, k + 1)
  {
    var m := Told(stations, base[k], stations[k].seen, Telling(h), k);
    KnewOn(stations, base, ms, h, m);
    UnderwayOn(copies, n, stations, ms, k, m, next);
    forall i | 0 <= i < k + 1
      ensures SpentAfter((ms + [m])[i], h)
    {
      assert i < k ==> SpentAfter(ms[i], h);
    }
  }

  // What holds when it is sent on no more: the last station that saw it did not.
  lemma {:induction false} Ends(copy: seq<Byte>, copies: seq<seq<Byte>>, n: nat, stations: seq<Station>,
                                base: seq<Duplicates.Histories>,
                                ms: seq<Duplicates.Histories>, h: Header, k: nat, last: seq<Duplicates.Histories>)
    requires EnRoute(copy, copies, n, stations, base, ms, h, k) && Shared(stations, base)
    requires if k == |stations| then last == [] else Stays(copies, n, stations, base, h, k, last)
    ensures Travelled(copy, copies, n, stations, ms + last) && Knew(stations, base, ms + last, h)
    ensures forall i, l {:trigger Seldom(stations, base, h, i, l)} ::
      0 <= i < l < |copies| - 1 ==> Seldom(stations, base, h, i, l)
    ensures forall i :: 0 <= i < |copies| - 1 ==> Willing(stations[i], h)
  {
    Arrived(copies, n, stations, ms, k, last);
    AllWilling(copies, n, stations, ms, h);
    AllSeldom(copies, n, stations, base, ms, h);
    if k < |stations| {
      KnewOn(stations, base, ms, h, last[0]);
    } else {
      assert ms + last == ms;
    }
  }

  // No originator sends its own message on, nor does a node that is no relay for the sender or finds the originator
  // invalid.
  ghost predicate Willing(st: Station, h: Header)
  {
    st.me != h.originator && st.valid(h.originator) && st.relay
  }

  lemma {:induction false} AllWilling(copies: seq<seq<Byte>>, n: nat, stations: seq<Station>,
                                      ms: seq<Duplicates.Histories>, h: Header)
    requires Underway(copies, n, stations, ms, |ms|) && h == Get(copies[0][..n + 8], n)
    ensures forall i :: 0 <= i < |ms| ==> Willing(stations[i], h)
  {
    forall i | 0 <= i < |ms|
      ensures Willing(stations[i], h)
    {
      assert RelaysAt(copies, n, stations, ms, i);
      Conserved(copies, n, i);
      SameHeader(copies[0], copies[i], n);
    }
  }

  // A message on its way through any number of nodes, perhaps more than once through the same one, until one does not
  // send it on. A node sends it on a second time only if it had not heard of its originator before, and never a third
  // time.
  method Journey(copy: seq<Byte>, n: nat, stations: seq<Station>, ghost base: seq<Duplicates.Histories>)
    returns (copies: seq<seq<Byte>>, ghost ms: seq<Duplicates.Histories>)
    requires n + 8 <= |copy| && Get(copy[..n + 8], n).size == |copy| && |base| == |stations|
    requires forall i :: 0 <= i < |stations| ==> stations[i].seen.Valid() && base[i] == stations[i].seen.histories
    modifies set i | 0 <= i < |stations| :: stations[i].seen
    ensures Travelled(copy, copies, n, stations, ms) && Knew(stations, base, ms, Get(copy[..n + 8], n))
    ensures var h := Get(copy[..n + 8], n);
      forall i, l {:trigger Seldom(stations, base, h, i, l)} ::
        0 <= i < l < |copies| - 1 ==> Seldom(stations, base, h, i, l)
    ensures forall i :: 0 <= i < |copies| - 1 ==> Willing(stations[i], Get(copy[..n + 8], n))
  {
    copies, ms := [copy], [];
    ghost var h, last := Get(copy[..n + 8], n), [];
    assert Shared(stations, base) && AllKnow(stations, base, h, 0);
    var k := 0;
    while k < |stations|
      invariant 0 <= k <= |stations| && EnRoute(copy, copies, n, stations, base, ms, h, k) && last == []
      invariant AllKnow(stations, base, h, k)
    {
      var sent;
      sent, copies, ms, last := Advance(copy, copies, n, stations, base, ms, h, k);
      if !sent {
        break;
      }
      k := k + 1;
    }
    Ends(copy, copies, n, stations, base, ms, h, k, last);
    ms := ms + last;
  }

  // One station more, if it sends the message on.
  method Advance(ghost copy: seq<Byte>, copies: seq<seq<Byte>>, n: nat, stations: seq<Station>,
                 ghost base: seq<Duplicates.Histories>, ghost ms: seq<Duplicates.Histories>, ghost h: Header, k: nat)
    returns (sent: bool, copies': seq<seq<Byte>>, ghost ms': seq<Duplicates.Histories>,
             ghost last: seq<Duplicates.Histories>)
    requires EnRoute(copy, copies, n, stations, base, ms, h, k) && k < |stations| && AllKnow(stations, base, h, k)
    modifies stations[k].seen
    ensures sent ==> EnRoute(copy, copies', n, stations, base, ms', h, k + 1) && last == []
    ensures sent ==> AllKnow(stations, base, h, k + 1)
    ensures !sent ==> copies' == copies && ms' == ms && Stays(copies, n, stations, base, h, k, last)
  {
    ArrivesAt(copy, copies, n, stations, base, ms, h, k);
    copies', ms', last := copies, ms, [];
    ghost var m := Told(stations, base[k], stations[k].seen, Telling(h), k);
    var next;
    sent, next := Leg(copies[k], n, stations, base, h, k);
    if sent {
      EnRouteOn(copy, copies, n, stations, base, ms, h, k, next);
      copies', ms' := copies + [next], ms + [m];
    } else {
      last := [m];
    }
  }

  // The station does not send the message on, by what its duplicate set knew then.
  ghost predicate Stays(copies: seq<seq<Byte>>, n: nat, stations: seq<Station>, base: seq<Duplicates.Histories>,
                        h: Header, k: nat, last: seq<Duplicates.Histories>)
    requires k < |stations| == |base| && k < |copies|
  {
    var m := Told(stations, base[k], stations[k].seen, Telling(h), k);
    last == [m] && !Relays(stations[k], m, copies[k], n)
  }

  // The duplicate set of station i knows what it was told at the first k stations.
  ghost predicate Knows(stations: seq<Station>, base: seq<Duplicates.Histories>, h: Header, k: nat, i: int)
    requires 0 <= i < |stations| == |base| && k <= |stations|
    reads stations[i].seen
  {
    stations[i].seen.Valid() && stations[i].seen.histories == Told(stations, base[i], stations[i].seen, Telling(h), k)
  }

  ghost predicate AllKnow(stations: seq<Station>, base: seq<Duplicates.Histories>, h: Header, k: nat)
    requires |stations| == |base| && k <= |stations|
    reads set i | 0 <= i < |stations| :: stations[i].seen
  {
    forall i {:trigger Knows(stations, base, h, k, i)} :: 0 <= i < |stations| ==> Knows(stations, base, h, k, i)
  }

  // The visit of a copy, by the header of the first.
  method Called(st: Station, copy: seq<Byte>, n: nat, ghost h: Header) returns (sent: bool, next: seq<Byte>)
    requires n + 8 <= |copy| && Get(copy[..n + 8], n).size == |copy| && st.seen.Valid()
    requires Get(copy[..n + 8], n) == h.(ttl := copy[4 + n], hops := copy[5 + n])
    modifies st.seen
    ensures st.seen.Valid() && (sent <==> Relays(st, old(st.seen.histories), copy, n))
    ensures sent ==> Hop(copy, next, n) && SpentAfter(old(st.seen.histories), h)
    ensures sent ==> st.seen.histories == Telling(h)(old(st.seen.histories))
  {
    sent, next := Visited(st, copy, n);
  }

  // One station more, where the message is handled alike for all its duplicate set belongs to.
  method Leg(copy: seq<Byte>, n: nat, stations: seq<Station>, ghost base: seq<Duplicates.Histories>, ghost h: Header,
             k: nat)
    returns (sent: bool, next: seq<Byte>)
    requires |base| == |stations| && k < |stations| && AllKnow(stations, base, h, k)
    requires n + 8 <= |copy| && Get(copy[..n + 8], n).size == |copy|
      && Get(copy[..n + 8], n) == h.(ttl := copy[4 + n], hops := copy[5 + n])
    modifies stations[k].seen
    ensures sent <==> Relays(stations[k], Told(stations, base[k], stations[k].seen, Telling(h), k), copy, n)
    ensures sent ==> Hop(copy, next, n) && SpentAfter(Told(stations, base[k], stations[k].seen, Telling(h), k), h)
    ensures sent ==> AllKnow(stations, base, h, k + 1)
  {
    assert Knows(stations, base, h, k, k);
    sent, next := Called(stations[k], copy, n, h);
    if sent {
      ghost var t := k + 1;
      forall i | 0 <= i < |stations|
        ensures Knows(stations, base, h, t, i)
      {
        assert old(Knows(stations, base, h, k, i));
      }
    }
  }

  // ---- the messages of a packet ----

  // A message of a packet: where it is, its header, whether we relay for its sender when it comes to that, whether it
  // is handled or skipped, whether the message handlers get it, whether it passes the forwarding check and so is
  // rewritten, and whether it is sent.
  datatype Visit = Visit(at: nat, h: Header, relay: bool, handled: bool, processed: bool, passed: bool, sent: bool)

  // Our own messages, those of invalid originators and those with impossible hop counts are skipped.
  predicate Handles(h: Header, me: seq<Byte>, valid: seq<Byte> -> bool)
  {
    h.originator != me && valid(h.originator) && h.ttl != 0 && h.ttl as int + h.hops as int <= 255
  }

  // The messages visited follow one another from byte 4 on, each within the packet, up to next.
  ghost predicate Trail(vs: seq<Visit>, n: nat, size: nat, next: nat)
  {
    if vs == [] then next == 4 else
      var v := vs[|vs| - 1];
      && Trail(vs[..|vs| - 1], n, size, v.at)
      && v.at + n + 8 <= size && v.h.size > 0 && v.at + v.h.size <= size && next == v.at + v.h.size
  }

  // The two bytes of each message passed on.
  ghost function Marked(vs: seq<Visit>, n: nat): set<int>
  {
    if vs == [] then {} else
      var v := vs[|vs| - 1];
      Marked(vs[..|vs| - 1], n) + if v.passed then {v.at + 4 + n, v.at + 5 + n} else {}
  }

  // No message is smaller than its header.
  ghost predicate Spaced(vs: seq<Visit>, n: nat)
  {
    forall v :: v in vs ==> v.h.size >= n + 8
  }

  // No further message at a place: too little is left, or the size there is zero or goes beyond the packet.
  ghost predicate Stops(b: seq<Byte>, n: nat, next: nat)
  {
    || next + n + 8 > |b|
    || var size := Get(b[next..next + n + 8], n).size; size == 0 || next + size > |b|
  }

  // What the duplicate set for processing knows after the messages visited, and the one for forwarding.
  ghost function Processed(m: Duplicates.Histories, vs: seq<Visit>): Duplicates.Histories
  {
    if vs == [] then m else
      var v := vs[|vs| - 1];
      Noted(v.h, v.handled, Processed(m, vs[..|vs| - 1]))
  }

  ghost function Forwarded(m: Duplicates.Histories, vs: seq<Visit>): Duplicates.Histories
  {
    if vs == [] then m else
      var v := vs[|vs| - 1];
      Noted(v.h, v.handled && v.relay, Forwarded(m, vs[..|vs| - 1]))
  }

  // Each message is handled, passed and sent as its header, the relay question and the messages before it demand.
  ghost predicate Decided(vs: seq<Visit>, me: seq<Byte>, valid: seq<Byte> -> bool, relay: nat -> bool,
                          k: Duplicates.Histories, m: Duplicates.Histories)
  {
    forall i {:trigger DecidedAt(vs, me, valid, relay, k, m, i)} ::
      0 <= i < |vs| ==> DecidedAt(vs, me, valid, relay, k, m, i)
  }

  ghost predicate DecidedAt(vs: seq<Visit>, me: seq<Byte>, valid: seq<Byte> -> bool, relay: nat -> bool,
                            k: Duplicates.Histories, m: Duplicates.Histories, i: nat)
    requires i < |vs|
  {
    vs[i].relay == relay(i) && Judged(vs[i], me, valid, Processed(k, vs[..i]), Forwarded(m, vs[..i]))
  }

  ghost predicate Judged(v: Visit, me: seq<Byte>, valid: seq<Byte> -> bool, p: Duplicates.Histories,
                         f: Duplicates.Histories)
  {
    && (v.handled <==> Handles(v.h, me, valid))
    && (v.processed <==> v.handled && !Duplicates.Repeats(Duplicates.Verdict(p, v.h.originator, v.h.seqno)))
    && (v.passed <==> v.handled && Passes(v.h, v.relay, f))
    && (v.sent <==> v.passed && v.h.ttl >= 2)
  }

  // By the fields of its header: our own message, that of an invalid originator, and one with an impossible TTL or hop
  // count are skipped and left alone; any other is handled.
  ghost predicate SkippedAt(b: seq<Byte>, now: seq<Byte>, n: nat, vs: seq<Visit>, me: seq<Byte>,
                            valid: seq<Byte> -> bool, i: nat)
    requires i < |vs|
  {
    var v := vs[i];
    if v.h.originator == me || !valid(v.h.originator) || v.h.ttl == 0 || v.h.ttl as int + v.h.hops as int > 255 then
      && !v.handled && !v.processed && !v.passed && !v.sent
      && (Spaced(vs, n) ==> Untouched(b, now, v.at, v.at + v.h.size))
    else v.handled
  }

  ghost predicate Untouched(b: seq<Byte>, now: seq<Byte>, from: nat, to: nat)
  {
    |b| == |now| && forall j :: from <= j < to && j < |b| ==> now[j] == b[j]
  }

  // Messages that do not overlap lie before what comes next, and so do the bytes that are changed.
  lemma {:induction false} TrailBelow(vs: seq<Visit>, n: nat, size: nat, next: nat)
    requires Trail(vs, n, size, next) && Spaced(vs, n)
    ensures forall i :: 0 <= i < |vs| ==> vs[i].at + vs[i].h.size <= next
    ensures forall j :: j in Marked(vs, n) ==> j < next
  {
    if vs != [] {
      var q, v := vs[..|vs| - 1], vs[|vs| - 1];
      assert v in vs && forall u :: u in q ==> u in vs;
      TrailBelow(q, n, size, v.at);
      forall i | 0 <= i < |vs|
        ensures vs[i].at + vs[i].h.size <= next
      {
        assert i < |q| ==> q[i] == vs[i];
      }
    }
  }

  // A message that is not passed on has none of the bytes that are changed.
  lemma {:induction false} Unmarked(vs: seq<Visit>, n: nat, size: nat, next: nat, i: nat)
    requires Trail(vs, n, size, next) && Spaced(vs, n) && i < |vs| && !vs[i].passed
    ensures forall j :: vs[i].at <= j < vs[i].at + vs[i].h.size ==> j !in Marked(vs, n)
  {
    var q, v := vs[..|vs| - 1], vs[|vs| - 1];
    assert v in vs && forall u :: u in q ==> u in vs;
    TrailBelow(q, n, size, v.at);
    if i < |q| {
      Unmarked(q, n, size, v.at, i);
      assert q[i] == vs[i];
    }
  }

  lemma {:induction false} AllSkipped(b: seq<Byte>, now: seq<Byte>, n: nat, vs: seq<Visit>, next: nat, me: seq<Byte>,
                                      valid: seq<Byte> -> bool, relay: nat -> bool, k: Duplicates.Histories,
                                      m: Duplicates.Histories)
    requires Parsing(b, now, n, vs, next) && Decided(vs, me, valid, relay, k, m)
    ensures forall i {:trigger SkippedAt(b, now, n, vs, me, valid, i)} ::
      0 <= i < |vs| ==> SkippedAt(b, now, n, vs, me, valid, i)
  {
    forall i: nat | i < |vs|
      ensures SkippedAt(b, now, n, vs, me, valid, i)
    {
      assert DecidedAt(vs, me, valid, relay, k, m, i);
      if Spaced(vs, n) && !vs[i].passed {
        Unmarked(vs, n, |b|, next, i);
      }
    }
  }

  // What a duplicate set knows of one originator.
  ghost predicate SameEntry(m: Duplicates.Histories, m': Duplicates.Histories, o: seq<Byte>)
  {
    (o in m <==> o in m') && (o in m ==> m'[o] == m[o])
  }

  lemma {:induction false} Own(b: seq<Byte>, now: seq<Byte>, n: nat, vs: seq<Visit>, me: seq<Byte>,
                               valid: seq<Byte> -> bool)
    requires forall i {:trigger SkippedAt(b, now, n, vs, me, valid, i)} ::
      0 <= i < |vs| ==> SkippedAt(b, now, n, vs, me, valid, i)
    ensures forall i :: 0 <= i < |vs| && vs[i].handled ==> vs[i].h.originator != me
  {
    forall i: nat | i < |vs| && vs[i].handled
      ensures vs[i].h.originator != me
    {
      assert SkippedAt(b, now, n, vs, me, valid, i);
    }
  }

  // Whatever comes, neither set learns anything of our own messages.
  lemma {:induction false} OwnUnknown(vs: seq<Visit>, me: seq<Byte>, k: Duplicates.Histories, m: Duplicates.Histories)
    requires forall i :: 0 <= i < |vs| && vs[i].handled ==> vs[i].h.originator != me
    ensures SameEntry(k, Processed(k, vs), me) && SameEntry(m, Forwarded(m, vs), me)
  {
    if vs != [] {
      OwnUnknown(vs[..|vs| - 1], me, k, m);
    }
  }

  lemma {:induction false} DecidedOn(vs: seq<Visit>, me: seq<Byte>, valid: seq<Byte> -> bool, relay: nat -> bool,
                                     k: Duplicates.Histories, m: Duplicates.Histories, v: Visit)
    requires Decided(vs, me, valid, relay, k, m) && v.relay == relay(|vs|)
      && Judged(v, me, valid, Processed(k, vs), Forwarded(m, vs))
    ensures Decided(vs + [v], me, valid, relay, k, m)
  {
    var ws := vs + [v];
    assert ws[..|vs|] == vs;
    forall i: nat | i < |ws|
      ensures DecidedAt(ws, me, valid, relay, k, m, i)
    {
      if i < |vs| {
        assert ws[..i] == vs[..i];
        assert DecidedAt(vs, me, valid, relay, k, m, i);
      }
    }
  }

  ghost predicate Tracked(vs: seq<Visit>, me: seq<Byte>, valid: seq<Byte> -> bool, relay: nat -> bool,
                          k: Duplicates.Histories, m: Duplicates.Histories, processing: Duplicates.Histories,
                          forwarding: Duplicates.Histories)
  {
    Decided(vs, me, valid, relay, k, m) && processing == Processed(k, vs) && forwarding == Forwarded(m, vs)
  }

  // What the loop over a packet that was b keeps: the visits so far, and, if no message overlaps the next, the header
  // of each as it was in b, its TTL and hop count as they are now, and the bytes ahead untouched.
  ghost predicate Parsing(b: seq<Byte>, now: seq<Byte>, n: nat, vs: seq<Visit>, next: nat)
  {
    && Trail(vs, n, |b|, next) && SameBut(b, now, Marked(vs, n))
    && (Spaced(vs, n) ==> Ahead(b, now, next) && forall v :: v in vs ==> Settled(b, now, n, v, next))
  }

  ghost predicate Ahead(b: seq<Byte>, now: seq<Byte>, next: nat)
  {
    |b| == |now| && forall j :: next <= j < |b| ==> now[j] == b[j]
  }

  ghost predicate Settled(b: seq<Byte>, now: seq<Byte>, n: nat, v: Visit, next: nat)
  {
    && v.at + n + 8 <= |b| == |now| && v.at + n + 8 <= next && v.h == Get(b[v.at..v.at + n + 8], n)
    && var hop := if v.passed then 1 else 0;
    Ttl(now, v.at, n) == v.h.ttl as int - hop && HopCount(now, v.at, n) == v.h.hops as int + hop
  }

  // The message at a place is rewritten or nothing is.
  ghost predicate Turned(now: seq<Byte>, now': seq<Byte>, n: nat, v: Visit)
  {
    if v.passed then Rewritten(now, now', v.at, n) else now' == now
  }

  lemma {:induction false} MarkedNext(b: seq<Byte>, now: seq<Byte>, now': seq<Byte>, n: nat, vs: seq<Visit>, v: Visit)
    requires SameBut(b, now, Marked(vs, n)) && Turned(now, now', n, v)
    ensures SameBut(b, now', Marked(vs + [v], n))
  {
    assert (vs + [v])[..|vs|] == vs;
  }

  lemma {:induction false} AheadNext(b: seq<Byte>, now: seq<Byte>, now': seq<Byte>, n: nat, v: Visit)
    requires Ahead(b, now, v.at) && |now'| == |b| && v.h.size >= n + 8 && v.at + v.h.size <= |b|
    requires Turned(now, now', n, v) && v.h == Get(now[v.at..v.at + n + 8], n)
    ensures Ahead(b, now', v.at + v.h.size) && Settled(b, now', n, v, v.at + v.h.size)
  {
    assert now[v.at..v.at + n + 8] == b[v.at..v.at + n + 8];
    assert now[v.at..v.at + n + 8][4 + n] == now[v.at + 4 + n] && now[v.at..v.at + n + 8][5 + n] == now[v.at + 5 + n];
  }

  lemma {:induction false} SettledOn(b: seq<Byte>, now: seq<Byte>, now': seq<Byte>, n: nat, v: Visit, u: Visit)
    requires Settled(b, now, n, u, v.at) && Turned(now, now', n, v)
    ensures Settled(b, now', n, u, v.at + v.h.size)
  {
  }

  lemma {:induction false} ParsingNext(b: seq<Byte>, now: seq<Byte>, now': seq<Byte>, n: nat, vs: seq<Visit>, v: Visit)
    requires Parsing(b, now, n, vs, v.at) && v.at + n + 8 <= |b| && v.h == Get(now[v.at..v.at + n + 8], n)
    requires v.h.size > 0 && v.at + v.h.size <= |b| && Turned(now, now', n, v)
    ensures Parsing(b, now', n, vs + [v], v.at + v.h.size)
  {
    var ws := vs + [v];
    assert ws[..|vs|] == vs;
    MarkedNext(b, now, now', n, vs, v);
    if Spaced(ws, n) {
      assert v in ws && Spaced(vs, n);
      AheadNext(b, now, now', n, v);
      forall u | u in ws
        ensures Settled(b, now', n, u, v.at + v.h.size)
      {
        if u in vs {
          SettledOn(b, now, now', n, v, u);
        }
      }
    }
  }

  // parse_packet, with the address check and the relay question as parameters
  method ParsePacket(a: array<Byte>, n: nat, me: seq<Byte>, valid: seq<Byte> -> bool, relay: nat -> bool,
                     processing: Duplicates.DuplicateSet, forwarding: Duplicates.DuplicateSet)
    returns (vs: seq<Visit>, next: nat)
    requires processing.Valid() && forwarding.Valid() && processing != forwarding
    modifies a, processing, forwarding
    ensures processing.Valid() && forwarding.Valid()
    ensures a.Length < 4 || 256 * old(a[0]) as int + old(a[1]) as int != a.Length ==> vs == [] && a[..] == old(a[..])
    ensures a.Length >= 4 && 256 * old(a[0]) as int + old(a[1]) as int == a.Length ==>
      Parsing(old(a[..]), a[..], n, vs, next) && Stops(a[..], n, next)
    ensures Decided(vs, me, valid, relay, old(processing.histories), old(forwarding.histories))
    ensures forall i {:trigger SkippedAt(old(a[..]), a[..], n, vs, me, valid, i)} ::
      0 <= i < |vs| ==> SkippedAt(old(a[..]), a[..], n, vs, me, valid, i)
    ensures processing.histories == Processed(old(processing.histories), vs)
    ensures forwarding.histories == Forwarded(old(forwarding.histories), vs)
    ensures SameEntry(old(processing.histories), processing.histories, me)
      && SameEntry(old(forwarding.histories), forwarding.histories, me)
  {
    vs, next := [], 4;
    if a.Length < 4 || Word(a[0], a[1]) != a.Length {
      return;
    }
    vs, next := ParseMessages(a, n, me, valid, relay, processing, forwarding,
                              processing.histories, forwarding.histories);
    AllSkipped(old(a[..]), a[..], n, vs, next, me, valid, relay, old(processing.histories), old(forwarding.histories));
    Own(old(a[..]), a[..], n, vs, me, valid);
    OwnUnknown(vs, me, old(processing.histories), old(forwarding.histories));
  }

  // The loop of parse_packet
  method ParseMessages(a: array<Byte>, n: nat, me: seq<Byte>, valid: seq<Byte> -> bool, relay: nat -> bool,
                       processing: Duplicates.DuplicateSet, forwarding: Duplicates.DuplicateSet,
                       ghost k: Duplicates.Histories, ghost m: Duplicates.Histories)
    returns (vs: seq<Visit>, next: nat)
    requires processing.Valid() && forwarding.Valid() && processing != forwarding && k == processing.histories
      && m == forwarding.histories
    modifies a, processing, forwarding
    ensures processing.Valid() && forwarding.Valid() && Parsing(old(a[..]), a[..], n, vs, next) && Stops(a[..], n, next)
    ensures Tracked(vs, me, valid, relay, k, m, processing.histories, forwarding.histories)
  {
    ghost var b := a[..];
    vs, next := [], 4;
    while next + n + 8 <= a.Length
      invariant processing.Valid() && forwarding.Valid() && Parsing(b, a[..], n, vs, next)
      invariant Tracked(vs, me, valid, relay, k, m, processing.histories, forwarding.histories)
      decreases a.Length - next
    {
      var size, v := ParseNext(a, next, n, me, valid, relay(|vs|), processing, forwarding, b, vs, relay, k, m);
      if size == 0 {
        break;
      }
      vs, next := vs + [v], next + size;
    }
  }

  // The next message of a packet, if there is room for it; otherwise the size is zero.
  method ParseNext(a: array<Byte>, next: nat, n: nat, me: seq<Byte>, valid: seq<Byte> -> bool, answer: bool,
                   processing: Duplicates.DuplicateSet, forwarding: Duplicates.DuplicateSet,
                   ghost b: seq<Byte>, ghost vs: seq<Visit>, ghost relay: nat -> bool, ghost k: Duplicates.Histories,
                   ghost m: Duplicates.Histories)
    returns (size: nat, v: Visit)
    requires processing.Valid() && forwarding.Valid() && processing != forwarding && next + n + 8 <= a.Length
      && answer == relay(|vs|)
    requires Parsing(b, a[..], n, vs, next)
      && Tracked(vs, me, valid, relay, k, m, processing.histories, forwarding.histories)
    modifies a, processing, forwarding
    ensures processing.Valid() && forwarding.Valid() && next + size <= a.Length
    ensures Parsing(b, a[..], n, if size == 0 then vs else vs + [v], next + size)
      && (size == 0 ==> Stops(a[..], n, next))
    ensures Tracked(if size == 0 then vs
      else vs + [v], me, valid, relay, k, m, processing.histories, forwarding.histories)
  {
    var h := ReadHeader(a, next, n);
    assert a[..][next..next + n + 8] == a[next..next + n + 8];
    var handled := h.originator != me && valid(h.originator) && h.ttl != 0 && h.ttl as int + h.hops as int <= 255;
    v := Visit(next, h, answer, handled, false, false, false);
    if next + h.size > a.Length || h.size == 0 {
      return 0, v;
    }
    v := VisitNext(a, v, n, me, valid, processing, forwarding, b, vs, relay, k, m);
    size := h.size;
  }

  // One message more.
  method VisitNext(a: array<Byte>, u: Visit, n: nat, me: seq<Byte>, valid: seq<Byte> -> bool,
                   processing: Duplicates.DuplicateSet, forwarding: Duplicates.DuplicateSet,
                   ghost b: seq<Byte>, ghost vs: seq<Visit>, ghost relay: nat -> bool, ghost k: Duplicates.Histories,
                   ghost m: Duplicates.Histories)
    returns (v: Visit)
    requires Parsing(b, a[..], n, vs, u.at) && u.h.size > 0 && u.at + u.h.size <= a.Length
    requires processing.Valid() && forwarding.Valid() && processing != forwarding && u.relay == relay(|vs|)
    requires u.at + n + 8 <= a.Length && u.h == Get(a[u.at..u.at + n + 8], n)
      && (u.handled <==> Handles(u.h, me, valid))
    requires Tracked(vs, me, valid, relay, k, m, processing.histories, forwarding.histories)
    modifies a, processing, forwarding
    ensures processing.Valid() && forwarding.Valid() && v.at == u.at && v.h == u.h
    ensures Parsing(b, a[..], n, vs + [v], u.at + u.h.size)
    ensures Tracked(vs + [v], me, valid, relay, k, m, processing.histories, forwarding.histories)
  {
    ghost var now, p, f := a[..], processing.histories, forwarding.histories;
    assert now[u.at..u.at + n + 8] == a[u.at..u.at + n + 8];
    v := VisitMessage(a, u, n, me, valid, processing, forwarding);
    TrackedOn(vs, me, valid, relay, k, m, p, f, v);
    ParsingNext(b, now, a[..], n, vs, v);
  }

  lemma HandledTtl(h: Header, me: seq<Byte>, valid: seq<Byte> -> bool)
    ensures Handles(h, me, valid) ==> h.ttl >= 1 && h.hops < 255
  {
  }

  lemma {:induction false} TrackedOn(vs: seq<Visit>, me: seq<Byte>, valid: seq<Byte> -> bool, relay: nat -> bool,
                                     k: Duplicates.Histories, m: Duplicates.Histories, p: Duplicates.Histories,
                                     f: Duplicates.Histories, v: Visit)
    requires Tracked(vs, me, valid, relay, k, m, p, f) && v.relay == relay(|vs|) && Judged(v, me, valid, p, f)
    ensures Tracked(vs + [v], me, valid, relay, k, m, Noted(v.h, v.handled, p), Noted(v.h, v.handled && v.relay, f))
  {
    DecidedOn(vs, me, valid, relay, k, m, v);
    assert (vs + [v])[..|vs|] == vs;
  }

  // One message: skipped, or handled.
  method VisitMessage(a: array<Byte>, u: Visit, n: nat, me: seq<Byte>, valid: seq<Byte> -> bool,
                      processing: Duplicates.DuplicateSet, forwarding: Duplicates.DuplicateSet)
    returns (v: Visit)
    requires u.at + n + 8 <= a.Length && u.h == Get(a[u.at..u.at + n + 8], n)
      && (u.handled <==> Handles(u.h, me, valid))
    requires processing.Valid() && forwarding.Valid() && processing != forwarding
    modifies a, processing, forwarding
    ensures processing.Valid() && forwarding.Valid()
      && v == u.(processed := v.processed, passed := v.passed, sent := v.sent)
    ensures processing.histories == Noted(v.h, v.handled, old(processing.histories))
    ensures forwarding.histories == Noted(v.h, v.handled && v.relay, old(forwarding.histories))
    ensures Judged(v, me, valid, old(processing.histories), old(forwarding.histories))
    ensures Turned(old(a[..]), a[..], n, v)
  {
    HandledTtl(u.h, me, valid);
    v := u.(processed := false, passed := false, sent := false);
    if v.handled {
      var processed, passed, sent := HandleMessage(a, v.at, n, v.h, v.relay, processing, forwarding);
      v := v.(processed := processed, passed := passed, sent := sent);
    }
  }

  // The duplicate check for processing, then the forwarding, of one message.
  method HandleMessage(a: array<Byte>, at: nat, n: nat, h: Header, relay: bool, processing: Duplicates.DuplicateSet,
                       forwarding: Duplicates.DuplicateSet)
    returns (processed: bool, passed: bool, sent: bool)
    requires at + n + 8 <= a.Length && h == Get(a[at..at + n + 8], n) && h.ttl >= 1 && h.hops < 255
    requires processing.Valid() && forwarding.Valid() && processing != forwarding
    modifies a, processing, forwarding
    ensures processing.Valid() && forwarding.Valid()
    ensures processing.histories == Noted(h, true, old(processing.histories))
      && forwarding.histories == Noted(h, relay, old(forwarding.histories))
    ensures processed <==> !Duplicates.Repeats(Duplicates.Verdict(old(processing.histories), h.originator, h.seqno))
    ensures (passed <==> Passes(h, relay, old(forwarding.histories))) && (sent <==> passed && h.ttl >= 2)
    ensures if passed then Rewritten(old(a[..]), a[..], at, n) else a[..] == old(a[..])
  {
    var duplicate, status := processing.IsDuplicate(h.originator, h.seqno);
    processed := !duplicate;
    passed, sent := ForwardMessage(a, at, n, h, relay, forwarding);
  }
}
