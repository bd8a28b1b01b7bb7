/** Duplicate detection (src/duplicate_set.c): a 32-bit window over wrapping sequence numbers refines an unbounded set
    of accepted numbers. */
module Duplicates {
  import opened Basics
  import opened Seqno

  // ---- the 32-bit window as a number ----

  // x doubled d times: 1 doubled d times is 1 << d
  function Doubled(x: nat, d: nat): nat
  {
    if d == 0 then x else 2 * Doubled(x, d - 1)
  }

  // Bit k of x: x & (1 << k) != 0
  predicate Has(x: nat, k: nat)
  {
    if k == 0 then x % 2 == 1 else Has(x / 2, k - 1)
  }

  // x | (1 << k)
  function Set(x: nat, k: nat): nat
  {
    if Has(x, k) then x else x + Doubled(1, k)
  }

  // The lower n bits of x.
  function Cut(x: nat, n: nat): nat
  {
    if n == 0 then 0 else x % 2 + 2 * Cut(x / 2, n - 1)
  }

  // x << d in 32 bits
  function Shl(x: nat, d: nat): nat
  {
    Cut(Doubled(x, d), 32)
  }

  lemma {:induction false} AddHas(x: nat, j: nat, k: nat)
    requires !Has(x, j)
    ensures Has(x + Doubled(1, j), k) <==> Has(x, k) || j == k
  {
    if j > 0 {
      assert (x + 2 * Doubled(1, j - 1)) / 2 == x / 2 + Doubled(1, j - 1);
      if k > 0 {
        AddHas(x / 2, j - 1, k - 1);
      }
    }
  }

  // Setting bit j leaves the other bits alone.
  lemma {:induction false} SetHas(x: nat, j: nat, k: nat)
    ensures Has(Set(x, j), k) <==> Has(x, k) || j == k
  {
    if !Has(x, j) {
      AddHas(x, j, k);
    }
  }

  // Cutting to n bits leaves the lower bits alone.
  lemma {:induction false} CutHas(x: nat, n: nat, k: nat)
    requires k < n
    ensures Has(Cut(x, n), k) <==> Has(x, k)
  {
    if k > 0 {
      CutHas(x / 2, n - 1, k - 1);
    }
  }

  lemma {:induction false} DoubledHas(x: nat, d: nat, k: nat)
    ensures Has(Doubled(x, d), k) <==> k >= d && Has(x, k - d)
  {
    if d > 0 && k > 0 {
      DoubledHas(x, d - 1, k - 1);
    }
  }

  // Shifting moves every bit up and lets zeros in.
  lemma {:induction false} ShlHas(x: nat, d: nat, k: nat)
    requires k < 32
    ensures Has(Shl(x, d), k) <==> k >= d && Has(x, k - d)
  {
    CutHas(Doubled(x, d), 32, k);
    DoubledHas(x, d, k);
  }

  lemma {:induction false} NoBit(k: nat)
    ensures !Has(0, k)
  {
    if k > 0 {
      NoBit(k - 1);
    }
  }

  // ---- the window against the numbers it stands for ----

  datatype Window = Window(seqnr: nat, bits: nat, tooLow: nat)

  // What a window stands for: the full number of the head, the numbers accepted since the entry was made or reset, and
  // how many much too old ones came in a row.
  datatype History = History(head: int, accepted: seq<int>, tooLow: nat)

  // Bit k is set exactly when head - k is among the accepted numbers, none of which lies above the head.
  ghost predicate Shows(w: Window, h: History)
  {
    && w.seqnr < U16 && h.head % U16 == w.seqnr && w.tooLow == h.tooLow <= 16
    && (forall n :: n in h.accepted ==> n <= h.head)
    && (forall k {:trigger BitAt(w, h, k)} :: 0 <= k < 32 ==> BitAt(w, h, k))
  }

  ghost predicate BitAt(w: Window, h: History, k: nat)
    requires k < 32
  {
    Has(w.bits, k) <==> h.head - k in h.accepted
  }

  // No number was accepted twice.
  ghost predicate Once(accepted: seq<int>)
  {
    forall i, j :: 0 <= i < j < |accepted| ==> accepted[i] != accepted[j]
  }

  lemma {:induction false} OnceSnoc(accepted: seq<int>, n: int)
    requires Once(accepted) && n !in accepted
    ensures Once(accepted + [n])
  {
  }

  // The full sequence number a 16-bit one stands for, next to the head.
  function Unwrap(head: int, s: nat): int
  {
    head + Diff(s, head % U16)
  }

  lemma {:induction false} UnwrapCongruent(head: int, s: nat)
    requires s < U16
    ensures Unwrap(head, s) % U16 == s && -HALF <= Unwrap(head, s) - head < HALF
  {
  }

  lemma {:induction false} OldStep(w: Window, h: History, k: nat)
    requires Shows(w, h) && k < 32
    ensures Shows(w.(bits := Set(w.bits, k), tooLow := 0), History(h.head, h.accepted + [h.head - k], 0))
  {
    var w', h' := w.(bits := Set(w.bits, k), tooLow := 0), History(h.head, h.accepted + [h.head - k], 0);
    forall j | 0 <= j < 32
      ensures BitAt(w', h', j)
    {
      assert BitAt(w, h, j);
      SetHas(w.bits, k, j);
    }
  }

  lemma {:induction false} NewStep(w: Window, h: History, d: nat, s: nat)
    requires Shows(w, h) && d >= 1 && s < U16 && (h.head + d) % U16 == s
    ensures Shows(Window(s, Set(if d < 32 then Shl(w.bits, d) else 0, 0), 0),
      History(h.head + d, h.accepted + [h.head + d], 0))
  {
    var bits := if d < 32 then Shl(w.bits, d) else 0;
    var w', h' := Window(s, Set(bits, 0), 0), History(h.head + d, h.accepted + [h.head + d], 0);
    forall j {:trigger BitAt(w', h', j)} | 0 <= j < 32
      ensures BitAt(w', h', j)
    {
      SetHas(bits, 0, j);
      assert j >= d ==> BitAt(w, h, j - d);
      if d < 32 {
        ShlHas(w.bits, d, j);
      } else {
        NoBit(j);
      }
    }
  }

  lemma {:induction false} ResetStep(s: nat)
    requires s < U16
    ensures Shows(Window(s, 1, 0), History(s, [s], 0)) && Shows(Window(s, 0, 0), History(s, [], 0))
  {
    forall j | 0 <= j < 32
      ensures BitAt(Window(s, 1, 0), History(s, [s], 0), j) && BitAt(Window(s, 0, 0), History(s, [], 0), j)
    {
      NoBit(j);
      SetHas(0, 0, j);
      assert Set(0, 0) == 1;
    }
  }

  // ---- the verdict, by the numbers accepted before ----

  // The originator of a message, as the bytes on the wire.
  type Originator = seq<Byte>

  datatype Status = New | Old | Duplicate | TooOld | Reset

  predicate Repeats(status: Status) { status == Duplicate || status == TooOld }

  // A number far below the head is refused, but the seventeenth in a row starts the history anew; any other number is
  // accepted unless it was before.
  function Judge(h: History, s: nat): (r: (History, Status))
    ensures s < U16 && Once(h.accepted) ==> Once(r.0.accepted)
  {
    var n := Unwrap(h.head, s);
    if n < h.head - 31 then
      if h.tooLow == 16 then (History(s, [s], 0), Reset) else (h.(tooLow := h.tooLow + 1), TooOld)
    else if n in h.accepted then (h.(tooLow := 0), Duplicate)
    else (History(if n > h.head then n else h.head, h.accepted + [n], 0), if n > h.head then New else Old)
  }

  type Histories = map<Originator, History>

  // An originator not heard of before is taken note of, but the number that made it known is not.
  function Record(m: Histories, o: Originator, s: nat): (Histories, Status)
  {
    if o in m then var (h, status) := Judge(m[o], s); (m[o := h], status) else (m[o := History(s, [], 0)], New)
  }

  function After(m: Histories, o: Originator, s: nat): Histories { Record(m, o, s).0 }

  function Verdict(m: Histories, o: Originator, s: nat): Status { Record(m, o, s).1 }

  // A number, by its true value, that is not too far below the head: it is refused exactly if it was accepted before,
  // it is among the accepted ones afterwards, and nothing else has changed.
  lemma {:induction false} InReach(m: Histories, o: Originator, n: int)
    requires o in m && m[o].head - 31 <= n < m[o].head + HALF && forall x :: x in m[o].accepted ==> x <= m[o].head
    ensures Repeats(Verdict(m, o, n % U16)) <==> n in m[o].accepted
    ensures var m1 := After(m, o, n % U16);
      && m1.Keys == m.Keys && (forall k :: k in m && k != o ==> m1[k] == m[k])
      && (forall x :: x in m1[o].accepted <==> x in m[o].accepted || x == n)
      && m1[o].head == (if n > m[o].head then n else m[o].head) && m1[o].tooLow == 0
  {
    UnwrapIs(m[o].head, n);
  }

  // One that is too far below is refused and not recorded, sixteen times in a row; the seventeenth is accepted, and
  // nothing accepted before is remembered.
  lemma {:induction false} OutOfReach(m: Histories, o: Originator, n: int)
    requires o in m && m[o].head - HALF <= n < m[o].head - 31 && m[o].tooLow <= 16
    ensures Repeats(Verdict(m, o, n % U16)) <==> m[o].tooLow < 16
    ensures var m1 := After(m, o, n % U16);
      && m1.Keys == m.Keys && (forall k :: k in m && k != o ==> m1[k] == m[k])
      && if m[o].tooLow < 16
        then m1[o].accepted == m[o].accepted && m1[o].head == m[o].head && m1[o].tooLow == m[o].tooLow + 1
        else m1[o].accepted == [n % U16] && m1[o].head == n % U16 && m1[o].tooLow == 0
  {
    UnwrapIs(m[o].head, n);
  }

  // The first number of an originator is accepted, but not recorded.
  lemma {:induction false} FirstHeard(m: Histories, o: Originator, n: int)
    requires o !in m
    ensures !Repeats(Verdict(m, o, n % U16))
    ensures var m1 := After(m, o, n % U16);
      && m1.Keys == m.Keys + {o} && (forall k :: k in m ==> m1[k] == m[k])
      && m1[o].accepted == [] && m1[o].head == n % U16 && m1[o].tooLow == 0
  {
  }

  lemma {:induction false} UnwrapIs(head: int, n: int)
    requires head - HALF <= n < head + HALF
    ensures Unwrap(head, n % U16) == n
  {
    DiffUnique(n % U16, head % U16, n - head);
  }

  // What the set knows after a run of numbers of one originator, given by their true values.
  function Heard(m: Histories, o: Originator, ns: seq<int>): Histories
  {
    if ns == [] then m else After(Heard(m, o, ns[..|ns| - 1]), o, ns[|ns| - 1] % U16)
  }

  function Highest(ns: seq<int>): (r: int)
    requires ns != []
    ensures r in ns && forall x :: x in ns ==> x <= r
  {
    if |ns| == 1 then ns[0] else
      var r, x := Highest(ns[..|ns| - 1]), ns[|ns| - 1];
      assert ns == ns[..|ns| - 1] + [x];
      if x > r then x else r
  }

  // No number of the run is more than 31 below the highest before it, nor half the range above.
  ghost predicate Steady(ns: seq<int>)
  {
    && (ns != [] ==> 0 <= ns[0] < U16)
    && forall i {:trigger ns[i]} :: 0 < i < |ns| ==> Highest(ns[..i]) - 31 <= ns[i] < Highest(ns[..i]) + HALF
  }

  // The numbers ns have come, the first of them not recorded.
  ghost predicate Holds(h: History, ns: seq<int>)
    requires ns != []
  {
    h.head == Highest(ns) && h.tooLow == 0 && forall x :: x in h.accepted <==> x in ns[1..]
  }

  lemma {:induction false} HoldsOn(m: Histories, o: Originator, ns: seq<int>, n: int, all: seq<int>)
    requires ns != [] && o in m && Holds(m[o], ns) && Highest(ns) - 31 <= n < Highest(ns) + HALF
    requires |all| == |ns| + 1 && all[..|ns|] == ns && all[|ns|] == n
    ensures o in After(m, o, n % U16) && Holds(After(m, o, n % U16)[o], all)
  {
    HighestAfter(ns);
    InReach(m, o, n);
    assert all[1..] == ns[1..] + [n];
  }

  lemma {:induction false} SteadyStart(ns: seq<int>, k: nat)
    requires Steady(ns) && k <= |ns|
    ensures Steady(ns[..k])
  {
    forall i {:trigger ns[..k][i]} | 0 < i < k
      ensures Highest(ns[..k][..i]) - 31 <= ns[..k][i] < Highest(ns[..k][..i]) + HALF
    {
      assert ns[..k][..i] == ns[..i] && ns[..k][i] == ns[i];
    }
  }

  // Over such a run the numbers accepted are those that came, but for the first.
  lemma {:induction false} HeardMeans(m: Histories, o: Originator, ns: seq<int>) returns (h: Histories)
    requires o !in m && ns != [] && Steady(ns)
    ensures h == Heard(m, o, ns) && o in h && Holds(h[o], ns)
  {
    var k := |ns| - 1;
    if k == 0 {
      HeardFirst(m, o, ns);
      h := Heard(m, o, ns);
    } else {
      SteadyStart(ns, k);
      var before := HeardMeans(m, o, ns[..k]);
      h := After(before, o, ns[k] % U16);
      HoldsOn(before, o, ns[..k], ns[k], ns);
    }
  }

  lemma {:induction false} HeardFirst(m: Histories, o: Originator, ns: seq<int>)
    requires o !in m && |ns| == 1 && 0 <= ns[0] < U16
    ensures o in Heard(m, o, ns) && Holds(Heard(m, o, ns)[o], ns)
  {
    assert ns[..0] == [] && Heard(m, o, []) == m;
    FirstHeard(m, o, ns[0]);
  }

  lemma HighestAfter(ns: seq<int>)
    requires ns != []
    ensures forall x :: x in ns[1..] ==> x in ns && x <= Highest(ns)
  {
    assert ns == [ns[0]] + ns[1..];
  }

  // In a steady run a number is refused exactly if it has come before; the first of the run does not count.
  lemma {:induction false} Reception(m: Histories, o: Originator, ns: seq<int>, n: int)
    requires o !in m && Steady(ns + [n])
    ensures Repeats(Verdict(Heard(m, o, ns), o, n % U16)) <==> ns != [] && n in ns[1..]
  {
    if ns == [] {
      FirstHeard(m, o, n);
    } else {
      var all := ns + [n];
      SteadyStart(all, |ns|);
      assert all[|ns|] == n && all[..|ns|] == ns;
      var h := HeardMeans(m, o, ns);
      HighestAfter(ns);
      InReach(h, o, n);
    }
  }

  // Up to sixteen numbers in a row that are too far below the head are refused and change no verdict; the next is
  // accepted.
  lemma {:induction false} FarBelow(m: Histories, o: Originator, ns: seq<int>)
    requires o in m && m[o].tooLow == 0 && |ns| <= 16
    requires forall i :: 0 <= i < |ns| ==> m[o].head - HALF <= ns[i] < m[o].head - 31
    ensures var h := Heard(m, o, ns);
      && o in h && h[o].accepted == m[o].accepted && h[o].head == m[o].head && h[o].tooLow == |ns|
      && forall n :: m[o].head - HALF <= n < m[o].head - 31 ==> (Repeats(Verdict(h, o, n % U16)) <==> |ns| < 16)
  {
    if ns != [] {
      var q := ns[..|ns| - 1];
      FarBelow(m, o, q);
      OutOfReach(Heard(m, o, q), o, ns[|ns| - 1]);
    }
    var h := Heard(m, o, ns);
    forall n | m[o].head - HALF <= n < m[o].head - 31
      ensures Repeats(Verdict(h, o, n % U16)) <==> |ns| < 16
    {
      OutOfReach(h, o, n);
    }
  }

  // Told of the number, the set learns nothing, now or once it has been told another time.
  predicate Spent(m: Histories, o: Originator, s: nat) { After(m, o, s) == m }

  predicate SpentNext(m: Histories, o: Originator, s: nat) { Spent(After(m, o, s), o, s) }

  // Whoever learns nothing of a number has accepted it before.
  lemma {:induction false} SpentRepeats(m: Histories, o: Originator, s: nat)
    requires Spent(m, o, s)
    ensures o in m && Verdict(m, o, s) == Duplicate
  {
    var m1 := After(m, o, s);
    assert o in m1 && m1[o] == m[o];
  }

  // A number that was accepted is not accepted again, unless it was the first of its originator: then once more.
  lemma {:induction false} AcceptedAgain(m: Histories, o: Originator, s: nat)
    requires s < U16 && !Repeats(Verdict(m, o, s)) && (o in m ==> forall n :: n in m[o].accepted ==> n <= m[o].head)
    ensures var m1 := After(m, o, s);
      && Verdict(m1, o, s) == (if o in m then Duplicate else Old)
      && Verdict(After(m1, o, s), o, s) == Duplicate && SpentNext(m1, o, s) && (o in m ==> Spent(m1, o, s))
  {
    var m1 := After(m, o, s);
    if o in m {
      UnwrapCongruent(m[o].head, s);
      var n := Unwrap(m[o].head, s);
      var h := m1[o];
      assert Unwrap(h.head, s) == if h.head == s then s else n;
    }
    assert After(After(m1, o, s), o, s) == After(m1, o, s) && (o in m ==> After(m1, o, s) == m1);
  }

  // ---- the set ----

  ghost predicate EntryAt(entries: map<Originator, Window>, histories: Histories, o: Originator)
  {
    o in entries && o in histories && Shows(entries[o], histories[o]) && Once(histories[o].accepted)
  }

  lemma {:induction false} EntriesOn(entries: map<Originator, Window>, histories: Histories, o: Originator, w: Window,
                                     h: History)
    requires entries.Keys == histories.Keys && Shows(w, h) && Once(h.accepted)
    requires forall x {:trigger EntryAt(entries, histories, x)} :: x in entries ==> EntryAt(entries, histories, x)
    ensures forall x {:trigger EntryAt(entries[o := w], histories[o := h], x)} ::
      x in entries[o := w] ==> EntryAt(entries[o := w], histories[o := h], x)
  {
    forall x {:trigger EntryAt(entries[o := w], histories[o := h], x)} | x in entries[o := w]
      ensures EntryAt(entries[o := w], histories[o := h], x)
    {
      assert x != o ==> EntryAt(entries, histories, x);
    }
  }

  class DuplicateSet {
    var entries: map<Originator, Window>
    ghost var histories: Histories

    ghost predicate Valid()
      reads this
    {
      && entries.Keys == histories.Keys
      && forall o {:trigger EntryAt(entries, histories, o)} :: o in entries ==> EntryAt(entries, histories, o)
    }

    // No accepted number is above the head.
    lemma {:induction false} HeadsAbove(o: Originator)
      requires Valid()
      ensures o in histories ==> forall n :: n in histories[o].accepted ==> n <= histories[o].head
    {
      assert o in entries ==> EntryAt(entries, histories, o);
    }

    constructor ()
      ensures Valid() && entries == map[] && histories == map[]
    {
      entries, histories := map[], map[];
    }

    // olsr_is_duplicate_message
    method IsDuplicate(o: Originator, s: nat) returns (duplicate: bool, status: Status)
      requires Valid() && s < U16
      modifies this
      ensures Valid() && (histories, status) == Record(old(histories), o, s) && (duplicate <==> Repeats(status))
      ensures forall x :: x in old(entries) && x != o ==> x in entries && entries[x] == old(entries)[x]
    {
      if o !in entries {
        ResetStep(s);
        EntriesOn(entries, histories, o, Window(s, 0, 0), History(s, [], 0));
        entries, histories := entries[o := Window(s, 0, 0)], histories[o := History(s, [], 0)];
        return false, New;
      }
      var w;
      ghost var h;
      assert EntryAt(entries, histories, o);
      w, status, h := Examine(entries[o], s, histories[o]);
      EntriesOn(entries, histories, o, w, h);
      entries, histories := entries[o := w], histories[o := h];
      duplicate := status == Duplicate || status == TooOld;
    }
  }

  // The part of olsr_is_duplicate_message for an originator that has an entry.
  method Examine(w: Window, s: nat, ghost h: History) returns (w': Window, status: Status, ghost h': History)
    requires Shows(w, h) && s < U16
    ensures status == Judge(h, s).1
    ensures h' == Judge(h, s).0 && Shows(w', h')
  {
    var diff := Diff(s, w.seqnr);
    w', h' := w, h;
    UnwrapCongruent(h.head, s);
    if diff < -31 {
      w' := w'.(tooLow := w'.tooLow + 1);
      if w'.tooLow > 16 {
        ResetStep(s);
        w', h' := Window(s, 1, 0), History(s, [s], 0);
        return w', Reset, h';
      }
      h' := h.(tooLow := h.tooLow + 1);
      SameBits(w, h, w', h');
      return w', TooOld, h';
    }
    w' := w'.(tooLow := 0);
    h' := h.(tooLow := 0);
    SameBits(w, h, w', h');
    if diff <= 0 {
      assert BitAt(w, h, -diff);
      if Has(w'.bits, -diff) {
        return w', Duplicate, h';
      }
      OldStep(w, h, -diff);
      w', h' := w'.(bits := Set(w'.bits, -diff)), History(h.head, h.accepted + [h.head + diff], 0);
      return w', Old, h';
    }
    NewStep(w, h, diff, s);
    w' := Window(s, Set(if diff < 32 then Shl(w.bits, diff) else 0, 0), 0);
    h' := History(h.head + diff, h.accepted + [h.head + diff], 0);
    status := New;
  }

  lemma {:induction false} SameBits(w: Window, h: History, w': Window, h': History)
    requires Shows(w, h) && w'.bits == w.bits && w'.seqnr == w.seqnr && h'.head == h.head && h'.accepted == h.accepted
      && w'.tooLow == h'.tooLow
    ensures w'.tooLow <= 16 ==> Shows(w', h')
  {
    forall k {:trigger BitAt(w', h', k)} | 0 <= k < 32
      ensures BitAt(w', h', k)
    {
      assert BitAt(w, h, k);
    }
  }
}
